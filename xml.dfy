/**
 * The XML the subsystem reads and writes, abstracted from the streaming API:
 * a document is read as an already tokenised element tree, and a writer is
 * an object that records the calls made on it as a sequence of events.
 */
module Xml {

  /**
   * An element: its local name, its attributes in document order, its child
   * elements in document order and its character data.  Comments and
   * processing instructions are not represented.
   */
  datatype Node = Element(name: string, attrs: seq<(string, string)>, children: seq<Node>, text: string)

  /** One call on an XML stream writer. */
  datatype Event =
    | StartElement(name: string)
    | EmptyElement(name: string)
    | Attribute(name: string, value: string)
    | Characters(text: string)
    | EndElement

  predicate IsWhitespace(c: char)
  {
    c == ' ' || c == '\t' || c == '\n' || c == '\r'
  }

  /** Character data that a reader skips when it looks for the next tag. */
  predicate IsBlank(s: string)
  {
    forall i :: 0 <= i < |s| ==> IsWhitespace(s[i])
  }

  /**
   * The writer calls that produce an element tree: the start tag, its
   * attributes, its text (an empty text writes nothing), its children and
   * the end tag.
   */
  function Linearize(n: Node): seq<Event>
    decreases n, 1
  {
    [StartElement(n.name)] + AttributeEvents(n.attrs)
    + (if n.text == "" then [] else [Characters(n.text)])
    + LinearizeAll(n.children) + [EndElement]
  }

  function LinearizeAll(ns: seq<Node>): seq<Event>
    decreases ns, 0
  {
    if ns == [] then [] else Linearize(ns[0]) + LinearizeAll(ns[1..])
  }

  function AttributeEvents(attrs: seq<(string, string)>): seq<Event>
  {
    if attrs == [] then [] else [Attribute(attrs[0].0, attrs[0].1)] + AttributeEvents(attrs[1..])
  }

  /** The events with empty character runs removed: those leave no trace in a document. */
  function Visible(es: seq<Event>): seq<Event>
  {
    if es == [] then []
    else (if es[0] == Characters("") then [] else [es[0]]) + Visible(es[1..])
  }

  lemma {:induction false} VisibleAppend(a: seq<Event>, b: seq<Event>)
    ensures Visible(a + b) == Visible(a) + Visible(b)
  {
    if a == [] {
      assert a + b == b;
    } else {
      assert (a + b)[0] == a[0];
      assert (a + b)[1..] == a[1..] + b;
      VisibleAppend(a[1..], b);
    }
  }

  /** Events without any character run are visible as they are. */
  lemma {:induction false} VisibleNoText(es: seq<Event>)
    requires forall i :: 0 <= i < |es| ==> !es[i].Characters?
    ensures Visible(es) == es
  {
    if es != [] {
      VisibleNoText(es[1..]);
    }
  }

  /** Tags around a run of events stay visible around the run's visible events. */
  lemma VisibleWrapped(open: seq<Event>, body: seq<Event>, close: seq<Event>)
    requires forall i :: 0 <= i < |open| ==> !open[i].Characters?
    requires forall i :: 0 <= i < |close| ==> !close[i].Characters?
    ensures Visible(open + body + close) == open + Visible(body) + close
  {
    VisibleAppend(open + body, close);
    VisibleAppend(open, body);
    VisibleNoText(open);
    VisibleNoText(close);
  }

  /** An element with no attributes and no text whose only child is `c`. */
  lemma LinearizeOnlyChild(n: Node, c: Node)
    requires n.attrs == [] && n.text == "" && n.children == [c]
    ensures Linearize(n) == [StartElement(n.name)] + Linearize(c) + [EndElement]
  {
    assert LinearizeAll(n.children) == Linearize(c) + LinearizeAll([]);
  }

  lemma {:induction false} LinearizeAllAppend(a: seq<Node>, b: seq<Node>)
    ensures LinearizeAll(a + b) == LinearizeAll(a) + LinearizeAll(b)
  {
    if a == [] {
      assert a + b == b;
    } else {
      assert (a + b)[0] == a[0];
      assert (a + b)[1..] == a[1..] + b;
      LinearizeAllAppend(a[1..], b);
    }
  }

  /**
   * An XML stream writer.  Every call appends the event it stands for; the
   * stream's own failures are not modelled.
   */
  class XmlWriter {
    var events: seq<Event>

    constructor ()
      ensures events == []
    {
      events := [];
    }

    method WriteStartElement(name: string)
      modifies this
      ensures events == old(events) + [StartElement(name)]
    {
      events := events + [StartElement(name)];
    }

    method WriteEmptyElement(name: string)
      modifies this
      ensures events == old(events) + [EmptyElement(name)]
    {
      events := events + [EmptyElement(name)];
    }

    method WriteAttribute(name: string, value: string)
      modifies this
      ensures events == old(events) + [Attribute(name, value)]
    {
      events := events + [Attribute(name, value)];
    }

    method WriteCharacters(text: string)
      modifies this
      ensures events == old(events) + [Characters(text)]
    {
      events := events + [Characters(text)];
    }

    method WriteEndElement()
      modifies this
      ensures events == old(events) + [EndElement]
    {
      events := events + [EndElement];
    }
  }
}
