/**
 * What `SubsystemParser.writeContent` writes, as a function of the read view
 * of the subsystem's management model, and the element tree those writer
 * calls describe.
 */
module WriteSpec {
  import opened Management
  import opened Xml
  import opened ParseSpec

  /** The element the marshalling context opens around the subsystem's content. */
  const SUBSYSTEM_ELEMENT := "subsystem"

  /**
   * One `sunpkcs11` child of the subsystem model: its name and its
   * `attributes` property list, undefined when the resource has none.
   */
  datatype SunPKCS11Resource = SunPKCS11Resource(name: string, attributes: Option<seq<(string, string)>>)

  /**
   * The read view of the subsystem model: its `simple-provider` children
   * (by name) and its `sunpkcs11` children, each list undefined when the
   * model has no such child, in the model's own order.
   */
  datatype SubsystemModel = SubsystemModel(simpleProviders: Option<seq<string>>, sunpkcs11: Option<seq<SunPKCS11Resource>>)

  function ProviderNames(m: SubsystemModel): seq<string>
  {
    match m.simpleProviders
    case None => []
    case Some(ns) => ns
  }

  function Resources(m: SubsystemModel): seq<SunPKCS11Resource>
  {
    match m.sunpkcs11
    case None => []
    case Some(rs) => rs
  }

  function Listing(r: SunPKCS11Resource): seq<(string, string)>
  {
    match r.attributes
    case None => []
    case Some(ps) => ps
  }

  // ---------------------------------------------------------------------
  // The writer calls, in the order `writeContent` makes them.

  function ProviderClassEvents(names: seq<string>): seq<Event>
  {
    if names == [] then []
    else ProviderClassEvents(names[..|names| - 1])
         + [StartElement(EL_PROVIDER_CLASS), Characters(names[|names| - 1]), EndElement]
  }

  function AttributeElementEvents(ps: seq<(string, string)>): seq<Event>
  {
    if ps == [] then []
    else AttributeElementEvents(ps[..|ps| - 1])
         + [StartElement(EL_ATTRIBUTE), Attribute(AT_ATTRIBUTE_NAME, ps[|ps| - 1].0),
            Attribute(AT_ATTRIBUTE_VALUE, ps[|ps| - 1].1), EndElement]
  }

  function SunPKCS11ElementEvents(r: SunPKCS11Resource): seq<Event>
  {
    [StartElement(EL_SUNPKCS11), Attribute(AT_SUNPKCS11_NAME, r.name)]
    + AttributeElementEvents(Listing(r)) + [EndElement]
  }

  function SunPKCS11Events(rs: seq<SunPKCS11Resource>): seq<Event>
  {
    if rs == [] then []
    else SunPKCS11Events(rs[..|rs| - 1]) + SunPKCS11ElementEvents(rs[|rs| - 1])
  }

  /** Everything `writeContent` writes for the model `m`. */
  function ContentEvents(m: SubsystemModel): seq<Event>
  {
    [StartElement(SUBSYSTEM_ELEMENT), StartElement(EL_SECURITY_PROVIDERS)]
    + ProviderClassEvents(ProviderNames(m)) + SunPKCS11Events(Resources(m))
    + [EndElement, EndElement]
  }

  lemma ContentEventsSplit(m: SubsystemModel, before: seq<Event>)
    ensures before + ContentEvents(m)
            == before + [StartElement(SUBSYSTEM_ELEMENT), StartElement(EL_SECURITY_PROVIDERS)]
               + ProviderClassEvents(ProviderNames(m)) + SunPKCS11Events(Resources(m))
               + [EndElement] + [EndElement]
  {
  }

  /** One more resource written after the first `i`. */
  lemma SunPKCS11EventsExtend(prefix: seq<Event>, rs: seq<SunPKCS11Resource>, i: nat, done: seq<Event>)
    requires i < |rs| && done == prefix + SunPKCS11Events(rs[..i])
    ensures done + SunPKCS11ElementEvents(rs[i]) == prefix + SunPKCS11Events(rs[..i + 1])
  {
    assert rs[..i + 1][..i] == rs[..i];
  }

  // ---------------------------------------------------------------------
  // The document those calls describe.

  function ProviderClassNodes(names: seq<string>): seq<Node>
  {
    if names == [] then []
    else [Element(EL_PROVIDER_CLASS, [], [], names[0])] + ProviderClassNodes(names[1..])
  }

  function AttributeNodes(ps: seq<(string, string)>): seq<Node>
  {
    if ps == [] then []
    else [Element(EL_ATTRIBUTE, [(AT_ATTRIBUTE_NAME, ps[0].0), (AT_ATTRIBUTE_VALUE, ps[0].1)], [], "")]
         + AttributeNodes(ps[1..])
  }

  function SunPKCS11Node(r: SunPKCS11Resource): Node
  {
    Element(EL_SUNPKCS11, [(AT_SUNPKCS11_NAME, r.name)], AttributeNodes(Listing(r)), "")
  }

  function SunPKCS11Nodes(rs: seq<SunPKCS11Resource>): seq<Node>
  {
    if rs == [] then [] else [SunPKCS11Node(rs[0])] + SunPKCS11Nodes(rs[1..])
  }

  /**
   * The subsystem document for the model `m`: one `security-providers`
   * container holding every `provider-class` element and then every
   * `sunpkcs11` element.
   */
  function Document(m: SubsystemModel): Node
  {
    Element(SUBSYSTEM_ELEMENT, [], [
      Element(EL_SECURITY_PROVIDERS, [], ProviderClassNodes(ProviderNames(m)) + SunPKCS11Nodes(Resources(m)), "")
    ], "")
  }

  // ---------------------------------------------------------------------
  // The writer calls are a linearisation of that document.

  lemma {:induction false} ProviderClassNodesSnoc(names: seq<string>, n: string)
    ensures ProviderClassNodes(names + [n]) == ProviderClassNodes(names) + [Element(EL_PROVIDER_CLASS, [], [], n)]
  {
    if names == [] {
      assert names + [n] == [n];
    } else {
      assert (names + [n])[0] == names[0];
      assert (names + [n])[1..] == names[1..] + [n];
      ProviderClassNodesSnoc(names[1..], n);
    }
  }

  lemma {:induction false} AttributeNodesSnoc(ps: seq<(string, string)>, p: (string, string))
    ensures AttributeNodes(ps + [p])
            == AttributeNodes(ps) + [Element(EL_ATTRIBUTE, [(AT_ATTRIBUTE_NAME, p.0), (AT_ATTRIBUTE_VALUE, p.1)], [], "")]
  {
    if ps == [] {
      assert ps + [p] == [p];
    } else {
      assert (ps + [p])[0] == ps[0];
      assert (ps + [p])[1..] == ps[1..] + [p];
      AttributeNodesSnoc(ps[1..], p);
    }
  }

  lemma {:induction false} SunPKCS11NodesSnoc(rs: seq<SunPKCS11Resource>, r: SunPKCS11Resource)
    ensures SunPKCS11Nodes(rs + [r]) == SunPKCS11Nodes(rs) + [SunPKCS11Node(r)]
  {
    if rs == [] {
      assert rs + [r] == [r];
    } else {
      assert (rs + [r])[0] == rs[0];
      assert (rs + [r])[1..] == rs[1..] + [r];
      SunPKCS11NodesSnoc(rs[1..], r);
    }
  }

  lemma ProviderClassElementLinearization(n: string)
    ensures Linearize(Element(EL_PROVIDER_CLASS, [], [], n))
            == Visible([StartElement(EL_PROVIDER_CLASS), Characters(n), EndElement])
  {
    VisibleAppend([StartElement(EL_PROVIDER_CLASS)], [Characters(n), EndElement]);
    VisibleAppend([Characters(n)], [EndElement]);
    VisibleNoText([StartElement(EL_PROVIDER_CLASS)]);
    VisibleNoText([EndElement]);
    assert Visible([Characters(n)]) == if n == "" then [] else [Characters(n)] by {
      assert [Characters(n)][1..] == [];
    }
  }

  lemma {:induction false} ProviderClassLinearization(names: seq<string>)
    ensures LinearizeAll(ProviderClassNodes(names)) == Visible(ProviderClassEvents(names))
  {
    if names != [] {
      var init, n := names[..|names| - 1], names[|names| - 1];
      assert names == init + [n];
      var node := Element(EL_PROVIDER_CLASS, [], [], n);
      ProviderClassNodesSnoc(init, n);
      LinearizeAllAppend(ProviderClassNodes(init), [node]);
      ProviderClassLinearization(init);
      VisibleAppend(ProviderClassEvents(init), [StartElement(EL_PROVIDER_CLASS), Characters(n), EndElement]);
      ProviderClassElementLinearization(n);
      assert LinearizeAll([node]) == Linearize(node) + LinearizeAll([]);
    }
  }

  lemma AttributeElementLinearization(p: (string, string))
    ensures Linearize(Element(EL_ATTRIBUTE, [(AT_ATTRIBUTE_NAME, p.0), (AT_ATTRIBUTE_VALUE, p.1)], [], ""))
            == [StartElement(EL_ATTRIBUTE), Attribute(AT_ATTRIBUTE_NAME, p.0), Attribute(AT_ATTRIBUTE_VALUE, p.1), EndElement]
  {
    var attrs := [(AT_ATTRIBUTE_NAME, p.0), (AT_ATTRIBUTE_VALUE, p.1)];
    assert attrs[1..][1..] == [];
    assert AttributeEvents(attrs[1..]) == [Attribute(AT_ATTRIBUTE_VALUE, p.1)];
    assert AttributeEvents(attrs) == [Attribute(AT_ATTRIBUTE_NAME, p.0), Attribute(AT_ATTRIBUTE_VALUE, p.1)];
  }

  lemma {:induction false} AttributeLinearization(ps: seq<(string, string)>)
    ensures LinearizeAll(AttributeNodes(ps)) == Visible(AttributeElementEvents(ps))
  {
    if ps != [] {
      var init, p := ps[..|ps| - 1], ps[|ps| - 1];
      assert ps == init + [p];
      var node := Element(EL_ATTRIBUTE, [(AT_ATTRIBUTE_NAME, p.0), (AT_ATTRIBUTE_VALUE, p.1)], [], "");
      AttributeNodesSnoc(init, p);
      LinearizeAllAppend(AttributeNodes(init), [node]);
      AttributeLinearization(init);
      var tail := [StartElement(EL_ATTRIBUTE), Attribute(AT_ATTRIBUTE_NAME, p.0), Attribute(AT_ATTRIBUTE_VALUE, p.1), EndElement];
      VisibleAppend(AttributeElementEvents(init), tail);
      VisibleNoText(tail);
      AttributeElementLinearization(p);
      assert LinearizeAll([node]) == Linearize(node) + LinearizeAll([]);
    }
  }

  lemma SunPKCS11ElementLinearization(r: SunPKCS11Resource)
    ensures Linearize(SunPKCS11Node(r)) == Visible(SunPKCS11ElementEvents(r))
  {
    var head := [StartElement(EL_SUNPKCS11), Attribute(AT_SUNPKCS11_NAME, r.name)];
    VisibleWrapped(head, AttributeElementEvents(Listing(r)), [EndElement]);
    AttributeLinearization(Listing(r));
    assert [(AT_SUNPKCS11_NAME, r.name)][1..] == [];
    assert AttributeEvents([(AT_SUNPKCS11_NAME, r.name)]) == [Attribute(AT_SUNPKCS11_NAME, r.name)];
  }

  lemma {:induction false} SunPKCS11Linearization(rs: seq<SunPKCS11Resource>)
    ensures LinearizeAll(SunPKCS11Nodes(rs)) == Visible(SunPKCS11Events(rs))
  {
    if rs != [] {
      var init, r := rs[..|rs| - 1], rs[|rs| - 1];
      assert rs == init + [r];
      SunPKCS11NodesSnoc(init, r);
      LinearizeAllAppend(SunPKCS11Nodes(init), [SunPKCS11Node(r)]);
      SunPKCS11Linearization(init);
      VisibleAppend(SunPKCS11Events(init), SunPKCS11ElementEvents(r));
      SunPKCS11ElementLinearization(r);
      assert LinearizeAll([SunPKCS11Node(r)]) == Linearize(SunPKCS11Node(r)) + LinearizeAll([]);
    }
  }

  /**
   * The calls `writeContent` makes are the linearisation of `Document(m)`:
   * every element it opens is closed after its children, in reverse order of
   * opening, and the only difference is that an empty class name still
   * writes an (empty) character run.
   */
  lemma ContainerLinearization(m: SubsystemModel)
    ensures Linearize(Document(m).children[0])
            == [StartElement(EL_SECURITY_PROVIDERS)]
               + Visible(ProviderClassEvents(ProviderNames(m)) + SunPKCS11Events(Resources(m)))
               + [EndElement]
  {
    ProviderClassLinearization(ProviderNames(m));
    SunPKCS11Linearization(Resources(m));
    LinearizeAllAppend(ProviderClassNodes(ProviderNames(m)), SunPKCS11Nodes(Resources(m)));
    VisibleAppend(ProviderClassEvents(ProviderNames(m)), SunPKCS11Events(Resources(m)));
  }

  lemma ContentIsDocument(m: SubsystemModel)
    ensures Linearize(Document(m)) == Visible(ContentEvents(m))
  {
    var body := ProviderClassEvents(ProviderNames(m)) + SunPKCS11Events(Resources(m));
    var container := [StartElement(EL_SECURITY_PROVIDERS)] + body + [EndElement];
    assert ContentEvents(m) == [StartElement(SUBSYSTEM_ELEMENT)] + container + [EndElement];
    VisibleWrapped([StartElement(SUBSYSTEM_ELEMENT)], container, [EndElement]);
    VisibleWrapped([StartElement(EL_SECURITY_PROVIDERS)], body, [EndElement]);
    ContainerLinearization(m);
    LinearizeOnlyChild(Document(m), Document(m).children[0]);
  }

  /** Four calls per property in what `writeContent` writes for a property list. */
  lemma {:induction false} AttributeElementEventsLayout(ps: seq<(string, string)>)
    ensures |AttributeElementEvents(ps)| == 4 * |ps|
    ensures forall k :: 0 <= k < |ps| ==>
              && AttributeElementEvents(ps)[4 * k] == StartElement(EL_ATTRIBUTE)
              && AttributeElementEvents(ps)[4 * k + 1] == Attribute(AT_ATTRIBUTE_NAME, ps[k].0)
              && AttributeElementEvents(ps)[4 * k + 2] == Attribute(AT_ATTRIBUTE_VALUE, ps[k].1)
              && AttributeElementEvents(ps)[4 * k + 3] == EndElement
  {
    if ps != [] {
      var n := |ps| - 1;
      AttributeElementEventsLayout(ps[..n]);
      var es := AttributeElementEvents(ps);
      forall k | 0 <= k < |ps|
        ensures es[4 * k] == StartElement(EL_ATTRIBUTE)
        ensures es[4 * k + 1] == Attribute(AT_ATTRIBUTE_NAME, ps[k].0)
        ensures es[4 * k + 2] == Attribute(AT_ATTRIBUTE_VALUE, ps[k].1)
        ensures es[4 * k + 3] == EndElement
      {
        if k < n {
          assert ps[..n][k] == ps[k];
        }
      }
    }
  }
}
