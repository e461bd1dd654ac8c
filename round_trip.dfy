/**
 * Writing then reading: the document `writeContent` writes for a model is
 * accepted by `readElement`, which yields one `add` per child of the model,
 * and a model built from the operations of a successful read is written
 * back as a document that yields those operations again.
 */
module RoundTrip {
  import opened Management
  import opened Xml
  import opened ParseSpec
  import opened WriteSpec
  import opened ParseProperties

  function SimpleProviderOps(names: seq<string>): (ops: seq<Operation>)
    ensures |ops| == |names|
    ensures forall i :: 0 <= i < |names| ==> ops[i] == SimpleProviderAddOperation(names[i])
  {
    if names == [] then [] else [SimpleProviderAddOperation(names[0])] + SimpleProviderOps(names[1..])
  }

  function ResourceOps(rs: seq<SunPKCS11Resource>): (ops: seq<Operation>)
    ensures |ops| == |rs|
    ensures forall i :: 0 <= i < |rs| ==> ops[i] == SunPKCS11AddOperation(rs[i].name, PutAll(Listing(rs[i])))
  {
    if rs == [] then [] else [SunPKCS11AddOperation(rs[0].name, PutAll(Listing(rs[0])))] + ResourceOps(rs[1..])
  }

  /**
   * The operations that recreate the model `m`: the subsystem, each simple
   * provider, then each SunPKCS11 resource with its property list as a map.
   */
  function ModelOperations(m: SubsystemModel): seq<Operation>
  {
    [CreateAddSubsystemOperation()] + SimpleProviderOps(ProviderNames(m)) + ResourceOps(Resources(m))
  }

  lemma {:induction false} ProviderClassNodesRead(names: seq<string>)
    ensures forall i :: 0 <= i < |ProviderClassNodes(names)| ==> AcceptedEntry(ProviderClassNodes(names)[i])
    ensures EntryOperations(ProviderClassNodes(names)) == SimpleProviderOps(names)
  {
    if names != [] {
      ProviderClassNodesRead(names[1..]);
      var ns := ProviderClassNodes(names);
      assert forall i :: 1 <= i < |ns| ==> ns[i] == ProviderClassNodes(names[1..])[i - 1];
    }
  }

  lemma AttributeNodeRead(p: (string, string))
    ensures var a := Element(EL_ATTRIBUTE, [(AT_ATTRIBUTE_NAME, p.0), (AT_ATTRIBUTE_VALUE, p.1)], [], "");
            AcceptedAttribute(a) && PairOf(a) == p
  {
    var attrs := [(AT_ATTRIBUTE_NAME, p.0), (AT_ATTRIBUTE_VALUE, p.1)];
    assert attrs[..1] == [(AT_ATTRIBUTE_NAME, p.0)];
    assert attrs[..1][..0] == [];
    assert LastValue(attrs, AT_ATTRIBUTE_NAME) == Some(p.0);
    assert LastValue(attrs, AT_ATTRIBUTE_VALUE) == Some(p.1);
    assert attrs[0].0 == AT_ATTRIBUTE_NAME && attrs[1].0 == AT_ATTRIBUTE_VALUE;
  }

  lemma {:induction false} AttributeNodesRead(ps: seq<(string, string)>)
    ensures forall i :: 0 <= i < |AttributeNodes(ps)| ==> AcceptedAttribute(AttributeNodes(ps)[i])
    ensures Pairs(AttributeNodes(ps)) == ps
  {
    if ps != [] {
      AttributeNodesRead(ps[1..]);
      AttributeNodeRead(ps[0]);
      var ns := AttributeNodes(ps);
      assert forall i :: 1 <= i < |ns| ==> ns[i] == AttributeNodes(ps[1..])[i - 1];
    }
  }

  lemma SunPKCS11NodeRead(r: SunPKCS11Resource)
    ensures AcceptedEntry(SunPKCS11Node(r))
    ensures EntryOperation(SunPKCS11Node(r)) == SunPKCS11AddOperation(r.name, PutAll(Listing(r)))
  {
    var e := SunPKCS11Node(r);
    AttributeNodesRead(Listing(r));
    assert e.attrs[0].0 == AT_SUNPKCS11_NAME;
    assert e.attrs[..0] == [];
    assert LastValue(e.attrs, AT_SUNPKCS11_NAME) == Some(r.name);
  }

  lemma {:induction false} SunPKCS11NodesRead(rs: seq<SunPKCS11Resource>)
    ensures forall i :: 0 <= i < |SunPKCS11Nodes(rs)| ==> AcceptedEntry(SunPKCS11Nodes(rs)[i])
    ensures EntryOperations(SunPKCS11Nodes(rs)) == ResourceOps(rs)
  {
    if rs != [] {
      SunPKCS11NodeRead(rs[0]);
      SunPKCS11NodesRead(rs[1..]);
      var ns, tail := SunPKCS11Nodes(rs), SunPKCS11Nodes(rs[1..]);
      assert ns == [SunPKCS11Node(rs[0])] + tail;
      forall i | 0 <= i < |ns|
        ensures AcceptedEntry(ns[i])
      {
        if i > 0 { assert ns[i] == tail[i - 1]; }
      }
      assert EntryOperations(ns) == [EntryOperation(ns[0])] + EntryOperations(ns[1..]);
      assert ns[1..] == tail;
    }
  }

  /** Reading the written document recreates exactly the model's children, in the model's order. */
  lemma ParseDocument(m: SubsystemModel)
    ensures Accepted(Document(m))
    ensures Parse(Document(m)) == Success(ModelOperations(m))
  {
    var providers, resources := ProviderClassNodes(ProviderNames(m)), SunPKCS11Nodes(Resources(m));
    DocumentAccepted(m);
    DocumentEntryOperations(m);
    var simple, sun := SimpleProviderOps(ProviderNames(m)), ResourceOps(Resources(m));
    ParseOfAccepted(Document(m), simple + sun);
    assert [CreateAddSubsystemOperation()] + (simple + sun) == ModelOperations(m);
  }

  /** The written document is accepted, and its entries are the provider classes followed by the resources. */
  lemma DocumentAccepted(m: SubsystemModel)
    ensures Accepted(Document(m))
    ensures Entries(Document(m).children) == ProviderClassNodes(ProviderNames(m)) + SunPKCS11Nodes(Resources(m))
  {
    var root := Document(m);
    var providers, resources := ProviderClassNodes(ProviderNames(m)), SunPKCS11Nodes(Resources(m));
    var container := Element(EL_SECURITY_PROVIDERS, [], providers + resources, "");
    assert root == Element(SUBSYSTEM_ELEMENT, [], [container], "");
    ProviderClassNodesRead(ProviderNames(m));
    SunPKCS11NodesRead(Resources(m));
    ContainerOfDocument(providers, resources);
    assert Entries([container]) == container.children + Entries([]);
  }

  /** The written entries read as the simple-provider adds followed by the SunPKCS11 adds. */
  lemma DocumentEntryOperations(m: SubsystemModel)
    ensures EntryOperations(ProviderClassNodes(ProviderNames(m)) + SunPKCS11Nodes(Resources(m)))
            == SimpleProviderOps(ProviderNames(m)) + ResourceOps(Resources(m))
  {
    ProviderClassNodesRead(ProviderNames(m));
    SunPKCS11NodesRead(Resources(m));
    EntryOperationsAppend(ProviderClassNodes(ProviderNames(m)), SunPKCS11Nodes(Resources(m)));
  }

  /** An accepted document parses to the subsystem add followed by its entries' operations. */
  lemma ParseOfAccepted(root: Node, ops: seq<Operation>)
    requires Accepted(root)
    requires EntryOperations(Entries(root.children)) == ops
    ensures Parse(root) == Success([CreateAddSubsystemOperation()] + ops)
  {
    ParseAcceptsExactly(root);
  }

  lemma ContainerOfDocument(providers: seq<Node>, resources: seq<Node>)
    requires forall i :: 0 <= i < |providers| ==> AcceptedEntry(providers[i])
    requires forall i :: 0 <= i < |resources| ==> AcceptedEntry(resources[i])
    ensures AcceptedContainer(Element(EL_SECURITY_PROVIDERS, [], providers + resources, ""))
  {
    var entries := providers + resources;
    forall i | 0 <= i < |entries|
      ensures AcceptedEntry(entries[i])
    {
      if i < |providers| {
        assert entries[i] == providers[i];
      } else {
        assert entries[i] == resources[i - |providers|];
      }
    }
  }

  /**
   * What `writeContent` writes for `m` describes `Document(m)`, and reading
   * that document yields the operations that recreate `m`.
   */
  lemma WriteThenRead(m: SubsystemModel)
    ensures Linearize(Document(m)) == Visible(ContentEvents(m))
    ensures Parse(Document(m)) == Success(ModelOperations(m))
  {
    ContentIsDocument(m);
    ParseDocument(m);
  }

  // ---------------------------------------------------------------------
  // Reading, building a model from the operations, writing, reading again.

  /** The `add` operations of the subsystem's children of kind `kind`, in order. */
  function OfKind(ops: seq<Operation>, kind: string): (r: seq<Operation>)
    ensures forall o :: o in r ==> o in ops && |o.address| == 2 && o.address[1].0 == kind
  {
    if ops == [] then []
    else (if |ops[0].address| == 2 && ops[0].address[1].0 == kind then [ops[0]] else []) + OfKind(ops[1..], kind)
  }

  /** The child names the operations address. */
  function ChildNames(ops: seq<Operation>): (names: seq<string>)
    ensures |names| == |ops|
    ensures forall i :: 0 <= i < |ops| ==> |ops[i].address| >= 2 ==> names[i] == ops[i].address[1].1
  {
    if ops == [] then []
    else [if |ops[0].address| >= 2 then ops[0].address[1].1 else ""] + ChildNames(ops[1..])
  }

  function Payload(attributes: Option<map<string, string>>): map<string, string>
  {
    if attributes.Some? then attributes.value else map[]
  }

  /**
   * A model the management layer holds after executing `ops`: one simple
   * provider per `simple-provider` add and one resource per `sunpkcs11` add,
   * in the order of the operations, each resource's property list holding
   * the payload's entries.
   */
  predicate BuiltFrom(m: SubsystemModel, ops: seq<Operation>)
  {
    var resourceOps := OfKind(ops, SUNPKCS11);
    && ProviderNames(m) == ChildNames(OfKind(ops, SIMPLE_PROVIDER))
    && |Resources(m)| == |resourceOps|
    && forall i :: 0 <= i < |resourceOps| ==>
         && Resources(m)[i].name == resourceOps[i].address[1].1
         && PutAll(Listing(Resources(m)[i])) == Payload(resourceOps[i].attributes)
  }

  /** An operation as the reader builds one for a container child. */
  predicate WellShaped(o: Operation)
  {
    && |o.address| == 2
    && (|| o == SimpleProviderAddOperation(o.address[1].1)
        || o == SunPKCS11AddOperation(o.address[1].1, Payload(o.attributes)))
  }

  lemma {:induction false} EntryOperationsWellShaped(es: seq<Node>)
    ensures forall o :: o in EntryOperations(es) ==> WellShaped(o)
  {
    forall o | o in EntryOperations(es)
      ensures WellShaped(o)
    {
      var i :| 0 <= i < |es| && EntryOperations(es)[i] == o;
      assert o == EntryOperation(es[i]);
    }
  }

  lemma {:induction false} SimpleRebuild(ops: seq<Operation>)
    requires forall o :: o in ops ==> WellShaped(o)
    ensures SimpleProviderOps(ChildNames(OfKind(ops, SIMPLE_PROVIDER))) == OfKind(ops, SIMPLE_PROVIDER)
  {
    var r := OfKind(ops, SIMPLE_PROVIDER);
    var rebuilt := SimpleProviderOps(ChildNames(r));
    forall i | 0 <= i < |r|
      ensures rebuilt[i] == r[i]
    {
      assert r[i] in r;
    }
  }

  lemma {:induction false} ResourceRebuild(ops: seq<Operation>, rs: seq<SunPKCS11Resource>)
    requires forall o :: o in ops ==> WellShaped(o)
    requires |rs| == |OfKind(ops, SUNPKCS11)|
    requires forall i :: 0 <= i < |rs| ==>
               && rs[i].name == OfKind(ops, SUNPKCS11)[i].address[1].1
               && PutAll(Listing(rs[i])) == Payload(OfKind(ops, SUNPKCS11)[i].attributes)
    ensures ResourceOps(rs) == OfKind(ops, SUNPKCS11)
  {
    var r := OfKind(ops, SUNPKCS11);
    forall i | 0 <= i < |r|
      ensures ResourceOps(rs)[i] == r[i]
    {
      assert r[i] in r;
    }
  }

  /**
   * Reading a document, building the model from its operations, writing
   * that model and reading the result yields the same subsystem `add`, then
   * the same `simple-provider` operations and the same `sunpkcs11`
   * operations (address and attribute map), each kind in its original
   * order; the written document lists the simple providers first.
   */
  lemma ReadWriteRead(root: Node, m: SubsystemModel)
    requires Parse(root).Success? && BuiltFrom(m, Parse(root).value)
    ensures var ops := Parse(root).value;
            Parse(Document(m)) == Success([ops[0]] + OfKind(ops, SIMPLE_PROVIDER) + OfKind(ops, SUNPKCS11))
  {
    var ops := Parse(root).value;
    ParseAcceptsExactly(root);
    var rest := EntryOperations(Entries(root.children));
    assert ops == [CreateAddSubsystemOperation()] + rest;
    assert ops[1..] == rest;
    EntryOperationsWellShaped(Entries(root.children));
    assert OfKind(ops, SIMPLE_PROVIDER) == OfKind(rest, SIMPLE_PROVIDER);
    assert OfKind(ops, SUNPKCS11) == OfKind(rest, SUNPKCS11);
    SimpleRebuild(rest);
    ResourceRebuild(rest, Resources(m));
    ParseDocument(m);
  }
}
