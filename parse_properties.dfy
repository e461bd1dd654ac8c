/**
 * What the reader promises, proved about ParseSpec: which documents it
 * accepts, the operations it yields for them and in which order, and which
 * error each rejected document raises.
 */
module ParseProperties {
  import opened Management
  import opened Xml
  import opened ParseSpec

  // ---------------------------------------------------------------------
  // Attribute lists.

  /** `attrs[i]` is the last attribute named `key`. */
  predicate LastOccurrence(attrs: seq<(string, string)>, i: int, key: string)
  {
    0 <= i < |attrs| && attrs[i].0 == key && forall j :: i < j < |attrs| ==> attrs[j].0 != key
  }

  predicate Has(attrs: seq<(string, string)>, key: string)
  {
    exists i :: 0 <= i < |attrs| && attrs[i].0 == key
  }

  predicate OnlyNames(attrs: seq<(string, string)>, allowed: set<string>)
  {
    forall i :: 0 <= i < |attrs| ==> attrs[i].0 in allowed
  }

  /** `attrs[i]` is the first attribute whose name is not allowed. */
  predicate FirstOutside(attrs: seq<(string, string)>, i: int, allowed: set<string>)
  {
    0 <= i < |attrs| && attrs[i].0 !in allowed && forall j :: 0 <= j < i ==> attrs[j].0 in allowed
  }

  /** The variable a loop assigns for `key` ends up holding the value of its last occurrence. */
  lemma {:induction false} LastValueSpec(attrs: seq<(string, string)>, key: string)
    ensures LastValue(attrs, key).None? <==> !Has(attrs, key)
    ensures LastValue(attrs, key).Some? ==>
              exists i :: LastOccurrence(attrs, i, key) && attrs[i].1 == LastValue(attrs, key).value
  {
    if attrs != [] {
      var n := |attrs| - 1;
      var init := attrs[..n];
      LastValueSpec(init, key);
      if attrs[n].0 == key {
        assert LastOccurrence(attrs, n, key);
      } else {
        if Has(init, key) {
          var i :| 0 <= i < |init| && init[i].0 == key;
          assert attrs[i].0 == key;
        }
        if Has(attrs, key) {
          var i :| 0 <= i < |attrs| && attrs[i].0 == key;
          assert init[i].0 == key;
        }
        if LastValue(init, key).Some? {
          var i :| LastOccurrence(init, i, key) && init[i].1 == LastValue(init, key).value;
          assert LastOccurrence(attrs, i, key);
        }
      }
    }
  }

  /** The scan stops at the first attribute outside `allowed`, and only there. */
  lemma {:induction false} FirstForeignSpec(attrs: seq<(string, string)>, allowed: set<string>)
    ensures FirstForeign(attrs, allowed).None? <==> OnlyNames(attrs, allowed)
    ensures FirstForeign(attrs, allowed).Some? ==>
              exists i :: FirstOutside(attrs, i, allowed) && attrs[i].0 == FirstForeign(attrs, allowed).value
  {
    if attrs != [] {
      var tail := attrs[1..];
      FirstForeignSpec(tail, allowed);
      if attrs[0].0 in allowed {
        if OnlyNames(tail, allowed) {
          forall i | 0 <= i < |attrs|
            ensures attrs[i].0 in allowed
          {
            if i > 0 { assert attrs[i] == tail[i - 1]; }
          }
        }
        if OnlyNames(attrs, allowed) {
          forall i | 0 <= i < |tail|
            ensures tail[i].0 in allowed
          {
            assert tail[i] == attrs[i + 1];
          }
        }
        if FirstForeign(tail, allowed).Some? {
          var i :| FirstOutside(tail, i, allowed) && tail[i].0 == FirstForeign(tail, allowed).value;
          forall j | 0 <= j < i + 1
            ensures attrs[j].0 in allowed
          {
            if j > 0 { assert attrs[j] == tail[j - 1]; }
          }
          assert FirstOutside(attrs, i + 1, allowed);
        }
      } else {
        assert FirstOutside(attrs, 0, allowed);
      }
    }
  }

  /**
   * The hash map filled by `put` calls has one key per distinct name, mapped
   * to the value of the last pair with that name.
   */
  lemma {:induction false} PutAllLookup(ps: seq<(string, string)>, k: string)
    ensures k in PutAll(ps) <==> LastValue(ps, k).Some?
    ensures k in PutAll(ps) ==> PutAll(ps)[k] == LastValue(ps, k).value
  {
    if ps != [] {
      PutAllLookup(ps[..|ps| - 1], k);
    }
  }

  // ---------------------------------------------------------------------
  // Reading a sequence of elements.

  lemma {:induction false} CollectOpsSucceeds(xs: seq<Node>, read: Node -> Result<seq<Operation>>)
    ensures CollectOps(xs, read).Success? <==> forall i :: 0 <= i < |xs| ==> read(xs[i]).Success?
  {
    if xs != [] {
      CollectOpsSucceeds(xs[1..], read);
      if forall i :: 0 <= i < |xs[1..]| ==> read(xs[1..][i]).Success? {
        if read(xs[0]).Success? {
          forall i | 0 <= i < |xs|
            ensures read(xs[i]).Success?
          {
            if i > 0 { assert xs[i] == xs[1..][i - 1]; }
          }
        }
      } else {
        var i :| 0 <= i < |xs[1..]| && !read(xs[1..][i]).Success?;
        assert xs[1..][i] == xs[i + 1];
      }
    }
  }

  /** The first element that fails decides the error: reading stops there. */
  lemma {:induction false} CollectOpsFirstFailure(xs: seq<Node>, read: Node -> Result<seq<Operation>>, i: nat)
    requires i < |xs| && read(xs[i]).Failure?
    requires forall j :: 0 <= j < i ==> read(xs[j]).Success?
    ensures CollectOps(xs, read) == Failure(read(xs[i]).error)
  {
    if i > 0 {
      forall j | 0 <= j < i - 1
        ensures read(xs[1..][j]).Success?
      {
        assert xs[1..][j] == xs[j + 1];
      }
      assert xs[1..][i - 1] == xs[i];
      CollectOpsFirstFailure(xs[1..], read, i - 1);
    }
  }

  // ---------------------------------------------------------------------
  // The documents the reader accepts and the operations it yields.

  function Get(v: Option<string>): string
  {
    if v.Some? then v.value else ""
  }

  /** An `attribute` element the attribute loop accepts. */
  predicate AcceptedAttribute(a: Node)
  {
    && a.name == EL_ATTRIBUTE
    && OnlyNames(a.attrs, {AT_ATTRIBUTE_NAME, AT_ATTRIBUTE_VALUE})
    && a.children == [] && IsBlank(a.text)
    && Has(a.attrs, AT_ATTRIBUTE_NAME) && Has(a.attrs, AT_ATTRIBUTE_VALUE)
  }

  /** The (name, value) pair an accepted `attribute` element stands for. */
  function PairOf(a: Node): (string, string)
  {
    (Get(LastValue(a.attrs, AT_ATTRIBUTE_NAME)), Get(LastValue(a.attrs, AT_ATTRIBUTE_VALUE)))
  }

  function Pairs(cs: seq<Node>): (ps: seq<(string, string)>)
    ensures |ps| == |cs|
    ensures forall i :: 0 <= i < |cs| ==> ps[i] == PairOf(cs[i])
  {
    if cs == [] then [] else [PairOf(cs[0])] + Pairs(cs[1..])
  }

  /** A container child the reader accepts. */
  predicate AcceptedEntry(e: Node)
  {
    if e.name == EL_PROVIDER_CLASS then e.children == []
    else
      && e.name == EL_SUNPKCS11
      && OnlyNames(e.attrs, {AT_SUNPKCS11_NAME})
      && Has(e.attrs, AT_SUNPKCS11_NAME)
      && forall i :: 0 <= i < |e.children| ==> AcceptedAttribute(e.children[i])
  }

  predicate AcceptedContainer(c: Node)
  {
    c.name == EL_SECURITY_PROVIDERS && forall i :: 0 <= i < |c.children| ==> AcceptedEntry(c.children[i])
  }

  /** A subsystem element the reader accepts. */
  predicate Accepted(root: Node)
  {
    root.attrs == [] && forall i :: 0 <= i < |root.children| ==> AcceptedContainer(root.children[i])
  }

  /** The operation an accepted container child yields. */
  function EntryOperation(e: Node): Operation
  {
    if e.name == EL_PROVIDER_CLASS then SimpleProviderAddOperation(e.text)
    else SunPKCS11AddOperation(Get(LastValue(e.attrs, AT_SUNPKCS11_NAME)), PutAll(Pairs(e.children)))
  }

  function EntryOperations(es: seq<Node>): (ops: seq<Operation>)
    ensures |ops| == |es|
    ensures forall i :: 0 <= i < |es| ==> ops[i] == EntryOperation(es[i])
  {
    if es == [] then [] else [EntryOperation(es[0])] + EntryOperations(es[1..])
  }

  /** The children of every container, in document order. */
  function Entries(containers: seq<Node>): seq<Node>
  {
    if containers == [] then [] else containers[0].children + Entries(containers[1..])
  }

  lemma EntryOperationsAppend(a: seq<Node>, b: seq<Node>)
    ensures EntryOperations(a + b) == EntryOperations(a) + EntryOperations(b)
  {
    var whole, parts := EntryOperations(a + b), EntryOperations(a) + EntryOperations(b);
    forall i | 0 <= i < |whole|
      ensures whole[i] == parts[i]
    {
      if i < |a| {
        assert (a + b)[i] == a[i];
      } else {
        assert (a + b)[i] == b[i - |a|];
      }
    }
  }

  /** An `attribute` element is read exactly when it is accepted, and yields its pair. */
  lemma AttributeEntryAccepted(a: Node)
    ensures AttributeEntry(a).Success? <==> AcceptedAttribute(a)
    ensures AttributeEntry(a).Success? ==> AttributeEntry(a).value == PairOf(a)
  {
    FirstForeignSpec(a.attrs, {AT_ATTRIBUTE_NAME, AT_ATTRIBUTE_VALUE});
    LastValueSpec(a.attrs, AT_ATTRIBUTE_NAME);
    LastValueSpec(a.attrs, AT_ATTRIBUTE_VALUE);
  }

  lemma {:induction false} AttributePairsAccepted(cs: seq<Node>)
    ensures AttributePairs(cs).Success? <==> forall i :: 0 <= i < |cs| ==> AcceptedAttribute(cs[i])
    ensures AttributePairs(cs).Success? ==> AttributePairs(cs).value == Pairs(cs)
  {
    if cs != [] {
      AttributeEntryAccepted(cs[0]);
      AttributePairsAccepted(cs[1..]);
      if forall i :: 0 <= i < |cs| ==> AcceptedAttribute(cs[i]) {
        forall i | 0 <= i < |cs[1..]|
          ensures AcceptedAttribute(cs[1..][i])
        {
          assert cs[1..][i] == cs[i + 1];
        }
      } else {
        var i :| 0 <= i < |cs| && !AcceptedAttribute(cs[i]);
        if i > 0 { assert cs[1..][i - 1] == cs[i]; }
      }
    }
  }

  /** A container child is read exactly when it is accepted, and yields one operation. */
  lemma EntryAccepted(e: Node)
    ensures EntryOps(e).Success? <==> AcceptedEntry(e)
    ensures EntryOps(e).Success? ==> EntryOps(e).value == [EntryOperation(e)]
  {
    if e.name != EL_PROVIDER_CLASS && e.name == EL_SUNPKCS11 {
      FirstForeignSpec(e.attrs, {AT_SUNPKCS11_NAME});
      LastValueSpec(e.attrs, AT_SUNPKCS11_NAME);
      AttributePairsAccepted(e.children);
    }
  }

  lemma {:induction false} EntriesRead(es: seq<Node>)
    requires forall i :: 0 <= i < |es| ==> AcceptedEntry(es[i])
    ensures CollectOps(es, EntryOps) == Success(EntryOperations(es))
  {
    if es != [] {
      EntryAccepted(es[0]);
      assert forall i :: 0 <= i < |es[1..]| ==> es[1..][i] == es[i + 1];
      EntriesRead(es[1..]);
    }
  }

  lemma {:induction false} ContainersRead(cs: seq<Node>)
    requires forall i :: 0 <= i < |cs| ==> AcceptedContainer(cs[i])
    ensures CollectOps(cs, ContainerOps) == Success(EntryOperations(Entries(cs)))
  {
    if cs != [] {
      EntriesRead(cs[0].children);
      assert forall i :: 0 <= i < |cs[1..]| ==> cs[1..][i] == cs[i + 1];
      ContainersRead(cs[1..]);
      EntryOperationsAppend(cs[0].children, Entries(cs[1..]));
    }
  }

  lemma ContainerAccepted(c: Node)
    ensures ContainerOps(c).Success? <==> AcceptedContainer(c)
  {
    if c.name == EL_SECURITY_PROVIDERS {
      CollectOpsSucceeds(c.children, EntryOps);
      forall i | 0 <= i < |c.children|
        ensures EntryOps(c.children[i]).Success? <==> AcceptedEntry(c.children[i])
      {
        EntryAccepted(c.children[i]);
      }
    }
  }

  /**
   * The reader accepts exactly the accepted documents, and yields for them
   * the subsystem `add` followed by one operation per container child, in
   * document order across all the containers.
   */
  lemma ParseAcceptsExactly(root: Node)
    ensures Parse(root).Success? <==> Accepted(root)
    ensures Accepted(root) ==>
              Parse(root).value == [CreateAddSubsystemOperation()] + EntryOperations(Entries(root.children))
  {
    if root.attrs == [] {
      CollectOpsSucceeds(root.children, ContainerOps);
      forall i | 0 <= i < |root.children|
        ensures ContainerOps(root.children[i]).Success? <==> AcceptedContainer(root.children[i])
      {
        ContainerAccepted(root.children[i]);
      }
      if Accepted(root) {
        ContainersRead(root.children);
      }
    }
  }

  /**
   * A successful read starts with the one subsystem `add`; every later
   * operation is an `add` of a `simple-provider` or `sunpkcs11` child of the
   * subsystem.  An attribute on the subsystem element is rejected before
   * anything is read.
   */
  lemma ParseLeadingAdd(root: Node)
    ensures root.attrs != [] ==> Parse(root) == Failure(UnexpectedAttribute(root.attrs[0].0))
    ensures Parse(root).Success? ==>
              var ops := Parse(root).value;
              && |ops| >= 1
              && ops[0] == Operation(ADD, [(SUBSYSTEM, SUBSYSTEM_NAME)], None)
              && forall k :: 1 <= k < |ops| ==>
                   && ops[k].op == ADD && |ops[k].address| == 2
                   && ops[k].address[0] == (SUBSYSTEM, SUBSYSTEM_NAME)
                   && (ops[k].address[1].0 == SIMPLE_PROVIDER || ops[k].address[1].0 == SUNPKCS11)
  {
    ParseAcceptsExactly(root);
  }

  /** The first container that is not `security-providers` is rejected by name. */
  lemma ParseRejectsForeignContainer(root: Node, i: nat)
    requires root.attrs == [] && i < |root.children|
    requires forall j :: 0 <= j < i ==> AcceptedContainer(root.children[j])
    requires root.children[i].name != EL_SECURITY_PROVIDERS
    ensures Parse(root) == Failure(UnexpectedElement(root.children[i].name))
  {
    forall j | 0 <= j < i
      ensures ContainerOps(root.children[j]).Success?
    {
      ContainerAccepted(root.children[j]);
    }
    CollectOpsFirstFailure(root.children, ContainerOps, i);
  }

  /**
   * In an otherwise accepted document, the first container child that is
   * neither `provider-class` nor `sunpkcs11` is rejected by name.
   */
  lemma ParseRejectsForeignEntry(root: Node, i: nat, j: nat)
    requires root.attrs == [] && i < |root.children|
    requires forall k :: 0 <= k < i ==> AcceptedContainer(root.children[k])
    requires root.children[i].name == EL_SECURITY_PROVIDERS && j < |root.children[i].children|
    requires forall k :: 0 <= k < j ==> AcceptedEntry(root.children[i].children[k])
    requires root.children[i].children[j].name != EL_PROVIDER_CLASS
    requires root.children[i].children[j].name != EL_SUNPKCS11
    ensures Parse(root) == Failure(UnexpectedElement(root.children[i].children[j].name))
  {
    var c := root.children[i];
    forall k | 0 <= k < j
      ensures EntryOps(c.children[k]).Success?
    {
      EntryAccepted(c.children[k]);
    }
    CollectOpsFirstFailure(c.children, EntryOps, j);
    forall k | 0 <= k < i
      ensures ContainerOps(root.children[k]).Success?
    {
      ContainerAccepted(root.children[k]);
    }
    CollectOpsFirstFailure(root.children, ContainerOps, i);
  }

  /**
   * A `provider-class` element yields one `add` of the simple provider its
   * text names, whatever that text (empty included) and whatever its
   * attributes; a child element inside it is an error.
   */
  lemma ProviderClassOutcome(e: Node)
    requires e.name == EL_PROVIDER_CLASS
    ensures e.children == [] ==>
              EntryOps(e) == Success([Operation(ADD, [(SUBSYSTEM, SUBSYSTEM_NAME), (SIMPLE_PROVIDER, e.text)], None)])
    ensures e.children != [] ==> EntryOps(e) == Failure(TextOnlyExpected(EL_PROVIDER_CLASS))
  {
  }

  /**
   * The attribute loop's checks, in the order they run: the tag, then the
   * attribute names, then the content, then the required attributes; the
   * missing set names exactly the required attributes that are absent.
   */
  lemma AttributeEntryChecks(a: Node)
    ensures a.name != EL_ATTRIBUTE ==> AttributeEntry(a) == Failure(UnexpectedElement(a.name))
    ensures a.name == EL_ATTRIBUTE && !OnlyNames(a.attrs, {AT_ATTRIBUTE_NAME, AT_ATTRIBUTE_VALUE}) ==>
              exists i :: FirstOutside(a.attrs, i, {AT_ATTRIBUTE_NAME, AT_ATTRIBUTE_VALUE})
                          && AttributeEntry(a) == Failure(UnexpectedAttribute(a.attrs[i].0))
    ensures a.name == EL_ATTRIBUTE && OnlyNames(a.attrs, {AT_ATTRIBUTE_NAME, AT_ATTRIBUTE_VALUE})
            && (a.children != [] || !IsBlank(a.text)) ==>
              AttributeEntry(a) == Failure(UnexpectedContent(EL_ATTRIBUTE))
    ensures a.name == EL_ATTRIBUTE && OnlyNames(a.attrs, {AT_ATTRIBUTE_NAME, AT_ATTRIBUTE_VALUE})
            && a.children == [] && IsBlank(a.text)
            && !(Has(a.attrs, AT_ATTRIBUTE_NAME) && Has(a.attrs, AT_ATTRIBUTE_VALUE)) ==>
              && AttributeEntry(a).Failure? && AttributeEntry(a).error.MissingRequired?
              && AttributeEntry(a).error.names != {}
              && forall n :: n in AttributeEntry(a).error.names <==>
                   (n == AT_ATTRIBUTE_NAME || n == AT_ATTRIBUTE_VALUE) && !Has(a.attrs, n)
  {
    var allowed := {AT_ATTRIBUTE_NAME, AT_ATTRIBUTE_VALUE};
    FirstForeignSpec(a.attrs, allowed);
    LastValueSpec(a.attrs, AT_ATTRIBUTE_NAME);
    LastValueSpec(a.attrs, AT_ATTRIBUTE_VALUE);
    if a.name == EL_ATTRIBUTE && !OnlyNames(a.attrs, allowed) {
      var i :| FirstOutside(a.attrs, i, allowed) && a.attrs[i].0 == FirstForeign(a.attrs, allowed).value;
    }
  }

  /** Reading the `attribute` children stops at the first one that is not accepted. */
  lemma {:induction false} AttributePairsFirstFailure(cs: seq<Node>, j: nat)
    requires j < |cs| && !AcceptedAttribute(cs[j])
    requires forall k :: 0 <= k < j ==> AcceptedAttribute(cs[k])
    ensures AttributeEntry(cs[j]).Failure? && AttributePairs(cs) == Failure(AttributeEntry(cs[j]).error)
  {
    AttributeEntryAccepted(cs[0]);
    AttributeEntryAccepted(cs[j]);
    if j > 0 {
      assert forall k :: 0 <= k < |cs[1..]| ==> cs[1..][k] == cs[k + 1];
      AttributePairsFirstFailure(cs[1..], j - 1);
    }
  }

  /**
   * The map read from the `attribute` children has one key per distinct
   * `name`, mapped to the `value` of the last child with that name.
   */
  lemma AttributeMapContents(cs: seq<Node>)
    ensures AttributeMap(cs).Success? <==> forall i :: 0 <= i < |cs| ==> AcceptedAttribute(cs[i])
    ensures AttributeMap(cs).Success? ==>
              var m := AttributeMap(cs).value;
              && (forall k :: k in m <==> exists i :: 0 <= i < |cs| && PairOf(cs[i]).0 == k)
              && (forall k :: k in m ==> exists i :: LastOccurrence(Pairs(cs), i, k) && m[k] == PairOf(cs[i]).1)
  {
    AttributePairsAccepted(cs);
    if AttributeMap(cs).Success? {
      var m := AttributeMap(cs).value;
      var ps := Pairs(cs);
      forall k
        ensures k in m <==> exists i :: 0 <= i < |cs| && PairOf(cs[i]).0 == k
        ensures k in m ==> exists i :: LastOccurrence(ps, i, k) && m[k] == PairOf(cs[i]).1
      {
        PutAllLookup(ps, k);
        LastValueSpec(ps, k);
        if exists i :: 0 <= i < |cs| && PairOf(cs[i]).0 == k {
          var i :| 0 <= i < |cs| && PairOf(cs[i]).0 == k;
          assert ps[i].0 == k;
        }
        if k in m {
          var i :| 0 <= i < |ps| && ps[i].0 == k;
          assert PairOf(cs[i]).0 == k;
        }
      }
    }
  }

  /**
   * A `sunpkcs11` element is rejected for the first attribute other than
   * `name`, then for a missing `name`, then for the first `attribute` child
   * that is not accepted.
   */
  lemma SunPKCS11Rejects(e: Node)
    requires e.name == EL_SUNPKCS11
    ensures !OnlyNames(e.attrs, {AT_SUNPKCS11_NAME}) ==>
              exists i :: FirstOutside(e.attrs, i, {AT_SUNPKCS11_NAME})
                          && EntryOps(e) == Failure(UnexpectedAttribute(e.attrs[i].0))
    ensures OnlyNames(e.attrs, {AT_SUNPKCS11_NAME}) && !Has(e.attrs, AT_SUNPKCS11_NAME) ==>
              EntryOps(e) == Failure(MissingRequired({AT_SUNPKCS11_NAME}))
    ensures OnlyNames(e.attrs, {AT_SUNPKCS11_NAME}) && Has(e.attrs, AT_SUNPKCS11_NAME) ==>
              forall j :: 0 <= j < |e.children| && !AcceptedAttribute(e.children[j])
                          && (forall k :: 0 <= k < j ==> AcceptedAttribute(e.children[k])) ==>
                AttributeEntry(e.children[j]).Failure?
                && EntryOps(e) == Failure(AttributeEntry(e.children[j]).error)
  {
    FirstForeignSpec(e.attrs, {AT_SUNPKCS11_NAME});
    LastValueSpec(e.attrs, AT_SUNPKCS11_NAME);
    if !OnlyNames(e.attrs, {AT_SUNPKCS11_NAME}) {
      var i :| FirstOutside(e.attrs, i, {AT_SUNPKCS11_NAME})
               && e.attrs[i].0 == FirstForeign(e.attrs, {AT_SUNPKCS11_NAME}).value;
    }
    forall j | 0 <= j < |e.children| && !AcceptedAttribute(e.children[j])
               && (forall k :: 0 <= k < j ==> AcceptedAttribute(e.children[k]))
      ensures AttributeEntry(e.children[j]).Failure?
              && AttributePairs(e.children) == Failure(AttributeEntry(e.children[j]).error)
    {
      AttributePairsFirstFailure(e.children, j);
    }
  }

  /**
   * An accepted `sunpkcs11` element yields one `add` for the last `name`
   * given, carrying an `attributes` payload exactly when the element has
   * children.
   */
  lemma SunPKCS11Accepts(e: Node)
    requires e.name == EL_SUNPKCS11
    ensures EntryOps(e).Success? ==>
              && |EntryOps(e).value| == 1
              && var op := EntryOps(e).value[0];
              && op.op == ADD && op.address[..1] == [(SUBSYSTEM, SUBSYSTEM_NAME)]
              && (exists i :: LastOccurrence(e.attrs, i, AT_SUNPKCS11_NAME)
                              && op.address[1..] == [(SUNPKCS11, e.attrs[i].1)])
              && (op.attributes.Some? <==> e.children != [])
              && (op.attributes.Some? ==> Success(op.attributes.value) == AttributeMap(e.children))
  {
    if EntryOps(e).Success? {
      LastValueSpec(e.attrs, AT_SUNPKCS11_NAME);
      var name := LastValue(e.attrs, AT_SUNPKCS11_NAME).value;
      var m := AttributeMap(e.children).value;
      assert EntryOps(e).value == [SunPKCS11AddOperation(name, m)];
      AttributeMapEmpty(e.children);
    }
  }

  /** The map read from the `attribute` children is empty exactly when there are none. */
  lemma AttributeMapEmpty(cs: seq<Node>)
    ensures AttributeMap(cs).Success? ==> (AttributeMap(cs).value == map[] <==> cs == [])
  {
    if AttributeMap(cs).Success? && cs != [] {
      AttributePairsAccepted(cs);
      var ps := Pairs(cs);
      PutAllLookup(ps, ps[0].0);
      LastValueSpec(ps, ps[0].0);
      assert ps[0].0 in AttributeMap(cs).value;
    }
  }

  /** The `sunpkcs11` element of the example is accepted, and its later `x` wins. */
  lemma ExampleTokenRead()
    ensures var x1 := Element(EL_ATTRIBUTE, [(AT_ATTRIBUTE_NAME, "x"), (AT_ATTRIBUTE_VALUE, "1")], [], "");
            var x2 := Element(EL_ATTRIBUTE, [(AT_ATTRIBUTE_NAME, "x"), (AT_ATTRIBUTE_VALUE, "2")], [], "");
            var token := Element(EL_SUNPKCS11, [(AT_SUNPKCS11_NAME, "token")], [x1, x2], "");
            AcceptedEntry(token) && EntryOperation(token) == SunPKCS11AddOperation("token", map["x" := "2"])
  {
    var a1 := [(AT_ATTRIBUTE_NAME, "x"), (AT_ATTRIBUTE_VALUE, "1")];
    var a2 := [(AT_ATTRIBUTE_NAME, "x"), (AT_ATTRIBUTE_VALUE, "2")];
    var x1 := Element(EL_ATTRIBUTE, a1, [], "");
    var x2 := Element(EL_ATTRIBUTE, a2, [], "");
    assert a1[..1] == a2[..1] == [(AT_ATTRIBUTE_NAME, "x")];
    assert a1[..1][..0] == [];
    assert a1[1..][1..] == a2[1..][1..] == [];
    assert IsBlank("");
    var allowed := {AT_ATTRIBUTE_NAME, AT_ATTRIBUTE_VALUE};
    assert FirstForeign(a1[1..], allowed) == FirstForeign(a2[1..], allowed) == None;
    assert FirstForeign(a1, allowed) == FirstForeign(a2, allowed) == None;
    assert LastValue(a1, AT_ATTRIBUTE_NAME) == LastValue(a2, AT_ATTRIBUTE_NAME) == Some("x");
    assert LastValue(a1, AT_ATTRIBUTE_VALUE) == Some("1");
    assert LastValue(a2, AT_ATTRIBUTE_VALUE) == Some("2");
    assert AttributeEntry(x1) == Success(("x", "1"));
    assert AttributeEntry(x2) == Success(("x", "2"));
    AttributeEntryAccepted(x1);
    AttributeEntryAccepted(x2);
    var cs := [x1, x2];
    var ps := [("x", "1"), ("x", "2")];
    assert Pairs(cs) == ps;
    assert ps[..1][..0] == [];
    assert PutAll(ps) == map["x" := "2"];
    var name := [(AT_SUNPKCS11_NAME, "token")];
    assert name[..0] == [];
    var token := Element(EL_SUNPKCS11, name, cs, "");
    assert AcceptedEntry(token) by {
      assert name[0].0 == AT_SUNPKCS11_NAME;
    }
    assert EntryOperation(token) == SunPKCS11AddOperation("token", map["x" := "2"]);
  }

  /** Two `attribute` children with the same name: the later value is the one kept. */
  lemma ExampleLaterAttributeWins()
    ensures var x1 := Element(EL_ATTRIBUTE, [(AT_ATTRIBUTE_NAME, "x"), (AT_ATTRIBUTE_VALUE, "1")], [], "");
            var x2 := Element(EL_ATTRIBUTE, [(AT_ATTRIBUTE_NAME, "x"), (AT_ATTRIBUTE_VALUE, "2")], [], "");
            var token := Element(EL_SUNPKCS11, [(AT_SUNPKCS11_NAME, "token")], [x1, x2], "");
            var root := Element("subsystem", [], [Element(EL_SECURITY_PROVIDERS, [], [token], "")], "");
            Parse(root) == Success([CreateAddSubsystemOperation(), SunPKCS11AddOperation("token", map["x" := "2"])])
  {
    var x1 := Element(EL_ATTRIBUTE, [(AT_ATTRIBUTE_NAME, "x"), (AT_ATTRIBUTE_VALUE, "1")], [], "");
    var x2 := Element(EL_ATTRIBUTE, [(AT_ATTRIBUTE_NAME, "x"), (AT_ATTRIBUTE_VALUE, "2")], [], "");
    var token := Element(EL_SUNPKCS11, [(AT_SUNPKCS11_NAME, "token")], [x1, x2], "");
    ExampleTokenRead();
    var container := Element(EL_SECURITY_PROVIDERS, [], [token], "");
    var root := Element("subsystem", [], [container], "");
    assert Accepted(root);
    assert Entries(root.children) == [token] + Entries([]) == [token];
    assert EntryOperations([token]) == [EntryOperation(token)];
    ParseAcceptsExactly(root);
    var op := SunPKCS11AddOperation("token", map["x" := "2"]);
    var ops := [CreateAddSubsystemOperation()] + [op];
    assert Parse(root) == Success(ops);
    assert ops == [CreateAddSubsystemOperation(), op];
  }
}
