/**
 * What `SubsystemParser.readElement` computes, as functions of the element
 * tree.  Each function reads one level of the document the way the Java
 * reader does: checks run in the order the code runs them and the first
 * failure is the result (the exception the code throws).
 */
module ParseSpec {
  import opened Management
  import opened Xml

  /** Element and attribute names of the subsystem's XML. */
  const EL_SECURITY_PROVIDERS := "security-providers"
  const EL_PROVIDER_CLASS := "provider-class"
  const EL_SUNPKCS11 := "sunpkcs11"
  const AT_SUNPKCS11_NAME := "name"
  const EL_ATTRIBUTE := "attribute"
  const AT_ATTRIBUTE_NAME := "name"
  const AT_ATTRIBUTE_VALUE := "value"

  /**
   * The exceptions the reader throws.  `TextOnlyExpected` is what reading
   * the text of an element that has a child element raises;
   * `UnexpectedContent` is the failure of the check that an element is empty.
   */
  datatype ParseError =
    | UnexpectedElement(element: string)
    | UnexpectedAttribute(attribute: string)
    | UnexpectedContent(element: string)
    | TextOnlyExpected(element: string)
    | MissingRequired(names: set<string>)

  datatype Result<T> = Success(value: T) | Failure(error: ParseError)

  /** Runs two reads one after the other: the first failure wins. */
  function Join<X>(r1: Result<seq<X>>, r2: Result<seq<X>>): Result<seq<X>>
  {
    match r1
    case Failure(e) => Failure(e)
    case Success(a) =>
      match r2
      case Failure(e) => Failure(e)
      case Success(b) => Success(a + b)
  }

  lemma JoinAssoc<X>(r1: Result<seq<X>>, r2: Result<seq<X>>, r3: Result<seq<X>>)
    ensures Join(Join(r1, r2), r3) == Join(r1, Join(r2, r3))
  {
    if r1.Success? && r2.Success? && r3.Success? {
      assert (r1.value + r2.value) + r3.value == r1.value + (r2.value + r3.value);
    }
  }

  /** The name of the first attribute the loop over `attrs` rejects. */
  function FirstForeign(attrs: seq<(string, string)>, allowed: set<string>): Option<string>
  {
    if attrs == [] then None
    else if attrs[0].0 !in allowed then Some(attrs[0].0)
    else FirstForeign(attrs[1..], allowed)
  }

  /** The value a loop over `attrs` leaves in the variable it assigns for `key`. */
  function LastValue(attrs: seq<(string, string)>, key: string): Option<string>
  {
    if attrs == [] then None
    else if attrs[|attrs| - 1].0 == key then Some(attrs[|attrs| - 1].1)
    else LastValue(attrs[..|attrs| - 1], key)
  }

  /** What a sequence of `put` calls leaves in an initially empty hash map. */
  function PutAll(ps: seq<(string, string)>): map<string, string>
  {
    if ps == [] then map[]
    else PutAll(ps[..|ps| - 1])[ps[|ps| - 1].0 := ps[|ps| - 1].1]
  }

  function Absent(v: Option<string>, name: string): set<string>
  {
    if v.None? then {name} else {}
  }

  /** One `attribute` element inside `sunpkcs11`, checked as the attribute loop checks it. */
  function AttributeEntry(a: Node): Result<(string, string)>
  {
    if a.name != EL_ATTRIBUTE then Failure(UnexpectedElement(a.name))
    else
      match FirstForeign(a.attrs, {AT_ATTRIBUTE_NAME, AT_ATTRIBUTE_VALUE})
      case Some(x) => Failure(UnexpectedAttribute(x))
      case None =>
        if a.children != [] || !IsBlank(a.text) then Failure(UnexpectedContent(a.name))
        else
          var attrName := LastValue(a.attrs, AT_ATTRIBUTE_NAME);
          var attrValue := LastValue(a.attrs, AT_ATTRIBUTE_VALUE);
          if attrName.None? || attrValue.None? then
            Failure(MissingRequired(Absent(attrName, AT_ATTRIBUTE_NAME) + Absent(attrValue, AT_ATTRIBUTE_VALUE)))
          else Success((attrName.value, attrValue.value))
  }

  /** The (name, value) pairs of the `attribute` children, in document order. */
  function AttributePairs(cs: seq<Node>): Result<seq<(string, string)>>
  {
    if cs == [] then Success([])
    else
      match AttributeEntry(cs[0])
      case Failure(e) => Failure(e)
      case Success(p) => Join(Success([p]), AttributePairs(cs[1..]))
  }

  /** What `readSunPKCS11Attributes` returns for the children of a `sunpkcs11` element. */
  function AttributeMap(cs: seq<Node>): Result<map<string, string>>
  {
    match AttributePairs(cs)
    case Failure(e) => Failure(e)
    case Success(ps) => Success(PutAll(ps))
  }

  /** The operations a sequence of elements yields, each read by `read`, in order. */
  function CollectOps(xs: seq<Node>, read: Node -> Result<seq<Operation>>): Result<seq<Operation>>
  {
    if xs == [] then Success([]) else Join(read(xs[0]), CollectOps(xs[1..], read))
  }

  lemma CollectOpsStep(xs: seq<Node>, i: nat, read: Node -> Result<seq<Operation>>)
    requires i < |xs|
    ensures CollectOps(xs[i..], read) == Join(read(xs[i]), CollectOps(xs[i + 1..], read))
  {
    assert xs[i..][0] == xs[i];
    assert xs[i..][1..] == xs[i + 1..];
  }

  lemma JoinUnit<X>(r: Result<seq<X>>)
    ensures Join(Success([]), r) == r && Join(r, Success([])) == r
  {
    if r.Success? {
      assert [] + r.value == r.value;
      assert r.value + [] == r.value;
    }
  }

  /** A `provider-class` element: its text is the provider's class name. */
  function ProviderClassOps(e: Node): Result<seq<Operation>>
  {
    if e.children != [] then Failure(TextOnlyExpected(e.name))
    else Success([SimpleProviderAddOperation(e.text)])
  }

  /** What `readSunPKCS11` appends for one child of the container. */
  function SunPKCS11Ops(e: Node): Result<seq<Operation>>
  {
    if e.name != EL_SUNPKCS11 then Failure(UnexpectedElement(e.name))
    else
      match FirstForeign(e.attrs, {AT_SUNPKCS11_NAME})
      case Some(x) => Failure(UnexpectedAttribute(x))
      case None =>
        match LastValue(e.attrs, AT_SUNPKCS11_NAME)
        case None => Failure(MissingRequired({AT_SUNPKCS11_NAME}))
        case Some(name) =>
          match AttributeMap(e.children)
          case Failure(err) => Failure(err)
          case Success(m) => Success([SunPKCS11AddOperation(name, m)])
  }

  /** One child of a `security-providers` container. */
  function EntryOps(e: Node): Result<seq<Operation>>
  {
    if e.name == EL_PROVIDER_CLASS then ProviderClassOps(e) else SunPKCS11Ops(e)
  }

  /** One child of the subsystem element. */
  function ContainerOps(c: Node): Result<seq<Operation>>
  {
    if c.name != EL_SECURITY_PROVIDERS then Failure(UnexpectedElement(c.name))
    else CollectOps(c.children, EntryOps)
  }

  /** What `readElement` adds to the operation list for the subsystem element `root`. */
  function Parse(root: Node): Result<seq<Operation>>
  {
    if root.attrs != [] then Failure(UnexpectedAttribute(root.attrs[0].0))
    else Join(Success([CreateAddSubsystemOperation()]), CollectOps(root.children, ContainerOps))
  }
}
