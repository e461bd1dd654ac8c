/**
 * The management vocabulary shared by the reader and the writer of the
 * security-providers subsystem: path addresses, `add` operations and the
 * names the subsystem registers under (SecurityProvidersExtension.java).
 */
module Management {

  datatype Option<T> = None | Some(value: T)

  /** Keys and values of the management model that the subsystem uses. */
  const ADD := "add"
  const SUBSYSTEM := "subsystem"
  const SUBSYSTEM_NAME := "security-providers"
  const ATTRIBUTES := "attributes"
  const SUNPKCS11 := "sunpkcs11"
  const SIMPLE_PROVIDER := "simple-provider"

  /** A path element is a (key, value) pair; an address is a path of them. */
  type PathElement = (string, string)
  type PathAddress = seq<PathElement>

  const SUBSYSTEM_PATH: PathElement := (SUBSYSTEM, SUBSYSTEM_NAME)

  /**
   * A management operation as the parser builds it: the operation name, the
   * address it targets and, for a SunPKCS11 registration, the optional
   * `attributes` payload.  The payload is a map because the parser collects
   * it in a hash map: the order of the document is not kept.
   */
  datatype Operation = Operation(op: string, address: PathAddress, attributes: Option<map<string, string>>)

  /** The synthetic operation that creates the subsystem itself: an `add` at the subsystem's own address. */
  function CreateAddSubsystemOperation(): (op: Operation)
    ensures op.op == ADD && op.address == [SUBSYSTEM_PATH] && op.attributes.None?
  {
    Operation(ADD, [SUBSYSTEM_PATH], None)
  }

  /**
   * The operation `readElement` builds for one `provider-class` element: an
   * `add` of the `simple-provider` child named by the class, without payload.
   */
  function SimpleProviderAddOperation(providerClassName: string): (op: Operation)
    ensures op.op == ADD && |op.address| == 2 && op.address[0] == SUBSYSTEM_PATH
    ensures op.address[1] == (SIMPLE_PROVIDER, providerClassName) && op.attributes.None?
  {
    Operation(ADD, [SUBSYSTEM_PATH, (SIMPLE_PROVIDER, providerClassName)], None)
  }

  /**
   * The operation `readSunPKCS11` builds: the `attributes` payload is only
   * attached when at least one attribute was read.
   */
  function SunPKCS11AddOperation(name: string, attributes: map<string, string>): (op: Operation)
    ensures op.op == ADD && |op.address| == 2 && op.address[0] == SUBSYSTEM_PATH
    ensures op.address[1] == (SUNPKCS11, name)
    ensures op.attributes.Some? <==> attributes != map[]
    // the map is recovered from the operation, the empty one from the absent payload
    ensures (if op.attributes.Some? then op.attributes.value else map[]) == attributes
  {
    Operation(ADD, [SUBSYSTEM_PATH, (SUNPKCS11, name)],
              if attributes == map[] then None else Some(attributes))
  }
}
