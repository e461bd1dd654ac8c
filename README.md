# Security-providers subsystem: XML reader and writer

This project models the XML reader and writer of the WildFly/JBoss AS
`security-providers` subsystem in Dafny, and proves properties of the model.

The subsystem document is a `subsystem` element that holds `security-providers`
containers. A container holds two kinds of child:

- a `provider-class` element, whose text names a simple provider;
- a `sunpkcs11` element, whose `name` attribute names a SunPKCS11 provider.
  Its `attribute` children each carry a `name` and a `value`.

The reader (`SubsystemParser.readElement`, `readSunPKCS11` and
`readSunPKCS11Attributes`) turns a document into a list of management `add`
operations. The subsystem `add` comes first, then one operation per container
child. It stops at the first structural error.

The writer (`SubsystemParser.writeContent`) turns the subsystem's management
model back into XML. `AttributesAttributeDefinition.marshallAsElement` writes
one empty `attribute` element per entry of a resource's `attributes` map.

How the model is organised:

- The document is an element tree: `Xml.Node`.
- An XML stream writer is an object that records the calls made on it:
  `Xml.XmlWriter`, a class whose `events` sequence each write method extends.
- `ParseSpec` gives, for each reader method, the function the method computes:
  - the checks run in the code's order;
  - the first failing check is the result (`Result.Failure`);
  - `Join` runs two reads one after the other, and the first failure wins.
- `SubsystemParser` keeps the Java loops. Each reader method is proved to compute
  its `ParseSpec` function. `WriteContent` is proved to append exactly `WriteSpec.ContentEvents(model)`.
  The body of its loop over SunPKCS11 resources is the separate method
  `WriteSunPKCS11`, so that each proof stays small.
- `WriteSpec` defines:
  - the writer's events;
  - the document `Document(m)` those events describe;
  - a proof that the events are that document's linearisation.
- `ParseProperties` characterises the reader:
  - which documents it accepts;
  - the operations it yields for them, in document order;
  - the error each rejected document raises.
- `RoundTrip` proves two things:
  - reading what the writer wrote yields the operations that recreate the model;
  - reading, building the model, writing and reading again yields the same operations.
- `SunPKCS11Definition` models the `attributes` map attribute: its constraints and its marshaller.

The reader's parsed `attributes` payload is collected in a `java.util.HashMap`.
The model therefore keeps it as an unordered `map`: document order is not preserved.
In four places the model follows the code rather than a stricter reading of the XML format:

- a document may hold zero or more `security-providers` containers;
- a `sunpkcs11` element may repeat `name` (the last value is kept), and its name may be empty;
  likewise an `attribute` element may repeat `name` or `value`. The list `Xml.Node.attrs` admits
  repeated attribute names, which well-formed XML excludes: a stream reader rejects such a
  document before these loops run, so on real input each name occurs at most once;
- the attributes of a `provider-class` element are never checked;
- the text of a `provider-class` element may be empty.

## Model

| member | source | states |
|---|---|---|
| Management.CreateAddSubsystemOperation | src/main/java/org/jboss/as/security/providers/extension/SecurityProvidersExtension.java:155-160 | an `add` at the one-segment address `[(subsystem, security-providers)]`, without payload |
| Management.SimpleProviderAddOperation | src/main/java/org/jboss/as/security/providers/extension/SecurityProvidersExtension.java:243-249 | an `add` at `[(subsystem, security-providers), (simple-provider, class name)]`, without payload |
| Management.SunPKCS11AddOperation | src/main/java/org/jboss/as/security/providers/extension/SecurityProvidersExtension.java:281-292 | an `add` at `[(subsystem, security-providers), (sunpkcs11, name)]`; the payload is present exactly when the map is non-empty, and the map is recovered from the operation in both cases |
| SubsystemParser.ReadElement | src/main/java/org/jboss/as/security/providers/extension/SecurityProvidersExtension.java:229-256 | the nested loops over containers and their children compute `Parse(root)`: an attribute on the root is rejected, and the subsystem add is followed by each container child's operations in document order, with the first error as the result |
| SubsystemParser.ReadSunPKCS11 | src/main/java/org/jboss/as/security/providers/extension/SecurityProvidersExtension.java:258-293 | appends to `list` exactly what `SunPKCS11Ops` yields: an unexpected element or attribute, a missing `name`, an error from the attribute children, or one add for the last `name` |
| SubsystemParser.ReadSunPKCS11Attributes | src/main/java/org/jboss/as/security/providers/extension/SecurityProvidersExtension.java:301-336 | the loop with its reassigned `attrName`/`attrValue` and its missing set computes `AttributeMap`: the hash map after the `put` calls, or the first child's error |
| SubsystemParser.WriteContent | src/main/java/org/jboss/as/security/providers/extension/SecurityProvidersExtension.java:181-224 | appends exactly `ContentEvents(model)`: subsystem and container start tags, every provider class, every SunPKCS11 resource, then the two end tags |
| SubsystemParser.WriteSunPKCS11 | src/main/java/org/jboss/as/security/providers/extension/SecurityProvidersExtension.java:199-218 | one `sunpkcs11` element: start tag, `name`, one `attribute` element per listed property in list order, end tag |
| WriteSpec.ContentIsDocument | src/main/java/org/jboss/as/security/providers/extension/SecurityProvidersExtension.java:182-224 | the writer's calls are the linearisation of `Document(m)`: one container holding the `provider-class` elements and then the `sunpkcs11` elements, each closed after its children |
| WriteSpec.ContainerLinearization | src/main/java/org/jboss/as/security/providers/extension/SecurityProvidersExtension.java:184-221 | the `security-providers` element wraps the providers' and resources' calls, opened first and closed last |
| WriteSpec.ProviderClassLinearization | src/main/java/org/jboss/as/security/providers/extension/SecurityProvidersExtension.java:186-195 | the provider loop's calls describe one `provider-class` element per name, in model order, with the name as text |
| WriteSpec.AttributeLinearization | src/main/java/org/jboss/as/security/providers/extension/SecurityProvidersExtension.java:205-215 | the attribute loop's calls describe one empty `attribute` element per property, with `name` and `value`, in list order |
| WriteSpec.SunPKCS11Linearization | src/main/java/org/jboss/as/security/providers/extension/SecurityProvidersExtension.java:197-219 | the resource loop's calls describe one `sunpkcs11` element per resource, in model order |
| ParseProperties.LastValueSpec | src/main/java/org/jboss/as/security/providers/extension/SecurityProvidersExtension.java:265-274 | the variable the attribute loop assigns is unset exactly when no attribute has the key, and otherwise holds the value of its last occurrence |
| ParseProperties.FirstForeignSpec | src/main/java/org/jboss/as/security/providers/extension/SecurityProvidersExtension.java:310-320 | the attribute loop throws exactly when some attribute is not allowed, and then for the first such attribute |
| ParseProperties.PutAllLookup | src/main/java/org/jboss/as/security/providers/extension/SecurityProvidersExtension.java:302-332 | the hash map has one key per distinct name put, mapped to the value of the last pair with that name |
| ParseProperties.CollectOpsSucceeds | src/main/java/org/jboss/as/security/providers/extension/SecurityProvidersExtension.java:236-255 | a loop over children succeeds exactly when every child is read successfully |
| ParseProperties.CollectOpsFirstFailure | src/main/java/org/jboss/as/security/providers/extension/SecurityProvidersExtension.java:236-255 | when the children before child `i` are read and child `i` fails, the loop's error is child `i`'s |
| ParseProperties.AttributeEntryAccepted | src/main/java/org/jboss/as/security/providers/extension/SecurityProvidersExtension.java:304-332 | an `attribute` element is read exactly when its tag, its attribute names, its empty content and both required attributes are right, and then yields (last `name`, last `value`) |
| ParseProperties.AttributePairsAccepted | src/main/java/org/jboss/as/security/providers/extension/SecurityProvidersExtension.java:303-334 | the attribute children are read exactly when every one is accepted, and yield their pairs in document order |
| ParseProperties.EntryAccepted | src/main/java/org/jboss/as/security/providers/extension/SecurityProvidersExtension.java:241-252 | a container child is read exactly when it is accepted, and then yields the one operation `EntryOperation` describes |
| ParseProperties.EntriesRead | src/main/java/org/jboss/as/security/providers/extension/SecurityProvidersExtension.java:240-254 | the children of a container yield one operation each, in document order |
| ParseProperties.ContainersRead | src/main/java/org/jboss/as/security/providers/extension/SecurityProvidersExtension.java:236-255 | accepted containers yield their children's operations, container after container |
| ParseProperties.ContainerAccepted | src/main/java/org/jboss/as/security/providers/extension/SecurityProvidersExtension.java:237-254 | a root child is read exactly when it is a `security-providers` container whose children are all accepted |
| ParseProperties.ParseAcceptsExactly | src/main/java/org/jboss/as/security/providers/extension/SecurityProvidersExtension.java:229-336 | the reader succeeds exactly on accepted documents, and yields the subsystem add and then one operation per container child across all containers, in document order |
| ParseProperties.ParseLeadingAdd | src/main/java/org/jboss/as/security/providers/extension/SecurityProvidersExtension.java:155-233 | an attribute on the subsystem element is rejected, naming the first one, before anything is read; otherwise the first operation is the one `add` at `[(subsystem, security-providers)]` without a payload (`createAddSubsystemOperation`), and every later one is an `add` of a `simple-provider` or `sunpkcs11` child of it |
| ParseProperties.ParseRejectsForeignContainer | src/main/java/org/jboss/as/security/providers/extension/SecurityProvidersExtension.java:236-239 | the first root child that is not `security-providers` raises unexpected-element with its name |
| ParseProperties.ParseRejectsForeignEntry | src/main/java/org/jboss/as/security/providers/extension/SecurityProvidersExtension.java:240-261 | the first container child that is neither `provider-class` nor `sunpkcs11` raises unexpected-element with its name |
| ParseProperties.ProviderClassOutcome | src/main/java/org/jboss/as/security/providers/extension/SecurityProvidersExtension.java:242-249 | a `provider-class` element yields one add at `[(subsystem, security-providers), (simple-provider, text)]`, with any text, empty included; a child element in it is an error |
| ParseProperties.AttributeEntryChecks | src/main/java/org/jboss/as/security/providers/extension/SecurityProvidersExtension.java:305-331 | the checks on an `attribute` element and their order: tag, then attribute names (the first foreign one), then content, then required attributes; the missing set is non-empty and names exactly the absent ones |
| ParseProperties.AttributePairsFirstFailure | src/main/java/org/jboss/as/security/providers/extension/SecurityProvidersExtension.java:303-334 | the first `attribute` child that is not accepted decides the error |
| ParseProperties.AttributeMapContents | src/main/java/org/jboss/as/security/providers/extension/SecurityProvidersExtension.java:301-336 | the attribute map has exactly one key per distinct `name` among the children, mapped to the `value` of the last child with that name |
| ParseProperties.AttributeMapEmpty | src/main/java/org/jboss/as/security/providers/extension/SecurityProvidersExtension.java:284-291 | the map is empty exactly when there are no `attribute` children, so the payload is attached exactly when there are some |
| ParseProperties.SunPKCS11Rejects | src/main/java/org/jboss/as/security/providers/extension/SecurityProvidersExtension.java:258-279 | a `sunpkcs11` element is rejected for its first attribute other than `name`, then for a missing `name` (missing set `{name}`), then for the first rejected `attribute` child |
| ParseProperties.SunPKCS11Accepts | src/main/java/org/jboss/as/security/providers/extension/SecurityProvidersExtension.java:279-292 | an accepted `sunpkcs11` element yields one add at `[..., (sunpkcs11, last name)]`, with the attribute map as payload exactly when it has children |
| ParseProperties.ExampleLaterAttributeWins | src/main/java/org/jboss/as/security/providers/extension/SecurityProvidersExtension.java:332 | two `attribute` children named `x` with values 1 and 2 give the payload `{x: 2}` |
| RoundTrip.ParseDocument | src/main/java/org/jboss/as/security/providers/extension/SecurityProvidersExtension.java:229-256 | the document the writer describes is accepted and yields the subsystem add, one simple-provider add per name and one sunpkcs11 add per resource with its property list as a map, in model order |
| RoundTrip.WriteThenRead | src/main/java/org/jboss/as/security/providers/extension/SecurityProvidersExtension.java:181-224 | what `writeContent` writes describes `Document(m)`, and reading it back yields the operations that recreate `m` |
| RoundTrip.EntryOperationsWellShaped | src/main/java/org/jboss/as/security/providers/extension/SecurityProvidersExtension.java:282-291 | every entry operation is determined by its two-segment address and its payload |
| RoundTrip.ReadWriteRead | src/main/java/org/jboss/as/security/providers/extension/SecurityProvidersExtension.java:182-336 | read, build the model from the operations, write, read again: the same subsystem add, the same simple-provider operations and the same sunpkcs11 operations (address and attribute map), each kind in its original order |
| SunPKCS11Definition.AttributesConstraints | src/main/java/org/jboss/as/security/providers/extension/SunPKCS11ResourceDefinition.java:82-84 | the `attributes` attribute may be undefined and admits any string map of at most `Integer.MAX_VALUE` entries; an entry's XML name is `attribute` |
| SunPKCS11Definition.MarshallAsElement | src/main/java/org/jboss/as/security/providers/extension/SunPKCS11ResourceDefinition.java:103-115 | nothing is written unless the attribute is marshallable; otherwise exactly `MarshalEvents` of its property list |
| SunPKCS11Definition.MarshalEventsLayout | src/main/java/org/jboss/as/security/providers/extension/SunPKCS11ResourceDefinition.java:107-114 | three calls per property in list order (empty `attribute` element, `name` = key, `value` = value), and no start or end tag around them |
| WriteSpec.AttributeElementEventsLayout | src/main/java/org/jboss/as/security/providers/extension/SecurityProvidersExtension.java:205-215 | four calls per property in `writeContent`'s attribute loop: start tag, `name`, `value`, end tag |
| SunPKCS11Definition.MarshalAgreesWithWriter | src/main/java/org/jboss/as/security/providers/extension/SunPKCS11ResourceDefinition.java:109-113 | the marshaller writes the same element name and the same `name`/`value` attributes in the same order as `writeContent`, with an empty element in place of a start and end tag |

## Left out

- StAX reading mechanics are not modelled because the document is given as an already tokenised tree. This covers `hasNext`, the whitespace and comment skipping of `nextTag`, and the internals of `getElementText`.
  - Non-blank text directly inside the subsystem, container or `sunpkcs11` element makes `nextTag` throw. The model ignores that text.
  - A child element inside `provider-class` is rejected as `TextOnlyExpected`.
- `ParseUtils` is not part of this model, so its exception messages and locations are left out.
  - `UnexpectedContent` stands for the failure of `requireNoContent`: an `attribute` element with a child or non-blank text.
- Namespace handling and `startSubsystemElement` are not modelled. `WriteContent` records a plain `subsystem` start element without the namespace.
- The failures of the stream writer itself (`XMLStreamException`) are not modelled.
- The partially filled list is not modelled. The Java methods append to the caller's list and leave what they appended there when they throw; the model returns the error instead.
- `ModelNode` internals are left out. This covers its `get` creating absent keys as a side effect, and `asList`/`asProperty`/`asString` conversions.
  - The model read view is given as `WriteSpec.SubsystemModel`. The resource model is given as a map from attribute name to property list.
- `SunPKCS11Definition.IsMarshallable` takes the framework's `isMarshallable` as "the attribute is defined". The library class that decides it is not part of this model.
- `SunPKCS11Definition.AttributesConstraints`: the `ModelTypeValidator(ModelType.STRING)` value check is carried by the type `map<string, string>` and is not stated separately.
- An empty provider class name is written as an empty character run. The relation to the document drops that run (`Xml.Visible`), since it leaves no trace in XML.
- Registration and description glue is left out because it is framework registration and resource-bundle lookup:
  - `initialize`, `initializeParsers`, `getResourceDescriptionResolver`;
  - the `SunPKCS11ResourceDefinition` constructor and `registerAttributes`;
  - the value-type description hooks of `AttributesAttributeDefinition`.
- `SimpleProviderAdd.java` is not part of this model. It installs a service in an external container.
- `SecuritProvidersDefinition.java` is not part of this model. It is resource registration and a log line.
- `RoundTrip.ReadWriteRead` does not model the management layer executing the operations. It takes as given a model related to the operations by `BuiltFrom`.
