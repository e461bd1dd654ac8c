/**
 * `SunPKCS11ResourceDefinition.AttributesAttributeDefinition`: the
 * `attributes` map attribute of a `sunpkcs11` resource, with the
 * constraints it is constructed with and the way it writes itself as XML.
 */
module SunPKCS11Definition {
  import opened Management
  import opened Xml
  import opened ParseSpec
  import opened WriteSpec

  /** `Integer.MAX_VALUE`. */
  const INTEGER_MAX_VALUE := 0x7FFF_FFFF

  /**
   * The constraints a map attribute definition is built with: its name in
   * the management model, the name of the XML element of one entry, whether
   * it may be undefined and the bounds on its number of entries.  Entry
   * values are strings; the `ModelType.STRING` validator is the value type
   * of the map.
   */
  datatype MapAttributeDefinition = MapAttributeDefinition(
    name: string, xmlName: string, allowNull: bool, minSize: int, maxSize: int)

  /** The definition `AttributesAttributeDefinition()` builds. */
  const ATTRIBUTES_DEFINITION := MapAttributeDefinition(ATTRIBUTES, "attribute", true, 0, INTEGER_MAX_VALUE)

  /** A value the definition admits: undefined when null is allowed, or a map of admitted size. */
  predicate Admits(d: MapAttributeDefinition, value: Option<map<string, string>>)
  {
    match value
    case None => d.allowNull
    case Some(m) => d.minSize <= |m| <= d.maxSize
  }

  /**
   * A record of the constructor's arguments: the `attributes` attribute is
   * optional, admits any string map of at most `Integer.MAX_VALUE` entries,
   * and names its entries' elements as the reader does.  The facts follow
   * from the definition of `ATTRIBUTES_DEFINITION` and `Admits` alone.
   */
  lemma AttributesConstraints()
    ensures Admits(ATTRIBUTES_DEFINITION, None)
    ensures forall m: map<string, string> :: Admits(ATTRIBUTES_DEFINITION, Some(m)) <==> |m| <= INTEGER_MAX_VALUE
    ensures ATTRIBUTES_DEFINITION.xmlName == EL_ATTRIBUTE
  {
  }

  /**
   * The attribute values of a resource model: an attribute whose name is a
   * key is defined and holds that property list.  Whether the definition is
   * written at all is the framework's `isMarshallable`, which holds when the
   * attribute is defined.
   */
  type ResourceModel = map<string, seq<(string, string)>>

  predicate IsMarshallable(d: MapAttributeDefinition, resourceModel: ResourceModel)
  {
    d.name in resourceModel
  }

  /** One empty element per property, carrying the property's name and value. */
  function MarshalEvents(xmlName: string, ps: seq<(string, string)>): seq<Event>
  {
    if ps == [] then []
    else MarshalEvents(xmlName, ps[..|ps| - 1])
         + [EmptyElement(xmlName), Attribute("name", ps[|ps| - 1].0), Attribute("value", ps[|ps| - 1].1)]
  }

  /** `marshallAsElement`: writes nothing unless the attribute is marshallable. */
  method MarshallAsElement(d: MapAttributeDefinition, resourceModel: ResourceModel, writer: XmlWriter)
    modifies writer
    ensures writer.events == old(writer.events)
              + (if IsMarshallable(d, resourceModel) then MarshalEvents(d.xmlName, resourceModel[d.name]) else [])
  {
    if !IsMarshallable(d, resourceModel) {
      return;
    }
    var properties := resourceModel[d.name];
    // no element is written around the entries
    for i := 0 to |properties|
      invariant writer.events == old(writer.events) + MarshalEvents(d.xmlName, properties[..i])
    {
      assert properties[..i + 1][..i] == properties[..i];
      var (name, value) := properties[i];
      writer.WriteEmptyElement(d.xmlName);
      writer.WriteAttribute("name", name);
      writer.WriteAttribute("value", value);
    }
    assert properties[..|properties|] == properties;
  }

  /**
   * Three calls per property, in list order: the empty element, its `name`
   * and its `value`; no start or end tag, so nothing wraps the entries.
   */
  lemma {:induction false} MarshalEventsLayout(xmlName: string, ps: seq<(string, string)>)
    ensures |MarshalEvents(xmlName, ps)| == 3 * |ps|
    ensures forall k :: 0 <= k < |ps| ==>
              && MarshalEvents(xmlName, ps)[3 * k] == EmptyElement(xmlName)
              && MarshalEvents(xmlName, ps)[3 * k + 1] == Attribute("name", ps[k].0)
              && MarshalEvents(xmlName, ps)[3 * k + 2] == Attribute("value", ps[k].1)
    ensures forall i :: 0 <= i < |MarshalEvents(xmlName, ps)| ==>
              !MarshalEvents(xmlName, ps)[i].StartElement? && !MarshalEvents(xmlName, ps)[i].EndElement?
  {
    if ps != [] {
      var n := |ps| - 1;
      MarshalEventsLayout(xmlName, ps[..n]);
      var es := MarshalEvents(xmlName, ps);
      forall k | 0 <= k < |ps|
        ensures es[3 * k] == EmptyElement(xmlName)
        ensures es[3 * k + 1] == Attribute("name", ps[k].0)
        ensures es[3 * k + 2] == Attribute("value", ps[k].1)
      {
        if k < n {
          assert ps[..n][k] == ps[k];
        }
      }
    }
  }

  /**
   * Marshalling the `attributes` definition writes the same entries, with the
   * same element name and the same `name` and `value` attributes in the same
   * order, as `writeContent` writes inside a `sunpkcs11` element; it spells
   * each entry as an empty element instead of a start and an end tag.
   */
  lemma MarshalAgreesWithWriter(ps: seq<(string, string)>)
    ensures |MarshalEvents(ATTRIBUTES_DEFINITION.xmlName, ps)| == 3 * |ps|
    ensures |AttributeElementEvents(ps)| == 4 * |ps|
    ensures forall k :: 0 <= k < |ps| ==>
              && MarshalEvents(ATTRIBUTES_DEFINITION.xmlName, ps)[3 * k] == EmptyElement(EL_ATTRIBUTE)
              && AttributeElementEvents(ps)[4 * k] == StartElement(EL_ATTRIBUTE)
              && MarshalEvents(ATTRIBUTES_DEFINITION.xmlName, ps)[3 * k + 1] == AttributeElementEvents(ps)[4 * k + 1]
              && MarshalEvents(ATTRIBUTES_DEFINITION.xmlName, ps)[3 * k + 2] == AttributeElementEvents(ps)[4 * k + 2]
  {
    MarshalEventsLayout(ATTRIBUTES_DEFINITION.xmlName, ps);
    AttributeElementEventsLayout(ps);
  }
}
