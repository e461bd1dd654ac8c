/**
 * `SecurityProvidersExtension.SubsystemParser`: the reader that turns the
 * subsystem's XML into `add` operations and the writer that turns the
 * subsystem's model back into XML.  The reader's methods keep the Java
 * loops; each is proved to compute the matching function of ParseSpec.
 */
module SubsystemParser {
  import opened Management
  import opened Xml
  import opened ParseSpec
  import opened WriteSpec

  /**
   * `readElement`: the subsystem element must have no attributes; the
   * subsystem `add` comes first, then the operations of every container's
   * children in document order.  Where the Java code throws, leaving what it
   * had appended in the caller's list, this returns the error.
   */
  method ReadElement(root: Node) returns (r: Result<seq<Operation>>)
    ensures r == Parse(root)
  {
    if |root.attrs| > 0 {
      return Failure(UnexpectedAttribute(root.attrs[0].0));
    }
    var list := [CreateAddSubsystemOperation()];
    ghost var whole := Join(Success(list), CollectOps(root.children, ContainerOps));
    assert root.children[0..] == root.children;
    var i := 0;
    while i < |root.children|
      invariant 0 <= i <= |root.children|
      invariant whole == Join(Success(list), CollectOps(root.children[i..], ContainerOps))
    {
      var container := root.children[i];
      CollectOpsStep(root.children, i, ContainerOps);
      if container.name != EL_SECURITY_PROVIDERS {
        return Failure(UnexpectedElement(container.name));
      }
      ghost var rest := CollectOps(root.children[i + 1..], ContainerOps);
      assert container.children[0..] == container.children;
      var j := 0;
      while j < |container.children|
        invariant 0 <= j <= |container.children|
        invariant whole == Join(Success(list), Join(CollectOps(container.children[j..], EntryOps), rest))
      {
        var entry := container.children[j];
        CollectOpsStep(container.children, j, EntryOps);
        ghost var later := Join(CollectOps(container.children[j + 1..], EntryOps), rest);
        JoinAssoc(EntryOps(entry), CollectOps(container.children[j + 1..], EntryOps), rest);
        JoinAssoc(Success(list), EntryOps(entry), later);
        if entry.name == EL_PROVIDER_CLASS {
          if entry.children != [] {
            return Failure(TextOnlyExpected(entry.name));
          }
          var providerClassName := entry.text;
          list := list + [SimpleProviderAddOperation(providerClassName)];
        } else {
          var next := ReadSunPKCS11(entry, list);
          if next.Failure? {
            return Failure(next.error);
          }
          list := next.value;
        }
        j := j + 1;
      }
      JoinUnit(rest);
      i := i + 1;
    }
    JoinUnit(Success(list));
    r := Success(list);
  }

  /**
   * `readSunPKCS11`: the element must be `sunpkcs11`, may carry only `name`
   * attributes and must carry one; its `attribute` children are then read
   * and one `add` is appended to `list`.
   */
  method ReadSunPKCS11(e: Node, list: seq<Operation>) returns (r: Result<seq<Operation>>)
    ensures r == Join(Success(list), SunPKCS11Ops(e))
  {
    if e.name != EL_SUNPKCS11 {
      return Failure(UnexpectedElement(e.name));
    }
    var sunPkcs11Name: Option<string> := None;
    assert e.attrs[0..] == e.attrs;
    for i := 0 to |e.attrs|
      invariant FirstForeign(e.attrs, {AT_SUNPKCS11_NAME}) == FirstForeign(e.attrs[i..], {AT_SUNPKCS11_NAME})
      invariant sunPkcs11Name == LastValue(e.attrs[..i], AT_SUNPKCS11_NAME)
    {
      var (attr, value) := e.attrs[i];
      assert e.attrs[i..][0] == e.attrs[i];
      assert e.attrs[i..][1..] == e.attrs[i + 1..];
      assert e.attrs[..i + 1][..i] == e.attrs[..i];
      if attr == AT_SUNPKCS11_NAME {
        sunPkcs11Name := Some(value);
      } else {
        return Failure(UnexpectedAttribute(attr));
      }
    }
    assert e.attrs[..|e.attrs|] == e.attrs;
    if sunPkcs11Name.None? {
      return Failure(MissingRequired({AT_SUNPKCS11_NAME}));
    }
    var sunPKCS11Attributes := ReadSunPKCS11Attributes(e.children);
    if sunPKCS11Attributes.Failure? {
      return Failure(sunPKCS11Attributes.error);
    }
    r := Success(list + [SunPKCS11AddOperation(sunPkcs11Name.value, sunPKCS11Attributes.value)]);
  }

  /**
   * `readSunPKCS11Attributes`: every child must be an empty `attribute`
   * element with only `name` and `value` attributes and both of them; the
   * pairs are put into a hash map, a later pair replacing an earlier one
   * with the same name.
   */
  method ReadSunPKCS11Attributes(cs: seq<Node>) returns (r: Result<map<string, string>>)
    ensures r == AttributeMap(cs)
  {
    var result: map<string, string> := map[];
    ghost var done: seq<(string, string)> := [];
    assert cs[0..] == cs;
    assert Join(Success(done), AttributePairs(cs)) == AttributePairs(cs) by {
      if AttributePairs(cs).Success? { assert [] + AttributePairs(cs).value == AttributePairs(cs).value; }
    }
    var i := 0;
    while i < |cs|
      invariant 0 <= i <= |cs|
      invariant AttributePairs(cs) == Join(Success(done), AttributePairs(cs[i..]))
      invariant result == PutAll(done)
    {
      var a := cs[i];
      assert cs[i..][0] == a;
      assert cs[i..][1..] == cs[i + 1..];
      if a.name != EL_ATTRIBUTE {
        return Failure(UnexpectedElement(a.name));
      }
      var attrName: Option<string> := None;
      var attrValue: Option<string> := None;
      assert a.attrs[0..] == a.attrs;
      for k := 0 to |a.attrs|
        invariant FirstForeign(a.attrs, {AT_ATTRIBUTE_NAME, AT_ATTRIBUTE_VALUE})
                  == FirstForeign(a.attrs[k..], {AT_ATTRIBUTE_NAME, AT_ATTRIBUTE_VALUE})
        invariant attrName == LastValue(a.attrs[..k], AT_ATTRIBUTE_NAME)
        invariant attrValue == LastValue(a.attrs[..k], AT_ATTRIBUTE_VALUE)
      {
        var (attr, value) := a.attrs[k];
        assert a.attrs[k..][0] == a.attrs[k];
        assert a.attrs[k..][1..] == a.attrs[k + 1..];
        assert a.attrs[..k + 1][..k] == a.attrs[..k];
        if attr == AT_ATTRIBUTE_NAME {
          attrName := Some(value);
        } else if attr == AT_ATTRIBUTE_VALUE {
          attrValue := Some(value);
        } else {
          return Failure(UnexpectedAttribute(attr));
        }
      }
      assert a.attrs[..|a.attrs|] == a.attrs;
      // the element must be empty
      if a.children != [] || !IsBlank(a.text) {
        return Failure(UnexpectedContent(a.name));
      }
      var missingAttrSet: set<string> := {};
      if attrName.None? {
        missingAttrSet := missingAttrSet + {AT_ATTRIBUTE_NAME};
      }
      if attrValue.None? {
        missingAttrSet := missingAttrSet + {AT_ATTRIBUTE_VALUE};
      }
      assert missingAttrSet == Absent(attrName, AT_ATTRIBUTE_NAME) + Absent(attrValue, AT_ATTRIBUTE_VALUE);
      if missingAttrSet != {} {
        return Failure(MissingRequired(missingAttrSet));
      }
      var p := (attrName.value, attrValue.value);
      JoinAssoc(Success(done), Success([p]), AttributePairs(cs[i + 1..]));
      assert (done + [p])[..|done|] == done;
      result := result[p.0 := p.1];
      done := done + [p];
      i := i + 1;
    }
    assert done + [] == done;
    r := Success(result);
  }

  /**
   * `writeContent`: opens the subsystem element and the `security-providers`
   * container, writes every simple provider and then every SunPKCS11
   * resource of the model in the model's order, and closes what it opened.
   */
  method WriteContent(writer: XmlWriter, model: SubsystemModel)
    modifies writer
    ensures writer.events == old(writer.events) + ContentEvents(model)
  {
    // the marshalling context opens the subsystem element
    writer.WriteStartElement(SUBSYSTEM_ELEMENT);
    writer.WriteStartElement(EL_SECURITY_PROVIDERS);
    ghost var header := old(writer.events) + [StartElement(SUBSYSTEM_ELEMENT), StartElement(EL_SECURITY_PROVIDERS)];
    if model.simpleProviders.Some? {
      var simpleProviderNodes := model.simpleProviders.value;
      for i := 0 to |simpleProviderNodes|
        invariant writer.events == header + ProviderClassEvents(simpleProviderNodes[..i])
      {
        assert simpleProviderNodes[..i + 1][..i] == simpleProviderNodes[..i];
        writer.WriteStartElement(EL_PROVIDER_CLASS);
        writer.WriteCharacters(simpleProviderNodes[i]);
        writer.WriteEndElement();
      }
      assert simpleProviderNodes[..|simpleProviderNodes|] == simpleProviderNodes;
    }
    ghost var providersWritten := writer.events;
    assert providersWritten == header + ProviderClassEvents(ProviderNames(model));
    if model.sunpkcs11.Some? {
      var sunpkcs11Nodes := model.sunpkcs11.value;
      for i := 0 to |sunpkcs11Nodes|
        invariant writer.events == providersWritten + SunPKCS11Events(sunpkcs11Nodes[..i])
      {
        SunPKCS11EventsExtend(providersWritten, sunpkcs11Nodes, i, writer.events);
        WriteSunPKCS11(writer, sunpkcs11Nodes[i]);
      }
      assert sunpkcs11Nodes[..|sunpkcs11Nodes|] == sunpkcs11Nodes;
    }
    ghost var entriesWritten := writer.events;
    assert entriesWritten == providersWritten + SunPKCS11Events(Resources(model));
    writer.WriteEndElement();
    // end of the subsystem element
    writer.WriteEndElement();
    ContentEventsSplit(model, old(writer.events));
  }

  /** The body of `writeContent`'s loop over the SunPKCS11 resources: one `sunpkcs11` element. */
  method WriteSunPKCS11(writer: XmlWriter, property: SunPKCS11Resource)
    modifies writer
    ensures writer.events == old(writer.events) + SunPKCS11ElementEvents(property)
  {
    writer.WriteStartElement(EL_SUNPKCS11);
    writer.WriteAttribute(AT_SUNPKCS11_NAME, property.name);
    ghost var started := writer.events;
    if property.attributes.Some? {
      var attrList := property.attributes.value;
      for k := 0 to |attrList|
        invariant writer.events == started + AttributeElementEvents(attrList[..k])
      {
        assert attrList[..k + 1][..k] == attrList[..k];
        var (name, value) := attrList[k];
        writer.WriteStartElement(EL_ATTRIBUTE);
        writer.WriteAttribute(AT_ATTRIBUTE_NAME, name);
        writer.WriteAttribute(AT_ATTRIBUTE_VALUE, value);
        writer.WriteEndElement();
      }
      assert attrList[..|attrList|] == attrList;
    }
    writer.WriteEndElement();
  }
}
