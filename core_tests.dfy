/**
 * The core integration test: `bool` as element content and as an attribute
 * value.
 */
module CoreTests {
  import opened Wrappers
  import opened Xml
  import opened Values
  import opened Expected
  import opened Naming
  import opened TestSupport

  /** The test's `Element` struct, whose one field `content` is a `bool` placed as an attribute. */
  function ElementStruct(content: bool): (r: Value)
    ensures WellFormed(r)
  {
    var r := Struct(NoNamespaces, Named([NamedField("content", FieldProps(AttributeField, None, false), Bool(content))]));
    assert BodyWellFormed(r.body);
    r
  }

  lemma TrueElementText() ensures "<" + "element" + ">" + "true" + "</" + "element" + ">" == "<element>true</element>" {}
  lemma FalseElementText() ensures "<" + "element" + ">" + "false" + "</" + "element" + ">" == "<element>false</element>" {}

  /** core.rs `r#bool`, first half: a `bool` as an element holds the text `true` or `false`. */
  lemma BoolAsElement(b: bool)
    ensures ElementEvents(Bool(b), "element") == [Start("element", []), Text(if b then "true" else "false"), End("element")]
    ensures Render(ElementEvents(Bool(b), "element")) == if b then "<element>true</element>" else "<element>false</element>"
  {
    var t := if b then "true" else "false";
    assert ElementEvents(Bool(b), "element") == DefaultElementEvents(Bool(b), "element");
    assert ChildEvents(Bool(b)) == [Text(t)];
    assert [Start("element", [])] + [Text(t)] + [End("element")] == [Start("element", []), Text(t), End("element")];
    RenderTextElement("element", t);
    if b { TrueElementText(); } else { FalseElementText(); }
  }

  /** The events: attributes only, so the start tag closes itself. */
  lemma ElementStructEvents(b: bool)
    ensures ElementEvents(ElementStruct(b), "element") == [Empty("element", [Attribute("Content", if b then "true" else "false")])]
  {
    var t := if b then "true" else "false";
    var v := ElementStruct(b);
    NameContent();
    var f := v.body.fields[0];
    assert FieldAttrs(f) == [Attribute("Content", t)];
    FieldsAttrsSingle(f);
    assert !HasContent(v.body);
    assert NamespaceAttrs(NoNamespaces) == [];
    assert ElementEvents(v, "element") == TagEvents("element", [], v.body);
    assert [] + [Attribute("Content", t)] == [Attribute("Content", t)];
  }

  lemma EmptyElementText(t: string, whole: string, attrs: string)
    requires whole == "<" + "element" + attrs + "/>"
    requires attrs == " " + "Content" + "=\"" + t + "\""
    ensures whole == "<element" + " Content=\"" + t + "\"" + "/>"
  {
  }

  /** core.rs `r#bool`, second half: a struct with only an attribute field is one self-closed element. */
  lemma BoolAsAttribute(b: bool)
    ensures ElementEvents(ElementStruct(b), "element") == [Empty("element", [Attribute("Content", if b then "true" else "false")])]
    ensures Render(ElementEvents(ElementStruct(b), "element")) == "<element" + " Content=\"" + (if b then "true" else "false") + "\"" + "/>"
  {
    var t := if b then "true" else "false";
    ElementStructEvents(b);
    RenderSingle(Empty("element", [Attribute("Content", t)]));
    RenderOneAttr("Content", t);
    EmptyElementText(t, Render([Empty("element", [Attribute("Content", t)])]), RenderAttrs([Attribute("Content", t)]));
  }
}
