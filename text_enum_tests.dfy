/**
 * The text-enum integration tests: `TextEnum` (`#[xml_struct(text)]`, unit
 * variants `A`, `Two`, `Gamma`) written as a bare text node, inside an
 * element, and as the value of a child field and of an attribute field of
 * `StructWithTextEnumFields`. The strings the tests put in the fields are
 * parameters.
 */
module TextEnumTests {
  import opened Wrappers
  import opened Xml
  import opened Values
  import opened Expected
  import opened Naming
  import opened TestSupport

  /** A text enum's variant is its name as text; as an element it is wrapped, given the text of each tag. */
  lemma TextEnumTexts(x: string, name: string, open: string, close: string)
    requires "<" + name + ">" == open && "</" + name + ">" == close
    ensures ChildEvents(TextEnum(x)) == [Text(x)]
    ensures Render(ChildEvents(TextEnum(x))) == x
    ensures ElementEvents(TextEnum(x), name) == [Start(name, []), Text(x), End(name)]
    ensures Render(ElementEvents(TextEnum(x), name)) == open + x + close
  {
    RenderSingle(Text(x));
    assert [Start(name, [])] + [Text(x)] + [End(name)] == [Start(name, []), Text(x), End(name)];
    assert RenderAttrs([]) == "";
    assert RenderEvent(Start(name, [])) == open;
    RenderThree(Start(name, []), Text(x), End(name));
  }

  /** text_enum.rs `text_enum` and `text_enum_as_element`: the variant's name as text, wrapped when an element. */
  lemma TextEnumTwo()
    ensures ChildEvents(TextEnum("Two")) == [Text("Two")]
    ensures Render(ChildEvents(TextEnum("Two"))) == "Two"
    ensures ElementEvents(TextEnum("Two"), "foo") == [Start("foo", []), Text("Two"), End("foo")]
    ensures Render(ElementEvents(TextEnum("Two"), "foo")) == "<foo>" + "Two" + "</foo>"
  {
    TextEnumTexts("Two", "foo", "<foo>", "</foo>");
  }

  /** A text-enum value in a child field: the field's element around the variant's name. */
  lemma TextEnumFieldElement(ident: string, name: string, x: string)
    requires PascalCase(ident) == name
    ensures FieldEvents(NamedField(ident, DefaultFieldProps, TextEnum(x))) == [Start(name, []), Text(x), End(name)]
    ensures FieldAttrs(NamedField(ident, DefaultFieldProps, TextEnum(x))) == []
  {
    var f := NamedField(ident, DefaultFieldProps, TextEnum(x));
    assert FieldName(f) == name;
    assert FieldEvents(f) == DefaultElementEvents(TextEnum(x), name);
    assert [Start(name, [])] + [Text(x)] + [End(name)] == [Start(name, []), Text(x), End(name)];
  }

  /** A text-enum value in an attribute field: an attribute whose value is the variant's name. */
  lemma TextEnumFieldAttribute(ident: string, name: string, x: string)
    requires PascalCase(ident) == name
    ensures FieldAttrs(NamedField(ident, FieldProps(AttributeField, None, false), TextEnum(x))) == [Attribute(name, x)]
    ensures FieldEvents(NamedField(ident, FieldProps(AttributeField, None, false), TextEnum(x))) == []
  {
  }

  /** `StructWithTextEnumFields`, with `enum_attr` and `enum_child` set to the given variants. */
  function StructWithTextEnumFields(childField: string, stringAttr: string, enumAttr: string, enumChild: string): (r: Value)
    ensures WellFormed(r) && r.Struct? && r.ns == NoNamespaces && r.body.Named? && |r.body.fields| == 4
  {
    var r := Struct(NoNamespaces, Named([
      NamedField("child_field", DefaultFieldProps, Str(childField)),
      NamedField("string_attr", FieldProps(AttributeField, None, false), Str(stringAttr)),
      NamedField("enum_attr", FieldProps(AttributeField, None, false), TextEnum(enumAttr)),
      NamedField("enum_child", DefaultFieldProps, TextEnum(enumChild))]));
    assert BodyWellFormed(r.body);
    r
  }

  lemma StructWithTextEnumFieldsBody(childField: string, stringAttr: string, enumAttr: string, enumChild: string)
    ensures BodyAttrs(StructWithTextEnumFields(childField, stringAttr, enumAttr, enumChild).body)
         == [Attribute("StringAttr", stringAttr), Attribute("EnumAttr", enumAttr)]
    ensures BodyEvents(StructWithTextEnumFields(childField, stringAttr, enumAttr, enumChild).body)
         == [Start("ChildField", []), Text(childField), End("ChildField")]
            + [Start("EnumChild", []), Text(enumChild), End("EnumChild")]
    ensures HasContent(StructWithTextEnumFields(childField, stringAttr, enumAttr, enumChild).body)
  {
    var fs := StructWithTextEnumFields(childField, stringAttr, enumAttr, enumChild).body.fields;
    AllFields(fs);
    NameChildField();
    StringFieldElement("child_field", None, "ChildField", childField);
    NameStringAttr();
    StringFieldAttribute("string_attr", None, "StringAttr", stringAttr);
    NameEnumAttr();
    TextEnumFieldAttribute("enum_attr", "EnumAttr", enumAttr);
    NameEnumChild();
    TextEnumFieldElement("enum_child", "EnumChild", enumChild);
    assert fs[0].props.placement == ElementField;
  }

  /** text_enum.rs `struct_with_text_enum_fields`: the text-enum child field is an element holding the variant's name; the attributes write no children. */
  lemma StructWithTextEnumFieldsChildren(childField: string, stringAttr: string)
    ensures ChildEvents(StructWithTextEnumFields(childField, stringAttr, "Gamma", "A"))
         == [Start("ChildField", []), Text(childField), End("ChildField"),
             Start("EnumChild", []), Text("A"), End("EnumChild")]
  {
    StructWithTextEnumFieldsBody(childField, stringAttr, "Gamma", "A");
  }

  /** text_enum.rs `struct_with_text_enum_fields_as_element`: the text-enum attribute's value is the variant's name. */
  lemma StructWithTextEnumFieldsAsElement(childField: string, stringAttr: string)
    ensures ElementEvents(StructWithTextEnumFields(childField, stringAttr, "Gamma", "A"), "namehere")
         == [Start("namehere", [Attribute("StringAttr", stringAttr), Attribute("EnumAttr", "Gamma")]),
             Start("ChildField", []), Text(childField), End("ChildField"),
             Start("EnumChild", []), Text("A"), End("EnumChild"),
             End("namehere")]
  {
    var v := StructWithTextEnumFields(childField, stringAttr, "Gamma", "A");
    StructWithTextEnumFieldsBody(childField, stringAttr, "Gamma", "A");
    assert NamespaceAttrs(NoNamespaces) + BodyAttrs(v.body) == BodyAttrs(v.body);
    assert ElementEvents(v, "namehere") == TagEvents("namehere", [], v.body);
  }
}
