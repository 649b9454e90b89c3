/**
 * The named-struct integration tests: `Struct`, `StructWithNamespaces` and
 * `StructWithFlattenedField`, each with two attribute fields, a `ChildType`
 * field and a string field. The texts the tests put in the fields are
 * parameters here, so each lemma holds for every choice of them.
 */
module StructTests {
  import opened Wrappers
  import opened Xml
  import opened Values
  import opened Expected
  import opened Naming
  import opened TestSupport

  /** The namespaces `StructWithNamespaces` declares. */
  const ThisNamespaces := Namespaces(Some("http://foo.example/this_ns"), [NsDecl("other_ns", "http://bar.example/other_ns")])

  /** A value of one of the three structs: `ns` and `flattenChild` say which. */
  function StructValue(ns: Namespaces, flattenChild: bool, strAttr: string, stringAttr: string, more: string): (r: Value)
    ensures WellFormed(r) && r.Struct? && r.ns == ns && r.body.Named? && |r.body.fields| == 4
  {
    var r := Struct(ns, Named([
      NamedField("str_attr", FieldProps(AttributeField, None, false), Str(strAttr)),
      NamedField("string_attr", FieldProps(AttributeField, Some("other_ns"), false), Str(stringAttr)),
      NamedField("child", FieldProps(ElementField, None, flattenChild), ChildType),
      NamedField("more_complex_field_name", DefaultFieldProps, Str(more))]));
    assert BodyWellFormed(r.body);
    r
  }

  // ---------------------------------------------------------------------------
  // Field by field.

  lemma QualifiedStringAttrText() ensures "other_ns" + ":" + "StringAttr" == "other_ns:StringAttr" {}

  lemma QualifiedStringAttr() ensures QualifiedName(Some("other_ns"), PascalCase("string_attr")) == "other_ns:StringAttr"
  {
    NameStringAttr();
    QualifiedStringAttrText();
  }

  lemma StrAttrField(ns: Namespaces, flattenChild: bool, strAttr: string, stringAttr: string, more: string)
    ensures FieldAttrs(StructValue(ns, flattenChild, strAttr, stringAttr, more).body.fields[0]) == [Attribute("StrAttr", strAttr)]
    ensures FieldEvents(StructValue(ns, flattenChild, strAttr, stringAttr, more).body.fields[0]) == []
  {
    NameStrAttr();
    StringFieldAttribute("str_attr", None, "StrAttr", strAttr);
  }

  lemma StringAttrField(ns: Namespaces, flattenChild: bool, strAttr: string, stringAttr: string, more: string)
    ensures FieldAttrs(StructValue(ns, flattenChild, strAttr, stringAttr, more).body.fields[1]) == [Attribute("other_ns:StringAttr", stringAttr)]
    ensures FieldEvents(StructValue(ns, flattenChild, strAttr, stringAttr, more).body.fields[1]) == []
  {
    QualifiedStringAttr();
    StringFieldAttribute("string_attr", Some("other_ns"), "other_ns:StringAttr", stringAttr);
  }

  lemma ChildField(ns: Namespaces, flattenChild: bool, strAttr: string, stringAttr: string, more: string)
    ensures FieldAttrs(StructValue(ns, flattenChild, strAttr, stringAttr, more).body.fields[2]) == []
    ensures FieldEvents(StructValue(ns, flattenChild, strAttr, stringAttr, more).body.fields[2])
         == if flattenChild then [Text(ChildTypeText)] else [Start("Child", []), Text(ChildTypeText), End("Child")]
  {
    if !flattenChild {
      NameChild();
      ChildTypeFieldElement("child", "Child");
    }
  }

  lemma MoreComplexField(ns: Namespaces, flattenChild: bool, strAttr: string, stringAttr: string, more: string)
    ensures FieldAttrs(StructValue(ns, flattenChild, strAttr, stringAttr, more).body.fields[3]) == []
    ensures FieldEvents(StructValue(ns, flattenChild, strAttr, stringAttr, more).body.fields[3])
         == [Start("MoreComplexFieldName", []), Text(more), End("MoreComplexFieldName")]
  {
    NameMoreComplexFieldName();
    StringFieldElement("more_complex_field_name", None, "MoreComplexFieldName", more);
  }

  /** The two attribute fields, in declaration order, the second with its namespace prefix. */
  lemma StructAttributes(ns: Namespaces, flattenChild: bool, strAttr: string, stringAttr: string, more: string)
    ensures BodyAttrs(StructValue(ns, flattenChild, strAttr, stringAttr, more).body)
         == [Attribute("StrAttr", strAttr), Attribute("other_ns:StringAttr", stringAttr)]
  {
    AllFields(StructValue(ns, flattenChild, strAttr, stringAttr, more).body.fields);
    StrAttrField(ns, flattenChild, strAttr, stringAttr, more);
    StringAttrField(ns, flattenChild, strAttr, stringAttr, more);
    ChildField(ns, flattenChild, strAttr, stringAttr, more);
    MoreComplexField(ns, flattenChild, strAttr, stringAttr, more);
  }

  /** The child content: `child` as an element (or, flattened, its bare text), then `more_complex_field_name`. */
  lemma StructContent(ns: Namespaces, flattenChild: bool, strAttr: string, stringAttr: string, more: string)
    ensures BodyEvents(StructValue(ns, flattenChild, strAttr, stringAttr, more).body)
         == (if flattenChild then [Text(ChildTypeText)] else [Start("Child", []), Text(ChildTypeText), End("Child")])
            + [Start("MoreComplexFieldName", []), Text(more), End("MoreComplexFieldName")]
  {
    var body := StructValue(ns, flattenChild, strAttr, stringAttr, more).body;
    var child := if flattenChild then [Text(ChildTypeText)] else [Start("Child", []), Text(ChildTypeText), End("Child")];
    var moreComplex := [Start("MoreComplexFieldName", []), Text(more), End("MoreComplexFieldName")];
    StrAttrField(ns, flattenChild, strAttr, stringAttr, more);
    StringAttrField(ns, flattenChild, strAttr, stringAttr, more);
    ChildField(ns, flattenChild, strAttr, stringAttr, more);
    MoreComplexField(ns, flattenChild, strAttr, stringAttr, more);
    TwoAttributesTwoChildren(body, child, moreComplex);
  }

  /** The element form of all three structs: the namespaces, then the field attributes, then the content. */
  lemma StructElement(ns: Namespaces, flattenChild: bool, strAttr: string, stringAttr: string, more: string)
    ensures ElementEvents(StructValue(ns, flattenChild, strAttr, stringAttr, more), "parent")
         == [Start("parent", NamespaceAttrs(ns) + [Attribute("StrAttr", strAttr), Attribute("other_ns:StringAttr", stringAttr)])]
            + BodyEvents(StructValue(ns, flattenChild, strAttr, stringAttr, more).body)
            + [End("parent")]
  {
    var v := StructValue(ns, flattenChild, strAttr, stringAttr, more);
    StructAttributes(ns, flattenChild, strAttr, stringAttr, more);
    assert HasContent(v.body) by {
      assert v.body.fields[3].props.placement == ElementField;
    }
    assert ElementEvents(v, "parent") == TagEvents("parent", NamespaceAttrs(ns), v.body);
  }

  lemma XmlnsOtherNsText() ensures "xmlns:" + "other_ns" == "xmlns:other_ns" {}

  lemma ThisNamespacesAttrs()
    ensures NamespaceAttrs(ThisNamespaces)
         == [Attribute("xmlns", "http://foo.example/this_ns"), Attribute("xmlns:other_ns", "http://bar.example/other_ns")]
  {
    XmlnsOtherNsText();
    var decls := ThisNamespaces.decls;
    assert decls[1..] == [];
    assert DeclAttrs(decls) == [Attribute("xmlns:other_ns", "http://bar.example/other_ns")] + DeclAttrs([]);
  }

  // ---------------------------------------------------------------------------
  // The tests. Each states the events written, which quick_xml prints as the
  // test's expected text.

  /** struct.rs `r#struct`: only the element fields are written, each as its own element. */
  lemma StructChildren(strAttr: string, stringAttr: string, more: string)
    ensures ChildEvents(StructValue(NoNamespaces, false, strAttr, stringAttr, more))
         == [Start("Child", []), Text(ChildTypeText), End("Child"),
             Start("MoreComplexFieldName", []), Text(more), End("MoreComplexFieldName")]
  {
    StructContent(NoNamespaces, false, strAttr, stringAttr, more);
  }

  /** struct.rs `struct_as_element`: the attribute fields go on the start tag, the others inside. */
  lemma StructAsElement(strAttr: string, stringAttr: string, more: string)
    ensures ElementEvents(StructValue(NoNamespaces, false, strAttr, stringAttr, more), "parent")
         == [Start("parent", [Attribute("StrAttr", strAttr), Attribute("other_ns:StringAttr", stringAttr)]),
             Start("Child", []), Text(ChildTypeText), End("Child"),
             Start("MoreComplexFieldName", []), Text(more), End("MoreComplexFieldName"),
             End("parent")]
  {
    StructElement(NoNamespaces, false, strAttr, stringAttr, more);
    StructContent(NoNamespaces, false, strAttr, stringAttr, more);
    assert NamespaceAttrs(NoNamespaces) + [Attribute("StrAttr", strAttr), Attribute("other_ns:StringAttr", stringAttr)] == [Attribute("StrAttr", strAttr), Attribute("other_ns:StringAttr", stringAttr)];
  }

  /** struct.rs `struct_as_element`, as text: the expected string, piece by piece. */
  lemma StructAsElementText(strAttr: string, stringAttr: string, more: string)
    ensures Render(ElementEvents(StructValue(NoNamespaces, false, strAttr, stringAttr, more), "parent"))
         == "<" + "parent"
            + ((" " + "StrAttr" + "=\"" + strAttr + "\"") + (" " + "other_ns:StringAttr" + "=\"" + stringAttr + "\""))
            + ">"
            + (("<" + "Child" + ">" + ChildTypeText + "</" + "Child" + ">")
               + ("<" + "MoreComplexFieldName" + ">" + more + "</" + "MoreComplexFieldName" + ">"))
            + "</" + "parent" + ">"
  {
    var attrs := [Attribute("StrAttr", strAttr), Attribute("other_ns:StringAttr", stringAttr)];
    var inner := [Start("Child", []), Text(ChildTypeText), End("Child"),
                  Start("MoreComplexFieldName", []), Text(more), End("MoreComplexFieldName")];
    var v := StructValue(NoNamespaces, false, strAttr, stringAttr, more);
    StructElement(NoNamespaces, false, strAttr, stringAttr, more);
    StructContent(NoNamespaces, false, strAttr, stringAttr, more);
    assert NamespaceAttrs(NoNamespaces) + attrs == attrs;
    assert ElementEvents(v, "parent") == [Start("parent", attrs)] + inner + [End("parent")];
    RenderWrapped("parent", attrs, inner);
    RenderAttrPair("StrAttr", strAttr, "other_ns:StringAttr", stringAttr);
    RenderTwoTextElements("Child", ChildTypeText, "MoreComplexFieldName", more);
  }

  /** struct.rs `struct_with_namespaces`: the declared namespaces do not show in the child nodes. */
  lemma StructWithNamespacesChildren(strAttr: string, stringAttr: string, more: string)
    ensures ChildEvents(StructValue(ThisNamespaces, false, strAttr, stringAttr, more))
         == [Start("Child", []), Text(ChildTypeText), End("Child"),
             Start("MoreComplexFieldName", []), Text(more), End("MoreComplexFieldName")]
  {
    StructContent(ThisNamespaces, false, strAttr, stringAttr, more);
  }

  /** struct.rs `struct_with_namespaces_as_element`: `xmlns`, then `xmlns:other_ns`, then the field attributes. */
  lemma StructWithNamespacesAsElement(strAttr: string, stringAttr: string, more: string)
    ensures ElementEvents(StructValue(ThisNamespaces, false, strAttr, stringAttr, more), "parent")
         == [Start("parent", [Attribute("xmlns", "http://foo.example/this_ns"),
                              Attribute("xmlns:other_ns", "http://bar.example/other_ns"),
                              Attribute("StrAttr", strAttr), Attribute("other_ns:StringAttr", stringAttr)]),
             Start("Child", []), Text(ChildTypeText), End("Child"),
             Start("MoreComplexFieldName", []), Text(more), End("MoreComplexFieldName"),
             End("parent")]
  {
    StructElement(ThisNamespaces, false, strAttr, stringAttr, more);
    StructContent(ThisNamespaces, false, strAttr, stringAttr, more);
    ThisNamespacesAttrs();
    assert NamespaceAttrs(ThisNamespaces) + [Attribute("StrAttr", strAttr), Attribute("other_ns:StringAttr", stringAttr)]
        == [Attribute("xmlns", "http://foo.example/this_ns"), Attribute("xmlns:other_ns", "http://bar.example/other_ns"),
            Attribute("StrAttr", strAttr), Attribute("other_ns:StringAttr", stringAttr)];
  }

  /** struct.rs `struct_with_flattened_field`: a flattened field writes its children without a wrapping element. */
  lemma FlattenedFieldChildren(strAttr: string, stringAttr: string, more: string)
    ensures ChildEvents(StructValue(NoNamespaces, true, strAttr, stringAttr, more))
         == [Text(ChildTypeText), Start("MoreComplexFieldName", []), Text(more), End("MoreComplexFieldName")]
  {
    StructContent(NoNamespaces, true, strAttr, stringAttr, more);
  }

  /** struct.rs `struct_with_flattened_field_as_element`. */
  lemma FlattenedFieldAsElement(strAttr: string, stringAttr: string, more: string)
    ensures ElementEvents(StructValue(NoNamespaces, true, strAttr, stringAttr, more), "parent")
         == [Start("parent", [Attribute("StrAttr", strAttr), Attribute("other_ns:StringAttr", stringAttr)]),
             Text(ChildTypeText),
             Start("MoreComplexFieldName", []), Text(more), End("MoreComplexFieldName"),
             End("parent")]
  {
    StructElement(NoNamespaces, true, strAttr, stringAttr, more);
    StructContent(NoNamespaces, true, strAttr, stringAttr, more);
    assert NamespaceAttrs(NoNamespaces) + [Attribute("StrAttr", strAttr), Attribute("other_ns:StringAttr", stringAttr)] == [Attribute("StrAttr", strAttr), Attribute("other_ns:StringAttr", stringAttr)];
  }
}
