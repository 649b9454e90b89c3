/**
 * The unit-struct integration tests: a unit struct has no child nodes, and
 * as an element it is one self-closed tag carrying its namespace
 * declarations.
 */
module UnitStructTests {
  import opened Wrappers
  import opened Xml
  import opened Values
  import opened Expected
  import opened TestSupport

  /**
   * The namespaces `UnitStructWithNamespaces` declares, with the values of
   * the constants `BAR_PREFIX` and `BAZ_NAME` it uses.
   */
  const UnitNamespaces := Namespaces(Some("http://foo.example/"),
                                     [NsDecl("bar", "http://bar.example/"), NsDecl("baz", "http://baz.example/")])

  lemma XmlnsBarText() ensures "xmlns:" + "bar" == "xmlns:bar" {}
  lemma XmlnsBazText() ensures "xmlns:" + "baz" == "xmlns:baz" {}

  lemma UnitNamespacesAttrs()
    ensures NamespaceAttrs(UnitNamespaces)
         == [Attribute("xmlns", "http://foo.example/"), Attribute("xmlns:bar", "http://bar.example/"),
             Attribute("xmlns:baz", "http://baz.example/")]
  {
    XmlnsBarText();
    XmlnsBazText();
    var decls := UnitNamespaces.decls;
    assert decls[1..] == [NsDecl("baz", "http://baz.example/")];
    assert decls[1..][1..] == [];
    assert DeclAttrs(decls[1..]) == [Attribute("xmlns:baz", "http://baz.example/")] + DeclAttrs([]);
    assert DeclAttrs(decls) == [Attribute("xmlns:bar", "http://bar.example/")] + DeclAttrs(decls[1..]);
  }

  /** unit_struct.rs `unit_struct` and `unit_struct_with_namespaces`: no child nodes at all. */
  lemma UnitStructChildren(ns: Namespaces)
    ensures ChildEvents(Struct(ns, Unit)) == []
    ensures Render(ChildEvents(Struct(ns, Unit))) == ""
  {
  }

  lemma EmptyFooText() ensures "<" + "foo" + "" + "/>" == "<foo/>" {}

  /** unit_struct.rs `unit_struct_as_element`: a self-closed tag. */
  lemma UnitStructAsElement()
    ensures ElementEvents(Struct(NoNamespaces, Unit), "foo") == [Empty("foo", [])]
    ensures Render(ElementEvents(Struct(NoNamespaces, Unit), "foo")) == "<foo/>"
  {
    assert NamespaceAttrs(NoNamespaces) == [];
    assert ElementEvents(Struct(NoNamespaces, Unit), "foo") == TagEvents("foo", [], Unit);
    assert [] + BodyAttrs(Unit) == [];
    RenderSingle(Empty("foo", []));
    EmptyFooText();
  }

  /** unit_struct.rs `unit_struct_with_namespaces_as_element`: a self-closed tag with `xmlns` first, then each `xmlns:prefix` in order. */
  lemma UnitStructWithNamespacesAsElement()
    ensures ElementEvents(Struct(UnitNamespaces, Unit), "foo")
         == [Empty("foo", [Attribute("xmlns", "http://foo.example/"), Attribute("xmlns:bar", "http://bar.example/"),
                           Attribute("xmlns:baz", "http://baz.example/")])]
  {
    UnitNamespacesAttrs();
    assert ElementEvents(Struct(UnitNamespaces, Unit), "foo") == TagEvents("foo", NamespaceAttrs(UnitNamespaces), Unit);
    assert NamespaceAttrs(UnitNamespaces) + BodyAttrs(Unit) == NamespaceAttrs(UnitNamespaces);
  }
}
