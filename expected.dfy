/**
 * The events each entry point writes, as pure functions of the value:
 * `ChildEvents(v)` for `serialize_child_nodes`, `ElementEvents(v, name)` for
 * `serialize_as_element`, and `AttributesOf(v, name)` for what
 * `serialize_as_attribute` pushes onto a start tag. The methods of module
 * Serialize are proved to write exactly these events; the lemmas here state
 * what the events are.
 */
module Expected {
  import opened Wrappers
  import opened Xml
  import opened Values
  import Decimal
  import Naming

  /** `prefix:local`, or `local` alone when there is no prefix. */
  function QualifiedName(prefix: Option<string>, local: string): string
  {
    match prefix
    case Some(p) => p + ":" + local
    case None => local
  }

  /** The element or attribute name of a field: its identifier in PascalCase, with its `ns_prefix`. */
  function FieldName(f: NamedField): string
  {
    QualifiedName(f.props.nsPrefix, Naming.PascalCase(f.ident))
  }

  /** The namespace declarations of a type, as attributes: `xmlns` first, then each `xmlns:prefix`. */
  function NamespaceAttrs(ns: Namespaces): seq<Attribute>
  {
    (match ns.defaultNs case Some(uri) => [Attribute("xmlns", uri)] case None => [])
    + DeclAttrs(ns.decls)
  }

  function DeclAttrs(decls: seq<NsDecl>): seq<Attribute>
  {
    if decls == [] then []
    else [Attribute("xmlns:" + decls[0].prefix, decls[0].uri)] + DeclAttrs(decls[1..])
  }

  /** The text an attribute-capable value gives; None when it is absent. */
  function AttributeText(v: Value): Option<string>
    requires AttrCapable(v)
  {
    match v
    case Str(s) => Some(s)
    case Int(_, n) => Some(Decimal.IntToString(n))
    case Bool(b) => Some(Decimal.BoolToString(b))
    case TextEnum(x) => Some(x)
    case Opt(None) => None
    case Opt(Some(x)) => AttributeText(x)
  }

  /** What `serialize_as_attribute(v, name)` pushes: one attribute, or none for an absent value. */
  function AttributesOf(v: Value, name: string): seq<Attribute>
    requires AttrCapable(v)
  {
    match AttributeText(v)
    case Some(t) => [Attribute(name, t)]
    case None => []
  }

  // ---------------------------------------------------------------------------
  // Child and element events.

  /** What `serialize_child_nodes` writes for `v`. */
  function ChildEvents(v: Value): seq<Event>
    requires WellFormed(v)
    decreases v, 0
  {
    match v
    case Str(s) => [Text(s)]
    case Int(_, n) => [Text(Decimal.IntToString(n))]
    case Bool(b) => [Text(Decimal.BoolToString(b))]
    case Opt(None) => []
    case Opt(Some(x)) => ChildEvents(x)
    case Vec(items) => ItemsEvents(items)
    case Manual(es) => es
    case Struct(_, body) => BodyEvents(body)
    case Enum(_, prefix, variant, body) => TagEvents(QualifiedName(prefix, variant), [], body)
    case TextEnum(x) => [Text(x)]
  }

  /** What the trait's default `serialize_as_element` writes: a start tag, the children, the end tag. */
  function DefaultElementEvents(v: Value, name: string): seq<Event>
    requires WellFormed(v)
    decreases v, 1
  {
    [Start(name, [])] + ChildEvents(v) + [End(name)]
  }

  /** What `serialize_as_element(name)` writes for `v`. */
  function ElementEvents(v: Value, name: string): seq<Event>
    requires WellFormed(v)
    decreases v, 2
  {
    match v
    case Opt(None) => []
    case Opt(Some(x)) => ElementEvents(x, name)
    case Struct(ns, body) => TagEvents(name, NamespaceAttrs(ns), body)
    case Enum(ns, _, _, _) => [Start(name, NamespaceAttrs(ns))] + ChildEvents(v) + [End(name)]
    case _ => DefaultElementEvents(v, name)
  }

  /** Whether a body has anything to write between a start and an end tag. */
  predicate HasContent(body: Body)
  {
    match body
    case Named(fields) => exists i :: 0 <= i < |fields| && fields[i].props.placement == ElementField
    case Tuple(items) => |items| > 0
    case Unit => false
  }

  /**
   * The tag a derived struct (or struct or tuple variant) writes around its
   * fields: `leading` then the field attributes on the start tag, and a
   * self-closed tag when no field is placed as an element.
   */
  function TagEvents(tag: string, leading: seq<Attribute>, body: Body): seq<Event>
    requires BodyWellFormed(body)
    decreases body, 2
  {
    var attrs := leading + BodyAttrs(body);
    if HasContent(body) then [Start(tag, attrs)] + BodyEvents(body) + [End(tag)]
    else [Empty(tag, attrs)]
  }

  function BodyAttrs(body: Body): seq<Attribute>
    requires BodyWellFormed(body)
  {
    match body
    case Named(fields) => FieldsAttrs(fields)
    case _ => []
  }

  /** The attributes of the attribute-placed fields, in declaration order. */
  function FieldsAttrs(fields: seq<NamedField>): seq<Attribute>
    requires forall i :: 0 <= i < |fields| ==> FieldWellFormed(fields[i])
  {
    if fields == [] then []
    else FieldAttrs(fields[0]) + FieldsAttrs(fields[1..])
  }

  function FieldAttrs(f: NamedField): seq<Attribute>
    requires FieldWellFormed(f)
  {
    if f.props.placement == AttributeField then AttributesOf(f.value, FieldName(f)) else []
  }

  /** The child content of a body: each element field in order, or each positional field's children. */
  function BodyEvents(body: Body): seq<Event>
    requires BodyWellFormed(body)
    decreases body, 1
  {
    match body
    case Named(fields) => FieldsEvents(fields)
    case Tuple(items) => ItemsEvents(items)
    case Unit => []
  }

  function FieldsEvents(fields: seq<NamedField>): seq<Event>
    requires forall i :: 0 <= i < |fields| ==> FieldWellFormed(fields[i])
    decreases fields
  {
    if fields == [] then []
    else FieldEvents(fields[0]) + FieldsEvents(fields[1..])
  }

  /** An attribute field writes nothing here; a flattened field its children; any other its own element. */
  function FieldEvents(f: NamedField): seq<Event>
    requires FieldWellFormed(f)
    decreases f
  {
    if f.props.placement == AttributeField then []
    else if f.props.flatten then ChildEvents(f.value)
    else ElementEvents(f.value, FieldName(f))
  }

  function ItemsEvents(items: seq<Value>): seq<Event>
    requires forall i :: 0 <= i < |items| ==> WellFormed(items[i])
    decreases items
  {
    if items == [] then []
    else ChildEvents(items[0]) + ItemsEvents(items[1..])
  }

  // ---------------------------------------------------------------------------
  // Sequences of items and fields are written piece by piece.

  lemma {:induction false} ItemsEventsAppend(a: seq<Value>, b: seq<Value>)
    requires forall i :: 0 <= i < |a| ==> WellFormed(a[i])
    requires forall i :: 0 <= i < |b| ==> WellFormed(b[i])
    ensures ItemsEvents(a + b) == ItemsEvents(a) + ItemsEvents(b)
    decreases |a|
  {
    if a == [] {
      assert a + b == b;
    } else {
      assert (a + b)[0] == a[0];
      assert (a + b)[1..] == a[1..] + b;
      ItemsEventsAppend(a[1..], b);
    }
  }

  lemma ItemsEventsSingle(x: Value)
    requires WellFormed(x)
    ensures ItemsEvents([x]) == ChildEvents(x)
  {
    assert [x][1..] == [];
  }

  lemma {:induction false} FieldsEventsAppend(a: seq<NamedField>, b: seq<NamedField>)
    requires forall i :: 0 <= i < |a| ==> FieldWellFormed(a[i])
    requires forall i :: 0 <= i < |b| ==> FieldWellFormed(b[i])
    ensures FieldsEvents(a + b) == FieldsEvents(a) + FieldsEvents(b)
    decreases |a|
  {
    if a == [] {
      assert a + b == b;
    } else {
      assert (a + b)[0] == a[0];
      assert (a + b)[1..] == a[1..] + b;
      FieldsEventsAppend(a[1..], b);
    }
  }

  lemma FieldsEventsSingle(f: NamedField)
    requires FieldWellFormed(f)
    ensures FieldsEvents([f]) == FieldEvents(f)
  {
    assert [f][1..] == [];
  }

  lemma {:induction false} FieldsAttrsAppend(a: seq<NamedField>, b: seq<NamedField>)
    requires forall i :: 0 <= i < |a| ==> FieldWellFormed(a[i])
    requires forall i :: 0 <= i < |b| ==> FieldWellFormed(b[i])
    ensures FieldsAttrs(a + b) == FieldsAttrs(a) + FieldsAttrs(b)
    decreases |a|
  {
    if a == [] {
      assert a + b == b;
    } else {
      assert (a + b)[0] == a[0];
      assert (a + b)[1..] == a[1..] + b;
      FieldsAttrsAppend(a[1..], b);
    }
  }

  lemma FieldsAttrsSingle(f: NamedField)
    requires FieldWellFormed(f)
    ensures FieldsAttrs([f]) == FieldAttrs(f)
  {
    assert [f][1..] == [];
  }
}
