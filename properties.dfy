/**
 * What the serialized output is like, for every value: it is well nested,
 * absent values leave no trace, containers and derived types compose their
 * parts in declaration order, namespace declarations and attributes appear
 * only where the integration tests show them, and text forms agree between
 * text nodes and attribute values.
 */
module Properties {
  import opened Wrappers
  import opened Xml
  import opened Values
  import opened Expected
  import Decimal
  import Naming

  // ---------------------------------------------------------------------------
  // Well-nestedness.

  /** The child content of a value closes every element it opens. */
  lemma {:induction false} ChildBalanced(v: Value)
    requires WellFormed(v) && HandWrittenBalanced(v)
    ensures Balanced(ChildEvents(v))
    decreases v, 0
  {
    match v
    case Str(s) => BalancedSingle(Text(s));
    case Int(_, n) => BalancedSingle(Text(Decimal.IntToString(n)));
    case Bool(b) => BalancedSingle(Text(Decimal.BoolToString(b)));
    case Opt(None) =>
    case Opt(Some(x)) => ChildBalanced(x);
    case Vec(items) => ItemsBalanced(items);
    case Manual(_) =>
    case Struct(_, body) => BodyBalanced(body);
    case Enum(_, prefix, variant, body) => TagBalanced(QualifiedName(prefix, variant), [], body);
    case TextEnum(x) => BalancedSingle(Text(x));
  }

  /** A value serialized as an element closes every element it opens, its own included. */
  lemma {:induction false} ElementBalanced(v: Value, name: string)
    requires WellFormed(v) && HandWrittenBalanced(v)
    ensures Balanced(ElementEvents(v, name))
    decreases v, 2
  {
    match v
    case Opt(None) =>
    case Opt(Some(x)) => ElementBalanced(x, name);
    case Struct(ns, body) => TagBalanced(name, NamespaceAttrs(ns), body);
    case Enum(ns, _, _, _) =>
      ChildBalanced(v);
      BalancedWrap(name, NamespaceAttrs(ns), ChildEvents(v));
    case _ =>
      ChildBalanced(v);
      BalancedWrap(name, [], ChildEvents(v));
  }

  lemma {:induction false} TagBalanced(tag: string, leading: seq<Attribute>, body: Body)
    requires BodyWellFormed(body) && BodyHandWrittenBalanced(body)
    ensures Balanced(TagEvents(tag, leading, body))
    decreases body, 2
  {
    var attrs := leading + BodyAttrs(body);
    if HasContent(body) {
      BodyBalanced(body);
      BalancedWrap(tag, attrs, BodyEvents(body));
    } else {
      BalancedSingle(Empty(tag, attrs));
    }
  }

  lemma {:induction false} BodyBalanced(body: Body)
    requires BodyWellFormed(body) && BodyHandWrittenBalanced(body)
    ensures Balanced(BodyEvents(body))
    decreases body, 1
  {
    match body
    case Named(fields) => FieldsBalanced(fields);
    case Tuple(items) => ItemsBalanced(items);
    case Unit =>
  }

  lemma {:induction false} FieldsBalanced(fields: seq<NamedField>)
    requires forall i :: 0 <= i < |fields| ==> FieldWellFormed(fields[i])
    requires forall i :: 0 <= i < |fields| ==> HandWrittenBalanced(fields[i].value)
    ensures Balanced(FieldsEvents(fields))
    decreases fields
  {
    if fields != [] {
      var f := fields[0];
      if f.props.placement == ElementField {
        if f.props.flatten {
          ChildBalanced(f.value);
        } else {
          ElementBalanced(f.value, FieldName(f));
        }
      }
      FieldsBalanced(fields[1..]);
      BalancedAppend(FieldEvents(f), FieldsEvents(fields[1..]));
    }
  }

  lemma {:induction false} ItemsBalanced(items: seq<Value>)
    requires forall i :: 0 <= i < |items| ==> WellFormed(items[i])
    requires forall i :: 0 <= i < |items| ==> HandWrittenBalanced(items[i])
    ensures Balanced(ItemsEvents(items))
    decreases items
  {
    if items != [] {
      ChildBalanced(items[0]);
      ItemsBalanced(items[1..]);
      BalancedAppend(ChildEvents(items[0]), ItemsEvents(items[1..]));
    }
  }

  // ---------------------------------------------------------------------------
  // The element form.

  /** An `Option` that is `None`, however deeply wrapped in `Some`. */
  predicate Absent(v: Value)
  {
    match v
    case Opt(None) => true
    case Opt(Some(x)) => Absent(x)
    case _ => false
  }

  /**
   * `serialize_as_element(name)` writes nothing exactly for an absent value;
   * otherwise its first event is a start tag or a self-closed tag named
   * `name`, a start tag is matched by a last event `</name>`, and a
   * self-closed tag is all there is.
   */
  lemma {:induction false} ElementShape(v: Value, name: string)
    requires WellFormed(v)
    ensures var es := ElementEvents(v, name);
      && (es == [] <==> Absent(v))
      && (es != [] ==> (es[0].Start? || es[0].Empty?) && es[0].name == name)
      && (es != [] && es[0].Start? ==> |es| >= 2 && es[|es| - 1] == End(name))
      && (es != [] && es[0].Empty? ==> |es| == 1)
    decreases v
  {
    match v
    case Opt(Some(x)) => ElementShape(x, name);
    case _ =>
  }

  /** An absent value writes nothing as an element, nothing as children, and pushes no attribute. */
  lemma {:induction false} AbsentWritesNothing(v: Value, name: string)
    requires WellFormed(v) && Absent(v)
    ensures ChildEvents(v) == [] && ElementEvents(v, name) == []
    ensures AttrCapable(v) && AttributesOf(v, name) == []
    decreases v
  {
    match v
    case Opt(Some(x)) => AbsentWritesNothing(x, name);
    case Opt(None) =>
  }

  /** `Some(x)` serializes exactly as `x` does, in all three modes. */
  lemma SomeIsTransparent(x: Value, name: string)
    requires WellFormed(x)
    ensures ChildEvents(Opt(Some(x))) == ChildEvents(x)
    ensures ElementEvents(Opt(Some(x)), name) == ElementEvents(x, name)
    ensures AttrCapable(x) ==> AttrCapable(Opt(Some(x))) && AttributesOf(Opt(Some(x)), name) == AttributesOf(x, name)
  {
  }

  /** The trait's default element form is never self-closed: `<name>`, the children, `</name>`. */
  lemma DefaultElementRendering(v: Value, name: string)
    requires WellFormed(v)
    ensures Render(DefaultElementEvents(v, name)) == "<" + name + ">" + Render(ChildEvents(v)) + "</" + name + ">"
    ensures DefaultElementEvents(v, name)[0].Start?
  {
    RenderAround(name, ChildEvents(v));
  }

  // ---------------------------------------------------------------------------
  // Strings, integers, booleans and text enums.

  /** A string is one text node, and one attribute value, holding it unchanged. */
  lemma StringForms(s: string, name: string)
    ensures Render(ChildEvents(Str(s))) == s
    ensures AttributesOf(Str(s), name) == [Attribute(name, s)]
  {
  }

  /**
   * An integer's text node and attribute value are the same text, and that
   * text reads back as the integer.
   */
  lemma IntegerTextAgrees(k: Decimal.IntKind, n: int, name: string)
    requires Decimal.InRange(k, n)
    ensures AttributeText(Int(k, n)).Some?
    ensures var t := AttributeText(Int(k, n)).value;
      && ChildEvents(Int(k, n)) == [Text(t)]
      && AttributesOf(Int(k, n), name) == [Attribute(name, t)]
      && Decimal.IsIntText(t) && Decimal.ParseInt(t) == n
  {
    Decimal.IntRoundTrip(n);
  }

  /** A boolean is the text `true` or `false`, as a text node and as an attribute value. */
  lemma BoolTextAgrees(b: bool, name: string)
    ensures ChildEvents(Bool(b)) == [Text(if b then "true" else "false")]
    ensures AttributesOf(Bool(b), name) == [Attribute(name, if b then "true" else "false")]
  {
  }

  /** A text enum is its variant name: as text, inside the element, and as an attribute value. */
  lemma TextEnumForms(x: string, name: string)
    ensures Render(ChildEvents(TextEnum(x))) == x
    ensures Render(ElementEvents(TextEnum(x), name)) == "<" + name + ">" + x + "</" + name + ">"
    ensures AttributesOf(TextEnum(x), name) == [Attribute(name, x)]
  {
    DefaultElementRendering(TextEnum(x), name);
  }

  // ---------------------------------------------------------------------------
  // Vectors.

  /** A vector's children are its items' children, concatenated in order. */
  lemma VecConcat(a: seq<Value>, b: seq<Value>)
    requires forall i :: 0 <= i < |a| ==> WellFormed(a[i])
    requires forall i :: 0 <= i < |b| ==> WellFormed(b[i])
    ensures WellFormed(Vec(a + b))
    ensures ChildEvents(Vec(a + b)) == ChildEvents(Vec(a)) + ChildEvents(Vec(b))
  {
    ItemsEventsAppend(a, b);
  }

  /** A one-item vector writes what its item writes; no separator, no wrapper. */
  lemma VecSingle(x: Value)
    requires WellFormed(x)
    ensures ChildEvents(Vec([x])) == ChildEvents(x)
  {
    ItemsEventsSingle(x);
  }

  // ---------------------------------------------------------------------------
  // Named fields: attribute and element placement.

  /** The fields of one placement, in declaration order. */
  function OfPlacement(fields: seq<NamedField>, p: Placement): seq<NamedField>
  {
    if fields == [] then []
    else (if fields[0].props.placement == p then [fields[0]] else []) + OfPlacement(fields[1..], p)
  }

  /** Every selected field is one of the input fields, and has the placement. */
  lemma {:induction false} OfPlacementDrawn(fields: seq<NamedField>, p: Placement)
    ensures forall i :: 0 <= i < |OfPlacement(fields, p)| ==>
      OfPlacement(fields, p)[i] in fields && OfPlacement(fields, p)[i].props.placement == p
  {
    if fields != [] {
      var head := if fields[0].props.placement == p then [fields[0]] else [];
      var rest := OfPlacement(fields[1..], p);
      OfPlacementDrawn(fields[1..], p);
      assert OfPlacement(fields, p) == head + rest;
      forall i | 0 <= i < |head + rest|
        ensures (head + rest)[i] in fields && (head + rest)[i].props.placement == p
      {
        if i < |head| {
          assert (head + rest)[i] == fields[0];
        } else {
          assert (head + rest)[i] == rest[i - |head|];
          assert rest[i - |head|] in fields[1..];
        }
      }
    }
  }

  /** Selecting from a concatenation selects from each part, in order: the selection keeps declaration order. */
  lemma {:induction false} OfPlacementAppend(a: seq<NamedField>, b: seq<NamedField>, p: Placement)
    ensures OfPlacement(a + b, p) == OfPlacement(a, p) + OfPlacement(b, p)
  {
    if a == [] {
      assert a + b == b;
    } else {
      var head := if a[0].props.placement == p then [a[0]] else [];
      assert (a + b)[0] == a[0];
      assert (a + b)[1..] == a[1..] + b;
      assert OfPlacement(a + b, p) == head + OfPlacement(a[1..] + b, p);
      assert OfPlacement(a, p) == head + OfPlacement(a[1..], p);
      OfPlacementAppend(a[1..], b, p);
    }
  }

  /** One field is selected exactly when it has the placement. */
  lemma OfPlacementSingle(f: NamedField, p: Placement)
    ensures OfPlacement([f], p) == if f.props.placement == p then [f] else []
  {
    assert [f][1..] == [];
  }

  /** Child content comes from the element fields alone, in their relative declaration order. */
  lemma {:induction false} ChildrenAreTheElementFields(fields: seq<NamedField>)
    requires forall i :: 0 <= i < |fields| ==> FieldWellFormed(fields[i])
    ensures forall i :: 0 <= i < |OfPlacement(fields, ElementField)| ==> FieldWellFormed(OfPlacement(fields, ElementField)[i])
    ensures FieldsEvents(fields) == FieldsEvents(OfPlacement(fields, ElementField))
  {
    if fields != [] {
      var rest := OfPlacement(fields[1..], ElementField);
      ChildrenAreTheElementFields(fields[1..]);
      if fields[0].props.placement == ElementField {
        FieldsEventsAppend([fields[0]], rest);
        FieldsEventsSingle(fields[0]);
      } else {
        assert [] + rest == rest;
      }
    }
  }

  /** The start tag's field attributes come from the attribute fields alone, in their relative declaration order. */
  lemma {:induction false} AttributesAreTheAttributeFields(fields: seq<NamedField>)
    requires forall i :: 0 <= i < |fields| ==> FieldWellFormed(fields[i])
    ensures forall i :: 0 <= i < |OfPlacement(fields, AttributeField)| ==> FieldWellFormed(OfPlacement(fields, AttributeField)[i])
    ensures FieldsAttrs(fields) == FieldsAttrs(OfPlacement(fields, AttributeField))
  {
    if fields != [] {
      var rest := OfPlacement(fields[1..], AttributeField);
      AttributesAreTheAttributeFields(fields[1..]);
      if fields[0].props.placement == AttributeField {
        FieldsAttrsAppend([fields[0]], rest);
        FieldsAttrsSingle(fields[0]);
      } else {
        assert OfPlacement(fields, AttributeField) == rest;
        assert FieldAttrs(fields[0]) == [];
        assert FieldsAttrs(fields) == [] + FieldsAttrs(fields[1..]);
      }
    }
  }

  /** An attribute field appears between the tags of its struct as `Name="value"` and nowhere in the children. */
  lemma AttributeFieldPlacement(f: NamedField)
    requires FieldWellFormed(f) && f.props.placement == AttributeField
    ensures FieldEvents(f) == []
    ensures FieldAttrs(f) == AttributesOf(f.value, QualifiedName(f.props.nsPrefix, Naming.PascalCase(f.ident)))
  {
  }

  /** A flattened field's children are spliced in place, with no element of its own. */
  lemma FlattenSplices(ns: Namespaces, a: seq<NamedField>, f: NamedField, b: seq<NamedField>)
    requires forall i :: 0 <= i < |a| ==> FieldWellFormed(a[i])
    requires forall i :: 0 <= i < |b| ==> FieldWellFormed(b[i])
    requires FieldWellFormed(f) && f.props.placement == ElementField && f.props.flatten
    ensures WellFormed(Struct(ns, Named(a + [f] + b)))
    ensures ChildEvents(Struct(ns, Named(a + [f] + b)))
         == ChildEvents(Struct(ns, Named(a))) + ChildEvents(f.value) + ChildEvents(Struct(ns, Named(b)))
  {
    FieldsEventsAppend(a + [f], b);
    FieldsEventsAppend(a, [f]);
    FieldsEventsSingle(f);
  }

  /** Any other element field is wrapped in an element named after it, holding its type's own element form. */
  lemma WrappedFieldIsElement(f: NamedField)
    requires FieldWellFormed(f) && f.props.placement == ElementField && !f.props.flatten
    ensures FieldEvents(f) == ElementEvents(f.value, QualifiedName(f.props.nsPrefix, Naming.PascalCase(f.ident)))
  {
  }

  /** A field of a hand-written type holds exactly what that type's `serialize_child_nodes` writes. */
  lemma HandWrittenFieldContent(f: NamedField, es: seq<Event>)
    requires FieldWellFormed(f) && f.props.placement == ElementField && !f.props.flatten
    requires f.value == Manual(es)
    ensures FieldEvents(f) == [Start(FieldName(f), [])] + es + [End(FieldName(f))]
  {
    assert FieldEvents(f) == ElementEvents(Manual(es), FieldName(f));
    assert ElementEvents(Manual(es), FieldName(f)) == DefaultElementEvents(Manual(es), FieldName(f));
    assert ChildEvents(Manual(es)) == es;
  }

  // ---------------------------------------------------------------------------
  // Derived structs.

  /**
   * The namespace declarations become attributes with `xmlns` (the default
   * namespace) first, then one `xmlns:prefix` per declaration in order.
   */
  lemma {:induction false} NamespaceAttrsOrder(ns: Namespaces)
    ensures var d := if ns.defaultNs.Some? then 1 else 0;
      && |NamespaceAttrs(ns)| == d + |ns.decls|
      && (ns.defaultNs.Some? ==> NamespaceAttrs(ns)[0] == Attribute("xmlns", ns.defaultNs.value))
      && forall i :: 0 <= i < |ns.decls| ==>
           NamespaceAttrs(ns)[d + i] == Attribute("xmlns:" + ns.decls[i].prefix, ns.decls[i].uri)
  {
    DeclAttrsOrder(ns.decls);
  }

  lemma {:induction false} DeclAttrsOrder(decls: seq<NsDecl>)
    ensures |DeclAttrs(decls)| == |decls|
    ensures forall i :: 0 <= i < |decls| ==> DeclAttrs(decls)[i] == Attribute("xmlns:" + decls[i].prefix, decls[i].uri)
  {
    if decls != [] {
      DeclAttrsOrder(decls[1..]);
    }
  }

  /** Namespace declarations never change what a derived type writes as children. */
  lemma ChildModeIgnoresNamespaces(ns: Namespaces, body: Body, prefix: Option<string>, variant: string)
    requires BodyWellFormed(body)
    ensures ChildEvents(Struct(ns, body)) == ChildEvents(Struct(NoNamespaces, body))
    ensures ChildEvents(Enum(ns, prefix, variant, body)) == ChildEvents(Enum(NoNamespaces, prefix, variant, body))
  {
  }

  /**
   * A derived struct as an element: when some field is an element, a start
   * tag with the namespace declarations then the field attributes, the
   * struct's child content and `</name>`; otherwise one self-closed tag with
   * the same attributes.
   */
  lemma StructElement(ns: Namespaces, body: Body, name: string)
    requires BodyWellFormed(body)
    ensures var attrs := NamespaceAttrs(ns) + BodyAttrs(body);
      ElementEvents(Struct(ns, body), name)
      == if HasContent(body) then [Start(name, attrs)] + ChildEvents(Struct(ns, body)) + [End(name)]
         else [Empty(name, attrs)]
  {
  }

  /** A derived struct self-closes exactly when no field is an element (a tuple struct: when it has no fields). */
  lemma SelfClosingIff(ns: Namespaces, body: Body, name: string)
    requires BodyWellFormed(body)
    ensures var es := ElementEvents(Struct(ns, body), name); |es| >= 1 && (es[0].Empty? <==> !HasContent(body))
    ensures !HasContent(body) <==> match body
      case Named(fields) => forall i :: 0 <= i < |fields| ==> fields[i].props.placement == AttributeField
      case Tuple(items) => items == []
      case Unit => true
    ensures !HasContent(body) ==> ChildEvents(Struct(ns, body)) == []
  {
    if !HasContent(body) {
      match body
      case Named(fields) => AllAttributesNoChildren(fields);
      case Tuple(items) => assert ItemsEvents(items) == [];
      case Unit =>
    }
  }

  lemma {:induction false} AllAttributesNoChildren(fields: seq<NamedField>)
    requires forall i :: 0 <= i < |fields| ==> FieldWellFormed(fields[i])
    requires forall i :: 0 <= i < |fields| ==> fields[i].props.placement == AttributeField
    ensures FieldsEvents(fields) == []
  {
    if fields != [] {
      AllAttributesNoChildren(fields[1..]);
    }
  }

  /** A unit struct writes no children, and as an element one self-closed tag carrying its namespaces. */
  lemma UnitStruct(ns: Namespaces, name: string)
    ensures ChildEvents(Struct(ns, Unit)) == []
    ensures ElementEvents(Struct(ns, Unit), name) == [Empty(name, NamespaceAttrs(ns))]
  {
    assert NamespaceAttrs(ns) + [] == NamespaceAttrs(ns);
  }

  /** A tuple struct's children are its positional fields' children, just as for a vector of them. */
  lemma TupleStructChildren(ns: Namespaces, items: seq<Value>, name: string)
    requires forall i :: 0 <= i < |items| ==> WellFormed(items[i])
    ensures ChildEvents(Struct(ns, Tuple(items))) == ChildEvents(Vec(items))
    ensures |items| > 0 ==>
      ElementEvents(Struct(ns, Tuple(items)), name)
      == [Start(name, NamespaceAttrs(ns))] + ChildEvents(Vec(items)) + [End(name)]
  {
    assert NamespaceAttrs(ns) + [] == NamespaceAttrs(ns);
  }

  // ---------------------------------------------------------------------------
  // Derived structured enums.

  /**
   * As children, an enum writes its variant's tag, named after the variant
   * and qualified by `variant_ns_prefix`; as an element, that is wrapped in
   * an unqualified element `name` that carries the namespace declarations,
   * while the variant's own attribute fields stay on the variant tag.
   */
  lemma EnumElement(ns: Namespaces, prefix: Option<string>, variant: string, body: Body, name: string)
    requires BodyWellFormed(body)
    ensures var es := ElementEvents(Enum(ns, prefix, variant, body), name);
      && es[0] == Start(name, NamespaceAttrs(ns))
      && es[|es| - 1] == End(name)
      && (es[1].Start? || es[1].Empty?)
      && es[1].name == QualifiedName(prefix, variant)
      && es[1].attrs == BodyAttrs(body)
      && es[1..|es| - 1] == ChildEvents(Enum(ns, prefix, variant, body))
  {
    var tag := QualifiedName(prefix, variant);
    assert [] + BodyAttrs(body) == BodyAttrs(body);
    var inner := ChildEvents(Enum(ns, prefix, variant, body));
    assert inner == TagEvents(tag, [], body);
    assert inner[0].name == tag && inner[0].attrs == BodyAttrs(body);
    var es := ElementEvents(Enum(ns, prefix, variant, body), name);
    assert es == [Start(name, NamespaceAttrs(ns))] + inner + [End(name)];
    assert es[1] == inner[0];
    assert es[1..|es| - 1] == inner;
  }

  /** Without namespace declarations, an enum's element form is the trait default. */
  lemma EnumElementIsDefault(prefix: Option<string>, variant: string, body: Body, name: string)
    requires BodyWellFormed(body)
    ensures ElementEvents(Enum(NoNamespaces, prefix, variant, body), name)
         == DefaultElementEvents(Enum(NoNamespaces, prefix, variant, body), name)
  {
    assert NamespaceAttrs(NoNamespaces) == [];
  }

  /** A unit variant is the self-closed tag named after the variant. */
  lemma UnitVariant(ns: Namespaces, prefix: Option<string>, variant: string)
    ensures ChildEvents(Enum(ns, prefix, variant, Unit)) == [Empty(QualifiedName(prefix, variant), [])]
  {
    var tag := QualifiedName(prefix, variant);
    assert [] + BodyAttrs(Unit) == [];
    assert TagEvents(tag, [], Unit) == [Empty(tag, [] + BodyAttrs(Unit))];
  }

  /**
   * A field's `ns_prefix` qualifies the field's own element and nothing
   * inside it: an enum held in such a field keeps its variant tag as it was.
   */
  lemma FieldPrefixStaysOnField(f: NamedField, p: string, vprefix: Option<string>, variant: string, body: Body)
    requires FieldWellFormed(f) && f.props.placement == ElementField && !f.props.flatten
    requires f.props.nsPrefix == Some(p)
    requires f.value == Enum(NoNamespaces, vprefix, variant, body)
    ensures var es := FieldEvents(f);
      && |es| >= 3
      && es[0] == Start(p + ":" + Naming.PascalCase(f.ident), [])
      && (es[1].Start? || es[1].Empty?)
      && es[1].name == QualifiedName(vprefix, variant)
  {
    var tag := QualifiedName(vprefix, variant);
    var inner := ChildEvents(f.value);
    assert inner == TagEvents(tag, [], body);
    assert inner[0].name == tag;
    assert NamespaceAttrs(NoNamespaces) == [];
    var es := FieldEvents(f);
    assert es == ElementEvents(f.value, FieldName(f));
    assert es == [Start(FieldName(f), [])] + inner + [End(FieldName(f))];
    assert es[1] == inner[0];
  }
}
