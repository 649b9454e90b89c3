/**
 * The serializer as it runs: every entry point writes onto a `Writer`, one
 * event at a time, and returns at the first write the sink refuses. Each
 * method is proved to offer the writer exactly the events module Expected
 * gives for its value, in order, and to stop at the first failure.
 */
module Serialize {
  import opened Wrappers
  import opened Xml
  import opened Values
  import opened Expected
  import Decimal

  /** `serialize_as_attribute`: pushes the value's attribute onto the start tag; nothing is written. */
  method SerializeAsAttribute(v: Value, tag: StartTag, name: string)
    requires AttrCapable(v)
    modifies tag
    ensures tag.attrs == old(tag.attrs) + AttributesOf(v, name)
    decreases v
  {
    match v
    case Str(s) => tag.PushAttribute(Attribute(name, s));
    case Int(_, n) => tag.PushAttribute(Attribute(name, Decimal.IntToString(n)));
    case Bool(b) => tag.PushAttribute(Attribute(name, Decimal.BoolToString(b)));
    case TextEnum(x) => tag.PushAttribute(Attribute(name, x));
    case Opt(None) =>
    case Opt(Some(x)) => SerializeAsAttribute(x, tag, name);
  }

  /** `serialize_child_nodes` of every type the model covers. */
  method SerializeChildNodes(v: Value, w: Writer) returns (r: Outcome)
    requires WellFormed(v)
    modifies w
    ensures Emitted(old(w.events), w.events, w.failAt, ChildEvents(v), r)
    decreases v, 0
  {
    match v
    case Str(s) => r := w.WriteEvent(Text(s));
    case Int(_, n) =>
      var text := Decimal.IntToString(n);
      r := w.WriteEvent(Text(text));
    case Bool(b) => r := w.WriteEvent(Text(Decimal.BoolToString(b)));
    case Opt(None) => r := Ok(());
    case Opt(Some(x)) => r := SerializeChildNodes(x, w);
    case Vec(items) => r := SerializeVecChildNodes(items, w);
    case Manual(es) => r := WriteEvents(es, w);
    case Struct(_, body) => r := WriteBody(body, w);
    case Enum(_, prefix, variant, body) => r := WriteTag(QualifiedName(prefix, variant), [], body, w);
    case TextEnum(x) => r := w.WriteEvent(Text(x));
  }

  /** `serialize_as_element` of every type the model covers. */
  method SerializeAsElement(v: Value, name: string, w: Writer) returns (r: Outcome)
    requires WellFormed(v)
    modifies w
    ensures Emitted(old(w.events), w.events, w.failAt, ElementEvents(v, name), r)
    decreases v, 3
  {
    match v
    case Opt(None) => r := Ok(());
    case Opt(Some(x)) => r := SerializeAsElement(x, name, w);
    case Struct(ns, body) => r := WriteTag(name, NamespaceAttrs(ns), body, w);
    case Enum(ns, _, _, _) => r := WriteWrapped(name, NamespaceAttrs(ns), v, w);
    case _ => r := DefaultSerializeAsElement(v, name, w);
  }

  /** The trait's default `serialize_as_element`: start tag, children, end tag. */
  method DefaultSerializeAsElement(v: Value, name: string, w: Writer) returns (r: Outcome)
    requires WellFormed(v)
    modifies w
    ensures Emitted(old(w.events), w.events, w.failAt, DefaultElementEvents(v, name), r)
    decreases v, 2
  {
    r := WriteWrapped(name, [], v, w);
  }

  /** Writes `<name attrs>`, the children of `v` and `</name>`, returning at the first failure. */
  method WriteWrapped(name: string, attrs: seq<Attribute>, v: Value, w: Writer) returns (r: Outcome)
    requires WellFormed(v)
    modifies w
    ensures Emitted(old(w.events), w.events, w.failAt, [Start(name, attrs)] + ChildEvents(v) + [End(name)], r)
    decreases v, 1
  {
    ghost var e0 := w.events;
    r := w.WriteEvent(Start(name, attrs));
    if r.Err? {
      EmittedStop(e0, w.events, w.failAt, [Start(name, attrs)], ChildEvents(v) + [End(name)], r);
      return;
    }
    ghost var e1, r1 := w.events, r;
    r := SerializeChildNodes(v, w);
    EmittedThen(e0, e1, w.events, w.failAt, [Start(name, attrs)], ChildEvents(v), r1, r);
    if r.Err? {
      EmittedStop(e0, w.events, w.failAt, [Start(name, attrs)] + ChildEvents(v), [End(name)], r);
      return;
    }
    ghost var e2, r2 := w.events, r;
    r := w.WriteEvent(End(name));
    EmittedThen(e0, e2, w.events, w.failAt, [Start(name, attrs)] + ChildEvents(v), [End(name)], r2, r);
  }

  /** `Vec::serialize_child_nodes`: nothing for an empty vector, else each item's children in turn. */
  method SerializeVecChildNodes(items: seq<Value>, w: Writer) returns (r: Outcome)
    requires forall i :: 0 <= i < |items| ==> WellFormed(items[i])
    modifies w
    ensures Emitted(old(w.events), w.events, w.failAt, ItemsEvents(items), r)
    decreases items, 1
  {
    if |items| == 0 {
      return Ok(());
    }
    r := WriteItems(items, w);
  }

  /** Each item's `serialize_child_nodes` in order, returning at the first failure. */
  method WriteItems(items: seq<Value>, w: Writer) returns (r: Outcome)
    requires forall i :: 0 <= i < |items| ==> WellFormed(items[i])
    modifies w
    ensures Emitted(old(w.events), w.events, w.failAt, ItemsEvents(items), r)
    decreases items, 0
  {
    ghost var e0 := w.events;
    r := Ok(());
    var i := 0;
    while i < |items|
      invariant 0 <= i <= |items|
      invariant r.Ok?
      invariant Emitted(e0, w.events, w.failAt, ItemsEvents(items[..i]), r)
    {
      ghost var e1, r1 := w.events, r;
      r := SerializeChildNodes(items[i], w);
      assert items[..i + 1] == items[..i] + [items[i]];
      ItemsEventsAppend(items[..i], [items[i]]);
      ItemsEventsSingle(items[i]);
      EmittedThen(e0, e1, w.events, w.failAt, ItemsEvents(items[..i]), ChildEvents(items[i]), r1, r);
      if r.Err? {
        EmittedStop(e0, w.events, w.failAt, ItemsEvents(items[..i + 1]), ItemsEvents(items[i + 1..]), r);
        assert items[..i + 1] + items[i + 1..] == items;
        ItemsEventsAppend(items[..i + 1], items[i + 1..]);
        return;
      }
      i := i + 1;
    }
    assert items[..i] == items;
  }

  /** A hand-written `serialize_child_nodes` that writes the events `es`, returning at the first failure. */
  method WriteEvents(es: seq<Event>, w: Writer) returns (r: Outcome)
    modifies w
    ensures Emitted(old(w.events), w.events, w.failAt, es, r)
  {
    ghost var e0 := w.events;
    r := Ok(());
    var i := 0;
    while i < |es|
      invariant 0 <= i <= |es|
      invariant r.Ok?
      invariant Emitted(e0, w.events, w.failAt, es[..i], r)
    {
      ghost var e1, r1 := w.events, r;
      r := w.WriteEvent(es[i]);
      assert es[..i + 1] == es[..i] + [es[i]];
      EmittedThen(e0, e1, w.events, w.failAt, es[..i], [es[i]], r1, r);
      if r.Err? {
        EmittedStop(e0, w.events, w.failAt, es[..i + 1], es[i + 1..], r);
        assert es[..i + 1] + es[i + 1..] == es;
        return;
      }
      i := i + 1;
    }
    assert es[..i] == es;
  }

  /**
   * The tag a derived struct or variant writes around its fields: a start tag
   * carrying `leading` and then the attribute fields, the element fields, the
   * end tag; or one self-closed tag when no field is an element.
   */
  method WriteTag(tag: string, leading: seq<Attribute>, body: Body, w: Writer) returns (r: Outcome)
    requires BodyWellFormed(body)
    modifies w
    ensures Emitted(old(w.events), w.events, w.failAt, TagEvents(tag, leading, body), r)
    decreases body, 2
  {
    var start := new StartTag(tag);
    PushAttributes(start, leading);
    if body.Named? {
      PushFieldAttributes(start, body.fields);
    }
    assert start.attrs == leading + BodyAttrs(body);
    if HasContent(body) {
      ghost var e0 := w.events;
      r := w.WriteEvent(Start(tag, start.attrs));
      if r.Err? {
        EmittedStop(e0, w.events, w.failAt, [Start(tag, start.attrs)], BodyEvents(body) + [End(tag)], r);
        return;
      }
      ghost var e1, r1 := w.events, r;
      r := WriteBody(body, w);
      EmittedThen(e0, e1, w.events, w.failAt, [Start(tag, start.attrs)], BodyEvents(body), r1, r);
      if r.Err? {
        EmittedStop(e0, w.events, w.failAt, [Start(tag, start.attrs)] + BodyEvents(body), [End(tag)], r);
        return;
      }
      ghost var e2, r2 := w.events, r;
      r := w.WriteEvent(End(tag));
      EmittedThen(e0, e2, w.events, w.failAt, [Start(tag, start.attrs)] + BodyEvents(body), [End(tag)], r2, r);
    } else {
      r := w.WriteEvent(Empty(tag, start.attrs));
    }
  }

  method PushAttributes(tag: StartTag, attrs: seq<Attribute>)
    modifies tag
    ensures tag.attrs == old(tag.attrs) + attrs
  {
    var i := 0;
    while i < |attrs|
      invariant 0 <= i <= |attrs|
      invariant tag.attrs == old(tag.attrs) + attrs[..i]
    {
      tag.PushAttribute(attrs[i]);
      assert attrs[..i + 1] == attrs[..i] + [attrs[i]];
      i := i + 1;
    }
    assert attrs[..i] == attrs;
  }

  /** Each attribute field, in declaration order, serialized as an attribute named after the field. */
  method PushFieldAttributes(tag: StartTag, fields: seq<NamedField>)
    requires forall i :: 0 <= i < |fields| ==> FieldWellFormed(fields[i])
    modifies tag
    ensures tag.attrs == old(tag.attrs) + FieldsAttrs(fields)
  {
    var i := 0;
    while i < |fields|
      invariant 0 <= i <= |fields|
      invariant tag.attrs == old(tag.attrs) + FieldsAttrs(fields[..i])
    {
      if fields[i].props.placement == AttributeField {
        SerializeAsAttribute(fields[i].value, tag, FieldName(fields[i]));
      }
      assert fields[..i + 1] == fields[..i] + [fields[i]];
      FieldsAttrsAppend(fields[..i], [fields[i]]);
      FieldsAttrsSingle(fields[i]);
      i := i + 1;
    }
    assert fields[..i] == fields;
  }

  /** The child content of a derived struct or variant. */
  method WriteBody(body: Body, w: Writer) returns (r: Outcome)
    requires BodyWellFormed(body)
    modifies w
    ensures Emitted(old(w.events), w.events, w.failAt, BodyEvents(body), r)
    decreases body, 1
  {
    match body
    case Named(fields) => r := WriteFields(fields, w);
    case Tuple(items) => r := WriteItems(items, w);
    case Unit => r := Ok(());
  }

  /** The named fields in declaration order, returning at the first failure. */
  method WriteFields(fields: seq<NamedField>, w: Writer) returns (r: Outcome)
    requires forall i :: 0 <= i < |fields| ==> FieldWellFormed(fields[i])
    modifies w
    ensures Emitted(old(w.events), w.events, w.failAt, FieldsEvents(fields), r)
    decreases fields, 1
  {
    ghost var e0 := w.events;
    r := Ok(());
    var i := 0;
    while i < |fields|
      invariant 0 <= i <= |fields|
      invariant r.Ok?
      invariant Emitted(e0, w.events, w.failAt, FieldsEvents(fields[..i]), r)
    {
      ghost var e1, r1 := w.events, r;
      r := WriteField(fields[i], w);
      assert fields[..i + 1] == fields[..i] + [fields[i]];
      FieldsEventsAppend(fields[..i], [fields[i]]);
      FieldsEventsSingle(fields[i]);
      EmittedThen(e0, e1, w.events, w.failAt, FieldsEvents(fields[..i]), FieldEvents(fields[i]), r1, r);
      if r.Err? {
        EmittedStop(e0, w.events, w.failAt, FieldsEvents(fields[..i + 1]), FieldsEvents(fields[i + 1..]), r);
        assert fields[..i + 1] + fields[i + 1..] == fields;
        FieldsEventsAppend(fields[..i + 1], fields[i + 1..]);
        return;
      }
      i := i + 1;
    }
    assert fields[..i] == fields;
  }

  /** One named field in child position: nothing for an attribute, its children when flattened, else its element. */
  method WriteField(f: NamedField, w: Writer) returns (r: Outcome)
    requires FieldWellFormed(f)
    modifies w
    ensures Emitted(old(w.events), w.events, w.failAt, FieldEvents(f), r)
    decreases f, 0
  {
    if f.props.placement == AttributeField {
      r := Ok(());
    } else if f.props.flatten {
      r := SerializeChildNodes(f.value, w);
    } else {
      r := SerializeAsElement(f.value, FieldName(f), w);
    }
  }
}
