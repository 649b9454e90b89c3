/**
 * The values the serializer is given, each carrying the shape of its type:
 * the standard-library types the runtime implements (strings, integers,
 * booleans, `Option`, `Vec`), a type with a hand-written implementation, and
 * the three kinds of type the derive macro handles (structs, structured enums
 * and text enums), with the properties declared on the type and its fields.
 */
module Values {
  import opened Wrappers
  import opened Xml
  import Decimal

  /** One `ns = (prefix, uri)` declaration. */
  datatype NsDecl = NsDecl(prefix: string, uri: string)

  /** The namespaces a type declares: its `default_ns`, if any, and its `ns` pairs in declaration order. */
  datatype Namespaces = Namespaces(defaultNs: Option<string>, decls: seq<NsDecl>)

  const NoNamespaces := Namespaces(None, [])

  datatype Placement = AttributeField | ElementField

  /** The properties a field declares: `attribute`, `ns_prefix = ...`, `flatten`. */
  datatype FieldProps = FieldProps(placement: Placement, nsPrefix: Option<string>, flatten: bool)

  /** What a field without properties gets, and what a field whose properties fail to parse gets. */
  const DefaultFieldProps := FieldProps(ElementField, None, false)

  /** A field of a struct or struct variant: its Rust identifier, its properties and its value. */
  datatype NamedField = NamedField(ident: string, props: FieldProps, value: Value)

  /** The fields of a struct or enum variant: named, positional, or none at all. */
  datatype Body =
    | Named(fields: seq<NamedField>)
    | Tuple(items: seq<Value>)
    | Unit

  datatype Value =
    | Str(s: string)                    // `str`, `&str`, `String`, `&T` where `T: AsRef<str>`
    | Int(kind: Decimal.IntKind, n: int) // `i8` .. `u64`
    | Bool(b: bool)
    | Opt(inner: Option<Value>)         // `Option<T>`
    | Vec(items: seq<Value>)            // `Vec<T>`
    | Manual(children: seq<Event>)      // a hand-written `serialize_child_nodes` that writes these events
    | Struct(ns: Namespaces, body: Body) // a derived struct
    | Enum(ns: Namespaces, variantPrefix: Option<string>, variant: string, body: Body) // a derived enum, one variant
    | TextEnum(variant: string)         // a derived `text` enum, one (unit) variant

  /** Values whose type implements `XmlSerializeAttr`. */
  predicate AttrCapable(v: Value)
  {
    match v
    case Str(_) => true
    case Int(_, _) => true
    case Bool(_) => true
    case TextEnum(_) => true
    case Opt(None) => true
    case Opt(Some(x)) => AttrCapable(x)
    case _ => false
  }

  /**
   * What the Rust compiler guarantees of a value: integers are in range for
   * their type, and a field placed as an attribute has a type that can be an
   * attribute value and is not flattened.
   */
  predicate WellFormed(v: Value)
    decreases v
  {
    match v
    case Int(k, n) => Decimal.InRange(k, n)
    case Opt(Some(x)) => WellFormed(x)
    case Vec(items) => forall i :: 0 <= i < |items| ==> WellFormed(items[i])
    case Struct(_, body) => BodyWellFormed(body)
    case Enum(_, _, _, body) => BodyWellFormed(body)
    case _ => true
  }

  predicate BodyWellFormed(b: Body)
    decreases b
  {
    match b
    case Named(fields) => forall i :: 0 <= i < |fields| ==> FieldWellFormed(fields[i])
    case Tuple(items) => forall i :: 0 <= i < |items| ==> WellFormed(items[i])
    case Unit => true
  }

  predicate FieldWellFormed(f: NamedField)
    decreases f
  {
    && WellFormed(f.value)
    && (f.props.placement == AttributeField ==> AttrCapable(f.value) && !f.props.flatten)
  }

  /** Every hand-written implementation inside `v` writes balanced events. */
  predicate HandWrittenBalanced(v: Value)
    decreases v
  {
    match v
    case Manual(es) => Balanced(es)
    case Opt(Some(x)) => HandWrittenBalanced(x)
    case Vec(items) => forall i :: 0 <= i < |items| ==> HandWrittenBalanced(items[i])
    case Struct(_, body) => BodyHandWrittenBalanced(body)
    case Enum(_, _, _, body) => BodyHandWrittenBalanced(body)
    case _ => true
  }

  predicate BodyHandWrittenBalanced(b: Body)
    decreases b
  {
    match b
    case Named(fields) => forall i :: 0 <= i < |fields| ==> HandWrittenBalanced(fields[i].value)
    case Tuple(items) => forall i :: 0 <= i < |items| ==> HandWrittenBalanced(items[i])
    case Unit => true
  }
}
