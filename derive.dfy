/**
 * The front end of the derive macro: it turns a struct or enum declaration
 * into the field and variant descriptors that code generation works from.
 * The property attributes of every field are parsed (by a parser that is a
 * parameter here); a field whose attributes do not parse gets the default
 * properties so that the remaining fields are still processed, and all the
 * errors are combined into one compile error instead of an implementation.
 */
module Derive {
  import opened Wrappers
  import opened Values
  import TypeProps
  import Decimal

  /** A `syn::Error`: one or more messages, each with its own source span. */
  datatype SynError = SynError(messages: seq<string>)

  /** `syn::Error::combine`: the other error's messages are added after this one's. */
  function Combine(acc: SynError, other: SynError): (r: SynError)
    ensures r.messages == acc.messages + other.messages
  {
    SynError(acc.messages + other.messages)
  }

  /** One attribute written on a field, as the parser receives it. */
  datatype Attr = Attr(tokens: string)

  /**
   * `FieldProps::try_from_attrs`: the field's properties read from its
   * attributes; the flag says whether the field is named.
   */
  type PropsParser = (seq<Attr>, bool) -> Result<FieldProps, SynError>

  /** A field as declared: its identifier (present exactly for named fields), its type and its attributes. */
  datatype SynField = SynField(ident: Option<string>, ty: string, attrs: seq<Attr>)

  datatype SynFields =
    | NamedFields(named: seq<SynField>)
    | UnnamedFields(unnamed: seq<SynField>)
    | UnitFields

  datatype SynVariant = SynVariant(ident: string, fields: SynFields)

  /** Named fields always carry an identifier; `syn` guarantees it. */
  predicate IdentsPresent(fields: SynFields)
  {
    fields.NamedFields? ==> forall i :: 0 <= i < |fields.named| ==> fields.named[i].ident.Some?
  }

  // ---------------------------------------------------------------------------
  // Descriptors.

  datatype FieldKind = NamedKind(ident: string) | UnnamedKind

  /** What code generation needs of a field: its kind, type, how to reach its value, its properties. */
  datatype Field = Field(kind: FieldKind, ty: string, accessor: string, props: FieldProps)

  datatype VariantKind =
    | StructVariant(fields: seq<Field>)
    | TupleVariant(fields: seq<Field>)
    | UnitVariant

  datatype Variant = Variant(ident: string, kind: VariantKind)

  /** Where the fields are declared: directly in a struct, or in an enum variant (bound by a match). */
  datatype Site = InStruct | InVariant

  /** What the derive hands to code generation, or the compile error it emits instead. */
  datatype Output =
    | StructImpl(ident: string, props: TypeProps.Props, fields: seq<Field>)
    | EnumImpl(ident: string, props: TypeProps.Props, variants: seq<Variant>, variantNsPrefix: Option<string>)
    | TextEnumImpl(ident: string, props: TypeProps.Props, variantIdents: seq<string>)
    | CompileError(error: SynError)

  /** How generated code reaches field `idx`: `self.name`, `self.0`, `name`, or `field0` in a variant. */
  function Accessor(f: SynField, idx: nat, named: bool, site: Site): string
    requires named ==> f.ident.Some?
  {
    match site
    case InStruct => if named then "self." + f.ident.value else "self." + Decimal.NatToString(idx)
    case InVariant => if named then f.ident.value else "field" + Decimal.NatToString(idx)
  }

  function PropsOrDefault(r: Result<FieldProps, SynError>): FieldProps
  {
    if r.Ok? then r.value else DefaultFieldProps
  }

  /** The descriptor of field `idx`: named fields are parsed with flag true, positional ones with false. */
  function Descriptor(f: SynField, idx: nat, named: bool, site: Site, parse: PropsParser): Field
    requires named ==> f.ident.Some?
  {
    Field(if named then NamedKind(f.ident.value) else UnnamedKind, f.ty,
          Accessor(f, idx, named, site), PropsOrDefault(parse(f.attrs, named)))
  }

  /** The errors the fields' attributes give, in declaration order. */
  function FieldErrors(fields: seq<SynField>, named: bool, parse: PropsParser): seq<SynError>
  {
    if fields == [] then []
    else
      var r := parse(fields[0].attrs, named);
      (if r.Err? then [r.error] else []) + FieldErrors(fields[1..], named, parse)
  }

  /** All messages of all the errors, in order. */
  function Messages(errors: seq<SynError>): seq<string>
  {
    if errors == [] then [] else errors[0].messages + Messages(errors[1..])
  }

  function Flag(fields: SynFields): bool { fields.NamedFields? }

  function FieldList(fields: SynFields): seq<SynField>
  {
    match fields
    case NamedFields(fs) => fs
    case UnnamedFields(fs) => fs
    case UnitFields => []
  }

  function VariantErrors(vs: seq<SynVariant>, parse: PropsParser): seq<SynError>
  {
    if vs == [] then []
    else FieldErrors(FieldList(vs[0].fields), Flag(vs[0].fields), parse) + VariantErrors(vs[1..], parse)
  }

  // ---------------------------------------------------------------------------
  // The front end.

  /** `collect_field_processing_error`: a failed parse is recorded and the field gets default properties. */
  method CollectFieldProcessingError(r: Result<FieldProps, SynError>, errors: seq<SynError>)
    returns (props: FieldProps, errorsOut: seq<SynError>)
    ensures r.Ok? ==> props == r.value && errorsOut == errors
    ensures r.Err? ==> props == DefaultFieldProps && errorsOut == errors + [r.error]
  {
    if r.Ok? {
      props, errorsOut := r.value, errors;
    } else {
      props, errorsOut := DefaultFieldProps, errors + [r.error];
    }
  }

  /** The `map` closure over one field: its descriptor, and its parse error appended when it has one. */
  method ProcessField(f: SynField, idx: nat, named: bool, site: Site, parse: PropsParser, errors: seq<SynError>)
    returns (d: Field, errorsOut: seq<SynError>)
    requires named ==> f.ident.Some?
    ensures d == Descriptor(f, idx, named, site, parse)
    ensures errorsOut == errors + FieldErrors([f], named, parse)
  {
    var props;
    props, errorsOut := CollectFieldProcessingError(parse(f.attrs, named), errors);
    var kind := if named then NamedKind(f.ident.value) else UnnamedKind;
    d := Field(kind, f.ty, Accessor(f, idx, named, site), props);
    FieldErrorsSingle(f, named, parse);
  }

  /** Every field in order to its descriptor, collecting the errors of the fields that fail to parse. */
  method ProcessFields(fields: seq<SynField>, named: bool, site: Site, parse: PropsParser, errors: seq<SynError>)
    returns (out: seq<Field>, errorsOut: seq<SynError>)
    requires named ==> forall i :: 0 <= i < |fields| ==> fields[i].ident.Some?
    ensures |out| == |fields|
    ensures forall i :: 0 <= i < |fields| ==> out[i] == Descriptor(fields[i], i, named, site, parse)
    ensures errorsOut == errors + FieldErrors(fields, named, parse)
  {
    out, errorsOut := [], errors;
    var i := 0;
    while i < |fields|
      invariant 0 <= i <= |fields|
      invariant |out| == i
      invariant forall j :: 0 <= j < i ==> out[j] == Descriptor(fields[j], j, named, site, parse)
      invariant errorsOut == errors + FieldErrors(fields[..i], named, parse)
    {
      FieldErrorsStep(errors, errorsOut, fields, i, named, parse);
      var d;
      d, errorsOut := ProcessField(fields[i], i, named, site, parse, errorsOut);
      DescriptorsStep(out, d, fields, i, named, site, parse);
      out := out + [d];
      i := i + 1;
    }
    assert fields[..i] == fields;
  }

  /** The `reduce` over the collected errors: None when there are none, else one error with all their messages. */
  method CombineErrors(errors: seq<SynError>) returns (r: Option<SynError>)
    ensures r.None? <==> errors == []
    ensures r.Some? ==> r.value.messages == Messages(errors)
  {
    if errors == [] {
      return None;
    }
    var acc := errors[0];
    assert errors[..1] == [errors[0]];
    var i := 1;
    while i < |errors|
      invariant 1 <= i <= |errors|
      invariant acc.messages == Messages(errors[..i])
    {
      MessagesAppend(errors[..i], [errors[i]]);
      assert errors[..i + 1] == errors[..i] + [errors[i]];
      acc := Combine(acc, errors[i]);
      i := i + 1;
    }
    assert errors[..i] == errors;
    r := Some(acc);
  }

  /** `write_serialize_impl_for_struct`. */
  method WriteSerializeImplForStruct(ident: string, fields: SynFields, props: TypeProps.Props, parse: PropsParser)
    returns (out: Output)
    requires IdentsPresent(fields)
    ensures var errs := FieldErrors(FieldList(fields), Flag(fields), parse);
      && (out.CompileError? <==> errs != [])
      && (out.CompileError? ==> out.error.messages == Messages(errs))
      && (!out.CompileError? ==> out.StructImpl? && out.ident == ident && out.props == props)
    ensures out.StructImpl? ==>
      && |out.fields| == |FieldList(fields)|
      && forall i :: 0 <= i < |out.fields| ==>
           out.fields[i] == Descriptor(FieldList(fields)[i], i, Flag(fields), InStruct, parse)
  {
    var descriptors: seq<Field>;
    var errors: seq<SynError> := [];
    match fields {
      case NamedFields(fs) => descriptors, errors := ProcessFields(fs, true, InStruct, parse, errors);
      case UnnamedFields(fs) => descriptors, errors := ProcessFields(fs, false, InStruct, parse, errors);
      case UnitFields => descriptors := [];
    }
    assert [] + FieldErrors(FieldList(fields), Flag(fields), parse) == FieldErrors(FieldList(fields), Flag(fields), parse);
    assert errors == FieldErrors(FieldList(fields), Flag(fields), parse);
    var err := CombineErrors(errors);
    if err.Some? {
      return CompileError(err.value);
    }
    out := StructImpl(ident, props, descriptors);
  }

  /** `process_enum_variant`: the variant's kind follows its fields, which are processed as a struct's are. */
  method ProcessEnumVariant(v: SynVariant, parse: PropsParser, errors: seq<SynError>)
    returns (out: Variant, errorsOut: seq<SynError>)
    requires IdentsPresent(v.fields)
    ensures out == VariantDescriptor(v, parse)
    ensures errorsOut == errors + FieldErrors(FieldList(v.fields), Flag(v.fields), parse)
  {
    match v.fields
    case NamedFields(fs) =>
      var descriptors;
      descriptors, errorsOut := ProcessFields(fs, true, InVariant, parse, errors);
      assert descriptors == seq(|fs|, i requires 0 <= i < |fs| => Descriptor(fs[i], i, true, InVariant, parse));
      out := Variant(v.ident, StructVariant(descriptors));
    case UnnamedFields(fs) =>
      var descriptors;
      descriptors, errorsOut := ProcessFields(fs, false, InVariant, parse, errors);
      assert descriptors == seq(|fs|, i requires 0 <= i < |fs| => Descriptor(fs[i], i, false, InVariant, parse));
      out := Variant(v.ident, TupleVariant(descriptors));
    case UnitFields =>
      out, errorsOut := Variant(v.ident, UnitVariant), errors;
  }

  /** The descriptor of a variant: its identifier, and the kind and descriptors its fields give. */
  function VariantDescriptor(v: SynVariant, parse: PropsParser): Variant
    requires IdentsPresent(v.fields)
  {
    var fs := FieldList(v.fields);
    var named := Flag(v.fields);
    var descriptors := seq(|fs|, i requires 0 <= i < |fs| => Descriptor(fs[i], i, named, InVariant, parse));
    match v.fields
    case NamedFields(_) => Variant(v.ident, StructVariant(descriptors))
    case UnnamedFields(_) => Variant(v.ident, TupleVariant(descriptors))
    case UnitFields => Variant(v.ident, UnitVariant)
  }

  /** `write_serialize_impl_for_enum`. */
  method WriteSerializeImplForEnum(ident: string, variants: seq<SynVariant>, props: TypeProps.Props, parse: PropsParser)
    returns (out: Output)
    requires forall i :: 0 <= i < |variants| ==> IdentsPresent(variants[i].fields)
    ensures props.text ==>
      && out.TextEnumImpl? && out.ident == ident && out.props == props
      && |out.variantIdents| == |variants|
      && forall i :: 0 <= i < |variants| ==> out.variantIdents[i] == variants[i].ident
    ensures !props.text ==>
      var errs := VariantErrors(variants, parse);
      && (out.CompileError? <==> errs != [])
      && (out.CompileError? ==> out.error.messages == Messages(errs))
      && (!out.CompileError? ==>
            && out.EnumImpl? && out.ident == ident
            && out.props == props.(variantNsPrefix := None)
            && out.variantNsPrefix == props.variantNsPrefix
            && |out.variants| == |variants|
            && forall i :: 0 <= i < |variants| ==> out.variants[i] == VariantDescriptor(variants[i], parse))
  {
    if props.text {
      var idents := [];
      var i := 0;
      while i < |variants|
        invariant 0 <= i <= |variants|
        invariant |idents| == i
        invariant forall j :: 0 <= j < i ==> idents[j] == variants[j].ident
      {
        idents := idents + [variants[i].ident];
        i := i + 1;
      }
      return TextEnumImpl(ident, props, idents);
    }
    var errors: seq<SynError> := [];
    var descriptors: seq<Variant> := [];
    var i := 0;
    while i < |variants|
      invariant 0 <= i <= |variants|
      invariant |descriptors| == i
      invariant forall j :: 0 <= j < i ==> descriptors[j] == VariantDescriptor(variants[j], parse)
      invariant errors == VariantErrors(variants[..i], parse)
    {
      VariantErrorsStep(errors, variants, i, parse);
      var d;
      d, errors := ProcessEnumVariant(variants[i], parse, errors);
      descriptors := descriptors + [d];
      i := i + 1;
    }
    assert variants[..i] == variants;
    var err := CombineErrors(errors);
    if err.Some? {
      return CompileError(err.value);
    }
    var nsPrefix := props.variantNsPrefix;
    out := EnumImpl(ident, props.(variantNsPrefix := None), descriptors, nsPrefix);
  }

  // ---------------------------------------------------------------------------
  // Lemmas.

  lemma {:induction false} FieldErrorsAppend(a: seq<SynField>, b: seq<SynField>, named: bool, parse: PropsParser)
    ensures FieldErrors(a + b, named, parse) == FieldErrors(a, named, parse) + FieldErrors(b, named, parse)
  {
    if a == [] {
      assert a + b == b;
    } else {
      var r := parse(a[0].attrs, named);
      var head := if r.Err? then [r.error] else [];
      assert (a + b)[0] == a[0];
      assert (a + b)[1..] == a[1..] + b;
      assert FieldErrors(a + b, named, parse) == head + FieldErrors(a[1..] + b, named, parse);
      assert FieldErrors(a, named, parse) == head + FieldErrors(a[1..], named, parse);
      FieldErrorsAppend(a[1..], b, named, parse);
    }
  }

  /** One more field's descriptor extends those of the fields before it. */
  lemma DescriptorsStep(out: seq<Field>, d: Field, fields: seq<SynField>, i: nat, named: bool, site: Site, parse: PropsParser)
    requires i < |fields| && |out| == i && (named ==> fields[i].ident.Some?)
    requires forall j :: 0 <= j < i ==> (named ==> fields[j].ident.Some?) && out[j] == Descriptor(fields[j], j, named, site, parse)
    requires d == Descriptor(fields[i], i, named, site, parse)
    ensures forall j :: 0 <= j < i + 1 ==> (named ==> fields[j].ident.Some?) && (out + [d])[j] == Descriptor(fields[j], j, named, site, parse)
  {
  }

  /** One more field's errors extend those of the fields before it. */
  lemma FieldErrorsStep(errors: seq<SynError>, sofar: seq<SynError>, fields: seq<SynField>, i: nat, named: bool, parse: PropsParser)
    requires i < |fields| && sofar == errors + FieldErrors(fields[..i], named, parse)
    ensures sofar + FieldErrors([fields[i]], named, parse) == errors + FieldErrors(fields[..i + 1], named, parse)
  {
    assert fields[..i + 1] == fields[..i] + [fields[i]];
    FieldErrorsAppend(fields[..i], [fields[i]], named, parse);
  }

  lemma FieldErrorsSingle(f: SynField, named: bool, parse: PropsParser)
    ensures var r := parse(f.attrs, named);
      FieldErrors([f], named, parse) == if r.Err? then [r.error] else []
  {
    assert [f][1..] == [];
  }

  lemma {:induction false} VariantErrorsAppend(a: seq<SynVariant>, b: seq<SynVariant>, parse: PropsParser)
    ensures VariantErrors(a + b, parse) == VariantErrors(a, parse) + VariantErrors(b, parse)
  {
    if a == [] {
      assert a + b == b;
    } else {
      assert (a + b)[0] == a[0];
      assert (a + b)[1..] == a[1..] + b;
      VariantErrorsAppend(a[1..], b, parse);
    }
  }

  /** One more variant's field errors extend those of the variants before it. */
  lemma VariantErrorsStep(sofar: seq<SynError>, vs: seq<SynVariant>, i: nat, parse: PropsParser)
    requires i < |vs| && sofar == VariantErrors(vs[..i], parse)
    ensures sofar + FieldErrors(FieldList(vs[i].fields), Flag(vs[i].fields), parse) == VariantErrors(vs[..i + 1], parse)
  {
    assert vs[..i + 1] == vs[..i] + [vs[i]];
    VariantErrorsAppend(vs[..i], [vs[i]], parse);
    assert [vs[i]][1..] == [];
    var own := FieldErrors(FieldList(vs[i].fields), Flag(vs[i].fields), parse);
    assert VariantErrors([vs[i]], parse) == own + [];
    assert own + [] == own;
  }

  lemma {:induction false} MessagesAppend(a: seq<SynError>, b: seq<SynError>)
    ensures Messages(a + b) == Messages(a) + Messages(b)
  {
    if a == [] {
      assert a + b == b;
    } else {
      assert (a + b)[0] == a[0];
      assert (a + b)[1..] == a[1..] + b;
      MessagesAppend(a[1..], b);
    }
  }

  /**
   * No error is dropped: there is none exactly when every field parses,
   * and each failing field's error is among those collected.
   */
  lemma {:induction false} EveryFieldErrorCollected(fields: seq<SynField>, named: bool, parse: PropsParser)
    ensures FieldErrors(fields, named, parse) == [] <==>
      forall i :: 0 <= i < |fields| ==> parse(fields[i].attrs, named).Ok?
    ensures forall i :: 0 <= i < |fields| && parse(fields[i].attrs, named).Err? ==>
      parse(fields[i].attrs, named).error in FieldErrors(fields, named, parse)
  {
    if fields != [] {
      EveryFieldErrorCollected(fields[1..], named, parse);
      assert forall i :: 1 <= i < |fields| ==> fields[i] == fields[1..][i - 1];
    }
  }

  /** Every message of every collected error ends up in the combined error. */
  lemma {:induction false} EveryMessageKept(errors: seq<SynError>, i: nat, m: string)
    requires i < |errors| && m in errors[i].messages
    ensures m in Messages(errors)
  {
    if i > 0 {
      EveryMessageKept(errors[1..], i - 1, m);
    }
  }

  /** A field whose attributes do not parse is still described, with the default properties. */
  lemma FailedFieldGetsDefaults(f: SynField, idx: nat, named: bool, site: Site, parse: PropsParser)
    requires named ==> f.ident.Some?
    requires parse(f.attrs, named).Err?
    ensures Descriptor(f, idx, named, site, parse).props == DefaultFieldProps
  {
  }

  lemma NatToStringInjective(m: nat, n: nat)
    requires Decimal.NatToString(m) == Decimal.NatToString(n)
    ensures m == n
  {
    Decimal.IntToStringInjective(m, n);
  }

  /** A fixed prefix followed by different indices' numerals never gives the same accessor. */
  lemma PrefixedNumeralsDistinct(p: string, i: nat, j: nat)
    requires i != j
    ensures p + Decimal.NatToString(i) != p + Decimal.NatToString(j)
  {
    var a, b := Decimal.NatToString(i), Decimal.NatToString(j);
    if p + a == p + b {
      assert a == (p + a)[|p|..] && b == (p + b)[|p|..];
      NatToStringInjective(i, j);
    }
  }

  /** Positional fields are reached as `field0`, `field1`, ... in a variant: distinct, numbered from 0. */
  lemma PositionalAccessors(f: SynField, g: SynField, i: nat, j: nat)
    ensures Accessor(f, i, false, InVariant) == "field" + Decimal.NatToString(i)
    ensures Accessor(f, 0, false, InVariant) == "field0"
    ensures i != j ==> Accessor(f, i, false, InVariant) != Accessor(g, j, false, InVariant)
    ensures i != j ==> Accessor(f, i, false, InStruct) != Accessor(g, j, false, InStruct)
  {
    if i != j {
      PrefixedNumeralsDistinct("field", i, j);
      PrefixedNumeralsDistinct("self.", i, j);
    }
  }
}
