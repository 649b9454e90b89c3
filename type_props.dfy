/**
 * Which type-level `#[xml_struct(...)]` properties the derive accepts, for
 * each kind of declaration, and what an accepted list of properties means.
 * The properties are taken as already parsed into items; the parser itself
 * is not part of this model.
 */
module TypeProps {
  import opened Wrappers
  import opened Values

  /** The kind of declaration the derive is applied to. */
  datatype DeclKind =
    | UnitStruct
    | TupleStruct
    | NamedStruct
    | EnumType(allUnitVariants: bool)

  /** One item of a type's property list. */
  datatype Property =
    | DefaultNs(uri: string)            // `default_ns = "..."`
    | Ns(prefix: string, uri: string)   // `ns = (prefix, uri)`
    | TextMode                          // `text`
    | VariantNsPrefix(prefix: string)   // `variant_ns_prefix = "..."`
    | Unrecognized(key: string)         // a misspelled or unknown key

  /** What accepted properties mean for code generation. */
  datatype Props = Props(namespaces: Namespaces, text: bool, variantNsPrefix: Option<string>)

  const NoProps := Props(NoNamespaces, false, None)

  datatype Rejection =
    | UnknownProperty(key: string)
    | SecondDefaultNamespace
    | TextOnStruct
    | TextWithNonUnitVariant
    | TextWithNamespaces

  /** Reads the items in order into `acc`; an unknown key or a second default namespace stops it. */
  function Gather(items: seq<Property>, acc: Props): Result<Props, Rejection>
  {
    if items == [] then Ok(acc)
    else match items[0]
      case DefaultNs(uri) =>
        if acc.namespaces.defaultNs.Some? then Err(SecondDefaultNamespace)
        else Gather(items[1..], acc.(namespaces := acc.namespaces.(defaultNs := Some(uri))))
      case Ns(p, uri) =>
        Gather(items[1..], acc.(namespaces := acc.namespaces.(decls := acc.namespaces.decls + [NsDecl(p, uri)])))
      case TextMode => Gather(items[1..], acc.(text := true))
      case VariantNsPrefix(p) => Gather(items[1..], acc.(variantNsPrefix := Some(p)))
      case Unrecognized(key) => Err(UnknownProperty(key))
  }

  /** The verdict on a declaration: its properties, or the reason it does not compile. */
  function CheckTypeProps(kind: DeclKind, items: seq<Property>): Result<Props, Rejection>
  {
    match Gather(items, NoProps)
    case Err(e) => Err(e)
    case Ok(p) =>
      if p.text && !kind.EnumType? then Err(TextOnStruct)
      else if p.text && !kind.allUnitVariants then Err(TextWithNonUnitVariant)
      else if p.text && (p.namespaces.defaultNs.Some? || p.namespaces.decls != []) then Err(TextWithNamespaces)
      else Ok(p)
  }

  // ---------------------------------------------------------------------------
  // The same rule stated declaratively.

  predicate IsNamespace(p: Property) { p.DefaultNs? || p.Ns? }

  function CountDefaults(items: seq<Property>): nat
  {
    if items == [] then 0 else (if items[0].DefaultNs? then 1 else 0) + CountDefaults(items[1..])
  }

  /** The `ns` declarations among the items, in order. */
  function NsDecls(items: seq<Property>): seq<NsDecl>
  {
    if items == [] then []
    else (if items[0].Ns? then [NsDecl(items[0].prefix, items[0].uri)] else []) + NsDecls(items[1..])
  }

  /**
   * Accepted: every key is recognized, at most one default namespace, and
   * `text` only on an enum whose variants are all unit variants and which
   * declares no namespace.
   */
  predicate Acceptable(kind: DeclKind, items: seq<Property>)
  {
    && (forall i :: 0 <= i < |items| ==> !items[i].Unrecognized?)
    && CountDefaults(items) <= 1
    && (TextMode in items ==>
          && kind == EnumType(true)
          && forall i :: 0 <= i < |items| ==> !IsNamespace(items[i]))
  }

  /** No item of the list is an unrecognized key. */
  predicate AllRecognized(items: seq<Property>)
  {
    items == [] || (!items[0].Unrecognized? && AllRecognized(items[1..]))
  }

  lemma {:induction false} AllRecognizedIff(items: seq<Property>)
    ensures AllRecognized(items) <==> forall i :: 0 <= i < |items| ==> !items[i].Unrecognized?
  {
    if items != [] {
      AllRecognizedIff(items[1..]);
      assert forall i :: 0 < i < |items| ==> items[i] == items[1..][i - 1];
    }
  }

  /** Exactly when `Gather` succeeds. */
  lemma {:induction false} GatherOkIff(items: seq<Property>, acc: Props)
    ensures Gather(items, acc).Ok? <==>
      AllRecognized(items) && CountDefaults(items) + (if acc.namespaces.defaultNs.Some? then 1 else 0) <= 1
  {
    if items != [] {
      var rest := items[1..];
      match items[0]
      case DefaultNs(uri) =>
        if acc.namespaces.defaultNs.None? {
          GatherOkIff(rest, acc.(namespaces := acc.namespaces.(defaultNs := Some(uri))));
        }
      case Ns(p, uri) =>
        GatherOkIff(rest, acc.(namespaces := acc.namespaces.(decls := acc.namespaces.decls + [NsDecl(p, uri)])));
      case TextMode =>
        GatherOkIff(rest, acc.(text := true));
      case VariantNsPrefix(p) =>
        GatherOkIff(rest, acc.(variantNsPrefix := Some(p)));
      case Unrecognized(key) =>
    }
  }

  /** What `Gather` returns when it succeeds. */
  lemma {:induction false} GatherValue(items: seq<Property>, acc: Props)
    requires Gather(items, acc).Ok?
    ensures var p := Gather(items, acc).value;
      && p.namespaces.decls == acc.namespaces.decls + NsDecls(items)
      && (p.namespaces.defaultNs.Some? <==> acc.namespaces.defaultNs.Some? || CountDefaults(items) > 0)
      && (p.text <==> acc.text || TextMode in items)
  {
    if items != [] {
      var rest := items[1..];
      assert TextMode in items <==> items[0] == TextMode || TextMode in rest by {
        assert items == [items[0]] + rest;
      }
      match items[0]
      case DefaultNs(uri) =>
        GatherValue(rest, acc.(namespaces := acc.namespaces.(defaultNs := Some(uri))));
      case Ns(p, uri) =>
        var acc' := acc.(namespaces := acc.namespaces.(decls := acc.namespaces.decls + [NsDecl(p, uri)]));
        GatherValue(rest, acc');
        assert acc'.namespaces.decls + NsDecls(rest) == acc.namespaces.decls + NsDecls(items);
      case TextMode =>
        GatherValue(rest, acc.(text := true));
      case VariantNsPrefix(p) =>
        GatherValue(rest, acc.(variantNsPrefix := Some(p)));
    }
  }

  /** What `Gather` does when it succeeds, and exactly when it does. */
  lemma GatherSpec(items: seq<Property>, acc: Props)
    ensures Gather(items, acc).Ok? <==>
      && (forall i :: 0 <= i < |items| ==> !items[i].Unrecognized?)
      && CountDefaults(items) + (if acc.namespaces.defaultNs.Some? then 1 else 0) <= 1
    ensures Gather(items, acc).Ok? ==>
      var p := Gather(items, acc).value;
      && p.namespaces.decls == acc.namespaces.decls + NsDecls(items)
      && (p.namespaces.defaultNs.Some? <==> acc.namespaces.defaultNs.Some? || CountDefaults(items) > 0)
      && (p.text <==> acc.text || TextMode in items)
  {
    GatherOkIff(items, acc);
    AllRecognizedIff(items);
    if Gather(items, acc).Ok? {
      GatherValue(items, acc);
    }
  }

  lemma {:induction false} NoNamespaceItems(items: seq<Property>)
    requires forall i :: 0 <= i < |items| ==> !IsNamespace(items[i])
    ensures CountDefaults(items) == 0 && NsDecls(items) == []
  {
    if items != [] {
      NoNamespaceItems(items[1..]);
    }
  }

  lemma {:induction false} SomeNamespaceItem(items: seq<Property>, i: nat)
    requires i < |items| && IsNamespace(items[i])
    ensures CountDefaults(items) > 0 || NsDecls(items) != []
  {
    if i > 0 {
      SomeNamespaceItem(items[1..], i - 1);
    } else if items[0].Ns? {
      assert NsDecls(items)[0] == NsDecl(items[0].prefix, items[0].uri);
    }
  }

  /** The derive accepts a declaration exactly when its properties are acceptable. */
  lemma CheckTypePropsIff(kind: DeclKind, items: seq<Property>)
    ensures CheckTypeProps(kind, items).Ok? <==> Acceptable(kind, items)
  {
    GatherSpec(items, NoProps);
    if forall i :: 0 <= i < |items| ==> !IsNamespace(items[i]) {
      NoNamespaceItems(items);
    } else {
      var i :| 0 <= i < |items| && IsNamespace(items[i]);
      SomeNamespaceItem(items, i);
    }
  }

  /** An accepted list declares its default namespace (if any) and its `ns` pairs in the order written. */
  lemma AcceptedNamespaces(kind: DeclKind, items: seq<Property>)
    requires CheckTypeProps(kind, items).Ok?
    ensures CheckTypeProps(kind, items).value.namespaces.decls == NsDecls(items)
    ensures CheckTypeProps(kind, items).value.namespaces.defaultNs.Some? <==> CountDefaults(items) == 1
    ensures CheckTypeProps(kind, items).value.text <==> TextMode in items
  {
    GatherSpec(items, NoProps);
  }

  // ---------------------------------------------------------------------------
  // The verdicts of the compile-pass and compile-fail cases.

  /** No properties at all, or an empty property list, is accepted on any declaration. */
  lemma NoPropertiesAccepted(kind: DeclKind)
    ensures CheckTypeProps(kind, []) == Ok(NoProps)
  {
  }

  /** Any number of `ns` declarations, with at most one default namespace, is accepted on a struct. */
  lemma NamespacesAccepted(kind: DeclKind, items: seq<Property>)
    requires !kind.EnumType?
    requires forall i :: 0 <= i < |items| ==> IsNamespace(items[i])
    requires CountDefaults(items) <= 1
    ensures CheckTypeProps(kind, items).Ok?
  {
    CheckTypePropsIff(kind, items);
  }

  /** `default_ns` given twice is rejected. */
  lemma MultipleDefaultsRejected(kind: DeclKind, a: string, b: string)
    ensures CheckTypeProps(kind, [DefaultNs(a), DefaultNs(b)]) == Err(SecondDefaultNamespace)
  {
    var items := [DefaultNs(a), DefaultNs(b)];
    assert items[1..] == [DefaultNs(b)];
    var acc := NoProps.(namespaces := NoNamespaces.(defaultNs := Some(a)));
    assert Gather(items, NoProps) == Gather([DefaultNs(b)], acc);
    assert Gather([DefaultNs(b)], acc) == Err(SecondDefaultNamespace);
  }

  /** `text` on an enum of unit variants is accepted. */
  lemma TextEnumAccepted()
    ensures CheckTypeProps(EnumType(true), [TextMode]) == Ok(NoProps.(text := true))
  {
    assert [TextMode][1..] == [];
  }

  /** `text` on a unit, tuple or named struct is rejected. */
  lemma TextStructRejected(kind: DeclKind)
    requires !kind.EnumType?
    ensures CheckTypeProps(kind, [TextMode]) == Err(TextOnStruct)
  {
    assert [TextMode][1..] == [];
  }

  /** `text` on an enum with a variant that has fields is rejected. */
  lemma TextNonUnitRejected()
    ensures CheckTypeProps(EnumType(false), [TextMode]) == Err(TextWithNonUnitVariant)
  {
    assert [TextMode][1..] == [];
  }

  /** `text` together with `default_ns` or `ns` is rejected, whichever comes first. */
  lemma TextWithNamespacesRejected(decl: Property)
    requires decl.DefaultNs? || decl.Ns?
    ensures CheckTypeProps(EnumType(true), [TextMode, decl]) == Err(TextWithNamespaces)
    ensures CheckTypeProps(EnumType(true), [decl, TextMode]) == Err(TextWithNamespaces)
  {
    var a := [TextMode, decl];
    var b := [decl, TextMode];
    assert a[1..] == [decl] && a[1..][1..] == [];
    assert b[1..] == [TextMode] && b[1..][1..] == [];
    assert [decl][1..] == [] && [TextMode][1..] == [];
    assert CountDefaults([decl]) <= 1 && CountDefaults([TextMode]) == 0;
    assert CountDefaults(a) == CountDefaults([decl]);
    assert CountDefaults(b) == (if decl.DefaultNs? then 1 else 0) + CountDefaults([TextMode]);
    assert TextMode in a && TextMode in b;
    GatherSpec(a, NoProps);
    GatherSpec(b, NoProps);
    SomeNamespaceItem(a, 1);
    SomeNamespaceItem(b, 0);
  }

  /** A misspelled or unrecognized key is rejected, wherever it appears. */
  lemma UnrecognizedRejected(kind: DeclKind, items: seq<Property>, i: nat)
    requires i < |items| && items[i].Unrecognized?
    ensures CheckTypeProps(kind, items).Err?
  {
    CheckTypePropsIff(kind, items);
  }
}
