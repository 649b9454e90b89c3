# xml_struct, modelled in Dafny

`xml_struct` serializes typed Rust values as XML. It works through two traits:

- `XmlSerialize` has a required `serialize_child_nodes`, which writes a value's content. It also has a default `serialize_as_element(name)`, which wraps that content in `<name>` … `</name>`.
- `XmlSerializeAttr` pushes a value onto a start tag as an attribute.

The library implements both traits for strings, `Option`, `Vec` and the integer types. A derive macro implements them for structs and enums. What the derive writes depends on:

- the shape of the declaration;
- the field properties `attribute`, `flatten` and `ns_prefix`;
- the type properties `default_ns`, `ns`, `text` and `variant_ns_prefix`.

This project models that runtime behaviour, the derive's front end and the rules on type properties. It then proves properties of them, including every integration test's expected output.

## How the model is built

- **Events and the writer** (`xml.dfy`, module `Xml`).
  - The writer is reduced to the events it is given: `Start(name, attrs)`, `End(name)`, `Empty(name, attrs)` (a self-closed tag) and `Text(s)`. `Render` turns events into text.
  - `Writer` is a class whose `events` field grows by one event per `WriteEvent`.
  - Its sink may fail. `failAt` says after how many events it refuses a write, and a refused write writes nothing.
  - `Emitted(before, after, failAt, expected, r)` says that a call was offered `expected` one event at a time. It stopped at the first refusal, and `r` is `Ok` exactly when everything was written. A failure is always the one error kind, a wrapped writer error.
  - `StartTag` is a class whose `attrs` field grows by one attribute per `PushAttribute`.
  - `Balanced` states that events are well nested: every end tag closes the innermost open element of the same name.
- **Values** (`values.dfy`): a closed datatype of the values that can be serialized.
  - `Str` covers `str`, `&str`, `String` and `&T: AsRef<str>`.
  - `Int(kind, n)` covers the eight integer types; `Bool`, `Opt` and `Vec` are what their names say.
  - `Manual(events)` is a type with a hand-written `serialize_child_nodes` that writes those events.
  - `Struct(ns, body)` is a derived struct with a named, tuple or unit body. `Enum(ns, variantPrefix, variant, body)` is a derived structured enum holding one variant. `TextEnum(variant)` is a derived `text` enum.
  - Each named field carries its properties: placement (attribute or element), `ns_prefix` and `flatten`.
  - `WellFormed` holds of the values a compiling program can hold. For example, an attribute field's type must implement `XmlSerializeAttr`, and a text enum has no fields.
- **What each entry point writes** (`expected.dfy`): `ChildEvents(v)`, `ElementEvents(v, name)` and `AttributesOf(v, name)` are pure functions of the value.
- **Serialization** (`serialize.dfy`): one method per runtime operation. Each modifies the `Writer` or the `StartTag` and is proved to write exactly what the matching pure function says, in the `Emitted` form.
- **Properties** (`properties.dfy`): the general rules. These cover well-nestedness, absent values, `Some` being transparent, the field placement rules, flattening, namespace declarations and self-closing.
- **Naming and integer text** (`naming.dfy`, `decimal.dfy`).
  - Field names are converted from snake_case to PascalCase.
  - Integers become their decimal `to_string` text.
- **Type properties** (`type_props.dfy`): the derive's verdict on a list of type-level properties that are already parsed. A declarative `Acceptable` predicate is proved equivalent to it, and it is checked against each pass and compile-fail case.
- **Derive front end** (`derive.dfy`): declarations become field and variant descriptors. A field whose attributes fail to parse gets default properties, and every error is collected.
- **Integration tests** (`test_support.dfy`, `core_tests.dfy`, `struct_tests.dfy`, `tuple_struct_tests.dfy`, `unit_struct_tests.dfy`, `enum_tests.dfy`, `text_enum_tests.dfy`).
  - The two test helpers are methods that run the serializer on a fresh writer.
  - Each test's expected output is proved as a lemma. The strings the tests put into fields are parameters.

Three rules of the model deserve a note:

- **Self-closing.** The trait's default `serialize_as_element` (xml_struct/src/lib.rs:44-55) always writes a start and an end tag. So a `String`, an integer or a text enum is `<name></name>` even when its text is empty. Only derived structs and structured enum variants self-close (see `Properties.DefaultElementRendering`).
- **When a derived tag self-closes.** A derived tag self-closes exactly when its body has no element-placed field, or, for a tuple body, no item. This rule depends only on the declaration, not on the values written. The integration tests do not distinguish it from a rule that looks at what the fields actually write.
- **Booleans.** The `bool` impls are not in xml_struct/src/impls.rs; they are modelled from the expected outputs in xml_struct_tests/integration/core.rs.

## Model

| member | source | states |
|---|---|---|
| Xml.Render | xml_struct_tests/src/lib.rs:18 | Defines the text of a run of events: each event's tag or text in order. A start tag lists its attributes as ` key="value"`; a self-closed tag ends in `/>`. |
| Xml.Emitted | xml_struct/src/lib.rs:48-52 | Defines what a serialization call did against a failing sink: the events admitted from `expected` were appended to what was there, and the result is `Ok` exactly when all of `expected` fit. |
| Xml.Balanced | xml_struct/src/lib.rs:48-52 | Defines well-nestedness: each end tag closes the innermost open element of the same name, and nothing is left open. |
| Xml.RenderAppend | xml_struct_tests/src/lib.rs:18 | The text of `a + b` is the text of `a` followed by the text of `b`. |
| Xml.Admit | xml_struct/src/lib.rs:48-52 | A failing sink accepts a prefix of what it is offered. That prefix is everything exactly when everything fits; otherwise one more event would not have fit. |
| Xml.AdmitAppend | xml_struct/src/lib.rs:48-52 | Offering `a` and then `b` is the same as offering `a + b`. `b` is reached only when all of `a` fit. |
| Xml.EmittedThen | xml_struct/src/lib.rs:48-50 | A successful write of `a` followed by a write of `b` is the write of `a + b`. |
| Xml.EmittedStop | xml_struct/src/lib.rs:48-52 | After a failed write (`?` returns early), nothing that was still to come is written. |
| Xml.FailureWritesProperPrefix | xml_struct/src/lib.rs:48-52 | A failed serialization keeps what was already written and adds a proper prefix of its own events. In particular it never writes the closing `End`. |
| Xml.Writer.constructor | xml_struct_tests/src/lib.rs:13-14 | A new writer over an empty buffer holds no events. |
| Xml.Writer.WriteEvent | xml_struct/src/lib.rs:48 | Writes the event and returns `Ok` when the sink accepts it. Otherwise it writes nothing and returns the wrapped writer error. |
| Xml.StartTag.constructor | xml_struct/src/lib.rs:48 | `BytesStart::new(name)`: a start tag with that name and no attributes. |
| Xml.StartTag.PushAttribute | xml_struct/src/impls.rs:109 | Appends the `(name, value)` pair after the attributes already pushed. |
| Xml.NestAppend | xml_struct/src/lib.rs:48-52 | Nesting `a + b` is nesting `a` and then `b` from where `a` left off. |
| Xml.NestBelow | xml_struct/src/lib.rs:48-52 | Elements still open underneath do not change how a run of events nests. |
| Xml.BalancedAppend | xml_struct/src/impls.rs:99-101 | Two well-nested runs of events, one after the other, are well nested. |
| Xml.BalancedWrap | xml_struct/src/lib.rs:48-52 | A start tag, well-nested content and an end tag of the same name are well nested. |
| Xml.BalancedSingle | xml_struct/src/impls.rs:20 | A text event or a self-closed tag alone is well nested. |
| Decimal.IntToString | xml_struct/src/impls.rs:161 | Defines an integer's `to_string` text: a minus sign for a negative value, then the decimal digits of its magnitude. |
| Decimal.BoolToString | xml_struct_tests/integration/core.rs:13 | Defines a boolean's text as `true` or `false`, as the expected outputs of the core tests show. |
| Decimal.NatToString | xml_struct/src/impls.rs:161 | The text is at least one decimal digit, with no leading zero. |
| Decimal.NatRoundTrip | xml_struct/src/impls.rs:161 | The digits of `n` read back as `n`. |
| Decimal.IntRoundTrip | xml_struct/src/impls.rs:153-180 | An integer's `to_string` text is integer syntax (an optional minus sign, then digits) and reads back as the same integer. |
| Decimal.IntToStringInjective | xml_struct/src/impls.rs:153-180 | Different integers never have the same text. |
| Naming.PascalCase | xml_struct_tests/integration/struct.rs:92 | Defines the element and attribute name of a field: underscores dropped, the first character and each character after an underscore upper-cased. |
| Naming.Words | xml_struct_tests/integration/struct.rs:92 | The underscore-separated words of an identifier, empty words included. Its contract states that there is at least one word and that no word contains an underscore. |
| Naming.JoinCapitalized | xml_struct_tests/integration/struct.rs:92 | The reference definition of PascalCase: each word capitalized, then all words joined. |
| Naming.ConvertByWords | xml_struct_tests/integration/struct.rs:18 | The conversion that runs from any point equals capitalizing every underscore-separated word after the first, then joining them. |
| Naming.PascalCaseByWords | xml_struct_tests/integration/struct.rs:92 | `PascalCase(ident)` is every underscore-separated word of `ident` capitalized and joined. |
| Naming.PascalCaseShape | xml_struct_tests/integration/struct.rs:92 | A converted name has no underscore, and its first character is already upper case. |
| Naming.PascalCaseIdempotent | xml_struct_tests/integration/struct.rs:92 | Converting a converted name changes nothing. |
| Naming.PascalCaseJoin | xml_struct_tests/integration/struct.rs:18 | `word_rest` converts to the capitalized word followed by the conversion of `rest`. |
| Naming.PascalCaseWord | xml_struct_tests/integration/text_enum.rs:67 | A name without underscores is only capitalized. |
| Expected.QualifiedName | xml_struct_tests/integration/enum.rs:231 | Defines a prefixed name as `prefix:local`, and an unprefixed one as the local name alone. |
| Expected.FieldName | xml_struct_tests/integration/enum.rs:200 | Defines a named field's tag or attribute name: the PascalCase of its identifier, qualified by its `ns_prefix`. |
| Expected.NamespaceAttrs | xml_struct_tests/integration/unit_struct.rs:58 | Defines the namespace attributes of a derived type: `xmlns` for the default namespace first, then `xmlns:prefix` for each `ns` pair in declaration order. |
| Expected.AttributesOf | xml_struct/src/impls.rs:107-180 | Defines what `serialize_as_attribute(name)` pushes. A string, integer, bool or text enum pushes one `(name, text)` pair. `None` pushes nothing, and `Some(x)` pushes what `x` pushes. |
| Expected.ChildEvents | xml_struct/src/impls.rs:15-105 | Defines what `serialize_child_nodes` writes for each kind of value. Text types write one text node. `None` writes nothing, `Some(x)` writes what `x` writes, and a `Vec` writes its items in order. A derived struct writes its body; a structured enum writes its variant's tag; a text enum writes the variant name as text. |
| Expected.DefaultElementEvents | xml_struct/src/lib.rs:44-55 | Defines the trait default `serialize_as_element`: a start tag with the name, the child nodes, then the end tag. |
| Expected.ElementEvents | xml_struct/src/impls.rs:66-74 | Defines what `serialize_as_element(name)` writes. `None` writes nothing and `Some(x)` defers to `x`. A derived struct writes its own tag under `name` with its namespace attributes. A derived enum wraps its variant's tag in `name`, carrying the namespace attributes. Every other type uses the trait default. |
| Expected.HasContent | xml_struct_tests/integration/unit_struct.rs:33 | Defines when a derived tag has content: a named body with some element-placed field, or a tuple body with some item. |
| Expected.TagEvents | xml_struct_tests/integration/struct.rs:155 | Defines a derived tag: the leading attributes, then the attribute fields' attributes, on a start tag; then the body's children and an end tag. Without content it is one self-closed tag. |
| Expected.BodyEvents | xml_struct_tests/integration/tuple_struct.rs:116 | Defines a body's children: the named fields' events in order, or each positional item's children in order, or nothing for a unit body. |
| Expected.FieldsEvents | xml_struct_tests/integration/struct.rs:155 | Defines the children of a list of named fields: each field's events, in declaration order. |
| Expected.FieldEvents | xml_struct_tests/integration/struct.rs:198 | Defines one named field's children. An attribute field writes nothing, and a flattened field writes its value's children. Any other field writes its value as an element named by `FieldName`. |
| Expected.ItemsEventsAppend | xml_struct/src/impls.rs:99-101 | The children of the items `a + b` are those of `a` followed by those of `b`. |
| Expected.ItemsEventsSingle | xml_struct/src/impls.rs:100 | The children of one item are that item's own `serialize_child_nodes` output. |
| Expected.FieldsEventsAppend | xml_struct_tests/integration/struct.rs:92 | The fields' child output splits at any point of the declaration. |
| Expected.FieldsEventsSingle | xml_struct_tests/integration/struct.rs:92 | One field's child output is that field's events. |
| Expected.FieldsAttrsAppend | xml_struct_tests/integration/struct.rs:113 | The fields' attributes split at any point of the declaration. |
| Expected.FieldsAttrsSingle | xml_struct_tests/integration/struct.rs:113 | One field's attributes are that field's attributes. |
| Serialize.SerializeAsAttribute | xml_struct/src/impls.rs:107-144 | Pushes exactly `AttributesOf(v, name)` onto the tag and nothing else. That is one unchanged pair for a string, integer, bool or text enum; none for `None`; and what `Some`'s content pushes. |
| Serialize.SerializeChildNodes | xml_struct/src/impls.rs:15-105 | Writes exactly `ChildEvents(v)`, stopping at the first failed write, and returns `Ok` exactly when all of it was written. |
| Serialize.SerializeAsElement | xml_struct/src/lib.rs:44-55 | Writes exactly `ElementEvents(v, name)` under the same failure rule. Types with their own element form (`Option`, derived structs and enums) take it; every other type takes the trait's default. |
| Serialize.DefaultSerializeAsElement | xml_struct/src/lib.rs:44-55 | The default method writes `Start(name)`, then the children, then `End(name)`. It stops at the first failure. |
| Serialize.WriteWrapped | xml_struct/src/lib.rs:48-52 | The three steps of the default method: a start tag carrying the given attributes, the children, and the end tag. A failure at any step ends the call. |
| Serialize.SerializeVecChildNodes | xml_struct/src/impls.rs:91-104 | A `Vec` writes its items' children in order. The early return for an empty vector writes what the loop would. |
| Serialize.WriteItems | xml_struct/src/impls.rs:99-101 | The `for` loop: each item's `serialize_child_nodes` in turn. The first failing item stops the loop. |
| Serialize.WriteEvents | xml_struct_tests/integration/struct.rs:67-79 | A hand-written `serialize_child_nodes` writes its own events in order. |
| Serialize.WriteTag | xml_struct_tests/integration/struct.rs:113 | A derived tag is written in one of two forms. With element content it is a start tag carrying the leading and field attributes, then the body, then `End`. Otherwise it is one self-closed tag carrying those attributes. |
| Serialize.PushAttributes | xml_struct_tests/integration/unit_struct.rs:58 | Pushes the given attributes in order after those already on the tag. |
| Serialize.PushFieldAttributes | xml_struct_tests/integration/struct.rs:113 | Pushes every attribute field's attribute, in declaration order. |
| Serialize.WriteBody | xml_struct_tests/integration/tuple_struct.rs:59 | Writes a body's children: named fields in order, or positional items spliced in order. A unit body writes nothing. |
| Serialize.WriteFields | xml_struct_tests/integration/struct.rs:92 | Writes each field's events in declaration order, stopping at the first failure. |
| Serialize.WriteField | xml_struct_tests/integration/struct.rs:198 | An attribute field writes nothing. A flattened field writes its value's children. Any other field writes its value as an element named by the field. |
| Properties.ChildBalanced | xml_struct/src/lib.rs:48-52 | Child content is well nested whenever the hand-written parts are. |
| Properties.ElementBalanced | xml_struct/src/lib.rs:48-52 | The element form is well nested whenever the hand-written parts are. Each `End` closes the `Start` with the same name. |
| Properties.TagBalanced | xml_struct_tests/integration/struct.rs:113 | A derived tag is well nested, in both of its forms. |
| Properties.BodyBalanced | xml_struct_tests/integration/struct.rs:92 | A derived body's children are well nested. |
| Properties.FieldsBalanced | xml_struct_tests/integration/struct.rs:92 | The fields' children are well nested. |
| Properties.ItemsBalanced | xml_struct/src/impls.rs:99-101 | A vector's children are well nested. |
| Properties.ElementShape | xml_struct/src/lib.rs:48-52 | The element form is empty exactly for an absent value. Otherwise it opens with `Start(name)` and ends with `End(name)`, or it is a single self-closed tag named `name`. |
| Properties.AbsentWritesNothing | xml_struct/src/impls.rs:66-84 | `None`, however deeply wrapped in `Some`, writes no children and no element, and pushes no attribute. |
| Properties.SomeIsTransparent | xml_struct/src/impls.rs:71 | `Some(x)` writes exactly what `x` writes, as children, as an element and as an attribute. |
| Properties.DefaultElementRendering | xml_struct/src/lib.rs:44-55 | The default element form renders as `<name>`, the children, `</name>`. It is never self-closed, whatever the children are. |
| Properties.StringForms | xml_struct/src/impls.rs:15-60 | A string is one text node holding it unchanged, and one unchanged attribute pair. |
| Properties.IntegerTextAgrees | xml_struct/src/impls.rs:153-180 | An integer's text node and its attribute value are the same text, and that text reads back as the integer. |
| Properties.BoolTextAgrees | xml_struct_tests/integration/core.rs:8-60 | A bool is the text `true` or `false`, both as a text node and as an attribute value. |
| Properties.TextEnumForms | xml_struct_tests/integration/text_enum.rs:29-94 | A text enum is its variant's name: as text, inside `<name>`, and as an attribute value. |
| Properties.VecConcat | xml_struct/src/impls.rs:91-104 | A vector's children are its items' children concatenated in order, with no separator and no wrapper. |
| Properties.VecSingle | xml_struct/src/impls.rs:99-101 | A one-item vector writes exactly what its item writes. |
| Properties.OfPlacementDrawn | xml_struct_tests/integration/text_enum.rs:16-27 | Selects only fields of the given placement, each drawn from the input. |
| Properties.OfPlacementAppend | xml_struct_tests/integration/text_enum.rs:16-27 | Selecting from `a + b` is selecting from `a` and then from `b`, so the selection keeps declaration order. |
| Properties.OfPlacementSingle | xml_struct_tests/integration/text_enum.rs:16-27 | A single field is selected exactly when it has the placement. |
| Properties.ChildrenAreTheElementFields | xml_struct_tests/integration/text_enum.rs:67 | The children come from the element fields alone, in their relative declaration order. |
| Properties.AttributesAreTheAttributeFields | xml_struct_tests/integration/text_enum.rs:86 | The tag's field attributes come from the attribute fields alone, in their relative declaration order. |
| Properties.AttributeFieldPlacement | xml_struct_tests/integration/struct.rs:113 | An attribute field writes no children. Its attribute is named `prefix:Name` or `Name`, from its `ns_prefix` and its PascalCase name. |
| Properties.FlattenSplices | xml_struct_tests/integration/struct.rs:176-177 | A flattened field's children are spliced in at its position, with no element of its own. |
| Properties.WrappedFieldIsElement | xml_struct_tests/integration/struct.rs:92 | Any other element field is its value's element form, named after the field. |
| Properties.HandWrittenFieldContent | xml_struct_tests/integration/struct.rs:67-79 | A field of a hand-written type holds exactly what that type's `serialize_child_nodes` writes. |
| Properties.NamespaceAttrsOrder | xml_struct_tests/integration/unit_struct.rs:58 | The namespace attributes are `xmlns` first, if declared, and then one `xmlns:prefix` per `ns` in declaration order. |
| Properties.DeclAttrsOrder | xml_struct_tests/integration/unit_struct.rs:15 | Each `ns` declaration becomes `xmlns:prefix="uri"`, in order. |
| Properties.ChildModeIgnoresNamespaces | xml_struct_tests/integration/unit_struct.rs:47 | Namespace declarations never change a derived struct's or enum's children. |
| Properties.StructElement | xml_struct_tests/integration/struct.rs:155 | A struct's element form puts the namespace attributes first and the field attributes after them. It holds the children, or is self-closed when there is no element field. |
| Properties.SelfClosingIff | xml_struct_tests/integration/core.rs:33-42 | A derived struct self-closes exactly when every named field is an attribute, or a tuple struct has no field, or it is a unit struct. It then has no children. |
| Properties.AllAttributesNoChildren | xml_struct_tests/integration/core.rs:33-42 | Fields that are all attributes write no children. |
| Properties.UnitStruct | xml_struct_tests/integration/unit_struct.rs:18-66 | A unit struct writes no children. As an element it is one self-closed tag carrying its namespace declarations. |
| Properties.TupleStructChildren | xml_struct_tests/integration/tuple_struct.rs:59 | A tuple struct's children are its positional fields' children concatenated, as for a vector. As an element they are wrapped in `<name>` with the namespaces. |
| Properties.EnumElement | xml_struct_tests/integration/enum.rs:62 | An enum as an element is `<name>`, carrying its namespaces, then the variant's tag, then `</name>`. The variant's tag is named `prefix:Variant` or `Variant` and carries the variant's attribute fields. |
| Properties.EnumElementIsDefault | xml_struct_tests/integration/enum.rs:93-94 | Without namespace declarations, an enum's element form is the trait's default. |
| Properties.UnitVariant | xml_struct_tests/integration/enum.rs:49 | A unit variant is the self-closed tag named with the variant's identifier, unchanged. |
| Properties.FieldPrefixStaysOnField | xml_struct_tests/integration/enum.rs:199-200 | A field's `ns_prefix` qualifies the field's element, not the variant's tag inside it. |
| TypeProps.Gather | xml_struct_tests/ui/lib.rs:12-19 | Defines how the property items are read in order. An unknown key or a second `default_ns` stops with a rejection. `ns` pairs are appended, `text` is recorded and `variant_ns_prefix` is kept. |
| TypeProps.CheckTypeProps | xml_struct_tests/ui/lib.rs:12-19 | Defines the derive's verdict on a declaration. It rejects `text` on a struct, on an enum with a variant that has fields, or together with any namespace. Otherwise the gathered properties are accepted. |
| TypeProps.Acceptable | xml_struct_tests/ui/lib.rs:12-19 | The declarative rule, independent of `Gather`: every key is known, there is at most one `default_ns`, and `text` appears only on an all-unit enum without namespace items. |
| TypeProps.GatherOkIff | xml_struct_tests/ui/lib.rs:12-19 | Reading the property items succeeds exactly when no key is unknown and at most one default namespace is given, counting one already read. |
| TypeProps.GatherValue | xml_struct_tests/ui/lib.rs:12-19 | A successful read appends the `ns` pairs in order, sets the default namespace exactly when one was given, and sets `text` exactly when it was given. |
| TypeProps.GatherSpec | xml_struct_tests/ui/lib.rs:12-19 | Reading the property items succeeds exactly when every key is known and at most one default namespace is given. The result collects the `ns` pairs in order and records `text`. |
| TypeProps.CheckTypePropsIff | xml_struct_tests/ui/lib.rs:12-19 | The derive accepts a declaration exactly when its properties are `Acceptable`. That means every key is known, at most one `default_ns` is given, and `text` appears only on an all-unit enum with no namespace declaration. |
| TypeProps.NoNamespaceItems | xml_struct_tests/ui/lib.rs:18 | Items without namespace declarations give no default and no `ns` pairs. |
| TypeProps.SomeNamespaceItem | xml_struct_tests/ui/lib.rs:18 | Items with a namespace declaration give a default or an `ns` pair. |
| TypeProps.AcceptedNamespaces | xml_struct_tests/ui/test_cases/type_properties/valid_namespaces.rs:7-28 | An accepted list keeps its `ns` pairs in the order written. It has a default namespace exactly when one is given, and text mode exactly when `text` is given. |
| TypeProps.NoPropertiesAccepted | xml_struct_tests/ui/test_cases/type_properties/no_properties.rs:7-14 | No properties, or an empty list, is accepted and means the defaults. |
| TypeProps.NamespacesAccepted | xml_struct_tests/ui/lib.rs:13 | Any number of `ns` declarations with at most one `default_ns` is accepted on a struct. |
| TypeProps.MultipleDefaultsRejected | xml_struct_tests/ui/lib.rs:14 | A second `default_ns` is rejected. |
| TypeProps.TextEnumAccepted | xml_struct_tests/ui/test_cases/type_properties/text_enum.rs:7-14 | `text` on an enum of unit variants is accepted. |
| TypeProps.TextStructRejected | xml_struct_tests/ui/test_cases/type_properties/text_struct.rs:7-19 | `text` on a unit, tuple or named struct is rejected. |
| TypeProps.TextNonUnitRejected | xml_struct_tests/ui/lib.rs:17 | `text` on an enum that has a variant with fields is rejected. |
| TypeProps.TextWithNamespacesRejected | xml_struct_tests/ui/test_cases/type_properties/text_enum_with_namespaces.rs:7-41 | `text` together with `default_ns` or `ns` is rejected, whichever comes first. |
| TypeProps.UnrecognizedRejected | xml_struct_tests/ui/test_cases/type_properties/invalid_attributes.rs:7-13 | An unknown or misspelled key is rejected wherever it appears. |
| Derive.Accessor | xml_struct_derive/src/serialize.rs:40-62 | Defines how generated code reaches a field. In a struct it is `self.ident` or `self.N`; in a variant it is the bound `ident` or `fieldN` (lines 165 and 188). |
| Derive.Descriptor | xml_struct_derive/src/serialize.rs:38-71 | Defines the descriptor of field `idx`: named or positional kind, its type, its accessor, and its parsed properties, or the defaults when parsing fails. |
| Derive.FieldErrors | xml_struct_derive/src/serialize.rs:32-76 | Defines the errors of a field list: each failing field's parse error, in declaration order. |
| Derive.VariantDescriptor | xml_struct_derive/src/serialize.rs:152-212 | Defines a variant's descriptor: its identifier and a struct, tuple or unit kind, holding the descriptors of its fields. |
| Derive.Combine | xml_struct_derive/src/serialize.rs:80-84 | Combining two errors keeps all messages, the accumulated ones first. |
| Derive.CollectFieldProcessingError | xml_struct_derive/src/serialize.rs:215-223 | A failed parse records its error and gives the default field properties. A successful one records nothing and gives the parsed properties. |
| Derive.ProcessField | xml_struct_derive/src/serialize.rs:38-71 | One field's closure gives exactly that field's descriptor. It appends the field's parse error when there is one, and nothing otherwise. |
| Derive.ProcessFields | xml_struct_derive/src/serialize.rs:32-76 | Gives one descriptor per field, in order, each built from its own field and index. It appends exactly the failing fields' errors. |
| Derive.CombineErrors | xml_struct_derive/src/serialize.rs:80-88 | Gives no error exactly when none was collected. Otherwise it gives one error holding every message in order. |
| Derive.WriteSerializeImplForStruct | xml_struct_derive/src/serialize.rs:20-91 | Emits a compile error, holding every field error's messages, exactly when some field fails. Otherwise it hands code generation the field descriptors in declaration order. |
| Derive.ProcessEnumVariant | xml_struct_derive/src/serialize.rs:152-212 | A variant's kind follows its fields, which are processed as a struct's are. Named fields use flag true and positional fields use flag false, with `fieldN` accessors. |
| Derive.WriteSerializeImplForEnum | xml_struct_derive/src/serialize.rs:96-149 | A `text` enum gives its variant identifiers in order, with no field processing. Otherwise every variant is described in order and all errors are combined. `variant_ns_prefix` is taken out of the type properties and passed only with the variants. |
| Derive.FieldErrorsAppend | xml_struct_derive/src/serialize.rs:32-76 | Field errors split at any point of the declaration. |
| Derive.VariantErrorsAppend | xml_struct_derive/src/serialize.rs:121-125 | Variant errors split at any point of the declaration. |
| Derive.MessagesAppend | xml_struct_derive/src/serialize.rs:80-84 | Messages split at any point of the error list. |
| Derive.EveryFieldErrorCollected | xml_struct_derive/src/serialize.rs:26-28 | There is no error exactly when every field parses, and every failing field's error is collected. |
| Derive.EveryMessageKept | xml_struct_derive/src/serialize.rs:80-84 | Every message of every collected error is in the combined error. |
| Derive.FailedFieldGetsDefaults | xml_struct_derive/src/serialize.rs:221 | A field that fails to parse is still described, with the default properties. |
| Derive.NatToStringInjective | xml_struct_derive/src/serialize.rs:187 | Different indices give different numerals. |
| Derive.PositionalAccessors | xml_struct_derive/src/serialize.rs:185-188 | Positional variant fields are reached as `field0`, `field1`, …, and two positions never share an accessor. The same holds for `self.0`, `self.1`, … in a struct. |
| TestSupport.SerializeValueAsElement | xml_struct_tests/src/lib.rs:9-21 | Returns the rendered `ElementEvents(v, rootName)` exactly when every write fits. Otherwise it returns the wrapped writer error. |
| TestSupport.SerializeValueChildren | xml_struct_tests/src/lib.rs:23-35 | The same for `ChildEvents(v)`. |
| TestSupport.StringFieldElement | xml_struct_tests/integration/struct.rs:92 | A string element field is `<Name>`, the text, `</Name>`. |
| TestSupport.ChildTypeFieldElement | xml_struct_tests/integration/struct.rs:67-79 | A `ChildType` field holds that type's own text node. |
| TestSupport.StringFieldAttribute | xml_struct_tests/integration/struct.rs:113 | A string attribute field is one attribute and no children. |
| CoreTests.ElementStruct | xml_struct_tests/integration/core.rs:33-37 | The attribute-only struct `Element` is well formed. |
| CoreTests.BoolAsElement | xml_struct_tests/integration/core.rs:8-30 | `true` and `false` as an element render `<element>true</element>` and `<element>false</element>`. |
| CoreTests.ElementStructEvents | xml_struct_tests/integration/core.rs:39-59 | The attribute-only struct is one self-closed tag carrying `Content`. |
| CoreTests.BoolAsAttribute | xml_struct_tests/integration/core.rs:39-59 | It renders `<element Content="true"/>` or `<element Content="false"/>`. |
| StructTests.StructValue | xml_struct_tests/integration/struct.rs:9-45 | The three test structs, which differ in namespaces and in the flattened `child`, are well formed. |
| StructTests.StrAttrField | xml_struct_tests/integration/struct.rs:11-12 | `str_attr` is the attribute `StrAttr` and writes no children. |
| StructTests.StringAttrField | xml_struct_tests/integration/struct.rs:14-15 | `string_attr` is the attribute `other_ns:StringAttr`, even though the struct does not declare that prefix. |
| StructTests.ChildField | xml_struct_tests/integration/struct.rs:17 | `child` is `<Child>`, the hand-written text, `</Child>`; flattened, it is the bare text. |
| StructTests.MoreComplexField | xml_struct_tests/integration/struct.rs:18 | `more_complex_field_name` is wrapped in `<MoreComplexFieldName>`. |
| StructTests.StructAttributes | xml_struct_tests/integration/struct.rs:113 | The struct's attributes are `StrAttr` and then `other_ns:StringAttr`. |
| StructTests.StructContent | xml_struct_tests/integration/struct.rs:92 | The children are the child field, wrapped or flattened, then `MoreComplexFieldName`. |
| StructTests.StructElement | xml_struct_tests/integration/struct.rs:113 | The element form is `parent` carrying the namespaces and then the field attributes, around the children. |
| StructTests.ThisNamespacesAttrs | xml_struct_tests/integration/struct.rs:22 | The declared namespaces give `xmlns` and then `xmlns:other_ns`. |
| StructTests.StructChildren | xml_struct_tests/integration/struct.rs:81-100 | The expected children of `struct`. |
| StructTests.StructAsElement | xml_struct_tests/integration/struct.rs:102-121 | The expected element of `struct_as_element`. |
| StructTests.StructAsElementText | xml_struct_tests/integration/struct.rs:102-121 | The expected text of `struct_as_element`: `<parent`, the two attributes in order, `>`, the `Child` and `MoreComplexFieldName` elements, then `</parent>`. It is stated piece by piece, with the test strings as parameters. |
| StructTests.StructWithNamespacesChildren | xml_struct_tests/integration/struct.rs:123-142 | With namespaces, the children are unchanged. |
| StructTests.StructWithNamespacesAsElement | xml_struct_tests/integration/struct.rs:144-163 | `xmlns`, then `xmlns:other_ns`, then the field attributes on `parent`. |
| StructTests.FlattenedFieldChildren | xml_struct_tests/integration/struct.rs:165-185 | The flattened child's text is spliced in before `MoreComplexFieldName`. |
| StructTests.FlattenedFieldAsElement | xml_struct_tests/integration/struct.rs:187-206 | The same, inside `parent` with the attributes. |
| TupleStructTests.TupleStructValue | xml_struct_tests/integration/tuple_struct.rs:9-14 | The two tuple structs are well formed. |
| TupleStructTests.TupleContent | xml_struct_tests/integration/tuple_struct.rs:59 | The children are `ChildType`'s text and then the string, unwrapped. |
| TupleStructTests.TupleElement | xml_struct_tests/integration/tuple_struct.rs:78 | The element form wraps them in `parent` carrying the namespaces. |
| TupleStructTests.TwoTexts | xml_struct_tests/integration/tuple_struct.rs:59 | Two text nodes render as their texts run together, with no separator. |
| TupleStructTests.TupleStructChildren | xml_struct_tests/integration/tuple_struct.rs:50-66 | The children render as `bare text child node` followed by the string. |
| TupleStructTests.TupleStructAsElement | xml_struct_tests/integration/tuple_struct.rs:69-85 | The expected element of `tuple_struct_as_element`. |
| TupleStructTests.TupleStructWithNamespacesChildren | xml_struct_tests/integration/tuple_struct.rs:88-104 | With namespaces, the children and their text are unchanged. |
| TupleStructTests.TupleStructWithNamespacesAsElement | xml_struct_tests/integration/tuple_struct.rs:107-123 | `xmlns`, then `xmlns:other_ns`, on `parent`. |
| UnitStructTests.UnitNamespacesAttrs | xml_struct_tests/integration/unit_struct.rs:11-16 | The declared namespaces, some given through constants, give `xmlns`, `xmlns:bar`, `xmlns:baz` with those values. |
| UnitStructTests.UnitStructChildren | xml_struct_tests/integration/unit_struct.rs:18-52 | A unit struct, with or without namespaces, writes no children and renders as the empty string. |
| UnitStructTests.UnitStructAsElement | xml_struct_tests/integration/unit_struct.rs:29-41 | As an element it is `<foo/>`. |
| UnitStructTests.UnitStructWithNamespacesAsElement | xml_struct_tests/integration/unit_struct.rs:54-66 | As an element with namespaces it is one self-closed `foo` carrying `xmlns`, `xmlns:bar`, `xmlns:baz`. |
| EnumTests.UnitVariantEvents | xml_struct_tests/integration/enum.rs:49 | A unit variant is one self-closed tag named after it; as an element, it is wrapped. |
| EnumTests.MixedEnumUnitVariant | xml_struct_tests/integration/enum.rs:45-70 | `<UnitVariant/>`, and `<parent_name><UnitVariant/></parent_name>` as an element. |
| EnumTests.AllUnitEnumTwo | xml_struct_tests/integration/enum.rs:164-189 | `<Two/>`, and `<foo><Two/></foo>` as an element. |
| EnumTests.EnumWithNamespacePrefix | xml_struct_tests/integration/enum.rs:227-252 | `<foo:SomeValue/>` in both modes; the outer `outer_foo` stays unqualified. |
| EnumTests.StructVariant | xml_struct_tests/integration/enum.rs:11-13 | `MixedEnum::StructVariant` is well formed. |
| EnumTests.StructVariantBody | xml_struct_tests/integration/enum.rs:78 | Its one field is `<SomeField>`, the text, `</SomeField>`. |
| EnumTests.MixedEnumStructVariant | xml_struct_tests/integration/enum.rs:72-102 | The field inside `<StructVariant>`, and that inside `FooBar` as an element. |
| EnumTests.TupleVariant | xml_struct_tests/integration/enum.rs:14 | `MixedEnum::TupleVariant` is well formed. |
| EnumTests.MixedEnumTupleVariant | xml_struct_tests/integration/enum.rs:104-129 | The positional text, unwrapped, inside `<TupleVariant>`, and that inside `banana`. |
| EnumTests.StructVariantWithAttributes | xml_struct_tests/integration/enum.rs:15-20 | `MixedEnum::StructVariantWithAttributes` is well formed. |
| EnumTests.StructVariantWithAttributesBody | xml_struct_tests/integration/enum.rs:138 | Its attribute is `AttrField`; its child is `<ChildField>`. |
| EnumTests.MixedEnumStructVariantWithAttributes | xml_struct_tests/integration/enum.rs:131-162 | `AttrField` goes on the variant's tag, never on the outer `Arbitrary`. |
| EnumTests.StructWithAllUnitEnumFields | xml_struct_tests/integration/enum.rs:30-37 | The struct with `AllUnitEnum` fields is well formed. |
| EnumTests.UnitEnumField | xml_struct_tests/integration/enum.rs:199-200 | A unit-enum field is the field's element around the variant's self-closed tag. |
| EnumTests.StructWithAllUnitEnumFieldsBody | xml_struct_tests/integration/enum.rs:199-200 | The three fields in order; `ns_prefix` qualifies only `foo:EnumChildWithPrefix`, not the `Gamma` inside it. |
| EnumTests.StructWithAllUnitEnumFieldsChildren | xml_struct_tests/integration/enum.rs:191-207 | The expected children of `struct_with_all_unit_enum_fields`. |
| EnumTests.StructWithAllUnitEnumFieldsAsElement | xml_struct_tests/integration/enum.rs:209-225 | The same, inside `TAGNAME`. |
| TextEnumTests.TextEnumTwo | xml_struct_tests/integration/text_enum.rs:29-55 | `Two` as a bare text node, and `<foo>Two</foo>` as an element. |
| TextEnumTests.TextEnumFieldElement | xml_struct_tests/integration/text_enum.rs:67 | A text-enum element field is the field's tag around the variant's name. |
| TextEnumTests.TextEnumFieldAttribute | xml_struct_tests/integration/text_enum.rs:86 | A text-enum attribute field's value is the variant's name. |
| TextEnumTests.StructWithTextEnumFields | xml_struct_tests/integration/text_enum.rs:16-27 | The struct with text-enum fields is well formed. |
| TextEnumTests.StructWithTextEnumFieldsBody | xml_struct_tests/integration/text_enum.rs:16-27 | The interleaved declaration gives the attributes `StringAttr` then `EnumAttr`, and the children `ChildField` then `EnumChild`. |
| TextEnumTests.StructWithTextEnumFieldsChildren | xml_struct_tests/integration/text_enum.rs:57-75 | The expected children: `ChildField`, then `EnumChild` holding `A`. |
| TextEnumTests.StructWithTextEnumFieldsAsElement | xml_struct_tests/integration/text_enum.rs:77-94 | `namehere` carries `StringAttr` and `EnumAttr="Gamma"` around those children. |

## Left out

- Escaping, byte encoding and `std::io::Write` are left out. The writer is an event sequence and `Render` copies text unchanged; no test value holds a character that needs escaping.
- The sink's failure is a parameter, `failAt`, and stands for any I/O error below the writer. The test helpers take it as a parameter too, although their in-memory buffer never fails.
- Proc-macro plumbing is not modelled: `quote!`, `syn` and `TokenStream`, compile-error tokens, generics, and the text of the generated code. The derive's behaviour is modelled instead, by what the generated code writes.
- The code generation module (`serialize/codegen.rs`) is not part of this model. What derived types write is defined by the integration tests, under the following choices:
  - a derived tag self-closes exactly when its body has no element field;
  - an enum's element form puts its namespace declarations on the outer tag;
  - positional fields are spliced with no per-field properties.
- `FieldProps` and `TypeProps` attribute syntax is not parsed. The field parser is a parameter of the derive model, and type properties are given as items that are already parsed.
- Compile-fail verdicts are modelled, but not which error is reported first when several rules are broken.
- When `variant_ns_prefix` is given twice, the last one is kept. The tests do not pin this.
- `multiple_defaults.rs` and `text_enum_with_non_unit_variants.rs` are not part of this model. Their verdicts are taken from xml_struct_tests/ui/lib.rs:14 and :17.
- The trybuild harness is not modelled.
- The `ChildType` inherent-method trick (xml_struct_tests/integration/struct.rs:51-62) is not modelled. It checks Rust's method resolution; the model has only the trait method.
- The display strings of `thiserror` errors are not modelled.
- `TestError::Utf8` is not modelled. Strings here are sequences of characters, so the output cannot be invalid UTF-8.
- The `bool` impls are not in xml_struct/src/impls.rs. They are modelled from the expected outputs in xml_struct_tests/integration/core.rs.
- `Naming.PascalCase` is not the casing crate's full algorithm. It drops underscores and upper-cases the first character and each character after an underscore, which covers every identifier in the tests.
- The expected outputs are proved as event sequences. Their rendered text is proved only for some tests: the bool tests, `struct_as_element`, the tuple-struct children, the unit-struct forms without namespaces, the unit-variant enums and the bare text enum. For the other tests whose output carries attributes or several nested elements, the text is not checked at that level.
