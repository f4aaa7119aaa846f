# enum-tag: a model of `#[derive(EnumTag)]`

`enum-tag` is a Rust procedural macro. Put `#[derive(EnumTag)]` on an `enum` and it generates two things:

- a payload-free, C-like *tag* enum named after the input with `Tag` appended;
- an implementation of the `EnumTag` trait whose `tag(&self)` method maps every value of the input onto its tag case.

A `struct` or a `union` is refused with a compile error.

This project models `macro/src/derive.rs` as pure functions over a declaration tree and proves what the generated code does. The modules are:

- `Syntax` (`syntax.dfy`): the parts of `syn`'s `DeriveInput` that the derive reads and builds. These are the item's attributes, visibility, name, generics, span and data (`Enum` of variants, `Struct` or `Union`). A variant has attributes, a name, fields (`Unit`, `Unnamed(n)` or `Named(names)`) and an optional explicit discriminant. It also defines `ExplicitDiscriminant`, the value declared after `=` for the variant of a given name.
- `Derive` (`derive.rs` → `derive.dfy`): `make_unit`, the variant and arm lists, `enum_tag_impl` and `enum_tag`. The items the macro emits are values: an `ItemEnum` for the tag type and an `ImplBlock` for the trait implementation. A diagnostic is an `Error(span, message)`.
- `Projection` (`projection.dfy`): the meaning of the generated `tag` method. A value of the input enum is a variant name plus a payload. Each arm `Self::V { .. } => Tag::V` matches on the variant name alone. `tag` returns the tag case of the first arm that matches.
- `DocExample` (`doc_example.dfy`): the `Foo` example from the macro's documentation.

The `EnumTag` trait in `src/lib.rs` is an associated type `Tag` plus a method `tag`. Here it is the `ImplBlock` value: its `tag` field is the associated type and its `arms` are the method body, which `Projection.Tag` interprets.

Facts about the code that the model keeps:

- The tag enum gets eight derives: `Debug`, `Clone`, `Copy`, `PartialEq`, `Eq`, `PartialOrd`, `Ord` and `Hash`.
- The struct and union refusals differ only in their message text.
- The tag enum gets only the derive list, not the input's attributes such as `#[repr(u8)]`, and it is always `pub`.

## Model

| member | source | states |
|---|---|---|
| Syntax.Idents | macro/src/derive.rs:37 | the variant names, one per variant, in declaration order |
| Syntax.ExplicitDiscriminant | macro/src/derive.rs:77 | a value found for a name is the value declared after `=` by a variant with that name |
| Syntax.ExplicitDiscriminantOfFirst | macro/src/derive.rs:77 | the value declared by the first variant of a name is what is found under that name |
| Syntax.ExplicitDiscriminantOf | macro/src/derive.rs:77 | with distinct names, every variant's declared value, or its absence, is found under its name |
| Derive.MakeUnit | macro/src/derive.rs:69-79 | the unit variant has no payload |
| Derive.MakeUnitKeeps | macro/src/derive.rs:72-78 | attributes, name and discriminant are kept; a variant is unchanged exactly when it was already a unit variant |
| Derive.MakeUnitIdempotent | macro/src/derive.rs:72-78 | make_unit is idempotent and its result does not depend on the original fields |
| Derive.UnitVariants | macro/src/derive.rs:36 | one tag variant per input variant |
| Derive.UnitVariantsAt | macro/src/derive.rs:36 | the i-th tag variant is make_unit of the i-th input variant |
| Derive.MatchArms | macro/src/derive.rs:37 | one match arm per input variant |
| Derive.MatchArmsAt | macro/src/derive.rs:58-62 | the i-th arm maps the i-th variant's name to the tag case of the same name |
| Derive.TagIdent | macro/src/derive.rs:35 | the tag name is the input name followed by the suffix `Tag` |
| Derive.EnumTagImpl | macro/src/derive.rs:21-67 | succeeds exactly on enums; every error is spanned on the whole input |
| Derive.EnumTag | macro/src/derive.rs:7-12 | generates items exactly on enums |
| Derive.WrapperFaithful | macro/src/derive.rs:7-12 | the wrapper passes the Ok result through unchanged and turns Err into a compile error carrying the same error |
| Derive.StructRejected | macro/src/derive.rs:26-29 | a struct gives the struct message spanned on the input, and no items |
| Derive.UnionRejected | macro/src/derive.rs:30-33 | a union gives the union message spanned on the input, and no items |
| Derive.EnumAccepted | macro/src/derive.rs:22-55 | every enum is accepted. The tag enum is pub, named ident + "Tag", non-generic and carries only the derive list. The impl is for the input type, over exactly its generics and where-clause, with Tag set to the tag enum |
| Derive.StructuralCopy | macro/src/derive.rs:36-52 | the tag enum has as many variants as the input, in order, with the same names, attributes and discriminants, all unit |
| Derive.ArmsFollowVariants | macro/src/derive.rs:57-62 | one arm per variant, in order, arm i mapping variant i to tag case i |
| Derive.UnitVariantsIdempotent | macro/src/derive.rs:36 | stripping payloads twice equals stripping once |
| Derive.TagOfTagEnum | macro/src/derive.rs:36-52 | deriving on a generated tag enum gives back the same variants |
| Derive.UnitVariantsIgnoreFields | macro/src/derive.rs:36-37 | variant lists that differ only in payloads give the same tag variants and arms |
| Derive.OutputIgnoresPayloads | macro/src/derive.rs:21-67 | enums with the same name and generics whose variants differ only in payloads give the same output, whatever their attributes, visibility and span |
| Derive.UnitVariantsKeepDiscriminants | macro/src/derive.rs:77 | looking up a name's explicit discriminant gives the same answer before and after stripping payloads |
| Derive.DiscriminantFidelity | macro/src/derive.rs:77 | a tag case has an explicit discriminant exactly when its source variant has one, and it is the same value |
| Projection.Dispatch | macro/src/derive.rs:58-62 | the match yields nothing exactly when no arm's pattern names the value's variant; otherwise it yields the tag case of the first arm that does |
| Projection.Tag | macro/src/derive.rs:57-63 | `tag(&self)` yields nothing exactly when no arm names the value's variant; otherwise it yields the tag case of an arm naming it. `TagTotal` and `ProjectionCorrect` state which case that is for the generated arms |
| Projection.DispatchIgnoresPayload | macro/src/derive.rs:60 | the `{ .. }` pattern ignores the payload: values of the same variant dispatch alike |
| Projection.ArmsNameVariant | macro/src/derive.rs:58-62 | the generated arms map a value of variant V to tag case V when V is a variant, and to nothing otherwise (no wildcard arm) |
| Projection.TagTotal | macro/src/derive.rs:57-63 | tag is defined exactly on the input's variant names; on every value of the enum it names the value's variant and yields a value of the tag enum |
| Projection.ProjectionCorrect | macro/src/derive.rs:57-63 | with distinct variant names, tag of any value of variant i of any shape is tag case i and not an instance of any other tag case |
| Projection.TagIgnoresPayload | macro/src/derive.rs:60 | two values of the same variant have the same tag |
| DocExample.Foo | macro/src/lib.rs:22-31 | the documented enum has six variants |
| DocExample.FooIdents | macro/src/lib.rs:24-31 | the example enum's variant names in order |
| DocExample.FooTagName | macro/src/lib.rs:34 | `<Foo as EnumTag>::Tag` is `FooTag` |
| DocExample.FooTagged | macro/src/lib.rs:36-41 | each of Foo's variants, whatever its payload, is tagged with its own case |
| DocExample.FooDocumentedCalls | macro/src/lib.rs:38-41 | the documented calls `Foo::C(1).tag() == FooTag::C` and so on through F |
| DocExample.FooDiscriminants | macro/src/lib.rs:43 | `FooTag::B` carries the declared 42, which fits in a `u8`, so `FooTag::B as u8 == 42`; `FooTag::A` has no explicit value |
| DocExample.FooStructRejected | macro/src/derive.rs:26-29 | the same declaration written as a struct yields the struct compile error |

## Left out

- Token emission: `quote!`, `proc_macro2` token streams and `format_ident!`. The generated items are values, not tokens. `format_ident!` removing a raw identifier's `r#` prefix is not modelled; an identifier is its plain text.
- Parsing by `syn::parse_macro_input!` (macro/src/lib.rs:47). The model starts from an already-parsed `DeriveInput`.
- The body of `bail_spanned!` and the rendering done by `syn::Error::new_spanned` and `to_compile_error` (macro/src/error.rs:3-12). An error is only a span plus a message, and the span is the one `DeriveInput` carries for its whole text.
- What the eight derives on the tag enum do. They are host-compiler behaviour and appear only as a fixed list of paths.
- The `const _: () = { ... }` block that scopes the generated items (macro/src/derive.rs:39). It is a naming concern of the host compiler.
- `Generics::split_for_impl`. Generics and the where-clause are an opaque value passed through whole.
- The host compiler's implicit discriminant numbering. An explicit discriminant expression is represented by its value, since it is copied verbatim.
- The compiler's rejection of duplicate variant names. It appears only as the `DistinctIdents` precondition of `Projection.ProjectionCorrect` and `Syntax.ExplicitDiscriminantOf`.
- The typing of discriminant expressions. The tag enum does not get the input's `#[repr]`, so the expression copied by macro/src/derive.rs:77 is typed at `isize` there. A suffixed literal such as `B = 42u8` under `#[repr(u8)]`, or a `u64` value above `isize::MAX`, may be accepted in the input and refused in the tag enum. A discriminant is modelled as an unbounded integer, so the model cannot show this. Casts such as `as u8`, which truncate, are not modelled either.
- Whether the host compiler accepts the generated code. For an enum with no variants, macro/src/derive.rs:58-62 emits `match self {}` where `self` has type `&Self`. The compiler's exhaustiveness check treats references as inhabited, so it refuses that match. `Derive.EnumAccepted` states only what is emitted, and `Projection.TagTotal` holds there only because no value exists. (This is a reading of the code, not executed.)
