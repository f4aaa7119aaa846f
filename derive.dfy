/** `#[derive(EnumTag)]`: from an `enum` declaration, build a payload-free
    "tag" enum and an implementation of the `EnumTag` trait whose `tag`
    method projects every value of the input onto its tag case. */
module Derive {
  import opened Syntax

  /** A diagnostic spanned on a piece of syntax (`syn::Error`). */
  datatype Error = Error(span: Span, message: string)

  datatype Result<+T> = Ok(value: T) | Err(error: Error)

  const StructMessage: string := "derive(EnumTag) only works on `enum` types but found struct"
  const UnionMessage: string := "derive(EnumTag) only works on `enum` types but found union"

  /** The paths listed in the `#[derive(...)]` placed on the tag enum. */
  const TagDerives: seq<string> := [
    "::core::fmt::Debug",
    "::core::clone::Clone",
    "::core::marker::Copy",
    "::core::cmp::PartialEq",
    "::core::cmp::Eq",
    "::core::cmp::PartialOrd",
    "::core::cmp::Ord",
    "::core::hash::Hash"
  ]

  /** The one attribute the tag enum carries. */
  const TagAttrs: seq<Attribute> := [Attribute("derive", TagDerives)]

  /** One arm `Self::variant { .. } => <Self as EnumTag>::Tag::tagCase` of
      the generated `match self`. The pattern names a variant and ignores
      its payload, whatever its shape. */
  datatype Arm = Arm(variant: Ident, tagCase: Ident)

  /** `impl<generics> EnumTag for selfTy<generics> where ... { type Tag = tag;
      fn tag(&self) -> Self::Tag { match self { arms } } }`: the trait of
      `src/lib.rs` is an associated type and a method, so an implementation
      of it is the type it names and the arms of the method's body. */
  datatype ImplBlock = ImplBlock(generics: Generics, selfTy: Ident, tag: Ident, arms: seq<Arm>)

  /** Everything the derive emits for an `enum`. */
  datatype Output = Output(tagEnum: ItemEnum, impl: ImplBlock)

  /** What the derive hands back to the compiler: the generated items, or a
      `compile_error!` carrying the diagnostic. */
  datatype Expansion = Generated(output: Output) | CompileError(error: Error)

  /** `make_unit`: the variant with its payload removed and nothing else changed. */
  function MakeUnit(v: Variant): (r: Variant)
    ensures r.fields == Unit
  {
    Variant(v.attrs, v.ident, Unit, v.discriminant)
  }

  /** `variants.iter().map(make_unit)` */
  function UnitVariants(vs: seq<Variant>): (r: seq<Variant>)
    ensures |r| == |vs|
  {
    if vs == [] then [] else [MakeUnit(vs[0])] + UnitVariants(vs[1..])
  }

  /** The arms of `tag`, one per variant: `Self::V { .. } => Tag::V`. */
  function MatchArms(vs: seq<Variant>): (r: seq<Arm>)
    ensures |r| == |vs|
  {
    if vs == [] then [] else [Arm(vs[0].ident, vs[0].ident)] + MatchArms(vs[1..])
  }

  /** The name of the tag enum: the input's name followed by `Tag`. */
  function TagIdent(ident: Ident): (r: Ident)
    ensures |r| == |ident| + 3 && r[..|ident|] == ident && r[|ident|..] == "Tag"
  {
    ident + "Tag"
  }

  /** `enum_tag_impl`: reject anything but an `enum`, spanned on the whole
      input; otherwise build the tag enum and the trait implementation. */
  function EnumTagImpl(input: DeriveInput): (r: Result<Output>)
    ensures r.Ok? <==> input.data.Enum?
    ensures r.Err? ==> r.error.span == input.span
  {
    match input.data
    case Struct(_) => Err(Error(input.span, StructMessage))
    case Union(_) => Err(Error(input.span, UnionMessage))
    case Enum(variants) =>
      var tagIdent := TagIdent(input.ident);
      Ok(Output(
        ItemEnum(TagAttrs, Public, tagIdent, NoGenerics, UnitVariants(variants)),
        ImplBlock(input.generics, input.ident, tagIdent, MatchArms(variants))))
  }

  /** `enum_tag`: pass the generated items through, turn an error into a
      compile error. */
  function EnumTag(input: DeriveInput): (r: Expansion)
    ensures r.Generated? <==> input.data.Enum?
  {
    match EnumTagImpl(input)
    case Ok(output) => Generated(output)
    case Err(error) => CompileError(error)
  }

  /** Reads an expansion back as the result it was made from. */
  function AsResult(e: Expansion): (r: Result<Output>)
  {
    match e
    case Generated(output) => Ok(output)
    case CompileError(error) => Err(error)
  }

  /** The wrapper loses nothing: the expansion determines the result of
      `enum_tag_impl`, successful or not. */
  lemma WrapperFaithful(input: DeriveInput)
    ensures AsResult(EnumTag(input)) == EnumTagImpl(input)
    ensures EnumTagImpl(input).Err? ==> EnumTag(input) == CompileError(EnumTagImpl(input).error)
  {
  }

  /** A `struct` is refused with the struct message, spanned on the input,
      and nothing is generated. */
  lemma StructRejected(input: DeriveInput)
    requires input.data.Struct?
    ensures EnumTagImpl(input) == Err(Error(input.span, StructMessage))
    ensures EnumTag(input) == CompileError(Error(input.span, StructMessage))
  {
  }

  /** A `union` is refused with the union message, spanned on the input,
      and nothing is generated. */
  lemma UnionRejected(input: DeriveInput)
    requires input.data.Union?
    ensures EnumTagImpl(input) == Err(Error(input.span, UnionMessage))
    ensures EnumTag(input) == CompileError(Error(input.span, UnionMessage))
  {
  }

  /** Every `enum` is accepted. The tag enum is `pub`, named input + `Tag`,
      not generic, and carries only the fixed derive list; the impl is for
      the input type, over exactly its generics and where-clause, and names
      the tag enum as its `Tag`. */
  lemma EnumAccepted(input: DeriveInput)
    requires input.data.Enum?
    ensures EnumTagImpl(input).Ok?
    ensures var o := EnumTagImpl(input).value;
      && o.tagEnum.ident == input.ident + "Tag"
      && o.tagEnum.vis == Public
      && o.tagEnum.generics == NoGenerics
      && o.tagEnum.attrs == [Attribute("derive", TagDerives)]
      && o.impl.generics == input.generics
      && o.impl.selfTy == input.ident
      && o.impl.tag == o.tagEnum.ident
  {
  }

  /** `make_unit` keeps attributes, name and discriminant, drops the payload. */
  lemma MakeUnitKeeps(v: Variant)
    ensures MakeUnit(v).attrs == v.attrs
    ensures MakeUnit(v).ident == v.ident
    ensures MakeUnit(v).discriminant == v.discriminant
    ensures MakeUnit(v) == v <==> v.fields == Unit
  {
  }

  /** `make_unit` is idempotent and does not look at the payload. */
  lemma MakeUnitIdempotent(v: Variant, f: Fields)
    ensures MakeUnit(MakeUnit(v)) == MakeUnit(v)
    ensures MakeUnit(v.(fields := f)) == MakeUnit(v)
  {
  }

  lemma {:induction false} UnitVariantsAt(vs: seq<Variant>, i: nat)
    requires i < |vs|
    ensures UnitVariants(vs)[i] == MakeUnit(vs[i])
    decreases i
  {
    if i > 0 {
      UnitVariantsAt(vs[1..], i - 1);
    }
  }

  lemma {:induction false} MatchArmsAt(vs: seq<Variant>, i: nat)
    requires i < |vs|
    ensures MatchArms(vs)[i] == Arm(vs[i].ident, vs[i].ident)
    decreases i
  {
    if i > 0 {
      MatchArmsAt(vs[1..], i - 1);
    }
  }

  /** The tag enum is a structural copy of the input: as many variants, in
      the same order, each with the same attributes, name and discriminant
      and no payload. */
  lemma StructuralCopy(input: DeriveInput)
    requires input.data.Enum?
    ensures var tvs := EnumTagImpl(input).value.tagEnum.variants;
      && |tvs| == |input.data.variants|
      && Idents(tvs) == Idents(input.data.variants)
      && forall i :: 0 <= i < |tvs| ==>
           && tvs[i].attrs == input.data.variants[i].attrs
           && tvs[i].ident == input.data.variants[i].ident
           && tvs[i].discriminant == input.data.variants[i].discriminant
           && tvs[i].fields == Unit
  {
    var vs := input.data.variants;
    forall i | 0 <= i < |vs| ensures UnitVariants(vs)[i] == MakeUnit(vs[i]) {
      UnitVariantsAt(vs, i);
    }
  }

  /** One arm per variant, in declaration order, each mapping variant `V` to
      tag case `V`. */
  lemma ArmsFollowVariants(input: DeriveInput)
    requires input.data.Enum?
    ensures var arms := EnumTagImpl(input).value.impl.arms;
      && |arms| == |input.data.variants|
      && forall i :: 0 <= i < |arms| ==>
           arms[i] == Arm(input.data.variants[i].ident, input.data.variants[i].ident)
  {
    var vs := input.data.variants;
    forall i | 0 <= i < |vs| ensures MatchArms(vs)[i] == Arm(vs[i].ident, vs[i].ident) {
      MatchArmsAt(vs, i);
    }
  }

  /** Removing payloads a second time changes nothing. */
  lemma {:induction false} UnitVariantsIdempotent(vs: seq<Variant>)
    ensures UnitVariants(UnitVariants(vs)) == UnitVariants(vs)
  {
    if vs != [] {
      var us := UnitVariants(vs);
      assert us[1..] == UnitVariants(vs[1..]);
      UnitVariantsIdempotent(vs[1..]);
    }
  }

  /** Deriving `EnumTag` on a generated tag enum yields the same variants again. */
  lemma TagOfTagEnum(input: DeriveInput, span: Span)
    requires input.data.Enum?
    ensures var t := EnumTagImpl(input).value.tagEnum;
      var again := DeriveInput(t.attrs, t.vis, t.ident, t.generics, Enum(t.variants), span);
      EnumTagImpl(again).Ok? && EnumTagImpl(again).value.tagEnum.variants == t.variants
  {
    UnitVariantsIdempotent(input.data.variants);
  }

  /** `vs` and `ws` list the same variants up to their payloads. */
  predicate SameUpToFields(vs: seq<Variant>, ws: seq<Variant>)
  {
    |vs| == |ws| && forall i :: 0 <= i < |vs| ==> MakeUnit(vs[i]) == MakeUnit(ws[i])
  }

  lemma {:induction false} UnitVariantsIgnoreFields(vs: seq<Variant>, ws: seq<Variant>)
    requires SameUpToFields(vs, ws)
    ensures UnitVariants(vs) == UnitVariants(ws)
    ensures MatchArms(vs) == MatchArms(ws)
  {
    if vs != [] {
      assert MakeUnit(vs[0]) == MakeUnit(ws[0]);
      assert SameUpToFields(vs[1..], ws[1..]) by {
        forall i | 0 <= i < |vs| - 1 ensures MakeUnit(vs[1..][i]) == MakeUnit(ws[1..][i]) {
          assert vs[1..][i] == vs[i + 1] && ws[1..][i] == ws[i + 1];
        }
      }
      UnitVariantsIgnoreFields(vs[1..], ws[1..]);
    }
  }

  /** Field-shape independence: two enums with the same name, generics and
      variants up to payloads produce the same output, whatever their
      payloads, attributes, visibility and position. */
  lemma OutputIgnoresPayloads(a: DeriveInput, b: DeriveInput)
    requires a.data.Enum? && b.data.Enum?
    requires a.ident == b.ident && a.generics == b.generics
    requires SameUpToFields(a.data.variants, b.data.variants)
    ensures EnumTagImpl(a) == EnumTagImpl(b)
  {
    UnitVariantsIgnoreFields(a.data.variants, b.data.variants);
  }

  lemma {:induction false} UnitVariantsKeepDiscriminants(vs: seq<Variant>, name: Ident)
    ensures ExplicitDiscriminant(UnitVariants(vs), name) == ExplicitDiscriminant(vs, name)
  {
    if vs != [] {
      var us := UnitVariants(vs);
      assert us[0] == MakeUnit(vs[0]) && us[1..] == UnitVariants(vs[1..]);
      UnitVariantsKeepDiscriminants(vs[1..], name);
    }
  }

  /** Discriminant fidelity: `Tag::V` has an explicit value exactly when the
      input's `V` has one, and it is the same value (`B = 42` gives
      `FooTag::B as u8 == 42`). */
  lemma DiscriminantFidelity(input: DeriveInput, name: Ident)
    requires input.data.Enum?
    ensures ExplicitDiscriminant(EnumTagImpl(input).value.tagEnum.variants, name)
         == ExplicitDiscriminant(input.data.variants, name)
  {
    UnitVariantsKeepDiscriminants(input.data.variants, name);
  }
}
