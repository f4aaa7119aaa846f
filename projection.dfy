/** What the generated `tag` method does. A value of the input `enum` is a
    variant name with a payload of that variant's shape; `tag` runs the
    arms of its `match self` in order and answers with the tag case of the
    first arm whose pattern names the value's variant. `V` is the type of
    the payload's field values, which no pattern inspects. */
module Projection {
  import opened Syntax
  import opened Derive

  datatype Payload<V> = NoFields | Positional(values: seq<V>) | Keyed(entries: map<Ident, V>)

  /** A value `Enum::variant(payload)`. */
  datatype Instance<V> = Instance(variant: Ident, payload: Payload<V>)

  /** The payload has the shape that the variant's fields declare. */
  predicate Fits<V>(f: Fields, p: Payload<V>)
  {
    match f
    case Unit => p.NoFields?
    case Unnamed(n) => p.Positional? && |p.values| == n
    case Named(names) => p.Keyed? && p.entries.Keys == set k | 0 <= k < |names| :: names[k]
  }

  /** `x` is a value built with the `i`-th variant of `vs`. */
  predicate OfVariant<V>(vs: seq<Variant>, i: int, x: Instance<V>)
  {
    0 <= i < |vs| && x.variant == vs[i].ident && Fits(vs[i].fields, x.payload)
  }

  /** `x` is a value of the enum whose variants are `vs`. */
  predicate Inhabits<V>(vs: seq<Variant>, x: Instance<V>)
  {
    exists i :: 0 <= i < |vs| && OfVariant(vs, i, x)
  }

  /** The pattern `Self::arm.variant { .. }`: it looks at the variant only. */
  predicate Matches<V>(arm: Arm, x: Instance<V>)
  {
    arm.variant == x.variant
  }

  /** A `match` over `arms`: the tag case of the first arm whose pattern
      matches, or `None` when no arm matches. */
  function Dispatch<V>(arms: seq<Arm>, x: Instance<V>): (r: Option<Ident>)
    ensures r.None? <==> forall k :: 0 <= k < |arms| ==> !Matches(arms[k], x)
    ensures r.Some? ==> exists k :: 0 <= k < |arms| && Matches(arms[k], x) && r.value == arms[k].tagCase
                                  && forall j :: 0 <= j < k ==> !Matches(arms[j], x)
  {
    if arms == [] then None
    else if Matches(arms[0], x) then Some(arms[0].tagCase)
    else
      var r := Dispatch(arms[1..], x);
      assert r.None? <==> forall k :: 0 <= k < |arms| ==> !Matches(arms[k], x) by {
        if r.None? {
          forall k | 0 <= k < |arms| ensures !Matches(arms[k], x) {
            if k > 0 { assert arms[k] == arms[1..][k - 1]; }
          }
        } else {
          var k :| 0 <= k < |arms[1..]| && Matches(arms[1..][k], x);
          assert arms[k + 1] == arms[1..][k];
        }
      }
      assert r.Some? ==> exists k :: 0 <= k < |arms| && Matches(arms[k], x) && r.value == arms[k].tagCase
                                   && forall j :: 0 <= j < k ==> !Matches(arms[j], x) by {
        if r.Some? {
          var k :| 0 <= k < |arms[1..]| && Matches(arms[1..][k], x) && r.value == arms[1..][k].tagCase
                   && forall j :: 0 <= j < k ==> !Matches(arms[1..][j], x);
          assert arms[k + 1] == arms[1..][k];
          forall j | 0 <= j < k + 1 ensures !Matches(arms[j], x) {
            if j > 0 { assert arms[j] == arms[1..][j - 1]; }
          }
        }
      }
      r
  }

  /** `<E as EnumTag>::tag(&x)` for the implementation `impl`: the tag case
      of the first arm naming `x`'s variant, and none when no arm names it. */
  function Tag<V>(impl: ImplBlock, x: Instance<V>): (r: Option<Ident>)
    ensures r.None? <==> forall k :: 0 <= k < |impl.arms| ==> impl.arms[k].variant != x.variant
    ensures r.Some? ==> exists k :: 0 <= k < |impl.arms| && impl.arms[k].variant == x.variant
                                  && r.value == impl.arms[k].tagCase
  {
    Dispatch(impl.arms, x)
  }

  /** Dispatch reads the variant name and nothing of the payload. */
  lemma {:induction false} DispatchIgnoresPayload<V>(arms: seq<Arm>, x: Instance<V>, y: Instance<V>)
    requires x.variant == y.variant
    ensures Dispatch(arms, x) == Dispatch(arms, y)
  {
    if arms != [] {
      DispatchIgnoresPayload(arms[1..], x, y);
    }
  }

  /** Applying the generated arms to a value whose variant is named
      `x.variant` gives the tag case of that name; a value of no listed
      variant matches no arm, since there is no wildcard arm. */
  lemma {:induction false} ArmsNameVariant<V>(vs: seq<Variant>, x: Instance<V>)
    ensures Dispatch(MatchArms(vs), x) == (if x.variant in Idents(vs) then Some(x.variant) else None)
  {
    if vs != [] {
      var arms := MatchArms(vs);
      assert arms[0] == Arm(vs[0].ident, vs[0].ident) && arms[1..] == MatchArms(vs[1..]);
      assert Idents(vs) == [vs[0].ident] + Idents(vs[1..]);
      ArmsNameVariant(vs[1..], x);
    }
  }

  /** The value `Tag::case` of the tag enum: a case without payload. */
  function TagValue<V>(tagCase: Ident): (t: Instance<V>)
  {
    Instance(tagCase, NoFields)
  }

  /** Exhaustiveness: `tag` is defined on every value of the input enum,
      names that value's variant, and returns a value of the tag enum. It
      is undefined exactly on values of variants the input does not have. */
  lemma TagTotal<V>(input: DeriveInput, x: Instance<V>)
    requires input.data.Enum?
    ensures var o := EnumTagImpl(input).value;
      && (Tag(o.impl, x).Some? <==> x.variant in Idents(input.data.variants))
      && (Inhabits(input.data.variants, x) ==>
            && Tag(o.impl, x) == Some(x.variant)
            && Inhabits(o.tagEnum.variants, TagValue<V>(x.variant)))
  {
    var vs := input.data.variants;
    ArmsNameVariant(vs, x);
    StructuralCopy(input);
    if Inhabits(vs, x) {
      var i :| 0 <= i < |vs| && OfVariant(vs, i, x);
      assert Idents(vs)[i] == x.variant;
      assert OfVariant(EnumTagImpl(input).value.tagEnum.variants, i, TagValue<V>(x.variant));
    }
  }

  /** Projection correctness: `tag` of any value of the `i`-th variant, of
      whatever shape and payload, is the `i`-th tag case and no other. */
  lemma ProjectionCorrect<V>(input: DeriveInput, i: int, x: Instance<V>)
    requires input.data.Enum? && DistinctIdents(input.data.variants)
    requires OfVariant(input.data.variants, i, x)
    ensures var o := EnumTagImpl(input).value;
      var tvs := o.tagEnum.variants;
      && Tag(o.impl, x) == Some(tvs[i].ident)
      && OfVariant(tvs, i, TagValue<V>(tvs[i].ident))
      && forall j :: 0 <= j < |tvs| && j != i ==> !OfVariant(tvs, j, TagValue<V>(Tag(o.impl, x).value))
  {
    var vs := input.data.variants;
    ArmsNameVariant(vs, x);
    StructuralCopy(input);
    assert Idents(vs)[i] == x.variant;
  }

  /** Payload independence: two values of the same variant have the same tag. */
  lemma TagIgnoresPayload<V>(impl: ImplBlock, x: Instance<V>, y: Instance<V>)
    requires x.variant == y.variant
    ensures Tag(impl, x) == Tag(impl, y)
  {
    DispatchIgnoresPayload(impl.arms, x, y);
  }
}
