/** The part of a Rust declaration tree that `derive(EnumTag)` reads and
    builds: the fields of `syn::DeriveInput`, `syn::Data`, `syn::Variant`
    and `syn::Fields` that the derive looks at, with everything else kept
    as opaque values that are only copied. */
module Syntax {

  datatype Option<+T> = None | Some(value: T)

  /** An identifier, such as `Foo` or `B`. */
  type Ident = string

  /** The source position of a piece of syntax; an error raised "spanned on"
      a node points at this range. */
  datatype Span = Span(lo: nat, hi: nat)

  /** An outer attribute `#[path(args...)]`; its tokens are only copied. */
  datatype Attribute = Attribute(path: string, args: seq<string>)

  datatype Visibility = Public | Restricted(path: string) | Inherited

  /** The generic parameters of a declaration together with its where-clause.
      The derive never looks inside them: it forwards them unchanged. */
  datatype Generics = Generics(params: seq<string>, whereClause: Option<seq<string>>)

  /** A declaration without generic parameters and without a where-clause. */
  const NoGenerics: Generics := Generics([], None)

  /** The shape of a variant's payload: `V`, `V(T1, ..., Tn)` or `V { a: T1, ... }`. */
  datatype Fields = Unit | Unnamed(arity: nat) | Named(names: seq<Ident>)

  /** One variant of an `enum`; `discriminant` is the value written after
      `=`, as in `B = 42`, when there is one. */
  datatype Variant = Variant(attrs: seq<Attribute>, ident: Ident, fields: Fields, discriminant: Option<int>)

  /** The body of the annotated item: the variants of an `enum`, the fields
      of a `struct`, or the fields of a `union`. */
  datatype Data = Enum(variants: seq<Variant>) | Struct(fields: Fields) | Union(fieldNames: seq<Ident>)

  /** The item a derive is attached to. `span` covers all of its tokens. */
  datatype DeriveInput = DeriveInput(
    attrs: seq<Attribute>,
    vis: Visibility,
    ident: Ident,
    generics: Generics,
    data: Data,
    span: Span)

  /** An `enum` item as emitted by the derive. */
  datatype ItemEnum = ItemEnum(
    attrs: seq<Attribute>,
    vis: Visibility,
    ident: Ident,
    generics: Generics,
    variants: seq<Variant>)

  /** The identifiers of `vs`, in declaration order. */
  function Idents(vs: seq<Variant>): (r: seq<Ident>)
    ensures |r| == |vs|
    ensures forall i :: 0 <= i < |vs| ==> r[i] == vs[i].ident
  {
    seq(|vs|, i requires 0 <= i < |vs| => vs[i].ident)
  }

  /** The host compiler rejects an `enum` whose variants share a name, so
      every `enum` the derive receives from a compiling crate satisfies this. */
  predicate DistinctIdents(vs: seq<Variant>)
  {
    forall i, j :: 0 <= i < j < |vs| ==> vs[i].ident != vs[j].ident
  }

  /** The value declared after `=` for the first variant of `vs` named
      `name`; `None` when there is no such variant or it has no `= value`. */
  function ExplicitDiscriminant(vs: seq<Variant>, name: Ident): (r: Option<int>)
    ensures r.Some? ==> exists i :: 0 <= i < |vs| && vs[i].ident == name && vs[i].discriminant == r
  {
    if vs == [] then None
    else if vs[0].ident == name then vs[0].discriminant
    else
      var r := ExplicitDiscriminant(vs[1..], name);
      assert r.Some? ==> exists i :: 1 <= i < |vs| && vs[i].ident == name && vs[i].discriminant == r by {
        if r.Some? {
          var k :| 0 <= k < |vs[1..]| && vs[1..][k].ident == name && vs[1..][k].discriminant == r;
          assert vs[k + 1] == vs[1..][k];
        }
      }
      r
  }

  /** The declared value of the first variant with a given name is found
      under that name. */
  lemma {:induction false} ExplicitDiscriminantOfFirst(vs: seq<Variant>, i: nat)
    requires i < |vs|
    requires forall j :: 0 <= j < i ==> vs[j].ident != vs[i].ident
    ensures ExplicitDiscriminant(vs, vs[i].ident) == vs[i].discriminant
    decreases i
  {
    if i > 0 {
      assert vs[0].ident != vs[i].ident;
      assert vs[1..][i - 1] == vs[i];
      forall j | 0 <= j < i - 1 ensures vs[1..][j].ident != vs[1..][i - 1].ident {
        assert vs[1..][j] == vs[j + 1];
      }
      ExplicitDiscriminantOfFirst(vs[1..], i - 1);
    }
  }

  /** With distinct names, every variant's declared value is found under its name. */
  lemma ExplicitDiscriminantOf(vs: seq<Variant>, i: nat)
    requires i < |vs| && DistinctIdents(vs)
    ensures ExplicitDiscriminant(vs, vs[i].ident) == vs[i].discriminant
  {
    ExplicitDiscriminantOfFirst(vs, i);
  }
}
