/** The documented use of the derive: `enum Foo { A, B = 42, C(i32),
    D(i32, i64), E { a: i32 }, F { a: i32, b: i64 } }` under `#[repr(u8)]`. */
module DocExample {
  import opened Syntax
  import opened Derive
  import opened Projection

  function Foo(): (d: DeriveInput)
    ensures d.data.Enum? && |d.data.variants| == 6
  {
    DeriveInput(
      [Attribute("repr", ["u8"])],
      Inherited,
      "Foo",
      NoGenerics,
      Enum([
        Variant([], "A", Unit, None),
        Variant([], "B", Unit, Some(42)),
        Variant([], "C", Unnamed(1), None),
        Variant([], "D", Unnamed(2), None),
        Variant([], "E", Named(["a"]), None),
        Variant([], "F", Named(["a", "b"]), None)
      ]),
      Span(0, 120))
  }

  /** The names of Foo's variants, in order. */
  lemma FooIdents()
    ensures Idents(Foo().data.variants) == ["A", "B", "C", "D", "E", "F"]
  {
  }

  /** `type FooTag = <Foo as EnumTag>::Tag`. */
  lemma FooTagName()
    ensures EnumTagImpl(Foo()).Ok?
    ensures EnumTagImpl(Foo()).value.impl.tag == "FooTag"
    ensures EnumTagImpl(Foo()).value.tagEnum.ident == "FooTag"
  {
  }

  /** `Foo::V(..).tag() == FooTag::V` for each documented variant, whatever
      the payload. */
  lemma FooTagged(name: Ident, p: Payload<int>)
    requires name in ["A", "B", "C", "D", "E", "F"]
    ensures Tag(EnumTagImpl(Foo()).value.impl, Instance(name, p)) == Some(name)
  {
    FooIdents();
    ArmsNameVariant(Foo().data.variants, Instance(name, p));
  }

  /** `FooTag::B` carries the declared 42, which fits in a `u8`, so
      `FooTag::B as u8 == 42`; `FooTag::A` has no explicit value. */
  lemma FooDiscriminants()
    ensures ExplicitDiscriminant(EnumTagImpl(Foo()).value.tagEnum.variants, "B") == Some(42)
    ensures ExplicitDiscriminant(EnumTagImpl(Foo()).value.tagEnum.variants, "A") == None
  {
    DiscriminantFidelity(Foo(), "B");
    DiscriminantFidelity(Foo(), "A");
    var vs := Foo().data.variants;
    assert vs[0].ident == "A" && vs[1].ident == "B";
    assert ExplicitDiscriminant(vs[1..], "B") == Some(42);
  }

  /** The documented calls, with their payloads. */
  lemma FooDocumentedCalls()
    ensures var impl := EnumTagImpl(Foo()).value.impl;
      && Tag(impl, Instance("C", Payload<int>.Positional([1]))) == Some("C")
      && Tag(impl, Instance("D", Payload<int>.Positional([2, 3]))) == Some("D")
      && Tag(impl, Instance("E", Payload<int>.Keyed(map["a" := 4]))) == Some("E")
      && Tag(impl, Instance("F", Payload<int>.Keyed(map["a" := 5, "b" := 6]))) == Some("F")
  {
    FooTagged("C", Payload<int>.Positional([1]));
    FooTagged("D", Payload<int>.Positional([2, 3]));
    FooTagged("E", Payload<int>.Keyed(map["a" := 4]));
    FooTagged("F", Payload<int>.Keyed(map["a" := 5, "b" := 6]));
  }

  /** The same declaration written as a `struct` is refused and nothing is
      generated. */
  lemma FooStructRejected(fields: Fields)
    ensures EnumTag(Foo().(data := Struct(fields)))
         == CompileError(Error(Span(0, 120), "derive(EnumTag) only works on `enum` types but found struct"))
  {
  }
}
