/** The code generated for a schema union
    (`huus_macros_support/templates/union_formulation.rs`): a Rust enum with
    one variant per choice, each holding the data struct the choice names. Its
    document is that struct's document tagged with the choice's database name
    under `_huus_variant`.

    How the data struct of each choice is written and read is the `Inner`
    parameter; `StructInner` instantiates it with the generated struct code. */
module UnionFormulation {
  import opened Wrappers
  import opened Seqs
  import opened Bson
  import opened Errors
  import opened Schema
  import StructFormulation

  /** The key the choice is recorded under. */
  const VariantTag: string := "_huus_variant"

  /** A value of the generated union: the position of its choice and the data
      it holds. */
  datatype UnionValue<D> = UnionValue(choice: nat, data: D)

  /** `into_doc` and `from_doc` of the data struct named by a choice. */
  datatype Inner<!D> = Inner(intoDoc: (DefinedType, D) -> Doc, fromDoc: (DefinedType, Doc) -> Result<D, ConversionError>)

  /** The database names of the choices, in order. */
  function ChoiceNames(u: Union): (r: seq<string>)
    ensures |r| == |u.choices|
    ensures forall i :: 0 <= i < |u.choices| ==> r[i] == u.choices[i].dbName
  {
    seq(|u.choices|, i requires 0 <= i < |u.choices| => u.choices[i].dbName)
  }

  /** The BSON the choice is recorded as. */
  function Tag(u: Union, c: nat): Bson
    requires c < |u.choices|
  {
    Bson.String(u.choices[c].dbName)
  }

  /** `IntoDoc::into_doc`: the held struct's document with the tag inserted;
      every other key keeps its value. */
  function IntoDoc<D>(u: Union, inner: Inner<D>, v: UnionValue<D>): (d: Doc)
    requires v.choice < |u.choices|
    ensures Get(d, VariantTag) == Some(Tag(u, v.choice))
    ensures forall k :: k != VariantTag ==> Get(d, k) == Get(inner.intoDoc(u.choices[v.choice].variant, v.data), k)
  {
    Insert(inner.intoDoc(u.choices[v.choice].variant, v.data), VariantTag, Tag(u, v.choice))
  }

  /** `FromDoc::from_doc`: a tag that is not a string, or none, is a missing
      key; a tag naming no choice is an unexpected value; otherwise the first
      choice with that name reads the whole document, tag included. */
  function FromDoc<D(==)>(u: Union, inner: Inner<D>, d: Doc): (r: Result<UnionValue<D>, ConversionError>)
    ensures GetStr(d, VariantTag).Err? ==> r == Err(MissingKey(VariantTag))
    ensures GetStr(d, VariantTag).Ok? && GetStr(d, VariantTag).value !in ChoiceNames(u) ==>
              r == Err(UnexpectedValue(GetStr(d, VariantTag).value))
    ensures r.Ok? ==> r.value.choice < |u.choices| && Get(d, VariantTag) == Some(Tag(u, r.value.choice))
    ensures r.Ok? ==> forall j :: 0 <= j < r.value.choice ==> Tag(u, j) != Tag(u, r.value.choice)
    ensures r.Ok? ==> inner.fromDoc(u.choices[r.value.choice].variant, d) == Ok(r.value.data)
  {
    match GetStr(d, VariantTag)
    case Err(_) => Err(MissingKey(VariantTag))
    case Ok(name) =>
      var j := FirstIndex(ChoiceNames(u), name);
      if j < |u.choices| then
        var x :- inner.fromDoc(u.choices[j].variant, d);
        Ok(UnionValue(j, x))
      else
        Err(UnexpectedValue(name))
  }

  /** `from_doc(into_doc(u)) == u` when the choices' database names are
      distinct, the held struct reads back from its own document and ignores
      the tag. */
  lemma RoundTrip<D>(u: Union, inner: Inner<D>, v: UnionValue<D>)
    requires Distinct(ChoiceNames(u))
    requires v.choice < |u.choices|
    requires var t := u.choices[v.choice].variant;
             inner.fromDoc(t, IntoDoc(u, inner, v)) == inner.fromDoc(t, inner.intoDoc(t, v.data))
    requires var t := u.choices[v.choice].variant;
             inner.fromDoc(t, inner.intoDoc(t, v.data)) == Ok(v.data)
    ensures FromDoc(u, inner, IntoDoc(u, inner, v)) == Ok(v)
  {
    FirstIndexDistinct(ChoiceNames(u), v.choice);
  }

  /** The generated struct code as the union's inner code; `structOf` gives
      the struct a choice names, whose data is always well formed. */
  function StructInner<D(==)>(structOf: DefinedType -> Struct, c: StructFormulation.Codec<D>): Inner<seq<Option<D>>> {
    Inner(
      (t: DefinedType, x: seq<Option<D>>) =>
        if StructFormulation.WellFormed(structOf(t).members, x) then StructFormulation.IntoDoc(c, structOf(t), x) else EmptyDoc,
      (t: DefinedType, d: Doc) => StructFormulation.FromDoc(c, structOf(t), d))
  }

  /** A union of generated structs round-trips when, besides the struct's own
      round-trip conditions, none of its members is stored under the tag's
      name. A database name `_huus_variant` passes the member checks, so this
      is a real condition. */
  lemma StructUnionRoundTrip<D>(u: Union, structOf: DefinedType -> Struct, c: StructFormulation.Codec<D>,
                                v: UnionValue<seq<Option<D>>>)
    requires Distinct(ChoiceNames(u))
    requires v.choice < |u.choices|
    requires var st := structOf(u.choices[v.choice].variant);
             StructFormulation.WellFormed(st.members, v.data)
             && Distinct(StructFormulation.DbNames(st.members))
             && StructFormulation.CodecRoundTrips(c, st.members, v.data)
             && VariantTag !in StructFormulation.DbNames(st.members)
    ensures FromDoc(u, StructInner(structOf, c), IntoDoc(u, StructInner(structOf, c), v)) == Ok(v)
  {
    var t := u.choices[v.choice].variant;
    var st := structOf(t);
    var inner := StructInner(structOf, c);
    StructFormulation.RoundTrip(c, st, v.data);
    StructFormulation.FromDocIgnoresOtherKeys(c, st, inner.intoDoc(t, v.data), VariantTag, Tag(u, v.choice));
    RoundTrip(u, inner, v);
  }

  // ----------------------------------------------------------------------------------------------
  // The `union` member of the query tests

  /** `Doc1` of the test schema: `integer as "int": i32?`, `string as "str":
      String+`, `array: Vec String?`. */
  function Doc1(): Struct {
    Struct(DefinedType("Doc1"), None,
      [Member("integer", "int", Field(BuiltInType.I32), Plain, true, false),
       Member("string", "str", Field(BuiltInType.String), Plain, false, true),
       Member("array", "array", Field(BuiltInType.String), Container.Array, true, false)],
      [])
  }

  /** `Union1` of the test schema: `Choice1 as "choice_1": Doc1`,
      `Choice2 as "choice_2": Doc2`. */
  function Union1(): Union {
    Union(DefinedType("Union1"), [UnionChoice("Choice1", "choice_1", DefinedType("Doc1")),
                                  UnionChoice("Choice2", "choice_2", DefinedType("Doc2"))])
  }

  /** The test schema's structs as `StructInner` looks them up: every choice
      of the example holds `Doc1`. */
  function Doc1Of(): DefinedType -> Struct {
    (t: DefinedType) => Doc1()
  }

  /** Members whose Rust value is its BSON. */
  function BsonCodec(): StructFormulation.Codec<Bson> {
    StructFormulation.Codec((m: Member, b: Bson) => b, (m: Member, b: Bson) => Ok(b), (m: Member) => Bson.Array([]))
  }

  /** The fields of `Doc1Data { integer: Some(6), string: "pqr", array: None }`. */
  function Doc1Example(): seq<Option<Bson>> {
    [Some(Bson.I32(6)), Some(Bson.String("pqr")), None]
  }

  /** The example struct is written as `{"int": 6, "str": "pqr"}`: the unset
      optional array is left out. */
  lemma Doc1Written()
    ensures StructFormulation.WellFormed(Doc1().members, Doc1Example())
    ensures StructFormulation.IntoDoc(BsonCodec(), Doc1(), Doc1Example())
            == Doc([Entry("int", Bson.I32(6)), Entry("str", Bson.String("pqr"))])
  {
    var es := [Entry("int", Bson.I32(6)), Entry("str", Bson.String("pqr"))];
    Doc1Entries();
    assert KeysOf(es) == ["int", "str"];
    assert EmptyDoc.entries + es == es;
    InsertAllFresh(EmptyDoc, es);
  }

  /** The entries of the example struct: the set members, in order. */
  lemma Doc1Entries()
    ensures StructFormulation.WellFormed(Doc1().members, Doc1Example())
    ensures StructFormulation.IntoEntries(BsonCodec(), Doc1().members, Doc1Example())
            == [Entry("int", Bson.I32(6)), Entry("str", Bson.String("pqr"))]
  {
    var data := Doc1Example();
    var ms := Doc1().members;
    assert StructFormulation.WellFormed(ms, data);
    assert StructFormulation.IntoEntries(BsonCodec(), ms[2..], data[2..]) == [];
    assert StructFormulation.IntoEntries(BsonCodec(), ms[1..], data[1..]) == [Entry("str", Bson.String("pqr"))];
  }

  /** The example meets the conditions of the round trip. */
  lemma Doc1Conditions()
    ensures Distinct(ChoiceNames(Union1()))
    ensures Distinct(StructFormulation.DbNames(Doc1().members))
    ensures VariantTag !in StructFormulation.DbNames(Doc1().members)
    ensures StructFormulation.CodecRoundTrips(BsonCodec(), Doc1().members, Doc1Example())
  {
    var names := StructFormulation.DbNames(Doc1().members);
    assert names == ["int", "str", "array"];
    assert names[1..] == ["str", "array"] && names[2..] == ["array"];
    var choices := ChoiceNames(Union1());
    assert choices == ["choice_1", "choice_2"];
    assert choices[1..] == ["choice_2"];
  }

  /** `Union1Data::Choice1(Doc1Data { integer: Some(6), string: "pqr", array:
      None })` is written as the document `{"int": 6, "str": "pqr",
      "_huus_variant": "choice_1"}`. */
  lemma TaggedWritten()
    ensures var inner := StructInner(Doc1Of(), BsonCodec());
            IntoDoc(Union1(), inner, UnionValue(0, Doc1Example()))
              == Doc([Entry("int", Bson.I32(6)), Entry("str", Bson.String("pqr")), Entry(VariantTag, Bson.String("choice_1"))])
  {
    var inner := StructInner(Doc1Of(), BsonCodec());
    var es := [Entry("int", Bson.I32(6)), Entry("str", Bson.String("pqr"))];
    var tag := Entry(VariantTag, Bson.String("choice_1"));
    Doc1Inner();
    assert IntoDoc(Union1(), inner, UnionValue(0, Doc1Example())) == Insert(Doc(es), tag.key, tag.value);
    TagFresh();
    AppendFresh(es, tag);
  }

  /** The held struct's document, as `StructInner` writes it. */
  lemma Doc1Inner()
    ensures StructInner(Doc1Of(), BsonCodec()).intoDoc(DefinedType("Doc1"), Doc1Example())
            == Doc([Entry("int", Bson.I32(6)), Entry("str", Bson.String("pqr"))])
  {
    Doc1Written();
  }

  /** The example's keys leave the tag's name free. */
  lemma TagFresh()
    ensures FreshKey([Entry("int", Bson.I32(6)), Entry("str", Bson.String("pqr"))], VariantTag)
  {
  }

  /** The tagged document of the example reads back as the same value. */
  lemma TaggedExample()
    ensures var inner := StructInner(Doc1Of(), BsonCodec());
            var v := UnionValue(0, Doc1Example());
            IntoDoc(Union1(), inner, v)
              == Doc([Entry("int", Bson.I32(6)), Entry("str", Bson.String("pqr")), Entry(VariantTag, Bson.String("choice_1"))])
            && FromDoc(Union1(), inner, IntoDoc(Union1(), inner, v)) == Ok(v)
  {
    TaggedWritten();
    Doc1Conditions();
    StructUnionRoundTrip(Union1(), Doc1Of(), BsonCodec(), UnionValue(0, Doc1Example()));
  }
}
