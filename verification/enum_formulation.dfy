/** The code generated for a schema enum
    (`huus_macros_support/templates/enum_formulation.rs`): a Rust enum with one
    variant per choice, written as its choice's database name and read back
    from it. A value of the generated enum is the position of its choice. */
module EnumFormulation {
  import opened Wrappers
  import opened Seqs
  import opened Bson
  import opened Errors
  import opened Schema
  import Conversions

  /** The values of the generated enum. */
  predicate IsChoice(e: Enum, c: nat) {
    c < |e.choices|
  }

  /** `HuusKey::to_str`: the database name of the choice. */
  function ToStr(e: Enum, c: nat): (s: string)
    requires IsChoice(e, c)
    ensures s == ToDbNames(e)[c]
  {
    e.choices[c].dbName
  }

  /** `HuusKey::from_str`: the string arms are tried in choice order, so the
      first choice with that database name is taken; any other string is
      refused with the string itself. */
  function FromStr(e: Enum, s: string): (r: Result<nat, ConversionError>)
    ensures r.Ok? <==> s in ToDbNames(e)
    ensures r.Ok? ==> IsChoice(e, r.value) && ToStr(e, r.value) == s
    ensures r.Ok? ==> forall j :: 0 <= j < r.value ==> ToStr(e, j) != s
    ensures r.Err? ==> r.error == IncorrectValue(s)
  {
    var i := FirstIndex(ToDbNames(e), s);
    if i < |e.choices| then Ok(i) else Err(IncorrectValue(s))
  }

  /** `huus_into_bson`: the BSON string of `to_str`. */
  function IntoBson(e: Enum, c: nat): (b: Bson)
    requires IsChoice(e, c)
    ensures b == Conversions.StringIntoBson(ToStr(e, c))
  {
    Bson.String(e.choices[c].dbName)
  }

  /** With distinct database names every choice reads back as itself. */
  lemma FromStrToStr(e: Enum, c: nat)
    requires Distinct(ToDbNames(e))
    requires IsChoice(e, c)
    ensures FromStr(e, ToStr(e, c)) == Ok(c)
  {
    FirstIndexDistinct(ToDbNames(e), c);
  }

  /** When two choices share a database name the later one reads back as the
      earlier, so distinctness is needed for the round trip. */
  lemma SharedNameReadsFirst(e: Enum, c: nat, d: nat)
    requires c < d < |e.choices|
    requires e.choices[c].dbName == e.choices[d].dbName
    requires forall j :: 0 <= j < c ==> e.choices[j].dbName != e.choices[c].dbName
    ensures FromStr(e, ToStr(e, d)) == Ok(c)
  {
    assert ToDbNames(e)[c] == ToStr(e, d);
  }

  /** The written BSON string reads back through the string conversion and
      `from_str`. */
  lemma BsonRoundTrip(e: Enum, c: nat)
    requires Distinct(ToDbNames(e))
    requires IsChoice(e, c)
    ensures Conversions.StringFromBson(IntoBson(e, c)) == Ok(ToStr(e, c))
    ensures FromStr(e, Conversions.StringFromBson(IntoBson(e, c)).value) == Ok(c)
  {
    Conversions.ScalarRoundTrips(ToStr(e, c), 0, 0);
    FromStrToStr(e, c);
  }

  /** The map key text of a choice; positions outside the enum never occur in
      the maps below. */
  function KeyText(e: Enum, c: nat): string {
    if IsChoice(e, c) then ToStr(e, c) else ""
  }

  /** A map keyed by the enum (a `BTreeMap` or `HashMap` member with an enum
      key) is read back from the document it is written to. */
  lemma EnumKeyedMapRoundTrip<V>(e: Enum, m: map<nat, V>, order: seq<nat>, into: V -> Bson,
                                 fromBson: Bson -> Result<V, ConversionError>)
    requires Distinct(ToDbNames(e))
    requires forall k :: k in m ==> IsChoice(e, k)
    requires Conversions.IsIterationOrder(m, order)
    requires forall k :: k in m ==> fromBson(into(m[k])) == Ok(m[k])
    ensures Conversions.MapFromDoc(Conversions.MapIntoBson(m, order, (k: nat) => KeyText(e, k), into).doc,
                                   (s: string) => FromStr(e, s), fromBson) == Ok(m)
  {
    var toStr := (k: nat) => KeyText(e, k);
    var fromStr := (s: string) => FromStr(e, s);
    forall k | k in m
      ensures fromStr(toStr(k)) == Ok(k)
    {
      FromStrToStr(e, k);
    }
    Conversions.MapRoundTrip(m, order, toStr, into, fromStr, fromBson);
  }
}
