/** Conversions between Rust data and BSON: the scalar `HuusIntoBson` and
    `HuusFromBson` implementations, vectors to and from BSON arrays, and maps to and
    from documents.

    A Rust trait implementation chosen by type becomes a function passed in: `into`
    for `HuusIntoBson`, `from` for `HuusFromBson`, `toStr`/`fromStr` for `HuusKey`,
    `fromDoc` for `FromDoc`. A Rust map (`BTreeMap` or `HashMap`, whose conversions
    are written identically) is a Dafny `map` together with the order in which the
    Rust map is iterated. */
module Conversions {
  import opened Wrappers
  import opened Seqs
  import opened Bson
  import opened Errors
  import Types

  // ---------------------------------------------------------------------------
  // HuusIntoBson for scalars

  function F64IntoBson(f: Float): Bson { FloatingPoint(f) }

  /** Both `String` and `&str`. */
  function StringIntoBson(s: string): Bson { String(s) }

  function ObjectIdIntoBson(o: Oid): Bson { ObjectId(o) }

  function BoolIntoBson(b: bool): Bson { Boolean(b) }

  function DateIntoBson(d: Date): Bson { UtcDatetime(d) }

  function I32IntoBson(i: Int32): Bson { I32(i) }

  function I64IntoBson(l: Int64): Bson { I64(l) }

  /** A `TimeStamp` is stored as its inner `i64`. */
  function TimeStampIntoBson(t: Types.TimeStamp): Bson { TimeStamp(t.value) }

  /** Every type with `IntoDoc` becomes a BSON document. */
  function IntoDocIntoBson<T>(x: T, intoDoc: T -> Doc): Bson { Document(intoDoc(x)) }

  /** `IntoDoc` for `bson::Document` is the identity. */
  function DocumentIntoDoc(d: Doc): Doc { d }

  // ---------------------------------------------------------------------------
  // HuusFromBson

  function StringFromBson(b: Bson): (r: Result<string, ConversionError>)
    ensures r.Ok? <==> b.String?
    ensures r.Ok? ==> b == String(r.value)
    ensures r.Err? ==> r.error == WrongTypeForUnknownKey()
  {
    match b
    case String(s) => Ok(s)
    case _ => Err(WrongTypeForUnknownKey())
  }

  function I32FromBson(b: Bson): (r: Result<Int32, ConversionError>)
    ensures r.Ok? <==> b.I32?
    ensures r.Ok? ==> b == I32(r.value)
    ensures r.Err? ==> r.error == WrongTypeForUnknownKey()
  {
    match b
    case I32(i) => Ok(i)
    case _ => Err(WrongTypeForUnknownKey())
  }

  function I64FromBson(b: Bson): (r: Result<Int64, ConversionError>)
    ensures r.Ok? <==> b.I64?
    ensures r.Ok? ==> b == I64(r.value)
    ensures r.Err? ==> r.error == WrongTypeForUnknownKey()
  {
    match b
    case I64(l) => Ok(l)
    case _ => Err(WrongTypeForUnknownKey())
  }

  /** Every type with `FromDoc` reads a BSON document, and nothing else. */
  function FromDocFromBson<T>(b: Bson, fromDoc: Doc -> Result<T, ConversionError>): (r: Result<T, ConversionError>)
    ensures b.Document? ==> r == fromDoc(b.doc)
    ensures !b.Document? ==> r == Err(WrongTypeForUnknownKey())
  {
    match b
    case Document(d) => fromDoc(d)
    case _ => Err(WrongTypeForUnknownKey())
  }

  /** Each scalar reader undoes the matching writer. */
  lemma ScalarRoundTrips(s: string, i: Int32, l: Int64)
    ensures StringFromBson(StringIntoBson(s)) == Ok(s)
    ensures I32FromBson(I32IntoBson(i)) == Ok(i)
    ensures I64FromBson(I64IntoBson(l)) == Ok(l)
  {
  }

  /** A `FromDoc` reader that undoes an `IntoDoc` writer also undoes it through BSON. */
  lemma FromDocRoundTrip<T>(x: T, intoDoc: T -> Doc, fromDoc: Doc -> Result<T, ConversionError>)
    requires fromDoc(intoDoc(x)) == Ok(x)
    ensures FromDocFromBson(IntoDocIntoBson(x, intoDoc), fromDoc) == Ok(x)
  {
  }

  // ---------------------------------------------------------------------------
  // Vec<T> <-> bson::Array

  /** `HuusIntoBson for Vec<T>`: the elements converted one by one, in order. */
  function VecIntoBson<T>(v: seq<T>, into: T -> Bson): (b: Bson)
    ensures b.Array? && |b.items| == |v|
    ensures forall i :: 0 <= i < |v| ==> b.items[i] == into(v[i])
  {
    Array(VecItems(v, into))
  }

  function VecItems<T>(v: seq<T>, into: T -> Bson): (items: seq<Bson>)
    ensures |items| == |v|
    ensures forall i :: 0 <= i < |v| ==> items[i] == into(v[i])
    decreases |v|
  {
    if |v| == 0 then [] else [into(v[0])] + VecItems(v[1..], into)
  }

  /** `HuusFromBsonArray for Vec<T>`: converts the elements in order and stops at
      the first one that fails, returning its error. */
  function VecFromBsonArray<T>(a: seq<Bson>, from: Bson -> Result<T, ConversionError>): (r: Result<seq<T>, ConversionError>)
    ensures r.Ok? <==> forall i :: 0 <= i < |a| ==> from(a[i]).Ok?
    ensures r.Ok? ==> |r.value| == |a| && forall i :: 0 <= i < |a| ==> from(a[i]) == Ok(r.value[i])
    ensures r.Err? ==> exists i :: 0 <= i < |a| && from(a[i]) == Err(r.error) &&
                                    forall j :: 0 <= j < i ==> from(a[j]).Ok?
    decreases |a|
  {
    if |a| == 0 then Ok([])
    else match from(a[0])
      case Err(e) => Err(e)
      case Ok(x) =>
        var rest := VecFromBsonArray(a[1..], from);
        assert forall i :: 1 <= i < |a| ==> a[i] == a[1..][i - 1];
        match rest
        case Err(e) =>
          assert exists i :: 0 <= i < |a[1..]| && from(a[1..][i]) == Err(e) &&
                              forall j :: 0 <= j < i ==> from(a[1..][j]).Ok?;
          var i :| 0 <= i < |a[1..]| && from(a[1..][i]) == Err(e) &&
                   forall j :: 0 <= j < i ==> from(a[1..][j]).Ok?;
          assert from(a[i + 1]) == Err(e) && forall j :: 0 <= j < i + 1 ==> from(a[j]).Ok?;
          Err(e)
        case Ok(xs) => Ok([x] + xs)
  }

  /** Reading back an array written from a vector gives the vector, when the element
      reader undoes the element writer. */
  lemma VecRoundTrip<T>(v: seq<T>, into: T -> Bson, from: Bson -> Result<T, ConversionError>)
    requires forall i :: 0 <= i < |v| ==> from(into(v[i])) == Ok(v[i])
    ensures VecFromBsonArray(VecIntoBson(v, into).items, from) == Ok(v)
  {
    var r := VecFromBsonArray(VecIntoBson(v, into).items, from);
    assert r.value == v;
  }

  /** The array `[1, 4, 7, 8]` of `I32` values reads as the vector `[1, 4, 7, 8]`. */
  lemma ArrayIntoVecOfI32()
    ensures VecFromBsonArray([I32(1), I32(4), I32(7), I32(8)], I32FromBson) == Ok([1, 4, 7, 8])
  {
    var a := [I32(1), I32(4), I32(7), I32(8)];
    var r := VecFromBsonArray(a, I32FromBson);
    assert forall i :: 0 <= i < 4 ==> a[i].I32?;
    assert r.Ok? && |r.value| == 4;
    assert I32(r.value[0]) == a[0] && I32(r.value[1]) == a[1];
    assert I32(r.value[2]) == a[2] && I32(r.value[3]) == a[3];
    var expected: seq<Int32> := [1, 4, 7, 8];
    assert r.value == expected;
  }

  // ---------------------------------------------------------------------------
  // Maps <-> bson::Document

  /** `order` lists the keys of `m`, each once: the iteration order of the Rust map. */
  predicate IsIterationOrder<K(!new), V>(m: map<K, V>, order: seq<K>) {
    Distinct(order) && (forall k :: k in m ==> k in order) && (forall k :: k in order ==> k in m)
  }

  /** The entries the map writer inserts: the key's `to_str` and the converted value,
      in iteration order. */
  function MapEntries<K, V>(m: map<K, V>, order: seq<K>, toStr: K -> string, into: V -> Bson): (es: seq<Entry>)
    requires forall k :: k in order ==> k in m
    ensures |es| == |order|
    decreases |order|
  {
    if |order| == 0 then []
    else [Entry(toStr(order[0]), into(m[order[0]]))] + MapEntries(m, order[1..], toStr, into)
  }

  /** `HuusIntoBson` for `BTreeMap` and `HashMap`: a new document into which every
      key-value pair is inserted in iteration order. */
  function MapIntoBson<K(!new), V>(m: map<K, V>, order: seq<K>, toStr: K -> string, into: V -> Bson): (b: Bson)
    requires IsIterationOrder(m, order)
    ensures b.Document?
  {
    Document(FromEntries(MapEntries(m, order, toStr, into)))
  }

  /** Whether an entry converts: its key with `from_str`, then its value. */
  predicate EntryConverts<K, V>(e: Entry, fromStr: string -> Result<K, ConversionError>,
                                fromBson: Bson -> Result<V, ConversionError>) {
    fromStr(e.key).Ok? && fromBson(e.value).Ok?
  }

  /** The error of an entry that does not convert; a bad key is reported before a
      bad value. */
  function EntryError<K, V>(e: Entry, fromStr: string -> Result<K, ConversionError>,
                            fromBson: Bson -> Result<V, ConversionError>): ConversionError
    requires !EntryConverts(e, fromStr, fromBson)
  {
    if fromStr(e.key).Err? then fromStr(e.key).error else fromBson(e.value).error
  }

  /** `FromDoc` for `BTreeMap` and `HashMap`: every entry of the document converted
      and inserted into a new map; the first entry that fails ends the conversion
      with its error. */
  function MapFromDoc<K(!new), V>(d: Doc, fromStr: string -> Result<K, ConversionError>,
                            fromBson: Bson -> Result<V, ConversionError>): (r: Result<map<K, V>, ConversionError>)
    ensures r.Ok? <==> forall i :: 0 <= i < |d.entries| ==> EntryConverts(d.entries[i], fromStr, fromBson)
    ensures r.Ok? ==> forall k :: k in r.value <==>
      exists i :: 0 <= i < |d.entries| && fromStr(d.entries[i].key) == Ok(k)
    ensures r.Err? ==> exists i :: (0 <= i < |d.entries| && !EntryConverts(d.entries[i], fromStr, fromBson) &&
      r.error == EntryError(d.entries[i], fromStr, fromBson) &&
      forall j :: 0 <= j < i ==> EntryConverts(d.entries[j], fromStr, fromBson))
  {
    MapFromEntries(d.entries, map[], fromStr, fromBson)
  }

  function MapFromEntries<K(!new), V>(es: seq<Entry>, acc: map<K, V>, fromStr: string -> Result<K, ConversionError>,
                                fromBson: Bson -> Result<V, ConversionError>): (r: Result<map<K, V>, ConversionError>)
    ensures r.Ok? <==> forall i :: 0 <= i < |es| ==> EntryConverts(es[i], fromStr, fromBson)
    ensures r.Ok? ==> forall k :: k in r.value <==>
      k in acc || exists i :: 0 <= i < |es| && fromStr(es[i].key) == Ok(k)
    ensures r.Err? ==> exists i :: (0 <= i < |es| && !EntryConverts(es[i], fromStr, fromBson) &&
      r.error == EntryError(es[i], fromStr, fromBson) &&
      forall j :: 0 <= j < i ==> EntryConverts(es[j], fromStr, fromBson))
    decreases |es|
  {
    if |es| == 0 then Ok(acc)
    else match fromStr(es[0].key)
      case Err(e) => Err(e)
      case Ok(k) =>
        match fromBson(es[0].value)
        case Err(e) => Err(e)
        case Ok(v) =>
          var r := MapFromEntries(es[1..], acc[k := v], fromStr, fromBson);
          assert forall i :: 1 <= i < |es| ==> es[i] == es[1..][i - 1];
          if r.Err? then
            var i :| 0 <= i < |es[1..]| && !EntryConverts(es[1..][i], fromStr, fromBson) &&
              r.error == EntryError(es[1..][i], fromStr, fromBson) &&
              forall j :: 0 <= j < i ==> EntryConverts(es[1..][j], fromStr, fromBson);
            assert forall j :: 0 <= j < i + 1 ==> EntryConverts(es[j], fromStr, fromBson);
            r
          else
            assert forall k' :: (exists i :: 0 <= i < |es[1..]| && fromStr(es[1..][i].key) == Ok(k')) ==>
                                (exists i :: 0 <= i < |es| && fromStr(es[i].key) == Ok(k'));
            r
  }

  /** No two keys of `m` print the same. */
  predicate KeyTextInjective<K(!new), V>(m: map<K, V>, toStr: K -> string) {
    forall k1, k2 :: k1 in m && k2 in m && toStr(k1) == toStr(k2) ==> k1 == k2
  }

  lemma {:induction false} MapEntriesKeys<K, V>(m: map<K, V>, order: seq<K>, toStr: K -> string, into: V -> Bson, s: string)
    requires forall k :: k in order ==> k in m
    ensures s in KeysOf(MapEntries(m, order, toStr, into)) <==>
      exists i :: 0 <= i < |order| && toStr(order[i]) == s
    decreases |order|
  {
    if |order| > 0 {
      MapEntriesKeys(m, order[1..], toStr, into, s);
      assert forall i :: 1 <= i < |order| ==> order[i] == order[1..][i - 1];
      if exists i :: 0 <= i < |order| && toStr(order[i]) == s {
        var i :| 0 <= i < |order| && toStr(order[i]) == s;
        if i > 0 {
          assert toStr(order[1..][i - 1]) == s;
        }
      }
    }
  }

  lemma {:induction false} MapEntriesDistinct<K(!new), V>(m: map<K, V>, order: seq<K>, toStr: K -> string, into: V -> Bson)
    requires Distinct(order) && forall k :: k in order ==> k in m
    requires KeyTextInjective(m, toStr)
    ensures Distinct(KeysOf(MapEntries(m, order, toStr, into)))
    decreases |order|
  {
    if |order| > 0 {
      MapEntriesDistinct(m, order[1..], toStr, into);
      MapEntriesKeys(m, order[1..], toStr, into, toStr(order[0]));
    }
  }

  lemma {:induction false} MapEntriesLookup<K(!new), V>(m: map<K, V>, order: seq<K>, toStr: K -> string, into: V -> Bson, k: K)
    requires forall k :: k in order ==> k in m
    requires KeyTextInjective(m, toStr)
    requires k in order
    ensures Lookup(MapEntries(m, order, toStr, into), toStr(k)) == Some(into(m[k]))
    decreases |order|
  {
    if order[0] != k {
      MapEntriesLookup(m, order[1..], toStr, into, k);
    }
  }

  /** The written document has one key per map key: its `to_str`. */
  lemma MapIntoBsonKeys<K(!new), V>(m: map<K, V>, order: seq<K>, toStr: K -> string, into: V -> Bson, s: string)
    requires IsIterationOrder(m, order)
    ensures UniqueKeys(MapIntoBson(m, order, toStr, into).doc)
    ensures HasKey(MapIntoBson(m, order, toStr, into).doc, s) <==> exists k :: k in m && toStr(k) == s
  {
    var es := MapEntries(m, order, toStr, into);
    FromEntriesUnique(es);
    InsertAllGet(EmptyDoc, es, s);
    MapEntriesKeys(m, order, toStr, into, s);
    if exists k :: k in m && toStr(k) == s {
      var k :| k in m && toStr(k) == s;
      var i :| 0 <= i < |order| && order[i] == k;
    }
  }

  /** When no two map keys print the same, the written document holds exactly
      the map's entries, in iteration order, and each key's value is its converted
      map value. */
  lemma MapIntoBsonEntries<K(!new), V>(m: map<K, V>, order: seq<K>, toStr: K -> string, into: V -> Bson)
    requires IsIterationOrder(m, order)
    requires KeyTextInjective(m, toStr)
    ensures MapIntoBson(m, order, toStr, into).doc == Doc(MapEntries(m, order, toStr, into))
    ensures forall k :: k in m ==> Get(MapIntoBson(m, order, toStr, into).doc, toStr(k)) == Some(into(m[k]))
  {
    var es := MapEntries(m, order, toStr, into);
    MapEntriesDistinct(m, order, toStr, into);
    assert EmptyDoc.entries + es == es;
    InsertAllFresh(EmptyDoc, es);
    forall k | k in m
      ensures Lookup(es, toStr(k)) == Some(into(m[k]))
    {
      MapEntriesLookup(m, order, toStr, into, k);
    }
  }

  lemma {:induction false} MapFromMapEntries<K(!new), V>(m: map<K, V>, order: seq<K>, toStr: K -> string, into: V -> Bson,
                                                      fromStr: string -> Result<K, ConversionError>,
                                                      fromBson: Bson -> Result<V, ConversionError>, acc: map<K, V>)
    requires forall k :: k in order ==> k in m
    requires forall k :: k in m ==> fromStr(toStr(k)) == Ok(k)
    requires forall k :: k in m ==> fromBson(into(m[k])) == Ok(m[k])
    ensures MapFromEntries(MapEntries(m, order, toStr, into), acc, fromStr, fromBson).Ok?
    ensures var r := MapFromEntries(MapEntries(m, order, toStr, into), acc, fromStr, fromBson).value;
      (forall k :: k in r <==> k in acc || k in order) &&
      (forall k :: k in r ==> r[k] == if k in order then m[k] else acc[k])
    decreases |order|
  {
    if |order| > 0 {
      var k0 := order[0];
      var acc' := acc[k0 := m[k0]];
      MapFromMapEntries(m, order[1..], toStr, into, fromStr, fromBson, acc');
      assert forall k :: k in order <==> k == k0 || k in order[1..];
    }
  }

  /** Reading back a document written from a map gives the map, when the key's
      `from_str` undoes its `to_str` and the value reader undoes the value writer. */
  lemma MapRoundTrip<K(!new), V>(m: map<K, V>, order: seq<K>, toStr: K -> string, into: V -> Bson,
                                 fromStr: string -> Result<K, ConversionError>,
                                 fromBson: Bson -> Result<V, ConversionError>)
    requires IsIterationOrder(m, order)
    requires forall k :: k in m ==> fromStr(toStr(k)) == Ok(k)
    requires forall k :: k in m ==> fromBson(into(m[k])) == Ok(m[k])
    ensures MapFromDoc(MapIntoBson(m, order, toStr, into).doc, fromStr, fromBson) == Ok(m)
  {
    ReadableKeysAreInjective(m, toStr, fromStr);
    var es := MapEntries(m, order, toStr, into);
    MapIntoBsonEntries(m, order, toStr, into);
    MapFromMapEntries(m, order, toStr, into, fromStr, fromBson, map[]);
    var r := MapFromEntries(es, map[], fromStr, fromBson).value;
    SameMap(r, m, order);
  }

  /** A map with the keys of `order` and the values of `m` on them is `m`. */
  lemma SameMap<K(!new), V>(r: map<K, V>, m: map<K, V>, order: seq<K>)
    requires IsIterationOrder(m, order)
    requires forall k :: k in r <==> k in order
    requires forall k :: k in r ==> r[k] == m[k]
    ensures r == m
  {
    assert forall k :: k in r <==> k in m;
  }

  /** Keys that `from_str` reads back from their `to_str` never print the same. */
  lemma ReadableKeysAreInjective<K(!new), V>(m: map<K, V>, toStr: K -> string, fromStr: string -> Result<K, ConversionError>)
    requires forall k :: k in m ==> fromStr(toStr(k)) == Ok(k)
    ensures KeyTextInjective(m, toStr)
  {
    forall k1, k2 | k1 in m && k2 in m && toStr(k1) == toStr(k2)
      ensures k1 == k2
    {
      assert Ok(k1) == fromStr(toStr(k2));
    }
  }

  /** `HuusKey for String`: both directions are the identity. */
  function StringKeyFromStr(s: string): (r: Result<string, ConversionError>)
    ensures r == Ok(s)
  {
    Ok(s)
  }

  function StringKeyToStr(s: string): string { s }

  /** A map keyed by strings round-trips through a document. */
  lemma StringKeyedMapRoundTrip<V>(m: map<string, V>, order: seq<string>, into: V -> Bson,
                                   fromBson: Bson -> Result<V, ConversionError>)
    requires IsIterationOrder(m, order)
    requires forall k :: k in m ==> fromBson(into(m[k])) == Ok(m[k])
    ensures MapFromDoc(MapIntoBson(m, order, StringKeyToStr, into).doc, StringKeyFromStr, fromBson) == Ok(m)
  {
    MapRoundTrip(m, order, StringKeyToStr, into, StringKeyFromStr, fromBson);
  }
}
