/** The BSON values the library builds and reads, and the ordered document that
    holds them.

    A document is an association list in insertion order. `Insert` puts its entry
    at the end, dropping an earlier entry with the same key. Every document the
    model builds has pairwise distinct keys. */
module Bson {
  import opened Wrappers
  import opened Seqs

  newtype Int32 = x: int | -0x8000_0000 <= x < 0x8000_0000
  newtype Int64 = x: int | -0x8000_0000_0000_0000 <= x < 0x8000_0000_0000_0000

  /** An `f64`, carried as its IEEE-754 bit pattern; the model never computes with it. */
  datatype Float = Float(bits: bv64)

  /** A 12-byte BSON object id. */
  datatype Oid = Oid(bytes: seq<bv8>)

  /** A `chrono::DateTime<Utc>`, carried as milliseconds since the epoch. */
  datatype Date = Date(millis: Int64)

  /** The BSON variants used by the library (`FloatingPoint` is the variant later
      bson versions call `Double`; binary data, regular expressions,
      JavaScript code and the deprecated variants are never built by it). */
  datatype Bson =
    | FloatingPoint(f: Float)
    | String(s: string)
    | Array(items: seq<Bson>)
    | Document(doc: Doc)
    | Boolean(b: bool)
    | Null
    | ObjectId(oid: Oid)
    | UtcDatetime(date: Date)
    | I32(i: Int32)
    | I64(l: Int64)
    | TimeStamp(t: Int64)

  datatype Entry = Entry(key: string, value: Bson)

  datatype Doc = Doc(entries: seq<Entry>)

  const EmptyDoc: Doc := Doc([])

  /** The keys of a document, in order. */
  function Keys(d: Doc): seq<string> {
    KeysOf(d.entries)
  }

  function KeysOf(es: seq<Entry>): (ks: seq<string>)
    ensures |ks| == |es|
    decreases |es|
  {
    if |es| == 0 then [] else [es[0].key] + KeysOf(es[1..])
  }

  predicate HasKey(d: Doc, k: string) {
    k in Keys(d)
  }

  /** Every key appears at most once. */
  predicate UniqueKeys(d: Doc) {
    Distinct(Keys(d))
  }

  /** `Document::get`: the value stored under the first entry with key `k`. */
  function Get(d: Doc, k: string): (r: Option<Bson>)
    ensures r.None? <==> !HasKey(d, k)
  {
    Lookup(d.entries, k)
  }

  function Lookup(es: seq<Entry>, k: string): (r: Option<Bson>)
    ensures r.None? <==> k !in KeysOf(es)
    decreases |es|
  {
    if |es| == 0 then None
    else if es[0].key == k then Some(es[0].value)
    else Lookup(es[1..], k)
  }

  /** `Document::insert`: the entry goes to the end, replacing any earlier entry
      with the same key (the linked hash map behind the document moves a
      re-inserted key to the back). */
  function Insert(d: Doc, k: string, v: Bson): (r: Doc)
    ensures Get(r, k) == Some(v)
    ensures forall k' :: k' != k ==> Get(r, k') == Get(d, k')
  {
    Doc(InsertEntry(d.entries, k, v))
  }

  function InsertEntry(es: seq<Entry>, k: string, v: Bson): (r: seq<Entry>)
    ensures Lookup(r, k) == Some(v)
    ensures forall k' :: k' != k ==> Lookup(r, k') == Lookup(es, k')
  {
    var kept := Without(es, k);
    forall k' | k' != k
      ensures Lookup(kept + [Entry(k, v)], k') == Lookup(es, k')
    {
      LookupAppend(kept, [Entry(k, v)], k');
      WithoutLookup(es, k, k');
    }
    LookupAppend(kept, [Entry(k, v)], k);
    kept + [Entry(k, v)]
  }

  /** The entries whose key is not `k`, in order. */
  function Without(es: seq<Entry>, k: string): (r: seq<Entry>)
    ensures k !in KeysOf(r)
    decreases |es|
  {
    if |es| == 0 then []
    else if es[0].key == k then Without(es[1..], k)
    else [es[0]] + Without(es[1..], k)
  }

  lemma {:induction false} WithoutLookup(es: seq<Entry>, k: string, k': string)
    requires k' != k
    ensures Lookup(Without(es, k), k') == Lookup(es, k')
    decreases |es|
  {
    if |es| > 0 {
      WithoutLookup(es[1..], k, k');
      if es[0].key != k {
        assert ([es[0]] + Without(es[1..], k))[1..] == Without(es[1..], k);
      }
    }
  }

  lemma {:induction false} WithoutFresh(es: seq<Entry>, k: string)
    requires k !in KeysOf(es)
    ensures Without(es, k) == es
    decreases |es|
  {
    if |es| > 0 {
      assert KeysOf(es) == [es[0].key] + KeysOf(es[1..]);
      WithoutFresh(es[1..], k);
    }
  }

  lemma {:induction false} WithoutKeys(es: seq<Entry>, k: string, k': string)
    ensures k' in KeysOf(Without(es, k)) <==> k' != k && k' in KeysOf(es)
    decreases |es|
  {
    if |es| > 0 {
      WithoutKeys(es[1..], k, k');
      if es[0].key != k {
        assert KeysOf([es[0]] + Without(es[1..], k)) == [es[0].key] + KeysOf(Without(es[1..], k)) by {
          assert ([es[0]] + Without(es[1..], k))[1..] == Without(es[1..], k);
        }
      }
    }
  }

  lemma {:induction false} WithoutDistinct(es: seq<Entry>, k: string)
    requires Distinct(KeysOf(es))
    ensures Distinct(KeysOf(Without(es, k)))
    decreases |es|
  {
    if |es| > 0 {
      WithoutDistinct(es[1..], k);
      if es[0].key != k {
        var rest := Without(es[1..], k);
        WithoutKeys(es[1..], k, es[0].key);
        assert ([es[0]] + rest)[1..] == rest;
        assert KeysOf([es[0]] + rest) == [es[0].key] + KeysOf(rest);
      }
    }
  }

  /** A new key goes last; a present key leaves its place and goes last. */
  lemma InsertKeys(d: Doc, k: string, v: Bson)
    ensures !HasKey(d, k) ==> Keys(Insert(d, k, v)) == Keys(d) + [k]
    ensures HasKey(d, k) ==> Keys(Insert(d, k, v)) == KeysOf(Without(d.entries, k)) + [k]
    ensures forall k' :: k' in Keys(Insert(d, k, v)) <==> k' == k || k' in Keys(d)
    ensures UniqueKeys(d) ==> UniqueKeys(Insert(d, k, v))
  {
    var kept := Without(d.entries, k);
    KeysOfConcat(kept, [Entry(k, v)]);
    assert KeysOf([Entry(k, v)]) == [k];
    if !HasKey(d, k) {
      WithoutFresh(d.entries, k);
    }
    forall k' ensures k' in Keys(Insert(d, k, v)) <==> k' == k || k' in Keys(d) {
      WithoutKeys(d.entries, k, k');
    }
    if UniqueKeys(d) {
      WithoutDistinct(d.entries, k);
      DistinctAppend(KeysOf(kept), k);
    }
  }

  /** The keys of two lists of entries put together. */
  lemma {:induction false} KeysOfConcat(a: seq<Entry>, b: seq<Entry>)
    ensures KeysOf(a + b) == KeysOf(a) + KeysOf(b)
    decreases |a|
  {
    if |a| > 0 {
      assert (a + b)[1..] == a[1..] + b;
      KeysOfConcat(a[1..], b);
      assert KeysOf(a + b) == [a[0].key] + KeysOf(a[1..] + b);
      assert KeysOf(a) == [a[0].key] + KeysOf(a[1..]);
    } else {
      assert a + b == b;
    }
  }

  /** Re-inserting the first of two keys moves it behind the second. */
  lemma ReinsertGoesLast(x: Bson, y: Bson, z: Bson)
    ensures Keys(Insert(PairDoc("a", x, "b", y), "a", z)) == ["b", "a"]
    ensures Get(Insert(PairDoc("a", x, "b", y), "a", z), "b") == Some(y)
  {
    var d := PairDoc("a", x, "b", y);
    assert Without(d.entries, "a") == [Entry("b", y)] by {
      assert d.entries[1..] == [Entry("b", y)];
      assert Without([Entry("b", y)], "a") == [Entry("b", y)] + Without([], "a");
    }
    InsertKeys(d, "a", z);
    assert KeysOf([Entry("b", y)]) == ["b"];
  }

  /** Inserts the entries in order, as a sequence of `doc.insert` calls does. */
  function InsertAll(d: Doc, es: seq<Entry>): Doc
    decreases |es|
  {
    if |es| == 0 then d else InsertAll(Insert(d, es[0].key, es[0].value), es[1..])
  }

  /** Builds a document by inserting the entries in order into an empty one. */
  function FromEntries(es: seq<Entry>): Doc {
    InsertAll(EmptyDoc, es)
  }

  /** Inserting never makes a key appear twice. */
  lemma {:induction false} InsertAllUnique(d: Doc, es: seq<Entry>)
    requires UniqueKeys(d)
    ensures UniqueKeys(InsertAll(d, es))
    decreases |es|
  {
    if |es| > 0 {
      InsertKeys(d, es[0].key, es[0].value);
      InsertAllUnique(Insert(d, es[0].key, es[0].value), es[1..]);
    }
  }

  lemma FromEntriesUnique(es: seq<Entry>)
    ensures UniqueKeys(FromEntries(es))
  {
    InsertAllUnique(EmptyDoc, es);
  }

  lemma {:induction false} KeysOfAt(es: seq<Entry>, i: nat)
    requires i < |es|
    ensures KeysOf(es)[i] == es[i].key
    decreases i
  {
    if i > 0 {
      KeysOfAt(es[1..], i - 1);
    }
  }

  /** No entry of `es` has key `k`. */
  predicate FreshKey(es: seq<Entry>, k: string) {
    forall i :: 0 <= i < |es| ==> es[i].key != k
  }

  lemma AppendFresh(es: seq<Entry>, e: Entry)
    requires FreshKey(es, e.key)
    ensures InsertEntry(es, e.key, e.value) == es + [e]
  {
    FreshNotKey(es, e.key);
    WithoutFresh(es, e.key);
  }

  lemma {:induction false} FreshNotKey(es: seq<Entry>, k: string)
    requires FreshKey(es, k)
    ensures k !in KeysOf(es)
    decreases |es|
  {
    if |es| > 0 {
      FreshNotKey(es[1..], k);
    }
  }

  /** Looking up in an extended list finds the earlier entries first. */
  lemma {:induction false} LookupAppend(es: seq<Entry>, more: seq<Entry>, k: string)
    ensures Lookup(es + more, k) == if k in KeysOf(es) then Lookup(es, k) else Lookup(more, k)
    decreases |es|
  {
    if |es| == 0 {
      assert es + more == more;
    } else {
      assert (es + more)[1..] == es[1..] + more;
      LookupAppend(es[1..], more, k);
    }
  }

  /** Entries at two positions of a list with distinct keys have different keys. */
  lemma DistinctKeysAt(es: seq<Entry>, i: nat, j: nat)
    requires i < |es| && j < |es| && i != j
    requires Distinct(KeysOf(es))
    ensures es[i].key != es[j].key
  {
    KeysOfAt(es, i);
    KeysOfAt(es, j);
    DistinctAt(KeysOf(es), i, j);
  }

  lemma FirstKeyFresh(all: seq<Entry>, n: nat)
    requires n < |all|
    requires Distinct(KeysOf(all))
    ensures FreshKey(all[..n], all[n].key)
  {
    forall i | 0 <= i < n
      ensures all[..n][i].key != all[n].key
    {
      DistinctKeysAt(all, i, n);
    }
  }

  /** Inserting entries whose keys are new and pairwise distinct appends them. */
  lemma {:induction false} InsertAllFresh(d: Doc, es: seq<Entry>)
    requires Distinct(KeysOf(d.entries + es))
    ensures InsertAll(d, es) == Doc(d.entries + es)
    decreases |es|
  {
    if |es| == 0 {
      assert d.entries + es == d.entries;
    } else {
      var all := d.entries + es;
      FirstKeyFresh(all, |d.entries|);
      assert all[..|d.entries|] == d.entries && all[|d.entries|] == es[0];
      AppendFresh(d.entries, es[0]);
      var d' := Doc(d.entries + [es[0]]);
      assert d'.entries + es[1..] == d.entries + es;
      InsertAllFresh(d', es[1..]);
    }
  }

  /** The value of the last entry with key `k`, the one a run of inserts keeps. */
  function LastLookup(es: seq<Entry>, k: string): (r: Option<Bson>)
    ensures r.None? <==> k !in KeysOf(es)
    decreases |es|
  {
    if |es| == 0 then None
    else match LastLookup(es[1..], k)
      case Some(v) => Some(v)
      case None => if es[0].key == k then Some(es[0].value) else None
  }

  /** After a run of inserts, a key holds the value of its last insert, or its old
      value if it was not inserted. */
  lemma {:induction false} InsertAllGet(d: Doc, es: seq<Entry>, k: string)
    ensures Get(InsertAll(d, es), k) ==
      (if LastLookup(es, k).Some? then LastLookup(es, k) else Get(d, k))
    decreases |es|
  {
    if |es| > 0 {
      InsertAllGet(Insert(d, es[0].key, es[0].value), es[1..], k);
    }
  }

  lemma {:induction false} LastLookupAppend(es: seq<Entry>, e: Entry, k: string)
    ensures LastLookup(es + [e], k) == if e.key == k then Some(e.value) else LastLookup(es, k)
    decreases |es|
  {
    if |es| == 0 {
      assert es + [e] == [e];
    } else {
      assert (es + [e])[1..] == es[1..] + [e];
      LastLookupAppend(es[1..], e, k);
    }
  }

  /** The last entry with a key in the reversed list is the first one in the list. */
  lemma {:induction false} LastLookupReverse(es: seq<Entry>, k: string)
    ensures LastLookup(Reverse(es), k) == Lookup(es, k)
    decreases |es|
  {
    if |es| > 0 {
      LastLookupAppend(Reverse(es[1..]), es[0], k);
      LastLookupReverse(es[1..], k);
    }
  }

  /** Without repeated keys the last entry with a key is also the first. */
  lemma {:induction false} LastLookupDistinct(es: seq<Entry>, k: string)
    requires Distinct(KeysOf(es))
    ensures LastLookup(es, k) == Lookup(es, k)
    decreases |es|
  {
    if |es| > 0 {
      LastLookupDistinct(es[1..], k);
    }
  }

  /** After a run of inserts a key is present iff it was present or inserted. */
  lemma InsertAllHasKey(d: Doc, es: seq<Entry>, k: string)
    ensures HasKey(InsertAll(d, es), k) <==> HasKey(d, k) || k in KeysOf(es)
  {
    InsertAllGet(d, es, k);
  }

  /** A document with the one entry `k: v`. */
  function SingletonDoc(k: string, v: Bson): (d: Doc)
    ensures Keys(d) == [k] && Get(d, k) == Some(v)
  {
    Insert(EmptyDoc, k, v)
  }

  /** A document with the two entries `k1: v1` and `k2: v2`, in that order. */
  function PairDoc(k1: string, v1: Bson, k2: string, v2: Bson): (d: Doc)
    requires k1 != k2
    ensures Keys(d) == [k1, k2] && UniqueKeys(d)
    ensures Get(d, k1) == Some(v1) && Get(d, k2) == Some(v2)
  {
    var d := Doc([Entry(k1, v1), Entry(k2, v2)]);
    assert d.entries[1..] == [Entry(k2, v2)];
    assert KeysOf(d.entries) == [k1] + KeysOf([Entry(k2, v2)]);
    assert Lookup(d.entries, k2) == Lookup([Entry(k2, v2)], k2);
    d
  }

  /** `d` is exactly `{k: v}`. */
  predicate IsSingleton(d: Doc, k: string, v: Bson) {
    Keys(d) == [k] && Get(d, k) == Some(v)
  }

  /** Error of the typed getters of `bson::Document` (`ValueAccessError`). */
  datatype AccessError = NotPresent | UnexpectedType

  /** `get_f64` */
  function GetF64(d: Doc, k: string): (r: Result<Float, AccessError>)
    ensures r.Ok? ==> Get(d, k) == Some(FloatingPoint(r.value))
    ensures r.Err? ==> !(Get(d, k).Some? && Get(d, k).value.FloatingPoint?)
    ensures r == Err(NotPresent) <==> !HasKey(d, k)
  {
    match Get(d, k)
    case None => Err(NotPresent)
    case Some(FloatingPoint(f)) => Ok(f)
    case Some(_) => Err(UnexpectedType)
  }

  /** `get_str` */
  function GetStr(d: Doc, k: string): (r: Result<string, AccessError>)
    ensures r.Ok? ==> Get(d, k) == Some(String(r.value))
    ensures r.Err? ==> !(Get(d, k).Some? && Get(d, k).value.String?)
    ensures r == Err(NotPresent) <==> !HasKey(d, k)
  {
    match Get(d, k)
    case None => Err(NotPresent)
    case Some(String(s)) => Ok(s)
    case Some(_) => Err(UnexpectedType)
  }

  /** `get_array` */
  function GetArray(d: Doc, k: string): (r: Result<seq<Bson>, AccessError>)
    ensures r.Ok? ==> Get(d, k) == Some(Array(r.value))
    ensures r.Err? ==> !(Get(d, k).Some? && Get(d, k).value.Array?)
    ensures r == Err(NotPresent) <==> !HasKey(d, k)
  {
    match Get(d, k)
    case None => Err(NotPresent)
    case Some(Array(a)) => Ok(a)
    case Some(_) => Err(UnexpectedType)
  }

  /** `get_document` */
  function GetDocument(d: Doc, k: string): (r: Result<Doc, AccessError>)
    ensures r.Ok? ==> Get(d, k) == Some(Document(r.value))
    ensures r.Err? ==> !(Get(d, k).Some? && Get(d, k).value.Document?)
    ensures r == Err(NotPresent) <==> !HasKey(d, k)
  {
    match Get(d, k)
    case None => Err(NotPresent)
    case Some(Document(sub)) => Ok(sub)
    case Some(_) => Err(UnexpectedType)
  }

  /** `get_bool` */
  function GetBool(d: Doc, k: string): (r: Result<bool, AccessError>)
    ensures r.Ok? ==> Get(d, k) == Some(Boolean(r.value))
    ensures r.Err? ==> !(Get(d, k).Some? && Get(d, k).value.Boolean?)
    ensures r == Err(NotPresent) <==> !HasKey(d, k)
  {
    match Get(d, k)
    case None => Err(NotPresent)
    case Some(Boolean(b)) => Ok(b)
    case Some(_) => Err(UnexpectedType)
  }

  /** `get_object_id` */
  function GetObjectId(d: Doc, k: string): (r: Result<Oid, AccessError>)
    ensures r.Ok? ==> Get(d, k) == Some(ObjectId(r.value))
    ensures r.Err? ==> !(Get(d, k).Some? && Get(d, k).value.ObjectId?)
    ensures r == Err(NotPresent) <==> !HasKey(d, k)
  {
    match Get(d, k)
    case None => Err(NotPresent)
    case Some(ObjectId(o)) => Ok(o)
    case Some(_) => Err(UnexpectedType)
  }

  /** `get_utc_datetime` */
  function GetUtcDatetime(d: Doc, k: string): (r: Result<Date, AccessError>)
    ensures r.Ok? ==> Get(d, k) == Some(UtcDatetime(r.value))
    ensures r.Err? ==> !(Get(d, k).Some? && Get(d, k).value.UtcDatetime?)
    ensures r == Err(NotPresent) <==> !HasKey(d, k)
  {
    match Get(d, k)
    case None => Err(NotPresent)
    case Some(UtcDatetime(t)) => Ok(t)
    case Some(_) => Err(UnexpectedType)
  }

  /** `get_i32` */
  function GetI32(d: Doc, k: string): (r: Result<Int32, AccessError>)
    ensures r.Ok? ==> Get(d, k) == Some(I32(r.value))
    ensures r.Err? ==> !(Get(d, k).Some? && Get(d, k).value.I32?)
    ensures r == Err(NotPresent) <==> !HasKey(d, k)
  {
    match Get(d, k)
    case None => Err(NotPresent)
    case Some(I32(i)) => Ok(i)
    case Some(_) => Err(UnexpectedType)
  }

  /** `get_i64` */
  function GetI64(d: Doc, k: string): (r: Result<Int64, AccessError>)
    ensures r.Ok? ==> Get(d, k) == Some(I64(r.value))
    ensures r.Err? ==> !(Get(d, k).Some? && Get(d, k).value.I64?)
    ensures r == Err(NotPresent) <==> !HasKey(d, k)
  {
    match Get(d, k)
    case None => Err(NotPresent)
    case Some(I64(l)) => Ok(l)
    case Some(_) => Err(UnexpectedType)
  }
}
