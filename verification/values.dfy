/** Value versions of data (`BuildValue`): the BSON a caller hands to an update
    operator such as `$set` or `$push`. */
module Values {
  import opened Wrappers
  import opened Seqs
  import opened Bson
  import Text
  import Conversions

  /** `Value { value }`: a wrapped BSON value. */
  datatype Value = Value(value: Bson)

  /** `Value::empty`: the empty document. */
  function EmptyValue(): (v: Value)
    ensures v.value.Document? && Keys(v.value.doc) == []
  {
    Value(Document(EmptyDoc))
  }

  function NewValue(b: Bson): Value {
    Value(b)
  }

  function IntoBson(v: Value): Bson {
    v.value
  }

  /** `Value::new` and `into_bson` are inverse. */
  lemma NewIntoBson(b: Bson, v: Value)
    ensures IntoBson(NewValue(b)) == b
    ensures NewValue(IntoBson(v)) == v
  {
  }

  /** `build_value` of a scalar or a map: the value's `huus_into_bson`, wrapped.
      (The scalar implementations name the BSON variant directly; each agrees with
      the matching `Conversions` writer.) */
  function BuildValueOf<T>(x: T, into: T -> Bson): (v: Value)
    ensures IntoBson(v) == into(x)
  {
    NewValue(into(x))
  }

  const I64Max: nat := 0x7FFF_FFFF_FFFF_FFFF

  /** `usize as i64`: the same 64 bits read as a signed number. */
  function UsizeAsI64(n: nat): (r: Int64)
    requires n <= Text.UsizeMax
    ensures (n - r as int) % 0x1_0000_0000_0000_0000 == 0
    ensures n <= I64Max ==> r as int == n
    ensures n > I64Max ==> r < 0
  {
    if n <= I64Max then n as Int64 else (n - 0x1_0000_0000_0000_0000) as Int64
  }

  /** `Each { each, position, slice }`, the `$each` form of `$push`/`$addToSet`. */
  datatype Each<T> = Each(each: seq<T>, position: Option<nat>, slice: Option<nat>)

  /** A `usize` option fits in 64 bits. */
  predicate UsizeOption(o: Option<nat>) {
    o.Some? ==> o.value <= Text.UsizeMax
  }

  /** `values::Array`: a plain array, or the `$each` form. */
  datatype ArrayValue<T> = PlainArray(items: seq<T>) | EachArray(e: Each<T>)

  predicate WellFormedArray<T>(a: ArrayValue<T>) {
    a.EachArray? ==> UsizeOption(a.e.position) && UsizeOption(a.e.slice)
  }

  /** The `$position`/`$slice` entry of an `$each` document, when present. */
  function OptionalI64Entry(key: string, o: Option<nat>): (es: seq<Entry>)
    requires UsizeOption(o)
    ensures o.None? ==> es == []
    ensures o.Some? ==> es == [Entry(key, I64(UsizeAsI64(o.value)))]
  {
    match o
    case None => []
    case Some(n) => [Entry(key, I64(UsizeAsI64(n)))]
  }

  /** `build_value` for `Array<T>`: a plain array converts element-wise; `$each`
      gives the document `{"$each": [...], "$position": p, "$slice": s}`, each of
      the last two present only when set. */
  function BuildArrayValue<T>(a: ArrayValue<T>, into: T -> Bson): (v: Value)
    requires WellFormedArray(a)
    ensures a.PlainArray? ==> (v.value.Array? && |v.value.items| == |a.items| &&
      forall i :: 0 <= i < |a.items| ==> v.value.items[i] == into(a.items[i]))
    ensures a.EachArray? ==> (v.value.Document? &&
      Keys(v.value.doc) == ["$each"] + (if a.e.position.Some? then ["$position"] else [])
                                     + (if a.e.slice.Some? then ["$slice"] else []))
    ensures a.EachArray? ==> (v.value.Document? &&
      Get(v.value.doc, "$each") == Some(Conversions.VecIntoBson(a.e.each, into)))
    ensures a.EachArray? ==> (v.value.Document? &&
      Get(v.value.doc, "$position") ==
        if a.e.position.Some? then Some(I64(UsizeAsI64(a.e.position.value))) else None)
    ensures a.EachArray? ==> (v.value.Document? &&
      Get(v.value.doc, "$slice") ==
        if a.e.slice.Some? then Some(I64(UsizeAsI64(a.e.slice.value))) else None)
  {
    match a
    case PlainArray(items) => NewValue(Conversions.VecIntoBson(items, into))
    case EachArray(e) =>
      var es := EachEntries(e, into);
      EachEntriesFacts(e, into);
      assert EmptyDoc.entries + es == es;
      InsertAllFresh(EmptyDoc, es);
      NewValue(Document(FromEntries(es)))
  }

  /** The entries of an `$each` document, in insertion order. */
  function EachEntries<T>(e: Each<T>, into: T -> Bson): seq<Entry>
    requires UsizeOption(e.position) && UsizeOption(e.slice)
  {
    [Entry("$each", Conversions.VecIntoBson(e.each, into))]
    + OptionalI64Entry("$position", e.position)
    + OptionalI64Entry("$slice", e.slice)
  }

  lemma EachEntriesFacts<T>(e: Each<T>, into: T -> Bson)
    requires UsizeOption(e.position) && UsizeOption(e.slice)
    ensures KeysOf(EachEntries(e, into)) ==
      ["$each"] + (if e.position.Some? then ["$position"] else []) + (if e.slice.Some? then ["$slice"] else [])
    ensures Distinct(KeysOf(EachEntries(e, into)))
    ensures Lookup(EachEntries(e, into), "$each") == Some(Conversions.VecIntoBson(e.each, into))
    ensures Lookup(EachEntries(e, into), "$position") ==
      if e.position.Some? then Some(I64(UsizeAsI64(e.position.value))) else None
    ensures Lookup(EachEntries(e, into), "$slice") ==
      if e.slice.Some? then Some(I64(UsizeAsI64(e.slice.value))) else None
  {
    var es := EachEntries(e, into);
    KeysOfAt(es, 0);
    if |es| > 1 { KeysOfAt(es, 1); }
    if |es| > 2 { KeysOfAt(es, 2); }
    DistinctFromPairs(KeysOf(es));
    var front := [Entry("$each", Conversions.VecIntoBson(e.each, into))]
                 + OptionalI64Entry("$position", e.position);
    LookupAppend(front, OptionalI64Entry("$slice", e.slice), "$slice");
  }

  /** `From<Vec<T>> for Array<T>`. */
  function ArrayFromVec<T>(v: seq<T>): (a: ArrayValue<T>)
    ensures a.PlainArray? && a.items == v
  {
    PlainArray(v)
  }

  /** `ObjectValue { doc }`: a value document assembled key by key. */
  datatype ObjectValue = ObjectValue(doc: Doc)

  function EmptyObjectValue(): ObjectValue {
    ObjectValue(EmptyDoc)
  }

  /** `ObjectValue::insert`: sets `key`, overwriting an earlier value. */
  function InsertObjectValue(o: ObjectValue, key: string, b: Bson): (r: ObjectValue)
    ensures Get(r.doc, key) == Some(b)
    ensures forall k :: k != key ==> Get(r.doc, k) == Get(o.doc, k)
  {
    ObjectValue(Insert(o.doc, key, b))
  }

  /** Inserting adds exactly its key. */
  lemma InsertObjectValueKeys(o: ObjectValue, key: string, b: Bson, k: string)
    ensures HasKey(InsertObjectValue(o, key, b).doc, k) <==> HasKey(o.doc, k) || k == key
  {
    var r := InsertObjectValue(o, key, b);
    assert HasKey(r.doc, k) <==> Get(r.doc, k).Some?;
    assert HasKey(o.doc, k) <==> Get(o.doc, k).Some?;
  }

  function BuildObjectValue(o: ObjectValue): (v: Value)
    ensures v.value.Document? && v.value.doc == o.doc
  {
    NewValue(Document(o.doc))
  }
}
