/** Filter documents (`huus::filters`): a `Filter` wraps a document; every filter
    entry of a generated schema type builds one, given the dotted field name it
    applies to. */
module Filters {
  import opened Wrappers
  import opened Seqs
  import opened Bson
  import Types
  import Text
  import Conversions

  // ---------------------------------------------------------------------------
  // Filter

  datatype Filter = Filter(doc: Doc)

  /** `Filter::empty` */
  function EmptyFilter(): (f: Filter)
    ensures Keys(f.doc) == []
  {
    Filter(EmptyDoc)
  }

  /** `Filter::with_field`: the filter `{field: value}`. */
  function WithField(field: string, value: Bson): (f: Filter)
    ensures IsSingleton(f.doc, field, value)
  {
    Filter(SingletonDoc(field, value))
  }

  function FilterIntoDoc(f: Filter): Doc { f.doc }

  function FilterIntoBson(f: Filter): (b: Bson)
    ensures b.Document? && b.doc == f.doc
  {
    Document(f.doc)
  }

  /** `Filter::incorporate`: inserts the other filter's entries in order, so a key
      of the other filter overwrites the same key here. */
  function Incorporate(f: Filter, other: Filter): (r: Filter)
    ensures forall k :: HasKey(r.doc, k) <==> HasKey(f.doc, k) || HasKey(other.doc, k)
  {
    var r := Filter(InsertAll(f.doc, other.doc.entries));
    assert forall k :: HasKey(r.doc, k) <==> HasKey(f.doc, k) || HasKey(other.doc, k) by {
      forall k ensures HasKey(r.doc, k) <==> HasKey(f.doc, k) || HasKey(other.doc, k) {
        InsertAllHasKey(f.doc, other.doc.entries, k);
      }
    }
    r
  }

  /** A key of the incorporated filter takes its value from there; any other key
      keeps its value. Neither filter having repeated keys, the result has none. */
  lemma IncorporateValues(f: Filter, other: Filter, k: string)
    requires UniqueKeys(other.doc)
    ensures HasKey(other.doc, k) ==> Get(Incorporate(f, other).doc, k) == Get(other.doc, k)
    ensures !HasKey(other.doc, k) ==> Get(Incorporate(f, other).doc, k) == Get(f.doc, k)
    ensures UniqueKeys(f.doc) ==> UniqueKeys(Incorporate(f, other).doc)
  {
    InsertAllGet(f.doc, other.doc.entries, k);
    LastLookupDistinct(other.doc.entries, k);
    if UniqueKeys(f.doc) {
      InsertAllUnique(f.doc, other.doc.entries);
    }
  }

  /** Incorporating the empty filter changes nothing; incorporating into the empty
      filter gives the other filter, when its keys are distinct. */
  lemma IncorporateEmpty(f: Filter)
    ensures Incorporate(f, EmptyFilter()) == f
    ensures UniqueKeys(f.doc) ==> Incorporate(EmptyFilter(), f) == f
  {
    if UniqueKeys(f.doc) {
      assert EmptyDoc.entries + f.doc.entries == f.doc.entries;
      InsertAllFresh(EmptyDoc, f.doc.entries);
    }
  }

  /** `f` is `{field: {op: operand}}`. */
  predicate IsOperatorFilter(f: Filter, field: string, op: string, operand: Bson) {
    Keys(f.doc) == [field] && Get(f.doc, field).Some? && Get(f.doc, field).value.Document? &&
    IsSingleton(Get(f.doc, field).value.doc, op, operand)
  }

  /** `{field: {op: operand}}` */
  function OperatorFilter(field: string, op: string, operand: Bson): (f: Filter)
    ensures IsOperatorFilter(f, field, op, operand)
  {
    WithField(field, Document(SingletonDoc(op, operand)))
  }

  // ---------------------------------------------------------------------------
  // Comparison, Logical, Element and Array filters

  datatype Comparison<B> =
    | Eq(v: B) | Gt(v: B) | Gte(v: B) | In(vs: seq<B>) | Lt(v: B) | Lte(v: B) | Ne(v: B) | Nin(vs: seq<B>)

  function ComparisonOperator<B>(c: Comparison<B>): string {
    match c
    case Eq(_) => "$eq"
    case Gt(_) => "$gt"
    case Gte(_) => "$gte"
    case In(_) => "$in"
    case Lt(_) => "$lt"
    case Lte(_) => "$lte"
    case Ne(_) => "$ne"
    case Nin(_) => "$nin"
  }

  /** `build_filter` for `Comparison`: `{field: {"$op": value}}`, where `$in` and
      `$nin` take the array of the converted values in their order. */
  function BuildComparison<B>(c: Comparison<B>, field: string, into: B -> Bson): (f: Filter)
    ensures c.In? || c.Nin? ==> IsOperatorFilter(f, field, ComparisonOperator(c), Conversions.VecIntoBson(c.vs, into))
    ensures !(c.In? || c.Nin?) ==> IsOperatorFilter(f, field, ComparisonOperator(c), into(c.v))
  {
    match c
    case In(vs) => OperatorFilter(field, "$in", Conversions.VecIntoBson(vs, into))
    case Nin(vs) => OperatorFilter(field, "$nin", Conversions.VecIntoBson(vs, into))
    case _ => OperatorFilter(field, ComparisonOperator(c), into(c.v))
  }

  datatype Logical<F> = And(fs: seq<F>) | Not(f: F) | Nor(fs: seq<F>) | Or(fs: seq<F>)

  function LogicalOperator<F>(l: Logical<F>): string {
    match l
    case And(_) => "$and"
    case Not(_) => "$not"
    case Nor(_) => "$nor"
    case Or(_) => "$or"
  }

  /** The BSON documents of the sub-filters, in order. */
  function FiltersIntoArray(subs: seq<Filter>): (items: seq<Bson>)
    ensures |items| == |subs|
    ensures forall i :: 0 <= i < |subs| ==> items[i] == Document(subs[i].doc)
    decreases |subs|
  {
    if |subs| == 0 then [] else [Document(subs[0].doc)] + FiltersIntoArray(subs[1..])
  }

  /** The filter of a logical operator over already built sub-filters:
      `{"$and"|"$nor"|"$or": [sub...]}` or `{"$not": sub}`. The operator, not the
      field, is the key. */
  function AssembleLogical(l: Logical<Filter>): (f: Filter)
    ensures !l.Not? ==> IsSingleton(f.doc, LogicalOperator(l), Array(FiltersIntoArray(l.fs)))
    ensures l.Not? ==> IsSingleton(f.doc, "$not", Document(l.f.doc))
  {
    match l
    case Not(sub) => WithField("$not", FilterIntoBson(sub))
    case _ => WithField(LogicalOperator(l), Array(FiltersIntoArray(l.fs)))
  }

  /** Builds every sub-filter with `build`. */
  function MapFilters<F>(fs: seq<F>, build: F -> Filter): (subs: seq<Filter>)
    ensures |subs| == |fs|
    ensures forall i :: 0 <= i < |fs| ==> subs[i] == build(fs[i])
    decreases |fs|
  {
    if |fs| == 0 then [] else [build(fs[0])] + MapFilters(fs[1..], build)
  }

  function MapLogical<F>(l: Logical<F>, build: F -> Filter): (r: Logical<Filter>)
    ensures LogicalOperator(r) == LogicalOperator(l)
    ensures l.Not? ==> r == Not(build(l.f))
    ensures !l.Not? ==> !r.Not? && r.fs == MapFilters(l.fs, build)
  {
    match l
    case And(fs) => And(MapFilters(fs, build))
    case Not(f) => Not(build(f))
    case Nor(fs) => Nor(MapFilters(fs, build))
    case Or(fs) => Or(MapFilters(fs, build))
  }

  /** `build_filter` for the top-level `Filters`: each sub-filter is built on its
      own, without a field. */
  function BuildFilters<F>(l: Logical<F>, build: F -> Filter): (f: Filter)
    ensures !l.Not? ==> (Keys(f.doc) == [LogicalOperator(l)] &&
      Get(f.doc, LogicalOperator(l)).Some? && Get(f.doc, LogicalOperator(l)).value.Array? &&
      |Get(f.doc, LogicalOperator(l)).value.items| == |l.fs| &&
      forall i :: 0 <= i < |l.fs| ==> Get(f.doc, LogicalOperator(l)).value.items[i] == Document(build(l.fs[i]).doc))
    ensures l.Not? ==> IsSingleton(f.doc, "$not", Document(build(l.f).doc))
  {
    AssembleLogical(MapLogical(l, build))
  }

  /** `build_filter` for `Logical`: each sub-filter is built with the same field. */
  function BuildLogical<F>(l: Logical<F>, field: string, build: (F, string) -> Filter): (f: Filter)
    ensures !l.Not? ==> (Keys(f.doc) == [LogicalOperator(l)] &&
      Get(f.doc, LogicalOperator(l)).Some? && Get(f.doc, LogicalOperator(l)).value.Array? &&
      |Get(f.doc, LogicalOperator(l)).value.items| == |l.fs| &&
      forall i :: 0 <= i < |l.fs| ==>
        Get(f.doc, LogicalOperator(l)).value.items[i] == Document(build(l.fs[i], field).doc))
    ensures l.Not? ==> IsSingleton(f.doc, "$not", Document(build(l.f, field).doc))
  {
    AssembleLogical(MapLogical(l, x => build(x, field)))
  }

  datatype Element = Exists(present: bool) | TypeIs(t: Types.Type)

  /** `build_filter` for `Element`: `{field: {"$exists": b}}` or
      `{field: {"$type": code}}`. */
  function BuildElement(e: Element, field: string): (f: Filter)
    ensures e.Exists? ==> IsOperatorFilter(f, field, "$exists", Boolean(e.present))
    ensures e.TypeIs? ==> IsOperatorFilter(f, field, "$type", I32(Types.Code(e.t)))
  {
    match e
    case Exists(b) => OperatorFilter(field, "$exists", Boolean(b))
    case TypeIs(t) => OperatorFilter(field, "$type", I32(Types.Code(t)))
  }

  /** `usize as i32`: the low 32 bits read as a signed number. */
  function UsizeAsI32(n: nat): (r: Int32)
    requires n <= Text.UsizeMax
    ensures (n - r as int) % 0x1_0000_0000 == 0
    ensures n < 0x8000_0000 ==> r as int == n
  {
    var low := n % 0x1_0000_0000;
    if low < 0x8000_0000 then low as Int32 else (low - 0x1_0000_0000) as Int32
  }

  datatype ArrayFilter<B> = All(vs: seq<B>) | ElemMatch(vs: seq<B>) | Size(size: nat)

  predicate WellFormedArrayFilter<B>(a: ArrayFilter<B>) {
    a.Size? ==> a.size <= Text.UsizeMax
  }

  /** `build_filter` for `Array`: `$all` and `$elemMatch` take the converted
      values; `$size` takes the size cast to `i32`. */
  function BuildArrayFilter<B>(a: ArrayFilter<B>, field: string, into: B -> Bson): (f: Filter)
    requires WellFormedArrayFilter(a)
    ensures a.All? ==> IsOperatorFilter(f, field, "$all", Conversions.VecIntoBson(a.vs, into))
    ensures a.ElemMatch? ==> IsOperatorFilter(f, field, "$elemMatch", Conversions.VecIntoBson(a.vs, into))
    ensures a.Size? ==> IsOperatorFilter(f, field, "$size", I32(UsizeAsI32(a.size)))
  {
    match a
    case All(vs) => OperatorFilter(field, "$all", Conversions.VecIntoBson(vs, into))
    case ElemMatch(vs) => OperatorFilter(field, "$elemMatch", Conversions.VecIntoBson(vs, into))
    case Size(n) => OperatorFilter(field, "$size", I32(UsizeAsI32(n)))
  }

  // ---------------------------------------------------------------------------
  // Entries

  /** `F64Entry`, `StringEntry`, `DateEntry`, `I32Entry`, `TimeStampEntry`,
      `I64Entry` (with `V` and `C` the same type) and `EnumEntry<K>` (with `V` the
      key type and `C` strings). */
  datatype ScalarEntry<V, C> =
    | ScalarValue(v: V)
    | ScalarComparison(c: Comparison<C>)
    | ScalarElement(e: Element)
    | ScalarEmpty

  /** `build_filter` for the scalar entries: a value gives `{field: value}`,
      `Empty` gives the empty filter. */
  function BuildScalarEntry<V, C>(e: ScalarEntry<V, C>, field: string, valueInto: V -> Bson, into: C -> Bson): (f: Filter)
    ensures e.ScalarValue? ==> IsSingleton(f.doc, field, valueInto(e.v))
    ensures e.ScalarComparison? ==> f == BuildComparison(e.c, field, into)
    ensures e.ScalarElement? ==> f == BuildElement(e.e, field)
    ensures e.ScalarEmpty? <==> Keys(f.doc) == []
  {
    match e
    case ScalarValue(v) => WithField(field, valueInto(v))
    case ScalarComparison(c) => BuildComparison(c, field, into)
    case ScalarElement(el) => BuildElement(el, field)
    case ScalarEmpty => EmptyFilter()
  }

  /** The value of an `EnumEntry` is written as the string of its key. */
  function EnumValueIntoBson<K>(toStr: K -> string): K -> Bson {
    k => String(toStr(k))
  }

  /** `ObjectIdEntry`, `BooleanEntry` and `BsonEntry`: a value or an element test. */
  datatype ValueEntry<V> = PlainValue(v: V) | PlainElement(e: Element) | PlainEmpty

  function BuildValueEntry<V>(e: ValueEntry<V>, field: string, into: V -> Bson): (f: Filter)
    ensures e.PlainValue? ==> IsSingleton(f.doc, field, into(e.v))
    ensures e.PlainElement? ==> f == BuildElement(e.e, field)
    ensures e.PlainEmpty? <==> Keys(f.doc) == []
  {
    match e
    case PlainValue(v) => WithField(field, into(v))
    case PlainElement(el) => BuildElement(el, field)
    case PlainEmpty => EmptyFilter()
  }

  /** `NullEntry` */
  datatype NullEntry = NullElement(e: Element) | NullEmpty

  function BuildNullEntry(e: NullEntry, field: string): (f: Filter)
    ensures e.NullElement? ==> f == BuildElement(e.e, field)
    ensures e.NullEmpty? <==> Keys(f.doc) == []
  {
    match e
    case NullElement(el) => BuildElement(el, field)
    case NullEmpty => EmptyFilter()
  }

  /** `Option<Entry>`: `None` builds the empty filter. */
  function BuildOptionalEntry<E>(o: Option<E>, field: string, build: (E, string) -> Filter): (f: Filter)
    ensures o.None? ==> Keys(f.doc) == []
    ensures o.Some? ==> f == build(o.value, field)
  {
    match o
    case None => EmptyFilter()
    case Some(e) => build(e, field)
  }

  /** `ObjectEntry<F, B>`: the entry of an embedded struct or union; `Dot` holds the
      embedded type's own filter. */
  datatype ObjectEntry<F, B> =
    | ObjectValue(v: B)
    | ObjectDot(dot: F)
    | ObjectLogical(l: Logical<ObjectEntry<F, B>>)
    | ObjectElement(e: Element)
    | ObjectEmpty

  function BuildObjectEntry<F, B>(e: ObjectEntry<F, B>, field: string, buildDot: (F, string) -> Filter,
                                  into: B -> Bson): (f: Filter)
    ensures e.ObjectValue? ==> IsSingleton(f.doc, field, into(e.v))
    ensures e.ObjectDot? ==> f == buildDot(e.dot, field)
    ensures e.ObjectLogical? && e.l.Not? ==>
      IsSingleton(f.doc, "$not", Document(BuildObjectEntry(e.l.f, field, buildDot, into).doc))
    ensures e.ObjectLogical? && !e.l.Not? ==>
      IsSingleton(f.doc, LogicalOperator(e.l), Array(FiltersIntoArray(BuildObjectEntries(e.l.fs, field, buildDot, into))))
    ensures e.ObjectElement? ==> f == BuildElement(e.e, field)
    ensures e.ObjectEmpty? ==> Keys(f.doc) == []
    decreases e, 1
  {
    match e
    case ObjectValue(v) => WithField(field, into(v))
    case ObjectDot(d) => buildDot(d, field)
    case ObjectLogical(l) =>
      (match l
       case Not(sub) => AssembleLogical(Not(BuildObjectEntry(sub, field, buildDot, into)))
       case And(fs) => AssembleLogical(And(BuildObjectEntries(fs, field, buildDot, into)))
       case Nor(fs) => AssembleLogical(Nor(BuildObjectEntries(fs, field, buildDot, into)))
       case Or(fs) => AssembleLogical(Or(BuildObjectEntries(fs, field, buildDot, into))))
    case ObjectElement(el) => BuildElement(el, field)
    case ObjectEmpty => EmptyFilter()
  }

  function BuildObjectEntries<F, B>(es: seq<ObjectEntry<F, B>>, field: string, buildDot: (F, string) -> Filter,
                                    into: B -> Bson): (subs: seq<Filter>)
    ensures |subs| == |es|
    ensures forall i :: 0 <= i < |es| ==> subs[i] == BuildObjectEntry(es[i], field, buildDot, into)
    decreases es, 0
  {
    if |es| == 0 then []
    else [BuildObjectEntry(es[0], field, buildDot, into)] + BuildObjectEntries(es[1..], field, buildDot, into)
  }

  /** `BTreeMapEntry<K, B>` and `HashMapEntry<K, B>`; `M` is the map type. */
  datatype MapEntry<M> =
    | MapValue(m: M)
    | MapLogical(l: Logical<MapEntry<M>>)
    | MapElement(e: Element)
    | MapEmpty

  function BuildMapEntry<M>(e: MapEntry<M>, field: string, into: M -> Bson): (f: Filter)
    ensures e.MapValue? ==> IsSingleton(f.doc, field, into(e.m))
    ensures e.MapLogical? && e.l.Not? ==>
      IsSingleton(f.doc, "$not", Document(BuildMapEntry(e.l.f, field, into).doc))
    ensures e.MapLogical? && !e.l.Not? ==>
      IsSingleton(f.doc, LogicalOperator(e.l), Array(FiltersIntoArray(BuildMapEntries(e.l.fs, field, into))))
    ensures e.MapElement? ==> f == BuildElement(e.e, field)
    ensures e.MapEmpty? ==> Keys(f.doc) == []
    decreases e, 1
  {
    match e
    case MapValue(m) => WithField(field, into(m))
    case MapLogical(l) =>
      (match l
       case Not(sub) => AssembleLogical(Not(BuildMapEntry(sub, field, into)))
       case And(fs) => AssembleLogical(And(BuildMapEntries(fs, field, into)))
       case Nor(fs) => AssembleLogical(Nor(BuildMapEntries(fs, field, into)))
       case Or(fs) => AssembleLogical(Or(BuildMapEntries(fs, field, into))))
    case MapElement(el) => BuildElement(el, field)
    case MapEmpty => EmptyFilter()
  }

  function BuildMapEntries<M>(es: seq<MapEntry<M>>, field: string, into: M -> Bson): (subs: seq<Filter>)
    ensures |subs| == |es|
    ensures forall i :: 0 <= i < |es| ==> subs[i] == BuildMapEntry(es[i], field, into)
    decreases es, 0
  {
    if |es| == 0 then [] else [BuildMapEntry(es[0], field, into)] + BuildMapEntries(es[1..], field, into)
  }

  /** `ArrayEntry<F, B>`: the entry of a `Vec` member. */
  datatype ArrayEntry<F, B> =
    | ArrayValue(v: B)
    | ArrayDot(dot: F)
    | ArrayOf(a: ArrayFilter<B>)
    | ArrayComparison(c: Comparison<B>)
    | ArrayElement(e: Element)
    | ArrayEmpty

  predicate WellFormedArrayEntry<F, B>(e: ArrayEntry<F, B>) {
    e.ArrayOf? ==> WellFormedArrayFilter(e.a)
  }

  function BuildArrayEntry<F, B>(e: ArrayEntry<F, B>, field: string, buildDot: (F, string) -> Filter,
                                 into: B -> Bson): (f: Filter)
    requires WellFormedArrayEntry(e)
    ensures e.ArrayValue? ==> IsSingleton(f.doc, field, into(e.v))
    ensures e.ArrayDot? ==> f == buildDot(e.dot, field)
    ensures e.ArrayOf? ==> f == BuildArrayFilter(e.a, field, into)
    ensures e.ArrayComparison? ==> f == BuildComparison(e.c, field, into)
    ensures e.ArrayElement? ==> f == BuildElement(e.e, field)
    ensures e.ArrayEmpty? ==> Keys(f.doc) == []
  {
    match e
    case ArrayValue(v) => WithField(field, into(v))
    case ArrayDot(d) => buildDot(d, field)
    case ArrayOf(a) => BuildArrayFilter(a, field, into)
    case ArrayComparison(c) => BuildComparison(c, field, into)
    case ArrayElement(el) => BuildElement(el, field)
    case ArrayEmpty => EmptyFilter()
  }

  /** `From<Vec<B>> for ArrayEntry`: a vector means `$all`. */
  function ArrayEntryFromVec<F, B>(v: seq<B>): (e: ArrayEntry<F, B>)
    ensures e.ArrayOf? && e.a.All? && e.a.vs == v
  {
    ArrayOf(All(v))
  }

  /** A vector converted into an array entry filters with `$all` over its values,
      in order. */
  lemma ArrayEntryFromVecFilter<F, B>(v: seq<B>, field: string, buildDot: (F, string) -> Filter, into: B -> Bson)
    ensures IsOperatorFilter(BuildArrayEntry(ArrayEntryFromVec<F, B>(v), field, buildDot, into),
                             field, "$all", Conversions.VecIntoBson(v, into))
  {
  }

  /** The scalar `From` conversions give the `Value` variant. */
  function ScalarEntryFrom<V, C>(v: V): (e: ScalarEntry<V, C>)
    ensures e.ScalarValue? && e.v == v
  {
    ScalarValue(v)
  }
}
