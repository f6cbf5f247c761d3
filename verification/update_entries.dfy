/** The update versions of the fields of a `huus` structure (`huus::updates`
    entries): each entry says what to do with one field and `build_update` turns
    it into an `Update` under the field's name. */
module UpdateEntries {
  import opened Bson
  import Values
  import opened Updates

  /** `PopOption`: which end of an array `$pop` removes. */
  datatype PopOption = PopFirst | PopLast

  /** `PopOption::as_number`: the end is told by the sign. */
  function PopNumber(o: PopOption): (n: Int32)
    ensures n == 1 || n == -1
    ensures n < 0 <==> o.PopFirst?
  {
    match o
    case PopFirst => -1
    case PopLast => 1
  }

  /** `Operator`: the positional operator appended to an array field,
      `Operator::None` or `Operator::First`. */
  datatype Positional = NoPosition | FirstPosition

  /** `Operator::to_string` */
  function PositionalSuffix(p: Positional): (s: string)
    ensures p.NoPosition? <==> s == ""
  {
    match p
    case NoPosition => ""
    case FirstPosition => ".$"
  }

  // ---------------------------------------------------------------------------
  // Operations

  /** `Numerical<V>` */
  datatype Numerical<V> = Inc(value: V) | Min(value: V) | Max(value: V) | Mul(value: V)

  /** `Numerical::build_update`: one instruction of the matching arithmetic
      operator, of the built value. */
  function BuildNumerical<V>(n: Numerical<V>, field: string, build: V -> Values.Value): (u: Update)
    ensures n.Inc? ==> IsSingleInstruction(u, UpdateOperator.Inc, field, build(n.value))
    ensures n.Min? ==> IsSingleInstruction(u, UpdateOperator.Min, field, build(n.value))
    ensures n.Max? ==> IsSingleInstruction(u, UpdateOperator.Max, field, build(n.value))
    ensures n.Mul? ==> IsSingleInstruction(u, UpdateOperator.Mul, field, build(n.value))
  {
    match n
    case Inc(v) => WithOperator(UpdateOperator.Inc, field, build(v))
    case Min(v) => WithOperator(UpdateOperator.Min, field, build(v))
    case Max(v) => WithOperator(UpdateOperator.Max, field, build(v))
    case Mul(v) => WithOperator(UpdateOperator.Mul, field, build(v))
  }

  /** `Field<V>` */
  datatype FieldOp<V> = Rename(newName: string) | Set(value: V) | SetOnInsert(value: V) | Unset

  /** `Field::build_update`: `$rename` carries the new name as a string and
      `$unset` the value `true`. */
  function BuildField<V>(f: FieldOp<V>, field: string, build: V -> Values.Value): (u: Update)
    ensures f.Rename? ==> IsSingleInstruction(u, UpdateOperator.Rename, field, Values.Value(String(f.newName)))
    ensures f.Set? ==> IsSingleInstruction(u, UpdateOperator.Set, field, build(f.value))
    ensures f.SetOnInsert? ==> IsSingleInstruction(u, UpdateOperator.SetOnInsert, field, build(f.value))
    ensures f.Unset? ==> IsSingleInstruction(u, UpdateOperator.Unset, field, Values.Value(Boolean(true)))
  {
    match f
    case Rename(name) => WithOperator(UpdateOperator.Rename, field, Values.NewValue(String(name)))
    case Set(v) => WithOperator(UpdateOperator.Set, field, build(v))
    case SetOnInsert(v) => WithOperator(UpdateOperator.SetOnInsert, field, build(v))
    case Unset => WithOperator(UpdateOperator.Unset, field, Values.NewValue(Boolean(true)))
  }

  /** `Element<V>`: `Element::Set`. */
  datatype ElementOp<V> = SetElement(value: V)

  /** `Element::build_update`: a `$set` instruction. */
  function BuildElement<V>(e: ElementOp<V>, field: string, build: V -> Values.Value): (u: Update)
    ensures IsSingleInstruction(u, UpdateOperator.Set, field, build(e.value))
  {
    WithOperator(UpdateOperator.Set, field, build(e.value))
  }

  /** `Array<V>` */
  datatype ArrayOp<V> = AddToSet(value: V) | Pop(option: PopOption) | Pull(value: V) | Push(value: V) | PullAll(value: V)

  /** `Array::build_update`: `$pop` carries the end as the 32-bit number -1 or 1. */
  function BuildArrayOp<V>(a: ArrayOp<V>, field: string, build: V -> Values.Value): (u: Update)
    ensures a.AddToSet? ==> IsSingleInstruction(u, UpdateOperator.AddToSet, field, build(a.value))
    ensures a.Pop? ==> IsSingleInstruction(u, UpdateOperator.Pop, field, Values.Value(I32(PopNumber(a.option))))
    ensures a.Pull? ==> IsSingleInstruction(u, UpdateOperator.Pull, field, build(a.value))
    ensures a.Push? ==> IsSingleInstruction(u, UpdateOperator.Push, field, build(a.value))
    ensures a.PullAll? ==> IsSingleInstruction(u, UpdateOperator.PullAll, field, build(a.value))
  {
    match a
    case AddToSet(v) => WithOperator(UpdateOperator.AddToSet, field, build(v))
    case Pop(o) => WithOperator(UpdateOperator.Pop, field, Values.NewValue(I32(PopNumber(o))))
    case Pull(v) => WithOperator(UpdateOperator.Pull, field, build(v))
    case Push(v) => WithOperator(UpdateOperator.Push, field, build(v))
    case PullAll(v) => WithOperator(UpdateOperator.PullAll, field, build(v))
  }

  // ---------------------------------------------------------------------------
  // Entries

  /** `F64Entry`, `I32Entry` and `I64Entry`: a number field. `into` is the BSON
      variant of the number; `build_value` of a number wraps that variant. */
  datatype NumberEntry<T> =
    | NumberValue(value: T)
    | NumberNumerical(numerical: Numerical<T>)
    | NumberField(field: FieldOp<T>)
    | NumberEmpty

  function BuildNumberEntry<T>(e: NumberEntry<T>, field: string, into: T -> Bson): (u: Update)
    ensures e.NumberValue? ==> IsPlainValue(u, field, into(e.value))
    ensures e.NumberNumerical? ==> u == BuildNumerical(e.numerical, field, x => Values.BuildValueOf(x, into))
    ensures e.NumberField? ==> u == BuildField(e.field, field, x => Values.BuildValueOf(x, into))
    ensures e.NumberEmpty? ==> IsEmptyUpdate(u)
  {
    match e
    case NumberValue(v) => WithField(field, into(v))
    case NumberNumerical(n) => BuildNumerical(n, field, x => Values.BuildValueOf(x, into))
    case NumberField(f) => BuildField(f, field, x => Values.BuildValueOf(x, into))
    case NumberEmpty => EmptyUpdate()
  }

  /** `StringEntry`, `ObjectIdEntry`, `BooleanEntry`, `EnumEntry`, `HashMapEntry`
      and `BTreeMapEntry`: a field that is set whole. The value is written with
      `into`; the field operations carry values of type `F` built with `build`
      (for an enum `F` is `String`, for the others the field's own type). */
  datatype PlainEntry<T, F> =
    | PlainValue(value: T)
    | PlainField(field: FieldOp<F>)
    | PlainEmpty

  function BuildPlainEntry<T, F>(e: PlainEntry<T, F>, field: string, into: T -> Bson, build: F -> Values.Value): (u: Update)
    ensures e.PlainValue? ==> IsPlainValue(u, field, into(e.value))
    ensures e.PlainField? ==> u == BuildField(e.field, field, build)
    ensures e.PlainEmpty? ==> IsEmptyUpdate(u)
  {
    match e
    case PlainValue(v) => WithField(field, into(v))
    case PlainField(f) => BuildField(f, field, build)
    case PlainEmpty => EmptyUpdate()
  }

  /** `DateEntry` and `TimeStampEntry`: a field that `$currentDate` can set, as the
      BSON type named `typeName` ("date" or "timestamp"). */
  datatype DatedEntry<T> =
    | DatedValue(value: T)
    | CurrentDate
    | DatedField(field: FieldOp<T>)
    | DatedEmpty

  function BuildDatedEntry<T>(e: DatedEntry<T>, field: string, into: T -> Bson, typeName: string): (u: Update)
    ensures e.DatedValue? ==> IsPlainValue(u, field, into(e.value))
    ensures e.CurrentDate? ==> IsSingleInstruction(u, UpdateOperator.CurrentDate, field, Values.Value(String(typeName)))
    ensures e.DatedField? ==> u == BuildField(e.field, field, x => Values.BuildValueOf(x, into))
    ensures e.DatedEmpty? ==> IsEmptyUpdate(u)
  {
    match e
    case DatedValue(v) => WithField(field, into(v))
    case CurrentDate => WithOperator(UpdateOperator.CurrentDate, field, Values.NewValue(String(typeName)))
    case DatedField(f) => BuildField(f, field, x => Values.BuildValueOf(x, into))
    case DatedEmpty => EmptyUpdate()
  }

  /** `DateEntry`: `$currentDate` with type "date". */
  function BuildDateEntry(e: DatedEntry<Date>, field: string): (u: Update)
    ensures e.CurrentDate? ==> IsSingleInstruction(u, UpdateOperator.CurrentDate, field, Values.Value(String("date")))
    ensures e.DatedValue? ==> IsPlainValue(u, field, UtcDatetime(e.value))
  {
    BuildDatedEntry(e, field, d => UtcDatetime(d), "date")
  }

  /** `ObjectEntry<U, V>`: a nested structure, set whole (`Value`), updated
      member by member (`Dot`, whose update `buildInner` builds under the same
      field), or handled by a field operation. */
  datatype ObjectEntry<U, V> =
    | ObjectValue(value: V)
    | Dot(update: U)
    | ObjectField(field: FieldOp<V>)
    | ObjectEmpty

  function BuildObjectEntry<U, V>(e: ObjectEntry<U, V>, field: string,
                                  buildInner: (U, string) -> Update, build: V -> Values.Value): (u: Update)
    ensures e.ObjectValue? ==> IsPlainValue(u, field, Values.IntoBson(build(e.value)))
    ensures e.Dot? ==> u == buildInner(e.update, field)
    ensures e.ObjectField? ==> u == BuildField(e.field, field, build)
    ensures e.ObjectEmpty? ==> IsEmptyUpdate(u)
  {
    match e
    case ObjectValue(v) => WithField(field, Values.IntoBson(build(v)))
    case Dot(inner) => buildInner(inner, field)
    case ObjectField(f) => BuildField(f, field, build)
    case ObjectEmpty => EmptyUpdate()
  }

  /** `ArrayEntry<V>`: an array field; array and element operations may address
      the first matched element through the positional suffix. */
  datatype ArrayEntry<V> =
    | ArrayOperation(operation: ArrayOp<V>, position: Positional)
    | ArrayNumerical(numerical: Numerical<V>)
    | ArrayElement(element: ElementOp<V>, position: Positional)
    | ArrayEmpty

  function BuildArrayEntry<V>(e: ArrayEntry<V>, field: string, build: V -> Values.Value): (u: Update)
    ensures e.ArrayOperation? ==> u == BuildArrayOp(e.operation, field + PositionalSuffix(e.position), build)
    ensures e.ArrayNumerical? ==> u == BuildNumerical(e.numerical, field, build)
    ensures e.ArrayElement? ==> IsSingleInstruction(u, UpdateOperator.Set, field + PositionalSuffix(e.position), build(e.element.value))
    ensures e.ArrayEmpty? ==> IsEmptyUpdate(u)
  {
    match e
    case ArrayOperation(a, p) => BuildArrayOp(a, field + PositionalSuffix(p), build)
    case ArrayNumerical(n) => BuildNumerical(n, field, build)
    case ArrayElement(el, p) => BuildElement(el, field + PositionalSuffix(p), build)
    case ArrayEmpty => EmptyUpdate()
  }

  // ---------------------------------------------------------------------------
  // Setters: each replaces the whole entry, whatever it held

  /** `FieldUpdate::{rename, set, set_on_insert, unset}` of the enum, map,
      ObjectId and boolean entries. */
  function PlainFieldUpdate<T, F>(e: PlainEntry<T, F>, f: FieldOp<F>): (r: PlainEntry<T, F>)
    ensures r.PlainField? && r.field == f
  {
    PlainField(f)
  }

  /** `FieldUpdate` of `DateEntry`. */
  function DatedFieldUpdate<T>(e: DatedEntry<T>, f: FieldOp<T>): (r: DatedEntry<T>)
    ensures r.DatedField? && r.field == f
  {
    DatedField(f)
  }

  /** `NumericalUpdate::{inc, min, max, mul}` of `I32Entry`. */
  function NumberNumericalUpdate<T>(e: NumberEntry<T>, n: Numerical<T>): (r: NumberEntry<T>)
    ensures r.NumberNumerical? && r.numerical == n
  {
    NumberNumerical(n)
  }

  /** `ObjectUpdate::value` */
  function ObjectSetValue<U, V>(e: ObjectEntry<U, V>, v: V): (r: ObjectEntry<U, V>)
    ensures r.ObjectValue? && r.value == v
  {
    ObjectValue(v)
  }

  /** `ObjectUpdate::dot` */
  function ObjectSetDot<U, V>(e: ObjectEntry<U, V>, update: U): (r: ObjectEntry<U, V>)
    ensures r.Dot? && r.update == update
  {
    Dot(update)
  }

  /** `FieldUpdate` of `ObjectEntry`. */
  function ObjectFieldUpdate<U, V>(e: ObjectEntry<U, V>, f: FieldOp<V>): (r: ObjectEntry<U, V>)
    ensures r.ObjectField? && r.field == f
  {
    ObjectField(f)
  }

  /** `ArrayUpdate::{add_to_set, pop, pull, push, pull_all}` */
  function ArraySetOperation<V>(e: ArrayEntry<V>, a: ArrayOp<V>, p: Positional): (r: ArrayEntry<V>)
    ensures r.ArrayOperation? && r.operation == a && r.position == p
  {
    ArrayOperation(a, p)
  }

  /** `ElementUpdate::set` */
  function ArraySetElement<V>(e: ArrayEntry<V>, v: V, p: Positional): (r: ArrayEntry<V>)
    ensures r.ArrayElement? && r.element == SetElement(v) && r.position == p
  {
    ArrayElement(SetElement(v), p)
  }

  // ---------------------------------------------------------------------------
  // Rendered documents

  /** Every operation renders as `{operator: {field: value}}` under its own
      operator's name. */
  lemma FieldOpIntoDoc<V>(f: FieldOp<V>, field: string, build: V -> Values.Value)
    ensures f.Unset? ==> Keys(UpdateIntoDoc(BuildField(f, field, build))) == ["$unset"]
    ensures f.Unset? ==> IsSingleton(OperatorDoc(Instructions(BuildField(f, field, build), UpdateOperator.Unset)), field, Boolean(true))
    ensures f.Rename? ==> Keys(UpdateIntoDoc(BuildField(f, field, build))) == ["$rename"]
    ensures f.Rename? ==> IsSingleton(OperatorDoc(Instructions(BuildField(f, field, build), UpdateOperator.Rename)), field, String(f.newName))
  {
    if f.Unset? {
      UnsetIntoDoc(f, field, build);
    } else if f.Rename? {
      RenameIntoDoc(f, field, build);
    }
  }

  /** `Field::Unset` renders as `{"$unset": {field: true}}`. */
  lemma UnsetIntoDoc<V>(f: FieldOp<V>, field: string, build: V -> Values.Value)
    requires f.Unset?
    ensures Keys(UpdateIntoDoc(BuildField(f, field, build))) == ["$unset"]
    ensures IsSingleton(OperatorDoc(Instructions(BuildField(f, field, build), UpdateOperator.Unset)), field, Boolean(true))
  {
    SingleInstructionIntoDoc(BuildField(f, field, build), UpdateOperator.Unset, field, Values.Value(Boolean(true)));
  }

  /** `Field::Rename` renders as `{"$rename": {field: new name}}`. */
  lemma RenameIntoDoc<V>(f: FieldOp<V>, field: string, build: V -> Values.Value)
    requires f.Rename?
    ensures Keys(UpdateIntoDoc(BuildField(f, field, build))) == ["$rename"]
    ensures IsSingleton(OperatorDoc(Instructions(BuildField(f, field, build), UpdateOperator.Rename)), field, String(f.newName))
  {
    SingleInstructionIntoDoc(BuildField(f, field, build), UpdateOperator.Rename, field, Values.Value(String(f.newName)));
  }

  /** `$pop` on the first matched element: `{"$pop": {field + ".$": n}}` with n
      telling the end. */
  lemma PopEntryIntoDoc<V>(o: PopOption, p: Positional, field: string, build: V -> Values.Value)
    ensures Keys(UpdateIntoDoc(BuildArrayEntry(ArrayOperation(ArrayOp.Pop(o), p), field, build))) == ["$pop"]
    ensures IsSingleton(OperatorDoc(Instructions(BuildArrayEntry(ArrayOperation(ArrayOp.Pop(o), p), field, build), UpdateOperator.Pop)),
                        field + PositionalSuffix(p), I32(PopNumber(o)))
  {
    var u := BuildArrayEntry(ArrayOperation(ArrayOp.Pop(o), p), field, build);
    SingleInstructionIntoDoc(u, UpdateOperator.Pop, field + PositionalSuffix(p), Values.Value(I32(PopNumber(o))));
  }

  /** A value entry renders as the plain document `{field: value}`. */
  lemma PlainValueIntoDoc(u: Update, field: string, b: Bson)
    requires IsPlainValue(u, field, b)
    ensures IsSingleton(UpdateIntoDoc(u), field, b)
  {
    NoInstructionsIntoDoc(u);
  }

  /** An empty entry renders as the empty document. */
  lemma EmptyEntryIntoDoc(u: Update)
    requires IsEmptyUpdate(u)
    ensures Keys(UpdateIntoDoc(u)) == []
  {
    NoInstructionsIntoDoc(u);
  }
}
