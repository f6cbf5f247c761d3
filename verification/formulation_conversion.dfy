/** The conversions of the query-formulation validator
    (`huus_macros_support/src/formulation/validator.rs`): a template is
    checked against the schema and turned into an object, and every problem
    met is reported, in the order it was met. Nested problems come before the
    problem of the field that holds them. */
module FormulationConversion {
  import opened Wrappers
  import opened Schema
  import opened FormulationOutput
  import opened FormulationInput
  import opened FormulationValidator

  /** A result together with the problems reported while computing it. */
  datatype Reported<T> = Reported(result: T, problems: seq<Problem>)

  /** What a run of fields gives: the accepted fields, the problems, and the
      composed attributes that resolved to a member. */
  datatype FieldsOutcome = FieldsOutcome(fields: seq<FormField>, problems: seq<Problem>, visited: set<string>)

  const NoFields: FieldsOutcome := FieldsOutcome([], [], {})

  /** One run of fields followed by another. */
  function Combine(a: FieldsOutcome, b: FieldsOutcome): (r: FieldsOutcome)
    ensures |r.fields| == |a.fields| + |b.fields| && |r.problems| == |a.problems| + |b.problems|
  {
    FieldsOutcome(a.fields + b.fields, a.problems + b.problems, a.visited + b.visited)
  }

  /** Entity information that belongs to the schema. */
  predicate InfoIn(s: Schema, info: VariantInfo) {
    info.EntityInfo? ==> info.entity in s.entities
  }

  /** `convert_object`: each field is checked for its shape, looked up and its
      value converted; then a data document must have named every required
      member. */
  function ConvertObject(s: Schema, lits: LiteralParsers, st: Struct, o: ObjectTemplate, conv: Conversion): (r: Reported<FormObject>)
    requires StructEntity(st) in s.entities && FieldsHaveParts(o.fields)
    ensures |r.result.fields| <= |o.fields| <= |r.result.fields| + |r.problems|
    decreases o, 0
  {
    var out := ConvertFields(s, lits, st, o.fields, conv);
    Reported(FormObject(out.fields),
             out.problems + (if RequiredMembers(st, conv) <= out.visited then [] else [FieldsMissing]))
  }

  /** The fields of an object, in order. Every field is either kept or
      reported at least once. */
  function ConvertFields(s: Schema, lits: LiteralParsers, st: Struct, fs: seq<FieldTemplate>, conv: Conversion): (r: FieldsOutcome)
    requires StructEntity(st) in s.entities && FieldsHaveParts(fs)
    ensures |r.fields| <= |fs| <= |r.fields| + |r.problems|
    decreases fs, 0
  {
    if |fs| == 0 then NoFields
    else Combine(ConvertField(s, lits, st, fs[0], conv), ConvertFields(s, lits, st, fs[1..], conv))
  }

  /** One field: a multi-part attribute in a data or replacement document is
      reported and skipped; an attribute that does not resolve is reported,
      a lookup that panics recorded as the panic;
      otherwise the attribute counts as visited even if its value is refused. */
  function ConvertField(s: Schema, lits: LiteralParsers, st: Struct, f: FieldTemplate, conv: Conversion): (r: FieldsOutcome)
    requires StructEntity(st) in s.entities && FieldHasParts(f)
    ensures |r.fields| <= 1 && (|r.fields| == 0 ==> |r.problems| > 0)
    ensures |r.fields| == 1 ==> r.fields[0].attr == IntoAttribute(f.attr)
    ensures VerifyAttribute(f.attr, conv).Err? ==> r == FieldsOutcome([], [AttrWithDots], {})
    ensures VerifyAttribute(f.attr, conv).Ok? && FindMember(s, st, f.attr).Err? ==>
              r == FieldsOutcome([], [FindMember(s, st, f.attr).error], {})
    ensures r.visited == if VerifyAttribute(f.attr, conv).Ok? && FindMember(s, st, f.attr).Ok?
                         then {ToComposed(f.attr)} else {}
    decreases f, 0
  {
    match VerifyAttribute(f.attr, conv)
    case Err(p) => FieldsOutcome([], [p], {})
    case Ok(_) =>
      match FindMember(s, st, f.attr)
      case Err(p) => FieldsOutcome([], [p], {})
      case Ok(m) =>
        var c := ConvertValue(s, lits, m, f.value, conv);
        match c.result
        case Ok(v) => FieldsOutcome([FormField(IntoAttribute(f.attr), v)], c.problems, {ToComposed(f.attr)})
        case Err(p) => FieldsOutcome([], c.problems + [p], {ToComposed(f.attr)})
  }

  /** `convert_value`: code is accepted as it is, cast to the member's type
      (one element of it under an element operator); a literal is checked
      according to the conversion. */
  function ConvertValue(s: Schema, lits: LiteralParsers, m: MemberInfo, v: ValueTemplate, conv: Conversion): (r: Reported<Result<Value, Problem>>)
    requires Located(s, m) && ValueHasParts(v)
    ensures v.CodeText? ==> r == Reported(Ok(CodeValue(v.code, ToCast(m, ConversionEscapes(conv)))), [])
    ensures (conv.Data? || conv.Replacement?) && !v.CodeText? && !m.container.IsPlain() ==>
              r == Reported(Err(ExpCodeComp), [])
    ensures (conv.Data? || conv.Replacement?) && !v.CodeText? && m.container.IsPlain() && m.info.FieldInfo? ==>
              r == Reported(ConvertBuiltinValue(lits, m.info.builtin, v), [])
    decreases v, 4
  {
    if v.CodeText? then Reported(Ok(CodeValue(v.code, ToCast(m, ConversionEscapes(conv)))), [])
    else
      match conv
      case Update(op) => ConvertUpdate(s, lits, m, v, op)
      case Filter => ConvertFilter(s, lits, m.info, m.container, v)
      case _ =>
        if m.container.IsPlain() then ConvertElement(s, lits, m.info, v, conv)
        else Reported(Err(ExpCodeComp), [])
  }

  /** A literal for one value of the member's type: a built-in literal, or a
      defined value. */
  function ConvertElement(s: Schema, lits: LiteralParsers, info: VariantInfo, v: ValueTemplate, conv: Conversion): (r: Reported<Result<Value, Problem>>)
    requires InfoIn(s, info) && ValueHasParts(v)
    ensures info.FieldInfo? ==> r == Reported(ConvertBuiltinValue(lits, info.builtin, v), [])
    ensures info.EntityInfo? && info.entity.EnumEntity? ==> r == Reported(Err(ExpCodeEnum), [])
    ensures info.EntityInfo? && info.entity.UnionEntity? ==> r == Reported(Err(ExpCodeUnion), [])
    decreases v, 2
  {
    match info
    case FieldInfo(b) => Reported(ConvertBuiltinValue(lits, b, v), [])
    case EntityInfo(e) => ConvertDefinedValue(s, lits, e, v, conv)
  }

  /** `convert_defined_value`: a struct takes an object, converted the same
      way; enums and unions can only be given as code. */
  function ConvertDefinedValue(s: Schema, lits: LiteralParsers, e: Entity, v: ValueTemplate, conv: Conversion): (r: Reported<Result<Value, Problem>>)
    requires e in s.entities && ValueHasParts(v)
    ensures e.EnumEntity? ==> r == Reported(Err(ExpCodeEnum), [])
    ensures e.UnionEntity? ==> r == Reported(Err(ExpCodeUnion), [])
    ensures e.StructEntity? ==> (r.result.Ok? <==> v.NestedObject?)
    ensures e.StructEntity? && !v.NestedObject? ==> r == Reported(Err(ExpObject), [])
    ensures r.result.Ok? ==> r.result.value.ObjectValue?
    decreases v, 1
  {
    match e
    case StructEntity(st) =>
      if v.NestedObject? then
        var c := ConvertObject(s, lits, st, v.template, conv);
        Reported(Ok(ObjectValue(c.result)), c.problems)
      else Reported(Err(ExpObject), [])
    case EnumEntity(_) => Reported(Err(ExpCodeEnum), [])
    case UnionEntity(_) => Reported(Err(ExpCodeUnion), [])
  }

  /** `convert_filter`: an object on a built-in member holds query operators;
      otherwise a literal compares with a plain member, and a defined type is
      matched as a filter document. */
  function ConvertFilter(s: Schema, lits: LiteralParsers, info: VariantInfo, container: Container, v: ValueTemplate): (r: Reported<Result<Value, Problem>>)
    requires InfoIn(s, info) && ValueHasParts(v)
    ensures info.FieldInfo? && v.NestedObject? ==> r.result.Ok? && r.result.value.ObjectValue?
    ensures info.FieldInfo? && !v.NestedObject? && !container.IsPlain() ==> r == Reported(Err(ExpCodeComp), [])
    ensures info.FieldInfo? && !v.NestedObject? && container.IsPlain() ==>
              r == Reported(ConvertBuiltinValue(lits, info.builtin, v), [])
    ensures info.EntityInfo? ==> r == ConvertDefinedValue(s, lits, info.entity, v, Filter)
    decreases v, 2
  {
    match info
    case FieldInfo(b) =>
      if v.NestedObject? then
        var c := ConvertFilterObject(lits, b, container, v.template);
        Reported(Ok(ObjectValue(c.result)), c.problems)
      else if container.IsPlain() then Reported(ConvertBuiltinValue(lits, b, v), [])
      else Reported(Err(ExpCodeComp), [])
    case EntityInfo(e) => ConvertDefinedValue(s, lits, e, v, Filter)
  }

  /** The operators that set a whole plain value. */
  predicate SetsPlain(op: UpdateOperator) {
    op == Inc || op == Min || op == Max || op == Mul || op == Set || op == SetOnInsert
  }

  /** The operators that add or remove one element of an array. */
  predicate ChangesElement(op: UpdateOperator) {
    op == AddToSet || op == Pop || op == Push
  }

  /** `convert_update`: which values each update operator accepts. */
  function ConvertUpdate(s: Schema, lits: LiteralParsers, m: MemberInfo, v: ValueTemplate, op: UpdateOperator): (r: Reported<Result<Value, Problem>>)
    requires Located(s, m) && ValueHasParts(v)
    ensures SetsPlain(op) && !m.container.IsPlain() ==> r == Reported(Err(ExpPlain), [])
    ensures (SetsPlain(op) && m.container.IsPlain()) || (ChangesElement(op) && m.container.IsArray()) ==>
              r == ConvertElement(s, lits, m.info, v, Data)
    ensures ChangesElement(op) && !m.container.IsArray() ==> r == Reported(Err(OperatorIncorrect), [])
    ensures op == CurrentDate ==> (r.problems == [] &&
              r.result == if !m.container.IsPlain() then Err(ExpPlain)
                          else if m.info != FieldInfo(Date) then Err(OperatorIncorrect)
                          else ConvertDateValue(v))
    ensures op == Pull && !m.container.IsArray() ==> r == Reported(Err(ExpArray), [])
    ensures op == Pull && m.container.IsArray() ==> r == ConvertFilter(s, lits, m.info, Plain, v)
    ensures op == PullAll ==> r == Reported(Err(ExpCode), [])
    ensures op == Unset ==> r.problems == [] && (r.result.Ok? <==> IsEmptyString(v)) &&
                            (r.result.Ok? ==> r.result.value == StringValue("")) &&
                            (r.result.Err? ==> r.result.error == ExpEmptyString)
    ensures op == Rename ==> r.problems == [] && (r.result.Ok? <==> v.Quoted?) &&
                             (r.result.Ok? ==> r.result.value == StringValue(v.text)) &&
                             (r.result.Err? ==> r.result.error == ExpString)
    decreases v, 3
  {
    if SetsPlain(op) then
      if m.container.IsPlain() then ConvertElement(s, lits, m.info, v, Data) else Reported(Err(ExpPlain), [])
    else if ChangesElement(op) then
      if m.container.IsArray() then ConvertElement(s, lits, m.info, v, Data) else Reported(Err(OperatorIncorrect), [])
    else
      match op
      case CurrentDate =>
        if !m.container.IsPlain() then Reported(Err(ExpPlain), [])
        else if m.info == FieldInfo(Date) then Reported(ConvertDateValue(v), [])
        else Reported(Err(OperatorIncorrect), [])
      case Pull =>
        if m.container.IsArray() then ConvertFilter(s, lits, m.info, Plain, v) else Reported(Err(ExpArray), [])
      case PullAll => Reported(Err(ExpCode), [])
      case Unset => if IsEmptyString(v) then Reported(Ok(StringValue("")), []) else Reported(Err(ExpEmptyString), [])
      case Rename => if v.Quoted? then Reported(Ok(StringValue(v.text)), []) else Reported(Err(ExpString), [])
      case _ => Reported(Err(ExpCode), [])
  }

  /** One field of a filter object on a built-in member: a known operator
      that applies to the member's container, with a value it accepts. */
  function FilterField(lits: LiteralParsers, b: BuiltInType, c: Container, f: FieldTemplate): (r: Result<FormField, Problem>)
    ensures ConvertQueryOperator(f.attr).None? ==> r == Err(OperatorUnknown)
    ensures ConvertQueryOperator(f.attr).Some? && !Matches(ConvertQueryOperator(f.attr).value, b, c) ==>
              r == Err(OperatorIncorrect)
    ensures r.Ok? ==> r.value.attr == IntoAttribute(f.attr) && ConvertQueryOperator(f.attr).Some? &&
                      Ok(r.value.value) == ConvertFilterValue(lits, ConvertQueryOperator(f.attr).value, b, f.value)
  {
    match ConvertQueryOperator(f.attr)
    case None => Err(OperatorUnknown)
    case Some(op) =>
      if !Matches(op, b, c) then Err(OperatorIncorrect)
      else
        match ConvertFilterValue(lits, op, b, f.value)
        case Ok(v) => Ok(FormField(IntoAttribute(f.attr), v))
        case Err(p) => Err(p)
  }

  /** The fields of a filter object: each one is either kept or reported,
      exactly once. */
  function FilterFields(lits: LiteralParsers, b: BuiltInType, c: Container, fs: seq<FieldTemplate>): (r: (seq<FormField>, seq<Problem>))
    ensures |r.0| + |r.1| == |fs|
    decreases |fs|
  {
    if |fs| == 0 then ([], [])
    else
      var rest := FilterFields(lits, b, c, fs[1..]);
      match FilterField(lits, b, c, fs[0])
      case Ok(f) => ([f] + rest.0, rest.1)
      case Err(p) => (rest.0, [p] + rest.1)
  }

  /** `convert_filter_object`. */
  function ConvertFilterObject(lits: LiteralParsers, b: BuiltInType, c: Container, o: ObjectTemplate): (r: Reported<FormObject>)
    ensures |r.result.fields| + |r.problems| == |o.fields|
  {
    var (fields, problems) := FilterFields(lits, b, c, o.fields);
    Reported(FormObject(fields), problems)
  }

  /** One field of an update document: a known update operator holding an
      object, whose fields are checked against the main document under that
      operator. */
  function UpdateField(s: Schema, lits: LiteralParsers, st: Struct, f: FieldTemplate): (r: Reported<Option<FormField>>)
    requires StructEntity(st) in s.entities && FieldHasParts(f)
    ensures ConvertUpdateOperator(f.attr).None? ==> r == Reported(None, [OperatorUnknown])
    ensures ConvertUpdateOperator(f.attr).Some? && !f.value.NestedObject? ==> r == Reported(None, [ExpObject])
    ensures r.result.Some? <==> ConvertUpdateOperator(f.attr).Some? && f.value.NestedObject?
    ensures r.result.Some? ==> r.result.value.attr == IntoAttribute(f.attr) && r.result.value.value.ObjectValue?
  {
    match ConvertUpdateOperator(f.attr)
    case None => Reported(None, [OperatorUnknown])
    case Some(op) =>
      if f.value.NestedObject? then
        assert ValueHasParts(f.value);
        var c := ConvertObject(s, lits, st, f.value.template, Update(op));
        Reported(Some(FormField(IntoAttribute(f.attr), ObjectValue(c.result))), c.problems)
      else Reported(None, [ExpObject])
  }

  function UpdateFields(s: Schema, lits: LiteralParsers, st: Struct, fs: seq<FieldTemplate>): (r: Reported<seq<FormField>>)
    requires StructEntity(st) in s.entities && FieldsHaveParts(fs)
    ensures |r.result| <= |fs| <= |r.result| + |r.problems|
    decreases |fs|
  {
    if |fs| == 0 then Reported([], [])
    else
      var first := UpdateField(s, lits, st, fs[0]);
      var rest := UpdateFields(s, lits, st, fs[1..]);
      Reported((if first.result.Some? then [first.result.value] else []) + rest.result, first.problems + rest.problems)
  }

  /** `convert_update_object`. */
  function ConvertUpdateObject(s: Schema, lits: LiteralParsers, st: Struct, o: ObjectTemplate): (r: Reported<FormObject>)
    requires StructEntity(st) in s.entities && FieldsHaveParts(o.fields)
    ensures |r.result.fields| <= |o.fields| <= |r.result.fields| + |r.problems|
  {
    var u := UpdateFields(s, lits, st, o.fields);
    Reported(FormObject(u.result), u.problems)
  }

  // ----------------------------------------------------------------------------------------------
  // The three entry points

  /** `Generator`: what code generation receives, the main document's type and
      the checked object. */
  datatype Generator = Generator(name: DefinedType, obj: FormObject)

  /** `make_generator`: an object without fields is itself a problem; any
      problem makes the whole verdict the list of them. A panic met while
      converting aborted the macro before any of this: the verdict is the
      panic alone. */
  function MakeGenerator(name: DefinedType, obj: FormObject, problems: seq<Problem>): (r: Result<Generator, seq<Problem>>)
    ensures r.Ok? <==> |problems| == 0 && |obj.fields| > 0
    ensures r.Ok? ==> r.value == Generator(name, obj)
    ensures Panicked in problems ==> r == Err([Panicked])
    ensures r.Err? && Panicked !in problems ==> r.error == problems + (if |obj.fields| == 0 then [MacroEmpty] else [])
  {
    var all := problems + (if |obj.fields| == 0 then [MacroEmpty] else []);
    if Panicked in problems then Err([Panicked])
    else if |all| == 0 then Ok(Generator(name, obj)) else Err(all)
  }

  /** `find_struct_for_collection`: the collection must have a main document. */
  function FindStructForCollection(s: Schema, collection: string): (r: Result<Struct, seq<Problem>>)
    ensures r.Ok? ==> StructEntity(r.value) in s.entities && r.value.collectionName == Some(collection)
    ensures r.Err? <==> forall j :: 0 <= j < |s.entities| ==> !IsMainDocument(s.entities[j], collection)
    ensures r.Err? ==> r.error == [MainDocNotDefined]
  {
    match FindEntityForCollection(s, collection)
    case None => Err([MainDocNotDefined])
    case Some(st) => Ok(st)
  }

  /** `verify_data`: a whole document to insert. */
  function VerifyData(s: Schema, lits: LiteralParsers, collection: string, o: ObjectTemplate): (r: Result<Generator, seq<Problem>>)
    requires FieldsHaveParts(o.fields)
    ensures FindStructForCollection(s, collection).Err? ==> r == Err([MainDocNotDefined])
    ensures r.Ok? ==> |r.value.obj.fields| == |o.fields| > 0
  {
    match FindStructForCollection(s, collection)
    case Err(e) => Err(e)
    case Ok(st) =>
      var c := ConvertObject(s, lits, st, o, Data);
      MakeGenerator(st.structName, c.result, c.problems)
  }

  /** `verify_filter`: a filter document. */
  function VerifyFilter(s: Schema, lits: LiteralParsers, collection: string, o: ObjectTemplate): (r: Result<Generator, seq<Problem>>)
    requires FieldsHaveParts(o.fields)
    ensures FindStructForCollection(s, collection).Err? ==> r == Err([MainDocNotDefined])
    ensures r.Ok? ==> |r.value.obj.fields| == |o.fields| > 0
  {
    match FindStructForCollection(s, collection)
    case Err(e) => Err(e)
    case Ok(st) =>
      var c := ConvertObject(s, lits, st, o, Filter);
      MakeGenerator(st.structName, c.result, c.problems)
  }

  /** `verify_update`: operators only, or a replacement document; a mixture
      or an empty update is refused before any field is looked at. */
  function VerifyUpdate(s: Schema, lits: LiteralParsers, collection: string, o: ObjectTemplate): (r: Result<Generator, seq<Problem>>)
    requires FieldsHaveParts(o.fields)
    ensures FindStructForCollection(s, collection).Err? ==> r == Err([MainDocNotDefined])
    ensures FindStructForCollection(s, collection).Ok? && VerifyUpdateType(o).Err? ==>
              r == Err([VerifyUpdateType(o).error])
    ensures r.Ok? ==> |r.value.obj.fields| == |o.fields| > 0
  {
    match FindStructForCollection(s, collection)
    case Err(e) => Err(e)
    case Ok(st) =>
      match VerifyUpdateType(o)
      case Err(p) => Err([p])
      case Ok(Updating) =>
        var c := ConvertUpdateObject(s, lits, st, o);
        MakeGenerator(st.structName, c.result, c.problems)
      case Ok(Replacing) =>
        var c := ConvertObject(s, lits, st, o, Replacement);
        MakeGenerator(st.structName, c.result, c.problems)
  }
}
