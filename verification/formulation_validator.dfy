/** The vocabulary of the query-formulation validator
    (`huus_macros_support/src/formulation/validator.rs`): the query and update
    operators, the kinds of conversion, the problems it reports, and the
    lookups that resolve a dotted attribute against the schema. */
module FormulationValidator {
  import opened Wrappers
  import opened Seqs
  import opened Text
  import opened Schema
  import opened FormulationOutput
  import opened FormulationInput
  import Bson

  /** `UpdateType`: an update query either applies operators or replaces the
      whole document. */
  datatype UpdateType = Updating | Replacing

  /** `QueryOperator`: the comparison operators a filter may use. */
  datatype QueryOperator = Eq | Gt | Gte | In | Lt | Lte | Ne | Nin

  /** The spelling of each query operator. */
  function QueryOperatorName(op: QueryOperator): string {
    match op
    case Eq => "$eq"
    case Gt => "$gt"
    case Gte => "$gte"
    case In => "$in"
    case Lt => "$lt"
    case Lte => "$lte"
    case Ne => "$ne"
    case Nin => "$nin"
  }

  /** The operator a composed attribute names; only the eight spellings are
      recognised, case-sensitively. */
  function QueryOperatorFromStr(s: string): (r: Option<QueryOperator>)
    ensures r.Some? ==> QueryOperatorName(r.value) == s
    ensures r.None? <==> forall op: QueryOperator :: QueryOperatorName(op) != s
  {
    match s
    case "$eq" => Some(Eq)
    case "$gt" => Some(Gt)
    case "$gte" => Some(Gte)
    case "$in" => Some(In)
    case "$lt" => Some(Lt)
    case "$lte" => Some(Lte)
    case "$ne" => Some(Ne)
    case "$nin" => Some(Nin)
    case _ => None
  }

  /** `convert_query_operator`: the attribute is read whole, dots included. */
  function ConvertQueryOperator(a: AttributeTemplate): Option<QueryOperator> {
    QueryOperatorFromStr(ToComposed(a))
  }

  /** Every query operator is recognised by its own spelling. */
  lemma QueryOperatorNames(op: QueryOperator)
    ensures QueryOperatorFromStr(QueryOperatorName(op)) == Some(op)
  {
  }

  /** `QueryOperator::matches`: on a plain member any operator applies unless
      the member is raw BSON; on an array only `$in` and `$nin` apply; on a
      map nothing does. */
  predicate Matches(op: QueryOperator, b: BuiltInType, c: Container) {
    if c.IsPlain() then b != Bson
    else if c.IsArray() then op == In || op == Nin
    else false
  }

  /** `UpdateOperator`: the update operators. */
  datatype UpdateOperator =
    | Inc | Min | Max | Mul | CurrentDate | Rename | Unset | Set | SetOnInsert
    | AddToSet | Pop | Pull | Push | PullAll

  /** The spelling of each update operator. */
  function UpdateOperatorName(op: UpdateOperator): string {
    match op
    case AddToSet => "$addToSet"
    case CurrentDate => "$currentDate"
    case Inc => "$inc"
    case Max => "$max"
    case Min => "$min"
    case Mul => "$mul"
    case Pop => "$pop"
    case Pull => "$pull"
    case PullAll => "$pullAll"
    case Push => "$push"
    case Rename => "$rename"
    case Set => "$set"
    case SetOnInsert => "$setOnInsert"
    case Unset => "$unset"
  }

  /** The update operator a composed attribute names; only the fourteen
      spellings are recognised. */
  function UpdateOperatorFromStr(s: string): (r: Option<UpdateOperator>)
    ensures r.Some? ==> UpdateOperatorName(r.value) == s
    ensures r.None? <==> forall op: UpdateOperator :: UpdateOperatorName(op) != s
  {
    match s
    case "$addToSet" => Some(AddToSet)
    case "$currentDate" => Some(CurrentDate)
    case "$inc" => Some(Inc)
    case "$max" => Some(Max)
    case "$min" => Some(Min)
    case "$mul" => Some(Mul)
    case "$pop" => Some(Pop)
    case "$pull" => Some(Pull)
    case "$pullAll" => Some(PullAll)
    case "$push" => Some(Push)
    case "$rename" => Some(Rename)
    case "$set" => Some(Set)
    case "$setOnInsert" => Some(SetOnInsert)
    case "$unset" => Some(Unset)
    case _ => None
  }

  /** `convert_update_operator`. */
  function ConvertUpdateOperator(a: AttributeTemplate): Option<UpdateOperator> {
    UpdateOperatorFromStr(ToComposed(a))
  }

  /** Every update operator is recognised by its own spelling. */
  lemma UpdateOperatorNames(op: UpdateOperator)
    ensures UpdateOperatorFromStr(UpdateOperatorName(op)) == Some(op)
  {
  }

  /** `UpdateOperator::escapes_container`: the operators that act on one
      element of an array. */
  predicate EscapesContainer(op: UpdateOperator) {
    op == AddToSet || op == Pop || op == Pull || op == Push
  }

  /** `Conversion`: what a document is being checked as. */
  datatype Conversion = Data | Filter | Replacement | Update(op: UpdateOperator)

  /** `Conversion::escapes_container`: only an update with an element operator. */
  predicate ConversionEscapes(c: Conversion) {
    c.Update? && EscapesContainer(c.op)
  }

  /** `VariantInfo`: a member's type, with a defined type resolved to its entity. */
  datatype VariantInfo = FieldInfo(builtin: BuiltInType) | EntityInfo(entity: Entity)

  /** `MemberInfo`: what an attribute resolved to. */
  datatype MemberInfo = MemberInfo(info: VariantInfo, variant: Variant, container: Container)

  /** `MemberInfo::to_cast`: the member's type, seen as a single element when
      the operator escapes the container. */
  function ToCast(m: MemberInfo, escape: bool): (c: CodeType)
    ensures c.variant == m.variant
    ensures escape ==> c.container == Plain
    ensures !escape ==> c.container == m.container
  {
    CodeType(m.variant, if escape then Plain else m.container)
  }

  /** `Problem`: everything the validator can report, and `Panicked`, which
      stands for the validator panicking: that aborts the macro, and the
      source has no problem or message for it. */
  datatype Problem =
    | MacroEmpty | MainDocAsStruct | MainDocNotDefined | QueryBothUpdateAndRepl | QueryEmpty
    | AttrWithDots | FieldsMissing | FieldNotFound | FieldOnEnum | FieldOnPlain | FieldAmbiguous
    | OperatorUnknown | OperatorIncorrect
    | ExpCode | ExpCodeComp | ExpCodeEnum | ExpCodeUnion | ExpObject | ExpKey | ExpPlain | ExpArray
    | ExpF64 | ExpString | ExpOid | ExpBool | ExpDate | ExpI32 | ExpI64 | ExpBson
    | ExpDateObj | ExpEmptyString
    | Panicked

  /** `Problem::as_str` as written: the messages of `FieldNotFound`,
      `FieldOnEnum` and `FieldOnPlain` are each one place off. */
  function Message(p: Problem): string
    requires p != Panicked
  {
    match p
    case FieldNotFound => "No more fields can be specified for an enum"
    case FieldOnEnum => "No more fields can be specified for a plain field"
    case FieldOnPlain => "Field does not match in the schema"
    case _ => IntendedMessage(p)
  }

  /** The message each problem is evidently meant to carry. */
  function IntendedMessage(p: Problem): string
    requires p != Panicked
  {
    match p
    case MacroEmpty => "The macro seems to be empty"
    case MainDocAsStruct => "Main document for has to be a structure"
    case MainDocNotDefined => "Main document for this collection is not defined"
    case QueryBothUpdateAndRepl => "The query contains both update and replacement fields"
    case QueryEmpty => "The query seems to be empty"
    case AttrWithDots => "Attributes in replacement/data document cannot contain dots (.)"
    case FieldsMissing => "Required fields are missing"
    case FieldNotFound => "Field does not match in the schema"
    case FieldOnEnum => "No more fields can be specified for an enum"
    case FieldOnPlain => "No more fields can be specified for a plain field"
    case FieldAmbiguous => "Fields that match many union variants are not supported yet"
    case OperatorUnknown => "Unknown query operator"
    case OperatorIncorrect => "This operator cannot be used with the declared type"
    case ExpCode => "This value is supported only in `code` mode"
    case ExpCodeComp => "Composed data are supported only in `code` mode"
    case ExpCodeEnum => "Enums are supported only in `code` mode"
    case ExpCodeUnion => "Unions are supported only in `code` mode"
    case ExpObject => "Expected an object"
    case ExpKey => "Expected a literal key"
    case ExpPlain => "Expected a type without container"
    case ExpArray => "Expected an array"
    case ExpF64 => "Expected a floating point value"
    case ExpString => "Expected a string"
    case ExpOid => "Expected an Object ID"
    case ExpBool => "Expected a boolean value"
    case ExpDate => "Expected a date in 'YYYY-mm-ddTHH:MM:ss' format"
    case ExpI32 => "Expected a 32-bit integer"
    case ExpI64 => "Expected a 64-bit integer"
    case ExpBson => "BSON objects are supported only in `code` mode"
    case ExpDateObj => "Expected `true` or object `{\"$type\":\"timestamp\"|\"datetime\"}`"
    case ExpEmptyString => "Expected an empty string"
    case Panicked => assert false; ""
  }

  /** `t` occurs in `s` starting at `k`. */
  predicate OccursAt(s: string, t: string, k: nat) {
    k + |t| <= |s| && s[k..k + |t|] == t
  }

  /** As written, a field that matches nothing is reported with the message
      about enums, and a field continued past an enum with the message about
      plain fields: the three messages are rotated. */
  lemma MessagesRotated()
    ensures Message(FieldNotFound) == IntendedMessage(FieldOnEnum)
    ensures Message(FieldOnEnum) == IntendedMessage(FieldOnPlain)
    ensures Message(FieldOnPlain) == IntendedMessage(FieldNotFound)
    ensures OccursAt(Message(FieldNotFound), "enum", 39)
  {
    WordAt("No more fields can be specified for an ", "enum", "");
  }

  /** With the intended messages each of the three problems names its own
      situation. */
  lemma IntendedMessagesName()
    ensures OccursAt(IntendedMessage(FieldOnEnum), "enum", 39)
    ensures OccursAt(IntendedMessage(FieldOnPlain), "plain", 38)
    ensures OccursAt(IntendedMessage(FieldNotFound), "match", 15)
  {
    WordAt("No more fields can be specified for an ", "enum", "");
    WordAt("No more fields can be specified for a ", "plain", " field");
    WordAt("Field does not ", "match", " in the schema");
  }

  lemma WordAt(before: string, word: string, after: string)
    ensures OccursAt(before + word + after, word, |before|)
  {
    assert (before + word + after)[|before|..|before| + |word|] == word;
  }

  /** Every other problem keeps the message it is written with. */
  lemma OtherMessagesKept(p: Problem)
    requires p != FieldNotFound && p != FieldOnEnum && p != FieldOnPlain && p != Panicked
    ensures Message(p) == IntendedMessage(p)
  {
  }

  /** The problem a literal of the wrong form for a built-in type raises. */
  function ExpectedFor(b: BuiltInType): Problem {
    match b
    case F64 => ExpF64
    case String => ExpString
    case ObjectId => ExpOid
    case Bool => ExpBool
    case Date => ExpDate
    case I32 => ExpI32
    case I64 => ExpI64
    case Bson => ExpBson
  }

  // ----------------------------------------------------------------------------------------------
  // Looking up attributes

  /** A member's type can be looked up: a built-in, or a name some entity has. */
  predicate VariantResolves(s: Schema, v: Variant) {
    v.Field? || FindEntity(s, v.Defined().name).Some?
  }

  /** A lookup that ends in a panic of the validator. */
  predicate Panics<T>(r: Result<T, Problem>) {
    r.Err? && r.error == Panicked
  }

  /** A resolved member: its type information agrees with its variant, and an
      entity is one of the schema's. */
  predicate Located(s: Schema, m: MemberInfo) {
    (m.info.FieldInfo? <==> m.variant.Field?)
    && (m.variant.Field? ==> m.info.builtin == m.variant.field)
    && (m.info.EntityInfo? ==> m.info.entity in s.entities && EntityName(m.info.entity) == m.variant.Defined().name)
  }

  /** `MemberInfo::new`: a defined type is replaced by the entity of that name;
      a name no entity has panics (`expect(ENTITY)`). */
  function NewMemberInfo(s: Schema, variant: Variant, container: Container): (r: Result<MemberInfo, Problem>)
    ensures r.Ok? <==> VariantResolves(s, variant)
    ensures r.Err? ==> r.error == Panicked
    ensures r.Ok? ==> r.value.variant == variant && r.value.container == container && Located(s, r.value)
  {
    if variant.Field? then Ok(MemberInfo(FieldInfo(variant.field), variant, container))
    else
      match FindEntity(s, variant.Defined().name)
      case Some(e) => Ok(MemberInfo(EntityInfo(e), variant, container))
      case None => Err(Panicked)
  }

  /** The position of the first member with the given database name, or the
      number of members. */
  function FirstMember(ms: seq<Member>, dbName: string): (i: nat)
    ensures i <= |ms|
    ensures i < |ms| ==> ms[i].dbName == dbName
    ensures forall j :: 0 <= j < i ==> ms[j].dbName != dbName
    decreases |ms|
  {
    if |ms| == 0 then 0
    else if ms[0].dbName == dbName then 0
    else 1 + FirstMember(ms[1..], dbName)
  }

  /** The problems `find_member` can end with, a panic included. */
  predicate IsLookupProblem(p: Problem) {
    p == ExpKey || p == FieldNotFound || p == FieldOnEnum || p == FieldOnPlain || p == FieldAmbiguous
    || p == Panicked
  }

  /** The parts left after the member's own key, with an index into an array
      member dropped, and the container the attribute then addresses. */
  function AfterKey(m: Member, rest: AttributeTemplate): (r: (Container, AttributeTemplate))
    ensures m.container.IsArray() && Len(rest) > 0 && !rest.parts[0].Key? ==>
              r == (Plain, AttributeTemplate(rest.parts[1..]))
    ensures !(m.container.IsArray() && Len(rest) > 0 && !rest.parts[0].Key?) ==> r == (m.container, rest)
  {
    if m.container.IsArray() && Next(rest).Some? && !IsKey(Next(rest).value) then
      (Plain, FormulationInput.Pop(rest).1)
    else (m.container, rest)
  }

  /** `find_member`: the first part must be a literal key naming a member (the
      first one with that database name); a member whose type names no entity
      panics; an index after an array member is skipped and addresses one
      element; further parts descend into a struct, or into the single union
      choice that accepts them. */
  function FindMember(s: Schema, st: Struct, attr: AttributeTemplate): (r: Result<MemberInfo, Problem>)
    requires Len(attr) > 0
    ensures !attr.parts[0].Key? ==> r == Err(ExpKey)
    ensures attr.parts[0].Key? && FirstMember(st.members, attr.parts[0].name) == |st.members| ==>
              r == Err(FieldNotFound)
    ensures r.Err? ==> IsLookupProblem(r.error)
    ensures r.Ok? ==> Located(s, r.value)
    ensures attr.parts[0].Key? && FirstMember(st.members, attr.parts[0].name) < |st.members| ==>
              var m := st.members[FirstMember(st.members, attr.parts[0].name)];
              (!VariantResolves(s, m.variant) ==> r == Err(Panicked)) &&
              (Len(attr) == 1 && VariantResolves(s, m.variant) ==>
                 r.Ok? && r.value.variant == m.variant && r.value.container == m.container)
    decreases Len(attr), 0, 0
  {
    var (part, rest) := FormulationInput.Pop(attr);
    if !part.value.Key? then Err(ExpKey)
    else
      var i := FirstMember(st.members, part.value.name);
      if i == |st.members| then Err(FieldNotFound)
      else
        var m := st.members[i];
        var (container, rest2) := AfterKey(m, rest);
        match NewMemberInfo(s, m.variant, container)
        case Err(p) => Err(p)
        case Ok(info) =>
          if Len(rest2) == 0 then Ok(info)
          else
            match info.info
            case FieldInfo(_) => Err(FieldOnPlain)
            case EntityInfo(EnumEntity(_)) => Err(FieldOnEnum)
            case EntityInfo(StructEntity(inner)) => FindMember(s, inner, rest2)
            case EntityInfo(UnionEntity(u)) => PeekMember(s, u, rest2)
  }

  /** `peek_member`: the attribute is looked up in every choice, in order, and
      a choice that panics ends the lookup with that panic; otherwise exactly
      one choice must accept it (`PeekMemberChoices` says which). */
  function PeekMember(s: Schema, u: Union, attr: AttributeTemplate): (r: Result<MemberInfo, Problem>)
    requires Len(attr) > 0
    ensures r.Err? ==> r.error == FieldNotFound || r.error == FieldAmbiguous || r.error == Panicked
    ensures r.Ok? ==> Located(s, r.value)
    decreases Len(attr), 1, 0
  {
    var found := ChoiceResults(s, u, attr);
    if FirstPanic(found) < |found| then Err(Panicked)
    else
      var peeks := Successes(found);
      if |peeks| == 1 then
        SuccessesOne(found);
        Ok(peeks[0])
      else if |peeks| == 0 then Err(FieldNotFound)
      else Err(FieldAmbiguous)
  }

  /** The lookup in one union choice: a name no entity has panics
      (`expect(ENTITY)`), and so does an entity that is not a struct;
      otherwise the attribute is looked up in that struct. */
  function ChoiceResult(s: Schema, c: UnionChoice, attr: AttributeTemplate): (r: Result<MemberInfo, Problem>)
    requires Len(attr) > 0
    ensures FindEntity(s, c.variant.name).None? ==> r == Err(Panicked)
    ensures FindEntity(s, c.variant.name).Some? && !FindEntity(s, c.variant.name).value.StructEntity? ==>
              r == Err(Panicked)
    ensures FindEntity(s, c.variant.name).Some? && FindEntity(s, c.variant.name).value.StructEntity? ==>
              r == FindMember(s, FindEntity(s, c.variant.name).value.structSpec, attr)
    ensures r.Err? ==> IsLookupProblem(r.error)
    ensures r.Ok? ==> Located(s, r.value)
    decreases Len(attr), 0, 1
  {
    match FindEntity(s, c.variant.name)
    case None => Err(Panicked)
    case Some(e) => if e.StructEntity? then FindMember(s, e.structSpec, attr) else Err(Panicked)
  }

  /** The attribute looked up in every choice, in order. */
  function ChoiceResults(s: Schema, u: Union, attr: AttributeTemplate): (r: seq<Result<MemberInfo, Problem>>)
    requires Len(attr) > 0
    ensures |r| == |u.choices|
    ensures forall j :: 0 <= j < |u.choices| ==> r[j] == ChoiceResult(s, u.choices[j], attr)
    decreases Len(attr), 0, 2
  {
    seq(|u.choices|, j requires 0 <= j < |u.choices| => ChoiceResult(s, u.choices[j], attr))
  }

  /** The position of the first result that panics, or the number of results. */
  function FirstPanic<T>(rs: seq<Result<T, Problem>>): (i: nat)
    ensures i <= |rs|
    ensures i < |rs| ==> Panics(rs[i])
    ensures forall j :: 0 <= j < i ==> !Panics(rs[j])
    decreases |rs|
  {
    if |rs| == 0 then 0
    else if Panics(rs[0]) then 0
    else 1 + FirstPanic(rs[1..])
  }

  /** The values of the successful results, in order. */
  function Successes<T, E>(rs: seq<Result<T, E>>): (r: seq<T>)
    ensures |r| <= |rs|
  {
    if |rs| == 0 then [] else (if rs[0].Ok? then [rs[0].value] else []) + Successes(rs[1..])
  }

  /** No value exactly when every result is an error. */
  lemma {:induction false} SuccessesNone<T, E>(rs: seq<Result<T, E>>)
    ensures |Successes(rs)| == 0 <==> forall j :: 0 <= j < |rs| ==> rs[j].Err?
  {
    if |rs| > 0 {
      SuccessesNone(rs[1..]);
      assert forall j :: 1 <= j < |rs| ==> rs[j] == rs[1..][j - 1];
    }
  }

  /** Two values or more exactly when two results succeed. */
  lemma {:induction false} SuccessesMany<T, E>(rs: seq<Result<T, E>>)
    ensures |Successes(rs)| >= 2 <==> exists j, k :: 0 <= j < k < |rs| && rs[j].Ok? && rs[k].Ok?
  {
    if |rs| > 0 {
      var tail := rs[1..];
      SuccessesNone(tail);
      SuccessesMany(tail);
      if rs[0].Ok? && |Successes(tail)| >= 1 {
        var k :| 0 <= k < |tail| && tail[k].Ok?;
        assert rs[k + 1].Ok?;
      }
      if |Successes(tail)| >= 2 {
        var j, k :| 0 <= j < k < |tail| && tail[j].Ok? && tail[k].Ok?;
        assert rs[j + 1].Ok? && rs[k + 1].Ok?;
      }
      if exists j, k :: 0 <= j < k < |rs| && rs[j].Ok? && rs[k].Ok? {
        var j, k :| 0 <= j < k < |rs| && rs[j].Ok? && rs[k].Ok?;
        assert tail[k - 1].Ok?;
        if j > 0 {
          assert tail[j - 1].Ok?;
        }
      }
    }
  }

  /** A single value comes from the one result that succeeds. */
  lemma {:induction false} SuccessesOne<T, E>(rs: seq<Result<T, E>>)
    requires |Successes(rs)| == 1
    ensures exists j :: 0 <= j < |rs| && rs[j] == Ok(Successes(rs)[0]) &&
              forall k :: 0 <= k < |rs| && k != j ==> rs[k].Err?
  {
    var tail := rs[1..];
    if rs[0].Ok? {
      SuccessesNone(tail);
      assert forall k :: 1 <= k < |rs| ==> rs[k] == tail[k - 1];
      assert rs[0] == Ok(Successes(rs)[0]);
    } else {
      SuccessesOne(tail);
      var j :| 0 <= j < |tail| && tail[j] == Ok(Successes(tail)[0]) &&
               forall k :: 0 <= k < |tail| && k != j ==> tail[k].Err?;
      assert forall k :: 1 <= k < |rs| ==> rs[k] == tail[k - 1];
      assert rs[j + 1] == Ok(Successes(rs)[0]);
    }
  }

  /** The choice at `j` of a union accepts the attribute. */
  predicate Accepts(s: Schema, u: Union, j: nat, attr: AttributeTemplate)
    requires Len(attr) > 0 && j < |u.choices|
  {
    ChoiceResult(s, u.choices[j], attr).Ok?
  }

  /** The lookup in the choice at `j` of a union panics. */
  predicate ChoicePanics(s: Schema, u: Union, j: nat, attr: AttributeTemplate)
    requires Len(attr) > 0 && j < |u.choices|
  {
    Panics(ChoiceResult(s, u.choices[j], attr))
  }

  /** `peek_member` panics exactly when the lookup in some choice panics. When
      none does, it succeeds exactly when one choice accepts the attribute,
      with that choice's member; it reports `FieldNotFound` when none does
      and `FieldAmbiguous` when two or more do. */
  lemma PeekMemberChoices(s: Schema, u: Union, attr: AttributeTemplate)
    requires Len(attr) > 0
    ensures PeekMember(s, u, attr) == Err(Panicked) <==> exists j :: 0 <= j < |u.choices| && ChoicePanics(s, u, j, attr)
    ensures var r := PeekMember(s, u, attr);
            r.Ok? ==> exists j :: 0 <= j < |u.choices| && Accepts(s, u, j, attr) &&
                        ChoiceResult(s, u.choices[j], attr) == r &&
                        forall k :: 0 <= k < |u.choices| && k != j ==> !Accepts(s, u, k, attr)
    ensures (forall j :: 0 <= j < |u.choices| ==> !ChoicePanics(s, u, j, attr)) ==>
              (PeekMember(s, u, attr) == Err(FieldNotFound) <==> forall j :: 0 <= j < |u.choices| ==> !Accepts(s, u, j, attr))
    ensures (forall j :: 0 <= j < |u.choices| ==> !ChoicePanics(s, u, j, attr)) ==>
              (PeekMember(s, u, attr) == Err(FieldAmbiguous) <==>
                 exists j, k :: 0 <= j < k < |u.choices| && Accepts(s, u, j, attr) && Accepts(s, u, k, attr))
  {
    PeekMemberPanics(s, u, attr);
    PeekMemberFound(s, u, attr);
    PeekMemberNone(s, u, attr);
    PeekMemberMany(s, u, attr);
  }

  /** The panic case of `PeekMemberChoices`. */
  lemma PeekMemberPanics(s: Schema, u: Union, attr: AttributeTemplate)
    requires Len(attr) > 0
    ensures PeekMember(s, u, attr) == Err(Panicked) <==> exists j :: 0 <= j < |u.choices| && ChoicePanics(s, u, j, attr)
  {
    var found := ChoiceResults(s, u, attr);
    assert forall j :: 0 <= j < |u.choices| ==> (Panics(found[j]) <==> ChoicePanics(s, u, j, attr));
    if FirstPanic(found) == |found| {
      SuccessesNone(found);
      SuccessesMany(found);
    }
  }

  /** The success case of `PeekMemberChoices`. */
  lemma PeekMemberFound(s: Schema, u: Union, attr: AttributeTemplate)
    requires Len(attr) > 0
    ensures var r := PeekMember(s, u, attr);
            r.Ok? ==> exists j :: 0 <= j < |u.choices| && Accepts(s, u, j, attr) &&
                        ChoiceResult(s, u.choices[j], attr) == r &&
                        forall k :: 0 <= k < |u.choices| && k != j ==> !Accepts(s, u, k, attr)
  {
    var found := ChoiceResults(s, u, attr);
    if FirstPanic(found) == |found| && |Successes(found)| == 1 {
      SuccessesOne(found);
      var j :| 0 <= j < |found| && found[j] == Ok(Successes(found)[0]) &&
               forall k :: 0 <= k < |found| && k != j ==> found[k].Err?;
      assert Accepts(s, u, j, attr);
      assert forall k :: 0 <= k < |u.choices| && k != j ==> !Accepts(s, u, k, attr);
    }
  }

  /** The `FieldNotFound` case of `PeekMemberChoices`. */
  lemma PeekMemberNone(s: Schema, u: Union, attr: AttributeTemplate)
    requires Len(attr) > 0
    ensures (forall j :: 0 <= j < |u.choices| ==> !ChoicePanics(s, u, j, attr)) ==>
              (PeekMember(s, u, attr) == Err(FieldNotFound) <==> forall j :: 0 <= j < |u.choices| ==> !Accepts(s, u, j, attr))
  {
    var found := ChoiceResults(s, u, attr);
    assert forall j :: 0 <= j < |u.choices| ==> (found[j].Ok? <==> Accepts(s, u, j, attr));
    assert forall j :: 0 <= j < |u.choices| ==> (Panics(found[j]) <==> ChoicePanics(s, u, j, attr));
    SuccessesNone(found);
  }

  /** The `FieldAmbiguous` case of `PeekMemberChoices`. */
  lemma PeekMemberMany(s: Schema, u: Union, attr: AttributeTemplate)
    requires Len(attr) > 0
    ensures (forall j :: 0 <= j < |u.choices| ==> !ChoicePanics(s, u, j, attr)) ==>
              (PeekMember(s, u, attr) == Err(FieldAmbiguous) <==>
                 exists j, k :: 0 <= j < k < |u.choices| && Accepts(s, u, j, attr) && Accepts(s, u, k, attr))
  {
    var found := ChoiceResults(s, u, attr);
    assert forall j :: 0 <= j < |u.choices| ==> (found[j].Ok? <==> Accepts(s, u, j, attr));
    assert forall j :: 0 <= j < |u.choices| ==> (Panics(found[j]) <==> ChoicePanics(s, u, j, attr));
    SuccessesMany(found);
  }

  // ----------------------------------------------------------------------------------------------
  // Schemas on which no lookup panics

  /** A union choice names a struct of the schema. */
  predicate ChoiceResolves(s: Schema, c: UnionChoice) {
    FindEntity(s, c.variant.name).Some? && FindEntity(s, c.variant.name).value.StructEntity?
  }

  predicate EntityClosed(s: Schema, e: Entity) {
    match e
    case StructEntity(st) => forall j :: 0 <= j < |st.members| ==> VariantResolves(s, st.members[j].variant)
    case UnionEntity(u) => forall j :: 0 <= j < |u.choices| ==> ChoiceResolves(s, u.choices[j])
    case EnumEntity(_) => true
  }

  /** Every type a struct refers to exists and every union choice is a struct. */
  predicate Closed(s: Schema) {
    forall e :: e in s.entities ==> EntityClosed(s, e)
  }

  /** On a closed schema looking up an attribute never panics. */
  lemma {:induction false} ClosedNeverPanics(s: Schema, st: Struct, attr: AttributeTemplate)
    requires Closed(s) && StructEntity(st) in s.entities && Len(attr) > 0
    ensures FindMember(s, st, attr) != Err(Panicked)
    decreases Len(attr), 0
  {
    var (part, rest) := FormulationInput.Pop(attr);
    if part.value.Key? && FirstMember(st.members, part.value.name) < |st.members| {
      var m := st.members[FirstMember(st.members, part.value.name)];
      assert EntityClosed(s, StructEntity(st));
      var (container, rest2) := AfterKey(m, rest);
      var info := NewMemberInfo(s, m.variant, container).value;
      if Len(rest2) > 0 && info.info.EntityInfo? {
        match info.info.entity
        case StructEntity(inner) => ClosedNeverPanics(s, inner, rest2);
        case UnionEntity(u) => ClosedPeekNeverPanics(s, u, rest2);
        case EnumEntity(_) =>
      }
    }
  }

  /** On a closed schema looking up an attribute in a union never panics. */
  lemma {:induction false} ClosedPeekNeverPanics(s: Schema, u: Union, attr: AttributeTemplate)
    requires Closed(s) && UnionEntity(u) in s.entities && Len(attr) > 0
    ensures PeekMember(s, u, attr) != Err(Panicked)
    decreases Len(attr), 1
  {
    var found := ChoiceResults(s, u, attr);
    assert EntityClosed(s, UnionEntity(u));
    forall j | 0 <= j < |found|
      ensures !Panics(found[j])
    {
      ClosedNeverPanics(s, FindEntity(s, u.choices[j].variant.name).value.structSpec, attr);
    }
  }

  /** A union whose choice names an enum panics on any field looked up in it. */
  lemma ChoiceOnEnumPanics()
    ensures var s := Schema([EnumEntity(Enum(DefinedType("E"), [EnumChoice("A", "a")]))]);
            var u := Union(DefinedType("U"), [UnionChoice("E", "e", DefinedType("E"))]);
            PeekMember(s, u, AttributeTemplate([Key("x")])) == Err(Panicked)
  {
  }

  /** `verify_attribute`: a data or replacement document takes only
      single-part attributes. */
  function VerifyAttribute(a: AttributeTemplate, c: Conversion): (r: Result<(), Problem>)
    ensures r.Err? <==> (c.Data? || c.Replacement?) && Len(a) != 1
    ensures r.Err? ==> r.error == AttrWithDots
  {
    if (c.Data? || c.Replacement?) && Len(a) != 1 then Err(AttrWithDots) else Ok(())
  }

  /** Whether any field is an update and whether any is a replacement. */
  function UpdateKinds(fs: seq<FieldTemplate>): (r: (bool, bool))
    ensures r.0 <==> exists i :: 0 <= i < |fs| && IsUpdating(fs[i].attr)
    ensures r.1 <==> exists i :: 0 <= i < |fs| && !IsUpdating(fs[i].attr)
    decreases |fs|
  {
    if |fs| == 0 then (false, false)
    else
      var rest := UpdateKinds(fs[1..]);
      assert forall i :: 1 <= i < |fs| ==> fs[i] == fs[1..][i - 1];
      if IsUpdating(fs[0].attr) then (true, rest.1) else (rest.0, true)
  }

  /** `verify_update_type`: all fields updating operators, or none; mixing the
      two, or giving no field, is refused. */
  function VerifyUpdateType(o: ObjectTemplate): (r: Result<UpdateType, Problem>)
    ensures r == Ok(Updating) <==> |o.fields| > 0 && forall i :: 0 <= i < |o.fields| ==> IsUpdating(o.fields[i].attr)
    ensures r == Ok(Replacing) <==> |o.fields| > 0 && forall i :: 0 <= i < |o.fields| ==> !IsUpdating(o.fields[i].attr)
    ensures r == Err(QueryEmpty) <==> |o.fields| == 0
    ensures r.Err? ==> r.error == QueryEmpty || r.error == QueryBothUpdateAndRepl
  {
    var (updates, replacements) := UpdateKinds(o.fields);
    if updates && replacements then Err(QueryBothUpdateAndRepl)
    else if updates then Ok(Updating)
    else if replacements then Ok(Replacing)
    else Err(QueryEmpty)
  }

  /** The database names of members that are neither optional nor arrays. */
  function RequiredOf(ms: seq<Member>): (r: set<string>)
    ensures forall n :: n in r <==>
              exists j :: 0 <= j < |ms| && ms[j].dbName == n && !ms[j].isOptional && !ms[j].container.IsArray()
    decreases |ms|
  {
    if |ms| == 0 then {}
    else
      var rest := RequiredOf(ms[1..]);
      assert forall j :: 1 <= j < |ms| ==> ms[j] == ms[1..][j - 1];
      if !ms[0].isOptional && !ms[0].container.IsArray() then {ms[0].dbName} + rest else rest
  }

  /** `prepare_required_members`: only a data document must name every
      required member. */
  function RequiredMembers(st: Struct, c: Conversion): (r: set<string>)
    ensures !c.Data? ==> r == {}
    ensures c.Data? ==> r == RequiredOf(st.members)
  {
    if c.Data? then RequiredOf(st.members) else {}
  }

  // ----------------------------------------------------------------------------------------------
  // Literals

  /** Reading a literal for the types the model does not define a parser for:
      `f64::from_str`, `ObjectId::with_string` and `DateTime<Utc>::from_str`. */
  datatype LiteralParsers = LiteralParsers(
    parseF64: string -> Option<Bson.Float>,
    parseOid: string -> Option<Bson.Oid>,
    parseDate: string -> Option<Bson.Date>)

  const I32Min: int := -0x8000_0000
  const I32Max: int := 0x7fff_ffff
  const I64Min: int := -0x8000_0000_0000_0000
  const I64Max: int := 0x7fff_ffff_ffff_ffff

  /** A value of the given built-in type. */
  predicate ValueOfType(v: Value, b: BuiltInType) {
    match b
    case F64 => v.F64Value?
    case String => v.StringValue?
    case ObjectId => v.ObjectIdValue?
    case Bool => v.BoolValue?
    case Date => v.DateValue?
    case I32 => v.I32Value?
    case I64 => v.I64Value?
    case Bson => false
  }

  /** `convert_builtin_value`: numbers and booleans are written unquoted,
      strings and dates quoted, object ids either way; raw BSON needs code. */
  function ConvertBuiltinValue(lits: LiteralParsers, b: BuiltInType, v: ValueTemplate): (r: Result<Value, Problem>)
    ensures r.Ok? ==> ValueOfType(r.value, b)
    ensures r.Err? ==> r.error == ExpectedFor(b)
    ensures b == String ==> (r.Ok? <==> v.Quoted?) && (v.Quoted? ==> r == Ok(StringValue(v.text)))
    ensures b == Bool ==> (r == Ok(BoolValue(true)) <==> v == Unquoted("true"))
                          && (r == Ok(BoolValue(false)) <==> v == Unquoted("false"))
                          && (r.Ok? <==> v == Unquoted("true") || v == Unquoted("false"))
    ensures b == I32 ==> (r.Ok? <==> v.Unquoted? && ParseSigned(v.text, I32Min, I32Max).Some?)
                         && (r.Ok? ==> r.value.i as int == ParseSigned(v.text, I32Min, I32Max).value)
    ensures b == I64 ==> (r.Ok? <==> v.Unquoted? && ParseSigned(v.text, I64Min, I64Max).Some?)
                         && (r.Ok? ==> r.value.l as int == ParseSigned(v.text, I64Min, I64Max).value)
    ensures b == F64 ==> (r.Ok? <==> v.Unquoted? && lits.parseF64(v.text).Some?)
    ensures b == Date ==> (r.Ok? <==> v.Quoted? && lits.parseDate(v.text).Some?)
    ensures b == ObjectId ==> (r.Ok? <==> (v.Quoted? || v.Unquoted?) && lits.parseOid(v.text).Some?)
  {
    match b
    case F64 =>
      if v.Unquoted? && lits.parseF64(v.text).Some? then Ok(F64Value(lits.parseF64(v.text).value))
      else Err(ExpF64)
    case String =>
      if v.Quoted? then Ok(StringValue(v.text)) else Err(ExpString)
    case ObjectId =>
      if (v.Quoted? || v.Unquoted?) && lits.parseOid(v.text).Some? then Ok(ObjectIdValue(lits.parseOid(v.text).value))
      else Err(ExpOid)
    case Bool =>
      if v == Unquoted("true") then Ok(BoolValue(true))
      else if v == Unquoted("false") then Ok(BoolValue(false))
      else Err(ExpBool)
    case Date =>
      if v.Quoted? && lits.parseDate(v.text).Some? then Ok(DateValue(lits.parseDate(v.text).value))
      else Err(ExpDate)
    case I32 =>
      if v.Unquoted? && ParseSigned(v.text, I32Min, I32Max).Some? then
        Ok(I32Value(ParseSigned(v.text, I32Min, I32Max).value as Bson.Int32))
      else Err(ExpI32)
    case I64 =>
      if v.Unquoted? && ParseSigned(v.text, I64Min, I64Max).Some? then
        Ok(I64Value(ParseSigned(v.text, I64Min, I64Max).value as Bson.Int64))
      else Err(ExpI64)
    case Bson => Err(ExpBson)
  }

  /** An integer written in decimal is read back as itself, for either width. */
  lemma PrintedIntegerAccepted(lits: LiteralParsers, n: int)
    requires I32Min <= n <= I32Max
    ensures n >= 0 ==> ConvertBuiltinValue(lits, I32, Unquoted(DecimalString(n))) == Ok(I32Value(n as Bson.Int32))
    ensures n < 0 ==> ConvertBuiltinValue(lits, I32, Unquoted("-" + DecimalString(-n))) == Ok(I32Value(n as Bson.Int32))
    ensures n >= 0 ==> ConvertBuiltinValue(lits, I64, Unquoted(DecimalString(n))) == Ok(I64Value(n as Bson.Int64))
    ensures n < 0 ==> ConvertBuiltinValue(lits, I64, Unquoted("-" + DecimalString(-n))) == Ok(I64Value(n as Bson.Int64))
  {
    ParsePrintedSigned(n, I32Min, I32Max);
    ParsePrintedSigned(n, I64Min, I64Max);
  }

  /** `convert_filter_value`: a comparison takes code or a literal of the
      member's type; `$in` and `$nin` take only code, cast to an array. */
  function ConvertFilterValue(lits: LiteralParsers, op: QueryOperator, b: BuiltInType, v: ValueTemplate): (r: Result<Value, Problem>)
    ensures (op == In || op == Nin) ==> (r.Ok? <==> v.CodeText?) && (r.Err? ==> r.error == ExpCode)
    ensures v.CodeText? ==> r.Ok? && r.value.CodeValue? && r.value.code == v.code && r.value.cast.variant == Field(b)
    ensures v.CodeText? ==> (r.value.cast.container == Array <==> op == In || op == Nin)
    ensures !(op == In || op == Nin) && !v.CodeText? ==> r == ConvertBuiltinValue(lits, b, v)
  {
    match op
    case In => if v.CodeText? then Ok(NewBuiltinCode(b, Array, v.code)) else Err(ExpCode)
    case Nin => if v.CodeText? then Ok(NewBuiltinCode(b, Array, v.code)) else Err(ExpCode)
    case _ => if v.CodeText? then Ok(NewBuiltinCode(b, Plain, v.code)) else ConvertBuiltinValue(lits, b, v)
  }

  /** A quoted "timestamp" or "datetime" under the single key "$type". */
  predicate IsTypeObject(v: ValueTemplate) {
    v.NestedObject? && |v.template.fields| == 1
    && ToComposed(v.template.fields[0].attr) == "$type"
    && (v.template.fields[0].value == Quoted("timestamp") || v.template.fields[0].value == Quoted("datetime"))
  }

  /** `convert_date_value`: `$currentDate` takes the literal `true` or an
      object `{"$type": "timestamp"|"datetime"}`, and keeps the type name. */
  function ConvertDateValue(v: ValueTemplate): (r: Result<Value, Problem>)
    ensures r.Ok? <==> v == Unquoted("true") || IsTypeObject(v)
    ensures r.Err? ==> r.error == ExpDateObj
    ensures v == Unquoted("true") ==> r == Ok(BoolValue(true))
    ensures IsTypeObject(v) ==> r == Ok(StringValue(v.template.fields[0].value.text))
  {
    match v
    case Unquoted(t) => if t == "true" then Ok(BoolValue(true)) else Err(ExpDateObj)
    case NestedObject(o) =>
      if |o.fields| == 1 && ToComposed(o.fields[0].attr) == "$type" then
        match o.fields[0].value
        case Quoted(t) => if t == "timestamp" || t == "datetime" then Ok(StringValue(t)) else Err(ExpDateObj)
        case _ => Err(ExpDateObj)
      else Err(ExpDateObj)
    case _ => Err(ExpDateObj)
  }
}
