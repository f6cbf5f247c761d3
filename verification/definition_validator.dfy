/** The checks and conversions between the parsed templates and the schema
    (`huus_macros_support/src/definition/validator.rs`): map keys are
    validated, names are resolved to built-in or defined types, and each
    template becomes a schema entity. Diagnostics are reported as values;
    their message text and spans are left out. */
module DefinitionValidator {
  import opened Wrappers
  import opened Schema
  import opened DefinitionInput

  // ----- Looking up templates -----------------------------------------------

  /** `i` is the position of the first template with that name. */
  predicate IsFirstTemplate(ts: seq<EntityTemplate>, i: int, name: string) {
    0 <= i < |ts| && TemplateName(ts[i]) == name
    && forall j :: 0 <= j < i ==> TemplateName(ts[j]) != name
  }

  /** The position of the first template with that name, or `|ts|`. */
  function FirstTemplateNamed(ts: seq<EntityTemplate>, name: string): (i: nat)
    ensures i <= |ts|
    ensures i < |ts| ==> IsFirstTemplate(ts, i, name)
    ensures i == |ts| ==> forall j :: 0 <= j < |ts| ==> TemplateName(ts[j]) != name
    decreases |ts|
  {
    if |ts| == 0 then 0
    else if TemplateName(ts[0]) == name then 0
    else 1 + FirstTemplateNamed(ts[1..], name)
  }

  /** `Validator::find_entity`: the first template, in definition order, with
      that name. */
  function FindTemplate(ts: seq<EntityTemplate>, name: string): (r: Option<EntityTemplate>)
    ensures r.None? <==> forall j :: 0 <= j < |ts| ==> TemplateName(ts[j]) != name
    ensures r.Some? ==> exists i :: IsFirstTemplate(ts, i, name) && ts[i] == r.value
  {
    var i := FirstTemplateNamed(ts, name);
    if i < |ts| then Some(ts[i]) else None
  }

  /** One of the eight built-in spellings. */
  predicate IsBuiltInName(name: string) {
    exists b: BuiltInType :: BuiltInName(b) == name
  }

  // ----- Validation ---------------------------------------------------------

  /** Why a map key type was refused: a built-in other than `String`, a
      defined type that is not an enum, or a name that is not defined. */
  datatype KeyProblem = KeyNotString | KeyNotEnum | KeyUndefined

  /** `validate_member`: a map must be keyed by `String` or by an enum of the
      schema; arrays and plain members always pass. */
  function ValidateMember(ts: seq<EntityTemplate>, m: MemberTemplate): (r: Result<(), KeyProblem>)
    ensures m.container == ArrayTemplate || m.container == PlainTemplate ==> r.Ok?
    ensures m.container.BTreeMapTemplate? || m.container.HashMapTemplate? ==>
              var k := m.container.key;
              && (r.Ok? <==> k == "String" || (!IsBuiltInName(k) && exists i :: IsFirstTemplate(ts, i, k) && ts[i].EnumDef?))
              && (r == Err(KeyNotString) <==> IsBuiltInName(k) && k != "String")
              && (r == Err(KeyUndefined) <==> !IsBuiltInName(k) && forall j :: 0 <= j < |ts| ==> TemplateName(ts[j]) != k)
              && (r == Err(KeyNotEnum) <==> !IsBuiltInName(k) && exists i :: IsFirstTemplate(ts, i, k) && !ts[i].EnumDef?)
  {
    match m.container
    case ArrayTemplate => Ok(())
    case PlainTemplate => Ok(())
    case _ =>
      var k := m.container.key;
      match FromName(k)
      case Ok(b) => if b == String then Ok(()) else Err(KeyNotString)
      case Err(_) =>
        match FindTemplate(ts, k)
        case Some(EnumDef(_)) => Ok(())
        case Some(_) => Err(KeyNotEnum)
        case None => Err(KeyUndefined)
  }

  /** Every member of the list passes `validate_member`. */
  predicate MembersPass(ts: seq<EntityTemplate>, ms: seq<MemberTemplate>) {
    forall k :: 0 <= k < |ms| ==> ValidateMember(ts, ms[k]).Ok?
  }

  /** The member loop of `validate`: `is_ok &= ...` over the members. */
  function CheckMembers(ts: seq<EntityTemplate>, ms: seq<MemberTemplate>): (ok: bool)
    ensures ok <==> MembersPass(ts, ms)
    decreases |ms|
  {
    if |ms| == 0 then true
    else
      var rest := CheckMembers(ts, ms[1..]);
      assert MembersPass(ts, ms) <==> ValidateMember(ts, ms[0]).Ok? && MembersPass(ts, ms[1..]) by {
        assert forall k :: 0 < k < |ms| ==> ms[k] == ms[1..][k - 1];
      }
      ValidateMember(ts, ms[0]).Ok? && rest
  }

  /** Every member of every struct template passes `validate_member`. */
  predicate AllMembersPass(ts: seq<EntityTemplate>, es: seq<EntityTemplate>) {
    forall i :: 0 <= i < |es| && es[i].StructDef? ==> MembersPass(ts, es[i].structDef.members)
  }

  /** The entity loop of `validate`, for the result only. */
  function CheckEntities(ts: seq<EntityTemplate>, es: seq<EntityTemplate>): (ok: bool)
    ensures ok <==> AllMembersPass(ts, es)
    decreases |es|
  {
    if |es| == 0 then true
    else
      var here := if es[0].StructDef? then CheckMembers(ts, es[0].structDef.members) else true;
      var rest := CheckEntities(ts, es[1..]);
      assert AllMembersPass(ts, es) <==> (es[0].StructDef? ==> MembersPass(ts, es[0].structDef.members)) && AllMembersPass(ts, es[1..]) by {
        assert forall i :: 0 < i < |es| ==> es[i] == es[1..][i - 1];
      }
      here && rest
  }

  /** `validate`: Ok exactly when every struct member passes; repeated names
      only produce diagnostics (see `Redefinitions`) and never change the
      result. */
  function Validate(ts: seq<EntityTemplate>): (r: Result<(), ()>)
    ensures r.Ok? <==> forall i, k :: (0 <= i < |ts| && ts[i].StructDef? && 0 <= k < |ts[i].structDef.members|)
                                       ==> ValidateMember(ts, ts[i].structDef.members[k]).Ok?
  {
    if CheckEntities(ts, ts) then Ok(()) else Err(())
  }

  /** The name at `i` was already in `seen` or is the name of an earlier template. */
  predicate NameSeen(ts: seq<EntityTemplate>, seen: set<string>, i: nat)
    requires i < |ts|
  {
    TemplateName(ts[i]) in seen || exists j :: 0 <= j < i && TemplateName(ts[j]) == TemplateName(ts[i])
  }

  /** `is_name_unique` over the one namespace of struct, enum and union names:
      position `i` is flagged as a redefinition exactly when its name was
      already in `seen` or an earlier template has it. */
  function Redefinitions(ts: seq<EntityTemplate>, seen: set<string>): (r: seq<bool>)
    ensures |r| == |ts|
    ensures forall i :: 0 <= i < |ts| ==> (r[i] <==> NameSeen(ts, seen, i))
    decreases |ts|
  {
    if |ts| == 0 then []
    else
      var n := TemplateName(ts[0]);
      var rest := Redefinitions(ts[1..], seen + {n});
      var r := [n in seen] + rest;
      forall i | 0 <= i < |ts|
        ensures r[i] <==> NameSeen(ts, seen, i)
      {
        if i > 0 {
          assert r[i] == rest[i - 1];
          NameSeenShift(ts, seen, i);
        }
      }
      r
  }

  /** Seen before position `i` of the templates exactly when seen before
      position `i - 1` of the rest, once the first name is seen. */
  lemma NameSeenShift(ts: seq<EntityTemplate>, seen: set<string>, i: nat)
    requires 0 < i < |ts|
    ensures NameSeen(ts, seen, i) <==> NameSeen(ts[1..], seen + {TemplateName(ts[0])}, i - 1)
  {
    assert ts[1..][i - 1] == ts[i];
    if exists j :: 0 <= j < i && TemplateName(ts[j]) == TemplateName(ts[i]) {
      var j :| 0 <= j < i && TemplateName(ts[j]) == TemplateName(ts[i]);
      if j > 0 {
        assert TemplateName(ts[1..][j - 1]) == TemplateName(ts[i]);
      }
    }
    if exists j :: 0 <= j < i - 1 && TemplateName(ts[1..][j]) == TemplateName(ts[1..][i - 1]) {
      var j :| 0 <= j < i - 1 && TemplateName(ts[1..][j]) == TemplateName(ts[1..][i - 1]);
      assert TemplateName(ts[j + 1]) == TemplateName(ts[i]);
    }
  }

  /** The collection a template is the main document of, if any. */
  function CollectionOf(t: EntityTemplate): Option<string> {
    if t.StructDef? then t.structDef.collectionName else None
  }

  /** The template at `i` is a struct whose collection was already in `seen` or
      is the collection of an earlier struct. */
  predicate CollectionSeen(ts: seq<EntityTemplate>, seen: set<string>, i: nat)
    requires i < |ts|
  {
    CollectionOf(ts[i]).Some?
    && (CollectionOf(ts[i]).value in seen || exists j :: 0 <= j < i && CollectionOf(ts[j]) == CollectionOf(ts[i]))
  }

  /** `is_name_unique` over collection names: position `i` is flagged exactly
      when it is a struct with a collection that was already in `seen` or is
      the collection of an earlier struct. */
  function Reassignments(ts: seq<EntityTemplate>, seen: set<string>): (r: seq<bool>)
    ensures |r| == |ts|
    ensures forall i :: 0 <= i < |ts| ==> (r[i] <==> CollectionSeen(ts, seen, i))
    decreases |ts|
  {
    if |ts| == 0 then []
    else
      var c := CollectionOf(ts[0]);
      var seen' := if c.Some? then seen + {c.value} else seen;
      var rest := Reassignments(ts[1..], seen');
      var r := [c.Some? && c.value in seen] + rest;
      forall i | 0 <= i < |ts|
        ensures r[i] <==> CollectionSeen(ts, seen, i)
      {
        if i > 0 {
          assert r[i] == rest[i - 1];
          CollectionSeenShift(ts, seen, i);
        }
      }
      r
  }

  /** Seen before position `i` of the templates exactly when seen before
      position `i - 1` of the rest, once the first collection is seen. */
  lemma CollectionSeenShift(ts: seq<EntityTemplate>, seen: set<string>, i: nat)
    requires 0 < i < |ts|
    ensures var c := CollectionOf(ts[0]);
            CollectionSeen(ts, seen, i) <==>
            CollectionSeen(ts[1..], if c.Some? then seen + {c.value} else seen, i - 1)
  {
    assert ts[1..][i - 1] == ts[i];
    if exists j :: 0 <= j < i && CollectionOf(ts[j]) == CollectionOf(ts[i]) {
      var j :| 0 <= j < i && CollectionOf(ts[j]) == CollectionOf(ts[i]);
      if j > 0 {
        assert CollectionOf(ts[1..][j - 1]) == CollectionOf(ts[i]);
      }
    }
    if exists j :: 0 <= j < i - 1 && CollectionOf(ts[1..][j]) == CollectionOf(ts[1..][i - 1]) {
      var j :| 0 <= j < i - 1 && CollectionOf(ts[1..][j]) == CollectionOf(ts[1..][i - 1]);
      assert CollectionOf(ts[j + 1]) == CollectionOf(ts[i]);
    }
  }

  /** The first template with a given name is never flagged, and neither is
      the first struct of a collection. */
  lemma FirstNeverFlagged(ts: seq<EntityTemplate>, i: nat)
    requires i < |ts|
    ensures IsFirstTemplate(ts, i, TemplateName(ts[i])) ==> !Redefinitions(ts, {})[i]
    ensures (forall j :: 0 <= j < i ==> CollectionOf(ts[j]) != CollectionOf(ts[i])) ==> !Reassignments(ts, {})[i]
  {
  }

  // ----- Building the schema ------------------------------------------------

  /** The kind of a variant agrees with the kind of the template it names. */
  predicate KindMatches(t: EntityTemplate, v: Variant) {
    (v.StructRef? <==> t.StructDef?) && (v.EnumRef? <==> t.EnumDef?) && (v.UnionRef? <==> t.UnionDef?)
  }

  /** `make_variant`: a built-in spelling wins over a defined name; a defined
      name becomes a reference of the kind of its first template; an unknown
      name is refused. */
  function MakeVariant(ts: seq<EntityTemplate>, name: string): (r: Result<Variant, ()>)
    ensures IsBuiltInName(name) ==> r.Ok? && r.value.Field? && BuiltInName(r.value.field) == name
    ensures !IsBuiltInName(name) ==> (r.Ok? <==> exists j :: 0 <= j < |ts| && TemplateName(ts[j]) == name)
    ensures r.Ok? && !IsBuiltInName(name) ==>
              !r.value.Field? && r.value.Defined() == DefinedType(name)
              && exists i :: IsFirstTemplate(ts, i, name) && KindMatches(ts[i], r.value)
  {
    match FromName(name)
    case Ok(b) => Ok(Field(b))
    case Err(_) =>
      match FindTemplate(ts, name)
      case None => Err(())
      case Some(StructDef(_)) => Ok(StructRef(DefinedType(name)))
      case Some(EnumDef(_)) => Ok(EnumRef(DefinedType(name)))
      case Some(UnionDef(_)) => Ok(UnionRef(DefinedType(name)))
  }

  /** `convert_container`: arrays and plain members convert as they are; a
      map's key type name is resolved with `make_variant`. */
  function ConvertContainer(ts: seq<EntityTemplate>, c: ContainerTemplate): (r: Result<Container, ()>)
    ensures c == ArrayTemplate ==> r == Ok(Array)
    ensures c == PlainTemplate ==> r == Ok(Plain)
    ensures c.BTreeMapTemplate? || c.HashMapTemplate? ==> (r.Ok? <==> MakeVariant(ts, c.key).Ok?)
    ensures r.Ok? && c.BTreeMapTemplate? ==> r.value == BTreeMap(MakeVariant(ts, c.key).value)
    ensures r.Ok? && c.HashMapTemplate? ==> r.value == HashMap(MakeVariant(ts, c.key).value)
  {
    match c
    case ArrayTemplate => Ok(Array)
    case BTreeMapTemplate(k) =>
      var v :- MakeVariant(ts, k);
      Ok(BTreeMap(v))
    case HashMapTemplate(k) =>
      var v :- MakeVariant(ts, k);
      Ok(HashMap(v))
    case PlainTemplate => Ok(Plain)
  }

  /** One iteration of the member loop of `convert_struct`: `Err` when the
      type or container does not resolve (the `?`), otherwise what
      `Member::new` says about the member. */
  function ConvertMember(ts: seq<EntityTemplate>, m: MemberTemplate): (r: Result<Result<Member, ParseError>, ()>)
    requires Complete(m)
    ensures r.Ok? <==> MakeVariant(ts, m.variant.value).Ok? && ConvertContainer(ts, m.container).Ok?
    ensures r.Ok? && r.value.Ok? ==>
              r.value.value == Member(m.rustName.value, m.dbName.value, MakeVariant(ts, m.variant.value).value,
                                      ConvertContainer(ts, m.container).value, m.isOptional, m.isIndexed)
    ensures r.Ok? && r.value.Ok? ==> (m.isIndexed ==> AllowsIndexing(r.value.value.variant))
  {
    var v :- MakeVariant(ts, m.variant.value);
    var c :- ConvertContainer(ts, m.container);
    Ok(NewMember(m.rustName.value, m.dbName.value, v, c, m.isOptional, m.isIndexed))
  }

  /** What one converted member adds to the struct: itself when
      `Member::new` accepted it, nothing otherwise. */
  function Kept(c: Result<Member, ParseError>): (r: seq<Member>)
    ensures c.Ok? ==> r == [c.value]
    ensures c.Err? ==> r == []
  {
    if c.Ok? then [c.value] else []
  }

  /** The member loop of `convert_struct`: members refused by `Member::new`
      are dropped (after a diagnostic), the others kept in order; the first
      member whose type does not resolve makes the whole struct fail. */
  function ConvertMembers(ts: seq<EntityTemplate>, ms: seq<MemberTemplate>): (r: Result<seq<Member>, ()>)
    requires AllComplete(ms)
    ensures r.Ok? <==> forall k :: 0 <= k < |ms| ==> ConvertMember(ts, ms[k]).Ok?
    ensures r.Ok? ==> |r.value| <= |ms|
    decreases |ms|
  {
    if |ms| == 0 then Ok([])
    else
      assert forall k :: 0 < k < |ms| ==> ms[k] == ms[1..][k - 1];
      match ConvertMember(ts, ms[0])
      case Err(_) => Err(())
      case Ok(here) =>
        match ConvertMembers(ts, ms[1..])
        case Err(_) => Err(())
        case Ok(rest) => Ok(Kept(here) + rest)
  }

  /** Each kept member comes from a template `Member::new` accepted. */
  lemma {:induction false} KeptFromTemplate(ts: seq<EntityTemplate>, ms: seq<MemberTemplate>, n: nat)
    requires AllComplete(ms) && ConvertMembers(ts, ms).Ok? && n < |ConvertMembers(ts, ms).value|
    ensures exists k :: 0 <= k < |ms| && ConvertMember(ts, ms[k]) == Ok(Ok(ConvertMembers(ts, ms).value[n]))
    decreases |ms|
  {
    assert forall k :: 0 < k < |ms| ==> ms[k] == ms[1..][k - 1];
    var here := ConvertMember(ts, ms[0]).value;
    var rest := ConvertMembers(ts, ms[1..]).value;
    var all := ConvertMembers(ts, ms).value;
    assert all == Kept(here) + rest;
    if here.Ok? && n == 0 {
      assert ConvertMember(ts, ms[0]) == Ok(Ok(all[n]));
    } else {
      var n' := n - |Kept(here)|;
      assert all[n] == rest[n'];
      KeptFromTemplate(ts, ms[1..], n');
      var k :| 0 <= k < |ms[1..]| && ConvertMember(ts, ms[1..][k]) == Ok(Ok(rest[n']));
      assert ConvertMember(ts, ms[k + 1]) == Ok(Ok(all[n]));
    }
  }

  /** Every member `Member::new` accepts is kept. */
  lemma {:induction false} AcceptedIsKept(ts: seq<EntityTemplate>, ms: seq<MemberTemplate>, k: nat)
    requires AllComplete(ms) && ConvertMembers(ts, ms).Ok? && k < |ms|
    requires ConvertMember(ts, ms[k]).value.Ok?
    ensures ConvertMember(ts, ms[k]).value.value in ConvertMembers(ts, ms).value
    decreases |ms|
  {
    var here := ConvertMember(ts, ms[0]).value;
    assert ConvertMembers(ts, ms[1..]).Ok?;
    var rest := ConvertMembers(ts, ms[1..]).value;
    assert ConvertMembers(ts, ms).value == Kept(here) + rest;
    if k > 0 {
      assert ms[1..][k - 1] == ms[k];
      AcceptedIsKept(ts, ms[1..], k - 1);
      assert ConvertMember(ts, ms[k]).value.value in rest;
    } else {
      assert Kept(here) == [here.value];
    }
  }

  /** No member is dropped exactly when `Member::new` accepts them all. */
  lemma {:induction false} NothingDropped(ts: seq<EntityTemplate>, ms: seq<MemberTemplate>)
    requires AllComplete(ms) && ConvertMembers(ts, ms).Ok?
    ensures |ConvertMembers(ts, ms).value| == |ms| <==> forall k :: 0 <= k < |ms| ==> ConvertMember(ts, ms[k]).value.Ok?
    decreases |ms|
  {
    if |ms| > 0 {
      assert forall k :: 0 < k < |ms| ==> ms[k] == ms[1..][k - 1];
      var here := ConvertMember(ts, ms[0]).value;
      var rest := ConvertMembers(ts, ms[1..]).value;
      assert ConvertMembers(ts, ms).value == Kept(here) + rest;
      NothingDropped(ts, ms[1..]);
    }
  }

  /** Converting members distributes over concatenation, so the kept members
      stay in source order. */
  lemma {:induction false} ConvertMembersAppend(ts: seq<EntityTemplate>, ms1: seq<MemberTemplate>, ms2: seq<MemberTemplate>)
    requires AllComplete(ms1) && AllComplete(ms2)
    ensures AllComplete(ms1 + ms2)
    ensures ConvertMembers(ts, ms1 + ms2).Ok? <==> ConvertMembers(ts, ms1).Ok? && ConvertMembers(ts, ms2).Ok?
    ensures ConvertMembers(ts, ms1 + ms2).Ok? ==>
              ConvertMembers(ts, ms1 + ms2).value == ConvertMembers(ts, ms1).value + ConvertMembers(ts, ms2).value
    decreases |ms1|
  {
    AllCompleteAppend(ms1, ms2);
    var all := ms1 + ms2;
    if |ms1| > 0 {
      assert all[1..] == ms1[1..] + ms2;
      assert all[0] == ms1[0];
      AllCompleteAppend(ms1[1..], ms2);
      ConvertMembersAppend(ts, ms1[1..], ms2);
      var head := ConvertMember(ts, ms1[0]);
      assert ConvertMembers(ts, all) == if head.Err? || ConvertMembers(ts, all[1..]).Err? then Err(())
                                         else Ok(Kept(head.value) + ConvertMembers(ts, all[1..]).value);
      assert ConvertMembers(ts, ms1) == if head.Err? || ConvertMembers(ts, ms1[1..]).Err? then Err(())
                                         else Ok(Kept(head.value) + ConvertMembers(ts, ms1[1..]).value);
    } else {
      assert all == ms2;
    }
  }

  /** Two lists of complete templates make a complete list. */
  lemma AllCompleteAppend(ms1: seq<MemberTemplate>, ms2: seq<MemberTemplate>)
    requires AllComplete(ms1) && AllComplete(ms2)
    ensures AllComplete(ms1 + ms2)
  {
    assert forall k :: 0 <= k < |ms1 + ms2| ==> (ms1 + ms2)[k] == if k < |ms1| then ms1[k] else ms2[k - |ms1|];
  }

  /** A single member is kept exactly when `Member::new` accepts it. */
  lemma ConvertSingleMember(ts: seq<EntityTemplate>, m: MemberTemplate)
    requires Complete(m)
    ensures AllComplete([m])
    ensures ConvertMember(ts, m) == Ok(Err(RustName)) ==> ConvertMembers(ts, [m]) == Ok([])
    ensures ConvertMember(ts, m).Ok? && ConvertMember(ts, m).value.Ok? ==>
              ConvertMembers(ts, [m]) == Ok([ConvertMember(ts, m).value.value])
    ensures ConvertMember(ts, m).Ok? && ConvertMember(ts, m).value.Err? ==> ConvertMembers(ts, [m]) == Ok([])
  {
    assert [m][1..] == [];
    assert ConvertMembers(ts, [m][1..]) == Ok([]);
    if ConvertMember(ts, m).Ok? {
      assert Kept(ConvertMember(ts, m).value) + [] == Kept(ConvertMember(ts, m).value);
    }
  }

  /** `convert_struct`: the struct keeps its name, collection and the members
      `Member::new` accepts; its indexed fields stay empty until `prepare`. */
  function ConvertStruct(ts: seq<EntityTemplate>, st: StructTemplate): (r: Result<Struct, ()>)
    requires AllComplete(st.members)
    ensures r.Ok? <==> forall k :: 0 <= k < |st.members| ==> ConvertMember(ts, st.members[k]).Ok?
    ensures r.Ok? ==> r.value.structName == DefinedType(st.structName) && r.value.collectionName == st.collectionName
    ensures r.Ok? ==> r.value.indexedFields == [] && r.value.members == ConvertMembers(ts, st.members).value
  {
    var members :- ConvertMembers(ts, st.members);
    Ok(Struct(DefinedType(st.structName), st.collectionName, members, []))
  }

  /** The entity a template becomes in `build`. */
  predicate BuiltFrom(ts: seq<EntityTemplate>, t: EntityTemplate, e: Entity)
    requires t.StructDef? ==> AllComplete(t.structDef.members)
  {
    match t
    case StructDef(st) => ConvertStruct(ts, st).Ok? && e == StructEntity(ConvertStruct(ts, st).value)
    case EnumDef(en) => e == EnumEntity(EnumFromTemplate(en))
    case UnionDef(u) => e == UnionEntity(UnionFromTemplate(u))
  }

  /** The loop of `build` over the templates `es`. */
  function BuildFrom(ts: seq<EntityTemplate>, es: seq<EntityTemplate>): (r: Result<seq<Entity>, ()>)
    requires TemplatesComplete(es)
    ensures r.Ok? <==> forall i :: 0 <= i < |es| && es[i].StructDef? ==> ConvertStruct(ts, es[i].structDef).Ok?
    ensures r.Ok? ==> |r.value| == |es| && forall i :: 0 <= i < |es| ==> BuiltFrom(ts, es[i], r.value[i])
    decreases |es|
  {
    if |es| == 0 then Ok([])
    else
      assert forall i :: 0 < i < |es| ==> es[i] == es[1..][i - 1];
      var e :- match es[0]
               case StructDef(st) =>
                 var s :- ConvertStruct(ts, st);
                 Ok(StructEntity(s))
               case EnumDef(en) => Ok(EnumEntity(EnumFromTemplate(en)))
               case UnionDef(u) => Ok(UnionEntity(UnionFromTemplate(u)));
      var rest :- BuildFrom(ts, es[1..]);
      Ok([e] + rest)
  }

  /** `build`: one entity per template, in definition order, under the same
      name; fails when some struct member's type does not resolve. */
  function Build(ts: seq<EntityTemplate>): (r: Result<Schema, ()>)
    requires TemplatesComplete(ts)
    ensures r.Ok? <==> forall i :: 0 <= i < |ts| && ts[i].StructDef? ==> ConvertStruct(ts, ts[i].structDef).Ok?
    ensures r.Ok? ==> |r.value.entities| == |ts|
    ensures r.Ok? ==> forall i :: 0 <= i < |ts| ==> BuiltFrom(ts, ts[i], r.value.entities[i])
  {
    var es :- BuildFrom(ts, ts);
    Ok(Schema(es))
  }

  /** A built entity keeps its template's name and kind. */
  lemma BuiltKeepsName(ts: seq<EntityTemplate>, t: EntityTemplate, e: Entity)
    requires t.StructDef? ==> AllComplete(t.structDef.members)
    requires BuiltFrom(ts, t, e)
    ensures EntityName(e) == TemplateName(t)
    ensures e.StructEntity? <==> t.StructDef?
    ensures e.EnumEntity? <==> t.EnumDef?
  {
  }
}
