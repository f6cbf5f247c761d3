/** The schema builder of the older macro crate (`huus_macros/src/
    definition_spec.rs` and the `SpecBuilder` of
    `huus_macros/src/definition_input.rs`). It shares the macro-support
    crate's schema types, name lookup, `make_variant`, `make_container` and
    `validate_member`, which read the same there; it differs in three ways:
    only `String` members may be indexed, `build` validates before converting,
    and `parse_instruction_stream` starts from an empty schema and builds it.
    Its structs carry no indexed fields. */
module LegacyDefinition {
  import opened Wrappers
  import Text
  import opened Schema
  import SchemaRules = Schema
  import opened ParseSteps
  import opened Tokens
  import opened DefinitionInput
  import opened DefinitionValidator
  import DefinitionInterpreter

  // ----- Members ------------------------------------------------------------

  /** `Variant::allows_indexing` of the older crate: a `String` member only. */
  predicate AllowsIndexing(v: Variant) {
    v == Field(BuiltInType.String)
  }

  /** The older crate allows indexing on fewer types: exactly `ObjectId` is
      indexable in the newer crate only. */
  lemma IndexingNarrower(v: Variant)
    ensures AllowsIndexing(v) ==> SchemaRules.AllowsIndexing(v)
    ensures SchemaRules.AllowsIndexing(v) && !AllowsIndexing(v) <==> v == Field(ObjectId)
  {
  }

  /** `Member::new` of the older crate: the same three checks in the same
      order, the last with the older crate's indexing rule. */
  function NewMember(
    rustName: string, dbName: string, variant: Variant, container: Container,
    isOptional: bool, isIndexed: bool): (r: Result<Member, ParseError>)
    ensures r == Err(RustName) <==> Text.StartsWith(rustName, ForbiddenPrefix)
    ensures r.Err? && r.error.DbName? ==>
              !Text.StartsWith(rustName, ForbiddenPrefix)
              && (exists i :: 0 <= i < |dbName| && dbName[i] == r.error.character
                    && !IsDbNameChar(dbName[i]) && forall j :: 0 <= j < i ==> IsDbNameChar(dbName[j]))
    ensures r == Err(Type) <==>
              !Text.StartsWith(rustName, ForbiddenPrefix)
              && (forall i :: 0 <= i < |dbName| ==> IsDbNameChar(dbName[i]))
              && isIndexed && !AllowsIndexing(variant)
    ensures r.Ok? ==> r.value == Member(rustName, dbName, variant, container, isOptional, isIndexed)
  {
    if Text.StartsWith(rustName, ForbiddenPrefix) then Err(RustName)
    else
      match FirstForbidden(dbName)
      case Some(i) => Err(DbName(dbName[i]))
      case None =>
        if isIndexed && !AllowsIndexing(variant) then Err(Type)
        else Ok(Member(rustName, dbName, variant, container, isOptional, isIndexed))
  }

  /** An indexed `ObjectId` member with acceptable names. */
  predicate IndexedObjectId(dbName: string, variant: Variant, isIndexed: bool) {
    isIndexed && variant == Field(ObjectId) && forall i :: 0 <= i < |dbName| ==> IsDbNameChar(dbName[i])
  }

  /** The two crates' `Member::new` agree except on an indexed `ObjectId`
      member, which only the newer crate accepts. */
  lemma NewMemberAgrees(
    rustName: string, dbName: string, variant: Variant, container: Container,
    isOptional: bool, isIndexed: bool)
    ensures var legacy := NewMember(rustName, dbName, variant, container, isOptional, isIndexed);
            var current := SchemaRules.NewMember(rustName, dbName, variant, container, isOptional, isIndexed);
            && (legacy == current <==>
                  Text.StartsWith(rustName, ForbiddenPrefix) || !IndexedObjectId(dbName, variant, isIndexed))
            && (!Text.StartsWith(rustName, ForbiddenPrefix) && IndexedObjectId(dbName, variant, isIndexed) ==>
                  legacy == Err(Type) && current.Ok?)
  {
    IndexingNarrower(variant);
  }

  // ----- Structs ------------------------------------------------------------

  /** One iteration of the member loop of `build_struct`. */
  function ConvertMember(ts: seq<EntityTemplate>, m: MemberTemplate): (r: Result<Result<Member, ParseError>, ()>)
    requires Complete(m)
    ensures r.Ok? <==> DefinitionValidator.ConvertMember(ts, m).Ok?
    ensures r.Ok? && r.value.Ok? ==> r.value.value.isIndexed ==> AllowsIndexing(r.value.value.variant)
  {
    var v :- MakeVariant(ts, m.variant.value);
    var c :- ConvertContainer(ts, m.container);
    Ok(NewMember(m.rustName.value, m.dbName.value, v, c, m.isOptional, m.isIndexed))
  }

  /** The member loop of `build_struct`: refused members are dropped, the
      first unresolved type fails the struct. */
  function ConvertMembers(ts: seq<EntityTemplate>, ms: seq<MemberTemplate>): (r: Result<seq<Member>, ()>)
    requires AllComplete(ms)
    ensures r.Ok? <==> forall k :: 0 <= k < |ms| ==> ConvertMember(ts, ms[k]).Ok?
    ensures r.Ok? ==> forall n :: 0 <= n < |r.value| ==> r.value[n].isIndexed ==> AllowsIndexing(r.value[n].variant)
    decreases |ms|
  {
    if |ms| == 0 then Ok([])
    else
      assert forall k :: 0 < k < |ms| ==> ms[k] == ms[1..][k - 1];
      match ConvertMember(ts, ms[0])
      case Err(_) => Err(())
      case Ok(here) =>
        match ConvertMembers(ts, ms[1..])
        case Err(_) => Err(())
        case Ok(rest) => Ok(Kept(here) + rest)
  }

  /** The members the older crate keeps out of those the newer one keeps:
      all but the indexed `ObjectId` members. */
  function WithoutIndexedObjectIds(ms: seq<Member>): (r: seq<Member>)
    ensures |r| <= |ms|
    decreases |ms|
  {
    if |ms| == 0 then []
    else
      var rest := WithoutIndexedObjectIds(ms[1..]);
      if ms[0].isIndexed && ms[0].variant == Field(ObjectId) then rest else [ms[0]] + rest
  }

  /** The older crate keeps exactly the members the newer one keeps, except
      the indexed `ObjectId` ones, in the same order. */
  lemma {:induction false} ConvertMembersAgree(ts: seq<EntityTemplate>, ms: seq<MemberTemplate>)
    requires AllComplete(ms)
    ensures ConvertMembers(ts, ms).Ok? <==> DefinitionValidator.ConvertMembers(ts, ms).Ok?
    ensures ConvertMembers(ts, ms).Ok? ==>
              ConvertMembers(ts, ms).value == WithoutIndexedObjectIds(DefinitionValidator.ConvertMembers(ts, ms).value)
    decreases |ms|
  {
    if |ms| > 0 {
      assert AllComplete(ms[1..]) by {
        assert forall k :: 0 < k < |ms| ==> ms[k] == ms[1..][k - 1];
      }
      ConvertMembersAgree(ts, ms[1..]);
      var m := ms[0];
      if ConvertMember(ts, m).Ok? && ConvertMembers(ts, ms[1..]).Ok? {
        var v := MakeVariant(ts, m.variant.value).value;
        var c := ConvertContainer(ts, m.container).value;
        NewMemberAgrees(m.rustName.value, m.dbName.value, v, c, m.isOptional, m.isIndexed);
        var here := ConvertMember(ts, m).value;
        var here' := DefinitionValidator.ConvertMember(ts, m).value;
        var rest' := DefinitionValidator.ConvertMembers(ts, ms[1..]).value;
        assert DefinitionValidator.ConvertMembers(ts, ms).value == Kept(here') + rest';
        WithoutKept(here', rest');
      }
    }
  }

  /** Filtering a kept member and the members after it. */
  lemma WithoutKept(c: Result<Member, ParseError>, rest: seq<Member>)
    ensures c.Err? ==> WithoutIndexedObjectIds(Kept(c) + rest) == WithoutIndexedObjectIds(rest)
    ensures c.Ok? ==> WithoutIndexedObjectIds(Kept(c) + rest) ==
                        (if c.value.isIndexed && c.value.variant == Field(ObjectId) then WithoutIndexedObjectIds(rest)
                         else [c.value] + WithoutIndexedObjectIds(rest))
  {
    if c.Ok? {
      assert (Kept(c) + rest)[0] == c.value;
      assert (Kept(c) + rest)[1..] == rest;
    } else {
      assert Kept(c) + rest == rest;
    }
  }

  /** `build_struct`: the name, the collection and the kept members. */
  function BuildStruct(ts: seq<EntityTemplate>, st: StructTemplate): (r: Result<Struct, ()>)
    requires AllComplete(st.members)
    ensures r.Ok? <==> DefinitionValidator.ConvertStruct(ts, st).Ok?
    ensures r.Ok? ==> r.value.structName == DefinedType(st.structName) && r.value.collectionName == st.collectionName
    ensures r.Ok? ==> r.value.indexedFields == []
    ensures r.Ok? ==> r.value.members == WithoutIndexedObjectIds(DefinitionValidator.ConvertStruct(ts, st).value.members)
  {
    ConvertMembersAgree(ts, st.members);
    var members :- ConvertMembers(ts, st.members);
    Ok(Struct(DefinedType(st.structName), st.collectionName, members, []))
  }

  // ----- The schema ---------------------------------------------------------

  /** The entity a template becomes in the older `build`: a struct keeps the
      newer crate's members but the indexed `ObjectId` ones; enums and unions
      are the same. */
  predicate BuiltFromLegacy(ts: seq<EntityTemplate>, t: EntityTemplate, e: Entity)
    requires t.StructDef? ==> AllComplete(t.structDef.members)
  {
    match t
    case StructDef(st) =>
      && DefinitionValidator.ConvertStruct(ts, st).Ok?
      && var s := DefinitionValidator.ConvertStruct(ts, st).value;
         e == StructEntity(s.(members := WithoutIndexedObjectIds(s.members)))
    case EnumDef(en) => e == EnumEntity(EnumFromTemplate(en))
    case UnionDef(u) => e == UnionEntity(UnionFromTemplate(u))
  }

  /** The entity loop of `build`. */
  function BuildFrom(ts: seq<EntityTemplate>, es: seq<EntityTemplate>): (r: Result<seq<Entity>, ()>)
    requires TemplatesComplete(es)
    ensures r.Ok? <==> forall i :: 0 <= i < |es| && es[i].StructDef? ==> ConvertStruct(ts, es[i].structDef).Ok?
    ensures r.Ok? ==> |r.value| == |es| && forall i :: 0 <= i < |es| ==> BuiltFromLegacy(ts, es[i], r.value[i])
    decreases |es|
  {
    if |es| == 0 then Ok([])
    else
      assert forall i :: 0 < i < |es| ==> es[i] == es[1..][i - 1];
      var e :- match es[0]
               case StructDef(st) =>
                 var s :- BuildStruct(ts, st);
                 Ok(StructEntity(s))
               case EnumDef(en) => Ok(EnumEntity(EnumFromTemplate(en)))
               case UnionDef(u) => Ok(UnionEntity(UnionFromTemplate(u)));
      var rest :- BuildFrom(ts, es[1..]);
      Ok([e] + rest)
  }

  /** `SpecBuilder::build`: `validate` first, then one entity per template
      in definition order. */
  function Build(ts: seq<EntityTemplate>): (r: Result<Schema, ()>)
    requires TemplatesComplete(ts)
    ensures r.Ok? <==> Validate(ts).Ok? && DefinitionValidator.Build(ts).Ok?
    ensures r.Ok? ==> |r.value.entities| == |ts|
    ensures r.Ok? ==> forall i :: 0 <= i < |ts| ==> BuiltFromLegacy(ts, ts[i], r.value.entities[i])
  {
    var _ :- Validate(ts);
    var es :- BuildFrom(ts, ts);
    Ok(Schema(es))
  }

  /** The older crate builds, per template, the newer crate's entity with the
      indexed `ObjectId` members removed. */
  lemma BuildAgrees(ts: seq<EntityTemplate>, i: nat)
    requires TemplatesComplete(ts)
    requires Build(ts).Ok? && i < |ts|
    ensures DefinitionValidator.Build(ts).Ok?
    ensures var e := Build(ts).value.entities[i];
            var e' := DefinitionValidator.Build(ts).value.entities[i];
            if e'.StructEntity? then e == StructEntity(e'.structSpec.(members := WithoutIndexedObjectIds(e'.structSpec.members)))
            else e == e'
  {
    var e := Build(ts).value.entities[i];
    var e' := DefinitionValidator.Build(ts).value.entities[i];
    assert BuiltFromLegacy(ts, ts[i], e);
    assert DefinitionValidator.BuiltFrom(ts, ts[i], e');
  }

  /** `parse_instruction_stream` of the older crate: the stream is parsed
      with the older string rule, from an empty schema, and the templates
      built. */
  function ParseInstructionStream(stream: seq<TokenTree>): (r: Result<Schema, Failure>)
    ensures |stream| == 0 ==> r == Err(Rejected)
    ensures r.Ok? ==> |r.value.entities| > 0
    ensures r.Ok? ==> var parsed := DefinitionInterpreter.ParseInstructionStream(DefinitionInterpreter.Current, [], stream);
                      parsed.Ok? && TemplatesComplete(parsed.value) && Build(parsed.value) == Ok(r.value)
  {
    DefinitionInterpreter.InstructionStreamNarrower([], stream);
    match DefinitionInterpreter.ParseInstructionStream(DefinitionInterpreter.Legacy, [], stream)
    case Err(f) => Err(f)
    case Ok(ts) =>
      match Build(ts)
      case Ok(s) => Ok(s)
      case Err(_) => Err(Rejected)
  }
}
