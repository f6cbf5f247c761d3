/** The schema language parser of the macro-support crate
    (`huus_macros_support/src/definition/interpreter.rs`):

      pub struct Name [in "collection"] { member, ... }
      pub enum Name { Choice as "db" [: Struct], ... }

    where a member is `name [as "db"] : Type [?|+] ,` and a type is
    `Vec T`, `BTreeMap K V`, `HashMap K V` or a plain `T`. The source panics
    when an `expect_*` call meets the end of a stream; the model reports that
    outcome as `Panicked` so that every stream has a defined result.

    The older macro crate (`huus_macros/src/definition_input.rs`) parses the
    same language with the same functions; its only difference is that its
    string step refuses an empty string. The parser takes the crate as a
    `Dialect`. */
module DefinitionInterpreter {
  import opened Wrappers
  import opened Tokens
  import opened TokenParser
  import opened ParseSteps
  import opened Schema
  import opened DefinitionInput
  import LegacyParser
  import Seqs

  /** Which crate's parser runs: the macro-support crate or the older macro
      crate. */
  datatype Dialect = Current | Legacy

  /** `expect_string()?`: the older crate's step reads a subset of the strings
      the newer one reads, the same way, and refuses the empty string. */
  function QuotedStep(d: Dialect, p: Parser): (r: Parsed<string>)
    ensures r == Failed(Panicked) <==> IsEnd(p)
    ensures r.Parsed? ==> r == StringStep(p) && "\"" + r.value + "\"" == p.rest[0].text && r.next == Advance(p)
    ensures StringStep(p).Parsed? && (d == Current || StringStep(p).value != "") ==> r == StringStep(p)
    ensures d == Legacy && r.Parsed? ==> r.value != ""
  {
    LegacyParser.StringStepNarrower(p);
    if d == Legacy then LegacyParser.StringStep(p) else StringStep(p)
  }

  // ----- Members ------------------------------------------------------------

  /** The member type after the `:`: `Vec T` is an array of `T`,
      `BTreeMap K V` and `HashMap K V` are maps keyed by `K` holding `V`, and
      any other name is a plain member of that type. */
  function ParseType(typeName: string, p: Parser): (r: Parsed<(ContainerTemplate, string)>)
    ensures r.Parsed? ==> |r.next.rest| <= |p.rest|
    ensures r.Parsed? && typeName == "Vec" ==> |p.rest| >= 1 && p.rest[0].Ident?
    ensures r.Parsed? && typeName in {"BTreeMap", "HashMap"} ==>
              |p.rest| >= 2 && p.rest[0].Ident? && p.rest[1].Ident?
    ensures r.Parsed? && typeName == "Vec" ==> r.value.0 == ArrayTemplate && r.value.1 == p.rest[0].name
    ensures r.Parsed? && typeName == "BTreeMap" ==>
              r.value.0 == BTreeMapTemplate(p.rest[0].name) && r.value.1 == p.rest[1].name
    ensures r.Parsed? && typeName == "HashMap" ==>
              r.value.0 == HashMapTemplate(p.rest[0].name) && r.value.1 == p.rest[1].name
    ensures typeName !in {"Vec", "BTreeMap", "HashMap"} ==> r == Parsed((PlainTemplate, typeName), p)
  {
    if typeName == "Vec" then
      var v :- IdentStep(p, None);
      Parsed((ArrayTemplate, v.0), v.1)
    else if typeName == "BTreeMap" || typeName == "HashMap" then
      var k :- IdentStep(p, None);
      var v :- IdentStep(k.1, None);
      assert p.rest[1] == k.1.rest[0];
      var container := if typeName == "BTreeMap" then BTreeMapTemplate(k.0) else HashMapTemplate(k.0);
      Parsed((container, v.0), v.1)
    else
      Parsed((PlainTemplate, typeName), p)
  }

  /** The database name: `as "db"` when an ident follows the member name,
      otherwise the member name itself. */
  function ParseDbName(d: Dialect, rustName: string, p: Parser): (r: Parsed<string>)
    ensures r.Parsed? ==> |r.next.rest| <= |p.rest|
    ensures !IsIdent(p) ==> r == Parsed(rustName, p)
    ensures IsIdent(p) && r.Parsed? ==> |p.rest| >= 2
    ensures IsIdent(p) && r.Parsed? ==> p.rest[0] == Ident("as") && r.next.rest == p.rest[2..]
  {
    if IsIdent(p) then
      var a :- IdentStep(p, Some("as"));
      var s :- QuotedStep(d, a.1);
      Parsed(s.0, s.1)
    else
      Parsed(rustName, p)
  }

  /** One member, up to and including its separator. After the type comes one
      punctuation mark: `?` marks the member optional and `+` indexed, each
      then needing a `,`; any other mark is taken as the separator. */
  function ParseMember(d: Dialect, p: Parser): (r: Parsed<MemberTemplate>)
    ensures r.Parsed? ==> |r.next.rest| < |p.rest| && p.rest[0].Ident?
    ensures r.Parsed? ==> Complete(r.value) && r.value.rustName == Some(p.rest[0].name)
    ensures r.Parsed? && !IsIdent(Advance(p)) ==> r.value.dbName == r.value.rustName
    ensures r.Parsed? ==> !(r.value.isOptional && r.value.isIndexed)
    ensures IsEnd(p) ==> r == Failed(Panicked)
  {
    var name :- IdentStep(p, None);
    var db :- ParseDbName(d, name.0, name.1);
    var colon :- PunctStep(db.1, Some(':'));
    var typeName :- IdentStep(colon.1, None);
    var ty :- ParseType(typeName.0, typeName.1);
    var mark :- PunctStep(ty.1, None);
    var member := MemberTemplate(Some(name.0), Some(db.0), Some(ty.0.1), false, false, ty.0.0);
    if mark.0 == '?' || mark.0 == '+' then
      var comma :- PunctStep(mark.1, Some(','));
      Parsed(member.(isOptional := mark.0 == '?', isIndexed := mark.0 == '+'), comma.1)
    else
      Parsed(member, mark.1)
  }

  /** `parse_members` from a given position: members until the stream ends. */
  function ParseMembersFrom(d: Dialect, p: Parser): (r: Parsed<seq<MemberTemplate>>)
    ensures r.Parsed? ==> |r.value| >= 1 && IsEnd(r.next)
    ensures r.Parsed? ==> forall i :: 0 <= i < |r.value| ==> Complete(r.value[i])
    decreases |p.rest|
  {
    var m :- ParseMember(d, p);
    if IsEnd(m.1) then Parsed([m.0], m.1)
    else
      var more :- ParseMembersFrom(d, m.1);
      Parsed([m.0] + more.0, more.1)
  }

  /** `parse_members`: the member list inside a brace group; a group with no
      members makes the source panic. */
  function ParseMembers(d: Dialect, group: TokenTree): (r: Result<seq<MemberTemplate>, Failure>)
    requires group.Group?
    ensures |group.stream| == 0 ==> r == Err(Panicked)
    ensures r.Ok? ==> |r.value| >= 1 && forall i :: 0 <= i < |r.value| ==> Complete(r.value[i])
  {
    match ParseMembersFrom(d, NewParser(group.stream))
    case Parsed(ms, _) => Ok(ms)
    case Failed(f) => Err(f)
  }

  // ----- Structs ------------------------------------------------------------

  /** The optional `in "collection"` after a struct name: present when an
      ident follows the name. */
  function ParseCollection(d: Dialect, p: Parser): (r: Parsed<Option<string>>)
    ensures r.Parsed? ==> |r.next.rest| <= |p.rest|
    ensures !IsIdent(p) ==> r == Parsed(None, p)
    ensures IsIdent(p) && r.Parsed? ==> p.rest[0] == Ident("in") && r.value.Some?
  {
    if IsIdent(p) then
      var i :- IdentStep(p, Some("in"));
      var s :- QuotedStep(d, i.1);
      Parsed(Some(s.0), s.1)
    else
      Parsed(None, p)
  }

  /** `parse_struct`: the name, the optional collection, the member group. */
  function ParseStruct(d: Dialect, p: Parser): (r: Parsed<StructTemplate>)
    ensures r.Parsed? ==> |r.next.rest| < |p.rest| && p.rest[0].Ident?
    ensures r.Parsed? ==> r.value.structName == p.rest[0].name && |r.value.members| >= 1
    ensures r.Parsed? ==> AllComplete(r.value.members)
    ensures r.Parsed? && !IsIdent(Advance(p)) ==> r.value.collectionName.None?
  {
    var name :- IdentStep(p, None);
    var coll :- ParseCollection(d, name.1);
    var group :- GroupStep(coll.1);
    match ParseMembers(d, group.0)
    case Err(f) => Failed(f)
    case Ok(members) => Parsed(StructTemplate(name.0, coll.0, members), group.1)
  }

  // ----- Enums and unions ---------------------------------------------------

  /** A value read together with whether an error was reported on the way
      without stopping the parse. The macro fails to compile once an error is
      reported, whatever it goes on to read. */
  datatype Read<+T> = Read(value: T, reported: bool)

  /** What follows a choice name: the database name, the type of a typed
      choice, whether the name was followed by something other than `as`,
      and the token after the choice. */
  datatype ChoiceTail = ChoiceTail(dbName: string, variant: Option<string>, asMissing: bool, sep: Expected)

  /** The rest of one choice after its name. The ident after the name is
      expected to be `as`: any other token is reported and consumed, and the
      parse carries on with the database name. A `:` after the database name
      makes the choice typed. */
  function ReadChoice(d: Dialect, p: Parser): (r: Parsed<ChoiceTail>)
    requires !IsEnd(p)
    ensures r.Parsed? ==> |r.next.rest| < |p.rest|
    ensures r.Parsed? ==> (r.value.asMissing <==> p.rest[0] != Ident("as"))
    ensures r.Parsed? && r.value.sep.EndOfStream? ==> IsEnd(r.next)
  {
    var (asWord, p2) := ExpectIdent(p, Some("as"));
    var db :- QuotedStep(d, p2);
    var (next, p3) := Expect(db.1);
    if next.IsPunct(':') then
      var v :- IdentStep(p3, None);
      var (after, p4) := Expect(v.1);
      Parsed(ChoiceTail(db.0, Some(v.0), asWord.Err?, after), p4)
    else Parsed(ChoiceTail(db.0, None, asWord.Err?, next), p3)
  }

  /** The choices of an `enum` block from a given position: a name, the rest
      of the choice, then `,` or the end. The older crate's `expect` tells
      idents, punctuation and the end apart exactly as this one does
      (`LegacyParser.ExpectAgrees`), so both crates take these branches. */
  function ChoicesFrom(d: Dialect, p: Parser, acc: Choices, reported: bool): (r: Parsed<Read<Choices>>)
    ensures r.Parsed? ==> |r.value.value.enumChoices| >= |acc.enumChoices| && |r.value.value.unionChoices| >= |acc.unionChoices|
    ensures r.Parsed? ==> r.value.value.enumChoices[..|acc.enumChoices|] == acc.enumChoices
    ensures r.Parsed? ==> r.value.value.unionChoices[..|acc.unionChoices|] == acc.unionChoices
    ensures IsEnd(p) ==> r == Parsed(Read(acc, reported), Advance(p))
    ensures r.Parsed? && reported ==> r.value.reported
    ensures r.Parsed? && |p.rest| >= 2 && p.rest[0].Ident? && p.rest[1] != Ident("as") ==> r.value.reported
    decreases |p.rest|
  {
    var (first, p1) := Expect(p);
    if first.EndOfStream? then Parsed(Read(acc, reported), p1)
    else if !first.ExpectedIdent? then Failed(Rejected)
    else if IsEnd(p1) then Failed(Panicked)
    else
      var tail :- ReadChoice(d, p1);
      var choices := if tail.0.variant.Some? then
                       acc.(unionChoices := acc.unionChoices + [UnionChoice(first.name, tail.0.dbName, DefinedType(tail.0.variant.value))])
                     else
                       acc.(enumChoices := acc.enumChoices + [EnumChoice(first.name, tail.0.dbName)]);
      var reported' := reported || tail.0.asMissing;
      if tail.0.sep.EndOfStream? then Parsed(Read(choices, reported'), tail.1)
      else if tail.0.sep.IsPunct(',') then
        var r := ChoicesFrom(d, tail.1, choices, reported');
        if r.Parsed? then
          Seqs.PrefixTrans(acc.enumChoices, choices.enumChoices, r.value.value.enumChoices);
          Seqs.PrefixTrans(acc.unionChoices, choices.unionChoices, r.value.value.unionChoices);
          r
        else r
      else Failed(Rejected)
  }

  /** `parse_choices`: the choices inside an `enum` group, and whether a
      choice name was followed by something other than `as`. */
  function ParseChoices(d: Dialect, group: TokenTree): (r: Result<Read<Choices>, Failure>)
    requires group.Group?
    ensures |group.stream| == 0 ==> r == Ok(Read(Choices([], []), false))
    ensures r.Ok? && |group.stream| >= 2 && group.stream[0].Ident? && group.stream[1] != Ident("as") ==> r.value.reported
  {
    match ChoicesFrom(d, NewParser(group.stream), Choices([], []), false)
    case Parsed(c, _) => Ok(c)
    case Failed(f) => Err(f)
  }

  /** The classification in `parse_enum_or_union`: only untyped choices make
      an enum, only typed ones a union; none, or a mix, is refused. */
  function Classify(name: string, c: Choices): (r: Result<EntityTemplate, Failure>)
    ensures r.Ok? && r.value.EnumDef? <==> |c.enumChoices| > 0 && |c.unionChoices| == 0
    ensures r.Ok? && r.value.UnionDef? <==> |c.enumChoices| == 0 && |c.unionChoices| > 0
    ensures r.Ok? ==> TemplateName(r.value) == name && !r.value.StructDef?
    ensures r.Ok? && r.value.EnumDef? ==> r.value.enumDef.choices == c.enumChoices
    ensures r.Ok? && r.value.UnionDef? ==> r.value.unionDef.choices == c.unionChoices
    ensures r.Err? ==> r.error == Rejected
  {
    if |c.enumChoices| != 0 && |c.unionChoices| == 0 then Ok(EnumDef(EnumTemplate(name, c.enumChoices)))
    else if |c.enumChoices| == 0 && |c.unionChoices| != 0 then Ok(UnionDef(UnionTemplate(name, c.unionChoices)))
    else Err(Rejected)
  }

  /** `parse_enum_or_union`: the name, then the group of choices; an error
      reported among the choices is carried along. */
  function ParseEnumOrUnion(d: Dialect, p: Parser): (r: Parsed<Read<EntityTemplate>>)
    ensures r.Parsed? ==> |r.next.rest| < |p.rest| && p.rest[0].Ident?
    ensures r.Parsed? ==> TemplateName(r.value.value) == p.rest[0].name && !r.value.value.StructDef?
    ensures r.Parsed? && |p.rest| >= 2 && p.rest[1].Group? ==>
              ParseChoices(d, p.rest[1]).Ok? && r.value.reported == ParseChoices(d, p.rest[1]).value.reported
  {
    var name :- IdentStep(p, None);
    var group :- GroupStep(name.1);
    match ParseChoices(d, group.0)
    case Err(f) => Failed(f)
    case Ok(c) =>
      match Classify(name.0, c.value)
      case Err(f) => Failed(f)
      case Ok(e) => Parsed(Read(e, c.reported), group.1)
  }

  // ----- Whole definitions --------------------------------------------------

  /** The definition after `pub`: `struct` or `enum` decides the parser. A
      struct reports nothing without failing. */
  function ParseEntity(d: Dialect, keyword: string, p: Parser): (r: Parsed<Read<EntityTemplate>>)
    ensures r.Parsed? ==> |r.next.rest| < |p.rest|
    ensures keyword !in {"struct", "enum"} ==> r == Failed(Rejected)
    ensures r.Parsed? ==> (r.value.value.StructDef? <==> keyword == "struct")
    ensures r.Parsed? && keyword == "struct" ==> !r.value.reported
  {
    if keyword == "struct" then
      match ParseStruct(d, p)
      case Parsed(s, q) => Parsed(Read(StructDef(s), false), q)
      case Failed(f) => Failed(f)
    else if keyword == "enum" then ParseEnumOrUnion(d, p)
    else Failed(Rejected)
  }

  /** The entity loop of `parse_instruction_stream`: each entity starts with
      the ident `pub` and then `struct` or `enum`; the stream may end only
      between entities. An error reported inside an entity is carried to the
      end. */
  function EntitiesFrom(d: Dialect, p: Parser, acc: seq<EntityTemplate>, reported: bool): (r: Result<Read<seq<EntityTemplate>>, Failure>)
    ensures r.Ok? ==> |r.value.value| >= |acc| && r.value.value[..|acc|] == acc
    ensures r.Ok? && TemplatesComplete(acc) ==> TemplatesComplete(r.value.value)
    ensures r.Ok? && reported ==> r.value.reported
    ensures IsEnd(p) ==> r == Ok(Read(acc, reported))
    ensures !IsEnd(p) && p.rest[0] != Ident("pub") ==> r == Err(Rejected)
    decreases |p.rest|
  {
    // `expect()` gives `EndOfStream` exactly at the end and `Ident("pub")`
    // exactly for that ident token.
    if IsEnd(p) then Ok(Read(acc, reported))
    else if p.rest[0] != Ident("pub") then Err(Rejected)
    else
      match IdentStep(Advance(p), None)
      case Failed(f) => Err(f)
      case Parsed(keyword, p2) =>
        var entity := ParseEntity(d, keyword, p2);
        match entity
        case Failed(f) => Err(f)
        case Parsed(e, p3) =>
          var r := EntitiesFrom(d, p3, acc + [e.value], reported || e.reported);
          assert r.Ok? ==> r.value.value[..|acc|] == r.value.value[..|acc| + 1][..|acc|];
          assert (acc + [e.value])[..|acc|] == acc;
          r
  }

  /** `parse_instruction_stream`: the entities already known are kept and the
      stream's entities appended in order; a stream that adds none, or one
      on which an error was reported, is refused. */
  function ParseInstructionStream(d: Dialect, entities: seq<EntityTemplate>, stream: seq<TokenTree>): (r: Result<seq<EntityTemplate>, Failure>)
    ensures r.Ok? ==> |r.value| > |entities| && r.value[..|entities|] == entities
    ensures r.Ok? && TemplatesComplete(entities) ==> TemplatesComplete(r.value)
    ensures |stream| == 0 ==> r == Err(Rejected)
    ensures |stream| > 0 && stream[0] != Ident("pub") ==> r == Err(Rejected)
    ensures r.Ok? ==> EntitiesFrom(d, NewParser(stream), entities, false) == Ok(Read(r.value, false))
  {
    match EntitiesFrom(d, NewParser(stream), entities, false)
    case Err(f) => Err(f)
    case Ok(all) => if !all.reported && |all.value| > |entities| then Ok(all.value) else Err(Rejected)
  }

  // ----- The two crates ----------------------------------------------------

  /** Whatever the older crate's parser reads, the newer one reads the same
      way: the older language is a sub-language of the newer. Each lemma
      below states this for one parsing function. */
  lemma QuotedStepNarrower(p: Parser)
    ensures QuotedStep(Legacy, p).Parsed? ==> QuotedStep(Current, p) == QuotedStep(Legacy, p)
  {
  }

  lemma DbNameNarrower(rustName: string, p: Parser)
    ensures ParseDbName(Legacy, rustName, p).Parsed? ==> ParseDbName(Current, rustName, p) == ParseDbName(Legacy, rustName, p)
  {
    var a := IdentStep(p, Some("as"));
    if a.Parsed? {
      QuotedStepNarrower(a.next);
    }
  }

  lemma MemberNarrower(p: Parser)
    ensures ParseMember(Legacy, p).Parsed? ==> ParseMember(Current, p) == ParseMember(Legacy, p)
  {
    var name := IdentStep(p, None);
    if name.Parsed? {
      DbNameNarrower(name.value, name.next);
    }
  }

  lemma {:induction false} MembersFromNarrower(p: Parser)
    ensures ParseMembersFrom(Legacy, p).Parsed? ==> ParseMembersFrom(Current, p) == ParseMembersFrom(Legacy, p)
    decreases |p.rest|
  {
    MemberNarrower(p);
    var m := ParseMember(Legacy, p);
    if m.Parsed? && !IsEnd(m.next) {
      MembersFromNarrower(m.next);
    }
  }

  lemma MembersNarrower(group: TokenTree)
    requires group.Group?
    ensures ParseMembers(Legacy, group).Ok? ==> ParseMembers(Current, group) == ParseMembers(Legacy, group)
  {
    MembersFromNarrower(NewParser(group.stream));
  }

  lemma CollectionNarrower(p: Parser)
    ensures ParseCollection(Legacy, p).Parsed? ==> ParseCollection(Current, p) == ParseCollection(Legacy, p)
  {
    var i := IdentStep(p, Some("in"));
    if i.Parsed? {
      QuotedStepNarrower(i.next);
    }
  }

  lemma StructNarrower(p: Parser)
    ensures ParseStruct(Legacy, p).Parsed? ==> ParseStruct(Current, p) == ParseStruct(Legacy, p)
  {
    var name := IdentStep(p, None);
    if name.Parsed? {
      CollectionNarrower(name.next);
      var coll := ParseCollection(Legacy, name.next);
      if coll.Parsed? {
        var group := GroupStep(coll.next);
        if group.Parsed? {
          MembersNarrower(group.value);
        }
      }
    }
  }

  lemma ReadChoiceNarrower(p: Parser)
    requires !IsEnd(p)
    ensures ReadChoice(Legacy, p).Parsed? ==> ReadChoice(Current, p) == ReadChoice(Legacy, p)
  {
    QuotedStepNarrower(ExpectIdent(p, Some("as")).1);
  }

  lemma {:induction false} ChoicesFromNarrower(p: Parser, acc: Choices, reported: bool)
    ensures ChoicesFrom(Legacy, p, acc, reported).Parsed? ==>
              ChoicesFrom(Current, p, acc, reported) == ChoicesFrom(Legacy, p, acc, reported)
    decreases |p.rest|
  {
    var (first, p1) := Expect(p);
    if first.ExpectedIdent? && !IsEnd(p1) {
      ReadChoiceNarrower(p1);
      var tail := ReadChoice(Legacy, p1);
      if tail.Parsed? && tail.value.sep.IsPunct(',') {
        var choices := if tail.value.variant.Some? then
                         acc.(unionChoices := acc.unionChoices + [UnionChoice(first.name, tail.value.dbName, DefinedType(tail.value.variant.value))])
                       else
                         acc.(enumChoices := acc.enumChoices + [EnumChoice(first.name, tail.value.dbName)]);
        ChoicesFromNarrower(tail.next, choices, reported || tail.value.asMissing);
      }
    }
  }

  lemma EnumOrUnionNarrower(p: Parser)
    ensures ParseEnumOrUnion(Legacy, p).Parsed? ==> ParseEnumOrUnion(Current, p) == ParseEnumOrUnion(Legacy, p)
  {
    var name := IdentStep(p, None);
    if name.Parsed? {
      var group := GroupStep(name.next);
      if group.Parsed? {
        ChoicesFromNarrower(NewParser(group.value.stream), Choices([], []), false);
      }
    }
  }

  lemma EntityNarrower(keyword: string, p: Parser)
    ensures ParseEntity(Legacy, keyword, p).Parsed? ==> ParseEntity(Current, keyword, p) == ParseEntity(Legacy, keyword, p)
  {
    StructNarrower(p);
    EnumOrUnionNarrower(p);
  }

  lemma {:induction false} EntitiesFromNarrower(p: Parser, acc: seq<EntityTemplate>, reported: bool)
    ensures EntitiesFrom(Legacy, p, acc, reported).Ok? ==>
              EntitiesFrom(Current, p, acc, reported) == EntitiesFrom(Legacy, p, acc, reported)
    decreases |p.rest|
  {
    if !IsEnd(p) && p.rest[0] == Ident("pub") {
      var keyword := IdentStep(Advance(p), None);
      if keyword.Parsed? {
        EntityNarrower(keyword.value, keyword.next);
        var entity := ParseEntity(Legacy, keyword.value, keyword.next);
        if entity.Parsed? {
          EntitiesFromNarrower(entity.next, acc + [entity.value.value], reported || entity.value.reported);
        }
      }
    }
  }

  /** A schema the older crate accepts is accepted by the newer one with the
      same templates. */
  lemma InstructionStreamNarrower(entities: seq<EntityTemplate>, stream: seq<TokenTree>)
    ensures ParseInstructionStream(Legacy, entities, stream).Ok? ==>
              ParseInstructionStream(Current, entities, stream) == ParseInstructionStream(Legacy, entities, stream)
  {
    EntitiesFromNarrower(NewParser(stream), entities, false);
  }
}

module DefinitionInterpreterExamples {
  import opened Wrappers
  import opened Tokens
  import opened TokenParser
  import opened ParseSteps
  import opened DefinitionInput
  import opened DefinitionInterpreter
  import opened Schema

  /** The member group `{ name: String, }`. */
  function MemberGroup(): TokenTree {
    Group(Brace, [Ident("name"), Punct(':'), Ident("String"), Punct(',')], "name : String ,")
  }

  /** The member parsed from `name: String,`. */
  function NameMember(): MemberTemplate {
    MemberTemplate(Some("name"), Some("name"), Some("String"), false, false, PlainTemplate)
  }

  /** In both crates `name: String,` is one complete plain member whose
      database name defaults to its Rust name. */
  lemma MemberExample(d: Dialect)
    ensures ParseMembers(d, MemberGroup()) == Ok([NameMember()])
  {
    var g := MemberGroup();
    var i0 := NewParser(g.stream);
    var i1 := Parser(Some(Ident("name")), g.stream[1..]);
    var i2 := Parser(Some(Punct(':')), g.stream[2..]);
    var i3 := Parser(Some(Ident("String")), g.stream[3..]);
    var i4 := Parser(Some(Punct(',')), []);
    assert IdentStep(i0, None) == Parsed("name", i1);
    assert ParseDbName(d, "name", i1) == Parsed("name", i1);
    assert PunctStep(i1, Some(':')) == Parsed(':', i2);
    assert IdentStep(i2, None) == Parsed("String", i3);
    assert ParseType("String", i3) == Parsed((PlainTemplate, "String"), i3);
    assert PunctStep(i3, None) == Parsed(',', i4);
    assert ParseMember(d, i0) == Parsed(NameMember(), i4);
    assert ParseMembersFrom(d, i0) == Parsed([NameMember()], i4);
  }

  /** The tokens of `pub struct Doc in "docs" { name: String, }`. */
  function StructTokens(): seq<TokenTree> {
    [Ident("pub"), Ident("struct"), Ident("Doc"), Ident("in"), Literal("\"docs\""), MemberGroup()]
  }

  /** The struct header `Doc in "docs" {...}` parses to its template in both
      crates. */
  lemma StructHeaderExample(d: Dialect)
    ensures ParseStruct(d, Parser(Some(Ident("struct")), StructTokens()[2..]))
            == Parsed(StructTemplate("Doc", Some("docs"), [NameMember()]), Parser(Some(MemberGroup()), []))
  {
    var st := StructTokens();
    var p2 := Parser(Some(Ident("struct")), st[2..]);
    var p3 := Parser(Some(Ident("Doc")), st[3..]);
    var p5 := Parser(Some(Literal("\"docs\"")), st[5..]);
    var p6 := Parser(Some(MemberGroup()), []);
    MemberExample(d);
    assert IdentStep(p2, None) == Parsed("Doc", p3);
    CollectionExample(d);
    assert GroupStep(p5) == Parsed(MemberGroup(), p6);
  }

  /** After the struct's name, `in "docs"` names its collection. */
  lemma CollectionExample(d: Dialect)
    ensures ParseCollection(d, Parser(Some(Ident("Doc")), StructTokens()[3..]))
            == Parsed(Some("docs"), Parser(Some(Literal("\"docs\"")), StructTokens()[5..]))
  {
    var st := StructTokens();
    var p3 := Parser(Some(Ident("Doc")), st[3..]);
    var p4 := Parser(Some(Ident("in")), st[4..]);
    var p5 := Parser(Some(Literal("\"docs\"")), st[5..]);
    QuotedLiteral("docs");
    assert "\"" + "docs" + "\"" == "\"docs\"";
    assert p4.rest[0] == Literal("\"docs\"");
    assert FromLiteral("\"docs\"") == ExpectedString("docs");
    assert IdentStep(p3, Some("in")) == Parsed("in", p4);
    assert QuotedStep(d, p4) == Parsed("docs", p5);
  }

  /** In both crates `pub struct Doc in "docs" { name: String, }` parses to
      one struct template. */
  lemma StructExample(d: Dialect)
    ensures ParseInstructionStream(d, [], StructTokens())
            == Ok([StructDef(StructTemplate("Doc", Some("docs"), [NameMember()]))])
  {
    var st := StructTokens();
    var p0 := NewParser(st);
    var p2 := Parser(Some(Ident("struct")), st[2..]);
    var p6 := Parser(Some(MemberGroup()), []);
    var e := StructDef(StructTemplate("Doc", Some("docs"), [NameMember()]));
    StructHeaderExample(d);
    assert IdentStep(Advance(p0), None) == Parsed("struct", p2);
    assert ParseEntity(d, "struct", p2) == Parsed(Read(e, false), p6);
    assert EntitiesFrom(d, p6, [e], false) == Ok(Read([e], false));
    assert EntitiesFrom(d, p0, [], false) == Ok(Read([e], false));
  }

  /** The member group `{ name as "": String, }`. */
  function EmptyNameGroup(): TokenTree {
    Group(Brace, [Ident("name"), Ident("as"), Literal("\"\""), Punct(':'), Ident("String"), Punct(',')], "name as \"\" : String ,")
  }

  /** An empty database name is read by the newer crate and refused by the
      older. */
  lemma EmptyDbNameExample()
    ensures ParseMembers(Current, EmptyNameGroup())
            == Ok([MemberTemplate(Some("name"), Some(""), Some("String"), false, false, PlainTemplate)])
    ensures ParseMembers(Legacy, EmptyNameGroup()) == Err(Rejected)
  {
    EmptyDbNameRead();
    EmptyDbNameRefused();
  }

  /** The newer crate reads `name as "": String,` as a member stored under
      the empty name. */
  lemma EmptyDbNameRead()
    ensures ParseMembers(Current, EmptyNameGroup())
            == Ok([MemberTemplate(Some("name"), Some(""), Some("String"), false, false, PlainTemplate)])
  {
    var g := EmptyNameGroup();
    var i0 := NewParser(g.stream);
    var i6 := Parser(Some(Punct(',')), []);
    var m := MemberTemplate(Some("name"), Some(""), Some("String"), false, false, PlainTemplate);
    EmptyNameMember();
    assert ParseMembersFrom(Current, i0) == Parsed([m], i6);
  }

  /** The tokens of `name as "": String,` make one member, up to the comma. */
  lemma EmptyNameMember()
    ensures ParseMember(Current, NewParser(EmptyNameGroup().stream))
            == Parsed(MemberTemplate(Some("name"), Some(""), Some("String"), false, false, PlainTemplate),
                      Parser(Some(Punct(',')), []))
  {
    var g := EmptyNameGroup();
    var i0 := NewParser(g.stream);
    var i1 := Parser(Some(Ident("name")), g.stream[1..]);
    var i3 := Parser(Some(Literal("\"\"")), g.stream[3..]);
    var i4 := Parser(Some(Punct(':')), g.stream[4..]);
    var i5 := Parser(Some(Ident("String")), g.stream[5..]);
    var i6 := Parser(Some(Punct(',')), []);
    assert IdentStep(i0, None) == Parsed("name", i1);
    EmptyNameDbName();
    EmptyNameType();
  }

  /** After the database name, `: String ,` reads the type and the comma. */
  lemma EmptyNameType()
    ensures var st := EmptyNameGroup().stream;
            && PunctStep(Parser(Some(Literal("\"\"")), st[3..]), Some(':')) == Parsed(':', Parser(Some(Punct(':')), st[4..]))
            && IdentStep(Parser(Some(Punct(':')), st[4..]), None) == Parsed("String", Parser(Some(Ident("String")), st[5..]))
            && PunctStep(Parser(Some(Ident("String")), st[5..]), None) == Parsed(',', Parser(Some(Punct(',')), []))
  {
    var st := EmptyNameGroup().stream;
    assert st[3..][0] == Punct(':') && st[4..][0] == Ident("String") && st[5..] == [Punct(',')];
  }

  /** After the member's name, `as ""` reads the empty database name. */
  lemma EmptyNameDbName()
    ensures ParseDbName(Current, "name", Parser(Some(Ident("name")), EmptyNameGroup().stream[1..]))
            == Parsed("", Parser(Some(Literal("\"\"")), EmptyNameGroup().stream[3..]))
  {
    var g := EmptyNameGroup();
    var i1 := Parser(Some(Ident("name")), g.stream[1..]);
    var i2 := Parser(Some(Ident("as")), g.stream[2..]);
    var i3 := Parser(Some(Literal("\"\"")), g.stream[3..]);
    LegacyParser.EmptyStringRefused();
    assert IdentStep(i1, Some("as")) == Parsed("as", i2);
    assert i2.rest[0] == Literal("\"\"");
    assert QuotedStep(Current, i2) == Parsed("", i3);
  }

  /** The older crate refuses the empty database name. */
  lemma EmptyDbNameRefused()
    ensures ParseMembers(Legacy, EmptyNameGroup()) == Err(Rejected)
  {
    var g := EmptyNameGroup();
    var i0 := NewParser(g.stream);
    var i1 := Parser(Some(Ident("name")), g.stream[1..]);
    var i2 := Parser(Some(Ident("as")), g.stream[2..]);
    LegacyParser.EmptyStringRefused();
    assert IdentStep(i0, None) == Parsed("name", i1);
    assert IdentStep(i1, Some("as")) == Parsed("as", i2);
    assert i2.rest[0] == Literal("\"\"");
    assert QuotedStep(Legacy, i2) == Failed(Rejected);
    assert ParseDbName(Legacy, "name", i1) == Failed(Rejected);
    assert ParseMember(Legacy, i0) == Failed(Rejected);
  }

  /** The tokens of `pub enum E { A <word> "a" }`. */
  function EnumTokens(word: string): seq<TokenTree> {
    [Ident("pub"), Ident("enum"), Ident("E"), Group(Brace, [Ident("A"), Ident(word), Literal("\"a\"")], "")]
  }

  /** In both crates the choice `A as "a"` is read without a report, and
      `A is "a"` gives the same choice but with the mismatch reported. */
  lemma ChoiceExample(d: Dialect, word: string)
    ensures ParseChoices(d, EnumTokens(word)[3]) == Ok(Read(Choices([EnumChoice("A", "a")], []), word != "as"))
  {
    var g := EnumTokens(word)[3];
    var i0 := NewParser(g.stream);
    var i1 := Parser(Some(Ident("A")), g.stream[1..]);
    var i2 := Parser(Some(Ident(word)), g.stream[2..]);
    var i3 := Parser(Some(Literal("\"a\"")), []);
    QuotedLiteral("a");
    assert "\"" + "a" + "\"" == "\"a\"";
    assert FromLiteral("\"a\"") == ExpectedString("a");
    assert i2.rest[0] == Literal("\"a\"");
    assert QuotedStep(d, i2) == Parsed("a", i3);
    assert ReadChoice(d, i1) == Parsed(ChoiceTail("a", None, word != "as", EndOfStream), Advance(i3));
  }

  /** `pub enum E { A as "a" }` defines the enum `E`; with `is` in place of
      `as` the definition is refused, although its choices were read. */
  lemma MisspelledAsRefused(d: Dialect)
    ensures ParseInstructionStream(d, [], EnumTokens("as")) == Ok([EnumDef(EnumTemplate("E", [EnumChoice("A", "a")]))])
    ensures ParseInstructionStream(d, [], EnumTokens("is")) == Err(Rejected)
  {
    EnumStreamExample(d, "as");
    EnumStreamExample(d, "is");
  }

  lemma EnumStreamExample(d: Dialect, word: string)
    ensures EntitiesFrom(d, NewParser(EnumTokens(word)), [], false)
            == Ok(Read([EnumDef(EnumTemplate("E", [EnumChoice("A", "a")]))], word != "as"))
  {
    var st := EnumTokens(word);
    var p0 := NewParser(st);
    var p2 := Parser(Some(Ident("enum")), st[2..]);
    var p4 := Parser(Some(st[3]), []);
    var e := EnumDef(EnumTemplate("E", [EnumChoice("A", "a")]));
    assert IdentStep(Advance(p0), None) == Parsed("enum", p2);
    EnumEntityExample(d, word);
    assert EntitiesFrom(d, p4, [e], word != "as") == Ok(Read([e], word != "as"));
  }

  /** After `pub enum`, the name and the group make the enum. */
  lemma EnumEntityExample(d: Dialect, word: string)
    ensures ParseEntity(d, "enum", Parser(Some(Ident("enum")), EnumTokens(word)[2..]))
            == Parsed(Read(EnumDef(EnumTemplate("E", [EnumChoice("A", "a")])), word != "as"),
                      Parser(Some(EnumTokens(word)[3]), []))
  {
    var st := EnumTokens(word);
    var p2 := Parser(Some(Ident("enum")), st[2..]);
    var p3 := Parser(Some(Ident("E")), st[3..]);
    var p4 := Parser(Some(st[3]), []);
    ChoiceExample(d, word);
    assert IdentStep(p2, None) == Parsed("E", p3);
    assert GroupStep(p3) == Parsed(st[3], p4);
  }
}
