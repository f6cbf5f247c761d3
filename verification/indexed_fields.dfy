/** The indexed field paths of every struct (`IndexedFields` and `prepare` in
    `huus_macros_support/src/definition/validator.rs`). A built-in member
    contributes its database name when it is indexed; a struct or union
    member contributes its child's paths under `db.`, expanded over the
    database names of an enum map key as `db.k.`; an enum member contributes
    nothing. Results are memoised by entity name. */
module IndexedFields {
  import opened Wrappers
  import opened Schema

  /** The memo: entity name to its indexed field paths. */
  type Fields = map<string, seq<string>>

  /** Why preparing stopped. The source panics on a missing entity or a
      missing memo entry and recurses forever when a struct reaches itself;
      the model names each outcome. */
  datatype PrepareFailure = EntityNotFound(name: string) | Cycle(name: string) | FieldsNotFound(name: string)

  /** Every entity name of the schema. */
  function Names(s: Schema): set<string> {
    set e | e in s.entities :: EntityName(e)
  }

  /** `g` keeps every entry of `f` unchanged. */
  predicate Extends(f: Fields, g: Fields) {
    forall k :: k in f ==> k in g && g[k] == f[k]
  }

  // ----- Paths contributed by one member ------------------------------------

  /** Each path of `fs` behind `prefix`, in order. */
  function Prefixed(prefix: string, fs: seq<string>): (r: seq<string>)
    ensures |r| == |fs|
    ensures forall i :: 0 <= i < |fs| ==> r[i] == prefix + fs[i]
  {
    seq(|fs|, i requires 0 <= i < |fs| => prefix + fs[i])
  }

  /** The position of the `b`-th field under the `a`-th key. */
  function Pos(a: nat, b: nat, n: nat): nat {
    a * n + b
  }

  lemma PosBound(a: nat, b: nat, n: nat, k: nat)
    requires a < k && b < n
    ensures Pos(a, b, n) < k * n
  {
    assert a * n <= (k - 1) * n;
  }

  lemma PosStep(a: nat, b: nat, n: nat)
    requires a > 0
    ensures Pos(a, b, n) == n + Pos(a - 1, b, n)
  {
    assert a * n == n + (a - 1) * n;
  }

  lemma LengthStep(k: nat, n: nat)
    requires k > 0
    ensures k * n == n + (k - 1) * n
  {
  }

  /** The nested loops over keys and child fields: `base + key + "." + field`
      for each key, and for each field within a key. */
  function KeyedPaths(base: string, keys: seq<string>, fs: seq<string>): (r: seq<string>)
    ensures |r| == |keys| * |fs|
    decreases |keys|
  {
    if |keys| == 0 then []
    else
      LengthStep(|keys|, |fs|);
      Prefixed(base + keys[0] + ".", fs) + KeyedPaths(base, keys[1..], fs)
  }

  /** The `b`-th field under the `a`-th key sits at `Pos(a, b, |fs|)`. */
  lemma {:induction false} KeyedPathsAt(base: string, keys: seq<string>, fs: seq<string>, a: nat, b: nat)
    requires a < |keys| && b < |fs|
    ensures Pos(a, b, |fs|) < |KeyedPaths(base, keys, fs)|
    ensures KeyedPaths(base, keys, fs)[Pos(a, b, |fs|)] == base + keys[a] + "." + fs[b]
    decreases |keys|
  {
    PosBound(a, b, |fs|, |keys|);
    var first := Prefixed(base + keys[0] + ".", fs);
    var rest := KeyedPaths(base, keys[1..], fs);
    assert KeyedPaths(base, keys, fs) == first + rest;
    if a > 0 {
      PosStep(a, b, |fs|);
      KeyedPathsAt(base, keys[1..], fs, a - 1, b);
      assert keys[a] == keys[1..][a - 1];
    } else {
      assert Pos(a, b, |fs|) == b;
    }
  }

  /** The keys a member's child paths expand over: the database names of
      the enum a map is keyed by; none for any other container or key. */
  function MapKeys(s: Schema, c: Container): (r: seq<string>)
    ensures !c.IsMap() || c.key.Field? ==> r == []
  {
    if c.IsMap() && !c.key.Field? then
      match FindEntity(s, c.key.Defined().name)
      case Some(EnumEntity(e)) => ToDbNames(e)
      case _ => []
    else []
  }

  /** A member whose indexed fields come from another entity. */
  predicate IsChild(m: Member) {
    m.variant.StructRef? || m.variant.UnionRef?
  }

  /** The name of the entity a child member refers to. */
  function ChildName(m: Member): string
    requires IsChild(m)
  {
    m.variant.Defined().name
  }

  /** What one member adds to its struct's indexed fields, given the memo. */
  function MemberPaths(s: Schema, f: Fields, m: Member): (r: seq<string>)
    requires IsChild(m) ==> ChildName(m) in f
    ensures m.variant.Field? && m.isIndexed ==> r == [m.dbName]
    ensures m.variant.Field? && !m.isIndexed ==> r == []
    ensures m.variant.EnumRef? ==> r == []
    ensures IsChild(m) && |MapKeys(s, m.container)| == 0 ==>
              |r| == |f[ChildName(m)]| && forall i :: 0 <= i < |r| ==> r[i] == m.dbName + "." + f[ChildName(m)][i]
    ensures IsChild(m) && |MapKeys(s, m.container)| > 0 ==>
              r == KeyedPaths(m.dbName + ".", MapKeys(s, m.container), f[ChildName(m)])
  {
    match m.variant
    case Field(_) => if m.isIndexed then [m.dbName] else []
    case EnumRef(_) => []
    case _ =>
      var keys := MapKeys(s, m.container);
      var base := m.dbName + ".";
      if |keys| > 0 then KeyedPaths(base, keys, f[ChildName(m)])
      else Prefixed(base, f[ChildName(m)])
  }

  /** A child member keyed by an enum has one path per key and child field:
      `db.k.f` for key `k` and field `f`. */
  lemma EnumKeyedMemberPaths(s: Schema, f: Fields, m: Member, a: nat, b: nat)
    requires IsChild(m) && ChildName(m) in f
    requires a < |MapKeys(s, m.container)| && b < |f[ChildName(m)]|
    ensures var keys, fs := MapKeys(s, m.container), f[ChildName(m)];
            && |MemberPaths(s, f, m)| == |keys| * |fs|
            && Pos(a, b, |fs|) < |MemberPaths(s, f, m)|
            && MemberPaths(s, f, m)[Pos(a, b, |fs|)] == m.dbName + "." + keys[a] + "." + fs[b]
  {
    var keys, fs := MapKeys(s, m.container), f[ChildName(m)];
    KeyedPathsAt(m.dbName + ".", keys, fs, a, b);
    assert m.dbName + "." + keys[a] + "." + fs[b] == (m.dbName + ".") + keys[a] + "." + fs[b];
  }

  /** Every child member of the list has its entry in the memo. */
  predicate ChildrenKnown(f: Fields, ms: seq<Member>) {
    forall k :: 0 <= k < |ms| && IsChild(ms[k]) ==> ChildName(ms[k]) in f
  }

  /** The indexed fields of a struct with these members: each member's paths,
      in member order. */
  function StructPaths(s: Schema, f: Fields, ms: seq<Member>): seq<string>
    requires ChildrenKnown(f, ms)
    decreases |ms|
  {
    if |ms| == 0 then []
    else
      assert forall k :: 0 < k < |ms| ==> ms[k] == ms[1..][k - 1];
      MemberPaths(s, f, ms[0]) + StructPaths(s, f, ms[1..])
  }

  /** A struct's path is one of some member's paths, and every member's
      paths all appear. */
  lemma {:induction false} StructPathsMembers(s: Schema, f: Fields, ms: seq<Member>, p: string)
    requires ChildrenKnown(f, ms)
    ensures p in StructPaths(s, f, ms) <==> exists k :: 0 <= k < |ms| && p in MemberPaths(s, f, ms[k])
    decreases |ms|
  {
    if |ms| > 0 {
      assert forall k :: 0 < k < |ms| ==> ms[k] == ms[1..][k - 1];
      StructPathsMembers(s, f, ms[1..], p);
      if exists k :: 0 <= k < |ms| && p in MemberPaths(s, f, ms[k]) {
        var k :| 0 <= k < |ms| && p in MemberPaths(s, f, ms[k]);
        if k > 0 {
          assert p in MemberPaths(s, f, ms[1..][k - 1]);
        }
      }
    }
  }

  /** A struct whose members are all built-in has exactly the database names
      of its indexed members, in order. */
  lemma {:induction false} PlainStructPaths(s: Schema, f: Fields, ms: seq<Member>)
    requires forall k :: 0 <= k < |ms| ==> ms[k].variant.Field?
    ensures ChildrenKnown(f, ms)
    ensures forall p :: p in StructPaths(s, f, ms) <==> exists k :: 0 <= k < |ms| && ms[k].isIndexed && ms[k].dbName == p
    ensures (forall k :: 0 <= k < |ms| ==> !ms[k].isIndexed) ==> StructPaths(s, f, ms) == []
    decreases |ms|
  {
    if |ms| > 0 {
      assert forall k :: 0 < k < |ms| ==> ms[k] == ms[1..][k - 1];
      PlainStructPaths(s, f, ms[1..]);
      forall p
        ensures p in StructPaths(s, f, ms) <==> exists k :: 0 <= k < |ms| && ms[k].isIndexed && ms[k].dbName == p
      {
        if exists k :: 0 <= k < |ms| && ms[k].isIndexed && ms[k].dbName == p {
          var k :| 0 <= k < |ms| && ms[k].isIndexed && ms[k].dbName == p;
          if k > 0 {
            assert ms[1..][k - 1].isIndexed && ms[1..][k - 1].dbName == p;
          }
        }
      }
    }
  }

  /** Adding memo entries does not change the paths of members whose children
      were already known. */
  lemma {:induction false} StructPathsExtend(s: Schema, f: Fields, g: Fields, ms: seq<Member>)
    requires ChildrenKnown(f, ms) && Extends(f, g)
    ensures ChildrenKnown(g, ms)
    ensures StructPaths(s, f, ms) == StructPaths(s, g, ms)
    decreases |ms|
  {
    if |ms| > 0 {
      assert forall k :: 0 < k < |ms| ==> ms[k] == ms[1..][k - 1];
      StructPathsExtend(s, f, g, ms[1..]);
      assert MemberPaths(s, f, ms[0]) == MemberPaths(s, g, ms[0]);
    }
  }

  // ----- The memoised computation -------------------------------------------

  /** A memo entry agrees with the schema: a struct's entry is its paths under
      the memo, any other entity's entry is empty. */
  predicate SoundEntry(s: Schema, f: Fields, n: string)
    requires n in f
  {
    match FindEntity(s, n)
    case Some(StructEntity(st)) => ChildrenKnown(f, st.members) && f[n] == StructPaths(s, f, st.members)
    case Some(_) => f[n] == []
    case None => false
  }

  /** Every memo entry agrees with the schema. */
  predicate Sound(s: Schema, f: Fields) {
    forall n :: n in f ==> SoundEntry(s, f, n)
  }

  lemma SoundEntryExtend(s: Schema, f: Fields, g: Fields, n: string)
    requires n in f && SoundEntry(s, f, n) && Extends(f, g)
    ensures n in g && SoundEntry(s, g, n)
  {
    match FindEntity(s, n)
    case Some(StructEntity(st)) => StructPathsExtend(s, f, g, st.members);
    case Some(_) =>
    case None =>
  }

  /** The entity is the one `find_entity` returns for its name. */
  predicate IsFirstEntity(s: Schema, e: Entity) {
    FindEntity(s, EntityName(e)) == Some(e)
  }

  lemma CardinalityShrinks(all: set<string>, active: set<string>, n: string)
    requires n in all && n !in active
    ensures |all - (active + {n})| < |all - active|
  {
    assert (all - (active + {n})) + {n} == all - active;
  }

  /** Recording the empty list for the first enum or union of a name keeps
      the memo sound. */
  lemma SoundEmptyEntry(s: Schema, f: Fields, e: Entity)
    requires !e.StructEntity? && EntityName(e) !in f
    ensures Extends(f, f[EntityName(e) := []])
    ensures Sound(s, f) && IsFirstEntity(s, e) ==> Sound(s, f[EntityName(e) := []])
  {
    var g := f[EntityName(e) := []];
    if Sound(s, f) && IsFirstEntity(s, e) {
      forall k | k in g
        ensures SoundEntry(s, g, k)
      {
        if k in f {
          SoundEntryExtend(s, f, g, k);
        }
      }
    }
  }

  /** `prepare_entity`: an entity whose name is in the memo is skipped;
      otherwise a struct is computed and an enum or union gets the empty
      list. `active` holds the structs whose computation is under way, so
      meeting one again is the source's endless recursion. */
  function PrepareEntity(s: Schema, f: Fields, e: Entity, active: set<string>): (r: Result<Fields, PrepareFailure>)
    requires e in s.entities
    ensures EntityName(e) in f ==> r == Ok(f)
    ensures r.Ok? ==> EntityName(e) in r.value && Extends(f, r.value)
    ensures r.Ok? ==> forall n :: n in active && n !in f ==> n !in r.value
    ensures r.Ok? && Sound(s, f) && (EntityName(e) !in f ==> IsFirstEntity(s, e)) ==> Sound(s, r.value)
    decreases |Names(s) - active|, 1, 0
  {
    var n := EntityName(e);
    if n in f then Ok(f)
    else if n in active then Err(Cycle(n))
    else
      match e
      case StructEntity(st) =>
        CardinalityShrinks(Names(s), active, n);
        PrepareStruct(s, f, st, active + {n})
      case _ =>
        SoundEmptyEntry(s, f, e);
        Ok(f[n := []])
  }

  /** `prepare_struct`: the member paths, recorded under the struct's name. */
  function PrepareStruct(s: Schema, f: Fields, st: Struct, active: set<string>): (r: Result<Fields, PrepareFailure>)
    requires StructEntity(st) in s.entities
    requires st.structName.name in active && st.structName.name !in f
    ensures r.Ok? ==> st.structName.name in r.value && Extends(f, r.value)
    ensures r.Ok? ==> forall n :: n in active && n !in f && n != st.structName.name ==> n !in r.value
    ensures r.Ok? && Sound(s, f) && IsFirstEntity(s, StructEntity(st)) ==> Sound(s, r.value)
    decreases |Names(s) - active|, 3, 0
  {
    var n := st.structName.name;
    var done :- PrepareMembers(s, f, st.members, active);
    var (f1, paths) := done;
    var g := f1[n := paths];
    assert Extends(f1, g);
    assert Sound(s, f) && IsFirstEntity(s, StructEntity(st)) ==> Sound(s, g) by {
      if Sound(s, f) && IsFirstEntity(s, StructEntity(st)) {
        forall k | k in g
          ensures SoundEntry(s, g, k)
        {
          if k in f1 {
            SoundEntryExtend(s, f1, g, k);
          } else {
            StructPathsExtend(s, f1, g, st.members);
          }
        }
      }
    }
    Ok(g)
  }

  /** The member loop of `prepare_struct`: the memo after every child was
      prepared, and the struct's paths computed against it. */
  function PrepareMembers(s: Schema, f: Fields, ms: seq<Member>, active: set<string>): (r: Result<(Fields, seq<string>), PrepareFailure>)
    ensures r.Ok? ==> Extends(f, r.value.0) && ChildrenKnown(r.value.0, ms)
    ensures r.Ok? ==> r.value.1 == StructPaths(s, r.value.0, ms)
    ensures r.Ok? ==> forall n :: n in active && n !in f ==> n !in r.value.0
    ensures r.Ok? && Sound(s, f) ==> Sound(s, r.value.0)
    decreases |Names(s) - active|, 2, |ms|
  {
    if |ms| == 0 then Ok((f, []))
    else
      var m := ms[0];
      assert forall k :: 0 < k < |ms| ==> ms[k] == ms[1..][k - 1];
      var f1 :- if IsChild(m) then
                  match FindEntity(s, ChildName(m))
                  case None => Err(EntityNotFound(ChildName(m)))
                  case Some(e) => PrepareEntity(s, f, e, active)
                else Ok(f);
      var rest :- PrepareMembers(s, f1, ms[1..], active);
      var (g, paths) := rest;
      StructPathsExtend(s, f1, g, [m]);
      assert [m][0] == m && [m][1..] == [];
      Ok((g, MemberPaths(s, f1, m) + paths))
  }

  /** The entity loop of `IndexedFields::prepare` from position `i`. */
  function PrepareFrom(s: Schema, f: Fields, i: nat): (r: Result<Fields, PrepareFailure>)
    requires i <= |s.entities|
    requires forall j :: 0 <= j < i ==> EntityName(s.entities[j]) in f
    ensures r.Ok? ==> Extends(f, r.value)
    ensures r.Ok? ==> forall j :: 0 <= j < |s.entities| ==> EntityName(s.entities[j]) in r.value
    ensures r.Ok? && Sound(s, f) ==> Sound(s, r.value)
    decreases |s.entities| - i
  {
    if i == |s.entities| then Ok(f)
    else
      UnpreparedIsFirst(s, f, i);
      var g := PrepareEntity(s, f, s.entities[i], {});
      if g.Err? then Err(g.error)
      else
        PreparedPrefixGrows(s, f, g.value, i);
        PrepareFrom(s, g.value, i + 1)
  }

  /** Preparing entity `i` keeps the earlier entities in the memo and adds it. */
  lemma PreparedPrefixGrows(s: Schema, f: Fields, g: Fields, i: nat)
    requires i < |s.entities|
    requires forall j :: 0 <= j < i ==> EntityName(s.entities[j]) in f
    requires Extends(f, g) && EntityName(s.entities[i]) in g
    ensures forall j :: 0 <= j < i + 1 ==> EntityName(s.entities[j]) in g
  {
  }

  /** An entity the loop reaches unprepared is the first of its name, since
      every earlier one is in the memo. */
  lemma UnpreparedIsFirst(s: Schema, f: Fields, i: nat)
    requires i < |s.entities|
    requires forall j :: 0 <= j < i ==> EntityName(s.entities[j]) in f
    ensures EntityName(s.entities[i]) !in f ==> IsFirstEntity(s, s.entities[i])
  {
    if EntityName(s.entities[i]) !in f {
      var k := FirstNamed(s.entities, EntityName(s.entities[i]));
      assert k == i;
    }
  }

  /** `IndexedFields::prepare`: an entry for every entity name, each one
      agreeing with the schema. */
  function IndexedFieldsOf(s: Schema): (r: Result<Fields, PrepareFailure>)
    ensures r.Ok? ==> Sound(s, r.value)
    ensures r.Ok? ==> forall e :: e in s.entities ==> EntityName(e) in r.value
  {
    var r := PrepareFrom(s, map[], 0);
    assert r.Ok? ==> forall e :: e in s.entities ==> EntityName(e) in r.value by {
      if r.Ok? {
        forall e | e in s.entities
          ensures EntityName(e) in r.value
        {
          var j :| 0 <= j < |s.entities| && s.entities[j] == e;
        }
      }
    }
    r
  }

  // ----- Termination --------------------------------------------------------

  /** A rank that strictly decreases from every struct (the first of its
      name) to each struct or union it holds: the schema has no struct that
      reaches itself. */
  predicate Ranked(s: Schema, rank: string -> nat) {
    forall i, k :: 0 <= i < |s.entities| && s.entities[i].StructEntity? && IsFirstEntity(s, s.entities[i])
                   && 0 <= k < |s.entities[i].structSpec.members| && IsChild(s.entities[i].structSpec.members[k])
                   ==> rank(ChildName(s.entities[i].structSpec.members[k])) < rank(EntityName(s.entities[i]))
  }

  /** Not the outcome that stands for the source's endless recursion. */
  predicate NoCycle<T>(r: Result<T, PrepareFailure>) {
    r.Ok? || !r.error.Cycle?
  }

  lemma {:induction false} NoCycleEntity(s: Schema, f: Fields, e: Entity, active: set<string>, rank: string -> nat)
    requires e in s.entities && Ranked(s, rank)
    requires EntityName(e) !in f ==> IsFirstEntity(s, e)
    requires forall a :: a in active ==> rank(a) > rank(EntityName(e))
    ensures NoCycle(PrepareEntity(s, f, e, active))
    decreases |Names(s) - active|, 1, 0
  {
    var n := EntityName(e);
    if n !in f && n !in active && e.StructEntity? {
      CardinalityShrinks(Names(s), active, n);
      NoCycleStruct(s, f, e.structSpec, active + {n}, rank);
    }
  }

  lemma {:induction false} NoCycleStruct(s: Schema, f: Fields, st: Struct, active: set<string>, rank: string -> nat)
    requires StructEntity(st) in s.entities && Ranked(s, rank) && IsFirstEntity(s, StructEntity(st))
    requires st.structName.name in active && st.structName.name !in f
    requires forall a :: a in active ==> rank(a) >= rank(st.structName.name)
    ensures NoCycle(PrepareStruct(s, f, st, active))
    decreases |Names(s) - active|, 3, 0
  {
    var i :| 0 <= i < |s.entities| && s.entities[i] == StructEntity(st);
    NoCycleMembers(s, f, st.members, active, rank, rank(st.structName.name));
  }

  lemma {:induction false} NoCycleMembers(s: Schema, f: Fields, ms: seq<Member>, active: set<string>, rank: string -> nat, bound: nat)
    requires Ranked(s, rank)
    requires forall a :: a in active ==> rank(a) >= bound
    requires forall k :: 0 <= k < |ms| && IsChild(ms[k]) ==> rank(ChildName(ms[k])) < bound
    ensures NoCycle(PrepareMembers(s, f, ms, active))
    decreases |Names(s) - active|, 2, |ms|
  {
    if |ms| > 0 {
      var m := ms[0];
      assert forall k :: 0 < k < |ms| ==> ms[k] == ms[1..][k - 1];
      var f1: Result<Fields, PrepareFailure> := Ok(f);
      if IsChild(m) {
        match FindEntity(s, ChildName(m))
        case None =>
          f1 := Err(EntityNotFound(ChildName(m)));
        case Some(e) =>
          NoCycleEntity(s, f, e, active, rank);
          f1 := PrepareEntity(s, f, e, active);
      }
      if f1.Ok? {
        NoCycleMembers(s, f1.value, ms[1..], active, rank, bound);
      }
    }
  }

  lemma {:induction false} NoCycleFrom(s: Schema, f: Fields, i: nat, rank: string -> nat)
    requires i <= |s.entities| && Ranked(s, rank)
    requires forall j :: 0 <= j < i ==> EntityName(s.entities[j]) in f
    ensures NoCycle(PrepareFrom(s, f, i))
    decreases |s.entities| - i
  {
    if i < |s.entities| {
      var e := s.entities[i];
      PrepareFromStep(s, f, i);
      NoCycleEntity(s, f, e, {}, rank);
      var g := PrepareEntity(s, f, e, {});
      if g.Ok? {
        NoCycleFrom(s, g.value, i + 1, rank);
      }
    }
  }

  /** One turn of the loop of `prepare`: the next entity is either prepared
      already or the first of its name, and its preparation either fails the
      loop or is where the loop goes on. */
  lemma PrepareFromStep(s: Schema, f: Fields, i: nat)
    requires i < |s.entities|
    requires forall j :: 0 <= j < i ==> EntityName(s.entities[j]) in f
    ensures EntityName(s.entities[i]) !in f ==> IsFirstEntity(s, s.entities[i])
    ensures var g := PrepareEntity(s, f, s.entities[i], {});
            g.Ok? ==> (forall j :: 0 <= j < i + 1 ==> EntityName(s.entities[j]) in g.value) &&
                      PrepareFrom(s, f, i) == PrepareFrom(s, g.value, i + 1)
    ensures var g := PrepareEntity(s, f, s.entities[i], {});
            g.Err? ==> PrepareFrom(s, f, i) == Err(g.error)
  {
    UnpreparedIsFirst(s, f, i);
    var g := PrepareEntity(s, f, s.entities[i], {});
    if g.Ok? {
      PreparedPrefixGrows(s, f, g.value, i);
    }
  }

  /** A schema in which no struct reaches itself never meets the endless
      recursion. */
  lemma RankedTerminates(s: Schema, rank: string -> nat)
    requires Ranked(s, rank)
    ensures NoCycle(IndexedFieldsOf(s))
  {
    NoCycleFrom(s, map[], 0, rank);
  }

  // ----- Recording the lists ------------------------------------------------

  /** A struct with its computed list recorded; enums and unions unchanged. */
  function WithFields(e: Entity, f: Fields): (r: Entity)
    requires e.StructEntity? ==> EntityName(e) in f
    ensures EntityName(r) == EntityName(e)
    ensures e.StructEntity? ==> (r.StructEntity? && r.structSpec.indexedFields == f[EntityName(e)]
                                 && r.structSpec.(indexedFields := e.structSpec.indexedFields) == e.structSpec)
    ensures !e.StructEntity? ==> r == e
  {
    if e.StructEntity? then StructEntity(e.structSpec.(indexedFields := f[EntityName(e)])) else e
  }

  /** No two structs share a name. */
  predicate StructNamesDistinct(es: seq<Entity>) {
    forall i, j :: 0 <= i < j < |es| && es[i].StructEntity? && es[j].StructEntity? ==> EntityName(es[i]) != EntityName(es[j])
  }

  /** Every struct has a memo entry. */
  predicate StructsKnown(es: seq<Entity>, f: Fields) {
    forall i :: 0 <= i < |es| && es[i].StructEntity? ==> EntityName(es[i]) in f
  }

  /** The loop of `Validator::prepare`: each struct takes its list out of the
      memo with `remove(..).expect(..)`, so a second struct of the same name
      finds nothing. */
  function Assign(es: seq<Entity>, f: Fields): (r: Result<seq<Entity>, PrepareFailure>)
    ensures r.Ok? <==> StructsKnown(es, f) && StructNamesDistinct(es)
    ensures r.Ok? ==> |r.value| == |es| && forall i :: 0 <= i < |es| ==> r.value[i] == WithFields(es[i], f)
    decreases |es|
  {
    if |es| == 0 then Ok([])
    else
      assert forall i :: 0 < i < |es| ==> es[i] == es[1..][i - 1];
      var e := es[0];
      if !e.StructEntity? then
        var rest :- Assign(es[1..], f);
        AssignStep(es, f, f);
        Ok([e] + rest)
      else if EntityName(e) !in f then Err(FieldsNotFound(EntityName(e)))
      else
        var g := f - {EntityName(e)};
        var rest :- Assign(es[1..], g);
        AssignStep(es, f, g);
        Ok([WithFields(e, f)] + rest)
  }

  /** How the conditions of `Assign` split between the first entity and the
      rest, with the first struct's entry removed. */
  lemma AssignStep(es: seq<Entity>, f: Fields, g: Fields)
    requires |es| > 0
    requires es[0].StructEntity? ==> EntityName(es[0]) in f && g == f - {EntityName(es[0])}
    requires !es[0].StructEntity? ==> g == f
    ensures StructsKnown(es, f) && StructNamesDistinct(es) <==> StructsKnown(es[1..], g) && StructNamesDistinct(es[1..])
    ensures forall i :: 0 < i < |es| && (es[i].StructEntity? ==> EntityName(es[i]) in g) ==>
              EntityName(es[i]) in f || !es[i].StructEntity?
    ensures StructsKnown(es[1..], g) ==> forall i :: 0 < i < |es| ==> WithFields(es[i], f) == WithFields(es[1..][i - 1], g)
  {
    assert forall i :: 0 < i < |es| ==> es[i] == es[1..][i - 1];
    if StructsKnown(es, f) && StructNamesDistinct(es) {
      assert StructNamesDistinct(es[1..]) by {
        forall i, j | 0 <= i < j < |es[1..]| && es[1..][i].StructEntity? && es[1..][j].StructEntity?
          ensures EntityName(es[1..][i]) != EntityName(es[1..][j])
        {
          assert es[1..][i] == es[i + 1] && es[1..][j] == es[j + 1];
        }
      }
      assert StructsKnown(es[1..], g) by {
        forall i | 0 <= i < |es[1..]| && es[1..][i].StructEntity?
          ensures EntityName(es[1..][i]) in g
        {
          assert es[1..][i] == es[i + 1];
        }
      }
    }
    if StructsKnown(es[1..], g) && StructNamesDistinct(es[1..]) {
      assert StructsKnown(es, f) by {
        forall i | 0 <= i < |es| && es[i].StructEntity?
          ensures EntityName(es[i]) in f
        {
          if i > 0 {
            assert EntityName(es[1..][i - 1]) in g;
          }
        }
      }
      assert StructNamesDistinct(es) by {
        forall i, j | 0 <= i < j < |es| && es[i].StructEntity? && es[j].StructEntity?
          ensures EntityName(es[i]) != EntityName(es[j])
        {
          if i > 0 {
            assert es[1..][i - 1] == es[i] && es[1..][j - 1] == es[j];
          } else {
            assert EntityName(es[1..][j - 1]) in g;
          }
        }
      }
    }
  }
}

/** `Validator::prepare` and `Validator::verify`: the whole definition stage
    from templates to the schema handed to the code generator. */
module DefinitionVerifier {
  import opened Wrappers
  import opened Schema
  import opened DefinitionInput
  import opened DefinitionValidator
  import opened IndexedFields

  /** `prepare`: every struct gets the list computed for its name, nothing
      else changes; a second struct of an already used name makes the
      source's `expect` panic. */
  function Prepare(s: Schema): (r: Result<Schema, PrepareFailure>)
    ensures r.Ok? ==> IndexedFieldsOf(s).Ok? && |r.value.entities| == |s.entities|
    ensures r.Ok? ==> forall i :: 0 <= i < |s.entities| ==>
                        r.value.entities[i] == WithFields(s.entities[i], IndexedFieldsOf(s).value)
    ensures IndexedFieldsOf(s).Ok? ==> (r.Ok? <==> StructNamesDistinct(s.entities))
  {
    var f :- IndexedFieldsOf(s);
    assert StructsKnown(s.entities, f) by {
      assert forall i :: 0 <= i < |s.entities| ==> s.entities[i] in s.entities;
    }
    var es :- Assign(s.entities, f);
    Ok(Schema(es))
  }

  /** In the prepared schema a struct that is the first of its name carries
      exactly its members' paths, computed against the memo. */
  lemma PreparedStructPaths(s: Schema, i: nat)
    requires Prepare(s).Ok? && i < |s.entities|
    requires s.entities[i].StructEntity? && IsFirstEntity(s, s.entities[i])
    ensures var f := IndexedFieldsOf(s).value;
            && ChildrenKnown(f, s.entities[i].structSpec.members)
            && Prepare(s).value.entities[i].structSpec.indexedFields == StructPaths(s, f, s.entities[i].structSpec.members)
  {
    var f := IndexedFieldsOf(s).value;
    assert s.entities[i] in s.entities;
    var n := EntityName(s.entities[i]);
    assert SoundEntry(s, f, n);
  }

  /** Why `verify` stopped. */
  datatype VerifyFailure = Invalid | Unresolved | Unprepared(failure: PrepareFailure)

  /** `verify`: validation, then building, then preparation; the schema
      returned is the one the code generator receives. */
  function Verify(ts: seq<EntityTemplate>): (r: Result<Schema, VerifyFailure>)
    requires TemplatesComplete(ts)
    ensures Validate(ts).Err? ==> r == Err(Invalid)
    ensures Validate(ts).Ok? && Build(ts).Err? ==> r == Err(Unresolved)
    ensures r.Ok? ==> Validate(ts).Ok? && Build(ts).Ok? && Prepare(Build(ts).value) == Ok(r.value)
    ensures r.Ok? ==> |r.value.entities| == |ts|
                      && forall i :: 0 <= i < |ts| ==> EntityName(r.value.entities[i]) == TemplateName(ts[i])
  {
    if Validate(ts).Err? then Err(Invalid)
    else
      match Build(ts)
      case Err(_) => Err(Unresolved)
      case Ok(built) =>
        match Prepare(built)
        case Err(e) => Err(Unprepared(e))
        case Ok(prepared) =>
          forall i | 0 <= i < |ts|
            ensures EntityName(prepared.entities[i]) == TemplateName(ts[i])
          {
            BuiltKeepsName(ts, ts[i], built.entities[i]);
          }
          Ok(prepared)
  }
}
