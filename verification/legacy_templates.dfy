/** The code the older macro crate generates (`huus_macros/templates/`).

    A struct's data type is written exactly as the newer crate writes it
    (`StructFormulation.IntoDoc`), but read without the empty default of an
    absent container. Beside the data type each struct has a filter, a value
    and an update type with one entry per member; what a member's entry
    builds is decided by the runtime entry types and is a parameter here,
    given the field it is built for. A union tags the value and the update of
    its choice with `_huus_variant`; an enum is written as the database name
    of its choice. */
module LegacyTemplates {
  import opened Wrappers
  import opened Seqs
  import opened Bson
  import opened Errors
  import opened Schema
  import TypeNames
  import Conversions
  import Filters
  import Updates
  import Values
  import SF = StructFormulation
  import UF = UnionFormulation
  import EnumFormulation

  // ----------------------------------------------------------------------------------------------
  // Reading the data struct

  /** One member of the older `from_doc`: as in the newer crate when the key
      is present; an absent member is unset when optional and a missing key
      otherwise, whatever its container. */
  function FromMember<D(==)>(c: SF.Codec<D>, m: Member, d: Doc): (r: Result<Option<D>, ConversionError>)
    ensures !HasKey(d, m.dbName) ==> r == if m.isOptional then Ok(None) else Err(MissingKey(m.dbName))
    ensures HasKey(d, m.dbName) ==> r == SF.FromMember(c, m, d)
  {
    match SF.Fetch(d, TypeNames.MemberGetter(m), m.dbName)
    case Ok(v) =>
      (match c.from(m, v)
       case Ok(x) => Ok(Some(x))
       case Err(e) => Err(e))
    case Err(NotPresent) => if m.isOptional then Ok(None) else Err(MissingKey(m.dbName))
    case Err(UnexpectedType) => Err(WrongType(m.dbName))
  }

  /** The two crates read a member alike except when it is absent, required
      and a container, where only the newer crate supplies the empty value. */
  lemma FromMemberAgrees<D>(c: SF.Codec<D>, m: Member, d: Doc)
    ensures FromMember(c, m, d) == SF.FromMember(c, m, d) <==>
              HasKey(d, m.dbName) || m.isOptional || m.container.IsPlain()
    ensures !HasKey(d, m.dbName) && !m.isOptional && !m.container.IsPlain() ==>
              FromMember(c, m, d) == Err(MissingKey(m.dbName)) && SF.FromMember(c, m, d) == Ok(Some(c.empty(m)))
  {
  }

  /** The older `from_doc` over a list of members: each is read in order and
      the first error is the result. */
  function FromMembers<D(==)>(c: SF.Codec<D>, ms: seq<Member>, d: Doc): (r: Result<seq<Option<D>>, ConversionError>)
    ensures r.Ok? <==> forall i :: 0 <= i < |ms| ==> FromMember(c, ms[i], d).Ok?
    ensures r.Ok? ==> |r.value| == |ms| && forall i :: 0 <= i < |ms| ==> FromMember(c, ms[i], d) == Ok(r.value[i])
    ensures r.Err? ==> exists j :: 0 <= j < |ms| && FromMember(c, ms[j], d) == Err(r.error)
                                   && forall i :: 0 <= i < j ==> FromMember(c, ms[i], d).Ok?
  {
    MapResults((m: Member) => FromMember(c, m, d), ms)
  }

  /** `FromDoc::from_doc` of the older data struct. */
  function FromDoc<D(==)>(c: SF.Codec<D>, st: Struct, d: Doc): (r: Result<seq<Option<D>>, ConversionError>)
    ensures r.Ok? ==> SF.WellFormed(st.members, r.value)
  {
    var r := FromMembers(c, st.members, d);
    assert r.Ok? ==> forall i :: 0 <= i < |st.members| ==> !st.members[i].isOptional ==> FromMember(c, st.members[i], d).value.Some?;
    r
  }

  /** Every member is present, optional or plain. */
  predicate NoContainerDefault(ms: seq<Member>, d: Doc) {
    forall i :: 0 <= i < |ms| ==> HasKey(d, ms[i].dbName) || ms[i].isOptional || ms[i].container.IsPlain()
  }

  /** When no member needs the empty default of its container, the two
      crates read a document the same way. */
  lemma FromDocAgrees<D>(c: SF.Codec<D>, st: Struct, d: Doc)
    requires NoContainerDefault(st.members, d)
    ensures FromDoc(c, st, d) == SF.FromDoc(c, st, d)
  {
    var ms := st.members;
    forall i | 0 <= i < |ms|
      ensures FromMember(c, ms[i], d) == SF.FromMember(c, ms[i], d)
    {
      FromMemberAgrees(c, ms[i], d);
    }
    MapResultsAgree((m: Member) => FromMember(c, m, d), (m: Member) => SF.FromMember(c, m, d), ms);
  }

  /** A required container missing from the document is refused by the older
      crate, where the newer one reads it as empty. */
  lemma MissingContainerRefused<D>(c: SF.Codec<D>, st: Struct, d: Doc, i: nat)
    requires i < |st.members|
    requires !st.members[i].isOptional && !st.members[i].container.IsPlain()
    requires !HasKey(d, st.members[i].dbName)
    ensures FromDoc(c, st, d).Err?
    ensures (forall j :: 0 <= j < i ==> FromMember(c, st.members[j], d).Ok?)
            ==> FromDoc(c, st, d) == Err(MissingKey(st.members[i].dbName))
    ensures SF.FromMember(c, st.members[i], d) == Ok(Some(c.empty(st.members[i])))
  {
    var r := FromMembers(c, st.members, d);
    if r.Err? && forall j :: 0 <= j < i ==> FromMember(c, st.members[j], d).Ok? {
      var j :| 0 <= j < |st.members| && FromMember(c, st.members[j], d) == Err(r.error)
               && forall l :: 0 <= l < j ==> FromMember(c, st.members[l], d).Ok?;
      assert j == i;
    }
  }

  /** `from_doc(into_doc(d)) == d` holds in the older crate too: a written
      document holds every required member, so the missing default never
      matters. */
  lemma RoundTrip<D>(c: SF.Codec<D>, st: Struct, data: seq<Option<D>>)
    requires SF.WellFormed(st.members, data)
    requires Distinct(SF.DbNames(st.members))
    requires SF.CodecRoundTrips(c, st.members, data)
    ensures FromDoc(c, st, SF.IntoDoc(c, st, data)) == Ok(data)
  {
    var d := SF.IntoDoc(c, st, data);
    forall i | 0 <= i < |st.members|
      ensures HasKey(d, st.members[i].dbName) || st.members[i].isOptional || st.members[i].container.IsPlain()
    {
      SF.IntoDocKeys(c, st, data, st.members[i].dbName);
    }
    FromDocAgrees(c, st, d);
    SF.RoundTrip(c, st, data);
  }

  // ----------------------------------------------------------------------------------------------
  // The filter type

  /** The field a member's entry is built for: its database name in the
      filter or update of a collection's struct, and the embedding field, a
      dot and the name in those of an embedded struct. */
  function MemberField(st: Struct, field: string, m: Member): (k: string)
    ensures st.collectionName.Some? ==> k == m.dbName
    ensures st.collectionName.None? ==> k == field + "." + m.dbName
  {
    match st.collectionName
    case Some(_) => m.dbName
    case None => field + "." + m.dbName
  }

  /** What the entry of a member builds. */
  function MemberFilter<F>(st: Struct, field: string, build: (Member, F, string) -> Filters.Filter,
                           m: Member, f: F): Filters.Filter {
    build(m, f, MemberField(st, field, m))
  }

  /** The loop of `build_filter` over the first `|ms|` members: each member's
      filter is incorporated into the empty filter in member order. */
  function MembersFilter<F>(st: Struct, field: string, build: (Member, F, string) -> Filters.Filter,
                            ms: seq<Member>, fs: seq<F>): Filters.Filter
    requires |fs| == |ms|
    decreases |ms|
  {
    if |ms| == 0 then Filters.EmptyFilter()
    else
      var n := |ms| - 1;
      Filters.Incorporate(MembersFilter(st, field, build, ms[..n], fs[..n]), MemberFilter(st, field, build, ms[n], fs[n]))
  }

  /** A key is in the built filter exactly when some member's filter has it. */
  lemma {:induction false} FilterKeys<F>(st: Struct, field: string, build: (Member, F, string) -> Filters.Filter,
                                         ms: seq<Member>, fs: seq<F>, k: string)
    requires |fs| == |ms|
    ensures HasKey(MembersFilter(st, field, build, ms, fs).doc, k) <==>
              exists i :: 0 <= i < |ms| && HasKey(MemberFilter(st, field, build, ms[i], fs[i]).doc, k)
    decreases |ms|
  {
    if |ms| > 0 {
      var n := |ms| - 1;
      var prev := MembersFilter(st, field, build, ms[..n], fs[..n]);
      FilterSnoc(st, field, build, ms, fs);
      FilterKeys(st, field, build, ms[..n], fs[..n], k);
      if HasKey(prev.doc, k) {
        var i :| 0 <= i < n && HasKey(MemberFilter(st, field, build, ms[..n][i], fs[..n][i]).doc, k);
        assert ms[..n][i] == ms[i] && fs[..n][i] == fs[i];
      }
      if exists i :: 0 <= i < |ms| && HasKey(MemberFilter(st, field, build, ms[i], fs[i]).doc, k) {
        var i :| 0 <= i < |ms| && HasKey(MemberFilter(st, field, build, ms[i], fs[i]).doc, k);
        if i < n {
          assert ms[..n][i] == ms[i] && fs[..n][i] == fs[i];
        }
      }
    }
  }

  /** `build_filter` of the struct's filter type; `field` is ignored for a
      collection's struct, whose filter has no embedding field. */
  function BuildFilter<F>(st: Struct, field: string, build: (Member, F, string) -> Filters.Filter,
                          fs: seq<F>): (r: Filters.Filter)
    requires |fs| == |st.members|
  {
    MembersFilter(st, field, build, st.members, fs)
  }

  /** Each key of the built filter holds the value the last member filter
      with that key gives it. */
  lemma {:induction false} FilterValues<F>(st: Struct, field: string, build: (Member, F, string) -> Filters.Filter,
                                           ms: seq<Member>, fs: seq<F>, i: nat, k: string)
    requires |fs| == |ms|
    requires forall j :: 0 <= j < |ms| ==> UniqueKeys(MemberFilter(st, field, build, ms[j], fs[j]).doc)
    requires i < |ms| && HasKey(MemberFilter(st, field, build, ms[i], fs[i]).doc, k)
    requires forall j :: i < j < |ms| ==> !HasKey(MemberFilter(st, field, build, ms[j], fs[j]).doc, k)
    ensures Get(MembersFilter(st, field, build, ms, fs).doc, k) == Get(MemberFilter(st, field, build, ms[i], fs[i]).doc, k)
    decreases |ms|
  {
    var n := |ms| - 1;
    FilterSnoc(st, field, build, ms, fs);
    var last := MemberFilter(st, field, build, ms[n], fs[n]);
    var prev := MembersFilter(st, field, build, ms[..n], fs[..n]);
    var all := MembersFilter(st, field, build, ms, fs);
    assert all == Filters.Incorporate(prev, last);
    Filters.IncorporateValues(prev, last, k);
    if i < n {
      forall j | 0 <= j < n
        ensures ms[..n][j] == ms[j] && fs[..n][j] == fs[j]
      {
      }
      FilterValues(st, field, build, ms[..n], fs[..n], i, k);
      assert Get(all.doc, k) == Get(prev.doc, k);
    } else {
      assert Get(all.doc, k) == Get(last.doc, k);
    }
  }

  /** With no repeated keys in the member filters there are none in the
      built filter. */
  lemma {:induction false} UniqueFilter<F>(st: Struct, field: string, build: (Member, F, string) -> Filters.Filter,
                                           ms: seq<Member>, fs: seq<F>)
    requires |fs| == |ms|
    requires forall j :: 0 <= j < |ms| ==> UniqueKeys(MemberFilter(st, field, build, ms[j], fs[j]).doc)
    ensures UniqueKeys(MembersFilter(st, field, build, ms, fs).doc)
    decreases |ms|
  {
    if |ms| > 0 {
      var n := |ms| - 1;
      assert forall j :: 0 <= j < n ==> ms[..n][j] == ms[j] && fs[..n][j] == fs[j];
      UniqueFilter(st, field, build, ms[..n], fs[..n]);
      Filters.IncorporateValues(MembersFilter(st, field, build, ms[..n], fs[..n]),
                                MemberFilter(st, field, build, ms[n], fs[n]), "");
    }
  }

  /** The default filter, every member's entry empty, builds the empty
      document. */
  lemma DefaultFilterEmpty<F>(st: Struct, field: string, build: (Member, F, string) -> Filters.Filter, fs: seq<F>)
    requires |fs| == |st.members|
    requires forall i :: 0 <= i < |st.members| ==> Keys(MemberFilter(st, field, build, st.members[i], fs[i]).doc) == []
    ensures Keys(BuildFilter(st, field, build, fs).doc) == []
  {
    var d := BuildFilter(st, field, build, fs).doc;
    if Keys(d) != [] {
      FilterKeys(st, field, build, st.members, fs, Keys(d)[0]);
      assert HasKey(d, Keys(d)[0]);
    }
  }

  // ----------------------------------------------------------------------------------------------
  // The value type

  /** The loop of `build_value`: each member whose value is set is inserted
      under its database name, in member order. `vs[i]` is the BSON of the
      `i`-th member's value, when it is set. */
  function MembersValue(ms: seq<Member>, vs: seq<Option<Bson>>): (r: Values.ObjectValue)
    requires |vs| == |ms|
    ensures UniqueKeys(r.doc)
    decreases |ms|
  {
    if |ms| == 0 then
      assert Keys(EmptyDoc) == [];
      Values.EmptyObjectValue()
    else
      var n := |ms| - 1;
      var prev := MembersValue(ms[..n], vs[..n]);
      match vs[n]
      case None => prev
      case Some(b) =>
        InsertKeys(prev.doc, ms[n].dbName, b);
        Values.InsertObjectValue(prev, ms[n].dbName, b)
  }

  /** One more member inserts its value when it is set. */
  lemma MembersValueSnoc(ms: seq<Member>, vs: seq<Option<Bson>>)
    requires |vs| == |ms| > 0
    ensures var n := |ms| - 1;
            var prev := MembersValue(ms[..n], vs[..n]);
            MembersValue(ms, vs) == if vs[n].Some? then Values.InsertObjectValue(prev, ms[n].dbName, vs[n].value) else prev
  {
  }

  /** A key is in the document exactly when some member with that database
      name has its value set. */
  lemma {:induction false} MembersValueKeys(ms: seq<Member>, vs: seq<Option<Bson>>, k: string)
    requires |vs| == |ms|
    ensures HasKey(MembersValue(ms, vs).doc, k) <==> exists i :: 0 <= i < |ms| && vs[i].Some? && ms[i].dbName == k
    decreases |ms|
  {
    if |ms| > 0 {
      var n := |ms| - 1;
      var prev := MembersValue(ms[..n], vs[..n]);
      var r := MembersValue(ms, vs);
      MembersValueSnoc(ms, vs);
      MembersValueKeys(ms[..n], vs[..n], k);
      if vs[n].Some? {
        Values.InsertObjectValueKeys(prev, ms[n].dbName, vs[n].value, k);
      }
      if HasKey(prev.doc, k) {
        var i :| 0 <= i < n && vs[..n][i].Some? && ms[..n][i].dbName == k;
        assert vs[..n][i] == vs[i] && ms[..n][i] == ms[i];
      }
      if exists i :: 0 <= i < |ms| && vs[i].Some? && ms[i].dbName == k {
        var i :| 0 <= i < |ms| && vs[i].Some? && ms[i].dbName == k;
        if i < n {
          assert vs[..n][i] == vs[i] && ms[..n][i] == ms[i];
        }
      }
    }
  }

  /** A set value is read back under its member's name when no later member
      has that name. */
  lemma {:induction false} MembersValueGet(ms: seq<Member>, vs: seq<Option<Bson>>, i: nat)
    requires |vs| == |ms| && i < |ms| && vs[i].Some?
    requires forall j :: i < j < |ms| ==> ms[j].dbName != ms[i].dbName
    ensures Get(MembersValue(ms, vs).doc, ms[i].dbName) == vs[i]
    decreases |ms|
  {
    var n := |ms| - 1;
    MembersValueSnoc(ms, vs);
    if i < n {
      assert vs[..n][i] == vs[i] && ms[..n][i] == ms[i];
      forall j | i < j < n
        ensures ms[..n][j].dbName != ms[..n][i].dbName
      {
        assert ms[..n][j] == ms[j];
      }
      MembersValueGet(ms[..n], vs[..n], i);
    }
  }

  /** `build_value` of the struct's value type: a document. */
  function BuildValue(st: Struct, vs: seq<Option<Bson>>): (v: Values.Value)
    requires |vs| == |st.members|
    ensures v.value.Document?
    ensures forall k :: HasKey(v.value.doc, k) <==>
              exists i :: 0 <= i < |st.members| && vs[i].Some? && st.members[i].dbName == k
  {
    forall k {
      MembersValueKeys(st.members, vs, k);
    }
    Values.BuildObjectValue(MembersValue(st.members, vs))
  }

  /** With distinct database names the built document holds exactly the set
      values, each under its member's name; an unset member leaves no key. */
  lemma ValueGet(st: Struct, vs: seq<Option<Bson>>, i: nat)
    requires |vs| == |st.members|
    requires Distinct(SF.DbNames(st.members))
    requires i < |st.members|
    ensures Get(BuildValue(st, vs).value.doc, st.members[i].dbName) == vs[i]
  {
    var ms := st.members;
    forall j | i < j < |ms|
      ensures ms[j].dbName != ms[i].dbName
    {
      DistinctAt(SF.DbNames(ms), i, j);
    }
    if vs[i].Some? {
      MembersValueGet(ms, vs, i);
    } else {
      forall j | 0 <= j < |ms| && vs[j].Some?
        ensures ms[j].dbName != ms[i].dbName
      {
        DistinctAt(SF.DbNames(ms), i, j);
      }
    }
  }

  /** The default value, every member unset, builds the empty document. */
  lemma DefaultValueEmpty(st: Struct, vs: seq<Option<Bson>>)
    requires |vs| == |st.members|
    requires forall i :: 0 <= i < |vs| ==> vs[i].None?
    ensures Keys(BuildValue(st, vs).value.doc) == []
  {
    var d := BuildValue(st, vs).value.doc;
    if Keys(d) != [] {
      assert HasKey(d, Keys(d)[0]);
    }
  }

  // ----------------------------------------------------------------------------------------------
  // The update type

  /** `_id` cannot be updated, so the update type skips the member stored
      under it. */
  const IdKey: string := "_id"

  /** What the entry of a member builds. */
  function MemberUpdate<U>(st: Struct, field: string, build: (Member, U, string) -> Updates.Update,
                           m: Member, u: U): Updates.Update {
    build(m, u, MemberField(st, field, m))
  }

  /** The loop of `build_update` over the first `|ms|` members: each member's
      update but that of `_id` is incorporated into the empty update, in
      member order. */
  function MembersUpdate<U>(st: Struct, field: string, build: (Member, U, string) -> Updates.Update,
                            ms: seq<Member>, us: seq<U>): Updates.Update
    requires |us| == |ms|
    decreases |ms|
  {
    if |ms| == 0 then Updates.EmptyUpdate()
    else
      var n := |ms| - 1;
      var prev := MembersUpdate(st, field, build, ms[..n], us[..n]);
      if ms[n].dbName == IdKey then prev
      else Updates.Incorporate(prev, MemberUpdate(st, field, build, ms[n], us[n]))
  }

  /** A plain key is in the built update exactly when the update of some
      member other than `_id` has it. */
  lemma UpdateKeys<U>(st: Struct, field: string, build: (Member, U, string) -> Updates.Update,
                      ms: seq<Member>, us: seq<U>, k: string)
    requires |us| == |ms|
    ensures HasKey(MembersUpdate(st, field, build, ms, us).doc, k) <==>
              exists i :: 0 <= i < |ms| && ms[i].dbName != IdKey && HasKey(MemberUpdate(st, field, build, ms[i], us[i]).doc, k)
  {
    if HasKey(MembersUpdate(st, field, build, ms, us).doc, k) {
      UpdateKeyFrom(st, field, build, ms, us, k);
    }
    if exists i :: 0 <= i < |ms| && ms[i].dbName != IdKey && HasKey(MemberUpdate(st, field, build, ms[i], us[i]).doc, k) {
      var i :| 0 <= i < |ms| && ms[i].dbName != IdKey && HasKey(MemberUpdate(st, field, build, ms[i], us[i]).doc, k);
      UpdateKeyKept(st, field, build, ms, us, k, i);
    }
  }

  lemma {:induction false} UpdateKeyFrom<U>(st: Struct, field: string, build: (Member, U, string) -> Updates.Update,
                                            ms: seq<Member>, us: seq<U>, k: string)
    requires |us| == |ms| && HasKey(MembersUpdate(st, field, build, ms, us).doc, k)
    ensures exists i :: 0 <= i < |ms| && ms[i].dbName != IdKey && HasKey(MemberUpdate(st, field, build, ms[i], us[i]).doc, k)
    decreases |ms|
  {
    var n := |ms| - 1;
    UpdateKeysStep(st, field, build, ms, us, k);
    if HasKey(MembersUpdate(st, field, build, ms[..n], us[..n]).doc, k) {
      UpdateKeyFrom(st, field, build, ms[..n], us[..n], k);
      var i :| 0 <= i < n && ms[..n][i].dbName != IdKey && HasKey(MemberUpdate(st, field, build, ms[..n][i], us[..n][i]).doc, k);
      assert ms[..n][i] == ms[i] && us[..n][i] == us[i];
    } else {
      assert ms[n].dbName != IdKey && HasKey(MemberUpdate(st, field, build, ms[n], us[n]).doc, k);
    }
  }

  lemma {:induction false} UpdateKeyKept<U>(st: Struct, field: string, build: (Member, U, string) -> Updates.Update,
                                            ms: seq<Member>, us: seq<U>, k: string, i: nat)
    requires |us| == |ms| && i < |ms| && ms[i].dbName != IdKey && HasKey(MemberUpdate(st, field, build, ms[i], us[i]).doc, k)
    ensures HasKey(MembersUpdate(st, field, build, ms, us).doc, k)
    decreases |ms|
  {
    var n := |ms| - 1;
    UpdateKeysStep(st, field, build, ms, us, k);
    if i < n {
      assert ms[..n][i] == ms[i] && us[..n][i] == us[i];
      UpdateKeyKept(st, field, build, ms[..n], us[..n], k, i);
    }
  }

  /** One more member adds the keys of its update unless it is `_id`. */
  lemma UpdateKeysStep<U>(st: Struct, field: string, build: (Member, U, string) -> Updates.Update,
                          ms: seq<Member>, us: seq<U>, k: string)
    requires |us| == |ms| > 0
    ensures var n := |ms| - 1;
            HasKey(MembersUpdate(st, field, build, ms, us).doc, k) <==>
              HasKey(MembersUpdate(st, field, build, ms[..n], us[..n]).doc, k)
              || (ms[n].dbName != IdKey && HasKey(MemberUpdate(st, field, build, ms[n], us[n]).doc, k))
  {
  }

  /** `build_update` of the struct's update type; `field` is ignored for a
      collection's struct. */
  function BuildUpdate<U>(st: Struct, field: string, build: (Member, U, string) -> Updates.Update,
                          us: seq<U>): (r: Updates.Update)
    requires |us| == |st.members|
  {
    MembersUpdate(st, field, build, st.members, us)
  }

  /** The instructions of each operator are the members' instructions in
      member order, those of `_id` left out. */
  function MemberInstructions<U>(st: Struct, field: string, build: (Member, U, string) -> Updates.Update,
                                 ms: seq<Member>, us: seq<U>, op: Updates.UpdateOperator): (r: seq<Updates.Instruction>)
    requires |us| == |ms|
    decreases |ms|
  {
    if |ms| == 0 then []
    else
      var rest := MemberInstructions(st, field, build, ms[1..], us[1..], op);
      if ms[0].dbName == IdKey then rest else Updates.Instructions(MemberUpdate(st, field, build, ms[0], us[0]), op) + rest
  }

  /** The built update's instruction lists are the concatenation, in member
      order, of the members' lists, `_id` left out. */
  lemma {:induction false} UpdateInstructions<U>(st: Struct, field: string, build: (Member, U, string) -> Updates.Update,
                                                 ms: seq<Member>, us: seq<U>, op: Updates.UpdateOperator)
    requires |us| == |ms|
    ensures Updates.Instructions(MembersUpdate(st, field, build, ms, us), op) == MemberInstructions(st, field, build, ms, us, op)
    decreases |ms|
  {
    if |ms| > 0 {
      var n := |ms| - 1;
      UpdateInstructions(st, field, build, ms[..n], us[..n], op);
      InstructionsSnoc(st, field, build, ms, us, op);
    }
  }

  /** Appending a member appends its instructions. */
  lemma {:induction false} InstructionsSnoc<U>(st: Struct, field: string, build: (Member, U, string) -> Updates.Update,
                                               ms: seq<Member>, us: seq<U>, op: Updates.UpdateOperator)
    requires |us| == |ms| > 0
    ensures var n := |ms| - 1;
            MemberInstructions(st, field, build, ms, us, op) ==
              MemberInstructions(st, field, build, ms[..n], us[..n], op) +
              (if ms[n].dbName == IdKey then [] else Updates.Instructions(MemberUpdate(st, field, build, ms[n], us[n]), op))
    decreases |ms|
  {
    var n := |ms| - 1;
    if n > 0 {
      assert ms[1..][..n - 1] == ms[..n][1..] && us[1..][..n - 1] == us[..n][1..];
      InstructionsSnoc(st, field, build, ms[1..], us[1..], op);
    }
  }

  /** The `_id` member's entry does not matter: any other entry there gives
      the same update. */
  lemma {:induction false} UpdateIgnoresId<U>(st: Struct, field: string, build: (Member, U, string) -> Updates.Update,
                                              ms: seq<Member>, us: seq<U>, i: nat, u: U)
    requires |us| == |ms|
    requires i < |ms| && ms[i].dbName == IdKey
    ensures MembersUpdate(st, field, build, ms, us[i := u]) == MembersUpdate(st, field, build, ms, us)
    decreases |ms|
  {
    var n := |ms| - 1;
    if i < n {
      assert us[i := u][..n] == us[..n][i := u];
      assert us[i := u][n] == us[n];
      UpdateIgnoresId(st, field, build, ms[..n], us[..n], i, u);
    } else {
      assert us[i := u][..n] == us[..n];
    }
  }

  /** The default update, every member's entry empty, builds the empty
      document. */
  lemma DefaultUpdateEmpty<U>(st: Struct, field: string, build: (Member, U, string) -> Updates.Update, us: seq<U>)
    requires |us| == |st.members|
    requires forall i :: 0 <= i < |st.members| ==> Updates.IsEmptyUpdate(MemberUpdate(st, field, build, st.members[i], us[i]))
    ensures Keys(Updates.UpdateIntoDoc(BuildUpdate(st, field, build, us))) == []
  {
    var r := BuildUpdate(st, field, build, us);
    DefaultUpdateNoInstructions(st, field, build, us);
    Updates.NoInstructionsIntoDoc(r);
    DefaultUpdateNoKeys(st, field, build, us);
  }

  lemma DefaultUpdateNoInstructions<U>(st: Struct, field: string, build: (Member, U, string) -> Updates.Update, us: seq<U>)
    requires |us| == |st.members|
    requires forall i :: 0 <= i < |st.members| ==> Updates.IsEmptyUpdate(MemberUpdate(st, field, build, st.members[i], us[i]))
    ensures forall op :: Updates.Instructions(BuildUpdate(st, field, build, us), op) == []
  {
    forall op
      ensures Updates.Instructions(BuildUpdate(st, field, build, us), op) == []
    {
      UpdateInstructions(st, field, build, st.members, us, op);
      NoMemberInstructions(st, field, build, st.members, us, op);
    }
  }

  lemma DefaultUpdateNoKeys<U>(st: Struct, field: string, build: (Member, U, string) -> Updates.Update, us: seq<U>)
    requires |us| == |st.members|
    requires forall i :: 0 <= i < |st.members| ==> Keys(MemberUpdate(st, field, build, st.members[i], us[i]).doc) == []
    ensures Keys(BuildUpdate(st, field, build, us).doc) == []
  {
    var d := BuildUpdate(st, field, build, us).doc;
    forall k
      ensures !HasKey(d, k)
    {
      UpdateKeys(st, field, build, st.members, us, k);
    }
    if Keys(d) != [] {
      assert HasKey(d, Keys(d)[0]);
    }
  }

  lemma {:induction false} NoMemberInstructions<U>(st: Struct, field: string, build: (Member, U, string) -> Updates.Update,
                                                   ms: seq<Member>, us: seq<U>, op: Updates.UpdateOperator)
    requires |us| == |ms|
    requires forall i :: 0 <= i < |ms| ==> Updates.IsEmptyUpdate(MemberUpdate(st, field, build, ms[i], us[i]))
    ensures MemberInstructions(st, field, build, ms, us, op) == []
    decreases |ms|
  {
    if |ms| > 0 {
      assert forall i :: 0 <= i < |ms[1..]| ==> ms[1..][i] == ms[i + 1] && us[1..][i] == us[i + 1];
      NoMemberInstructions(st, field, build, ms[1..], us[1..], op);
      assert Updates.IsEmptyUpdate(MemberUpdate(st, field, build, ms[0], us[0]));
    }
  }

  // ----------------------------------------------------------------------------------------------
  // Unions

  /** `build_value` of a union's value type: the chosen choice's value, which
      must be a document (anything else panics), with the choice's tag
      inserted; every other key keeps its value. */
  function UnionBuildValue(u: Union, c: nat, inner: Values.Value): (v: Values.Value)
    requires c < |u.choices|
    // Every choice of a union is a structure, whose value is a document, so
    // the panic cannot arise for the variants the template generates.
    requires inner.value.Document?
    ensures v.value.Document?
    ensures Get(v.value.doc, UF.VariantTag) == Some(UF.Tag(u, c))
    ensures forall k :: k != UF.VariantTag ==> Get(v.value.doc, k) == Get(inner.value.doc, k)
  {
    Values.NewValue(Document(Insert(inner.value.doc, UF.VariantTag, UF.Tag(u, c))))
  }

  /** A union value built from the document its choice's data is written to
      is the document the union's data is written to, and reads back as that
      data. */
  lemma UnionValueIsData<D>(u: Union, inner: UF.Inner<D>, v: UF.UnionValue<D>)
    requires v.choice < |u.choices|
    ensures UnionBuildValue(u, v.choice, Values.NewValue(Document(inner.intoDoc(u.choices[v.choice].variant, v.data))))
            == Values.NewValue(Document(UF.IntoDoc(u, inner, v)))
    ensures Distinct(UF.ChoiceNames(u))
            && (var t := u.choices[v.choice].variant;
                inner.fromDoc(t, UF.IntoDoc(u, inner, v)) == inner.fromDoc(t, inner.intoDoc(t, v.data))
                && inner.fromDoc(t, inner.intoDoc(t, v.data)) == Ok(v.data))
            ==> UF.FromDoc(u, inner, UnionBuildValue(u, v.choice,
                  Values.NewValue(Document(inner.intoDoc(u.choices[v.choice].variant, v.data)))).value.doc) == Ok(v)
  {
    if Distinct(UF.ChoiceNames(u))
       && (var t := u.choices[v.choice].variant;
           inner.fromDoc(t, UF.IntoDoc(u, inner, v)) == inner.fromDoc(t, inner.intoDoc(t, v.data))
           && inner.fromDoc(t, inner.intoDoc(t, v.data)) == Ok(v.data)) {
      UF.RoundTrip(u, inner, v);
    }
  }

  /** The key the choice of a union stored under `field` is recorded in. */
  function UnionTagField(field: string): string {
    field + "." + UF.VariantTag
  }

  /** `build_update` of a union's update type: the chosen choice's update
      with the plain value `field._huus_variant` set to the choice's tag. */
  function UnionUpdate(u: Union, c: nat, field: string, inner: Updates.Update): (r: Updates.Update)
    requires c < |u.choices|
    ensures Get(r.doc, UnionTagField(field)) == Some(UF.Tag(u, c))
    ensures forall k :: k != UnionTagField(field) ==> Get(r.doc, k) == Get(inner.doc, k)
    ensures forall k :: HasKey(r.doc, k) <==> HasKey(inner.doc, k) || k == UnionTagField(field)
    ensures forall op :: Updates.Instructions(r, op) == Updates.Instructions(inner, op)
  {
    var tag := Updates.WithField(UnionTagField(field), UF.Tag(u, c));
    var r := Updates.Incorporate(inner, tag);
    assert forall k :: Get(r.doc, k) == if k == UnionTagField(field) then Some(UF.Tag(u, c)) else Get(inner.doc, k) by {
      assert tag.doc.entries == [Entry(UnionTagField(field), UF.Tag(u, c))];
      forall k
        ensures Get(r.doc, k) == if k == UnionTagField(field) then Some(UF.Tag(u, c)) else Get(inner.doc, k)
      {
        InsertAllGet(inner.doc, tag.doc.entries, k);
        LastLookupAppend([], tag.doc.entries[0], k);
        assert [] + [tag.doc.entries[0]] == tag.doc.entries;
      }
    }
    assert forall op :: Updates.Instructions(inner, op) + [] == Updates.Instructions(inner, op);
    r
  }

  // ----------------------------------------------------------------------------------------------
  // Enums

  /** `build_value` of an enum's value type: the BSON string of `to_str`,
      which the `String` conversion and `from_str` read back as the choice. */
  function EnumBuildValue(e: Enum, c: nat): (v: Values.Value)
    requires EnumFormulation.IsChoice(e, c)
    ensures Values.IntoBson(v) == EnumFormulation.IntoBson(e, c)
    ensures Distinct(ToDbNames(e)) ==>
              Conversions.StringFromBson(Values.IntoBson(v)).Ok?
              && EnumFormulation.FromStr(e, Conversions.StringFromBson(Values.IntoBson(v)).value) == Ok(c)
  {
    var v := Values.NewValue(Bson.String(EnumFormulation.ToStr(e, c)));
    if Distinct(ToDbNames(e)) then EnumFormulation.BsonRoundTrip(e, c); v else v
  }

  // ----------------------------------------------------------------------------------------------
  // The test schema's `Doc1` and `Union1`

  /** `Doc1` of the older crate's test schema: `integer as "int": i32?`,
      `string as "str": String+`; being embedded it has no collection. */
  function Doc1(): Struct {
    Struct(DefinedType("Doc1"), None,
      [Member("integer", "int", Field(BuiltInType.I32), Plain, true, false),
       Member("string", "str", Field(BuiltInType.String), Plain, false, true)],
      [])
  }

  /** `Union1`: `Choice1 as "choice_1": Doc1`, `Choice2 as "choice_2": Doc1`. */
  function Union1(): Union {
    Union(DefinedType("Union1"), [UnionChoice("Choice1", "choice_1", DefinedType("Doc1")),
                                  UnionChoice("Choice2", "choice_2", DefinedType("Doc1"))])
  }

  /** Entries that set their field to a value, as `Value(x)` entries do. */
  function AssignFilter(m: Member, b: Bson, key: string): Filters.Filter {
    Filters.WithField(key, b)
  }

  function AssignUpdate(m: Member, b: Bson, key: string): Updates.Update {
    Updates.WithField(key, b)
  }

  /** Building over one more member incorporates that member's filter. */
  lemma FilterSnoc<F>(st: Struct, field: string, build: (Member, F, string) -> Filters.Filter,
                      ms: seq<Member>, fs: seq<F>)
    requires |fs| == |ms| > 0
    ensures MembersFilter(st, field, build, ms, fs) ==
            Filters.Incorporate(MembersFilter(st, field, build, ms[..|ms| - 1], fs[..|ms| - 1]),
                                MemberFilter(st, field, build, ms[|ms| - 1], fs[|ms| - 1]))
  {
  }

  /** Building over one more member other than `_id` incorporates that
      member's update. */
  lemma UpdateSnoc<U>(st: Struct, field: string, build: (Member, U, string) -> Updates.Update,
                      ms: seq<Member>, us: seq<U>)
    requires |us| == |ms| > 0 && ms[|ms| - 1].dbName != IdKey
    ensures MembersUpdate(st, field, build, ms, us).doc ==
            Updates.Incorporate(MembersUpdate(st, field, build, ms[..|ms| - 1], us[..|ms| - 1]),
                                MemberUpdate(st, field, build, ms[|ms| - 1], us[|ms| - 1])).doc
  {
  }

  /** Incorporating a one-entry document under a new key appends the entry. */
  lemma AppendFreshEntry(d: Doc, e: Entry)
    requires e.key !in Keys(d) && UniqueKeys(d)
    ensures InsertAll(d, SingletonDoc(e.key, e.value).entries) == Doc(d.entries + [e])
  {
    assert SingletonDoc(e.key, e.value).entries == [e];
    assert KeysOf(d.entries + [e]) == Keys(d) + [e.key] by {
      KeysOfConcat(d.entries, [e]);
    }
    DistinctAppend(Keys(d), e.key);
    InsertAllFresh(d, [e]);
  }

  /** `Doc1Filter { integer: Value(1), string: Value("abc") }` stored under
      `data` filters on `data.int` and `data.str`. */
  lemma InnerFilterExample()
    ensures BuildFilter(Doc1(), "data", AssignFilter, [Bson.I32(1), Bson.String("abc")]).doc
            == Doc([Entry("data.int", Bson.I32(1)), Entry("data.str", Bson.String("abc"))])
  {
    var st := Doc1();
    var ms := st.members;
    var fs := [Bson.I32(1), Bson.String("abc")];
    var e1 := Entry("data.int", Bson.I32(1));
    var e2 := Entry("data.str", Bson.String("abc"));
    assert MemberField(st, "data", ms[0]) == "data.int";
    assert MemberField(st, "data", ms[1]) == "data.str";
    assert ms[..1] == [ms[0]] && fs[..1] == [fs[0]];
    assert ms[..1][..0] == [] && fs[..1][..0] == [];
    assert ms[..2] == ms && fs[..2] == fs;
    FilterSnoc(st, "data", AssignFilter, ms[..1], fs[..1]);
    AppendFreshEntry(EmptyDoc, e1);
    assert EmptyDoc.entries + [e1] == [e1];
    var f1 := MembersFilter(st, "data", AssignFilter, ms[..1], fs[..1]);
    assert f1.doc == Doc([e1]);
    FilterSnoc(st, "data", AssignFilter, ms, fs);
    assert Keys(Doc([e1])) == [e1.key];
    AppendFreshEntry(Doc([e1]), e2);
  }

  /** The plain part of a union's update is the choice's with the tag
      inserted. */
  lemma UnionUpdateDoc(u: Union, c: nat, field: string, inner: Updates.Update)
    requires c < |u.choices|
    ensures UnionUpdate(u, c, field, inner).doc == InsertAll(inner.doc, SingletonDoc(UnionTagField(field), UF.Tag(u, c)).entries)
  {
  }

  /** `Doc1Update { integer: Value(6), string: Value("pqr") }` stored under
      `union` sets `union.int` and `union.str`. */
  lemma InnerUpdateExample()
    ensures BuildUpdate(Doc1(), "union", AssignUpdate, [Bson.I32(6), Bson.String("pqr")]).doc
            == Doc([Entry("union.int", Bson.I32(6)), Entry("union.str", Bson.String("pqr"))])
  {
    var st := Doc1();
    var ms := st.members;
    var us := [Bson.I32(6), Bson.String("pqr")];
    var e1 := Entry("union.int", Bson.I32(6));
    var e2 := Entry("union.str", Bson.String("pqr"));
    assert MemberField(st, "union", ms[0]) == "union.int";
    assert MemberField(st, "union", ms[1]) == "union.str";
    assert ms[..1] == [ms[0]] && us[..1] == [us[0]];
    assert ms[..1][..0] == [] && us[..1][..0] == [];
    assert ms[..2] == ms && us[..2] == us;
    UpdateSnoc(st, "union", AssignUpdate, ms[..1], us[..1]);
    AppendFreshEntry(EmptyDoc, e1);
    assert EmptyDoc.entries + [e1] == [e1];
    var u1 := MembersUpdate(st, "union", AssignUpdate, ms[..1], us[..1]);
    assert u1.doc == Doc([e1]);
    UpdateSnoc(st, "union", AssignUpdate, ms, us);
    assert Keys(Doc([e1])) == [e1.key];
    AppendFreshEntry(Doc([e1]), e2);
  }

  /** A tag under a new key is appended to the choice's plain values. */
  lemma TagAppended(u: Union, c: nat, field: string, inner: Updates.Update)
    requires c < |u.choices|
    requires UnionTagField(field) !in Keys(inner.doc) && UniqueKeys(inner.doc)
    ensures UnionUpdate(u, c, field, inner).doc == Doc(inner.doc.entries + [Entry(UnionTagField(field), UF.Tag(u, c))])
  {
    UnionUpdateDoc(u, c, field, inner);
    AppendFreshEntry(inner.doc, Entry(UnionTagField(field), UF.Tag(u, c)));
  }

  /** `Union1Update::Choice1(Doc1Update { integer: Value(6), string:
      Value("pqr") })` stored under `union` sets `union.int`, `union.str` and
      `union._huus_variant`. */
  lemma UnionUpdateExample()
    ensures var inner := BuildUpdate(Doc1(), "union", AssignUpdate, [Bson.I32(6), Bson.String("pqr")]);
            UnionUpdate(Union1(), 0, "union", inner).doc
              == Doc([Entry("union.int", Bson.I32(6)), Entry("union.str", Bson.String("pqr")),
                      Entry("union._huus_variant", Bson.String("choice_1"))])
  {
    InnerUpdateExample();
    TaggedChoice1(BuildUpdate(Doc1(), "union", AssignUpdate, [Bson.I32(6), Bson.String("pqr")]));
  }

  /** The tag of `Choice1` under `union` follows the plain values of the
      choice's update. */
  lemma TaggedChoice1(inner: Updates.Update)
    requires inner.doc == Doc([Entry("union.int", Bson.I32(6)), Entry("union.str", Bson.String("pqr"))])
    ensures UnionUpdate(Union1(), 0, "union", inner).doc
              == Doc([Entry("union.int", Bson.I32(6)), Entry("union.str", Bson.String("pqr")),
                      Entry("union._huus_variant", Bson.String("choice_1"))])
  {
    assert Keys(inner.doc) == ["union.int", "union.str"];
    assert UnionTagField("union") == "union._huus_variant";
    assert "union._huus_variant" !in ["union.int", "union.str"];
    assert ["union.int", "union.str"][1..] == ["union.str"];
    TagAppended(Union1(), 0, "union", inner);
  }
}
