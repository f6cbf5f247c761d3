/** The code generated for a schema struct
    (`huus_macros_support/templates/struct_formulation.rs`): the data struct,
    read from a document by `from_doc` and written to one by `into_doc`, and,
    for the main document of a collection, the `Query` type.

    The data struct has one field per member, in member order, modelled as an
    `Option`: `None` only for an optional member that is not set. What a
    member's Rust value is, how `huus_into_bson` writes it, how the member's
    conversion reads it back from the fetched value and the empty value of a
    container are the `Codec` parameter. */
module StructFormulation {
  import opened Wrappers
  import opened Seqs
  import opened Bson
  import opened Errors
  import opened Schema
  import TypeNames
  import Query

  /** How the values of the members are written and read. */
  datatype Codec<!D> = Codec(
    into: (Member, D) -> Bson,
    from: (Member, Bson) -> Result<D, ConversionError>,
    empty: Member -> D)

  /** The values a data struct can hold: one per member, set for every member
      that is not optional. */
  predicate WellFormed<D(==)>(ms: seq<Member>, data: seq<Option<D>>) {
    |data| == |ms| && forall i :: 0 <= i < |ms| ==> !ms[i].isOptional ==> data[i].Some?
  }

  /** The database names of the members, in order. */
  function DbNames(ms: seq<Member>): (r: seq<string>)
    ensures |r| == |ms|
    ensures forall i :: 0 <= i < |ms| ==> r[i] == ms[i].dbName
  {
    seq(|ms|, i requires 0 <= i < |ms| => ms[i].dbName)
  }

  // ----------------------------------------------------------------------------------------------
  // Reading one member

  /** The BSON variant each `bson::Document` getter reads. */
  predicate GetterAccepts(getter: string, v: Bson) {
    if getter == "get_f64" then v.FloatingPoint?
    else if getter == "get_str" then v.String?
    else if getter == "get_array" then v.Array?
    else if getter == "get_document" then v.Document?
    else if getter == "get_bool" then v.Boolean?
    else if getter == "get_object_id" then v.ObjectId?
    else if getter == "get_utc_datetime" then v.UtcDatetime?
    else if getter == "get_i32" then v.I32?
    else if getter == "get_i64" then v.I64?
    else false
  }

  /** `doc.<getter>(key)`, the value read kept as BSON. */
  function Fetch(d: Doc, getter: string, key: string): (r: Result<Bson, AccessError>)
    ensures r == Err(NotPresent) <==> !HasKey(d, key)
    ensures r.Ok? ==> Get(d, key) == Some(r.value) && GetterAccepts(getter, r.value)
    ensures r == Err(UnexpectedType) <==> HasKey(d, key) && !GetterAccepts(getter, Get(d, key).value)
  {
    match Get(d, key)
    case None => Err(NotPresent)
    case Some(v) => if GetterAccepts(getter, v) then Ok(v) else Err(UnexpectedType)
  }

  /** A typed getter's result with the value put back into BSON. */
  function Lift<T>(r: Result<T, AccessError>, wrap: T -> Bson): Result<Bson, AccessError> {
    match r
    case Ok(x) => Ok(wrap(x))
    case Err(e) => Err(e)
  }

  /** `Fetch` does what each typed getter of the document does. */
  lemma FetchAgreesWithGetters(d: Doc, key: string)
    ensures Fetch(d, "get_f64", key) == Lift(GetF64(d, key), (f: Float) => FloatingPoint(f))
    ensures Fetch(d, "get_str", key) == Lift(GetStr(d, key), (s: string) => Bson.String(s))
    ensures Fetch(d, "get_array", key) == Lift(GetArray(d, key), (a: seq<Bson>) => Bson.Array(a))
    ensures Fetch(d, "get_document", key) == Lift(GetDocument(d, key), (sub: Doc) => Document(sub))
    ensures Fetch(d, "get_bool", key) == Lift(GetBool(d, key), (b: bool) => Boolean(b))
    ensures Fetch(d, "get_object_id", key) == Lift(GetObjectId(d, key), (o: Oid) => Bson.ObjectId(o))
    ensures Fetch(d, "get_utc_datetime", key) == Lift(GetUtcDatetime(d, key), (t: Date) => UtcDatetime(t))
    ensures Fetch(d, "get_i32", key) == Lift(GetI32(d, key), (i: Int32) => Bson.I32(i))
    ensures Fetch(d, "get_i64", key) == Lift(GetI64(d, key), (l: Int64) => Bson.I64(l))
  {
  }

  /** The BSON variant a value of the given type is stored as. */
  predicate VariantStores(t: Variant, v: Bson) {
    match t
    case Field(b) =>
      (match b
       case F64 => v.FloatingPoint?
       case String => v.String?
       case ObjectId => v.ObjectId?
       case Bool => v.Boolean?
       case Date => v.UtcDatetime?
       case I32 => v.I32?
       case I64 => v.I64?
       case Bson => v.Document?)
    case EnumRef(_) => v.String?
    case _ => v.Document?
  }

  /** The BSON variant a member is stored as: an array for a `Vec`, a
      document for a map, otherwise that of its type. */
  predicate Stores(m: Member, v: Bson) {
    match m.container
    case Array => v.Array?
    case Plain => VariantStores(m.variant, v)
    case _ => v.Document?
  }

  /** The getter named for a member reads exactly the variant it is stored as. */
  lemma GetterMatchesStores(m: Member, v: Bson)
    ensures GetterAccepts(TypeNames.MemberGetter(m), v) <==> Stores(m, v)
  {
  }

  /** One member of `from_doc`: a value of the right type is converted; an
      absent optional member is unset; an absent container gets its empty
      default; an absent plain member is a missing key; any other type is a
      wrong type. */
  function FromMember<D(==)>(c: Codec<D>, m: Member, d: Doc): (r: Result<Option<D>, ConversionError>)
    ensures !HasKey(d, m.dbName) ==>
              r == if m.isOptional then Ok(None)
                   else if !m.container.IsPlain() then Ok(Some(c.empty(m)))
                   else Err(MissingKey(m.dbName))
    ensures HasKey(d, m.dbName) && !Stores(m, Get(d, m.dbName).value) ==> r == Err(WrongType(m.dbName))
    ensures HasKey(d, m.dbName) && Stores(m, Get(d, m.dbName).value) ==>
              r == match c.from(m, Get(d, m.dbName).value)
                   case Ok(x) => Ok(Some(x))
                   case Err(e) => Err(e)
  {
    GetterMatchesStores(m, if HasKey(d, m.dbName) then Get(d, m.dbName).value else Null);
    match Fetch(d, TypeNames.MemberGetter(m), m.dbName)
    case Ok(v) =>
      (match c.from(m, v)
       case Ok(x) => Ok(Some(x))
       case Err(e) => Err(e))
    case Err(NotPresent) =>
      if m.isOptional then Ok(None)
      else
        (match TypeNames.MemberDefault(m)
         case Some(_) => Ok(Some(c.empty(m)))
         case None => Err(MissingKey(m.dbName)))
    case Err(UnexpectedType) => Err(WrongType(m.dbName))
  }

  /** `from_doc` over a list of members: each is read in order and the first
      error is the result. */
  function FromMembers<D(==)>(c: Codec<D>, ms: seq<Member>, d: Doc): (r: Result<seq<Option<D>>, ConversionError>)
    ensures r.Ok? <==> forall i :: 0 <= i < |ms| ==> FromMember(c, ms[i], d).Ok?
    ensures r.Ok? ==> |r.value| == |ms| && forall i :: 0 <= i < |ms| ==> FromMember(c, ms[i], d) == Ok(r.value[i])
    ensures r.Err? ==> exists j :: 0 <= j < |ms| && FromMember(c, ms[j], d) == Err(r.error)
                                   && forall i :: 0 <= i < j ==> FromMember(c, ms[i], d).Ok?
  {
    MapResults((m: Member) => FromMember(c, m, d), ms)
  }

  /** `FromDoc::from_doc` of the data struct. */
  function FromDoc<D(==)>(c: Codec<D>, st: Struct, d: Doc): (r: Result<seq<Option<D>>, ConversionError>)
    ensures r.Ok? ==> WellFormed(st.members, r.value)
  {
    var r := FromMembers(c, st.members, d);
    assert r.Ok? ==> forall i :: 0 <= i < |st.members| ==> !st.members[i].isOptional ==> FromMember(c, st.members[i], d).value.Some?;
    r
  }

  // ----------------------------------------------------------------------------------------------
  // Writing

  /** The inserts of `into_doc`: each member that is set, under its database
      name. */
  function IntoEntries<D(==)>(c: Codec<D>, ms: seq<Member>, data: seq<Option<D>>): (es: seq<Entry>)
    requires WellFormed(ms, data)
    ensures forall k :: k in KeysOf(es) ==> k in DbNames(ms)
    decreases |ms|
  {
    if |ms| == 0 then []
    else
      assert WellFormed(ms[1..], data[1..]) by {
        assert forall i :: 0 <= i < |ms[1..]| ==> ms[1..][i] == ms[i + 1] && data[1..][i] == data[i + 1];
      }
      var rest := IntoEntries(c, ms[1..], data[1..]);
      assert forall k :: k in DbNames(ms[1..]) ==> k in DbNames(ms) by {
        assert forall i :: 0 <= i < |ms[1..]| ==> DbNames(ms[1..])[i] == DbNames(ms)[i + 1];
      }
      var head := if ms[0].isOptional then
                    (if data[0].Some? then [Entry(ms[0].dbName, c.into(ms[0], data[0].value))] else [])
                  else [Entry(ms[0].dbName, c.into(ms[0], data[0].value))];
      assert KeysOf(head + rest) == KeysOf(head) + KeysOf(rest) by { KeysOfConcat(head, rest); }
      head + rest
  }

  /** `IntoDoc::into_doc` of the data struct. */
  function IntoDoc<D(==)>(c: Codec<D>, st: Struct, data: seq<Option<D>>): (d: Doc)
    requires WellFormed(st.members, data)
    ensures UniqueKeys(d)
  {
    FromEntriesUnique(IntoEntries(c, st.members, data));
    FromEntries(IntoEntries(c, st.members, data))
  }

  lemma {:induction false} LastLookupConcat(a: seq<Entry>, b: seq<Entry>, k: string)
    ensures LastLookup(a + b, k) == if LastLookup(b, k).Some? then LastLookup(b, k) else LastLookup(a, k)
    decreases |a|
  {
    if |a| > 0 {
      assert (a + b)[1..] == a[1..] + b;
      LastLookupConcat(a[1..], b, k);
    } else {
      assert a + b == b;
    }
  }

  /** With distinct database names, the entry written for a member is the
      only one under its name. */
  lemma {:induction false} IntoEntriesLookup<D>(c: Codec<D>, ms: seq<Member>, data: seq<Option<D>>, i: nat)
    requires WellFormed(ms, data)
    requires Distinct(DbNames(ms))
    requires i < |ms|
    ensures LastLookup(IntoEntries(c, ms, data), ms[i].dbName)
            == if data[i].Some? then Some(c.into(ms[i], data[i].value)) else None
    decreases |ms|
  {
    assert WellFormed(ms[1..], data[1..]) by {
      assert forall j :: 0 <= j < |ms[1..]| ==> ms[1..][j] == ms[j + 1] && data[1..][j] == data[j + 1];
    }
    assert DbNames(ms[1..]) == DbNames(ms)[1..];
    var rest := IntoEntries(c, ms[1..], data[1..]);
    var head := if ms[0].isOptional then
                  (if data[0].Some? then [Entry(ms[0].dbName, c.into(ms[0], data[0].value))] else [])
                else [Entry(ms[0].dbName, c.into(ms[0], data[0].value))];
    assert IntoEntries(c, ms, data) == head + rest;
    LastLookupConcat(head, rest, ms[i].dbName);
    if i == 0 {
      assert ms[0].dbName !in DbNames(ms[1..]);
      assert LastLookup(rest, ms[0].dbName).None?;
    } else {
      IntoEntriesLookup(c, ms[1..], data[1..], i - 1);
      DistinctAt(DbNames(ms), 0, i);
    }
  }

  /** The document written holds, under each member's database name, the
      written value of the member when it is set, and nothing when it is not. */
  lemma IntoDocGet<D>(c: Codec<D>, st: Struct, data: seq<Option<D>>, i: nat)
    requires WellFormed(st.members, data)
    requires Distinct(DbNames(st.members))
    requires i < |st.members|
    ensures Get(IntoDoc(c, st, data), st.members[i].dbName)
            == if data[i].Some? then Some(c.into(st.members[i], data[i].value)) else None
  {
    InsertAllGet(EmptyDoc, IntoEntries(c, st.members, data), st.members[i].dbName);
    IntoEntriesLookup(c, st.members, data, i);
  }

  /** Every key of the written document is a member's database name, and
      every member that is not optional is written. */
  lemma IntoDocKeys<D>(c: Codec<D>, st: Struct, data: seq<Option<D>>, k: string)
    requires WellFormed(st.members, data)
    ensures HasKey(IntoDoc(c, st, data), k) ==> k in DbNames(st.members)
    ensures (exists i :: 0 <= i < |st.members| && st.members[i].dbName == k && !st.members[i].isOptional)
            ==> HasKey(IntoDoc(c, st, data), k)
  {
    var es := IntoEntries(c, st.members, data);
    InsertAllHasKey(EmptyDoc, es, k);
    assert !HasKey(EmptyDoc, k);
    if exists i :: 0 <= i < |st.members| && st.members[i].dbName == k && !st.members[i].isOptional {
      var i :| 0 <= i < |st.members| && st.members[i].dbName == k && !st.members[i].isOptional;
      SetMemberWritten(c, st.members, data, i);
    }
  }

  lemma {:induction false} SetMemberWritten<D>(c: Codec<D>, ms: seq<Member>, data: seq<Option<D>>, i: nat)
    requires WellFormed(ms, data)
    requires i < |ms| && data[i].Some?
    ensures ms[i].dbName in KeysOf(IntoEntries(c, ms, data))
    decreases |ms|
  {
    assert WellFormed(ms[1..], data[1..]) by {
      assert forall j :: 0 <= j < |ms[1..]| ==> ms[1..][j] == ms[j + 1] && data[1..][j] == data[j + 1];
    }
    var rest := IntoEntries(c, ms[1..], data[1..]);
    var head := if ms[0].isOptional then
                  (if data[0].Some? then [Entry(ms[0].dbName, c.into(ms[0], data[0].value))] else [])
                else [Entry(ms[0].dbName, c.into(ms[0], data[0].value))];
    assert IntoEntries(c, ms, data) == head + rest;
    KeysOfConcat(head, rest);
    if i == 0 {
      assert KeysOf(head) == [ms[0].dbName];
    } else {
      SetMemberWritten(c, ms[1..], data[1..], i - 1);
    }
  }

  // ----------------------------------------------------------------------------------------------
  // Round trip

  /** Each set value is written as the variant its member is stored as and
      read back by the member's conversion. */
  predicate CodecRoundTrips<D(==)>(c: Codec<D>, ms: seq<Member>, data: seq<Option<D>>)
    requires |data| == |ms|
  {
    forall i :: 0 <= i < |ms| && data[i].Some? ==>
      Stores(ms[i], c.into(ms[i], data[i].value)) && c.from(ms[i], c.into(ms[i], data[i].value)) == Ok(data[i].value)
  }

  /** `from_doc(into_doc(d)) == d` when the database names are distinct and
      each member's value round-trips through its BSON. */
  lemma RoundTrip<D>(c: Codec<D>, st: Struct, data: seq<Option<D>>)
    requires WellFormed(st.members, data)
    requires Distinct(DbNames(st.members))
    requires CodecRoundTrips(c, st.members, data)
    ensures FromDoc(c, st, IntoDoc(c, st, data)) == Ok(data)
  {
    var ms := st.members;
    var d := IntoDoc(c, st, data);
    forall i | 0 <= i < |ms|
      ensures FromMember(c, ms[i], d) == Ok(data[i])
    {
      IntoDocGet(c, st, data, i);
    }
    var r := FromMembers(c, ms, d);
    assert r.value == data;
  }

  /** Reading ignores every key that is not a member's database name, such as
      the `_huus_variant` tag of a union. */
  lemma FromDocIgnoresOtherKeys<D>(c: Codec<D>, st: Struct, d: Doc, k: string, v: Bson)
    requires k !in DbNames(st.members)
    ensures FromDoc(c, st, Insert(d, k, v)) == FromDoc(c, st, d)
  {
    var ms := st.members;
    var d' := Insert(d, k, v);
    forall i | 0 <= i < |ms|
      ensures FromMember(c, ms[i], d') == FromMember(c, ms[i], d)
    {
      assert ms[i].dbName != k by { assert DbNames(ms)[i] == ms[i].dbName; }
    }
    SameReads(c, ms, d', d);
  }

  /** Two documents from which every member reads the same give the same
      result. */
  lemma SameReads<D>(c: Codec<D>, ms: seq<Member>, d1: Doc, d2: Doc)
    requires forall i :: 0 <= i < |ms| ==> FromMember(c, ms[i], d1) == FromMember(c, ms[i], d2)
    ensures FromMembers(c, ms, d1) == FromMembers(c, ms, d2)
  {
    var r1 := FromMembers(c, ms, d1);
    var r2 := FromMembers(c, ms, d2);
    if r1.Ok? && r2.Ok? {
      assert r1.value == r2.value;
    } else if r1.Err? && r2.Err? {
      var j1 :| 0 <= j1 < |ms| && FromMember(c, ms[j1], d1) == Err(r1.error)
                && forall i :: 0 <= i < j1 ==> FromMember(c, ms[i], d1).Ok?;
      var j2 :| 0 <= j2 < |ms| && FromMember(c, ms[j2], d2) == Err(r2.error)
                && forall i :: 0 <= i < j2 ==> FromMember(c, ms[i], d2).Ok?;
      assert j1 == j2;
    }
  }

  /** A document without some plain, required member is refused: the first
      member that cannot be read decides the error. */
  lemma MissingRequiredRefused<D>(c: Codec<D>, st: Struct, d: Doc, i: nat)
    requires i < |st.members|
    requires !st.members[i].isOptional && st.members[i].container.IsPlain()
    requires !HasKey(d, st.members[i].dbName)
    ensures FromDoc(c, st, d).Err?
    ensures (forall j :: 0 <= j < i ==> FromMember(c, st.members[j], d).Ok?)
            ==> FromDoc(c, st, d) == Err(MissingKey(st.members[i].dbName))
  {
    var r := FromMembers(c, st.members, d);
    if r.Err? && forall j :: 0 <= j < i ==> FromMember(c, st.members[j], d).Ok? {
      var j :| 0 <= j < |st.members| && FromMember(c, st.members[j], d) == Err(r.error)
               && forall l :: 0 <= l < j ==> FromMember(c, st.members[l], d).Ok?;
      assert j == i;
    }
  }

  // ----------------------------------------------------------------------------------------------
  // The `Query` type

  /** The `Query` type generated for a collection: its Rust name and the
      collection it stands for. */
  datatype QueryType = QueryType(typeName: string, collection: Query.Collection)

  /** What the generator makes of a struct's collection: no `Query` type
      without a collection, a panic when the collection type name cannot be
      made, and otherwise the `Query` type. */
  datatype QueryOutcome = NoCollection | NamePanics | Generated(query: QueryType)

  /** A `Query` type exists only for a struct with a collection; it is named
      after the collection, answers the collection name verbatim, and lists
      the struct's indexed fields in order. */
  function QueryOf(st: Struct): (r: QueryOutcome)
    ensures r.NoCollection? <==> st.collectionName.None?
    ensures r.NamePanics? <==> st.collectionName.Some? && TypeNames.MakeCollName(st.collectionName.value).None?
    ensures r.Generated? ==> r.query.collection == Query.Collection(st.collectionName.value, st.indexedFields)
    ensures r.Generated? ==> Some(r.query.typeName) == TypeNames.MakeCollName(st.collectionName.value)
  {
    match st.collectionName
    case None => NoCollection
    case Some(name) =>
      match TypeNames.MakeCollName(name)
      case None => NamePanics
      case Some(typeName) => Generated(QueryType(typeName, Query.Collection(name, st.indexedFields)))
  }

  /** The struct the schema stores in a collection has a `Query` type for that
      collection, whose index command carries the struct's indexed fields,
      unless the collection type name cannot be made. */
  lemma CollectionQuery(s: Schema, collection: string)
    requires FindEntityForCollection(s, collection).Some?
    requires !TypeNames.WidePieceStart(collection, true)
    ensures var st := FindEntityForCollection(s, collection).value;
            QueryOf(st).Generated? && QueryOf(st).query.collection.name == collection
            && Query.CreateIndexes(QueryOf(st).query.collection).indexedFields == st.indexedFields
  {
  }
}
