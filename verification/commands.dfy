/** Database commands (`huus::commands`): plain records of what to send to
    MongoDB. Executing them is network I/O and is not modelled; what is modelled
    is the document each command sends and the decisions its `execute` takes
    before talking to the database. */
module Commands {
  import opened Wrappers
  import opened Seqs
  import opened Bson

  const U32Max: nat := 0xFFFF_FFFF

  datatype CreateCollectionCommand = CreateCollectionCommand(collectionName: string)

  datatype DropCollectionCommand = DropCollectionCommand(collectionName: string)

  datatype CreateIndexesCommand = CreateIndexesCommand(collectionName: string, indexedFields: seq<string>)

  datatype FindOneCommand = FindOneCommand(collectionName: string, filter: Doc)

  /** `limit` is a `u32`. */
  datatype FindCommand = FindCommand(collectionName: string, filter: Doc, limit: Option<nat>)

  predicate WellFormedFind(c: FindCommand) {
    c.limit.Some? ==> c.limit.value <= U32Max
  }

  datatype InsertCommand = InsertCommand(collectionName: string, document: Doc)

  datatype UpdateOptions = UpdateOne | UpdateMany

  datatype UpdateCommand = UpdateCommand(collectionName: string, filter: Doc, update: Doc, options: UpdateOptions)

  datatype RemoveOptions = RemoveOne | RemoveMany

  datatype RemoveCommand = RemoveCommand(collectionName: string, filter: Doc, options: RemoveOptions)

  // ---------------------------------------------------------------------------
  // Collections

  /** `CreateCollectionCommand::execute`, against the set of existing collection
      names: the collection is created only when it does not exist yet. */
  function CreateCollection(c: CreateCollectionCommand, existing: set<string>): (r: (bool, set<string>))
    ensures r.0 <==> c.collectionName !in existing
    ensures r.1 == existing + {c.collectionName}
  {
    if c.collectionName !in existing then (true, existing + {c.collectionName}) else (false, existing)
  }

  /** `DropCollectionCommand::execute`: the collection is dropped only when it
      exists. */
  function DropCollection(c: DropCollectionCommand, existing: set<string>): (r: (bool, set<string>))
    ensures r.0 <==> c.collectionName in existing
    ensures r.1 == existing - {c.collectionName}
  {
    if c.collectionName in existing then (true, existing - {c.collectionName}) else (false, existing)
  }

  /** Creating is idempotent, and dropping after creating removes exactly that
      collection again when it was not there before. */
  lemma CreateDropCollection(name: string, existing: set<string>)
    ensures !CreateCollection(CreateCollectionCommand(name), CreateCollection(CreateCollectionCommand(name), existing).1).0
    ensures name !in existing ==>
      DropCollection(DropCollectionCommand(name), CreateCollection(CreateCollectionCommand(name), existing).1).1 == existing
  {
  }

  // ---------------------------------------------------------------------------
  // Indexes

  /** The key document of a text index: every field mapped to "text", inserted in
      list order. */
  function IndexKeys(fields: seq<string>): (d: Doc)
    ensures UniqueKeys(d)
    ensures forall k :: HasKey(d, k) <==> k in fields
    ensures forall k :: HasKey(d, k) ==> Get(d, k) == Some(String("text"))
    decreases |fields|
  {
    if |fields| == 0 then EmptyDoc
    else
      var d := IndexKeys(fields[..|fields| - 1]);
      assert fields == fields[..|fields| - 1] + [fields[|fields| - 1]];
      InsertKeys(d, fields[|fields| - 1], String("text"));
      Insert(d, fields[|fields| - 1], String("text"))
  }

  /** With distinct field names the key document lists them in order. */
  lemma {:induction false} IndexKeysOrder(fields: seq<string>)
    requires Distinct(fields)
    ensures Keys(IndexKeys(fields)) == fields
    decreases |fields|
  {
    if |fields| > 0 {
      var init := fields[..|fields| - 1];
      var last := fields[|fields| - 1];
      assert fields == init + [last];
      DistinctPrefix(fields);
      IndexKeysOrder(init);
      DistinctLast(fields);
      InsertKeys(IndexKeys(init), last, String("text"));
    }
  }

  lemma {:induction false} DistinctPrefix<T>(s: seq<T>)
    requires |s| > 0 && Distinct(s)
    ensures Distinct(s[..|s| - 1])
    decreases |s|
  {
    if |s| > 1 {
      DistinctPrefix(s[1..]);
      assert s[1..][..|s[1..]| - 1] == s[..|s| - 1][1..];
      assert s[0] !in s[..|s| - 1][1..];
    }
  }

  lemma DistinctLast<T>(s: seq<T>)
    requires |s| > 0 && Distinct(s)
    ensures s[|s| - 1] !in s[..|s| - 1]
  {
    forall i | 0 <= i < |s| - 1 ensures s[i] != s[|s| - 1] {
      DistinctAt(s, i, |s| - 1);
    }
  }

  /** `CreateIndexesCommand::get_command`:
      `{"createIndexes": c, "indexes": [{"name": c, "key": keys}]}`. */
  function IndexesCommand(c: CreateIndexesCommand): (d: Doc)
    ensures Keys(d) == ["createIndexes", "indexes"]
    ensures Get(d, "createIndexes") == Some(String(c.collectionName))
    ensures Get(d, "indexes") == Some(Array([Document(IndexSpec(c))]))
  {
    PairDoc("createIndexes", String(c.collectionName), "indexes", Array([Document(IndexSpec(c))]))
  }

  /** The one index of the command: `{"name": c, "key": keys}`. */
  function IndexSpec(c: CreateIndexesCommand): (d: Doc)
    ensures Keys(d) == ["name", "key"]
    ensures Get(d, "name") == Some(String(c.collectionName))
    ensures Get(d, "key") == Some(Document(IndexKeys(c.indexedFields)))
  {
    PairDoc("name", String(c.collectionName), "key", Document(IndexKeys(c.indexedFields)))
  }

  /** `CreateIndexesCommand::execute` sends its command only for a non-empty
      field list. */
  predicate SendsIndexesCommand(c: CreateIndexesCommand) {
    |c.indexedFields| > 0
  }

  /** The example of the command test: three fields, listed in order. */
  lemma IndexesCommandExample()
    ensures var c := CreateIndexesCommand("collection", ["abc.def", "ghi", "jkl"]);
            Keys(IndexKeys(c.indexedFields)) == ["abc.def", "ghi", "jkl"] &&
            Get(IndexKeys(c.indexedFields), "ghi") == Some(String("text")) &&
            SendsIndexesCommand(c)
  {
    var fields := ["abc.def", "ghi", "jkl"];
    DistinctFromPairs(fields);
    IndexKeysOrder(fields);
  }

  // ---------------------------------------------------------------------------
  // Options

  /** `FindOneCommand::get_options`: one document at most. */
  function FindOneLimit(c: FindOneCommand): (limit: Option<nat>)
    ensures limit == Some(1)
  {
    Some(1)
  }

  /** `FindCommand::get_options`: the limit, when there is one, else no options. */
  function FindLimit(c: FindCommand): (limit: Option<nat>)
    requires WellFormedFind(c)
    ensures limit.None? <==> c.limit.None?
    ensures limit.Some? ==> limit.value == c.limit.value <= U32Max
  {
    c.limit
  }

  datatype UpdateFlag = MultiUpdate

  /** `UpdateCommand::get_options`: updating many documents sets the multi-update
      flag; updating one uses the defaults. */
  function UpdateFlags(o: UpdateOptions): (r: Option<UpdateFlag>)
    ensures r.Some? <==> o.UpdateMany?
  {
    match o
    case UpdateOne => None
    case UpdateMany => Some(MultiUpdate)
  }

  datatype RemoveFlag = SingleRemove

  /** `RemoveCommand::get_options`: removing one document sets the single-remove
      flag; removing many uses the defaults. */
  function RemoveFlags(o: RemoveOptions): (r: Option<RemoveFlag>)
    ensures r.Some? <==> o.RemoveOne?
  {
    match o
    case RemoveOne => Some(SingleRemove)
    case RemoveMany => None
  }

  // ---------------------------------------------------------------------------
  // Insert

  /** `InsertCommand::execute` up to the database call: a document with an ObjectId
      `_id` is inserted unchanged and its id returned; otherwise `freshId` (the
      generated `ObjectId::new()`) is stored under `_id` and returned. */
  function PrepareInsert(c: InsertCommand, freshId: Oid): (r: (Doc, Oid))
    ensures Get(r.0, "_id") == Some(ObjectId(r.1))
    ensures GetObjectId(c.document, "_id").Ok? ==> r == (c.document, GetObjectId(c.document, "_id").value)
    ensures GetObjectId(c.document, "_id").Err? ==> r.1 == freshId
    ensures forall k :: k != "_id" ==> Get(r.0, k) == Get(c.document, k)
  {
    match GetObjectId(c.document, "_id")
    case Ok(id) => (c.document, id)
    case Err(_) => (Insert(c.document, "_id", ObjectId(freshId)), freshId)
  }

  /** Preparing an insert twice changes nothing the second time. */
  lemma PrepareInsertIdempotent(c: InsertCommand, fresh1: Oid, fresh2: Oid)
    ensures var r := PrepareInsert(c, fresh1);
            PrepareInsert(InsertCommand(c.collectionName, r.0), fresh2) == r
  {
  }
}
