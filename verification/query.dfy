/** The `Query` trait (`huus::query`): the commands a collection type offers,
    built from its collection name, its indexed fields and the documents of its
    data, filter and update types. */
module Query {
  import opened Wrappers
  import opened Seqs
  import opened Bson
  import Commands

  /** `filter::all`: matches every document. */
  function All(): (d: Doc)
    ensures Keys(d) == []
  {
    EmptyDoc
  }

  /** `filter::text`: `{"$text": {"$search": pattern}}`. */
  function TextFilter(pattern: string): (d: Doc)
    ensures Keys(d) == ["$text"]
    ensures Get(d, "$text").Some? && Get(d, "$text").value.Document?
    ensures IsSingleton(Get(d, "$text").value.doc, "$search", String(pattern))
  {
    SingletonDoc("$text", Document(SingletonDoc("$search", String(pattern))))
  }

  /** What a type implementing `Query` provides: `get_collection_name` and
      `get_indexed_fields`. */
  datatype Collection = Collection(name: string, indexedFields: seq<string>)

  /** `create_collection` */
  function CreateCollection(q: Collection): (c: Commands.CreateCollectionCommand)
    ensures c.collectionName == q.name
  {
    Commands.CreateCollectionCommand(q.name)
  }

  /** `drop_collection` */
  function DropCollection(q: Collection): (c: Commands.DropCollectionCommand)
    ensures c.collectionName == q.name
  {
    Commands.DropCollectionCommand(q.name)
  }

  /** `create_indexes`: the indexed fields in order. */
  function CreateIndexes(q: Collection): (c: Commands.CreateIndexesCommand)
    ensures c.collectionName == q.name && c.indexedFields == q.indexedFields
  {
    Commands.CreateIndexesCommand(q.name, q.indexedFields)
  }

  /** `fetch_all`: every document, no limit. */
  function FetchAll(q: Collection): (c: Commands.FindCommand)
    ensures c.collectionName == q.name && Keys(c.filter) == [] && c.limit.None?
  {
    Commands.FindCommand(q.name, All(), None)
  }

  /** `find_one`, with the filter's `into_doc` already applied. */
  function FindOne(q: Collection, filter: Doc): (c: Commands.FindOneCommand)
    ensures c.collectionName == q.name && c.filter == filter
  {
    Commands.FindOneCommand(q.name, filter)
  }

  /** `find` and `find_logical`: the filter document, no limit. */
  function Find(q: Collection, filter: Doc): (c: Commands.FindCommand)
    ensures c.collectionName == q.name && c.filter == filter && c.limit.None?
  {
    Commands.FindCommand(q.name, filter, None)
  }

  /** `text_search` */
  function TextSearch(q: Collection, pattern: string): (c: Commands.FindCommand)
    ensures c.collectionName == q.name && c.filter == TextFilter(pattern) && c.limit.None?
  {
    Commands.FindCommand(q.name, TextFilter(pattern), None)
  }

  /** `insert` and `insert_data` */
  function InsertDoc(q: Collection, document: Doc): (c: Commands.InsertCommand)
    ensures c.collectionName == q.name && c.document == document
  {
    Commands.InsertCommand(q.name, document)
  }

  /** `update` (one document) and `update_many`. */
  function UpdateDocs(q: Collection, filter: Doc, update: Doc, many: bool): (c: Commands.UpdateCommand)
    ensures c.collectionName == q.name && c.filter == filter && c.update == update
    ensures c.options.UpdateMany? <==> many
  {
    Commands.UpdateCommand(q.name, filter, update, if many then Commands.UpdateMany else Commands.UpdateOne)
  }

  /** `remove_one` and `remove` (many documents). */
  function RemoveDocs(q: Collection, filter: Doc, one: bool): (c: Commands.RemoveCommand)
    ensures c.collectionName == q.name && c.filter == filter
    ensures c.options.RemoveOne? <==> one
  {
    Commands.RemoveCommand(q.name, filter, if one then Commands.RemoveOne else Commands.RemoveMany)
  }

  /** The collection commands of a type act on its own collection: creating it
      where it does not exist yet and dropping it again leaves the existing
      collections as they were, and the index command sends one text key per
      indexed field, in order, when there is at least one. */
  lemma CollectionCommands(q: Collection, existing: set<string>)
    requires Distinct(q.indexedFields)
    ensures q.name !in existing ==>
      Commands.CreateCollection(CreateCollection(q), existing).0 &&
      Commands.DropCollection(DropCollection(q), Commands.CreateCollection(CreateCollection(q), existing).1).1 == existing
    ensures Keys(Commands.IndexKeys(CreateIndexes(q).indexedFields)) == q.indexedFields
    ensures Commands.SendsIndexesCommand(CreateIndexes(q)) <==> |q.indexedFields| > 0
  {
    Commands.CreateDropCollection(q.name, existing);
    Commands.IndexKeysOrder(q.indexedFields);
  }

  /** Only `update_many` sets the multi-update flag and only `remove_one` the
      single-remove flag; `find_one` reads one document and `find` all. */
  lemma CommandOptions(q: Collection, filter: Doc, update: Doc, many: bool, one: bool)
    ensures Commands.UpdateFlags(UpdateDocs(q, filter, update, many).options).Some? <==> many
    ensures Commands.RemoveFlags(RemoveDocs(q, filter, one).options).Some? <==> one
    ensures Commands.FindOneLimit(FindOne(q, filter)) == Some(1)
    ensures Commands.FindLimit(Find(q, filter)).None?
  {
  }
}
