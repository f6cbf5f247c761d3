/** The validated schema of the macro-support crate
    (`huus_macros_support/src/definition/output.rs`): built-in types, references
    to user-defined types, containers, struct members, enums, unions, and the
    schema with its two lookups. */
module Schema {
  import opened Wrappers
  import opened Seqs
  import Text

  /** `BuiltInType`: the MongoDB scalar types a member may have. */
  datatype BuiltInType = F64 | String | ObjectId | Bool | Date | I32 | I64 | Bson

  /** The spelling of each built-in type in the schema language. */
  function BuiltInName(b: BuiltInType): string {
    match b
    case F64 => "f64"
    case String => "String"
    case ObjectId => "ObjectId"
    case Bool => "bool"
    case Date => "Date"
    case I32 => "i32"
    case I64 => "i64"
    case Bson => "Bson"
  }

  /** `BuiltInType::from_name`: exactly the eight built-in spellings are
      accepted, case-sensitively; every other name is refused. */
  function FromName(name: string): (r: Result<BuiltInType, ()>)
    ensures r.Ok? ==> BuiltInName(r.value) == name
    ensures (exists b: BuiltInType :: BuiltInName(b) == name) ==> r.Ok?
  {
    match name
    case "f64" => Ok(F64)
    case "String" => Ok(String)
    case "ObjectId" => Ok(ObjectId)
    case "bool" => Ok(Bool)
    case "Date" => Ok(Date)
    case "i32" => Ok(I32)
    case "i64" => Ok(I64)
    case "Bson" => Ok(Bson)
    case _ => Err(())
  }

  /** Reading back a built-in spelling gives the type, and distinct accepted
      names give distinct types. */
  lemma FromNameInverse(b: BuiltInType, n1: string, n2: string)
    ensures FromName(BuiltInName(b)) == Ok(b)
    ensures FromName(n1).Ok? && FromName(n2).Ok? && n1 != n2 ==> FromName(n1) != FromName(n2)
  {
  }

  /** `BuiltInType::allows_indexing`: only strings and object ids. */
  predicate BuiltInAllowsIndexing(b: BuiltInType) {
    b == String || b == ObjectId
  }

  /** `DefinedType`: the name of a struct, enum or union of the schema. */
  datatype DefinedType = DefinedType(name: string)

  /** `Variant`: a member type, built-in or a reference to a defined entity. */
  datatype Variant =
    | Field(field: BuiltInType)
    | StructRef(structType: DefinedType)
    | EnumRef(enumType: DefinedType)
    | UnionRef(unionType: DefinedType)
  {
    /** The defined type a non-built-in variant refers to. */
    function Defined(): DefinedType
      requires !Field?
    {
      match this
      case StructRef(t) => t
      case EnumRef(t) => t
      case UnionRef(t) => t
    }
  }

  /** `Variant::allows_indexing`: a built-in that allows it; never a defined type. */
  predicate AllowsIndexing(v: Variant) {
    v.Field? && BuiltInAllowsIndexing(v.field)
  }

  /** `Container`: how a member's values are held. */
  datatype Container = Array | BTreeMap(key: Variant) | HashMap(key: Variant) | Plain
  {
    /** `is_plain` and `is_array`. */
    predicate IsPlain() {
      this == Plain
    }

    predicate IsArray() {
      this == Array
    }

    predicate IsMap() {
      BTreeMap? || HashMap?
    }
  }

  /** `Member`: one field of a struct. */
  datatype Member = Member(
    rustName: string,
    dbName: string,
    variant: Variant,
    container: Container,
    isOptional: bool,
    isIndexed: bool)

  /** `ParseError`: the part of a member declaration that was refused; a refused
      database name carries the first character that is not allowed. */
  datatype ParseError = RustName | DbName(character: char) | Type

  /** The prefix no member name may start with. */
  const ForbiddenPrefix: string := "_huus"

  /** Characters a database name may contain: alphanumerics and underscore. */
  predicate IsDbNameChar(c: char) {
    Text.IsAlphanumeric(c) || c == '_'
  }

  /** The first character of `s` that is not allowed in a database name. */
  function FirstForbidden(s: string): (r: Option<nat>)
    ensures r.None? <==> forall i :: 0 <= i < |s| ==> IsDbNameChar(s[i])
    ensures r.Some? ==> r.value < |s| && !IsDbNameChar(s[r.value])
    ensures r.Some? ==> forall i :: 0 <= i < r.value ==> IsDbNameChar(s[i])
    decreases |s|
  {
    if |s| == 0 then None
    else if !IsDbNameChar(s[0]) then Some(0)
    else
      match FirstForbidden(s[1..])
      case None => None
      case Some(k) => Some(k + 1)
  }

  /** `Member::new`: the member name must not start with `_huus`; then the
      first database-name character that is neither alphanumeric nor `_` is
      reported; then indexing is refused for a type that does not allow it.
      A member that passes stores all six fields unchanged. */
  function NewMember(
    rustName: string, dbName: string, variant: Variant, container: Container,
    isOptional: bool, isIndexed: bool): (r: Result<Member, ParseError>)
    ensures r == Err(RustName) <==> Text.StartsWith(rustName, ForbiddenPrefix)
    ensures r.Err? && r.error.DbName? ==>
              !Text.StartsWith(rustName, ForbiddenPrefix)
              && (exists i :: 0 <= i < |dbName| && dbName[i] == r.error.character
                    && !IsDbNameChar(dbName[i]) && forall j :: 0 <= j < i ==> IsDbNameChar(dbName[j]))
    ensures r == Err(Type) <==>
              !Text.StartsWith(rustName, ForbiddenPrefix)
              && (forall i :: 0 <= i < |dbName| ==> IsDbNameChar(dbName[i]))
              && isIndexed && !AllowsIndexing(variant)
    ensures r.Ok? <==>
              !Text.StartsWith(rustName, ForbiddenPrefix)
              && (forall i :: 0 <= i < |dbName| ==> IsDbNameChar(dbName[i]))
              && (isIndexed ==> AllowsIndexing(variant))
    ensures r.Ok? ==> r.value == Member(rustName, dbName, variant, container, isOptional, isIndexed)
  {
    if Text.StartsWith(rustName, ForbiddenPrefix) then Err(RustName)
    else
      match FirstForbidden(dbName)
      case Some(i) => Err(DbName(dbName[i]))
      case None =>
        if isIndexed && !AllowsIndexing(variant) then Err(Type)
        else Ok(Member(rustName, dbName, variant, container, isOptional, isIndexed))
  }

  /** `EnumChoice` and `UnionChoice`: a named alternative, for a union also the
      struct it holds. */
  datatype EnumChoice = EnumChoice(rustName: string, dbName: string)

  datatype UnionChoice = UnionChoice(rustName: string, dbName: string, variant: DefinedType)

  /** `Struct`: a document type; `collectionName` is set for the main document
      of a collection, and `indexedFields` is filled in by `prepare`. */
  datatype Struct = Struct(
    structName: DefinedType,
    collectionName: Option<string>,
    members: seq<Member>,
    indexedFields: seq<string>)

  datatype Enum = Enum(name: DefinedType, choices: seq<EnumChoice>)

  datatype Union = Union(name: DefinedType, choices: seq<UnionChoice>)

  /** `Entity`: one definition of the schema. */
  datatype Entity = StructEntity(structSpec: Struct) | EnumEntity(enumSpec: Enum) | UnionEntity(unionSpec: Union)

  /** The name an entity is looked up by. */
  function EntityName(e: Entity): string {
    match e
    case StructEntity(s) => s.structName.name
    case EnumEntity(en) => en.name.name
    case UnionEntity(u) => u.name.name
  }

  /** `Enum::to_db_names`: the choices' database names, in order. */
  function ToDbNames(e: Enum): (r: seq<string>)
    ensures |r| == |e.choices|
    ensures forall i :: 0 <= i < |r| ==> r[i] == e.choices[i].dbName
  {
    seq(|e.choices|, i requires 0 <= i < |e.choices| => e.choices[i].dbName)
  }

  /** `Schema`: every entity, in definition order. */
  datatype Schema = Schema(entities: seq<Entity>)

  /** The position of the first entity with the given name, or `|es|`. */
  function FirstNamed(es: seq<Entity>, name: string): (i: nat)
    ensures i <= |es|
    ensures i < |es| ==> EntityName(es[i]) == name
    ensures forall j :: 0 <= j < i ==> EntityName(es[j]) != name
    decreases |es|
  {
    if |es| == 0 then 0
    else if EntityName(es[0]) == name then 0
    else 1 + FirstNamed(es[1..], name)
  }

  /** `Schema::find_entity`: the first entity, in list order, with that name. */
  function FindEntity(s: Schema, name: string): (r: Option<Entity>)
    ensures r.None? <==> forall j :: 0 <= j < |s.entities| ==> EntityName(s.entities[j]) != name
    ensures r.Some? ==> exists i :: 0 <= i < |s.entities| && s.entities[i] == r.value
                          && EntityName(r.value) == name
                          && forall j :: 0 <= j < i ==> EntityName(s.entities[j]) != name
  {
    var i := FirstNamed(s.entities, name);
    if i < |s.entities| then Some(s.entities[i]) else None
  }

  /** A struct that is the main document of the named collection. */
  predicate IsMainDocument(e: Entity, collection: string) {
    e.StructEntity? && e.structSpec.collectionName == Some(collection)
  }

  /** The position of the first main document of a collection, or `|es|`. */
  function FirstMainDocument(es: seq<Entity>, collection: string): (i: nat)
    ensures i <= |es|
    ensures i < |es| ==> IsMainDocument(es[i], collection)
    ensures forall j :: 0 <= j < i ==> !IsMainDocument(es[j], collection)
    decreases |es|
  {
    if |es| == 0 then 0
    else if IsMainDocument(es[0], collection) then 0
    else 1 + FirstMainDocument(es[1..], collection)
  }

  /** `Schema::find_entity_for_collection`: the first struct whose collection
      is the one asked for; enums, unions and embedded structs never match. */
  function FindEntityForCollection(s: Schema, collection: string): (r: Option<Struct>)
    ensures r.None? <==> forall j :: 0 <= j < |s.entities| ==> !IsMainDocument(s.entities[j], collection)
    ensures r.Some? ==> r.value.collectionName == Some(collection)
    ensures r.Some? ==> exists i :: 0 <= i < |s.entities| && s.entities[i] == StructEntity(r.value)
                          && forall j :: 0 <= j < i ==> !IsMainDocument(s.entities[j], collection)
  {
    var i := FirstMainDocument(s.entities, collection);
    if i < |s.entities| then Some(s.entities[i].structSpec) else None
  }
}
