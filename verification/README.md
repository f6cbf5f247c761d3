# huus, modelled in Dafny

huus describes MongoDB schemas as Rust types. A `define_huus!` block declares structs (each
optionally the main document of a collection), enums and unions. The macro-support crate parses
that block into templates, validates them into a schema and generates Rust code from it: a data
type, a filter type, a value type and an update type per entity, with conversions to and from BSON
documents. The formulation macros (`filter!`, `update!`, `data!` and friends) check a document
literal against the schema and generate the code that builds it. The runtime crate `huus` holds
the filter, value and update builders, the conversions, and the database commands. An older macro
crate, `huus_macros`, has its own parser, definition builder and templates.

This project models all of these as pure Dafny functions over immutable datatypes:

- **Runtime:**
  - BSON documents (`Bson`), a list of entries in insertion order;
  - the conversions (`Conversions`, `Errors`, `Types`) and values (`Values`);
  - filters (`Filters`) and updates (`Updates`, `UpdateEntries`);
  - the query helpers (`Query`) and the commands (`Commands`).
- **Definition pipeline:**
  - the token parser (`Tokens`, `TokenParser`, `ParseSteps`);
  - the definition templates and interpreter (`DefinitionInput`, `DefinitionInterpreter`);
  - the schema (`Schema`) and the validator (`DefinitionValidator`, `IndexedFields`);
  - the names the generator gives to types and code (`TypeNames`).
- **Generated code:** its behaviour as functions (`StructFormulation`, `EnumFormulation`,
  `UnionFormulation`).
- **Formulation pipeline:**
  - templates and interpreter (`FormulationInput`, `FormulationInterpreter`);
  - validated output (`FormulationOutput`);
  - validator and conversion (`FormulationValidator`, `FormulationConversion`, `FormulationProperties`);
  - the document the generated code builds (`ObjectRender`).
- **Older crate:** `LegacyParser`, `LegacyDefinition` and `LegacyTemplates`. Each is proved to agree with the current crate except where the two differ, and the differences are stated.

`Wrappers`, `Seqs` and `Text` are shared helpers. `Text` holds splitting, joining, trimming and number parsing, with their round-trip lemmas.

## Model

| member | source | states |
|---|---|---|
| Bson.Insert | huus/src/filters.rs:1061-1065 | after an insert the key holds the new value and every other key keeps its value |
| Bson.InsertKeys | huus/src/filters.rs:1061-1065 | a new key is appended; a present key leaves its place and is appended; a document without repeated keys keeps none |
| Bson.ReinsertGoesLast | huus/src/updates.rs:1032-1034 | re-inserting the first of two keys moves it behind the second, the second keeping its value |
| Bson.InsertAllGet | huus/src/updates.rs:1032-1034 | after a run of inserts a key holds the value of its last insert, or its old value when it was not inserted |
| Bson.InsertAllFresh | huus/src/updates.rs:1032-1034 | inserting entries with new, distinct keys appends them in order |
| Filters.EmptyFilter | huus/src/filters.rs:1043-1045 | the empty filter document has no keys |
| Filters.WithField | huus/src/filters.rs:1047-1051 | `with_field` gives exactly the one-entry document `{field: value}` |
| Filters.FilterIntoBson | huus/src/filters.rs:1057-1059 | a filter becomes the BSON document holding its own document |
| Filters.Incorporate | huus/src/filters.rs:1061-1065 | the incorporated filter has a key exactly when either filter has it |
| Filters.IncorporateValues | huus/src/filters.rs:1061-1065 | a key the other filter has takes the other filter's value, any other key keeps its old value, and no key is repeated |
| Filters.IncorporateEmpty | huus/src/filters.rs:1043-1065 | incorporating the empty filter changes nothing, and incorporating a filter into the empty one gives that filter when its keys are distinct |
| Filters.FiltersIntoArray | huus/src/filters.rs:109-118 | one BSON document per sub-filter, in order |
| Filters.BuildComparison | huus/src/filters.rs:197-228 | each comparison builds `{field: {op: operand}}` under its own operator; `$in`/`$nin` take the array of the converted values, the others the converted value |
| Filters.BuildFilters | huus/src/filters.rs:133-152 | `$and`/`$nor`/`$or` give one key holding the built sub-filters in order; `$not` gives `{"$not": sub-filter}` |
| Filters.BuildLogical | huus/src/filters.rs:244-263 | as `BuildFilters`, with every sub-filter built for the same field |
| Filters.BuildElement | huus/src/filters.rs:279-288 | `{field: {"$exists": b}}`, or `{field: {"$type": code}}` with the type's numeric code |
| Filters.UsizeAsI32 | huus/src/filters.rs:320 | `usize as i32` agrees with the number modulo 2^32 and keeps every number below 2^31 |
| Filters.BuildArrayFilter | huus/src/filters.rs:308-322 | `$all` and `$elemMatch` take the converted elements, `$size` the truncated size |
| Filters.BuildScalarEntry | huus/src/filters.rs:904-920 | a value entry is `{field: value}`, a comparison or element entry builds as that filter, and only the empty entry builds the empty filter |
| Filters.BuildValueEntry | huus/src/filters.rs:774-798 | a value entry is `{field: value}`, an element entry builds its element filter, and only the empty entry builds the empty filter |
| Filters.BuildNullEntry | huus/src/filters.rs:881-893 | an element entry builds its element filter; only the empty entry builds the empty filter |
| Filters.BuildOptionalEntry | huus/src/filters.rs:346-353 | `None` builds the empty filter, `Some(e)` builds as `e` |
| Filters.BuildObjectEntry | huus/src/filters.rs:487-526 | value, dot, logical, element and empty entries build `{field: value}`, the nested filter, the logical operator over the built sub-entries, the element filter and the empty filter |
| Filters.BuildObjectEntries | huus/src/filters.rs:98-107 | every sub-entry built for the same field, in order |
| Filters.BuildMapEntry | huus/src/filters.rs:542-565 | a map entry builds `{field: map}`, a logical filter over its sub-entries, an element filter, or nothing |
| Filters.BuildArrayEntry | huus/src/filters.rs:620-717 | each of the six array-entry variants builds its own filter: the value, the nested filter, the array operator, the comparison, the element filter, nothing |
| Filters.ArrayEntryFromVec | huus/src/filters.rs:730-737 | a vector becomes the `$all` entry over the same elements |
| Filters.ArrayEntryFromVecFilter | huus/src/filters.rs:703-737 | a vector turned into an array entry filters with `{field: {"$all": elements}}` |
| Filters.ScalarEntryFrom | huus/src/filters.rs:938-942 | the `From` conversions give the value variant holding the value |
| Commands.CreateCollection | huus/src/commands.rs:48-53 | the collection is created exactly when it does not exist, and exists afterwards |
| Commands.DropCollection | huus/src/commands.rs:68-74 | the collection is dropped exactly when it exists, and is gone afterwards |
| Commands.CreateDropCollection | huus/src/commands.rs:43-75 | creating twice creates once; dropping after creating a missing collection restores the set of collections |
| Commands.IndexKeys | huus/src/commands.rs:91-94 | the key document has each indexed field once, every one mapped to "text", and no other key |
| Commands.IndexKeysOrder | huus/src/commands.rs:91-94 | with distinct fields the keys come in the order of the fields |
| Commands.IndexesCommand | huus/src/commands.rs:90-103 | `{"createIndexes": collection, "indexes": [spec]}`, in that order |
| Commands.IndexSpec | huus/src/commands.rs:96-101 | the one index `{"name": collection, "key": keys}` |
| Commands.IndexesCommandExample | huus/tests/commands.rs:11-29 | three fields give three text keys in order, and the command is sent |
| Commands.FindOneLimit | huus/src/commands.rs:151-153 | `find_one` asks for one document |
| Commands.FindLimit | huus/src/commands.rs:197-203 | a limit is passed on exactly when there is one, unchanged |
| Commands.UpdateFlags | huus/src/commands.rs:273-278 | the multi-update flag exactly for `UpdateMany` |
| Commands.RemoveFlags | huus/src/commands.rs:307-312 | the single-remove flag exactly for `RemoveOne` |
| Commands.PrepareInsert | huus/src/commands.rs:219-238 | the inserted document has an ObjectId `_id` that is returned: the document's own when it has one (document unchanged), otherwise the fresh one; every other key is unchanged |
| Commands.PrepareInsertIdempotent | huus/src/commands.rs:219-238 | preparing an already prepared insert changes nothing |
| Query.All | huus/src/query.rs:12-14 | `filter::all` is the empty document |
| Query.TextFilter | huus/src/query.rs:16-18 | `filter::text` is `{"$text": {"$search": pattern}}` and nothing else |
| Query.CreateCollection | huus/src/query.rs:30-32 | the create command names the type's collection |
| Query.DropCollection | huus/src/query.rs:34-36 | the drop command names the type's collection |
| Query.CreateIndexes | huus/src/query.rs:38-43 | the index command carries the collection and the indexed fields in order |
| Query.FetchAll | huus/src/query.rs:45-47 | every document of the collection: the empty filter and no limit |
| Query.FindOne | huus/src/query.rs:49-51 | the collection and the filter's document |
| Query.Find | huus/src/query.rs:53-64 | the collection, the filter's document and no limit |
| Query.TextSearch | huus/src/query.rs:66-72 | a find over the collection with the text filter of the pattern and no limit |
| Query.InsertDoc | huus/src/query.rs:74-80 | the collection and the document to insert |
| Query.UpdateDocs | huus/src/query.rs:82-98 | the collection, the filter and the update document; the many-documents option exactly for `update_many` |
| Query.RemoveDocs | huus/src/query.rs:100-115 | the collection and the filter; the single-document option exactly for `remove_one` |
| Query.CollectionCommands | huus/src/query.rs:30-43 | creating the type's collection where it is missing and dropping it again restores the existing collections; the index command has one key per indexed field, in order, and is sent exactly when there is a field |
| Query.CommandOptions | huus/src/query.rs:49-115 | only `update_many` sets the multi-update flag, only `remove_one` the single-remove flag, `find_one` reads one document and `find` has no limit |
| Conversions.StringFromBson | huus/src/conversions.rs:93-100 | a string is read exactly from a BSON string, anything else is the wrong-type error for an unknown key |
| Conversions.I32FromBson | huus/src/conversions.rs:102-109 | an `i32` is read exactly from a BSON `I32`, anything else is the wrong-type error |
| Conversions.I64FromBson | huus/src/conversions.rs:111-118 | an `i64` is read exactly from a BSON `I64`, anything else is the wrong-type error |
| Conversions.FromDocFromBson | huus/src/conversions.rs:120-129 | a `FromDoc` type reads a BSON document through `from_doc` and refuses every other variant |
| Conversions.ScalarRoundTrips | huus/src/conversions.rs:93-118 | each scalar reader gives back what the matching writer stored |
| Conversions.FromDocRoundTrip | huus/src/conversions.rs:120-129 | a reader that undoes a document writer also undoes it through BSON |
| Conversions.VecIntoBson | huus/src/conversions.rs:246-257 | a vector becomes an array of the same length holding each converted element in place |
| Conversions.VecFromBsonArray | huus/src/conversions.rs:134-144 | an array is read exactly when every element is; the result holds each element's value in place, and a failure is the error of the first failing element |
| Conversions.VecRoundTrip | huus/src/conversions.rs:134-144 | reading back an array written from a vector gives the vector, when each element round-trips |
| Conversions.ArrayIntoVecOfI32 | huus/src/conversions.rs:307-316 | the array `[1, 4, 7, 8]` of `I32` values reads as the vector `[1, 4, 7, 8]` |
| Conversions.MapIntoBson | huus/src/conversions.rs:259-285 | a map becomes a BSON document |
| Conversions.MapIntoBsonKeys | huus/src/conversions.rs:259-285 | the written document repeats no key and has exactly the printed map keys |
| Conversions.MapIntoBsonEntries | huus/src/conversions.rs:259-285 | with keys that print differently, each key's printed text holds its converted value |
| Conversions.MapFromDoc | huus/src/conversions.rs:48-80 | a document is read exactly when every entry's key and value convert; the map has exactly the keys read; a failure is the error of the first entry that fails, its key checked before its value |
| Conversions.MapRoundTrip | huus/src/conversions.rs:48-80 | reading back a document written from a map gives the map, when keys and values round-trip |
| Conversions.ReadableKeysAreInjective | huus/src/conversions.rs:42-45 | keys that read back from their printed text print differently |
| Conversions.StringKeyFromStr | huus/src/conversions.rs:290-298 | a `String` key reads as the text itself |
| Conversions.StringKeyedMapRoundTrip | huus/src/conversions.rs:259-298 | a map keyed by strings round-trips through a document |
| Errors.WrongTypeForUnknownKey | huus/src/errors.rs:23-25 | the wrong-type error names the key `<unknown>` |
| Types.Code | huus/src/types.rs:7-30 | every type code lies between 1 and 19 |
| Types.CodesFollowDeclarationOrder | huus/src/types.rs:7-30 | the codes run from 1 to 19 in declaration order, every type is listed, and no two types share a code |
| Values.EmptyValue | huus/src/values.rs:188-190 | the empty value is the empty document |
| Values.NewIntoBson | huus/src/values.rs:192-198 | `Value::new` and `into_bson` are inverse |
| Values.BuildValueOf | huus/src/values.rs:19-71 | a scalar's value holds the scalar's BSON |
| Values.UsizeAsI64 | huus/src/values.rs:137-141 | `usize as i64` agrees with the number modulo 2^64, keeps every number up to the largest `i64`, and makes larger ones negative |
| Values.BuildArrayValue | huus/src/values.rs:116-146 | a plain array holds each converted element in place; an `$each` document has the keys `$each`, then `$position` and `$slice` when set, holding the elements and the sizes as `i64` |
| Values.ArrayFromVec | huus/src/values.rs:148-155 | a vector becomes the plain array of the same elements |
| Values.InsertObjectValue | huus/src/values.rs:169-171 | inserting sets the key and leaves every other key's value alone |
| Values.InsertObjectValueKeys | huus/src/values.rs:169-171 | inserting adds exactly its key |
| Values.BuildObjectValue | huus/src/values.rs:174-178 | an object value is the document it collected |
| DefinitionInput.NewMemberTemplate | huus_macros_support/src/definition/input.rs:32-44 | a fresh member template has no names or type, is neither optional nor indexed, and is a plain member |
| DefinitionInput.EnumFromTemplate | huus_macros_support/src/definition/input.rs:69-73 | the enum keeps the template's name and choices |
| DefinitionInput.UnionFromTemplate | huus_macros_support/src/definition/input.rs:88-92 | the union keeps the template's name and choices |
| DefinitionInterpreter.QuotedStep | huus_macros_support/src/parser.rs:211-241 | a string literal token is read without its quotes and consumed; the end of the stream panics; the older crate refuses the empty string and otherwise reads the same |
| DefinitionInterpreter.ParseType | huus_macros_support/src/definition/interpreter.rs:147-172 | `Vec T` is an array of `T`, `BTreeMap K V` and `HashMap K V` are maps from `K` to `V`, and any other name is a plain member of that type, with nothing consumed after it |
| DefinitionInterpreter.ParseDbName | huus_macros_support/src/definition/interpreter.rs:137-144 | without a following identifier the database name is the Rust name; with one it must be `as` followed by a string |
| DefinitionInterpreter.ParseMember | huus_macros_support/src/definition/interpreter.rs:132-185 | a parsed member starts with its name, has every part filled in, defaults its database name to its Rust name, and is never both optional and indexed; an empty stream panics |
| DefinitionInterpreter.ParseMembersFrom | huus_macros_support/src/definition/interpreter.rs:131-189 | members are read until the group's stream ends; there is at least one, and each is complete |
| DefinitionInterpreter.ParseMembers | huus_macros_support/src/definition/interpreter.rs:124-191 | an empty braces group panics; a parsed list has at least one complete member |
| DefinitionInterpreter.ParseCollection | huus_macros_support/src/definition/interpreter.rs:104-109 | no identifier after the struct name means no collection; otherwise it must be `in` followed by the collection's string |
| DefinitionInterpreter.ParseStruct | huus_macros_support/src/definition/interpreter.rs:102-121 | the struct is named by the first identifier, has at least one complete member, and has no collection when no `in` follows the name |
| DefinitionInterpreter.ChoicesFrom | huus_macros_support/src/definition/interpreter.rs:221-257 | choices are only appended to what was read before; the end of the stream stops the loop; a choice name not followed by `as` is reported, and a report made earlier is never lost |
| DefinitionInterpreter.ReadChoice | huus_macros_support/src/definition/interpreter.rs:233-243 | reading the rest of a choice moves forward, notes exactly when the word after the name is not `as`, and an end of stream after it leaves nothing to read |
| DefinitionInterpreter.ParseChoices | huus_macros_support/src/definition/interpreter.rs:221-257 | an empty braces group has no choices and reports nothing; a first choice name not followed by `as` is reported |
| DefinitionInterpreter.Classify | huus_macros_support/src/definition/interpreter.rs:201-217 | only enum choices make an enum, only typed choices make a union, each with the parsed name and choices; no choices or a mix is rejected |
| DefinitionInterpreter.ParseEnumOrUnion | huus_macros_support/src/definition/interpreter.rs:195-218 | the enum or union is named by the first identifier and is never a struct; it carries the report of its choices |
| DefinitionInterpreter.ParseEntity | huus_macros_support/src/definition/interpreter.rs:48-56 | `struct` parses a struct, reporting nothing, `enum` an enum or union, and any other keyword is rejected |
| DefinitionInterpreter.EntitiesFrom | huus_macros_support/src/definition/interpreter.rs:33-57 | entities are only appended; each definition must start with `pub`; the end of the stream stops the loop; a report made earlier is never lost |
| DefinitionInterpreter.ParseInstructionStream | huus_macros_support/src/definition/interpreter.rs:29-65 | a successful parse adds at least one entity after the existing ones, and only when no error was reported while reading; an empty stream or one not starting with `pub` is rejected |
| DefinitionInterpreter.QuotedStepNarrower | huus_macros/src/parser.rs:177-199 | whatever the older crate's string step reads, the newer one reads the same way |
| DefinitionInterpreter.DbNameNarrower | huus_macros/src/definition_input.rs:281-348 | a database name the older crate reads is read the same way by the newer one |
| DefinitionInterpreter.MemberNarrower | huus_macros/src/definition_input.rs:281-348 | a member the older crate reads is read the same way by the newer one |
| DefinitionInterpreter.MembersFromNarrower | huus_macros/src/definition_input.rs:281-348 | a member list the older crate reads is read the same way by the newer one |
| DefinitionInterpreter.MembersNarrower | huus_macros/src/definition_input.rs:281-348 | a members group the older crate reads is read the same way by the newer one |
| DefinitionInterpreter.CollectionNarrower | huus_macros/src/definition_input.rs:261-279 | a collection clause the older crate reads is read the same way by the newer one |
| DefinitionInterpreter.StructNarrower | huus_macros/src/definition_input.rs:261-279 | a struct the older crate reads is read the same way by the newer one |
| DefinitionInterpreter.ChoicesFromNarrower | huus_macros/src/definition_input.rs:372-408 | choices the older crate reads are read the same way by the newer one |
| DefinitionInterpreter.ReadChoiceNarrower | huus_macros/src/definition_input.rs:384-395 | the rest of a choice the older crate reads is read the same way by the newer one |
| DefinitionInterpreter.EnumOrUnionNarrower | huus_macros/src/definition_input.rs:350-370 | an enum or union the older crate reads is read the same way by the newer one |
| DefinitionInterpreter.EntityNarrower | huus_macros/src/definition_input.rs:431-465 | an entity the older crate reads is read the same way by the newer one |
| DefinitionInterpreter.EntitiesFromNarrower | huus_macros/src/definition_input.rs:431-465 | an entity list the older crate reads is read the same way by the newer one |
| DefinitionInterpreter.InstructionStreamNarrower | huus_macros/src/definition_input.rs:431-465 | a whole definition the older crate reads is read the same way by the newer one |
| DefinitionInterpreterExamples.MemberExample | huus_macros_support/src/definition/interpreter.rs:132-190 | `name: String,` parses as the single plain member `name` of type `String`, stored as `name` |
| DefinitionInterpreterExamples.StructHeaderExample | huus_macros_support/src/definition/interpreter.rs:102-121 | `Doc in "docs" { name: String, }` parses as the struct `Doc` of collection `docs` with that one member |
| DefinitionInterpreterExamples.StructExample | huus_macros_support/src/definition/interpreter.rs:29-65 | `pub struct Doc in "docs" { name: String, }` parses as a definition holding exactly that struct |
| DefinitionInterpreterExamples.EmptyDbNameExample | huus_macros/src/parser.rs:177-199 | `name as "": String,` is read by the newer crate, with an empty database name, and refused by the older one |
| DefinitionInterpreterExamples.EmptyDbNameRead | huus_macros_support/src/parser.rs:211-241 | the newer crate reads `name as "": String,` with an empty database name |
| DefinitionInterpreterExamples.EmptyDbNameRefused | huus_macros/src/parser.rs:177-199 | the older crate refuses `name as "": String,` |
| DefinitionInterpreterExamples.ChoiceExample | huus_macros_support/src/definition/interpreter.rs:221-257 | `A <word> "a"` reads as the enum choice `A` stored as `a`, with an error reported exactly when the word is not `as` |
| DefinitionInterpreterExamples.EnumEntityExample | huus_macros_support/src/definition/interpreter.rs:195-218 | `enum E { A <word> "a" }` parses as the enum `E`, carrying the report of its choice |
| DefinitionInterpreterExamples.EnumStreamExample | huus_macros_support/src/definition/interpreter.rs:33-57 | the definition `pub enum E { A <word> "a" }` reads as that one enum, reported exactly when the word is not `as` |
| DefinitionInterpreterExamples.MisspelledAsRefused | huus_macros_support/src/definition/interpreter.rs:233 | `pub enum E { A as "a" }` gives the enum `E`, while `pub enum E { A is "a" }` is refused, in both crates |
| DefinitionValidator.FirstTemplateNamed | huus_macros_support/src/definition/validator.rs:131-152 | the index of the first template with the name, or the length when none has it |
| DefinitionValidator.FindTemplate | huus_macros_support/src/definition/validator.rs:131-152 | nothing is found exactly when no template has the name; otherwise the first template with the name is returned |
| DefinitionValidator.ValidateMember | huus_macros_support/src/definition/validator.rs:171-201 | arrays and plain members pass; a map key passes exactly when it is `String` or names an enum; another built-in type, an undefined name and a non-enum entity are each their own error |
| DefinitionValidator.CheckMembers | huus_macros_support/src/definition/validator.rs:241-243 | true exactly when every member of the struct passes |
| DefinitionValidator.CheckEntities | huus_macros_support/src/definition/validator.rs:222-258 | true exactly when every member of every struct passes |
| DefinitionValidator.Validate | huus_macros_support/src/definition/validator.rs:209-265 | the definition is valid exactly when every member of every struct passes; repeated names only produce diagnostics |
| DefinitionValidator.Redefinitions | huus_macros_support/src/definition/validator.rs:213-256 | an entity is reported as redefined exactly when an earlier entity or an already-seen name has its name |
| DefinitionValidator.Reassignments | huus_macros_support/src/definition/validator.rs:230-238 | a struct is reported for its collection exactly when it names one that an earlier struct or an already-seen name used |
| DefinitionValidator.FirstNeverFlagged | huus_macros_support/src/definition/validator.rs:213-238 | the first entity with a name is never reported as redefined, and the first struct of a collection is never reported as reassigned |
| DefinitionValidator.MakeVariant | huus_macros_support/src/definition/validator.rs:273-287 | a built-in name becomes that field type; another name succeeds exactly when an entity has it, and then becomes a struct, enum or union variant matching the first such entity |
| DefinitionValidator.ConvertContainer | huus_macros_support/src/definition/validator.rs:290-305 | arrays and plain members convert as they are; a map converts exactly when its key type does, into the map of that key variant |
| DefinitionValidator.ConvertMember | huus_macros_support/src/definition/validator.rs:311-321 | a member converts exactly when its type and container do; an accepted member keeps every part of the template, and an indexed one has a type that allows indexing |
| DefinitionValidator.ConvertMembers | huus_macros_support/src/definition/validator.rs:309-329 | the conversion succeeds exactly when every member's type converts; members refused by their own checks are dropped with a diagnostic |
| DefinitionValidator.KeptFromTemplate | huus_macros_support/src/definition/validator.rs:323-328 | every converted member came from one template member |
| DefinitionValidator.AcceptedIsKept | huus_macros_support/src/definition/validator.rs:323-324 | every template member that is accepted is in the converted list |
| DefinitionValidator.NothingDropped | huus_macros_support/src/definition/validator.rs:323-328 | no member is dropped exactly when every member is accepted |
| DefinitionValidator.ConvertMembersAppend | huus_macros_support/src/definition/validator.rs:310-329 | converting two member lists one after the other is converting their concatenation |
| DefinitionValidator.ConvertSingleMember | huus_macros_support/src/definition/validator.rs:323-328 | a single member is kept when accepted and dropped when refused |
| DefinitionValidator.ConvertStruct | huus_macros_support/src/definition/validator.rs:308-337 | a struct converts exactly when all its member types do; it keeps its name and collection, has the converted members and no indexed fields yet |
| DefinitionValidator.BuildFrom | huus_macros_support/src/definition/validator.rs:359-370 | the build succeeds exactly when every struct converts; each entity is built from the template at its position |
| DefinitionValidator.Build | huus_macros_support/src/definition/validator.rs:359-370 | the schema has one entity per template, in order, exactly when every struct converts |
| DefinitionValidator.BuiltKeepsName | huus_macros_support/src/definition/validator.rs:361-367 | a built entity has its template's name and kind |
| IndexedFields.Prefixed | huus_macros_support/src/definition/validator.rs:95-97 | each child path is prefixed in order, one path per child path |
| IndexedFields.KeyedPaths | huus_macros_support/src/definition/validator.rs:88-93 | one path per enum key and child path |
| IndexedFields.KeyedPathsAt | huus_macros_support/src/definition/validator.rs:88-93 | the path for key `a` and child path `b` sits at position `a * n + b` and reads `db.key.path`: keys in the outer loop, child paths in the inner |
| IndexedFields.MapKeys | huus_macros_support/src/definition/validator.rs:70-85 | a member that is not a map, or whose key is a built-in type, has no keys to expand over |
| IndexedFields.MemberPaths | huus_macros_support/src/definition/validator.rs:53-101 | an indexed built-in member gives its database name, any other built-in or enum member nothing; a struct or union member gives its child's paths under `db.`, expanded over the enum key names when it is an enum-keyed map |
| IndexedFields.EnumKeyedMemberPaths | huus_macros_support/src/definition/validator.rs:87-93 | an enum-keyed member gives `db.key.path` for every key and child path, keys first |
| IndexedFields.StructPathsMembers | huus_macros_support/src/definition/validator.rs:51-104 | a path belongs to a struct exactly when it belongs to one of its members |
| IndexedFields.PlainStructPaths | huus_macros_support/src/definition/validator.rs:53-58 | a struct of built-in members has exactly its indexed members' database names as paths, and none when no member is indexed |
| IndexedFields.StructPathsExtend | huus_macros_support/src/definition/validator.rs:64-68 | a struct's paths do not change when the memo gains entries |
| IndexedFields.SoundEntryExtend | huus_macros_support/src/definition/validator.rs:33-46 | a memo entry that is right stays right when the memo gains entries |
| IndexedFields.SoundEmptyEntry | huus_macros_support/src/definition/validator.rs:107-113 | an enum or union is memoised with no paths, and that keeps the memo right |
| IndexedFields.PrepareEntity | huus_macros_support/src/definition/validator.rs:30-48 | an entity already memoised is left alone; otherwise its entry is added, nothing is removed, and a right memo stays right |
| IndexedFields.PrepareStruct | huus_macros_support/src/definition/validator.rs:50-105 | the struct's entry is added, nothing is removed, and a right memo stays right |
| IndexedFields.PrepareMembers | huus_macros_support/src/definition/validator.rs:52-102 | the members' paths are the struct's paths computed against the memo that results |
| IndexedFields.PrepareFrom | huus_macros_support/src/definition/validator.rs:23-28 | after the loop every entity of the schema has an entry, and every entry is right |
| IndexedFields.PrepareFromStep | huus_macros_support/src/definition/validator.rs:24-26 | one turn of the loop prepares the next entity and carries its memo to the rest |
| IndexedFields.IndexedFieldsOf | huus_macros_support/src/definition/validator.rs:19-28 | the memo has an entry for every entity, and every entry is right |
| IndexedFields.NoCycleEntity | huus_macros_support/src/definition/validator.rs:30-48 | with no struct that reaches itself, preparing an entity never meets a cycle |
| IndexedFields.NoCycleStruct | huus_macros_support/src/definition/validator.rs:50-105 | with no struct that reaches itself, preparing a struct never meets a cycle |
| IndexedFields.NoCycleMembers | huus_macros_support/src/definition/validator.rs:59-64 | with no struct that reaches itself, preparing members never meets a cycle |
| IndexedFields.NoCycleFrom | huus_macros_support/src/definition/validator.rs:23-28 | with no struct that reaches itself, the loop never meets a cycle |
| IndexedFields.RankedTerminates | huus_macros_support/src/definition/validator.rs:23-28 | with no struct that reaches itself, collecting indexed fields never meets a cycle |
| IndexedFields.WithFields | huus_macros_support/src/definition/validator.rs:344-354 | a struct gets the memo's list for its name and keeps every other part; an enum or union is unchanged |
| IndexedFields.Assign | huus_macros_support/src/definition/validator.rs:344-355 | every struct is assigned its list exactly when each struct name is known and used once, because each list is removed when taken |
| IndexedFields.AssignStep | huus_macros_support/src/definition/validator.rs:346-349 | taking the first struct's list leaves the rest to be assigned from the memo without it |
| DefinitionVerifier.Prepare | huus_macros_support/src/definition/validator.rs:342-356 | every entity gets its memo list and nothing else changes; this succeeds exactly when no two structs share a name |
| DefinitionVerifier.PreparedStructPaths | huus_macros_support/src/definition/validator.rs:342-356 | in the prepared schema the first struct of a name carries exactly its members' paths |
| DefinitionVerifier.Verify | huus_macros_support/src/definition/validator.rs:155-160 | an invalid definition is refused, an unresolved one too; a verified schema is the prepared build, with one entity per template and the template's names |
| TypeNames.BuiltInFilter | huus_macros_support/src/definition/output.rs:86-97 | every built-in filter type is a runtime filter entry |
| TypeNames.BuiltInUpdate | huus_macros_support/src/definition/output.rs:114-125 | every built-in update type is a runtime update entry |
| TypeNames.BuiltInNamesInjective | huus_macros_support/src/definition/output.rs:72-139 | two different built-in types never get the same data, filter, update or getter name |
| TypeNames.Suffix | huus_macros_support/src/definition/output.rs:171-193 | every generated-type suffix has at least four characters |
| TypeNames.GeneratedName | huus_macros_support/src/definition/output.rs:171-193 | a generated type name is the entity name followed by the kind's suffix |
| TypeNames.Tail2OfSuffix | huus_macros_support/src/definition/output.rs:171-193 | the last two characters of a generated name are those of its suffix |
| TypeNames.GeneratedNamesDistinct | huus_macros_support/src/definition/output.rs:171-193 | two generated names are equal only for the same entity and the same kind |
| TypeNames.LongFilter | huus_macros_support/src/definition/output.rs:238-250 | every variant's long filter is a runtime filter entry |
| TypeNames.LongUpdate | huus_macros_support/src/definition/output.rs:273-284 | every variant's long update is a runtime update entry |
| TypeNames.BuiltInDataNotGenerated | huus_macros_support/src/definition/output.rs:72-83 | no built-in data type is the data type generated for an entity |
| TypeNames.VariantDataUnambiguous | huus_macros_support/src/definition/output.rs:228-235 | the data type name tells a built-in from a defined type and determines which one |
| TypeNames.MemberFilter | huus_macros_support/src/definition/output.rs:422-441 | every member's filter is a runtime filter entry, and a plain member's is its variant's long filter |
| TypeNames.MemberValue | huus_macros_support/src/definition/output.rs:444-460 | every member's value type is a runtime value entry |
| TypeNames.MemberUpdate | huus_macros_support/src/definition/output.rs:463-482 | every member's update is a runtime update entry, and a plain member's is its variant's long update |
| TypeNames.MemberGetter | huus_macros_support/src/definition/output.rs:485-492 | arrays are read with `get_array`, maps with `get_document`, plain members with their variant's getter |
| TypeNames.MemberConversion | huus_macros_support/src/definition/output.rs:495-502 | containers are converted through `huus_into_struct`, plain members through their variant's conversion |
| TypeNames.MemberDefault | huus_macros_support/src/definition/output.rs:505-512 | a member has a default exactly when it is an array or a map |
| TypeNames.Capitalize | huus_macros_support/src/definition/generator.rs:296-302 | the first character is upper-cased and the rest kept; a first character of more than one UTF-8 byte panics |
| TypeNames.CapitalizeAll | huus_macros_support/src/definition/generator.rs:297-304 | every part is capitalized, in order, and the whole panics exactly when one part does |
| TypeNames.SplitStarts | huus_macros_support/src/definition/generator.rs:297-304 | a part after splitting on `_` starts with a wide character exactly when the name has one at its start or right after an `_` |
| TypeNames.MakeCollName | huus_macros_support/src/definition/generator.rs:295-305 | the name panics exactly when a wide character starts it or follows an `_` |
| TypeNames.SplitLengths | huus_macros_support/src/definition/generator.rs:297-304 | the parts after splitting on `_` hold every character but the underscores |
| TypeNames.CapitalizeAllLengths | huus_macros_support/src/definition/generator.rs:297-302 | capitalizing keeps the total length of the parts |
| TypeNames.ToUpperKeepsUnderscore | huus_macros_support/src/definition/generator.rs:300 | upper-casing gives `_` only for `_` |
| TypeNames.MakeCollNameShape | huus_macros_support/src/definition/generator.rs:295-305 | a collection type name has no `_` and is the collection name without its underscores |
| TypeNames.MakeCollNameExample | huus_macros_support/src/definition/generator.rs:295-305 | `coll_3` becomes `Coll3` |
| TypeNames.MakeCollNameWideExample | huus_macros_support/src/definition/generator.rs:296-302 | `coll_é` panics |
| EnumFormulation.ToStr | huus_macros_support/templates/enum_formulation.rs:19-25 | a choice is written as its database name |
| EnumFormulation.FromStr | huus_macros_support/templates/enum_formulation.rs:11-18 | a string is read exactly when it is some choice's database name, as the first choice with that name; any other string is an incorrect value |
| EnumFormulation.IntoBson | huus_macros_support/templates/enum_formulation.rs:28-33 | a choice becomes the BSON string of its database name |
| EnumFormulation.FromStrToStr | huus_macros_support/templates/enum_formulation.rs:10-26 | with distinct database names, reading a written choice gives the choice back |
| EnumFormulation.SharedNameReadsFirst | huus_macros_support/templates/enum_formulation.rs:12-17 | when two choices share a database name, reading it gives the earlier one |
| EnumFormulation.BsonRoundTrip | huus_macros_support/templates/enum_formulation.rs:10-33 | a choice written to BSON reads back as its database name and then as the same choice |
| EnumFormulation.EnumKeyedMapRoundTrip | huus/src/conversions.rs:259-298 | a map keyed by an enum with distinct names reads back from its document as the same map |
| UnionFormulation.ChoiceNames | huus_macros_support/templates/union_formulation.rs:17-21 | the database names of the choices, in order |
| UnionFormulation.IntoDoc | huus_macros_support/templates/union_formulation.rs:32-47 | the document is the choice's own document with `_huus_variant` set to the choice's name and every other key unchanged |
| UnionFormulation.FromDoc | huus_macros_support/templates/union_formulation.rs:10-30 | a missing `_huus_variant` string is a missing key, an unknown name an unexpected value; otherwise the first choice with that name is read from the same document |
| UnionFormulation.RoundTrip | huus_macros_support/templates/union_formulation.rs:10-47 | with distinct choice names, a union value written and read back is the same value when its choice's reader ignores the tag |
| UnionFormulation.StructUnionRoundTrip | huus_macros_support/templates/union_formulation.rs:10-47 | a union of structs that do not use `_huus_variant` reads back as the value written |
| UnionFormulation.Doc1Written | huus_macros/tests/formulation_queries.rs:52-56 | the test's `Doc1` value is written as `{"int": 6, "str": "pqr"}` |
| UnionFormulation.Doc1Conditions | huus_macros/huus/test.huus.rs:6-15 | the test schema's `Union1` and `Doc1` meet the round-trip conditions |
| UnionFormulation.TaggedWritten | huus_macros/tests/formulation_queries.rs:83-87 | the `Choice1` value is written with `_huus_variant` set to `choice_1` after its members |
| UnionFormulation.TaggedExample | huus_macros/tests/formulation_queries.rs:83-87 | the test's tagged union document is written and reads back as the same value |
| StructFormulation.DbNames | huus_macros_support/templates/struct_formulation.rs:22-25 | the database names of the members, in order |
| StructFormulation.Fetch | huus_macros_support/templates/struct_formulation.rs:25-28 | the member's getter gives not-present exactly for a missing key, unexpected-type exactly for a value of another type, and otherwise the stored value |
| StructFormulation.FetchAgreesWithGetters | huus_macros_support/templates/struct_formulation.rs:25-35 | each getter name the generator writes reads the document as the BSON document's own getter of that name does |
| StructFormulation.GetterMatchesStores | huus_macros_support/src/definition/output.rs:485-492 | the getter written for a member accepts exactly the BSON values of the member's kind |
| StructFormulation.FromMember | huus_macros_support/templates/struct_formulation.rs:23-52 | a missing optional member is absent, a missing array or map is empty, any other missing member is a missing key; a value of the wrong kind is a wrong type; otherwise the value is converted |
| StructFormulation.FromMembers | huus_macros_support/templates/struct_formulation.rs:21-55 | the struct reads exactly when every member does, member by member; a failure is the first failing member's error |
| StructFormulation.FromDoc | huus_macros_support/templates/struct_formulation.rs:17-57 | a struct read from a document has one entry per member, absent only for optional members |
| StructFormulation.IntoEntries | huus_macros_support/templates/struct_formulation.rs:63-71 | every key written is a member's database name |
| StructFormulation.IntoDoc | huus_macros_support/templates/struct_formulation.rs:59-74 | the written document has no repeated key |
| StructFormulation.IntoEntriesLookup | huus_macros_support/templates/struct_formulation.rs:63-71 | with distinct database names, a member's key holds its written value, and is missing exactly when an optional member is absent |
| StructFormulation.IntoDocGet | huus_macros_support/templates/struct_formulation.rs:59-74 | with distinct database names, looking a member up in the written document gives its written value, or nothing for an absent optional member |
| StructFormulation.IntoDocKeys | huus_macros_support/templates/struct_formulation.rs:59-74 | the written document has only member keys, and has every required member's key |
| StructFormulation.SetMemberWritten | huus_macros_support/templates/struct_formulation.rs:64-70 | every member with a value is written |
| StructFormulation.RoundTrip | huus_macros_support/templates/struct_formulation.rs:17-74 | with distinct database names and member conversions that round-trip, reading the written document gives back the struct |
| StructFormulation.FromDocIgnoresOtherKeys | huus_macros_support/templates/struct_formulation.rs:17-57 | a key that is no member's name does not change what the struct reads |
| StructFormulation.SameReads | huus_macros_support/templates/struct_formulation.rs:21-55 | two documents that read the same for every member read the same as a struct |
| StructFormulation.MissingRequiredRefused | huus_macros_support/templates/struct_formulation.rs:35-45 | a document without a required plain member is refused, with that member's missing key when the members before it read |
| StructFormulation.QueryOf | huus_macros_support/templates/struct_formulation.rs:76-148 | a struct without a collection gets no query type; one whose collection name panics in the name conversion gets none either; otherwise the query names the collection and its indexed fields, under the converted name |
| StructFormulation.CollectionQuery | huus_macros_support/templates/struct_formulation.rs:129-146 | the struct found for a collection whose name converts gets a query over that collection whose index command carries the struct's indexed fields |
| FormulationValidator.QueryOperatorFromStr | huus_macros_support/src/formulation/validator.rs:420-433 | a composed attribute names a query operator exactly when it is that operator's name, and nothing otherwise |
| FormulationValidator.QueryOperatorNames | huus_macros_support/src/formulation/validator.rs:420-433 | every query operator's name reads back as that operator |
| FormulationValidator.UpdateOperatorFromStr | huus_macros_support/src/formulation/validator.rs:435-454 | a composed attribute names an update operator exactly when it is that operator's name, and nothing otherwise |
| FormulationValidator.UpdateOperatorNames | huus_macros_support/src/formulation/validator.rs:435-454 | every update operator's name reads back as that operator |
| FormulationValidator.ToCast | huus_macros_support/src/formulation/validator.rs:132-137 | the cast keeps the member's variant, and its container unless the conversion escapes it, when it is plain |
| FormulationValidator.MessagesRotated | huus_macros_support/src/formulation/validator.rs:187-189 | as written, the field-not-found, field-on-enum and field-on-plain messages each say what the next problem means |
| FormulationValidator.IntendedMessagesName | huus_macros_support/src/formulation/validator.rs:187-189 | in the corrected table the field-on-enum message names an enum, the field-on-plain message a plain field and the field-not-found message a missing match |
| FormulationValidator.OtherMessagesKept | huus_macros_support/src/formulation/validator.rs:178-212 | every other problem has the same message in both tables |
| FormulationValidator.ChoiceResult | huus_macros_support/src/formulation/validator.rs:355-363 | a union choice naming no entity, or one that is not a struct, panics; otherwise the attribute is looked up in that struct |
| FormulationValidator.NewMemberInfo | huus_macros_support/src/formulation/validator.rs:121-130 | the member information exists exactly when the variant resolves, keeps the variant and container and resolves its entity in the schema; otherwise it panics |
| FormulationValidator.FirstMember | huus_macros_support/src/formulation/validator.rs:306-307 | the index of the first member with the database name, or the length when none has it |
| FormulationValidator.AfterKey | huus_macros_support/src/formulation/validator.rs:309-315 | an array member followed by an index or `$` addresses a plain element and consumes that part; anything else keeps the container and the rest |
| FormulationValidator.FindMember | huus_macros_support/src/formulation/validator.rs:299-347 | a first part that is not a key is an expected-key error, a key no member has is field-not-found, a member whose type names no entity panics, a single key gives the member's variant and container, and every error is a lookup problem |
| FormulationValidator.PeekMember | huus_macros_support/src/formulation/validator.rs:349-371 | a union field lookup fails only as not found, ambiguous or a panic, and a success resolves in the schema |
| FormulationValidator.ChoiceResults | huus_macros_support/src/formulation/validator.rs:354-364 | one lookup per choice, in order, each the lookup in that choice |
| FormulationValidator.FirstPanic | huus_macros_support/src/formulation/validator.rs:354-364 | the position of the first lookup that panics, none before it panicking, or the number of lookups when none does |
| FormulationValidator.SuccessesNone | huus_macros_support/src/formulation/validator.rs:366-369 | no choice accepts exactly when every lookup failed |
| FormulationValidator.SuccessesMany | huus_macros_support/src/formulation/validator.rs:366-369 | two or more successes exactly when two choices accept |
| FormulationValidator.SuccessesOne | huus_macros_support/src/formulation/validator.rs:366-367 | a single success is the lookup of exactly one accepting choice |
| FormulationValidator.PeekMemberChoices | huus_macros_support/src/formulation/validator.rs:349-371 | a union lookup panics exactly when the lookup in some choice panics; otherwise it succeeds exactly when one choice's struct has the field, with that struct's answer, is not found when none has it and ambiguous when two do |
| FormulationValidator.PeekMemberPanics | huus_macros_support/src/formulation/validator.rs:354-364 | a union lookup panics exactly when the lookup in some choice panics |
| FormulationValidator.PeekMemberFound | huus_macros_support/src/formulation/validator.rs:366-367 | a successful union lookup is the answer of exactly one accepting choice |
| FormulationValidator.PeekMemberNone | huus_macros_support/src/formulation/validator.rs:366-368 | without a panic, a union lookup is not found exactly when no choice accepts |
| FormulationValidator.PeekMemberMany | huus_macros_support/src/formulation/validator.rs:366-369 | without a panic, a union lookup is ambiguous exactly when two choices accept |
| FormulationValidator.ClosedNeverPanics | huus_macros_support/src/formulation/validator.rs:121-130 | when every member type names an entity and every union choice a struct, no attribute lookup panics |
| FormulationValidator.ClosedPeekNeverPanics | huus_macros_support/src/formulation/validator.rs:349-364 | under the same condition, no lookup in a union panics |
| FormulationValidator.ChoiceOnEnumPanics | huus_macros_support/src/formulation/validator.rs:355-362 | a union whose choice names an enum panics on a field looked up in it |
| FormulationValidator.VerifyAttribute | huus_macros_support/src/formulation/validator.rs:403-418 | data and replacement fields must have a single part; anything else passes |
| FormulationValidator.UpdateKinds | huus_macros_support/src/formulation/validator.rs:379-388 | whether some field is an update operator, and whether some field is not |
| FormulationValidator.VerifyUpdateType | huus_macros_support/src/formulation/validator.rs:378-401 | all operator fields make an update, all plain fields a replacement, no field is an empty query and a mix is refused |
| FormulationValidator.RequiredOf | huus_macros_support/src/formulation/validator.rs:876-880 | the required names are exactly those of the members that are neither optional nor arrays |
| FormulationValidator.RequiredMembers | huus_macros_support/src/formulation/validator.rs:868-885 | only data conversion requires members, namely the required ones |
| FormulationValidator.ConvertBuiltinValue | huus_macros_support/src/formulation/validator.rs:605-666 | each built-in type takes its own kind of literal and gives a value of that type, or that type's expected-literal error: strings quoted, booleans `true`/`false`, integers in range unquoted, floats unquoted, dates quoted, object ids either way |
| FormulationValidator.PrintedIntegerAccepted | huus_macros_support/src/formulation/validator.rs:650-662 | every 32-bit integer written in decimal is accepted as that 32-bit and 64-bit value |
| FormulationValidator.ConvertFilterValue | huus_macros_support/src/formulation/validator.rs:791-819 | `$in` and `$nin` take only code, cast to an array; other operators take code cast to the plain type or a built-in literal |
| FormulationValidator.ConvertDateValue | huus_macros_support/src/formulation/validator.rs:821-849 | `$currentDate` takes `true` or `{"$type": "..."}` and nothing else |
| FormulationConversion.Combine | huus_macros_support/src/formulation/validator.rs:466-497 | outcomes concatenate their fields and problems |
| FormulationConversion.ConvertObject | huus_macros_support/src/formulation/validator.rs:456-500 | every field either gives one converted field or reports at least one problem |
| FormulationConversion.ConvertFields | huus_macros_support/src/formulation/validator.rs:466-493 | every field either gives one converted field or reports at least one problem |
| FormulationConversion.ConvertField | huus_macros_support/src/formulation/validator.rs:467-492 | a field with a bad attribute reports that problem, one whose member is not found the lookup problem (a panic included), and only found fields are visited; a converted field keeps its attribute |
| FormulationConversion.ConvertValue | huus_macros_support/src/formulation/validator.rs:572-603 | code is accepted as cast for the member; data and replacement literals need a plain member and convert as a built-in literal for built-in types |
| FormulationConversion.ConvertElement | huus_macros_support/src/formulation/validator.rs:726-734 | a built-in element converts as its literal; enum and union elements must be code |
| FormulationConversion.ConvertDefinedValue | huus_macros_support/src/formulation/validator.rs:668-684 | a struct takes exactly a nested object and gives an object value; enums and unions must be code |
| FormulationConversion.ConvertFilter | huus_macros_support/src/formulation/validator.rs:686-711 | a built-in member takes an operator object, or a literal when plain; a container without an object must be code; defined types convert as defined values |
| FormulationConversion.ConvertUpdate | huus_macros_support/src/formulation/validator.rs:713-789 | each update operator's rule for the member: plain setters, array element operators, `$currentDate` on dates, `$pull` as a filter, `$pullAll` as code only, `$unset` with the empty string and `$rename` with a string |
| FormulationConversion.FilterField | huus_macros_support/src/formulation/validator.rs:510-533 | an unknown operator and an operator that does not fit the member are refused; an accepted field keeps its attribute and holds the operator's value |
| FormulationConversion.FilterFields | huus_macros_support/src/formulation/validator.rs:510-533 | every field gives exactly one converted field or one problem |
| FormulationConversion.ConvertFilterObject | huus_macros_support/src/formulation/validator.rs:502-536 | every field gives exactly one converted field or one problem |
| FormulationConversion.UpdateField | huus_macros_support/src/formulation/validator.rs:544-567 | an unknown operator and a non-object value are refused; an accepted field keeps its attribute and holds an object |
| FormulationConversion.UpdateFields | huus_macros_support/src/formulation/validator.rs:544-567 | every field either gives one converted field or reports at least one problem |
| FormulationConversion.ConvertUpdateObject | huus_macros_support/src/formulation/validator.rs:538-570 | every field either gives one converted field or reports at least one problem |
| FormulationConversion.MakeGenerator | huus_macros_support/src/formulation/validator.rs:856-866 | a generator is made exactly when there are no problems and at least one field; an empty object adds its own problem; a panic met while converting is the whole verdict |
| FormulationConversion.FindStructForCollection | huus_macros_support/src/formulation/validator.rs:283-297 | the struct found is in the schema and has the collection as its collection name; the lookup fails, with `MainDocNotDefined` alone, exactly when no struct has it |
| FormulationConversion.VerifyData | huus_macros_support/src/formulation/validator.rs:255-259 | an unknown collection is refused; accepted data has one field per given field, and at least one |
| FormulationConversion.VerifyFilter | huus_macros_support/src/formulation/validator.rs:261-265 | an unknown collection is refused; an accepted filter has one field per given field, and at least one |
| FormulationConversion.VerifyUpdate | huus_macros_support/src/formulation/validator.rs:267-276 | an unknown collection and an update that is empty or mixes operators with plain fields are refused; an accepted update has one field per given field |
| FormulationProperties.ArrayIndexAddressesElement | huus_macros_support/src/formulation/validator.rs:309-318 | an array member followed by an index addresses a plain element of the member's type, or panics when that type names no entity |
| FormulationProperties.NoFieldsBelowLeaves | huus_macros_support/src/formulation/validator.rs:318-338 | a field below a built-in member is a field on a plain value, one below an enum a field on an enum, and one below a type no entity has panics |
| FormulationProperties.StructDescent | huus_macros_support/src/formulation/validator.rs:322-327 | a field below a struct member is looked up in that struct |
| FormulationProperties.BuiltMembersResolve | huus_macros_support/src/definition/validator.rs:359-370 | in a schema the definition validator built, every struct member's type resolves, so members never make a lookup panic |
| FormulationProperties.VisitedSplit | huus_macros_support/src/formulation/validator.rs:465-476 | the visited names of a field list are those of its first field and those of the rest |
| FormulationProperties.ConvertFieldsVisited | huus_macros_support/src/formulation/validator.rs:465-476 | the names marked visited are exactly the composed attributes of the fields whose member was found |
| FormulationProperties.FieldsMissingRule | huus_macros_support/src/formulation/validator.rs:495-497 | a data object reports missing fields exactly when a required member was not visited |
| FormulationProperties.CleanField | huus_macros_support/src/formulation/validator.rs:467-492 | a field that reports no problem gives one converted field with its attribute, and its member was found |
| FormulationProperties.CleanFields | huus_macros_support/src/formulation/validator.rs:466-493 | a field list that reports no problem gives one converted field per field, in order, each found |
| FormulationProperties.DataAccepted | huus_macros_support/src/formulation/validator.rs:255-259 | accepted data names the collection's struct, has one single-part field per given field, in order, and names every required member |
| FormulationProperties.FilterAccepted | huus_macros_support/src/formulation/validator.rs:261-265 | an accepted filter has one field per given field, in order, each naming a member of the collection's struct |
| FormulationProperties.PartsAppend | huus_macros_support/src/formulation/interpreter.rs:72-95 | two field lists with parts concatenate to one |
| FormulationProperties.CombineMonoid | huus_macros_support/src/formulation/validator.rs:466-497 | combining outcomes has the empty outcome as unit and is associative |
| FormulationProperties.ConvertFieldsAppend | huus_macros_support/src/formulation/validator.rs:466-493 | converting two field lists one after the other is converting their concatenation |
| FormulationProperties.CodeAccepted | huus_macros_support/src/formulation/validator.rs:578-581 | code is always accepted, keeps its text and is cast to the member's type, a plain one for operators that escape the container |
| FormulationProperties.ElementLiteral | huus_macros_support/src/formulation/validator.rs:749-760 | an array element operator converts a literal as data for one plain element |
| FormulationProperties.SetChecksWholeStruct | huus_macros_support/src/formulation/validator.rs:724-733 | a plain struct member set by an update operator converts its object as full data, including its missing-fields check |
| FormulationInput.PartsOf | huus_macros_support/src/formulation/input.rs:64-68 | one part per piece, each read from the trimmed piece |
| FormulationInput.AttributeFromStr | huus_macros_support/src/formulation/input.rs:64-68 | a quoted attribute has one part per `.`-separated piece, at least one, each read from the trimmed piece |
| FormulationInput.IntoAttribute | huus_macros_support/src/formulation/input.rs:70-72 | the output attribute has the same parts |
| FormulationInput.PartStrings | huus_macros_support/src/formulation/input.rs:74-76 | each part written as its text, in order |
| FormulationInput.ComposedFromStr | huus_macros_support/src/formulation/input.rs:64-76 | an attribute read from a string whose pieces have no surrounding whitespace composes back to the same string |
| FormulationInput.Push | huus_macros_support/src/formulation/input.rs:82-89 | a pushed part goes to the back and the rest is kept |
| FormulationInput.Pop | huus_macros_support/src/formulation/input.rs:91-93 | popping takes the front part and keeps the rest, and gives nothing for an empty attribute |
| FormulationInput.Next | huus_macros_support/src/formulation/input.rs:95-97 | the front part, or nothing for an empty attribute |
| FormulationInput.QueueOrder | huus_macros_support/src/formulation/input.rs:82-97 | the attribute is a queue: popping gives what `next` shows, and a pushed part comes out after the parts already there |
| FormulationInput.UpdatingFromStr | huus_macros_support/src/formulation/input.rs:99-105 | a quoted attribute is an update operator exactly when it has no `.` and, trimmed, starts with `$` and is not `$` alone |
| FormulationInput.PartsAt | huus_macros_support/src/formulation/interpreter.rs:72-95 | every parsed field has a non-empty attribute and a value whose nested attributes are non-empty |
| FormulationOutput.PartFromStr | huus_macros_support/src/formulation/output.rs:28-36 | `$` is the positional part, a string `usize` parsing accepts is an index with that text, and anything else is a key with that text |
| FormulationOutput.PartRoundTrip | huus_macros_support/src/formulation/output.rs:28-51 | a part read from a string writes back as the same string |
| FormulationOutput.OperatorFromStr | huus_macros_support/src/formulation/output.rs:62-67 | a part read from a string is an operator exactly when the string starts with `$` and is not `$` alone; every operator is a key |
| FormulationOutput.CodeTypeIsMemberData | huus_macros_support/src/formulation/output.rs:88-102 | a cast's data type is the data type the schema generator writes for a member of that variant and container |
| FormulationOutput.CodeTypeWraps | huus_macros_support/src/formulation/output.rs:88-102 | a plain cast is the variant's data type; any container makes it longer |
| FormulationOutput.NewBuiltinCode | huus_macros_support/src/formulation/output.rs:144-147 | the value is code with that text, cast to the built-in type in that container |
| FormulationInterpreter.SuffixSmaller | huus_macros_support/src/formulation/interpreter.rs:79-93 | dropping tokens from the front makes the stream smaller |
| FormulationInterpreter.BehindSmaller | huus_macros_support/src/formulation/interpreter.rs:79-93 | a parser that has consumed tokens has a smaller stream left |
| FormulationInterpreter.AttributeParts | huus_macros_support/src/formulation/interpreter.rs:105-139 | the attribute's parts are read until a `:`, adding at least one part after those already read and consuming the `:`; the end of the stream panics |
| FormulationInterpreter.ParseAttribute | huus_macros_support/src/formulation/interpreter.rs:98-141 | an attribute has at least one part and consumes its `:`; a string literal is read as a quoted attribute |
| FormulationInterpreter.ParseValue | huus_macros_support/src/formulation/interpreter.rs:144-171 | a value is one token: a string literal is quoted, a number or identifier unquoted, a parenthesis group code and a brace group a nested object; punctuation is refused and the end of the stream panics |
| FormulationInterpreter.FieldsFrom | huus_macros_support/src/formulation/interpreter.rs:79-93 | fields are only appended to those read before, and the end of the stream stops the loop |
| FormulationInterpreter.ParseObject | huus_macros_support/src/formulation/interpreter.rs:72-95 | an empty stream is an empty object |
| FormulationInterpreter.ParsePrelude | huus_macros_support/src/formulation/interpreter.rs:58-64 | the prelude is accepted exactly when it holds one string literal, and gives that string; an empty prelude panics |
| FormulationInterpreter.Parse | huus_macros_support/src/formulation/interpreter.rs:34-45 | the query is the prelude's collection and the object of the following brace group, or of the bare remaining tokens |
| FormulationInterpreter.PartStep | huus_macros_support/src/formulation/interpreter.rs:106-138 | one attribute part followed by `:` ends the attribute, by `.` continues it, and by anything else is refused |
| FormulationInterpreter.PrintPartsSplit | huus_macros_support/src/formulation/interpreter.rs:106-138 | printing parts puts `.` between them and `:` after the last |
| FormulationInterpreter.PrintedParts | huus_macros_support/src/formulation/interpreter.rs:105-139 | printed attribute parts read back as the same parts |
| FormulationInterpreter.PrintedValue | huus_macros_support/src/formulation/interpreter.rs:144-171 | a printed value reads back as the same value |
| FormulationInterpreter.PrintedField | huus_macros_support/src/formulation/interpreter.rs:83-84 | a printed field reads back as the same attribute and value |
| FormulationInterpreter.FieldsTokens | huus_macros_support/src/formulation/interpreter.rs:79-93 | printed fields are separated by `,` |
| FormulationInterpreter.FieldStep | huus_macros_support/src/formulation/interpreter.rs:83-92 | after a field, the end of the stream ends the object and a `,` continues it |
| FormulationInterpreter.OnlyFieldRead | huus_macros_support/src/formulation/interpreter.rs:79-93 | a single printed field, with or without a trailing `,`, reads back as that field |
| FormulationInterpreter.NextFieldRead | huus_macros_support/src/formulation/interpreter.rs:79-93 | reading several printed fields reads the first and continues after its `,` |
| FormulationInterpreter.PrintedFields | huus_macros_support/src/formulation/interpreter.rs:79-93 | printed fields, with or without a trailing `,`, read back as the same fields |
| FormulationInterpreter.FieldsThen | huus_macros_support/src/formulation/interpreter.rs:79-93 | reading the rest of the printed fields completes reading them all |
| FormulationInterpreter.ParseAfterPrelude | huus_macros_support/src/formulation/interpreter.rs:34-45 | after a good prelude the query is the collection and the object that follows, and the object's failure otherwise |
| FormulationInterpreter.PrintPrelude | huus_macros_support/src/formulation/interpreter.rs:58-64 | the printed prelude reads back as the collection name |
| FormulationInterpreter.PrintedBracedInput | huus_macros_support/src/formulation/interpreter.rs:34-45 | a printed query in braces reads back as the same collection and fields |
| FormulationInterpreter.PrintedBareInput | huus_macros_support/src/formulation/interpreter.rs:34-45 | a printed query without braces reads back as the same collection and fields, unless its first attribute starts with code, which would read as the braces group |
| LegacyDefinition.IndexingNarrower | huus_macros/src/definition_spec.rs:24-64 | the older crate allows indexing only of strings; it refuses exactly the indexed object id that the current crate accepts |
| LegacyDefinition.NewMember | huus_macros/src/definition_spec.rs:85-119 | a member is refused for a `_huus` Rust name, else for the first character of the database name that is not alphanumeric or `_`, else for indexing a type that does not allow it; otherwise it holds the given fields |
| LegacyDefinition.NewMemberAgrees | huus_macros/src/definition_spec.rs:85-119 | the older member check agrees with the current one except on an indexed object id, which only the older one refuses |
| LegacyDefinition.ConvertMember | huus_macros/src/definition_input.rs:152-172 | a member template converts when the current conversion succeeds, and a converted indexed member has an indexable type |
| LegacyDefinition.ConvertMembers | huus_macros/src/definition_input.rs:152-173 | the members convert when each one does, and no converted indexed member has a type that refuses indexing |
| LegacyDefinition.ConvertMembersAgree | huus_macros/src/definition_input.rs:152-173 | the older conversion succeeds exactly when the current one does, and yields the current members minus the indexed object ids, whose errors are reported and skipped |
| LegacyDefinition.BuildStruct | huus_macros/src/definition_input.rs:152-180 | a struct builds when the current one does, keeps its name and collection, has no index list, and drops the refused members |
| LegacyDefinition.BuildFrom | huus_macros/src/definition_input.rs:230-247 | entities are built in order, one per template, and the build fails exactly when some struct fails to convert |
| LegacyDefinition.Build | huus_macros/src/definition_input.rs:214-247 | the schema builds exactly when map keys validate and the current build succeeds, with one entity per template in order |
| LegacyDefinition.BuildAgrees | huus_macros/src/definition_input.rs:230-247 | each built entity equals the current crate's, except that a struct loses its indexed object ids |
| LegacyDefinition.ParseInstructionStream | huus_macros/src/definition_input.rs:431-465 | an empty stream is refused; a parsed schema is non-empty and is the build of the templates the current crate parses, which reports nothing on them |
| LegacyParser.StripQuotes | huus_macros/src/parser.rs:7-19 | quotes are stripped only from a text of at least three characters that starts and ends with `"`, and the result is the non-empty text between them |
| LegacyParser.StripQuotesAgrees | huus_macros/src/parser.rs:7-19 | the older stripping succeeds exactly on the non-empty string literals the current crate reads, with the same content |
| LegacyParser.EmptyStringRefused | huus_macros/src/parser.rs:7-19 | the empty literal `""` is refused by the older crate but read as an empty string by the current one |
| LegacyParser.ExpectString | huus_macros/src/parser.rs:177-199 | a string is read only from a quoted literal with non-empty content; a failed literal does not move the span, and anything else is consumed |
| LegacyParser.ExpectStringAgrees | huus_macros/src/parser.rs:177-199 | the older string reader succeeds exactly when the current one reads a non-empty string, and reads the same text |
| LegacyParser.Expect | huus_macros/src/parser.rs:228-245 | the next token is classified as end, group, identifier, punctuation, string or error, and is consumed |
| LegacyParser.ExpectAgrees | huus_macros/src/parser.rs:228-245 | the older token classification matches the current one, except that the empty string literal becomes an error |
| LegacyParser.StringStep | huus_macros/src/parser.rs:177-199 | reading a string at the end of the stream panics; otherwise it succeeds exactly on a non-empty quoted literal and moves past it |
| LegacyParser.StringStepNarrower | huus_macros/src/parser.rs:177-199 | the older string step agrees with the current one on every non-empty string and refuses the empty one |
| LegacyTemplates.FromMember | huus_macros/templates/struct.rs:17-52 | a missing member is `None` when optional and a missing-key error otherwise; a present member is read as the current template reads it |
| LegacyTemplates.FromMemberAgrees | huus_macros/templates/struct.rs:37-41 | the older read agrees with the current one except on a missing non-optional container member, which the older refuses and the current fills with an empty container |
| LegacyTemplates.FromMembers | huus_macros/templates/struct.rs:17-52 | the members are read in order; the read fails with the first member's error |
| LegacyTemplates.FromDoc | huus_macros/templates/struct.rs:17-52 | a read document gives every non-optional member a value |
| LegacyTemplates.FromDocAgrees | huus_macros/templates/struct.rs:17-52 | when no required container member is missing, the older read equals the current one |
| LegacyTemplates.MissingContainerRefused | huus_macros/templates/struct.rs:37-41 | a document without a required container member is refused with that member's missing-key error, where the current crate reads an empty container |
| LegacyTemplates.RoundTrip | huus_macros/templates/struct.rs:17-69 | reading back a written struct gives the same data, for distinct database names and round-tripping member codecs |
| LegacyTemplates.MemberField | huus_macros/templates/struct.rs:80-102 | a collection struct filters a member by its database name; an inner struct by the field path, a dot and the database name |
| LegacyTemplates.FilterKeys | huus_macros/templates/struct.rs:80-102 | a key is in the struct filter exactly when it is in one member's filter |
| LegacyTemplates.FilterValues | huus_macros/templates/struct.rs:80-102 | the struct filter holds, for a key, the value of the last member filter that has it |
| LegacyTemplates.UniqueFilter | huus_macros/templates/struct.rs:80-102 | merging member filters with unique keys gives a filter with unique keys |
| LegacyTemplates.DefaultFilterEmpty | huus_macros/templates/struct.rs:105-113 | when every member filter is empty, as for the default filter, the struct filter is empty |
| LegacyTemplates.MembersValue | huus_macros/templates/struct.rs:122-133 | the value document built from the members has unique keys |
| LegacyTemplates.MembersValueSnoc | huus_macros/templates/struct.rs:122-133 | each member is inserted after the earlier ones, and only when it is set |
| LegacyTemplates.MembersValueKeys | huus_macros/templates/struct.rs:122-133 | a key is in the value exactly when some set member has it as database name |
| LegacyTemplates.MembersValueGet | huus_macros/templates/struct.rs:122-133 | a set member's value is stored under its database name unless a later member has the same name |
| LegacyTemplates.BuildValue | huus_macros/templates/struct.rs:122-133 | the struct value is a document whose keys are exactly the database names of the set members |
| LegacyTemplates.ValueGet | huus_macros/templates/struct.rs:122-133 | with distinct database names, each member's entry is its value, and is absent when unset |
| LegacyTemplates.DefaultValueEmpty | huus_macros/templates/struct.rs:135-143 | the default value, with no member set, is the empty document |
| LegacyTemplates.UpdateKeys | huus_macros/templates/struct.rs:154-182 | a key is in the struct update exactly when it is in the update of a member other than `_id` |
| LegacyTemplates.UpdateKeyFrom | huus_macros/templates/struct.rs:154-182 | every key of the struct update comes from a member other than `_id` |
| LegacyTemplates.UpdateKeyKept | huus_macros/templates/struct.rs:154-182 | every key of a non-`_id` member's update reaches the struct update |
| LegacyTemplates.UpdateKeysStep | huus_macros/templates/struct.rs:154-182 | adding a member adds exactly its update's keys, unless it is `_id` |
| LegacyTemplates.UpdateInstructions | huus_macros/templates/struct.rs:154-182 | the struct update's instructions for an operator are those of the non-`_id` members in order |
| LegacyTemplates.InstructionsSnoc | huus_macros/templates/struct.rs:154-182 | a further member appends its own instructions, or none when it is `_id` |
| LegacyTemplates.UpdateIgnoresId | huus_macros/templates/struct.rs:158 | changing the `_id` member's update leaves the struct update unchanged |
| LegacyTemplates.DefaultUpdateEmpty | huus_macros/templates/struct.rs:185-193 | when every member update is empty, as for the default update, the rendered update document is empty |
| LegacyTemplates.DefaultUpdateNoInstructions | huus_macros/templates/struct.rs:185-193 | the default update has no instruction for any operator |
| LegacyTemplates.DefaultUpdateNoKeys | huus_macros/templates/struct.rs:185-193 | when every member update has no key, the struct update has none |
| LegacyTemplates.NoMemberInstructions | huus_macros/templates/struct.rs:154-182 | empty member updates yield no instructions |
| LegacyTemplates.UnionBuildValue | huus_macros/templates/union.rs:78-95 | a union value is the chosen variant's document with `_huus_variant` set to the choice's database name, every other key kept |
| LegacyTemplates.UnionValueIsData | huus_macros/templates/union.rs:78-95 | the union value is the document the union's data conversion writes, and reading it back gives the same choice and data |
| LegacyTemplates.UnionUpdate | huus_macros/templates/union.rs:104-119 | a union update sets `<field>._huus_variant` to the choice's name, keeps every other key and keeps the operator instructions |
| LegacyTemplates.UnionUpdateDoc | huus_macros/templates/union.rs:109-113 | the union update merges the tag entry into the variant's update |
| LegacyTemplates.TagAppended | huus_macros/templates/union.rs:109-113 | a tag not yet in the update is appended after its entries |
| LegacyTemplates.EnumBuildValue | huus_macros/templates/enum.rs:43-48 | an enum value is the choice's string, and with distinct names it reads back as the same choice |
| LegacyTemplates.FilterSnoc | huus_macros/templates/struct.rs:92-102 | each member filter is merged after those of the earlier members |
| LegacyTemplates.UpdateSnoc | huus_macros/templates/struct.rs:169-182 | each non-`_id` member update is merged after those of the earlier members |
| LegacyTemplates.AppendFreshEntry | huus_macros/templates/struct.rs:122-133 | inserting a new key into a document with unique keys appends the entry |
| LegacyTemplates.InnerFilterExample | huus_macros/templates/struct.rs:92-102 | an inner filter of two members at field `data` has keys `data.int` and `data.str` in member order |
| LegacyTemplates.InnerUpdateExample | huus_macros/templates/struct.rs:169-182 | an inner update of two members at field `union` has keys `union.int` and `union.str` in member order |
| LegacyTemplates.UnionUpdateExample | huus_macros/templates/union.rs:104-119 | the union update at field `union` ends with `union._huus_variant` set to `choice_1` |
| LegacyTemplates.TaggedChoice1 | huus_macros/templates/union.rs:104-119 | whatever the variant's update, the tag for `choice_1` is appended after `union.int` and `union.str` |
| ObjectRender.PartKey | huus_macros_support/templates/object.rs:6-19 | a key or `$` keeps its text; a literal index is printed as the decimal of its value; a code part becomes the decimal digits of the index it evaluates to |
| ObjectRender.PartKeys | huus_macros_support/templates/object.rs:5-20 | a key has one piece per attribute part, in order |
| ObjectRender.RenderEntries | huus_macros_support/templates/object.rs:3-53 | one entry is inserted per field, in order, under the field's joined key |
| ObjectRender.RenderField | huus_macros_support/templates/object.rs:4-52 | a field is inserted under its parts joined by `.` |
| ObjectRender.DigitsReadable | huus_macros_support/templates/object.rs:14-15 | a printed index has no dot, no surrounding blanks and is not `$` |
| ObjectRender.PartReadsBack | huus_macros_support/templates/object.rs:6-19 | the text of a written or evaluated part reads back, through the attribute parser, as the same part, with a code part read as its index and an index as the decimal of its value |
| ObjectRender.NameReadsBack | huus_macros_support/templates/object.rs:8-9 | a key written in an attribute, trimmed and free of dots, reads back through the attribute parser as that key |
| ObjectRender.KeyReadsBack | huus_macros_support/templates/object.rs:5-21 | a rendered key splits back into the attribute's parts, with code parts replaced by their indices and indices printed as their values |
| ObjectRender.KeyWithoutCode | huus_macros_support/templates/object.rs:5-21 | without code parts, and with every index written as the decimal of its value, the key is the attribute's own dotted text |
| ObjectRender.QuotedKeyVerbatim | huus_macros_support/templates/object.rs:5-21 | a quoted key whose pieces carry no surrounding blanks, and whose numeric pieces have no sign or leading zero, is inserted exactly as written |
| ObjectRender.LeadingZerosDropped | huus_macros_support/templates/object.rs:10-11 | the literal index of `integers.007` is inserted as `integers.7` |
| ObjectRender.IndexedKeyExample | huus_macros_support/templates/object.rs:12-16 | `integers` followed by a code part evaluating to 3 is inserted as `integers.3` |
| ObjectRender.LiteralsConvert | huus_macros_support/templates/object.rs:22-43 | each literal becomes the BSON value the runtime conversion of its type gives |
| ObjectRender.RenderedGet | huus_macros_support/templates/object.rs:1-55 | the rendered document has unique keys, one per distinct field key, each holding the last value inserted under it |
| ObjectRender.RenderedInOrder | huus_macros_support/templates/object.rs:1-55 | with distinct keys, the document lists the fields' entries in order |
| Schema.FromName | huus_macros_support/src/definition/output.rs:49-61 | a name is read as the built-in type of that name, and every built-in type name is read |
| Schema.FromNameInverse | huus_macros_support/src/definition/output.rs:49-61 | reading a built-in type's name gives that type, and distinct names give distinct types |
| Schema.FirstForbidden | huus_macros_support/src/definition/output.rs:385-393 | the position found is the first character of the database name that is neither alphanumeric nor `_`, and none is found exactly when all are allowed |
| Schema.NewMember | huus_macros_support/src/definition/output.rs:369-402 | a member is refused for a `_huus` Rust name, else with the first forbidden character of the database name, else for indexing a type that does not allow it; it is accepted exactly when none of these holds, with the given fields |
| Schema.ToDbNames | huus_macros_support/src/definition/output.rs:581-587 | an enum's database names are its choices' names, in order |
| Schema.FirstNamed | huus_macros_support/src/definition/output.rs:626-647 | the position is that of the first entity with the name, or the end when there is none |
| Schema.FindEntity | huus_macros_support/src/definition/output.rs:626-647 | the entity found is the first one with the name, and none is found exactly when no entity has it |
| Schema.FirstMainDocument | huus_macros_support/src/definition/output.rs:650-664 | the position is that of the first struct whose collection is the one given, or the end |
| Schema.FindEntityForCollection | huus_macros_support/src/definition/output.rs:650-664 | the struct found is the first one stored for the collection, and none is found exactly when no struct has that collection |
| Text.Split | huus_macros_support/src/formulation/input.rs:66 | splitting gives at least one piece and no piece holds the separator |
| Text.Concat | huus_macros_support/src/definition/generator.rs:304 | concatenating pieces is joining them with the empty separator |
| Text.ConcatLength | huus_macros_support/src/definition/generator.rs:304 | the concatenation is as long as the pieces together |
| Text.ConcatMembership | huus_macros_support/src/definition/generator.rs:304 | a character is in the concatenation exactly when it is in some piece |
| Text.JoinSplit | huus_macros_support/src/formulation/input.rs:64-75 | joining the pieces of a split with the separator gives back the text |
| Text.SplitNoSeparator | huus_macros_support/src/formulation/input.rs:66 | a text without the separator splits into itself alone |
| Text.SplitAfterPiece | huus_macros_support/src/formulation/input.rs:66 | a piece followed by the separator is split off first |
| Text.SplitJoin | huus_macros_support/src/formulation/input.rs:64-75 | splitting joined pieces that hold no separator gives back the pieces |
| Text.TrimStart | huus_macros_support/src/formulation/input.rs:66 | trimming the start removes exactly the leading whitespace |
| Text.TrimEnd | huus_macros_support/src/formulation/input.rs:66 | trimming the end removes exactly the trailing whitespace |
| Text.TrimNoBreakSpace | huus_macros_support/src/formulation/input.rs:66 | trimming removes Unicode spaces as well as ASCII ones: a no-break space before and an ideographic space after a text go |
| Text.TrimProperties | huus_macros_support/src/formulation/input.rs:66 | a trimmed text is trimmed, and trimming a trimmed text changes nothing |
| Text.ParseUsize | huus_macros_support/src/formulation/output.rs:31 | a parsed `usize` fits in 64 bits |
| Text.DecimalString | huus_macros_support/templates/object.rs:14-15 | printing a number gives a non-empty string of digits |
| Text.DecimalStringValue | huus_macros_support/templates/object.rs:14-15 | the printed digits have the printed number as value |
| Text.ParsePrintedUsize | huus_macros_support/src/formulation/output.rs:31 | a printed `usize` parses back as itself |
| Text.ParseSigned | huus_macros_support/src/formulation/validator.rs:651-662 | a parsed integer lies within the type's bounds |
| Text.ParsePrintedSigned | huus_macros_support/src/formulation/validator.rs:651-662 | a printed integer within the bounds, with `-` when negative, parses back as itself |
| Text.ToUpper | huus_macros_support/src/definition/generator.rs:295-301 | an ASCII lower-case letter becomes its upper-case letter and every other character is kept |
| TokenParser.FromLiteral | huus_macros_support/src/parser.rs:27-36 | a literal is a string exactly when it starts and ends with `"`, and its content is the text between the quotes; any other literal is a value keeping its text |
| TokenParser.QuotedLiteral | huus_macros_support/src/parser.rs:27-36 | a quoted text is read as a string with the quoted content |
| TokenParser.FromTokenTree | huus_macros_support/src/parser.rs:17-25 | the end of the stream, groups, identifiers, punctuation and literals are each classified as such |
| TokenParser.NewParser | huus_macros_support/src/parser.rs:54-57 | a new parser has no previous token and the whole stream ahead |
| TokenParser.Advance | huus_macros_support/src/parser.rs:59-67 | a step makes the current token the span and moves past it; at the end the span is cleared |
| TokenParser.ExpectGroup | huus_macros_support/src/parser.rs:113-135 | a group is accepted exactly when the next token is one, and any other token is reported; the token is consumed |
| TokenParser.ExpectIdent | huus_macros_support/src/parser.rs:137-172 | an identifier is accepted exactly when the next token is one with the expected name, if any; the token is consumed |
| TokenParser.ExpectPunctuation | huus_macros_support/src/parser.rs:174-209 | a punctuation is accepted exactly when the next token is the expected one, if any; the token is consumed |
| TokenParser.ExpectString | huus_macros_support/src/parser.rs:211-241 | a string is accepted exactly when the next token is a quoted literal, and its value is the quoted content |
| TokenParser.ExpectEof | huus_macros_support/src/parser.rs:243-266 | the end is accepted exactly when no token is left, and a leftover token is reported |
| TokenParser.Expect | huus_macros_support/src/parser.rs:268-273 | the next token is classified and consumed; the end is reported exactly at the end |
| TokenParser.ExpectAgrees | huus_macros_support/src/parser.rs:113-273 | classifying a token agrees with each `expect_*` on whether it is accepted and on its value |
| ParseSteps.IdentStep | huus_macros_support/src/parser.rs:137-172 | an identifier step panics exactly at the end of the stream and succeeds exactly when the identifier is accepted, moving past it |
| ParseSteps.PunctStep | huus_macros_support/src/parser.rs:174-209 | a punctuation step panics exactly at the end of the stream and succeeds exactly when the punctuation is accepted, moving past it |
| ParseSteps.StringStep | huus_macros_support/src/parser.rs:211-241 | a string step panics exactly at the end of the stream and succeeds exactly on a quoted literal, moving past it |
| ParseSteps.GroupStep | huus_macros_support/src/parser.rs:113-135 | a group step panics exactly at the end of the stream and succeeds exactly on a group, moving past it |
| Updates.OperatorName | huus/src/updates.rs:920-938 | every update operator is written as `$` followed by its name |
| Updates.OperatorNameInjective | huus/src/updates.rs:920-938 | two operators never share a name |
| Updates.Rank | huus/src/updates.rs:1073-1087 | each operator has its place in the order the document is built |
| Updates.RankedDistinct | huus/src/updates.rs:1073-1087 | operators of consecutive ranks are distinct |
| Updates.OrderRanks | huus/src/updates.rs:1073-1087 | each place of the build order holds the operator of that rank |
| Updates.OperatorOrderComplete | huus/src/updates.rs:1073-1087 | the build order lists all fourteen operators, each once |
| Updates.EmptyUpdate | huus/src/updates.rs:977-995 | the empty update has no plain field and no instruction |
| Updates.WithField | huus/src/updates.rs:997-1001 | an update with a field sets exactly that field to the value, with no instruction |
| Updates.WithOperator | huus/src/updates.rs:1003-1023 | an update with an operator holds that one instruction for it and nothing else |
| Updates.Incorporate | huus/src/updates.rs:1025-1050 | merging two updates appends the instructions of the second after those of the first, and has the fields of both |
| Updates.IncorporateEmpty | huus/src/updates.rs:1025-1050 | merging the empty update changes nothing |
| Updates.PathWithDotsJoin | huus/src/updates.rs:1061-1066 | a path is written as its fields each followed by `.` |
| Updates.PathStringJoin | huus/src/updates.rs:1061-1067 | with the last dot removed, a path is its fields joined by `.` |
| Updates.InstructionEntries | huus/src/updates.rs:1059-1068 | each instruction becomes an entry of its dotted path and its value |
| Updates.OperatorDoc | huus/src/updates.rs:1058-1069 | an operator's document has unique keys |
| Updates.OperatorDocGet | huus/src/updates.rs:1058-1069 | inserting the instructions in reverse leaves, under a path, the value of its first instruction |
| Updates.AddOperator | huus/src/updates.rs:1053-1071 | an operator with instructions gets its document under its name and nothing else changes; one without instructions adds nothing |
| Updates.AddOperatorsKeys | huus/src/updates.rs:1052-1089 | the operators with instructions are added after the plain fields, in build order |
| Updates.UpdateIntoDocKeys | huus/src/updates.rs:1052-1089 | the update document lists the plain fields, then the operators with instructions in build order |
| Updates.AddOperatorsGet | huus/src/updates.rs:1052-1089 | under an operator's name is its instructions' document when it has any, and the plain field otherwise |
| Updates.AddOperatorsPlain | huus/src/updates.rs:1052-1089 | plain fields that are not operator names are kept |
| Updates.UpdateIntoDocGet | huus/src/updates.rs:1052-1089 | the update document holds each operator's instructions under its name and keeps the other fields |
| Updates.EmptyUpdateIntoDoc | huus/src/updates.rs:977-995 | the empty update renders as the empty document |
| Updates.NoActiveOperators | huus/src/updates.rs:977-995 | the empty update has no operator to render |
| Updates.UpdateIntoBson | huus/src/updates.rs:1092-1096 | an update converts to the BSON document it renders |
| Updates.NoInstructionsAddNothing | huus/src/updates.rs:1057-1070 | without instructions no operator is added |
| Updates.NoInstructionsIntoDoc | huus/src/updates.rs:1052-1089 | an update without instructions renders as its plain fields |
| Updates.SingleFieldPath | huus/src/updates.rs:1061-1066 | a one-field path is written as the field |
| Updates.SingleOperatorDoc | huus/src/updates.rs:1058-1069 | a single instruction renders as the one entry of its field and value |
| Updates.SingleInstructionIntoDoc | huus/src/updates.rs:1052-1089 | an update of a single instruction renders as its operator holding the one entry |
| Updates.SingleInstructionKeys | huus/src/updates.rs:1052-1089 | an update of a single instruction has only its operator as key |
| Updates.SingleInstructionKeysAmong | huus/src/updates.rs:1052-1089 | adding the operators to an update of a single instruction adds only its operator |
| Updates.SingleActiveOperator | huus/src/updates.rs:1052-1089 | only the operator holding instructions is rendered |
| UpdateEntries.PopNumber | huus/src/updates.rs:30-37 | popping the first element is -1 and popping the last is 1 |
| UpdateEntries.PositionalSuffix | huus/src/updates.rs:47-54 | only the first-position operator appends a suffix |
| UpdateEntries.BuildNumerical | huus/src/updates.rs:94-109 | each numerical operation becomes the single instruction of its operator |
| UpdateEntries.BuildField | huus/src/updates.rs:139-152 | renaming gives the new name under `$rename`, unsetting `true` under `$unset`, and setting the value under `$set` or `$setOnInsert` |
| UpdateEntries.BuildElement | huus/src/updates.rs:176-182 | setting an element is a `$set` of the value |
| UpdateEntries.BuildArrayOp | huus/src/updates.rs:214-232 | each array operation becomes the single instruction of its operator, a pop carrying its direction number |
| UpdateEntries.BuildNumberEntry | huus/src/updates.rs:816-823 | a number entry sets the field, runs its numerical or field operation, or adds nothing |
| UpdateEntries.BuildPlainEntry | huus/src/updates.rs:284-290 | a plain entry sets the field, runs its field operation, or adds nothing |
| UpdateEntries.BuildDatedEntry | huus/src/updates.rs:849-859 | a dated entry sets the field, asks for the current date of its type, runs its field operation, or adds nothing |
| UpdateEntries.BuildDateEntry | huus/src/updates.rs:762-772 | a date entry asks for the current date as `date`, or sets the date value |
| UpdateEntries.BuildObjectEntry | huus/src/updates.rs:423-430 | an object entry sets the whole value, delegates a dotted update to the inner fields, runs its field operation, or adds nothing |
| UpdateEntries.BuildArrayEntry | huus/src/updates.rs:612-623 | an array entry runs its operation at the positional field, its numerical operation, sets an element, or adds nothing |
| UpdateEntries.PlainFieldUpdate | huus/src/updates.rs:327-341 | a field operation replaces whatever the entry held |
| UpdateEntries.DatedFieldUpdate | huus/src/updates.rs:744-758 | a field operation replaces whatever the dated entry held |
| UpdateEntries.NumberNumericalUpdate | huus/src/updates.rs:798-812 | a numerical operation replaces whatever the number entry held |
| UpdateEntries.ObjectSetValue | huus/src/updates.rs:387-389 | setting a value replaces whatever the object entry held |
| UpdateEntries.ObjectSetDot | huus/src/updates.rs:391-393 | a dotted update replaces whatever the object entry held |
| UpdateEntries.ObjectFieldUpdate | huus/src/updates.rs:401-415 | a field operation replaces whatever the object entry held |
| UpdateEntries.ArraySetOperation | huus/src/updates.rs:578-596 | an array operation at a position replaces whatever the array entry held |
| UpdateEntries.ArraySetElement | huus/src/updates.rs:603-605 | setting an element at a position replaces whatever the array entry held |
| UpdateEntries.FieldOpIntoDoc | huus/src/updates.rs:139-152 | an unset renders as `$unset` holding the field with `true`, and a rename as `$rename` holding the field with the new name |
| UpdateEntries.UnsetIntoDoc | huus/src/updates.rs:139-152 | an unset renders as `$unset` holding the field with `true` |
| UpdateEntries.RenameIntoDoc | huus/src/updates.rs:139-152 | a rename renders as `$rename` holding the field with the new name |
| UpdateEntries.PopEntryIntoDoc | huus/src/updates.rs:214-232 | a pop renders as `$pop` holding the positional field with its direction number |
| UpdateEntries.PlainValueIntoDoc | huus/src/updates.rs:997-1001 | an entry that sets a value renders as the one field holding it |
| UpdateEntries.EmptyEntryIntoDoc | huus/src/updates.rs:977-995 | an empty entry renders as the empty document |

## Left out

- **Literal parsing:**
  - The text of an `f64`, an ObjectId hex string and an RFC 3339 date is parsed by functions passed in as parameters (`FormulationValidator.LiteralParsers`).
  - A parsed `f64` is carried as its bit pattern and never computed with.
  - Printing such a value in generated code is taken to read back as the same value.
- **Generated-code parameters:**
  - A member's BSON codec (`StructFormulation.Codec`) is a parameter.
  - So are the conversions of a union's variants (`UnionFormulation.Inner`).
  - So are the per-member filter and update builders (`LegacyTemplates`).
  - So is the result of the Rust code spliced into an object (`ObjectRender.Runtime`).
  - The model states properties for any choice of these.
- **Panics:** a Rust panic is modelled as the outcome `Panicked` (or an `Option`/`Result` failure). This covers a token stream ending inside a macro and an `expect` on an incomplete template. The panic message and unwinding are not modelled.
  - In the formulation validator a panic is the problem `FormulationValidator.Panicked`, which then stands alone as the verdict. It arises when a struct member's type or a union choice names no entity, and when a union choice names an entity that is not a struct. The definition validator checks struct members but never union choices (huus_macros_support/src/definition/validator.rs:359-370), so only a union choice can make a lookup panic on a schema it built.
- **Integer widths:**
  - `usize` is taken to be 64 bits wide (`Text.UsizeMax`).
  - `usize as i32` and `usize as i64` wrap-around is written out.
- **Commands:** database I/O is not modelled.
  - The commands' decisions use a set of existing collection names.
  - A freshly generated ObjectId is a parameter.
- **Reported errors:** an error a parser emits without stopping, such as the `as` it expects after a choice name, makes the macro fail to compile. The model carries it as a flag (`DefinitionInterpreter.Read`) and refuses the definition at the end.
- **Diagnostics:** the text and spans of diagnostics are not modelled, beyond the message table in `FormulationValidator.Message` and whether a span moves. The model records which problems are reported, in order.
- **Token streams:** the compiler's printing of a token stream (`group.stream().to_string()`) is carried as given text in `Tokens.TokenTree`.
- **Map iteration order:** the iteration order of a Rust `HashMap` or `BTreeMap` is a parameter (`Conversions.IsIterationOrder`). Map properties are stated over the map's contents.
- **`Part::is_update_key`:** the current source calls it but does not define it. It is taken to be `is_operator`, a key starting with `$` (`FormulationInput.IsUpdateKey`).
- **`find_entity_for_collection`:**
  - The formulation validator (huus_macros_support/src/formulation/validator.rs:283-297) matches its result against `Entity::Struct`.
  - The schema's version (huus_macros_support/src/definition/output.rs:650-664) returns a `Struct`, so these lines do not type-check together.
  - The model follows the schema's version. `FormulationConversion.FindStructForCollection` therefore never reports `MainDocAsStruct`, which is unreachable in the model.
- Schema.NewMember: `char::is_alphanumeric` is modelled on ASCII letters and digits only (`Text.IsAlphanumeric`), so a database name holding a non-ASCII letter such as `é` is refused with `DbName` where the source accepts it.
- LegacyDefinition.NewMember: the same ASCII-only alphanumerics, so a database name such as `é` is refused where the older source accepts it.
- ObjectRender.PartKey: a literal index is spliced into the generated code as a Rust integer literal. Written with a leading `+`, or with a value above the largest `i32` (the type such a literal defaults to, its overflow denied by the `overflowing_literals` lint), it makes the generated code fail to compile; the model prints it as the decimal of its value instead. Compile failures of generated code are not modelled.
- ObjectRender.RenderValue: a quoted string literal is stored with its text between the quotes as written. The generated code splices that text into a Rust string literal, which the compiler unescapes, so `"a\"b"` is stored as `a"b` by the source and as `a\"b` by the model. Escape sequences are not modelled.
- ObjectRender.RenderValue: an `f64` literal becomes `FloatingPoint`, the variant the runtime builds (huus/src/conversions.rs:180). The template writes `bson::Bson::Double` (huus_macros_support/templates/object.rs:24), a variant missing from the bson version whose `FloatingPoint` and `UtcDatetime` the rest of the source uses, so code generated for a float literal would not compile. Compile failures of generated code are not modelled.
- **Type names:** `Text.ToUpper` maps only ASCII letters; `TypeNames.Capitalize` fails on a piece starting with a non-ASCII character, as the source's byte slice panics there. Upper-casing a non-ASCII first character therefore never arises.
- **Build and I/O:** the build scripts, file output of the generators, the procedural-macro entry points, and printing generated code as Rust text are not modelled. Types and names of the generated code are modelled through `TypeNames`.

## Findings

| source | as written | input that shows it | evidently intended | confidence | as-written member | corrected member |
|---|---|---|---|---|---|---|
| huus_macros_support/src/formulation/validator.rs:187-189 | the messages of `FieldNotFound`, `FieldOnEnum` and `FieldOnPlain` are rotated: each problem carries the next one's text | a field on an enum member is reported as "No more fields can be specified for a plain field" | each problem names its own case: an enum for `FieldOnEnum`, a plain field for `FieldOnPlain`, a mismatch for `FieldNotFound` | not executed | FormulationValidator.MessagesRotated | FormulationValidator.IntendedMessagesName |
