/** The templates the schema parser produces before validation
    (`huus_macros_support/src/definition/input.rs`). Source spans are left out;
    names that the parser fills in one by one stay optional, as in the source. */
module DefinitionInput {
  import opened Wrappers
  import opened Schema

  /** `ContainerTemplate`: a map carries the key type's name as written. */
  datatype ContainerTemplate = ArrayTemplate | BTreeMapTemplate(key: string) | HashMapTemplate(key: string) | PlainTemplate

  /** `MemberTemplate`: one member as parsed. */
  datatype MemberTemplate = MemberTemplate(
    rustName: Option<string>,
    dbName: Option<string>,
    variant: Option<string>,
    isOptional: bool,
    isIndexed: bool,
    container: ContainerTemplate)

  /** A member template whose three names have all been filled in. */
  predicate Complete(m: MemberTemplate) {
    m.rustName.Some? && m.dbName.Some? && m.variant.Some?
  }

  /** All names of every member template are filled in. */
  predicate AllComplete(ms: seq<MemberTemplate>) {
    forall k :: 0 <= k < |ms| ==> Complete(ms[k])
  }

  /** `MemberTemplate::new`: nothing named yet, neither optional nor indexed,
      not in a container. */
  function NewMemberTemplate(): (m: MemberTemplate)
    ensures m.rustName.None? && m.dbName.None? && m.variant.None?
    ensures !m.isOptional && !m.isIndexed && m.container == PlainTemplate
  {
    MemberTemplate(None, None, None, false, false, PlainTemplate)
  }

  datatype StructTemplate = StructTemplate(
    structName: string,
    collectionName: Option<string>,
    members: seq<MemberTemplate>)

  datatype EnumTemplate = EnumTemplate(name: string, choices: seq<EnumChoice>)

  datatype UnionTemplate = UnionTemplate(name: string, choices: seq<UnionChoice>)

  /** `EntityTemplate`: one parsed definition. */
  datatype EntityTemplate = StructDef(structDef: StructTemplate) | EnumDef(enumDef: EnumTemplate) | UnionDef(unionDef: UnionTemplate)

  /** Every struct template has complete members, as the parser
      guarantees; converting a struct panics otherwise. */
  predicate TemplatesComplete(es: seq<EntityTemplate>) {
    forall i :: 0 <= i < |es| && es[i].StructDef? ==> AllComplete(es[i].structDef.members)
  }

  /** The name an entity template is looked up by. */
  function TemplateName(e: EntityTemplate): string {
    match e
    case StructDef(s) => s.structName
    case EnumDef(en) => en.name
    case UnionDef(u) => u.name
  }

  /** `Choices`: the untyped and the typed alternatives met while parsing an
      `enum` block, each list in the order met. */
  datatype Choices = Choices(enumChoices: seq<EnumChoice>, unionChoices: seq<UnionChoice>)

  /** `From<EnumTemplate> for Enum` and `From<UnionTemplate> for Union`: the
      name becomes a defined type, the choices are kept. */
  function EnumFromTemplate(t: EnumTemplate): (e: Enum)
    ensures e.name.name == t.name && e.choices == t.choices
  {
    Enum(DefinedType(t.name), t.choices)
  }

  function UnionFromTemplate(t: UnionTemplate): (u: Union)
    ensures u.name.name == t.name && u.choices == t.choices
  {
    Union(DefinedType(t.name), t.choices)
  }
}
