/** What the query-formulation validator hands to code generation
    (`huus_macros_support/src/formulation/output.rs`): attributes made of
    parts, values checked against the schema, and objects of fields. */
module FormulationOutput {
  import opened Wrappers
  import opened Text
  import opened Schema
  import Bson
  import TypeNames

  /** `Part`: one dot-separated piece of an attribute. */
  datatype Part =
    | Key(name: string)
    | Index(digits: string)
    | Code(code: string)
    | Dollar

  /** `Part::from_str`: a lone "$" is the positional operator, a string that
      parses as a `usize` is an index, and anything else is a key. The text is
      kept as written. */
  function PartFromStr(s: string): (p: Part)
    ensures p.Dollar? <==> s == "$"
    ensures p.Index? <==> s != "$" && ParseUsize(s).Some?
    ensures p.Key? <==> s != "$" && ParseUsize(s).None?
    ensures p.Index? ==> p.digits == s
    ensures p.Key? ==> p.name == s
  {
    if s == "$" then Dollar
    else if ParseUsize(s).Some? then Index(s)
    else Key(s)
  }

  /** `Part::to_str`. */
  function PartToStr(p: Part): string {
    match p
    case Key(name) => name
    case Index(digits) => digits
    case Code(code) => code
    case Dollar => "$"
  }

  /** Classifying a string as a part and printing the part gives the string back. */
  lemma PartRoundTrip(s: string)
    ensures PartToStr(PartFromStr(s)) == s
  {
  }

  /** `Part::is_key`. */
  predicate IsKey(p: Part) {
    p.Key?
  }

  /** `Part::is_operator`: a key that starts with "$". */
  predicate IsOperator(p: Part) {
    p.Key? && StartsWith(p.name, "$")
  }

  /** A string classifies as an operator exactly when it starts with "$" and is
      not the lone positional "$": such a string is never a number. */
  lemma OperatorFromStr(s: string)
    ensures IsOperator(PartFromStr(s)) <==> s != "$" && StartsWith(s, "$")
    ensures IsOperator(PartFromStr(s)) ==> IsKey(PartFromStr(s))
  {
    if s != "$" && StartsWith(s, "$") {
      assert s[0] == '$' && !IsDigit(s[0]);
    }
  }

  /** `Attribute`: the parts of an attribute in order. */
  datatype Attribute = Attribute(parts: seq<Part>)

  /** `CodeType` (the `Cast` of the validator): the type a code value is cast
      to, a variant inside a container. */
  datatype CodeType = CodeType(variant: Variant, container: Container)

  /** `CodeType::to_data`: the Rust type named by a code type. */
  function CodeTypeToData(c: CodeType): string {
    var variant := TypeNames.VariantData(c.variant);
    match c.container
    case Array => "Vec<" + variant + ">"
    case HashMap(k) => "std::collections::HashMap<" + TypeNames.VariantData(k) + ", " + variant + ">"
    case BTreeMap(k) => "std::collections::BTreeMap<" + TypeNames.VariantData(k) + ", " + variant + ">"
    case Plain => variant
  }

  /** A code value cast to a member's own variant and container gets the data
      type the schema generator declares for that member. */
  lemma CodeTypeIsMemberData(m: Member)
    ensures CodeTypeToData(CodeType(m.variant, m.container)) == TypeNames.MemberData(m)
  {
  }

  /** A code type with a plain container names just the variant's data type;
      the other containers wrap it, so the name is strictly longer. */
  lemma CodeTypeWraps(c: CodeType)
    ensures c.container.IsPlain() <==> CodeTypeToData(c) == TypeNames.VariantData(c.variant)
    ensures !c.container.IsPlain() ==> |CodeTypeToData(c)| > |TypeNames.VariantData(c.variant)|
  {
  }

  /** `Value`: a checked literal, a nested object, or code cast to its type. */
  datatype Value =
    | F64Value(f: Bson.Float)
    | StringValue(s: string)
    | ObjectIdValue(oid: Bson.Oid)
    | BoolValue(b: bool)
    | DateValue(date: Bson.Date)
    | I32Value(i: Bson.Int32)
    | I64Value(l: Bson.Int64)
    | ObjectValue(obj: FormObject)
    | CodeValue(code: string, cast: CodeType)

  /** `Field`: an attribute with its value. */
  datatype FormField = FormField(attr: Attribute, value: Value)

  /** `Object`: fields in the order they were accepted. */
  datatype FormObject = FormObject(fields: seq<FormField>)

  /** `Object::new`. */
  const EmptyObject: FormObject := FormObject([])

  /** `Value::new_builtin_code`: the code kept verbatim, cast to the built-in in
      the given container. */
  function NewBuiltinCode(b: BuiltInType, container: Container, code: string): (v: Value)
    ensures v.CodeValue? && v.code == code
    ensures v.cast.variant == Field(b) && v.cast.container == container
  {
    CodeValue(code, CodeType(Field(b), container))
  }
}
