/** What the query-formulation parser produces
    (`huus_macros_support/src/formulation/input.rs`): attributes as queues of
    parts, and value and object templates not yet checked against the schema.
    Source spans are left out. */
module FormulationInput {
  import opened Wrappers
  import opened Text
  import opened FormulationOutput

  /** `SpannedAttribute`: the parts of an attribute, front first. */
  datatype AttributeTemplate = AttributeTemplate(parts: seq<Part>)

  /** `SpannedAttribute::new`: no parts. */
  const EmptyAttribute: AttributeTemplate := AttributeTemplate([])

  /** The parts `from_str` makes of the pieces of a split. */
  function PartsOf(pieces: seq<string>): (r: seq<Part>)
    ensures |r| == |pieces|
    ensures forall i :: 0 <= i < |pieces| ==> r[i] == PartFromStr(Trim(pieces[i]))
    decreases |pieces|
  {
    if |pieces| == 0 then [] else [PartFromStr(Trim(pieces[0]))] + PartsOf(pieces[1..])
  }

  /** `SpannedAttribute::from_str`: the string split on '.', each piece trimmed
      and classified. There is always at least one part. */
  function AttributeFromStr(s: string): (a: AttributeTemplate)
    ensures |a.parts| == |Split(s, '.')| >= 1
    ensures forall i :: 0 <= i < |a.parts| ==> a.parts[i] == PartFromStr(Trim(Split(s, '.')[i]))
  {
    AttributeTemplate(PartsOf(Split(s, '.')))
  }

  /** `into_attribute`: the same parts in the same order. */
  function IntoAttribute(a: AttributeTemplate): (r: Attribute)
    ensures r.parts == a.parts
  {
    Attribute(a.parts)
  }

  function PartStrings(parts: seq<Part>): (r: seq<string>)
    ensures |r| == |parts|
    ensures forall i :: 0 <= i < |parts| ==> r[i] == PartToStr(parts[i])
    decreases |parts|
  {
    if |parts| == 0 then [] else [PartToStr(parts[0])] + PartStrings(parts[1..])
  }

  /** `to_composed`: the parts printed and joined with '.'. */
  function ToComposed(a: AttributeTemplate): string {
    Join(PartStrings(a.parts), ".")
  }

  /** Composing an attribute read from a string gives the string back when no
      piece between dots has whitespace at either end. */
  lemma ComposedFromStr(s: string)
    requires forall i :: 0 <= i < |Split(s, '.')| ==> IsTrimmed(Split(s, '.')[i])
    ensures ToComposed(AttributeFromStr(s)) == s
  {
    var pieces := Split(s, '.');
    var strings := PartStrings(AttributeFromStr(s).parts);
    forall i | 0 <= i < |pieces|
      ensures strings[i] == pieces[i]
    {
      TrimProperties(pieces[i]);
      PartRoundTrip(pieces[i]);
    }
    assert strings == pieces;
    JoinSplit(s, '.');
  }

  /** `len`. */
  function Len(a: AttributeTemplate): nat {
    |a.parts|
  }

  /** `push`: the part goes to the back, the others stay as they were. */
  function Push(a: AttributeTemplate, p: Part): (r: AttributeTemplate)
    ensures Len(r) == Len(a) + 1
    ensures r.parts[..Len(a)] == a.parts && r.parts[Len(a)] == p
  {
    AttributeTemplate(a.parts + [p])
  }

  /** `pop`: the front part, removed; nothing when there are no parts. */
  function Pop(a: AttributeTemplate): (r: (Option<Part>, AttributeTemplate))
    ensures r.0.None? <==> Len(a) == 0
    ensures r.0.Some? ==> r.0.value == a.parts[0] && Len(r.1) == Len(a) - 1 && r.1.parts == a.parts[1..]
    ensures r.0.None? ==> r.1 == a
  {
    if |a.parts| == 0 then (None, a) else (Some(a.parts[0]), AttributeTemplate(a.parts[1..]))
  }

  /** `next`: the front part, if any, without removing it. */
  function Next(a: AttributeTemplate): (r: Option<Part>)
    ensures r.None? <==> Len(a) == 0
    ensures r.Some? ==> r.value == a.parts[0]
  {
    if |a.parts| == 0 then None else Some(a.parts[0])
  }

  /** The parts form a queue: pushing then popping takes the old front, or the
      pushed part when there was none, and `next` names what `pop` takes. */
  lemma QueueOrder(a: AttributeTemplate, p: Part)
    ensures Pop(a).0 == Next(a)
    ensures Len(a) == 0 ==> Pop(Push(a, p)) == (Some(p), a)
    ensures Len(a) > 0 ==> Pop(Push(a, p)) == (Next(a), Push(Pop(a).1, p))
  {
    if Len(a) > 0 {
      assert (a.parts + [p])[1..] == a.parts[1..] + [p];
    }
  }

  /** `Part::is_update_key`, which the source calls but does not define; taken
      to be `is_operator`, a key starting with "$". */
  predicate IsUpdateKey(p: Part) {
    IsOperator(p)
  }

  /** `is_updating`: a single part that is an update key. */
  predicate IsUpdating(a: AttributeTemplate) {
    Next(a).Some? && IsUpdateKey(Next(a).value) && Len(a) == 1
  }

  /** An attribute read from a string is updating exactly when the string has
      no dot and, once trimmed, starts with "$" and is more than "$". */
  lemma UpdatingFromStr(s: string)
    ensures IsUpdating(AttributeFromStr(s)) <==>
              '.' !in s && Trim(s) != "$" && StartsWith(Trim(s), "$")
  {
    var pieces := Split(s, '.');
    if '.' !in s {
      SplitNoSeparator(s, '.');
      OperatorFromStr(Trim(s));
    } else {
      JoinSplit(s, '.');
    }
  }

  /** `ValueTemplate`: a value as written. */
  datatype ValueTemplate =
    | Quoted(text: string)
    | Unquoted(text: string)
    | NestedObject(template: ObjectTemplate)
    | CodeText(code: string)

  /** `FieldTemplate`: `attribute: value`. */
  datatype FieldTemplate = FieldTemplate(attr: AttributeTemplate, value: ValueTemplate)

  /** `ObjectTemplate`: the fields in the order written. */
  datatype ObjectTemplate = ObjectTemplate(fields: seq<FieldTemplate>)

  /** `ValueTemplate::is_empty_string`: only the quoted empty string. */
  predicate IsEmptyString(v: ValueTemplate) {
    v.Quoted? && |v.text| == 0
  }

  /** Every attribute, at every depth, has at least one part; the parser only
      builds such templates, and `find_member` relies on it. */
  predicate FieldsHaveParts(fs: seq<FieldTemplate>)
    decreases fs
  {
    forall i :: 0 <= i < |fs| ==> FieldHasParts(fs[i])
  }

  predicate FieldHasParts(f: FieldTemplate)
    decreases f
  {
    Len(f.attr) > 0 && ValueHasParts(f.value)
  }

  predicate ValueHasParts(v: ValueTemplate)
    decreases v
  {
    v.NestedObject? ==> FieldsHaveParts(v.template.fields)
  }

  /** Each field of a template whose attributes all have parts has parts
      itself, and so does its value. */
  lemma PartsAt(fs: seq<FieldTemplate>)
    requires FieldsHaveParts(fs)
    ensures forall i :: 0 <= i < |fs| ==> Len(fs[i].attr) > 0 && ValueHasParts(fs[i].value)
  {
    forall i | 0 <= i < |fs|
      ensures Len(fs[i].attr) > 0 && ValueHasParts(fs[i].value)
    {
      assert FieldHasParts(fs[i]);
    }
  }
}
