/** The document the generated code builds from a validated object
    (`huus_macros_support/templates/object.rs`): each field is inserted in
    order under its parts joined by '.', with its value turned into BSON.

    The template splices Rust expressions into the generated code; what they
    evaluate to at run time is a parameter: the `usize` of an index expression
    and the BSON of a code value cast to its type. Printed literals (a float,
    an ObjectId's hex, a date's RFC 3339 text) are taken to read back as the
    value they were printed from. */
module ObjectRender {
  import opened Wrappers
  import opened Text
  import opened Bson
  import opened FormulationOutput
  import opened FormulationInput
  import Conversions

  /** What the spliced expressions evaluate to. */
  datatype Runtime = Runtime(index: string -> nat, code: (string, CodeType) -> Bson)

  /** The text a part contributes to a key. An index literal is spliced into
      the code as a number and printed back with `to_string`, so it becomes the
      decimal of its value ("007" gives "7"); a code part is replaced by the
      decimal of the index it evaluates to. */
  function PartKey(rt: Runtime, p: Part): (r: string)
    ensures p.Key? || p.Dollar? ==> r == PartToStr(p)
    ensures p.Code? ==> AllDigits(r) && |r| >= 1 && DigitsValue(r) == rt.index(p.code)
    ensures p.Index? && ParseUsize(p.digits).Some? ==>
              AllDigits(r) && |r| >= 1 && DigitsValue(r) == ParseUsize(p.digits).value
  {
    match p
    case Key(name) => name
    case Index(digits) =>
      (match ParseUsize(digits)
       case Some(n) => DecimalStringValue(n); DecimalString(n)
       case None => digits)
    case Code(code) => DecimalStringValue(rt.index(code)); DecimalString(rt.index(code))
    case Dollar => "$"
  }

  function PartKeys(rt: Runtime, parts: seq<Part>): (r: seq<string>)
    ensures |r| == |parts|
    ensures forall i :: 0 <= i < |parts| ==> r[i] == PartKey(rt, parts[i])
    decreases |parts|
  {
    if |parts| == 0 then [] else [PartKey(rt, parts[0])] + PartKeys(rt, parts[1..])
  }

  /** The key a field is inserted under. */
  function FieldKey(rt: Runtime, a: Attribute): string {
    Join(PartKeys(rt, a.parts), ".")
  }

  /** A literal becomes the BSON value of the same type, a nested object a
      sub-document, and code whatever it evaluates to. */
  function RenderValue(rt: Runtime, v: Value): Bson
    decreases v
  {
    match v
    case F64Value(f) => FloatingPoint(f)
    case StringValue(s) => String(s)
    case ObjectIdValue(oid) => ObjectId(oid)
    case BoolValue(b) => Boolean(b)
    case DateValue(date) => UtcDatetime(date)
    case I32Value(i) => I32(i)
    case I64Value(l) => I64(l)
    case ObjectValue(obj) => Document(RenderObject(rt, obj))
    case CodeValue(code, cast) => rt.code(code, cast)
  }

  /** The entries inserted, one per field, in order. */
  function RenderEntries(rt: Runtime, fs: seq<FormField>): (r: seq<Entry>)
    ensures |r| == |fs|
    ensures forall i :: 0 <= i < |fs| ==> r[i].key == FieldKey(rt, fs[i].attr)
    decreases fs
  {
    if |fs| == 0 then [] else [RenderField(rt, fs[0])] + RenderEntries(rt, fs[1..])
  }

  function RenderField(rt: Runtime, f: FormField): (e: Entry)
    ensures e.key == FieldKey(rt, f.attr)
    decreases f
  {
    Entry(FieldKey(rt, f.attr), RenderValue(rt, f.value))
  }

  /** The object's document: its entries inserted into an empty one. */
  function RenderObject(rt: Runtime, o: FormObject): Doc
    decreases o
  {
    FromEntries(RenderEntries(rt, o.fields))
  }

  // ----------------------------------------------------------------------------------------------
  // Keys

  /** A part written in an attribute, as opposed to one computed: it reads
      back as itself. */
  predicate Readable(p: Part) {
    match p
    case Key(name) => '.' !in name && IsTrimmed(name) && name != "$" && ParseUsize(name).None?
    case Index(digits) => '.' !in digits && IsTrimmed(digits) && ParseUsize(digits).Some?
    case Code(_) => true
    case Dollar => true
  }

  /** A part once the generated code has run: a code part becomes the index
      it evaluates to, and an index is printed without leading zeros or sign. */
  function Evaluated(rt: Runtime, p: Part): Part {
    if p.Code? then Index(DecimalString(rt.index(p.code)))
    else if p.Index? && ParseUsize(p.digits).Some? then Index(DecimalString(ParseUsize(p.digits).value))
    else p
  }

  /** An index written as the decimal of its value, as `to_string` prints it. */
  predicate CanonicalIndex(p: Part) {
    p.Index? ==> ParseUsize(p.digits).Some? && DecimalString(ParseUsize(p.digits).value) == p.digits
  }

  lemma DigitsReadable(s: string)
    requires AllDigits(s)
    ensures '.' !in s && IsTrimmed(s) && s != "$"
  {
    assert forall i :: 0 <= i < |s| ==> s[i] != '.' && !IsWhitespace(s[i]);
  }

  lemma PartReadsBack(rt: Runtime, p: Part)
    requires Readable(p)
    requires p.Code? ==> rt.index(p.code) <= UsizeMax
    ensures '.' !in PartKey(rt, p)
    ensures PartFromStr(Trim(PartKey(rt, p))) == Evaluated(rt, p)
  {
    match p
    case Key(name) =>
      NameReadsBack(name);
      assert PartKey(rt, p) == name && Evaluated(rt, p) == p;
    case Index(digits) =>
      var n := ParseUsize(digits).value;
      CodeReadsBack(n);
      assert PartKey(rt, p) == DecimalString(n) && Evaluated(rt, p) == Index(DecimalString(n));
    case Code(code) =>
      CodeReadsBack(rt.index(code));
      assert PartKey(rt, p) == DecimalString(rt.index(code));
    case Dollar =>
      assert Trim("$") == "$";
  }

  /** A key written in an attribute reads back as itself. */
  lemma NameReadsBack(name: string)
    requires Readable(Key(name))
    ensures '.' !in name && PartFromStr(Trim(name)) == Key(name)
  {
    TrimProperties(name);
  }

  /** A printed index reads back as that index. */
  lemma CodeReadsBack(n: nat)
    requires n <= UsizeMax
    ensures '.' !in DecimalString(n)
    ensures PartFromStr(Trim(DecimalString(n))) == Index(DecimalString(n))
  {
    var k := DecimalString(n);
    DecimalStringValue(n);
    DigitsReadable(k);
    TrimProperties(k);
    ParsePrintedUsize(n);
  }

  /** Reading a rendered key as an attribute gives back the attribute's parts,
      each code part replaced by the index it evaluated to and each index
      printed as its value. */
  lemma KeyReadsBack(rt: Runtime, a: Attribute)
    requires |a.parts| >= 1
    requires forall i :: 0 <= i < |a.parts| ==> Readable(a.parts[i])
    requires forall i :: 0 <= i < |a.parts| ==> a.parts[i].Code? ==> rt.index(a.parts[i].code) <= UsizeMax
    ensures |AttributeFromStr(FieldKey(rt, a)).parts| == |a.parts|
    ensures forall i :: 0 <= i < |a.parts| ==> AttributeFromStr(FieldKey(rt, a)).parts[i] == Evaluated(rt, a.parts[i])
  {
    var keys := PartKeys(rt, a.parts);
    forall i | 0 <= i < |keys|
      ensures '.' !in keys[i] && PartFromStr(Trim(keys[i])) == Evaluated(rt, a.parts[i])
    {
      PartReadsBack(rt, a.parts[i]);
    }
    SplitJoin(keys, '.');
  }

  /** A key written without code, whose indices are written as their values,
      is rendered as the attribute was composed. */
  lemma KeyWithoutCode(rt: Runtime, a: AttributeTemplate)
    requires forall i :: 0 <= i < |a.parts| ==> !a.parts[i].Code? && CanonicalIndex(a.parts[i])
    ensures FieldKey(rt, IntoAttribute(a)) == ToComposed(a)
  {
    assert PartKeys(rt, a.parts) == PartStrings(a.parts);
  }

  /** A quoted attribute whose pieces have no surrounding whitespace, and
      whose numeric pieces have no sign or leading zero, is rendered as the
      very string written, e.g. "integers.$" or "integers.10". */
  lemma QuotedKeyVerbatim(rt: Runtime, s: string)
    requires forall i :: 0 <= i < |Split(s, '.')| ==> IsTrimmed(Split(s, '.')[i])
    requires forall i :: 0 <= i < |Split(s, '.')| && ParseUsize(Split(s, '.')[i]).Some? ==>
               DecimalString(ParseUsize(Split(s, '.')[i]).value) == Split(s, '.')[i]
    ensures FieldKey(rt, IntoAttribute(AttributeFromStr(s))) == s
  {
    var a := AttributeFromStr(s);
    var pieces := Split(s, '.');
    forall i | 0 <= i < |a.parts|
      ensures !a.parts[i].Code? && CanonicalIndex(a.parts[i])
    {
      TrimProperties(pieces[i]);
    }
    KeyWithoutCode(rt, a);
    ComposedFromStr(s);
  }

  /** The literal index of `integers.007` is printed as its value: the field
      is inserted under "integers.7". */
  lemma LeadingZerosDropped(rt: Runtime)
    ensures FieldKey(rt, Attribute([Key("integers"), Index("007")])) == "integers.7"
  {
    assert AllDigits("007");
    assert DigitsValue("007") == 7 by {
      assert "007"[..2] == "00" && "00"[..1] == "0" && "0"[..0] == "";
    }
    assert DigitChar(7) == '7';
    assert PartKey(rt, Index("007")) == DecimalString(7) == "7";
    assert PartKeys(rt, [Key("integers"), Index("007")]) == ["integers", "7"];
    assert Join(["integers", "7"], ".") == "integers" + "." + Join(["7"], ".");
  }

  /** `integers.(index)` with `index` evaluating to 3 is inserted under
      "integers.3". */
  lemma IndexedKeyExample(rt: Runtime)
    requires rt.index("index") == 3
    ensures FieldKey(rt, Attribute([Key("integers"), Code("index")])) == "integers.3"
  {
    assert DigitChar(3) == '3';
    assert PartKey(rt, Code("index")) == DecimalString(3) == "3";
    assert PartKeys(rt, [Key("integers"), Code("index")]) == ["integers", "3"];
    assert Join(["integers", "3"], ".") == "integers" + "." + Join(["3"], ".");
  }

  // ----------------------------------------------------------------------------------------------
  // Values and documents

  /** Each literal is rendered as the run-time conversion of the Rust value of
      its type would give it. */
  lemma LiteralsConvert(rt: Runtime, v: Value)
    ensures v.F64Value? ==> RenderValue(rt, v) == Conversions.F64IntoBson(v.f)
    ensures v.StringValue? ==> RenderValue(rt, v) == Conversions.StringIntoBson(v.s)
    ensures v.ObjectIdValue? ==> RenderValue(rt, v) == Conversions.ObjectIdIntoBson(v.oid)
    ensures v.BoolValue? ==> RenderValue(rt, v) == Conversions.BoolIntoBson(v.b)
    ensures v.DateValue? ==> RenderValue(rt, v) == Conversions.DateIntoBson(v.date)
    ensures v.I32Value? ==> RenderValue(rt, v) == Conversions.I32IntoBson(v.i)
    ensures v.I64Value? ==> RenderValue(rt, v) == Conversions.I64IntoBson(v.l)
  {
  }

  /** Every key of the document is the key of some field, each appears once,
      and it holds the value of the last field rendered under it. */
  lemma RenderedGet(rt: Runtime, o: FormObject, k: string)
    ensures UniqueKeys(RenderObject(rt, o))
    ensures HasKey(RenderObject(rt, o), k) <==> exists i :: 0 <= i < |o.fields| && FieldKey(rt, o.fields[i].attr) == k
    ensures Get(RenderObject(rt, o), k) == LastLookup(RenderEntries(rt, o.fields), k)
  {
    var es := RenderEntries(rt, o.fields);
    FromEntriesUnique(es);
    InsertAllGet(EmptyDoc, es, k);
    InsertAllHasKey(EmptyDoc, es, k);
    assert !HasKey(EmptyDoc, k);
    if k in KeysOf(es) {
      var i :| 0 <= i < |es| && KeysOf(es)[i] == k;
      KeysOfAt(es, i);
    }
    if exists i :: 0 <= i < |o.fields| && FieldKey(rt, o.fields[i].attr) == k {
      var i :| 0 <= i < |o.fields| && FieldKey(rt, o.fields[i].attr) == k;
      KeysOfAt(es, i);
      assert KeysOf(es)[i] == k;
    }
  }

  /** When no two fields share a key, the document holds one entry per field,
      in the order the fields were accepted. */
  lemma RenderedInOrder(rt: Runtime, o: FormObject)
    requires Seqs.Distinct(KeysOf(RenderEntries(rt, o.fields)))
    ensures RenderObject(rt, o).entries == RenderEntries(rt, o.fields)
  {
    var es := RenderEntries(rt, o.fields);
    assert EmptyDoc.entries + es == es;
    InsertAllFresh(EmptyDoc, es);
  }
}
