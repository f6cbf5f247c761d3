/** The query-formulation parser of the macro-support crate
    (`huus_macros_support/src/formulation/interpreter.rs`):

      ("collection") { attribute: value, ... }

    or the same without the braces around the body. An attribute is a string
    literal, or idents and `( )` groups joined by '.'; a value is a literal,
    an ident, code in `( )`, or a nested object in `{ }`. Where the source
    panics (an `expect_*` at the end of a stream, or `span().expect(..)` after
    the stream ended) the model reports `Panicked`. */
module FormulationInterpreter {
  import opened Wrappers
  import opened Tokens
  import opened TokenParser
  import opened ParseSteps
  import opened FormulationOutput
  import opened FormulationInput
  import Seqs

  // ----- Sizes, for termination ---------------------------------------------

  /** The number of token trees in a tree, groups counting their contents. */
  function TreeSize(t: TokenTree): nat
    decreases t
  {
    match t
    case Group(_, s, _) => 1 + StreamSize(s)
    case _ => 1
  }

  function StreamSize(s: seq<TokenTree>): nat
    decreases s
  {
    if |s| == 0 then 0 else TreeSize(s[0]) + StreamSize(s[1..])
  }

  /** Dropping tokens from the front of a stream makes it smaller. */
  lemma {:induction false} SuffixSmaller(s: seq<TokenTree>, k: nat)
    requires 0 < k <= |s|
    ensures StreamSize(s[k..]) < StreamSize(s)
    decreases k
  {
    if k > 1 {
      SuffixSmaller(s[1..], k - 1);
      assert s[1..][k - 1..] == s[k..];
    }
  }

  /** `q` is `p` after one or more tokens were consumed. */
  predicate Behind(q: Parser, p: Parser) {
    |q.rest| < |p.rest| && q.rest == p.rest[|p.rest| - |q.rest|..]
  }

  lemma BehindSmaller(q: Parser, p: Parser)
    requires Behind(q, p)
    ensures StreamSize(q.rest) < StreamSize(p.rest)
  {
    SuffixSmaller(p.rest, |p.rest| - |q.rest|);
  }

  // ----- Attributes ---------------------------------------------------------

  /** The loop of `parse_attribute` for an unquoted attribute: an ident (read
      with `Part::from_str`) or a group (its code), then ':' to finish or '.'
      to go on. */
  function AttributeParts(p: Parser, attr: AttributeTemplate): (r: Parsed<AttributeTemplate>)
    ensures r.Parsed? ==> Behind(r.next, p) && Len(r.value) > Len(attr)
    ensures r.Parsed? ==> r.value.parts[..Len(attr)] == attr.parts
    ensures r.Parsed? ==> r.next.prev == Some(Punct(':'))
    ensures IsEnd(p) ==> r == Failed(Panicked)
    decreases |p.rest|
  {
    var (e, p1) := Expect(p);
    if e.ExpectedIdent? || e.ExpectedGroup? then
      var part := if e.ExpectedIdent? then PartFromStr(e.name) else Code(e.group.streamText);
      var c :- PunctStep(p1, None);
      if c.0 == ':' then Parsed(Push(attr, part), c.1)
      else if c.0 == '.' then
        var r := AttributeParts(c.1, Push(attr, part));
        assert r.Parsed? ==> r.value.parts[..Len(attr)] == r.value.parts[..Len(attr) + 1][..Len(attr)];
        r
      else Failed(Rejected)
    else if e.EndOfStream? then Failed(Panicked)
    else Failed(Rejected)
  }

  /** `parse_attribute`: a string literal is split on '.' and must be followed
      by ':'; otherwise the parts are read one by one. */
  function ParseAttribute(p: Parser): (r: Parsed<AttributeTemplate>)
    requires !IsEnd(p)
    ensures r.Parsed? ==> Behind(r.next, p) && Len(r.value) >= 1
    ensures r.Parsed? ==> r.next.prev == Some(Punct(':'))
    ensures r.Parsed? && IsLiteral(p) ==>
              FromLiteral(p.rest[0].text).ExpectedString? &&
              r.value == AttributeFromStr(FromLiteral(p.rest[0].text).content)
  {
    if IsLiteral(p) then
      var s :- StringStep(p);
      var c :- PunctStep(s.1, Some(':'));
      Parsed(AttributeFromStr(s.0), c.1)
    else AttributeParts(p, EmptyAttribute)
  }

  // ----- Values and objects -------------------------------------------------

  /** `parse_value`: a quoted literal is `Quoted`, another literal or an ident
      `Unquoted`, a `( )` group code, a `{ }` group a nested object; any other
      token is refused. */
  function ParseValue(p: Parser): (r: Parsed<ValueTemplate>)
    ensures r.Parsed? ==> !IsEnd(p) && r.next == Advance(p)
    ensures IsEnd(p) ==> r == Failed(Panicked)
    ensures !IsEnd(p) && p.rest[0].Punct? ==> r == Failed(Rejected)
    ensures r.Parsed? && r.value.Quoted? ==> p.rest[0] == Literal("\"" + r.value.text + "\"")
    ensures r.Parsed? && r.value.Unquoted? ==>
              p.rest[0] == Ident(r.value.text) ||
              (p.rest[0].Literal? && p.rest[0].text == r.value.text && !FromLiteral(p.rest[0].text).ExpectedString?)
    ensures r.Parsed? && r.value.CodeText? ==>
              p.rest[0].Group? && p.rest[0].delimiter == Parenthesis && r.value.code == p.rest[0].streamText
    ensures r.Parsed? && r.value.NestedObject? ==>
              p.rest[0].Group? && p.rest[0].delimiter == Brace &&
              ParseObject(p.rest[0].stream) == Ok(r.value.template)
    decreases StreamSize(p.rest), 1
  {
    var (e, p1) := Expect(p);
    match e
    case ExpectedString(s) => Parsed(Quoted(s), p1)
    case ExpectedValue(s) => Parsed(Unquoted(s), p1)
    case ExpectedIdent(name) => Parsed(Unquoted(name), p1)
    case ExpectedGroup(g) =>
      if g.delimiter == Parenthesis then Parsed(CodeText(g.streamText), p1)
      else if g.delimiter == Brace then
        assert StreamSize(g.stream) < StreamSize(p.rest);
        match ParseObject(g.stream)
        case Ok(o) => Parsed(NestedObject(o), p1)
        case Err(f) => Failed(f)
      else Failed(Rejected)
    case ExpectedPunct(_) => Failed(Rejected)
    case EndOfStream => Failed(Panicked)
  }

  /** The loop of `parse_object`: attribute, value, and a ',' unless the
      stream ends there; fields are kept in the order written. */
  function FieldsFrom(p: Parser, fields: seq<FieldTemplate>): (r: Result<ObjectTemplate, Failure>)
    ensures r.Ok? ==> |r.value.fields| >= |fields| && r.value.fields[..|fields|] == fields
    ensures IsEnd(p) ==> r == Ok(ObjectTemplate(fields))
    decreases StreamSize(p.rest), 2
  {
    if IsEnd(p) then Ok(ObjectTemplate(fields))
    else
      match ParseAttribute(p)
      case Failed(f) => Err(f)
      case Parsed(attr, p1) =>
        BehindSmaller(p1, p);
        match ParseValue(p1)
        case Failed(f) => Err(f)
        case Parsed(v, p2) =>
          var more := fields + [FieldTemplate(attr, v)];
          if IsEnd(p2) then Ok(ObjectTemplate(more))
          else
            match PunctStep(p2, Some(','))
            case Failed(f) => Err(f)
            case Parsed(_, p3) =>
              assert Behind(p3, p);
              BehindSmaller(p3, p);
              var r := FieldsFrom(p3, more);
              assert r.Ok? ==> r.value.fields[..|fields|] == r.value.fields[..|more|][..|fields|];
              r
  }

  /** `parse_object` on a fresh parser over a stream. */
  function ParseObject(stream: seq<TokenTree>): (r: Result<ObjectTemplate, Failure>)
    ensures |stream| == 0 ==> r == Ok(ObjectTemplate([]))
    decreases StreamSize(stream), 3
  {
    FieldsFrom(NewParser(stream), [])
  }

  // ----- The whole macro input ----------------------------------------------

  /** `parse_prelude`: the group holds exactly one string literal, the
      collection name. */
  function ParsePrelude(group: TokenTree): (r: Result<string, Failure>)
    requires group.Group?
    ensures r.Ok? <==> |group.stream| == 1 && group.stream[0].Literal? &&
                       FromLiteral(group.stream[0].text).ExpectedString?
    ensures r.Ok? ==> group.stream[0].text == "\"" + r.value + "\""
    ensures |group.stream| == 0 ==> r == Err(Panicked)
  {
    var p := NewParser(group.stream);
    match StringStep(p)
    case Failed(f) => Err(f)
    case Parsed(name, p1) =>
      if ExpectEof(p1).0.Ok? then Ok(name) else Err(Rejected)
  }

  /** `Interpreter::parse`: the prelude group, then either one more group
      holding the body or the rest of the stream as the body. Tokens after a
      body group are not read. */
  function Parse(stream: seq<TokenTree>): (r: Result<(string, ObjectTemplate), Failure>)
    ensures |stream| == 0 ==> r == Err(Panicked)
    ensures r.Ok? ==> stream[0].Group? && ParsePrelude(stream[0]) == Ok(r.value.0)
    ensures r.Ok? && |stream| > 1 && stream[1].Group? ==> ParseObject(stream[1].stream) == Ok(r.value.1)
    ensures r.Ok? && !(|stream| > 1 && stream[1].Group?) ==>
              FieldsFrom(Parser(Some(stream[0]), stream[1..]), []) == Ok(r.value.1)
  {
    var p := NewParser(stream);
    match GroupStep(p)
    case Failed(f) => Err(f)
    case Parsed(prelude, p1) =>
      match ParsePrelude(prelude)
      case Err(f) => Err(f)
      case Ok(collection) =>
        var body := if IsGroup(p1) then ParseObject(p1.rest[0].stream) else FieldsFrom(p1, []);
        match body
        case Err(f) => Err(f)
        case Ok(o) => Ok((collection, o))
  }

  // ----- Printing, the partner of parsing -----------------------------------

  /** A part that reads back as itself when printed as an ident: anything but
      code, whose text reads as the same kind of part. */
  predicate IdentPart(p: Part) {
    !p.Code? && PartFromStr(PartToStr(p)) == p
  }

  /** An attribute the unquoted syntax can write: at least one part, each an
      ident part or code. */
  predicate WritableAttribute(a: AttributeTemplate) {
    Len(a) >= 1 && forall i :: 0 <= i < Len(a) ==> a.parts[i].Code? || IdentPart(a.parts[i])
  }

  /** Fields whose attributes the unquoted syntax can write, at every depth. */
  predicate WritableFields(fs: seq<FieldTemplate>)
    decreases fs
  {
    |fs| == 0 || (WritableField(fs[0]) && WritableFields(fs[1..]))
  }

  predicate WritableField(f: FieldTemplate)
    decreases f
  {
    WritableAttribute(f.attr) && WritableValue(f.value)
  }

  predicate WritableValue(v: ValueTemplate)
    decreases v
  {
    v.NestedObject? ==> WritableFields(v.template.fields)
  }

  /** The tokens of an attribute's parts: `a.b.(code)` followed by ':'. */
  function PrintParts(parts: seq<Part>): (r: seq<TokenTree>)
    decreases |parts|
  {
    if |parts| == 0 then [Punct(':')]
    else if |parts| == 1 then [PrintPart(parts[0]), Punct(':')]
    else [PrintPart(parts[0]), Punct('.')] + PrintParts(parts[1..])
  }

  function PrintPart(p: Part): TokenTree {
    if p.Code? then Group(Parenthesis, [], p.code) else Ident(PartToStr(p))
  }

  /** The token of a value. The text of a nested group is the compiler's and
      plays no part in parsing. */
  function PrintValue(v: ValueTemplate): TokenTree
    decreases v
  {
    match v
    case Quoted(s) => Literal("\"" + s + "\"")
    case Unquoted(s) => Ident(s)
    case CodeText(c) => Group(Parenthesis, [], c)
    case NestedObject(o) => Group(Brace, PrintFields(o.fields), "")
  }

  /** `attribute: value`. */
  function PrintField(f: FieldTemplate): seq<TokenTree>
    decreases f
  {
    PrintParts(f.attr.parts) + [PrintValue(f.value)]
  }

  /** Fields separated by ','. */
  function PrintFields(fs: seq<FieldTemplate>): seq<TokenTree>
    decreases fs
  {
    if |fs| == 0 then []
    else PrintField(fs[0]) + (if |fs| == 1 then [] else [Punct(',')] + PrintFields(fs[1..]))
  }

  /** One part token and the punctuation after it. */
  lemma PartStep(q: Part, c: char, attr: AttributeTemplate, prev: Option<TokenTree>, rest: seq<TokenTree>)
    requires q.Code? || IdentPart(q)
    ensures var p := Parser(prev, [PrintPart(q), Punct(c)] + rest);
            var after := Parser(Some(Punct(c)), rest);
            AttributeParts(p, attr) ==
              if c == ':' then Parsed(Push(attr, q), after)
              else if c == '.' then AttributeParts(after, Push(attr, q))
              else Failed(Rejected)
  {
    var p := Parser(prev, [PrintPart(q), Punct(c)] + rest);
    var p1 := Parser(Some(PrintPart(q)), [Punct(c)] + rest);
    assert p.rest[0] == PrintPart(q) && p.rest[1..] == [Punct(c)] + rest;
    assert Expect(p) == (FromTokenTree(Some(PrintPart(q))), p1);
    assert p1.rest[0] == Punct(c) && p1.rest[1..] == rest;
    assert PunctStep(p1, None) == Parsed(c, Parser(Some(Punct(c)), rest));
  }

  /** The printed parts begin with the first part and the punctuation after
      it. */
  lemma PrintPartsSplit(parts: seq<Part>, rest: seq<TokenTree>)
    requires |parts| >= 1
    ensures |parts| == 1 ==> PrintParts(parts) + rest == [PrintPart(parts[0]), Punct(':')] + rest
    ensures |parts| > 1 ==> PrintParts(parts) + rest == [PrintPart(parts[0]), Punct('.')] + (PrintParts(parts[1..]) + rest)
  {
    if |parts| > 1 {
      assert ([PrintPart(parts[0]), Punct('.')] + PrintParts(parts[1..])) + rest == [PrintPart(parts[0]), Punct('.')] + (PrintParts(parts[1..]) + rest);
    }
  }

  /** Reading printed parts gives the parts back and stops after the ':'. */
  lemma {:induction false} PrintedParts(parts: seq<Part>, attr: AttributeTemplate, prev: Option<TokenTree>, rest: seq<TokenTree>)
    requires |parts| >= 1
    requires forall i :: 0 <= i < |parts| ==> parts[i].Code? || IdentPart(parts[i])
    ensures AttributeParts(Parser(prev, PrintParts(parts) + rest), attr)
            == Parsed(AttributeTemplate(attr.parts + parts), Parser(Some(Punct(':')), rest))
    decreases |parts|
  {
    var q := parts[0];
    PrintPartsSplit(parts, rest);
    assert q.Code? || IdentPart(q);
    Seqs.ShiftFirst(attr.parts, parts);
    if |parts| == 1 {
      PartStep(q, ':', attr, prev, rest);
    } else {
      var tail := parts[1..];
      assert forall i :: 0 <= i < |tail| ==> tail[i] == parts[i + 1];
      PartStep(q, '.', attr, prev, PrintParts(tail) + rest);
      PrintedParts(tail, Push(attr, q), Some(Punct('.')), rest);
    }
  }

  /** Reading a printed value gives the value back and consumes one token. */
  lemma {:induction false} PrintedValue(v: ValueTemplate, prev: Option<TokenTree>, rest: seq<TokenTree>)
    requires WritableValue(v)
    ensures ParseValue(Parser(prev, [PrintValue(v)] + rest)) == Parsed(v, Parser(Some(PrintValue(v)), rest))
    decreases v
  {
    var p := Parser(prev, [PrintValue(v)] + rest);
    var p1 := Parser(Some(PrintValue(v)), rest);
    assert Expect(p) == (FromTokenTree(Some(PrintValue(v))), p1);
    match v
    case Quoted(s) =>
      QuotedLiteral(s);
    case Unquoted(_) =>
    case CodeText(_) =>
    case NestedObject(o) =>
      PrintedFields(o.fields, [], None, []);
      assert PrintFields(o.fields) + [] == PrintFields(o.fields);
      assert [] + o.fields == o.fields;
      assert ParseObject(PrintFields(o.fields)) == Ok(o);
  }

  /** One printed field reads back as its attribute and value. */
  lemma {:induction false} PrintedField(f: FieldTemplate, prev: Option<TokenTree>, rest: seq<TokenTree>)
    requires WritableField(f)
    ensures ParseAttribute(Parser(prev, PrintField(f) + rest)) ==
              Parsed(f.attr, Parser(Some(Punct(':')), [PrintValue(f.value)] + rest))
    ensures ParseValue(Parser(Some(Punct(':')), [PrintValue(f.value)] + rest)) ==
              Parsed(f.value, Parser(Some(PrintValue(f.value)), rest))
    decreases f
  {
    var after := [PrintValue(f.value)] + rest;
    assert PrintField(f) + rest == PrintParts(f.attr.parts) + after;
    PrintedParts(f.attr.parts, EmptyAttribute, prev, after);
    assert EmptyAttribute.parts + f.attr.parts == f.attr.parts;
    assert !IsLiteral(Parser(prev, PrintField(f) + rest));
    PrintedValue(f.value, Some(Punct(':')), rest);
  }

  /** The tokens of fields: the first field, then a ',' and the others. */
  lemma FieldsTokens(fs: seq<FieldTemplate>, tail: seq<TokenTree>)
    requires |fs| > 0
    ensures PrintFields(fs) + tail ==
              PrintField(fs[0]) + ((if |fs| == 1 then [] else [Punct(',')] + PrintFields(fs[1..])) + tail)
  {
  }

  /** One turn of the `parse_object` loop, once the attribute and the value
      are known. */
  lemma FieldStep(p: Parser, acc: seq<FieldTemplate>, f: FieldTemplate, p1: Parser, p2: Parser)
    requires !IsEnd(p)
    requires ParseAttribute(p) == Parsed(f.attr, p1)
    requires ParseValue(p1) == Parsed(f.value, p2)
    ensures IsEnd(p2) ==> FieldsFrom(p, acc) == Ok(ObjectTemplate(acc + [f]))
    ensures !IsEnd(p2) && p2.rest[0] == Punct(',') ==>
              FieldsFrom(p, acc) == FieldsFrom(Advance(p2), acc + [f])
  {
  }

  /** A single printed field is read and the loop stops, whether or not a ','
      follows it. */
  lemma OnlyFieldRead(fs: seq<FieldTemplate>, acc: seq<FieldTemplate>, prev: Option<TokenTree>, tail: seq<TokenTree>)
    requires WritableFields(fs) && |fs| == 1
    requires tail == [] || (tail == [Punct(',')])
    ensures FieldsFrom(Parser(prev, PrintFields(fs) + tail), acc) == Ok(ObjectTemplate(acc + fs))
    decreases fs, 0
  {
    var f := fs[0];
    var pv := PrintValue(f.value);
    var p := Parser(prev, PrintFields(fs) + tail);
    assert PrintFields(fs) + tail == PrintField(f) + tail;
    assert WritableField(f);
    PrintedField(f, prev, tail);
    var p2 := Parser(Some(pv), tail);
    FieldStep(p, acc, f, Parser(Some(Punct(':')), [pv] + tail), p2);
    Seqs.ShiftFirst(acc, fs);
    if tail != [] {
      assert FieldsFrom(Advance(p2), acc + [f]) == Ok(ObjectTemplate(acc + [f]));
    }
  }

  /** The first of several printed fields is read and the loop goes on after
      its ','. */
  lemma NextFieldRead(fs: seq<FieldTemplate>, acc: seq<FieldTemplate>, prev: Option<TokenTree>, tail: seq<TokenTree>)
    requires WritableFields(fs) && |fs| > 1
    ensures FieldsFrom(Parser(prev, PrintFields(fs) + tail), acc)
            == FieldsFrom(Parser(Some(Punct(',')), PrintFields(fs[1..]) + tail), acc + [fs[0]])
    decreases fs, 0
  {
    var f := fs[0];
    var pv := PrintValue(f.value);
    var rest := [Punct(',')] + (PrintFields(fs[1..]) + tail);
    var p := Parser(prev, PrintFields(fs) + tail);
    Seqs.Regroup(PrintField(f), [Punct(',')], PrintFields(fs[1..]), tail);
    assert WritableField(f);
    PrintedField(f, prev, rest);
    var p2 := Parser(Some(pv), rest);
    FieldStep(p, acc, f, Parser(Some(Punct(':')), [pv] + rest), p2);
    assert Advance(p2) == Parser(Some(Punct(',')), PrintFields(fs[1..]) + tail);
  }

  /** Reading printed fields, with or without a trailing ',' after the last
      one, gives the fields back in order. */
  lemma {:induction false} PrintedFields(fs: seq<FieldTemplate>, acc: seq<FieldTemplate>, prev: Option<TokenTree>, tail: seq<TokenTree>)
    requires WritableFields(fs)
    requires tail == [] || (|fs| > 0 && tail == [Punct(',')])
    ensures FieldsFrom(Parser(prev, PrintFields(fs) + tail), acc) == Ok(ObjectTemplate(acc + fs))
    decreases fs, 2
  {
    if |fs| == 0 {
      assert acc + fs == acc;
      assert PrintFields(fs) + tail == [];
    } else if |fs| == 1 {
      OnlyFieldRead(fs, acc, prev, tail);
    } else {
      PrintedFields(fs[1..], acc + [fs[0]], Some(Punct(',')), tail);
      Seqs.ShiftFirst(acc, fs);
      FieldsThen(fs, acc, prev, tail);
    }
  }

  /** The first of several printed fields, then the others. */
  lemma FieldsThen(fs: seq<FieldTemplate>, acc: seq<FieldTemplate>, prev: Option<TokenTree>, tail: seq<TokenTree>)
    requires WritableFields(fs) && |fs| > 1
    requires FieldsFrom(Parser(Some(Punct(',')), PrintFields(fs[1..]) + tail), acc + [fs[0]]) == Ok(ObjectTemplate(acc + fs))
    ensures FieldsFrom(Parser(prev, PrintFields(fs) + tail), acc) == Ok(ObjectTemplate(acc + fs))
    decreases fs, 1
  {
    NextFieldRead(fs, acc, prev, tail);
  }

  /** `parse` once the prelude group has given the collection name. */
  lemma ParseAfterPrelude(prelude: TokenTree, body: seq<TokenTree>, collection: string)
    requires prelude.Group? && ParsePrelude(prelude) == Ok(collection)
    ensures var o := if |body| > 0 && body[0].Group? then ParseObject(body[0].stream)
                     else FieldsFrom(Parser(Some(prelude), body), []);
            Parse([prelude] + body) == if o.Ok? then Ok((collection, o.value)) else Err(o.error)
  {
    var p := NewParser([prelude] + body);
    assert p.rest[0] == prelude && p.rest[1..] == body;
    assert GroupStep(p) == Parsed(prelude, Parser(Some(prelude), body));
  }

  /** The prelude group `("collection")`. */
  function PrintPrelude(collection: string): (g: TokenTree)
    ensures g.Group? && ParsePrelude(g) == Ok(collection)
  {
    QuotedLiteral(collection);
    Group(Parenthesis, [Literal("\"" + collection + "\"")], "")
  }

  /** A macro input written as `("collection") { fields }` reads back as the
      collection and the fields. */
  lemma PrintedBracedInput(collection: string, fs: seq<FieldTemplate>)
    requires WritableFields(fs)
    ensures Parse([PrintPrelude(collection), Group(Brace, PrintFields(fs), "")]) == Ok((collection, ObjectTemplate(fs)))
  {
    var body := [Group(Brace, PrintFields(fs), "")];
    ParseAfterPrelude(PrintPrelude(collection), body, collection);
    PrintedFields(fs, [], None, []);
    assert [] + fs == fs;
    assert PrintFields(fs) + [] == PrintFields(fs);
    assert ParseObject(PrintFields(fs)) == Ok(ObjectTemplate(fs));
    assert [PrintPrelude(collection)] + body == [PrintPrelude(collection), Group(Brace, PrintFields(fs), "")];
  }

  /** Without the braces the fields read back the same, unless the first
      attribute starts with code: a `( )` group right after the prelude is
      taken as the body. */
  lemma PrintedBareInput(collection: string, fs: seq<FieldTemplate>)
    requires WritableFields(fs)
    requires |fs| > 0 && |fs[0].attr.parts| > 0 ==> !fs[0].attr.parts[0].Code?
    ensures Parse([PrintPrelude(collection)] + PrintFields(fs)) == Ok((collection, ObjectTemplate(fs)))
  {
    var prelude := PrintPrelude(collection);
    var body := PrintFields(fs);
    ParseAfterPrelude(prelude, body, collection);
    PrintedFields(fs, [], Some(prelude), []);
    assert [] + fs == fs;
    assert PrintFields(fs) + [] == PrintFields(fs);
    if |fs| > 0 {
      FieldsTokens(fs, []);
      assert WritableAttribute(fs[0].attr);
      assert body[0] == PrintPart(fs[0].attr.parts[0]);
    }
  }
}
