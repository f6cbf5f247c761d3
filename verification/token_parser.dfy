/** The one-token-lookahead parser of the macro-support crate
    (`huus_macros_support/src/parser.rs`). The compiler's token iterator is the
    sequence `rest`; the token last consumed is kept for diagnostics. Every
    `expect*` other than `expect_eof` and `expect` panics at the end of the
    stream, so they require a lookahead token. */
module TokenParser {
  import opened Wrappers
  import opened Tokens

  /** `ExpectedTokenTree`: how `expect` classifies the next token. */
  datatype Expected =
    | ExpectedGroup(group: TokenTree)
    | ExpectedIdent(name: string)
    | ExpectedPunct(ch: char)
    | ExpectedString(content: string)
    | ExpectedValue(text: string)
    | EndOfStream
  {
    /** `ExpectedTokenTree::is_punct`. */
    predicate IsPunct(c: char) {
      ExpectedPunct? && ch == c
    }
  }

  /** `from_literal`: a literal printed between double quotes is a string whose
      content is the text without its two quotes; any other literal is kept as
      its printed text. */
  function FromLiteral(text: LiteralText): (e: Expected)
    ensures e.ExpectedString? || e.ExpectedValue?
    ensures e.ExpectedString? <==> |text| > 0 && text[0] == '"' && text[|text| - 1] == '"'
    ensures e.ExpectedString? ==> text == "\"" + e.content + "\""
    ensures e.ExpectedValue? ==> e.text == text
  {
    if |text| > 0 && text[0] == '"' && text[|text| - 1] == '"' then
      assert text[..1] == [text[0]] && text == text[..1] + text[1..];
      ExpectedString(text[1..|text| - 1])
    else
      ExpectedValue(text)
  }

  /** A string literal gives back exactly what was written between its quotes. */
  lemma QuotedLiteral(content: string)
    ensures FromLiteral("\"" + content + "\"") == ExpectedString(content)
  {
    var text: LiteralText := "\"" + content + "\"";
    assert text[1..|text| - 1] == content;
  }

  /** `from_token_tree`: the classification of an optional token. */
  function FromTokenTree(t: Option<TokenTree>): (e: Expected)
    ensures e.EndOfStream? <==> t.None?
    ensures e.ExpectedGroup? <==> t.Some? && t.value.Group?
    ensures e.ExpectedGroup? ==> e.group == t.value
    ensures e.ExpectedIdent? <==> t.Some? && t.value.Ident?
    ensures e.ExpectedIdent? ==> e.name == t.value.name
    ensures e.ExpectedPunct? <==> t.Some? && t.value.Punct?
    ensures e.ExpectedPunct? ==> e.ch == t.value.ch
    ensures (e.ExpectedString? || e.ExpectedValue?) <==> t.Some? && t.value.Literal?
  {
    match t
    case None => EndOfStream
    case Some(Group(_, _, _)) => ExpectedGroup(t.value)
    case Some(Ident(name)) => ExpectedIdent(name)
    case Some(Punct(c)) => ExpectedPunct(c)
    case Some(Literal(text)) => FromLiteral(text)
  }

  /** The parser: `prev` is the token consumed last (what `span()` reports), and
      `rest` the tokens still to come, the first being the lookahead `next`. */
  datatype Parser = Parser(prev: Option<TokenTree>, rest: seq<TokenTree>)

  /** `Parser::new`: nothing consumed yet. */
  function NewParser(stream: seq<TokenTree>): (p: Parser)
    ensures p.prev.None? && p.rest == stream
  {
    Parser(None, stream)
  }

  /** `is_end`: no lookahead token. */
  predicate IsEnd(p: Parser) {
    |p.rest| == 0
  }

  /** `is_ident`, `is_group`, `is_literal`: the kind of the lookahead token. */
  predicate IsIdent(p: Parser) {
    |p.rest| > 0 && p.rest[0].Ident?
  }

  predicate IsGroup(p: Parser) {
    |p.rest| > 0 && p.rest[0].Group?
  }

  predicate IsLiteral(p: Parser) {
    |p.rest| > 0 && p.rest[0].Literal?
  }

  /** `span`: the token consumed last, if any. */
  function Span(p: Parser): Option<TokenTree> {
    p.prev
  }

  /** `start` then `finish`, the step every `expect*` takes: the lookahead
      becomes the consumed token and the stream moves on by one. At the end of
      the stream nothing is consumed and `span` becomes empty. */
  function Advance(p: Parser): (q: Parser)
    ensures !IsEnd(p) ==> Span(q) == Some(p.rest[0]) && q.rest == p.rest[1..]
    ensures IsEnd(p) ==> Span(q).None? && IsEnd(q)
  {
    if IsEnd(p) then Parser(None, []) else Parser(Some(p.rest[0]), p.rest[1..])
  }

  /** `expect_group`: the group ahead, or an error naming the token found. */
  function ExpectGroup(p: Parser): (r: (Result<TokenTree, TokenTree>, Parser))
    requires !IsEnd(p)
    ensures r.1 == Advance(p)
    ensures r.0.Ok? <==> IsGroup(p)
    ensures r.0.Ok? ==> r.0.value == p.rest[0]
    ensures r.0.Err? ==> r.0.error == p.rest[0]
  {
    var t := p.rest[0];
    (if t.Group? then Ok(t) else Err(t), Advance(p))
  }

  /** `expect_ident(expected)`: an ident, equal to `expected` when one is given. */
  function ExpectIdent(p: Parser, expected: Option<string>): (r: (Result<string, TokenTree>, Parser))
    requires !IsEnd(p)
    ensures r.1 == Advance(p)
    ensures r.0.Ok? <==> IsIdent(p) && (expected.None? || expected.value == p.rest[0].name)
    ensures r.0.Ok? ==> r.0.value == p.rest[0].name
    ensures r.0.Err? ==> r.0.error == p.rest[0]
  {
    var t := p.rest[0];
    var ok := t.Ident? && (expected.None? || expected.value == t.name);
    (if ok then Ok(t.name) else Err(t), Advance(p))
  }

  /** `expect_punctuation(expected)`: a punctuation character, equal to
      `expected` when one is given. */
  function ExpectPunctuation(p: Parser, expected: Option<char>): (r: (Result<char, TokenTree>, Parser))
    requires !IsEnd(p)
    ensures r.1 == Advance(p)
    ensures r.0.Ok? <==> p.rest[0].Punct? && (expected.None? || expected.value == p.rest[0].ch)
    ensures r.0.Ok? ==> r.0.value == p.rest[0].ch
    ensures r.0.Err? ==> r.0.error == p.rest[0]
  {
    var t := p.rest[0];
    var ok := t.Punct? && (expected.None? || expected.value == t.ch);
    (if ok then Ok(t.ch) else Err(t), Advance(p))
  }

  /** `expect_string`: a literal printed between double quotes, without them. */
  function ExpectString(p: Parser): (r: (Result<string, TokenTree>, Parser))
    requires !IsEnd(p)
    ensures r.1 == Advance(p)
    ensures r.0.Ok? <==> IsLiteral(p) && FromLiteral(p.rest[0].text).ExpectedString?
    ensures r.0.Ok? ==> "\"" + r.0.value + "\"" == p.rest[0].text
    ensures r.0.Err? ==> r.0.error == p.rest[0]
  {
    var t := p.rest[0];
    var e := if t.Literal? then FromLiteral(t.text) else EndOfStream;
    (if e.ExpectedString? then Ok(e.content) else Err(t), Advance(p))
  }

  /** `expect_eof`: succeeds exactly when the stream is exhausted. */
  function ExpectEof(p: Parser): (r: (Result<(), TokenTree>, Parser))
    ensures r.1 == Advance(p)
    ensures r.0.Ok? <==> IsEnd(p)
    ensures r.0.Err? ==> r.0.error == p.rest[0]
  {
    (if IsEnd(p) then Ok(()) else Err(p.rest[0]), Advance(p))
  }

  /** `expect`: total; classifies the next token, `EndOfStream` once exhausted. */
  function Expect(p: Parser): (r: (Expected, Parser))
    ensures r.1 == Advance(p)
    ensures r.0.EndOfStream? <==> IsEnd(p)
  {
    (FromTokenTree(if IsEnd(p) then None else Some(p.rest[0])), Advance(p))
  }

  /** The total `expect` and the specific `expect*` agree on what is ahead. */
  lemma ExpectAgrees(p: Parser)
    requires !IsEnd(p)
    ensures Expect(p).0.ExpectedGroup? <==> ExpectGroup(p).0.Ok?
    ensures Expect(p).0.ExpectedIdent? <==> ExpectIdent(p, None).0.Ok?
    ensures Expect(p).0.ExpectedIdent? ==> Expect(p).0.name == ExpectIdent(p, None).0.value
    ensures Expect(p).0.ExpectedPunct? <==> ExpectPunctuation(p, None).0.Ok?
    ensures Expect(p).0.ExpectedString? <==> ExpectString(p).0.Ok?
    ensures Expect(p).0.ExpectedString? ==> Expect(p).0.content == ExpectString(p).0.value
  {
  }
}

/** The `expect_*(...)?` steps the macro interpreters take, with the end of the
    stream reported as `Panicked` (the source panics there) and a refused token
    as `Rejected` (the source emits a diagnostic and returns `Err`). */
module ParseSteps {
  import opened Wrappers
  import opened Tokens
  import opened TokenParser

  /** Why parsing stopped: a diagnostic was emitted, or the source panicked. */
  datatype Failure = Rejected | Panicked

  /** A parsed value with the parser left after it, or a failure. */
  datatype Parsed<+T> = Parsed(value: T, next: Parser) | Failed(failure: Failure)
  {
    predicate IsFailure() {
      Failed?
    }

    function PropagateFailure<U>(): Parsed<U>
      requires Failed?
    {
      Failed(failure)
    }

    function Extract(): (T, Parser)
      requires Parsed?
    {
      (value, next)
    }
  }

  // ----- Single tokens ------------------------------------------------------

  /** `expect_ident(expected)?`, panicking at the end of the stream. */
  function IdentStep(p: Parser, expected: Option<string>): (r: Parsed<string>)
    ensures r == Failed(Panicked) <==> IsEnd(p)
    ensures r.Parsed? <==> !IsEnd(p) && ExpectIdent(p, expected).0.Ok?
    ensures r.Parsed? ==> r.value == p.rest[0].name && r.next == Advance(p)
  {
    if IsEnd(p) then Failed(Panicked)
    else
      var (res, q) := ExpectIdent(p, expected);
      if res.Ok? then Parsed(res.value, q) else Failed(Rejected)
  }

  /** `expect_punctuation(expected)?`. */
  function PunctStep(p: Parser, expected: Option<char>): (r: Parsed<char>)
    ensures r == Failed(Panicked) <==> IsEnd(p)
    ensures r.Parsed? <==> !IsEnd(p) && ExpectPunctuation(p, expected).0.Ok?
    ensures r.Parsed? ==> r.value == p.rest[0].ch && r.next == Advance(p)
  {
    if IsEnd(p) then Failed(Panicked)
    else
      var (res, q) := ExpectPunctuation(p, expected);
      if res.Ok? then Parsed(res.value, q) else Failed(Rejected)
  }

  /** `expect_string()?`. */
  function StringStep(p: Parser): (r: Parsed<string>)
    ensures r == Failed(Panicked) <==> IsEnd(p)
    ensures r.Parsed? <==> !IsEnd(p) && ExpectString(p).0.Ok?
    ensures r.Parsed? ==> "\"" + r.value + "\"" == p.rest[0].text && r.next == Advance(p)
  {
    if IsEnd(p) then Failed(Panicked)
    else
      var (res, q) := ExpectString(p);
      if res.Ok? then Parsed(res.value, q) else Failed(Rejected)
  }

  /** `expect_group()?`. */
  function GroupStep(p: Parser): (r: Parsed<TokenTree>)
    ensures r == Failed(Panicked) <==> IsEnd(p)
    ensures r.Parsed? <==> IsGroup(p)
    ensures r.Parsed? ==> r.value == p.rest[0] && r.value.Group? && r.next == Advance(p)
  {
    if IsEnd(p) then Failed(Panicked)
    else
      var (res, q) := ExpectGroup(p);
      if res.Ok? then Parsed(res.value, q) else Failed(Rejected)
  }
}
