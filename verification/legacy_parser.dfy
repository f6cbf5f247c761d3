/** The parser of the older macro crate (`huus_macros/src/parser.rs`). Its
    `expect_group`, `expect_ident`, `expect_punctuation` and `expect_eof`
    decide exactly as the macro-support parser does (only their error carries
    nothing), so those are `TokenParser`'s. What differs is how a string
    literal is read: `strip_quotes` refuses an empty string, `expect_string`
    skips its bookkeeping when it refuses a literal, and `expect` reports a
    refused literal as `Error` and a group without its contents. */
module LegacyParser {
  import opened Wrappers
  import opened Tokens
  import opened TokenParser
  import opened ParseSteps

  /** `ExpectedTokenTree` of the older crate. */
  datatype LegacyExpected =
    | GroupToken
    | IdentToken(name: string)
    | PunctToken(ch: char)
    | StringToken(content: string)
    | EndToken
    | ErrorToken

  /** `strip_quotes`: the last character is popped and must be a quote, the
      rest must be non-empty, its first character is removed and must be a
      quote, and what remains must be non-empty again. */
  function StripQuotes(text: string): (r: Result<string, ()>)
    ensures r.Ok? <==> |text| >= 3 && text[0] == '"' && text[|text| - 1] == '"'
    ensures r.Ok? ==> text == "\"" + r.value + "\"" && |r.value| > 0
  {
    if |text| == 0 || text[|text| - 1] != '"' then Err(())
    else
      var popped := text[..|text| - 1];
      if |popped| == 0 || popped[0] != '"' then Err(())
      else
        var removed := popped[1..];
        if |removed| == 0 then Err(())
        else
          assert text == [text[0]] + removed + [text[|text| - 1]];
          Ok(removed)
  }

  /** The two crates read the same strings out of a literal, except that the
      older one refuses the empty string. */
  lemma StripQuotesAgrees(text: LiteralText)
    ensures StripQuotes(text).Ok? <==> FromLiteral(text).ExpectedString? && FromLiteral(text).content != ""
    ensures StripQuotes(text).Ok? ==> StripQuotes(text).value == FromLiteral(text).content
  {
  }

  /** `""` is a string to the newer crate and an error to the older one. */
  lemma EmptyStringRefused()
    ensures StripQuotes("\"\"").Err?
    ensures FromLiteral("\"\"") == ExpectedString("")
  {
    QuotedLiteral("");
    assert "\"" + "" + "\"" == "\"\"";
  }

  /** `expect_string`: a literal whose quotes strip. When `strip_quotes`
      refuses it the `?` leaves before `finish`, so the literal is consumed
      but `span` still reports the token before it. */
  function ExpectString(p: Parser): (r: (Result<string, ()>, Parser))
    requires !IsEnd(p)
    ensures r.0.Ok? <==> IsLiteral(p) && StripQuotes(p.rest[0].text).Ok?
    ensures r.0.Ok? ==> "\"" + r.0.value + "\"" == p.rest[0].text && r.0.value != ""
    ensures r.1.rest == p.rest[1..]
    ensures IsLiteral(p) && r.0.Err? ==> Span(r.1) == Span(p)
    ensures !(IsLiteral(p) && r.0.Err?) ==> r.1 == Advance(p)
  {
    var t := p.rest[0];
    if t.Literal? then
      match StripQuotes(t.text)
      case Ok(s) => (Ok(s), Advance(p))
      case Err(_) => (Err(()), Parser(p.prev, p.rest[1..]))
    else
      (Err(()), Advance(p))
  }

  /** The older `expect_string` accepts exactly the non-empty strings the
      newer one accepts, with the same content. */
  lemma ExpectStringAgrees(p: Parser)
    requires !IsEnd(p)
    ensures ExpectString(p).0.Ok? <==> TokenParser.ExpectString(p).0.Ok? && TokenParser.ExpectString(p).0.value != ""
    ensures ExpectString(p).0.Ok? ==> ExpectString(p).0.value == TokenParser.ExpectString(p).0.value
  {
    if IsLiteral(p) {
      StripQuotesAgrees(p.rest[0].text);
    }
  }

  /** `expect`: total; a literal whose quotes do not strip is `Error`. */
  function Expect(p: Parser): (r: (LegacyExpected, Parser))
    ensures r.1 == Advance(p)
    ensures r.0 == EndToken <==> IsEnd(p)
    ensures r.0 == GroupToken <==> IsGroup(p)
    ensures r.0.IdentToken? <==> IsIdent(p)
    ensures r.0.IdentToken? ==> r.0.name == p.rest[0].name
    ensures r.0.PunctToken? <==> !IsEnd(p) && p.rest[0].Punct?
    ensures r.0.PunctToken? ==> r.0.ch == p.rest[0].ch
    ensures r.0.StringToken? ==> IsLiteral(p) && StripQuotes(p.rest[0].text) == Ok(r.0.content)
    ensures r.0 == ErrorToken <==> IsLiteral(p) && StripQuotes(p.rest[0].text).Err?
  {
    var e := if IsEnd(p) then EndToken
             else match p.rest[0]
                  case Group(_, _, _) => GroupToken
                  case Ident(name) => IdentToken(name)
                  case Punct(c) => PunctToken(c)
                  case Literal(text) =>
                    match StripQuotes(text)
                    case Ok(s) => StringToken(s)
                    case Err(_) => ErrorToken;
    (e, Advance(p))
  }

  /** The older `expect` against the newer one: the same kinds for groups,
      idents, punctuation and the end; a non-empty string is a string to
      both; everything else the newer one reads from a literal is an error to
      the older. So `Ident`, `Punct(c)` and `EndOfStream`, the only tokens
      the grammars compare against, are told apart identically. */
  lemma ExpectAgrees(p: Parser)
    ensures Expect(p).1 == TokenParser.Expect(p).1
    ensures Expect(p).0 == EndToken <==> TokenParser.Expect(p).0.EndOfStream?
    ensures Expect(p).0 == GroupToken <==> TokenParser.Expect(p).0.ExpectedGroup?
    ensures Expect(p).0.IdentToken? <==> TokenParser.Expect(p).0.ExpectedIdent?
    ensures Expect(p).0.IdentToken? ==> Expect(p).0.name == TokenParser.Expect(p).0.name
    ensures forall c :: Expect(p).0 == PunctToken(c) <==> TokenParser.Expect(p).0.IsPunct(c)
    ensures Expect(p).0.StringToken? <==>
              TokenParser.Expect(p).0.ExpectedString? && TokenParser.Expect(p).0.content != ""
    ensures Expect(p).0.StringToken? ==> Expect(p).0.content == TokenParser.Expect(p).0.content
    ensures Expect(p).0 == ErrorToken <==>
              TokenParser.Expect(p).0.ExpectedValue? || TokenParser.Expect(p).0 == ExpectedString("")
  {
    if IsLiteral(p) {
      StripQuotesAgrees(p.rest[0].text);
    }
  }

  /** `expect_string()?` of the older crate, panicking at the end of the
      stream. */
  function StringStep(p: Parser): (r: Parsed<string>)
    ensures r == Failed(Panicked) <==> IsEnd(p)
    ensures r.Parsed? <==> !IsEnd(p) && ExpectString(p).0.Ok?
    ensures r.Parsed? ==> "\"" + r.value + "\"" == p.rest[0].text && r.value != "" && r.next == Advance(p)
  {
    if IsEnd(p) then Failed(Panicked)
    else
      var (res, q) := ExpectString(p);
      if res.Ok? then Parsed(res.value, q) else Failed(Rejected)
  }

  /** Whatever the older step reads, the newer reads the same way; the newer
      one also reads the empty string. */
  lemma StringStepNarrower(p: Parser)
    ensures StringStep(p).Parsed? ==> ParseSteps.StringStep(p) == StringStep(p)
    ensures ParseSteps.StringStep(p).Parsed? && ParseSteps.StringStep(p).value != "" ==>
              StringStep(p) == ParseSteps.StringStep(p)
    ensures ParseSteps.StringStep(p).Parsed? && ParseSteps.StringStep(p).value == "" ==> StringStep(p) == Failed(Rejected)
  {
    if !IsEnd(p) {
      ExpectStringAgrees(p);
    }
  }
}
