/** String helpers that the Rust source takes from `std`: splitting on a
    character, joining with a separator, trimming, prefix tests, unsigned decimal
    parsing and printing, and ASCII case mapping. */
module Text {
  import opened Wrappers

  /** `str::starts_with`. */
  predicate StartsWith(s: string, prefix: string) {
    |prefix| <= |s| && s[..|prefix|] == prefix
  }

  /** `str::split(c)`: the pieces between occurrences of `c`; always at least one
      piece, and an empty string gives one empty piece. */
  function Split(s: string, c: char): (r: seq<string>)
    ensures |r| >= 1
    ensures forall i :: 0 <= i < |r| ==> c !in r[i]
    decreases |s|
  {
    if |s| == 0 then [""]
    else
      var rest := Split(s[1..], c);
      if s[0] == c then [""] + rest
      else [[s[0]] + rest[0]] + rest[1..]
  }

  /** `[String]::join(sep)`. */
  function Join(parts: seq<string>, sep: string): string
    decreases |parts|
  {
    if |parts| == 0 then ""
    else if |parts| == 1 then parts[0]
    else parts[0] + sep + Join(parts[1..], sep)
  }

  /** Concatenation without separator, `join("")`. */
  function Concat(parts: seq<string>): (r: string)
    ensures Join(parts, "") == r
    decreases |parts|
  {
    if |parts| == 0 then ""
    else if |parts| == 1 then parts[0]
    else parts[0] + Concat(parts[1..])
  }

  lemma {:induction false} ConcatLength(parts: seq<string>)
    ensures |Concat(parts)| == SumLengths(parts)
    decreases |parts|
  {
    if |parts| > 1 {
      ConcatLength(parts[1..]);
    }
  }

  function SumLengths(parts: seq<string>): nat
    decreases |parts|
  {
    if |parts| == 0 then 0 else |parts[0]| + SumLengths(parts[1..])
  }

  lemma {:induction false} ConcatMembership(parts: seq<string>, c: char)
    ensures c in Concat(parts) <==> exists i :: 0 <= i < |parts| && c in parts[i]
    decreases |parts|
  {
    if |parts| > 1 {
      ConcatMembership(parts[1..], c);
      assert forall i :: 1 <= i < |parts| ==> parts[i] == parts[1..][i - 1];
      if c in Concat(parts[1..]) {
        var j :| 0 <= j < |parts[1..]| && c in parts[1..][j];
        assert c in parts[j + 1];
      }
    }
  }

  /** Joining the pieces of a split with the split character gives back the
      original string. */
  lemma {:induction false} JoinSplit(s: string, c: char)
    ensures Join(Split(s, c), [c]) == s
    decreases |s|
  {
    if |s| > 0 {
      var rest := Split(s[1..], c);
      JoinSplit(s[1..], c);
      if s[0] == c {
        assert Split(s, c) == [""] + rest;
        assert ([""] + rest)[1..] == rest;
      } else {
        var r := Split(s, c);
        assert r == [[s[0]] + rest[0]] + rest[1..];
        if |rest| == 1 {
          assert s == [s[0]] + s[1..];
        } else {
          assert r[1..] == rest[1..];
          assert Join(rest, [c]) == rest[0] + [c] + Join(rest[1..], [c]);
          assert s == [s[0]] + s[1..];
        }
      }
    }
  }

  lemma {:induction false} SplitNoSeparator(p: string, c: char)
    requires c !in p
    ensures Split(p, c) == [p]
    decreases |p|
  {
    if |p| > 0 {
      assert c !in p[1..];
      SplitNoSeparator(p[1..], c);
      assert [p[0]] + p[1..] == p;
    }
  }

  lemma {:induction false} SplitAfterPiece(p: string, c: char, rest: string)
    requires c !in p
    ensures Split(p + [c] + rest, c) == [p] + Split(rest, c)
    decreases |p|
  {
    var s := p + [c] + rest;
    if |p| == 0 {
      assert s[0] == c && s[1..] == rest;
    } else {
      assert s[0] == p[0];
      assert s[1..] == p[1..] + [c] + rest;
      assert c !in p[1..];
      SplitAfterPiece(p[1..], c, rest);
      assert [p[0]] + p[1..] == p;
    }
  }

  /** Splitting a join of separator-free pieces gives back the pieces. */
  lemma {:induction false} SplitJoin(parts: seq<string>, c: char)
    requires |parts| >= 1
    requires forall i :: 0 <= i < |parts| ==> c !in parts[i]
    ensures Split(Join(parts, [c]), c) == parts
    decreases |parts|
  {
    if |parts| == 1 {
      SplitNoSeparator(parts[0], c);
    } else {
      SplitJoin(parts[1..], c);
      SplitAfterPiece(parts[0], c, Join(parts[1..], [c]));
      assert [parts[0]] + parts[1..] == parts;
    }
  }

  /** The whitespace `str::trim` removes: the characters with the Unicode
      `White_Space` property. */
  predicate IsWhitespace(c: char) {
    '\t' <= c <= '\r' || c == ' ' || c == '\U{85}' || c == '\U{A0}' || c == '\U{1680}'
    || '\U{2000}' <= c <= '\U{200A}' || c == '\U{2028}' || c == '\U{2029}' || c == '\U{202F}'
    || c == '\U{205F}' || c == '\U{3000}'
  }

  /** `str::trim_start`: drops the leading whitespace. */
  function TrimStart(s: string): (r: string)
    ensures |r| <= |s| && r == s[|s| - |r|..]
    ensures forall k :: 0 <= k < |s| - |r| ==> IsWhitespace(s[k])
    ensures |r| > 0 ==> !IsWhitespace(r[0])
    decreases |s|
  {
    if |s| > 0 && IsWhitespace(s[0]) then TrimStart(s[1..]) else s
  }

  /** `str::trim_end`: drops the trailing whitespace. */
  function TrimEnd(s: string): (r: string)
    ensures |r| <= |s| && r == s[..|r|]
    ensures forall k :: |r| <= k < |s| ==> IsWhitespace(s[k])
    ensures |r| > 0 ==> !IsWhitespace(r[|r| - 1])
    decreases |s|
  {
    if |s| > 0 && IsWhitespace(s[|s| - 1]) then TrimEnd(s[..|s| - 1]) else s
  }

  /** `str::trim`. */
  function Trim(s: string): string {
    TrimEnd(TrimStart(s))
  }

  /** `str::trim` removes Unicode spaces too: a no-break space before `a`
      and an ideographic space after it both go. */
  lemma TrimNoBreakSpace()
    ensures Trim("\U{A0}a\U{3000}") == "a"
  {
    var s := "\U{A0}a\U{3000}";
    assert IsWhitespace(s[0]) && !IsWhitespace(s[1]);
    assert TrimStart(s) == s[1..];
    assert IsWhitespace(s[1..][1]);
    assert TrimEnd(s[1..]) == "a";
  }

  /** A string with no whitespace at either end. */
  predicate IsTrimmed(s: string) {
    |s| == 0 || (!IsWhitespace(s[0]) && !IsWhitespace(s[|s| - 1]))
  }

  /** `trim` leaves its result trimmed, and leaves a trimmed string unchanged. */
  lemma TrimProperties(s: string)
    ensures IsTrimmed(Trim(s))
    ensures IsTrimmed(s) ==> Trim(s) == s
  {
    var t := TrimStart(s);
    if |Trim(s)| > 0 {
      assert Trim(s) == t[..|Trim(s)|];
    }
  }

  predicate IsDigit(c: char) {
    '0' <= c <= '9'
  }

  function DigitValue(c: char): (d: nat)
    requires IsDigit(c)
    ensures d < 10
  {
    c as int - '0' as int
  }

  function DigitChar(d: nat): (c: char)
    requires d < 10
    ensures IsDigit(c) && DigitValue(c) == d
  {
    ('0' as int + d) as char
  }

  predicate AllDigits(s: string) {
    forall i :: 0 <= i < |s| ==> IsDigit(s[i])
  }

  /** The number a string of decimal digits denotes. */
  function DigitsValue(s: string): nat
    requires AllDigits(s)
    decreases |s|
  {
    if |s| == 0 then 0 else 10 * DigitsValue(s[..|s| - 1]) + DigitValue(s[|s| - 1])
  }

  /** Largest value of a 64-bit `usize`. */
  const UsizeMax: nat := 0xFFFF_FFFF_FFFF_FFFF

  /** `str::parse::<usize>()` on a 64-bit target: an optional '+', then at least
      one decimal digit, the value fitting in 64 bits. */
  function ParseUsize(s: string): (r: Option<nat>)
    ensures r.Some? ==> r.value <= UsizeMax
  {
    var digits := if |s| > 0 && s[0] == '+' then s[1..] else s;
    if |digits| == 0 || !AllDigits(digits) then None
    else if DigitsValue(digits) > UsizeMax then None
    else Some(DigitsValue(digits))
  }

  /** The decimal rendering of a natural number (Rust's `Display` for integers). */
  function DecimalString(n: nat): (s: string)
    ensures |s| >= 1 && AllDigits(s)
    decreases n
  {
    if n < 10 then [DigitChar(n)] else DecimalString(n / 10) + [DigitChar(n % 10)]
  }

  lemma {:induction false} DecimalStringValue(n: nat)
    ensures DigitsValue(DecimalString(n)) == n
    decreases n
  {
    var s := DecimalString(n);
    if n >= 10 {
      DecimalStringValue(n / 10);
      assert s[..|s| - 1] == DecimalString(n / 10);
    }
  }

  /** Printing a `usize` and parsing it back gives the same number. */
  lemma ParsePrintedUsize(n: nat)
    requires n <= UsizeMax
    ensures ParseUsize(DecimalString(n)) == Some(n)
  {
    DecimalStringValue(n);
  }

  /** `str::parse` for a signed integer type whose values run from `min` to
      `max`: an optional '+' or '-', then at least one decimal digit, the value
      within range. */
  function ParseSigned(s: string, min: int, max: int): (r: Option<int>)
    requires min <= 0 <= max
    ensures r.Some? ==> min <= r.value <= max
  {
    if |s| > 0 && s[0] == '-' then
      var digits := s[1..];
      if |digits| == 0 || !AllDigits(digits) then None
      else
        var v: int := 0 - DigitsValue(digits);
        if v < min then None else Some(v)
    else
      var digits := if |s| > 0 && s[0] == '+' then s[1..] else s;
      if |digits| == 0 || !AllDigits(digits) || DigitsValue(digits) > max then None
      else Some(DigitsValue(digits))
  }

  /** Printing an in-range integer, with a '-' for a negative one, and parsing
      it back gives the same number. */
  lemma ParsePrintedSigned(n: int, min: int, max: int)
    requires min <= 0 <= max && min <= n <= max
    ensures n >= 0 ==> ParseSigned(DecimalString(n), min, max) == Some(n)
    ensures n < 0 ==> ParseSigned("-" + DecimalString(-n), min, max) == Some(n)
  {
    if n >= 0 {
      DecimalStringValue(n);
    } else {
      DecimalStringValue(-n);
      assert ("-" + DecimalString(-n))[1..] == DecimalString(-n);
    }
  }

  predicate IsAsciiLower(c: char) {
    'a' <= c <= 'z'
  }

  predicate IsAsciiUpper(c: char) {
    'A' <= c <= 'Z'
  }

  /** `char::is_alphanumeric`, restricted to ASCII letters and digits. */
  predicate IsAlphanumeric(c: char) {
    IsAsciiLower(c) || IsAsciiUpper(c) || IsDigit(c)
  }

  /** `char::to_uppercase` on ASCII: lower-case letters move to upper case,
      every other character is unchanged. */
  function ToUpper(c: char): (u: char)
    ensures IsAsciiLower(c) ==> IsAsciiUpper(u) && u as int == c as int - 32
    ensures !IsAsciiLower(c) ==> u == c
  {
    if IsAsciiLower(c) then (c as int - 32) as char else c
  }
}
