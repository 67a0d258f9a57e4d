/**
 * The string helpers of code_cpp/src/SimpleJSON.h: escaping text for a
 * JSON string literal (the escapes of section 7 of RFC 8259) and the naive
 * inverse that strips the quotes and undoes the common escapes.
 */
module Json {

  const QUOTE: char := '"'
  const BACKSLASH: char := '\\'
  const BACKSPACE: char := '\U{0008}'
  const FORM_FEED: char := '\U{000C}'

  /** A character below U+0020, which a JSON string may not hold raw. */
  predicate IsControl(c: char) {
    c < ' '
  }

  /** The lower-case hex digit of d. */
  function HexDigit(d: nat): (h: char)
    requires d < 16
    ensures !IsControl(h)
  {
    if d < 10 then (('0' as int) + d) as char else (('a' as int) + d - 10) as char
  }

  /** The value of a lower-case hex digit; the inverse of HexDigit. */
  function HexValue(h: char): (d: nat)
    requires '0' <= h <= '9' || 'a' <= h <= 'f'
    ensures d < 16 && HexDigit(d) == h
  {
    if h <= '9' then h as int - '0' as int else h as int - 'a' as int + 10
  }

  /** The text written for one character. */
  function EscapeChar(c: char): string {
    if c == QUOTE then "\\\""
    else if c == BACKSLASH then "\\\\"
    else if c == BACKSPACE then "\\b"
    else if c == FORM_FEED then "\\f"
    else if c == '\n' then "\\n"
    else if c == '\r' then "\\r"
    else if c == '\t' then "\\t"
    else if IsControl(c) then "\\u00" + [HexDigit(c as int / 16), HexDigit(c as int % 16)]
    else [c]
  }

  /** The escaped text: each character replaced by its escape. */
  function Escaped(s: string): string {
    if |s| == 0 then "" else EscapeChar(s[0]) + Escaped(s[1..])
  }

  /** What a backslash followed by n decodes to: the five common escapes, otherwise n itself. */
  function Unescape(n: char): char {
    if n == 'n' then '\n'
    else if n == 'r' then '\r'
    else if n == 't' then '\t'
    else n
  }

  /**
   * The text between the quotes, decoded left to right: a backslash with a
   * character after it is an escape; a backslash at the very end stays.
   */
  function Decode(body: string): string
    decreases |body|
  {
    if |body| == 0 then ""
    else if body[0] == BACKSLASH && |body| >= 2 then [Unescape(body[1])] + Decode(body[2..])
    else [body[0]] + Decode(body[1..])
  }

  predicate IsQuoted(s: string) {
    |s| >= 2 && s[0] == QUOTE && s[|s| - 1] == QUOTE
  }

  /** The decoded inside of a quoted text; any other text unchanged. */
  function Unquoted(s: string): string {
    if IsQuoted(s) then Decode(s[1..|s| - 1]) else s
  }

  // ---------------------------------------------------------------------
  // The two loops
  // ---------------------------------------------------------------------

  /** escapeJsonString: appends the escape of each character in turn. */
  method EscapeJsonString(input: string) returns (out: string)
    ensures out == Escaped(input)
  {
    out := "";
    for i := 0 to |input|
      invariant out == Escaped(input[..i])
    {
      EscapedAppend(input[..i], [input[i]]);
      assert input[..i + 1] == input[..i] + [input[i]];
      var c := input[i];
      if c == QUOTE {
        out := out + "\\\"";
      } else if c == BACKSLASH {
        out := out + "\\\\";
      } else if c == BACKSPACE {
        out := out + "\\b";
      } else if c == FORM_FEED {
        out := out + "\\f";
      } else if c == '\n' {
        out := out + "\\n";
      } else if c == '\r' {
        out := out + "\\r";
      } else if c == '\t' {
        out := out + "\\t";
      } else if IsControl(c) {
        out := out + "\\u00" + [HexDigit(c as int / 16), HexDigit(c as int % 16)];
      } else {
        out := out + [c];
      }
    }
    assert input[..|input|] == input;
  }

  /** unquote: walks the inside of a quoted text, consuming two characters at an escape. */
  method Unquote(s: string) returns (out: string)
    ensures out == Unquoted(s)
    ensures !IsQuoted(s) ==> out == s
    ensures IsQuoted(s) ==> |out| <= |s| - 2
  {
    if !IsQuoted(s) {
      return s;
    }
    out := "";
    ghost var body := s[1..|s| - 1];
    var i := 1;
    while i + 1 < |s|
      invariant 1 <= i <= |s| - 1
      invariant out + Decode(body[i - 1..]) == Decode(body)
      decreases |s| - i
    {
      ghost var rest := body[i - 1..];
      assert rest[0] == s[i];
      var c := s[i];
      if c == BACKSLASH && i + 1 < |s| - 1 {
        assert rest[1] == s[i + 1] && rest[2..] == body[i + 1..];
        assert Decode(rest) == [Unescape(rest[1])] + Decode(body[i + 1..]);
        i := i + 1;
        var n := s[i];
        assert out + [Unescape(n)] + Decode(body[i..]) == out + Decode(rest);
        out := out + [Unescape(n)];
      } else {
        assert rest[1..] == body[i..];
        assert Decode(rest) == [c] + Decode(body[i..]);
        assert out + [c] + Decode(body[i..]) == out + Decode(rest);
        out := out + [c];
      }
      i := i + 1;
    }
    DecodeNotLonger(s[1..|s| - 1]);
  }

  // ---------------------------------------------------------------------
  // Properties of the escaper
  // ---------------------------------------------------------------------

  lemma {:induction false} EscapedAppend(a: string, b: string)
    ensures Escaped(a + b) == Escaped(a) + Escaped(b)
  {
    if |a| == 0 {
      assert a + b == b;
    } else {
      assert (a + b)[1..] == a[1..] + b;
      EscapedAppend(a[1..], b);
    }
  }

  lemma EscapeCharSpec(c: char)
    ensures |EscapeChar(c)| >= 1
    ensures forall k :: 0 <= k < |EscapeChar(c)| ==> !IsControl(EscapeChar(c)[k])
    ensures EscapeChar(c) == [c] <==> !IsControl(c) && c != QUOTE && c != BACKSLASH
  {
  }

  /** The escaped text holds no raw control character. */
  lemma {:induction false} EscapedHasNoControl(s: string)
    ensures forall k :: 0 <= k < |Escaped(s)| ==> !IsControl(Escaped(s)[k])
  {
    if |s| > 0 {
      EscapeCharSpec(s[0]);
      EscapedHasNoControl(s[1..]);
      var e, r := EscapeChar(s[0]), Escaped(s[1..]);
      forall k | 0 <= k < |e + r|
        ensures !IsControl((e + r)[k])
      {
        if k >= |e| {
          assert (e + r)[k] == r[k - |e|];
        }
      }
    }
  }

  /**
   * A control character other than the five with a short escape is written
   * as \u00 and two hex digits whose value in base 16 is its code.
   */
  lemma HexEscapeEncodesCode(c: char)
    requires IsControl(c)
    requires c != BACKSPACE && c != FORM_FEED && c != '\n' && c != '\r' && c != '\t'
    ensures |EscapeChar(c)| == 6 && EscapeChar(c)[..4] == "\\u00"
    ensures var hi, lo := EscapeChar(c)[4], EscapeChar(c)[5];
      && ('0' <= hi <= '9' || 'a' <= hi <= 'f')
      && ('0' <= lo <= '9' || 'a' <= lo <= 'f')
      && HexValue(hi) * 16 + HexValue(lo) == c as int
  {
    var e := EscapeChar(c);
    var hi, lo := HexDigit(c as int / 16), HexDigit(c as int % 16);
    assert e == "\\u00" + [hi, lo];
    assert e[4] == hi && e[5] == lo;
  }

  /** Escaping never shortens the text. */
  lemma {:induction false} EscapedNotShorter(s: string)
    ensures |Escaped(s)| >= |s|
  {
    if |s| > 0 {
      EscapeCharSpec(s[0]);
      EscapedNotShorter(s[1..]);
    }
  }

  /** Text with no quote, backslash or control character is its own escape. */
  lemma {:induction false} EscapedPlain(s: string)
    requires forall k :: 0 <= k < |s| ==> !IsControl(s[k]) && s[k] != QUOTE && s[k] != BACKSLASH
    ensures Escaped(s) == s
  {
    if |s| > 0 {
      EscapeCharSpec(s[0]);
      EscapedPlain(s[1..]);
    }
  }

  // ---------------------------------------------------------------------
  // Properties of the unquoter, and the round trip
  // ---------------------------------------------------------------------

  /** Decoding never lengthens the text. */
  lemma {:induction false} DecodeNotLonger(body: string)
    ensures |Decode(body)| <= |body|
    decreases |body|
  {
    if |body| >= 2 && body[0] == BACKSLASH {
      DecodeNotLonger(body[2..]);
    } else if |body| > 0 {
      DecodeNotLonger(body[1..]);
    }
  }

  /** The control characters the unquoter brings back: newline, carriage return and tab. */
  predicate RoundTrips(c: char) {
    !IsControl(c) || c == '\n' || c == '\r' || c == '\t'
  }

  lemma DecodeEscapeChar(c: char, rest: string)
    requires RoundTrips(c)
    ensures Decode(EscapeChar(c) + rest) == [c] + Decode(rest)
  {
    var e := EscapeChar(c);
    if |e| == 2 {
      assert (e + rest)[2..] == rest;
    } else {
      assert (e + rest)[1..] == rest;
    }
  }

  lemma {:induction false} DecodeEscaped(s: string)
    requires forall k :: 0 <= k < |s| ==> RoundTrips(s[k])
    ensures Decode(Escaped(s)) == s
  {
    if |s| > 0 {
      DecodeEscaped(s[1..]);
      DecodeEscapeChar(s[0], Escaped(s[1..]));
    }
  }

  /** Quoting the escape of a text and unquoting it gives the text back, for the control characters unquote knows. */
  lemma EscapeUnquoteRoundTrip(s: string)
    requires forall k :: 0 <= k < |s| ==> RoundTrips(s[k])
    ensures Unquoted([QUOTE] + Escaped(s) + [QUOTE]) == s
  {
    var q := [QUOTE] + Escaped(s) + [QUOTE];
    assert q[1..|q| - 1] == Escaped(s);
    DecodeEscaped(s);
  }

  /** A backspace is written as \b, which unquote reads back as the letter b. */
  lemma BackspaceDoesNotRoundTrip()
    ensures Unquoted([QUOTE] + Escaped([BACKSPACE]) + [QUOTE]) == "b"
  {
    var q := [QUOTE] + Escaped([BACKSPACE]) + [QUOTE];
    assert Escaped([BACKSPACE]) == "\\b";
    assert q[1..|q| - 1] == "\\b";
    assert Decode("\\b") == [Unescape('b')] + Decode("");
  }

  /** A form feed is written as \f, which unquote reads back as the letter f. */
  lemma FormFeedDoesNotRoundTrip()
    ensures Unquoted([QUOTE] + Escaped([FORM_FEED]) + [QUOTE]) == "f"
  {
    var q := [QUOTE] + Escaped([FORM_FEED]) + [QUOTE];
    assert Escaped([FORM_FEED]) == "\\f";
    assert q[1..|q| - 1] == "\\f";
    assert Decode("\\f") == [Unescape('f')] + Decode("");
  }

  /** U+0001 is written as \u0001, which unquote reads back as "u0001". */
  lemma UnicodeEscapeDoesNotRoundTrip()
    ensures Unquoted([QUOTE] + Escaped(['\U{0001}']) + [QUOTE]) == "u0001"
  {
    var q := [QUOTE] + Escaped(['\U{0001}']) + [QUOTE];
    assert Escaped(['\U{0001}']) == "\\u0001";
    assert q[1..|q| - 1] == "\\u0001";
    assert Decode("\\u0001") == "u" + Decode("0001");
    assert Decode("0001") == "0" + Decode("001");
    assert Decode("001") == "0" + Decode("01");
    assert Decode("01") == "0" + Decode("1");
  }

  /** A backslash right before the closing quote is kept as it is. */
  lemma TrailingBackslashKept(body: string)
    requires forall k :: 0 <= k < |body| ==> body[k] != BACKSLASH
    ensures Unquoted([QUOTE] + body + [BACKSLASH, QUOTE]) == body + [BACKSLASH]
  {
    var q := [QUOTE] + body + [BACKSLASH, QUOTE];
    assert q[1..|q| - 1] == body + [BACKSLASH];
    DecodePlainThenBackslash(body);
  }

  lemma {:induction false} DecodePlainThenBackslash(body: string)
    requires forall k :: 0 <= k < |body| ==> body[k] != BACKSLASH
    ensures Decode(body + [BACKSLASH]) == body + [BACKSLASH]
  {
    if |body| > 0 {
      assert (body + [BACKSLASH])[1..] == body[1..] + [BACKSLASH];
      DecodePlainThenBackslash(body[1..]);
    }
  }
}
