/** Percent-decoding as `urllib.parse.unquote` and `unquote_plus` do it (the decoding that
    `requests.utils.unquote` and `parse_qs` apply), and `quote_plus` as its reference inverse.

    A decoded escape `%XX` is a byte; this model turns it into the character with the same
    code, which is what UTF-8 decoding gives for the bytes below 0x80. */
module Percent {
  import opened Strings

  predicate IsHexDigit(c: char) {
    '0' <= c <= '9' || 'a' <= c <= 'f' || 'A' <= c <= 'F'
  }

  function HexValue(c: char): (v: nat)
    requires IsHexDigit(c)
    ensures v < 16
  {
    if '0' <= c <= '9' then c as int - '0' as int
    else if 'a' <= c <= 'f' then c as int - 'a' as int + 10
    else c as int - 'A' as int + 10
  }

  /** The upper-case hexadecimal digit `quote` writes for `v`. */
  function HexDigit(v: nat): (c: char)
    requires v < 16
    ensures IsHexDigit(c) && HexValue(c) == v
  {
    if v < 10 then ('0' as int + v) as char else ('A' as int + v - 10) as char
  }

  /** `%XX` with two hexadecimal digits at the start of `s`. */
  predicate EscapeAt(s: string) {
    |s| >= 3 && s[0] == '%' && IsHexDigit(s[1]) && IsHexDigit(s[2])
  }

  /** `unquote(s)`: every `%XX` with two hexadecimal digits (either case) becomes the character
      with that code; a `%` not followed by two hexadecimal digits stays as it is. */
  function Unquote(s: string): (r: string)
    ensures |r| <= |s|
    ensures |s| > 0 ==> |r| > 0
    ensures '%' !in s ==> r == s
    decreases |s|
  {
    if |s| == 0 then ""
    else if EscapeAt(s) then [(16 * HexValue(s[1]) + HexValue(s[2])) as char] + Unquote(s[3..])
    else [s[0]] + Unquote(s[1..])
  }

  /** An escape at the start, with hexadecimal digits of either case, decodes to the one
      character with that code. */
  lemma UnquoteEscape(s: string)
    requires EscapeAt(s)
    ensures Unquote(s) == [(16 * HexValue(s[1]) + HexValue(s[2])) as char] + Unquote(s[3..])
  {
  }

  /** A `%` not followed by two hexadecimal digits is kept as it is. */
  lemma UnquoteLonePercent(s: string)
    requires |s| > 0 && s[0] == '%' && !EscapeAt(s)
    ensures Unquote(s) == "%" + Unquote(s[1..])
  {
  }

  /** Lower-case escapes decode like upper-case ones: `%2f` and `%2F` are both `/`. */
  lemma UnquoteSlash()
    ensures Unquote("%2f") == "/" && Unquote("%2F") == "/"
    ensures Unquote("%") == "%" && Unquote("%2") == "%2" && Unquote("%zz") == "%zz"
  {
    assert "%2f"[3..] == "" && "%2F"[3..] == "";
    assert "%2"[1..] == "2" && "%2"[2..] == "";
    assert "%zz"[1..] == "zz" && "zz"[1..] == "z" && "z"[1..] == "";
  }

  /** Text without `%` passes through `unquote` unchanged, whatever follows it. */
  lemma {:induction false} UnquotePlainPrefix(a: string, b: string)
    requires '%' !in a
    ensures Unquote(a + b) == a + Unquote(b)
    decreases |a|
  {
    if |a| > 0 {
      var s := a + b;
      assert s[0] == a[0] && a[0] != '%' && s[1..] == a[1..] + b;
      assert Unquote(s) == [a[0]] + Unquote(a[1..] + b);
      UnquotePlainPrefix(a[1..], b);
      assert a == [a[0]] + a[1..];
    } else {
      assert a + b == b;
    }
  }

  /** `unquote_plus(s)`: every `+` becomes a space, then `unquote`. */
  function UnquotePlus(s: string): string {
    Unquote(ReplaceChar(s, '+', ' '))
  }

  /** Characters `quote_plus` never escapes. */
  predicate Unreserved(c: char) {
    'A' <= c <= 'Z' || 'a' <= c <= 'z' || '0' <= c <= '9' || c == '_' || c == '.' || c == '-' || c == '~'
  }

  /** Every character has a code below 256: one byte each in this model. */
  predicate IsByteText(s: string) {
    forall i :: 0 <= i < |s| ==> s[i] as int < 256
  }

  /** How `quote_plus(s, safe='')` writes one character. */
  function EncodeChar(c: char): (e: string)
    requires c as int < 256
    ensures '+' !in e || e == "+"
  {
    if c == ' ' then "+"
    else if Unreserved(c) then [c]
    else ['%', HexDigit(c as int / 16), HexDigit(c as int % 16)]
  }

  /** `quote_plus(s, safe='')`, the encoding a query value is written in. */
  function QuotePlus(s: string): (r: string)
    requires IsByteText(s)
    decreases |s|
  {
    if |s| == 0 then "" else EncodeChar(s[0]) + QuotePlus(s[1..])
  }

  lemma ReplaceCharConcat(a: string, b: string, x: char, y: char)
    ensures ReplaceChar(a + b, x, y) == ReplaceChar(a, x, y) + ReplaceChar(b, x, y)
  {
  }

  /** Decoding the encoding of one character, followed by anything, gives the character back. */
  lemma DecodeEncodedChar(c: char, rest: string)
    requires c as int < 256
    ensures Unquote(ReplaceChar(EncodeChar(c), '+', ' ') + rest) == [c] + Unquote(rest)
  {
    var e := ReplaceChar(EncodeChar(c), '+', ' ');
    if c == ' ' {
      assert e == " ";
      assert (e + rest)[1..] == rest;
    } else if Unreserved(c) {
      assert e == [c];
      assert (e + rest)[1..] == rest;
    } else {
      var hi, lo := c as int / 16, c as int % 16;
      assert e == ['%', HexDigit(hi), HexDigit(lo)];
      assert EscapeAt(e + rest);
      assert (e + rest)[3..] == rest;
      assert 16 * hi + lo == c as int;
    }
  }

  /** `unquote_plus` undoes `quote_plus`. */
  lemma {:induction false} UnquotePlusQuotePlus(s: string)
    requires IsByteText(s)
    ensures UnquotePlus(QuotePlus(s)) == s
    decreases |s|
  {
    if |s| > 0 {
      var e := EncodeChar(s[0]);
      ReplaceCharConcat(e, QuotePlus(s[1..]), '+', ' ');
      DecodeEncodedChar(s[0], ReplaceChar(QuotePlus(s[1..]), '+', ' '));
      UnquotePlusQuotePlus(s[1..]);
      assert [s[0]] + s[1..] == s;
    }
  }
}
