/** Percent-encoding as section 2.1 of RFC 3986 defines it, in the form of Python's
    `urllib.parse.quote(s)` (default `safe='/'`, UTF-8) and its inverse
    `urllib.parse.unquote_to_bytes`. */
module Urls {
  import opened Common
  import Utf8

  /** The characters `quote` never encodes: RFC 3986 unreserved characters. */
  predicate Unreserved(b: int) {
    (65 <= b <= 90) || (97 <= b <= 122) || (48 <= b <= 57) || b == 95 || b == 46 || b == 45 || b == 126
  }

  /** `quote` with its default `safe='/'` also keeps the slash. */
  predicate Safe(b: int) { Unreserved(b) || b == 47 }

  function HexDigit(n: nat): (c: char)
    requires n < 16
    ensures Unreserved(c as int)
  {
    if n < 10 then ('0' as int + n) as char else ('A' as int + n - 10) as char
  }

  /** The value of a hexadecimal digit of either case, as `unquote_to_bytes` reads it. */
  function HexValue(b: byte): Option<nat> {
    if 48 <= b <= 57 then Some(b as nat - 48)
    else if 65 <= b <= 70 then Some(b as nat - 55)
    else if 97 <= b <= 102 then Some(b as nat - 87)
    else None
  }

  lemma HexDigitValue(n: nat)
    requires n < 16
    ensures HexDigit(n) as int < 256 && HexValue(HexDigit(n) as int as byte) == Some(n)
  {
  }

  /** How `quote` writes one byte: itself when safe, `%XX` in upper-case hex otherwise. */
  function QuoteByte(b: byte): (r: string)
    ensures |r| == 1 || |r| == 3
    ensures |r| == 1 <==> Safe(b as int)
  {
    if Safe(b as int) then [b as int as char]
    else ['%', HexDigit(b as nat / 16), HexDigit(b as nat % 16)]
  }

  function QuoteBytes(bs: seq<byte>): string
    decreases |bs|
  {
    if bs == [] then [] else QuoteByte(bs[0]) + QuoteBytes(bs[1..])
  }

  /** Python `urllib.parse.quote(s)`. */
  function Quote(s: string): string {
    QuoteBytes(Utf8.Encode(s))
  }

  /** Python `urllib.parse.unquote_to_bytes` on bytes: `%` and two hex digits stand for a
      byte; any other byte, including a `%` not followed by two hex digits, stands for itself. */
  function UnquoteBytes(bs: seq<byte>): seq<byte>
    decreases |bs|
  {
    if bs == [] then []
    else if bs[0] == 37 && |bs| >= 3 && HexValue(bs[1]).Some? && HexValue(bs[2]).Some? then
      [(HexValue(bs[1]).value * 16 + HexValue(bs[2]).value) as byte] + UnquoteBytes(bs[3..])
    else [bs[0]] + UnquoteBytes(bs[1..])
  }

  /** Python `urllib.parse.unquote_to_bytes(s)` for a `str`: encode it, then decode escapes. */
  function Unquote(s: string): seq<byte> {
    UnquoteBytes(Utf8.Encode(s))
  }

  /** A character that may appear in the output of `quote`. */
  predicate QuotedChar(c: char) { Safe(c as int) || c == '%' }

  /** `quote` output consists only of unreserved characters, `/` and `%`: no `&`, `=`, `?`,
      `#`, `+` or space, so a quoted value cannot end or add a query parameter. */
  lemma {:induction false} QuoteAlphabet(bs: seq<byte>)
    ensures forall i :: 0 <= i < |QuoteBytes(bs)| ==> QuotedChar(QuoteBytes(bs)[i])
  {
    if bs != [] {
      QuoteAlphabet(bs[1..]);
      var q := QuoteByte(bs[0]);
      assert QuoteBytes(bs) == q + QuoteBytes(bs[1..]);
      assert forall i :: 0 <= i < |q| ==> QuotedChar(q[i]);
    }
  }

  lemma QuoteStringAlphabet(s: string)
    ensures forall i :: 0 <= i < |Quote(s)| ==> QuotedChar(Quote(s)[i])
  {
    QuoteAlphabet(Utf8.Encode(s));
  }

  lemma QuoteIsAscii(s: string)
    ensures Utf8.IsAscii(Quote(s))
  {
    QuoteStringAlphabet(s);
  }

  /** Decoding the encoding of a quoted byte gives the byte back, whatever follows. */
  lemma UnquoteQuoteByte(b: byte, rest: seq<byte>)
    ensures UnquoteBytes(Utf8.Encode(QuoteByte(b)) + rest) == [b] + UnquoteBytes(rest)
  {
    var q := QuoteByte(b);
    Utf8.EncodeAscii(q);
    var e := Utf8.Encode(q);
    var s := e + rest;
    if Safe(b as int) {
      assert e == [b];
      assert s[1..] == rest;
    } else {
      HexDigitValue(b as nat / 16);
      HexDigitValue(b as nat % 16);
      assert e[0] == 37;
      assert e[1] == HexDigit(b as nat / 16) as int as byte;
      assert e[2] == HexDigit(b as nat % 16) as int as byte;
      assert s[3..] == rest;
    }
  }

  /** Percent-decoding undoes quoting, byte for byte. */
  lemma {:induction false} UnquoteQuoteBytes(bs: seq<byte>)
    ensures UnquoteBytes(Utf8.Encode(QuoteBytes(bs))) == bs
  {
    if bs != [] {
      Utf8.EncodeAppend(QuoteByte(bs[0]), QuoteBytes(bs[1..]));
      UnquoteQuoteByte(bs[0], Utf8.Encode(QuoteBytes(bs[1..])));
      UnquoteQuoteBytes(bs[1..]);
    }
  }

  /** The round trip of RFC 3986 percent-encoding: `unquote_to_bytes(quote(s))` is the UTF-8
      encoding of `s`. */
  lemma QuoteRoundTrip(s: string)
    ensures Unquote(Quote(s)) == Utf8.Encode(s)
  {
    UnquoteQuoteBytes(Utf8.Encode(s));
  }

  /** A string of safe ASCII characters is left unchanged by `quote`. */
  lemma {:induction false} QuoteKeepsSafe(s: string)
    requires forall i :: 0 <= i < |s| ==> Safe(s[i] as int)
    ensures Quote(s) == s
  {
    if s != [] {
      QuoteKeepsSafe(s[1..]);
      Utf8.EncodeAscii([s[0]]);
      assert Utf8.Encode(s) == Utf8.EncodeChar(s[0]) + Utf8.Encode(s[1..]);
    }
  }
}
