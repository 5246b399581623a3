/** UTF-8 as Python's strict codec uses it (RFC 3629): `str.encode("utf-8")` and the test
    that `bytes.decode("utf-8")` applies before it accepts its input. */
module Utf8 {
  import opened Common

  predicate Tail(b: byte) { 0x80 <= b <= 0xBF }

  /** Well-formed UTF-8 per the syntax of section 4 of RFC 3629: no overlong forms, no
      surrogates, nothing above U+10FFFF. Exactly the inputs Python's strict decoder accepts. */
  predicate Valid(bs: seq<byte>)
    decreases |bs|
  {
    if bs == [] then true
    else if bs[0] < 0x80 then Valid(bs[1..])
    else if 0xC2 <= bs[0] <= 0xDF then
      |bs| >= 2 && Tail(bs[1]) && Valid(bs[2..])
    else if bs[0] == 0xE0 then
      |bs| >= 3 && 0xA0 <= bs[1] <= 0xBF && Tail(bs[2]) && Valid(bs[3..])
    else if (0xE1 <= bs[0] <= 0xEC) || (0xEE <= bs[0] <= 0xEF) then
      |bs| >= 3 && Tail(bs[1]) && Tail(bs[2]) && Valid(bs[3..])
    else if bs[0] == 0xED then
      |bs| >= 3 && 0x80 <= bs[1] <= 0x9F && Tail(bs[2]) && Valid(bs[3..])
    else if bs[0] == 0xF0 then
      |bs| >= 4 && 0x90 <= bs[1] <= 0xBF && Tail(bs[2]) && Tail(bs[3]) && Valid(bs[4..])
    else if 0xF1 <= bs[0] <= 0xF3 then
      |bs| >= 4 && Tail(bs[1]) && Tail(bs[2]) && Tail(bs[3]) && Valid(bs[4..])
    else if bs[0] == 0xF4 then
      |bs| >= 4 && 0x80 <= bs[1] <= 0x8F && Tail(bs[2]) && Tail(bs[3]) && Valid(bs[4..])
    else false
  }

  /** The UTF-8 encoding of one Unicode scalar value. */
  function EncodeChar(c: char): (r: seq<byte>)
    ensures 1 <= |r| <= 4
    ensures (c as int < 0x80) <==> |r| == 1
    ensures |r| == 1 ==> r[0] as int == c as int
  {
    var n := c as int;
    if n < 0x80 then [n as byte]
    else if n < 0x800 then [(0xC0 + n / 0x40) as byte, (0x80 + n % 0x40) as byte]
    else if n < 0x10000 then
      [(0xE0 + n / 0x1000) as byte, (0x80 + (n / 0x40) % 0x40) as byte, (0x80 + n % 0x40) as byte]
    else
      [(0xF0 + n / 0x40000) as byte, (0x80 + (n / 0x1000) % 0x40) as byte,
       (0x80 + (n / 0x40) % 0x40) as byte, (0x80 + n % 0x40) as byte]
  }

  /** Python `s.encode("utf-8")`. */
  function Encode(s: string): (r: seq<byte>)
    ensures |s| <= |r| <= 4 * |s|
  {
    if s == [] then [] else EncodeChar(s[0]) + Encode(s[1..])
  }

  /** Every byte below 0x80 stands for itself: encoding a string of such characters gives
      their codes. */
  predicate IsAscii(s: string) {
    forall i :: 0 <= i < |s| ==> s[i] as int < 0x80
  }

  lemma {:induction false} EncodeAscii(s: string)
    requires IsAscii(s)
    ensures |Encode(s)| == |s|
    ensures forall i :: 0 <= i < |s| ==> Encode(s)[i] as int == s[i] as int
  {
    if s != [] {
      EncodeAscii(s[1..]);
    }
  }

  lemma {:induction false} EncodeAppend(a: string, b: string)
    ensures Encode(a + b) == Encode(a) + Encode(b)
  {
    if a == [] {
      assert a + b == b;
    } else {
      assert (a + b)[1..] == a[1..] + b;
      EncodeAppend(a[1..], b);
    }
  }

  /** One encoded character followed by valid UTF-8 is valid UTF-8. */
  lemma EncodeCharValid(c: char, rest: seq<byte>)
    requires Valid(rest)
    ensures Valid(EncodeChar(c) + rest)
  {
    var n := c as int;
    var e := EncodeChar(c);
    var s := e + rest;
    assert s[|e|..] == rest;
    if n < 0x80 {
    } else if n < 0x800 {
      assert 2 <= n / 0x40 < 0x20;
    } else if n < 0x10000 {
      assert 0xD800 > n || n >= 0xE000;
      if n < 0x1000 {
        assert n / 0x1000 == 0;
        assert 0x20 <= (n / 0x40) % 0x40;
      } else if n / 0x1000 == 0xD {
        assert n < 0xD800;
        assert (n / 0x40) % 0x40 < 0x20;
      }
    } else {
      assert 0x10000 <= n < 0x110000;
      assert 0 <= n / 0x40000 <= 4;
      if n / 0x40000 == 0 {
        assert 0x10 <= (n / 0x1000) % 0x40;
      } else if n / 0x40000 == 4 {
        assert (n / 0x1000) % 0x40 < 0x10;
      }
    }
  }

  /** Whatever `str.encode("utf-8")` produces, the strict decoder accepts. */
  lemma {:induction false} EncodeValid(s: string)
    ensures Valid(Encode(s))
  {
    if s != [] {
      EncodeValid(s[1..]);
      EncodeCharValid(s[0], Encode(s[1..]));
    }
  }

  /** Bytes below 0x80 are always a valid sequence on their own. */
  lemma {:induction false} AsciiBytesValid(bs: seq<byte>)
    requires forall i :: 0 <= i < |bs| ==> bs[i] < 0x80
    ensures Valid(bs)
  {
    if bs != [] {
      AsciiBytesValid(bs[1..]);
    }
  }
}
