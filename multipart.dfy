/** The decoder of the WCS GetCoverage response body: a multipart entity in the syntax of
    section 5.1.1 of RFC 2046, whose body parts start with a header block of `Key: Value`
    lines (section 2.2 of RFC 5322) separated from their content by an empty line.
    Models `get_boundary`, `split_on_find`, `encode_with`, `header_parser` and
    `parse_response` of processing_ahn3.py. */
module Multipart {
  import opened Common
  import opened Seqs
  import Utf8

  type Bytes = seq<byte>

  const CR: byte := 13
  const LF: byte := 10
  const CRLF: Bytes := [13, 10]
  const CRLFCRLF: Bytes := [13, 10, 13, 10]
  const DashDash: Bytes := [45, 45]

  /** One decoded body part: `{"headers": CaseInsensitiveDict, "content": bytes}`. The
      headers are keyed by the lower-cased header name, as `CaseInsensitiveDict` stores them. */
  datatype Part = Part(headers: map<Bytes, Bytes>, content: Bytes)

  // ---------------------------------------------------------------- get_boundary

  /** `re.search(b"^\r\n(--.*)\r\n", response).group(1)`, or `None` when there is no match:
      the delimiter line that opens the body. `.` matches any byte except LF, so the group
      runs from the `--` after the leading CRLF to the CR of the first CRLF that ends the
      line. */
  function GetBoundary(response: Bytes): (r: Option<Bytes>)
    ensures r.Some? ==>
      && StartsWith(r.value, DashDash)
      && LF !in r.value
      && StartsWith(response, CRLF + r.value + CRLF)
  {
    if |response| >= 4 && response[..4] == CRLF + DashDash then
      var j := FindFrom(response, [LF], 4);
      if j >= 5 && response[j - 1] == CR then
        var group := response[2..j - 1];
        assert LF !in group by {
          forall k | 0 <= k < |group| ensures group[k] != LF {
            if 2 + k >= 4 {
              assert !OccursAt(response, [LF], 2 + k);
              assert response[2 + k..2 + k + 1] == [response[2 + k]];
            }
          }
        }
        assert response[j..j + 1] == [LF];
        assert group[..2] == response[2..4] == DashDash;
        assert response[..|CRLF + group + CRLF|] == CRLF + group + CRLF;
        Some(group)
      else None
    else None
  }

  /** The converse: a body that starts with CRLF, `--`, a token without line feeds and CRLF
      yields `--` and that token. */
  lemma GetBoundaryOfLine(token: Bytes, rest: Bytes)
    requires LF !in token
    ensures GetBoundary(CRLF + DashDash + token + CRLF + rest) == Some(DashDash + token)
  {
    var s := CRLF + DashDash + token + CRLF + rest;
    var e := 4 + |token| + 1;
    assert s[..4] == CRLF + DashDash;
    assert s[e] == LF && s[e - 1] == CR;
    assert OccursAt(s, [LF], e) by { assert s[e..e + 1] == [LF]; }
    forall k | 4 <= k < e
      ensures !OccursAt(s, [LF], k)
    {
      assert s[k..k + 1] == [s[k]];
      if k < e - 1 {
        assert s[k] == token[k - 4];
      }
    }
    assert FindFrom(s, [LF], 4) == e;
    assert s[2..e - 1] == DashDash + token;
  }

  // ---------------------------------------------------------------- split_on_find

  /** `split_on_find(content, bound)`: the bytes before the first occurrence of `bound` and
      the bytes after it. With no occurrence, `find` returns -1 and the Python slices give
      all but the last byte and the bytes from index `len(bound) - 1` on. */
  function SplitOnFind(content: Bytes, bound: Bytes): (r: (Bytes, Bytes))
    ensures Contains(content, bound) && |bound| > 0 ==>
      && r.0 + bound + r.1 == content
      && !Contains(r.0, bound)
  {
    var point := Find(content, bound);
    if point == -1 then
      assert |bound| > 0 by {
        if |bound| == 0 { assert OccursAt(content, bound, 0); }
      }
      var start := if |bound| - 1 <= |content| then |bound| - 1 else |content|;
      (if |content| == 0 then [] else content[..|content| - 1], content[start..])
    else
      assert content == content[..point] + bound + content[point + |bound|..] by {
        assert content[point..point + |bound|] == bound;
      }
      assert |bound| > 0 ==> !Contains(content[..point], bound) by {
        if |bound| > 0 { NoOccurrenceInPrefix(content, bound, point); }
      }
      (content[..point], content[point + |bound|..])
  }

  // ---------------------------------------------------------------- encode_with

  /** The argument of `encode_with`: `None`, a `bytes` or a `str`. */
  datatype PyText = PyNone | PyBytes(bytes: Bytes) | PyStr(text: string)

  /** `encode_with(string, "utf-8")`: a `str` is encoded, `None` and `bytes` pass unchanged. */
  function EncodeWith(v: PyText): (r: PyText)
    ensures !r.PyStr?
    ensures !v.PyStr? ==> r == v
    ensures v.PyStr? ==> r == PyBytes(Utf8.Encode(v.text)) && |v.text| <= |r.bytes| <= 4 * |v.text|
  {
    match v
    case PyStr(s) => PyBytes(Utf8.Encode(s))
    case _ => v
  }

  /** Encoding is idempotent, and the bytes it makes decode strictly. */
  lemma EncodeWithIdempotent(v: PyText)
    ensures EncodeWith(EncodeWith(v)) == EncodeWith(v)
    ensures EncodeWith(v).PyBytes? && v.PyStr? ==> Utf8.Valid(EncodeWith(v).bytes)
  {
    if v.PyStr? {
      Utf8.EncodeValid(v.text);
    }
  }

  // ---------------------------------------------------------------- header_parser

  /** `bytes.isspace()` for one byte: space, tab, LF, VT, FF, CR. */
  predicate IsSpace(b: byte) { b == 32 || (9 <= b <= 13) }

  /** The position of the first byte at or after `i` that is not white space, or `|bs|`. */
  function SpaceEnd(bs: Bytes, i: nat): (n: nat)
    requires i <= |bs|
    decreases |bs| - i
    ensures i <= n <= |bs|
    ensures forall k :: i <= k < n ==> IsSpace(bs[k])
    ensures n < |bs| ==> !IsSpace(bs[n])
  {
    if i < |bs| && IsSpace(bs[i]) then SpaceEnd(bs, i + 1) else i
  }

  /** `bytes.lstrip()`. */
  function LStrip(bs: Bytes): (r: Bytes)
    ensures |r| <= |bs| && r == bs[|bs| - |r|..]
    ensures |r| > 0 ==> !IsSpace(r[0])
    ensures forall i :: 0 <= i < |bs| - |r| ==> IsSpace(bs[i])
  {
    bs[SpaceEnd(bs, 0)..]
  }

  /** `str.lstrip(" \t")`. */
  function LStripBlank(bs: Bytes): (r: Bytes)
    decreases |bs|
    ensures |r| <= |bs| && r == bs[|bs| - |r|..]
    ensures |r| > 0 ==> r[0] != 32 && r[0] != 9
  {
    if bs != [] && (bs[0] == 32 || bs[0] == 9) then LStripBlank(bs[1..]) else bs
  }

  /** `str.rstrip("\r\n")`. */
  function RStripLineBreaks(bs: Bytes): (r: Bytes)
    decreases |bs|
    ensures |r| <= |bs| && r == bs[..|r|]
    ensures |r| > 0 ==> r[|r| - 1] != CR && r[|r| - 1] != LF
  {
    if bs != [] && (bs[|bs| - 1] == CR || bs[|bs| - 1] == LF) then RStripLineBreaks(bs[..|bs| - 1]) else bs
  }

  /** A byte allowed in a header name by the parser: printable ASCII except `:`. */
  predicate IsNameByte(b: byte) { 33 <= b <= 126 && b != 58 }

  /** The length of the run of name bytes that starts the line. */
  function NameEnd(line: Bytes): (n: nat)
    decreases |line|
    ensures n <= |line|
    ensures forall i :: 0 <= i < n ==> IsNameByte(line[i])
    ensures n < |line| ==> !IsNameByte(line[n])
  {
    if line != [] && IsNameByte(line[0]) then 1 + NameEnd(line[1..]) else 0
  }

  /** A line that opens a header: name bytes, then `:`. */
  predicate IsHeaderLine(line: Bytes) {
    NameEnd(line) < |line| && line[NameEnd(line)] == 58
  }

  /** A line that continues the previous header: it starts with a space or a tab. */
  predicate IsContinuation(line: Bytes) {
    |line| > 0 && (line[0] == 32 || line[0] == 9)
  }

  /** A Unix "From " envelope line, which the parser skips. */
  predicate IsFromLine(line: Bytes) {
    StartsWith(line, [70, 114, 111, 109, 32])
  }

  /** The header lines of a block, read as Python's `email` feed parser reads them with the
      compat32 policy, for lines ending in CRLF. `open` says whether the last header read can
      still take continuation lines. A continuation line is appended to that header (with its
      line break), and dropped when no header is open. A "From " line and a line with an
      empty name close the open header and are skipped. A `Name:` line opens a new header
      whose value is the text after the first `:` with leading blanks removed. The first line
      of any other shape ends the headers. */
  function HeaderLines(lines: seq<Bytes>, acc: seq<(Bytes, Bytes)>, open: bool): seq<(Bytes, Bytes)>
    requires open ==> acc != []
    decreases |lines|
  {
    if lines == [] then acc
    else
      var line := lines[0];
      if IsContinuation(line) then
        if !open then HeaderLines(lines[1..], acc, false)
        else
          var last := acc[|acc| - 1];
          HeaderLines(lines[1..], acc[..|acc| - 1] + [(last.0, last.1 + CRLF + line)], true)
      else if IsFromLine(line) then HeaderLines(lines[1..], acc, false)
      else if IsHeaderLine(line) then
        var n := NameEnd(line);
        if n == 0 then HeaderLines(lines[1..], acc, false)
        else HeaderLines(lines[1..], acc + [(line[..n], LStripBlank(line[n + 1..]))], true)
      else acc
  }

  /** A "From " line closes the header before it: a continuation line right after it is
      dropped instead of extending that header. */
  lemma FromLineCloses(from: Bytes, cont: Bytes, rest: seq<Bytes>, acc: seq<(Bytes, Bytes)>, open: bool)
    requires open ==> acc != []
    requires IsFromLine(from) && IsContinuation(cont)
    ensures HeaderLines([from, cont] + rest, acc, open) == HeaderLines(rest, acc, false)
  {
    assert from[0] == 70;
    assert ([from, cont] + rest)[1..] == [cont] + rest;
    assert ([cont] + rest)[1..] == rest;
  }

  /** A line with an empty name closes the header before it in the same way. */
  lemma EmptyNameCloses(line: Bytes, cont: Bytes, rest: seq<Bytes>, acc: seq<(Bytes, Bytes)>, open: bool)
    requires open ==> acc != []
    requires |line| > 0 && line[0] == 58 && IsContinuation(cont)
    ensures HeaderLines([line, cont] + rest, acc, open) == HeaderLines(rest, acc, false)
  {
    assert NameEnd(line) == 0;
    assert ([line, cont] + rest)[1..] == [cont] + rest;
    assert ([cont] + rest)[1..] == rest;
  }

  /** `HeaderParser().parsestr(block).items()`: each value loses its trailing line breaks. */
  function HeaderItems(block: Bytes): seq<(Bytes, Bytes)> {
    var raw := HeaderLines(Split(block, CRLF), [], false);
    seq(|raw|, i requires 0 <= i < |raw| => (raw[i].0, RStripLineBreaks(raw[i].1)))
  }

  /** `bytes.lower()`: ASCII upper-case letters only. */
  function Lower(bs: Bytes): (r: Bytes)
    ensures |r| == |bs|
    ensures forall i :: 0 <= i < |bs| ==> r[i] == if 65 <= bs[i] <= 90 then bs[i] + 32 else bs[i]
  {
    seq(|bs|, i requires 0 <= i < |bs| => if 65 <= bs[i] <= 90 then bs[i] + 32 else bs[i])
  }

  /** `CaseInsensitiveDict(items)`: each item stored under its lower-cased name, in order. */
  function CaseInsensitive(items: seq<(Bytes, Bytes)>): map<Bytes, Bytes>
    decreases |items|
  {
    if items == [] then map[]
    else CaseInsensitive(items[..|items| - 1])[Lower(items[|items| - 1].0) := items[|items| - 1].1]
  }

  /** The keys are exactly the lower-cased names. */
  lemma {:induction false} CaseInsensitiveKeys(items: seq<(Bytes, Bytes)>, k: Bytes)
    ensures k in CaseInsensitive(items) <==> exists i :: 0 <= i < |items| && Lower(items[i].0) == k
  {
    if items != [] {
      var init := items[..|items| - 1];
      CaseInsensitiveKeys(init, k);
      assert forall i :: 0 <= i < |init| ==> init[i] == items[i];
      if k in CaseInsensitive(items) && k != Lower(items[|items| - 1].0) {
        var i :| 0 <= i < |init| && Lower(init[i].0) == k;
        assert Lower(items[i].0) == k;
      }
    }
  }

  /** Of several items whose names differ only in case, the last one's value is kept. */
  lemma {:induction false} CaseInsensitiveLastWins(items: seq<(Bytes, Bytes)>, i: nat)
    requires i < |items|
    requires forall j :: i < j < |items| ==> Lower(items[j].0) != Lower(items[i].0)
    ensures Lower(items[i].0) in CaseInsensitive(items)
    ensures CaseInsensitive(items)[Lower(items[i].0)] == items[i].1
  {
    if i < |items| - 1 {
      var init := items[..|items| - 1];
      assert init[i] == items[i];
      assert forall j :: i < j < |init| ==> init[j] == items[j];
      CaseInsensitiveLastWins(init, i);
    }
  }

  /** `CaseInsensitiveDict(header_parser(block, "utf-8"))` for a block that decodes. */
  function ParseHeaderBlock(block: Bytes): map<Bytes, Bytes> {
    CaseInsensitive(HeaderItems(block))
  }

  // ---------------------------------------------------------------- parse_response

  /** One fragment between two delimiters that holds an empty line: everything before the
      first CRLFCRLF, with leading whitespace stripped, is the header block, which must decode
      as UTF-8; everything after it is the content. */
  function DecodePart(fragment: Bytes): (r: Result<Part>)
    requires Contains(fragment, CRLFCRLF)
    ensures var n := Find(fragment, CRLFCRLF);
      && (r.Err? <==> !Utf8.Valid(LStrip(fragment[..n])))
      && (r.Ok? ==> r.value.content == fragment[n + 4..] && r.value.headers == ParseHeaderBlock(LStrip(fragment[..n])))
  {
    var (first, body) := SplitOnFind(fragment, CRLFCRLF);
    var point := Find(fragment, CRLFCRLF);
    assert first == fragment[..point] && body == fragment[point + 4..];
    var block := LStrip(first);
    if !Utf8.Valid(block) then Err(UnicodeDecodeError)
    else Ok(Part(ParseHeaderBlock(block), body))
  }

  /** The fragments kept by `parts[1:-1]`: all but the first and the last. */
  function Inner(fragments: seq<Bytes>): (r: seq<Bytes>)
    ensures |fragments| >= 2 ==> |r| == |fragments| - 2
    ensures |fragments| < 2 ==> r == []
    ensures forall k :: 0 <= k < |r| ==> r[k] == fragments[k + 1]
  {
    if |fragments| >= 2 then fragments[1..|fragments| - 1] else []
  }

  /** The loop of `parse_response` over the kept fragments: a fragment without an empty line
      is skipped; the others are decoded in order; the first that fails to decode ends it. */
  function DecodeFragments(fragments: seq<Bytes>): Result<seq<Part>>
    decreases |fragments|
  {
    if fragments == [] then Ok([])
    else if Contains(fragments[0], CRLFCRLF) then
      match DecodePart(fragments[0])
      case Err(e) => Err(e)
      case Ok(p) => Prefixed([p], DecodeFragments(fragments[1..]))
    else DecodeFragments(fragments[1..])
  }

  /** `Ok(xs + ys)` when the rest decoded to `ys`; the error otherwise. */
  function Prefixed(xs: seq<Part>, rest: Result<seq<Part>>): (r: Result<seq<Part>>)
    ensures r.Err? <==> rest.Err?
  {
    match rest
    case Ok(ys) => Ok(xs + ys)
    case Err(e) => Err(e)
  }

  /** The delimiter `parse_response` splits on: `b"".join((b"\r\n", sep))`. When
      `get_boundary` found nothing it returned the `str` "", and joining it raises. */
  function Delimiter(boundary: Option<Bytes>): Result<Bytes> {
    match boundary
    case Some(b) => Ok(CRLF + b)
    case None => Err(TypeError("sequence item 1: expected a bytes-like object, str found"))
  }

  /** What `parse_response(content)` returns or raises. */
  function Decode(content: Bytes): Result<seq<Part>> {
    match Delimiter(GetBoundary(content))
    case Err(e) => Err(e)
    case Ok(sep) => DecodeFragments(Inner(Split(content, sep)))
  }

  /** `parse_response(content)`, with its loop that appends one record per fragment. */
  method ParseResponse(content: Bytes) returns (r: Result<seq<Part>>)
    ensures r == Decode(content)
  {
    var boundary := GetBoundary(content);
    if boundary.None? {
      return Err(TypeError("sequence item 1: expected a bytes-like object, str found"));
    }
    var sep := CRLF + boundary.value;
    var parts := Inner(Split(content, sep));
    assert Decode(content) == DecodeFragments(parts);
    var result: seq<Part> := [];
    var i := 0;
    assert parts[0..] == parts;
    PrefixedNil(DecodeFragments(parts));
    while i < |parts|
      invariant 0 <= i <= |parts|
      invariant DecodeFragments(parts) == Prefixed(result, DecodeFragments(parts[i..]))
    {
      var part := parts[i];
      DecodeFragmentsStep(parts, i);
      if Contains(part, CRLFCRLF) {
        var item := DecodePart(part);
        if item.Err? {
          return Err(item.error);
        }
        PrefixedAssoc(result, [item.value], DecodeFragments(parts[i + 1..]));
        result := result + [item.value];
      }
      i := i + 1;
    }
    assert parts[i..] == [];
    assert result + [] == result;
    return Ok(result);
  }

  /** One step of the loop: the fragment at `i` is skipped, fails, or adds its record. */
  lemma DecodeFragmentsStep(parts: seq<Bytes>, i: nat)
    requires i < |parts|
    ensures !Contains(parts[i], CRLFCRLF) ==> DecodeFragments(parts[i..]) == DecodeFragments(parts[i + 1..])
    ensures Contains(parts[i], CRLFCRLF) ==> (DecodeFragments(parts[i..]) ==
      match DecodePart(parts[i])
      case Err(e) => Err(e)
      case Ok(p) => Prefixed([p], DecodeFragments(parts[i + 1..])))
  {
    assert parts[i..][1..] == parts[i + 1..];
  }

  lemma PrefixedNil(rest: Result<seq<Part>>)
    ensures Prefixed([], rest) == rest
  {
    if rest.Ok? {
      assert [] + rest.value == rest.value;
    }
  }

  lemma PrefixedAssoc(xs: seq<Part>, ys: seq<Part>, rest: Result<seq<Part>>)
    ensures Prefixed(xs, Prefixed(ys, rest)) == Prefixed(xs + ys, rest)
  {
    if rest.Ok? {
      assert xs + (ys + rest.value) == (xs + ys) + rest.value;
    }
  }

  // ---------------------------------------------------------------- properties of the decoder

  /** Records come out in buffer order: decoding two runs of fragments one after the other
      gives the records of the first run followed by those of the second. */
  lemma {:induction false} DecodeFragmentsAppend(a: seq<Bytes>, b: seq<Bytes>)
    ensures DecodeFragments(a + b) ==
      match DecodeFragments(a)
      case Err(e) => Err(e)
      case Ok(xs) => Prefixed(xs, DecodeFragments(b))
  {
    if a == [] {
      assert a + b == b;
      match DecodeFragments(b)
      case Ok(ys) => assert [] + ys == ys;
      case Err(_) =>
    } else {
      assert (a + b)[0] == a[0];
      assert (a + b)[1..] == a[1..] + b;
      DecodeFragmentsAppend(a[1..], b);
      if Contains(a[0], CRLFCRLF) && DecodePart(a[0]).Ok? {
        PrefixedAssoc([DecodePart(a[0]).value], [], DecodeFragments(b));
        match DecodeFragments(a[1..])
        case Err(_) =>
        case Ok(xs) => PrefixedAssoc([DecodePart(a[0]).value], xs, DecodeFragments(b));
      }
    }
  }

  /** A fragment without an empty line yields no record; one with an empty line yields the
      record `DecodePart` makes of it, or its error. */
  lemma DecodeSingle(f: Bytes)
    ensures !Contains(f, CRLFCRLF) ==> DecodeFragments([f]) == Ok([])
    ensures Contains(f, CRLFCRLF) ==>
      DecodeFragments([f]) == match DecodePart(f) case Ok(p) => Ok([p]) case Err(e) => Err(e)
  {
    assert [f][1..] == [];
    if Contains(f, CRLFCRLF) && DecodePart(f).Ok? {
      assert [DecodePart(f).value] + [] == [DecodePart(f).value];
    }
  }

  /** There are never more records than fragments. */
  lemma {:induction false} DecodeFragmentsCount(fragments: seq<Bytes>)
    ensures DecodeFragments(fragments).Ok? ==> |DecodeFragments(fragments).value| <= |fragments|
  {
    if fragments != [] {
      DecodeFragmentsCount(fragments[1..]);
    }
  }

  /** When a delimiter line was found the body starts with the delimiter, so the fragment
      before the first delimiter is empty and at least two fragments exist; the records number
      at most the delimiters found, minus one. */
  lemma DecodeCount(content: Bytes)
    requires Decode(content).Ok?
    ensures GetBoundary(content).Some?
    ensures var frags := Split(content, CRLF + GetBoundary(content).value);
      && |frags| >= 2
      && frags[0] == []
      && |Decode(content).value| <= |frags| - 2
  {
    var b := GetBoundary(content).value;
    var sep := CRLF + b;
    assert content[..|sep|] == sep by {
      assert StartsWith(content, CRLF + b + CRLF);
      assert (CRLF + b + CRLF)[..|sep|] == sep;
    }
    assert OccursAt(content, sep, 0);
    assert Find(content, sep) == 0;
    var frags := Split(content, sep);
    assert frags[0] == content[..0] == [];
    DecodeFragmentsCount(Inner(frags));
  }

  // ---------------------------------------------------------------- the writer, and the round trip

  /** The delimiter line of a boundary token: CRLF, `--`, the token. */
  function DelimiterOf(token: Bytes): Bytes { CRLF + DashDash + token }

  /** One encapsulated part as it stands between two delimiters: the CRLF that ends the
      delimiter line, the header block, an empty line, the content. */
  function EncodePart(headerBlock: Bytes, content: Bytes): Bytes {
    CRLF + headerBlock + CRLFCRLF + content
  }

  function EncodeParts(token: Bytes, parts: seq<(Bytes, Bytes)>): Bytes
    decreases |parts|
  {
    if parts == [] then [] else EncodePart(parts[0].0, parts[0].1) + DelimiterOf(token) + EncodeParts(token, parts[1..])
  }

  /** A multipart body as a server writes it: an opening delimiter, each part followed by a
      delimiter, and `--` closing the last one. */
  function Encode(token: Bytes, parts: seq<(Bytes, Bytes)>): Bytes {
    DelimiterOf(token) + EncodeParts(token, parts) + DashDash
  }

  /** A header block the decoder gives back whole: not empty, not starting with whitespace,
      with no empty line inside and no line break at its end, and valid UTF-8. */
  predicate HeaderBlockOk(h: Bytes) {
    && |h| > 0
    && !IsSpace(h[0])
    && !Contains(h, CRLFCRLF)
    && !(|h| >= 2 && h[|h| - 2..] == CRLF)
    && Utf8.Valid(h)
  }

  /** A part that respects section 5.1.1 of RFC 2046: the delimiter does not occur in it. */
  predicate PartOk(token: Bytes, part: (Bytes, Bytes)) {
    HeaderBlockOk(part.0) && !Contains(EncodePart(part.0, part.1), DelimiterOf(token))
  }

  /** In an encoded part, the header block starts after the opening line break. */
  lemma HeaderByte(h: Bytes, b: Bytes, k: int)
    requires 0 <= k < |h|
    ensures |EncodePart(h, b)| == |h| + 6 + |b| && EncodePart(h, b)[2 + k] == h[k]
  {
    assert EncodePart(h, b) == CRLF + (h + (CRLFCRLF + b));
  }

  /** No empty line starts inside the header block of an encoded part. */
  lemma SeparatorNotInside(h: Bytes, b: Bytes, p: int)
    requires !Contains(h, CRLFCRLF)
    requires 2 <= p && p + 4 <= 2 + |h|
    ensures !OccursAt(EncodePart(h, b), CRLFCRLF, p)
  {
    var x := EncodePart(h, b);
    HeaderByte(h, b, p - 2);
    HeaderByte(h, b, p - 1);
    HeaderByte(h, b, p);
    HeaderByte(h, b, p + 1);
    assert x[p..p + 4] == h[p - 2..p + 2];
    assert !OccursAt(h, CRLFCRLF, p - 2);
  }

  /** The bytes around the header block of an encoded part: the opening line break and the
      empty line after it. */
  lemma FrameBytes(h: Bytes, b: Bytes)
    ensures var x := EncodePart(h, b);
      && |x| == |h| + 6 + |b|
      && x[0] == CR && x[1] == LF
      && x[2 + |h|] == CR && x[3 + |h|] == LF && x[4 + |h|] == CR && x[5 + |h|] == LF
  {
    assert EncodePart(h, b) == CRLF + (h + (CRLFCRLF + b));
  }

  /** Nor does one start in the opening line break, since the header block starts with a
      byte that is not white space. */
  lemma SeparatorNotAtStart(h: Bytes, b: Bytes, p: int)
    requires |h| > 0 && !IsSpace(h[0])
    requires 0 <= p < 2
    ensures !OccursAt(EncodePart(h, b), CRLFCRLF, p)
  {
    var x := EncodePart(h, b);
    FrameBytes(h, b);
    HeaderByte(h, b, 0);
    if p == 0 {
      assert x[0..4][2] == x[2] != CRLFCRLF[2];
    } else {
      assert x[1..5][0] == x[1] != CRLFCRLF[0];
    }
  }

  /** Nor across the end of the header block, since the block does not end with a line
      break. */
  lemma SeparatorNotAtEnd(h: Bytes, b: Bytes, p: int)
    requires |h| > 0 && !(|h| >= 2 && h[|h| - 2..] == CRLF)
    requires 2 <= p < 2 + |h| && 2 + |h| < p + 4
    ensures !OccursAt(EncodePart(h, b), CRLFCRLF, p)
  {
    var x := EncodePart(h, b);
    var n := 2 + |h|;
    FrameBytes(h, b);
    if n - p == 1 {
      assert x[p..p + 4][1] == x[n] != CRLFCRLF[1];
    } else if n - p == 2 {
      HeaderByte(h, b, |h| - 2);
      HeaderByte(h, b, |h| - 1);
      assert h[|h| - 2..] == [h[|h| - 2], h[|h| - 1]];
      assert x[p..p + 4][..2] == [x[p], x[p + 1]] != CRLF;
    } else {
      assert x[p..p + 4][3] == x[n] != CRLFCRLF[3];
    }
  }

  /** The first empty line of an encoded part is the one after its header block. */
  lemma EncodedPartSeparator(h: Bytes, b: Bytes)
    requires HeaderBlockOk(h)
    ensures Find(EncodePart(h, b), CRLFCRLF) == 2 + |h|
  {
    var x := EncodePart(h, b);
    var n := 2 + |h|;
    assert x[n..n + 4] == CRLFCRLF;
    assert OccursAt(x, CRLFCRLF, n);
    forall p | 0 <= p < n
      ensures !OccursAt(x, CRLFCRLF, p)
    {
      if p < 2 {
        SeparatorNotAtStart(h, b, p);
      } else if p + 4 <= n {
        SeparatorNotInside(h, b, p);
      } else {
        SeparatorNotAtEnd(h, b, p);
      }
    }
  }

  /** `bytes.lstrip()` removes exactly the CRLF that ends the delimiter line. */
  lemma LStripDelimiterLineEnd(h: Bytes)
    requires |h| > 0 && !IsSpace(h[0])
    ensures LStrip(CRLF + h) == h
  {
    var x := CRLF + h;
    assert x[0] == CR && x[1] == LF && x[2] == h[0];
    assert SpaceEnd(x, 0) == 2;
    assert (CRLF + h)[2..] == h;
  }

  /** An encoded part decodes to its header block's headers and its content. */
  lemma DecodeEncodedPart(h: Bytes, b: Bytes)
    requires HeaderBlockOk(h)
    ensures Contains(EncodePart(h, b), CRLFCRLF)
    ensures DecodePart(EncodePart(h, b)) == Ok(Part(ParseHeaderBlock(h), b))
  {
    var x := EncodePart(h, b);
    EncodedPartSeparator(h, b);
    var n := 2 + |h|;
    assert x[..n] == CRLF + h;
    assert x[n + 4..] == b;
    LStripDelimiterLineEnd(h);
  }

  /** The delimiter's first byte, CR, appears nowhere else in it when the token has no CR. */
  lemma DelimiterUnbordered(token: Bytes)
    requires CR !in token
    ensures forall d :: 1 <= d < |DelimiterOf(token)| ==> DelimiterOf(token)[d] != DelimiterOf(token)[0]
  {
    var dl := DelimiterOf(token);
    forall d | 1 <= d < |dl|
      ensures dl[d] != dl[0]
    {
      if d >= 4 {
        assert dl[d] == token[d - 4];
      }
    }
  }

  /** The encapsulated parts, as they stand between delimiters. */
  function Encapsulated(parts: seq<(Bytes, Bytes)>): (r: seq<Bytes>)
    decreases |parts|
    ensures |r| == |parts|
  {
    if parts == [] then [] else [EncodePart(parts[0].0, parts[0].1)] + Encapsulated(parts[1..])
  }

  /** The record each part stands for: its header block's headers and its content. */
  function Records(parts: seq<(Bytes, Bytes)>): (r: seq<Part>)
    decreases |parts|
    ensures |r| == |parts|
    ensures forall i :: 0 <= i < |parts| ==> r[i] == Part(ParseHeaderBlock(parts[i].0), parts[i].1)
  {
    if parts == [] then [] else [Part(ParseHeaderBlock(parts[0].0), parts[0].1)] + Records(parts[1..])
  }

  /** The encoded parts are the encapsulated parts, each followed by the delimiter. */
  lemma {:induction false} EncodePartsTerminated(token: Bytes, parts: seq<(Bytes, Bytes)>)
    ensures EncodeParts(token, parts) == Terminated(Encapsulated(parts), DelimiterOf(token))
  {
    if parts != [] {
      EncodePartsTerminated(token, parts[1..]);
      assert Encapsulated(parts)[1..] == Encapsulated(parts[1..]);
    }
  }

  /** Splitting the encoded parts on the delimiter gives back each encapsulated part. */
  lemma SplitEncodedParts(token: Bytes, parts: seq<(Bytes, Bytes)>, tail: Bytes)
    requires CR !in token
    requires forall i :: 0 <= i < |parts| ==> PartOk(token, parts[i])
    ensures Split(EncodeParts(token, parts) + tail, DelimiterOf(token)) == Encapsulated(parts) + Split(tail, DelimiterOf(token))
  {
    var e := Encapsulated(parts);
    EncodePartsTerminated(token, parts);
    DelimiterUnbordered(token);
    EncapsulatedFree(token, parts);
    SplitTerminated(e, DelimiterOf(token), tail);
  }

  lemma {:induction false} EncapsulatedFree(token: Bytes, parts: seq<(Bytes, Bytes)>)
    requires forall i :: 0 <= i < |parts| ==> PartOk(token, parts[i])
    ensures forall k :: 0 <= k < |parts| ==> !Contains(Encapsulated(parts)[k], DelimiterOf(token))
  {
    if parts != [] {
      assert PartOk(token, parts[0]);
      assert forall i :: 0 <= i < |parts[1..]| ==> parts[1..][i] == parts[i + 1];
      EncapsulatedFree(token, parts[1..]);
      assert forall k :: 1 <= k < |parts| ==> Encapsulated(parts)[k] == Encapsulated(parts[1..])[k - 1];
    }
  }

  /** The decoded records of the encoded parts, in order. */
  lemma {:induction false} DecodeEncodedParts(parts: seq<(Bytes, Bytes)>)
    requires forall i :: 0 <= i < |parts| ==> HeaderBlockOk(parts[i].0)
    ensures DecodeFragments(Encapsulated(parts)) == Ok(Records(parts))
  {
    if parts != [] {
      var frags := Encapsulated(parts);
      DecodeEncodedPart(parts[0].0, parts[0].1);
      assert frags[0] == EncodePart(parts[0].0, parts[0].1);
      assert frags[1..] == Encapsulated(parts[1..]);
      DecodeEncodedParts(parts[1..]);
    }
  }

  /** The delimiter line of an encoded body is found, whatever its parts. */
  lemma EncodedBoundary(token: Bytes, parts: seq<(Bytes, Bytes)>)
    requires |parts| >= 1
    requires LF !in token
    ensures GetBoundary(Encode(token, parts)) == Some(DashDash + token)
  {
    var dl := DelimiterOf(token);
    var body := Encode(token, parts);
    var ep := EncodeParts(token, parts);
    assert ep[..2] == CRLF;
    var afterLine := ep[2..] + DashDash;
    assert ep == CRLF + ep[2..];
    assert body == (CRLF + DashDash + token) + (CRLF + ep[2..]) + DashDash;
    assert body == CRLF + DashDash + token + CRLF + afterLine;
    GetBoundaryOfLine(token, afterLine);
  }

  /** A body that starts with the delimiter has an empty first fragment. */
  lemma SplitOpening(sep: Bytes, rest: Bytes)
    requires |sep| > 0
    ensures Split(sep + rest, sep) == [[]] + Split(rest, sep)
  {
    assert sep + rest == [] + sep + rest;
    SplitAfter([], sep, rest);
  }

  /** The closing `--` holds no delimiter. */
  lemma SplitClosing(token: Bytes)
    ensures Split(DashDash, DelimiterOf(token)) == [DashDash]
  {
    var dl := DelimiterOf(token);
    forall j ensures !OccursAt(DashDash, dl, j) {}
  }

  /** An encoded body is an empty preamble and the encapsulated parts, each followed by
      the delimiter, and then `--`. */
  lemma EncodeTerminated(token: Bytes, parts: seq<(Bytes, Bytes)>)
    ensures Encode(token, parts) == Terminated([[]] + Encapsulated(parts), DelimiterOf(token)) + DashDash
  {
    var dl := DelimiterOf(token);
    var pieces: seq<Bytes> := [[]] + Encapsulated(parts);
    var t := Terminated(Encapsulated(parts), dl);
    EncodePartsTerminated(token, parts);
    assert pieces[1..] == Encapsulated(parts);
    assert Terminated(pieces, dl) == pieces[0] + dl + t;
    assert pieces[0] + dl == dl;
  }

  /** Splitting an encoded body on its delimiter: an empty preamble, the parts, and `--`. */
  lemma SplitEncodedBody(token: Bytes, parts: seq<(Bytes, Bytes)>)
    requires CR !in token
    requires forall k :: 0 <= k < |parts| ==> !Contains(Encapsulated(parts)[k], DelimiterOf(token))
    ensures var frags := Split(Encode(token, parts), DelimiterOf(token));
      |frags| == |parts| + 2 && frags[0] == [] && Inner(frags) == Encapsulated(parts) && frags[|frags| - 1] == DashDash
  {
    var dl := DelimiterOf(token);
    var pieces: seq<Bytes> := [[]] + Encapsulated(parts);
    EncodeTerminated(token, parts);
    DelimiterUnbordered(token);
    assert forall k :: 0 <= k < |pieces| ==> !Contains(pieces[k], dl) by {
      assert !Contains(pieces[0], dl);
      assert forall k :: 1 <= k < |pieces| ==> pieces[k] == Encapsulated(parts)[k - 1];
    }
    assert !Contains(DashDash, dl) by {
      forall j ensures !OccursAt(DashDash, dl, j) {}
    }
    SplitTerminatedLast(pieces, dl, DashDash);
    var body := Encode(token, parts);
    assert body == Terminated(pieces, dl) + DashDash;
    var frags := pieces + [DashDash];
    assert Split(body, dl) == frags;
    assert frags[1..|frags| - 1] == Encapsulated(parts);
  }

  /** An encoded body is decoded fragment by fragment, the encapsulated parts in order. */
  lemma DecodeEncodedBody(token: Bytes, parts: seq<(Bytes, Bytes)>)
    requires |parts| >= 1
    requires CR !in token && LF !in token
    requires forall k :: 0 <= k < |parts| ==> !Contains(Encapsulated(parts)[k], DelimiterOf(token))
    ensures Decode(Encode(token, parts)) == DecodeFragments(Encapsulated(parts))
  {
    EncodedBoundary(token, parts);
    DecodeFound(Encode(token, parts), token);
    SplitEncodedBody(token, parts);
  }

  /** Once the delimiter line is found, decoding is the loop over the inner fragments. */
  lemma DecodeFound(content: Bytes, token: Bytes)
    requires GetBoundary(content) == Some(DashDash + token)
    ensures Decode(content) == DecodeFragments(Inner(Split(content, DelimiterOf(token))))
  {
    ConcatAssoc(CRLF, DashDash, token);
    assert Delimiter(GetBoundary(content)) == Ok(DelimiterOf(token));
  }

  /** Round trip: a body with at least one part, a boundary token without CR or LF, parts
      that do not contain the delimiter and header blocks the decoder keeps whole, decodes
      to one record per part, in order, each with that part's headers and content. */
  lemma RoundTrip(token: Bytes, parts: seq<(Bytes, Bytes)>)
    requires |parts| >= 1
    requires CR !in token && LF !in token
    requires forall i :: 0 <= i < |parts| ==> PartOk(token, parts[i])
    ensures Decode(Encode(token, parts)) == Ok(Records(parts))
  {
    EncapsulatedFree(token, parts);
    DecodeEncodedBody(token, parts);
    assert forall i :: 0 <= i < |parts| ==> HeaderBlockOk(parts[i].0);
    DecodeEncodedParts(parts);
  }

  /** With no part at all the body is CRLF, `--`, token, `--`: no CRLF ends the first
      delimiter line, so no boundary is found and decoding raises. */
  lemma EmptyBodyFails(token: Bytes)
    requires LF !in token
    ensures Decode(Encode(token, [])).Err?
  {
    var body := Encode(token, []);
    assert body == CRLF + DashDash + token + DashDash;
    assert body[..4] == CRLF + DashDash;
    forall k | 4 <= k
      ensures !OccursAt(body, [LF], k)
    {
      if k + 1 <= |body| {
        assert body[k..k + 1] == [body[k]];
        if k < 4 + |token| {
          assert body[k] == token[k - 4];
        }
      }
    }
    assert FindFrom(body, [LF], 4) == -1;
    assert GetBoundary(body) == None;
  }

  // ---------------------------------------------------------------- "Key: Value" headers

  /** A header name the parser reads back whole. */
  predicate NameOk(name: Bytes) {
    |name| > 0 && forall i :: 0 <= i < |name| ==> IsNameByte(name[i])
  }

  /** A header value the parser reads back whole: one line, not starting with a blank. */
  predicate ValueOk(value: Bytes) {
    CR !in value && LF !in value && (|value| > 0 ==> value[0] != 32 && value[0] != 9)
  }

  /** One `Name: value` line. */
  function HeaderLine(item: (Bytes, Bytes)): Bytes {
    item.0 + [58, 32] + item.1
  }

  function HeaderLineSeq(items: seq<(Bytes, Bytes)>): (r: seq<Bytes>)
    decreases |items|
    ensures |r| == |items|
    ensures forall i :: 0 <= i < |items| ==> r[i] == HeaderLine(items[i])
  {
    if items == [] then [] else [HeaderLine(items[0])] + HeaderLineSeq(items[1..])
  }

  /** A header block as a writer makes it: `Name: value` lines joined by CRLF. */
  function RenderHeaders(items: seq<(Bytes, Bytes)>): Bytes {
    Join(HeaderLineSeq(items), CRLF)
  }

  /** A well-formed `Name: value` line opens a header: it is neither a continuation nor a
      "From " line, and its name runs up to the colon. */
  lemma HeaderLineShape(item: (Bytes, Bytes))
    requires NameOk(item.0)
    ensures !IsContinuation(HeaderLine(item)) && !IsFromLine(HeaderLine(item))
    ensures IsHeaderLine(HeaderLine(item)) && NameEnd(HeaderLine(item)) == |item.0|
  {
    var line := HeaderLine(item);
    var n := |item.0|;
    assert line[n] == 58;
    assert forall i :: 0 <= i < n ==> line[i] == item.0[i];
    NameEndOfName(line, n);
    assert line[0] == item.0[0];
    if |line| >= 5 {
      if n <= 4 {
        assert line[..5][n] == 58;
      } else {
        assert line[..5][4] == item.0[4];
      }
    }
  }

  /** The header read from a well-formed line has the line's name and value. */
  lemma HeaderLineParts(item: (Bytes, Bytes))
    requires ValueOk(item.1)
    ensures HeaderLine(item)[..|item.0|] == item.0
    ensures LStripBlank(HeaderLine(item)[|item.0| + 1..]) == item.1
  {
    var line := HeaderLine(item);
    assert line[|item.0| + 1..] == [32] + item.1;
    assert ([32] + item.1)[1..] == item.1;
  }

  lemma ValueKeepsEnd(value: Bytes)
    requires ValueOk(value)
    ensures RStripLineBreaks(value) == value
  {
    if |value| > 0 {
      assert value[|value| - 1] in value;
    }
  }

  /** Reading a well-formed line adds its header. */
  lemma ReadHeaderLine(item: (Bytes, Bytes), rest: seq<Bytes>, acc: seq<(Bytes, Bytes)>, open: bool)
    requires open ==> acc != []
    requires NameOk(item.0) && ValueOk(item.1)
    ensures HeaderLines([HeaderLine(item)] + rest, acc, open) == HeaderLines(rest, acc + [item], true)
  {
    HeaderLineShape(item);
    HeaderLineParts(item);
    assert ([HeaderLine(item)] + rest)[1..] == rest;
  }

  /** `NameEnd` stops at the first byte that is not a name byte. */
  lemma {:induction false} NameEndOfName(line: Bytes, n: nat)
    requires n < |line| && !IsNameByte(line[n])
    requires forall i :: 0 <= i < n ==> IsNameByte(line[i])
    ensures NameEnd(line) == n
  {
    if n > 0 {
      NameEndOfName(line[1..], n - 1);
    }
  }

  /** Reading well-formed lines adds one header per line. */
  lemma {:induction false} HeaderLinesOfRendered(items: seq<(Bytes, Bytes)>, acc: seq<(Bytes, Bytes)>, open: bool)
    requires open ==> acc != []
    requires forall i :: 0 <= i < |items| ==> NameOk(items[i].0) && ValueOk(items[i].1)
    ensures HeaderLines(HeaderLineSeq(items), acc, open) == acc + items
  {
    if items == [] {
      assert acc + items == acc;
    } else {
      assert HeaderLines(HeaderLineSeq(items), acc, open) == HeaderLines(HeaderLineSeq(items[1..]), acc + [items[0]], true) by {
        assert HeaderLineSeq(items) == [HeaderLine(items[0])] + HeaderLineSeq(items[1..]);
        ReadHeaderLine(items[0], HeaderLineSeq(items[1..]), acc, open);
      }
      assert HeaderLines(HeaderLineSeq(items[1..]), acc + [items[0]], true) == acc + [items[0]] + items[1..] by {
        HeaderLinesOfRendered(items[1..], acc + [items[0]], true);
      }
      ConcatAssoc(acc, [items[0]], items[1..]);
      assert [items[0]] + items[1..] == items;
    }
  }

  /** The header parser reads back every header a writer puts in a block: names with their
      case, values, order and repetitions. */
  lemma HeaderRoundTrip(items: seq<(Bytes, Bytes)>)
    requires forall i :: 0 <= i < |items| ==> NameOk(items[i].0) && ValueOk(items[i].1)
    ensures HeaderItems(RenderHeaders(items)) == items
  {
    var lines := HeaderLineSeq(items);
    if items == [] {
      assert Split(RenderHeaders(items), CRLF) == [[]];
    } else {
      forall k | 0 <= k < |lines|
        ensures !Contains(lines[k], CRLF)
      {
        var item := items[k];
        assert CR !in lines[k] by {
          forall j | 0 <= j < |lines[k]| ensures lines[k][j] != CR {
            if j >= |item.0| + 2 {
              assert lines[k][j] == item.1[j - |item.0| - 2];
            } else if j < |item.0| {
              assert lines[k][j] == item.0[j];
            }
          }
        }
        NotContainsFirst(lines[k], CRLF);
      }
      SplitJoin(lines, CRLF);
    }
    HeaderLinesOfRendered(items, [], false);
    assert [] + items == items;
    forall i | 0 <= i < |items|
      ensures RStripLineBreaks(items[i].1) == items[i].1
    {
      ValueKeepsEnd(items[i].1);
    }
  }

  /** With the header values read back whole, the case-insensitive lookup of a name finds
      the value of the last header with that name, whatever its case. */
  lemma HeaderLookup(items: seq<(Bytes, Bytes)>, i: nat)
    requires forall k :: 0 <= k < |items| ==> NameOk(items[k].0) && ValueOk(items[k].1)
    requires i < |items|
    requires forall j :: i < j < |items| ==> Lower(items[j].0) != Lower(items[i].0)
    ensures Lower(items[i].0) in ParseHeaderBlock(RenderHeaders(items))
    ensures ParseHeaderBlock(RenderHeaders(items))[Lower(items[i].0)] == items[i].1
  {
    HeaderRoundTrip(items);
    CaseInsensitiveLastWins(items, i);
  }
}
