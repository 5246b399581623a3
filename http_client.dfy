/** The HTTP helpers of `http_client.py`. The blocking Qt request (`get_reply`) is the parameter
    `getReply`: it never raises, since its error checks only log, so it is a total function
    from a URL to the reply. Decoding with a named codec is the parameter `decode` and
    `json.loads` the parameter `loads`. */
module HttpClient {
  import opened Common
  import opened Seqs
  import Text
  import Utf8

  type Bytes = seq<byte>

  /** What the model needs of a `QNetworkReply`: its body and its raw `Content-Type` header
      (empty when the header is missing). */
  datatype Reply = Reply(content: Bytes, contentType: Bytes)

  /** `get_request_bytes`: the body of the reply, as it came. */
  function GetRequestBytes(getReply: string -> Reply, url: string): (r: Bytes)
    ensures r == getReply(url).content
  {
    getReply(url).content
  }

  /** `bytes.decode("ascii")`: every byte must be below 0x80, and then stands for the character
      with its code. */
  function AsciiDecode(bs: Bytes): (r: Result<string>)
    ensures r.Ok? <==> forall i :: 0 <= i < |bs| ==> bs[i] < 0x80
    ensures r.Err? ==> r.error == UnicodeDecodeError
    ensures r.Ok? ==> |r.value| == |bs| && forall i :: 0 <= i < |bs| ==> r.value[i] as int == bs[i] as int
  {
    if bs == [] then Ok([])
    else if bs[0] >= 0x80 then Err(UnicodeDecodeError)
    else
      var rest := AsciiDecode(bs[1..]);
      if rest.Err? then rest
      else
        assert forall i :: 1 <= i < |bs| ==> bs[i] == bs[1..][i - 1];
        Ok([bs[0] as int as char] + rest.value)
  }

  /** Decoding ASCII is undone by encoding: the decoded header encodes back to its bytes. */
  lemma AsciiDecodeRoundTrip(bs: Bytes)
    requires AsciiDecode(bs).Ok?
    ensures Utf8.Encode(AsciiDecode(bs).value) == bs
  {
    var s := AsciiDecode(bs).value;
    assert Utf8.IsAscii(s);
    Utf8.EncodeAscii(s);
  }

  const DefaultEncoding: string := "utf-8"

  /** The encoding `get_request_json` picks: `utf-8` unless the Content-Type has a `;`, else
      its second `;`-separated segment with every `charset=` removed. */
  function CharsetOf(contentType: string): string {
    var segments := Split(contentType, ";");
    if |segments| > 1 then Text.Replace(segments[1], "charset=", "") else DefaultEncoding
  }

  /** Without a `;` the encoding is `utf-8`. */
  lemma CharsetDefault(contentType: string)
    requires ';' !in contentType
    ensures CharsetOf(contentType) == DefaultEncoding
  {
    SplitNone(contentType, ';');
  }

  /** With a `;` the encoding comes from the second segment alone: anything after a further
      `;` is ignored. */
  lemma CharsetSecondSegment(mediaType: string, parameter: string, rest: string)
    requires ';' !in mediaType && ';' !in parameter
    requires rest == [] || rest[0] == ';'
    ensures CharsetOf(mediaType + ";" + parameter + rest) == Text.Replace(parameter, "charset=", "")
  {
    var ct := mediaType + ";" + parameter + rest;
    if rest == [] {
      assert ct == mediaType + [';'] + parameter;
      SplitAfterSingle(mediaType, ';', parameter);
      SplitNone(parameter, ';');
    } else {
      var tail := rest[1..];
      assert ct == mediaType + [';'] + (parameter + [';'] + tail);
      SplitAfterSingle(mediaType, ';', parameter + [';'] + tail);
      SplitAfterSingle(parameter, ';', tail);
    }
  }

  /** Removing `charset=` from ` charset=<name>` leaves the space: the charset is not trimmed. */
  lemma CharsetNotTrimmed(space: string, name: string)
    requires 'c' !in space && !Contains(name, "charset=")
    ensures Text.Replace(space + "charset=" + name, "charset=", "") == space + name
  {
    var s := space + "charset=" + name;
    forall j | 0 <= j < |space|
      ensures !OccursAt(s, "charset=", j)
    {
      assert s[j] == space[j] && space[j] != 'c';
      if j + 8 <= |s| {
        assert s[j..j + 8][0] == s[j];
        assert "charset="[0] == 'c';
      }
    }
    SplitAfter(space, "charset=", name);
    SplitAbsent(name, "charset=");
    assert Join([space, name], "") == space + name;
  }

  const JsonMediaType: string := "application/json"

  function ContentTypeMessage(contentType: string): string {
    "Received Content-Type:" + contentType + "  expected Content-Type:" + JsonMediaType
  }

  /** `get_request_json`. */
  function GetRequestJson(
    getReply: string -> Reply, decode: (Bytes, string) -> Result<string>, loads: string -> Result<Json>, url: string
  ): (r: Result<Json>)
    ensures var reply := getReply(url);
      var header := AsciiDecode(reply.contentType);
      && (header.Err? ==> r == Err(UnicodeDecodeError))
      && (header.Ok? && decode(reply.content, CharsetOf(header.value)).Err? ==>
            r == decode(reply.content, CharsetOf(header.value)).PropagateFailure())
      && (header.Ok? && decode(reply.content, CharsetOf(header.value)).Ok? ==>
            (!StartsWith(header.value, JsonMediaType) ==> r == Err(ValueError(ContentTypeMessage(header.value))))
            && (StartsWith(header.value, JsonMediaType) ==> r == loads(decode(reply.content, CharsetOf(header.value)).value)))
  {
    var reply := getReply(url);
    var contentType :- AsciiDecode(reply.contentType);
    var encoding := CharsetOf(contentType);
    var text :- decode(reply.content, encoding);
    if !StartsWith(contentType, JsonMediaType) then Err(ValueError(ContentTypeMessage(contentType)))
    else loads(text)
  }

  /** The body is decoded before the Content-Type is checked: a body the named charset cannot
      decode fails with the codec's error even when the Content-Type is wrong as well. */
  lemma DecodeFailsFirst(
    getReply: string -> Reply, decode: (Bytes, string) -> Result<string>, loads: string -> Result<Json>, url: string
  )
    requires AsciiDecode(getReply(url).contentType).Ok?
    requires !StartsWith(AsciiDecode(getReply(url).contentType).value, JsonMediaType)
    requires decode(getReply(url).content, CharsetOf(AsciiDecode(getReply(url).contentType).value)).Err?
    ensures GetRequestJson(getReply, decode, loads, url).Err?
    ensures GetRequestJson(getReply, decode, loads, url).error
      == decode(getReply(url).content, CharsetOf(AsciiDecode(getReply(url).contentType).value)).error
  {
  }

  /** The type check is a prefix test: `application/json` followed by anything (parameters, or
      another subtype such as `application/jsonp`) is accepted. */
  lemma JsonPrefixAccepted(
    getReply: string -> Reply, decode: (Bytes, string) -> Result<string>, loads: string -> Result<Json>, url: string,
    suffix: string
  )
    requires AsciiDecode(getReply(url).contentType) == Ok(JsonMediaType + suffix)
    requires decode(getReply(url).content, CharsetOf(JsonMediaType + suffix)).Ok?
    ensures GetRequestJson(getReply, decode, loads, url)
      == loads(decode(getReply(url).content, CharsetOf(JsonMediaType + suffix)).value)
  {
    assert (JsonMediaType + suffix)[..|JsonMediaType|] == JsonMediaType;
  }
}
