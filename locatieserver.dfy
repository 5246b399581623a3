/** The query builders of the PDOK Locatieserver client (`locatieserver/locatieserver.py`): the
    URLs of the `suggest`, `free` and `lookup` requests, the `fq` type filter, and the "exactly one
    hit" rule of a lookup. Values are percent-encoded as section 2.1 of RFC 3986 describes
    (`urllib.parse.quote`). The HTTP request and `json.loads` are the parameter `get`. */
module Locatieserver {
  import opened Common
  import opened Seqs
  import Text
  import Urls
  import Utf8

  const ServiceEndpoint: string := "https://geodata.nationaalgeoregister.nl/locatieserver/v3"

  datatype Projection = Epsg4326 | Epsg28992

  /** `str(Projection.X)`: the member's value. */
  function ProjectionName(p: Projection): (r: string)
    ensures StartsWith(r, "EPSG:")
  {
    match p
    case Epsg4326 => "EPSG:4326"
    case Epsg28992 => "EPSG:28992"
  }

  /** The object types of the Locatieserver, in declaration order. */
  datatype LsType =
    | Provincie | Gemeente | Woonplaats | Weg | Postcode | Adres | Perceel
    | Hectometerpaal | Wijk | Buurt | Waterschapsgrens | Appartementsrecht

  /** A member's value: its name. */
  function TypeName(t: LsType): (r: string)
    ensures |r| > 0 && forall i :: 0 <= i < |r| ==> 'a' <= r[i] <= 'z'
  {
    match t
    case Provincie => "provincie"
    case Gemeente => "gemeente"
    case Woonplaats => "woonplaats"
    case Weg => "weg"
    case Postcode => "postcode"
    case Adres => "adres"
    case Perceel => "perceel"
    case Hectometerpaal => "hectometerpaal"
    case Wijk => "wijk"
    case Buurt => "buurt"
    case Waterschapsgrens => "waterschapsgrens"
    case Appartementsrecht => "appartementsrecht"
  }

  /** Iterating `LsType`: every member once, in declaration order. */
  const AllTypes: seq<LsType> :=
    [Provincie, Gemeente, Woonplaats, Weg, Postcode, Adres, Perceel,
     Hectometerpaal, Wijk, Buurt, Waterschapsgrens, Appartementsrecht]

  lemma AllTypesComplete(t: LsType)
    ensures t in AllTypes
    ensures |AllTypes| == 12
    ensures forall i, j :: 0 <= i < j < |AllTypes| ==> AllTypes[i] != AllTypes[j]
  {
  }

  /** Different members have different names, so a name identifies its member. */
  lemma TypeNameInjective(s: LsType, t: LsType)
    requires TypeName(s) == TypeName(t)
    ensures s == t
  {
  }

  datatype TypeFilterQuery = TypeFilterQuery(filterTypes: seq<LsType>)

  /** `TypeFilterQuery(filter_types)`: an empty list stands for every type, each once, in
      declaration order. */
  function NewTypeFilterQuery(filterTypes: seq<LsType>): (r: TypeFilterQuery)
    ensures |filterTypes| == 0 ==> r.filterTypes == AllTypes && forall t :: t in r.filterTypes
    ensures |filterTypes| > 0 ==> r.filterTypes == filterTypes
    ensures |r.filterTypes| > 0
  {
    if |filterTypes| == 0 then
      assert forall t :: t in AllTypes by {
        forall t ensures t in AllTypes { AllTypesComplete(t); }
      }
      TypeFilterQuery(AllTypes)
    else TypeFilterQuery(filterTypes)
  }

  /** The default `type_fq` of `suggest_query`, built once when the function is defined. */
  const DefaultTypeFilter: TypeFilterQuery := TypeFilterQuery(AllTypes)

  function TypeNames(types: seq<LsType>): (r: seq<string>)
    ensures |r| == |types|
    ensures forall i :: 0 <= i < |types| ==> r[i] == TypeName(types[i])
  {
    if types == [] then [] else [TypeName(types[0])] + TypeNames(types[1..])
  }

  /** The filter before encoding: `type:(a OR b ...)`. */
  function FilterText(q: TypeFilterQuery): string {
    "type:(" + Join(TypeNames(q.filterTypes), " OR ") + ")"
  }

  /** `str(TypeFilterQuery)`: the percent-encoded filter text. */
  function RenderFilter(q: TypeFilterQuery): string {
    Urls.Quote(FilterText(q))
  }

  lemma TypeNameNoSpace(t: LsType)
    ensures ' ' !in TypeName(t)
  {
    var name := TypeName(t);
    assert forall i :: 0 <= i < |name| ==> name[i] != ' ';
  }

  /** The type names can be read back from the filter text: splitting what stands between
      the parentheses on `" OR "` gives the names of the filter's types, in order. */
  lemma FilterNames(q: TypeFilterQuery)
    requires |q.filterTypes| > 0
    ensures var text := FilterText(q);
      |text| >= 7 && Split(text[6..|text| - 1], " OR ") == TypeNames(q.filterTypes)
  {
    var names := TypeNames(q.filterTypes);
    var inner := Join(names, " OR ");
    forall k | 0 <= k < |names|
      ensures ' ' !in names[k]
    {
      TypeNameNoSpace(q.filterTypes[k]);
    }
    SplitJoinHeadFree(names, " OR ");
    var text := FilterText(q);
    assert text == "type:(" + inner + ")";
    assert text[6..|text| - 1] == inner;
  }

  /** Percent-decoding the rendered filter gives the filter text back. */
  lemma RenderFilterRoundTrip(q: TypeFilterQuery)
    ensures Urls.Unquote(RenderFilter(q)) == Utf8.Encode(FilterText(q))
  {
    Urls.QuoteRoundTrip(FilterText(q));
  }

  /** `proj_mapping`: the name of the geometry field for each projection. */
  function GeometryField(p: Projection): (r: string)
    ensures p == Epsg28992 <==> r == "geometrie_rd"
    ensures p == Epsg4326 <==> r == "geometrie_ll"
  {
    match p
    case Epsg28992 => "geometrie_rd"
    case Epsg4326 => "geometrie_ll"
  }

  const DefaultRows: int := 10

  /** One `key=value` parameter of a query string. */
  function Param(key: string, value: string): string {
    key + "=" + value
  }

  lemma ParamNoAmpersand(key: string, value: string)
    requires '&' !in key && '&' !in value
    ensures '&' !in Param(key, value)
  {
  }

  /** The query string of `suggest_query`. */
  function SuggestQueryString(query: string, typeFq: TypeFilterQuery, rows: int): string {
    Param("q", Urls.Quote(query)) + "&" + Param("rows", Text.IntToDecimal(rows)) + "&" + Param("fq", RenderFilter(typeFq))
  }

  function SuggestUrl(query: string, typeFq: TypeFilterQuery, rows: int): string {
    ServiceEndpoint + "/suggest?" + SuggestQueryString(query, typeFq, rows)
  }

  /** The query string of `free_query`: no type filter. */
  function FreeQueryString(query: string, rows: int): string {
    Param("q", Urls.Quote(query)) + "&" + Param("rows", Text.IntToDecimal(rows))
  }

  function FreeUrl(query: string, rows: int): string {
    ServiceEndpoint + "/free?" + FreeQueryString(query, rows)
  }

  /** The query string of `lookup_object`. */
  function LookupQueryString(objectId: string, proj: Projection): string {
    Param("id", Urls.Quote(objectId)) + "&" + Param("fl", Urls.Quote("*," + GeometryField(proj)))
  }

  function LookupUrl(objectId: string, proj: Projection): string {
    ServiceEndpoint + "/lookup?" + LookupQueryString(objectId, proj)
  }

  /** Percent-encoded text holds no `&`. */
  lemma QuoteNoAmpersand(s: string)
    ensures '&' !in Urls.Quote(s)
  {
    Urls.QuoteStringAlphabet(s);
  }

  lemma DecimalNoAmpersand(n: int)
    ensures '&' !in Text.IntToDecimal(n)
  {
  }

  /** Two parameters without `&` joined by `&` split back into themselves. */
  lemma TwoParams(a: string, b: string)
    requires '&' !in a && '&' !in b
    ensures Split(a + "&" + b, "&") == [a, b]
  {
    assert Join([a, b], "&") == a + "&" + b;
    SplitJoinHeadFree([a, b], "&");
  }

  lemma ThreeParams(a: string, b: string, c: string)
    requires '&' !in a && '&' !in b && '&' !in c
    ensures Split(a + "&" + b + "&" + c, "&") == [a, b, c]
  {
    assert Join([a, b, c], "&") == a + "&" + b + "&" + c by {
      assert Join([a, b, c], "&") == a + "&" + Join([b, c], "&");
    }
    SplitJoinHeadFree([a, b, c], "&");
  }

  /** The suggest request carries exactly three parameters, whatever the query holds: the
      query (which percent-decodes to the UTF-8 bytes of the caller's text), the row count
      and the type filter. */
  lemma SuggestParams(query: string, typeFq: TypeFilterQuery, rows: int)
    ensures Split(SuggestQueryString(query, typeFq, rows), "&") ==
      [Param("q", Urls.Quote(query)), Param("rows", Text.IntToDecimal(rows)), Param("fq", RenderFilter(typeFq))]
    ensures Urls.Unquote(Urls.Quote(query)) == Utf8.Encode(query)
  {
    QuoteNoAmpersand(query);
    QuoteNoAmpersand(FilterText(typeFq));
    DecimalNoAmpersand(rows);
    ParamNoAmpersand("q", Urls.Quote(query));
    ParamNoAmpersand("rows", Text.IntToDecimal(rows));
    ParamNoAmpersand("fq", RenderFilter(typeFq));
    ThreeParams(Param("q", Urls.Quote(query)), Param("rows", Text.IntToDecimal(rows)), Param("fq", RenderFilter(typeFq)));
    Urls.QuoteRoundTrip(query);
  }

  /** The free request carries exactly the query and the row count. */
  lemma FreeParams(query: string, rows: int)
    ensures Split(FreeQueryString(query, rows), "&") ==
      [Param("q", Urls.Quote(query)), Param("rows", Text.IntToDecimal(rows))]
  {
    QuoteNoAmpersand(query);
    DecimalNoAmpersand(rows);
    ParamNoAmpersand("q", Urls.Quote(query));
    ParamNoAmpersand("rows", Text.IntToDecimal(rows));
    TwoParams(Param("q", Urls.Quote(query)), Param("rows", Text.IntToDecimal(rows)));
  }

  /** The lookup request carries exactly the identifier and the field list `*,<geometry>`,
      both percent-encoded. */
  lemma LookupParams(objectId: string, proj: Projection)
    ensures Split(LookupQueryString(objectId, proj), "&") ==
      [Param("id", Urls.Quote(objectId)), Param("fl", Urls.Quote("*," + GeometryField(proj)))]
    ensures Urls.Unquote(Urls.Quote("*," + GeometryField(proj))) == Utf8.Encode("*," + GeometryField(proj))
  {
    var fields := "*," + GeometryField(proj);
    QuoteNoAmpersand(objectId);
    QuoteNoAmpersand(fields);
    ParamNoAmpersand("id", Urls.Quote(objectId));
    ParamNoAmpersand("fl", Urls.Quote(fields));
    TwoParams(Param("id", Urls.Quote(objectId)), Param("fl", Urls.Quote(fields)));
    Urls.QuoteRoundTrip(fields);
  }

  /** `content_obj["response"]` of the decoded reply to `url`. */
  function ResponseOf(get: string -> Result<Json>, url: string): (r: Result<Json>)
    ensures r.Ok? <==> get(url).Ok? && Key(get(url).value, "response").Ok?
  {
    var content :- get(url);
    Key(content, "response")
  }

  /** The `docs` of the reply; `free_query` returns them unchanged (its `map` over them is lazy
      and never consumed), `suggest_query` likewise. */
  function Docs(get: string -> Result<Json>, url: string): (r: Result<Json>)
    ensures r.Ok? <==> ResponseOf(get, url).Ok? && Key(ResponseOf(get, url).value, "docs").Ok?
    ensures r.Ok? ==> r.value == get(url).value.entries["response"].entries["docs"]
  {
    var response :- ResponseOf(get, url);
    Key(response, "docs")
  }

  /** `suggest_query`: the docs of the reply to the suggest request. */
  function SuggestQuery(get: string -> Result<Json>, query: string, typeFq: TypeFilterQuery, rows: int): (r: Result<Json>)
  {
    Docs(get, SuggestUrl(query, typeFq, rows))
  }

  /** `free_query`: the docs of the reply to the free request. */
  function FreeQuery(get: string -> Result<Json>, query: string, rows: int): (r: Result<Json>)
  {
    Docs(get, FreeUrl(query, rows))
  }

  /** The "exactly one hit" rule: `None` unless the reply's `numFound` equals 1, then the
      first of its `docs`. */
  function SingleHit(get: string -> Result<Json>, url: string): (r: Result<Option<Json>>)
    ensures var resp := ResponseOf(get, url);
      r == Ok(None) <==> resp.Ok? && Key(resp.value, "numFound").Ok? && !EqualsOne(Key(resp.value, "numFound").value)
    ensures var resp := ResponseOf(get, url);
      r.Ok? && r.value.Some? ==>
        resp.Ok? && Key(resp.value, "numFound").Ok? && EqualsOne(Key(resp.value, "numFound").value)
        && Key(resp.value, "docs").Ok? && First(Key(resp.value, "docs").value) == Ok(r.value.value)
    ensures var resp := ResponseOf(get, url);
      (resp.Ok? && Key(resp.value, "numFound").Ok? && EqualsOne(Key(resp.value, "numFound").value)
        && Key(resp.value, "docs").Ok? && First(Key(resp.value, "docs").value).Ok?) ==>
        r == Ok(Some(First(Key(resp.value, "docs").value).value))
  {
    var response :- ResponseOf(get, url);
    var numFound :- Key(response, "numFound");
    if !EqualsOne(numFound) then Ok(None)
    else
      var docs :- Key(response, "docs");
      var first :- First(docs);
      Ok(Some(first))
  }

  /** `lookup_object`. */
  function LookupObject(get: string -> Result<Json>, objectId: string, proj: Projection): Result<Option<Json>> {
    SingleHit(get, LookupUrl(objectId, proj))
  }

  /** A reply with one hit and a non-empty `docs` list yields its first doc; a reply with any
      other hit count yields `None`, whatever its docs. */
  lemma SingleHitReplies(get: string -> Result<Json>, url: string, numFound: int, doc: Json, more: seq<Json>)
    requires get(url) == Ok(JObj(map["response" := JObj(map["numFound" := JInt(numFound), "docs" := JArr([doc] + more)])]))
    ensures numFound == 1 ==> SingleHit(get, url) == Ok(Some(doc))
    ensures numFound != 1 ==> SingleHit(get, url) == Ok(None)
  {
  }

  /** The docs of a reply come back as they are, whatever else the reply holds. */
  lemma DocsUnchanged(get: string -> Result<Json>, url: string, response: map<string, Json>, other: map<string, Json>)
    requires "docs" in response
    requires get(url) == Ok(JObj(other["response" := JObj(response)]))
    ensures Docs(get, url) == Ok(response["docs"])
  {
  }
}
