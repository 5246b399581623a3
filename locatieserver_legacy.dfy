/** The older Locatieserver client (`locatieserver.py` at the package root): the same three
    requests, but the query string is sent as written (its URL encoder is the identity), the
    type filter is read from class attributes in `dir()` order, and `str` of a projection
    fails. */
module LocatieserverLegacy {
  import opened Common
  import opened Seqs
  import Text
  import Locatieserver

  datatype Projection = Epsg4326 | Epsg28992

  /** The members' values are the integers 1 and 2. */
  function ProjectionValue(p: Projection): int {
    match p
    case Epsg4326 => 1
    case Epsg28992 => 2
  }

  /** `str(Projection.X)`: the second `_`-separated piece of `str(self.value)`. */
  function ProjectionName(p: Projection): Result<string> {
    var pieces := Split(Text.IntToDecimal(ProjectionValue(p)), "_");
    if |pieces| < 2 then Err(IndexError) else Ok("EPSG:" + pieces[1])
  }

  /** The value is a decimal integer, which has no `_`, so there is no second piece and `str`
      always raises. */
  lemma ProjectionNameFails(p: Projection)
    ensures ProjectionName(p) == Err(IndexError)
  {
    var text := Text.IntToDecimal(ProjectionValue(p));
    assert '_' !in text;
    SplitNone(text, '_');
  }

  /** `proj_mapping`. */
  function GeometryField(p: Projection): (r: string)
    ensures p == Epsg28992 <==> r == "geometrie_rd"
    ensures p == Epsg4326 <==> r == "geometrie_ll"
  {
    match p
    case Epsg28992 => "geometrie_rd"
    case Epsg4326 => "geometrie_ll"
  }

  /** The class attributes of `TypeFilterQuery` in declaration order; each is `True`. */
  const ClassAttributes: seq<string> := ["gemeente", "woonplaats", "weg", "postcode", "adres"]

  /** A `TypeFilterQuery` object: the values set on the instance for class attributes, which
      shadow the class's. */
  datatype TypeFilterQuery = TypeFilterQuery(instanceAttributes: map<string, bool>)

  /** `TypeFilterQuery(filterType)`. For a non-empty `filterType` the constructor builds a
      lazy `map` of `setattr` calls over the other attributes and never consumes it, so no
      attribute is ever set. */
  function NewTypeFilterQuery(filterType: string): (r: TypeFilterQuery)
    ensures r.instanceAttributes == map[]
  {
    TypeFilterQuery(map[])
  }

  /** `getattr(self, name)`: the instance's value, else the class's. */
  function GetAttr(q: TypeFilterQuery, name: string): Option<bool> {
    if name in q.instanceAttributes then Some(q.instanceAttributes[name])
    else if name in ClassAttributes then Some(true)
    else None
  }

  predicate IsDunder(name: string) { StartsWith(name, "__") }

  /** Names kept by the `filter` of `__str__`: not dunder, and truthy. */
  function Enabled(q: TypeFilterQuery, names: seq<string>): (r: seq<string>)
    ensures |r| <= |names|
    ensures forall i :: 0 <= i < |r| ==> r[i] in names && !IsDunder(r[i]) && GetAttr(q, r[i]) == Some(true)
    ensures forall name :: name in r <==> name in names && !IsDunder(name) && GetAttr(q, name) == Some(true)
  {
    if names == [] then []
    else if !IsDunder(names[0]) && GetAttr(q, names[0]) == Some(true) then [names[0]] + Enabled(q, names[1..])
    else Enabled(q, names[1..])
  }

  /** The filter keeps the order of `names`: filtering a concatenation filters each part. */
  lemma {:induction false} EnabledAppend(q: TypeFilterQuery, a: seq<string>, b: seq<string>)
    ensures Enabled(q, a + b) == Enabled(q, a) + Enabled(q, b)
  {
    if a == [] {
      assert a + b == b;
    } else {
      assert (a + b)[0] == a[0] && (a + b)[1..] == a[1..] + b;
      EnabledAppend(q, a[1..], b);
      if !IsDunder(a[0]) && GetAttr(q, a[0]) == Some(true) {
        assert [a[0]] + (Enabled(q, a[1..]) + Enabled(q, b)) == ([a[0]] + Enabled(q, a[1..])) + Enabled(q, b);
      }
    }
  }

  /** `dir(self)` less its dunder names, which `__str__` filters out first: the class
      attributes (an instance only ever shadows these) in alphabetical order. */
  const DirNames: seq<string> := ["adres", "gemeente", "postcode", "weg", "woonplaats"]

  /** `dir()` order is `sorted` order: the names are the class attributes, sorted. */
  lemma DirNamesSorted()
    ensures Text.Sorted(DirNames)
    ensures multiset(DirNames) == multiset(ClassAttributes)
  {
    assert Text.LexLess("adres", "gemeente");
    assert Text.LexLess("gemeente", "postcode");
    assert Text.LexLess("postcode", "weg");
    assert Text.LexLess("weg", "woonplaats") by {
      assert "weg"[1..] == "eg" && "woonplaats"[1..] == "oonplaats";
      assert Text.LexLess("eg", "oonplaats");
    }
    Text.LexLessAsymmetric("adres", "gemeente");
    Text.LexLessAsymmetric("gemeente", "postcode");
    Text.LexLessAsymmetric("postcode", "weg");
    Text.LexLessAsymmetric("weg", "woonplaats");
  }

  /** `str(TypeFilterQuery)`. */
  function RenderFilter(q: TypeFilterQuery): string {
    "type:(" + Join(Enabled(q, DirNames), " OR ") + ")"
  }

  /** `type:(adres OR gemeente OR postcode OR weg OR woonplaats)`. */
  const DefaultFilterText: string :=
    "type:(" + ("adres" + " OR " + ("gemeente" + " OR " + ("postcode" + " OR " + ("weg" + " OR " + "woonplaats"))))
    + ")"

  /** With no instance attribute set, every class attribute is truthy. */
  lemma {:induction false} EnabledAll(q: TypeFilterQuery, names: seq<string>)
    requires q.instanceAttributes == map[]
    requires forall k :: 0 <= k < |names| ==> names[k] in ClassAttributes && |names[k]| > 0 && names[k][0] != '_'
    ensures Enabled(q, names) == names
  {
    if names != [] {
      assert !IsDunder(names[0]) by {
        assert names[0][..2][0] == names[0][0];
      }
      EnabledAll(q, names[1..]);
    }
  }

  /** Whatever type is asked for, the filter names all five types in alphabetical order: the
      intended narrowing never happens. */
  lemma FilterIgnoresType(filterType: string)
    ensures RenderFilter(NewTypeFilterQuery(filterType)) == DefaultFilterText
  {
    var q := NewTypeFilterQuery(filterType);
    DirNamesPlain();
    EnabledAll(q, DirNames);
    JoinDirNames();
  }

  lemma DirNamesPlain()
    ensures forall k :: 0 <= k < |DirNames| ==> DirNames[k] in ClassAttributes && |DirNames[k]| > 0 && DirNames[k][0] != '_'
  {
  }

  lemma JoinDirNames()
    ensures "type:(" + Join(DirNames, " OR ") + ")" == DefaultFilterText
  {
    var n := DirNames;
    assert Join(n[4..], " OR ") == "woonplaats";
    assert Join(n[3..], " OR ") == "weg" + " OR " + "woonplaats";
    assert Join(n[2..], " OR ") == "postcode" + " OR " + ("weg" + " OR " + "woonplaats");
    assert Join(n[1..], " OR ") == "gemeente" + " OR " + ("postcode" + " OR " + ("weg" + " OR " + "woonplaats"));
  }

  /** The rendered filter holds no `&`: it names only class attributes. */
  lemma FilterNoAmpersand(q: TypeFilterQuery)
    ensures '&' !in RenderFilter(q)
  {
    var names := Enabled(q, DirNames);
    assert forall n :: n in DirNames ==> '&' !in n by {
      assert '&' !in DirNames[0] && '&' !in DirNames[1] && '&' !in DirNames[2];
      assert '&' !in DirNames[3] && '&' !in DirNames[4];
    }
    forall k | 0 <= k < |names|
      ensures '&' !in names[k]
    {
      assert names[k] in DirNames;
    }
    JoinFree(names, " OR ", '&');
  }

  const DefaultRows: int := 5

  /** `url_encode_query_string` returns its argument; the query strings are sent as built. */
  function SearchQueryString(query: string, fq: string, rows: int): string {
    Locatieserver.Param("q", query) + "&" + Locatieserver.Param("rows", Text.IntToDecimal(rows))
      + "&" + Locatieserver.Param("fq", fq)
  }

  function SuggestUrl(query: string, typeFq: TypeFilterQuery, rows: int): string {
    Locatieserver.ServiceEndpoint + "/suggest?" + SearchQueryString(query, RenderFilter(typeFq), rows)
  }

  function FreeUrl(query: string, typeFq: TypeFilterQuery, rows: int): string {
    Locatieserver.ServiceEndpoint + "/free?" + SearchQueryString(query, RenderFilter(typeFq), rows)
  }

  function LookupQueryString(objectId: string, proj: Projection): string {
    Locatieserver.Param("id", objectId) + "&" + Locatieserver.Param("fl", "*," + GeometryField(proj))
  }

  function LookupUrl(objectId: string, proj: Projection): string {
    Locatieserver.ServiceEndpoint + "/lookup?" + LookupQueryString(objectId, proj)
  }

  /** A query without `&` gives the three parameters `q`, `rows` and `fq`. */
  lemma SearchParams(query: string, typeFq: TypeFilterQuery, rows: int)
    requires '&' !in query
    ensures Split(SearchQueryString(query, RenderFilter(typeFq), rows), "&") ==
      [Locatieserver.Param("q", query), Locatieserver.Param("rows", Text.IntToDecimal(rows)),
       Locatieserver.Param("fq", RenderFilter(typeFq))]
  {
    var fq := RenderFilter(typeFq);
    FilterNoAmpersand(typeFq);
    Locatieserver.DecimalNoAmpersand(rows);
    Locatieserver.ParamNoAmpersand("q", query);
    Locatieserver.ParamNoAmpersand("rows", Text.IntToDecimal(rows));
    Locatieserver.ParamNoAmpersand("fq", fq);
    Locatieserver.ThreeParams(Locatieserver.Param("q", query), Locatieserver.Param("rows", Text.IntToDecimal(rows)),
                              Locatieserver.Param("fq", fq));
  }

  /** Without encoding, an `&` in the query starts a new parameter: `q` keeps only the text
      before it and the server sees four parameters. */
  lemma AmpersandSplitsQuery(before: string, after: string, fq: string, rows: int)
    requires '&' !in before && '&' !in after && '&' !in fq
    ensures Split(SearchQueryString(before + "&" + after, fq, rows), "&") ==
      [Locatieserver.Param("q", before), after, Locatieserver.Param("rows", Text.IntToDecimal(rows)),
       Locatieserver.Param("fq", fq)]
  {
    var pieces := [Locatieserver.Param("q", before), after, Locatieserver.Param("rows", Text.IntToDecimal(rows)),
                   Locatieserver.Param("fq", fq)];
    Locatieserver.DecimalNoAmpersand(rows);
    Locatieserver.ParamNoAmpersand("q", before);
    Locatieserver.ParamNoAmpersand("rows", Text.IntToDecimal(rows));
    Locatieserver.ParamNoAmpersand("fq", fq);
    assert Join(pieces, "&") == SearchQueryString(before + "&" + after, fq, rows) by {
      var tail := pieces[2] + "&" + pieces[3];
      assert Join(pieces[2..], "&") == tail;
      assert Join(pieces, "&") == pieces[0] + "&" + (pieces[1] + "&" + tail);
      assert Locatieserver.Param("q", before + "&" + after) == pieces[0] + "&" + after;
    }
    SplitJoinHeadFree(pieces, "&");
  }

  /** A join of pieces without `c` has no `c` when the separator has none. */
  lemma {:induction false} JoinFree(pieces: seq<string>, sep: string, c: char)
    requires c !in sep
    requires forall k :: 0 <= k < |pieces| ==> c !in pieces[k]
    ensures c !in Join(pieces, sep)
  {
    if |pieces| > 1 {
      JoinFree(pieces[1..], sep, c);
    }
  }

  /** `suggest_query`, `free_query` and `lookup_object`: as in the newer client, on these URLs. */
  function SuggestQuery(get: string -> Result<Json>, query: string, typeFq: TypeFilterQuery, rows: int): Result<Json> {
    Locatieserver.Docs(get, SuggestUrl(query, typeFq, rows))
  }

  function FreeQuery(get: string -> Result<Json>, query: string, typeFq: TypeFilterQuery, rows: int): Result<Json> {
    Locatieserver.Docs(get, FreeUrl(query, typeFq, rows))
  }

  function LookupObject(get: string -> Result<Json>, objectId: string, proj: Projection): Result<Option<Json>> {
    Locatieserver.SingleHit(get, LookupUrl(objectId, proj))
  }
}
