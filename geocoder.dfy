/** The PDOK geocoder of the processing provider (`processing_provider/processing_geocoder.py`):
    for every input feature the value of the source attribute is sent to the Locatieserver's
    free search, and the first result, when its score passes the threshold, becomes an output
    feature carrying the input's attributes, its geometry and optionally its centroid and
    display name.

    The Locatieserver reply, the parsing of WKT, the transform to the target CRS and the
    centroid are parameters (`Services`); a geometry is a value of the opaque type `G`. */
module Geocoder {
  import opened Common
  import opened Features
  import Locatieserver

  const Tool: string := "PDOKGeocoder"

  /** The result types offered to the user, by their Locatieserver names. */
  const ResultTypes: seq<string> := ["adres", "gemeente", "postcode", "weg", "woonplaats"]

  /** `GEOM_TYPE_MAP[result_type]`: the geometry type of the sink. */
  function SinkType(resultType: string): (r: Result<WkbType>)
    ensures r.Ok? <==> resultType in ResultTypes
    ensures r.Err? ==> r.error == KeyError(resultType)
    ensures r == Ok(Point) <==> resultType == "adres" || resultType == "postcode"
    ensures r == Ok(MultiPolygon) <==> resultType == "gemeente" || resultType == "woonplaats"
    ensures r == Ok(MultiLineString) <==> resultType == "weg"
  {
    if resultType == "weg" then Ok(MultiLineString)
    else if resultType == "adres" || resultType == "postcode" then Ok(Point)
    else if resultType == "gemeente" || resultType == "woonplaats" then Ok(MultiPolygon)
    else Err(KeyError(resultType))
  }

  /** The algorithm's parameters: the result type, the optional score threshold, whether to
      add `x`/`y` and `weergavenaam` fields, the source field, whether to fetch the object's
      actual geometry, and the `authid()` of the target CRS. */
  datatype Params = Params(
    resultType: string, threshold: Option<real>, addXy: bool, addDisplayName: bool,
    srcField: string, getActualGeom: bool, outCrsAuthId: string)

  /** The calls into code outside the model: the Locatieserver's decoded reply to a URL,
      `QgsGeometry.fromWkt` (`None` for a null geometry, which is falsy), the transform from
      EPSG:4326 to the target CRS, and the x and y of a geometry's centroid. */
  datatype Services<!G> = Services(
    get: string -> Result<Json>, fromWkt: string -> Option<G>, reproject: G -> G,
    centroidXY: G -> (real, real))

  const DisplayNameField: string := "weergavenaam"
  const XField: Field := Field("x", DoubleField)
  const YField: Field := Field("y", DoubleField)
  const DisplayField: Field := Field(DisplayNameField, StringField)

  /** The output schema: the input fields, then `x` and `y` (doubles) when asked for, then
      `weergavenaam` (a string) when asked for. The input fields come first and unchanged,
      every requested name is present, and distinct names stay distinct. */
  function OutputFields(input: seq<Field>, addXy: bool, addDisplayName: bool): (r: seq<Field>)
    ensures |input| <= |r| <= |input| + 3 && input <= r
    ensures addXy ==> XField.name in Names(r) && YField.name in Names(r)
    ensures addDisplayName ==> DisplayField.name in Names(r)
    ensures Distinct(Names(input)) ==> Distinct(Names(r))
  {
    var withX := if addXy then Append(input, XField) else input;
    var withXy := if addXy then Append(withX, YField) else withX;
    if addDisplayName then Append(withXy, DisplayField) else withXy
  }

  /** With distinct input names that are none of the added ones, the schema is exactly the
      input fields followed by the requested fields, in that order. */
  lemma OutputSchema(input: seq<Field>, addXy: bool, addDisplayName: bool)
    requires Distinct(Names(input))
    requires XField.name !in Names(input) && YField.name !in Names(input) && DisplayField.name !in Names(input)
    ensures OutputFields(input, addXy, addDisplayName) ==
      input + (if addXy then [XField, YField] else []) + (if addDisplayName then [DisplayField] else [])
  {
    var xy: seq<Field> := if addXy then [XField, YField] else [];
    var withXy := input + xy;
    if addXy {
      var withX := input + [XField];
      assert Append(input, XField) == withX;
      NameAbsent(input, [XField], YField.name);
      assert Append(withX, YField) == withX + [YField];
      assert withX + [YField] == withXy;
    }
    NameAbsent(input, xy, DisplayField.name);
    if addDisplayName {
      assert Append(withXy, DisplayField) == withXy + [DisplayField];
    }
  }

  /** `data[0][key]`. */
  function FirstField(data: Json, key: string): (r: Result<Json>)
    ensures data.JArr? && |data.items| > 0 ==> r == Key(data.items[0], key)
    ensures r.Ok? ==> First(data).Ok? && Key(First(data).value, key) == r
  {
    var first :- First(data);
    Key(first, key)
  }

  /** `get_geom` takes the centroid from the search result when the actual geometry is not
      asked for, or for addresses and postcodes. */
  predicate UsesCentroid(p: Params) {
    !p.getActualGeom || p.resultType == "adres" || p.resultType == "postcode"
  }

  /** `QgsGeometry.fromWkt` on a value that must be a string. */
  function GeometryOf<G>(s: Services<G>, wkt: Result<Json>): (r: Result<Option<G>>)
    ensures r.Ok? <==> wkt.Ok? && wkt.value.JStr?
    ensures r.Ok? ==> r.value == s.fromWkt(wkt.value.s)
  {
    var value :- wkt;
    var text :- AsString(value);
    Ok(s.fromWkt(text))
  }

  /** `get_geom`: the WKT in `centroide_ll` of the first result, or the WKT in `geometrie_ll` of
      the object the first result's `id` looks up, which must be found. */
  function GetGeom<G>(p: Params, s: Services<G>, data: Json): (r: Result<Option<G>>)
    ensures UsesCentroid(p) ==> r == GeometryOf(s, FirstField(data, "centroide_ll"))
    ensures !UsesCentroid(p) && r.Ok? ==>
      && FirstField(data, "id").Ok? && FirstField(data, "id").value.JStr?
      && var found := Locatieserver.LookupObject(s.get, FirstField(data, "id").value.s, Locatieserver.Epsg4326);
      found.Ok? && found.value.Some? && r == GeometryOf(s, Key(found.value.value, "geometrie_ll"))
    ensures !UsesCentroid(p) && FirstField(data, "id").Ok? && FirstField(data, "id").value.JStr? ==>
      var id := FirstField(data, "id").value.s;
      Locatieserver.LookupObject(s.get, id, Locatieserver.Epsg4326) == Ok(None) ==> r == Err(LookupFailed(id))
  {
    if UsesCentroid(p) then GeometryOf(s, FirstField(data, "centroide_ll"))
    else
      var idValue :- FirstField(data, "id");
      var id :- AsString(idValue);
      var found :- Locatieserver.LookupObject(s.get, id, Locatieserver.Epsg4326);
      if found.None? then Err(LookupFailed(id))
      else GeometryOf(s, Key(found.value, "geometrie_ll"))
  }

  /** Whether the first result's score fails the threshold: never without a threshold,
      otherwise when the score is at most the threshold. */
  function Rejected(threshold: Option<real>, data: Json): (r: Result<bool>)
    ensures threshold.None? ==> r == Ok(false)
    ensures threshold.Some? && r.Ok? ==>
      && FirstField(data, "score").Ok? && AsNumber(FirstField(data, "score").value).Ok?
      && (r.value <==> AsNumber(FirstField(data, "score").value).value <= threshold.value)
  {
    if threshold.None? then Ok(false)
    else
      var score :- FirstField(data, "score");
      var value :- AsNumber(score);
      Ok(value <= threshold.value)
  }

  /** The geometry and display name a row's search results give: none for no results, for a
      score that fails the threshold, or for a null geometry; otherwise the geometry `geom` and
      the first result's `weergavenaam`. */
  function Pick<G>(threshold: Option<real>, data: Json, geom: Result<Option<G>>): (r: Result<Option<(G, Json)>>)
    ensures data.JArr? && data.items == [] ==> r == Ok(None)
    ensures Len(data).Ok? && Len(data).value > 0 && Rejected(threshold, data) == Ok(true) ==> r == Ok(None)
    ensures r.Ok? && r.value.Some? ==>
      && Len(data).Ok? && Len(data).value > 0 && Rejected(threshold, data) == Ok(false)
      && geom == Ok(Some(r.value.value.0)) && FirstField(data, DisplayNameField) == Ok(r.value.value.1)
  {
    var count :- Len(data);
    if count == 0 then Ok(None)
    else
      var rejected :- Rejected(threshold, data);
      if rejected then Ok(None)
      else
        var g :- geom;
        var name :- FirstField(data, DisplayNameField);
        if g.None? then Ok(None) else Ok(Some((g.value, name)))
  }

  /** An accepted first result is picked: its geometry and display name, or nothing when it has
      no geometry. */
  lemma PickAccepted<G>(threshold: Option<real>, data: Json, geom: Result<Option<G>>)
    requires Len(data).Ok? && Len(data).value > 0 && Rejected(threshold, data) == Ok(false)
    requires geom.Ok? && FirstField(data, DisplayNameField).Ok?
    ensures Pick(threshold, data, geom)
      == Ok(if geom.value.None? then None else Some((geom.value.value, FirstField(data, DisplayNameField).value)))
  {
  }

  /** Above the threshold a result is taken as if there were no threshold; a score equal to the
      threshold is rejected like a lower one. */
  lemma ThresholdStrict<G>(t: real, first: Json, more: seq<Json>, score: real, geom: Result<Option<G>>)
    requires first.JObj? && "score" in first.entries && first.entries["score"] == JFloat(score)
    ensures score <= t ==> Pick(Some(t), JArr([first] + more), geom) == Ok(None)
    ensures score > t ==> Pick(Some(t), JArr([first] + more), geom) == Pick(None, JArr([first] + more), geom)
  {
    var data := JArr([first] + more);
    assert FirstField(data, "score") == Ok(JFloat(score));
  }

  /** The geometry of the output: transformed to the target CRS unless that is EPSG:4326. */
  function Placed<G>(p: Params, s: Services<G>, g: G): G {
    if p.outCrsAuthId != "EPSG:4326" then s.reproject(g) else g
  }

  /** `x` and `y` of a centroid. */
  function SetXy<G>(ft: Feature<G>, xy: (real, real)): Result<Feature<G>> {
    var withX :- SetAttribute(ft, XField.name, JFloat(xy.0));
    SetAttribute(withX, YField.name, JFloat(xy.1))
  }

  /** What the row loop does to a feature once the input values are copied onto it: the
      centroid's `x` and `y` and the display name when asked for, then the geometry in the
      target CRS. */
  function Decorated<G>(p: Params, s: Services<G>, copied: Feature<G>, g: G, name: Json): Result<Feature<G>> {
    var placed := Placed(p, s, g);
    var withXy :- if p.addXy then SetXy(copied, s.centroidXY(placed)) else Ok(copied);
    var named :- if p.addDisplayName then SetAttribute(withXy, DisplayNameField, name) else Ok(withXy);
    Ok(named.(geometry := Some(placed)))
  }

  /** The output feature of a row with geometry `g` and display name `name`: the input values
      copied by position, then the decoration. */
  function Built<G>(p: Params, s: Services<G>, fields: seq<Field>, fieldNames: seq<string>, feature: Feature<G>, g: G, name: Json): Result<Feature<G>> {
    var copied :- CopiedFrom(NewFeature(fields), fieldNames, feature.attributes, 0);
    Decorated(p, s, copied, g, name)
  }

  /** The values the decoration adds after the copied ones. */
  function Extras<G>(p: Params, s: Services<G>, g: G, name: Json): seq<Json> {
    var xy := s.centroidXY(Placed(p, s, g));
    (if p.addXy then [JFloat(xy.0), JFloat(xy.1)] else []) + (if p.addDisplayName then [name] else [])
  }

  /** On a feature whose fields end with `x`, `y` (when asked for) and the display name field
      (when asked for), decorating always succeeds: the first `n` values stay, the added ones
      are filled in, and the geometry is the one in the target CRS. */
  lemma DecoratedLayout<G>(p: Params, s: Services<G>, ft: Feature<G>, n: nat, g: G, name: Json)
    requires Distinct(Names(ft.fields)) && |ft.attributes| == |ft.fields|
    requires n + (if p.addXy then 2 else 0) + (if p.addDisplayName then 1 else 0) == |ft.fields|
    requires p.addXy ==> ft.fields[n] == XField && ft.fields[n + 1] == YField
    requires p.addDisplayName ==> ft.fields[|ft.fields| - 1] == DisplayField
    ensures Decorated(p, s, ft, g, name)
      == Ok(Feature(ft.fields, ft.attributes[..n] + Extras(p, s, g, name), Some(Placed(p, s, g))))
  {
    var placed := Placed(p, s, g);
    var xy := s.centroidXY(placed);
    var withXy := ft;
    if p.addXy {
      XyLayout(ft, n, xy);
      withXy := ft.(attributes := ft.attributes[n := JFloat(xy.0)][n + 1 := JFloat(xy.1)]);
    }
    assert (if p.addXy then SetXy(ft, xy) else Ok(ft)) == Ok(withXy);
    var xyPart: seq<Json> := if p.addXy then [JFloat(xy.0), JFloat(xy.1)] else [];
    assert withXy.attributes[..n + |xyPart|] == ft.attributes[..n] + xyPart;
    var named := withXy;
    if p.addDisplayName {
      SetAtPosition(withXy, |ft.fields| - 1, name);
      named := withXy.(attributes := withXy.attributes[|ft.fields| - 1 := name]);
      assert named.attributes == withXy.attributes[..n + |xyPart|] + [name];
    }
    assert (if p.addDisplayName then SetAttribute(withXy, DisplayNameField, name) else Ok(withXy)) == Ok(named);
    assert named.attributes == ft.attributes[..n] + Extras(p, s, g, name);
  }

  /** Under the schema of `OutputSchema`, building always succeeds: the output holds the
      input's values, position by position, followed by the centroid's coordinates and then
      the display name when asked for, and carries the geometry in the target CRS. */
  lemma BuiltLayout<G>(p: Params, s: Services<G>, input: seq<Field>, feature: Feature<G>, g: G, name: Json)
    requires Distinct(Names(input))
    requires XField.name !in Names(input) && YField.name !in Names(input) && DisplayField.name !in Names(input)
    requires |feature.attributes| == |input|
    ensures Built(p, s, OutputFields(input, p.addXy, p.addDisplayName), Names(input), feature, g, name)
      == Ok(Feature(OutputFields(input, p.addXy, p.addDisplayName), feature.attributes + Extras(p, s, g, name), Some(Placed(p, s, g))))
  {
    var fields := OutputFields(input, p.addXy, p.addDisplayName);
    OutputSchema(input, p.addXy, p.addDisplayName);
    CopiedOnto(fields, input, feature);
    var copied := CopiedFrom(NewFeature<G>(fields), Names(input), feature.attributes, 0).value;
    DecoratedLayout(p, s, copied, |input|, g, name);
  }

  /** Setting `x` and `y` on a feature whose fields hold them at `n` and `n + 1`. */
  lemma XyLayout<G>(ft: Feature<G>, n: int, xy: (real, real))
    requires Distinct(Names(ft.fields)) && 0 <= n && n + 1 < |ft.fields| == |ft.attributes|
    requires ft.fields[n] == XField && ft.fields[n + 1] == YField
    ensures SetXy(ft, xy) == Ok(ft.(attributes := ft.attributes[n := JFloat(xy.0)][n + 1 := JFloat(xy.1)]))
  {
    SetAtPosition(ft, n, JFloat(xy.0));
    var withX := ft.(attributes := ft.attributes[n := JFloat(xy.0)]);
    SetAtPosition(withX, n + 1, JFloat(xy.1));
  }

  /** One pass of the row loop, as intended: a `NULL` source value skips the row; otherwise the
      value is searched for, and a usable first result gives an output feature. */
  function Row<G>(p: Params, s: Services<G>, fields: seq<Field>, fieldNames: seq<string>, feature: Feature<G>): (r: Result<Step<G>>)
    ensures r == Ok(Skip) <==> Attribute(feature, p.srcField) == Ok(JNull)
    ensures r.Ok? && r.value.Processed? && r.value.output.Some? ==>
      && Attribute(feature, p.srcField).Ok? && Attribute(feature, p.srcField).value.JStr?
      && var data := Locatieserver.FreeQuery(s.get, Attribute(feature, p.srcField).value.s, Locatieserver.DefaultRows);
      && data.Ok?
      && var picked := Pick(p.threshold, data.value, GetGeom(p, s, data.value));
      && picked.Ok? && picked.value.Some?
      && Built(p, s, fields, fieldNames, feature, picked.value.value.0, picked.value.value.1) == Ok(r.value.output.value)
  {
    var value :- Attribute(feature, p.srcField);
    if value == JNull then Ok(Skip)
    else
      var query :- AsString(value);
      var data :- Locatieserver.FreeQuery(s.get, query, Locatieserver.DefaultRows);
      var picked :- Pick(p.threshold, data, GetGeom(p, s, data));
      if picked.None? then Ok(Processed(None))
      else
        var out :- Built(p, s, fields, fieldNames, feature, picked.value.0, picked.value.1);
        Ok(Processed(Some(out)))
  }

  /** What a row gives, case by case: the attribute's `KeyError`; a skip for `NULL`; `TypeError`
      for a value that is not text; otherwise the search's error, the pick's error, no output
      when no result is picked, and the feature built from an accepted pick (or the error of
      building it). So every accepted pick is geocoded. */
  lemma RowCases<G>(p: Params, s: Services<G>, fields: seq<Field>, fieldNames: seq<string>, feature: Feature<G>)
    ensures var value := Attribute(feature, p.srcField);
      var r := Row(p, s, fields, fieldNames, feature);
      && (value.Err? ==> r == Err(value.error))
      && (value.Ok? && value.value != JNull && !value.value.JStr? ==> r == Err(TypeError("expected str")))
      && (value.Ok? && value.value.JStr? ==>
            var data := Locatieserver.FreeQuery(s.get, value.value.s, Locatieserver.DefaultRows);
            && (data.Err? ==> r == Err(data.error))
            && (data.Ok? ==>
                  var picked := Pick(p.threshold, data.value, GetGeom(p, s, data.value));
                  && (picked.Err? ==> r == Err(picked.error))
                  && (picked == Ok(None) ==> r == Ok(Processed(None)))
                  && (picked.Ok? && picked.value.Some? ==>
                        var built := Built(p, s, fields, fieldNames, feature, picked.value.value.0, picked.value.value.1);
                        r == if built.Ok? then Ok(Processed(Some(built.value))) else Err(built.error))))
  {
  }

  /** The first search result is added: when it passes the threshold and has a geometry and a
      display name, and the output feature can be built, the row's output is that feature. */
  lemma FirstResultGeocoded<G>(p: Params, s: Services<G>, fields: seq<Field>, fieldNames: seq<string>, feature: Feature<G>,
                                query: string, data: Json, g: G)
    requires Attribute(feature, p.srcField) == Ok(JStr(query))
    requires Locatieserver.FreeQuery(s.get, query, Locatieserver.DefaultRows) == Ok(data)
    requires Len(data).Ok? && Len(data).value > 0 && Rejected(p.threshold, data) == Ok(false)
    requires GetGeom(p, s, data) == Ok(Some(g)) && FirstField(data, DisplayNameField).Ok?
    requires Built(p, s, fields, fieldNames, feature, g, FirstField(data, DisplayNameField).value).Ok?
    ensures Row(p, s, fields, fieldNames, feature)
      == Ok(Processed(Some(Built(p, s, fields, fieldNames, feature, g, FirstField(data, DisplayNameField).value).value)))
  {
    RowCases(p, s, fields, fieldNames, feature);
  }

  /** The row as the loop is written. The skip tests `is None`, which QGIS's `NULL` (what
      `feature.attribute` gives for a field with no value) does not pass; the value then reaches
      `quote`, which refuses anything but text. For every other value it is `Row`. */
  function RowAsWritten<G>(p: Params, s: Services<G>, fields: seq<Field>, fieldNames: seq<string>, feature: Feature<G>): (r: Result<Step<G>>)
    ensures r != Ok(Skip)
    ensures Attribute(feature, p.srcField) != Ok(JNull) ==> r == Row(p, s, fields, fieldNames, feature)
  {
    var value :- Attribute(feature, p.srcField);
    var query :- AsString(value);
    var data :- Locatieserver.FreeQuery(s.get, query, Locatieserver.DefaultRows);
    var picked :- Pick(p.threshold, data, GetGeom(p, s, data));
    if picked.None? then Ok(Processed(None))
    else
      var out :- Built(p, s, fields, fieldNames, feature, picked.value.0, picked.value.1);
      Ok(Processed(Some(out)))
  }

  /** A NULL source value: the row as written raises `TypeError` where the intended row, `Row`,
      skips the feature. */
  lemma NullSourceRaises<G>(p: Params, s: Services<G>, fields: seq<Field>, fieldNames: seq<string>, feature: Feature<G>)
    requires Attribute(feature, p.srcField) == Ok(JNull)
    ensures RowAsWritten(p, s, fields, fieldNames, feature) == Err(TypeError("expected str"))
    ensures Row(p, s, fields, fieldNames, feature) == Ok(Skip)
  {
  }

  /** With the geometry taken from the centroid, the result type makes no difference to a row:
      the search is for the source value alone. */
  lemma RowIgnoresResultType<G>(p: Params, t: string, s: Services<G>, fields: seq<Field>, fieldNames: seq<string>, feature: Feature<G>)
    requires !p.getActualGeom
    ensures Row(p, s, fields, fieldNames, feature) == Row(p.(resultType := t), s, fields, fieldNames, feature)
  {
    var q := p.(resultType := t);
    assert UsesCentroid(p) && UsesCentroid(q);
    var value := Attribute(feature, p.srcField);
    if value.Ok? && value.value.JStr? {
      var data := Locatieserver.FreeQuery(s.get, value.value.s, Locatieserver.DefaultRows);
      if data.Ok? {
        assert GetGeom(p, s, data.value) == GetGeom(q, s, data.value);
        var picked := Pick(p.threshold, data.value, GetGeom(p, s, data.value));
        if picked.Ok? && picked.value.Some? {
          assert Built(p, s, fields, fieldNames, feature, picked.value.value.0, picked.value.value.1)
            == Built(q, s, fields, fieldNames, feature, picked.value.value.0, picked.value.value.1);
        }
      }
    }
  }

  /** The body of the row loop. */
  method GeocodeFeature<G>(p: Params, s: Services<G>, fields: seq<Field>, fieldNames: seq<string>, feature: Feature<G>)
    returns (r: Result<Step<G>>)
    ensures r == Row(p, s, fields, fieldNames, feature)
  {
    var value := Attribute(feature, p.srcField);
    if value.Err? {
      return Err(value.error);
    }
    if value.value == JNull {
      return Ok(Skip);
    }
    var query := AsString(value.value);
    if query.Err? {
      return Err(query.error);
    }
    var data := Locatieserver.FreeQuery(s.get, query.value, Locatieserver.DefaultRows);
    if data.Err? {
      return Err(data.error);
    }
    var picked := Pick(p.threshold, data.value, GetGeom(p, s, data.value));
    if picked.Err? {
      return Err(picked.error);
    }
    if picked.value.None? {
      return Ok(Processed(None));
    }
    var (geom, name) := picked.value.value;
    var out := BuildFeature(p, s, fields, fieldNames, feature, geom, name);
    if out.Err? {
      return Err(out.error);
    }
    return Ok(Processed(Some(out.value)));
  }

  /** The lines that build the output feature of a row. */
  method BuildFeature<G>(p: Params, s: Services<G>, fields: seq<Field>, fieldNames: seq<string>, feature: Feature<G>, geom: G, name: Json)
    returns (r: Result<Feature<G>>)
    ensures r == Built(p, s, fields, fieldNames, feature, geom, name)
  {
    var copied := CopyAttributes(NewFeature(fields), fieldNames, feature.attributes);
    if copied.Err? {
      return Err(copied.error);
    }
    var ft := copied.value;
    var placed := Placed(p, s, geom);
    if p.addXy {
      var xy := s.centroidXY(placed);
      var withX := SetAttribute(ft, XField.name, JFloat(xy.0));
      if withX.Err? {
        return Err(withX.error);
      }
      var withY := SetAttribute(withX.value, YField.name, JFloat(xy.1));
      if withY.Err? {
        return Err(withY.error);
      }
      ft := withY.value;
    }
    if p.addDisplayName {
      var named := SetAttribute(ft, DisplayNameField, name);
      if named.Err? {
        return Err(named.error);
      }
      ft := named.value;
    }
    return Ok(ft.(geometry := Some(placed)));
  }

  /** The step of every input feature, in layer order. */
  function Rows<G>(p: Params, s: Services<G>, fields: seq<Field>, fieldNames: seq<string>, features: seq<Feature<G>>): (r: seq<Result<Step<G>>>)
    ensures |r| == |features|
    ensures forall k :: 0 <= k < |features| ==> r[k] == Row(p, s, fields, fieldNames, features[k])
    decreases |features|
  {
    if features == [] then []
    else [Row(p, s, fields, fieldNames, features[0])] + Rows(p, s, fields, fieldNames, features[1..])
  }

  /** `processAlgorithm`: the schema, the sink's geometry type, then the row loop. */
  function Process<G>(p: Params, s: Services<G>, input: seq<Field>, features: seq<Feature<G>>, canceled: nat -> bool, destId: string): Run<G> {
    var fields := OutputFields(input, p.addXy, p.addDisplayName);
    match SinkType(p.resultType)
    case Err(e) => Run([], Err(Wrapped(Tool, e)))
    case Ok(_) => RunRows(Rows(p, s, fields, Names(input), features), canceled, Tool, destId)
  }

  /** No more features than input features reach the sink, and the run ends with `{}`, with
      `{OUTPUT: dest_id}`, or with an exception wrapped for this tool. */
  lemma ProcessShape<G>(p: Params, s: Services<G>, input: seq<Field>, features: seq<Feature<G>>, canceled: nat -> bool, destId: string)
    ensures var run := Process(p, s, input, features, canceled, destId);
      && |run.sink| <= |features|
      && (run.outcome.Ok? ==> run.outcome.value == Canceled || run.outcome.value == Completed(destId))
      && (run.outcome.Err? ==> run.outcome.error.Wrapped? && run.outcome.error.tool == Tool)
  {
    RunRowsShape(Rows(p, s, OutputFields(input, p.addXy, p.addDisplayName), Names(input), features), canceled, Tool, destId);
  }

  /** The row loop of `processAlgorithm`, from the first row on. */
  method GeocodeRows<G>(p: Params, s: Services<G>, fields: seq<Field>, fieldNames: seq<string>, features: seq<Feature<G>>, canceled: nat -> bool, destId: string)
    returns (sink: seq<Feature<G>>, outcome: Result<map<string, string>>)
    ensures Run(sink, outcome) == RunFrom(Rows(p, s, fields, fieldNames, features), 0, canceled, Tool, destId)
  {
    ghost var steps := Rows(p, s, fields, fieldNames, features);
    sink := [];
    for i := 0 to |features|
      invariant RunFrom(steps, 0, canceled, Tool, destId) == Prepend(sink, RunFrom(steps, i, canceled, Tool, destId))
    {
      var step := GeocodeFeature(p, s, fields, fieldNames, features[i]);
      assert step == steps[i];
      Advance(steps, i, sink, canceled, Tool, destId);
      match step
      case Err(e) =>
        return sink, Err(Wrapped(Tool, e));
      case Ok(Skip) =>
      case Ok(Processed(output)) =>
        ghost var before := sink;
        if output.Some? {
          sink := sink + [output.value];
        }
        assert sink == before + Emitted(step);
        if canceled(i + 1) {
          return sink, Ok(Canceled);
        }
    }
    outcome := Ok(Completed(destId));
  }

  /** `processAlgorithm`, with the sink as the sequence of features added to it. At most one
      feature per input feature reaches the sink, and the run ends with `{}`, with
      `{OUTPUT: dest_id}`, or with an exception wrapped for this tool. */
  method ProcessAlgorithm<G>(p: Params, s: Services<G>, input: seq<Field>, features: seq<Feature<G>>, canceled: nat -> bool, destId: string)
    returns (sink: seq<Feature<G>>, outcome: Result<map<string, string>>)
    ensures Run(sink, outcome) == Process(p, s, input, features, canceled, destId)
    ensures |sink| <= |features|
    ensures outcome.Ok? ==> outcome.value == Canceled || outcome.value == Completed(destId)
    ensures outcome.Err? ==> outcome.error.Wrapped? && outcome.error.tool == Tool
  {
    ProcessShape(p, s, input, features, canceled, destId);
    var fields := OutputFields(input, p.addXy, p.addDisplayName);
    var sinkType := SinkType(p.resultType);
    if sinkType.Err? {
      return [], Err(Wrapped(Tool, sinkType.error));
    }
    if canceled(0) {
      return [], Ok(Canceled);
    }
    sink, outcome := GeocodeRows(p, s, fields, Names(input), features, canceled, destId);
  }

  /** A run that completes has searched every row: its sink holds, in layer order, the output of
      every row that gave one. */
  lemma CompletedRunOutputs<G>(p: Params, s: Services<G>, input: seq<Field>, features: seq<Feature<G>>, canceled: nat -> bool, destId: string)
    requires Process(p, s, input, features, canceled, destId).outcome == Ok(Completed(destId))
    ensures Process(p, s, input, features, canceled, destId).sink ==
      Outputs(Rows(p, s, OutputFields(input, p.addXy, p.addDisplayName), Names(input), features))
  {
    var steps := Rows(p, s, OutputFields(input, p.addXy, p.addDisplayName), Names(input), features);
    assert Canceled != Completed(destId) by {
      assert OutputKey in Completed(destId);
    }
    RunPrefix(steps, 0, canceled, Tool, destId);
    assert steps[0..] == steps;
  }
}
