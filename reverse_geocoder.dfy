/** The PDOK reverse geocoder (`processing_reverse_geocoder.py`): for every point of the input
    layer it asks the Locatieserver reverse geocoding endpoint what lies there, and writes the
    display name of the nearest object of the chosen type, or the empty string, into one new
    text field of an otherwise unchanged copy of the point.

    The HTTP request, the coordinate transformation and the conversion of a geometry to a point
    are parameters; the rendering of a float in an f-string is the parameter `fmt`. */
module ReverseGeocoder {
  import opened Common
  import opened Features
  import Seqs
  import Locatieserver

  const Tool := "PDOKReverseGeocoder"

  /** The keys of `self.predicates`, in the order of the enumeration parameter's options. */
  const ResultTypes: seq<string> := [
    "adres", "appartementsrecht", "buurt", "gemeente", "hectometerpaal", "perceel",
    "postcode", "provincie", "waterschap", "weg", "wijk", "woonplaats"
  ]

  const Endpoint := "https://geodata.nationaalgeoregister.nl/locatieserver/v4/revgeo/"

  const Wgs84 := "EPSG:4326"

  /** The algorithm's parameters: the chosen options of `RESULT_TYPE`, `DISTANCE_TRESHOLD`
      (`None` when left empty), `ATTRIBUTE_NAME` (`None` when left empty) and the authority id
      of the input layer's CRS. */
  datatype Params = Params(
    resultChoices: seq<nat>,
    distanceThreshold: Option<real>,
    attributeName: Option<string>,
    inCrsAuthId: string)

  /** What `requests.get` gives back: the status code and the outcome of `response.json()`. */
  datatype HttpResponse = HttpResponse(statusCode: int, json: Result<Json>)

  /** The calls the model does not look into: the HTTP GET of a URL, the transformation to
      EPSG:4326, `QgsGeometry.asPoint` followed by `QgsPointXY` (an empty geometry is `None`),
      and the f-string rendering of a coordinate. */
  datatype Services<!G> = Services(
    get: string -> HttpResponse,
    transform: G -> G,
    asPoint: Option<G> -> Result<(real, real)>,
    fmt: real -> string)

  /** The result type: the key of the first chosen option. The whole list of keys is built
      first, so any option out of range raises `IndexError`, and so does an empty choice. */
  function ResultTypeOf(choices: seq<nat>): (r: Result<string>)
    ensures r.Ok? <==> |choices| > 0 && forall k :: 0 <= k < |choices| ==> choices[k] < |ResultTypes|
    ensures r.Ok? ==> r.value == ResultTypes[choices[0]] && r.value in ResultTypes
    ensures r.Err? ==> r.error == IndexError
  {
    if exists k :: 0 <= k < |choices| && choices[k] >= |ResultTypes| then Err(IndexError)
    else if |choices| == 0 then Err(IndexError)
    else Ok(ResultTypes[choices[0]])
  }

  /** The name of the new field: the attribute name when one is given and not empty, otherwise
      the result type. */
  function TargetName(attributeName: Option<string>, resultType: string): (r: string)
    ensures attributeName.Some? && attributeName.value != "" ==> r == attributeName.value
    ensures attributeName.None? || attributeName.value == "" ==> r == resultType
    ensures r == "" ==> resultType == ""
  {
    if attributeName.None? || attributeName.value == "" then resultType else attributeName.value
  }

  /** The output fields: the input fields and then one text field for the target name. A name
      that is already taken is refused before the field is added; the message that would say
      so refers to `field_name`, a local variable of the function that is only assigned later in
      the row loop, so what is raised is `UnboundLocalError`. */
  function Schema(input: seq<Field>, target: string): (r: Result<seq<Field>>)
    ensures r.Err? <==> target in Names(input)
    ensures r.Err? ==> r.error == UnboundLocal("field_name")
    ensures r.Ok? ==> r.value == input + [Field(target, StringField)]
    ensures r.Ok? && Distinct(Names(input)) ==> Distinct(Names(r.value))
  {
    if target in Names(input) then Err(UnboundLocal("field_name"))
    else Ok(Append(input, Field(target, StringField)))
  }

  /** The longitude and latitude a point is queried at: its geometry, transformed to EPSG:4326
      unless the layer already is in it, as a point. */
  function Located<G>(p: Params, s: Services<G>, geometry: Option<G>): (r: Result<(real, real)>)
    ensures p.inCrsAuthId == Wgs84 || geometry.None? ==> r == s.asPoint(geometry)
    ensures p.inCrsAuthId != Wgs84 && geometry.Some? ==> r == s.asPoint(Some(s.transform(geometry.value)))
  {
    var geom := if p.inCrsAuthId != Wgs84 && geometry.Some? then Some(s.transform(geometry.value)) else geometry;
    s.asPoint(geom)
  }

  /** The query part of the f-string, as its three `key=value` pieces joined by `&`. */
  function RevGeoQuery(lon: string, resultType: string, lat: string): string {
    ("lon=" + lon) + "&" + ("type=" + resultType) + "&" + ("lat=" + lat)
  }

  /** The request URL: the endpoint with the longitude, the result type and the latitude as
      its query, inserted as they are, without quoting. */
  function RevGeoUrl(lon: real, lat: real, resultType: string, fmt: real -> string): string {
    Endpoint + "?" + RevGeoQuery(fmt(lon), resultType, fmt(lat))
  }

  /** The query of the URL has exactly the three parameters `lon`, `type` and `lat`, in that
      order, as long as none of the inserted texts contains `&`. */
  lemma RevGeoUrlParams(lon: real, lat: real, resultType: string, fmt: real -> string)
    requires '&' !in fmt(lon) && '&' !in resultType && '&' !in fmt(lat)
    ensures Seqs.Split(RevGeoQuery(fmt(lon), resultType, fmt(lat)), "&")
      == ["lon=" + fmt(lon), "type=" + resultType, "lat=" + fmt(lat)]
  {
    Locatieserver.ThreeParams("lon=" + fmt(lon), "type=" + resultType, "lat=" + fmt(lat));
  }

  /** `data["response"]["docs"]`. */
  function Docs(data: Json): (r: Result<Json>)
    ensures r.Ok? ==> data.JObj? && "response" in data.entries
  {
    var response :- Key(data, "response");
    Key(response, "docs")
  }

  /** The value written to the target field: the empty string when there are no results or
      when the first result lies farther away than the threshold, and otherwise the first
      result's `weergavenaam`, whatever its type. A result exactly at the threshold is kept. */
  function ResultValue(threshold: Option<real>, data: Json): (r: Result<Json>)
    ensures Docs(data).Ok? && Docs(data).value == JArr([]) ==> r == Ok(JStr(""))
    ensures Docs(data).Ok? && Docs(data).value.JArr? && |Docs(data).value.items| > 0 ==>
      var doc := Docs(data).value.items[0];
      && (threshold.None? ==> r == Key(doc, "weergavenaam"))
      && (threshold.Some? && Key(doc, "afstand").Ok? && AsNumber(Key(doc, "afstand").value).Ok? ==>
            if AsNumber(Key(doc, "afstand").value).value > threshold.value then r == Ok(JStr(""))
            else r == Key(doc, "weergavenaam"))
    ensures r.Ok? && r.value != JStr("") ==>
      && Docs(data).Ok? && Len(Docs(data).value).Ok? && Len(Docs(data).value).value > 0
      && First(Docs(data).value).Ok? && Key(First(Docs(data).value).value, "weergavenaam") == r
  {
    var docs :- Docs(data);
    var count :- Len(docs);
    if count == 0 then Ok(JStr(""))
    else
      var doc :- First(docs);
      if threshold.Some? then
        var afstand :- Key(doc, "afstand");
        var distance :- AsNumber(afstand);
        if distance > threshold.value then Ok(JStr("")) else Key(doc, "weergavenaam")
      else Key(doc, "weergavenaam")
  }

  /** The threshold is an upper bound that keeps its own value: the first result is used if
      and only if its distance is at most the threshold. */
  lemma ThresholdInclusive(t: real, distance: real, name: Json, rest: seq<Json>, others: map<string, Json>)
    ensures var doc := JObj(others["afstand" := JFloat(distance)]["weergavenaam" := name]);
      var data := JObj(map["response" := JObj(map["docs" := JArr([doc] + rest)])]);
      && (distance <= t ==> ResultValue(Some(t), data) == Ok(name))
      && (distance > t ==> ResultValue(Some(t), data) == Ok(JStr("")))
  {
  }

  /** What the service answers for one point: its location, the request, the status check,
      the decoded body and the value chosen from it. A status other than 200 raises. */
  function Found<G>(p: Params, s: Services<G>, resultType: string, geometry: Option<G>): (r: Result<Json>)
    ensures Located(p, s, geometry).Ok? ==>
      var xy := Located(p, s, geometry).value;
      var response := s.get(RevGeoUrl(xy.0, xy.1, resultType, s.fmt));
      && (response.statusCode != 200 ==> r == Err(UnexpectedStatus(response.statusCode)))
      && (response.statusCode == 200 && response.json.Ok? ==> r == ResultValue(p.distanceThreshold, response.json.value))
    ensures r.Ok? ==> Located(p, s, geometry).Ok?
  {
    var xy :- Located(p, s, geometry);
    var response := s.get(RevGeoUrl(xy.0, xy.1, resultType, s.fmt));
    if response.statusCode != 200 then Err(UnexpectedStatus(response.statusCode))
    else
      var data :- response.json;
      ResultValue(p.distanceThreshold, data)
  }

  /** One pass of the row loop over the points. Every point that does not raise gives exactly
      one output feature, with the output fields and the point's own geometry (untransformed). */
  function Row<G>(p: Params, s: Services<G>, resultType: string, target: string, fields: seq<Field>, fieldNames: seq<string>, feature: Feature<G>): (r: Result<Step<G>>)
    ensures r.Ok? ==>
      && Found(p, s, resultType, feature.geometry).Ok?
      && r.value.Processed? && r.value.output.Some?
      && r.value.output.value.geometry == feature.geometry
      && r.value.output.value.fields == fields
    ensures Found(p, s, resultType, feature.geometry).Err? ==> r == Err(Found(p, s, resultType, feature.geometry).error)
  {
    var value :- Found(p, s, resultType, feature.geometry);
    var copied :- CopiedFrom(NewFeature<G>(fields), fieldNames, feature.attributes, 0);
    var named :- SetAttribute(copied, target, value);
    Ok(Processed(Some(named.(geometry := feature.geometry))))
  }

  /** Copying a point's values onto a new feature with one field more, then setting that field,
      gives the point's values followed by the new value. */
  lemma CopiedThenSet<G>(input: seq<Field>, target: string, feature: Feature<G>, value: Json)
    requires Distinct(Names(input)) && target !in Names(input)
    requires |feature.attributes| == |input|
    ensures var fields := input + [Field(target, StringField)];
      var copied := CopiedFrom(NewFeature<G>(fields), Names(input), feature.attributes, 0);
      && copied.Ok?
      && SetAttribute(copied.value, target, value) == Ok(copied.value.(attributes := feature.attributes + [value]))
  {
    var fields := input + [Field(target, StringField)];
    assert Names(fields) == Names(input) + [target];
    CopiedOnto(fields, input, feature);
    var copied := CopiedFrom(NewFeature<G>(fields), Names(input), feature.attributes, 0).value;
    SetAtPosition(copied, |input|, value);
    assert copied.attributes[|input| := value] == feature.attributes + [value];
  }

  /** The output feature of a row that goes through: the input values in the input fields, the
      value found for the point in the new field, and the input point's geometry. */
  lemma RowLayout<G>(p: Params, s: Services<G>, resultType: string, input: seq<Field>, target: string, feature: Feature<G>)
    requires Distinct(Names(input)) && target !in Names(input)
    requires |feature.attributes| == |input|
    requires Found(p, s, resultType, feature.geometry).Ok?
    ensures var r := Row(p, s, resultType, target, input + [Field(target, StringField)], Names(input), feature);
      && r.Ok?
      && r.value.output.value.attributes == feature.attributes + [Found(p, s, resultType, feature.geometry).value]
  {
    CopiedThenSet(input, target, feature, Found(p, s, resultType, feature.geometry).value);
  }

  /** The body of the row loop. */
  method ReverseGeocodeFeature<G>(p: Params, s: Services<G>, resultType: string, target: string, fields: seq<Field>, fieldNames: seq<string>, feature: Feature<G>)
    returns (r: Result<Step<G>>)
    ensures r == Row(p, s, resultType, target, fields, fieldNames, feature)
  {
    var xy := Located(p, s, feature.geometry);
    if xy.Err? {
      return Err(xy.error);
    }
    var (lon, lat) := xy.value;
    var response := s.get(RevGeoUrl(lon, lat, resultType, s.fmt));
    if response.statusCode != 200 {
      return Err(UnexpectedStatus(response.statusCode));
    }
    if response.json.Err? {
      return Err(response.json.error);
    }
    var value := ResultValue(p.distanceThreshold, response.json.value);
    if value.Err? {
      return Err(value.error);
    }
    var copied := CopyAttributes(NewFeature<G>(fields), fieldNames, feature.attributes);
    if copied.Err? {
      return Err(copied.error);
    }
    var named := SetAttribute(copied.value, target, value.value);
    if named.Err? {
      return Err(named.error);
    }
    return Ok(Processed(Some(named.value.(geometry := feature.geometry))));
  }

  /** The step of every input point, in layer order. */
  function Rows<G>(p: Params, s: Services<G>, resultType: string, target: string, fields: seq<Field>, fieldNames: seq<string>, features: seq<Feature<G>>): (r: seq<Result<Step<G>>>)
    ensures |r| == |features|
    ensures forall k :: 0 <= k < |features| ==> r[k] == Row(p, s, resultType, target, fields, fieldNames, features[k])
    decreases |features|
  {
    if features == [] then []
    else [Row(p, s, resultType, target, fields, fieldNames, features[0])] + Rows(p, s, resultType, target, fields, fieldNames, features[1..])
  }

  /** `processAlgorithm`: the result type, the target name and the schema, then the row loop. */
  function Process<G>(p: Params, s: Services<G>, input: seq<Field>, features: seq<Feature<G>>, canceled: nat -> bool, destId: string): Run<G> {
    match ResultTypeOf(p.resultChoices)
    case Err(e) => Run([], Err(Wrapped(Tool, e)))
    case Ok(resultType) =>
      var target := TargetName(p.attributeName, resultType);
      match Schema(input, target)
      case Err(e) => Run([], Err(Wrapped(Tool, e)))
      case Ok(fields) => RunRows(Rows(p, s, resultType, target, fields, Names(input), features), canceled, Tool, destId)
  }

  /** No more features than points reach the sink, and the run ends with `{}`, with
      `{OUTPUT: dest_id}`, or with an exception wrapped for the tool. */
  lemma ProcessShape<G>(p: Params, s: Services<G>, input: seq<Field>, features: seq<Feature<G>>, canceled: nat -> bool, destId: string)
    ensures var run := Process(p, s, input, features, canceled, destId);
      && |run.sink| <= |features|
      && (run.outcome.Ok? ==> run.outcome.value == Canceled || run.outcome.value == Completed(destId))
      && (run.outcome.Err? ==> run.outcome.error.Wrapped? && run.outcome.error.tool == Tool)
  {
    var resultType := ResultTypeOf(p.resultChoices);
    if resultType.Ok? {
      var target := TargetName(p.attributeName, resultType.value);
      var fields := Schema(input, target);
      if fields.Ok? {
        RunRowsShape(Rows(p, s, resultType.value, target, fields.value, Names(input), features), canceled, Tool, destId);
      }
    }
  }

  /** A target name that the input layer already has stops the algorithm before any point is
      looked at, whether or not it was canceled. */
  lemma ExistingTargetFails<G>(p: Params, s: Services<G>, input: seq<Field>, features: seq<Feature<G>>, canceled: nat -> bool, destId: string)
    requires ResultTypeOf(p.resultChoices).Ok?
    requires TargetName(p.attributeName, ResultTypeOf(p.resultChoices).value) in Names(input)
    ensures Process(p, s, input, features, canceled, destId) == Run([], Err(Wrapped(Tool, UnboundLocal("field_name"))))
  {
  }

  /** A run that completes has written one feature per input point, in layer order, each
      the point's own output, with the output fields and the point's geometry. */
  lemma CompletedRunOutputs<G>(p: Params, s: Services<G>, input: seq<Field>, features: seq<Feature<G>>, canceled: nat -> bool, destId: string)
    requires Process(p, s, input, features, canceled, destId).outcome == Ok(Completed(destId))
    ensures ResultTypeOf(p.resultChoices).Ok?
    ensures var resultType := ResultTypeOf(p.resultChoices).value;
      var target := TargetName(p.attributeName, resultType);
      var fields := input + [Field(target, StringField)];
      var sink := Process(p, s, input, features, canceled, destId).sink;
      && |sink| == |features|
      && forall j :: 0 <= j < |features| ==>
           && Row(p, s, resultType, target, fields, Names(input), features[j]) == Ok(Processed(Some(sink[j])))
           && sink[j].geometry == features[j].geometry && sink[j].fields == fields
  {
    assert Canceled != Completed(destId) by {
      assert OutputKey in Completed(destId);
    }
    var resultType := ResultTypeOf(p.resultChoices).value;
    var target := TargetName(p.attributeName, resultType);
    var fields := Schema(input, target).value;
    var steps := Rows(p, s, resultType, target, fields, Names(input), features);
    RunPrefix(steps, 0, canceled, Tool, destId);
    RunOutcome(steps, 0, canceled, Tool, destId);
    assert steps[0..] == steps;
    OutputsOnePerRow(steps);
  }

  /** For a layer whose features carry one value per field, a completed run's features hold
      each point's values and then the value the service gave for that point. */
  lemma CompletedRunValues<G>(p: Params, s: Services<G>, input: seq<Field>, features: seq<Feature<G>>, canceled: nat -> bool, destId: string)
    requires Process(p, s, input, features, canceled, destId).outcome == Ok(Completed(destId))
    requires Distinct(Names(input))
    requires forall j :: 0 <= j < |features| ==> |features[j].attributes| == |input|
    ensures ResultTypeOf(p.resultChoices).Ok?
    ensures var sink := Process(p, s, input, features, canceled, destId).sink;
      var resultType := ResultTypeOf(p.resultChoices).value;
      && |sink| == |features|
      && forall j :: 0 <= j < |features| ==>
           && Found(p, s, resultType, features[j].geometry).Ok?
           && sink[j].attributes == features[j].attributes + [Found(p, s, resultType, features[j].geometry).value]
  {
    CompletedRunOutputs(p, s, input, features, canceled, destId);
    var resultType := ResultTypeOf(p.resultChoices).value;
    var target := TargetName(p.attributeName, resultType);
    forall j | 0 <= j < |features|
      ensures Found(p, s, resultType, features[j].geometry).Ok?
      ensures Row(p, s, resultType, target, input + [Field(target, StringField)], Names(input), features[j]).Ok?
      ensures Row(p, s, resultType, target, input + [Field(target, StringField)], Names(input), features[j]).value.output.value.attributes
        == features[j].attributes + [Found(p, s, resultType, features[j].geometry).value]
    {
      RowLayout(p, s, resultType, input, target, features[j]);
    }
  }

  /** The row loop of `processAlgorithm`, from the first point on. */
  method GeocodeRows<G>(p: Params, s: Services<G>, resultType: string, target: string, fields: seq<Field>, fieldNames: seq<string>, features: seq<Feature<G>>, canceled: nat -> bool, destId: string)
    returns (sink: seq<Feature<G>>, outcome: Result<map<string, string>>)
    ensures Run(sink, outcome) == RunFrom(Rows(p, s, resultType, target, fields, fieldNames, features), 0, canceled, Tool, destId)
  {
    ghost var steps := Rows(p, s, resultType, target, fields, fieldNames, features);
    sink := [];
    for i := 0 to |features|
      invariant RunFrom(steps, 0, canceled, Tool, destId) == Prepend(sink, RunFrom(steps, i, canceled, Tool, destId))
    {
      var step := ReverseGeocodeFeature(p, s, resultType, target, fields, fieldNames, features[i]);
      assert step == steps[i];
      Advance(steps, i, sink, canceled, Tool, destId);
      match step
      case Err(e) =>
        return sink, Err(Wrapped(Tool, e));
      case Ok(Skip) =>
      case Ok(Processed(output)) =>
        ghost var before := sink;
        if output.Some? {
          sink := sink + [output.value];
        }
        assert sink == before + Emitted(step);
        if canceled(i + 1) {
          return sink, Ok(Canceled);
        }
    }
    outcome := Ok(Completed(destId));
  }

  /** `processAlgorithm`, with the sink as the sequence of features added to it. */
  method ProcessAlgorithm<G>(p: Params, s: Services<G>, input: seq<Field>, features: seq<Feature<G>>, canceled: nat -> bool, destId: string)
    returns (sink: seq<Feature<G>>, outcome: Result<map<string, string>>)
    ensures Run(sink, outcome) == Process(p, s, input, features, canceled, destId)
    ensures |sink| <= |features|
    ensures outcome.Ok? ==> outcome.value == Canceled || outcome.value == Completed(destId)
    ensures outcome.Err? ==> outcome.error.Wrapped? && outcome.error.tool == Tool
  {
    ProcessShape(p, s, input, features, canceled, destId);
    var resultType := ResultTypeOf(p.resultChoices);
    if resultType.Err? {
      return [], Err(Wrapped(Tool, resultType.error));
    }
    var target := TargetName(p.attributeName, resultType.value);
    var fields := Schema(input, target);
    if fields.Err? {
      return [], Err(Wrapped(Tool, fields.error));
    }
    if canceled(0) {
      return [], Ok(Canceled);
    }
    sink, outcome := GeocodeRows(p, s, resultType.value, target, fields.value, Names(input), features, canceled, destId);
  }
}
