/** The older PDOK geocoder (`processing_geocoder.py` at the package root). Its row loop is the
    provider version's except in three places: a NULL source value is not skipped but searched
    for as the text `NULL`; the search goes through the older Locatieserver client, with a type
    filter built from the result type; and fetching the actual geometry reads a variable
    `response` that is never assigned, so that branch always raises. The schema, the sink's
    geometry type, the score threshold and the construction of the output feature are as in
    `Geocoder`. */
module GeocoderLegacy {
  import opened Common
  import opened Features
  import Text
  import Geocoder
  import LocatieserverLegacy

  /** `str(value)` as an f-string renders an attribute value: `None`, `True`/`False`, the
      decimal digits of an integer, a string as it is. Floats, lists and dicts are rendered by
      the parameter `repr`. */
  function PyStr(j: Json, repr: Json -> string): (r: string)
    ensures j == JNull ==> r == "None"
    ensures j.JStr? ==> r == j.s
  {
    match j
    case JNull => "None"
    case JBool(b) => if b then "True" else "False"
    case JInt(i) => Text.IntToDecimal(i)
    case JStr(s) => s
    case _ => repr(j)
  }

  /** An attribute value as the f-string renders it. An attribute that holds no value is QGIS's
      `NULL`, whose text is `NULL`; any other value is rendered as `PyStr` renders it. */
  function AttributeText(j: Json, repr: Json -> string): (r: string)
    ensures j == JNull ==> r == "NULL"
    ensures j != JNull ==> r == PyStr(j, repr)
    ensures j.JStr? ==> r == j.s
  {
    if j == JNull then "NULL" else PyStr(j, repr)
  }

  /** `get_geom`: the centroid branch is the provider version's; the other branch looks the
      object up and then fails on the unassigned `response`. */
  function GetGeom<G>(p: Geocoder.Params, s: Geocoder.Services<G>, repr: Json -> string, data: Json): (r: Result<Option<G>>)
    ensures Geocoder.UsesCentroid(p) ==> r == Geocoder.GeometryOf(s, Geocoder.FirstField(data, "centroide_ll"))
    ensures !Geocoder.UsesCentroid(p) ==> r.Err?
    ensures !Geocoder.UsesCentroid(p) && Geocoder.FirstField(data, "id").Ok?
      && LocatieserverLegacy.LookupObject(s.get, PyStr(Geocoder.FirstField(data, "id").value, repr), LocatieserverLegacy.Epsg4326).Ok?
      ==> r == Err(NameError("response"))
  {
    if Geocoder.UsesCentroid(p) then Geocoder.GeometryOf(s, Geocoder.FirstField(data, "centroide_ll"))
    else
      var id :- Geocoder.FirstField(data, "id");
      var found :- LocatieserverLegacy.LookupObject(s.get, PyStr(id, repr), LocatieserverLegacy.Epsg4326);
      Err(NameError("response"))
  }

  /** One pass of the row loop: the source value, whatever it is, is searched for. */
  function Row<G>(p: Geocoder.Params, s: Geocoder.Services<G>, repr: Json -> string, fields: seq<Field>, fieldNames: seq<string>, feature: Feature<G>): (r: Result<Step<G>>)
    ensures r != Ok(Skip)
    ensures r.Ok? ==>
      && Attribute(feature, p.srcField).Ok?
      && LocatieserverLegacy.FreeQuery(s.get, AttributeText(Attribute(feature, p.srcField).value, repr),
           LocatieserverLegacy.NewTypeFilterQuery(p.resultType), LocatieserverLegacy.DefaultRows).Ok?
    ensures r.Ok? && r.value.Processed? && r.value.output.Some? ==>
      && Attribute(feature, p.srcField).Ok?
      && var data := LocatieserverLegacy.FreeQuery(s.get, AttributeText(Attribute(feature, p.srcField).value, repr),
           LocatieserverLegacy.NewTypeFilterQuery(p.resultType), LocatieserverLegacy.DefaultRows);
      && data.Ok?
      && var picked := Geocoder.Pick(p.threshold, data.value, GetGeom(p, s, repr, data.value));
      && picked.Ok? && picked.value.Some?
      && Geocoder.Built(p, s, fields, fieldNames, feature, picked.value.value.0, picked.value.value.1) == Ok(r.value.output.value)
  {
    var query :- Attribute(feature, p.srcField);
    var data :- LocatieserverLegacy.FreeQuery(s.get, AttributeText(query, repr), LocatieserverLegacy.NewTypeFilterQuery(p.resultType), LocatieserverLegacy.DefaultRows);
    var picked :- Geocoder.Pick(p.threshold, data, GetGeom(p, s, repr, data));
    if picked.None? then Ok(Processed(None))
    else
      var out :- Geocoder.Built(p, s, fields, fieldNames, feature, picked.value.0, picked.value.1);
      Ok(Processed(Some(out)))
  }

  /** What a row gives, case by case: the attribute's `KeyError`; otherwise the search's error
      for the rendered value, the pick's error, no output when no result is picked, and the
      feature built from an accepted pick (or the error of building it). */
  lemma RowCases<G>(p: Geocoder.Params, s: Geocoder.Services<G>, repr: Json -> string, fields: seq<Field>, fieldNames: seq<string>, feature: Feature<G>)
    ensures var value := Attribute(feature, p.srcField);
      var r := Row(p, s, repr, fields, fieldNames, feature);
      && (value.Err? ==> r == Err(value.error))
      && (value.Ok? ==>
            var data := LocatieserverLegacy.FreeQuery(s.get, AttributeText(value.value, repr),
              LocatieserverLegacy.NewTypeFilterQuery(p.resultType), LocatieserverLegacy.DefaultRows);
            && (data.Err? ==> r == Err(data.error))
            && (data.Ok? ==>
                  var picked := Geocoder.Pick(p.threshold, data.value, GetGeom(p, s, repr, data.value));
                  && (picked.Err? ==> r == Err(picked.error))
                  && (picked == Ok(None) ==> r == Ok(Processed(None)))
                  && (picked.Ok? && picked.value.Some? ==>
                        var built := Geocoder.Built(p, s, fields, fieldNames, feature, picked.value.value.0, picked.value.value.1);
                        r == if built.Ok? then Ok(Processed(Some(built.value))) else Err(built.error))))
  {
  }

  /** When the actual geometry is asked for (and the type is not an address or a postcode), no
      row gives an output: a first result that passes the threshold, and whose lookup gets an
      answer, makes the row raise `NameError`. */
  lemma ActualGeometryFails<G>(p: Geocoder.Params, s: Geocoder.Services<G>, repr: Json -> string, data: Json)
    requires !Geocoder.UsesCentroid(p)
    ensures var picked := Geocoder.Pick(p.threshold, data, GetGeom(p, s, repr, data));
      !(picked.Ok? && picked.value.Some?)
    ensures Len(data).Ok? && Len(data).value > 0 && Geocoder.Rejected(p.threshold, data) == Ok(false)
      && Geocoder.FirstField(data, "id").Ok?
      && LocatieserverLegacy.LookupObject(s.get, PyStr(Geocoder.FirstField(data, "id").value, repr), LocatieserverLegacy.Epsg4326).Ok?
      ==> Geocoder.Pick(p.threshold, data, GetGeom(p, s, repr, data)) == Err(NameError("response"))
  {
  }

  /** The body of the row loop. */
  method GeocodeFeature<G>(p: Geocoder.Params, s: Geocoder.Services<G>, repr: Json -> string, fields: seq<Field>, fieldNames: seq<string>, feature: Feature<G>)
    returns (r: Result<Step<G>>)
    ensures r == Row(p, s, repr, fields, fieldNames, feature)
  {
    var query := Attribute(feature, p.srcField);
    if query.Err? {
      return Err(query.error);
    }
    var typeFq := LocatieserverLegacy.NewTypeFilterQuery(p.resultType);
    var data := LocatieserverLegacy.FreeQuery(s.get, AttributeText(query.value, repr), typeFq, LocatieserverLegacy.DefaultRows);
    if data.Err? {
      return Err(data.error);
    }
    var picked := Geocoder.Pick(p.threshold, data.value, GetGeom(p, s, repr, data.value));
    if picked.Err? {
      return Err(picked.error);
    }
    if picked.value.None? {
      return Ok(Processed(None));
    }
    var (geom, name) := picked.value.value;
    var out := Geocoder.BuildFeature(p, s, fields, fieldNames, feature, geom, name);
    if out.Err? {
      return Err(out.error);
    }
    return Ok(Processed(Some(out.value)));
  }

  /** The step of every input feature, in layer order. */
  function Rows<G>(p: Geocoder.Params, s: Geocoder.Services<G>, repr: Json -> string, fields: seq<Field>, fieldNames: seq<string>, features: seq<Feature<G>>): (r: seq<Result<Step<G>>>)
    ensures |r| == |features|
    ensures forall k :: 0 <= k < |features| ==> r[k] == Row(p, s, repr, fields, fieldNames, features[k])
    decreases |features|
  {
    if features == [] then []
    else [Row(p, s, repr, fields, fieldNames, features[0])] + Rows(p, s, repr, fields, fieldNames, features[1..])
  }

  /** `processAlgorithm`: the schema, the sink's geometry type, then the row loop. */
  function Process<G>(p: Geocoder.Params, s: Geocoder.Services<G>, repr: Json -> string, input: seq<Field>, features: seq<Feature<G>>, canceled: nat -> bool, destId: string): Run<G> {
    var fields := Geocoder.OutputFields(input, p.addXy, p.addDisplayName);
    match Geocoder.SinkType(p.resultType)
    case Err(e) => Run([], Err(Wrapped(Geocoder.Tool, e)))
    case Ok(_) => RunRows(Rows(p, s, repr, fields, Names(input), features), canceled, Geocoder.Tool, destId)
  }

  /** No more features than input features reach the sink, and the run ends with `{}`, with
      `{OUTPUT: dest_id}`, or with an exception wrapped for the tool. */
  lemma ProcessShape<G>(p: Geocoder.Params, s: Geocoder.Services<G>, repr: Json -> string, input: seq<Field>, features: seq<Feature<G>>, canceled: nat -> bool, destId: string)
    ensures var run := Process(p, s, repr, input, features, canceled, destId);
      && |run.sink| <= |features|
      && (run.outcome.Ok? ==> run.outcome.value == Canceled || run.outcome.value == Completed(destId))
      && (run.outcome.Err? ==> run.outcome.error.Wrapped? && run.outcome.error.tool == Geocoder.Tool)
  {
    RunRowsShape(Rows(p, s, repr, Geocoder.OutputFields(input, p.addXy, p.addDisplayName), Names(input), features), canceled, Geocoder.Tool, destId);
  }

  /** With the actual geometry asked for, the sink stays empty whatever the rows and their
      results. */
  lemma ActualGeometryEmptySink<G>(p: Geocoder.Params, s: Geocoder.Services<G>, repr: Json -> string, input: seq<Field>, features: seq<Feature<G>>, canceled: nat -> bool, destId: string)
    requires !Geocoder.UsesCentroid(p)
    ensures Process(p, s, repr, input, features, canceled, destId).sink == []
  {
    var fields := Geocoder.OutputFields(input, p.addXy, p.addDisplayName);
    var steps := Rows(p, s, repr, fields, Names(input), features);
    if Geocoder.SinkType(p.resultType).Ok? && !canceled(0) {
      RunPrefix(steps, 0, canceled, Geocoder.Tool, destId);
      var k :| 0 <= k <= |steps| && RunFrom(steps, 0, canceled, Geocoder.Tool, destId).sink == Outputs(steps[0..k]);
      forall j | 0 <= j < k
        ensures Emitted(steps[0..k][j]) == []
      {
        var feature := features[j];
        var query := Attribute(feature, p.srcField);
        if query.Ok? {
          var data := LocatieserverLegacy.FreeQuery(s.get, AttributeText(query.value, repr), LocatieserverLegacy.NewTypeFilterQuery(p.resultType), LocatieserverLegacy.DefaultRows);
          if data.Ok? {
            ActualGeometryFails(p, s, repr, data.value);
          }
        }
      }
      NoOutputs(steps[0..k]);
    }
  }

  /** The row loop of `processAlgorithm`, from the first row on. */
  method GeocodeRows<G>(p: Geocoder.Params, s: Geocoder.Services<G>, repr: Json -> string, fields: seq<Field>, fieldNames: seq<string>, features: seq<Feature<G>>, canceled: nat -> bool, destId: string)
    returns (sink: seq<Feature<G>>, outcome: Result<map<string, string>>)
    ensures Run(sink, outcome) == RunFrom(Rows(p, s, repr, fields, fieldNames, features), 0, canceled, Geocoder.Tool, destId)
  {
    ghost var steps := Rows(p, s, repr, fields, fieldNames, features);
    sink := [];
    for i := 0 to |features|
      invariant RunFrom(steps, 0, canceled, Geocoder.Tool, destId) == Prepend(sink, RunFrom(steps, i, canceled, Geocoder.Tool, destId))
    {
      var step := GeocodeFeature(p, s, repr, fields, fieldNames, features[i]);
      assert step == steps[i];
      Advance(steps, i, sink, canceled, Geocoder.Tool, destId);
      match step
      case Err(e) =>
        return sink, Err(Wrapped(Geocoder.Tool, e));
      case Ok(Skip) =>
      case Ok(Processed(output)) =>
        ghost var before := sink;
        if output.Some? {
          sink := sink + [output.value];
        }
        assert sink == before + Emitted(step);
        if canceled(i + 1) {
          return sink, Ok(Canceled);
        }
    }
    outcome := Ok(Completed(destId));
  }

  /** `processAlgorithm`, with the sink as the sequence of features added to it. */
  method ProcessAlgorithm<G>(p: Geocoder.Params, s: Geocoder.Services<G>, repr: Json -> string, input: seq<Field>, features: seq<Feature<G>>, canceled: nat -> bool, destId: string)
    returns (sink: seq<Feature<G>>, outcome: Result<map<string, string>>)
    ensures Run(sink, outcome) == Process(p, s, repr, input, features, canceled, destId)
    ensures |sink| <= |features|
    ensures outcome.Ok? ==> outcome.value == Canceled || outcome.value == Completed(destId)
    ensures outcome.Err? ==> outcome.error.Wrapped? && outcome.error.tool == Geocoder.Tool
  {
    ProcessShape(p, s, repr, input, features, canceled, destId);
    var fields := Geocoder.OutputFields(input, p.addXy, p.addDisplayName);
    var sinkType := Geocoder.SinkType(p.resultType);
    if sinkType.Err? {
      return [], Err(Wrapped(Geocoder.Tool, sinkType.error));
    }
    if canceled(0) {
      return [], Ok(Canceled);
    }
    sink, outcome := GeocodeRows(p, s, repr, fields, Names(input), features, canceled, destId);
  }
}
