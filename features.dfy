/** The QGIS plumbing the three processing algorithms share: field lists (`QgsFields`),
    features (`QgsFeature`) and their attribute access by field name, the loop that copies an
    input feature's attributes onto a new feature, and the row loop around them with its
    cancellation checks, its sink and its results dictionary.

    Field names are matched exactly; geometries are values of an opaque type `G`. */
module Features {
  import opened Common

  /** The `QVariant` type a field is declared with. */
  datatype FieldType = DoubleField | StringField | InputField(typeName: string)

  datatype Field = Field(name: string, fieldType: FieldType)

  /** The geometry type a sink is created with (`QgsWkbTypes`). */
  datatype WkbType = Point | MultiLineString | MultiPolygon

  function Names(fields: seq<Field>): (r: seq<string>)
    ensures |r| == |fields|
    ensures forall i :: 0 <= i < |fields| ==> r[i] == fields[i].name
  {
    seq(|fields|, i requires 0 <= i < |fields| => fields[i].name)
  }

  predicate Distinct(names: seq<string>) {
    forall i, j :: 0 <= i < j < |names| ==> names[i] != names[j]
  }

  /** The index of the field called `name`: the first position holding it, or -1. */
  function IndexOf(names: seq<string>, name: string): (r: int)
    ensures -1 <= r < |names|
    ensures r == -1 <==> name !in names
    ensures r >= 0 ==> names[r] == name && name !in names[..r]
  {
    if names == [] then -1
    else if names[0] == name then 0
    else
      var k := IndexOf(names[1..], name);
      if k == -1 then -1
      else
        assert names[..k + 1] == [names[0]] + names[1..][..k];
        k + 1
  }

  /** Among distinct names, each name's index is its position. */
  lemma IndexOfDistinct(names: seq<string>, i: int)
    requires Distinct(names) && 0 <= i < |names|
    ensures IndexOf(names, names[i]) == i
  {
  }

  /** `QgsFields.append`: a field whose name is already taken is refused and the list stays as
      it was; any other field goes at the end. Either way the name is then present, and the
      names stay distinct. */
  function Append(fields: seq<Field>, f: Field): (r: seq<Field>)
    ensures f.name in Names(fields) <==> r == fields
    ensures f.name !in Names(fields) ==> r == fields + [f]
    ensures f.name in Names(r)
    ensures fields <= r && Names(fields) <= Names(r) && |r| <= |fields| + 1
    ensures Distinct(Names(fields)) ==> Distinct(Names(r))
  {
    if f.name in Names(fields) then fields
    else
      var r := fields + [f];
      assert Names(r)[|fields|] == f.name;
      assert Names(r) == Names(fields) + [f.name];
      r
  }

  /** A name absent from two field lists is absent from their concatenation. */
  lemma NameAbsent(fields: seq<Field>, extra: seq<Field>, name: string)
    requires name !in Names(fields)
    requires forall k :: 0 <= k < |extra| ==> extra[k].name != name
    ensures name !in Names(fields + extra)
  {
    forall i | 0 <= i < |fields + extra|
      ensures Names(fields + extra)[i] != name
    {
      if i < |fields| {
        assert Names(fields + extra)[i] == Names(fields)[i];
      } else {
        assert (fields + extra)[i] == extra[i - |fields|];
      }
    }
  }

  /** A `QgsFeature`: the fields it was created with, its attribute values by position, and its
      geometry (`None` while none is set, or for a null geometry). */
  datatype Feature<G> = Feature(fields: seq<Field>, attributes: seq<Json>, geometry: Option<G>)

  /** `QgsFeature(fields)`: one null attribute per field and no geometry. */
  function NewFeature<G>(fields: seq<Field>): (r: Feature<G>)
    ensures r.fields == fields && r.geometry == None
    ensures |r.attributes| == |fields|
    ensures forall i :: 0 <= i < |fields| ==> r.attributes[i] == JNull
  {
    Feature(fields, seq(|fields|, _ => JNull), None)
  }

  /** `feature.attribute(name)`: a `KeyError` for a name that is not a field; otherwise the
      value at the field's index (a null when the feature stores fewer values). */
  function Attribute<G>(ft: Feature<G>, name: string): (r: Result<Json>)
    ensures r.Err? <==> name !in Names(ft.fields)
    ensures r.Err? ==> r.error == KeyError(name)
    ensures r.Ok? && IndexOf(Names(ft.fields), name) < |ft.attributes| ==>
      r.value == ft.attributes[IndexOf(Names(ft.fields), name)]
  {
    var i := IndexOf(Names(ft.fields), name);
    if i == -1 then Err(KeyError(name))
    else if i < |ft.attributes| then Ok(ft.attributes[i])
    else Ok(JNull)
  }

  /** `feature.setAttribute(name, value)`: a `KeyError` for a name that is not a field;
      otherwise the value replaces the one at the field's index and nothing else changes. */
  function SetAttribute<G>(ft: Feature<G>, name: string, value: Json): (r: Result<Feature<G>>)
    ensures r.Err? <==> name !in Names(ft.fields)
    ensures r.Err? ==> r.error == KeyError(name)
    ensures r.Ok? ==> r.value.fields == ft.fields && r.value.geometry == ft.geometry
    ensures r.Ok? ==> |r.value.attributes| == |ft.attributes| && forall j :: 0 <= j < |ft.attributes| ==>
      r.value.attributes[j] == (if j == IndexOf(Names(ft.fields), name) then value else ft.attributes[j])
  {
    var i := IndexOf(Names(ft.fields), name);
    if i == -1 then Err(KeyError(name))
    else if i < |ft.attributes| then Ok(ft.(attributes := ft.attributes[i := value]))
    else Ok(ft)
  }

  /** The attribute-copy loop from position `i` on: the value at each position is set on `ft`
      under the input field name at that position. A position past the input field names is
      an `IndexError`. */
  function CopiedFrom<G>(ft: Feature<G>, names: seq<string>, attrs: seq<Json>, i: nat): (r: Result<Feature<G>>)
    requires i <= |attrs|
    ensures r.Ok? ==>
      && r.value.fields == ft.fields && r.value.geometry == ft.geometry
      && |r.value.attributes| == |ft.attributes|
    decreases |attrs| - i
  {
    if i == |attrs| then Ok(ft)
    else if i >= |names| then Err(IndexError)
    else
      var next :- SetAttribute(ft, names[i], attrs[i]);
      CopiedFrom(next, names, attrs, i + 1)
  }

  /** `for i in range(len(attrs)): new_ft.setAttribute(field_names[i], attrs[i])`. */
  method CopyAttributes<G>(target: Feature<G>, names: seq<string>, attrs: seq<Json>) returns (r: Result<Feature<G>>)
    ensures r == CopiedFrom(target, names, attrs, 0)
  {
    var ft := target;
    for i := 0 to |attrs|
      invariant CopiedFrom(target, names, attrs, 0) == CopiedFrom(ft, names, attrs, i)
    {
      if i >= |names| {
        return Err(IndexError);
      }
      var next := SetAttribute(ft, names[i], attrs[i]);
      if next.Err? {
        return Err(next.error);
      }
      ft := next.value;
    }
    return Ok(ft);
  }

  /** Setting the attribute named by the field at position `i`, among distinct names, replaces
      the value at position `i`. */
  lemma SetAtPosition<G>(ft: Feature<G>, i: int, value: Json)
    requires Distinct(Names(ft.fields)) && 0 <= i < |ft.fields| == |ft.attributes|
    ensures SetAttribute(ft, ft.fields[i].name, value) == Ok(ft.(attributes := ft.attributes[i := value]))
  {
    IndexOfDistinct(Names(ft.fields), i);
  }

  /** Copying onto a feature whose fields start with the input fields, all names distinct, puts
      each input value at its own position and leaves the other attributes, the fields and the
      geometry as they were. */
  lemma {:induction false} CopyPositional<G>(ft: Feature<G>, names: seq<string>, attrs: seq<Json>, i: nat)
    requires i <= |attrs| <= |names| <= |ft.fields| == |ft.attributes|
    requires forall k :: 0 <= k < |names| ==> names[k] == ft.fields[k].name
    requires Distinct(Names(ft.fields))
    requires forall k :: 0 <= k < i ==> ft.attributes[k] == attrs[k]
    ensures CopiedFrom(ft, names, attrs, i).Ok?
    ensures var out := CopiedFrom(ft, names, attrs, i).value;
      out.fields == ft.fields && out.geometry == ft.geometry && |out.attributes| == |ft.attributes|
      && (forall k :: 0 <= k < |attrs| ==> out.attributes[k] == attrs[k])
      && (forall k :: |attrs| <= k < |ft.attributes| ==> out.attributes[k] == ft.attributes[k])
    decreases |attrs| - i
  {
    if i < |attrs| {
      SetAtPosition(ft, i, attrs[i]);
      var next := ft.(attributes := ft.attributes[i := attrs[i]]);
      assert names[i] == ft.fields[i].name;
      assert CopiedFrom(ft, names, attrs, i) == CopiedFrom(next, names, attrs, i + 1);
      assert next.fields == ft.fields;
      assert forall k :: 0 <= k < i + 1 ==> next.attributes[k] == attrs[k];
      CopyPositional(next, names, attrs, i + 1);
    }
  }

  /** Copying an input feature onto a new feature whose fields start with the input fields:
      the input's values come first, position by position, and the added fields stay null. */
  lemma CopiedOnto<G>(fields: seq<Field>, input: seq<Field>, feature: Feature<G>)
    requires input <= fields && Distinct(Names(fields))
    requires |feature.attributes| == |input|
    ensures var c := CopiedFrom(NewFeature<G>(fields), Names(input), feature.attributes, 0);
      && c.Ok? && c.value.fields == fields && c.value.geometry == None
      && |c.value.attributes| == |fields| && c.value.attributes[..|input|] == feature.attributes
      && forall k :: |input| <= k < |fields| ==> c.value.attributes[k] == JNull
  {
    var empty: Feature<G> := NewFeature(fields);
    CopyPositional(empty, Names(input), feature.attributes, 0);
  }

  /** Copying more values than there are input field names fails with `IndexError`, once every
      named position has been set. */
  lemma {:induction false} CopyTooMany<G>(ft: Feature<G>, names: seq<string>, attrs: seq<Json>, i: nat)
    requires i <= |names| < |attrs|
    requires forall k :: i <= k < |names| ==> names[k] in Names(ft.fields)
    ensures CopiedFrom(ft, names, attrs, i) == Err(IndexError)
    decreases |names| - i
  {
    if i < |names| {
      var next := SetAttribute(ft, names[i], attrs[i]).value;
      CopyTooMany(next, names, attrs, i + 1);
    }
  }

  /** What one pass of a row loop's body leaves: the row was skipped with `continue` (so no
      cancellation check follows it), or it was processed and sent its feature, if any, to the
      sink. */
  datatype Step<G> = Skip | Processed(output: Option<Feature<G>>)

  /** The features sent to the sink, and what `processAlgorithm` ended with: its results
      dictionary, or the exception it raised. */
  datatype Run<G> = Run(sink: seq<Feature<G>>, outcome: Result<map<string, string>>)

  const OutputKey: string := "OUTPUT"

  /** `{OUTPUT: dest_id}`, returned once every row is done. */
  function Completed(destId: string): map<string, string> {
    map[OutputKey := destId]
  }

  /** `{}`, returned when the user cancels. */
  const Canceled: map<string, string> := map[]

  /** The features a row's step sends to the sink. */
  function Emitted<G>(step: Result<Step<G>>): (r: seq<Feature<G>>)
    ensures |r| <= 1
    ensures |r| == 1 <==> step.Ok? && step.value.Processed? && step.value.output.Some?
    ensures |r| == 1 ==> r[0] == step.value.output.value
  {
    if step.Ok? && step.value.Processed? && step.value.output.Some? then [step.value.output.value] else []
  }

  /** The features a sequence of steps sends to the sink, in row order. */
  function Outputs<G>(steps: seq<Result<Step<G>>>): seq<Feature<G>> {
    if steps == [] then [] else Emitted(steps[0]) + Outputs(steps[1..])
  }

  /** No row sends more than one feature. */
  lemma {:induction false} OutputsBound<G>(steps: seq<Result<Step<G>>>)
    ensures |Outputs(steps)| <= |steps|
  {
    if steps != [] {
      OutputsBound(steps[1..]);
    }
  }

  /** The outputs of consecutive rows follow each other. */
  lemma {:induction false} OutputsAppend<G>(a: seq<Result<Step<G>>>, b: seq<Result<Step<G>>>)
    ensures Outputs(a + b) == Outputs(a) + Outputs(b)
  {
    if a != [] {
      assert (a + b)[1..] == a[1..] + b;
      OutputsAppend(a[1..], b);
    } else {
      assert a + b == b;
    }
  }

  /** When every row sends exactly one feature, the sink holds one feature per row, each the
      output of the row at the same position. */
  lemma {:induction false} OutputsOnePerRow<G>(steps: seq<Result<Step<G>>>)
    requires forall j :: 0 <= j < |steps| ==> steps[j].Ok? && steps[j].value.Processed? && steps[j].value.output.Some?
    ensures |Outputs(steps)| == |steps|
    ensures forall j :: 0 <= j < |steps| ==> Outputs(steps)[j] == steps[j].value.output.value
  {
    if steps != [] {
      OutputsOnePerRow(steps[1..]);
    }
  }

  function Prepend<G>(emitted: seq<Feature<G>>, run: Run<G>): Run<G> {
    Run(emitted + run.sink, run.outcome)
  }

  lemma PrependTwice<G>(a: seq<Feature<G>>, b: seq<Feature<G>>, run: Run<G>)
    ensures Prepend(a, Prepend(b, run)) == Prepend(a + b, run)
  {
    assert a + (b + run.sink) == (a + b) + run.sink;
  }

  /** The row loop from row `i` on. `canceled(i + 1)` is the answer of the cancellation check
      made after row `i`; an exception ends the loop and is wrapped into a
      `QgsProcessingException` naming the tool. */
  function RunFrom<G>(steps: seq<Result<Step<G>>>, i: nat, canceled: nat -> bool, tool: string, destId: string): Run<G>
    requires i <= |steps|
    decreases |steps| - i
  {
    if i == |steps| then Run([], Ok(Completed(destId)))
    else
      match steps[i]
      case Err(e) => Run([], Err(Wrapped(tool, e)))
      case Ok(Skip) => RunFrom(steps, i + 1, canceled, tool, destId)
      case Ok(Processed(_)) =>
        if canceled(i + 1) then Run(Emitted(steps[i]), Ok(Canceled))
        else Prepend(Emitted(steps[i]), RunFrom(steps, i + 1, canceled, tool, destId))
  }

  /** The cancellation check made before the first row (`canceled(0)`), then the row loop. */
  function RunRows<G>(steps: seq<Result<Step<G>>>, canceled: nat -> bool, tool: string, destId: string): Run<G> {
    if canceled(0) then Run([], Ok(Canceled)) else RunFrom(steps, 0, canceled, tool, destId)
  }

  /** One turn of a row loop that keeps "the run from the first row is the sink so far followed
      by the run from row `i`": an exception ends the run with the sink so far, a skipped row
      moves on, a processed row adds its output and then stops on cancellation or moves on. */
  lemma Advance<G>(steps: seq<Result<Step<G>>>, i: nat, sink: seq<Feature<G>>, canceled: nat -> bool, tool: string, destId: string)
    requires i < |steps|
    requires RunFrom(steps, 0, canceled, tool, destId) == Prepend(sink, RunFrom(steps, i, canceled, tool, destId))
    ensures steps[i].Err? ==> RunFrom(steps, 0, canceled, tool, destId) == Run(sink, Err(Wrapped(tool, steps[i].error)))
    ensures steps[i] == Ok(Skip) ==>
      RunFrom(steps, 0, canceled, tool, destId) == Prepend(sink, RunFrom(steps, i + 1, canceled, tool, destId))
    ensures steps[i].Ok? && steps[i].value.Processed? && canceled(i + 1) ==>
      RunFrom(steps, 0, canceled, tool, destId) == Run(sink + Emitted(steps[i]), Ok(Canceled))
    ensures steps[i].Ok? && steps[i].value.Processed? && !canceled(i + 1) ==>
      RunFrom(steps, 0, canceled, tool, destId) == Prepend(sink + Emitted(steps[i]), RunFrom(steps, i + 1, canceled, tool, destId))
  {
    if steps[i].Err? {
      assert sink + [] == sink;
    } else if steps[i].value.Processed? && !canceled(i + 1) {
      PrependTwice(sink, Emitted(steps[i]), RunFrom(steps, i + 1, canceled, tool, destId));
    }
  }

  /** The sink holds the outputs of a run of consecutive rows, in row order, and so no more
      features than rows; a loop that completes has gone through every row. */
  lemma {:induction false} RunPrefix<G>(steps: seq<Result<Step<G>>>, i: nat, canceled: nat -> bool, tool: string, destId: string)
    requires i <= |steps|
    ensures exists k :: i <= k <= |steps| && RunFrom(steps, i, canceled, tool, destId).sink == Outputs(steps[i..k])
    ensures RunFrom(steps, i, canceled, tool, destId).outcome == Ok(Completed(destId)) ==>
      RunFrom(steps, i, canceled, tool, destId).sink == Outputs(steps[i..])
    ensures |RunFrom(steps, i, canceled, tool, destId).sink| <= |steps| - i
    decreases |steps| - i
  {
    var run := RunFrom(steps, i, canceled, tool, destId);
    assert OutputKey in Completed(destId);
    if i == |steps| {
      assert run.sink == Outputs(steps[i..i]);
    } else {
      assert steps[i..][1..] == steps[i + 1..];
      if steps[i].Err? {
        assert run.sink == Outputs(steps[i..i]);
        OutputsBound(steps[i..i]);
      } else if steps[i].value.Skip? {
        RunPrefix(steps, i + 1, canceled, tool, destId);
        var k :| i + 1 <= k <= |steps| && run.sink == Outputs(steps[i + 1..k]);
        assert steps[i..k][1..] == steps[i + 1..k];
        assert run.sink == Outputs(steps[i..k]);
      } else if canceled(i + 1) {
        assert steps[i..i + 1][1..] == [];
        assert run.sink == Outputs(steps[i..i + 1]);
      } else {
        RunPrefix(steps, i + 1, canceled, tool, destId);
        var k :| i + 1 <= k <= |steps| && RunFrom(steps, i + 1, canceled, tool, destId).sink == Outputs(steps[i + 1..k]);
        assert steps[i..k][1..] == steps[i + 1..k];
        assert run.sink == Outputs(steps[i..k]);
      }
    }
  }

  /** The loop ends in one of three ways: `{}` on cancellation, `{OUTPUT: dest_id}` on
      completion, or the wrapped exception of a row. It completes exactly when no row raises
      and no check after a processed row reports a cancellation. */
  lemma {:induction false} RunOutcome<G>(steps: seq<Result<Step<G>>>, i: nat, canceled: nat -> bool, tool: string, destId: string)
    requires i <= |steps|
    ensures var o := RunFrom(steps, i, canceled, tool, destId).outcome;
      o == Ok(Canceled) || o == Ok(Completed(destId))
      || exists j :: i <= j < |steps| && steps[j].Err? && o == Err(Wrapped(tool, steps[j].error))
    ensures RunFrom(steps, i, canceled, tool, destId).outcome == Ok(Completed(destId)) <==>
      forall j :: i <= j < |steps| ==> steps[j].Ok? && (steps[j].value.Processed? ==> !canceled(j + 1))
    decreases |steps| - i
  {
    if i < |steps| {
      assert Completed(destId) != Canceled by {
        assert OutputKey in Completed(destId);
      }
      RunOutcome(steps, i + 1, canceled, tool, destId);
    }
  }

  /** The whole loop, with the check before the first row: no more features than rows reach
      the sink, and the loop ends with `{}`, with `{OUTPUT: dest_id}`, or with an exception
      wrapped for the tool. */
  lemma RunRowsShape<G>(steps: seq<Result<Step<G>>>, canceled: nat -> bool, tool: string, destId: string)
    ensures var run := RunRows(steps, canceled, tool, destId);
      && |run.sink| <= |steps|
      && (run.outcome.Ok? ==> run.outcome.value == Canceled || run.outcome.value == Completed(destId))
      && (run.outcome.Err? ==> run.outcome.error.Wrapped? && run.outcome.error.tool == tool)
  {
    if !canceled(0) {
      RunPrefix(steps, 0, canceled, tool, destId);
      RunOutcome(steps, 0, canceled, tool, destId);
    }
  }

  /** Steps that send nothing leave the sink empty. */
  lemma {:induction false} NoOutputs<G>(steps: seq<Result<Step<G>>>)
    requires forall j :: 0 <= j < |steps| ==> Emitted(steps[j]) == []
    ensures Outputs(steps) == []
  {
    if steps != [] {
      NoOutputs(steps[1..]);
    }
  }
}
