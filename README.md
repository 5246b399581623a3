# PDOK services processing plugin, modelled in Dafny

This project models the logic at the centre of the PDOK services QGIS Processing plugin:

- **AHN3 coverage responses** (`Multipart`, `Ahn3`). The WCS GetCoverage reply is a
  `multipart` body (section 5.1.1 of RFC 2046). `get_boundary`, `split_on_find` and
  `parse_response` cut it into `{headers, content}` records. `get_ahn_val` keeps the last
  `image/tiff` part, computes the two-cell request window and the pixel index from the raster's
  geotransform. `processAlgorithm` maps the float32 no-data value to `None`.
- **Locatieserver clients** (`Locatieserver` for `locatieserver/locatieserver.py`,
  `LocatieserverLegacy` for the older `locatieserver.py`). They build the `suggest`, `free`
  and `lookup` URLs and render the type filter `type:(a OR b ...)`. The new client
  percent-encodes (section 2.1 of RFC 3986, as Python's `urllib.parse.quote`); the old one
  inserts texts as they are. Both return `response.docs`, and a lookup returns the first doc
  only when `numFound` is 1.
- **HTTP helpers** (`HttpClient`): `get_request_bytes`, and the Content-Type / charset
  decision of `get_request_json`.
- **The three processing algorithms** (`Geocoder`, `GeocoderLegacy`, `ReverseGeocoder`). Each
  builds an output schema, runs a row loop over the input features, and appends output
  features to a sink. The row loop can stop on cancellation, and any exception is rethrown
  wrapped for the tool. The reverse geocoder exists twice in the repository, as identical
  files; `ReverseGeocoder` models both, and its rows cite the copy under `processing_provider/`.

Shared modules: `Common` (Python exceptions as an `Error` datatype, `Result`/`Option`, JSON
values and Python-style indexing into them), `Seqs` (Python's `find`, `split` and `join` on
sequences), `Text` (decimal rendering, `str.replace`, sorting as `dir()` does), `Utf8`
(`str.encode("utf-8")`), `Urls` (`quote`) and `Features` (QGIS fields and features, and the
shared row-loop semantics).

How the model is built:

- Network calls, CRS transforms, WKT parsing, centroids and float formatting are function
  parameters. Geometries are a type parameter `G`.
- A feature is a value: its fields, one JSON value per attribute, and an optional geometry.
  `QgsFeature(fields)` starts with all attributes null. `setAttribute` and `attribute` raise
  `KeyError` for a name that is not a field. An attribute with no value is QGIS's `NULL`,
  which is not `None` and whose text is `NULL`.
- The sink is the sequence of features a run adds to it. A run is a `Run(sink, outcome)`. The
  outcome is `{}` on cancellation, `{OUTPUT: dest_id}` on completion, or the wrapped exception.
- `feedback.isCanceled()` is a function of the position of the row just processed: row `i`
  is checked as `i + 1`, the check before the loop as `0`, and skipped rows are not checked.
- Each row-loop method (`GeocodeRows`, `ProcessAlgorithm`) is proved equal to a specification
  function (`Process`). What a single row gives is proved about `Row` (`RowCases`,
  `RowLayout`), and what a whole run gives is proved about `Process`.

## Model

| member | source | states |
|---|---|---|
| Multipart.GetBoundary | pdok_services/processing_provider/processing_ahn3.py:35-40 | a boundary is found only when the body starts with CRLF, then the `--` line, then CRLF; the boundary begins with `--` and holds no line feed |
| Multipart.GetBoundaryOfLine | pdok_services/processing_provider/processing_ahn3.py:35-40 | for a body `CRLF --token CRLF ...` the boundary is exactly `--token` |
| Multipart.SplitOnFind | pdok_services/processing_provider/processing_ahn3.py:43-45 | when the bound occurs, the body is `p + bound + s` and `p` holds no occurrence of the bound |
| Multipart.EncodeWith | pdok_services/processing_provider/processing_ahn3.py:48-51 | `None` and bytes come back unchanged; text becomes its UTF-8 encoding, between one and four bytes per character |
| Multipart.EncodeWithIdempotent | pdok_services/processing_provider/processing_ahn3.py:48-51 | encoding twice is encoding once, and encoded text is valid UTF-8 |
| Multipart.LStrip | pdok_services/processing_provider/processing_ahn3.py:69 | the result is a suffix of the input, everything removed is whitespace, and it does not start with whitespace |
| Multipart.CaseInsensitiveKeys | pdok_services/processing_provider/processing_ahn3.py:70 | a key is in the header dictionary exactly when some header name lower-cases to it |
| Multipart.CaseInsensitiveLastWins | pdok_services/processing_provider/processing_ahn3.py:70 | of the headers with the same lower-cased name, the last one gives the value |
| Multipart.DecodePart | pdok_services/processing_provider/processing_ahn3.py:67-73 | a fragment's content is exactly the bytes after its first blank line; its headers are parsed from the left-stripped bytes before it; it fails exactly when those bytes are not UTF-8 |
| Multipart.Inner | pdok_services/processing_provider/processing_ahn3.py:64 | the fragments before the first delimiter and after the last are dropped, and the others keep their order |
| Multipart.ParseResponse | pdok_services/processing_provider/processing_ahn3.py:60-75 | the loop returns what `Decode` specifies |
| Multipart.DecodeFragmentsStep | pdok_services/processing_provider/processing_ahn3.py:66-74 | a fragment without a blank line is skipped; one with a blank line adds its record before the rest |
| Multipart.DecodeFragmentsAppend | pdok_services/processing_provider/processing_ahn3.py:66-74 | records come out in buffer order: decoding a concatenation is decoding each half in turn |
| Multipart.DecodeFragmentsCount | pdok_services/processing_provider/processing_ahn3.py:66-74 | there are never more records than fragments |
| Multipart.DecodeCount | pdok_services/processing_provider/processing_ahn3.py:62-74 | a successful parse had a boundary, the part before the first delimiter is empty, and there are at most the fragment count minus two records |
| Multipart.DecodeEncodedPart | pdok_services/processing_provider/processing_ahn3.py:67-73 | a part written as `CRLF headers CRLFCRLF body` decodes to its parsed headers and exactly its body |
| Multipart.EncodedBoundary | pdok_services/processing_provider/processing_ahn3.py:35-40 | the boundary of an encoded body with at least one part is `--token` |
| Multipart.RoundTrip | pdok_services/processing_provider/processing_ahn3.py:60-75 | a body encoded from N well-formed parts parses to N records with those headers and bodies, in order |
| Multipart.EmptyBodyFails | pdok_services/processing_provider/processing_ahn3.py:60-63 | a body with no parts has no boundary line, so the join with `""` raises and the parse fails |
| Multipart.HeaderRoundTrip | pdok_services/processing_provider/processing_ahn3.py:54-57 | rendered `Name: value` lines parse back to the same name/value pairs, in order |
| Multipart.FromLineCloses | pdok_services/processing_provider/processing_ahn3.py:54-57 | a `From ` line closes the open header, so a continuation line after it is dropped |
| Multipart.EmptyNameCloses | pdok_services/processing_provider/processing_ahn3.py:54-57 | a line with an empty name closes the open header, so a continuation line after it is dropped |
| Multipart.HeaderLookup | pdok_services/processing_provider/processing_ahn3.py:54-57 | in a rendered header block, a name maps to its last value whatever its case |
| Ahn3.SelectCoverage | pdok_services/processing_provider/processing_ahn3.py:201-207 | a part without `content-type` raises `KeyError`; otherwise the result is the content of the last `image/tiff` part, and `coverage` is unbound when there is none |
| Ahn3.RequestWindow | pdok_services/processing_provider/processing_ahn3.py:193-196 | the window is two cells wide and a zero cell size raises `ZeroDivisionError` |
| Ahn3.WindowContains | pdok_services/processing_provider/processing_ahn3.py:193-196 | the coordinate lies in the window's first cell (for either sign of cell size) |
| Ahn3.WindowOfGridLine | pdok_services/processing_provider/processing_ahn3.py:193-196 | a coordinate on a grid line is its own lower bound |
| Ahn3.WindowOnGrid | pdok_services/processing_provider/processing_ahn3.py:193-196 | the lower bound lies on the grid: computing the window again from it changes nothing |
| Ahn3.PixelIndex | pdok_services/processing_provider/processing_ahn3.py:211-212 | the pixel index fails exactly when a pixel size in the geotransform is zero |
| Ahn3.PixelRoundTrip | pdok_services/processing_provider/processing_ahn3.py:211-212 | every point inside a pixel maps back to that pixel's column and row |
| Ahn3.PixelContains | pdok_services/processing_provider/processing_ahn3.py:211-212 | the point lies inside the pixel it maps to |
| Ahn3.Elevation | pdok_services/processing_provider/processing_ahn3.py:265-266 | the sample is `None` exactly when it equals the float32 no-data value, and kept otherwise |
| Ahn3.CoverageQuery | pdok_services/processing_provider/processing_ahn3.py:197 | the request has seven parameters, with the coverage id, `image/tiff`, and the x and y windows |
| HttpClient.GetRequestBytes | pdok_services/http_client.py:30-32 | the reply body is returned unchanged |
| HttpClient.AsciiDecode | pdok_services/http_client.py:37-39 | the header decodes exactly when every byte is below 128, one character per byte |
| HttpClient.AsciiDecodeRoundTrip | pdok_services/http_client.py:37-39 | encoding the decoded header gives back its bytes |
| HttpClient.CharsetDefault | pdok_services/http_client.py:40-41 | without `;` the encoding is `utf-8` |
| HttpClient.CharsetSecondSegment | pdok_services/http_client.py:41-42 | with `;` the encoding is the second segment with `charset=` removed, later segments ignored |
| HttpClient.CharsetNotTrimmed | pdok_services/http_client.py:42 | the space after `;` stays in the encoding name |
| HttpClient.GetRequestJson | pdok_services/http_client.py:35-48 | a non-ASCII header raises; then a failing body decode raises; then a type not starting with `application/json` raises `ValueError`; otherwise the decoded body is parsed |
| HttpClient.DecodeFailsFirst | pdok_services/http_client.py:43-47 | with a bad charset and a wrong type, the decode error is raised, not the type error |
| HttpClient.JsonPrefixAccepted | pdok_services/http_client.py:44-48 | any type starting with `application/json` is accepted, whatever follows |
| Locatieserver.ProjectionName | pdok_services/locatieserver/locatieserver.py:14-19 | a projection renders as an `EPSG:` code |
| Locatieserver.TypeName | pdok_services/locatieserver/locatieserver.py:23-35 | every type renders as a non-empty lower-case word |
| Locatieserver.AllTypesComplete | pdok_services/locatieserver/locatieserver.py:23-39 | the default list holds all twelve types, each once |
| Locatieserver.TypeNameInjective | pdok_services/locatieserver/locatieserver.py:23-35 | two types with the same value are the same type |
| Locatieserver.NewTypeFilterQuery | pdok_services/locatieserver/locatieserver.py:37-40 | an empty list becomes all twelve types, each once, in declaration order; a non-empty list is kept as given |
| Locatieserver.TypeNames | pdok_services/locatieserver/locatieserver.py:43 | one value per type, in the given order |
| Locatieserver.FilterNames | pdok_services/locatieserver/locatieserver.py:42-45 | inside `type:(...)`, splitting on ` OR ` gives back the type values in order |
| Locatieserver.RenderFilterRoundTrip | pdok_services/locatieserver/locatieserver.py:42-45 | unquoting the rendered filter gives the UTF-8 bytes of `type:(...)` |
| Locatieserver.GeometryField | pdok_services/locatieserver/locatieserver.py:69-72 | EPSG:28992 maps to `geometrie_rd` and EPSG:4326 to `geometrie_ll` |
| Locatieserver.QuoteNoAmpersand | pdok_services/locatieserver/locatieserver.py:75-76 | quoted text never contains `&` |
| Locatieserver.SuggestParams | pdok_services/locatieserver/locatieserver.py:79-83 | the suggest query has exactly `q`, `rows` and `fq`, and `q` unquotes to the query |
| Locatieserver.FreeParams | pdok_services/locatieserver/locatieserver.py:95-98 | the free query has exactly `q` and `rows`, and no `fq` |
| Locatieserver.LookupParams | pdok_services/locatieserver/locatieserver.py:106-113 | the lookup query has exactly `id` and `fl`, and `fl` unquotes to `*,` and the geometry field |
| Locatieserver.ResponseOf | pdok_services/locatieserver/locatieserver.py:84-85 | the response exists exactly when the reply is an object with `response` |
| Locatieserver.Docs | pdok_services/locatieserver/locatieserver.py:99-103 | `docs` is returned exactly as the reply holds it |
| Locatieserver.DocsUnchanged | pdok_services/locatieserver/locatieserver.py:100-103 | the unconsumed `map` changes nothing: the result is the reply's `docs` |
| Locatieserver.SingleHit | pdok_services/locatieserver/locatieserver.py:114-117 | `None` exactly when `numFound` is not 1; a reply with `numFound` 1 and a first doc gives that doc, and any other `Some` is such a doc |
| Locatieserver.SingleHitReplies | pdok_services/locatieserver/locatieserver.py:115-117 | a reply with `numFound` 1 gives its first doc, any other count gives `None` |
| LocatieserverLegacy.ProjectionNameFails | pdok_services/locatieserver.py:13-18 | rendering a projection always raises `IndexError` |
| LocatieserverLegacy.GeometryField | pdok_services/locatieserver.py:71-74 | EPSG:28992 maps to `geometrie_rd` and EPSG:4326 to `geometrie_ll` |
| LocatieserverLegacy.NewTypeFilterQuery | pdok_services/locatieserver.py:22-36 | the constructor sets no attribute on the instance |
| LocatieserverLegacy.Enabled | pdok_services/locatieserver.py:39-41 | a name is kept exactly when it is listed, not a dunder name, and its attribute is truthy |
| LocatieserverLegacy.DirNamesSorted | pdok_services/locatieserver.py:39 | `dir()` lists the class attributes in sorted order |
| LocatieserverLegacy.EnabledAppend | pdok_services/locatieserver.py:39-41 | the kept names stay in the order of `dir()`: filtering a concatenation filters each part |
| LocatieserverLegacy.EnabledAll | pdok_services/locatieserver.py:39-41 | on an instance with no own attributes, every class attribute is kept |
| LocatieserverLegacy.FilterIgnoresType | pdok_services/locatieserver.py:31-43 | the rendered filter is the same whatever type was passed |
| LocatieserverLegacy.JoinDirNames | pdok_services/locatieserver.py:42-49 | the default filter is `type:(adres OR gemeente OR postcode OR weg OR woonplaats)` |
| LocatieserverLegacy.FilterNoAmpersand | pdok_services/locatieserver.py:38-43 | the rendered filter never contains `&` |
| LocatieserverLegacy.SearchParams | pdok_services/locatieserver.py:80-92 | the query has exactly `q`, `rows` and `fq` when the search text holds no `&` |
| LocatieserverLegacy.AmpersandSplitsQuery | pdok_services/locatieserver.py:76-92 | since nothing is encoded, an `&` in the search text adds a parameter |
| Features.Names | pdok_services/processing_provider/processing_geocoder.py:266 | one name per field, in order |
| Features.IndexOf | pdok_services/processing_provider/processing_geocoder.py:291 | the first position of a field name, or -1 exactly when it is absent |
| Features.IndexOfDistinct | pdok_services/processing_provider/processing_geocoder.py:291 | with distinct names, a field's name leads back to its own position |
| Features.Append | pdok_services/processing_provider/processing_geocoder.py:268-274 | a field is added at the end unless its name is taken; distinct names stay distinct |
| Features.NewFeature | pdok_services/processing_provider/processing_geocoder.py:322 | a new feature has the given fields, no geometry and a null value per field |
| Features.Attribute | pdok_services/processing_provider/processing_geocoder.py:291 | `KeyError` exactly for a name that is not a field; otherwise the value at that field |
| Features.SetAttribute | pdok_services/processing_provider/processing_geocoder.py:327 | `KeyError` exactly for a name that is not a field; otherwise only that field's value changes |
| Features.CopiedFrom | pdok_services/processing_provider/processing_geocoder.py:324-327 | copying keeps the fields, the geometry and the number of values |
| Features.CopyAttributes | pdok_services/processing_provider/processing_geocoder.py:324-327 | the loop returns what `CopiedFrom` specifies |
| Features.SetAtPosition | pdok_services/processing_provider/processing_geocoder.py:327 | with distinct names, setting a field by name sets its position |
| Features.CopyPositional | pdok_services/processing_provider/processing_geocoder.py:324-327 | the input values land at the same positions, and later values are untouched |
| Features.CopiedOnto | pdok_services/processing_provider/processing_geocoder.py:321-327 | on a new output feature, the copy holds the input values followed by nulls |
| Features.CopyTooMany | pdok_services/processing_provider/processing_geocoder.py:324-326 | more values than field names raises `IndexError` |
| Features.Emitted | pdok_services/processing_provider/processing_geocoder.py:349 | a row adds at most one feature, exactly when it produced one |
| Features.OutputsBound | pdok_services/processing_provider/processing_geocoder.py:288-349 | no more outputs than rows |
| Features.OutputsAppend | pdok_services/processing_provider/processing_geocoder.py:288-349 | outputs follow row order |
| Features.OutputsOnePerRow | pdok_services/processing_reverse_geocoder.py:211-255 | when every row produces a feature, output j is row j's feature |
| Features.Advance | pdok_services/processing_provider/processing_geocoder.py:288-352 | one loop turn: an exception ends the run wrapped, a skipped row moves on, a processed row adds its output then stops on cancellation or moves on |
| Features.RunPrefix | pdok_services/processing_provider/processing_geocoder.py:288-356 | the sink is the outputs of a prefix of the rows, all of them on completion |
| Features.RunOutcome | pdok_services/processing_provider/processing_geocoder.py:285-361 | a run ends cancelled, completed, or with a row's exception wrapped; it completes exactly when no row raises and no cancellation is seen |
| Features.RunRowsShape | pdok_services/processing_provider/processing_geocoder.py:285-361 | the sink is no longer than the rows, and the outcome is `{}`, `{OUTPUT: dest_id}` or a wrapped exception |
| Features.NoOutputs | pdok_services/processing_geocoder.py:334-363 | rows that emit nothing leave the sink empty |
| Geocoder.SinkType | pdok_services/processing_provider/processing_geocoder.py:57-63 | adres and postcode are points, gemeente and woonplaats multipolygons, weg multilinestrings; any other type raises `KeyError` |
| Geocoder.OutputFields | pdok_services/processing_provider/processing_geocoder.py:265-274 | the input fields come first, at most three are added, and the requested ones are present |
| Geocoder.OutputSchema | pdok_services/processing_provider/processing_geocoder.py:265-274 | the schema is the input fields, then `x`, `y` if asked, then `weergavenaam` if asked |
| Geocoder.FirstField | pdok_services/processing_provider/processing_geocoder.py:233 | a key of the first result |
| Geocoder.GeometryOf | pdok_services/processing_provider/processing_geocoder.py:233-234 | WKT text is parsed; anything else raises |
| Geocoder.GetGeom | pdok_services/processing_provider/processing_geocoder.py:225-246 | the centroid is used when the actual geometry is not asked for or the type is adres/postcode; otherwise the lookup's `geometrie_ll`, and a missing object raises |
| Geocoder.Rejected | pdok_services/processing_provider/processing_geocoder.py:311-313 | without a threshold nothing is rejected; with one, a first result whose score is at most the threshold is |
| Geocoder.Pick | pdok_services/processing_provider/processing_geocoder.py:309-318 | no results or a rejected first result give nothing; a pick is the geometry and display name of an accepted first result |
| Geocoder.PickAccepted | pdok_services/processing_provider/processing_geocoder.py:309-318 | an accepted first result is picked: its geometry and display name, or nothing when it has no geometry |
| Geocoder.ThresholdStrict | pdok_services/processing_provider/processing_geocoder.py:312 | a score equal to the threshold is excluded, a higher one behaves as if there were no threshold |
| Geocoder.DecoratedLayout | pdok_services/processing_provider/processing_geocoder.py:331-348 | the copied values stay, the centroid's x and y and the display name follow, and the geometry is in the target CRS |
| Geocoder.BuiltLayout | pdok_services/processing_provider/processing_geocoder.py:320-348 | the output feature holds the input values followed by the requested extras, with the geometry in the target CRS |
| Geocoder.XyLayout | pdok_services/processing_provider/processing_geocoder.py:337-343 | `x` and `y` land at their fields' positions |
| Geocoder.RowCases | pdok_services/processing_provider/processing_geocoder.py:288-349 | a row raises the attribute's, the search's, the pick's or the build's error, skips `NULL`, raises `TypeError` for non-text, gives no output when nothing is picked, and otherwise outputs the feature built from the pick |
| Geocoder.FirstResultGeocoded | pdok_services/processing_provider/processing_geocoder.py:300-349 | an accepted first result with a geometry, whose feature can be built, becomes the row's output |
| Geocoder.Row | pdok_services/processing_provider/processing_geocoder.py:288-349 | a row is skipped exactly when its source value is `NULL`, as the loop intends (the loop as written is `RowAsWritten`); an output comes from a free query on the value and an accepted first result |
| Geocoder.RowAsWritten | pdok_services/processing_provider/processing_geocoder.py:291-300 | the loop as written never skips a row, and agrees with `Row` on every value other than `NULL` |
| Geocoder.NullSourceRaises | pdok_services/processing_provider/processing_geocoder.py:291-300 | a `NULL` source value makes the row as written raise `TypeError` at `quote`, where `Row` skips it |
| Geocoder.RowIgnoresResultType | pdok_services/processing_provider/processing_geocoder.py:300 | with the centroid branch, the result type does not change a row: the query gets only the value |
| Geocoder.GeocodeFeature | pdok_services/processing_provider/processing_geocoder.py:290-349 | the loop body returns what `Row` specifies |
| Geocoder.BuildFeature | pdok_services/processing_provider/processing_geocoder.py:321-348 | the construction returns what `Built` specifies |
| Geocoder.Rows | pdok_services/processing_provider/processing_geocoder.py:288 | one step per input feature, in layer order |
| Geocoder.ProcessShape | pdok_services/processing_provider/processing_geocoder.py:285-361 | at most one output per input, and the run ends with `{}`, `{OUTPUT: dest_id}` or a wrapped exception |
| Geocoder.GeocodeRows | pdok_services/processing_provider/processing_geocoder.py:288-352 | the loop's sink and outcome are those of the specified run |
| Geocoder.ProcessAlgorithm | pdok_services/processing_provider/processing_geocoder.py:248-361 | the algorithm's sink and outcome are those of `Process`, with at most one output per input |
| Geocoder.CompletedRunOutputs | pdok_services/processing_provider/processing_geocoder.py:288-356 | a completed run's sink holds every row's output, in input order |
| GeocoderLegacy.PyStr | pdok_services/locatieserver.py:90 | the f-string renders a null value as `None` and text as itself |
| GeocoderLegacy.AttributeText | pdok_services/locatieserver.py:90 | a `NULL` attribute is rendered as `NULL`, text as itself, any other value as `PyStr` renders it |
| GeocoderLegacy.GetGeom | pdok_services/processing_geocoder.py:241-260 | the centroid branch is the provider version's; the other branch always raises, with `NameError` once the lookup answers |
| GeocoderLegacy.ActualGeometryFails | pdok_services/processing_geocoder.py:244-254 | with the actual geometry asked for, no result is ever picked |
| GeocoderLegacy.RowCases | pdok_services/processing_geocoder.py:302-363 | a row raises the attribute's, the search's, the pick's or the build's error, gives no output when nothing is picked, and otherwise outputs the feature built from the pick |
| GeocoderLegacy.Row | pdok_services/processing_geocoder.py:302-363 | no row is skipped; an output comes from a free query on the rendered value with the type filter, and is the feature built from the accepted first result |
| GeocoderLegacy.GeocodeFeature | pdok_services/processing_geocoder.py:302-363 | the loop body returns what `Row` specifies |
| GeocoderLegacy.Rows | pdok_services/processing_geocoder.py:302 | one step per input feature, in layer order |
| GeocoderLegacy.ProcessShape | pdok_services/processing_geocoder.py:299-375 | at most one output per input, and the run ends with `{}`, `{OUTPUT: dest_id}` or a wrapped exception |
| GeocoderLegacy.ActualGeometryEmptySink | pdok_services/processing_geocoder.py:244-254 | with the actual geometry asked for, the sink stays empty |
| GeocoderLegacy.GeocodeRows | pdok_services/processing_geocoder.py:302-366 | the loop's sink and outcome are those of the specified run |
| GeocoderLegacy.ProcessAlgorithm | pdok_services/processing_geocoder.py:262-375 | the algorithm's sink and outcome are those of `Process`, with at most one output per input |
| ReverseGeocoder.ResultTypeOf | pdok_services/processing_provider/processing_reverse_geocoder.py:173-176 | the first chosen index picks one of the twelve types; no choice or a bad index raises `IndexError` |
| ReverseGeocoder.TargetName | pdok_services/processing_provider/processing_reverse_geocoder.py:181-182 | an empty or missing attribute name becomes the result type |
| ReverseGeocoder.Schema | pdok_services/processing_provider/processing_reverse_geocoder.py:183-188 | an existing name fails on the unbound `field_name`; otherwise one string field is added |
| ReverseGeocoder.Located | pdok_services/processing_provider/processing_reverse_geocoder.py:199-220 | the point is transformed to EPSG:4326 exactly when the layer is in another CRS |
| ReverseGeocoder.RevGeoUrlParams | pdok_services/processing_provider/processing_reverse_geocoder.py:221 | the URL has exactly `lon`, `type` and `lat`, in that order |
| ReverseGeocoder.Docs | pdok_services/processing_provider/processing_reverse_geocoder.py:236 | `docs` exists only inside `response` |
| ReverseGeocoder.ResultValue | pdok_services/processing_provider/processing_reverse_geocoder.py:234-243 | `""` with no docs or a first distance above the threshold; otherwise the first doc's display name |
| ReverseGeocoder.ThresholdInclusive | pdok_services/processing_provider/processing_reverse_geocoder.py:237-243 | a distance equal to the threshold still gives the name |
| ReverseGeocoder.Found | pdok_services/processing_provider/processing_reverse_geocoder.py:212-243 | a status other than 200 raises; otherwise the value is chosen from the reply |
| ReverseGeocoder.Row | pdok_services/processing_provider/processing_reverse_geocoder.py:211-255 | a row either raises the request's error or produces one feature with the output fields and the input geometry |
| ReverseGeocoder.CopiedThenSet | pdok_services/processing_provider/processing_reverse_geocoder.py:245-253 | the copy holds the input values and the target value last |
| ReverseGeocoder.RowLayout | pdok_services/processing_provider/processing_reverse_geocoder.py:245-254 | a row's output holds the input values followed by the chosen value |
| ReverseGeocoder.ReverseGeocodeFeature | pdok_services/processing_provider/processing_reverse_geocoder.py:212-255 | the loop body returns what `Row` specifies |
| ReverseGeocoder.Rows | pdok_services/processing_provider/processing_reverse_geocoder.py:211 | one step per input point, in layer order |
| ReverseGeocoder.ProcessShape | pdok_services/processing_provider/processing_reverse_geocoder.py:207-266 | at most one output per input, and the run ends with `{}`, `{OUTPUT: dest_id}` or a wrapped exception |
| ReverseGeocoder.ExistingTargetFails | pdok_services/processing_provider/processing_reverse_geocoder.py:183-187 | an existing target name fails the run before any row, with an empty sink |
| ReverseGeocoder.CompletedRunOutputs | pdok_services/processing_provider/processing_reverse_geocoder.py:211-262 | a completed run has exactly one output per point, in order, with the input geometry |
| ReverseGeocoder.CompletedRunValues | pdok_services/processing_provider/processing_reverse_geocoder.py:245-255 | each output holds its point's values followed by the chosen value |
| ReverseGeocoder.GeocodeRows | pdok_services/processing_provider/processing_reverse_geocoder.py:211-258 | the loop's sink and outcome are those of the specified run |
| ReverseGeocoder.ProcessAlgorithm | pdok_services/processing_provider/processing_reverse_geocoder.py:167-266 | the algorithm's sink and outcome are those of `Process`, with at most one output per input |
| Seqs.Find | pdok_services/processing_provider/processing_ahn3.py:44 | `find` gives the first occurrence, or -1 exactly when there is none |
| Seqs.Split | pdok_services/processing_provider/processing_ahn3.py:63 | `split` gives at least one piece, and joining the pieces gives the input back |
| Seqs.SplitFirstPiece | pdok_services/processing_provider/processing_ahn3.py:63 | one piece exactly when the separator does not occur; otherwise the first piece ends at the first occurrence and the rest is the split of what follows |
| Seqs.SplitPiecesFree | pdok_services/processing_provider/processing_ahn3.py:63 | no piece of a split holds the separator |
| Seqs.SplitJoin | pdok_services/locatieserver/locatieserver.py:44 | splitting joined pieces that do not hold the separator gives the pieces back |
| Text.IntToDecimal | pdok_services/locatieserver/locatieserver.py:82 | an integer renders as decimal digits, with a minus sign only for a negative number |
| Text.DecimalRoundTrip | pdok_services/locatieserver/locatieserver.py:82 | reading the digits back gives the number |
| Text.ReplaceAbsent | pdok_services/http_client.py:42 | replacing absent text changes nothing |
| Text.SortSorted | pdok_services/locatieserver.py:39 | sorting gives a sorted permutation |
| Urls.QuoteByte | pdok_services/locatieserver/locatieserver.py:75-76 | a byte is kept exactly when it is unreserved or `/`, and becomes `%XX` otherwise |
| Urls.QuoteStringAlphabet | pdok_services/locatieserver/locatieserver.py:75-76 | quoted text holds only unreserved characters, `/` and `%` |
| Urls.QuoteRoundTrip | pdok_services/locatieserver/locatieserver.py:75-76 | unquoting quoted text gives its UTF-8 bytes |
| Urls.QuoteKeepsSafe | pdok_services/locatieserver/locatieserver.py:75-76 | text of only safe characters is unchanged |
| Utf8.EncodeChar | pdok_services/processing_provider/processing_ahn3.py:50 | a character becomes one to four bytes, one byte exactly for ASCII |
| Utf8.EncodeAppend | pdok_services/processing_provider/processing_ahn3.py:50 | encoding a concatenation is concatenating the encodings |
| Utf8.EncodeValid | pdok_services/processing_provider/processing_ahn3.py:50 | encoded text is valid UTF-8 |

## Left out

- Network I/O (`get_reply`, `get_request` in both clients, `requests.get`, the owslib
  capabilities fetch) is a function parameter. The logging in `get_reply` is not modelled.
- GDAL raster reading and the float32 decode of the sample are not modelled; the sample is an
  input of `Ahn3.Elevation`.
- CRS transforms, WKT parsing, centroids and `QgsGeometry.asPoint` are function parameters.
  Geometries are opaque, and the truthiness of a geometry is its presence.
- Floating point is modelled with exact reals. Python's `//` and `floor` on floats are
  `Floor` on reals, and the no-data comparison is exact.
- Rendering a float into a URL (`{x_lower_bound}`, `{lon}`) is a function parameter `fmt`.
- `email.parser.HeaderParser` is modelled as a `Name: value` line parser. It splits lines at
  CRLF only, appends a continuation line to the open header and drops it when none is open,
  skips `From ` lines and empty names (both close the open header), and stops at the first
  other line. Bare CR or LF line ends, defect reporting and encoded words are not modelled.
- Field lookup is by exact name. QGIS also matches field names case-insensitively and by alias.
- An attribute's QGIS `NULL` and a reply's Python `None` are both the JSON null. They are told
  apart where the source depends on the difference: the `is None` test of the provider
  geocoder (`Geocoder.RowAsWritten`) and the rendering of the query in the older geocoder
  (`GeocoderLegacy.AttributeText`).
- `feedback.isCanceled()` is a function of the position of the row just processed. The clock
  and the user are not modelled.
- The AHN3 `processAlgorithm` loop is not modelled beyond the no-data sentinel. It has the
  same shape as the reverse geocoder's loop.
- Parameter declarations, `parameterAsSink`, provider registration and the UI are not modelled.
- `convert_to_gj` is not modelled: it only prints, and its lazy `map` never calls it.
- `Locatieserver.SuggestQuery`, `Locatieserver.FreeQuery`, `Locatieserver.LookupObject` and
  their `LocatieserverLegacy` counterparts are defined by their URL and `Docs`/`SingleHit`.
  Their properties are stated by the lemmas about those.
- ReverseGeocoder.ResultTypeOf: the enum indices are naturals, so Python's negative indexing
  into the predicate list is not modelled.
- GeocoderLegacy.PyStr: states only the rendering of null and of text. Booleans and integers
  are rendered as Python does, and other values by the `repr` parameter.
- Locatieserver.ProjectionName: states only that the result is an `EPSG:` code.
- ReverseGeocoder.Docs: states only that `docs` is read inside `response`. The value is
  specified through `ResultValue`.

## Findings

| source | as written | input that shows it | evidently intended | confidence | as-written member | corrected member |
|---|---|---|---|---|---|---|
| pdok_services/processing_provider/processing_geocoder.py:291-293 | a null source value is skipped with `is None` | a feature whose source field is `NULL`: `feature.attribute` gives QGIS's `NULL`, not `None`, so the row reaches `quote` and raises `TypeError` | skip every feature whose source value is `NULL`, as the comment above the test says | medium, not executed | Geocoder.NullSourceRaises | Geocoder.Row |
