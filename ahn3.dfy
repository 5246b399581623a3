/** The elevation lookup of the AHN3 tool: which decoded part holds the GeoTIFF, the
    two-cell request window of an OGC WCS 2.0.1 GetCoverage request, the pixel a point falls
    in under the raster's affine geotransform, and the no-data sentinel. Numbers are exact
    reals; `//` and `floor` on floats are `Floor` on reals. */
module Ahn3 {
  import opened Common
  import opened Seqs
  import Multipart

  type Bytes = seq<byte>

  /** `b"content-type"`. */
  const ContentType: Bytes := [99, 111, 110, 116, 101, 110, 116, 45, 116, 121, 112, 101]
  /** `b"image/tiff"`. */
  const ImageTiff: Bytes := [105, 109, 97, 103, 101, 47, 116, 105, 102, 102]

  /** A part whose `content-type` header is `image/tiff`. */
  predicate IsTiff(part: Multipart.Part) {
    ContentType in part.headers && part.headers[ContentType] == ImageTiff
  }

  /** The loop of `get_ahn_val` over the decoded parts: `coverage` is overwritten by every part
      whose `content-type` is `image/tiff`, so the last such part wins; a part without a
      `content-type` header stops the loop with a `KeyError`; with no matching part `coverage`
      is never assigned and its first use fails. */
  method SelectCoverage(parts: seq<Multipart.Part>) returns (r: Result<Bytes>)
    ensures (exists i :: 0 <= i < |parts| && ContentType !in parts[i].headers) <==> r == Err(KeyError("content-type"))
    ensures (forall i :: 0 <= i < |parts| ==> ContentType in parts[i].headers) ==>
      (r.Ok? <==> exists i :: 0 <= i < |parts| && IsTiff(parts[i]))
    ensures r.Ok? ==> exists i :: 0 <= i < |parts| && IsTiff(parts[i]) && r.value == parts[i].content
                                  && forall j :: i < j < |parts| ==> !IsTiff(parts[j])
    ensures r.Err? ==> r == Err(KeyError("content-type")) || r == Err(UnboundLocal("coverage"))
  {
    var coverage: Option<Bytes> := None;
    var last := -1;
    var i := 0;
    while i < |parts|
      invariant 0 <= i <= |parts|
      invariant forall k :: 0 <= k < i ==> ContentType in parts[k].headers
      invariant -1 <= last < i
      invariant coverage.None? <==> last == -1
      invariant last == -1 ==> forall k :: 0 <= k < i ==> !IsTiff(parts[k])
      invariant last >= 0 ==> IsTiff(parts[last]) && coverage == Some(parts[last].content)
      invariant last >= 0 ==> forall k :: last < k < i ==> !IsTiff(parts[k])
    {
      var headers := parts[i].headers;
      if ContentType !in headers {
        return Err(KeyError("content-type"));
      }
      if headers[ContentType] == ImageTiff {
        coverage := Some(parts[i].content);
        last := i;
      }
      i := i + 1;
    }
    if coverage.None? {
      return Err(UnboundLocal("coverage"));
    }
    return Ok(coverage.value);
  }

  /** A request window: the `subset=x(lower,upper)` or `subset=y(lower,upper)` bounds. */
  datatype Window = Window(lower: real, upper: real)

  /** `lower = origin + ((v - origin) // cell) * cell` and `upper = lower + 2 * cell`: the grid
      line at or below `v` and the one two cells further. Floor division by a zero cell size
      raises. */
  function RequestWindow(v: real, origin: real, cell: real): (r: Result<Window>)
    ensures r.Err? <==> cell == 0.0
    ensures r.Err? ==> r.error == ZeroDivisionError
    ensures r.Ok? ==> r.value.upper - r.value.lower == 2.0 * cell
  {
    if cell == 0.0 then Err(ZeroDivisionError)
    else
      var lower := origin + ((v - origin) / cell).Floor as real * cell;
      Ok(Window(lower, lower + 2.0 * cell))
  }

  /** The floor of a quotient, bounded: `q <= a / c < q + 1` multiplied back by `c`. */
  lemma FloorTimes(a: real, c: real)
    requires c != 0.0
    ensures c > 0.0 ==> (a / c).Floor as real * c <= a < (a / c).Floor as real * c + c
    ensures c < 0.0 ==> (a / c).Floor as real * c + c < a <= (a / c).Floor as real * c
  {
    var t := a / c;
    var q := t.Floor as real;
    assert q <= t < q + 1.0;
    DivTimes(a, c);
    ScaledBounds(a, c, t, q);
  }

  lemma DivTimes(a: real, c: real)
    requires c != 0.0
    ensures (a / c) * c == a
  {
  }

  /** `q <= t < q + 1` scaled by `c`, where `t * c == a`. */
  lemma ScaledBounds(a: real, c: real, t: real, q: real)
    requires c != 0.0 && t * c == a && q <= t < q + 1.0
    ensures c > 0.0 ==> q * c <= a < q * c + c
    ensures c < 0.0 ==> q * c + c < a <= q * c
  {
    var d := t - q;
    Distribute(t, q, c);
    var dc := d * c;
    assert a == q * c + dc;
    if c > 0.0 {
      ScaleBounds(d, c);
    } else {
      ScaleBounds(d, -c);
      Negate(d, c);
    }
  }

  /** Multiplication distributes over `q + (t - q)`. */
  lemma Distribute(t: real, q: real, c: real)
    ensures t * c == q * c + (t - q) * c
  {
  }

  lemma Negate(d: real, c: real)
    ensures d * (-c) == -(d * c)
  {
  }

  /** A fraction in `[0, 1)` scaled by a positive factor stays in `[0, factor)`. */
  lemma ScaleBounds(d: real, c: real)
    requires 0.0 <= d < 1.0 && c > 0.0
    ensures 0.0 <= d * c < c
  {
    assert c - d * c == (1.0 - d) * c;
  }

  /** For a positive cell size the value lies in the first cell of its window, so the window
      covers it with one cell to spare; for a negative cell size the window runs the other way. */
  lemma WindowContains(v: real, origin: real, cell: real)
    requires cell != 0.0
    ensures var w := RequestWindow(v, origin, cell).value;
      && (cell > 0.0 ==> w.lower <= v < w.lower + cell && v < w.upper)
      && (cell < 0.0 ==> w.lower + cell < v <= w.lower && w.upper < v)
  {
    FloorTimes(v - origin, cell);
  }

  /** A value on a grid line is its own lower bound: snapping is idempotent. */
  lemma WindowOfGridLine(k: int, origin: real, cell: real)
    requires cell != 0.0
    ensures RequestWindow(origin + k as real * cell, origin, cell).value.lower == origin + k as real * cell
  {
    var v := origin + k as real * cell;
    assert (v - origin) / cell == k as real;
  }

  /** The window's lower bound is on a grid line: `origin` plus a whole number of cells. */
  lemma WindowOnGrid(v: real, origin: real, cell: real)
    requires cell != 0.0
    ensures var w := RequestWindow(v, origin, cell).value;
      RequestWindow(w.lower, origin, cell).value.lower == w.lower
  {
    var k := ((v - origin) / cell).Floor;
    assert RequestWindow(v, origin, cell).value.lower == origin + k as real * cell;
    WindowOfGridLine(k, origin, cell);
  }

  /** `(floor((x - gt[0]) / gt[1]), floor((y - gt[3]) / gt[5]))`: the column and row of the
      pixel that holds the point, under the geotransform `gt` GDAL reports (six numbers). A
      zero pixel size raises. */
  function PixelIndex(gt: seq<real>, x: real, y: real): (r: Result<(int, int)>)
    requires |gt| == 6
    ensures r.Err? <==> gt[1] == 0.0 || gt[5] == 0.0
  {
    if gt[1] == 0.0 || gt[5] == 0.0 then Err(ZeroDivisionError)
    else Ok((((x - gt[0]) / gt[1]).Floor, ((y - gt[3]) / gt[5]).Floor))
  }

  /** The geotransform maps pixel `(col, row)` with offsets `(fx, fy)` in `[0, 1)` to this
      point: its top-left corner moved by the fractions of one pixel. */
  function PixelPoint(gt: seq<real>, col: int, row: int, fx: real, fy: real): (real, real)
    requires |gt| == 6
  {
    (gt[0] + (col as real + fx) * gt[1], gt[3] + (row as real + fy) * gt[5])
  }

  /** Pixel lookup inverts the geotransform: any point inside pixel `(col, row)` is found in
      that pixel. */
  lemma PixelRoundTrip(gt: seq<real>, col: int, row: int, fx: real, fy: real)
    requires |gt| == 6 && gt[1] != 0.0 && gt[5] != 0.0
    requires 0.0 <= fx < 1.0 && 0.0 <= fy < 1.0
    ensures var p := PixelPoint(gt, col, row, fx, fy);
      PixelIndex(gt, p.0, p.1) == Ok((col, row))
  {
    var p := PixelPoint(gt, col, row, fx, fy);
    assert (p.0 - gt[0]) / gt[1] == col as real + fx;
    assert (p.1 - gt[3]) / gt[5] == row as real + fy;
  }

  /** And the converse: the point lies within the pixel found for it. */
  lemma PixelContains(gt: seq<real>, x: real, y: real)
    requires |gt| == 6 && gt[1] != 0.0 && gt[5] != 0.0
    ensures var p := PixelIndex(gt, x, y).value;
      exists fx: real, fy: real :: 0.0 <= fx < 1.0 && 0.0 <= fy < 1.0 && PixelPoint(gt, p.0, p.1, fx, fy) == (x, y)
  {
    var p := PixelIndex(gt, x, y).value;
    var tx := (x - gt[0]) / gt[1];
    var ty := (y - gt[3]) / gt[5];
    var fx := tx - p.0 as real;
    var fy := ty - p.1 as real;
    DivTimes(x - gt[0], gt[1]);
    DivTimes(y - gt[3], gt[5]);
    assert (p.0 as real + fx) == tx && (p.1 as real + fy) == ty;
    assert (p.0 as real + fx) * gt[1] == x - gt[0];
    assert (p.1 as real + fy) * gt[5] == y - gt[3];
    var pt := PixelPoint(gt, p.0, p.1, fx, fy);
    assert pt.0 == gt[0] + (p.0 as real + fx) * gt[1];
    assert pt.0 == x;
    assert pt.1 == y;
    assert pt == (x, y);
  }

  /** The largest finite float32, `3.4028234663852886e38` as the source writes it: the value
      the service uses for cells without data. */
  const NoDataSentinel: real := 340282346638528859811704183484516925440.0

  /** The elevation written to the output: `None` for the no-data sentinel, the sample itself
      otherwise. */
  function Elevation(sample: real): (r: Option<real>)
    ensures r.None? <==> sample == NoDataSentinel
    ensures r.Some? ==> r.value == sample
  {
    if sample == NoDataSentinel then None else Some(sample)
  }

  /** The GetCoverage request of `get_ahn_val`; `fmt` renders a Python float as `str` does. */
  function CoverageUrl(wcsUrl: string, coverageId: string, wx: Window, wy: Window, fmt: real -> string): string {
    wcsUrl + "?" + Join(CoverageParams(coverageId, wx, wy, fmt), "&")
  }

  function CoverageParams(coverageId: string, wx: Window, wy: Window, fmt: real -> string): seq<string> {
    [ "service=WCS", "Request=GetCoverage", "version=2.0.1", "CoverageId=" + coverageId,
      "format=image/tiff",
      "subset=x(" + fmt(wx.lower) + "," + fmt(wx.upper) + ")",
      "subset=y(" + fmt(wy.lower) + "," + fmt(wy.upper) + ")" ]
  }

  /** The query of the request splits on `&` into exactly its seven parameters, the x and y
      subsets last, when neither the coverage id nor a rendered number holds an `&`. */
  lemma CoverageQuery(wcsUrl: string, coverageId: string, wx: Window, wy: Window, fmt: real -> string)
    requires '&' !in coverageId
    requires '&' !in fmt(wx.lower) && '&' !in fmt(wx.upper) && '&' !in fmt(wy.lower) && '&' !in fmt(wy.upper)
    ensures var ps := Split(Join(CoverageParams(coverageId, wx, wy, fmt), "&"), "&");
      |ps| == 7 && ps[3] == "CoverageId=" + coverageId && ps[4] == "format=image/tiff"
      && ps[5] == "subset=x(" + fmt(wx.lower) + "," + fmt(wx.upper) + ")"
      && ps[6] == "subset=y(" + fmt(wy.lower) + "," + fmt(wy.upper) + ")"
  {
    var params := CoverageParams(coverageId, wx, wy, fmt);
    CoverageParamsFree(coverageId, wx, wy, fmt);
    forall k | 0 <= k < |params|
      ensures !Contains(params[k], "&")
    {
      NotContainsFirst(params[k], "&");
    }
    SplitJoin(params, "&");
    assert Split(Join(params, "&"), "&") == params;
  }

  /** No parameter of the request holds an `&` when the coverage id and the rendered numbers
      hold none. */
  lemma CoverageParamsFree(coverageId: string, wx: Window, wy: Window, fmt: real -> string)
    requires '&' !in coverageId
    requires '&' !in fmt(wx.lower) && '&' !in fmt(wx.upper) && '&' !in fmt(wy.lower) && '&' !in fmt(wy.upper)
    ensures forall k :: 0 <= k < 7 ==> '&' !in CoverageParams(coverageId, wx, wy, fmt)[k]
  {
    var params := CoverageParams(coverageId, wx, wy, fmt);
    assert '&' !in params[0] && '&' !in params[1] && '&' !in params[2];
    assert '&' !in params[3] && '&' !in params[4];
    assert '&' !in params[5] && '&' !in params[6];
  }
}
