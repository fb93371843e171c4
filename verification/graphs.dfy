/** The graph geometry of `SystemWatcherControl`: `DrawGraph` (one series as a bar plus a
    right-aligned history polygon), the mirrored bands, and `DrawStackedGraph`. Drawing
    produces the list of filled shapes in paint order; an exception that escapes the C#
    drawing code is an `Err`. */
module Graphs {
  import opened Wrappers
  import opened Numeric
  import opened CounterInfo
  import opened GraphTheme

  datatype Point = Point(x: int, y: int)

  /** A filled primitive: `FillRectangle`, `FillPolygon`, or one `DrawString`
      (`Text` is used by the text layout, see `Paint`). */
  datatype Shape =
    | Bar(color: Color, x: int, y: int, width: int, height: int)
    | Polygon(color: Color, points: seq<Point>)
    | Text(color: Color, text: Label, left: real, top: real, boxWidth: real, boxHeight: int)

  /** What a `DrawString` prints: a counter's name, or a value text, optionally prefixed by
      the series name and a space. */
  datatype Label = Title(name: string) | Value(prefix: Option<string>, reading: Display)

  const BarWidth: int := 4

  /** `(v * maxH) / maximum` in floating point, for a non-zero maximum. */
  function Scale(v: real, maxH: int, maximum: real): real
    requires maximum != 0.0
  {
    v * maxH as real / maximum
  }

  /** The value bar's top and height, before any offset: `maxH - scaled` and `scaled`, each
      saturated at `int.MaxValue` and converted with `Convert.ToInt32`. A zero maximum makes
      the division produce infinity or NaN, which no conversion accepts. */
  function BarSpan(current: real, maxH: int, maximum: real): (r: Result<(int, int)>)
    ensures maximum == 0.0 ==> r == Err(Overflow)
    ensures r.Err? ==> r.fault == Overflow
    ensures r.Ok? ==>
      && maximum != 0.0
      && r.value.0 == RoundHalfEven(ClampToMaxInt32(maxH as real - Scale(current, maxH, maximum)))
      && r.value.1 == RoundHalfEven(ClampToMaxInt32(Scale(current, maxH, maximum)))
  {
    if maximum == 0.0 then Err(Overflow)
    else
      var top :- ToInt32(ClampToMaxInt32(maxH as real - Scale(current, maxH, maximum)));
      var height :- ToInt32(ClampToMaxInt32(Scale(current, maxH, maximum)));
      Ok((top, height))
  }

  /** Without saturation the bar ends within one pixel of the baseline: top and height are
      each rounded from two exact values that add up to `maxH`. */
  lemma BarRestsOnBaseline(current: real, maxH: int, maximum: real)
    requires BarSpan(current, maxH, maximum).Ok?
    requires Scale(current, maxH, maximum) <= MaxInt32 as real
    requires maxH as real - Scale(current, maxH, maximum) <= MaxInt32 as real
    ensures var span := BarSpan(current, maxH, maximum).value;
            maxH - 1 <= span.0 + span.1 <= maxH + 1
  {
  }

  /** `Convert.ToInt32(heightItem)` of every history sample in `DrawGraph`, placed at
      consecutive x from `x0`. The clamp written for these samples assigns the wrong
      variable, so nothing saturates here. */
  function SamplePoints(h: seq<real>, x0: int, maxH: int, y: int, maximum: real, inverted: bool)
    : (r: Result<seq<Point>>)
    requires maximum != 0.0
    ensures r.Ok? <==> forall k :: 0 <= k < |h| ==> ToInt32(Scale(h[k], maxH, maximum)).Ok?
    ensures r.Err? ==> r.fault == Overflow
    ensures r.Ok? ==> |r.value| == |h|
    ensures r.Ok? ==> forall k :: 0 <= k < |h| ==>
      var level := RoundHalfEven(Scale(h[k], maxH, maximum));
      r.value[k] == Point(x0 + k, if inverted then level + y else maxH - level + y)
    decreases |h|
  {
    if |h| == 0 then Ok([])
    else
      var level :- ToInt32(Scale(h[0], maxH, maximum));
      var first := Point(x0, if inverted then level + y else maxH - level + y);
      var rest :- SamplePoints(h[1..], x0 + 1, maxH, y, maximum, inverted);
      assert forall k :: 1 <= k < |h| ==> h[k] == h[1..][k - 1];
      Ok([first] + rest)
  }

  /** `DrawGraph(x, y, maxH, inverted, info)`: the value bar at `x + HistorySize`, four
      pixels wide, and the history polygon ending just left of it, closed along the baseline
      (the band's bottom, or its top when inverted) and filled with `GetNthColor(2, 0)`, or
      `GetNthColor(2, 1)` when inverted. The inverted bar's top is `maxH`, whatever `y`. */
  function DrawGraph(x: int, y: int, maxH: int, inverted: bool, info: Series, theme: Theme,
                     historySize: int): (r: Result<seq<Shape>>)
    ensures info.maximum == 0.0 ==> r == Err(Overflow)
    ensures r.Ok? ==> |r.value| == 2 && r.value[0].Bar? && r.value[1].Polygon?
    ensures r.Ok? ==> BarSpan(info.current, maxH, info.maximum).Ok? && info.maximum != 0.0
    ensures r.Ok? ==>
      var bar := r.value[0];
      var span := BarSpan(info.current, maxH, info.maximum).value;
      bar == Bar(theme.barColor, x + historySize, if inverted then maxH else span.0 + y, BarWidth, span.1)
    ensures r.Ok? ==>
      var points := r.value[1].points;
      var n := |info.history|;
      var base := if inverted then y else maxH + y;
      && |points| == n + 2
      && (forall k :: 0 <= k < n ==> points[k].x == x + historySize - n + k)
      && points[n] == Point(x + historySize, base)
      && points[n + 1] == Point(x + historySize - n, base)
      && SamplePoints(info.history, x + historySize - n, maxH, y, info.maximum, inverted) == Ok(points[..n])
    ensures r.Ok? ==> GetNthColor(theme, 2, if inverted then 1 else 0) == Ok(r.value[1].color)
  {
    var span :- BarSpan(info.current, maxH, info.maximum);
    var bar := Bar(theme.barColor, x + historySize, if inverted then maxH else span.0 + y, BarWidth, span.1);
    var n := |info.history|;
    var start := x + historySize - n;
    var samples :- SamplePoints(info.history, start, maxH, y, info.maximum, inverted);
    var base := if inverted then y else maxH + y;
    var color :- GetNthColor(theme, 2, if inverted then 1 else 0);
    var points := samples + [Point(start + n, base), Point(start, base)];
    assert points[..n] == samples;
    Ok([bar, Polygon(color, points)])
  }

  /** A series scaled as every counter keeps it (all samples between 0 and the maximum)
      draws its whole polygon inside its band, from `y` to `y + maxH`. */
  lemma PolygonInsideBand(x: int, y: int, maxH: int, inverted: bool, info: Series, theme: Theme,
                          historySize: int)
    requires maxH >= 0 && info.maximum > 0.0
    requires forall k :: 0 <= k < |info.history| ==> 0.0 <= info.history[k] <= info.maximum
    requires DrawGraph(x, y, maxH, inverted, info, theme, historySize).Ok?
    ensures var points := DrawGraph(x, y, maxH, inverted, info, theme, historySize).value[1].points;
            forall k :: 0 <= k < |points| ==> y <= points[k].y <= y + maxH
  {
    var points := DrawGraph(x, y, maxH, inverted, info, theme, historySize).value[1].points;
    var n := |info.history|;
    var samples := points[..n];
    assert SamplePoints(info.history, x + historySize - n, maxH, y, info.maximum, inverted) == Ok(samples);
    forall k | 0 <= k < n
      ensures y <= samples[k].y <= y + maxH
    {
      var s := Scale(info.history[k], maxH, info.maximum);
      LevelWithinBand(info.history[k], maxH, info.maximum);
    }
    assert forall k :: 0 <= k < n ==> points[k] == samples[k];
  }

  /** A sample between 0 and the maximum scales to a level between 0 and `maxH`. */
  lemma LevelWithinBand(v: real, maxH: int, maximum: real)
    requires maxH >= 0 && maximum > 0.0 && 0.0 <= v <= maximum
    ensures 0 <= RoundHalfEven(Scale(v, maxH, maximum)) <= maxH
  {
    var s := Scale(v, maxH, maximum);
    assert v * maxH as real <= maximum * maxH as real;
    assert 0.0 <= s <= maxH as real;
    RoundHalfEvenBetween(0, maxH, s);
  }

  /** The series each mirrored band shows: band `z` takes series `z`, or series
      `Count - 1 - z` with InvertOrder. */
  function BandSeries(infos: seq<Series>, invertOrder: bool, z: nat): Series
    requires z < |infos|
  {
    if invertOrder then infos[|infos| - 1 - z] else infos[z]
  }

  /** Band `z` of the MIRRORED layout: at `y + z * (height / 2)` with height `height / 2`
      (integer division), band 1 inverted. */
  function Band(x: int, y: int, height: int, invertOrder: bool, infos: seq<Series>,
                theme: Theme, historySize: int, z: nat): Result<seq<Shape>>
    requires z < |infos|
  {
    var half := HalfTowardZero(height);
    DrawGraph(x, z * half + y, half, z == 1, BandSeries(infos, invertOrder, z), theme, historySize)
  }

  /** The MIRRORED loop from band `z` on. */
  function MirroredFrom(x: int, y: int, height: int, invertOrder: bool, infos: seq<Series>,
                        theme: Theme, historySize: int, z: nat): (r: Result<seq<Shape>>)
    requires z <= |infos|
    ensures r.Ok? ==> |r.value| == 2 * (|infos| - z)
    decreases |infos| - z
  {
    if z == |infos| then Ok([])
    else
      var band :- Band(x, y, height, invertOrder, infos, theme, historySize, z);
      var rest :- MirroredFrom(x, y, height, invertOrder, infos, theme, historySize, z + 1);
      Ok(band + rest)
  }

  function Mirrored(x: int, y: int, height: int, invertOrder: bool, infos: seq<Series>,
                    theme: Theme, historySize: int): (r: Result<seq<Shape>>)
    ensures r.Ok? ==> |r.value| == 2 * |infos|
  {
    MirroredFrom(x, y, height, invertOrder, infos, theme, historySize, 0)
  }

  /** With two series, the mirrored layout is band 0 then the inverted band 1, and their
      polygons close on the same line, the middle of the graph: the first band along its
      bottom, the second along its top. */
  lemma MirroredBandsMeet(x: int, y: int, height: int, invertOrder: bool, infos: seq<Series>,
                          theme: Theme, historySize: int)
    requires |infos| == 2
    requires Mirrored(x, y, height, invertOrder, infos, theme, historySize).Ok?
    ensures var shapes := Mirrored(x, y, height, invertOrder, infos, theme, historySize).value;
            shapes[1].Polygon? && shapes[3].Polygon? && |shapes[1].points| >= 2 && |shapes[3].points| >= 2
    ensures var shapes := Mirrored(x, y, height, invertOrder, infos, theme, historySize).value;
            var upper := shapes[1].points;
            var lower := shapes[3].points;
            && upper[|upper| - 1] == Point(x + historySize - |BandSeries(infos, invertOrder, 0).history|,
                                           y + HalfTowardZero(height))
            && lower[|lower| - 1] == Point(x + historySize - |BandSeries(infos, invertOrder, 1).history|,
                                           y + HalfTowardZero(height))
  {
    var band0 := Band(x, y, height, invertOrder, infos, theme, historySize, 0);
    var band1 := Band(x, y, height, invertOrder, infos, theme, historySize, 1);
    var rest1 := MirroredFrom(x, y, height, invertOrder, infos, theme, historySize, 1);
    assert MirroredFrom(x, y, height, invertOrder, infos, theme, historySize, 2) == Ok([]);
    assert rest1 == Ok(band1.value + []);
    var shapes := Mirrored(x, y, height, invertOrder, infos, theme, historySize).value;
    assert shapes == band0.value + band1.value;
  }

  /** InvertOrder swaps the series of the two mirrored bands. */
  lemma InvertOrderSwapsBands(infos: seq<Series>)
    requires |infos| == 2
    ensures BandSeries(infos, true, 0) == BandSeries(infos, false, 1)
    ensures BandSeries(infos, true, 1) == BandSeries(infos, false, 0)
  {
  }
}
