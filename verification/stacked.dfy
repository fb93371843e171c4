/** `DrawStackedGraph`: the series are accumulated back to front into layers, every layer
    is scaled by the sum of all maxima, and the layers are filled with a gradient between
    the first two stacked colours. */
module Stacked {
  import opened Wrappers
  import opened Numeric
  import opened CounterInfo
  import opened GraphTheme
  import opened Graphs

  /** `infos.AsEnumerable().Reverse()`. */
  function Reversed<T>(s: seq<T>): (r: seq<T>)
    ensures |r| == |s| && forall i :: 0 <= i < |s| ==> r[i] == s[|s| - 1 - i]
  {
    seq(|s|, i requires 0 <= i < |s| => s[|s| - 1 - i])
  }

  /** One accumulated layer: each sample plus the sample at the same index of the layer
      before (`lastValue.ElementAt(z)`), or the samples alone when the layer before is
      empty. A history longer than a non-empty layer before runs `ElementAt` off its end. */
  function Layer(h: seq<real>, below: seq<real>): (r: Result<seq<real>>)
    ensures |below| == 0 ==> r == Ok(h)
    ensures |below| > 0 ==> (r.Ok? <==> |h| <= |below|)
    ensures r.Ok? ==> |r.value| == |h|
    ensures r.Ok? && |below| > 0 ==> forall z :: 0 <= z < |h| ==> r.value[z] == h[z] + below[z]
    ensures r.Err? ==> r.fault == ArgumentOutOfRange
  {
    if |below| == 0 then Ok(h)
    else if |h| > |below| then Err(ArgumentOutOfRange)
    else Ok(seq(|h|, z requires 0 <= z < |h| => h[z] + below[z]))
  }

  /** The accumulation loop over the reversed series: layer `k` stacks series `k` of `rev`
      on layer `k - 1`. */
  function Accumulate(rev: seq<Series>, below: seq<real>): (r: Result<seq<seq<real>>>)
    ensures r.Ok? ==> |r.value| == |rev|
    ensures r.Ok? ==> forall k :: 0 <= k < |rev| ==> |r.value[k]| == |rev[k].history|
    ensures r.Err? ==> r.fault == ArgumentOutOfRange
    decreases |rev|
  {
    if |rev| == 0 then Ok([])
    else
      var layer :- Layer(rev[0].history, below);
      var rest :- Accumulate(rev[1..], layer);
      Ok([layer] + rest)
  }

  /** The sum at index `z` of the histories of `rev[0]` to `rev[k]`. */
  function StackSum(rev: seq<Series>, k: nat, z: nat): real
    requires k < |rev| && forall t :: 0 <= t < |rev| ==> z < |rev[t].history|
    decreases k
  {
    rev[0].history[z] + (if k == 0 then 0.0 else StackSum(rev[1..], k - 1, z))
  }

  function Offset(below: seq<real>, z: nat): real {
    if z < |below| then below[z] else 0.0
  }

  /** With histories of one common non-zero length and a starting layer empty or of that
      length, accumulation succeeds. */
  lemma {:induction false} AccumulateSucceeds(rev: seq<Series>, below: seq<real>, len: nat)
    requires len > 0 && forall t :: 0 <= t < |rev| ==> |rev[t].history| == len
    requires |below| == 0 || |below| == len
    ensures Accumulate(rev, below).Ok?
    decreases |rev|
  {
    if |rev| > 0 {
      assert forall t :: 0 <= t < |rev[1..]| ==> rev[1..][t] == rev[t + 1];
      AccumulateSucceeds(rev[1..], Layer(rev[0].history, below).value, len);
    }
  }

  /** A completed accumulation is the first layer followed by the accumulation on it. */
  lemma AccumulateFirst(rev: seq<Series>, below: seq<real>)
    requires |rev| > 0 && Accumulate(rev, below).Ok?
    ensures Layer(rev[0].history, below).Ok?
    ensures var layer := Layer(rev[0].history, below).value;
            && Accumulate(rev[1..], layer).Ok?
            && Accumulate(rev, below).value == [layer] + Accumulate(rev[1..], layer).value
  {
  }

  /** With histories of one common non-zero length, accumulation succeeds and layer `k`
      holds, at every index, the sum of the first `k + 1` reversed series — that is, of the
      last `k + 1` series — on top of the starting layer. */
  lemma {:induction false} AccumulateSums(rev: seq<Series>, below: seq<real>, len: nat)
    requires len > 0 && forall t :: 0 <= t < |rev| ==> |rev[t].history| == len
    requires |below| == 0 || |below| == len
    ensures Accumulate(rev, below).Ok?
    ensures forall k, z :: 0 <= k < |rev| && 0 <= z < len ==>
      Accumulate(rev, below).value[k][z] == Offset(below, z) + StackSum(rev, k, z)
    decreases |rev|
  {
    AccumulateSucceeds(rev, below, len);
    if |rev| > 0 {
      AccumulateFirst(rev, below);
      var layer := Layer(rev[0].history, below).value;
      assert forall z :: 0 <= z < len ==> layer[z] == rev[0].history[z] + Offset(below, z);
      assert forall t :: 0 <= t < |rev[1..]| ==> rev[1..][t] == rev[t + 1];
      AccumulateSums(rev[1..], layer, len);
      var rest := Accumulate(rev[1..], layer).value;
      var all := Accumulate(rev, below).value;
      forall k, z | 0 <= k < |rev| && 0 <= z < len
        ensures all[k][z] == Offset(below, z) + StackSum(rev, k, z)
      {
        if k > 0 {
          assert all[k] == rest[k - 1];
        }
      }
    }
  }

  /** `absMax`: the sum of all maxima. The source adds them back to front while it walks
      the reversed list; the sum is the same. */
  function SumMaxima(infos: seq<Series>): (m: real)
    ensures |infos| > 0 ==> m == SumMaxima(infos[..|infos| - 1]) + infos[|infos| - 1].maximum
    decreases |infos|
  {
    if |infos| == 0 then 0.0
    else
      assert |infos| > 1 ==> infos[1..][..|infos| - 2] == infos[..|infos| - 1][1..];
      infos[0].maximum + SumMaxima(infos[1..])
  }

  /** With non-negative maxima the normaliser is at least every single maximum, so a stacked
      layer is never scaled larger than its series would be on its own. */
  lemma {:induction false} SumMaximaCovers(infos: seq<Series>, i: nat)
    requires i < |infos| && forall t :: 0 <= t < |infos| ==> infos[t].maximum >= 0.0
    ensures SumMaxima(infos) >= infos[i].maximum
    decreases |infos|
  {
    if i > 0 {
      assert forall t :: 0 <= t < |infos[1..]| ==> infos[1..][t] == infos[t + 1];
      SumMaximaCovers(infos[1..], i - 1);
      SumMaximaNonNegative(infos);
    } else {
      SumMaximaNonNegative(infos[1..]);
    }
  }

  lemma {:induction false} SumMaximaNonNegative(infos: seq<Series>)
    requires forall t :: 0 <= t < |infos| ==> infos[t].maximum >= 0.0
    ensures SumMaxima(infos) >= 0.0
    decreases |infos|
  {
    if |infos| > 0 {
      assert forall t :: 0 <= t < |infos[1..]| ==> infos[1..][t] == infos[t + 1];
      SumMaximaNonNegative(infos[1..]);
    }
  }

  /** The loop over one layer's samples, writing `points[i]` of an array of `size` points:
      each sample is saturated, converted, and placed `maxH - level + y`. */
  function LayerSamples(layer: seq<real>, x0: int, maxH: int, y: int, absMax: real, size: nat, i: nat)
    : (r: Result<seq<Point>>)
    requires absMax != 0.0 && i <= |layer|
    ensures r.Ok? ==> |r.value| == |layer| - i && (i < |layer| ==> |layer| <= size)
    ensures r.Ok? ==> forall k :: i <= k < |layer| ==>
      r.value[k - i] == Point(x0 + k, maxH - RoundHalfEven(ClampToMaxInt32(Scale(layer[k], maxH, absMax))) + y)
    decreases |layer| - i
  {
    if i == |layer| then Ok([])
    else
      var level :- ToInt32(ClampToMaxInt32(Scale(layer[i], maxH, absMax)));
      if i >= size then Err(IndexOutOfRange)
      else
        var rest :- LayerSamples(layer, x0, maxH, y, absMax, size, i + 1);
        Ok([Point(x0 + i, maxH - level + y)] + rest)
  }

  /** `points` of one layer: an array of `historySize + 2` points holding the samples, the
      two baseline points, and `(0, 0)` in any slot a shorter layer leaves unwritten. */
  function LayerPoints(layer: seq<real>, x0: int, maxH: int, y: int, absMax: real, historySize: nat)
    : (r: Result<seq<Point>>)
    requires absMax != 0.0
    ensures r.Ok? ==> |r.value| == historySize + 2 && |layer| <= historySize
    ensures r.Ok? ==>
      && r.value[|layer|] == Point(x0 + |layer|, maxH + y)
      && r.value[|layer| + 1] == Point(x0, maxH + y)
      && forall k :: |layer| + 2 <= k < historySize + 2 ==> r.value[k] == Point(0, 0)
  {
    var size := historySize + 2;
    var samples :- LayerSamples(layer, x0, maxH, y, absMax, size, 0);
    var n := |layer|;
    if n + 2 > size then Err(IndexOutOfRange)
    else
      var pad := seq(size - n - 2, _ => Point(0, 0));
      Ok(samples + [Point(x0 + n, maxH + y), Point(x0, maxH + y)] + pad)
  }

  /** The bar and polygon of one layer, filled with colour `w` of the gradient; the
      gradient's own exception surfaces here, at its first use. */
  function LayerShapes(layer: seq<real>, w: nat, colors: Result<seq<Color>>, x: int, y: int,
                       maxH: int, absMax: real, historySize: nat, theme: Theme, hs: int)
    : (r: Result<seq<Shape>>)
    requires colors.Ok? ==> w < |colors.value|
    ensures r.Ok? ==> |r.value| == 2 && r.value[0].Bar? && r.value[1].Polygon?
    ensures r.Ok? ==> colors.Ok? && r.value[1].color == colors.value[w]
    ensures absMax == 0.0 ==> r == Err(Overflow)
    ensures r.Ok? ==>
      var current := if |layer| > 0 then layer[|layer| - 1] else 0.0;
      && BarSpan(current, maxH, absMax).Ok?
      && r.value[0] == Bar(theme.barColor, x + hs, BarSpan(current, maxH, absMax).value.0 + y,
                           BarWidth, BarSpan(current, maxH, absMax).value.1)
  {
    var current := if |layer| > 0 then layer[|layer| - 1] else 0.0;
    var span :- BarSpan(current, maxH, absMax);
    var points :- LayerPoints(layer, x + hs - historySize, maxH, y, absMax, historySize);
    var palette :- colors;
    Ok([Bar(theme.barColor, x + hs, span.0 + y, BarWidth, span.1), Polygon(palette[w], points)])
  }

  /** The drawing loop over `n` layers in paint order, `w` counting the colours used;
      `shapes(w)` draws layer `w`, and the first layer that throws ends the loop. */
  function DrawLayers(n: nat, w: nat, shapes: nat -> Result<seq<Shape>>): (r: Result<seq<Shape>>)
    requires w <= n
    ensures r.Ok? ==> forall k :: w <= k < n ==> shapes(k).Ok?
    decreases n - w
  {
    if w == n then Ok([])
    else
      var own :- shapes(w);
      var rest :- DrawLayers(n, w + 1, shapes);
      Ok(own + rest)
  }

  /** A completed drawing loop is the shapes of layer `w` followed by the loop from
      `w + 1`. */
  lemma DrawLayersFirst(n: nat, w: nat, shapes: nat -> Result<seq<Shape>>)
    requires w < n && DrawLayers(n, w, shapes).Ok?
    ensures shapes(w).Ok? && DrawLayers(n, w + 1, shapes).Ok?
    ensures DrawLayers(n, w, shapes).value == shapes(w).value + DrawLayers(n, w + 1, shapes).value
  {
  }

  /** When every layer is drawn as two shapes, the loop draws two shapes per layer, and
      layer `v` as shapes `2v` and `2v + 1`, counting from `w`. */
  lemma {:induction false} DrawLayersInOrder(n: nat, w: nat, shapes: nat -> Result<seq<Shape>>, v: nat)
    requires w <= v < n
    requires forall k :: w <= k < n && shapes(k).Ok? ==> |shapes(k).value| == 2
    requires DrawLayers(n, w, shapes).Ok?
    ensures var all := DrawLayers(n, w, shapes).value;
            && |all| == 2 * (n - w)
            && shapes(v).Ok?
            && all[2 * (v - w)] == shapes(v).value[0]
            && all[2 * (v - w) + 1] == shapes(v).value[1]
    decreases n - w
  {
    DrawLayersFirst(n, w, shapes);
    var all := DrawLayers(n, w, shapes).value;
    var rest := DrawLayers(n, w + 1, shapes).value;
    if v > w {
      DrawLayersInOrder(n, w + 1, shapes, v);
      var i := 2 * (v - (w + 1));
      assert all[i + 2] == rest[i] && all[i + 3] == rest[i + 1];
    } else if w + 1 < n {
      DrawLayersInOrder(n, w + 1, shapes, w + 1);
    }
  }

  /** The layers in paint order: `values.Reverse()` unless inverted. */
  function PaintOrder(values: seq<seq<real>>, inverted: bool): (r: seq<seq<real>>)
    ensures |r| == |values|
    ensures inverted ==> r == values
    ensures !inverted ==> forall i :: 0 <= i < |values| ==> r[i] == values[|values| - 1 - i]
  {
    if inverted then values else Reversed(values)
  }

  /** The body of the drawing loop: layer `w` of `order`, with colour `w` of the gradient. */
  function LayerDrawer(order: seq<seq<real>>, colors: Result<seq<Color>>, x: int, y: int,
                       maxH: int, absMax: real, historySize: nat, theme: Theme, hs: int)
    : nat -> Result<seq<Shape>>
    requires colors.Ok? ==> |colors.value| == |order|
  {
    (w: nat) => if w < |order| then LayerShapes(order[w], w, colors, x, y, maxH, absMax, historySize, theme, hs)
         else Err(ArgumentOutOfRange)
  }

  /** `DrawStackedGraph(x, y, maxH, inverted, infos)`. `StackedColors[0]` and
      `StackedColors[1]` are read before any layer is drawn. */
  function DrawStacked(x: int, y: int, maxH: int, inverted: bool, infos: seq<Series>, theme: Theme,
                       hs: int): (r: Result<seq<Shape>>)
    ensures |infos| == 1 ==> r.Err?
    ensures |infos| == 0 && |theme.stackedColors| >= 2 ==> r == Ok([])
    ensures |theme.stackedColors| < 2 ==> r.Err?
    ensures r.Ok? && |infos| > 0 ==> |theme.stackedColors| >= 2 && SumMaxima(infos) != 0.0
  {
    var values :- Accumulate(Reversed(infos), []);
    var absMax := SumMaxima(infos);
    var historySize := if |values| > 0 then |values[0]| else 0;
    if |theme.stackedColors| < 2 then Err(ArgumentOutOfRange)
    else
      var colors := GetColorGradient(theme.stackedColors[0], theme.stackedColors[1], |values|);
      var order := PaintOrder(values, inverted);
      var r := DrawLayers(|order|, 0, LayerDrawer(order, colors, x, y, maxH, absMax, historySize, theme, hs));
      assert |infos| > 0 && r.Ok? ==> LayerShapes(order[0], 0, colors, x, y, maxH, absMax, historySize, theme, hs).Ok?;
      r
  }

  /** A completed stacked drawing accumulated the reversed series, read two stacked
      colours, and drew the layers in paint order with the gradient over as many colours as
      series. */
  lemma DrawStackedSteps(x: int, y: int, maxH: int, inverted: bool, infos: seq<Series>, theme: Theme,
                         hs: int)
    requires DrawStacked(x, y, maxH, inverted, infos, theme, hs).Ok?
    ensures Accumulate(Reversed(infos), []).Ok? && |theme.stackedColors| >= 2
    ensures var values := Accumulate(Reversed(infos), []).value;
            var colors := GetColorGradient(theme.stackedColors[0], theme.stackedColors[1], |infos|);
            var historySize := if |values| > 0 then |values[0]| else 0;
            var order := PaintOrder(values, inverted);
            && |order| == |infos|
            && (colors.Ok? ==> |colors.value| == |infos|)
            && DrawStacked(x, y, maxH, inverted, infos, theme, hs)
               == DrawLayers(|infos|, 0, LayerDrawer(order, colors, x, y, maxH, SumMaxima(infos),
                                                     historySize, theme, hs))
  {
  }

  /** A completed stacked drawing holds two shapes per series, and layer `w` in paint order
      is its bar and its polygon filled with gradient colour `w`. */
  lemma StackedColours(x: int, y: int, maxH: int, inverted: bool, infos: seq<Series>, theme: Theme,
                       hs: int, w: nat)
    requires w < |infos|
    requires DrawStacked(x, y, maxH, inverted, infos, theme, hs).Ok?
    ensures |theme.stackedColors| >= 2 && GetColorGradient(theme.stackedColors[0], theme.stackedColors[1], |infos|).Ok?
    ensures var all := DrawStacked(x, y, maxH, inverted, infos, theme, hs).value;
            && |all| == 2 * |infos|
            && all[2 * w].Bar? && all[2 * w + 1].Polygon?
            && all[2 * w + 1].color == GetColorGradient(theme.stackedColors[0], theme.stackedColors[1], |infos|).value[w]
  {
    DrawStackedSteps(x, y, maxH, inverted, infos, theme, hs);
    var values := Accumulate(Reversed(infos), []).value;
    var colors := GetColorGradient(theme.stackedColors[0], theme.stackedColors[1], |infos|);
    var historySize := if |values| > 0 then |values[0]| else 0;
    LayersColoured(PaintOrder(values, inverted), colors, x, y, maxH, SumMaxima(infos), historySize, theme, hs, w);
  }

  /** A completed drawing loop over the layers holds two shapes per layer, and layer `w` is
      its bar and its polygon filled with colour `w`. */
  lemma LayersColoured(order: seq<seq<real>>, colors: Result<seq<Color>>, x: int, y: int,
                       maxH: int, absMax: real, historySize: nat, theme: Theme, hs: int, w: nat)
    requires colors.Ok? ==> |colors.value| == |order|
    requires w < |order|
    requires DrawLayers(|order|, 0, LayerDrawer(order, colors, x, y, maxH, absMax, historySize, theme, hs)).Ok?
    ensures colors.Ok?
    ensures var all := DrawLayers(|order|, 0, LayerDrawer(order, colors, x, y, maxH, absMax, historySize, theme, hs)).value;
            && |all| == 2 * |order|
            && all[2 * w].Bar? && all[2 * w + 1].Polygon?
            && all[2 * w + 1].color == colors.value[w]
  {
    var shapes := LayerDrawer(order, colors, x, y, maxH, absMax, historySize, theme, hs);
    forall k | 0 <= k < |order| && shapes(k).Ok? ensures |shapes(k).value| == 2 {
      assert shapes(k) == LayerShapes(order[k], k, colors, x, y, maxH, absMax, historySize, theme, hs);
    }
    DrawLayersInOrder(|order|, 0, shapes, w);
    assert shapes(w) == LayerShapes(order[w], w, colors, x, y, maxH, absMax, historySize, theme, hs);
  }

  /** Which layer is painted first, taking colour 0: without inversion the layer holding
      every series summed, with inversion the layer holding only the last series. */
  lemma FirstPaintedLayer(infos: seq<Series>, inverted: bool, len: nat)
    requires |infos| > 0 && len > 0 && forall t :: 0 <= t < |infos| ==> |infos[t].history| == len
    ensures Accumulate(Reversed(infos), []).Ok?
    ensures var first := PaintOrder(Accumulate(Reversed(infos), []).value, inverted)[0];
            && (!inverted ==> forall z :: 0 <= z < len ==> first[z] == StackSum(Reversed(infos), |infos| - 1, z))
            && (inverted ==> first == infos[|infos| - 1].history)
  {
    var rev := Reversed(infos);
    AccumulateSums(rev, [], len);
    var values := Accumulate(rev, []).value;
    assert values[0] == Layer(rev[0].history, []).value;
  }
}
