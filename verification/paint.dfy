/** `SystemWatcherControl_Paint`: one panel per enabled counter, in the order of the
    options dictionary, each holding the counter's graph, its title and its value texts,
    the panels advancing along a row and wrapping to the next row at the control's width. */
module Paint {
  import opened Wrappers
  import opened Numeric
  import opened Strings
  import opened CounterInfo
  import opened GraphTheme
  import Options
  import opened Graphs
  import Stacked
  import Counters

  /** What `MeasureString` reports for a string in a font. */
  datatype Size = Size(width: real, height: real)

  /** What the paint reads besides the model's state: string measurement in the title font
      and in the value font (font metrics are outside this model), and whether the mouse is
      over the control. */
  datatype Surface = Surface(titleSize: string -> Size, valueSize: Label -> Size, mouseOver: bool)

  /** One drawn counter: its name, the slot it was drawn at, and its shapes in paint order. */
  datatype Panel = Panel(name: string, x: int, y: int, shapes: seq<Shape>)

  /** `maximumHeight`: the taskbar height, or 30 when the taskbar reports none (vertical). */
  function MaximumHeight(taskbarHeight: int): (h: int)
    ensures h > 0
    ensures taskbarHeight > 0 ==> h == taskbarHeight
    ensures taskbarHeight <= 0 ==> h == 30
  {
    if taskbarHeight <= 0 then 30 else taskbarHeight
  }

  /** The `positions` dictionary: the top of each text slot, all computed from the height of
      the measured title. */
  function SlotTop(p: Options.DisplayPosition, maxH: int, titleHeight: real, gy: int): (top: real)
    ensures p == Options.Top ==> top == gy as real
    ensures p == Options.Middle ==> top + titleHeight / 2.0 == (HalfTowardZero(maxH) + 1 + gy) as real
    ensures p == Options.Bottom ==> top + titleHeight == (maxH + 1 + gy) as real
  {
    match p
    case Top => gy as real
    case Middle => (HalfTowardZero(maxH) as real - titleHeight / 2.0) + 1.0 + gy as real
    case Bottom => (maxH as real - titleHeight + 1.0) + gy as real
  }

  /** For a title no taller than the graph, the three slots lie top to bottom in the order
      their names say, and the bottom slot ends one pixel under the graph. */
  lemma SlotsOrdered(maxH: int, titleHeight: real, gy: int)
    requires 0 <= maxH && 0.0 <= titleHeight <= maxH as real
    ensures SlotTop(Options.Top, maxH, titleHeight, gy) <= SlotTop(Options.Middle, maxH, titleHeight, gy)
    ensures SlotTop(Options.Middle, maxH, titleHeight, gy) <= SlotTop(Options.Bottom, maxH, titleHeight, gy)
    ensures SlotTop(Options.Bottom, maxH, titleHeight, gy) + titleHeight == (maxH + 1 + gy) as real
  {
    var half := HalfTowardZero(maxH);
    assert 2 * half <= maxH < 2 * half + 2;
  }

  /** The left edge of a text box of the given width, centred over the history:
      `graphPosition + HistorySize / 2 - width / 2`. */
  function TextLeft(gp: int, historySize: int, width: real): (left: real)
    ensures left + width / 2.0 == (gp + HalfTowardZero(historySize)) as real
  {
    (gp + HalfTowardZero(historySize)) as real - width / 2.0
  }

  /** A colour with its alpha replaced by 40: the faint text shown while hovering is off. */
  function Faint(c: Color): (f: Color)
    ensures f.a == 40 && f.r == c.r && f.g == c.g && f.b == c.b
  {
    Color(40, c.r, c.g, c.b)
  }

  /** The drawing rule shared by the title and the value texts, for a shown mode (SHOW or
      HOVER). Away from the mouse a HOVER text is faint, has no shadow, and is drawn at all
      only when its "shadow on hover" flag is set; otherwise the text is drawn in full
      colour over its shadow, offset by one pixel right and down. */
  function DrawText(what: Label, mode: Options.DisplayType, onHover: bool, mouseOver: bool,
                    color: Color, shadow: Color, size: Size, left: real, top: real, maxH: int)
    : (r: seq<Shape>)
    requires mode != Options.Hidden
    ensures var faint := mode == Options.Hover && !mouseOver;
            && (|r| == 2 <==> !faint)
            && (|r| == 1 <==> faint && onHover)
            && (r == [] <==> faint && !onHover)
    ensures |r| > 0 ==>
      r[|r| - 1] == Text(if mode == Options.Hover && !mouseOver then Faint(color) else color,
                         what, left, top, size.width, maxH)
    ensures |r| == 2 ==> r[0] == Text(shadow, what, left + 1.0, top + 1.0, size.width, maxH)
  {
    var faint := mode == Options.Hover && !mouseOver;
    var brush := if faint then Faint(color) else color;
    var text := Text(brush, what, left, top, size.width, maxH);
    if (onHover && mode == Options.Hover && !mouseOver) || (mode == Options.Hover && mouseOver) || mode == Options.Show then
      if (mode == Options.Hover && mouseOver) || mode == Options.Show then
        [Text(shadow, what, left + 1.0, top + 1.0, size.width, maxH), text]
      else [text]
    else []
  }

  /** `usedPosition`: the title's slot, when the title is shown (SHOW or HOVER). */
  function UsedPosition(o: Options.CounterOptions): (u: Option<Options.DisplayPosition>)
    ensures u.Some? <==> o.showTitle != Options.Hidden
    ensures u.Some? ==> u.value == o.titlePosition
  {
    if o.showTitle != Options.Hidden then Some(o.titlePosition) else None
  }

  /** Rank of a slot from the top; the list of free slots is kept in this order. */
  function Rank(p: Options.DisplayPosition): nat {
    match p
    case Top => 0
    case Middle => 1
    case Bottom => 2
  }

  /** `positionsAvailable`: TOP, MIDDLE, BOTTOM without the title's slot. */
  function Available(used: Option<Options.DisplayPosition>): (r: seq<Options.DisplayPosition>)
    ensures used.None? ==> |r| == 3
    ensures used.Some? ==> |r| == 2
    ensures forall i :: 0 <= i < |r| ==> used != Some(r[i])
    ensures forall i, j :: 0 <= i < j < |r| ==> Rank(r[i]) < Rank(r[j])
  {
    match used
    case None => [Options.Top, Options.Middle, Options.Bottom]
    case Some(p) =>
      if p.Top? then [Options.Middle, Options.Bottom]
      else if p.Middle? then [Options.Top, Options.Bottom]
      else [Options.Top, Options.Middle]
  }

  /** The `texts` dictionary, in insertion order: the summary's text alone at the summary
      slot when values are summarised or there are more than two series; otherwise one text
      per series (at most two) in the free slots from the top, prefixed by the series name
      when there is more than one series. */
  function ValueTexts(o: Options.CounterOptions, infos: seq<Series>, summary: Series)
    : (r: seq<(Options.DisplayPosition, Label)>)
    ensures o.currentValueAsSummary || |infos| > 2 ==> r == [(o.summaryPosition, Value(None, summary.display))]
    ensures !(o.currentValueAsSummary || |infos| > 2) ==>
      && |r| == |infos|
      && forall i :: 0 <= i < |r| ==>
           r[i].1 == Value(if |infos| > 1 then Some(infos[i].name) else None, infos[i].display)
    ensures !(o.currentValueAsSummary || |infos| > 2) ==>
      forall i :: 0 <= i < |r| ==> UsedPosition(o) != Some(r[i].0)
    ensures forall i, j :: 0 <= i < j < |r| ==> Rank(r[i].0) < Rank(r[j].0)
  {
    if o.currentValueAsSummary || |infos| > 2 then [(o.summaryPosition, Value(None, summary.display))]
    else
      var free := Available(UsedPosition(o));
      var showName := |infos| > 1;
      seq(|infos|, i requires 0 <= i < |infos| =>
        (free[i], Value(if showName then Some(infos[i].name) else None, infos[i].display)))
  }

  /** The value texts drawn one after the other, each measured in the value font and placed
      at its slot. */
  function ValueShapes(texts: seq<(Options.DisplayPosition, Label)>, o: Options.CounterOptions,
                       theme: Theme, surface: Surface, gp: int, gy: int, historySize: int,
                       maxH: int, titleHeight: real): (r: seq<Shape>)
    requires o.showCurrentValue != Options.Hidden
    ensures o.showCurrentValue == Options.Show || surface.mouseOver ==> |r| == 2 * |texts|
    ensures o.showCurrentValue == Options.Hover && !surface.mouseOver ==>
      |r| == if o.showCurrentValueShadowOnHover then |texts| else 0
    decreases |texts|
  {
    if |texts| == 0 then []
    else
      var size := surface.valueSize(texts[0].1);
      DrawText(texts[0].1, o.showCurrentValue, o.showCurrentValueShadowOnHover, surface.mouseOver,
               theme.textColor, theme.textShadowColor, size, TextLeft(gp, historySize, size.width),
               SlotTop(texts[0].0, maxH, titleHeight, gy), maxH)
      + ValueShapes(texts[1..], o, theme, surface, gp, gy, historySize, maxH, titleHeight)
  }

  /** The title then the value texts of one counter. */
  function PanelTexts(c: Counters.Counter, o: Options.CounterOptions, theme: Theme, surface: Surface,
                      gp: int, gy: int, historySize: int, maxH: int): (r: seq<Shape>)
    ensures o.showTitle == Options.Hidden && o.showCurrentValue == Options.Hidden ==> r == []
    ensures o.showTitle == Options.Show || (o.showTitle == Options.Hover && surface.mouseOver) ==>
      var size := surface.titleSize(Counters.Name(c));
      && |r| >= 2
      && r[1] == Text(theme.titleColor, Title(Counters.Name(c)), TextLeft(gp, historySize, size.width),
                      SlotTop(o.titlePosition, maxH, size.height, gy), size.width, maxH)
  {
    var name := Counters.Name(c);
    var size := surface.titleSize(name);
    var title :=
      if o.showTitle == Options.Hidden then []
      else DrawText(Title(name), o.showTitle, o.showTitleShadowOnHover, surface.mouseOver,
                    theme.titleColor, theme.titleShadowColor, size, TextLeft(gp, historySize, size.width),
                    SlotTop(o.titlePosition, maxH, size.height, gy), maxH);
    var values :=
      if o.showCurrentValue == Options.Hidden then []
      else ValueShapes(ValueTexts(o, Counters.Infos(c), Counters.Summary(c)), o, theme, surface,
                       gp, gy, historySize, maxH, size.height);
    title + values
  }

  /** The graph of one counter, by the layout its `GetCounterType` reports: SINGLE draws the
      first series (`infos[0]`, which throws on a counter with none), MIRRORED the bands,
      STACKED the stacked layers. */
  function PanelGraph(c: Counters.Counter, o: Options.Options, co: Options.CounterOptions,
                      gp: int, gy: int, maxH: int, theme: Theme): (r: Result<seq<Shape>>)
    ensures Counters.GraphType(c, o.counters).Err? ==> r.Err?
    ensures Counters.GraphType(c, o.counters) == Ok(Options.Single) ==>
      r == (if |Counters.Infos(c)| == 0 then Err(ArgumentOutOfRange)
            else DrawGraph(gp, gy, maxH, false, Counters.Infos(c)[0], theme, o.historySize))
    ensures Counters.GraphType(c, o.counters) == Ok(Options.Mirrored) ==>
      r == Graphs.Mirrored(gp, gy, maxH, co.invertOrder, Counters.Infos(c), theme, o.historySize)
    ensures Counters.GraphType(c, o.counters) == Ok(Options.Stacked) ==>
      r == Stacked.DrawStacked(gp, gy, maxH, co.invertOrder, Counters.Infos(c), theme, o.historySize)
  {
    var kind :- Counters.GraphType(c, o.counters);
    var infos := Counters.Infos(c);
    match kind
    case Single =>
      if |infos| == 0 then Err(ArgumentOutOfRange)
      else DrawGraph(gp, 0 + gy, maxH, false, infos[0], theme, o.historySize)
    case Mirrored => Graphs.Mirrored(gp, gy, maxH, co.invertOrder, infos, theme, o.historySize)
    case Stacked => Stacked.DrawStacked(gp, gy, maxH, co.invertOrder, infos, theme, o.historySize)
  }

  /** The entries the paint loop visits: the enabled ones, in dictionary order. */
  function Enabled(es: seq<Options.Entry>): (r: seq<Options.Entry>)
    ensures |r| <= |es|
    ensures forall e :: e in r <==> e in es && e.options.enabled
    decreases |es|
  {
    if |es| == 0 then []
    else if es[0].options.enabled then [es[0]] + Enabled(es[1..])
    else Enabled(es[1..])
  }

  /** The positions, from `from` on, of the counters reporting `name`. */
  function CounterMatches(cs: seq<Counters.Counter>, name: string, from: nat): (m: seq<nat>)
    requires from <= |cs|
    ensures forall j :: from <= j < |cs| ==> (Counters.Name(cs[j]) == name <==> j in m)
    ensures forall k :: 0 <= k < |m| ==> from <= m[k] < |cs|
    ensures forall k, l :: 0 <= k < l < |m| ==> m[k] < m[l]
    decreases |cs| - from
  {
    if from == |cs| then []
    else
      var rest := CounterMatches(cs, name, from + 1);
      if Counters.Name(cs[from]) == name then [from] + rest else rest
  }

  /** `Counters.Where(x => x.GetName() == name).Single()`. */
  function CounterIndex(cs: seq<Counters.Counter>, name: string): (r: Result<nat>)
    ensures r.Ok? ==> r.value < |cs| && Counters.Name(cs[r.value]) == name
    ensures r.Ok? <==> exists i :: 0 <= i < |cs| && Counters.Name(cs[i]) == name &&
                                   forall j :: 0 <= j < |cs| && Counters.Name(cs[j]) == name ==> j == i
    ensures r.Err? ==> r.fault == InvalidOperation
  {
    var m := CounterMatches(cs, name, 0);
    if |m| == 1 then
      assert forall j :: 0 <= j < |cs| && Counters.Name(cs[j]) == name ==> j == m[0];
      Ok(m[0])
    else
      assert |m| >= 2 ==> Counters.Name(cs[m[0]]) == name && Counters.Name(cs[m[1]]) == name && m[0] != m[1];
      Err(InvalidOperation)
  }

  /** The slot advance after each panel: one history width plus a 10-pixel gap to the right,
      or the start of the next row (one graph height plus 10 down) once the control's width
      is reached. */
  function Advance(pos: (int, int), historySize: int, maxH: int, width: int): (next: (int, int))
    ensures pos.0 + historySize + 10 < width ==> next == (pos.0 + historySize + 10, pos.1)
    ensures pos.0 + historySize + 10 >= width ==> next == (0, pos.1 + maxH + 10)
  {
    var x := pos.0 + historySize + 10;
    if x >= width then (0, pos.1 + (maxH + 10)) else (x, pos.1)
  }

  /** The slot reached after `k` advances from `pos`. */
  function Walk(k: nat, pos: (int, int), historySize: int, maxH: int, width: int): (int, int)
    decreases k
  {
    if k == 0 then pos else Walk(k - 1, Advance(pos, historySize, maxH, width), historySize, maxH, width)
  }

  /** The paint loop over the enabled entries from the current slot. */
  function PaintFrom(entries: seq<Options.Entry>, cs: seq<Counters.Counter>, o: Options.Options,
                     theme: Theme, surface: Surface, maxH: int, width: int, pos: (int, int))
    : (r: Result<seq<Panel>>)
    ensures r.Ok? ==> |r.value| == |entries|
    decreases |entries|
  {
    if |entries| == 0 then Ok([])
    else
      var e := entries[0];
      var i :- CounterIndex(cs, e.key);
      var graph :- PanelGraph(cs[i], o, e.options, pos.0, pos.1, maxH, theme);
      var texts := PanelTexts(cs[i], e.options, theme, surface, pos.0, pos.1, o.historySize, maxH);
      var rest :- PaintFrom(entries[1..], cs, o, theme, surface, maxH, width,
                            Advance(pos, o.historySize, maxH, width));
      Ok([Panel(e.key, pos.0, pos.1, graph + texts)] + rest)
  }

  /** The first turn of a completed paint loop: the panel for the first entry at the
      current slot, then the loop from the next slot. */
  lemma PaintFromFirst(entries: seq<Options.Entry>, cs: seq<Counters.Counter>, o: Options.Options,
                       theme: Theme, surface: Surface, maxH: int, width: int, pos: (int, int))
    requires |entries| > 0
    requires PaintFrom(entries, cs, o, theme, surface, maxH, width, pos).Ok?
    ensures var r := PaintFrom(entries, cs, o, theme, surface, maxH, width, pos).value;
            var rest := PaintFrom(entries[1..], cs, o, theme, surface, maxH, width,
                                  Advance(pos, o.historySize, maxH, width));
            && CounterIndex(cs, entries[0].key).Ok?
            && r[0].name == entries[0].key && (r[0].x, r[0].y) == pos
            && rest.Ok? && r[1..] == rest.value
  {
  }

  /** A completed paint loop drew panel `k` for entry `k`, found exactly one counter with
      that entry's name, and placed the panel at the slot reached after `k` advances. */
  lemma {:induction false} PaintFromPanels(entries: seq<Options.Entry>, cs: seq<Counters.Counter>,
                                           o: Options.Options, theme: Theme, surface: Surface,
                                           maxH: int, width: int, pos: (int, int), k: nat)
    requires k < |entries|
    requires PaintFrom(entries, cs, o, theme, surface, maxH, width, pos).Ok?
    ensures var p := PaintFrom(entries, cs, o, theme, surface, maxH, width, pos).value[k];
            && p.name == entries[k].key
            && CounterIndex(cs, entries[k].key).Ok?
            && (p.x, p.y) == Walk(k, pos, o.historySize, maxH, width)
    decreases k
  {
    PaintFromFirst(entries, cs, o, theme, surface, maxH, width, pos);
    if k > 0 {
      var next := Advance(pos, o.historySize, maxH, width);
      PaintFromPanels(entries[1..], cs, o, theme, surface, maxH, width, next, k - 1);
      assert entries[1..][k - 1] == entries[k];
      var r := PaintFrom(entries, cs, o, theme, surface, maxH, width, pos).value;
      assert r[k] == r[1..][k - 1];
    }
  }

  /** `SystemWatcherControl_Paint` for a control `width` pixels wide. An exception in any
      panel ends the paint. */
  function PaintControl(o: Options.Options, cs: seq<Counters.Counter>, theme: Theme, surface: Surface,
                 taskbarHeight: int, width: int): (r: Result<seq<Panel>>)
    ensures r.Ok? ==> |r.value| == |Enabled(o.counters)|
  {
    PaintFrom(Enabled(o.counters), cs, o, theme, surface, MaximumHeight(taskbarHeight), width, (0, 0))
  }

  /** Slot `k` on a grid `perLine` panels wide: column `k % perLine`, one history width plus
      10 per column, and row `k / perLine`, one graph height plus 10 per row. */
  function SlotOf(k: nat, historySize: int, maxH: int, perLine: nat): (int, int)
    requires perLine > 0
  {
    ((k % perLine) * (historySize + 10), (k / perLine) * (maxH + 10))
  }

  /** One advance moves from slot `k` to slot `k + 1`. */
  lemma AdvanceToNextSlot(k: nat, historySize: int, maxH: int, perLine: nat)
    requires historySize + 10 > 0 && perLine > 0
    ensures Advance(SlotOf(k, historySize, maxH, perLine), historySize, maxH, (historySize + 10) * perLine)
         == SlotOf(k + 1, historySize, maxH, perLine)
  {
    var step := historySize + 10;
    var row := maxH + 10;
    var q := k / perLine;
    var r := k % perLine;
    assert k == q * perLine + r;
    var x := r * step + step;
    assert x == (r + 1) * step;
    if r + 1 == perLine {
      DivModUnique(k + 1, perLine, q + 1, 0);
      assert x == step * perLine;
      assert q * row + row == (q + 1) * row;
    } else {
      DivModUnique(k + 1, perLine, q, r + 1);
      MulNonNegative(perLine - r - 2, step);
      assert step * perLine - x == (perLine - r - 1) * step;
    }
  }

  /** When the control is exactly `perLine` panels wide, advancing `k` times from slot `j`
      reaches slot `j + k`. */
  lemma {:induction false} WalkSlots(k: nat, j: nat, historySize: int, maxH: int, perLine: nat)
    requires historySize + 10 > 0 && perLine > 0
    ensures Walk(k, SlotOf(j, historySize, maxH, perLine), historySize, maxH, (historySize + 10) * perLine)
         == SlotOf(j + k, historySize, maxH, perLine)
    decreases k
  {
    if k > 0 {
      AdvanceToNextSlot(j, historySize, maxH, perLine);
      WalkSlots(k - 1, j + 1, historySize, maxH, perLine);
    }
  }

  /** The width of `perLine` slots, each one history width plus a 10-pixel gap. */
  function GridWidth(historySize: int, perLine: nat): int {
    (historySize + 10) * perLine
  }

  /** From the origin, `k` advances reach slot `k` on a control `perLine` panels wide. */
  lemma WalkFromOrigin(k: nat, historySize: int, maxH: int, perLine: nat, width: int, at: (int, int))
    requires historySize + 10 > 0 && perLine > 0 && width == GridWidth(historySize, perLine)
    requires at == Walk(k, (0, 0), historySize, maxH, width)
    ensures at == SlotOf(k, historySize, maxH, perLine)
  {
    assert SlotOf(0, historySize, maxH, perLine) == (0, 0);
    WalkSlots(k, 0, historySize, maxH, perLine);
  }

  /** Panel `k` of a completed paint sits where `k` advances from the origin lead. */
  lemma PanelsWalk(o: Options.Options, cs: seq<Counters.Counter>, theme: Theme, surface: Surface,
                   taskbarHeight: int, width: int, k: nat)
    requires PaintControl(o, cs, theme, surface, taskbarHeight, width).Ok?
    requires k < |Enabled(o.counters)|
    ensures var p := PaintControl(o, cs, theme, surface, taskbarHeight, width).value[k];
            (p.x, p.y) == Walk(k, (0, 0), o.historySize, MaximumHeight(taskbarHeight), width)
  {
    PaintFromPanels(Enabled(o.counters), cs, o, theme, surface, MaximumHeight(taskbarHeight), width, (0, 0), k);
  }

  /** The panel layout: on a control exactly `perLine` panels wide, the `k`-th enabled
      counter is drawn in column `k % perLine` of row `k / perLine`, columns one history
      width plus 10 apart and rows one graph height plus 10 apart. */
  lemma PanelsOnGrid(o: Options.Options, cs: seq<Counters.Counter>, theme: Theme, surface: Surface,
                     taskbarHeight: int, width: int, perLine: nat, k: nat)
    requires o.historySize + 10 > 0 && perLine > 0 && width == GridWidth(o.historySize, perLine)
    requires PaintControl(o, cs, theme, surface, taskbarHeight, width).Ok?
    requires k < |Enabled(o.counters)|
    ensures var p := PaintControl(o, cs, theme, surface, taskbarHeight, width).value[k];
            (p.x, p.y) == SlotOf(k, o.historySize, MaximumHeight(taskbarHeight), perLine)
  {
    var p := PaintControl(o, cs, theme, surface, taskbarHeight, width).value[k];
    PanelsWalk(o, cs, theme, surface, taskbarHeight, width, k);
    WalkFromOrigin(k, o.historySize, MaximumHeight(taskbarHeight), perLine, width, (p.x, p.y));
  }
}
