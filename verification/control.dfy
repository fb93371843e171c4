/** `SystemWatcherControl` outside painting: the theme it picks, the counters it creates,
    the polling update, and the control size it asks the taskbar for. */
module Control {
  import opened Wrappers
  import opened Numeric
  import opened Strings
  import opened GraphTheme
  import Options
  import Counters
  import CounterCpu
  import CounterMemory
  import CounterDisk
  import CounterNetwork
  import Paint

  /** `GetTheme`: the built-in theme the options name, the theme file (read elsewhere and
      passed in) for CUSTOM, and for AUTOMATIC the light theme exactly when the taskbar's
      colour is bright — its red, green and blue channels summing to more than 382. */
  function GetTheme(themeType: Options.ThemeList, taskbarColor: Color, stored: Theme): (t: Theme)
    ensures themeType == Options.Dark ==> t == DefaultDarkTheme()
    ensures themeType == Options.Light ==> t == DefaultLightTheme()
    ensures themeType == Options.Custom ==> t == stored
    ensures themeType == Options.Automatic ==>
      && (t == DefaultLightTheme() <==> taskbarColor.r + taskbarColor.g + taskbarColor.b > 382)
      && (t == DefaultDarkTheme() <==> taskbarColor.r + taskbarColor.g + taskbarColor.b <= 382)
  {
    assert DefaultLightTheme().barColor != DefaultDarkTheme().barColor;
    if themeType == Options.Light then DefaultLightTheme()
    else if themeType == Options.Custom then stored
    else if themeType == Options.Automatic then
      if taskbarColor.r + taskbarColor.g + taskbarColor.b > 382 then DefaultLightTheme()
      else DefaultDarkTheme()
    else DefaultDarkTheme()
  }

  /** The brightest colour that still selects the dark theme, and the darkest that selects
      the light one. */
  lemma ThemeThreshold()
    ensures GetTheme(Options.Automatic, Color(255, 127, 127, 128), NewTheme()) == DefaultDarkTheme()
    ensures GetTheme(Options.Automatic, Color(255, 127, 128, 128), NewTheme()) == DefaultLightTheme()
  {
  }

  /** What the operating system offers when the counters are created: the processor
      counter instances, the installed memory in kilobytes, and the network adapters. */
  datatype Machine = Machine(processors: seq<string>, installedKb: nat, adapters: seq<string>)

  /** The counter names `Initialize` knows, in the order it creates them. */
  const Known: seq<string> := ["CPU", "MEM", "DISK", "NET"]

  /** The known names present as keys in the options, in creation order. */
  function Present(es: seq<Options.Entry>, names: seq<string>): (r: seq<string>)
    ensures forall x :: x in r <==> x in names && Options.HasKey(es, x)
    ensures Distinct(names) ==> Distinct(r)
    ensures |r| <= |names|
    decreases |names|
  {
    if |names| == 0 then []
    else
      var rest := Present(es, names[1..]);
      if Options.HasKey(es, names[0]) then [names[0]] + rest else rest
  }

  /** A new counter of the kind a known name selects, initialised. */
  function Make(name: string, m: Machine): (c: Counters.Counter)
    requires name in Known
    ensures Counters.Name(c) == name
  {
    if name == "CPU" then Counters.Cpu(CounterCpu.Initialize(CounterCpu.New(), m.processors))
    else if name == "MEM" then Counters.Memory(CounterMemory.Initialize(m.installedKb))
    else if name == "DISK" then Counters.Disk(CounterDisk.Initialize())
    else Counters.Network(CounterNetwork.Initialize(m.adapters))
  }

  /** `Initialize`: one initialised counter per known key present in the options, always in
      the order CPU, MEM, DISK, NET. */
  function Create(o: Options.Options, m: Machine): (cs: seq<Counters.Counter>)
    ensures |cs| == |Present(o.counters, Known)|
    ensures forall i :: 0 <= i < |cs| ==> Counters.Name(cs[i]) == Present(o.counters, Known)[i]
  {
    var names := Present(o.counters, Known);
    seq(|names|, i requires 0 <= i < |names| => Make(names[i], m))
  }

  /** At most four counters, no name twice, each with its options entry, and one for every
      known name the options hold. */
  lemma CreateCounters(o: Options.Options, m: Machine)
    ensures var cs := Create(o, m);
      && |cs| <= 4
      && (forall i, j :: 0 <= i < j < |cs| ==> Counters.Name(cs[i]) != Counters.Name(cs[j]))
      && (forall i :: 0 <= i < |cs| ==> Options.HasKey(o.counters, Counters.Name(cs[i])))
      && (forall name :: name in Known && Options.HasKey(o.counters, name) ==>
            exists i :: 0 <= i < |cs| && Counters.Name(cs[i]) == name)
  {
    var cs := Create(o, m);
    var names := Present(o.counters, Known);
    assert Distinct(Known);
    assert Distinct(names);
    forall name | name in Known && Options.HasKey(o.counters, name)
      ensures exists i :: 0 <= i < |cs| && Counters.Name(cs[i]) == name
    {
      assert name in names;
      var i :| 0 <= i < |names| && names[i] == name;
      assert Counters.Name(cs[i]) == name;
    }
  }

  /** Every enabled entry with a known name finds its counter, so the paint's lookup of the
      counters `Create` made throws only for an entry with another name. */
  lemma CreateServesPaint(o: Options.Options, m: Machine, name: string)
    requires Options.HasKey(o.counters, name)
    ensures Paint.CounterIndex(Create(o, m), name).Ok? <==> name in Known
  {
    var cs := Create(o, m);
    CreateCounters(o, m);
    if name in Known {
      var i :| 0 <= i < |cs| && Counters.Name(cs[i]) == name;
      assert forall j :: 0 <= j < |cs| && Counters.Name(cs[j]) == name ==> j == i;
    } else {
      assert forall j :: 0 <= j < |cs| ==> Counters.Name(cs[j]) != name;
    }
  }

  /** Runs `step` on each element in order until one reports a fault; the elements after
      it stay as they were. */
  function StepEach<T>(xs: seq<T>, step: T -> Outcome<T>): (r: Outcome<seq<T>>)
    ensures |r.state| == |xs|
    decreases |xs|
  {
    if |xs| == 0 then Outcome([], None)
    else
      var first := step(xs[0]);
      if first.fault.Some? then Outcome([first.state] + xs[1..], first.fault)
      else
        var rest := StepEach(xs[1..], step);
        Outcome([first.state] + rest.state, rest.fault)
  }

  /** Every element ends up stepped or untouched; the run completes exactly when every step
      completes, and then every element is stepped. */
  lemma {:induction false} StepEachCompletes<T>(xs: seq<T>, step: T -> Outcome<T>)
    ensures var r := StepEach(xs, step);
      && (forall i :: 0 <= i < |xs| ==> r.state[i] == step(xs[i]).state || r.state[i] == xs[i])
      && (r.fault.None? <==> forall i :: 0 <= i < |xs| ==> step(xs[i]).fault.None?)
      && (r.fault.None? ==> forall i :: 0 <= i < |xs| ==> r.state[i] == step(xs[i]).state)
    decreases |xs|
  {
    if |xs| > 0 {
      StepEachCompletes(xs[1..], step);
      assert forall i :: 1 <= i < |xs| ==> xs[1..][i - 1] == xs[i];
    }
  }

  /** `UpdateGraphs`: each counter's `Update` in order; an exception ends the tick, leaving
      the counters after the failing one as they were. */
  function UpdateAll(cs: seq<Counters.Counter>, o: Options.Options, env: Counters.Readings)
    : (r: Outcome<seq<Counters.Counter>>)
    ensures |r.state| == |cs|
  {
    StepEach(cs, c => Counters.Update(c, o, env))
  }

  /** The tick keeps every counter's kind, completes exactly when every counter's update
      completes, and then holds every counter's updated state. */
  lemma UpdateAllCompletes(cs: seq<Counters.Counter>, o: Options.Options, env: Counters.Readings)
    ensures var r := UpdateAll(cs, o, env);
      && (forall i :: 0 <= i < |cs| ==> Counters.Name(r.state[i]) == Counters.Name(cs[i]))
      && (r.fault.None? <==> forall i :: 0 <= i < |cs| ==> Counters.Update(cs[i], o, env).fault.None?)
      && (r.fault.None? ==> forall i :: 0 <= i < |cs| ==> r.state[i] == Counters.Update(cs[i], o, env).state)
  {
    var step := c => Counters.Update(c, o, env);
    StepEachCompletes(cs, step);
    assert forall i :: 0 <= i < |cs| ==> step(cs[i]) == Counters.Update(cs[i], o, env);
  }

  /** When the first counter's update throws, the tick ends there: the first counter holds
      what its update wrote and the others are untouched. */
  lemma UpdateAllStopsAtFault(cs: seq<Counters.Counter>, o: Options.Options, env: Counters.Readings)
    requires |cs| > 0 && Counters.Update(cs[0], o, env).fault.Some?
    ensures UpdateAll(cs, o, env) == Outcome([Counters.Update(cs[0], o, env).state] + cs[1..],
                                             Counters.Update(cs[0], o, env).fault)
  {
  }

  /** `CountersCount`: the number of enabled entries, which is the number of panels a
      completed paint draws. */
  function CountersCount(o: Options.Options): (n: nat)
    ensures n <= |o.counters|
    ensures forall cs, theme, surface, th, width ::
      Paint.PaintControl(o, cs, theme, surface, th, width).Ok? ==>
        |Paint.PaintControl(o, cs, theme, surface, th, width).value| == n
  {
    |Paint.Enabled(o.counters)|
  }

  /** The size the control asks for, and whether it has switched to the vertical layout. */
  datatype Layout = Layout(vertical: bool, width: int, height: int)

  /** A row of the vertical layout: 30 pixels of graph and a 10-pixel gap. */
  const RowHeight: int := 30 + 10

  /** `AdjustControlSize`. A horizontal taskbar gets one row as wide as all panels and as
      high as the taskbar, but at least 30 pixels. A vertical taskbar (it reports a width and
      no height) that is narrower than one row gets as many panels per line as fit and one
      40-pixel row per line. A panel width of zero or a taskbar narrower than one panel
      divides by zero in floating point, and the conversion of the result throws, as does a
      line or row count outside the 32-bit range. */
  function AdjustControlSize(taskbarWidth: int, taskbarHeight: int, historySize: int, count: nat,
                             vertical: bool): (r: Result<Layout>)
    ensures r.Ok? ==> r.value.vertical == (vertical || (taskbarWidth > 0 && taskbarHeight == 0))
    ensures r.Err? ==> r.fault == Overflow
    ensures var vert := vertical || (taskbarWidth > 0 && taskbarHeight == 0);
            !(vert && taskbarWidth < (historySize + 10) * count) ==>
              && r.Ok?
              && r.value.width == (historySize + 10) * count
              && r.value.height >= 30 && r.value.height >= taskbarHeight
              && (r.value.height == 30 || r.value.height == taskbarHeight)
    ensures var vert := vertical || (taskbarWidth > 0 && taskbarHeight == 0);
            var step := historySize + 10;
            vert && taskbarWidth < step * count ==>
              && (r.Ok? <==> step != 0 && FloorDiv(taskbarWidth, step) != 0
                             && MinInt32 <= FloorDiv(taskbarWidth, step) <= MaxInt32
                             && MinInt32 <= CeilDiv(count, FloorDiv(taskbarWidth, step)) <= MaxInt32)
              && (r.Ok? ==> step != 0 && FloorDiv(taskbarWidth, step) != 0
                            && r.value.width == step * FloorDiv(taskbarWidth, step)
                            && r.value.height == CeilDiv(count, FloorDiv(taskbarWidth, step)) * RowHeight)
  {
    var minimumHeight := if taskbarHeight < 30 then 30 else taskbarHeight;
    var vert := vertical || (taskbarWidth > 0 && taskbarHeight == 0);
    var counterSize := historySize + 10;
    var controlWidth := counterSize * count;
    if vert && taskbarWidth < controlWidth then
      if counterSize == 0 then Err(Overflow)
      else
        RoundInteger(FloorDiv(taskbarWidth, counterSize));
        var perLine :- ToInt32(FloorDiv(taskbarWidth, counterSize) as real);
        if perLine == 0 then Err(Overflow)
        else
          RoundInteger(CeilDiv(count, perLine));
          var rows :- ToInt32(CeilDiv(count, perLine) as real);
          Ok(Layout(vert, counterSize * perLine, rows * RowHeight))
    else Ok(Layout(vert, controlWidth, minimumHeight))
  }

  /** A taskbar at least one panel wide holds at least one panel per line. */
  lemma PerLineBounds(taskbarWidth: int, step: int)
    requires 0 < step <= taskbarWidth <= MaxInt32
    ensures 1 <= taskbarWidth / step <= MaxInt32
    ensures (taskbarWidth / step) * step <= taskbarWidth
  {
    var perLine := taskbarWidth / step;
    assert perLine * step <= taskbarWidth < perLine * step + step;
    if perLine <= 0 {
      MulNonNegative(-perLine, step);
    }
    MulNonNegative(perLine - 1, step);
  }

  /** Rounding `count / perLine` up gives between one line and `count` lines. */
  lemma RowsBounds(count: int, perLine: int)
    requires 1 <= count && 1 <= perLine
    ensures 1 <= CeilDiv(count, perLine) <= count
    ensures count <= CeilDiv(count, perLine) * perLine
  {
    var rows := CeilDiv(count, perLine);
    assert rows * perLine - perLine < count <= rows * perLine;
    if rows < 1 {
      MulNonNegative(1 - rows, perLine);
    }
    if rows > count {
      MulNonNegative(rows - count - 1, perLine);
      MulNonNegative(count, perLine - 1);
    }
  }

  /** Slot `k < count` of a grid `perLine` wide lies inside `perLine` columns and `rows`
      rows when the rows hold all `count` panels. */
  lemma SlotInsideGrid(k: nat, count: int, perLine: nat, rows: int, step: int, rowHeight: int)
    requires k < count <= rows * perLine && perLine > 0 && step > 0 && rowHeight > 0
    ensures (k % perLine) * step + step <= perLine * step
    ensures (k / perLine) * rowHeight + rowHeight <= rows * rowHeight
  {
    var col := k % perLine;
    var row := k / perLine;
    assert k == row * perLine + col;
    MulNonNegative(perLine - 1 - col, step);
    assert row < rows by {
      if row >= rows {
        MulNonNegative(row - rows, perLine);
      }
    }
    MulNonNegative(rows - 1 - row, rowHeight);
  }

  /** On a vertical taskbar at least one panel wide and narrower than a full row, the size
      holds every panel the paint draws there: with a graph height of 30, slot `k` of a grid
      `taskbarWidth / (HistorySize + 10)` panels wide lies inside the control, and the
      control is no wider than the taskbar. */
  lemma VerticalLayoutHoldsPanels(taskbarWidth: int, historySize: int, count: nat, vertical: bool, k: nat)
    requires historySize + 10 > 0 && historySize + 10 <= taskbarWidth <= MaxInt32
    requires taskbarWidth < (historySize + 10) * count && count <= MaxInt32
    requires k < count
    ensures var r := AdjustControlSize(taskbarWidth, 0, historySize, count, vertical);
            var perLine := taskbarWidth / (historySize + 10);
            && r.Ok? && r.value.vertical && perLine > 0
            && r.value.width == (historySize + 10) * perLine <= taskbarWidth
            && Paint.SlotOf(k, historySize, Paint.MaximumHeight(0), perLine).0 + historySize + 10 <= r.value.width
            && Paint.SlotOf(k, historySize, Paint.MaximumHeight(0), perLine).1 + RowHeight <= r.value.height
  {
    var step := historySize + 10;
    var perLine := taskbarWidth / step;
    PerLineBounds(taskbarWidth, step);
    assert FloorDiv(taskbarWidth, step) == perLine;
    RoundInteger(perLine);
    var rows := CeilDiv(count, perLine);
    RowsBounds(count, perLine);
    RoundInteger(rows);
    var r := AdjustControlSize(taskbarWidth, 0, historySize, count, vertical);
    assert r == Ok(Layout(true, step * perLine, rows * RowHeight));
    SlotInsideGrid(k, count, perLine, rows, step, RowHeight);
    assert Paint.SlotOf(k, historySize, Paint.MaximumHeight(0), perLine)
        == ((k % perLine) * step, (k / perLine) * RowHeight);
  }

  /** On a horizontal taskbar the control is exactly as wide as all panels in one row, so
      the paint places panel `k` at `k` panel widths on the top row. */
  lemma HorizontalLayoutIsOneRow(taskbarWidth: int, taskbarHeight: int, historySize: int, count: nat, k: nat)
    requires taskbarHeight != 0 && historySize + 10 > 0 && k < count
    ensures var r := AdjustControlSize(taskbarWidth, taskbarHeight, historySize, count, false);
            && r.Ok? && r.value.width == (historySize + 10) * count
            && Paint.SlotOf(k, historySize, Paint.MaximumHeight(taskbarHeight), count) == (k * (historySize + 10), 0)
  {
    DivModUnique(k, count, 0, k);
  }
}
