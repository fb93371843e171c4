/** What the disk and network counters share: a summary series plus two named series, all
    scaled dynamically by `addValue`, and the optional common scale of the two named series
    when the counter's `SeparateScales` option is off. */
module DualSeries {
  import opened Wrappers
  import opened Numeric
  import opened CounterInfo
  import Options

  /** `InfoSummary` and `Infos` of a two-series counter. */
  datatype Pair = Pair(summary: Series, infos: seq<Series>)

  /** The state `Initialize` (disk) or the constructor (network) builds: all three series
      empty with a maximum of 1. */
  function Fresh3(first: string, second: string): (p: Pair)
    ensures p.summary == Fresh("summary", 1.0)
    ensures p.infos == [Fresh(first, 1.0), Fresh(second, 1.0)]
  {
    Pair(Fresh("summary", 1.0), [Fresh(first, 1.0), Fresh(second, 1.0)])
  }

  /** `addValue(Infos.Where(x => x.Name == name).Single(), value)`. */
  function AddNamed(infos: seq<Series>, name: string, v: real, historySize: int, display: Display)
    : (r: Outcome<seq<Series>>)
    ensures |r.state| == |infos|
    ensures forall i :: 0 <= i < |infos| ==> r.state[i].name == infos[i].name
    ensures SingleIndex(infos, name).Err? ==> r == Outcome(infos, Some(InvalidOperation))
    ensures SingleIndex(infos, name).Ok? ==>
      var i := SingleIndex(infos, name).value;
      var a := AddDynamic(infos[i], v, historySize, display);
      r == Outcome(infos[i := a.series], a.fault)
  {
    match SingleIndex(infos, name)
    case Err(f) => Outcome(infos, Some(f))
    case Ok(i) =>
      var a := AddDynamic(infos[i], v, historySize, display);
      Outcome(infos[i := a.series], a.fault)
  }

  function Larger(a: real, b: real): (m: real)
    ensures m >= a && m >= b && (m == a || m == b)
  {
    if a > b then a else b
  }

  /** The common scale: both named series take the larger of their two maxima. */
  function ShareScale(infos: seq<Series>, first: string, second: string): (r: Outcome<seq<Series>>)
    ensures |r.state| == |infos|
    ensures forall i :: 0 <= i < |infos| ==>
      r.state[i].name == infos[i].name && r.state[i].history == infos[i].history
      && r.state[i].current == infos[i].current && r.state[i].maximum >= infos[i].maximum
    ensures r.fault.None? <==> SingleIndex(infos, first).Ok? && SingleIndex(infos, second).Ok?
    ensures r.fault.None? ==>
      var i := SingleIndex(infos, first).value;
      var j := SingleIndex(infos, second).value;
      var top := Larger(infos[i].maximum, infos[j].maximum);
      && r.state[i] == infos[i].(maximum := top) && r.state[j] == infos[j].(maximum := top)
      && r.state[i].maximum == r.state[j].maximum == top
      && forall k :: 0 <= k < |infos| && k != i && k != j ==> r.state[k] == infos[k]
  {
    match SingleIndex(infos, first)
    case Err(f) => Outcome(infos, Some(f))
    case Ok(i) =>
      match SingleIndex(infos, second)
      case Err(f) => Outcome(infos, Some(f))
      case Ok(j) =>
        var top := Larger(infos[i].maximum, infos[j].maximum);
        Outcome(infos[i := infos[i].(maximum := top)][j := infos[j].(maximum := top)], None)
  }

  /** Every value a series holds lies strictly below its maximum: the graph of that series
      stays inside its band. */
  predicate Scaled(s: Series) {
    forall k :: 0 <= k < |s.history| ==> s.history[k] < s.maximum
  }

  /** The locked body of `Update`: `addValue` on the summary, then on the two named series,
      then — when `CounterOptions[key].SeparateScales` is off — the common scale. Each step
      can throw, keeping the writes made before it. */
  function Sample(p: Pair, counters: seq<Options.Entry>, key: string, total: real,
                  first: string, firstValue: real, second: string, secondValue: real,
                  historySize: int, format: real -> Display): (r: Outcome<Pair>)
    ensures |r.state.infos| == |p.infos|
    ensures forall i :: 0 <= i < |p.infos| ==> r.state.infos[i].name == p.infos[i].name
    ensures r.state.summary.current == total
    ensures r.state.summary.history == Push(p.summary.history, total, historySize)
    ensures r.fault.None? ==> Scaled(r.state.summary) && r.state.summary.display == format(total)
    ensures r.fault.None? ==>
      && |r.state.summary.history| > 0
      && r.state.summary.maximum == RoundHalfEven(MaxOf(r.state.summary.history)) as real + 1.0
    ensures r.fault.None? ==> Options.HasKey(counters, key)
  {
    var s := AddDynamic(p.summary, total, historySize, format(total));
    if s.fault.Some? then Outcome(Pair(s.series, p.infos), s.fault)
    else
      var a := AddNamed(p.infos, first, firstValue, historySize, format(firstValue));
      if a.fault.Some? then Outcome(Pair(s.series, a.state), a.fault)
      else
        var b := AddNamed(a.state, second, secondValue, historySize, format(secondValue));
        if b.fault.Some? then Outcome(Pair(s.series, b.state), b.fault)
        else
          match Options.Lookup(counters, key)
          case Err(f) => Outcome(Pair(s.series, b.state), Some(f))
          case Ok(o) =>
            if o.separateScales then Outcome(Pair(s.series, b.state), None)
            else
              var c := ShareScale(b.state, first, second);
              Outcome(Pair(s.series, c.state), c.fault)
  }

  /** When the update completes, each named series holds its own sample and is scaled to
      hold its history. With separate scales each named series keeps its own dynamic
      maximum; with the common scale both take the larger of the two dynamic maxima. */
  lemma SampleComplete(p: Pair, counters: seq<Options.Entry>, key: string, total: real,
                       first: string, firstValue: real, second: string, secondValue: real,
                       historySize: int, format: real -> Display)
    requires first != second
    ensures var r := Sample(p, counters, key, total, first, firstValue, second, secondValue,
                            historySize, format);
            r.fault.None? ==>
              && SingleIndex(p.infos, first).Ok? && SingleIndex(p.infos, second).Ok?
              && var i := SingleIndex(p.infos, first).value;
                 var j := SingleIndex(p.infos, second).value;
                 && Sampled(p.infos[i], r.state.infos[i], firstValue, historySize)
                 && Sampled(p.infos[j], r.state.infos[j], secondValue, historySize)
                 && (!Options.Lookup(counters, key).value.separateScales ==>
                       r.state.infos[i].maximum == r.state.infos[j].maximum)
                 && |r.state.infos[i].history| > 0 && |r.state.infos[j].history| > 0
                 && (Options.Lookup(counters, key).value.separateScales ==>
                       && r.state.infos[i].maximum == DynamicMaximum(r.state.infos[i].history)
                       && r.state.infos[j].maximum == DynamicMaximum(r.state.infos[j].history))
                 && (!Options.Lookup(counters, key).value.separateScales ==>
                       r.state.infos[i].maximum == Larger(DynamicMaximum(r.state.infos[i].history),
                                                          DynamicMaximum(r.state.infos[j].history)))
  {
    var r := Sample(p, counters, key, total, first, firstValue, second, secondValue,
                    historySize, format);
    if r.fault.None? {
      SampleSteps(p, counters, key, total, first, firstValue, second, secondValue, historySize, format);
      var b := NamedPair(p.infos, first, firstValue, second, secondValue, historySize,
                         format(firstValue), format(secondValue));
      var i := SingleIndex(p.infos, first).value;
      var j := SingleIndex(p.infos, second).value;
      if !Options.Lookup(counters, key).value.separateScales {
        var c := ShareScale(b, first, second);
        SingleIndexByNames(p.infos, b, first);
        SingleIndexByNames(p.infos, b, second);
        ScaledLarger(b[i], c.state[i]);
        ScaledLarger(b[j], c.state[j]);
      }
    }
  }

  /** `after` is `before` with the sample `v` recorded, scaled to hold its history. */
  predicate Sampled(before: Series, after: Series, v: real, historySize: int) {
    && after.current == v
    && after.history == Push(before.history, v, historySize)
    && Scaled(after)
  }

  /** Raising the maximum of a series keeps its history under it. */
  lemma ScaledLarger(s: Series, t: Series)
    requires Scaled(s) && t.history == s.history && t.maximum >= s.maximum
    ensures Scaled(t)
  {
  }

  /** Two completed named samples: each named series, found once, holds its own sample
      and is scaled to its history; the result is the second sample's state. */
  lemma NamedPair(infos: seq<Series>, first: string, firstValue: real, second: string,
                  secondValue: real, historySize: int, firstDisplay: Display, secondDisplay: Display)
    returns (b: seq<Series>)
    requires first != second
    requires AddNamed(infos, first, firstValue, historySize, firstDisplay).fault.None?
    requires AddNamed(AddNamed(infos, first, firstValue, historySize, firstDisplay).state,
                      second, secondValue, historySize, secondDisplay).fault.None?
    ensures b == AddNamed(AddNamed(infos, first, firstValue, historySize, firstDisplay).state,
                          second, secondValue, historySize, secondDisplay).state
    ensures SingleIndex(infos, first).Ok? && SingleIndex(infos, second).Ok?
    ensures |b| == |infos| && forall k :: 0 <= k < |infos| ==> b[k].name == infos[k].name
    ensures Sampled(infos[SingleIndex(infos, first).value], b[SingleIndex(infos, first).value],
                    firstValue, historySize)
    ensures Sampled(infos[SingleIndex(infos, second).value], b[SingleIndex(infos, second).value],
                    secondValue, historySize)
    ensures |b[SingleIndex(infos, first).value].history| > 0
    ensures |b[SingleIndex(infos, second).value].history| > 0
    ensures b[SingleIndex(infos, first).value].maximum
         == DynamicMaximum(b[SingleIndex(infos, first).value].history)
    ensures b[SingleIndex(infos, second).value].maximum
         == DynamicMaximum(b[SingleIndex(infos, second).value].history)
  {
    var a := AddNamed(infos, first, firstValue, historySize, firstDisplay);
    b := AddNamed(a.state, second, secondValue, historySize, secondDisplay).state;
    SingleIndexByNames(infos, a.state, first);
    SingleIndexByNames(infos, a.state, second);
    var i := SingleIndex(infos, first).value;
    assert b[i] == a.state[i];
  }

  /** The steps of a completed update: both named samples completed, the option key was
      found, and the named series end as the second sample left them or, with the common
      scale, as sharing the scale left them. */
  lemma SampleSteps(p: Pair, counters: seq<Options.Entry>, key: string, total: real,
                    first: string, firstValue: real, second: string, secondValue: real,
                    historySize: int, format: real -> Display)
    requires Sample(p, counters, key, total, first, firstValue, second, secondValue,
                    historySize, format).fault.None?
    ensures var a := AddNamed(p.infos, first, firstValue, historySize, format(firstValue));
            var b := AddNamed(a.state, second, secondValue, historySize, format(secondValue));
            var c := ShareScale(b.state, first, second);
            var r := Sample(p, counters, key, total, first, firstValue, second, secondValue,
                            historySize, format);
            && a.fault.None? && b.fault.None? && Options.Lookup(counters, key).Ok?
            && (Options.Lookup(counters, key).value.separateScales ==> r.state.infos == b.state)
            && (!Options.Lookup(counters, key).value.separateScales ==>
                  c.fault.None? && r.state.infos == c.state)
  {
  }

  /** With a positive HistorySize, samples within the 64-bit range, the two names each
      present once and the option key present, the update never throws. */
  lemma SampleSucceeds(p: Pair, counters: seq<Options.Entry>, key: string, total: real,
                       first: string, firstValue: real, second: string, secondValue: real,
                       historySize: int, format: real -> Display)
    requires historySize >= 1
    requires first != second
    requires SingleIndex(p.infos, first).Ok? && SingleIndex(p.infos, second).Ok?
    requires Options.HasKey(counters, key)
    requires InRange(p.summary)
    requires InRange(p.infos[SingleIndex(p.infos, first).value])
    requires InRange(p.infos[SingleIndex(p.infos, second).value])
    requires Within(total) && Within(firstValue) && Within(secondValue)
    ensures Sample(p, counters, key, total, first, firstValue, second, secondValue,
                   historySize, format).fault == None
  {
    AddDynamicSucceeds(p.summary, total, historySize, format(total));
    var j := SingleIndex(p.infos, second).value;
    AddNamedSucceeds(p.infos, first, firstValue, historySize, format(firstValue));
    var a := AddNamed(p.infos, first, firstValue, historySize, format(firstValue));
    SingleIndexByNames(p.infos, a.state, second);
    assert a.state[j] == p.infos[j];
    AddNamedSucceeds(a.state, second, secondValue, historySize, format(secondValue));
    var b := AddNamed(a.state, second, secondValue, historySize, format(secondValue));
    SingleIndexByNames(p.infos, b.state, first);
    SingleIndexByNames(p.infos, b.state, second);
  }

  /** Sampling a series present once, holding values in range, with a value in range and
      a positive HistorySize completes. */
  lemma AddNamedSucceeds(infos: seq<Series>, name: string, v: real, historySize: int, display: Display)
    requires historySize >= 1 && SingleIndex(infos, name).Ok? && Within(v)
    requires InRange(infos[SingleIndex(infos, name).value])
    ensures AddNamed(infos, name, v, historySize, display).fault == None
  {
    AddDynamicSucceeds(infos[SingleIndex(infos, name).value], v, historySize, display);
  }

  /** From three empty series, with a positive HistorySize, the option key present and
      samples within range, the first update completes and leaves one sample in each
      series, every series within its scale, and a common scale unless separate scales are
      asked for. */
  lemma FirstSample(counters: seq<Options.Entry>, key: string, total: real,
                    first: string, firstValue: real, second: string, secondValue: real,
                    historySize: int, format: real -> Display)
    requires historySize >= 1 && first != second && Options.HasKey(counters, key)
    requires Within(total) && Within(firstValue) && Within(secondValue)
    ensures var r := Sample(Fresh3(first, second), counters, key, total, first, firstValue,
                            second, secondValue, historySize, format);
            && r.fault == None
            && r.state.summary.history == [total]
            && r.state.infos[0].history == [firstValue] && r.state.infos[1].history == [secondValue]
            && Scaled(r.state.summary) && Scaled(r.state.infos[0]) && Scaled(r.state.infos[1])
            && (!Options.Lookup(counters, key).value.separateScales ==>
                  r.state.infos[0].maximum == r.state.infos[1].maximum)
  {
    var p := Fresh3(first, second);
    assert p.infos[0].name == first && p.infos[1].name == second;
    assert forall j :: 0 <= j < |p.infos| && p.infos[j].name == first ==> j == 0;
    assert forall j :: 0 <= j < |p.infos| && p.infos[j].name == second ==> j == 1;
    assert SingleIndex(p.infos, first) == Ok(0);
    assert SingleIndex(p.infos, second) == Ok(1);
    SampleSucceeds(p, counters, key, total, first, firstValue, second, secondValue, historySize, format);
    SampleComplete(p, counters, key, total, first, firstValue, second, secondValue, historySize, format);
  }

  /** A sample `Convert.ToInt64` can hold. */
  predicate Within(v: real) {
    MinInt64 as real <= v <= MaxInt64 as real
  }

  predicate InRange(s: Series) {
    forall k :: 0 <= k < |s.history| ==> Within(s.history[k])
  }
}
