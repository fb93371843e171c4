/** One metric series (`CounterInfo`): name, scaling maximum, current value, display text
    and bounded history, with the append-and-evict step and the dynamic maximum that every
    counter variant shares. */
module CounterInfo {
  import opened Wrappers
  import opened Numeric

  /** The unit a display text ends in. */
  datatype Unit = Percent | Gigabytes | MegabytesPerSecond | KilobytesPerSecond

  /** `CurrentStringValue`, as the number it prints and its unit: a percentage prints
      `ToString("0")` (whole number), the other units `ToString("0.0")` (one decimal).
      `NoText` is the null string of a series nothing has been written to yet. */
  datatype Display = NoText | Reading(amount: real, unit: Unit)

  datatype Series = Series(
    name: string,
    maximum: real,
    current: real,
    display: Display,
    history: seq<real>)

  /** `new CounterInfo() { Name = name, History = new List<float>(), MaximumValue = max }`. */
  function Fresh(name: string, maximum: real): (s: Series)
    ensures s.name == name && s.maximum == maximum && s.history == [] && s.display == NoText
  {
    Series(name, maximum, 0.0, NoText, [])
  }

  /** `History.Add(v); if (History.Count > HistorySize) History.RemoveAt(0);` — append one
      sample and drop at most the single oldest one. */
  function Push(h: seq<real>, v: real, historySize: int): (r: seq<real>)
    ensures |h| + 1 > historySize ==> |r| == |h|
    ensures |h| + 1 > historySize && |h| > 0 ==> r == h[1..] + [v]
    ensures |h| + 1 <= historySize ==> r == h + [v]
    ensures |h| <= historySize ==> |r| <= historySize
  {
    var added := h + [v];
    if |added| > historySize then added[1..] else added
  }

  /** The newest `n` elements of `s` (all of them when there are fewer). */
  function Newest(s: seq<real>, n: nat): (r: seq<real>)
    ensures |r| == if |s| < n then |s| else n
  {
    if |s| <= n then s else s[|s| - n..]
  }

  lemma NewestOfNewest(a: seq<real>, b: seq<real>, n: nat)
    ensures Newest(Newest(a, n) + b, n) == Newest(a + b, n)
  {
    if |a| > n {
      var k := |a| - n;
      assert a + b == a[..k] + (a[k..] + b);
      assert (a + b)[k..] == a[k..] + b;
    }
  }

  /** Feeding samples one `Push` at a time. */
  function Feed(h: seq<real>, samples: seq<real>, historySize: int): seq<real>
    decreases |samples|
  {
    if |samples| == 0 then h else Feed(Push(h, samples[0], historySize), samples[1..], historySize)
  }

  /** FIFO: as long as the history starts within the bound, any run of updates leaves
      exactly the newest `HistorySize` values, oldest first. */
  lemma {:induction false} FeedKeepsNewest(h: seq<real>, samples: seq<real>, historySize: nat)
    requires |h| <= historySize
    ensures Feed(h, samples, historySize) == Newest(h + samples, historySize)
    decreases |samples|
  {
    if |samples| == 0 {
      assert h + samples == h;
    } else {
      var next := Push(h, samples[0], historySize);
      assert next == Newest(h + [samples[0]], historySize);
      FeedKeepsNewest(next, samples[1..], historySize);
      NewestOfNewest(h + [samples[0]], samples[1..], historySize);
      assert h + [samples[0]] + samples[1..] == h + samples;
    }
  }

  /** The largest value of a non-empty history (`History.Max()`). */
  function MaxOf(s: seq<real>): (m: real)
    requires |s| > 0
    ensures m in s
    ensures forall i :: 0 <= i < |s| ==> s[i] <= m
  {
    if |s| == 1 then s[0]
    else
      var rest := MaxOf(s[1..]);
      assert forall i :: 1 <= i < |s| ==> s[i] == s[1..][i - 1];
      if s[0] >= rest then s[0] else rest
  }

  /** `Convert.ToInt64(History.Max()) + 1`: one more than the integer nearest the largest
      value, a tie going to the even integer. Hence strictly above every value in the
      history and at most one and a half above the largest. */
  function DynamicMaximum(h: seq<real>): (m: real)
    requires |h| > 0
    ensures (m - 1.0).Floor as real == m - 1.0
    ensures m - 1.5 <= MaxOf(h) <= m - 0.5
    ensures MaxOf(h) == m - 0.5 || MaxOf(h) == m - 1.5 ==> (m - 1.0).Floor % 2 == 0
    ensures forall i :: 0 <= i < |h| ==> h[i] < m
    ensures m <= MaxOf(h) + 1.5
  {
    var top := MaxOf(h);
    var k := RoundHalfEven(top);
    assert top < k as real + 1.0;
    k as real + 1.0
  }

  /** The write shared by every variant's update: the new current value and the pushed
      history. */
  function Record(s: Series, v: real, historySize: int): (r: Series)
    ensures r.name == s.name && r.maximum == s.maximum && r.display == s.display
    ensures r.current == v && r.history == Push(s.history, v, historySize)
  {
    s.(current := v, history := Push(s.history, v, historySize))
  }

  /** The result of the local `addValue` of the disk and network counters: the updated
      series and the exception `History.Max()` or `Convert.ToInt64` threw, if any. When one
      throws, the value and history have already been written, and the maximum and display
      text have not. */
  datatype Added = Added(series: Series, fault: Option<Fault>)

  /** `addValue(info, value)` with the display text the variant formats. */
  function AddDynamic(s: Series, v: real, historySize: int, display: Display): (r: Added)
    ensures r.series.name == s.name && r.series.current == v
    ensures r.series.history == Push(s.history, v, historySize)
    ensures r.fault == Some(InvalidOperation) <==> |r.series.history| == 0
    ensures r.fault == Some(Overflow) <==>
      |r.series.history| > 0 && !(MinInt64 <= RoundHalfEven(MaxOf(r.series.history)) <= MaxInt64)
    ensures r.fault.Some? ==> r.series.maximum == s.maximum && r.series.display == s.display
    ensures r.fault.None? ==> r.series.display == display
    ensures r.fault.None? ==>
      |r.series.history| > 0 && r.series.maximum == RoundHalfEven(MaxOf(r.series.history)) as real + 1.0
    ensures r.fault.None? ==>
      forall i :: 0 <= i < |r.series.history| ==> r.series.history[i] < r.series.maximum
  {
    var recorded := Record(s, v, historySize);
    if |recorded.history| == 0 then Added(recorded, Some(InvalidOperation))
    else if ToInt64(MaxOf(recorded.history)).Err? then Added(recorded, Some(Overflow))
    else Added(recorded.(maximum := DynamicMaximum(recorded.history), display := display), None)
  }

  /** With a positive HistorySize and a sample within the 64-bit range the history is never
      empty after an append and its largest value converts, so `addValue` completes. */
  lemma AddDynamicSucceeds(s: Series, v: real, historySize: int, display: Display)
    requires historySize >= 1
    requires forall i :: 0 <= i < |s.history| ==> MinInt64 as real <= s.history[i] <= MaxInt64 as real
    requires MinInt64 as real <= v <= MaxInt64 as real
    ensures AddDynamic(s, v, historySize, display).fault == None
  {
    var h := Push(s.history, v, historySize);
    assert forall i :: 0 <= i < |h| ==> MinInt64 as real <= h[i] <= MaxInt64 as real;
    var m := MaxOf(h);
    RoundHalfEvenBetween(MinInt64, MaxInt64, m);
  }

  /** The indices, from `from` on, of the series called `name`, in increasing order. */
  function MatchesFrom(infos: seq<Series>, name: string, from: nat): (m: seq<nat>)
    requires from <= |infos|
    ensures forall j :: from <= j < |infos| ==> (infos[j].name == name <==> j in m)
    ensures forall k :: 0 <= k < |m| ==> from <= m[k] < |infos|
    ensures forall k, l :: 0 <= k < l < |m| ==> m[k] < m[l]
    decreases |infos| - from
  {
    if from == |infos| then []
    else
      var rest := MatchesFrom(infos, name, from + 1);
      if infos[from].name == name then [from] + rest else rest
  }

  /** `Infos.Where(x => x.Name == name).Single()`: the index of the only series with that
      name, and `InvalidOperationException` when there is none or more than one. */
  function SingleIndex(infos: seq<Series>, name: string): (r: Result<nat>)
    ensures r.Ok? ==> r.value < |infos| && infos[r.value].name == name
    ensures r.Ok? <==> exists i :: 0 <= i < |infos| && infos[i].name == name &&
                                   forall j :: 0 <= j < |infos| && infos[j].name == name ==> j == i
    ensures r.Err? ==> r.fault == InvalidOperation
  {
    var m := MatchesFrom(infos, name, 0);
    if |m| == 1 then
      assert forall j :: 0 <= j < |infos| && infos[j].name == name ==> j == m[0];
      Ok(m[0])
    else
      assert |m| >= 2 ==> infos[m[0]].name == name && infos[m[1]].name == name && m[0] != m[1];
      Err(InvalidOperation)
  }

  /** `Single()` looks only at names: two lists with the same names find the same index. */
  lemma SingleIndexByNames(a: seq<Series>, b: seq<Series>, name: string)
    requires |a| == |b| && forall i :: 0 <= i < |a| ==> a[i].name == b[i].name
    ensures SingleIndex(a, name) == SingleIndex(b, name)
  {
    var ra := SingleIndex(a, name);
    var rb := SingleIndex(b, name);
    if ra.Ok? && rb.Ok? {
      assert b[ra.value].name == name;
    }
  }

  /** The scenario: HistorySize 3, samples 10, 20, 30, 40 into a dynamically scaled series
      leave the history 20, 30, 40 and the maximum 41. */
  lemma ScenarioFourSamples()
    ensures Feed([], [10.0, 20.0, 30.0, 40.0], 3) == [20.0, 30.0, 40.0]
    ensures DynamicMaximum([20.0, 30.0, 40.0]) == 41.0
  {
    FeedKeepsNewest([], [10.0, 20.0, 30.0, 40.0], 3);
    assert [] + [10.0, 20.0, 30.0, 40.0] == [10.0, 20.0, 30.0, 40.0];
    var m := MaxOf([20.0, 30.0, 40.0]);
    assert m == 40.0;
    RoundHalfEvenUnique(40.0, 40);
  }
}
