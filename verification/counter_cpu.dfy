/** `CounterCPU`: the total processor load as the summary series and one series per logical
    core, every series scaled to a fixed maximum of 100. */
module CounterCpu {
  import opened Wrappers
  import opened Strings
  import opened CounterInfo

  const Full: real := 100.0

  /** The counter's state: the summary series, the per-core series, and the instance names
      of the per-core operating-system counters, in the order they are sampled. */
  datatype CpuState = CpuState(summary: Series, infos: seq<Series>, cores: seq<string>)

  /** The constructor: a summary scaled to 100 and no cores yet. */
  function New(): (s: CpuState)
    ensures s.summary.name == "summary" && s.summary.maximum == Full && s.summary.history == []
    ensures s.infos == [] && s.cores == []
  {
    CpuState(Fresh("summary", Full), [], [])
  }

  /** The aggregate instance the enumeration skips. */
  predicate IsTotal(name: string) {
    Contains(ToLower(name), "_total")
  }

  /** The instance names kept as cores, in their given order. */
  function Cores(items: seq<string>): (r: seq<string>)
    ensures forall x :: x in r <==> x in items && !IsTotal(x)
    decreases |items|
  {
    if |items| == 0 then []
    else if IsTotal(items[0]) then Cores(items[1..])
    else [items[0]] + Cores(items[1..])
  }

  /** Dropping the aggregate from a sorted list leaves it sorted. */
  lemma {:induction false} CoresSorted(items: seq<string>)
    requires Sorted(items)
    ensures Sorted(Cores(items))
    decreases |items|
  {
    if |items| > 0 {
      var rest := Cores(items[1..]);
      CoresSorted(items[1..]);
      forall k | 0 <= k < |rest| ensures LessEq(items[0], rest[k]) {
        assert rest[k] in rest;
        var j :| 0 <= j < |items[1..]| && items[1..][j] == rest[k];
        assert items[j + 1] == rest[k];
      }
    }
  }

  /** Dropping the aggregate from a list without repetitions leaves none. */
  lemma {:induction false} CoresDistinct(items: seq<string>)
    requires Distinct(items)
    ensures Distinct(Cores(items))
    decreases |items|
  {
    if |items| > 0 {
      CoresDistinct(items[1..]);
      assert items[0] !in items[1..];
    }
  }

  /** One fresh series per name, scaled to 100. */
  function FreshCores(names: seq<string>): (r: seq<Series>)
    ensures |r| == |names|
    ensures forall k :: 0 <= k < |names| ==> r[k] == Fresh(names[k], Full)
  {
    seq(|names|, k requires 0 <= k < |names| => Fresh(names[k], Full))
  }

  /** `Initialize`: nothing already present is removed, and as many series as core names
      are appended. */
  function Initialize(s: CpuState, instances: seq<string>): (r: CpuState)
    ensures r.summary == s.summary
    ensures |r.infos| - |s.infos| == |r.cores| - |s.cores| >= 0
    ensures r.infos[..|s.infos|] == s.infos && r.cores[..|s.cores|] == s.cores
  {
    var added := Cores(Sort(instances));
    CpuState(s.summary, s.infos + FreshCores(added), s.cores + added)
  }

  /** What `Initialize` appends: the instance names in order, without the aggregate, each
      as a new series scaled to 100 and a new sampled core; distinct instances give
      distinct cores. */
  lemma InitializeAppends(s: CpuState, instances: seq<string>)
    ensures var r := Initialize(s, instances);
      && Sorted(r.cores[|s.cores|..])
      && (forall x :: x in r.cores[|s.cores|..] <==> x in instances && !IsTotal(x))
      && (forall k :: |s.infos| <= k < |r.infos| ==>
            r.infos[k] == Fresh(r.cores[k - |s.infos| + |s.cores|], Full))
      && (Distinct(instances) ==> Distinct(r.cores[|s.cores|..]))
  {
    var r := Initialize(s, instances);
    var added := Cores(Sort(instances));
    assert r.cores[|s.cores|..] == added;
    SortMembers(instances);
    SortSorted(instances);
    CoresSorted(Sort(instances));
    if Distinct(instances) {
      SortDistinct(instances);
      CoresDistinct(Sort(instances));
    }
  }

  /** The series named after a core takes the core's sample and the summary's text. */
  function SetCore(info: Series, sample: real, display: Display, historySize: int): (r: Series)
    ensures r.name == info.name && r.maximum == info.maximum && r.current == sample
    ensures r.display == display && r.history == Push(info.history, sample, historySize)
  {
    Record(info, sample, historySize).(display := display)
  }

  /** The `foreach` over the core counters: each sample goes to the only series named after
      its core; `Single()` throws when there is not exactly one, leaving the cores already
      visited updated. */
  function UpdateCores(infos: seq<Series>, cores: seq<string>, samples: seq<real>,
                       display: Display, historySize: int): (r: Outcome<seq<Series>>)
    requires |samples| == |cores|
    ensures |r.state| == |infos|
    ensures forall i :: 0 <= i < |infos| ==>
      r.state[i].name == infos[i].name && r.state[i].maximum == infos[i].maximum
    ensures r.fault.None? || r.fault == Some(InvalidOperation)
    decreases |cores|
  {
    if |cores| == 0 then Outcome(infos, None)
    else
      match SingleIndex(infos, cores[0])
      case Err(f) => Outcome(infos, Some(f))
      case Ok(i) =>
        UpdateCores(infos[i := SetCore(infos[i], samples[0], display, historySize)],
                    cores[1..], samples[1..], display, historySize)
  }

  /** `Update`: the total load goes to the summary, printed as a whole percentage, then each
      core's sample to its series with the summary's text. The summary is written before
      any core lookup can throw. */
  function Update(s: CpuState, historySize: int, total: real, samples: seq<real>): (r: Outcome<CpuState>)
    requires |samples| == |s.cores|
    ensures r.state.summary.current == total
    ensures r.state.summary.history == Push(s.summary.history, total, historySize)
    ensures r.state.summary.display == Reading(total, Percent)
    ensures r.state.summary.maximum == s.summary.maximum
    ensures r.state.cores == s.cores && |r.state.infos| == |s.infos|
    ensures forall i :: 0 <= i < |s.infos| ==>
      r.state.infos[i].name == s.infos[i].name && r.state.infos[i].maximum == s.infos[i].maximum
    ensures r.fault.None? || r.fault == Some(InvalidOperation)
  {
    var summary := Record(s.summary, total, historySize).(display := Reading(total, Percent));
    var cores := UpdateCores(s.infos, s.cores, samples, summary.display, historySize);
    Outcome(CpuState(summary, cores.state, s.cores), cores.fault)
  }

  function Names(infos: seq<Series>): (r: seq<string>)
    ensures |r| == |infos| && forall i :: 0 <= i < |infos| ==> r[i] == infos[i].name
  {
    seq(|infos|, i requires 0 <= i < |infos| => infos[i].name)
  }

  /** When every core has exactly one series and no core is sampled twice, each series
      named after a core takes that core's sample, the others are untouched, and nothing
      throws. */
  lemma {:induction false} UpdateCoresComplete(infos: seq<Series>, cores: seq<string>, samples: seq<real>,
                                               display: Display, historySize: int)
    requires |samples| == |cores|
    requires Distinct(Names(infos)) && Distinct(cores)
    requires forall k :: 0 <= k < |cores| ==> cores[k] in Names(infos)
    ensures UpdateCores(infos, cores, samples, display, historySize).fault == None
    ensures forall i, k :: 0 <= i < |infos| && 0 <= k < |cores| && infos[i].name == cores[k] ==>
      UpdateCores(infos, cores, samples, display, historySize).state[i]
        == SetCore(infos[i], samples[k], display, historySize)
    ensures forall i :: 0 <= i < |infos| && infos[i].name !in cores ==>
      UpdateCores(infos, cores, samples, display, historySize).state[i] == infos[i]
    decreases |cores|
  {
    if |cores| > 0 {
      var r := UpdateCores(infos, cores, samples, display, historySize);
      var at :| 0 <= at < |infos| && Names(infos)[at] == cores[0];
      assert forall j :: 0 <= j < |infos| && infos[j].name == cores[0] ==> j == at;
      var single := SingleIndex(infos, cores[0]);
      assert single == Ok(at);
      var next := infos[at := SetCore(infos[at], samples[0], display, historySize)];
      assert Names(next) == Names(infos);
      assert forall k :: 0 <= k < |cores| - 1 ==> cores[1..][k] == cores[k + 1];
      UpdateCoresComplete(next, cores[1..], samples[1..], display, historySize);
      assert r == UpdateCores(next, cores[1..], samples[1..], display, historySize);
      assert cores[0] !in cores[1..];
      forall i, k | 0 <= i < |infos| && 0 <= k < |cores| && infos[i].name == cores[k]
        ensures r.state[i] == SetCore(infos[i], samples[k], display, historySize)
      {
        if k == 0 {
          assert i == at;
        } else {
          assert i != at;
          assert next[i].name == cores[1..][k - 1];
        }
      }
      forall i | 0 <= i < |infos| && infos[i].name !in cores
        ensures r.state[i] == infos[i]
      {
        assert i != at;
        assert next[i].name !in cores[1..];
      }
    }
  }

  /** A fresh counter's series are named after its cores, one each. */
  lemma FreshNames(instances: seq<string>)
    ensures var s := Initialize(New(), instances);
      && Names(s.infos) == s.cores
      && (Distinct(instances) ==> Distinct(s.cores))
  {
    var s := Initialize(New(), instances);
    InitializeAppends(New(), instances);
    assert s.cores == s.cores[0..];
  }

  /** On a fresh counter initialised from distinct instance names, every update reaches
      every core: each core series takes its own sample and the summary's text. */
  lemma UpdateAfterInitialize(instances: seq<string>, historySize: int, total: real, samples: seq<real>)
    requires Distinct(instances)
    requires |samples| == |Initialize(New(), instances).cores|
    ensures var s := Initialize(New(), instances);
            var r := Update(s, historySize, total, samples);
            && r.fault == None
            && forall k :: 0 <= k < |s.infos| ==>
                 r.state.infos[k] == SetCore(s.infos[k], samples[k], Reading(total, Percent), historySize)
  {
    var s := Initialize(New(), instances);
    var display := Reading(total, Percent);
    FreshNames(instances);
    var u := UpdateCores(s.infos, s.cores, samples, display, historySize);
    UpdateCoresComplete(s.infos, s.cores, samples, display, historySize);
    var r := Update(s, historySize, total, samples);
    assert r.state.infos == u.state && r.fault == u.fault;
    forall k | 0 <= k < |s.infos|
      ensures r.state.infos[k] == SetCore(s.infos[k], samples[k], display, historySize)
    {
      assert Names(s.infos)[k] == s.cores[k];
    }
  }

  /** Initialising twice lists every core twice, so the first update finds two series for
      the first core and throws — after the summary has taken the total. */
  lemma InitializeTwiceBreaksUpdate(instances: seq<string>, historySize: int, total: real, samples: seq<real>)
    requires |Cores(Sort(instances))| > 0
    requires |samples| == |Initialize(Initialize(New(), instances), instances).cores|
    ensures var s := Initialize(Initialize(New(), instances), instances);
            var r := Update(s, historySize, total, samples);
            && r.fault == Some(InvalidOperation)
            && r.state.summary.history == Push(s.summary.history, total, historySize)
  {
    var once := Initialize(New(), instances);
    var s := Initialize(once, instances);
    var added := Cores(Sort(instances));
    var n := |added|;
    assert s.cores == added + added;
    assert s.infos[0].name == added[0] && s.infos[n].name == added[0];
    assert SingleIndex(s.infos, s.cores[0]).Err?;
  }
}
