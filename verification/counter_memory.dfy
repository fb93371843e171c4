/** `CounterMemory`: used physical memory in megabytes, as the summary series and a single
    series "U", both scaled to the installed memory. */
module CounterMemory {
  import opened Wrappers
  import opened CounterInfo

  /** The state after `Initialize`; `installedKb` is what
      `GetPhysicallyInstalledSystemMemory` reported, in kilobytes. */
  datatype MemState = MemState(summary: Series, infos: seq<Series>, installedKb: nat)

  /** The installed memory in megabytes: the 64-bit division `totalMemory / 1024`. */
  function InstalledMb(installedKb: nat): (mb: nat)
    ensures mb * 1024 <= installedKb < mb * 1024 + 1024
  {
    installedKb / 1024
  }

  /** `Initialize`: a fresh summary and a fresh "U" series, both scaled to the installed
      memory in megabytes; anything earlier is replaced. */
  function Initialize(installedKb: nat): (s: MemState)
    ensures s.summary == Fresh("summary", InstalledMb(installedKb) as real)
    ensures s.infos == [Fresh("U", InstalledMb(installedKb) as real)]
    ensures s.installedKb == installedKb
  {
    var top := InstalledMb(installedKb) as real;
    MemState(Fresh("summary", top), [Fresh("U", top)], installedKb)
  }

  /** The used memory in megabytes, given the available megabytes. */
  function Used(installedKb: nat, availableMb: real): (v: real)
    ensures v + availableMb == InstalledMb(installedKb) as real
  {
    InstalledMb(installedKb) as real - availableMb
  }

  /** `Update`: the used memory goes to the summary and then to the only series "U", each
      printed in gigabytes; the maxima stay at the installed memory. */
  function Update(s: MemState, historySize: int, availableMb: real): (r: Outcome<MemState>)
    ensures r.state.installedKb == s.installedKb
    ensures var v := Used(s.installedKb, availableMb);
            && r.state.summary.current == v
            && r.state.summary.history == Push(s.summary.history, v, historySize)
            && r.state.summary.display == Reading(v / 1024.0, Gigabytes)
            && r.state.summary.maximum == s.summary.maximum
    ensures |r.state.infos| == |s.infos|
    ensures r.fault.None? <==> SingleIndex(s.infos, "U").Ok?
    ensures r.fault.Some? ==> r.fault == Some(InvalidOperation) && r.state.infos == s.infos
  {
    var v := Used(s.installedKb, availableMb);
    var display := Reading(v / 1024.0, Gigabytes);
    var summary := Record(s.summary, v, historySize).(display := display);
    match SingleIndex(s.infos, "U")
    case Err(f) => Outcome(s.(summary := summary), Some(f))
    case Ok(i) =>
      Outcome(MemState(summary, s.infos[i := Record(s.infos[i], v, historySize).(display := display)],
                       s.installedKb), None)
  }

  /** After `Initialize`, every update succeeds and the summary and "U" carry the same
      value, history and text: memory draws one line. */
  lemma {:induction false} UpdateKeepsSeriesAligned(s: MemState, historySize: int, availableMb: real)
    requires |s.infos| == 1 && s.infos[0].name == "U"
    requires s.infos[0].history == s.summary.history
    ensures var r := Update(s, historySize, availableMb);
            && r.fault == None && |r.state.infos| == 1 && r.state.infos[0].name == "U"
            && r.state.infos[0].history == r.state.summary.history
            && r.state.infos[0].current == r.state.summary.current
            && r.state.infos[0].display == r.state.summary.display
            && r.state.infos[0].maximum == s.infos[0].maximum
  {
    assert SingleIndex(s.infos, "U") == Ok(0);
  }

  /** The state right after `Initialize` satisfies the alignment the update preserves. */
  lemma InitializeAligned(installedKb: nat)
    ensures var s := Initialize(installedKb);
            |s.infos| == 1 && s.infos[0].name == "U" && s.infos[0].history == s.summary.history
  {
  }
}
