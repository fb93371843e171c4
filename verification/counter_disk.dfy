/** `CounterDisk`: bytes read and written per second over all physical disks, as the summary
    (their sum) and the series "R" and "W". */
module CounterDisk {
  import opened Wrappers
  import opened Numeric
  import opened CounterInfo
  import opened DualSeries
  import Options

  /** `(v / 1024 / 1024).ToString("0.0") + "MB/s"`. */
  function DiskFormat(v: real): (d: Display)
    ensures d.Reading? && d.unit == MegabytesPerSecond && d.amount * 1048576.0 == v
  {
    Reading(v / 1024.0 / 1024.0, MegabytesPerSecond)
  }

  /** `Initialize`: empty summary, "R" and "W", each with a maximum of 1. */
  function Initialize(): (p: Pair)
    ensures p.summary.name == "summary" && p.summary.history == [] && p.summary.maximum == 1.0
    ensures |p.infos| == 2 && p.infos[0].name == "R" && p.infos[1].name == "W"
    ensures p.infos[0].history == [] && p.infos[1].history == []
  {
    Fresh3("R", "W")
  }

  /** `Update`: the sum of both rates to the summary, the read rate to "R", the write rate
      to "W", then the common scale unless the "DISK" options ask for separate scales. */
  function Update(p: Pair, counters: seq<Options.Entry>, historySize: int, read: real, write: real)
    : (r: Outcome<Pair>)
    ensures r.state.summary.current == read + write
    ensures r.state.summary.history == Push(p.summary.history, read + write, historySize)
    ensures |r.state.infos| == |p.infos|
    ensures r.fault.None? ==> Options.HasKey(counters, "DISK") && Scaled(r.state.summary)
    ensures r.fault.None? ==>
      && |r.state.summary.history| > 0
      && r.state.summary.maximum == RoundHalfEven(MaxOf(r.state.summary.history)) as real + 1.0
  {
    Sample(p, counters, "DISK", read + write, "R", read, "W", write, historySize, DiskFormat)
  }

  /** From the initialised state, with a positive HistorySize and the "DISK" options
      present, the first update completes: "R" takes the read rate, "W" the write rate,
      both stay within their scale, and they share it unless separate scales are asked for. */
  lemma FirstUpdate(counters: seq<Options.Entry>, historySize: int, read: real, write: real)
    requires historySize >= 1 && Options.HasKey(counters, "DISK")
    requires Within(read) && Within(write) && Within(read + write)
    ensures var r := Update(Initialize(), counters, historySize, read, write);
            && r.fault == None
            && r.state.infos[0].history == [read] && r.state.infos[1].history == [write]
            && Scaled(r.state.infos[0]) && Scaled(r.state.infos[1])
            && (!Options.Lookup(counters, "DISK").value.separateScales ==>
                  r.state.infos[0].maximum == r.state.infos[1].maximum)
  {
    FirstSample(counters, "DISK", read + write, "R", read, "W", write, historySize, DiskFormat);
  }
}
