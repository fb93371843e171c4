/** `BaseCounter` and its four variants as one sum type: the name each reports, the layout
    it asks for, its series, and the update each performs on one polling tick. */
module Counters {
  import opened Wrappers
  import opened CounterInfo
  import opened Options
  import CounterCpu
  import CounterMemory
  import CounterDisk
  import CounterNetwork
  import DualSeries

  datatype Counter =
    | Cpu(cpu: CounterCpu.CpuState)
    | Memory(mem: CounterMemory.MemState)
    | Disk(disk: DualSeries.Pair)
    | Network(net: CounterNetwork.NetState)

  /** `GetName()`: the key of the counter's entry in `Options.CounterOptions`. */
  function Name(c: Counter): (n: string)
    ensures n in ["CPU", "MEM", "DISK", "NET"]
    ensures c.Cpu? <==> n == "CPU"
    ensures c.Memory? <==> n == "MEM"
    ensures c.Disk? <==> n == "DISK"
  {
    match c
    case Cpu(_) => "CPU"
    case Memory(_) => "MEM"
    case Disk(_) => "DISK"
    case Network(_) => "NET"
  }

  /** `InfoSummary`. */
  function Summary(c: Counter): Series {
    match c
    case Cpu(s) => s.summary
    case Memory(s) => s.summary
    case Disk(p) => p.summary
    case Network(s) => s.pair.summary
  }

  /** `Infos`. */
  function Infos(c: Counter): seq<Series> {
    match c
    case Cpu(s) => s.infos
    case Memory(s) => s.infos
    case Disk(p) => p.infos
    case Network(s) => s.pair.infos
  }

  /** `GetCounterType()`: memory always draws a single graph; the others read the layout
      from their own options entry, which throws when the entry is missing. */
  function GraphType(c: Counter, counters: seq<Entry>): (r: Result<CounterType>)
    ensures c.Memory? ==> r == Ok(Single)
    ensures !c.Memory? ==> (r.Ok? <==> HasKey(counters, Name(c)))
    ensures !c.Memory? && r.Ok? ==>
      exists i :: 0 <= i < |counters| && counters[i].key == Name(c) && counters[i].options.graphType == r.value
    ensures r.Err? ==> r.fault == KeyNotFound
  {
    if c.Memory? then Ok(Single)
    else
      var o :- Lookup(counters, Name(c));
      Ok(o.graphType)
  }

  /** What the operating system reports during one polling tick. */
  datatype Readings = Readings(
    cpuTotal: real,
    cpuCore: nat -> real,          // the sample of the core counter at a position
    availableMb: real,
    diskRead: real,
    diskWrite: real,
    netProbe: CounterNetwork.Probe,
    netDiscover: nat -> seq<string>)

  /** `Update()` of whichever variant the counter is. */
  function Update(c: Counter, o: Options, env: Readings): (r: Outcome<Counter>)
    ensures Name(r.state) == Name(c)
    ensures |Infos(r.state)| == |Infos(c)|
    ensures c.Network? ==> r.fault == None
  {
    match c
    case Cpu(s) =>
      var samples := seq(|s.cores|, k requires 0 <= k < |s.cores| => env.cpuCore(k));
      var u := CounterCpu.Update(s, o.historySize, env.cpuTotal, samples);
      Outcome(Cpu(u.state), u.fault)
    case Memory(s) =>
      var u := CounterMemory.Update(s, o.historySize, env.availableMb);
      Outcome(Memory(u.state), u.fault)
    case Disk(p) =>
      var u := CounterDisk.Update(p, o.counters, o.historySize, env.diskRead, env.diskWrite);
      Outcome(Disk(u.state), u.fault)
    case Network(s) =>
      Outcome(Network(CounterNetwork.Update(s, o.counters, o.historySize, env.netProbe, env.netDiscover)), None)
  }
}
