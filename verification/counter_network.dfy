/** `CounterNetwork`: bytes sent and received per second over all network interfaces, as
    the summary (their sum) and the series "D" (received) and "U" (sent), with one retry
    after re-reading the interface list when sampling fails. */
module CounterNetwork {
  import opened Wrappers
  import opened CounterInfo
  import opened DualSeries
  import Options

  datatype Direction = Sent | Received

  /** The series, and the interface instance names of the "Bytes Sent/sec" and
      "Bytes Received/sec" counters in sampling order. */
  datatype NetState = NetState(pair: Pair, sent: seq<string>, received: seq<string>)

  /** The operating system's answer to `NextValue()` on the counter at a position of the
      sent or received list, during the first (0) or second (1) attempt of an update; `None`
      when the counter throws, as it does once its interface has gone away. */
  type Probe = (nat, Direction, nat) -> Option<real>

  /** The constructor: empty summary, "D" and "U", each with a maximum of 1, no counters. */
  function New(): (s: NetState)
    ensures s.pair == Fresh3("D", "U") && s.sent == [] && s.received == []
  {
    NetState(Fresh3("D", "U"), [], [])
  }

  /** `ReadCounters`: one sent and one received counter per instance, appended to what is
      already there; nothing is ever removed. */
  function ReadCounters(s: NetState, instances: seq<string>): (r: NetState)
    ensures r.pair == s.pair
    ensures |r.sent| == |s.sent| + |instances| && |r.received| == |s.received| + |instances|
    ensures r.sent[..|s.sent|] == s.sent && r.received[..|s.received|] == s.received
    ensures r.sent[|s.sent|..] == instances && r.received[|s.received|..] == instances
  {
    assert (s.sent + instances)[..|s.sent|] == s.sent;
    assert (s.received + instances)[..|s.received|] == s.received;
    NetState(s.pair, s.sent + instances, s.received + instances)
  }

  /** `Initialize` is `ReadCounters` on the constructed state. */
  function Initialize(instances: seq<string>): (s: NetState)
    ensures s.pair == Fresh3("D", "U") && s.sent == instances && s.received == instances
  {
    ReadCounters(New(), instances)
  }

  /** The `foreach` summing `NextValue()` over the first `n` counters of one list; any
      counter that throws ends the attempt. */
  function SumProbe(probe: Probe, attempt: nat, dir: Direction, n: nat): (r: Option<real>)
    ensures r.None? <==> exists k :: 0 <= k < n && probe(attempt, dir, k).None?
    decreases n
  {
    if n == 0 then Some(0.0)
    else
      match SumProbe(probe, attempt, dir, n - 1)
      case None => None
      case Some(partial) =>
        match probe(attempt, dir, n - 1)
        case None => None
        case Some(v) => Some(partial + v)
  }

  /** `(v / 1024 / 1024).ToString("0.0") + "MB/s"` above one mebibyte per second,
      `(v / 1024).ToString("0.0") + "KB/s"` otherwise. */
  function NetFormat(v: real): (d: Display)
    ensures v > 1048576.0 ==> d == Reading(v / 1048576.0, MegabytesPerSecond)
    ensures v <= 1048576.0 ==> d == Reading(v / 1024.0, KilobytesPerSecond)
  {
    if v > 1024.0 * 1024.0 then Reading(v / 1024.0 / 1024.0, MegabytesPerSecond)
    else Reading(v / 1024.0, KilobytesPerSecond)
  }

  /** One pass of the `try` block: sum both lists, then the locked update. */
  function Attempt(s: NetState, counters: seq<Options.Entry>, historySize: int, probe: Probe,
                   attempt: nat): (r: Outcome<NetState>)
    ensures r.state.sent == s.sent && r.state.received == s.received
    ensures |r.state.pair.infos| == |s.pair.infos|
    ensures forall i :: 0 <= i < |s.pair.infos| ==> r.state.pair.infos[i].name == s.pair.infos[i].name
    ensures (exists k :: 0 <= k < |s.sent| && probe(attempt, Sent, k).None?) ==>
      r == Outcome(s, Some(SamplingFailed))
    ensures (exists k :: 0 <= k < |s.received| && probe(attempt, Received, k).None?) ==>
      r == Outcome(s, Some(SamplingFailed))
  {
    match SumProbe(probe, attempt, Sent, |s.sent|)
    case None => Outcome(s, Some(SamplingFailed))
    case Some(sent) =>
      match SumProbe(probe, attempt, Received, |s.received|)
      case None => Outcome(s, Some(SamplingFailed))
      case Some(received) =>
        var r := Sample(s.pair, counters, "NET", sent + received, "D", received, "U", sent,
                        historySize, NetFormat);
        Outcome(s.(pair := r.state), r.fault)
  }

  /** `Update`: at most two attempts (`maxRetries` is 1); after each failed one the
      interface list is read again (`discover(attempt)`) and appended, and the second
      attempt starts from whatever the first one wrote. Every exception of the attempt is
      caught, so nothing escapes. */
  function Update(s: NetState, counters: seq<Options.Entry>, historySize: int, probe: Probe,
                  discover: nat -> seq<string>): (r: NetState)
    ensures |r.pair.infos| == |s.pair.infos|
    ensures forall i :: 0 <= i < |s.pair.infos| ==> r.pair.infos[i].name == s.pair.infos[i].name
    ensures |r.sent| >= |s.sent| && |r.received| >= |s.received|
    ensures r.sent[..|s.sent|] == s.sent && r.received[..|s.received|] == s.received
    ensures Attempt(s, counters, historySize, probe, 0).fault.None? ==>
      r == Attempt(s, counters, historySize, probe, 0).state
    ensures var first := Attempt(s, counters, historySize, probe, 0);
            var second := Attempt(ReadCounters(first.state, discover(0)), counters, historySize, probe, 1);
            first.fault.Some? ==>
              && (second.fault.None? ==> r == second.state)
              && (second.fault.Some? ==> r == ReadCounters(second.state, discover(1)))
  {
    var first := Attempt(s, counters, historySize, probe, 0);
    if first.fault.None? then first.state
    else
      var retry := ReadCounters(first.state, discover(0));
      var second := Attempt(retry, counters, historySize, probe, 1);
      if second.fault.None? then second.state
      else
        var last := ReadCounters(second.state, discover(1));
        assert last.sent[..|s.sent|] == s.sent by {
          assert retry.sent[..|s.sent|] == s.sent;
        }
        assert last.received[..|s.received|] == s.received by {
          assert retry.received[..|s.received|] == s.received;
        }
        last
  }

  /** A first attempt whose sampling fails changes no series, so a retry whose sampling
      succeeds records the second attempt's sums on the original series, with the lists
      grown by one re-read; should that locked update throw, they grow by a second one. */
  lemma RetryRecovers(s: NetState, counters: seq<Options.Entry>, historySize: int, probe: Probe,
                      discover: nat -> seq<string>, sent: real, received: real)
    requires SumProbe(probe, 0, Sent, |s.sent|).None? || SumProbe(probe, 0, Received, |s.received|).None?
    requires SumProbe(probe, 1, Sent, |s.sent| + |discover(0)|) == Some(sent)
    requires SumProbe(probe, 1, Received, |s.received| + |discover(0)|) == Some(received)
    ensures var r := Update(s, counters, historySize, probe, discover);
            var sample := Sample(s.pair, counters, "NET", sent + received, "D", received, "U", sent,
                                 historySize, NetFormat);
            && r.pair == sample.state
            && (sample.fault.None? ==>
                  r.sent == s.sent + discover(0) && r.received == s.received + discover(0))
            && (sample.fault.Some? ==>
                  && r.sent == s.sent + discover(0) + discover(1)
                  && r.received == s.received + discover(0) + discover(1))
  {
    var first := Attempt(s, counters, historySize, probe, 0);
    assert first == Outcome(s, Some(SamplingFailed));
    var retry := ReadCounters(s, discover(0));
    AttemptSamples(retry, counters, historySize, probe, 1, sent, received);
  }

  /** An attempt whose counters all answer is the locked update on the two sums. */
  lemma AttemptSamples(s: NetState, counters: seq<Options.Entry>, historySize: int, probe: Probe,
                       attempt: nat, sent: real, received: real)
    requires SumProbe(probe, attempt, Sent, |s.sent|) == Some(sent)
    requires SumProbe(probe, attempt, Received, |s.received|) == Some(received)
    ensures var sample := Sample(s.pair, counters, "NET", sent + received, "D", received, "U", sent,
                                 historySize, NetFormat);
            Attempt(s, counters, historySize, probe, attempt) == Outcome(s.(pair := sample.state), sample.fault)
  {
  }

  /** When the sampling of both attempts fails, whichever counter throws, no series
      changes and both re-reads are appended to the lists. */
  lemma BothSamplingsFail(s: NetState, counters: seq<Options.Entry>, historySize: int, probe: Probe,
                          discover: nat -> seq<string>)
    requires SumProbe(probe, 0, Sent, |s.sent|).None? || SumProbe(probe, 0, Received, |s.received|).None?
    requires SumProbe(probe, 1, Sent, |s.sent| + |discover(0)|).None?
          || SumProbe(probe, 1, Received, |s.received| + |discover(0)|).None?
    ensures var r := Update(s, counters, historySize, probe, discover);
            && r.pair == s.pair
            && r.sent == s.sent + discover(0) + discover(1)
            && r.received == s.received + discover(0) + discover(1)
  {
    var first := Attempt(s, counters, historySize, probe, 0);
    assert first == Outcome(s, Some(SamplingFailed));
    var retry := ReadCounters(s, discover(0));
    assert Attempt(retry, counters, historySize, probe, 1) == Outcome(retry, Some(SamplingFailed));
  }

  /** Re-reading the interface list never removes a counter: once the sent counter at some
      position throws on every attempt, both attempts fail, no series changes, and the list
      is only longer afterwards — the update never recovers while that counter stays. */
  lemma DeadCounterNeverHeals(s: NetState, counters: seq<Options.Entry>, historySize: int,
                              probe: Probe, discover: nat -> seq<string>, dead: nat)
    requires dead < |s.sent|
    requires probe(0, Sent, dead).None? && probe(1, Sent, dead).None?
    ensures var r := Update(s, counters, historySize, probe, discover);
            && r.pair == s.pair
            && r.sent == s.sent + discover(0) + discover(1)
            && r.received == s.received + discover(0) + discover(1)
            && dead < |r.sent| && r.sent[dead] == s.sent[dead]
  {
    var first := Attempt(s, counters, historySize, probe, 0);
    assert first == Outcome(s, Some(SamplingFailed));
    var retry := ReadCounters(s, discover(0));
    assert retry.sent[dead] == s.sent[dead];
    var second := Attempt(retry, counters, historySize, probe, 1);
    assert second == Outcome(retry, Some(SamplingFailed));
  }

  /** From the initialised state, when every counter answers on the first attempt (the sums
      exist), the HistorySize is positive, the sums are within range and the "NET" options
      exist, one update writes the received rate to "D", the sent rate to "U" and their sum
      to the summary, and keeps the counter lists. */
  lemma FirstUpdateSucceeds(instances: seq<string>, counters: seq<Options.Entry>, historySize: int,
                            probe: Probe, discover: nat -> seq<string>, sent: real, received: real)
    requires historySize >= 1 && Options.HasKey(counters, "NET")
    requires SumProbe(probe, 0, Sent, |instances|) == Some(sent)
    requires SumProbe(probe, 0, Received, |instances|) == Some(received)
    requires Within(sent) && Within(received) && Within(sent + received)
    ensures var r := Update(Initialize(instances), counters, historySize, probe, discover);
            && r.sent == instances && r.received == instances
            && r.pair.infos[0].history == [received] && r.pair.infos[1].history == [sent]
            && r.pair.summary.history == [sent + received]
  {
    var s := Initialize(instances);
    FirstSample(counters, "NET", sent + received, "D", received, "U", sent, historySize, NetFormat);
    var sample := Sample(s.pair, counters, "NET", sent + received, "D", received, "U", sent,
                         historySize, NetFormat);
    var first := Attempt(s, counters, historySize, probe, 0);
    assert first == Outcome(s.(pair := sample.state), None);
  }
}
