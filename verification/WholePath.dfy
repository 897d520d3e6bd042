// From the device to the report: what the analysis counts in the log of a monitor
// that ran against the device is what was injected there.

module WholePath {
  import opened Common
  import opened DeviceLedger
  import opened LineBuffer
  import opened Monitor
  import opened EndToEnd
  import opened MonitorLog
  import opened Analysis
  import Device

  // ---- how the monitor of a system run ends ----

  lemma EndsRightStep(parse: Parser, max: nat, s: Sys, mv: SysMove)
    requires EndsRight(s.mon) && SysEnabled(s, mv)
    ensures EndsRight(SysNext(parse, max, s, mv).mon)
  {
    if mv.MonReturn? && s.mon.phase.Reading? {
      OnReadEndsRight(parse, max, s.mon, s.dev.calls[s.monCall.value].pc.result);
    }
  }

  lemma {:induction false} EndsRightAlong(parse: Parser, max: nat, s: Sys, run: seq<SysMove>)
    requires EndsRight(s.mon) && SysLegal(parse, max, s, run)
    ensures EndsRight(SysExec(parse, max, s, run).mon)
    decreases |run|
  {
    if run != [] {
      EndsRightStep(parse, max, s, run[0]);
      EndsRightAlong(parse, max, SysNext(parse, max, s, run[0]), run[1..]);
    }
  }

  // ---- EIO events and counted retries ----

  /** The monitor gave up on an EIO. */
  predicate GaveUp(log: seq<MonEvent>) {
    log != [] && log[|log| - 1] == ReadFailed(Device.EIO)
  }

  lemma OneMoreCounted(log: seq<MonEvent>, stamps: seq<nat>, i: nat)
    requires |log| == |stamps| && i < |log|
    ensures var es := RecordsFor(log, stamps);
            EioRetries(es, i + 1) == EioRetries(es, i) + (if log[i].ReadRetry? then 1 else 0)
  {
    RecordKind(log, stamps, i);
  }

  lemma OneMoreEvent(log: seq<MonEvent>, i: nat)
    requires i < |log|
    ensures EioEvents(log[..i + 1]) ==
              EioEvents(log[..i]) + (if log[i].ReadRetry? || log[i] == ReadFailed(Device.EIO) then 1 else 0)
  {
    assert log[..i + 1] == log[..i] + [log[i]];
    EioEventsSnoc(log[..i], log[i]);
  }

  lemma {:induction false} RetriesCounted(log: seq<MonEvent>, stamps: seq<nat>, i: nat)
    requires |log| == |stamps| && i <= |log|
    requires forall j :: 0 <= j < i ==> !Final(log[j])
    ensures EioRetries(RecordsFor(log, stamps), i) == EioEvents(log[..i])
    decreases i
  {
    if i > 0 {
      RetriesCounted(log, stamps, i - 1);
      OneMoreCounted(log, stamps, i - 1);
      OneMoreEvent(log, i - 1);
    }
  }

  lemma AllButTheLastAreRetries(m: Mon, stamps: seq<nat>)
    requires EndsRight(m) && |m.log| == |stamps|
    ensures EioEvents(m.log) == EioRetries(RecordsFor(m.log, stamps), |m.log|) + (if GaveUp(m.log) then 1 else 0)
  {
    var i := |m.log| - 1;
    RetriesCounted(m.log, stamps, i);
    OneMoreCounted(m.log, stamps, i);
    OneMoreEvent(m.log, i);
    assert m.log[..i + 1] == m.log;
  }

  /** The whole path. In every interleaving of device, writer, controls and monitor,
      and with stamps that do not go backwards: the analysis accepts the monitor's log,
      its windows agree with it, and its EIO count is the number of occurrences ever
      loaded into the device less those replaced, still pending or on their way, and
      less the one, if any, on which the monitor gave up. */
  lemma ReportCountsInjectedFaults(parse: Parser, max: nat, run: seq<SysMove>, stamps: seq<nat>)
    requires SysLegal(parse, max, Boot, run)
    requires |stamps| == |SysExec(parse, max, Boot, run).mon.log| && Ascending(stamps)
    ensures var s := SysExec(parse, max, Boot, run);
            && Agreed(s.mon.log, stamps)
            && MetricsOf(RecordsFor(s.mon.log, stamps)).eioCount ==
                 Loaded(s.dev.log) - Overwritten(s.dev.log) - Remaining(s.dev.sh.fault) - InFlightEio(s)
                 - (if GaveUp(s.mon.log) then 1 else 0)
  {
    var s := SysExec(parse, max, Boot, run);
    InjectedEiosAreSeen(parse, max, run);
    EndsRightAlong(parse, max, Boot, run);
    DisciplinedAgrees(s.mon.log, stamps);
    AllButTheLastAreRetries(s.mon, stamps);
  }
}
