// ScenarioScheduler.run of src/vdevlab/runner.py: absolute deadlines on a clock
// the scheduler does not control. `clock(k)` is the k-th reading in the run; a
// sleep shows only in the readings after it. Times are reals, in seconds as in
// the code, reported in milliseconds.

module Scheduler {
  import opened Common
  import opened Scenario
  import opened Dispatching
  import Report

  type Clock = nat -> real

  datatype DispatchRecord = DispatchRecord(
    index: nat, scheduledMs: nat, startedMs: real, finishedMs: real,
    monotonicStartedMs: real, monotonicFinishedMs: real)

  datatype RunResult = Completed(records: seq<DispatchRecord>) | InvalidTime(index: nat) | DispatchFailed(index: nat)

  // Readings of event i: before the sleep, at the start, at the end.

  function Before(i: nat): nat { 3 * i + 1 }

  function Started(i: nat): nat { 3 * i + 2 }

  function Finished(i: nat): nat { 3 * i + 3 }

  predicate Timed(events: seq<Fields>, n: nat)
    requires n <= |events|
  {
    forall i :: 0 <= i < n ==> ScheduledMs(events[i]).Some?
  }

  function AtMsOf(events: seq<Fields>, i: nat): nat
    requires i < |events| && ScheduledMs(events[i]).Some?
  {
    ScheduledMs(events[i]).value
  }

  function Deadline(events: seq<Fields>, clock: Clock, i: nat): real
    requires i < |events| && ScheduledMs(events[i]).Some?
  {
    clock(0) + AtMsOf(events, i) as real / 1000.0
  }

  function RecordAt(events: seq<Fields>, clock: Clock, i: nat): DispatchRecord
    requires i < |events| && ScheduledMs(events[i]).Some?
  {
    var started, finished := clock(Started(i)), clock(Finished(i));
    DispatchRecord(i, AtMsOf(events, i), (started - clock(0)) * 1000.0, (finished - clock(0)) * 1000.0,
                   started * 1000.0, finished * 1000.0)
  }

  /** What the scheduler asks of its sleeper before event i. */
  function SleepFor(events: seq<Fields>, clock: Clock, i: nat): Option<real>
    requires i < |events| && ScheduledMs(events[i]).Some?
  {
    var remaining := Deadline(events, clock, i) - clock(Before(i));
    if remaining > 0.0 then Some(remaining) else None
  }

  /** A sleep that starts at `now` and would end at the deadline; none if it has passed. */
  predicate SleepsUpTo(sleep: Option<real>, now: real, deadline: real) {
    (sleep.Some? <==> now < deadline) && (sleep.Some? ==> now + sleep.value == deadline)
  }

  /** The record in milliseconds, of the run and of the clock. */
  predicate FromReadings(rec: DispatchRecord, origin: real, started: real, finished: real) {
    && rec.startedMs / 1000.0 + origin == started && rec.finishedMs / 1000.0 + origin == finished
    && rec.monotonicStartedMs / 1000.0 == started && rec.monotonicFinishedMs / 1000.0 == finished
  }

  /** `fails(i)`: the backend, or the dispatch itself, raises on event i. */
  method Run(events: seq<Fields>, clock: Clock, fails: nat -> bool) returns (r: RunResult, sleeps: seq<Option<real>>)
    ensures r.Completed? ==> Timed(events, |events|) && |r.records| == |events| == |sleeps| &&
                             forall i :: 0 <= i < |events| ==> !fails(i) && r.records[i] == RecordAt(events, clock, i) &&
                                                               sleeps[i] == SleepFor(events, clock, i)
    ensures r.Completed? ==> forall i :: 0 <= i < |events| ==>
                               SleepsUpTo(sleeps[i], clock(3 * i + 1), clock(0) + AtMsOf(events, i) as real / 1000.0) &&
                               FromReadings(r.records[i], clock(0), clock(3 * i + 2), clock(3 * i + 3)) &&
                               r.records[i].index == i && r.records[i].scheduledMs == AtMsOf(events, i)
    ensures r.InvalidTime? ==> r.index < |events| && Timed(events, r.index) && ScheduledMs(events[r.index]).None? &&
                               forall i :: 0 <= i < r.index ==> !fails(i)
    ensures r.DispatchFailed? ==> r.index < |events| && Timed(events, r.index + 1) && fails(r.index) &&
                                  forall i :: 0 <= i < r.index ==> !fails(i)
  {
    var readings := 0;
    var origin := clock(readings);
    var records: seq<DispatchRecord> := [];
    sleeps := [];
    var index := 0;
    while index < |events|
      invariant index <= |events| && Timed(events, index) && |records| == |sleeps| == index && readings == 3 * index
      invariant forall i :: 0 <= i < index ==> !fails(i) && records[i] == RecordAt(events, clock, i) &&
                                               sleeps[i] == SleepFor(events, clock, i) &&
                                               SleepsUpTo(sleeps[i], clock(3 * i + 1), clock(0) + AtMsOf(events, i) as real / 1000.0) &&
                                               FromReadings(records[i], clock(0), clock(3 * i + 2), clock(3 * i + 3))
    {
      var at := ScheduledMs(events[index]);
      if at.None? {
        return InvalidTime(index), sleeps;
      }
      var deadline := origin + at.value as real / 1000.0;
      readings := readings + 1;
      var remaining := deadline - clock(readings);
      sleeps := sleeps + [if remaining > 0.0 then Some(remaining) else None];
      readings := readings + 1;
      var started := clock(readings);
      if fails(index) {
        return DispatchFailed(index), sleeps;
      }
      readings := readings + 1;
      var finished := clock(readings);
      records := records + [DispatchRecord(index, at.value, (started - origin) * 1000.0, (finished - origin) * 1000.0,
                                           started * 1000.0, finished * 1000.0)];
      index := index + 1;
    }
    r := Completed(records);
  }

  // ---- under any honest clock ----

  ghost predicate Forward(clock: Clock) {
    forall j, k :: 0 <= j <= k ==> clock(j) <= clock(k)
  }

  /** A requested sleep lasts at least as long as requested. */
  ghost predicate SleepsNotShort(events: seq<Fields>, clock: Clock)
    requires Timed(events, |events|)
  {
    forall i :: 0 <= i < |events| && SleepFor(events, clock, i).Some? ==>
      clock(Started(i)) >= clock(Before(i)) + SleepFor(events, clock, i).value
  }

  /** No event starts early, events do not overlap, and starts ascend. */
  lemma NeverEarlyNeverOverlapping(events: seq<Fields>, clock: Clock, i: nat)
    requires Timed(events, |events|) && Forward(clock) && SleepsNotShort(events, clock) && i < |events|
    ensures var rec := RecordAt(events, clock, i);
            rec.startedMs >= rec.scheduledMs as real && rec.startedMs <= rec.finishedMs &&
            forall j :: i < j < |events| ==>
              rec.finishedMs <= RecordAt(events, clock, j).startedMs &&
              rec.monotonicFinishedMs <= RecordAt(events, clock, j).monotonicStartedMs
  {
    assert clock(Before(i)) <= clock(Started(i)) <= clock(Finished(i));
    if SleepFor(events, clock, i).None? {
      assert clock(Started(i)) >= Deadline(events, clock, i);
    }
    forall j | i < j < |events|
      ensures clock(Finished(i)) <= clock(Started(j))
    {
      assert Finished(i) <= Started(j);
    }
  }

  /** The records in the form the report reads them. */
  function ForReport(records: seq<DispatchRecord>, actions: seq<string>): seq<Report.Dispatch>
    requires |records| == |actions|
  {
    seq(|records|, i requires 0 <= i < |records| =>
      Report.Dispatch(records[i].index, actions[i], records[i].monotonicStartedMs))
  }

  /** Every completed run meets what the timeline needs of its dispatches. */
  lemma RunsFeedTheTimeline(events: seq<Fields>, clock: Clock, records: seq<DispatchRecord>, actions: seq<string>)
    requires Timed(events, |events|) && Forward(clock) && |records| == |events| == |actions|
    requires forall i :: 0 <= i < |events| ==> records[i] == RecordAt(events, clock, i)
    ensures Report.StartsAscend(ForReport(records, actions))
  {
    forall i, j | 0 <= i < j < |records| ensures records[i].monotonicStartedMs <= records[j].monotonicStartedMs {
      assert clock(Started(i)) <= clock(Started(j));
    }
  }

  // ---- under an ideal clock: a max-plus closed form ----

  function Max(a: real, b: real): real {
    if a < b then b else a
  }

  function Asked(sleep: Option<real>): real {
    match sleep
    case None => 0.0
    case Some(seconds) => seconds
  }

  /** Reading the clock takes no time, a sleep lasts exactly as long as the scheduler
      asks for, and dispatch i takes durations[i] milliseconds. */
  ghost predicate Ideal(events: seq<Fields>, clock: Clock, durations: seq<real>)
    requires Timed(events, |events|) && |durations| == |events|
  {
    forall i :: 0 <= i < |events| ==>
      clock(Before(i)) == clock(3 * i) &&
      clock(Started(i)) == clock(Before(i)) + Asked(SleepFor(events, clock, i)) &&
      clock(Finished(i)) == clock(Started(i)) + durations[i] / 1000.0
  }

  /** Total duration of dispatches j to i - 1. */
  function Busy(durations: seq<real>, j: nat, i: nat): real
    requires j <= i <= |durations|
  {
    if j == i then 0.0 else Busy(durations, j, i - 1) + durations[i - 1]
  }

  /** The start times as a recurrence: not before the own time, not before the
      previous dispatch is over. */
  function StartOf(ats: seq<real>, durations: seq<real>, i: nat): real
    requires i < |ats| == |durations|
  {
    if i == 0 then ats[0] else Max(StartOf(ats, durations, i - 1) + durations[i - 1], ats[i])
  }

  lemma {:induction false} MaxPlus(ats: seq<real>, durations: seq<real>, i: nat)
    requires i < |ats| == |durations|
    ensures forall j :: 0 <= j <= i ==> StartOf(ats, durations, i) >= ats[j] + Busy(durations, j, i)
    ensures exists j :: 0 <= j <= i && StartOf(ats, durations, i) == ats[j] + Busy(durations, j, i)
    decreases i
  {
    var start := StartOf(ats, durations, i);
    if i == 0 {
      assert start == ats[0] + Busy(durations, 0, 0);
    } else {
      MaxPlus(ats, durations, i - 1);
      var prev := StartOf(ats, durations, i - 1);
      var k :| 0 <= k <= i - 1 && prev == ats[k] + Busy(durations, k, i - 1);
      assert prev + durations[i - 1] == ats[k] + Busy(durations, k, i);
      assert ats[i] == ats[i] + Busy(durations, i, i);
      forall j | 0 <= j <= i ensures start >= ats[j] + Busy(durations, j, i) {
        if j < i {
          assert prev >= ats[j] + Busy(durations, j, i - 1);
        }
      }
      assert start == ats[k] + Busy(durations, k, i) || start == ats[i] + Busy(durations, i, i);
    }
  }

  function Times(events: seq<Fields>): seq<real>
    requires Timed(events, |events|)
  {
    seq(|events|, i requires 0 <= i < |events| => AtMsOf(events, i) as real)
  }

  lemma {:induction false} IdealStart(events: seq<Fields>, clock: Clock, durations: seq<real>, i: nat)
    requires Timed(events, |events|) && |durations| == |events| && Ideal(events, clock, durations) && i < |events|
    ensures RecordAt(events, clock, i).startedMs == StartOf(Times(events), durations, i)
    decreases i
  {
    if i > 0 {
      IdealStart(events, clock, durations, i - 1);
      assert 3 * i == Finished(i - 1);
    }
  }

  /** Event i starts at the largest, over all j up to i, of at_j plus the time the
      dispatches from j on take: lateness comes from earlier dispatches alone. */
  lemma ClosedForm(events: seq<Fields>, clock: Clock, durations: seq<real>, i: nat)
    requires Timed(events, |events|) && |durations| == |events| && Ideal(events, clock, durations) && i < |events|
    ensures var start := RecordAt(events, clock, i).startedMs;
            (forall j :: 0 <= j <= i ==> start >= AtMsOf(events, j) as real + Busy(durations, j, i)) &&
            (exists j :: 0 <= j <= i && start == AtMsOf(events, j) as real + Busy(durations, j, i))
  {
    IdealStart(events, clock, durations, i);
    var ats := Times(events);
    MaxPlus(ats, durations, i);
    forall j | 0 <= j <= i ensures ats[j] == AtMsOf(events, j) as real {}
    var j :| 0 <= j <= i && StartOf(ats, durations, i) == ats[j] + Busy(durations, j, i);
    assert AtMsOf(events, j) as real + Busy(durations, j, i) == ats[j] + Busy(durations, j, i);
  }

  lemma {:induction false} BusyBound(durations: seq<real>, j: nat, i: nat)
    requires j <= i <= |durations| && forall k :: 0 <= k < |durations| ==> durations[k] >= 0.0
    ensures 0.0 <= Busy(durations, j, i) <= Busy(durations, 0, i)
    decreases i
  {
    if j < i {
      BusyBound(durations, j, i - 1);
    } else if i > 0 {
      BusyBound(durations, i - 1, i - 1);
    }
  }

  /** Lateness never exceeds the time all earlier dispatches took together, and
      instant dispatches mean no lateness at all. */
  lemma LatenessBound(events: seq<Fields>, clock: Clock, durations: seq<real>, i: nat)
    requires Timed(events, |events|) && |durations| == |events| && Ideal(events, clock, durations)
    requires i < |events| && (forall k :: 0 <= k < |durations| ==> durations[k] >= 0.0)
    requires forall j, k :: 0 <= j < k < |events| ==> AtMsOf(events, j) <= AtMsOf(events, k)
    ensures var rec := RecordAt(events, clock, i);
            rec.scheduledMs as real <= rec.startedMs <= rec.scheduledMs as real + Busy(durations, 0, i)
  {
    ClosedForm(events, clock, durations, i);
    var start := RecordAt(events, clock, i).startedMs;
    assert Busy(durations, i, i) == 0.0;
    assert start >= AtMsOf(events, i) as real + Busy(durations, i, i);
    var j :| 0 <= j <= i && start == AtMsOf(events, j) as real + Busy(durations, j, i);
    BusyBound(durations, j, i);
    assert AtMsOf(events, j) <= AtMsOf(events, i);
  }
}
