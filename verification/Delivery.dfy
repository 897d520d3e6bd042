// The drained state of the whole system can always be reached: when the writer is
// through and no mutex is held, the monitor by itself reads what is left.

module Delivery {
  import opened Common
  import opened Device
  import opened DeviceLedger
  import opened SoloCalls
  import opened LineBuffer
  import opened Monitor
  import opened Drain
  import opened EndToEnd

  predicate MonitorMove(mv: SysMove) {
    mv.MonPoll? || mv.MonRead? || mv.MonReturn? || mv.DeviceStep?
  }

  /** Nobody but the monitor and the device does anything. */
  predicate ByMonitor(run: seq<SysMove>) {
    run == [] || (MonitorMove(run[0]) && ByMonitor(run[1..]))
  }

  function ReadsBegun(run: seq<SysMove>): nat {
    if run == [] then 0 else (if run[0].MonRead? then 1 else 0) + ReadsBegun(run[1..])
  }

  lemma {:induction false} MonitorAppend(a: seq<SysMove>, b: seq<SysMove>)
    ensures ByMonitor(a) && ByMonitor(b) ==> ByMonitor(a + b)
    ensures ReadsBegun(a + b) == ReadsBegun(a) + ReadsBegun(b)
    decreases |a|
  {
    if a == [] {
      assert a + b == b;
    } else {
      MonitorAppend(a[1..], b);
      assert (a + b)[1..] == a[1..] + b;
    }
  }

  /** A run of the system from s to s' made of the monitor's moves, with this many reads. */
  ghost predicate MonitorRun(parse: Parser, s: Sys, run: seq<SysMove>, n: nat, s': Sys) {
    && SysLegal(parse, 0, s, run) && SysExec(parse, 0, s, run) == s'
    && ByMonitor(run)
    && ReadsBegun(run) == n
  }

  lemma MonitorRuns(parse: Parser, s: Sys, a: seq<SysMove>, m: nat, s1: Sys, b: seq<SysMove>, n: nat, s2: Sys)
    requires MonitorRun(parse, s, a, m, s1) && MonitorRun(parse, s1, b, n, s2)
    ensures MonitorRun(parse, s, a + b, m + n, s2)
  {
    SysAppend(parse, 0, s, a, b);
    MonitorAppend(a, b);
  }

  lemma OneMove(parse: Parser, s: Sys, mv: SysMove)
    requires SysEnabled(s, mv) && MonitorMove(mv)
    ensures MonitorRun(parse, s, [mv], if mv.MonRead? then 1 else 0, SysNext(parse, 0, s, mv))
  {
    assert [mv][1..] == [];
  }

  /** Steps of the device alone are moves of the system. */
  lemma {:induction false} LiftSteps(parse: Parser, s: Sys, run: seq<Move>) returns (moves: seq<SysMove>)
    requires Legal(s.dev, run) && forall m :: m in run ==> m.action.Step?
    ensures MonitorRun(parse, s, moves, 0, s.(dev := Exec(s.dev, run)))
    decreases |run|
  {
    if run == [] {
      moves := [];
    } else {
      assert run[0] in run;
      var mv := DeviceStep(run[0].id, run[0].action.choice);
      var s1 := SysNext(parse, 0, s, mv);
      var rest := LiftSteps(parse, s1, run[1..]);
      OneMove(parse, s, mv);
      MonitorRuns(parse, s, [mv], 0, s1, rest, 0, s.(dev := Exec(s.dev, run)));
      moves := [mv] + rest;
    }
  }

  /** A call just begun with no mutex held, run alone until it returns. */
  lemma CallReturns(parse: Parser, s: Sys, id: Id) returns (moves: seq<SysMove>, s': Sys)
    requires LedgerInv(s.dev) && Free(s.dev) && id in s.dev.calls
    requires s.dev.calls[id].pc == Entry(s.dev.calls[id].call)
    requires Solo(GlobalsOf(s.dev), s.dev.calls[id].call).result.Some?
    ensures MonitorRun(parse, s, moves, 0, s') && s' == s.(dev := s'.dev)
    ensures var o := Solo(GlobalsOf(s.dev), s.dev.calls[id].call);
            Free(s'.dev) && GlobalsOf(s'.dev) == o.g && id in s'.dev.calls && s'.dev.calls[id].pc == Done(o.result.value)
  {
    var g, call := GlobalsOf(s.dev), s.dev.calls[id].call;
    assert s.dev.sh == Unlocked(g);
    SoloMatches(g, id, call);
    var run := FinishIsARun(s.dev, id, LONGEST_CALL);
    moves := LiftSteps(parse, s, run);
    s' := s.(dev := Exec(s.dev, run));
  }

  /** The monitor is between two passes and nothing is locked. */
  predicate AtRest(s: Sys) {
    s.monCall.None? && s.mon.phase.Polling? && Free(s.dev)
  }

  /** poll(2) of one pass, from its begin to its return. */
  lemma PollInSystem(parse: Parser, s: Sys) returns (run: seq<SysMove>, s': Sys)
    requires SysInv(parse, 0, s) && AtRest(s) && PollReady(GlobalsOf(s.dev))
    ensures MonitorRun(parse, s, run, 0, s') && Free(s'.dev) && s'.monCall.None? && s'.w == s.w
    ensures GlobalsOf(s'.dev) == GlobalsOf(s.dev)
    ensures s'.mon == OnPoll(s.mon, SoloPoll(GlobalsOf(s.dev), true, false).result.value) && s'.mon.phase.Reading?
  {
    var id := FreshId(s.dev.calls.Keys);
    var s1 := SysNext(parse, 0, s, MonPoll(id));
    OneMove(parse, s, MonPoll(id));
    SysStep(parse, 0, s, MonPoll(id));
    var steps, s2 := CallReturns(parse, s1, id);
    OneMove(parse, s2, MonReturn);
    s' := SysNext(parse, 0, s2, MonReturn);
    MonitorRuns(parse, s1, steps, 0, s2, [MonReturn], 0, s');
    MonitorRuns(parse, s, [MonPoll(id)], 0, s1, steps + [MonReturn], 0, s');
    run := [MonPoll(id)] + (steps + [MonReturn]);
  }

  /** read(2) of one pass. */
  lemma ReadInSystem(parse: Parser, s: Sys) returns (run: seq<SysMove>, s': Sys)
    requires SysInv(parse, 0, s) && s.monCall.None? && s.mon.phase.Reading? && Free(s.dev)
    ensures MonitorRun(parse, s, run, 1, s') && Free(s'.dev) && s'.monCall.None? && s'.w == s.w
    ensures var o := SoloRead(GlobalsOf(s.dev), READ_SIZE, true);
            GlobalsOf(s'.dev) == o.g && s'.mon == OnRead(parse, 0, s.mon, o.result.value)
  {
    var id := FreshId(s.dev.calls.Keys);
    var s1 := SysNext(parse, 0, s, MonRead(id));
    OneMove(parse, s, MonRead(id));
    SysStep(parse, 0, s, MonRead(id));
    var steps, s2 := CallReturns(parse, s1, id);
    OneMove(parse, s2, MonReturn);
    s' := SysNext(parse, 0, s2, MonReturn);
    MonitorRuns(parse, s1, steps, 0, s2, [MonReturn], 0, s');
    MonitorRuns(parse, s, [MonRead(id)], 1, s1, steps + [MonReturn], 0, s');
    run := [MonRead(id)] + (steps + [MonReturn]);
  }

  lemma PassInSystem(parse: Parser, s: Sys) returns (run: seq<SysMove>, s': Sys)
    requires SysInv(parse, 0, s) && AtRest(s) && PollReady(GlobalsOf(s.dev))
    ensures MonitorRun(parse, s, run, 1, s') && SysInv(parse, 0, s')
    ensures Free(s'.dev) && s'.monCall.None? && s'.w == s.w
    ensures (GlobalsOf(s'.dev), s'.mon) == Pass(parse, 0, GlobalsOf(s.dev), s.mon)
  {
    var poll, s1 := PollInSystem(parse, s);
    SysInvAlong(parse, 0, s, poll);
    var read, s2 := ReadInSystem(parse, s1);
    SysInvAlong(parse, 0, s1, read);
    MonitorRuns(parse, s, poll, 0, s1, read, 1, s2);
    run, s' := poll + read, s2;
  }

  lemma {:induction false} DrainInSystem(parse: Parser, s: Sys) returns (run: seq<SysMove>, s': Sys)
    requires SysInv(parse, 0, s) && AtRest(s) && CanDrain(GlobalsOf(s.dev), s.mon)
    ensures MonitorRun(parse, s, run, Reads(GlobalsOf(s.dev)), s')
    ensures AtRest(s') && s'.w == s.w && s'.dev.sh.fifo == []
    decreases Remaining(s.dev.sh.fault) + |s.dev.sh.fifo|
  {
    var g := GlobalsOf(s.dev);
    QuietMeansDrained(g);
    if !PollReady(g) {
      run, s' := [], s;
    } else {
      PassDrains(parse, g, s.mon);
      var first, s1 := PassInSystem(parse, s);
      var rest, s2 := DrainInSystem(parse, s1);
      MonitorRuns(parse, s, first, 1, s1, rest, Reads(GlobalsOf(s1.dev)), s2);
      run, s' := first + rest, s2;
    }
  }

  lemma RestCanDrain(parse: Parser, s: Sys)
    requires SysInv(parse, 0, s) && AtRest(s) && s.mon.retries + Remaining(s.dev.sh.fault) <= MAX_EIO_RETRIES
    ensures CanDrain(GlobalsOf(s.dev), s.mon)
  {}

  /** Delivery. Whatever happened before, with any faults: once the writer is through,
      no mutex is held, the monitor is between two passes and its retries suffice for
      the pending EIOs, the monitor's own calls lead to the drained state, with
      exactly repeat + ceil(len / chunk) reads, and then its line events are those of
      the payloads. */
  lemma EverythingIsDelivered(parse: Parser, before: seq<SysMove>) returns (run: seq<SysMove>)
    requires SysLegal(parse, 0, Boot, before)
    requires var s := SysExec(parse, 0, Boot, before);
             && AtRest(s) && s.w.call.None? && s.w.remaining == []
             && s.mon.retries + Remaining(s.dev.sh.fault) <= MAX_EIO_RETRIES
    ensures ByMonitor(run) && SysLegal(parse, 0, Boot, before + run)
    ensures var s := SysExec(parse, 0, Boot, before);
            var s' := SysExec(parse, 0, Boot, before + run);
            && ReadsBegun(run) == Remaining(s.dev.sh.fault) + CeilDiv(|s.dev.sh.fifo|, Chunk(s.dev.sh.fault))
            && Drained(s') && AtRest(s') && s'.w == s.w
            && s'.consumed == s.w.offered
            && Lines(s'.mon.log) == StreamEvents(parse, s.w.offered)
  {
    BootRunInv(parse, 0, before);
    var s := SysExec(parse, 0, Boot, before);
    RestCanDrain(parse, s);
    var tail, s' := DrainInSystem(parse, s);
    run := tail;
    SysAppend(parse, 0, Boot, before, run);
    FaultTransparency(parse, 0, before + run);
  }
}
