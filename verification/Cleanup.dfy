// ScenarioRunner.run of src/vdevlab/runner.py: which operations happen, in which
// order, on every path through its exception handling.

module Cleanup {
  import opened Common

  /** One way the outside world can behave during a run, once the backend is open.
      `raisesAt` is the event at which an exception comes up, inside its dispatch or,
      as Ctrl-C during the sleep before it, just ahead of it; a value equal to the
      number of events stands for one after the last dispatch and before the wait. */
  datatype World = World(
    events: nat,
    startsApplication: bool,
    raisesAt: Option<nat>,
    insideDispatch: bool,
    outOfTime: bool,
    waitReturns: bool,            // terminate or collect_with_timeout inside the try
    runsAfterFailedWait: bool,
    exitsByItself: bool,          // before the handler polls it
    handlerTerminateReturns: bool,
    resetOk: bool,
    closeOk: bool)

  datatype Op = Start | Dispatch(index: nat) | Terminate | Collect | ResetDevice | CloseDevice

  datatype Ending = Returned | RaisedFromBody | RaisedFromTerminate | RaisedFromCleanup

  /** The body of the try raises. */
  predicate BodyRaises(w: World) {
    !w.startsApplication || (w.raisesAt.Some? && w.raisesAt.value <= w.events) || !w.waitReturns
  }

  /** The application is still running when the handler looks at it. */
  predicate RunningInHandler(w: World) {
    w.startsApplication && !w.exitsByItself &&
    ((w.raisesAt.Some? && w.raisesAt.value <= w.events) || w.runsAfterFailedWait)
  }

  /** The one way past the cleanup: terminate raises inside the handler. */
  predicate Abandoned(w: World) {
    BodyRaises(w) && RunningInHandler(w) && !w.handlerTerminateReturns
  }

  predicate IsCleanup(op: Op) {
    op.ResetDevice? || op.CloseDevice?
  }

  /** Reset and then close, once each, after everything else. */
  predicate EndsClean(trace: seq<Op>) {
    |trace| >= 2 && trace[|trace| - 2] == ResetDevice && trace[|trace| - 1] == CloseDevice &&
    forall i :: 0 <= i < |trace| - 2 ==> !IsCleanup(trace[i])
  }

  predicate NoCleanup(trace: seq<Op>) {
    forall i :: 0 <= i < |trace| ==> !IsCleanup(trace[i])
  }

  function Dispatched(trace: seq<Op>): seq<nat> {
    if trace == [] then [] else
      var op := trace[|trace| - 1];
      Dispatched(trace[..|trace| - 1]) + (if op.Dispatch? then [op.index] else [])
  }

  function UpTo(n: nat): seq<nat> {
    seq(n, i => i)
  }

  lemma DispatchedSnoc(trace: seq<Op>, op: Op)
    ensures Dispatched(trace + [op]) == Dispatched(trace) + (if op.Dispatch? then [op.index] else [])
  {
    assert (trace + [op])[..|trace|] == trace;
  }

  /** How many dispatches are attempted. */
  function Attempts(w: World): nat {
    if !w.startsApplication then 0
    else if w.raisesAt.Some? && w.raisesAt.value < w.events then w.raisesAt.value + (if w.insideDispatch then 1 else 0)
    else w.events
  }

  /** Start the application and dispatch in order, until something raises. */
  method Dispatches(w: World) returns (raised: bool, trace: seq<Op>)
    requires w.startsApplication
    ensures raised <==> w.raisesAt.Some? && w.raisesAt.value <= w.events
    ensures NoCleanup(trace) && Dispatched(trace) == UpTo(Attempts(w)) && trace != []
  {
    trace := [Start];
    DispatchedSnoc([], Start);
    assert [] + [Start] == [Start];
    var i := 0;
    while i < w.events
      invariant i <= w.events && (w.raisesAt.Some? ==> i <= w.raisesAt.value)
      invariant NoCleanup(trace) && Dispatched(trace) == UpTo(i) && trace != []
    {
      if w.raisesAt == Some(i) && !w.insideDispatch {
        return true, trace;
      }
      DispatchedSnoc(trace, Dispatch(i));
      trace := trace + [Dispatch(i)];
      assert UpTo(i + 1) == UpTo(i) + [i];
      if w.raisesAt == Some(i) {
        return true, trace;
      }
      i := i + 1;
    }
    raised := w.raisesAt == Some(w.events);
  }

  /** The try block: start, dispatch in order, then terminate if the time is up and
      wait otherwise. */
  method Body(w: World) returns (ok: bool, trace: seq<Op>, running: bool)
    ensures ok <==> !BodyRaises(w)
    ensures NoCleanup(trace) && Dispatched(trace) == UpTo(Attempts(w))
    ensures ok ==> !running
    ensures !ok ==> (running && !w.exitsByItself <==> RunningInHandler(w))
    ensures trace == [] <==> !w.startsApplication
    ensures ok ==> trace[|trace| - 1] == if w.outOfTime then Terminate else Collect
  {
    trace, running, ok := [], false, false;
    if !w.startsApplication {
      assert UpTo(0) == [];
      return;
    }
    running := true;
    var raised;
    raised, trace := Dispatches(w);
    if raised {
      return;
    }
    var wait := if w.outOfTime then Terminate else Collect;
    DispatchedSnoc(trace, wait);
    trace := trace + [wait];
    if w.waitReturns {
      running, ok := false, true;
    } else {
      running := w.runsAfterFailedWait;
    }
  }

  /** _cleanup_backend: both operations are attempted even if the first raises. */
  method CleanupBackend(w: World, suppress: bool) returns (trace: seq<Op>, raised: bool)
    ensures trace == [ResetDevice, CloseDevice]
    ensures raised <==> !suppress && !(w.resetOk && w.closeOk)
  {
    var errors := 0;
    trace := [ResetDevice];
    if !w.resetOk {
      errors := errors + 1;
    }
    trace := trace + [CloseDevice];
    if !w.closeOk {
      errors := errors + 1;
    }
    raised := errors > 0 && !suppress;
  }

  lemma ThenCleanup(trace: seq<Op>)
    requires NoCleanup(trace)
    ensures EndsClean(trace + [ResetDevice, CloseDevice])
    ensures Dispatched(trace + [ResetDevice, CloseDevice]) == Dispatched(trace)
  {
    DispatchedSnoc(trace, ResetDevice);
    DispatchedSnoc(trace + [ResetDevice], CloseDevice);
    assert trace + [ResetDevice, CloseDevice] == (trace + [ResetDevice]) + [CloseDevice];
  }

  /** The whole run. Unless terminate raises inside the handler, no application is
      left running and the device is reset and closed once, last, after every
      dispatch. If it does raise there, neither is attempted. A result is returned
      exactly when the body, the reset and the close all succeeded. */
  method Run(w: World) returns (ending: Ending, trace: seq<Op>, running: bool)
    ensures ending.Returned? <==> !BodyRaises(w) && w.resetOk && w.closeOk
    ensures !Abandoned(w) ==> EndsClean(trace) && !running
    ensures Abandoned(w) <==> ending.RaisedFromTerminate?
    ensures BodyRaises(w) && !Abandoned(w) <==> ending.RaisedFromBody?
    ensures Abandoned(w) ==> NoCleanup(trace) && running
    ensures Dispatched(trace) == UpTo(Attempts(w))
    ensures Abandoned(w) ==> Terminate in trace
    ensures !BodyRaises(w) ==> |trace| > 2 && trace[|trace| - 3] == if w.outOfTime then Terminate else Collect
  {
    var ok;
    ok, trace, running := Body(w);
    if !ok {
      running := running && !w.exitsByItself;
      if running {
        DispatchedSnoc(trace, Terminate);
        trace := trace + [Terminate];
        if !w.handlerTerminateReturns {
          return RaisedFromTerminate, trace, running;
        }
        running := false;
      }
    }
    var tail, raised := CleanupBackend(w, !ok);
    ThenCleanup(trace);
    trace := trace + tail;
    ending := if !ok then RaisedFromBody else if raised then RaisedFromCleanup else Returned;
  }

  /** The gap is real, whatever the scenario: interrupt it at any event with an
      application that cannot be terminated, and the run ends with the application
      alive and the device neither reset nor closed. */
  method CleanupCanBeSkipped(events: nat, at: nat) returns (w: World, ending: Ending, trace: seq<Op>, running: bool)
    requires at <= events
    ensures w.events == events && w.raisesAt == Some(at) && w.resetOk && w.closeOk
    ensures ending.RaisedFromTerminate? && running && NoCleanup(trace) && Terminate in trace
  {
    w := World(events, true, Some(at), true, false, true, true, false, false, true, true);
    ending, trace, running := Run(w);
  }
}
