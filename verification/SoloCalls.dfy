// One call running with no other call in between. `Core` is the driver as
// sequential code over the two global variables; the Solo functions say what each
// call does to them; the lemmas show the step machine does the same.

module SoloCalls {
  import opened Common
  import opened Device
  import opened DeviceLocks
  import opened DeviceLedger

  /** The two global variables of the driver. */
  datatype Globals = Globals(fault: Config, fifo: seq<Byte>)

  /** New globals and the result; None is a call that goes to sleep. */
  datatype Outcome = Outcome(g: Globals, result: Option<Result>)

  function LimitOf(fault: Config): nat {
    if fault.kind == FAULT_PARTIAL_READ then fault.partialBytes else 0
  }

  function SoloRead(g: Globals, count: nat, nonblock: bool): Outcome {
    if count == 0 then Outcome(g, Some(Data([])))
    else if g.fault.kind == FAULT_EIO then Outcome(g.(fault := Used(g.fault)), Some(Failed(EIO)))
    else if g.fault.kind == FAULT_DISCONNECT then Outcome(g, Some(Failed(ENODEV)))
    else if g.fifo == [] then Outcome(g, if nonblock then Some(Failed(EAGAIN)) else None)
    else
      var n := ReadQuota(count, |g.fifo|, LimitOf(g.fault));
      Outcome(g.(fifo := g.fifo[n..]), Some(Data(g.fifo[..n])))
  }

  function SoloWrite(g: Globals, data: seq<Byte>, nonblock: bool): Outcome {
    if data == [] then Outcome(g, Some(Wrote(0)))
    else if Disconnected(g.fault) then Outcome(g, Some(Failed(ENODEV)))
    else if Full(g.fifo) then Outcome(g, if nonblock then Some(Failed(EAGAIN)) else None)
    else
      var n := WriteQuota(|data|, |g.fifo|);
      Outcome(g.(fifo := g.fifo + data[..n]), Some(Wrote(n)))
  }

  function SoloMask(g: Globals): Mask {
    if g.fault.kind == FAULT_DISCONNECT then Mask(false, false, true, true)
    else if g.fault.kind == FAULT_EIO then Mask(false, false, true, false)
    else PollMask(g.fifo)
  }

  function SoloPoll(g: Globals, wantIn: bool, wantOut: bool): Outcome {
    var call := Poll(wantIn, wantOut);
    Outcome(g, if ReadyFor(call, SoloMask(g)) then Some(Ready(Filter(call, SoloMask(g)))) else None)
  }

  function SoloSetFault(g: Globals, config: Config): Outcome {
    match Normalise(config)
    case None => Outcome(g, Some(Failed(EINVAL)))
    case Some(c) => Outcome(g.(fault := c), Some(Success))
  }

  function Solo(g: Globals, call: Call): Outcome {
    match call
    case Read(count, nonblock) => SoloRead(g, count, nonblock)
    case Write(data, nonblock) => SoloWrite(g, data, nonblock)
    case Poll(wantIn, wantOut) => SoloPoll(g, wantIn, wantOut)
    case SetFault(config) => SoloSetFault(g, config)
    case GetFault => Outcome(g, Some(Got(g.fault)))
    case ClearFault => Outcome(g.(fault := NoFault), Some(Success))
    case Reset => Outcome(Globals(NoFault, []), Some(Success))
    case Unsupported => Outcome(g, Some(Failed(ENOTTY)))
  }

  // ---- the outcomes by field and length ----

  /** A read of something: the errno by the fault, else nothing there, else the front
      of the FIFO, as long as count, FIFO and limit all allow and no shorter. */
  lemma ReadOutcome(g: Globals, count: nat, nonblock: bool)
    requires Canonical(g.fault) && count > 0
    ensures var o := SoloRead(g, count, nonblock);
            var kind := g.fault.kind;
            && (kind == 1 ==> o.result == Some(Failed(EIO)) && o.g.fifo == g.fifo &&
                              (if g.fault.repeat == 1 then o.g.fault == Config(0, 0, 0, 0)
                               else o.g.fault == Config(1, g.fault.repeat - 1, 0, 0)))
            && (kind == 3 ==> o == Outcome(g, Some(Failed(ENODEV))))
            && (kind != 1 && kind != 3 && g.fifo == [] ==> o == Outcome(g, if nonblock then Some(Failed(EAGAIN)) else None))
            && (kind != 1 && kind != 3 && g.fifo != [] ==>
                  && o.result.Some? && o.result.value.Data? && o.g.fault == g.fault
                  && var bytes := o.result.value.bytes;
                     && bytes + o.g.fifo == g.fifo
                     && 1 <= |bytes| <= count && (kind == 4 ==> |bytes| <= g.fault.partialBytes)
                     && (|bytes| == count || o.g.fifo == [] || (kind == 4 && |bytes| == g.fault.partialBytes)))
  {
    var n := ReadQuota(count, |g.fifo|, LimitOf(g.fault));
    assert g.fifo[..n] + g.fifo[n..] == g.fifo;
  }

  /** A write of something: refused, or nothing fits, or the longest prefix that does. */
  lemma WriteOutcome(g: Globals, data: seq<Byte>, nonblock: bool)
    requires data != [] && |g.fifo| <= 4096
    ensures var o := SoloWrite(g, data, nonblock);
            if g.fault.kind == 3 then o == Outcome(g, Some(Failed(ENODEV)))
            else if |g.fifo| == 4096 then o == Outcome(g, if nonblock then Some(Failed(EAGAIN)) else None)
            else
              && o.result.Some? && o.result.value.Wrote? && o.g.fault == g.fault
              && var n := o.result.value.n;
                 && 1 <= n <= |data| && o.g.fifo == g.fifo + data[..n]
                 && |o.g.fifo| <= 4096 && (n == |data| || |o.g.fifo| == 4096)
  {}

  /** poll(2) bit by bit: error on EIO and disconnect, hang-up on disconnect only, and
      otherwise what was asked for and is true of the FIFO; it waits if no bit is set. */
  lemma PollOutcome(g: Globals, wantIn: bool, wantOut: bool)
    requires |g.fifo| <= 4096
    ensures var o := SoloPoll(g, wantIn, wantOut);
            var broken := g.fault.kind == 1 || g.fault.kind == 3;
            && o.g == g
            && (o.result.Some? <==> broken || (wantIn && g.fifo != []) || (wantOut && |g.fifo| < 4096))
            && (o.result.Some? ==>
                  && o.result.value.Ready?
                  && var mask := o.result.value.mask;
                     && (mask.err <==> broken)
                     && (mask.hup <==> g.fault.kind == 3)
                     && (mask.pollIn <==> !broken && wantIn && g.fifo != [])
                     && (mask.pollOut <==> !broken && wantOut && |g.fifo| < 4096))
  {}

  /** The control calls: out of range is -EINVAL and changes nothing, in range stores
      the fault with its own parameter only; the FIFO is emptied by RESET alone. */
  lemma ControlOutcome(g: Globals, call: Call)
    requires call.SetFault? || call.GetFault? || call.ClearFault? || call.Reset? || call.Unsupported?
    ensures var o := Solo(g, call);
            && o.result.Some?
            && (call.SetFault? && !Settable(call.config) ==> o == Outcome(g, Some(Failed(EINVAL))))
            && (call.SetFault? && Settable(call.config) ==>
                  o.result == Some(Success) && OwnFieldOnly(call.config, o.g.fault) && o.g.fifo == g.fifo)
            && (call.GetFault? ==> o == Outcome(g, Some(Got(g.fault))))
            && (call.ClearFault? ==> o == Outcome(Globals(Config(0, 0, 0, 0), g.fifo), Some(Success)))
            && (call.Reset? ==> o == Outcome(Globals(Config(0, 0, 0, 0), []), Some(Success)))
            && (call.Unsupported? ==> o == Outcome(g, Some(Failed(ENOTTY))))
  {
    if call.SetFault? {
      SetFaultRange(call.config);
    }
  }

  // ---- the step machine, one call at a time ----

  /** At most `fuel` steps of one call. */
  function Finish(sh: Shared, id: Id, call: Call, pc: Pc, fuel: nat): (Shared, Pc)
    decreases fuel
  {
    var c := Normal(sh, call, pc);
    if fuel == 0 || !CanStep(sh, call, pc, c) then (sh, pc)
    else
      var e := Local(sh, id, call, pc, c);
      Finish(e.sh, id, call, e.pc, fuel - 1)
  }

  function Unlocked(g: Globals): Shared {
    Shared(g.fault, g.fifo, None, None)
  }

  /** Steps of the longest call, a delayed read. */
  const LONGEST_CALL: nat := 9

  /** Where a solo call ends up: finished, or asleep on its queue. */
  predicate Matches(r: (Shared, Pc), o: Outcome) {
    r.0 == Unlocked(o.g) &&
    match o.result
    case Some(result) => r.1 == Done(result)
    case None => (ReaderAsleep(r.1) && r.1.loc.limit == LimitOf(o.g.fault)) || WriterAsleep(r.1) || PollerAsleep(r.1)
  }

  /** Stopping a call in between and going on makes no difference. */
  lemma {:induction false} FinishSplit(sh: Shared, id: Id, call: Call, pc: Pc, a: nat, b: nat)
    ensures var m := Finish(sh, id, call, pc, a);
            Finish(sh, id, call, pc, a + b) == Finish(m.0, id, call, m.1, b)
    decreases a
  {
    if a > 0 {
      var c := Normal(sh, call, pc);
      if CanStep(sh, call, pc, c) {
        var e := Local(sh, id, call, pc, c);
        FinishSplit(e.sh, id, call, e.pc, a - 1, b);
      }
    }
  }

  /** The fault check of a read: lock, switch, unlock. */
  lemma SoloCheck(g: Globals, id: Id, call: Call)
    requires Canonical(g.fault) && call.Read? && call.count > 0
    ensures var r := Finish(Unlocked(g), id, call, R(RCheckLock, ReadLocals(false, 0)), 3);
            var f := g.fault;
            if f.kind == FAULT_EIO then r == (Unlocked(g.(fault := Used(f))), Done(Failed(EIO)))
            else if f.kind == FAULT_DISCONNECT then r == (Unlocked(g), Done(Failed(ENODEV)))
            else if f.kind == FAULT_DELAY then r == (Unlocked(g), R(RDelay, ReadLocals(true, 0)))
            else r == (Unlocked(g), R(RFifoLock, ReadLocals(false, LimitOf(f))))
  {}

  /** The rest of a read, after the delay if there is one. */
  lemma SoloTransfer(g: Globals, id: Id, call: Call, loc: ReadLocals)
    requires call.Read? && call.count > 0
    ensures var r := Finish(Unlocked(g), id, call, R(RFifoLock, loc), 5);
            if g.fifo != [] then
              var n := ReadQuota(call.count, |g.fifo|, loc.limit);
              r == (Unlocked(g.(fifo := g.fifo[n..])), Done(Data(g.fifo[..n])))
            else if call.nonblock then r == (Unlocked(g), Done(Failed(EAGAIN)))
            else !InterruptsRead(g.fault) ==> r == (Unlocked(g), R(RAsleep, loc))
  {}

  lemma {:induction false} FinishedStays(sh: Shared, id: Id, call: Call, pc: Pc, fuel: nat)
    requires pc.Done? || ReaderAsleep(pc) || PollerAsleep(pc)
    ensures Finish(sh, id, call, pc, fuel) == (sh, pc)
  {}

  lemma SoloReadMatches(g: Globals, id: Id, call: Call)
    requires Canonical(g.fault) && call.Read?
    ensures Matches(Finish(Unlocked(g), id, call, Entry(call), LONGEST_CALL), Solo(g, call))
  {
    if call.count > 0 {
      SoloCheck(g, id, call);
      FinishSplit(Unlocked(g), id, call, Entry(call), 3, 6);
      var m := Finish(Unlocked(g), id, call, Entry(call), 3);
      if m.1.Done? {
        FinishedStays(m.0, id, call, m.1, 6);
      } else if m.1.r.RDelay? {
        SoloTransfer(g, id, call, m.1.loc);
      } else {
        SoloTransfer(g, id, call, m.1.loc);
        FinishSplit(m.0, id, call, m.1, 5, 1);
        var n := Finish(m.0, id, call, m.1, 5);
        FinishedStays(n.0, id, call, n.1, 1);
      }
    }
  }

  lemma SoloPut(g: Globals, id: Id, call: Call)
    requires call.Write? && call.data != [] && !Full(g.fifo)
    ensures var n := WriteQuota(|call.data|, |g.fifo|);
            Finish(Unlocked(g), id, call, W(WFifoLock), 5) ==
              (Unlocked(g.(fifo := g.fifo + call.data[..n])), Done(Wrote(n)))
  {}

  lemma SoloWriteMatches(g: Globals, id: Id, call: Call)
    requires call.Write?
    ensures Matches(Finish(Unlocked(g), id, call, Entry(call), LONGEST_CALL), Solo(g, call))
  {
    if call.data != [] && !Disconnected(g.fault) && !Full(g.fifo) {
      var k := if call.nonblock then 2 else 3;
      assert Finish(Unlocked(g), id, call, W(WCheck), k) == (Unlocked(g), W(WFifoLock));
      SoloPut(g, id, call);
      var n := Finish(Unlocked(g), id, call, W(WFifoLock), 5);
      FinishSplit(Unlocked(g), id, call, W(WCheck), k, LONGEST_CALL - k);
      FinishSplit(Unlocked(g), id, call, W(WFifoLock), 5, LONGEST_CALL - k - 5);
      FinishedStays(n.0, id, call, n.1, LONGEST_CALL - k - 5);
    }
  }

  /** The part of vdevlab_poll that looks at the FIFO, and poll(2)'s decision. */
  lemma SoloPollFifo(g: Globals, id: Id, call: Call)
    requires call.Poll?
    ensures Finish(Unlocked(g), id, call, P(PFifoLock, false), 4) ==
              (Unlocked(g), if ReadyFor(call, PollMask(g.fifo)) then Done(Ready(Filter(call, PollMask(g.fifo))))
                            else P(PAsleep, false))
  {}

  lemma SoloPollMatches(g: Globals, id: Id, call: Call)
    requires call.Poll?
    ensures Matches(Finish(Unlocked(g), id, call, Entry(call), LONGEST_CALL), Solo(g, call))
  {
    if !InterruptsRead(g.fault) {
      assert Finish(Unlocked(g), id, call, P(PRegister, false), 2) == (Unlocked(g), P(PFifoLock, false));
      SoloPollFifo(g, id, call);
      var n := Finish(Unlocked(g), id, call, P(PFifoLock, false), 4);
      FinishSplit(Unlocked(g), id, call, P(PRegister, false), 2, LONGEST_CALL - 2);
      FinishSplit(Unlocked(g), id, call, P(PFifoLock, false), 4, LONGEST_CALL - 6);
      FinishedStays(n.0, id, call, n.1, LONGEST_CALL - 6);
    }
  }

  lemma SoloSetMatches(g: Globals, id: Id, call: Call)
    requires call.SetFault? || call.ClearFault?
    ensures Matches(Finish(Unlocked(g), id, call, Entry(call), LONGEST_CALL), Solo(g, call))
  {}

  lemma SoloGetMatches(g: Globals, id: Id, call: Call)
    requires call.GetFault?
    ensures Matches(Finish(Unlocked(g), id, call, Entry(call), LONGEST_CALL), Solo(g, call))
  {}

  lemma SoloResetLocked(g: Globals, id: Id, call: Call)
    requires call.Reset?
    ensures Finish(Unlocked(g), id, call, I(XLockFault), 4) ==
              (Shared(NoFault, [], Some(id), Some(id)), I(XUnlockFifo))
  {}

  lemma SoloResetReleased(id: Id, call: Call)
    requires call.Reset?
    ensures Finish(Shared(NoFault, [], Some(id), Some(id)), id, call, I(XUnlockFifo), 5) ==
              (Unlocked(Globals(NoFault, [])), Done(Success))
  {}

  lemma SoloResetMatches(g: Globals, id: Id, call: Call, fuel: nat)
    requires call.Reset? && fuel == LONGEST_CALL
    ensures Matches(Finish(Unlocked(g), id, call, Entry(call), fuel), Solo(g, call))
  {
    SoloResetLocked(g, id, call);
    SoloResetReleased(id, call);
    FinishSplit(Unlocked(g), id, call, I(XLockFault), 4, fuel - 4);
  }

  lemma SoloMatches(g: Globals, id: Id, call: Call)
    requires Canonical(g.fault) && |g.fifo| <= FIFO_SIZE
    ensures Matches(Finish(Unlocked(g), id, call, Entry(call), LONGEST_CALL), Solo(g, call))
  {
    match call
    case Read(_, _) => SoloReadMatches(g, id, call);
    case Write(_, _) => SoloWriteMatches(g, id, call);
    case Poll(_, _) => SoloPollMatches(g, id, call);
    case SetFault(_) => SoloSetMatches(g, id, call);
    case ClearFault => SoloSetMatches(g, id, call);
    case GetFault => SoloGetMatches(g, id, call);
    case Reset => SoloResetMatches(g, id, call, LONGEST_CALL);
    case Unsupported =>
  }

  /** A reader on the read queue, asleep or woken and about to look again. */
  predicate Waiting(pc: Pc, loc: ReadLocals) {
    pc == R(RAsleep, loc) || pc == R(RWait, loc)
  }

  /** What another call's steps leave of a call: the call itself, its result if it
      has one, and its place in the queue if it waits for data. */
  predicate Undisturbed(a: Activity, b: Activity) {
    b.call == a.call &&
    (a.pc.Done? ==> b.pc == a.pc) &&
    (a.pc.R? && Waiting(a.pc, a.pc.loc) ==> Waiting(b.pc, a.pc.loc))
  }

  lemma StepUndisturbs(s: State, id: Id, c: Choice)
    requires Enabled(s, id, Step(c))
    ensures var s1 := Next(s, id, Step(c));
            && s1.calls.Keys == s.calls.Keys && s1.calls[id].call == s.calls[id].call
            && (forall i :: i in s.calls && i != id ==> Undisturbed(s.calls[i], s1.calls[i]))
  {}

  lemma UndisturbedTwice(a: Activity, b: Activity, c: Activity)
    requires Undisturbed(a, b) && Undisturbed(b, c)
    ensures Undisturbed(a, c)
  {}

  /** The steps of a solo call are moves of the whole machine, in which nobody else
      steps. */
  lemma {:induction false} FinishIsARun(s: State, id: Id, fuel: nat) returns (run: seq<Move>)
    requires id in s.calls
    ensures Legal(s, run) && (forall m :: m in run ==> m.id == id && m.action.Step?)
    ensures var s' := Exec(s, run);
            && s'.calls.Keys == s.calls.Keys
            && (s'.sh, PcOf(s', id)) == Finish(s.sh, id, s.calls[id].call, s.calls[id].pc, fuel)
            && s'.calls[id].call == s.calls[id].call
            && (forall i :: i in s.calls && i != id ==> Undisturbed(s.calls[i], s'.calls[i]))
    decreases fuel
  {
    var act := s.calls[id];
    var c := Normal(s.sh, act.call, act.pc);
    if fuel == 0 || !CanStep(s.sh, act.call, act.pc, c) {
      run := [];
    } else {
      var s1 := Next(s, id, Step(c));
      StepUndisturbs(s, id, c);
      var rest := FinishIsARun(s1, id, fuel - 1);
      run := [Move(id, Step(c))] + rest;
      assert run[1..] == rest;
      var s' := Exec(s1, rest);
      forall i | i in s.calls && i != id ensures Undisturbed(s.calls[i], s'.calls[i]) {
        UndisturbedTwice(s.calls[i], s1.calls[i], s'.calls[i]);
      }
    }
  }

  /** A call begun when no mutex is held and left to run alone does to the device
      what its Solo function says, and ends with that result or asleep. */
  lemma SoloRefinement(s: State, id: Id, call: Call) returns (run: seq<Move>)
    requires Reachable(s) && id !in s.calls
    requires s.sh.faultLock.None? && s.sh.fifoLock.None?
    ensures Legal(s, run) && (forall m :: m in run ==> m.id == id)
    ensures var s' := Exec(s, run);
            var o := Solo(Globals(s.sh.fault, s.sh.fifo), call);
            && s'.sh == Unlocked(o.g)
            && id in s'.calls && s'.calls[id].call == call
            && (o.result.Some? ==> s'.calls[id].pc == Done(o.result.value))
            && (o.result.None? ==> Matches((s'.sh, PcOf(s', id)), o))
            && s'.calls.Keys == s.calls.Keys + {id}
            && (forall i :: i in s.calls ==> Undisturbed(s.calls[i], s'.calls[i]))
  {
    ReachableLedgerInv(s);
    var g := Globals(s.sh.fault, s.sh.fifo);
    assert s.sh == Unlocked(g);
    SoloMatches(g, id, call);
    var s1 := Next(s, id, Begin(call));
    var rest := FinishIsARun(s1, id, LONGEST_CALL);
    run := [Move(id, Begin(call))] + rest;
    assert run[1..] == rest;
  }

  // ---- reachable states by solo calls ----

  lemma {:induction false} ExecAppend(s: State, a: seq<Move>, b: seq<Move>)
    requires Legal(s, a) && Legal(Exec(s, a), b)
    ensures Legal(s, a + b) && Exec(s, a + b) == Exec(Exec(s, a), b)
    decreases |a|
  {
    if a == [] {
      assert a + b == b;
    } else {
      ExecAppend(Next(s, a[0].id, a[0].action), a[1..], b);
      assert (a + b)[1..] == a[1..] + b;
    }
  }

  lemma StillReachable(s: State, run: seq<Move>)
    requires Reachable(s) && Legal(s, run)
    ensures Reachable(Exec(s, run))
  {
    var boot :| Legal(Init, boot) && Exec(Init, boot) == s;
    ExecAppend(Init, boot, run);
  }

  lemma InitReachable()
    ensures Reachable(Init)
  {
    assert Legal(Init, []) && Exec(Init, []) == Init;
  }

  /** The state a solo call leads to, and the run from s that leads there. */
  lemma SoloReach(s: State, id: Id, call: Call) returns (s': State, run: seq<Move>)
    requires Reachable(s) && id !in s.calls && s.sh.faultLock.None? && s.sh.fifoLock.None?
    ensures Legal(s, run) && Exec(s, run) == s' && (forall m :: m in run ==> m.id == id)
    ensures Reachable(s') && s'.calls.Keys == s.calls.Keys + {id} && s'.calls[id].call == call
    ensures var o := Solo(Globals(s.sh.fault, s.sh.fifo), call);
            s'.sh == Unlocked(o.g) && Matches((s'.sh, s'.calls[id].pc), o)
    ensures forall i :: i in s.calls ==> Undisturbed(s.calls[i], s'.calls[i])
  {
    run := SoloRefinement(s, id, call);
    StillReachable(s, run);
    s' := Exec(s, run);
  }

  // ---- the driver as sequential code ----

  /** The driver's global fault and FIFO, updated in place by one call at a time. */
  class Core {
    var fault: Config
    var fifo: seq<Byte>

    ghost predicate Valid()
      reads this
    {
      Canonical(fault) && |fifo| <= FIFO_SIZE
    }

    ghost function View(): Globals
      reads this
    {
      Globals(fault, fifo)
    }

    constructor ()
      ensures Valid() && View() == Globals(NoFault, [])
    {
      fault, fifo := NoFault, [];
    }

    /** vdevlab_apply_read_fault; the delay is reported, not slept. */
    method ApplyReadFault(delayApplied: bool, partialBytes: nat)
      returns (applied: bool, limit: nat, delayMs: nat, ret: Option<Errno>)
      requires Valid()
      modifies this`fault
      ensures Valid() && fault == Used(old(fault))
      ensures ret == (if old(fault).kind == FAULT_EIO then Some(EIO)
                      else if old(fault).kind == FAULT_DISCONNECT then Some(ENODEV) else None)
      ensures limit == (if old(fault).kind == FAULT_PARTIAL_READ then old(fault).partialBytes else partialBytes)
      ensures applied == (delayApplied || old(fault).kind == FAULT_DELAY)
      ensures delayMs == (if old(fault).kind == FAULT_DELAY && !delayApplied then old(fault).delayMs else 0)
    {
      applied, limit, delayMs, ret := delayApplied, partialBytes, 0, None;
      if fault.kind == FAULT_EIO {
        fault := fault.(repeat := fault.repeat - 1);
        if fault.repeat == 0 {
          fault := NoFault;
        }
        ret := Some(EIO);
      } else if fault.kind == FAULT_DELAY {
        if !applied {
          delayMs := fault.delayMs;
          applied := true;
        }
      } else if fault.kind == FAULT_PARTIAL_READ {
        limit := fault.partialBytes;
      } else if fault.kind == FAULT_DISCONNECT {
        ret := Some(ENODEV);
      }
    }

    /** vdevlab_read. None: the wait predicate is false, and with no other call
        running the reader stays asleep. */
    method Read(count: nat, nonblock: bool) returns (result: Option<Result>)
      requires Valid()
      modifies this
      ensures Valid() && Outcome(View(), result) == SoloRead(old(View()), count, nonblock)
    {
      if count == 0 {
        return Some(Data([]));
      }
      var applied, limit, delayMs, ret := ApplyReadFault(false, 0);
      if ret.Some? {
        return Some(Failed(ret.value));
      }
      if fifo == [] {
        return if nonblock then Some(Failed(EAGAIN)) else None;
      }
      var toCopy := if count < |fifo| then count else |fifo|;
      if limit != 0 && limit < toCopy {
        toCopy := limit;
      }
      result := Some(Data(fifo[..toCopy]));
      fifo := fifo[toCopy..];
    }

    /** vdevlab_write. */
    method Write(data: seq<Byte>, nonblock: bool) returns (result: Option<Result>)
      requires Valid()
      modifies this`fifo
      ensures Valid() && Outcome(View(), result) == SoloWrite(old(View()), data, nonblock)
    {
      if data == [] {
        return Some(Wrote(0));
      }
      if fault.kind == FAULT_DISCONNECT {
        return Some(Failed(ENODEV));
      }
      if |fifo| == FIFO_SIZE {
        return if nonblock then Some(Failed(EAGAIN)) else None;
      }
      var available := FIFO_SIZE - |fifo|;
      var toCopy := if |data| < available then |data| else available;
      fifo := fifo + data[..toCopy];
      result := Some(Wrote(toCopy));
    }

    /** vdevlab_poll behind poll(2); None is a poll that would sleep. */
    method Poll(wantIn: bool, wantOut: bool) returns (result: Option<Result>)
      requires Valid()
      ensures Outcome(View(), result) == SoloPoll(View(), wantIn, wantOut)
    {
      var mask := NoMask;
      if fault.kind == FAULT_DISCONNECT {
        mask := mask.(err := true, hup := true);
      } else if fault.kind == FAULT_EIO {
        mask := mask.(err := true);
      } else {
        mask := mask.(pollIn := fifo != [], pollOut := |fifo| != FIFO_SIZE);
      }
      mask := mask.(pollIn := mask.pollIn && wantIn, pollOut := mask.pollOut && wantOut);
      result := if mask == NoMask then None else Some(Ready(mask));
    }

    /** The switch of SET_FAULT on its copy of the argument; None is -EINVAL. */
    method Validate(argument: Config) returns (stored: Option<Config>)
      ensures stored == Normalise(argument)
    {
      var config := argument;
      if config.kind > FAULT_PARTIAL_READ {
        return None;
      }
      if config.kind == FAULT_EIO {
        if config.repeat == 0 || config.repeat > MAX_FAULT_REPEAT {
          return None;
        }
        config := config.(delayMs := 0, partialBytes := 0);
      } else if config.kind == FAULT_DELAY {
        if config.delayMs == 0 || config.delayMs > MAX_DELAY_MS {
          return None;
        }
        config := config.(repeat := 0, partialBytes := 0);
      } else if config.kind == FAULT_PARTIAL_READ {
        if config.partialBytes == 0 || config.partialBytes > MAX_PARTIAL_READ {
          return None;
        }
        config := config.(repeat := 0, delayMs := 0);
      } else {
        config := config.(repeat := 0, delayMs := 0, partialBytes := 0);
      }
      stored := Some(config);
    }

    /** The control half of vdevlab_ioctl. */
    method Ioctl(call: Call) returns (result: Result)
      requires Valid() && (call.SetFault? || call.GetFault? || call.ClearFault? || call.Reset? || call.Unsupported?)
      modifies this
      ensures Valid() && Outcome(View(), Some(result)) == Solo(old(View()), call)
      ensures call.SetFault? ==> result == (if Settable(call.config) then Success else Failed(EINVAL))
    {
      match call
      case SetFault(config) =>
        NormaliseCanonical(config);
        SetFaultRange(config);
        var n := Validate(config);
        if n.None? {
          return Failed(EINVAL);
        }
        fault := n.value;
        result := Success;
      case GetFault =>
        result := Got(fault);
      case ClearFault =>
        fault := NoFault;
        result := Success;
      case Reset =>
        fault := NoFault;
        fifo := [];
        result := Success;
      case Unsupported =>
        result := Failed(ENOTTY);
    }
  }
}
