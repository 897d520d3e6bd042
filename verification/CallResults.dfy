// What a finished call's result says, over every interleaving: which errno comes
// from what, what a control call has stored, and that a call which does not block
// never waits.

module CallResults {
  import opened Common
  import opened Device
  import opened DeviceLocks
  import opened DeviceLedger
  import opened StaleLimit

  // ---- what the log says ----

  /** The faults this call has stored. */
  function StoredBy(log: Log, id: Id): seq<Config> {
    match log
    case Start => []
    case Then(l, e) => if e.Stored? && e.id == id then StoredBy(l, id) + [e.config] else StoredBy(l, id)
  }

  /** This very fault was in force at some moment of the log. */
  predicate WasInForce(log: Log, c: Config) {
    Replay(log) == c || (log.Then? && WasInForce(log.before, c))
  }

  predicate WasDisconnected(log: Log) {
    WasInForce(log, Config(3, 0, 0, 0))
  }

  /** The FIFO as the log leaves it. */
  function FifoAfter(log: Log): seq<Byte> {
    if |DrainedBytes(log)| <= |AcceptedBytes(log)| then AcceptedBytes(log)[|DrainedBytes(log)|..] else []
  }

  lemma FifoIsAfterLog(sh: Shared, log: Log)
    requires Balanced(sh, log)
    ensures FifoAfter(log) == sh.fifo
  {}

  predicate WasOfKind(log: Log, kind: U32) {
    Replay(log).kind == kind || (log.Then? && WasOfKind(log.before, kind))
  }

  predicate WasReadable(log: Log) {
    FifoAfter(log) != [] || (log.Then? && WasReadable(log.before))
  }

  predicate WasWritable(log: Log) {
    |FifoAfter(log)| < 4096 || (log.Then? && WasWritable(log.before))
  }

  // ---- poll ----

  /** Every bit was true at some moment: error with hang-up for a disconnect, error alone
      for EIO, and then no others; otherwise what the FIFO allowed. */
  predicate MaskSeen(log: Log, mask: Mask) {
    && (mask.hup ==> mask.err && WasOfKind(log, 3))
    && (mask.err ==> !mask.pollIn && !mask.pollOut && (mask.hup || WasOfKind(log, 1)))
    && (mask.pollIn ==> WasReadable(log))
    && (mask.pollOut ==> WasWritable(log))
  }

  predicate PollResultRight(log: Log, call: Call, r: Result)
    requires call.Poll?
  {
    r == Failed(ERESTARTSYS) ||
    (r.Ready? && MaskSeen(log, r.mask) && (r.mask.pollIn ==> call.wantIn) && (r.mask.pollOut ==> call.wantOut))
  }

  predicate PollRight(log: Log, call: Call, pc: Pc) {
    call.Poll? ==>
      && (pc.P? && (pc.p.PUnlock? || pc.p.PDecide?) ==> MaskSeen(log, pc.p.mask))
      && (pc.Done? ==> PollResultRight(log, call, pc.result))
  }

  // ---- reads and writes ----

  /** The last fault the call met does not refuse reads. */
  predicate Calm(seen: Option<Config>) {
    seen.None? || (seen.value.kind != 1 && seen.value.kind != 3)
  }

  predicate RefusedFor(seen: Option<Config>, e: Errno) {
    seen.Some? && ((e == EIO && seen.value.kind == 1) || (e == ENODEV && seen.value.kind == 3))
  }

  /** -EIO and -ENODEV exactly after a check that met that fault, -EAGAIN only if the
      call does not block; the rest are signals and bad pointers. */
  predicate ReadResultRight(call: Call, seen: Option<Config>, r: Result)
    requires call.Read?
  {
    (r.Failed? && RefusedFor(seen, r.errno)) ||
    (Calm(seen) && (r.Data? || r == Failed(ERESTARTSYS) || r == Failed(EFAULT) || (r == Failed(EAGAIN) && call.nonblock)))
  }

  predicate ReadRight(log: Log, id: Id, call: Call, pc: Pc) {
    call.Read? ==>
      && (pc.R? ==> if pc.r.RCheckUnlock? && pc.r.verdict.Fail? then RefusedFor(LastSeen(log, id), pc.r.verdict.errno)
                    else Calm(LastSeen(log, id)))
      && (pc.R? && call.nonblock ==> !pc.r.RWait? && !pc.r.RAsleep?)
      && (pc.Done? ==> ReadResultRight(call, LastSeen(log, id), pc.result))
  }

  predicate WriteResultRight(log: Log, call: Call, r: Result)
    requires call.Write?
  {
    r.Wrote? || (r == Failed(ENODEV) && WasDisconnected(log)) || r == Failed(ERESTARTSYS) || r == Failed(EFAULT) ||
    (r == Failed(EAGAIN) && call.nonblock)
  }

  predicate WriteRight(log: Log, call: Call, pc: Pc) {
    call.Write? ==>
      && (pc.W? && call.nonblock ==> !pc.w.WWait? && !pc.w.WAsleep? && !pc.w.WRecheck?)
      && (pc.W? && !call.nonblock ==> !pc.w.WFull?)
      && (pc.Done? ==> WriteResultRight(log, call, pc.result))
  }

  // ---- control calls ----

  predicate StoredOwn(stored: seq<Config>, c: Config) {
    Settable(c) && |stored| == 1 && OwnFieldOnly(c, stored[0])
  }

  predicate SetRight(stored: seq<Config>, c: Config, pc: Pc) {
    (pc == I(IValidate) && stored == []) ||
    (pc.I? && (pc.i.ILock? || pc.i.IStore?) && stored == [] && Settable(c) && OwnFieldOnly(c, pc.i.config)) ||
    (pc.I? && (pc.i.IUnlock? || pc.i.IWakeReaders? || pc.i.IWakeWriters?) && StoredOwn(stored, c)) ||
    (pc.Done? && SetResultRight(stored, c, pc.result))
  }

  /** Success with the fault stored, -EINVAL exactly out of range, or a bad pointer. */
  predicate SetResultRight(stored: seq<Config>, c: Config, r: Result) {
    (r == Success && StoredOwn(stored, c)) ||
    (r == Failed(EINVAL) && stored == [] && !Settable(c)) ||
    (r == Failed(EFAULT) && stored == [])
  }

  /** CLEAR_FAULT and RESET store the empty fault, once, and succeed. */
  predicate ClearRight(stored: seq<Config>, pc: Pc) {
    (pc.I? && (pc.i.ILock? || pc.i.IStore?) && pc.i.config == Config(0, 0, 0, 0) && stored == []) ||
    (pc.I? && (pc.i.XLockFault? || pc.i.XLockFifo? || pc.i.XClear?) && stored == []) ||
    (pc.I? && !pc.i.ILock? && !pc.i.IStore? && !pc.i.XLockFault? && !pc.i.XLockFifo? && !pc.i.XClear? &&
     stored == [Config(0, 0, 0, 0)]) ||
    (pc == Done(Success) && stored == [Config(0, 0, 0, 0)])
  }

  /** GET_FAULT reports a fault that was in force. */
  predicate GetRight(log: Log, pc: Pc) {
    (pc.I? && (pc.i.GUnlock? || pc.i.GOut?) ==> WasInForce(log, pc.i.config)) &&
    (pc.Done? ==> pc.result == Failed(EFAULT) || (pc.result.Got? && WasInForce(log, pc.result.config)))
  }

  predicate ControlRight(log: Log, id: Id, call: Call, pc: Pc) {
    var stored := StoredBy(log, id);
    && (call.SetFault? ==> SetRight(stored, call.config, pc))
    && (call.ClearFault? || call.Reset? ==> ClearRight(stored, pc))
    && (!call.SetFault? && !call.ClearFault? && !call.Reset? ==> stored == [])
    && (call.GetFault? ==> GetRight(log, pc))
    && (call.Unsupported? ==> pc == Done(Failed(ENOTTY)))
  }

  predicate Right(log: Log, id: Id, call: Call, pc: Pc) {
    Fits(call, pc) && ReadRight(log, id, call, pc) && WriteRight(log, call, pc) && PollRight(log, call, pc) &&
    ControlRight(log, id, call, pc)
  }

  ghost predicate RightInv(s: State) {
    && (forall id :: id in s.calls ==> Right(s.log, id, s.calls[id].call, s.calls[id].pc))
    && (forall id :: id !in s.calls ==> Seen(s.log, id) == [] && StoredBy(s.log, id) == [])
  }

  // ---- one step ----

  lemma ReadStepRight(sh: Shared, log: Log, id: Id, call: Call, r: ReadPc, loc: ReadLocals, c: Choice)
    requires call.Read? && CanRead(sh, call, r, loc, c) && Canonical(sh.fault)
    requires Right(log, id, call, R(r, loc))
    ensures var e := ReadStep(sh, id, call, r, loc, c);
            Right(Append(log, e.event), id, call, e.pc)
  {}

  lemma WriteStepRight(sh: Shared, log: Log, id: Id, call: Call, w: WritePc, c: Choice)
    requires call.Write? && CanWrite(sh, call, w, c) && Canonical(sh.fault) && sh.fault == Replay(log)
    requires Right(log, id, call, W(w))
    ensures var e := WriteStep(sh, id, call, w, c);
            Right(Append(log, e.event), id, call, e.pc)
  {}

  lemma PollStepRight(sh: Shared, log: Log, id: Id, call: Call, p: PollPc, t: bool, c: Choice)
    requires call.Poll? && CanPoll(sh, p, c) && sh.fault == Replay(log) && sh.fifo == FifoAfter(log)
    requires Right(log, id, call, P(p, t))
    ensures var e := PollStep(sh, id, call, p, t, c);
            Right(Append(log, e.event), id, call, e.pc)
  {}

  lemma IoctlStepRight(sh: Shared, log: Log, id: Id, call: Call, i: IoctlPc, c: Choice)
    requires IoctlFits(call, i) && CanIoctl(sh, i, c) && sh.fault == Replay(log)
    requires Right(log, id, call, I(i))
    ensures var e := IoctlStep(sh, id, call, i, c);
            Right(Append(log, e.event), id, call, e.pc)
  {
    if call.SetFault? {
      SetFaultRange(call.config);
    }
  }

  lemma LocalRight(sh: Shared, log: Log, id: Id, call: Call, pc: Pc, c: Choice)
    requires CanStep(sh, call, pc, c) && Canonical(sh.fault) && sh.fault == Replay(log) && sh.fifo == FifoAfter(log)
    requires Right(log, id, call, pc)
    ensures var e := Local(sh, id, call, pc, c);
            Right(Append(log, e.event), id, call, e.pc)
  {
    match pc
    case R(r, loc) => ReadStepRight(sh, log, id, call, r, loc, c);
    case W(w) => WriteStepRight(sh, log, id, call, w, c);
    case P(p, t) => PollStepRight(sh, log, id, call, p, t, c);
    case I(i) => IoctlStepRight(sh, log, id, call, i, c);
  }

  lemma BystanderRight(log: Log, i: Id, call: Call, pc: Pc, id: Id, event: Option<Event>, wake: Wake)
    requires Right(log, i, call, pc) && id != i
    requires event.Some? ==> event.value.id == id
    ensures Right(Append(log, event), i, call, Woken(pc, wake))
  {}

  lemma EntryRight(log: Log, id: Id, call: Call)
    requires Seen(log, id) == [] && StoredBy(log, id) == []
    ensures Right(log, id, call, Entry(call))
  {}

  lemma ApplyRight(s: State, id: Id, e: Effect)
    requires RightInv(s) && id in s.calls && (e.event.Some? ==> e.event.value.id == id)
    requires Right(Append(s.log, e.event), id, s.calls[id].call, e.pc)
    ensures RightInv(Apply(s, id, s.calls[id].call, e))
  {
    var s' := Apply(s, id, s.calls[id].call, e);
    forall i | i in s'.calls ensures Right(s'.log, i, s'.calls[i].call, s'.calls[i].pc) {
      if i != id {
        BystanderRight(s.log, i, s.calls[i].call, s.calls[i].pc, id, e.event, e.wake);
      }
    }
  }

  lemma RightStep(s: State, id: Id, a: Action)
    requires LedgerInv(s) && RightInv(s) && Enabled(s, id, a)
    ensures RightInv(Next(s, id, a))
  {
    match a
    case Begin(call) =>
      EntryRight(s.log, id, call);
      var s' := Next(s, id, a);
      forall i | i in s'.calls ensures Right(s'.log, i, s'.calls[i].call, s'.calls[i].pc) {
        if i != id {
          assert i in s.calls;
        }
      }
    case Step(c) =>
      var act := s.calls[id];
      assert CallOk(s.log, id, act.call, act.pc);
      LocalAccounted(s.sh, id, act.call, act.pc, c);
      FifoIsAfterLog(s.sh, s.log);
      LocalRight(s.sh, s.log, id, act.call, act.pc, c);
      ApplyRight(s, id, Local(s.sh, id, act.call, act.pc, c));
  }

  lemma {:induction false} RightAlong(s: State, run: seq<Move>)
    requires LedgerInv(s) && RightInv(s) && Legal(s, run)
    ensures RightInv(Exec(s, run))
    decreases |run|
  {
    if run != [] {
      LedgerStep(s, run[0].id, run[0].action);
      RightStep(s, run[0].id, run[0].action);
      RightAlong(Next(s, run[0].id, run[0].action), run[1..]);
    }
  }

  lemma ReachableRight(s: State)
    requires Reachable(s)
    ensures RightInv(s)
  {
    var boot :| Legal(Init, boot) && Exec(Init, boot) == s;
    InitInv();
    RightAlong(Init, boot);
  }

  // ---- the theorems ----

  /** Results of reads and writes in every interleaving: -EIO and -ENODEV are what the
      read's last fault check met, and then always; a write is refused only if the
      device was disconnected; -EAGAIN goes only to a call that does not block, and
      such a call never waits for the other side. */
  lemma TransfersFailForAReason(s: State, id: Id)
    requires Reachable(s) && id in s.calls && (s.calls[id].call.Read? || s.calls[id].call.Write?)
    ensures var call, pc := s.calls[id].call, s.calls[id].pc;
            && (call.Read? && pc.Done? ==> ReadResultRight(call, LastSeen(s.log, id), pc.result))
            && (call.Write? && pc.Done? ==> WriteResultRight(s.log, call, pc.result))
            && (call.nonblock ==> !ReaderAsleep(pc) && !WriterAsleep(pc))
  {
    ReachableRight(s);
    assert Right(s.log, id, s.calls[id].call, s.calls[id].pc);
  }

  /** Results of poll(2) in every interleaving: each bit it reports was asked for, or is
      an error bit, and was true of the device at some moment. */
  lemma PollReportsWhatWas(s: State, id: Id)
    requires Reachable(s) && id in s.calls && s.calls[id].call.Poll? && s.calls[id].pc.Done?
    ensures PollResultRight(s.log, s.calls[id].call, s.calls[id].pc.result)
  {
    ReachableRight(s);
    assert Right(s.log, id, s.calls[id].call, s.calls[id].pc);
  }

  /** Results of control calls in every interleaving: SET_FAULT fails with -EINVAL
      exactly out of range (a bad pointer apart) and then has stored nothing, and
      otherwise has stored the fault with its own parameter, once; CLEAR_FAULT and
      RESET succeed and have stored the empty fault once; GET_FAULT reports a fault
      that was in force and stores nothing; anything else is -ENOTTY. */
  lemma ControlsDoWhatTheySay(s: State, id: Id)
    requires Reachable(s) && id in s.calls && s.calls[id].pc.Done?
    ensures var call, r, stored := s.calls[id].call, s.calls[id].pc.result, StoredBy(s.log, id);
            && (call.SetFault? && r != Failed(EFAULT) ==>
                  (r == Success <==> Settable(call.config)) && (r == Failed(EINVAL) <==> !Settable(call.config)))
            && (call.SetFault? && r == Success ==> |stored| == 1 && OwnFieldOnly(call.config, stored[0]))
            && (call.SetFault? && r != Success ==> stored == [])
            && (call.ClearFault? || call.Reset? ==> r == Success && stored == [Config(0, 0, 0, 0)])
            && (call.GetFault? ==> r == Failed(EFAULT) || (r.Got? && WasInForce(s.log, r.config)))
            && (call.GetFault? || call.Unsupported? || call.Read? || call.Write? || call.Poll? ==> stored == [])
            && (call.Unsupported? ==> r == Failed(ENOTTY))
  {
    ReachableRight(s);
    assert Right(s.log, id, s.calls[id].call, s.calls[id].pc);
  }

  // ---- runs without signals, timeouts and bad pointers ----

  predicate SmoothChoice(c: Choice) {
    !c.Abort? && !c.Expire? && c != Copied(0)
  }

  /** No signal arrives, no poll times out, and no user pointer is bad from the first
      byte. */
  predicate Smooth(m: Move) {
    m.action.Step? ==> SmoothChoice(m.action.choice)
  }

  predicate Unhurt(pc: Pc) {
    && (pc.R? && (pc.r.RCopyUnlock? || pc.r.RWake?) ==> pc.r.got != [])
    && (pc.W? && (pc.w.WCopyUnlock? || pc.w.WWake?) ==> pc.w.put > 0)
    && pc != Done(Failed(ERESTARTSYS)) && pc != Done(Failed(EFAULT)) && pc != Done(Ready(NoMask))
  }

  lemma LocalUnhurt(sh: Shared, id: Id, call: Call, pc: Pc, c: Choice)
    requires CanStep(sh, call, pc, c) && Canonical(sh.fault) && Unhurt(pc) && SmoothChoice(c)
    requires pc.R? && pc.r.RCheckUnlock? && pc.r.verdict.Fail? ==> pc.r.verdict.errno == EIO || pc.r.verdict.errno == ENODEV
    ensures Unhurt(Local(sh, id, call, pc, c).pc)
  {
    match pc
    case R(r, loc) =>
    case W(w) =>
    case P(p, t) =>
    case I(i) =>
  }

  ghost predicate AllUnhurt(s: State) {
    forall id :: id in s.calls ==> Unhurt(s.calls[id].pc)
  }

  lemma ApplyUnhurt(s: State, id: Id, e: Effect)
    requires AllUnhurt(s) && id in s.calls && Unhurt(e.pc)
    ensures AllUnhurt(Apply(s, id, s.calls[id].call, e))
  {}

  lemma UnhurtStep(s: State, id: Id, a: Action)
    requires LedgerInv(s) && RightInv(s) && AllUnhurt(s) && Enabled(s, id, a) && Smooth(Move(id, a))
    ensures AllUnhurt(Next(s, id, a))
  {
    match a
    case Begin(call) => assert Unhurt(Entry(call));
    case Step(c) =>
      var act := s.calls[id];
      assert ReadRight(s.log, id, act.call, act.pc) && Fits(act.call, act.pc) by {
        assert Right(s.log, id, act.call, act.pc);
      }
      LocalUnhurt(s.sh, id, act.call, act.pc, c);
      ApplyUnhurt(s, id, Local(s.sh, id, act.call, act.pc, c));
  }

  lemma {:induction false} UnhurtAlong(s: State, run: seq<Move>)
    requires LedgerInv(s) && RightInv(s) && AllUnhurt(s) && Legal(s, run)
    requires forall m :: m in run ==> Smooth(m)
    ensures AllUnhurt(Exec(s, run))
    decreases |run|
  {
    if run != [] {
      assert run[0] in run && run[0] == Move(run[0].id, run[0].action);
      LedgerStep(s, run[0].id, run[0].action);
      RightStep(s, run[0].id, run[0].action);
      UnhurtStep(s, run[0].id, run[0].action);
      UnhurtAlong(Next(s, run[0].id, run[0].action), run[1..]);
    }
  }

  /** -ERESTARTSYS, -EFAULT and a poll with nothing to report have no other cause: in a
      run without signals, timeouts and bad pointers no call returns them. */
  lemma OnlySignalsInterrupt(run: seq<Move>, id: Id)
    requires Legal(Init, run) && (forall m :: m in run ==> Smooth(m)) && id in Exec(Init, run).calls
    ensures var pc := Exec(Init, run).calls[id].pc;
            pc != Done(Failed(ERESTARTSYS)) && pc != Done(Failed(EFAULT)) && pc != Done(Ready(NoMask))
  {
    InitInv();
    UnhurtAlong(Init, run);
  }
}
