// Mutual exclusion, lock order and the absence of lost wake-ups, in every state
// any number of concurrent calls can reach.

module DeviceLocks {
  import opened Common
  import opened Device

  // ---- locks ----

  predicate HoldsFault(pc: Pc) {
    match pc
    case R(r, _) => r.RCheck? || r.RCheckUnlock?
    case I(i) => i.IStore? || i.IUnlock? || i.GCopy? || i.GUnlock? || i.XLockFifo? || i.XClear? ||
      i.XFifo? || i.XUnlockFifo? || i.XUnlockFault?
    case _ => false
  }

  predicate HoldsFifo(pc: Pc) {
    match pc
    case R(r, _) => r.RLook? || r.RMissUnlock? || r.RCopy? || r.RCopyUnlock?
    case W(w) => w.WLook? || w.WMissUnlock? || w.WCopy? || w.WCopyUnlock?
    case P(p, _) => p.PMask? || p.PUnlock?
    case I(i) => i.XClear? || i.XFifo? || i.XUnlockFifo?
    case Done(_) => false
  }

  predicate WantsFault(pc: Pc) {
    (pc.R? && pc.r.RCheckLock?) || (pc.I? && (pc.i.ILock? || pc.i.GLock? || pc.i.XLockFault?))
  }

  predicate ReaderAsleep(pc: Pc) {
    pc.R? && pc.r.RAsleep?
  }

  predicate WriterAsleep(pc: Pc) {
    pc.W? && pc.w.WAsleep?
  }

  predicate PollerAsleep(pc: Pc) {
    pc.P? && pc.p.PAsleep?
  }

  predicate Owns(lock: Option<Id>, id: Id) {
    lock == Some(id)
  }

  ghost predicate CallLocks(sh: Shared, id: Id, a: Activity) {
    Fits(a.call, a.pc) &&
    (HoldsFault(a.pc) <==> Owns(sh.faultLock, id)) &&
    (HoldsFifo(a.pc) <==> Owns(sh.fifoLock, id))
  }

  ghost predicate LockInv(s: State) {
    (forall id :: id in s.calls ==> CallLocks(s.sh, id, s.calls[id])) &&
    (s.sh.faultLock.Some? ==> s.sh.faultLock.value in s.calls) &&
    (s.sh.fifoLock.Some? ==> s.sh.fifoLock.value in s.calls)
  }

  /** A mutex changes hands only through a free state, and only for the stepping call. */
  predicate LockMove(before: Option<Id>, after: Option<Id>, id: Id) {
    after == before || (before == None && after == Some(id)) || (before == Some(id) && after == None)
  }

  /** What one step must do with the locks. */
  ghost predicate LocksKept(sh: Shared, id: Id, call: Call, e: Effect) {
    CallLocks(e.sh, id, Activity(call, e.pc)) &&
    LockMove(sh.faultLock, e.sh.faultLock, id) &&
    LockMove(sh.fifoLock, e.sh.fifoLock, id)
  }

  lemma ReadLocks(sh: Shared, id: Id, call: Call, r: ReadPc, loc: ReadLocals, c: Choice)
    requires call.Read? && CanRead(sh, call, r, loc, c)
    requires CallLocks(sh, id, Activity(call, R(r, loc)))
    ensures LocksKept(sh, id, call, ReadStep(sh, id, call, r, loc, c))
  {}

  lemma WriteLocks(sh: Shared, id: Id, call: Call, w: WritePc, c: Choice)
    requires call.Write? && CanWrite(sh, call, w, c)
    requires CallLocks(sh, id, Activity(call, W(w)))
    ensures LocksKept(sh, id, call, WriteStep(sh, id, call, w, c))
  {}

  lemma PollLocks(sh: Shared, id: Id, call: Call, p: PollPc, t: bool, c: Choice)
    requires call.Poll? && CanPoll(sh, p, c)
    requires CallLocks(sh, id, Activity(call, P(p, t)))
    ensures LocksKept(sh, id, call, PollStep(sh, id, call, p, t, c))
  {}

  lemma IoctlLocks(sh: Shared, id: Id, call: Call, i: IoctlPc, c: Choice)
    requires IoctlFits(call, i) && CanIoctl(sh, i, c)
    requires CallLocks(sh, id, Activity(call, I(i)))
    ensures LocksKept(sh, id, call, IoctlStep(sh, id, call, i, c))
  {}

  lemma LocalLocks(sh: Shared, id: Id, call: Call, pc: Pc, c: Choice)
    requires CanStep(sh, call, pc, c) && CallLocks(sh, id, Activity(call, pc))
    ensures LocksKept(sh, id, call, Local(sh, id, call, pc, c))
  {
    match pc
    case R(r, loc) => ReadLocks(sh, id, call, r, loc, c);
    case W(w) => WriteLocks(sh, id, call, w, c);
    case P(p, t) => PollLocks(sh, id, call, p, t, c);
    case I(i) => IoctlLocks(sh, id, call, i, c);
  }

  lemma WokenKeepsLocks(sh: Shared, id: Id, a: Activity, wake: Wake)
    ensures CallLocks(sh, id, a) <==> CallLocks(sh, id, Activity(a.call, Woken(a.pc, wake)))
  {}

  lemma ApplyLocks(s: State, id: Id, call: Call, e: Effect)
    requires LockInv(s) && id in s.calls && LocksKept(s.sh, id, call, e)
    ensures LockInv(Apply(s, id, call, e))
  {
    var s' := Apply(s, id, call, e);
    forall i | i in s'.calls
      ensures CallLocks(s'.sh, i, s'.calls[i])
    {
      if i != id {
        assert CallLocks(s.sh, i, s.calls[i]);
        WokenKeepsLocks(s.sh, i, s.calls[i], e.wake);
      }
    }
  }

  lemma LocksStep(s: State, id: Id, a: Action)
    requires LockInv(s) && Enabled(s, id, a)
    ensures LockInv(Next(s, id, a))
  {
    match a
    case Step(c) =>
      var act := s.calls[id];
      assert CallLocks(s.sh, id, act);
      LocalLocks(s.sh, id, act.call, act.pc, c);
      ApplyLocks(s, id, act.call, Local(s.sh, id, act.call, act.pc, c));
    case Begin(call) =>
      var s' := Next(s, id, a);
      forall i | i in s'.calls ensures CallLocks(s'.sh, i, s'.calls[i]) {
        if i != id {
          assert CallLocks(s.sh, i, s.calls[i]);
        }
      }
  }

  // ---- pending wake-ups ----

  /** The call is past a change and has yet to wake the read queue. */
  predicate WillWakeReaders(pc: Pc) {
    (pc.I? && (pc.i.IUnlock? || pc.i.IWakeReaders? || pc.i.XUnlockFifo? || pc.i.XUnlockFault?)) ||
    (pc.W? && (pc.w.WCopyUnlock? || pc.w.WWake?) && pc.w.put > 0)
  }

  predicate WillWakeWriters(pc: Pc) {
    (pc.I? && (pc.i.IUnlock? || pc.i.IWakeReaders? || pc.i.IWakeWriters? || pc.i.XUnlockFifo? || pc.i.XUnlockFault?)) ||
    (pc.R? && (pc.r.RCopyUnlock? || pc.r.RWake?) && pc.r.got != [])
  }

  predicate PollCondition(sh: Shared, call: Call)
    requires call.Poll?
  {
    InterruptsRead(sh.fault) || (call.wantIn && sh.fifo != []) || (call.wantOut && !Full(sh.fifo))
  }

  /** A poller that is asleep, or is bound to fall asleep on what it has seen so
      far, although what it polls for has become true. */
  predicate BlindPoll(sh: Shared, call: Call, pc: Pc) {
    call.Poll? && pc.P? &&
    (((pc.p.PFifoLock? || pc.p.PMask?) && !pc.triggered && InterruptsRead(sh.fault)) ||
     ((pc.p.PUnlock? || pc.p.PDecide?) && !pc.triggered && !ReadyFor(call, pc.p.mask) && PollCondition(sh, call)) ||
     (pc.p.PAsleep? && PollCondition(sh, call)))
  }

  predicate BlindRead(sh: Shared, pc: Pc) {
    ReaderAsleep(pc) && ReadCondition(sh)
  }

  predicate BlindWrite(sh: Shared, pc: Pc) {
    WriterAsleep(pc) && WriteCondition(sh)
  }

  ghost predicate ReadWakePending(s: State) {
    exists id :: id in s.calls && WillWakeReaders(s.calls[id].pc)
  }

  ghost predicate WriteWakePending(s: State) {
    exists id :: id in s.calls && WillWakeWriters(s.calls[id].pc)
  }

  /** No call sleeps through a change that concerns it unless the wake-up for that
      change is still to come. */
  ghost predicate NoLostWakeup(s: State) {
    forall id :: id in s.calls ==>
      var a := s.calls[id];
      (BlindRead(s.sh, a.pc) ==> ReadWakePending(s)) &&
      (BlindWrite(s.sh, a.pc) ==> WriteWakePending(s)) &&
      (BlindPoll(s.sh, a.call, a.pc) ==> ReadWakePending(s) || WriteWakePending(s))
  }

  /** What one step does to the wait conditions and to its own pending wake-ups. */
  ghost predicate WakesOwed(sh: Shared, call: Call, pc: Pc, e: Effect) {
    && |e.sh.fifo| <= FIFO_SIZE
    && (!InterruptsRead(sh.fault) && InterruptsRead(e.sh.fault) ==> WillWakeReaders(e.pc))
    && (!Disconnected(sh.fault) && Disconnected(e.sh.fault) ==> WillWakeWriters(e.pc))
    && (sh.fifo == [] && e.sh.fifo != [] ==> WillWakeReaders(e.pc))
    && (Full(sh.fifo) && !Full(e.sh.fifo) ==> WillWakeWriters(e.pc))
    && (WillWakeReaders(pc) && !WillWakeReaders(e.pc) ==> e.wake.Readers?)
    && (WillWakeWriters(pc) && !WillWakeWriters(e.pc) ==> e.wake.Writers?)
    && !BlindRead(e.sh, e.pc) && !BlindWrite(e.sh, e.pc)
    && (BlindPoll(e.sh, call, e.pc) ==> BlindPoll(sh, call, pc) && e.wake.Nobody?)
  }

  lemma ReadWakes(sh: Shared, id: Id, call: Call, r: ReadPc, loc: ReadLocals, c: Choice)
    requires call.Read? && CanRead(sh, call, r, loc, c)
    requires |sh.fifo| <= FIFO_SIZE
    ensures WakesOwed(sh, call, R(r, loc), ReadStep(sh, id, call, r, loc, c))
  {}

  lemma WriteWakes(sh: Shared, id: Id, call: Call, w: WritePc, c: Choice)
    requires call.Write? && CanWrite(sh, call, w, c)
    requires |sh.fifo| <= FIFO_SIZE
    ensures WakesOwed(sh, call, W(w), WriteStep(sh, id, call, w, c))
  {}

  lemma PollWakes(sh: Shared, id: Id, call: Call, p: PollPc, t: bool, c: Choice)
    requires call.Poll? && CanPoll(sh, p, c)
    requires |sh.fifo| <= FIFO_SIZE
    ensures WakesOwed(sh, call, P(p, t), PollStep(sh, id, call, p, t, c))
  {}

  lemma IoctlWakes(sh: Shared, id: Id, call: Call, i: IoctlPc, c: Choice)
    requires IoctlFits(call, i) && CanIoctl(sh, i, c)
    requires |sh.fifo| <= FIFO_SIZE
    ensures WakesOwed(sh, call, I(i), IoctlStep(sh, id, call, i, c))
  {}

  lemma LocalWakes(sh: Shared, id: Id, call: Call, pc: Pc, c: Choice)
    requires CanStep(sh, call, pc, c) && |sh.fifo| <= FIFO_SIZE
    ensures WakesOwed(sh, call, pc, Local(sh, id, call, pc, c))
  {
    match pc
    case R(r, loc) => ReadWakes(sh, id, call, r, loc, c);
    case W(w) => WriteWakes(sh, id, call, w, c);
    case P(p, t) => PollWakes(sh, id, call, p, t, c);
    case I(i) => IoctlWakes(sh, id, call, i, c);
  }

  ghost predicate WakeInv(s: State) {
    LockInv(s) && |s.sh.fifo| <= FIFO_SIZE && NoLostWakeup(s)
  }

  lemma WokenKeepsPending(pc: Pc, wake: Wake)
    ensures WillWakeReaders(Woken(pc, wake)) == WillWakeReaders(pc)
    ensures WillWakeWriters(Woken(pc, wake)) == WillWakeWriters(pc)
  {}

  /** A wake-up pending before a step is still pending after it, or has just been given. */
  lemma PendingAfter(s: State, id: Id, e: Effect)
    requires id in s.calls && WakesOwed(s.sh, s.calls[id].call, s.calls[id].pc, e)
    ensures var s' := Apply(s, id, s.calls[id].call, e);
            (ReadWakePending(s) ==> ReadWakePending(s') || e.wake.Readers?) &&
            (WriteWakePending(s) ==> WriteWakePending(s') || e.wake.Writers?) &&
            (WillWakeReaders(e.pc) ==> ReadWakePending(s')) &&
            (WillWakeWriters(e.pc) ==> WriteWakePending(s'))
  {
    var s' := Apply(s, id, s.calls[id].call, e);
    assert s'.calls[id].pc == e.pc;
    if ReadWakePending(s) && !e.wake.Readers? {
      var i :| i in s.calls && WillWakeReaders(s.calls[i].pc);
      WokenKeepsPending(s.calls[i].pc, e.wake);
      assert i in s'.calls && WillWakeReaders(s'.calls[i].pc);
    }
    if WriteWakePending(s) && !e.wake.Writers? {
      var i :| i in s.calls && WillWakeWriters(s.calls[i].pc);
      WokenKeepsPending(s.calls[i].pc, e.wake);
      assert i in s'.calls && WillWakeWriters(s'.calls[i].pc);
    }
  }

  /** A sleeper that another call's step leaves blind was blind before and was not
      woken, or the stepping call now owes it a wake-up. */
  lemma BlindBystander(sh: Shared, call: Call, pc: Pc, e: Effect, other: Activity)
    requires WakesOwed(sh, call, pc, e)
    ensures var pc' := Woken(other.pc, e.wake);
            (BlindRead(e.sh, pc') ==> (BlindRead(sh, other.pc) && !e.wake.Readers?) || WillWakeReaders(e.pc)) &&
            (BlindWrite(e.sh, pc') ==> (BlindWrite(sh, other.pc) && !e.wake.Writers?) || WillWakeWriters(e.pc)) &&
            (BlindPoll(e.sh, other.call, pc') ==>
              (BlindPoll(sh, other.call, other.pc) && e.wake.Nobody?) || WillWakeReaders(e.pc) || WillWakeWriters(e.pc))
  {}

  lemma ApplyWakes(s: State, id: Id, e: Effect)
    requires NoLostWakeup(s) && id in s.calls
    requires WakesOwed(s.sh, s.calls[id].call, s.calls[id].pc, e)
    ensures NoLostWakeup(Apply(s, id, s.calls[id].call, e))
  {
    var act := s.calls[id];
    var s' := Apply(s, id, act.call, e);
    PendingAfter(s, id, e);
    forall i | i in s'.calls
      ensures BlindRead(s'.sh, s'.calls[i].pc) ==> ReadWakePending(s')
      ensures BlindWrite(s'.sh, s'.calls[i].pc) ==> WriteWakePending(s')
      ensures BlindPoll(s'.sh, s'.calls[i].call, s'.calls[i].pc) ==> ReadWakePending(s') || WriteWakePending(s')
    {
      if i != id {
        BlindBystander(s.sh, act.call, act.pc, e, s.calls[i]);
      }
    }
  }

  lemma WakeStep(s: State, id: Id, a: Action)
    requires WakeInv(s) && Enabled(s, id, a)
    ensures WakeInv(Next(s, id, a))
  {
    LocksStep(s, id, a);
    match a
    case Step(c) =>
      var act := s.calls[id];
      LocalWakes(s.sh, id, act.call, act.pc, c);
      ApplyWakes(s, id, Local(s.sh, id, act.call, act.pc, c));
    case Begin(call) =>
      var s' := Next(s, id, a);
      forall i | i in s.calls ensures i in s'.calls && s'.calls[i] == s.calls[i] {}
      assert !BlindPoll(s'.sh, call, Entry(call));
  }

  // ---- over whole runs ----

  lemma {:induction false} WakeInvAlong(s: State, run: seq<Move>)
    requires WakeInv(s) && Legal(s, run)
    ensures WakeInv(Exec(s, run))
    decreases |run|
  {
    if run != [] {
      WakeStep(s, run[0].id, run[0].action);
      WakeInvAlong(Next(s, run[0].id, run[0].action), run[1..]);
    }
  }

  lemma ReachableWakeInv(s: State)
    requires Reachable(s)
    ensures WakeInv(s)
  {
    var run :| Legal(Init, run) && Exec(Init, run) == s;
    WakeInvAlong(Init, run);
  }

  /** No lost wake-up, in every reachable state and for every number of callers. */
  lemma NoSleeperIsForgotten(s: State, id: Id)
    requires Reachable(s) && id in s.calls
    ensures ReaderAsleep(s.calls[id].pc) && ReadCondition(s.sh) ==> ReadWakePending(s)
    ensures WriterAsleep(s.calls[id].pc) && WriteCondition(s.sh) ==> WriteWakePending(s)
    ensures PollerAsleep(s.calls[id].pc) && s.calls[id].call.Poll? && PollCondition(s.sh, s.calls[id].call) ==>
              ReadWakePending(s) || WriteWakePending(s)
  {
    ReachableWakeInv(s);
  }

  // ---- deadlock freedom ----

  /** The call can move without a signal, a timeout or a bad pointer. */
  predicate Able(s: State, id: Id)
    requires id in s.calls
  {
    CanStep(s.sh, s.calls[id].call, s.calls[id].pc, Normal(s.sh, s.calls[id].call, s.calls[id].pc))
  }

  lemma LockDiscipline(s: State, id: Id)
    requires Reachable(s) && id in s.calls
    ensures var pc := s.calls[id].pc;
            (ReaderAsleep(pc) || WriterAsleep(pc) || PollerAsleep(pc) || (pc.R? && pc.r.RDelay?) ==> s.sh.faultLock != Some(id) && s.sh.fifoLock != Some(id)) &&
            (WantsFault(pc) ==> s.sh.fifoLock != Some(id))
    ensures forall j :: j in s.calls && j != id ==>
              !(HoldsFault(s.calls[id].pc) && HoldsFault(s.calls[j].pc)) &&
              !(HoldsFifo(s.calls[id].pc) && HoldsFifo(s.calls[j].pc))
  {
    ReachableWakeInv(s);
    assert CallLocks(s.sh, id, s.calls[id]);
    forall j | j in s.calls ensures CallLocks(s.sh, j, s.calls[j]) {}
  }

  lemma HolderCanStep(s: State)
    requires LockInv(s)
    requires s.sh.faultLock.Some? || s.sh.fifoLock.Some?
    ensures exists id :: id in s.calls && (s.sh.faultLock == Some(id) || s.sh.fifoLock == Some(id)) && Able(s, id)
  {
    var id := if s.sh.fifoLock.Some? then s.sh.fifoLock.value else s.sh.faultLock.value;
    assert CallLocks(s.sh, id, s.calls[id]);
    assert Able(s, id);
  }

  /** A state in which nothing moves by itself is one where every unfinished call
      sleeps for a reason that still holds. It joins mutual exclusion, lock order
      and the wake-up protocol. */
  lemma QuiescentOnlyByRight(s: State)
    requires Reachable(s)
    requires forall id :: id in s.calls ==> !Able(s, id)
    ensures s.sh.faultLock == None && s.sh.fifoLock == None
    ensures forall id :: id in s.calls ==>
              var a := s.calls[id];
              a.pc.Done? ||
              (ReaderAsleep(a.pc) && !ReadCondition(s.sh)) ||
              (WriterAsleep(a.pc) && !WriteCondition(s.sh)) ||
              (PollerAsleep(a.pc) && a.call.Poll? && !PollCondition(s.sh, a.call))
    ensures !(exists r, w :: r in s.calls && w in s.calls && ReaderAsleep(s.calls[r].pc) && WriterAsleep(s.calls[w].pc))
  {
    ReachableWakeInv(s);
    if s.sh.faultLock.Some? || s.sh.fifoLock.Some? {
      HolderCanStep(s);
      assert false;
    }
    forall id | id in s.calls
      ensures !WillWakeReaders(s.calls[id].pc) && !WillWakeWriters(s.calls[id].pc)
      ensures s.calls[id].pc.Done? || ReaderAsleep(s.calls[id].pc) || WriterAsleep(s.calls[id].pc) || PollerAsleep(s.calls[id].pc)
    {
      assert CallLocks(s.sh, id, s.calls[id]) && !Able(s, id);
    }
    forall id | id in s.calls
      ensures var a := s.calls[id];
              a.pc.Done? ||
              (ReaderAsleep(a.pc) && !ReadCondition(s.sh)) ||
              (WriterAsleep(a.pc) && !WriteCondition(s.sh)) ||
              (PollerAsleep(a.pc) && a.call.Poll? && !PollCondition(s.sh, a.call))
    {
      assert CallLocks(s.sh, id, s.calls[id]);
    }
  }
}
