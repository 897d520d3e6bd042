// What calls may still do once DISCONNECT is in force.

module Disconnect {
  import opened Common
  import opened Device
  import opened DeviceLocks
  import opened DeviceLedger

  /** Past its fault check and not yet at its copy: the only places from which a
      call can still move bytes while the device is disconnected. */
  predicate PastCheck(pc: Pc) {
    match pc
    case R(r, _) =>
      (r.RCheckUnlock? && !r.verdict.Fail?) || r.RDelay? || r.RFifoLock? || r.RLook? || r.RCopy?
    case W(w) => w.WFull? || w.WFifoLock? || w.WLook? || w.WCopy?
    case _ => false
  }

  /** The stages of a read or write that started under the disconnect. */
  predicate Refusing(pc: Pc) {
    match pc
    case R(r, _) => r.RCheckLock? || r.RCheck? || r == RCheckUnlock(Fail(ENODEV))
    case W(w) => w.WCheck?
    case Done(result) => result == Failed(ENODEV)
    case _ => false
  }

  predicate Nonempty(call: Call) {
    (call.Read? && call.count > 0) || (call.Write? && call.data != [])
  }

  /** No set, clear or reset took effect between the two logs. */
  predicate NoStore(older: Log, newer: Log)
    decreases newer
  {
    newer == older || (newer.Then? && !newer.event.Stored? && NoStore(older, newer.before))
  }

  // ---- one step while disconnected ----

  predicate Transfer(e: Option<Event>) {
    e.Some? && (e.value.Accepted? || e.value.Delivered?)
  }

  lemma LocalIsolated(sh: Shared, id: Id, call: Call, pc: Pc, c: Choice)
    requires CanStep(sh, call, pc, c) && Disconnected(sh.fault)
    requires pc.I? ==> !pc.i.XFifo?
    ensures var e := Local(sh, id, call, pc, c);
            && ((e.event.Some? && e.event.value.Stored?) || Disconnected(e.sh.fault))
            && (Transfer(e.event) ==> PastCheck(pc))
            && !(e.event.Some? && e.event.value.Discarded?)
            && (PastCheck(e.pc) ==> PastCheck(pc))
            && (Refusing(pc) ==> Refusing(e.pc))
  {
    match pc
    case R(r, loc) =>
    case W(w) =>
    case P(p, t) =>
    case I(i) =>
  }

  lemma WokenIsolated(pc: Pc, wake: Wake)
    ensures PastCheck(Woken(pc, wake)) == PastCheck(pc)
    ensures Refusing(Woken(pc, wake)) == Refusing(pc)
    ensures Woken(pc, wake).I? == pc.I? && (pc.I? ==> Woken(pc, wake) == pc)
  {}

  // ---- a reset that is between its two stores ----

  /** Between clearing the fault and emptying the FIFO a reset holds the fault
      lock, so nobody can have stored a disconnect. */
  ghost predicate ResetInv(s: State) {
    forall id :: id in s.calls && s.calls[id].pc == I(XFifo) ==> !Disconnected(s.sh.fault)
  }

  lemma LocalReset(sh: Shared, id: Id, call: Call, pc: Pc, c: Choice)
    requires CanStep(sh, call, pc, c)
    ensures var e := Local(sh, id, call, pc, c);
            (e.pc == I(XFifo) ==> !Disconnected(e.sh.fault)) &&
            (Disconnected(e.sh.fault) ==> Disconnected(sh.fault) || HoldsFault(pc))
  {
    match pc
    case R(r, loc) =>
    case W(w) =>
    case P(p, t) =>
    case I(i) =>
  }

  lemma ResetStep(s: State, id: Id, a: Action)
    requires LockInv(s) && ResetInv(s) && Enabled(s, id, a)
    ensures ResetInv(Next(s, id, a))
  {
    var s' := Next(s, id, a);
    match a
    case Begin(_) =>
    case Step(c) =>
      var act := s.calls[id];
      LocalReset(s.sh, id, act.call, act.pc, c);
      var e := Local(s.sh, id, act.call, act.pc, c);
      forall i | i in s'.calls && s'.calls[i].pc == I(XFifo) ensures !Disconnected(s'.sh.fault) {
        if i != id {
          WokenIsolated(s.calls[i].pc, e.wake);
          assert CallLocks(s.sh, i, s.calls[i]) && CallLocks(s.sh, id, act);
        }
      }
  }

  lemma {:induction false} ResetInvAlong(s: State, run: seq<Move>)
    requires WakeInv(s) && ResetInv(s) && Legal(s, run)
    ensures ResetInv(Exec(s, run))
    decreases |run|
  {
    if run != [] {
      WakeStep(s, run[0].id, run[0].action);
      ResetStep(s, run[0].id, run[0].action);
      ResetInvAlong(Next(s, run[0].id, run[0].action), run[1..]);
    }
  }

  lemma ReachableResetInv(s: State)
    requires Reachable(s)
    ensures LedgerInv(s) && ResetInv(s)
  {
    var boot :| Legal(Init, boot) && Exec(Init, boot) == s;
    LedgerInvAlong(Init, boot);
    ResetInvAlong(Init, boot);
  }

  // ---- isolation over whole runs ----

  /** The state s, reached from s0 while the disconnect stayed in force. */
  ghost predicate Isolated(s0: State, s: State) {
    && Disconnected(s.sh.fault)
    && s0.calls.Keys <= s.calls.Keys
    && (forall id :: id in s.calls ==>
          (PastCheck(s.calls[id].pc) ==> id in s0.calls && PastCheck(s0.calls[id].pc)))
    && (forall id :: id in s.calls && id !in s0.calls && Nonempty(s.calls[id].call) ==> Refusing(s.calls[id].pc))
    && (forall id :: Transfers(s.log, id) > Transfers(s0.log, id) ==> id in s0.calls && PastCheck(s0.calls[id].pc))
    && NoDiscard(s0.log, s.log)
  }

  predicate NoDiscard(older: Log, newer: Log)
    decreases newer
  {
    newer == older || (newer.Then? && !newer.event.Discarded? && NoDiscard(older, newer.before))
  }

  lemma IsolatedStep(s0: State, s: State, id: Id, a: Action)
    requires LedgerInv(s) && ResetInv(s) && Isolated(s0, s) && Enabled(s, id, a)
    requires var s' := Next(s, id, a); s'.log == s.log || !s'.log.event.Stored?
    ensures Isolated(s0, Next(s, id, a))
  {
    match a
    case Begin(call) => BeginIsolated(s0, s, id, call);
    case Step(c) =>
      var act := s.calls[id];
      LocalIsolated(s.sh, id, act.call, act.pc, c);
      assert CallOk(s.log, id, act.call, act.pc);
      LocalAccounted(s.sh, id, act.call, act.pc, c);
      ApplyIsolated(s0, s, id, Local(s.sh, id, act.call, act.pc, c));
  }

  lemma BeginIsolated(s0: State, s: State, id: Id, call: Call)
    requires Isolated(s0, s) && id !in s.calls
    ensures Isolated(s0, Next(s, id, Begin(call)))
  {
    var s' := Next(s, id, Begin(call));
    forall i | i in s'.calls
      ensures PastCheck(s'.calls[i].pc) ==> i in s0.calls && PastCheck(s0.calls[i].pc)
      ensures i !in s0.calls && Nonempty(s'.calls[i].call) ==> Refusing(s'.calls[i].pc)
    {
      if i != id {
        assert i in s.calls;
      }
    }
  }

  lemma ApplyIsolated(s0: State, s: State, id: Id, e: Effect)
    requires Isolated(s0, s) && id in s.calls && Accounted(s.sh, id, e)
    requires Disconnected(e.sh.fault)
    requires Transfer(e.event) ==> PastCheck(s.calls[id].pc)
    requires !(e.event.Some? && e.event.value.Discarded?)
    requires PastCheck(e.pc) ==> PastCheck(s.calls[id].pc)
    requires Refusing(s.calls[id].pc) ==> Refusing(e.pc)
    ensures Isolated(s0, Apply(s, id, s.calls[id].call, e))
  {
    var s' := Apply(s, id, s.calls[id].call, e);
    forall i | i in s'.calls
      ensures PastCheck(s'.calls[i].pc) ==> i in s0.calls && PastCheck(s0.calls[i].pc)
      ensures i !in s0.calls && Nonempty(s'.calls[i].call) ==> Refusing(s'.calls[i].pc)
    {
      if i != id {
        WokenIsolated(s.calls[i].pc, e.wake);
      }
    }
    forall i | Transfers(s'.log, i) > Transfers(s0.log, i)
      ensures i in s0.calls && PastCheck(s0.calls[i].pc)
    {
      if Transfers(s.log, i) <= Transfers(s0.log, i) {
        assert i == id && PastCheck(s.calls[id].pc);
      }
    }
  }

  /** The stores of a prefix of a run are among the stores of the run. */
  lemma {:induction false} StoresGrow(s0: State, s: State, run: seq<Move>)
    requires Legal(s, run) && NoStore(s0.log, Exec(s, run).log)
    requires LogLength(s0.log) <= LogLength(s.log)
    ensures NoStore(s0.log, s.log)
    decreases |run|
  {
    if run != [] {
      var s1 := Next(s, run[0].id, run[0].action);
      assert s1.log == s.log || (s1.log.Then? && s1.log.before == s.log);
      StoresGrow(s0, s1, run[1..]);
      if s1.log != s.log {
        assert LogLength(s1.log) > LogLength(s0.log);
      }
    }
  }

  function LogLength(log: Log): nat {
    match log
    case Start => 0
    case Then(l, _) => LogLength(l) + 1
  }

  lemma {:induction false} IsolatedAlong(s0: State, s: State, run: seq<Move>)
    requires LedgerInv(s) && ResetInv(s) && Isolated(s0, s) && Legal(s, run)
    requires LogLength(s0.log) <= LogLength(s.log)
    requires NoStore(s0.log, Exec(s, run).log)
    ensures Isolated(s0, Exec(s, run)) && LedgerInv(Exec(s, run))
    decreases |run|
  {
    if run != [] {
      var s1 := Next(s, run[0].id, run[0].action);
      assert s1.log == s.log || (s1.log.Then? && s1.log.before == s.log);
      StoresGrow(s0, s1, run[1..]);
      if s1.log != s.log {
        assert LogLength(s1.log) > LogLength(s0.log);
        assert !s1.log.event.Stored?;
      }
      IsolatedStep(s0, s, run[0].id, run[0].action);
      LedgerStep(s, run[0].id, run[0].action);
      ResetStep(s, run[0].id, run[0].action);
      IsolatedAlong(s0, s1, run[1..]);
    }
  }

  /** Disconnect isolation. From any reachable disconnected state, along any run in
      which no further set, clear or reset takes effect: the device stays
      disconnected and drops nothing; only calls that were past their fault check
      move bytes, each at most once over its whole life; and every read or write
      that starts later is on its way to -ENODEV, moves nothing, never sleeps, and can
      go on or waits for a mutex whose holder can. */
  lemma DisconnectIsolation(s0: State, run: seq<Move>, id: Id)
    requires Reachable(s0) && Disconnected(s0.sh.fault)
    requires Legal(s0, run) && NoStore(s0.log, Exec(s0, run).log)
    ensures var s := Exec(s0, run);
            && Disconnected(s.sh.fault)
            && NoDiscard(s0.log, s.log)
            && Transfers(s.log, id) <= 1
            && (Transfers(s.log, id) > Transfers(s0.log, id) ==> id in s0.calls && PastCheck(s0.calls[id].pc))
            && (id in s.calls && id !in s0.calls && Nonempty(s.calls[id].call) ==>
                  Transfers(s.log, id) == 0 && Refusing(s.calls[id].pc) &&
                  (s.calls[id].pc.Done? ==> s.calls[id].pc.result == Failed(ENODEV)) &&
                  (!s.calls[id].pc.Done? ==> Able(s, id) || SomeHolderAble(s)))
  {
    ReachableResetInv(s0);
    IsolatedAlong(s0, s0, run);
    TransfersOnce(s0, id);
    TransfersOnce(Exec(s0, run), id);
    RefusalIsNotStuck(Exec(s0, run), id);
  }

  ghost predicate SomeHolderAble(s: State) {
    exists h :: h in s.calls && (s.sh.faultLock == Some(h) || s.sh.fifoLock == Some(h)) && Able(s, h)
  }

  /** A call on its way to -ENODEV never sleeps: it can step, or it waits for a
      mutex, and then a holder can. */
  lemma RefusalIsNotStuck(s: State, id: Id)
    requires LockInv(s)
    ensures id in s.calls && Refusing(s.calls[id].pc) && !s.calls[id].pc.Done? ==> Able(s, id) || SomeHolderAble(s)
  {
    if id in s.calls && Refusing(s.calls[id].pc) && !s.calls[id].pc.Done? && !Able(s, id) {
      assert CallLocks(s.sh, id, s.calls[id]);
      HolderCanStep(s);
    }
  }
}
