// A partial-read limit outlives the fault: a read that met it and then slept is
// still bound by it, although the fault was cleared before any data arrived.

module StaleLimit {
  import opened Common
  import opened Device
  import opened DeviceLocks
  import opened DeviceLedger
  import opened SoloCalls

  /** A woken reader that finds data and no fault. */
  lemma WokenReader(g: Globals, id: Id, call: Call, loc: ReadLocals, fuel: nat)
    requires call.Read? && call.count > 0 && g.fault == NoFault && g.fifo != [] && fuel == LONGEST_CALL
    ensures var n := ReadQuota(call.count, |g.fifo|, loc.limit);
            Finish(Unlocked(g), id, call, R(RWait, loc), fuel) ==
              (Unlocked(g.(fifo := g.fifo[n..])), Done(Data(g.fifo[..n])))
  {
    assert Finish(Unlocked(g), id, call, R(RWait, loc), 4) == (Unlocked(g), R(RFifoLock, loc));
    FinishSplit(Unlocked(g), id, call, R(RWait, loc), 4, fuel - 4);
    SoloTransfer(g, id, call, loc);
  }

  lemma LimitSet(limit: U32) returns (s: State)
    requires 1 <= limit <= MAX_PARTIAL_READ
    ensures Reachable(s) && s.sh == Unlocked(Globals(Config(FAULT_PARTIAL_READ, 0, 0, limit), []))
    ensures s.calls.Keys == {0} && s.calls[0].pc.Done?
  {
    InitReachable();
    var s1, _ := SoloReach(Init, 0, SetFault(Config(FAULT_PARTIAL_READ, 0, 0, limit)));
    s := s1;
  }

  /** A reader that met the limit and went to sleep. */
  lemma LimitMet(limit: U32, count: nat) returns (s: State, loc: ReadLocals)
    requires 1 <= limit <= MAX_PARTIAL_READ && count > 0
    ensures Reachable(s) && s.sh == Unlocked(Globals(Config(FAULT_PARTIAL_READ, 0, 0, limit), []))
    ensures s.calls.Keys == {0, 1} && s.calls[0].pc.Done?
    ensures s.calls[1] == Activity(Read(count, false), R(RAsleep, loc)) && loc.limit == limit
  {
    var s1 := LimitSet(limit);
    var s2, _ := SoloReach(s1, 1, Read(count, false));
    s := s2;
    loc := SleepingReader(s, limit);
  }

  /** Then the fault is cleared. */
  lemma Cleared(s2: State, loc: ReadLocals) returns (s: State)
    requires Reachable(s2) && s2.sh.faultLock.None? && s2.sh.fifoLock.None? && s2.sh.fifo == []
    requires s2.calls.Keys == {0, 1} && s2.calls[0].pc.Done? && s2.calls[1].pc == R(RAsleep, loc)
    ensures Reachable(s) && s.sh == Unlocked(Globals(NoFault, [])) && s.calls.Keys == {0, 1, 2}
    ensures s.calls[0].pc.Done? && s.calls[2].pc.Done?
    ensures s.calls[1].call == s2.calls[1].call && Waiting(s.calls[1].pc, loc)
  {
    var s3, _ := SoloReach(s2, 2, ClearFault);
    s := s3;
    assert Undisturbed(s2.calls[0], s.calls[0]) && Undisturbed(s2.calls[1], s.calls[1]);
  }

  /** Then data is written, and the reader is awake. */
  lemma Written(s3: State, loc: ReadLocals, data: seq<Byte>) returns (run: seq<Move>)
    requires Reachable(s3) && s3.sh == Unlocked(Globals(NoFault, [])) && s3.calls.Keys == {0, 1, 2}
    requires s3.calls[0].pc.Done? && s3.calls[2].pc.Done? && Waiting(s3.calls[1].pc, loc)
    requires 0 < |data| <= FIFO_SIZE
    ensures Legal(s3, run) && (forall m :: m in run ==> m.id == 3)
    ensures var s := Exec(s3, run);
            && Reachable(s) && s.sh == Unlocked(Globals(NoFault, data))
            && 3 in s.calls && s.calls[3].call == Write(data, false)
            && 1 in s.calls && s.calls[1] == Activity(s3.calls[1].call, R(RWait, loc))
  {
    assert SoloWrite(Globals(NoFault, []), data, false) == Outcome(Globals(NoFault, data), Some(Wrote(|data|))) by {
      assert [] + data[..|data|] == data;
    }
    var s;
    s, run := SoloReach(s3, 3, Write(data, false));
    assert Undisturbed(s3.calls[0], s.calls[0]) && Undisturbed(s3.calls[1], s.calls[1]) && Undisturbed(s3.calls[2], s.calls[2]);
    MustBeAwake(s, loc);
  }

  /** For every limit, count and data that fits: in some reachable state the fault is
      gone, the FIFO is empty and a blocking read is still under way; one write then
      puts the data in, nobody but the read goes on, and it returns no more than the
      limit that was gone before the first byte came. Its last fault check saw no
      fault at all. */
  lemma ClearedLimitStillBinds(limit: U32, count: nat, data: seq<Byte>)
    returns (cleared: State, writing: seq<Move>, reading: seq<Move>)
    requires 1 <= limit <= MAX_PARTIAL_READ && count > 0 && 0 < |data| <= FIFO_SIZE
    ensures Reachable(cleared) && cleared.sh.fault == NoFault && cleared.sh.fifo == []
    ensures 1 in cleared.calls && cleared.calls[1].call == Read(count, false) && !cleared.calls[1].pc.Done?
    ensures Legal(cleared, writing) && (forall m :: m in writing ==> m.id == 3)
    ensures var full := Exec(cleared, writing);
            && full.sh.fault == NoFault && full.sh.fifo == data
            && 3 in full.calls && full.calls[3].call == Write(data, false)
            && 1 in full.calls && !full.calls[1].pc.Done?
            && Legal(full, reading) && (forall m :: m in reading ==> m.id == 1)
            && var s := Exec(full, reading);
               var n := ReadQuota(count, |data|, limit);
               && Reachable(s) && 1 in s.calls
               && s.calls[1] == Activity(Read(count, false), Done(Data(data[..n])))
               && s.sh.fault == NoFault && s.sh.fifo == data[n..]
               && LastLimit(s.log, 1) == limit && LastSeen(s.log, 1) == Some(NoFault)
  {
    var s2, loc := LimitMet(limit, count);
    cleared := Cleared(s2, loc);
    writing := Written(cleared, loc, data);
    var full := Exec(cleared, writing);
    ReachableLedgerInv(full);
    assert CallOk(full.log, 1, full.calls[1].call, full.calls[1].pc);
    WokenReader(Globals(NoFault, data), 1, Read(count, false), loc, LONGEST_CALL);
    reading := FinishIsARun(full, 1, LONGEST_CALL);
    StillReachable(full, reading);
    LimitKept(full, reading, 1, limit);
    LooksAgain(full, reading, 1);
  }

  lemma SleepingReader(s: State, limit: nat) returns (loc: ReadLocals)
    requires Reachable(s) && 1 in s.calls && s.calls[1].call.Read?
    requires (ReaderAsleep(s.calls[1].pc) && s.calls[1].pc.loc.limit == limit) ||
             WriterAsleep(s.calls[1].pc) || PollerAsleep(s.calls[1].pc)
    ensures s.calls[1].pc == R(RAsleep, loc) && loc.limit == limit
  {
    ReachableWakeInv(s);
    assert CallLocks(s.sh, 1, s.calls[1]);
    loc := s.calls[1].pc.loc;
  }

  /** With everybody else finished, no wake-up is pending, so the reader cannot be
      asleep in front of data. */
  lemma MustBeAwake(s: State, loc: ReadLocals)
    requires Reachable(s) && s.calls.Keys == {0, 1, 2, 3} && ReadCondition(s.sh)
    requires s.calls[0].pc.Done? && s.calls[2].pc.Done? && s.calls[3].pc.Done? && Waiting(s.calls[1].pc, loc)
    ensures s.calls[1].pc == R(RWait, loc)
  {
    NoSleeperIsForgotten(s, 1);
    forall i | i in s.calls ensures !WillWakeReaders(s.calls[i].pc) {
      assert i in {0, 1, 2, 3};
    }
  }

  /** A reader's limit changes only when it meets another partial-read fault. */
  lemma {:induction false} LimitKept(s: State, run: seq<Move>, id: Id, limit: nat)
    requires Legal(s, run) && s.sh.fault.kind != FAULT_PARTIAL_READ && LastLimit(s.log, id) == limit
    requires forall m :: m in run ==> m.id == id && m.action.Step?
    requires id in s.calls && s.calls[id].call.Read?
    ensures LastLimit(Exec(s, run).log, id) == limit
    decreases |run|
  {
    if run != [] {
      assert run[0] in run;
      StepKeepsKind(s.sh, id, s.calls[id].call, s.calls[id].pc, run[0].action.choice);
      LimitKept(Next(s, id, run[0].action), run[1..], id, limit);
    }
  }

  lemma StepKeepsKind(sh: Shared, id: Id, call: Call, pc: Pc, c: Choice)
    requires CanStep(sh, call, pc, c) && call.Read? && sh.fault.kind != FAULT_PARTIAL_READ
    ensures var e := Local(sh, id, call, pc, c);
            e.sh.fault.kind != FAULT_PARTIAL_READ &&
            (e.event.Some? && e.event.value.Checked? ==> e.event.value.seen.kind != FAULT_PARTIAL_READ)
  {}

  // ---- what the call's own fault checks saw ----

  function Seen(log: Log, id: Id): seq<Config> {
    match log
    case Start => []
    case Then(l, e) => if e.Checked? && e.id == id then Seen(l, id) + [e.seen] else Seen(l, id)
  }

  function LastSeen(log: Log, id: Id): Option<Config> {
    var seen := Seen(log, id);
    if seen == [] then None else Some(seen[|seen| - 1])
  }

  /** The call is bound by a limit other than that of the fault it saw last. */
  predicate Stale(log: Log, id: Id) {
    LastSeen(log, id).Some? && LastLimit(log, id) != LimitOf(LastSeen(log, id).value)
  }

  /** Woken in front of data, and not yet at the fault check. */
  predicate AboutToLook(sh: Shared, pc: Pc) {
    pc.R? && (pc.r.RWait? || pc.r.RCheckLock? || pc.r.RCheck?) && sh.fifo != []
  }

  /** A woken reader does look at the fault again. */
  lemma {:induction false} LooksAgain(s: State, run: seq<Move>, id: Id)
    requires Legal(s, run) && s.sh.fault == NoFault && id in s.calls && s.calls[id].call.Read?
    requires AboutToLook(s.sh, s.calls[id].pc) || LastSeen(s.log, id) == Some(NoFault)
    requires forall m :: m in run ==> m.id == id && m.action.Step?
    ensures var s' := Exec(s, run);
            id in s'.calls && (s'.calls[id].pc.Done? ==> LastSeen(s'.log, id) == Some(NoFault))
    decreases |run|
  {
    if run != [] {
      assert run[0] in run;
      LookStep(s.sh, s.log, id, s.calls[id].call, s.calls[id].pc, run[0].action.choice);
      LooksAgain(Next(s, id, run[0].action), run[1..], id);
    }
  }

  lemma LookStep(sh: Shared, log: Log, id: Id, call: Call, pc: Pc, c: Choice)
    requires CanStep(sh, call, pc, c) && call.Read? && sh.fault == NoFault
    requires AboutToLook(sh, pc) || LastSeen(log, id) == Some(NoFault)
    ensures var e := Local(sh, id, call, pc, c);
            e.sh.fault == NoFault && (AboutToLook(e.sh, e.pc) || LastSeen(Append(log, e.event), id) == Some(NoFault))
  {}

  // ---- reads that never wait ----

  /** Reads that return without waiting, with their whole limit from one check. */
  predicate NeverWaits(call: Call) {
    call.Read? && (call.nonblock || call.count == 0)
  }

  predicate OneCheck(log: Log, id: Id, call: Call, pc: Pc) {
    var seen := Seen(log, id);
    && call.Read? && Fits(call, pc)
    && |seen| <= 1
    && LastLimit(log, id) == (if seen == [] then 0 else LimitOf(seen[0]))
    && (call.count == 0 ==> pc.Done? && seen == [])
    && (pc.R? ==> !pc.r.RWait? && !pc.r.RAsleep?)
    && (pc.R? ==> (seen == [] <==> pc.r.RCheckLock? || pc.r.RCheck?))
  }

  ghost predicate OneCheckInv(s: State) {
    && (forall id :: id in s.calls && NeverWaits(s.calls[id].call) ==> OneCheck(s.log, id, s.calls[id].call, s.calls[id].pc))
    && (forall id :: id !in s.calls ==> Seen(s.log, id) == [] && LastLimit(s.log, id) == 0)
  }

  lemma LocalOneCheck(sh: Shared, log: Log, id: Id, call: Call, pc: Pc, c: Choice)
    requires CanStep(sh, call, pc, c) && NeverWaits(call) && OneCheck(log, id, call, pc)
    ensures var e := Local(sh, id, call, pc, c);
            OneCheck(Append(log, e.event), id, call, e.pc)
  {}

  lemma BystanderOneCheck(log: Log, i: Id, call: Call, pc: Pc, id: Id, event: Option<Event>, wake: Wake)
    requires NeverWaits(call) && OneCheck(log, i, call, pc) && id != i
    requires event.Some? ==> event.value.id == id
    ensures OneCheck(Append(log, event), i, call, Woken(pc, wake))
  {}

  lemma OneCheckStep(s: State, id: Id, a: Action)
    requires LedgerInv(s) && OneCheckInv(s) && Enabled(s, id, a)
    ensures OneCheckInv(Next(s, id, a))
  {
    var s' := Next(s, id, a);
    match a
    case Begin(call) =>
      forall i | i in s'.calls && NeverWaits(s'.calls[i].call)
        ensures OneCheck(s'.log, i, s'.calls[i].call, s'.calls[i].pc)
      {
        if i != id {
          assert i in s.calls;
        }
      }
    case Step(c) =>
      var act := s.calls[id];
      var e := Local(s.sh, id, act.call, act.pc, c);
      assert CallOk(s.log, id, act.call, act.pc);
      LocalAccounted(s.sh, id, act.call, act.pc, c);
      forall i | i in s'.calls && NeverWaits(s'.calls[i].call)
        ensures OneCheck(s'.log, i, s'.calls[i].call, s'.calls[i].pc)
      {
        if i == id {
          LocalOneCheck(s.sh, s.log, id, act.call, act.pc, c);
        } else {
          BystanderOneCheck(s.log, i, s.calls[i].call, s.calls[i].pc, id, e.event, e.wake);
        }
      }
  }

  lemma {:induction false} OneCheckAlong(s: State, run: seq<Move>)
    requires LedgerInv(s) && OneCheckInv(s) && Legal(s, run)
    ensures OneCheckInv(Exec(s, run))
    decreases |run|
  {
    if run != [] {
      LedgerStep(s, run[0].id, run[0].action);
      OneCheckStep(s, run[0].id, run[0].action);
      OneCheckAlong(Next(s, run[0].id, run[0].action), run[1..]);
    }
  }

  lemma InitInv()
    ensures LedgerInv(Init) && OneCheckInv(Init)
  {}

  lemma ReachableOneCheck(s: State)
    requires Reachable(s)
    ensures OneCheckInv(s)
  {
    var boot :| Legal(Init, boot) && Exec(Init, boot) == s;
    InitInv();
    OneCheckAlong(Init, boot);
  }

  /** A read that does not block is bound by exactly the limit its one fault check
      saw, in every run: before the check there is none, after it there is that one. */
  lemma NonblockingLimitIsCurrent(s: State, id: Id)
    requires Reachable(s) && id in s.calls && NeverWaits(s.calls[id].call)
    ensures |Seen(s.log, id)| <= 1 && !Stale(s.log, id)
    ensures LastLimit(s.log, id) == (if Seen(s.log, id) == [] then 0 else LimitOf(Seen(s.log, id)[0]))
    ensures s.calls[id].pc.R? && s.calls[id].pc.r.RCopy? ==>
              |Seen(s.log, id)| == 1 && s.calls[id].pc.loc.limit == LimitOf(Seen(s.log, id)[0])
  {
    ReachableLedgerInv(s);
    ReachableOneCheck(s);
    assert OneCheck(s.log, id, s.calls[id].call, s.calls[id].pc);
    assert CallOk(s.log, id, s.calls[id].call, s.calls[id].pc);
  }

  /** The limit is the one the call saw last, in every run, exactly for the reads
      that return -EAGAIN instead of waiting, and trivially for those of no bytes. */
  lemma StaleExactlyIfBlocking(count: nat, nonblock: bool)
    ensures (forall s, id :: Reachable(s) && id in s.calls && s.calls[id].call == Read(count, nonblock) ==>
               !Stale(s.log, id)) <==> nonblock || count == 0
  {
    if nonblock || count == 0 {
      forall s, id | Reachable(s) && id in s.calls && s.calls[id].call == Read(count, nonblock)
        ensures !Stale(s.log, id)
      {
        NonblockingLimitIsCurrent(s, id);
      }
    } else {
      var cleared, writing, reading := ClearedLimitStillBinds(1, count, [0]);
      var s := Exec(Exec(cleared, writing), reading);
      assert Reachable(s) && 1 in s.calls && s.calls[1].call == Read(count, nonblock) && Stale(s.log, 1);
    }
  }
}
