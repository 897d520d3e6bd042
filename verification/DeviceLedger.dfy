// Conservation over every concurrent run of the device: where each accepted byte
// went, and what became of each injected EIO.

module DeviceLedger {
  import opened Common
  import opened Device
  import opened DeviceLocks

  // ---- what the log says, independently of the machine ----

  /** All bytes writes put into the FIFO, in lock order. */
  function AcceptedBytes(log: Log): seq<Byte> {
    match log
    case Start => []
    case Then(l, e) => if e.Accepted? then AcceptedBytes(l) + e.bytes else AcceptedBytes(l)
  }

  /** All bytes that left the FIFO, delivered or discarded, in lock order. */
  function DrainedBytes(log: Log): seq<Byte> {
    match log
    case Start => []
    case Then(l, e) => if e.Delivered? || e.Discarded? then DrainedBytes(l) + e.bytes else DrainedBytes(l)
  }

  /** For each drained byte the read call that got it, or None if a reset dropped it. */
  function Owners(log: Log): (r: seq<Option<Id>>)
    ensures |r| == |DrainedBytes(log)|
  {
    match log
    case Start => []
    case Then(l, e) =>
      if e.Delivered? then Owners(l) + seq(|e.bytes|, _ => Some(e.id))
      else if e.Discarded? then Owners(l) + seq(|e.bytes|, _ => None)
      else Owners(l)
  }

  function DeliveredTo(log: Log, id: Id): seq<Byte> {
    match log
    case Start => []
    case Then(l, e) => if e.Delivered? && e.id == id then DeliveredTo(l, id) + e.bytes else DeliveredTo(l, id)
  }

  function AcceptedFrom(log: Log, id: Id): seq<Byte> {
    match log
    case Start => []
    case Then(l, e) => if e.Accepted? && e.id == id then AcceptedFrom(l, id) + e.bytes else AcceptedFrom(l, id)
  }

  /** How often a call moved bytes in or out of the FIFO. */
  function Transfers(log: Log, id: Id): nat {
    match log
    case Start => 0
    case Then(l, e) => Transfers(l, id) + (if (e.Accepted? || e.Delivered?) && e.id == id then 1 else 0)
  }

  /** The last partial-read limit this call's fault checks saw; 0 for none. */
  function LastLimit(log: Log, id: Id): nat {
    match log
    case Start => 0
    case Then(l, e) =>
      if e.Checked? && e.id == id && e.seen.kind == FAULT_PARTIAL_READ then e.seen.partialBytes
      else LastLimit(l, id)
  }

  /** Fault checks in which this call met a delay. */
  function DelayChecks(log: Log, id: Id): nat {
    match log
    case Start => 0
    case Then(l, e) =>
      DelayChecks(l, id) + (if e.Checked? && e.id == id && e.seen.kind == FAULT_DELAY then 1 else 0)
  }

  function Remaining(c: Config): nat {
    if c.kind == FAULT_EIO then c.repeat else 0
  }

  /** One EIO occurrence used up. */
  function Used(c: Config): Config {
    if c.kind != FAULT_EIO then c
    else if c.repeat <= 1 then NoFault
    else c.(repeat := c.repeat - 1)
  }

  /** The fault in force after the logged stores and fault checks. */
  function Replay(log: Log): Config {
    match log
    case Start => NoFault
    case Then(l, e) =>
      if e.Stored? then e.config
      else if e.Checked? then Used(Replay(l))
      else Replay(l)
  }

  /** EIO occurrences loaded by successful SET_FAULTs. */
  function Loaded(log: Log): nat {
    match log
    case Start => 0
    case Then(l, e) => Loaded(l) + (if e.Stored? then Remaining(e.config) else 0)
  }

  /** EIO occurrences thrown away by a later set, clear or reset. */
  function Overwritten(log: Log): nat {
    match log
    case Start => 0
    case Then(l, e) => Overwritten(l) + (if e.Stored? then Remaining(Replay(l)) else 0)
  }

  predicate EioCheck(e: Event) {
    e.Checked? && e.seen.kind == FAULT_EIO
  }

  function EioChecks(log: Log): nat {
    match log
    case Start => 0
    case Then(l, e) => EioChecks(l) + (if EioCheck(e) then 1 else 0)
  }

  function EioCalls(log: Log): set<Id> {
    match log
    case Start => {}
    case Then(l, e) => if EioCheck(e) then EioCalls(l) + {e.id} else EioCalls(l)
  }

  /** The stored configuration as SET_FAULT leaves it: one fault, its own field in
      range, every other field zero. */
  predicate Canonical(c: Config) {
    && (c.kind == FAULT_NONE || c.kind == FAULT_EIO || c.kind == FAULT_DELAY ||
        c.kind == FAULT_DISCONNECT || c.kind == FAULT_PARTIAL_READ)
    && (if c.kind == FAULT_EIO then 1 <= c.repeat <= MAX_FAULT_REPEAT else c.repeat == 0)
    && (if c.kind == FAULT_DELAY then 1 <= c.delayMs <= MAX_DELAY_MS else c.delayMs == 0)
    && (if c.kind == FAULT_PARTIAL_READ then 1 <= c.partialBytes <= MAX_PARTIAL_READ else c.partialBytes == 0)
  }

  /** SET_FAULT stores canonical configurations only, keeps a canonical one as it
      is, and changes nothing but the fields foreign to the fault. */
  lemma NormaliseCanonical(c: Config)
    ensures Normalise(c).Some? ==>
              Canonical(Normalise(c).value) && Normalise(c).value.kind == c.kind &&
              Normalise(Normalise(c).value) == Normalise(c)
    ensures Normalise(c) == Some(c) <==> Canonical(c)
  {}

  /** The configurations the device documents as valid, by their fields. */
  predicate Settable(c: Config) {
    c.kind == 0 || c.kind == 3 ||
    (c.kind == 1 && 1 <= c.repeat <= 1_000_000) ||
    (c.kind == 2 && 1 <= c.delayMs <= 10_000) ||
    (c.kind == 4 && 1 <= c.partialBytes <= 4096)
  }

  /** The same fault with its own parameter, and nothing else. */
  predicate OwnFieldOnly(c: Config, stored: Config) {
    && stored.kind == c.kind
    && (if c.kind == 1 then stored.repeat == c.repeat else stored.repeat == 0)
    && (if c.kind == 2 then stored.delayMs == c.delayMs else stored.delayMs == 0)
    && (if c.kind == 4 then stored.partialBytes == c.partialBytes else stored.partialBytes == 0)
  }

  /** SET_FAULT refuses exactly what is out of range, and repairs nothing. */
  lemma SetFaultRange(c: Config)
    ensures Normalise(c).Some? <==> Settable(c)
    ensures Normalise(c).Some? ==> OwnFieldOnly(c, Normalise(c).value)
  {}

  // ---- what each step adds to the log ----

  /** The log entry accounts for everything the step did to fault and FIFO. */
  predicate Accounted(sh: Shared, id: Id, e: Effect) {
    match e.event
    case None => e.sh.fifo == sh.fifo && e.sh.fault == sh.fault
    case Some(v) => v.id == id && Explains(sh, v, e.sh)
  }

  predicate Explains(sh: Shared, v: Event, sh': Shared) {
    match v
    case Accepted(_, b) => sh'.fifo == sh.fifo + b && sh'.fault == sh.fault
    case Delivered(_, b) => sh.fifo == b + sh'.fifo && sh'.fault == sh.fault
    case Discarded(_, b) => sh.fifo == b && sh'.fifo == [] && sh'.fault == sh.fault
    case Stored(_, c) => sh'.fifo == sh.fifo && sh'.fault == c && Canonical(c)
    case Checked(_, seen) => sh'.fifo == sh.fifo && seen == sh.fault && sh'.fault == Used(sh.fault)
  }

  /** The bytes a read call has taken out and will return. */
  function Received(pc: Pc): seq<Byte> {
    match pc
    case R(r, _) => if r.RCopyUnlock? || r.RWake? then r.got else []
    case Done(result) => if result.Data? then result.bytes else []
    case _ => []
  }

  /** How many bytes a write call has put in and will report. */
  function Sent(pc: Pc): nat {
    match pc
    case W(w) => if w.WCopyUnlock? || w.WWake? then w.put else 0
    case Done(result) => if result.Wrote? then result.n else 0
    case _ => 0
  }

  predicate EioPc(pc: Pc) {
    (pc.R? && pc.r == RCheckUnlock(Fail(EIO))) || pc == Done(Failed(EIO))
  }

  predicate ConfigOk(pc: Pc) {
    pc.I? && (pc.i.ILock? || pc.i.IStore?) ==> Canonical(pc.i.config)
  }

  /** The result or progress of one call against what the log says about it. */
  predicate CallOk(log: Log, id: Id, call: Call, pc: Pc) {
    && Fits(call, pc)
    && ConfigOk(pc)
    && DeliveredTo(log, id) == Received(pc)
    && (call.Write? ==> Sent(pc) <= |call.data| && AcceptedFrom(log, id) == call.data[..Sent(pc)])
    && (!call.Write? ==> Sent(pc) == 0 && AcceptedFrom(log, id) == [])
    && Transfers(log, id) == (if Received(pc) != [] || Sent(pc) > 0 then 1 else 0)
    && (Received(pc) != [] ==> call.Read? && |Received(pc)| <= call.count &&
                               (LastLimit(log, id) != 0 ==> |Received(pc)| <= LastLimit(log, id)))
    && (pc.R? ==> pc.loc.limit == LastLimit(log, id) && call.count > 0 &&
                  (pc.loc.delayApplied <==> DelayChecks(log, id) > 0))
    && (pc.R? && (pc.r.RDelay? || (pc.r.RCheckUnlock? && pc.r.verdict.Sleep?)) ==> DelayChecks(log, id) == 1)
    && (pc.W? ==> call.data != [])
    && (pc.Done? && pc.result.Data? ==> call.Read? && (pc.result.bytes == [] <==> call.count == 0))
    && (pc.Done? && pc.result.Wrote? ==> call.Write? && (pc.result.n == 0 <==> call.data == []))
    && (pc.Done? && call.Read? ==> pc.result.Data? || pc.result.Failed?)
    && (pc.Done? && call.Poll? ==> pc.result.Ready? || pc.result == Failed(ERESTARTSYS))
    && (id in EioCalls(log) <==> EioPc(pc))
    && (EioPc(pc) ==> call.Read?)
  }

  lemma ReadAccounted(sh: Shared, id: Id, call: Call, r: ReadPc, loc: ReadLocals, c: Choice)
    requires call.Read? && CanRead(sh, call, r, loc, c) && Canonical(sh.fault)
    ensures Accounted(sh, id, ReadStep(sh, id, call, r, loc, c))
  {
    if r.RCopy? {
      assert sh.fifo == sh.fifo[..c.n] + sh.fifo[c.n..];
    }
  }

  lemma LocalAccounted(sh: Shared, id: Id, call: Call, pc: Pc, c: Choice)
    requires CanStep(sh, call, pc, c) && Canonical(sh.fault) && ConfigOk(pc)
    ensures Accounted(sh, id, Local(sh, id, call, pc, c))
  {
    match pc
    case R(r, loc) => ReadAccounted(sh, id, call, r, loc, c);
    case W(w) =>
      if w.WCopy? {
        assert c.n == 0 ==> sh.fifo + call.data[..c.n] == sh.fifo;
      }
    case P(_, _) =>
    case I(_) =>
  }

  lemma ReadCallOk(sh: Shared, log: Log, id: Id, call: Call, r: ReadPc, loc: ReadLocals, c: Choice)
    requires call.Read? && CanRead(sh, call, r, loc, c) && Canonical(sh.fault)
    requires CallOk(log, id, call, R(r, loc))
    ensures var e := ReadStep(sh, id, call, r, loc, c);
            CallOk(Append(log, e.event), id, call, e.pc)
  {}

  lemma WriteCallOk(sh: Shared, log: Log, id: Id, call: Call, w: WritePc, c: Choice)
    requires call.Write? && CanWrite(sh, call, w, c)
    requires CallOk(log, id, call, W(w))
    ensures var e := WriteStep(sh, id, call, w, c);
            CallOk(Append(log, e.event), id, call, e.pc)
  {}

  lemma PollCallOk(sh: Shared, log: Log, id: Id, call: Call, p: PollPc, t: bool, c: Choice)
    requires call.Poll? && CanPoll(sh, p, c)
    requires CallOk(log, id, call, P(p, t))
    ensures var e := PollStep(sh, id, call, p, t, c);
            CallOk(Append(log, e.event), id, call, e.pc)
  {}

  lemma IoctlCallOk(sh: Shared, log: Log, id: Id, call: Call, i: IoctlPc, c: Choice)
    requires IoctlFits(call, i) && CanIoctl(sh, i, c)
    requires CallOk(log, id, call, I(i))
    ensures var e := IoctlStep(sh, id, call, i, c);
            CallOk(Append(log, e.event), id, call, e.pc)
  {}

  lemma LocalCallOk(sh: Shared, log: Log, id: Id, call: Call, pc: Pc, c: Choice)
    requires CanStep(sh, call, pc, c) && Canonical(sh.fault)
    requires CallOk(log, id, call, pc)
    ensures var e := Local(sh, id, call, pc, c);
            CallOk(Append(log, e.event), id, call, e.pc)
  {
    match pc
    case R(r, loc) => ReadCallOk(sh, log, id, call, r, loc, c);
    case W(w) => WriteCallOk(sh, log, id, call, w, c);
    case P(p, t) => PollCallOk(sh, log, id, call, p, t, c);
    case I(i) => IoctlCallOk(sh, log, id, call, i, c);
  }

  /** Another call's log entry and wake-up leave a call's own account alone. */
  lemma BystanderOk(log: Log, i: Id, call: Call, pc: Pc, id: Id, event: Option<Event>, wake: Wake)
    requires CallOk(log, i, call, pc) && id != i
    requires event.Some? ==> event.value.id == id
    ensures CallOk(Append(log, event), i, call, Woken(pc, wake))
  {}

  // ---- the invariant ----

  /** No trace of the call in the log. */
  predicate Unheard(log: Log, id: Id) {
    DeliveredTo(log, id) == [] && AcceptedFrom(log, id) == [] && Transfers(log, id) == 0 &&
    LastLimit(log, id) == 0 && DelayChecks(log, id) == 0 && id !in EioCalls(log)
  }

  predicate Balanced(sh: Shared, log: Log) {
    && Canonical(sh.fault)
    && sh.fault == Replay(log)
    && AcceptedBytes(log) == DrainedBytes(log) + sh.fifo
    && Loaded(log) == EioChecks(log) + Remaining(sh.fault) + Overwritten(log)
    && |EioCalls(log)| == EioChecks(log)
  }

  ghost predicate LedgerInv(s: State) {
    && WakeInv(s)
    && Balanced(s.sh, s.log)
    && (forall id :: id in s.calls ==> CallOk(s.log, id, s.calls[id].call, s.calls[id].pc))
    && (forall id :: id !in s.calls ==> Unheard(s.log, id))
  }

  lemma FifoStep(sh: Shared, log: Log, v: Event, sh': Shared)
    requires AcceptedBytes(log) == DrainedBytes(log) + sh.fifo && Explains(sh, v, sh')
    ensures AcceptedBytes(Then(log, v)) == DrainedBytes(Then(log, v)) + sh'.fifo
  {
    match v
    case Accepted(_, b) => assert DrainedBytes(log) + sh.fifo + b == DrainedBytes(log) + (sh.fifo + b);
    case Delivered(_, b) => assert DrainedBytes(log) + (b + sh'.fifo) == DrainedBytes(log) + b + sh'.fifo;
    case Discarded(_, b) => assert DrainedBytes(log) + b + [] == DrainedBytes(log) + b;
    case _ =>
  }

  lemma BalancedStep(sh: Shared, log: Log, id: Id, e: Effect)
    requires Balanced(sh, log) && Accounted(sh, id, e)
    requires e.event.Some? && e.event.value.Checked? ==> id !in EioCalls(log)
    ensures Balanced(e.sh, Append(log, e.event))
  {
    if e.event.Some? {
      var v := e.event.value;
      FifoStep(sh, log, v, e.sh);
      match v
      case Accepted(_, _) =>
      case Delivered(_, _) =>
      case Discarded(_, _) =>
      case Stored(_, c) =>
      case Checked(_, seen) =>
    }
  }

  lemma CheckedIsFirstEio(sh: Shared, log: Log, id: Id, call: Call, pc: Pc, c: Choice)
    requires CanStep(sh, call, pc, c) && CallOk(log, id, call, pc)
    ensures var e := Local(sh, id, call, pc, c);
            e.event.Some? && e.event.value.Checked? ==> id !in EioCalls(log)
  {
    match pc
    case R(r, loc) =>
    case W(w) =>
    case P(p, t) =>
    case I(i) =>
  }

  lemma ApplyCallsOk(s: State, id: Id, call: Call, e: Effect)
    requires forall i :: i in s.calls ==> CallOk(s.log, i, s.calls[i].call, s.calls[i].pc)
    requires forall i :: i !in s.calls ==> Unheard(s.log, i)
    requires id in s.calls && Accounted(s.sh, id, e)
    requires CallOk(Append(s.log, e.event), id, call, e.pc)
    ensures var s' := Apply(s, id, call, e);
            (forall i :: i in s'.calls ==> CallOk(s'.log, i, s'.calls[i].call, s'.calls[i].pc)) &&
            (forall i :: i !in s'.calls ==> Unheard(s'.log, i))
  {
    var s' := Apply(s, id, call, e);
    forall i | i in s'.calls
      ensures CallOk(s'.log, i, s'.calls[i].call, s'.calls[i].pc)
    {
      if i != id {
        BystanderOk(s.log, i, s.calls[i].call, s.calls[i].pc, id, e.event, e.wake);
      }
    }
    forall i | i !in s'.calls ensures Unheard(s'.log, i) {
      assert i !in s.calls && Unheard(s.log, i);
    }
  }

  lemma EntryOk(log: Log, id: Id, call: Call)
    requires Unheard(log, id)
    ensures CallOk(log, id, call, Entry(call))
  {}

  lemma LedgerStep(s: State, id: Id, a: Action)
    requires LedgerInv(s) && Enabled(s, id, a)
    ensures LedgerInv(Next(s, id, a))
  {
    WakeStep(s, id, a);
    match a
    case Begin(call) =>
      assert Unheard(s.log, id);
      EntryOk(s.log, id, call);
      var s' := Next(s, id, a);
      forall i | i in s'.calls ensures CallOk(s'.log, i, s'.calls[i].call, s'.calls[i].pc) {
        if i != id {
          assert i in s.calls;
        }
      }
      forall i | i !in s'.calls ensures Unheard(s'.log, i) {
        assert i !in s.calls;
      }
    case Step(c) =>
      var act := s.calls[id];
      var e := Local(s.sh, id, act.call, act.pc, c);
      LocalAccounted(s.sh, id, act.call, act.pc, c);
      LocalCallOk(s.sh, s.log, id, act.call, act.pc, c);
      CheckedIsFirstEio(s.sh, s.log, id, act.call, act.pc, c);
      BalancedStep(s.sh, s.log, id, e);
      ApplyCallsOk(s, id, act.call, e);
  }

  lemma {:induction false} LedgerInvAlong(s: State, run: seq<Move>)
    requires LedgerInv(s) && Legal(s, run)
    ensures LedgerInv(Exec(s, run))
    decreases |run|
  {
    if run != [] {
      LedgerStep(s, run[0].id, run[0].action);
      LedgerInvAlong(Next(s, run[0].id, run[0].action), run[1..]);
    }
  }

  lemma ReachableLedgerInv(s: State)
    requires Reachable(s)
    ensures LedgerInv(s)
  {
    var run :| Legal(Init, run) && Exec(Init, run) == s;
    LedgerInvAlong(Init, run);
  }

  // ---- the ledgers ----

  /** FIFO ledger: what writes put in is what left, in order, followed by what is
      still there; the FIFO never overflows. */
  lemma FifoLedger(s: State)
    requires Reachable(s)
    ensures AcceptedBytes(s.log) == DrainedBytes(s.log) + s.sh.fifo
    ensures |s.sh.fifo| <= FIFO_SIZE
  {
    ReachableLedgerInv(s);
  }

  /** What has happened to a byte stays so: over any continuation the accepted
      stream, the drained stream and the owner of every drained byte only grow at
      the end. A byte a reset discarded is therefore never delivered, and no byte
      is delivered twice. */
  lemma {:induction false} FateIsFinal(s: State, run: seq<Move>)
    requires Legal(s, run)
    ensures var s' := Exec(s, run);
            AcceptedBytes(s.log) <= AcceptedBytes(s'.log) &&
            DrainedBytes(s.log) <= DrainedBytes(s'.log) &&
            Owners(s.log) <= Owners(s'.log)
    decreases |run|
  {
    if run != [] {
      LogGrows(s, run[0].id, run[0].action);
      FateIsFinal(Next(s, run[0].id, run[0].action), run[1..]);
    }
  }

  lemma LogGrows(s: State, id: Id, a: Action)
    requires Enabled(s, id, a)
    ensures var s' := Next(s, id, a);
            (s'.log == s.log || (s'.log.Then? && s'.log.before == s.log)) &&
            AcceptedBytes(s.log) <= AcceptedBytes(s'.log) &&
            DrainedBytes(s.log) <= DrainedBytes(s'.log) &&
            Owners(s.log) <= Owners(s'.log)
  {}

  /** The bytes b left the FIFO together, from position k on, and went to this call;
      no byte elsewhere did. */
  predicate OwnsSlice(log: Log, id: Id, k: nat, b: seq<Byte>) {
    && k + |b| <= |DrainedBytes(log)|
    && DrainedBytes(log)[k..k + |b|] == b
    && forall j :: 0 <= j < |Owners(log)| ==> (Owners(log)[j] == Some(id) <==> k <= j < k + |b|)
  }

  lemma {:induction false} OwnsNothing(log: Log, id: Id)
    requires Transfers(log, id) == 0
    ensures DeliveredTo(log, id) == []
    ensures forall j :: 0 <= j < |Owners(log)| ==> Owners(log)[j] != Some(id)
    decreases log
  {
    if log.Then? {
      OwnsNothing(log.before, id);
    }
  }

  lemma {:induction false} DeliveredIsASlice(log: Log, id: Id) returns (k: nat)
    requires Transfers(log, id) <= 1
    ensures OwnsSlice(log, id, k, DeliveredTo(log, id))
    decreases log
  {
    if Transfers(log, id) == 0 {
      OwnsNothing(log, id);
      k := 0;
    } else {
      var l, e := log.before, log.event;
      if e.Delivered? && e.id == id {
        OwnsNothing(l, id);
        k := |DrainedBytes(l)|;
        assert DeliveredTo(log, id) == e.bytes;
      } else {
        k := DeliveredIsASlice(l, id);
        assert DrainedBytes(l) <= DrainedBytes(log) && Owners(l) <= Owners(log);
      }
    }
  }

  /** The result of a finished read is one contiguous slice of the drained stream,
      owned by that read and by no other, and owned by it for good: bytes a reset
      discarded, or another read got, are in nobody else's result. */
  lemma ResultIsOwnSlice(s: State, id: Id, run: seq<Move>) returns (k: nat)
    requires Reachable(s) && id in s.calls && s.calls[id].pc.Done? && s.calls[id].pc.result.Data?
    requires Legal(s, run)
    ensures OwnsSlice(s.log, id, k, s.calls[id].pc.result.bytes)
    ensures var s' := Exec(s, run);
            forall j :: k <= j < k + |s.calls[id].pc.result.bytes| ==> j < |Owners(s'.log)| && Owners(s'.log)[j] == Some(id)
  {
    ReachableLedgerInv(s);
    assert CallOk(s.log, id, s.calls[id].call, s.calls[id].pc);
    k := DeliveredIsASlice(s.log, id);
    FateIsFinal(s, run);
  }

  /** A call that has moved bytes has done so once. */
  lemma TransfersOnce(s: State, id: Id)
    requires LedgerInv(s)
    ensures Transfers(s.log, id) <= 1
    ensures id !in s.calls ==> Transfers(s.log, id) == 0
  {
    if id in s.calls {
      assert CallOk(s.log, id, s.calls[id].call, s.calls[id].pc);
    } else {
      assert Unheard(s.log, id);
    }
  }

  /** A read that reports data reports the bytes that were taken out for it: at
      least one, at most what was asked for, and at most the last partial-read
      limit this very call observed, even if that fault has been cleared since. */
  lemma ReadResult(s: State, id: Id)
    requires Reachable(s) && id in s.calls
    requires s.calls[id].call.Read? && s.calls[id].call.count > 0
    requires s.calls[id].pc.Done? && s.calls[id].pc.result.Data?
    ensures var bytes := s.calls[id].pc.result.bytes;
            1 <= |bytes| <= s.calls[id].call.count &&
            (LastLimit(s.log, id) != 0 ==> |bytes| <= LastLimit(s.log, id)) &&
            bytes == DeliveredTo(s.log, id) &&
            Transfers(s.log, id) == 1
  {
    ReachableLedgerInv(s);
    assert CallOk(s.log, id, s.calls[id].call, s.calls[id].pc);
  }

  /** At its copy a read can take any prefix up to exactly the smallest of what was
      asked for, what is there, and the last limit the call observed; the full
      amount unless the user copy fails. */
  lemma CopyQuota(s: State, id: Id, n: nat)
    requires LedgerInv(s) && id in s.calls && s.calls[id].pc.R? && s.calls[id].pc.r.RCopy?
    ensures s.calls[id].call.Read? && s.calls[id].call.count > 0
    ensures Enabled(s, id, Step(Copied(n))) <==>
              n <= s.calls[id].call.count && n <= |s.sh.fifo| &&
              (LastLimit(s.log, id) != 0 ==> n <= LastLimit(s.log, id))
  {
    assert CallOk(s.log, id, s.calls[id].call, s.calls[id].pc);
  }

  /** A delay is slept at most once per read call: only the call's first meeting
      with a delay fault sends it to sleep. */
  lemma DelayedOnce(s: State, id: Id)
    requires Reachable(s) && id in s.calls && s.calls[id].pc.R?
    ensures s.calls[id].pc.r.RDelay? ==> DelayChecks(s.log, id) == 1
    ensures s.calls[id].pc.r.RCheck? && s.sh.fault.kind == FAULT_DELAY ==>
              (CheckFault(s.sh.fault, s.calls[id].pc.loc).2.Sleep? <==> DelayChecks(s.log, id) == 0)
  {
    ReachableLedgerInv(s);
    assert CallOk(s.log, id, s.calls[id].call, s.calls[id].pc);
  }

  /** A read that failed took nothing; a write accepted exactly the prefix of its
      buffer that it reports, and nothing if it failed. */
  lemma TransferResult(s: State, id: Id)
    requires Reachable(s) && id in s.calls && s.calls[id].pc.Done?
    ensures s.calls[id].pc.result.Failed? ==>
              DeliveredTo(s.log, id) == [] && AcceptedFrom(s.log, id) == [] && Transfers(s.log, id) == 0
    ensures s.calls[id].call.Write? && s.calls[id].pc.result.Wrote? ==>
              s.calls[id].pc.result.n <= |s.calls[id].call.data| &&
              AcceptedFrom(s.log, id) == s.calls[id].call.data[..s.calls[id].pc.result.n]
  {
    ReachableLedgerInv(s);
    assert CallOk(s.log, id, s.calls[id].call, s.calls[id].pc);
  }

  /** Reads that have returned -EIO, and reads on their way to returning it. */
  function ReturnedEio(s: State): set<Id> {
    set id | id in s.calls && s.calls[id].pc == Done(Failed(EIO))
  }

  function ReturningEio(s: State): set<Id> {
    set id | id in s.calls && s.calls[id].pc.R? && s.calls[id].pc.r == RCheckUnlock(Fail(EIO))
  }

  lemma EioMember(s: State, id: Id)
    requires LedgerInv(s)
    ensures id in EioCalls(s.log) <==> id in s.calls && EioPc(s.calls[id].pc)
    ensures id in s.calls && EioPc(s.calls[id].pc) ==> s.calls[id].call.Read?
  {
    if id in s.calls {
      assert CallOk(s.log, id, s.calls[id].call, s.calls[id].pc);
    } else {
      assert Unheard(s.log, id);
    }
  }

  lemma EioCallsSplit(s: State)
    requires LedgerInv(s)
    ensures EioCalls(s.log) == ReturnedEio(s) + ReturningEio(s) && ReturnedEio(s) !! ReturningEio(s)
    ensures forall id :: id in EioCalls(s.log) ==> s.calls[id].call.Read?
  {
    forall id
      ensures id in EioCalls(s.log) <==> id in ReturnedEio(s) || id in ReturningEio(s)
      ensures id in EioCalls(s.log) ==> s.calls[id].call.Read?
    {
      EioMember(s, id);
    }
  }

  /** EIO ledger: every loaded occurrence was returned by exactly one read, is on
      its way to one, is still pending, or was thrown away. */
  lemma EioLedger(s: State)
    requires Reachable(s)
    ensures Loaded(s.log) ==
              |ReturnedEio(s)| + |ReturningEio(s)| + Remaining(s.sh.fault) + Overwritten(s.log)
    ensures forall id :: id in ReturnedEio(s) + ReturningEio(s) ==> s.calls[id].call.Read?
  {
    assert Balanced(s.sh, s.log) && LedgerInv(s) by {
      ReachableLedgerInv(s);
    }
    EioCallsSplit(s);
    assert |ReturnedEio(s) + ReturningEio(s)| == |ReturnedEio(s)| + |ReturningEio(s)|;
  }

  /** The stored fault is always canonical, so the branches of the fault check for
      an exhausted EIO count and for an unknown type are dead. */
  lemma FaultAlwaysCanonical(s: State, loc: ReadLocals)
    requires Reachable(s)
    ensures Canonical(s.sh.fault)
    ensures s.sh.fault.kind == FAULT_EIO ==> s.sh.fault.repeat > 0
    ensures CheckFault(s.sh.fault, loc).2 != Fail(EINVAL)
    ensures s.sh.fault.kind == FAULT_DELAY && !loc.delayApplied ==>
              CheckFault(s.sh.fault, loc).2 == Sleep(s.sh.fault.delayMs)
  {
    ReachableLedgerInv(s);
  }
}
