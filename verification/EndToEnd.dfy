// The device, one monitor, one scenario runner writing payloads through
// LinuxDeviceBackend.write, and any number of callers that inject and clear
// read faults, all interleaved step by step. There is no disconnect and no reset.

module EndToEnd {
  import opened Common
  import opened Device
  import opened DeviceLocks
  import opened DeviceLedger
  import opened LineBuffer
  import opened Monitor

  /** LinuxDeviceBackend.write: all payloads begun so far, what the device has
      acknowledged, what is left of the current one, and the os.write in progress. */
  datatype Writer = Writer(offered: seq<Byte>, acked: seq<Byte>, remaining: seq<Byte>, call: Option<Id>, failed: bool)

  /** `consumed` and `eios` record what the monitor has been handed. */
  datatype Sys = Sys(dev: State, mon: Mon, monCall: Option<Id>, consumed: seq<Byte>, eios: nat, w: Writer)

  const Boot: Sys := Sys(Init, Started, None, [], 0, Writer([], [], [], None, false))

  datatype SysMove =
    | Control(id: Id, call: Call)
    | DeviceStep(id: Id, choice: Choice)
    | MonPoll(id: Id)
    | MonRead(id: Id)
    | MonReturn
    | MonStop
    | Offer(payload: seq<Byte>)
    | WriteBegin(id: Id)
    | WriteReturn

  predicate IsControl(call: Call) {
    (call.SetFault? && call.config.kind != FAULT_DISCONNECT) ||
    call.ClearFault? || call.GetFault? || call.Poll? || call.Unsupported?
  }

  predicate Returned(s: State, call: Option<Id>) {
    call.Some? && call.value in s.calls && s.calls[call.value].pc.Done?
  }

  predicate SysEnabled(s: Sys, mv: SysMove) {
    match mv
    case Control(id, call) => id !in s.dev.calls && IsControl(call)
    case DeviceStep(id, c) => Enabled(s.dev, id, Step(c))
    case MonPoll(id) => id !in s.dev.calls && s.monCall.None? && s.mon.phase.Polling?
    case MonRead(id) => id !in s.dev.calls && s.monCall.None? && s.mon.phase.Reading?
    case MonReturn => Returned(s.dev, s.monCall) && !s.mon.phase.Exited?
    case MonStop => s.monCall.None? && s.mon.phase.Polling?
    case Offer(_) => s.w.call.None? && !s.w.failed && s.w.remaining == []
    case WriteBegin(id) => id !in s.dev.calls && s.w.call.None? && !s.w.failed && s.w.remaining != []
    case WriteReturn => Returned(s.dev, s.w.call)
  }

  /** The body of the while loop of LinuxDeviceBackend.write after os.write. */
  function AfterWrite(w: Writer, r: Result): Writer {
    match r
    case Wrote(n) =>
      if n == 0 then w.(call := None, failed := true)
      else
        var k := Min(n, |w.remaining|);
        w.(call := None, acked := w.acked + w.remaining[..k], remaining := w.remaining[k..])
    case Failed(e) => w.(call := None, failed := e != ERESTARTSYS)
    case _ => w.(call := None, failed := true)
  }

  function SysNext(parse: Parser, max: nat, s: Sys, mv: SysMove): Sys
    requires SysEnabled(s, mv)
  {
    match mv
    case Control(id, call) => s.(dev := Next(s.dev, id, Begin(call)))
    case DeviceStep(id, c) => s.(dev := Next(s.dev, id, Step(c)))
    case MonPoll(id) => s.(dev := Next(s.dev, id, Begin(Poll(true, false))), monCall := Some(id))
    case MonRead(id) => s.(dev := Next(s.dev, id, Begin(Read(READ_SIZE, true))), monCall := Some(id))
    case MonReturn =>
      var r := s.dev.calls[s.monCall.value].pc.result;
      if s.mon.phase.Polling? then s.(mon := OnPoll(s.mon, r), monCall := None)
      else s.(mon := OnRead(parse, max, s.mon, r), monCall := None,
              consumed := if r.Data? then s.consumed + r.bytes else s.consumed,
              eios := if r == Failed(EIO) then s.eios + 1 else s.eios)
    case MonStop => s.(mon := s.mon.(phase := Exited(0)))
    case Offer(payload) => s.(w := s.w.(offered := s.w.offered + payload, remaining := payload))
    case WriteBegin(id) =>
      s.(dev := Next(s.dev, id, Begin(Write(s.w.remaining, false))), w := s.w.(call := Some(id)))
    case WriteReturn => s.(w := AfterWrite(s.w, s.dev.calls[s.w.call.value].pc.result))
  }

  predicate SysLegal(parse: Parser, max: nat, s: Sys, run: seq<SysMove>)
    decreases |run|
  {
    run == [] || (SysEnabled(s, run[0]) && SysLegal(parse, max, SysNext(parse, max, s, run[0]), run[1..]))
  }

  function SysExec(parse: Parser, max: nat, s: Sys, run: seq<SysMove>): Sys
    requires SysLegal(parse, max, s, run)
    decreases |run|
  {
    if run == [] then s else SysExec(parse, max, SysNext(parse, max, s, run[0]), run[1..])
  }

  lemma {:induction false} SysAppend(parse: Parser, max: nat, s: Sys, a: seq<SysMove>, b: seq<SysMove>)
    requires SysLegal(parse, max, s, a) && SysLegal(parse, max, SysExec(parse, max, s, a), b)
    ensures SysLegal(parse, max, s, a + b)
    ensures SysExec(parse, max, s, a + b) == SysExec(parse, max, SysExec(parse, max, s, a), b)
    decreases |a|
  {
    if a == [] {
      assert a + b == b;
    } else {
      SysAppend(parse, max, SysNext(parse, max, s, a[0]), a[1..], b);
      assert (a + b)[1..] == a[1..] + b;
    }
  }

  // ---- who does what ----

  predicate NoDisconnectIn(pc: Pc) {
    pc.I? && (pc.i.ILock? || pc.i.IStore?) ==> pc.i.config.kind != FAULT_DISCONNECT
  }

  predicate RoleOk(a: Activity, id: Id, monCall: Option<Id>, writeCall: Option<Id>) {
    && !a.call.Reset?
    && (a.call.SetFault? ==> a.call.config.kind != FAULT_DISCONNECT)
    && NoDisconnectIn(a.pc)
    && (a.call.Read? ==> a.pc.Done? || monCall == Some(id))
    && (a.call.Write? ==> a.pc.Done? || writeCall == Some(id))
  }

  ghost predicate Roles(s: Sys) {
    forall id :: id in s.dev.calls ==> RoleOk(s.dev.calls[id], id, s.monCall, s.w.call)
  }

  /** Which call can cause which log entry. */
  predicate Sensible(call: Call, e: Effect) {
    NoDisconnectIn(e.pc) &&
    (e.event.Some? ==>
       var v := e.event.value;
       !v.Discarded? &&
       (v.Delivered? ==> call.Read?) && (v.Accepted? ==> call.Write?) && (v.Checked? ==> call.Read?) &&
       (v.Stored? ==> v.config.kind != FAULT_DISCONNECT))
  }

  lemma LocalSensible(sh: Shared, id: Id, call: Call, pc: Pc, c: Choice)
    requires CanStep(sh, call, pc, c) && !call.Reset? && NoDisconnectIn(pc)
    requires call.SetFault? ==> call.config.kind != FAULT_DISCONNECT
    ensures Sensible(call, Local(sh, id, call, pc, c))
  {
    match pc
    case R(r, loc) =>
    case W(w) =>
    case P(p, t) =>
    case I(i) =>
  }

  // ---- the invariant ----

  /** Bytes the device has handed to the monitor's current read. */
  function InFlight(s: Sys): seq<Byte> {
    if s.monCall.Some? && s.mon.phase.Reading? then DeliveredTo(s.dev.log, s.monCall.value) else []
  }

  /** The monitor's current read is bound to return -EIO. */
  predicate EioComing(s: Sys) {
    s.monCall.Some? && s.mon.phase.Reading? && s.monCall.value in EioCalls(s.dev.log)
  }

  function InFlightEio(s: Sys): nat {
    if EioComing(s) then 1 else 0
  }

  /** Bytes the device has accepted for the writer's current os.write. */
  function Unacked(s: Sys): seq<Byte> {
    if s.w.call.Some? then AcceptedFrom(s.dev.log, s.w.call.value) else []
  }

  function EioEvents(log: seq<MonEvent>): nat {
    if log == [] then 0 else
      var e := log[|log| - 1];
      if e.ReadRetry? || e == ReadFailed(EIO) then EioEvents(log[..|log| - 1]) + 1
      else EioEvents(log[..|log| - 1])
  }

  ghost predicate CallsMatch(s: Sys) {
    && (s.monCall.Some? ==>
          s.monCall.value in s.dev.calls && !s.mon.phase.Exited? &&
          s.dev.calls[s.monCall.value].call == (if s.mon.phase.Polling? then Poll(true, false) else Read(READ_SIZE, true)))
    && (s.w.call.Some? ==>
          s.w.call.value in s.dev.calls && s.dev.calls[s.w.call.value].call == Write(s.w.remaining, false))
    && (s.w.remaining == [] ==> s.w.call.None?)
  }

  predicate Flow(parse: Parser, max: nat, s: Sys) {
    && DrainedBytes(s.dev.log) == s.consumed + InFlight(s)
    && AcceptedBytes(s.dev.log) == s.w.acked + Unacked(s)
    && s.w.offered == s.w.acked + s.w.remaining
    && s.mon.buf == Fold(parse, max, Empty, s.consumed)
    && EioChecks(s.dev.log) == (if EioComing(s) then s.eios + 1 else s.eios)
    && EioEvents(s.mon.log) == s.eios
  }

  ghost predicate SysInv(parse: Parser, max: nat, s: Sys) {
    LedgerInv(s.dev) && Roles(s) && CallsMatch(s) && MonInv(s.mon) && Flow(parse, max, s) &&
    !Disconnected(s.dev.sh.fault)
  }

  // ---- device steps ----

  lemma WokenRole(a: Activity, id: Id, m: Option<Id>, w: Option<Id>, wake: Wake)
    requires RoleOk(a, id, m, w)
    ensures RoleOk(Activity(a.call, Woken(a.pc, wake)), id, m, w)
  {}

  lemma DeviceStepRoles(s: Sys, id: Id, e: Effect)
    requires Roles(s) && CallsMatch(s) && id in s.dev.calls && !s.dev.calls[id].pc.Done?
    requires Sensible(s.dev.calls[id].call, e)
    ensures var s' := s.(dev := Apply(s.dev, id, s.dev.calls[id].call, e));
            Roles(s') && CallsMatch(s')
  {
    var s' := s.(dev := Apply(s.dev, id, s.dev.calls[id].call, e));
    forall i | i in s'.dev.calls ensures RoleOk(s'.dev.calls[i], i, s.monCall, s.w.call) {
      assert RoleOk(s.dev.calls[i], i, s.monCall, s.w.call);
      WokenRole(s.dev.calls[i], i, s.monCall, s.w.call, e.wake);
    }
  }

  lemma DeviceStepFlow(parse: Parser, max: nat, s: Sys, id: Id, e: Effect)
    requires Flow(parse, max, s) && CallsMatch(s) && id in s.dev.calls && !s.dev.calls[id].pc.Done?
    requires RoleOk(s.dev.calls[id], id, s.monCall, s.w.call)
    requires Sensible(s.dev.calls[id].call, e) && (e.event.Some? ==> e.event.value.id == id)
    requires e.event.Some? && e.event.value.Checked? ==> id !in EioCalls(s.dev.log)
    ensures Flow(parse, max, s.(dev := Apply(s.dev, id, s.dev.calls[id].call, e)))
  {
    if e.event.Some? {
      var v := e.event.value;
      if v.Delivered? || v.Checked? {
        assert s.monCall == Some(id) && s.mon.phase.Reading?;
        if v.Delivered? {
          assert s.consumed + InFlight(s) + v.bytes == s.consumed + (InFlight(s) + v.bytes);
        }
      } else if v.Accepted? {
        assert s.w.call == Some(id);
        assert s.w.acked + Unacked(s) + v.bytes == s.w.acked + (Unacked(s) + v.bytes);
      }
    }
  }

  /** Everything the stepping call's effect needs for the system invariant. */
  lemma StepFacts(s: State, id: Id, c: Choice, monCall: Option<Id>, writeCall: Option<Id>)
    requires LedgerInv(s) && Enabled(s, id, Step(c)) && RoleOk(s.calls[id], id, monCall, writeCall)
    ensures var e := Local(s.sh, id, s.calls[id].call, s.calls[id].pc, c);
            Sensible(s.calls[id].call, e) && (e.event.Some? ==> e.event.value.id == id) &&
            (e.event.Some? && e.event.value.Checked? ==> id !in EioCalls(s.log)) &&
            (e.sh.fault == s.sh.fault || !Disconnected(e.sh.fault) || Disconnected(s.sh.fault))
  {
    var act := s.calls[id];
    assert CallOk(s.log, id, act.call, act.pc);
    LocalSensible(s.sh, id, act.call, act.pc, c);
    LocalAccounted(s.sh, id, act.call, act.pc, c);
    CheckedIsFirstEio(s.sh, s.log, id, act.call, act.pc, c);
  }

  lemma DeviceStepInv(parse: Parser, max: nat, s: Sys, id: Id, c: Choice)
    requires SysInv(parse, max, s) && Enabled(s.dev, id, Step(c))
    ensures SysInv(parse, max, SysNext(parse, max, s, DeviceStep(id, c)))
  {
    var e := Local(s.dev.sh, id, s.dev.calls[id].call, s.dev.calls[id].pc, c);
    var s' := SysNext(parse, max, s, DeviceStep(id, c));
    assert s' == s.(dev := Apply(s.dev, id, s.dev.calls[id].call, e));
    assert LedgerInv(s'.dev) by {
      LedgerStep(s.dev, id, Step(c));
    }
    assert Roles(s') && CallsMatch(s') && Flow(parse, max, s') && !Disconnected(s'.dev.sh.fault) by {
      assert RoleOk(s.dev.calls[id], id, s.monCall, s.w.call);
      StepFacts(s.dev, id, c, s.monCall, s.w.call);
      DeviceStepRoles(s, id, e);
      DeviceStepFlow(parse, max, s, id, e);
    }
  }

  // ---- calls begun ----

  lemma BeginRoles(s: Sys, id: Id, call: Call, monCall: Option<Id>, w: Writer)
    requires Roles(s) && id !in s.dev.calls && !call.Reset?
    requires call.SetFault? ==> call.config.kind != FAULT_DISCONNECT
    requires call.Read? ==> monCall == Some(id)
    requires call.Write? ==> w.call == Some(id)
    requires s.monCall.None? || monCall == s.monCall
    requires s.w.call.None? || w.call == s.w.call
    ensures Roles(s.(dev := Next(s.dev, id, Begin(call)), monCall := monCall, w := w))
  {
    var s' := s.(dev := Next(s.dev, id, Begin(call)), monCall := monCall, w := w);
    forall i | i in s'.dev.calls ensures RoleOk(s'.dev.calls[i], i, monCall, w.call) {
      if i != id {
        assert RoleOk(s.dev.calls[i], i, s.monCall, s.w.call);
      }
    }
  }

  /** A call nobody has heard of yet changes no account. */
  lemma BeginFlow(parse: Parser, max: nat, s: Sys, id: Id, call: Call, monCall: Option<Id>, writeCall: Option<Id>)
    requires Flow(parse, max, s) && id !in s.dev.calls && Unheard(s.dev.log, id)
    requires monCall == s.monCall || (s.monCall.None? && monCall == Some(id))
    requires writeCall == s.w.call || (s.w.call.None? && writeCall == Some(id))
    ensures Flow(parse, max, s.(dev := Next(s.dev, id, Begin(call)), monCall := monCall, w := s.w.(call := writeCall)))
  {}

  lemma BeginInv(parse: Parser, max: nat, s: Sys, id: Id, call: Call, monCall: Option<Id>, writeCall: Option<Id>)
    requires SysInv(parse, max, s) && id !in s.dev.calls
    requires IsControl(call) || (call.Read? && monCall == Some(id)) || (call.Write? && writeCall == Some(id))
    requires monCall == s.monCall || (s.monCall.None? && monCall == Some(id))
    requires writeCall == s.w.call || (s.w.call.None? && writeCall == Some(id))
    ensures var s' := s.(dev := Next(s.dev, id, Begin(call)), monCall := monCall, w := s.w.(call := writeCall));
            CallsMatch(s') ==> SysInv(parse, max, s')
  {
    LedgerStep(s.dev, id, Begin(call));
    assert Unheard(s.dev.log, id);
    BeginRoles(s, id, call, monCall, s.w.(call := writeCall));
    BeginFlow(parse, max, s, id, call, monCall, writeCall);
  }

  // ---- results handled ----

  lemma EioEventsSnoc(log: seq<MonEvent>, e: MonEvent)
    ensures EioEvents(log + [e]) == EioEvents(log) + (if e.ReadRetry? || e == ReadFailed(EIO) then 1 else 0)
  {
    assert (log + [e])[..|log|] == log;
  }

  lemma {:induction false} EioEventsLines(log: seq<MonEvent>, es: seq<LineEvent>)
    ensures EioEvents(log + AsLines(es)) == EioEvents(log)
    decreases |es|
  {
    if es == [] {
      assert log + AsLines(es) == log;
    } else {
      var init := es[..|es| - 1];
      EioEventsLines(log, init);
      AsLinesSnoc(log, es);
      EioEventsSnoc(log + AsLines(init), Line(es[|es| - 1]));
    }
  }

  lemma OnDataEios(parse: Parser, max: nat, m: Mon, bytes: seq<Byte>)
    ensures EioEvents(OnRead(parse, max, m, Data(bytes)).log) == EioEvents(m.log)
  {
    if bytes == [] {
      EioEventsSnoc(m.log, DeviceEof);
    } else {
      EioEventsSnoc(m.log, RecoverySuccess(m.retries));
      FoldKeepsOut(parse, max, m.buf, bytes);
      var log1 := if m.retries > 0 then m.log + [RecoverySuccess(m.retries)] else m.log;
      EioEventsLines(log1, Fold(parse, max, m.buf, bytes).out[|m.buf.out|..]);
    }
  }

  lemma OnFailedEios(parse: Parser, max: nat, m: Mon, e: Errno)
    ensures EioEvents(OnRead(parse, max, m, Failed(e)).log) == EioEvents(m.log) + (if e == EIO then 1 else 0)
  {
    if e == EIO {
      EioEventsSnoc(m.log, if m.retries + 1 > MAX_EIO_RETRIES then ReadFailed(EIO) else ReadRetry(m.retries + 1));
    } else if e != EAGAIN {
      EioEventsSnoc(m.log, if e == ENODEV then DeviceDisconnected else ReadFailed(e));
    }
  }

  /** A read result makes exactly one EIO event if it is -EIO and none otherwise. */
  lemma OnReadEios(parse: Parser, max: nat, m: Mon, r: Result)
    ensures EioEvents(OnRead(parse, max, m, r).log) == EioEvents(m.log) + (if r == Failed(EIO) then 1 else 0)
  {
    if r.Failed? {
      OnFailedEios(parse, max, m, r.errno);
    } else if r.Data? {
      OnDataEios(parse, max, m, r.bytes);
    }
  }

  lemma OnReadBuffer(parse: Parser, max: nat, m: Mon, r: Result)
    ensures OnRead(parse, max, m, r).buf == (if r.Data? then Fold(parse, max, m.buf, r.bytes) else m.buf)
  {}

  /** Once a call has returned its slot is free again. */
  lemma ReleaseRoles(s: Sys, s': Sys)
    requires Roles(s) && s'.dev == s.dev
    requires s'.monCall == s.monCall || Returned(s.dev, s.monCall)
    requires s'.w.call == s.w.call || Returned(s.dev, s.w.call)
    ensures Roles(s')
  {
    forall i | i in s'.dev.calls ensures RoleOk(s'.dev.calls[i], i, s'.monCall, s'.w.call) {
      assert RoleOk(s.dev.calls[i], i, s.monCall, s.w.call);
    }
  }

  /** What the log says of a finished read is what its result says. */
  lemma FinishedRead(log: Log, id: Id, call: Call, r: Result)
    requires CallOk(log, id, call, Done(r))
    ensures DeliveredTo(log, id) == (if r.Data? then r.bytes else [])
    ensures id in EioCalls(log) <==> r == Failed(EIO)
  {}

  lemma ReadReturnFlow(parse: Parser, max: nat, s: Sys)
    requires Flow(parse, max, s) && SysEnabled(s, MonReturn) && s.mon.phase.Reading?
    requires var id := s.monCall.value; CallOk(s.dev.log, id, s.dev.calls[id].call, s.dev.calls[id].pc)
    ensures Flow(parse, max, SysNext(parse, max, s, MonReturn))
  {
    var id := s.monCall.value;
    var r := s.dev.calls[id].pc.result;
    var s' := SysNext(parse, max, s, MonReturn);
    FinishedRead(s.dev.log, id, s.dev.calls[id].call, r);
    OnReadEios(parse, max, s.mon, r);
    OnReadBuffer(parse, max, s.mon, r);
    if r.Data? {
      FoldConcat(parse, max, Empty, s.consumed, r.bytes);
    }
    assert s'.consumed == s.consumed + InFlight(s);
    assert s'.consumed + [] == s'.consumed;
  }

  lemma MonReturnInv(parse: Parser, max: nat, s: Sys)
    requires SysInv(parse, max, s) && SysEnabled(s, MonReturn)
    ensures SysInv(parse, max, SysNext(parse, max, s, MonReturn))
  {
    var id := s.monCall.value;
    var r := s.dev.calls[id].pc.result;
    assert CallOk(s.dev.log, id, s.dev.calls[id].call, s.dev.calls[id].pc);
    ReleaseRoles(s, SysNext(parse, max, s, MonReturn));
    if s.mon.phase.Polling? {
      OnPollInv(s.mon, r);
    } else {
      OnReadInv(parse, max, s.mon, r);
      ReadReturnFlow(parse, max, s);
    }
  }

  /** The write loop keeps its books: what was acknowledged and what is left are
      together always the payloads begun. */
  lemma AfterWriteKeeps(w: Writer, r: Result, n: nat)
    requires w.offered == w.acked + w.remaining && n <= |w.remaining| && w.remaining != []
    requires if r.Wrote? then r.n == n && n > 0 else n == 0
    ensures var w' := AfterWrite(w, r);
            w'.offered == w'.acked + w'.remaining && w'.acked == w.acked + w.remaining[..n] && w'.call.None? &&
            w'.failed == (if r.Wrote? then w.failed else r != Failed(ERESTARTSYS))
  {
    assert w.remaining == w.remaining[..n] + w.remaining[n..];
    assert w.acked + [] == w.acked;
  }

  lemma WriteReturnFlow(parse: Parser, max: nat, s: Sys)
    requires Flow(parse, max, s) && CallsMatch(s) && SysEnabled(s, WriteReturn)
    requires var id := s.w.call.value; CallOk(s.dev.log, id, s.dev.calls[id].call, s.dev.calls[id].pc)
    ensures var s' := SysNext(parse, max, s, WriteReturn);
            Flow(parse, max, s') && CallsMatch(s')
  {
    var s' := SysNext(parse, max, s, WriteReturn);
    var pc := s.dev.calls[s.w.call.value].pc;
    AfterWriteKeeps(s.w, pc.result, Sent(pc));
    assert s'.w.acked + [] == s'.w.acked;
  }

  lemma WriteReturnInv(parse: Parser, max: nat, s: Sys)
    requires SysInv(parse, max, s) && SysEnabled(s, WriteReturn)
    ensures SysInv(parse, max, SysNext(parse, max, s, WriteReturn))
  {
    var id := s.w.call.value;
    assert CallOk(s.dev.log, id, s.dev.calls[id].call, s.dev.calls[id].pc);
    ReleaseRoles(s, SysNext(parse, max, s, WriteReturn));
    WriteReturnFlow(parse, max, s);
  }

  lemma BeginMoveInv(parse: Parser, max: nat, s: Sys, mv: SysMove)
    requires SysInv(parse, max, s) && SysEnabled(s, mv)
    requires mv.Control? || mv.MonPoll? || mv.MonRead? || mv.WriteBegin?
    ensures SysInv(parse, max, SysNext(parse, max, s, mv))
  {
    var s' := SysNext(parse, max, s, mv);
    assert s'.w == s.w.(call := s'.w.call);
    assert CallsMatch(s');
    match mv
    case Control(id, call) => BeginInv(parse, max, s, id, call, s.monCall, s.w.call);
    case MonPoll(id) => BeginInv(parse, max, s, id, Poll(true, false), Some(id), s.w.call);
    case MonRead(id) => BeginInv(parse, max, s, id, Read(READ_SIZE, true), Some(id), s.w.call);
    case WriteBegin(id) => BeginInv(parse, max, s, id, Write(s.w.remaining, false), s.monCall, Some(id));
  }

  lemma LocalMoveFlow(parse: Parser, max: nat, s: Sys, mv: SysMove)
    requires Flow(parse, max, s) && CallsMatch(s) && MonInv(s.mon) && SysEnabled(s, mv) && (mv.MonStop? || mv.Offer?)
    ensures var s' := SysNext(parse, max, s, mv);
            Flow(parse, max, s') && CallsMatch(s') && MonInv(s'.mon) && s'.dev == s.dev
  {
    assert s.w.acked + [] == s.w.acked;
  }

  lemma LocalMoveInv(parse: Parser, max: nat, s: Sys, mv: SysMove)
    requires SysInv(parse, max, s) && SysEnabled(s, mv) && (mv.MonStop? || mv.Offer?)
    ensures SysInv(parse, max, SysNext(parse, max, s, mv))
  {
    ReleaseRoles(s, SysNext(parse, max, s, mv));
    LocalMoveFlow(parse, max, s, mv);
  }

  lemma SysStep(parse: Parser, max: nat, s: Sys, mv: SysMove)
    requires SysInv(parse, max, s) && SysEnabled(s, mv)
    ensures SysInv(parse, max, SysNext(parse, max, s, mv))
  {
    match mv
    case DeviceStep(id, c) => DeviceStepInv(parse, max, s, id, c);
    case MonReturn => MonReturnInv(parse, max, s);
    case WriteReturn => WriteReturnInv(parse, max, s);
    case MonStop => LocalMoveInv(parse, max, s, mv);
    case Offer(_) => LocalMoveInv(parse, max, s, mv);
    case _ => BeginMoveInv(parse, max, s, mv);
  }

  lemma BootInv(parse: Parser, max: nat)
    ensures SysInv(parse, max, Boot)
  {
    StartedInv();
    assert [MonitorStarted] == [] + [MonitorStarted];
    EioEventsSnoc([], MonitorStarted);
  }

  lemma {:induction false} SysInvAlong(parse: Parser, max: nat, s: Sys, run: seq<SysMove>)
    requires SysInv(parse, max, s) && SysLegal(parse, max, s, run)
    ensures SysInv(parse, max, SysExec(parse, max, s, run))
    decreases |run|
  {
    if run != [] {
      SysStep(parse, max, s, run[0]);
      SysInvAlong(parse, max, SysNext(parse, max, s, run[0]), run[1..]);
    }
  }

  lemma BootRunInv(parse: Parser, max: nat, run: seq<SysMove>)
    requires SysLegal(parse, max, Boot, run)
    ensures SysInv(parse, max, SysExec(parse, max, Boot, run))
  {
    BootInv(parse, max);
    SysInvAlong(parse, max, Boot, run);
  }

  // ---- the theorems ----

  /** At every moment of every interleaving: the bytes the device accepted are those
      the monitor has consumed, those on their way to it, and the FIFO; the
      monitor's line events are the fold of what it consumed. */
  lemma LinesFollowBytes(parse: Parser, max: nat, run: seq<SysMove>)
    requires SysLegal(parse, max, Boot, run)
    ensures var s := SysExec(parse, max, Boot, run);
            && AcceptedBytes(s.dev.log) == s.consumed + InFlight(s) + s.dev.sh.fifo
            && AcceptedBytes(s.dev.log) <= s.w.offered
            && Lines(s.mon.log) == Fold(parse, max, Empty, s.consumed).out
            && (max == 0 ==> Lines(s.mon.log) == StreamEvents(parse, s.consumed))
  {
    BootRunInv(parse, max, run);
    var s := SysExec(parse, max, Boot, run);
    FoldIsStreamMeaning(parse, Empty, s.consumed);
    if s.w.call.Some? {
      var id := s.w.call.value;
      assert CallOk(s.dev.log, id, s.dev.calls[id].call, s.dev.calls[id].pc);
      assert Unacked(s) <= s.w.remaining;
    }
  }

  /** The writer is through with its payloads, and nothing is left in the device. */
  predicate Drained(s: Sys) {
    s.w.call.None? && s.w.remaining == [] && s.dev.sh.fifo == [] && InFlight(s) == []
  }

  /** End-to-end transparency: once drained, the line events are those of the
      payloads themselves, whatever faults were injected, cleared or overwritten on
      the way and however reads, writes and controls interleaved. */
  lemma FaultTransparency(parse: Parser, max: nat, run: seq<SysMove>)
    requires SysLegal(parse, max, Boot, run)
    requires Drained(SysExec(parse, max, Boot, run))
    ensures var s := SysExec(parse, max, Boot, run);
            && s.consumed == s.w.offered
            && Lines(s.mon.log) == Fold(parse, max, Empty, s.w.offered).out
            && (max == 0 ==> Lines(s.mon.log) == StreamEvents(parse, s.w.offered))
  {
    LinesFollowBytes(parse, max, run);
    BootRunInv(parse, max, run);
    var s := SysExec(parse, max, Boot, run);
    assert s.consumed + [] + [] == s.consumed;
  }

  /** Two drained runs over the same bytes log the same line events, one with any
      faults, the other with none. */
  lemma SameBytesSameLines(parse: Parser, max: nat, faulty: seq<SysMove>, clean: seq<SysMove>)
    requires SysLegal(parse, max, Boot, faulty) && SysLegal(parse, max, Boot, clean)
    requires Drained(SysExec(parse, max, Boot, faulty)) && Drained(SysExec(parse, max, Boot, clean))
    requires SysExec(parse, max, Boot, faulty).w.offered == SysExec(parse, max, Boot, clean).w.offered
    ensures Lines(SysExec(parse, max, Boot, faulty).mon.log) == Lines(SysExec(parse, max, Boot, clean).mon.log)
  {
    FaultTransparency(parse, max, faulty);
    FaultTransparency(parse, max, clean);
  }

  /** Every EIO occurrence ever loaded is a READ_RETRY or a final READ_FAILED in the
      monitor's log, is on its way there, is pending in the device, or was replaced. */
  lemma InjectedEiosAreSeen(parse: Parser, max: nat, run: seq<SysMove>)
    requires SysLegal(parse, max, Boot, run)
    ensures var s := SysExec(parse, max, Boot, run);
            && Loaded(s.dev.log) ==
                 EioEvents(s.mon.log) + InFlightEio(s) + Remaining(s.dev.sh.fault) + Overwritten(s.dev.log)
            && Disciplined(s.mon.log)
            && !Disconnected(s.dev.sh.fault)
  {
    BootRunInv(parse, max, run);
  }
}
