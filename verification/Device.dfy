// The character device of kernel/vdevlab_core.c as a step machine.
//
// Any number of system calls are in flight at once. Each has a program counter
// that separates the points where another call can get in between: taking and
// dropping each mutex, every unlocked look at the fault type or the FIFO length,
// each user copy and each wake-up. The machine keeps a log of what was done to
// the shared state; the log is read by the theorems only.

module Device {
  import opened Common

  const FIFO_SIZE: nat := 4096
  const MAX_DELAY_MS: nat := 10000
  const MAX_FAULT_REPEAT: nat := 1000000
  const MAX_PARTIAL_READ: nat := 4096

  const FAULT_NONE: U32 := 0
  const FAULT_EIO: U32 := 1
  const FAULT_DELAY: U32 := 2
  const FAULT_DISCONNECT: U32 := 3
  const FAULT_PARTIAL_READ: U32 := 4

  /** struct vdevlab_fault_config */
  datatype Config = Config(kind: U32, repeat: U32, delayMs: U32, partialBytes: U32)

  const NoFault: Config := Config(FAULT_NONE, 0, 0, 0)

  datatype Errno = EIO | ENODEV | EAGAIN | EFAULT | EINVAL | ERESTARTSYS | ENOTTY

  datatype Mask = Mask(pollIn: bool, pollOut: bool, err: bool, hup: bool)

  const NoMask: Mask := Mask(false, false, false, false)

  datatype Call =
    | Read(count: nat, nonblock: bool)
    | Write(data: seq<Byte>, nonblock: bool)
    | Poll(wantIn: bool, wantOut: bool)
    | SetFault(config: Config)
    | GetFault
    | ClearFault
    | Reset
    | Unsupported

  datatype Result =
    | Data(bytes: seq<Byte>)
    | Wrote(n: nat)
    | Ready(mask: Mask)
    | Success
    | Got(config: Config)
    | Failed(errno: Errno)

  /** Variables of one vdevlab_read call; limit 0 means no partial-read limit. */
  datatype ReadLocals = ReadLocals(delayApplied: bool, limit: nat)

  /** What vdevlab_apply_read_fault tells its caller. */
  datatype Verdict = Proceed | Sleep(ms: nat) | Fail(errno: Errno)

  // Program counters. Comments say which mutex is held there.

  datatype ReadPc =
    | RCheckLock
    | RCheck                      // fault lock
    | RCheckUnlock(verdict: Verdict) // fault lock
    | RDelay
    | RFifoLock
    | RLook                       // FIFO lock
    | RMissUnlock                 // FIFO lock
    | RWait
    | RAsleep
    | RCopy                       // FIFO lock
    | RCopyUnlock(got: seq<Byte>) // FIFO lock
    | RWake(got: seq<Byte>)

  datatype WritePc =
    | WCheck
    | WFull
    | WWait
    | WAsleep
    | WRecheck
    | WFifoLock
    | WLook                       // FIFO lock
    | WMissUnlock                 // FIFO lock
    | WCopy                       // FIFO lock
    | WCopyUnlock(put: nat)       // FIFO lock
    | WWake(put: nat)

  /** poll(2) around vdevlab_poll */
  datatype PollPc =
    | PRegister
    | PType
    | PFifoLock
    | PMask                       // FIFO lock
    | PUnlock(mask: Mask)         // FIFO lock
    | PDecide(mask: Mask)
    | PAsleep

  datatype IoctlPc =
    | IValidate
    | ILock(config: Config)
    | IStore(config: Config)      // fault lock
    | IUnlock                     // fault lock
    | IWakeReaders
    | IWakeWriters
    | GLock
    | GCopy                       // fault lock
    | GUnlock(config: Config)     // fault lock
    | GOut(config: Config)
    | XLockFault
    | XLockFifo                   // fault lock
    | XClear                      // both locks
    | XFifo                       // both locks
    | XUnlockFifo                 // both locks
    | XUnlockFault                // fault lock

  datatype Pc =
    | R(r: ReadPc, loc: ReadLocals)
    | W(w: WritePc)
    | P(p: PollPc, triggered: bool)
    | I(i: IoctlPc)
    | Done(result: Result)

  /** How the outside world resolves a step: normally, by a signal or a bad user
      pointer, by a poll timeout, or with `n` bytes of a user copy done. */
  datatype Choice = Go | Abort | Expire | Copied(n: nat)

  type Id = nat

  datatype Shared = Shared(
    fault: Config, fifo: seq<Byte>,
    faultLock: Option<Id>, fifoLock: Option<Id>)

  datatype Event =
    | Checked(id: Id, seen: Config)
    | Stored(id: Id, config: Config)
    | Accepted(id: Id, bytes: seq<Byte>)
    | Delivered(id: Id, bytes: seq<Byte>)
    | Discarded(id: Id, bytes: seq<Byte>)

  datatype Log = Start | Then(before: Log, event: Event)

  datatype Activity = Activity(call: Call, pc: Pc)

  datatype State = State(sh: Shared, calls: map<Id, Activity>, log: Log)

  const Init: State := State(Shared(NoFault, [], None, None), map[], Start)

  // ---- the predicates and switches of the driver ----

  predicate InterruptsRead(fault: Config) {
    fault.kind == FAULT_EIO || fault.kind == FAULT_DISCONNECT
  }

  predicate Disconnected(fault: Config) {
    fault.kind == FAULT_DISCONNECT
  }

  predicate Full(fifo: seq<Byte>) {
    |fifo| >= FIFO_SIZE
  }

  predicate ReadCondition(sh: Shared) {
    sh.fifo != [] || InterruptsRead(sh.fault)
  }

  predicate WriteCondition(sh: Shared) {
    !Full(sh.fifo) || Disconnected(sh.fault)
  }

  /** The switch of vdevlab_apply_read_fault: the fault left behind, the caller's
      variables, and what the read does next. */
  function CheckFault(fault: Config, loc: ReadLocals): (Config, ReadLocals, Verdict) {
    if fault.kind == FAULT_NONE then (fault, loc, Proceed)
    else if fault.kind == FAULT_EIO then
      if fault.repeat == 0 then (NoFault, loc, Proceed)
      else if fault.repeat == 1 then (NoFault, loc, Fail(EIO))
      else (fault.(repeat := fault.repeat - 1), loc, Fail(EIO))
    else if fault.kind == FAULT_DELAY then
      if loc.delayApplied || fault.delayMs == 0 then (fault, loc.(delayApplied := true), Proceed)
      else (fault, loc.(delayApplied := true), Sleep(fault.delayMs))
    else if fault.kind == FAULT_PARTIAL_READ then
      (fault, loc.(limit := fault.partialBytes), Proceed)
    else if fault.kind == FAULT_DISCONNECT then (fault, loc, Fail(ENODEV))
    else (fault, loc, Fail(EINVAL))
  }

  /** The validation and normalisation of SET_FAULT; None is -EINVAL. */
  function Normalise(c: Config): Option<Config> {
    if c.kind == FAULT_NONE || c.kind == FAULT_DISCONNECT then
      Some(Config(c.kind, 0, 0, 0))
    else if c.kind == FAULT_EIO then
      if c.repeat == 0 || c.repeat > MAX_FAULT_REPEAT then None
      else Some(Config(c.kind, c.repeat, 0, 0))
    else if c.kind == FAULT_DELAY then
      if c.delayMs == 0 || c.delayMs > MAX_DELAY_MS then None
      else Some(Config(c.kind, 0, c.delayMs, 0))
    else if c.kind == FAULT_PARTIAL_READ then
      if c.partialBytes == 0 || c.partialBytes > MAX_PARTIAL_READ then None
      else Some(Config(c.kind, 0, 0, c.partialBytes))
    else None
  }

  /** `to_copy` of vdevlab_read. */
  function ReadQuota(count: nat, available: nat, limit: nat): nat {
    var n := Min(count, available);
    if limit != 0 then Min(n, limit) else n
  }

  /** `to_copy` of vdevlab_write. */
  function WriteQuota(count: nat, used: nat): nat {
    if used >= FIFO_SIZE then 0 else Min(count, FIFO_SIZE - used)
  }

  function PollMask(fifo: seq<Byte>): Mask {
    Mask(fifo != [], !Full(fifo), false, false)
  }

  predicate ReadyFor(call: Call, mask: Mask)
    requires call.Poll?
  {
    mask.err || mask.hup || (call.wantIn && mask.pollIn) || (call.wantOut && mask.pollOut)
  }

  /** The bits poll(2) hands to its caller: those asked for, and the error bits. */
  function Filter(call: Call, mask: Mask): Mask
    requires call.Poll?
  {
    Mask(mask.pollIn && call.wantIn, mask.pollOut && call.wantOut, mask.err, mask.hup)
  }

  // ---- which step a call can take ----

  predicate IoctlFits(call: Call, i: IoctlPc) {
    match call
    case SetFault(_) => i.IValidate? || i.ILock? || i.IStore? || i.IUnlock? || i.IWakeReaders? || i.IWakeWriters?
    case ClearFault => i.ILock? || i.IStore? || i.IUnlock? || i.IWakeReaders? || i.IWakeWriters?
    case GetFault => i.GLock? || i.GCopy? || i.GUnlock? || i.GOut?
    case Reset => i.XLockFault? || i.XLockFifo? || i.XClear? || i.XFifo? || i.XUnlockFifo? ||
      i.XUnlockFault? || i.IWakeReaders? || i.IWakeWriters?
    case _ => false
  }

  /** The program counter lies inside the code of this call. */
  predicate Fits(call: Call, pc: Pc) {
    match pc
    case R(_, _) => call.Read?
    case W(_) => call.Write?
    case P(_, _) => call.Poll?
    case I(i) => IoctlFits(call, i)
    case Done(_) => true
  }

  predicate CanRead(sh: Shared, call: Call, r: ReadPc, loc: ReadLocals, c: Choice)
    requires call.Read?
  {
    match r
    case RCheckLock => c.Go? && sh.faultLock.None?
    case RFifoLock => (c.Go? && sh.fifoLock.None?) || c.Abort?
    case RDelay => c.Go? || c.Abort?
    case RAsleep => c.Abort?
    case RCopy => c.Copied? && c.n <= ReadQuota(call.count, |sh.fifo|, loc.limit)
    case _ => c.Go?
  }

  predicate CanWrite(sh: Shared, call: Call, w: WritePc, c: Choice)
    requires call.Write?
  {
    match w
    case WFifoLock => (c.Go? && sh.fifoLock.None?) || c.Abort?
    case WAsleep => c.Abort?
    case WCopy => c.Copied? && c.n <= WriteQuota(|call.data|, |sh.fifo|)
    case _ => c.Go?
  }

  predicate CanPoll(sh: Shared, p: PollPc, c: Choice) {
    match p
    case PFifoLock => c.Go? && sh.fifoLock.None?
    case PDecide(_) => c.Go? || c.Abort? || c.Expire?
    case PAsleep => c.Abort? || c.Expire?
    case _ => c.Go?
  }

  predicate CanIoctl(sh: Shared, i: IoctlPc, c: Choice) {
    match i
    case ILock(_) => c.Go? && sh.faultLock.None?
    case GLock => c.Go? && sh.faultLock.None?
    case XLockFault => c.Go? && sh.faultLock.None?
    case XLockFifo => c.Go? && sh.fifoLock.None?
    case IValidate => c.Go? || c.Abort?
    case GOut(_) => c.Go? || c.Abort?
    case _ => c.Go?
  }

  predicate CanStep(sh: Shared, call: Call, pc: Pc, c: Choice) {
    Fits(call, pc) &&
    match pc
    case R(r, loc) => CanRead(sh, call, r, loc, c)
    case W(w) => CanWrite(sh, call, w, c)
    case P(p, _) => CanPoll(sh, p, c)
    case I(i) => CanIoctl(sh, i, c)
    case Done(_) => false
  }

  /** How a step goes when no signal, timeout or bad pointer intervenes: user copies
      are complete. */
  function Normal(sh: Shared, call: Call, pc: Pc): Choice {
    if pc.R? && pc.r.RCopy? && call.Read? then Copied(ReadQuota(call.count, |sh.fifo|, pc.loc.limit))
    else if pc.W? && pc.w.WCopy? && call.Write? then Copied(WriteQuota(|call.data|, |sh.fifo|))
    else Go
  }

  datatype Wake = Nobody | Readers | Writers

  /** What one step leaves behind: its own program counter, the shared state, at
      most one log entry, and the wait queue it wakes. */
  datatype Effect = Effect(pc: Pc, sh: Shared, event: Option<Event>, wake: Wake)

  function Quiet(pc: Pc, sh: Shared): Effect {
    Effect(pc, sh, None, Nobody)
  }

  function ReadStep(sh: Shared, id: Id, call: Call, r: ReadPc, loc: ReadLocals, c: Choice): Effect
    requires call.Read? && CanRead(sh, call, r, loc, c)
  {
    match r
    case RCheckLock => Quiet(R(RCheck, loc), sh.(faultLock := Some(id)))
    case RCheck =>
      var (fault', loc', verdict) := CheckFault(sh.fault, loc);
      Effect(R(RCheckUnlock(verdict), loc'), sh.(fault := fault'), Some(Checked(id, sh.fault)), Nobody)
    case RCheckUnlock(verdict) =>
      Quiet(match verdict
            case Proceed => R(RFifoLock, loc)
            case Sleep(_) => R(RDelay, loc)
            case Fail(e) => Done(Failed(e)), sh.(faultLock := None))
    case RDelay => Quiet(if c.Abort? then Done(Failed(ERESTARTSYS)) else R(RFifoLock, loc), sh)
    case RFifoLock =>
      if c.Abort? then Quiet(Done(Failed(ERESTARTSYS)), sh)
      else Quiet(R(RLook, loc), sh.(fifoLock := Some(id)))
    case RLook => Quiet(R(if sh.fifo != [] then RCopy else RMissUnlock, loc), sh)
    case RMissUnlock =>
      Quiet(if call.nonblock then Done(Failed(EAGAIN)) else R(RWait, loc), sh.(fifoLock := None))
    case RWait => Quiet(R(if ReadCondition(sh) then RCheckLock else RAsleep, loc), sh)
    case RAsleep => Quiet(Done(Failed(ERESTARTSYS)), sh)
    case RCopy =>
      var got := sh.fifo[..c.n];
      Effect(R(RCopyUnlock(got), loc), sh.(fifo := sh.fifo[c.n..]),
             if c.n > 0 then Some(Delivered(id, got)) else None, Nobody)
    case RCopyUnlock(got) => Quiet(R(RWake(got), loc), sh.(fifoLock := None))
    case RWake(got) =>
      if got == [] then Quiet(Done(Failed(EFAULT)), sh)
      else Effect(Done(Data(got)), sh, None, Writers)
  }

  function WriteStep(sh: Shared, id: Id, call: Call, w: WritePc, c: Choice): Effect
    requires call.Write? && CanWrite(sh, call, w, c)
  {
    match w
    case WCheck =>
      Quiet(if Disconnected(sh.fault) then Done(Failed(ENODEV))
            else W(if call.nonblock then WFull else WWait), sh)
    case WFull => Quiet(if Full(sh.fifo) then Done(Failed(EAGAIN)) else W(WFifoLock), sh)
    case WWait => Quiet(W(if WriteCondition(sh) then WRecheck else WAsleep), sh)
    case WAsleep => Quiet(Done(Failed(ERESTARTSYS)), sh)
    case WRecheck => Quiet(W(if Disconnected(sh.fault) then WCheck else WFifoLock), sh)
    case WFifoLock =>
      if c.Abort? then Quiet(Done(Failed(ERESTARTSYS)), sh)
      else Quiet(W(WLook), sh.(fifoLock := Some(id)))
    case WLook => Quiet(W(if Full(sh.fifo) then WMissUnlock else WCopy), sh)
    case WMissUnlock =>
      Quiet(if call.nonblock then Done(Failed(EAGAIN)) else W(WCheck), sh.(fifoLock := None))
    case WCopy =>
      var put := call.data[..c.n];
      Effect(W(WCopyUnlock(c.n)), sh.(fifo := sh.fifo + put),
             if c.n > 0 then Some(Accepted(id, put)) else None, Nobody)
    case WCopyUnlock(n) => Quiet(W(WWake(n)), sh.(fifoLock := None))
    case WWake(n) =>
      if n == 0 then Quiet(Done(Failed(EFAULT)), sh)
      else Effect(Done(Wrote(n)), sh, None, Readers)
  }

  function PollStep(sh: Shared, id: Id, call: Call, p: PollPc, t: bool, c: Choice): Effect
    requires call.Poll? && CanPoll(sh, p, c)
  {
    match p
    case PRegister => Quiet(P(PType, false), sh)
    case PType =>
      Quiet(P(if sh.fault.kind == FAULT_DISCONNECT then PDecide(Mask(false, false, true, true))
              else if sh.fault.kind == FAULT_EIO then PDecide(Mask(false, false, true, false))
              else PFifoLock, t), sh)
    case PFifoLock => Quiet(P(PMask, t), sh.(fifoLock := Some(id)))
    case PMask => Quiet(P(PUnlock(PollMask(sh.fifo)), t), sh)
    case PUnlock(m) => Quiet(P(PDecide(m), t), sh.(fifoLock := None))
    case PDecide(m) =>
      Quiet(if ReadyFor(call, m) then Done(Ready(Filter(call, m)))
            else if c.Abort? then Done(Failed(ERESTARTSYS))
            else if c.Expire? then Done(Ready(NoMask))
            else P(if t then PType else PAsleep, false), sh)
    case PAsleep => Quiet(Done(if c.Abort? then Failed(ERESTARTSYS) else Ready(NoMask)), sh)
  }

  function IoctlStep(sh: Shared, id: Id, call: Call, i: IoctlPc, c: Choice): Effect
    requires IoctlFits(call, i) && CanIoctl(sh, i, c)
  {
    match i
    case IValidate =>
      Quiet(if c.Abort? then Done(Failed(EFAULT))
            else match Normalise(call.config)
                 case None => Done(Failed(EINVAL))
                 case Some(config) => I(ILock(config)), sh)
    case ILock(config) => Quiet(I(IStore(config)), sh.(faultLock := Some(id)))
    case IStore(config) => Effect(I(IUnlock), sh.(fault := config), Some(Stored(id, config)), Nobody)
    case IUnlock => Quiet(I(IWakeReaders), sh.(faultLock := None))
    case IWakeReaders => Effect(I(IWakeWriters), sh, None, Readers)
    case IWakeWriters => Effect(Done(Success), sh, None, Writers)
    case GLock => Quiet(I(GCopy), sh.(faultLock := Some(id)))
    case GCopy => Quiet(I(GUnlock(sh.fault)), sh)
    case GUnlock(config) => Quiet(I(GOut(config)), sh.(faultLock := None))
    case GOut(config) => Quiet(Done(if c.Abort? then Failed(EFAULT) else Got(config)), sh)
    case XLockFault => Quiet(I(XLockFifo), sh.(faultLock := Some(id)))
    case XLockFifo => Quiet(I(XClear), sh.(fifoLock := Some(id)))
    case XClear => Effect(I(XFifo), sh.(fault := NoFault), Some(Stored(id, NoFault)), Nobody)
    case XFifo => Effect(I(XUnlockFifo), sh.(fifo := []), Some(Discarded(id, sh.fifo)), Nobody)
    case XUnlockFifo => Quiet(I(XUnlockFault), sh.(fifoLock := None))
    case XUnlockFault => Quiet(I(IWakeReaders), sh.(faultLock := None))
  }

  function Local(sh: Shared, id: Id, call: Call, pc: Pc, c: Choice): Effect
    requires CanStep(sh, call, pc, c)
  {
    match pc
    case R(r, loc) => ReadStep(sh, id, call, r, loc, c)
    case W(w) => WriteStep(sh, id, call, w, c)
    case P(p, t) => PollStep(sh, id, call, p, t, c)
    case I(i) => IoctlStep(sh, id, call, i, c)
  }

  // ---- whole-system steps ----

  /** What wake_up on a queue does to one call. A poller is on both queues: if it
      sleeps it polls again, otherwise it is marked so that it will not sleep. */
  function Woken(pc: Pc, wake: Wake): Pc {
    match pc
    case R(r, loc) => if r.RAsleep? && wake.Readers? then R(RWait, loc) else pc
    case W(w) => if w.WAsleep? && wake.Writers? then W(WWait) else pc
    case P(p, _) =>
      if wake.Nobody? || p.PRegister? then pc
      else if p.PAsleep? then P(PType, false) else P(p, true)
    case _ => pc
  }

  function WakeAll(calls: map<Id, Activity>, wake: Wake): (r: map<Id, Activity>)
    ensures r.Keys == calls.Keys
    ensures forall i :: i in calls ==> r[i] == Activity(calls[i].call, Woken(calls[i].pc, wake))
  {
    map i | i in calls :: Activity(calls[i].call, Woken(calls[i].pc, wake))
  }

  function Append(log: Log, event: Option<Event>): Log {
    match event
    case None => log
    case Some(e) => Then(log, e)
  }

  function Apply(s: State, id: Id, call: Call, e: Effect): State {
    State(e.sh, WakeAll(s.calls, e.wake)[id := Activity(call, e.pc)], Append(s.log, e.event))
  }

  /** The first program counter of a call. */
  function Entry(call: Call): Pc {
    match call
    case Read(count, _) => if count == 0 then Done(Data([])) else R(RCheckLock, ReadLocals(false, 0))
    case Write(data, _) => if data == [] then Done(Wrote(0)) else W(WCheck)
    case Poll(_, _) => P(PRegister, false)
    case SetFault(_) => I(IValidate)
    case GetFault => I(GLock)
    case ClearFault => I(ILock(NoFault))
    case Reset => I(XLockFault)
    case Unsupported => Done(Failed(ENOTTY))
  }

  datatype Action = Begin(call: Call) | Step(choice: Choice)

  predicate Enabled(s: State, id: Id, a: Action) {
    match a
    case Begin(_) => id !in s.calls
    case Step(c) => id in s.calls && CanStep(s.sh, s.calls[id].call, s.calls[id].pc, c)
  }

  function Next(s: State, id: Id, a: Action): State
    requires Enabled(s, id, a)
  {
    match a
    case Begin(call) => s.(calls := s.calls[id := Activity(call, Entry(call))])
    case Step(c) =>
      var act := s.calls[id];
      Apply(s, id, act.call, Local(s.sh, id, act.call, act.pc, c))
  }

  datatype Move = Move(id: Id, action: Action)

  predicate Legal(s: State, run: seq<Move>)
    decreases |run|
  {
    run == [] || (Enabled(s, run[0].id, run[0].action) &&
                  Legal(Next(s, run[0].id, run[0].action), run[1..]))
  }

  function Exec(s: State, run: seq<Move>): State
    requires Legal(s, run)
    decreases |run|
  {
    if run == [] then s else Exec(Next(s, run[0].id, run[0].action), run[1..])
  }

  /** Some interleaving leads from the freshly loaded module to this state. */
  ghost predicate Reachable(s: State) {
    exists run :: Legal(Init, run) && Exec(Init, run) == s
  }

  function PcOf(s: State, id: Id): Pc
    requires id in s.calls
  {
    s.calls[id].pc
  }
}
