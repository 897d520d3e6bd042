// The poll/read/retry loop of examples/vtemp_monitor.c.

module Monitor {
  import opened Common
  import opened Device
  import opened LineBuffer

  const MAX_EIO_RETRIES: nat := 3
  const READ_SIZE: nat := 512

  datatype MonEvent =
    | MonitorStarted
    | Line(line: LineEvent)
    | ReadRetry(retry: nat)
    | RecoverySuccess(retries: nat)
    | DeviceDisconnected
    | ReadFailed(errno: Errno)
    | DeviceEof

  datatype Phase = Polling | Reading | Exited(code: nat)

  datatype Mon = Mon(buf: Buffer, retries: nat, phase: Phase, log: seq<MonEvent>)

  const Started: Mon := Mon(Empty, 0, Polling, [MonitorStarted])

  function AsLines(es: seq<LineEvent>): seq<MonEvent> {
    seq(|es|, i requires 0 <= i < |es| => Line(es[i]))
  }

  lemma AsLinesSnoc(log: seq<MonEvent>, es: seq<LineEvent>)
    requires es != []
    ensures log + AsLines(es) == (log + AsLines(es[..|es| - 1])) + [Line(es[|es| - 1])]
  {
    assert AsLines(es) == AsLines(es[..|es| - 1]) + [Line(es[|es| - 1])];
  }

  /** After poll(2). An interrupted poll is retried; any other failure ends the program. */
  function OnPoll(m: Mon, r: Result): Mon {
    match r
    case Failed(e) => if e == ERESTARTSYS then m else m.(phase := Exited(1))
    case Ready(mask) => if mask.pollIn || mask.err || mask.hup then m.(phase := Reading) else m
    case _ => m
  }

  function OnRead(parse: Parser, max: nat, m: Mon, r: Result): Mon {
    match r
    case Failed(e) =>
      if e == EAGAIN then m.(phase := Polling)
      else if e == EIO then
        if m.retries + 1 > MAX_EIO_RETRIES
        then m.(retries := m.retries + 1, phase := Exited(1), log := m.log + [ReadFailed(EIO)])
        else m.(retries := m.retries + 1, phase := Polling, log := m.log + [ReadRetry(m.retries + 1)])
      else if e == ENODEV then m.(phase := Exited(0), log := m.log + [DeviceDisconnected])
      else m.(phase := Exited(1), log := m.log + [ReadFailed(e)])
    case Data(bytes) =>
      if bytes == [] then m.(phase := Exited(0), log := m.log + [DeviceEof])
      else
        var log1 := if m.retries > 0 then m.log + [RecoverySuccess(m.retries)] else m.log;
        var buf' := Fold(parse, max, m.buf, bytes);
        FoldKeepsOut(parse, max, m.buf, bytes);
        Mon(buf', 0, if buf'.stopped then Exited(0) else Polling, log1 + AsLines(buf'.out[|m.buf.out|..]))
    case _ => m
  }

  lemma {:induction false} FoldKeepsOut(parse: Parser, max: nat, b: Buffer, data: seq<Byte>)
    ensures b.out <= Fold(parse, max, b, data).out
    decreases |data|
  {
    if data != [] {
      FoldKeepsOut(parse, max, b, data[..|data| - 1]);
    }
  }

  /** What the outside world does in one pass of the loop. */
  datatype Turn = Turn(stopRequested: bool, poll: Result, read: Result)

  function OnTurn(parse: Parser, max: nat, m: Mon, t: Turn): Mon
    requires m.phase.Polling?
  {
    if t.stopRequested then m.(phase := Exited(0)) else
      var p := OnPoll(m, t.poll);
      if p.phase.Reading? then OnRead(parse, max, p, t.read) else p
  }

  /** The whole program over a sequence of passes; passes after the exit do not happen. */
  function RunTurns(parse: Parser, max: nat, turns: seq<Turn>): Mon
    decreases |turns|
  {
    if turns == [] then Started else
      var m := RunTurns(parse, max, turns[..|turns| - 1]);
      if m.phase.Polling? then OnTurn(parse, max, m, turns[|turns| - 1]) else m
  }

  /** The device answers a read with data or an error. */
  predicate IsReadResult(r: Result) {
    r.Data? || r.Failed?
  }

  // ---- the log of line events ----

  function Lines(log: seq<MonEvent>): seq<LineEvent> {
    if log == [] then []
    else
      var e := log[|log| - 1];
      Lines(log[..|log| - 1]) + (if e.Line? then [e.line] else [])
  }

  lemma LinesSnoc(log: seq<MonEvent>, e: MonEvent)
    ensures Lines(log + [e]) == Lines(log) + (if e.Line? then [e.line] else [])
  {
    assert (log + [e])[..|log|] == log;
  }

  lemma {:induction false} LinesAppend(log: seq<MonEvent>, es: seq<LineEvent>)
    ensures Lines(log + AsLines(es)) == Lines(log) + es
    decreases |es|
  {
    if es == [] {
      assert log + AsLines(es) == log;
    } else {
      var init, last := es[..|es| - 1], es[|es| - 1];
      LinesAppend(log, init);
      AsLinesSnoc(log, es);
      LinesSnoc(log + AsLines(init), Line(last));
      assert init + [last] == es;
    }
  }

  // ---- the retry discipline of the log ----

  /** Retries since the last recovery. */
  function OpenRetries(log: seq<MonEvent>): nat {
    if log == [] then 0 else
      var e := log[|log| - 1];
      if e.RecoverySuccess? then 0
      else if e.ReadRetry? then OpenRetries(log[..|log| - 1]) + 1
      else OpenRetries(log[..|log| - 1])
  }

  /** Retries are numbered 1, 2, 3 since the last recovery; a recovery reports how
      many there were and there was at least one. */
  predicate Disciplined(log: seq<MonEvent>) {
    if log == [] then true else
      var e, before := log[|log| - 1], log[..|log| - 1];
      Disciplined(before) &&
      (e.ReadRetry? ==> e.retry == OpenRetries(before) + 1 <= MAX_EIO_RETRIES) &&
      (e.RecoverySuccess? ==> e.retries == OpenRetries(before) >= 1)
  }

  lemma DisciplinedSnoc(log: seq<MonEvent>, e: MonEvent)
    requires Disciplined(log)
    requires e.ReadRetry? ==> e.retry == OpenRetries(log) + 1 <= MAX_EIO_RETRIES
    requires e.RecoverySuccess? ==> e.retries == OpenRetries(log) >= 1
    ensures Disciplined(log + [e])
    ensures OpenRetries(log + [e]) ==
              (if e.RecoverySuccess? then 0 else OpenRetries(log) + (if e.ReadRetry? then 1 else 0))
  {
    assert (log + [e])[..|log|] == log;
  }

  lemma {:induction false} DisciplinedLines(log: seq<MonEvent>, es: seq<LineEvent>)
    requires Disciplined(log)
    ensures Disciplined(log + AsLines(es)) && OpenRetries(log + AsLines(es)) == OpenRetries(log)
    decreases |es|
  {
    if es == [] {
      assert log + AsLines(es) == log;
    } else {
      var init, last := es[..|es| - 1], es[|es| - 1];
      DisciplinedLines(log, init);
      AsLinesSnoc(log, es);
      DisciplinedSnoc(log + AsLines(init), Line(last));
    }
  }

  /** What holds of the monitor at every moment. */
  predicate MonInv(m: Mon) {
    && Disciplined(m.log)
    && Lines(m.log) == m.buf.out
    && (!m.phase.Exited? ==> m.retries == OpenRetries(m.log) && m.retries <= MAX_EIO_RETRIES && !m.buf.stopped)
  }

  lemma StartedInv()
    ensures MonInv(Started)
  {
    assert [MonitorStarted] == [] + [MonitorStarted];
    LinesSnoc([], MonitorStarted);
    DisciplinedSnoc([], MonitorStarted);
  }

  lemma OnPollInv(m: Mon, r: Result)
    requires MonInv(m) && m.phase.Polling?
    ensures MonInv(OnPoll(m, r)) && OnPoll(m, r).buf == m.buf && OnPoll(m, r).log == m.log
  {}

  lemma SnocInv(m: Mon, e: MonEvent)
    requires MonInv(m) && !m.phase.Exited? && !e.Line? && !e.RecoverySuccess?
    requires e.ReadRetry? ==> e.retry == m.retries + 1 <= MAX_EIO_RETRIES
    ensures Disciplined(m.log + [e]) && Lines(m.log + [e]) == m.buf.out
    ensures OpenRetries(m.log + [e]) == OpenRetries(m.log) + (if e.ReadRetry? then 1 else 0)
  {
    LinesSnoc(m.log, e);
    DisciplinedSnoc(m.log, e);
  }

  lemma FailedInv(parse: Parser, max: nat, m: Mon, e: Errno)
    requires MonInv(m) && m.phase.Reading?
    ensures MonInv(OnRead(parse, max, m, Failed(e)))
  {
    if e == EIO && m.retries + 1 <= MAX_EIO_RETRIES {
      SnocInv(m, ReadRetry(m.retries + 1));
    } else if e != EAGAIN {
      SnocInv(m, if e == ENODEV then DeviceDisconnected else ReadFailed(e));
    }
  }

  lemma OnReadInv(parse: Parser, max: nat, m: Mon, r: Result)
    requires MonInv(m) && m.phase.Reading?
    ensures MonInv(OnRead(parse, max, m, r))
  {
    if r.Failed? {
      FailedInv(parse, max, m, r.errno);
    } else if r == Data([]) {
      SnocInv(m, DeviceEof);
    } else if r.Data? {
      DataInv(parse, max, m, r.bytes);
    }
  }

  lemma DataInv(parse: Parser, max: nat, m: Mon, bytes: seq<Byte>)
    requires MonInv(m) && m.phase.Reading? && bytes != []
    ensures MonInv(OnRead(parse, max, m, Data(bytes)))
  {
    var log1 := if m.retries > 0 then m.log + [RecoverySuccess(m.retries)] else m.log;
    if m.retries > 0 {
      LinesSnoc(m.log, RecoverySuccess(m.retries));
      DisciplinedSnoc(m.log, RecoverySuccess(m.retries));
    }
    var buf' := Fold(parse, max, m.buf, bytes);
    FoldKeepsOut(parse, max, m.buf, bytes);
    var added := buf'.out[|m.buf.out|..];
    LinesAppend(log1, added);
    DisciplinedLines(log1, added);
    assert m.buf.out + added == buf'.out;
  }

  lemma {:induction false} RunTurnsInv(parse: Parser, max: nat, turns: seq<Turn>)
    ensures MonInv(RunTurns(parse, max, turns))
    decreases |turns|
  {
    if turns == [] {
      StartedInv();
    } else {
      RunTurnsInv(parse, max, turns[..|turns| - 1]);
      var m := RunTurns(parse, max, turns[..|turns| - 1]);
      var t := turns[|turns| - 1];
      if m.phase.Polling? && !t.stopRequested {
        OnPollInv(m, t.poll);
        if OnPoll(m, t.poll).phase.Reading? {
          OnReadInv(parse, max, OnPoll(m, t.poll), t.read);
        }
      }
    }
  }

  // ---- how it ends ----

  predicate Final(e: MonEvent) {
    e.ReadFailed? || e.DeviceDisconnected? || e.DeviceEof?
  }

  /** A final event is the last one; it comes with the exit, and tells the code. */
  predicate EndsRight(m: Mon) {
    && m.log != []
    && (forall i :: 0 <= i < |m.log| - 1 ==> !Final(m.log[i]))
    && (Final(m.log[|m.log| - 1]) ==> m.phase == Exited(if m.log[|m.log| - 1].ReadFailed? then 1 else 0))
    && (m.phase.Exited? ==> m.phase.code <= 1)
  }

  lemma OnReadEndsRight(parse: Parser, max: nat, m: Mon, r: Result)
    requires EndsRight(m) && m.phase.Reading? && !Final(m.log[|m.log| - 1])
    ensures EndsRight(OnRead(parse, max, m, r))
    ensures OnRead(parse, max, m, r).phase == Exited(1) ==> Final(OnRead(parse, max, m, r).log[|OnRead(parse, max, m, r).log| - 1])
  {
    if r.Data? {
      FoldKeepsOut(parse, max, m.buf, r.bytes);
    }
  }

  predicate PollFails(t: Turn) {
    t.poll.Failed? && t.poll.errno != ERESTARTSYS
  }

  /** An exit code of 1 without READ_FAILED. */
  predicate ExitedSilently(m: Mon) {
    m.phase == Exited(1) && m.log != [] && !m.log[|m.log| - 1].ReadFailed?
  }

  /** One turn ends right, and fails silently only if poll fails. */
  lemma TurnEndsRight(parse: Parser, max: nat, m: Mon, t: Turn)
    requires EndsRight(m) && m.phase.Polling?
    ensures var m' := OnTurn(parse, max, m, t);
            EndsRight(m') && (ExitedSilently(m') ==> PollFails(t))
  {
    if !t.stopRequested && OnPoll(m, t.poll).phase.Reading? {
      OnReadEndsRight(parse, max, OnPoll(m, t.poll), t.read);
    }
  }

  lemma {:induction false} RunEndsRight(parse: Parser, max: nat, turns: seq<Turn>)
    ensures EndsRight(RunTurns(parse, max, turns))
    decreases |turns|
  {
    if turns != [] {
      var k := |turns| - 1;
      RunEndsRight(parse, max, turns[..k]);
      if RunTurns(parse, max, turns[..k]).phase.Polling? {
        TurnEndsRight(parse, max, RunTurns(parse, max, turns[..k]), turns[k]);
      }
    }
  }

  lemma {:induction false} SilentExit(parse: Parser, max: nat, turns: seq<Turn>) returns (i: nat)
    requires ExitedSilently(RunTurns(parse, max, turns))
    ensures i < |turns| && PollFails(turns[i])
    decreases |turns|
  {
    var k := |turns| - 1;
    var m := RunTurns(parse, max, turns[..k]);
    if m.phase.Polling? {
      RunEndsRight(parse, max, turns[..k]);
      TurnEndsRight(parse, max, m, turns[k]);
      i := k;
    } else {
      i := SilentExit(parse, max, turns[..k]);
    }
  }

  /** Over every run: READ_FAILED, DEVICE_DISCONNECTED and DEVICE_EOF end the
      program, the first with code 1 and the others with 0; a code of 1 has no other
      cause than READ_FAILED or a failing poll. */
  lemma ExitTellsWhy(parse: Parser, max: nat, turns: seq<Turn>)
    ensures var m := RunTurns(parse, max, turns);
            EndsRight(m) &&
            (m.phase == Exited(1) && !m.log[|m.log| - 1].ReadFailed? ==>
               exists i :: 0 <= i < |turns| && PollFails(turns[i]))
  {
    RunEndsRight(parse, max, turns);
    if ExitedSilently(RunTurns(parse, max, turns)) {
      var i := SilentExit(parse, max, turns);
    }
  }

  // ---- what each poll and read result leads to ----

  /** The turn gets as far as read(2). */
  predicate TakesRead(t: Turn) {
    !t.stopRequested && t.poll.Ready? && (t.poll.mask.pollIn || t.poll.mask.err || t.poll.mask.hup)
  }

  /** -EIO results since the last data. */
  function Streak(turns: seq<Turn>): nat {
    if turns == [] then 0 else
      var t, before := turns[|turns| - 1], Streak(turns[..|turns| - 1]);
      if !TakesRead(t) then before
      else if t.read == Failed(EIO) then before + 1
      else if t.read.Data? then 0
      else before
  }

  lemma {:induction false} StreakIsRetries(parse: Parser, max: nat, turns: seq<Turn>)
    ensures var m := RunTurns(parse, max, turns);
            m.phase.Polling? ==> m.retries == Streak(turns)
    decreases |turns|
  {
    if turns != [] {
      StreakIsRetries(parse, max, turns[..|turns| - 1]);
    }
  }

  /** What the program does with a read result after k -EIOs in a row: from m to m'. */
  predicate ReadMeans(parse: Parser, max: nat, m: Mon, r: Result, k: nat, m': Mon) {
    && (r == Failed(EAGAIN) ==> m' == m)
    && (r == Failed(EIO) ==>
          m'.buf == m.buf &&
          if k < 3 then m'.phase.Polling? && m'.log == m.log + [ReadRetry(k + 1)] && m'.retries == k + 1
          else m'.phase == Exited(1) && m'.log == m.log + [ReadFailed(EIO)])
    && (r == Failed(ENODEV) ==> m'.buf == m.buf && m'.phase == Exited(0) && m'.log == m.log + [DeviceDisconnected])
    && (r.Failed? && r.errno != EAGAIN && r.errno != EIO && r.errno != ENODEV ==>
          m'.buf == m.buf && m'.phase == Exited(1) && m'.log == m.log + [ReadFailed(r.errno)])
    && (r == Data([]) ==> m'.buf == m.buf && m'.phase == Exited(0) && m'.log == m.log + [DeviceEof])
    && (r.Data? && r.bytes != [] ==>
          m'.buf == Fold(parse, max, m.buf, r.bytes) && m.buf.out <= m'.buf.out && m'.retries == 0 &&
          m'.phase == (if m'.buf.stopped then Exited(0) else Polling) &&
          m'.log == m.log + (if k > 0 then [RecoverySuccess(k)] else []) + AsLines(m'.buf.out[|m.buf.out|..]))
  }

  lemma OnReadMeans(parse: Parser, max: nat, m: Mon, r: Result)
    requires m.phase.Polling?
    ensures ReadMeans(parse, max, m, r, m.retries, OnRead(parse, max, m.(phase := Reading), r))
  {
    if r.Data? {
      FoldKeepsOut(parse, max, m.buf, r.bytes);
      assert m.log + [] == m.log;
    }
  }

  /** Turn i of any run, by what poll and read return in it and the -EIOs before it. */
  lemma TurnMeans(parse: Parser, max: nat, turns: seq<Turn>, i: nat)
    requires i < |turns| && RunTurns(parse, max, turns[..i]).phase.Polling?
    ensures var m, m' := RunTurns(parse, max, turns[..i]), RunTurns(parse, max, turns[..i + 1]);
            var t := turns[i];
            && (t.stopRequested ==> m' == m.(phase := Exited(0)))
            && (!t.stopRequested && t.poll.Failed? ==>
                  m' == m.(phase := if t.poll.errno == ERESTARTSYS then Polling else Exited(1)))
            && (!t.stopRequested && t.poll.Ready? && !TakesRead(t) ==> m' == m)
            && (TakesRead(t) ==> ReadMeans(parse, max, m, t.read, Streak(turns[..i]), m'))
  {
    assert turns[..i + 1][..i] == turns[..i];
    StreakIsRetries(parse, max, turns[..i]);
    OnReadMeans(parse, max, RunTurns(parse, max, turns[..i]), turns[i].read);
  }

  /** The final event a read result stands for after k -EIOs in a row, if any. */
  function FinalFor(r: Result, k: nat): Option<MonEvent> {
    match r
    case Data(bytes) => if bytes == [] then Some(DeviceEof) else None
    case Failed(e) =>
      if e == ENODEV then Some(DeviceDisconnected)
      else if e == EAGAIN || (e == EIO && k < 3) then None
      else Some(ReadFailed(e))
    case _ => None
  }

  /** Turn i was reached and its read was the end of the program, with this event. */
  predicate EndsAt(parse: Parser, max: nat, turns: seq<Turn>, i: nat, e: MonEvent) {
    i < |turns| && RunTurns(parse, max, turns[..i]).phase.Polling? && TakesRead(turns[i]) &&
    FinalFor(turns[i].read, Streak(turns[..i])) == Some(e)
  }

  predicate EndsIn(m: Mon, e: MonEvent) {
    m.log != [] && m.log[|m.log| - 1] == e && m.phase == Exited(if e.ReadFailed? then 1 else 0)
  }

  lemma LastTurnEnds(parse: Parser, max: nat, turns: seq<Turn>, k: nat, e: MonEvent)
    requires |turns| == k + 1 && Final(e) && RunTurns(parse, max, turns[..k]).phase.Polling?
    ensures EndsIn(RunTurns(parse, max, turns), e) <==> EndsAt(parse, max, turns, k, e)
  {
    TurnMeans(parse, max, turns, k);
    RunEndsRight(parse, max, turns[..k]);
    assert turns[..k + 1] == turns;
    var m' := RunTurns(parse, max, turns);
    var r := turns[k].read;
    if TakesRead(turns[k]) && r.Data? && r.bytes != [] && m'.log != RunTurns(parse, max, turns[..k]).log {
      assert !Final(m'.log[|m'.log| - 1]);
    }
  }

  /** How a run ends is decided by the read that ended it, in both directions: in
      DEVICE_DISCONNECTED with code 0 exactly if a read returned -ENODEV, in DEVICE_EOF
      with 0 exactly if one returned nothing, in READ_FAILED with that errno and code 1
      exactly for a fourth -EIO in a row or any other errno but -EAGAIN. */
  lemma {:induction false} ReadDecidesTheEnd(parse: Parser, max: nat, turns: seq<Turn>, e: MonEvent)
    requires Final(e)
    ensures EndsIn(RunTurns(parse, max, turns), e) <==> exists i: nat :: EndsAt(parse, max, turns, i, e)
    decreases |turns|
  {
    if turns != [] {
      var k := |turns| - 1;
      var init := turns[..k];
      ReadDecidesTheEnd(parse, max, init, e);
      forall i: nat | i < k ensures EndsAt(parse, max, init, i, e) <==> EndsAt(parse, max, turns, i, e) {
        assert init[..i] == turns[..i];
      }
      if RunTurns(parse, max, init).phase.Polling? {
        LastTurnEnds(parse, max, turns, k, e);
      }
    }
  }

  // ---- main ----

  /** From read(2) to the end of the loop body. */
  method HandleRead(parse: Parser, max: nat, input: InputBuffer, eioRetries: nat, log: seq<MonEvent>, read: Result)
    returns (retries: nat, log': seq<MonEvent>, exit: Option<nat>)
    requires input.Valid() && IsReadResult(read)
    modifies input, input.data
    ensures input.Valid()
    ensures var m := OnRead(parse, max, Mon(old(input.View(false)), eioRetries, Reading, log), read);
            log' == m.log && exit == (if m.phase.Exited? then Some(m.phase.code) else None) &&
            (exit.None? ==> m == Mon(input.View(false), retries, Polling, log'))
  {
    retries, log', exit := eioRetries, log, None;
    if read.Failed? {
      if read.errno == EAGAIN {
        return;
      }
      if read.errno == EIO {
        retries := retries + 1;
        if retries > MAX_EIO_RETRIES {
          log' := log' + [ReadFailed(EIO)];
          exit := Some(1);
        } else {
          log' := log' + [ReadRetry(retries)];
        }
        return;
      }
      if read.errno == ENODEV {
        log' := log' + [DeviceDisconnected];
        exit := Some(0);
      } else {
        log' := log' + [ReadFailed(read.errno)];
        exit := Some(1);
      }
      return;
    }
    if read.bytes == [] {
      log' := log' + [DeviceEof];
      exit := Some(0);
      return;
    }
    if retries > 0 {
      log' := log' + [RecoverySuccess(retries)];
      retries := 0;
    }
    FoldKeepsOut(parse, max, input.View(false), read.bytes);
    var seen := |input.out|;
    var stop := input.ConsumeInput(parse, read.bytes, max);
    log' := log' + AsLines(input.out[seen..]);
    if stop {
      exit := Some(0);
    }
  }

  /** The loop of main with its own variables; `turns` stands for poll, read and
      the stop flag, and the loop ends early if they run out. */
  method MonitorMain(parse: Parser, max: nat, turns: seq<Turn>) returns (log: seq<MonEvent>, exit: Option<nat>)
    requires forall t :: t in turns ==> IsReadResult(t.read) && (t.poll.Ready? || t.poll.Failed?)
    ensures var m := RunTurns(parse, max, turns);
            log == m.log && exit == (if m.phase.Exited? then Some(m.phase.code) else None)
    ensures Disciplined(log)
  {
    var input := new InputBuffer();
    var eioRetries: nat := 0;
    log := [MonitorStarted];
    exit := None;
    var i := 0;
    RunTurnsInv(parse, max, turns);
    while i < |turns| && exit.None?
      invariant i <= |turns| && input.Valid() && fresh(input) && fresh(input.data)
      invariant var m := RunTurns(parse, max, turns[..i]);
                log == m.log && (exit.Some? ==> m.phase == Exited(exit.value)) &&
                (exit.None? ==> m == Mon(input.View(false), eioRetries, Polling, log))
    {
      var t := turns[i];
      assert t in turns;
      assert turns[..i + 1][..i] == turns[..i];
      ghost var m := RunTurns(parse, max, turns[..i]);
      i := i + 1;
      if t.stopRequested {
        exit := Some(0);
        continue;
      }
      if t.poll.Failed? {
        if t.poll.errno != ERESTARTSYS {
          exit := Some(1);
        }
        continue;
      }
      if !(t.poll.mask.pollIn || t.poll.mask.err || t.poll.mask.hup) {
        continue;
      }
      eioRetries, log, exit := HandleRead(parse, max, input, eioRetries, log, t.read);
    }
    if i == |turns| {
      assert turns[..i] == turns;
    } else {
      ExitedForGood(parse, max, turns, i);
    }
  }

  lemma {:induction false} ExitedForGood(parse: Parser, max: nat, turns: seq<Turn>, k: nat)
    requires k <= |turns| && RunTurns(parse, max, turns[..k]).phase.Exited?
    ensures RunTurns(parse, max, turns) == RunTurns(parse, max, turns[..k])
    decreases |turns|
  {
    if k == |turns| {
      assert turns[..k] == turns;
    } else {
      var init := turns[..|turns| - 1];
      assert init[..k] == turns[..k];
      ExitedForGood(parse, max, init, k);
    }
  }
}
