// A counted EIO fault seen through the whole system: device steps, the writer, poll
// timeouts, signals and controls that leave the fault alone may come in between.

module CountedFaults {
  import opened Common
  import opened Device
  import opened DeviceLedger
  import opened Disconnect
  import opened LineBuffer
  import opened Monitor
  import opened Drain
  import opened EndToEnd

  // ---- the monitor's log ----

  function Last(log: seq<MonEvent>): seq<MonEvent> {
    if log == [] then [] else [log[|log| - 1]]
  }

  /** What a monitor that started as m0 has logged after k of n EIOs: the retries; the
      recovery with n and the lines of the data, if there has been any; and the event
      that ended the program, if a read did. */
  function Since(m0: Mon, m: Mon, k: nat, recovered: bool, n: nat): seq<MonEvent>
    requires m0.buf.out <= m.buf.out
  {
    var retries := Retries(0, Min(k, MAX_EIO_RETRIES));
    var told := if recovered then retries + [RecoverySuccess(n)] + AsLines(m.buf.out[|m0.buf.out|..]) else retries;
    if m.phase == Exited(1) then told + Last(m.log) else told
  }

  predicate Story(m0: Mon, m: Mon, k: nat, recovered: bool, n: nat) {
    && m0.buf.out <= m.buf.out && (!recovered ==> m.buf.out == m0.buf.out)
    && (recovered ==> k == n <= MAX_EIO_RETRIES)
    && (!m.phase.Exited? ==> m.retries == if recovered then 0 else k)
    && (if m.phase == Exited(1) then k <= MAX_EIO_RETRIES + 1 else k <= MAX_EIO_RETRIES)
    && (m.phase == Exited(1) ==>
          m.log != [] && m.log[|m.log| - 1].ReadFailed? &&
          (m.log[|m.log| - 1].errno == EIO <==> k == MAX_EIO_RETRIES + 1))
    && m.log == m0.log + Since(m0, m, k, recovered, n)
  }

  lemma StoryStart(m: Mon, n: nat)
    requires m.phase.Polling? && m.retries == 0
    ensures Story(m, m, 0, false, n)
  {
    assert Since(m, m, 0, false, n) == [];
  }

  lemma StoryPoll(m0: Mon, m: Mon, k: nat, recovered: bool, n: nat, r: Result)
    requires Story(m0, m, k, recovered, n) && m.phase.Polling? && (r.Ready? || r == Failed(ERESTARTSYS))
    ensures Story(m0, OnPoll(m, r), k, recovered, n)
  {}

  lemma StoryEio(parse: Parser, max: nat, m0: Mon, m: Mon, k: nat, n: nat)
    requires Story(m0, m, k, false, n) && m.phase.Reading?
    ensures Story(m0, OnRead(parse, max, m, Failed(EIO)), k + 1, false, n)
  {
    assert Since(m0, m, k, false, n) == Retries(0, k);
    var m' := OnRead(parse, max, m, Failed(EIO));
    if k + 1 <= MAX_EIO_RETRIES {
      assert Retries(0, k + 1) == Retries(0, k) + [ReadRetry(k + 1)];
      assert Since(m0, m', k + 1, false, n) == Retries(0, k + 1);
    } else {
      assert Since(m0, m', k + 1, false, n) == Retries(0, k) + [ReadFailed(EIO)];
    }
  }

  /** Nothing there yet, or a failure that has nothing to do with the fault. */
  lemma StoryOther(parse: Parser, max: nat, m0: Mon, m: Mon, k: nat, recovered: bool, n: nat, e: Errno)
    requires Story(m0, m, k, recovered, n) && m.phase.Reading? && e != EIO && e != ENODEV
    ensures Story(m0, OnRead(parse, max, m, Failed(e)), k, recovered, n)
  {
    var m' := OnRead(parse, max, m, Failed(e));
    if e != EAGAIN {
      assert Since(m0, m', k, recovered, n) == Since(m0, m, k, recovered, n) + [ReadFailed(e)];
    }
  }

  lemma NewLines(a: seq<LineEvent>, b: seq<LineEvent>, c: seq<LineEvent>)
    requires a <= b <= c
    ensures AsLines(c[|a|..]) == AsLines(b[|a|..]) + AsLines(c[|b|..])
  {
    assert c[|a|..] == b[|a|..] + c[|b|..];
  }

  lemma StoryData(parse: Parser, max: nat, m0: Mon, m: Mon, recovered: bool, n: nat, bytes: seq<Byte>)
    requires Story(m0, m, n, recovered, n) && m.phase.Reading? && bytes != [] && n >= 1
    ensures Story(m0, OnRead(parse, max, m, Data(bytes)), n, true, n)
  {
    FoldKeepsOut(parse, max, m.buf, bytes);
    if recovered {
      MoreData(parse, max, m0, m, n, bytes);
    } else {
      FirstData(parse, max, m0, m, n, bytes);
    }
  }

  lemma FirstData(parse: Parser, max: nat, m0: Mon, m: Mon, n: nat, bytes: seq<Byte>)
    requires Story(m0, m, n, false, n) && m.phase.Reading? && bytes != [] && n >= 1
    requires m.buf.out <= Fold(parse, max, m.buf, bytes).out
    ensures Story(m0, OnRead(parse, max, m, Data(bytes)), n, true, n)
  {
    var m' := OnRead(parse, max, m, Data(bytes));
    var lines := AsLines(m'.buf.out[|m.buf.out|..]);
    assert m'.log == m.log + [RecoverySuccess(n)] + lines;
    Assoc(m0.log, Retries(0, n), [RecoverySuccess(n)], lines);
  }

  lemma Appended(log: seq<MonEvent>, first: seq<MonEvent>, had: seq<MonEvent>, added: seq<MonEvent>)
    ensures log + (first + had) + added == log + (first + (had + added))
  {}

  lemma MoreData(parse: Parser, max: nat, m0: Mon, m: Mon, n: nat, bytes: seq<Byte>)
    requires Story(m0, m, n, true, n) && m.phase.Reading? && bytes != []
    requires m.buf.out <= Fold(parse, max, m.buf, bytes).out
    ensures Story(m0, OnRead(parse, max, m, Data(bytes)), n, true, n)
  {
    var m' := OnRead(parse, max, m, Data(bytes));
    NewLines(m0.buf.out, m.buf.out, m'.buf.out);
    Appended(m0.log, Retries(0, n) + [RecoverySuccess(n)],
             AsLines(m.buf.out[|m0.buf.out|..]), AsLines(m'.buf.out[|m.buf.out|..]));
  }

  // ---- a read that got past the fault ----

  /** Past its fault check without -EIO. */
  predicate Passed(pc: Pc) {
    (pc.R? && !pc.r.RCheckLock? && !pc.r.RCheck? && pc.r != RCheckUnlock(Fail(EIO))) ||
    (pc.Done? && pc.result != Failed(EIO))
  }

  /** A read gets past only when no EIO is left, and never meets a disconnect. */
  predicate FaultBehind(pc: Pc, fault: Config) {
    && (Passed(pc) ==> Remaining(fault) == 0)
    && (pc.R? ==> pc.r != RCheckUnlock(Fail(ENODEV)))
    && pc != Done(Failed(ENODEV))
  }

  lemma LocalBehind(sh: Shared, id: Id, call: Call, pc: Pc, c: Choice)
    requires CanStep(sh, call, pc, c) && call.Read? && Canonical(sh.fault) && !Disconnected(sh.fault)
    requires FaultBehind(pc, sh.fault)
    ensures var e := Local(sh, id, call, pc, c);
            FaultBehind(e.pc, e.sh.fault)
  {}

  lemma BystanderBehind(pc: Pc, sh: Shared, id: Id, e: Effect)
    requires FaultBehind(pc, sh.fault) && Accounted(sh, id, e) && !(e.event.Some? && e.event.value.Stored?)
    ensures FaultBehind(Woken(pc, e.wake), e.sh.fault)
  {}

  ghost predicate Behind(s: Sys) {
    s.monCall.Some? && s.mon.phase.Reading? && s.monCall.value in s.dev.calls ==>
      FaultBehind(s.dev.calls[s.monCall.value].pc, s.dev.sh.fault)
  }

  // ---- over whole runs ----

  /** EIOs the monitor has been handed since s0, and whether it has got data. */
  function Handed(s0: Sys, s: Sys): int {
    s.eios - s0.eios
  }

  predicate GotData(s0: Sys, s: Sys) {
    |s.consumed| > |s0.consumed|
  }

  ghost predicate Told(s0: Sys, s: Sys, n: nat) {
    && Behind(s)
    && s0.eios <= s.eios && |s0.consumed| <= |s.consumed|
    && Story(s0.mon, s.mon, Handed(s0, s), GotData(s0, s), n)
  }

  lemma {:induction false} NoStoreCounts(older: Log, newer: Log)
    requires NoStore(older, newer)
    ensures Loaded(newer) == Loaded(older) && Overwritten(newer) == Overwritten(older)
    decreases newer
  {
    if newer != older {
      NoStoreCounts(older, newer.before);
    }
  }

  /** Of the n occurrences, those handed over, the one on its way and those left. */
  lemma Counted(parse: Parser, max: nat, s0: Sys, s: Sys)
    requires SysInv(parse, max, s0) && SysInv(parse, max, s) && NoStore(s0.dev.log, s.dev.log)
    requires s0.monCall.None?
    ensures Handed(s0, s) + InFlightEio(s) + Remaining(s.dev.sh.fault) == Remaining(s0.dev.sh.fault)
  {
    NoStoreCounts(s0.dev.log, s.dev.log);
  }

  lemma ApplyBehind(s: Sys, id: Id, e: Effect)
    requires Behind(s) && id in s.dev.calls && Accounted(s.dev.sh, id, e)
    requires !(e.event.Some? && e.event.value.Stored?)
    requires s.monCall == Some(id) && s.mon.phase.Reading? ==> FaultBehind(e.pc, e.sh.fault)
    ensures Behind(s.(dev := Apply(s.dev, id, s.dev.calls[id].call, e)))
  {
    if s.monCall.Some? && s.mon.phase.Reading? && s.monCall.value in s.dev.calls && s.monCall.value != id {
      BystanderBehind(s.dev.calls[s.monCall.value].pc, s.dev.sh, id, e);
    }
  }

  lemma DeviceStepBehind(parse: Parser, max: nat, s: Sys, id: Id, c: Choice)
    requires Behind(s) && CallsMatch(s) && Enabled(s.dev, id, Step(c))
    requires Canonical(s.dev.sh.fault) && !Disconnected(s.dev.sh.fault) && ConfigOk(s.dev.calls[id].pc)
    requires var d := Next(s.dev, id, Step(c)); d.log == s.dev.log || !d.log.event.Stored?
    ensures Behind(SysNext(parse, max, s, DeviceStep(id, c)))
  {
    var act := s.dev.calls[id];
    LocalAccounted(s.dev.sh, id, act.call, act.pc, c);
    if s.monCall == Some(id) && s.mon.phase.Reading? {
      LocalBehind(s.dev.sh, id, act.call, act.pc, c);
    }
    ApplyBehind(s, id, Local(s.dev.sh, id, act.call, act.pc, c));
  }

  /** What the monitor's finished read says about the count. */
  lemma ReturnedRead(parse: Parser, max: nat, s: Sys, r: Result)
    requires SysInv(parse, max, s) && Behind(s) && s.mon.phase.Reading? && Returned(s.dev, s.monCall)
    requires r == s.dev.calls[s.monCall.value].pc.result
    ensures r == Failed(EIO) <==> InFlightEio(s) == 1
    ensures r != Failed(EIO) ==> Remaining(s.dev.sh.fault) == 0
    ensures r != Failed(ENODEV) && (r.Failed? || (r.Data? && r.bytes != []))
  {
    var id := s.monCall.value;
    assert CallOk(s.dev.log, id, s.dev.calls[id].call, s.dev.calls[id].pc);
  }

  lemma StoryRead(parse: Parser, max: nat, m0: Mon, m: Mon, k: nat, recovered: bool, n: nat, r: Result)
    requires Story(m0, m, k, recovered, n) && m.phase.Reading? && n >= 1
    requires r != Failed(ENODEV) && (r.Failed? || (r.Data? && r.bytes != []))
    requires (r == Failed(EIO) ==> !recovered) && (r.Data? ==> k == n)
    ensures Story(m0, OnRead(parse, max, m, r), if r == Failed(EIO) then k + 1 else k, recovered || r.Data?, n)
  {
    if r == Failed(EIO) {
      StoryEio(parse, max, m0, m, k, n);
    } else if r.Failed? {
      StoryOther(parse, max, m0, m, k, recovered, n, r.errno);
    } else {
      StoryData(parse, max, m0, m, recovered, n, r.bytes);
    }
  }

  lemma ReadReturnTold(parse: Parser, max: nat, s0: Sys, s: Sys, n: nat, r: Result)
    requires Told(s0, s, n) && n >= 1
    requires SysEnabled(s, MonReturn) && s.mon.phase.Reading? && r == s.dev.calls[s.monCall.value].pc.result
    requires r != Failed(ENODEV) && (r.Failed? || (r.Data? && r.bytes != []))
    requires (r == Failed(EIO) ==> Handed(s0, s) < n) && (r.Data? ==> Handed(s0, s) == n)
    ensures Told(s0, SysNext(parse, max, s, MonReturn), n)
  {
    StoryRead(parse, max, s0.mon, s.mon, s.eios - s0.eios, GotData(s0, s), n, r);
  }

  lemma PollReturnTold(parse: Parser, max: nat, s0: Sys, s: Sys, n: nat)
    requires SysInv(parse, max, s) && Told(s0, s, n)
    requires SysEnabled(s, MonReturn) && s.mon.phase.Polling?
    ensures Told(s0, SysNext(parse, max, s, MonReturn), n)
  {
    var id := s.monCall.value;
    assert CallOk(s.dev.log, id, s.dev.calls[id].call, s.dev.calls[id].pc);
    StoryPoll(s0.mon, s.mon, s.eios - s0.eios, GotData(s0, s), n, s.dev.calls[id].pc.result);
  }

  lemma BeginTold(parse: Parser, max: nat, s0: Sys, s: Sys, n: nat, mv: SysMove)
    requires CallsMatch(s) && Told(s0, s, n) && SysEnabled(s, mv) && !mv.DeviceStep? && !mv.MonReturn?
    ensures Told(s0, SysNext(parse, max, s, mv), n)
  {}

  lemma ToldStep(parse: Parser, max: nat, s0: Sys, s: Sys, n: nat, mv: SysMove)
    requires SysInv(parse, max, s) && Told(s0, s, n) && SysEnabled(s, mv) && n >= 1
    requires Handed(s0, s) + InFlightEio(s) + Remaining(s.dev.sh.fault) == n
    requires var d := SysNext(parse, max, s, mv).dev; d.log == s.dev.log || !d.log.event.Stored?
    ensures Told(s0, SysNext(parse, max, s, mv), n)
  {
    if mv.DeviceStep? {
      assert CallOk(s.dev.log, mv.id, s.dev.calls[mv.id].call, s.dev.calls[mv.id].pc);
      DeviceStepBehind(parse, max, s, mv.id, mv.choice);
    } else if mv.MonReturn? && s.mon.phase.Reading? {
      var r := s.dev.calls[s.monCall.value].pc.result;
      ReturnedRead(parse, max, s, r);
      ReadReturnTold(parse, max, s0, s, n, r);
    } else if mv.MonReturn? {
      PollReturnTold(parse, max, s0, s, n);
    } else {
      BeginTold(parse, max, s0, s, n, mv);
    }
  }

  lemma SysLogStep(parse: Parser, max: nat, s: Sys, mv: SysMove)
    requires SysEnabled(s, mv)
    ensures var l := SysNext(parse, max, s, mv).dev.log;
            l == s.dev.log || (l.Then? && l.before == s.dev.log)
  {}

  /** The stores of a prefix of a run are among the stores of the run. */
  lemma {:induction false} NoStoreSoFar(parse: Parser, max: nat, older: Log, s: Sys, run: seq<SysMove>)
    requires SysLegal(parse, max, s, run) && NoStore(older, SysExec(parse, max, s, run).dev.log)
    requires LogLength(older) <= LogLength(s.dev.log)
    ensures NoStore(older, s.dev.log)
    decreases |run|
  {
    if run != [] {
      SysLogStep(parse, max, s, run[0]);
      NoStoreSoFar(parse, max, older, SysNext(parse, max, s, run[0]), run[1..]);
    }
  }

  lemma {:induction false} ToldAlong(parse: Parser, max: nat, s0: Sys, s: Sys, n: nat, run: seq<SysMove>)
    requires SysInv(parse, max, s0) && s0.monCall.None? && Remaining(s0.dev.sh.fault) == n >= 1
    requires SysInv(parse, max, s) && Told(s0, s, n) && SysLegal(parse, max, s, run)
    requires LogLength(s0.dev.log) <= LogLength(s.dev.log)
    requires NoStore(s0.dev.log, SysExec(parse, max, s, run).dev.log)
    ensures SysInv(parse, max, SysExec(parse, max, s, run)) && Told(s0, SysExec(parse, max, s, run), n)
    decreases |run|
  {
    if run != [] {
      var s1 := SysNext(parse, max, s, run[0]);
      SysLogStep(parse, max, s, run[0]);
      NoStoreSoFar(parse, max, s0.dev.log, s, run);
      NoStoreSoFar(parse, max, s0.dev.log, s1, run[1..]);
      Counted(parse, max, s0, s);
      ToldStep(parse, max, s0, s, n, run[0]);
      SysStep(parse, max, s, run[0]);
      ToldAlong(parse, max, s0, s1, n, run[1..]);
    }
  }

  /** Counted faults to retries, over every interleaving. The monitor is between two
      passes without pending retries and EIO n is in force; along any run in which no
      set or clear takes effect, let k be the -EIOs it has been handed. Then k is at
      most n and 4, the other n - k are in the device or on their way, and the log has
      gained exactly: retries 1 to k, at most three; once there has been data, which
      needs n to be at most 3 and all n used up, the recovery with n and the lines of
      that data; and if a read failed for good, that failure with exit code 1, which
      is EIO exactly for the fourth. */
  lemma CountedFaultsToRetries(parse: Parser, max: nat, before: seq<SysMove>, n: nat, run: seq<SysMove>)
    requires SysLegal(parse, max, Boot, before) && 1 <= n <= MAX_FAULT_REPEAT
    requires var s0 := SysExec(parse, max, Boot, before);
             && s0.monCall.None? && s0.mon.phase.Polling? && s0.mon.retries == 0
             && s0.dev.sh.fault == EioFault(n)
             && SysLegal(parse, max, s0, run) && NoStore(s0.dev.log, SysExec(parse, max, s0, run).dev.log)
    ensures var s0 := SysExec(parse, max, Boot, before);
            var s := SysExec(parse, max, s0, run);
            var k := s.eios - s0.eios;
            && 0 <= k <= Min(n, MAX_EIO_RETRIES + 1)
            && k + InFlightEio(s) + Remaining(s.dev.sh.fault) == n
            && s0.mon.buf.out <= s.mon.buf.out
            && (GotData(s0, s) ==> k == n <= MAX_EIO_RETRIES)
            && s.mon.log == s0.mon.log + Since(s0.mon, s.mon, k, GotData(s0, s), n)
            && (!GotData(s0, s) ==> s.mon.buf.out == s0.mon.buf.out)
            && (s.mon.phase == Exited(1) ==>
                  s.mon.log != [] && s.mon.log[|s.mon.log| - 1].ReadFailed? &&
                  (s.mon.log[|s.mon.log| - 1] == ReadFailed(EIO) <==> k == 4))
            && (k == 4 ==> s.mon.phase == Exited(1))
            && (!s.mon.phase.Exited? ==> s.mon.retries == if GotData(s0, s) then 0 else k)
  {
    BootRunInv(parse, max, before);
    var s0 := SysExec(parse, max, Boot, before);
    StoryStart(s0.mon, n);
    ToldAlong(parse, max, s0, s0, n, run);
    Counted(parse, max, s0, SysExec(parse, max, s0, run));
  }
}
