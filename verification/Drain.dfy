// The monitor as the only actor on the device: how an injected EIO count shows up
// in its log, and how many reads it takes to empty the FIFO.

module Drain {
  import opened Common
  import opened Device
  import opened DeviceLedger
  import opened SoloCalls
  import opened LineBuffer
  import opened Monitor

  predicate PollReady(g: Globals) {
    SoloPoll(g, true, false).result.Some?
  }

  /** One pass of the monitor's loop on a device that poll reports ready. */
  function Pass(parse: Parser, max: nat, g: Globals, m: Mon): (Globals, Mon)
    requires PollReady(g) && m.phase.Polling?
  {
    var ready := OnPoll(m, SoloPoll(g, true, false).result.value);
    var o := SoloRead(g, READ_SIZE, true);
    (o.g, OnRead(parse, max, ready, o.result.value))
  }

  /** A disconnected device: poll reports it, the read fails with -ENODEV, and the
      program logs DEVICE_DISCONNECTED and exits with 0. */
  lemma DisconnectedPass(parse: Parser, max: nat, g: Globals, m: Mon)
    requires g.fault.kind == 3 && m.phase.Polling?
    ensures PollReady(g)
    ensures var r := Pass(parse, max, g, m);
            r.0 == g && r.1.phase == Exited(0) && r.1.log == m.log + [DeviceDisconnected] && r.1.buf == m.buf
  {}

  // ---- counted faults ----

  function EioFault(n: nat): Config
    requires n <= MAX_FAULT_REPEAT
  {
    if n == 0 then NoFault else Config(FAULT_EIO, n, 0, 0)
  }

  function Retries(from: nat, to: nat): seq<MonEvent>
    requires from <= to
  {
    seq(to - from, i requires 0 <= i < to - from => ReadRetry(from + i + 1))
  }

  /** Passes over a device whose FIFO writers may refill in between: the i-th pass
      finds `fifos[i]` in the FIFO. */
  function Passes(parse: Parser, max: nat, fault: Config, fifos: seq<seq<Byte>>, m: Mon): (Config, Mon)
    decreases |fifos|
  {
    if fifos == [] then (fault, m) else
      var before := Passes(parse, max, fault, fifos[..|fifos| - 1], m);
      var g := Globals(before.0, fifos[|fifos| - 1]);
      if before.1.phase.Polling? && PollReady(g) then
        var after := Pass(parse, max, g, before.1);
        (after.0.fault, after.1)
      else before
  }

  lemma EioPass(parse: Parser, max: nat, n: nat, fifo: seq<Byte>, m: Mon)
    requires 0 < n <= MAX_FAULT_REPEAT && m.phase.Polling?
    ensures PollReady(Globals(EioFault(n), fifo))
    ensures var r := Pass(parse, max, Globals(EioFault(n), fifo), m);
            r.0 == Globals(EioFault(n - 1), fifo) &&
            r.1 == (if m.retries < MAX_EIO_RETRIES
                    then m.(retries := m.retries + 1, log := m.log + [ReadRetry(m.retries + 1)])
                    else m.(retries := m.retries + 1, phase := Exited(1), log := m.log + [ReadFailed(EIO)]))
  {}

  /** While the budget lasts, k passes over EIO n are k retries and n - k left. */
  lemma {:induction false} RetriesThenQuiet(parse: Parser, max: nat, n: nat, fifos: seq<seq<Byte>>, m: Mon)
    requires n <= MAX_FAULT_REPEAT && m.phase.Polling?
    requires |fifos| <= n && m.retries + |fifos| <= MAX_EIO_RETRIES
    ensures Passes(parse, max, EioFault(n), fifos, m) ==
              (EioFault(n - |fifos|),
               m.(retries := m.retries + |fifos|, log := m.log + Retries(m.retries, m.retries + |fifos|)))
    decreases |fifos|
  {
    if fifos == [] {
      assert m.log + Retries(m.retries, m.retries) == m.log;
    } else {
      var k := |fifos| - 1;
      RetriesThenQuiet(parse, max, n, fifos[..k], m);
      var m1 := Passes(parse, max, EioFault(n), fifos[..k], m).1;
      EioPass(parse, max, n - k, fifos[k], m1);
      assert m.log + Retries(m.retries, m.retries + k) + [ReadRetry(m.retries + k + 1)] ==
             m.log + Retries(m.retries, m.retries + |fifos|);
    }
  }

  /** Nothing to read, nothing happens. */
  lemma {:induction false} IdlePasses(parse: Parser, max: nat, fault: Config, fifos: seq<seq<Byte>>, n: nat, m: Mon)
    requires n <= |fifos| && Passes(parse, max, fault, fifos[..n], m).0 == NoFault
    requires forall i :: n <= i < |fifos| ==> fifos[i] == []
    ensures Passes(parse, max, fault, fifos, m) == Passes(parse, max, fault, fifos[..n], m)
    decreases |fifos|
  {
    if n == |fifos| {
      assert fifos[..n] == fifos;
    } else {
      var init := fifos[..|fifos| - 1];
      assert init[..n] == fifos[..n];
      IdlePasses(parse, max, fault, init, n, m);
    }
  }

  /** EIO n with n at most 3, a monitor without pending retries: exactly n retries,
      the fault is gone, and after any number of idle polls the first read that finds
      data logs the recovery with n before anything else. */
  lemma ShortBurstRecovers(parse: Parser, max: nat, n: nat, fifos: seq<seq<Byte>>, m: Mon)
    requires 1 <= n <= MAX_EIO_RETRIES && m.phase.Polling? && m.retries == 0
    requires n < |fifos| && fifos[|fifos| - 1] != [] && forall i :: n <= i < |fifos| - 1 ==> fifos[i] == []
    ensures var r := Passes(parse, max, EioFault(n), fifos, m);
            var data := fifos[|fifos| - 1];
            r.0 == NoFault && r.1.retries == 0 &&
            m.log + Retries(0, n) + [RecoverySuccess(n)] <= r.1.log &&
            r.1.buf == Fold(parse, max, m.buf, data[..Min(READ_SIZE, |data|)])
  {
    var init, data := fifos[..|fifos| - 1], fifos[|fifos| - 1];
    assert init[..n] == fifos[..n];
    RetriesThenQuiet(parse, max, n, fifos[..n], m);
    IdlePasses(parse, max, EioFault(n), init, n, m);
    var m1 := Passes(parse, max, EioFault(n), init, m).1;
    var bytes := data[..Min(READ_SIZE, |data|)];
    FoldKeepsOut(parse, max, m1.buf, bytes);
    assert SoloRead(Globals(NoFault, data), READ_SIZE, true).result == Some(Data(bytes));
  }

  /** EIO n with n above 3: three retries, one READ_FAILED, exit code 1, and n - 4
      occurrences left in the device, no matter how long one waits. */
  lemma {:induction false} LongBurstFails(parse: Parser, max: nat, n: nat, fifos: seq<seq<Byte>>, m: Mon)
    requires MAX_EIO_RETRIES < n <= MAX_FAULT_REPEAT && |fifos| > MAX_EIO_RETRIES
    requires m.phase.Polling? && m.retries == 0
    ensures var r := Passes(parse, max, EioFault(n), fifos, m);
            r.0 == EioFault(n - 4) && r.1.phase == Exited(1) &&
            r.1.log == m.log + [ReadRetry(1), ReadRetry(2), ReadRetry(3), ReadFailed(EIO)]
    decreases |fifos|
  {
    var k := |fifos| - 1;
    if k == MAX_EIO_RETRIES {
      RetriesThenQuiet(parse, max, n, fifos[..k], m);
      EioPass(parse, max, n - k, fifos[k], Passes(parse, max, EioFault(n), fifos[..k], m).1);
      assert Retries(0, 3) == [ReadRetry(1), ReadRetry(2), ReadRetry(3)];
    } else {
      LongBurstFails(parse, max, n, fifos[..k], m);
    }
  }

  // ---- draining ----

  /** Bytes per successful read. */
  function Chunk(fault: Config): nat {
    if LimitOf(fault) != 0 then Min(READ_SIZE, LimitOf(fault)) else READ_SIZE
  }

  /** n / c rounded up. */
  function CeilDiv(n: nat, c: nat): nat
    requires c > 0
  {
    if n == 0 then 0 else 1 + CeilDiv(n - Min(n, c), c)
  }

  lemma {:induction false} CeilDivRoundsUp(n: nat, c: nat)
    requires c > 0
    ensures n <= CeilDiv(n, c) * c
    ensures n > 0 ==> (CeilDiv(n, c) - 1) * c < n
  {
    if n > 0 {
      CeilDivRoundsUp(n - Min(n, c), c);
    }
  }

  /** The monitor will neither be disconnected nor run out of retries. */
  predicate CanDrain(g: Globals, m: Mon) {
    Canonical(g.fault) && !Disconnected(g.fault) && m.phase.Polling? && !m.buf.stopped &&
    m.retries + Remaining(g.fault) <= MAX_EIO_RETRIES
  }

  function Reads(g: Globals): nat
    requires Canonical(g.fault)
  {
    Remaining(g.fault) + CeilDiv(|g.fifo|, Chunk(g.fault))
  }

  lemma {:induction false} NeverStops(parse: Parser, b: Buffer, data: seq<Byte>)
    requires !b.stopped
    ensures !Fold(parse, 0, b, data).stopped
    decreases |data|
  {
    if data != [] {
      NeverStops(parse, b, data[..|data| - 1]);
    }
  }

  /** The bytes gone from the front of the FIFO are those taken into the buffer. */
  predicate Moved(parse: Parser, fifo: seq<Byte>, b: Buffer, fifo': seq<Byte>, b': Buffer) {
    && |fifo'| <= |fifo| && fifo' == fifo[|fifo| - |fifo'|..]
    && b' == Fold(parse, 0, b, fifo[..|fifo| - |fifo'|])
  }

  lemma MovedTwice(parse: Parser, f0: seq<Byte>, b0: Buffer, f1: seq<Byte>, b1: Buffer, f2: seq<Byte>, b2: Buffer)
    requires Moved(parse, f0, b0, f1, b1) && Moved(parse, f1, b1, f2, b2)
    ensures Moved(parse, f0, b0, f2, b2)
  {
    var i, j := |f0| - |f1|, |f1| - |f2|;
    assert f0[..i + j] == f0[..i] + f1[..j];
    FoldConcat(parse, 0, b0, f0[..i], f1[..j]);
  }

  /** From (g, m) to (g', m') in one read: one read fewer is left, the bytes read are
      in the monitor's buffer, and repeat + length strictly decreases. */
  ghost predicate OneReadOn(parse: Parser, g: Globals, m: Mon, g': Globals, m': Mon) {
    && Canonical(g.fault) && CanDrain(g', m')
    && Reads(g') + 1 == Reads(g)
    && Remaining(g'.fault) + |g'.fifo| < Remaining(g.fault) + |g.fifo|
    && Moved(parse, g.fifo, m.buf, g'.fifo, m'.buf)
  }

  /** One pass uses up one EIO or one chunk. */
  lemma PassDrains(parse: Parser, g: Globals, m: Mon)
    requires CanDrain(g, m) && PollReady(g)
    ensures var (g', m') := Pass(parse, 0, g, m);
            OneReadOn(parse, g, m, g', m')
  {
    var (g', m') := Pass(parse, 0, g, m);
    if g.fault.kind == FAULT_EIO {
      assert g'.fifo == g.fifo && Chunk(g'.fault) == Chunk(g.fault) == READ_SIZE;
    } else {
      var n := ReadQuota(READ_SIZE, |g.fifo|, LimitOf(g.fault));
      assert n == Min(|g.fifo|, Chunk(g.fault));
      NeverStops(parse, m.buf, g.fifo[..n]);
      FoldKeepsOut(parse, 0, m.buf, g.fifo[..n]);
      assert g'.fifo == g.fifo[n..];
    }
  }

  lemma QuietMeansDrained(g: Globals)
    requires Canonical(g.fault)
    ensures !PollReady(g) ==> g.fifo == [] && Reads(g) == 0
  {
  }

  /** The state after the monitor has read until poll has nothing to report, and
      the number of reads it took. */
  function DrainRun(parse: Parser, g: Globals, m: Mon): (Globals, Mon, nat)
    requires CanDrain(g, m)
    decreases Remaining(g.fault) + |g.fifo|
  {
    if !PollReady(g) then (g, m, 0) else
      PassDrains(parse, g, m);
      var (g', m') := Pass(parse, 0, g, m);
      var r := DrainRun(parse, g', m');
      (r.0, r.1, r.2 + 1)
  }

  /** The monitor has read everything in g, with this many reads. */
  ghost predicate ReadAll(parse: Parser, g: Globals, m: Mon, r: (Globals, Mon, nat)) {
    && Canonical(g.fault)
    && r.0.fifo == [] && Remaining(r.0.fault) == 0 && r.1.phase.Polling?
    && r.2 == Reads(g)
    && r.1.buf == Fold(parse, 0, m.buf, g.fifo)
  }

  lemma ReadAllStep(parse: Parser, g: Globals, m: Mon, g': Globals, m': Mon, r: (Globals, Mon, nat))
    requires OneReadOn(parse, g, m, g', m') && ReadAll(parse, g', m', r)
    ensures ReadAll(parse, g, m, (r.0, r.1, r.2 + 1))
  {
    MovedAll(parse, g.fifo, m.buf, g'.fifo, m'.buf);
  }

  lemma {:induction false} DrainReadsAll(parse: Parser, g: Globals, m: Mon)
    requires CanDrain(g, m)
    ensures ReadAll(parse, g, m, DrainRun(parse, g, m))
    decreases Remaining(g.fault) + |g.fifo|
  {
    if PollReady(g) {
      PassDrains(parse, g, m);
      var p := Pass(parse, 0, g, m);
      DrainReadsAll(parse, p.0, p.1);
      ReadAllStep(parse, g, m, p.0, p.1, DrainRun(parse, p.0, p.1));
    } else {
      QuietMeansDrained(g);
    }
  }

  /** Drain bound: exactly repeat + ceil(len / chunk) reads empty the FIFO, the
      monitor is still polling, and its buffer has taken in the whole FIFO. */
  lemma DrainBound(parse: Parser, g: Globals, m: Mon)
    requires CanDrain(g, m)
    ensures var r := DrainRun(parse, g, m);
            && r.0.fifo == [] && Remaining(r.0.fault) == 0 && r.1.phase.Polling?
            && r.2 == Remaining(g.fault) + CeilDiv(|g.fifo|, Chunk(g.fault))
            && r.1.buf == Fold(parse, 0, m.buf, g.fifo)
    ensures var chunk := if g.fault.kind == 4 && g.fault.partialBytes < 512 then g.fault.partialBytes else 512;
            var chunks := DrainRun(parse, g, m).2 - (if g.fault.kind == 1 then g.fault.repeat else 0);
            |g.fifo| <= chunks * chunk && (g.fifo != [] ==> (chunks - 1) * chunk < |g.fifo|) && (g.fifo == [] ==> chunks == 0)
  {
    DrainReadsAll(parse, g, m);
    CeilDivRoundsUp(|g.fifo|, Chunk(g.fault));
  }

  lemma MovedAll(parse: Parser, fifo: seq<Byte>, b: Buffer, fifo': seq<Byte>, b': Buffer)
    requires Moved(parse, fifo, b, fifo', b')
    ensures Fold(parse, 0, b', fifo') == Fold(parse, 0, b, fifo)
  {
    assert fifo == fifo[..|fifo| - |fifo'|] + fifo';
    FoldConcat(parse, 0, b, fifo[..|fifo| - |fifo'|], fifo');
  }

  /** One pass of the monitor's loop over the driver's own code. */
  method MonitorPass(parse: Parser, max: nat, core: Core, m: Mon) returns (ready: bool, m': Mon)
    requires core.Valid() && m.phase.Polling?
    modifies core
    ensures core.Valid() && ready == PollReady(old(core.View()))
    ensures (core.View(), m') == (if ready then Pass(parse, max, old(core.View()), m) else (old(core.View()), m))
  {
    var poll := core.Poll(true, false);
    ready, m' := poll.Some?, m;
    if ready {
      m' := OnPoll(m', poll.value);
      var read := core.Read(READ_SIZE, true);
      m' := OnRead(parse, max, m', read.value);
    }
  }

  /** Part of the way from (g0, m0): reads taken and reads left add up, and the
      bytes gone from the front of the FIFO are in the monitor's buffer. */
  ghost predicate Progress(parse: Parser, g0: Globals, m0: Mon, g: Globals, m: Mon, taken: nat)
    requires Canonical(g0.fault)
  {
    && CanDrain(g, m)
    && taken + Reads(g) == Reads(g0)
    && Moved(parse, g0.fifo, m0.buf, g.fifo, m.buf)
  }

  lemma ProgressStep(parse: Parser, g0: Globals, m0: Mon, g: Globals, m: Mon, taken: nat)
    requires Canonical(g0.fault) && Progress(parse, g0, m0, g, m, taken) && PollReady(g)
    ensures var p := Pass(parse, 0, g, m);
            Progress(parse, g0, m0, p.0, p.1, taken + 1) &&
            Remaining(p.0.fault) + |p.0.fifo| < Remaining(g.fault) + |g.fifo|
  {
    PassDrains(parse, g, m);
    var p := Pass(parse, 0, g, m);
    MovedTwice(parse, g0.fifo, m0.buf, g.fifo, m.buf, p.0.fifo, p.1.buf);
  }

  /** Draining as a loop over the driver's own code. */
  method DrainMonitor(parse: Parser, core: Core, start: Mon) returns (m: Mon, taken: nat)
    requires core.Valid() && CanDrain(core.View(), start)
    modifies core
    ensures core.Valid() && core.fifo == [] && m.phase.Polling?
    ensures m.buf == Fold(parse, 0, start.buf, old(core.fifo))
    ensures taken == Remaining(old(core.fault)) + CeilDiv(|old(core.fifo)|, Chunk(old(core.fault)))
  {
    m, taken := start, 0;
    ghost var g0 := core.View();
    assert g0.fifo[0..] == g0.fifo && g0.fifo[..0] == [];
    var ready := true;
    while ready
      invariant core.Valid() && Progress(parse, g0, start, core.View(), m, taken)
      invariant !ready ==> !PollReady(core.View())
      decreases ready, Remaining(core.fault) + |core.fifo|
    {
      if PollReady(core.View()) {
        ProgressStep(parse, g0, start, core.View(), m, taken);
      }
      ready, m := MonitorPass(parse, 0, core, m);
      taken := taken + if ready then 1 else 0;
    }
    QuietMeansDrained(core.View());
    assert g0.fifo[..|g0.fifo|] == g0.fifo;
  }

  // ---- the same on the step machine ----

  /** There is always an unused call id. */
  lemma {:induction false} FreshId(used: set<Id>) returns (id: Id)
    ensures forall i :: i in used ==> i < id
    decreases used
  {
    if used == {} {
      id := 0;
    } else {
      var i :| i in used;
      var b := FreshId(used - {i});
      id := if i < b then b else i + 1;
      assert forall j :: j in used ==> j == i || j in used - {i};
    }
  }

  function GlobalsOf(s: State): Globals {
    Globals(s.sh.fault, s.sh.fifo)
  }

  predicate Free(s: State) {
    s.sh.faultLock.None? && s.sh.fifoLock.None?
  }

  /** Two calls of one pass: what the monitor asked for, and both have returned. */
  predicate IsPass(s: State, p: Id, r: Id) {
    && p != r && p in s.calls && r in s.calls
    && s.calls[p].call == Poll(true, false) && s.calls[p].pc.Done?
    && s.calls[r].call == Read(READ_SIZE, true) && s.calls[r].pc.Done?
  }

  /** What the monitor makes of the results of one pass. */
  function AfterPass(parse: Parser, m: Mon, s: State, p: Id, r: Id): Mon
    requires IsPass(s, p, r)
  {
    OnRead(parse, 0, OnPoll(m, s.calls[p].pc.result), s.calls[r].pc.result)
  }

  /** A run from s to s' in which only the calls `ids` are begun and step, and every
      call that was there before is left undisturbed. */
  predicate OwnRun(s: State, run: seq<Move>, ids: set<Id>, s': State) {
    && Legal(s, run) && Exec(s, run) == s'
    && (forall mv :: mv in run ==> mv.id in ids)
    && ids !! s.calls.Keys && s'.calls.Keys == s.calls.Keys + ids
    && (forall i :: i in s.calls ==> Undisturbed(s.calls[i], s'.calls[i]))
  }

  lemma OwnRuns(s: State, a: seq<Move>, idsA: set<Id>, s1: State, b: seq<Move>, idsB: set<Id>, s2: State)
    requires OwnRun(s, a, idsA, s1) && OwnRun(s1, b, idsB, s2)
    ensures OwnRun(s, a + b, idsA + idsB, s2)
  {
    ExecAppend(s, a, b);
    forall i | i in s.calls ensures Undisturbed(s.calls[i], s2.calls[i]) {
      assert Undisturbed(s.calls[i], s1.calls[i]) && Undisturbed(s1.calls[i], s2.calls[i]);
    }
  }

  lemma OwnCall(s: State, call: Call) returns (run: seq<Move>, id: Id, s': State)
    requires Reachable(s) && Free(s)
    ensures OwnRun(s, run, {id}, s') && Reachable(s') && s'.calls[id].call == call
    ensures var o := Solo(GlobalsOf(s), call);
            s'.sh == Unlocked(o.g) && Matches((s'.sh, s'.calls[id].pc), o)
  {
    id := FreshId(s.calls.Keys);
    s', run := SoloReach(s, id, call);
  }

  /** One pass is a poll call and a read call of the step machine, run one after the
      other by themselves, and the monitor handles what these two return. */
  lemma PassOnMachine(parse: Parser, s: State, m: Mon) returns (run: seq<Move>, p: Id, r: Id, s': State)
    requires Reachable(s) && Free(s) && PollReady(GlobalsOf(s)) && m.phase.Polling?
    ensures OwnRun(s, run, {p, r}, s') && IsPass(s', p, r)
    ensures Reachable(s') && Free(s')
    ensures (GlobalsOf(s'), AfterPass(parse, m, s', p, r)) == Pass(parse, 0, GlobalsOf(s), m)
    ensures Some(s'.calls[r].pc.result) == SoloRead(GlobalsOf(s), READ_SIZE, true).result
  {
    var poll, p', s1 := OwnCall(s, Poll(true, false));
    var read, r', s2 := OwnCall(s1, Read(READ_SIZE, true));
    run, p, r, s' := poll + read, p', r', s2;
    assert Undisturbed(s1.calls[p], s'.calls[p]);
    OwnRuns(s, poll, {p}, s1, read, {r}, s');
    assert {p} + {r} == {p, r};
  }

  /** A disconnect ends the monitor, on the step machine: from every reachable
      disconnected state without a held mutex one poll and one read, and it exits. */
  lemma DisconnectOnMachine(parse: Parser, s: State, m: Mon) returns (run: seq<Move>, p: Id, r: Id, s': State)
    requires Reachable(s) && Free(s) && s.sh.fault.kind == 3 && m.phase.Polling?
    ensures OwnRun(s, run, {p, r}, s') && IsPass(s', p, r) && GlobalsOf(s') == GlobalsOf(s)
    ensures s'.calls[r].pc == Done(Failed(ENODEV))
    ensures var m' := AfterPass(parse, m, s', p, r);
            m'.phase == Exited(0) && m'.log == m.log + [DeviceDisconnected]
  {
    DisconnectedPass(parse, 0, GlobalsOf(s), m);
    run, p, r, s' := PassOnMachine(parse, s, m);
  }

  predicate ArePasses(s: State, passes: seq<(Id, Id)>) {
    forall k :: 0 <= k < |passes| ==> IsPass(s, passes[k].0, passes[k].1)
  }

  /** The monitor after handling the results of these passes one after the other. */
  function AfterPasses(parse: Parser, m: Mon, s: State, passes: seq<(Id, Id)>): Mon
    requires ArePasses(s, passes)
    decreases |passes|
  {
    if passes == [] then m
    else AfterPasses(parse, AfterPass(parse, m, s, passes[0].0, passes[0].1), s, passes[1..])
  }

  function Ids(passes: seq<(Id, Id)>): set<Id> {
    (set k | 0 <= k < |passes| :: passes[k].0) + (set k | 0 <= k < |passes| :: passes[k].1)
  }

  /** A run of these passes, all of them new and different calls. */
  ghost predicate PassesRun(s: State, run: seq<Move>, passes: seq<(Id, Id)>, s': State) {
    OwnRun(s, run, Ids(passes), s') && |Ids(passes)| == 2 * |passes|
  }

  /** There are as many passes as reads to do; the FIFO is empty, and the monitor that
      has handled the results of these very calls has taken in the whole FIFO of s. */
  ghost predicate PassesRead(parse: Parser, s: State, m: Mon, passes: seq<(Id, Id)>, s': State) {
    && Canonical(s.sh.fault) && |passes| == Reads(GlobalsOf(s))
    && Free(s') && s'.sh.fifo == []
    && ArePasses(s', passes)
    && var m' := AfterPasses(parse, m, s', passes);
       m'.phase.Polling? && m'.buf == Fold(parse, 0, m.buf, s.sh.fifo)
  }

  lemma StaysThere(s: State, run: seq<Move>, ids: set<Id>, s': State, i: Id)
    requires OwnRun(s, run, ids, s') && i in s.calls
    ensures i !in ids && i in s'.calls && Undisturbed(s.calls[i], s'.calls[i])
  {}

  lemma OneMoreRun(s: State, first: seq<Move>, p: Id, r: Id, s1: State, rest: seq<Move>, more: seq<(Id, Id)>, s2: State)
    requires OwnRun(s, first, {p, r}, s1) && IsPass(s1, p, r) && PassesRun(s1, rest, more, s2)
    ensures PassesRun(s, first + rest, [(p, r)] + more, s2)
  {
    StaysThere(s1, rest, Ids(more), s2, p);
    StaysThere(s1, rest, Ids(more), s2, r);
    IdsCons(p, r, more);
    OwnRuns(s, first, {p, r}, s1, rest, Ids(more), s2);
  }

  lemma OneMoreRead(parse: Parser, s: State, m: Mon, p: Id, r: Id, s1: State, more: seq<(Id, Id)>, s2: State)
    requires IsPass(s1, p, r)
    requires p in s2.calls && Undisturbed(s1.calls[p], s2.calls[p])
    requires r in s2.calls && Undisturbed(s1.calls[r], s2.calls[r])
    requires OneReadOn(parse, GlobalsOf(s), m, GlobalsOf(s1), AfterPass(parse, m, s1, p, r))
    requires PassesRead(parse, s1, AfterPass(parse, m, s1, p, r), more, s2)
    ensures PassesRead(parse, s, m, [(p, r)] + more, s2)
  {
    ComposePasses(parse, m, s1, s2, p, r, more);
    MovedAll(parse, s.sh.fifo, m.buf, s1.sh.fifo, AfterPass(parse, m, s1, p, r).buf);
  }

  lemma {:induction false} MachineDrains(parse: Parser, s: State, m: Mon)
    returns (run: seq<Move>, passes: seq<(Id, Id)>, s': State)
    requires Reachable(s) && Free(s) && CanDrain(GlobalsOf(s), m)
    ensures PassesRun(s, run, passes, s') && PassesRead(parse, s, m, passes, s')
    decreases Remaining(s.sh.fault) + |s.sh.fifo|
  {
    if !PollReady(GlobalsOf(s)) {
      QuietMeansDrained(GlobalsOf(s));
      run, passes, s' := [], [], s;
    } else {
      var first, p, r, s1 := PassOnMachine(parse, s, m);
      PassDrains(parse, GlobalsOf(s), m);
      var rest, more, s2 := MachineDrains(parse, s1, AfterPass(parse, m, s1, p, r));
      OneMoreRun(s, first, p, r, s1, rest, more, s2);
      StaysThere(s1, rest, Ids(more), s2, p);
      StaysThere(s1, rest, Ids(more), s2, r);
      OneMoreRead(parse, s, m, p, r, s1, more, s2);
      run, passes, s' := first + rest, [(p, r)] + more, s2;
    }
  }

  /** The drain bound on the step machine. From every reachable state with no mutex
      held there is a run of new calls only, each a pass of the monitor: exactly
      repeat + ceil(len / chunk) polls and as many reads. It leaves every other call
      undisturbed and the FIFO empty, and the monitor that handles the results of
      these very calls has taken in the whole FIFO and is polling again. */
  lemma DrainOnMachine(parse: Parser, s: State, m: Mon)
    returns (run: seq<Move>, passes: seq<(Id, Id)>, s': State)
    requires Reachable(s) && Free(s) && CanDrain(GlobalsOf(s), m)
    ensures |passes| == Remaining(s.sh.fault) + CeilDiv(|s.sh.fifo|, Chunk(s.sh.fault))
    ensures OwnRun(s, run, Ids(passes), s') && |Ids(passes)| == 2 * |passes|
    ensures Reachable(s') && Free(s') && s'.sh.fifo == []
    ensures ArePasses(s', passes)
    ensures var m' := AfterPasses(parse, m, s', passes);
            m'.phase.Polling? && m'.buf == Fold(parse, 0, m.buf, s.sh.fifo)
  {
    run, passes, s' := MachineDrains(parse, s, m);
    StillReachable(s, run);
  }

  lemma ComposePasses(parse: Parser, m: Mon, s1: State, s2: State, p: Id, r: Id, more: seq<(Id, Id)>)
    requires IsPass(s1, p, r) && ArePasses(s2, more)
    requires p in s2.calls && Undisturbed(s1.calls[p], s2.calls[p])
    requires r in s2.calls && Undisturbed(s1.calls[r], s2.calls[r])
    ensures var passes := [(p, r)] + more;
            ArePasses(s2, passes) &&
            AfterPasses(parse, m, s2, passes) == AfterPasses(parse, AfterPass(parse, m, s1, p, r), s2, more)
  {
    assert ([(p, r)] + more)[1..] == more;
  }

  lemma IdsCons(p: Id, r: Id, more: seq<(Id, Id)>)
    requires p != r && p !in Ids(more) && r !in Ids(more)
    ensures Ids([(p, r)] + more) == {p, r} + Ids(more)
    ensures |Ids([(p, r)] + more)| == 2 + |Ids(more)|
  {
    var passes := [(p, r)] + more;
    forall i | i in {p, r} + Ids(more) ensures i in Ids(passes) {
      if i == p || i == r {
        assert passes[0] == (p, r);
      } else {
        var k :| 0 <= k < |more| && (more[k].0 == i || more[k].1 == i);
        assert passes[k + 1] == more[k];
      }
    }
    forall i | i in Ids(passes) ensures i in {p, r} + Ids(more) {
      var k :| 0 <= k < |passes| && (passes[k].0 == i || passes[k].1 == i);
      if k > 0 {
        assert passes[k] == more[k - 1];
      }
    }
    assert Ids(passes) == {p, r} + Ids(more);
    assert {p, r} !! Ids(more) && |{p, r}| == 2;
  }
}
