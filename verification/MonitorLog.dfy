// The monitor's log as the analysis sees it.

module MonitorLog {
  import opened Common
  import opened LineBuffer
  import opened Monitor
  import opened Analysis
  import Device

  function ErrnoNumber(e: Device.Errno): int {
    match e
    case EIO => 5
    case ENODEV => 19
    case EAGAIN => 11
    case EFAULT => 14
    case EINVAL => 22
    case ERESTARTSYS => 4
    case ENOTTY => 25
  }

  function Name(e: MonEvent): string {
    match e
    case MonitorStarted => "MONITOR_STARTED"
    case Line(Temperature(_)) => "TEMPERATURE"
    case Line(ThermalWarning(_)) => "THERMAL_WARNING"
    case Line(InvalidInput) => "INVALID_INPUT"
    case Line(InputTooLong) => "INPUT_TOO_LONG"
    case ReadRetry(_) => "READ_RETRY"
    case RecoverySuccess(_) => "RECOVERY_SUCCESS"
    case DeviceDisconnected => "DEVICE_DISCONNECTED"
    case ReadFailed(_) => "READ_FAILED"
    case DeviceEof => "DEVICE_EOF"
  }

  function Extra(e: MonEvent): map<string, Json> {
    match e
    case Line(Temperature(c)) => map["temperature_c" := JReal(c)]
    case Line(ThermalWarning(c)) => map["temperature_c" := JReal(c)]
    case ReadRetry(n) => map["retry" := JInt(n), "max_retries" := JInt(MAX_EIO_RETRIES), "errno" := JInt(5)]
    case RecoverySuccess(n) => map["retries" := JInt(n)]
    case DeviceDisconnected => map["errno" := JInt(19)]
    case ReadFailed(e) => map["errno" := JInt(ErrnoNumber(e))]
    case _ => map[]
  }

  /** One printed line, decoded again. */
  function Printed(e: MonEvent, ts: nat): Decoded {
    Object(Extra(e)["timestamp_ms" := JInt(ts)]["event" := JStr(Name(e))])
  }

  function PrintedLog(log: seq<MonEvent>, stamps: seq<nat>): seq<Decoded>
    requires |log| == |stamps|
  {
    seq(|log|, i requires 0 <= i < |log| => Printed(log[i], stamps[i]))
  }

  function RecordFor(e: MonEvent, ts: nat, line: nat): Record {
    Record(line, ts, Name(e), Extra(e))
  }

  function RecordsFor(log: seq<MonEvent>, stamps: seq<nat>): seq<Record>
    requires |log| == |stamps|
  {
    seq(|log|, i requires 0 <= i < |log| => RecordFor(log[i], stamps[i], i + 1))
  }

  predicate Ascending(stamps: seq<nat>) {
    forall i, j :: 0 <= i < j < |stamps| ==> stamps[i] <= stamps[j]
  }

  lemma NamesTellEventsApart(e: MonEvent)
    ensures Name(e) == "READ_RETRY" <==> e.ReadRetry?
    ensures Name(e) == "RECOVERY_SUCCESS" <==> e.RecoverySuccess?
    ensures !BlankText(Name(e))
  {
    assert |"READ_RETRY"| == 10 && |"RECOVERY_SUCCESS"| == 16 && |"DEVICE_EOF"| == 10;
    assert !IsSpace(Name(e)[0]);
    if e.DeviceEof? {
      assert Name(e)[0] != "READ_RETRY"[0];
    }
  }

  lemma PrintedParses(e: MonEvent, ts: nat, line: nat, previous: Option<nat>)
    requires previous.Some? ==> previous.value <= ts
    ensures RecordOf(Printed(e, ts).fields, line, previous) == Some(RecordFor(e, ts, line))
  {
    NamesTellEventsApart(e);
    var fields := Printed(e, ts).fields;
    assert "timestamp_ms" != "event" by {
      assert |"timestamp_ms"| != |"event"|;
    }
    ExtraKeys(e);
    assert fields - {"timestamp_ms", "event"} == Extra(e);
  }

  lemma ExtraKeys(e: MonEvent)
    ensures "timestamp_ms" !in Extra(e) && "event" !in Extra(e)
  {
    assert |"timestamp_ms"| == 12 && |"event"| == 5 && |"retry"| == 5 && |"errno"| == 5;
    assert |"temperature_c"| == 13 && |"max_retries"| == 11 && |"retries"| == 7;
    assert "event"[1] != "retry"[1] && "event"[1] != "errno"[1];
  }

  lemma PrintedSnoc(log: seq<MonEvent>, stamps: seq<nat>, n: nat)
    requires |log| == |stamps| == n + 1
    ensures PrintedLog(log, stamps)[..n] == PrintedLog(log[..n], stamps[..n])
    ensures RecordsFor(log, stamps) == RecordsFor(log[..n], stamps[..n]) + [RecordFor(log[n], stamps[n], n + 1)]
  {}

  lemma LastLineParses(log: seq<MonEvent>, stamps: seq<nat>, n: nat)
    requires |log| == |stamps| == n + 1 && Ascending(stamps)
    ensures var last := PrintedLog(log, stamps)[n];
            last.Object? &&
            RecordOf(last.fields, n + 1, LastStamp(RecordsFor(log[..n], stamps[..n]))) ==
              Some(RecordFor(log[n], stamps[n], n + 1))
  {
    PrintedParses(log[n], stamps[n], n + 1, LastStamp(RecordsFor(log[..n], stamps[..n])));
  }

  /** What the monitor prints under a clock that does not run backwards, the parser
      accepts line for line. */
  lemma {:induction false} PrintedLogParses(log: seq<MonEvent>, stamps: seq<nat>)
    requires |log| == |stamps| && Ascending(stamps)
    ensures Parsed(PrintedLog(log, stamps)) == Ok(RecordsFor(log, stamps))
    decreases |log|
  {
    if log == [] {
      assert PrintedLog(log, stamps) == [] && RecordsFor(log, stamps) == [];
    } else {
      var n := |log| - 1;
      PrintedLogParses(log[..n], stamps[..n]);
      PrintedSnoc(log, stamps, n);
      LastLineParses(log, stamps, n);
      ParsedSnoc(PrintedLog(log, stamps), RecordsFor(log[..n], stamps[..n]), RecordFor(log[n], stamps[n], n + 1));
    }
  }

  /** One more accepted line. */
  lemma ParsedSnoc(lines: seq<Decoded>, before: seq<Record>, last: Record)
    requires lines != [] && lines[|lines| - 1].Object? && Parsed(lines[..|lines| - 1]) == Ok(before)
    requires RecordOf(lines[|lines| - 1].fields, |lines|, LastStamp(before)) == Some(last)
    ensures Parsed(lines) == Ok(before + [last])
  {}

  // ---- reading a log back ----

  function ErrnoOf(n: int): Option<Device.Errno> {
    if n == 5 then Some(Device.EIO)
    else if n == 19 then Some(Device.ENODEV)
    else if n == 11 then Some(Device.EAGAIN)
    else if n == 14 then Some(Device.EFAULT)
    else if n == 22 then Some(Device.EINVAL)
    else if n == 4 then Some(Device.ERESTARTSYS)
    else if n == 25 then Some(Device.ENOTTY)
    else None
  }

  function ReadingOf(fields: map<string, Json>): Option<real> {
    if "temperature_c" in fields && fields["temperature_c"].JReal? then Some(fields["temperature_c"].x) else None
  }

  function ErrnoIn(fields: map<string, Json>): Option<Device.Errno> {
    if "errno" in fields && fields["errno"].JInt? then ErrnoOf(fields["errno"].n) else None
  }

  /** The event a record stands for, by the documented names and fields. */
  function EventOf(r: Record): Option<MonEvent> {
    if r.event == "MONITOR_STARTED" then Some(MonitorStarted)
    else if r.event == "INVALID_INPUT" then Some(Line(InvalidInput))
    else if r.event == "INPUT_TOO_LONG" then Some(Line(InputTooLong))
    else if r.event == "DEVICE_EOF" then Some(DeviceEof)
    else if r.event == "TEMPERATURE" && ReadingOf(r.fields).Some? then Some(Line(Temperature(ReadingOf(r.fields).value)))
    else if r.event == "THERMAL_WARNING" && ReadingOf(r.fields).Some? then Some(Line(ThermalWarning(ReadingOf(r.fields).value)))
    else if r.event == "READ_RETRY" && NonNegative(r.fields, "retry").Some? && ErrnoIn(r.fields) == Some(Device.EIO) &&
            NonNegative(r.fields, "max_retries") == Some(3)
      then Some(ReadRetry(NonNegative(r.fields, "retry").value))
    else if r.event == "RECOVERY_SUCCESS" && NonNegative(r.fields, "retries").Some?
      then Some(RecoverySuccess(NonNegative(r.fields, "retries").value))
    else if r.event == "DEVICE_DISCONNECTED" && ErrnoIn(r.fields) == Some(Device.ENODEV) then Some(DeviceDisconnected)
    else if r.event == "READ_FAILED" && ErrnoIn(r.fields).Some? then Some(ReadFailed(ErrnoIn(r.fields).value))
    else None
  }

  /** No name is another one. */
  lemma NamesDiffer()
    ensures |"MONITOR_STARTED"| == 15 && |"INVALID_INPUT"| == 13 && |"INPUT_TOO_LONG"| == 14
    ensures |"DEVICE_EOF"| == 10 && |"TEMPERATURE"| == 11 && |"THERMAL_WARNING"| == 15
    ensures |"READ_RETRY"| == 10 && |"RECOVERY_SUCCESS"| == 16 && |"DEVICE_DISCONNECTED"| == 19 && |"READ_FAILED"| == 11
    ensures "MONITOR_STARTED" != "THERMAL_WARNING" && "DEVICE_EOF" != "READ_RETRY" && "TEMPERATURE" != "READ_FAILED"
  {
    assert "MONITOR_STARTED"[0] == 'M' && "THERMAL_WARNING"[0] == 'T';
    assert "DEVICE_EOF"[0] == 'D' && "READ_RETRY"[0] == 'R' && "TEMPERATURE"[0] == 'T' && "READ_FAILED"[0] == 'R';
  }

  lemma EventReadsBack(e: MonEvent, ts: nat, line: nat)
    ensures EventOf(RecordFor(e, ts, line)) == Some(e)
  {
    NamesDiffer();
    assert |"retry"| == 5 && |"max_retries"| == 11 && |"errno"| == 5 && "retry"[0] != "errno"[0];
  }

  lemma RecordReadsBack(log: seq<MonEvent>, stamps: seq<nat>, i: nat)
    requires |log| == |stamps| && i < |log|
    ensures EventOf(RecordsFor(log, stamps)[i]) == Some(log[i]) && RecordsFor(log, stamps)[i].ts == stamps[i]
  {
    EventReadsBack(log[i], stamps[i], i + 1);
  }

  /** The log loses nothing: what the parser gets out of the printed lines stands for
      exactly the events the monitor logged, in order, each with its stamp. */
  lemma LogReadsBack(log: seq<MonEvent>, stamps: seq<nat>, i: nat)
    requires |log| == |stamps| && Ascending(stamps) && i < |log|
    ensures var p := Parsed(PrintedLog(log, stamps));
            p.Ok? && |p.value| == |log| && EventOf(p.value[i]) == Some(log[i]) && p.value[i].ts == stamps[i]
  {
    PrintedLogParses(log, stamps);
    RecordReadsBack(log, stamps, i);
  }

  // ---- the metrics of a monitor log ----

  lemma RecordName(log: seq<MonEvent>, stamps: seq<nat>, i: nat)
    requires |log| == |stamps| && i < |log|
    ensures var e := RecordsFor(log, stamps)[i];
            (IsRetry(e) <==> log[i].ReadRetry?) && (IsRecovery(e) <==> log[i].RecoverySuccess?)
  {
    NamesTellEventsApart(log[i]);
  }

  lemma RecordFields(log: seq<MonEvent>, stamps: seq<nat>, i: nat)
    requires |log| == |stamps| && i < |log|
    ensures var fields := RecordsFor(log, stamps)[i].fields;
            (log[i].ReadRetry? ==> NonNegative(fields, "errno") == Some(5) && NonNegative(fields, "retry") == Some(log[i].retry)) &&
            (log[i].RecoverySuccess? ==> NonNegative(fields, "retries") == Some(log[i].retries))
  {
    assert |"retry"| == 5 && |"max_retries"| == 11 && |"errno"| == 5 && "retry"[0] != "errno"[0];
  }

  lemma RecordKind(log: seq<MonEvent>, stamps: seq<nat>, i: nat)
    requires |log| == |stamps| && i < |log|
    ensures var e := RecordsFor(log, stamps)[i];
            (IsRetry(e) <==> log[i].ReadRetry?) && (IsRecovery(e) <==> log[i].RecoverySuccess?) &&
            (IsEioRetry(e) <==> log[i].ReadRetry?) &&
            (log[i].ReadRetry? ==> NonNegative(e.fields, "errno") == Some(5) &&
                                   NonNegative(e.fields, "retry") == Some(log[i].retry)) &&
            (log[i].RecoverySuccess? ==> NonNegative(e.fields, "retries") == Some(log[i].retries))
  {
    RecordName(log, stamps, i);
    RecordFields(log, stamps, i);
  }

  /** Retries since the last recovery, counted by the monitor's rule and by the
      analysis. */
  lemma {:induction false} OpenIsObserved(log: seq<MonEvent>, stamps: seq<nat>, i: nat)
    requires |log| == |stamps| && i <= |log|
    ensures var es := RecordsFor(log, stamps);
            RetriesIn(es, WindowStart(es, i), i) == OpenRetries(log[..i])
    ensures EioRetries(RecordsFor(log, stamps), i) == RetriesIn(RecordsFor(log, stamps), 0, i)
    decreases i
  {
    if i > 0 {
      OpenIsObserved(log, stamps, i - 1);
      RecordKind(log, stamps, i - 1);
      assert log[..i][..i - 1] == log[..i - 1];
    }
  }

  lemma {:induction false} DisciplinedAt(log: seq<MonEvent>, i: nat)
    requires Disciplined(log) && i < |log|
    ensures log[i].ReadRetry? ==> log[i].retry == OpenRetries(log[..i]) + 1 <= MAX_EIO_RETRIES
    ensures log[i].RecoverySuccess? ==> log[i].retries == OpenRetries(log[..i]) >= 1
    ensures OpenRetries(log[..i]) <= MAX_EIO_RETRIES
    decreases |log|
  {
    var init := log[..|log| - 1];
    if i < |init| {
      DisciplinedAt(init, i);
      assert init[..i] == log[..i];
    } else if init != [] {
      assert log[..i] == init;
      DisciplinedAt(init, |init| - 1);
      assert init[..|init| - 1] == init[..|init| - 1];
    } else {
      assert log[..i] == [];
    }
  }

  lemma NoRetriesNoOpen(es: seq<Record>, lo: nat, hi: nat)
    requires lo <= hi <= |es| && FirstRetry(es, lo, hi).None?
    ensures RetriesIn(es, lo, hi) == 0
    decreases hi - lo
  {
    if lo < hi {
      NoRetriesNoOpen(es, lo, hi - 1);
    }
  }

  lemma DisciplinedIsGood(log: seq<MonEvent>, stamps: seq<nat>)
    requires |log| == |stamps| && Disciplined(log)
    ensures Good(RecordsFor(log, stamps), |log|)
  {
    var es := RecordsFor(log, stamps);
    forall i | 0 <= i < |es| ensures !Bad(es, i) {
      RecordKind(log, stamps, i);
      DisciplinedAt(log, i);
      OpenIsObserved(log, stamps, i);
      if FirstRetry(es, WindowStart(es, i), i).None? {
        NoRetriesNoOpen(es, WindowStart(es, i), i);
      }
    }
  }

  lemma {:induction false} WindowsFaithful(log: seq<MonEvent>, stamps: seq<nat>, n: nat)
    requires |log| == |stamps| && Disciplined(log) && n <= |log|
    requires Good(RecordsFor(log, stamps), n)
    ensures forall k :: 0 <= k < |Windows(RecordsFor(log, stamps), n)| ==>
              var w := Windows(RecordsFor(log, stamps), n)[k];
              w.observed == w.reported && 1 <= w.observed <= MAX_EIO_RETRIES
    decreases n
  {
    if n > 0 {
      WindowsFaithful(log, stamps, n - 1);
      RecordKind(log, stamps, n - 1);
      DisciplinedAt(log, n - 1);
      OpenIsObserved(log, stamps, n - 1);
    }
  }

  /** What the analysis makes of these printed lines: it accepts them all, computes
      the metrics without an error, every window counts as many retries as the monitor
      reported, 1 to 3, and every counted retry is an EIO. */
  predicate Agreed(log: seq<MonEvent>, stamps: seq<nat>)
    requires |stamps| == |log|
  {
    var p := Parsed(PrintedLog(log, stamps));
    p == Ok(RecordsFor(log, stamps)) && Good(p.value, |p.value|) &&
    var m := MetricsOf(p.value);
    m.eioCount == m.retryCount &&
    (forall k :: 0 <= k < |m.recoveries| ==>
       m.recoveries[k].observed == m.recoveries[k].reported &&
       1 <= m.recoveries[k].observed <= MAX_EIO_RETRIES)
  }

  lemma DisciplinedAgrees(log: seq<MonEvent>, stamps: seq<nat>)
    requires |stamps| == |log| && Ascending(stamps) && Disciplined(log)
    ensures Agreed(log, stamps)
  {
    PrintedLogParses(log, stamps);
    DisciplinedIsGood(log, stamps);
    OpenIsObserved(log, stamps, |log|);
    WindowsFaithful(log, stamps, |log|);
  }

  /** Monitor and analysis agree, whatever poll and read return and whenever a stop
      is requested, with stamps that do not go backwards. */
  lemma MonitorAndAnalysisAgree(parse: Parser, max: nat, turns: seq<Turn>, stamps: seq<nat>)
    requires |stamps| == |RunTurns(parse, max, turns).log| && Ascending(stamps)
    ensures Agreed(RunTurns(parse, max, turns).log, stamps)
  {
    RunTurnsInv(parse, max, turns);
    DisciplinedAgrees(RunTurns(parse, max, turns).log, stamps);
  }
}
