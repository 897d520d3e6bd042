// src/vdevlab/analysis.py: validating the application's JSONL log and computing
// recovery metrics from it. JSON decoding has already happened.

module Analysis {
  import opened Common

  datatype Json = JInt(n: int) | JBool(b: bool) | JReal(x: real) | JStr(s: string) | JOther

  /** One line of stdout after json.loads. */
  datatype Decoded = Blank | NotJson | NotObject | Object(fields: map<string, Json>)

  datatype Record = Record(line: nat, ts: nat, event: string, fields: map<string, Json>)

  /** A value, or an ApplicationLogError at a line. */
  datatype Checked<T> = Ok(value: T) | Raised(line: nat)

  const EIO_NUMBER: int := 5

  /** What str.strip removes, as far as ASCII goes. */
  predicate IsSpace(c: char) {
    c == ' ' || 9 <= c as int <= 13 || 28 <= c as int <= 31
  }

  predicate BlankText(s: string) {
    forall i :: 0 <= i < |s| ==> IsSpace(s[i])
  }

  /** _require_nonnegative_integer; a bool is not an integer here. */
  function NonNegative(fields: map<string, Json>, key: string): Option<nat> {
    if key in fields && fields[key].JInt? && fields[key].n >= 0 then Some(fields[key].n) else None
  }

  // ---- parse_application_log ----

  /** The record a line stands for, unless it is an error after `previous`. */
  function RecordOf(fields: map<string, Json>, number: nat, previous: Option<nat>): Option<Record> {
    var ts := NonNegative(fields, "timestamp_ms");
    if ts.None? || (previous.Some? && ts.value < previous.value) then None
    else if "event" !in fields || !fields["event"].JStr? || BlankText(fields["event"].s) then None
    else Some(Record(number, ts.value, fields["event"].s, fields - {"timestamp_ms", "event"}))
  }

  function LastStamp(events: seq<Record>): Option<nat> {
    if events == [] then None else Some(events[|events| - 1].ts)
  }

  function Parsed(lines: seq<Decoded>): Checked<seq<Record>>
    decreases |lines|
  {
    if lines == [] then Ok([]) else
      var before := Parsed(lines[..|lines| - 1]);
      var last := lines[|lines| - 1];
      if before.Raised? || last.Blank? then before
      else if !last.Object? then Raised(|lines|)
      else match RecordOf(last.fields, |lines|, LastStamp(before.value))
           case None => Raised(|lines|)
           case Some(r) => Ok(before.value + [r])
  }

  predicate NonDecreasing(events: seq<Record>) {
    forall i, j :: 0 <= i < j < |events| ==> events[i].ts <= events[j].ts
  }

  /** Accepted logs have non-decreasing stamps and increasing line numbers. */
  lemma {:induction false} ParsedInOrder(lines: seq<Decoded>)
    ensures var p := Parsed(lines);
            p.Ok? ==> NonDecreasing(p.value) && (p.value != [] ==> p.value[|p.value| - 1].line <= |lines|) &&
                      (forall i, j :: 0 <= i < j < |p.value| ==> p.value[i].line < p.value[j].line)
    decreases |lines|
  {
    if lines != [] && Parsed(lines).Ok? {
      ParsedInOrder(lines[..|lines| - 1]);
      var before, after := Parsed(lines[..|lines| - 1]).value, Parsed(lines).value;
      forall i, j | 0 <= i < j < |after|
        ensures after[i].ts <= after[j].ts && after[i].line < after[j].line
      {
        if j == |before| && i < |before| - 1 {
          assert before[i].ts <= before[|before| - 1].ts;
          assert before[i].line < before[|before| - 1].line;
        }
      }
    }
  }

  predicate Reports(r: Record, lines: seq<Decoded>) {
    1 <= r.line <= |lines| && lines[r.line - 1].Object? &&
    RecordOf(lines[r.line - 1].fields, r.line, None) == Some(r)
  }

  /** An accepted log has one record for each non-blank line, made from the object
      on that line, and no others. */
  lemma {:induction false} ParsedIsComplete(lines: seq<Decoded>)
    requires Parsed(lines).Ok?
    ensures forall i :: 0 <= i < |Parsed(lines).value| ==> Reports(Parsed(lines).value[i], lines)
    ensures forall k :: 0 <= k < |lines| && !lines[k].Blank? ==>
              exists i :: 0 <= i < |Parsed(lines).value| && Parsed(lines).value[i].line == k + 1
    decreases |lines|
  {
    if lines != [] {
      var n := |lines| - 1;
      ParsedIsComplete(lines[..n]);
      var before, after := Parsed(lines[..n]).value, Parsed(lines).value;
      forall i | 0 <= i < |after| ensures Reports(after[i], lines) {
        if i < |before| {
          assert after[i] == before[i] && Reports(before[i], lines[..n]);
          assert lines[..n][before[i].line - 1] == lines[before[i].line - 1];
        }
      }
      forall k | 0 <= k < |lines| && !lines[k].Blank?
        ensures exists i :: 0 <= i < |after| && after[i].line == k + 1
      {
        if k < n {
          assert lines[..n][k] == lines[k];
          var i :| 0 <= i < |before| && before[i].line == k + 1;
          assert after[i].line == k + 1;
        } else {
          assert after[|after| - 1].line == k + 1;
        }
      }
    }
  }

  /** A line the parser can take by itself: blank, or an object with a non-negative
      integer stamp and an event name that is not blank. */
  predicate Acceptable(d: Decoded) {
    d.Blank? ||
    (d.Object? && "timestamp_ms" in d.fields && d.fields["timestamp_ms"].JInt? && d.fields["timestamp_ms"].n >= 0 &&
     "event" in d.fields && d.fields["event"].JStr? &&
     exists i :: 0 <= i < |d.fields["event"].s| && !IsSpace(d.fields["event"].s[i]))
  }

  function Stamp(d: Decoded): int {
    if d.Object? && "timestamp_ms" in d.fields && d.fields["timestamp_ms"].JInt? then d.fields["timestamp_ms"].n else -1
  }

  /** No stamp is smaller than one on an earlier line. */
  predicate StampsAscend(lines: seq<Decoded>) {
    forall j, k :: 0 <= j < k < |lines| && lines[j].Object? && lines[k].Object? ==> Stamp(lines[j]) <= Stamp(lines[k])
  }

  ghost predicate Admissible(lines: seq<Decoded>) {
    (forall k :: 0 <= k < |lines| ==> Acceptable(lines[k])) && StampsAscend(lines)
  }

  /** The last record has the largest stamp, that of some line; and a line on which
      the stamp grows makes a record. */
  lemma {:induction false} LastStampRules(lines: seq<Decoded>)
    requires Parsed(lines).Ok? && forall k :: 0 <= k < |lines| ==> Acceptable(lines[k])
    ensures var last := LastStamp(Parsed(lines).value);
            (forall k :: 0 <= k < |lines| && lines[k].Object? ==>
               last.Some? && Stamp(lines[k]) <= last.value) &&
            (last.Some? ==> exists k :: 0 <= k < |lines| && lines[k].Object? && Stamp(lines[k]) == last.value)
    decreases |lines|
  {
    if lines != [] {
      var n := |lines| - 1;
      var init := lines[..n];
      LastStampRules(init);
      var last := LastStamp(Parsed(init).value);
      forall k | 0 <= k < n && lines[k].Object? ensures last.Some? && Stamp(lines[k]) <= last.value {
        assert init[k] == lines[k];
      }
      if lines[n].Blank? && last.Some? {
        var k :| 0 <= k < n && init[k].Object? && Stamp(init[k]) == last.value;
        assert lines[k] == init[k];
      }
    }
  }

  lemma LineTaken(d: Decoded, number: nat, previous: Option<nat>)
    requires d.Object?
    ensures RecordOf(d.fields, number, previous).Some? <==>
              Acceptable(d) && (previous.Some? ==> previous.value <= Stamp(d))
  {}

  lemma OneMoreAdmissible(lines: seq<Decoded>, n: nat)
    requires |lines| == n + 1 && Admissible(lines[..n])
    ensures Admissible(lines) <==>
              Acceptable(lines[n]) &&
              (forall j :: 0 <= j < n && lines[j].Object? && lines[n].Object? ==> Stamp(lines[j]) <= Stamp(lines[n]))
  {
    forall j | 0 <= j < n ensures lines[..n][j] == lines[j] && Acceptable(lines[j]) {
      assert Acceptable(lines[..n][j]);
    }
  }

  /** A stamp not below the last record's is not below any earlier one, and the other
      way round. */
  lemma LastStampDecides(lines: seq<Decoded>, stamp: int)
    requires Parsed(lines).Ok? && forall k :: 0 <= k < |lines| ==> Acceptable(lines[k])
    ensures var last := LastStamp(Parsed(lines).value);
            (last.Some? ==> last.value <= stamp) <==>
            (forall j :: 0 <= j < |lines| && lines[j].Object? ==> Stamp(lines[j]) <= stamp)
  {
    LastStampRules(lines);
  }

  lemma LastLineAccepted(lines: seq<Decoded>, n: nat)
    requires |lines| == n + 1 && Admissible(lines[..n]) && Parsed(lines[..n]).Ok?
    ensures Parsed(lines).Ok? <==> Admissible(lines)
  {
    var init := lines[..n];
    OneMoreAdmissible(lines, n);
    LastStampDecides(init, Stamp(lines[n]));
    assert forall j :: 0 <= j < n ==> init[j] == lines[j];
    if lines[n].Object? {
      LineTaken(lines[n], n + 1, LastStamp(Parsed(init).value));
    }
  }

  /** The parser accepts a log exactly if every line is acceptable by itself and no
      stamp goes backwards. */
  lemma {:induction false} AcceptedExactly(lines: seq<Decoded>)
    ensures Parsed(lines).Ok? <==> Admissible(lines)
    decreases |lines|
  {
    if lines != [] {
      var n := |lines| - 1;
      AcceptedExactly(lines[..n]);
      assert forall k :: 0 <= k < n ==> lines[..n][k] == lines[k];
      if Parsed(lines[..n]).Ok? {
        LastLineAccepted(lines, n);
      }
    }
  }

  /** The line an error names is the first that makes the log inadmissible. */
  lemma {:induction false} RaisedAtFirst(lines: seq<Decoded>)
    requires Parsed(lines).Raised?
    ensures var n := Parsed(lines).line;
            1 <= n <= |lines| && Admissible(lines[..n - 1]) && !Admissible(lines[..n])
    decreases |lines|
  {
    var init := lines[..|lines| - 1];
    if Parsed(init).Raised? {
      RaisedAtFirst(init);
      var n := Parsed(init).line;
      assert init[..n] == lines[..n] && init[..n - 1] == lines[..n - 1];
    } else {
      AcceptedExactly(init);
      AcceptedExactly(lines);
      assert lines[..|lines|] == lines;
    }
  }

  method ParseApplicationLog(lines: seq<Decoded>) returns (r: Checked<seq<Record>>)
    ensures r == Parsed(lines)
  {
    var events: seq<Record> := [];
    var previous: Option<nat> := None;
    var n := 0;
    while n < |lines|
      invariant n <= |lines| && Parsed(lines[..n]) == Ok(events) && previous == LastStamp(events)
    {
      assert lines[..n + 1][..n] == lines[..n];
      if lines[n].Blank? {
        n := n + 1;
        continue;
      }
      if !lines[n].Object? {
        RaisedForGood(lines, n + 1);
        return Raised(n + 1);
      }
      var record := RecordOf(lines[n].fields, n + 1, previous);
      if record.None? {
        RaisedForGood(lines, n + 1);
        return Raised(n + 1);
      }
      events := events + [record.value];
      previous := Some(record.value.ts);
      n := n + 1;
    }
    assert lines[..n] == lines;
    r := Ok(events);
  }

  lemma {:induction false} RaisedForGood(lines: seq<Decoded>, n: nat)
    requires n <= |lines| && Parsed(lines[..n]).Raised?
    ensures Parsed(lines) == Parsed(lines[..n])
    decreases |lines|
  {
    if n == |lines| {
      assert lines[..n] == lines;
    } else {
      var init := lines[..|lines| - 1];
      assert init[..n] == lines[..n];
      RaisedForGood(init, n);
    }
  }

  // ---- calculate_recovery_metrics, declaratively ----

  predicate IsRetry(e: Record) {
    e.event == "READ_RETRY"
  }

  predicate IsRecovery(e: Record) {
    e.event == "RECOVERY_SUCCESS"
  }

  predicate IsEioRetry(e: Record) {
    IsRetry(e) && NonNegative(e.fields, "errno") == Some(EIO_NUMBER)
  }

  /** Where the stretch since the last recovery before i begins. */
  function WindowStart(events: seq<Record>, i: nat): (lo: nat)
    requires i <= |events|
    ensures lo <= i && (forall k :: lo <= k < i ==> !IsRecovery(events[k]))
    ensures lo > 0 ==> IsRecovery(events[lo - 1])
  {
    if i == 0 || IsRecovery(events[i - 1]) then i else WindowStart(events, i - 1)
  }

  function RetriesIn(events: seq<Record>, lo: nat, hi: nat): nat
    requires lo <= hi <= |events|
  {
    if lo == hi then 0 else RetriesIn(events, lo, hi - 1) + (if IsRetry(events[hi - 1]) then 1 else 0)
  }

  function EioRetries(events: seq<Record>, n: nat): nat
    requires n <= |events|
  {
    if n == 0 then 0 else EioRetries(events, n - 1) + (if IsEioRetry(events[n - 1]) then 1 else 0)
  }

  /** The first retry of events[lo..hi]. */
  function FirstRetry(events: seq<Record>, lo: nat, hi: nat): (r: Option<nat>)
    requires lo <= hi <= |events|
    ensures r.Some? ==> lo <= r.value < hi && IsRetry(events[r.value]) &&
                        (forall k :: lo <= k < r.value ==> !IsRetry(events[k]))
    ensures r.None? ==> forall k :: lo <= k < hi ==> !IsRetry(events[k])
  {
    if lo == hi then None else
      var r := FirstRetry(events, lo, hi - 1);
      if r.Some? then r else if IsRetry(events[hi - 1]) then Some(hi - 1) else None
  }

  /** The event at which the computation raises: a retry or recovery with a bad
      field, or a recovery with no retry since the previous one. */
  predicate Bad(events: seq<Record>, i: nat)
    requires i < |events|
  {
    var e := events[i];
    (IsRetry(e) && (NonNegative(e.fields, "errno").None? || NonNegative(e.fields, "retry").None?)) ||
    (IsRecovery(e) && (NonNegative(e.fields, "retries").None? || FirstRetry(events, WindowStart(events, i), i).None?))
  }

  predicate Good(events: seq<Record>, n: nat)
    requires n <= |events|
  {
    forall i :: 0 <= i < n ==> !Bad(events, i)
  }

  datatype Window = Window(first: nat, recovery: nat, latency: int, observed: nat, reported: nat)

  /** The window that recovery i closes: from the first retry since the previous
      recovery. */
  function WindowAt(events: seq<Record>, i: nat): Window
    requires i < |events| && IsRecovery(events[i]) && !Bad(events, i)
  {
    var lo := WindowStart(events, i);
    var first := events[FirstRetry(events, lo, i).value].ts;
    Window(first, events[i].ts, events[i].ts - first, RetriesIn(events, lo, i),
           NonNegative(events[i].fields, "retries").value)
  }

  function Windows(events: seq<Record>, n: nat): seq<Window>
    requires n <= |events| && Good(events, n)
  {
    if n == 0 then []
    else if IsRecovery(events[n - 1]) then Windows(events, n - 1) + [WindowAt(events, n - 1)]
    else Windows(events, n - 1)
  }

  datatype Metrics = Metrics(
    eioCount: nat, retryCount: nat, recoveries: seq<Window>,
    firstError: Option<nat>, recoveryTs: Option<nat>, latency: Option<int>)

  function StampOf(events: seq<Record>, i: Option<nat>): Option<nat>
    requires i.Some? ==> i.value < |events|
  {
    match i
    case None => None
    case Some(k) => Some(events[k].ts)
  }

  function MetricsOf(events: seq<Record>): Metrics
    requires Good(events, |events|)
  {
    var ws := Windows(events, |events|);
    Metrics(EioRetries(events, |events|), RetriesIn(events, 0, |events|), ws,
            StampOf(events, FirstRetry(events, 0, |events|)),
            if ws == [] then None else Some(ws[0].recovery),
            if ws == [] then None else Some(ws[0].latency))
  }

  /** The running variables of the loop after n events, said declaratively. */
  predicate Streamed(events: seq<Record>, n: nat, eios: nat, retries: nat, active: nat,
                     firstObserved: Option<nat>, firstError: Option<nat>, recoveries: seq<Window>)
    requires n <= |events|
  {
    && Good(events, n)
    && eios == EioRetries(events, n) && retries == RetriesIn(events, 0, n)
    && active == RetriesIn(events, WindowStart(events, n), n)
    && firstObserved == StampOf(events, FirstRetry(events, 0, n))
    && firstError == StampOf(events, FirstRetry(events, WindowStart(events, n), n))
    && recoveries == Windows(events, n)
  }

  lemma StreamRetry(events: seq<Record>, i: nat, eios: nat, retries: nat, active: nat,
                    obs: Option<nat>, err: Option<nat>, ws: seq<Window>)
    requires i < |events| && Streamed(events, i, eios, retries, active, obs, err, ws)
    requires IsRetry(events[i]) && !IsRecovery(events[i]) && !Bad(events, i)
    ensures Streamed(events, i + 1, eios + (if IsEioRetry(events[i]) then 1 else 0), retries + 1, active + 1,
                     if obs.None? then Some(events[i].ts) else obs, if err.None? then Some(events[i].ts) else err, ws)
  {}

  lemma StreamRecovery(events: seq<Record>, i: nat, eios: nat, retries: nat, active: nat,
                       obs: Option<nat>, err: Option<nat>, ws: seq<Window>)
    requires i < |events| && Streamed(events, i, eios, retries, active, obs, err, ws)
    requires IsRecovery(events[i]) && !IsRetry(events[i]) && !Bad(events, i)
    ensures err.Some?
    ensures Streamed(events, i + 1, eios, retries, 0, obs, None,
                     ws + [Window(err.value, events[i].ts, events[i].ts - err.value, active,
                                  NonNegative(events[i].fields, "retries").value)])
  {}

  lemma StreamOther(events: seq<Record>, i: nat, eios: nat, retries: nat, active: nat,
                    obs: Option<nat>, err: Option<nat>, ws: seq<Window>)
    requires i < |events| && Streamed(events, i, eios, retries, active, obs, err, ws)
    requires !IsRecovery(events[i]) && !IsRetry(events[i])
    ensures Streamed(events, i + 1, eios, retries, active, obs, err, ws)
  {}

  lemma TwoNames()
    ensures "READ_RETRY" != "RECOVERY_SUCCESS"
  {
    assert |"READ_RETRY"| != |"RECOVERY_SUCCESS"|;
  }

  lemma NotBoth(e: Record)
    ensures !(IsRetry(e) && IsRecovery(e))
  {
    TwoNames();
  }

  /** The streaming loop finds the declarative windows; it raises at the first bad
      event and only then. */
  method CalculateRecoveryMetrics(events: seq<Record>) returns (r: Checked<Metrics>)
    ensures r.Ok? <==> Good(events, |events|)
    ensures r.Ok? ==> r.value == MetricsOf(events)
    ensures r.Raised? ==> exists i :: 0 <= i < |events| && Bad(events, i) && Good(events, i) && r.line == events[i].line
  {
    var eios: nat, retries: nat, active: nat := 0, 0, 0;
    var recoveries: seq<Window> := [];
    var firstObserved: Option<nat>, firstError: Option<nat> := None, None;
    var i := 0;
    while i < |events|
      invariant i <= |events| && Streamed(events, i, eios, retries, active, firstObserved, firstError, recoveries)
    {
      var e := events[i];
      NotBoth(e);
      if IsRetry(e) {
        var errno := NonNegative(e.fields, "errno");
        if errno.None? || NonNegative(e.fields, "retry").None? {
          assert Bad(events, i);
          return Raised(e.line);
        }
        StreamRetry(events, i, eios, retries, active, firstObserved, firstError, recoveries);
        retries, active := retries + 1, active + 1;
        if errno.value == EIO_NUMBER {
          eios := eios + 1;
        }
        if firstObserved.None? {
          firstObserved := Some(e.ts);
        }
        if firstError.None? {
          firstError := Some(e.ts);
        }
      } else if IsRecovery(e) {
        var reported := NonNegative(e.fields, "retries");
        if reported.None? || firstError.None? {
          assert Bad(events, i);
          return Raised(e.line);
        }
        StreamRecovery(events, i, eios, retries, active, firstObserved, firstError, recoveries);
        recoveries := recoveries + [Window(firstError.value, e.ts, e.ts - firstError.value, active, reported.value)];
        firstError, active := None, 0;
      } else {
        StreamOther(events, i, eios, retries, active, firstObserved, firstError, recoveries);
      }
      i := i + 1;
    }
    r := Ok(Metrics(eios, retries, recoveries, firstObserved,
                    if recoveries == [] then None else Some(recoveries[0].recovery),
                    if recoveries == [] then None else Some(recoveries[0].latency)));
  }

  // ---- what the windows satisfy ----

  function Observed(ws: seq<Window>): nat {
    if ws == [] then 0 else Observed(ws[..|ws| - 1]) + ws[|ws| - 1].observed
  }

  function Latencies(ws: seq<Window>): int {
    if ws == [] then 0 else Latencies(ws[..|ws| - 1]) + ws[|ws| - 1].latency
  }

  lemma {:induction false} RetriesSplit(events: seq<Record>, lo: nat, mid: nat, hi: nat)
    requires lo <= mid <= hi <= |events|
    ensures RetriesIn(events, lo, hi) == RetriesIn(events, lo, mid) + RetriesIn(events, mid, hi)
    decreases hi - mid
  {
    if mid < hi {
      RetriesSplit(events, lo, mid, hi - 1);
    }
  }

  /** Every retry belongs to exactly one window, or to the run that has not
      recovered yet. */
  lemma {:induction false} RetriesConserved(events: seq<Record>, n: nat)
    requires n <= |events| && Good(events, n)
    ensures Observed(Windows(events, n)) + RetriesIn(events, WindowStart(events, n), n) == RetriesIn(events, 0, n)
    decreases n
  {
    if n > 0 {
      RetriesConserved(events, n - 1);
      if IsRecovery(events[n - 1]) {
        var before := Windows(events, n - 1);
        assert Windows(events, n)[..|before|] == before;
      }
    }
  }

  lemma OneWindow(events: seq<Record>, i: nat)
    requires i < |events| && IsRecovery(events[i]) && !Bad(events, i) && NonDecreasing(events)
    ensures var w := WindowAt(events, i);
            var lo := WindowStart(events, i);
            && w.latency == w.recovery - w.first >= 0 && w.observed >= 1
            && events[0].ts <= w.first
            && (lo > 0 ==> events[lo - 1].ts <= w.first)
  {
    var lo := WindowStart(events, i);
    var first := FirstRetry(events, lo, i).value;
    RetriesSplit(events, lo, first + 1, i);
    assert events[first].ts <= events[i].ts;
  }

  /** Windows in order and disjoint, each with a retry; the latencies add up to no
      more than the time from `origin` to the last recovery. */
  predicate Orderly(ws: seq<Window>, origin: nat) {
    && (forall k :: 0 <= k < |ws| ==> 0 <= ws[k].latency == ws[k].recovery - ws[k].first && ws[k].observed >= 1)
    && (forall k, l :: 0 <= k < l < |ws| ==> ws[k].recovery <= ws[l].first)
    && (ws != [] ==> 0 <= Latencies(ws) <= ws[|ws| - 1].recovery - origin)
  }

  lemma SnocWindow(ws: seq<Window>, w: Window, origin: nat)
    requires Orderly(ws, origin) && (ws != [] ==> ws[|ws| - 1].recovery <= w.first)
    requires 0 <= w.latency == w.recovery - w.first && w.observed >= 1 && origin <= w.first
    ensures Orderly(ws + [w], origin)
  {
    assert (ws + [w])[..|ws|] == ws;
    forall k | 0 <= k < |ws| ensures ws[k].recovery <= w.first {
      if k < |ws| - 1 {
        assert ws[k].recovery <= ws[|ws| - 1].first;
      }
    }
  }

  lemma {:induction false} LastWindow(events: seq<Record>, n: nat)
    requires n <= |events| && Good(events, n)
    ensures var ws := Windows(events, n);
            (ws == [] <==> WindowStart(events, n) == 0) &&
            (ws != [] ==> ws[|ws| - 1].recovery == events[WindowStart(events, n) - 1].ts)
    decreases n
  {
    if n > 0 && !IsRecovery(events[n - 1]) {
      LastWindow(events, n - 1);
    }
  }

  /** A window starts no earlier than the one before it ends. */
  lemma WindowFollows(events: seq<Record>, i: nat)
    requires i < |events| && NonDecreasing(events) && Good(events, i) && IsRecovery(events[i]) && !Bad(events, i)
    ensures var ws, w := Windows(events, i), WindowAt(events, i);
            && (ws != [] ==> ws[|ws| - 1].recovery <= w.first)
            && 0 <= w.latency == w.recovery - w.first && w.observed >= 1 && events[0].ts <= w.first
  {
    LastWindow(events, i);
    OneWindow(events, i);
  }

  lemma WindowAppended(events: seq<Record>, n: nat)
    requires 0 < n <= |events| && NonDecreasing(events) && Good(events, n) && IsRecovery(events[n - 1])
    requires Orderly(Windows(events, n - 1), events[0].ts)
    ensures Orderly(Windows(events, n), events[0].ts)
  {
    assert !Bad(events, n - 1);
    WindowFollows(events, n - 1);
    SnocWindow(Windows(events, n - 1), WindowAt(events, n - 1), events[0].ts);
  }

  lemma {:induction false} WindowsOrdered(events: seq<Record>, n: nat)
    requires n <= |events| && Good(events, n) && NonDecreasing(events) && events != []
    ensures Orderly(Windows(events, n), events[0].ts)
    decreases n
  {
    if n > 0 {
      WindowsOrdered(events, n - 1);
      if IsRecovery(events[n - 1]) {
        WindowAppended(events, n);
      }
    }
  }

  /** The first window starts at the first retry of the whole log. */
  lemma {:induction false} FirstWindow(events: seq<Record>, n: nat)
    requires n <= |events| && Good(events, n)
    ensures var ws := Windows(events, n);
            ws != [] ==> StampOf(events, FirstRetry(events, 0, n)) == Some(ws[0].first)
    ensures Windows(events, n) == [] ==> WindowStart(events, n) == 0
    decreases n
  {
    if n > 0 {
      FirstWindow(events, n - 1);
      assert !Bad(events, n - 1);
    }
  }

  /** Recovery latency, time to first error and time to recovery fit together for
      any fault time. */
  lemma DurationsAgree(events: seq<Record>, fault: int)
    requires Good(events, |events|)
    ensures var m := MetricsOf(events);
            m.recoveryTs.Some? ==>
              m.firstError.Some? && m.latency.Some? &&
              (m.recoveryTs.value - fault) - (m.firstError.value - fault) == m.latency.value
    ensures var m := MetricsOf(events);
            NonDecreasing(events) && m.recoveries != [] ==>
              Latencies(m.recoveries) <= events[|events| - 1].ts - events[0].ts
  {
    FirstWindow(events, |events|);
    LatencyIsDifference(events, |events|);
    if NonDecreasing(events) && events != [] {
      WindowsOrdered(events, |events|);
      LastWindow(events, |events|);
    }
  }

  lemma {:induction false} LatencyIsDifference(events: seq<Record>, n: nat)
    requires n <= |events| && Good(events, n)
    ensures forall k :: 0 <= k < |Windows(events, n)| ==>
              Windows(events, n)[k].latency == Windows(events, n)[k].recovery - Windows(events, n)[k].first
    decreases n
  {
    if n > 0 {
      LatencyIsDifference(events, n - 1);
    }
  }

  // ---- the metrics in terms of the events themselves ----

  predicate IsCount(fields: map<string, Json>, key: string) {
    key in fields && fields[key].JInt? && fields[key].n >= 0
  }

  /** There is a retry before i with no recovery in between. */
  ghost predicate RetriedSinceRecovery(events: seq<Record>, i: nat)
    requires i < |events|
  {
    exists j :: 0 <= j < i && IsRetry(events[j]) && forall k :: j < k < i ==> !IsRecovery(events[k])
  }

  lemma RetriedExactly(events: seq<Record>, i: nat)
    requires i < |events|
    ensures RetriedSinceRecovery(events, i) <==> FirstRetry(events, WindowStart(events, i), i).Some?
  {
    TwoNames();
    var lo := WindowStart(events, i);
    if FirstRetry(events, lo, i).Some? {
      assert IsRetry(events[FirstRetry(events, lo, i).value]);
    }
    if RetriedSinceRecovery(events, i) {
      var j :| 0 <= j < i && IsRetry(events[j]) && forall k :: j < k < i ==> !IsRecovery(events[k]);
      assert lo <= j by {
        if lo > 0 {
          assert IsRecovery(events[lo - 1]);
        }
      }
    }
  }

  /** The computation accepts a log exactly if each retry says which errno and which
      retry it is, and each recovery how many retries it took and has one before it. */
  lemma GoodExactly(events: seq<Record>)
    ensures Good(events, |events|) <==>
              forall i :: 0 <= i < |events| ==>
                (events[i].event == "READ_RETRY" ==> IsCount(events[i].fields, "errno") && IsCount(events[i].fields, "retry")) &&
                (events[i].event == "RECOVERY_SUCCESS" ==> IsCount(events[i].fields, "retries") && RetriedSinceRecovery(events, i))
  {
    forall i | 0 <= i < |events|
      ensures !Bad(events, i) <==>
                (events[i].event == "READ_RETRY" ==> IsCount(events[i].fields, "errno") && IsCount(events[i].fields, "retry")) &&
                (events[i].event == "RECOVERY_SUCCESS" ==> IsCount(events[i].fields, "retries") && RetriedSinceRecovery(events, i))
    {
      RetriedExactly(events, i);
    }
  }

  function RetriesAt(events: seq<Record>, lo: nat, hi: nat): set<nat>
    requires lo <= hi <= |events|
  {
    set k | lo <= k < hi && IsRetry(events[k])
  }

  function EioRetriesAt(events: seq<Record>, n: nat): set<nat>
    requires n <= |events|
  {
    set k | 0 <= k < n && IsEioRetry(events[k])
  }

  lemma {:induction false} RetriesAreCounted(events: seq<Record>, lo: nat, hi: nat)
    requires lo <= hi <= |events|
    ensures RetriesIn(events, lo, hi) == |RetriesAt(events, lo, hi)|
    decreases hi - lo
  {
    if lo < hi {
      RetriesAreCounted(events, lo, hi - 1);
      var before := RetriesAt(events, lo, hi - 1);
      assert RetriesAt(events, lo, hi) == before + (if IsRetry(events[hi - 1]) then {hi - 1} else {});
    }
  }

  lemma {:induction false} EiosAreCounted(events: seq<Record>, n: nat)
    requires n <= |events|
    ensures EioRetries(events, n) == |EioRetriesAt(events, n)|
    decreases n
  {
    if n > 0 {
      EiosAreCounted(events, n - 1);
      assert EioRetriesAt(events, n) ==
             EioRetriesAt(events, n - 1) + (if IsEioRetry(events[n - 1]) then {n - 1} else {});
    }
  }

  /** How many recoveries there are before n. */
  function Recoveries(events: seq<Record>, n: nat): nat
    requires n <= |events|
  {
    if n == 0 then 0
    else if IsRecovery(events[n - 1]) then Recoveries(events, n - 1) + 1
    else Recoveries(events, n - 1)
  }

  predicate FirstRetryAt(events: seq<Record>, lo: nat, i: nat, j: nat) {
    lo <= j < i <= |events| && IsRetry(events[j]) && forall k :: lo <= k < j ==> !IsRetry(events[k])
  }

  /** The window that the recovery at i closes: from the first retry since the recovery
      before it, with the number of retries since then and the number the recovery
      itself reports. */
  ghost predicate IsWindow(events: seq<Record>, i: nat, w: Window)
    requires i < |events|
  {
    var lo := WindowStart(events, i);
    && IsRecovery(events[i])
    && w.recovery == events[i].ts
    && (exists j: nat :: FirstRetryAt(events, lo, i, j) && w.first == events[j].ts)
    && w.latency == w.recovery - w.first
    && w.observed == |RetriesAt(events, lo, i)|
    && "retries" in events[i].fields && events[i].fields["retries"] == JInt(w.reported)
  }

  lemma WindowAtIsWindow(events: seq<Record>, i: nat)
    requires i < |events| && IsRecovery(events[i]) && !Bad(events, i)
    ensures IsWindow(events, i, WindowAt(events, i))
  {
    var lo := WindowStart(events, i);
    RetriesAreCounted(events, lo, i);
    var j := FirstRetry(events, lo, i).value;
    assert FirstRetryAt(events, lo, i, j);
  }

  lemma {:induction false} WindowsPerRecovery(events: seq<Record>, n: nat)
    requires n <= |events| && Good(events, n)
    ensures |Windows(events, n)| == Recoveries(events, n)
    decreases n
  {
    if n > 0 {
      WindowsPerRecovery(events, n - 1);
    }
  }

  /** One window for each recovery, in order: window k is that of the recovery with k
      recoveries before it. */
  lemma {:induction false} WindowsExactly(events: seq<Record>, n: nat, k: nat) returns (i: nat)
    requires n <= |events| && Good(events, n)
    requires k < Recoveries(events, n)
    ensures |Windows(events, n)| == Recoveries(events, n)
    ensures i < n && Recoveries(events, i) == k && IsWindow(events, i, Windows(events, n)[k])
    decreases n
  {
    WindowsPerRecovery(events, n);
    WindowsPerRecovery(events, n - 1);
    if k < Recoveries(events, n - 1) {
      i := WindowsExactly(events, n - 1, k);
    } else {
      i := n - 1;
      assert !Bad(events, i);
      WindowAtIsWindow(events, i);
    }
  }

  predicate FirstRecoveryAt(events: seq<Record>, i: nat) {
    i < |events| && IsRecovery(events[i]) && forall k :: 0 <= k < i ==> !IsRecovery(events[k])
  }

  lemma {:induction false} NoneBefore(events: seq<Record>, n: nat)
    requires n <= |events|
    ensures Recoveries(events, n) == 0 <==> forall k :: 0 <= k < n ==> !IsRecovery(events[k])
    decreases n
  {
    if n > 0 {
      NoneBefore(events, n - 1);
    }
  }

  /** The counts are numbers of events. */
  lemma CountsAreCardinalities(events: seq<Record>)
    requires Good(events, |events|)
    ensures MetricsOf(events).retryCount == |RetriesAt(events, 0, |events|)|
    ensures MetricsOf(events).eioCount == |EioRetriesAt(events, |events|)|
  {
    RetriesAreCounted(events, 0, |events|);
    EiosAreCounted(events, |events|);
  }

  /** The headline figures in terms of the events: the recovery timestamp is that of
      the first RECOVERY_SUCCESS, there from the first one on, and the latency the time
      to it from the first READ_RETRY of the log. */
  lemma HeadlineMetrics(events: seq<Record>, i: nat)
    requires Good(events, |events|) && FirstRecoveryAt(events, i)
    ensures var m := MetricsOf(events);
            && m.recoveryTs == Some(events[i].ts)
            && exists j: nat :: FirstRetryAt(events, 0, i, j) && m.latency == Some(events[i].ts - events[j].ts)
  {
    NoneBefore(events, i);
    NoneBefore(events, |events|);
    var first := WindowsExactly(events, |events|, 0);
    NoneBefore(events, first);
    assert first == i && WindowStart(events, i) == 0;
  }

  /** No recovery, no recovery figures; the first error is that of the first READ_RETRY. */
  lemma HeadlineAbsent(events: seq<Record>)
    requires Good(events, |events|)
    ensures var m := MetricsOf(events);
            && (m.recoveryTs.None? <==> forall k :: 0 <= k < |events| ==> !IsRecovery(events[k]))
            && (m.latency.None? <==> m.recoveryTs.None?)
            && (m.firstError.None? <==> forall k :: 0 <= k < |events| ==> !IsRetry(events[k]))
            && (forall j: nat :: FirstRetryAt(events, 0, |events|, j) ==> m.firstError == Some(events[j].ts))
  {
    NoneBefore(events, |events|);
    WindowsPerRecovery(events, |events|);
  }

  // ---- evaluate_recovery_latency ----

  /** Passes exactly when something recovered and every recovery was fast enough. */
  method EvaluateRecoveryLatency(ws: seq<Window>, maximum: nat) returns (observed: Option<int>, passed: bool)
    ensures observed.None? <==> ws == []
    ensures observed.Some? ==> (exists k :: 0 <= k < |ws| && ws[k].latency == observed.value) &&
                               (forall k :: 0 <= k < |ws| ==> ws[k].latency <= observed.value)
    ensures passed <==> ws != [] && forall k :: 0 <= k < |ws| ==> ws[k].latency <= maximum
  {
    if ws == [] {
      return None, false;
    }
    var best := ws[0].latency;
    var i := 1;
    while i < |ws|
      invariant 1 <= i <= |ws|
      invariant exists k :: 0 <= k < i && ws[k].latency == best
      invariant forall k :: 0 <= k < i ==> ws[k].latency <= best
    {
      if ws[i].latency > best {
        best := ws[i].latency;
      }
      i := i + 1;
    }
    observed, passed := Some(best), best <= maximum;
  }
}
