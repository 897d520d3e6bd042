// consume_input and process_line of examples/vtemp_monitor.c: a byte stream cut
// into lines by a fixed buffer. strtod is a parameter: `parse` gives the finite
// number a whole line stands for, or None.

module LineBuffer {
  import opened Common

  const MAX_PENDING_BYTES: nat := 4096
  const THERMAL_WARNING_C: real := 80.0

  type Parser = seq<Byte> -> Option<real>

  datatype LineEvent = Temperature(c: real) | ThermalWarning(c: real) | InvalidInput | InputTooLong

  /** The line buffer, the event counter, whether --max-events has been reached,
      and the line events logged so far. */
  datatype Buffer = Buffer(pending: seq<Byte>, count: nat, stopped: bool, out: seq<LineEvent>)

  const Empty: Buffer := Buffer([], 0, false, [])

  function LineEventOf(parse: Parser, line: seq<Byte>): LineEvent {
    match parse(line)
    case None => InvalidInput
    case Some(c) => if c >= THERMAL_WARNING_C then ThermalWarning(c) else Temperature(c)
  }

  predicate Counts(e: LineEvent) {
    e.Temperature? || e.ThermalWarning?
  }

  /** One byte through the loop body of consume_input; max 0 means no limit. */
  function Feed(parse: Parser, max: nat, b: Buffer, byte: Byte): Buffer {
    if b.stopped then b
    else if byte == NEWLINE then
      var e := LineEventOf(parse, b.pending);
      var n := b.count + (if Counts(e) then 1 else 0);
      Buffer([], n, max != 0 && n >= max, b.out + [e])
    else if |b.pending| + 1 >= MAX_PENDING_BYTES then
      Buffer([], b.count, false, b.out + [InputTooLong])
    else
      b.(pending := b.pending + [byte])
  }

  function Fold(parse: Parser, max: nat, b: Buffer, data: seq<Byte>): Buffer
    decreases |data|
  {
    if data == [] then b
    else Feed(parse, max, Fold(parse, max, b, data[..|data| - 1]), data[|data| - 1])
  }

  /** Consecutive consume_input calls, one per read. */
  function FoldChunks(parse: Parser, max: nat, b: Buffer, chunks: seq<seq<Byte>>): Buffer
    decreases |chunks|
  {
    if chunks == [] then b
    else FoldChunks(parse, max, Fold(parse, max, b, chunks[0]), chunks[1..])
  }

  // ---- chunk independence ----

  lemma {:induction false} FoldConcat(parse: Parser, max: nat, b: Buffer, x: seq<Byte>, y: seq<Byte>)
    ensures Fold(parse, max, b, x + y) == Fold(parse, max, Fold(parse, max, b, x), y)
    decreases |y|
  {
    if y == [] {
      assert x + y == x;
    } else {
      assert (x + y)[..|x + y| - 1] == x + y[..|y| - 1];
      FoldConcat(parse, max, b, x, y[..|y| - 1]);
    }
  }

  /** However the stream is cut into reads, events, buffer, counter and stop point
      are those of the whole stream. */
  lemma {:induction false} ChunkIndependence(parse: Parser, max: nat, b: Buffer, chunks: seq<seq<Byte>>)
    ensures FoldChunks(parse, max, b, chunks) == Fold(parse, max, b, Concat(chunks))
    decreases |chunks|
  {
    if chunks != [] {
      ChunkIndependence(parse, max, Fold(parse, max, b, chunks[0]), chunks[1..]);
      FoldConcat(parse, max, b, chunks[0], Concat(chunks[1..]));
    }
  }

  // ---- what a stream means ----

  function LineEnd(s: seq<Byte>): (k: nat)
    ensures k <= |s| && NEWLINE !in s[..k] && (k < |s| ==> s[k] == NEWLINE)
  {
    if s == [] || s[0] == NEWLINE then 0 else
      var k := LineEnd(s[1..]) + 1;
      assert s[..k] == [s[0]] + s[1..][..k - 1];
      k
  }

  /** The event a line stands for: what the text is, and from 80 degrees a warning. */
  predicate IsEventOf(parse: Parser, line: seq<Byte>, e: LineEvent) {
    && (e.InvalidInput? <==> parse(line).None?)
    && (e.ThermalWarning? <==> parse(line).Some? && parse(line).value >= 80.0)
    && (e.Temperature? <==> parse(line).Some? && parse(line).value < 80.0)
    && (e.ThermalWarning? || e.Temperature? ==> Some(e.c) == parse(line))
  }

  /** The one event with that meaning. */
  ghost function LineMeaning(parse: Parser, line: seq<Byte>): (e: LineEvent)
    ensures IsEventOf(parse, line, e)
  {
    assert IsEventOf(parse, line, LineEventOf(parse, line));
    var e :| IsEventOf(parse, line, e);
    e
  }

  lemma MeaningIsUnique(parse: Parser, line: seq<Byte>, e: LineEvent)
    requires IsEventOf(parse, line, e)
    ensures e == LineMeaning(parse, line)
  {}

  function TooLong(n: nat): seq<LineEvent> {
    seq(n, _ => InputTooLong)
  }

  /** The bytes of a line that survive its overflows. */
  function Rest(line: seq<Byte>): seq<Byte> {
    line[|line| - |line| % MAX_PENDING_BYTES..]
  }

  /** Reference meaning of a stream: line by line, one INPUT_TOO_LONG for each
      4096 bytes, then the meaning of what is left of the line. */
  ghost function StreamEvents(parse: Parser, s: seq<Byte>): seq<LineEvent>
    decreases |s|
  {
    var k := LineEnd(s);
    if k == |s| then TooLong(k / MAX_PENDING_BYTES)
    else TooLong(k / MAX_PENDING_BYTES) + [LineMeaning(parse, Rest(s[..k]))] + StreamEvents(parse, s[k + 1..])
  }

  function StreamPending(s: seq<Byte>): seq<Byte>
    decreases |s|
  {
    var k := LineEnd(s);
    if k == |s| then Rest(s) else StreamPending(s[k + 1..])
  }

  lemma OneMoreByte(n: nat)
    ensures if n % MAX_PENDING_BYTES == MAX_PENDING_BYTES - 1
            then (n + 1) % MAX_PENDING_BYTES == 0 && (n + 1) / MAX_PENDING_BYTES == n / MAX_PENDING_BYTES + 1
            else (n + 1) % MAX_PENDING_BYTES == n % MAX_PENDING_BYTES + 1 &&
                 (n + 1) / MAX_PENDING_BYTES == n / MAX_PENDING_BYTES
  {}

  /** One more byte overflows the line or adds to what is left of it. */
  lemma RestSnoc(init: seq<Byte>, last: Byte)
    ensures var line := init + [last];
            if |Rest(init)| + 1 >= MAX_PENDING_BYTES
            then Rest(line) == [] &&
                 TooLong(|line| / MAX_PENDING_BYTES) == TooLong(|init| / MAX_PENDING_BYTES) + [InputTooLong]
            else Rest(line) == Rest(init) + [last] &&
                 TooLong(|line| / MAX_PENDING_BYTES) == TooLong(|init| / MAX_PENDING_BYTES)
  {
    OneMoreByte(|init|);
  }

  /** What is in the buffer once these bytes of a line have come in. */
  predicate LineSoFar(b: Buffer, line: seq<Byte>, r: Buffer) {
    !r.stopped && r.count == b.count && r.pending == Rest(line) &&
    r.out == b.out + TooLong(|line| / MAX_PENDING_BYTES)
  }

  lemma FeedLine(parse: Parser, max: nat, b: Buffer, init: seq<Byte>, r: Buffer, last: Byte)
    requires LineSoFar(b, init, r) && last != NEWLINE
    ensures LineSoFar(b, init + [last], Feed(parse, max, r, last))
  {
    RestSnoc(init, last);
  }

  lemma {:induction false} FoldLine(parse: Parser, max: nat, b: Buffer, line: seq<Byte>)
    requires !b.stopped && b.pending == [] && NEWLINE !in line
    ensures LineSoFar(b, line, Fold(parse, max, b, line))
    decreases |line|
  {
    if line == [] {
      assert Rest(line) == [] && TooLong(0) == [];
    } else {
      var init, last := line[..|line| - 1], line[|line| - 1];
      FoldLine(parse, max, b, init);
      assert line == init + [last] && last in line;
      FeedLine(parse, max, b, init, Fold(parse, max, b, init), last);
    }
  }

  lemma FoldOne(parse: Parser, max: nat, b: Buffer, byte: Byte)
    ensures Fold(parse, max, b, [byte]) == Feed(parse, max, b, byte)
  {
    assert [byte][..0] == [];
  }

  lemma LineDone(parse: Parser, max: nat, b: Buffer, line: seq<Byte>)
    requires !b.stopped && b.pending == [] && NEWLINE !in line
    ensures Fold(parse, max, b, line + [NEWLINE]) == Feed(parse, max, Fold(parse, max, b, line), NEWLINE)
    ensures LineSoFar(b, line, Fold(parse, max, b, line))
  {
    FoldLine(parse, max, b, line);
    FoldConcat(parse, max, b, line, [NEWLINE]);
    FoldOne(parse, max, Fold(parse, max, b, line), NEWLINE);
  }

  /** A completed line of L bytes: L div 4096 INPUT_TOO_LONG events, and then the one
      event that its last L mod 4096 bytes stand for; only a number counts, and the
      limit, if there is one, stops exactly there. */
  lemma CompletedLine(parse: Parser, max: nat, b: Buffer, line: seq<Byte>)
    requires !b.stopped && b.pending == [] && 10 !in line
    ensures var r := Fold(parse, max, b, line + [10]);
            var n := |line| / 4096;
            var rest := line[|line| - |line| % 4096..];
            && r.pending == []
            && |r.out| == |b.out| + n + 1 && r.out[..|b.out|] == b.out
            && (forall i :: |b.out| <= i < |b.out| + n ==> r.out[i] == InputTooLong)
            && IsEventOf(parse, rest, r.out[|b.out| + n])
            && r.count == b.count + (if parse(rest).Some? then 1 else 0)
            && (r.stopped <==> max != 0 && r.count >= max)
  {
    LineDone(parse, max, b, line);
  }

  /** A line that fits the buffer is one event. */
  lemma ShortLine(parse: Parser, max: nat, b: Buffer, line: seq<Byte>)
    requires !b.stopped && b.pending == [] && 10 !in line && |line| < 4096
    ensures var r := Fold(parse, max, b, line + [10]);
            && |r.out| == |b.out| + 1 && r.out[..|b.out|] == b.out && IsEventOf(parse, line, r.out[|b.out|])
            && r.count == b.count + (if parse(line).Some? then 1 else 0)
  {
    CompletedLine(parse, max, b, line);
    assert line[|line| - |line| % 4096..] == line;
  }

  /** The byte-at-a-time loop computes the line-by-line meaning. */
  lemma {:induction false} FoldIsStreamMeaning(parse: Parser, b: Buffer, s: seq<Byte>)
    requires !b.stopped && b.pending == []
    ensures var r := Fold(parse, 0, b, s);
            !r.stopped && r.pending == StreamPending(s) && r.out == b.out + StreamEvents(parse, s)
    decreases |s|
  {
    var k := LineEnd(s);
    if k == |s| {
      assert s[..k] == s;
      FoldLine(parse, 0, b, s);
    } else {
      var line, tail := s[..k], s[k + 1..];
      assert s == (line + [NEWLINE]) + tail;
      var mid := Fold(parse, 0, b, line + [NEWLINE]);
      LineDone(parse, 0, b, line);
      MeaningIsUnique(parse, Rest(line), LineEventOf(parse, Rest(line)));
      FoldConcat(parse, 0, b, line + [NEWLINE], tail);
      FoldIsStreamMeaning(parse, mid, tail);
      Assoc(b.out, TooLong(k / MAX_PENDING_BYTES), [LineMeaning(parse, Rest(line))], StreamEvents(parse, tail));
    }
  }

  lemma Assoc<T>(a: seq<T>, b: seq<T>, c: seq<T>, d: seq<T>)
    ensures a + b + c + d == a + (b + c + d)
  {}

  // ---- the --max-events stop ----

  function Counted(out: seq<LineEvent>): nat {
    if out == [] then 0
    else Counted(out[..|out| - 1]) + (if Counts(out[|out| - 1]) then 1 else 0)
  }

  lemma CountedSnoc(out: seq<LineEvent>, e: LineEvent)
    ensures Counted(out + [e]) == Counted(out) + (if Counts(e) then 1 else 0)
  {
    assert (out + [e])[..|out|] == out;
  }

  lemma FeedCounts(parse: Parser, max: nat, b: Buffer, byte: Byte)
    requires b.count == Counted(b.out)
    ensures var r := Feed(parse, max, b, byte);
            r.count == Counted(r.out) && b.out <= r.out &&
            (b.count < max && !b.stopped ==> r.count <= max && (r.stopped <==> r.count == max))
  {
    CountedSnoc(b.out, LineEventOf(parse, b.pending));
    CountedSnoc(b.out, InputTooLong);
  }

  /** With a limit, the run is the unlimited one until the limit is reached, and
      then stops for good right after the event that reaches it. */
  lemma {:induction false} MaxEventsStop(parse: Parser, max: nat, s: seq<Byte>)
    requires max != 0
    ensures var r := Fold(parse, max, Empty, s);
            var u := Fold(parse, 0, Empty, s);
            && r.count == Counted(r.out) <= max
            && u.count == Counted(u.out)
            && (r.stopped <==> r.count == max)
            && (!r.stopped ==> r == u)
            && (r.stopped ==> r.out <= u.out && r.out != [] && Counts(r.out[|r.out| - 1]))
    decreases |s|
  {
    if s != [] {
      MaxEventsStop(parse, max, s[..|s| - 1]);
      var r := Fold(parse, max, Empty, s[..|s| - 1]);
      var u := Fold(parse, 0, Empty, s[..|s| - 1]);
      FeedCounts(parse, max, r, s[|s| - 1]);
      FeedCounts(parse, 0, u, s[|s| - 1]);
    }
  }

  // ---- the loop itself ----

  /** struct input_buffer with the counter and the log that consume_input updates. */
  class InputBuffer {
    const data: array<Byte>
    var length: nat
    var eventCount: nat
    var out: seq<LineEvent>

    ghost predicate Valid()
      reads this, data
    {
      data.Length == MAX_PENDING_BYTES && length < MAX_PENDING_BYTES
    }

    ghost function View(stopped: bool): Buffer
      requires Valid()
      reads this, data
    {
      Buffer(data[..length], eventCount, stopped, out)
    }

    constructor ()
      ensures Valid() && fresh(data) && View(false) == Empty
    {
      data := new Byte[MAX_PENDING_BYTES](_ => 0);
      length, eventCount, out := 0, 0, [];
    }

    /** process_line on the bytes in the buffer. */
    method ProcessLine(parse: Parser)
      requires Valid()
      modifies this`eventCount, this`out
      ensures exists e :: IsEventOf(parse, data[..length], e) && out == old(out) + [e]
      ensures out == old(out) + [LineEventOf(parse, data[..length])]
      ensures eventCount == old(eventCount) + (if parse(data[..length]).Some? then 1 else 0)
    {
      var temperature := parse(data[..length]);
      if temperature.None? {
        out := out + [InvalidInput];
        assert IsEventOf(parse, data[..length], InvalidInput);
        return;
      }
      var e := if temperature.value >= THERMAL_WARNING_C then ThermalWarning(temperature.value)
               else Temperature(temperature.value);
      out := out + [e];
      eventCount := eventCount + 1;
      assert IsEventOf(parse, data[..length], e);
    }

    /** Every index stays inside the array, the terminator included. */
    method ConsumeInput(parse: Parser, input: seq<Byte>, max: nat) returns (stop: bool)
      requires Valid()
      modifies this, data
      ensures Valid()
      ensures View(stop) == Fold(parse, max, old(View(false)), input)
    {
      stop := false;
      var index := 0;
      while index < |input|
        invariant index <= |input| && Valid() && !stop
        invariant View(false) == Fold(parse, max, old(View(false)), input[..index])
      {
        assert input[..index + 1][..index] == input[..index];
        ghost var before := View(false);
        if input[index] == NEWLINE {
          data[length] := 0;
          ProcessLine(parse);
          length := 0;
          if max != 0 && eventCount >= max {
            stop := true;
            assert View(true) == Feed(parse, max, before, input[index]);
            StoppedForGood(parse, max, old(View(false)), input, index + 1);
            return;
          }
        } else if length + 1 >= MAX_PENDING_BYTES {
          length := 0;
          out := out + [InputTooLong];
        } else {
          data[length] := input[index];
          length := length + 1;
          assert data[..length] == before.pending + [input[index]];
        }
        assert View(false) == Feed(parse, max, before, input[index]);
        index := index + 1;
      }
      assert input[..index] == input;
    }
  }

  lemma {:induction false} StoppedForGood(parse: Parser, max: nat, b: Buffer, s: seq<Byte>, k: nat)
    requires k <= |s| && Fold(parse, max, b, s[..k]).stopped
    ensures Fold(parse, max, b, s) == Fold(parse, max, b, s[..k])
    decreases |s|
  {
    if k == |s| {
      assert s[..k] == s;
    } else {
      var init := s[..|s| - 1];
      assert init[..k] == s[..k];
      StoppedForGood(parse, max, b, init, k);
    }
  }
}
