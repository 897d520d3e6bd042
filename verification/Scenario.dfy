// src/vdevlab/scenario.py over an already decoded YAML document: durations and
// the event list. Field names are an enumeration; None stands for ScenarioError.

module Scenario {
  import opened Common

  const MAX_DURATION_MS: nat := 86_400_000
  const MAX_EIO_REPEAT: nat := 1_000_000
  const MAX_PARTIAL_READ_BYTES: nat := 4096

  datatype Key =
    | At | Action | Type | Repeat | Duration | Bytes | Text
    | AtMs | DurationMs
    | Name | Timeout | Events
    | Other(name: string)

  datatype Value =
    | VStr(s: string)
    | VInt(n: int)
    | VBool(b: bool)
    | VList(items: seq<Value>)
    | VMap(fields: map<Key, Value>, stringKeys: bool)
    | VOther

  type Fields = map<Key, Value>

  // ---- parse_duration ----

  predicate IsDigit(c: char) {
    '0' <= c <= '9'
  }

  /** 0, or digits without a leading zero. */
  predicate IsNumeral(d: string) {
    d == "0" || (|d| > 0 && d[0] != '0' && forall i :: 0 <= i < |d| ==> IsDigit(d[i]))
  }

  function DigitValue(c: char): nat
    requires IsDigit(c)
  {
    c as int - '0' as int
  }

  function DigitChar(n: nat): (c: char)
    requires n < 10
    ensures IsDigit(c) && DigitValue(c) == n
  {
    ('0' as int + n) as char
  }

  function Number(d: string): nat
    requires forall i :: 0 <= i < |d| ==> IsDigit(d[i])
  {
    if d == [] then 0 else Number(d[..|d| - 1]) * 10 + DigitValue(d[|d| - 1])
  }

  /** The group split of the pattern: digits, and whether the suffix is "ms". */
  function SplitUnit(s: string): Option<(string, bool)> {
    if |s| >= 2 && s[|s| - 2] == 'm' && s[|s| - 1] == 's' then Some((s[..|s| - 2], true))
    else if |s| >= 1 && s[|s| - 1] == 's' then Some((s[..|s| - 1], false))
    else None
  }

  function DurationOfText(s: string): Option<nat> {
    match SplitUnit(s)
    case None => None
    case Some((digits, ms)) =>
      if !IsNumeral(digits) then None else
        var n := if ms then Number(digits) else Number(digits) * 1000;
        if n > MAX_DURATION_MS then None else Some(n)
  }

  function ParseDuration(v: Value): Option<nat> {
    if v.VStr? then DurationOfText(v.s) else None
  }

  /** Decimal notation. */
  function Show(n: nat): string {
    if n < 10 then [DigitChar(n)] else Show(n / 10) + [DigitChar(n % 10)]
  }

  lemma {:induction false} ShowIsNumeral(n: nat)
    ensures forall i :: 0 <= i < |Show(n)| ==> IsDigit(Show(n)[i])
    ensures |Show(n)| > 0 && (n > 0 ==> Show(n)[0] != '0') && IsNumeral(Show(n)) && Number(Show(n)) == n
    decreases n
  {
    if n < 10 {
      assert Show(n)[..0] == [];
      assert Number(Show(n)) == Number([]) * 10 + DigitValue(Show(n)[0]);
    } else {
      ShowIsNumeral(n / 10);
      var d := Show(n / 10);
      assert Show(n)[..|d|] == d && Show(n)[0] == d[0];
    }
  }

  lemma {:induction false} NumeralIsShown(d: string)
    requires IsNumeral(d)
    ensures forall i :: 0 <= i < |d| ==> IsDigit(d[i])
    ensures Show(Number(d)) == d && (d[0] != '0' ==> Number(d) > 0)
    decreases |d|
  {
    if |d| == 1 {
      assert d[..0] == [];
      assert DigitChar(DigitValue(d[0])) == d[0];
    } else {
      var init := d[..|d| - 1];
      NumeralIsShown(init);
      assert Number(d) == Number(init) * 10 + DigitValue(d[|d| - 1]);
      assert Number(d) / 10 == Number(init) && Number(d) % 10 == DigitValue(d[|d| - 1]);
      assert d == init + [d[|d| - 1]];
    }
  }

  lemma UnitIsFound(digits: string)
    requires IsNumeral(digits)
    ensures SplitUnit(digits + "ms") == Some((digits, true))
    ensures SplitUnit(digits + "s") == Some((digits, false))
  {
    NumeralIsShown(digits);
    var a, b := digits + "ms", digits + "s";
    assert a[..|a| - 2] == digits && b[..|b| - 1] == digits;
    assert b[|b| - 2] == digits[|digits| - 1];
  }

  /** Durations read back what they were written from, in both units, up to 24 h
      and not beyond. */
  lemma DurationRoundTrip(n: nat)
    ensures ParseDuration(VStr(Show(n) + "ms")) == (if n <= 86_400_000 then Some(n) else None)
    ensures ParseDuration(VStr(Show(n) + "s")) == (if n * 1000 <= 86_400_000 then Some(n * 1000) else None)
  {
    ShowIsNumeral(n);
    UnitIsFound(Show(n));
  }

  /** Nothing else is a duration: an accepted value is a text, the decimal notation of
      its milliseconds in one of the two units. */
  lemma OnlyCanonicalDurations(d: Value)
    requires ParseDuration(d).Some?
    ensures var v := ParseDuration(d).value;
            v <= 86_400_000 && d.VStr? &&
            (d.s == Show(v) + "ms" || (v % 1000 == 0 && d.s == Show(v / 1000) + "s"))
  {
    var s := d.s;
    var (digits, ms) := SplitUnit(s).value;
    NumeralIsShown(digits);
    if ms {
      assert s == digits + "ms";
    } else {
      assert s == digits + "s";
    }
  }

  // ---- events ----

  predicate Mapping(v: Value) {
    v.VMap? && v.stringKeys
  }

  predicate NonEmptyString(v: Value) {
    v.VStr? && v.s != ""
  }

  predicate Exactly(m: Fields, keys: set<Key>) {
    m.Keys == keys
  }

  function BoundedInteger(v: Value, lo: int, hi: int): Option<Value> {
    if v.VInt? && lo <= v.n <= hi then Some(v) else None
  }

  function WithParameter(base: Fields, key: Key, v: Option<Value>): Option<Fields> {
    match v
    case None => None
    case Some(x) => Some(base[key := x])
  }

  function ParseFaultEvent(event: Fields): Option<Fields> {
    if Type !in event || !NonEmptyString(event[Type]) then None else
      var kind := event[Type].s;
      var base := map[Action := VStr("fault"), Type := event[Type]];
      if kind == "eio" then
        if !Exactly(event, {At, Action, Type, Repeat}) then None
        else WithParameter(base, Repeat, BoundedInteger(event[Repeat], 1, MAX_EIO_REPEAT))
      else if kind == "delay" then
        if !Exactly(event, {At, Action, Type, Duration}) then None
        else
          var d := ParseDuration(event[Duration]);
          WithParameter(base, DurationMs, if d.None? then None else Some(VInt(d.value)))
      else if kind == "partial-read" then
        if !Exactly(event, {At, Action, Type, Bytes}) then None
        else WithParameter(base, Bytes, BoundedInteger(event[Bytes], 1, MAX_PARTIAL_READ_BYTES))
      else if kind == "disconnect" then
        if !Exactly(event, {At, Action, Type}) then None else Some(base)
      else None
  }

  /** The normalised event with its time in milliseconds. */
  function ParseEvent(v: Value, timeoutMs: nat): Option<Fields> {
    if !Mapping(v) || At !in v.fields || Action !in v.fields then None else
      var event := v.fields;
      var at := ParseDuration(event[At]);
      if at.None? || at.value > timeoutMs || !NonEmptyString(event[Action]) then None else
        var action := event[Action].s;
        var normalised :=
          if action == "write" then
            if Exactly(event, {At, Action, Text}) && NonEmptyString(event[Text])
            then Some(map[Action := event[Action], Text := event[Text]]) else None
          else if action == "fault" then ParseFaultEvent(event)
          else if action == "clear" || action == "reset" then
            if Exactly(event, {At, Action}) then Some(map[Action := event[Action]]) else None
          else None;
        WithParameter(if normalised.Some? then normalised.value else map[], AtMs,
                      if normalised.Some? then Some(VInt(at.value)) else None)
  }

  predicate IsText(event: Fields, key: Key) {
    key in event && event[key].VStr? && event[key].s != ""
  }

  predicate IsNumber(event: Fields, key: Key, lo: int, hi: int) {
    key in event && event[key].VInt? && lo <= event[key].n <= hi
  }

  /** The four faults of a document, with exactly their own fields. */
  predicate WellFormedFault(event: Fields) {
    IsText(event, Type) &&
    ((event[Type].s == "eio" && event.Keys == {At, Action, Type, Repeat} && IsNumber(event, Repeat, 1, 1_000_000)) ||
     (event[Type].s == "delay" && event.Keys == {At, Action, Type, Duration} && ParseDuration(event[Duration]).Some?) ||
     (event[Type].s == "partial-read" && event.Keys == {At, Action, Type, Bytes} && IsNumber(event, Bytes, 1, 4096)) ||
     (event[Type].s == "disconnect" && event.Keys == {At, Action, Type}))
  }

  /** The four actions of a document, with exactly their own fields. */
  predicate WellFormedAction(event: Fields) {
    IsText(event, Action) &&
    ((event[Action].s == "write" && event.Keys == {At, Action, Text} && IsText(event, Text)) ||
     (event[Action].s == "fault" && WellFormedFault(event)) ||
     (event[Action].s == "clear" && event.Keys == {At, Action}) ||
     (event[Action].s == "reset" && event.Keys == {At, Action}))
  }

  lemma FaultAcceptedExactly(event: Fields)
    requires At in event && Action in event
    ensures ParseFaultEvent(event).Some? <==> WellFormedFault(event)
  {}

  /** An event is accepted exactly if it is a mapping with text keys, its time is a
      duration within the timeout, and its action has exactly the fields it needs. */
  lemma EventAcceptedExactly(v: Value, timeoutMs: nat)
    ensures ParseEvent(v, timeoutMs).Some? <==>
              v.VMap? && v.stringKeys && At in v.fields && ParseDuration(v.fields[At]).Some? &&
              ParseDuration(v.fields[At]).value <= timeoutMs && WellFormedAction(v.fields)
  {
    if v.VMap? && At in v.fields && Action in v.fields {
      FaultAcceptedExactly(v.fields);
    }
  }

  function TimeOf(event: Fields): int {
    if AtMs in event && event[AtMs].VInt? then event[AtMs].n else -1
  }

  datatype Parsed = Parsed(name: string, timeoutMs: nat, events: seq<Fields>)

  /** What `scenario:` must look like for a given result. */
  ghost predicate Accepts(v: Value, p: Parsed) {
    && Mapping(v) && Exactly(v.fields, {Name, Timeout, Events})
    && v.fields[Name] == VStr(p.name) && p.name != ""
    && ParseDuration(v.fields[Timeout]) == Some(p.timeoutMs)
    && v.fields[Events].VList? && |v.fields[Events].items| == |p.events| > 0
    && (forall i :: 0 <= i < |p.events| ==> ParseEvent(v.fields[Events].items[i], p.timeoutMs) == Some(p.events[i]))
    && TimeOrdered(p.events)
  }

  lemma {:induction false} AdjacentIsPairwise(events: seq<Fields>, i: nat, j: nat)
    requires i <= j < |events|
    requires forall k :: 0 < k < |events| ==> TimeOf(events[k - 1]) <= TimeOf(events[k])
    ensures TimeOf(events[i]) <= TimeOf(events[j])
    decreases j - i
  {
    if i < j {
      AdjacentIsPairwise(events, i, j - 1);
      assert TimeOf(events[j - 1]) <= TimeOf(events[j]);
    }
  }

  /** The list comprehension over _parse_event. */
  method ParseEvents(items: seq<Value>, timeoutMs: nat) returns (r: Option<seq<Fields>>)
    ensures r.Some? ==> |r.value| == |items| &&
                        forall k :: 0 <= k < |items| ==> ParseEvent(items[k], timeoutMs) == Some(r.value[k])
    ensures r.None? ==> exists k :: 0 <= k < |items| && ParseEvent(items[k], timeoutMs).None?
  {
    var events: seq<Fields> := [];
    var i := 0;
    while i < |items|
      invariant i <= |items| && |events| == i
      invariant forall k :: 0 <= k < i ==> ParseEvent(items[k], timeoutMs) == Some(events[k])
    {
      var e := ParseEvent(items[i], timeoutMs);
      if e.None? {
        return None;
      }
      events := events + [e.value];
      i := i + 1;
    }
    r := Some(events);
  }

  predicate TimeOrdered(events: seq<Fields>) {
    forall i, j :: 0 <= i < j < |events| ==> TimeOf(events[i]) <= TimeOf(events[j])
  }

  /** Comparing neighbours decides the order of all pairs. */
  method CheckOrder(events: seq<Fields>) returns (ok: bool)
    ensures ok <==> TimeOrdered(events)
  {
    var i := 1;
    while i < |events|
      invariant 1 <= i && (events == [] || i <= |events|)
      invariant forall k :: 0 < k < i && k < |events| ==> TimeOf(events[k - 1]) <= TimeOf(events[k])
    {
      if TimeOf(events[i]) < TimeOf(events[i - 1]) {
        return false;
      }
      i := i + 1;
    }
    forall a, b | 0 <= a < b < |events| ensures TimeOf(events[a]) <= TimeOf(events[b]) {
      AdjacentIsPairwise(events, a, b);
    }
    ok := true;
  }

  /** _parse_scenario: succeeds exactly when some result is acceptable, and then the
      result is that one; in particular the events are in time order pairwise. */
  method ParseScenario(v: Value) returns (r: Option<Parsed>)
    ensures r.Some? ==> Accepts(v, r.value)
    ensures r.None? ==> forall p :: !Accepts(v, p)
  {
    if !Mapping(v) || !Exactly(v.fields, {Name, Timeout, Events}) || !NonEmptyString(v.fields[Name]) {
      return None;
    }
    var timeout := ParseDuration(v.fields[Timeout]);
    if timeout.None? || !v.fields[Events].VList? || v.fields[Events].items == [] {
      return None;
    }
    var items := v.fields[Events].items;
    var events := ParseEvents(items, timeout.value);
    if events.None? {
      return None;
    }
    var ok := CheckOrder(events.value);
    if !ok {
      forall p ensures !Accepts(v, p) {
        OnlyResult(v, p, timeout.value, events.value);
      }
      return None;
    }
    r := Some(Parsed(v.fields[Name].s, timeout.value, events.value));
  }

  lemma OnlyResult(v: Value, p: Parsed, timeoutMs: nat, events: seq<Fields>)
    requires Mapping(v) && Exactly(v.fields, {Name, Timeout, Events}) && v.fields[Events].VList?
    requires ParseDuration(v.fields[Timeout]) == Some(timeoutMs) && |events| == |v.fields[Events].items|
    requires forall k :: 0 <= k < |events| ==> ParseEvent(v.fields[Events].items[k], timeoutMs) == Some(events[k])
    ensures Accepts(v, p) ==> p.events == events && TimeOrdered(events)
  {}
}
