// src/vdevlab/report.py: the merged timeline and the causal durations.

module Report {
  import opened Common
  import opened Analysis

  /** DispatchRecord, as far as the report reads it. */
  datatype Dispatch = Dispatch(index: nat, action: string, startedMs: real)

  datatype Item =
    | FromScenario(index: nat, ts: int)
    | FromApp(line: nat, event: string, ts: int)

  /** Python's int() of a float. */
  function Trunc(x: real): int {
    if x >= 0.0 then x.Floor else -((-x).Floor)
  }

  /** It drops the fraction, towards zero. */
  lemma TruncDropsFraction(x: real)
    ensures x >= 0.0 ==> 0 <= Trunc(x) && Trunc(x) as real <= x < Trunc(x) as real + 1.0
    ensures x <= 0.0 ==> Trunc(x) <= 0 && Trunc(x) as real - 1.0 < x <= Trunc(x) as real
  {}

  lemma TruncMonotone(x: real, y: real)
    requires x <= y
    ensures Trunc(x) <= Trunc(y)
  {}

  // ---- the sort key and a stable sort ----

  function Rank(e: Item): int {
    if e.FromScenario? then 0 else 1
  }

  /** The tuple comparison of the sort key. */
  predicate Leq(a: Item, b: Item) {
    a.ts < b.ts || (a.ts == b.ts && Rank(a) <= Rank(b))
  }

  predicate SameKey(a: Item, b: Item) {
    a.ts == b.ts && Rank(a) == Rank(b)
  }

  /** Puts x behind everything it does not precede. */
  function Insert(ys: seq<Item>, x: Item): seq<Item> {
    if ys == [] then [x] else
      var last := ys[|ys| - 1];
      if Leq(last, x) then ys + [x] else Insert(ys[..|ys| - 1], x) + [last]
  }

  function SortedTimeline(xs: seq<Item>): seq<Item> {
    if xs == [] then [] else Insert(SortedTimeline(xs[..|xs| - 1]), xs[|xs| - 1])
  }

  predicate Sorted(ys: seq<Item>) {
    forall i, j :: 0 <= i < j < |ys| ==> Leq(ys[i], ys[j])
  }

  function Keep(xs: seq<Item>, p: Item -> bool): seq<Item> {
    if xs == [] then [] else
      var last := xs[|xs| - 1];
      Keep(xs[..|xs| - 1], p) + (if p(last) then [last] else [])
  }

  lemma KeepSnoc(xs: seq<Item>, x: Item, p: Item -> bool)
    ensures Keep(xs + [x], p) == Keep(xs, p) + (if p(x) then [x] else [])
  {
    assert (xs + [x])[..|xs|] == xs;
  }

  lemma MultisetSnoc(xs: seq<Item>)
    requires xs != []
    ensures multiset(xs) == multiset(xs[..|xs| - 1]) + multiset{xs[|xs| - 1]}
  {
    assert xs == xs[..|xs| - 1] + [xs[|xs| - 1]];
  }

  lemma {:induction false} InsertSorted(ys: seq<Item>, x: Item)
    requires Sorted(ys)
    ensures Sorted(Insert(ys, x)) && multiset(Insert(ys, x)) == multiset(ys) + multiset{x}
    decreases |ys|
  {
    if ys != [] {
      var init, last := ys[..|ys| - 1], ys[|ys| - 1];
      assert ys == init + [last];
      if !Leq(last, x) {
        InsertSorted(init, x);
        var r := Insert(init, x);
        forall y | y in r ensures Leq(y, last) {
          assert y in multiset(r);
          if y != x {
            assert y in multiset(init);
            assert y in init;
          }
        }
        SortedSnoc(r, last);
      } else {
        forall y | y in ys ensures Leq(y, x) {
          var i :| 0 <= i < |ys| && ys[i] == y;
        }
        SortedSnoc(ys, x);
      }
    }
  }

  lemma SortedSnoc(ys: seq<Item>, x: Item)
    requires Sorted(ys) && forall y :: y in ys ==> Leq(y, x)
    ensures Sorted(ys + [x])
  {}

  /** A class of entries that x does not precede keeps its order, x last. */
  lemma {:induction false} InsertKeeps(ys: seq<Item>, x: Item, p: Item -> bool)
    requires p(x) ==> forall y :: y in ys && p(y) ==> Leq(y, x)
    ensures Keep(Insert(ys, x), p) == Keep(ys, p) + (if p(x) then [x] else [])
    decreases |ys|
  {
    if ys == [] {
      assert Insert(ys, x) == [] + [x];
      KeepSnoc([], x, p);
    } else if Leq(ys[|ys| - 1], x) {
      KeepSnoc(ys, x, p);
    } else {
      var init, last := ys[..|ys| - 1], ys[|ys| - 1];
      assert last in ys && (p(x) ==> !p(last));
      InsertKeeps(init, x, p);
      KeepSnoc(Insert(init, x), last, p);
      assert Keep(ys, p) == Keep(init, p) + (if p(last) then [last] else []);
      if !p(x) {
        assert Keep(init, p) + [] == Keep(init, p);
      }
    }
  }

  lemma {:induction false} SortSorts(xs: seq<Item>)
    ensures Sorted(SortedTimeline(xs)) && multiset(SortedTimeline(xs)) == multiset(xs)
    decreases |xs|
  {
    if xs != [] {
      SortSorts(xs[..|xs| - 1]);
      InsertSorted(SortedTimeline(xs[..|xs| - 1]), xs[|xs| - 1]);
      MultisetSnoc(xs);
    }
  }

  predicate InOrder(xs: seq<Item>, p: Item -> bool) {
    forall i, j :: 0 <= i < j < |xs| && p(xs[i]) && p(xs[j]) ==> Leq(xs[i], xs[j])
  }

  /** A class of entries already in order comes out in its original order. */
  lemma {:induction false} SortKeeps(xs: seq<Item>, p: Item -> bool)
    requires InOrder(xs, p)
    ensures Keep(SortedTimeline(xs), p) == Keep(xs, p)
    decreases |xs|
  {
    if xs != [] {
      var init, last := xs[..|xs| - 1], xs[|xs| - 1];
      SortKeeps(init, p);
      SortSorts(init);
      forall y | y in SortedTimeline(init) && p(y) && p(last) ensures Leq(y, last) {
        assert y in multiset(SortedTimeline(init));
        assert y in init;
        var i :| 0 <= i < |init| && init[i] == y;
        assert xs[i] == y;
      }
      InsertKeeps(SortedTimeline(init), last, p);
    }
  }

  /** The entries that have the same key as k, in order. */
  function WithKey(xs: seq<Item>, k: Item): seq<Item> {
    Keep(xs, (e: Item) => SameKey(e, k))
  }

  /** Entries with equal keys keep their order. */
  lemma SortIsStable(xs: seq<Item>, k: Item)
    ensures WithKey(SortedTimeline(xs), k) == WithKey(xs, k)
  {
    SortKeeps(xs, (e: Item) => SameKey(e, k));
  }

  lemma WithKeySnoc(xs: seq<Item>, x: Item, k: Item)
    ensures WithKey(xs + [x], k) == WithKey(xs, k) + (if SameKey(x, k) then [x] else [])
  {
    KeepSnoc(xs, x, (e: Item) => SameKey(e, k));
  }

  lemma {:induction false} KeepMember(xs: seq<Item>, p: Item -> bool, x: Item)
    ensures x in Keep(xs, p) <==> x in xs && p(x)
    decreases |xs|
  {
    if xs != [] {
      assert xs == xs[..|xs| - 1] + [xs[|xs| - 1]];
      KeepMember(xs[..|xs| - 1], p, x);
    }
  }

  ghost predicate SameClasses(ys: seq<Item>, zs: seq<Item>) {
    forall k: Item :: WithKey(ys, k) == WithKey(zs, k)
  }

  /** Being sorted and stable pins the result down: whatever algorithm sorts stably
      by this key, it returns SortedTimeline. */
  lemma {:induction false} StableSortUnique(ys: seq<Item>, zs: seq<Item>)
    requires Sorted(ys) && Sorted(zs) && SameClasses(ys, zs)
    ensures ys == zs
    decreases |ys|
  {
    if ys == [] {
      if zs != [] {
        SharesKey(zs, ys, zs[0]);
      }
    } else {
      SharesKey(ys, zs, ys[|ys| - 1]);
      SharesKey(zs, ys, zs[|zs| - 1]);
      var y, z := ys[|ys| - 1], zs[|zs| - 1];
      var ys0, zs0 := ys[..|ys| - 1], zs[..|zs| - 1];
      assert ys == ys0 + [y] && zs == zs0 + [z];
      SameLast(ys0, y, zs0, z);
      StableSortUnique(ys0, zs0);
    }
  }

  lemma SameLast(ys: seq<Item>, y: Item, zs: seq<Item>, z: Item)
    requires SameKey(y, z) && SameClasses(ys + [y], zs + [z])
    ensures y == z && SameClasses(ys, zs)
  {
    forall k: Item ensures WithKey(ys, k) == WithKey(zs, k) && (SameKey(y, k) ==> y == z) {
      WithKeySnoc(ys, y, k);
      WithKeySnoc(zs, z, k);
      assert WithKey(ys + [y], k) == WithKey(zs + [z], k);
      if SameKey(y, k) {
        SnocInjective(WithKey(ys, k), y, WithKey(zs, k), z);
      } else {
        assert WithKey(ys, k) + [] == WithKey(ys, k) && WithKey(zs, k) + [] == WithKey(zs, k);
      }
    }
    assert WithKey(ys, y) == WithKey(zs, y);
  }

  lemma SnocInjective(a: seq<Item>, x: Item, b: seq<Item>, y: Item)
    requires a + [x] == b + [y]
    ensures a == b && x == y
  {
    assert |a| == |b|;
    assert a == (a + [x])[..|a|] && b == (b + [y])[..|b|];
    assert x == (a + [x])[|a|] && y == (b + [y])[|b|];
  }

  /** If x is in ys then zs has it too, so zs's last is not below x. */
  lemma SharesKey(ys: seq<Item>, zs: seq<Item>, x: Item)
    requires Sorted(zs) && x in ys && (SameClasses(ys, zs) || SameClasses(zs, ys))
    ensures zs != [] && Leq(x, zs[|zs| - 1])
  {
    var p := (e: Item) => SameKey(e, x);
    KeepMember(ys, p, x);
    assert WithKey(ys, x) == WithKey(zs, x);
    KeepMember(zs, p, x);
    var i :| 0 <= i < |zs| && zs[i] == x;
  }

  // ---- the timeline ----

  function DispatchTimeline(ds: seq<Dispatch>): seq<Item> {
    seq(|ds|, i requires 0 <= i < |ds| => FromScenario(ds[i].index, Trunc(ds[i].startedMs)))
  }

  function AppTimeline(es: seq<Record>): seq<Item> {
    seq(|es|, i requires 0 <= i < |es| => FromApp(es[i].line, es[i].event, es[i].ts))
  }

  function Timeline(ds: seq<Dispatch>, es: seq<Record>): seq<Item> {
    SortedTimeline(DispatchTimeline(ds) + AppTimeline(es))
  }

  predicate StartsAscend(ds: seq<Dispatch>) {
    forall i, j :: 0 <= i < j < |ds| ==> ds[i].startedMs <= ds[j].startedMs
  }

  lemma {:induction false} KeepAll(xs: seq<Item>, p: Item -> bool)
    requires forall x :: x in xs ==> p(x)
    ensures Keep(xs, p) == xs
    decreases |xs|
  {
    if xs != [] {
      KeepAll(xs[..|xs| - 1], p);
      assert xs == xs[..|xs| - 1] + [xs[|xs| - 1]];
    }
  }

  lemma {:induction false} KeepConcat(xs: seq<Item>, ys: seq<Item>, p: Item -> bool)
    ensures Keep(xs + ys, p) == Keep(xs, p) + Keep(ys, p)
    decreases |ys|
  {
    if ys == [] {
      assert xs + ys == xs;
    } else {
      assert (xs + ys)[..|xs + ys| - 1] == xs + ys[..|ys| - 1];
      KeepConcat(xs, ys[..|ys| - 1], p);
    }
  }

  lemma {:induction false} KeepNone(xs: seq<Item>, p: Item -> bool)
    requires forall x :: x in xs ==> !p(x)
    ensures Keep(xs, p) == []
    decreases |xs|
  {
    if xs != [] {
      KeepNone(xs[..|xs| - 1], p);
    }
  }

  /** The entries say which dispatch or line they are from, and when: the start of a
      dispatch without its fraction, and the stamp of an event. */
  lemma EntriesFromRecords(ds: seq<Dispatch>, es: seq<Record>)
    ensures forall i :: 0 <= i < |ds| ==>
              var item := DispatchTimeline(ds)[i];
              item.index == ds[i].index && (ds[i].startedMs >= 0.0 ==> item.ts as real <= ds[i].startedMs < item.ts as real + 1.0)
    ensures forall i :: 0 <= i < |es| ==>
              var item := AppTimeline(es)[i];
              item.line == es[i].line && item.event == es[i].event && item.ts == es[i].ts
  {}

  /** Sorting two sources together keeps the one that p picks as it is. */
  lemma KeepsSource(a: seq<Item>, b: seq<Item>, own: seq<Item>, p: Item -> bool)
    requires InOrder(a + b, p)
    requires ((forall x :: x in a ==> p(x)) && (forall x :: x in b ==> !p(x)) && own == a) ||
             ((forall x :: x in a ==> !p(x)) && (forall x :: x in b ==> p(x)) && own == b)
    ensures Keep(SortedTimeline(a + b), p) == own
  {
    SortKeeps(a + b, p);
    KeepConcat(a, b, p);
    if forall x :: x in a ==> p(x) {
      KeepAll(a, p);
    } else {
      KeepNone(a, p);
    }
    if forall x :: x in b ==> p(x) {
      KeepAll(b, p);
    } else {
      KeepNone(b, p);
    }
  }

  lemma DispatchesInOrder(ds: seq<Dispatch>, es: seq<Record>)
    requires StartsAscend(ds)
    ensures InOrder(DispatchTimeline(ds) + AppTimeline(es), (e: Item) => e.FromScenario?)
  {
    var ab := DispatchTimeline(ds) + AppTimeline(es);
    forall i, j | 0 <= i < j < |ab| && ab[i].FromScenario? && ab[j].FromScenario? ensures Leq(ab[i], ab[j]) {
      TruncMonotone(ds[i].startedMs, ds[j].startedMs);
    }
  }

  lemma AppEventsInOrder(ds: seq<Dispatch>, es: seq<Record>)
    requires NonDecreasing(es)
    ensures InOrder(DispatchTimeline(ds) + AppTimeline(es), (e: Item) => e.FromApp?)
  {
    var ab := DispatchTimeline(ds) + AppTimeline(es);
    forall i, j | 0 <= i < j < |ab| && ab[i].FromApp? && ab[j].FromApp? ensures Leq(ab[i], ab[j]) {
      assert es[i - |ds|].ts <= es[j - |ds|].ts;
    }
  }

  /** The timeline is a permutation of dispatches and application events, and read
      source by source it is each source in its own order. */
  lemma TimelineKeepsSources(ds: seq<Dispatch>, es: seq<Record>)
    requires StartsAscend(ds) && NonDecreasing(es)
    ensures multiset(Timeline(ds, es)) == multiset(DispatchTimeline(ds)) + multiset(AppTimeline(es))
    ensures Keep(Timeline(ds, es), (e: Item) => e.FromScenario?) == DispatchTimeline(ds)
    ensures Keep(Timeline(ds, es), (e: Item) => e.FromApp?) == AppTimeline(es)
  {
    var a, b := DispatchTimeline(ds), AppTimeline(es);
    SortSorts(a + b);
    DispatchesInOrder(ds, es);
    KeepsSource(a, b, a, (e: Item) => e.FromScenario?);
    AppEventsInOrder(ds, es);
    KeepsSource(a, b, b, (e: Item) => e.FromApp?);
  }

  /** A dispatch stands before an application event exactly when its start,
      truncated to milliseconds, is no later than the event's stamp. */
  lemma PrecedesExactlyByMillisecond(ds: seq<Dispatch>, es: seq<Record>, p: nat, q: nat)
    requires p < |Timeline(ds, es)| && q < |Timeline(ds, es)|
    requires Timeline(ds, es)[p].FromScenario? && Timeline(ds, es)[q].FromApp?
    ensures p < q <==> Timeline(ds, es)[p].ts <= Timeline(ds, es)[q].ts
  {
    SortSorts(DispatchTimeline(ds) + AppTimeline(es));
    SortedPair(Timeline(ds, es), p, q);
  }

  lemma SortedPair(t: seq<Item>, p: nat, q: nat)
    requires Sorted(t) && p < |t| && q < |t| && t[p].FromScenario? && t[q].FromApp?
    ensures p < q <==> t[p].ts <= t[q].ts
  {}

  /** Causality survives the truncation of both clocks: a dispatch that really
      started no later than an application event happened comes first. */
  lemma CausesComeFirst(ds: seq<Dispatch>, es: seq<Record>, instants: seq<real>, i: nat, j: nat, p: nat, q: nat)
    requires |instants| == |es| && forall k :: 0 <= k < |es| ==> es[k].ts == Trunc(instants[k])
    requires i < |ds| && j < |es| && ds[i].startedMs <= instants[j]
    requires p < |Timeline(ds, es)| && Timeline(ds, es)[p] == DispatchTimeline(ds)[i]
    requires q < |Timeline(ds, es)| && Timeline(ds, es)[q] == AppTimeline(es)[j]
    ensures p < q
  {
    TruncMonotone(ds[i].startedMs, instants[j]);
    PrecedesExactlyByMillisecond(ds, es, p, q);
  }

  /** The converse does not hold: inside one millisecond a dispatch is listed first
      even if it started later. */
  lemma OrderInsideAMillisecondIsLost(action: string, event: string)
    ensures var ds := [Dispatch(0, action, 5.9)];
            var es := [Record(1, Trunc(5.2), event, map[])];
            Timeline(ds, es) == DispatchTimeline(ds) + AppTimeline(es)
  {
    var ds := [Dispatch(0, action, 5.9)];
    var es := [Record(1, Trunc(5.2), event, map[])];
    var d, a := DispatchTimeline(ds)[0], AppTimeline(es)[0];
    assert DispatchTimeline(ds) + AppTimeline(es) == [d, a];
    assert [d, a][..1] == [d] && [d][..0] == [];
    assert SortedTimeline([d]) == [d];
    assert Leq(d, a);
  }

  // ---- causal durations ----

  /** The start of the first dispatched fault, if any was dispatched. */
  method FirstFaultTimestamp(ds: seq<Dispatch>) returns (r: Option<int>)
    ensures r.None? <==> forall k :: 0 <= k < |ds| ==> ds[k].action != "fault"
    ensures r.Some? ==> exists k :: 0 <= k < |ds| && ds[k].action == "fault" && r.value == Trunc(ds[k].startedMs) &&
                                    forall l :: 0 <= l < k ==> ds[l].action != "fault"
  {
    var i := 0;
    while i < |ds|
      invariant i <= |ds| && forall l :: 0 <= l < i ==> ds[l].action != "fault"
    {
      if ds[i].action == "fault" {
        return Some(Trunc(ds[i].startedMs));
      }
      i := i + 1;
    }
    r := None;
  }

  function CausalDuration(end: Option<int>, start: Option<int>): Option<int> {
    if end.None? || start.None? then None else Some(end.value - start.value)
  }

  function AsInt(x: Option<nat>): Option<int> {
    match x
    case None => None
    case Some(n) => Some(n)
  }

  /** Each duration leads from the fault to its event; fault-to-recovery minus
      fault-to-first-error is the recovery latency, and with a fault dispatched all
      three are there once something recovered. */
  lemma ObservationsAgree(events: seq<Record>, fault: Option<int>)
    requires Good(events, |events|)
    ensures var m := MetricsOf(events);
            var toError := CausalDuration(AsInt(m.firstError), fault);
            var toRecovery := CausalDuration(AsInt(m.recoveryTs), fault);
            (toError.Some? <==> fault.Some? && m.firstError.Some?) &&
            (toError.Some? ==> fault.value + toError.value == m.firstError.value) &&
            (toRecovery.Some? <==> fault.Some? && m.recoveryTs.Some?) &&
            (toRecovery.Some? ==> fault.value + toRecovery.value == m.recoveryTs.value) &&
            (toError.Some? && toRecovery.Some? ==>
               m.latency.Some? && toRecovery.value - toError.value == m.latency.value) &&
            (fault.Some? && m.recoveries != [] ==> toError.Some? && toRecovery.Some?)
  {
    if fault.Some? {
      DurationsAgree(events, fault.value);
    }
  }
}
