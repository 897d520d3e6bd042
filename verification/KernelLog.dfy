// DmesgKernelLogCollector.observe of src/vdevlab/runner.py: new lines as what is
// left of the second snapshot after its longest overlap with the first.

module KernelLog {
  import opened Common

  type Text = string

  datatype Snapshot = Snapshot(lines: seq<Text>, error: Option<Text>)

  datatype Observation = Observation(available: bool, warnings: seq<Text>, error: Option<Text>)

  /** The last k lines of `before` are the first k of `after`. */
  predicate Overlaps(before: seq<Text>, after: seq<Text>, k: nat) {
    k <= |before| && k <= |after| && before[|before| - k..] == after[..k]
  }

  predicate Longest(before: seq<Text>, after: seq<Text>, k: nat) {
    Overlaps(before, after, k) && forall j: nat :: k < j <= |after| ==> !Overlaps(before, after, j)
  }

  /** The loop drops exactly the longest overlap. */
  method Observe(before: Snapshot, after: Snapshot) returns (o: Observation)
    ensures o.available <==> before.error.None? && after.error.None?
    ensures o.available ==> o.error.None? && exists k: nat :: k <= |after.lines| && Longest(before.lines, after.lines, k) && o.warnings == after.lines[k..]
    ensures !o.available ==> o.warnings == [] && o.error == (if before.error.Some? then before.error else after.error)
  {
    if before.error.Some? {
      return Observation(false, [], before.error);
    }
    if after.error.Some? {
      return Observation(false, [], after.error);
    }
    var overlap: nat := if |before.lines| < |after.lines| then |before.lines| else |after.lines|;
    while overlap > 0 && before.lines[|before.lines| - overlap..] != after.lines[..overlap]
      invariant overlap <= |before.lines| && overlap <= |after.lines|
      invariant forall j: nat :: overlap < j <= |after.lines| ==> !Overlaps(before.lines, after.lines, j)
    {
      overlap := overlap - 1;
    }
    assert Longest(before.lines, after.lines, overlap);
    o := Observation(true, after.lines[overlap..], None);
  }

  /** Every overlap is at most the longest one, which is therefore unique. */
  lemma LongestIsLongest(before: seq<Text>, after: seq<Text>, k: nat, j: nat)
    requires Longest(before, after, k) && Overlaps(before, after, j)
    ensures j <= k
    ensures Longest(before, after, j) ==> j == k
  {}

  /** Nothing rotated out: exactly the new lines are reported. */
  lemma NoRotation(before: seq<Text>, added: seq<Text>, k: nat)
    requires Longest(before, before + added, k)
    ensures (before + added)[k..] == added
  {
    var after := before + added;
    assert before[0..] == after[..|before|];
    LongestIsLongest(before, after, k, |before|);
  }

  /** The first r lines rotated out, possibly all of them: what is reported is a
      suffix of the new lines, and all of them exactly when no longer overlap than
      the surviving old lines exists. */
  lemma Rotation(before: seq<Text>, added: seq<Text>, r: nat, k: nat)
    requires r <= |before| && Longest(before, before[r..] + added, k)
    ensures var reported := (before[r..] + added)[k..];
            && |reported| <= |added| && reported == added[|added| - |reported|..]
            && (reported == added <==>
                  forall j: nat :: |before| - r < j <= |before[r..] + added| ==> !Overlaps(before, before[r..] + added, j))
  {
    var after := before[r..] + added;
    var kept := |before| - r;
    assert before[|before| - kept..] == after[..kept];
    LongestIsLongest(before, after, k, kept);
    assert after[k..] == added[k - kept..];
    if after[k..] == added {
      assert k == kept;
    }
  }

  predicate Distinct(lines: seq<Text>) {
    forall i, j :: 0 <= i < j < |lines| ==> lines[i] != lines[j]
  }

  /** With pairwise distinct lines the report is exact: the surviving new lines,
      whether old lines (r of them) or all old and q new ones rotated out. */
  lemma DistinctLinesExact(before: seq<Text>, added: seq<Text>, r: nat, q: nat, k: nat)
    requires Distinct(before + added) && r <= |before| && q <= |added| && (q > 0 ==> r == |before|)
    requires Longest(before, before[r..] + added[q..], k)
    ensures (before[r..] + added[q..])[k..] == added[q..]
  {
    var all := before + added;
    var after := before[r..] + added[q..];
    var kept := |before| - r;
    assert before[|before| - kept..] == after[..kept];
    LongestIsLongest(before, after, k, kept);
    forall j: nat | kept < j ensures !Overlaps(before, after, j) {
      if j <= |before| && j <= |after| {
        assert all[|before| - j] == before[|before| - j];
        assert after[0] == (if kept > 0 then all[r] else all[|before| + q]);
        assert before[|before| - j..][0] != after[..j][0];
      }
    }
  }

  /** With repeated lines and rotation the diff can miss: one old line gone, an
      equal new one written, nothing reported. */
  lemma RepeatedLineMissed(line: Text)
    ensures var after := [line][1..] + [line];
            Longest([line], after, 1) && after[1..] == []
  {
    var after := [line][1..] + [line];
    assert |after| == 1 && after[0] == line;
    assert after == [line];
    assert [line][0..] == [line] && after[..1] == [line];
  }
}
