/** Maximal runs of flagged positions: the reference against which every run-length loop of the program is
    measured. `inside[i]` flags position `i`; `joined[i]` says that `i` may extend the run of `i - 1`. */
module Segments {
  datatype Segment = Segment(start: nat, end: nat)

  predicate Continues(inside: seq<bool>, joined: seq<bool>, i: int)
    requires |inside| == |joined|
  {
    0 < i < |inside| && inside[i - 1] && inside[i] && joined[i]
  }

  /** A run: its positions are all inside and linked, and it cannot be extended on either side. */
  ghost predicate IsSegment(inside: seq<bool>, joined: seq<bool>, n: nat, s: Segment)
    requires n <= |inside| == |joined|
  {
    && s.start < s.end <= n
    && (forall i | s.start <= i < s.end :: inside[i])
    && (forall i | s.start < i < s.end :: Continues(inside, joined, i))
    && !Continues(inside, joined, s.start)
    && (s.end < n ==> !Continues(inside, joined, s.end))
  }

  /** The runs of the first `n` positions, in order, as an online loop discovers them. */
  function Runs(inside: seq<bool>, joined: seq<bool>, n: nat): (r: seq<Segment>)
    requires n <= |inside| == |joined|
    ensures n > 0 && inside[n - 1] ==> |r| > 0 && r[|r| - 1].end == n
  {
    if n == 0 then []
    else Grow(Runs(inside, joined, n - 1), n - 1, inside[n - 1], Continues(inside, joined, n - 1))
  }

  /** The list after position `n`: unchanged, its last run stretched, or a new run started. */
  function Grow(before: seq<Segment>, n: nat, flagged: bool, continues: bool): (r: seq<Segment>)
    requires continues ==> before != []
    ensures flagged ==> r != [] && r[|r| - 1].end == n + 1
  {
    if !flagged then before
    else if continues then before[..|before| - 1] + [Segment(before[|before| - 1].start, n + 1)]
    else before + [Segment(n, n + 1)]
  }

  ghost predicate Ordered(r: seq<Segment>) {
    forall i, j | 0 <= i < j < |r| :: r[i].end <= r[j].start
  }

  ghost predicate WithinBounds(r: seq<Segment>, n: nat) {
    forall j | 0 <= j < |r| :: r[j].start < r[j].end <= n
  }

  ghost predicate Covers(r: seq<Segment>, p: nat) {
    exists j :: 0 <= j < |r| && r[j].start <= p < r[j].end
  }

  lemma {:induction false} RunsOrdered(inside: seq<bool>, joined: seq<bool>, n: nat)
    requires n <= |inside| == |joined|
    ensures Ordered(Runs(inside, joined, n))
    ensures WithinBounds(Runs(inside, joined, n), n)
  {
    if n > 0 {
      RunsOrdered(inside, joined, n - 1);
      GrowOrdered(Runs(inside, joined, n - 1), n - 1, inside[n - 1], Continues(inside, joined, n - 1));
    }
  }

  lemma GrowOrdered(before: seq<Segment>, n: nat, flagged: bool, continues: bool)
    requires Ordered(before) && WithinBounds(before, n) && (continues ==> before != [])
    ensures Ordered(Grow(before, n, flagged, continues)) && WithinBounds(Grow(before, n, flagged, continues), n + 1)
  {
  }

  lemma {:induction false} RunsCover(inside: seq<bool>, joined: seq<bool>, n: nat, p: nat)
    requires p < n <= |inside| == |joined| && inside[p]
    ensures Covers(Runs(inside, joined, n), p)
  {
    var r := Runs(inside, joined, n);
    if p == n - 1 {
      RunsOrdered(inside, joined, n);
      RunsOrdered(inside, joined, n - 1);
      assert r[|r| - 1].start <= p < r[|r| - 1].end;
    } else {
      RunsCover(inside, joined, n - 1, p);
      var before := Runs(inside, joined, n - 1);
      var j :| 0 <= j < |before| && before[j].start <= p < before[j].end;
      assert r[j].start == before[j].start && before[j].end <= r[j].end;
    }
  }

  lemma SegmentStays(inside: seq<bool>, joined: seq<bool>, n: nat, s: Segment)
    requires n < |inside| == |joined| && IsSegment(inside, joined, n, s)
    requires s.end == n ==> !Continues(inside, joined, n)
    ensures IsSegment(inside, joined, n + 1, s)
  {
  }

  lemma SegmentGrows(inside: seq<bool>, joined: seq<bool>, n: nat, s: Segment)
    requires n < |inside| == |joined| && IsSegment(inside, joined, n, s) && s.end == n && Continues(inside, joined, n)
    ensures IsSegment(inside, joined, n + 1, Segment(s.start, n + 1))
  {
  }

  lemma {:induction false} RunIsSegment(inside: seq<bool>, joined: seq<bool>, n: nat, j: nat)
    requires n <= |inside| == |joined| && j < |Runs(inside, joined, n)|
    ensures IsSegment(inside, joined, n, Runs(inside, joined, n)[j])
    decreases n
  {
    var before, r := Runs(inside, joined, n - 1), Runs(inside, joined, n);
    RunsOrdered(inside, joined, n - 1);
    if j < |before| {
      RunIsSegment(inside, joined, n - 1, j);
      if Continues(inside, joined, n - 1) && j == |before| - 1 {
        SegmentGrows(inside, joined, n - 1, before[j]);
      } else {
        assert r[j] == before[j];
        SegmentStays(inside, joined, n - 1, before[j]);
      }
    } else {
      assert r[j] == Segment(n - 1, n);
    }
  }

  lemma SegmentsSharingAPosition(inside: seq<bool>, joined: seq<bool>, n: nat, a: Segment, b: Segment, p: nat)
    requires n <= |inside| == |joined|
    requires IsSegment(inside, joined, n, a) && IsSegment(inside, joined, n, b)
    requires a.start <= p < a.end && b.start <= p < b.end
    ensures a == b
  {
  }

  /** The list is exactly the set of maximal runs. */
  lemma RunsExact(inside: seq<bool>, joined: seq<bool>, n: nat)
    requires n <= |inside| == |joined|
    ensures forall s :: s in Runs(inside, joined, n) <==> IsSegment(inside, joined, n, s)
    ensures Ordered(Runs(inside, joined, n))
  {
    RunsOrdered(inside, joined, n);
    var r := Runs(inside, joined, n);
    forall j: nat | j < |r| ensures IsSegment(inside, joined, n, r[j]) {
      RunIsSegment(inside, joined, n, j);
    }
    forall s | IsSegment(inside, joined, n, s) ensures s in r {
      RunsCover(inside, joined, n, s.start);
      var j :| 0 <= j < |r| && r[j].start <= s.start < r[j].end;
      SegmentsSharingAPosition(inside, joined, n, s, r[j], s.start);
    }
  }

  ghost predicate Within(s: Segment, t: Segment) {
    t.start <= s.start && s.end <= t.end
  }

  lemma SegmentInsideSegment(small: seq<bool>, large: seq<bool>, joined: seq<bool>, s: Segment, t: Segment)
    requires |small| == |large| == |joined|
    requires forall i | 0 <= i < |small| :: small[i] ==> large[i]
    requires IsSegment(small, joined, |small|, s) && IsSegment(large, joined, |small|, t)
    requires t.start <= s.start < t.end
    ensures Within(s, t)
  {
    assert t.end < s.end ==> Continues(small, joined, t.end);
  }

  /** Fewer flags: every run of the smaller set lies inside exactly one run of the larger one. */
  lemma RunsNest(small: seq<bool>, large: seq<bool>, joined: seq<bool>, s: Segment) returns (t: Segment)
    requires |small| == |large| == |joined|
    requires forall i | 0 <= i < |small| :: small[i] ==> large[i]
    requires s in Runs(small, joined, |small|)
    ensures t in Runs(large, joined, |large|) && Within(s, t)
    ensures forall u | u in Runs(large, joined, |large|) && Within(s, u) :: u == t
  {
    var n := |small|;
    var k :| 0 <= k < |Runs(small, joined, n)| && Runs(small, joined, n)[k] == s;
    RunIsSegment(small, joined, n, k);
    t := RunCovering(large, joined, n, s.start);
    SegmentInsideSegment(small, large, joined, s, t);
    forall u | u in Runs(large, joined, n) && Within(s, u) ensures u == t {
      var m :| 0 <= m < |Runs(large, joined, n)| && Runs(large, joined, n)[m] == u;
      RunIsSegment(large, joined, n, m);
      SegmentsSharingAPosition(large, joined, n, t, u, s.start);
    }
  }

  lemma RunCovering(inside: seq<bool>, joined: seq<bool>, n: nat, p: nat) returns (t: Segment)
    requires p < n <= |inside| == |joined| && inside[p]
    ensures t in Runs(inside, joined, n) && IsSegment(inside, joined, n, t) && t.start <= p < t.end
  {
    RunsCover(inside, joined, n, p);
    var r := Runs(inside, joined, n);
    var j :| 0 <= j < |r| && r[j].start <= p < r[j].end;
    RunIsSegment(inside, joined, n, j);
    t := r[j];
  }

  // --- Weights: what the runs carry together is what the inside positions carry ---

  ghost function WeightBetween(w: seq<int>, a: nat, b: nat): int
    requires a <= b <= |w|
  {
    if a == b then 0 else WeightBetween(w, a, b - 1) + w[b - 1]
  }

  /** Every position weighs one. */
  ghost function Units(n: nat): (w: seq<int>)
    ensures |w| == n
  {
    seq(n, _ => 1)
  }

  lemma {:induction false} UnitWeight(n: nat, a: nat, b: nat)
    requires a <= b <= n
    ensures WeightBetween(Units(n), a, b) == b - a
    decreases b
  {
    if a < b {
      UnitWeight(n, a, b - 1);
    }
  }

  /** How many of the first `n` positions are flagged. */
  function FlagCount(inside: seq<bool>, n: nat): nat
    requires n <= |inside|
  {
    if n == 0 then 0 else FlagCount(inside, n - 1) + if inside[n - 1] then 1 else 0
  }

  ghost function Flagged(inside: seq<bool>, n: nat): set<nat>
    requires n <= |inside|
  {
    set i: nat | i < n && inside[i]
  }

  /** It is the number of flagged positions. */
  lemma {:induction false} FlagCardinality(inside: seq<bool>, n: nat)
    requires n <= |inside|
    ensures FlagCount(inside, n) == |Flagged(inside, n)|
  {
    if n > 0 {
      FlagCardinality(inside, n - 1);
      assert Flagged(inside, n) == Flagged(inside, n - 1) + if inside[n - 1] then {n - 1} else {};
    }
  }

  lemma {:induction false} FlagsWeigh(inside: seq<bool>, n: nat)
    requires n <= |inside|
    ensures InsideWeight(inside, Units(|inside|), n) == FlagCount(inside, n)
  {
    if n > 0 {
      FlagsWeigh(inside, n - 1);
    }
  }

  ghost function InsideWeight(inside: seq<bool>, w: seq<int>, n: nat): int
    requires n <= |inside| == |w|
  {
    if n == 0 then 0 else InsideWeight(inside, w, n - 1) + if inside[n - 1] then w[n - 1] else 0
  }

  ghost function RunsWeight(r: seq<Segment>, w: seq<int>): int
    requires WithinBounds(r, |w|)
  {
    if r == [] then 0
    else
      var last := r[|r| - 1];
      RunsWeight(r[..|r| - 1], w) + WeightBetween(w, last.start, last.end)
  }

  lemma RunsWeightSnoc(r: seq<Segment>, s: Segment, w: seq<int>)
    requires WithinBounds(r + [s], |w|) && s.start < s.end <= |w|
    ensures WithinBounds(r, |w|)
    ensures RunsWeight(r + [s], w) == RunsWeight(r, w) + WeightBetween(w, s.start, s.end)
  {
    var all := r + [s];
    assert all[|r|] == s;
    assert forall j | 0 <= j < |r| :: all[j] == r[j];
    assert all[..|r|] == r;
  }

  lemma StretchWeighs(init: seq<Segment>, last: Segment, w: seq<int>)
    requires last.start < last.end < |w| && WithinBounds(init, |w|)
    ensures var longer := Segment(last.start, last.end + 1);
            && WithinBounds(init + [last], |w|) && WithinBounds(init + [longer], |w|)
            && RunsWeight(init + [longer], w) == RunsWeight(init + [last], w) + w[last.end]
  {
    RunsWeightSnoc(init, last, w);
    RunsWeightSnoc(init, Segment(last.start, last.end + 1), w);
  }

  lemma StartWeighs(before: seq<Segment>, w: seq<int>, n: nat)
    requires n < |w| && WithinBounds(before, |w|)
    ensures WithinBounds(before + [Segment(n, n + 1)], |w|)
    ensures RunsWeight(before + [Segment(n, n + 1)], w) == RunsWeight(before, w) + w[n]
  {
    RunsWeightSnoc(before, Segment(n, n + 1), w);
    assert WeightBetween(w, n, n) == 0;
  }

  /** A flagged position adds its own weight, whether it stretches the last run or starts one. */
  lemma GrowWeighs(before: seq<Segment>, w: seq<int>, n: nat, flagged: bool, continues: bool)
    requires n < |w| && WithinBounds(before, n) && (continues ==> before != [] && before[|before| - 1].end == n)
    ensures WithinBounds(before, |w|) && WithinBounds(Grow(before, n, flagged, continues), |w|)
    ensures RunsWeight(Grow(before, n, flagged, continues), w) == RunsWeight(before, w) + if flagged then w[n] else 0
  {
    if flagged && continues {
      var k := |before| - 1;
      assert before == before[..k] + [before[k]];
      StretchWeighs(before[..k], before[k], w);
    } else if flagged {
      StartWeighs(before, w, n);
    }
  }

  lemma RunsWithin(inside: seq<bool>, joined: seq<bool>, n: nat)
    requires n <= |inside| == |joined|
    ensures WithinBounds(Runs(inside, joined, n), n) && WithinBounds(Runs(inside, joined, n), |inside|)
  {
    RunsOrdered(inside, joined, n);
  }

  lemma {:induction false} WeightConserved(inside: seq<bool>, joined: seq<bool>, w: seq<int>, n: nat)
    requires n <= |inside| == |joined| == |w|
    ensures WithinBounds(Runs(inside, joined, n), |w|)
    ensures RunsWeight(Runs(inside, joined, n), w) == InsideWeight(inside, w, n)
  {
    RunsWithin(inside, joined, n);
    if n > 0 {
      var before, continues := Runs(inside, joined, n - 1), Continues(inside, joined, n - 1);
      WeightConserved(inside, joined, w, n - 1);
      RunsWithin(inside, joined, n - 1);
      GrowWeighs(before, w, n - 1, inside[n - 1], continues);
      assert Runs(inside, joined, n) == Grow(before, n - 1, inside[n - 1], continues);
    }
  }

  lemma {:induction false} InsideWeightMonotone(small: seq<bool>, large: seq<bool>, w: seq<int>, n: nat)
    requires n <= |small| == |large| == |w|
    requires forall i | 0 <= i < n :: (small[i] ==> large[i]) && w[i] >= 0
    ensures InsideWeight(small, w, n) <= InsideWeight(large, w, n)
  {
    if n > 0 {
      InsideWeightMonotone(small, large, w, n - 1);
    }
  }
}
