/** Runs of missing sessions, src/dev/breadth-v2-calculation.ts, and the compact ranges of
    src/dev/participation-coverage.ts: two loops, one notion of a maximal run. */
module GapRuns {
  import Segments

  type Date = int
  datatype Shape = FULL_RANGE_MISSING | LEADING_MISSING | INTERIOR_GAP | TRAILING_MISSING
  datatype LengthBucket = ONE | TWO | THREE_TO_FIVE | OVER_FIVE
  datatype MissingRun = MissingRun(from: Date, through: Date, length: nat, shape: Shape, lengthBucket: LengthBucket)
  datatype Range = Range(from: Date, to: Date, sessions: nat)

  function Missing(sessions: seq<Date>, bars: set<Date>): (r: seq<bool>)
    ensures |r| == |sessions|
  {
    seq(|sessions|, i requires 0 <= i < |sessions| => sessions[i] !in bars)
  }

  function Selected(sessions: seq<Date>, selected: set<Date>): (r: seq<bool>)
    ensures |r| == |sessions|
  {
    seq(|sessions|, i requires 0 <= i < |sessions| => sessions[i] in selected)
  }

  function Unbroken(n: nat): (r: seq<bool>)
    ensures |r| == n
  {
    seq(n, _ => true)
  }

  /** The maximal runs of flagged sessions among the first `n`. */
  function Blocks(flags: seq<bool>, n: nat): (r: seq<Segments.Segment>)
    requires n <= |flags|
    ensures Segments.WithinBounds(r, n)
  {
    Segments.RunsOrdered(flags, Unbroken(|flags|), n);
    Segments.Runs(flags, Unbroken(|flags|), n)
  }

  ghost predicate BarBefore(sessions: seq<Date>, bars: set<Date>, k: int) {
    exists i :: 0 <= i < |sessions| && i < k && sessions[i] in bars
  }

  ghost predicate BarFrom(sessions: seq<Date>, bars: set<Date>, k: int) {
    exists i :: 0 <= i < |sessions| && k <= i && sessions[i] in bars
  }

  /** What surrounds a run decides its shape. */
  ghost function ShapeOf(sessions: seq<Date>, bars: set<Date>, s: Segments.Segment): Shape {
    if BarBefore(sessions, bars, s.start)
    then if BarFrom(sessions, bars, s.end) then INTERIOR_GAP else TRAILING_MISSING
    else if BarFrom(sessions, bars, s.end) then LEADING_MISSING else FULL_RANGE_MISSING
  }

  function BucketOf(length: nat): LengthBucket {
    if length == 1 then ONE else if length == 2 then TWO else if length <= 5 then THREE_TO_FIVE else OVER_FIVE
  }

  ghost function RunOf(sessions: seq<Date>, bars: set<Date>, s: Segments.Segment): MissingRun
    requires s.start < s.end <= |sessions|
  {
    MissingRun(sessions[s.start], sessions[s.end - 1], s.end - s.start, ShapeOf(sessions, bars, s),
               BucketOf(s.end - s.start))
  }

  ghost function RunsOf(sessions: seq<Date>, bars: set<Date>, r: seq<Segments.Segment>): (m: seq<MissingRun>)
    requires Segments.WithinBounds(r, |sessions|)
    ensures |m| == |r|
  {
    seq(|r|, j requires 0 <= j < |r| => RunOf(sessions, bars, r[j]))
  }

  ghost function MissingRunsOf(sessions: seq<Date>, bars: set<Date>): seq<MissingRun> {
    RunsOf(sessions, bars, Blocks(Missing(sessions, bars), |sessions|))
  }

  /** The first and last session that has a bar, or -1. */
  ghost predicate RealBounds(sessions: seq<Date>, bars: set<Date>, first: int, last: int) {
    if first == -1 then last == -1 && forall i | 0 <= i < |sessions| :: sessions[i] !in bars
    else
      && 0 <= first <= last < |sessions| && sessions[first] in bars && sessions[last] in bars
      && (forall i | 0 <= i < first :: sessions[i] !in bars)
      && (forall i | last < i < |sessions| :: sessions[i] !in bars)
  }

  method FirstAndLastReal(sessions: seq<Date>, bars: set<Date>) returns (first: int, last: int)
    ensures RealBounds(sessions, bars, first, last)
  {
    first, last := -1, -1;
    for i := 0 to |sessions|
      invariant first == -1
      invariant forall j | 0 <= j < i :: sessions[j] !in bars
    {
      if sessions[i] in bars {
        first := i;
        break;
      }
    }
    for i := |sessions| downto 0
      invariant last == -1
      invariant forall j | i <= j < |sessions| :: sessions[j] !in bars
    {
      if sessions[i] in bars {
        last := i;
        break;
      }
    }
  }

  lemma ShapeAgrees(sessions: seq<Date>, bars: set<Date>, first: int, last: int, s: Segments.Segment)
    requires s.start < s.end <= |sessions| && forall j | s.start <= j < s.end :: sessions[j] !in bars
    requires RealBounds(sessions, bars, first, last)
    ensures ShapeOf(sessions, bars, s) ==
            if first < 0 then FULL_RANGE_MISSING else if s.end <= first then LEADING_MISSING
            else if s.start > last then TRAILING_MISSING else INTERIOR_GAP
  {
  }

  /** After `i` sessions: the closed runs are listed, and `start` opens the run that is not closed yet. */
  ghost predicate Scanned(sessions: seq<Date>, bars: set<Date>, i: nat, start: int, runs: seq<MissingRun>) {
    && i <= |sessions|
    && (start >= 0 <==> i > 0 && sessions[i - 1] !in bars)
    && var b := Blocks(Missing(sessions, bars), i);
       if start < 0 then runs == RunsOf(sessions, bars, b)
       else |b| > 0 && b[|b| - 1] == Segments.Segment(start, i) && runs == RunsOf(sessions, bars, b[..|b| - 1])
  }

  lemma ScanMissing(sessions: seq<Date>, bars: set<Date>, i: nat, start: int, runs: seq<MissingRun>)
    requires Scanned(sessions, bars, i, start, runs) && i < |sessions| && sessions[i] !in bars
    ensures Scanned(sessions, bars, i + 1, if start < 0 then i else start, runs)
  {
    var b, b' := Blocks(Missing(sessions, bars), i), Blocks(Missing(sessions, bars), i + 1);
    assert b'[..|b'| - 1] == if start < 0 then b else b[..|b| - 1];
  }

  /** After the step past the last session everything is listed. */
  ghost predicate Progress(sessions: seq<Date>, bars: set<Date>, i: nat, start: int, runs: seq<MissingRun>) {
    if i <= |sessions| then Scanned(sessions, bars, i, start, runs)
    else start < 0 && runs == MissingRunsOf(sessions, bars)
  }

  lemma ScanPresent(sessions: seq<Date>, bars: set<Date>, i: nat, start: int, runs: seq<MissingRun>)
    requires Scanned(sessions, bars, i, start, runs) && start < 0
    requires i < |sessions| ==> sessions[i] in bars
    ensures Progress(sessions, bars, i + 1, start, runs)
  {
  }

  lemma OpenRun(sessions: seq<Date>, bars: set<Date>, i: nat, start: nat, runs: seq<MissingRun>)
    requires Scanned(sessions, bars, i, start, runs)
    ensures start < i && forall j | start <= j < i :: sessions[j] !in bars
  {
    var flags := Missing(sessions, bars);
    Segments.RunIsSegment(flags, Unbroken(|flags|), i, |Blocks(flags, i)| - 1);
    forall j | start <= j < i ensures sessions[j] !in bars {
      assert flags[j];
    }
  }

  lemma ScanCloses(sessions: seq<Date>, bars: set<Date>, i: nat, start: nat, runs: seq<MissingRun>)
    requires Scanned(sessions, bars, i, start, runs) && start < i
    requires i < |sessions| ==> sessions[i] in bars
    ensures Progress(sessions, bars, i + 1, -1, runs + [RunOf(sessions, bars, Segments.Segment(start, i))])
  {
    var flags := Missing(sessions, bars);
    var b := Blocks(flags, i);
    assert b == b[..|b| - 1] + [b[|b| - 1]];
    assert i < |sessions| ==> Blocks(flags, i + 1) == b;
  }

  /** What the pass emits for the missing sessions `start` to `i`. */
  method CloseRun(sessions: seq<Date>, ghost bars: set<Date>, firstReal: int, lastReal: int, start: nat, i: nat)
    returns (run: MissingRun)
    requires start < i <= |sessions| && forall j | start <= j < i :: sessions[j] !in bars
    requires RealBounds(sessions, bars, firstReal, lastReal)
    ensures run == RunOf(sessions, bars, Segments.Segment(start, i))
  {
    ShapeAgrees(sessions, bars, firstReal, lastReal, Segments.Segment(start, i));
    var length: nat := i - start;
    var shape := if firstReal < 0 then FULL_RANGE_MISSING
                 else if i <= firstReal then LEADING_MISSING
                 else if start > lastReal then TRAILING_MISSING
                 else INTERIOR_GAP;
    run := MissingRun(sessions[start], sessions[i - 1], length, shape, BucketOf(length));
  }

  /** One pass that opens a run at the first missing session and emits it when it ends. */
  method MissingRuns(sessions: seq<Date>, bars: set<Date>) returns (runs: seq<MissingRun>)
    ensures runs == MissingRunsOf(sessions, bars)
    ensures RunsLaw(runs, sessions, bars)
  {
    var firstReal, lastReal := FirstAndLastReal(sessions, bars);
    runs := [];
    var start := -1;
    for i := 0 to |sessions| + 1
      invariant start < i && Progress(sessions, bars, i, start, runs)
    {
      if i < |sessions| && sessions[i] !in bars {
        ScanMissing(sessions, bars, i, start, runs);
        if start < 0 {
          start := i;
        }
      } else if start >= 0 {
        OpenRun(sessions, bars, i, start, runs);
        ScanCloses(sessions, bars, i, start, runs);
        var run := CloseRun(sessions, bars, firstReal, lastReal, start, i);
        runs := runs + [run];
        start := -1;
      } else {
        ScanPresent(sessions, bars, i, start, runs);
      }
    }
    assert RunsLaw(runs, sessions, bars) by {
      RunsAreLawful(sessions, bars);
    }
  }

  /** One pass that extends the current range or starts a new one. */
  method CompactSessionRanges(expected: seq<Date>, selected: set<Date>) returns (ranges: seq<Range>)
    ensures ranges == RangesOf(expected, Blocks(Selected(expected, selected), |expected|))
    ensures RangesLaw(ranges, expected, selected)
  {
    RangesAreLawful(expected, selected);
    var flags := Selected(expected, selected);
    ranges := [];
    var open := false;
    for i := 0 to |expected|
      invariant open <==> i > 0 && flags[i - 1]
      invariant ranges == RangesOf(expected, Blocks(flags, i))
    {
      RangesOneMore(expected, flags, i);
      if expected[i] !in selected {
        open := false;
      } else if open {
        var current := ranges[|ranges| - 1];
        ranges := ranges[..|ranges| - 1] + [Range(current.from, expected[i], current.sessions + 1)];
      } else {
        ranges := ranges + [Range(expected[i], expected[i], 1)];
        open := true;
      }
    }
  }

  function RangeOf(sessions: seq<Date>, s: Segments.Segment): Range
    requires s.start < s.end <= |sessions|
  {
    Range(sessions[s.start], sessions[s.end - 1], s.end - s.start)
  }

  function RangesOf(sessions: seq<Date>, r: seq<Segments.Segment>): (m: seq<Range>)
    requires Segments.WithinBounds(r, |sessions|)
    ensures |m| == |r|
  {
    seq(|r|, j requires 0 <= j < |r| => RangeOf(sessions, r[j]))
  }

  lemma RangesOneMore(sessions: seq<Date>, flags: seq<bool>, i: nat)
    requires |flags| == |sessions| && i < |sessions|
    ensures var before, after := RangesOf(sessions, Blocks(flags, i)), RangesOf(sessions, Blocks(flags, i + 1));
            var n := |before|;
            if !flags[i] then after == before
            else if i > 0 && flags[i - 1]
            then n > 0 && after == before[..n - 1]
                                   + [Range(before[n - 1].from, sessions[i], before[n - 1].sessions + 1)]
            else after == before + [Range(sessions[i], sessions[i], 1)]
  {
  }

  // --- What the runs mean ---

  /** Both loops find the same intervals: the missing runs are the compact ranges of the missing sessions. */
  lemma MissingRunsAreCompactRanges(sessions: seq<Date>, bars: set<Date>, missing: set<Date>)
    requires forall d :: d in missing <==> d in sessions && d !in bars
    ensures var runs := MissingRunsOf(sessions, bars);
            var ranges := RangesOf(sessions, Blocks(Selected(sessions, missing), |sessions|));
            |runs| == |ranges| && forall j | 0 <= j < |runs| ::
              runs[j].from == ranges[j].from && runs[j].through == ranges[j].to && runs[j].length == ranges[j].sessions
  {
    forall i | 0 <= i < |sessions| ensures Selected(sessions, missing)[i] == Missing(sessions, bars)[i] {
      var d := sessions[i];
      assert d in sessions;
      assert d in missing <==> d !in bars;
    }
    assert Selected(sessions, missing) == Missing(sessions, bars);
  }

  /** A maximal interval of missing sessions. */
  ghost predicate MaximalMissing(sessions: seq<Date>, bars: set<Date>, s: Segments.Segment) {
    && s.start < s.end <= |sessions|
    && (forall i | s.start <= i < s.end :: sessions[i] !in bars)
    && (s.start > 0 ==> sessions[s.start - 1] in bars)
    && (s.end < |sessions| ==> sessions[s.end] in bars)
  }

  lemma SegmentIsMaximalMissing(sessions: seq<Date>, bars: set<Date>, s: Segments.Segment)
    ensures Segments.IsSegment(Missing(sessions, bars), Unbroken(|sessions|), |sessions|, s)
            <==> MaximalMissing(sessions, bars, s)
  {
    var flags, n := Missing(sessions, bars), |sessions|;
    if s.start < s.end <= n {
      assert flags[s.start] <==> sessions[s.start] !in bars;
      assert flags[s.end - 1] <==> sessions[s.end - 1] !in bars;
      assert s.start > 0 ==> (flags[s.start - 1] <==> sessions[s.start - 1] !in bars);
      assert s.end < n ==> (flags[s.end] <==> sessions[s.end] !in bars);
      if MaximalMissing(sessions, bars, s) {
        forall i | s.start < i < s.end ensures Segments.Continues(flags, Unbroken(n), i) {
          assert sessions[i - 1] !in bars && sessions[i] !in bars;
        }
      }
      if Segments.IsSegment(flags, Unbroken(n), n, s) {
        forall i | s.start <= i < s.end ensures sessions[i] !in bars {
          assert flags[i];
        }
      }
    }
  }

  /** A run of the sessions `s` to `e`: its ends, its length, its shape by position, and the bucket of its length. */
  ghost predicate ShowsRun(run: MissingRun, sessions: seq<Date>, s: nat, e: nat)
    requires s < e <= |sessions|
  {
    && run.from == sessions[s] && run.through == sessions[e - 1] && run.length == e - s
    && run.shape == (if s == 0 && e == |sessions| then FULL_RANGE_MISSING else if s == 0 then LEADING_MISSING
                     else if e == |sessions| then TRAILING_MISSING else INTERIOR_GAP)
    && match run.lengthBucket
       case ONE => run.length == 1
       case TWO => run.length == 2
       case THREE_TO_FIVE => 3 <= run.length <= 5
       case OVER_FIVE => 5 < run.length
  }

  ghost predicate RunsLaw(runs: seq<MissingRun>, sessions: seq<Date>, bars: set<Date>) {
    exists blocks :: ShowsRuns(runs, sessions, bars, blocks)
  }

  /** One run for each maximal missing interval, in order. */
  ghost predicate ShowsRuns(runs: seq<MissingRun>, sessions: seq<Date>, bars: set<Date>,
                            blocks: seq<Segments.Segment>)
  {
    && |blocks| == |runs| && Segments.Ordered(blocks)
    && (forall s :: s in blocks <==> MaximalMissing(sessions, bars, s))
    && forall j | 0 <= j < |runs| :: blocks[j].start < blocks[j].end <= |sessions|
                                     && ShowsRun(runs[j], sessions, blocks[j].start, blocks[j].end)
  }

  lemma RunsAreLawful(sessions: seq<Date>, bars: set<Date>)
    ensures RunsLaw(MissingRunsOf(sessions, bars), sessions, bars)
  {
    var blocks, runs := Blocks(Missing(sessions, bars), |sessions|), MissingRunsOf(sessions, bars);
    RunsAreMaximal(sessions, bars);
    forall j | 0 <= j < |runs| ensures blocks[j].start < blocks[j].end <= |sessions|
                                       && ShowsRun(runs[j], sessions, blocks[j].start, blocks[j].end) {
      assert MaximalMissing(sessions, bars, blocks[j]);
      RunShapes(sessions, bars, blocks[j]);
    }
    assert ShowsRuns(runs, sessions, bars, blocks);
  }

  /** A maximal interval of selected sessions. */
  ghost predicate MaximalSelected(sessions: seq<Date>, selected: set<Date>, s: Segments.Segment) {
    && s.start < s.end <= |sessions| && (forall i | s.start <= i < s.end :: sessions[i] in selected)
    && (s.start > 0 ==> sessions[s.start - 1] !in selected) && (s.end < |sessions| ==> sessions[s.end] !in selected)
  }

  ghost predicate RangesLaw(ranges: seq<Range>, sessions: seq<Date>, selected: set<Date>) {
    exists blocks :: ShowsRanges(ranges, sessions, selected, blocks)
  }

  /** One range for each of them, in order, with its ends and its number of sessions. */
  ghost predicate ShowsRanges(ranges: seq<Range>, sessions: seq<Date>, selected: set<Date>,
                              blocks: seq<Segments.Segment>)
  {
    && |blocks| == |ranges| && Segments.Ordered(blocks)
    && (forall s :: s in blocks <==> MaximalSelected(sessions, selected, s))
    && forall j | 0 <= j < |ranges| ::
         blocks[j].start < blocks[j].end <= |sessions|
         && ranges[j] == Range(sessions[blocks[j].start], sessions[blocks[j].end - 1], blocks[j].end - blocks[j].start)
  }

  lemma RangesAreLawful(sessions: seq<Date>, selected: set<Date>)
    ensures RangesLaw(RangesOf(sessions, Blocks(Selected(sessions, selected), |sessions|)), sessions, selected)
  {
    var others := set d | d in sessions && d !in selected;
    assert Selected(sessions, selected) == Missing(sessions, others) by {
      forall i | 0 <= i < |sessions| ensures sessions[i] in selected <==> sessions[i] !in others {
        assert sessions[i] in sessions;
      }
    }
    var blocks := Blocks(Selected(sessions, selected), |sessions|);
    RunsAreMaximal(sessions, others);
    forall s ensures s in blocks <==> MaximalSelected(sessions, selected, s) {
      assert forall i | 0 <= i < |sessions| :: sessions[i] in selected <==> sessions[i] !in others;
    }
    assert ShowsRanges(RangesOf(sessions, blocks), sessions, selected, blocks);
  }

  /** The runs are exactly the maximal missing intervals, in order and disjoint. */
  lemma RunsAreMaximal(sessions: seq<Date>, bars: set<Date>)
    ensures forall s :: s in Blocks(Missing(sessions, bars), |sessions|) <==> MaximalMissing(sessions, bars, s)
    ensures Segments.Ordered(Blocks(Missing(sessions, bars), |sessions|))
  {
    Segments.RunsExact(Missing(sessions, bars), Unbroken(|sessions|), |sessions|);
    forall s ensures s in Blocks(Missing(sessions, bars), |sessions|) <==> MaximalMissing(sessions, bars, s) {
      SegmentIsMaximalMissing(sessions, bars, s);
    }
  }

  /** Where a maximal run lies decides its shape, and its shape tells where it lies. */
  lemma RunShapes(sessions: seq<Date>, bars: set<Date>, s: Segments.Segment)
    requires MaximalMissing(sessions, bars, s)
    ensures ShapeOf(sessions, bars, s) == FULL_RANGE_MISSING <==> s == Segments.Segment(0, |sessions|)
    ensures ShapeOf(sessions, bars, s) == FULL_RANGE_MISSING <==> forall i | 0 <= i < |sessions| :: sessions[i] !in bars
    ensures ShapeOf(sessions, bars, s) == LEADING_MISSING <==> s.start == 0 && s.end < |sessions|
    ensures ShapeOf(sessions, bars, s) == TRAILING_MISSING <==> s.start > 0 && s.end == |sessions|
    ensures ShapeOf(sessions, bars, s) == INTERIOR_GAP <==> s.start > 0 && s.end < |sessions|
  {
  }

  function MissingCount(sessions: seq<Date>, bars: set<Date>): nat {
    Segments.FlagCount(Missing(sessions, bars), |sessions|)
  }

  function TotalLength(runs: seq<MissingRun>): nat {
    if runs == [] then 0 else TotalLength(runs[..|runs| - 1]) + runs[|runs| - 1].length
  }

  lemma {:induction false} LengthsAreWeights(sessions: seq<Date>, bars: set<Date>, r: seq<Segments.Segment>)
    requires Segments.WithinBounds(r, |sessions|)
    ensures TotalLength(RunsOf(sessions, bars, r)) == Segments.RunsWeight(r, Segments.Units(|sessions|))
  {
    if r != [] {
      var init, s := r[..|r| - 1], r[|r| - 1];
      LengthsAreWeights(sessions, bars, init);
      Segments.UnitWeight(|sessions|, s.start, s.end);
      assert r == init + [s];
      Segments.RunsWeightSnoc(init, s, Segments.Units(|sessions|));
      assert RunsOf(sessions, bars, r)[..|r| - 1] == RunsOf(sessions, bars, init);
    }
  }

  /** The run lengths add up to the missing sessions. */
  lemma LengthsAddUp(sessions: seq<Date>, bars: set<Date>)
    ensures TotalLength(MissingRunsOf(sessions, bars)) == MissingCount(sessions, bars)
  {
    var flags, n := Missing(sessions, bars), |sessions|;
    LengthsAreWeights(sessions, bars, Blocks(flags, n));
    Segments.WeightConserved(flags, Unbroken(n), Segments.Units(n), n);
    Segments.FlagsWeigh(flags, n);
  }
}
