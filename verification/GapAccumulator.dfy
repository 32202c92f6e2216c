/** The gap accumulator of src/dev/breadth-v2-calculation.ts: totals by shape and the 25 longest interior gaps. */
module GapAccumulator {
  import opened GapRuns
  import Sorting

  datatype Counts = Counts(runCount: nat, missingSessions: nat, longestRun: nat)
  datatype Example = Example(symbol: string, fromSession: Date, throughSession: Date, lengthSessions: nat)
  datatype Entry = Entry(symbol: string, run: MissingRun)

  const KEPT := 25

  // --- The ranking: longest first, then symbol, then start ---

  predicate TextAtMost(a: string, b: string) {
    a == [] || (b != [] && (a[0] < b[0] || (a[0] == b[0] && TextAtMost(a[1..], b[1..]))))
  }

  predicate Ranks(a: Example, b: Example) {
    || a.lengthSessions > b.lengthSessions
    || (a.lengthSessions == b.lengthSessions
        && ((TextAtMost(a.symbol, b.symbol) && a.symbol != b.symbol)
            || (a.symbol == b.symbol && a.fromSession <= b.fromSession)))
  }

  lemma {:induction false} TextTotal(a: string, b: string)
    ensures TextAtMost(a, b) || TextAtMost(b, a)
    ensures TextAtMost(a, b) && TextAtMost(b, a) ==> a == b
  {
    if a != [] && b != [] && a[0] == b[0] {
      TextTotal(a[1..], b[1..]);
      assert a == [a[0]] + a[1..] && b == [b[0]] + b[1..];
    }
  }

  lemma {:induction false} TextTransitive(a: string, b: string, c: string)
    requires TextAtMost(a, b) && TextAtMost(b, c)
    ensures TextAtMost(a, c)
  {
    if a != [] && a[0] == b[0] && b[0] == c[0] {
      TextTransitive(a[1..], b[1..], c[1..]);
    }
  }

  lemma RankingIsTotal()
    ensures Sorting.TotalPreorder(Ranks)
  {
    forall a, b ensures Ranks(a, b) || Ranks(b, a) {
      TextTotal(a.symbol, b.symbol);
    }
    forall a, b, c | Ranks(a, b) && Ranks(b, c) ensures Ranks(a, c) {
      if TextAtMost(a.symbol, b.symbol) && TextAtMost(b.symbol, c.symbol) {
        TextTransitive(a.symbol, b.symbol, c.symbol);
        TextTotal(a.symbol, b.symbol);
      }
    }
  }

  // --- What the accumulator holds, as functions of everything ever added ---

  function Bump(c: Counts, length: nat): Counts {
    Counts(c.runCount + 1, c.missingSessions + length, if length > c.longestRun then length else c.longestRun)
  }

  function CountsOf(history: seq<Entry>, shape: Shape): Counts {
    if history == [] then Counts(0, 0, 0)
    else
      var c, run := CountsOf(history[..|history| - 1], shape), history[|history| - 1].run;
      if run.shape != shape then c else Bump(c, run.length)
  }

  function SecuritiesOf(history: seq<Entry>, shape: Shape): set<string> {
    set k | 0 <= k < |history| && history[k].run.shape == shape :: history[k].symbol
  }

  function ExampleOf(e: Entry): Example { Example(e.symbol, e.run.from, e.run.through, e.run.length) }

  function InteriorExamples(history: seq<Entry>): seq<Example> {
    if history == [] then []
    else
      var e := history[|history| - 1];
      InteriorExamples(history[..|history| - 1]) + if e.run.shape == INTERIOR_GAP then [ExampleOf(e)] else []
  }

  /** The first 25 of all interior gaps ever added, in rank order. */
  function TopExamples(history: seq<Entry>): seq<Example> {
    Sorting.Take(Sorting.Sort(InteriorExamples(history), Ranks), KEPT)
  }

  /** `top` is a best part of `all`: everything left out ranks behind everything in it. */
  ghost predicate BestOf(top: seq<Example>, all: seq<Example>) {
    exists rest: seq<Example> :: multiset(all) == multiset(top) + multiset(rest)
                                 && forall x, y | x in top && y in rest :: Ranks(x, y)
  }

  lemma CutIsBest(sorted: seq<Example>, all: seq<Example>, k: nat)
    requires Sorting.Sorted(sorted, Ranks) && multiset(sorted) == multiset(all)
    ensures var top := Sorting.Take(sorted, k); BestOf(top, all) && Sorting.Sorted(top, Ranks)
  {
    var top := Sorting.Take(sorted, k);
    var rest := sorted[|top|..];
    assert sorted == top + rest;
    forall x, y | x in top && y in rest ensures Ranks(x, y) {
      var i, j :| 0 <= i < |top| && top[i] == x && 0 <= j < |rest| && rest[j] == y;
      assert sorted[i] == x && sorted[|top| + j] == y;
    }
  }

  /** What that means: the kept ones are in order, nothing is invented, and every gap left out ranks behind all
      that are kept, which are then 25. */
  lemma TopExamplesMeaning(history: seq<Entry>)
    ensures var all, top := InteriorExamples(history), TopExamples(history);
            && Sorting.Sorted(top, Ranks)
            && |top| == (if |all| < KEPT then |all| else KEPT)
            && BestOf(top, all)
  {
    RankingIsTotal();
    var all := InteriorExamples(history);
    Sorting.SortSorts(all, Ranks);
    CutIsBest(Sorting.Sort(all, Ranks), all, KEPT);
  }

  /** Sorting and cutting after every addition loses nothing against sorting everything at the end. */
  lemma OnlineEqualsOffline(history: seq<Entry>, e: Entry)
    requires e.run.shape == INTERIOR_GAP
    ensures Sorting.Take(Sorting.Sort(TopExamples(history) + [ExampleOf(e)], Ranks), KEPT)
            == TopExamples(history + [e])
  {
    RankingIsTotal();
    var all, top, x := InteriorExamples(history), TopExamples(history), ExampleOf(e);
    var sorted := Sorting.Sort(all, Ranks);
    Sorting.SortSorts(all, Ranks);
    assert (top + [x])[..|top|] == top;
    Sorting.SortOfSorted(top, Ranks);
    Sorting.TakeInsertTake(sorted, x, Ranks, KEPT);
    assert (history + [e])[..|history|] == history;
    assert (all + [x])[..|all|] == all;
  }

  // --- The totals of a shape, on the entries ---

  ghost function EntriesAt(history: seq<Entry>, shape: Shape): set<nat> {
    set k: nat | k < |history| && history[k].run.shape == shape
  }

  /** No run of the shape is longer, and one is as long, unless there is none. */
  ghost predicate IsLongest(longest: nat, history: seq<Entry>, shape: Shape) {
    && (forall k: nat | k < |history| && history[k].run.shape == shape :: history[k].run.length <= longest)
    && (longest == 0 || exists k: nat :: k < |history| && history[k].run.shape == shape
                                         && history[k].run.length == longest)
  }

  /** As many runs as entries of the shape, the longest of them, and as many securities as symbols among them. */
  ghost predicate ShapeLaw(c: Counts, affected: nat, history: seq<Entry>, shape: Shape) {
    && c.runCount == |EntriesAt(history, shape)| && IsLongest(c.longestRun, history, shape)
    && affected == |set k | k in EntriesAt(history, shape) :: history[k].symbol|
  }

  lemma CountsAreLawful(history: seq<Entry>, shape: Shape)
    ensures ShapeLaw(CountsOf(history, shape), |SecuritiesOf(history, shape)|, history, shape)
  {
    assert SecuritiesOf(history, shape) == set k | k in EntriesAt(history, shape) :: history[k].symbol;
    RunsAreEntries(history, shape);
    LongestIsLongest(history, shape);
  }

  lemma {:induction false} RunsAreEntries(history: seq<Entry>, shape: Shape)
    ensures CountsOf(history, shape).runCount == |EntriesAt(history, shape)|
  {
    if history != [] {
      var n := |history| - 1;
      RunsAreEntries(history[..n], shape);
      var before := EntriesAt(history[..n], shape);
      assert EntriesAt(history, shape) == if history[n].run.shape == shape then before + {n} else before;
    }
  }

  lemma {:induction false} LongestIsLongest(history: seq<Entry>, shape: Shape)
    ensures IsLongest(CountsOf(history, shape).longestRun, history, shape)
  {
    if history != [] {
      var n := |history| - 1;
      var init, longest := history[..n], CountsOf(history, shape).longestRun;
      LongestIsLongest(init, shape);
      assert forall k: nat | k < n :: init[k] == history[k];
      if longest != 0 && longest == CountsOf(init, shape).longestRun {
        var k: nat :| k < n && init[k].run.shape == shape && init[k].run.length == longest;
        assert history[k].run.shape == shape && history[k].run.length == longest;
      }
    }
  }

  class GapShapeAccumulator {
    var counts: map<Shape, Counts>
    var securities: map<Shape, set<string>>
    var interiorExamples: seq<Example>
    ghost var history: seq<Entry>

    /** The totals and the symbols of every shape are those of the entries `h`. */
    ghost predicate Totals(h: seq<Entry>)
      reads this`counts, this`securities
    {
      && (forall s: Shape :: s in counts && counts[s] == CountsOf(h, s))
      && (forall s: Shape :: s in securities && securities[s] == SecuritiesOf(h, s))
    }

    ghost predicate Valid()
      reads this
    {
      Totals(history) && interiorExamples == TopExamples(history)
    }

    constructor ()
      ensures Valid() && history == []
    {
      counts := map[FULL_RANGE_MISSING := Counts(0, 0, 0), LEADING_MISSING := Counts(0, 0, 0),
                    INTERIOR_GAP := Counts(0, 0, 0), TRAILING_MISSING := Counts(0, 0, 0)];
      securities := map[FULL_RANGE_MISSING := {}, LEADING_MISSING := {}, INTERIOR_GAP := {}, TRAILING_MISSING := {}];
      interiorExamples := [];
      history := [];
      new;
      forall s: Shape ensures s in counts && counts[s] == Counts(0, 0, 0) && s in securities && securities[s] == {} {
        match s case FULL_RANGE_MISSING => case LEADING_MISSING => case INTERIOR_GAP => case TRAILING_MISSING =>
      }
    }

    /** Push, sort, cut to 25: the top of the entries so far becomes the top of one entry more. */
    method AddExample(x: Example, ghost h: seq<Entry>, ghost e: Entry)
      requires interiorExamples == TopExamples(h) && e.run.shape == INTERIOR_GAP && x == ExampleOf(e)
      modifies this`interiorExamples
      ensures interiorExamples == TopExamples(h + [e])
    {
      OnlineEqualsOffline(h, e);
      interiorExamples := interiorExamples + [x];
      interiorExamples := Sorting.Sort(interiorExamples, Ranks);
      if |interiorExamples| > KEPT {
        interiorExamples := interiorExamples[..KEPT];
      }
    }

    /** The totals of the entries so far become those of one entry more. */
    method AddCounts(symbol: string, run: MissingRun, ghost h: seq<Entry>)
      requires Totals(h)
      modifies this`counts, this`securities
      ensures Totals(h + [Entry(symbol, run)])
    {
      var c := counts[run.shape];
      counts := counts[run.shape := Counts(c.runCount + 1, c.missingSessions + run.length,
                                           if run.length > c.longestRun then run.length else c.longestRun)];
      securities := securities[run.shape := securities[run.shape] + {symbol}];
      HistoryGrows(h, Entry(symbol, run));
    }

    method Add(symbol: string, run: MissingRun)
      requires Valid()
      modifies this
      ensures Valid() && history == old(history) + [Entry(symbol, run)]
    {
      ghost var e := Entry(symbol, run);
      AddCounts(symbol, run, history);
      if run.shape == INTERIOR_GAP {
        AddExample(Example(symbol, run.from, run.through, run.length), history, e);
      } else {
        HistoryGrows(history, e);
      }
      history := history + [e];
    }

    /** Missing sessions inside, and elsewhere. */
    method Summary()
      returns (interior: nat, nonInterior: nat, longest: seq<Example>, shapes: map<Shape, Counts>,
               affected: map<Shape, nat>)
      requires Valid()
      ensures interior + nonInterior == TotalMissing(history)
      ensures interior == CountsOf(history, INTERIOR_GAP).missingSessions
      ensures longest == TopExamples(history)
      ensures forall s: Shape :: s in shapes && s in affected && shapes[s] == CountsOf(history, s)
                                 && ShapeLaw(shapes[s], affected[s], history, s)
    {
      interior := counts[INTERIOR_GAP].missingSessions;
      nonInterior := counts[FULL_RANGE_MISSING].missingSessions + counts[LEADING_MISSING].missingSessions
                     + counts[TRAILING_MISSING].missingSessions;
      longest := interiorExamples;
      ShapesAddUp(history);
      shapes := counts;
      affected := map s | s in securities :: |securities[s]|;
      forall s: Shape ensures ShapeLaw(CountsOf(history, s), |SecuritiesOf(history, s)|, history, s) {
        CountsAreLawful(history, s);
      }
    }
  }

  /** What one more entry changes. */
  lemma HistoryGrows(history: seq<Entry>, e: Entry)
    ensures forall s :: CountsOf(history + [e], s) ==
              if e.run.shape != s then CountsOf(history, s) else Bump(CountsOf(history, s), e.run.length)
    ensures forall s :: SecuritiesOf(history + [e], s) ==
              SecuritiesOf(history, s) + if s == e.run.shape then {e.symbol} else {}
    ensures e.run.shape != INTERIOR_GAP ==> TopExamples(history + [e]) == TopExamples(history)
  {
    assert (history + [e])[..|history|] == history;
    assert e.run.shape != INTERIOR_GAP ==> InteriorExamples(history + [e]) == InteriorExamples(history);
    forall s ensures SecuritiesOf(history + [e], s) ==
        SecuritiesOf(history, s) + if s == e.run.shape then {e.symbol} else {} {
      SecuritiesGrow(history, e, s);
    }
  }

  lemma SecuritiesGrow(history: seq<Entry>, e: Entry, s: Shape)
    ensures SecuritiesOf(history + [e], s) == SecuritiesOf(history, s) + if s == e.run.shape then {e.symbol} else {}
  {
    var more := history + [e];
    forall x ensures x in SecuritiesOf(more, s) <==>
        x in SecuritiesOf(history, s) || (s == e.run.shape && x == e.symbol) {
      if x in SecuritiesOf(history, s) {
        var k :| 0 <= k < |history| && history[k].run.shape == s && history[k].symbol == x;
        assert more[k] == history[k];
      }
      if s == e.run.shape && x == e.symbol {
        assert more[|history|] == e;
      }
    }
  }

  function TotalMissing(history: seq<Entry>): nat {
    if history == [] then 0 else TotalMissing(history[..|history| - 1]) + history[|history| - 1].run.length
  }

  /** Interior and non-interior totals together are all missing sessions added. */
  lemma {:induction false} ShapesAddUp(history: seq<Entry>)
    ensures TotalMissing(history)
            == CountsOf(history, FULL_RANGE_MISSING).missingSessions
               + CountsOf(history, LEADING_MISSING).missingSessions
               + CountsOf(history, INTERIOR_GAP).missingSessions + CountsOf(history, TRAILING_MISSING).missingSessions
  {
    if history != [] {
      ShapesAddUp(history[..|history| - 1]);
    }
  }
}
