/** The gaps of a whole revision, src/dev/breadth-v2-research.ts: every security's runs in one accumulator, read on the
    sessions and the bars. */
module GapAggregate {
  import opened GapRuns
  import opened GapAccumulator
  import Segments

  // --- A whole revision: every security's runs, one accumulator ---

  datatype Security = Security(symbol: string, bars: set<Date>)

  function AllMissing(sessions: seq<Date>, members: seq<Security>): nat {
    if members == [] then 0
    else AllMissing(sessions, members[..|members| - 1]) + MissingCount(sessions, members[|members| - 1].bars)
  }

  ghost function EntriesOf(symbol: string, runs: seq<MissingRun>): (h: seq<Entry>)
    ensures |h| == |runs|
  {
    seq(|runs|, j requires 0 <= j < |runs| => Entry(symbol, runs[j]))
  }

  /** Every gap of every security, in the order the loop meets them. */
  ghost function AllGaps(sessions: seq<Date>, members: seq<Security>): seq<Entry> {
    if members == [] then []
    else
      var m := members[|members| - 1];
      AllGaps(sessions, members[..|members| - 1]) + EntriesOf(m.symbol, MissingRunsOf(sessions, m.bars))
  }

  lemma OneMoreAdded(h: seq<Entry>, symbol: string, runs: seq<MissingRun>, j: nat)
    requires j < |runs|
    ensures EntriesOf(symbol, runs[..j + 1]) == EntriesOf(symbol, runs[..j]) + [Entry(symbol, runs[j])]
    ensures TotalLength(runs[..j + 1]) == TotalLength(runs[..j]) + runs[j].length
    ensures TotalMissing(h + [Entry(symbol, runs[j])]) == TotalMissing(h) + runs[j].length
  {
    assert runs[..j + 1][..j] == runs[..j];
    assert (h + [Entry(symbol, runs[j])])[..|h|] == h;
  }

  method AddAll(acc: GapShapeAccumulator, symbol: string, runs: seq<MissingRun>)
    requires acc.Valid()
    modifies acc
    ensures acc.Valid() && acc.history == old(acc.history) + EntriesOf(symbol, runs)
    ensures TotalMissing(acc.history) == TotalMissing(old(acc.history)) + TotalLength(runs)
  {
    ghost var before := acc.history;
    for j := 0 to |runs|
      invariant acc.Valid() && acc.history == before + EntriesOf(symbol, runs[..j])
      invariant TotalMissing(acc.history) == TotalMissing(before) + TotalLength(runs[..j])
    {
      OneMoreAdded(acc.history, symbol, runs, j);
      acc.Add(symbol, runs[j]);
    }
    assert runs[..|runs|] == runs;
  }

  // --- What that means on the sessions and the bars ---

  /** A gap of a member, by the places of its sessions. */
  datatype Place = Place(member: nat, start: nat, end: nat)

  /** Sessions `s` to `e` have no bar, and the sessions around them have one. */
  ghost predicate Interior(sessions: seq<Date>, bars: set<Date>, s: nat, e: nat) {
    && 0 < s < e < |sessions| && (forall i: nat | s <= i < e :: sessions[i] !in bars)
    && sessions[s - 1] in bars && sessions[e] in bars
  }

  ghost predicate IsGap(sessions: seq<Date>, members: seq<Security>, p: Place) {
    p.member < |members| && Interior(sessions, members[p.member].bars, p.start, p.end)
  }

  ghost predicate Shows(x: Example, sessions: seq<Date>, members: seq<Security>, p: Place) {
    && IsGap(sessions, members, p)
    && x == Example(members[p.member].symbol, sessions[p.start], sessions[p.end - 1], p.end - p.start)
  }

  /** Each gap of each member once. */
  ghost predicate Lists(all: seq<Example>, places: seq<Place>, sessions: seq<Date>, members: seq<Security>) {
    && (forall i, j | 0 <= i < j < |places| :: places[i] != places[j])
    && (forall p :: p in places <==> IsGap(sessions, members, p))
    && |all| == |places| && forall j: nat | j < |all| :: Shows(all[j], sessions, members, places[j])
  }

  /** The longer gap first; of two equally long ones the lesser symbol, and of one symbol the earlier start. */
  ghost predicate Precedes(a: Example, b: Example) {
    || a.lengthSessions > b.lengthSessions
    || (a.lengthSessions == b.lengthSessions
        && (TextBefore(a.symbol, b.symbol) || (a.symbol == b.symbol && a.fromSession <= b.fromSession)))
  }

  /** The texts agree up to a place where the first ends or has the lesser character. */
  ghost predicate TextBefore(a: string, b: string) {
    exists k: nat :: k <= |a| && k < |b| && a[..k] == b[..k] && (k == |a| || a[k] < b[k])
  }

  /** The longest are 25, or all there are, in order, and each precedes each gap left out. */
  ghost predicate LongestLaw(longest: seq<Example>, sessions: seq<Date>, members: seq<Security>) {
    exists all, places, rest :: Lists(all, places, sessions, members) && Longest(longest, all, rest)
  }

  ghost predicate Longest(longest: seq<Example>, all: seq<Example>, rest: seq<Example>) {
    && multiset(all) == multiset(longest) + multiset(rest) && |longest| == (if |all| < 25 then |all| else 25)
    && (forall i, j | 0 <= i < j < |longest| :: Precedes(longest[i], longest[j]))
    && forall x, y | x in longest && y in rest :: Precedes(x, y)
  }

  lemma {:induction false} TextOrder(a: string, b: string)
    requires TextAtMost(a, b) && a != b
    ensures TextBefore(a, b)
  {
    if a == [] || a[0] < b[0] {
      assert a[..0] == b[..0];
    } else {
      assert a == [a[0]] + a[1..] && b == [b[0]] + b[1..];
      TextOrder(a[1..], b[1..]);
      var k: nat :| k <= |a[1..]| && k < |b[1..]| && a[1..][..k] == b[1..][..k]
                    && (k == |a[1..]| || a[1..][k] < b[1..][k]);
      assert a[..k + 1] == [a[0]] + a[1..][..k] && b[..k + 1] == [b[0]] + b[1..][..k];
    }
  }

  lemma RankedPrecedes(a: Example, b: Example)
    requires Ranks(a, b)
    ensures Precedes(a, b)
  {
    if a.lengthSessions == b.lengthSessions && a.symbol != b.symbol {
      TextOrder(a.symbol, b.symbol);
    }
  }

  lemma TopIsLongest(history: seq<Entry>) returns (rest: seq<Example>)
    ensures Longest(TopExamples(history), InteriorExamples(history), rest)
  {
    TopExamplesMeaning(history);
    var all, top := InteriorExamples(history), TopExamples(history);
    rest :| multiset(all) == multiset(top) + multiset(rest) && forall x, y | x in top && y in rest :: Ranks(x, y);
    forall i, j | 0 <= i < j < |top| ensures Precedes(top[i], top[j]) {
      RankedPrecedes(top[i], top[j]);
    }
    forall x, y | x in top && y in rest ensures Precedes(x, y) {
      RankedPrecedes(x, y);
    }
  }

  // --- Every gap is listed once ---

  lemma {:induction false} InteriorSplits(a: seq<Entry>, b: seq<Entry>)
    ensures InteriorExamples(a + b) == InteriorExamples(a) + InteriorExamples(b)
  {
    if b == [] {
      assert a + b == a;
    } else {
      InteriorSplits(a, b[..|b| - 1]);
      assert (a + b)[..|a + b| - 1] == a + b[..|b| - 1];
    }
  }

  lemma InteriorBlock(sessions: seq<Date>, bars: set<Date>, s: Segments.Segment)
    requires MaximalMissing(sessions, bars, s)
    ensures ShapeOf(sessions, bars, s) == INTERIOR_GAP <==> Interior(sessions, bars, s.start, s.end)
  {
  }

  ghost predicate Maximal(sessions: seq<Date>, bars: set<Date>, blocks: seq<Segments.Segment>) {
    Segments.Ordered(blocks) && forall s | s in blocks :: MaximalMissing(sessions, bars, s)
  }

  /** The interior ones among the blocks of member `m`. */
  ghost predicate ListsBlocks(all: seq<Example>, places: seq<Place>, sessions: seq<Date>, members: seq<Security>,
                              m: nat, blocks: seq<Segments.Segment>)
    requires m < |members|
  {
    && (forall i, j | 0 <= i < j < |places| :: places[i] != places[j])
    && (forall p :: p in places <==> p.member == m && Segments.Segment(p.start, p.end) in blocks
                                     && Interior(sessions, members[m].bars, p.start, p.end))
    && |all| == |places| && forall j: nat | j < |all| :: Shows(all[j], sessions, members, places[j])
  }

  lemma BlockAdds(all: seq<Example>, places: seq<Place>, sessions: seq<Date>, members: seq<Security>, m: nat,
                  init: seq<Segments.Segment>, last: Segments.Segment)
    requires m < |members| && ListsBlocks(all, places, sessions, members, m, init) && last !in init
    requires Interior(sessions, members[m].bars, last.start, last.end)
    ensures ListsBlocks(all + [ExampleOf(Entry(members[m].symbol, RunOf(sessions, members[m].bars, last)))],
                        places + [Place(m, last.start, last.end)], sessions, members, m, init + [last])
  {
    assert forall q: Place :: Segments.Segment(q.start, q.end) in init + [last] <==>
        Segments.Segment(q.start, q.end) in init || Segments.Segment(q.start, q.end) == last;
  }

  lemma BlockAddsNothing(all: seq<Example>, places: seq<Place>, sessions: seq<Date>, members: seq<Security>, m: nat,
                         init: seq<Segments.Segment>, last: Segments.Segment)
    requires m < |members| && ListsBlocks(all, places, sessions, members, m, init)
    requires !Interior(sessions, members[m].bars, last.start, last.end)
    ensures ListsBlocks(all, places, sessions, members, m, init + [last])
  {
    assert forall q: Place :: Segments.Segment(q.start, q.end) in init + [last] <==>
        Segments.Segment(q.start, q.end) in init || Segments.Segment(q.start, q.end) == last;
  }

  ghost function ExamplesIn(sessions: seq<Date>, m: Security, blocks: seq<Segments.Segment>): seq<Example>
    requires Segments.WithinBounds(blocks, |sessions|)
  {
    InteriorExamples(EntriesOf(m.symbol, RunsOf(sessions, m.bars, blocks)))
  }

  lemma ExamplesOneMore(sessions: seq<Date>, m: Security, blocks: seq<Segments.Segment>)
    requires blocks != [] && Segments.WithinBounds(blocks, |sessions|)
    ensures var init, last := blocks[..|blocks| - 1], blocks[|blocks| - 1];
            && Segments.WithinBounds(init, |sessions|)
            && ExamplesIn(sessions, m, blocks)
               == ExamplesIn(sessions, m, init)
                  + if ShapeOf(sessions, m.bars, last) == INTERIOR_GAP
                    then [ExampleOf(Entry(m.symbol, RunOf(sessions, m.bars, last)))] else []
  {
    var n := |blocks| - 1;
    var entries := EntriesOf(m.symbol, RunsOf(sessions, m.bars, blocks));
    assert entries[..n] == EntriesOf(m.symbol, RunsOf(sessions, m.bars, blocks[..n]));
    assert entries[n] == Entry(m.symbol, RunOf(sessions, m.bars, blocks[n]));
  }

  lemma {:induction false} BlocksListed(sessions: seq<Date>, members: seq<Security>, m: nat,
                                        blocks: seq<Segments.Segment>) returns (places: seq<Place>)
    requires m < |members| && Maximal(sessions, members[m].bars, blocks)
    requires Segments.WithinBounds(blocks, |sessions|)
    ensures ListsBlocks(ExamplesIn(sessions, members[m], blocks), places, sessions, members, m, blocks)
  {
    places := [];
    if blocks != [] {
      var n := |blocks| - 1;
      var init, last := blocks[..n], blocks[n];
      places := BlocksListed(sessions, members, m, init);
      ExamplesOneMore(sessions, members[m], blocks);
      assert blocks == init + [last] && last !in init && MaximalMissing(sessions, members[m].bars, last);
      InteriorBlock(sessions, members[m].bars, last);
      if Interior(sessions, members[m].bars, last.start, last.end) {
        BlockAdds(ExamplesIn(sessions, members[m], init), places, sessions, members, m, init, last);
        places := places + [Place(m, last.start, last.end)];
      } else {
        BlockAddsNothing(ExamplesIn(sessions, members[m], init), places, sessions, members, m, init, last);
      }
    }
  }

  lemma MemberListed(sessions: seq<Date>, members: seq<Security>, m: nat)
    returns (places: seq<Place>, blocks: seq<Segments.Segment>)
    requires m < |members|
    ensures Segments.WithinBounds(blocks, |sessions|)
    ensures MissingRunsOf(sessions, members[m].bars) == RunsOf(sessions, members[m].bars, blocks)
    ensures ListsBlocks(ExamplesIn(sessions, members[m], blocks), places, sessions, members, m, blocks)
    ensures HasInterior(sessions, members[m].bars, blocks)
  {
    var bars := members[m].bars;
    blocks := Blocks(Missing(sessions, bars), |sessions|);
    RunsAreMaximal(sessions, bars);
    places := BlocksListed(sessions, members, m, blocks);
    forall s: nat, e: nat | Interior(sessions, bars, s, e) ensures Segments.Segment(s, e) in blocks {
      assert MaximalMissing(sessions, bars, Segments.Segment(s, e));
    }
  }

  ghost predicate HasInterior(sessions: seq<Date>, bars: set<Date>, blocks: seq<Segments.Segment>) {
    forall s: nat, e: nat | Interior(sessions, bars, s, e) :: Segments.Segment(s, e) in blocks
  }

  lemma {:induction false} GapsListed(sessions: seq<Date>, members: seq<Security>) returns (places: seq<Place>)
    ensures Lists(InteriorExamples(AllGaps(sessions, members)), places, sessions, members)
  {
    places := [];
    if members != [] {
      var n := |members| - 1;
      var before := GapsListed(sessions, members[..n]);
      var all := InteriorExamples(AllGaps(sessions, members[..n]));
      var added, blocks := MemberListed(sessions, members, n);
      var more := ExamplesIn(sessions, members[n], blocks);
      assert InteriorExamples(AllGaps(sessions, members)) == all + more by {
        InteriorSplits(AllGaps(sessions, members[..n]),
                       EntriesOf(members[n].symbol, RunsOf(sessions, members[n].bars, blocks)));
      }
      MemberAdds(sessions, members, all, before, more, added, blocks);
      places := before + added;
    }
  }

  lemma MemberAdds(sessions: seq<Date>, members: seq<Security>, all: seq<Example>, places: seq<Place>,
                   more: seq<Example>, added: seq<Place>, blocks: seq<Segments.Segment>)
    requires members != [] && Lists(all, places, sessions, members[..|members| - 1])
    requires ListsBlocks(more, added, sessions, members, |members| - 1, blocks)
    requires HasInterior(sessions, members[|members| - 1].bars, blocks)
    ensures Lists(all + more, places + added, sessions, members)
  {
    var n := |members| - 1;
    var init := members[..n];
    forall p ensures p in places + added <==> IsGap(sessions, members, p) {
      assert p in places <==> IsGap(sessions, init, p);
      assert p.member < n ==> (IsGap(sessions, init, p) <==> IsGap(sessions, members, p));
    }
    forall i, j | 0 <= i < j < |places + added| ensures (places + added)[i] != (places + added)[j] {
      if i < |places| <= j {
        assert places[i] in places && added[j - |places|] in added;
      }
    }
    forall j: nat | j < |all + more| ensures Shows((all + more)[j], sessions, members, (places + added)[j]) {
      if j < |all| {
        assert Shows(all[j], sessions, init, places[j]);
      }
    }
  }

  lemma LongestIsLawful(sessions: seq<Date>, members: seq<Security>)
    ensures LongestLaw(TopExamples(AllGaps(sessions, members)), sessions, members)
  {
    var places := GapsListed(sessions, members);
    var rest := TopIsLongest(AllGaps(sessions, members));
  }

  // --- Counting sessions ---

  /** Session `i` has no bar but lies between two that have one. */
  ghost predicate Between(sessions: seq<Date>, bars: set<Date>, i: nat) {
    && i < |sessions| && sessions[i] !in bars
    && (exists j: nat :: j < i && sessions[j] in bars) && exists j: nat :: i < j < |sessions| && sessions[j] in bars
  }

  /** The missing sessions of the first `n` members, by member and place. */
  ghost function MissingPlaces(sessions: seq<Date>, members: seq<Security>, n: nat): set<(nat, nat)> {
    set m: nat, i: nat | m < n && m < |members| && i < |sessions| && sessions[i] !in members[m].bars :: (m, i)
  }

  ghost function BetweenPlaces(sessions: seq<Date>, members: seq<Security>, n: nat): set<(nat, nat)> {
    set m: nat, i: nat | m < n && m < |members| && i < |sessions| && Between(sessions, members[m].bars, i) :: (m, i)
  }

  /** Inner gaps count the missing sessions between bars; the other total counts the missing ones that are not. */
  ghost predicate TotalsLaw(interior: nat, nonInterior: nat, sessions: seq<Date>, members: seq<Security>) {
    && interior == |BetweenPlaces(sessions, members, |members|)|
    && nonInterior == |MissingPlaces(sessions, members, |members|) - BetweenPlaces(sessions, members, |members|)|
  }

  ghost function OfMember(a: set<nat>, m: nat): set<(nat, nat)> { set i | i in a :: (m, i) }

  lemma {:induction false} PlacesOfMember(a: set<nat>, m: nat)
    ensures |OfMember(a, m)| == |a|
  {
    if a == {} {
      assert OfMember(a, m) == {};
    } else {
      var x :| x in a;
      PlacesOfMember(a - {x}, m);
      assert OfMember(a, m) == OfMember(a - {x}, m) + {(m, x)} && (m, x) !in OfMember(a - {x}, m);
    }
  }

  ghost function BetweenSet(sessions: seq<Date>, bars: set<Date>): set<nat> {
    set i: nat | i < |sessions| && Between(sessions, bars, i)
  }

  ghost function MissingSet(sessions: seq<Date>, bars: set<Date>): set<nat> {
    set i: nat | i < |sessions| && sessions[i] !in bars
  }

  ghost function BetweenFlags(sessions: seq<Date>, bars: set<Date>): (r: seq<bool>)
    ensures |r| == |sessions|
  {
    seq(|sessions|, i requires 0 <= i < |sessions| => Between(sessions, bars, i))
  }

  /** Sessions between bars weigh one. */
  ghost function BetweenWeights(sessions: seq<Date>, bars: set<Date>): (w: seq<int>)
    ensures |w| == |sessions|
  {
    seq(|sessions|, i requires 0 <= i < |sessions| => if Between(sessions, bars, i) then 1 else 0)
  }

  lemma {:induction false} BlockWeighs(sessions: seq<Date>, bars: set<Date>, s: Segments.Segment, end: nat)
    requires MaximalMissing(sessions, bars, s) && s.start <= end <= s.end
    ensures Segments.WeightBetween(BetweenWeights(sessions, bars), s.start, end)
            == if ShapeOf(sessions, bars, s) == INTERIOR_GAP then end - s.start else 0
    decreases end
  {
    if s.start < end {
      BlockWeighs(sessions, bars, s, end - 1);
      BetweenInBlock(sessions, bars, s, end - 1);
    }
  }

  lemma BetweenInBlock(sessions: seq<Date>, bars: set<Date>, s: Segments.Segment, i: nat)
    requires MaximalMissing(sessions, bars, s) && s.start <= i < s.end
    ensures Between(sessions, bars, i) <==> ShapeOf(sessions, bars, s) == INTERIOR_GAP
  {
    RunShapes(sessions, bars, s);
    if s.start > 0 && s.end < |sessions| {
      assert sessions[s.start - 1] in bars && sessions[s.end] in bars;
    }
  }

  lemma {:induction false} BlocksWeigh(sessions: seq<Date>, bars: set<Date>, symbol: string,
                                       blocks: seq<Segments.Segment>)
    requires Segments.WithinBounds(blocks, |sessions|) && Maximal(sessions, bars, blocks)
    ensures CountsOf(EntriesOf(symbol, RunsOf(sessions, bars, blocks)), INTERIOR_GAP).missingSessions
            == Segments.RunsWeight(blocks, BetweenWeights(sessions, bars))
  {
    if blocks != [] {
      var n := |blocks| - 1;
      var init, last := blocks[..n], blocks[n];
      BlocksWeigh(sessions, bars, symbol, init);
      var entries := EntriesOf(symbol, RunsOf(sessions, bars, blocks));
      assert entries[..n] == EntriesOf(symbol, RunsOf(sessions, bars, init));
      assert entries[n] == Entry(symbol, RunOf(sessions, bars, last));
      BlockWeighs(sessions, bars, last, last.end);
    }
  }

  lemma {:induction false} BetweenWeighs(sessions: seq<Date>, bars: set<Date>, n: nat)
    requires n <= |sessions|
    ensures Segments.InsideWeight(Missing(sessions, bars), BetweenWeights(sessions, bars), n)
            == Segments.FlagCount(BetweenFlags(sessions, bars), n)
  {
    if n > 0 {
      BetweenWeighs(sessions, bars, n - 1);
    }
  }

  /** The interior total of one security is the number of its sessions between bars. */
  lemma MemberCounts(sessions: seq<Date>, m: Security)
    ensures CountsOf(EntriesOf(m.symbol, MissingRunsOf(sessions, m.bars)), INTERIOR_GAP).missingSessions
            == |BetweenSet(sessions, m.bars)|
  {
    var flags, n := Missing(sessions, m.bars), |sessions|;
    RunsAreMaximal(sessions, m.bars);
    BlocksWeigh(sessions, m.bars, m.symbol, Blocks(flags, n));
    Segments.WeightConserved(flags, Unbroken(n), BetweenWeights(sessions, m.bars), n);
    BetweenWeighs(sessions, m.bars, n);
    Segments.FlagCardinality(BetweenFlags(sessions, m.bars), n);
    assert Segments.Flagged(BetweenFlags(sessions, m.bars), n) == BetweenSet(sessions, m.bars);
  }

  lemma MemberMisses(sessions: seq<Date>, bars: set<Date>)
    ensures MissingCount(sessions, bars) == |MissingSet(sessions, bars)|
  {
    Segments.FlagCardinality(Missing(sessions, bars), |sessions|);
    assert Segments.Flagged(Missing(sessions, bars), |sessions|) == MissingSet(sessions, bars);
  }

  lemma {:induction false} CountsSplit(a: seq<Entry>, b: seq<Entry>, s: Shape)
    ensures CountsOf(a + b, s).missingSessions == CountsOf(a, s).missingSessions + CountsOf(b, s).missingSessions
  {
    if b == [] {
      assert a + b == a;
    } else {
      CountsSplit(a, b[..|b| - 1], s);
      assert (a + b)[..|a + b| - 1] == a + b[..|b| - 1];
    }
  }

  lemma OneMoreBetween(sessions: seq<Date>, members: seq<Security>, n: nat)
    requires n < |members|
    ensures |BetweenPlaces(sessions, members, n + 1)|
            == |BetweenPlaces(sessions, members, n)| + |BetweenSet(sessions, members[n].bars)|
  {
    var before, more := BetweenPlaces(sessions, members, n), OfMember(BetweenSet(sessions, members[n].bars), n);
    PlacesOfMember(BetweenSet(sessions, members[n].bars), n);
    forall p ensures p in BetweenPlaces(sessions, members, n + 1) <==> p in before || p in more {
      assert p == (p.0, p.1);
    }
    assert BetweenPlaces(sessions, members, n + 1) == before + more && before !! more;
  }

  lemma OneMoreMissing(sessions: seq<Date>, members: seq<Security>, n: nat)
    requires n < |members|
    ensures |MissingPlaces(sessions, members, n + 1)|
            == |MissingPlaces(sessions, members, n)| + |MissingSet(sessions, members[n].bars)|
  {
    var before, more := MissingPlaces(sessions, members, n), OfMember(MissingSet(sessions, members[n].bars), n);
    PlacesOfMember(MissingSet(sessions, members[n].bars), n);
    forall p ensures p in MissingPlaces(sessions, members, n + 1) <==> p in before || p in more {
      assert p == (p.0, p.1);
    }
    assert MissingPlaces(sessions, members, n + 1) == before + more && before !! more;
  }

  lemma {:induction false} TotalsCount(sessions: seq<Date>, members: seq<Security>, n: nat)
    requires n <= |members|
    ensures CountsOf(AllGaps(sessions, members[..n]), INTERIOR_GAP).missingSessions
            == |BetweenPlaces(sessions, members, n)|
    ensures AllMissing(sessions, members[..n]) == |MissingPlaces(sessions, members, n)|
  {
    if n == 0 {
      assert BetweenPlaces(sessions, members, 0) == {} && MissingPlaces(sessions, members, 0) == {};
    } else {
      var m := members[n - 1];
      TotalsCount(sessions, members, n - 1);
      assert members[..n][..n - 1] == members[..n - 1];
      MemberCounts(sessions, m);
      CountsSplit(AllGaps(sessions, members[..n - 1]), EntriesOf(m.symbol, MissingRunsOf(sessions, m.bars)),
                  INTERIOR_GAP);
      MemberMisses(sessions, m.bars);
      OneMoreBetween(sessions, members, n - 1);
      OneMoreMissing(sessions, members, n - 1);
    }
  }

  lemma TotalsAreLawful(interior: nat, nonInterior: nat, sessions: seq<Date>, members: seq<Security>)
    requires interior + nonInterior == AllMissing(sessions, members)
    requires interior == CountsOf(AllGaps(sessions, members), INTERIOR_GAP).missingSessions
    ensures TotalsLaw(interior, nonInterior, sessions, members)
  {
    var n := |members|;
    TotalsCount(sessions, members, n);
    assert members[..n] == members;
    var inner, missing := BetweenPlaces(sessions, members, n), MissingPlaces(sessions, members, n);
    assert inner <= missing && missing == inner + (missing - inner);
  }

  method AggregateGaps(sessions: seq<Date>, members: seq<Security>)
    returns (interior: nat, nonInterior: nat, longest: seq<Example>)
    ensures interior + nonInterior == AllMissing(sessions, members)
    ensures interior == CountsOf(AllGaps(sessions, members), INTERIOR_GAP).missingSessions
    ensures longest == TopExamples(AllGaps(sessions, members))
    ensures TotalsLaw(interior, nonInterior, sessions, members) && LongestLaw(longest, sessions, members)
  {
    var acc := new GapShapeAccumulator();
    for i := 0 to |members|
      invariant acc.Valid() && fresh(acc)
      invariant TotalMissing(acc.history) == AllMissing(sessions, members[..i])
      invariant acc.history == AllGaps(sessions, members[..i])
    {
      var runs := MissingRuns(sessions, members[i].bars);
      AddAll(acc, members[i].symbol, runs);
      LengthsAddUp(sessions, members[i].bars);
      assert members[..i + 1][..i] == members[..i];
    }
    assert members[..|members|] == members;
    var shapes, affected;
    interior, nonInterior, longest, shapes, affected := acc.Summary();
    TotalsAreLawful(interior, nonInterior, sessions, members);
    LongestIsLawful(sessions, members);
  }
}
