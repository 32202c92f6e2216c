/** Transition, run and 20/40 accounting of src/dev/participation-analysis.ts over validated report days. */
module ParticipationAnalysis {
  import opened Wrappers
  import opened PanelMedian
  import Segments

  type Date = int
  /** A validated day: the panel medians, where the panel is valid. */
  datatype Day = Day(date: Date, panel20: Option<real>, panel40: Option<real>)
  datatype Run = Run(state: State, from: Date, to: Date, values: seq<real>)
  /** Rows by the state left, columns by the state entered. */
  type Matrix = map<State, map<State, nat>>
  datatype Transitions = Transitions(comparable: nat, changes: nat, matrix: Matrix, changesMatrix: Matrix,
                                     runs: seq<Run>)
  datatype Control = Control(paired: nat, same: nat, adjacent: nat, multiLevel: nat, confusion: Matrix)

  ghost predicate ValidDays(days: seq<Day>) {
    forall i | 0 <= i < |days| :: (days[i].panel20.Some? ==> days[i].panel20.value >= 0.0)
                               && (days[i].panel40.Some? ==> days[i].panel40.value >= 0.0)
  }

  function StateOf(panel: Option<real>): Option<State>
    requires panel.Some? ==> panel.value >= 0.0
  {
    if panel.None? then None else Some(ClassifyParticipation(panel.value).value)
  }

  function States20(days: seq<Day>): (s: seq<Option<State>>)
    requires ValidDays(days)
    ensures |s| == |days|
  {
    seq(|days|, i requires 0 <= i < |days| => StateOf(days[i].panel20))
  }

  function States40(days: seq<Day>): (s: seq<Option<State>>)
    requires ValidDays(days)
    ensures |s| == |days|
  {
    seq(|days|, i requires 0 <= i < |days| => StateOf(days[i].panel40))
  }

  // --- Counting on a sequence of states, independently of the loop ---

  function Bit(b: bool): nat { if b then 1 else 0 }

  function Occurs(s: seq<Option<State>>, a: State): nat {
    if s == [] then 0 else Occurs(s[..|s| - 1], a) + Bit(s[|s| - 1] == Some(a))
  }

  /** Adjacent pairs of days from `a` to `b`. */
  function Steps(s: seq<Option<State>>, a: State, b: State): nat {
    if |s| < 2 then 0 else Steps(s[..|s| - 1], a, b) + Bit(s[|s| - 2] == Some(a) && s[|s| - 1] == Some(b))
  }

  /** Days in `a` that no valid day precedes, and days in `a` that no valid day follows. */
  function Starts(s: seq<Option<State>>, a: State): nat {
    if s == [] then 0
    else Starts(s[..|s| - 1], a) + Bit(s[|s| - 1] == Some(a) && (|s| == 1 || s[|s| - 2].None?))
  }

  function Ends(s: seq<Option<State>>, a: State): nat {
    if s == [] then 0
    else EndsBefore(s, a, |s| - 1) + Bit(s[|s| - 1] == Some(a))
  }

  function EndsBefore(s: seq<Option<State>>, a: State, n: nat): nat
    requires n < |s|
  {
    if n == 0 then 0 else EndsBefore(s, a, n - 1) + Bit(s[n - 1] == Some(a) && s[n].None?)
  }

  function Into(s: seq<Option<State>>, a: State): nat {
    Steps(s, QUIET, a) + Steps(s, NORMAL, a) + Steps(s, ACTIVE, a) + Steps(s, INTENSE, a)
  }

  function OutOf(s: seq<Option<State>>, a: State): nat {
    Steps(s, a, QUIET) + Steps(s, a, NORMAL) + Steps(s, a, ACTIVE) + Steps(s, a, INTENSE)
  }

  function BlockCount(s: seq<Option<State>>): nat {
    Starts(s, QUIET) + Starts(s, NORMAL) + Starts(s, ACTIVE) + Starts(s, INTENSE)
  }

  function ValidCount(s: seq<Option<State>>): nat {
    Occurs(s, QUIET) + Occurs(s, NORMAL) + Occurs(s, ACTIVE) + Occurs(s, INTENSE)
  }

  lemma FourStates(x: Option<State>)
    ensures x == None || x == Some(QUIET) || x == Some(NORMAL) || x == Some(ACTIVE) || x == Some(INTENSE)
  {
    if x.Some? {
      match x.value case QUIET => case NORMAL => case ACTIVE => case INTENSE =>
    }
  }

  /** Conservation: every day in a state was entered from a day before, or starts a block. */
  lemma {:induction false} Inflow(s: seq<Option<State>>, a: State)
    ensures Occurs(s, a) == Into(s, a) + Starts(s, a)
  {
    if s != [] {
      Inflow(s[..|s| - 1], a);
      if |s| >= 2 {
        FourStates(s[|s| - 2]);
      }
    }
  }

  lemma {:induction false} OutflowUpTo(s: seq<Option<State>>, a: State, n: nat)
    requires n < |s|
    ensures Occurs(s[..n], a) == OutOf(s[..n + 1], a) + EndsBefore(s, a, n)
  {
    if n > 0 {
      OutflowUpTo(s, a, n - 1);
      FourStates(s[n]);
      assert s[..n][..n - 1] == s[..n - 1] && s[..n + 1][..n] == s[..n];
    }
  }

  /** And every day in a state is left for the day after, or ends a block. */
  lemma Outflow(s: seq<Option<State>>, a: State)
    ensures Occurs(s, a) == OutOf(s, a) + Ends(s, a)
  {
    if s != [] {
      OutflowUpTo(s, a, |s| - 1);
      assert s[..|s| - 1 + 1] == s;
    }
  }

  // --- The loop ---

  /** Pairs of adjacent valid days, and those among them whose state differs. */
  function Comparable(s: seq<Option<State>>): nat {
    if |s| < 2 then 0 else Comparable(s[..|s| - 1]) + Bit(s[|s| - 2].Some? && s[|s| - 1].Some?)
  }

  function Changes(s: seq<Option<State>>): nat {
    if |s| < 2 then 0
    else Changes(s[..|s| - 1]) + Bit(s[|s| - 2].Some? && s[|s| - 1].Some? && s[|s| - 2] != s[|s| - 1])
  }

  function Diagonal(s: seq<Option<State>>): nat {
    Steps(s, QUIET, QUIET) + Steps(s, NORMAL, NORMAL) + Steps(s, ACTIVE, ACTIVE) + Steps(s, INTENSE, INTENSE)
  }

  /** The matrix holds every comparable pair once; off its diagonal are the changes; and every valid day is either
      reached by a comparable pair or starts a block. */
  lemma MatrixTotals(s: seq<Option<State>>)
    ensures Comparable(s) == OutOf(s, QUIET) + OutOf(s, NORMAL) + OutOf(s, ACTIVE) + OutOf(s, INTENSE)
    ensures Changes(s) + Diagonal(s) == Comparable(s)
    ensures ValidCount(s) == Comparable(s) + BlockCount(s)
  {
    CellsTotal(s);
    ChangesTotal(s);
    Inflow(s, QUIET);
    Inflow(s, NORMAL);
    Inflow(s, ACTIVE);
    Inflow(s, INTENSE);
  }

  lemma {:induction false} CellsTotal(s: seq<Option<State>>)
    ensures Comparable(s) == OutOf(s, QUIET) + OutOf(s, NORMAL) + OutOf(s, ACTIVE) + OutOf(s, INTENSE)
  {
    if |s| >= 2 {
      CellsTotal(s[..|s| - 1]);
      FourStates(s[|s| - 1]);
      FourStates(s[|s| - 2]);
    }
  }

  lemma {:induction false} ChangesTotal(s: seq<Option<State>>)
    ensures Changes(s) + Diagonal(s) == Comparable(s)
  {
    if |s| >= 2 {
      ChangesTotal(s[..|s| - 1]);
      FourStates(s[|s| - 1]);
      FourStates(s[|s| - 2]);
    }
  }

  predicate Has(m: Matrix, a: State, b: State) { a in m && b in m[a] }

  function Plus(m: Matrix, a: State, b: State): Matrix
    requires Has(m, a, b)
  {
    m[a := m[a][b := m[a][b] + 1]]
  }

  ghost predicate Tallies(m: Matrix, s: seq<Option<State>>, diagonal: bool) {
    forall a: State, b: State :: Has(m, a, b) && m[a][b] == if a == b && !diagonal then 0 else Steps(s, a, b)
  }

  function Inside(s: seq<Option<State>>): (r: seq<bool>)
    ensures |r| == |s|
  {
    seq(|s|, i requires 0 <= i < |s| => s[i].Some?)
  }

  /** A day continues the run of the day before when the state is the same. */
  function Same(s: seq<Option<State>>): (r: seq<bool>)
    ensures |r| == |s|
  {
    seq(|s|, i requires 0 <= i < |s| => i > 0 && s[i - 1] == s[i])
  }

  /** A block of days that all have a panel. */
  predicate Full(days: seq<Day>, x: Segments.Segment) {
    x.start < x.end <= |days| && forall i | x.start <= i < x.end :: days[i].panel20.Some?
  }

  function ValuesOf(days: seq<Day>, x: Segments.Segment): (v: seq<real>)
    requires Full(days, x)
    ensures |v| == x.end - x.start
  {
    seq(x.end - x.start, i requires 0 <= i < x.end - x.start => days[x.start + i].panel20.value)
  }

  function RunOf(days: seq<Day>, x: Segments.Segment): Run
    requires ValidDays(days) && Full(days, x)
  {
    Run(StateOf(days[x.start].panel20).value, days[x.start].date, days[x.end - 1].date, ValuesOf(days, x))
  }

  function RunsOf(days: seq<Day>, r: seq<Segments.Segment>): (runs: seq<Run>)
    requires ValidDays(days) && forall j | 0 <= j < |r| :: Full(days, r[j])
    ensures |runs| == |r|
  {
    seq(|r|, j requires 0 <= j < |r| => RunOf(days, r[j]))
  }

  function StateBlocks(s: seq<Option<State>>, n: nat): seq<Segments.Segment>
    requires n <= |s|
  {
    Segments.Runs(Inside(s), Same(s), n)
  }

  /** Every block is full and of one state. */
  lemma BlockFacts(days: seq<Day>, n: nat, j: nat)
    requires ValidDays(days) && n <= |days| && j < |StateBlocks(States20(days), n)|
    ensures var x := StateBlocks(States20(days), n)[j];
            && Full(days, x) && x.end <= n
            && forall i | x.start <= i < x.end :: States20(days)[i] == States20(days)[x.start]
  {
    var s := States20(days);
    Segments.RunIsSegment(Inside(s), Same(s), n, j);
    var x := StateBlocks(s, n)[j];
    forall i | x.start <= i < x.end ensures days[i].panel20.Some? {
      assert Inside(s)[i];
    }
    OneState(s, n, x, x.end);
  }

  lemma {:induction false} OneState(s: seq<Option<State>>, n: nat, x: Segments.Segment, end: nat)
    requires n <= |s| && Segments.IsSegment(Inside(s), Same(s), n, x) && x.start < end <= x.end
    ensures forall i | x.start <= i < end :: s[i] == s[x.start]
    decreases end
  {
    if end - 1 > x.start {
      OneState(s, n, x, end - 1);
      assert Segments.Continues(Inside(s), Same(s), end - 1);
      assert Same(s)[end - 1] && s[end - 2] == s[end - 1];
    }
  }

  ghost predicate Lists(days: seq<Day>, n: nat, runs: seq<Run>)
    requires ValidDays(days) && n <= |days|
  {
    (forall j | 0 <= j < |StateBlocks(States20(days), n)| :: Full(days, StateBlocks(States20(days), n)[j]))
    && runs == RunsOf(days, StateBlocks(States20(days), n))
  }

  /** The list after a day: an invalid day leaves it, the same state extends the last run, another starts one. */
  function Advance(runs: seq<Run>, previous: Option<State>, d: Day): seq<Run>
    requires d.panel20.Some? ==> d.panel20.value >= 0.0
    requires previous.Some? ==> runs != []
  {
    var state, k := StateOf(d.panel20), |runs| - 1;
    if state.None? then runs
    else if previous == state
    then runs[..k] + [Run(runs[k].state, runs[k].from, d.date, runs[k].values + [d.panel20.value])]
    else runs + [Run(state.value, d.date, d.date, [d.panel20.value])]
  }

  lemma RunsSnoc(days: seq<Day>, r: seq<Segments.Segment>, x: Segments.Segment)
    requires ValidDays(days) && Full(days, x) && forall j | 0 <= j < |r| :: Full(days, r[j])
    ensures forall j | 0 <= j < |r + [x]| :: Full(days, (r + [x])[j])
    ensures RunsOf(days, r + [x]) == RunsOf(days, r) + [RunOf(days, x)]
  {
  }

  lemma BlocksOneMore(s: seq<Option<State>>, n: nat)
    requires n < |s|
    ensures var r, r', k := StateBlocks(s, n), StateBlocks(s, n + 1), |StateBlocks(s, n)| - 1;
            if s[n].None? then r' == r
            else if n > 0 && s[n - 1] == s[n]
            then k >= 0 && r[k].end == n && r' == r[..k] + [Segments.Segment(r[k].start, n + 1)]
            else r' == r + [Segments.Segment(n, n + 1)]
  {
  }

  lemma BlocksFull(days: seq<Day>, n: nat)
    requires ValidDays(days) && n <= |days|
    ensures forall j | 0 <= j < |StateBlocks(States20(days), n)| :: Full(days, StateBlocks(States20(days), n)[j])
  {
    forall j: nat | j < |StateBlocks(States20(days), n)| ensures Full(days, StateBlocks(States20(days), n)[j]) {
      BlockFacts(days, n, j);
    }
  }

  /** What one more day does to the list of runs. */
  lemma ListsOneMore(days: seq<Day>, n: nat, runs: seq<Run>)
    requires ValidDays(days) && n < |days| && Lists(days, n, runs)
    ensures var previous := if n > 0 then States20(days)[n - 1] else None;
            && (previous.Some? ==> runs != [])
            && Lists(days, n + 1, Advance(runs, previous, days[n]))
  {
    var s := States20(days);
    var r := StateBlocks(s, n);
    BlocksFull(days, n + 1);
    BlocksOneMore(s, n);
    if s[n].Some? {
      if n > 0 && s[n - 1] == s[n] {
        var k := |r| - 1;
        BlockFacts(days, n, k);
        ExtendLast(days, r[..k], r[k]);
        assert r == r[..k] + [r[k]];
      } else {
        StartNew(days, r, n);
      }
    }
  }

  lemma ExtendLast(days: seq<Day>, r: seq<Segments.Segment>, x: Segments.Segment)
    requires ValidDays(days) && x.end < |days| && Full(days, x) && Full(days, Segments.Segment(x.start, x.end + 1))
    requires forall j | 0 <= j < |r| :: Full(days, r[j])
    requires States20(days)[x.end] == States20(days)[x.start]
    ensures forall j | 0 <= j < |r + [x]| :: Full(days, (r + [x])[j])
    ensures var more := r + [Segments.Segment(x.start, x.end + 1)];
            && (forall j | 0 <= j < |more| :: Full(days, more[j]))
            && RunsOf(days, more) == Advance(RunsOf(days, r + [x]), States20(days)[x.end], days[x.end])
  {
    RunsSnoc(days, r, x);
    RunsSnoc(days, r, Segments.Segment(x.start, x.end + 1));
    ValuesGrow(days, x);
  }

  lemma StartNew(days: seq<Day>, r: seq<Segments.Segment>, n: nat)
    requires ValidDays(days) && n < |days| && days[n].panel20.Some? && forall j | 0 <= j < |r| :: Full(days, r[j])
    ensures var more := r + [Segments.Segment(n, n + 1)];
            && (forall j | 0 <= j < |more| :: Full(days, more[j]))
            && RunsOf(days, more) == RunsOf(days, r)
               + [Run(States20(days)[n].value, days[n].date, days[n].date, [days[n].panel20.value])]
  {
    var x := Segments.Segment(n, n + 1);
    RunsSnoc(days, r, x);
    assert ValuesOf(days, x) == [days[n].panel20.value];
  }

  lemma ValuesGrow(days: seq<Day>, x: Segments.Segment)
    requires Full(days, x) && Full(days, Segments.Segment(x.start, x.end + 1))
    ensures ValuesOf(days, Segments.Segment(x.start, x.end + 1)) == ValuesOf(days, x) + [days[x.end].panel20.value]
  {
  }

  const ZEROS: map<State, nat> := map[QUIET := 0, NORMAL := 0, ACTIVE := 0, INTENSE := 0]
  const EMPTY: Matrix := map[QUIET := ZEROS, NORMAL := ZEROS, ACTIVE := ZEROS, INTENSE := ZEROS]

  lemma EmptyMatrix(a: State, b: State)
    ensures Has(EMPTY, a, b) && EMPTY[a][b] == 0
  {
    FourStates(Some(a));
    FourStates(Some(b));
  }

  function Pair(s: seq<Option<State>>, i: nat): Option<(State, State)>
    requires i < |s|
  {
    if i > 0 && s[i - 1].Some? && s[i].Some? then Some((s[i - 1].value, s[i].value)) else None
  }

  /** What one more day does to a matrix and to the counters. */
  lemma TalliesOneMore(s: seq<Option<State>>, i: nat, m: Matrix, diagonal: bool)
    requires i < |s| && Tallies(m, s[..i], diagonal)
    ensures var p := Pair(s, i);
            Tallies(if p.Some? && (diagonal || p.value.0 != p.value.1) then Plus(m, p.value.0, p.value.1) else m,
                    s[..i + 1], diagonal)
  {
    assert s[..i + 1][..i] == s[..i];
  }

  lemma CountersOneMore(s: seq<Option<State>>, i: nat)
    requires i < |s|
    ensures var p := Pair(s, i);
            && Comparable(s[..i + 1]) == Comparable(s[..i]) + Bit(p.Some?)
            && Changes(s[..i + 1]) == Changes(s[..i]) + Bit(p.Some? && p.value.0 != p.value.1)
  {
    assert s[..i + 1][..i] == s[..i];
  }

  /** One comparable pair, in both matrices. */
  method CountPair(matrix: Matrix, changesMatrix: Matrix, from: State, to: State) returns (m: Matrix, c: Matrix)
    requires Has(matrix, from, to) && Has(changesMatrix, from, to)
    ensures m == Plus(matrix, from, to)
    ensures c == if from != to then Plus(changesMatrix, from, to) else changesMatrix
  {
    m, c := matrix[from := matrix[from][to := matrix[from][to] + 1]], changesMatrix;
    if from != to {
      c := c[from := c[from][to := c[from][to] + 1]];
    }
  }

  /** A day with a panel: the runs of the days so far become those of one day more. */
  method AdvanceRuns(runs: seq<Run>, previous: Option<State>, d: Day, ghost days: seq<Day>, ghost n: nat)
    returns (runs': seq<Run>)
    requires ValidDays(days) && n < |days| && d == days[n] && d.panel20.Some?
    requires Lists(days, n, runs) && previous == if n > 0 then States20(days)[n - 1] else None
    ensures Lists(days, n + 1, runs')
  {
    ListsOneMore(days, n, runs);
    var value, state := d.panel20.value, StateOf(d.panel20).value;
    if previous == Some(state) {
      var run := runs[|runs| - 1];
      runs' := runs[..|runs| - 1] + [Run(run.state, run.from, d.date, run.values + [value])];
    } else {
      runs' := runs + [Run(state, d.date, d.date, [value])];
    }
  }

  datatype Tally = Tally(comparable: nat, changes: nat, matrix: Matrix, changesMatrix: Matrix)

  const NO_TALLY := Tally(0, 0, EMPTY, EMPTY)

  lemma NothingYet(days: seq<Day>)
    requires ValidDays(days)
    ensures TallyOf(NO_TALLY, States20(days)[..0]) && Lists(days, 0, [])
  {
    assert States20(days)[..0] == [];
    forall a, b ensures Has(EMPTY, a, b) && EMPTY[a][b] == 0 {
      EmptyMatrix(a, b);
    }
  }

  /** The counters after the states `s`. */
  ghost predicate TallyOf(c: Tally, s: seq<Option<State>>) {
    && c.comparable == Comparable(s) && c.changes == Changes(s)
    && Tallies(c.matrix, s, true) && Tallies(c.changesMatrix, s, false)
  }

  method CountDay(c: Tally, previous: Option<State>, state: Option<State>, ghost s: seq<Option<State>>, ghost i: nat)
    returns (c': Tally)
    requires i < |s| && TallyOf(c, s[..i]) && state == s[i] && previous == if i > 0 then s[i - 1] else None
    ensures TallyOf(c', s[..i + 1])
  {
    TalliesOneMore(s, i, c.matrix, true);
    TalliesOneMore(s, i, c.changesMatrix, false);
    CountersOneMore(s, i);
    c' := c;
    if state.Some? && previous.Some? {
      var m, cm := CountPair(c.matrix, c.changesMatrix, previous.value, state.value);
      c' := Tally(c.comparable + 1, c.changes + if previous != state then 1 else 0, m, cm);
    }
  }

  // --- The laws of the report, on the days ---

  /** The bands of the states: below 0.75, 1.25 and 1.5, and from there on. */
  ghost predicate In(panel: Option<real>, a: State) {
    panel.Some?
    && match a
       case QUIET => panel.value < 0.75
       case NORMAL => 0.75 <= panel.value < 1.25
       case ACTIVE => 1.25 <= panel.value < 1.5
       case INTENSE => 1.5 <= panel.value
  }

  ghost function Places(n: nat, p: nat -> bool): set<nat> { set i: nat | i < n && p(i) }

  lemma OneMorePlace(n: nat, p: nat -> bool)
    ensures |Places(n + 1, p)| == |Places(n, p)| + Bit(p(n))
  {
    assert Places(n + 1, p) == if p(n) then Places(n, p) + {n} else Places(n, p);
  }

  /** A day in `b` whose day before is in `a`. */
  ghost function StepAt(days: seq<Day>, a: State, b: State): nat -> bool {
    (i: nat) => 0 < i < |days| && In(days[i - 1].panel20, a) && In(days[i].panel20, b)
  }

  /** A day that has a panel as well as the day before. */
  ghost function ComparableAt(days: seq<Day>): nat -> bool {
    (i: nat) => 0 < i < |days| && days[i - 1].panel20.Some? && days[i].panel20.Some?
  }

  ghost predicate ShareState(x: Option<real>, y: Option<real>) { exists a :: In(x, a) && In(y, a) }

  /** Such a day that shares no state with the day before. */
  ghost function ChangedAt(days: seq<Day>): nat -> bool {
    (i: nat) => 0 < i < |days| && days[i - 1].panel20.Some? && days[i].panel20.Some?
                && !ShareState(days[i - 1].panel20, days[i].panel20)
  }

  /** Days `s` to `e` are in one state, and neither neighbour is. */
  ghost predicate Stretch(days: seq<Day>, a: State, s: nat, e: nat) {
    && s < e <= |days| && (forall i: nat | s <= i < e :: In(days[i].panel20, a))
    && (s > 0 ==> !In(days[s - 1].panel20, a)) && (e < |days| ==> !In(days[e].panel20, a))
  }

  ghost predicate Shows(run: Run, days: seq<Day>, s: nat, e: nat) {
    && Stretch(days, run.state, s, e) && run.from == days[s].date && run.to == days[e - 1].date
    && |run.values| == e - s && forall i: nat | i < e - s :: days[s + i].panel20 == Some(run.values[i])
  }

  /** One run for each stretch, in order. */
  ghost predicate RunsLaw(runs: seq<Run>, days: seq<Day>) {
    exists blocks :: ShowsAll(runs, days, blocks)
  }

  ghost predicate ShowsAll(runs: seq<Run>, days: seq<Day>, blocks: seq<Segments.Segment>) {
    && |blocks| == |runs| && Segments.Ordered(blocks)
    && (forall s: nat, e: nat :: Segments.Segment(s, e) in blocks <==> exists a :: Stretch(days, a, s, e))
    && forall j: nat | j < |runs| :: Shows(runs[j], days, blocks[j].start, blocks[j].end)
  }

  ghost predicate TransitionsLaw(t: Transitions, days: seq<Day>) {
    && (forall a, b :: Has(t.matrix, a, b) && t.matrix[a][b] == |Places(|days|, StepAt(days, a, b))|)
    && (forall a, b :: Has(t.changesMatrix, a, b)
                       && t.changesMatrix[a][b] == if a == b then 0 else |Places(|days|, StepAt(days, a, b))|)
    && t.comparable == |Places(|days|, ComparableAt(days))| && t.changes == |Places(|days|, ChangedAt(days))|
    && RunsLaw(t.runs, days)
  }

  lemma StateIsBand(panel: Option<real>)
    requires panel.Some? ==> panel.value >= 0.0
    ensures forall a :: In(panel, a) <==> StateOf(panel) == Some(a)
  {
  }

  lemma StatesAreBands(days: seq<Day>)
    requires ValidDays(days)
    ensures forall i: nat, a | i < |days| :: In(days[i].panel20, a) <==> States20(days)[i] == Some(a)
    ensures forall i: nat, a | i < |days| :: In(days[i].panel40, a) <==> States40(days)[i] == Some(a)
  {
    forall i: nat, a | i < |days|
      ensures In(days[i].panel20, a) <==> States20(days)[i] == Some(a)
      ensures In(days[i].panel40, a) <==> States40(days)[i] == Some(a)
    {
      StateIsBand(days[i].panel20);
      StateIsBand(days[i].panel40);
    }
  }

  lemma {:induction false} StepsCount(days: seq<Day>, n: nat, a: State, b: State)
    requires ValidDays(days) && n <= |days|
    ensures Steps(States20(days)[..n], a, b) == |Places(n, StepAt(days, a, b))|
  {
    var s := States20(days);
    if n == 0 {
      assert Places(0, StepAt(days, a, b)) == {};
    } else {
      StepsCount(days, n - 1, a, b);
      OneMorePlace(n - 1, StepAt(days, a, b));
      assert s[..n][..n - 1] == s[..n - 1];
      assert StepAt(days, a, b)(n - 1) <==> n > 1 && s[n - 2] == Some(a) && s[n - 1] == Some(b) by {
        StatesAreBands(days);
      }
    }
  }

  lemma {:induction false} ComparableCount(days: seq<Day>, n: nat)
    requires ValidDays(days) && n <= |days|
    ensures Comparable(States20(days)[..n]) == |Places(n, ComparableAt(days))|
  {
    var s := States20(days);
    if n == 0 {
      assert Places(0, ComparableAt(days)) == {};
    } else {
      ComparableCount(days, n - 1);
      OneMorePlace(n - 1, ComparableAt(days));
      assert s[..n][..n - 1] == s[..n - 1];
    }
  }

  lemma SharedState(x: Option<real>, y: Option<real>)
    requires x.Some? && y.Some? && x.value >= 0.0 && y.value >= 0.0
    ensures ShareState(x, y) <==> StateOf(x) == StateOf(y)
  {
    StateIsBand(x);
    StateIsBand(y);
    if StateOf(x) == StateOf(y) {
      assert In(x, StateOf(x).value) && In(y, StateOf(x).value);
    }
  }

  lemma ChangedMeaning(days: seq<Day>, i: nat)
    requires ValidDays(days) && i < |days|
    ensures var s := States20(days);
            ChangedAt(days)(i) <==> i > 0 && s[i - 1].Some? && s[i].Some? && s[i - 1] != s[i]
  {
    if i > 0 && days[i - 1].panel20.Some? && days[i].panel20.Some? {
      SharedState(days[i - 1].panel20, days[i].panel20);
    }
  }

  lemma {:induction false} ChangesCount(days: seq<Day>, n: nat)
    requires ValidDays(days) && n <= |days|
    ensures Changes(States20(days)[..n]) == |Places(n, ChangedAt(days))|
  {
    var s := States20(days);
    if n == 0 {
      assert Places(0, ChangedAt(days)) == {};
    } else {
      ChangesCount(days, n - 1);
      OneMorePlace(n - 1, ChangedAt(days));
      ChangedMeaning(days, n - 1);
      assert s[..n][..n - 1] == s[..n - 1];
    }
  }

  lemma SegmentIsStretch(days: seq<Day>, x: Segments.Segment)
    requires ValidDays(days)
    ensures var s := States20(days);
            Segments.IsSegment(Inside(s), Same(s), |s|, x) <==> exists a :: Stretch(days, a, x.start, x.end)
  {
    var s := States20(days);
    StatesAreBands(days);
    if Segments.IsSegment(Inside(s), Same(s), |s|, x) {
      assert Inside(s)[x.start];
      OneState(s, |s|, x, x.end);
      var a := s[x.start].value;
      SegmentEnds(s, x);
      assert Stretch(days, a, x.start, x.end);
    }
    if a :| Stretch(days, a, x.start, x.end) {
      StretchIsSegment(days, a, x);
    }
  }

  lemma SegmentEnds(s: seq<Option<State>>, x: Segments.Segment)
    requires Segments.IsSegment(Inside(s), Same(s), |s|, x)
    ensures x.start > 0 ==> s[x.start - 1] != s[x.start]
    ensures x.end < |s| ==> s[x.end] != s[x.end - 1]
  {
    assert Inside(s)[x.start] && Inside(s)[x.end - 1];
    if x.start > 0 && s[x.start - 1] == s[x.start] {
      assert Segments.Continues(Inside(s), Same(s), x.start);
    }
    if x.end < |s| && s[x.end] == s[x.end - 1] {
      assert Segments.Continues(Inside(s), Same(s), x.end);
    }
  }

  lemma StretchIsSegment(days: seq<Day>, a: State, x: Segments.Segment)
    requires ValidDays(days) && Stretch(days, a, x.start, x.end)
    ensures var s := States20(days); Segments.IsSegment(Inside(s), Same(s), |s|, x)
  {
    var s := States20(days);
    StatesAreBands(days);
    forall i | x.start <= i < x.end ensures s[i] == Some(a) {
      assert In(days[i].panel20, a);
    }
  }

  lemma RunsAreLawful(days: seq<Day>, runs: seq<Run>)
    requires ValidDays(days) && Lists(days, |days|, runs)
    ensures RunsLaw(runs, days)
  {
    var s := States20(days);
    var blocks := StateBlocks(s, |s|);
    Segments.RunsExact(Inside(s), Same(s), |s|);
    forall b: nat, e: nat ensures Segments.Segment(b, e) in blocks <==> exists a :: Stretch(days, a, b, e) {
      SegmentIsStretch(days, Segments.Segment(b, e));
    }
    forall j: nat | j < |runs| ensures Shows(runs[j], days, blocks[j].start, blocks[j].end) {
      RunIsShown(days, blocks[j]);
    }
    assert ShowsAll(runs, days, blocks);
  }

  lemma RunShows(days: seq<Day>, x: Segments.Segment, a: State)
    requires ValidDays(days) && Full(days, x) && Stretch(days, a, x.start, x.end)
    requires StateOf(days[x.start].panel20) == Some(a)
    ensures Shows(RunOf(days, x), days, x.start, x.end)
  {
    forall i: nat | i < x.end - x.start ensures days[x.start + i].panel20 == Some(ValuesOf(days, x)[i]) {
      assert days[x.start + i].panel20.Some?;
    }
  }

  lemma RunIsShown(days: seq<Day>, x: Segments.Segment)
    requires ValidDays(days) && x in StateBlocks(States20(days), |days|)
    ensures Full(days, x) && Shows(RunOf(days, x), days, x.start, x.end)
  {
    var s := States20(days);
    assert Full(days, x) by {
      var j: nat :| j < |StateBlocks(s, |s|)| && StateBlocks(s, |s|)[j] == x;
      BlockFacts(days, |s|, j);
    }
    assert exists a :: Stretch(days, a, x.start, x.end) by {
      Segments.RunsExact(Inside(s), Same(s), |s|);
      SegmentIsStretch(days, x);
    }
    var a :| Stretch(days, a, x.start, x.end);
    assert StateOf(days[x.start].panel20) == Some(a) by {
      assert In(days[x.start].panel20, a);
      StateIsBand(days[x.start].panel20);
    }
    RunShows(days, x, a);
  }

  lemma TransitionsAreLawful(t: Transitions, days: seq<Day>)
    requires ValidDays(days) && Lists(days, |days|, t.runs)
    requires TallyOf(Tally(t.comparable, t.changes, t.matrix, t.changesMatrix), States20(days))
    ensures TransitionsLaw(t, days)
  {
    var s := States20(days);
    assert s[..|days|] == s;
    ComparableCount(days, |days|);
    ChangesCount(days, |days|);
    forall a, b ensures Steps(s, a, b) == |Places(|days|, StepAt(days, a, b))| {
      StepsCount(days, |days|, a, b);
    }
    forall a: State, b: State
      ensures Has(t.matrix, a, b) && t.matrix[a][b] == |Places(|days|, StepAt(days, a, b))|
      ensures Has(t.changesMatrix, a, b)
              && t.changesMatrix[a][b] == if a == b then 0 else |Places(|days|, StepAt(days, a, b))| {
    }
    RunsAreLawful(days, t.runs);
  }

  method AnalyzeTransitions(days: seq<Day>) returns (t: Transitions)
    requires ValidDays(days)
    ensures TallyOf(Tally(t.comparable, t.changes, t.matrix, t.changesMatrix), States20(days))
    ensures Lists(days, |days|, t.runs)
    ensures TransitionsLaw(t, days)
  {
    ghost var s := States20(days);
    var previous: Option<State>, c, runs := None, NO_TALLY, [];
    NothingYet(days);
    for i := 0 to |days|
      invariant previous == if i > 0 then s[i - 1] else None
      invariant TallyOf(c, s[..i])
      invariant Lists(days, i, runs)
    {
      var state := StateOf(days[i].panel20);
      c := CountDay(c, previous, state, s, i);
      if state.Some? {
        runs := AdvanceRuns(runs, previous, days[i], days, i);
      } else {
        ListsOneMore(days, i, runs);
      }
      previous := state;
    }
    assert s[..|days|] == s;
    t := Transitions(c.comparable, c.changes, c.matrix, c.changesMatrix, runs);
    TransitionsAreLawful(t, days);
  }

  // --- Runs add up ---

  /** Every run starts a block of days or follows a change of state. */
  lemma {:induction false} RunCount(s: seq<Option<State>>, n: nat)
    requires n <= |s|
    ensures |StateBlocks(s, n)| == Changes(s[..n]) + BlockCount(s[..n])
  {
    if n > 0 {
      RunCount(s, n - 1);
      assert s[..n][..n - 1] == s[..n - 1];
      FourStates(s[n - 1]);
    }
  }

  function SessionsIn(runs: seq<Run>, a: State): nat {
    if runs == [] then 0
    else SessionsIn(runs[..|runs| - 1], a) + if runs[|runs| - 1].state == a then |runs[|runs| - 1].values| else 0
  }

  function Marks(s: seq<Option<State>>, a: State): (w: seq<int>)
    ensures |w| == |s|
  {
    seq(|s|, i requires 0 <= i < |s| => Bit(s[i] == Some(a)))
  }

  lemma {:induction false} BlockMarks(s: seq<Option<State>>, a: State, lo: nat, hi: nat)
    requires lo < hi <= |s| && forall i | lo <= i < hi :: s[i] == s[lo]
    ensures Segments.WeightBetween(Marks(s, a), lo, hi) == if s[lo] == Some(a) then hi - lo else 0
    decreases hi
  {
    if hi - 1 > lo {
      BlockMarks(s, a, lo, hi - 1);
    } else {
      assert Segments.WeightBetween(Marks(s, a), lo, lo) == 0;
    }
  }

  /** A full block of one state. */
  ghost predicate Uniform(days: seq<Day>, x: Segments.Segment)
    requires ValidDays(days)
  {
    Full(days, x) && forall i | x.start <= i < x.end :: States20(days)[i] == States20(days)[x.start]
  }

  lemma OneMoreRun(days: seq<Day>, a: State, init: seq<Segments.Segment>, x: Segments.Segment)
    requires ValidDays(days) && (forall j | 0 <= j < |init| :: Full(days, init[j])) && Uniform(days, x)
    ensures forall j | 0 <= j <= |init| :: Full(days, (init + [x])[j])
    ensures Segments.WithinBounds(init, |days|)
    ensures SessionsIn(RunsOf(days, init + [x]), a)
            == SessionsIn(RunsOf(days, init), a) + Segments.WeightBetween(Marks(States20(days), a), x.start, x.end)
  {
    BlockMarks(States20(days), a, x.start, x.end);
    var all := RunsOf(days, init + [x]);
    assert all[..|all| - 1] == RunsOf(days, init);
  }

  lemma {:induction false} RunsMark(days: seq<Day>, a: State, r: seq<Segments.Segment>)
    requires ValidDays(days) && forall j | 0 <= j < |r| :: Full(days, r[j]) && Uniform(days, r[j])
    ensures Segments.WithinBounds(r, |days|)
    ensures SessionsIn(RunsOf(days, r), a) == Segments.RunsWeight(r, Marks(States20(days), a))
  {
    if r != [] {
      var init, x := r[..|r| - 1], r[|r| - 1];
      assert r == init + [x];
      RunsMark(days, a, init);
      OneMoreRun(days, a, init, x);
      Segments.RunsWeightSnoc(init, x, Marks(States20(days), a));
    }
  }

  lemma {:induction false} MarksCount(s: seq<Option<State>>, a: State, n: nat)
    requires n <= |s|
    ensures Segments.InsideWeight(Inside(s), Marks(s, a), n) == Occurs(s[..n], a)
  {
    if n > 0 {
      MarksCount(s, a, n - 1);
      assert s[..n][..n - 1] == s[..n - 1];
    }
  }

  /** The sessions of all runs in a state are the days in that state. */
  lemma RunLengths(days: seq<Day>, runs: seq<Run>, a: State)
    requires ValidDays(days) && Lists(days, |days|, runs)
    ensures SessionsIn(runs, a) == Occurs(States20(days), a)
  {
    var s, n := States20(days), |days|;
    forall j: nat | j < |StateBlocks(s, n)|
      ensures Full(days, StateBlocks(s, n)[j]) && Uniform(days, StateBlocks(s, n)[j]) {
      BlockFacts(days, n, j);
    }
    RunsMark(days, a, StateBlocks(s, n));
    Segments.WeightConserved(Inside(s), Same(s), Marks(s, a), n);
    MarksCount(s, a, n);
    assert s[..n] == s;
  }

  function Cell(m: Matrix, a: State, b: State): nat { if Has(m, a, b) then m[a][b] else 0 }

  function RowSum(m: Matrix, a: State): nat {
    Cell(m, a, QUIET) + Cell(m, a, NORMAL) + Cell(m, a, ACTIVE) + Cell(m, a, INTENSE)
  }

  function ColumnSum(m: Matrix, a: State): nat {
    Cell(m, QUIET, a) + Cell(m, NORMAL, a) + Cell(m, ACTIVE, a) + Cell(m, INTENSE, a)
  }

  /** Rows and columns of the tallied matrix are the flows out of and into a state. */
  lemma TalliedFlows(m: Matrix, s: seq<Option<State>>, a: State)
    requires Tallies(m, s, true)
    ensures RowSum(m, a) == OutOf(s, a) && ColumnSum(m, a) == Into(s, a)
  {
    forall b, c ensures Cell(m, b, c) == Steps(s, b, c) {
      assert Has(m, b, c);
    }
  }

  /** Flow conservation of the whole report. */
  lemma FlowConservation(days: seq<Day>, t: Transitions, a: State)
    requires ValidDays(days)
    requires TallyOf(Tally(t.comparable, t.changes, t.matrix, t.changesMatrix), States20(days))
    requires Lists(days, |days|, t.runs)
    ensures var s := States20(days);
            && Occurs(s, a) == RowSum(t.matrix, a) + Ends(s, a)
            && Occurs(s, a) == ColumnSum(t.matrix, a) + Starts(s, a)
            && t.comparable + BlockCount(s) == ValidCount(s)
            && |t.runs| == t.changes + BlockCount(s)
            && SessionsIn(t.runs, a) == Occurs(s, a)
    ensures forall b, c :: Cell(t.changesMatrix, b, c) == if b == c then 0 else Cell(t.matrix, b, c)
  {
    var s := States20(days);
    TalliedFlows(t.matrix, s, a);
    Inflow(s, a);
    Outflow(s, a);
    MatrixTotals(s);
    RunCount(s, |s|);
    assert s[..|s|] == s;
    RunLengths(days, t.runs, a);
  }

  // --- The 20/40 control ---

  function Rank(a: State): int {
    match a case QUIET => 0 case NORMAL => 1 case ACTIVE => 2 case INTENSE => 3
  }

  function Distance(a: State, b: State): nat {
    if Rank(a) >= Rank(b) then Rank(a) - Rank(b) else Rank(b) - Rank(a)
  }

  /** Days on which the 20-session panel is in `a` and the 40-session panel in `b`. */
  function Confused(s: seq<Option<State>>, u: seq<Option<State>>, a: State, b: State): nat
    requires |s| == |u|
  {
    if s == [] then 0
    else Confused(s[..|s| - 1], u[..|u| - 1], a, b) + Bit(s[|s| - 1] == Some(a) && u[|u| - 1] == Some(b))
  }

  function AtDistance(m: Matrix, k: nat): nat {
    RowAt(m, QUIET, k) + RowAt(m, NORMAL, k) + RowAt(m, ACTIVE, k) + RowAt(m, INTENSE, k)
  }

  function RowAt(m: Matrix, a: State, k: nat): nat {
    (if Distance(a, QUIET) == k then Cell(m, a, QUIET) else 0)
    + (if Distance(a, NORMAL) == k then Cell(m, a, NORMAL) else 0)
    + (if Distance(a, ACTIVE) == k then Cell(m, a, ACTIVE) else 0)
    + (if Distance(a, INTENSE) == k then Cell(m, a, INTENSE) else 0)
  }

  /** The agreement counters are the diagonal, its neighbours and the rest of the confusion matrix. */
  ghost predicate Balanced(c: Control) {
    && c.same == AtDistance(c.confusion, 0) && c.adjacent == AtDistance(c.confusion, 1)
    && c.multiLevel == AtDistance(c.confusion, 2) + AtDistance(c.confusion, 3)
    && c.paired == c.same + c.adjacent + c.multiLevel
  }

  ghost predicate ControlOf(c: Control, s: seq<Option<State>>, u: seq<Option<State>>)
    requires |s| == |u|
  {
    Balanced(c) && forall a, b :: Has(c.confusion, a, b) && c.confusion[a][b] == Confused(s, u, a, b)
  }

  lemma CellsOfPlus(m: Matrix, a: State, b: State)
    requires forall x, y :: Has(m, x, y)
    ensures forall x, y :: Has(Plus(m, a, b), x, y)
                           && Cell(Plus(m, a, b), x, y) == Cell(m, x, y) + Bit(x == a && y == b)
  {
    forall x, y ensures Has(Plus(m, a, b), x, y)
                        && Cell(Plus(m, a, b), x, y) == Cell(m, x, y) + Bit(x == a && y == b) {
      assert Has(m, x, y) && Has(m, a, b);
    }
  }

  lemma RowOfPlus(m: Matrix, m': Matrix, a: State, b: State, x: State, k: nat)
    requires forall y :: Cell(m', x, y) == Cell(m, x, y) + Bit(x == a && y == b)
    ensures RowAt(m', x, k) == RowAt(m, x, k) + Bit(x == a && Distance(a, b) == k)
  {
    FourStates(Some(b));
  }

  lemma DistancesOfPlus(m: Matrix, a: State, b: State, k: nat)
    requires forall x, y :: Has(m, x, y)
    ensures AtDistance(Plus(m, a, b), k) == AtDistance(m, k) + Bit(Distance(a, b) == k)
  {
    var m' := Plus(m, a, b);
    forall x ensures RowAt(m', x, k) == RowAt(m, x, k) + Bit(x == a && Distance(a, b) == k) {
      CellsOfPlus(m, a, b);
      RowOfPlus(m, m', a, b, x, k);
    }
    FourStates(Some(a));
  }

  const NO_CONTROL := Control(0, 0, 0, 0, EMPTY)

  lemma NothingCompared()
    ensures ControlOf(NO_CONTROL, [], [])
  {
    forall a, b ensures Has(EMPTY, a, b) && EMPTY[a][b] == 0 {
      EmptyMatrix(a, b);
    }
  }

  lemma ConfusedOneMore(s: seq<Option<State>>, u: seq<Option<State>>, i: nat)
    requires i < |s| == |u|
    ensures forall a, b :: Confused(s[..i + 1], u[..i + 1], a, b)
                           == Confused(s[..i], u[..i], a, b) + Bit(s[i] == Some(a) && u[i] == Some(b))
  {
    assert s[..i + 1][..i] == s[..i] && u[..i + 1][..i] == u[..i];
  }

  lemma ControlOneMore(c: Control, c': Control, s: seq<Option<State>>, u: seq<Option<State>>, i: nat)
    requires i < |s| == |u| && ControlOf(c, s[..i], u[..i]) && Balanced(c')
    requires forall a, b :: Has(c.confusion, a, b) && Has(c'.confusion, a, b)
                            && c'.confusion[a][b] == c.confusion[a][b] + Bit(s[i] == Some(a) && u[i] == Some(b))
    ensures ControlOf(c', s[..i + 1], u[..i + 1])
  {
    ConfusionOneMore(c.confusion, c'.confusion, s, u, i);
  }

  lemma ConfusionOneMore(m: Matrix, m': Matrix, s: seq<Option<State>>, u: seq<Option<State>>, i: nat)
    requires i < |s| == |u|
    requires forall a, b :: Has(m, a, b) && m[a][b] == Confused(s[..i], u[..i], a, b)
    requires forall a, b :: Has(m, a, b) && Has(m', a, b)
                            && m'[a][b] == m[a][b] + Bit(s[i] == Some(a) && u[i] == Some(b))
    ensures forall a, b :: Has(m', a, b) && m'[a][b] == Confused(s[..i + 1], u[..i + 1], a, b)
  {
    forall a, b ensures Has(m', a, b) && m'[a][b] == Confused(s[..i + 1], u[..i + 1], a, b) {
      assert Has(m, a, b);
      ConfusedOneMore(s, u, i);
    }
  }

  /** A day on which the 20-session panel is in `a` and the 40-session panel in `b`. */
  ghost function BothAt(days: seq<Day>, a: State, b: State): nat -> bool {
    (i: nat) => i < |days| && In(days[i].panel20, a) && In(days[i].panel40, b)
  }

  ghost function DaysIn(days: seq<Day>, a: State, b: State): nat { |Places(|days|, BothAt(days, a, b))| }

  /** Every cell counts its days; equal states, neighbours and the rest are counted apart and together. */
  ghost predicate ControlLaw(c: Control, days: seq<Day>) {
    && (forall a, b :: Has(c.confusion, a, b) && c.confusion[a][b] == DaysIn(days, a, b))
    && c.same == DaysIn(days, QUIET, QUIET) + DaysIn(days, NORMAL, NORMAL) + DaysIn(days, ACTIVE, ACTIVE)
                 + DaysIn(days, INTENSE, INTENSE)
    && c.adjacent == DaysIn(days, QUIET, NORMAL) + DaysIn(days, NORMAL, QUIET) + DaysIn(days, NORMAL, ACTIVE)
                     + DaysIn(days, ACTIVE, NORMAL) + DaysIn(days, ACTIVE, INTENSE) + DaysIn(days, INTENSE, ACTIVE)
    && c.multiLevel == DaysIn(days, QUIET, ACTIVE) + DaysIn(days, ACTIVE, QUIET) + DaysIn(days, QUIET, INTENSE)
                       + DaysIn(days, INTENSE, QUIET) + DaysIn(days, NORMAL, INTENSE) + DaysIn(days, INTENSE, NORMAL)
    && c.paired == c.same + c.adjacent + c.multiLevel
  }

  lemma {:induction false} ConfusedCount(days: seq<Day>, n: nat, a: State, b: State)
    requires ValidDays(days) && n <= |days|
    ensures Confused(States20(days)[..n], States40(days)[..n], a, b) == |Places(n, BothAt(days, a, b))|
  {
    var s, u := States20(days), States40(days);
    if n == 0 {
      assert Places(0, BothAt(days, a, b)) == {};
    } else {
      ConfusedCount(days, n - 1, a, b);
      OneMorePlace(n - 1, BothAt(days, a, b));
      assert s[..n][..n - 1] == s[..n - 1] && u[..n][..n - 1] == u[..n - 1];
      assert BothAt(days, a, b)(n - 1) <==> s[n - 1] == Some(a) && u[n - 1] == Some(b) by {
        StateIsBand(days[n - 1].panel20);
        StateIsBand(days[n - 1].panel40);
      }
    }
  }

  lemma BalancedCells(c: Control)
    requires Balanced(c)
    ensures var m := c.confusion;
            && c.same == Cell(m, QUIET, QUIET) + Cell(m, NORMAL, NORMAL) + Cell(m, ACTIVE, ACTIVE)
                         + Cell(m, INTENSE, INTENSE)
            && c.adjacent == Cell(m, QUIET, NORMAL) + Cell(m, NORMAL, QUIET) + Cell(m, NORMAL, ACTIVE)
                             + Cell(m, ACTIVE, NORMAL) + Cell(m, ACTIVE, INTENSE) + Cell(m, INTENSE, ACTIVE)
            && c.multiLevel == Cell(m, QUIET, ACTIVE) + Cell(m, ACTIVE, QUIET) + Cell(m, QUIET, INTENSE)
                               + Cell(m, INTENSE, QUIET) + Cell(m, NORMAL, INTENSE) + Cell(m, INTENSE, NORMAL)
            && c.paired == c.same + c.adjacent + c.multiLevel
  {
  }

  lemma CellsCountDays(c: Control, days: seq<Day>)
    requires ValidDays(days) && ControlOf(c, States20(days), States40(days))
    ensures forall a, b :: Has(c.confusion, a, b) && c.confusion[a][b] == DaysIn(days, a, b)
                           && Cell(c.confusion, a, b) == DaysIn(days, a, b)
  {
    var s, u := States20(days), States40(days);
    assert s[..|days|] == s && u[..|days|] == u;
    forall a, b ensures Has(c.confusion, a, b) && c.confusion[a][b] == DaysIn(days, a, b)
                        && Cell(c.confusion, a, b) == DaysIn(days, a, b) {
      ConfusedCount(days, |days|, a, b);
    }
  }

  lemma ControlIsLawful(c: Control, days: seq<Day>)
    requires ValidDays(days) && ControlOf(c, States20(days), States40(days))
    ensures ControlLaw(c, days)
  {
    CellsCountDays(c, days);
    BalancedCells(c);
  }

  method ControlAgreement(days: seq<Day>) returns (c: Control)
    requires ValidDays(days)
    ensures ControlOf(c, States20(days), States40(days)) && ControlLaw(c, days)
  {
    ghost var s, u := States20(days), States40(days);
    c := NO_CONTROL;
    NothingCompared();
    assert s[..0] == [] && u[..0] == [];
    for i := 0 to |days|
      invariant ControlOf(c, s[..i], u[..i])
    {
      ghost var before := c;
      assert s[i] == StateOf(days[i].panel20) && u[i] == StateOf(days[i].panel40);
      var x, y := StateOf(days[i].panel20), StateOf(days[i].panel40);
      if x.Some? && y.Some? {
        c := CountControl(c, x.value, y.value);
      }
      ControlOneMore(before, c, s, u, i);
    }
    assert s[..|days|] == s && u[..|days|] == u;
    ControlIsLawful(c, days);
  }

  method CountControl(c: Control, a: State, b: State) returns (c': Control)
    requires Balanced(c) && forall x, y :: Has(c.confusion, x, y)
    ensures Balanced(c') && c'.confusion == Plus(c.confusion, a, b)
    ensures forall x, y :: Has(c'.confusion, x, y)
                           && c'.confusion[x][y] == c.confusion[x][y] + Bit(x == a && y == b)
  {
    CellsOfPlus(c.confusion, a, b);
    DistancesOfPlus(c.confusion, a, b, 0);
    DistancesOfPlus(c.confusion, a, b, 1);
    DistancesOfPlus(c.confusion, a, b, 2);
    DistancesOfPlus(c.confusion, a, b, 3);
    c' := c.(paired := c.paired + 1, confusion := Plus(c.confusion, a, b));
    var delta := Distance(a, b);
    if delta == 0 {
      c' := c'.(same := c.same + 1);
    } else if delta == 1 {
      c' := c'.(adjacent := c.adjacent + 1);
    } else {
      c' := c'.(multiLevel := c.multiLevel + 1);
    }
  }
}
