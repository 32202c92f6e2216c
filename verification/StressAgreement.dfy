/** The comparison and the candidate analysis recover the same states: src/dev/intraday-stress-clarification.ts
    against src/dev/intraday-stress-analysis.ts. */
module StressAgreement {
  import opened Wrappers
  import opened StressCalculation
  import opened StressSeverity
  import opened StressRecovery
  import opened StressClarification
  import Sorting
  import A = StressAnalysis
  import D = StressDurations

  // --- The SPY targets of one session, as the analysis lists them ---

  lemma {:induction false} WatchedOnce(ts: seq<Target>)
    requires !HasDuplicate(ts)
    ensures !HasDuplicate(A.Watched(ts))
  {
    if ts != [] {
      var init, t := ts[..|ts| - 1], ts[|ts| - 1];
      assert ts == init + [t];
      DuplicateAtEnd(init, t);
      WatchedOnce(init);
      D.WatchedMembers(init);
      DuplicateAtEnd(A.Watched(init), t);
    }
  }

  lemma {:induction false} DatedOnce(ts: seq<Target>, d: Date)
    requires !HasDuplicate(ts)
    ensures !HasDuplicate(A.OnDate(ts, d))
  {
    if ts != [] {
      var init, t := ts[..|ts| - 1], ts[|ts| - 1];
      assert ts == init + [t];
      DuplicateAtEnd(init, t);
      DatedOnce(init, d);
      D.DatedMembers(init, d);
      DuplicateAtEnd(A.OnDate(init, d), t);
    }
  }

  lemma {:induction false} SymbolOnce(ts: seq<Target>, s: Symbol)
    requires !HasDuplicate(ts)
    ensures !HasDuplicate(A.OfSymbol(ts, s))
  {
    if ts != [] {
      var init, t := ts[..|ts| - 1], ts[|ts| - 1];
      assert ts == init + [t];
      DuplicateAtEnd(init, t);
      SymbolOnce(init, s);
      D.SymbolMembers(init, s);
      DuplicateAtEnd(A.OfSymbol(init, s), t);
    }
  }

  function OnDate(targets: seq<Target>, d: Date): seq<Target> { A.OnDate(A.Watched(targets), d) }

  lemma OnDateMembers(targets: seq<Target>, d: Date)
    ensures forall t :: t in OnDate(targets, d) <==> t in targets && !t.closing && t.date == d
    ensures !HasDuplicate(targets) ==> !HasDuplicate(OnDate(targets, d))
  {
    D.SessionMembers(targets, d);
    if !HasDuplicate(targets) {
      WatchedOnce(targets);
      DatedOnce(A.Watched(targets), d);
    }
  }

  ghost predicate IndexAscends(ts: seq<Target>) {
    forall i, j | 0 <= i < j < |ts| :: ts[i].index < ts[j].index
  }

  lemma SpyTargetsAscend(targets: seq<Target>, d: Date)
    requires !HasDuplicate(targets)
    ensures IndexAscends(A.SpyTargets(OnDate(targets, d)))
    ensures forall t :: t in A.SpyTargets(OnDate(targets, d)) <==>
              t in targets && !t.closing && t.date == d && t.symbol == SPY
  {
    var rows := OnDate(targets, d);
    var spy := A.OfSymbol(rows, SPY);
    OnDateMembers(targets, d);
    SymbolOnce(rows, SPY);
    D.SymbolMembers(rows, SPY);
    var index := (t: Target) => t.index;
    forall i, j | 0 <= i < j < |spy| ensures index(spy[i]) != index(spy[j]) {
      assert spy[i] in spy && spy[j] in spy && !Twins(spy[i], spy[j]);
    }
    Sorting.SortKeepsDistinct(spy, A.NoLater, index);
    Sorting.SortSorts(spy, A.NoLater);
    Sorting.SortKeepsMembers(spy, A.NoLater);
    var sorted := A.SpyTargets(rows);
    forall i, j | 0 <= i < j < |sorted| ensures sorted[i].index < sorted[j].index {
      assert A.NoLater(sorted[i], sorted[j]) && index(sorted[i]) != index(sorted[j]);
    }
  }

  // --- The rows of one session ---

  lemma {:induction false} WithinSession(rows: seq<Row>, i: nat, k: nat)
    requires i < |rows| && SessionStart(rows, i) <= k <= i
    ensures SessionStart(rows, k) == SessionStart(rows, i) && rows[k].date == rows[i].date
    decreases i
  {
    if k < i {
      WithinSession(rows, i - 1, k);
    }
  }

  lemma SameSession(rows: seq<Row>, i: nat, m: nat)
    requires StrictlySorted(rows) && i < |rows| && m < |rows| && rows[m].date == rows[i].date
    ensures SessionStart(rows, m) == SessionStart(rows, i)
  {
    if m <= i {
      SessionStartMeaning(rows, i);
      WithinSession(rows, i, m);
    } else {
      SessionStartMeaning(rows, m);
      WithinSession(rows, m, i);
    }
  }

  /** Place in the session and index are the same count. */
  lemma RowPlace(targets: seq<Target>, b: Candidate, rows: seq<Row>, i: nat, m: nat)
    requires Comparison(targets, b, rows) && i < |rows| && m < |rows| && rows[m].date == rows[i].date
    ensures rows[m].index == m - SessionStart(rows, i) + 1
    ensures rows[m].spy.index == rows[m].index && rows[m].rsp.index == rows[m].index && MadeFrom(targets, b, rows[m])
  {
    SameSession(rows, i, m);
    assert rows[m].index == m - SessionStart(rows, m) + 1;
    assert MadeFrom(targets, b, rows[m]);
  }

  lemma RowOfSpy(targets: seq<Target>, b: Candidate, rows: seq<Row>, i: nat, t: Target)
    requires Comparison(targets, b, rows) && i < |rows|
    requires t in targets && !t.closing && t.date == rows[i].date && t.symbol == SPY
    ensures t.index >= 1
  {
    assert Relevant(t) && Appears(t, rows);
    var m: nat :| m < |rows| && (rows[m].spy == t || rows[m].rsp == t);
    assert MadeFrom(targets, b, rows[m]);
    RowPlace(targets, b, rows, i, m);
    SameSession(rows, i, m);
  }

  /** In an ascending list of positive indices whose first `j` entries are 1 to `j`, the index `j + 1` comes next. */
  lemma NextInPlace(spy: seq<Target>, u: Target, j: nat)
    requires IndexAscends(spy) && (forall t | t in spy :: t.index >= 1) && u in spy && u.index == j + 1
    requires forall l: nat | l < j :: l < |spy| && spy[l].index == l + 1
    ensures j < |spy| && spy[j] == u
  {
    var l: nat :| l < |spy| && spy[l] == u;
    assert l >= j;
    var x := spy[j].index;
    assert spy[j] in spy && x <= j + 1;
    assert j > 0 ==> spy[j - 1].index == j;
  }

  ghost predicate InPlaceUpTo(spy: seq<Target>, rows: seq<Row>, s: nat, n: nat) {
    n <= |spy| && s + n <= |rows| && forall l: nat | l < n :: spy[l] == rows[s + l].spy && spy[l].index == l + 1
  }

  /** The SPY targets of a session ascend from 1, and rows `s` to `i` show those with index 1, 2, and so on. */
  ghost predicate ShownBy(spy: seq<Target>, rows: seq<Row>, s: nat, i: nat) {
    && IndexAscends(spy) && (forall t | t in spy :: t.index >= 1) && s <= i < |rows|
    && forall k: nat | s <= k <= i :: rows[k].spy in spy && rows[k].spy.index == k - s + 1
  }

  lemma {:induction false} ShownInPlace(spy: seq<Target>, rows: seq<Row>, s: nat, i: nat, n: nat)
    requires ShownBy(spy, rows, s, i) && s + n <= i + 1
    ensures InPlaceUpTo(spy, rows, s, n)
  {
    if n > 0 {
      ShownInPlace(spy, rows, s, i, n - 1);
      var k := s + n - 1;
      assert rows[k].spy in spy && rows[k].spy.index == n;
      NextInPlace(spy, rows[k].spy, n - 1);
      InPlaceOneMore(spy, rows, s, n - 1);
    }
  }

  lemma InPlaceOneMore(spy: seq<Target>, rows: seq<Row>, s: nat, n: nat)
    requires InPlaceUpTo(spy, rows, s, n) && n < |spy| && s + n < |rows|
    requires spy[n] == rows[s + n].spy && spy[n].index == n + 1
    ensures InPlaceUpTo(spy, rows, s, n + 1)
  {
  }

  lemma RowIsShown(targets: seq<Target>, b: Candidate, rows: seq<Row>, i: nat, k: nat)
    requires !HasDuplicate(targets) && Comparison(targets, b, rows) && i < |rows| && SessionStart(rows, i) <= k <= i
    ensures rows[k].spy in A.SpyTargets(OnDate(targets, rows[i].date))
    ensures rows[k].spy.index == k - SessionStart(rows, i) + 1
  {
    WithinSession(rows, i, k);
    RowPlace(targets, b, rows, i, k);
    SpyTargetsAscend(targets, rows[i].date);
  }

  /** The SPY targets of the session stand in the order of its rows. */
  lemma SpyInPlace(targets: seq<Target>, b: Candidate, rows: seq<Row>, i: nat)
    requires !HasDuplicate(targets) && Comparison(targets, b, rows) && i < |rows|
    ensures InPlaceUpTo(A.SpyTargets(OnDate(targets, rows[i].date)), rows, SessionStart(rows, i),
                        i - SessionStart(rows, i) + 1)
  {
    var s := SessionStart(rows, i);
    var spy := A.SpyTargets(OnDate(targets, rows[i].date));
    assert IndexAscends(spy) by { SpyTargetsAscend(targets, rows[i].date); }
    assert forall t | t in spy :: t.index >= 1 by {
      SpyTargetsAscend(targets, rows[i].date);
      forall t | t in spy ensures t.index >= 1 {
        RowOfSpy(targets, b, rows, i, t);
      }
    }
    assert ShownBy(spy, rows, s, i) by {
      forall k: nat | s <= k <= i ensures rows[k].spy in spy && rows[k].spy.index == k - s + 1 {
        RowIsShown(targets, b, rows, i, k);
      }
    }
    ShownInPlace(spy, rows, s, i, i - s + 1);
  }

  lemma RspOfRow(targets: seq<Target>, b: Candidate, rows: seq<Row>, k: nat)
    requires !HasDuplicate(targets) && Comparison(targets, b, rows) && k < |rows|
    ensures A.RspAt(OnDate(targets, rows[k].date), rows[k].index) == Some(rows[k].rsp)
  {
    var list, rsp := OnDate(targets, rows[k].date), rows[k].rsp;
    assert MadeFrom(targets, b, rows[k]);
    OnDateMembers(targets, rows[k].date);
    D.RspExists(list, rsp);
    A.RspFound(list, rsp.index);
    EqualTwins(targets, A.RspAt(list, rsp.index).value, rsp);
  }

  lemma ReadingAgrees(targets: seq<Target>, b: Candidate, rows: seq<Row>, k: nat, spy: Target)
    requires !HasDuplicate(targets) && Comparison(targets, b, rows) && k < |rows| && spy == rows[k].spy
    ensures A.RawAt(OnDate(targets, rows[k].date), spy, b) == rows[k].raw.originalB
  {
    RspOfRow(targets, b, rows, k);
    RowPlace(targets, b, rows, k, k);
  }

  ghost predicate ReadAs(list: seq<Target>, b: Candidate, rows: seq<Row>, s: nat, i: nat) {
    s <= i < |rows| && forall k: nat | s <= k <= i :: A.RawAt(list, rows[k].spy, b) == rows[k].raw.originalB
  }

  lemma SameReadings(list: seq<Target>, b: Candidate, rows: seq<Row>, s: nat, i: nat)
    requires s <= i < |rows| && InPlaceUpTo(A.SpyTargets(list), rows, s, i - s + 1) && ReadAs(list, b, rows, s, i)
    ensures |A.RawReadings(list, b)| > i - s
    ensures A.RawReadings(list, b)[..i - s + 1] == RawSlice(rows, OriginalB, s, i + 1)
  {
    var raw, slice, spy := A.RawReadings(list, b), RawSlice(rows, OriginalB, s, i + 1), A.SpyTargets(list);
    forall j: nat | j <= i - s ensures raw[j] == slice[j] {
      assert spy[j] == rows[s + j].spy;
      assert raw[j] == A.RawAt(list, rows[s + j].spy, b) && slice[j] == rows[s + j].raw.Of(OriginalB);
    }
  }

  /** The analysis reads the same raw states off the session as the comparison's rows carry. */
  lemma ReadingsAgree(targets: seq<Target>, b: Candidate, rows: seq<Row>, i: nat)
    requires !HasDuplicate(targets) && Comparison(targets, b, rows) && i < |rows|
    ensures var s, raw := SessionStart(rows, i), A.RawReadings(OnDate(targets, rows[i].date), b);
            i - s < |raw| && raw[..i - s + 1] == RawSlice(rows, OriginalB, s, i + 1)
  {
    var s, list := SessionStart(rows, i), OnDate(targets, rows[i].date);
    assert InPlaceUpTo(A.SpyTargets(list), rows, s, i - s + 1) by { SpyInPlace(targets, b, rows, i); }
    assert ReadAs(list, b, rows, s, i) by {
      forall k: nat | s <= k <= i ensures A.RawAt(list, rows[k].spy, b) == rows[k].raw.originalB {
        WithinSession(rows, i, k);
        ReadingAgrees(targets, b, rows, k, rows[k].spy);
      }
    }
    SameReadings(list, b, rows, s, i);
  }

  lemma RecoveriesAgree(rows: seq<Row>, s: nat, i: nat, raw: seq<Reading>)
    requires s <= i < |rows| && i - s < |raw| && raw[..i - s + 1] == RawSlice(rows, OriginalB, s, i + 1)
    ensures raw[i - s] == rows[i].raw.originalB && Recovered(raw, 2)[i - s] == LevelFrom(rows, OriginalB, s, i)
  {
    var slice, m := RawSlice(rows, OriginalB, s, i + 1), i - s;
    assert slice[..m + 1] == slice && raw[m] == raw[..m + 1][m] == slice[m];
    assert slice[m] == rows[s + m].raw.Of(OriginalB);
    assert Recovered(raw, 2)[m] == Level(raw, 2, m) == Level(slice, 2, m);
  }

  // --- Records and rows ---

  /** The record shows the same two targets with the same original state, raw and recovered with two confirmations. */
  ghost predicate Matches(r: A.Record, row: Row) {
    && r.date == row.date && r.index == row.index && r.spy == row.spy && r.rsp == row.rsp
    && r.raw == row.raw.originalB && r.two == row.effective.originalB
  }

  lemma RecordAt(targets: seq<Target>, b: Candidate, d: Date, m: nat)
    requires m < |A.SpyTargets(OnDate(targets, d))|
    requires A.RspAt(OnDate(targets, d), A.SpyTargets(OnDate(targets, d))[m].index).Some?
    ensures var list := OnDate(targets, d);
            var t, raw := A.SpyTargets(list)[m], A.RawReadings(list, b);
            A.Record(d, t.index, raw[m], Recovered(raw, 2)[m], Recovered(raw, 3)[m], t, A.RspAt(list, t.index).value)
            in D.CandidateRecordsOf(targets, b)
  {
    var list := OnDate(targets, d);
    var t, raw := A.SpyTargets(list)[m], A.RawReadings(list, b);
    var r := A.Record(d, t.index, raw[m], Recovered(raw, 2)[m], Recovered(raw, 3)[m], t, A.RspAt(list, t.index).value);
    D.RecordListed(list, d, b, m, |A.SpyTargets(list)|);
    D.SymbolMembers(list, SPY);
    Sorting.SortKeepsMembers(A.OfSymbol(list, SPY), A.NoLater);
    assert t in A.SpyTargets(list);
    D.DateListed(A.Watched(targets), t);
    D.SessionListed(A.Watched(targets), A.DatesOf(A.Watched(targets)), b, d, r);
  }

  lemma RecordMatches(list: seq<Target>, rows: seq<Row>, s: nat, i: nat, raw: seq<Reading>)
    requires s <= i < |rows| && i - s < |raw| && raw[..i - s + 1] == RawSlice(rows, OriginalB, s, i + 1)
    requires rows[i].effective.originalB == LevelFrom(rows, OriginalB, s, i)
    ensures var m, row := i - s, rows[i];
            Matches(A.Record(row.date, row.index, raw[m], Recovered(raw, 2)[m], Recovered(raw, 3)[m],
                             row.spy, row.rsp), row)
  {
    RecoveriesAgree(rows, s, i, raw);
  }

  lemma EffectiveIsLevel(targets: seq<Target>, b: Candidate, rows: seq<Row>, i: nat)
    requires Comparison(targets, b, rows) && i < |rows|
    ensures rows[i].effective.originalB == LevelFrom(rows, OriginalB, SessionStart(rows, i), i)
  {
    assert rows[i].effective == Effective(rows, i);
  }

  /** What the session list holds at the place of row `i`: its targets, and its readings so far. */
  ghost predicate Placed(list: seq<Target>, rows: seq<Row>, s: nat, i: nat) {
    && s <= i < |rows| && i - s < |A.SpyTargets(list)| && A.SpyTargets(list)[i - s] == rows[i].spy
    && rows[i].spy.index == rows[i].index && A.RspAt(list, rows[i].index) == Some(rows[i].rsp)
  }

  ghost predicate ReadAlike(list: seq<Target>, b: Candidate, rows: seq<Row>, s: nat, i: nat) {
    && s <= i < |rows| && i - s < |A.RawReadings(list, b)|
    && A.RawReadings(list, b)[..i - s + 1] == RawSlice(rows, OriginalB, s, i + 1)
    && rows[i].effective.originalB == LevelFrom(rows, OriginalB, s, i)
  }

  lemma RowIsPlaced(targets: seq<Target>, b: Candidate, rows: seq<Row>, i: nat)
    requires !HasDuplicate(targets) && Comparison(targets, b, rows) && i < |rows|
    ensures Placed(OnDate(targets, rows[i].date), rows, SessionStart(rows, i), i)
  {
    SpyAtPlace(targets, b, rows, i);
    RowIndex(targets, b, rows, i);
    RspOfRow(targets, b, rows, i);
  }

  lemma SpyAtPlace(targets: seq<Target>, b: Candidate, rows: seq<Row>, i: nat)
    requires !HasDuplicate(targets) && Comparison(targets, b, rows) && i < |rows|
    ensures var spy, m := A.SpyTargets(OnDate(targets, rows[i].date)), i - SessionStart(rows, i);
            m < |spy| && spy[m] == rows[i].spy
  {
    var s := SessionStart(rows, i);
    var spy := A.SpyTargets(OnDate(targets, rows[i].date));
    assert InPlaceUpTo(spy, rows, s, i - s + 1) by { SpyInPlace(targets, b, rows, i); }
    LastInPlace(spy, rows, s, i);
  }

  lemma LastInPlace(spy: seq<Target>, rows: seq<Row>, s: nat, i: nat)
    requires s <= i && InPlaceUpTo(spy, rows, s, i - s + 1)
    ensures i < |rows| && i - s < |spy| && spy[i - s] == rows[i].spy
  {
    var l := i - s;
    assert spy[l] == rows[s + l].spy;
  }

  lemma RowIndex(targets: seq<Target>, b: Candidate, rows: seq<Row>, i: nat)
    requires Comparison(targets, b, rows) && i < |rows|
    ensures rows[i].spy.index == rows[i].index
  {
    assert MadeFrom(targets, b, rows[i]);
  }

  lemma RowIsReadAlike(targets: seq<Target>, b: Candidate, rows: seq<Row>, i: nat)
    requires !HasDuplicate(targets) && Comparison(targets, b, rows) && i < |rows|
    ensures ReadAlike(OnDate(targets, rows[i].date), b, rows, SessionStart(rows, i), i)
  {
    ReadingsAgree(targets, b, rows, i);
    EffectiveIsLevel(targets, b, rows, i);
  }

  lemma PlacedIsRecorded(targets: seq<Target>, b: Candidate, rows: seq<Row>, s: nat, i: nat)
    requires i < |rows| && Placed(OnDate(targets, rows[i].date), rows, s, i)
    requires ReadAlike(OnDate(targets, rows[i].date), b, rows, s, i)
    ensures exists r :: r in D.CandidateRecordsOf(targets, b) && Matches(r, rows[i])
  {
    var list, row, m := OnDate(targets, rows[i].date), rows[i], i - s;
    var raw := A.RawReadings(list, b);
    var r := A.Record(row.date, row.index, raw[m], Recovered(raw, 2)[m], Recovered(raw, 3)[m], row.spy, row.rsp);
    assert r in D.CandidateRecordsOf(targets, b) by { RecordAt(targets, b, row.date, m); }
    assert Matches(r, row) by { RecordMatches(list, rows, s, i, raw); }
  }

  /** Every row of a comparison has its record in the analysis of the same targets. */
  lemma RowHasRecord(targets: seq<Target>, b: Candidate, rows: seq<Row>, i: nat)
    requires !HasDuplicate(targets) && Comparison(targets, b, rows) && i < |rows|
    ensures exists r :: r in D.CandidateRecordsOf(targets, b) && Matches(r, rows[i])
  {
    RowIsPlaced(targets, b, rows, i);
    RowIsReadAlike(targets, b, rows, i);
    PlacedIsRecorded(targets, b, rows, SessionStart(rows, i), i);
  }

  // --- And no other records ---

  /** The row that shows a given SPY target. */
  lemma RowShowing(targets: seq<Target>, b: Candidate, rows: seq<Row>, t: Target) returns (k: nat)
    requires Comparison(targets, b, rows) && t in targets && Relevant(t) && t.symbol == SPY
    ensures k < |rows| && rows[k].spy == t && rows[k].date == t.date
  {
    assert Appears(t, rows);
    k :| k < |rows| && (rows[k].spy == t || rows[k].rsp == t);
    assert MadeFrom(targets, b, rows[k]);
  }

  lemma AscendsOnce(ts: seq<Target>, i: nat, j: nat)
    requires IndexAscends(ts) && i < |ts| && j < |ts| && ts[i] == ts[j]
    ensures i == j
  {
  }

  lemma PlaceIsMatched(list: seq<Target>, d: Date, b: Candidate, rows: seq<Row>, s: nat, k: nat, m: nat, r: A.Record)
    requires k < |rows| && rows[k].date == d && Placed(list, rows, s, k) && ReadAlike(list, b, rows, s, k) && m == k - s
    requires D.IsRecordAt(r, list, d, b, m)
    ensures Matches(r, rows[k])
  {
    RecordMatches(list, rows, s, k, A.RawReadings(list, b));
  }

  lemma TargetOfRecord(targets: seq<Target>, d: Date, m: nat)
    requires !HasDuplicate(targets) && m < |A.SpyTargets(OnDate(targets, d))|
    ensures var t := A.SpyTargets(OnDate(targets, d))[m];
            t in targets && Relevant(t) && t.symbol == SPY && t.date == d
  {
    SpyTargetsAscend(targets, d);
    assert A.SpyTargets(OnDate(targets, d))[m] in A.SpyTargets(OnDate(targets, d));
  }

  lemma RowOfPlace(targets: seq<Target>, b: Candidate, rows: seq<Row>, d: Date, m: nat) returns (k: nat)
    requires !HasDuplicate(targets) && Comparison(targets, b, rows) && m < |A.SpyTargets(OnDate(targets, d))|
    ensures k < |rows| && rows[k].date == d && m == k - SessionStart(rows, k)
  {
    TargetOfRecord(targets, d, m);
    k := RowShowing(targets, b, rows, A.SpyTargets(OnDate(targets, d))[m]);
    assert Placed(OnDate(targets, d), rows, SessionStart(rows, k), k) by { RowIsPlaced(targets, b, rows, k); }
    assert IndexAscends(A.SpyTargets(OnDate(targets, d))) by { SpyTargetsAscend(targets, d); }
    AscendsOnce(A.SpyTargets(OnDate(targets, d)), m, k - SessionStart(rows, k));
  }

  /** Every record of the analysis has its row in the comparison: with the lemma before, the two list the same states
      one to one. */
  lemma RecordHasRow(targets: seq<Target>, b: Candidate, rows: seq<Row>, r: A.Record)
    requires !HasDuplicate(targets) && Comparison(targets, b, rows) && r in D.CandidateRecordsOf(targets, b)
    ensures exists k :: 0 <= k < |rows| && Matches(r, rows[k])
  {
    var d, m := D.SessionOfRecord(A.Watched(targets), A.DatesOf(A.Watched(targets)), b, r);
    var k := RowOfPlace(targets, b, rows, d, m);
    var s := SessionStart(rows, k);
    assert Placed(OnDate(targets, d), rows, s, k) by { RowIsPlaced(targets, b, rows, k); }
    assert ReadAlike(OnDate(targets, d), b, rows, s, k) by { RowIsReadAlike(targets, b, rows, k); }
    PlaceIsMatched(OnDate(targets, d), d, b, rows, s, k, m, r);
  }

  /** Two rows never share a record. */
  lemma MatchesOnce(targets: seq<Target>, b: Candidate, rows: seq<Row>, r: A.Record, i: nat, j: nat)
    requires Comparison(targets, b, rows) && i < |rows| && j < |rows| && Matches(r, rows[i]) && Matches(r, rows[j])
    ensures i == j
  {
    assert RowKey(rows[i]) == RowKey(rows[j]);
  }
}
