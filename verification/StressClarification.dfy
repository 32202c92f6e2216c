/** The three-variant comparison of src/dev/intraday-stress-clarification.ts, over the measured targets. */
module StressClarification {
  import opened Wrappers
  import opened StressCalculation
  import opened StressSeverity
  import opened StressRecovery
  import Sorting

  const FROZEN_B := Candidate("B", Bounds(0.4, 0.7), Bounds(0.45, 0.8), Bounds(1.0, 1.75),
                              Collapse(1.2, 0.02, 0.03), Collapse(2.5, 0.025, 0.04))

  datatype Variant = OriginalB | CurrentClose | AbsoluteHigh

  datatype Levels = Levels(originalB: Severity, currentClose: Severity, absoluteHigh: Severity) {
    function Of(v: Variant): Severity {
      match v case OriginalB => originalB case CurrentClose => currentClose case AbsoluteHigh => absoluteHigh
    }

    function With(v: Variant, s: Severity): Levels {
      match v
      case OriginalB => this.(originalB := s)
      case CurrentClose => this.(currentClose := s)
      case AbsoluteHigh => this.(absoluteHigh := s)
    }
  }

  datatype Row = Row(date: Date, index: int, targetAt: int, spy: Target, rsp: Target, raw: Levels, effective: Levels)
  datatype Key = Key(date: Date, index: int)
  datatype Sides = Sides(spy: Option<Target>, rsp: Option<Target>)
  datatype ClarifyError = NotRecordedCandidate | DuplicateTarget | UnalignedTargets | AvailabilityChanged
                        | SequenceGap | SevereInvariantFailed

  // --- Pairing the two instruments ---

  predicate Relevant(t: Target) { !t.closing && (t.symbol == SPY || t.symbol == RSP) }

  function KeyOf(t: Target): Key { Key(t.date, t.index) }

  predicate Twins(a: Target, b: Target) { Relevant(a) && Relevant(b) && KeyOf(a) == KeyOf(b) && a.symbol == b.symbol }

  ghost predicate HasDuplicate(targets: seq<Target>) {
    exists i, j :: 0 <= i < j < |targets| && Twins(targets[i], targets[j])
  }

  ghost predicate FiledUnder(targets: seq<Target>, k: Key, symbol: Symbol, side: Option<Target>) {
    side.Some? ==> side.value in targets && Relevant(side.value) && KeyOf(side.value) == k
                   && side.value.symbol == symbol
  }

  /** The keys of the compared targets, in order of first appearance. */
  function KeysOf(targets: seq<Target>): seq<Key> {
    if targets == [] then []
    else
      var before, t := KeysOf(targets[..|targets| - 1]), targets[|targets| - 1];
      if Relevant(t) && KeyOf(t) !in before then before + [KeyOf(t)] else before
  }

  lemma KeysOneMore(targets: seq<Target>, t: Target)
    ensures KeysOf(targets + [t]) == if Relevant(t) && KeyOf(t) !in KeysOf(targets)
                                     then KeysOf(targets) + [KeyOf(t)] else KeysOf(targets)
  {
    assert (targets + [t])[..|targets|] == targets;
  }

  /** The book holds every relevant target under its date and index, and nothing else. */
  ghost predicate Books(targets: seq<Target>, order: seq<Key>, book: map<Key, Sides>) {
    && (forall i, j | 0 <= i < j < |order| :: order[i] != order[j])
    && (forall k :: k in order <==> k in book)
    && (forall k | k in book :: FiledUnder(targets, k, SPY, book[k].spy) && FiledUnder(targets, k, RSP, book[k].rsp)
          && (book[k].spy.Some? || book[k].rsp.Some?))
    && (forall t | t in targets && Relevant(t) :: KeyOf(t) in book
          && (t.symbol == SPY ==> book[KeyOf(t)].spy == Some(t)) && (t.symbol == RSP ==> book[KeyOf(t)].rsp == Some(t)))
  }

  lemma FiledOneMore(targets: seq<Target>, order: seq<Key>, book: map<Key, Sides>, t: Target,
                     order': seq<Key>, slot: Sides)
    requires Books(targets, order, book) && Relevant(t)
    requires var old_ := if KeyOf(t) in book then book[KeyOf(t)] else Sides(None, None);
             && slot == (if t.symbol == SPY then old_.(spy := Some(t)) else old_.(rsp := Some(t)))
             && (if t.symbol == SPY then old_.spy else old_.rsp).None?
    requires order' == if KeyOf(t) in book then order else order + [KeyOf(t)]
    ensures Books(targets + [t], order', book[KeyOf(t) := slot])
  {
    var k, book', more := KeyOf(t), book[KeyOf(t) := slot], targets + [t];
    assert t in more;
    forall x | x in targets ensures x in more {
    }
    forall x | x in book' ensures FiledUnder(more, x, SPY, book'[x].spy) && FiledUnder(more, x, RSP, book'[x].rsp) {
      if x in book {
        assert FiledUnder(targets, x, SPY, book[x].spy) && FiledUnder(targets, x, RSP, book[x].rsp);
      }
    }
  }

  /** A target meets a twin exactly when its side of the slot is taken. */
  lemma TwinMeansTaken(targets: seq<Target>, order: seq<Key>, book: map<Key, Sides>, t: Target)
    requires Books(targets, order, book) && Relevant(t)
    ensures (exists x :: x in targets && Twins(x, t)) <==>
            KeyOf(t) in book && (if t.symbol == SPY then book[KeyOf(t)].spy else book[KeyOf(t)].rsp).Some?
  {
    var k := KeyOf(t);
    if k in book {
      assert FiledUnder(targets, k, SPY, book[k].spy) && FiledUnder(targets, k, RSP, book[k].rsp);
      var side := if t.symbol == SPY then book[k].spy else book[k].rsp;
      if side.Some? {
        assert side.value in targets && Twins(side.value, t);
      }
    }
  }

  lemma DuplicateAtEnd(targets: seq<Target>, t: Target)
    ensures HasDuplicate(targets + [t]) <==> HasDuplicate(targets) || exists x :: x in targets && Twins(x, t)
  {
    var more := targets + [t];
    assert forall i | 0 <= i < |targets| :: more[i] == targets[i];
    if HasDuplicate(targets) {
      var i, j :| 0 <= i < j < |targets| && Twins(targets[i], targets[j]);
      assert Twins(more[i], more[j]);
    }
    if x :| x in targets && Twins(x, t) {
      var i :| 0 <= i < |targets| && targets[i] == x;
      assert Twins(more[i], more[|targets|]);
    }
    if HasDuplicate(more) {
      var i, j :| 0 <= i < j < |more| && Twins(more[i], more[j]);
      assert more[i] == targets[i];
      assert j < |targets| ==> Twins(targets[i], targets[j]);
    }
  }

  /** Nothing is filed for a target that is not compared. */
  lemma IrrelevantPasses(targets: seq<Target>, order: seq<Key>, book: map<Key, Sides>, t: Target)
    requires Books(targets, order, book) && !Relevant(t)
    ensures Books(targets + [t], order, book)
  {
    var more := targets + [t];
    forall x | x in targets ensures x in more {
    }
    forall k | k in book ensures FiledUnder(more, k, SPY, book[k].spy) && FiledUnder(more, k, RSP, book[k].rsp) {
      assert FiledUnder(targets, k, SPY, book[k].spy) && FiledUnder(targets, k, RSP, book[k].rsp);
    }
  }

  lemma {:induction false} DuplicateStays(targets: seq<Target>, i: nat)
    requires i <= |targets| && HasDuplicate(targets[..i])
    ensures HasDuplicate(targets)
  {
    var a, b :| 0 <= a < b < i && Twins(targets[..i][a], targets[..i][b]);
    assert Twins(targets[a], targets[b]);
  }

  method FileTargets(targets: seq<Target>) returns (ok: bool, order: seq<Key>, book: map<Key, Sides>)
    ensures ok <==> !HasDuplicate(targets)
    ensures ok ==> Books(targets, order, book) && order == KeysOf(targets)
  {
    order, book := [], map[];
    for i := 0 to |targets|
      invariant Books(targets[..i], order, book) && order == KeysOf(targets[..i])
      invariant !HasDuplicate(targets[..i])
    {
      var t := targets[i];
      ghost var before := targets[..i];
      assert targets[..i + 1] == before + [t];
      DuplicateAtEnd(before, t);
      KeysOneMore(before, t);
      if Relevant(t) {
        TwinMeansTaken(before, order, book, t);
        var k := KeyOf(t);
        var slot := if k in book then book[k] else Sides(None, None);
        var side := if t.symbol == SPY then slot.spy else slot.rsp;
        if side.Some? {
          DuplicateStays(targets, i + 1);
          return false, order, book;
        }
        var slot' := if t.symbol == SPY then slot.(spy := Some(t)) else slot.(rsp := Some(t));
        FiledOneMore(before, order, book, t, if k in book then order else order + [k], slot');
        if k !in book {
          order := order + [k];
        }
        book := book[k := slot'];
      } else {
        IrrelevantPasses(before, order, book, t);
      }
    }
    assert targets[..|targets|] == targets;
    ok := true;
  }

  // --- Rows ---

  function RawOf(spy: Target, rsp: Target, b: Candidate): Levels {
    Levels(Pair(Classify(spy, b), Classify(rsp, b)),
           Pair(ClassifyCurrentCollapse(spy, b, false), ClassifyCurrentCollapse(rsp, b, false)),
           Pair(ClassifyCurrentCollapse(spy, b, true), ClassifyCurrentCollapse(rsp, b, true)))
  }

  function RowOf(spy: Target, rsp: Target, b: Candidate): Row {
    Row(spy.date, spy.index, spy.targetAt, spy, rsp, RawOf(spy, rsp, b), RawOf(spy, rsp, b))
  }

  predicate AlignedSides(s: Sides) { s.spy.Some? && s.rsp.Some? && s.spy.value.targetAt == s.rsp.value.targetAt }

  predicate SameAvailability(raw: Levels) {
    raw.currentClose.None? == raw.originalB.None? && raw.absoluteHigh.None? == raw.originalB.None?
  }

  ghost predicate RowsOf(order: seq<Key>, book: map<Key, Sides>, b: Candidate, rows: seq<Row>) {
    && |rows| == |order|
    && forall i | 0 <= i < |order| ::
         && order[i] in book && AlignedSides(book[order[i]]) && SameAvailability(rows[i].raw)
         && rows[i] == RowOf(book[order[i]].spy.value, book[order[i]].rsp.value, b)
  }

  /** Why the two sides of a key make no row. */
  function SidesError(s: Sides, b: Candidate): Option<ClarifyError> {
    if !AlignedSides(s) then Some(UnalignedTargets)
    else if !SameAvailability(RawOf(s.spy.value, s.rsp.value, b)) then Some(AvailabilityChanged)
    else None
  }

  /** The error of the first key that has one. */
  function FirstSidesError(order: seq<Key>, book: map<Key, Sides>, b: Candidate): Option<ClarifyError>
    requires forall k | k in order :: k in book
  {
    if order == [] then None
    else
      var before := FirstSidesError(order[..|order| - 1], book, b);
      if before.Some? then before else SidesError(book[order[|order| - 1]], b)
  }

  lemma {:induction false} EarlierErrorStays(order: seq<Key>, book: map<Key, Sides>, b: Candidate, i: nat)
    requires (forall k | k in order :: k in book) && i <= |order| && FirstSidesError(order[..i], book, b).Some?
    ensures FirstSidesError(order, book, b) == FirstSidesError(order[..i], book, b)
  {
    if i < |order| {
      assert order[..|order| - 1][..i] == order[..i];
      EarlierErrorStays(order[..|order| - 1], book, b, i);
    } else {
      assert order[..i] == order;
    }
  }

  lemma FirstErrorOneMore(order: seq<Key>, book: map<Key, Sides>, b: Candidate, i: nat)
    requires (forall k | k in order :: k in book) && i < |order| && FirstSidesError(order[..i], book, b).None?
    ensures FirstSidesError(order[..i + 1], book, b) == SidesError(book[order[i]], b)
    ensures SidesError(book[order[i]], b).Some? ==> FirstSidesError(order, book, b) == SidesError(book[order[i]], b)
  {
    assert order[..i + 1][..i] == order[..i];
    if SidesError(book[order[i]], b).Some? {
      EarlierErrorStays(order, book, b, i + 1);
    }
  }

  lemma RowsOneMore(order: seq<Key>, book: map<Key, Sides>, b: Candidate, rows: seq<Row>, i: nat)
    requires i < |order| && order[i] in book && RowsOf(order[..i], book, b, rows)
    requires SidesError(book[order[i]], b).None?
    ensures RowsOf(order[..i + 1], book, b,
                   rows + [RowOf(book[order[i]].spy.value, book[order[i]].rsp.value, b)])
  {
  }

  method BuildRows(order: seq<Key>, book: map<Key, Sides>, b: Candidate) returns (r: Result<seq<Row>, ClarifyError>)
    requires forall k | k in order :: k in book
    ensures r.Success? ==> FirstSidesError(order, book, b).None? && RowsOf(order, book, b, r.value)
    ensures r.Failure? ==> FirstSidesError(order, book, b) == Some(r.error)
  {
    var rows: seq<Row> := [];
    for i := 0 to |order|
      invariant RowsOf(order[..i], book, b, rows)
      invariant FirstSidesError(order[..i], book, b).None?
    {
      var s := book[order[i]];
      FirstErrorOneMore(order, book, b, i);
      if !AlignedSides(s) {
        return Failure(UnalignedTargets);
      }
      var raw := RawOf(s.spy.value, s.rsp.value, b);
      if !SameAvailability(raw) {
        return Failure(AvailabilityChanged);
      }
      RowsOneMore(order, book, b, rows, i);
      rows := rows + [Row(s.spy.value.date, s.spy.value.index, s.spy.value.targetAt, s.spy.value, s.rsp.value,
                          raw, raw)];
    }
    assert order[..|order|] == order;
    return Success(rows);
  }

  function RowKey(r: Row): Key { Key(r.date, r.index) }

  predicate NotAfter(a: Row, b: Row) { a.date < b.date || (a.date == b.date && a.index <= b.index) }

  /** Every date's rows stand together, by increasing index. */
  ghost predicate StrictlySorted(rows: seq<Row>) {
    forall i, j | 0 <= i < j < |rows| :: NotAfter(rows[i], rows[j]) && RowKey(rows[i]) != RowKey(rows[j])
  }

  lemma SortedRows(targets: seq<Target>, order: seq<Key>, book: map<Key, Sides>, b: Candidate, rows: seq<Row>)
    requires Books(targets, order, book) && RowsOf(order, book, b, rows)
    ensures var sorted := Sorting.Sort(rows, NotAfter);
            StrictlySorted(sorted) && forall r :: r in sorted <==> r in rows
  {
    var sorted := Sorting.Sort(rows, NotAfter);
    forall i | 0 <= i < |rows| ensures RowKey(rows[i]) == order[i] {
      assert FiledUnder(targets, order[i], SPY, book[order[i]].spy);
    }
    assert Sorting.TotalPreorder(NotAfter);
    Sorting.SortKeepsDistinct(rows, NotAfter, RowKey);
    Sorting.SortSorts(rows, NotAfter);
    Sorting.SortKeepsMembers(rows, NotAfter);
    forall i, j | 0 <= i < j < |sorted|
      ensures NotAfter(sorted[i], sorted[j]) && RowKey(sorted[i]) != RowKey(sorted[j]) {
    }
  }

  // --- Recovery within each session ---

  /** The first row of the session that row `i` belongs to. */
  function SessionStart(rows: seq<Row>, i: nat): (s: nat)
    requires i < |rows|
    ensures s <= i
  {
    if i > 0 && rows[i - 1].date == rows[i].date then SessionStart(rows, i - 1) else i
  }

  /** It reaches back exactly as far as the date does not change; in sorted rows that is the whole session so far. */
  lemma {:induction false} SessionStartMeaning(rows: seq<Row>, i: nat)
    requires i < |rows| && StrictlySorted(rows)
    ensures var s := SessionStart(rows, i);
            forall j | 0 <= j <= i :: rows[j].date == rows[i].date <==> s <= j
  {
    if i > 0 && rows[i - 1].date == rows[i].date {
      SessionStartMeaning(rows, i - 1);
    } else {
      forall j | 0 <= j < i ensures rows[j].date != rows[i].date {
        assert NotAfter(rows[j], rows[i]) && (j < i - 1 ==> NotAfter(rows[j], rows[i - 1]));
        assert NotAfter(rows[i - 1], rows[i]);
      }
    }
  }

  /** Each session's indices run 1, 2, 3 and so on. */
  ghost predicate InSequence(rows: seq<Row>) {
    forall i: nat {:trigger SessionStart(rows, i)} | i < |rows| :: rows[i].index == i - SessionStart(rows, i) + 1
  }

  function RawSlice(rows: seq<Row>, v: Variant, lo: nat, hi: nat): (r: seq<Reading>)
    requires lo <= hi <= |rows|
    ensures |r| == hi - lo
  {
    seq(hi - lo, i requires 0 <= i < hi - lo => rows[lo + i].raw.Of(v))
  }

  /** The level at row `i` under two confirmations counted from row `s`. */
  function LevelFrom(rows: seq<Row>, v: Variant, s: nat, i: nat): Severity
    requires s <= i < |rows|
  {
    Level(RawSlice(rows, v, s, i + 1), 2, i - s)
  }

  function LevelsFrom(rows: seq<Row>, s: nat, i: nat): Levels
    requires s <= i < |rows|
  {
    Levels(LevelFrom(rows, OriginalB, s, i), LevelFrom(rows, CurrentClose, s, i), LevelFrom(rows, AbsoluteHigh, s, i))
  }

  /** Recovery restarts with each session. */
  function Effective(rows: seq<Row>, i: nat): Levels
    requires i < |rows|
  {
    LevelsFrom(rows, SessionStart(rows, i), i)
  }

  lemma SliceOfSlice(rows: seq<Row>, rows': seq<Row>, v: Variant, lo: nat, i: nat, hi: nat)
    requires lo <= i < hi <= |rows| == |rows'|
    requires forall j | lo <= j < hi :: rows[j].raw == rows'[j].raw
    ensures Recovered(RawSlice(rows', v, lo, hi), 2)[i - lo] == LevelFrom(rows, v, lo, i)
  {
    var long, short := RawSlice(rows', v, lo, hi), RawSlice(rows, v, lo, i + 1);
    assert long[..i - lo + 1] == short == short[..i - lo + 1];
  }

  method RecoverVariant(rows: array<Row>, start: nat, end: nat, v: Variant)
    requires start <= end <= rows.Length
    modifies rows
    ensures forall i | 0 <= i < rows.Length :: rows[i] ==
              if start <= i < end
              then old(rows[i]).(effective := old(rows[i]).effective
                                 .With(v, LevelFrom(old(rows[..]), v, start, i)))
              else old(rows[i])
  {
    var values := Recover(RawSlice(rows[..], v, start, end), 2);
    for i := start to end
      invariant forall j | 0 <= j < rows.Length :: rows[j] ==
                  if start <= j < i
                  then old(rows[j]).(effective := old(rows[j]).effective
                                     .With(v, LevelFrom(old(rows[..]), v, start, j)))
                  else old(rows[j])
    {
      SliceOfSlice(old(rows[..]), old(rows[..]), v, start, i, end);
      rows[i] := rows[i].(effective := rows[i].effective.With(v, values[i - start]));
    }
  }

  lemma LevelFromRaw(rows: seq<Row>, rows': seq<Row>, v: Variant, s: nat, i: nat)
    requires s <= i < |rows| == |rows'|
    requires forall j | 0 <= j < |rows| :: rows[j].raw == rows'[j].raw
    ensures LevelFrom(rows, v, s, i) == LevelFrom(rows', v, s, i)
  {
    assert RawSlice(rows, v, s, i + 1) == RawSlice(rows', v, s, i + 1);
  }

  /** Rows `start..end` carry the levels recovered from `start`; the others are untouched. */
  ghost predicate SessionRecovered(before: seq<Row>, after: seq<Row>, start: nat, end: nat) {
    && start <= end <= |before| == |after|
    && (forall i | 0 <= i < |after| :: after[i] == before[i].(effective := after[i].effective))
    && (forall i | 0 <= i < |after| && !(start <= i < end) :: after[i] == before[i])
    && (forall i: nat {:trigger LevelsFrom(before, start, i)} | start <= i < end ::
          after[i].effective == LevelsFrom(before, start, i))
  }

  method RecoverSession(rows: array<Row>, start: nat, end: nat)
    requires start <= end <= rows.Length
    modifies rows
    ensures SessionRecovered(old(rows[..]), rows[..], start, end)
  {
    ghost var a := rows[..];
    RecoverVariant(rows, start, end, OriginalB);
    ghost var b := rows[..];
    RecoverVariant(rows, start, end, CurrentClose);
    ghost var c := rows[..];
    RecoverVariant(rows, start, end, AbsoluteHigh);
    forall i: nat | start <= i < end ensures rows[i].effective == LevelsFrom(a, start, i) {
      LevelFromRaw(a, b, CurrentClose, start, i);
      LevelFromRaw(a, c, AbsoluteHigh, start, i);
      assert b[i] == a[i].(effective := b[i].effective) && c[i] == a[i].(effective := c[i].effective);
    }
  }

  /** Scans the session that starts at `start`; `ok` when its indices run from 1. */
  method ScanSession(rows: seq<Row>, start: nat) returns (end: nat, ok: bool)
    requires start < |rows| && SessionStart(rows, start) == start
    ensures start < end <= |rows| && (end < |rows| ==> SessionStart(rows, end) == end)
    ensures forall i: nat | start <= i < end :: SessionStart(rows, i) == start
    ensures ok <==> forall i: nat | start <= i < end :: rows[i].index == i - start + 1
  {
    end := start + 1;
    ok := rows[start].index == 1;
    while end < |rows| && rows[end].date == rows[start].date
      invariant start < end <= |rows|
      invariant forall i: nat | start <= i < end :: SessionStart(rows, i) == start && rows[i].date == rows[start].date
      invariant ok <==> forall i: nat | start <= i < end :: rows[i].index == i - start + 1
    {
      ok := ok && rows[end].index == end - start + 1;
      end := end + 1;
    }
  }

  lemma EffectiveOfRecovered(sorted: seq<Row>, rows: seq<Row>, i: nat)
    requires i < |sorted| == |rows|
    requires forall j | 0 <= j < |sorted| :: rows[j].raw == sorted[j].raw && rows[j].date == sorted[j].date
    ensures SessionStart(rows, i) == SessionStart(sorted, i) && Effective(rows, i) == Effective(sorted, i)
  {
    SessionStartsAgree(sorted, rows, i);
    var s := SessionStart(sorted, i);
    LevelFromRaw(sorted, rows, OriginalB, s, i);
    LevelFromRaw(sorted, rows, CurrentClose, s, i);
    LevelFromRaw(sorted, rows, AbsoluteHigh, s, i);
  }

  /** The same rows, each with its session's recovered levels. */
  ghost predicate RecoversTo(before: seq<Row>, after: seq<Row>) {
    && |before| == |after|
    && (forall i | 0 <= i < |after| :: after[i] == before[i].(effective := after[i].effective))
    && (forall i: nat {:trigger Effective(before, i)} | i < |after| :: after[i].effective == Effective(before, i))
  }

  /** The sessions before row `start` are in sequence and recovered; the others are untouched. */
  ghost predicate RecoveredTo(before: seq<Row>, now: seq<Row>, start: nat) {
    && start <= |before| == |now|
    && (start < |before| ==> SessionStart(before, start) == start)
    && (forall i: nat | i < start :: before[i].index == i - SessionStart(before, i) + 1)
    && (forall i: nat {:trigger Effective(before, i)} | i < start :: now[i].effective == Effective(before, i))
    && (forall i | 0 <= i < |now| :: now[i] == before[i].(effective := now[i].effective))
    && (forall i | start <= i < |now| :: now[i] == before[i])
  }

  lemma RecoveredFurther(before: seq<Row>, now: seq<Row>, next: seq<Row>, start: nat, end: nat)
    requires RecoveredTo(before, now, start) && start < end <= |now| == |next|
    requires forall i: nat | start <= i < end :: SessionStart(now, i) == start && now[i].index == i - start + 1
    requires end < |now| ==> SessionStart(now, end) == end
    requires SessionRecovered(now, next, start, end)
    ensures RecoveredTo(before, next, end)
  {
    forall i: nat | start <= i < end ensures SessionStart(before, i) == start
                                                   && next[i].effective == Effective(before, i) {
      EffectiveOfRecovered(before, now, i);
      assert next[i].effective == LevelsFrom(now, start, i);
    }
    if end < |now| {
      SessionStartsAgree(before, now, end);
    }
  }

  method RecoverSessions(rows: array<Row>) returns (ok: bool)
    modifies rows
    ensures ok <==> InSequence(old(rows[..]))
    ensures ok ==> RecoversTo(old(rows[..]), rows[..])
  {
    ghost var before := rows[..];
    var start := 0;
    while start < rows.Length
      invariant RecoveredTo(before, rows[..], start)
    {
      ghost var now := rows[..];
      NowAgrees(before, now, start);
      var end, inOrder := ScanSession(rows[..], start);
      if !inOrder {
        NotInSequence(before, now, start, end);
        return false;
      }
      RecoverSession(rows, start, end);
      RecoveredFurther(before, now, rows[..], start, end);
      start := end;
    }
    ok := true;
  }

  lemma NowAgrees(before: seq<Row>, now: seq<Row>, start: nat)
    requires RecoveredTo(before, now, start) && start < |before|
    ensures SessionStart(now, start) == start
  {
    SessionStartsAgree(before, now, start);
  }

  lemma NotInSequence(before: seq<Row>, now: seq<Row>, start: nat, end: nat)
    requires RecoveredTo(before, now, start) && end <= |before|
    requires forall i: nat | start <= i < end :: SessionStart(now, i) == start
    requires exists i: nat :: start <= i < end && now[i].index != i - start + 1
    ensures !InSequence(before)
  {
    var i: nat :| start <= i < end && now[i].index != i - start + 1;
    SessionStartsAgree(before, now, i);
    assert before[i].index != i - SessionStart(before, i) + 1;
  }

  lemma {:induction false} SessionStartsAgree(rows: seq<Row>, rows': seq<Row>, i: nat)
    requires i < |rows| == |rows'| && forall j | 0 <= j < |rows| :: rows[j].date == rows'[j].date
    ensures SessionStart(rows, i) == SessionStart(rows', i)
  {
    if i > 0 {
      SessionStartsAgree(rows, rows', i - 1);
    }
  }

  /** An ordering of two variants on every reading survives their recovery. */
  lemma RecoveryKeepsOrder(rows: seq<Row>, v: Variant, w: Variant, i: nat)
    requires forall i | 0 <= i < |rows| :: AtMost(rows[i].raw.Of(v), rows[i].raw.Of(w))
    requires i < |rows|
    ensures AtMost(Effective(rows, i).Of(v), Effective(rows, i).Of(w))
  {
    var s := SessionStart(rows, i);
    var a, b := RawSlice(rows, v, s, i + 1), RawSlice(rows, w, s, i + 1);
    RecoverMonotone(a, b, 2, 2);
    assert Recovered(a, 2)[i - s] == Level(a, 2, i - s) && Recovered(b, 2)[i - s] == Level(b, 2, i - s);
  }

  // --- The whole comparison ---

  /** In every row the safeguarded reading is at least the closing one and agrees with it on SEVERE; for measured
      targets the closing reading is as available as the original one and never above it. */
  lemma RowOrdering(spy: Target, rsp: Target, b: Candidate)
    ensures var raw := RawOf(spy, rsp, b);
            AtMost(raw.currentClose, raw.absoluteHigh) && (raw.currentClose == Some(3) <==> raw.absoluteHigh == Some(3))
    ensures EvidenceConsistent(spy) && EvidenceConsistent(rsp) ==>
              var raw := RawOf(spy, rsp, b);
              SameAvailability(raw) && AtMost(raw.currentClose, raw.originalB)
              && (raw.currentClose == Some(3) ==> raw.originalB == Some(3))
  {
    SafeguardNeverLowers(spy, b);
    SafeguardNeverLowers(rsp, b);
    SeverityRange(spy, b, false);
    SeverityRange(rsp, b, false);
    SeverityRange(spy, b, true);
    SeverityRange(rsp, b, true);
    if EvidenceConsistent(spy) && EvidenceConsistent(rsp) {
      CloseNeverRaises(spy, b);
      CloseNeverRaises(rsp, b);
    }
  }

  predicate NewSevere(r: Row) { r.raw.originalB != Some(3) && r.raw.currentClose == Some(3) }

  predicate SevereMismatch(r: Row) { (r.raw.currentClose == Some(3)) != (r.raw.absoluteHigh == Some(3)) }

  /** A row made of two relevant targets of the input, one for each instrument, at the same date, index and instant. */
  ghost predicate MadeFrom(targets: seq<Target>, b: Candidate, r: Row) {
    && r.spy in targets && r.rsp in targets && Relevant(r.spy) && Relevant(r.rsp)
    && r.spy.symbol == SPY && r.rsp.symbol == RSP && KeyOf(r.spy) == KeyOf(r.rsp) == RowKey(r)
    && r.spy.targetAt == r.rsp.targetAt == r.targetAt
    && r.raw == RawOf(r.spy, r.rsp, b) && SameAvailability(r.raw)
  }

  ghost predicate AllMadeFrom(targets: seq<Target>, b: Candidate, rows: seq<Row>) {
    forall i {:trigger MadeFrom(targets, b, rows[i])} | 0 <= i < |rows| :: MadeFrom(targets, b, rows[i])
  }

  ghost predicate Appears(t: Target, rows: seq<Row>) {
    exists i :: 0 <= i < |rows| && (rows[i].spy == t || rows[i].rsp == t)
  }

  ghost predicate AllAppear(targets: seq<Target>, rows: seq<Row>) {
    forall t {:trigger Appears(t, rows)} | t in targets && Relevant(t) :: Appears(t, rows)
  }

  ghost predicate AllRecovered(rows: seq<Row>) {
    forall i: nat {:trigger Effective(rows, i)} | i < |rows| :: rows[i].effective == Effective(rows, i)
  }

  /** `spy` and `rsp` report on the same date, index and instant. */
  ghost predicate Paired(targets: seq<Target>, spy: Target, rsp: Target) {
    && spy in targets && rsp in targets && Relevant(spy) && Relevant(rsp) && spy.symbol == SPY && rsp.symbol == RSP
    && KeyOf(spy) == KeyOf(rsp) && spy.targetAt == rsp.targetAt
  }

  ghost predicate HasPartner(targets: seq<Target>, t: Target) {
    exists u :: Paired(targets, t, u) || Paired(targets, u, t)
  }

  ghost predicate AllPaired(targets: seq<Target>) {
    forall t | t in targets && Relevant(t) :: HasPartner(targets, t)
  }

  ghost predicate AvailabilityAgrees(targets: seq<Target>, b: Candidate) {
    forall spy, rsp | Paired(targets, spy, rsp) :: SameAvailability(RawOf(spy, rsp, b))
  }

  ghost predicate SevereAgrees(targets: seq<Target>, b: Candidate) {
    forall spy, rsp | Paired(targets, spy, rsp) :: var raw := RawOf(spy, rsp, b);
      raw.currentClose == Some(3) ==> raw.originalB == Some(3)
  }

  ghost predicate HasPredecessor(targets: seq<Target>, t: Target) {
    exists u :: u in targets && Relevant(u) && u.date == t.date && u.index == t.index - 1
  }

  ghost predicate NoGap(targets: seq<Target>) {
    forall t | t in targets && Relevant(t) :: t.index == 1 || HasPredecessor(targets, t)
  }

  /** Each raw state of a row is the worse of what its two targets are classified as. */
  ghost predicate WorseStates(r: Row, b: Candidate) {
    && WorseOf(r.raw.originalB, Classify(r.spy, b), Classify(r.rsp, b))
    && WorseOf(r.raw.currentClose, ClassifyCurrentCollapse(r.spy, b, false), ClassifyCurrentCollapse(r.rsp, b, false))
    && WorseOf(r.raw.absoluteHigh, ClassifyCurrentCollapse(r.spy, b, true), ClassifyCurrentCollapse(r.rsp, b, true))
  }

  ghost predicate AllWorseStates(rows: seq<Row>, b: Candidate) {
    forall i {:trigger WorseStates(rows[i], b)} | 0 <= i < |rows| :: WorseStates(rows[i], b)
  }

  lemma RowsCarryWorseStates(targets: seq<Target>, b: Candidate, rows: seq<Row>)
    requires AllMadeFrom(targets, b, rows)
    ensures AllWorseStates(rows, b)
  {
    forall i | 0 <= i < |rows| ensures WorseStates(rows[i], b) {
      var r := rows[i];
      assert MadeFrom(targets, b, r);
      PairIsWorse(Classify(r.spy, b), Classify(r.rsp, b));
      PairIsWorse(ClassifyCurrentCollapse(r.spy, b, false), ClassifyCurrentCollapse(r.rsp, b, false));
      PairIsWorse(ClassifyCurrentCollapse(r.spy, b, true), ClassifyCurrentCollapse(r.rsp, b, true));
    }
  }

  /** One field of rows `lo` to `hi`. */
  function Column(rows: seq<Row>, field: Row -> Reading, lo: nat, hi: nat): (r: seq<Reading>)
    requires lo <= hi <= |rows|
    ensures |r| == hi - lo && forall j | 0 <= j < hi - lo :: r[j] == field(rows[lo + j])
  {
    seq(hi - lo, j requires 0 <= j < hi - lo => field(rows[lo + j]))
  }

  ghost predicate FieldRecovers(rows: seq<Row>, lo: nat, hi: nat, raw: Row -> Reading, effective: Row -> Reading)
    requires lo <= hi <= |rows|
  {
    Lawful(Column(rows, raw, lo, hi), Column(rows, effective, lo, hi), 2)
  }

  /** Rows `lo` to `hi`, all of one date: from raw to effective states by the recovery law with two confirmations. */
  ghost predicate RecoversLawfully(rows: seq<Row>, lo: nat, hi: nat)
    requires lo <= hi <= |rows|
  {
    && FieldRecovers(rows, lo, hi, (r: Row) => r.raw.originalB, (r: Row) => r.effective.originalB)
    && FieldRecovers(rows, lo, hi, (r: Row) => r.raw.currentClose, (r: Row) => r.effective.currentClose)
    && FieldRecovers(rows, lo, hi, (r: Row) => r.raw.absoluteHigh, (r: Row) => r.effective.absoluteHigh)
  }

  /** No row before has the date of row `lo`, and all rows up to `hi` have it. */
  ghost predicate OpensSession(rows: seq<Row>, lo: nat, hi: nat) {
    && lo < hi <= |rows| && (forall j | 0 <= j < lo :: rows[j].date != rows[lo].date)
    && (forall j | lo <= j < hi :: rows[j].date == rows[lo].date)
  }

  ghost predicate AllRecoverLawfully(rows: seq<Row>) {
    forall lo: nat, hi: nat {:trigger OpensSession(rows, lo, hi)} | OpensSession(rows, lo, hi) ::
      RecoversLawfully(rows, lo, hi)
  }

  lemma {:induction false} SessionStartFrom(rows: seq<Row>, lo: nat, hi: nat, j: nat)
    requires OpensSession(rows, lo, hi) && lo <= j < hi
    ensures SessionStart(rows, j) == lo
    decreases j
  {
    if j > lo {
      SessionStartFrom(rows, lo, hi, j - 1);
    }
  }

  lemma OutputInSession(rows: seq<Row>, v: Variant, lo: nat, hi: nat, j: nat)
    requires AllRecovered(rows) && OpensSession(rows, lo, hi) && j < hi - lo
    ensures rows[lo + j].effective.Of(v) == Recovered(RawSlice(rows, v, lo, hi), 2)[j]
  {
    SessionStartFrom(rows, lo, hi, lo + j);
    assert rows[lo + j].effective == Effective(rows, lo + j) == LevelsFrom(rows, lo, lo + j);
    SliceOfSlice(rows, rows, v, lo, lo + j, hi);
  }

  lemma VariantRecovers(rows: seq<Row>, v: Variant, lo: nat, hi: nat, raw: Row -> Reading, effective: Row -> Reading)
    requires AllRecovered(rows) && OpensSession(rows, lo, hi)
    requires forall r :: raw(r) == r.raw.Of(v) && effective(r) == r.effective.Of(v)
    ensures FieldRecovers(rows, lo, hi, raw, effective)
  {
    var readings, out := Column(rows, raw, lo, hi), Column(rows, effective, lo, hi);
    assert readings == RawSlice(rows, v, lo, hi);
    forall j: nat | j < hi - lo ensures out[j] == Recovered(readings, 2)[j] {
      OutputInSession(rows, v, lo, hi, j);
    }
    assert out == Recovered(readings, 2);
    RecoveredIsLawful(readings, 2);
  }

  lemma SessionsRecoverLawfully(rows: seq<Row>)
    requires AllRecovered(rows)
    ensures AllRecoverLawfully(rows)
  {
    forall lo: nat, hi: nat | OpensSession(rows, lo, hi) ensures RecoversLawfully(rows, lo, hi) {
      SessionRecoversLawfully(rows, lo, hi);
    }
  }

  lemma SessionRecoversLawfully(rows: seq<Row>, lo: nat, hi: nat)
    requires AllRecovered(rows) && OpensSession(rows, lo, hi)
    ensures RecoversLawfully(rows, lo, hi)
  {
    VariantRecovers(rows, OriginalB, lo, hi, (r: Row) => r.raw.originalB, (r: Row) => r.effective.originalB);
    VariantRecovers(rows, CurrentClose, lo, hi, (r: Row) => r.raw.currentClose, (r: Row) => r.effective.currentClose);
    VariantRecovers(rows, AbsoluteHigh, lo, hi, (r: Row) => r.raw.absoluteHigh, (r: Row) => r.effective.absoluteHigh);
  }

  // --- Candidate B in its own numbers ---

  predicate AtLeast(v: Option<real>, bound: real) { v.Some? && v.value >= bound }

  /** An acute fall of 2 percent and 1.2 ATR, or of 3 percent; or a drawdown of 2.5 percent and 2.5 ATR, or of 4. */
  predicate CollapsedB(t: Target, pct: Option<real>, ratio: Option<real>) {
    || (pct.Some? && AtLeast(ratio, 1.2) && AtLeast(pct, 0.02)) || (ratio.Some? && AtLeast(pct, 0.03))
    || (AtLeast(t.sessionDrawdownAtrRatio, 2.5) && AtLeast(t.sessionDrawdownPct, 0.025))
    || (t.sessionDrawdownAtrRatio.Some? && AtLeast(t.sessionDrawdownPct, 0.04))
  }

  ghost predicate LadderB(s: Severity, t: Target, pct: Option<real>, ratio: Option<real>) {
    && (s.Some? <==> t.status == VALID)
    && (s.Some? ==>
          && 0 <= s.value <= 3 && (s.value == 3 <==> CollapsedB(t, pct, ratio))
          && (s.value >= 2 <==> (CollapsedB(t, pct, ratio) || AtLeast(t.shockAtrRatio, 0.7)
                || AtLeast(t.realizedMovement60AtrRatio, 0.8) || AtLeast(t.sessionDrawdownAtrRatio, 1.75)))
          && (s.value >= 1 <==> (CollapsedB(t, pct, ratio) || AtLeast(t.shockAtrRatio, 0.4)
                || AtLeast(t.realizedMovement60AtrRatio, 0.45) || AtLeast(t.sessionDrawdownAtrRatio, 1.0))))
  }

  /** The recorded candidate: the original state from the excursion, the current-close state from the close. */
  lemma CandidateBMeaning(t: Target)
    ensures LadderB(Classify(t, FROZEN_B), t, t.downsideExcursionPct, t.downsideExcursionAtrRatio)
    ensures AcuteCloseDownsideAtrRatio(t).Some? ==>
              LadderB(ClassifyCurrentCollapse(t, FROZEN_B, false), t,
                      AcuteCloseDownsidePct(t), AcuteCloseDownsideAtrRatio(t))
  {
    SeverityLevels(t, FROZEN_B, t.downsideExcursionAtrRatio, t.downsideExcursionPct);
    SeverityLevels(t, FROZEN_B, AcuteCloseDownsideAtrRatio(t), AcuteCloseDownsidePct(t));
  }

  /** What a successful comparison returns. */
  ghost predicate Comparison(targets: seq<Target>, b: Candidate, rows: seq<Row>) {
    && StrictlySorted(rows) && InSequence(rows)
    && AllMadeFrom(targets, b, rows) && AllAppear(targets, rows) && AllRecovered(rows)
  }

  /** Every target carries the evidence of a measured one. */
  ghost predicate AllMeasured(targets: seq<Target>) {
    forall t | t in targets :: EvidenceConsistent(t)
  }

  ghost predicate EffectiveOrder(rows: seq<Row>, v: Variant, w: Variant) {
    forall i | 0 <= i < |rows| :: AtMost(rows[i].effective.Of(v), rows[i].effective.Of(w))
  }

  predicate SevereInvariantBroken(rows: seq<Row>) {
    exists i :: 0 <= i < |rows| && rows[i].raw.originalB.Some? && (NewSevere(rows[i]) || SevereMismatch(rows[i]))
  }

  lemma BookRows(targets: seq<Target>, order: seq<Key>, book: map<Key, Sides>, b: Candidate, rows: seq<Row>)
    requires Books(targets, order, book) && RowsOf(order, book, b, rows)
    ensures AllMadeFrom(targets, b, rows) && AllAppear(targets, rows)
  {
    forall i | 0 <= i < |rows| ensures MadeFrom(targets, b, rows[i]) {
      assert FiledUnder(targets, order[i], SPY, book[order[i]].spy);
      assert FiledUnder(targets, order[i], RSP, book[order[i]].rsp);
    }
    forall t | t in targets && Relevant(t) ensures Appears(t, rows) {
      var i :| 0 <= i < |order| && order[i] == KeyOf(t);
      assert rows[i].spy == t || rows[i].rsp == t;
    }
  }

  lemma SameMembers(targets: seq<Target>, b: Candidate, rows: seq<Row>, sorted: seq<Row>)
    requires AllMadeFrom(targets, b, rows) && AllAppear(targets, rows)
    requires forall r :: r in sorted <==> r in rows
    ensures AllMadeFrom(targets, b, sorted) && AllAppear(targets, sorted)
  {
    forall i | 0 <= i < |sorted| ensures MadeFrom(targets, b, sorted[i]) {
      assert sorted[i] in rows;
    }
    forall t | t in targets && Relevant(t) ensures Appears(t, sorted) {
      assert Appears(t, rows);
      var i :| 0 <= i < |rows| && (rows[i].spy == t || rows[i].rsp == t);
      assert rows[i] in sorted;
    }
  }

  lemma RecoveredOrder(sorted: seq<Row>, rows: seq<Row>)
    requires StrictlySorted(sorted)
    requires |rows| == |sorted| && forall i | 0 <= i < |rows| :: rows[i] == sorted[i].(effective := rows[i].effective)
    ensures StrictlySorted(rows)
    ensures InSequence(sorted) <==> InSequence(rows)
  {
    forall i: nat | i < |rows| ensures SessionStart(rows, i) == SessionStart(sorted, i) {
      SessionStartsAgree(sorted, rows, i);
    }
  }

  lemma RecoveredLevels(sorted: seq<Row>, rows: seq<Row>)
    requires RecoversTo(sorted, rows)
    ensures AllRecovered(rows)
  {
    forall i: nat | i < |rows| ensures rows[i].effective == Effective(rows, i) {
      EffectiveOfRecovered(sorted, rows, i);
    }
  }

  lemma RecoveredMembers(targets: seq<Target>, b: Candidate, sorted: seq<Row>, rows: seq<Row>)
    requires AllMadeFrom(targets, b, sorted) && AllAppear(targets, sorted)
    requires |rows| == |sorted| && forall i | 0 <= i < |rows| :: rows[i] == sorted[i].(effective := rows[i].effective)
    ensures AllMadeFrom(targets, b, rows) && AllAppear(targets, rows)
  {
    forall i | 0 <= i < |rows| ensures MadeFrom(targets, b, rows[i]) {
      assert MadeFrom(targets, b, sorted[i]);
    }
    forall t | t in targets && Relevant(t) ensures Appears(t, rows) {
      assert Appears(t, sorted);
      var i :| 0 <= i < |sorted| && (sorted[i].spy == t || sorted[i].rsp == t);
      assert rows[i].spy == t || rows[i].rsp == t;
    }
  }

  /** The effective state under the safeguard is never below that under current-close severity; for measured
      targets, current-close severity never recovers above the original, and the severe check cannot fail. */
  lemma ComparisonOrdering(targets: seq<Target>, b: Candidate, rows: seq<Row>)
    requires AllMadeFrom(targets, b, rows) && AllRecovered(rows)
    ensures EffectiveOrder(rows, CurrentClose, AbsoluteHigh)
    ensures AllMeasured(targets) ==> EffectiveOrder(rows, CurrentClose, OriginalB) && !SevereInvariantBroken(rows)
  {
    forall i: nat | i < |rows| ensures AtMost(rows[i].raw.Of(CurrentClose), rows[i].raw.Of(AbsoluteHigh))
                                       && !SevereMismatch(rows[i]) {
      assert MadeFrom(targets, b, rows[i]);
      RowOrdering(rows[i].spy, rows[i].rsp, b);
    }
    forall i: nat | i < |rows| ensures AtMost(rows[i].effective.Of(CurrentClose), rows[i].effective.Of(AbsoluteHigh)) {
      RecoveryKeepsOrder(rows, CurrentClose, AbsoluteHigh, i);
    }
    if AllMeasured(targets) {
      forall i: nat | i < |rows| ensures AtMost(rows[i].raw.Of(CurrentClose), rows[i].raw.Of(OriginalB))
                                         && !NewSevere(rows[i]) {
        assert MadeFrom(targets, b, rows[i]);
        RowOrdering(rows[i].spy, rows[i].rsp, b);
      }
      forall i: nat | i < |rows| ensures AtMost(rows[i].effective.Of(CurrentClose), rows[i].effective.Of(OriginalB)) {
        RecoveryKeepsOrder(rows, CurrentClose, OriginalB, i);
      }
    }
  }

  method RecoverRecords(sorted: seq<Row>) returns (ok: bool, rows: seq<Row>)
    ensures ok <==> InSequence(sorted)
    ensures ok ==> RecoversTo(sorted, rows)
  {
    var records := new Row[|sorted|](i requires 0 <= i < |sorted| => sorted[i]);
    assert records[..] == sorted;
    ok := RecoverSessions(records);
    rows := records[..];
  }

  // --- When the comparison succeeds ---

  lemma UnalignedMeansUnpaired(targets: seq<Target>, order: seq<Key>, book: map<Key, Sides>, k: Key)
    requires Books(targets, order, book) && k in order && !AlignedSides(book[k])
    ensures !AllPaired(targets)
  {
    assert FiledUnder(targets, k, SPY, book[k].spy) && FiledUnder(targets, k, RSP, book[k].rsp);
    var t := if book[k].spy.Some? then book[k].spy.value else book[k].rsp.value;
    assert !HasPartner(targets, t);
  }

  lemma RowsArePairs(targets: seq<Target>, b: Candidate, rows: seq<Row>)
    requires AllMadeFrom(targets, b, rows) && AllAppear(targets, rows)
    ensures AllPaired(targets)
  {
    forall t | t in targets && Relevant(t) ensures HasPartner(targets, t) {
      assert Appears(t, rows);
      var i :| 0 <= i < |rows| && (rows[i].spy == t || rows[i].rsp == t);
      assert MadeFrom(targets, b, rows[i]);
      assert Paired(targets, rows[i].spy, rows[i].rsp);
    }
  }

  lemma EqualTwins(targets: seq<Target>, t: Target, u: Target)
    requires !HasDuplicate(targets) && t in targets && u in targets && Twins(t, u)
    ensures t == u
  {
    var i :| 0 <= i < |targets| && targets[i] == t;
    var j :| 0 <= j < |targets| && targets[j] == u;
    assert Twins(targets[i], targets[j]) && Twins(targets[j], targets[i]);
  }

  lemma PairIsRow(targets: seq<Target>, b: Candidate, rows: seq<Row>, spy: Target, rsp: Target) returns (i: nat)
    requires !HasDuplicate(targets) && AllMadeFrom(targets, b, rows) && AllAppear(targets, rows)
    requires Paired(targets, spy, rsp)
    ensures i < |rows| && rows[i].spy == spy && rows[i].rsp == rsp && rows[i].raw == RawOf(spy, rsp, b)
            && SameAvailability(rows[i].raw)
  {
    assert Appears(spy, rows);
    i :| 0 <= i < |rows| && (rows[i].spy == spy || rows[i].rsp == spy);
    assert MadeFrom(targets, b, rows[i]);
    EqualTwins(targets, rows[i].rsp, rsp);
  }

  lemma RowPredecessor(rows: seq<Row>, i: nat)
    requires StrictlySorted(rows) && i < |rows| && rows[i].index != i - SessionStart(rows, i) + 1
    ensures exists j: nat :: j < |rows| && rows[j].index != 1
              && forall k | 0 <= k < |rows| :: rows[k].date == rows[j].date ==> rows[k].index != rows[j].index - 1
  {
    if i > 0 && rows[i - 1].date == rows[i].date {
      if rows[i - 1].index != i - 1 - SessionStart(rows, i - 1) + 1 {
        RowPredecessor(rows, i - 1);
      } else {
        NothingBetween(rows, i);
      }
    } else {
      NothingBetween(rows, i);
    }
  }

  lemma NothingBetween(rows: seq<Row>, i: nat)
    requires StrictlySorted(rows) && i < |rows|
    requires i > 0 && rows[i - 1].date == rows[i].date ==> rows[i - 1].index != rows[i].index - 1
    ensures forall k | 0 <= k < |rows| :: rows[k].date == rows[i].date ==> rows[k].index != rows[i].index - 1
  {
    forall k | 0 <= k < |rows| && rows[k].date == rows[i].date ensures rows[k].index != rows[i].index - 1 {
      if k > i {
        assert NotAfter(rows[i], rows[k]);
      } else if k < i - 1 {
        assert NotAfter(rows[k], rows[i - 1]) && RowKey(rows[k]) != RowKey(rows[i - 1]);
        assert NotAfter(rows[i - 1], rows[i]) && RowKey(rows[i - 1]) != RowKey(rows[i]);
      }
    }
  }

  lemma OutOfSequenceIsGap(targets: seq<Target>, b: Candidate, rows: seq<Row>)
    requires StrictlySorted(rows) && !InSequence(rows) && AllMadeFrom(targets, b, rows) && AllAppear(targets, rows)
    ensures !NoGap(targets)
  {
    var i: nat :| i < |rows| && rows[i].index != i - SessionStart(rows, i) + 1;
    RowPredecessor(rows, i);
    var j: nat :| j < |rows| && rows[j].index != 1
      && forall k | 0 <= k < |rows| :: rows[k].date == rows[j].date ==> rows[k].index != rows[j].index - 1;
    MissingPredecessor(targets, b, rows, j);
  }

  lemma MissingPredecessor(targets: seq<Target>, b: Candidate, rows: seq<Row>, j: nat)
    requires AllMadeFrom(targets, b, rows) && AllAppear(targets, rows)
    requires j < |rows| && rows[j].index != 1
    requires forall k | 0 <= k < |rows| :: rows[k].date == rows[j].date ==> rows[k].index != rows[j].index - 1
    ensures !NoGap(targets)
  {
    var t := rows[j].spy;
    assert MadeFrom(targets, b, rows[j]);
    forall u | u in targets && Relevant(u) ensures !(u.date == t.date && u.index == t.index - 1) {
      assert Appears(u, rows);
      var k :| 0 <= k < |rows| && (rows[k].spy == u || rows[k].rsp == u);
      assert MadeFrom(targets, b, rows[k]);
    }
  }

  lemma PreviousInSequence(rows: seq<Row>, i: nat)
    requires InSequence(rows) && i < |rows| && rows[i].index != 1
    ensures i > 0 && rows[i - 1].date == rows[i].date && rows[i - 1].index == rows[i].index - 1
  {
    assert rows[i].index == i - SessionStart(rows, i) + 1;
    assert rows[i - 1].index == i - 1 - SessionStart(rows, i - 1) + 1;
  }

  lemma SequenceHasNoGap(targets: seq<Target>, b: Candidate, rows: seq<Row>)
    requires InSequence(rows) && AllMadeFrom(targets, b, rows) && AllAppear(targets, rows)
    ensures NoGap(targets)
  {
    forall t | t in targets && Relevant(t) && t.index != 1 ensures HasPredecessor(targets, t) {
      assert Appears(t, rows);
      var i: nat :| i < |rows| && (rows[i].spy == t || rows[i].rsp == t);
      assert MadeFrom(targets, b, rows[i]);
      PreviousInSequence(rows, i);
      assert MadeFrom(targets, b, rows[i - 1]);
      assert rows[i - 1].spy in targets;
    }
  }

  lemma SevereCheck(targets: seq<Target>, b: Candidate, rows: seq<Row>)
    requires !HasDuplicate(targets) && AllMadeFrom(targets, b, rows) && AllAppear(targets, rows)
    ensures AvailabilityAgrees(targets, b)
    ensures SevereInvariantBroken(rows) <==> !SevereAgrees(targets, b)
  {
    forall i | 0 <= i < |rows| ensures !SevereMismatch(rows[i]) && Paired(targets, rows[i].spy, rows[i].rsp)
                                       && rows[i].raw == RawOf(rows[i].spy, rows[i].rsp, b) {
      assert MadeFrom(targets, b, rows[i]);
      RowOrdering(rows[i].spy, rows[i].rsp, b);
    }
    forall spy, rsp | Paired(targets, spy, rsp)
      ensures SameAvailability(RawOf(spy, rsp, b))
      ensures !SevereInvariantBroken(rows) ==>
                RawOf(spy, rsp, b).currentClose == Some(3) ==> RawOf(spy, rsp, b).originalB == Some(3)
    {
      var i := PairIsRow(targets, b, rows, spy, rsp);
    }
  }

  /** Why the targets of a key make no row: no aligned pair, or a pair whose evidence disagrees on availability. */
  ghost function KeyError(targets: seq<Target>, b: Candidate, k: Key): Option<ClarifyError> {
    if !exists spy, rsp :: Paired(targets, spy, rsp) && KeyOf(spy) == k then Some(UnalignedTargets)
    else if exists spy, rsp :: Paired(targets, spy, rsp) && KeyOf(spy) == k && !SameAvailability(RawOf(spy, rsp, b))
    then Some(AvailabilityChanged)
    else None
  }

  ghost function FirstKeyError(targets: seq<Target>, b: Candidate, keys: seq<Key>): Option<ClarifyError> {
    if keys == [] then None
    else
      var before := FirstKeyError(targets, b, keys[..|keys| - 1]);
      if before.Some? then before else KeyError(targets, b, keys[|keys| - 1])
  }

  /** The first check that fails: candidate, duplicates, the first faulty key, gaps, the severe check. */
  ghost function Verdict(targets: seq<Target>, b: Candidate): Option<ClarifyError> {
    if b != FROZEN_B then Some(NotRecordedCandidate)
    else if HasDuplicate(targets) then Some(DuplicateTarget)
    else
      var keyError := FirstKeyError(targets, b, KeysOf(targets));
      if keyError.Some? then keyError
      else if !NoGap(targets) then Some(SequenceGap)
      else if !SevereAgrees(targets, b) then Some(SevereInvariantFailed)
      else None
  }

  lemma SidesTellError(targets: seq<Target>, order: seq<Key>, book: map<Key, Sides>, b: Candidate, k: Key)
    requires Books(targets, order, book) && k in book
    ensures KeyError(targets, b, k) == SidesError(book[k], b)
  {
    var s := book[k];
    assert FiledUnder(targets, k, SPY, s.spy) && FiledUnder(targets, k, RSP, s.rsp);
    forall spy, rsp | Paired(targets, spy, rsp) && KeyOf(spy) == k ensures s == Sides(Some(spy), Some(rsp)) {
    }
    if AlignedSides(s) {
      assert Paired(targets, s.spy.value, s.rsp.value);
    }
  }

  lemma {:induction false} SidesTellFirstError(targets: seq<Target>, order: seq<Key>, book: map<Key, Sides>,
                                               b: Candidate, keys: seq<Key>)
    requires Books(targets, order, book) && forall k | k in keys :: k in book
    ensures FirstKeyError(targets, b, keys) == FirstSidesError(keys, book, b)
  {
    if keys != [] {
      SidesTellFirstError(targets, order, book, b, keys[..|keys| - 1]);
      SidesTellError(targets, order, book, b, keys[|keys| - 1]);
    }
  }

  /** The conditions a caller can check on the targets beforehand. */
  ghost predicate Acceptable(targets: seq<Target>, b: Candidate) {
    && b == FROZEN_B && !HasDuplicate(targets) && AllPaired(targets) && NoGap(targets)
    && AvailabilityAgrees(targets, b) && SevereAgrees(targets, b)
  }

  /** Measured targets can only fail for pairing, duplication or gaps: the evidence checks hold of themselves. */
  lemma MeasuredAgree(targets: seq<Target>, b: Candidate)
    requires AllMeasured(targets)
    ensures AvailabilityAgrees(targets, b) && SevereAgrees(targets, b)
  {
    forall spy, rsp | Paired(targets, spy, rsp)
      ensures SameAvailability(RawOf(spy, rsp, b))
      ensures RawOf(spy, rsp, b).currentClose == Some(3) ==> RawOf(spy, rsp, b).originalB == Some(3)
    {
      RowOrdering(spy, rsp, b);
    }
  }

  /** Sorting, recovery and the severe check, once the rows are built. */
  method RecoverAndCheck(targets: seq<Target>, order: seq<Key>, book: map<Key, Sides>, b: Candidate, built: seq<Row>)
    returns (r: Result<seq<Row>, ClarifyError>)
    requires !HasDuplicate(targets) && Books(targets, order, book) && RowsOf(order, book, b, built)
    ensures AllPaired(targets) && AvailabilityAgrees(targets, b)
    ensures r == Failure(SequenceGap) <==> !NoGap(targets)
    ensures r == Failure(SevereInvariantFailed) <==> NoGap(targets) && !SevereAgrees(targets, b)
    ensures r.Failure? ==> r.error == SequenceGap || r.error == SevereInvariantFailed
    ensures r.Success? ==> Comparison(targets, b, r.value) && EffectiveOrder(r.value, CurrentClose, AbsoluteHigh)
    ensures r.Success? ==> AllWorseStates(r.value, b) && AllRecoverLawfully(r.value)
    ensures AllMeasured(targets) && r.Success? ==> EffectiveOrder(r.value, CurrentClose, OriginalB)
  {
    var sorted := Sorting.Sort(built, NotAfter);
    SortedRows(targets, order, book, b, built);
    BookRows(targets, order, book, b, built);
    SameMembers(targets, b, built, sorted);
    RowsArePairs(targets, b, sorted);
    SevereCheck(targets, b, sorted);
    var ok, rows := RecoverRecords(sorted);
    if !ok {
      OutOfSequenceIsGap(targets, b, sorted);
      return Failure(SequenceGap);
    }
    SequenceHasNoGap(targets, b, sorted);
    RecoveredLevels(sorted, rows);
    RecoveredOrder(sorted, rows);
    RecoveredMembers(targets, b, sorted, rows);
    ComparisonOrdering(targets, b, rows);
    SevereCheck(targets, b, rows);
    RowsCarryWorseStates(targets, b, rows);
    SessionsRecoverLawfully(rows);
    if SevereInvariantBroken(rows) {
      return Failure(SevereInvariantFailed);
    }
    return Success(rows);
  }

  /** For measured targets neither runtime check on the evidence can fail, and the effective states are ordered. */
  method CompareIntradaySemantics(targets: seq<Target>, b: Candidate) returns (r: Result<seq<Row>, ClarifyError>)
    ensures r.Success? <==> Acceptable(targets, b)
    ensures r.Success? ==> Comparison(targets, b, r.value) && EffectiveOrder(r.value, CurrentClose, AbsoluteHigh)
    ensures r.Success? ==> AllWorseStates(r.value, b) && AllRecoverLawfully(r.value)
    ensures r == Failure(NotRecordedCandidate) <==> b != FROZEN_B
    ensures r == Failure(DuplicateTarget) <==> b == FROZEN_B && HasDuplicate(targets)
    ensures Verdict(targets, b) == (if r.Failure? then Some(r.error) else None)
    ensures r == Failure(UnalignedTargets) ==> !AllPaired(targets)
    ensures r == Failure(AvailabilityChanged) ==> !AvailabilityAgrees(targets, b)
    ensures r == Failure(SequenceGap) ==> !NoGap(targets)
    ensures r == Failure(SevereInvariantFailed) ==> !SevereAgrees(targets, b)
    ensures AllMeasured(targets) ==>
              && r != Failure(AvailabilityChanged) && r != Failure(SevereInvariantFailed)
              && (r.Success? ==> EffectiveOrder(r.value, CurrentClose, OriginalB))
  {
    if b != FROZEN_B {
      return Failure(NotRecordedCandidate);
    }
    if AllMeasured(targets) {
      MeasuredAgree(targets, b);
    }
    var ok, order, book := FileTargets(targets);
    if !ok {
      return Failure(DuplicateTarget);
    }
    var built := BuildRows(order, book, b);
    SidesTellFirstError(targets, order, book, b, order);
    if built.Failure? {
      FaultyKey(targets, order, book, b, order, built.error);
      return built;
    }
    r := RecoverAndCheck(targets, order, book, b, built.value);
  }

  /** A faulty key is a target without its partner, or a pair that disagrees on availability. */
  lemma {:induction false} FaultyKey(targets: seq<Target>, order: seq<Key>, book: map<Key, Sides>, b: Candidate,
                                     keys: seq<Key>, error: ClarifyError)
    requires Books(targets, order, book) && (forall k | k in keys :: k in order)
    requires FirstSidesError(keys, book, b) == Some(error)
    ensures error == UnalignedTargets || error == AvailabilityChanged
    ensures error == UnalignedTargets ==> !AllPaired(targets)
    ensures error == AvailabilityChanged ==> !AvailabilityAgrees(targets, b)
  {
    var init, k := keys[..|keys| - 1], keys[|keys| - 1];
    if FirstSidesError(init, book, b).Some? {
      FaultyKey(targets, order, book, b, init, error);
    } else if error == UnalignedTargets {
      UnalignedMeansUnpaired(targets, order, book, k);
    } else {
      assert FiledUnder(targets, k, SPY, book[k].spy) && FiledUnder(targets, k, RSP, book[k].rsp);
      assert Paired(targets, book[k].spy.value, book[k].rsp.value);
    }
  }
}
