/** The records and durations of a candidate, src/dev/intraday-stress-analysis.ts, read on targets and record fields. */
module StressDurations {
  import opened Wrappers
  import opened StressCalculation
  import opened StressSeverity
  import opened StressRecovery
  import opened StressAnalysis
  import Segments
  import Sorting

  function CandidateRecordsOf(targets: seq<Target>, c: Candidate): seq<Record> {
    RecordsOf(Watched(targets), DatesOf(Watched(targets)), c)
  }

  // --- Which targets a session has ---

  lemma {:induction false} WatchedMembers(ts: seq<Target>)
    ensures forall t :: t in Watched(ts) <==> t in ts && !t.closing
  {
    if ts != [] {
      WatchedMembers(ts[..|ts| - 1]);
      assert ts == ts[..|ts| - 1] + [ts[|ts| - 1]];
    }
  }

  lemma {:induction false} DatedMembers(ts: seq<Target>, d: Date)
    ensures forall t :: t in OnDate(ts, d) <==> t in ts && t.date == d
  {
    if ts != [] {
      DatedMembers(ts[..|ts| - 1], d);
      assert ts == ts[..|ts| - 1] + [ts[|ts| - 1]];
    }
  }

  lemma {:induction false} SymbolMembers(ts: seq<Target>, s: Symbol)
    ensures forall t :: t in OfSymbol(ts, s) <==> t in ts && t.symbol == s
  {
    if ts != [] {
      SymbolMembers(ts[..|ts| - 1], s);
      assert ts == ts[..|ts| - 1] + [ts[|ts| - 1]];
    }
  }

  predicate InSession(targets: seq<Target>, t: Target, d: Date) { t in targets && !t.closing && t.date == d }

  lemma SessionMembers(targets: seq<Target>, d: Date)
    ensures forall t :: t in OnDate(Watched(targets), d) <==> InSession(targets, t, d)
  {
    WatchedMembers(targets);
    DatedMembers(Watched(targets), d);
  }

  lemma SpyMembers(targets: seq<Target>, d: Date)
    ensures forall t :: t in SpyTargets(OnDate(Watched(targets), d)) <==> InSession(targets, t, d) && t.symbol == SPY
    ensures ByIndex(SpyTargets(OnDate(Watched(targets), d)))
  {
    var list := OnDate(Watched(targets), d);
    var spy := OfSymbol(list, SPY);
    SessionMembers(targets, d);
    SymbolMembers(list, SPY);
    Sorting.SortKeepsMembers(spy, NoLater);
    Sorting.SortSorts(spy, NoLater);
    forall i, j | 0 <= i < j < |SpyTargets(list)| ensures SpyTargets(list)[i].index <= SpyTargets(list)[j].index {
      assert NoLater(SpyTargets(list)[i], SpyTargets(list)[j]);
    }
  }

  ghost predicate ByIndex(ts: seq<Target>) { forall i, j | 0 <= i < j < |ts| :: ts[i].index <= ts[j].index }

  // --- The law of the records ---

  predicate Partner(targets: seq<Target>, t: Target, u: Target) {
    InSession(targets, u, t.date) && u.symbol == RSP && u.index == t.index
  }

  /** The reading of an SPY target: nothing without a partner, otherwise the worse of its own and a partner's state. */
  ghost predicate ReadingLaw(reading: Reading, targets: seq<Target>, t: Target, c: Candidate) {
    if exists u :: Partner(targets, t, u)
    then exists u :: Partner(targets, t, u) && WorseOf(reading, Classify(t, c), Classify(u, c))
    else reading.None?
  }

  /** A session read in order: its SPY targets by index, their readings, and both recoveries of those. */
  datatype Reads = Reads(spy: seq<Target>, raw: seq<Reading>, two: seq<Reading>, three: seq<Reading>)

  ghost predicate ReadsSession(s: Reads, targets: seq<Target>, d: Date, c: Candidate) {
    && ByIndex(s.spy) && (forall t :: t in s.spy <==> InSession(targets, t, d) && t.symbol == SPY)
    && |s.raw| == |s.spy| && (forall j: nat | j < |s.spy| :: ReadingLaw(s.raw[j], targets, s.spy[j], c))
    && Lawful(s.raw, s.two, 2) && Lawful(s.raw, s.three, 3)
  }

  /** The record shows a pair of the session, with the states that the session reads at its place. */
  ghost predicate RecordLaw(r: Record, targets: seq<Target>, c: Candidate) {
    && InSession(targets, r.spy, r.date) && r.spy.symbol == SPY && r.index == r.spy.index
    && Partner(targets, r.spy, r.rsp) && WorseOf(r.raw, Classify(r.spy, c), Classify(r.rsp, c))
    && exists s, m: nat :: ReadsSession(s, targets, r.date, c) && m < |s.spy| == |s.two| == |s.three|
                           && s.spy[m] == r.spy && s.raw[m] == r.raw && s.two[m] == r.two && s.three[m] == r.three
  }

  lemma {:induction false} RspExists(ts: seq<Target>, t: Target)
    requires t in ts && t.symbol == RSP
    ensures RspAt(ts, t.index).Some?
  {
    if ts[|ts| - 1] != t {
      RspExists(ts[..|ts| - 1], t);
    }
  }

  function SessionReads(targets: seq<Target>, d: Date, c: Candidate): Reads {
    var list := OnDate(Watched(targets), d);
    var raw := RawReadings(list, c);
    Reads(SpyTargets(list), raw, Recovered(raw, 2), Recovered(raw, 3))
  }

  lemma RspIsPartner(targets: seq<Target>, t: Target)
    requires !t.closing && t in targets
    ensures var r := RspAt(OnDate(Watched(targets), t.date), t.index);
            if r.Some? then Partner(targets, t, r.value) else !exists u :: Partner(targets, t, u)
  {
    var list := OnDate(Watched(targets), t.date);
    SessionMembers(targets, t.date);
    RspFound(list, t.index);
    if u :| Partner(targets, t, u) {
      RspExists(list, u);
    }
  }

  lemma ReadingIsLawful(targets: seq<Target>, t: Target, c: Candidate)
    requires !t.closing && t in targets
    ensures ReadingLaw(RawAt(OnDate(Watched(targets), t.date), t, c), targets, t, c)
  {
    RspIsPartner(targets, t);
    var r := RspAt(OnDate(Watched(targets), t.date), t.index);
    if r.Some? {
      PairIsWorse(Classify(t, c), Classify(r.value, c));
      assert Partner(targets, t, r.value);
    }
  }

  lemma SessionReadsSession(targets: seq<Target>, d: Date, c: Candidate)
    ensures ReadsSession(SessionReads(targets, d, c), targets, d, c)
  {
    var s, list := SessionReads(targets, d, c), OnDate(Watched(targets), d);
    SpyMembers(targets, d);
    RecoveredIsLawful(s.raw, 2);
    RecoveredIsLawful(s.raw, 3);
    forall j: nat | j < |s.spy| ensures ReadingLaw(s.raw[j], targets, s.spy[j], c) {
      var t := s.spy[j];
      assert t in s.spy;
      ReadingIsLawful(targets, t, c);
    }
  }

  // --- Every record, and no other ---

  /** The record of place `m` in the list of a session. */
  function RecordOf(list: seq<Target>, d: Date, c: Candidate, m: nat): Record
    requires m < |SpyTargets(list)| && RspAt(list, SpyTargets(list)[m].index).Some?
  {
    var t, raw := SpyTargets(list)[m], RawReadings(list, c);
    Record(d, t.index, raw[m], Recovered(raw, 2)[m], Recovered(raw, 3)[m], t, RspAt(list, t.index).value)
  }

  ghost predicate IsRecordAt(r: Record, list: seq<Target>, d: Date, c: Candidate, m: nat) {
    m < |SpyTargets(list)| && RspAt(list, SpyTargets(list)[m].index).Some? && r == RecordOf(list, d, c, m)
  }

  lemma {:induction false} PlaceOfRecord(list: seq<Target>, d: Date, c: Candidate, n: nat, r: Record) returns (m: nat)
    requires n <= |SpyTargets(list)| && r in RecordsOn(list, d, c, n)
    ensures m < n && IsRecordAt(r, list, d, c, m)
  {
    if r in RecordsOn(list, d, c, n - 1) {
      m := PlaceOfRecord(list, d, c, n - 1, r);
    } else {
      m := n - 1;
    }
  }

  lemma {:induction false} SessionOfRecord(ts: seq<Target>, dates: seq<Date>, c: Candidate, r: Record)
    returns (d: Date, m: nat)
    requires r in RecordsOf(ts, dates, c)
    ensures IsRecordAt(r, OnDate(ts, d), d, c, m)
  {
    var init, last := dates[..|dates| - 1], dates[|dates| - 1];
    if r in RecordsOf(ts, init, c) {
      d, m := SessionOfRecord(ts, init, c, r);
    } else {
      d := last;
      m := PlaceOfRecord(OnDate(ts, d), d, c, |SpyTargets(OnDate(ts, d))|, r);
    }
  }

  lemma {:induction false} RecordListed(list: seq<Target>, d: Date, c: Candidate, m: nat, n: nat)
    requires m < n <= |SpyTargets(list)| && RspAt(list, SpyTargets(list)[m].index).Some?
    ensures RecordOf(list, d, c, m) in RecordsOn(list, d, c, n)
    decreases n
  {
    if m < n - 1 {
      RecordListed(list, d, c, m, n - 1);
    }
  }

  lemma {:induction false} SessionListed(ts: seq<Target>, dates: seq<Date>, c: Candidate, d: Date, r: Record)
    requires d in dates && r in AllRecordsOn(OnDate(ts, d), d, c)
    ensures r in RecordsOf(ts, dates, c)
  {
    if dates[|dates| - 1] != d {
      SessionListed(ts, dates[..|dates| - 1], c, d, r);
    }
  }

  lemma {:induction false} DateListed(ts: seq<Target>, t: Target)
    requires t in ts
    ensures t.date in DatesOf(ts)
  {
    if ts[|ts| - 1] != t {
      DateListed(ts[..|ts| - 1], t);
    }
  }

  lemma RecordIsLawful(targets: seq<Target>, c: Candidate, r: Record)
    requires r in CandidateRecordsOf(targets, c)
    ensures RecordLaw(r, targets, c)
  {
    var d, m := SessionOfRecord(Watched(targets), DatesOf(Watched(targets)), c, r);
    var s := SessionReads(targets, d, c);
    SessionReadsSession(targets, d, c);
    assert s.spy[m] in s.spy;
    RspIsPartner(targets, r.spy);
    PairIsWorse(Classify(r.spy, c), Classify(r.rsp, c));
    assert s.spy[m] == r.spy && s.raw[m] == r.raw && s.two[m] == r.two && s.three[m] == r.three;
  }

  /** Every SPY target before the close that has a partner has its record. */
  lemma PairIsRecorded(targets: seq<Target>, c: Candidate, t: Target)
    requires t in targets && !t.closing && t.symbol == SPY && exists u :: Partner(targets, t, u)
    ensures exists r :: r in CandidateRecordsOf(targets, c) && r.spy == t
  {
    var d := t.date;
    var list := OnDate(Watched(targets), d);
    SpyMembers(targets, d);
    assert t in SpyTargets(list);
    var m: nat :| m < |SpyTargets(list)| && SpyTargets(list)[m] == t;
    RspIsPartner(targets, t);
    RecordListed(list, d, c, m, |SpyTargets(list)|);
    WatchedMembers(targets);
    DateListed(Watched(targets), t);
    SessionListed(Watched(targets), DatesOf(Watched(targets)), c, d, RecordOf(list, d, c, m));
  }

  // --- The order of the records ---

  /** Some target before the close has date `d`, and none up to it has date `later`. */
  ghost predicate SeenBefore(targets: seq<Target>, d: Date, later: Date) {
    exists p: nat :: p < |targets| && InSession(targets, targets[p], d)
                     && forall q: nat | q <= p :: !InSession(targets, targets[q], later)
  }

  /** The records of a date stand together, by index; dates stand as they are first seen. */
  ghost predicate InOrder(records: seq<Record>, targets: seq<Target>) {
    forall i: nat, j: nat | i < j < |records| ::
      if records[i].date == records[j].date then records[i].index <= records[j].index
      else SeenBefore(targets, records[i].date, records[j].date)
  }

  ghost predicate Seen(targets: seq<Target>, d: Date) { exists t :: InSession(targets, t, d) }

  lemma SeenStays(targets: seq<Target>, d: Date, later: Date)
    requires targets != [] && SeenBefore(targets[..|targets| - 1], d, later)
    ensures SeenBefore(targets, d, later)
  {
    var init := targets[..|targets| - 1];
    var p: nat :| p < |init| && InSession(init, init[p], d)
                  && forall q: nat | q <= p :: !InSession(init, init[q], later);
    assert InSession(targets, targets[p], d);
    forall q: nat | q <= p ensures !InSession(targets, targets[q], later) {
      assert targets[q] == init[q];
    }
  }

  ghost predicate DatesSeen(targets: seq<Target>, dates: seq<Date>) {
    && (forall d :: d in dates <==> Seen(targets, d))
    && forall i: nat, j: nat | i < j < |dates| :: dates[i] != dates[j] && SeenBefore(targets, dates[i], dates[j])
  }

  lemma DatesOneMore(init: seq<Target>, t: Target)
    ensures var before := DatesOf(Watched(init));
            DatesOf(Watched(init + [t])) == if t.closing || t.date in before then before else before + [t.date]
  {
    assert (init + [t])[..|init|] == init;
    if t.closing {
      var before := Watched(init);
      assert Watched(init + [t]) == before + [] == before;
    } else {
      assert Watched(init + [t]) == Watched(init) + [t];
      assert (Watched(init) + [t])[..|Watched(init)|] == Watched(init);
    }
  }

  lemma {:induction false} DatesAreSeen(targets: seq<Target>)
    ensures DatesSeen(targets, DatesOf(Watched(targets)))
  {
    if targets != [] {
      var n := |targets| - 1;
      var init, t := targets[..n], targets[n];
      assert targets == init + [t];
      DatesAreSeen(init);
      DatesOneMore(init, t);
      OneMoreSeen(targets, init, t, DatesOf(Watched(init)));
    }
  }

  lemma OneMoreSeen(targets: seq<Target>, init: seq<Target>, t: Target, before: seq<Date>)
    requires targets == init + [t] && DatesSeen(init, before)
    ensures DatesSeen(targets, if t.closing || t.date in before then before else before + [t.date])
  {
    var dates := if t.closing || t.date in before then before else before + [t.date];
    assert init == targets[..|targets| - 1];
    forall d ensures d in dates <==> Seen(targets, d) {
      SeenInit(targets, init, t, d);
    }
    forall i: nat, j: nat | i < j < |dates|
      ensures dates[i] != dates[j] && SeenBefore(targets, dates[i], dates[j])
    {
      assert dates[i] == before[i];
      if j < |before| {
        SeenStays(targets, dates[i], dates[j]);
      } else {
        NewDateComesLast(targets, init, dates[i], t.date);
      }
    }
  }

  lemma SeenInit(targets: seq<Target>, init: seq<Target>, t: Target, d: Date)
    requires targets == init + [t]
    ensures Seen(targets, d) <==> Seen(init, d) || (!t.closing && t.date == d)
  {
    if u :| InSession(init, u, d) {
      assert InSession(targets, u, d);
    }
    if !t.closing && t.date == d {
      assert InSession(targets, t, d);
    }
    if u :| InSession(targets, u, d) {
      assert u == t || InSession(init, u, d);
    }
  }

  lemma NewDateComesLast(targets: seq<Target>, init: seq<Target>, d: Date, later: Date)
    requires targets != [] && init == targets[..|targets| - 1] && Seen(init, d) && !Seen(init, later)
    ensures SeenBefore(targets, d, later)
  {
    var t :| InSession(init, t, d);
    var p: nat :| p < |init| && init[p] == t;
    assert InSession(targets, targets[p], d);
    forall q: nat | q <= p ensures !InSession(targets, targets[q], later) {
      assert targets[q] == init[q] && !InSession(init, init[q], later);
    }
  }

  /** Records of one date by index, none above the bound. */
  ghost predicate Climbs(records: seq<Record>, d: Date, bound: int) {
    && (forall r | r in records :: r.date == d && r.index <= bound)
    && forall i, j | 0 <= i < j < |records| :: records[i].index <= records[j].index
  }

  lemma ClimbsOn(records: seq<Record>, d: Date, bound: int, r: Record)
    requires Climbs(records, d, bound) && r.date == d && bound <= r.index
    ensures Climbs(records + [r], d, r.index)
  {
  }

  lemma {:induction false} SessionClimbs(list: seq<Target>, d: Date, c: Candidate, n: nat)
    requires 1 <= n <= |SpyTargets(list)| && ByIndex(SpyTargets(list))
    ensures Climbs(RecordsOn(list, d, c, n), d, SpyTargets(list)[n - 1].index)
  {
    var t := SpyTargets(list)[n - 1];
    var before := RecordsOn(list, d, c, n - 1);
    if n > 1 {
      SessionClimbs(list, d, c, n - 1);
      assert SpyTargets(list)[n - 2].index <= t.index;
    }
    assert Climbs(before, d, t.index);
    if RspAt(list, t.index).Some? {
      ClimbsOn(before, d, t.index, RecordOf(list, d, c, n - 1));
      assert RecordsOn(list, d, c, n) == before + [RecordOf(list, d, c, n - 1)];
    }
  }

  ghost predicate Dates(records: seq<Record>, dates: seq<Date>) { forall r | r in records :: r.date in dates }

  lemma SessionFollows(targets: seq<Target>, before: seq<Record>, init: seq<Date>, more: seq<Record>,
                       dates: seq<Date>, top: int)
    requires dates != [] && init == dates[..|dates| - 1]
    requires InOrder(before, targets) && Dates(before, init) && Climbs(more, dates[|dates| - 1], top)
    requires forall e | e in init :: e != dates[|dates| - 1] && SeenBefore(targets, e, dates[|dates| - 1])
    ensures InOrder(before + more, targets) && Dates(before + more, dates)
  {
  }

  lemma SessionIsInOrder(targets: seq<Target>, d: Date, c: Candidate) returns (top: int)
    ensures Climbs(AllRecordsOn(OnDate(Watched(targets), d), d, c), d, top)
  {
    var list := OnDate(Watched(targets), d);
    var n := |SpyTargets(list)|;
    assert ByIndex(SpyTargets(list)) by {
      SpyMembers(targets, d);
    }
    if n > 0 {
      SessionClimbs(list, d, c, n);
    }
    top := if n > 0 then SpyTargets(list)[n - 1].index else 0;
  }

  lemma {:induction false} RecordsInOrder(targets: seq<Target>, c: Candidate, dates: seq<Date>, all: seq<Date>)
    requires DatesSeen(targets, all) && |dates| <= |all| && dates == all[..|dates|]
    ensures InOrder(RecordsOf(Watched(targets), dates, c), targets)
    ensures Dates(RecordsOf(Watched(targets), dates, c), dates)
    decreases |dates|
  {
    if dates != [] {
      var n := |dates| - 1;
      var init, d := dates[..n], dates[n];
      RecordsInOrder(targets, c, init, all);
      var top := SessionIsInOrder(targets, d, c);
      assert forall e | e in init :: e != d && SeenBefore(targets, e, d);
      SessionFollows(targets, RecordsOf(Watched(targets), init, c), init,
                     AllRecordsOn(OnDate(Watched(targets), d), d, c), dates, top);
    }
  }

  /** Every record is lawful, every pair of targets has its record, and the records are in order. */
  ghost predicate AllLawful(records: seq<Record>, targets: seq<Target>, c: Candidate) {
    && (forall r | r in records :: RecordLaw(r, targets, c)) && InOrder(records, targets)
    && forall t | t in targets && !t.closing && t.symbol == SPY && (exists u :: Partner(targets, t, u)) ::
         exists r :: r in records && r.spy == t
  }

  lemma RecordsAreLawful(targets: seq<Target>, c: Candidate)
    ensures AllLawful(CandidateRecordsOf(targets, c), targets, c)
  {
    var records := CandidateRecordsOf(targets, c);
    forall r | r in records ensures RecordLaw(r, targets, c) {
      RecordIsLawful(targets, c, r);
    }
    forall t | t in targets && !t.closing && t.symbol == SPY && exists u :: Partner(targets, t, u)
      ensures exists r :: r in records && r.spy == t
    {
      PairIsRecorded(targets, c, t);
    }
    var dates := DatesOf(Watched(targets));
    DatesAreSeen(targets);
    RecordsInOrder(targets, c, dates, dates);
  }

  // --- The law of the episodes ---

  predicate Follows(a: Record, b: Record) { a.date == b.date && a.index + 1 == b.index }

  /** Records `s` to `e` follow one another at the level, and could not be more on either side. */
  ghost predicate Stretch(records: seq<Record>, at: Record -> bool, s: nat, e: nat) {
    && s < e <= |records| && (forall i: nat | s <= i < e :: at(records[i]))
    && (forall i: nat | s < i < e :: Follows(records[i - 1], records[i]))
    && !(s > 0 && at(records[s - 1]) && Follows(records[s - 1], records[s]))
    && !(e < |records| && at(records[e]) && Follows(records[e - 1], records[e]))
  }

  /** What an episode reports of such a stretch: 15 minutes a bar, 5 less when no later target of its session stands
      before the close. */
  ghost predicate Describes(x: Episode, records: seq<Record>, s: nat, e: nat, targets: seq<Target>)
    requires s < e <= |records|
  {
    && x.date == records[s].date && x.start == records[s].index && x.end == records[e - 1].index && x.bars == e - s
    && (x.closingCensored <==>
          forall t | InSession(targets, t, records[e - 1].date) :: t.index <= records[e - 1].index)
    && x.minutes == 15 * (e - s) - if x.closingCensored then 5 else 0
  }

  ghost predicate ListsStretches(list: seq<Episode>, records: seq<Record>, at: Record -> bool, targets: seq<Target>,
                                 blocks: seq<Segments.Segment>)
  {
    && |blocks| == |list| && Segments.Ordered(blocks)
    && (forall s: nat, e: nat :: Segments.Segment(s, e) in blocks <==> Stretch(records, at, s, e))
    && forall j | 0 <= j < |list| :: blocks[j].start < blocks[j].end <= |records|
                                     && Describes(list[j], records, blocks[j].start, blocks[j].end, targets)
  }

  ghost function Where(records: seq<Record>, at: Record -> bool): set<nat> {
    set i: nat | i < |records| && at(records[i])
  }

  /** The episodes are the stretches in order; their bars are the records at the level; the figures are theirs. */
  ghost predicate DurationLaw(d: Duration, records: seq<Record>, at: Record -> bool, targets: seq<Target>) {
    && (exists blocks :: ListsStretches(d.list, records, at, targets, blocks))
    && TotalBars(d.list) == |Where(records, at)| && FiguresLaw(d.figures, d.list)
  }

  lemma BlockIsStretch(records: seq<Record>, key: Smoothing, floor: int, at: Record -> bool, s: Segments.Segment)
    requires forall r :: at(r) <==> AtFloor(r, key, floor)
    ensures MaximalBlock(records, key, floor, s) <==> Stretch(records, at, s.start, s.end)
  {
    forall i: nat ensures CarriesOn(records, key, floor, i) <==>
        0 < i < |records| && at(records[i - 1]) && at(records[i]) && Follows(records[i - 1], records[i]) {
    }
  }

  lemma CensoredMeaning(targets: seq<Target>, c: Candidate, r: Record)
    requires r in CandidateRecordsOf(targets, c)
    ensures var grouped := GroupedOf(Watched(targets));
            r.date in grouped && grouped[r.date] != []
            && (Closing(r, grouped) <==> forall t | InSession(targets, t, r.date) :: t.index <= r.index)
  {
    RecordIsLawful(targets, c, r);
    GroupOfDate(Watched(targets), r.date);
    SessionMembers(targets, r.date);
    var group := OnDate(Watched(targets), r.date);
    assert r.spy in group;
    var top := MaxIndex(group);
    var t :| t in group && t.index == top;
    assert InSession(targets, t, r.date);
  }

  lemma EpisodeDescribes(targets: seq<Target>, c: Candidate, s: Segments.Segment)
    requires s.start < s.end <= |CandidateRecordsOf(targets, c)|
    ensures var records, grouped := CandidateRecordsOf(targets, c), GroupedOf(Watched(targets));
            GroupedRecords(records, grouped)
            && Describes(EpisodeOf(records, grouped, s), records, s.start, s.end, targets)
  {
    var records, grouped := CandidateRecordsOf(targets, c), GroupedOf(Watched(targets));
    assert GroupedRecords(records, grouped) by { RecordsAreGrouped(Watched(targets), c); }
    var last := records[s.end - 1];
    assert last in records;
    assert last.date in grouped && grouped[last.date] != [] && LastBeforeClose(targets, last, grouped) by {
      CensoredMeaning(targets, c, last);
    }
    FieldsDescribe(records, grouped, targets, s);
  }

  ghost predicate LastBeforeClose(targets: seq<Target>, r: Record, grouped: map<Date, seq<Target>>)
    requires r.date in grouped && grouped[r.date] != []
  {
    Closing(r, grouped) <==> forall t | InSession(targets, t, r.date) :: t.index <= r.index
  }

  lemma FieldsDescribe(records: seq<Record>, grouped: map<Date, seq<Target>>, targets: seq<Target>, s: Segments.Segment)
    requires s.start < s.end <= |records| && GroupedRecords(records, grouped)
    requires var last := records[s.end - 1];
             last.date in grouped && grouped[last.date] != [] && LastBeforeClose(targets, last, grouped)
    ensures Describes(EpisodeOf(records, grouped, s), records, s.start, s.end, targets)
  {
  }

  lemma EpisodesAreStretches(targets: seq<Target>, c: Candidate, key: Smoothing, floor: int, at: Record -> bool,
                             list: seq<Episode>)
    requires forall r :: at(r) <==> AtFloor(r, key, floor)
    requires GroupedRecords(CandidateRecordsOf(targets, c), GroupedOf(Watched(targets)))
    requires var records := CandidateRecordsOf(targets, c);
             list == Episodes(records, GroupedOf(Watched(targets)), Blocks(records, key, floor, |records|))
    ensures exists blocks :: ListsStretches(list, CandidateRecordsOf(targets, c), at, targets, blocks)
  {
    var records := CandidateRecordsOf(targets, c);
    var blocks := Blocks(records, key, floor, |records|);
    BlocksAreMaximal(records, key, floor);
    forall s: nat, e: nat ensures Segments.Segment(s, e) in blocks <==> Stretch(records, at, s, e) {
      BlockIsStretch(records, key, floor, at, Segments.Segment(s, e));
    }
    forall j | 0 <= j < |list| ensures blocks[j].start < blocks[j].end <= |records|
                                       && Describes(list[j], records, blocks[j].start, blocks[j].end, targets) {
      EpisodeDescribes(targets, c, blocks[j]);
    }
    assert ListsStretches(list, records, at, targets, blocks);
  }

  lemma BarsAreRecords(targets: seq<Target>, c: Candidate, key: Smoothing, floor: int, at: Record -> bool,
                       list: seq<Episode>)
    requires forall r :: at(r) <==> AtFloor(r, key, floor)
    requires GroupedRecords(CandidateRecordsOf(targets, c), GroupedOf(Watched(targets)))
    requires var records := CandidateRecordsOf(targets, c);
             list == Episodes(records, GroupedOf(Watched(targets)), Blocks(records, key, floor, |records|))
    ensures TotalBars(list) == |Where(CandidateRecordsOf(targets, c), at)|
  {
    var records := CandidateRecordsOf(targets, c);
    EpisodesAccount(records, GroupedOf(Watched(targets)), key, floor);
    Segments.FlagCardinality(Inside(records, key, floor), |records|);
    assert Segments.Flagged(Inside(records, key, floor), |records|) == Where(records, at);
  }

  /** One smoothing at one floor; `at` says the same on the fields of a record. */
  method DurationAt(records: seq<Record>, grouped: map<Date, seq<Target>>, key: Smoothing, floor: int,
                    ghost targets: seq<Target>, ghost c: Candidate, ghost at: Record -> bool) returns (d: Duration)
    requires records == CandidateRecordsOf(targets, c) && grouped == GroupedOf(Watched(targets))
    requires forall r :: at(r) <==> AtFloor(r, key, floor)
    ensures DurationLaw(d, records, at, targets)
    ensures GroupedRecords(records, grouped)
            && d.list == Episodes(records, grouped, Blocks(records, key, floor, |records|))
  {
    RecordsAreGrouped(Watched(targets), c);
    var list := StressRuns(records, grouped, key, floor);
    EpisodesAreStretches(targets, c, key, floor, at, list);
    BarsAreRecords(targets, c, key, floor, at, list);
    FiguresAreLawful(list);
    d := Duration(FiguresOf(list), list);
  }

  datatype Duration = Duration(figures: Figures, list: seq<Episode>)
  datatype Durations = Durations(highOrSevere: Duration, severe: Duration)

  function RawReaches(v: int): Record -> bool { (r: Record) => r.raw.Some? && r.raw.value >= v }

  function TwoReaches(v: int): Record -> bool { (r: Record) => r.two.Some? && r.two.value >= v }

  function ThreeReaches(v: int): Record -> bool { (r: Record) => r.three.Some? && r.three.value >= v }

  /** The two conditions say of a record's fields that the smoothing has it at floor 2, and at floor 3. */
  ghost predicate Floors(key: Smoothing, high: Record -> bool, severe: Record -> bool) {
    forall r :: (high(r) <==> AtFloor(r, key, 2)) && (severe(r) <==> AtFloor(r, key, 3))
  }

  lemma FloorsAreFields()
    ensures Floors(Raw, RawReaches(2), RawReaches(3)) && Floors(Two, TwoReaches(2), TwoReaches(3))
    ensures Floors(Three, ThreeReaches(2), ThreeReaches(3))
  {
  }

  ghost predicate DurationsLaw(d: Durations, records: seq<Record>, high: Record -> bool, severe: Record -> bool,
                               targets: seq<Target>)
  {
    DurationLaw(d.highOrSevere, records, high, targets) && DurationLaw(d.severe, records, severe, targets)
  }

  method DurationsAt(records: seq<Record>, grouped: map<Date, seq<Target>>, key: Smoothing,
                     ghost targets: seq<Target>, ghost c: Candidate, ghost high: Record -> bool,
                     ghost severe: Record -> bool) returns (d: Durations)
    requires records == CandidateRecordsOf(targets, c) && grouped == GroupedOf(Watched(targets))
    requires Floors(key, high, severe)
    ensures DurationsLaw(d, records, high, severe, targets)
  {
    var h := DurationAt(records, grouped, key, 2, targets, c, high);
    var s := DurationAt(records, grouped, key, 3, targets, c, severe);
    d := Durations(h, s);
  }

  /** The duration lists of the analysis: each smoothing at floors 2 and 3, over the records of the targets. */
  method CandidateDurations(targets: seq<Target>, c: Candidate)
    returns (raw: Durations, two: Durations, three: Durations, records: seq<Record>)
    ensures records == CandidateRecordsOf(targets, c) && AllLawful(records, targets, c)
    ensures DurationsLaw(raw, records, RawReaches(2), RawReaches(3), targets)
    ensures DurationsLaw(two, records, TwoReaches(2), TwoReaches(3), targets)
    ensures DurationsLaw(three, records, ThreeReaches(2), ThreeReaches(3), targets)
  {
    var grouped;
    records, grouped := CandidateRecords(targets, c);
    RecordsAreLawful(targets, c);
    FloorsAreFields();
    raw := DurationsAt(records, grouped, Raw, targets, c, RawReaches(2), RawReaches(3));
    two := DurationsAt(records, grouped, Two, targets, c, TwoReaches(2), TwoReaches(3));
    three := DurationsAt(records, grouped, Three, targets, c, ThreeReaches(2), ThreeReaches(3));
  }
}
