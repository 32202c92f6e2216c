/** Candidate records and stress episodes of src/dev/intraday-stress-analysis.ts. */
module StressAnalysis {
  import opened Wrappers
  import opened StressCalculation
  import opened StressSeverity
  import opened StressRecovery
  import Segments
  import Sorting
  import Statistics

  datatype Record = Record(date: Date, index: int, raw: Severity, two: Severity, three: Severity,
                           spy: Target, rsp: Target)
  datatype Smoothing = Raw | Two | Three
  datatype Episode = Episode(date: Date, start: int, end: int, bars: nat, minutes: int, closingCensored: bool)

  // --- Records: one per date and index that both instruments report ---

  function Watched(targets: seq<Target>): seq<Target> {
    if targets == [] then []
    else
      var t := targets[|targets| - 1];
      Watched(targets[..|targets| - 1]) + if t.closing then [] else [t]
  }

  /** The dates in order of first appearance, and the targets of one date in their order. */
  function DatesOf(ts: seq<Target>): seq<Date> {
    if ts == [] then []
    else
      var before, d := DatesOf(ts[..|ts| - 1]), ts[|ts| - 1].date;
      if d in before then before else before + [d]
  }

  function OnDate(ts: seq<Target>, d: Date): (r: seq<Target>)
    ensures forall t | t in r :: t in ts && t.date == d
  {
    if ts == [] then []
    else OnDate(ts[..|ts| - 1], d) + if ts[|ts| - 1].date == d then [ts[|ts| - 1]] else []
  }

  function OfSymbol(ts: seq<Target>, s: Symbol): (r: seq<Target>)
    ensures forall t | t in r :: t in ts && t.symbol == s
  {
    if ts == [] then []
    else OfSymbol(ts[..|ts| - 1], s) + if ts[|ts| - 1].symbol == s then [ts[|ts| - 1]] else []
  }

  predicate NoLater(a: Target, b: Target) { a.index <= b.index }

  /** The last RSP target with this index: a later one replaces an earlier one. */
  function RspAt(ts: seq<Target>, index: int): Option<Target> {
    if ts == [] then None
    else
      var t := ts[|ts| - 1];
      if t.symbol == RSP && t.index == index then Some(t) else RspAt(ts[..|ts| - 1], index)
  }

  function SpyTargets(rows: seq<Target>): seq<Target> { Sorting.Sort(OfSymbol(rows, SPY), NoLater) }

  function RawAt(rows: seq<Target>, t: Target, c: Candidate): Severity {
    var r := RspAt(rows, t.index);
    if r.None? then None else Pair(Classify(t, c), Classify(r.value, c))
  }

  function RawReadings(rows: seq<Target>, c: Candidate): (r: seq<Reading>)
    ensures |r| == |SpyTargets(rows)|
  {
    var spy := SpyTargets(rows);
    seq(|spy|, i requires 0 <= i < |spy| => RawAt(rows, spy[i], c))
  }

  /** The records of the first `n` SPY targets of one session. */
  function RecordsOn(rows: seq<Target>, date: Date, c: Candidate, n: nat): seq<Record>
    requires n <= |SpyTargets(rows)|
  {
    if n == 0 then []
    else
      var t, raw := SpyTargets(rows)[n - 1], RawReadings(rows, c);
      var r := RspAt(rows, t.index);
      RecordsOn(rows, date, c, n - 1)
      + if r.None? then []
        else [Record(date, t.index, raw[n - 1], Recovered(raw, 2)[n - 1], Recovered(raw, 3)[n - 1], t, r.value)]
  }

  function AllRecordsOn(rows: seq<Target>, date: Date, c: Candidate): seq<Record> {
    RecordsOn(rows, date, c, |SpyTargets(rows)|)
  }

  function RecordsOf(ts: seq<Target>, dates: seq<Date>, c: Candidate): seq<Record> {
    if dates == [] then []
    else
      var d := dates[|dates| - 1];
      RecordsOf(ts, dates[..|dates| - 1], c) + AllRecordsOn(OnDate(ts, d), d, c)
  }

  method SessionRecords(rows: seq<Target>, date: Date, c: Candidate) returns (records: seq<Record>)
    ensures records == AllRecordsOn(rows, date, c)
  {
    var spy := SpyTargets(rows);
    var raw := RawReadings(rows, c);
    var two := Recover(raw, 2);
    var three := Recover(raw, 3);
    records := [];
    for i := 0 to |spy|
      invariant records == RecordsOn(rows, date, c, i)
    {
      var r := RspAt(rows, spy[i].index);
      if r.Some? {
        records := records + [Record(date, spy[i].index, raw[i], two[i], three[i], spy[i], r.value)];
      }
    }
  }

  /** The targets filed by date, one at a time. */
  function GroupedOf(ts: seq<Target>): map<Date, seq<Target>> {
    if ts == [] then map[]
    else
      var before, t := GroupedOf(ts[..|ts| - 1]), ts[|ts| - 1];
      before[t.date := (if t.date in before then before[t.date] else []) + [t]]
  }

  lemma {:induction false} GroupOfDate(ts: seq<Target>, d: Date)
    ensures d in GroupedOf(ts) <==> d in DatesOf(ts)
    ensures OnDate(ts, d) == if d in GroupedOf(ts) then GroupedOf(ts)[d] else []
  {
    if ts != [] {
      GroupOfDate(ts[..|ts| - 1], d);
      GroupOfDate(ts[..|ts| - 1], ts[|ts| - 1].date);
    }
  }

  method GroupByDate(ts: seq<Target>) returns (dates: seq<Date>, grouped: map<Date, seq<Target>>)
    ensures dates == DatesOf(ts) && grouped == GroupedOf(ts)
  {
    dates, grouped := [], map[];
    for i := 0 to |ts|
      invariant dates == DatesOf(ts[..i]) && grouped == GroupedOf(ts[..i])
    {
      var t := ts[i];
      assert ts[..i + 1][..i] == ts[..i];
      GroupOfDate(ts[..i], t.date);
      var rows := if t.date in grouped then grouped[t.date] else [];
      if t.date !in grouped {
        dates := dates + [t.date];
      }
      grouped := grouped[t.date := rows + [t]];
    }
    assert ts[..|ts|] == ts;
  }

  lemma RecordsOfOneMore(ts: seq<Target>, dates: seq<Date>, i: nat, c: Candidate)
    requires i < |dates|
    ensures RecordsOf(ts, dates[..i + 1], c)
            == RecordsOf(ts, dates[..i], c) + AllRecordsOn(OnDate(ts, dates[i]), dates[i], c)
  {
    assert dates[..i + 1][..i] == dates[..i];
  }

  lemma DateIsGrouped(ts: seq<Target>, i: nat)
    requires i < |DatesOf(ts)|
    ensures DatesOf(ts)[i] in GroupedOf(ts) && GroupedOf(ts)[DatesOf(ts)[i]] == OnDate(ts, DatesOf(ts)[i])
  {
    GroupOfDate(ts, DatesOf(ts)[i]);
    assert DatesOf(ts)[i] in DatesOf(ts);
  }

  method CandidateRecords(targets: seq<Target>, c: Candidate)
    returns (records: seq<Record>, grouped: map<Date, seq<Target>>)
    ensures records == RecordsOf(Watched(targets), DatesOf(Watched(targets)), c)
    ensures grouped == GroupedOf(Watched(targets))
  {
    var ts := Watched(targets);
    var dates;
    dates, grouped := GroupByDate(ts);
    records := [];
    for i := 0 to |dates|
      invariant records == RecordsOf(ts, dates[..i], c)
    {
      RecordsOfOneMore(ts, dates, i, c);
      DateIsGrouped(ts, i);
      var session := SessionRecords(grouped[dates[i]], dates[i], c);
      records := records + session;
    }
    assert dates[..|dates|] == dates;
  }

  /** What every record carries: more confirmations never lower the state, and it belongs to its session. */
  ghost predicate Nested(r: Record, rows: seq<Target>) {
    && AtMost(r.raw, r.two) && AtMost(r.two, r.three)
    && r.index == r.spy.index && r.spy in rows && r.rsp in rows && r.spy.symbol == SPY && r.rsp.symbol == RSP
    && r.rsp.index == r.index
  }

  lemma {:induction false} RspFound(ts: seq<Target>, index: int)
    ensures var r := RspAt(ts, index); r.Some? ==> r.value in ts && r.value.symbol == RSP && r.value.index == index
  {
    if ts != [] {
      RspFound(ts[..|ts| - 1], index);
    }
  }

  lemma {:induction false} SessionRecordsNested(rows: seq<Target>, date: Date, c: Candidate, n: nat)
    requires n <= |SpyTargets(rows)|
    ensures forall r | r in RecordsOn(rows, date, c, n) :: r.date == date && Nested(r, rows)
  {
    if n > 0 {
      SessionRecordsNested(rows, date, c, n - 1);
      var t, raw := SpyTargets(rows)[n - 1], RawReadings(rows, c);
      RspFound(rows, t.index);
      Sorting.SortKeepsMembers(OfSymbol(rows, SPY), NoLater);
      assert t in SpyTargets(rows);
      RecoverBounds(raw, 2, n - 1);
      RecoverMonotone(raw, raw, 2, 3);
    }
  }

  lemma {:induction false} RecordsNested(ts: seq<Target>, dates: seq<Date>, c: Candidate)
    ensures forall r | r in RecordsOf(ts, dates, c) :: r.date in dates && Nested(r, OnDate(ts, r.date))
  {
    if dates != [] {
      RecordsNested(ts, dates[..|dates| - 1], c);
      var d := dates[|dates| - 1];
      SessionRecordsNested(OnDate(ts, d), d, c, |SpyTargets(OnDate(ts, d))|);
    }
  }

  // --- Episodes: maximal blocks of one session at or above a floor ---

  function ReadingOf(r: Record, key: Smoothing): Severity {
    match key case Raw => r.raw case Two => r.two case Three => r.three
  }

  predicate AtFloor(r: Record, key: Smoothing, floor: int) {
    ReadingOf(r, key).Some? && ReadingOf(r, key).value >= floor
  }

  function Inside(records: seq<Record>, key: Smoothing, floor: int): (r: seq<bool>)
    ensures |r| == |records|
  {
    seq(|records|, i requires 0 <= i < |records| => AtFloor(records[i], key, floor))
  }

  /** A record may extend an episode when it follows by one index on the same date. */
  function Linked(records: seq<Record>): (r: seq<bool>)
    ensures |r| == |records|
  {
    seq(|records|, i requires 0 <= i < |records| =>
      i > 0 && records[i - 1].date == records[i].date && records[i - 1].index + 1 == records[i].index)
  }

  function MaxIndex(ts: seq<Target>): (m: int)
    requires ts != []
    ensures forall t | t in ts :: t.index <= m
    ensures exists t :: t in ts && t.index == m
  {
    if |ts| == 1 then assert ts[0] in ts; ts[0].index
    else
      var m, t := MaxIndex(ts[..|ts| - 1]), ts[|ts| - 1];
      assert t in ts;
      if t.index > m then t.index else m
  }

  ghost predicate GroupedRecords(records: seq<Record>, grouped: map<Date, seq<Target>>) {
    forall i | 0 <= i < |records| :: var r := records[i];
      r.date in grouped && r.spy in grouped[r.date] && r.index == r.spy.index
  }

  /** The record is the last its session can have before the close. */
  predicate Closing(r: Record, grouped: map<Date, seq<Target>>)
    requires r.date in grouped && grouped[r.date] != []
  {
    r.spy.index == MaxIndex(grouped[r.date])
  }

  /** The block `s` as an episode: 15 minutes a bar, less 5 when the close cuts it off. */
  function EpisodeOf(records: seq<Record>, grouped: map<Date, seq<Target>>, s: Segments.Segment): Episode
    requires s.start < s.end <= |records| && GroupedRecords(records, grouped)
  {
    var first, last := records[s.start], records[s.end - 1];
    var censored := Closing(last, grouped);
    Episode(first.date, first.index, last.index, s.end - s.start,
            15 * (s.end - s.start) - (if censored then 5 else 0), censored)
  }

  function Episodes(records: seq<Record>, grouped: map<Date, seq<Target>>, r: seq<Segments.Segment>): (e: seq<Episode>)
    requires Segments.WithinBounds(r, |records|) && GroupedRecords(records, grouped)
    ensures |e| == |r|
  {
    seq(|r|, j requires 0 <= j < |r| => EpisodeOf(records, grouped, r[j]))
  }

  function Blocks(records: seq<Record>, key: Smoothing, floor: int, n: nat): (r: seq<Segments.Segment>)
    requires n <= |records|
    ensures Segments.WithinBounds(r, |records|)
  {
    Segments.RunsOrdered(Inside(records, key, floor), Linked(records), n);
    Segments.Runs(Inside(records, key, floor), Linked(records), n)
  }

  /** A record that joins the block `s` adds one bar; the block had not reached the close before it. */
  lemma EpisodeExtends(records: seq<Record>, grouped: map<Date, seq<Target>>, s: Segments.Segment)
    requires s.start < s.end < |records| && GroupedRecords(records, grouped) && Linked(records)[s.end]
    ensures EpisodeOf(records, grouped, Segments.Segment(s.start, s.end + 1))
            == Extended(EpisodeOf(records, grouped, s), records[s.end], grouped)
  {
    var before, r := records[s.end - 1], records[s.end];
    assert before.date == r.date && r.spy in grouped[r.date];
    assert !Closing(before, grouped);
  }

  function Extended(e: Episode, r: Record, grouped: map<Date, seq<Target>>): Episode
    requires r.date in grouped && grouped[r.date] != []
  {
    var censored := Closing(r, grouped);
    Episode(e.date, e.start, r.index, e.bars + 1, e.minutes + (if censored then 10 else 15), censored)
  }

  lemma EpisodesSnoc(records: seq<Record>, grouped: map<Date, seq<Target>>, blocks: seq<Segments.Segment>,
                     s: Segments.Segment)
    requires GroupedRecords(records, grouped) && Segments.WithinBounds(blocks, |records|)
    requires s.start < s.end <= |records|
    ensures Segments.WithinBounds(blocks + [s], |records|)
    ensures Episodes(records, grouped, blocks + [s])
            == Episodes(records, grouped, blocks) + [EpisodeOf(records, grouped, s)]
  {
  }

  function Opened(r: Record): Episode { Episode(r.date, r.index, r.index, 0, 0, false) }

  lemma BlockAdded(records: seq<Record>, grouped: map<Date, seq<Target>>, blocks: seq<Segments.Segment>, i: nat)
    requires i < |records| && GroupedRecords(records, grouped) && Segments.WithinBounds(blocks, i)
    ensures var more := blocks + [Segments.Segment(i, i + 1)];
            && Segments.WithinBounds(more, |records|)
            && Episodes(records, grouped, more) == Episodes(records, grouped, blocks)
                                                   + [Extended(Opened(records[i]), records[i], grouped)]
  {
    EpisodesSnoc(records, grouped, blocks, Segments.Segment(i, i + 1));
  }

  lemma BlockExtended(records: seq<Record>, grouped: map<Date, seq<Target>>, blocks: seq<Segments.Segment>,
                      last: Segments.Segment, i: nat)
    requires i < |records| && GroupedRecords(records, grouped) && Segments.WithinBounds(blocks, i)
    requires last.start < last.end == i && Linked(records)[i]
    ensures var more := blocks + [Segments.Segment(last.start, i + 1)];
            && Segments.WithinBounds(more, |records|)
            && Episodes(records, grouped, more) == Episodes(records, grouped, blocks)
               + [Extended(EpisodeOf(records, grouped, last), records[i], grouped)]
  {
    EpisodeExtends(records, grouped, last);
    EpisodesSnoc(records, grouped, blocks, Segments.Segment(last.start, i + 1));
  }

  predicate Joins(records: seq<Record>, key: Smoothing, floor: int, i: nat)
    requires i < |records|
  {
    i > 0 && AtFloor(records[i - 1], key, floor) && Linked(records)[i]
  }

  lemma BlocksOneMore(records: seq<Record>, key: Smoothing, floor: int, i: nat)
    requires i < |records|
    ensures var blocks, n := Blocks(records, key, floor, i), |Blocks(records, key, floor, i)|;
            Segments.WithinBounds(blocks, i)
            && if !AtFloor(records[i], key, floor) then Blocks(records, key, floor, i + 1) == blocks
               else if Joins(records, key, floor, i)
               then n > 0 && blocks[n - 1].end == i && Blocks(records, key, floor, i + 1)
                      == blocks[..n - 1] + [Segments.Segment(blocks[n - 1].start, i + 1)]
               else Blocks(records, key, floor, i + 1) == blocks + [Segments.Segment(i, i + 1)]
  {
    Segments.RunsOrdered(Inside(records, key, floor), Linked(records), i);
  }

  /** What one more record does to the list of episodes. */
  lemma EpisodesOneMore(records: seq<Record>, grouped: map<Date, seq<Target>>, key: Smoothing, floor: int, i: nat)
    requires i < |records| && GroupedRecords(records, grouped)
    ensures var before := Episodes(records, grouped, Blocks(records, key, floor, i));
            var after := Episodes(records, grouped, Blocks(records, key, floor, i + 1));
            var r, n := records[i], |before|;
            if !AtFloor(r, key, floor) then after == before
            else if Joins(records, key, floor, i)
            then n > 0 && after == before[..n - 1] + [Extended(before[n - 1], r, grouped)]
            else after == before + [Extended(Opened(r), r, grouped)]
  {
    BlocksOneMore(records, key, floor, i);
    if AtFloor(records[i], key, floor) {
      BlocksToEpisodes(records, grouped, Blocks(records, key, floor, i), Joins(records, key, floor, i), i);
    }
  }

  lemma BlocksToEpisodes(records: seq<Record>, grouped: map<Date, seq<Target>>, blocks: seq<Segments.Segment>,
                         joins: bool, i: nat)
    requires i < |records| && GroupedRecords(records, grouped) && Segments.WithinBounds(blocks, i)
    requires joins ==> blocks != [] && blocks[|blocks| - 1].end == i && Linked(records)[i]
    ensures var before, n, r := Episodes(records, grouped, blocks), |blocks|, records[i];
            var more := if joins then blocks[..n - 1] + [Segments.Segment(blocks[n - 1].start, i + 1)]
                        else blocks + [Segments.Segment(i, i + 1)];
            && Segments.WithinBounds(more, |records|)
            && Episodes(records, grouped, more) == if joins then before[..n - 1] + [Extended(before[n - 1], r, grouped)]
                                                   else before + [Extended(Opened(r), r, grouped)]
  {
    if joins {
      var n := |blocks| - 1;
      BlockExtended(records, grouped, blocks[..n], blocks[n], i);
      EpisodesSnoc(records, grouped, blocks[..n], blocks[n]);
      assert blocks == blocks[..n] + [blocks[n]];
    } else {
      BlockAdded(records, grouped, blocks, i);
    }
  }

  lemma LastEpisode(records: seq<Record>, grouped: map<Date, seq<Target>>, key: Smoothing, floor: int, i: nat)
    requires 0 < i <= |records| && GroupedRecords(records, grouped) && AtFloor(records[i - 1], key, floor)
    ensures var blocks := Blocks(records, key, floor, i);
            |blocks| > 0 && blocks[|blocks| - 1].end == i
    ensures var before := Episodes(records, grouped, Blocks(records, key, floor, i));
            |before| > 0 && before[|before| - 1].date == records[i - 1].date
            && before[|before| - 1].end == records[i - 1].index
  {
    var inside, n := Inside(records, key, floor), |Blocks(records, key, floor, i)|;
    Segments.RunIsSegment(inside, Linked(records), i, n - 1);
    OneDate(records, inside, Blocks(records, key, floor, i)[n - 1], i);
  }

  lemma {:induction false} OneDate(records: seq<Record>, inside: seq<bool>, s: Segments.Segment, end: nat)
    requires |inside| == |records| && s.start < end <= s.end <= |records|
    requires forall i | s.start < i < s.end :: Segments.Continues(inside, Linked(records), i)
    ensures records[end - 1].date == records[s.start].date
    decreases end
  {
    if end - 1 > s.start {
      OneDate(records, inside, s, end - 1);
      assert Segments.Continues(inside, Linked(records), end - 1);
    }
  }

  /** The list after a record at the floor, when `open` says that the last episode may still grow. */
  function Grown(list: seq<Episode>, open: bool, r: Record, grouped: map<Date, seq<Target>>): seq<Episode>
    requires open ==> list != []
    requires r.date in grouped && grouped[r.date] != []
  {
    var n := |list|;
    if open && list[n - 1].date == r.date && list[n - 1].end + 1 == r.index
    then list[..n - 1] + [Extended(list[n - 1], r, grouped)]
    else list + [Extended(Opened(r), r, grouped)]
  }

  /** One more record: nothing below the floor; at the floor the open episode of the same session goes on, or another
      one starts. */
  lemma EpisodesGrow(records: seq<Record>, grouped: map<Date, seq<Target>>, key: Smoothing, floor: int, i: nat)
    requires i < |records| && GroupedRecords(records, grouped)
    ensures var open := i > 0 && AtFloor(records[i - 1], key, floor);
            var before := Episodes(records, grouped, Blocks(records, key, floor, i));
            && (open ==> before != [])
            && Episodes(records, grouped, Blocks(records, key, floor, i + 1))
               == if AtFloor(records[i], key, floor) then Grown(before, open, records[i], grouped) else before
  {
    EpisodesOneMore(records, grouped, key, floor, i);
    if i > 0 && AtFloor(records[i - 1], key, floor) {
      LastEpisode(records, grouped, key, floor, i);
      assert Linked(records)[i] <==>
             records[i - 1].date == records[i].date && records[i - 1].index + 1 == records[i].index;
    }
  }

  /** The update of the list in place of `Grown`. */
  method AddToEpisodes(list: seq<Episode>, open: bool, r: Record, grouped: map<Date, seq<Target>>)
    returns (list': seq<Episode>)
    requires open ==> list != []
    requires r.date in grouped && grouped[r.date] != []
    ensures list' == Grown(list, open, r, grouped)
  {
    var last := Episode(r.date, r.index, r.index, 1, 0, false);
    list' := list;
    if open && list[|list| - 1].date == r.date && list[|list| - 1].end + 1 == r.index {
      last := list[|list| - 1];
      last := last.(end := r.index, bars := last.bars + 1);
      list' := list[..|list| - 1];
    }
    last := last.(closingCensored := r.spy.index == MaxIndex(grouped[r.date]));
    last := last.(minutes := last.minutes + if last.closingCensored then 10 else 15);
    list' := list' + [last];
  }

  /** One pass over the records, extending the open episode or starting a new one. */
  method StressRuns(records: seq<Record>, grouped: map<Date, seq<Target>>, key: Smoothing, floor: int)
    returns (list: seq<Episode>)
    requires GroupedRecords(records, grouped)
    ensures list == Episodes(records, grouped, Blocks(records, key, floor, |records|))
  {
    list := [];
    var open := false;
    for i := 0 to |records|
      invariant open <==> i > 0 && AtFloor(records[i - 1], key, floor)
      invariant list == Episodes(records, grouped, Blocks(records, key, floor, i))
    {
      EpisodesGrow(records, grouped, key, floor, i);
      if !AtFloor(records[i], key, floor) {
        open := false;
      } else {
        list := AddToEpisodes(list, open, records[i], grouped);
        open := true;
      }
    }
  }

  // --- What the episodes add up to ---

  function Weights(records: seq<Record>, grouped: map<Date, seq<Target>>): (w: seq<int>)
    requires GroupedRecords(records, grouped)
    ensures |w| == |records|
  {
    seq(|records|, i requires 0 <= i < |records| => if Closing(records[i], grouped) then 10 else 15)
  }

  function TotalMinutes(list: seq<Episode>): int {
    if list == [] then 0 else TotalMinutes(list[..|list| - 1]) + list[|list| - 1].minutes
  }

  function TotalBars(list: seq<Episode>): int {
    if list == [] then 0 else TotalBars(list[..|list| - 1]) + list[|list| - 1].bars
  }

  lemma {:induction false} BlockMinutes(records: seq<Record>, grouped: map<Date, seq<Target>>, inside: seq<bool>,
                                        s: Segments.Segment, end: nat)
    requires GroupedRecords(records, grouped) && |inside| == |records| && s.start < end <= s.end <= |records|
    requires forall i | s.start < i < s.end :: Segments.Continues(inside, Linked(records), i)
    ensures Segments.WeightBetween(Weights(records, grouped), s.start, end)
            == EpisodeOf(records, grouped, Segments.Segment(s.start, end)).minutes
    decreases end
  {
    var w := Weights(records, grouped);
    if end - 1 > s.start {
      BlockMinutes(records, grouped, inside, s, end - 1);
      assert Segments.Continues(inside, Linked(records), end - 1);
      EpisodeExtends(records, grouped, Segments.Segment(s.start, end - 1));
    } else {
      assert Segments.WeightBetween(w, s.start, s.start) == 0;
    }
  }

  lemma {:induction false} EpisodesWeigh(records: seq<Record>, grouped: map<Date, seq<Target>>, key: Smoothing,
                                         floor: int, blocks: seq<Segments.Segment>)
    requires GroupedRecords(records, grouped) && Segments.WithinBounds(blocks, |records|)
    requires forall j | 0 <= j < |blocks| ::
               Segments.IsSegment(Inside(records, key, floor), Linked(records), |records|, blocks[j])
    ensures TotalMinutes(Episodes(records, grouped, blocks)) == Segments.RunsWeight(blocks, Weights(records, grouped))
  {
    if blocks != [] {
      var n := |blocks| - 1;
      var init, s := blocks[..n], blocks[n];
      EpisodesWeigh(records, grouped, key, floor, init);
      assert blocks == init + [s];
      BlockMinutes(records, grouped, Inside(records, key, floor), s, s.end);
      OneMoreWeighed(records, grouped, init, s);
    }
  }

  lemma OneMoreWeighed(records: seq<Record>, grouped: map<Date, seq<Target>>, init: seq<Segments.Segment>,
                       s: Segments.Segment)
    requires GroupedRecords(records, grouped) && Segments.WithinBounds(init, |records|)
    requires s.start < s.end <= |records|
    requires Segments.WeightBetween(Weights(records, grouped), s.start, s.end) == EpisodeOf(records, grouped, s).minutes
    requires TotalMinutes(Episodes(records, grouped, init)) == Segments.RunsWeight(init, Weights(records, grouped))
    ensures Segments.WithinBounds(init + [s], |records|)
    ensures TotalMinutes(Episodes(records, grouped, init + [s]))
            == Segments.RunsWeight(init + [s], Weights(records, grouped))
  {
    TotalsSnoc(records, grouped, init, s);
    Segments.RunsWeightSnoc(init, s, Weights(records, grouped));
  }

  lemma {:induction false} EpisodesCount(records: seq<Record>, grouped: map<Date, seq<Target>>,
                                         blocks: seq<Segments.Segment>)
    requires GroupedRecords(records, grouped) && Segments.WithinBounds(blocks, |records|)
    ensures TotalBars(Episodes(records, grouped, blocks)) == Segments.RunsWeight(blocks, Segments.Units(|records|))
  {
    if blocks != [] {
      var n := |blocks| - 1;
      var init, s := blocks[..n], blocks[n];
      EpisodesCount(records, grouped, init);
      assert blocks == init + [s];
      OneMoreCounted(records, grouped, init, s);
    }
  }

  lemma OneMoreCounted(records: seq<Record>, grouped: map<Date, seq<Target>>, init: seq<Segments.Segment>,
                       s: Segments.Segment)
    requires GroupedRecords(records, grouped) && Segments.WithinBounds(init, |records|)
    requires s.start < s.end <= |records|
    requires TotalBars(Episodes(records, grouped, init)) == Segments.RunsWeight(init, Segments.Units(|records|))
    ensures Segments.WithinBounds(init + [s], |records|)
    ensures TotalBars(Episodes(records, grouped, init + [s]))
            == Segments.RunsWeight(init + [s], Segments.Units(|records|))
  {
    Segments.UnitWeight(|records|, s.start, s.end);
    TotalsSnoc(records, grouped, init, s);
    Segments.RunsWeightSnoc(init, s, Segments.Units(|records|));
  }

  lemma TotalsSnoc(records: seq<Record>, grouped: map<Date, seq<Target>>, init: seq<Segments.Segment>,
                   s: Segments.Segment)
    requires GroupedRecords(records, grouped) && Segments.WithinBounds(init, |records|)
    requires s.start < s.end <= |records|
    ensures Segments.WithinBounds(init + [s], |records|)
    ensures TotalMinutes(Episodes(records, grouped, init + [s]))
            == TotalMinutes(Episodes(records, grouped, init)) + EpisodeOf(records, grouped, s).minutes
    ensures TotalBars(Episodes(records, grouped, init + [s]))
            == TotalBars(Episodes(records, grouped, init)) + (s.end - s.start)
  {
    EpisodesSnoc(records, grouped, init, s);
    var before, all := Episodes(records, grouped, init), Episodes(records, grouped, init + [s]);
    assert all[..|all| - 1] == before;
  }

  function CountAtFloor(records: seq<Record>, key: Smoothing, floor: int): nat {
    Segments.FlagCount(Inside(records, key, floor), |records|)
  }

  /** The bars of all episodes are exactly the records at the floor, and their minutes are those records' minutes. */
  lemma EpisodesAccount(records: seq<Record>, grouped: map<Date, seq<Target>>, key: Smoothing, floor: int)
    requires GroupedRecords(records, grouped)
    ensures var list := Episodes(records, grouped, Blocks(records, key, floor, |records|));
            && TotalBars(list) == CountAtFloor(records, key, floor)
            && TotalMinutes(list)
               == Segments.InsideWeight(Inside(records, key, floor), Weights(records, grouped), |records|)
  {
    var inside, linked, n := Inside(records, key, floor), Linked(records), |records|;
    var blocks := Blocks(records, key, floor, n);
    forall j: nat | j < |blocks| ensures Segments.IsSegment(inside, linked, n, blocks[j]) {
      Segments.RunIsSegment(inside, linked, n, j);
    }
    EpisodesWeigh(records, grouped, key, floor, blocks);
    EpisodesCount(records, grouped, blocks);
    Segments.WeightConserved(inside, linked, Weights(records, grouped), n);
    Segments.WeightConserved(inside, linked, Segments.Units(n), n);
    Segments.FlagsWeigh(inside, n);
  }

  /** Record `i` carries an episode on: it and the one before are at the floor, one index apart in one session. */
  predicate CarriesOn(records: seq<Record>, key: Smoothing, floor: int, i: nat) {
    && 0 < i < |records| && AtFloor(records[i - 1], key, floor) && AtFloor(records[i], key, floor)
    && records[i - 1].date == records[i].date && records[i - 1].index + 1 == records[i].index
  }

  /** A block at the floor that is carried on throughout and could not be longer on either side. */
  ghost predicate MaximalBlock(records: seq<Record>, key: Smoothing, floor: int, s: Segments.Segment) {
    && s.start < s.end <= |records|
    && (forall i: nat | s.start <= i < s.end :: AtFloor(records[i], key, floor))
    && (forall i: nat | s.start < i < s.end :: CarriesOn(records, key, floor, i))
    && !CarriesOn(records, key, floor, s.start) && !CarriesOn(records, key, floor, s.end)
  }

  lemma ContinuesCarriesOn(records: seq<Record>, key: Smoothing, floor: int)
    ensures forall i: nat :: Segments.Continues(Inside(records, key, floor), Linked(records), i)
                             <==> CarriesOn(records, key, floor, i)
  {
  }

  lemma BlockIsSegment(records: seq<Record>, key: Smoothing, floor: int, s: Segments.Segment)
    ensures Segments.IsSegment(Inside(records, key, floor), Linked(records), |records|, s)
            <==> MaximalBlock(records, key, floor, s)
  {
    var inside := Inside(records, key, floor);
    ContinuesCarriesOn(records, key, floor);
    assert forall i: nat | i < |records| :: inside[i] <==> AtFloor(records[i], key, floor);
  }

  /** The episodes stand for exactly the maximal blocks, in order. */
  lemma BlocksAreMaximal(records: seq<Record>, key: Smoothing, floor: int)
    ensures forall s :: s in Blocks(records, key, floor, |records|) <==> MaximalBlock(records, key, floor, s)
    ensures Segments.Ordered(Blocks(records, key, floor, |records|))
  {
    Segments.RunsExact(Inside(records, key, floor), Linked(records), |records|);
    forall s ensures s in Blocks(records, key, floor, |records|) <==> MaximalBlock(records, key, floor, s) {
      BlockIsSegment(records, key, floor, s);
    }
  }

  predicate Looser(a: Smoothing, b: Smoothing) { a == b || a == Raw || b == Three }

  /** Floors and confirmations compared: `a` at floor `f` is at least as demanding as `b` at floor `g`. */
  lemma InsideGrows(records: seq<Record>, a: Smoothing, f: int, b: Smoothing, g: int)
    requires Looser(a, b) && g <= f
    requires forall i | 0 <= i < |records| ::
               AtMost(records[i].raw, records[i].two) && AtMost(records[i].two, records[i].three)
    ensures forall i | 0 <= i < |records| :: Inside(records, a, f)[i] ==> Inside(records, b, g)[i]
  {
  }

  ghost predicate InsideOneOf(s: Segments.Segment, blocks: seq<Segments.Segment>) {
    exists t :: t in blocks && Segments.Within(s, t)
                && forall u | u in blocks && Segments.Within(s, u) :: u == t
  }

  lemma BlocksNest(records: seq<Record>, a: Smoothing, f: int, b: Smoothing, g: int)
    requires forall i | 0 <= i < |records| :: Inside(records, a, f)[i] ==> Inside(records, b, g)[i]
    ensures forall s | s in Blocks(records, a, f, |records|) :: InsideOneOf(s, Blocks(records, b, g, |records|))
  {
    forall s | s in Blocks(records, a, f, |records|) ensures InsideOneOf(s, Blocks(records, b, g, |records|)) {
      var t := Segments.RunsNest(Inside(records, a, f), Inside(records, b, g), Linked(records), s);
    }
  }

  lemma MinutesGrow(records: seq<Record>, grouped: map<Date, seq<Target>>, a: Smoothing, f: int, b: Smoothing, g: int)
    requires GroupedRecords(records, grouped)
    requires forall i | 0 <= i < |records| :: Inside(records, a, f)[i] ==> Inside(records, b, g)[i]
    ensures TotalMinutes(Episodes(records, grouped, Blocks(records, a, f, |records|)))
            <= TotalMinutes(Episodes(records, grouped, Blocks(records, b, g, |records|)))
  {
    EpisodesAccount(records, grouped, a, f);
    EpisodesAccount(records, grouped, b, g);
    Segments.InsideWeightMonotone(Inside(records, a, f), Inside(records, b, g), Weights(records, grouped), |records|);
  }

  /** More confirmations, or a lower floor, never shorten the total time under stress; and every episode of the
      more demanding reading lies inside exactly one episode of the other. */
  lemma StressNests(targets: seq<Target>, c: Candidate, a: Smoothing, f: int, b: Smoothing, g: int)
    requires Looser(a, b) && g <= f
    ensures var ts := Watched(targets);
            var records, grouped := RecordsOf(ts, DatesOf(ts), c), GroupedOf(ts);
            && GroupedRecords(records, grouped)
            && TotalMinutes(Episodes(records, grouped, Blocks(records, a, f, |records|)))
               <= TotalMinutes(Episodes(records, grouped, Blocks(records, b, g, |records|)))
            && forall s | s in Blocks(records, a, f, |records|) :: InsideOneOf(s, Blocks(records, b, g, |records|))
  {
    var ts := Watched(targets);
    var records, grouped := RecordsOf(ts, DatesOf(ts), c), GroupedOf(ts);
    RecordsAreGrouped(ts, c);
    RecordsNested(ts, DatesOf(ts), c);
    assert forall i | 0 <= i < |records| :: records[i] in records;
    InsideGrows(records, a, f, b, g);
    MinutesGrow(records, grouped, a, f, b, g);
    BlocksNest(records, a, f, b, g);
  }

  lemma RecordsAreGrouped(ts: seq<Target>, c: Candidate)
    ensures GroupedRecords(RecordsOf(ts, DatesOf(ts), c), GroupedOf(ts))
  {
    var records := RecordsOf(ts, DatesOf(ts), c);
    RecordsNested(ts, DatesOf(ts), c);
    forall i | 0 <= i < |records| ensures var r := records[i];
        r.date in GroupedOf(ts) && r.spy in GroupedOf(ts)[r.date] && r.index == r.spy.index {
      assert records[i] in records;
      GroupOfDate(ts, records[i].date);
    }
  }

  // --- The figures drawn from a list of episodes ---

  datatype Figures = Figures(episodes: nat, sessions: nat, medianMinutes: Option<real>, p95Minutes: Option<real>,
                             maxMinutes: int, closingCensored: nat)

  function MinutesOf(list: seq<Episode>): (m: seq<real>)
    ensures |m| == |list|
  {
    seq(|list|, i requires 0 <= i < |list| => list[i].minutes as real)
  }

  function LongestMinutes(list: seq<Episode>): (m: int)
    ensures m >= 0 && forall i | 0 <= i < |list| :: list[i].minutes <= m
    ensures m == 0 || exists i :: 0 <= i < |list| && list[i].minutes == m
  {
    if list == [] then 0
    else
      var m, last := LongestMinutes(list[..|list| - 1]), list[|list| - 1].minutes;
      if last > m then last else m
  }

  function SessionsOf(list: seq<Episode>): set<Date> { set e | e in list :: e.date }

  function CensoredCount(list: seq<Episode>): nat {
    if list == [] then 0
    else CensoredCount(list[..|list| - 1]) + if list[|list| - 1].closingCensored then 1 else 0
  }

  function FiguresOf(list: seq<Episode>): Figures {
    Figures(|list|, |SessionsOf(list)|, Statistics.Quantile(MinutesOf(list), 0.5),
            Statistics.Quantile(MinutesOf(list), 0.95), LongestMinutes(list), CensoredCount(list))
  }

  lemma {:induction false} SessionsBound(list: seq<Episode>)
    ensures |SessionsOf(list)| <= |list|
  {
    if list != [] {
      var init, last := list[..|list| - 1], list[|list| - 1];
      SessionsBound(init);
      assert list == init + [last];
      assert SessionsOf(list) == SessionsOf(init) + {last.date};
    }
  }

  lemma {:induction false} CensoredBound(list: seq<Episode>)
    ensures CensoredCount(list) <= |list|
  {
    if list != [] {
      CensoredBound(list[..|list| - 1]);
    }
  }

  lemma MinutesOrdered(list: seq<Episode>)
    requires list != []
    ensures Statistics.Ordered(MinutesOf(list))[|list| - 1] <= LongestMinutes(list) as real
  {
    var minutes := MinutesOf(list);
    var ordered := Statistics.Ordered(minutes);
    Statistics.OrderedAscends(minutes);
    var top := ordered[|list| - 1];
    assert top in multiset(ordered) && top in minutes;
    var i :| 0 <= i < |list| && minutes[i] == top;
    assert top == list[i].minutes as real;
  }

  lemma {:induction false} CensoredCardinality(list: seq<Episode>)
    ensures CensoredCount(list) == |set j: nat | j < |list| && list[j].closingCensored|
  {
    if list != [] {
      var init, n := list[..|list| - 1], |list| - 1;
      CensoredCardinality(init);
      var before := set j: nat | j < n && init[j].closingCensored;
      var all := set j: nat | j < |list| && list[j].closingCensored;
      assert all == before + if list[n].closingCensored then {n} else {};
    }
  }

  /** What each figure is. */
  ghost predicate FiguresLaw(f: Figures, list: seq<Episode>) {
    && f.episodes == |list| && f.sessions == |set e | e in list :: e.date|
    && f.closingCensored == |set j: nat | j < |list| && list[j].closingCensored|
    && f.maxMinutes >= 0 && (forall e | e in list :: e.minutes <= f.maxMinutes)
    && (f.maxMinutes == 0 || exists e :: e in list && e.minutes == f.maxMinutes)
    && f.medianMinutes == Statistics.Median(MinutesOf(list))
    && Statistics.Percentile(Statistics.Ordered(MinutesOf(list)), 0.95) == Success(f.p95Minutes)
  }

  lemma FiguresAreLawful(list: seq<Episode>)
    ensures FiguresLaw(FiguresOf(list), list)
  {
    CensoredCardinality(list);
    Statistics.InterpolationsAgree(MinutesOf(list), 0.5);
    Statistics.InterpolationsAgree(MinutesOf(list), 0.95);
    var m := LongestMinutes(list);
    forall e | e in list ensures e.minutes <= m {
    }
    if i :| 0 <= i < |list| && list[i].minutes == m {
      assert list[i] in list;
    }
  }

  /** There are figures exactly for a list with episodes; then the median is at most the 95th percentile, and that at
      most the longest; sessions and censored episodes are at most the episodes. */
  lemma FiguresMeaning(list: seq<Episode>)
    ensures var f := FiguresOf(list);
            && f.sessions <= f.episodes && f.closingCensored <= f.episodes
            && (f.medianMinutes.Some? <==> list != []) && (f.p95Minutes.Some? <==> list != [])
            && (list != [] ==> f.medianMinutes.value <= f.p95Minutes.value <= f.maxMinutes as real)
  {
    SessionsBound(list);
    CensoredBound(list);
    if list != [] {
      var minutes := MinutesOf(list);
      Statistics.OrderedAscends(minutes);
      Statistics.PercentileMonotone(Statistics.Ordered(minutes), 0.5, 0.95);
      Statistics.InterpolationsAgree(minutes, 0.5);
      Statistics.InterpolationsAgree(minutes, 0.95);
      MinutesOrdered(list);
    }
  }
}
