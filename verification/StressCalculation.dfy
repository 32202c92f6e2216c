/** 15-minute stress measurement and severity of src/dev/intraday-stress-calculation.ts.
    Prices are reals, dates and instants integers; `root` stands for the square root. */
module StressCalculation {
  import opened Wrappers
  import RealFacts

  type Date = int
  datatype Symbol = SPY | RSP | QQQ | IWM
  datatype Timeframe = DAY_1 | MINUTE_15
  datatype Bar = Bar(symbol: Symbol, timeframe: Timeframe, t: int,
                     open: real, high: real, low: real, close: real, volume: real)
  datatype Session = Session(openAt: int, closeAt: int)
  datatype Status = VALID | UNAVAILABLE
  datatype RollingStatus = ROLLING_VALID | NOT_APPLICABLE_SESSION_WARMUP | ROLLING_UNAVAILABLE
  datatype Issue = MISSING_INVALID_OR_DUPLICATE_BAR | MISSING_REFERENCE | INCOMPLETE_SESSION_PREFIX
                 | PRIOR_ATR_UNAVAILABLE | ROLLING_CONTINUITY_FAILURE
  datatype MeasureError = ExpectedOpenSession | SessionNotAligned | UnexpectedBar

  datatype Target = Target(
    symbol: Symbol, date: Date, index: int, targetAt: int, closing: bool,
    priorAtr14Pct: Option<real>, status: Status, issues: seq<Issue>,
    referencePrice: Option<real>, sessionOpen: Option<real>, sessionPeak: Option<real>, currentClose: Option<real>,
    rollingStatus: RollingStatus, shockPct: Option<real>, shockAtrRatio: Option<real>,
    downsideExcursionPct: Option<real>, downsideExcursionAtrRatio: Option<real>,
    realizedMovement60Pct: Option<real>, realizedMovement60AtrRatio: Option<real>,
    sessionDrawdownPct: Option<real>, sessionDrawdownAtrRatio: Option<real>,
    trueRange15: Option<real>, return15: Option<real>, pathLength60: Option<real>,
    openToCurrentPct: Option<real>, peakFromOpenPct: Option<real>)

  /** The last four returns, oldest first. */
  datatype Window = Window(a: real, b: real, c: real, d: real) {
    function Movement(root: real -> real): real { root(SumOfSquares(a, b, c, d)) }

    function Path(): real { Abs(a) + Abs(b) + Abs(c) + Abs(d) }
  }

  const INTERVAL := 900_000

  function Max(a: real, b: real): real { if a >= b then a else b }

  function Min(a: real, b: real): real { if a <= b then a else b }

  function Abs(a: real): real { if a < 0.0 then -a else a }

  function SumOfSquares(a: real, b: real, c: real, d: real): real { a * a + b * b + c * c + d * d }

  predicate ValidBar(b: Bar) {
    && b.open > 0.0 && b.high > 0.0 && b.low > 0.0 && b.close > 0.0 && b.volume >= 0.0
    && b.low <= Min(b.open, b.close) && b.high >= Max(b.open, b.close) && b.high >= b.low
  }

  // --- Aligned slots ---

  /** How many of the bars start at `t`, and the last of them. */
  function CountAt(bars: seq<Bar>, t: int): nat {
    if bars == [] then 0 else CountAt(bars[..|bars| - 1], t) + if bars[|bars| - 1].t == t then 1 else 0
  }

  function LastAt(bars: seq<Bar>, t: int): Option<Bar> {
    if bars == [] then None
    else if bars[|bars| - 1].t == t then Some(bars[|bars| - 1])
    else LastAt(bars[..|bars| - 1], t)
  }

  function Slot(bars: seq<Bar>, t: int): (b: Option<Bar>)
    ensures b.Some? ==> ValidBar(b.value)
  {
    var last := LastAt(bars, t);
    if last.Some? && ValidBar(last.value) && CountAt(bars, t) == 1 then last else None
  }

  function SlotCount(s: Session): nat {
    if s.closeAt <= s.openAt then 0 else (s.closeAt - s.openAt) / INTERVAL
  }

  function SlotTime(s: Session, i: int): int { s.openAt + i * INTERVAL }

  function Aligned(bars: seq<Bar>, s: Session): (r: seq<Option<Bar>>)
    ensures |r| == SlotCount(s)
    ensures AllValid(r)
  {
    seq(SlotCount(s), i requires 0 <= i < SlotCount(s) => Slot(bars, SlotTime(s, i)))
  }

  predicate AllValid(aligned: seq<Option<Bar>>) {
    forall i | 0 <= i < |aligned| :: aligned[i].Some? ==> ValidBar(aligned[i].value)
  }

  /** The bar at position `k` is the only one that starts at `t`. */
  ghost predicate OnlyBarAt(bars: seq<Bar>, k: nat, t: int) {
    k < |bars| && bars[k].t == t && forall j | 0 <= j < |bars| && j != k :: bars[j].t != t
  }

  /** Exactly one bar starts at `t`, and it is valid. */
  ghost predicate UsableBarAt(bars: seq<Bar>, t: int) {
    exists k: nat :: OnlyBarAt(bars, k, t) && ValidBar(bars[k])
  }

  lemma {:induction false} NoBarAt(bars: seq<Bar>, t: int)
    ensures CountAt(bars, t) == 0 <==> forall j | 0 <= j < |bars| :: bars[j].t != t
    ensures LastAt(bars, t).None? <==> CountAt(bars, t) == 0
  {
    if bars != [] {
      NoBarAt(bars[..|bars| - 1], t);
      assert bars == bars[..|bars| - 1] + [bars[|bars| - 1]];
    }
  }

  lemma {:induction false} OneBarAt(bars: seq<Bar>, t: int)
    ensures CountAt(bars, t) == 1 ==>
              exists k: nat :: OnlyBarAt(bars, k, t) && LastAt(bars, t) == Some(bars[k])
  {
    if bars != [] {
      var n := |bars| - 1;
      var init := bars[..n];
      OneBarAt(init, t);
      NoBarAt(init, t);
      if CountAt(bars, t) == 1 {
        if bars[n].t == t {
          assert forall j | 0 <= j < n :: bars[j] == init[j];
          assert OnlyBarAt(bars, n, t);
        } else {
          var k: nat :| OnlyBarAt(init, k, t) && LastAt(init, t) == Some(init[k]);
          assert forall j | 0 <= j < n :: bars[j] == init[j];
          assert OnlyBarAt(bars, k, t) && LastAt(bars, t) == Some(bars[k]);
        }
      }
    }
  }

  lemma {:induction false} CountOfOnlyBar(bars: seq<Bar>, k: nat, t: int)
    requires OnlyBarAt(bars, k, t)
    ensures CountAt(bars, t) == 1 && LastAt(bars, t) == Some(bars[k])
  {
    var n := |bars| - 1;
    var init := bars[..n];
    assert forall j | 0 <= j < n :: bars[j] == init[j];
    if k == n {
      NoBarAt(init, t);
    } else {
      assert OnlyBarAt(init, k, t);
      CountOfOnlyBar(init, k, t);
    }
  }

  /** A slot holds a bar exactly when one bar starts there, no other does, and it is valid. */
  lemma SlotMeaning(bars: seq<Bar>, t: int)
    ensures Slot(bars, t).Some? <==> UsableBarAt(bars, t)
    ensures forall k: nat | OnlyBarAt(bars, k, t) && ValidBar(bars[k]) :: Slot(bars, t) == Some(bars[k])
  {
    OneBarAt(bars, t);
    forall k: nat | OnlyBarAt(bars, k, t) && ValidBar(bars[k]) ensures Slot(bars, t) == Some(bars[k]) {
      CountOfOnlyBar(bars, k, t);
    }
  }

  // --- What a target reports, slot by slot ---

  predicate Complete(aligned: seq<Option<Bar>>, n: nat)
    requires n <= |aligned|
  {
    forall j | 0 <= j < n :: aligned[j].Some?
  }

  /** The highest high of the first `n` bars. */
  function MaxHigh(aligned: seq<Option<Bar>>, n: nat): (m: real)
    requires 0 < n <= |aligned| && Complete(aligned, n)
    ensures forall j | 0 <= j < n :: aligned[j].value.high <= m
    ensures exists j :: 0 <= j < n && aligned[j].value.high == m
  {
    if n == 1 then aligned[0].value.high else Max(MaxHigh(aligned, n - 1), aligned[n - 1].value.high)
  }

  function OpenOf(aligned: seq<Option<Bar>>): Option<real> {
    if |aligned| > 0 && aligned[0].Some? then Some(aligned[0].value.open) else None
  }

  /** The session open for the first bar, afterwards the close of the bar just before; never across a gap. */
  function Reference(aligned: seq<Option<Bar>>, i: nat): Option<real>
    requires i < |aligned|
  {
    if i == 0 then OpenOf(aligned)
    else if aligned[i - 1].Some? then Some(aligned[i - 1].value.close) else None
  }

  predicate HasReturn(aligned: seq<Option<Bar>>, i: nat)
    requires i < |aligned|
  {
    aligned[i].Some? && Reference(aligned, i).Some? && Reference(aligned, i).value != 0.0
  }

  function ReturnAt(aligned: seq<Option<Bar>>, i: nat): Option<real>
    requires i < |aligned|
  {
    if HasReturn(aligned, i) then Some(aligned[i].value.close / Reference(aligned, i).value - 1.0) else None
  }

  function TrueRange(high: real, low: real, previousClose: real): real {
    Max(high - low, Max(Abs(high - previousClose), Abs(low - previousClose)))
  }

  /** The true range is only taken of what it accepts: positive prices, the high not below the low. */
  lemma TrueRangeAccepts(aligned: seq<Option<Bar>>, i: nat)
    requires i < |aligned| && AllValid(aligned) && HasReturn(aligned, i)
    ensures var bar, reference := aligned[i].value, Reference(aligned, i).value;
            && bar.high > 0.0 && bar.low > 0.0 && reference > 0.0 && bar.high >= bar.low
            && 0.0 <= bar.high - bar.low <= TrueRange(bar.high, bar.low, reference)
  {
    assert i > 0 ==> aligned[i - 1].Some?;
  }

  /** The last four returns, once there are four in a row. */
  function WindowAt(aligned: seq<Option<Bar>>, i: nat): Option<Window>
    requires i < |aligned|
  {
    if i >= 3 && forall j | i - 3 <= j <= i :: HasReturn(aligned, j) then
      Some(Window(ReturnAt(aligned, i - 3).value, ReturnAt(aligned, i - 2).value,
                  ReturnAt(aligned, i - 1).value, ReturnAt(aligned, i).value))
    else None
  }

  function Ratio(value: Option<real>, baseline: Option<real>): Option<real> {
    if value.None? || baseline.None? || baseline.value == 0.0 then None else Some(value.value / baseline.value)
  }

  /** How far `close` is above `base`, as a fraction of it. */
  function Gain(close: Option<real>, base: Option<real>): Option<real> {
    if close.Some? && base.Some? && base.value != 0.0 then Some(close.value / base.value - 1.0) else None
  }

  /** The report on slot `i` of `count`, from the bar, its reference and what the session carries so far. */
  function Report(symbol: Symbol, date: Date, openAt: int, count: nat, i: nat, bar: Option<Bar>,
                  reference: Option<real>, open: Option<real>, peak: Option<real>, window: Option<Window>,
                  root: real -> real, prior: Option<real>): Target
  {
    var measured := bar.Some? && reference.Some? && reference.value != 0.0;
    var baseline := if prior.Some? && prior.value > 0.0 then prior else None;
    var close := if bar.Some? then Some(bar.value.close) else None;
    var range := if measured then Some(TrueRange(bar.value.high, bar.value.low, reference.value)) else None;
    var shock := if measured then Some(range.value / reference.value) else None;
    var downside := if measured then Some(Max(0.0, reference.value - bar.value.low) / reference.value) else None;
    var drawdown := if peak.Some? && bar.Some? && peak.value != 0.0
                    then Some(Max(0.0, peak.value - bar.value.close) / peak.value) else None;
    var rolling := if window.Some? then Some(window.value.Movement(root)) else None;
    var issues := (if bar.None? then [MISSING_INVALID_OR_DUPLICATE_BAR] else [])
                  + (if reference.None? then [MISSING_REFERENCE] else [])
                  + (if peak.None? then [INCOMPLETE_SESSION_PREFIX] else [])
                  + (if baseline.None? then [PRIOR_ATR_UNAVAILABLE] else [])
                  + (if i >= 3 && rolling.None? then [ROLLING_CONTINUITY_FAILURE] else []);
    Target(symbol, date, i + 1, openAt + (i + 1) * INTERVAL, i == count - 1,
           baseline, if issues == [] then VALID else UNAVAILABLE, issues,
           reference, open, peak, close,
           if i < 3 then NOT_APPLICABLE_SESSION_WARMUP
           else if rolling.None? then ROLLING_UNAVAILABLE else ROLLING_VALID,
           shock, Ratio(shock, baseline), downside, Ratio(downside, baseline),
           rolling, Ratio(rolling, baseline), drawdown, Ratio(drawdown, baseline),
           range, Gain(close, reference), if window.Some? then Some(window.value.Path()) else None,
           Gain(close, open), Gain(peak, open))
  }

  /** The peak a target may report: the highest high of the session, if no slot so far is missing. */
  function PeakAt(aligned: seq<Option<Bar>>, i: nat): Option<real>
    requires i < |aligned|
  {
    if Complete(aligned, i + 1) then Some(MaxHigh(aligned, i + 1)) else None
  }

  function TargetAt(symbol: Symbol, date: Date, openAt: int, aligned: seq<Option<Bar>>, prior: Option<real>,
                    root: real -> real, i: nat): Target
    requires i < |aligned|
  {
    Report(symbol, date, openAt, |aligned|, i, aligned[i], Reference(aligned, i), OpenOf(aligned),
           PeakAt(aligned, i), WindowAt(aligned, i), root, prior)
  }

  predicate ExpectedBar(b: Bar, symbol: Symbol, date: Date, s: Session, etDate: int -> Date) {
    && b.symbol == symbol && b.timeframe == MINUTE_15 && etDate(b.t) == date
    && s.openAt <= b.t < s.closeAt && (b.t - s.openAt) % INTERVAL == 0
  }

  /** Another symbol, timeframe or day, outside the session, or off the 15-minute grid. */
  predicate Foreign(b: Bar, symbol: Symbol, date: Date, s: Session, etDate: int -> Date) {
    || b.symbol != symbol || b.timeframe == DAY_1 || etDate(b.t) != date
    || b.t < s.openAt || b.t >= s.closeAt || (b.t - s.openAt) % 900_000 != 0
  }

  predicate AllExpected(bars: seq<Bar>, symbol: Symbol, date: Date, s: Session, etDate: int -> Date) {
    forall k | 0 <= k < |bars| :: ExpectedBar(bars[k], symbol, date, s, etDate)
  }

  /** What measuring an open session throws: it is not made of whole intervals, or a bar is not one of its own. */
  function ErrorOf(symbol: Symbol, date: Date, bars: seq<Bar>, s: Session, etDate: int -> Date): Option<MeasureError> {
    if (s.closeAt - s.openAt) % INTERVAL != 0 then Some(SessionNotAligned)
    else if !AllExpected(bars, symbol, date, s, etDate) then Some(UnexpectedBar)
    else None
  }

  function SessionTargets(symbol: Symbol, date: Date, bars: seq<Bar>, prior: Option<real>, s: Session,
                          root: real -> real): (r: seq<Target>)
    ensures |r| == SlotCount(s)
  {
    var aligned := Aligned(bars, s);
    seq(|aligned|, i requires 0 <= i < |aligned| => TargetAt(symbol, date, s.openAt, aligned, prior, root, i))
  }

  // --- The law of a session, on its bars and on the fields of its targets ---

  predicate Sound(b: Bar) {
    && b.open > 0.0 && b.high > 0.0 && b.low > 0.0 && b.close > 0.0 && b.volume >= 0.0
    && b.low <= b.open <= b.high && b.low <= b.close <= b.high
  }

  /** A slot holds the one bar that starts there, if there is one and it is sound. */
  ghost predicate SlotLaw(slot: Option<Bar>, bars: seq<Bar>, t: int) {
    match slot
    case Some(b) => Sound(b) && exists k: nat :: OnlyBarAt(bars, k, t) && bars[k] == b
    case None => forall k: nat | OnlyBarAt(bars, k, t) :: !Sound(bars[k])
  }

  ghost predicate SlotsLaw(slots: seq<Option<Bar>>, bars: seq<Bar>, s: Session) {
    && (if s.closeAt <= s.openAt then slots == [] else 900_000 * |slots| == s.closeAt - s.openAt)
    && forall i: nat | i < |slots| :: SlotLaw(slots[i], bars, s.openAt + i * 900_000)
  }

  /** Open of the first slot, close of the slot before, own close; the peak of a prefix without a gap. */
  ghost predicate PricesLaw(t: Target, slots: seq<Option<Bar>>, i: nat)
    requires i < |slots|
  {
    && t.sessionOpen == (if slots[0].Some? then Some(slots[0].value.open) else None)
    && t.currentClose == (if slots[i].Some? then Some(slots[i].value.close) else None)
    && t.referencePrice == (if i == 0 then t.sessionOpen
                            else if slots[i - 1].Some? then Some(slots[i - 1].value.close) else None)
    && (t.sessionPeak.Some? <==> forall j: nat | j <= i :: slots[j].Some?)
    && (t.sessionPeak.Some? ==> IsPeak(t.sessionPeak.value, slots, i))
  }

  ghost predicate IsPeak(peak: real, slots: seq<Option<Bar>>, i: nat)
    requires i < |slots|
  {
    && (forall j: nat | j <= i && slots[j].Some? :: slots[j].value.high <= peak)
    && exists j: nat :: j <= i && slots[j].Some? && slots[j].value.high == peak
  }

  /** The greatest of the bar's own range and its distances from the price before. */
  predicate IsTrueRange(range: real, high: real, low: real, before: real) {
    && range >= high - low && range >= high - before && range >= before - low
    && (range == high - low || range == high - before || range == before - low)
  }

  /** `f` of `base` is what `x` lies below it. */
  predicate IsDrop(f: real, base: real, x: real) { f * base == if x < base then base - x else 0.0 }

  /** `x` is `base` moved by the fraction `f`. */
  predicate IsMove(f: real, base: real, x: real) { (1.0 + f) * base == x }

  /** Range, shock, return and downside of a bar against its reference, where there are both. */
  ghost predicate MovesLaw(t: Target, bar: Option<Bar>) {
    && (t.trueRange15.Some? <==> bar.Some? && t.referencePrice.Some?)
    && (t.shockPct.Some? <==> t.trueRange15.Some?) && (t.return15.Some? <==> t.trueRange15.Some?)
    && (t.downsideExcursionPct.Some? <==> t.trueRange15.Some?)
    && (t.trueRange15.Some? ==>
          BarMoves(bar.value, t.referencePrice.value, t.trueRange15.value, t.shockPct.value, t.return15.value,
                   t.downsideExcursionPct.value))
  }

  predicate BarMoves(b: Bar, reference: real, range: real, shock: real, change: real, downside: real) {
    && IsTrueRange(range, b.high, b.low, reference) && shock * reference == range
    && IsMove(change, reference, b.close) && IsDrop(downside, reference, b.low)
  }

  /** Drawdown from the peak, and close and peak against the session open. */
  ghost predicate SessionMovesLaw(t: Target) {
    && (t.sessionDrawdownPct.Some? <==> t.sessionPeak.Some?) && (t.peakFromOpenPct.Some? <==> t.sessionPeak.Some?)
    && (t.openToCurrentPct.Some? <==> t.sessionOpen.Some? && t.currentClose.Some?)
    && (t.sessionPeak.Some? ==>
          && t.sessionOpen.Some? && t.currentClose.Some?
          && IsDrop(t.sessionDrawdownPct.value, t.sessionPeak.value, t.currentClose.value)
          && IsMove(t.peakFromOpenPct.value, t.sessionOpen.value, t.sessionPeak.value))
    && (t.openToCurrentPct.Some? ==> IsMove(t.openToCurrentPct.value, t.sessionOpen.value, t.currentClose.value))
  }

  /** Root of the summed squares of the last four reported returns, and the sum of their sizes. */
  ghost predicate RollingLaw(targets: seq<Target>, i: nat, root: real -> real)
    requires i < |targets|
  {
    var t := targets[i];
    if i < 3 then
      t.rollingStatus == NOT_APPLICABLE_SESSION_WARMUP && t.realizedMovement60Pct.None? && t.pathLength60.None?
    else
      var a, b, c, d := targets[i - 3].return15, targets[i - 2].return15, targets[i - 1].return15, t.return15;
      if a.None? || b.None? || c.None? || d.None? then
        t.rollingStatus == ROLLING_UNAVAILABLE && t.realizedMovement60Pct.None? && t.pathLength60.None?
      else
        && t.rollingStatus == ROLLING_VALID
        && t.realizedMovement60Pct.Some? && t.pathLength60.Some?
        && IsMovement(t.realizedMovement60Pct.value, root, a.value, b.value, c.value, d.value)
        && IsPath(t.pathLength60.value, a.value, b.value, c.value, d.value)
  }

  predicate IsMovement(movement: real, root: real -> real, a: real, b: real, c: real, d: real) {
    movement == root(a * a + b * b + c * c + d * d)
  }

  predicate IsPath(path: real, a: real, b: real, c: real, d: real) {
    path == (if a < 0.0 then -a else a) + (if b < 0.0 then -b else b)
            + (if c < 0.0 then -c else c) + (if d < 0.0 then -d else d)
  }

  predicate RatioLaw(ratio: Option<real>, value: Option<real>, atr: Option<real>) {
    (ratio.Some? <==> value.Some? && atr.Some?) && (ratio.Some? ==> ratio.value * atr.value == value.value)
  }

  /** The prior ATR counts where it is positive, and every ratio is its percentage in units of it. */
  ghost predicate RatiosLaw(t: Target, prior: Option<real>) {
    && (if prior.Some? && prior.value > 0.0 then t.priorAtr14Pct == prior else t.priorAtr14Pct == None)
    && RatioLaw(t.shockAtrRatio, t.shockPct, t.priorAtr14Pct)
    && RatioLaw(t.downsideExcursionAtrRatio, t.downsideExcursionPct, t.priorAtr14Pct)
    && RatioLaw(t.realizedMovement60AtrRatio, t.realizedMovement60Pct, t.priorAtr14Pct)
    && RatioLaw(t.sessionDrawdownAtrRatio, t.sessionDrawdownPct, t.priorAtr14Pct)
  }

  /** Each issue exactly when its part of the target is missing; valid exactly without issues. */
  ghost predicate IssuesLaw(t: Target) {
    && (MISSING_INVALID_OR_DUPLICATE_BAR in t.issues <==> t.currentClose.None?)
    && (MISSING_REFERENCE in t.issues <==> t.referencePrice.None?)
    && (INCOMPLETE_SESSION_PREFIX in t.issues <==> t.sessionPeak.None?)
    && (PRIOR_ATR_UNAVAILABLE in t.issues <==> t.priorAtr14Pct.None?)
    && (ROLLING_CONTINUITY_FAILURE in t.issues <==> t.rollingStatus == ROLLING_UNAVAILABLE)
    && (t.status == VALID <==> t.issues == [])
  }

  ghost predicate TargetLaw(targets: seq<Target>, i: nat, slots: seq<Option<Bar>>, symbol: Symbol, date: Date,
                            openAt: int, prior: Option<real>, root: real -> real)
    requires i < |targets| == |slots|
  {
    var t := targets[i];
    && t.symbol == symbol && t.date == date && t.index == i + 1 && t.targetAt == openAt + 900_000 * (i + 1)
    && (t.closing <==> i + 1 == |targets|)
    && PricesLaw(t, slots, i) && MovesLaw(t, slots[i]) && SessionMovesLaw(t)
    && RollingLaw(targets, i, root) && RatiosLaw(t, prior) && IssuesLaw(t)
  }

  ghost predicate SessionLaw(targets: seq<Target>, symbol: Symbol, date: Date, bars: seq<Bar>, prior: Option<real>,
                             s: Session, root: real -> real)
  {
    exists slots :: SlotsLaw(slots, bars, s) && |targets| == |slots|
                    && forall i: nat | i < |targets| ::
                         TargetLaw(targets, i, slots, symbol, date, s.openAt, prior, root)
  }

  lemma SlotIsLawful(bars: seq<Bar>, t: int)
    ensures SlotLaw(Slot(bars, t), bars, t)
  {
    SlotMeaning(bars, t);
  }

  lemma SlotsAreLawful(bars: seq<Bar>, s: Session)
    requires (s.closeAt - s.openAt) % INTERVAL == 0
    ensures SlotsLaw(Aligned(bars, s), bars, s)
  {
    forall i: nat | i < SlotCount(s) ensures SlotLaw(Aligned(bars, s)[i], bars, s.openAt + i * 900_000) {
      SlotIsLawful(bars, SlotTime(s, i));
    }
  }

  lemma PricesAreLawful(symbol: Symbol, date: Date, openAt: int, aligned: seq<Option<Bar>>, prior: Option<real>,
                        root: real -> real, i: nat)
    requires i < |aligned|
    ensures PricesLaw(TargetAt(symbol, date, openAt, aligned, prior, root, i), aligned, i)
  {
    if Complete(aligned, i + 1) {
      assert IsPeak(MaxHigh(aligned, i + 1), aligned, i);
    }
  }

  lemma DropIsDrop(base: real, x: real)
    requires base > 0.0
    ensures IsDrop(Max(0.0, base - x) / base, base, x)
  {
    RealFacts.Quotient(Max(0.0, base - x), base);
  }

  lemma MoveIsMove(base: real, x: real)
    requires base > 0.0
    ensures IsMove(x / base - 1.0, base, x)
  {
    RealFacts.Quotient(x, base);
  }

  lemma BarMovesLawfully(b: Bar, reference: real)
    requires reference > 0.0 && b.high >= b.low
    ensures var range := TrueRange(b.high, b.low, reference);
            BarMoves(b, reference, range, range / reference, b.close / reference - 1.0,
                     Max(0.0, reference - b.low) / reference)
  {
    RealFacts.Quotient(TrueRange(b.high, b.low, reference), reference);
    MoveIsMove(reference, b.close);
    DropIsDrop(reference, b.low);
  }

  lemma ReturnIsReported(symbol: Symbol, date: Date, openAt: int, aligned: seq<Option<Bar>>, prior: Option<real>,
                         root: real -> real, i: nat)
    requires i < |aligned|
    ensures TargetAt(symbol, date, openAt, aligned, prior, root, i).return15 == ReturnAt(aligned, i)
  {
  }

  lemma MovesAreLawful(symbol: Symbol, date: Date, openAt: int, aligned: seq<Option<Bar>>, prior: Option<real>,
                       root: real -> real, i: nat)
    requires i < |aligned| && AllValid(aligned)
    ensures MovesLaw(TargetAt(symbol, date, openAt, aligned, prior, root, i), aligned[i])
  {
    var t, reference := TargetAt(symbol, date, openAt, aligned, prior, root, i), Reference(aligned, i);
    assert reference.Some? ==> reference.value > 0.0 by {
      assert i > 0 && aligned[i - 1].Some? ==> ValidBar(aligned[i - 1].value);
    }
    if aligned[i].Some? && reference.Some? {
      BarMovesLawfully(aligned[i].value, reference.value);
    }
  }

  lemma SessionMovesAreLawful(symbol: Symbol, date: Date, openAt: int, aligned: seq<Option<Bar>>, prior: Option<real>,
                              root: real -> real, i: nat)
    requires i < |aligned| && AllValid(aligned)
    ensures SessionMovesLaw(TargetAt(symbol, date, openAt, aligned, prior, root, i))
  {
    var bar, open, peak := aligned[i], OpenOf(aligned), PeakAt(aligned, i);
    if peak.Some? {
      assert aligned[0].Some? && aligned[i].Some? && peak.value >= aligned[i].value.high > 0.0;
      DropIsDrop(peak.value, bar.value.close);
      MoveIsMove(open.value, peak.value);
    }
    if bar.Some? && open.Some? {
      MoveIsMove(open.value, bar.value.close);
    }
  }

  lemma RatioIsLawful(value: Option<real>, atr: Option<real>)
    requires atr.Some? ==> atr.value > 0.0
    ensures RatioLaw(Ratio(value, atr), value, atr)
  {
    if value.Some? && atr.Some? {
      RealFacts.Quotient(value.value, atr.value);
    }
  }

  lemma RatiosAreLawful(symbol: Symbol, date: Date, openAt: int, aligned: seq<Option<Bar>>, prior: Option<real>,
                        root: real -> real, i: nat)
    requires i < |aligned|
    ensures RatiosLaw(TargetAt(symbol, date, openAt, aligned, prior, root, i), prior)
  {
    var t := TargetAt(symbol, date, openAt, aligned, prior, root, i);
    RatioIsLawful(t.shockPct, t.priorAtr14Pct);
    RatioIsLawful(t.downsideExcursionPct, t.priorAtr14Pct);
    RatioIsLawful(t.realizedMovement60Pct, t.priorAtr14Pct);
    RatioIsLawful(t.sessionDrawdownPct, t.priorAtr14Pct);
  }

  lemma ListedIssues(a: bool, b: bool, c: bool, d: bool, e: bool)
    ensures var list := (if a then [MISSING_INVALID_OR_DUPLICATE_BAR] else []) + (if b then [MISSING_REFERENCE] else [])
                        + (if c then [INCOMPLETE_SESSION_PREFIX] else []) + (if d then [PRIOR_ATR_UNAVAILABLE] else [])
                        + (if e then [ROLLING_CONTINUITY_FAILURE] else []);
            && (a <==> MISSING_INVALID_OR_DUPLICATE_BAR in list) && (b <==> MISSING_REFERENCE in list)
            && (c <==> INCOMPLETE_SESSION_PREFIX in list) && (d <==> PRIOR_ATR_UNAVAILABLE in list)
            && (e <==> ROLLING_CONTINUITY_FAILURE in list)
  {
  }

  lemma IssuesAreLawful(symbol: Symbol, date: Date, openAt: int, aligned: seq<Option<Bar>>, prior: Option<real>,
                        root: real -> real, i: nat)
    requires i < |aligned|
    ensures IssuesLaw(TargetAt(symbol, date, openAt, aligned, prior, root, i))
  {
    var t := TargetAt(symbol, date, openAt, aligned, prior, root, i);
    ListedIssues(aligned[i].None?, Reference(aligned, i).None?, PeakAt(aligned, i).None?, t.priorAtr14Pct.None?,
                 i >= 3 && WindowAt(aligned, i).None?);
  }

  lemma RollingIsReported(symbol: Symbol, date: Date, openAt: int, aligned: seq<Option<Bar>>, prior: Option<real>,
                          root: real -> real, i: nat)
    requires i < |aligned|
    ensures Rolled(TargetAt(symbol, date, openAt, aligned, prior, root, i), i, WindowAt(aligned, i), root)
  {
  }

  ghost predicate Rolled(t: Target, i: nat, window: Option<Window>, root: real -> real) {
    && (i < 3 ==> window.None? && t.rollingStatus == NOT_APPLICABLE_SESSION_WARMUP)
    && (i >= 3 ==> t.rollingStatus == if window.None? then ROLLING_UNAVAILABLE else ROLLING_VALID)
    && t.realizedMovement60Pct == (if window.Some? then Some(window.value.Movement(root)) else None)
    && t.pathLength60 == (if window.Some? then Some(window.value.Path()) else None)
  }

  lemma WindowOfReturns(aligned: seq<Option<Bar>>, i: nat)
    requires 3 <= i < |aligned|
    ensures var a, b, c, d := ReturnAt(aligned, i - 3), ReturnAt(aligned, i - 2), ReturnAt(aligned, i - 1),
                              ReturnAt(aligned, i);
            WindowAt(aligned, i) == if a.Some? && b.Some? && c.Some? && d.Some?
                                    then Some(Window(a.value, b.value, c.value, d.value)) else None
  {
    assert (forall j | i - 3 <= j <= i :: HasReturn(aligned, j)) <==>
           HasReturn(aligned, i - 3) && HasReturn(aligned, i - 2) && HasReturn(aligned, i - 1) && HasReturn(aligned, i);
  }

  lemma RollingIsLawful(targets: seq<Target>, aligned: seq<Option<Bar>>, root: real -> real, i: nat)
    requires i < |aligned| == |targets| && Rolled(targets[i], i, WindowAt(aligned, i), root)
    requires forall j | 0 <= j < |aligned| :: targets[j].return15 == ReturnAt(aligned, j)
    ensures RollingLaw(targets, i, root)
  {
    if i >= 3 {
      WindowOfReturns(aligned, i);
      if WindowAt(aligned, i).Some? {
        WindowIsLawful(WindowAt(aligned, i).value, root);
      }
    }
  }

  lemma WindowIsLawful(w: Window, root: real -> real)
    ensures IsMovement(w.Movement(root), root, w.a, w.b, w.c, w.d) && IsPath(w.Path(), w.a, w.b, w.c, w.d)
  {
  }

  /** All targets of a session obey its law. */
  lemma SessionIsLawful(symbol: Symbol, date: Date, bars: seq<Bar>, prior: Option<real>, s: Session,
                        root: real -> real)
    requires (s.closeAt - s.openAt) % INTERVAL == 0
    ensures SessionLaw(SessionTargets(symbol, date, bars, prior, s, root), symbol, date, bars, prior, s, root)
  {
    var aligned, targets := Aligned(bars, s), SessionTargets(symbol, date, bars, prior, s, root);
    SlotsAreLawful(bars, s);
    forall j | 0 <= j < |aligned| ensures targets[j].return15 == ReturnAt(aligned, j) {
      ReturnIsReported(symbol, date, s.openAt, aligned, prior, root, j);
    }
    forall i: nat | i < |targets| ensures TargetLaw(targets, i, aligned, symbol, date, s.openAt, prior, root) {
      PricesAreLawful(symbol, date, s.openAt, aligned, prior, root, i);
      MovesAreLawful(symbol, date, s.openAt, aligned, prior, root, i);
      SessionMovesAreLawful(symbol, date, s.openAt, aligned, prior, root, i);
      RollingIsReported(symbol, date, s.openAt, aligned, prior, root, i);
      RollingIsLawful(targets, aligned, root, i);
      RatiosAreLawful(symbol, date, s.openAt, aligned, prior, root, i);
      IssuesAreLawful(symbol, date, s.openAt, aligned, prior, root, i);
    }
  }

  /** The last bar of every start, and the starts that several bars share. */
  ghost predicate Files(byTime: map<int, Bar>, duplicates: set<int>, bars: seq<Bar>) {
    && (forall t :: LastAt(bars, t) == if t in byTime then Some(byTime[t]) else None)
    && (forall t :: t in duplicates <==> CountAt(bars, t) > 1) && (forall t :: t in byTime <==> CountAt(bars, t) > 0)
  }

  method FileBars(symbol: Symbol, date: Date, bars: seq<Bar>, s: Session, etDate: int -> Date)
    returns (ok: bool, byTime: map<int, Bar>, duplicates: set<int>)
    ensures ok <==> AllExpected(bars, symbol, date, s, etDate)
    ensures ok <==> !exists b :: b in bars && Foreign(b, symbol, date, s, etDate)
    ensures ok ==> Files(byTime, duplicates, bars)
  {
    byTime, duplicates := map[], {};
    for k := 0 to |bars|
      invariant AllExpected(bars[..k], symbol, date, s, etDate) && Files(byTime, duplicates, bars[..k])
    {
      var b := bars[k];
      if !ExpectedBar(b, symbol, date, s, etDate) {
        assert b in bars && Foreign(b, symbol, date, s, etDate);
        return false, byTime, duplicates;
      }
      assert bars[..k + 1][..k] == bars[..k];
      if b.t in byTime {
        duplicates := duplicates + {b.t};
      }
      byTime := byTime[b.t := b];
    }
    assert bars[..|bars|] == bars;
    ok := true;
  }

  method AlignBars(bars: seq<Bar>, s: Session, byTime: map<int, Bar>, duplicates: set<int>)
    returns (aligned: seq<Option<Bar>>)
    requires Files(byTime, duplicates, bars)
    ensures aligned == Aligned(bars, s)
  {
    var count := SlotCount(s);
    ghost var slots := Aligned(bars, s);
    aligned := [];
    for i := 0 to count
      invariant aligned == slots[..i]
    {
      var t := s.openAt + i * INTERVAL;
      assert slots[i] == Slot(bars, t);
      aligned := aligned + [if t in byTime && ValidBar(byTime[t]) && t !in duplicates
                            then Some(byTime[t]) else None];
    }
  }

  /** One pass with a running peak, a prefix flag and a list of returns computes every target. */
  method MeasureSession(symbol: Symbol, date: Date, bars: seq<Bar>, priorAtr14Pct: Option<real>,
                        session: Option<Session>, etDate: int -> Date, root: real -> real)
    returns (r: Result<seq<Target>, MeasureError>)
    ensures session.None? ==> r == Failure(ExpectedOpenSession)
    ensures session.Some? && (session.value.closeAt - session.value.openAt) % 900_000 != 0
            ==> r == Failure(SessionNotAligned)
    ensures session.Some? ==>
              match ErrorOf(symbol, date, bars, session.value, etDate)
              case Some(error) => r == Failure(error)
              case None => r == Success(SessionTargets(symbol, date, bars, priorAtr14Pct, session.value, root))
    ensures r.Success? ==>
              session.Some? && SessionLaw(r.value, symbol, date, bars, priorAtr14Pct, session.value, root)
    ensures (r == Failure(UnexpectedBar)) <==>
              session.Some? && (session.value.closeAt - session.value.openAt) % 900_000 == 0
              && exists b :: b in bars && Foreign(b, symbol, date, session.value, etDate)
  {
    if session.None? {
      return Failure(ExpectedOpenSession);
    }
    var s := session.value;
    if (s.closeAt - s.openAt) % INTERVAL != 0 {
      return Failure(SessionNotAligned);
    }
    var ok, byTime, duplicates := FileBars(symbol, date, bars, s, etDate);
    if !ok {
      return Failure(UnexpectedBar);
    }
    var aligned := AlignBars(bars, s, byTime, duplicates);
    var targets := MeasureSlots(symbol, date, s.openAt, aligned, priorAtr14Pct, root);
    assert targets == SessionTargets(symbol, date, bars, priorAtr14Pct, s, root);
    SessionIsLawful(symbol, date, bars, priorAtr14Pct, s, root);
    return Success(targets);
  }

  /** The running peak: nothing without a session open, the open itself before the first bar, and the highest high
      as long as no slot is missing. */
  ghost predicate TracksPeak(aligned: seq<Option<Bar>>, peak: Option<real>, i: nat)
    requires i <= |aligned|
  {
    && (peak.Some? <==> OpenOf(aligned).Some?) && (i == 0 ==> peak == OpenOf(aligned))
    && (Complete(aligned, i) && i > 0 ==> peak == Some(MaxHigh(aligned, i)))
  }

  function Raised(peak: Option<real>, bar: Option<Bar>): Option<real> {
    if bar.Some? && peak.Some? then Some(Max(peak.value, bar.value.high)) else peak
  }

  lemma PeakOneMore(aligned: seq<Option<Bar>>, peak: Option<real>, i: nat)
    requires i < |aligned| && AllValid(aligned) && TracksPeak(aligned, peak, i)
    ensures Complete(aligned, i + 1) <==> Complete(aligned, i) && aligned[i].Some?
    ensures TracksPeak(aligned, Raised(peak, aligned[i]), i + 1)
    ensures PeakAt(aligned, i) == if Complete(aligned, i + 1) then Raised(peak, aligned[i]) else None
  {
    if Complete(aligned, i + 1) {
      assert aligned[0].Some? && aligned[i].Some?;
    }
  }

  /** The first `n` targets of a session. */
  ghost predicate Measured(targets: seq<Target>, symbol: Symbol, date: Date, openAt: int, aligned: seq<Option<Bar>>,
                           prior: Option<real>, root: real -> real, n: nat) {
    && |targets| == n <= |aligned|
    && forall j | 0 <= j < n :: targets[j] == TargetAt(symbol, date, openAt, aligned, prior, root, j)
  }

  ghost predicate ReturnsOf(returns_: seq<Option<real>>, aligned: seq<Option<Bar>>, n: nat) {
    |returns_| == n <= |aligned| && forall j | 0 <= j < n :: returns_[j] == ReturnAt(aligned, j)
  }

  lemma ReturnsOneMore(returns_: seq<Option<real>>, aligned: seq<Option<Bar>>, r: Option<real>, n: nat)
    requires ReturnsOf(returns_, aligned, n) && n < |aligned| && r == ReturnAt(aligned, n)
    ensures ReturnsOf(returns_ + [r], aligned, n + 1)
  {
  }

  lemma MeasuredOneMore(targets: seq<Target>, symbol: Symbol, date: Date, openAt: int, aligned: seq<Option<Bar>>,
                        prior: Option<real>, root: real -> real, i: nat)
    requires Measured(targets, symbol, date, openAt, aligned, prior, root, i) && i < |aligned|
    ensures Measured(targets + [TargetAt(symbol, date, openAt, aligned, prior, root, i)],
                     symbol, date, openAt, aligned, prior, root, i + 1)
  {
  }

  method MeasureSlots(symbol: Symbol, date: Date, openAt: int, aligned: seq<Option<Bar>>,
                      priorAtr14Pct: Option<real>, root: real -> real) returns (targets: seq<Target>)
    requires AllValid(aligned)
    ensures Measured(targets, symbol, date, openAt, aligned, priorAtr14Pct, root, |aligned|)
  {
    var open := if |aligned| > 0 && aligned[0].Some? then Some(aligned[0].value.open) else None;
    var peak, prefixComplete := open, true;
    var returns_: seq<Option<real>> := [];
    targets := [];
    for i := 0 to |aligned|
      invariant prefixComplete <==> Complete(aligned, i)
      invariant TracksPeak(aligned, peak, i)
      invariant ReturnsOf(returns_, aligned, i)
      invariant Measured(targets, symbol, date, openAt, aligned, priorAtr14Pct, root, i)
    {
      var bar := aligned[i];
      var reference := if i == 0 then open
                       else if aligned[i - 1].Some? then Some(aligned[i - 1].value.close) else None;
      PeakOneMore(aligned, peak, i);
      prefixComplete := prefixComplete && bar.Some?;
      if bar.Some? && peak.Some? {
        peak := Some(Max(peak.value, bar.value.high));
      }
      var measured := bar.Some? && reference.Some? && reference.value != 0.0;
      var r := if measured then Some(bar.value.close / reference.value - 1.0) else None;
      assert reference == Reference(aligned, i) && r == ReturnAt(aligned, i);
      ReturnsOneMore(returns_, aligned, r, i);
      returns_ := returns_ + [r];
      var window := LastFour(returns_);
      LastFourIsWindow(aligned, returns_, i);
      MeasuredOneMore(targets, symbol, date, openAt, aligned, priorAtr14Pct, root, i);
      assert open == OpenOf(aligned) && (if prefixComplete then peak else None) == PeakAt(aligned, i);
      targets := targets + [Report(symbol, date, openAt, |aligned|, i, bar, reference, open,
                                   if prefixComplete then peak else None, window, root, priorAtr14Pct)];
    }
  }

  /** The last four of the returns collected so far, when none of them is missing. */
  function LastFour(returns_: seq<Option<real>>): Option<Window> {
    var n := |returns_|;
    if n >= 4 && returns_[n - 4].Some? && returns_[n - 3].Some? && returns_[n - 2].Some? && returns_[n - 1].Some?
    then Some(Window(returns_[n - 4].value, returns_[n - 3].value, returns_[n - 2].value, returns_[n - 1].value))
    else None
  }

  lemma LastFourIsWindow(aligned: seq<Option<Bar>>, returns_: seq<Option<real>>, i: nat)
    requires i < |aligned| && ReturnsOf(returns_, aligned, i + 1)
    ensures LastFour(returns_) == WindowAt(aligned, i)
  {
    if i >= 3 {
      assert (forall j | i - 3 <= j <= i :: HasReturn(aligned, j)) <==>
             HasReturn(aligned, i - 3) && HasReturn(aligned, i - 2) && HasReturn(aligned, i - 1)
             && HasReturn(aligned, i);
    }
  }

  // --- What a valid target stands for ---

  lemma StatusMeaning(symbol: Symbol, date: Date, openAt: int, aligned: seq<Option<Bar>>, prior: Option<real>,
                      root: real -> real, i: nat)
    requires i < |aligned| && AllValid(aligned)
    ensures TargetAt(symbol, date, openAt, aligned, prior, root, i).status == VALID
            <==> prior.Some? && prior.value > 0.0 && Complete(aligned, i + 1)
  {
    if Complete(aligned, i + 1) {
      assert aligned[i].Some?;
      if i > 0 {
        assert aligned[i - 1].Some?;
      }
      if i >= 3 {
        forall j | i - 3 <= j <= i ensures HasReturn(aligned, j) {
          assert aligned[j].Some? && (j > 0 ==> aligned[j - 1].Some?) && aligned[0].Some?;
        }
      }
    }
  }

  /** Availability is a prefix: a target is valid exactly when the prior ATR is positive and every slot up to it
      holds one valid bar and no duplicate. */
  lemma AvailabilityIsPrefix(symbol: Symbol, date: Date, bars: seq<Bar>, prior: Option<real>, s: Session,
                             root: real -> real, i: nat)
    requires i < SlotCount(s)
    ensures SessionTargets(symbol, date, bars, prior, s, root)[i].status == VALID
            <==> prior.Some? && prior.value > 0.0
                 && forall j | 0 <= j <= i :: UsableBarAt(bars, SlotTime(s, j))
  {
    var aligned := Aligned(bars, s);
    StatusMeaning(symbol, date, s.openAt, aligned, prior, root, i);
    forall j: nat | j <= i ensures aligned[j].Some? <==> UsableBarAt(bars, SlotTime(s, j)) {
      SlotMeaning(bars, SlotTime(s, j));
    }
  }

  /** `f` is how far `x` has fallen short of a positive `base`, as a fraction of it. */
  ghost predicate IsShortfall(f: real, base: real, x: real) {
    0.0 <= f < 1.0 && base * (1.0 - f) == Min(base, x)
  }

  lemma ReportedDrawdown(symbol: Symbol, date: Date, openAt: int, count: nat, i: nat, bar: Option<Bar>,
                         reference: Option<real>, open: Option<real>, peak: Option<real>, window: Option<Window>,
                         root: real -> real, prior: Option<real>)
    requires bar.Some? && peak.Some? && 0.0 < bar.value.close <= peak.value
    ensures var t := Report(symbol, date, openAt, count, i, bar, reference, open, peak, window, root, prior);
            t.sessionDrawdownPct.Some? && IsShortfall(t.sessionDrawdownPct.value, peak.value, bar.value.close)
  {
    ShortfallIsShortfall(peak.value, bar.value.close);
  }

  /** On a valid target the peak is the running maximum of the highs, and the drawdown is exactly what separates it
      from the close. */
  lemma ValidTargetEvidence(symbol: Symbol, date: Date, openAt: int, aligned: seq<Option<Bar>>,
                            prior: Option<real>, root: real -> real, i: nat)
    requires i < |aligned| && AllValid(aligned)
    requires TargetAt(symbol, date, openAt, aligned, prior, root, i).status == VALID
    ensures Complete(aligned, i + 1)
    ensures var t := TargetAt(symbol, date, openAt, aligned, prior, root, i);
            && t.sessionPeak == Some(MaxHigh(aligned, i + 1))
            && t.sessionDrawdownPct.Some?
            && IsShortfall(t.sessionDrawdownPct.value, MaxHigh(aligned, i + 1), aligned[i].value.close)
            && 0.0 < aligned[i].value.close <= MaxHigh(aligned, i + 1)
  {
    StatusMeaning(symbol, date, openAt, aligned, prior, root, i);
    var peak := MaxHigh(aligned, i + 1);
    assert 0.0 < aligned[i].value.close <= aligned[i].value.high <= peak;
    ReportedDrawdown(symbol, date, openAt, |aligned|, i, aligned[i], Reference(aligned, i), OpenOf(aligned),
                     Some(peak), WindowAt(aligned, i), root, prior);
  }

  /** The intrabar excursion is exactly what separates the reference price from the low. */
  lemma ValidTargetDownside(symbol: Symbol, date: Date, openAt: int, aligned: seq<Option<Bar>>,
                            prior: Option<real>, root: real -> real, i: nat)
    requires i < |aligned| && AllValid(aligned)
    requires TargetAt(symbol, date, openAt, aligned, prior, root, i).status == VALID
    ensures var t := TargetAt(symbol, date, openAt, aligned, prior, root, i);
            && aligned[i].Some? && t.referencePrice.Some?
            && t.downsideExcursionPct.Some?
            && IsShortfall(t.downsideExcursionPct.value, t.referencePrice.value, aligned[i].value.low)
  {
    StatusMeaning(symbol, date, openAt, aligned, prior, root, i);
    assert aligned[i].Some? && (i > 0 ==> aligned[i - 1].Some?);
    ShortfallIsShortfall(Reference(aligned, i).value, aligned[i].value.low);
  }

  lemma ShortfallIsShortfall(base: real, x: real)
    requires base > 0.0 && x > 0.0
    ensures IsShortfall(Max(0.0, base - x) / base, base, x)
  {
    RealFacts.Fraction(Max(0.0, base - x), base);
  }
}
