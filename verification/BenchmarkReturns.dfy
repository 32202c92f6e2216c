/** Forward-window benchmark returns of src/dev/breadth-v2-validation.ts, over exact session offsets. */
module BenchmarkReturns {
  import opened Wrappers
  import RealFacts

  type Date = int
  datatype Provider = MASSIVE | TIINGO
  /** A decimal read from the store: finite, or one of the non-finite values. */
  datatype Number = Finite(v: real) | NonFinite
  datatype Bar = Bar(date: Date, close: Number, provider: Provider, splitFactor: Option<Number>)
  datatype Split = Split(date: Date, factor: Number, provider: Provider)
  datatype Coverage = Coverage(from: Date, through: Date, provider: Provider)
  datatype Reason = MISSING_BASE_BAR | INCOMPLETE_FORWARD_WINDOW | INVALID_BASE_CLOSE | INVALID_BASE_SPLIT_FACTOR
                  | MISSING_FORWARD_BAR | PROVIDER_SEAM | MISSING_SPLIT_FACTOR | SPLIT_COVERAGE_UNAVAILABLE
                  | SPLIT_PROVIDER_CONFLICT | INVALID_BENCHMARK_EVIDENCE
  datatype Outcome = Outcome(sessionDate: Date, horizon: nat, provider: Option<Provider>,
                             forwardReturn: Option<real>, forwardMaxDrawdown: Option<real>,
                             forwardMaxGain: Option<real>, unavailableReason: Option<Reason>)
  datatype InputError = DuplicateBar | DuplicateSplit

  const HORIZONS: seq<nat> := [1, 5, 20]

  /** The evidence after indexing by date. */
  datatype Evidence = Evidence(sessions: seq<Date>, bars: map<Date, Bar>, splits: map<Date, Split>,
                               coverages: seq<Coverage>, lastBarDate: Option<Date>)

  predicate Positive(n: Number) { n.Finite? && n.v > 0.0 }

  // --- One session of a window ---

  predicate Covered(e: Evidence, date: Date) {
    exists k :: 0 <= k < |e.coverages| && e.coverages[k].provider == MASSIVE
                && e.coverages[k].from <= date && e.coverages[k].through >= date
  }

  /** The split factor of one forward session, or why there is none. */
  function SplitAt(e: Evidence, bar: Bar, date: Date): Result<Number, Reason> {
    if bar.provider == TIINGO then
      if bar.splitFactor.None? then Failure(MISSING_SPLIT_FACTOR) else Success(bar.splitFactor.value)
    else if !Covered(e, date) then Failure(SPLIT_COVERAGE_UNAVAILABLE)
    else if date in e.splits && e.splits[date].provider != MASSIVE then Failure(SPLIT_PROVIDER_CONFLICT)
    else Success(if date in e.splits then e.splits[date].factor else Finite(1.0))
  }

  /** The close and split that session `j` contributes to a window of the provider, or why it contributes nothing. */
  function ForwardAt(e: Evidence, provider: Provider, j: nat): (r: Result<(real, real), Reason>)
    requires j < |e.sessions|
    ensures r.Success? ==> r.value.0 > 0.0 && r.value.1 > 0.0
  {
    var date := e.sessions[j];
    if date !in e.bars then
      Failure(if e.lastBarDate.None? || date > e.lastBarDate.value then INCOMPLETE_FORWARD_WINDOW
              else MISSING_FORWARD_BAR)
    else if e.bars[date].provider != provider then Failure(PROVIDER_SEAM)
    else
      var split := SplitAt(e, e.bars[date], date);
      if split.Failure? then Failure(split.error)
      else if !Positive(split.value) || !Positive(e.bars[date].close) then Failure(INVALID_BENCHMARK_EVIDENCE)
      else Success((e.bars[date].close.v, split.value.v))
  }

  /** Why session `i` cannot be the base of a window of `h` sessions, if it cannot. */
  function BaseReason(e: Evidence, i: nat, h: nat): (r: Option<Reason>)
    requires i < |e.sessions|
    ensures r.None? ==> i + h < |e.sessions| && e.sessions[i] in e.bars && Positive(e.bars[e.sessions[i]].close)
  {
    var date := e.sessions[i];
    if date !in e.bars then Some(MISSING_BASE_BAR)
    else if i + h >= |e.sessions| then Some(INCOMPLETE_FORWARD_WINDOW)
    else
      var base := e.bars[date];
      if !Positive(base.close) then Some(INVALID_BASE_CLOSE)
      else if base.provider == TIINGO && (base.splitFactor.None? || !Positive(base.splitFactor.value))
      then Some(INVALID_BASE_SPLIT_FACTOR)
      else None
  }

  // --- A window, read from the outside ---

  /** All `n` forward sessions after `i` contribute. */
  predicate Contribute(e: Evidence, provider: Provider, i: nat, n: nat)
    requires i + n < |e.sessions|
  {
    forall j | i < j <= i + n :: ForwardAt(e, provider, j).Success?
  }

  /** The product of the splits of the `n` sessions after `i`. */
  function Factor(e: Evidence, provider: Provider, i: nat, n: nat): (f: real)
    requires i + n < |e.sessions| && Contribute(e, provider, i, n)
    ensures f > 0.0
  {
    if n == 0 then 1.0 else Factor(e, provider, i, n - 1) * ForwardAt(e, provider, i + n).value.1
  }

  predicate Available(e: Evidence, i: nat, h: nat)
    requires i < |e.sessions|
  {
    BaseReason(e, i, h).None? && Contribute(e, e.bars[e.sessions[i]].provider, i, h)
  }

  /** One plus the return over `n` sessions: the split-adjusted close against the base close. */
  function Growth(e: Evidence, i: nat, n: nat): (g: real)
    requires i < |e.sessions| && 1 <= n && Available(e, i, n)
    ensures g > 0.0
  {
    var p := e.bars[e.sessions[i]].provider;
    AdjustedFacts(ForwardAt(e, p, i + n).value.0, Factor(e, p, i, n), e.bars[e.sessions[i]].close.v);
    Adjusted(ForwardAt(e, p, i + n).value.0, Factor(e, p, i, n), e.bars[e.sessions[i]].close.v)
  }

  function Adjusted(close: real, factor: real, baseClose: real): real
    requires baseClose > 0.0
  {
    close * factor / baseClose
  }

  lemma AdjustedFacts(close: real, factor: real, baseClose: real)
    requires close > 0.0 && factor > 0.0 && baseClose > 0.0
    ensures Adjusted(close, factor, baseClose) > 0.0
  {
    var product := close * factor;
    assert product > 0.0;
    RealFacts.PositiveQuotient(product, baseClose);
  }

  // --- Telescoping ---

  /** A longer window is available exactly when every one-session window inside it is. */
  lemma {:induction false} AvailableIffSteps(e: Evidence, i: nat, h: nat)
    requires i < |e.sessions| && h >= 1
    ensures Available(e, i, h) <==>
              i + h < |e.sessions| && forall j: nat | i <= j < i + h :: Available(e, j, 1)
    decreases h
  {
    if i + h < |e.sessions| {
      if h == 1 {
      } else {
        AvailableIffSteps(e, i, h - 1);
        WindowGrows(e, i, h);
      }
    }
  }

  /** One more session: available with the shorter window and the one-session window at its end. */
  lemma WindowGrows(e: Evidence, i: nat, h: nat)
    requires h >= 2 && i + h < |e.sessions|
    ensures Available(e, i, h) <==> Available(e, i, h - 1) && Available(e, i + h - 1, 1)
    ensures Available(e, i, h) ==> e.bars[e.sessions[i + h - 1]].provider == e.bars[e.sessions[i]].provider
  {
    if BaseReason(e, i, h).None? {
      var p := e.bars[e.sessions[i]].provider;
      if Contribute(e, p, i, h - 1) {
        assert ForwardAt(e, p, i + h - 1).Success?;
        assert Contribute(e, p, i, h) <==> ForwardAt(e, p, i + h).Success?;
        assert Available(e, i + h - 1, 1) <==> ForwardAt(e, p, i + h).Success?;
      }
    }
  }

  function StepProduct(e: Evidence, i: nat, h: nat): real
    requires i + h <= |e.sessions| && forall j: nat | i <= j < i + h :: Available(e, j, 1)
    decreases h
  {
    if h == 0 then 1.0 else StepProduct(e, i, h - 1) * Growth(e, i + h - 1, 1)
  }

  /** Returns telescope: growth over `h` sessions is the product of the one-session growths, splits included. */
  lemma {:induction false} ReturnsTelescope(e: Evidence, i: nat, h: nat)
    requires i < |e.sessions| && h >= 1 && Available(e, i, h)
    ensures i + h < |e.sessions| && forall j: nat | i <= j < i + h :: Available(e, j, 1)
    ensures Growth(e, i, h) == StepProduct(e, i, h)
    decreases h
  {
    AvailableIffSteps(e, i, h);
    if h == 1 {
      assert StepProduct(e, i, 0) == 1.0;
    } else {
      WindowGrows(e, i, h);
      ReturnsTelescope(e, i, h - 1);
      GrowthSplits(e, i, h);
    }
  }

  lemma GrowthSplits(e: Evidence, i: nat, h: nat)
    requires h >= 2 && i + h < |e.sessions|
    requires Available(e, i, h) && Available(e, i, h - 1) && Available(e, i + h - 1, 1)
    requires e.bars[e.sessions[i + h - 1]].provider == e.bars[e.sessions[i]].provider
    ensures Growth(e, i, h) == Growth(e, i, h - 1) * Growth(e, i + h - 1, 1)
  {
    var p := e.bars[e.sessions[i]].provider;
    var mid, last := ForwardAt(e, p, i + h - 1).value, ForwardAt(e, p, i + h).value;
    assert Factor(e, p, i + h - 1, 0) == 1.0;
    assert Factor(e, p, i + h - 1, 1) == last.1;
    Telescope(e.bars[e.sessions[i]].close.v, mid.0, last.0, Factor(e, p, i, h - 1), last.1);
  }

  lemma Telescope(base: real, mid: real, last: real, factor: real, split: real)
    requires base > 0.0 && mid > 0.0
    ensures Adjusted(last, factor * split, base) == Adjusted(mid, factor, base) * Adjusted(last, split, mid)
  {
    var a, b := Adjusted(mid, factor, base), Adjusted(last, split, mid);
    RealFacts.Quotient(mid * factor, base);
    RealFacts.Quotient(last * split, mid);
    assert a * base == mid * factor && b * mid == last * split;
    assert a * b * base * mid == (mid * factor) * (last * split);
    assert (last * (factor * split)) * mid == (mid * factor) * (last * split);
    RealFacts.CancelFactor(a * b * base, last * (factor * split), mid);
    RealFacts.QuotientIs(a * b, base, last * (factor * split));
  }

  // --- Outcomes ---

  /** Why the window is unavailable: its base first, then its first session that contributes nothing. */
  function FirstFailure(e: Evidence, provider: Provider, i: nat, n: nat): (r: Option<Reason>)
    requires i + n < |e.sessions|
    ensures r.None? <==> Contribute(e, provider, i, n)
  {
    if n == 0 then None
    else
      var before := FirstFailure(e, provider, i, n - 1);
      if before.Some? then before
      else if ForwardAt(e, provider, i + n).Failure? then Some(ForwardAt(e, provider, i + n).error)
      else None
  }

  function ReasonAt(e: Evidence, i: nat, h: nat): (r: Option<Reason>)
    requires i < |e.sessions|
    ensures r.None? <==> Available(e, i, h)
  {
    var base := BaseReason(e, i, h);
    if base.Some? then base else FirstFailure(e, e.bars[e.sessions[i]].provider, i, h)
  }

  /** The returns after 1, 2, .. n sessions. */
  function Changes(e: Evidence, i: nat, n: nat): (c: seq<real>)
    requires i < |e.sessions| && Available(e, i, n)
    ensures |c| == n
    decreases n
  {
    if n == 0 then [] else Changes(e, i, n - 1) + [Growth(e, i, n) - 1.0]
  }

  /** The least of zero and the values, and the greatest. */
  function Lowest(c: seq<real>): (m: real)
    ensures m <= 0.0 && forall k | 0 <= k < |c| :: m <= c[k]
    ensures m == 0.0 || m in c
  {
    if c == [] then 0.0
    else
      var m, last := Lowest(c[..|c| - 1]), c[|c| - 1];
      if last < m then last else m
  }

  function Highest(c: seq<real>): (m: real)
    ensures m >= 0.0 && forall k | 0 <= k < |c| :: m >= c[k]
    ensures m == 0.0 || m in c
  {
    if c == [] then 0.0
    else
      var m, last := Highest(c[..|c| - 1]), c[|c| - 1];
      if last > m then last else m
  }

  function OutcomeAt(e: Evidence, i: nat, h: nat): Outcome
    requires i < |e.sessions| && h >= 1
  {
    var date := e.sessions[i];
    var provider := if date in e.bars then Some(e.bars[date].provider) else None;
    if Available(e, i, h) then
      var c := Changes(e, i, h);
      Outcome(date, h, provider, Some(Growth(e, i, h) - 1.0),
              if h == 1 then None else Some(Lowest(c)), if h == 1 then None else Some(Highest(c)), None)
    else Outcome(date, h, provider, None, None, None, ReasonAt(e, i, h))
  }

  lemma WalkStep(e: Evidence, base: Bar, i: nat, n: nat, h: nat)
    requires i < |e.sessions| && BaseReason(e, i, h).None? && base == e.bars[e.sessions[i]]
    requires n < h && Available(e, i, n) && ForwardAt(e, base.provider, i + n + 1).Success?
    ensures FirstFailure(e, base.provider, i, n + 1).None? && Available(e, i, n + 1)
    ensures Factor(e, base.provider, i, n + 1)
            == Factor(e, base.provider, i, n) * ForwardAt(e, base.provider, i + n + 1).value.1
    ensures Changes(e, i, n + 1) == Changes(e, i, n)
            + [Adjusted(ForwardAt(e, base.provider, i + n + 1).value.0, Factor(e, base.provider, i, n + 1),
                        base.close.v) - 1.0]
  {
    var close, factor := ForwardAt(e, base.provider, i + n + 1).value.0, Factor(e, base.provider, i, n + 1);
    assert Growth(e, i, n + 1) == Adjusted(close, factor, base.close.v);
    assert Changes(e, i, n + 1) == Changes(e, i, n) + [Growth(e, i, n + 1) - 1.0];
  }

  /** Walks the window session by session; stops at the first that contributes nothing. */
  method WalkWindow(e: Evidence, base: Bar, i: nat, h: nat) returns (reason: Option<Reason>, changes: seq<real>)
    requires i < |e.sessions| && BaseReason(e, i, h).None? && base == e.bars[e.sessions[i]]
    ensures reason == FirstFailure(e, base.provider, i, h)
    ensures reason.None? ==> Available(e, i, h) && changes == Changes(e, i, h)
  {
    reason, changes := None, [];
    var factor := 1.0;
    for n := 0 to h
      invariant FirstFailure(e, base.provider, i, n).None? && Available(e, i, n)
      invariant factor == Factor(e, base.provider, i, n)
      invariant changes == Changes(e, i, n)
    {
      var forward := ForwardAt(e, base.provider, i + n + 1);
      if forward.Failure? {
        FailureStays(e, base.provider, i, n + 1, h);
        return Some(forward.error), changes;
      }
      var (close, split) := forward.value;
      WalkStep(e, base, i, n, h);
      factor := factor * split;
      changes := changes + [Adjusted(close, factor, base.close.v) - 1.0];
    }
  }

  method WindowOutcome(e: Evidence, i: nat, h: nat) returns (o: Outcome)
    requires i < |e.sessions| && h >= 1
    ensures o == OutcomeAt(e, i, h)
  {
    var reason: Option<Reason> := BaseReason(e, i, h);
    var forwardReturn: Option<real>, drawdown: Option<real>, gain: Option<real> := None, None, None;
    if reason.None? {
      var changes;
      reason, changes := WalkWindow(e, e.bars[e.sessions[i]], i, h);
      if reason.None? && |changes| == h {
        forwardReturn := Some(changes[h - 1]);
        if h != 1 {
          drawdown, gain := Some(Lowest(changes)), Some(Highest(changes));
        }
      }
    }
    var date := e.sessions[i];
    o := Outcome(date, h, if date in e.bars then Some(e.bars[date].provider) else None,
                 forwardReturn, drawdown, gain, reason);
  }

  lemma {:induction false} FailureStays(e: Evidence, provider: Provider, i: nat, n: nat, h: nat)
    requires 1 <= n <= h && i + h < |e.sessions|
    requires FirstFailure(e, provider, i, n - 1).None? && ForwardAt(e, provider, i + n).Failure?
    ensures FirstFailure(e, provider, i, h) == Some(ForwardAt(e, provider, i + n).error)
    decreases h
  {
    if n < h {
      FailureStays(e, provider, i, n, h - 1);
    }
  }

  lemma {:induction false} ChangeAt(e: Evidence, i: nat, n: nat, m: nat)
    requires i < |e.sessions| && 1 <= m <= n && Available(e, i, n)
    ensures Available(e, i, m) && Changes(e, i, n)[m - 1] == Growth(e, i, m) - 1.0
    decreases n
  {
    if m < n {
      ChangeAt(e, i, n - 1, m);
    }
  }

  /** Some horizon up to `h` returns exactly `v`. */
  ghost predicate Returned(e: Evidence, i: nat, h: nat, v: real)
    requires i < |e.sessions|
  {
    exists m: nat :: 1 <= m <= h && OutcomeAt(e, i, m).forwardReturn == Some(v)
  }

  /** An outcome carries a return or a reason, never both; and over a longer window the return of every shorter one
      lies between the reported drawdown and gain. */
  lemma OutcomeMeaning(e: Evidence, i: nat, h: nat)
    requires i < |e.sessions| && h >= 1
    ensures var o := OutcomeAt(e, i, h);
            && (o.forwardReturn.Some? <==> o.unavailableReason.None?)
            && (o.forwardReturn.Some? <==> Available(e, i, h))
            && (o.forwardMaxDrawdown.Some? <==> o.forwardReturn.Some? && h != 1)
            && (o.forwardMaxGain.Some? <==> o.forwardMaxDrawdown.Some?)
    ensures var o := OutcomeAt(e, i, h);
            o.forwardMaxDrawdown.Some? ==>
              (o.forwardMaxDrawdown.value <= 0.0 <= o.forwardMaxGain.value
               && forall m: nat | 1 <= m <= h :: OutcomeAt(e, i, m).forwardReturn.Some?
                    && o.forwardMaxDrawdown.value <= OutcomeAt(e, i, m).forwardReturn.value <= o.forwardMaxGain.value)
    ensures var o := OutcomeAt(e, i, h);
            o.forwardMaxDrawdown.Some? ==>
              (o.forwardMaxDrawdown.value == 0.0 || Returned(e, i, h, o.forwardMaxDrawdown.value))
              && (o.forwardMaxGain.value == 0.0 || Returned(e, i, h, o.forwardMaxGain.value))
  {
    if Available(e, i, h) {
      forall m: nat | 1 <= m <= h
        ensures Available(e, i, m) && Changes(e, i, h)[m - 1] == Growth(e, i, m) - 1.0 {
        ChangeAt(e, i, h, m);
      }
      forall v | v in Changes(e, i, h) ensures Returned(e, i, h, v) {
        var k :| 0 <= k < h && Changes(e, i, h)[k] == v;
        assert OutcomeAt(e, i, k + 1).forwardReturn == Some(v);
      }
    }
  }

  /** The product of the one-session returns, each plus one, as the table reports them. */
  function OneSessionProduct(e: Evidence, i: nat, h: nat): real
    requires i + h <= |e.sessions| && forall j: nat | i <= j < i + h :: OutcomeAt(e, j, 1).forwardReturn.Some?
    decreases h
  {
    if h == 0 then 1.0 else OneSessionProduct(e, i, h - 1) * (1.0 + OutcomeAt(e, i + h - 1, 1).forwardReturn.value)
  }

  lemma {:induction false} ProductsAgree(e: Evidence, i: nat, h: nat)
    requires i + h <= |e.sessions|
    requires forall j: nat | i <= j < i + h :: Available(e, j, 1) && OutcomeAt(e, j, 1).forwardReturn.Some?
    ensures OneSessionProduct(e, i, h) == StepProduct(e, i, h)
    decreases h
  {
    if h > 0 {
      ProductsAgree(e, i, h - 1);
    }
  }

  /** A window has a return exactly when each of its sessions has one of its own, and they compound to it. */
  lemma OutcomesTelescope(e: Evidence, i: nat, h: nat)
    requires i < |e.sessions| && h >= 1
    ensures OutcomeAt(e, i, h).forwardReturn.Some? <==>
              i + h < |e.sessions| && forall j: nat | i <= j < i + h :: OutcomeAt(e, j, 1).forwardReturn.Some?
    ensures OutcomeAt(e, i, h).forwardReturn.Some? ==>
              1.0 + OutcomeAt(e, i, h).forwardReturn.value == OneSessionProduct(e, i, h)
  {
    AvailableIffSteps(e, i, h);
    OutcomeMeaning(e, i, h);
    forall j: nat | i <= j < i + h && j < |e.sessions|
      ensures OutcomeAt(e, j, 1).forwardReturn.Some? <==> Available(e, j, 1) {
    }
    if Available(e, i, h) {
      ReturnsTelescope(e, i, h);
      ProductsAgree(e, i, h);
    }
  }

  // --- The whole table ---

  ghost predicate NoTwoBars(bars: seq<Bar>) {
    forall i, j | 0 <= i < j < |bars| :: bars[i].date != bars[j].date
  }

  ghost predicate NoTwoSplits(splits: seq<Split>) {
    forall i, j | 0 <= i < j < |splits| :: splits[i].date != splits[j].date
  }

  /** The evidence files every bar and split under its date and knows the last date that has a bar. */
  ghost predicate Indexes(e: Evidence, sessions: seq<Date>, bars: seq<Bar>, splits: seq<Split>,
                          coverages: seq<Coverage>)
  {
    && e.sessions == sessions && e.coverages == coverages
    && (forall b | b in bars :: b.date in e.bars && e.bars[b.date] == b)
    && (forall d | d in e.bars :: e.bars[d] in bars && e.bars[d].date == d)
    && (forall s | s in splits :: s.date in e.splits && e.splits[s.date] == s)
    && (forall d | d in e.splits :: e.splits[d] in splits && e.splits[d].date == d)
    && (e.lastBarDate.None? <==> bars == [])
    && (e.lastBarDate.Some? ==> e.lastBarDate.value in e.bars && forall d | d in e.bars :: d <= e.lastBarDate.value)
  }

  function Table(e: Evidence, n: nat): (t: seq<Outcome>)
    requires n <= |e.sessions|
    ensures |t| == 3 * n
  {
    if n == 0 then []
    else Table(e, n - 1) + [OutcomeAt(e, n - 1, 1), OutcomeAt(e, n - 1, 5), OutcomeAt(e, n - 1, 20)]
  }

  // --- The law of a window, on the arguments ---

  datatype Inputs = Inputs(sessions: seq<Date>, bars: seq<Bar>, splits: seq<Split>, coverages: seq<Coverage>)

  predicate BarOn(x: Inputs, b: Bar, d: Date) { b in x.bars && b.date == d }

  predicate SplitOn(x: Inputs, s: Split, d: Date) { s in x.splits && s.date == d }

  ghost predicate CoveredOn(x: Inputs, d: Date) {
    exists v :: v in x.coverages && v.provider == MASSIVE && v.from <= d <= v.through
  }

  /** The factor of date `d` is `n`: the bar's own for Tiingo; for Massive the split listed for the date, which Massive
      must have reported and may only be absent, for 1, where its reports cover the date. */
  ghost predicate HasFactor(x: Inputs, b: Bar, d: Date, n: Number) {
    match b.provider
    case TIINGO => b.splitFactor == Some(n)
    case MASSIVE =>
      CoveredOn(x, d)
      && ((exists s :: SplitOn(x, s, d) && s.provider == MASSIVE && s.factor == n)
          || (n == Finite(1.0) && forall s :: !SplitOn(x, s, d)))
  }

  /** Date `d` adds the close `c` and the factor `f` to a window of the provider. */
  ghost predicate Contributes(x: Inputs, p: Provider, d: Date, c: real, f: real) {
    c > 0.0 && f > 0.0
    && exists b :: BarOn(x, b, d) && b.provider == p && b.close == Finite(c) && HasFactor(x, b, d, Finite(f))
  }

  /** Date `d` breaks a window of the provider, for the reason `r`. */
  ghost predicate Breaks(x: Inputs, p: Provider, d: Date, r: Reason) {
    match r
    case INCOMPLETE_FORWARD_WINDOW => forall b | b in x.bars :: b.date < d
    case MISSING_FORWARD_BAR => (forall b :: !BarOn(x, b, d)) && exists b :: b in x.bars && b.date > d
    case PROVIDER_SEAM => exists b :: BarOn(x, b, d) && b.provider != p
    case MISSING_SPLIT_FACTOR => p == TIINGO && exists b :: BarOn(x, b, d) && b.provider == p && b.splitFactor.None?
    case SPLIT_COVERAGE_UNAVAILABLE => p == MASSIVE && !CoveredOn(x, d) && exists b :: BarOn(x, b, d) && b.provider == p
    case SPLIT_PROVIDER_CONFLICT =>
      p == MASSIVE && CoveredOn(x, d) && (exists b :: BarOn(x, b, d) && b.provider == p)
      && exists s :: SplitOn(x, s, d) && s.provider == TIINGO
    case INVALID_BENCHMARK_EVIDENCE =>
      exists b, n :: BarOn(x, b, d) && b.provider == p && HasFactor(x, b, d, n) && !(Positive(n) && Positive(b.close))
    case _ => false
  }

  /** The bar can be the base of a window of `h` sessions after session `i`. */
  ghost predicate IsBase(x: Inputs, i: nat, h: nat, b: Bar)
    requires i < |x.sessions|
  {
    && BarOn(x, b, x.sessions[i]) && i + h < |x.sessions| && Positive(b.close)
    && (b.provider == TIINGO ==> b.splitFactor.Some? && Positive(b.splitFactor.value))
  }

  /** The first `n` sessions after `i` contribute these closes and factors. */
  ghost predicate Legs(x: Inputs, p: Provider, i: nat, n: nat, closes: seq<real>, factors: seq<real>) {
    && i + n < |x.sessions| && |closes| == |factors| == n
    && forall k: nat | k < n :: Contributes(x, p, x.sessions[i + 1 + k], closes[k], factors[k])
  }

  function Product(factors: seq<real>): real {
    if factors == [] then 1.0 else Product(factors[..|factors| - 1]) * factors[|factors| - 1]
  }

  /** Change `k` is the one from the base close to close `k` once the splits up to it are undone. */
  ghost predicate IsChange(change: real, base: real, closes: seq<real>, factors: seq<real>, k: nat)
    requires k < |closes| == |factors|
  {
    (1.0 + change) * base == closes[k] * Product(factors[..k + 1])
  }

  ghost predicate AreChanges(changes: seq<real>, base: real, closes: seq<real>, factors: seq<real>) {
    && |changes| == |closes| == |factors|
    && forall k: nat | k < |changes| :: IsChange(changes[k], base, closes, factors, k)
  }

  /** The least of zero and the values, and the greatest. */
  ghost predicate Trough(m: real, values: seq<real>) {
    m <= 0.0 && (m == 0.0 || m in values) && forall v | v in values :: m <= v
  }

  ghost predicate Peak(m: real, values: seq<real>) {
    m >= 0.0 && (m == 0.0 || m in values) && forall v | v in values :: m >= v
  }

  /** A window with a return: its base, what its sessions contribute, and the changes they make. */
  ghost predicate ReturnLaw(x: Inputs, i: nat, h: nat, o: Outcome)
    requires i < |x.sessions| && h >= 1
  {
    exists b, closes, factors, changes :: ReturnsWith(x, i, h, o, b, closes, factors, changes)
  }

  ghost predicate ReturnsWith(x: Inputs, i: nat, h: nat, o: Outcome, b: Bar, closes: seq<real>, factors: seq<real>,
                              changes: seq<real>)
    requires i < |x.sessions| && h >= 1
  {
    && IsBase(x, i, h, b) && Legs(x, b.provider, i, h, closes, factors)
    && AreChanges(changes, b.close.v, closes, factors) && Reports(o, changes, h)
  }

  /** The last change is the return; the extremes are reported of windows longer than one session. */
  ghost predicate Reports(o: Outcome, changes: seq<real>, h: nat)
    requires h >= 1
  {
    && |changes| == h && o.unavailableReason.None? && o.forwardReturn == Some(changes[h - 1])
    && (h == 1 ==> o.forwardMaxDrawdown.None? && o.forwardMaxGain.None?)
    && (h > 1 ==> o.forwardMaxDrawdown.Some? && Trough(o.forwardMaxDrawdown.value, changes)
                  && o.forwardMaxGain.Some? && Peak(o.forwardMaxGain.value, changes))
  }

  /** The first session that contributes nothing breaks the window. */
  ghost predicate BrokenAt(x: Inputs, i: nat, h: nat, r: Reason, b: Bar, n: nat)
    requires i < |x.sessions|
  {
    && IsBase(x, i, h, b) && n < h && (exists closes, factors :: Legs(x, b.provider, i, n, closes, factors))
    && Breaks(x, b.provider, x.sessions[i + n + 1], r)
  }

  /** Why a window has no return. */
  ghost predicate ReasonLaw(x: Inputs, i: nat, h: nat, r: Reason)
    requires i < |x.sessions|
  {
    || (r == MISSING_BASE_BAR && forall b :: !BarOn(x, b, x.sessions[i]))
    || (r == INCOMPLETE_FORWARD_WINDOW && i + h >= |x.sessions| && exists b :: BarOn(x, b, x.sessions[i]))
    || (r == INVALID_BASE_CLOSE && i + h < |x.sessions| && exists b :: BarOn(x, b, x.sessions[i]) && !Positive(b.close))
    || (r == INVALID_BASE_SPLIT_FACTOR && i + h < |x.sessions|
        && exists b :: BarOn(x, b, x.sessions[i]) && Positive(b.close) && b.provider == TIINGO
                       && (b.splitFactor.None? || !Positive(b.splitFactor.value)))
    || exists b, n: nat :: BrokenAt(x, i, h, r, b, n)
  }

  /** The whole law of one outcome. */
  ghost predicate WindowLaw(x: Inputs, i: nat, h: nat, o: Outcome)
    requires i < |x.sessions| && h >= 1
  {
    && o.sessionDate == x.sessions[i] && o.horizon == h
    && (o.provider.None? ==> forall b :: !BarOn(x, b, x.sessions[i]))
    && (o.provider.Some? ==> exists b :: BarOn(x, b, x.sessions[i]) && b.provider == o.provider.value)
    && if o.forwardReturn.Some? then ReturnLaw(x, i, h, o)
       else o.forwardMaxDrawdown.None? && o.forwardMaxGain.None? && o.unavailableReason.Some?
            && ReasonLaw(x, i, h, o.unavailableReason.value)
  }

  ghost predicate Filed(e: Evidence, x: Inputs) { Indexes(e, x.sessions, x.bars, x.splits, x.coverages) }

  lemma ForwardIsLawful(e: Evidence, x: Inputs, p: Provider, j: nat)
    requires Filed(e, x) && j < |x.sessions| && x.bars != []
    ensures var forward := ForwardAt(e, p, j);
            if forward.Success? then Contributes(x, p, x.sessions[j], forward.value.0, forward.value.1)
            else Breaks(x, p, x.sessions[j], forward.error)
  {
    var d := x.sessions[j];
    assert Covered(e, d) <==> CoveredOn(x, d);
    if d !in e.bars {
      assert forall b :: !BarOn(x, b, d);
      var last := e.lastBarDate.value;
      assert BarOn(x, e.bars[last], last);
    } else if e.bars[d].provider == p {
      var b := e.bars[d];
      assert BarOn(x, b, d);
      var split := SplitAt(e, b, d);
      if d in e.splits {
        assert SplitOn(x, e.splits[d], d);
      }
      if split.Success? {
        assert HasFactor(x, b, d, split.value);
      }
    } else {
      assert BarOn(x, e.bars[d], d);
    }
  }

  function Closes(e: Evidence, p: Provider, i: nat, n: nat): (c: seq<real>)
    requires i + n < |e.sessions| && Contribute(e, p, i, n)
    ensures |c| == n
  {
    seq(n, k requires 0 <= k < n => ForwardAt(e, p, i + 1 + k).value.0)
  }

  function Factors(e: Evidence, p: Provider, i: nat, n: nat): (f: seq<real>)
    requires i + n < |e.sessions| && Contribute(e, p, i, n)
    ensures |f| == n
  {
    seq(n, k requires 0 <= k < n => ForwardAt(e, p, i + 1 + k).value.1)
  }

  lemma LegsExist(e: Evidence, x: Inputs, p: Provider, i: nat, n: nat)
    requires Filed(e, x) && x.bars != [] && i + n < |x.sessions| && Contribute(e, p, i, n)
    ensures Legs(x, p, i, n, Closes(e, p, i, n), Factors(e, p, i, n))
  {
    forall k: nat | k < n
      ensures Contributes(x, p, x.sessions[i + 1 + k], Closes(e, p, i, n)[k], Factors(e, p, i, n)[k])
    {
      ForwardIsLawful(e, x, p, i + 1 + k);
    }
  }

  lemma {:induction false} FactorIsProduct(e: Evidence, p: Provider, i: nat, n: nat, m: nat)
    requires m <= n && i + n < |e.sessions| && Contribute(e, p, i, n)
    ensures Factor(e, p, i, m) == Product(Factors(e, p, i, n)[..m])
    decreases m
  {
    if m > 0 {
      FactorIsProduct(e, p, i, n, m - 1);
      ProductOneMore(Factors(e, p, i, n), m);
      assert Factors(e, p, i, n)[m - 1] == ForwardAt(e, p, i + m).value.1;
    }
  }

  lemma ProductOneMore(factors: seq<real>, m: nat)
    requires 1 <= m <= |factors|
    ensures Product(factors[..m]) == Product(factors[..m - 1]) * factors[m - 1]
  {
    assert factors[..m][..m - 1] == factors[..m - 1];
  }

  lemma GrowthIsAdjusted(e: Evidence, i: nat, h: nat, k: nat)
    requires i < |e.sessions| && k < h && Available(e, i, h)
    ensures var b := e.bars[e.sessions[i]];
            && Available(e, i, k + 1)
            && Growth(e, i, k + 1) == Adjusted(Closes(e, b.provider, i, h)[k],
                                               Product(Factors(e, b.provider, i, h)[..k + 1]), b.close.v)
  {
    var b := e.bars[e.sessions[i]];
    FactorIsProduct(e, b.provider, i, h, k + 1);
    assert Factor(e, b.provider, i, k + 1) == Product(Factors(e, b.provider, i, h)[..k + 1]);
    assert ForwardAt(e, b.provider, i + (k + 1)).value.0 == Closes(e, b.provider, i, h)[k];
  }

  lemma AdjustedBack(change: real, base: real, closes: seq<real>, factors: seq<real>, k: nat)
    requires base > 0.0 && k < |closes| == |factors|
    requires change == Adjusted(closes[k], Product(factors[..k + 1]), base) - 1.0
    ensures IsChange(change, base, closes, factors, k)
  {
    RealFacts.Quotient(closes[k] * Product(factors[..k + 1]), base);
  }

  lemma ChangeIsChange(e: Evidence, i: nat, h: nat, k: nat)
    requires i < |e.sessions| && k < h && Available(e, i, h)
    ensures var b := e.bars[e.sessions[i]];
            IsChange(Changes(e, i, h)[k], b.close.v, Closes(e, b.provider, i, h), Factors(e, b.provider, i, h), k)
  {
    var b := e.bars[e.sessions[i]];
    ChangeAt(e, i, h, k + 1);
    GrowthIsAdjusted(e, i, h, k);
    AdjustedBack(Changes(e, i, h)[k], b.close.v, Closes(e, b.provider, i, h), Factors(e, b.provider, i, h), k);
  }

  lemma ChangesAreChanges(e: Evidence, i: nat, h: nat)
    requires i < |e.sessions| && h >= 1 && Available(e, i, h)
    ensures var b := e.bars[e.sessions[i]];
            AreChanges(Changes(e, i, h), b.close.v, Closes(e, b.provider, i, h), Factors(e, b.provider, i, h))
  {
    forall k: nat | k < h
      ensures var b := e.bars[e.sessions[i]];
              IsChange(Changes(e, i, h)[k], b.close.v, Closes(e, b.provider, i, h), Factors(e, b.provider, i, h), k)
    {
      ChangeIsChange(e, i, h, k);
    }
  }

  lemma {:induction false} FirstFailureAt(e: Evidence, p: Provider, i: nat, h: nat) returns (n: nat)
    requires i + h < |e.sessions| && FirstFailure(e, p, i, h).Some?
    ensures n < h && Contribute(e, p, i, n) && ForwardAt(e, p, i + n + 1).Failure?
    ensures FirstFailure(e, p, i, h).value == ForwardAt(e, p, i + n + 1).error
  {
    if FirstFailure(e, p, i, h - 1).Some? {
      n := FirstFailureAt(e, p, i, h - 1);
    } else {
      n := h - 1;
    }
  }

  lemma BaseIsLawful(e: Evidence, x: Inputs, i: nat, h: nat)
    requires Filed(e, x) && i < |x.sessions|
    ensures var base := BaseReason(e, i, h);
            if base.Some? then ReasonLaw(x, i, h, base.value) else IsBase(x, i, h, e.bars[x.sessions[i]])
  {
    var d := x.sessions[i];
    if d in e.bars {
      assert BarOn(x, e.bars[d], d);
    }
  }

  lemma ReasonIsLawful(e: Evidence, x: Inputs, i: nat, h: nat)
    requires Filed(e, x) && i < |x.sessions| && !Available(e, i, h)
    ensures ReasonLaw(x, i, h, ReasonAt(e, i, h).value)
  {
    BaseIsLawful(e, x, i, h);
    if BaseReason(e, i, h).None? {
      var b := e.bars[x.sessions[i]];
      var n := FirstFailureAt(e, b.provider, i, h);
      LegsExist(e, x, b.provider, i, n);
      ForwardIsLawful(e, x, b.provider, i + n + 1);
      assert BrokenAt(x, i, h, ReasonAt(e, i, h).value, b, n);
    }
  }

  lemma ReturnIsLawful(e: Evidence, x: Inputs, i: nat, h: nat)
    requires Filed(e, x) && i < |x.sessions| && h >= 1 && Available(e, i, h)
    ensures ReturnLaw(x, i, h, OutcomeAt(e, i, h))
  {
    var b, c := e.bars[x.sessions[i]], Changes(e, i, h);
    BaseIsLawful(e, x, i, h);
    LegsExist(e, x, b.provider, i, h);
    ChangesAreChanges(e, i, h);
    assert Reports(OutcomeAt(e, i, h), c, h);
    assert ReturnsWith(x, i, h, OutcomeAt(e, i, h), b, Closes(e, b.provider, i, h), Factors(e, b.provider, i, h), c);
  }

  /** Every outcome obeys the law of its window. */
  lemma OutcomeIsLawful(e: Evidence, x: Inputs, i: nat, h: nat)
    requires Filed(e, x) && i < |x.sessions| && h >= 1
    ensures WindowLaw(x, i, h, OutcomeAt(e, i, h))
  {
    var d := x.sessions[i];
    if d in e.bars {
      assert BarOn(x, e.bars[d], d);
    }
    if Available(e, i, h) {
      ReturnIsLawful(e, x, i, h);
    } else {
      ReasonIsLawful(e, x, i, h);
    }
  }

  // --- The law leaves no choice ---

  lemma OneBar(x: Inputs, a: Bar, b: Bar, d: Date)
    requires NoTwoBars(x.bars) && BarOn(x, a, d) && BarOn(x, b, d)
    ensures a == b
  {
    var i, j :| 0 <= i < |x.bars| && 0 <= j < |x.bars| && x.bars[i] == a && x.bars[j] == b;
    assert i == j || i < j || j < i;
  }

  lemma OneSplit(x: Inputs, a: Split, b: Split, d: Date)
    requires NoTwoSplits(x.splits) && SplitOn(x, a, d) && SplitOn(x, b, d)
    ensures a == b
  {
    var i, j :| 0 <= i < |x.splits| && 0 <= j < |x.splits| && x.splits[i] == a && x.splits[j] == b;
    assert i == j || i < j || j < i;
  }

  lemma OneFactor(x: Inputs, b: Bar, d: Date, n: Number, m: Number)
    requires NoTwoSplits(x.splits) && HasFactor(x, b, d, n) && HasFactor(x, b, d, m)
    ensures n == m
  {
    if s, t :| SplitOn(x, s, d) && SplitOn(x, t, d) && s != t {
      OneSplit(x, s, t, d);
    }
  }

  lemma OneContribution(x: Inputs, p: Provider, d: Date, c: real, f: real, c': real, f': real)
    requires NoTwoBars(x.bars) && NoTwoSplits(x.splits) && Contributes(x, p, d, c, f) && Contributes(x, p, d, c', f')
    ensures c == c' && f == f'
  {
    var b :| BarOn(x, b, d) && b.provider == p && b.close == Finite(c) && HasFactor(x, b, d, Finite(f));
    var b' :| BarOn(x, b', d) && b'.provider == p && b'.close == Finite(c') && HasFactor(x, b', d, Finite(f'));
    OneBar(x, b, b', d);
    OneFactor(x, b, d, Finite(f), Finite(f'));
  }

  lemma BrokenContributesNothing(x: Inputs, p: Provider, d: Date, r: Reason, c: real, f: real)
    requires NoTwoBars(x.bars) && NoTwoSplits(x.splits) && Breaks(x, p, d, r)
    ensures !Contributes(x, p, d, c, f)
  {
    if Contributes(x, p, d, c, f) {
      var b :| BarOn(x, b, d) && b.provider == p && b.close == Finite(c) && HasFactor(x, b, d, Finite(f));
      TheBar(x, b, d);
      if r == SPLIT_PROVIDER_CONFLICT {
        var s :| SplitOn(x, s, d) && s.provider == TIINGO;
        TheSplit(x, s, d);
      } else if r == INVALID_BENCHMARK_EVIDENCE {
        var n :| HasFactor(x, b, d, n) && !(Positive(n) && Positive(b.close));
        OneFactor(x, b, d, n, Finite(f));
      }
    }
  }

  lemma TheBar(x: Inputs, b: Bar, d: Date)
    requires NoTwoBars(x.bars) && BarOn(x, b, d)
    ensures forall a :: BarOn(x, a, d) <==> a == b
  {
    forall a | BarOn(x, a, d) ensures a == b {
      OneBar(x, a, b, d);
    }
  }

  lemma TheSplit(x: Inputs, s: Split, d: Date)
    requires NoTwoSplits(x.splits) && SplitOn(x, s, d)
    ensures forall t :: SplitOn(x, t, d) <==> t == s
  {
    forall t | SplitOn(x, t, d) ensures t == s {
      OneSplit(x, t, s, d);
    }
  }

  lemma OneBreak(x: Inputs, p: Provider, d: Date, r: Reason, r': Reason)
    requires NoTwoBars(x.bars) && NoTwoSplits(x.splits) && Breaks(x, p, d, r) && Breaks(x, p, d, r')
    ensures r == r'
  {
    if b :| BarOn(x, b, d) {
      TheBar(x, b, d);
      if s :| SplitOn(x, s, d) {
        TheSplit(x, s, d);
      }
    }
  }

  lemma LegsOnce(x: Inputs, p: Provider, i: nat, n: nat, c: seq<real>, f: seq<real>, c': seq<real>, f': seq<real>)
    requires NoTwoBars(x.bars) && NoTwoSplits(x.splits)
    requires Legs(x, p, i, n, c, f) && Legs(x, p, i, n, c', f')
    ensures c == c' && f == f'
  {
    forall k: nat | k < n ensures c[k] == c'[k] && f[k] == f'[k] {
      OneContribution(x, p, x.sessions[i + 1 + k], c[k], f[k], c'[k], f'[k]);
    }
  }

  lemma ChangesOnce(changes: seq<real>, changes': seq<real>, base: real, closes: seq<real>, factors: seq<real>)
    requires base > 0.0 && AreChanges(changes, base, closes, factors) && AreChanges(changes', base, closes, factors)
    ensures changes == changes'
  {
    forall k: nat | k < |changes| ensures changes[k] == changes'[k] {
      assert IsChange(changes[k], base, closes, factors, k) && IsChange(changes'[k], base, closes, factors, k);
      RealFacts.CancelFactor(1.0 + changes[k], 1.0 + changes'[k], base);
    }
  }

  ghost predicate SameFigures(o: Outcome, o': Outcome) {
    && o.forwardReturn == o'.forwardReturn && o.unavailableReason == o'.unavailableReason
    && o.forwardMaxDrawdown == o'.forwardMaxDrawdown && o.forwardMaxGain == o'.forwardMaxGain
  }

  lemma ReportsOnce(o: Outcome, o': Outcome, changes: seq<real>, h: nat)
    requires h >= 1 && Reports(o, changes, h) && Reports(o', changes, h)
    ensures SameFigures(o, o')
  {
  }

  lemma ReturnOnce(x: Inputs, i: nat, h: nat, o: Outcome, o': Outcome)
    requires NoTwoBars(x.bars) && NoTwoSplits(x.splits) && i < |x.sessions| && h >= 1
    requires ReturnLaw(x, i, h, o) && ReturnLaw(x, i, h, o')
    ensures SameFigures(o, o')
  {
    var b, c, f, z :| ReturnsWith(x, i, h, o, b, c, f, z);
    var b', c', f', z' :| ReturnsWith(x, i, h, o', b', c', f', z');
    assert b == b' by {
      OneBar(x, b, b', x.sessions[i]);
    }
    assert c == c' && f == f' by {
      LegsOnce(x, b.provider, i, h, c, f, c', f');
    }
    assert z == z' by {
      ChangesOnce(z, z', b.close.v, c, f);
    }
    ReportsOnce(o, o', z, h);
  }

  lemma NoBrokenReturn(x: Inputs, i: nat, h: nat, o: Outcome, r: Reason)
    requires NoTwoBars(x.bars) && NoTwoSplits(x.splits) && i < |x.sessions| && h >= 1 && ReturnLaw(x, i, h, o)
    ensures !ReasonLaw(x, i, h, r)
  {
    var b, c, f, z :| ReturnsWith(x, i, h, o, b, c, f, z);
    TheBar(x, b, x.sessions[i]);
    if b', n: nat :| BrokenAt(x, i, h, r, b', n) {
      BrokenContributesNothing(x, b.provider, x.sessions[i + 1 + n], r, c[n], f[n]);
    }
  }

  lemma BrokenOnce(x: Inputs, i: nat, h: nat, r: Reason, b: Bar, n: nat, r': Reason, b': Bar, n': nat)
    requires NoTwoBars(x.bars) && NoTwoSplits(x.splits) && i < |x.sessions| && n <= n'
    requires BrokenAt(x, i, h, r, b, n) && BrokenAt(x, i, h, r', b', n')
    ensures r == r'
  {
    OneBar(x, b, b', x.sessions[i]);
    var c, f :| Legs(x, b'.provider, i, n', c, f);
    if n < n' {
      BrokenContributesNothing(x, b.provider, x.sessions[i + 1 + n], r, c[n], f[n]);
    } else {
      OneBreak(x, b.provider, x.sessions[i + n + 1], r, r');
    }
  }

  lemma ReasonOnce(x: Inputs, i: nat, h: nat, r: Reason, r': Reason)
    requires NoTwoBars(x.bars) && NoTwoSplits(x.splits) && i < |x.sessions|
    requires ReasonLaw(x, i, h, r) && ReasonLaw(x, i, h, r')
    ensures r == r'
  {
    if b :| BarOn(x, b, x.sessions[i]) {
      TheBar(x, b, x.sessions[i]);
      if b1, n: nat, b2, n': nat :| BrokenAt(x, i, h, r, b1, n) && BrokenAt(x, i, h, r', b2, n') {
        if n <= n' {
          BrokenOnce(x, i, h, r, b1, n, r', b2, n');
        } else {
          BrokenOnce(x, i, h, r', b2, n', r, b1, n);
        }
      }
    }
  }

  /** The law leaves one outcome: a return exactly in its circumstances, and each reason exactly in its own. */
  lemma WindowLawOnce(x: Inputs, i: nat, h: nat, o: Outcome, o': Outcome)
    requires NoTwoBars(x.bars) && NoTwoSplits(x.splits) && i < |x.sessions| && h >= 1
    requires WindowLaw(x, i, h, o) && WindowLaw(x, i, h, o')
    ensures o == o'
  {
    if b, b' :| BarOn(x, b, x.sessions[i]) && BarOn(x, b', x.sessions[i]) && b != b' {
      OneBar(x, b, b', x.sessions[i]);
    }
    if o.forwardReturn.Some? && o'.forwardReturn.Some? {
      ReturnOnce(x, i, h, o, o');
    } else if o.forwardReturn.Some? {
      NoBrokenReturn(x, i, h, o, o'.unavailableReason.value);
    } else if o'.forwardReturn.Some? {
      NoBrokenReturn(x, i, h, o', o.unavailableReason.value);
    } else {
      ReasonOnce(x, i, h, o.unavailableReason.value, o'.unavailableReason.value);
    }
  }

  /** Every session has its windows of 1, 5 and 20 sessions in the table. */
  ghost predicate RowsAreLawful(x: Inputs, i: nat, t: seq<Outcome>)
    requires i < |x.sessions| && |t| == 3 * |x.sessions|
  {
    WindowLaw(x, i, 1, t[3 * i]) && WindowLaw(x, i, 5, t[3 * i + 1]) && WindowLaw(x, i, 20, t[3 * i + 2])
  }

  ghost predicate TableIsLawful(x: Inputs, t: seq<Outcome>) {
    |t| == 3 * |x.sessions| && forall i: nat | i < |x.sessions| :: RowsAreLawful(x, i, t)
  }

  lemma {:induction false} TableAt(e: Evidence, n: nat, i: nat)
    requires i < n <= |e.sessions|
    ensures var t := Table(e, n);
            t[3 * i] == OutcomeAt(e, i, 1) && t[3 * i + 1] == OutcomeAt(e, i, 5) && t[3 * i + 2] == OutcomeAt(e, i, 20)
    decreases n
  {
    if i < n - 1 {
      TableAt(e, n - 1, i);
    }
  }

  lemma WholeTableIsLawful(e: Evidence, x: Inputs)
    requires Filed(e, x)
    ensures TableIsLawful(x, Table(e, |x.sessions|))
  {
    forall i: nat | i < |x.sessions| ensures RowsAreLawful(x, i, Table(e, |x.sessions|)) {
      TableAt(e, |x.sessions|, i);
      OutcomeIsLawful(e, x, i, 1);
      OutcomeIsLawful(e, x, i, 5);
      OutcomeIsLawful(e, x, i, 20);
    }
  }

  method IndexBars(bars: seq<Bar>) returns (ok: bool, byDate: map<Date, Bar>, last: Option<Date>)
    ensures ok <==> NoTwoBars(bars)
    ensures ok ==> (forall b | b in bars :: b.date in byDate && byDate[b.date] == b)
                   && (forall d | d in byDate :: byDate[d] in bars && byDate[d].date == d)
                   && (last.None? <==> bars == [])
                   && (last.Some? ==> last.value in byDate && forall d | d in byDate :: d <= last.value)
  {
    byDate, last := map[], None;
    for k := 0 to |bars|
      invariant NoTwoBars(bars[..k])
      invariant forall b | b in bars[..k] :: b.date in byDate && byDate[b.date] == b
      invariant forall d | d in byDate :: byDate[d] in bars[..k] && byDate[d].date == d
      invariant last.None? <==> k == 0
      invariant last.Some? ==> last.value in byDate && forall d | d in byDate :: d <= last.value
    {
      var b := bars[k];
      assert bars[..k + 1] == bars[..k] + [b];
      if b.date in byDate {
        var j :| 0 <= j < k && bars[..k][j] == byDate[b.date];
        assert bars[j].date == bars[k].date;
        return false, byDate, last;
      }
      byDate := byDate[b.date := b];
      last := if last.None? || b.date > last.value then Some(b.date) else last;
    }
    assert bars[..|bars|] == bars;
    ok := true;
  }

  method IndexSplits(splits: seq<Split>) returns (ok: bool, byDate: map<Date, Split>)
    ensures ok <==> NoTwoSplits(splits)
    ensures ok ==> (forall s | s in splits :: s.date in byDate && byDate[s.date] == s)
                   && (forall d | d in byDate :: byDate[d] in splits && byDate[d].date == d)
  {
    byDate := map[];
    for k := 0 to |splits|
      invariant NoTwoSplits(splits[..k])
      invariant forall s | s in splits[..k] :: s.date in byDate && byDate[s.date] == s
      invariant forall d | d in byDate :: byDate[d] in splits[..k] && byDate[d].date == d
    {
      var s := splits[k];
      assert splits[..k + 1] == splits[..k] + [s];
      if s.date in byDate {
        var j :| 0 <= j < k && splits[..k][j] == byDate[s.date];
        assert splits[j].date == splits[k].date;
        return false, byDate;
      }
      byDate := byDate[s.date := s];
    }
    assert splits[..|splits|] == splits;
    ok := true;
  }

  method BenchmarkOutcomes(sessions: seq<Date>, bars: seq<Bar>, splits: seq<Split>, coverages: seq<Coverage>)
    returns (r: Result<seq<Outcome>, InputError>, ghost e: Evidence)
    ensures !NoTwoBars(bars) ==> r == Failure(DuplicateBar)
    ensures NoTwoBars(bars) && !NoTwoSplits(splits) ==> r == Failure(DuplicateSplit)
    ensures NoTwoBars(bars) && NoTwoSplits(splits) ==>
              Indexes(e, sessions, bars, splits, coverages) && r == Success(Table(e, |sessions|))
    ensures NoTwoBars(bars) && NoTwoSplits(splits) ==>
              r.Success? && TableIsLawful(Inputs(sessions, bars, splits, coverages), r.value)
  {
    e := Evidence(sessions, map[], map[], coverages, None);
    var ok, byDate, last := IndexBars(bars);
    if !ok {
      return Failure(DuplicateBar), e;
    }
    var splitsByDate;
    ok, splitsByDate := IndexSplits(splits);
    if !ok {
      return Failure(DuplicateSplit), e;
    }
    var evidence := Evidence(sessions, byDate, splitsByDate, coverages, last);
    e := evidence;
    var output: seq<Outcome> := [];
    for i := 0 to |sessions|
      invariant output == Table(evidence, i)
    {
      var before := output;
      for k := 0 to |HORIZONS|
        invariant output == before + [OutcomeAt(evidence, i, 1), OutcomeAt(evidence, i, 5),
                                      OutcomeAt(evidence, i, 20)][..k]
      {
        var o := WindowOutcome(evidence, i, HORIZONS[k]);
        output := output + [o];
      }
    }
    WholeTableIsLawful(evidence, Inputs(sessions, bars, splits, coverages));
    r := Success(output);
  }
}
