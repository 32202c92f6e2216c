/** Severity rules of src/dev/intraday-stress-calculation.ts: 0 NORMAL, 1 ELEVATED, 2 HIGH, 3 SEVERE. */
module StressSeverity {
  import opened Wrappers
  import opened StressCalculation
  import RealFacts

  datatype Collapse = Collapse(ratio: real, floor: real, emergency: real)
  datatype Bounds = Bounds(elevated: real, high: real)
  datatype Candidate = Candidate(name: string, shock: Bounds, rolling: Bounds, drawdown: Bounds,
                                 acute: Collapse, session: Collapse)
  type Severity = Option<int>

  predicate Collapses(ratio: Option<real>, absolute: Option<real>, rule: Collapse) {
    && ratio.Some? && absolute.Some?
    && ((ratio.value >= rule.ratio && absolute.value >= rule.floor) || absolute.value >= rule.emergency)
  }

  function Ladder(v: Option<real>, bounds: Bounds): int {
    if v.None? then 0
    else (if v.value >= bounds.elevated then 1 else 0) + (if v.value >= bounds.high then 1 else 0)
  }

  function MaxInt(a: int, b: int): int { if a >= b then a else b }

  function ClassifyWithAcute(t: Target, c: Candidate, acuteRatio: Option<real>, acutePct: Option<real>): Severity {
    if t.status != VALID then None
    else if Collapses(acuteRatio, acutePct, c.acute)
            || Collapses(t.sessionDrawdownAtrRatio, t.sessionDrawdownPct, c.session) then Some(3)
    else Some(MaxInt(MaxInt(Ladder(t.shockAtrRatio, c.shock), Ladder(t.realizedMovement60AtrRatio, c.rolling)),
                     Ladder(t.sessionDrawdownAtrRatio, c.drawdown)))
  }

  function Classify(t: Target, c: Candidate): Severity {
    ClassifyWithAcute(t, c, t.downsideExcursionAtrRatio, t.downsideExcursionPct)
  }

  predicate Positive(x: Option<real>) { x.Some? && x.value > 0.0 }

  function AcuteCloseDownsidePct(t: Target): Option<real> {
    if Positive(t.referencePrice) && Positive(t.currentClose)
    then Some(Max(0.0, t.referencePrice.value - t.currentClose.value) / t.referencePrice.value) else None
  }

  function AcuteCloseDownsideAtrRatio(t: Target): Option<real> {
    var pct := AcuteCloseDownsidePct(t);
    if pct.Some? && Positive(t.priorAtr14Pct) then Some(pct.value / t.priorAtr14Pct.value) else None
  }

  predicate Safeguard(t: Target) {
    || (AcuteCloseDownsidePct(t).Some? && AcuteCloseDownsidePct(t).value >= 0.01)
    || (t.sessionDrawdownPct.Some? && t.sessionDrawdownPct.value >= 0.025)
  }

  function ClassifyCurrentCollapse(t: Target, b: Candidate, absoluteHigh: bool): Severity {
    var pct, ratio := AcuteCloseDownsidePct(t), AcuteCloseDownsideAtrRatio(t);
    if pct.None? || ratio.None? then None
    else
      var state := ClassifyWithAcute(t, b, ratio, pct);
      if state.None? then None
      else Some(MaxInt(state.value, if absoluteHigh && Safeguard(t) then 2 else 0))
  }

  function Pair(a: Severity, b: Severity): Severity {
    if a.None? || b.None? then None else Some(MaxInt(a.value, b.value))
  }

  // --- The severity ladder, read from the outside ---

  predicate Reaches(v: Option<real>, bound: real) { v.Some? && v.value >= bound }

  /** Some channel reaches both of its bounds, or at least one of them. */
  ghost predicate ReachesBoth(v: Option<real>, b: Bounds) { Reaches(v, b.elevated) && Reaches(v, b.high) }

  ghost predicate ReachesOne(v: Option<real>, b: Bounds) { Reaches(v, b.elevated) || Reaches(v, b.high) }

  /** SEVERE is exactly a collapse; HIGH and ELEVATED are exactly a channel at both, or at one, of its bounds, or a
      collapse; where the elevated bound is not above the high one that is the high bound, or the elevated one. */
  lemma SeverityLevels(t: Target, c: Candidate, ratio: Option<real>, pct: Option<real>)
    ensures ClassifyWithAcute(t, c, ratio, pct).Some? <==> t.status == VALID
    ensures var s := ClassifyWithAcute(t, c, ratio, pct);
            var collapse := Collapses(ratio, pct, c.acute)
                            || Collapses(t.sessionDrawdownAtrRatio, t.sessionDrawdownPct, c.session);
            s.Some? ==>
              && 0 <= s.value <= 3
              && (s.value == 3 <==> collapse)
              && (s.value >= 2 <==> (collapse || ReachesBoth(t.shockAtrRatio, c.shock)
                  || ReachesBoth(t.realizedMovement60AtrRatio, c.rolling)
                  || ReachesBoth(t.sessionDrawdownAtrRatio, c.drawdown)))
              && (s.value >= 1 <==> (collapse || ReachesOne(t.shockAtrRatio, c.shock)
                  || ReachesOne(t.realizedMovement60AtrRatio, c.rolling)
                  || ReachesOne(t.sessionDrawdownAtrRatio, c.drawdown)))
    ensures forall v: Option<real>, b: Bounds | b.elevated <= b.high ::
              (ReachesBoth(v, b) <==> Reaches(v, b.high)) && (ReachesOne(v, b) <==> Reaches(v, b.elevated))
  {
  }

  // --- Closing evidence against intrabar evidence ---

  /** What measurement guarantees about the evidence of a target, whatever the bars were. */
  ghost predicate EvidenceConsistent(t: Target) {
    t.status == VALID ==>
      && Positive(t.referencePrice) && Positive(t.currentClose) && Positive(t.priorAtr14Pct)
      && t.downsideExcursionPct.Some? && t.downsideExcursionAtrRatio.Some?
      && AcuteCloseDownsidePct(t).value <= t.downsideExcursionPct.value
      && AcuteCloseDownsideAtrRatio(t).value <= t.downsideExcursionAtrRatio.value
  }

  /** A bar closes no lower than its low, so closing downside never exceeds the intrabar excursion. */
  lemma MeasuredEvidence(symbol: Symbol, date: Date, openAt: int, aligned: seq<Option<Bar>>,
                         prior: Option<real>, root: real -> real, i: nat)
    requires i < |aligned| && AllValid(aligned)
    ensures EvidenceConsistent(TargetAt(symbol, date, openAt, aligned, prior, root, i))
  {
    var t := TargetAt(symbol, date, openAt, aligned, prior, root, i);
    if t.status == VALID {
      StatusMeaning(symbol, date, openAt, aligned, prior, root, i);
      assert aligned[i].Some? && (i > 0 ==> aligned[i - 1].Some?);
      var bar, reference := aligned[i].value, t.referencePrice.value;
      RealFacts.DivisionMonotone(Max(0.0, reference - bar.close), Max(0.0, reference - bar.low), reference);
      RealFacts.DivisionMonotone(AcuteCloseDownsidePct(t).value, t.downsideExcursionPct.value, prior.value);
    }
  }

  ghost predicate AtMost(a: Severity, b: Severity) {
    (a.None? <==> b.None?) && (a.Some? ==> a.value <= b.value)
  }

  /** Judging the acute collapse by the close keeps availability and never raises a severity. */
  lemma CloseNeverRaises(t: Target, c: Candidate)
    requires EvidenceConsistent(t)
    ensures AtMost(ClassifyCurrentCollapse(t, c, false), Classify(t, c))
    ensures ClassifyCurrentCollapse(t, c, false) == Some(3) ==> Classify(t, c) == Some(3)
  {
  }

  /** The safeguard keeps availability, never lowers a severity, and neither makes nor unmakes a SEVERE. */
  lemma SafeguardNeverLowers(t: Target, c: Candidate)
    ensures AtMost(ClassifyCurrentCollapse(t, c, false), ClassifyCurrentCollapse(t, c, true))
    ensures ClassifyCurrentCollapse(t, c, false) == Some(3) <==> ClassifyCurrentCollapse(t, c, true) == Some(3)
  {
  }

  /** `r` is the worse of the two, available when both are. */
  predicate WorseOf(r: Severity, a: Severity, b: Severity) {
    && (r.Some? <==> a.Some? && b.Some?)
    && (r.Some? ==> r.value >= a.value && r.value >= b.value && (r.value == a.value || r.value == b.value))
  }

  lemma PairIsWorse(a: Severity, b: Severity)
    ensures WorseOf(Pair(a, b), a, b)
  {
  }

  /** What the closing evidence is: the fraction by which the close is below the reference price, if it is, and that
      fraction in units of the prior ATR. */
  lemma ClosingEvidence(t: Target)
    ensures var pct, ratio := AcuteCloseDownsidePct(t), AcuteCloseDownsideAtrRatio(t);
            && (pct.Some? <==> t.referencePrice.Some? && t.referencePrice.value > 0.0
                               && t.currentClose.Some? && t.currentClose.value > 0.0)
            && (ratio.Some? <==> pct.Some? && t.priorAtr14Pct.Some? && t.priorAtr14Pct.value > 0.0)
            && (pct.Some? ==>
                  if t.currentClose.value >= t.referencePrice.value then pct.value == 0.0
                  else pct.value > 0.0
                       && t.referencePrice.value * pct.value == t.referencePrice.value - t.currentClose.value)
            && (ratio.Some? ==> ratio.value * t.priorAtr14Pct.value == pct.value)
  {
    if AcuteCloseDownsidePct(t).Some? {
      var reference, close := t.referencePrice.value, t.currentClose.value;
      var gap := Max(0.0, reference - close);
      RealFacts.Quotient(gap, reference);
      if gap > 0.0 {
        RealFacts.PositiveQuotient(gap, reference);
      }
      if AcuteCloseDownsideAtrRatio(t).Some? {
        RealFacts.Quotient(AcuteCloseDownsidePct(t).value, t.priorAtr14Pct.value);
      }
    }
  }

  /** The current-close state: the ladder over the closing evidence, raised to HIGH by the absolute safeguard. */
  lemma CurrentCollapseMeaning(t: Target, c: Candidate, absoluteHigh: bool)
    ensures var pct, ratio := AcuteCloseDownsidePct(t), AcuteCloseDownsideAtrRatio(t);
            var s, base := ClassifyCurrentCollapse(t, c, absoluteHigh), ClassifyWithAcute(t, c, ratio, pct);
            && (s.Some? <==> t.status == VALID && ratio.Some?)
            && (s.Some? ==>
                  && s.value >= base.value
                  && (s.value > base.value ==> s.value == 2)
                  && (s.value >= 2 <==> (base.value >= 2
                        || (absoluteHigh && (pct.value >= 0.01
                              || (t.sessionDrawdownPct.Some? && t.sessionDrawdownPct.value >= 0.025))))))
  {
  }

  lemma SeverityRange(t: Target, c: Candidate, absoluteHigh: bool)
    ensures Classify(t, c).Some? ==> 0 <= Classify(t, c).value <= 3
    ensures var s := ClassifyCurrentCollapse(t, c, absoluteHigh); s.Some? ==> 0 <= s.value <= 3
  {
  }
}
