/** From the bars of a study to its comparison: src/dev/intraday-stress-data.ts feeding
    src/dev/intraday-stress-clarification.ts and src/dev/intraday-stress-analysis.ts. */
module StressStudy {
  import opened Wrappers
  import opened StressCalculation
  import opened StressSeverity
  import opened StressClarification

  /** One symbol's session as it enters the study. */
  datatype SessionInput = SessionInput(symbol: Symbol, date: Date, bars: seq<Bar>, prior: Option<real>,
                                       session: Session)

  function TargetsOf(s: SessionInput, root: real -> real): (r: seq<Target>)
    ensures |r| == SlotCount(s.session)
  {
    SessionTargets(s.symbol, s.date, s.bars, s.prior, s.session, root)
  }

  function StudyTargets(inputs: seq<SessionInput>, root: real -> real): seq<Target> {
    if inputs == [] then []
    else StudyTargets(inputs[..|inputs| - 1], root) + TargetsOf(inputs[|inputs| - 1], root)
  }

  lemma {:induction false} StudyIsMeasured(inputs: seq<SessionInput>, root: real -> real)
    ensures AllMeasured(StudyTargets(inputs, root))
  {
    if inputs != [] {
      StudyIsMeasured(inputs[..|inputs| - 1], root);
      var s := inputs[|inputs| - 1];
      var aligned := Aligned(s.bars, s.session);
      forall i: nat | i < |aligned|
        ensures EvidenceConsistent(TargetAt(s.symbol, s.date, s.session.openAt, aligned, s.prior, root, i)) {
        MeasuredEvidence(s.symbol, s.date, s.session.openAt, aligned, s.prior, root, i);
      }
    }
  }

  // --- When a study can be compared, told from its sessions ---

  /** The session has compared targets: all but its last slot, on one of the two instruments. */
  predicate Contributes(s: SessionInput) { (s.symbol == SPY || s.symbol == RSP) && SlotCount(s.session) >= 2 }

  predicate Clash(a: SessionInput, b: SessionInput) {
    Contributes(a) && Contributes(b) && a.symbol == b.symbol && a.date == b.date
  }

  /** The same session of the other instrument. */
  predicate Counterparts(a: SessionInput, b: SessionInput) {
    && Contributes(a) && Contributes(b) && a.symbol != b.symbol && a.date == b.date
    && a.session.openAt == b.session.openAt && SlotCount(a.session) == SlotCount(b.session)
  }

  ghost predicate HasClash(inputs: seq<SessionInput>) {
    exists i, j :: 0 <= i < j < |inputs| && Clash(inputs[i], inputs[j])
  }

  ghost predicate HasCounterpart(inputs: seq<SessionInput>, s: SessionInput) {
    exists u :: u in inputs && Counterparts(s, u)
  }

  /** Each session of each instrument once, and both instruments over the same sessions. */
  ghost predicate Comparable(inputs: seq<SessionInput>) {
    !HasClash(inputs) && forall s | s in inputs && Contributes(s) :: HasCounterpart(inputs, s)
  }

  /** What identifies the target of slot `i`. */
  ghost predicate IsSlot(t: Target, s: SessionInput, i: nat) {
    && t.symbol == s.symbol && t.date == s.date && t.index == i + 1
    && t.targetAt == s.session.openAt + (i + 1) * INTERVAL && (t.closing <==> i == SlotCount(s.session) - 1)
  }

  lemma SlotTarget(s: SessionInput, root: real -> real, i: nat)
    requires i < SlotCount(s.session)
    ensures IsSlot(TargetsOf(s, root)[i], s, i)
    ensures Relevant(TargetsOf(s, root)[i]) <==> Contributes(s) && i + 1 < SlotCount(s.session)
  {
  }

  lemma {:induction false} TargetHasInput(inputs: seq<SessionInput>, root: real -> real, t: Target)
    returns (s: SessionInput, i: nat)
    requires t in StudyTargets(inputs, root)
    ensures s in inputs && i < SlotCount(s.session) && t == TargetsOf(s, root)[i]
  {
    var init, last := inputs[..|inputs| - 1], inputs[|inputs| - 1];
    if t in StudyTargets(init, root) {
      s, i := TargetHasInput(init, root, t);
    } else {
      s := last;
      i :| 0 <= i < SlotCount(s.session) && TargetsOf(s, root)[i] == t;
    }
  }

  lemma {:induction false} InputHasTarget(inputs: seq<SessionInput>, root: real -> real, s: SessionInput, i: nat)
    requires s in inputs && i < SlotCount(s.session)
    ensures TargetsOf(s, root)[i] in StudyTargets(inputs, root)
  {
    var init, last := inputs[..|inputs| - 1], inputs[|inputs| - 1];
    if s != last {
      InputHasTarget(init, root, s, i);
    }
  }

  ghost predicate TwinsBetween(a: seq<Target>, b: seq<Target>) {
    exists x, y :: x in a && y in b && Twins(x, y)
  }

  ghost predicate ClashesWith(inputs: seq<SessionInput>, last: SessionInput) {
    exists s :: s in inputs && Clash(s, last)
  }

  lemma {:induction false} DuplicateOfConcat(a: seq<Target>, b: seq<Target>)
    ensures HasDuplicate(a + b) <==> HasDuplicate(a) || HasDuplicate(b) || TwinsBetween(a, b)
  {
    if b == [] {
      assert a + b == a;
    } else {
      var init, t := b[..|b| - 1], b[|b| - 1];
      DuplicateOfConcat(a, init);
      DuplicateAtEnd(a + init, t);
      DuplicateAtEnd(init, t);
      assert a + b == (a + init) + [t] && b == init + [t];
    }
  }

  lemma SessionHasNoTwins(s: SessionInput, root: real -> real)
    ensures !HasDuplicate(TargetsOf(s, root))
  {
    var ts := TargetsOf(s, root);
    forall i: nat, j: nat | i < j < |ts| ensures !Twins(ts[i], ts[j]) {
      SlotTarget(s, root, i);
      SlotTarget(s, root, j);
    }
  }

  lemma TwinsAcross(init: seq<SessionInput>, last: SessionInput, root: real -> real)
    ensures TwinsBetween(StudyTargets(init, root), TargetsOf(last, root)) <==> ClashesWith(init, last)
  {
    if x, y :| x in StudyTargets(init, root) && y in TargetsOf(last, root) && Twins(x, y) {
      var s, i := TargetHasInput(init, root, x);
      var j: nat :| j < SlotCount(last.session) && TargetsOf(last, root)[j] == y;
      SlotTarget(s, root, i);
      SlotTarget(last, root, j);
      assert Clash(s, last);
    }
    if s :| s in init && Clash(s, last) {
      InputHasTarget(init, root, s, 0);
      SlotTarget(s, root, 0);
      SlotTarget(last, root, 0);
      assert TargetsOf(last, root)[0] in TargetsOf(last, root);
      assert Twins(TargetsOf(s, root)[0], TargetsOf(last, root)[0]);
    }
  }

  lemma ClashAtEnd(init: seq<SessionInput>, last: SessionInput)
    ensures HasClash(init + [last]) <==> HasClash(init) || ClashesWith(init, last)
  {
    var more := init + [last];
    assert forall i | 0 <= i < |init| :: more[i] == init[i];
    if HasClash(init) {
      var i, j :| 0 <= i < j < |init| && Clash(init[i], init[j]);
      assert Clash(more[i], more[j]);
    }
    if s :| s in init && Clash(s, last) {
      var i :| 0 <= i < |init| && init[i] == s;
      assert Clash(more[i], more[|init|]);
    }
    if HasClash(more) {
      var i, j :| 0 <= i < j < |more| && Clash(more[i], more[j]);
      assert j < |init| ==> Clash(init[i], init[j]);
      assert j == |init| ==> init[i] in init && Clash(init[i], last);
    }
  }

  /** Targets are duplicated exactly when a session of an instrument enters twice. */
  lemma {:induction false} DuplicatesAreClashes(inputs: seq<SessionInput>, root: real -> real)
    ensures HasDuplicate(StudyTargets(inputs, root)) <==> HasClash(inputs)
  {
    if inputs != [] {
      var init, last := inputs[..|inputs| - 1], inputs[|inputs| - 1];
      DuplicatesAreClashes(init, root);
      DuplicateOfConcat(StudyTargets(init, root), TargetsOf(last, root));
      SessionHasNoTwins(last, root);
      TwinsAcross(init, last, root);
      ClashAtEnd(init, last);
      assert inputs == init + [last];
    }
  }

  lemma StudyHasNoGap(inputs: seq<SessionInput>, root: real -> real)
    ensures NoGap(StudyTargets(inputs, root))
  {
    var targets := StudyTargets(inputs, root);
    forall t | t in targets && Relevant(t) && t.index != 1 ensures HasPredecessor(targets, t) {
      var s, i := TargetHasInput(inputs, root, t);
      SlotTarget(s, root, i);
      SlotTarget(s, root, i - 1);
      InputHasTarget(inputs, root, s, i - 1);
      assert Relevant(TargetsOf(s, root)[i - 1]);
    }
  }

  lemma SlotsPair(inputs: seq<SessionInput>, root: real -> real, s: SessionInput, u: SessionInput, i: nat)
    requires s in inputs && u in inputs && Counterparts(s, u) && i + 1 < SlotCount(s.session)
    ensures HasPartner(StudyTargets(inputs, root), TargetsOf(s, root)[i])
  {
    var targets, t, w := StudyTargets(inputs, root), TargetsOf(s, root)[i], TargetsOf(u, root)[i];
    InputHasTarget(inputs, root, s, i);
    InputHasTarget(inputs, root, u, i);
    SlotTarget(s, root, i);
    SlotTarget(u, root, i);
    assert Paired(targets, t, w) || Paired(targets, w, t);
  }

  lemma CounterpartsPair(inputs: seq<SessionInput>, root: real -> real)
    requires forall s | s in inputs && Contributes(s) :: HasCounterpart(inputs, s)
    ensures AllPaired(StudyTargets(inputs, root))
  {
    var targets := StudyTargets(inputs, root);
    forall t | t in targets && Relevant(t) ensures HasPartner(targets, t) {
      var s, i := TargetHasInput(inputs, root, t);
      SlotTarget(s, root, i);
      assert HasCounterpart(inputs, s);
      var u :| u in inputs && Counterparts(s, u);
      SlotsPair(inputs, root, s, u, i);
    }
  }

  /** The session that the partner of slot `i` belongs to. */
  lemma PartnerSession(inputs: seq<SessionInput>, root: real -> real, s: SessionInput, i: nat) returns (u: SessionInput)
    requires AllPaired(StudyTargets(inputs, root)) && s in inputs && Contributes(s) && i + 1 < SlotCount(s.session)
    ensures u in inputs && Contributes(u) && u.symbol != s.symbol && u.date == s.date
    ensures u.session.openAt == s.session.openAt && i + 1 < SlotCount(u.session)
  {
    var targets, t := StudyTargets(inputs, root), TargetsOf(s, root)[i];
    InputHasTarget(inputs, root, s, i);
    SlotTarget(s, root, i);
    assert HasPartner(targets, t);
    var w :| Paired(targets, t, w) || Paired(targets, w, t);
    var j;
    u, j := TargetHasInput(inputs, root, w);
    SlotTarget(u, root, j);
    assert j == i;
  }

  lemma SameSession(inputs: seq<SessionInput>, a: SessionInput, b: SessionInput)
    requires !HasClash(inputs) && a in inputs && b in inputs && Clash(a, b)
    ensures a == b
  {
    var i :| 0 <= i < |inputs| && inputs[i] == a;
    var j :| 0 <= j < |inputs| && inputs[j] == b;
    assert Clash(inputs[i], inputs[j]) && Clash(inputs[j], inputs[i]);
  }

  lemma PairedHaveCounterparts(inputs: seq<SessionInput>, root: real -> real, s: SessionInput)
    requires !HasClash(inputs) && AllPaired(StudyTargets(inputs, root)) && s in inputs && Contributes(s)
    ensures HasCounterpart(inputs, s)
  {
    var u := PartnerSession(inputs, root, s, 0);
    var far := PartnerSession(inputs, root, s, SlotCount(s.session) - 2);
    SameSession(inputs, u, far);
    var back := PartnerSession(inputs, root, u, SlotCount(u.session) - 2);
    SameSession(inputs, s, back);
    assert Counterparts(s, u);
  }

  /** Duplication, pairing and gaps of the targets, read off the sessions. */
  lemma ComparableMeaning(inputs: seq<SessionInput>, root: real -> real)
    ensures var targets := StudyTargets(inputs, root);
            !HasDuplicate(targets) && AllPaired(targets) && NoGap(targets) <==> Comparable(inputs)
  {
    DuplicatesAreClashes(inputs, root);
    StudyHasNoGap(inputs, root);
    if !HasClash(inputs) {
      if forall s | s in inputs && Contributes(s) :: HasCounterpart(inputs, s) {
        CounterpartsPair(inputs, root);
      }
      if AllPaired(StudyTargets(inputs, root)) {
        forall s | s in inputs && Contributes(s) ensures HasCounterpart(inputs, s) {
          PairedHaveCounterparts(inputs, root, s);
        }
      }
    }
  }

  // --- Measuring the sessions, then comparing them ---

  datatype StudyError = Measuring(error: MeasureError) | Comparing(failure: ClarifyError)

  function SessionError(s: SessionInput, etDate: int -> Date): Option<MeasureError> {
    ErrorOf(s.symbol, s.date, s.bars, s.session, etDate)
  }

  /** The error of the first session that throws. */
  function FirstError(inputs: seq<SessionInput>, etDate: int -> Date): Option<MeasureError> {
    if inputs == [] then None
    else
      var before := FirstError(inputs[..|inputs| - 1], etDate);
      if before.Some? then before else SessionError(inputs[|inputs| - 1], etDate)
  }

  lemma {:induction false} FirstErrorStays(inputs: seq<SessionInput>, etDate: int -> Date, i: nat)
    requires i <= |inputs| && FirstError(inputs[..i], etDate).Some?
    ensures FirstError(inputs, etDate) == FirstError(inputs[..i], etDate)
  {
    if i < |inputs| {
      assert inputs[..|inputs| - 1][..i] == inputs[..i];
      FirstErrorStays(inputs[..|inputs| - 1], etDate, i);
    } else {
      assert inputs[..i] == inputs;
    }
  }

  lemma {:induction false} NoErrorMeaning(inputs: seq<SessionInput>, etDate: int -> Date)
    ensures FirstError(inputs, etDate).None? <==> forall s | s in inputs :: SessionError(s, etDate).None?
  {
    if inputs != [] {
      NoErrorMeaning(inputs[..|inputs| - 1], etDate);
      assert inputs == inputs[..|inputs| - 1] + [inputs[|inputs| - 1]];
    }
  }

  method MeasureInput(s: SessionInput, etDate: int -> Date, root: real -> real)
    returns (r: Result<seq<Target>, MeasureError>)
    ensures r.Failure? ==> SessionError(s, etDate) == Some(r.error)
    ensures r.Success? ==> SessionError(s, etDate).None? && r.value == TargetsOf(s, root)
  {
    r := MeasureSession(s.symbol, s.date, s.bars, s.prior, Some(s.session), etDate, root);
  }

  /** Measures the sessions in order and collects their targets; the first error is thrown. */
  method CollectTargets(inputs: seq<SessionInput>, etDate: int -> Date, root: real -> real)
    returns (r: Result<seq<Target>, MeasureError>)
    ensures r.Failure? ==> FirstError(inputs, etDate) == Some(r.error)
    ensures r.Success? ==> FirstError(inputs, etDate).None? && r.value == StudyTargets(inputs, root)
  {
    var targets: seq<Target> := [];
    for i := 0 to |inputs|
      invariant FirstError(inputs[..i], etDate).None? && targets == StudyTargets(inputs[..i], root)
    {
      var s := inputs[i];
      assert inputs[..i + 1][..i] == inputs[..i];
      var measured := MeasureInput(s, etDate, root);
      if measured.Failure? {
        FirstErrorStays(inputs, etDate, i + 1);
        return Failure(measured.error);
      }
      targets := targets + measured.value;
    }
    assert inputs[..|inputs|] == inputs;
    return Success(targets);
  }

  /** From bars to rows: the first error of measuring, if any; otherwise the comparison, which succeeds exactly when
      each session enters once and on both instruments, never stops on its evidence checks or on gaps, and orders the
      effective states at every target, whatever the bars and the ATR. */
  method CompareStudy(inputs: seq<SessionInput>, etDate: int -> Date, root: real -> real)
    returns (r: Result<seq<Row>, StudyError>)
    ensures r.Success? <==> (forall s | s in inputs :: SessionError(s, etDate).None?) && Comparable(inputs)
    ensures FirstError(inputs, etDate).Some? <==> r.Failure? && r.error.Measuring?
    ensures r.Failure? && r.error.Measuring? ==> FirstError(inputs, etDate) == Some(r.error.error)
    ensures r.Failure? && r.error.Comparing? ==>
              r.error.failure == if HasClash(inputs) then DuplicateTarget else UnalignedTargets
    ensures r.Success? ==> Comparison(StudyTargets(inputs, root), FROZEN_B, r.value)
                           && EffectiveOrder(r.value, CurrentClose, OriginalB)
                           && EffectiveOrder(r.value, CurrentClose, AbsoluteHigh)
    ensures r.Success? ==> AllWorseStates(r.value, FROZEN_B) && AllRecoverLawfully(r.value)
  {
    NoErrorMeaning(inputs, etDate);
    var targets := CollectTargets(inputs, etDate, root);
    if targets.Failure? {
      return Failure(Measuring(targets.error));
    }
    StudyIsMeasured(inputs, root);
    MeasuredAgree(targets.value, FROZEN_B);
    ComparableMeaning(inputs, root);
    DuplicatesAreClashes(inputs, root);
    StudyHasNoGap(inputs, root);
    var rows := CompareIntradaySemantics(targets.value, FROZEN_B);
    if rows.Failure? {
      return Failure(Comparing(rows.error));
    }
    return Success(rows.value);
  }
}
