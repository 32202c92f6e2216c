/** The five-sensor panel of src/dev/participation-calculation.ts and its state,
    src/services/participation-v1.definition.ts. */
module PanelMedian {
  import opened Wrappers
  import Sorting
  import Statistics

  datatype State = QUIET | NORMAL | ACTIVE | INTENSE
  datatype Cut = LE070 | LE080 | GE100 | GE125 | GE150 | GE200
  datatype Panel = Panel(panelMedianRvol: real, minimumRvol: real, maximumRvol: real, range: real,
                         agreement: map<Cut, nat>)
  datatype PanelError = NotFiveValidValues | InvalidRvol

  function Median(values: seq<real>): Option<real> {
    if values == [] then None
    else
      var sorted, mid := Statistics.Ordered(values), |values| / 2;
      if |sorted| % 2 == 1 then Some(sorted[mid]) else Some(sorted[mid - 1] / 2.0 + sorted[mid] / 2.0)
  }

  /** The two medians of the program agree. */
  lemma MediansAgree(values: seq<real>)
    ensures Median(values) == Statistics.Median(values)
  {
    if values != [] {
      var sorted, n := Statistics.Ordered(values), |values|;
      Statistics.PercentileReads(sorted, 0.5);
      var x := Statistics.RankOf(sorted, 0.5);
      assert x == (n - 1) as real / 2.0;
      MiddleReading(sorted, x);
    }
  }

  lemma MiddleReading(sorted: seq<real>, x: real)
    requires sorted != [] && x == (|sorted| - 1) as real / 2.0
    ensures Statistics.ReadAt(sorted, x) == if |sorted| % 2 == 1 then sorted[|sorted| / 2]
                                            else sorted[|sorted| / 2 - 1] / 2.0 + sorted[|sorted| / 2] / 2.0
  {
    var n := |sorted|;
    var l := (n - 1) / 2;
    assert x - l as real == if n % 2 == 1 then 0.0 else 0.5;
    assert x.Floor == l;
    if l < n - 1 {
      Interpolated(sorted[l], sorted[l + 1], x - l as real);
    }
  }

  lemma Interpolated(a: real, b: real, f: real)
    ensures f == 0.0 ==> a + (b - a) * f == a
    ensures f == 0.5 ==> a + (b - a) * f == a / 2.0 + b / 2.0
  {
  }

  // --- Counting ---

  function Count<T>(xs: seq<T>, p: T -> bool): (c: nat)
    ensures c <= |xs|
  {
    if xs == [] then 0 else Count(xs[..|xs| - 1], p) + if p(xs[|xs| - 1]) then 1 else 0
  }

  function AtLeast(c: real): real -> bool { x => x >= c }

  function AtMost(c: real): real -> bool { x => x <= c }

  lemma {:induction false} CountOfInsert<T>(xs: seq<T>, x: T, le: (T, T) -> bool, p: T -> bool)
    ensures Count(Sorting.Insert(xs, x, le), p) == Count(xs, p) + if p(x) then 1 else 0
  {
    if xs != [] && !le(xs[|xs| - 1], x) {
      CountOfInsert(xs[..|xs| - 1], x, le, p);
    } else {
      assert (xs + [x])[..|xs|] == xs;
    }
  }

  lemma {:induction false} CountOfSort<T>(xs: seq<T>, le: (T, T) -> bool, p: T -> bool)
    ensures Count(Sorting.Sort(xs, le), p) == Count(xs, p)
  {
    if xs != [] {
      var init := xs[..|xs| - 1];
      CountOfSort(init, le, p);
      CountOfInsert(Sorting.Sort(init, le), xs[|xs| - 1], le, p);
    }
  }

  /** The first `f` elements fail, the others pass. */
  lemma {:induction false} CountFrom<T>(xs: seq<T>, p: T -> bool, f: nat)
    requires f <= |xs|
    requires forall i | 0 <= i < f :: !p(xs[i])
    requires forall i | f <= i < |xs| :: p(xs[i])
    ensures Count(xs, p) == |xs| - f
  {
    if xs != [] {
      CountFrom(xs[..|xs| - 1], p, if f == |xs| then f - 1 else f);
    }
  }

  lemma {:induction false} CountUpTo<T>(xs: seq<T>, p: T -> bool, f: nat)
    requires f <= |xs|
    requires forall i | 0 <= i < f :: p(xs[i])
    requires forall i | f <= i < |xs| :: !p(xs[i])
    ensures Count(xs, p) == f
  {
    if xs != [] {
      CountUpTo(xs[..|xs| - 1], p, if f == |xs| then f - 1 else f);
    }
  }

  /** Majority: the median of an odd sample is at least `c` exactly when more than half the values are, and dually. */
  lemma MedianIsMajority(values: seq<real>, c: real)
    requires |values| % 2 == 1
    ensures Median(values).value >= c <==> 2 * Count(values, AtLeast(c)) > |values|
    ensures Median(values).value <= c <==> 2 * Count(values, AtMost(c)) > |values|
  {
    var sorted := Statistics.Ordered(values);
    Statistics.OrderedAscends(values);
    var f, g := Statistics.Boundary(sorted, c);
    assert Count(sorted, AtLeast(c)) == |sorted| - f by { CountFrom(sorted, AtLeast(c), f); }
    assert Count(sorted, AtMost(c)) == g by { CountUpTo(sorted, AtMost(c), g); }
    CountOfSort(values, Statistics.NoMore, AtLeast(c));
    CountOfSort(values, Statistics.NoMore, AtMost(c));
  }

  // --- The panel ---

  const CUTS: map<Cut, real> :=
    map[LE070 := 0.70, LE080 := 0.80, GE100 := 1.0, GE125 := 1.25, GE150 := 1.5, GE200 := 2.0]

  function Smallest(xs: seq<real>): (m: real)
    requires xs != []
    ensures m in xs && forall i | 0 <= i < |xs| :: m <= xs[i]
  {
    if |xs| == 1 then xs[0]
    else
      var m, last := Smallest(xs[..|xs| - 1]), xs[|xs| - 1];
      if last < m then last else m
  }

  function Largest(xs: seq<real>): (m: real)
    requires xs != []
    ensures m in xs && forall i | 0 <= i < |xs| :: m >= xs[i]
  {
    if |xs| == 1 then xs[0]
    else
      var m, last := Largest(xs[..|xs| - 1]), xs[|xs| - 1];
      if last > m then last else m
  }

  function PanelDiagnostics(values: seq<real>): Result<Panel, PanelError> {
    if |values| != 5 || exists i :: 0 <= i < |values| && values[i] < 0.0 then Failure(NotFiveValidValues)
    else
      var low, high := Smallest(values), Largest(values);
      Success(Panel(Median(values).value, low, high, high - low,
                    map cut | cut in CUTS ::
                      Count(values, if Below(cut) then AtMost(CUTS[cut]) else AtLeast(CUTS[cut]))))
  }

  function ClassifyParticipation(value: real): Result<State, PanelError> {
    if value < 0.0 then Failure(InvalidRvol)
    else if value < 0.75 then Success(QUIET)
    else if value < 1.25 then Success(NORMAL)
    else if value < 1.5 then Success(ACTIVE)
    else Success(INTENSE)
  }

  predicate Below(cut: Cut) { cut == LE070 || cut == LE080 }

  lemma AgreementOfCut(values: seq<real>, cut: Cut)
    requires PanelDiagnostics(values).Success? && cut in CUTS
    ensures var p := PanelDiagnostics(values).value;
            cut in p.agreement && (p.agreement[cut] >= 3 <==>
              if Below(cut) then p.panelMedianRvol <= CUTS[cut] else p.panelMedianRvol >= CUTS[cut])
  {
    MedianIsMajority(values, CUTS[cut]);
  }

  ghost function Passing(xs: seq<real>, p: real -> bool): set<nat> { set i: nat | i < |xs| && p(xs[i]) }

  /** Counting is the number of places that pass. */
  lemma {:induction false} CountIsCardinality(xs: seq<real>, p: real -> bool)
    ensures Count(xs, p) == |Passing(xs, p)|
  {
    if xs == [] {
      assert Passing(xs, p) == {};
    } else {
      var n := |xs| - 1;
      CountIsCardinality(xs[..n], p);
      assert Passing(xs, p) == if p(xs[n]) then Passing(xs[..n], p) + {n} else Passing(xs[..n], p);
    }
  }

  /** What a panel reports of its five values: extremes, spread, a median that three are at most and three at least,
      and at each cut the number of values on its side. */
  ghost predicate PanelLaw(p: Panel, values: seq<real>) {
    && |values| == 5 && p.panelMedianRvol in values
    && |Passing(values, (x: real) => x <= p.panelMedianRvol)| >= 3
    && |Passing(values, (x: real) => x >= p.panelMedianRvol)| >= 3
    && p.minimumRvol in values && p.maximumRvol in values && p.range == p.maximumRvol - p.minimumRvol
    && (forall v | v in values :: p.minimumRvol <= v <= p.maximumRvol)
    && AgreementLaw(p.agreement, values)
  }

  ghost predicate AgreementLaw(agreement: map<Cut, nat>, values: seq<real>)
  {
    && LE070 in agreement && agreement[LE070] == |Passing(values, (x: real) => x <= 0.7)|
    && LE080 in agreement && agreement[LE080] == |Passing(values, (x: real) => x <= 0.8)|
    && GE100 in agreement && agreement[GE100] == |Passing(values, (x: real) => x >= 1.0)|
    && GE125 in agreement && agreement[GE125] == |Passing(values, (x: real) => x >= 1.25)|
    && GE150 in agreement && agreement[GE150] == |Passing(values, (x: real) => x >= 1.5)|
    && GE200 in agreement && agreement[GE200] == |Passing(values, (x: real) => x >= 2.0)|
  }

  lemma SamePassing(values: seq<real>, p: real -> bool, q: real -> bool)
    requires forall x :: p(x) <==> q(x)
    ensures Count(values, p) == |Passing(values, q)|
  {
    CountIsCardinality(values, p);
    forall i: nat ensures i in Passing(values, p) <==> i in Passing(values, q) {
      if i < |values| {
        var v := values[i];
        assert p(v) <==> q(v);
      }
    }
    assert Passing(values, p) == Passing(values, q);
  }

  lemma AgreementAt(values: seq<real>, cut: Cut)
    requires PanelDiagnostics(values).Success? && cut in CUTS
    ensures var a := PanelDiagnostics(values).value.agreement;
            cut in a && a[cut] == Count(values, if Below(cut) then AtMost(CUTS[cut]) else AtLeast(CUTS[cut]))
  {
  }

  lemma CutsListed()
    ensures forall cut: Cut :: cut in CUTS
    ensures CUTS[LE070] == 0.7 && CUTS[LE080] == 0.8 && CUTS[GE100] == 1.0 && CUTS[GE125] == 1.25
            && CUTS[GE150] == 1.5 && CUTS[GE200] == 2.0
  {
    forall cut: Cut ensures cut in CUTS {
      match cut case LE070 => case LE080 => case GE100 => case GE125 => case GE150 => case GE200 =>
    }
  }

  lemma AgreementIsLawful(values: seq<real>)
    requires PanelDiagnostics(values).Success?
    ensures AgreementLaw(PanelDiagnostics(values).value.agreement, values)
  {
    CutsListed();
    forall cut: Cut ensures cut in PanelDiagnostics(values).value.agreement {
      AgreementAt(values, cut);
    }
    AgreementAt(values, LE070);
    AgreementAt(values, LE080);
    AgreementAt(values, GE100);
    AgreementAt(values, GE125);
    AgreementAt(values, GE150);
    AgreementAt(values, GE200);
    SamePassing(values, AtMost(0.7), (x: real) => x <= 0.7);
    SamePassing(values, AtMost(0.8), (x: real) => x <= 0.8);
    SamePassing(values, AtLeast(1.0), (x: real) => x >= 1.0);
    SamePassing(values, AtLeast(1.25), (x: real) => x >= 1.25);
    SamePassing(values, AtLeast(1.5), (x: real) => x >= 1.5);
    SamePassing(values, AtLeast(2.0), (x: real) => x >= 2.0);
  }

  /** Exactly five values, none negative, make a panel, and it is a lawful one. */
  lemma PanelIsLawful(values: seq<real>)
    ensures PanelDiagnostics(values).Failure? <==> |values| != 5 || exists v :: v in values && v < 0.0
    ensures PanelDiagnostics(values).Success? ==> PanelLaw(PanelDiagnostics(values).value, values)
  {
    assert (exists v :: v in values && v < 0.0) <==> exists i :: 0 <= i < |values| && values[i] < 0.0 by {
      forall i | 0 <= i < |values| ensures values[i] in values {
      }
    }
    if PanelDiagnostics(values).Success? {
      AgreementIsLawful(values);
      MedianIsInside(values);
    }
  }

  lemma MedianIsInside(values: seq<real>)
    requires |values| == 5
    ensures var m := Median(values).value;
            && m in values && |Passing(values, (x: real) => x <= m)| >= 3 && |Passing(values, (x: real) => x >= m)| >= 3
  {
    var m := Median(values).value;
    MedianIsMajority(values, m);
    SamePassing(values, AtMost(m), (x: real) => x <= m);
    SamePassing(values, AtLeast(m), (x: real) => x >= m);
    Statistics.OrderedAscends(values);
    assert m == Statistics.Ordered(values)[2] && m in multiset(Statistics.Ordered(values));
  }

  /** Three agreeing sensors decide on which side of every cut the panel median lies, and so whether the panel is
      at least ACTIVE, or INTENSE. */
  lemma AgreementDecides(values: seq<real>)
    requires PanelDiagnostics(values).Success?
    ensures var p := PanelDiagnostics(values).value;
            && (forall cut | cut in CUTS :: cut in p.agreement &&
                  (p.agreement[cut] >= 3 <==>
                     if Below(cut) then p.panelMedianRvol <= CUTS[cut] else p.panelMedianRvol >= CUTS[cut]))
            && ClassifyParticipation(p.panelMedianRvol).Success?
            && (p.agreement[GE150] >= 3 <==> ClassifyParticipation(p.panelMedianRvol).value == INTENSE)
            && (p.agreement[GE125] >= 3 <==> ClassifyParticipation(p.panelMedianRvol).value in {ACTIVE, INTENSE})
  {
    forall cut | cut in CUTS ensures var p := PanelDiagnostics(values).value;
        cut in p.agreement && (p.agreement[cut] >= 3 <==>
          if Below(cut) then p.panelMedianRvol <= CUTS[cut] else p.panelMedianRvol >= CUTS[cut]) {
      AgreementOfCut(values, cut);
    }
    PanelIsNonNegative(values);
    assert CUTS[GE125] == 1.25 && CUTS[GE150] == 1.5;
  }

  lemma PanelIsNonNegative(values: seq<real>)
    requires PanelDiagnostics(values).Success?
    ensures PanelDiagnostics(values).value.panelMedianRvol >= 0.0
  {
    MedianWithinThree(values, 0, 1, 2);
  }

  lemma {:induction false} ThreePass(xs: seq<real>, p: real -> bool, i: nat, j: nat, k: nat)
    requires i < j < k < |xs| && p(xs[i]) && p(xs[j]) && p(xs[k])
    ensures Count(xs, p) >= 3
  {
    if k < |xs| - 1 {
      ThreePass(xs[..|xs| - 1], p, i, j, k);
    } else {
      TwoPass(xs[..k], p, i, j);
    }
  }

  lemma {:induction false} TwoPass(xs: seq<real>, p: real -> bool, i: nat, j: nat)
    requires i < j < |xs| && p(xs[i]) && p(xs[j])
    ensures Count(xs, p) >= 2
  {
    if j < |xs| - 1 {
      TwoPass(xs[..|xs| - 1], p, i, j);
    } else {
      OnePass(xs[..j], p, i);
    }
  }

  lemma {:induction false} OnePass(xs: seq<real>, p: real -> bool, i: nat)
    requires i < |xs| && p(xs[i])
    ensures Count(xs, p) >= 1
  {
    if i < |xs| - 1 {
      OnePass(xs[..|xs| - 1], p, i);
    }
  }

  /** The panel median lies within the range of any three of the five sensors. */
  lemma MedianWithinThree(values: seq<real>, i: nat, j: nat, k: nat)
    requires |values| == 5 && i < j < k < 5
    ensures var three := [values[i], values[j], values[k]];
            Smallest(three) <= Median(values).value <= Largest(three)
  {
    var three := [values[i], values[j], values[k]];
    assert three[0] == values[i] && three[1] == values[j] && three[2] == values[k];
    ThreePass(values, AtLeast(Smallest(three)), i, j, k);
    ThreePass(values, AtMost(Largest(three)), i, j, k);
    MedianIsMajority(values, Smallest(three));
    MedianIsMajority(values, Largest(three));
  }
}
