/** Threshold bands and their validation rank, src/dev/breadth-v2-calibration.ts. */
module Calibration {
  import opened Wrappers
  import opened Statistics
  import RealFacts

  datatype Family = QUARTILE | TERTILE | NARROW
  datatype Horizon = DAY_1 | DAY_5 | DAY_20
  datatype Metric = Metric(sessionDate: int, horizon: Horizon, advanceShare: Option<real>)
  datatype Band = Band(lower: real, upper: real, lowerPercentile: real, upperPercentile: real)
  datatype BandError = NoEvidence(h: Horizon) | BandsOverlap(f: Family, h: Horizon)
  type Bands = map<(Family, Horizon), Band>

  function Threshold(f: Family): (real, real) {
    match f
    case QUARTILE => (0.25, 0.75)
    case TERTILE => (1.0 / 3.0, 2.0 / 3.0)
    case NARROW => (0.4, 0.6)
  }

  // --- Bands ---

  function Shares(metrics: seq<Metric>, h: Horizon, through: int): seq<real> {
    if metrics == [] then []
    else
      var m := metrics[|metrics| - 1];
      Shares(metrics[..|metrics| - 1], h, through)
      + if m.horizon == h && m.sessionDate <= through && m.advanceShare.Some? then [m.advanceShare.value] else []
  }

  function BandOf(metrics: seq<Metric>, through: int, f: Family, h: Horizon): Result<Band, BandError> {
    var values := Ordered(Shares(metrics, h, through));
    if values == [] then Failure(NoEvidence(h))
    else
      var (p, q) := Threshold(f);
      var lower, upper := Percentile(values, p).value.value, Percentile(values, q).value.value;
      if lower >= upper then Failure(BandsOverlap(f, h)) else Success(Band(lower, upper, p, q))
  }

  const PAIRS: seq<(Family, Horizon)> :=
    [(QUARTILE, DAY_1), (QUARTILE, DAY_5), (QUARTILE, DAY_20), (TERTILE, DAY_1), (TERTILE, DAY_5), (TERTILE, DAY_20),
     (NARROW, DAY_1), (NARROW, DAY_5), (NARROW, DAY_20)]

  /** Bands for the pairs in order; the first failure is thrown. */
  function BandsFor(metrics: seq<Metric>, through: int, pairs: seq<(Family, Horizon)>): Result<Bands, BandError> {
    if pairs == [] then Success(map[])
    else
      var before, last := BandsFor(metrics, through, pairs[..|pairs| - 1]), pairs[|pairs| - 1];
      if before.Failure? then before
      else
        var band := BandOf(metrics, through, last.0, last.1);
        if band.Failure? then Failure(band.error) else Success(before.value[last := band.value])
  }

  function DeriveBands(metrics: seq<Metric>, through: int): Result<Bands, BandError> {
    BandsFor(metrics, through, PAIRS)
  }

  lemma {:induction false} BandsForAll(metrics: seq<Metric>, through: int, pairs: seq<(Family, Horizon)>)
    ensures var r := BandsFor(metrics, through, pairs);
            && (r.Success? <==> forall x | x in pairs :: BandOf(metrics, through, x.0, x.1).Success?)
            && (r.Success? ==> forall x | x in pairs ::
                  x in r.value && r.value[x] == BandOf(metrics, through, x.0, x.1).value)
  {
    if pairs != [] {
      var init, last := pairs[..|pairs| - 1], pairs[|pairs| - 1];
      BandsForAll(metrics, through, init);
      assert forall x :: x in pairs <==> x in init || x == last;
    }
  }

  // --- The law of a band, on the metrics ---

  predicate Carries(m: Metric, h: Horizon, through: int, v: real) {
    m.horizon == h && m.sessionDate <= through && m.advanceShare == Some(v)
  }

  /** The metrics that carry the share `v` for the horizon, up to the date. */
  ghost function Carriers(metrics: seq<Metric>, h: Horizon, through: int, v: real): set<nat> {
    set k: nat | k < |metrics| && Carries(metrics[k], h, through, v)
  }

  /** The shares of the horizon up to the date, ascending, each as often as metrics carry it. */
  ghost predicate SampleOf(sample: seq<real>, metrics: seq<Metric>, h: Horizon, through: int) {
    Ascending(sample) && forall v :: multiset(sample)[v] == |Carriers(metrics, h, through, v)|
  }

  /** Both ends are read off the sample at the fractions of the family; there is no band without evidence, nor where
      the ends do not ascend. */
  ghost predicate BandLaw(r: Result<Band, BandError>, sample: seq<real>, f: Family, h: Horizon) {
    var p := match f case QUARTILE => 0.25 case TERTILE => 1.0 / 3.0 case NARROW => 0.4;
    var q := match f case QUARTILE => 0.75 case TERTILE => 2.0 / 3.0 case NARROW => 0.6;
    if sample == [] then r == Failure(NoEvidence(h))
    else exists lower, upper :: OnCurve(sample, p, lower) && OnCurve(sample, q, upper)
                                && IsBand(r, Band(lower, upper, p, q), BandsOverlap(f, h))
  }

  predicate IsBand(r: Result<Band, BandError>, band: Band, overlap: BandError) {
    if band.lower < band.upper then r == Success(band) else r == Failure(overlap)
  }

  lemma OneMoreCarrier(metrics: seq<Metric>, h: Horizon, through: int, v: real)
    requires metrics != []
    ensures var n := |metrics| - 1;
            |Carriers(metrics, h, through, v)|
            == |Carriers(metrics[..n], h, through, v)| + if Carries(metrics[n], h, through, v) then 1 else 0
  {
    var n := |metrics| - 1;
    var before := Carriers(metrics[..n], h, through, v);
    assert Carriers(metrics, h, through, v) == if Carries(metrics[n], h, through, v) then before + {n} else before;
  }

  lemma {:induction false} SharesAreCarried(metrics: seq<Metric>, h: Horizon, through: int, v: real)
    ensures multiset(Shares(metrics, h, through))[v] == |Carriers(metrics, h, through, v)|
  {
    if metrics == [] {
      assert Carriers(metrics, h, through, v) == {};
    } else {
      SharesAreCarried(metrics[..|metrics| - 1], h, through, v);
      OneMoreCarrier(metrics, h, through, v);
    }
  }

  /** Every band is lawful, over the one sample that the metrics determine. */
  lemma BandIsLawful(metrics: seq<Metric>, through: int, f: Family, h: Horizon)
    ensures exists sample :: SampleOf(sample, metrics, h, through)
                             && BandLaw(BandOf(metrics, through, f, h), sample, f, h)
  {
    var sample := Ordered(Shares(metrics, h, through));
    OrderedAscends(Shares(metrics, h, through));
    forall v ensures multiset(sample)[v] == |Carriers(metrics, h, through, v)| {
      SharesAreCarried(metrics, h, through, v);
    }
    var (p, q) := Threshold(f);
    PercentileOnCurve(sample, p);
    PercentileOnCurve(sample, q);
    assert SampleOf(sample, metrics, h, through);
    if sample != [] {
      var lower, upper := Percentile(sample, p).value.value, Percentile(sample, q).value.value;
      assert OnCurve(sample, p, lower) && OnCurve(sample, q, upper);
      assert IsBand(BandOf(metrics, through, f, h), Band(lower, upper, p, q), BandsOverlap(f, h));
    }
    assert BandLaw(BandOf(metrics, through, f, h), sample, f, h);
  }

  ghost predicate NestedIn(a: Band, b: Band) {
    b.lower <= a.lower < a.upper <= b.upper
  }

  ghost predicate NestedBands(bands: Bands, h: Horizon) {
    && (QUARTILE, h) in bands && (TERTILE, h) in bands && (NARROW, h) in bands
    && NestedIn(bands[(NARROW, h)], bands[(TERTILE, h)]) && NestedIn(bands[(TERTILE, h)], bands[(QUARTILE, h)])
  }

  /** With evidence for the horizon the narrow band lies inside the tertile band, and that inside the quartile
      band; so the two wider ones can only overlap when the narrow one does. */
  lemma BandsNest(metrics: seq<Metric>, through: int, h: Horizon)
    requires BandOf(metrics, through, NARROW, h).Success?
    ensures BandOf(metrics, through, TERTILE, h).Success? && BandOf(metrics, through, QUARTILE, h).Success?
    ensures NestedIn(BandOf(metrics, through, NARROW, h).value, BandOf(metrics, through, TERTILE, h).value)
    ensures NestedIn(BandOf(metrics, through, TERTILE, h).value, BandOf(metrics, through, QUARTILE, h).value)
  {
    var values := Ordered(Shares(metrics, h, through));
    OrderedAscends(Shares(metrics, h, through));
    PercentileMonotone(values, 0.25, 1.0 / 3.0);
    PercentileMonotone(values, 1.0 / 3.0, 0.4);
    PercentileMonotone(values, 0.6, 2.0 / 3.0);
    PercentileMonotone(values, 2.0 / 3.0, 0.75);
  }

  /** Calibration succeeds exactly when every horizon has a narrow band, and then all bands nest. */
  lemma CalibrationSucceeds(metrics: seq<Metric>, through: int)
    ensures DeriveBands(metrics, through).Success? <==> forall h :: BandOf(metrics, through, NARROW, h).Success?
    ensures var r := DeriveBands(metrics, through);
            r.Success? ==> forall h :: NestedBands(r.value, h)
  {
    BandsForAll(metrics, through, PAIRS);
    AllPairs();
    forall h | BandOf(metrics, through, NARROW, h).Success?
      ensures BandOf(metrics, through, TERTILE, h).Success? && BandOf(metrics, through, QUARTILE, h).Success?
              && NestedIn(BandOf(metrics, through, NARROW, h).value, BandOf(metrics, through, TERTILE, h).value)
              && NestedIn(BandOf(metrics, through, TERTILE, h).value, BandOf(metrics, through, QUARTILE, h).value)
    {
      BandsNest(metrics, through, h);
    }
    forall x | x in PAIRS && forall h :: BandOf(metrics, through, NARROW, h).Success?
      ensures BandOf(metrics, through, x.0, x.1).Success? {
      assert BandOf(metrics, through, NARROW, x.1).Success?;
    }
  }

  lemma AllPairs()
    ensures forall f, h :: (f, h) in PAIRS
  {
    forall f: Family, h: Horizon ensures (f, h) in PAIRS {
      var i := (match f case QUARTILE => 0 case TERTILE => 3 case NARROW => 6)
               + (match h case DAY_1 => 0 case DAY_5 => 1 case DAY_20 => 2);
      assert PAIRS[i] == (f, h);
    }
  }

  // --- Validation rank ---

  function CountBelow(xs: seq<real>, t: real): nat {
    if xs == [] then 0 else CountBelow(xs[..|xs| - 1], t) + if xs[|xs| - 1] < t then 1 else 0
  }

  function CountEqual(xs: seq<real>, t: real): nat {
    if xs == [] then 0 else CountEqual(xs[..|xs| - 1], t) + if xs[|xs| - 1] == t then 1 else 0
  }

  function RankFraction(xs: seq<real>, t: real): Option<real> {
    if xs == [] then None else Some((CountBelow(xs, t) as real + CountEqual(xs, t) as real / 2.0) / |xs| as real)
  }

  ghost function Below(xs: seq<real>, t: real): set<nat> { set i: nat | i < |xs| && xs[i] < t }

  ghost function Equal(xs: seq<real>, t: real): set<nat> { set i: nat | i < |xs| && xs[i] == t }

  /** n times the rank counts the lesser values, and half of the equal ones. */
  ghost predicate IsRank(rank: real, xs: seq<real>, t: real) {
    rank * |xs| as real == |Below(xs, t)| as real + |Equal(xs, t)| as real / 2.0
  }

  lemma {:induction false} CountsBelow(xs: seq<real>, t: real)
    ensures CountBelow(xs, t) == |Below(xs, t)|
  {
    if xs != [] {
      var n := |xs| - 1;
      CountsBelow(xs[..n], t);
      var below := Below(xs[..n], t);
      assert Below(xs, t) == if xs[n] < t then below + {n} else below;
    }
  }

  lemma {:induction false} CountsEqual(xs: seq<real>, t: real)
    ensures CountEqual(xs, t) == |Equal(xs, t)|
  {
    if xs != [] {
      var n := |xs| - 1;
      CountsEqual(xs[..n], t);
      var equal := Equal(xs[..n], t);
      assert Equal(xs, t) == if xs[n] == t then equal + {n} else equal;
    }
  }

  lemma RankIsRank(xs: seq<real>, t: real)
    ensures xs != [] ==> IsRank(RankFraction(xs, t).value, xs, t)
  {
    if xs != [] {
      CountsBelow(xs, t);
      CountsEqual(xs, t);
      RealFacts.Quotient(CountBelow(xs, t) as real + CountEqual(xs, t) as real / 2.0, |xs| as real);
    }
  }

  method ValidationPercentile(sortedValues: seq<real>, threshold: real) returns (r: Option<real>)
    ensures r == RankFraction(sortedValues, threshold)
    ensures r.None? <==> sortedValues == []
    ensures r.Some? ==> IsRank(r.value, sortedValues, threshold)
  {
    RankIsRank(sortedValues, threshold);
    if sortedValues == [] {
      return None;
    }
    var below, equal := 0, 0;
    for i := 0 to |sortedValues|
      invariant below == CountBelow(sortedValues[..i], threshold)
      invariant equal == CountEqual(sortedValues[..i], threshold)
    {
      var value := sortedValues[i];
      assert sortedValues[..i + 1][..i] == sortedValues[..i];
      if value < threshold {
        below := below + 1;
      } else if value == threshold {
        equal := equal + 1;
      }
    }
    assert sortedValues[..|sortedValues|] == sortedValues;
    return Some((below as real + equal as real / 2.0) / |sortedValues| as real);
  }

  /** The first `k` values are below `t`, the next `e` equal it, the others are above. */
  lemma {:induction false} CountSorted(xs: seq<real>, t: real, k: nat, e: nat)
    requires k + e <= |xs|
    requires forall i | 0 <= i < k :: xs[i] < t
    requires forall i | k <= i < k + e :: xs[i] == t
    requires forall i | k + e <= i < |xs| :: xs[i] > t
    ensures CountBelow(xs, t) == k && CountEqual(xs, t) == e
  {
    if xs != [] {
      var n := |xs| - 1;
      if k + e <= n {
        CountSorted(xs[..n], t, k, e);
      } else if e > 0 {
        CountSorted(xs[..n], t, k, e - 1);
      } else {
        CountSorted(xs[..n], t, k - 1, 0);
      }
    }
  }

  /** Ranking the percentile of `p` gives back `p` to within one sample. */
  ghost predicate RankReturns(xs: seq<real>, p: real)
    requires xs != [] && 0.0 <= p <= 1.0
  {
    && Percentile(xs, p).Success? && Percentile(xs, p).value.Some?
    && RankFraction(xs, Percentile(xs, p).value.value).Some?
    && RealFacts.Near(RankFraction(xs, Percentile(xs, p).value.value).value, p, |xs| as real)
  }

  /** No value occurs three times. */
  ghost predicate NoThreeAlike(xs: seq<real>) {
    forall i, j, k | 0 <= i < j < k < |xs| :: !(xs[i] == xs[j] == xs[k])
  }

  /** Values below `v`, and half of those that equal it. */
  function MidRank(xs: seq<real>, v: real): real { CountBelow(xs, v) as real + CountEqual(xs, v) as real / 2.0 }

  lemma SpreadApart(xs: seq<real>, i: nat, j: nat)
    requires Ascending(xs) && NoThreeAlike(xs) && i + 2 <= j < |xs|
    ensures xs[i] < xs[j]
  {
    assert xs[i] <= xs[i + 1] <= xs[j];
  }

  /** On a sample value that has at most one twin, the mid-rank is within half a place of the middle of its place. */
  lemma MidRankAtValue(xs: seq<real>, l: nat)
    requires Ascending(xs) && NoThreeAlike(xs) && l < |xs|
    ensures l as real <= MidRank(xs, xs[l]) <= l as real + 1.0
  {
    var t := xs[l];
    var twinBefore, twinAfter := l > 0 && xs[l - 1] == t, l + 1 < |xs| && xs[l + 1] == t;
    forall i | 0 <= i < l - 1 ensures xs[i] < t {
      SpreadApart(xs, i, l);
    }
    forall i | l + 1 < i < |xs| ensures xs[i] > t {
      SpreadApart(xs, l, i);
    }
    if twinBefore {
      assert !twinAfter;
      CountSorted(xs, t, l - 1, 2);
    } else if twinAfter {
      CountSorted(xs, t, l, 2);
    } else {
      CountSorted(xs, t, l, 1);
    }
  }

  lemma MidRankBetween(xs: seq<real>, x: real)
    requires Ascending(xs) && NoThreeAlike(xs) && Position(xs, x) && x != x.Floor as real
    ensures MidRank(xs, ReadAt(xs, x)) == x.Floor as real + 1.0
  {
    var v, l := ReadAt(xs, x), x.Floor;
    if xs[l] == xs[l + 1] {
      RealFacts.Between(xs[l], xs[l + 1], x - l as real, x - l as real);
      TwinValues(xs, l);
    } else {
      var f := x - l as real;
      RealFacts.StrictlyBetween(xs[l], xs[l + 1], f);
      assert v == xs[l] + (xs[l + 1] - xs[l]) * f && f != 0.0;
      BetweenValues(xs, v, l);
    }
  }

  lemma BetweenValues(xs: seq<real>, v: real, l: nat)
    requires Ascending(xs) && l + 1 < |xs| && xs[l] < v < xs[l + 1]
    ensures MidRank(xs, v) == l as real + 1.0
  {
    forall i | 0 <= i <= l ensures xs[i] < v {
      assert xs[i] <= xs[l];
    }
    forall i | l < i < |xs| ensures xs[i] > v {
      assert xs[i] >= xs[l + 1];
    }
    CountSorted(xs, v, l + 1, 0);
  }

  lemma TwinValues(xs: seq<real>, l: nat)
    requires Ascending(xs) && NoThreeAlike(xs) && l + 1 < |xs| && xs[l] == xs[l + 1]
    ensures MidRank(xs, xs[l]) == l as real + 1.0
  {
    forall i | 0 <= i < l ensures xs[i] < xs[l] {
      SpreadApart(xs, i, l + 1);
    }
    forall i | l + 1 < i < |xs| ensures xs[i] > xs[l] {
      SpreadApart(xs, l, i);
    }
    CountSorted(xs, xs[l], l, 2);
  }

  lemma MidRankOfReading(xs: seq<real>, x: real)
    requires Ascending(xs) && NoThreeAlike(xs) && Position(xs, x)
    ensures x <= MidRank(xs, ReadAt(xs, x)) <= x + 1.0
  {
    var l := x.Floor;
    if x == l as real {
      assert ReadAt(xs, x) == xs[l] by { ReadingAtValue(xs, l); }
      MidRankAtValue(xs, l);
    } else {
      MidRankBetween(xs, x);
    }
  }

  lemma ReadingAtValue(xs: seq<real>, l: nat)
    requires l < |xs|
    ensures ReadAt(xs, l as real) == xs[l]
  {
    if l < |xs| - 1 {
      RealFacts.Blend(xs[l], xs[l + 1], 0.0);
    }
  }

  lemma RankIsMidRank(xs: seq<real>, v: real)
    requires xs != []
    ensures RankFraction(xs, v) == Some(MidRank(xs, v) / |xs| as real)
  {
  }

  predicate WithinOne(a: real, b: real) { -1.0 <= a - b <= 1.0 }

  /** The bound, with the rank and the position written out. */
  ghost predicate InPlace(xs: seq<real>, p: real)
    requires xs != [] && 0.0 <= p <= 1.0
  {
    WithinOne(MidRank(xs, ReadAt(xs, RankOf(xs, p))), p * |xs| as real)
  }

  lemma RankReturnsMeaning(xs: seq<real>, p: real)
    requires xs != [] && 0.0 <= p <= 1.0
    ensures RankReturns(xs, p) <==> InPlace(xs, p)
  {
    var v := ReadAt(xs, RankOf(xs, p));
    var c, n := MidRank(xs, v), |xs| as real;
    PercentileReads(xs, p);
    RankIsMidRank(xs, v);
    RealFacts.DividedDistance(c, p, n);
  }

  lemma WithoutTriplesReturns(xs: seq<real>, p: real)
    requires xs != [] && Ascending(xs) && NoThreeAlike(xs) && 0.0 <= p <= 1.0
    ensures InPlace(xs, p)
  {
    var x := RankOf(xs, p);
    MidRankOfReading(xs, x);
    RealFacts.OnePlace(x, p, |xs| as real);
  }

  /** The fraction whose position is exactly place `l`. */
  function PlaceFraction(xs: seq<real>, l: nat): (p: real)
    requires |xs| >= 2 && l < |xs|
    ensures 0.0 <= p <= 1.0
  {
    RealFacts.Fraction(l as real, (|xs| - 1) as real);
    l as real / (|xs| - 1) as real
  }

  lemma PlaceOfFraction(xs: seq<real>, l: nat)
    requires |xs| >= 2 && l < |xs|
    ensures RankOf(xs, PlaceFraction(xs, l)) == l as real
    ensures PlaceFraction(xs, l) * |xs| as real == l as real + PlaceFraction(xs, l)
  {
    RealFacts.Quotient(l as real, (|xs| - 1) as real);
    RealFacts.OnePlace(l as real, PlaceFraction(xs, l), |xs| as real);
  }

  /** The `m` places from `a` on hold one value, the places before less, the places after more. */
  ghost predicate Plateau(xs: seq<real>, a: nat, m: nat) {
    && 0 < m && a + m <= |xs|
    && (forall i | 0 <= i < a :: xs[i] < xs[a]) && (forall i | a <= i < a + m :: xs[i] == xs[a])
    && (forall i | a + m <= i < |xs| :: xs[i] > xs[a])
  }

  lemma PlateauRank(xs: seq<real>, a: nat, m: nat, z: nat)
    requires Plateau(xs, a, m) && a <= z < a + m
    ensures MidRank(xs, ReadAt(xs, z as real)) == a as real + m as real / 2.0
  {
    CountSorted(xs, xs[a], a, m);
    ReadingAtValue(xs, z);
  }

  lemma PlaceOnPlateau(xs: seq<real>, a: nat, m: nat, z: nat)
    requires Plateau(xs, a, m) && a <= z < a + m && |xs| >= 2
    ensures InPlace(xs, PlaceFraction(xs, z))
            <==> WithinOne(a as real + m as real / 2.0, z as real + PlaceFraction(xs, z))
  {
    PlaceOfFraction(xs, z);
    PlateauRank(xs, a, m, z);
  }

  /** On a plateau of three or more the rank misses the fraction of its first or of its last place. */
  lemma PlateauMisses(xs: seq<real>, a: nat, m: nat)
    requires Plateau(xs, a, m) && 3 <= m
    ensures exists p | 0.0 <= p <= 1.0 :: !RankReturns(xs, p)
  {
    var z := a + m - 1;
    var p, q := PlaceFraction(xs, a), PlaceFraction(xs, z);
    PlaceOnPlateau(xs, a, m, a);
    PlaceOnPlateau(xs, a, m, z);
    RealFacts.DivisionMonotone(z as real, a as real, (|xs| - 1) as real);
    assert !InPlace(xs, p) || !InPlace(xs, q);
    RankReturnsMeaning(xs, p);
    RankReturnsMeaning(xs, q);
  }

  /** On sorted samples, ranking returns every fraction to within one sample exactly when no value occurs three
      times. */
  lemma RankOfPercentile(xs: seq<real>)
    requires xs != [] && Ascending(xs)
    ensures (forall p | 0.0 <= p <= 1.0 :: RankReturns(xs, p)) <==> NoThreeAlike(xs)
  {
    if NoThreeAlike(xs) {
      forall p | 0.0 <= p <= 1.0 ensures RankReturns(xs, p) {
        WithoutTriplesReturns(xs, p);
        RankReturnsMeaning(xs, p);
      }
    } else {
      var i, j, k :| 0 <= i < j < k < |xs| && xs[i] == xs[j] == xs[k];
      var f, g := Boundary(xs, xs[i]);
      PlateauMisses(xs, f, g - f);
    }
  }

  /** Three equal values: their rank is one half, a long way from the fraction 0. */
  lemma ThreeOnes()
    ensures !RankReturns([1.0, 1.0, 1.0], 0.0)
  {
    var xs := [1.0, 1.0, 1.0];
    CountSorted(xs, 1.0, 0, 3);
    ReadingAtValue(xs, 0);
    RankReturnsMeaning(xs, 0.0);
  }

  // --- Samples with repeated values ---

  lemma {:induction false} AtMostBelow(xs: seq<real>, t: real, k: nat)
    requires k <= |xs| && forall i | k <= i < |xs| :: xs[i] >= t
    ensures CountBelow(xs, t) <= k
  {
    if xs != [] {
      AtMostBelow(xs[..|xs| - 1], t, if k == |xs| then k - 1 else k);
    }
  }

  lemma {:induction false} AtLeastUpTo(xs: seq<real>, t: real, k: nat)
    requires k <= |xs| && forall i | 0 <= i < k :: xs[i] <= t
    ensures CountBelow(xs, t) + CountEqual(xs, t) >= k
  {
    if xs != [] {
      AtLeastUpTo(xs[..|xs| - 1], t, if k == |xs| then k - 1 else k);
    }
  }

  lemma ReadBrackets(xs: seq<real>, x: real)
    requires Ascending(xs) && Position(xs, x)
    ensures var v := ReadAt(xs, x); CountBelow(xs, v) <= x.Floor + 1 <= CountBelow(xs, v) + CountEqual(xs, v)
  {
    var v, l := ReadAt(xs, x), x.Floor;
    ReadWithin(xs, x, x);
    AtMostBelow(xs, v, l + 1);
    AtLeastUpTo(xs, v, l + 1);
  }

  lemma FloorBrackets(below: int, upTo: int, x: real, p: real, m: real)
    requires 0.0 <= p <= 1.0 && x == p * (m - 1.0) && below <= x.Floor + 1 <= upTo
    ensures below as real - 1.0 <= p * m <= upTo as real + 1.0
  {
    assert p * m == p * (m - 1.0) + p;
  }

  /** Of `n` sorted samples, to within one sample, `p * n` lies between the number strictly below the percentile
      and the number at or below it; the rank is the middle of the two. */
  ghost predicate Brackets(xs: seq<real>, v: real, p: real) {
    CountBelow(xs, v) as real - 1.0 <= p * |xs| as real <= (CountBelow(xs, v) + CountEqual(xs, v)) as real + 1.0
  }

  lemma ReadingBrackets(xs: seq<real>, p: real)
    requires xs != [] && Ascending(xs) && 0.0 <= p <= 1.0
    ensures Brackets(xs, ReadAt(xs, RankOf(xs, p)), p)
  {
    var x := RankOf(xs, p);
    var v := ReadAt(xs, x);
    ReadBrackets(xs, x);
    FloorBrackets(CountBelow(xs, v), CountBelow(xs, v) + CountEqual(xs, v), x, p, |xs| as real);
  }

  lemma RankBrackets(xs: seq<real>, p: real)
    requires xs != [] && Ascending(xs) && 0.0 <= p <= 1.0
    ensures Percentile(xs, p).Success? && Percentile(xs, p).value.Some?
    ensures Brackets(xs, Percentile(xs, p).value.value, p)
  {
    PercentileReads(xs, p);
    ReadingBrackets(xs, p);
  }
}
