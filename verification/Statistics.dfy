/** Order statistics and correlation of src/dev/breadth-statistics.ts, with the two other interpolations of the
    program (src/dev/intraday-stress-analysis.ts, src/dev/participation-calculation.ts) beside them, over reals. */
module Statistics {
  import opened Wrappers
  import Sorting
  import RealFacts

  datatype StatisticsError = FractionOutOfRange | UnequalLengths

  predicate NoMore(a: real, b: real) { a <= b }

  ghost predicate Ascending(xs: seq<real>) {
    forall i, j | 0 <= i < j < |xs| :: xs[i] <= xs[j]
  }

  function Ordered(values: seq<real>): (r: seq<real>)
    ensures |r| == |values|
  {
    Sorting.Sort(values, NoMore)
  }

  lemma OrderedAscends(values: seq<real>)
    ensures Ascending(Ordered(values)) && multiset(Ordered(values)) == multiset(values)
  {
    Sorting.SortSorts(values, NoMore);
  }

  // --- Percentiles ---

  /** Where the values of an ascending sample reach `c`, and where they pass it. */
  lemma Boundary(xs: seq<real>, c: real) returns (f: nat, g: nat)
    requires Ascending(xs)
    ensures f <= |xs| && (forall i | 0 <= i < f :: xs[i] < c) && (forall i | f <= i < |xs| :: xs[i] >= c)
    ensures g <= |xs| && (forall i | 0 <= i < g :: xs[i] <= c) && (forall i | g <= i < |xs| :: xs[i] > c)
  {
    f, g := 0, 0;
    while f < |xs| && xs[f] < c
      invariant f <= |xs| && forall i | 0 <= i < f :: xs[i] < c
    {
      f := f + 1;
    }
    while g < |xs| && xs[g] <= c
      invariant g <= |xs| && forall i | 0 <= i < g :: xs[i] <= c
    {
      g := g + 1;
    }
  }

  function Ceiling(x: real): int { -((-x).Floor) }

  predicate Position(xs: seq<real>, x: real) { xs != [] && 0.0 <= x <= (|xs| - 1) as real }

  lemma PositionFloor(xs: seq<real>, x: real)
    requires Position(xs, x)
    ensures 0 <= x.Floor <= Ceiling(x) < |xs|
    ensures Ceiling(x) == if x == x.Floor as real then x.Floor else x.Floor + 1
  {
  }

  /** The position of fraction `p` in a sample. */
  function RankOf(xs: seq<real>, p: real): (x: real)
    requires xs != [] && 0.0 <= p <= 1.0
    ensures Position(xs, x)
  {
    RealFacts.ScaledStep((|xs| - 1) as real, p, 1.0);
    p * (|xs| - 1) as real
  }

  function InterpolateSteps(sorted: seq<real>, index: real): real
    requires Position(sorted, index)
  {
    PositionFloor(sorted, index);
    var lower, upper := index.Floor, Ceiling(index);
    if lower == upper then sorted[lower]
    else sorted[lower] + (sorted[upper] - sorted[lower]) * (index - lower as real)
  }

  /** `sorted` is ascending; linear interpolation between closest ranks at `p * (n - 1)`. */
  function Percentile(sorted: seq<real>, p: real): Result<Option<real>, StatisticsError> {
    if sorted == [] then Success(None)
    else if p < 0.0 || p > 1.0 then Failure(FractionOutOfRange)
    else if |sorted| == 1 then Success(Some(sorted[0]))
    else Success(Some(InterpolateSteps(sorted, RankOf(sorted, p))))
  }

  function Median(values: seq<real>): Option<real> { Percentile(Ordered(values), 0.5).value }

  function InterpolateAlways(a: seq<real>, index: real): real
    requires Position(a, index)
  {
    PositionFloor(a, index);
    var low := index.Floor;
    a[low] + (a[Ceiling(index)] - a[low]) * (index - low as real)
  }

  /** The unchecked quantile of the stress study; its callers pass fractions between 0 and 1. */
  function Quantile(values: seq<real>, p: real): Option<real>
    requires 0.0 <= p <= 1.0
  {
    if values == [] then None else Some(InterpolateAlways(Ordered(values), RankOf(Ordered(values), p)))
  }

  function WeighNeighbours(sorted: seq<real>, index: real): real
    requires Position(sorted, index)
  {
    PositionFloor(sorted, index);
    var lower := index.Floor;
    var fraction := index - lower as real;
    sorted[lower] * (1.0 - fraction) + sorted[Ceiling(index)] * fraction
  }

  /** The percentile of the participation summary, which weighs the two neighbours. */
  function WeighedPercentile(values: seq<real>, p: real): Option<real>
    requires 0.0 <= p <= 1.0
  {
    if values == [] then None else Some(WeighNeighbours(Ordered(values), RankOf(Ordered(values), p)))
  }

  lemma OneInterpolation(sorted: seq<real>, index: real)
    requires Position(sorted, index)
    ensures InterpolateSteps(sorted, index) == InterpolateAlways(sorted, index) == WeighNeighbours(sorted, index)
  {
    PositionFloor(sorted, index);
    RealFacts.Blend(sorted[index.Floor], sorted[Ceiling(index)], index - index.Floor as real);
  }

  /** Three implementations, one interpolation. */
  lemma InterpolationsAgree(values: seq<real>, p: real)
    requires 0.0 <= p <= 1.0
    ensures Percentile(Ordered(values), p) == Success(Quantile(values, p))
    ensures Quantile(values, p) == WeighedPercentile(values, p)
  {
    if values != [] {
      var sorted := Ordered(values);
      OneInterpolation(sorted, RankOf(sorted, p));
      if |sorted| == 1 {
        OnlyValue(sorted, RankOf(sorted, p));
      }
    }
  }

  lemma OnlyValue(xs: seq<real>, x: real)
    requires Position(xs, x) && |xs| == 1
    ensures InterpolateSteps(xs, x) == xs[0]
  {
    PositionFloor(xs, x);
  }

  /** Piecewise-linear reading of an ascending sample at a position between 0 and n - 1. */
  function ReadAt(xs: seq<real>, x: real): real
    requires Position(xs, x)
  {
    var l := x.Floor;
    if l == |xs| - 1 then xs[l] else xs[l] + (xs[l + 1] - xs[l]) * (x - l as real)
  }

  lemma InterpolationReads(xs: seq<real>, x: real)
    requires Position(xs, x)
    ensures InterpolateSteps(xs, x) == ReadAt(xs, x)
  {
    PositionFloor(xs, x);
    var l := x.Floor;
    if x == l as real && l < |xs| - 1 {
      Exact(xs[l], xs[l + 1]);
    }
  }

  lemma Exact(a: real, b: real)
    ensures a + (b - a) * 0.0 == a
  {
  }

  lemma PercentileReads(xs: seq<real>, p: real)
    requires xs != [] && 0.0 <= p <= 1.0
    ensures Percentile(xs, p) == Success(Some(ReadAt(xs, RankOf(xs, p))))
  {
    InterpolationReads(xs, RankOf(xs, p));
    if |xs| == 1 {
      assert RankOf(xs, p).Floor == 0;
    }
  }

  /** `v` lies on the line through the places `k` and `k + 1` on both sides of the position `x`. */
  ghost predicate OnLineAt(xs: seq<real>, x: real, v: real, k: nat)
    requires k < |xs|
  {
    if k + 1 == |xs| then v == xs[k] else v == xs[k] + (xs[k + 1] - xs[k]) * (x - k as real)
  }

  /** `v` is the value of the sample at the position `p * (n - 1)`, read off the line through its neighbours. */
  ghost predicate OnCurve(xs: seq<real>, p: real, v: real)
    requires xs != []
  {
    var x := p * (|xs| - 1) as real;
    forall k: nat | k < |xs| && k as real <= x <= k as real + 1.0 :: OnLineAt(xs, x, v, k)
  }

  lemma ReadingOnLine(xs: seq<real>, x: real, k: nat)
    requires Position(xs, x) && k < |xs| && k as real <= x <= k as real + 1.0
    ensures OnLineAt(xs, x, ReadAt(xs, x), k)
  {
    if x == k as real + 1.0 {
      assert x.Floor == k + 1;
      if k + 2 < |xs| {
        Exact(xs[k + 1], xs[k + 2]);
      }
      assert (xs[k + 1] - xs[k]) * 1.0 == xs[k + 1] - xs[k];
    } else {
      assert x.Floor == k;
    }
  }

  /** Outside [0, 1] there is no percentile; otherwise it is the reading of the curve, and of no sample nothing. */
  lemma PercentileOnCurve(xs: seq<real>, p: real)
    ensures var r := Percentile(xs, p);
            && (r.Failure? <==> xs != [] && !(0.0 <= p <= 1.0)) && (xs == [] ==> r == Success(None))
            && (r.Success? && xs != [] ==> r.value.Some? && OnCurve(xs, p, r.value.value))
  {
    if xs != [] && 0.0 <= p <= 1.0 {
      PercentileReads(xs, p);
      var x := RankOf(xs, p);
      forall k: nat | k < |xs| && k as real <= x <= k as real + 1.0 ensures OnLineAt(xs, x, ReadAt(xs, x), k) {
        ReadingOnLine(xs, x, k);
      }
    }
  }

  /** A reading lies between its two neighbours, and the closer to the upper one the further along it is. */
  lemma ReadWithin(xs: seq<real>, x: real, y: real)
    requires Ascending(xs) && Position(xs, x) && Position(xs, y) && x <= y && x.Floor == y.Floor
    ensures xs[x.Floor] <= ReadAt(xs, x) <= ReadAt(xs, y)
    ensures x.Floor < |xs| - 1 ==> ReadAt(xs, y) <= xs[x.Floor + 1]
  {
    var l := x.Floor;
    if l < |xs| - 1 {
      RealFacts.Between(xs[l], xs[l + 1], x - l as real, y - l as real);
    }
  }

  lemma ReadMonotone(xs: seq<real>, x: real, y: real)
    requires Ascending(xs) && Position(xs, x) && Position(xs, y) && x <= y
    ensures ReadAt(xs, x) <= ReadAt(xs, y)
  {
    if x.Floor == y.Floor {
      ReadWithin(xs, x, y);
    } else {
      ReadWithin(xs, x, x);
      ReadWithin(xs, y, y);
      assert xs[x.Floor + 1] <= xs[y.Floor];
    }
  }

  /** On an ascending sample the percentile grows with its fraction and stays within the sample. */
  lemma PercentileMonotone(xs: seq<real>, p: real, q: real)
    requires xs != [] && Ascending(xs) && 0.0 <= p <= q <= 1.0
    ensures Percentile(xs, p).Success? && Percentile(xs, p).value.Some?
    ensures Percentile(xs, q).Success? && Percentile(xs, q).value.Some?
    ensures xs[0] <= Percentile(xs, p).value.value <= Percentile(xs, q).value.value <= xs[|xs| - 1]
  {
    PercentileReads(xs, p);
    PercentileReads(xs, q);
    RanksAscend(xs, p, q);
    var first, last := 0.0, (|xs| - 1) as real;
    ReadMonotone(xs, first, RankOf(xs, p));
    ReadMonotone(xs, RankOf(xs, p), RankOf(xs, q));
    ReadMonotone(xs, RankOf(xs, q), last);
    assert ReadAt(xs, last) == xs[|xs| - 1];
    ReadFirst(xs);
  }

  lemma ReadFirst(xs: seq<real>)
    requires xs != []
    ensures ReadAt(xs, 0.0) == xs[0]
  {
    if |xs| > 1 {
      Exact(xs[0], xs[1]);
    }
  }

  lemma RankIsProduct(xs: seq<real>, p: real)
    requires xs != [] && 0.0 <= p <= 1.0
    ensures RankOf(xs, p) == RealFacts.Times(p, (|xs| - 1) as real)
  {
  }

  lemma RanksAscend(xs: seq<real>, p: real, q: real)
    requires xs != [] && 0.0 <= p <= q <= 1.0
    ensures RankOf(xs, p) <= RankOf(xs, q)
  {
    RankIsProduct(xs, p);
    RankIsProduct(xs, q);
    RealFacts.ScaledRight((|xs| - 1) as real, p, q);
  }

  // --- Correlation ---

  function Sum(xs: seq<real>): real {
    if xs == [] then 0.0 else Sum(xs[..|xs| - 1]) + xs[|xs| - 1]
  }

  function Mean(xs: seq<real>): Option<real> {
    if xs == [] then None else Some(Sum(xs) / |xs| as real)
  }

  function Deviations(xs: seq<real>, m: real): (d: seq<real>)
    ensures |d| == |xs|
  {
    seq(|xs|, i requires 0 <= i < |xs| => xs[i] - m)
  }

  /** The inner product of the first `n` pairs. */
  function Dot(a: seq<real>, b: seq<real>, n: nat): real
    requires n <= |a| && n <= |b|
  {
    if n == 0 then 0.0 else Dot(a, b, n - 1) + a[n - 1] * b[n - 1]
  }

  ghost predicate IsRoot(root: real -> real) {
    forall v :: v > 0.0 ==> root(v) > 0.0 && root(v) * root(v) == v
  }

  function Correlation(xs: seq<real>, ys: seq<real>, root: real -> real): Option<real>
    requires |xs| == |ys| && IsRoot(root)
  {
    if |xs| < 2 then None
    else
      var a, b, n := Deviations(xs, Mean(xs).value), Deviations(ys, Mean(ys).value), |xs|;
      if Dot(a, a, n) == 0.0 || Dot(b, b, n) == 0.0 then None
      else
        SpreadPositive(a, b);
        Some(Coefficient(Dot(a, b, n), Dot(a, a, n), Dot(b, b, n), root))
  }

  // --- The law of the coefficient, on the values ---

  ghost function Total(n: nat, f: nat -> real): real {
    if n == 0 then 0.0 else Total(n - 1, f) + f(n - 1)
  }

  ghost function Value(xs: seq<real>): nat -> real { (i: nat) => if i < |xs| then xs[i] else 0.0 }

  ghost function Product(xs: seq<real>, ys: seq<real>): nat -> real {
    (i: nat) => if i < |xs| && i < |ys| then xs[i] * ys[i] else 0.0
  }

  /** `m` is the mean: n times it is the total. */
  ghost predicate IsMean(m: real, xs: seq<real>, n: real) { m * n == Total(|xs|, Value(xs)) }

  /** The sum of the products, less the mean of the left side times the total of the right side. */
  ghost function Spread(xs: seq<real>, ys: seq<real>, m: real): real {
    Total(|xs|, Product(xs, ys)) - m * Total(|xs|, Value(ys))
  }

  ghost predicate Constant(xs: seq<real>) { forall i, j | 0 <= i < j < |xs| :: xs[i] == xs[j] }

  /** No coefficient for fewer than two pairs or where one side is constant; otherwise the one whose square times both
      spreads is the square of the common spread, with the sign of that. */
  ghost predicate CorrelationLaw(r: Option<real>, xs: seq<real>, ys: seq<real>) {
    && (r.None? <==> |xs| < 2 || Constant(xs) || Constant(ys))
    && (r.Some? ==> exists mx, my :: IsMean(mx, xs, |xs| as real) && IsMean(my, ys, |xs| as real)
                      && CoefficientLaw(r.value, Spread(xs, ys, mx), Spread(xs, xs, mx), Spread(ys, ys, my)))
  }

  predicate CoefficientLaw(c: real, xy: real, xx: real, yy: real) {
    c * c * (xx * yy) == xy * xy && (c > 0.0 <==> xy > 0.0) && (c < 0.0 <==> xy < 0.0)
  }

  lemma {:induction false} SumIsTotal(xs: seq<real>, n: nat)
    requires n <= |xs|
    ensures Sum(xs[..n]) == Total(n, Value(xs))
  {
    if n > 0 {
      SumIsTotal(xs, n - 1);
      assert xs[..n][..n - 1] == xs[..n - 1];
    }
  }

  /** Deviations of the right side take off its mean times the total of the left side. */
  lemma {:induction false} ShiftRight(a: seq<real>, ys: seq<real>, m: real, n: nat)
    requires n <= |a| == |ys|
    ensures Dot(a, Deviations(ys, m), n) == Total(n, Product(a, ys)) - m * Total(n, Value(a))
  {
    if n > 0 {
      ShiftRight(a, ys, m, n - 1);
      RealFacts.ShiftStep(Dot(a, Deviations(ys, m), n - 1), Total(n - 1, Product(a, ys)), Total(n - 1, Value(a)), m,
                          a[n - 1], ys[n - 1]);
      DotOneMore(a, Deviations(ys, m), n - 1, a[n - 1], ys[n - 1] - m);
    }
  }

  /** And so on the left. */
  lemma {:induction false} ShiftLeft(xs: seq<real>, ys: seq<real>, m: real, n: nat)
    requires n <= |xs| == |ys|
    ensures Total(n, Product(Deviations(xs, m), ys)) == Total(n, Product(xs, ys)) - m * Total(n, Value(ys))
  {
    if n > 0 {
      ShiftLeft(xs, ys, m, n - 1);
      RealFacts.ShiftStep(Total(n - 1, Product(Deviations(xs, m), ys)), Total(n - 1, Product(xs, ys)),
                          Total(n - 1, Value(ys)), m, ys[n - 1], xs[n - 1]);
    }
  }

  lemma {:induction false} DeviationsTotal(xs: seq<real>, m: real, n: nat)
    requires n <= |xs|
    ensures Total(n, Value(Deviations(xs, m))) == Total(n, Value(xs)) - n as real * m
  {
    if n > 0 {
      DeviationsTotal(xs, m, n - 1);
      RealFacts.CountStep(Total(n - 1, Value(xs)), m, (n - 1) as real, xs[n - 1]);
    }
  }

  lemma MeanTimesCount(xs: seq<real>)
    requires xs != []
    ensures IsMean(Mean(xs).value, xs, |xs| as real)
  {
    SumIsTotal(xs, |xs|);
    assert xs[..|xs|] == xs;
    RealFacts.Quotient(Sum(xs), |xs| as real);
  }

  lemma NothingLeft(xs: seq<real>, m: real, n: real)
    requires n == |xs| as real && IsMean(m, xs, n)
    ensures Total(|xs|, Value(Deviations(xs, m))) == 0.0
  {
    DeviationsTotal(xs, m, |xs|);
  }

  /** The accumulators of the loop are the spreads: only the mean of one side has to be taken off. */
  lemma DotIsSpread(xs: seq<real>, ys: seq<real>, mx: real, my: real, n: real)
    requires |xs| == |ys| && n == |xs| as real && IsMean(mx, xs, n)
    ensures Dot(Deviations(xs, mx), Deviations(ys, my), |xs|)
            == Spread(xs, ys, mx)
  {
    NothingLeft(xs, mx, n);
    ShiftNothing(Deviations(xs, mx), ys, my);
    ShiftLeft(xs, ys, mx, |xs|);
  }

  lemma ShiftNothing(a: seq<real>, ys: seq<real>, m: real)
    requires |a| == |ys| && Total(|a|, Value(a)) == 0.0
    ensures Dot(a, Deviations(ys, m), |a|) == Total(|a|, Product(a, ys))
  {
    ShiftRight(a, ys, m, |a|);
    assert m * Total(|a|, Value(a)) == 0.0;
  }

  lemma {:induction false} TotalOfConstant(xs: seq<real>, n: nat)
    requires n <= |xs| && Constant(xs)
    ensures n > 0 ==> Total(n, Value(xs)) == n as real * xs[0]
  {
    if n > 1 {
      TotalOfConstant(xs, n - 1);
    } else if n == 1 {
      assert Total(0, Value(xs)) == 0.0;
    }
  }

  lemma NoSpreadMeansConstant(xs: seq<real>, m: real)
    requires xs != [] && IsMean(m, xs, |xs| as real)
    ensures Dot(Deviations(xs, m), Deviations(xs, m), |xs|) == 0.0 <==> Constant(xs)
  {
    SpreadNonNegative(Deviations(xs, m), |xs|);
    ConstantIsMean(xs, m);
    NoDeviation(xs, m);
  }

  lemma ConstantIsMean(xs: seq<real>, m: real)
    requires xs != [] && IsMean(m, xs, |xs| as real)
    ensures Constant(xs) ==> forall i | 0 <= i < |xs| :: xs[i] == m
  {
    if Constant(xs) {
      TotalOfConstant(xs, |xs|);
      RealFacts.CancelFactor(m, xs[0], |xs| as real);
      assert forall i | 0 < i < |xs| :: xs[0] == xs[i];
    }
  }

  lemma NoDeviation(xs: seq<real>, m: real)
    ensures (forall i | 0 <= i < |xs| :: xs[i] == m) <==> forall i | 0 <= i < |xs| :: Deviations(xs, m)[i] == 0.0
  {
    forall i | 0 <= i < |xs| ensures xs[i] == m <==> Deviations(xs, m)[i] == 0.0 {
    }
  }

  lemma CorrelationIsLawful(xs: seq<real>, ys: seq<real>, root: real -> real)
    requires |xs| == |ys| && IsRoot(root)
    ensures CorrelationLaw(Correlation(xs, ys, root), xs, ys)
  {
    var n := |xs|;
    if n >= 2 {
      var mx, my := Mean(xs).value, Mean(ys).value;
      MeanTimesCount(xs);
      MeanTimesCount(ys);
      NoSpreadMeansConstant(xs, mx);
      NoSpreadMeansConstant(ys, my);
      if Correlation(xs, ys, root).Some? {
        DotsAreLawful(xs, ys, mx, my, root);
      }
    }
  }

  lemma DotsAreLawful(xs: seq<real>, ys: seq<real>, mx: real, my: real, root: real -> real)
    requires |xs| == |ys| > 0 && IsRoot(root) && IsMean(mx, xs, |xs| as real) && IsMean(my, ys, |xs| as real)
    requires Dot(Deviations(xs, mx), Deviations(xs, mx), |xs|) != 0.0
    requires Dot(Deviations(ys, my), Deviations(ys, my), |xs|) != 0.0
    ensures var a, b, n := Deviations(xs, mx), Deviations(ys, my), |xs|;
            && Dot(a, a, n) * Dot(b, b, n) > 0.0
            && CoefficientLaw(Coefficient(Dot(a, b, n), Dot(a, a, n), Dot(b, b, n), root),
                              Spread(xs, ys, mx), Spread(xs, xs, mx), Spread(ys, ys, my))
  {
    var a, b, n := Deviations(xs, mx), Deviations(ys, my), |xs|;
    SpreadPositive(a, b);
    DotIsSpread(xs, ys, mx, my, n as real);
    DotIsSpread(xs, xs, mx, mx, n as real);
    DotIsSpread(ys, ys, my, my, n as real);
    CoefficientIsLawful(Dot(a, b, n), Dot(a, a, n), Dot(b, b, n), root);
  }

  lemma CoefficientIsLawful(sxy: real, sxx: real, syy: real, root: real -> real)
    requires IsRoot(root) && sxx * syy > 0.0
    ensures CoefficientLaw(Coefficient(sxy, sxx, syy, root), sxy, sxx, syy)
  {
    RealFacts.RootedQuotient(sxy, sxx, syy, root(sxx * syy));
  }

  method PearsonCorrelation(xs: seq<real>, ys: seq<real>, root: real -> real)
    returns (r: Result<Option<real>, StatisticsError>)
    requires IsRoot(root)
    ensures |xs| != |ys| ==> r == Failure(UnequalLengths)
    ensures |xs| == |ys| ==> r == Success(Correlation(xs, ys, root))
    ensures r.Success? && r.value.Some? ==> -1.0 <= r.value.value <= 1.0
    ensures |xs| == |ys| ==> r.Success? && CorrelationLaw(r.value, xs, ys)
  {
    if |xs| != |ys| {
      return Failure(UnequalLengths);
    }
    CorrelationIsLawful(xs, ys, root);
    if |xs| < 2 {
      return Success(None);
    }
    var mx, my := Mean(xs).value, Mean(ys).value;
    ghost var a, b := Deviations(xs, mx), Deviations(ys, my);
    var sxy, sxx, syy := Accumulate(xs, ys, mx, my);
    CorrelationBounded(xs, ys, root);
    if sxx == 0.0 || syy == 0.0 {
      return Success(None);
    }
    SpreadPositive(a, b);
    return Success(Some(Coefficient(sxy, sxx, syy, root)));
  }

  lemma DotOneMore(a: seq<real>, b: seq<real>, n: nat, x: real, y: real)
    requires n < |a| && n < |b| && a[n] == x && b[n] == y
    ensures Dot(a, b, n + 1) == Dot(a, b, n) + x * y
  {
  }

  /** The loop: three sums of products of deviations. */
  method Accumulate(xs: seq<real>, ys: seq<real>, mx: real, my: real) returns (sxy: real, sxx: real, syy: real)
    requires |xs| == |ys|
    ensures var a, b := Deviations(xs, mx), Deviations(ys, my);
            sxy == Dot(a, b, |xs|) && sxx == Dot(a, a, |xs|) && syy == Dot(b, b, |xs|)
  {
    ghost var a, b := Deviations(xs, mx), Deviations(ys, my);
    sxy, sxx, syy := 0.0, 0.0, 0.0;
    for i := 0 to |xs|
      invariant sxy == Dot(a, b, i) && sxx == Dot(a, a, i) && syy == Dot(b, b, i)
    {
      var dx, dy := xs[i] - mx, ys[i] - my;
      DotOneMore(a, b, i, dx, dy);
      DotOneMore(a, a, i, dx, dx);
      DotOneMore(b, b, i, dy, dy);
      sxy := sxy + dx * dy;
      sxx := sxx + dx * dx;
      syy := syy + dy * dy;
    }
  }

  /** The squared distance of `b` from `t` times `a`. */
  ghost function Residual(a: seq<real>, b: seq<real>, t: real, n: nat): (q: real)
    requires n <= |a| && n <= |b|
    ensures q >= 0.0
  {
    if n == 0 then 0.0
    else
      var d := b[n - 1] - t * a[n - 1];
      RealFacts.Square(d);
      Residual(a, b, t, n - 1) + RealFacts.SquareOf(d)
  }

  lemma ResidualOneMore(a: seq<real>, b: seq<real>, t: real, n: nat, x: real, y: real)
    requires n < |a| && n < |b| && a[n] == x && b[n] == y
    ensures Residual(a, b, t, n + 1) == Residual(a, b, t, n) + RealFacts.SquareOf(y - t * x)
  {
  }

  lemma {:induction false} ResidualExpands(a: seq<real>, b: seq<real>, t: real, n: nat)
    requires n <= |a| && n <= |b|
    ensures Residual(a, b, t, n) == RealFacts.Quadratic(t, Dot(b, b, n), Dot(a, b, n), Dot(a, a, n))
  {
    if n > 0 {
      ResidualExpands(a, b, t, n - 1);
      var x, y := a[n - 1], b[n - 1];
      var q, q' := Residual(a, b, t, n - 1), Residual(a, b, t, n);
      var syy, syy', sxy, sxy' := Dot(b, b, n - 1), Dot(b, b, n), Dot(a, b, n - 1), Dot(a, b, n);
      var sxx, sxx' := Dot(a, a, n - 1), Dot(a, a, n);
      assert q' == q + RealFacts.SquareOf(y - t * x) by { ResidualOneMore(a, b, t, n - 1, x, y); }
      assert syy' == syy + y * y by { DotOneMore(b, b, n - 1, y, y); }
      assert sxy' == sxy + x * y by { DotOneMore(a, b, n - 1, x, y); }
      assert sxx' == sxx + x * x by { DotOneMore(a, a, n - 1, x, x); }
      RealFacts.QuadraticStep(t, x, y, q, syy, sxy, sxx, q', syy', sxy', sxx');
    }
  }

  lemma {:induction false} ResidualVanishes(a: seq<real>, b: seq<real>, t: real, n: nat)
    requires n <= |a| && n <= |b|
    ensures Residual(a, b, t, n) == 0.0 <==> OnLine(a, b, t, n)
  {
    if n > 0 {
      ResidualVanishes(a, b, t, n - 1);
      RealFacts.Square(b[n - 1] - t * a[n - 1]);
    }
  }

  lemma {:induction false} SpreadNonNegative(a: seq<real>, n: nat)
    requires n <= |a|
    ensures Dot(a, a, n) >= 0.0
    ensures Dot(a, a, n) == 0.0 <==> forall i | 0 <= i < n :: a[i] == 0.0
  {
    if n > 0 {
      SpreadNonNegative(a, n - 1);
      RealFacts.Square(a[n - 1]);
    }
  }

  lemma SpreadPositive(a: seq<real>, b: seq<real>)
    requires Dot(a, a, |a|) != 0.0 && Dot(b, b, |b|) != 0.0
    ensures Dot(a, a, |a|) > 0.0 && Dot(b, b, |b|) > 0.0
    ensures Dot(a, a, |a|) * Dot(b, b, |b|) > 0.0
  {
    SpreadNonNegative(a, |a|);
    SpreadNonNegative(b, |b|);
    RealFacts.Product(Dot(a, a, |a|), Dot(b, b, |b|));
  }

  lemma {:induction false} DotOfZeros(a: seq<real>, b: seq<real>, n: nat)
    requires n <= |a| && n <= |b| && forall i | 0 <= i < n :: a[i] == 0.0
    ensures Dot(a, b, n) == 0.0
  {
    if n > 0 {
      DotOfZeros(a, b, n - 1);
      assert a[n - 1] == 0.0;
    }
  }

  ghost predicate OnLine(a: seq<real>, b: seq<real>, t: real, n: nat)
    requires n <= |a| && n <= |b|
  {
    forall i | 0 <= i < n :: b[i] == t * a[i]
  }

  /** Cauchy and Schwarz for the loop's accumulators, with the case of equality: one line through all pairs. */
  lemma CauchySchwarz(a: seq<real>, b: seq<real>, n: nat)
    requires n <= |a| && n <= |b|
    ensures RealFacts.SquareOf(Dot(a, b, n)) <= Dot(a, a, n) * Dot(b, b, n)
    ensures Dot(a, a, n) > 0.0 ==>
              (RealFacts.SquareOf(Dot(a, b, n)) == Dot(a, a, n) * Dot(b, b, n)
               <==> OnLine(a, b, Dot(a, b, n) / Dot(a, a, n), n))
  {
    var sxy, sxx, syy := Dot(a, b, n), Dot(a, a, n), Dot(b, b, n);
    SpreadNonNegative(a, n);
    if sxx == 0.0 {
      DotOfZeros(a, b, n);
    } else {
      Discriminant(a, b, n, sxy, sxx, syy, sxy / sxx);
    }
  }

  lemma Discriminant(a: seq<real>, b: seq<real>, n: nat, sxy: real, sxx: real, syy: real, t: real)
    requires n <= |a| && n <= |b|
    requires sxy == Dot(a, b, n) && sxx == Dot(a, a, n) && syy == Dot(b, b, n)
    requires sxx > 0.0 && t == sxy / sxx
    ensures RealFacts.SquareOf(sxy) <= sxx * syy
    ensures RealFacts.SquareOf(sxy) == sxx * syy <==> OnLine(a, b, t, n)
  {
    ResidualExpands(a, b, t, n);
    ResidualVanishes(a, b, t, n);
    RealFacts.Quotient(sxy, sxx);
    RealFacts.LeastResidual(sxx, syy, sxy, t, Residual(a, b, t, n));
  }

  lemma CorrelationBounded(xs: seq<real>, ys: seq<real>, root: real -> real)
    requires |xs| == |ys| && IsRoot(root)
    ensures var r := Correlation(xs, ys, root); r.Some? ==> -1.0 <= r.value <= 1.0
  {
    if Correlation(xs, ys, root).Some? {
      var a, b, n := Deviations(xs, Mean(xs).value), Deviations(ys, Mean(ys).value), |xs|;
      SpreadPositive(a, b);
      CauchySchwarz(a, b, n);
      CoefficientBounded(Dot(a, b, n), Dot(a, a, n), Dot(b, b, n), root);
    }
  }

  function Coefficient(sxy: real, sxx: real, syy: real, root: real -> real): real
    requires IsRoot(root) && sxx * syy > 0.0
  {
    sxy / root(sxx * syy)
  }

  lemma CoefficientBounded(sxy: real, sxx: real, syy: real, root: real -> real)
    requires IsRoot(root) && sxx * syy > 0.0 && RealFacts.SquareOf(sxy) <= sxx * syy
    ensures -1.0 <= Coefficient(sxy, sxx, syy, root) <= 1.0
  {
    var v := sxx * syy;
    RealFacts.BoundedBySquares(sxy, v, root(v));
  }
}
