/** The asymmetric recovery of src/dev/intraday-stress-calculation.ts: a severity rises at once and falls one
    level after `k` consecutive confirmations; an unavailable reading breaks the confirmation. */
module StressRecovery {
  import opened Wrappers

  type Reading = Option<int>

  /** The two variables of the loop: the effective level, unset before the first reading, and the count. */
  datatype Machine = Machine(level: Option<int>, count: nat)

  const START := Machine(None, 0)

  function Step(m: Machine, value: Reading, k: nat): Machine {
    match value
    case None => m.(count := 0)
    case Some(v) =>
      if m.level.None? || v > m.level.value then Machine(Some(v), 0)
      else if v == m.level.value then m.(count := 0)
      else if m.count + 1 >= k then Machine(Some(m.level.value - 1), 0)
      else m.(count := m.count + 1)
  }

  function After(raw: seq<Reading>, k: nat): Machine {
    if raw == [] then START else Step(After(raw[..|raw| - 1], k), raw[|raw| - 1], k)
  }

  function Level(raw: seq<Reading>, k: nat, i: nat): Reading
    requires i < |raw|
  {
    if raw[i].None? then None else After(raw[..i + 1], k).level
  }

  function Recovered(raw: seq<Reading>, k: nat): (r: seq<Reading>)
    ensures |r| == |raw|
  {
    seq(|raw|, i requires 0 <= i < |raw| => Level(raw, k, i))
  }

  // --- Monotonicity: two runs of the machine, coupled ---

  /** Same gaps, and nowhere a higher reading on the left. */
  ghost predicate Below(a: seq<Reading>, b: seq<Reading>) {
    && |a| == |b|
    && forall i | 0 <= i < |a| :: (a[i].None? <==> b[i].None?) && (a[i].Some? ==> a[i].value <= b[i].value)
  }

  ghost predicate Coupled(a: Machine, b: Machine) {
    || (a.level.None? && b.level.None?)
    || (a.level.Some? && b.level.Some? && a.level.value <= b.level.value
        && (a.level == b.level ==> a.count >= b.count))
  }

  lemma {:induction false} RunsStayCoupled(a: seq<Reading>, b: seq<Reading>, k: nat, m: nat)
    requires Below(a, b) && k <= m
    ensures Coupled(After(a, k), After(b, m))
  {
    if a != [] {
      RunsStayCoupled(a[..|a| - 1], b[..|b| - 1], k, m);
    }
  }

  /** Lower readings and fewer confirmations never give a higher level, at any position. */
  lemma RecoverMonotone(a: seq<Reading>, b: seq<Reading>, k: nat, m: nat)
    requires Below(a, b) && k <= m
    ensures Below(Recovered(a, k), Recovered(b, m))
  {
    forall i | 0 <= i < |a| && a[i].Some? ensures Level(a, k, i).Some? && Level(b, m, i).Some?
                                                  && Level(a, k, i).value <= Level(b, m, i).value {
      AfterReading(a, k, i);
      AfterReading(b, m, i);
      RunsStayCoupled(a[..i + 1], b[..i + 1], k, m);
    }
  }

  lemma AfterReading(raw: seq<Reading>, k: nat, i: nat)
    requires i < |raw|
    ensures After(raw[..i + 1], k) == Step(After(raw[..i], k), raw[i], k)
  {
    assert raw[..i + 1][..i] == raw[..i];
  }

  // --- Bounds: the level lies between the reading and the running maximum ---

  ghost predicate Reached(raw: seq<Reading>, level: int) {
    exists j :: 0 <= j < |raw| && raw[j].Some? && level <= raw[j].value
  }

  lemma {:induction false} LevelWasReached(raw: seq<Reading>, k: nat)
    ensures var m := After(raw, k); m.level.Some? ==> Reached(raw, m.level.value)
  {
    if raw != [] {
      var n := |raw| - 1;
      LevelWasReached(raw[..n], k);
      var before, m := After(raw[..n], k), After(raw, k);
      if m.level.Some? {
        if raw[n].Some? && raw[n].value >= m.level.value {
        } else {
          var j :| 0 <= j < n && raw[..n][j].Some? && before.level.value <= raw[..n][j].value;
          assert raw[j].Some? && m.level.value <= raw[j].value;
        }
      }
    }
  }

  /** Unavailable exactly when the reading is; otherwise at least the reading, and at most a reading so far. */
  lemma RecoverBounds(raw: seq<Reading>, k: nat, i: nat)
    requires i < |raw|
    ensures var out := Recovered(raw, k)[i];
            && (out.None? <==> raw[i].None?)
            && (out.Some? ==> raw[i].value <= out.value && Reached(raw[..i + 1], out.value))
  {
    AfterReading(raw, k, i);
    LevelWasReached(raw[..i + 1], k);
  }

  // --- Falls: exactly one level, exactly after k confirmations ---

  /** Readings `p..q` are all available and strictly below the level the machine holds throughout. */
  ghost predicate HeldAbove(raw: seq<Reading>, k: nat, p: nat, q: nat, e: int)
    requires p <= q <= |raw|
  {
    forall j | p <= j < q :: raw[j].Some? && raw[j].value < e && After(raw[..j], k).level == Some(e)
  }

  lemma {:induction false} CountedReadings(raw: seq<Reading>, k: nat, n: nat)
    requires n <= |raw|
    ensures var m := After(raw[..n], k);
            && m.count <= n && (m.level.None? ==> m.count == 0) && (m.count > 0 ==> m.count < k)
            && (m.level.Some? ==> HeldAbove(raw, k, n - m.count, n, m.level.value))
  {
    if n > 0 {
      CountedReadings(raw, k, n - 1);
      AfterReading(raw, k, n - 1);
    } else {
      assert raw[..0] == [];
    }
  }

  /** A level that falls at `i` falls by exactly one, and the last `k` readings confirmed it. */
  lemma FallsAreConfirmed(raw: seq<Reading>, k: nat, i: nat)
    requires i < |raw| && k >= 1
    requires After(raw[..i], k).level.Some? && raw[i].Some?
    requires Level(raw, k, i).Some? && Level(raw, k, i).value < After(raw[..i], k).level.value
    ensures var e := After(raw[..i], k).level.value;
            && Level(raw, k, i) == Some(e - 1)
            && i + 1 >= k && HeldAbove(raw, k, i + 1 - k, i + 1, e)
  {
    AfterReading(raw, k, i);
    CountedReadings(raw, k, i);
  }

  /** `k` per level still to fall, less the confirmations already counted. */
  ghost function Remaining(m: Machine, k: nat, v: int): int
    requires m.level.Some?
  {
    (m.level.value - v) * k - m.count
  }

  lemma Levels(d: int, k: nat)
    ensures (d - 1) * k == d * k - k
    ensures d >= 1 ==> d * k >= k
  {
    if d >= 1 {
      assert (d - 1) * k >= 0;
    }
  }

  lemma RecoveryStep(m: Machine, reading: int, k: nat, v: int)
    requires m.level.Some? && m.level.value >= v >= reading && m.count < k
    requires Remaining(m, k, v) > 0
    ensures var m' := Step(m, Some(reading), k);
            m'.level.Some? && m'.level.value >= v && Remaining(m', k, v) == Remaining(m, k, v) - 1
  {
    Levels(m.level.value - v, k);
    assert m.level.value != v;
  }

  /** While every reading is at most `v`, below the level, each reading uses up exactly one unit. */
  lemma {:induction false} RecoveryRate(raw: seq<Reading>, k: nat, p: nat, q: nat, v: int)
    requires p <= q <= |raw| && k >= 1
    requires After(raw[..p], k).level.Some? && After(raw[..p], k).level.value >= v
    requires forall j | p <= j < q :: raw[j].Some? && raw[j].value <= v
    requires q - p <= Remaining(After(raw[..p], k), k, v)
    ensures After(raw[..q], k).level.Some? && After(raw[..q], k).level.value >= v
    ensures Remaining(After(raw[..q], k), k, v) == Remaining(After(raw[..p], k), k, v) - (q - p)
    decreases q - p
  {
    if q > p {
      RecoveryRate(raw, k, p, q - 1, v);
      AfterReading(raw, k, q - 1);
      CountedReadings(raw, k, q - 1);
      RecoveryStep(After(raw[..q - 1], k), raw[q - 1].value, k, v);
    }
  }

  lemma {:induction false} CalmReadingsKeepLow(raw: seq<Reading>, k: nat, p: nat, q: nat, v: int)
    requires p <= q <= |raw|
    requires After(raw[..p], k).level.Some? && After(raw[..p], k).level.value <= v
    requires forall j | p <= j < q :: raw[j].Some? && raw[j].value <= v
    ensures var m := After(raw[..q], k); m.level.Some? && m.level.value <= v
    decreases q - p
  {
    if q > p {
      CalmReadingsKeepLow(raw, k, p, q - 1, v);
      AfterReading(raw, k, q - 1);
    }
  }

  /** From level `e`, `(e - v) * k` consecutive readings of at most `v` bring the level to at most `v`. */
  lemma LevelCompletes(raw: seq<Reading>, k: nat, p: nat, q: nat, v: int)
    requires p <= q <= |raw| && k >= 1
    requires After(raw[..p], k).level.Some?
    requires forall j | p <= j < q :: raw[j].Some? && raw[j].value <= v
    requires q - p >= (After(raw[..p], k).level.value - v) * k
    ensures var m := After(raw[..q], k); m.level.Some? && m.level.value <= v
  {
    var m := After(raw[..p], k);
    if m.level.value > v {
      CountedReadings(raw, k, p);
      Levels(m.level.value - v, k);
      var mid := p + Remaining(m, k, v);
      RecoveryRate(raw, k, p, mid, v);
      NothingRemains(After(raw[..mid], k), k, v) by { CountedReadings(raw, k, mid); }
      CalmReadingsKeepLow(raw, k, mid, q, v);
    } else {
      CalmReadingsKeepLow(raw, k, p, q, v);
    }
  }

  lemma NothingRemains(m: Machine, k: nat, v: int)
    requires m.level.Some? && m.level.value >= v && m.count < k && Remaining(m, k, v) <= 0
    ensures m.level.value == v
  {
    Levels(m.level.value - v, k);
  }

  /** The level falls no sooner: fewer readings leave it strictly above `v`. */
  lemma LevelNoSooner(raw: seq<Reading>, k: nat, p: nat, q: nat, v: int)
    requires p <= q <= |raw| && k >= 1
    requires After(raw[..p], k).level.Some? && After(raw[..p], k).level.value > v
    requires forall j | p <= j < q :: raw[j].Some? && raw[j].value <= v
    requires q - p < Remaining(After(raw[..p], k), k, v)
    ensures var m := After(raw[..q], k); m.level.Some? && m.level.value > v
  {
    RecoveryRate(raw, k, p, q, v);
    SomethingRemains(After(raw[..q], k), k, v);
  }

  lemma SomethingRemains(m: Machine, k: nat, v: int)
    requires m.level.Some? && m.level.value >= v && Remaining(m, k, v) > 0
    ensures m.level.value > v
  {
    assert (m.level.value - v) * k > 0;
  }

  // --- The law of the outputs, on readings and outputs alone ---

  /** The last available output before position `i`. */
  function LastOutput(raw: seq<Reading>, out: seq<Reading>, i: nat): Reading
    requires i <= |raw| == |out|
  {
    if i == 0 then None else if raw[i - 1].Some? then out[i - 1] else LastOutput(raw, out, i - 1)
  }

  /** The latest `k` readings are available and below `e`; `e` was the output before the first of them, and it was
      emitted at each of them before `i`. */
  ghost predicate Confirmed(raw: seq<Reading>, out: seq<Reading>, k: nat, i: nat, e: int)
    requires i < |raw| == |out|
  {
    && 1 <= k <= i + 1 && LastOutput(raw, out, i + 1 - k) == Some(e)
    && (forall j | i - k < j <= i :: raw[j].Some? && raw[j].value < e)
    && (forall j | i - k < j < i :: out[j] == Some(e))
  }

  /** What the output at `i` must be, given the outputs before it. */
  ghost predicate LawAt(raw: seq<Reading>, out: seq<Reading>, k: nat, i: nat)
    requires i < |raw| == |out|
  {
    if raw[i].None? then out[i].None?
    else
      var last := LastOutput(raw, out, i);
      if last.None? || raw[i].value >= last.value then out[i] == raw[i]
      else out[i] == Some(if Confirmed(raw, out, k, i, last.value) then last.value - 1 else last.value)
  }

  /** An unavailable reading has no output. The first available reading, and any reading not below the last output, is
      emitted at once. Otherwise the last output is repeated, or lowered by one exactly when that is confirmed. */
  ghost predicate Lawful(raw: seq<Reading>, out: seq<Reading>, k: nat) {
    |out| == |raw| && forall i: nat {:trigger LawAt(raw, out, k, i)} | i < |raw| :: LawAt(raw, out, k, i)
  }

  lemma {:induction false} LastOutputIsLevel(raw: seq<Reading>, k: nat, i: nat)
    requires i <= |raw|
    ensures LastOutput(raw, Recovered(raw, k), i) == After(raw[..i], k).level
  {
    if i > 0 {
      AfterReading(raw, k, i - 1);
      LastOutputIsLevel(raw, k, i - 1);
    } else {
      assert raw[..0] == [];
    }
  }

  /** Readings below a level that is held throughout have all been counted. */
  lemma {:induction false} HeldReadingsCount(raw: seq<Reading>, k: nat, p: nat, q: nat, e: int)
    requires p <= q <= |raw| && HeldAbove(raw, k, p, q, e) && After(raw[..q], k).level == Some(e)
    ensures After(raw[..q], k).count >= q - p
    decreases q
  {
    if q > p {
      AfterReading(raw, k, q - 1);
      HeldReadingsCount(raw, k, p, q - 1, e);
    }
  }

  lemma ConfirmedMeansHeld(raw: seq<Reading>, k: nat, i: nat, e: int)
    requires i < |raw| && After(raw[..i], k).level == Some(e) && Confirmed(raw, Recovered(raw, k), k, i, e)
    ensures HeldAbove(raw, k, i + 1 - k, i, e)
  {
    var out, p := Recovered(raw, k), i + 1 - k;
    LastOutputIsLevel(raw, k, p);
    forall j | p <= j < i ensures raw[j].Some? && raw[j].value < e && After(raw[..j], k).level == Some(e) {
      if j > p {
        assert out[j - 1] == Some(e) && out[j - 1] == Level(raw, k, j - 1);
      }
    }
  }

  lemma HeldMeansConfirmed(raw: seq<Reading>, k: nat, i: nat, e: int)
    requires i < |raw| && 1 <= k <= i + 1 && HeldAbove(raw, k, i + 1 - k, i, e)
    requires After(raw[..i], k).level == Some(e) && raw[i].Some? && raw[i].value < e
    ensures Confirmed(raw, Recovered(raw, k), k, i, e)
  {
    var out, p := Recovered(raw, k), i + 1 - k;
    LastOutputIsLevel(raw, k, p);
    forall j | p <= j < i ensures out[j] == Some(e) {
      assert After(raw[..j + 1], k).level == Some(e);
    }
  }

  lemma OutputIsLawful(raw: seq<Reading>, k: nat, i: nat)
    requires k >= 1 && i < |raw|
    ensures LawAt(raw, Recovered(raw, k), k, i)
  {
    LastOutputIsLevel(raw, k, i);
    AfterReading(raw, k, i);
    CountedReadings(raw, k, i);
    var m := After(raw[..i], k);
    if raw[i].Some? && m.level.Some? && raw[i].value < m.level.value {
      var e := m.level.value;
      if Confirmed(raw, Recovered(raw, k), k, i, e) {
        ConfirmedMeansHeld(raw, k, i, e);
        HeldReadingsCount(raw, k, i + 1 - k, i, e);
      }
      if m.count + 1 >= k {
        HeldMeansConfirmed(raw, k, i, e);
      }
    }
  }

  /** The outputs obey the law, and nothing else does. */
  lemma RecoveredIsLawful(raw: seq<Reading>, k: nat)
    requires k >= 1
    ensures Lawful(raw, Recovered(raw, k), k)
  {
    forall i: nat | i < |raw| ensures LawAt(raw, Recovered(raw, k), k, i) {
      OutputIsLawful(raw, k, i);
    }
  }

  lemma {:induction false} SameLastOutput(raw: seq<Reading>, a: seq<Reading>, b: seq<Reading>, i: nat)
    requires i <= |raw| == |a| == |b| && forall j | 0 <= j < i :: a[j] == b[j]
    ensures LastOutput(raw, a, i) == LastOutput(raw, b, i)
  {
    if i > 0 {
      SameLastOutput(raw, a, b, i - 1);
    }
  }

  lemma {:induction false} LawfulOnce(raw: seq<Reading>, a: seq<Reading>, b: seq<Reading>, k: nat, n: nat)
    requires Lawful(raw, a, k) && Lawful(raw, b, k) && n <= |raw|
    ensures a[..n] == b[..n]
  {
    if n > 0 {
      var i := n - 1;
      LawfulOnce(raw, a, b, k, i);
      assert forall j | 0 <= j < i :: a[j] == a[..i][j] && b[j] == b[..i][j];
      SameLastOutput(raw, a, b, i);
      assert LawAt(raw, a, k, i) && LawAt(raw, b, k, i);
      if 1 <= k <= i + 1 {
        SameLastOutput(raw, a, b, i + 1 - k);
      }
      assert a[i] == b[i];
    }
  }

  method Recover(raw: seq<Reading>, confirmations: nat) returns (out: seq<Reading>)
    ensures out == Recovered(raw, confirmations)
    ensures confirmations >= 1 ==> Lawful(raw, out, confirmations)
  {
    var effective: Option<int>, count := None, 0;
    out := [];
    for i := 0 to |raw|
      invariant Machine(effective, count) == After(raw[..i], confirmations)
      invariant out == Recovered(raw, confirmations)[..i]
    {
      var value := raw[i];
      assert raw[..i + 1][..i] == raw[..i];
      if value.None? {
        count := 0;
        out := out + [None];
      } else {
        if effective.None? || value.value > effective.value {
          effective, count := value, 0;
        } else if value == effective {
          count := 0;
        } else {
          count := count + 1;
          if count >= confirmations {
            effective, count := Some(effective.value - 1), 0;
          }
        }
        out := out + [effective];
      }
    }
    if confirmations >= 1 {
      RecoveredIsLawful(raw, confirmations);
    }
  }

  /** From output `e`, `(e - v) * k` consecutive available readings of at most `v` bring the output to at most `v`. */
  lemma RecoveryCompletes(raw: seq<Reading>, k: nat, p: nat, i: nat, v: int)
    requires k >= 1 && p <= i < |raw| && LastOutput(raw, Recovered(raw, k), p).Some?
    requires forall j | p <= j <= i :: raw[j].Some? && raw[j].value <= v
    requires i + 1 - p >= (LastOutput(raw, Recovered(raw, k), p).value - v) * k
    ensures Recovered(raw, k)[i].Some? && Recovered(raw, k)[i].value <= v
  {
    LastOutputIsLevel(raw, k, p);
    LevelCompletes(raw, k, p, i + 1, v);
  }

  /** No confirmation is under way at `p`: the reading before was unavailable, or was itself the output. */
  predicate Unconfirmed(raw: seq<Reading>, out: seq<Reading>, p: nat)
    requires p <= |raw| == |out|
  {
    p == 0 || raw[p - 1].None? || raw[p - 1] == out[p - 1]
  }

  lemma UnconfirmedMeansNoCount(raw: seq<Reading>, k: nat, p: nat)
    requires p <= |raw| && Unconfirmed(raw, Recovered(raw, k), p)
    ensures After(raw[..p], k).count == 0
  {
    if p > 0 {
      AfterReading(raw, k, p - 1);
    } else {
      assert raw[..0] == [];
    }
  }

  /** And fewer readings do not, when no confirmation was under way before them. */
  lemma RecoveryNoSooner(raw: seq<Reading>, k: nat, p: nat, i: nat, v: int)
    requires k >= 1 && p <= i < |raw| && Unconfirmed(raw, Recovered(raw, k), p)
    requires LastOutput(raw, Recovered(raw, k), p).Some? && LastOutput(raw, Recovered(raw, k), p).value > v
    requires forall j | p <= j <= i :: raw[j].Some? && raw[j].value <= v
    requires i + 1 - p < (LastOutput(raw, Recovered(raw, k), p).value - v) * k
    ensures Recovered(raw, k)[i].Some? && Recovered(raw, k)[i].value > v
  {
    LastOutputIsLevel(raw, k, p);
    UnconfirmedMeansNoCount(raw, k, p);
    LevelNoSooner(raw, k, p, i + 1, v);
  }
}
