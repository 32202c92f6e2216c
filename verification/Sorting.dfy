/** The stable `Array.prototype.sort` of the modelled program, as insertion sort over a comparison. */
module Sorting {
  ghost predicate TotalPreorder<T(!new)>(le: (T, T) -> bool) {
    && (forall a, b :: le(a, b) || le(b, a))
    && (forall a, b, c :: le(a, b) && le(b, c) ==> le(a, c))
  }

  ghost predicate Sorted<T>(xs: seq<T>, le: (T, T) -> bool) {
    forall i, j | 0 <= i < j < |xs| :: le(xs[i], xs[j])
  }

  /** Places `x` behind every element that is not after it, so equal elements keep their order. */
  function Insert<T>(xs: seq<T>, x: T, le: (T, T) -> bool): (r: seq<T>)
    ensures |r| == |xs| + 1
  {
    if xs == [] || le(xs[|xs| - 1], x) then xs + [x]
    else Insert(xs[..|xs| - 1], x, le) + [xs[|xs| - 1]]
  }

  function Sort<T>(xs: seq<T>, le: (T, T) -> bool): (r: seq<T>)
    ensures |r| == |xs|
  {
    if xs == [] then [] else Insert(Sort(xs[..|xs| - 1], le), xs[|xs| - 1], le)
  }

  function Take<T>(xs: seq<T>, k: nat): seq<T> {
    if |xs| <= k then xs else xs[..k]
  }

  lemma {:induction false} InsertPermutes<T>(xs: seq<T>, x: T, le: (T, T) -> bool)
    ensures multiset(Insert(xs, x, le)) == multiset(xs) + multiset{x}
  {
    if xs != [] && !le(xs[|xs| - 1], x) {
      InsertPermutes(xs[..|xs| - 1], x, le);
      assert xs == xs[..|xs| - 1] + [xs[|xs| - 1]];
    }
  }

  lemma {:induction false} InsertSorts<T(!new)>(xs: seq<T>, x: T, le: (T, T) -> bool)
    requires TotalPreorder(le) && Sorted(xs, le)
    ensures Sorted(Insert(xs, x, le), le)
  {
    if xs != [] && !le(xs[|xs| - 1], x) {
      var init, last := xs[..|xs| - 1], xs[|xs| - 1];
      InsertSorts(init, x, le);
      InsertPermutes(init, x, le);
      var r := Insert(init, x, le);
      forall i | 0 <= i < |r| ensures le(r[i], last) {
        assert r[i] in multiset(r);
        assert r[i] in init || r[i] == x;
      }
    }
  }

  /** Sorting yields a sorted permutation. */
  lemma {:induction false} SortSorts<T(!new)>(xs: seq<T>, le: (T, T) -> bool)
    requires TotalPreorder(le)
    ensures Sorted(Sort(xs, le), le)
    ensures multiset(Sort(xs, le)) == multiset(xs)
  {
    if xs != [] {
      var init, last := xs[..|xs| - 1], xs[|xs| - 1];
      SortSorts(init, le);
      InsertSorts(Sort(init, le), last, le);
      InsertPermutes(Sort(init, le), last, le);
      assert xs == init + [last];
    }
  }

  lemma {:induction false} SortOfSorted<T>(xs: seq<T>, le: (T, T) -> bool)
    requires Sorted(xs, le)
    ensures Sort(xs, le) == xs
  {
    if xs != [] {
      SortOfSorted(xs[..|xs| - 1], le);
      assert xs == xs[..|xs| - 1] + [xs[|xs| - 1]];
    }
  }

  lemma SortKeepsMembers<T(!new)>(xs: seq<T>, le: (T, T) -> bool)
    requires TotalPreorder(le)
    ensures forall x :: x in xs <==> x in Sort(xs, le)
  {
    SortSorts(xs, le);
    forall x ensures x in xs <==> x in Sort(xs, le) {
      assert x in xs <==> x in multiset(xs);
      assert x in Sort(xs, le) <==> x in multiset(Sort(xs, le));
    }
  }

  ghost predicate DistinctKeys<T, K>(xs: seq<T>, key: T -> K) {
    forall i, j | 0 <= i < j < |xs| :: key(xs[i]) != key(xs[j])
  }

  lemma {:induction false} SortKeepsDistinct<T, K>(xs: seq<T>, le: (T, T) -> bool, key: T -> K)
    requires DistinctKeys(xs, key)
    ensures DistinctKeys(Sort(xs, le), key)
    ensures multiset(Sort(xs, le)) == multiset(xs)
  {
    if xs != [] {
      var init, last := xs[..|xs| - 1], xs[|xs| - 1];
      SortKeepsDistinct(init, le, key);
      var sorted := Sort(init, le);
      forall i | 0 <= i < |sorted| ensures key(sorted[i]) != key(last) {
        assert sorted[i] in multiset(sorted);
        assert sorted[i] in init;
      }
      InsertKeepsDistinct(sorted, last, le, key);
      InsertPermutes(sorted, last, le);
      assert xs == init + [last];
    }
  }

  lemma {:induction false} InsertKeepsDistinct<T, K>(xs: seq<T>, x: T, le: (T, T) -> bool, key: T -> K)
    requires DistinctKeys(xs, key) && forall i | 0 <= i < |xs| :: key(xs[i]) != key(x)
    ensures DistinctKeys(Insert(xs, x, le), key)
  {
    if xs != [] && !le(xs[|xs| - 1], x) {
      var init := xs[..|xs| - 1];
      InsertKeepsDistinct(init, x, le, key);
      InsertPermutes(init, x, le);
      var r := Insert(init, x, le);
      forall i | 0 <= i < |r| ensures key(r[i]) != key(xs[|xs| - 1]) {
        assert r[i] in multiset(r);
        assert r[i] in init || r[i] == x;
      }
    }
  }

  /** Truncating before an insertion loses nothing that a truncation afterwards would keep. */
  lemma {:induction false} TakeInsertTake<T(!new)>(xs: seq<T>, x: T, le: (T, T) -> bool, k: nat)
    requires TotalPreorder(le) && Sorted(xs, le)
    ensures Take(Insert(Take(xs, k), x, le), k) == Take(Insert(xs, x, le), k)
  {
    if |xs| > k {
      var init, last := xs[..|xs| - 1], xs[|xs| - 1];
      assert Take(init, k) == Take(xs, k);
      if le(last, x) {
        var kept := xs[..k];
        if k > 0 {
          assert le(kept[k - 1], last);
        }
        assert Insert(kept, x, le) == kept + [x];
      } else {
        TakeInsertTake(init, x, le, k);
      }
    }
  }
}
