/** Bounded-concurrency map of src/dev/breadth-research-cache.ts: workers share a cursor, each claims an index,
    awaits the task and writes its result in place. A run is any order in which workers take their next step. */
module ConcurrentMap {
  import opened Wrappers

  datatype Worker = Ready | Running(index: nat) | Done
  /** `calls` records the indices handed to the task, in order. */
  datatype State<B> = State(cursor: nat, workers: seq<Worker>, results: seq<Option<B>>, calls: seq<nat>)

  function Least(a: nat, b: nat): nat { if a <= b then a else b }

  function WorkerCount(n: nat, concurrency: int): nat { if concurrency <= 0 then 0 else Least(concurrency, n) }

  function Init<B>(n: nat, concurrency: int): State<B> {
    State(0, seq(WorkerCount(n, concurrency), _ => Ready), seq(n, _ => None), [])
  }

  /** The next step of worker `w`: claim the shared cursor, or store the result it was waiting for. */
  function Step<A, B>(s: State<B>, w: nat, items: seq<A>, f: (A, nat) -> B): State<B>
    requires w < |s.workers| && |s.results| == |items|
    requires s.workers[w].Running? ==> s.workers[w].index < |items|
  {
    match s.workers[w]
    case Ready =>
      if s.cursor >= |items| then s.(cursor := s.cursor + 1, workers := s.workers[w := Done])
      else s.(cursor := s.cursor + 1, workers := s.workers[w := Running(s.cursor)], calls := s.calls + [s.cursor])
    case Running(i) =>
      s.(workers := s.workers[w := Ready], results := s.results[i := Some(f(items[i], i))])
    case Done => s
  }

  // --- What every step keeps ---

  function Claimed<B>(s: State<B>, n: nat): nat { Least(s.cursor, n) }

  ghost predicate Holds<B>(s: State<B>, i: nat) {
    exists w :: 0 <= w < |s.workers| && s.workers[w] == Running(i)
  }

  ghost predicate Inv<A, B>(s: State<B>, items: seq<A>, f: (A, nat) -> B) {
    var n := |items|;
    && |s.results| == n
    && s.calls == seq(Claimed(s, n), i => i)
    && (forall w | 0 <= w < |s.workers| && s.workers[w].Running? ::
          s.workers[w].index < Claimed(s, n) && s.results[s.workers[w].index].None?)
    && (forall v, w | 0 <= v < w < |s.workers| && s.workers[v].Running? :: s.workers[v] != s.workers[w])
    && (forall i | 0 <= i < Claimed(s, n) :: Holds(s, i) || s.results[i] == Some(f(items[i], i)))
    && (forall i | Claimed(s, n) <= i < n :: s.results[i].None?)
    && (forall w | 0 <= w < |s.workers| && s.workers[w].Done? :: s.cursor >= n)
  }

  lemma InitInv<A, B>(items: seq<A>, concurrency: int, f: (A, nat) -> B)
    ensures Inv(Init<B>(|items|, concurrency), items, f)
  {
  }

  lemma ClaimKeepsInv<A, B>(s: State<B>, w: nat, items: seq<A>, f: (A, nat) -> B)
    requires Inv(s, items, f) && w < |s.workers| && s.workers[w].Ready?
    ensures Inv(Step(s, w, items, f), items, f)
  {
    var t, n := Step(s, w, items, f), |items|;
    forall i | 0 <= i < Claimed(t, n) ensures Holds(t, i) || t.results[i] == Some(f(items[i], i)) {
      if i < Claimed(s, n) {
        if Holds(s, i) {
          var v :| 0 <= v < |s.workers| && s.workers[v] == Running(i);
          assert t.workers[v] == Running(i);
        }
      } else {
        assert t.workers[w] == Running(i);
      }
    }
  }

  lemma SettleKeepsInv<A, B>(s: State<B>, w: nat, items: seq<A>, f: (A, nat) -> B)
    requires Inv(s, items, f) && w < |s.workers| && s.workers[w].Running?
    ensures Inv(Step(s, w, items, f), items, f)
  {
    var t, n := Step(s, w, items, f), |items|;
    forall i | 0 <= i < Claimed(t, n) ensures Holds(t, i) || t.results[i] == Some(f(items[i], i)) {
      if i != s.workers[w].index && Holds(s, i) {
        var v :| 0 <= v < |s.workers| && s.workers[v] == Running(i);
        assert t.workers[v] == Running(i);
      }
    }
    forall v | 0 <= v < |t.workers| && t.workers[v].Running?
      ensures t.workers[v].index < Claimed(t, n) && t.results[t.workers[v].index].None? {
      assert s.workers[v] == t.workers[v] && v != w;
    }
  }

  lemma StepKeepsInv<A, B>(s: State<B>, w: nat, items: seq<A>, f: (A, nat) -> B)
    requires Inv(s, items, f) && w < |s.workers|
    ensures Inv(Step(s, w, items, f), items, f)
  {
    match s.workers[w]
    case Ready => ClaimKeepsInv(s, w, items, f);
    case Running(_) => SettleKeepsInv(s, w, items, f);
    case Done =>
  }

  // --- Progress: every step uses up exactly one unit ---

  function Cost(w: Worker): nat {
    match w case Ready => 1 case Running(_) => 2 case Done => 0
  }

  function Load(workers: seq<Worker>): nat {
    if workers == [] then 0 else Load(workers[..|workers| - 1]) + Cost(workers[|workers| - 1])
  }

  function Measure<B>(s: State<B>, n: nat): nat { 2 * (n - Claimed(s, n)) + Load(s.workers) }

  lemma {:induction false} LoadOfUpdate(workers: seq<Worker>, w: nat, x: Worker)
    requires w < |workers|
    ensures Load(workers[w := x]) == Load(workers) - Cost(workers[w]) + Cost(x)
  {
    var k := |workers| - 1;
    if w < k {
      LoadOfUpdate(workers[..k], w, x);
      assert workers[w := x][..k] == workers[..k][w := x];
    } else {
      assert workers[w := x][..k] == workers[..k];
    }
  }

  lemma StepCosts<A, B>(s: State<B>, w: nat, items: seq<A>, f: (A, nat) -> B)
    requires Inv(s, items, f) && w < |s.workers| && !s.workers[w].Done?
    ensures Measure(Step(s, w, items, f), |items|) == Measure(s, |items|) - 1
  {
    LoadOfUpdate(s.workers, w, Step(s, w, items, f).workers[w]);
  }

  lemma {:induction false} LoadOfReady(k: nat)
    ensures Load(seq(k, _ => Ready)) == k
  {
    if k > 0 {
      LoadOfReady(k - 1);
      assert seq(k, _ => Ready)[..k - 1] == seq(k - 1, _ => Ready);
    }
  }

  lemma {:induction false} LoadOfDone(workers: seq<Worker>)
    ensures Load(workers) == 0 <==> forall w | 0 <= w < |workers| :: workers[w].Done?
  {
    if workers != [] {
      LoadOfDone(workers[..|workers| - 1]);
    }
  }

  // --- Whole runs ---

  /** The state after the workers named by `schedule` took their steps in turn; `legal` while each of them had one. */
  function Run<A, B>(schedule: seq<nat>, items: seq<A>, concurrency: int, f: (A, nat) -> B): (r: Option<State<B>>)
    ensures r.Some? ==> |r.value.results| == |items|
    ensures r.Some? ==> Inv(r.value, items, f)
  {
    if schedule == [] then
      InitInv(items, concurrency, f);
      Some(Init(|items|, concurrency))
    else
      var before, w := Run(schedule[..|schedule| - 1], items, concurrency, f), schedule[|schedule| - 1];
      if before.None? || w >= |before.value.workers| || before.value.workers[w].Done? then None
      else
        StepKeepsInv(before.value, w, items, f);
        Some(Step(before.value, w, items, f))
  }

  predicate Finished<B>(s: State<B>) {
    forall w | 0 <= w < |s.workers| :: s.workers[w].Done?
  }

  function Mapped<A, B>(items: seq<A>, f: (A, nat) -> B): seq<Option<B>> {
    seq(|items|, i requires 0 <= i < |items| => Some(f(items[i], i)))
  }

  lemma {:induction false} RunLength<A, B>(schedule: seq<nat>, items: seq<A>, concurrency: int, f: (A, nat) -> B)
    requires Run(schedule, items, concurrency, f).Some?
    ensures var s := Run(schedule, items, concurrency, f).value;
            && |s.workers| == WorkerCount(|items|, concurrency)
            && |schedule| + Measure(s, |items|) == 2 * |items| + WorkerCount(|items|, concurrency)
  {
    if schedule == [] {
      LoadOfReady(WorkerCount(|items|, concurrency));
    } else {
      var init, w := schedule[..|schedule| - 1], schedule[|schedule| - 1];
      RunLength(init, items, concurrency, f);
      StepCosts(Run(init, items, concurrency, f).value, w, items, f);
    }
  }

  /** Safety of every run: the task is called on 0, 1, 2, .. in order, once each; calls in flight never exceed the
      smaller of the concurrency and the number of items; and no run has more than 2 n + workers steps. */
  lemma EveryRunIsSafe<A, B>(schedule: seq<nat>, items: seq<A>, concurrency: int, f: (A, nat) -> B)
    requires Run(schedule, items, concurrency, f).Some?
    ensures var s := Run(schedule, items, concurrency, f).value;
            && s.calls == seq(Claimed(s, |items|), i => i)
            && InFlight(s.workers) <= WorkerCount(|items|, concurrency) <= |items|
            && |schedule| <= 2 * |items| + WorkerCount(|items|, concurrency)
            && (forall i | 0 <= i < |items| :: s.results[i].None? || s.results[i] == Some(f(items[i], i)))
    ensures var s := Run(schedule, items, concurrency, f).value;
            && |s.calls| <= |items| && (forall k | 0 <= k < |s.calls| :: s.calls[k] == k)
            && |set w: nat | w < |s.workers| && s.workers[w].Running?| <= |s.workers|
               == if concurrency <= 0 then 0 else if concurrency <= |items| then concurrency else |items|
  {
    RunLength(schedule, items, concurrency, f);
    var s := Run(schedule, items, concurrency, f).value;
    InFlightBound(s.workers);
    InFlightCardinality(s.workers, |s.workers|);
    assert s.workers[..|s.workers|] == s.workers;
    assert (set w: nat | w < |s.workers| && s.workers[w].Running?) == RunningAmong(s.workers, |s.workers|);
    forall i | 0 <= i < |items| ensures s.results[i].None? || s.results[i] == Some(f(items[i], i)) {
      if i < Claimed(s, |items|) && Holds(s, i) {
        var w :| 0 <= w < |s.workers| && s.workers[w] == Running(i);
      }
    }
  }

  function InFlight(workers: seq<Worker>): nat {
    if workers == [] then 0 else InFlight(workers[..|workers| - 1]) + if workers[|workers| - 1].Running? then 1 else 0
  }

  lemma {:induction false} InFlightBound(workers: seq<Worker>)
    ensures InFlight(workers) <= |workers|
  {
    if workers != [] {
      InFlightBound(workers[..|workers| - 1]);
    }
  }

  ghost function RunningAmong(workers: seq<Worker>, n: nat): set<nat> {
    set w: nat | w < n && w < |workers| && workers[w].Running?
  }

  lemma {:induction false} InFlightCardinality(workers: seq<Worker>, n: nat)
    requires n <= |workers|
    ensures InFlight(workers[..n]) == |RunningAmong(workers, n)|
  {
    if n == 0 {
      assert RunningAmong(workers, 0) == {};
    } else {
      InFlightCardinality(workers, n - 1);
      assert workers[..n][..n - 1] == workers[..n - 1];
      var before := RunningAmong(workers, n - 1);
      assert RunningAmong(workers, n) == if workers[n - 1].Running? then before + {n - 1} else before;
    }
  }

  lemma AllDone<A, B>(s: State<B>, items: seq<A>, f: (A, nat) -> B)
    requires Inv(s, items, f) && |s.workers| > 0 && Finished(s)
    ensures s.results == Mapped(items, f) && Claimed(s, |items|) == |items|
  {
    assert s.workers[0].Done?;
    forall i | 0 <= i < |items| ensures s.results[i] == Some(f(items[i], i)) {
      assert !Holds(s, i);
    }
  }

  /** A run that cannot go on has exactly 2 n + workers steps, and its results are the map, in order, exactly when
      the concurrency is at least one or there is nothing to do. */
  lemma FinishedRunIsMap<A, B>(schedule: seq<nat>, items: seq<A>, concurrency: int, f: (A, nat) -> B)
    requires Run(schedule, items, concurrency, f).Some? && Finished(Run(schedule, items, concurrency, f).value)
    ensures |schedule| == if concurrency <= 0 then 0 else 2 * |items| + Least(concurrency, |items|)
    ensures Run(schedule, items, concurrency, f).value.results == Mapped(items, f)
            <==> concurrency >= 1 || items == []
  {
    FinishedLength(schedule, items, concurrency, f);
    FinishedResults(schedule, items, concurrency, f);
  }

  lemma FinishedLength<A, B>(schedule: seq<nat>, items: seq<A>, concurrency: int, f: (A, nat) -> B)
    requires Run(schedule, items, concurrency, f).Some? && Finished(Run(schedule, items, concurrency, f).value)
    ensures |schedule| == if concurrency <= 0 then 0 else 2 * |items| + Least(concurrency, |items|)
  {
    var s := Run(schedule, items, concurrency, f).value;
    RunLength(schedule, items, concurrency, f);
    LoadOfDone(s.workers);
    if |s.workers| > 0 {
      AllDone(s, items, f);
    } else if concurrency <= 0 {
      WithoutWorkers(schedule, items, concurrency, f);
    }
  }

  lemma FinishedResults<A, B>(schedule: seq<nat>, items: seq<A>, concurrency: int, f: (A, nat) -> B)
    requires Run(schedule, items, concurrency, f).Some? && Finished(Run(schedule, items, concurrency, f).value)
    ensures Run(schedule, items, concurrency, f).value.results == Mapped(items, f)
            <==> concurrency >= 1 || items == []
  {
    var s := Run(schedule, items, concurrency, f).value;
    if concurrency <= 0 {
      WithoutWorkers(schedule, items, concurrency, f);
      assert items != [] ==> Mapped(items, f)[0].Some? && s.results[0].None?;
    } else if items != [] {
      RunLength(schedule, items, concurrency, f);
      AllDone(s, items, f);
    }
    assert items == [] ==> s.results == [] == Mapped(items, f);
  }

  /** Item by item: every result is the task's own value for its item and index, or, without workers, none is filled. */
  lemma FinishedRunFills<A, B>(schedule: seq<nat>, items: seq<A>, concurrency: int, f: (A, nat) -> B)
    requires Run(schedule, items, concurrency, f).Some? && Finished(Run(schedule, items, concurrency, f).value)
    ensures var results := Run(schedule, items, concurrency, f).value.results;
            if concurrency >= 1 then forall i | 0 <= i < |items| :: results[i] == Some(f(items[i], i))
            else forall i | 0 <= i < |items| :: results[i].None?
  {
    if concurrency >= 1 {
      FinishedRunIsMap(schedule, items, concurrency, f);
    } else {
      WithoutWorkers(schedule, items, concurrency, f);
    }
  }

  /** Without workers a run is over at once, and the one result stays unfilled. */
  lemma ZeroConcurrencyFillsNothing(f: (int, nat) -> int)
    ensures var s := Run([], [7], 0, f);
            s.Some? && Finished(s.value) && s.value.results == [None] && s.value.results != Mapped([7], f)
  {
    assert Mapped([7], f)[0].Some?;
  }

  /** No deadlock: a run that is not finished can be continued by some worker. */
  lemma RunsContinue<A, B>(schedule: seq<nat>, items: seq<A>, concurrency: int, f: (A, nat) -> B)
    requires Run(schedule, items, concurrency, f).Some? && !Finished(Run(schedule, items, concurrency, f).value)
    ensures exists w: nat :: Run(schedule + [w], items, concurrency, f).Some?
  {
    var s := Run(schedule, items, concurrency, f).value;
    var w: nat :| w < |s.workers| && !s.workers[w].Done?;
    assert (schedule + [w])[..|schedule|] == schedule;
    assert Run(schedule + [w], items, concurrency, f).Some?;
  }

  lemma WithoutWorkers<A, B>(schedule: seq<nat>, items: seq<A>, concurrency: int, f: (A, nat) -> B)
    requires concurrency <= 0 && Run(schedule, items, concurrency, f).Some?
    ensures schedule == [] && Run(schedule, items, concurrency, f) == Some(Init(|items|, concurrency))
  {
    if schedule != [] {
      RunLength(schedule[..|schedule| - 1], items, concurrency, f);
    }
  }

  // --- The shared cursor and the results array, in place ---

  class WorkerPool<A, B> {
    const items: seq<A>
    const task: (A, nat) -> B
    var cursor: nat
    const workers: array<Worker>
    const results: array<Option<B>>
    ghost var calls: seq<nat>

    ghost function View(): State<B>
      reads this, workers, results
    {
      State(cursor, workers[..], results[..], calls)
    }

    ghost predicate Valid()
      reads this, workers, results
    {
      Inv(View(), items, task)
    }

    constructor (items: seq<A>, concurrency: int, task: (A, nat) -> B)
      ensures this.items == items && this.task == task
      ensures Valid() && View() == Init(|items|, concurrency)
      ensures fresh(workers) && fresh(results)
    {
      this.items := items;
      this.task := task;
      cursor := 0;
      calls := [];
      var ws := new Worker[WorkerCount(|items|, concurrency)](_ => Ready);
      var rs := new Option<B>[|items|](_ => None);
      workers := ws;
      results := rs;
      new;
      assert workers[..] == seq(WorkerCount(|items|, concurrency), _ => Ready);
      assert results[..] == seq(|items|, _ => None);
      InitInv(items, concurrency, task);
    }

    /** One step of one worker. */
    method Advance(w: nat)
      requires Valid() && w < workers.Length && !workers[w].Done?
      modifies this, workers, results
      ensures Valid() && View() == Step(old(View()), w, items, task)
    {
      StepKeepsInv(View(), w, items, task);
      ghost var next := Step(View(), w, items, task);
      match workers[w]
      case Ready =>
        var index := cursor;
        cursor := cursor + 1;
        if index >= |items| {
          workers[w] := Done;
        } else {
          workers[w] := Running(index);
          calls := calls + [index];
        }
        assert View() == next;
      case Running(index) =>
        results[index] := Some(task(items[index], index));
        workers[w] := Ready;
        assert View() == next;
      case Done =>
    }
  }

  /** Runs the pool to the end under an arbitrary scheduler. */
  method MapWithConcurrency<A, B>(items: seq<A>, concurrency: int, task: (A, nat) -> B)
    returns (results: seq<Option<B>>, ghost schedule: seq<nat>)
    ensures Run(schedule, items, concurrency, task).Some?
    ensures results == Mapped(items, task) <==> concurrency >= 1 || items == []
    ensures |results| == |items|
    ensures if concurrency >= 1 then forall i | 0 <= i < |items| :: results[i] == Some(task(items[i], i))
            else forall i | 0 <= i < |items| :: results[i].None?
  {
    var pool := new WorkerPool(items, concurrency, task);
    schedule := [];
    while exists w :: 0 <= w < pool.workers.Length && !pool.workers[w].Done?
      invariant fresh(pool) && fresh(pool.workers) && fresh(pool.results) && pool.items == items && pool.task == task
      invariant pool.Valid() && Run(schedule, items, concurrency, task) == Some(pool.View())
      decreases Measure(pool.View(), |items|)
    {
      var w :| 0 <= w < pool.workers.Length && !pool.workers[w].Done?;
      StepCosts(pool.View(), w, items, task);
      pool.Advance(w);
      assert (schedule + [w])[..|schedule|] == schedule;
      schedule := schedule + [w];
    }
    FinishedRunIsMap(schedule, items, concurrency, task);
    FinishedRunFills(schedule, items, concurrency, task);
    results := pool.results[..];
  }
}
