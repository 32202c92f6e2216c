/** Cached fetches run by the bounded pool, src/dev/breadth-research-runner.ts: workers share one disk, read it when
    they claim a date and write it when the fetch is done, with steps of other workers in between. */
module ResearchRun {
  import opened Wrappers
  import Pool = ConcurrentMap
  import ResearchCache

  type Date = int
  type Entry<T> = Result<T, string>
  type Disk<T> = map<Date, Entry<T>>

  /** What a run is asked to do; `fetcher` is what the provider says to each attempt for a date. */
  datatype Job<!T> = Job(dates: seq<Date>, fetcher: Date -> ResearchCache.Fetcher<T>, retries: int, refresh: bool)

  /** `pending` is what the claiming worker read from the disk; `fetched` the dates asked for, in order. */
  datatype State<T> = State(pool: Pool.State<Entry<T>>, pending: map<nat, Option<Entry<T>>>, disk: Disk<T>,
                            fetched: seq<Date>)

  function Fetched<T>(job: Job<T>, date: Date): Entry<T> {
    ResearchCache.Attempts(job.fetcher(date), job.retries)
  }

  /** A date that is not answered from the disk. */
  predicate Missed<T>(job: Job<T>, disk: Disk<T>, date: Date) { job.refresh || date !in disk }

  function Lookup<T>(job: Job<T>, disk: Disk<T>, date: Date): Option<Entry<T>> {
    if Missed(job, disk, date) then None else Some(disk[date])
  }

  /** The answer that the disk at the start determines. */
  function AnswerFrom<T>(job: Job<T>, disk: Disk<T>, date: Date): Entry<T> {
    if Missed(job, disk, date) then Fetched(job, date) else disk[date]
  }

  function TaskOf<T>(job: Job<T>, disk: Disk<T>): (Date, nat) -> Entry<T> { (date, _) => AnswerFrom(job, disk, date) }

  function Start<T>(job: Job<T>, concurrency: int, disk: Disk<T>): State<T> {
    State(Pool.Init(|job.dates|, concurrency), map[], disk, [])
  }

  predicate CanStep<T>(s: State<T>, w: nat, job: Job<T>) {
    && w < |s.pool.workers| && !s.pool.workers[w].Done? && |s.pool.results| == |job.dates|
    && (s.pool.workers[w].Running? ==> s.pool.workers[w].index < |job.dates| && s.pool.workers[w].index in s.pending)
  }

  /** A claiming worker reads the disk; a running one answers from what it read, or fetches and writes. */
  function Step<T>(s: State<T>, w: nat, job: Job<T>): State<T>
    requires CanStep(s, w, job)
  {
    var p := s.pool;
    match p.workers[w]
    case Ready =>
      if p.cursor >= |job.dates| then s.(pool := p.(cursor := p.cursor + 1, workers := p.workers[w := Pool.Done]))
      else s.(pool := p.(cursor := p.cursor + 1, workers := p.workers[w := Pool.Running(p.cursor)],
                         calls := p.calls + [p.cursor]),
              pending := s.pending[p.cursor := Lookup(job, s.disk, job.dates[p.cursor])])
    case Running(i) =>
      var date := job.dates[i];
      var answer := if s.pending[i].Some? then s.pending[i].value else Fetched(job, date);
      var settled := s.(pool := p.(workers := p.workers[w := Pool.Ready], results := p.results[i := Some(answer)]));
      if s.pending[i].Some? then settled
      else settled.(disk := s.disk[date := answer], fetched := s.fetched + [date])
    case Done => s
  }

  // --- What every step keeps ---

  ghost predicate Distinct(dates: seq<Date>) { forall i, j | 0 <= i < j < |dates| :: dates[i] != dates[j] }

  /** The disk holds the answer of every settled date, and is otherwise as at the start. */
  ghost predicate DiskOf<T>(s: State<T>, job: Job<T>, before: Disk<T>)
    requires |s.pool.results| == |job.dates|
  {
    && (forall i {:trigger s.pool.results[i]} | 0 <= i < |job.dates| ::
          if s.pool.results[i].Some?
          then job.dates[i] in s.disk && s.disk[job.dates[i]] == AnswerFrom(job, before, job.dates[i])
          else (job.dates[i] in s.disk <==> job.dates[i] in before)
               && (job.dates[i] in before ==> s.disk[job.dates[i]] == before[job.dates[i]]))
    && (forall d | d !in job.dates :: (d in s.disk <==> d in before) && (d in before ==> s.disk[d] == before[d]))
  }

  ghost predicate PendingOf<T>(s: State<T>, job: Job<T>, before: Disk<T>) {
    forall w | 0 <= w < |s.pool.workers| && s.pool.workers[w].Running? ::
      var i := s.pool.workers[w].index;
      i < |job.dates| && i in s.pending && s.pending[i] == Lookup(job, before, job.dates[i])
  }

  /** Asked for exactly the settled dates that the disk did not answer, each once. */
  ghost predicate FetchedOf<T>(s: State<T>, job: Job<T>, before: Disk<T>)
    requires |s.pool.results| == |job.dates|
  {
    && Distinct(s.fetched)
    && (forall d | d in s.fetched :: d in job.dates)
    && forall i {:trigger s.pool.results[i]} | 0 <= i < |job.dates| ::
         job.dates[i] in s.fetched <==> s.pool.results[i].Some? && Missed(job, before, job.dates[i])
  }

  ghost predicate Inv<T>(s: State<T>, job: Job<T>, before: Disk<T>) {
    && Pool.Inv(s.pool, job.dates, TaskOf(job, before))
    && PendingOf(s, job, before) && DiskOf(s, job, before) && FetchedOf(s, job, before)
  }

  lemma StartKeeps<T>(job: Job<T>, concurrency: int, disk: Disk<T>)
    ensures Inv(Start(job, concurrency, disk), job, disk)
  {
    Pool.InitInv(job.dates, concurrency, TaskOf(job, disk));
  }

  /** The pool cannot tell the shared disk from a task that only looks at the disk of the start. */
  lemma StepRefines<T>(s: State<T>, w: nat, job: Job<T>, before: Disk<T>)
    requires Inv(s, job, before) && w < |s.pool.workers| && !s.pool.workers[w].Done?
    ensures CanStep(s, w, job)
    ensures Step(s, w, job).pool == Pool.Step(s.pool, w, job.dates, TaskOf(job, before))
    ensures Pool.Inv(Step(s, w, job).pool, job.dates, TaskOf(job, before))
  {
    Pool.StepKeepsInv(s.pool, w, job.dates, TaskOf(job, before));
  }

  lemma ClaimKeeps<T>(s: State<T>, w: nat, job: Job<T>, before: Disk<T>)
    requires Distinct(job.dates) && Inv(s, job, before) && w < |s.pool.workers| && s.pool.workers[w].Ready?
    ensures CanStep(s, w, job) && Inv(Step(s, w, job), job, before)
  {
    StepRefines(s, w, job, before);
    var t, n := Step(s, w, job), s.pool.cursor;
    if n < |job.dates| {
      assert s.pool.results[n].None?;
      assert Lookup(job, s.disk, job.dates[n]) == Lookup(job, before, job.dates[n]);
      forall v | 0 <= v < |t.pool.workers| && t.pool.workers[v].Running?
        ensures var i := t.pool.workers[v].index;
                i < |job.dates| && i in t.pending && t.pending[i] == Lookup(job, before, job.dates[i]) {
        if v != w {
          assert s.pool.workers[v] == t.pool.workers[v];
        }
      }
    }
  }

  lemma SettleKeepsDisk<T>(s: State<T>, w: nat, job: Job<T>, before: Disk<T>)
    requires Distinct(job.dates) && Inv(s, job, before) && w < |s.pool.workers| && s.pool.workers[w].Running?
    ensures CanStep(s, w, job) && |Step(s, w, job).pool.results| == |job.dates|
    ensures DiskOf(Step(s, w, job), job, before) && FetchedOf(Step(s, w, job), job, before)
  {
    var t, i := Step(s, w, job), s.pool.workers[w].index;
    assert s.pool.results[i].None? && s.pending[i] == Lookup(job, before, job.dates[i]);
    assert t.pool.results[i] == Some(AnswerFrom(job, before, job.dates[i]));
    assert forall j | 0 <= j < |job.dates| && j != i ::
      t.pool.results[j] == s.pool.results[j] && job.dates[j] != job.dates[i];
    assert job.dates[i] !in s.fetched;
  }

  lemma SettleKeeps<T>(s: State<T>, w: nat, job: Job<T>, before: Disk<T>)
    requires Distinct(job.dates) && Inv(s, job, before) && w < |s.pool.workers| && s.pool.workers[w].Running?
    ensures CanStep(s, w, job) && Inv(Step(s, w, job), job, before)
  {
    StepRefines(s, w, job, before);
    SettleKeepsDisk(s, w, job, before);
    var t := Step(s, w, job);
    forall v | 0 <= v < |t.pool.workers| && t.pool.workers[v].Running?
      ensures var i := t.pool.workers[v].index;
              i < |job.dates| && i in t.pending && t.pending[i] == Lookup(job, before, job.dates[i]) {
      assert s.pool.workers[v] == t.pool.workers[v];
    }
  }

  lemma StepKeeps<T>(s: State<T>, w: nat, job: Job<T>, before: Disk<T>)
    requires Distinct(job.dates) && Inv(s, job, before) && w < |s.pool.workers| && !s.pool.workers[w].Done?
    ensures CanStep(s, w, job) && Inv(Step(s, w, job), job, before)
  {
    if s.pool.workers[w].Ready? {
      ClaimKeeps(s, w, job, before);
    } else {
      SettleKeeps(s, w, job, before);
    }
  }

  // --- Whole runs ---

  /** The state after the workers named by `schedule` took their steps in turn, if each of them had one. */
  function Run<T>(schedule: seq<nat>, job: Job<T>, concurrency: int, disk: Disk<T>): Option<State<T>> {
    if schedule == [] then Some(Start(job, concurrency, disk))
    else
      var before, w := Run(schedule[..|schedule| - 1], job, concurrency, disk), schedule[|schedule| - 1];
      if before.None? || !CanStep(before.value, w, job) then None else Some(Step(before.value, w, job))
  }

  /** Every run is a run of the pool over the pure task, and keeps the invariant. */
  lemma {:induction false} RunRefines<T>(schedule: seq<nat>, job: Job<T>, concurrency: int, disk: Disk<T>)
    requires Distinct(job.dates) && Run(schedule, job, concurrency, disk).Some?
    ensures var s := Run(schedule, job, concurrency, disk).value;
            && Inv(s, job, disk)
            && Pool.Run(schedule, job.dates, concurrency, TaskOf(job, disk)) == Some(s.pool)
  {
    if schedule == [] {
      StartKeeps(job, concurrency, disk);
    } else {
      var init, w := schedule[..|schedule| - 1], schedule[|schedule| - 1];
      RunRefines(init, job, concurrency, disk);
      StepRefines(Run(init, job, concurrency, disk).value, w, job, disk);
      StepKeeps(Run(init, job, concurrency, disk).value, w, job, disk);
    }
  }

  /** The disk at the end, whatever the schedule: the disk of the start, with an answer for every date. */
  ghost predicate Completed<T>(after: Disk<T>, job: Job<T>, before: Disk<T>) {
    && (forall d | d in job.dates :: d in after && after[d] == AnswerFrom(job, before, d))
    && (forall d | d !in job.dates :: (d in after <==> d in before) && (d in before ==> after[d] == before[d]))
  }

  lemma CompletedOnce<T>(a: Disk<T>, b: Disk<T>, job: Job<T>, before: Disk<T>)
    requires Completed(a, job, before) && Completed(b, job, before)
    ensures a == b
  {
    forall d ensures (d in a <==> d in b) && (d in a ==> a[d] == b[d]) {
      assert d in job.dates || d !in job.dates;
    }
  }

  ghost predicate Finished<T>(s: State<T>) { Pool.Finished(s.pool) }

  /** In every interleaving over distinct dates no date is asked for twice, nor one that the disk answers; calls in
      flight stay within the concurrency. */
  lemma NoDateIsFetchedTwice<T>(schedule: seq<nat>, job: Job<T>, concurrency: int, disk: Disk<T>)
    requires Distinct(job.dates) && Run(schedule, job, concurrency, disk).Some?
    ensures var s := Run(schedule, job, concurrency, disk).value;
            && Distinct(s.fetched) && (forall d | d in s.fetched :: d in job.dates && (job.refresh || d !in disk))
            && Pool.InFlight(s.pool.workers) <= Pool.WorkerCount(|job.dates|, concurrency)
  {
    RunRefines(schedule, job, concurrency, disk);
    Pool.EveryRunIsSafe(schedule, job.dates, concurrency, TaskOf(job, disk));
    var s := Run(schedule, job, concurrency, disk).value;
    forall d | d in s.fetched ensures Missed(job, disk, d) {
      var i :| 0 <= i < |job.dates| && job.dates[i] == d;
      assert s.pool.results[i].Some?;
    }
  }

  /** What a date is answered with: what the disk has, unless it is to be refreshed; otherwise the earliest attempt
      that succeeds, or the error of the last one when all fail. */
  ghost predicate AnswerLaw<T>(job: Job<T>, disk: Disk<T>, date: Date, answer: Entry<T>) {
    if date in disk && !job.refresh then answer == disk[date]
    else if job.retries < 0 then answer == Failure("")
    else (answer == job.fetcher(date)(job.retries) || answer.Success?)
         && (answer.Success? ==> exists a: nat :: a <= job.retries && job.fetcher(date)(a) == answer
                                                  && forall b: nat | b < a :: job.fetcher(date)(b).Failure?)
         && (answer.Failure? ==> forall b: nat | b <= job.retries :: job.fetcher(date)(b).Failure?)
  }

  lemma AnswerIsLawful<T>(job: Job<T>, disk: Disk<T>, date: Date)
    ensures AnswerLaw(job, disk, date, AnswerFrom(job, disk, date))
  {
    if job.retries >= 0 {
      ResearchCache.AttemptsMeaning(job.fetcher(date), job.retries);
    }
  }

  /** Every finished run with workers gives the same results, in order, and leaves the same disk; it asked for exactly
      the dates that the disk did not answer: all of them on a refresh, otherwise those without an entry. */
  lemma FinishedRunsAgree<T>(schedule: seq<nat>, job: Job<T>, concurrency: int, disk: Disk<T>)
    requires Distinct(job.dates) && concurrency >= 1 && Run(schedule, job, concurrency, disk).Some?
    requires Finished(Run(schedule, job, concurrency, disk).value)
    ensures var s := Run(schedule, job, concurrency, disk).value;
            && s.pool.results == Pool.Mapped(job.dates, TaskOf(job, disk))
            && Completed(s.disk, job, disk)
            && forall d :: d in s.fetched <==> d in job.dates && (job.refresh || d !in disk)
    ensures var s := Run(schedule, job, concurrency, disk).value;
            && |s.pool.results| == |job.dates|
            && (forall i | 0 <= i < |job.dates| :: s.pool.results[i].Some? && job.dates[i] in s.disk
                  && AnswerLaw(job, disk, job.dates[i], s.pool.results[i].value)
                  && s.disk[job.dates[i]] == s.pool.results[i].value)
            && (forall d | d !in job.dates :: (d in s.disk <==> d in disk) && (d in disk ==> s.disk[d] == disk[d]))
  {
    RunRefines(schedule, job, concurrency, disk);
    Pool.FinishedRunIsMap(schedule, job.dates, concurrency, TaskOf(job, disk));
    var s := Run(schedule, job, concurrency, disk).value;
    forall i | 0 <= i < |job.dates|
      ensures s.pool.results[i] == Some(AnswerFrom(job, disk, job.dates[i]))
              && AnswerLaw(job, disk, job.dates[i], AnswerFrom(job, disk, job.dates[i])) {
      AnswerIsLawful(job, disk, job.dates[i]);
      assert s.pool.results[i] == Pool.Mapped(job.dates, TaskOf(job, disk))[i];
    }
    forall d | d in job.dates ensures d in s.disk && s.disk[d] == AnswerFrom(job, disk, d)
                                      && (d in s.fetched <==> Missed(job, disk, d)) {
      var i :| 0 <= i < |job.dates| && job.dates[i] == d;
      assert s.pool.results[i].Some?;
    }
  }

  lemma SomethingListed(dates: seq<Date>)
    ensures dates != [] ==> exists d :: d in dates
  {
    if |dates| > 0 {
      var d := dates[0];
      assert d in dates;
    }
  }

  /** A second run over the disk that a finished one left, under any schedule and concurrency and with any provider,
      asks nobody and changes nothing; if it finishes, it gives the results of the first. */
  lemma SecondRunAsksNobody<T>(first: seq<nat>, job: Job<T>, concurrency: int, disk: Disk<T>,
                               second: seq<nat>, again: Job<T>, concurrency': int)
    requires Distinct(job.dates) && concurrency >= 1 && Run(first, job, concurrency, disk).Some?
    requires Finished(Run(first, job, concurrency, disk).value)
    requires again.dates == job.dates && !again.refresh
    requires Run(second, again, concurrency', Run(first, job, concurrency, disk).value.disk).Some?
    ensures var s := Run(first, job, concurrency, disk).value;
            var t := Run(second, again, concurrency', s.disk).value;
            && t.fetched == [] && t.disk == s.disk
            && (concurrency' >= 1 && Finished(t) ==> t.pool.results == s.pool.results)
  {
    FinishedRunsAgree(first, job, concurrency, disk);
    var s := Run(first, job, concurrency, disk).value;
    var t := Run(second, again, concurrency', s.disk).value;
    RunRefines(second, again, concurrency', s.disk);
    NoDateIsFetchedTwice(second, again, concurrency', s.disk);
    SomethingListed(t.fetched);
    SameDisk(t, again, s.disk);
    if concurrency' >= 1 && Finished(t) {
      FinishedRunsAgree(second, again, concurrency', s.disk);
      forall i | 0 <= i < |job.dates| ensures t.pool.results[i] == s.pool.results[i] {
        assert job.dates[i] in job.dates;
      }
    }
  }

  lemma SameDisk<T>(t: State<T>, job: Job<T>, disk: Disk<T>)
    requires |t.pool.results| == |job.dates| && DiskOf(t, job, disk) && !job.refresh
    requires forall d | d in job.dates :: d in disk
    ensures t.disk == disk
  {
    forall d ensures (d in t.disk <==> d in disk) && (d in disk ==> t.disk[d] == disk[d]) {
      if d in job.dates {
        var i :| 0 <= i < |job.dates| && job.dates[i] == d;
        assert t.pool.results[i].Some? || t.pool.results[i].None?;
      }
    }
  }

  // --- Why the dates must be distinct ---

  /** Two workers that claim the same date before either has written it both ask for it. */
  lemma RepeatedDateIsFetchedTwice<T>(fetcher: Date -> ResearchCache.Fetcher<T>)
    ensures var job := Job([7, 7], fetcher, 0, false);
            var s := Run([0, 1, 0, 1], job, 2, map[]);
            s.Some? && s.value.fetched == [7, 7]
  {
    var job := Job([7, 7], fetcher, 0, false);
    var a := Start(job, 2, map[]);
    var b := Step(a, 0, job);
    var c := Step(b, 1, job);
    var d := Step(c, 0, job);
    var e := Step(d, 1, job);
    assert [0, 1, 0, 1][..3] == [0, 1, 0] && [0, 1, 0][..2] == [0, 1] && [0, 1][..1] == [0] && [0][..0] == [];
    assert Run([0], job, 2, map[]) == Some(b);
    assert Run([0, 1], job, 2, map[]) == Some(c);
    assert Run([0, 1, 0], job, 2, map[]) == Some(d);
    assert Run([0, 1, 0, 1], job, 2, map[]) == Some(e);
    assert e.fetched == [7] + [7];
  }
}
