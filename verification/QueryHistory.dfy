/**
  How often every worker of the query concurrency benchmark went through its
  loop, counted from the steps of an execution.
 */
module QueryHistory {
  import opened Sums
  import opened QueryConcurrency

  // ----- writers -----

  /** Step `m` is a query of writer `w`. */
  ghost predicate IsQuery(run: nat -> State, sched: nat -> Action, m: nat, w: nat) {
    IsWriter(sched(m), w) && w < |run(m).writers| && run(m).writers[w].WQuery?
  }

  ghost predicate IsGoodQuery(run: nat -> State, sched: nat -> Action, m: nat, w: nat) {
    IsQuery(run, sched, m, w) && sched(m).ok
  }

  /** The queries of writer `w` among the first `n` steps. */
  ghost function Queries(run: nat -> State, sched: nat -> Action, n: nat, w: nat): nat {
    if n == 0 then 0
    else Queries(run, sched, n - 1, w) + if IsQuery(run, sched, n - 1, w) then 1 else 0
  }

  /** Those among them that the engine answered. */
  ghost function GoodQueries(run: nat -> State, sched: nat -> Action, n: nat, w: nat): nat {
    if n == 0 then 0
    else GoodQueries(run, sched, n - 1, w) + if IsGoodQuery(run, sched, n - 1, w) then 1 else 0
  }

  /** Where a writer stands after `queries` queries, `good` of them answered. */
  ghost predicate StandsAt(c: Config, p: WriterPc, queries: nat, good: nat) {
    match p
    case WLoop(i, n) => i == queries && n == good && queries <= c.writerIterations
    case WQuery(i, n) => i == queries && n == good && queries < c.writerIterations
    case WOk(i, n) => i + 1 == queries <= c.writerIterations && n + 1 == good
    case WSample(i, n, ok) => i + 1 == queries <= c.writerIterations && n + (if ok then 1 else 0) == good
    case WDrop(n, _, panicked) =>
      if panicked then n + 1 == good && good <= queries <= c.writerIterations
      else n == good && queries == c.writerIterations
    case WDone(n) => n == good && queries == c.writerIterations
    case WPanicked(n, _) => n + 1 == good && good <= queries <= c.writerIterations
  }

  lemma NextStands(c: Config, p: WriterPc, ok: bool, panics: bool, queries: nat, good: nat)
    requires StandsAt(c, p, queries, good) && good <= queries && !WriterFinished(p)
    requires panics ==> p.WOk? || (p.WSample? && p.ok)
    ensures StandsAt(c, NextWriter(c, p, ok, panics),
                     queries + (if p.WQuery? then 1 else 0), good + if p.WQuery? && ok then 1 else 0)
  {
  }

  lemma {:induction false} WriterStands(c: Config, run: nat -> State, sched: nat -> Action, n: nat, w: nat)
    requires IsExecution(c, run, sched) && w < c.writers
    ensures |run(n).writers| == c.writers && GoodQueries(run, sched, n, w) <= Queries(run, sched, n, w)
    ensures StandsAt(c, run(n).writers[w], Queries(run, sched, n, w), GoodQueries(run, sched, n, w))
    decreases n
  {
    assert Follows(c, run, sched, n);
    if n > 0 {
      WriterStands(c, run, sched, n - 1, w);
      assert Follows(c, run, sched, n - 1);
      var a := sched(n - 1);
      if IsWriter(a, w) {
        NextStands(c, run(n - 1).writers[w], a.ok, a.panics,
                   Queries(run, sched, n - 1, w), GoodQueries(run, sched, n - 1, w));
      }
    }
  }

  /**
    A writer that has returned made exactly its number of queries, and its recorded
    successes are those that were answered. No writer ever makes more.
   */
  lemma WritersQueryAll(c: Config, run: nat -> State, sched: nat -> Action, n: nat, w: nat)
    requires IsExecution(c, run, sched) && w < c.writers
    ensures |run(n).writers| == c.writers
    ensures GoodQueries(run, sched, n, w) <= Queries(run, sched, n, w) <= c.writerIterations
    ensures run(n).writers[w].WDone? ==>
              && Queries(run, sched, n, w) == c.writerIterations
              && Successful(run(n).writers[w]) == GoodQueries(run, sched, n, w)
  {
    WriterStands(c, run, sched, n, w);
  }

  /** No query of the first `n` steps fails. */
  ghost predicate NoFailures(run: nat -> State, sched: nat -> Action, n: nat) {
    forall m: nat, w: nat :: m < n && IsQuery(run, sched, m, w) ==> sched(m).ok
  }

  lemma {:induction false} GoodWithoutFailures(run: nat -> State, sched: nat -> Action, n: nat, k: nat, w: nat)
    requires NoFailures(run, sched, n) && k <= n
    ensures GoodQueries(run, sched, k, w) == Queries(run, sched, k, w)
    decreases k
  {
    if k > 0 {
      GoodWithoutFailures(run, sched, n, k - 1, w);
    }
  }

  lemma {:induction false} SumOfSame(writers: seq<WriterPc>, each: nat)
    requires forall w :: 0 <= w < |writers| ==> Successful(writers[w]) == each
    ensures Sum(writers, SuccessFn()) == |writers| * each
  {
    SumConstant(writers, SuccessFn(), each);
  }

  /** When nothing fails, the join finds every query of every writer committed and in its row. */
  lemma NothingLost(c: Config, run: nat -> State, sched: nat -> Action, n: nat)
    requires IsExecution(c, run, sched) && NoFailures(run, sched, n) && |run(n).writers| == c.writers
    requires forall w :: 0 <= w < c.writers ==> run(n).writers[w].WDone?
    ensures run(n).committed == c.writers * c.writerIterations
    ensures |run(n).rows| == c.writers
    ensures forall w :: 0 <= w < c.writers ==> run(n).rows[w] == 1 + c.writerIterations
  {
    JoinReport(c, run, sched, n);
    forall w | 0 <= w < c.writers ensures Successful(run(n).writers[w]) == c.writerIterations {
      WritersQueryAll(c, run, sched, n, w);
      GoodWithoutFailures(run, sched, n, n, w);
    }
    SumOfSame(run(n).writers, c.writerIterations);
  }

  // ----- readers -----

  /** Step `m` is a read of reader `r` that returns. */
  ghost predicate IsGoodRead(run: nat -> State, sched: nat -> Action, m: nat, r: nat) {
    IsReader(sched(m), r) && r < |run(m).readers| && run(m).readers[r].RRead? && !sched(m).panics
  }

  ghost function Reads(run: nat -> State, sched: nat -> Action, n: nat, r: nat): nat {
    if n == 0 then 0
    else Reads(run, sched, n - 1, r) + if IsGoodRead(run, sched, n - 1, r) then 1 else 0
  }

  lemma {:induction false} ReadsAreCounted(c: Config, run: nat -> State, sched: nat -> Action, n: nat, r: nat)
    requires IsExecution(c, run, sched) && r < c.readers
    ensures |run(n).readers| == c.readers && run(n).readers[r].i == Reads(run, sched, n, r)
    decreases n
  {
    assert Follows(c, run, sched, n);
    if n > 0 {
      ReadsAreCounted(c, run, sched, n - 1, r);
      assert Follows(c, run, sched, n - 1);
    }
  }

  /**
    A reader that has returned has read its quota, exactly that unless sustained,
    and a sustained one only returns once every writer has stopped.
   */
  lemma ReadersReadAll(c: Config, run: nat -> State, sched: nat -> Action, n: nat, r: nat)
    requires IsExecution(c, run, sched) && r < |run(n).readers| && run(n).readers[r].RDone?
    ensures Reads(run, sched, n, r) >= c.readerIterations
    ensures !c.sustain ==> Reads(run, sched, n, r) == c.readerIterations
    ensures c.sustain ==> AllWritersFinished(run(n))
  {
    assert Follows(c, run, sched, n);
    ReadsAreCounted(c, run, sched, n, r);
    ExecutionKeepsInv(c, run, sched, n);
    assert ReaderOk(c, run(n).readers[r], run(n).remaining);
    RemainingIsExact(c, run(n));
  }

  /** At its loop head a reader returns exactly when its quota is read and, if sustained, no writer is left. */
  lemma ReaderStopsIff(c: Config, run: nat -> State, sched: nat -> Action, n: nat, r: nat)
    requires IsExecution(c, run, sched) && r < |run(n).readers| && run(n).readers[r].RLoop? && IsReader(sched(n), r)
    ensures r < |run(n + 1).readers|
    ensures run(n + 1).readers[r].RDone? <==>
            Reads(run, sched, n, r) >= c.readerIterations && (c.sustain ==> AllWritersFinished(run(n)))
    ensures run(n + 1).readers[r].RDone? || run(n + 1).readers[r].RRead?
  {
    assert Follows(c, run, sched, n);
    ReadsAreCounted(c, run, sched, n, r);
    ExecutionKeepsInv(c, run, sched, n);
    RemainingIsExact(c, run(n));
  }
}
