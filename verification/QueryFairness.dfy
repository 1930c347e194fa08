/**
  Fairness is the exact condition for the workers of the query concurrency
  benchmark to stop, and a round robin scheduler meets it.
 */
module QueryFairness {
  import opened QueryConcurrency
  import opened Strides

  ghost predicate AllStopped(s: State) {
    AllWritersFinished(s) && AllReadersFinished(s)
  }

  // ----- threads that take no step stay where they are -----

  ghost predicate NoWriterTurn(sched: nat -> Action, n: nat, m: nat, w: nat) {
    forall k: nat :: n <= k < m ==> !IsWriter(sched(k), w)
  }

  ghost predicate NoReaderTurn(sched: nat -> Action, n: nat, m: nat, r: nat) {
    forall k: nat :: n <= k < m ==> !IsReader(sched(k), r)
  }

  lemma {:induction false} WriterWaits(c: Config, run: nat -> State, sched: nat -> Action, n: nat, m: nat, w: nat)
    requires IsExecution(c, run, sched) && n <= m && w < c.writers && NoWriterTurn(sched, n, m, w)
    ensures |run(n).writers| == |run(m).writers| == c.writers && run(m).writers[w] == run(n).writers[w]
    decreases m
  {
    assert Follows(c, run, sched, m);
    if n < m {
      WriterWaits(c, run, sched, n, m - 1, w);
      assert Follows(c, run, sched, m - 1) && !IsWriter(sched(m - 1), w);
    }
  }

  lemma {:induction false} ReaderWaits(c: Config, run: nat -> State, sched: nat -> Action, n: nat, m: nat, r: nat)
    requires IsExecution(c, run, sched) && n <= m && r < c.readers && NoReaderTurn(sched, n, m, r)
    ensures |run(n).readers| == |run(m).readers| == c.readers && run(m).readers[r] == run(n).readers[r]
    decreases m
  {
    assert Follows(c, run, sched, m);
    if n < m {
      ReaderWaits(c, run, sched, n, m - 1, r);
      assert Follows(c, run, sched, m - 1) && !IsReader(sched(m - 1), r);
    }
  }

  /** A finished worker takes no further step. */
  lemma {:induction false} StaysStopped(c: Config, run: nat -> State, sched: nat -> Action, n: nat, m: nat)
    requires IsExecution(c, run, sched) && n <= m && AllStopped(run(n))
    ensures AllStopped(run(m))
    decreases m
  {
    if n < m {
      StaysStopped(c, run, sched, n, m - 1);
      assert Follows(c, run, sched, m - 1);
    }
  }

  // ----- the exact condition -----

  /** Whoever is unfinished at `n` and stopped later has taken a step in between. */
  lemma StoppedWritersHadTurns(c: Config, run: nat -> State, sched: nat -> Action, m: nat, n: nat, w: nat)
    requires IsExecution(c, run, sched) && AllStopped(run(m))
    requires w < c.writers && |run(n).writers| == c.writers && !WriterFinished(run(n).writers[w])
    ensures WriterTurn(sched, n, w)
  {
    if m <= n {
      StaysStopped(c, run, sched, m, n);
    } else if NoWriterTurn(sched, n, m, w) {
      WriterWaits(c, run, sched, n, m, w);
    }
  }

  lemma StoppedReadersHadTurns(c: Config, run: nat -> State, sched: nat -> Action, m: nat, n: nat, r: nat)
    requires IsExecution(c, run, sched) && AllStopped(run(m))
    requires r < c.readers && |run(n).readers| == c.readers && !ReaderFinished(run(n).readers[r])
    ensures ReaderTurn(sched, n, r)
  {
    if m <= n {
      StaysStopped(c, run, sched, m, n);
    } else if NoReaderTurn(sched, n, m, r) {
      ReaderWaits(c, run, sched, n, m, r);
    }
  }

  lemma StoppedIsFair(c: Config, run: nat -> State, sched: nat -> Action, m: nat)
    requires IsExecution(c, run, sched) && AllStopped(run(m))
    ensures IsFair(c, run, sched)
  {
    forall n: nat, w: nat | Follows(c, run, sched, n) && w < c.writers && !WriterFinished(run(n).writers[w])
      ensures WriterTurn(sched, n, w)
    {
      StoppedWritersHadTurns(c, run, sched, m, n, w);
    }
    forall n: nat, r: nat | Follows(c, run, sched, n) && r < c.readers && !ReaderFinished(run(n).readers[r])
      ensures ReaderTurn(sched, n, r)
    {
      StoppedReadersHadTurns(c, run, sched, m, n, r);
    }
  }

  /** An execution reaches a moment at which every worker has stopped if and only if it is fair. */
  lemma TerminatesIffFair(c: Config, run: nat -> State, sched: nat -> Action)
    requires IsExecution(c, run, sched)
    ensures (exists m: nat :: AllStopped(run(m))) <==> IsFair(c, run, sched)
  {
    if IsFair(c, run, sched) {
      var m := FairRunsTerminate(c, run, sched);
      assert AllStopped(run(m));
    }
    if m: nat :| AllStopped(run(m)) {
      StoppedIsFair(c, run, sched, m);
    }
  }

  // ----- a fair scheduler -----

  /** Thread `n % threads` takes a step if it can; every query succeeds. */
  function Turn(c: Config, s: State, n: nat): Action
    requires |s.writers| == c.writers && |s.readers| == c.readers
  {
    if c.writers + c.readers == 0 then Stutter
    else
      var i := n % (c.writers + c.readers);
      if i < c.writers then if WriterFinished(s.writers[i]) then Stutter else WriterStep(i, true, false)
      else if ReaderFinished(s.readers[i - c.writers]) then Stutter
      else ReaderStep(i - c.writers, false)
  }

  lemma TurnIsEnabled(c: Config, s: State, n: nat)
    requires Shape(c, s)
    ensures Enabled(c, s, Turn(c, s, n)) && Shape(c, Apply(c, s, Turn(c, s, n)))
  {
  }

  lemma WriterTakesTurn(c: Config, s: State, n: nat, w: nat)
    requires Shape(c, s) && w < c.writers && n % (c.writers + c.readers) == w && !WriterFinished(s.writers[w])
    ensures IsWriter(Turn(c, s, n), w)
  {
  }

  lemma ReaderTakesTurn(c: Config, s: State, n: nat, r: nat)
    requires Shape(c, s) && r < c.readers && n % (c.writers + c.readers) == c.writers + r
    requires !ReaderFinished(s.readers[r])
    ensures IsReader(Turn(c, s, n), r)
  {
  }

  /** The first turn of thread `i` from `n` on, or a later one. */
  lemma NextTurn(i: nat, threads: nat, n: nat) returns (m: nat)
    requires i < threads
    ensures m >= n && m % threads == i
  {
    var q := n / threads + 1;
    m := q * threads + i;
    DivBounds(n, threads);
    MulStep(n / threads, threads);
    DivUnique(m, threads, q);
  }

  /** At every moment the schedule is whose turn it is. */
  ghost predicate IsRoundRobin(c: Config, run: nat -> State, sched: nat -> Action) {
    forall n: nat :: HasTurn(c, run, sched, n)
  }

  ghost predicate HasTurn(c: Config, run: nat -> State, sched: nat -> Action, n: nat) {
    Shape(c, run(n)) && sched(n) == Turn(c, run(n), n)
  }

  lemma WritersGetTurns(c: Config, run: nat -> State, sched: nat -> Action, n: nat, w: nat)
    requires IsExecution(c, run, sched) && IsRoundRobin(c, run, sched)
    requires w < c.writers && |run(n).writers| == c.writers && !WriterFinished(run(n).writers[w])
    ensures WriterTurn(sched, n, w)
  {
    var m := NextTurn(w, c.writers + c.readers, n);
    if NoWriterTurn(sched, n, m, w) {
      WriterWaits(c, run, sched, n, m, w);
      assert HasTurn(c, run, sched, m);
      WriterTakesTurn(c, run(m), m, w);
    }
  }

  lemma ReadersGetTurns(c: Config, run: nat -> State, sched: nat -> Action, n: nat, r: nat)
    requires IsExecution(c, run, sched) && IsRoundRobin(c, run, sched)
    requires r < c.readers && |run(n).readers| == c.readers && !ReaderFinished(run(n).readers[r])
    ensures ReaderTurn(sched, n, r)
  {
    var m := NextTurn(c.writers + r, c.writers + c.readers, n);
    if NoReaderTurn(sched, n, m, r) {
      ReaderWaits(c, run, sched, n, m, r);
      assert HasTurn(c, run, sched, m);
      ReaderTakesTurn(c, run(m), m, r);
    }
  }

  lemma RoundRobinIsFair(c: Config, run: nat -> State, sched: nat -> Action)
    requires IsExecution(c, run, sched) && IsRoundRobin(c, run, sched)
    ensures IsFair(c, run, sched)
  {
    forall n: nat, w: nat | Follows(c, run, sched, n) && w < c.writers && !WriterFinished(run(n).writers[w])
      ensures WriterTurn(sched, n, w)
    {
      WritersGetTurns(c, run, sched, n, w);
    }
    forall n: nat, r: nat | Follows(c, run, sched, n) && r < c.readers && !ReaderFinished(run(n).readers[r])
      ensures ReaderTurn(sched, n, r)
    {
      ReadersGetTurns(c, run, sched, n, r);
    }
  }

  ghost function RoundRobin(c: Config, n: nat): (s: State)
    ensures Shape(c, s)
  {
    if n == 0 then Initial(c)
    else
      var before := RoundRobin(c, n - 1);
      TurnIsEnabled(c, before, n - 1);
      Apply(c, before, Turn(c, before, n - 1))
  }

  lemma RoundRobinStep(c: Config, n: nat)
    ensures Shape(c, RoundRobin(c, n)) && Enabled(c, RoundRobin(c, n), Turn(c, RoundRobin(c, n), n))
    ensures RoundRobin(c, n + 1) == Apply(c, RoundRobin(c, n), Turn(c, RoundRobin(c, n), n))
  {
    TurnIsEnabled(c, RoundRobin(c, n), n);
  }

  /** Every configuration has a fair execution, the round robin from its initial state. */
  lemma FairExecutionExists(c: Config) returns (run: nat -> State, sched: nat -> Action, m: nat)
    ensures IsExecution(c, run, sched) && IsFair(c, run, sched) && AllStopped(run(m))
  {
    run := (n: nat) => RoundRobin(c, n);
    sched := (n: nat) => Turn(c, RoundRobin(c, n), n);
    forall n: nat ensures Follows(c, run, sched, n) && HasTurn(c, run, sched, n) {
      RoundRobinStep(c, n);
    }
    RoundRobinIsFair(c, run, sched);
    m := FairRunsTerminate(c, run, sched);
  }
}
