/** What the publication benchmark asserts about its runs, proved for every run. */
module PublicationTheorems {
  import opened Options
  import opened Sums
  import opened Strides
  import opened Publication
  import opened PublicationInvariants
  import PublicationHistory
  import opened PublicationProgress
  import L = OwnerLock

  // ----- termination and completion -----

  /** Nothing can move in `s`. */
  ghost predicate Stuck(c: Config, s: State) {
    Shape(c, s) && forall a :: !Enabled(c, s, a)
  }

  /**
    Every run is bounded, and a run that has stopped is complete exactly in the
    configurations that can finish; in all others it is a deadlock.
   */
  lemma RunsEndCompleteIff(c: Config, states: seq<State>, actions: seq<Action>)
    requires Coherent(c) && IsRun(c, states, actions)
    ensures |actions| <= Rank(c, Initial(c))
    ensures Stuck(c, states[|actions|]) ==> (Complete(states[|actions|]) <==> CanFinish(c))
  {
    var last := states[|actions|];
    RunsAreBounded(c, states, actions, |actions|);
    RunKeepsInv(c, states, actions, |actions|);
    if Stuck(c, last) {
      if CanFinish(c) {
        if !Complete(last) {
          var a := NoDeadlock(c, last);
        }
      } else {
        NeverCompletes(c, last);
      }
    }
  }

  // ----- the start handshake -----

  /** A sequence of states in which the release has begun has a step that begins it. */
  lemma {:induction false} StageCrossed(c: Config, states: seq<State>, n: nat) returns (m: nat)
    requires n < |states| && Stage(c, states[0].publisher) == 0 && Stage(c, states[n].publisher) >= 1
    ensures m < n && Stage(c, states[m].publisher) == 0 && Stage(c, states[m + 1].publisher) >= 1
  {
    if Stage(c, states[n - 1].publisher) >= 1 {
      m := StageCrossed(c, states, n - 1);
    } else {
      m := n - 1;
    }
  }

  lemma ReleaseHasBegun(c: Config, states: seq<State>, actions: seq<Action>, n: nat) returns (m: nat)
    requires Coherent(c) && IsRun(c, states, actions) && n < |states|
    requires Stage(c, states[n].publisher) >= 1
    ensures m < n && actions[m].PublisherStep?
    ensures Stage(c, states[m].publisher) == 0 && Stage(c, states[m + 1].publisher) >= 1
    ensures states[m].publisher == (if c.mode.Disabled? then PTrigger(1) else PCapture(1))
  {
    m := StageCrossed(c, states, n);
    ReleaseBeginsAt(c, states, actions, m);
  }

  lemma ReleaseBeginsAt(c: Config, states: seq<State>, actions: seq<Action>, m: nat)
    requires Coherent(c) && IsRun(c, states, actions) && m < |actions|
    requires Stage(c, states[m].publisher) == 0 && Stage(c, states[m + 1].publisher) >= 1
    ensures actions[m].PublisherStep?
    ensures states[m].publisher == (if c.mode.Disabled? then PTrigger(1) else PCapture(1))
  {
    RunKeepsInv(c, states, actions, m);
    PublicationHistory.StepOf(c, states, actions, m);
    ReleaseBegins(c, states[m], actions[m]);
  }

  lemma ReleaseBegins(c: Config, s: State, a: Action)
    requires Coherent(c) && Shape(c, s) && Enabled(c, s, a)
    requires PublisherOk(c, s.publisher, s.triggers, |s.consumer.attempts|)
    requires Stage(c, s.publisher) == 0 && Stage(c, Apply(c, s, a).publisher) >= 1
    ensures a.PublisherStep?
    ensures s.publisher == (if c.mode.Disabled? then PTrigger(1) else PCapture(1))
  {
  }

  /**
    With capture-before-writers, a run that holds any foreground commit has an
    earlier step at which the publisher captured E (or, when disabled, wrote its
    first trigger) while no writer had committed.
   */
  lemma NoCommitBeforeCapture(c: Config, states: seq<State>, actions: seq<Action>, n: nat) returns (m: nat)
    requires Coherent(c) && IsRun(c, states, actions) && n < |states|
    requires c.capture && states[n].db.log != []
    ensures m < n && actions[m].PublisherStep? && states[m].db.log == []
    ensures states[m].publisher == (if c.mode.Disabled? then PTrigger(1) else PCapture(1))
  {
    RunKeepsInv(c, states, actions, n);
    if Stage(c, states[n].publisher) == 0 {
      NoCommitBeforeRelease(c, states[n]);
    }
    m := ReleaseHasBegun(c, states, actions, n);
    RunKeepsInv(c, states, actions, m);
    NoCommitBeforeRelease(c, states[m]);
  }

  /**
    `release` runs at most once and exactly once in a complete capture run, the
    publisher holds no part of the owner during it, and when it has returned
    every writer has committed.
   */
  lemma ReleaseDiscipline(c: Config, s: State)
    requires Coherent(c) && Reachable(c, s)
    ensures Shape(c, s) && s.releases <= 1
    ensures s.publisher.PSend? || s.publisher.PRecv? ==>
              && s.releases == 0
              && s.lock.admission != Some(PublisherId(c))
              && s.lock.exclusive != Some(PublisherId(c))
              && PublisherId(c) !in s.lock.shared
    ensures s.releases == 1 ==> forall w :: 0 <= w < c.writers ==> Commits(s.writers[w]) >= 1
    ensures Complete(s) ==> s.releases == (if c.capture then 1 else 0)
  {
    ReachableHasInv(c, s);
    if s.releases == 1 {
      AllCommittedAfterRelease(c, s);
    }
    if !CanFinish(c) {
      NeverCompletes(c, s);
    }
    assert GateMatches(s.lock.gates[PublisherId(c)], AtOwner(s.publisher), L.Exclusive);
  }

  /** In no reachable state does a thread send into a full channel. */
  lemma NoSendBlocks(c: Config, s: State)
    requires Coherent(c) && Reachable(c, s)
    ensures Shape(c, s)
    ensures s.publisher.PSend? ==> s.publisher.j < c.writers && s.channels.start[s.publisher.j] < 1
    ensures forall w :: 0 <= w < c.writers && s.writers[w].WAnnounce? ==> s.channels.committed < c.writers
  {
    ReachableHasInv(c, s);
    SendsNeverBlock(c, s);
  }

  // ----- the watermark -----

  lemma PublisherRaisesWatermark(c: Config, p: PublisherPc, epoch: nat, triggers: nat, u: Consumer, refused: bool)
    requires Watermark(c, p, epoch, triggers, u)
    ensures u.watermark <= PublisherConsumer(c, u, p, epoch, refused).watermark
    ensures u.attempts <= PublisherConsumer(c, u, p, epoch, refused).attempts
  {
  }

  lemma OnlyPublisherConsumes(c: Config, s: State, a: Action)
    requires Shape(c, s) && Enabled(c, s, a)
    ensures Apply(c, s, a).consumer ==
            if a.PublisherStep? then PublisherConsumer(c, s.consumer, s.publisher, s.db.epoch, a.refused)
            else s.consumer
  {
  }

  lemma StepKeepsWatermark(c: Config, s: State, a: Action)
    requires Shape(c, s) && Enabled(c, s, a)
    requires Watermark(c, s.publisher, s.db.epoch, s.triggers, s.consumer)
    ensures s.consumer.watermark <= Apply(c, s, a).consumer.watermark
    ensures s.consumer.attempts <= Apply(c, s, a).consumer.attempts
  {
    OnlyPublisherConsumes(c, s, a);
    if a.PublisherStep? {
      PublisherRaisesWatermark(c, s.publisher, s.db.epoch, s.triggers, s.consumer, a.refused);
    }
  }

  lemma WatermarkInRun(c: Config, states: seq<State>, actions: seq<Action>, n: nat)
    requires Coherent(c) && IsRun(c, states, actions) && n < |states|
    ensures states[n].consumer.watermark <= states[n].db.epoch
    ensures n < |actions| ==> states[n].consumer.watermark <= states[n + 1].consumer.watermark
  {
    RunKeepsInv(c, states, actions, n);
    if n < |actions| {
      StepKeepsWatermark(c, states[n], actions[n]);
    }
  }

  /** Over every run the watermark never goes back and never passes the source epoch. */
  lemma {:induction false} WatermarkOverRun(c: Config, states: seq<State>, actions: seq<Action>, m: nat, n: nat)
    requires Coherent(c) && IsRun(c, states, actions) && m <= n < |states|
    ensures states[m].consumer.watermark <= states[n].consumer.watermark <= states[n].db.epoch
    decreases n
  {
    WatermarkInRun(c, states, actions, n);
    if m < n {
      WatermarkOverRun(c, states, actions, m, n - 1);
      WatermarkInRun(c, states, actions, n - 1);
    }
  }

  /**
    An attempt starts from the watermark the previous one left and advances it
    exactly when it publishes; only a covered one can be refused. It publishes the
    epoch it captured, at a source epoch no lower. With capture-before-writers the
    first captured E is the epoch right after the first trigger, and the source is
    above it by at least one commit per writer.
   */
  ghost predicate IsSoundAttempt(c: Config, attempts: seq<Attempt>, i: nat)
    requires i < |attempts|
  {
    var a := attempts[i];
    && a.before == WatermarkBefore(c, attempts, i)
    && (a.published <==> a.before < a.after) && (!a.published ==> c.mode.Covered? && a.after == a.before)
    && (!c.mode.Legacy? ==>
          && a.captured.Some? && a.source.Some? && a.before < a.captured.value <= a.source.value
          && (a.published ==> a.after == a.captured.value))
    && (c.capture && !c.mode.Legacy? && i == 0 ==>
          && a.captured == Some(c.initial + 1) && a.source.Some?
          && a.source.value >= c.initial + 1 + c.writers)
  }

  lemma WatermarkMakesSound(c: Config, p: PublisherPc, epoch: nat, triggers: nat, u: Consumer, i: nat)
    requires Watermark(c, p, epoch, triggers, u) && i < |u.attempts|
    ensures IsSoundAttempt(c, u.attempts, i)
  {
    assert AttemptOk(c, u.attempts[i]);
  }

  /** Every attempt of every reachable state, in every mode, is sound. */
  lemma AttemptsAdvance(c: Config, s: State, i: nat)
    requires Coherent(c) && Reachable(c, s) && i < |s.consumer.attempts|
    ensures IsSoundAttempt(c, s.consumer.attempts, i)
  {
    ReachableHasInv(c, s);
    WatermarkMakesSound(c, s.publisher, s.db.epoch, s.triggers, s.consumer, i);
  }

  // ----- the final state -----

  /** Each sequence number below `writes` was committed exactly once, by its own writer. */
  ghost predicate CoveredOnce(c: Config, log: seq<Commit>)
    requires c.writers > 0
  {
    forall q: nat :: q < c.writes ==> CommittedOnce(c, log, q)
  }

  ghost predicate CommittedOnce(c: Config, log: seq<Commit>, q: nat)
    requires c.writers > 0
  {
    exists a :: CommittedOnlyAt(c, log, q, a)
  }

  ghost predicate CommittedOnlyAt(c: Config, log: seq<Commit>, q: nat, a: nat)
    requires c.writers > 0
  {
    && a < |log|
    && log[a] == Commit(q % c.writers, q / c.writers)
    && forall b :: 0 <= b < |log| && Nth(log[b].writer, log[b].i, c.writers) == q ==> b == a
  }

  ghost predicate AllDone(writers: seq<WriterPc>) {
    forall w :: 0 <= w < |writers| ==> writers[w].WDone?
  }

  lemma FinalCommits(c: Config, writers: seq<WriterPc>, w: nat)
    requires c.writers > 0 && w < |writers| && AllDone(writers)
    requires forall w :: 0 <= w < |writers| ==> WriterOk(c, w, writers[w])
    ensures Commits(writers[w]) == Count(c.writes, w, c.writers)
  {
  }

  lemma LogCoversOnce(c: Config, writers: seq<WriterPc>, db: Database, triggers: nat)
    requires c.writers > 0 && |writers| == |db.rows| == c.writers && AllDone(writers)
    requires Ledger(c, writers, db, triggers)
    ensures CoveredOnce(c, db.log)
  {
    forall q: nat | q < c.writes ensures CommittedOnce(c, db.log, q) {
      var w, i := q % c.writers, q / c.writers;
      CountIsExact(c.writes, w, c.writers, i);
      ExactlyOneOwner(q, w, i, c.writers);
      FinalCommits(c, writers, w);
      LogHoldsOnce(c, db.log, writers, q);
    }
  }

  lemma LogHoldsOnce(c: Config, log: seq<Commit>, writers: seq<WriterPc>, q: nat)
    requires LogMatches(log, writers) && |writers| == c.writers > 0
    requires q / c.writers < Commits(writers[q % c.writers])
    ensures CommittedOnce(c, log, q)
  {
    var own := Commit(q % c.writers, q / c.writers);
    assert own in log;
    var a :| 0 <= a < |log| && log[a] == own;
    forall b | 0 <= b < |log| && Nth(log[b].writer, log[b].i, c.writers) == q ensures b == a {
      assert log[b] in log;
      ExactlyOneOwner(q, log[b].writer, log[b].i, c.writers);
    }
    assert CommittedOnlyAt(c, log, q, a);
  }

  lemma FinalCounts(c: Config, s: State)
    requires c.writers > 0 && Shape(c, s) && AllDone(s.writers)
    requires Ledger(c, s.writers, s.db, s.triggers) && Counters(s.writers, s.active, s.completed)
    ensures |s.db.log| == s.completed == c.writes && s.active == 0
  {
    forall w | 0 <= w < c.writers ensures Commits(s.writers[w]) == Count(c.writes, w, c.writers) {
      FinalCommits(c, s.writers, w);
    }
    SumEqual(s.writers, s.writers, CommitsFn(), CountFn(c.writes, c.writers));
    SumEqual(s.writers, s.writers, CommitsFn(), CountedFn());
    CountsAddUp(s.writers, c.writes);
    SumConstant(s.writers, AliveFn(), 0);
  }

  lemma FinalRows(c: Config, writers: seq<WriterPc>, db: Database, triggers: nat, w: nat)
    requires c.writers > 0 && |writers| == |db.rows| == c.writers && AllDone(writers)
    requires Ledger(c, writers, db, triggers) && w < c.writers && w < c.writes
    ensures db.rows[w] == w + ((c.writes - 1 - w) / c.writers) * c.writers + 1
  {
    FinalCommits(c, writers, w);
  }

  /** The checks that `run` makes after joining its threads hold at the end of every run. */
  lemma FinalReport(c: Config, s: State)
    requires Coherent(c) && Reachable(c, s) && Complete(s)
    ensures Shape(c, s) && s.completed == c.writes
    ensures s.db.epoch == c.initial + c.writes + s.triggers
    ensures CoveredOnce(c, s.db.log)
    ensures forall w :: 0 <= w < c.writers && w < c.writes ==>
              s.db.rows[w] == w + ((c.writes - 1 - w) / c.writers) * c.writers + 1
    ensures !c.sustained ==> s.triggers == 16
    ensures |s.consumer.attempts| == if c.mode.Disabled? then 0 else s.triggers
    ensures forall r :: 0 <= r < c.readers ==> s.readers[r] == RDone(c.requests)
  {
    ReachableHasInv(c, s);
    FinalCounts(c, s);
    LogCoversOnce(c, s.writers, s.db, s.triggers);
    forall w | 0 <= w < c.writers && w < c.writes
      ensures s.db.rows[w] == w + ((c.writes - 1 - w) / c.writers) * c.writers + 1
    {
      FinalRows(c, s.writers, s.db, s.triggers, w);
    }
  }

  lemma CadenceOfAllWrites(c: Config, checkpoints: Checkpoints)
    requires Cadence(c, checkpoints, c.writes) && c.sustained
    ensures checkpoints.writes == c.writes
    ensures checkpoints.samples ==
            seq(c.writes / CHECKPOINT_INTERVAL, j requires j >= 0 => (j + 1) * CHECKPOINT_INTERVAL)
  {
  }

  /** A sustained run takes exactly `writes / interval` checkpoints, at the multiples of the interval in order. */
  lemma FinalCheckpoints(c: Config, s: State)
    requires Coherent(c) && Reachable(c, s) && Finished(s) && c.sustained
    ensures s.checkpoints.writes == c.writes
    ensures s.checkpoints.samples == seq(c.writes / 16384, j requires j >= 0 => (j + 1) * 16384)
  {
    ReachableHasInv(c, s);
    FinalCounts(c, s);
    CadenceOfAllWrites(c, s.checkpoints);
  }

  // ----- the quiet phase -----

  /** No attempt of the phase is refused; only a covered publication can be. */
  ghost predicate AllPublish(c: Config, refused: seq<bool>) {
    c.mode.Covered? ==> forall i :: 0 <= i < |refused| ==> !refused[i]
  }

  /** From `start` on every attempt published, advanced, and followed the one before by one epoch. */
  ghost predicate Advances(attempts: seq<Attempt>, start: nat) {
    && (forall i :: start <= i < |attempts| ==> attempts[i].published && attempts[i].before < attempts[i].after)
    && (forall i :: start < i < |attempts| ==> attempts[i].after == attempts[i - 1].after + 1)
  }

  /**
    The sequential phase after the join: each sample writes row 0 and makes one
    attempt; `refused` is what the engine answers in covered mode. The benchmark's
    assertions hold if and only if nothing is refused, and then, whatever the
    concurrent phase left behind, the watermark ends at the current epoch.
   */
  method QuietPhase(c: Config, db: Database, u: Consumer, refused: seq<bool>)
    returns (ok: bool, db': Database, u': Consumer)
    requires db.rows != [] && u.watermark <= db.epoch && refused != []
    ensures c.mode.Disabled? ==> ok && db' == db && u' == u
    ensures !c.mode.Disabled? ==> (ok <==> AllPublish(c, refused))
    ensures !c.mode.Disabled? && ok ==>
              && db'.epoch == db.epoch + |refused| == u'.watermark
              && db'.rows == db.rows[0 := c.writes + |refused|] && db'.log == db.log
              && |u'.attempts| == |u.attempts| + |refused| && u.attempts <= u'.attempts
              && Advances(u'.attempts, |u.attempts|)
    ensures !ok ==> u'.watermark < db'.epoch && u'.attempts != [] && !u'.attempts[|u'.attempts| - 1].published
  {
    db', u' := db, u;
    if c.mode.Disabled? {
      return true, db', u';
    }
    for sequence := 0 to |refused|
      invariant db'.epoch == db.epoch + sequence && u'.watermark <= db'.epoch
      invariant sequence > 0 ==> u'.watermark == db'.epoch
      invariant db'.rows == (if sequence == 0 then db.rows else db.rows[0 := c.writes + sequence]) && db'.log == db.log
      invariant |u'.attempts| == |u.attempts| + sequence && u.attempts <= u'.attempts
      invariant sequence > 0 ==> u'.attempts[|u'.attempts| - 1].after == u'.watermark
      invariant Advances(u'.attempts, |u.attempts|)
      invariant AllPublish(c, refused[..sequence])
    {
      db' := db'.(epoch := db'.epoch + 1, rows := db'.rows[0 := c.writes + sequence + 1]);
      if !c.mode.Legacy? {
        u' := u'.(captured := db'.epoch);
      }
      u' := Publish(c, u', db'.epoch, refused[sequence]);
      if !u'.attempts[|u'.attempts| - 1].published {
        return false, db', u';
      }
    }
    assert refused[..|refused|] == refused;
    ok := true;
  }

  /** Both phases of a run together, from its initial epoch to its last assertion. */
  method WholeRun(c: Config, s: State, refused: seq<bool>) returns (ok: bool, db: Database, u: Consumer)
    requires Coherent(c) && Reachable(c, s) && Complete(s) && refused != [] && !c.mode.Disabled?
    ensures ok <==> AllPublish(c, refused)
    ensures ok ==> u.watermark == db.epoch == c.initial + c.writes + s.triggers + |refused|
    ensures ok ==> |u.attempts| == s.triggers + |refused|
    ensures ok ==> |db.rows| == c.writers && db.rows[0] == c.writes + |refused|
    ensures ok ==> forall w :: 0 < w < c.writers && w < c.writes ==>
                     db.rows[w] == w + ((c.writes - 1 - w) / c.writers) * c.writers + 1
  {
    FinalReport(c, s);
    ReachableHasInv(c, s);
    ok, db, u := QuietPhase(c, s.db, s.consumer, refused);
  }
}
