/** Every run of the publication machine is finite, and it can only stop at the end. */
module PublicationProgress {
  import opened Options
  import opened Sums
  import opened Strides
  import opened Publication
  import opened PublicationInvariants
  import L = OwnerLock
  import B = CyclicBarrier

  // ----- a measure that every step lowers -----

  ghost function Remaining(c: Config, w: nat, i: nat): nat {
    if Nth(w, i, c.writers) < c.writes then c.writes - Nth(w, i, c.writers) else 0
  }

  ghost function WriterRank(c: Config, w: nat, p: WriterPc): nat {
    match p
    case WBegin => 8 * c.writes + 10
    case WAwait => 8 * c.writes + 9
    case WLoop(i) => 8 * Remaining(c, w, i) + 8
    case WWrite(i) => 8 * Remaining(c, w, i) + 3
    case WCount(i) => 8 * Remaining(c, w, i) + 2
    case WAnnounce => 8 * Remaining(c, w, 0) + 1
    case WExit(_) => 1
    case WDone(_) => 0
  }

  ghost function WriterRankFn(c: Config): (nat, WriterPc) -> int {
    (w: nat, p: WriterPc) => WriterRank(c, w, p)
  }

  ghost function Offset(p: PublisherPc): nat {
    match p
    case PBegin => 0
    case PNext(_) => 60
    case PTrigger(_) => 50
    case PCapture(_) => 40
    case PSend(_, _) => 38
    case PRecv(_, _) => 38
    case PPrepare(_) => 36
    case PReserve(_) => 30
    case PConstruct(_) => 28
    case PPublish(_) => 20
    case PCleanup(_) => 10
    case PDone => 0
  }

  ghost function ReleaseRank(c: Config, p: PublisherPc): int {
    if p.PSend? then 2 * c.writers - p.j + 1
    else if p.PRecv? then c.writers - p.j
    else if Stage(c, p) == 0 then 2 * c.writers + 2
    else 0
  }

  ghost function PublisherRank(c: Config, p: PublisherPc): int {
    if p.PDone? then 0
    else if p.PBegin? then 64 * Limit(c) + 128 + 2 * c.writers
    else 64 * (Limit(c) + 1 - p.k) + Offset(p) + ReleaseRank(c, p)
  }

  ghost function ReaderRank(c: Config, p: ReaderPc): int {
    match p
    case RBegin => 8 * c.requests + 9
    case RNext(n) => 8 * (c.requests - n) + 8
    case RRead(n) => 8 * (c.requests - n) + 3
    case RDone(_) => 0
  }

  ghost function ReaderRankFn(c: Config): (nat, ReaderPc) -> int {
    (_: nat, p: ReaderPc) => ReaderRank(c, p)
  }

  ghost function GateRank(g: L.Gate): nat {
    match g
    case Queued(_) => 3
    case Admitted(_) => 2
    case Entered(_) => 1
    case _ => 0
  }

  ghost function GateRankFn(): (nat, L.Gate) -> int {
    (_: nat, g: L.Gate) => GateRank(g)
  }

  ghost function PartyRank(p: B.Party): nat {
    if p == B.Running(0) then 2 else if p.Waiting? then 1 else 0
  }

  ghost function PartyRankFn(): (nat, B.Party) -> int {
    (_: nat, p: B.Party) => PartyRank(p)
  }

  ghost function Rank(c: Config, s: State): int {
    Sum(s.writers, WriterRankFn(c)) + PublisherRank(c, s.publisher) + Sum(s.readers, ReaderRankFn(c))
    + Sum(s.lock.gates, GateRankFn()) + Sum(s.barrier.parties, PartyRankFn()) + (if s.joined then 0 else 1)
  }

  lemma RankIsNatural(c: Config, s: State)
    requires Inv(c, s)
    ensures Rank(c, s) >= 0
  {
    SumNonNegative(s.writers, WriterRankFn(c));
    SumNonNegative(s.readers, ReaderRankFn(c));
    SumNonNegative(s.lock.gates, GateRankFn());
    SumNonNegative(s.barrier.parties, PartyRankFn());
    PublisherRankIsNatural(c, s.publisher, s.triggers, |s.consumer.attempts|);
  }

  lemma PublisherRankIsNatural(c: Config, p: PublisherPc, triggers: nat, attempts: nat)
    requires PublisherOk(c, p, triggers, attempts) && HandshakePc(c, p)
    ensures PublisherRank(c, p) >= 0
  {
  }

  lemma WriterRankFalls(c: Config, s: State, w: nat)
    requires Coherent(c) && Shape(c, s) && WriterEnabled(c, s, w) && WriterOk(c, w, s.writers[w])
    ensures WriterRank(c, w, ApplyWriter(c, s, w).writers[w]) + 4 <= WriterRank(c, w, s.writers[w])
            || (ApplyWriter(c, s, w).lock.gates[w].Outside?
                && WriterRank(c, w, ApplyWriter(c, s, w).writers[w]) < WriterRank(c, w, s.writers[w]))
            || (ApplyWriter(c, s, w).lock == s.lock
                && WriterRank(c, w, ApplyWriter(c, s, w).writers[w]) < WriterRank(c, w, s.writers[w]))
  {
    var pc := s.writers[w];
    if pc.WCount? || pc.WAnnounce? {
      var i := if pc.WCount? then pc.i else 0;
      MulStep(i, c.writers);
      CountIsExact(c.writes, w, c.writers, i);
    }
  }

  lemma WriterLowersRank(c: Config, s: State, w: nat)
    requires Coherent(c) && Shape(c, s) && WriterEnabled(c, s, w) && WriterOk(c, w, s.writers[w])
    ensures Rank(c, ApplyWriter(c, s, w)) < Rank(c, s)
  {
    var s' := ApplyWriter(c, s, w);
    WriterRankFalls(c, s, w);
    SumUpdate(s.writers, w, s'.writers[w], WriterRankFn(c));
    SumUpdate(s.lock.gates, w, s'.lock.gates[w], GateRankFn());
    assert s'.lock.gates == s.lock.gates[w := s'.lock.gates[w]];
  }

  lemma ReaderLowersRank(c: Config, s: State, r: nat)
    requires Shape(c, s) && ReaderEnabled(c, s, r) && ReadersOk(c, s.readers)
    ensures Rank(c, ApplyReader(c, s, r)) < Rank(c, s)
  {
    var s' := ApplyReader(c, s, r);
    var me := ReaderId(c, r);
    SumUpdate(s.readers, r, s'.readers[r], ReaderRankFn(c));
    SumUpdate(s.lock.gates, me, s'.lock.gates[me], GateRankFn());
    assert s'.lock.gates == s.lock.gates[me := s'.lock.gates[me]];
  }

  lemma PublisherRankFalls(c: Config, p: PublisherPc, active: int, triggers: nat, attempts: nat)
    requires Coherent(c) && PublisherOk(c, p, triggers, attempts) && HandshakePc(c, p) && !p.PDone?
    ensures var p' := NextPublisher(c, p, active);
            PublisherRank(c, p') + (if AtOwner(p') then 3 else 0) < PublisherRank(c, p)
  {
    PublisherStages(c, p, active, triggers, attempts);
  }

  lemma PublisherLowersRank(c: Config, s: State, refused: bool)
    requires Coherent(c) && Shape(c, s) && PublisherEnabled(c, s)
    requires PublisherOk(c, s.publisher, s.triggers, |s.consumer.attempts|) && HandshakePc(c, s.publisher)
    ensures Rank(c, ApplyPublisher(c, s, refused)) < Rank(c, s)
  {
    var s' := ApplyPublisher(c, s, refused);
    var me := PublisherId(c);
    PublisherRankFalls(c, s.publisher, s.active, s.triggers, |s.consumer.attempts|);
    SumUpdate(s.lock.gates, me, s'.lock.gates[me], GateRankFn());
    assert s'.lock.gates == s.lock.gates[me := s'.lock.gates[me]];
  }

  lemma BarrierLowersRank(c: Config, s: State, op: B.Op)
    requires Shape(c, s) && Enabled(c, s, BarrierOp(op))
    ensures Rank(c, Apply(c, s, BarrierOp(op))) < Rank(c, s)
  {
    SumUpdate(s.barrier.parties, op.t, B.Apply(s.barrier, op).parties[op.t], PartyRankFn());
  }

  lemma LockLowersRank(c: Config, s: State, op: L.Op)
    requires Shape(c, s) && Enabled(c, s, LockOp(op))
    ensures Rank(c, Apply(c, s, LockOp(op))) < Rank(c, s)
  {
    SumUpdate(s.lock.gates, op.t, L.Apply(s.lock, op).gates[op.t], GateRankFn());
  }

  lemma StepLowersRank(c: Config, s: State, a: Action)
    requires Inv(c, s) && Enabled(c, s, a)
    ensures Rank(c, Apply(c, s, a)) < Rank(c, s)
  {
    match a
    case WriterStep(w) =>
      assert WriterOk(c, w, s.writers[w]);
      WriterLowersRank(c, s, w);
    case PublisherStep(refused) => PublisherLowersRank(c, s, refused);
    case ReaderStep(r) => ReaderLowersRank(c, s, r);
    case BarrierOp(op) => BarrierLowersRank(c, s, op);
    case LockOp(op) => LockLowersRank(c, s, op);
    case MainJoin =>
  }

  lemma RankInRun(c: Config, states: seq<State>, actions: seq<Action>, n: nat)
    requires Coherent(c) && IsRun(c, states, actions) && n < |states|
    ensures Rank(c, states[n]) >= 0
  {
    RunKeepsInv(c, states, actions, n);
    RankIsNatural(c, states[n]);
  }

  lemma RankFallsInRun(c: Config, states: seq<State>, actions: seq<Action>, n: nat)
    requires Coherent(c) && IsRun(c, states, actions) && n < |actions|
    ensures Rank(c, states[n + 1]) < Rank(c, states[n])
  {
    RunKeepsInv(c, states, actions, n);
    StepLowersRank(c, states[n], actions[n]);
  }

  /** No scheduler, however unfair, can make a run longer than the initial rank. */
  lemma {:induction false} RunsAreBounded(c: Config, states: seq<State>, actions: seq<Action>, n: nat)
    requires Coherent(c) && IsRun(c, states, actions) && n < |states|
    ensures n <= n + Rank(c, states[n]) <= Rank(c, Initial(c))
  {
    RankInRun(c, states, actions, n);
    if n > 0 {
      RunsAreBounded(c, states, actions, n - 1);
      RankFallsInRun(c, states, actions, n - 1);
    }
  }

  // ----- deadlock freedom -----

  /** Nobody queues for the owner or holds it when no lock step and no callback can run. */
  lemma OwnerIsIdle(c: Config, s: State, t: nat) returns (a: Action)
    requires Threading(c, s) && t < Threads(c) && !s.lock.gates[t].Outside?
    ensures Enabled(c, s, a)
  {
    var op := L.LockProgress(s.lock, t);
    if op.Release? {
      a := CallbackRuns(c, s, op.t);
    } else {
      a := LockOp(op);
    }
  }

  lemma CallbackRuns(c: Config, s: State, t: nat) returns (a: Action)
    requires Threading(c, s) && t < Threads(c) && s.lock.gates[t].Inside?
    ensures Enabled(c, s, a)
  {
    if t < c.writers {
      assert GateMatches(s.lock.gates[t], s.writers[t].WWrite?, L.Exclusive);
      a := WriterStep(t);
    } else if t == PublisherId(c) {
      assert GateMatches(s.lock.gates[t], AtOwner(s.publisher), L.Exclusive);
      a := PublisherStep(false);
    } else if t == MainId(c) {
      assert false;
    } else {
      var r := t - c.writers - 1;
      assert GateMatches(s.lock.gates[ReaderId(c, r)], s.readers[r].RRead?, L.Shared);
      a := ReaderStep(r);
    }
  }

  /** Either some party can still arrive or wake, or everybody has passed the barrier. */
  lemma BarrierMoves(c: Config, s: State) returns (a: Action)
    requires Threading(c, s)
    ensures Enabled(c, s, a) || (forall t :: 0 <= t < Threads(c) ==> Passed(s, t))
  {
    a := MainJoin;
    var parties := s.barrier.parties;
    if t :| 0 <= t < Threads(c) && parties[t] == B.Running(0) {
      a := BarrierOp(B.Arrive(t));
    } else if t :| 0 <= t < Threads(c) && !Passed(s, t) {
      assert parties[t] == B.Waiting(0);
      if u :| 0 <= u < Threads(c) && parties[u] == B.Running(1) {
        a := BarrierOp(B.Wake(t));
      } else {
        var v := B.SleepersCanWake(s.barrier);
        a := BarrierOp(B.Wake(v));
      }
    }
  }

  /** Both bounded channels have room whenever a thread is about to send. */
  lemma SendsNeverBlock(c: Config, s: State)
    requires Inv(c, s)
    ensures s.publisher.PSend? ==> s.publisher.j < c.writers && s.channels.start[s.publisher.j] < 1
    ensures forall w :: 0 <= w < c.writers && s.writers[w].WAnnounce? ==> s.channels.committed < c.writers
  {
    var p := s.publisher;
    if p.PSend? {
      assert WriterToken(c, p, s.writers[p.j], p.j, s.channels.start[p.j]);
    }
    forall w | 0 <= w < c.writers && s.writers[w].WAnnounce? ensures s.channels.committed < c.writers {
      SumBelowLength(s.writers, w, AnnouncedFn(c));
    }
  }

  /** A writer that cannot move is done, or is waiting for a token that was not sent. */
  lemma WriterMovesOrWaits(c: Config, s: State, w: nat)
    requires Inv(c, s) && w < c.writers && Passed(s, w) && IsOutside(s, w)
    requires !WriterEnabled(c, s, w)
    ensures s.writers[w].WDone? || (s.writers[w].WAwait? && !Sent(c, s.publisher, w))
  {
    assert WriterToken(c, s.publisher, s.writers[w], w, s.channels.start[w]);
    assert GateMatches(s.lock.gates[w], s.writers[w].WWrite?, L.Exclusive);
    SendsNeverBlock(c, s);
  }

  /** A publisher that cannot move is done, or waits for a commit that some writer still owes. */
  lemma PublisherMovesOrWaits(c: Config, s: State) returns (w: nat)
    requires Inv(c, s) && Passed(s, PublisherId(c)) && IsOutside(s, PublisherId(c))
    requires !PublisherEnabled(c, s)
    ensures s.publisher.PDone? || (s.publisher.PRecv? && w < c.writers && Announced(c, s.writers[w]) == 0)
  {
    w := 0;
    var p := s.publisher;
    assert GateMatches(s.lock.gates[PublisherId(c)], AtOwner(p), L.Exclusive);
    SendsNeverBlock(c, s);
    if p.PRecv? {
      if forall v :: 0 <= v < c.writers ==> Announced(c, s.writers[v]) == 1 {
        SumConstant(s.writers, AnnouncedFn(c), 1);
        assert false;
      }
      w :| 0 <= w < c.writers && Announced(c, s.writers[w]) != 1;
    }
  }

  lemma ReaderMovesOrDone(c: Config, s: State, r: nat)
    requires Inv(c, s) && r < c.readers && Passed(s, ReaderId(c, r)) && IsOutside(s, ReaderId(c, r))
    requires !ReaderEnabled(c, s, r)
    ensures s.readers[r].RDone?
  {
    assert GateMatches(s.lock.gates[ReaderId(c, r)], s.readers[r].RRead?, L.Shared);
  }

  /** With every thread stuck outside the owner and past the barrier, everybody is done. */
  lemma StuckMeansFinished(c: Config, s: State)
    requires Inv(c, s) && CanFinish(c)
    requires forall t :: 0 <= t < Threads(c) ==> Passed(s, t) && IsOutside(s, t)
    requires !PublisherEnabled(c, s)
    requires forall w :: 0 <= w < c.writers ==> !WriterEnabled(c, s, w)
    requires forall r :: 0 <= r < c.readers ==> !ReaderEnabled(c, s, r)
    ensures Finished(s)
  {
    var v := PublisherMovesOrWaits(c, s);
    forall w | 0 <= w < c.writers ensures s.writers[w].WDone? {
      WriterMovesOrWaits(c, s, w);
      assert WriterToken(c, s.publisher, s.writers[w], w, s.channels.start[w]);
    }
    forall w | 0 <= w < c.writers && c.capture ensures Announced(c, s.writers[w]) == 1 {
      CountIsExact(c.writes, w, c.writers, 0);
      assert WriterOk(c, w, s.writers[w]);
    }
    forall r | 0 <= r < c.readers ensures s.readers[r].RDone? {
      ReaderMovesOrDone(c, s, r);
    }
  }

  /** Deadlock freedom: as long as the run is not complete, some thread can take a step. */
  lemma NoDeadlock(c: Config, s: State) returns (a: Action)
    requires Inv(c, s) && CanFinish(c) && !Complete(s)
    ensures Enabled(c, s, a)
  {
    a := BarrierMoves(c, s);
    if Enabled(c, s, a) {
      return;
    }
    if t :| 0 <= t < Threads(c) && !IsOutside(s, t) {
      a := OwnerIsIdle(c, s, t);
    } else if PublisherEnabled(c, s) {
      a := PublisherStep(false);
    } else if w: nat :| w < c.writers && WriterEnabled(c, s, w) {
      a := WriterStep(w);
    } else if r: nat :| r < c.readers && ReaderEnabled(c, s, r) {
      a := ReaderStep(r);
    } else {
      StuckMeansFinished(c, s);
      assert Passed(s, MainId(c));
      a := MainJoin;
    }
  }

  /**
    The condition is exact: in a configuration that cannot finish, no state of any
    run is complete, so by the bound above every run ends in a deadlock.
   */
  lemma NeverCompletes(c: Config, s: State)
    requires Inv(c, s) && !CanFinish(c)
    ensures !Complete(s)
  {
    if c.mode.Legacy? {
      assert WriterToken(c, s.publisher, s.writers[0], 0, s.channels.start[0]);
    } else {
      CountIsExact(c.writes, c.writes, c.writers, 0);
      assert WriterOk(c, c.writes, s.writers[c.writes]);
      if Stage(c, s.publisher) == 3 {
        AllCommittedAfterRelease(c, s);
      }
    }
  }
}
