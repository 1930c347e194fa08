/**
  The covered-graph writers: every worker stages one transaction per wave, waits
  at the barrier, commits, and waits again before the next wave. Workers own
  disjoint rows, so a pessimistic transaction always commits and raises the
  commit epoch by one.
 */
module Waves {
  import opened Sums
  import opened Strides
  import B = CyclicBarrier

  datatype Config = Config(writers: nat, commits: nat, statements: nat, epoch: nat)

  datatype Pc =
    | Begin(wave: nat)           // loop head
    | Stage(wave: nat, n: nat)   // n statements staged
    | Staged(wave: nat)          // first barrier.wait
    | Commit(wave: nat)          // tx.commit
    | Committed(wave: nat)       // second barrier.wait
    | Done

  datatype State = State(barrier: B.Barrier, workers: seq<Pc>, tx: seq<nat>, rows: seq<nat>, epoch: nat)

  datatype Action = BarrierOp(op: B.Op) | WorkerStep(t: nat)

  function Waves(c: Config): nat
    requires c.writers > 0
  {
    c.commits / c.writers
  }

  predicate Coherent(c: Config) {
    c.writers > 0 && c.statements > 0
  }

  function Initial(c: Config): State {
    State(B.Fresh(c.writers), seq(c.writers, _ => Begin(0)), seq(c.writers, _ => 0), seq(c.writers, _ => 0), c.epoch)
  }

  ghost predicate Shape(c: Config, s: State) {
    |s.workers| == |s.tx| == |s.rows| == |s.barrier.parties| == c.writers
  }

  /** How many barrier waits a worker has completed when it stands at this wait. */
  predicate AtBarrier(p: Pc, passed: nat) {
    (p.Staged? && passed == 2 * p.wave) || (p.Committed? && passed == 2 * p.wave + 1)
  }

  ghost predicate Enabled(c: Config, s: State, a: Action)
    requires Shape(c, s)
  {
    match a
    case BarrierOp(op) =>
      && B.Enabled(s.barrier, op)
      && AtBarrier(s.workers[op.t], s.barrier.parties[op.t].passed)
    case WorkerStep(t) =>
      && t < c.writers
      && !s.workers[t].Done?
      && (s.workers[t].Staged? || s.workers[t].Committed? ==>
            s.barrier.parties[t].Running? && !AtBarrier(s.workers[t], s.barrier.parties[t].passed))
  }

  function Next(c: Config, p: Pc): Pc
    requires c.writers > 0
  {
    match p
    case Begin(wave) => if wave < Waves(c) then Stage(wave, 0) else Done
    case Stage(wave, n) => if n < c.statements then Stage(wave, n + 1) else Staged(wave)
    case Staged(wave) => Commit(wave)
    case Commit(wave) => Committed(wave)
    case Committed(wave) => Begin(wave + 1)
    case Done => Done
  }

  ghost function Apply(c: Config, s: State, a: Action): State
    requires c.writers > 0 && Shape(c, s) && Enabled(c, s, a)
  {
    match a
    case BarrierOp(op) => s.(barrier := B.Apply(s.barrier, op))
    case WorkerStep(t) =>
      var p := s.workers[t];
      var moved := s.(workers := s.workers[t := Next(c, p)]);
      if p.Stage? && p.n < c.statements then moved.(tx := s.tx[t := p.wave * c.statements + p.n + 1])
      else if p.Commit? then moved.(rows := s.rows[t := s.tx[t]], epoch := s.epoch + 1)
      else moved
  }

  ghost predicate IsRun(c: Config, states: seq<State>, actions: seq<Action>)
    requires c.writers > 0
  {
    && |states| == |actions| + 1
    && states[0] == Initial(c)
    && forall i :: 0 <= i < |actions| ==>
         && Shape(c, states[i])
         && Enabled(c, states[i], actions[i])
         && states[i + 1] == Apply(c, states[i], actions[i])
  }

  /** Some run of the configuration leads to `s`. */
  ghost predicate Reachable(c: Config, s: State)
    requires c.writers > 0
  {
    exists states, actions :: IsRun(c, states, actions) && states[|actions|] == s
  }

  ghost predicate Complete(s: State) {
    forall t :: 0 <= t < |s.workers| ==> s.workers[t].Done?
  }

  // ----- invariant -----

  /** Waves this worker has committed. */
  ghost function CommittedWaves(c: Config, p: Pc): nat
    requires c.writers > 0
  {
    match p
    case Done => Waves(c)
    case Committed(wave) => wave + 1
    case p => p.wave
  }

  ghost function CommittedFn(c: Config): (nat, Pc) -> int
    requires c.writers > 0
  {
    (_: nat, p: Pc) => CommittedWaves(c, p)
  }

  ghost predicate WorkerOk(c: Config, p: Pc, party: B.Party, tx: nat, row: nat)
    requires c.writers > 0
  {
    && row == CommittedWaves(c, p) * c.statements
    && match p
       case Begin(wave) => party == B.Running(2 * wave) && wave <= Waves(c)
       case Stage(wave, n) =>
         && party == B.Running(2 * wave) && wave < Waves(c) && n <= c.statements
         && (n > 0 ==> tx == wave * c.statements + n)
       case Staged(wave) =>
         && wave < Waves(c) && tx == (wave + 1) * c.statements
         && (party.passed == 2 * wave || party == B.Running(2 * wave + 1))
       case Commit(wave) =>
         party == B.Running(2 * wave + 1) && wave < Waves(c) && tx == (wave + 1) * c.statements
       case Committed(wave) =>
         wave < Waves(c) && (party.passed == 2 * wave + 1 || party == B.Running(2 * wave + 2))
       case Done => party == B.Running(2 * Waves(c))
  }

  ghost predicate Inv(c: Config, s: State) {
    && Coherent(c) && Shape(c, s) && B.Valid(s.barrier)
    && (forall t :: 0 <= t < c.writers ==> WorkerOk(c, s.workers[t], s.barrier.parties[t], s.tx[t], s.rows[t]))
    && s.epoch == c.epoch + Sum(s.workers, CommittedFn(c))
  }

  lemma InitialHolds(c: Config)
    requires Coherent(c)
    ensures Inv(c, Initial(c))
  {
    B.FreshIsValid(c.writers);
    SumConstant(Initial(c).workers, CommittedFn(c), 0);
  }

  lemma WorkerStaysOk(c: Config, s: State, t: nat)
    requires Coherent(c) && Shape(c, s) && Enabled(c, s, WorkerStep(t))
    requires WorkerOk(c, s.workers[t], s.barrier.parties[t], s.tx[t], s.rows[t])
    ensures var s' := Apply(c, s, WorkerStep(t));
            WorkerOk(c, s'.workers[t], s'.barrier.parties[t], s'.tx[t], s'.rows[t])
  {
    if s.workers[t].Stage? {
      MulStep(s.workers[t].wave, c.statements);
    }
  }

  lemma BarrierKeepsInv(c: Config, s: State, op: B.Op)
    requires Inv(c, s) && Enabled(c, s, BarrierOp(op))
    ensures Inv(c, Apply(c, s, BarrierOp(op)))
  {
    B.ApplyKeepsValid(s.barrier, op);
    assert WorkerOk(c, s.workers[op.t], s.barrier.parties[op.t], s.tx[op.t], s.rows[op.t]);
  }

  lemma WorkerKeepsInv(c: Config, s: State, t: nat)
    requires Inv(c, s) && Enabled(c, s, WorkerStep(t))
    ensures Inv(c, Apply(c, s, WorkerStep(t)))
  {
    assert WorkerOk(c, s.workers[t], s.barrier.parties[t], s.tx[t], s.rows[t]);
    WorkerStaysOk(c, s, t);
    SumUpdate(s.workers, t, Next(c, s.workers[t]), CommittedFn(c));
  }

  lemma StepKeepsInv(c: Config, s: State, a: Action)
    requires Inv(c, s) && Enabled(c, s, a)
    ensures Inv(c, Apply(c, s, a))
  {
    match a
    case BarrierOp(op) => BarrierKeepsInv(c, s, op);
    case WorkerStep(t) => WorkerKeepsInv(c, s, t);
  }

  lemma {:induction false} RunKeepsInv(c: Config, states: seq<State>, actions: seq<Action>, n: nat)
    requires Coherent(c) && IsRun(c, states, actions) && n < |states|
    ensures Inv(c, states[n])
  {
    if n == 0 {
      InitialHolds(c);
    } else {
      RunKeepsInv(c, states, actions, n - 1);
      StepKeepsInv(c, states[n - 1], actions[n - 1]);
      assert states[n - 1 + 1] == Apply(c, states[n - 1], actions[n - 1]);
    }
  }

  // ----- what the barriers promise -----

  /** The worker has staged wave `w` completely. */
  ghost predicate HasStaged(p: Pc, w: nat) {
    p.Done? || p.wave > w || (p.wave == w && !p.Begin? && !p.Stage?)
  }

  /** The worker has committed wave `w`. */
  ghost predicate HasCommitted(p: Pc, w: nat) {
    p.Done? || p.wave > w || (p.wave == w && p.Committed?)
  }

  /** The wave a worker is in; `Done` counts as the wave after the last. */
  ghost function WaveOf(c: Config, p: Pc): nat
    requires c.writers > 0
  {
    if p.Done? then Waves(c) else p.wave
  }

  lemma ReachableHasInv(c: Config, s: State)
    requires Coherent(c) && Reachable(c, s)
    ensures Inv(c, s)
  {
    var states, actions :| IsRun(c, states, actions) && states[|actions|] == s;
    RunKeepsInv(c, states, actions, |actions|);
  }

  /**
    No worker commits wave `w` before all have staged it, none starts the next
    wave before all have committed this one, and waves differ by at most one.
   */
  lemma WavesStayTogether(c: Config, s: State, a: nat, b: nat, w: nat)
    requires Coherent(c) && Reachable(c, s) && a < |s.workers| && b < |s.workers| && w < Waves(c)
    ensures s.workers[a] == Commit(w) || HasCommitted(s.workers[a], w) ==> HasStaged(s.workers[b], w)
    ensures s.workers[a].Stage? && s.workers[a].wave == w + 1 ==> HasCommitted(s.workers[b], w)
    ensures WaveOf(c, s.workers[a]) <= WaveOf(c, s.workers[b]) + 1
  {
    ReachableHasInv(c, s);
    assert WorkerOk(c, s.workers[a], s.barrier.parties[a], s.tx[a], s.rows[a]);
    assert WorkerOk(c, s.workers[b], s.barrier.parties[b], s.tx[b], s.rows[b]);
  }

  // ----- progress -----

  ghost function StepsPerWave(c: Config): nat {
    c.statements + 5
  }

  ghost function PcRank(c: Config, p: Pc): int
    requires c.writers > 0
  {
    if p.Done? then 0
    else
      (Waves(c) - p.wave) * StepsPerWave(c) +
      match p
      case Begin(_) => 1
      case Stage(_, n) => 0 - n
      case Staged(_) => 0 - c.statements - 1
      case Commit(_) => 0 - c.statements - 2
      case Committed(_) => 0 - c.statements - 3
      case Done => 0
  }

  ghost function PcRankFn(c: Config): (nat, Pc) -> int
    requires c.writers > 0
  {
    (_: nat, p: Pc) => PcRank(c, p)
  }

  ghost function PartyRankFn(c: Config): (nat, B.Party) -> int
    requires c.writers > 0
  {
    (_: nat, p: B.Party) => 2 * (2 * Waves(c) - p.passed) - (if p.Waiting? then 1 else 0)
  }

  ghost function Rank(c: Config, s: State): int
    requires c.writers > 0
  {
    Sum(s.workers, PcRankFn(c)) + Sum(s.barrier.parties, PartyRankFn(c))
  }

  lemma PcRankIsNatural(c: Config, p: Pc, party: B.Party, tx: nat, row: nat)
    requires Coherent(c) && WorkerOk(c, p, party, tx, row)
    ensures PcRank(c, p) >= 0 && PartyRankFn(c)(0, party) >= 0
  {
    if !p.Done? {
      var left := Waves(c) - p.wave;
      if left > 0 {
        MulMonotone(1, left, StepsPerWave(c));
      }
    }
  }

  lemma RankIsNatural(c: Config, s: State)
    requires Inv(c, s)
    ensures Rank(c, s) >= 0
  {
    forall t | 0 <= t < c.writers
      ensures PcRankFn(c)(t, s.workers[t]) >= 0 && PartyRankFn(c)(t, s.barrier.parties[t]) >= 0
    {
      PcRankIsNatural(c, s.workers[t], s.barrier.parties[t], s.tx[t], s.rows[t]);
    }
    SumNonNegative(s.workers, PcRankFn(c));
    SumNonNegative(s.barrier.parties, PartyRankFn(c));
  }

  lemma NextLowersRank(c: Config, p: Pc)
    requires Coherent(c) && !p.Done? && p.wave <= Waves(c)
    requires p.Stage? ==> p.n <= c.statements
    ensures PcRank(c, Next(c, p)) < PcRank(c, p)
  {
    MulStep(Waves(c) - p.wave - 1, StepsPerWave(c));
  }

  lemma StepLowersRank(c: Config, s: State, a: Action)
    requires Inv(c, s) && Enabled(c, s, a)
    ensures Rank(c, Apply(c, s, a)) < Rank(c, s)
  {
    match a
    case BarrierOp(op) =>
      SumUpdate(s.barrier.parties, op.t, B.Apply(s.barrier, op).parties[op.t], PartyRankFn(c));
    case WorkerStep(t) =>
      assert WorkerOk(c, s.workers[t], s.barrier.parties[t], s.tx[t], s.rows[t]);
      NextLowersRank(c, s.workers[t]);
      SumUpdate(s.workers, t, Next(c, s.workers[t]), PcRankFn(c));
  }

  lemma {:induction false} RunsAreBounded(c: Config, states: seq<State>, actions: seq<Action>, n: nat)
    requires Coherent(c) && IsRun(c, states, actions) && n < |states|
    ensures n <= n + Rank(c, states[n]) <= Rank(c, Initial(c))
  {
    RunKeepsInv(c, states, actions, n);
    RankIsNatural(c, states[n]);
    if n > 0 {
      RunsAreBounded(c, states, actions, n - 1);
      RunKeepsInv(c, states, actions, n - 1);
      StepLowersRank(c, states[n - 1], actions[n - 1]);
      assert states[n - 1 + 1] == Apply(c, states[n - 1], actions[n - 1]);
    }
  }

  /** The barriers never lock up: until all workers are done, somebody can move. */
  lemma NoDeadlock(c: Config, s: State) returns (a: Action)
    requires Coherent(c) && Reachable(c, s) && !Complete(s)
    ensures Shape(c, s) && Enabled(c, s, a)
  {
    ReachableHasInv(c, s);
    var parties := s.barrier.parties;
    var t :| 0 <= t < c.writers && !s.workers[t].Done?;
    assert WorkerOk(c, s.workers[t], parties[t], s.tx[t], s.rows[t]);
    if Enabled(c, s, WorkerStep(t)) {
      a := WorkerStep(t);
    } else if parties[t].Running? {
      a := BarrierOp(B.Arrive(t));
    } else if u :| 0 <= u < c.writers && parties[u].Running? {
      assert WorkerOk(c, s.workers[u], parties[u], s.tx[u], s.rows[u]);
      if s.workers[u].Done? {
        a := BarrierOp(B.Wake(t));
      } else if Enabled(c, s, WorkerStep(u)) {
        a := WorkerStep(u);
      } else {
        a := BarrierOp(B.Arrive(u));
      }
    } else {
      var v := B.SleepersCanWake(s.barrier);
      assert WorkerOk(c, s.workers[v], parties[v], s.tx[v], s.rows[v]);
      a := BarrierOp(B.Wake(v));
    }
  }

  // ----- the final state -----

  lemma FinalRows(c: Config, s: State)
    requires Inv(c, s) && Complete(s)
    ensures forall t :: 0 <= t < c.writers ==> s.rows[t] == Waves(c) * c.statements
  {
    forall t | 0 <= t < c.writers ensures s.rows[t] == Waves(c) * c.statements {
      assert WorkerOk(c, s.workers[t], s.barrier.parties[t], s.tx[t], s.rows[t]);
    }
  }

  lemma FinalEpoch(c: Config, s: State)
    requires Inv(c, s) && Complete(s)
    ensures s.epoch == c.epoch + c.commits - c.commits % c.writers
  {
    SumConstant(s.workers, CommittedFn(c), Waves(c));
    assert c.commits == Waves(c) * c.writers + c.commits % c.writers;
  }

  /**
    Every complete run leaves each row at (commits / writers) * statements. The
    epoch has advanced by `commits`, as the benchmark asserts, exactly when the
    number of writers divides it.
   */
  lemma FinalReport(c: Config, s: State)
    requires Coherent(c) && Reachable(c, s) && Complete(s)
    ensures |s.rows| == c.writers
    ensures forall t :: 0 <= t < c.writers ==> s.rows[t] == (c.commits / c.writers) * c.statements
    ensures s.epoch == c.epoch + c.commits <==> c.commits % c.writers == 0
    ensures s.epoch == c.epoch + c.commits - c.commits % c.writers
  {
    ReachableHasInv(c, s);
    FinalRows(c, s);
    FinalEpoch(c, s);
  }
}
