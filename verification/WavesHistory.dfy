/**
  What every worker of the covered-graph benchmark did, counted from the steps of
  a run.
 */
module WavesHistory {
  import opened W = Waves

  /** Step `m` stages a statement of worker `t`. */
  ghost predicate IsStaging(c: Config, states: seq<State>, actions: seq<Action>, m: nat, t: nat) {
    && m < |actions| && m < |states| && t < |states[m].workers|
    && actions[m] == WorkerStep(t) && states[m].workers[t].Stage? && states[m].workers[t].n < c.statements
  }

  ghost predicate IsCommit(states: seq<State>, actions: seq<Action>, m: nat, t: nat) {
    && m < |actions| && m < |states| && t < |states[m].workers|
    && actions[m] == WorkerStep(t) && states[m].workers[t].Commit?
  }

  /** The statements that worker `t` has staged in the first `n` steps. */
  ghost function Stagings(c: Config, states: seq<State>, actions: seq<Action>, n: nat, t: nat): nat {
    if n == 0 then 0
    else Stagings(c, states, actions, n - 1, t) + if IsStaging(c, states, actions, n - 1, t) then 1 else 0
  }

  ghost function Commits(states: seq<State>, actions: seq<Action>, n: nat, t: nat): nat {
    if n == 0 then 0
    else Commits(states, actions, n - 1, t) + if IsCommit(states, actions, n - 1, t) then 1 else 0
  }

  /** Where a worker stands after its stagings and commits. */
  ghost predicate StandsAt(c: Config, p: Pc, staged: nat, committed: nat)
    requires c.writers > 0
  {
    match p
    case Begin(wave) => staged == wave * c.statements && committed == wave <= W.Waves(c)
    case Stage(wave, n) => staged == wave * c.statements + n && n <= c.statements && committed == wave < W.Waves(c)
    case Staged(wave) => staged == wave * c.statements + c.statements && committed == wave < W.Waves(c)
    case Commit(wave) => staged == wave * c.statements + c.statements && committed == wave < W.Waves(c)
    case Committed(wave) => staged == wave * c.statements + c.statements && committed == wave + 1 <= W.Waves(c)
    case Done => staged == W.Waves(c) * c.statements && committed == W.Waves(c)
  }

  lemma NextWave(wave: nat, statements: nat)
    ensures wave * statements + statements == (wave + 1) * statements
  {
  }

  lemma NextStands(c: Config, p: Pc, staged: nat, committed: nat)
    requires c.writers > 0 && !p.Done? && StandsAt(c, p, staged, committed)
    ensures StandsAt(c, Next(c, p), staged + (if p.Stage? && p.n < c.statements then 1 else 0),
                     committed + if p.Commit? then 1 else 0)
  {
    NextWave(p.wave, c.statements);
  }

  lemma StepOf(c: Config, states: seq<State>, actions: seq<Action>, m: nat)
    requires c.writers > 0 && IsRun(c, states, actions) && m < |actions|
    ensures Shape(c, states[m]) && Enabled(c, states[m], actions[m])
    ensures states[m + 1] == Apply(c, states[m], actions[m])
  {
  }

  /** The worker, its transaction and its row agree with what it has staged and committed. */
  ghost predicate Agrees(c: Config, s: State, t: nat, staged: nat, committed: nat)
    requires c.writers > 0
  {
    && Shape(c, s) && t < c.writers
    && StandsAt(c, s.workers[t], staged, committed)
    && s.tx[t] == staged && s.rows[t] == committed * c.statements
  }

  lemma OwnStepAgrees(c: Config, s: State, t: nat, staged: nat, committed: nat)
    requires c.writers > 0 && Agrees(c, s, t, staged, committed) && Enabled(c, s, WorkerStep(t))
    ensures var p := s.workers[t];
            Agrees(c, Apply(c, s, WorkerStep(t)), t, staged + (if p.Stage? && p.n < c.statements then 1 else 0),
                   committed + if p.Commit? then 1 else 0)
  {
    NextStands(c, s.workers[t], staged, committed);
    NextWave(committed, c.statements);
  }

  lemma OtherStepAgrees(c: Config, s: State, a: Action, t: nat, staged: nat, committed: nat)
    requires c.writers > 0 && Agrees(c, s, t, staged, committed) && Enabled(c, s, a) && a != WorkerStep(t)
    ensures Agrees(c, Apply(c, s, a), t, staged, committed)
  {
  }

  lemma {:induction false} WorkerAgrees(c: Config, states: seq<State>, actions: seq<Action>, n: nat, t: nat)
    requires c.writers > 0 && IsRun(c, states, actions) && n <= |actions| && t < c.writers
    ensures Agrees(c, states[n], t, Stagings(c, states, actions, n, t), Commits(states, actions, n, t))
    decreases n
  {
    if n > 0 {
      var staged, committed := Stagings(c, states, actions, n - 1, t), Commits(states, actions, n - 1, t);
      WorkerAgrees(c, states, actions, n - 1, t);
      StepOf(c, states, actions, n - 1);
      if actions[n - 1] == WorkerStep(t) {
        OwnStepAgrees(c, states[n - 1], t, staged, committed);
      } else {
        OtherStepAgrees(c, states[n - 1], actions[n - 1], t, staged, committed);
      }
    }
  }

  /**
    A worker that is done has staged every statement of every wave and committed every
    wave, no more. Each statement stages one value more than the last, and what a
    commit leaves in the row is all that has been committed.
   */
  lemma WorkersDoAll(c: Config, states: seq<State>, actions: seq<Action>, n: nat, t: nat)
    requires c.writers > 0 && IsRun(c, states, actions) && n <= |actions| && t < c.writers
    ensures |states[n].workers| == |states[n].tx| == |states[n].rows| == c.writers
    ensures states[n].tx[t] == Stagings(c, states, actions, n, t)
    ensures states[n].rows[t] == Commits(states, actions, n, t) * c.statements
    ensures states[n].workers[t].Done? ==>
              && Stagings(c, states, actions, n, t) == (c.commits / c.writers) * c.statements
              && Commits(states, actions, n, t) == c.commits / c.writers
  {
    WorkerAgrees(c, states, actions, n, t);
  }
}
