/**
  `reset_window_peak` at any moment. The reset loads LIVE and stores the value in
  WINDOW_PEAK as two steps, so other threads can allocate and free in between and
  can carry live values past it. This module says what WINDOW_PEAK then reports,
  and when that is the largest number of live bytes since the store.
 */
module WindowReset {
  import opened Sums
  import opened Words
  import opened Allocator

  // ----- the largest value after an increment -----

  ghost predicate IsIncrement(s: State, a: Action) {
    a.Step? && a.t < |s.threads| && s.threads[a.t].AllocLive?
  }

  /** The number of live bytes an increment of LIVE leaves; nothing for other actions. */
  ghost function RaisedBy(s: State, a: Action, next: State): int {
    if IsIncrement(s, a) then Live(next) else 0
  }

  /** The largest number of live bytes right after one of the first `n` actions that increment LIVE, or zero. */
  ghost function Raised(states: seq<State>, actions: seq<Action>, n: nat): int
    requires |states| == |actions| + 1 && n <= |actions|
  {
    if n == 0 then 0
    else Larger(Raised(states, actions, n - 1), RaisedBy(states[n - 1], actions[n - 1], states[n]))
  }

  lemma LiveRisesByIncrement(s: State, a: Action)
    requires Enabled(s, a)
    ensures if IsIncrement(s, a) then Live(s) <= Live(Apply(s, a)) else Live(Apply(s, a)) <= Live(s)
    ensures 0 <= RaisedBy(s, a, Apply(s, a))
  {
    StepMovesLive(s, a);
    LiveIsNatural(Apply(s, a));
  }

  /** Without increments the number of live bytes only falls: the maximum is the start or after an increment. */
  lemma {:induction false} MaxLiveIsRaised(states: seq<State>, actions: seq<Action>, n: nat)
    requires IsRun(states, actions) && n <= |actions|
    ensures MaxLive(states[..n + 1]) == Larger(Live(states[0]), Raised(states, actions, n))
    ensures Live(states[n]) <= MaxLive(states[..n + 1])
    decreases n
  {
    LiveIsNatural(states[0]);
    if n > 0 {
      MaxLiveIsRaised(states, actions, n - 1);
      assert TakesStep(states, actions, n - 1);
      LiveRisesByIncrement(states[n - 1], actions[n - 1]);
      MaxLiveOfLonger(states, n);
    }
  }

  lemma MaxLiveOfLonger(states: seq<State>, n: nat)
    requires 0 < n < |states|
    ensures MaxLive(states[..n + 1]) == Larger(MaxLive(states[..n]), Live(states[n]))
  {
    assert states[..n + 1][..n] == states[..n];
  }

  // ----- what the store leaves -----

  ghost function Carrying(p: Pc): nat {
    if p.AllocPeak? || p.AllocWindow? then p.live else 0
  }

  /** The size an operation in flight has still to add to LIVE. */
  ghost function Pending(p: Pc): nat {
    match p
    case AllocCalls(size) => size
    case AllocBytes(size) => size
    case AllocLive(size) => size
    case ReallocCalls(_, next) => next
    case FreeCalls(_, after) => if after.Resize? then after.next else 0
    case FreeBytes(_, after) => if after.Resize? then after.next else 0
    case FreeLive(_, after) => if after.Resize? then after.next else 0
    case _ => 0
  }

  ghost function Highest(threads: seq<Pc>, f: Pc -> nat): (h: nat)
    ensures forall t :: 0 <= t < |threads| ==> f(threads[t]) <= h
    ensures h == 0 || exists t :: 0 <= t < |threads| && f(threads[t]) == h
  {
    if threads == [] then 0
    else
      var n := |threads| - 1;
      var rest := Highest(threads[..n], f);
      assert forall t :: 0 <= t < n ==> threads[..n][t] == threads[t];
      if rest < f(threads[n]) then f(threads[n]) else rest
  }

  /** The largest value that WINDOW_PEAK holds or that is on its way there. */
  ghost function Top(s: State): int {
    Larger(s.k.window, Highest(s.threads, Carrying))
  }

  /** The largest size still to be added to LIVE by an operation in flight. */
  ghost function Due(s: State): int {
    Highest(s.threads, Pending)
  }

  lemma TopIsTracked(s: State)
    requires WordSized(s)
    ensures 0 <= Top(s) < WORD && Tracks(s, Top(s), true)
  {
    assert forall t :: 0 <= t < |s.threads| ==> Fits(s.threads[t]);
    assert forall t :: 0 <= t < |s.threads| && Holds(s.threads[t], true) ==>
        s.threads[t].live == Carrying(s.threads[t]);
    var h := Highest(s.threads, Carrying);
    if s.k.window < h {
      var t :| 0 <= t < |s.threads| && Carrying(s.threads[t]) == h;
      assert Holds(s.threads[t], true);
    }
  }

  lemma TrackedWhenQuiescent(s: State, m: int)
    requires Tracks(s, m, true) && Quiescent(s) && m < WORD
    ensures s.k.window == m
  {
  }

  // ----- one step -----

  lemma CarriedValueIsLive(s: State, a: Action)
    requires Inv(s) && Enabled(s, a) && IsIncrement(s, a) && Live(Apply(s, a)) < WORD
    ensures Apply(s, a).threads[a.t].AllocPeak? && Apply(s, a).threads[a.t].live == Live(Apply(s, a))
    ensures Apply(s, a).k.window == s.k.window
  {
    StepMovesLive(s, a);
    LiveIsNatural(s);
  }

  lemma IncrementTracks(s: State, a: Action, m: int)
    requires Inv(s) && Enabled(s, a) && IsIncrement(s, a) && Live(Apply(s, a)) < WORD
    requires 0 <= m < WORD && Tracks(s, m, true)
    ensures Tracks(Apply(s, a), Larger(m, Live(Apply(s, a))), true)
  {
    var s' := Apply(s, a);
    CarriedValueIsLive(s, a);
    assert Holds(s'.threads[a.t], true);
    assert forall t :: 0 <= t < |s.threads| && t != a.t ==> s'.threads[t] == s.threads[t];
    if Live(s') < m && Register(s, true) != m {
      var u :| 0 <= u < |s.threads| && Holds(s.threads[u], true) && s.threads[u].live == m;
      assert u != a.t && Holds(s'.threads[u], true);
    }
  }

  lemma OtherStepKeepsBound(s: State, a: Action, m: int)
    requires Enabled(s, a) && !IsIncrement(s, a) && NoReset(s) && Bounded(s, m, true)
    ensures Bounded(Apply(s, a), m, true)
  {
    var s' := Apply(s, a);
    assert forall t :: 0 <= t < |s.threads| && t != a.t ==> s'.threads[t] == s.threads[t];
  }

  lemma StepTracksRaised(s: State, a: Action, m: int)
    requires Inv(s) && Enabled(s, a) && NoReset(s) && !a.BeginReset? && Live(Apply(s, a)) < WORD
    requires 0 <= m < WORD && Tracks(s, m, true)
    ensures Tracks(Apply(s, a), Larger(m, RaisedBy(s, a, Apply(s, a))), true)
    ensures NoReset(Apply(s, a))
  {
    if IsIncrement(s, a) {
      IncrementTracks(s, a, m);
    } else {
      OtherStepKeepsBound(s, a, m);
      StepKeepsReached(s, a, m, true);
    }
  }

  // ----- a run after the store -----

  /** A run without resets in which the number of live bytes fits a word, from `s` to a quiescent state. */
  ghost predicate Continues(s: State, states: seq<State>, actions: seq<Action>) {
    && IsRun(states, actions) && states[0] == s && Quiescent(states[|actions|])
    && (forall i :: 0 <= i < |actions| ==> !actions[i].BeginReset?)
    && (forall i :: 0 <= i < |states| ==> Live(states[i]) < WORD)
  }

  lemma {:induction false} RaisedFits(states: seq<State>, actions: seq<Action>, n: nat)
    requires |states| == |actions| + 1 && n <= |actions|
    requires forall i :: 0 <= i < |states| ==> Live(states[i]) < WORD
    ensures 0 <= Raised(states, actions, n) < WORD
    decreases n
  {
    if n > 0 {
      RaisedFits(states, actions, n - 1);
    }
  }

  lemma LargerAssociates(a: int, b: int, c: int)
    ensures Larger(Larger(a, b), c) == Larger(a, Larger(b, c))
  {
  }

  lemma NextTracksRaised(states: seq<State>, actions: seq<Action>, m: int, n: nat)
    requires |states| == |actions| + 1 && n < |actions| && TakesStep(states, actions, n) && !actions[n].BeginReset?
    requires Inv(states[n]) && NoReset(states[n]) && Live(states[n + 1]) < WORD
    requires 0 <= m < WORD && 0 <= Raised(states, actions, n) < WORD
    requires Tracks(states[n], Larger(m, Raised(states, actions, n)), true)
    ensures NoReset(states[n + 1]) && Tracks(states[n + 1], Larger(m, Raised(states, actions, n + 1)), true)
  {
    var r, next := Raised(states, actions, n), RaisedBy(states[n], actions[n], states[n + 1]);
    StepTracksRaised(states[n], actions[n], Larger(m, r));
    LargerAssociates(m, r, next);
  }

  ghost predicate TracksAt(states: seq<State>, actions: seq<Action>, m: int, n: nat) {
    && |states| == |actions| + 1 && n <= |actions|
    && NoReset(states[n]) && Tracks(states[n], Larger(m, Raised(states, actions, n)), true)
  }

  lemma ContinuationStep(s: State, states: seq<State>, actions: seq<Action>, m: int, n: nat)
    requires Inv(s) && Continues(s, states, actions) && n < |actions|
    requires 0 <= m < WORD && TracksAt(states, actions, m, n)
    ensures TracksAt(states, actions, m, n + 1)
  {
    RaisedFits(states, actions, n);
    RunKeepsInv(states, actions, n);
    assert TakesStep(states, actions, n);
    NextTracksRaised(states, actions, m, n);
  }

  lemma {:induction false} RunTracksRaised(s: State, states: seq<State>, actions: seq<Action>, m: int, n: nat)
    requires Inv(s) && Continues(s, states, actions) && n <= |actions|
    requires 0 <= m < WORD && TracksAt(states, actions, m, 0)
    ensures TracksAt(states, actions, m, n)
    decreases n
  {
    if n > 0 {
      RunTracksRaised(s, states, actions, m, n - 1);
      ContinuationStep(s, states, actions, m, n - 1);
    }
  }

  /**
    What WINDOW_PEAK reports at the end of any continuation, and when that is right.
    It reports too little exactly when the number of live bytes at the start is
    larger than everything stored, carried or reached later, and too much exactly
    when something stored or carried is larger than everything that is live then or later.
   */
  lemma WindowReport(s: State, states: seq<State>, actions: seq<Action>)
    requires Inv(s) && NoReset(s) && Continues(s, states, actions)
    ensures var window, r := states[|actions|].k.window, Raised(states, actions, |actions|);
            && window == Larger(Top(s), r)
            && MaxLive(states) == Larger(Live(s), r)
            && (window == MaxLive(states) <==> Larger(Top(s), r) == Larger(Live(s), r))
            && (window < MaxLive(states) <==> Top(s) < Live(s) && r < Live(s))
            && (window > MaxLive(states) <==> Live(s) < Top(s) && r < Top(s))
  {
    var n := |actions|;
    TopIsTracked(s);
    RunTracksRaised(s, states, actions, Top(s), n);
    RaisedFits(states, actions, n);
    TrackedWhenQuiescent(states[n], Larger(Top(s), Raised(states, actions, n)));
    MaxLiveIsRaised(states, actions, n);
    assert states[..n + 1] == states;
  }

  // ----- every continuation adds what is due -----

  lemma PendingStep(s: State, a: Action, u: nat)
    requires Enabled(s, a) && u < |s.threads| && Pending(s.threads[u]) > 0
    ensures Pending(Apply(s, a).threads[u]) == Pending(s.threads[u])
            || (IsIncrement(s, a) && a.t == u && Pending(s.threads[u]) <= Live(Apply(s, a)))
  {
    if IsIncrement(s, a) && a.t == u {
      StepMovesLive(s, a);
      LiveIsNatural(s);
    }
  }

  lemma {:induction false} PendingIsAdded(states: seq<State>, actions: seq<Action>, u: nat, n: nat)
    requires IsRun(states, actions) && n <= |actions| && u < |states[0].threads|
    ensures u < |states[n].threads|
    ensures Pending(states[n].threads[u]) == Pending(states[0].threads[u])
            || Pending(states[0].threads[u]) <= Raised(states, actions, n)
    ensures 0 <= Raised(states, actions, n)
    decreases n
  {
    if n > 0 {
      PendingIsAdded(states, actions, u, n - 1);
      assert TakesStep(states, actions, n - 1);
      LiveRisesByIncrement(states[n - 1], actions[n - 1]);
      if Pending(states[n - 1].threads[u]) > 0 {
        PendingStep(states[n - 1], actions[n - 1], u);
      }
    }
  }

  lemma DueIsRaised(s: State, states: seq<State>, actions: seq<Action>)
    requires Continues(s, states, actions)
    ensures Due(s) <= Raised(states, actions, |actions|)
  {
    if Due(s) > 0 {
      var u :| 0 <= u < |s.threads| && Pending(s.threads[u]) == Due(s);
      PendingIsAdded(states, actions, u, |actions|);
    } else {
      RaisedIsNatural(states, actions, |actions|);
    }
  }

  lemma {:induction false} RaisedIsNatural(states: seq<State>, actions: seq<Action>, n: nat)
    requires |states| == |actions| + 1 && n <= |actions|
    ensures 0 <= Raised(states, actions, n)
    decreases n
  {
    if n > 0 {
      RaisedIsNatural(states, actions, n - 1);
    }
  }

  // ----- a continuation that adds nothing else -----

  /** How many steps a thread is away from rest, when the block it makes is freed again. */
  ghost function Weight(p: Pc): nat {
    match p
    case Idle => 0
    case AllocCalls(_) => 9
    case AllocBytes(_) => 8
    case AllocLive(_) => 7
    case AllocPeak(_, _) => 6
    case AllocWindow(_, _) => 5
    case ReallocCalls(_, _) => 13
    case FreeCalls(_, after) => if after.Resize? then 12 else 3
    case FreeBytes(_, after) => if after.Resize? then 11 else 2
    case FreeLive(_, after) => if after.Resize? then 10 else 1
    case ResetStore(_) => 1
  }

  ghost function WeightFn(): (nat, Pc) -> int {
    (_: nat, p: Pc) => Weight(p)
  }

  ghost function BlockWeightFn(): (nat, Block) -> int {
    (_: nat, b: Block) => if b.Owned? then 4 else 0
  }

  ghost function Work(s: State): int {
    Sum(s.threads, WeightFn()) + Sum(s.blocks, BlockWeightFn())
  }

  lemma WorkIsNatural(s: State)
    ensures Work(s) >= 0
  {
    SumNonNegative(s.threads, WeightFn());
    SumNonNegative(s.blocks, BlockWeightFn());
  }

  lemma ActionLowersWork(s: State, a: Action)
    requires Enabled(s, a) && (a.Step? || a.BeginFree?)
    ensures Work(Apply(s, a)) < Work(s)
  {
    var s' := Apply(s, a);
    SumUpdate(s.threads, a.t, s'.threads[a.t], WeightFn());
    if a.BeginFree? {
      SumUpdate(s.blocks, a.b, Gone, BlockWeightFn());
    } else if s.threads[a.t].AllocWindow? {
      SumAppend(s.blocks, Owned(s.threads[a.t].size), BlockWeightFn());
    }
  }

  /** About to allocate, before the increment of LIVE. */
  ghost predicate Waiting(p: Pc) {
    p.AllocCalls? || p.AllocBytes? || p.AllocLive?
  }

  /** A thread that does nothing but free blocks. */
  ghost predicate Clearing(p: Pc) {
    p.Idle? || ((p.FreeCalls? || p.FreeBytes? || p.FreeLive?) && p.after.Free?)
  }

  ghost predicate Drainable(s: State, t: nat, bound: nat) {
    && NoReset(s) && t < |s.threads| && Clearing(s.threads[t])
    && forall u :: 0 <= u < |s.threads| ==> Pending(s.threads[u]) <= bound
  }

  lemma DrainedIsEmpty(s: State)
    requires forall u :: 0 <= u < |s.threads| ==> s.threads[u].Idle? || Waiting(s.threads[u])
    requires forall b :: 0 <= b < |s.blocks| ==> s.blocks[b].Gone?
    ensures Live(s) == 0
  {
    SumConstant(s.threads, CarriedFn(), 0);
    SumConstant(s.blocks, BlockFn(), 0);
  }

  /** The next action of the drain: finish what is in flight, then free, and only with nothing live go on allocating. */
  lemma DrainAction(s: State, t: nat, bound: nat) returns (a: Action)
    requires Drainable(s, t, bound) && !Quiescent(s)
    ensures Enabled(s, a) && (a.Step? || (a.BeginFree? && a.t == t))
    ensures IsIncrement(s, a) ==> Live(s) == 0
  {
    if u :| 0 <= u < |s.threads| && !s.threads[u].Idle? && !Waiting(s.threads[u]) {
      a := Step(u);
    } else if b :| 0 <= b < |s.blocks| && s.blocks[b].Owned? {
      assert s.threads[t].Idle?;
      a := BeginFree(t, b);
    } else {
      var u :| 0 <= u < |s.threads| && !s.threads[u].Idle?;
      DrainedIsEmpty(s);
      a := Step(u);
    }
  }

  lemma DrainStep(s: State, a: Action, t: nat, bound: nat)
    requires Drainable(s, t, bound) && Enabled(s, a) && (a.Step? || (a.BeginFree? && a.t == t))
    requires IsIncrement(s, a) ==> Live(s) == 0
    ensures Drainable(Apply(s, a), t, bound)
    ensures Live(Apply(s, a)) <= Larger(Live(s), bound)
    ensures IsIncrement(s, a) ==> Live(Apply(s, a)) <= bound
  {
    StepMovesLive(s, a);
    assert Pending(s.threads[a.t]) <= bound;
  }

  lemma PrependRun(s: State, a: Action, states: seq<State>, actions: seq<Action>)
    requires Enabled(s, a) && IsRun(states, actions) && states[0] == Apply(s, a)
    ensures IsRun([s] + states, [a] + actions)
  {
    var longer, taken := [s] + states, [a] + actions;
    forall i | 0 <= i < |taken| ensures TakesStep(longer, taken, i) {
      if i > 0 {
        assert TakesStep(states, actions, i - 1);
      }
    }
  }

  /** No increment of the run leaves more than `bound` live bytes. */
  ghost predicate RaisesAtMost(states: seq<State>, actions: seq<Action>, bound: nat)
    requires |states| == |actions| + 1
  {
    forall i :: 0 <= i < |actions| ==> RaisedBy(states[i], actions[i], states[i + 1]) <= bound
  }

  lemma PrependContinues(s: State, a: Action, states: seq<State>, actions: seq<Action>, bound: nat)
    requires Enabled(s, a) && !a.BeginReset? && Live(s) < WORD && Continues(Apply(s, a), states, actions)
    requires RaisesAtMost(states, actions, bound) && RaisedBy(s, a, Apply(s, a)) <= bound
    ensures Continues(s, [s] + states, [a] + actions) && RaisesAtMost([s] + states, [a] + actions, bound)
  {
    var longer, taken := [s] + states, [a] + actions;
    PrependRun(s, a, states, actions);
    assert forall i :: 0 < i < |longer| ==> longer[i] == states[i - 1];
    assert forall i :: 0 < i < |taken| ==> taken[i] == actions[i - 1];
    forall i | 0 <= i < |taken| ensures RaisedBy(longer[i], taken[i], longer[i + 1]) <= bound {
      if i > 0 {
        assert RaisedBy(states[i - 1], actions[i - 1], states[i - 1 + 1]) <= bound;
      }
    }
  }

  /** From every state with a thread to free blocks, some continuation raises LIVE no further than what is due. */
  lemma {:induction false} Drain(s: State, t: nat, bound: nat) returns (states: seq<State>, actions: seq<Action>)
    requires Drainable(s, t, bound) && Live(s) < WORD && bound < WORD
    ensures Continues(s, states, actions) && RaisesAtMost(states, actions, bound)
    decreases Work(s)
  {
    if Quiescent(s) {
      states, actions := [s], [];
    } else {
      var a := DrainAction(s, t, bound);
      DrainStep(s, a, t, bound);
      ActionLowersWork(s, a);
      WorkIsNatural(Apply(s, a));
      var rest, taken := Drain(Apply(s, a), t, bound);
      PrependContinues(s, a, rest, taken, bound);
      states, actions := [s] + rest, [a] + taken;
    }
  }

  lemma {:induction false} RaisedAtMost(states: seq<State>, actions: seq<Action>, bound: nat, n: nat)
    requires |states| == |actions| + 1 && RaisesAtMost(states, actions, bound) && n <= |actions|
    ensures Raised(states, actions, n) <= bound
  {
    if n > 0 {
      RaisedAtMost(states, actions, bound, n - 1);
      assert RaisedBy(states[n - 1], actions[n - 1], states[n - 1 + 1]) <= bound;
    }
  }

  lemma DueFits(s: State)
    requires WordSized(s)
    ensures 0 <= Due(s) < WORD
  {
    if Due(s) > 0 {
      var u :| 0 <= u < |s.threads| && Pending(s.threads[u]) == Due(s);
      assert Fits(s.threads[u]);
    }
  }

  /** The least that any continuation raises LIVE to is what is due, and some continuation raises it no further. */
  lemma LeastContinuation(s: State, t: nat) returns (states: seq<State>, actions: seq<Action>)
    requires WordSized(s) && NoReset(s) && Live(s) < WORD && t < |s.threads| && s.threads[t].Idle?
    ensures Continues(s, states, actions) && Raised(states, actions, |actions|) == Due(s)
  {
    DueFits(s);
    states, actions := Drain(s, t, Due(s));
    RaisedAtMost(states, actions, Due(s), |actions|);
    DueIsRaised(s, states, actions);
  }

  // ----- when a reset is right -----

  /** However the run goes on, WINDOW_PEAK ends as the largest number of live bytes from `s` on. */
  ghost predicate RightAfter(s: State) {
    forall states: seq<State>, actions: seq<Action> ::
      Continues(s, states, actions) ==> states[|actions|].k.window == MaxLive(states)
  }

  /**
    A reset is right for every continuation if and only if what it leaves in and on
    the way to WINDOW_PEAK agrees with the live bytes at the store, up to what the
    allocations in flight will reach anyway.
   */
  lemma RightAfterIff(s: State, t: nat)
    requires Inv(s) && NoReset(s) && Live(s) < WORD && t < |s.threads| && s.threads[t].Idle?
    ensures RightAfter(s) <==> Larger(Top(s), Due(s)) == Larger(Live(s), Due(s))
  {
    if RightAfter(s) {
      var states, actions := LeastContinuation(s, t);
      WindowReport(s, states, actions);
    } else {
      var states: seq<State>, actions: seq<Action> :|
        Continues(s, states, actions) && states[|actions|].k.window != MaxLive(states);
      WindowReport(s, states, actions);
      DueIsRaised(s, states, actions);
    }
  }

  /** When no allocation is in flight, stored and carried values must agree with the live bytes exactly. */
  lemma NothingDueIff(s: State, t: nat)
    requires Inv(s) && NoReset(s) && Live(s) < WORD && t < |s.threads| && s.threads[t].Idle? && Due(s) == 0
    ensures RightAfter(s) <==> Top(s) == Live(s)
  {
    LiveIsNatural(s);
    RightAfterIff(s, t);
  }

  /** An allocation in flight that is larger than both hides any difference between them. */
  lemma DueHidesDifference(s: State, t: nat)
    requires Inv(s) && NoReset(s) && Live(s) < WORD && t < |s.threads| && s.threads[t].Idle?
    requires Top(s) <= Due(s) && Live(s) <= Due(s)
    ensures RightAfter(s)
  {
    RightAfterIff(s, t);
  }

  /** Action `j` is the store of a reset by thread `t`, and no other reset is in flight after it. */
  ghost predicate IsStore(states: seq<State>, actions: seq<Action>, j: nat, t: nat)
    requires |states| == |actions| + 1
  {
    && j < |actions| && actions[j] == Step(t) && t < |states[j].threads| && states[j].threads[t].ResetStore?
    && NoReset(states[j + 1])
  }

  lemma StoreIsDone(threads: nat, states: seq<State>, actions: seq<Action>, j: nat, t: nat)
    requires IsRun(states, actions) && states[0] == Initial(threads) && IsStore(states, actions, j, t)
    ensures Inv(states[j + 1]) && t < |states[j + 1].threads| && states[j + 1].threads[t].Idle?
    ensures states[j + 1].k.window == states[j].threads[t].live && Live(states[j + 1]) == Live(states[j])
  {
    ReachedHasInv(threads, states, actions, j + 1);
    assert TakesStep(states, actions, j);
    StepMovesLive(states[j], actions[j]);
  }

  lemma SuffixContinues(states: seq<State>, actions: seq<Action>, r: nat)
    requires IsRun(states, actions) && r <= |actions| && Quiescent(states[|actions|])
    requires forall i :: r <= i < |actions| ==> !actions[i].BeginReset?
    requires forall i :: r <= i < |states| ==> Live(states[i]) < WORD
    ensures Continues(states[r], states[r..], actions[r..])
  {
    SuffixIsRun(states, actions, r);
  }

  /**
    Any reset in any run: at the next quiescent point WINDOW_PEAK is the largest of
    the stored value, the values that were on their way past the store, and the
    live bytes after later increments. It is the largest number of live bytes since
    the store if and only if stored and carried values agree with the live bytes at
    the store, or later increments exceed both.
   */
  lemma ResetReport(threads: nat, states: seq<State>, actions: seq<Action>, j: nat, t: nat)
    requires IsRun(states, actions) && states[0] == Initial(threads) && IsStore(states, actions, j, t)
    requires forall i :: j < i < |actions| ==> !actions[i].BeginReset?
    requires forall i :: j < i < |states| ==> Live(states[i]) < WORD
    requires Quiescent(states[|actions|])
    ensures var s, window := states[j + 1], states[|actions|].k.window;
            var r := Raised(states[j + 1..], actions[j + 1..], |actions| - j - 1);
            && window == Larger(Top(s), r)
            && (window == MaxLive(states[j + 1..]) <==> Larger(Top(s), r) == Larger(Live(s), r))
            && (window < MaxLive(states[j + 1..]) <==> Top(s) < Live(s) && r < Live(s))
            && (window > MaxLive(states[j + 1..]) <==> Live(s) < Top(s) && r < Top(s))
  {
    StoreIsDone(threads, states, actions, j, t);
    SuffixContinues(states, actions, j + 1);
    WindowReport(states[j + 1], states[j + 1..], actions[j + 1..]);
  }

  /** The exact condition at the moment of the store, for every way the run can go on. */
  lemma ResetIsRightIff(threads: nat, states: seq<State>, actions: seq<Action>, j: nat, t: nat)
    requires IsRun(states, actions) && states[0] == Initial(threads) && IsStore(states, actions, j, t)
    requires Live(states[j + 1]) < WORD
    ensures var s := states[j + 1]; RightAfter(s) <==> Larger(Top(s), Due(s)) == Larger(Live(s), Due(s))
  {
    StoreIsDone(threads, states, actions, j, t);
    RightAfterIff(states[j + 1], t);
  }

  /** With nothing else in flight at the store, the reset is right if and only if the stored value is the live bytes. */
  lemma QuiescentStoreIsRightIff(threads: nat, states: seq<State>, actions: seq<Action>, j: nat, t: nat)
    requires IsRun(states, actions) && states[0] == Initial(threads) && IsStore(states, actions, j, t)
    requires Live(states[j + 1]) < WORD && Quiescent(states[j + 1])
    ensures RightAfter(states[j + 1]) <==> states[j].threads[t].live == Live(states[j])
  {
    var s := states[j + 1];
    StoreIsDone(threads, states, actions, j, t);
    assert Top(s) == s.k.window && Due(s) == 0;
    NothingDueIff(s, t);
  }

  lemma DocumentedStore(threads: nat, states: seq<State>, actions: seq<Action>, j: nat, t: nat)
    requires IsRun(states, actions) && states[0] == Initial(threads) && j + 1 < |actions|
    requires Quiescent(states[j]) && actions[j] == BeginReset(t) && actions[j + 1] == Step(t) && Live(states[j]) < WORD
    ensures IsStore(states, actions, j + 1, t) && Quiescent(states[j + 2])
    ensures states[j + 1].threads[t].live == Live(states[j + 1]) == Live(states[j + 2]) == Live(states[j])
  {
    ReachedHasInv(threads, states, actions, j);
    assert TakesStep(states, actions, j) && TakesStep(states, actions, j + 1);
    QuiescentReset(states[j], t);
    LiveIsNatural(states[j]);
    StepMovesLive(states[j], actions[j]);
  }

  /** A reset whose load and store are taken in a quiescent state, as its documentation asks, is always right. */
  lemma DocumentedResetIsRight(threads: nat, states: seq<State>, actions: seq<Action>, j: nat, t: nat)
    requires IsRun(states, actions) && states[0] == Initial(threads) && j + 1 < |actions|
    requires Quiescent(states[j]) && actions[j] == BeginReset(t) && actions[j + 1] == Step(t) && Live(states[j]) < WORD
    ensures RightAfter(states[j + 2])
  {
    DocumentedStore(threads, states, actions, j, t);
    QuiescentStoreIsRightIff(threads, states, actions, j + 1, t);
  }

  // ----- both ways to be wrong -----

  /** What the racing reset leaves after each of its steps. */
  function RacyState(i: nat): State {
    match i
    case 0 => State(Counters(0, 0, 0, 0, 0, 0, 0, 0), [Idle, Idle], [])
    case 1 => State(Counters(0, 0, 0, 0, 0, 0, 0, 0), [Idle, ResetStore(0)], [])
    case 2 => State(Counters(0, 0, 0, 0, 0, 0, 0, 0), [AllocCalls(10), ResetStore(0)], [])
    case 3 => State(Counters(1, 0, 0, 0, 0, 0, 0, 0), [AllocBytes(10), ResetStore(0)], [])
    case 4 => State(Counters(1, 10, 0, 0, 0, 0, 0, 0), [AllocLive(10), ResetStore(0)], [])
    case 5 => State(Counters(1, 10, 0, 0, 0, 10, 0, 0), [AllocPeak(10, 10), ResetStore(0)], [])
    case 6 => State(Counters(1, 10, 0, 0, 0, 10, 10, 0), [AllocWindow(10, 10), ResetStore(0)], [])
    case 7 => State(Counters(1, 10, 0, 0, 0, 10, 10, 10), [Idle, ResetStore(0)], [Owned(10)])
    case _ => State(Counters(1, 10, 0, 0, 0, 10, 10, 0), [Idle, Idle], [Owned(10)])
  }

  function RacyAction(i: nat): Action {
    if i == 0 then BeginReset(1) else if i == 1 then BeginAlloc(0, 10) else if i < 7 then Step(0) else Step(1)
  }

  lemma RacyStep(i: nat)
    requires i < 8
    ensures Enabled(RacyState(i), RacyAction(i)) && Apply(RacyState(i), RacyAction(i)) == RacyState(i + 1)
  {
  }

  /** Without quiescence the reset can miss bytes: the documented warning is needed. */
  lemma RacyResetMissesBytes()
    ensures exists states: seq<State>, actions: seq<Action> ::
              && IsRun(states, actions) && states[0] == Initial(2)
              && Quiescent(states[|actions|])
              && states[|actions|].k.live == 10 && states[|actions|].k.window == 0
  {
    var states := seq(9, i requires 0 <= i < 9 => RacyState(i));
    var actions := seq(8, i requires 0 <= i < 8 => RacyAction(i));
    forall i | 0 <= i < 8 ensures TakesStep(states, actions, i) {
      RacyStep(i);
    }
    assert IsRun(states, actions);
    assert Initial(2).threads == RacyState(0).threads;
  }

  /** The opposite race: a block freed between the load and the store stays in WINDOW_PEAK. */
  function StaleState(i: nat): State {
    match i
    case 0 => State(Counters(0, 0, 0, 0, 0, 0, 0, 0), [Idle, Idle], [])
    case 1 => State(Counters(0, 0, 0, 0, 0, 0, 0, 0), [AllocCalls(10), Idle], [])
    case 2 => State(Counters(1, 0, 0, 0, 0, 0, 0, 0), [AllocBytes(10), Idle], [])
    case 3 => State(Counters(1, 10, 0, 0, 0, 0, 0, 0), [AllocLive(10), Idle], [])
    case 4 => State(Counters(1, 10, 0, 0, 0, 10, 0, 0), [AllocPeak(10, 10), Idle], [])
    case 5 => State(Counters(1, 10, 0, 0, 0, 10, 10, 0), [AllocWindow(10, 10), Idle], [])
    case 6 => State(Counters(1, 10, 0, 0, 0, 10, 10, 10), [Idle, Idle], [Owned(10)])
    case 7 => State(Counters(1, 10, 0, 0, 0, 10, 10, 10), [Idle, ResetStore(10)], [Owned(10)])
    case 8 => State(Counters(1, 10, 0, 0, 0, 10, 10, 10), [FreeCalls(10, Free), ResetStore(10)], [Gone])
    case 9 => State(Counters(1, 10, 1, 0, 0, 10, 10, 10), [FreeBytes(10, Free), ResetStore(10)], [Gone])
    case 10 => State(Counters(1, 10, 1, 10, 0, 10, 10, 10), [FreeLive(10, Free), ResetStore(10)], [Gone])
    case 11 => State(Counters(1, 10, 1, 10, 0, 0, 10, 10), [Idle, ResetStore(10)], [Gone])
    case _ => State(Counters(1, 10, 1, 10, 0, 0, 10, 10), [Idle, Idle], [Gone])
  }

  function StaleAction(i: nat): Action {
    if i == 0 then BeginAlloc(0, 10)
    else if i == 6 then BeginReset(1)
    else if i == 7 then BeginFree(0, 0)
    else if i < 11 then Step(0)
    else Step(1)
  }

  lemma StaleStep(i: nat)
    requires i < 12
    ensures Enabled(StaleState(i), StaleAction(i)) && Apply(StaleState(i), StaleAction(i)) == StaleState(i + 1)
  {
  }

  /** Without quiescence the reset can also report bytes that were freed before it finished. */
  lemma RacyResetKeepsFreedBytes()
    ensures exists states: seq<State>, actions: seq<Action> ::
              && IsRun(states, actions) && states[0] == Initial(2)
              && Quiescent(states[|actions|])
              && states[|actions|].k.live == 0 && states[|actions|].k.window == 10
  {
    var states := seq(13, i requires 0 <= i < 13 => StaleState(i));
    var actions := seq(12, i requires 0 <= i < 12 => StaleAction(i));
    forall i | 0 <= i < 12 ensures TakesStep(states, actions, i) {
      StaleStep(i);
    }
    assert IsRun(states, actions);
    assert Initial(2).threads == StaleState(0).threads;
  }

  // ----- a difference that is hidden -----

  /** The missed allocation once more, with a third thread about to allocate more. */
  function HiddenState(i: nat): State {
    if i <= 7 then RacyState(i).(threads := RacyState(i).threads + [Idle])
    else if i == 8 then RacyState(7).(threads := RacyState(7).threads + [AllocCalls(20)])
    else RacyState(8).(threads := RacyState(8).threads + [AllocCalls(20)])
  }

  function HiddenAction(i: nat): Action {
    if i < 7 then RacyAction(i) else if i == 7 then BeginAlloc(2, 20) else Step(1)
  }

  lemma HiddenStep(i: nat)
    requires i < 9
    ensures Enabled(HiddenState(i), HiddenAction(i)) && Apply(HiddenState(i), HiddenAction(i)) == HiddenState(i + 1)
  {
    if i < 7 {
      RacyStep(i);
    }
  }

  lemma HiddenValues(s: State)
    requires s.threads == [Idle, Idle, AllocCalls(20)] && s.blocks == [Owned(10)] && s.k.window == 0
    ensures Top(s) == 0 && Live(s) == 10 && Due(s) == 20 && NoReset(s)
  {
    assert Pending(s.threads[2]) == 20;
    SumConstant(s.threads, CarriedFn(), 0);
    SumAppend([], Owned(10), BlockFn());
    assert [] + [Owned(10)] == s.blocks;
  }

  lemma HiddenRun() returns (states: seq<State>, actions: seq<Action>)
    ensures IsRun(states, actions) && states[0] == Initial(3) && |actions| == 9 && actions[8] == Step(1)
    ensures states[8].threads == [Idle, ResetStore(0), AllocCalls(20)]
    ensures states[9].threads == [Idle, Idle, AllocCalls(20)]
    ensures states[9].blocks == [Owned(10)] && states[9].k.window == 0
  {
    states := seq(10, i requires 0 <= i < 10 => HiddenState(i));
    actions := seq(9, i requires 0 <= i < 9 => HiddenAction(i));
    forall i | 0 <= i < 9 ensures TakesStep(states, actions, i) {
      HiddenStep(i);
    }
    assert Initial(3).threads == HiddenState(0).threads;
  }

  /** So stored and carried values may differ from the live bytes although the reset is right for every continuation. */
  lemma DifferenceCanBeHidden() returns (states: seq<State>, actions: seq<Action>)
    ensures IsRun(states, actions) && states[0] == Initial(3) && |actions| == 9 && IsStore(states, actions, 8, 1)
    ensures Top(states[9]) != Live(states[9]) && RightAfter(states[9])
  {
    states, actions := HiddenRun();
    HiddenValues(states[9]);
    ResetIsRightIff(3, states, actions, 8, 1);
  }
}
