/**
  The counting allocator's atomics as a step machine. Any number of threads
  allocate, free and resize blocks; every atomic operation is one step and the
  steps of different threads interleave freely. All counters are 64 bit words
  that wrap, as `AtomicU64` does.

  Assumed of the system allocator and its callers: a block is passed to `dealloc`
  or `realloc` at most once, with the size it was allocated with, and only after
  the call that produced it has returned.
 */
module Allocator {
  import opened Sums
  import opened Words

  /** Where a thread is inside the allocator. A pending `next` is the new size of a resize. */
  datatype Resize = Free | Resize(next: nat)

  datatype Pc =
    | Idle
    | AllocCalls(size: nat)              // ALLOCATIONS.fetch_add
    | AllocBytes(size: nat)              // ALLOCATED.fetch_add
    | AllocLive(size: nat)               // LIVE.fetch_add
    | AllocPeak(size: nat, live: nat)    // PEAK.fetch_max
    | AllocWindow(size: nat, live: nat)  // WINDOW_PEAK.fetch_max
    | ReallocCalls(size: nat, next: nat) // REALLOCATIONS.fetch_add
    | FreeCalls(size: nat, after: Resize) // DEALLOCATIONS.fetch_add
    | FreeBytes(size: nat, after: Resize) // DEALLOCATED.fetch_add
    | FreeLive(size: nat, after: Resize)  // LIVE.fetch_sub
    | ResetStore(live: nat)              // WINDOW_PEAK.store after LIVE.load

  /** A block owned by the program, or one it has given back. */
  datatype Block = Owned(size: nat) | Gone

  datatype Counters = Counters(
    allocations: nat, allocatedBytes: nat, deallocations: nat, deallocatedBytes: nat,
    reallocations: nat, live: nat, peak: nat, window: nat)

  datatype State = State(k: Counters, threads: seq<Pc>, blocks: seq<Block>)

  datatype Action =
    | BeginAlloc(t: nat, size: nat)
    | BeginFree(t: nat, b: nat)
    | BeginRealloc(t: nat, b: nat, next: nat)
    | BeginReset(t: nat)
    | Step(t: nat)

  function Initial(threads: nat): State {
    State(Counters(0, 0, 0, 0, 0, 0, 0, 0), seq(threads, _ => Idle), [])
  }

  /** The size of a layout fits the machine word. A null result takes no step at all. */
  predicate Enabled(s: State, a: Action) {
    a.t < |s.threads| &&
    match a
    case BeginAlloc(t, size) => s.threads[t].Idle? && size < WORD
    case BeginFree(t, b) => s.threads[t].Idle? && b < |s.blocks| && s.blocks[b].Owned?
    case BeginRealloc(t, b, next) => s.threads[t].Idle? && b < |s.blocks| && s.blocks[b].Owned? && next < WORD
    case BeginReset(t) => s.threads[t].Idle?
    case Step(t) => !s.threads[t].Idle?
  }

  function NextPc(k: Counters, p: Pc): Pc {
    match p
    case Idle => Idle
    case AllocCalls(size) => AllocBytes(size)
    case AllocBytes(size) => AllocLive(size)
    case AllocLive(size) => AllocPeak(size, Saturate(k.live + size))
    case AllocPeak(size, live) => AllocWindow(size, live)
    case AllocWindow(_, _) => Idle
    case ReallocCalls(size, next) => FreeCalls(size, Resize(next))
    case FreeCalls(size, after) => FreeBytes(size, after)
    case FreeBytes(size, after) => FreeLive(size, after)
    case FreeLive(_, after) => if after.Resize? then AllocCalls(after.next) else Idle
    case ResetStore(_) => Idle
  }

  function NextCounters(k: Counters, p: Pc): Counters {
    match p
    case Idle => k
    case AllocCalls(_) => k.(allocations := Add(k.allocations, 1))
    case AllocBytes(size) => k.(allocatedBytes := Add(k.allocatedBytes, size))
    case AllocLive(size) => k.(live := Add(k.live, size))
    case AllocPeak(_, live) => k.(peak := Max(k.peak, live))
    case AllocWindow(_, live) => k.(window := Max(k.window, live))
    case ReallocCalls(_, _) => k.(reallocations := Add(k.reallocations, 1))
    case FreeCalls(_, _) => k.(deallocations := Add(k.deallocations, 1))
    case FreeBytes(size, _) => k.(deallocatedBytes := Add(k.deallocatedBytes, size))
    case FreeLive(size, _) => k.(live := Subtract(k.live, size))
    case ResetStore(live) => k.(window := live)
  }

  function Apply(s: State, a: Action): State
    requires Enabled(s, a)
  {
    match a
    case BeginAlloc(t, size) => s.(threads := s.threads[t := AllocCalls(size)])
    case BeginFree(t, b) =>
      s.(threads := s.threads[t := FreeCalls(s.blocks[b].size, Free)], blocks := s.blocks[b := Gone])
    case BeginRealloc(t, b, next) =>
      s.(threads := s.threads[t := ReallocCalls(s.blocks[b].size, next)], blocks := s.blocks[b := Gone])
    case BeginReset(t) => s.(threads := s.threads[t := ResetStore(s.k.live)])
    case Step(t) =>
      var p := s.threads[t];
      State(NextCounters(s.k, p), s.threads[t := NextPc(s.k, p)],
            if p.AllocWindow? then s.blocks + [Owned(p.size)] else s.blocks)
  }

  /** Action `i` leads from state `i` to the next one. */
  ghost predicate TakesStep(states: seq<State>, actions: seq<Action>, i: nat) {
    && i < |actions| && i + 1 < |states|
    && Enabled(states[i], actions[i]) && states[i + 1] == Apply(states[i], actions[i])
  }

  /** `states` is a run from any state `states[0]`. */
  ghost predicate IsRun(states: seq<State>, actions: seq<Action>) {
    |states| == |actions| + 1 && forall i :: 0 <= i < |actions| ==> TakesStep(states, actions, i)
  }

  /** No operation is in flight. */
  predicate Quiescent(s: State) {
    forall t :: 0 <= t < |s.threads| ==> s.threads[t].Idle?
  }

  // ----- the exact number of live bytes -----

  /** Bytes a thread has added to LIVE and still answers for. */
  ghost function Carried(p: Pc): nat {
    match p
    case AllocPeak(size, _) => size
    case AllocWindow(size, _) => size
    case ReallocCalls(size, _) => size
    case FreeCalls(size, _) => size
    case FreeBytes(size, _) => size
    case FreeLive(size, _) => size
    case _ => 0
  }

  ghost function CarriedFn(): (nat, Pc) -> int {
    (_: nat, p: Pc) => Carried(p)
  }

  ghost function BlockFn(): (nat, Block) -> int {
    (_: nat, b: Block) => if b.Owned? then b.size else 0
  }

  /** The unbounded number of live bytes: the blocks owned plus the bytes carried by operations in flight. */
  ghost function Live(s: State): int {
    Sum(s.blocks, BlockFn()) + Sum(s.threads, CarriedFn())
  }

  /** What an operation in flight has recorded in ALLOCATED or DEALLOCATED but not yet in LIVE. */
  ghost function Ahead(p: Pc): int {
    if p.AllocLive? then p.size else if p.FreeLive? then 0 - p.size else 0
  }

  ghost function AheadFn(): (nat, Pc) -> int {
    (_: nat, p: Pc) => Ahead(p)
  }

  /** Every value a thread carries fits a machine word. */
  ghost predicate Fits(p: Pc) {
    match p
    case Idle => true
    case AllocPeak(size, live) => size < WORD && live < WORD
    case AllocWindow(size, live) => size < WORD && live < WORD
    case ReallocCalls(size, next) => size < WORD && next < WORD
    case FreeCalls(size, after) => size < WORD && (after.Resize? ==> after.next < WORD)
    case FreeBytes(size, after) => size < WORD && (after.Resize? ==> after.next < WORD)
    case FreeLive(size, after) => size < WORD && (after.Resize? ==> after.next < WORD)
    case ResetStore(live) => live < WORD
    case p => p.size < WORD
  }

  ghost predicate WordSized(s: State) {
    && s.k.allocatedBytes < WORD && s.k.deallocatedBytes < WORD
    && s.k.allocations < WORD && s.k.deallocations < WORD && s.k.reallocations < WORD
    && s.k.live < WORD && s.k.peak < WORD && s.k.window < WORD
    && (forall t :: 0 <= t < |s.threads| ==> Fits(s.threads[t]))
    && (forall b :: 0 <= b < |s.blocks| && s.blocks[b].Owned? ==> s.blocks[b].size < WORD)
  }

  /** ALLOCATED minus DEALLOCATED equals LIVE plus what is ahead of it, as wrapping words. */
  ghost function Imbalance(s: State): int {
    s.k.allocatedBytes - s.k.deallocatedBytes - s.k.live - Sum(s.threads, AheadFn())
  }

  /** The thread answers for a block that has been counted as allocated and not yet as freed. */
  ghost function HeldFn(): (nat, Pc) -> int {
    (_: nat, p: Pc) =>
      if p.AllocBytes? || p.AllocLive? || p.AllocPeak? || p.AllocWindow? || p.ReallocCalls? || p.FreeCalls?
      then 1 else 0
  }

  ghost function OwnedFn(): (nat, Block) -> int {
    (_: nat, b: Block) => if b.Owned? then 1 else 0
  }

  ghost function CallImbalance(s: State): int {
    s.k.allocations - s.k.deallocations - Sum(s.blocks, OwnedFn()) - Sum(s.threads, HeldFn())
  }

  ghost predicate Inv(s: State) {
    && WordSized(s)
    && s.k.live == Live(s) % WORD
    && Imbalance(s) % WORD == 0
    && CallImbalance(s) % WORD == 0
  }

  lemma InitialHolds(threads: nat)
    ensures Inv(Initial(threads))
  {
    var s := Initial(threads);
    SumConstant(s.threads, CarriedFn(), 0);
    SumConstant(s.threads, AheadFn(), 0);
    SumConstant(s.threads, HeldFn(), 0);
  }

  /** How each step moves the exact number of live bytes. */
  ghost function LiveChange(s: State, a: Action): int
    requires Enabled(s, a)
  {
    if a.Step? && s.threads[a.t].AllocLive? then s.threads[a.t].size
    else if a.Step? && s.threads[a.t].FreeLive? then 0 - s.threads[a.t].size
    else 0
  }

  lemma StepMovesLive(s: State, a: Action)
    requires Enabled(s, a)
    ensures Live(Apply(s, a)) == Live(s) + LiveChange(s, a)
  {
    var s' := Apply(s, a);
    SumUpdate(s.threads, a.t, s'.threads[a.t], CarriedFn());
    if a.BeginFree? || a.BeginRealloc? {
      SumUpdate(s.blocks, a.b, Gone, BlockFn());
    } else if a.Step? && s.threads[a.t].AllocWindow? {
      SumAppend(s.blocks, Owned(s.threads[a.t].size), BlockFn());
    }
  }

  /** The bytes being freed are among the exact number of live bytes. */
  lemma FreedBytesAreLive(s: State, t: nat)
    requires t < |s.threads| && s.threads[t].FreeLive?
    ensures s.threads[t].size <= Live(s)
  {
    SumAtLeast(s.threads, t, CarriedFn());
    SumNonNegative(s.blocks, BlockFn());
  }

  lemma LiveIsNatural(s: State)
    ensures Live(s) >= 0
  {
    SumNonNegative(s.threads, CarriedFn());
    SumNonNegative(s.blocks, BlockFn());
  }

  lemma StepKeepsBalance(s: State, a: Action)
    requires WordSized(s) && Imbalance(s) % WORD == 0 && Enabled(s, a)
    ensures Imbalance(Apply(s, a)) % WORD == 0
  {
    var s' := Apply(s, a);
    var p := s.threads[a.t];
    SumUpdate(s.threads, a.t, s'.threads[a.t], AheadFn());
    assert Fits(p);
    if a.Step? {
      if p.AllocBytes? {
        AddWraps(s.k.allocatedBytes, p.size);
      } else if p.AllocLive? {
        AddWraps(s.k.live, p.size);
      } else if p.FreeBytes? {
        AddWraps(s.k.deallocatedBytes, p.size);
      } else if p.FreeLive? {
        SubtractWraps(s.k.live, p.size);
      }
    }
    MultipleOfWord(Imbalance(s), Imbalance(s'));
  }

  lemma StepKeepsCalls(s: State, a: Action)
    requires WordSized(s) && CallImbalance(s) % WORD == 0 && Enabled(s, a)
    ensures CallImbalance(Apply(s, a)) % WORD == 0
  {
    var s' := Apply(s, a);
    SumUpdate(s.threads, a.t, s'.threads[a.t], HeldFn());
    if a.BeginFree? || a.BeginRealloc? {
      SumUpdate(s.blocks, a.b, Gone, OwnedFn());
    } else if a.Step? && s.threads[a.t].AllocWindow? {
      SumAppend(s.blocks, Owned(s.threads[a.t].size), OwnedFn());
    }
    AddWraps(s.k.allocations, 1);
    AddWraps(s.k.deallocations, 1);
    MultipleOfWord(CallImbalance(s), CallImbalance(s'));
  }

  lemma StepKeepsWords(s: State, a: Action)
    requires WordSized(s) && Enabled(s, a)
    ensures WordSized(Apply(s, a))
  {
    assert Fits(s.threads[a.t]);
  }

  lemma StepKeepsInv(s: State, a: Action)
    requires Inv(s) && Enabled(s, a)
    ensures Inv(Apply(s, a))
  {
    StepKeepsBalance(s, a);
    StepKeepsCalls(s, a);
    StepKeepsWords(s, a);
    StepMovesLive(s, a);
    LiveIsNatural(s);
    var p := s.threads[a.t];
    if a.Step? && (p.AllocLive? || p.FreeLive?) {
      assert Fits(p);
      WordFollowsLive(Live(s), s.k.live, p.size);
      if p.FreeLive? {
        FreedBytesAreLive(s, a.t);
      }
    }
  }

  lemma {:induction false} RunKeepsInv(states: seq<State>, actions: seq<Action>, n: nat)
    requires IsRun(states, actions) && Inv(states[0]) && n < |states|
    ensures Inv(states[n])
  {
    if n > 0 {
      RunKeepsInv(states, actions, n - 1);
      assert TakesStep(states, actions, n - 1);
      StepKeepsInv(states[n - 1], actions[n - 1]);
    }
  }

  lemma ReachedHasInv(threads: nat, states: seq<State>, actions: seq<Action>, n: nat)
    requires IsRun(states, actions) && states[0] == Initial(threads) && n < |states|
    ensures Inv(states[n])
  {
    InitialHolds(threads);
    RunKeepsInv(states, actions, n);
  }

  lemma FreeStep(s: State, t: nat)
    requires Inv(s) && t < |s.threads| && s.threads[t].FreeLive?
    ensures var size, word := s.threads[t].size, Apply(s, Step(t)).k.live;
            && (Live(s) < WORD ==> size <= s.k.live)
            && (word == s.k.live - size <==> size <= Live(s) % WORD)
            && (Live(s) % WORD < size ==> word == s.k.live - size + WORD)
  {
    assert Fits(s.threads[t]);
    FreedBytesAreLive(s, t);
    SubtractIsExactIff(Live(s), s.threads[t].size);
  }

  /**
    In no run does `LIVE.fetch_sub` take more than the register holds, as long as
    the exact number of live bytes fits a word. Beyond that, the subtraction wraps
    if and only if the residue of that number is smaller than the freed size.
   */
  lemma FreeNeverUnderflows(threads: nat, states: seq<State>, actions: seq<Action>, n: nat, t: nat)
    requires IsRun(states, actions) && states[0] == Initial(threads) && n < |actions|
    requires actions[n] == Step(t) && t < |states[n].threads| && states[n].threads[t].FreeLive?
    ensures var size, before, after := states[n].threads[t].size, states[n].k.live, states[n + 1].k.live;
            && (Live(states[n]) < WORD ==> size <= before && after == before - size)
            && (Live(states[n]) % WORD < size <==> after != before - size)
            && (Live(states[n]) % WORD < size ==> after == before - size + WORD)
  {
    ReachedHasInv(threads, states, actions, n);
    assert TakesStep(states, actions, n);
    FreeStep(states[n], t);
  }

  /**
    Whenever nothing is in flight, LIVE is ALLOCATED minus DEALLOCATED and counts
    exactly the bytes of the owned blocks, and the call counters differ by their number.
   */
  lemma QuiescentBalance(threads: nat, states: seq<State>, actions: seq<Action>, n: nat)
    requires IsRun(states, actions) && states[0] == Initial(threads) && n < |states| && Quiescent(states[n])
    ensures BalancedBooks(states[n])
  {
    ReachedHasInv(threads, states, actions, n);
    QuiescentBooks(states[n]);
  }

  ghost predicate BalancedBooks(s: State) {
    && s.k.live == Subtract(s.k.allocatedBytes, s.k.deallocatedBytes)
    && s.k.live == Sum(s.blocks, BlockFn()) % WORD
    && (s.k.allocations - s.k.deallocations - Sum(s.blocks, OwnedFn())) % WORD == 0
  }

  lemma QuiescentBooks(s: State)
    requires Inv(s) && Quiescent(s)
    ensures BalancedBooks(s)
  {
    SumConstant(s.threads, HeldFn(), 0);
    SumConstant(s.threads, AheadFn(), 0);
    SumConstant(s.threads, CarriedFn(), 0);
  }

  // ----- peaks -----

  /** The largest exact number of live bytes over a run. */
  ghost function MaxLive(states: seq<State>): int
    requires |states| > 0
  {
    var n := |states| - 1;
    if n == 0 then Live(states[0])
    else if MaxLive(states[..n]) < Live(states[n]) then Live(states[n])
    else MaxLive(states[..n])
  }

  ghost function Clamp(x: int): int {
    if x > MAX then MAX else x
  }

  /** The thread holds a live value that has not reached the register yet. */
  ghost predicate Holds(p: Pc, window: bool) {
    p.AllocPeak? || (window && p.AllocWindow?)
  }

  ghost function Register(s: State, window: bool): nat {
    if window then s.k.window else s.k.peak
  }

  /** Nothing larger than `m` is in the register or in flight. */
  ghost predicate Bounded(s: State, m: int, window: bool) {
    && Register(s, window) <= Clamp(m)
    && (forall t :: 0 <= t < |s.threads| && Holds(s.threads[t], window) ==> s.threads[t].live <= Clamp(m))
  }

  /** The maximum `m` is in the register or still in flight. */
  ghost predicate Reached(s: State, m: int, window: bool) {
    || Register(s, window) == Clamp(m)
    || exists t :: 0 <= t < |s.threads| && Holds(s.threads[t], window) && s.threads[t].live == Clamp(m)
  }

  ghost predicate Tracks(s: State, m: int, window: bool) {
    Bounded(s, m, window) && Reached(s, m, window)
  }

  ghost predicate NoReset(s: State) {
    forall t :: 0 <= t < |s.threads| ==> !s.threads[t].ResetStore?
  }

  ghost function Larger(m: int, n: int): int {
    if m < n then n else m
  }

  lemma StepKeepsBounded(s: State, a: Action, m: int, window: bool)
    requires Inv(s) && Enabled(s, a) && Live(s) <= m && Bounded(s, m, window)
    requires window ==> NoReset(s)
    ensures Bounded(Apply(s, a), Larger(m, Live(Apply(s, a))), window)
  {
    StepMovesLive(s, a);
    LiveIsNatural(s);
  }

  lemma StepKeepsReached(s: State, a: Action, m: int, window: bool)
    requires Inv(s) && Enabled(s, a) && Bounded(s, m, window) && Reached(s, m, window)
    requires window ==> NoReset(s)
    ensures Reached(Apply(s, a), m, window)
  {
    var s' := Apply(s, a);
    var p, p' := s.threads[a.t], s'.threads[a.t];
    assert forall t :: 0 <= t < |s.threads| && t != a.t ==> s'.threads[t] == s.threads[t];
    if Register(s, window) != Clamp(m) {
      var u :| 0 <= u < |s.threads| && Holds(s.threads[u], window) && s.threads[u].live == Clamp(m);
      assert u != a.t ==> Holds(s'.threads[u], window) && s'.threads[u].live == Clamp(m);
      assert u == a.t ==> Register(s', window) == Clamp(m) || (Holds(p', window) && p'.live == Clamp(m));
    }
  }

  /** Only the increment of LIVE raises the number of live bytes, and it takes the clamped new number along. */
  lemma StepReachesNew(s: State, a: Action, window: bool)
    requires Inv(s) && Enabled(s, a) && Live(s) < Live(Apply(s, a)) && Live(s) < WORD
    ensures Reached(Apply(s, a), Live(Apply(s, a)), window)
  {
    var s' := Apply(s, a);
    StepMovesLive(s, a);
    LiveIsNatural(s);
    var p' := s'.threads[a.t];
    assert Holds(p', window) && p'.live == Clamp(Live(s'));
  }

  /** A step keeps the register in touch with the maximum, window resets apart. */
  lemma StepTracks(s: State, a: Action, m: int, window: bool)
    requires Inv(s) && Enabled(s, a) && Live(s) <= m && Tracks(s, m, window)
    requires window ==> NoReset(s)
    ensures Tracks(Apply(s, a), Larger(m, Live(Apply(s, a))), window)
  {
    StepKeepsBounded(s, a, m, window);
    if m < Live(Apply(s, a)) && Live(s) < WORD {
      StepReachesNew(s, a, window);
    } else {
      StepKeepsReached(s, a, m, window);
    }
  }

  lemma PrefixIsRun(states: seq<State>, actions: seq<Action>, n: nat)
    requires IsRun(states, actions) && n <= |actions|
    ensures IsRun(states[..n + 1], actions[..n])
  {
    var visited, taken := states[..n + 1], actions[..n];
    forall i | 0 <= i < n ensures TakesStep(visited, taken, i) {
      assert TakesStep(states, actions, i);
    }
  }

  /** Over a run the register keeps track of the largest live value since its start. */
  lemma {:induction false} RunTracks(states: seq<State>, actions: seq<Action>, window: bool)
    requires IsRun(states, actions) && Inv(states[0]) && Tracks(states[0], Live(states[0]), window)
    requires window ==> NoReset(states[0]) && forall i :: 0 <= i < |actions| ==> !actions[i].BeginReset?
    ensures Live(states[|actions|]) <= MaxLive(states) && Tracks(states[|actions|], MaxLive(states), window)
    ensures window ==> NoReset(states[|actions|])
    decreases |actions|
  {
    var n := |actions|;
    if n > 0 {
      PrefixIsRun(states, actions, n - 1);
      RunTracks(states[..n], actions[..n - 1], window);
      RunKeepsInv(states, actions, n - 1);
      assert TakesStep(states, actions, n - 1);
      StepTracks(states[n - 1], actions[n - 1], MaxLive(states[..n]), window);
    }
  }

  /**
    Whenever no operation is in flight, PEAK is the largest number of live bytes
    of the whole run, for every number of threads and every interleaving (clamped
    to the word, should the exact number ever pass it).
   */
  lemma PeakIsLargestLive(threads: nat, states: seq<State>, actions: seq<Action>)
    requires IsRun(states, actions) && states[0] == Initial(threads)
    requires Quiescent(states[|actions|])
    ensures states[|actions|].k.peak == Clamp(MaxLive(states))
  {
    InitialHolds(threads);
    SumConstant(states[0].threads, CarriedFn(), 0);
    RunTracks(states, actions, false);
  }

  lemma {:induction false} MaxLiveOfSuffix(states: seq<State>, r: nat)
    requires r < |states|
    ensures MaxLive(states[r..]) <= MaxLive(states)
    ensures Live(states[r]) <= MaxLive(states[r..])
    decreases |states|
  {
    var n := |states| - 1;
    if r < n {
      assert states[r..][..n - r] == states[..n][r..];
      MaxLiveOfSuffix(states[..n], r);
    } else {
      assert states[r..] == [states[n]];
    }
  }

  /** A reset taken while nothing else is in flight leaves WINDOW_PEAK at the current live bytes. */
  lemma QuiescentReset(s: State, t: nat)
    requires Inv(s) && Quiescent(s) && t < |s.threads| && Live(s) < WORD
    ensures var s1 := Apply(s, BeginReset(t));
            var s2 := Apply(s1, Step(t));
            Quiescent(s2) && Live(s2) == Live(s) && s2.k.window == Live(s) && s2.blocks == s.blocks
  {
    StepMovesLive(s, BeginReset(t));
    StepMovesLive(Apply(s, BeginReset(t)), Step(t));
    LiveIsNatural(s);
  }

  lemma SuffixIsRun(states: seq<State>, actions: seq<Action>, r: nat)
    requires IsRun(states, actions) && r <= |actions|
    ensures IsRun(states[r..], actions[r..])
  {
    forall i | 0 <= i < |actions[r..]| ensures TakesStep(states[r..], actions[r..], i) {
      assert TakesStep(states, actions, i + r);
    }
  }

  /** The two steps of a quiescent reset leave WINDOW_PEAK tracking the live bytes. */
  lemma ResetTracks(states: seq<State>, actions: seq<Action>, r: nat, t: nat)
    requires IsRun(states, actions) && r + 1 < |actions| && Inv(states[r])
    requires Quiescent(states[r]) && actions[r] == BeginReset(t) && actions[r + 1] == Step(t) && Live(states[r]) < WORD
    ensures NoReset(states[r + 2]) && Tracks(states[r + 2], Live(states[r + 2]), true)
  {
    assert TakesStep(states, actions, r) && TakesStep(states, actions, r + 1);
    QuiescentReset(states[r], t);
  }

  /** From a state that tracks its live bytes on, without further resets, up to a quiescent state. */
  lemma WindowOfRun(states: seq<State>, actions: seq<Action>)
    requires IsRun(states, actions) && Inv(states[0]) && Tracks(states[0], Live(states[0]), true) && NoReset(states[0])
    requires forall i :: 0 <= i < |actions| ==> !actions[i].BeginReset?
    requires Quiescent(states[|actions|])
    ensures states[|actions|].k.window == Clamp(MaxLive(states))
  {
    RunTracks(states, actions, true);
  }

  /** What is left of a run behind position `r`, when no reset follows. */
  lemma WindowOfSuffix(states: seq<State>, actions: seq<Action>, r: nat)
    requires IsRun(states, actions) && r <= |actions| && Inv(states[r])
    requires Tracks(states[r], Live(states[r]), true) && NoReset(states[r])
    requires forall i :: r <= i < |actions| ==> !actions[i].BeginReset?
    requires Quiescent(states[|actions|])
    ensures states[|actions|].k.window == Clamp(MaxLive(states[r..]))
  {
    SuffixIsRun(states, actions, r);
    WindowOfRun(states[r..], actions[r..]);
  }

  lemma ClampGrows(a: int, b: int)
    requires a <= b
    ensures Clamp(a) <= Clamp(b)
  {
  }

  /**
    After a quiescent reset at position `r`, WINDOW_PEAK at the next quiescent
    point is the largest number of live bytes since that reset, and never more
    than PEAK.
   */
  lemma WindowPeakIsLargestSinceReset(threads: nat, states: seq<State>, actions: seq<Action>, r: nat, t: nat)
    requires IsRun(states, actions) && states[0] == Initial(threads) && r + 1 < |actions|
    requires Quiescent(states[r]) && actions[r] == BeginReset(t) && actions[r + 1] == Step(t)
    requires forall i :: r < i < |actions| ==> !actions[i].BeginReset?
    requires Live(states[r]) < WORD && Quiescent(states[|actions|])
    ensures states[|actions|].k.window == Clamp(MaxLive(states[r + 2..]))
    ensures states[|actions|].k.window <= states[|actions|].k.peak
  {
    ReachedHasInv(threads, states, actions, r);
    ReachedHasInv(threads, states, actions, r + 2);
    ResetTracks(states, actions, r, t);
    WindowOfSuffix(states, actions, r + 2);
    PeakIsLargestLive(threads, states, actions);
    MaxLiveOfSuffix(states, r + 2);
    ClampGrows(MaxLive(states[r + 2..]), MaxLive(states));
  }
}
