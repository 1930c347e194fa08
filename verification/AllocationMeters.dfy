/**
  The five counters of the allocator that only grow. Each operation is charged to
  them when it begins and pays step by step; with nothing in flight they are the
  exact totals of the run, as wrapping words.
 */
module AllocationMeters {
  import opened Sums
  import opened Words
  import opened Allocator

  datatype Meter = Allocations | AllocatedBytes | Deallocations | DeallocatedBytes | Reallocations

  function Value(k: Counters, m: Meter): nat {
    match m
    case Allocations => k.allocations
    case AllocatedBytes => k.allocatedBytes
    case Deallocations => k.deallocations
    case DeallocatedBytes => k.deallocatedBytes
    case Reallocations => k.reallocations
  }

  /** What one call of `allocated`, `deallocated` or `realloc` adds. */
  function Allocating(size: nat, m: Meter): nat {
    if m.Allocations? then 1 else if m.AllocatedBytes? then size else 0
  }

  function Freeing(size: nat, m: Meter): nat {
    if m.Deallocations? then 1 else if m.DeallocatedBytes? then size else 0
  }

  function Resizing(size: nat, next: nat, m: Meter): nat {
    Freeing(size, m) + Allocating(next, m) + if m.Reallocations? then 1 else 0
  }

  /** What the beginning of an operation promises to add. */
  function Charge(s: State, a: Action, m: Meter): nat
    requires Enabled(s, a)
  {
    match a
    case BeginAlloc(_, size) => Allocating(size, m)
    case BeginFree(_, b) => Freeing(s.blocks[b].size, m)
    case BeginRealloc(_, b, next) => Resizing(s.blocks[b].size, next, m)
    case _ => 0
  }

  ghost function OwedAfter(after: Resize, m: Meter): nat {
    if after.Resize? then Allocating(after.next, m) else 0
  }

  /** What an operation in flight has still to add. */
  ghost function Owed(p: Pc, m: Meter): nat {
    match p
    case AllocCalls(size) => Allocating(size, m)
    case AllocBytes(size) => if m.AllocatedBytes? then size else 0
    case ReallocCalls(size, next) => Resizing(size, next, m)
    case FreeCalls(size, after) => Freeing(size, m) + OwedAfter(after, m)
    case FreeBytes(size, after) => (if m.DeallocatedBytes? then size else 0) + OwedAfter(after, m)
    case FreeLive(_, after) => OwedAfter(after, m)
    case _ => 0
  }

  ghost function OwedFn(m: Meter): (nat, Pc) -> int {
    (_: nat, p: Pc) => Owed(p, m)
  }

  ghost function Account(s: State, m: Meter): int {
    Value(s.k, m) + Sum(s.threads, OwedFn(m))
  }

  /** A step pays exactly what it lowers the debt by, apart from a wrapped word. */
  lemma StepPays(k: Counters, p: Pc, m: Meter)
    requires Fits(p) && Value(k, m) < WORD
    ensures var paid := Owed(p, m) - Owed(NextPc(k, p), m);
            var after := Value(NextCounters(k, p), m);
            after == Value(k, m) + paid || after == Value(k, m) + paid - WORD
  {
    match p
    case AllocBytes(size) => AddWraps(Value(k, m), size);
    case FreeBytes(size, _) => AddWraps(Value(k, m), size);
    case _ => AddWraps(Value(k, m), 1);
  }

  lemma ActionSettles(s: State, a: Action, m: Meter)
    requires WordSized(s) && Enabled(s, a)
    ensures var s' := Apply(s, a);
            var settled := Account(s, m) + Charge(s, a, m);
            Account(s', m) == settled || Account(s', m) == settled - WORD
  {
    var s' := Apply(s, a);
    SumUpdate(s.threads, a.t, s'.threads[a.t], OwedFn(m));
    if a.Step? {
      assert Fits(s.threads[a.t]);
      StepPays(s.k, s.threads[a.t], m);
    }
  }

  /** The exact total that the first `n` actions of a run promise. */
  ghost function Total(states: seq<State>, actions: seq<Action>, n: nat, m: Meter): nat
    requires IsRun(states, actions) && n <= |actions|
  {
    if n == 0 then 0
    else
      assert TakesStep(states, actions, n - 1);
      Total(states, actions, n - 1, m) + Charge(states[n - 1], actions[n - 1], m)
  }

  lemma Carry(account: int, total: nat, account': int, charge: nat)
    requires (account - total) % WORD == 0 && (account' == account + charge || account' == account + charge - WORD)
    ensures (account' - (total + charge)) % WORD == 0
  {
    MultipleOfWord(account - total, account' - (total + charge));
  }

  lemma ExactWord(value: nat, total: nat)
    requires value < WORD && (value - total) % WORD == 0
    ensures value == total % WORD
  {
    Residue(total, value) by {
      assert total - value == 0 - (value - total);
    }
  }

  lemma RunFits(threads: nat, states: seq<State>, actions: seq<Action>, n: nat)
    requires IsRun(states, actions) && states[0] == Initial(threads) && n <= |actions|
    ensures WordSized(states[n])
  {
    ReachedHasInv(threads, states, actions, n);
  }

  lemma InitialSettles(threads: nat, m: Meter)
    ensures Account(Initial(threads), m) == 0
  {
    SumConstant(Initial(threads).threads, OwedFn(m), 0);
  }

  lemma StepSettles(s: State, a: Action, m: Meter, total: nat)
    requires WordSized(s) && Enabled(s, a) && (Account(s, m) - total) % WORD == 0
    ensures (Account(Apply(s, a), m) - (total + Charge(s, a, m))) % WORD == 0
  {
    ActionSettles(s, a, m);
    Carry(Account(s, m), total, Account(Apply(s, a), m), Charge(s, a, m));
  }

  lemma {:induction false} RunSettles(threads: nat, states: seq<State>, actions: seq<Action>, n: nat, m: Meter)
    requires IsRun(states, actions) && states[0] == Initial(threads) && n <= |actions|
    ensures (Account(states[n], m) - Total(states, actions, n, m)) % WORD == 0
    decreases n
  {
    if n == 0 {
      InitialSettles(threads, m);
    } else {
      RunSettles(threads, states, actions, n - 1, m);
      RunFits(threads, states, actions, n - 1);
      assert TakesStep(states, actions, n - 1);
      StepSettles(states[n - 1], actions[n - 1], m, Total(states, actions, n - 1, m));
    }
  }

  lemma QuiescentAccount(s: State, m: Meter)
    requires Quiescent(s)
    ensures Account(s, m) == Value(s.k, m)
  {
    SumConstant(s.threads, OwedFn(m), 0);
  }

  /**
    With nothing in flight every counter is the exact total over all operations of
    the run: a resize counts once as a reallocation, once as a deallocation of the
    old size and once as an allocation of the new one.
   */
  lemma CountersAreExact(threads: nat, states: seq<State>, actions: seq<Action>, n: nat, m: Meter)
    requires IsRun(states, actions) && states[0] == Initial(threads) && n <= |actions| && Quiescent(states[n])
    ensures Value(states[n].k, m) == Total(states, actions, n, m) % WORD
  {
    RunSettles(threads, states, actions, n, m);
    RunFits(threads, states, actions, n);
    QuiescentAccount(states[n], m);
    ExactWord(Value(states[n].k, m), Total(states, actions, n, m));
  }
}
