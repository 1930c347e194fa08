/**
  `std::sync::Barrier`: an arrival count and a generation. A party that is not
  the last to arrive waits until the generation moves on.
 */
module CyclicBarrier {
  import opened Sums

  /** `passed` is how many waits the party has completed. */
  datatype Party = Running(passed: nat) | Waiting(passed: nat)

  datatype Barrier = Barrier(count: nat, generation: nat, parties: seq<Party>)

  datatype Op = Arrive(t: nat) | Wake(t: nat)

  function Fresh(parties: nat): Barrier {
    Barrier(0, 0, seq(parties, _ => Running(0)))
  }

  predicate Enabled(b: Barrier, op: Op) {
    op.t < |b.parties| &&
    match op
    case Arrive(t) => b.parties[t].Running?
    case Wake(t) => b.parties[t].Waiting? && b.parties[t].passed != b.generation
  }

  function Apply(b: Barrier, op: Op): Barrier
    requires Enabled(b, op)
  {
    var p := b.parties[op.t].passed;
    match op
    case Arrive(t) =>
      if b.count + 1 < |b.parties|
      then b.(count := b.count + 1, parties := b.parties[t := Waiting(p)])
      else Barrier(0, b.generation + 1, b.parties[t := Running(p + 1)])
    case Wake(t) => b.(parties := b.parties[t := Running(p + 1)])
  }

  ghost function Arrived(generation: nat): (nat, Party) -> int {
    (_: nat, p: Party) => if p == Waiting(generation) then 1 else 0
  }

  /** Every party is in the current generation, or still asleep in the one just completed. */
  ghost predicate Valid(b: Barrier) {
    && b.count < |b.parties|
    && b.count == Sum(b.parties, Arrived(b.generation))
    && forall t :: 0 <= t < |b.parties| ==>
         || b.parties[t].passed == b.generation
         || (b.parties[t].Waiting? && b.parties[t].passed + 1 == b.generation)
  }

  lemma FreshIsValid(parties: nat)
    requires parties > 0
    ensures Valid(Fresh(parties))
  {
    SumConstant(Fresh(parties).parties, Arrived(0), 0);
  }

  lemma ApplyKeepsValid(b: Barrier, op: Op)
    requires Valid(b) && Enabled(b, op)
    ensures Valid(Apply(b, op)) && |Apply(b, op).parties| == |b.parties|
  {
    var b' := Apply(b, op);
    SumUpdate(b.parties, op.t, b'.parties[op.t], Arrived(b.generation));
    if b'.generation != b.generation {
      AllHaveArrived(b, op.t);
      SumConstant(b'.parties, Arrived(b'.generation), 0);
    }
  }

  /** The last arrival finds every other party waiting in the current generation. */
  lemma AllHaveArrived(b: Barrier, t: nat)
    requires Valid(b) && Enabled(b, Arrive(t)) && b.count + 1 == |b.parties|
    ensures forall i :: 0 <= i < |b.parties| && i != t ==> b.parties[i] == Waiting(b.generation)
  {
    forall i | 0 <= i < |b.parties| && i != t ensures b.parties[i] == Waiting(b.generation) {
      if b.parties[i] != Waiting(b.generation) {
        var filled := b.parties[t := Waiting(b.generation)];
        SumUpdate(b.parties, t, Waiting(b.generation), Arrived(b.generation));
        SumBelowLength(filled, i, Arrived(b.generation));
      }
    }
  }

  /** When every party is asleep, one of them can be woken: a barrier never locks up by itself. */
  lemma SleepersCanWake(b: Barrier) returns (t: nat)
    requires Valid(b)
    requires forall i :: 0 <= i < |b.parties| ==> b.parties[i].Waiting?
    ensures Enabled(b, Wake(t))
  {
    if forall i :: 0 <= i < |b.parties| ==> b.parties[i] == Waiting(b.generation) {
      SumConstant(b.parties, Arrived(b.generation), 1);
      assert false;
    }
    t :| 0 <= t < |b.parties| && b.parties[t] != Waiting(b.generation);
  }
}
