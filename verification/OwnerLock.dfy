/**
  The publication owner's lock: an admission mutex taken before the state lock
  and dropped once the state lock is held. Threads are numbered; `gates[t]` is
  how far thread `t` has come inside `with_write` (exclusive) or `with_read`
  (shared).
 */
module OwnerLock {
  import opened Options

  datatype Kind = Shared | Exclusive

  datatype Gate =
    | Outside
    | Queued(kind: Kind)    // about to lock admission
    | Admitted(kind: Kind)  // holds admission, about to lock the state
    | Entered(kind: Kind)   // holds both
    | Inside(kind: Kind)    // holds the state only, running its callback

  datatype Lock = Lock(admission: Option<nat>, exclusive: Option<nat>, shared: set<nat>, gates: seq<Gate>)

  datatype Op =
    | Request(t: nat, kind: Kind)
    | LockAdmission(t: nat)
    | LockState(t: nat)
    | DropAdmission(t: nat)
    | Release(t: nat)

  function Fresh(threads: nat): Lock {
    Lock(None, None, {}, seq(threads, _ => Outside))
  }

  predicate Enabled(l: Lock, op: Op) {
    op.t < |l.gates| &&
    match op
    case Request(t, _) => l.gates[t].Outside?
    case LockAdmission(t) => l.gates[t].Queued? && l.admission.None?
    case LockState(t) =>
      && l.gates[t].Admitted?
      && l.exclusive.None?
      && (l.gates[t].kind.Exclusive? ==> l.shared == {})
    case DropAdmission(t) => l.gates[t].Entered?
    case Release(t) => l.gates[t].Inside?
  }

  function Apply(l: Lock, op: Op): Lock
    requires Enabled(l, op)
  {
    match op
    case Request(t, kind) => l.(gates := l.gates[t := Queued(kind)])
    case LockAdmission(t) => l.(admission := Some(t), gates := l.gates[t := Admitted(l.gates[t].kind)])
    case LockState(t) =>
      var moved := l.(gates := l.gates[t := Entered(l.gates[t].kind)]);
      if l.gates[t].kind.Exclusive? then moved.(exclusive := Some(t)) else moved.(shared := l.shared + {t})
    case DropAdmission(t) => l.(admission := None, gates := l.gates[t := Inside(l.gates[t].kind)])
    case Release(t) =>
      var moved := l.(gates := l.gates[t := Outside]);
      if l.gates[t].kind.Exclusive? then moved.(exclusive := None) else moved.(shared := l.shared - {t})
  }

  predicate Holds(g: Gate) {
    g.Entered? || g.Inside?
  }

  /** The lock words agree with the threads that hold them. */
  ghost predicate Valid(l: Lock) {
    && (l.admission.Some? ==> l.admission.value < |l.gates|)
    && (l.exclusive.Some? ==> l.exclusive.value < |l.gates|)
    && (forall t :: t in l.shared ==> t < |l.gates|)
    && (forall t: nat :: t < |l.gates| ==> (l.admission == Some(t) <==> l.gates[t].Admitted? || l.gates[t].Entered?))
    && (forall t: nat :: t < |l.gates| ==>
          (l.exclusive == Some(t) <==> Holds(l.gates[t]) && l.gates[t].kind.Exclusive?))
    && (forall t: nat :: t < |l.gates| ==> (t in l.shared <==> Holds(l.gates[t]) && l.gates[t].kind.Shared?))
    && (l.exclusive.Some? ==> l.shared == {})
  }

  lemma FreshIsValid(threads: nat)
    ensures Valid(Fresh(threads))
  {
  }

  lemma ApplyKeepsValid(l: Lock, op: Op)
    requires Valid(l) && Enabled(l, op)
    ensures Valid(Apply(l, op)) && |Apply(l, op).gates| == |l.gates|
  {
  }

  ghost predicate Runnable(l: Lock, ops: seq<Op>)
    decreases |ops|
  {
    ops == [] || (Enabled(l, ops[0]) && Runnable(Apply(l, ops[0]), ops[1..]))
  }

  ghost function Run(l: Lock, ops: seq<Op>): Lock
    requires Runnable(l, ops)
    decreases |ops|
  {
    if ops == [] then l else Run(Apply(l, ops[0]), ops[1..])
  }

  /** Over every run: an exclusive holder excludes every other holder. */
  lemma {:induction false} MutualExclusion(l: Lock, ops: seq<Op>, a: nat, b: nat)
    requires Valid(l) && Runnable(l, ops)
    requires a < |l.gates| && b < |l.gates| && a != b
    ensures Valid(Run(l, ops)) && |Run(l, ops).gates| == |l.gates|
    ensures Holds(Run(l, ops).gates[a]) && Run(l, ops).gates[a].kind.Exclusive? ==> !Holds(Run(l, ops).gates[b])
    decreases |ops|
  {
    if ops != [] {
      ApplyKeepsValid(l, ops[0]);
      MutualExclusion(Apply(l, ops[0]), ops[1..], a, b);
    } else {
      var gates := l.gates;
      assert Holds(gates[b]) ==> l.exclusive == Some(b) || b in l.shared;
    }
  }

  /** While any thread is inside the owner, either the lock itself can move or some callback is running. */
  lemma LockProgress(l: Lock, t: nat) returns (op: Op)
    requires Valid(l) && t < |l.gates| && !l.gates[t].Outside?
    ensures Enabled(l, op) && !op.Request?
  {
    if l.exclusive.Some? {
      var h := l.exclusive.value;
      op := if l.gates[h].Entered? then DropAdmission(h) else Release(h);
    } else if l.shared != {} {
      var h :| h in l.shared;
      op := if l.gates[h].Entered? then DropAdmission(h) else Release(h);
    } else if l.admission.Some? {
      op := LockState(l.admission.value);
    } else {
      op := LockAdmission(t);
    }
  }

  /** The threads that hold the state lock. */
  ghost function Holders(l: Lock): set<nat> {
    set t: nat | t < |l.gates| && Holds(l.gates[t])
  }

  /**
    No barging: once a thread is admitted, whatever the others do while it waits,
    nobody else enters the state lock; the holders it waits for only leave.
   */
  lemma {:induction false} AdmittedThreadIsNext(l: Lock, ops: seq<Op>, t: nat)
    requires Valid(l) && Runnable(l, ops)
    requires t < |l.gates| && l.gates[t].Admitted?
    requires forall op :: op in ops ==> op.t != t
    ensures Run(l, ops).gates != [] && t < |Run(l, ops).gates| && Run(l, ops).gates[t] == l.gates[t]
    ensures Holders(Run(l, ops)) <= Holders(l)
    decreases |ops|
  {
    if ops != [] {
      assert ops[0].t != t;
      ApplyKeepsValid(l, ops[0]);
      assert !ops[0].LockState?;
      AdmittedThreadIsNext(Apply(l, ops[0]), ops[1..], t);
    }
  }
}
