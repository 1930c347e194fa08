/**
  The concurrent phase of the consumer publication benchmark as a step machine:
  foreground writers, one publisher, readers and the main thread over a shared
  barrier, the publication owner's lock, bounded channels and atomics.

  Thread numbers: writers `0..writers`, then the publisher, then the readers,
  then main. A callback run under the owner is one step together with its
  unlock; every atomic operation, channel operation and lock operation outside
  it is a step of its own, and steps interleave freely.

  The engine enters through three assumptions: a committed update raises the
  commit epoch by one, checkpoints and projection work do not move it, and a
  successful publication sets the consumer's receipt to the captured epoch (to
  the current epoch in legacy mode, which catches up inside the callback).
 */
module Publication {
  import opened Options
  import opened Strides
  import L = OwnerLock
  import B = CyclicBarrier

  datatype Mode = Disabled | Legacy | Covered | ScopedBlocking | Detached

  datatype Config = Config(
    mode: Mode, writers: nat, writes: nat, readers: nat, requests: nat,
    sustained: bool, capture: bool, initial: nat)

  const CHECKPOINT_INTERVAL: nat := 16384

  function Limit(c: Config): nat {
    if c.sustained then 4096 else 16
  }

  function PublisherId(c: Config): nat { c.writers }
  function ReaderId(c: Config, r: nat): nat { c.writers + 1 + r }
  function MainId(c: Config): nat { c.writers + 1 + c.readers }
  function Threads(c: Config): nat { c.writers + c.readers + 2 }

  /** The cross-field conditions that `main` asserts; its numeric ceilings are not needed. */
  predicate Coherent(c: Config) {
    && c.writers > 0
    && (c.capture ==> !c.sustained)
  }

  /** What a run needs in order to finish. Follows from the assertions in `main`. */
  predicate CanFinish(c: Config) {
    c.capture ==> !c.mode.Legacy? && c.writers <= c.writes
  }

  datatype WriterPc =
    | WBegin            // at ready.wait
    | WAwait            // start.recv
    | WLoop(i: nat)     // loop head of iteration i
    | WWrite(i: nat)    // inside exclusive(..)
    | WCount(i: nat)    // completed.fetch_add
    | WAnnounce         // first_commit.send, after iteration 0
    | WExit(i: nat)     // active.fetch_sub
    | WDone(i: nat)

  datatype PublisherPc =
    | PBegin
    | PNext(k: nat)            // loop head of sequence k
    | PTrigger(k: nat)         // exclusive: trigger update
    | PSend(k: nat, j: nat)    // WriterStart::release, sending to writer j
    | PRecv(k: nat, j: nat)    // WriterStart::release, j commits received
    | PCapture(k: nat)         // exclusive: begin the session, capture E
    | PPrepare(k: nat)         // outside the owner
    | PReserve(k: nat)         // exclusive
    | PConstruct(k: nat)       // outside the owner
    | PPublish(k: nat)         // exclusive
    | PCleanup(k: nat)         // exclusive
    | PDone

  datatype ReaderPc = RBegin | RNext(n: nat) | RRead(n: nat) | RDone(n: nat)

  datatype Commit = Commit(writer: nat, i: nat)

  /** One row of the report that `attempt` returns. */
  datatype Attempt = Attempt(
    before: nat, after: nat, captured: Option<nat>, source: Option<nat>, published: bool)

  datatype Database = Database(epoch: nat, rows: seq<nat>, log: seq<Commit>)

  datatype Checkpoints = Checkpoints(writes: nat, samples: seq<nat>)

  datatype Consumer = Consumer(watermark: nat, captured: nat, attempts: seq<Attempt>)

  datatype Channels = Channels(start: seq<nat>, committed: nat)

  datatype State = State(
    barrier: B.Barrier, lock: L.Lock,
    writers: seq<WriterPc>, publisher: PublisherPc, readers: seq<ReaderPc>, joined: bool,
    channels: Channels, active: int, completed: nat,
    checkpoints: Checkpoints, db: Database, triggers: nat, consumer: Consumer, releases: nat)

  datatype Action =
    | BarrierOp(bop: B.Op)
    | LockOp(lop: L.Op)
    | WriterStep(w: nat)
    | PublisherStep(refused: bool)
    | ReaderStep(r: nat)
    | MainJoin

  function Initial(c: Config): State {
    State(
      B.Fresh(Threads(c)), L.Fresh(Threads(c)),
      seq(c.writers, _ => WBegin), PBegin, seq(c.readers, _ => RBegin), false,
      Channels(seq(c.writers, _ => 0), 0), c.writers, 0,
      Checkpoints(0, []), Database(c.initial, seq(c.writers, _ => 0), []), 0,
      Consumer(c.initial, 0, []), 0)
  }

  ghost predicate Shape(c: Config, s: State) {
    && |s.writers| == |s.channels.start| == |s.db.rows| == c.writers
    && |s.readers| == c.readers
    && |s.lock.gates| == |s.barrier.parties| == Threads(c)
  }

  predicate Passed(s: State, t: nat) {
    t < |s.barrier.parties| && s.barrier.parties[t] == B.Running(1)
  }

  predicate IsOutside(s: State, t: nat) {
    t < |s.lock.gates| && s.lock.gates[t].Outside?
  }

  predicate IsInside(s: State, t: nat) {
    t < |s.lock.gates| && s.lock.gates[t].Inside?
  }

  function Request(s: State, t: nat, kind: L.Kind): L.Lock
    requires IsOutside(s, t)
  {
    L.Apply(s.lock, L.Request(t, kind))
  }

  function Unlock(s: State, t: nat): L.Lock
    requires IsInside(s, t)
  {
    L.Apply(s.lock, L.Release(t))
  }

  // ----- writers -----

  ghost predicate WriterEnabled(c: Config, s: State, w: nat)
    requires Shape(c, s)
  {
    w < c.writers &&
    match s.writers[w]
    case WBegin => Passed(s, w)
    case WAwait => s.channels.start[w] > 0
    case WLoop(i) => IsOutside(s, w)
    case WWrite(i) => IsInside(s, w)
    case WCount(i) => true
    case WAnnounce => s.channels.committed < c.writers
    case WExit(i) => true
    case WDone(i) => false
  }

  /** The body of a foreground write: the update and, when sustained, the checkpoint cadence. */
  function CommitWrite(c: Config, db: Database, w: nat, i: nat): Database
    requires w < |db.rows|
  {
    Database(db.epoch + 1, db.rows[w := Nth(w, i, c.writers) + 1], db.log + [Commit(w, i)])
  }

  function CountWrite(c: Config, k: Checkpoints): Checkpoints {
    if !c.sustained then k
    else
      var count := k.writes + 1;
      Checkpoints(count, if count % CHECKPOINT_INTERVAL == 0 then k.samples + [count] else k.samples)
  }

  function WriterNext(c: Config, i: nat): WriterPc {
    if c.capture && i == 0 then WAnnounce else WLoop(i + 1)
  }

  ghost function ApplyWriter(c: Config, s: State, w: nat): State
    requires Shape(c, s) && WriterEnabled(c, s, w)
  {
    match s.writers[w]
    case WBegin => s.(writers := s.writers[w := if c.capture then WAwait else WLoop(0)])
    case WAwait =>
      s.(writers := s.writers[w := WLoop(0)],
         channels := s.channels.(start := s.channels.start[w := s.channels.start[w] - 1]))
    case WLoop(i) =>
      if Nth(w, i, c.writers) < c.writes
      then s.(writers := s.writers[w := WWrite(i)], lock := Request(s, w, L.Exclusive))
      else s.(writers := s.writers[w := WExit(i)])
    case WWrite(i) =>
      s.(writers := s.writers[w := WCount(i)], lock := Unlock(s, w),
         db := CommitWrite(c, s.db, w, i), checkpoints := CountWrite(c, s.checkpoints))
    case WCount(i) =>
      s.(writers := s.writers[w := WriterNext(c, i)], completed := s.completed + 1)
    case WAnnounce =>
      s.(writers := s.writers[w := WLoop(1)],
         channels := s.channels.(committed := s.channels.committed + 1))
    case WExit(i) =>
      s.(writers := s.writers[w := WDone(i)], active := s.active - 1)
    case WDone(i) => s
  }

  // ----- publisher -----

  predicate AtOwner(p: PublisherPc) {
    p.PTrigger? || p.PCapture? || p.PReserve? || p.PPublish? || p.PCleanup?
  }

  ghost predicate PublisherEnabled(c: Config, s: State)
    requires Shape(c, s)
  {
    var me := PublisherId(c);
    match s.publisher
    case PBegin => Passed(s, me)
    case PSend(_, j) => j < c.writers && s.channels.start[j] < 1 && IsOutside(s, me)
    case PRecv(_, _) => s.channels.committed > 0 && IsOutside(s, me)
    case PDone => false
    case p => if AtOwner(p) then IsInside(s, me) else IsOutside(s, me)
  }

  /** Where the publisher goes next; `active` is what its loop head loads. */
  function NextPublisher(c: Config, p: PublisherPc, active: int): PublisherPc {
    match p
    case PBegin => PNext(1)
    case PNext(k) => if k > Limit(c) || (c.sustained && active == 0) then PDone else PTrigger(k)
    case PTrigger(k) =>
      if c.mode.Disabled? then (if c.capture && k == 1 then PSend(k, 0) else PNext(k + 1))
      else if c.mode.Legacy? then PPublish(k)
      else PCapture(k)
    case PCapture(k) => if c.capture && k == 1 then PSend(k, 0) else PPrepare(k)
    case PSend(k, j) => if j + 1 < c.writers then PSend(k, j + 1) else PRecv(k, 0)
    case PRecv(k, j) =>
      if j + 1 < c.writers then PRecv(k, j + 1)
      else if c.mode.Disabled? then PNext(k + 1) else PPrepare(k)
    case PPrepare(k) => if c.mode.Detached? then PReserve(k) else PPublish(k)
    case PReserve(k) => PConstruct(k)
    case PConstruct(k) => PPublish(k)
    case PPublish(k) => PCleanup(k)
    case PCleanup(k) => PNext(k + 1)
    case PDone => PDone
  }

  /** Leave the owner after a callback; queue for it when the next step is a callback. */
  function PublisherLock(c: Config, s: State, p: PublisherPc): L.Lock
    requires AtOwner(s.publisher) ==> IsInside(s, PublisherId(c))
    requires !AtOwner(s.publisher) && AtOwner(p) ==> IsOutside(s, PublisherId(c))
  {
    var me := PublisherId(c);
    var l := if AtOwner(s.publisher) then L.Apply(s.lock, L.Release(me)) else s.lock;
    if AtOwner(p) then L.Apply(l, L.Request(me, L.Exclusive)) else l
  }

  function PublisherChannels(h: Channels, p: PublisherPc): Channels
    requires p.PSend? ==> p.j < |h.start|
    requires p.PRecv? ==> h.committed > 0
  {
    if p.PSend? then h.(start := h.start[p.j := h.start[p.j] + 1])
    else if p.PRecv? then h.(committed := h.committed - 1)
    else h
  }

  /** Only covered mode may be refused; a refusal leaves the consumer where it was. */
  function Publish(c: Config, u: Consumer, epoch: nat, refused: bool): Consumer {
    var ok := !(refused && c.mode.Covered?);
    var after := if !ok then u.watermark else if c.mode.Legacy? then epoch else u.captured;
    var seen := if c.mode.Legacy? then (None, None) else (Some(u.captured), Some(epoch));
    u.(watermark := after, attempts := u.attempts + [Attempt(u.watermark, after, seen.0, seen.1, ok)])
  }

  function PublisherConsumer(c: Config, u: Consumer, p: PublisherPc, epoch: nat, refused: bool): Consumer {
    if p.PCapture? then u.(captured := epoch)
    else if p.PPublish? then Publish(c, u, epoch, refused)
    else u
  }

  ghost function ApplyPublisher(c: Config, s: State, refused: bool): State
    requires Shape(c, s) && PublisherEnabled(c, s)
  {
    var p := s.publisher;
    var p' := NextPublisher(c, p, s.active);
    var trigger := if p.PTrigger? then 1 else 0;
    s.(publisher := p',
       lock := PublisherLock(c, s, p'),
       channels := PublisherChannels(s.channels, p),
       releases := s.releases + (if p.PRecv? && !p'.PRecv? then 1 else 0),
       db := s.db.(epoch := s.db.epoch + trigger),
       triggers := s.triggers + trigger,
       consumer := PublisherConsumer(c, s.consumer, p, s.db.epoch, refused))
  }

  // ----- readers and main -----

  ghost predicate ReaderEnabled(c: Config, s: State, r: nat)
    requires Shape(c, s)
  {
    r < c.readers &&
    match s.readers[r]
    case RBegin => Passed(s, ReaderId(c, r))
    case RNext(n) => IsOutside(s, ReaderId(c, r))
    case RRead(n) => IsInside(s, ReaderId(c, r))
    case RDone(n) => false
  }

  ghost function ApplyReader(c: Config, s: State, r: nat): State
    requires Shape(c, s) && ReaderEnabled(c, s, r)
  {
    var me := ReaderId(c, r);
    match s.readers[r]
    case RBegin => s.(readers := s.readers[r := RNext(0)])
    case RNext(n) =>
      if n < c.requests then s.(readers := s.readers[r := RRead(n)], lock := Request(s, me, L.Shared))
      else s.(readers := s.readers[r := RDone(n)])
    case RRead(n) => s.(readers := s.readers[r := RNext(n + 1)], lock := Unlock(s, me))
    case RDone(n) => s
  }

  /** All workers have returned, so every join succeeds. */
  ghost predicate Finished(s: State) {
    && s.publisher.PDone?
    && (forall w :: 0 <= w < |s.writers| ==> s.writers[w].WDone?)
    && (forall r :: 0 <= r < |s.readers| ==> s.readers[r].RDone?)
  }

  ghost predicate Complete(s: State) {
    s.joined && Finished(s)
  }

  // ----- the whole machine -----

  ghost predicate Enabled(c: Config, s: State, a: Action)
    requires Shape(c, s)
  {
    match a
    case BarrierOp(op) =>
      && B.Enabled(s.barrier, op)
      && (op.Arrive? ==> s.barrier.parties[op.t].passed == 0)
    case LockOp(op) => L.Enabled(s.lock, op) && !op.Request? && !op.Release?
    case WriterStep(w) => WriterEnabled(c, s, w)
    case PublisherStep(_) => PublisherEnabled(c, s)
    case ReaderStep(r) => ReaderEnabled(c, s, r)
    case MainJoin => !s.joined && Passed(s, MainId(c)) && Finished(s)
  }

  ghost function Apply(c: Config, s: State, a: Action): State
    requires Shape(c, s) && Enabled(c, s, a)
  {
    match a
    case BarrierOp(op) => s.(barrier := B.Apply(s.barrier, op))
    case LockOp(op) => s.(lock := L.Apply(s.lock, op))
    case WriterStep(w) => ApplyWriter(c, s, w)
    case PublisherStep(refused) => ApplyPublisher(c, s, refused)
    case ReaderStep(r) => ApplyReader(c, s, r)
    case MainJoin => s.(joined := true)
  }

  /** `states` is a run of the machine from its initial state, taking `actions`. */
  ghost predicate IsRun(c: Config, states: seq<State>, actions: seq<Action>) {
    && |states| == |actions| + 1
    && states[0] == Initial(c)
    && forall i :: 0 <= i < |actions| ==>
         && Shape(c, states[i])
         && Enabled(c, states[i], actions[i])
         && states[i + 1] == Apply(c, states[i], actions[i])
  }

  /** Some run of the configuration leads to `s`. */
  ghost predicate Reachable(c: Config, s: State) {
    exists states, actions :: IsRun(c, states, actions) && states[|actions|] == s
  }
}
