/** What every step of the publication machine keeps. */
module PublicationInvariants {
  import opened Options
  import opened Sums
  import opened Strides
  import opened Publication
  import L = OwnerLock
  import B = CyclicBarrier

  // ----- the owner's lock and the barrier -----

  ghost predicate GateMatches(g: L.Gate, atOwner: bool, kind: L.Kind) {
    (!g.Outside? <==> atOwner) && (atOwner ==> g.kind == kind)
  }

  /** A thread is inside the owner exactly while its program is in an owner callback. */
  ghost predicate GatesMatch(
    c: Config, gates: seq<L.Gate>, writers: seq<WriterPc>, p: PublisherPc, readers: seq<ReaderPc>)
    requires |writers| == c.writers && |readers| == c.readers && |gates| == Threads(c)
  {
    && (forall w :: 0 <= w < c.writers ==> GateMatches(gates[w], writers[w].WWrite?, L.Exclusive))
    && GateMatches(gates[PublisherId(c)], AtOwner(p), L.Exclusive)
    && (forall r :: 0 <= r < c.readers ==> GateMatches(gates[ReaderId(c, r)], readers[r].RRead?, L.Shared))
    && gates[MainId(c)].Outside?
  }

  /** The barrier is used once, and nobody works before passing it. */
  ghost predicate PartiesMatch(
    c: Config, parties: seq<B.Party>, writers: seq<WriterPc>, p: PublisherPc, readers: seq<ReaderPc>, joined: bool)
    requires |writers| == c.writers && |readers| == c.readers && |parties| == Threads(c)
  {
    && (forall t :: 0 <= t < |parties| ==> parties[t].passed == 0 || parties[t] == B.Running(1))
    && (forall w :: 0 <= w < c.writers && !writers[w].WBegin? ==> parties[w] == B.Running(1))
    && (!p.PBegin? ==> parties[PublisherId(c)] == B.Running(1))
    && (forall r :: 0 <= r < c.readers && !readers[r].RBegin? ==> parties[ReaderId(c, r)] == B.Running(1))
    && (joined ==> parties[MainId(c)] == B.Running(1))
  }

  ghost predicate Threading(c: Config, s: State) {
    && Shape(c, s)
    && L.Valid(s.lock)
    && B.Valid(s.barrier)
    && GatesMatch(c, s.lock.gates, s.writers, s.publisher, s.readers)
    && PartiesMatch(c, s.barrier.parties, s.writers, s.publisher, s.readers, s.joined)
    && (s.joined ==> Finished(s))
  }

  // ----- the start handshake -----

  /** 0 before `release`, 1 while sending, 2 while receiving, 3 once it has returned. */
  ghost function Stage(c: Config, p: PublisherPc): nat {
    if !c.capture || c.mode.Legacy? then 0
    else match p
      case PBegin => 0
      case PNext(k) => if k == 1 then 0 else 3
      case PTrigger(k) => if k == 1 then 0 else 3
      case PCapture(k) => if k == 1 then 0 else 3
      case PSend(_, _) => 1
      case PRecv(_, _) => 2
      case _ => 3
  }

  /** `release` has already sent writer `w` its start token. */
  ghost predicate Sent(c: Config, p: PublisherPc, w: nat) {
    Stage(c, p) >= 2 || (p.PSend? && w < p.j)
  }

  ghost function Received(c: Config, p: PublisherPc): nat {
    if p.PRecv? then p.j else if Stage(c, p) == 3 then c.writers else 0
  }

  ghost predicate Started(p: WriterPc) {
    !p.WBegin? && !p.WAwait?
  }

  /** Foreground commits made by a writer at `p`. */
  ghost function Commits(p: WriterPc): nat {
    match p
    case WBegin => 0
    case WAwait => 0
    case WLoop(i) => i
    case WWrite(i) => i
    case WCount(i) => i + 1
    case WAnnounce => 1
    case WExit(i) => i
    case WDone(i) => i
  }

  /** One once the writer has sent its first commit on the channel. */
  ghost function Announced(c: Config, p: WriterPc): nat {
    if !c.capture || p.WAnnounce? || p == WCount(0) || Commits(p) == 0 then 0 else 1
  }

  ghost function AnnouncedFn(c: Config): (nat, WriterPc) -> int {
    (_: nat, p: WriterPc) => Announced(c, p)
  }

  ghost predicate HandshakePc(c: Config, p: PublisherPc) {
    p.PSend? || p.PRecv? ==> p.k == 1 && p.j < c.writers && c.capture && !c.mode.Legacy?
  }

  ghost predicate WriterToken(c: Config, p: PublisherPc, pc: WriterPc, w: nat, tokens: nat) {
    && tokens == (if Sent(c, p, w) && !Started(pc) then 1 else 0)
    && (c.capture && Started(pc) ==> Sent(c, p, w))
    && (pc.WAwait? || pc.WAnnounce? ==> c.capture)
  }

  ghost predicate Handshake(c: Config, writers: seq<WriterPc>, p: PublisherPc, h: Channels, releases: nat)
    requires |writers| == |h.start| == c.writers
  {
    && HandshakePc(c, p)
    && (forall w :: 0 <= w < c.writers ==> WriterToken(c, p, writers[w], w, h.start[w]))
    && Sum(writers, AnnouncedFn(c)) == h.committed + Received(c, p)
    && releases == (if Stage(c, p) == 3 then 1 else 0)
  }

  // ----- commits, counters and rows -----

  ghost function CommitsFn(): (nat, WriterPc) -> int {
    (_: nat, p: WriterPc) => Commits(p)
  }

  ghost function Counted(p: WriterPc): nat {
    if p.WCount? then p.i else Commits(p)
  }

  ghost function CountedFn(): (nat, WriterPc) -> int {
    (_: nat, p: WriterPc) => Counted(p)
  }

  ghost function AliveFn(): (nat, WriterPc) -> int {
    (_: nat, p: WriterPc) => if p.WDone? then 0 else 1
  }

  ghost predicate WriterOk(c: Config, w: nat, p: WriterPc)
    requires c.writers > 0
  {
    var n := Count(c.writes, w, c.writers);
    && Commits(p) <= n
    && (p.WWrite? ==> p.i < n)
    && (p.WExit? || p.WDone? ==> p.i == n)
  }

  ghost function Row(c: Config, w: nat, commits: nat): nat {
    if commits == 0 then 0 else Nth(w, commits - 1, c.writers) + 1
  }

  /** The log holds each writer's iterations so far, each exactly once. */
  ghost predicate LogMatches(log: seq<Commit>, writers: seq<WriterPc>) {
    && (forall x :: x in log <==> x.writer < |writers| && x.i < Commits(writers[x.writer]))
    && (forall a, b :: 0 <= a < b < |log| ==> log[a] != log[b])
  }

  ghost predicate Ledger(c: Config, writers: seq<WriterPc>, db: Database, triggers: nat)
    requires |writers| == |db.rows| == c.writers && c.writers > 0
  {
    && (forall w :: 0 <= w < c.writers ==> WriterOk(c, w, writers[w]))
    && (forall w :: 0 <= w < c.writers ==> db.rows[w] == Row(c, w, Commits(writers[w])))
    && |db.log| == Sum(writers, CommitsFn())
    && LogMatches(db.log, writers)
    && db.epoch == c.initial + |db.log| + triggers
  }

  ghost predicate Counters(writers: seq<WriterPc>, active: int, completed: nat) {
    && completed == Sum(writers, CountedFn())
    && active == Sum(writers, AliveFn())
  }

  ghost predicate Cadence(c: Config, k: Checkpoints, commits: nat) {
    if !c.sustained then k == Checkpoints(0, [])
    else
      && k.writes == commits
      && |k.samples| == commits / CHECKPOINT_INTERVAL
      && forall j :: 0 <= j < |k.samples| ==> k.samples[j] == (j + 1) * CHECKPOINT_INTERVAL
  }

  ghost predicate ReadersOk(c: Config, readers: seq<ReaderPc>) {
    forall r :: 0 <= r < |readers| ==>
      match readers[r]
      case RBegin => true
      case RNext(n) => n <= c.requests
      case RRead(n) => n < c.requests
      case RDone(n) => n == c.requests
  }

  // ----- watermark and attempts -----

  /** The publisher holds a captured session that it has not published yet. */
  ghost predicate HasSession(c: Config, p: PublisherPc) {
    && !c.mode.Disabled? && !c.mode.Legacy?
    && (p.PSend? || p.PRecv? || p.PPrepare? || p.PReserve? || p.PConstruct? || p.PPublish?)
  }

  ghost predicate PublisherOk(c: Config, p: PublisherPc, triggers: nat, attempts: nat) {
    match p
    case PBegin => triggers == 0 && attempts == 0
    case PDone =>
      && triggers <= Limit(c)
      && (!c.sustained ==> triggers == Limit(c))
      && attempts == (if c.mode.Disabled? then 0 else triggers)
    case PNext(k) =>
      && 1 <= k <= Limit(c) + 1 && triggers == k - 1
      && attempts == (if c.mode.Disabled? then 0 else k - 1)
    case PTrigger(k) =>
      && 1 <= k <= Limit(c) && triggers == k - 1
      && attempts == (if c.mode.Disabled? then 0 else k - 1)
    case PCleanup(k) => 1 <= k <= Limit(c) && triggers == k && attempts == k && !c.mode.Disabled?
    case p =>
      && 1 <= p.k <= Limit(c) && triggers == p.k
      && attempts == (if c.mode.Disabled? then 0 else p.k - 1)
      && (p.PCapture? || p.PPrepare? ==> !c.mode.Disabled? && !c.mode.Legacy?)
      && (p.PReserve? || p.PConstruct? ==> c.mode.Detached?)
      && (p.PPublish? ==> !c.mode.Disabled?)
  }

  ghost predicate AttemptOk(c: Config, a: Attempt) {
    && a.before <= a.after
    && (a.published ==> a.before < a.after)
    && (!a.published ==> c.mode.Covered? && a.after == a.before)
    && (c.mode.Legacy? ==> a.captured.None? && a.source.None?)
    && (!c.mode.Legacy? ==>
          && a.captured.Some? && a.source.Some?
          && a.before < a.captured.value <= a.source.value
          && (a.published ==> a.after == a.captured.value))
  }

  /** Each attempt starts from the watermark the previous one left. */
  ghost function WatermarkBefore(c: Config, attempts: seq<Attempt>, i: nat): nat
    requires i < |attempts|
  {
    if i == 0 then c.initial else attempts[i - 1].after
  }

  ghost predicate Chained(c: Config, attempts: seq<Attempt>, watermark: nat) {
    && (forall i :: 0 <= i < |attempts| ==> AttemptOk(c, attempts[i]))
    && (forall i :: 0 <= i < |attempts| ==> attempts[i].before == WatermarkBefore(c, attempts, i))
    && watermark == (if attempts == [] then c.initial else attempts[|attempts| - 1].after)
  }

  /** With capture-before-writers: E is one trigger above the start, and every writer commits before publication. */
  ghost predicate FirstAttempt(c: Config, p: PublisherPc, u: Consumer) {
    c.capture && !c.mode.Legacy? && !c.mode.Disabled? ==>
      && (u.attempts == [] && HasSession(c, p) ==> u.captured == c.initial + 1)
      && (u.attempts != [] ==>
            && u.attempts[0].captured == Some(c.initial + 1)
            && u.attempts[0].source.Some?
            && u.attempts[0].source.value >= c.initial + 1 + c.writers)
  }

  ghost predicate Watermark(c: Config, p: PublisherPc, epoch: nat, triggers: nat, u: Consumer) {
    && PublisherOk(c, p, triggers, |u.attempts|)
    && u.watermark <= epoch
    && (p.PCapture? || (p.PPublish? && c.mode.Legacy?) ==> u.watermark < epoch)
    && (HasSession(c, p) ==> u.watermark < u.captured <= epoch)
    && Chained(c, u.attempts, u.watermark)
    && FirstAttempt(c, p, u)
  }

  // ----- together -----

  ghost predicate Inv(c: Config, s: State) {
    && Coherent(c)
    && Threading(c, s)
    && Handshake(c, s.writers, s.publisher, s.channels, s.releases)
    && Ledger(c, s.writers, s.db, s.triggers)
    && Counters(s.writers, s.active, s.completed)
    && Cadence(c, s.checkpoints, |s.db.log|)
    && ReadersOk(c, s.readers)
    && Watermark(c, s.publisher, s.db.epoch, s.triggers, s.consumer)
  }

  lemma InitialHolds(c: Config)
    requires Coherent(c)
    ensures Inv(c, Initial(c))
  {
    var s := Initial(c);
    L.FreshIsValid(Threads(c));
    B.FreshIsValid(Threads(c));
    SumConstant(s.writers, AnnouncedFn(c), 0);
    SumConstant(s.writers, CommitsFn(), 0);
    SumConstant(s.writers, CountedFn(), 0);
    SumConstant(s.writers, AliveFn(), 1);
  }

  // ----- threading -----

  lemma BarrierKeepsThreading(c: Config, s: State, op: B.Op)
    requires Threading(c, s) && Enabled(c, s, BarrierOp(op))
    ensures Threading(c, Apply(c, s, BarrierOp(op)))
  {
    B.ApplyKeepsValid(s.barrier, op);
    if op.Arrive? {
      assert s.barrier.parties[op.t] == B.Running(0);
    } else {
      assert s.barrier.parties[op.t] == B.Waiting(0);
    }
  }

  lemma LockKeepsThreading(c: Config, s: State, op: L.Op)
    requires Threading(c, s) && Enabled(c, s, LockOp(op))
    ensures Threading(c, Apply(c, s, LockOp(op)))
  {
    L.ApplyKeepsValid(s.lock, op);
  }

  lemma WriterGate(
    c: Config, gates: seq<L.Gate>, writers: seq<WriterPc>, p: PublisherPc, readers: seq<ReaderPc>,
    w: nat, g: L.Gate, pc: WriterPc)
    requires |writers| == c.writers && |readers| == c.readers && |gates| == Threads(c)
    requires GatesMatch(c, gates, writers, p, readers)
    requires w < c.writers && GateMatches(g, pc.WWrite?, L.Exclusive)
    ensures GatesMatch(c, gates[w := g], writers[w := pc], p, readers)
  {
  }

  lemma ReaderGate(
    c: Config, gates: seq<L.Gate>, writers: seq<WriterPc>, p: PublisherPc, readers: seq<ReaderPc>,
    r: nat, g: L.Gate, pc: ReaderPc)
    requires |writers| == c.writers && |readers| == c.readers && |gates| == Threads(c)
    requires GatesMatch(c, gates, writers, p, readers)
    requires r < c.readers && GateMatches(g, pc.RRead?, L.Shared)
    ensures GatesMatch(c, gates[ReaderId(c, r) := g], writers, p, readers[r := pc])
  {
  }

  lemma PublisherGate(
    c: Config, gates: seq<L.Gate>, writers: seq<WriterPc>, p: PublisherPc, readers: seq<ReaderPc>,
    g: L.Gate, pc: PublisherPc)
    requires |writers| == c.writers && |readers| == c.readers && |gates| == Threads(c)
    requires GatesMatch(c, gates, writers, p, readers)
    requires GateMatches(g, AtOwner(pc), L.Exclusive)
    ensures GatesMatch(c, gates[PublisherId(c) := g], writers, pc, readers)
  {
  }

  /** A writer that moves, together with its own gate, keeps the threads in order. */
  lemma WriterMoves(c: Config, s: State, t: State, w: nat)
    requires Threading(c, s) && Shape(c, t) && w < c.writers
    requires t.(writers := s.writers, lock := s.lock, channels := s.channels, active := s.active,
                completed := s.completed, checkpoints := s.checkpoints, db := s.db) == s
    requires t.writers == s.writers[w := t.writers[w]]
    requires L.Valid(t.lock) && t.lock.gates == s.lock.gates[w := t.lock.gates[w]]
    requires GateMatches(t.lock.gates[w], t.writers[w].WWrite?, L.Exclusive)
    requires !s.writers[w].WDone? && s.barrier.parties[w] == B.Running(1)
    ensures Threading(c, t)
  {
    WriterGate(c, s.lock.gates, s.writers, s.publisher, s.readers, w, t.lock.gates[w], t.writers[w]);
  }

  lemma WriterKeepsThreading(c: Config, s: State, w: nat)
    requires Threading(c, s) && WriterEnabled(c, s, w)
    ensures Threading(c, ApplyWriter(c, s, w))
  {
    assert GateMatches(s.lock.gates[w], s.writers[w].WWrite?, L.Exclusive);
    if s.writers[w].WLoop? {
      L.ApplyKeepsValid(s.lock, L.Request(w, L.Exclusive));
    } else if s.writers[w].WWrite? {
      L.ApplyKeepsValid(s.lock, L.Release(w));
    }
    WriterMoves(c, s, ApplyWriter(c, s, w), w);
  }

  lemma ReaderMoves(c: Config, s: State, t: State, r: nat)
    requires Threading(c, s) && Shape(c, t) && r < c.readers
    requires t.(readers := s.readers, lock := s.lock) == s
    requires t.readers == s.readers[r := t.readers[r]]
    requires L.Valid(t.lock) && t.lock.gates == s.lock.gates[ReaderId(c, r) := t.lock.gates[ReaderId(c, r)]]
    requires GateMatches(t.lock.gates[ReaderId(c, r)], t.readers[r].RRead?, L.Shared)
    requires !s.readers[r].RDone? && s.barrier.parties[ReaderId(c, r)] == B.Running(1)
    ensures Threading(c, t)
  {
    ReaderGate(c, s.lock.gates, s.writers, s.publisher, s.readers, r, t.lock.gates[ReaderId(c, r)], t.readers[r]);
  }

  lemma ReaderKeepsThreading(c: Config, s: State, r: nat)
    requires Threading(c, s) && ReaderEnabled(c, s, r)
    ensures Threading(c, ApplyReader(c, s, r))
  {
    var me := ReaderId(c, r);
    assert GateMatches(s.lock.gates[me], s.readers[r].RRead?, L.Shared);
    if s.readers[r].RNext? {
      L.ApplyKeepsValid(s.lock, L.Request(me, L.Shared));
    } else if s.readers[r].RRead? {
      L.ApplyKeepsValid(s.lock, L.Release(me));
    }
    ReaderMoves(c, s, ApplyReader(c, s, r), r);
  }

  lemma PublisherLockIsValid(c: Config, s: State, p: PublisherPc)
    requires Threading(c, s)
    requires AtOwner(s.publisher) ==> IsInside(s, PublisherId(c))
    ensures AtOwner(s.publisher) || IsOutside(s, PublisherId(c))
    ensures var l := PublisherLock(c, s, p);
            && L.Valid(l) && |l.gates| == Threads(c)
            && GatesMatch(c, l.gates, s.writers, p, s.readers)
  {
    var me := PublisherId(c);
    assert GateMatches(s.lock.gates[me], AtOwner(s.publisher), L.Exclusive);
    var l := if AtOwner(s.publisher) then L.Apply(s.lock, L.Release(me)) else s.lock;
    if AtOwner(s.publisher) {
      L.ApplyKeepsValid(s.lock, L.Release(me));
    }
    if AtOwner(p) {
      L.ApplyKeepsValid(l, L.Request(me, L.Exclusive));
    }
    var gates := PublisherLock(c, s, p).gates;
    PublisherGate(c, s.lock.gates, s.writers, s.publisher, s.readers, gates[me], p);
    assert gates == s.lock.gates[me := gates[me]];
  }

  lemma PublisherKeepsThreading(c: Config, s: State, refused: bool)
    requires Threading(c, s) && PublisherEnabled(c, s)
    ensures Threading(c, ApplyPublisher(c, s, refused))
  {
    var s' := ApplyPublisher(c, s, refused);
    PublisherLockIsValid(c, s, s'.publisher);
    assert s'.lock == PublisherLock(c, s, s'.publisher);
  }

  // ----- handshake -----

  /** A writer step that accounts for its token and its announcement keeps the handshake. */
  lemma WriterHandshake(
    c: Config, writers: seq<WriterPc>, p: PublisherPc, h: Channels, releases: nat,
    w: nat, pc: WriterPc, tokens: nat, committed: nat)
    requires |writers| == |h.start| == c.writers && w < c.writers
    requires Handshake(c, writers, p, h, releases)
    requires WriterToken(c, p, pc, w, tokens)
    requires committed - h.committed == Announced(c, pc) - Announced(c, writers[w])
    ensures Handshake(c, writers[w := pc], p, Channels(h.start[w := tokens], committed), releases)
  {
    SumUpdate(writers, w, pc, AnnouncedFn(c));
  }

  lemma WriterKeepsHandshake(c: Config, s: State, w: nat)
    requires Shape(c, s) && WriterEnabled(c, s, w)
    requires Handshake(c, s.writers, s.publisher, s.channels, s.releases)
    ensures var s' := ApplyWriter(c, s, w);
            Shape(c, s') && Handshake(c, s'.writers, s'.publisher, s'.channels, s'.releases)
  {
    var s' := ApplyWriter(c, s, w);
    assert WriterToken(c, s.publisher, s.writers[w], w, s.channels.start[w]);
    WriterHandshake(c, s.writers, s.publisher, s.channels, s.releases,
                    w, s'.writers[w], s'.channels.start[w], s'.channels.committed);
    assert s'.channels.start == s.channels.start[w := s'.channels.start[w]];
  }

  lemma PublisherKeepsTokens(
    c: Config, writers: seq<WriterPc>, p: PublisherPc, p': PublisherPc, h: Channels, h': Channels)
    requires |writers| == |h.start| == |h'.start| == c.writers
    requires forall w :: 0 <= w < c.writers ==> WriterToken(c, p, writers[w], w, h.start[w])
    requires
      || (h'.start == h.start && forall w :: 0 <= w < c.writers ==> (Sent(c, p', w) <==> Sent(c, p, w)))
      || (&& p.PSend? && p.j < c.writers && h.start[p.j] == 0
          && h'.start == h.start[p.j := 1]
          && forall w :: 0 <= w < c.writers ==> (Sent(c, p', w) <==> w <= p.j))
    requires p.PSend? ==> Stage(c, p) == 1
    ensures forall w :: 0 <= w < c.writers ==> WriterToken(c, p', writers[w], w, h'.start[w])
  {
    forall w | 0 <= w < c.writers ensures WriterToken(c, p', writers[w], w, h'.start[w]) {
      assert WriterToken(c, p, writers[w], w, h.start[w]);
    }
  }

  /** How the publisher's own step moves the stage of the handshake. */
  lemma PublisherStages(c: Config, p: PublisherPc, active: int, triggers: nat, attempts: nat)
    requires Coherent(c) && HandshakePc(c, p) && PublisherOk(c, p, triggers, attempts) && !p.PDone?
    ensures var p' := NextPublisher(c, p, active);
            && HandshakePc(c, p')
            && (!p.PSend? ==> forall w :: 0 <= w < c.writers ==> (Sent(c, p', w) <==> Sent(c, p, w)))
            && (p.PSend? ==> forall w :: 0 <= w < c.writers ==> (Sent(c, p', w) <==> w <= p.j))
            && Received(c, p') == Received(c, p) + (if p.PRecv? then 1 else 0)
            && (Stage(c, p') == 3 <==> Stage(c, p) == 3 || (p.PRecv? && !p'.PRecv?))
            && (Stage(c, p) == 3 ==> !p.PRecv?)
  {
  }

  lemma PublisherKeepsHandshake(c: Config, s: State, refused: bool)
    requires Coherent(c) && Shape(c, s) && PublisherEnabled(c, s)
    requires Handshake(c, s.writers, s.publisher, s.channels, s.releases)
    requires PublisherOk(c, s.publisher, s.triggers, |s.consumer.attempts|)
    ensures var s' := ApplyPublisher(c, s, refused);
            Shape(c, s') && Handshake(c, s'.writers, s'.publisher, s'.channels, s'.releases)
  {
    var s' := ApplyPublisher(c, s, refused);
    PublisherStages(c, s.publisher, s.active, s.triggers, |s.consumer.attempts|);
    PublisherKeepsTokens(c, s.writers, s.publisher, s'.publisher, s.channels, s'.channels);
  }

  // ----- ledger -----

  lemma CommitKeepsLog(log: seq<Commit>, writers: seq<WriterPc>, w: nat, i: nat)
    requires LogMatches(log, writers) && w < |writers| && writers[w] == WWrite(i)
    ensures LogMatches(log + [Commit(w, i)], writers[w := WCount(i)])
  {
    var log' := log + [Commit(w, i)];
    var writers' := writers[w := WCount(i)];
    forall x ensures x in log' <==> x.writer < |writers'| && x.i < Commits(writers'[x.writer]) {
      assert x in log' <==> x in log || x == Commit(w, i);
    }
  }

  lemma MoveKeepsLedger(c: Config, writers: seq<WriterPc>, db: Database, triggers: nat, w: nat, pc: WriterPc)
    requires |writers| == |db.rows| == c.writers && w < c.writers
    requires Ledger(c, writers, db, triggers)
    requires Commits(pc) == Commits(writers[w]) && WriterOk(c, w, pc)
    ensures Ledger(c, writers[w := pc], db, triggers)
  {
    SumUpdate(writers, w, pc, CommitsFn());
  }

  lemma CommitKeepsLedger(c: Config, writers: seq<WriterPc>, db: Database, triggers: nat, w: nat, i: nat)
    requires |writers| == |db.rows| == c.writers && w < c.writers
    requires Ledger(c, writers, db, triggers) && writers[w] == WWrite(i)
    ensures Ledger(c, writers[w := WCount(i)], CommitWrite(c, db, w, i), triggers)
  {
    SumUpdate(writers, w, WCount(i), CommitsFn());
    CommitKeepsLog(db.log, writers, w, i);
    assert WriterOk(c, w, writers[w]);
  }

  /** A writer's own loop only ever reaches iterations of its stride. */
  lemma WriterStaysOk(c: Config, s: State, w: nat)
    requires Coherent(c) && Shape(c, s) && WriterEnabled(c, s, w)
    requires WriterOk(c, w, s.writers[w])
    requires WriterToken(c, s.publisher, s.writers[w], w, s.channels.start[w])
    ensures var pc := s.writers[w];
            var pc' := ApplyWriter(c, s, w).writers[w];
            && WriterOk(c, w, pc')
            && (if pc.WWrite? then pc' == WCount(pc.i) else Commits(pc') == Commits(pc))
            && Counted(pc') == Counted(pc) + (if pc.WCount? then 1 else 0)
            && (pc'.WDone? <==> pc.WExit?)
  {
    if s.writers[w].WLoop? {
      CountIsExact(c.writes, w, c.writers, s.writers[w].i);
    }
  }

  lemma WriterKeepsLedger(c: Config, s: State, w: nat)
    requires Coherent(c) && Shape(c, s) && WriterEnabled(c, s, w)
    requires Ledger(c, s.writers, s.db, s.triggers)
    requires WriterToken(c, s.publisher, s.writers[w], w, s.channels.start[w])
    ensures var s' := ApplyWriter(c, s, w);
            Shape(c, s') && Ledger(c, s'.writers, s'.db, s'.triggers)
  {
    WriterStaysOk(c, s, w);
    if s.writers[w].WWrite? {
      CommitKeepsLedger(c, s.writers, s.db, s.triggers, w, s.writers[w].i);
    } else {
      MoveKeepsLedger(c, s.writers, s.db, s.triggers, w, ApplyWriter(c, s, w).writers[w]);
    }
  }

  lemma WriterKeepsCounters(c: Config, s: State, w: nat)
    requires Coherent(c) && Shape(c, s) && WriterEnabled(c, s, w)
    requires WriterOk(c, w, s.writers[w])
    requires WriterToken(c, s.publisher, s.writers[w], w, s.channels.start[w])
    requires Counters(s.writers, s.active, s.completed)
    ensures var s' := ApplyWriter(c, s, w); Counters(s'.writers, s'.active, s'.completed)
  {
    var s' := ApplyWriter(c, s, w);
    WriterStaysOk(c, s, w);
    SumUpdate(s.writers, w, s'.writers[w], CountedFn());
    SumUpdate(s.writers, w, s'.writers[w], AliveFn());
  }

  lemma CountKeepsCadence(c: Config, k: Checkpoints, commits: nat)
    requires Cadence(c, k, commits)
    ensures Cadence(c, CountWrite(c, k), commits + 1)
  {
  }

  lemma WriterKeepsCadence(c: Config, s: State, w: nat)
    requires Shape(c, s) && WriterEnabled(c, s, w)
    requires Cadence(c, s.checkpoints, |s.db.log|)
    ensures var s' := ApplyWriter(c, s, w); Cadence(c, s'.checkpoints, |s'.db.log|)
  {
    CountKeepsCadence(c, s.checkpoints, |s.db.log|);
  }

  // ----- watermark -----

  /** Before `release` nobody has committed, so the first capture sees exactly one trigger. */
  lemma NoCommitBeforeRelease(c: Config, s: State)
    requires Coherent(c) && Shape(c, s) && c.capture && Stage(c, s.publisher) == 0
    requires Handshake(c, s.writers, s.publisher, s.channels, s.releases)
    requires Ledger(c, s.writers, s.db, s.triggers)
    ensures s.db.log == []
  {
    forall w | 0 <= w < c.writers ensures Commits(s.writers[w]) == 0 {
      assert WriterToken(c, s.publisher, s.writers[w], w, s.channels.start[w]);
    }
    SumConstant(s.writers, CommitsFn(), 0);
  }

  /** Once `release` has returned, every writer has committed at least once. */
  lemma AllCommittedAfterRelease(c: Config, s: State)
    requires Coherent(c) && Shape(c, s) && Stage(c, s.publisher) == 3
    requires Handshake(c, s.writers, s.publisher, s.channels, s.releases)
    requires Ledger(c, s.writers, s.db, s.triggers)
    ensures forall w :: 0 <= w < c.writers ==> Commits(s.writers[w]) >= 1
    ensures |s.db.log| >= c.writers
  {
    SumAtMostLength(s.writers, AnnouncedFn(c));
    SumFull(s.writers, AnnouncedFn(c));
    forall w | 0 <= w < c.writers ensures Commits(s.writers[w]) >= 1 {
      assert AnnouncedFn(c)(w, s.writers[w]) == 1;
    }
    SumMonotone(s.writers, s.writers, AnnouncedFn(c), CommitsFn());
  }

  lemma AppendKeepsChain(c: Config, attempts: seq<Attempt>, watermark: nat, a: Attempt)
    requires Chained(c, attempts, watermark) && AttemptOk(c, a) && a.before == watermark
    ensures Chained(c, attempts + [a], a.after)
  {
    var longer := attempts + [a];
    assert forall i :: 0 <= i < |attempts| ==> longer[i] == attempts[i];
    forall i | 0 <= i < |longer| ensures AttemptOk(c, longer[i]) {
      assert i < |attempts| ==> AttemptOk(c, attempts[i]);
    }
    forall i | 0 <= i < |longer| ensures longer[i].before == WatermarkBefore(c, longer, i) {
      if i < |attempts| {
        assert attempts[i].before == WatermarkBefore(c, attempts, i);
      }
    }
  }

  lemma PublishKeepsWatermark(c: Config, p: PublisherPc, epoch: nat, triggers: nat, u: Consumer, refused: bool)
    requires Watermark(c, p, epoch, triggers, u) && p.PPublish?
    requires c.capture && !c.mode.Legacy? ==> epoch >= c.initial + 1 + c.writers
    ensures Watermark(c, PCleanup(p.k), epoch, triggers, Publish(c, u, epoch, refused))
  {
    var u' := Publish(c, u, epoch, refused);
    AppendKeepsChain(c, u.attempts, u.watermark, u'.attempts[|u.attempts|]);
  }

  lemma OtherStepsKeepWatermark(c: Config, p: PublisherPc, epoch: nat, triggers: nat, u: Consumer, active: int)
    requires Coherent(c) && Watermark(c, p, epoch, triggers, u) && !p.PPublish? && !p.PDone? && HandshakePc(c, p)
    requires c.capture && p.PCapture? && p.k == 1 ==> epoch == c.initial + 1
    ensures var trigger := if p.PTrigger? then 1 else 0;
            Watermark(c, NextPublisher(c, p, active), epoch + trigger, triggers + trigger,
                      PublisherConsumer(c, u, p, epoch, false))
  {
  }

  /** What the handshake says about the epoch at the first capture and at the first publication. */
  ghost predicate EpochAtCapture(c: Config, p: PublisherPc, epoch: nat) {
    && (c.capture && p.PCapture? && p.k == 1 ==> epoch == c.initial + 1)
    && (c.capture && !c.mode.Legacy? && p.PPublish? ==> epoch >= c.initial + 1 + c.writers)
  }

  lemma HandshakeFixesEpoch(c: Config, s: State)
    requires Coherent(c) && Shape(c, s)
    requires Handshake(c, s.writers, s.publisher, s.channels, s.releases)
    requires Ledger(c, s.writers, s.db, s.triggers)
    requires PublisherOk(c, s.publisher, s.triggers, |s.consumer.attempts|)
    ensures EpochAtCapture(c, s.publisher, s.db.epoch)
  {
    if c.capture && s.publisher.PCapture? && s.publisher.k == 1 {
      NoCommitBeforeRelease(c, s);
    } else if c.capture && !c.mode.Legacy? && s.publisher.PPublish? {
      AllCommittedAfterRelease(c, s);
    }
  }

  lemma PublisherKeepsWatermark(c: Config, s: State, refused: bool)
    requires Coherent(c) && Shape(c, s) && PublisherEnabled(c, s)
    requires EpochAtCapture(c, s.publisher, s.db.epoch) && HandshakePc(c, s.publisher)
    requires Watermark(c, s.publisher, s.db.epoch, s.triggers, s.consumer)
    ensures var s' := ApplyPublisher(c, s, refused);
            Watermark(c, s'.publisher, s'.db.epoch, s'.triggers, s'.consumer)
  {
    if s.publisher.PPublish? {
      PublishKeepsWatermark(c, s.publisher, s.db.epoch, s.triggers, s.consumer, refused);
    } else {
      OtherStepsKeepWatermark(c, s.publisher, s.db.epoch, s.triggers, s.consumer, s.active);
    }
  }

  lemma PublisherKeepsLedger(c: Config, s: State, refused: bool)
    requires Coherent(c) && Shape(c, s) && PublisherEnabled(c, s)
    requires Ledger(c, s.writers, s.db, s.triggers)
    ensures var s' := ApplyPublisher(c, s, refused);
            Shape(c, s') && Ledger(c, s'.writers, s'.db, s'.triggers)
  {
  }

  // ----- every step -----

  lemma WriterKeepsInv(c: Config, s: State, w: nat)
    requires Inv(c, s) && WriterEnabled(c, s, w)
    ensures Inv(c, ApplyWriter(c, s, w))
  {
    assert WriterOk(c, w, s.writers[w]);
    assert WriterToken(c, s.publisher, s.writers[w], w, s.channels.start[w]);
    WriterKeepsThreading(c, s, w);
    WriterKeepsHandshake(c, s, w);
    WriterKeepsLedger(c, s, w);
    WriterKeepsCounters(c, s, w);
    WriterKeepsCadence(c, s, w);
  }

  lemma PublisherKeepsInv(c: Config, s: State, refused: bool)
    requires Inv(c, s) && PublisherEnabled(c, s)
    ensures Inv(c, ApplyPublisher(c, s, refused))
  {
    HandshakeFixesEpoch(c, s);
    PublisherKeepsThreading(c, s, refused);
    PublisherKeepsHandshake(c, s, refused);
    PublisherKeepsWatermark(c, s, refused);
    PublisherKeepsLedger(c, s, refused);
  }

  lemma ReaderKeepsInv(c: Config, s: State, r: nat)
    requires Inv(c, s) && ReaderEnabled(c, s, r)
    ensures Inv(c, ApplyReader(c, s, r))
  {
    ReaderKeepsThreading(c, s, r);
    ReaderStaysOk(c, s, r);
  }

  lemma ReaderStaysOk(c: Config, s: State, r: nat)
    requires Shape(c, s) && ReaderEnabled(c, s, r) && ReadersOk(c, s.readers)
    ensures ReadersOk(c, ApplyReader(c, s, r).readers)
  {
  }

  lemma PlumbingKeepsInv(c: Config, s: State, t: State)
    requires Inv(c, s) && Threading(c, t)
    requires t.(barrier := s.barrier, lock := s.lock, joined := s.joined) == s
    ensures Inv(c, t)
  {
  }

  /** Every step of every thread keeps the invariant. */
  lemma BarrierKeepsInv(c: Config, s: State, op: B.Op)
    requires Inv(c, s) && Enabled(c, s, BarrierOp(op))
    ensures Inv(c, Apply(c, s, BarrierOp(op)))
  {
    BarrierKeepsThreading(c, s, op);
    PlumbingKeepsInv(c, s, Apply(c, s, BarrierOp(op)));
  }

  lemma LockKeepsInv(c: Config, s: State, op: L.Op)
    requires Inv(c, s) && Enabled(c, s, LockOp(op))
    ensures Inv(c, Apply(c, s, LockOp(op)))
  {
    LockKeepsThreading(c, s, op);
    PlumbingKeepsInv(c, s, Apply(c, s, LockOp(op)));
  }

  lemma StepKeepsInv(c: Config, s: State, a: Action)
    requires Inv(c, s) && Enabled(c, s, a)
    ensures Inv(c, Apply(c, s, a))
  {
    match a
    case WriterStep(w) => WriterKeepsInv(c, s, w);
    case PublisherStep(refused) => PublisherKeepsInv(c, s, refused);
    case ReaderStep(r) => ReaderKeepsInv(c, s, r);
    case BarrierOp(op) => BarrierKeepsInv(c, s, op);
    case LockOp(op) => LockKeepsInv(c, s, op);
    case MainJoin => PlumbingKeepsInv(c, s, Apply(c, s, a));
  }

  /** Every state of every run satisfies the invariant. */
  lemma {:induction false} RunKeepsInv(c: Config, states: seq<State>, actions: seq<Action>, n: nat)
    requires Coherent(c) && IsRun(c, states, actions) && n < |states|
    ensures Inv(c, states[n])
  {
    if n == 0 {
      InitialHolds(c);
    } else {
      RunKeepsInv(c, states, actions, n - 1);
      StepKeepsInv(c, states[n - 1], actions[n - 1]);
      assert Shape(c, states[n - 1]) && states[n - 1 + 1] == Apply(c, states[n - 1], actions[n - 1]);
    }
  }

  lemma ReachableHasInv(c: Config, s: State)
    requires Coherent(c) && Reachable(c, s)
    ensures Inv(c, s)
  {
    var states, actions :| IsRun(c, states, actions) && states[|actions|] == s;
    RunKeepsInv(c, states, actions, |actions|);
  }
}
