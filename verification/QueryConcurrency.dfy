/**
  Workers of the query concurrency benchmark after their start barrier: writers
  run a fixed number of update queries, readers run at least their quota and,
  when sustained, keep reading until `writers_remaining` reaches zero. A writer's
  completion guard lowers that counter on return and on panic alike.

  The engine enters as one atomic outcome per query: a successful update raises
  the writer's own row by one, a failed one changes nothing.
 */
module QueryConcurrency {
  import opened Sums

  datatype Config = Config(writers: nat, readers: nat, writerIterations: nat, readerIterations: nat, sustain: bool)

  /** `n` is `result.successful`, `i` the loop's iteration. */
  datatype WriterPc =
    | WLoop(i: nat, n: nat)
    | WQuery(i: nat, n: nat)
    | WOk(i: nat, n: nat)                // row updated, committed.fetch_add is next
    | WSample(i: nat, n: nat, ok: bool)  // sample taken, outcome not yet recorded
    | WDrop(n: nat, counted: bool, panicked: bool) // guard about to run
    | WDone(n: nat)
    | WPanicked(n: nat, counted: bool)

  datatype ReaderPc = RLoop(i: nat) | RRead(i: nat) | RDone(i: nat) | RPanicked(i: nat)

  datatype State = State(
    writers: seq<WriterPc>, readers: seq<ReaderPc>, committed: nat, remaining: int, rows: seq<nat>)

  /** `ok` is the engine's outcome of an update; `panics` a failed check on a result. */
  datatype Action =
    | WriterStep(w: nat, ok: bool, panics: bool)
    | ReaderStep(r: nat, panics: bool)
    | Stutter

  /** Setup creates every row at zero and applies one update to each writer's row. */
  function Initial(c: Config): State {
    State(seq(c.writers, _ => WLoop(0, 0)), seq(c.readers, _ => RLoop(0)), 0, c.writers, seq(c.writers, _ => 1))
  }

  ghost predicate Shape(c: Config, s: State) {
    |s.writers| == |s.rows| == c.writers && |s.readers| == c.readers
  }

  predicate WriterFinished(p: WriterPc) {
    p.WDone? || p.WPanicked?
  }

  predicate ReaderFinished(p: ReaderPc) {
    p.RDone? || p.RPanicked?
  }

  ghost predicate Enabled(c: Config, s: State, a: Action)
    requires Shape(c, s)
  {
    match a
    case WriterStep(w, _, panics) =>
      && w < c.writers && !WriterFinished(s.writers[w])
      && (panics ==> s.writers[w].WOk? || (s.writers[w].WSample? && s.writers[w].ok))
    case ReaderStep(r, panics) =>
      r < c.readers && !ReaderFinished(s.readers[r]) && (panics ==> s.readers[r].RRead?)
    case Stutter => true
  }

  function NextWriter(c: Config, p: WriterPc, ok: bool, panics: bool): WriterPc {
    match p
    case WLoop(i, n) => if i < c.writerIterations then WQuery(i, n) else WDrop(n, false, false)
    case WQuery(i, n) => if ok then WOk(i, n) else WSample(i, n, false)
    case WOk(i, n) => if panics then WDrop(n, false, true) else WSample(i, n, true)
    case WSample(i, n, good) =>
      if panics then WDrop(n, true, true) else WLoop(i + 1, if good then n + 1 else n)
    case WDrop(n, counted, panicked) => if panicked then WPanicked(n, counted) else WDone(n)
    case p => p
  }

  function NextReader(c: Config, p: ReaderPc, remaining: int, panics: bool): ReaderPc {
    match p
    case RLoop(i) => if i < c.readerIterations || (c.sustain && remaining > 0) then RRead(i) else RDone(i)
    case RRead(i) => if panics then RPanicked(i) else RLoop(i + 1)
    case p => p
  }

  ghost function Apply(c: Config, s: State, a: Action): State
    requires Shape(c, s) && Enabled(c, s, a)
  {
    match a
    case WriterStep(w, ok, panics) =>
      var p := s.writers[w];
      var moved := s.(writers := s.writers[w := NextWriter(c, p, ok, panics)]);
      if p.WQuery? && ok then moved.(rows := s.rows[w := s.rows[w] + 1])
      else if p.WOk? && !panics then moved.(committed := s.committed + 1)
      else if p.WDrop? then moved.(remaining := s.remaining - 1)
      else moved
    case ReaderStep(r, panics) => s.(readers := s.readers[r := NextReader(c, s.readers[r], s.remaining, panics)])
    case Stutter => s
  }

  // ----- safety -----

  ghost function Successful(p: WriterPc): nat {
    p.n
  }

  /** Counted in `committed` but not yet, or never, in the writer's own result. */
  ghost predicate Between(p: WriterPc) {
    (p.WSample? && p.ok) || ((p.WDrop? || p.WPanicked?) && p.counted)
  }

  /** The row has moved but the result has not. */
  ghost predicate RowAhead(p: WriterPc) {
    p.WOk? || (p.WSample? && p.ok) || (p.WDrop? && p.panicked) || p.WPanicked?
  }

  ghost function SuccessFn(): (nat, WriterPc) -> int {
    (_: nat, p: WriterPc) => Successful(p)
  }

  ghost function BetweenFn(): (nat, WriterPc) -> int {
    (_: nat, p: WriterPc) => if Between(p) then 1 else 0
  }

  ghost function RemainingFn(): (nat, WriterPc) -> int {
    (_: nat, p: WriterPc) => if WriterFinished(p) then 0 else 1
  }

  ghost predicate WriterOk(c: Config, p: WriterPc, row: nat) {
    && row == 1 + Successful(p) + (if RowAhead(p) then 1 else 0)
    && match p
       case WLoop(i, n) => n <= i <= c.writerIterations
       case WQuery(i, n) => n <= i < c.writerIterations
       case WOk(i, n) => n <= i < c.writerIterations
       case WSample(i, n, _) => n <= i < c.writerIterations
       case WDrop(n, counted, panicked) => n <= c.writerIterations && (counted ==> panicked)
       case p => p.n <= c.writerIterations
  }

  ghost predicate ReaderOk(c: Config, p: ReaderPc, remaining: int) {
    match p
    case RLoop(i) => !c.sustain ==> i <= c.readerIterations
    case RRead(i) => !c.sustain ==> i < c.readerIterations
    case RDone(i) =>
      && i >= c.readerIterations
      && (!c.sustain ==> i == c.readerIterations)
      && (c.sustain ==> remaining <= 0)
    case RPanicked(i) => !c.sustain ==> i < c.readerIterations
  }

  ghost predicate Inv(c: Config, s: State) {
    && Shape(c, s)
    && s.committed == Sum(s.writers, SuccessFn()) + Sum(s.writers, BetweenFn())
    && s.remaining == Sum(s.writers, RemainingFn())
    && (forall w :: 0 <= w < c.writers ==> WriterOk(c, s.writers[w], s.rows[w]))
    && (forall r :: 0 <= r < c.readers ==> ReaderOk(c, s.readers[r], s.remaining))
  }

  lemma InitialHolds(c: Config)
    ensures Inv(c, Initial(c))
  {
    var s := Initial(c);
    SumConstant(s.writers, SuccessFn(), 0);
    SumConstant(s.writers, BetweenFn(), 0);
    SumConstant(s.writers, RemainingFn(), 1);
  }

  lemma StepKeepsInv(c: Config, s: State, a: Action)
    requires Inv(c, s) && Enabled(c, s, a)
    ensures Inv(c, Apply(c, s, a))
    ensures Apply(c, s, a).remaining <= s.remaining
  {
    if a.WriterStep? {
      var p' := NextWriter(c, s.writers[a.w], a.ok, a.panics);
      assert WriterOk(c, s.writers[a.w], s.rows[a.w]);
      SumUpdate(s.writers, a.w, p', SuccessFn());
      SumUpdate(s.writers, a.w, p', BetweenFn());
      SumUpdate(s.writers, a.w, p', RemainingFn());
      assert WriterOk(c, p', Apply(c, s, a).rows[a.w]);
    } else if a.ReaderStep? {
      assert ReaderOk(c, s.readers[a.r], s.remaining);
    }
  }

  lemma RemainingIsExact(c: Config, s: State)
    requires Inv(c, s)
    ensures 0 <= s.remaining <= c.writers
    ensures s.remaining == 0 <==> forall w :: 0 <= w < c.writers ==> WriterFinished(s.writers[w])
  {
    SumNonNegative(s.writers, RemainingFn());
    SumAtMostLength(s.writers, RemainingFn());
    if w :| 0 <= w < c.writers && !WriterFinished(s.writers[w]) {
      SumAtLeast(s.writers, w, RemainingFn());
    } else {
      SumConstant(s.writers, RemainingFn(), 0);
    }
  }

  // ----- liveness -----

  predicate IsWriter(a: Action, w: nat) {
    a.WriterStep? && a.w == w
  }

  predicate IsReader(a: Action, r: nat) {
    a.ReaderStep? && a.r == r
  }

  /** An infinite execution; it may stutter for ever once everybody is done. */
  ghost predicate IsExecution(c: Config, run: nat -> State, sched: nat -> Action) {
    && run(0) == Initial(c)
    && forall n: nat :: Follows(c, run, sched, n)
  }

  ghost predicate Follows(c: Config, run: nat -> State, sched: nat -> Action, n: nat) {
    Shape(c, run(n)) && Enabled(c, run(n), sched(n)) && run(n + 1) == Apply(c, run(n), sched(n))
  }

  ghost predicate WriterTurn(sched: nat -> Action, n: nat, w: nat) {
    exists m: nat :: m >= n && IsWriter(sched(m), w)
  }

  ghost predicate ReaderTurn(sched: nat -> Action, n: nat, r: nat) {
    exists m: nat :: m >= n && IsReader(sched(m), r)
  }

  /** Fair scheduling: a thread that is not finished eventually takes a step. */
  ghost predicate IsFair(c: Config, run: nat -> State, sched: nat -> Action)
    requires IsExecution(c, run, sched)
  {
    && (forall n: nat, w: nat {:trigger WriterTurn(sched, n, w)} ::
          Follows(c, run, sched, n) && w < c.writers && !WriterFinished(run(n).writers[w]) ==> WriterTurn(sched, n, w))
    && (forall n: nat, r: nat {:trigger ReaderTurn(sched, n, r)} ::
          Follows(c, run, sched, n) && r < c.readers && !ReaderFinished(run(n).readers[r]) ==> ReaderTurn(sched, n, r))
  }

  lemma {:induction false} ExecutionKeepsInv(c: Config, run: nat -> State, sched: nat -> Action, n: nat)
    requires IsExecution(c, run, sched)
    ensures Inv(c, run(n))
  {
    if n == 0 {
      InitialHolds(c);
    } else {
      ExecutionKeepsInv(c, run, sched, n - 1);
      assert Follows(c, run, sched, n - 1);
      StepKeepsInv(c, run(n - 1), sched(n - 1));
    }
  }

  // ----- what every execution keeps -----

  /**
    At every moment `committed` is the recorded successes plus the writers between
    their two updates, and `writers_remaining` counts the writers not yet finished.
   */
  lemma CommittedAccounting(c: Config, run: nat -> State, sched: nat -> Action, n: nat)
    requires IsExecution(c, run, sched)
    ensures run(n).committed == Sum(run(n).writers, SuccessFn()) + Sum(run(n).writers, BetweenFn())
    ensures 0 <= Sum(run(n).writers, BetweenFn()) <= c.writers
    ensures 0 <= run(n).remaining == Sum(run(n).writers, RemainingFn()) <= c.writers
  {
    ExecutionKeepsInv(c, run, sched, n);
    SumNonNegative(run(n).writers, BetweenFn());
    SumAtMostLength(run(n).writers, BetweenFn());
    RemainingIsExact(c, run(n));
  }

  /** The checks after the join: totals agree and every row holds its writer's successes. */
  lemma JoinReport(c: Config, run: nat -> State, sched: nat -> Action, n: nat)
    requires IsExecution(c, run, sched) && |run(n).writers| == c.writers
    requires forall w :: 0 <= w < c.writers ==> run(n).writers[w].WDone?
    ensures run(n).committed == Sum(run(n).writers, SuccessFn())
    ensures |run(n).rows| == c.writers
    ensures forall w :: 0 <= w < c.writers ==> run(n).rows[w] == 1 + Successful(run(n).writers[w])
    ensures forall r :: 0 <= r < |run(n).readers| && run(n).readers[r].RDone? ==> ReaderMetQuota(c, run(n).readers[r])
  {
    ExecutionKeepsInv(c, run, sched, n);
    var s := run(n);
    SumConstant(s.writers, BetweenFn(), 0);
    forall w | 0 <= w < c.writers ensures s.rows[w] == 1 + Successful(s.writers[w]) {
      assert WriterOk(c, s.writers[w], s.rows[w]);
    }
    forall r | 0 <= r < c.readers && s.readers[r].RDone? ensures ReaderMetQuota(c, s.readers[r]) {
      assert ReaderOk(c, s.readers[r], s.remaining);
    }
  }

  ghost predicate ReaderMetQuota(c: Config, p: ReaderPc) {
    p.i >= c.readerIterations && (!c.sustain ==> p.i == c.readerIterations)
  }

  /** A sustained reader that has stopped has outlived every writer. */
  lemma SustainedReadersOutliveWriters(c: Config, run: nat -> State, sched: nat -> Action, n: nat, r: nat, w: nat)
    requires IsExecution(c, run, sched) && c.sustain
    requires r < |run(n).readers| && w < |run(n).writers| && run(n).readers[r].RDone?
    ensures WriterFinished(run(n).writers[w])
  {
    ExecutionKeepsInv(c, run, sched, n);
    RemainingIsExact(c, run(n));
    assert ReaderOk(c, run(n).readers[r], run(n).remaining);
  }

  ghost function WriterRank(c: Config, p: WriterPc): int {
    match p
    case WLoop(i, _) => 4 * (c.writerIterations - i) + 2
    case WQuery(i, _) => 4 * (c.writerIterations - i) + 1
    case WOk(i, _) => 4 * (c.writerIterations - i)
    case WSample(i, _, _) => 4 * (c.writerIterations - i) - 1
    case WDrop(_, _, _) => 1
    case _ => 0
  }

  ghost function WriterRankFn(c: Config): (nat, WriterPc) -> int {
    (_: nat, p: WriterPc) => WriterRank(c, p)
  }

  ghost function ReaderRank(c: Config, p: ReaderPc): int {
    match p
    case RLoop(i) => if i < c.readerIterations then 2 * (c.readerIterations - i) + 1 else 1
    case RRead(i) => if i < c.readerIterations then 2 * (c.readerIterations - i) else 2
    case _ => 0
  }

  ghost function ReaderRankFn(c: Config): (nat, ReaderPc) -> int {
    (_: nat, p: ReaderPc) => ReaderRank(c, p)
  }

  ghost function WritersLeft(c: Config, s: State): int {
    Sum(s.writers, WriterRankFn(c))
  }

  ghost function ReadersLeft(c: Config, s: State): int {
    Sum(s.readers, ReaderRankFn(c))
  }

  lemma RanksAreNatural(c: Config, s: State)
    requires Inv(c, s)
    ensures WritersLeft(c, s) >= 0 && ReadersLeft(c, s) >= 0
  {
    forall w | 0 <= w < c.writers ensures WriterRankFn(c)(w, s.writers[w]) >= 0 {
      assert WriterOk(c, s.writers[w], s.rows[w]);
    }
    SumNonNegative(s.writers, WriterRankFn(c));
    SumNonNegative(s.readers, ReaderRankFn(c));
  }

  /** Writer steps lower the writers' work; no other step touches it. */
  lemma WritersProgress(c: Config, s: State, a: Action)
    requires Inv(c, s) && Enabled(c, s, a)
    ensures if a.WriterStep? then WritersLeft(c, Apply(c, s, a)) < WritersLeft(c, s)
            else WritersLeft(c, Apply(c, s, a)) == WritersLeft(c, s)
  {
    if a.WriterStep? {
      assert WriterOk(c, s.writers[a.w], s.rows[a.w]);
      SumUpdate(s.writers, a.w, NextWriter(c, s.writers[a.w], a.ok, a.panics), WriterRankFn(c));
    }
  }

  /** Once the writers have drained, reader steps lower the readers' work. */
  lemma ReadersProgress(c: Config, s: State, a: Action)
    requires Inv(c, s) && Enabled(c, s, a) && s.remaining == 0
    ensures if a.ReaderStep? then ReadersLeft(c, Apply(c, s, a)) < ReadersLeft(c, s)
            else ReadersLeft(c, Apply(c, s, a)) == ReadersLeft(c, s)
  {
    if a.ReaderStep? {
      SumUpdate(s.readers, a.r, Apply(c, s, a).readers[a.r], ReaderRankFn(c));
    }
  }

  lemma StepNeverGrows(c: Config, s: State, a: Action)
    requires Inv(c, s) && Enabled(c, s, a)
    ensures WritersLeft(c, Apply(c, s, a)) <= WritersLeft(c, s) && Apply(c, s, a).remaining <= s.remaining
    ensures s.remaining == 0 ==>
              Apply(c, s, a).remaining == 0 && ReadersLeft(c, Apply(c, s, a)) <= ReadersLeft(c, s)
  {
    StepKeepsInv(c, s, a);
    RemainingIsExact(c, Apply(c, s, a));
    WritersProgress(c, s, a);
    if s.remaining == 0 {
      ReadersProgress(c, s, a);
    }
  }

  lemma {:induction false} WorkNeverGrows(c: Config, run: nat -> State, sched: nat -> Action, n: nat, m: nat)
    requires IsExecution(c, run, sched) && n <= m
    ensures WritersLeft(c, run(m)) <= WritersLeft(c, run(n)) && run(m).remaining <= run(n).remaining
    ensures run(n).remaining == 0 ==> run(m).remaining == 0 && ReadersLeft(c, run(m)) <= ReadersLeft(c, run(n))
    decreases m
  {
    if n < m {
      WorkNeverGrows(c, run, sched, n, m - 1);
      ExecutionKeepsInv(c, run, sched, m - 1);
      assert Follows(c, run, sched, m - 1);
      StepNeverGrows(c, run(m - 1), sched(m - 1));
    }
  }

  ghost predicate AllWritersFinished(s: State) {
    forall w :: 0 <= w < |s.writers| ==> WriterFinished(s.writers[w])
  }

  ghost predicate AllReadersFinished(s: State) {
    forall r :: 0 <= r < |s.readers| ==> ReaderFinished(s.readers[r])
  }

  /** Under fair scheduling the writers drain, whatever the readers do. */
  lemma {:induction false} WritersDrain(c: Config, run: nat -> State, sched: nat -> Action, n: nat) returns (m: nat)
    requires IsExecution(c, run, sched) && IsFair(c, run, sched)
    ensures m >= n && AllWritersFinished(run(m))
    decreases WritersLeft(c, run(n))
  {
    ExecutionKeepsInv(c, run, sched, n);
    RanksAreNatural(c, run(n));
    if AllWritersFinished(run(n)) {
      m := n;
    } else {
      var w :| 0 <= w < c.writers && !WriterFinished(run(n).writers[w]);
      assert Follows(c, run, sched, n) && WriterTurn(sched, n, w);
      var k: nat :| k >= n && IsWriter(sched(k), w);
      WorkNeverGrows(c, run, sched, n, k);
      ExecutionKeepsInv(c, run, sched, k);
      assert Follows(c, run, sched, k);
      WritersProgress(c, run(k), sched(k));
      m := WritersDrain(c, run, sched, k + 1);
    }
  }

  lemma {:induction false} ReadersFinish(c: Config, run: nat -> State, sched: nat -> Action, n: nat) returns (m: nat)
    requires IsExecution(c, run, sched) && IsFair(c, run, sched) && run(n).remaining == 0
    ensures m >= n && AllReadersFinished(run(m))
    decreases ReadersLeft(c, run(n))
  {
    ExecutionKeepsInv(c, run, sched, n);
    RanksAreNatural(c, run(n));
    if AllReadersFinished(run(n)) {
      m := n;
    } else {
      var r :| 0 <= r < c.readers && !ReaderFinished(run(n).readers[r]);
      assert Follows(c, run, sched, n) && ReaderTurn(sched, n, r);
      var k: nat :| k >= n && IsReader(sched(k), r);
      WorkNeverGrows(c, run, sched, n, k);
      WorkNeverGrows(c, run, sched, n, k + 1);
      ExecutionKeepsInv(c, run, sched, k);
      assert Follows(c, run, sched, k);
      ReadersProgress(c, run(k), sched(k));
      m := ReadersFinish(c, run, sched, k + 1);
    }
  }

  /** Every fair execution reaches a moment at which all workers, panicked ones included, have stopped. */
  lemma FairRunsTerminate(c: Config, run: nat -> State, sched: nat -> Action) returns (m: nat)
    requires IsExecution(c, run, sched) && IsFair(c, run, sched)
    ensures AllWritersFinished(run(m)) && AllReadersFinished(run(m))
  {
    var n := WritersDrain(c, run, sched, 0);
    ExecutionKeepsInv(c, run, sched, n);
    RemainingIsExact(c, run(n));
    m := ReadersFinish(c, run, sched, n);
    WorkNeverGrows(c, run, sched, n, m);
    ExecutionKeepsInv(c, run, sched, m);
    RemainingIsExact(c, run(m));
  }

  // ----- fairness is needed -----

  ghost function Starving(c: Config): nat -> State
    requires c.readers > 0
  {
    (n: nat) => Initial(c).(readers := Initial(c).readers[0 := if n % 2 == 0 then RLoop(n / 2) else RRead(n / 2)])
  }

  /** A scheduler that starves the writers keeps a sustained reader reading for ever. */
  lemma StarvedReadersNeverStop(c: Config)
    requires c.writers > 0 && c.readers > 0 && c.sustain
    ensures IsExecution(c, Starving(c), (_: nat) => ReaderStep(0, false))
    ensures forall n: nat :: !Starving(c)(n).readers[0].RDone?
  {
    var run := Starving(c);
    var sched := (_: nat) => ReaderStep(0, false);
    assert run(0).readers == Initial(c).readers;
    forall n: nat ensures Follows(c, run, sched, n) {
      assert run(n + 1).readers == Apply(c, run(n), ReaderStep(0, false)).readers;
    }
  }
}
