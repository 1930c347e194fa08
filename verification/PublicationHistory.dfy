/**
  What a run of the publication benchmark did, told from its steps: which step
  captured the epoch that another one publishes, when the publisher stops, and
  how often every thread went through its loop.
 */
module PublicationHistory {
  import opened Options
  import opened Sums
  import opened Publication
  import opened PublicationInvariants

  lemma StepOf(c: Config, states: seq<State>, actions: seq<Action>, n: nat)
    requires IsRun(c, states, actions) && n < |actions|
    ensures Shape(c, states[n]) && Enabled(c, states[n], actions[n])
    ensures states[n + 1] == Apply(c, states[n], actions[n])
  {
  }

  // ----- capture and publication -----

  /** A session is opened by a capture and kept by everything up to its publication. */
  lemma SessionStep(c: Config, p: PublisherPc, active: int, u: Consumer, epoch: nat, refused: bool)
    requires HasSession(c, NextPublisher(c, p, active))
    ensures p.PCapture? || HasSession(c, p)
    ensures NextPublisher(c, p, active).k == p.k
    ensures PublisherConsumer(c, u, p, epoch, refused).captured == if p.PCapture? then epoch else u.captured
  {
  }

  lemma OtherStepsLeavePublisher(c: Config, s: State, a: Action)
    requires Shape(c, s) && Enabled(c, s, a) && !a.PublisherStep?
    ensures Apply(c, s, a).publisher == s.publisher && Apply(c, s, a).consumer == s.consumer
  {
  }

  /** The captured epoch of an open session is the one its capture step found in the database. */
  lemma {:induction false} SessionBegan(c: Config, states: seq<State>, actions: seq<Action>, n: nat) returns (m: nat)
    requires IsRun(c, states, actions) && n < |states| && HasSession(c, states[n].publisher)
    ensures m < n && actions[m].PublisherStep? && states[m].publisher == PCapture(states[n].publisher.k)
    ensures states[n].consumer.captured == states[m].db.epoch
    decreases n
  {
    StepOf(c, states, actions, n - 1);
    var s, a := states[n - 1], actions[n - 1];
    if a.PublisherStep? {
      SessionStep(c, s.publisher, s.active, s.consumer, s.db.epoch, a.refused);
      if s.publisher.PCapture? {
        m := n - 1;
      } else {
        m := SessionBegan(c, states, actions, n - 1);
      }
    } else {
      OtherStepsLeavePublisher(c, s, a);
      m := SessionBegan(c, states, actions, n - 1);
    }
  }

  /** The row that a publication step appends to the report. */
  ghost function NewAttempt(states: seq<State>, n: nat): Attempt
    requires n + 1 < |states| && |states[n + 1].consumer.attempts| > 0
  {
    var attempts := states[n + 1].consumer.attempts;
    attempts[|attempts| - 1]
  }

  lemma PublishStep(c: Config, s: State, refused: bool)
    requires Shape(c, s) && s.publisher.PPublish? && PublisherEnabled(c, s)
    ensures var u, u' := s.consumer, ApplyPublisher(c, s, refused).consumer;
            && |u'.attempts| == |u.attempts| + 1 && u.attempts <= u'.attempts
            && var a := u'.attempts[|u.attempts|];
               && a.before == u.watermark && a.after == u'.watermark
               && (a.published <==> !(c.mode.Covered? && refused))
               && (!a.published ==> a.after == a.before)
               && (c.mode.Legacy? ==> a.captured.None? && a.source.None? && u'.watermark == s.db.epoch)
               && (!c.mode.Legacy? ==>
                     && a.captured == Some(u.captured) && a.source == Some(s.db.epoch)
                     && (a.published ==> u'.watermark == u.captured))
  {
  }

  /**
    Every publication in every run publishes what its own capture step saw: the
    appended attempt carries the epoch of the database at that step as captured and
    the epoch at the publication as source, and if it publishes, the watermark
    becomes the captured epoch.
   */
  lemma PublishesItsCapture(c: Config, states: seq<State>, actions: seq<Action>, n: nat) returns (m: nat)
    requires Coherent(c) && IsRun(c, states, actions) && n < |actions| && actions[n].PublisherStep?
    requires states[n].publisher.PPublish? && !c.mode.Legacy?
    ensures m < n && actions[m].PublisherStep? && states[m].publisher == PCapture(states[n].publisher.k)
    ensures states[n].consumer.attempts <= states[n + 1].consumer.attempts
    ensures |states[n + 1].consumer.attempts| == |states[n].consumer.attempts| + 1
    ensures var a := NewAttempt(states, n);
            && a.captured == Some(states[m].db.epoch) && a.source == Some(states[n].db.epoch)
            && a.before == states[n].consumer.watermark && a.after == states[n + 1].consumer.watermark
            && (a.published <==> !(c.mode.Covered? && actions[n].refused))
            && states[n + 1].consumer.watermark ==
               if a.published then states[m].db.epoch else states[n].consumer.watermark
  {
    RunKeepsInv(c, states, actions, n);
    m := SessionBegan(c, states, actions, n);
    StepOf(c, states, actions, n);
    PublishStep(c, states[n], actions[n].refused);
  }

  /** In legacy mode the callback catches up with the database it runs on. */
  lemma LegacyPublishesCurrent(c: Config, states: seq<State>, actions: seq<Action>, n: nat)
    requires IsRun(c, states, actions) && n < |actions| && actions[n].PublisherStep?
    requires states[n].publisher.PPublish? && c.mode.Legacy?
    ensures states[n + 1].consumer.watermark == states[n].db.epoch
    ensures |states[n + 1].consumer.attempts| == |states[n].consumer.attempts| + 1
    ensures NewAttempt(states, n) ==
            Attempt(states[n].consumer.watermark, states[n].db.epoch, None, None, true)
  {
    StepOf(c, states, actions, n);
    PublishStep(c, states[n], actions[n].refused);
  }

  // ----- when the publisher stops -----

  lemma NobodyActive(c: Config, writers: seq<WriterPc>, active: int, completed: nat)
    requires Counters(writers, active, completed)
    ensures active == 0 <==> forall w :: 0 <= w < |writers| ==> writers[w].WDone?
  {
    if w :| 0 <= w < |writers| && !writers[w].WDone? {
      SumAtLeast(writers, w, AliveFn());
    } else {
      SumConstant(writers, AliveFn(), 0);
    }
  }

  lemma LoopHead(c: Config, s: State, refused: bool)
    requires Shape(c, s) && s.publisher.PNext? && PublisherEnabled(c, s)
    requires PublisherOk(c, s.publisher, s.triggers, |s.consumer.attempts|)
    requires Counters(s.writers, s.active, s.completed)
    ensures ApplyPublisher(c, s, refused).publisher.PDone? <==>
            if c.sustained then s.triggers >= 4096 || forall w :: 0 <= w < c.writers ==> s.writers[w].WDone?
            else s.triggers >= 16
    ensures !ApplyPublisher(c, s, refused).publisher.PDone? ==>
              ApplyPublisher(c, s, refused).publisher == PTrigger(s.triggers + 1)
  {
    NobodyActive(c, s.writers, s.active, s.completed);
  }

  /**
    The publisher's loop head in any run: it stops exactly after 16 triggers, or,
    when sustained, after 4096 triggers or once every writer has returned; otherwise
    it goes on to the next trigger.
   */
  lemma PublisherStopsIff(c: Config, states: seq<State>, actions: seq<Action>, n: nat)
    requires Coherent(c) && IsRun(c, states, actions) && n < |actions|
    requires actions[n].PublisherStep? && states[n].publisher.PNext?
    ensures |states[n].writers| == c.writers
    ensures states[n + 1].publisher.PDone? <==>
            if c.sustained
            then states[n].triggers >= 4096 || forall w :: 0 <= w < c.writers ==> states[n].writers[w].WDone?
            else states[n].triggers >= 16
    ensures !states[n + 1].publisher.PDone? ==> states[n + 1].publisher == PTrigger(states[n].triggers + 1)
  {
    RunKeepsInv(c, states, actions, n);
    StepOf(c, states, actions, n);
    LoopHead(c, states[n], actions[n].refused);
  }

  // ----- how often -----

  ghost predicate IsRead(s: State, a: Action, r: nat) {
    a.ReaderStep? && a.r == r && r < |s.readers| && s.readers[r].RRead?
  }

  /** How many of the first `n` actions are reads of reader `r` under the owner. */
  ghost function Reads(states: seq<State>, actions: seq<Action>, n: nat, r: nat): nat
    requires |states| == |actions| + 1 && n <= |actions|
  {
    if n == 0 then 0
    else Reads(states, actions, n - 1, r) + if IsRead(states[n - 1], actions[n - 1], r) then 1 else 0
  }

  ghost function ReadsDone(p: ReaderPc): nat {
    if p.RBegin? then 0 else p.n
  }

  lemma ReadStep(c: Config, s: State, a: Action, r: nat)
    requires Shape(c, s) && Enabled(c, s, a) && r < c.readers
    ensures r < |Apply(c, s, a).readers|
    ensures ReadsDone(Apply(c, s, a).readers[r]) == ReadsDone(s.readers[r]) + if IsRead(s, a, r) then 1 else 0
  {
  }

  lemma {:induction false} ReadsAreCounted(c: Config, states: seq<State>, actions: seq<Action>, n: nat, r: nat)
    requires IsRun(c, states, actions) && n <= |actions| && r < c.readers
    ensures r < |states[n].readers| && ReadsDone(states[n].readers[r]) == Reads(states, actions, n, r)
    decreases n
  {
    if n > 0 {
      ReadsAreCounted(c, states, actions, n - 1, r);
      StepOf(c, states, actions, n - 1);
      ReadStep(c, states[n - 1], actions[n - 1], r);
    }
  }

  /** A reader that has returned has read exactly as often as it was asked to. */
  lemma ReadersReadAll(c: Config, states: seq<State>, actions: seq<Action>, r: nat)
    requires Coherent(c) && IsRun(c, states, actions) && r < c.readers
    ensures r < |states[|actions|].readers|
    ensures Reads(states, actions, |actions|, r) <= c.requests
    ensures states[|actions|].readers[r].RDone? ==> Reads(states, actions, |actions|, r) == c.requests
  {
    ReadsAreCounted(c, states, actions, |actions|, r);
    RunKeepsInv(c, states, actions, |actions|);
  }
}
