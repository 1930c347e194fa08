/**
  The order in which the publisher works: its steps in any run are those of a
  script that each mode prescribes, round after round.
 */
module PublicationScript {
  import opened Publication
  import PublicationHistory

  /** Where the publisher stood at each of its own steps among the first `n`. */
  ghost function Trace(states: seq<State>, actions: seq<Action>, n: nat): seq<PublisherPc>
    requires n <= |actions| < |states|
  {
    if n == 0 then []
    else Trace(states, actions, n - 1) + if actions[n - 1].PublisherStep? then [states[n - 1].publisher] else []
  }

  // ----- the script -----

  /** Each writer is started, then each is awaited; only in the first round, and only with capture-before-writers. */
  function Release(c: Config, k: nat): seq<PublisherPc> {
    if c.capture && k == 1
    then seq(c.writers, j requires 0 <= j => PSend(k, j)) + seq(c.writers, j requires 0 <= j => PRecv(k, j))
    else []
  }

  /** What a mode does after the capture, in and out of the owner. */
  function Publishing(c: Config, k: nat): seq<PublisherPc> {
    if c.mode.Detached? then [PPrepare(k), PReserve(k), PConstruct(k), PPublish(k), PCleanup(k)]
    else [PPrepare(k), PPublish(k), PCleanup(k)]
  }

  /** One round: the trigger, then one attempt unless publication is disabled. */
  function Round(c: Config, k: nat): seq<PublisherPc> {
    match c.mode
    case Disabled => [PTrigger(k)] + Release(c, k)
    case Legacy => [PTrigger(k), PPublish(k), PCleanup(k)]
    case _ => [PTrigger(k), PCapture(k)] + Release(c, k) + Publishing(c, k)
  }

  function Script(c: Config, rounds: nat): seq<PublisherPc> {
    if rounds == 0 then [PBegin] else Script(c, rounds - 1) + [PNext(rounds)] + Round(c, rounds)
  }

  // ----- every step is the next one of its round -----

  /** How many writers a round releases. */
  function Released(c: Config, k: nat): nat {
    if c.capture && k == 1 then c.writers else 0
  }

  lemma ReleaseAt(c: Config, k: nat)
    ensures |Release(c, k)| == 2 * Released(c, k)
    ensures forall j :: 0 <= j < Released(c, k) ==> Release(c, k)[j] == PSend(k, j)
    ensures forall j :: Released(c, k) <= j < 2 * Released(c, k) ==> Release(c, k)[j] == PRecv(k, j - Released(c, k))
  {
  }

  /** `q` follows `p` in round `k`. */
  ghost predicate Continues(c: Config, k: nat, p: PublisherPc, q: PublisherPc) {
    && !p.PBegin? && !p.PDone? && !p.PNext? && p.k == k
    && forall active :: NextPublisher(c, p, active) == q
  }

  ghost function After(c: Config, k: nat, round: seq<PublisherPc>, i: nat): PublisherPc {
    if i + 1 < |round| then round[i + 1] else PNext(k + 1)
  }

  lemma ReleaseContinues(c: Config, k: nat, j: nat)
    requires j < |Release(c, k)|
    ensures Continues(c, k, Release(c, k)[j],
                      if j + 1 < |Release(c, k)| then Release(c, k)[j + 1]
                      else if c.mode.Disabled? then PNext(k + 1) else PPrepare(k))
  {
    ReleaseAt(c, k);
  }

  lemma PublishingContinues(c: Config, k: nat, j: nat)
    requires j < |Publishing(c, k)|
    ensures Continues(c, k, Publishing(c, k)[j], After(c, k, Publishing(c, k), j))
  {
  }

  lemma DisabledContinues(c: Config, k: nat, i: nat)
    requires Coherent(c) && c.mode.Disabled? && i < |Round(c, k)|
    ensures Continues(c, k, Round(c, k)[i], After(c, k, Round(c, k), i))
  {
    ReleaseAt(c, k);
    if i > 0 {
      ReleaseContinues(c, k, i - 1);
    }
  }

  lemma CapturedContinues(c: Config, k: nat, i: nat)
    requires Coherent(c) && !c.mode.Disabled? && !c.mode.Legacy? && i < |Round(c, k)|
    ensures Continues(c, k, Round(c, k)[i], After(c, k, Round(c, k), i))
  {
    var release, publishing := Release(c, k), Publishing(c, k);
    var n := |release|;
    ReleaseAt(c, k);
    assert Round(c, k) == [PTrigger(k), PCapture(k)] + (release + publishing);
    if 2 <= i < 2 + n {
      ReleaseContinues(c, k, i - 2);
    } else if i >= 2 + n {
      PublishingContinues(c, k, i - 2 - n);
    }
  }

  /** Whatever the publisher loads, every step is followed by the next one of its round. */
  lemma RoundContinues(c: Config, k: nat, i: nat)
    requires Coherent(c) && i < |Round(c, k)|
    ensures Continues(c, k, Round(c, k)[i], After(c, k, Round(c, k), i))
  {
    if c.mode.Disabled? {
      DisabledContinues(c, k, i);
    } else if !c.mode.Legacy? {
      CapturedContinues(c, k, i);
    }
  }

  // ----- the publisher follows the script -----

  /** `trace` is what the script prescribes before `p`. */
  ghost predicate OnScript(c: Config, p: PublisherPc, trace: seq<PublisherPc>) {
    match p
    case PBegin => trace == []
    case PNext(k) => 0 < k <= Limit(c) + 1 && trace == Script(c, k - 1)
    case PDone =>
      exists k: nat ::
        0 < k <= Limit(c) + 1 && (c.sustained || k == Limit(c) + 1) && trace == Script(c, k - 1) + [PNext(k)]
    case p => 0 < p.k <= Limit(c) && exists i: nat :: IsPlace(c, p, i) && trace == Before(c, p.k, i)
  }

  /** The script up to step `i` of round `k`. */
  ghost function Before(c: Config, k: nat, i: nat): seq<PublisherPc>
    requires 0 < k && i <= |Round(c, k)|
  {
    Script(c, k - 1) + [PNext(k)] + Round(c, k)[..i]
  }

  ghost predicate IsPlace(c: Config, p: PublisherPc, i: nat)
    requires !p.PBegin? && !p.PDone?
  {
    i < |Round(c, p.k)| && Round(c, p.k)[i] == p
  }

  lemma PrefixGrows<T>(base: seq<T>, s: seq<T>, i: nat)
    requires i < |s|
    ensures base + s[..i] + [s[i]] == base + s[..i + 1]
    ensures i + 1 == |s| ==> base + s[..i + 1] == base + s
  {
  }

  lemma NextPlace(c: Config, k: nat, i: nat)
    requires Coherent(c) && 0 < k <= Limit(c) && i <= |Round(c, k)|
    ensures OnScript(c, if i < |Round(c, k)| then Round(c, k)[i] else PNext(k + 1), Before(c, k, i))
  {
    if i < |Round(c, k)| {
      RoundContinues(c, k, i);
      assert IsPlace(c, Round(c, k)[i], i);
    } else {
      assert Round(c, k)[..i] == Round(c, k);
    }
  }

  lemma StepFromPlace(c: Config, k: nat, i: nat, active: int)
    requires Coherent(c) && 0 < k <= Limit(c) && i < |Round(c, k)|
    ensures OnScript(c, NextPublisher(c, Round(c, k)[i], active), Before(c, k, i) + [Round(c, k)[i]])
  {
    RoundContinues(c, k, i);
    PrefixGrows(Script(c, k - 1) + [PNext(k)], Round(c, k), i);
    NextPlace(c, k, i + 1);
  }

  lemma StepInRound(c: Config, p: PublisherPc, active: int, trace: seq<PublisherPc>)
    requires Coherent(c) && !p.PBegin? && !p.PNext? && !p.PDone? && OnScript(c, p, trace)
    ensures OnScript(c, NextPublisher(c, p, active), trace + [p])
  {
    var i: nat :| IsPlace(c, p, i) && trace == Before(c, p.k, i);
    StepFromPlace(c, p.k, i, active);
  }

  lemma StopOnScript(c: Config, k: nat)
    requires 0 < k <= Limit(c) + 1 && (c.sustained || k == Limit(c) + 1)
    ensures OnScript(c, PDone, Script(c, k - 1) + [PNext(k)])
  {
  }

  lemma RoundBegins(c: Config, k: nat)
    requires Coherent(c) && 0 < k <= Limit(c)
    ensures OnScript(c, PTrigger(k), Script(c, k - 1) + [PNext(k)])
  {
    NextPlace(c, k, 0);
    assert Before(c, k, 0) == Script(c, k - 1) + [PNext(k)];
  }

  lemma StepAtHead(c: Config, k: nat, active: int)
    requires Coherent(c) && 0 < k <= Limit(c) + 1
    ensures OnScript(c, NextPublisher(c, PNext(k), active), Script(c, k - 1) + [PNext(k)])
  {
    if k > Limit(c) || (c.sustained && active == 0) {
      StopOnScript(c, k);
    } else {
      RoundBegins(c, k);
    }
  }

  lemma StepOnScript(c: Config, p: PublisherPc, active: int, trace: seq<PublisherPc>)
    requires Coherent(c) && !p.PDone? && OnScript(c, p, trace)
    ensures OnScript(c, NextPublisher(c, p, active), trace + [p])
  {
    if p.PNext? {
      StepAtHead(c, p.k, active);
    } else if !p.PBegin? {
      StepInRound(c, p, active, trace);
    }
  }

  lemma PublisherMoves(c: Config, s: State, a: Action)
    requires Shape(c, s) && Enabled(c, s, a)
    ensures Apply(c, s, a).publisher ==
            if a.PublisherStep? then NextPublisher(c, s.publisher, s.active) else s.publisher
    ensures a.PublisherStep? ==> !s.publisher.PDone?
  {
  }

  /** In every run the publisher has taken exactly the steps the script prescribes before the one it is at. */
  lemma {:induction false} PublisherFollowsScript(c: Config, states: seq<State>, actions: seq<Action>, n: nat)
    requires Coherent(c) && IsRun(c, states, actions) && n <= |actions|
    ensures OnScript(c, states[n].publisher, Trace(states, actions, n))
  {
    if n > 0 {
      PublisherFollowsScript(c, states, actions, n - 1);
      PublicationHistory.StepOf(c, states, actions, n - 1);
      PublisherMoves(c, states[n - 1], actions[n - 1]);
      if actions[n - 1].PublisherStep? {
        StepOnScript(c, states[n - 1].publisher, states[n - 1].active, Trace(states, actions, n - 1));
      }
    }
  }

  /** A publisher that has returned has worked through whole rounds: sixteen of them unless sustained. */
  lemma PublisherCompletesScript(c: Config, states: seq<State>, actions: seq<Action>)
    requires Coherent(c) && IsRun(c, states, actions) && states[|actions|].publisher.PDone?
    ensures exists k: nat ::
              && 0 < k <= 4097 && (!c.sustained ==> k == 17)
              && Trace(states, actions, |actions|) == Script(c, k - 1) + [PNext(k)]
  {
    PublisherFollowsScript(c, states, actions, |actions|);
  }
}
