/**
  Coverage of the automatic checkpoint crash cases: which configurations a shard
  must report, and when its log is accepted. The model starts from the records
  and summaries that the patterns extract from a log; counters are multisets.
 */
module CheckpointCoverage {
  import opened Options
  import opened Sorting

  datatype Place = Head | Manifest | Root | WalSync
  datatype Mode = EveryWrite | Checkpoint
  datatype Case = Case(place: Place, mode: Mode)
  datatype Shard = One(name: Case) | Full | Remaining | Unknown

  /** One configuration, in the words of the log. */
  datatype Key = Key(cut: string, policy: string, boundary: string, generation: int)

  /** A completion line: how many images one cut evaluated under how many durability modes. */
  datatype Summary = Summary(cut: string, images: nat, modes: nat)

  /** `None` is a coverage record with a missing or unreadable field. */
  datatype Log = Log(records: seq<Option<Key>>, summaries: seq<Summary>)

  datatype Report = Report(configurations: nat, images: nat)
  datatype Error = UnknownShard | IncompleteRecord | CoverageDiffers | NoImages | SummariesDiffer

  /** The eight cases of the table, in its order. */
  function CaseAt(i: nat): Case
    requires i < 8
  {
    Case(
      if i / 2 == 0 then Head else if i / 2 == 1 then Manifest else if i / 2 == 2 then Root else WalSync,
      if i % 2 == 0 then EveryWrite else Checkpoint)
  }

  function Cases(): seq<Case> {
    seq(8, i requires 0 <= i < 8 => CaseAt(i))
  }

  const POLICIES: seq<string> := ["SyncOnEveryWrite", "SyncOnCheckpoint"]

  function Cut(place: Place): string {
    match place
    case Head => "Head"
    case Manifest => "Manifest"
    case Root => "SealedRoot"
    case WalSync => "CandidateWalSync"
  }

  function Policies(mode: Mode): seq<string> {
    if mode.EveryWrite? then POLICIES[..1] else POLICIES[1..]
  }

  // ----- what is expected -----

  function Configurations(c: Case): set<Key> {
    set policy, boundary, generation |
        policy in Policies(c.mode) && boundary in {"Before", "After"} && 1 <= generation < 4 ::
      Key(Cut(c.place), policy, boundary, generation)
  }

  function Union(cases: seq<Case>): set<Key> {
    if cases == [] then {} else Configurations(cases[0]) + Union(cases[1..])
  }

  function Combinations(shard: Shard): set<Key> {
    match shard
    case One(c) => Configurations(c)
    case Full => Union(Cases())
    case _ => {}
  }

  /** One completion line per case, with as many modes as its configurations have policies. */
  function CaseSummary(c: Case): (string, nat) {
    (Cut(c.place), |set key | key in Configurations(c) :: key.policy|)
  }

  function SummaryTotal(cases: seq<Case>): multiset<(string, nat)> {
    if cases == [] then multiset{} else multiset{CaseSummary(cases[0])} + SummaryTotal(cases[1..])
  }

  function Summaries(shard: Shard): multiset<(string, nat)> {
    match shard
    case One(c) => multiset{CaseSummary(c)}
    case Full => SummaryTotal(Cases())
    case _ => multiset{}
  }

  // ----- the partition -----

  predicate Known(key: Key) {
    && (key.cut == "Head" || key.cut == "Manifest" || key.cut == "SealedRoot" || key.cut == "CandidateWalSync")
    && (key.policy == "SyncOnEveryWrite" || key.policy == "SyncOnCheckpoint")
    && (key.boundary == "Before" || key.boundary == "After")
    && 1 <= key.generation <= 3
  }

  function CaseOf(key: Key): Case {
    Case(
      if key.cut == "Head" then Head else if key.cut == "Manifest" then Manifest
      else if key.cut == "SealedRoot" then Root else WalSync,
      if key.policy == "SyncOnEveryWrite" then EveryWrite else Checkpoint)
  }

  lemma PoliciesAre(mode: Mode, policy: string)
    ensures policy in Policies(mode) <==> policy == if mode.EveryWrite? then "SyncOnEveryWrite" else "SyncOnCheckpoint"
  {
    assert POLICIES[..1] == ["SyncOnEveryWrite"] && POLICIES[1..] == ["SyncOnCheckpoint"];
  }

  lemma NamesDiffer(place: Place, mode: Mode, key: Key)
    requires key.cut == Cut(place) && key.policy in Policies(mode)
    ensures CaseOf(key) == Case(place, mode)
  {
    PoliciesAre(mode, key.policy);
    assert "SyncOnEveryWrite"[6] != "SyncOnCheckpoint"[6];
    assert |"Head"| == 4 && |"Manifest"| == 8 && |"SealedRoot"| == 10 && |"CandidateWalSync"| == 16;
  }

  /** A configuration belongs to exactly one case. */
  lemma Membership(c: Case, key: Key)
    ensures key in Configurations(c) <==> Known(key) && CaseOf(key) == c
  {
    PoliciesAre(c.mode, key.policy);
    if key in Configurations(c) {
      NamesDiffer(c.place, c.mode, key);
    }
    if Known(key) && CaseOf(key) == c {
      assert key == Key(Cut(c.place), key.policy, key.boundary, key.generation);
    }
  }

  lemma {:induction false} UnionMembership(cases: seq<Case>, key: Key)
    ensures key in Union(cases) <==> Known(key) && CaseOf(key) in cases
  {
    if cases != [] {
      Membership(cases[0], key);
      UnionMembership(cases[1..], key);
    }
  }

  function Index(c: Case): (i: nat)
    ensures i < 8
  {
    var first := match c.place case Head => 0 case Manifest => 2 case Root => 4 case WalSync => 6;
    if c.mode.EveryWrite? then first else first + 1
  }

  ghost predicate Indexed(cases: seq<Case>) {
    |cases| == 8 && forall i :: 0 <= i < 8 ==> Index(cases[i]) == i
  }

  lemma CasesAreIndexed()
    ensures Indexed(Cases())
  {
  }

  lemma IndexedOnce(cases: seq<Case>, c: Case)
    requires Indexed(cases)
    ensures c in cases && multiset(cases)[c] == 1
  {
    assert Index(cases[Index(c)]) == Index(c);
    DistinctOnce(cases, c);
    assert c in multiset(cases);
  }

  lemma ShardsAreDisjoint(a: Case, b: Case)
    requires a != b
    ensures Configurations(a) !! Configurations(b)
  {
    forall key | key in Configurations(a) ensures key !in Configurations(b) {
      Membership(a, key);
      Membership(b, key);
    }
  }

  /** `full` is the union of the eight shards. */
  lemma ShardsMakeFull(key: Key)
    ensures key in Union(Cases()) <==> exists c :: key in Configurations(c)
  {
    UnionMembership(Cases(), key);
    CasesAreIndexed();
    IndexedOnce(Cases(), CaseOf(key));
    Membership(CaseOf(key), key);
    forall c | key in Configurations(c) ensures Known(key) {
      Membership(c, key);
    }
  }

  lemma SixKeys(cut: string, policy: string, x: string, y: string)
    requires x != y
    ensures |{Key(cut, policy, x, 1), Key(cut, policy, x, 2), Key(cut, policy, x, 3),
              Key(cut, policy, y, 1), Key(cut, policy, y, 2), Key(cut, policy, y, 3)}| == 6
  {
  }

  lemma ConfigurationsAre(c: Case, policy: string)
    requires policy in Policies(c.mode)
    ensures var cut := Cut(c.place);
            Configurations(c) ==
            {Key(cut, policy, "Before", 1), Key(cut, policy, "Before", 2), Key(cut, policy, "Before", 3),
             Key(cut, policy, "After", 1), Key(cut, policy, "After", 2), Key(cut, policy, "After", 3)}
  {
    PoliciesAre(c.mode, policy);
    forall key | key in Configurations(c) ensures key.policy == policy {
      PoliciesAre(c.mode, key.policy);
    }
  }

  lemma PolicyIsOne(c: Case, policy: string)
    requires policy in Policies(c.mode)
    ensures CaseSummary(c) == (Cut(c.place), 1)
  {
    PoliciesAre(c.mode, policy);
    forall key | key in Configurations(c) ensures key.policy == policy {
      PoliciesAre(c.mode, key.policy);
    }
    assert Key(Cut(c.place), policy, "Before", 1) in Configurations(c);
    assert (set key | key in Configurations(c) :: key.policy) == {policy};
  }

  /** Every case has six configurations under one durability mode. */
  lemma CaseSize(c: Case)
    ensures |Configurations(c)| == 6 && CaseSummary(c) == (Cut(c.place), 1)
  {
    var policy := Policies(c.mode)[0];
    PolicyIsOne(c, policy);
    ConfigurationsAre(c, policy);
    assert |"Before"| != |"After"|;
    SixKeys(Cut(c.place), policy, "Before", "After");
  }

  // ----- validation -----

  ghost predicate Complete(log: Log) {
    forall i :: 0 <= i < |log.records| ==> log.records[i].Some?
  }

  ghost function Keys(records: seq<Option<Key>>): multiset<Key>
    requires forall i :: 0 <= i < |records| ==> records[i].Some?
  {
    if records == [] then multiset{}
    else
      var n := |records| - 1;
      Keys(records[..n]) + multiset{records[n].value}
  }

  ghost function Lines(summaries: seq<Summary>): multiset<(string, nat)> {
    if summaries == [] then multiset{}
    else
      var n := |summaries| - 1;
      Lines(summaries[..n]) + multiset{(summaries[n].cut, summaries[n].modes)}
  }

  ghost function Images(summaries: seq<Summary>): nat {
    if summaries == [] then 0
    else
      var n := |summaries| - 1;
      Images(summaries[..n]) + summaries[n].images
  }

  /** What one line contributes; with `KeysOfConcat` and `SummariesOfConcat` this fixes all three totals. */
  lemma TotalsOfOne(key: Key, summary: Summary)
    ensures Keys([Some(key)]) == multiset{key}
    ensures Lines([summary]) == multiset{(summary.cut, summary.modes)}
    ensures Images([summary]) == summary.images
  {
    assert [Some(key)][..0] == [] && [summary][..0] == [];
  }

  ghost predicate AllHaveImages(summaries: seq<Summary>) {
    forall i :: 0 <= i < |summaries| ==> summaries[i].images > 0
  }

  /** Each expected configuration exactly once, nothing else, and the expected completion lines. */
  ghost predicate Covers(log: Log, expected: set<Key>, lines: multiset<(string, nat)>) {
    && Complete(log)
    && (forall key :: Keys(log.records)[key] == if key in expected then 1 else 0)
    && AllHaveImages(log.summaries)
    && Lines(log.summaries) == lines
  }

  ghost predicate Accepted(shard: Shard, log: Log) {
    shard != Unknown && Covers(log, Combinations(shard), Summaries(shard))
  }

  /** The first check that a log fails. */
  ghost predicate Fails(log: Log, expected: set<Key>, lines: multiset<(string, nat)>, e: Error) {
    match e
    case UnknownShard => false
    case IncompleteRecord => exists i :: 0 <= i < |log.records| && log.records[i].None?
    case CoverageDiffers =>
      Complete(log) && exists key :: Keys(log.records)[key] != if key in expected then 1 else 0
    case NoImages =>
      && Complete(log) && (forall key :: Keys(log.records)[key] == if key in expected then 1 else 0)
      && exists i :: 0 <= i < |log.summaries| && log.summaries[i].images == 0
    case SummariesDiffer =>
      && Complete(log) && (forall key :: Keys(log.records)[key] == if key in expected then 1 else 0)
      && AllHaveImages(log.summaries) && Lines(log.summaries) != lines
  }

  lemma OnceEach(keys: multiset<Key>, expected: set<Key>)
    ensures keys == multiset(expected) <==> forall key :: keys[key] == if key in expected then 1 else 0
  {
  }

  method CountRecords(records: seq<Option<Key>>) returns (r: Option<multiset<Key>>)
    ensures r.Some? <==> forall i :: 0 <= i < |records| ==> records[i].Some?
    ensures r.Some? ==> r.value == Keys(records) && |r.value| == |records|
  {
    var actual := multiset{};
    for i := 0 to |records|
      invariant forall k :: 0 <= k < i ==> records[k].Some?
      invariant actual == Keys(records[..i]) && |actual| == i
    {
      if records[i].None? {
        return None;
      }
      assert records[..i + 1][..i] == records[..i];
      actual := actual + multiset{records[i].value};
    }
    assert records[..|records|] == records;
    r := Some(actual);
  }

  method CountSummaries(summaries: seq<Summary>) returns (ok: bool, lines: multiset<(string, nat)>, images: nat)
    ensures ok <==> AllHaveImages(summaries)
    ensures ok ==> lines == Lines(summaries) && images == Images(summaries)
  {
    lines, images := multiset{}, 0;
    for i := 0 to |summaries|
      invariant AllHaveImages(summaries[..i])
      invariant lines == Lines(summaries[..i]) && images == Images(summaries[..i])
    {
      if summaries[i].images <= 0 {
        return false, lines, images;
      }
      assert summaries[..i + 1][..i] == summaries[..i];
      lines := lines + multiset{(summaries[i].cut, summaries[i].modes)};
      images := images + summaries[i].images;
    }
    assert summaries[..|summaries|] == summaries;
    ok := true;
  }

  method Validate(expected: set<Key>, lines: multiset<(string, nat)>, log: Log) returns (r: Result<Report, Error>)
    ensures r.Ok? <==> Covers(log, expected, lines)
    ensures r.Ok? ==> r.value == Report(|log.records|, Images(log.summaries))
    ensures r.Err? ==> Fails(log, expected, lines, r.error)
  {
    var actual := CountRecords(log.records);
    if actual.None? {
      return Err(IncompleteRecord);
    }
    OnceEach(actual.value, expected);
    if actual.value != multiset(expected) {
      return Err(CoverageDiffers);
    }
    var ok, counted, images := CountSummaries(log.summaries);
    if !ok {
      return Err(NoImages);
    }
    if counted != lines {
      return Err(SummariesDiffer);
    }
    r := Ok(Report(|actual.value|, images));
  }

  /** `validate_log` accepts exactly the accepted logs. */
  method ValidateLog(shard: Shard, log: Log) returns (r: Result<Report, Error>)
    ensures r.Ok? <==> Accepted(shard, log)
    ensures r == Err(UnknownShard) <==> shard == Unknown
    ensures r.Err? && shard != Unknown ==> Fails(log, Combinations(shard), Summaries(shard), r.error)
    ensures r.Ok? ==> r.value == Report(|log.records|, Images(log.summaries))
  {
    if shard == Unknown {
      return Err(UnknownShard);
    }
    r := Validate(Combinations(shard), Summaries(shard), log);
  }

  // ----- joining shards -----

  type Logs = Case -> Log

  function JoinRecords(order: seq<Case>, logs: Logs): seq<Option<Key>> {
    if order == [] then [] else logs(order[0]).records + JoinRecords(order[1..], logs)
  }

  function JoinSummaries(order: seq<Case>, logs: Logs): seq<Summary> {
    if order == [] then [] else logs(order[0]).summaries + JoinSummaries(order[1..], logs)
  }

  ghost predicate CaseAccepted(c: Case, log: Log) {
    Covers(log, Configurations(c), multiset{CaseSummary(c)})
  }

  ghost predicate AllAccepted(logs: Logs) {
    forall c :: CaseAccepted(c, logs(c))
  }

  ghost predicate AllSome(records: seq<Option<Key>>) {
    forall i :: 0 <= i < |records| ==> records[i].Some?
  }

  lemma {:induction false} KeysOfConcat(a: seq<Option<Key>>, b: seq<Option<Key>>)
    requires AllSome(a) && AllSome(b)
    ensures AllSome(a + b) && Keys(a + b) == Keys(a) + Keys(b)
    decreases |b|
  {
    if b == [] {
      assert a + b == a;
    } else {
      var n := |b| - 1;
      assert (a + b)[..|a + b| - 1] == a + b[..n];
      KeysOfConcat(a, b[..n]);
    }
  }

  lemma {:induction false} SummariesOfConcat(a: seq<Summary>, b: seq<Summary>)
    ensures Lines(a + b) == Lines(a) + Lines(b) && Images(a + b) == Images(a) + Images(b)
    decreases |b|
  {
    if b == [] {
      assert a + b == a;
    } else {
      var n := |b| - 1;
      assert (a + b)[..|a + b| - 1] == a + b[..n];
      SummariesOfConcat(a, b[..n]);
    }
  }

  ghost function ImageTotal(order: seq<Case>, logs: Logs): nat {
    if order == [] then 0 else Images(logs(order[0]).summaries) + ImageTotal(order[1..], logs)
  }

  lemma CaseKeys(c: Case, log: Log, key: Key)
    requires CaseAccepted(c, log)
    ensures AllSome(log.records) && |log.records| == 6
    ensures Keys(log.records)[key] == if Known(key) && CaseOf(key) == c then 1 else 0
  {
    Membership(c, key);
    KeysSize(log.records);
    OnceEach(Keys(log.records), Configurations(c));
    CaseSize(c);
  }

  lemma FirstCounts(order: seq<Case>, c: Case)
    requires order != []
    ensures multiset(order)[c] == multiset(order[1..])[c] + if order[0] == c then 1 else 0
  {
    assert order == [order[0]] + order[1..];
  }

  /** How often a joined log reports a configuration: as often as its case was joined. */
  lemma {:induction false} JoinedKeys(order: seq<Case>, logs: Logs, key: Key)
    requires AllAccepted(logs)
    ensures AllSome(JoinRecords(order, logs))
    ensures Keys(JoinRecords(order, logs))[key] == if Known(key) then multiset(order)[CaseOf(key)] else 0
    ensures |JoinRecords(order, logs)| == 6 * |order|
  {
    if order != [] {
      var c := order[0];
      assert CaseAccepted(c, logs(c));
      CaseKeys(c, logs(c), key);
      JoinedKeys(order[1..], logs, key);
      KeysOfConcat(logs(c).records, JoinRecords(order[1..], logs));
      FirstCounts(order, CaseOf(key));
    }
  }

  lemma {:induction false} KeysSize(records: seq<Option<Key>>)
    requires AllSome(records)
    ensures |Keys(records)| == |records|
  {
    if records != [] {
      KeysSize(records[..|records| - 1]);
    }
  }

  lemma {:induction false} JoinedSummaries(order: seq<Case>, logs: Logs)
    requires AllAccepted(logs)
    ensures AllHaveImages(JoinSummaries(order, logs))
    ensures Lines(JoinSummaries(order, logs)) == SummaryTotal(order)
    ensures Images(JoinSummaries(order, logs)) == ImageTotal(order, logs)
  {
    if order != [] {
      var c := order[0];
      assert CaseAccepted(c, logs(c));
      JoinedSummaries(order[1..], logs);
      SummariesOfConcat(logs(c).summaries, JoinSummaries(order[1..], logs));
    }
  }

  lemma LineCounts(c: Case, place: Place)
    ensures multiset{CaseSummary(c)}[(Cut(place), 1)] == if c.place == place then 1 else 0
  {
    CaseSize(c);
    CutsDiffer(c.place, place);
  }

  /** The completion lines of a list of cases, counted by cut. */
  lemma {:induction false} SummaryCount(order: seq<Case>, place: Place)
    ensures SummaryTotal(order)[(Cut(place), 1)] ==
            multiset(order)[Case(place, EveryWrite)] + multiset(order)[Case(place, Checkpoint)]
  {
    if order != [] {
      SummaryCount(order[1..], place);
      LineCounts(order[0], place);
      FirstCounts(order, Case(place, EveryWrite));
      FirstCounts(order, Case(place, Checkpoint));
    }
  }

  lemma CutsDiffer(a: Place, b: Place)
    ensures Cut(a) == Cut(b) ==> a == b
  {
    assert |"Head"| == 4 && |"Manifest"| == 8 && |"SealedRoot"| == 10 && |"CandidateWalSync"| == 16;
  }

  lemma {:induction false} OnlyCuts(order: seq<Case>, line: (string, nat))
    requires forall place :: line != (Cut(place), 1)
    ensures SummaryTotal(order)[line] == 0
  {
    if order != [] {
      CaseSize(order[0]);
      OnlyCuts(order[1..], line);
    }
  }

  /** The expected completion lines do not depend on the order of the cases. */
  lemma SummaryTotalIgnoresOrder(a: seq<Case>, b: seq<Case>)
    requires multiset(a) == multiset(b)
    ensures SummaryTotal(a) == SummaryTotal(b)
  {
    forall line ensures SummaryTotal(a)[line] == SummaryTotal(b)[line] {
      if place :| line == (Cut(place), 1) {
        SummaryCount(a, place);
        SummaryCount(b, place);
      } else {
        OnlyCuts(a, line);
        OnlyCuts(b, line);
      }
    }
  }

  lemma JoinedKeysOnce(order: seq<Case>, logs: Logs, cases: seq<Case>, key: Key)
    requires AllAccepted(logs) && multiset(order) == multiset(cases) && Indexed(cases)
    ensures AllSome(JoinRecords(order, logs)) && |JoinRecords(order, logs)| == 48
    ensures Keys(JoinRecords(order, logs))[key] == if key in Union(cases) then 1 else 0
  {
    assert |order| == |multiset(order)| == |multiset(cases)| == |cases|;
    JoinedKeys(order, logs, key);
    UnionMembership(cases, key);
    IndexedOnce(cases, CaseOf(key));
  }

  lemma CoversIfOnce(log: Log, expected: set<Key>, lines: multiset<(string, nat)>)
    requires AllSome(log.records) && AllHaveImages(log.summaries) && Lines(log.summaries) == lines
    requires forall key :: Keys(log.records)[key] == if key in expected then 1 else 0
    ensures Covers(log, expected, lines)
  {
  }

  lemma JoinedLogsCover(order: seq<Case>, logs: Logs, cases: seq<Case>)
    requires AllAccepted(logs) && multiset(order) == multiset(cases) && Indexed(cases)
    ensures Covers(Log(JoinRecords(order, logs), JoinSummaries(order, logs)), Union(cases), SummaryTotal(cases))
    ensures |JoinRecords(order, logs)| == 48
  {
    var log := Log(JoinRecords(order, logs), JoinSummaries(order, logs));
    JoinedKeysOnce(order, logs, cases, Key("", "", "", 0));
    forall key ensures Keys(log.records)[key] == if key in Union(cases) then 1 else 0 {
      JoinedKeysOnce(order, logs, cases, key);
    }
    JoinedSummaries(order, logs);
    SummaryTotalIgnoresOrder(order, cases);
    CoversIfOnce(log, Union(cases), SummaryTotal(cases));
  }

  lemma AcceptedForFull(log: Log)
    requires Covers(log, Union(Cases()), SummaryTotal(Cases()))
    ensures Accepted(Full, log)
  {
  }

  lemma AcceptedForOne(c: Case, log: Log)
    requires Accepted(One(c), log)
    ensures CaseAccepted(c, log)
  {
  }

  /**
    One accepted log per shard, joined in any order, is accepted for `full`. It
    reports all 48 configurations, and the image counts add up.
   */
  lemma JoinedLogsAreFull(order: seq<Case>, logs: Logs)
    requires forall c :: Accepted(One(c), logs(c))
    requires multiset(order) == multiset(Cases())
    ensures Accepted(Full, Log(JoinRecords(order, logs), JoinSummaries(order, logs)))
    ensures |JoinRecords(order, logs)| == 48
    ensures Images(JoinSummaries(order, logs)) == ImageTotal(order, logs)
  {
    forall c ensures CaseAccepted(c, logs(c)) {
      AcceptedForOne(c, logs(c));
    }
    CasesAreIndexed();
    JoinedLogsCover(order, logs, Cases());
    AcceptedForFull(Log(JoinRecords(order, logs), JoinSummaries(order, logs)));
    JoinedSummaries(order, logs);
  }
}
