/**
  The reference path of the grouped evidence benchmark: fold the streamed rows
  into the best score of every document of every group, then take the best `m`
  documents of each group and the best `k` groups. Scores are their positions in
  the total order of `f64::total_cmp`.
 */
module GroupedEvidence {
  import opened Sorting
  import opened Texts

  datatype Row = Row(group: int, id: Text, score: int)

  type Groups = map<int, map<Text, int>>

  // ----- the fold -----

  predicate Holds(groups: Groups, g: int, id: Text, score: int) {
    g in groups && id in groups[g] && groups[g][id] == score
  }

  predicate Covers(groups: Groups, row: Row) {
    row.group in groups && row.id in groups[row.group] && row.score <= groups[row.group][row.id]
  }

  ghost predicate NoEmptyGroup(groups: Groups) {
    forall g :: g in groups ==> groups[g] != map[]
  }

  /** Every held score arrived, and no row that arrived beats what is held for it. */
  ghost predicate Collected(rows: seq<Row>, groups: Groups) {
    && NoEmptyGroup(groups)
    && (forall g, id, score :: Holds(groups, g, id, score) ==> Row(g, id, score) in rows)
    && (forall i :: 0 <= i < |rows| ==> Covers(groups, rows[i]))
  }

  /** One row: the best score of its document is kept. */
  method Put(groups: Groups, row: Row) returns (r: Groups)
    requires NoEmptyGroup(groups)
    ensures NoEmptyGroup(r) && Covers(r, row)
    ensures forall other :: Covers(groups, other) ==> Covers(r, other)
    ensures forall g, id, score :: Holds(r, g, id, score) ==> Holds(groups, g, id, score) || row == Row(g, id, score)
  {
    var documents := if row.group in groups then groups[row.group] else map[];
    if row.id in documents {
      if row.score > documents[row.id] {
        documents := documents[row.id := row.score];
      }
    } else {
      documents := documents[row.id := row.score];
    }
    assert row.id in documents;
    r := groups[row.group := documents];
  }

  method Collect(rows: seq<Row>) returns (groups: Groups)
    ensures Collected(rows, groups)
  {
    groups := map[];
    for i := 0 to |rows|
      invariant Collected(rows[..i], groups)
    {
      assert rows[..i + 1] == rows[..i] + [rows[i]];
      groups := Put(groups, rows[i]);
    }
    assert rows[..|rows|] == rows;
  }

  ghost predicate SameRows(a: seq<Row>, b: seq<Row>) {
    forall row :: row in a <==> row in b
  }

  lemma CollectedAgrees(a: seq<Row>, x: Groups, b: seq<Row>, y: Groups, g: int, id: Text)
    requires Collected(a, x) && Collected(b, y) && SameRows(a, b)
    requires g in x && id in x[g]
    ensures g in y && id in y[g] && y[g][id] == x[g][id]
  {
    var row := Row(g, id, x[g][id]);
    assert Holds(x, g, id, x[g][id]);
    assert row in b;
    assert Covers(y, row);
    assert Holds(y, g, id, y[g][id]);
    assert Row(g, id, y[g][id]) in a;
  }

  /** The fold depends on which rows arrive, not on their order or on repetitions. */
  lemma CollectedIsUnique(a: seq<Row>, x: Groups, b: seq<Row>, y: Groups)
    requires Collected(a, x) && Collected(b, y) && SameRows(a, b)
    ensures x == y
  {
    CollectedIncludes(a, x, b, y);
    CollectedIncludes(b, y, a, x);
    GroupsAgree(x, y);
  }

  lemma GroupsAgree(x: Groups, y: Groups)
    requires x.Keys == y.Keys && forall g :: g in x ==> x[g] == y[g]
    ensures x == y
  {
    forall g | g in x ensures x[g] == y[g] {
    }
  }

  lemma CollectedIncludes(a: seq<Row>, x: Groups, b: seq<Row>, y: Groups)
    requires Collected(a, x) && Collected(b, y) && SameRows(a, b)
    ensures x.Keys <= y.Keys && forall g :: g in x ==> x[g] == y[g]
  {
    forall g | g in x ensures g in y && x[g] == y[g] {
      var id :| id in x[g];
      CollectedAgrees(a, x, b, y, g, id);
      forall id | id in x[g] ensures id in y[g] && y[g][id] == x[g][id] {
        CollectedAgrees(a, x, b, y, g, id);
      }
      forall id | id in y[g] ensures id in x[g] {
        CollectedAgrees(b, y, a, x, g, id);
      }
    }
  }

  // ----- ranking -----

  datatype Ranked<K> = Ranked(key: K, score: int)

  /** Higher scores first, ties by key. */
  predicate Before<K>(keyLe: (K, K) -> bool, a: Ranked<K>, b: Ranked<K>) {
    a.score > b.score || (a.score == b.score && keyLe(a.key, b.key))
  }

  function RankOrder<K>(keyLe: (K, K) -> bool): (Ranked<K>, Ranked<K>) -> bool {
    (a, b) => Before(keyLe, a, b)
  }

  ghost predicate IsOrder<K(!new)>(le: (K, K) -> bool) {
    Total(le) && Transitive(le) && Antisymmetric(le)
  }

  lemma RankIsOrder<K(!new)>(keyLe: (K, K) -> bool)
    requires IsOrder(keyLe)
    ensures IsOrder(RankOrder(keyLe))
  {
    var le := RankOrder(keyLe);
    assert forall a, b :: le(a, b) == Before(keyLe, a, b);
  }

  predicate IsEntry<K>(scores: map<K, int>, r: Ranked<K>) {
    r.key in scores && scores[r.key] == r.score
  }

  /** `top` lists the best entries of `scores` in order, `n` of them or all. */
  ghost predicate IsTop<K(!new)>(scores: map<K, int>, keyLe: (K, K) -> bool, n: nat, top: seq<Ranked<K>>) {
    && |top| == (if n < |scores| then n else |scores|)
    && Sorted(top, RankOrder(keyLe)) && Distinct(top)
    && (forall i :: 0 <= i < |top| ==> IsEntry(scores, top[i]))
    && (forall r, i :: 0 <= i < |top| && IsEntry(scores, r) && r !in top ==> Before(keyLe, top[i], r))
  }

  /** There is only one such list, whatever the sorting algorithm. */
  lemma {:induction false} TopIsUnique<K(!new)>(
    scores: map<K, int>, keyLe: (K, K) -> bool, n: nat, a: seq<Ranked<K>>, b: seq<Ranked<K>>, i: nat)
    requires IsOrder(keyLe) && IsTop(scores, keyLe, n, a) && IsTop(scores, keyLe, n, b) && i <= |a|
    ensures |a| == |b| && a[..i] == b[..i]
    decreases i
  {
    if i > 0 {
      TopIsUnique(scores, keyLe, n, a, b, i - 1);
      NextIsBefore(scores, keyLe, n, a, b, i - 1);
      NextIsBefore(scores, keyLe, n, b, a, i - 1);
      RankIsOrder(keyLe);
      assert a[i - 1] == b[i - 1];
    }
  }

  lemma NextIsBefore<K(!new)>(
    scores: map<K, int>, keyLe: (K, K) -> bool, n: nat, a: seq<Ranked<K>>, b: seq<Ranked<K>>, i: nat)
    requires IsOrder(keyLe) && IsTop(scores, keyLe, n, a) && IsTop(scores, keyLe, n, b)
    requires i < |a| == |b| && a[..i] == b[..i]
    ensures RankOrder(keyLe)(b[i], a[i])
  {
    assert forall q :: 0 <= q < i ==> b[q] == b[..i][q] == a[..i][q] == a[q];
    RankIsOrder(keyLe);
    if a[i] in b {
      var j :| 0 <= j < |b| && b[j] == a[i];
      assert j >= i;
    }
  }

  ghost predicate IsRanking<K(!new)>(scores: map<K, int>, keyLe: (K, K) -> bool, ranked: seq<Ranked<K>>) {
    && |ranked| == |scores| && Sorted(ranked, RankOrder(keyLe)) && Distinct(ranked)
    && (forall r :: r in ranked <==> IsEntry(scores, r))
  }

  lemma PrefixIsTop<K(!new)>(scores: map<K, int>, keyLe: (K, K) -> bool, ranked: seq<Ranked<K>>, n: nat)
    requires IsRanking(scores, keyLe, ranked)
    ensures IsTop(scores, keyLe, n, if n < |ranked| then ranked[..n] else ranked)
  {
    var top := if n < |ranked| then ranked[..n] else ranked;
    assert forall q :: 0 <= q < |top| ==> top[q] == ranked[q] && top[q] in ranked && top[q] in top;
    forall r, i | 0 <= i < |top| && IsEntry(scores, r) && r !in top ensures Before(keyLe, top[i], r) {
      var j :| 0 <= j < |ranked| && ranked[j] == r;
      assert RankOrder(keyLe)(ranked[i], ranked[j]);
    }
  }

  /** `into_iter().collect()`, in whatever order the map is walked. */
  method Entries<K(==,!new)>(scores: map<K, int>) returns (entries: seq<Ranked<K>>)
    ensures |entries| == |scores| && Distinct(entries)
    ensures forall r :: r in entries <==> IsEntry(scores, r)
  {
    entries := [];
    var rest := scores.Keys;
    while rest != {}
      invariant rest <= scores.Keys && |entries| + |rest| == |scores|
      invariant Distinct(entries)
      invariant forall r :: r in entries <==> IsEntry(scores, r) && r.key !in rest
      decreases |rest|
    {
      var key :| key in rest;
      rest := rest - {key};
      entries := entries + [Ranked(key, scores[key])];
    }
  }

  method Rank<K(==,!new)>(scores: map<K, int>, keyLe: (K, K) -> bool) returns (ranked: seq<Ranked<K>>)
    requires IsOrder(keyLe)
    ensures IsRanking(scores, keyLe, ranked)
  {
    var entries := Entries(scores);
    ranked := Sort(entries, RankOrder(keyLe));
    RankIsOrder(keyLe);
    SortIsSorted(entries, RankOrder(keyLe));
    DistinctIgnoresOrder(entries, ranked);
    forall r ensures r in ranked <==> IsEntry(scores, r) {
      SameMembers(entries, ranked, r);
    }
  }

  // ----- the selection -----

  datatype Answer = Answer(g: int, best: int, evidence: seq<Text>)

  predicate IntLe(a: int, b: int) {
    a <= b
  }

  ghost predicate IsBestOf(documents: map<Text, int>, best: int) {
    (exists id :: id in documents && documents[id] == best) && forall id :: id in documents ==> documents[id] <= best
  }

  /** The largest score of a group. */
  ghost function Best(documents: map<Text, int>): (best: int)
    requires documents != map[]
    ensures IsBestOf(documents, best)
    decreases |documents|
  {
    var id :| id in documents;
    var rest := documents - {id};
    assert forall x :: x in documents ==> x == id || x in rest;
    assert rest.Keys == documents.Keys - {id};
    if rest == map[] then documents[id]
    else
      var other := Best(rest);
      assert forall x :: x in rest ==> rest[x] == documents[x];
      if other < documents[id] then documents[id] else other
  }

  ghost function Bests(groups: Groups): map<int, int>
    requires NoEmptyGroup(groups)
  {
    map g | g in groups :: Best(groups[g])
  }

  ghost predicate IsEvidence(documents: map<Text, int>, m: nat, top: seq<Ranked<Text>>, ids: seq<Text>) {
    IsTop(documents, TextLe, m, top) && |ids| == |top| && forall i :: 0 <= i < |ids| ==> ids[i] == top[i].key
  }

  ghost predicate HasEvidence(documents: map<Text, int>, m: nat, ids: seq<Text>) {
    exists top :: IsEvidence(documents, m, top, ids)
  }

  function Head(a: Answer): Ranked<int> {
    Ranked(a.g, a.best)
  }

  function Heads(answers: seq<Answer>): seq<Ranked<int>> {
    seq(|answers|, i requires 0 <= i < |answers| => Head(answers[i]))
  }

  /** The best `k` groups in order, each with its best score and its best `m` documents. */
  ghost predicate IsSelection(groups: Groups, m: nat, k: nat, answers: seq<Answer>)
    requires NoEmptyGroup(groups)
  {
    && IsTop(Bests(groups), IntLe, k, Heads(answers))
    && forall i :: 0 <= i < |answers| ==>
         answers[i].g in groups && HasEvidence(groups[answers[i].g], m, answers[i].evidence)
  }

  lemma EvidenceIsUnique(documents: map<Text, int>, m: nat, a: seq<Text>, b: seq<Text>)
    requires HasEvidence(documents, m, a) && HasEvidence(documents, m, b)
    ensures a == b
  {
    var x :| IsEvidence(documents, m, x, a);
    var y :| IsEvidence(documents, m, y, b);
    TextLeIsOrder();
    TopIsUnique(documents, TextLe, m, x, y, |x|);
    assert x == x[..|x|] && y == y[..|x|];
  }

  lemma SelectionIsUnique(groups: Groups, m: nat, k: nat, a: seq<Answer>, b: seq<Answer>)
    requires NoEmptyGroup(groups) && IsSelection(groups, m, k, a) && IsSelection(groups, m, k, b)
    ensures a == b
  {
    var x, y := Heads(a), Heads(b);
    TopIsUnique(Bests(groups), IntLe, k, x, y, |x|);
    assert x == x[..|x|] && y == y[..|x|];
    forall i | 0 <= i < |a| ensures a[i] == b[i] {
      assert x[i] == y[i] && Head(a[i]) == Head(b[i]);
      EvidenceIsUnique(groups[a[i].g], m, a[i].evidence, b[i].evidence);
    }
  }

  /** The best score and the evidence of one group. */
  method Summarize(documents: map<Text, int>, m: nat) returns (best: int, evidence: seq<Text>)
    requires documents != map[]
    ensures best == Best(documents) && HasEvidence(documents, m, evidence)
  {
    TextLeIsOrder();
    var ranked := Rank(documents, TextLe);
    assert documents.Keys != {};
    best := ranked[0].score;
    FirstIsBest(documents, ranked);
    var top := if m < |ranked| then ranked[..m] else ranked;
    PrefixIsTop(documents, TextLe, ranked, m);
    evidence := seq(|top|, i requires 0 <= i < |top| => top[i].key);
    assert IsEvidence(documents, m, top, evidence);
  }

  lemma FirstIsBest(documents: map<Text, int>, ranked: seq<Ranked<Text>>)
    requires documents != map[] && IsRanking(documents, TextLe, ranked) && ranked != []
    ensures ranked[0].score == Best(documents)
  {
    var best := Best(documents);
    var id :| id in documents && documents[id] == best;
    var entry := Ranked(id, best);
    assert IsEntry(documents, entry) && entry in ranked;
    var j :| 0 <= j < |ranked| && ranked[j] == entry;
    assert j > 0 ==> RankOrder(TextLe)(ranked[0], ranked[j]);
    assert ranked[0] in ranked;
  }

  ghost predicate Summarized(
    groups: Groups, m: nat, done: set<int>, bests: map<int, int>, evidence: map<int, seq<Text>>)
    requires NoEmptyGroup(groups) && done <= groups.Keys
  {
    && bests.Keys == evidence.Keys == done
    && (forall g :: g in done ==> bests[g] == Best(groups[g]))
    && (forall g :: g in done ==> HasEvidence(groups[g], m, evidence[g]))
  }

  method Another<K(==)>(all: set<K>, done: set<K>) returns (k: K)
    requires !(all <= done)
    ensures k in all && k !in done
  {
    k :| k in all && k !in done;
  }

  /** The best score and the evidence of every group. */
  method SummarizeAll(groups: Groups, m: nat) returns (bests: map<int, int>, evidence: map<int, seq<Text>>)
    requires NoEmptyGroup(groups)
    ensures bests == Bests(groups) && Summarized(groups, m, groups.Keys, bests, evidence)
  {
    bests, evidence := map[], map[];
    var done := {};
    while done != groups.Keys
      invariant done <= groups.Keys && Summarized(groups, m, done, bests, evidence)
      decreases groups.Keys - done
    {
      var g := Another(groups.Keys, done);
      var best, ids := Summarize(groups[g], m);
      done, bests, evidence := done + {g}, bests[g := best], evidence[g := ids];
    }
    forall g | g in bests ensures bests[g] == Bests(groups)[g] {
    }
  }

  /** The answers of the chosen groups. */
  method Answers(top: seq<Ranked<int>>, evidence: map<int, seq<Text>>) returns (answers: seq<Answer>)
    requires forall i :: 0 <= i < |top| ==> top[i].key in evidence
    ensures |answers| == |top| && Heads(answers) == top
    ensures forall i :: 0 <= i < |top| ==> answers[i].evidence == evidence[top[i].key]
  {
    answers := seq(|top|, i requires 0 <= i < |top| => Answer(top[i].key, top[i].score, evidence[top[i].key]));
    assert Heads(answers) == top;
  }

  lemma AnswersAreSelection(
    groups: Groups, m: nat, k: nat, bests: map<int, int>, evidence: map<int, seq<Text>>,
    top: seq<Ranked<int>>, answers: seq<Answer>)
    requires NoEmptyGroup(groups) && bests == Bests(groups) && Summarized(groups, m, groups.Keys, bests, evidence)
    requires IsTop(bests, IntLe, k, top) && |answers| == |top| && Heads(answers) == top
    requires forall i :: 0 <= i < |top| ==> top[i].key in evidence && answers[i].evidence == evidence[top[i].key]
    ensures IsSelection(groups, m, k, answers)
  {
    forall i | 0 <= i < |answers|
      ensures answers[i].g in groups && HasEvidence(groups[answers[i].g], m, answers[i].evidence)
    {
      assert Heads(answers)[i] == top[i] && top[i].key == answers[i].g;
    }
  }

  /** `select_groups` */
  method SelectGroups(groups: Groups, m: nat, k: nat) returns (answers: seq<Answer>)
    requires NoEmptyGroup(groups)
    ensures IsSelection(groups, m, k, answers)
    ensures AreBestGroups(groups, k, answers)
    ensures forall i :: 0 <= i < |answers| ==> IsBestEvidence(groups[answers[i].g], m, answers[i].evidence)
  {
    var bests, evidence := SummarizeAll(groups, m);
    var ranked := Rank(bests, IntLe);
    PrefixIsTop(bests, IntLe, ranked, k);
    var top := if k < |ranked| then ranked[..k] else ranked;
    assert forall i :: 0 <= i < |top| ==> IsEntry(bests, top[i]) && top[i].key in evidence;
    answers := Answers(top, evidence);
    AnswersAreSelection(groups, m, k, bests, evidence, top, answers);
    SelectionIsBest(groups, m, k, answers);
  }

  // ----- the selection in plain terms -----

  /** The best `m` documents: falling scores, ties by rising identifier, and nothing better left out. */
  ghost predicate IsBestEvidence(documents: map<Text, int>, m: nat, ids: seq<Text>) {
    && |ids| == (if m < |documents| then m else |documents|)
    && (forall i :: 0 <= i < |ids| ==> ids[i] in documents)
    && (forall i, j :: 0 <= i < j < |ids| ==>
          || documents[ids[i]] > documents[ids[j]]
          || (documents[ids[i]] == documents[ids[j]] && Smaller(ids[i], ids[j])))
    && (forall i, id :: 0 <= i < |ids| && id in documents && id !in ids ==>
          || documents[ids[i]] > documents[id]
          || (documents[ids[i]] == documents[id] && Smaller(ids[i], id)))
  }

  /** The best `k` groups: falling best scores, ties by rising number, and no better group left out. */
  ghost predicate AreBestGroups(groups: Groups, k: nat, answers: seq<Answer>) {
    && |answers| == (if k < |groups| then k else |groups|)
    && (forall i :: 0 <= i < |answers| ==> answers[i].g in groups && IsBestOf(groups[answers[i].g], answers[i].best))
    && (forall i, j :: 0 <= i < j < |answers| ==>
          || answers[i].best > answers[j].best
          || (answers[i].best == answers[j].best && answers[i].g < answers[j].g))
    && (forall i, g, best :: 0 <= i < |answers| && IsLeftOut(groups, answers, g, best) ==>
          answers[i].best > best || (answers[i].best == best && answers[i].g < g))
  }

  ghost predicate IsLeftOut(groups: Groups, answers: seq<Answer>, g: int, best: int) {
    && g in groups && IsBestOf(groups[g], best)
    && forall i :: 0 <= i < |answers| ==> answers[i].g != g
  }

  lemma EvidenceIsBest(documents: map<Text, int>, m: nat, ids: seq<Text>)
    requires HasEvidence(documents, m, ids)
    ensures IsBestEvidence(documents, m, ids)
  {
    var top :| IsEvidence(documents, m, top, ids);
    assert forall i :: 0 <= i < |top| ==> IsEntry(documents, top[i]);
    forall i, j | 0 <= i < j < |ids|
      ensures documents[ids[i]] > documents[ids[j]]
              || (documents[ids[i]] == documents[ids[j]] && Smaller(ids[i], ids[j]))
    {
      assert RankOrder(TextLe)(top[i], top[j]) && top[i] != top[j];
      TextLeIff(ids[i], ids[j]);
    }
    forall i, id | 0 <= i < |ids| && id in documents && id !in ids
      ensures documents[ids[i]] > documents[id] || (documents[ids[i]] == documents[id] && Smaller(ids[i], id))
    {
      var r := Ranked(id, documents[id]);
      assert IsEntry(documents, r);
      if r in top {
        var q :| 0 <= q < |top| && top[q] == r;
        assert ids[q] == id;
      }
      assert Before(TextLe, top[i], r);
      TextLeIff(ids[i], id);
    }
  }

  lemma BestIsUnique(documents: map<Text, int>, best: int)
    requires documents != map[] && IsBestOf(documents, best)
    ensures best == Best(documents)
  {
  }

  lemma LeftOutIsWorse(groups: Groups, m: nat, k: nat, answers: seq<Answer>, i: nat, g: int, best: int)
    requires NoEmptyGroup(groups) && IsSelection(groups, m, k, answers)
    requires i < |answers| && IsLeftOut(groups, answers, g, best)
    ensures answers[i].best > best || (answers[i].best == best && answers[i].g < g)
  {
    var heads, r := Heads(answers), Ranked(g, best);
    BestIsUnique(groups[g], best);
    assert IsEntry(Bests(groups), r);
    assert forall q :: 0 <= q < |heads| ==> heads[q].key == answers[q].g;
    assert r !in heads;
    assert Before(IntLe, heads[i], r);
  }

  lemma HeadsAreBest(groups: Groups, m: nat, k: nat, answers: seq<Answer>)
    requires NoEmptyGroup(groups) && IsSelection(groups, m, k, answers)
    ensures AreBestGroups(groups, k, answers)
  {
    var heads, bests := Heads(answers), Bests(groups);
    assert |bests| == |bests.Keys| == |groups.Keys| == |groups| by {
      assert bests.Keys == groups.Keys;
    }
    forall i | 0 <= i < |answers| ensures answers[i].g in groups && IsBestOf(groups[answers[i].g], answers[i].best) {
      assert IsEntry(bests, heads[i]) && heads[i] == Head(answers[i]);
    }
    forall i, j | 0 <= i < j < |answers|
      ensures answers[i].best > answers[j].best || (answers[i].best == answers[j].best && answers[i].g < answers[j].g)
    {
      assert RankOrder(IntLe)(heads[i], heads[j]) && heads[i] != heads[j];
    }
    forall i, g, best | 0 <= i < |answers| && IsLeftOut(groups, answers, g, best)
      ensures answers[i].best > best || (answers[i].best == best && answers[i].g < g)
    {
      LeftOutIsWorse(groups, m, k, answers, i, g, best);
    }
  }

  /** The selection in plain terms: the best groups in order, each with its best documents in order. */
  lemma SelectionIsBest(groups: Groups, m: nat, k: nat, answers: seq<Answer>)
    requires NoEmptyGroup(groups) && IsSelection(groups, m, k, answers)
    ensures AreBestGroups(groups, k, answers)
    ensures forall i :: 0 <= i < |answers| ==> IsBestEvidence(groups[answers[i].g], m, answers[i].evidence)
  {
    HeadsAreBest(groups, m, k, answers);
    forall i | 0 <= i < |answers| ensures IsBestEvidence(groups[answers[i].g], m, answers[i].evidence) {
      EvidenceIsBest(groups[answers[i].g], m, answers[i].evidence);
    }
  }

  /** The reference answer is a function of the set of rows: neither their order nor repetitions matter. */
  lemma AnswerIgnoresArrival(
    rows: seq<Row>, groups: Groups, answers: seq<Answer>,
    rows': seq<Row>, groups': Groups, answers': seq<Answer>, m: nat, k: nat)
    requires SameRows(rows, rows')
    requires Collected(rows, groups) && IsSelection(groups, m, k, answers)
    requires Collected(rows', groups') && IsSelection(groups', m, k, answers')
    ensures answers == answers'
  {
    CollectedIsUnique(rows, groups, rows', groups');
    SelectionIsUnique(groups, m, k, answers, answers');
  }
}

/** The native fixture predicts how many documents match and how many of those are visible. */
module GroupedFixture {
  import opened Strides

  /** Multiples of `stride` below `n`. */
  ghost function Multiples(n: nat, stride: nat): nat
    requires stride > 0
  {
    if n == 0 then 0 else Multiples(n - 1, stride) + if (n - 1) % stride == 0 then 1 else 0
  }

  /** Documents below `n` that match and whose scope is visible. */
  ghost function Eligible(n: nat, matchStride: nat, eligibilityStride: nat): nat
    requires matchStride > 0 && eligibilityStride > 0
  {
    if n == 0 then 0
    else
      var i := n - 1;
      Eligible(i, matchStride, eligibilityStride) +
      if i % matchStride == 0 && i / matchStride % eligibilityStride == 0 then 1 else 0
  }

  /** The closed form of the fixture. */
  function Expected(n: nat, stride: nat): nat
    requires n > 0 && stride > 0
  {
    (n - 1) / stride + 1
  }

  lemma DivStep(n: nat, stride: nat)
    requires stride > 0 && n > 0
    ensures n / stride == (n - 1) / stride + if n % stride == 0 then 1 else 0
  {
    var q := (n - 1) / stride;
    DivBounds(n - 1, stride);
    MulStep(q, stride);
    DivUnique(n, stride, if n == q * stride + stride then q + 1 else q);
  }

  lemma {:induction false} MultiplesAreExpected(n: nat, stride: nat)
    requires stride > 0 && n > 0
    ensures Multiples(n, stride) == Expected(n, stride)
  {
    if n == 1 {
      assert Multiples(1, stride) == 1;
    } else {
      MultiplesAreExpected(n - 1, stride);
      DivStep(n - 1, stride);
    }
  }

  /** Visible documents are every `eligibilityStride`th of the matching ones. */
  lemma {:induction false} EligibleAreMultiples(n: nat, matchStride: nat, eligibilityStride: nat)
    requires matchStride > 0 && eligibilityStride > 0
    ensures Eligible(n, matchStride, eligibilityStride) == Multiples(Multiples(n, matchStride), eligibilityStride)
  {
    if n > 0 {
      EligibleAreMultiples(n - 1, matchStride, eligibilityStride);
      if (n - 1) % matchStride == 0 {
        MultiplesAreExpected(n, matchStride);
      }
    }
  }

  /** Both predictions of the fixture are exact. */
  lemma PredictionsAreExact(n: nat, matchStride: nat, eligibilityStride: nat)
    requires n > 0 && matchStride > 0 && eligibilityStride > 0
    ensures Multiples(n, matchStride) == Expected(n, matchStride)
    ensures Eligible(n, matchStride, eligibilityStride) == Expected(Expected(n, matchStride), eligibilityStride)
  {
    MultiplesAreExpected(n, matchStride);
    EligibleAreMultiples(n, matchStride, eligibilityStride);
    MultiplesAreExpected(Expected(n, matchStride), eligibilityStride);
  }
}
