/**
  The rank fixture of the width cost benchmark: a Fisher-Yates shuffle driven by
  a 64 bit xorshift generator, the table of expected identities filled by index,
  and the ordered and limited result that the table predicts.
 */
module Shuffle {
  import opened Options
  import opened Sorting

  ghost predicate IsPermutation(s: seq<nat>) {
    && (forall i :: 0 <= i < |s| ==> s[i] < |s|)
    && Distinct(s)
  }

  function LeftRound(x: bv64): bv64 {
    x ^ (x << 13)
  }

  function RightRound(x: bv64): bv64 {
    x ^ (x >> 7)
  }

  function LastRound(x: bv64): bv64 {
    x ^ (x << 17)
  }

  /** One step of the generator. */
  function XorShift(seed: bv64): bv64 {
    LastRound(RightRound(LeftRound(seed)))
  }

  function UndoLeftRound(x: bv64): bv64 {
    x ^ (x << 13) ^ (x << 26) ^ (x << 39) ^ (x << 52)
  }

  function UndoRightRound(x: bv64): bv64 {
    x ^ (x >> 7) ^ (x >> 14) ^ (x >> 21) ^ (x >> 28) ^ (x >> 35) ^ (x >> 42) ^ (x >> 49) ^ (x >> 56) ^ (x >> 63)
  }

  function UndoLastRound(x: bv64): bv64 {
    x ^ (x << 17) ^ (x << 34) ^ (x << 51)
  }

  function XorUnshift(seed: bv64): bv64 {
    UndoLeftRound(UndoRightRound(UndoLastRound(seed)))
  }

  lemma RoundsAreUndone(x: bv64)
    ensures UndoLeftRound(x ^ (x << 13)) == x
    ensures UndoRightRound(x ^ (x >> 7)) == x
    ensures UndoLastRound(x ^ (x << 17)) == x
  {
  }

  lemma LeftRoundIsUndone(x: bv64)
    ensures UndoLeftRound(LeftRound(x)) == x
  {
    RoundsAreUndone(x);
  }

  lemma RightRoundIsUndone(x: bv64)
    ensures UndoRightRound(RightRound(x)) == x
  {
    RoundsAreUndone(x);
  }

  lemma LastRoundIsUndone(x: bv64)
    ensures UndoLastRound(LastRound(x)) == x
  {
    RoundsAreUndone(x);
  }

  /** A step can be taken back: each round is undone by the series of its shifts. */
  lemma XorShiftIsUndone(seed: bv64)
    ensures XorUnshift(XorShift(seed)) == seed
  {
    LeftRoundIsUndone(seed);
    RightRoundIsUndone(LeftRound(seed));
    LastRoundIsUndone(RightRound(LeftRound(seed)));
  }

  /** No two states have the same successor, so that every seed runs through a cycle. */
  lemma XorShiftIsInjective(a: bv64, b: bv64)
    ensures XorShift(a) == XorShift(b) <==> a == b
  {
    XorShiftIsUndone(a);
    XorShiftIsUndone(b);
  }

  lemma XorShiftKnownAnswer()
    ensures XorShift(1) == 0x4082_2041
    ensures XorShift(XorShift(1)) == 0x1000_4106_0c01_1441
  {
  }

  /** The generator never falls into its fixed point at zero. */
  lemma XorShiftStaysNonZero(seed: bv64)
    ensures XorShift(seed) == 0 <==> seed == 0
  {
    XorShiftIsInjective(seed, 0);
  }

  /** A generator: its next state, and the number read off a state. */
  datatype Generator<!S> = Generator(next: S -> S, value: S -> nat)

  const XORSHIFT: Generator<bv64> := Generator(XorShift, (seed: bv64) => seed as nat)

  /** The state after `n` steps. */
  ghost function Steps<S>(g: Generator<S>, seed: S, n: nat): S {
    if n == 0 then seed else g.next(Steps(g, seed, n - 1))
  }

  function Swap(s: seq<nat>, i: nat, j: nat): seq<nat>
    requires i < |s| && j < |s|
  {
    s[i := s[j]][j := s[i]]
  }

  /** The choice made for each position, from the last to the second; `choices[k] <= k`. */
  ghost predicate AreChoices(choices: seq<nat>, n: nat) {
    |choices| == n && forall k :: 0 <= k < n ==> choices[k] <= k
  }

  /** The shuffle of the first `i` positions as a function of the choices. */
  ghost function Shuffled(s: seq<nat>, i: nat, choices: seq<nat>): (r: seq<nat>)
    requires i <= |s| && AreChoices(choices, |s|)
    ensures |r| == |s| && forall k :: i <= k < |s| ==> r[k] == s[k]
    decreases i
  {
    if i <= 1 then s else Shuffled(Swap(s, i - 1, choices[i - 1]), i - 1, choices)
  }

  /** The choices that a generator makes from `seed` on. */
  ghost function Drawn<S>(n: nat, g: Generator<S>, seed: S): (choices: seq<nat>)
    ensures AreChoices(choices, n)
  {
    if n == 0 then []
    else if n == 1 then [0]
    else Drawn(n - 1, g, g.next(seed)) + [g.value(g.next(seed)) % n]
  }

  lemma {:induction false} StepsStayNonZero(seed: bv64, n: nat)
    ensures Steps(XORSHIFT, seed, n) == 0 <==> seed == 0
  {
    if n > 0 {
      StepsStayNonZero(seed, n - 1);
      XorShiftStaysNonZero(Steps(XORSHIFT, seed, n - 1));
    }
  }

  lemma {:induction false} StepsFromNext<S>(g: Generator<S>, seed: S, n: nat)
    ensures Steps(g, g.next(seed), n) == Steps(g, seed, n + 1)
  {
    if n > 0 {
      StepsFromNext(g, seed, n - 1);
    }
  }

  /** The choice for position `k` of `n` is the remainder by `k + 1` of the state after `n - k` steps. */
  lemma {:induction false} DrawnAt<S>(n: nat, g: Generator<S>, seed: S, k: nat)
    requires 1 <= k < n
    ensures Drawn(n, g, seed)[k] == g.value(Steps(g, seed, n - k)) % (k + 1)
    decreases n
  {
    if k < n - 1 {
      DrawnAt(n - 1, g, g.next(seed), k);
      StepsFromNext(g, seed, n - 1 - k);
    } else {
      assert Steps(g, seed, 1) == g.next(Steps(g, seed, 0));
    }
  }

  lemma SwapKeepsPermutation(s: seq<nat>, i: nat, j: nat)
    requires IsPermutation(s) && i < |s| && j < |s|
    ensures IsPermutation(Swap(s, i, j))
  {
  }

  lemma {:induction false} ShuffledIsPermutation(s: seq<nat>, i: nat, choices: seq<nat>)
    requires IsPermutation(s) && i <= |s| && AreChoices(choices, |s|)
    ensures IsPermutation(Shuffled(s, i, choices))
    decreases i
  {
    if i > 1 {
      SwapKeepsPermutation(s, i - 1, choices[i - 1]);
      ShuffledIsPermutation(Swap(s, i - 1, choices[i - 1]), i - 1, choices);
    }
  }

  /** Different choices never give the same order. */
  lemma {:induction false} ShuffledIsInjective(s: seq<nat>, i: nat, c: seq<nat>, d: seq<nat>, k: nat)
    requires IsPermutation(s) && 1 <= k < i <= |s| && AreChoices(c, |s|) && AreChoices(d, |s|)
    requires Shuffled(s, i, c) == Shuffled(s, i, d)
    ensures c[k] == d[k]
    decreases i
  {
    var a, b := Swap(s, i - 1, c[i - 1]), Swap(s, i - 1, d[i - 1]);
    assert Shuffled(a, i - 1, c)[i - 1] == a[i - 1] == s[c[i - 1]];
    assert Shuffled(b, i - 1, d)[i - 1] == b[i - 1] == s[d[i - 1]];
    assert c[i - 1] == d[i - 1];
    if k < i - 1 {
      SwapKeepsPermutation(s, i - 1, c[i - 1]);
      ShuffledIsInjective(a, i - 1, c, d, k);
    }
  }

  /** One round of the shuffle; `i` is the position it settles. */
  method Settle<S>(ranks: array<nat>, g: Generator<S>, ghost start: S, before: S, i: nat) returns (seed: S)
    requires 1 <= i < ranks.Length && before == Steps(g, start, ranks.Length - i - 1)
    modifies ranks
    ensures seed == Steps(g, start, ranks.Length - i)
    ensures ranks[..] == Swap(old(ranks[..]), i, Drawn(ranks.Length, g, start)[i])
  {
    seed := g.next(before);
    var j := g.value(seed) % (i + 1);
    DrawnAt(ranks.Length, g, start, i);
    ranks[i], ranks[j] := ranks[j], ranks[i];
  }

  /** The in-place shuffle, for any generator. */
  method ShuffleWith<S>(ranks: array<nat>, g: Generator<S>, start: S) returns (seed: S)
    modifies ranks
    ensures ranks[..] == Shuffled(old(ranks[..]), ranks.Length, Drawn(ranks.Length, g, start))
    ensures seed == Steps(g, start, if ranks.Length == 0 then 0 else ranks.Length - 1)
  {
    seed := start;
    ghost var choices := Drawn(ranks.Length, g, start);
    var i := ranks.Length;
    while i > 1
      invariant 0 <= i <= ranks.Length && (ranks.Length > 0 ==> i > 0)
      invariant Shuffled(ranks[..], i, choices) == Shuffled(old(ranks[..]), ranks.Length, choices)
      invariant seed == Steps(g, start, ranks.Length - i)
    {
      i := i - 1;
      seed := Settle(ranks, g, start, seed, i);
    }
  }

  /** `random` and `native`, for any state of the generator. */
  method ShuffleRanks(ranks: array<nat>, start: bv64) returns (seed: bv64)
    requires IsPermutation(ranks[..])
    modifies ranks
    ensures ranks[..] == Shuffled(old(ranks[..]), ranks.Length, Drawn(ranks.Length, XORSHIFT, start))
    ensures IsPermutation(ranks[..])
    ensures seed == 0 <==> start == 0
  {
    ShuffledIsPermutation(ranks[..], ranks.Length, Drawn(ranks.Length, XORSHIFT, start));
    seed := ShuffleWith(ranks, XORSHIFT, start);
    StepsStayNonZero(start, if ranks.Length == 0 then 0 else ranks.Length - 1);
  }

  /** `ascending`, and `descending` by reversal. */
  function Ascending(rows: nat): (s: seq<nat>)
    ensures IsPermutation(s) && |s| == rows
    ensures forall i :: 0 <= i < rows ==> s[i] == i
  {
    seq(rows, i => i)
  }

  function Descending(rows: nat): (s: seq<nat>)
    ensures IsPermutation(s) && |s| == rows
    ensures forall i :: 0 <= i < rows ==> s[i] == rows - 1 - i
  {
    seq(rows, i requires 0 <= i < rows => rows - 1 - i)
  }

  /** `table[r]` is the row of rank `r`: the table inverts the ranks in both directions. */
  ghost predicate Inverts(table: seq<Option<nat>>, ranks: seq<nat>) {
    && |table| == |ranks|
    && (forall id :: 0 <= id < |ranks| ==> ranks[id] < |table| && table[ranks[id]] == Some(id))
    && (forall r :: 0 <= r < |table| ==> table[r].Some? && table[r].value < |ranks| && ranks[table[r].value] == r)
  }

  /** The slots filled after the first `n` rows, each by exactly one of them. */
  ghost predicate Filled(table: seq<Option<nat>>, ranks: seq<nat>, n: nat) {
    && |table| == |ranks| && n <= |ranks|
    && (forall id :: 0 <= id < n ==> ranks[id] < |table| && table[ranks[id]] == Some(id))
    && (forall r :: 0 <= r < |table| && table[r].Some? ==> table[r].value < n && ranks[table[r].value] == r)
  }

  ghost function Range(n: nat): (r: set<nat>)
    ensures |r| == n && forall x: nat :: x in r <==> x < n
  {
    if n == 0 then {} else Range(n - 1) + {n - 1}
  }

  ghost function Image(s: seq<nat>): (r: set<nat>)
    ensures forall x :: x in r <==> x in s
    ensures Distinct(s) ==> |r| == |s|
  {
    if s == [] then {}
    else
      var n := |s| - 1;
      assert s == s[..n] + [s[n]];
      assert Distinct(s) ==> s[n] !in s[..n];
      Image(s[..n]) + {s[n]}
  }

  lemma {:induction false} SubsetSize<T>(a: set<T>, b: set<T>)
    requires a <= b
    ensures |a| <= |b|
  {
    if a != {} {
      var x :| x in a;
      SubsetSize(a - {x}, b - {x});
    }
  }

  /** Distinct values below their number take every value. */
  lemma PermutationIsOnto(s: seq<nat>, v: nat)
    requires IsPermutation(s) && v < |s|
    ensures v in s
  {
    if v !in s {
      SubsetSize(Image(s), Range(|s|) - {v});
    }
  }

  lemma {:induction false} ShuffledReadsFirstChoices(s: seq<nat>, i: nat, c: seq<nat>, d: seq<nat>)
    requires i <= |s| && AreChoices(c, |s|) && AreChoices(d, |s|)
    requires forall k :: 0 <= k < i ==> c[k] == d[k]
    ensures Shuffled(s, i, c) == Shuffled(s, i, d)
    decreases i
  {
    if i > 1 {
      ShuffledReadsFirstChoices(Swap(s, i - 1, c[i - 1]), i - 1, c, d);
    }
  }

  /** Where a permutation still has to agree with its target. */
  lemma PlaceOf(s: seq<nat>, t: seq<nat>, i: nat) returns (j: nat)
    requires IsPermutation(s) && IsPermutation(t) && |t| == |s| && 1 <= i <= |s|
    requires forall k :: i <= k < |s| ==> s[k] == t[k]
    ensures j < i && s[j] == t[i - 1]
  {
    PermutationIsOnto(s, t[i - 1]);
    j :| 0 <= j < |s| && s[j] == t[i - 1];
    assert forall k :: i <= k < |s| ==> t[k] != t[i - 1];
  }

  lemma {:induction false} ShuffledReaches(s: seq<nat>, t: seq<nat>, i: nat) returns (choices: seq<nat>)
    requires IsPermutation(s) && IsPermutation(t) && |t| == |s| && i <= |s|
    requires forall k :: i <= k < |s| ==> s[k] == t[k]
    ensures AreChoices(choices, |s|) && Shuffled(s, i, choices) == t
    decreases i
  {
    if i <= 1 {
      choices := seq(|s|, _ => 0);
      if i == 1 {
        var j := PlaceOf(s, t, 1);
      }
      assert s == t;
    } else {
      var j := PlaceOf(s, t, i);
      var next := Swap(s, i - 1, j);
      SwapKeepsPermutation(s, i - 1, j);
      var rest := ShuffledReaches(next, t, i - 1);
      choices := rest[i - 1 := j];
      ShuffledReadsFirstChoices(next, i - 1, choices, rest);
    }
  }

  /** Every order is the shuffle of every other one, for some choices. */
  lemma ShuffledIsOnto(s: seq<nat>, t: seq<nat>)
    requires IsPermutation(s) && IsPermutation(t) && |t| == |s|
    ensures exists choices :: AreChoices(choices, |s|) && Shuffled(s, |s|, choices) == t
  {
    var choices := ShuffledReaches(s, t, |s|);
  }

  lemma FullTableInverts(table: seq<Option<nat>>, ranks: seq<nat>)
    requires IsPermutation(ranks) && Filled(table, ranks, |ranks|)
    ensures Inverts(table, ranks)
  {
    forall r | 0 <= r < |table| ensures table[r].Some? {
      PermutationIsOnto(ranks, r);
      var id :| 0 <= id < |ranks| && ranks[id] == r;
      assert table[ranks[id]] == Some(id);
    }
  }

  /** The fill in batches of 256 rows. No slot is ever written twice. */
  method FillExpected(ranks: array<nat>) returns (table: array<Option<nat>>)
    requires IsPermutation(ranks[..])
    ensures fresh(table) && Inverts(table[..], ranks[..])
  {
    var rows := ranks.Length;
    table := new Option<nat>[rows](_ => None);
    var start := 0;
    while start < rows
      invariant 0 <= start <= rows && fresh(table) && table.Length == rows
      invariant Filled(table[..], ranks[..], start)
    {
      var end := if start + 256 < rows then start + 256 else rows;
      for id := start to end
        invariant Filled(table[..], ranks[..], id)
      {
        assert ranks[..][id] == ranks[id] < rows;
        ghost var before := table[..];
        FillStep(before, ranks[..], id);
        assert table[ranks[id]].None?;
        table[ranks[id]] := Some(id);
        assert table[..] == before[ranks[id] := Some(id)];
      }
      start := end;
    }
    FullTableInverts(table[..], ranks[..]);
  }

  lemma FillStep(table: seq<Option<nat>>, ranks: seq<nat>, id: nat)
    requires IsPermutation(ranks) && Filled(table, ranks, id) && id < |ranks|
    ensures table[ranks[id]].None?
    ensures Filled(table[ranks[id] := Some(id)], ranks, id + 1)
  {
  }

  // ----- the query result -----

  datatype Row = Row(rank: nat, id: nat)

  function Rows(ranks: seq<nat>): (rows: seq<Row>)
    ensures |rows| == |ranks|
    ensures forall id :: 0 <= id < |rows| ==> rows[id] == Row(ranks[id], id)
  {
    seq(|ranks|, id requires 0 <= id < |ranks| => Row(ranks[id], id))
  }

  /** ORDER BY rank, id. */
  predicate RankThenId(a: Row, b: Row) {
    a.rank < b.rank || (a.rank == b.rank && a.id <= b.id)
  }

  lemma {:induction false} AscendingNaturalsGrow(s: seq<nat>, k: nat)
    requires k < |s| && forall i, j :: 0 <= i < j < |s| ==> s[i] < s[j]
    ensures s[k] >= k
  {
    if k > 0 {
      AscendingNaturalsGrow(s, k - 1);
    }
  }

  lemma {:induction false} AscendingNaturalsFit(s: seq<nat>, n: nat, k: nat)
    requires k < |s| && forall i, j :: 0 <= i < j < |s| ==> s[i] < s[j] < n
    requires |s| > 0 && s[|s| - 1] < n
    ensures s[k] <= n - (|s| - k)
    decreases |s| - k
  {
    if k < |s| - 1 {
      AscendingNaturalsFit(s, n, k + 1);
    }
  }

  lemma SortedRowsHaveRankEqualPosition(ranks: seq<nat>, out: seq<Row>, k: nat)
    requires IsPermutation(ranks) && Sorted(out, RankThenId) && multiset(out) == multiset(Rows(ranks))
    requires k < |out|
    ensures |out| == |ranks| && out[k].rank == k
  {
    var rows := Rows(ranks);
    assert |out| == |multiset(out)| == |multiset(rows)| == |ranks|;
    DistinctIgnoresOrder(rows, out);
    var sorted: seq<nat> := seq(|out|, i requires 0 <= i < |out| => out[i].rank);
    forall i | 0 <= i < |out| ensures out[i].rank < |ranks| && out[i].id < |ranks| && ranks[out[i].id] == out[i].rank {
      SameMembers(out, rows, out[i]);
    }
    forall i, j | 0 <= i < j < |sorted| ensures sorted[i] < sorted[j] {
      assert out[i] != out[j] && RankThenId(out[i], out[j]);
    }
    AscendingNaturalsGrow(sorted, k);
    AscendingNaturalsFit(sorted, |ranks|, k);
  }

  /**
    For every permutation and every limit, the rows ordered by rank and cut to
    the limit are exactly the first entries of the table, at ranks 0, 1, 2, ...
   */
  lemma TableIsTopLimit(ranks: seq<nat>, table: seq<Option<nat>>, limit: nat)
    requires IsPermutation(ranks) && Inverts(table, ranks) && limit <= |ranks|
    ensures var out := Sort(Rows(ranks), RankThenId);
            && |out| == |ranks|
            && forall r :: 0 <= r < limit ==> table[r].Some? && out[..limit][r] == Row(r, table[r].value)
  {
    var out := Sort(Rows(ranks), RankThenId);
    SortIsSorted(Rows(ranks), RankThenId);
    forall r | 0 <= r < limit ensures table[r].Some? && out[..limit][r] == Row(r, table[r].value) {
      SortedRowsHaveRankEqualPosition(ranks, out, r);
      SameMembers(out, Rows(ranks), out[r]);
      assert ranks[out[r].id] == r;
    }
  }

  // ----- the whole setup -----

  datatype Order = InOrder | Reversed | Random | Native | OtherOrder

  /** The ranks each order starts the fill with. */
  ghost function RanksOf(order: Order, rows: nat, seed: bv64): seq<nat> {
    match order
    case Reversed => Descending(rows)
    case Random => Shuffled(Ascending(rows), rows, Drawn(rows, XORSHIFT, seed))
    case Native => Shuffled(Ascending(rows), rows, Drawn(rows, XORSHIFT, seed))
    case _ => Ascending(rows)
  }

  method MakeRanks(order: Order, rows: nat, seed: bv64) returns (ranks: array<nat>)
    ensures fresh(ranks) && IsPermutation(ranks[..]) && ranks[..] == RanksOf(order, rows, seed)
  {
    ranks := new nat[rows](i => i);
    assert ranks[..] == Ascending(rows);
    if order.Reversed? {
      forall i | 0 <= i < rows {
        ranks[i] := rows - 1 - i;
      }
      assert ranks[..] == Descending(rows);
    } else if order.Random? || order.Native? {
      var last := ShuffleRanks(ranks, seed);
    }
  }

  /** `ids` are the identities of the rows ordered by rank and identity and cut to their number. */
  ghost predicate AreTopRows(ranks: seq<nat>, ids: seq<nat>) {
    var out := Sort(Rows(ranks), RankThenId);
    |ids| <= |out| == |ranks| && forall r :: 0 <= r < |ids| ==> out[r] == Row(r, ids[r])
  }

  lemma TableGivesTopRows(ranks: seq<nat>, table: seq<Option<nat>>, ids: seq<nat>)
    requires IsPermutation(ranks) && Inverts(table, ranks) && |ids| <= |ranks|
    requires forall k :: 0 <= k < |ids| ==> table[k] == Some(ids[k])
    ensures AreTopRows(ranks, ids)
  {
    TableIsTopLimit(ranks, table, |ids|);
  }

  method FirstIds(ranks: array<nat>, limit: nat) returns (ids: seq<nat>)
    requires IsPermutation(ranks[..]) && limit <= ranks.Length
    ensures |ids| == limit && AreTopRows(ranks[..], ids)
  {
    var table := FillExpected(ranks);
    ids := [];
    for r := 0 to limit
      invariant |ids| == r
      invariant forall k :: 0 <= k < r ==> table[k] == Some(ids[k])
    {
      assert table[..][r].Some?;
      ids := ids + [table[r].value];
    }
    TableGivesTopRows(ranks[..], table[..], ids);
  }

  /**
    From the arguments to the oracle, for every order, number of rows, seed and
    limit. An unknown order is refused.
   */
  method Oracle(order: Order, rows: nat, seed: bv64, limit: nat) returns (expected: Option<seq<nat>>)
    requires limit <= rows
    ensures expected.None? <==> order.OtherOrder?
    ensures expected.Some? ==> |expected.value| == limit && AreTopRows(RanksOf(order, rows, seed), expected.value)
  {
    if order.OtherOrder? {
      return None;
    }
    var ranks := MakeRanks(order, rows, seed);
    assert ranks.Length == |ranks[..]| == rows;
    var ids := FirstIds(ranks, limit);
    expected := Some(ids);
  }
}
