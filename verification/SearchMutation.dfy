/**
  The search mutation benchmark: which documents are live, with which content,
  after every published delta. The count the benchmark asserts in each round
  rests on printed identifiers being distinct, on the replaced identifier being
  live and on the inserted one not being live.
 */
module SearchMutation {
  import opened Strides

  const SEED_SEGMENTS: nat := 32

  // ----- identifiers -----

  function Digit(d: nat): char
    requires d < 16
  {
    "0123456789abcdef"[d]
  }

  /** `n` in lower case hexadecimal, padded with zeros to at least `width` digits. */
  function Hex(n: nat, width: nat): (s: string)
    ensures |s| >= 1
    ensures s[|s| - 1] == Digit(n % 16)
  {
    if n < 16 && width <= 1 then [Digit(n)]
    else Hex(n / 16, if width == 0 then 0 else width - 1) + [Digit(n % 16)]
  }

  function DigitValue(c: char): int {
    if '0' <= c <= '9' then c as int - '0' as int
    else if 'a' <= c <= 'f' then c as int - 'a' as int + 10
    else -1
  }

  function HexValue(s: string): int {
    if s == "" then 0 else 16 * HexValue(s[..|s| - 1]) + DigitValue(s[|s| - 1])
  }

  lemma DigitIsRead(d: nat)
    requires d < 16
    ensures DigitValue(Digit(d)) == d && (Digit(d) == '0' <==> d == 0)
  {
  }

  /** The text is the number in base sixteen, has at least `width` digits, and no zero in front of more than that. */
  lemma {:induction false} HexIsReadBack(n: nat, width: nat)
    ensures HexValue(Hex(n, width)) == n
    ensures |Hex(n, width)| >= width
    ensures |Hex(n, width)| > width && |Hex(n, width)| > 1 ==> Hex(n, width)[0] != '0'
    decreases n, width
  {
    DigitIsRead(n % 16);
    var s := Hex(n, width);
    if n < 16 && width <= 1 {
      assert s[..0] == "";
    } else {
      var next := if width == 0 then 0 else width - 1;
      HexIsReadBack(n / 16, next);
      assert s[..|s| - 1] == Hex(n / 16, next);
      if n / 16 < 16 && next <= 1 {
        DigitIsRead(n / 16);
      }
    }
  }

  /** Padded hexadecimal printing loses nothing, whatever the width. */
  lemma HexIsInjective(a: nat, b: nat, width: nat)
    requires Hex(a, width) == Hex(b, width)
    ensures a == b
  {
    HexIsReadBack(a, width);
    HexIsReadBack(b, width);
  }

  function Memory(n: nat): string {
    "memory:" + Hex(n, 16)
  }

  ghost predicate Injective<Id(!new)>(name: nat -> Id) {
    forall a, b :: name(a) == name(b) ==> a == b
  }

  lemma MemoryIsInjective()
    ensures Injective(Memory)
  {
    forall a, b | Memory(a) == Memory(b) ensures a == b {
      assert Hex(a, 16) == Memory(a)[7..] && Hex(b, 16) == Memory(b)[7..];
      HexIsInjective(a, b, 16);
    }
  }

  // ----- sets of identifiers -----

  /** The identifiers of the numbers `2 * k + odd` for `lo <= k < hi`. */
  ghost function Names<Id>(name: nat -> Id, lo: nat, hi: nat, odd: nat): set<Id>
    decreases hi
  {
    if lo >= hi then {} else Names(name, lo, hi - 1, odd) + {name(2 * (hi - 1) + odd)}
  }

  lemma SameName<Id(!new)>(name: nat -> Id, k: nat, odd: nat, k': nat, odd': nat)
    requires Injective(name) && odd < 2 && odd' < 2
    ensures name(2 * k + odd) == name(2 * k' + odd') <==> k == k' && odd == odd'
  {
    if name(2 * k + odd) == name(2 * k' + odd') {
      assert 2 * k + odd == 2 * k' + odd';
    }
  }

  lemma {:induction false} NamesMember<Id(!new)>(name: nat -> Id, lo: nat, hi: nat, odd: nat, k: nat, odd': nat)
    requires Injective(name) && odd < 2 && odd' < 2
    ensures name(2 * k + odd') in Names(name, lo, hi, odd) <==> odd == odd' && lo <= k < hi
    decreases hi
  {
    if lo < hi {
      NamesMember(name, lo, hi - 1, odd, k, odd');
      SameName(name, k, odd', hi - 1, odd);
    }
  }

  lemma {:induction false} NamesSize<Id(!new)>(name: nat -> Id, lo: nat, hi: nat, odd: nat)
    requires Injective(name) && lo <= hi && odd < 2
    ensures |Names(name, lo, hi, odd)| == hi - lo
    decreases hi
  {
    if lo < hi {
      NamesSize(name, lo, hi - 1, odd);
      NamesMember(name, lo, hi - 1, odd, hi - 1, odd);
    }
  }

  lemma {:induction false} NamesDisjoint<Id(!new)>(
    name: nat -> Id, lo: nat, hi: nat, odd: nat, lo': nat, hi': nat, odd': nat)
    requires Injective(name) && odd < 2 && odd' < 2
    requires odd != odd' || hi <= lo' || hi' <= lo
    ensures Names(name, lo, hi, odd) !! Names(name, lo', hi', odd')
    decreases hi
  {
    if lo < hi {
      NamesDisjoint(name, lo, hi - 1, odd, lo', hi', odd');
      NamesMember(name, lo', hi', odd', hi - 1, odd);
    }
  }

  lemma {:induction false} NamesSplit<Id>(name: nat -> Id, lo: nat, mid: nat, hi: nat, odd: nat)
    requires lo <= mid <= hi
    ensures Names(name, lo, hi, odd) == Names(name, lo, mid, odd) + Names(name, mid, hi, odd)
    decreases hi
  {
    if mid < hi {
      NamesSplit(name, lo, mid, hi - 1, odd);
    }
  }

  // ----- the live set -----

  /** The identifiers that are live once the deletes, `seeds` seeds and `rounds` rounds are done. */
  ghost function Live<Id>(name: nat -> Id, documents: nat, touches: nat, seeds: nat, rounds: nat): set<Id>
    requires touches <= documents
    decreases rounds, seeds
  {
    if rounds > 0 then Live(name, documents, touches, seeds, rounds - 1) + {name(2 * (rounds - 1) + 1)}
    else if seeds > 0 then Live(name, documents, touches, seeds - 1, 0) + {name(2 * (documents + seeds - 1) + 0)}
    else Names(name, 0, documents - touches, 0)
  }

  lemma {:induction false} LiveMember<Id(!new)>(
    name: nat -> Id, documents: nat, touches: nat, seeds: nat, rounds: nat, k: nat, odd: nat)
    requires Injective(name) && touches <= documents && odd < 2
    ensures name(2 * k + odd) in Live(name, documents, touches, seeds, rounds) <==>
            if odd == 1 then k < rounds else k < documents - touches || documents <= k < documents + seeds
    decreases rounds, seeds
  {
    if rounds > 0 {
      LiveMember(name, documents, touches, seeds, rounds - 1, k, odd);
      SameName(name, k, odd, rounds - 1, 1);
    } else if seeds > 0 {
      LiveMember(name, documents, touches, seeds - 1, 0, k, odd);
      SameName(name, k, odd, documents + seeds - 1, 0);
    } else {
      NamesMember(name, 0, documents - touches, 0, k, odd);
    }
  }

  lemma RoundAddsOne<Id(!new)>(name: nat -> Id, documents: nat, touches: nat, seeds: nat, rounds: nat)
    requires Injective(name) && touches <= documents
    ensures |Live(name, documents, touches, seeds, rounds + 1)| == |Live(name, documents, touches, seeds, rounds)| + 1
  {
    LiveMember(name, documents, touches, seeds, rounds, rounds, 1);
  }

  lemma SeedAddsOne<Id(!new)>(name: nat -> Id, documents: nat, touches: nat, seeds: nat)
    requires Injective(name) && touches <= documents
    ensures |Live(name, documents, touches, seeds + 1, 0)| == |Live(name, documents, touches, seeds, 0)| + 1
  {
    LiveMember(name, documents, touches, seeds, 0, documents + seeds, 0);
  }

  /** What every assertion on the document count relies on. */
  lemma {:induction false} LiveSize<Id(!new)>(name: nat -> Id, documents: nat, touches: nat, seeds: nat, rounds: nat)
    requires Injective(name) && touches <= documents
    ensures |Live(name, documents, touches, seeds, rounds)| == documents + seeds - touches + rounds
    decreases rounds, seeds
  {
    if rounds > 0 {
      LiveSize(name, documents, touches, seeds, rounds - 1);
      RoundAddsOne(name, documents, touches, seeds, rounds - 1);
    } else if seeds > 0 {
      LiveSize(name, documents, touches, seeds - 1, 0);
      SeedAddsOne(name, documents, touches, seeds - 1);
    } else {
      NamesSize(name, 0, documents - touches, 0);
    }
  }

  /** Deleting the last `touches` base documents leaves the live set. */
  lemma {:induction false} DeletesLeaveLive<Id(!new)>(name: nat -> Id, documents: nat, touches: nat, seeds: nat)
    requires Injective(name) && touches <= documents
    ensures Names(name, 0, documents + seeds, 0) - Names(name, documents - touches, documents, 0) ==
            Live(name, documents, touches, seeds, 0)
  {
    if seeds > 0 {
      DeletesLeaveLive(name, documents, touches, seeds - 1);
      NamesMember(name, documents - touches, documents, 0, documents + seeds - 1, 0);
    } else {
      NamesSplit(name, 0, documents - touches, documents, 0);
      NamesDisjoint(name, 0, documents - touches, 0, documents - touches, documents, 0);
    }
  }

  // ----- the documents -----

  /** What is written into a document, told apart by ordinal and update mark. */
  datatype Row = Row(ordinal: nat, updated: bool)

  ghost predicate HasRow<Id>(store: map<Id, Row>, name: nat -> Id, k: nat, odd: nat, row: Row) {
    name(2 * k + odd) in store && store[name(2 * k + odd)] == row
  }

  /** A base document stays marked as updated exactly while it is touched and not replaced by a round. */
  function BaseRow(k: nat, touches: nat, rounds: nat): Row {
    Row(k, rounds <= k < touches)
  }

  ghost predicate BaseContent<Id>(store: map<Id, Row>, name: nat -> Id, count: int, touches: nat, rounds: nat) {
    forall k: nat :: k < count ==> HasRow(store, name, k, 0, BaseRow(k, touches, rounds))
  }

  ghost predicate Rows<Id>(store: map<Id, Row>, name: nat -> Id, lo: nat, hi: nat, odd: nat, updated: bool) {
    forall k: nat :: lo <= k < hi ==> HasRow(store, name, k, odd, Row(k, updated))
  }

  /** Every document holds what its last writer put there. */
  ghost predicate Content<Id>(
    store: map<Id, Row>, name: nat -> Id, documents: nat, touches: nat, seeds: nat, rounds: nat)
  {
    && BaseContent(store, name, documents - touches, touches, rounds)
    && Rows(store, name, documents, documents + seeds, 0, false)
    && Rows(store, name, 0, rounds, 1, false)
  }

  /** `after` agrees with `before` outside the ordinals from `lo` to `hi`. */
  ghost predicate Agree<Id(!new)>(before: map<Id, Row>, after: map<Id, Row>, name: nat -> Id, lo: nat, hi: nat) {
    forall id :: id in before && id !in Names(name, lo, hi, 0) ==> id in after && after[id] == before[id]
  }

  /** Publish the ordinals from `lo` to `hi`: base documents, seeds or the replacement delta. */
  method WriteOrdinals<Id(==,!new)>(before: map<Id, Row>, name: nat -> Id, lo: nat, hi: nat, updated: bool)
    returns (store: map<Id, Row>)
    requires Injective(name) && lo <= hi
    ensures store.Keys == before.Keys + Names(name, lo, hi, 0)
    ensures Rows(store, name, lo, hi, 0, updated)
    ensures Agree(before, store, name, lo, hi)
  {
    store := before;
    for i := lo to hi
      invariant store.Keys == before.Keys + Names(name, lo, i, 0)
      invariant Rows(store, name, lo, i, 0, updated)
      invariant Agree(before, store, name, lo, i)
    {
      ghost var was := store;
      store := store[name(2 * i + 0) := Row(i, updated)];
      forall k: nat | lo <= k < i + 1 ensures HasRow(store, name, k, 0, Row(k, updated)) {
        SameName(name, k, 0, i, 0);
        assert k < i ==> HasRow(was, name, k, 0, Row(k, updated));
      }
    }
  }

  /** A delta of deletes: every listed identifier goes, and those that were live are counted. */
  method DeleteOrdinals<Id(==,!new)>(before: map<Id, Row>, name: nat -> Id, lo: nat, hi: nat)
    returns (store: map<Id, Row>, deleted: nat)
    requires Injective(name) && lo <= hi
    ensures store == before - Names(name, lo, hi, 0)
    ensures Names(name, lo, hi, 0) <= before.Keys ==> deleted == hi - lo
  {
    store, deleted := before, 0;
    for i := lo to hi
      invariant store == before - Names(name, lo, i, 0)
      invariant Names(name, lo, hi, 0) <= before.Keys ==> deleted == i - lo
    {
      NamesMember(name, lo, i, 0, i, 0);
      NamesMember(name, lo, hi, 0, i, 0);
      if name(2 * i + 0) in store {
        deleted := deleted + 1;
      }
      store := store - {name(2 * i + 0)};
    }
  }

  lemma ContentAfterDeletes<Id(!new)>(
    seeded: map<Id, Row>, updated: map<Id, Row>, store: map<Id, Row>, name: nat -> Id,
    documents: nat, touches: nat, seeds: nat)
    requires Injective(name) && touches <= documents
    requires Rows(seeded, name, 0, documents + seeds, 0, false)
    requires Rows(updated, name, 0, touches, 0, true)
    requires Agree(seeded, updated, name, 0, touches)
    requires store == updated - Names(name, documents - touches, documents, 0)
    ensures Content(store, name, documents, touches, seeds, 0)
  {
    forall k: nat | k < documents - touches ensures HasRow(store, name, k, 0, BaseRow(k, touches, 0)) {
      NamesMember(name, documents - touches, documents, 0, k, 0);
      NamesMember(name, 0, touches, 0, k, 0);
      assert HasRow(seeded, name, k, 0, Row(k, false));
    }
    forall k: nat | documents <= k < documents + seeds ensures HasRow(store, name, k, 0, Row(k, false)) {
      NamesMember(name, documents - touches, documents, 0, k, 0);
      NamesMember(name, 0, touches, 0, k, 0);
      assert HasRow(seeded, name, k, 0, Row(k, false));
    }
  }

  lemma ContentAfterSeeds<Id(!new)>(
    base: map<Id, Row>, store: map<Id, Row>, name: nat -> Id, documents: nat, seeds: nat)
    requires Injective(name)
    requires Rows(base, name, 0, documents, 0, false) && Rows(store, name, documents, documents + seeds, 0, false)
    requires Agree(base, store, name, documents, documents + seeds)
    ensures Rows(store, name, 0, documents + seeds, 0, false)
  {
    forall k: nat | k < documents + seeds ensures HasRow(store, name, k, 0, Row(k, false)) {
      NamesMember(name, documents, documents + seeds, 0, k, 0);
      if k < documents {
        assert HasRow(base, name, k, 0, Row(k, false));
      }
    }
  }

  /** The initial generation. */
  method BuildBase<Id(==,!new)>(name: nat -> Id, documents: nat) returns (base: map<Id, Row>)
    requires Injective(name)
    ensures base.Keys == Names(name, 0, documents, 0)
    ensures Rows(base, name, 0, documents, 0, false)
  {
    base := WriteOrdinals(map[], name, 0, documents, false);
  }

  /** The seed deltas on top of it. */
  method BuildSeeds<Id(==,!new)>(base: map<Id, Row>, name: nat -> Id, documents: nat, seeds: nat)
    returns (store: map<Id, Row>)
    requires Injective(name) && base.Keys == Names(name, 0, documents, 0) && Rows(base, name, 0, documents, 0, false)
    ensures store.Keys == Names(name, 0, documents + seeds, 0)
    ensures Rows(store, name, 0, documents + seeds, 0, false)
  {
    store := WriteOrdinals(base, name, documents, documents + seeds, false);
    NamesSplit(name, 0, documents, documents + seeds, 0);
    ContentAfterSeeds(base, store, name, documents, seeds);
  }

  lemma NamesWithin<Id>(name: nat -> Id, lo: nat, hi: nat, from: nat, to: nat, odd: nat)
    requires lo <= from <= to <= hi
    ensures Names(name, from, to, odd) <= Names(name, lo, hi, odd)
    ensures Names(name, lo, hi, odd) + Names(name, from, to, odd) == Names(name, lo, hi, odd)
  {
    NamesSplit(name, lo, from, hi, odd);
    NamesSplit(name, from, to, hi, odd);
  }

  /** The replacement delta rewrites documents that exist. */
  method Update<Id(==,!new)>(seeded: map<Id, Row>, name: nat -> Id, count: nat, touches: nat)
    returns (updated: map<Id, Row>)
    requires Injective(name) && touches <= count
    requires seeded.Keys == Names(name, 0, count, 0)
    ensures updated.Keys == Names(name, 0, count, 0) && |updated| == count
    ensures Rows(updated, name, 0, touches, 0, true)
    ensures Agree(seeded, updated, name, 0, touches)
  {
    updated := WriteOrdinals(seeded, name, 0, touches, true);
    NamesWithin(name, 0, count, 0, touches, 0);
    NamesSize(name, 0, count, 0);
  }

  /** The base build, the seeds, the replacement delta and the delete delta. */
  method Prepare<Id(==,!new)>(name: nat -> Id, documents: nat, touches: nat, seeds: nat)
    returns (store: map<Id, Row>, replaced: nat, deleted: nat)
    requires Injective(name) && 0 < touches <= documents
    ensures store.Keys == Live(name, documents, touches, seeds, 0)
    ensures Content(store, name, documents, touches, seeds, 0)
    ensures replaced == documents + seeds && deleted == touches
  {
    var base := BuildBase(name, documents);
    var seeded := BuildSeeds(base, name, documents, seeds);
    var updated := Update(seeded, name, documents + seeds, touches);
    replaced := |updated|;
    store, deleted := DeleteOrdinals(updated, name, documents - touches, documents);
    NamesWithin(name, 0, documents + seeds, documents - touches, documents, 0);
    DeletesLeaveLive(name, documents, touches, seeds);
    ContentAfterDeletes(seeded, updated, store, name, documents, touches, seeds);
  }

  /** The base document or seed that a round replaces. */
  function Replacement(documents: nat, touches: nat, round: nat): nat
    requires touches <= documents
  {
    if documents > touches then round % (documents - touches) else documents + round % SEED_SEGMENTS
  }

  /** The rounds go in order through the base documents that are left, or through the 32 seeds, again and again. */
  lemma ReplacementCycles(documents: nat, touches: nat, round: nat)
    requires touches <= documents
    ensures var period := if documents > touches then documents - touches else 32;
            var first := if documents > touches then 0 else documents;
            && (round < period ==> Replacement(documents, touches, round) == first + round)
            && Replacement(documents, touches, round + period) == Replacement(documents, touches, round)
  {
    RemainderCycles(round, if documents > touches then documents - touches else 32);
  }

  lemma RemainderCycles(x: nat, n: nat)
    requires n > 0
    ensures (x + n) % n == x % n
    ensures x < n ==> x % n == x
  {
    DivBounds(x, n);
    MulStep(x / n, n);
    DivUnique(x + n, n, x / n + 1);
    DivUnique(x, n, x / n);
    if x < n {
      DivUnique(x, n, 0);
    }
  }

  /** A round replaces a live document and inserts one that is not live. */
  lemma RoundIsFresh<Id(!new)>(name: nat -> Id, documents: nat, touches: nat, round: nat)
    requires Injective(name) && touches <= documents
    ensures name(2 * Replacement(documents, touches, round) + 0) in Live(name, documents, touches, SEED_SEGMENTS, round)
    ensures name(2 * round + 1) !in Live(name, documents, touches, SEED_SEGMENTS, round)
  {
    LiveMember(name, documents, touches, SEED_SEGMENTS, round, Replacement(documents, touches, round), 0);
    LiveMember(name, documents, touches, SEED_SEGMENTS, round, round, 1);
  }

  ghost predicate IsRound<Id(!new)>(before: map<Id, Row>, store: map<Id, Row>, name: nat -> Id, at: nat, round: nat) {
    store == before[name(2 * at + 0) := Row(at, false)][name(2 * round + 1) := Row(round, false)]
  }

  lemma RoundRow<Id(!new)>(
    before: map<Id, Row>, store: map<Id, Row>, name: nat -> Id, at: nat, round: nat, k: nat, odd: nat, row: Row)
    requires Injective(name) && odd < 2 && IsRound(before, store, name, at, round)
    ensures HasRow(store, name, k, odd, row) <==>
            if (odd == 0 && k == at) || (odd == 1 && k == round) then row == Row(k, false)
            else HasRow(before, name, k, odd, row)
  {
    SameName(name, at, 0, k, odd);
    SameName(name, round, 1, k, odd);
  }

  lemma ContentAfterRound<Id(!new)>(
    before: map<Id, Row>, store: map<Id, Row>, name: nat -> Id,
    documents: nat, touches: nat, seeds: nat, round: nat, at: nat)
    requires Injective(name) && touches <= documents
    requires Content(before, name, documents, touches, seeds, round)
    requires at == Replacement(documents, touches, round)
    requires IsRound(before, store, name, at, round)
    ensures Content(store, name, documents, touches, seeds, round + 1)
  {
    var next := round + 1;
    forall k: nat | k < documents - touches ensures HasRow(store, name, k, 0, BaseRow(k, touches, next)) {
      RoundRow(before, store, name, at, round, k, 0, BaseRow(k, touches, next));
      assert HasRow(before, name, k, 0, BaseRow(k, touches, round));
      ReplacementIsFirst(documents - touches, round, k);
    }
    forall k: nat | documents <= k < documents + seeds ensures HasRow(store, name, k, 0, Row(k, false)) {
      RoundRow(before, store, name, at, round, k, 0, Row(k, false));
    }
    forall k: nat | k < round + 1 ensures HasRow(store, name, k, 1, Row(k, false)) {
      RoundRow(before, store, name, at, round, k, 1, Row(k, false));
    }
  }

  lemma ReplacementIsFirst(base: nat, round: nat, k: nat)
    requires k < base
    ensures round % base <= round
    ensures k == round ==> round % base == k
  {
  }

  /** One round: the delta with its two upserts. */
  method Round<Id(==,!new)>(before: map<Id, Row>, name: nat -> Id, documents: nat, touches: nat, round: nat)
    returns (store: map<Id, Row>)
    requires Injective(name) && touches <= documents
    requires before.Keys == Live(name, documents, touches, SEED_SEGMENTS, round)
    requires Content(before, name, documents, touches, SEED_SEGMENTS, round)
    ensures store.Keys == Live(name, documents, touches, SEED_SEGMENTS, round + 1)
    ensures Content(store, name, documents, touches, SEED_SEGMENTS, round + 1)
    ensures IsRound(before, store, name, Replacement(documents, touches, round), round)
  {
    var at := Replacement(documents, touches, round);
    RoundIsFresh(name, documents, touches, round);
    store := before[name(2 * at + 0) := Row(at, false)];
    store := store[name(2 * round + 1) := Row(round, false)];
    ContentAfterRound(before, store, name, documents, touches, SEED_SEGMENTS, round, at);
  }

  /** A round, for the loop that only needs what it reaches. */
  method NextRound<Id(==,!new)>(before: map<Id, Row>, name: nat -> Id, documents: nat, touches: nat, round: nat)
    returns (store: map<Id, Row>)
    requires Injective(name) && touches <= documents
    requires before.Keys == Live(name, documents, touches, SEED_SEGMENTS, round)
    requires Content(before, name, documents, touches, SEED_SEGMENTS, round)
    ensures store.Keys == Live(name, documents, touches, SEED_SEGMENTS, round + 1)
    ensures Content(store, name, documents, touches, SEED_SEGMENTS, round + 1)
  {
    store := Round(before, name, documents, touches, round);
  }

  /**
    The whole benchmark. Every round grows the corpus by exactly one document, and
    what is left at the end is known identifier by identifier.
   */
  method Run<Id(==,!new)>(name: nat -> Id, documents: nat, touches: nat, rounds: nat)
    returns (store: map<Id, Row>, replaced: nat, deleted: nat, counts: seq<nat>)
    requires Injective(name) && 0 < touches <= documents
    ensures var seeds := if rounds > 0 then SEED_SEGMENTS else 0;
            && store.Keys == Live(name, documents, touches, seeds, rounds)
            && Content(store, name, documents, touches, seeds, rounds)
            && replaced == documents + seeds && deleted == touches
            && |counts| == rounds
            && forall r :: 0 <= r < rounds ==> counts[r] == documents + seeds - touches + r + 1
  {
    var seeds := if rounds > 0 then SEED_SEGMENTS else 0;
    store, replaced, deleted := Prepare(name, documents, touches, seeds);
    counts := [];
    for round := 0 to rounds
      invariant store.Keys == Live(name, documents, touches, seeds, round)
      invariant Content(store, name, documents, touches, seeds, round)
      invariant |counts| == round
      invariant forall r :: 0 <= r < round ==> counts[r] == documents + seeds - touches + r + 1
    {
      store := NextRound(store, name, documents, touches, round);
      LiveSize(name, documents, touches, seeds, round + 1);
      counts := counts + [|store|];
    }
  }

  /** The benchmark with its own identifiers. */
  method Benchmark(documents: nat, touches: nat, rounds: nat) returns (store: map<string, Row>, counts: seq<nat>)
    requires 0 < touches <= documents
    ensures |counts| == rounds
    ensures forall r :: 0 <= r < rounds ==> counts[r] == documents + SEED_SEGMENTS - touches + r + 1
    ensures |store| == documents - touches + (if rounds > 0 then SEED_SEGMENTS + rounds else 0)
  {
    MemoryIsInjective();
    var replaced, deleted;
    store, replaced, deleted, counts := Run(Memory, documents, touches, rounds);
    LiveSize(Memory, documents, touches, if rounds > 0 then SEED_SEGMENTS else 0, rounds);
  }
}
