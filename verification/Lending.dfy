/**
  The row page lending benchmark: an owned scan copies every projected row, a
  borrowed scan copies only the body of a row that is selected. Both stop at
  OUTPUT_LIMIT selected rows; the benchmark asserts that they agree and that the
  limit is reached.
 */
module Lending {

  const OUTPUT_LIMIT: nat := 32
  const U64_MAX: nat := 0xFFFF_FFFF_FFFF_FFFF
  const FNV_OFFSET: bv64 := 0xcbf2_9ce4_8422_2325

  type Bytes = seq<bv8>

  /** A projected row: the primary key, which is projected once more as field 0, the owner and the body. */
  datatype Row = Row(id: Bytes, owner: int, body: Bytes)

  datatype Outcome<C> = Outcome(scanned: nat, selected: nat, checksum: C, copied: nat)

  function SaturatingAdd(a: nat, b: nat): nat {
    if a + b > U64_MAX then U64_MAX else a + b
  }

  function Saturate(n: nat): nat {
    if n > U64_MAX then U64_MAX else n
  }

  // ----- checksum -----

  /** One byte of the FNV-1a hash. */
  function Fnv(checksum: bv64, byte: bv8): bv64 {
    (checksum ^ byte as bv64) * 0x0000_0100_0000_01b3
  }

  /** The fold of any byte hash. */
  function Hash<C>(mix: (C, bv8) -> C, checksum: C, bytes: Bytes): C
    decreases |bytes|
  {
    if bytes == [] then checksum else Hash(mix, mix(checksum, bytes[0]), bytes[1..])
  }

  lemma {:induction false} HashConcat<C>(mix: (C, bv8) -> C, checksum: C, a: Bytes, b: Bytes)
    ensures Hash(mix, checksum, a + b) == Hash(mix, Hash(mix, checksum, a), b)
    decreases |a|
  {
    if a == [] {
      assert a + b == b;
    } else {
      assert (a + b)[1..] == a[1..] + b;
      HashConcat(mix, mix(checksum, a[0]), a[1..], b);
    }
  }

  /** FNV-1a of "a" and of "foobar", as published with the hash. */
  lemma FnvKnownAnswers()
    ensures Hash(Fnv, FNV_OFFSET, []) == 0xcbf2_9ce4_8422_2325
    ensures Hash(Fnv, FNV_OFFSET, [97]) == 0xaf63_dc4c_8601_ec8c
    ensures Hash(Fnv, FNV_OFFSET, [102, 111, 111, 98, 97, 114]) == 0x8594_4171_f739_67e8
  {
    HashOfOne(Fnv, FNV_OFFSET, 97);
    HashConcat(Fnv, FNV_OFFSET, [102, 111, 111], [98, 97, 114]);
    HashConcat(Fnv, FNV_OFFSET, [102], [111, 111]);
    HashOfOne(Fnv, FNV_OFFSET, 102);
    HashConcat(Fnv, 0xaf63_db4c_8601_ead9, [111], [111]);
    HashOfOne(Fnv, 0xaf63_db4c_8601_ead9, 111);
    HashOfOne(Fnv, 0x0898_5907_b541_d342, 111);
    HashConcat(Fnv, 0xdcb2_7518_fed9_d577, [98], [97, 114]);
    HashOfOne(Fnv, 0xdcb2_7518_fed9_d577, 98);
    HashConcat(Fnv, 0xdd12_0e79_0c25_12af, [97], [114]);
    HashOfOne(Fnv, 0xdd12_0e79_0c25_12af, 97);
    HashOfOne(Fnv, 0xcac1_65af_a2fe_f40a, 114);
    assert [102, 111, 111, 98, 97, 114] == [102, 111, 111] + [98, 97, 114];
    assert [102, 111, 111] == [102] + [111, 111] && [111, 111] == [111] + [111];
    assert [98, 97, 114] == [98] + [97, 114] && [97, 114] == [97] + [114];
  }

  lemma HashOfOne<C>(mix: (C, bv8) -> C, checksum: C, byte: bv8)
    ensures Hash(mix, checksum, [byte]) == mix(checksum, byte)
  {
  }

  method HashBytes<C>(mix: (C, bv8) -> C, start: C, bytes: Bytes) returns (checksum: C)
    ensures checksum == Hash(mix, start, bytes)
  {
    checksum := start;
    for i := 0 to |bytes|
      invariant Hash(mix, checksum, bytes[i..]) == Hash(mix, start, bytes)
    {
      checksum := mix(checksum, bytes[i]);
    }
  }

  // ----- what a scan means -----

  /** The selected rows among the first `n`. */
  ghost function Matches(rows: seq<Row>, threshold: int, n: nat): nat
    requires n <= |rows|
  {
    if n == 0 then 0
    else Matches(rows, threshold, n - 1) + if rows[n - 1].owner >= threshold then 1 else 0
  }

  /** Their bodies, one after the other. */
  ghost function Selected(rows: seq<Row>, threshold: int, n: nat): Bytes
    requires n <= |rows|
  {
    if n == 0 then []
    else Selected(rows, threshold, n - 1) + if rows[n - 1].owner >= threshold then rows[n - 1].body else []
  }

  /** The bytes in the first `n` rows: text by length, the owner as eight bytes. */
  ghost function RowBytes(rows: seq<Row>, n: nat): nat
    requires n <= |rows|
  {
    if n == 0 then 0
    else RowBytes(rows, n - 1) + |rows[n - 1].id| + |rows[n - 1].id| + 8 + |rows[n - 1].body|
  }

  /** A scan ends behind the row that reaches the limit, or behind the last row. */
  ghost predicate EndsAt(rows: seq<Row>, threshold: int, n: nat) {
    && n <= |rows|
    && (forall m :: 0 <= m < n ==> Matches(rows, threshold, m) < OUTPUT_LIMIT)
    && (n < |rows| ==> Matches(rows, threshold, n) == OUTPUT_LIMIT)
  }

  lemma {:induction false} MatchesGrow(rows: seq<Row>, threshold: int, m: nat, n: nat)
    requires m <= n <= |rows|
    ensures Matches(rows, threshold, m) <= Matches(rows, threshold, n) <= Matches(rows, threshold, m) + n - m
    decreases n
  {
    if m < n {
      MatchesGrow(rows, threshold, m, n - 1);
    }
  }

  lemma EndIsUnique(rows: seq<Row>, threshold: int, m: nat, n: nat)
    requires EndsAt(rows, threshold, m) && EndsAt(rows, threshold, n)
    ensures m == n
  {
  }

  /** Only the bodies of selected rows are copied by the borrowed scan, which is never more than all rows. */
  lemma {:induction false} BorrowedCopiesLess(rows: seq<Row>, threshold: int, n: nat)
    requires n <= |rows|
    ensures |Selected(rows, threshold, n)| + 8 * n <= RowBytes(rows, n)
  {
    if n > 0 {
      BorrowedCopiesLess(rows, threshold, n - 1);
    }
  }

  // ----- the two scans -----

  /** The bytes of one row, added up with saturation: the key, the key once more as a field, owner and body. */
  function CopiedBytes(id: nat, body: nat): nat {
    SaturatingAdd(SaturatingAdd(SaturatingAdd(SaturatingAdd(0, id), id), 8), body)
  }

  /** Saturating at every step is saturating once. */
  lemma CopyStep(copied: nat, id: nat, body: nat)
    ensures SaturatingAdd(Saturate(copied), CopiedBytes(id, body)) == Saturate(copied + id + id + 8 + body)
  {
  }

  method OwnedScan<C>(mix: (C, bv8) -> C, offset: C, rows: seq<Row>, threshold: int) returns (r: Outcome<C>)
    ensures EndsAt(rows, threshold, r.scanned)
    ensures r.selected == Matches(rows, threshold, r.scanned)
    ensures r.checksum == Hash(mix, offset, Selected(rows, threshold, r.scanned))
    ensures r.copied == Saturate(RowBytes(rows, r.scanned))
  {
    var selected, checksum, copied, n := 0, offset, 0, 0;
    while n < |rows| && selected < OUTPUT_LIMIT
      invariant n <= |rows|
      invariant forall m :: 0 <= m < n ==> Matches(rows, threshold, m) < OUTPUT_LIMIT
      invariant selected == Matches(rows, threshold, n) <= OUTPUT_LIMIT
      invariant checksum == Hash(mix, offset, Selected(rows, threshold, n))
      invariant copied == Saturate(RowBytes(rows, n))
    {
      var row := rows[n];
      CopyStep(RowBytes(rows, n), |row.id|, |row.body|);
      copied := SaturatingAdd(copied, CopiedBytes(|row.id|, |row.body|));
      HashConcat(mix, offset, Selected(rows, threshold, n), row.body);
      if row.owner >= threshold {
        selected := selected + 1;
        checksum := HashBytes(mix, checksum, row.body);
      } else {
        assert Selected(rows, threshold, n + 1) == Selected(rows, threshold, n);
      }
      n := n + 1;
    }
    r := Outcome(n, selected, checksum, copied);
  }

  method BorrowedScan<C>(mix: (C, bv8) -> C, offset: C, rows: seq<Row>, threshold: int) returns (r: Outcome<C>)
    ensures EndsAt(rows, threshold, r.scanned)
    ensures r.selected == Matches(rows, threshold, r.scanned)
    ensures r.checksum == Hash(mix, offset, Selected(rows, threshold, r.scanned))
    ensures r.copied == Saturate(|Selected(rows, threshold, r.scanned)|)
  {
    var selected, checksum, copied, n := 0, offset, 0, 0;
    while n < |rows| && selected < OUTPUT_LIMIT
      invariant n <= |rows|
      invariant forall m :: 0 <= m < n ==> Matches(rows, threshold, m) < OUTPUT_LIMIT
      invariant selected == Matches(rows, threshold, n) <= OUTPUT_LIMIT
      invariant checksum == Hash(mix, offset, Selected(rows, threshold, n))
      invariant copied == Saturate(|Selected(rows, threshold, n)|)
    {
      HashConcat(mix, offset, Selected(rows, threshold, n), rows[n].body);
      if rows[n].owner >= threshold {
        selected := selected + 1;
        var body := rows[n].body;
        copied := SaturatingAdd(copied, |body|);
        checksum := HashBytes(mix, checksum, body);
      } else {
        assert Selected(rows, threshold, n + 1) == Selected(rows, threshold, n);
      }
      n := n + 1;
    }
    r := Outcome(n, selected, checksum, copied);
  }

  /**
    The borrowed scan refines the owned one. The assertion that both agree never
    fails; the assertion that the limit is reached holds exactly when the table has
    enough selected rows.
   */
  method MeasureScan(rows: seq<Row>, threshold: int)
    returns (owned: Outcome<bv64>, borrowed: Outcome<bv64>, full: bool)
    ensures EndsAt(rows, threshold, owned.scanned) && owned.scanned == borrowed.scanned
    ensures owned.selected == borrowed.selected == Matches(rows, threshold, owned.scanned)
    ensures owned.checksum == borrowed.checksum == Hash(Fnv, FNV_OFFSET, Selected(rows, threshold, owned.scanned))
    ensures borrowed.copied <= owned.copied
    ensures full <==> Matches(rows, threshold, |rows|) >= OUTPUT_LIMIT
  {
    owned := OwnedScan(Fnv, FNV_OFFSET, rows, threshold);
    borrowed := BorrowedScan(Fnv, FNV_OFFSET, rows, threshold);
    EndIsUnique(rows, threshold, owned.scanned, borrowed.scanned);
    BorrowedCopiesLess(rows, threshold, owned.scanned);
    MatchesGrow(rows, threshold, owned.scanned, |rows|);
    if owned.scanned > 0 {
      MatchesGrow(rows, threshold, owned.scanned - 1, owned.scanned);
    }
    full := owned.selected == OUTPUT_LIMIT;
  }

  // ----- the fixture -----

  /** Row `i` belongs to bucket `i % 100`. */
  ghost predicate Fixture(rows: seq<Row>) {
    forall i :: 0 <= i < |rows| ==> rows[i].owner == i % 100
  }

  /** `100usize.saturating_sub(selectivity)` */
  function Threshold(selectivity: nat): nat {
    if selectivity > 100 then 0 else 100 - selectivity
  }

  /** Of the owners 0 to 99 the last `selectivity` ones pass. */
  lemma ThresholdSelects(selectivity: nat, owner: nat)
    requires owner < 100
    ensures owner >= Threshold(selectivity) <==> 100 - owner <= selectivity
  {
  }

  lemma {:induction false} FixtureMatches(rows: seq<Row>, threshold: nat, n: nat)
    requires Fixture(rows) && threshold <= 100 && n <= |rows|
    ensures Matches(rows, threshold, n) ==
            n / 100 * (100 - threshold) + if n % 100 > threshold then n % 100 - threshold else 0
  {
    if n > 0 {
      FixtureMatches(rows, threshold, n - 1);
      assert rows[n - 1].owner == (n - 1) % 100;
      if n % 100 == 0 {
        assert (n - 1) / 100 == n / 100 - 1 && (n - 1) % 100 == 99;
        assert n / 100 * (100 - threshold) == (n / 100 - 1) * (100 - threshold) + (100 - threshold);
      } else {
        assert (n - 1) / 100 == n / 100 && (n - 1) % 100 == n % 100 - 1;
      }
    }
  }

  /** The 1-based position of the 32nd selected row. */
  function LimitRow(threshold: nat): nat
    requires threshold < 100
  {
    var share := 100 - threshold;
    100 * ((OUTPUT_LIMIT - 1) / share) + threshold + (OUTPUT_LIMIT - 1) % share + 1
  }

  /**
    On the benchmark's table a scan is full exactly when the table reaches the
    limit row, and then it ends there.
   */
  lemma FixtureScan(rows: seq<Row>, selectivity: nat, n: nat)
    requires Fixture(rows) && selectivity > 0
    requires EndsAt(rows, Threshold(selectivity), n)
    ensures Matches(rows, Threshold(selectivity), n) == OUTPUT_LIMIT <==> |rows| >= LimitRow(Threshold(selectivity))
    ensures |rows| >= LimitRow(Threshold(selectivity)) ==> n == LimitRow(Threshold(selectivity))
  {
    var t := Threshold(selectivity);
    var last := LimitRow(t);
    if |rows| >= last {
      LimitIsReached(rows, t);
    } else {
      MatchesGrow(rows, t, n, |rows|);
      FixtureMatches(rows, t, |rows|);
      BelowLimitRow(t, |rows|);
    }
  }

  lemma BelowLimitRow(t: nat, n: nat)
    requires t < 100 && n < LimitRow(t)
    ensures n / 100 * (100 - t) + (if n % 100 > t then n % 100 - t else 0) < OUTPUT_LIMIT
  {
    BelowPosition(100 - t, (OUTPUT_LIMIT - 1) / (100 - t), (OUTPUT_LIMIT - 1) % (100 - t), n / 100, n % 100);
  }

  lemma BelowPosition(share: nat, q: nat, r: nat, block: nat, slot: nat)
    requires 0 < share <= 100 && r < share && slot < 100
    requires 100 * block + slot < 100 * q + 100 - share + r + 1
    ensures block * share + (if slot > 100 - share then slot - (100 - share) else 0) < q * share + r + 1
  {
    if block < q {
      assert block * share + share == (block + 1) * share <= q * share by {
        MulGrows(block + 1, q, share);
      }
    }
  }

  lemma MulGrows(a: nat, b: nat, c: nat)
    requires a <= b
    ensures a * c <= b * c
  {
  }

  lemma LimitIsReached(rows: seq<Row>, t: nat)
    requires Fixture(rows) && t < 100 && |rows| >= LimitRow(t)
    ensures EndsAt(rows, t, LimitRow(t)) && Matches(rows, t, LimitRow(t)) == OUTPUT_LIMIT
  {
    var last := LimitRow(t);
    FixtureMatches(rows, t, last - 1);
    BelowLimitRow(t, last - 1);
    LimitRowMatches(t);
    forall m | 0 <= m < last ensures Matches(rows, t, m) < OUTPUT_LIMIT {
      MatchesGrow(rows, t, m, last - 1);
    }
    assert rows[last - 1].owner == (last - 1) % 100;
  }

  /** The row at the limit is selected, and it is the 32nd such row. */
  lemma LimitRowMatches(t: nat)
    requires t < 100
    ensures var k := LimitRow(t) - 1;
            k % 100 >= t && k / 100 * (100 - t) + (if k % 100 > t then k % 100 - t else 0) == OUTPUT_LIMIT - 1
  {
    var q, r := (OUTPUT_LIMIT - 1) / (100 - t), (OUTPUT_LIMIT - 1) % (100 - t);
    assert (LimitRow(t) - 1) / 100 == q && (LimitRow(t) - 1) % 100 == t + r;
  }

  /** Both table sizes are large enough at every measured selectivity. */
  lemma BenchmarkIsFull(rows: seq<Row>, selectivity: nat, n: nat)
    requires Fixture(rows) && |rows| in {4_096, 32_768} && selectivity in {1, 10, 50, 100}
    requires EndsAt(rows, Threshold(selectivity), n)
    ensures Matches(rows, Threshold(selectivity), n) == OUTPUT_LIMIT
    ensures n ==
            if selectivity == 1 then 3_200 else if selectivity == 10 then 392 else if selectivity == 50 then 82 else 32
  {
    FixtureScan(rows, selectivity, n);
  }
}
