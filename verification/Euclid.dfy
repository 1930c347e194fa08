/**
  The permuted fixture of the property proofs benchmark: `gcd` and the map from
  an ordinal to `ordinal * 7919 % rows`, which the benchmark uses as a bijection
  to know the distinct values it must get back. The multiplier is a parameter.
 */
module Euclid {
  import opened Options

  ghost function Times(k: int, d: int): int {
    k * d
  }

  ghost predicate Divides(d: int, x: int) {
    exists k: int :: x == Times(k, d)
  }

  /** `g` is a common divisor that every common divisor divides. */
  ghost predicate IsGcd(g: nat, a: nat, b: nat) {
    && Divides(g, a) && Divides(g, b)
    && forall d: nat :: Divides(d, a) && Divides(d, b) ==> Divides(d, g)
  }

  ghost function Combination(x: int, a: int, y: int, b: int): int {
    x * a + y * b
  }

  lemma DividesCombination(d: int, a: int, b: int, x: int, y: int)
    requires Divides(d, a) && Divides(d, b)
    ensures Divides(d, Combination(x, a, y, b))
  {
    var i: int :| a == Times(i, d);
    var j: int :| b == Times(j, d);
    calc {
      Combination(x, a, y, b);
      x * (i * d) + y * (j * d);
      (x * i) * d + (y * j) * d;
      Times(x * i + y * j, d);
    }
  }

  lemma DividesTrivially(d: int)
    ensures Divides(d, d) && Divides(d, 0)
  {
    assert d == Times(1, d) && 0 == Times(0, d);
  }

  lemma CombinationStep(a: int, b: int, q: int, x: int, y: int, u: int, v: int, a0: int, b0: int)
    requires a == Combination(x, a0, y, b0) && b == Combination(u, a0, v, b0)
    ensures a - q * b == Combination(x - q * u, a0, y - q * v, b0)
  {
    calc {
      a - q * b;
      x * a0 + y * b0 - q * (u * a0 + v * b0);
      x * a0 + y * b0 - q * u * a0 - q * v * b0;
      (x - q * u) * a0 + (y - q * v) * b0;
    }
  }

  /** The remainder is again a combination of the original arguments. */
  lemma RemainderStep(a: nat, b: nat, x: int, y: int, u: int, v: int, a0: nat, b0: nat) returns (x': int, y': int)
    requires b > 0 && a == Combination(x, a0, y, b0) && b == Combination(u, a0, v, b0)
    ensures a % b == Combination(x', a0, y', b0)
  {
    var q := a / b;
    CombinationStep(a, b, q, x, y, u, v, a0, b0);
    x', y' := x - q * u, y - q * v;
  }

  lemma DivisorsCarryOver(a: nat, b: nat)
    requires b > 0
    ensures forall d: nat :: Divides(d, b) && Divides(d, a % b) ==> Divides(d, a)
  {
    forall d: nat | Divides(d, b) && Divides(d, a % b) ensures Divides(d, a) {
      DividesCombination(d, b, a % b, a / b, 1);
      assert Combination(a / b, b, 1, a % b) == a;
    }
  }

  lemma CombinationIsGcd(a: nat, a0: nat, b0: nat, x: int, y: int)
    requires a == Combination(x, a0, y, b0)
    requires forall d: nat :: Divides(d, a) && Divides(d, 0) ==> Divides(d, a0) && Divides(d, b0)
    ensures IsGcd(a, a0, b0)
  {
    DividesTrivially(a);
    forall d: nat | Divides(d, a0) && Divides(d, b0) ensures Divides(d, a) {
      DividesCombination(d, a0, b0, x, y);
    }
  }

  /** Euclid's loop returns the greatest common divisor, an integer combination of its arguments. */
  method Gcd(a0: nat, b0: nat) returns (a: nat)
    ensures IsGcd(a, a0, b0)
    ensures exists x: int, y: int :: a == Combination(x, a0, y, b0)
  {
    var b: nat := b0;
    a := a0;
    ghost var x: int, y: int, u: int, v: int := 1, 0, 0, 1;
    while b != 0
      invariant a == Combination(x, a0, y, b0) && b == Combination(u, a0, v, b0)
      invariant forall d: nat :: Divides(d, a) && Divides(d, b) ==> Divides(d, a0) && Divides(d, b0)
    {
      ghost var x', y' := RemainderStep(a, b, x, y, u, v, a0, b0);
      DivisorsCarryOver(a, b);
      x, y, u, v := u, v, x', y';
      a, b := b, a % b;
    }
    CombinationIsGcd(a, a0, b0, x, y);
  }

  lemma RemainderKeepsGcd(g: nat, a: nat, b: nat)
    requires b > 0 && IsGcd(g, b, a % b)
    ensures IsGcd(g, a, b)
  {
    DivisorsCarryOver(a, b);
    forall d: nat | Divides(d, a) && Divides(d, b) ensures Divides(d, g) {
      DividesCombination(d, a, b, 1, 0 - a / b);
      assert Combination(1, a, 0 - a / b, b) == a % b;
    }
  }

  lemma CombinationOfRemainder(a: nat, b: nat, x: int, y: int)
    requires b > 0
    ensures Combination(x, b, y, a % b) == Combination(y, a, x - y * (a / b), b)
  {
    var q, r := a / b, a % b;
    assert a == q * b + r;
    calc {
      Combination(y, a, x - y * q, b);
      y * (q * b + r) + (x - y * q) * b;
      y * (q * b) + y * r + x * b - (y * q) * b;
      { assert y * (q * b) == (y * q) * b; }
      x * b + y * r;
    }
  }

  /** Every pair of numbers has a greatest common divisor that is a combination of them. */
  lemma {:induction false} BezoutIdentity(a: nat, b: nat) returns (g: nat, x: int, y: int)
    ensures IsGcd(g, a, b) && g == Combination(x, a, y, b)
    decreases b
  {
    if b == 0 {
      g, x, y := a, 1, 0;
      CombinationIsGcd(a, a, 0, 1, 0);
    } else {
      var u, v;
      g, u, v := BezoutIdentity(b, a % b);
      RemainderKeepsGcd(g, a, b);
      CombinationOfRemainder(a, b, u, v);
      x, y := v, u - v * (a / b);
    }
  }

  lemma DivisorIsSmaller(d: nat, x: nat)
    requires Divides(d, x) && x > 0
    ensures d <= x
  {
    var k: int :| x == Times(k, d);
    if d > 0 {
      MultipleSize(k, d);
    }
  }

  lemma GcdIsUnique(g: nat, h: nat, a: nat, b: nat)
    requires IsGcd(g, a, b) && IsGcd(h, a, b)
    ensures g == h
  {
    assert Divides(g, h) && Divides(h, g);
    if g > 0 {
      DivisorIsSmaller(h, g);
    }
    if h > 0 {
      DivisorIsSmaller(g, h);
    }
  }

  // ----- the permutation -----

  function Permuted(ordinal: nat, multiplier: nat, rows: nat): nat
    requires rows > 0
  {
    (ordinal * multiplier) % rows
  }

  lemma RemainderIsMultiple(x: int, rows: nat)
    requires rows > 0
    ensures Divides(rows, x - x % rows)
    ensures 0 <= x % rows < rows
  {
    assert x - x % rows == Times(x / rows, rows);
  }

  /** The value of an ordinal is the one number below `rows` that is congruent to its multiple. */
  lemma PermutedIsResidue(ordinal: nat, multiplier: nat, rows: nat, value: nat)
    requires rows > 0
    ensures value == Permuted(ordinal, multiplier, rows) <==>
            value < rows && Divides(rows, ordinal * multiplier - value)
  {
    var x, p := ordinal * multiplier, Permuted(ordinal, multiplier, rows);
    RemainderIsMultiple(x, rows);
    if value < rows && Divides(rows, x - value) {
      DividesCombination(rows, x - p, x - value, 1, -1);
      assert Combination(1, x - p, -1, x - value) == value - p;
      SmallMultipleIsZero(value - p, rows);
    }
  }

  lemma MultipleSize(k: int, n: int)
    requires n > 0
    ensures k >= 1 ==> k * n >= n
    ensures k <= -1 ==> k * n <= 0 - n
  {
  }

  lemma SmallMultipleIsZero(x: int, rows: nat)
    requires rows > 0 && Divides(rows, x) && 0 - rows < x < rows
    ensures x == 0
  {
    var k: int :| x == Times(k, rows);
    MultipleSize(k, rows);
  }

  /** With a combination equal to one, a multiple of `m * z` by `rows` forces a multiple of `z`. */
  lemma CancelMultiplier(z: int, m: nat, rows: nat, x: int, y: int)
    requires Combination(x, m, y, rows) == 1 && Divides(rows, m * z)
    ensures Divides(rows, z)
  {
    DividesTrivially(rows);
    DividesCombination(rows, m * z, rows, x, y * z);
    calc {
      Combination(x, m * z, y * z, rows);
      x * (m * z) + (y * z) * rows;
      (x * m + y * rows) * z;
      z;
    }
  }

  ghost predicate Bezout(m: nat, rows: nat) {
    exists x: int, y: int :: Combination(x, m, y, rows) == 1
  }

  lemma PermutedIsInjective(m: nat, rows: nat, i: nat, j: nat)
    requires rows > 0 && Bezout(m, rows) && i < rows && j < rows
    requires Permuted(i, m, rows) == Permuted(j, m, rows)
    ensures i == j
  {
    RemainderIsMultiple(i * m, rows);
    RemainderIsMultiple(j * m, rows);
    DividesCombination(rows, i * m - Permuted(i, m, rows), j * m - Permuted(j, m, rows), 1, -1);
    assert m * (i - j) == i * m - j * m;
    var x: int, y: int :| Combination(x, m, y, rows) == 1;
    CancelMultiplier(i - j, m, rows, x, y);
    SmallMultipleIsZero(i - j, rows);
  }

  lemma InverseIdentity(m: int, rows: int, x: int, y: int, v: int, i: int, p: int)
    requires Combination(x, m, y, rows) == 1
    ensures m * (v * x - i) + (y * v) * rows + (i * m - p) == v - p
  {
    assert m * (v * x - i) == m * (v * x) - m * i;
    assert m * (v * x) == (x * m) * v;
    assert (y * v) * rows == (y * rows) * v;
    assert (x * m) * v + (y * rows) * v == (x * m + y * rows) * v;
  }

  /** The preimage of `v` is `v * x`, for the coefficient `x` of the multiplier. */
  lemma PermutedIsSurjective(m: nat, rows: nat, v: nat) returns (i: nat)
    requires rows > 0 && Bezout(m, rows) && v < rows
    ensures i < rows && Permuted(i, m, rows) == v
  {
    var x: int, y: int :| Combination(x, m, y, rows) == 1;
    RemainderIsMultiple(v * x, rows);
    i := (v * x) % rows;
    PreimageWorks(m, rows, v, i, x, y);
  }

  lemma PreimageWorks(m: nat, rows: nat, v: nat, i: nat, x: int, y: int)
    requires rows > 0 && Combination(x, m, y, rows) == 1 && v < rows && Divides(rows, v * x - i)
    ensures Permuted(i, m, rows) == v
  {
    var p := Permuted(i, m, rows);
    RemainderIsMultiple(i * m, rows);
    DividesTrivially(rows);
    DividesCombination(rows, v * x - i, rows, m, y * v);
    DividesCombination(rows, Combination(m, v * x - i, y * v, rows), i * m - p, 1, 1);
    InverseIdentity(m, rows, x, y, v, i, p);
    assert Combination(1, Combination(m, v * x - i, y * v, rows), 1, i * m - p) == v - p;
    SmallMultipleIsZero(v - p, rows);
  }

  /** The map is one-to-one and onto on `0..rows`. */
  ghost predicate IsBijection(m: nat, rows: nat)
    requires rows > 0
  {
    && (forall i: nat, j: nat :: i < rows && j < rows && Permuted(i, m, rows) == Permuted(j, m, rows) ==> i == j)
    && (forall v: nat :: v < rows ==> IsReached(v, m, rows))
  }

  ghost predicate IsReached(v: nat, m: nat, rows: nat)
    requires rows > 0
  {
    exists i: nat :: i < rows && Permuted(i, m, rows) == v
  }

  /** The benchmark's assertion is exactly right: the fixture is a permutation if and only if the gcd is one. */
  lemma BijectionIffCoprime(m: nat, rows: nat, g: nat)
    requires rows > 0 && IsGcd(g, m, rows)
    ensures IsBijection(m, rows) <==> g == 1
  {
    if g == 1 {
      var h, x, y := BezoutIdentity(m, rows);
      GcdIsUnique(g, h, m, rows);
      assert Bezout(m, rows);
      forall i: nat, j: nat | i < rows && j < rows && Permuted(i, m, rows) == Permuted(j, m, rows) ensures i == j {
        PermutedIsInjective(m, rows, i, j);
      }
      forall v: nat | v < rows ensures IsReached(v, m, rows) {
        var i := PermutedIsSurjective(m, rows, v);
      }
    } else {
      var k: int :| rows == Times(k, g);
      var l: int :| m == Times(l, g);
      CommonFactorCollides(m, rows, g, k, l);
    }
  }

  lemma CommonFactorCollides(m: nat, rows: nat, g: nat, k: int, l: int)
    requires rows > 0 && g != 1 && rows == k * g && m == l * g
    ensures 0 < k < rows && Permuted(k, m, rows) == Permuted(0, m, rows)
  {
    assert g > 1;
    FactorIsSmaller(k, g);
    assert k * m == l * rows by {
      assert k * (l * g) == l * (k * g);
    }
    MultipleHasNoRemainder(l, rows);
    MultipleHasNoRemainder(0, rows);
  }

  lemma FactorIsSmaller(k: int, g: int)
    requires g > 1 && k * g > 0
    ensures 0 < k < k * g
  {
    MultipleSize(k, g);
    MultipleSize(k, g - 1);
    assert k * g == k * (g - 1) + k;
  }

  lemma MultipleHasNoRemainder(l: int, rows: int)
    requires rows > 0
    ensures (l * rows) % rows == 0
  {
    var r := (l * rows) % rows;
    var q := (l * rows) / rows;
    assert r == (l - q) * rows;
    MultipleSize(l - q, rows);
  }

  // ----- the expected results -----

  /** One fixture row: the external value and the nullable copy of the even ones. */
  datatype Item = Item(external: nat, optional: Option<nat>)

  function Fixture(m: nat, rows: nat): (items: seq<Item>)
    requires rows > 0
    ensures |items| == rows
  {
    seq(rows, ordinal requires 0 <= ordinal < rows =>
      var value := Permuted(ordinal, m, rows);
      Item(value, if value % 2 == 0 then Some(value) else None))
  }

  /** The order of `Value`: null first. */
  function NullFirst(v: Option<nat>): int {
    if v.Some? then v.value else -1
  }

  ghost predicate Ascending(s: seq<int>) {
    forall i, j :: 0 <= i < j < |s| ==> s[i] < s[j]
  }

  /** What RETURN DISTINCT .. ORDER BY must produce: each value once, in order. */
  ghost predicate IsDistinctSorted(out: seq<int>, values: seq<int>) {
    && Ascending(out)
    && forall v :: v in out <==> v in values
  }

  lemma {:induction false} DistinctSortedIsUnique(a: seq<int>, b: seq<int>)
    requires Ascending(a) && Ascending(b)
    requires forall v :: v in a <==> v in b
    ensures a == b
  {
    assert a != [] ==> a[0] in a && a[0] in b;
    assert b != [] ==> b[0] in b && b[0] in a;
    if a != [] {
      var n, m := |a| - 1, |b| - 1;
      assert a[n] in b && b[m] in a;
      assert a[n] == b[m];
      forall v ensures v in a[..n] <==> v in b[..m] {
        if v in a[..n] { assert v in a; }
        if v in b[..m] { assert v in b; }
      }
      DistinctSortedIsUnique(a[..n], b[..m]);
    }
  }

  function Externals(items: seq<Item>): (values: seq<int>)
    ensures |values| == |items|
    ensures forall i :: 0 <= i < |items| ==> values[i] == items[i].external
  {
    seq(|items|, i requires 0 <= i < |items| => items[i].external)
  }

  function Optionals(items: seq<Item>): (values: seq<int>)
    ensures |values| == |items|
    ensures forall i :: 0 <= i < |items| ==> values[i] == NullFirst(items[i].optional)
  {
    seq(|items|, i requires 0 <= i < |items| => NullFirst(items[i].optional))
  }

  lemma ExternalsAreAll(m: nat, rows: nat, v: int)
    requires rows > 0 && IsBijection(m, rows)
    ensures v in Externals(Fixture(m, rows)) <==> 0 <= v < rows
  {
    var values := Externals(Fixture(m, rows));
    if 0 <= v < rows {
      assert IsReached(v, m, rows);
      var i: nat :| i < rows && Permuted(i, m, rows) == v;
      assert values[i] == v;
    }
  }

  /** `distinct`, `schema` and `group`: the sorted distinct values are `0..rows`, and no group has two rows. */
  lemma DistinctOracle(m: nat, rows: nat, out: seq<int>)
    requires rows > 0 && IsBijection(m, rows)
    requires IsDistinctSorted(out, Externals(Fixture(m, rows)))
    ensures out == seq(rows, i => i)
    ensures forall i, j :: 0 <= i < j < rows ==> Fixture(m, rows)[i].external != Fixture(m, rows)[j].external
  {
    var expected := seq(rows, i => i);
    forall v ensures v in expected <==> v in out {
      ExternalsAreAll(m, rows, v);
      if 0 <= v < rows {
        assert expected[v] == v;
      }
    }
    DistinctSortedIsUnique(out, expected);
  }

  /** `computed`: the sorted distinct values of `external + 1` are `1..=rows`. */
  lemma ComputedOracle(m: nat, rows: nat, out: seq<int>)
    requires rows > 0 && IsBijection(m, rows)
    requires IsDistinctSorted(out, seq(rows, i requires 0 <= i < rows => Fixture(m, rows)[i].external + 1))
    ensures out == seq(rows, i => i + 1)
  {
    var values := seq(rows, i requires 0 <= i < rows => Fixture(m, rows)[i].external + 1);
    var expected := seq(rows, i => i + 1);
    forall v ensures v in expected <==> v in out {
      ExternalsAreAll(m, rows, v - 1);
      if v - 1 in Externals(Fixture(m, rows)) {
        var i :| 0 <= i < rows && Externals(Fixture(m, rows))[i] == v - 1;
        assert values[i] == v && expected[v - 1] == v;
      }
    }
    DistinctSortedIsUnique(out, expected);
  }

  /** Null followed by every even value below `rows`, as `(0..rows).step_by(2)` gives them. */
  function NullableExpected(rows: nat): seq<int> {
    [-1] + seq((rows + 1) / 2, i => 2 * i)
  }

  lemma OptionalsAreEvenOrNull(m: nat, rows: nat, v: int)
    requires rows > 0 && IsBijection(m, rows)
    ensures v in Optionals(Fixture(m, rows)) <==> (0 <= v < rows && v % 2 == 0) || (v == -1 && rows > 1)
  {
    var items := Fixture(m, rows);
    var values := Optionals(items);
    if 0 <= v < rows && v % 2 == 0 {
      ExternalsAreAll(m, rows, v);
      var i :| 0 <= i < rows && Externals(items)[i] == v;
      assert values[i] == v;
    } else if v == -1 && rows > 1 {
      ExternalsAreAll(m, rows, 1);
      var i :| 0 <= i < rows && Externals(items)[i] == 1;
      assert values[i] == -1;
    }
    if v in values {
      var i :| 0 <= i < rows && values[i] == v;
      assert items[i].external == Permuted(i, m, rows) < rows;
    }
  }

  /** `nullable`: the oracle is right exactly when the fixture has an odd value, that is from two rows on. */
  lemma NullableOracle(m: nat, rows: nat, out: seq<int>)
    requires rows > 0 && IsBijection(m, rows)
    requires IsDistinctSorted(out, Optionals(Fixture(m, rows)))
    ensures out == NullableExpected(rows) <==> rows > 1
    ensures rows > 1 ==> |out| == 1 + (rows + 1) / 2 && out[0] == -1
    ensures rows > 1 ==> forall i :: 0 < i < |out| ==> out[i] == 2 * (i - 1)
  {
    var expected := NullableExpected(rows);
    forall v ensures v in expected <==> (0 <= v < rows && v % 2 == 0) || v == -1 {
      if 0 <= v < rows && v % 2 == 0 {
        assert expected[v / 2 + 1] == v;
      } else if v == -1 {
        assert expected[0] == v;
      }
    }
    forall v ensures v in out <==> (0 <= v < rows && v % 2 == 0) || (v == -1 && rows > 1) {
      OptionalsAreEvenOrNull(m, rows, v);
    }
    if rows > 1 {
      DistinctSortedIsUnique(out, expected);
    } else {
      assert -1 in expected && -1 !in out;
    }
  }
}
