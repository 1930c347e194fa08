/** Totals over sequences, used wherever a counter equals a sum over threads. */
module Sums {

  /** The total of `f(i, s[i])` over all positions of `s`. */
  ghost function Sum<T>(s: seq<T>, f: (nat, T) -> int): int {
    if s == [] then 0 else Sum(s[..|s| - 1], f) + f(|s| - 1, s[|s| - 1])
  }

  /** Replacing one element moves the total by the difference of the two values. */
  lemma {:induction false} SumUpdate<T>(s: seq<T>, k: nat, x: T, f: (nat, T) -> int)
    requires k < |s|
    ensures Sum(s[k := x], f) == Sum(s, f) - f(k, s[k]) + f(k, x)
  {
    var n := |s| - 1;
    if k == n {
      assert s[k := x][..n] == s[..n];
    } else {
      assert s[k := x][..n] == s[..n][k := x];
      SumUpdate(s[..n], k, x, f);
    }
  }

  lemma SumAppend<T>(s: seq<T>, x: T, f: (nat, T) -> int)
    ensures Sum(s + [x], f) == Sum(s, f) + f(|s|, x)
  {
    assert (s + [x])[..|s|] == s;
  }

  /** Pointwise comparison lifts to the totals. */
  lemma {:induction false} SumMonotone<T, U>(s: seq<T>, t: seq<U>, f: (nat, T) -> int, g: (nat, U) -> int)
    requires |s| == |t|
    requires forall i :: 0 <= i < |s| ==> f(i, s[i]) <= g(i, t[i])
    ensures Sum(s, f) <= Sum(t, g)
  {
    if s != [] {
      SumMonotone(s[..|s| - 1], t[..|t| - 1], f, g);
    }
  }

  lemma SumEqual<T, U>(s: seq<T>, t: seq<U>, f: (nat, T) -> int, g: (nat, U) -> int)
    requires |s| == |t|
    requires forall i :: 0 <= i < |s| ==> f(i, s[i]) == g(i, t[i])
    ensures Sum(s, f) == Sum(t, g)
  {
    SumMonotone(s, t, f, g);
    SumMonotone(t, s, g, f);
  }

  /** A total of equal values is their product with the length. */
  lemma {:induction false} SumConstant<T>(s: seq<T>, f: (nat, T) -> int, v: int)
    requires forall i :: 0 <= i < |s| ==> f(i, s[i]) == v
    ensures Sum(s, f) == |s| * v
  {
    if s != [] {
      SumConstant(s[..|s| - 1], f, v);
      assert |s| * v == (|s| - 1) * v + v;
    }
  }

  /** With non-negative values no single value exceeds the total. */
  lemma {:induction false} SumAtLeast<T>(s: seq<T>, k: nat, f: (nat, T) -> int)
    requires k < |s|
    requires forall i :: 0 <= i < |s| ==> f(i, s[i]) >= 0
    ensures 0 <= f(k, s[k]) <= Sum(s, f)
  {
    var n := |s| - 1;
    SumNonNegative(s[..n], f);
    if k < n {
      SumAtLeast(s[..n], k, f);
    }
  }

  lemma {:induction false} SumNonNegative<T>(s: seq<T>, f: (nat, T) -> int)
    requires forall i :: 0 <= i < |s| ==> f(i, s[i]) >= 0
    ensures Sum(s, f) >= 0
  {
    if s != [] {
      SumNonNegative(s[..|s| - 1], f);
    }
  }

  /** Values at most one, with a smaller one among them, total less than the length. */
  lemma {:induction false} SumBelowLength<T>(s: seq<T>, k: nat, f: (nat, T) -> int)
    requires k < |s| && f(k, s[k]) <= 0
    requires forall i :: 0 <= i < |s| ==> f(i, s[i]) <= 1
    ensures Sum(s, f) <= |s| - 1
  {
    var n := |s| - 1;
    if k < n {
      SumBelowLength(s[..n], k, f);
    } else {
      SumAtMostLength(s[..n], f);
    }
  }

  lemma {:induction false} SumAtMostLength<T>(s: seq<T>, f: (nat, T) -> int)
    requires forall i :: 0 <= i < |s| ==> f(i, s[i]) <= 1
    ensures Sum(s, f) <= |s|
  {
    if s != [] {
      SumAtMostLength(s[..|s| - 1], f);
    }
  }

  /** Zero or one flags that total their number are all one. */
  lemma SumFull<T>(s: seq<T>, f: (nat, T) -> int)
    requires forall i :: 0 <= i < |s| ==> 0 <= f(i, s[i]) <= 1
    requires Sum(s, f) == |s|
    ensures forall i :: 0 <= i < |s| ==> f(i, s[i]) == 1
  {
    forall i | 0 <= i < |s| ensures f(i, s[i]) == 1 {
      if f(i, s[i]) == 0 {
        SumBelowLength(s, i, f);
      }
    }
  }
}
