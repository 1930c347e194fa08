/**
  Strided partition of work: writer `w` of `writers` takes the sequence numbers
  `w, w + writers, w + 2 * writers, ...` below `n`.
  Models `(writer..writes).step_by(writers)`.
 */
module Strides {
  import opened Sums

  /** The `i`-th sequence number of writer `w`. */
  function Nth(w: nat, i: nat, writers: nat): nat {
    w + i * writers
  }

  /** How many sequence numbers writer `w` owns below `n`. */
  function Count(n: nat, w: nat, writers: nat): nat
    requires writers > 0
  {
    if w >= n then 0 else (n - 1 - w) / writers + 1
  }

  function CountFn<T(!new)>(n: nat, writers: nat): (nat, T) -> int
    requires writers > 0
  {
    (w: nat, _: T) => Count(n, w, writers)
  }

  lemma MulStep(i: int, k: int)
    ensures (i + 1) * k == i * k + k
  {
  }

  lemma {:induction false} MulMonotone(a: nat, b: nat, k: nat)
    requires a <= b
    ensures a * k <= b * k
  {
    if a < b {
      MulMonotone(a, b - 1, k);
      MulStep(b - 1, k);
    }
  }

  /** The quotient is the only `q` with `q * k <= x < q * k + k`. */
  lemma DivBounds(x: nat, k: nat)
    requires k > 0
    ensures (x / k) * k <= x < (x / k) * k + k
  {
  }

  lemma DivUnique(x: nat, k: nat, q: nat)
    requires k > 0 && q * k <= x < q * k + k
    ensures x / k == q && x % k == x - q * k
  {
    DivBounds(x, k);
    if x / k < q {
      MulMonotone(x / k + 1, q, k);
      MulStep(x / k, k);
    } else if q < x / k {
      MulMonotone(q + 1, x / k, k);
      MulStep(q, k);
    }
  }

  /** The loop over a stride takes exactly the iterations counted by `Count`. */
  lemma CountIsExact(n: nat, w: nat, writers: nat, i: nat)
    requires writers > 0
    ensures i < Count(n, w, writers) <==> Nth(w, i, writers) < n
  {
    if w < n {
      var q := (n - 1 - w) / writers;
      DivBounds(n - 1 - w, writers);
      if i <= q {
        MulMonotone(i, q, writers);
      } else {
        MulMonotone(q + 1, i, writers);
        MulStep(q, writers);
      }
    } else {
      MulMonotone(0, i, writers);
    }
  }

  /** Every sequence number belongs to exactly one writer and one iteration. */
  lemma ExactlyOneOwner(q: nat, w: nat, i: nat, writers: nat)
    requires 0 <= w < writers
    ensures Nth(q % writers, q / writers, writers) == q
    ensures Nth(w, i, writers) == q <==> w == q % writers && i == q / writers
  {
    assert (q / writers) * writers + q % writers == q;
    if Nth(w, i, writers) == q {
      DivUnique(q, writers, i);
    }
  }

  lemma CountStep(n: nat, w: nat, writers: nat)
    requires w < writers <= n
    ensures Count(n, w, writers) == Count(n - writers, w, writers) + 1
  {
    if w < n - writers {
      var q := (n - writers - 1 - w) / writers;
      DivBounds(n - writers - 1 - w, writers);
      MulStep(q, writers);
      DivUnique(n - 1 - w, writers, q + 1);
    } else {
      DivUnique(n - 1 - w, writers, 0);
    }
  }

  lemma {:induction false} SmallCounts<T(!new)>(s: seq<T>, n: nat, writers: nat)
    requires |s| <= writers && n <= writers && writers > 0
    ensures Sum(s, CountFn(n, writers)) == if |s| < n then |s| else n
  {
    if s != [] {
      var w := |s| - 1;
      SmallCounts(s[..w], n, writers);
      if w < n {
        DivUnique(n - 1 - w, writers, 0);
      }
    }
  }

  lemma {:induction false} CountsShift<T(!new)>(s: seq<T>, n: nat, writers: nat)
    requires |s| <= writers <= n && writers > 0
    ensures Sum(s, CountFn(n, writers)) == Sum(s, CountFn(n - writers, writers)) + |s|
  {
    if s != [] {
      CountsShift(s[..|s| - 1], n, writers);
      CountStep(n, |s| - 1, writers);
    }
  }

  /** The strides of all writers together hold exactly `n` sequence numbers. */
  lemma {:induction false} CountsAddUp<T(!new)>(s: seq<T>, n: nat)
    requires |s| > 0
    ensures Sum(s, CountFn(n, |s|)) == n
    decreases n
  {
    if n <= |s| {
      SmallCounts(s, n, |s|);
    } else {
      CountsShift(s, n, |s|);
      CountsAddUp(s, n - |s|);
    }
  }
}
