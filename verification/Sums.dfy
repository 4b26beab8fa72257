/** Sums of a weight over a sequence, and how they change when one element does. */
module Sums {
  function Sum<T>(xs: seq<T>, f: T -> int): int {
    if xs == [] then 0 else Sum(xs[..|xs| - 1], f) + f(xs[|xs| - 1])
  }

  lemma {:induction false} SumUpdate<T>(xs: seq<T>, i: nat, x: T, f: T -> int)
    requires i < |xs|
    ensures Sum(xs[i := x], f) == Sum(xs, f) - f(xs[i]) + f(x)
  {
    var n := |xs| - 1;
    if i == n {
      assert xs[i := x][..n] == xs[..n];
    } else {
      SumUpdate(xs[..n], i, x, f);
      assert xs[i := x][..n] == xs[..n][i := x];
    }
  }

  lemma {:induction false} SumBounds<T>(xs: seq<T>, f: T -> int, lo: int, hi: int)
    requires forall i :: 0 <= i < |xs| ==> lo <= f(xs[i]) <= hi
    ensures lo * |xs| <= Sum(xs, f) <= hi * |xs|
  {
    if xs != [] {
      SumBounds(xs[..|xs| - 1], f, lo, hi);
    }
  }

  lemma {:induction false} SumOrder<T>(xs: seq<T>, f: T -> int, g: T -> int)
    requires forall i :: 0 <= i < |xs| ==> f(xs[i]) <= g(xs[i])
    ensures Sum(xs, f) <= Sum(xs, g)
  {
    if xs != [] {
      SumOrder(xs[..|xs| - 1], f, g);
    }
  }

  /** One element never outweighs the whole when no weight is negative. */
  lemma {:induction false} SumAtLeast<T>(xs: seq<T>, f: T -> int, k: nat)
    requires k < |xs|
    requires forall i :: 0 <= i < |xs| ==> f(xs[i]) >= 0
    ensures Sum(xs, f) >= f(xs[k])
  {
    var n := |xs| - 1;
    SumBounds0(xs[..n], f);
    if k < n {
      SumAtLeast(xs[..n], f, k);
    }
  }

  lemma {:induction false} SumBounds0<T>(xs: seq<T>, f: T -> int)
    requires forall i :: 0 <= i < |xs| ==> f(xs[i]) >= 0
    ensures Sum(xs, f) >= 0
  {
    if xs != [] {
      SumBounds0(xs[..|xs| - 1], f);
    }
  }

  lemma {:induction false} SumRepeat<T>(n: nat, x: T, f: T -> int)
    ensures Sum(seq(n, _ => x), f) == n * f(x)
  {
    if n > 0 {
      assert seq(n, _ => x)[..n - 1] == seq(n - 1, _ => x);
      SumRepeat(n - 1, x, f);
    }
  }
}
