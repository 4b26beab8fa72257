/** How often a value occurs in a queue. */
module Counts {
  function One(b: bool): nat {
    if b then 1 else 0
  }

  function Occurrences(queue: seq<nat>, x: nat): nat {
    if queue == [] then 0 else One(queue[0] == x) + Occurrences(queue[1..], x)
  }

  /** The numbers below `n`, in order. */
  function Range(n: nat): seq<nat> {
    seq(n, i => i)
  }

  lemma NoOccurrence(x: nat)
    ensures Occurrences([], x) == 0
  {
  }

  lemma Behead(q: seq<nat>, x: nat)
    requires q != []
    ensures Occurrences(q, x) == Occurrences(q[1..], x) + One(q[0] == x)
  {
  }

  lemma Prepend(q: seq<nat>, y: nat, x: nat)
    ensures Occurrences([y] + q, x) == Occurrences(q, x) + One(y == x)
  {
    assert ([y] + q)[1..] == q;
  }

  lemma {:induction false} Append(q: seq<nat>, y: nat, x: nat)
    ensures Occurrences(q + [y], x) == Occurrences(q, x) + One(y == x)
  {
    if q == [] {
      assert q + [y] == [y] && [y][1..] == [];
    } else {
      assert (q + [y])[1..] == q[1..] + [y];
      Append(q[1..], y, x);
    }
  }

  lemma {:induction false} Occurs(q: seq<nat>, j: nat)
    requires j < |q|
    ensures Occurrences(q, q[j]) >= 1
  {
    if j > 0 { Occurs(q[1..], j - 1); }
  }

  lemma NotIn(q: seq<nat>, x: nat)
    requires Occurrences(q, x) == 0
    ensures x !in q
  {
    if j :| 0 <= j < |q| && q[j] == x { Occurs(q, j); }
  }

  lemma {:induction false} RangeOnce(n: nat, x: nat)
    ensures Occurrences(Range(n), x) == One(x < n)
  {
    if n > 0 {
      assert Range(n) == Range(n - 1) + [n - 1];
      Append(Range(n - 1), n - 1, x);
      RangeOnce(n - 1, x);
    }
  }
}
