/** `UniqueIndexSet` in its sequential form: the same loops over the same words, run by one caller
    while compare-and-swap may still fail spuriously any finite number of times. */
module IndexSet {
  import opened Words
  import opened Results
  import opened FreeList
  import opened FreeListSafety

  datatype AcquireError = AcquireError

  class UniqueIndexSet {
    var head: nat
    const next: array<nat>
    const capacity: nat
    var borrowed: nat

    /** The free indices, in the order `acquire` hands them out. */
    ghost var free: seq<nat>

    ghost predicate Valid()
      reads this, next
    {
      && 0 < capacity < SENTINEL && next.Length == capacity
      && IsChain(next[..], HeadOf(head), free) && Distinct(free)
      && |free| <= capacity && borrowed == capacity - |free|
    }

    constructor (capacity: nat)
      requires 0 < capacity < SENTINEL
      ensures Valid() && this.capacity == capacity && fresh(next)
      ensures free == InitStack(capacity)
    {
      var slots := new nat[capacity];
      for i := 0 to capacity
        invariant forall j :: 0 <= j < i ==> slots[j] == InitNext(capacity)[j]
      {
        slots[i] := if i + 1 < capacity then i + 1 else SENTINEL;
      }
      this.capacity := capacity;
      next := slots;
      head := Pack(0, 0);
      borrowed := 0;
      free := InitStack(capacity);
      new;
      PackFields(0, 0);
      assert next[..] == InitNext(capacity);
      InitChain(capacity);
    }

    /** `compare_exchange_weak` on the head word. */
    method CompareExchangeWeak(expected: nat, desired: nat, spurious: bool) returns (ok: bool, current: nat)
      modifies this`head
      ensures current == old(head) && (ok <==> !spurious && old(head) == expected)
      ensures head == if ok then desired else old(head)
    {
      current := head;
      ok := !spurious && head == expected;
      if ok { head := desired; }
    }

    /** Takes the first free index; fails, changing nothing, exactly when there is none.
        `failures` is how often the swap fails spuriously. */
    method Acquire(failures: nat) returns (r: Result<nat, AcquireError>)
      requires Valid()
      modifies this`head, this`borrowed, this`free
      ensures Valid()
      ensures old(free) == [] ==> r.Err? && free == [] && head == old(head)
      ensures old(free) != [] ==> r == Ok(old(free)[0]) && free == old(free)[1..]
      ensures old(free) != [] ==> TagOf(head) == WrappingInc(TagOf(old(head)))
    {
      var word := head;
      var remaining := failures;
      while true
        invariant Valid() && word == head == old(head) && free == old(free) && borrowed == old(borrowed)
        decreases remaining
      {
        var headIdx := HeadOf(word);
        if headIdx == SENTINEL {
          return Err(AcquireError);
        }
        var nextIdx := next[headIdx];
        var desired := Pack(nextIdx, WrappingInc(TagOf(word)));
        var ok, current := CompareExchangeWeak(word, desired, remaining > 0);
        if ok {
          PackFields(nextIdx, WrappingInc(TagOf(word)));
          hide Pack, HeadOf, TagOf;
          PopChain(next[..], headIdx, free);
          free := free[1..];
          borrowed := borrowed + 1;
          return Ok(headIdx);
        }
        word := current;
        remaining := remaining - 1;
      }
    }

    /** Puts an index that is out back on top. */
    method Release(index: nat, failures: nat)
      requires Valid() && index < capacity && index !in free
      modifies this`head, this`borrowed, this`free, next
      ensures Valid() && free == [index] + old(free)
      ensures TagOf(head) == WrappingInc(TagOf(old(head)))
    {
      var word := head;
      var remaining := failures;
      FreeFits(free, capacity, index);
      while true
        invariant Valid() && word == head == old(head) && free == old(free) && borrowed == old(borrowed)
        decreases remaining
      {
        var headIdx := HeadOf(word);
        ghost var slots := next[..];
        StoreChain(slots, headIdx, free, index);
        next[index] := headIdx;
        assert next[..] == slots[index := headIdx];
        var desired := Pack(index, WrappingInc(TagOf(word)));
        var ok, current := CompareExchangeWeak(word, desired, remaining > 0);
        if ok {
          PackFields(index, WrappingInc(TagOf(word)));
          hide Pack, HeadOf, TagOf;
          ChainPush(next[..], headIdx, free, index);
          free := [index] + free;
          borrowed := borrowed - 1;
          return;
        }
        word := current;
        remaining := remaining - 1;
      }
    }

    method BorrowedCount() returns (n: nat)
      requires Valid()
      ensures n == capacity - |free|
    {
      n := borrowed;
    }

    /** `capacity.saturating_sub(borrowed)`: exactly the free indices. */
    method Available() returns (n: nat)
      requires Valid()
      ensures n == |free|
    {
      n := SaturatingSub(capacity, borrowed);
    }
  }

  lemma PopChain(next: seq<nat>, head: nat, free: seq<nat>)
    requires free != [] && IsChain(next, head, free) && Distinct(free)
    ensures IsChain(next, next[head], free[1..]) && Distinct(free[1..])
  {
    var rest := free[1..];
    assert forall k :: 0 <= k < |rest| ==> rest[k] == free[k + 1];
  }

  /** Writing the slot of an index that is not free leaves the chain alone. */
  lemma StoreChain(next: seq<nat>, head: nat, free: seq<nat>, i: nat)
    requires IsChain(next, head, free) && i < |next| && i !in free
    ensures IsChain(next[i := head], head, free)
  {
  }

  // ----- Releasing an index that is free -----

  /** From the slot just rewritten, a chain passes the old stack down to `i` itself. */
  lemma {:induction false} BackToReleased(next: seq<nat>, head: nat, free: seq<nat>, i: nat, p: nat,
      xs: seq<nat>, k: nat)
    requires |next| <= SENTINEL && IsChain(next, head, free) && i < |next| && p < |free| && free[p] == i
    requires forall j :: 0 <= j < p ==> free[j] != i
    requires IsChain(next[i := head], i, xs) && k <= p
    ensures |xs| > k + 1 && xs[k + 1] == free[k]
  {
    assert xs != [] && xs[0] == i;
    if k == 0 {
      assert next[i := head][xs[0]] == NextOnStack(xs, 1);
      assert head == NextOnStack(free, 0);
    } else {
      BackToReleased(next, head, free, i, p, xs, k - 1);
      assert next[i := head][xs[k]] == NextOnStack(xs, k + 1);
      assert next[free[k - 1]] == NextOnStack(free, k);
    }
  }

  lemma {:induction false} FirstAt(xs: seq<nat>, x: nat) returns (p: nat)
    requires x in xs
    ensures p < |xs| && xs[p] == x && forall j :: 0 <= j < p ==> xs[j] != x
  {
    if xs[0] == x {
      p := 0;
    } else {
      assert xs == [xs[0]] + xs[1..];
      p := FirstAt(xs[1..], x);
      p := p + 1;
    }
  }

  lemma {:induction false} CycleHasNoEnd(next: seq<nat>, head: nat, free: seq<nat>, i: nat, p: nat, xs: seq<nat>)
    requires |next| <= SENTINEL && IsChain(next, head, free) && i < |next| && p < |free| && free[p] == i
    requires forall j :: 0 <= j < p ==> free[j] != i
    ensures !IsChain(next[i := head], i, xs)
    decreases |xs|
  {
    if IsChain(next[i := head], i, xs) {
      BackToReleased(next, head, free, i, p, xs, p);
      ChainSuffix(next[i := head], i, xs, p + 1);
      CycleHasNoEnd(next, head, free, i, p, xs[p + 1..]);
    }
  }

  /** Following `next` from the head comes to an end. */
  ghost predicate Ends(next: seq<nat>, head: nat) {
    exists xs :: IsChain(next, head, xs)
  }

  /** Pushing an index leaves a free-list that ends if and only if the index was not free already:
      releasing twice closes a cycle. */
  lemma ReleaseExact(next: seq<nat>, head: nat, free: seq<nat>, i: nat)
    requires |next| <= SENTINEL && IsChain(next, head, free) && i < |next|
    ensures Ends(next[i := head], i) <==> i !in free
  {
    if i !in free {
      ChainPush(next[i := head], head, free, i);
    } else {
      var p := FirstAt(free, i);
      if Ends(next[i := head], i) {
        var after := next[i := head];
        var xs :| IsChain(after, i, xs);
        CycleHasNoEnd(next, head, free, i, p, xs);
      }
    }
  }

  /** Distinct indices below the capacity that miss one leave room for it. */
  lemma FreeFits(free: seq<nat>, capacity: nat, i: nat)
    requires Distinct(free) && i < capacity && i !in free
    requires forall k :: 0 <= k < |free| ==> free[k] < capacity
    ensures |free| < capacity
  {
    DistinctSize(free);
    RangeSize(capacity);
    SubsetSize(Elements(free), Range(capacity) - {i});
  }

  function Elements(xs: seq<nat>): set<nat> {
    set x | x in xs
  }

  function Range(n: nat): set<nat> {
    if n == 0 then {} else Range(n - 1) + {n - 1}
  }

  lemma {:induction false} DistinctSize(xs: seq<nat>)
    requires Distinct(xs)
    ensures |Elements(xs)| == |xs|
  {
    if xs != [] {
      var n := |xs| - 1;
      DistinctSize(xs[..n]);
      assert xs[n] !in xs[..n];
      assert Elements(xs) == Elements(xs[..n]) + {xs[n]};
    }
  }

  lemma {:induction false} RangeSize(n: nat)
    ensures |Range(n)| == n && forall x: nat :: x in Range(n) <==> x < n
  {
    if n > 0 { RangeSize(n - 1); }
  }

  lemma {:induction false} SubsetSize(a: set<nat>, b: set<nat>)
    requires a <= b
    ensures |a| <= |b|
  {
    if a != {} {
      var x :| x in a;
      SubsetSize(a - {x}, b - {x});
    }
  }
}
