/** `AtomicBitSet` in its sequential form: the same loops over the same words, run by one caller
    while compare-and-swap may still fail spuriously any finite number of times. */
module BitSets {
  import opened Words
  import opened Results
  import opened BitWords

  // ----- The set that words represent -----

  function Indices(words: seq<nat>): set<nat> {
    set i: nat | 0 <= i < |words| * WORD && Has(words, i)
  }

  function BitsOf(w: nat, n: nat): set<nat> {
    set k: nat | 0 <= k < n && Bit(w, k)
  }

  function Shifted(s: set<nat>, d: nat): set<nat> {
    set x | x in s :: x + d
  }

  lemma {:induction false} ShiftedSize(s: set<nat>, d: nat)
    ensures |Shifted(s, d)| == |s|
  {
    if s != {} {
      var x :| x in s;
      ShiftedSize(s - {x}, d);
      forall z: nat | z in Shifted(s, d) ensures z in Shifted(s - {x}, d) + {x + d} {
        var y: nat :| y in s && z == y + d;
        if y != x { assert y in s - {x}; }
      }
      forall z: nat | z in Shifted(s - {x}, d) + {x + d} ensures z in Shifted(s, d) {
        if z != x + d {
          var y: nat :| y in s - {x} && z == y + d;
        }
      }
      assert Shifted(s, d) == Shifted(s - {x}, d) + {x + d};
    }
  }

  /** `count_ones` counts the set bits. */
  lemma {:induction false} CountOnesIs(w: nat, n: nat)
    requires w < Pow2(n)
    ensures CountOnes(w) == |BitsOf(w, n)|
  {
    if w == 0 {
      forall k: nat ensures !Bit(0, k) { BitZero(k); }
      assert BitsOf(w, n) == {};
    } else {
      assert n > 0 && w / 2 < Pow2(n - 1);
      CountOnesIs(w / 2, n - 1);
      var high := Shifted(BitsOf(w / 2, n - 1), 1);
      ShiftedSize(BitsOf(w / 2, n - 1), 1);
      BitsSplit(w, n);
      assert 0 !in high;
    }
  }

  lemma BitsSplit(w: nat, n: nat)
    requires n > 0
    ensures BitsOf(w, n) == Shifted(BitsOf(w / 2, n - 1), 1) + (if w % 2 == 1 then {0} else {})
  {
    forall k: nat | k in BitsOf(w, n) && k > 0 ensures k in Shifted(BitsOf(w / 2, n - 1), 1) {
      assert k - 1 in BitsOf(w / 2, n - 1);
    }
    forall k: nat | k in Shifted(BitsOf(w / 2, n - 1), 1) ensures k in BitsOf(w, n) {
      var j: nat :| j in BitsOf(w / 2, n - 1) && k == j + 1;
    }
  }

  /** One more word adds its bits, moved to its place. */
  lemma IndicesAppend(words: seq<nat>, w: nat)
    requires w < Pow2(WORD)
    ensures |Indices(words + [w])| == |Indices(words)| + CountOnes(w)
  {
    hide Bit, CountOnes, Pow2;
    var n := |words|;
    var high := Shifted(BitsOf(w, WORD), n * WORD);
    CountOnesIs(w, WORD);
    ShiftedSize(BitsOf(w, WORD), n * WORD);
    IndicesSplit(words, w);
    assert Indices(words) !! high;
  }

  lemma IndicesSplit(words: seq<nat>, w: nat)
    ensures Indices(words + [w]) == Indices(words) + Shifted(BitsOf(w, WORD), |words| * WORD)
  {
    hide Bit;
    var n := |words|;
    var all := words + [w];
    var high := Shifted(BitsOf(w, WORD), n * WORD);
    forall i: nat | i in Indices(all) && i >= n * WORD ensures i in high {
      IndexParts(n, i - n * WORD);
      assert i - n * WORD in BitsOf(w, WORD);
    }
    forall i: nat | i in high ensures i in Indices(all) && i >= n * WORD {
      var k: nat :| k in BitsOf(w, WORD) && i == k + n * WORD;
      IndexParts(n, k);
    }
    forall i: nat | i < n * WORD ensures i in Indices(all) <==> i in Indices(words) {
      assert i / WORD < n;
    }
  }

  // ----- Draining -----

  predicate IsLeast(s: set<nat>, m: nat) {
    m in s && forall x <- s :: m <= x
  }

  ghost function Least(s: set<nat>): (m: nat)
    requires s != {}
    ensures IsLeast(s, m)
  {
    SomeLeast(s);
    var m :| IsLeast(s, m);
    m
  }

  lemma SomeLeast(s: set<nat>)
    requires s != {}
    ensures exists m :: IsLeast(s, m)
  {
    var m := LeastExists(s);
  }

  lemma {:induction false} LeastExists(s: set<nat>) returns (m: nat)
    requires s != {}
    ensures IsLeast(s, m)
  {
    var y :| y in s;
    var rest := s - {y};
    m := y;
    if rest != {} {
      var l := LeastExists(rest);
      m := Min(y, l);
    }
    forall x | x in s ensures m <= x {
      if x != y { assert x in rest; }
    }
  }

  /** What repeated `find_and_clear_first_set` returns, until it returns nothing. */
  ghost function Drained(s: set<nat>): seq<nat>
    decreases |s|
  {
    if s == {} then [] else [Least(s)] + Drained(s - {Least(s)})
  }

  /** Draining lists the members once each, in strictly ascending order. */
  lemma {:induction false} DrainedAscending(s: set<nat>)
    ensures |Drained(s)| == |s|
    ensures forall x :: x in Drained(s) <==> x in s
    ensures forall j, k :: 0 <= j < k < |Drained(s)| ==> Drained(s)[j] < Drained(s)[k]
    decreases |s|
  {
    if s != {} {
      var rest := Drained(s - {Least(s)});
      DrainedAscending(s - {Least(s)});
      forall k | 0 <= k < |rest| ensures Least(s) < rest[k] { assert rest[k] in rest; }
    }
  }

  /** Taking out the least member moves it from what is to come to what has come. */
  lemma DrainStep(left: set<nat>, out: seq<nat>, all: seq<nat>)
    requires left != {} && out + Drained(left) == all
    ensures Least(left) in left && |left - {Least(left)}| < |left|
    ensures out + [Least(left)] + Drained(left - {Least(left)}) == all
  {
    assert Drained(left) == [Least(left)] + Drained(left - {Least(left)});
    hide Drained, Least;
  }

  lemma DrainEnd(out: seq<nat>, all: seq<nat>)
    requires out + Drained({}) == all
    ensures out == all
  {
  }

  lemma LeastIs(s: set<nat>, m: nat)
    requires IsLeast(s, m)
    ensures s != {} && Least(s) == m
  {
  }

  /** The first `w` words are empty. */
  ghost predicate NoneBelow(words: seq<nat>, w: nat) {
    forall i: nat :: Has(words, i) ==> i / WORD >= w
  }

  lemma SkipZero(words: seq<nat>, w: nat)
    requires NoneBelow(words, w) && w < |words| && words[w] == 0
    ensures NoneBelow(words, w + 1)
  {
    hide Bit;
    forall i: nat | Has(words, i) ensures i / WORD >= w + 1 {
      if i / WORD == w { ZeroWordHas(words, w, i); }
    }
  }

  lemma NothingLeft(words: seq<nat>)
    requires NoneBelow(words, |words|)
    ensures Indices(words) == {}
  {
    hide Bit;
  }

  /** The lowest bit of the first nonzero word is the least index; clearing it removes just that. */
  lemma FoundLeast(words: seq<nat>, capacity: nat, w: nat)
    requires PaddingZero(words, capacity) && w < |words| && words[w] != 0 && NoneBelow(words, w)
    ensures var k := TrailingZeros(words[w]);
            && k < WORD && w * WORD + k < capacity
            && PaddingZero(words[w := ClearBit(words[w], k)], capacity)
            && IsLeast(Indices(words), w * WORD + k)
            && Indices(words[w := ClearBit(words[w], k)]) == Indices(words) - {w * WORD + k}
  {
    hide Bit, ClearBit, TrailingZeros, PaddingZero;
    LowestHas(words, capacity, w);
    var k := TrailingZeros(words[w]);
    var i := w * WORD + k;
    IndexParts(w, k);
    ClearBitHas(words, capacity, i);
    forall j <- Indices(words) ensures i <= j {
      if j / WORD > w { assert j >= (w + 1) * WORD; }
    }
  }

  lemma WordInside(words: seq<nat>, capacity: nat, i: nat)
    requires PaddingZero(words, capacity) && i < capacity
    ensures i / WORD < |words|
  {
  }

  class AtomicBitSet {
    const words: array<nat>
    const capacity: nat

    ghost predicate Valid()
      reads words
    {
      capacity < U32 && PaddingZero(words[..], capacity)
    }

    ghost function Members(): set<nat>
      reads words
    {
      Indices(words[..])
    }

    constructor (capacity: nat)
      requires capacity < U32
      ensures Valid() && fresh(words) && this.capacity == capacity && Members() == {}
    {
      this.capacity := capacity;
      words := new nat[WordCount(capacity)](_ => 0);
      new;
      forall i: nat ensures !Has(words[..], i) {
        BitZero(i % WORD);
      }
    }

    /** `compare_exchange_weak` on a word. */
    method CompareExchangeWeak(w: nat, expected: nat, desired: nat, spurious: bool) returns (ok: bool, current: nat)
      requires w < words.Length
      modifies words
      ensures current == old(words[w]) && (ok <==> !spurious && old(words[w]) == expected)
      ensures words[..] == if ok then old(words[..])[w := desired] else old(words[..])
    {
      current := words[w];
      ok := !spurious && words[w] == expected;
      if ok { words[w] := desired; }
    }

    /** Adds `index`; true exactly when it was not there. `failures` is how often the swap fails
        spuriously. */
    method Set(index: nat, failures: nat) returns (added: bool)
      requires Valid() && index < capacity
      modifies words
      ensures Valid() && Members() == old(Members()) + {index}
      ensures added <==> index !in old(Members())
    {
      var w, k := index / WORD, index % WORD;
      WordInside(words[..], capacity, index);
      var word := words[w];
      var remaining := failures;
      while true
        invariant words[..] == old(words[..]) && word == words[w]
        decreases remaining
      {
        TestBitIs(word, k);
        if TestBit(word, k) {
          return false;
        }
        var ok, current := CompareExchangeWeak(w, word, SetBit(word, k), remaining > 0);
        if ok {
          SetBitHas(old(words[..]), capacity, index);
          hide Bit, SetBit, TestBit;
          return true;
        }
        word := current;
        remaining := remaining - 1;
      }
    }

    /** Removes `index`; true exactly when it was there. */
    method Clear(index: nat, failures: nat) returns (found: bool)
      requires Valid() && index < capacity
      modifies words
      ensures Valid() && Members() == old(Members()) - {index}
      ensures found <==> index in old(Members())
    {
      var w, k := index / WORD, index % WORD;
      WordInside(words[..], capacity, index);
      var word := words[w];
      var remaining := failures;
      while true
        invariant words[..] == old(words[..]) && word == words[w]
        decreases remaining
      {
        TestBitIs(word, k);
        if !TestBit(word, k) {
          return false;
        }
        var ok, current := CompareExchangeWeak(w, word, ClearBit(word, k), remaining > 0);
        if ok {
          ClearBitHas(old(words[..]), capacity, index);
          hide Bit, ClearBit, TestBit;
          return true;
        }
        word := current;
        remaining := remaining - 1;
      }
    }

    method IsSet(index: nat) returns (found: bool)
      requires Valid() && index < capacity
      ensures found <==> index in Members()
    {
      WordInside(words[..], capacity, index);
      TestBitIs(words[index / WORD], index % WORD);
      found := TestBit(words[index / WORD], index % WORD);
    }

    method CountSet() returns (n: nat)
      requires Valid()
      ensures n == |Members()|
    {
      n := 0;
      for k := 0 to words.Length
        invariant n == |Indices(words[..k])|
      {
        IndicesAppend(words[..k], words[k]);
        assert words[..k + 1] == words[..k] + [words[k]];
        n := n + CountOnes(words[k]);
      }
      assert words[..words.Length] == words[..];
    }

    /** After bit `k` of word `w` was cleared: reports its index, or gives a padding bit back. */
    method ReportOrGiveBack(w: nat, k: nat) returns (r: Option<nat>)
      requires w < words.Length && k < WORD
      modifies words
      ensures w * WORD + k < capacity ==> r == Some(w * WORD + k) && words[..] == old(words[..])
      ensures w * WORD + k >= capacity ==>
                r == None && words[..] == old(words[..])[w := SetBit(old(words[w]), k)]
    {
      var index := w * WORD + k;
      if index < capacity {
        return Some(index);
      }
      words[w] := SetBit(words[w], k);
      return None;
    }

    /** Removes and returns the least member; fails exactly when there is none. No padding bit is ever
        given back: `FoundLeast` puts the index below the capacity. */
    method FindAndClearFirstSet(failures: nat) returns (r: Option<nat>)
      requires Valid()
      modifies words
      ensures Valid()
      ensures old(Members()) == {} ==> r == None && Members() == {}
      ensures old(Members()) != {} ==>
                r == Some(Least(old(Members()))) && Members() == old(Members()) - {Least(old(Members()))}
    {
      hide Bit, ClearBit, Has, TrailingZeros, PaddingZero;
      var remaining := failures;
      var w := 0;
      while w < words.Length
        invariant w <= words.Length && words[..] == old(words[..])
        invariant NoneBelow(words[..], w)
      {
        var word := words[w];
        while true
          invariant words[..] == old(words[..]) && word == words[w]
          decreases remaining
        {
          if word == 0 {
            break;
          }
          var k := TrailingZeros(word);
          FoundLeast(words[..], capacity, w);
          var ok, current := CompareExchangeWeak(w, word, ClearBit(word, k), remaining > 0);
          if ok {
            var index := w * WORD + k;
            LeastIs(old(Members()), index);
            r := ReportOrGiveBack(w, k);
            return;
          }
          word := current;
          remaining := remaining - 1;
        }
        SkipZero(words[..], w);
        w := w + 1;
      }
      NothingLeft(words[..]);
      return None;
    }
  }

  /** Takes out members until none is left: they come once each, in strictly ascending order. */
  method Drain(bits: AtomicBitSet) returns (out: seq<nat>)
    requires bits.Valid()
    modifies bits.words
    ensures bits.Valid() && bits.Members() == {}
    ensures out == Drained(old(bits.Members())) && |out| == |old(bits.Members())|
    ensures forall i :: i in out <==> i in old(bits.Members())
    ensures forall j, k :: 0 <= j < k < |out| ==> out[j] < out[k]
  {
    hide AtomicBitSet.Valid, AtomicBitSet.Members, Drained, IsLeast, Least;
    hide Bit, ClearBit, Has, TrailingZeros, PaddingZero, Indices;
    ghost var all := Drained(old(bits.Members()));
    out := [];
    var found := bits.FindAndClearFirstSet(0);
    ghost var left := old(bits.Members());
    while found.Some?
      invariant bits.Valid() && (found.Some? <==> left != {})
      invariant found.Some? ==> found.value == Least(left) && bits.Members() == left - {Least(left)}
      invariant found.None? ==> bits.Members() == {}
      invariant out + Drained(left) == all
      decreases |left|
    {
      DrainStep(left, out, all);
      out := out + [found.value];
      left := bits.Members();
      found := bits.FindAndClearFirstSet(0);
    }
    DrainEnd(out, all);
    DrainedAscending(old(bits.Members()));
  }
}
