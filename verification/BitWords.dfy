/** One 64-bit word as a set of bit positions, and a sequence of such words as a set of indices. */
module BitWords {
  import opened Words

  const WORD: nat := 64

  /** `1u64 << k` */
  function Mask(k: nat): nat {
    ShiftLeft(1, k, WORD)
  }

  /** `w & (1 << k) != 0` */
  predicate TestBit(w: nat, k: nat) {
    And(w, Mask(k)) != 0
  }

  /** `w | (1 << k)` */
  function SetBit(w: nat, k: nat): nat {
    Or(w, Mask(k))
  }

  /** `w & !(1 << k)` */
  function ClearBit(w: nat, k: nat): nat
    requires k < WORD
  {
    MaskValue(k);
    And(w, Not(Mask(k), WORD))
  }

  lemma MaskValue(k: nat)
    requires k < WORD
    ensures Mask(k) == Pow2(k) < Pow2(WORD)
  {
    hide Pow2, ShiftLeft;
    Pow2Strict(k, WORD);
    ShiftLeftIs(1, k, WORD);
    DivModUnique(Pow2(k), Pow2(WORD), 0, Pow2(k));
  }

  lemma {:induction false} Pow2Strict(a: nat, b: nat)
    requires a < b
    ensures Pow2(a) < Pow2(b)
  {
    Pow2Monotone(a, b - 1);
  }

  lemma TestBitIs(w: nat, k: nat)
    requires k < WORD
    ensures TestBit(w, k) <==> Bit(w, k)
  {
    MaskValue(k);
    var both := And(w, Pow2(k));
    BitAnd(w, Pow2(k), k);
    BitPow2(k, k);
    if both != 0 {
      var j := TrailingZeros(both);
      SomeBit(both);
      BitAnd(w, Pow2(k), j);
      BitPow2(k, j);
    } else {
      BitZero(k);
    }
  }

  lemma SetBitBits(w: nat, k: nat, j: nat)
    requires k < WORD
    ensures Bit(SetBit(w, k), j) <==> Bit(w, j) || j == k
  {
    MaskValue(k);
    BitOr(w, Pow2(k), j);
    BitPow2(k, j);
  }

  lemma ClearBitBits(w: nat, k: nat, j: nat)
    requires k < WORD && w < Pow2(WORD)
    ensures Bit(ClearBit(w, k), j) <==> Bit(w, j) && j != k
  {
    MaskValue(k);
    BitAnd(w, Not(Mask(k), WORD), j);
    if j < WORD {
      BitNot(Mask(k), WORD, j);
      BitPow2(k, j);
    } else {
      BitBelow(w, WORD, j);
    }
  }

  lemma SetBitFits(w: nat, k: nat)
    requires k < WORD && w < Pow2(WORD)
    ensures SetBit(w, k) < Pow2(WORD)
  {
    forall j: nat | j >= WORD ensures !Bit(SetBit(w, k), j) {
      SetBitBits(w, k, j);
      BitBelow(w, WORD, j);
    }
    BelowByBits(SetBit(w, k), WORD);
  }

  lemma ClearBitFits(w: nat, k: nat)
    requires k < WORD && w < Pow2(WORD)
    ensures ClearBit(w, k) < Pow2(WORD)
  {
    forall j: nat | j >= WORD ensures !Bit(ClearBit(w, k), j) {
      ClearBitBits(w, k, j);
      BitBelow(w, WORD, j);
    }
    BelowByBits(ClearBit(w, k), WORD);
  }

  // ----- Sequences of words -----

  function WordCount(capacity: nat): nat {
    (capacity + WORD - 1) / WORD
  }

  /** Index `i` is in the set that `words` represents. */
  predicate Has(words: seq<nat>, i: nat) {
    i / WORD < |words| && Bit(words[i / WORD], i % WORD)
  }

  /** The words fit 64 bits and no bit at or above the capacity is set. */
  ghost predicate PaddingZero(words: seq<nat>, capacity: nat) {
    && |words| == WordCount(capacity)
    && (forall w :: 0 <= w < |words| ==> words[w] < Pow2(WORD))
    && forall i: nat :: Has(words, i) ==> i < capacity
  }

  lemma IndexParts(w: nat, k: nat)
    requires k < WORD
    ensures (w * WORD + k) / WORD == w && (w * WORD + k) % WORD == k
  {
  }

  /** Storing `SetBit` into its word adds exactly index `i`. */
  lemma SetBitHas(words: seq<nat>, capacity: nat, i: nat)
    requires PaddingZero(words, capacity) && i < capacity
    ensures i / WORD < |words|
    ensures var words' := words[i / WORD := SetBit(words[i / WORD], i % WORD)];
            && PaddingZero(words', capacity)
            && forall j: nat :: Has(words', j) <==> Has(words, j) || j == i
  {
    var w, k := i / WORD, i % WORD;
    var words' := words[w := SetBit(words[w], k)];
    SetBitFits(words[w], k);
    forall j: nat ensures Has(words', j) <==> Has(words, j) || j == i {
      SetBitBits(words[w], k, j % WORD);
    }
  }

  /** Storing `ClearBit` into its word removes exactly index `i`. */
  lemma ClearBitHas(words: seq<nat>, capacity: nat, i: nat)
    requires PaddingZero(words, capacity) && i / WORD < |words|
    ensures var words' := words[i / WORD := ClearBit(words[i / WORD], i % WORD)];
            && PaddingZero(words', capacity)
            && forall j: nat :: Has(words', j) <==> Has(words, j) && j != i
  {
    var w, k := i / WORD, i % WORD;
    var words' := words[w := ClearBit(words[w], k)];
    ClearBitFits(words[w], k);
    forall j: nat ensures Has(words', j) <==> Has(words, j) && j != i {
      ClearBitBits(words[w], k, j % WORD);
    }
  }

  /** The lowest set bit of word `w` is an index of the set, and below it the word is empty. */
  lemma LowestHas(words: seq<nat>, capacity: nat, w: nat)
    requires PaddingZero(words, capacity) && w < |words| && words[w] != 0
    ensures var k := TrailingZeros(words[w]);
            && k < WORD && w * WORD + k < capacity && Has(words, w * WORD + k)
            && forall j: nat :: Has(words, j) && j / WORD == w ==> j >= w * WORD + k
  {
    var k := TrailingZeros(words[w]);
    SomeBit(words[w]);
    if k >= WORD { BitBelow(words[w], WORD, k); }
    var i := w * WORD + k;
    IndexParts(w, k);
    assert i / WORD == w && i % WORD == k;
    assert Has(words, i);
    forall j: nat | Has(words, j) && j / WORD == w ensures j >= w * WORD + k {
      assert Bit(words[w], j % WORD);
    }
  }

  lemma ZeroWordHas(words: seq<nat>, w: nat, i: nat)
    requires w < |words| && words[w] == 0 && i / WORD == w
    ensures !Has(words, i)
  {
    BitZero(i % WORD);
  }
}
