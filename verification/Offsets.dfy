/** `PointerOffset` packing and the layout of a data segment. */
module Offsets {
  import opened Words

  const HEADER: nat := 64
  const OFFSET_BITS: nat := 48
  const RAW_BITS: nat := 64

  // ----- [segment_id:16][offset:48] -----

  /** `PointerOffset::new`. */
  function Encode(segmentId: nat, offset: nat): nat {
    Or(ShiftLeft(segmentId, OFFSET_BITS, RAW_BITS), And(offset, U48 - 1))
  }

  function SegmentId(raw: nat): nat {
    ShiftRight(raw, OFFSET_BITS) % U16
  }

  function Offset(raw: nat): nat {
    And(raw, U48 - 1)
  }

  lemma EncodeParts(segmentId: nat, offset: nat, k: nat, n: nat)
    requires k <= n && Pow2(k) == U48 && Pow2(n) == U64 && Pow2(n - k) == U16
    requires segmentId < U16 && offset < U48
    ensures var raw := Or(ShiftLeft(segmentId, k, n), And(offset, U48 - 1));
            raw < U64 && ShiftRight(raw, k) % U16 == segmentId && And(raw, U48 - 1) == offset
  {
    hide Or, And, ShiftLeft, ShiftRight, Pow2;
    PackRoundTrip(segmentId, offset, k, n);
  }

  /** Decoding an encoded offset gives back both parts. */
  lemma EncodeRoundTrip(segmentId: nat, offset: nat)
    requires segmentId < U16 && offset < U48
    ensures Encode(segmentId, offset) < U64
    ensures SegmentId(Encode(segmentId, offset)) == segmentId && Offset(Encode(segmentId, offset)) == offset
  {
    Pow2Values();
    EncodeParts(segmentId, offset, 48, 64);
  }

  /** Every 64-bit word is the encoding of its own parts, so `raw` and `from_raw` lose nothing. */
  lemma DecodeRoundTrip(raw: nat)
    requires raw < U64
    ensures SegmentId(raw) < U16 && Offset(raw) < U48
    ensures Encode(SegmentId(raw), Offset(raw)) == raw
  {
    Pow2Values();
    DecodeParts(raw, 48, 64);
  }

  lemma DecodeParts(raw: nat, k: nat, n: nat)
    requires k <= n && Pow2(k) == U48 && Pow2(n) == U64 && Pow2(n - k) == U16 && raw < U64
    ensures And(raw, U48 - 1) < U48
    ensures Or(ShiftLeft(ShiftRight(raw, k) % U16, k, n), And(And(raw, U48 - 1), U48 - 1)) == raw
  {
    hide And, Or, Pow2, ShiftLeft, ShiftRight;
    var h, l := raw / U48, raw % U48;
    assert h < U16 && raw == h * U48 + l;
    AndMask(raw, k);
    AndMask(l, k);
    DivModUnique(l, U48, 0, l);
    OrHighLow(h, l, k);
    ShiftRightIs(raw, k);
    DivModUnique(h, U16, 0, h);
    ShiftLeftIs(h, k, n);
    DivModUnique(h * U48, U64, 0, h * U48);
  }

  /** Two encodings agree exactly when both parts agree. */
  lemma EncodeInjective(s1: nat, o1: nat, s2: nat, o2: nat)
    requires s1 < U16 && s2 < U16 && o1 < U48 && o2 < U48
    ensures Encode(s1, o1) == Encode(s2, o2) <==> s1 == s2 && o1 == o2
  {
    EncodeRoundTrip(s1, o1);
    EncodeRoundTrip(s2, o2);
  }

  // ----- Layout -----

  /** `(chunk_size + 7) & !7` on 64-bit words. */
  function AlignUp(chunkSize: nat): nat
    requires chunkSize + 7 < U64
  {
    assert 7 < Pow2(64) by { Pow2Values(); }
    And(chunkSize + 7, Not(7, 64))
  }

  lemma {:induction false} AndHighMask(w: nat, k: nat, n: nat)
    requires k <= n && w < Pow2(n)
    ensures Pow2(k) <= Pow2(n) && And(w, Pow2(n) - Pow2(k)) == w - w % Pow2(k)
  {
    hide And;
    Pow2Monotone(k, n);
    if k == 0 {
      AndFullMask(w, n);
    } else {
      assert Pow2(k) == 2 * Pow2(k - 1) && Pow2(n) == 2 * Pow2(n - 1);
      hide Pow2;
      AndHighMask(w / 2, k - 1, n - 1);
      AndHighMaskStep(w, Pow2(k - 1), Pow2(n - 1));
    }
  }

  lemma AndFullMask(w: nat, n: nat)
    requires w < Pow2(n)
    ensures And(w, Pow2(n) - 1) == w - w % 1
  {
    hide And, Pow2;
    AndMask(w, n);
    DivModUnique(w, Pow2(n), 0, w);
    DivModUnique(w, 1, w, 0);
  }

  lemma AndHighMaskStep(w: nat, p: nat, q: nat)
    requires 0 < p <= q && And(w / 2, q - p) == w / 2 - w / 2 % p
    ensures And(w, 2 * q - 2 * p) == w - w % (2 * p)
  {
    hide And;
    ModDouble(w, p);
    AndDoubled(w, q - p, w / 2 % p, w % (2 * p), 2 * q - 2 * p);
  }

  lemma AndDoubled(w: nat, m: nat, r: nat, r2: nat, m2: nat)
    requires And(w / 2, m) == w / 2 - r && r2 == 2 * r + w % 2 && m2 == 2 * m
    ensures And(w, m2) == w - r2
  {
    AndEvenMask(w, m);
    hide And;
  }

  lemma AndEvenMask(w: nat, m: nat)
    ensures And(w, 2 * m) == 2 * And(w / 2, m)
  {
    Half(m);
  }

  /** Rounding up gives the least multiple of 8 that is not smaller. */
  lemma AlignUpIs(chunkSize: nat)
    requires chunkSize + 7 < U64
    ensures AlignUp(chunkSize) % 8 == 0 && chunkSize <= AlignUp(chunkSize) < chunkSize + 8
  {
    hide And, Pow2;
    Pow2Values();
    AlignUpParts(chunkSize + 7, 3, 64);
  }

  lemma AlignUpParts(w: nat, k: nat, n: nat)
    requires k <= n && Pow2(k) == 8 && Pow2(n) == U64 && w < U64
    ensures And(w, Not(7, n)) == w - w % 8 && (w - w % 8) % 8 == 0
  {
    hide And, Pow2;
    AndHighMask(w, k, n);
    assert Not(7, n) == Pow2(n) - Pow2(k);
    RoundedDown(w);
  }

  lemma RoundedDown(w: nat)
    ensures (w - w % 8) % 8 == 0
  {
  }

  /** A segment's geometry as `DataSegment::create` computes it. */
  datatype Layout = Layout(chunkSize: nat, chunkCount: nat, segmentId: nat) {
    /** Sizes that `create` and the 48-bit offsets can carry. */
    predicate Fits() {
      && chunkSize > 0 && chunkSize % 8 == 0 && 0 < chunkCount && segmentId < U16
      && HEADER + Product(chunkCount, chunkSize) <= U48
    }

    function TotalSize(): nat {
      HEADER + Product(chunkCount, chunkSize)
    }

    /** The byte offset that `allocate` computes for an index. */
    function StartOf(index: nat): nat {
      HEADER + Product(index, chunkSize)
    }

    /** The offset that `allocate` returns for an index. */
    function OffsetOf(index: nat): nat {
      Encode(segmentId, StartOf(index))
    }

    /** The index that `deallocate` computes from an offset that `allocate` returned. */
    function IndexOf(raw: nat): nat {
      if chunkSize > 0 && Offset(raw) >= HEADER then Quotient(Offset(raw) - HEADER, chunkSize) else 0
    }
  }

  /** The chunk of an index lies inside the segment, after the header, 8-aligned. */
  lemma ChunkInside(l: Layout, i: nat)
    requires l.Fits() && i < l.chunkCount
    ensures HEADER <= l.StartOf(i) && l.StartOf(i) % 8 == 0
    ensures l.StartOf(i) + l.chunkSize <= l.TotalSize() <= U48
  {
    ProductStep(i, l.chunkCount, l.chunkSize);
    MultipleOf8(i, l.chunkSize);
  }

  lemma {:induction false} MultipleOf8(i: nat, m: nat)
    requires m % 8 == 0
    ensures Product(i, m) % 8 == 0
  {
    if i > 0 { MultipleOf8(i - 1, m); }
  }

  /** Chunks of different indices do not overlap. */
  lemma ChunksDisjoint(l: Layout, i: nat, j: nat)
    requires l.Fits() && i < l.chunkCount && j < l.chunkCount && i != j
    ensures l.StartOf(i) + l.chunkSize <= l.StartOf(j) || l.StartOf(j) + l.chunkSize <= l.StartOf(i)
  {
    if i < j { ProductStep(i, j, l.chunkSize); } else { ProductStep(j, i, l.chunkSize); }
  }

  /** `deallocate` recovers the index that `allocate` took, through the packing, and the offset
      names this segment; both asserts of `resolve_ptr` hold. */
  lemma IndexRoundTrip(l: Layout, i: nat)
    requires l.Fits() && i < l.chunkCount
    ensures l.IndexOf(l.OffsetOf(i)) == i && SegmentId(l.OffsetOf(i)) == l.segmentId
    ensures Offset(l.OffsetOf(i)) == l.StartOf(i) && l.OffsetOf(i) < U64
    ensures Offset(l.OffsetOf(i)) >= HEADER && Offset(l.OffsetOf(i)) + l.chunkSize <= l.TotalSize()
  {
    hide Offset, Encode, SegmentId;
    ChunkInside(l, i);
    EncodeRoundTrip(l.segmentId, l.StartOf(i));
    QuotientOfProduct(i, l.chunkSize);
  }

  /** Within a segment an offset names one chunk. */
  lemma SameIndex(l: Layout, i: nat, j: nat)
    requires l.Fits() && i < l.chunkCount && j < l.chunkCount && l.OffsetOf(i) == l.OffsetOf(j)
    ensures i == j
  {
    IndexRoundTrip(l, i);
    IndexRoundTrip(l, j);
  }

  /** Live chunks have different offsets, within a segment and across segments. */
  lemma OffsetsDistinct(l: Layout, i: nat, m: Layout, j: nat)
    requires l.Fits() && m.Fits() && i < l.chunkCount && j < m.chunkCount
    requires l.segmentId != m.segmentId || (l == m && i != j)
    ensures l.OffsetOf(i) != m.OffsetOf(j)
  {
    IndexRoundTrip(l, i);
    IndexRoundTrip(m, j);
  }
}
