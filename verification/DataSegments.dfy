/** `PoolAllocator` and `DataSegment` in their sequential form. The mapped memory is an array of
    bytes. */
module DataSegments {
  import opened Words
  import opened Results
  import opened Offsets
  import opened IndexSet
  import FL = FreeList
  import Safety = FreeListSafety

  datatype LoanError = OutOfMemory | ExceedsMaxLoans

  /** `offset` was issued for a chunk that is not free now. */
  ghost predicate IsLive(l: Layout, free: seq<nat>, offset: nat) {
    exists i: nat :: i < l.chunkCount && i !in free && offset == l.OffsetOf(i)
  }

  /** The chunk that a live offset names, and how `deallocate` finds it. */
  lemma LiveIndex(l: Layout, free: seq<nat>, offset: nat) returns (i: nat)
    requires l.Fits() && IsLive(l, free, offset)
    ensures i < l.chunkCount && i !in free && offset == l.OffsetOf(i) && SegmentId(offset) == l.segmentId
    ensures l.chunkSize > 0 && HEADER <= Offset(offset) == l.StartOf(i)
    ensures (Offset(offset) - HEADER) / l.chunkSize == l.IndexOf(offset) == i
  {
    i :| i < l.chunkCount && i !in free && offset == l.OffsetOf(i);
    IndexRoundTrip(l, i);
    hide Offset, Encode, SegmentId;
    DivisionIs(Offset(offset) - HEADER, l.chunkSize);
  }

  class PoolAllocator {
    const indexSet: UniqueIndexSet
    const layout: Layout

    ghost function Repr(): set<object> {
      {this, indexSet, indexSet.next}
    }

    ghost predicate Valid()
      reads Repr()
    {
      indexSet.Valid() && layout.Fits() && indexSet.capacity == layout.chunkCount
    }

    /** The free indices, next one first. */
    ghost function Free(): seq<nat>
      reads indexSet
    {
      indexSet.free
    }

    constructor (layout: Layout)
      requires layout.Fits() && layout.chunkCount < FL.SENTINEL
      ensures Valid() && fresh(Repr()) && this.layout == layout && Free() == Safety.InitStack(layout.chunkCount)
    {
      this.layout := layout;
      indexSet := new UniqueIndexSet(layout.chunkCount);
    }

    /** Takes a free index and returns its packed offset; fails exactly when the pool is empty. */
    method Allocate() returns (r: Result<nat, LoanError>)
      requires Valid()
      modifies indexSet`head, indexSet`borrowed, indexSet`free
      ensures Valid()
      ensures old(Free()) == [] ==> r == Err(OutOfMemory) && Free() == []
      ensures old(Free()) != [] ==> r == Ok(layout.OffsetOf(old(Free())[0])) && Free() == old(Free())[1..]
      ensures r.Ok? ==> LiveOffset(r.value)
    {
      var got := indexSet.Acquire(0);
      if got.Err? {
        return Err(OutOfMemory);
      }
      var index := got.value;
      assert index == old(indexSet.free)[0];
      assert index < layout.chunkCount && index !in indexSet.free;
      var offset := HEADER + index * layout.chunkSize;
      ProductIs(index, layout.chunkSize);
      assert IsLive(layout, indexSet.free, layout.OffsetOf(index));
      return Ok(Encode(layout.segmentId, offset));
    }

    /** `offset` was issued by this pool and not given back. */
    ghost predicate LiveOffset(offset: nat)
      reads Repr()
      requires Valid()
    {
      IsLive(layout, Free(), offset)
    }

    /** Frees exactly the index that the offset was issued for. */
    method Deallocate(offset: nat) returns (ghost index: nat)
      requires Valid() && LiveOffset(offset)
      modifies indexSet`head, indexSet`borrowed, indexSet`free, indexSet.next
      ensures Valid() && index < layout.chunkCount && index !in old(Free())
      ensures offset == layout.OffsetOf(index) && Free() == [index] + old(Free())
    {
      hide Offset, Layout.Fits, Layout.StartOf, Layout.OffsetOf, UniqueIndexSet.Valid, IsLive;
      ghost var i := LiveIndex(layout, Free(), offset);
      var local := Offset(offset) - HEADER;
      var freed := local / layout.chunkSize;
      assert freed == i;
      indexSet.Release(freed, 0);
      index := i;
    }

    method AllocatedCount() returns (n: nat)
      requires Valid()
      ensures n == layout.chunkCount - |Free()|
    {
      n := indexSet.BorrowedCount();
    }

    method Available() returns (n: nat)
      requires Valid()
      ensures n == |Free()|
    {
      n := indexSet.Available();
    }
  }

  /** `bytes` with `payload` stored from `start` on. */
  function Patch(bytes: seq<nat>, start: nat, payload: seq<nat>): seq<nat>
    requires start + |payload| <= |bytes|
  {
    bytes[..start] + payload + bytes[start + |payload|..]
  }

  lemma PatchInside(bytes: seq<nat>, start: nat, payload: seq<nat>)
    requires start + |payload| <= |bytes|
    ensures |Patch(bytes, start, payload)| == |bytes|
    ensures Patch(bytes, start, payload)[start..start + |payload|] == payload
  {
  }

  lemma PatchElsewhere(bytes: seq<nat>, start: nat, payload: seq<nat>, lo: nat, hi: nat)
    requires start + |payload| <= |bytes| && lo <= hi <= |bytes|
    requires hi <= start || start + |payload| <= lo
    ensures |Patch(bytes, start, payload)| == |bytes|
    ensures Patch(bytes, start, payload)[lo..hi] == bytes[lo..hi]
  {
  }

  /** The `n` bytes from `start` on; empty where the memory does not have them. */
  function Bytes(bytes: seq<nat>, start: nat, n: nat): seq<nat> {
    if start + n <= |bytes| then bytes[start..start + n] else []
  }

  /** A write through the offset of chunk `i` stays inside the segment, is read back there, and
      changes no other chunk. */
  lemma WriteIsolated(l: Layout, bytes: seq<nat>, i: nat, payload: seq<nat>, j: nat)
    requires l.Fits() && i < l.chunkCount && j < l.chunkCount && |bytes| == l.TotalSize()
    requires |payload| <= l.chunkSize
    ensures l.StartOf(i) + |payload| <= |bytes|
    ensures Bytes(Patch(bytes, l.StartOf(i), payload), l.StartOf(i), |payload|) == payload
    ensures j != i ==>
              Bytes(Patch(bytes, l.StartOf(i), payload), l.StartOf(j), l.chunkSize)
              == Bytes(bytes, l.StartOf(j), l.chunkSize)
  {
    hide Layout.StartOf, Layout.TotalSize, Layout.Fits, Patch;
    ChunkInside(l, i);
    PatchInside(bytes, l.StartOf(i), payload);
    if j != i {
      ChunkInside(l, j);
      ChunksDisjoint(l, i, j);
      PatchElsewhere(bytes, l.StartOf(i), payload, l.StartOf(j), l.StartOf(j) + l.chunkSize);
    }
  }

  class DataSegment {
    const shm: array<nat>
    const allocator: PoolAllocator

    ghost function Repr(): set<object> {
      {this, shm} + allocator.Repr()
    }

    ghost predicate Valid()
      reads Repr()
    {
      allocator.Valid() && shm.Length == allocator.layout.TotalSize()
      && shm as object != allocator.indexSet.next as object
    }

    ghost function Free(): seq<nat>
      reads allocator.indexSet
    {
      allocator.Free()
    }

    ghost function Geometry(): Layout {
      allocator.layout
    }

    /** `offset` was issued by this segment and not given back. */
    ghost predicate Live(offset: nat)
      reads allocator.indexSet
    {
      IsLive(Geometry(), Free(), offset)
    }

    /** Rounds the chunk size up to 8, maps and zeroes the memory, and starts with every chunk free.
        The header write is the first 8 bytes, which no chunk covers. */
    constructor (chunkSize: nat, chunkCount: nat, segmentId: nat)
      requires 0 < chunkSize && chunkSize + 7 < U64 && 0 < chunkCount < FL.SENTINEL && segmentId < U16
      requires HEADER + Product(chunkCount, AlignUp(chunkSize)) <= U48
      ensures Valid() && fresh(Repr())
      ensures Geometry() == Layout(AlignUp(chunkSize), chunkCount, segmentId)
      ensures Free() == Safety.InitStack(chunkCount)
    {
      AlignUpIs(chunkSize);
      var aligned := AlignUp(chunkSize);
      var layout := Layout(aligned, chunkCount, segmentId);
      shm := new nat[layout.TotalSize()](_ => 0);
      allocator := new PoolAllocator(layout);
    }

    method Allocate() returns (r: Result<nat, LoanError>)
      requires Valid()
      modifies allocator.indexSet`head, allocator.indexSet`borrowed, allocator.indexSet`free
      ensures Valid()
      ensures old(Free()) == [] ==> r == Err(OutOfMemory) && Free() == []
      ensures old(Free()) != [] ==> r == Ok(Geometry().OffsetOf(old(Free())[0])) && Free() == old(Free())[1..]
      ensures r.Ok? ==> Live(r.value)
    {
      r := allocator.Allocate();
    }

    method Deallocate(offset: nat) returns (ghost index: nat)
      requires Valid() && Live(offset)
      modifies allocator.indexSet`head, allocator.indexSet`borrowed, allocator.indexSet`free, allocator.indexSet.next
      ensures Valid() && index < Geometry().chunkCount && index !in old(Free())
      ensures offset == Geometry().OffsetOf(index) && Free() == [index] + old(Free())
    {
      index := allocator.Deallocate(offset);
    }

    /** Both bounds asserts hold for every live offset. */
    method ResolvePtr(offset: nat) returns (start: nat)
      requires Valid() && Live(offset)
      ensures HEADER <= start && start + Geometry().chunkSize <= shm.Length && start % 8 == 0
      ensures start == Offset(offset)
    {
      ghost var i := LiveIndex(Geometry(), Free(), offset);
      ChunkInside(Geometry(), i);
      start := Offset(offset);
      assert start >= HEADER;
      assert start + allocator.layout.chunkSize <= shm.Length;
    }

    /** Copies a payload into the mapped bytes, one at a time. */
    method StoreBytes(start: nat, payload: seq<nat>)
      requires start + |payload| <= shm.Length
      modifies shm
      ensures shm[..] == Patch(old(shm[..]), start, payload)
    {
      ghost var before := shm[..];
      for k := 0 to |payload|
        invariant shm[..] == Patch(before, start, payload[..k])
      {
        shm[start + k] := payload[k];
        assert payload[..k + 1] == payload[..k] + [payload[k]];
      }
      assert payload[..|payload|] == payload;
    }

    /** Writing through a live offset stores the payload at the chunk's bytes and nowhere else. */
    method Write(offset: nat, payload: seq<nat>)
      requires Valid() && Live(offset) && |payload| <= Geometry().chunkSize
      modifies shm
      ensures Valid() && Free() == old(Free())
      ensures Offset(offset) + |payload| <= shm.Length
      ensures shm[..] == Patch(old(shm[..]), Offset(offset), payload)
    {
      var start := ResolvePtr(offset);
      StoreBytes(start, payload);
    }

    /** Copies bytes out of the chunk of a live offset. */
    method Read(offset: nat, n: nat) returns (payload: seq<nat>)
      requires Valid() && Live(offset) && n <= Geometry().chunkSize
      ensures |payload| == n && payload == Bytes(shm[..], Offset(offset), n)
    {
      var start := ResolvePtr(offset);
      payload := [];
      for k := 0 to n
        invariant payload == shm[start..start + k]
      {
        payload := payload + [shm[start + k]];
      }
    }

    method AllocatedCount() returns (n: nat)
      requires Valid()
      ensures n == Geometry().chunkCount - |Free()|
    {
      n := allocator.AllocatedCount();
    }

    method Available() returns (n: nat)
      requires Valid()
      ensures n == |Free()|
    {
      n := allocator.Available();
    }
  }
}
