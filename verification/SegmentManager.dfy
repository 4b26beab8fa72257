/** `SegmentManager`: a growing list of data segments, in the form the program runs it. */
module SegmentManagers {
  import opened Words
  import opened Results
  import opened Offsets
  import opened DataSegments
  import opened SegmentRuns
  import FL = FreeList
  import Safety = FreeListSafety

  /** A new segment and its first chunk. */
  method CreateSegment(chunkSize: nat, perSegment: nat, segId: nat)
    returns (segment: DataSegment, r: Result<nat, LoanError>)
    requires 0 < chunkSize && chunkSize + 7 < U64 && 0 < perSegment < FL.SENTINEL && segId < U16
    requires HEADER + Product(perSegment, AlignUp(chunkSize)) <= U48
    ensures segment.Valid() && fresh(segment.Repr())
    ensures segment.Geometry() == Layout(AlignUp(chunkSize), perSegment, segId)
    ensures segment.Free() == Safety.InitStack(perSegment)[1..]
    ensures r == Ok(segment.Geometry().OffsetOf(Safety.InitStack(perSegment)[0]))
  {
    hide Layout.OffsetOf, AlignUp, DataSegment.Valid;
    segment := new DataSegment(chunkSize, perSegment, segId);
    r := segment.Allocate();
  }

  class SegmentManager {
    var segments: seq<DataSegment>
    const chunkSize: nat
    const perSegment: nat

    /** The free indices of every segment. */
    ghost var pools: seq<seq<nat>>

    /** The objects of all segments. */
    ghost var Repr: set<object>

    ghost predicate Geometric() {
      && 0 < chunkSize && chunkSize + 7 < U64 && 0 < perSegment < FL.SENTINEL
      && HEADER + Product(perSegment, AlignUp(chunkSize)) <= U48
    }

    ghost function LayoutOf(k: nat): Layout
      requires Geometric()
    {
      Layout(AlignUp(chunkSize), perSegment, k % U16)
    }

    /** Segment `k` has the right geometry and the recorded free indices. */
    ghost predicate SegmentOk(k: nat)
      requires k < |segments| && |pools| == |segments|
      reads this, segments[k].Repr()
    {
      && segments[k].Valid() && Geometric() && segments[k].Geometry() == LayoutOf(k)
      && segments[k].Free() == pools[k]
    }

    /** The segments share no objects. */
    ghost predicate Apart()
      reads this
    {
      && this !in Repr
      && (forall k :: 0 <= k < |segments| ==> segments[k].Repr() <= Repr)
      && forall j, k :: 0 <= j < k < |segments| ==> segments[j].Repr() !! segments[k].Repr()
    }

    ghost predicate Valid()
      reads this, Repr
    {
      && Geometric() && 1 <= |segments| == |pools| && Apart()
      && forall k :: 0 <= k < |segments| ==> SegmentOk(k)
    }

    /** The manager as a value. */
    ghost function View(): Manager
      requires Geometric()
      reads this
    {
      Manager(AlignUp(chunkSize), perSegment, pools)
    }

    constructor (chunkSize: nat, perSegment: nat)
      requires 0 < chunkSize && chunkSize + 7 < U64 && 0 < perSegment < FL.SENTINEL
      requires HEADER + Product(perSegment, AlignUp(chunkSize)) <= U48
      ensures Valid() && fresh(Repr) && this.chunkSize == chunkSize && this.perSegment == perSegment
      ensures View() == Created(AlignUp(chunkSize), perSegment)
    {
      hide Encode, Offset, SegmentId, AlignUp;
      var initial := new DataSegment(chunkSize, perSegment, 0);
      segments := [initial];
      this.chunkSize := chunkSize;
      this.perSegment := perSegment;
      pools := [Safety.InitStack(perSegment)];
      Repr := initial.Repr();
    }

    /** Tries one segment. */
    method TryAllocate(k: nat) returns (r: Result<nat, LoanError>)
      requires Valid() && k < |segments|
      modifies this`pools, Repr
      ensures Valid() && segments == old(segments) && Repr == old(Repr)
      ensures old(pools[k]) == [] ==> r == Err(OutOfMemory) && pools == old(pools)
      ensures old(pools[k]) != [] ==>
                r == Ok(LayoutOf(k).OffsetOf(old(pools[k])[0])) && pools == old(pools)[k := old(pools[k])[1..]]
    {
      hide Layout.OffsetOf, AlignUp, DataSegment.Valid;
      assert SegmentOk(k);
      var segment := segments[k];
      r := segment.Allocate();
      if r.Ok? {
        pools := pools[k := pools[k][1..]];
      }
      forall j | 0 <= j < |segments| ensures SegmentOk(j) {
        assert old(SegmentOk(j));
        if j < k { assert segments[j].Repr() !! segment.Repr(); }
        if j > k { assert segments[j].Repr() !! segment.Repr(); }
      }
    }

    /** The caller holds `offset`, as far as the segment it names knows. */
    ghost predicate Issued(offset: nat)
      requires Geometric()
      reads this
    {
      var k := SegmentId(offset);
      k < |pools| ==> IsLive(LayoutOf(k), pools[k], offset)
    }

    /** Creates a segment with the next id. */
    method Grow(segment: DataSegment)
      requires Valid() && segment.Valid() && segment.Repr() !! Repr + {this}
      requires segment.Geometry() == LayoutOf(|segments|)
      modifies this`segments, this`pools, this`Repr
      ensures Valid() && segments == old(segments) + [segment] && pools == old(pools) + [segment.Free()]
      ensures Repr == old(Repr) + segment.Repr()
    {
      hide Layout.OffsetOf, AlignUp, DataSegment.Valid, DataSegment.Repr;
      ghost var n, repr := |segments|, Repr;
      assert forall j :: 0 <= j < n ==> SegmentOk(j);
      segments := segments + [segment];
      pools := pools + [segment.Free()];
      Repr := Repr + segment.Repr();
      forall j | 0 <= j < n ensures SegmentOk(j) && segments[j].Repr() <= repr {
        assert old(SegmentOk(j));
      }
      assert SegmentOk(n);
    }

    /** Every chunk is out: adds a segment, unless the platform refuses it or its name is taken. */
    method Expand(canCreate: bool) returns (r: Result<nat, LoanError>)
      requires Valid() && AllFull(pools)
      modifies this`segments, this`pools, this`Repr
      ensures Valid() && fresh(Repr - old(Repr))
      ensures r == Allocated(old(View()), canCreate).0 && View() == Allocated(old(View()), canCreate).1
      ensures old(segments) <= segments
    {
      hide Layout.OffsetOf, AlignUp, DataSegment.Valid, DataSegment.Repr, Apart, SegmentOk;
      if !canCreate || NameTaken(|segments|) {
        return Err(OutOfMemory);
      }
      var segId := |segments| % U16;
      var segment, got := CreateSegment(chunkSize, perSegment, segId);
      if got.Ok? {
        Grow(segment);
      }
      r := got;
    }

    /** Takes a chunk of the first segment that has one, and expands when none has. */
    method Allocate(canCreate: bool) returns (r: Result<nat, LoanError>)
      requires Valid()
      modifies this`segments, this`pools, this`Repr, Repr
      ensures Valid() && fresh(Repr - old(Repr))
      ensures r == Allocated(old(View()), canCreate).0 && View() == Allocated(old(View()), canCreate).1
      ensures old(segments) <= segments
    {
      hide Layout.OffsetOf, AlignUp, DataSegment.Valid, DataSegment.Repr, Apart, SegmentOk;
      var k := 0;
      while k < |segments|
        invariant k <= |segments| && Valid() && segments == old(segments) && pools == old(pools)
        invariant Repr == old(Repr)
        invariant forall j :: 0 <= j < k ==> pools[j] == []
      {
        r := TryAllocate(k);
        if r.Ok? {
          return;
        }
        k := k + 1;
      }
      r := Expand(canCreate);
    }

    /** Gives a chunk back to the segment its offset names; an offset with an unknown segment id is
        ignored. */
    method Deallocate(offset: nat)
      requires Valid()
      requires Issued(offset)
      modifies this`pools, Repr
      ensures Valid() && segments == old(segments) && View() == Freed(old(View()), offset)
    {
      hide Layout.OffsetOf, AlignUp, DataSegment.Valid, Offset, SegmentId, IsLive;
      var segId := SegmentId(offset);
      if segId < |segments| {
        assert SegmentOk(segId);
        LayoutFits(chunkSize, perSegment, segId % U16);
        var segment := segments[segId];
        ghost var i := LiveIndex(LayoutOf(segId), pools[segId], offset);
        ghost var index := segment.Deallocate(offset);
        SameIndex(LayoutOf(segId), i, index);
        pools := pools[segId := [i] + pools[segId]];
        forall j | 0 <= j < |segments| ensures SegmentOk(j) {
          assert old(SegmentOk(j));
          if j < segId { assert segments[j].Repr() !! segment.Repr(); }
          if j > segId { assert segments[j].Repr() !! segment.Repr(); }
        }
      }
    }

    method SegmentAvailable(k: nat) returns (n: nat)
      requires Valid() && k < |segments|
      ensures n == |pools[k]|
    {
      assert SegmentOk(k);
      n := segments[k].Available();
    }

    method SegmentAllocated(k: nat) returns (n: nat)
      requires Valid() && k < |segments|
      ensures n == perSegment - |pools[k]|
    {
      assert SegmentOk(k);
      n := segments[k].AllocatedCount();
    }

    /** Sums 32-bit counts, which wrap when overflow checks are off. */
    method TotalAvailable() returns (total: nat)
      requires Valid()
      ensures total == FreeCount(pools) % U32
    {
      hide SegmentOk, Apart, Geometric;
      total := 0;
      for k := 0 to |segments|
        invariant Valid() && total == FreeCount(pools[..k]) % U32
      {
        var n := SegmentAvailable(k);
        ModAdd(FreeCount(pools[..k]), n, U32);
        assert pools[..k + 1][..k] == pools[..k];
        total := (total + n) % U32;
      }
      assert pools[..|segments|] == pools;
    }

    method TotalAllocated() returns (total: nat)
      requires Valid()
      ensures Used(pools, perSegment) >= 0 && total == Used(pools, perSegment) % U32
    {
      hide SegmentOk, Apart, Geometric;
      total := 0;
      for k := 0 to |segments|
        invariant Valid() && Used(pools[..k], perSegment) >= 0 && total == Used(pools[..k], perSegment) % U32
      {
        var n := SegmentAllocated(k);
        ModAdd(Used(pools[..k], perSegment), n, U32);
        assert pools[..k + 1][..k] == pools[..k];
        total := (total + n) % U32;
      }
      assert pools[..|segments|] == pools;
    }
  }

  lemma LayoutFits(chunkSize: nat, perSegment: nat, segId: nat)
    requires 0 < chunkSize && chunkSize + 7 < U64 && 0 < perSegment && segId < U16
    requires HEADER + Product(perSegment, AlignUp(chunkSize)) <= U48
    ensures Layout(AlignUp(chunkSize), perSegment, segId).Fits()
  {
    AlignUpIs(chunkSize);
    hide AlignUp;
  }

  lemma ModAdd(x: nat, n: nat, m: nat)
    requires m > 0
    ensures (x % m + n) % m == (x + n) % m
  {
    var q, r := x / m, x % m;
    var q2, r2 := (r + n) / m, (r + n) % m;
    assert (q + q2) * m == q * m + q2 * m;
    assert x + n == (q + q2) * m + r2;
    DivModUnique(x + n, m, q + q2, r2);
  }
}
