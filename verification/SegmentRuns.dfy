/** What `SegmentManager` does, on values, over every sequence of allocations and deallocations. */
module SegmentRuns {
  import opened Words
  import opened Results
  import opened Offsets
  import opened DataSegments
  import opened FreeListSafety
  import IndexSet
  import FL = FreeList

  const MAX_IDS: nat := U16

  /** The number in the name `{prefix}_seg_{id}` of the k-th segment. */
  function NameOf(k: nat): nat {
    k % U16
  }

  /** The name of the next segment belongs to an earlier one. Segments are never dropped, so that
      name still exists, and exclusive creation of shared memory refuses it. */
  predicate NameTaken(segments: nat) {
    exists j :: 0 <= j < segments && NameOf(j) == NameOf(segments)
  }

  lemma NameTakenExactly(segments: nat)
    ensures NameTaken(segments) <==> segments >= MAX_IDS
  {
    if segments >= MAX_IDS {
      assert NameOf(segments - MAX_IDS) == NameOf(segments) by {
        var q, r := segments / U16, segments % U16;
        DivModUnique(segments - U16, U16, q - 1, r);
      }
    }
  }

  /** `pools[k]`: the free indices of the k-th segment, next one first. */
  datatype Manager = Manager(chunkSize: nat, perSegment: nat, pools: seq<seq<nat>>) {
    /** The k-th segment gets the id `k as u16`. */
    function LayoutOf(k: nat): Layout {
      Layout(chunkSize, perSegment, k % U16)
    }

    function OffsetOf(k: nat, i: nat): nat {
      LayoutOf(k).OffsetOf(i)
    }

    predicate Fits() {
      LayoutOf(0).Fits() && perSegment < FL.SENTINEL
    }
  }

  function Created(chunkSize: nat, perSegment: nat): Manager {
    Manager(chunkSize, perSegment, [InitStack(perSegment)])
  }

  /** The first segment from `k` on that has a free chunk. */
  function FirstFit(pools: seq<seq<nat>>, k: nat): (f: nat)
    requires k <= |pools|
    ensures k <= f <= |pools| && (f < |pools| ==> pools[f] != [])
    ensures forall j :: k <= j < f ==> pools[j] == []
    decreases |pools| - k
  {
    if k == |pools| || pools[k] != [] then k else FirstFit(pools, k + 1)
  }

  /** `allocate`; `canCreate` says whether the platform grants a new segment whose name is free. */
  function Allocated(m: Manager, canCreate: bool): (Result<nat, LoanError>, Manager) {
    var f := FirstFit(m.pools, 0);
    if f < |m.pools| then (Ok(m.OffsetOf(f, m.pools[f][0])), m.(pools := m.pools[f := m.pools[f][1..]]))
    else if canCreate && !NameTaken(|m.pools|) && m.perSegment > 0 then
      var fresh0 := InitStack(m.perSegment);
      (Ok(m.OffsetOf(f, fresh0[0])), m.(pools := m.pools + [fresh0[1..]]))
    else (Err(OutOfMemory), m)
  }

  /** `deallocate`: the offset's segment id names the segment; an unknown id is ignored. */
  function Freed(m: Manager, offset: nat): Manager {
    var k := SegmentId(offset);
    if k < |m.pools| then m.(pools := m.pools[k := [IndexIn(m, offset)] + m.pools[k]]) else m
  }

  /** The index that `deallocate` computes from an offset the manager issued. */
  function IndexIn(m: Manager, offset: nat): nat {
    m.LayoutOf(0).IndexOf(offset)
  }

  // ----- Runs -----

  /** `live`: offsets handed out and not yet given back. `peak`: the most that were ever live. */
  datatype State = State(m: Manager, live: set<nat>, peak: nat)

  datatype Action = Alloc(canCreate: bool) | Dealloc(offset: nat)

  function Init(chunkSize: nat, perSegment: nat): State {
    State(Created(chunkSize, perSegment), {}, 0)
  }

  predicate Enabled(s: State, a: Action) {
    a.Dealloc? ==> a.offset in s.live
  }

  function Do(s: State, a: Action): State
    requires Enabled(s, a)
  {
    match a
    case Alloc(canCreate) =>
      var (r, m) := Allocated(s.m, canCreate);
      if r.Err? then s.(m := m)
      else
        var live := s.live + {r.value};
        State(m, live, Max(s.peak, |live|))
    case Dealloc(o) => s.(m := Freed(s.m, o), live := s.live - {o})
  }

  predicate Runs(s: State, acts: seq<Action>, s': State)
    decreases acts
  {
    if acts == [] then s' == s
    else Enabled(s, acts[0]) && Runs(Do(s, acts[0]), acts[1..], s')
  }

  // ----- Invariant -----

  predicate PoolOk(pool: seq<nat>, n: nat) {
    Distinct(pool) && |pool| <= n && forall k :: 0 <= k < |pool| ==> pool[k] < n
  }

  /** The chunk `(k, i)` is out. */
  predicate Out(m: Manager, k: nat, i: nat) {
    k < |m.pools| && i < m.perSegment && i !in m.pools[k]
  }

  /** How many chunks are out. */
  function Used(pools: seq<seq<nat>>, n: nat): int {
    if pools == [] then 0 else Used(pools[..|pools| - 1], n) + n - |pools[|pools| - 1]|
  }

  /** How many chunks are free. */
  function FreeCount(pools: seq<seq<nat>>): nat {
    if pools == [] then 0 else FreeCount(pools[..|pools| - 1]) + |pools[|pools| - 1]|
  }

  /** The live offsets are exactly the offsets of the chunks that are out, one for each. */
  ghost predicate Tracks(s: State) {
    && (forall o <- s.live ::
          Out(s.m, SegmentId(o), IndexIn(s.m, o)) && o == s.m.OffsetOf(SegmentId(o), IndexIn(s.m, o)))
    && (forall k: nat, i: nat :: Out(s.m, k, i) ==> s.m.OffsetOf(k, i) in s.live)
    && |s.live| == Used(s.m.pools, s.m.perSegment)
  }

  predicate Sized(m: Manager) {
    && m.Fits() && 1 <= |m.pools| <= MAX_IDS
    && forall k :: 0 <= k < |m.pools| ==> PoolOk(m.pools[k], m.perSegment)
  }

  ghost predicate Inv(s: State) {
    Sized(s.m) && Tracks(s)
  }

  /** An offset names one chunk. */
  lemma OffsetParts(m: Manager, k: nat, i: nat)
    requires m.Fits() && k < MAX_IDS && i < m.perSegment
    ensures m.chunkSize > 0 && Offset(m.OffsetOf(k, i)) >= HEADER
    ensures SegmentId(m.OffsetOf(k, i)) == k && IndexIn(m, m.OffsetOf(k, i)) == i
  {
    hide Offset, SegmentId, Encode;
    assert k % U16 == k;
    IndexRoundTrip(m.LayoutOf(k), i);
    hide Quotient;
  }

  // ----- Counting -----

  lemma {:induction false} UsedUpdate(pools: seq<seq<nat>>, n: nat, k: nat, p: seq<nat>)
    requires k < |pools|
    ensures Used(pools[k := p], n) == Used(pools, n) + |pools[k]| - |p|
  {
    var last := |pools| - 1;
    if k == last {
      assert pools[k := p][..last] == pools[..last];
    } else {
      assert pools[k := p][..last] == pools[..last][k := p];
      UsedUpdate(pools[..last], n, k, p);
    }
  }

  lemma UsedAppend(pools: seq<seq<nat>>, n: nat, p: seq<nat>)
    ensures Used(pools + [p], n) == Used(pools, n) + n - |p|
  {
    assert (pools + [p])[..|pools|] == pools;
  }

  predicate AllFull(pools: seq<seq<nat>>) {
    forall k :: 0 <= k < |pools| ==> pools[k] == []
  }

  /** The chunks that `segments` segments have. */
  function Capacity(segments: nat, perSegment: nat): nat {
    Product(segments, perSegment)
  }

  lemma CapacitySucc(a: nat, n: nat)
    ensures Capacity(a + 1, n) == Capacity(a, n) + n && Capacity(0, n) == 0 && Capacity(1, n) == n
  {
  }

  /** All chunks are out exactly when every pool is empty. */
  lemma {:induction false} UsedBounds(pools: seq<seq<nat>>, n: nat)
    requires forall k :: 0 <= k < |pools| ==> |pools[k]| <= n
    ensures 0 <= Used(pools, n) <= Capacity(|pools|, n)
    ensures Used(pools, n) == Capacity(|pools|, n) <==> AllFull(pools)
  {
    hide Capacity;
    CapacitySucc(0, n);
    if pools != [] {
      var last := |pools| - 1;
      UsedBounds(pools[..last], n);
      CapacitySucc(last, n);
      if AllFull(pools) {
        assert AllFull(pools[..last]);
      } else if pools[last] == [] {
        assert !AllFull(pools[..last]);
      }
    }
  }

  /** Available and allocated chunks add up to all chunks. */
  lemma {:induction false} TotalsAddUp(pools: seq<seq<nat>>, n: nat)
    ensures FreeCount(pools) + Used(pools, n) == Capacity(|pools|, n)
  {
    hide Capacity;
    CapacitySucc(0, n);
    if pools != [] {
      TotalsAddUp(pools[..|pools| - 1], n);
      CapacitySucc(|pools| - 1, n);
    }
  }

  // ----- One step -----

  lemma InitHolds(chunkSize: nat, perSegment: nat)
    requires Created(chunkSize, perSegment).Fits()
    ensures Inv(Init(chunkSize, perSegment))
  {
    UsedAppend([], perSegment, InitStack(perSegment));
    var s := Init(chunkSize, perSegment);
    assert s.m.pools == [] + [InitStack(perSegment)];
    forall k: nat, i: nat ensures !Out(s.m, k, i) {
      if k == 0 && i < perSegment { assert InitStack(perSegment)[i] == i; }
    }
  }

  lemma TailOk(pool: seq<nat>, n: nat)
    requires pool != [] && PoolOk(pool, n)
    ensures PoolOk(pool[1..], n) && pool[0] < n
    ensures forall i: nat :: i !in pool[1..] <==> i !in pool || i == pool[0]
  {
    assert pool == [pool[0]] + pool[1..];
    assert forall k :: 1 <= k < |pool| ==> pool[k] != pool[0];
  }

  lemma FreshOk(n: nat)
    requires n > 0
    ensures InitStack(n)[0] == 0 && PoolOk(InitStack(n)[1..], n) && |InitStack(n)[1..]| == n - 1
    ensures forall i: nat :: i < n && i !in InitStack(n)[1..] <==> i == 0
  {
    var rest := InitStack(n)[1..];
    forall i: nat | 0 < i < n ensures i in rest { assert rest[i - 1] == i; }
  }

  lemma SameOffsets(m: Manager, m2: Manager)
    requires m.chunkSize == m2.chunkSize && m.perSegment == m2.perSegment
    ensures forall k: nat, i: nat :: m2.OffsetOf(k, i) == m.OffsetOf(k, i)
    ensures forall o: nat :: IndexIn(m2, o) == IndexIn(m, o)
  {
    hide Offset, Encode;
  }

  /** A chunk becomes live. */
  lemma TrackMore(s: State, m: Manager, k: nat, i: nat, peak: nat)
    requires Inv(s) && Sized(m) && m.chunkSize == s.m.chunkSize && m.perSegment == s.m.perSegment
    requires k < |m.pools| && i < m.perSegment && !Out(s.m, k, i)
    requires forall k2: nat, i2: nat :: Out(m, k2, i2) <==> Out(s.m, k2, i2) || (k2 == k && i2 == i)
    requires Used(m.pools, m.perSegment) == Used(s.m.pools, m.perSegment) + 1
    ensures m.OffsetOf(k, i) !in s.live && Inv(State(m, s.live + {m.OffsetOf(k, i)}, peak))
  {
    hide Out, Offset, SegmentId, Manager.OffsetOf, Manager.LayoutOf, Manager.Fits, Used, PoolOk;
    OffsetParts(m, k, i);
    SameOffsets(s.m, m);
    var o := m.OffsetOf(k, i);
    var s' := State(m, s.live + {o}, peak);
    forall k2: nat, i2: nat | Out(m, k2, i2) ensures m.OffsetOf(k2, i2) in s'.live {
      assert m.OffsetOf(k2, i2) == s.m.OffsetOf(k2, i2);
    }
    forall o2 <- s'.live
      ensures Out(m, SegmentId(o2), IndexIn(m, o2)) && o2 == m.OffsetOf(SegmentId(o2), IndexIn(m, o2))
    {
      if o2 != o { assert IndexIn(m, o2) == IndexIn(s.m, o2); }
    }
  }

  /** A chunk stops being live. */
  lemma TrackLess(s: State, m: Manager, k: nat, i: nat)
    requires Inv(s) && Sized(m) && m.chunkSize == s.m.chunkSize && m.perSegment == s.m.perSegment
    requires k < |m.pools| && i < m.perSegment && Out(s.m, k, i)
    requires forall k2: nat, i2: nat :: Out(m, k2, i2) <==> Out(s.m, k2, i2) && !(k2 == k && i2 == i)
    requires Used(m.pools, m.perSegment) == Used(s.m.pools, m.perSegment) - 1
    ensures m.OffsetOf(k, i) in s.live && Inv(State(m, s.live - {m.OffsetOf(k, i)}, s.peak))
  {
    hide Offset, SegmentId, Manager.OffsetOf, Manager.LayoutOf, Manager.Fits, Used, PoolOk;
    OffsetParts(m, k, i);
    SameOffsets(s.m, m);
    hide Out;
    var o := m.OffsetOf(k, i);
    var s' := State(m, s.live - {o}, s.peak);
    forall k2: nat, i2: nat | Out(m, k2, i2) ensures m.OffsetOf(k2, i2) in s'.live {
      OutInRange(m, k2, i2);
      OffsetParts(m, k2, i2);
    }
    forall o2 <- s'.live
      ensures Out(m, SegmentId(o2), IndexIn(m, o2)) && o2 == m.OffsetOf(SegmentId(o2), IndexIn(m, o2))
    {
      assert IndexIn(m, o2) == IndexIn(s.m, o2);
    }
  }

  lemma OutInRange(m: Manager, k: nat, i: nat)
    requires Out(m, k, i)
    ensures k < |m.pools| && i < m.perSegment
  {
  }

  /** The platform grants a new segment. */
  predicate Grants(m: Manager, canCreate: bool) {
    canCreate && |m.pools| < MAX_IDS
  }

  /** What one allocation does: it takes a chunk that was not out, or creates a segment when every
      chunk is out, or fails. */
  lemma AllocTakes(m: Manager, canCreate: bool) returns (k: nat, i: nat)
    requires Sized(m)
    ensures var (r, m') := Allocated(m, canCreate);
            && (r.Err? <==> AllFull(m.pools) && !Grants(m, canCreate))
            && (r.Err? ==> m' == m)
            && |m'.pools| == |m.pools| + (if AllFull(m.pools) && Grants(m, canCreate) then 1 else 0)
            && m'.chunkSize == m.chunkSize && m'.perSegment == m.perSegment
            && (r.Ok? ==>
                  && k < |m'.pools| && i < m.perSegment && r.value == m.OffsetOf(k, i) && !Out(m, k, i)
                  && (k == |m.pools| <==> AllFull(m.pools)) && (k == |m.pools| ==> i == 0)
                  && Used(m'.pools, m.perSegment) == Used(m.pools, m.perSegment) + 1
                  && (forall j :: 0 <= j < |m'.pools| ==> PoolOk(m'.pools[j], m.perSegment))
                  && forall k2: nat, i2: nat :: Out(m', k2, i2) <==> Out(m, k2, i2) || (k2 == k && i2 == i))
  {
    assert m.perSegment > 0;
    NameTakenExactly(|m.pools|);
    hide NameTaken, Manager.OffsetOf, Manager.LayoutOf, Used, PoolOk;
    k, i := FirstFit(m.pools, 0), 0;
    if k < |m.pools| {
      i := m.pools[k][0];
      TailOk(m.pools[k], m.perSegment);
      UsedUpdate(m.pools, m.perSegment, k, m.pools[k][1..]);
    } else if Grants(m, canCreate) {
      FreshOk(m.perSegment);
      UsedAppend(m.pools, m.perSegment, InitStack(m.perSegment)[1..]);
    }
  }

  lemma AllocStep(s: State, canCreate: bool)
    requires Inv(s)
    ensures Inv(Do(s, Alloc(canCreate)))
    ensures Allocated(s.m, canCreate).0.Ok? ==> Allocated(s.m, canCreate).0.value !in s.live
  {
    var k, i := AllocTakes(s.m, canCreate);
    hide Allocated, Out, Used, PoolOk, Tracks, Manager.OffsetOf, Manager.Fits, AllFull;
    var (r, m) := Allocated(s.m, canCreate);
    if r.Ok? {
      SameOffsets(s.m, m);
      TrackMore(s, m, k, i, Max(s.peak, |s.live + {r.value}|));
    }
  }

  /** `deallocate` reaches the segment that issued the offset and frees the index it was issued
      for. */
  lemma DeallocRoutes(s: State, k: nat, i: nat)
    requires Inv(s) && Out(s.m, k, i)
    ensures s.m.OffsetOf(k, i) in s.live && Enabled(s, Dealloc(s.m.OffsetOf(k, i)))
    ensures Freed(s.m, s.m.OffsetOf(k, i)) == s.m.(pools := s.m.pools[k := [i] + s.m.pools[k]])
  {
    hide Offset, SegmentId, Manager.OffsetOf, Used, PoolOk, Manager.Fits;
    OffsetParts(s.m, k, i);
  }

  lemma PushOk(pool: seq<nat>, n: nat, i: nat)
    requires PoolOk(pool, n) && i < n && i !in pool
    ensures PoolOk([i] + pool, n)
    ensures forall j: nat :: j !in [i] + pool <==> j !in pool && j != i
  {
    IndexSet.FreeFits(pool, n, i);
  }

  lemma DeallocStep(s: State, o: nat)
    requires Inv(s) && Enabled(s, Dealloc(o))
    ensures Inv(Do(s, Dealloc(o))) && |Do(s, Dealloc(o)).m.pools| == |s.m.pools|
    ensures Do(s, Dealloc(o)).m.perSegment == s.m.perSegment
  {
    hide Offset, SegmentId, Manager.OffsetOf, Used, PoolOk, Manager.Fits;
    var k, i := SegmentId(o), IndexIn(s.m, o);
    assert Out(s.m, k, i) && o == s.m.OffsetOf(k, i);
    DeallocRoutes(s, k, i);
    hide Freed, IndexIn, Tracks;
    PushOk(s.m.pools[k], s.m.perSegment, i);
    UsedUpdate(s.m.pools, s.m.perSegment, k, [i] + s.m.pools[k]);
    var m := s.m.(pools := s.m.pools[k := [i] + s.m.pools[k]]);
    SameOffsets(s.m, m);
    SameFits(s.m, m);
    TrackLess(s, m, k, i);
  }

  lemma SameFits(m: Manager, m2: Manager)
    requires m.chunkSize == m2.chunkSize && m.perSegment == m2.perSegment && m.Fits()
    ensures m2.Fits()
  {
  }

  // ----- Every run -----

  /** A segment is added only when the chunks of all earlier ones are out at once. */
  predicate Grown(s: State) {
    && |s.live| <= s.peak <= Capacity(|s.m.pools|, s.m.perSegment)
    && (|s.m.pools| <= 1 || Capacity(|s.m.pools| - 1, s.m.perSegment) < s.peak)
  }

  lemma InitGrown(chunkSize: nat, perSegment: nat)
    ensures Grown(Init(chunkSize, perSegment))
  {
  }

  lemma AllPoolsBounded(m: Manager)
    requires Sized(m)
    ensures forall k :: 0 <= k < |m.pools| ==> |m.pools[k]| <= m.perSegment
  {
  }

  lemma LiveIsUsed(s: State)
    requires Inv(s)
    ensures |s.live| == Used(s.m.pools, s.m.perSegment) <= Capacity(|s.m.pools|, s.m.perSegment)
    ensures |s.live| == Capacity(|s.m.pools|, s.m.perSegment) <==> AllFull(s.m.pools)
  {
    hide Out, Manager.OffsetOf, Offset, SegmentId, Used, Capacity, AllFull;
    AllPoolsBounded(s.m);
    UsedBounds(s.m.pools, s.m.perSegment);
  }

  lemma AllocGrown(s: State, canCreate: bool)
    requires Inv(s) && Grown(s)
    ensures Grown(Do(s, Alloc(canCreate)))
  {
    hide Allocated, Used, AllFull, Out, Tracks, Manager.OffsetOf, Capacity, PoolOk, Offset, SegmentId;
    AllocStep(s, canCreate);
    var k, i := AllocTakes(s.m, canCreate);
    LiveIsUsed(s);
    CapacitySucc(|s.m.pools|, s.m.perSegment);
  }

  lemma DeallocGrown(s: State, o: nat)
    requires Inv(s) && Grown(s) && Enabled(s, Dealloc(o))
    ensures Grown(Do(s, Dealloc(o)))
  {
    hide Inv, Freed, Capacity, Offset, SegmentId, Used, Allocated, Manager.OffsetOf;
    DeallocStep(s, o);
    var s' := Do(s, Dealloc(o));
    assert s'.live == s.live - {o} && s'.peak == s.peak;
  }

  lemma InvStep(s: State, a: Action)
    requires Inv(s) && Grown(s) && Enabled(s, a)
    ensures Inv(Do(s, a)) && Grown(Do(s, a))
    ensures Do(s, a).m.chunkSize == s.m.chunkSize && Do(s, a).m.perSegment == s.m.perSegment
  {
    hide Inv, Grown, NameTaken, FirstFit, Offset, SegmentId, Manager.OffsetOf;
    match a {
      case Alloc(canCreate) => AllocStep(s, canCreate); AllocGrown(s, canCreate);
      case Dealloc(o) => DeallocStep(s, o); DeallocGrown(s, o);
    }
  }

  lemma {:induction false} RunInv(s: State, acts: seq<Action>, s': State)
    requires Inv(s) && Grown(s) && Runs(s, acts, s')
    ensures Inv(s') && Grown(s') && s'.m.chunkSize == s.m.chunkSize && s'.m.perSegment == s.m.perSegment
    decreases acts
  {
    hide Inv, Grown, Do, Enabled;
    if acts != [] {
      InvStep(s, acts[0]);
      RunInv(Do(s, acts[0]), acts[1..], s');
    }
  }

  function CeilDiv(a: nat, b: nat): nat
    requires b > 0
  {
    Quotient(a + b - 1, b)
  }

  lemma CeilDivIs(a: nat, b: nat, q: nat)
    requires b > 0 && q > 0 && Capacity(q - 1, b) < a <= Capacity(q, b)
    ensures CeilDiv(a, b) == q
  {
    CapacitySucc(q - 1, b);
    var r := a - Capacity(q - 1, b) - 1;
    ProductIs(q, b);
    DivisionIs(a + b - 1, b);
    DivModUnique(a + b - 1, b, q, r);
  }

  /** Over every run there are at most 65536 segments; live chunks have pairwise different offsets,
      one for each chunk that is out; and the number of segments is exactly what the peak demand
      needs, whether or not some creations were refused. */
  lemma SegmentsFollowPeak(chunkSize: nat, perSegment: nat, acts: seq<Action>, s: State)
    requires Created(chunkSize, perSegment).Fits() && Runs(Init(chunkSize, perSegment), acts, s)
    ensures perSegment > 0 && |s.m.pools| == Max(1, CeilDiv(s.peak, perSegment)) <= MAX_IDS
    ensures |s.live| == Used(s.m.pools, perSegment) <= s.peak
    ensures forall k: nat, i: nat :: Out(s.m, k, i) ==> s.m.OffsetOf(k, i) in s.live
    ensures forall o <- s.live ::
              Out(s.m, SegmentId(o), IndexIn(s.m, o)) && o == s.m.OffsetOf(SegmentId(o), IndexIn(s.m, o))
  {
    InitHolds(chunkSize, perSegment);
    InitGrown(chunkSize, perSegment);
    RunInv(Init(chunkSize, perSegment), acts, s);
    var n := |s.m.pools|;
    hide Out, Used, PoolOk, Offset, SegmentId, IndexIn, Manager.OffsetOf, CeilDiv, Capacity;
    if n > 1 {
      CeilDivIs(s.peak, perSegment, n);
    } else {
      CapacitySucc(0, perSegment);
      CeilDivZeroOrOne(s.peak, perSegment);
    }
  }

  lemma CeilDivZeroOrOne(a: nat, b: nat)
    requires b > 0 && a <= b
    ensures CeilDiv(a, b) <= 1
  {
    if a == 0 {
      DivisionIs(b - 1, b);
      DivModUnique(b - 1, b, 0, b - 1);
    } else {
      CapacitySucc(0, b);
      CeilDivIs(a, b, 1);
    }
  }

  /** After every run: an allocation never hands out a live offset, and it fails exactly when every
      chunk is out and the platform refuses a segment or 65536 of them exist. */
  lemma NeverLiveTwice(chunkSize: nat, perSegment: nat, acts: seq<Action>, s: State, canCreate: bool)
    requires Created(chunkSize, perSegment).Fits() && Runs(Init(chunkSize, perSegment), acts, s)
    ensures var r := Allocated(s.m, canCreate).0;
            && (r.Ok? ==> r.value !in s.live)
            && (r.Err? <==> |s.live| == Capacity(|s.m.pools|, perSegment) && (!canCreate || |s.m.pools| == MAX_IDS))
  {
    InitHolds(chunkSize, perSegment);
    InitGrown(chunkSize, perSegment);
    RunInv(Init(chunkSize, perSegment), acts, s);
    hide Allocated, Out, Used, PoolOk, Tracks, Manager.OffsetOf, Capacity;
    AllocStep(s, canCreate);
    var k, i := AllocTakes(s.m, canCreate);
    LiveIsUsed(s);
  }

  /** Allocating without giving back. */
  lemma {:induction false} AllocMany(chunkSize: nat, perSegment: nat, j: nat) returns (acts: seq<Action>, s: State)
    requires Created(chunkSize, perSegment).Fits() && j <= Capacity(MAX_IDS, perSegment)
    ensures Runs(Init(chunkSize, perSegment), acts, s) && Inv(s) && Grown(s)
    ensures |s.live| == s.peak == j && s.m.perSegment == perSegment && |acts| == j
  {
    if j == 0 {
      acts, s := [], Init(chunkSize, perSegment);
      InitHolds(chunkSize, perSegment);
      InitGrown(chunkSize, perSegment);
    } else {
      acts, s := AllocMany(chunkSize, perSegment, j - 1);
      var before := s;
      AllocWithin(before, j);
      s := Do(before, Alloc(true));
      RunExtend(Init(chunkSize, perSegment), acts, before, Alloc(true));
      acts := acts + [Alloc(true)];
    }
  }

  lemma AllocWithin(s: State, j: nat)
    requires Inv(s) && Grown(s) && |s.live| == s.peak == j - 1 && 1 <= j <= Capacity(MAX_IDS, s.m.perSegment)
    ensures var s' := Do(s, Alloc(true));
            Inv(s') && Grown(s') && |s'.live| == s'.peak == j && s'.m.perSegment == s.m.perSegment
  {
    RoomLeft(s);
    AllocStep(s, true);
    AllocGrown(s, true);
    var k, i := AllocTakes(s.m, true);
    hide Allocated, Inv, Grown, Used, Out, PoolOk, Manager.OffsetOf, AllFull;
  }

  lemma RoomLeft(s: State)
    requires Inv(s) && |s.live| < Capacity(MAX_IDS, s.m.perSegment)
    ensures Allocated(s.m, true).0.Ok?
  {
    hide Allocated, Out, Used, PoolOk, Tracks, Manager.OffsetOf, Capacity;
    var k, i := AllocTakes(s.m, true);
    LiveIsUsed(s);
  }

  lemma CapacityStrict(a: nat, b: nat, n: nat)
    requires a < b && n > 0
    ensures Capacity(a, n) < Capacity(b, n)
  {
    ProductStep(a, b, n);
  }

  lemma {:induction false} RunExtend(s: State, acts: seq<Action>, mid: State, a: Action)
    requires Runs(s, acts, mid) && Enabled(mid, a)
    ensures Runs(s, acts + [a], Do(mid, a))
    decreases acts
  {
    if acts == [] {
      assert acts + [a] == [a];
      assert Runs(Do(mid, a), [a][1..], Do(mid, a));
    } else {
      assert (acts + [a])[1..] == acts[1..] + [a];
      RunExtend(Do(s, acts[0]), acts[1..], mid, a);
    }
  }

  /** The limit is reached: for every geometry, a run that only allocates fills 65536 segments, and
      then every allocation fails although the platform would grant memory. */
  lemma SegmentLimitReached(chunkSize: nat, perSegment: nat, canCreate: bool) returns (acts: seq<Action>, s: State)
    requires Created(chunkSize, perSegment).Fits()
    ensures Runs(Init(chunkSize, perSegment), acts, s) && |acts| == |s.live| == Capacity(MAX_IDS, perSegment)
    ensures |s.m.pools| == MAX_IDS && Allocated(s.m, canCreate) == (Err(OutOfMemory), s.m)
  {
    acts, s := AllocMany(chunkSize, perSegment, Capacity(MAX_IDS, perSegment));
    LiveIsUsed(s);
    var k, i := AllocTakes(s.m, canCreate);
    AllocError(s.m, canCreate);
    hide Allocated, Used, Out, PoolOk, Manager.OffsetOf, AllFull, Runs, Tracks, Capacity;
    if |s.m.pools| < MAX_IDS { CapacityStrict(|s.m.pools|, MAX_IDS, perSegment); }
  }

  lemma AllocError(m: Manager, canCreate: bool)
    ensures Allocated(m, canCreate).0.Err? ==> Allocated(m, canCreate).0 == Err(OutOfMemory)
  {
  }
}
