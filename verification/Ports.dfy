/** `Publisher` and `Subscriber` in their sequential form, over data segments and channels. A
    publisher may have any number of channels and a subscriber any number of connections. Each method
    is proved against the views of the pool and of the queues: the free chunks, the bytes of the
    segment, and the offsets sent and returned on each channel. */
module Ports {
  import opened Words
  import opened Results
  import opened Offsets
  import opened DataSegments
  import opened Channels
  import Spsc = SpscSteps
  import FL = FreeList
  import Safety = FreeListSafety

  function Zeros(n: nat): seq<nat> {
    seq(n, _ => 0)
  }

  function Flatten(xs: seq<seq<nat>>): seq<nat> {
    if xs == [] then [] else Flatten(xs[..|xs| - 1]) + xs[|xs| - 1]
  }

  /** The free indices after deallocating `offsets` in order. */
  function PutBack(l: Layout, free: seq<nat>, offsets: seq<nat>): seq<nat> {
    if offsets == [] then free
    else
      var n := |offsets| - 1;
      [l.IndexOf(offsets[n])] + PutBack(l, free, offsets[..n])
  }

  /** Offsets that are all live and pairwise different. */
  ghost predicate Releasable(l: Layout, free: seq<nat>, offsets: seq<nat>) {
    && (forall j :: 0 <= j < |offsets| ==> IsLive(l, free, offsets[j]))
    && forall j, k :: 0 <= j < k < |offsets| ==> offsets[j] != offsets[k]
  }

  /** Deallocating some of them leaves the others live. */
  lemma {:induction false} StillLive(l: Layout, free: seq<nat>, offsets: seq<nat>, k: nat)
    requires l.Fits() && Releasable(l, free, offsets) && k < |offsets|
    ensures IsLive(l, PutBack(l, free, offsets[..k]), offsets[k])
  {
    hide Offset, SegmentId, Layout.OffsetOf, Layout.StartOf, IsLive, Layout.Fits;
    var i := LiveIndex(l, free, offsets[k]);
    PutBackAvoids(l, free, offsets, k, k, i);
    LiveAt(l, PutBack(l, free, offsets[..k]), i);
  }

  lemma LiveAt(l: Layout, free: seq<nat>, i: nat)
    requires i < l.chunkCount && i !in free
    ensures IsLive(l, free, l.OffsetOf(i))
  {
  }

  lemma {:induction false} PutBackAvoids(l: Layout, free: seq<nat>, offsets: seq<nat>, n: nat, k: nat, i: nat)
    requires l.Fits() && l.chunkSize > 0 && Releasable(l, free, offsets) && n <= k < |offsets|
    requires i < l.chunkCount && i !in free && offsets[k] == l.OffsetOf(i)
    ensures i !in PutBack(l, free, offsets[..n])
  {
    hide Offset, SegmentId, Layout.OffsetOf, Layout.StartOf, IsLive, Layout.Fits;
    if n > 0 {
      PutBackAvoids(l, free, offsets, n - 1, k, i);
      var j := LiveIndex(l, free, offsets[n - 1]);
      assert offsets[..n][..n - 1] == offsets[..n - 1];
    }
  }

  lemma {:induction false} PutBackAppend(l: Layout, free: seq<nat>, a: seq<nat>, b: seq<nat>)
    requires l.chunkSize > 0
    ensures PutBack(l, free, a + b) == PutBack(l, PutBack(l, free, a), b)
  {
    if b == [] {
      assert a + b == a;
    } else {
      var n := |b| - 1;
      assert (a + b)[..|a + b| - 1] == a + b[..n];
      PutBackAppend(l, free, a, b[..n]);
    }
  }

  lemma ReleasableParts(l: Layout, free: seq<nat>, a: seq<nat>, b: seq<nat>, all: seq<nat>)
    requires l.Fits() && l.chunkSize > 0 && Releasable(l, free, all) && a + b <= all
    ensures Releasable(l, PutBack(l, free, a), b)
  {
    hide IsLive, PutBack, Layout.Fits, Layout.OffsetOf, Layout.StartOf, Offset, SegmentId;
    assert forall j :: 0 <= j < |b| ==> b[j] == all[|a| + j];
    forall j | 0 <= j < |b| ensures IsLive(l, PutBack(l, free, a), b[j]) {
      var k := |a| + j;
      var i := LiveIndex(l, free, all[k]);
      PutBackAvoids(l, free, all, |a|, k, i);
      assert all[..|a|] == a;
      LiveAt(l, PutBack(l, free, a), i);
    }
  }

  lemma FlattenNext(xs: seq<seq<nat>>, k: nat)
    requires k < |xs|
    ensures Flatten(xs[..k + 1]) == Flatten(xs[..k]) + xs[k]
  {
    assert xs[..k + 1][..k] == xs[..k];
  }

  lemma FlattenNone(xs: seq<seq<nat>>)
    ensures Flatten(xs[..0]) == []
  {
  }

  lemma {:induction false} FlattenPrefix(xs: seq<seq<nat>>, k: nat)
    requires k <= |xs|
    ensures Flatten(xs[..k]) <= Flatten(xs)
  {
    if k < |xs| {
      var n := |xs| - 1;
      assert xs[..n][..k] == xs[..k];
      FlattenPrefix(xs[..n], k);
    } else {
      assert xs[..k] == xs;
    }
  }

  class Publisher {
    const segment: DataSegment
    const maxLoaned: nat
    const payloadSize: nat
    var channels: seq<ZeroCopyChannel>
    var activeLoans: nat

    /** The objects of all channels. */
    ghost var Repr: set<object>

    /** The channels share no objects. */
    ghost predicate Apart()
      reads this
    {
      && this !in Repr && Repr !! segment.Repr() && this !in segment.Repr()
      && (forall k :: 0 <= k < |channels| ==> channels[k].Repr() <= Repr)
      && forall j, k :: 0 <= j < k < |channels| ==> channels[j].Repr() !! channels[k].Repr()
    }

    ghost predicate Valid()
      reads this, Repr, segment.Repr()
    {
      && segment.Valid() && payloadSize <= segment.Geometry().chunkSize
      && activeLoans < U64 && maxLoaned < U64 && Apart()
      && forall k :: 0 <= k < |channels| ==> channels[k].Valid()
    }

    /** `create`: the pool has `buffer_size as u32` chunks of at least 8 bytes. */
    constructor (payloadSize: nat, bufferSize: nat, maxLoaned: nat)
      requires Max(payloadSize, 8) + 7 < U64 && maxLoaned < U64
      requires 0 < bufferSize % U32 < FL.SENTINEL
      requires HEADER + Product(bufferSize % U32, AlignUp(Max(payloadSize, 8))) <= U48
      ensures Valid() && channels == [] && activeLoans == 0 && this.maxLoaned == maxLoaned
      ensures segment.Geometry() == Layout(AlignUp(Max(payloadSize, 8)), bufferSize % U32, 0)
      ensures segment.Free() == Safety.InitStack(bufferSize % U32)
    {
      hide AlignUp, Encode, Offset, SegmentId, DataSegment.Valid;
      AlignUpIs(Max(payloadSize, 8));
      segment := new DataSegment(Max(payloadSize, 8), bufferSize % U32, 0);
      this.payloadSize := payloadSize;
      this.maxLoaned := maxLoaned;
      channels := [];
      activeLoans := 0;
      Repr := {};
    }

    /** Takes a chunk and zeroes its payload. Fails, changing nothing else, when `max_loaned` loans
        are active or the pool is empty. */
    method Loan() returns (r: Result<nat, LoanError>)
      requires Valid()
      modifies this`activeLoans, segment.Repr()
      ensures Valid() && channels == old(channels)
      ensures old(activeLoans) >= maxLoaned ==> r == Err(ExceedsMaxLoans)
      ensures old(activeLoans) < maxLoaned && old(segment.Free()) == [] ==> r == Err(OutOfMemory)
      ensures r.Err? ==>
                activeLoans == old(activeLoans) && segment.Free() == old(segment.Free())
                && segment.shm[..] == old(segment.shm[..])
      ensures old(activeLoans) < maxLoaned && old(segment.Free()) != [] ==>
                && r == Ok(segment.Geometry().OffsetOf(old(segment.Free())[0]))
                && segment.Free() == old(segment.Free())[1..] && activeLoans == old(activeLoans) + 1
                && Offset(r.value) + payloadSize <= segment.shm.Length
                && segment.shm[..] == Patch(old(segment.shm[..]), Offset(r.value), Zeros(payloadSize))
    {
      hide AlignUp, Encode, Offset, Layout.OffsetOf, DataSegment.Valid, Patch;
      if activeLoans >= maxLoaned {
        return Err(ExceedsMaxLoans);
      }
      var got := segment.Allocate();
      if got.Err? {
        return got;
      }
      activeLoans := (activeLoans + 1) % U64;
      segment.Write(got.value, Zeros(payloadSize));
      return got;
    }

    /** The queues of a channel, as values. */
    ghost function SentOn(k: nat): seq<nat>
      requires k < |channels|
      reads this, channels[k].sendQueue
    {
      channels[k].Sent()
    }

    ghost function ReturnedOn(k: nat): seq<nat>
      requires k < |channels|
      reads this, channels[k].returnQueue
    {
      channels[k].Returned()
    }

    /** `SampleMut::send`: pushes the offset to the channels in order and stops at the first that
        refuses it; `reached` is how many took it. */
    method Send(offset: nat) returns (r: Result<(), SendError>, ghost reached: nat)
      requires Valid()
      modifies Repr
      ensures Valid() && reached <= |channels| && (r.Ok? <==> reached == |channels|)
      ensures forall k :: 0 <= k < |channels| ==>
                ReturnedOn(k) == old(ReturnedOn(k)) && channels[k].state == old(channels[k].state)
                && SentOn(k) == if k < reached then old(SentOn(k)) + [offset] else old(SentOn(k))
      ensures r.Err? ==>
                channels[reached].state.Disconnected? || |SentOn(reached)| >= channels[reached].Capacity()
    {
      hide DataSegment.Valid, SpscQueue.Valid;
      var k := 0;
      while k < |channels|
        invariant k <= |channels| && Valid()
        invariant forall j :: 0 <= j < |channels| ==>
                    ReturnedOn(j) == old(ReturnedOn(j)) && channels[j].state == old(channels[j].state)
                    && SentOn(j) == if j < k then old(SentOn(j)) + [offset] else old(SentOn(j))
      {
        label before:
        var channel := channels[k];
        assert channel.Repr() <= Repr;
        var sent := channel.Send(offset);
        forall j | 0 <= j < |channels| && j != k
          ensures channels[j].Valid() && channels[j].state == old@before(channels[j].state)
          ensures SentOn(j) == old@before(SentOn(j)) && ReturnedOn(j) == old@before(ReturnedOn(j))
        {
          if j < k { assert channels[j].Repr() !! channel.Repr(); }
          if j > k { assert channels[j].Repr() !! channel.Repr(); }
        }
        if sent.Err? {
          return sent, k;
        }
        k := k + 1;
      }
      return Ok(()), k;
    }

    /** `SampleMut::drop` without a send. */
    method DropLoan(offset: nat) returns (ghost index: nat)
      requires Valid() && activeLoans > 0 && segment.Live(offset)
      modifies this`activeLoans, segment.Repr()
      ensures Valid() && channels == old(channels) && activeLoans == old(activeLoans) - 1
      ensures index !in old(segment.Free()) && offset == segment.Geometry().OffsetOf(index)
      ensures segment.Free() == [index] + old(segment.Free())
    {
      hide AlignUp, Encode, Offset, Layout.OffsetOf, DataSegment.Valid, IsLive, ZeroCopyChannel.Valid;
      index := segment.Deallocate(offset);
      activeLoans := (activeLoans + U64 - 1) % U64;
    }

    /** The return queues, in channel order. */
    ghost function AllReturned(): (r: seq<seq<nat>>)
      reads this, Repr
      requires Apart()
      ensures |r| == |channels|
      ensures forall k :: 0 <= k < |channels| ==> r[k] == ReturnedOn(k)
    {
      seq(|channels|, k requires 0 <= k < |channels| && Apart() reads this, Repr => ReturnedOn(k))
    }

    ghost function AllSent(): (r: seq<seq<nat>>)
      reads this, Repr
      requires Apart()
      ensures |r| == |channels|
      ensures forall k :: 0 <= k < |channels| ==> r[k] == SentOn(k)
    {
      seq(|channels|, k requires 0 <= k < |channels| && Apart() reads this, Repr => SentOn(k))
    }

    /** All queues, as values. */
    ghost predicate QueuesAre(sent: seq<seq<nat>>, returned: seq<seq<nat>>)
      reads this, Repr
      requires Apart()
    {
      |sent| == |channels| == |returned|
      && forall j :: 0 <= j < |channels| ==> SentOn(j) == sent[j] && ReturnedOn(j) == returned[j]
    }

    /** One pop from a return queue. */
    method PopReturned(k: nat, ghost sent: seq<seq<nat>>, ghost returned: seq<seq<nat>>) returns (r: Option<nat>)
      requires Valid() && k < |channels| && QueuesAre(sent, returned)
      modifies Repr
      ensures Valid() && segment.Free() == old(segment.Free())
      ensures channels == old(channels) && Repr == old(Repr) && activeLoans == old(activeLoans)
      ensures returned[k] == [] ==> r == None && QueuesAre(sent, returned)
      ensures returned[k] != [] ==> r == Some(returned[k][0]) && QueuesAre(sent, returned[k := returned[k][1..]])
    {
      hide DataSegment.Valid, SpscQueue.Valid;
      var channel := channels[k];
      assert channel.Repr() <= Repr;
      r := channel.Reclaim();
      forall j | 0 <= j < |channels| && j != k
        ensures channels[j].Valid() && SentOn(j) == sent[j] && ReturnedOn(j) == returned[j]
      {
        if j < k { assert channels[j].Repr() !! channel.Repr(); }
        if j > k { assert channels[j].Repr() !! channel.Repr(); }
      }
    }

    /** Deallocates a returned offset. */
    method FreeReturned(offset: nat, ghost sent: seq<seq<nat>>, ghost returned: seq<seq<nat>>)
      requires Valid() && activeLoans > 0 && segment.Live(offset) && QueuesAre(sent, returned)
      modifies this`activeLoans, segment.Repr()
      ensures Valid() && QueuesAre(sent, returned) && activeLoans == old(activeLoans) - 1
      ensures channels == old(channels) && Repr == old(Repr)
      ensures segment.Geometry().Fits() && segment.Geometry().chunkSize > 0
      ensures segment.Free() == [segment.Geometry().IndexOf(offset)] + old(segment.Free())
    {
      hide AlignUp, Encode, Offset, SegmentId, Layout.OffsetOf, Layout.StartOf, DataSegment.Valid, IsLive,
           SpscQueue.Valid, Layout.IndexOf;
      var index := segment.Deallocate(offset);
      GeometryFits(segment);
      IndexRoundTrip(segment.Geometry(), index);
      activeLoans := (activeLoans + U64 - 1) % U64;
    }

    /** The inner loop of `reclaim`. */
    method ReclaimFrom(k: nat, ghost sent: seq<seq<nat>>, ghost returned: seq<seq<nat>>)
      requires Valid() && k < |channels| == |returned| && QueuesAre(sent, returned) && |returned[k]| <= activeLoans
      requires Releasable(segment.Geometry(), segment.Free(), returned[k])
      modifies this`activeLoans, Repr, segment.Repr()
      ensures Valid() && channels == old(channels) && Repr == old(Repr) && QueuesAre(sent, returned[k := []])
      ensures segment.Free() == PutBack(segment.Geometry(), old(segment.Free()), returned[k])
      ensures activeLoans == old(activeLoans) - |returned[k]|
    {
      hide Layout.OffsetOf, Layout.Fits, Offset, SegmentId, IsLive, Releasable, SpscQueue.Valid,
           DataSegment.Valid, Layout.IndexOf, QueuesAre, Apart;
      ghost var l, free, all := segment.Geometry(), segment.Free(), returned[k];
      ghost var d := 0;
      GeometryFits(segment);
      assert returned[k := all[0..]] == returned;
      var got := PopReturned(k, sent, returned);
      while got.Some?
        invariant Valid() && channels == old(channels) && Repr == old(Repr)
        invariant d <= |all| && (got.Some? <==> d < |all|) && (got.Some? ==> got.value == all[d])
        invariant QueuesAre(sent, returned[k := all[if got.Some? then d + 1 else d..]])
        invariant segment.Free() == PutBack(l, free, all[..d])
        invariant activeLoans == old(activeLoans) - d
        decreases |all| - d
      {
        ghost var now := returned[k := all[d + 1..]];
        StillLive(l, free, all, d);
        FreeReturned(got.value, sent, now);
        assert all[..d + 1][..d] == all[..d];
        d := d + 1;
        got := PopReturned(k, sent, now);
        if d < |all| {
          assert now[k][1..] == all[d + 1..];
          assert now[k := now[k][1..]] == returned[k := all[d + 1..]];
        }
      }
      assert all[..d] == all && all[d..] == [];
    }

    /** Deallocates every returned offset of every channel and counts each off. */
    method Reclaim()
      requires Valid() && |Flatten(AllReturned())| <= activeLoans
      requires Releasable(segment.Geometry(), segment.Free(), Flatten(AllReturned()))
      modifies this`activeLoans, Repr, segment.Repr()
      ensures Valid() && channels == old(channels) && Repr == old(Repr)
      ensures forall k :: 0 <= k < |channels| ==> ReturnedOn(k) == [] && SentOn(k) == old(SentOn(k))
      ensures segment.Free() == PutBack(segment.Geometry(), old(segment.Free()), old(Flatten(AllReturned())))
      ensures activeLoans == old(activeLoans) - |old(Flatten(AllReturned()))|
    {
      hide Layout.OffsetOf, Layout.Fits, Offset, SegmentId, IsLive, SpscQueue.Valid, DataSegment.Valid,
           Layout.IndexOf, Releasable, PutBack, Flatten;
      ghost var l, free, all := segment.Geometry(), segment.Free(), AllReturned();
      ghost var sent := AllSent();
      ghost var now := all;
      GeometryFits(segment);
      PutBackNone(l, free);
      FlattenNone(all);
      var k := 0;
      while k < |channels|
        invariant Valid() && channels == old(channels) && Repr == old(Repr) && k <= |channels| == |now|
        invariant QueuesAre(sent, now)
        invariant forall j :: 0 <= j < |now| ==> now[j] == if j < k then [] else all[j]
        invariant segment.Free() == PutBack(l, free, Flatten(all[..k]))
        invariant |Flatten(all[..k])| <= |Flatten(all)| && activeLoans == old(activeLoans) - |Flatten(all[..k])|
      {
        FlattenPrefix(all, k + 1);
        FlattenNext(all, k);
        ReleasableParts(l, free, Flatten(all[..k]), all[k], Flatten(all));
        PutBackAppend(l, free, Flatten(all[..k]), all[k]);
        ReclaimFrom(k, sent, now);
        now := now[k := []];
        k := k + 1;
      }
      assert all[..k] == all;
    }

    /** A new subscriber's channel, connected, joins the list. */
    method AddChannel(bufferSize: nat) returns (channel: ZeroCopyChannel)
      requires Valid() && bufferSize <= 0x8000_0000_0000_0000
      modifies this`channels, this`Repr
      ensures Valid() && channels == old(channels) + [channel] && fresh(channel.Repr())
      ensures Repr == old(Repr) + channel.Repr()
      ensures channel.state == Connected && channel.Capacity() >= bufferSize
      ensures channel.Sent() == [] && channel.Returned() == []
    {
      hide DataSegment.Valid, ZeroCopyChannel.Valid, Spsc.Rounded;
      ghost var n := |channels|;
      channel := OpenChannel(bufferSize);
      channels := channels + [channel];
      Repr := Repr + channel.Repr();
      assert forall k :: 0 <= k < n ==> channels[k].Valid() && channels[k].Repr() <= old(Repr);
    }
  }

  lemma PutBackNone(l: Layout, free: seq<nat>)
    requires l.chunkSize > 0
    ensures PutBack(l, free, []) == free
  {
  }

  /** A subscriber's link to one publisher. */
  datatype Connection = Connection(segment: DataSegment, channel: ZeroCopyChannel)

  /** `connection`: the index of the connection a sample came from. */
  datatype Sample = Sample(connection: nat, offset: nat)

  class Subscriber {
    const connections: seq<Connection>

    /** The objects of all channels. */
    ghost const Repr: set<object>

    ghost predicate Apart() {
      && (forall k :: 0 <= k < |connections| ==> connections[k].channel.Repr() <= Repr)
      && forall j, k :: 0 <= j < k < |connections| ==>
           connections[j].channel.Repr() !! connections[k].channel.Repr()
    }

    ghost predicate Valid()
      reads Repr
    {
      Apart() && forall k :: 0 <= k < |connections| ==> connections[k].channel.Valid()
    }

    /** The queues and states of all channels. */
    ghost predicate QueuesAre(sent: seq<seq<nat>>, returned: seq<seq<nat>>, states: seq<ChannelState>)
      reads Repr
      requires Apart()
    {
      |sent| == |connections| == |returned| == |states|
      && forall k :: 0 <= k < |connections| ==>
           connections[k].channel.Sent() == sent[k] && connections[k].channel.Returned() == returned[k]
           && connections[k].channel.state == states[k]
    }

    constructor (connections: seq<Connection>, ghost repr: set<object>)
      requires forall k :: 0 <= k < |connections| ==>
                 connections[k].channel.Valid() && connections[k].channel.Repr() <= repr
      requires forall j, k :: 0 <= j < k < |connections| ==>
                 connections[j].channel.Repr() !! connections[k].channel.Repr()
      ensures Valid() && this.connections == connections && Repr == repr
    {
      this.connections := connections;
      Repr := repr;
    }

    /** Looks at one connection. */
    method TryReceive(k: nat, ghost sent: seq<seq<nat>>, ghost returned: seq<seq<nat>>,
        ghost states: seq<ChannelState>)
      returns (r: Result<nat, ReceiveError>)
      requires Valid() && k < |connections| == |sent| == |states| && QueuesAre(sent, returned, states)
      modifies Repr
      ensures Valid()
      ensures sent[k] != [] ==> r == Ok(sent[k][0]) && QueuesAre(sent[k := sent[k][1..]], returned, states)
      ensures sent[k] == [] ==>
                r == Err(if states[k].Disconnected? then Broken else Empty) && QueuesAre(sent, returned, states)
    {
      hide SpscQueue.Valid;
      var channel := connections[k].channel;
      assert channel.Repr() <= Repr;
      r := channel.Receive();
      forall j | 0 <= j < |connections| && j != k
        ensures connections[j].channel.Valid() && connections[j].channel.Sent() == sent[j]
        ensures connections[j].channel.Returned() == returned[j] && connections[j].channel.state == states[j]
      {
        if j < k { assert connections[j].channel.Repr() !! channel.Repr(); }
        if j > k { assert connections[j].channel.Repr() !! channel.Repr(); }
      }
    }

    /** Takes the oldest message of the first connection that has one. Fails only when a
        disconnected, empty connection comes before any message; `at` is where the search ends. */
    method Receive(ghost sent: seq<seq<nat>>, ghost returned: seq<seq<nat>>, ghost states: seq<ChannelState>)
      returns (r: Result<Option<Sample>, ReceiveError>, ghost at: nat)
      requires Valid() && |sent| == |states| == |connections| && QueuesAre(sent, returned, states)
      modifies Repr
      ensures Valid() && at <= |connections|
      ensures forall k :: 0 <= k < at ==> sent[k] == [] && !states[k].Disconnected?
      ensures at == |connections| ==> r == Ok(None) && QueuesAre(sent, returned, states)
      ensures at < |connections| && sent[at] != [] ==>
                r == Ok(Some(Sample(at, sent[at][0]))) && QueuesAre(sent[at := sent[at][1..]], returned, states)
      ensures at < |connections| && sent[at] == [] ==>
                states[at].Disconnected? && r == Err(Broken) && QueuesAre(sent, returned, states)
    {
      hide QueuesAre, Apart;
      var k := 0;
      while k < |connections|
        invariant k <= |connections| && Valid() && QueuesAre(sent, returned, states)
        invariant forall j :: 0 <= j < k ==> sent[j] == [] && !states[j].Disconnected?
      {
        var got := TryReceive(k, sent, returned, states);
        match got {
          case Ok(offset) => return Ok(Some(Sample(k, offset))), k;
          case Err(Empty) =>
          case Err(e) => return Err(e), k;
        }
        k := k + 1;
      }
      return Ok(None), k;
    }

    /** `Sample::drop`: the offset goes back on the channel it came from; on a full return queue the
        drop spins, here for `turns` turns. */
    method DropSample(sample: Sample, turns: nat, ghost sent: seq<seq<nat>>, ghost returned: seq<seq<nat>>,
        ghost states: seq<ChannelState>) returns (done: bool)
      requires Valid() && sample.connection < |connections| == |returned| && QueuesAre(sent, returned, states)
      modifies Repr
      ensures Valid()
      ensures var k := sample.connection;
              && (done <==> turns > 0 && |returned[k]| < connections[k].channel.Capacity())
              && QueuesAre(sent, if done then returned[k := returned[k] + [sample.offset]] else returned, states)
    {
      hide SpscQueue.Valid;
      var k := sample.connection;
      var channel := connections[k].channel;
      assert channel.Repr() <= Repr;
      done := channel.ReturnOffset(sample.offset, turns);
      forall j | 0 <= j < |connections| && j != k
        ensures connections[j].channel.Valid() && connections[j].channel.Sent() == sent[j]
        ensures connections[j].channel.Returned() == returned[j] && connections[j].channel.state == states[j]
      {
        if j < k { assert connections[j].channel.Repr() !! channel.Repr(); }
        if j > k { assert connections[j].channel.Repr() !! channel.Repr(); }
      }
    }
  }

  lemma GeometryFits(s: DataSegment)
    requires s.Valid()
    ensures s.Geometry().Fits() && s.Geometry().chunkSize > 0
  {
  }
}
