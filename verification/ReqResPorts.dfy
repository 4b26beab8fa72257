/** `Client`, `PendingResponse`, `Server` and `ActiveRequest` in their sequential form. Payloads are
    sequences of bytes. Each call is proved against the views of the shared segment and of its
    channel: the free chunks, the bytes, and the offsets sent on the channel and returned on it. */
module ReqResPorts {
  import opened Results
  import opened Offsets
  import opened DataSegments
  import opened Channels
  import Ports
  import Spsc = SpscSteps

  datatype PortError = Loan(loan: LoanError) | SendFailed(send: SendError) | ReceiveFailed(receive: ReceiveError)

  /** The free chunks and bytes of a segment, and the offsets under way on a channel. */
  datatype View = View(free: seq<nat>, bytes: seq<nat>, sent: seq<nat>)

  ghost function ViewOf(segment: DataSegment, channel: ZeroCopyChannel): View
    reads segment.Repr(), channel.Repr()
  {
    View(segment.Free(), segment.shm[..], channel.Sent())
  }

  /** What sending a payload does: it takes the first free chunk, stores the payload there and pushes
      the offset. A chunk whose push fails is not given back. */
  ghost predicate Transmitted(l: Layout, capacity: nat, state: ChannelState, before: View, payload: seq<nat>,
                              r: Result<(), PortError>, after: View) {
    if before.free == [] then
      r == Err(Loan(OutOfMemory)) && after == before
    else
      var offset := l.OffsetOf(before.free[0]);
      && Offset(offset) + |payload| <= |before.bytes|
      && r == (if state.Disconnected? then Err(SendFailed(ConnectionBroken))
               else if |before.sent| < capacity then Ok(())
               else Err(SendFailed(QueueFull)))
      && after == View(before.free[1..], Patch(before.bytes, Offset(offset), payload),
                       before.sent + (if r.Ok? then [offset] else []))
  }

  method Transmit(segment: DataSegment, channel: ZeroCopyChannel, payload: seq<nat>)
    returns (r: Result<(), PortError>)
    requires segment.Valid() && channel.Valid() && segment.Repr() !! channel.Repr()
    requires |payload| <= segment.Geometry().chunkSize
    modifies segment.Repr(), channel.Repr()
    ensures segment.Valid() && channel.Valid()
    ensures Transmitted(segment.Geometry(), channel.Capacity(), channel.state,
                        old(ViewOf(segment, channel)), payload, r, ViewOf(segment, channel))
    ensures channel.state == old(channel.state) && channel.Returned() == old(channel.Returned())
  {
    hide AlignUp, Encode, Offset, Layout.OffsetOf, DataSegment.Valid, Patch, SpscQueue.Valid;
    var got := segment.Allocate();
    if got.Err? {
      return Err(Loan(got.error));
    }
    segment.Write(got.value, payload);
    var sent := channel.Send(got.value);
    r := if sent.Ok? then Ok(()) else Err(SendFailed(sent.error));
  }

  /** What receiving a payload does: it takes the oldest offset, copies the chunk's bytes out and
      gives the chunk back. */
  ghost predicate Consumed(l: Layout, state: ChannelState, before: View, n: nat,
                           r: Result<Option<seq<nat>>, PortError>, after: View) {
    if before.sent == [] then
      r == (if state.Disconnected? then Err(ReceiveFailed(Broken)) else Ok(None)) && after == before
    else
      var offset := before.sent[0];
      && r == Ok(Some(Bytes(before.bytes, Offset(offset), n)))
      && after == View([l.IndexOf(offset)] + before.free, before.bytes, before.sent[1..])
  }

  method Consume(segment: DataSegment, channel: ZeroCopyChannel, n: nat)
    returns (r: Result<Option<seq<nat>>, PortError>)
    requires segment.Valid() && channel.Valid() && segment.Repr() !! channel.Repr()
    requires n <= segment.Geometry().chunkSize
    requires channel.Sent() != [] ==> segment.Live(channel.Sent()[0])
    modifies segment.Repr(), channel.Repr()
    ensures segment.Valid() && channel.Valid()
    ensures Consumed(segment.Geometry(), channel.state, old(ViewOf(segment, channel)), n, r, ViewOf(segment, channel))
    ensures channel.state == old(channel.state) && channel.Returned() == old(channel.Returned())
  {
    hide AlignUp, Encode, Offset, SegmentId, Layout.OffsetOf, Layout.StartOf, DataSegment.Valid,
         SpscQueue.Valid, IsLive, Bytes, Layout.IndexOf;
    Ports.GeometryFits(segment);
    var got := channel.Receive();
    match got {
      case Err(Empty) => return Ok(None);
      case Err(e) => return Err(ReceiveFailed(e));
      case Ok(offset) =>
        var payload := segment.Read(offset, n);
        var index := segment.Deallocate(offset);
        IndexRoundTrip(segment.Geometry(), index);
        return Ok(Some(payload));
    }
  }

  /** A client, and the handles of its pending responses, which share its response channel. */
  class Client {
    const segment: DataSegment
    const requestChannel: ZeroCopyChannel
    const responseChannel: ZeroCopyChannel

    ghost predicate Valid()
      reads segment.Repr(), requestChannel.Repr(), responseChannel.Repr()
    {
      && segment.Valid() && requestChannel.Valid() && responseChannel.Valid()
      && segment.Repr() !! requestChannel.Repr() && segment.Repr() !! responseChannel.Repr()
      && requestChannel.Repr() !! responseChannel.Repr()
    }

    /** `create`: both channels are connected and hold `max_pending_requests`. */
    constructor (segment: DataSegment, maxPending: nat)
      requires segment.Valid() && maxPending <= 0x8000_0000_0000_0000
      ensures Valid() && this.segment == segment && fresh(requestChannel.Repr()) && fresh(responseChannel.Repr())
      ensures requestChannel.state == Connected && responseChannel.state == Connected
      ensures requestChannel.Capacity() >= maxPending && responseChannel.Capacity() >= maxPending
      ensures requestChannel.Sent() == [] && responseChannel.Sent() == []
    {
      hide DataSegment.Valid, ZeroCopyChannel.Valid, Spsc.Rounded;
      assert forall o <- segment.Repr() :: allocated(o);
      var requests := OpenChannel(maxPending);
      var responses := OpenChannel(maxPending);
      this.segment, requestChannel, responseChannel := segment, requests, responses;
    }

    method Send(request: seq<nat>) returns (r: Result<(), PortError>)
      requires Valid() && |request| <= segment.Geometry().chunkSize
      modifies segment.Repr(), requestChannel.Repr()
      ensures Valid()
      ensures Transmitted(segment.Geometry(), requestChannel.Capacity(), requestChannel.state,
                          old(ViewOf(segment, requestChannel)), request, r, ViewOf(segment, requestChannel))
      ensures responseChannel.Sent() == old(responseChannel.Sent())
    {
      hide DataSegment.Valid, ZeroCopyChannel.Valid, Transmitted;
      r := Transmit(segment, requestChannel, request);
    }

    /** `PendingResponse::try_receive`. */
    method TryReceive(n: nat) returns (r: Result<Option<seq<nat>>, PortError>)
      requires Valid() && n <= segment.Geometry().chunkSize
      requires responseChannel.Sent() != [] ==> segment.Live(responseChannel.Sent()[0])
      modifies segment.Repr(), responseChannel.Repr()
      ensures Valid()
      ensures Consumed(segment.Geometry(), responseChannel.state, old(ViewOf(segment, responseChannel)), n, r,
                       ViewOf(segment, responseChannel))
      ensures requestChannel.Sent() == old(requestChannel.Sent())
    {
      hide DataSegment.Valid, ZeroCopyChannel.Valid, Consumed;
      r := Consume(segment, responseChannel, n);
    }
  }

  datatype ClientWire = ClientWire(requestChannel: ZeroCopyChannel, responseChannel: ZeroCopyChannel)

  class Server {
    const segment: DataSegment
    const clients: seq<ClientWire>

    /** The objects of all channels. */
    ghost const Repr: set<object>

    ghost predicate Apart() {
      && Repr !! segment.Repr()
      && (forall k :: 0 <= k < |clients| ==>
            clients[k].requestChannel.Repr() <= Repr && clients[k].responseChannel.Repr() <= Repr
            && clients[k].requestChannel.Repr() !! clients[k].responseChannel.Repr())
      && forall j, k :: 0 <= j < |clients| && 0 <= k < |clients| && j != k ==>
           clients[j].requestChannel.Repr() !! clients[k].requestChannel.Repr()
           && clients[j].requestChannel.Repr() !! clients[k].responseChannel.Repr()
           && clients[j].responseChannel.Repr() !! clients[k].responseChannel.Repr()
    }

    ghost predicate Valid()
      reads Repr, segment.Repr()
    {
      && segment.Valid() && Apart()
      && forall k :: 0 <= k < |clients| ==> clients[k].requestChannel.Valid() && clients[k].responseChannel.Valid()
    }

    ghost function Requests(k: nat): seq<nat>
      requires k < |clients|
      reads clients[k].requestChannel.sendQueue
    {
      clients[k].requestChannel.Sent()
    }

    ghost function Responses(k: nat): seq<nat>
      requires k < |clients|
      reads clients[k].responseChannel.sendQueue
    {
      clients[k].responseChannel.Sent()
    }

    constructor (segment: DataSegment, clients: seq<ClientWire>, ghost repr: set<object>)
      requires segment.Valid() && repr !! segment.Repr()
      requires forall k :: 0 <= k < |clients| ==>
                 clients[k].requestChannel.Valid() && clients[k].responseChannel.Valid()
                 && clients[k].requestChannel.Repr() <= repr && clients[k].responseChannel.Repr() <= repr
                 && clients[k].requestChannel.Repr() !! clients[k].responseChannel.Repr()
      requires forall j, k :: 0 <= j < |clients| && 0 <= k < |clients| && j != k ==>
                 clients[j].requestChannel.Repr() !! clients[k].requestChannel.Repr()
                 && clients[j].requestChannel.Repr() !! clients[k].responseChannel.Repr()
                 && clients[j].responseChannel.Repr() !! clients[k].responseChannel.Repr()
      ensures Valid() && this.segment == segment && this.clients == clients
    {
      hide DataSegment.Valid, ZeroCopyChannel.Valid;
      this.segment, this.clients := segment, clients;
      Repr := repr;
    }

    /** Looks at one client. */
    method TryClient(k: nat, n: nat) returns (r: Result<Option<seq<nat>>, PortError>)
      requires Valid() && k < |clients| && n <= segment.Geometry().chunkSize
      requires Requests(k) != [] ==> segment.Live(Requests(k)[0])
      modifies segment.Repr(), clients[k].requestChannel.Repr()
      ensures Valid()
      ensures Consumed(segment.Geometry(), clients[k].requestChannel.state,
                       old(ViewOf(segment, clients[k].requestChannel)), n, r,
                       ViewOf(segment, clients[k].requestChannel))
      ensures forall j :: 0 <= j < |clients| && j != k ==> Requests(j) == old(Requests(j))
      ensures forall j :: 0 <= j < |clients| ==> Responses(j) == old(Responses(j))
    {
      hide DataSegment.Valid, ZeroCopyChannel.Valid, Consumed;
      var channel := clients[k].requestChannel;
      assert channel.Repr() <= Repr;
      r := Consume(segment, channel, n);
      forall j | 0 <= j < |clients|
        ensures clients[j].requestChannel.Valid() && clients[j].responseChannel.Valid()
        ensures j != k ==> Requests(j) == old(Requests(j))
        ensures Responses(j) == old(Responses(j))
      {
        if j != k {
          assert clients[j].requestChannel.Repr() !! channel.Repr();
          assert clients[k].requestChannel.Repr() !! clients[j].responseChannel.Repr();
        }
      }
    }

    /** Takes the oldest request of the first client that has one; `at` is where the search ends. */
    method Receive(n: nat) returns (r: Result<Option<seq<nat>>, PortError>, at: nat)
      requires Valid() && n <= segment.Geometry().chunkSize
      requires forall k :: 0 <= k < |clients| && Requests(k) != [] ==> segment.Live(Requests(k)[0])
      modifies segment.Repr(), Repr
      ensures Valid() && at <= |clients|
      ensures forall k :: 0 <= k < at ==> old(Requests(k)) == []
      ensures forall k :: 0 <= k < |clients| && k != at ==> Requests(k) == old(Requests(k))
      ensures forall k :: 0 <= k < |clients| ==> Responses(k) == old(Responses(k))
      ensures at == |clients| ==>
                r == Ok(None) && segment.Free() == old(segment.Free()) && segment.shm[..] == old(segment.shm[..])
      ensures at < |clients| ==>
                Consumed(segment.Geometry(), clients[at].requestChannel.state,
                         old(ViewOf(segment, clients[at].requestChannel)), n, r,
                         ViewOf(segment, clients[at].requestChannel)) && r != Ok(None)
    {
      hide DataSegment.Valid, ZeroCopyChannel.Valid, Bytes, IsLive;
      at := 0;
      while at < |clients|
        invariant at <= |clients| && Valid()
        invariant forall k :: 0 <= k < |clients| ==>
                    Requests(k) == old(Requests(k)) && (k < at ==> Requests(k) == [])
                    && Responses(k) == old(Responses(k))
        invariant segment.Free() == old(segment.Free()) && segment.shm[..] == old(segment.shm[..])
      {
        assert clients[at].requestChannel.Repr() <= Repr;
        r := TryClient(at, n);
        if r != Ok(None) {
          return;
        }
        at := at + 1;
      }
      r := Ok(None);
    }

    /** `ActiveRequest::respond` to a request of client `k`. */
    method Respond(k: nat, response: seq<nat>) returns (r: Result<(), PortError>)
      requires Valid() && k < |clients| && |response| <= segment.Geometry().chunkSize
      modifies segment.Repr(), clients[k].responseChannel.Repr()
      ensures Valid()
      ensures Transmitted(segment.Geometry(), clients[k].responseChannel.Capacity(),
                          clients[k].responseChannel.state,
                          old(ViewOf(segment, clients[k].responseChannel)), response, r,
                          ViewOf(segment, clients[k].responseChannel))
      ensures forall j :: 0 <= j < |clients| ==> Requests(j) == old(Requests(j))
      ensures forall j :: 0 <= j < |clients| && j != k ==> Responses(j) == old(Responses(j))
    {
      hide DataSegment.Valid, ZeroCopyChannel.Valid, Transmitted;
      var channel := clients[k].responseChannel;
      assert channel.Repr() <= Repr;
      r := Transmit(segment, channel, response);
      forall j | 0 <= j < |clients|
        ensures clients[j].requestChannel.Valid() && clients[j].responseChannel.Valid()
        ensures Requests(j) == old(Requests(j)) && (j != k ==> Responses(j) == old(Responses(j)))
      {
        assert clients[j].requestChannel.Repr() !! channel.Repr();
        if j != k {
          assert clients[j].responseChannel.Repr() !! channel.Repr();
        }
      }
    }
  }
}
