/** How often a sent chunk is deallocated with any number of channels. */
module PublisherFanout {
  import opened Counts

  /** Messages on their way to one subscriber, held by it, and on their way back. */
  datatype Channel = Channel(sent: seq<nat>, held: multiset<nat>, returned: seq<nat>)

  /** `reached[m]`: how many channels message `m` was pushed to. `freed`: the messages whose chunk
      `reclaim` deallocated, once per call. */
  datatype State = State(channels: seq<Channel>, capacity: nat, reached: seq<nat>, freed: seq<nat>)

  datatype Action =
    | Send
    | Receive(k: nat)
    | DropSample(k: nat, m: nat)
    | ReclaimOne(k: nat)

  function Init(channels: nat, capacity: nat): State {
    State(seq(channels, _ => Channel([], multiset{}, [])), capacity, [], [])
  }

  /** `send` pushes to the channels in order and stops at the first full one. */
  function Reach(channels: seq<Channel>, capacity: nat): (n: nat)
    ensures n <= |channels|
  {
    if channels == [] || |channels[0].sent| >= capacity then 0 else 1 + Reach(channels[1..], capacity)
  }

  function PushAll(channels: seq<Channel>, capacity: nat, m: nat): (r: seq<Channel>)
    ensures |r| == |channels|
  {
    if channels == [] || |channels[0].sent| >= capacity then channels
    else [channels[0].(sent := channels[0].sent + [m])] + PushAll(channels[1..], capacity, m)
  }

  predicate Enabled(s: State, a: Action) {
    match a
    case Send => true
    case Receive(k) => k < |s.channels| && s.channels[k].sent != []
    case DropSample(k, m) =>
      k < |s.channels| && m in s.channels[k].held && |s.channels[k].returned| < s.capacity
    case ReclaimOne(k) => k < |s.channels| && s.channels[k].returned != []
  }

  function Do(s: State, a: Action): State
    requires Enabled(s, a)
  {
    match a
    case Send =>
      var m := |s.reached|;
      s.(channels := PushAll(s.channels, s.capacity, m), reached := s.reached + [Reach(s.channels, s.capacity)])
    case Receive(k) =>
      var ch := s.channels[k];
      s.(channels := s.channels[k := Channel(ch.sent[1..], ch.held + multiset{ch.sent[0]}, ch.returned)])
    case DropSample(k, m) =>
      var ch := s.channels[k];
      s.(channels := s.channels[k := Channel(ch.sent, ch.held - multiset{m}, ch.returned + [m])])
    case ReclaimOne(k) =>
      var ch := s.channels[k];
      s.(channels := s.channels[k := ch.(returned := ch.returned[1..])], freed := s.freed + [ch.returned[0]])
  }

  predicate Runs(s: State, acts: seq<Action>, s': State)
    decreases acts
  {
    if acts == [] then s' == s
    else Enabled(s, acts[0]) && Runs(Do(s, acts[0]), acts[1..], s')
  }

  /** Copies of message `m` that one channel still has. */
  function Copies(ch: Channel, m: nat): nat {
    Occurrences(ch.sent, m) + ch.held[m] + Occurrences(ch.returned, m)
  }

  function Outstanding(channels: seq<Channel>, m: nat): nat {
    if channels == [] then 0 else Copies(channels[0], m) + Outstanding(channels[1..], m)
  }

  function PushesOf(s: State, m: nat): nat {
    if m < |s.reached| then s.reached[m] else 0
  }

  /** Every push of a message is still under way or has been deallocated once. */
  ghost predicate Inv(s: State) {
    && (forall m: nat :: Outstanding(s.channels, m) + Occurrences(s.freed, m) == PushesOf(s, m))
    && forall m: nat :: PushesOf(s, m) <= |s.channels|
  }

  lemma {:induction false} OutstandingUpdate(channels: seq<Channel>, k: nat, ch: Channel, m: nat)
    requires k < |channels|
    ensures Outstanding(channels[k := ch], m) == Outstanding(channels, m) - Copies(channels[k], m) + Copies(ch, m)
  {
    if k > 0 {
      assert channels[k := ch][1..] == channels[1..][k - 1 := ch];
      OutstandingUpdate(channels[1..], k - 1, ch, m);
    } else {
      assert channels[k := ch][1..] == channels[1..];
    }
  }

  /** A send makes one copy for each channel it reaches. */
  lemma {:induction false} PushAllCounts(channels: seq<Channel>, capacity: nat, x: nat, m: nat)
    ensures Outstanding(PushAll(channels, capacity, x), m)
         == Outstanding(channels, m) + (if m == x then Reach(channels, capacity) else 0)
  {
    if channels != [] && |channels[0].sent| < capacity {
      PushAllCounts(channels[1..], capacity, x, m);
      Append(channels[0].sent, x, m);
      var after := channels[0].(sent := channels[0].sent + [x]);
      assert PushAll(channels, capacity, x) == [after] + PushAll(channels[1..], capacity, x);
    }
  }

  lemma CountStep(s: State, a: Action, m: nat)
    requires Enabled(s, a)
    ensures Outstanding(Do(s, a).channels, m) + Occurrences(Do(s, a).freed, m) - PushesOf(Do(s, a), m)
         == Outstanding(s.channels, m) + Occurrences(s.freed, m) - PushesOf(s, m)
  {
    hide Outstanding, Occurrences, PushAll, Reach;
    match a
    case Send => PushAllCounts(s.channels, s.capacity, |s.reached|, m);
    case Receive(k) =>
      OutstandingUpdate(s.channels, k, Do(s, a).channels[k], m);
      Behead(s.channels[k].sent, m);
    case DropSample(k, x) =>
      OutstandingUpdate(s.channels, k, Do(s, a).channels[k], m);
      Append(s.channels[k].returned, x, m);
    case ReclaimOne(k) =>
      OutstandingUpdate(s.channels, k, Do(s, a).channels[k], m);
      Behead(s.channels[k].returned, m);
      Append(s.freed, s.channels[k].returned[0], m);
  }

  lemma InvStep(s: State, a: Action)
    requires Inv(s) && Enabled(s, a)
    ensures Inv(Do(s, a)) && |Do(s, a).channels| == |s.channels|
  {
    forall m: nat
      ensures Outstanding(Do(s, a).channels, m) + Occurrences(Do(s, a).freed, m) == PushesOf(Do(s, a), m)
    {
      CountStep(s, a, m);
    }
    hide Outstanding, Occurrences;
    forall m: nat ensures PushesOf(Do(s, a), m) <= |s.channels| {
      assert PushesOf(s, m) <= |s.channels|;
    }
  }

  lemma {:induction false} RunInv(s: State, acts: seq<Action>, s': State)
    requires Inv(s) && Runs(s, acts, s')
    ensures Inv(s') && |s'.channels| == |s.channels|
    decreases acts
  {
    if acts != [] {
      InvStep(s, acts[0]);
      hide Inv, Do;
      RunInv(Do(s, acts[0]), acts[1..], s');
    }
  }

  lemma {:induction false} NothingOutstanding(channels: seq<Channel>, m: nat)
    requires forall k :: 0 <= k < |channels| ==> channels[k] == Idle()
    ensures Outstanding(channels, m) == 0
  {
    if channels != [] {
      assert channels[0] == Idle();
      forall k | 0 <= k < |channels| - 1 ensures channels[1..][k] == Idle() {
        assert channels[1..][k] == channels[k + 1];
      }
      NothingOutstanding(channels[1..], m);
    }
  }

  function Idle(): Channel {
    Channel([], multiset{}, [])
  }

  predicate AtRest(s: State) {
    forall k :: 0 <= k < |s.channels| ==> s.channels[k] == Idle()
  }

  /** Once everything has been received, dropped and reclaimed, each message's chunk has been
      deallocated once for every channel it was pushed to. */
  lemma FreedOncePerPush(n: nat, capacity: nat, acts: seq<Action>, s: State, m: nat)
    requires Runs(Init(n, capacity), acts, s) && AtRest(s) && m < |s.reached|
    ensures Occurrences(s.freed, m) == s.reached[m] <= n
  {
    InitHolds(n, capacity);
    RunInv(Init(n, capacity), acts, s);
    NothingOutstanding(s.channels, m);
    assert PushesOf(s, m) == s.reached[m];
    hide Outstanding, Occurrences;
  }

  lemma InitHolds(n: nat, capacity: nat)
    ensures Inv(Init(n, capacity))
  {
    forall m: nat ensures Outstanding(Init(n, capacity).channels, m) == 0 {
      NothingOutstanding(Init(n, capacity).channels, m);
    }
  }

  /** A chunk that reached all subscribers comes back exactly once if and only if there is exactly
      one subscriber: with none it is never deallocated, with several it is deallocated repeatedly. */
  lemma ExactlyOnceIffOneChannel(n: nat, capacity: nat, acts: seq<Action>, s: State, m: nat)
    requires Runs(Init(n, capacity), acts, s) && AtRest(s) && m < |s.reached| && s.reached[m] == n
    ensures Occurrences(s.freed, m) == 1 <==> n == 1
    ensures n == 0 ==> m !in s.freed
  {
    FreedOncePerPush(n, capacity, acts, s, m);
    if n == 0 { NotIn(s.freed, m); }
  }

  // ----- Where a message goes, and in which order it is taken -----

  /** `send` puts the message behind those in every channel before the first full one, and nowhere else. */
  lemma {:induction false} SendReaches(channels: seq<Channel>, capacity: nat, m: nat)
    ensures var n := Reach(channels, capacity);
            && (n < |channels| ==> |channels[n].sent| >= capacity)
            && forall k :: 0 <= k < |channels| ==>
                 && (k < n ==> |channels[k].sent| < capacity)
                 && PushAll(channels, capacity, m)[k]
                    == if k < n then channels[k].(sent := channels[k].sent + [m]) else channels[k]
    decreases channels
  {
    if channels != [] && |channels[0].sent| < capacity {
      SendReaches(channels[1..], capacity, m);
      var n := Reach(channels, capacity);
      if n < |channels| { assert channels[n] == channels[1..][n - 1]; }
      forall k | 0 < k < |channels|
        ensures PushAll(channels, capacity, m)[k] == PushAll(channels[1..], capacity, m)[k - 1]
        ensures channels[k] == channels[1..][k - 1]
      {
      }
    }
  }

  /** The messages waiting in a channel are different sends, oldest first. */
  predicate Ordered(ch: Channel, sends: nat) {
    && (forall k :: 0 <= k < |ch.sent| ==> ch.sent[k] < sends)
    && forall j, k :: 0 <= j < k < |ch.sent| ==> ch.sent[j] < ch.sent[k]
  }

  lemma OrderedStep(s: State, a: Action)
    requires Enabled(s, a) && forall k :: 0 <= k < |s.channels| ==> Ordered(s.channels[k], |s.reached|)
    ensures |Do(s, a).channels| == |s.channels|
    ensures forall k :: 0 <= k < |s.channels| ==> Ordered(Do(s, a).channels[k], |Do(s, a).reached|)
  {
    if a.Send? {
      SendReaches(s.channels, s.capacity, |s.reached|);
      hide PushAll, Reach;
    }
  }

  /** In every run each subscriber takes its messages in the order in which they were sent. */
  lemma {:induction false} OldestFirst(s: State, acts: seq<Action>, s': State)
    requires Runs(s, acts, s') && forall k :: 0 <= k < |s.channels| ==> Ordered(s.channels[k], |s.reached|)
    ensures |s'.channels| == |s.channels|
    ensures forall k :: 0 <= k < |s'.channels| ==> Ordered(s'.channels[k], |s'.reached|)
    ensures forall k: nat :: Enabled(s', Receive(k)) ==>
              var m := s'.channels[k].sent[0];
              && Do(s', Receive(k)).channels[k].held == s'.channels[k].held + multiset{m}
              && forall j :: 0 < j < |s'.channels[k].sent| ==> m < s'.channels[k].sent[j]
    decreases acts
  {
    if acts != [] {
      OrderedStep(s, acts[0]);
      hide Do, Ordered;
      OldestFirst(Do(s, acts[0]), acts[1..], s');
    }
  }

  // ----- Such runs exist for every number of channels -----

  lemma {:induction false} RunExtend(s: State, acts: seq<Action>, mid: State, a: Action)
    requires Runs(s, acts, mid) && Enabled(mid, a)
    ensures Runs(s, acts + [a], Do(mid, a))
    decreases acts
  {
    if acts == [] {
      assert acts + [a] == [a];
      assert Runs(Do(mid, a), [a][1..], Do(mid, a));
    } else {
      assert (acts + [a])[1..] == acts[1..] + [a];
      RunExtend(Do(s, acts[0]), acts[1..], mid, a);
    }
  }

  function Carrying(m: nat): Channel {
    Channel([m], multiset{}, [])
  }

  lemma {:induction false} FirstSend(channels: seq<Channel>, capacity: nat)
    requires capacity >= 1 && forall k :: 0 <= k < |channels| ==> channels[k] == Idle()
    ensures Reach(channels, capacity) == |channels|
    ensures forall k :: 0 <= k < |channels| ==> PushAll(channels, capacity, 0)[k] == Carrying(0)
  {
    if channels != [] {
      forall k | 0 <= k < |channels| - 1 ensures channels[1..][k] == Idle() {
        assert channels[1..][k] == channels[k + 1];
      }
      FirstSend(channels[1..], capacity);
      assert channels[0] == Idle() && [] + [0] == [0];
      assert PushAll(channels, capacity, 0) == [Carrying(0)] + PushAll(channels[1..], capacity, 0);
    }
  }

  /** One send to `n` subscribers, each of which receives, drops and is reclaimed from. */
  lemma {:induction false} RoundTrip(n: nat, capacity: nat, done: nat) returns (acts: seq<Action>, s: State)
    requires capacity >= 1 && done <= n
    ensures Runs(Init(n, capacity), acts, s) && s.reached == [n] && s.capacity == capacity && |s.channels| == n
    ensures forall k :: 0 <= k < n ==> s.channels[k] == if k < done then Idle() else Carrying(0)
    decreases done
  {
    var start := Init(n, capacity);
    if done == 0 {
      FirstSend(start.channels, capacity);
      RunExtend(start, [], start, Send);
      acts, s := [] + [Send], Do(start, Send);
    } else {
      var acts0, s0 := RoundTrip(n, capacity, done - 1);
      var k := done - 1;
      acts, s := ServeOne(start, acts0, s0, k);
    }
  }

  lemma ServeOne(start: State, acts0: seq<Action>, s0: State, k: nat) returns (acts: seq<Action>, s: State)
    requires Runs(start, acts0, s0) && k < |s0.channels| && s0.channels[k] == Carrying(0) && s0.capacity >= 1
    ensures Runs(start, acts, s) && s == s0.(channels := s0.channels[k := Idle()], freed := s0.freed + [0])
  {
    var a1, a2, a3 := Receive(k), DropSample(k, 0), ReclaimOne(k);
    var s1 := Do(s0, a1);
    assert s1.channels[k] == Channel([], multiset{0}, []);
    var s2 := Do(s1, a2);
    assert multiset{0} - multiset{0} == multiset{} && [] + [0] == [0];
    assert s2.channels[k] == Channel([], multiset{}, [0]);
    RunExtend(start, acts0, s0, a1);
    RunExtend(start, acts0 + [a1], s1, a2);
    RunExtend(start, acts0 + [a1] + [a2], s2, a3);
    acts, s := acts0 + [a1] + [a2] + [a3], Do(s2, a3);
    assert s.channels == s0.channels[k := Idle()];
  }
}
