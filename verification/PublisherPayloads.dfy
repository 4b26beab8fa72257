/** What becomes of payloads when a publisher has any number of channels. */
module PublisherPayloads {
  import opened Words
  import opened Counts
  import PubSub = PubSubSteps
  import Spsc = SpscSteps

  /** A message under way or held: its chunk and its number among the messages sent. */
  datatype Message = Message(chunk: nat, number: nat)

  datatype Channel = Channel(sendQueue: seq<Message>, held: set<Message>, returnQueue: seq<nat>)

  /** The pool and the memory of the one-channel machine, with a list of channels. The pool is a stack
      of free chunks; once a chunk is released while it is free, it no longer describes the program's
      free-list. */
  datatype State = State(
    maxLoaned: nat, capacity: nat, free: seq<nat>, memory: seq<seq<nat>>, active: nat, loan: PubSub.Loan,
    loaned: set<nat>, dropSubs: nat, channels: seq<Channel>, reclaim: PubSub.Reclaim, leaked: set<nat>,
    sent: seq<seq<nat>>)

  datatype Action =
    | CheckLimit
    | Allocate
    | CountLoan
    | ZeroPayload
    | WriteWord(c: nat, k: nat, v: nat)
    | Send(c: nat)
    | DropFree(c: nat)
    | DropCount
    | Receive(k: nat)
    | DropSample(k: nat, m: Message)
    | ReclaimPop(k: nat)
    | ReclaimDealloc
    | ReclaimSub

  function Idle(): Channel {
    Channel([], {}, [])
  }

  function Init(channels: nat, bufferSize: nat, maxLoaned: nat, words: nat): State {
    var n := PubSub.ChunkCount(bufferSize);
    State(maxLoaned, Spsc.Rounded(bufferSize), Range(n), seq(n, _ => seq(words, _ => 0)), 0, PubSub.LoanIdle, {}, 0,
          seq(channels, _ => Idle()), PubSub.ReclaimIdle, {}, [])
  }

  /** How many channels `send` reaches: it stops at the first full one. */
  function Reached(channels: seq<Channel>, capacity: nat): (n: nat)
    ensures n <= |channels|
  {
    if channels == [] || |channels[0].sendQueue| >= capacity then 0 else 1 + Reached(channels[1..], capacity)
  }

  function PushAll(channels: seq<Channel>, capacity: nat, m: Message): (r: seq<Channel>)
    ensures |r| == |channels|
  {
    if channels == [] || |channels[0].sendQueue| >= capacity then channels
    else [channels[0].(sendQueue := channels[0].sendQueue + [m])] + PushAll(channels[1..], capacity, m)
  }

  predicate Enabled(s: State, a: Action) {
    match a
    case CheckLimit => s.loan.LoanIdle?
    case Allocate => s.loan.LoanAllocate?
    case CountLoan => s.loan.LoanCount?
    case ZeroPayload => s.loan.LoanZero? && s.loan.c < |s.memory|
    case WriteWord(c, k, _) => c in s.loaned && c < |s.memory| && k < |s.memory[c]|
    case Send(c) => c in s.loaned && c < |s.memory|
    case DropFree(c) => c in s.loaned
    case DropCount => s.dropSubs > 0
    case Receive(k) => k < |s.channels|
    case DropSample(k, m) => k < |s.channels| && m in s.channels[k].held
    case ReclaimPop(k) => k < |s.channels| && s.reclaim.ReclaimIdle?
    case ReclaimDealloc => s.reclaim.ReclaimFree?
    case ReclaimSub => s.reclaim.ReclaimCount?
  }

  function WithChannel(s: State, k: nat, ch: Channel): State
    requires k < |s.channels|
  {
    s.(channels := s.channels[k := ch])
  }

  function Zeroed(payload: seq<nat>): seq<nat> {
    seq(|payload|, _ => 0)
  }

  function Do(s: State, a: Action): State
    requires Enabled(s, a)
  {
    match a
    case CheckLimit => if s.active >= s.maxLoaned then s else s.(loan := PubSub.LoanAllocate)
    case Allocate =>
      if s.free == [] then s.(loan := PubSub.LoanIdle) else s.(free := s.free[1..], loan := PubSub.LoanCount(s.free[0]))
    case CountLoan => s.(active := (s.active + 1) % U64, loan := PubSub.LoanZero(s.loan.c))
    case ZeroPayload =>
      var c := s.loan.c;
      s.(memory := s.memory[c := Zeroed(s.memory[c])], loan := PubSub.LoanIdle, loaned := s.loaned + {c})
    case WriteWord(c, k, v) => s.(memory := s.memory[c := PubSub.WithWord(s.memory[c], k, v)])
    case Send(c) =>
      if Reached(s.channels, s.capacity) == 0 then s.(loaned := s.loaned - {c}, leaked := s.leaked + {c})
      else s.(loaned := s.loaned - {c}, channels := PushAll(s.channels, s.capacity, Message(c, |s.sent|)),
              sent := s.sent + [s.memory[c]])
    case DropFree(c) => s.(loaned := s.loaned - {c}, free := [c] + s.free, dropSubs := s.dropSubs + 1)
    case DropCount => s.(active := (s.active + U64 - 1) % U64, dropSubs := s.dropSubs - 1)
    case Receive(k) =>
      var ch := s.channels[k];
      if ch.sendQueue == [] then s
      else WithChannel(s, k, ch.(sendQueue := ch.sendQueue[1..], held := ch.held + {ch.sendQueue[0]}))
    case DropSample(k, m) =>
      var ch := s.channels[k];
      if PubSub.Full(ch.returnQueue, s.capacity) then s
      else WithChannel(s, k, ch.(held := ch.held - {m}, returnQueue := ch.returnQueue + [m.chunk]))
    case ReclaimPop(k) =>
      var ch := s.channels[k];
      if ch.returnQueue == [] then s
      else WithChannel(s.(reclaim := PubSub.ReclaimFree(ch.returnQueue[0])), k, ch.(returnQueue := ch.returnQueue[1..]))
    case ReclaimDealloc => s.(free := [s.reclaim.c] + s.free, reclaim := PubSub.ReclaimCount)
    case ReclaimSub => s.(active := (s.active + U64 - 1) % U64, reclaim := PubSub.ReclaimIdle)
  }

  predicate Runs(s: State, acts: seq<Action>, s': State)
    decreases acts
  {
    if acts == [] then s' == s
    else Enabled(s, acts[0]) && Runs(Do(s, acts[0]), acts[1..], s')
  }

  function At(payloads: seq<seq<nat>>, i: nat): seq<nat> {
    if i < |payloads| then payloads[i] else []
  }

  /** The chunk of the message still has the payload of its send. */
  predicate Kept(s: State, m: Message) {
    At(s.memory, m.chunk) == At(s.sent, m.number)
  }

  /** Every message under way or held still has the payload of its send. */
  predicate Intact(s: State) {
    forall k :: 0 <= k < |s.channels| ==>
      && (forall j :: 0 <= j < |s.channels[k].sendQueue| ==> Kept(s, s.channels[k].sendQueue[j]))
      && forall m <- s.channels[k].held :: Kept(s, m)
  }

  /** In every run with that many channels, payloads are kept. */
  ghost predicate KeepsPayloads(channels: nat, bufferSize: nat, maxLoaned: nat, words: nat) {
    forall acts: seq<Action>, s: State ::
      Runs(Init(channels, bufferSize, maxLoaned, words), acts, s) ==> Intact(s)
  }

  lemma ChannelsKept(s: State, a: Action)
    requires Enabled(s, a)
    ensures |Do(s, a).channels| == |s.channels|
  {
  }

  // ----- Each channel by itself -----

  /** `send` puts the message behind those in every channel before the first full one, and nowhere else. */
  lemma {:induction false} SendReaches(channels: seq<Channel>, capacity: nat, m: Message)
    ensures var n := Reached(channels, capacity);
            && (n < |channels| ==> |channels[n].sendQueue| >= capacity)
            && forall k :: 0 <= k < |channels| ==>
                 && (k < n ==> |channels[k].sendQueue| < capacity)
                 && PushAll(channels, capacity, m)[k]
                    == if k < n then channels[k].(sendQueue := channels[k].sendQueue + [m]) else channels[k]
    decreases channels
  {
    if channels != [] && |channels[0].sendQueue| < capacity {
      SendReaches(channels[1..], capacity, m);
      var n := Reached(channels, capacity);
      if n < |channels| { assert channels[n] == channels[1..][n - 1]; }
      forall k | 0 < k < |channels|
        ensures PushAll(channels, capacity, m)[k] == PushAll(channels[1..], capacity, m)[k - 1]
        ensures channels[k] == channels[1..][k - 1]
      {
      }
    }
  }

  function OnFirst(a: Action): Action {
    match a
    case Receive(_) => Receive(0)
    case DropSample(_, m) => DropSample(0, m)
    case ReclaimPop(_) => ReclaimPop(0)
    case _ => a
  }

  /** A step on channel `k` is the step of a publisher whose only channel is that one. */
  lemma ChannelAlone(s: State, a: Action)
    requires Enabled(s, a) && OnChannel(a) && !a.Send?
    ensures var one := s.(channels := [s.channels[a.k]]);
            && Enabled(one, OnFirst(a)) && |Do(one, OnFirst(a)).channels| == 1
            && Do(s, a) == Do(one, OnFirst(a)).(channels := s.channels[a.k := Do(one, OnFirst(a)).channels[0]])
  {
    hide PubSub.Full;
    var one := s.(channels := [s.channels[a.k]]);
    assert s.channels[a.k := s.channels[a.k]] == s.channels;
  }

  // ----- One channel: the same as the one-channel machine -----

  /** The states agree; message numbers are the numbers of receives and sends. */
  ghost predicate Same(s: State, p: PubSub.State) {
    && s.maxLoaned == p.maxLoaned && s.capacity == p.capacity && s.free == p.free && s.memory == p.memory
    && s.active == p.active && s.loan == p.loan && s.loaned == p.loaned && s.dropSubs == p.dropSubs
    && s.reclaim == p.reclaim && s.leaked == p.leaked && s.sent == p.sent
    && |s.channels| == 1 && SameChannel(s.channels[0], p)
  }

  ghost predicate SameChannel(ch: Channel, p: PubSub.State) {
    && |ch.sendQueue| == |p.sendQueue| && ch.returnQueue == p.returnQueue
    && (forall j :: 0 <= j < |ch.sendQueue| ==> ch.sendQueue[j] == Message(p.sendQueue[j], |p.received| + j))
    && forall m: Message :: m in ch.held <==> m.chunk in p.held && p.held[m.chunk] == m.number
  }

  function ActionOf(a: Action): PubSub.Action {
    match a
    case CheckLimit => PubSub.CheckLimit
    case Allocate => PubSub.Allocate
    case CountLoan => PubSub.CountLoan
    case ZeroPayload => PubSub.ZeroPayload
    case WriteWord(c, k, v) => PubSub.WriteWord(c, k, v)
    case Send(c) => PubSub.Send(c)
    case DropFree(c) => PubSub.DropFree(c)
    case DropCount => PubSub.DropCount
    case Receive(_) => PubSub.Receive
    case DropSample(_, m) => PubSub.DropSample(m.chunk)
    case ReclaimPop(_) => PubSub.ReclaimPop
    case ReclaimDealloc => PubSub.ReclaimDealloc
    case ReclaimSub => PubSub.ReclaimSub
  }

  /** The steps on a channel. */
  predicate OnChannel(a: Action) {
    a.Send? || a.Receive? || a.DropSample? || a.ReclaimPop?
  }

  lemma SimStep(s: State, p: PubSub.State, a: Action)
    requires Same(s, p) && PubSub.Inv(p) && Enabled(s, a)
    ensures PubSub.Enabled(p, ActionOf(a)) && Same(Do(s, a), PubSub.Do(p, ActionOf(a)))
  {
    if OnChannel(a) { SimChannel(s, p, a); } else { SimOwn(s, p, a); }
  }

  lemma SimOwn(s: State, p: PubSub.State, a: Action)
    requires Same(s, p) && Enabled(s, a) && !OnChannel(a)
    ensures PubSub.Enabled(p, ActionOf(a)) && Same(Do(s, a), PubSub.Do(p, ActionOf(a)))
  {
  }

  lemma SimChannel(s: State, p: PubSub.State, a: Action)
    requires Same(s, p) && PubSub.Inv(p) && Enabled(s, a) && OnChannel(a)
    ensures PubSub.Enabled(p, ActionOf(a)) && Same(Do(s, a), PubSub.Do(p, ActionOf(a)))
  {
    hide PubSub.Conserved, PubSub.Counted;
    match a
    case Send(c) => SimSend(s, p, c);
    case Receive(_) => SimReceive(s, p);
    case _ =>
  }

  lemma SimSend(s: State, p: PubSub.State, c: nat)
    requires Same(s, p) && PubSub.Inv(p) && Enabled(s, Send(c))
    ensures PubSub.Enabled(p, PubSub.Send(c)) && Same(Do(s, Send(c)), PubSub.Do(p, PubSub.Send(c)))
  {
    hide PubSub.Conserved, PubSub.Counted;
    var ch := s.channels[0];
    assert s.channels == [ch] && s.channels[1..] == [];
    if |ch.sendQueue| < s.capacity {
      var ch' := ch.(sendQueue := ch.sendQueue + [Message(c, |s.sent|)]);
      assert PushAll(s.channels, s.capacity, Message(c, |s.sent|)) == [ch'];
      assert |s.sent| == |p.received| + |p.sendQueue|;
    }
  }

  lemma SimReceive(s: State, p: PubSub.State)
    requires Same(s, p) && PubSub.Inv(p)
    ensures PubSub.Enabled(p, PubSub.Receive) && Same(Do(s, Receive(0)), PubSub.Do(p, PubSub.Receive))
  {
    if p.sendQueue != [] { PubSub.HeadNotHeld(p); }
    hide PubSub.Conserved, PubSub.Counted;
    assert p.sendQueue != [] ==> p.sendQueue[0] < |p.memory|;
  }

  lemma {:induction false} RunSim(s: State, p: PubSub.State, acts: seq<Action>, s': State) returns (p': PubSub.State)
    requires Same(s, p) && PubSub.Inv(p) && Runs(s, acts, s')
    ensures Same(s', p') && PubSub.Inv(p')
    decreases acts
  {
    hide Same, PubSub.Inv, Do, Enabled, PubSub.Do, PubSub.Enabled;
    if acts == [] {
      p' := p;
    } else {
      SimStep(s, p, acts[0]);
      PubSub.InvStep(p, ActionOf(acts[0]));
      p' := RunSim(Do(s, acts[0]), PubSub.Do(p, ActionOf(acts[0])), acts[1..], s');
    }
  }

  lemma OneChannelKeeps(bufferSize: nat, maxLoaned: nat, words: nat, acts: seq<Action>, s: State)
    requires PubSub.Creatable(bufferSize) && maxLoaned < U64 && Runs(Init(1, bufferSize, maxLoaned, words), acts, s)
    ensures Intact(s)
  {
    hide PubSub.Inv, PubSub.ChunkCount, Spsc.Rounded, Intact;
    PubSub.InitInv(bufferSize, maxLoaned, words);
    var p := RunSim(Init(1, bufferSize, maxLoaned, words), PubSub.Init(bufferSize, maxLoaned, words), acts, s);
    SameKeeps(s, p);
  }

  lemma SameKeeps(s: State, p: PubSub.State)
    requires Same(s, p) && PubSub.Inv(p)
    ensures Intact(s)
  {
    hide PubSub.Conserved, PubSub.Counted;
    var ch := s.channels[0];
    forall j | 0 <= j < |ch.sendQueue| ensures Kept(s, ch.sendQueue[j]) {
      assert ch.sendQueue[j] == Message(p.sendQueue[j], |p.received| + j);
    }
    forall m <- ch.held ensures Kept(s, m) {
      assert m.chunk in p.held;
    }
  }

  // ----- No loans, or empty payloads -----

  /** Nothing was ever loaned. */
  predicate Unused(s: State) {
    && s.maxLoaned == 0 && s.loan.LoanIdle? && s.loaned == {} && s.dropSubs == 0 && s.reclaim.ReclaimIdle?
    && forall k :: 0 <= k < |s.channels| ==> s.channels[k] == Idle()
  }

  lemma {:induction false} RunUnused(s: State, acts: seq<Action>, s': State)
    requires Unused(s) && Runs(s, acts, s')
    ensures Unused(s')
    decreases acts
  {
    if acts != [] {
      assert Unused(Do(s, acts[0]));
      hide Unused, Do, Enabled;
      RunUnused(Do(s, acts[0]), acts[1..], s');
    }
  }

  predicate Blank(s: State) {
    (forall c :: 0 <= c < |s.memory| ==> s.memory[c] == []) && forall m :: 0 <= m < |s.sent| ==> s.sent[m] == []
  }

  lemma {:induction false} RunBlank(s: State, acts: seq<Action>, s': State)
    requires Blank(s) && Runs(s, acts, s')
    ensures Blank(s')
    decreases acts
  {
    if acts != [] {
      BlankStep(s, acts[0]);
      hide Blank, Do, Enabled;
      RunBlank(Do(s, acts[0]), acts[1..], s');
    }
  }

  lemma BlankStep(s: State, a: Action)
    requires Blank(s) && Enabled(s, a)
    ensures Blank(Do(s, a))
  {
    hide PushAll, Reached;
  }

  lemma {:induction false} RunChannels(s: State, acts: seq<Action>, s': State)
    requires Runs(s, acts, s')
    ensures |s'.channels| == |s.channels|
    decreases acts
  {
    if acts != [] {
      ChannelsKept(s, acts[0]);
      hide Do, Enabled;
      RunChannels(Do(s, acts[0]), acts[1..], s');
    }
  }

  // ----- Two channels or more -----

  ghost predicate Reach(s0: State, s: State) {
    exists acts :: Runs(s0, acts, s)
  }

  lemma ReachSelf(s: State)
    ensures Reach(s, s)
  {
    assert Runs(s, [], s);
  }

  lemma {:induction false} Extend(s: State, acts: seq<Action>, mid: State, a: Action)
    requires Runs(s, acts, mid) && Enabled(mid, a)
    ensures Runs(s, acts + [a], Do(mid, a))
    decreases acts
  {
    hide Do, Enabled;
    if acts == [] {
      assert acts + [a] == [a];
      assert Runs(Do(mid, a), [a][1..], Do(mid, a));
    } else {
      assert (acts + [a])[1..] == acts[1..] + [a];
      Extend(Do(s, acts[0]), acts[1..], mid, a);
    }
  }

  lemma ReachStep(s0: State, s: State, a: Action, s': State)
    requires Reach(s0, s) && Enabled(s, a) && s' == Do(s, a)
    ensures Reach(s0, s')
  {
    hide Do, Enabled;
    var acts :| Runs(s0, acts, s);
    Extend(s0, acts, s, a);
  }

  /** After a whole `loan` of the first free chunk. */
  function Loaned(s: State): State
    requires s.free != [] && s.free[0] < |s.memory|
  {
    s.(free := s.free[1..], active := s.active + 1, loaned := s.loaned + {s.free[0]},
       memory := s.memory[s.free[0] := Zeroed(s.memory[s.free[0]])])
  }

  lemma LoanPhase(s0: State, s: State)
    requires Reach(s0, s) && s.loan.LoanIdle? && s.active < s.maxLoaned < U64
    requires s.free != [] && s.free[0] < |s.memory|
    ensures Reach(s0, Loaned(s))
  {
    hide Reach;
    var c := s.free[0];
    var s1 := s.(loan := PubSub.LoanAllocate);
    var s2 := s1.(free := s.free[1..], loan := PubSub.LoanCount(c));
    var s3 := s2.(active := s.active + 1, loan := PubSub.LoanZero(c));
    ReachStep(s0, s, CheckLimit, s1);
    ReachStep(s0, s1, Allocate, s2);
    ReachStep(s0, s2, CountLoan, s3);
    ReachStep(s0, s3, ZeroPayload, Loaned(s));
  }

  function Carrying(m: Message): Channel {
    Channel([m], {}, [])
  }

  lemma {:induction false} SendToIdle(n: nat, capacity: nat, m: Message)
    requires capacity >= 1
    ensures Reached(seq(n, _ => Idle()), capacity) == n
    ensures PushAll(seq(n, _ => Idle()), capacity, m) == seq(n, _ => Carrying(m))
  {
    if n > 0 {
      var channels := seq(n, _ => Idle());
      assert channels[1..] == seq(n - 1, _ => Idle()) && [] + [m] == [m];
      SendToIdle(n - 1, capacity, m);
      assert seq(n, _ => Carrying(m)) == [Carrying(m)] + seq(n - 1, _ => Carrying(m));
    }
  }

  /** A message sent to all channels, received by the first two, and given back by the first. */
  lemma SharePhase(s0: State, s: State, n: nat, p: seq<nat>)
    requires Reach(s0, s) && n >= 2 && s.channels == seq(n, _ => Idle()) && s.capacity >= 1
    requires s.sent == [] && 0 in s.loaned && 0 < |s.memory| && s.memory[0] == p && s.reclaim.ReclaimIdle?
    requires 0 < s.active < U64
    ensures var m := Message(0, 0);
            Reach(s0, s.(loaned := s.loaned - {0}, sent := [p], free := [0] + s.free, active := s.active - 1,
                         channels := seq(n, _ => Carrying(m))[0 := Idle()][1 := Channel([], {m}, [])]))
  {
    hide Reach, PushAll, Reached;
    var m := Message(0, 0);
    SendToIdle(n, s.capacity, m);
    var all := seq(n, _ => Carrying(m));
    var s1 := s.(loaned := s.loaned - {0}, channels := all, sent := [p]);
    assert [] + [p] == [p];
    ReachStep(s0, s, Send(0), s1);
    var s2 := s1.(channels := all[0 := Channel([], {m}, [])]);
    assert Idle().held + {m} == {m} && [m][1..] == [];
    assert all[0] == Carrying(m) && all[1] == Carrying(m);
    ReachStep(s0, s1, Receive(0), s2);
    var s3 := s2.(channels := s2.channels[1 := Channel([], {m}, [])]);
    ReachStep(s0, s2, Receive(1), s3);
    GiveBack(s0, s3, m);
    var end := all[0 := Idle()][1 := Channel([], {m}, [])];
    assert s3.channels[0 := Idle()] == end;
  }

  /** A drop and a reclaim of what it returned. */
  lemma GiveBack(s0: State, s: State, m: Message)
    requires Reach(s0, s) && |s.channels| >= 1 && s.channels[0] == Channel([], {m}, []) && s.capacity >= 1
    requires s.reclaim.ReclaimIdle? && 0 < s.active < U64
    ensures Reach(s0, s.(free := [m.chunk] + s.free, active := s.active - 1, channels := s.channels[0 := Idle()]))
  {
    hide Reach;
    var given := Channel([], {}, [m.chunk]);
    var s1 := s.(channels := s.channels[0 := given]);
    assert {m} - {m} == given.held && [] + [m.chunk] == [m.chunk];
    ReachStep(s0, s, DropSample(0, m), s1);
    ReclaimPhase(s0, s1, m.chunk);
    assert s.channels[0 := given][0 := Idle()] == s.channels[0 := Idle()];
  }

  lemma ReclaimPhase(s0: State, s: State, c: nat)
    requires Reach(s0, s) && |s.channels| >= 1 && s.channels[0] == Channel([], {}, [c])
    requires s.reclaim.ReclaimIdle? && 0 < s.active < U64
    ensures Reach(s0, s.(free := [c] + s.free, active := s.active - 1, channels := s.channels[0 := Idle()]))
  {
    hide Reach;
    var rest := s.channels[0 := Idle()];
    assert [c][1..] == [];
    var s2 := s.(channels := rest, reclaim := PubSub.ReclaimFree(c));
    ReachStep(s0, s, ReclaimPop(0), s2);
    var s3 := s.(channels := rest, free := [c] + s.free, reclaim := PubSub.ReclaimCount);
    ReachStep(s0, s2, ReclaimDealloc, s3);
    ReachStep(s0, s3, ReclaimSub, s.(free := [c] + s.free, active := s.active - 1, channels := rest));
  }

  /** With two channels or more, `reclaim` frees the chunk at the first return and `loan` zeroes it
      while the second subscriber still holds its sample. No chunk is released twice in this run. */
  lemma HeldPayloadChanges(n: nat, bufferSize: nat, maxLoaned: nat, words: nat)
    returns (acts: seq<Action>, s: State, m: Message)
    requires n >= 2 && PubSub.Creatable(bufferSize) && 0 < maxLoaned < U64 && words > 0
    ensures Runs(Init(n, bufferSize, maxLoaned, words), acts, s) && |s.channels| == n
    ensures m in s.channels[1].held && !Kept(s, m)
  {
    var s0 := Init(n, bufferSize, maxLoaned, words);
    var j := Spsc.RoundedIsPower(bufferSize);
    CapacityPositive(bufferSize);
    hide PubSub.ChunkCount, Spsc.Rounded, Reach;
    ReachSelf(s0);
    LoanPhase(s0, s0);
    var s1 := Loaned(s0);
    var p := PubSub.WithWord(Zeroed(s0.memory[0]), 0, 1);
    var s2 := s1.(memory := s1.memory[0 := p]);
    ReachStep(s0, s1, WriteWord(0, 0, 1), s2);
    SharePhase(s0, s2, n, p);
    m := Message(0, 0);
    var s3 := s2.(loaned := s2.loaned - {0}, sent := [p], free := [0] + s2.free, active := s2.active - 1,
                  channels := seq(n, _ => Carrying(m))[0 := Idle()][1 := Channel([], {m}, [])]);
    LoanPhase(s0, s3);
    s := Loaned(s3);
    acts := SomeRun(s0, s);
    assert At(s.memory, 0)[0] == 0 && At(s.sent, 0)[0] == 1;
  }

  lemma CapacityPositive(bufferSize: nat)
    ensures Spsc.Rounded(bufferSize) >= 1
  {
  }

  lemma SomeRun(s0: State, s: State) returns (acts: seq<Action>)
    requires Reach(s0, s)
    ensures Runs(s0, acts, s)
  {
    hide Runs;
    acts :| Runs(s0, acts, s);
  }

  /** Over every run, queued and held payloads keep the payload of their send if and only if there is
      at most one subscriber, or nothing can be loaned, or payloads have no words. */
  lemma PayloadsKeptExactly(channels: nat, bufferSize: nat, maxLoaned: nat, words: nat)
    requires PubSub.Creatable(bufferSize) && maxLoaned < U64
    ensures KeepsPayloads(channels, bufferSize, maxLoaned, words)
            <==> channels <= 1 || maxLoaned == 0 || words == 0
  {
    if channels <= 1 || maxLoaned == 0 || words == 0 {
      forall acts: seq<Action>, s: State | Runs(Init(channels, bufferSize, maxLoaned, words), acts, s)
        ensures Intact(s)
      {
        SimpleKeeps(channels, bufferSize, maxLoaned, words, acts, s);
      }
    } else {
      var acts, s, m := HeldPayloadChanges(channels, bufferSize, maxLoaned, words);
      hide Runs, Kept;
      assert !Intact(s);
    }
  }

  lemma SimpleKeeps(channels: nat, bufferSize: nat, maxLoaned: nat, words: nat, acts: seq<Action>, s: State)
    requires PubSub.Creatable(bufferSize) && maxLoaned < U64 && (channels <= 1 || maxLoaned == 0 || words == 0)
    requires Runs(Init(channels, bufferSize, maxLoaned, words), acts, s)
    ensures Intact(s)
  {
    hide PubSub.Creatable, PubSub.ChunkCount, Spsc.Rounded;
    if channels == 1 {
      OneChannelKeeps(bufferSize, maxLoaned, words, acts, s);
    } else if channels == 0 {
      RunChannels(Init(channels, bufferSize, maxLoaned, words), acts, s);
    } else if maxLoaned == 0 {
      RunUnused(Init(channels, bufferSize, maxLoaned, words), acts, s);
    } else {
      RunBlank(Init(channels, bufferSize, maxLoaned, words), acts, s);
    }
  }
}
