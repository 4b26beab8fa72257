/** What the bound on unanswered requests guarantees: no allocation and no push fails, and no chunk
    is lost. */
module ReqResBounds {
  import opened Words
  import opened Sums
  import opened Counts
  import Spsc = SpscSteps
  import opened ReqResSteps

  /** How many chunks a client's send, channels and receive, and the answer to it, hold. */
  function Stage(c: Client): int {
    One(!c.sending.SendIdle?) + |c.requests| + |c.responses| + One(!c.receiving.ReceiveIdle?)
    + One(!c.responding.RespondIdle?)
  }

  /** A client's requests whose response it has not consumed. */
  function Unanswered(c: Client): int {
    c.started - c.finished
  }

  /** All unanswered requests together. */
  function Pending(s: State): int {
    Sum(s.clients, Unanswered)
  }

  function InService(s: State): nat {
    One(s.serving.ServeRead? || s.serving.ServeFree?)
  }

  /** Every chunk is free, in a stage, in service or lost. */
  predicate Stored(s: State) {
    |s.memory| == |s.free| + Sum(s.clients, Stage) + InService(s) + |s.leaked|
  }

  /** Every unanswered request is in exactly one stage, and all but the active ones hold a chunk. */
  predicate Accounted(s: State) {
    Pending(s) == Sum(s.clients, Stage) + InService(s) + |s.active| && Stored(s) && s.leaked == {} && s.lost == 0
  }

  predicate BoundedInv(s: State) {
    Accounted(s) && Pending(s) <= s.limit <= |s.memory| && s.limit <= s.capacity
  }

  /** A client starts a request only while fewer than the limit are unanswered. */
  predicate Bounded(s: State, a: Action) {
    a.StartSend? ==> Pending(s) < s.limit
  }

  predicate AllBounded(s: State, acts: seq<Action>)
    decreases acts
  {
    acts == [] ||
    (Enabled(s, acts[0]) && Bounded(s, acts[0]) && AllBounded(Do(s, acts[0]), acts[1..]))
  }

  /** The limits for which a server can be created: its pool's 32-bit chunk count is 0 for the other
      multiples of 2^31, which `create` refuses by an assertion. */
  lemma CreatableExactly(limit: nat)
    requires limit < 0x8000_0000_0000_0000
    ensures Creatable(limit) <==> limit == 0 || limit % 0x8000_0000 != 0
  {
    var h := 0x8000_0000;
    var q, r := limit / h, limit % h;
    assert limit * 2 == q * U32 + 2 * r;
    DivModUnique(limit * 2, U32, q, 2 * r);
    if limit * 2 < 16 { DivModUnique(limit, h, 0, limit); }
  }

  /** The pool is large enough for the limit exactly when the limit is below 2^31; from there on
      the 32-bit chunk count is too small. */
  lemma PoolCoversLimit(limit: nat)
    requires limit < 0x8000_0000_0000_0000
    ensures limit <= ChunkCount(limit) <==> limit < 0x8000_0000
  {
    if limit >= 0x8000_0000 {
      var q, r := limit * 2 / U32, limit * 2 % U32;
      assert limit * 2 == q * U32 + r;
    }
  }

  lemma InitBounded(limit: nat, clients: nat)
    requires limit < 0x8000_0000
    ensures BoundedInv(Init(limit, clients))
  {
    PoolCoversLimit(limit);
    var k := Spsc.RoundedIsPower(limit);
    SumRepeat(clients, NewClient(), Stage);
    SumRepeat(clients, NewClient(), Unanswered);
    hide ChunkCount;
  }

  lemma StageAtMost(s: State, i: nat)
    requires i < |s.clients|
    ensures Sum(s.clients, Stage) >= Stage(s.clients[i])
  {
    SumAtLeast(s.clients, Stage, i);
  }

  /** `allocate` finds a free chunk: fewer chunks are out than requests are unanswered. */
  lemma AllocateSucceeds(s: State, a: Action)
    requires BoundedInv(s) && Enabled(s, a) && Bounded(s, a) && (a.StartSend? || a.StartRespond?)
    ensures s.free != []
  {
  }

  /** Neither channel of the client is full when something is about to be pushed. */
  lemma PushSucceeds(s: State, i: nat)
    requires BoundedInv(s) && i < |s.clients|
    ensures s.clients[i].sending.SendPush? ==> |s.clients[i].requests| < s.capacity
    ensures s.clients[i].responding.RespondPush? ==> |s.clients[i].responses| < s.capacity
  {
    StageAtMost(s, i);
  }

  lemma ClientSums(s: State, i: nat, c: Client)
    requires i < |s.clients|
    ensures Sum(s.clients[i := c], Stage) == Sum(s.clients, Stage) - Stage(s.clients[i]) + Stage(c)
    ensures Sum(s.clients[i := c], Unanswered)
         == Sum(s.clients, Unanswered) - Unanswered(s.clients[i]) + Unanswered(c)
  {
    SumUpdate(s.clients, i, c, Stage);
    SumUpdate(s.clients, i, c, Unanswered);
  }

  lemma ClientStep(s: State, a: Action)
    requires BoundedInv(s) && Enabled(s, a) && Bounded(s, a) && HasClient(a)
    ensures BoundedInv(Do(s, a))
  {
    hide Sum;
    ClientSums(s, a.i, Do(s, a).clients[a.i]);
    if a.StartSend? { AllocateSucceeds(s, a); }
    if a.PushRequest? || a.PushResponse? { PushSucceeds(s, a.i); }
  }

  lemma ServerStep(s: State, a: Action)
    requires BoundedInv(s) && Enabled(s, a) && !HasClient(a) && ActiveClients(s)
    ensures BoundedInv(Do(s, a))
  {
    hide Sum;
    match a
    case Scan =>
      var i := s.serving.i;
      if i < |s.clients| && s.clients[i].requests != [] { ClientSums(s, i, Do(s, a).clients[i]); }
    case StartRespond(k, _) =>
      AllocateSucceeds(s, a);
      ClientSums(s, s.active[k].client, Do(s, a).clients[s.active[k].client]);
    case _ =>
  }

  /** Every request being served belongs to a client. */
  predicate ActiveClients(s: State) {
    && (s.serving.ServeRead? || s.serving.ServeFree? ==> s.serving.i < |s.clients|)
    && ClientsBelow(s.active, |s.clients|)
  }

  predicate ClientsBelow(active: seq<ActiveRequest>, n: nat) {
    forall k :: 0 <= k < |active| ==> active[k].client < n
  }

  lemma ActiveClientsStep(s: State, a: Action)
    requires ActiveClients(s) && Enabled(s, a)
    ensures ActiveClients(Do(s, a)) && |Do(s, a).clients| == |s.clients| && Do(s, a).limit == s.limit
  {
    if a.StartRespond? { WithoutBelow(s.active, a.k, |s.clients|); }
    if a.FreeRequest? { AppendBelow(s.active, ActiveRequest(s.serving.i, s.serving.value), |s.clients|); }
    hide ClientsBelow, Without;
  }

  lemma WithoutBelow(active: seq<ActiveRequest>, k: nat, n: nat)
    requires ClientsBelow(active, n) && k < |active|
    ensures ClientsBelow(Without(active, k), n)
  {
  }

  lemma AppendBelow(active: seq<ActiveRequest>, r: ActiveRequest, n: nat)
    requires ClientsBelow(active, n) && r.client < n
    ensures ClientsBelow(active + [r], n)
  {
  }

  lemma {:induction false} RunBounded(s: State, acts: seq<Action>, s': State)
    requires BoundedInv(s) && ActiveClients(s) && Runs(s, acts, s') && AllBounded(s, acts)
    ensures BoundedInv(s') && ActiveClients(s') && s'.limit == s.limit
    decreases acts
  {
    if acts != [] {
      hide BoundedInv, ActiveClients, Do;
      if HasClient(acts[0]) { ClientStep(s, acts[0]); } else { ServerStep(s, acts[0]); }
      ActiveClientsStep(s, acts[0]);
      RunBounded(Do(s, acts[0]), acts[1..], s');
    }
  }

  /** If the unanswered requests never exceed the limit, then in every run of any number of clients
      no allocate and no channel push fails, no chunk is lost, and once all responses are consumed
      every chunk is free again. */
  lemma NothingFails(limit: nat, clients: nat, acts: seq<Action>, s: State)
    requires limit < 0x8000_0000
    requires Runs(Init(limit, clients), acts, s) && AllBounded(Init(limit, clients), acts)
    ensures s.leaked == {} && s.lost == 0
    ensures forall a :: Enabled(s, a) && Bounded(s, a) && (a.StartSend? || a.StartRespond?) ==> s.free != []
    ensures forall i :: 0 <= i < |s.clients| ==>
              && (s.clients[i].sending.SendPush? ==> |s.clients[i].requests| < s.capacity)
              && (s.clients[i].responding.RespondPush? ==> |s.clients[i].responses| < s.capacity)
    ensures Pending(s) <= limit && (Pending(s) == 0 ==> |s.free| == ChunkCount(limit))
  {
    InitBounded(limit, clients);
    RunBounded(Init(limit, clients), acts, s);
    InitConserved(limit, clients);
    RunConserved(Init(limit, clients), acts, s);
    forall i | 0 <= i < |s.clients|
      ensures s.clients[i].sending.SendPush? ==> |s.clients[i].requests| < s.capacity
      ensures s.clients[i].responding.RespondPush? ==> |s.clients[i].responses| < s.capacity {
      PushSucceeds(s, i);
    }
    forall a | Enabled(s, a) && Bounded(s, a) && (a.StartSend? || a.StartRespond?) ensures s.free != [] {
      AllocateSucceeds(s, a);
    }
    SumBounds0(s.clients, Stage);
  }

  // ----- A client that outruns its server -----

  /** One client at rest, with every free chunk inside the memory. */
  predicate Resting(s: State) {
    && |s.clients| == 1 && s.clients[0].sending.SendIdle?
    && forall k :: 0 <= k < |s.free| ==> s.free[k] < |s.memory|
  }

  function SendActs(): seq<Action> {
    [StartSend(0, []), WriteRequest(0), PushRequest(0)]
  }

  /** The states that one send passes. */
  function Sent(s: State, n: nat): State
    requires Resting(s) && s.free != [] && n <= 3
  {
    assert s.free[0] < |s.memory|;
    if n == 0 then s
    else if n == 1 then Do(s, SendActs()[0])
    else if n == 2 then Do(Do(s, SendActs()[0]), SendActs()[1])
    else Do(Do(Do(s, SendActs()[0]), SendActs()[1]), SendActs()[2])
  }

  /** A send that nobody answers takes one chunk; it leaves one more request unanswered, or loses the
      chunk when the queue is full. */
  lemma OneSend(s: State)
    requires Resting(s) && s.free != []
    ensures var s' := Sent(s, 3);
            && Resting(s') && s'.free == s.free[1..] && s'.limit == s.limit && s'.capacity == s.capacity
            && Pending(s') == Pending(s) + 1
            && if |s.clients[0].requests| < s.capacity
               then |s'.clients[0].requests| == |s.clients[0].requests| + 1 && s'.leaked == s.leaked
               else s'.leaked == s.leaked + {s.free[0]}
  {
    var s' := Sent(s, 3);
    assert |s'.memory| == |s.memory|;
    assert s.clients == [s.clients[0]] && s'.clients == [s'.clients[0]];
    OnePending(s.clients[0]);
    OnePending(s'.clients[0]);
  }

  lemma OnePending(c: Client)
    ensures Sum([c], Unanswered) == Unanswered(c)
  {
    assert [c][..0] == [];
  }

  lemma PrependSend(s: State, acts: seq<Action>, e: State)
    requires Resting(s) && s.free != [] && Runs(Sent(s, 3), acts, e)
    ensures Runs(s, SendActs() + acts, e)
    ensures Pending(s) < s.limit && AllBounded(Sent(s, 3), acts) ==> AllBounded(s, SendActs() + acts)
  {
    var b, s1, s2, s3 := SendActs(), Sent(s, 1), Sent(s, 2), Sent(s, 3);
    assert b + acts == [b[0]] + ([b[1]] + ([b[2]] + acts));
    assert s.free[0] < |s.memory|;
    assert s1 == Do(s, b[0]) && s2 == Do(s1, b[1]) && s3 == Do(s2, b[2]);
    hide Do, Enabled, Pending, Resting, Sent;
    PrependOne(s2, b[2], acts, e);
    PrependOne(s1, b[1], [b[2]] + acts, e);
    PrependOne(s, b[0], [b[1]] + ([b[2]] + acts), e);
  }

  lemma PrependOne(s: State, a: Action, acts: seq<Action>, e: State)
    requires Enabled(s, a) && Runs(Do(s, a), acts, e)
    ensures Runs(s, [a] + acts, e)
    ensures Bounded(s, a) && AllBounded(Do(s, a), acts) ==> AllBounded(s, [a] + acts)
  {
    assert ([a] + acts)[1..] == acts;
  }

  /** `n` sends that nobody answers; within the limit if the limit allows that many. */
  lemma {:induction false} ManySends(s: State, n: nat) returns (acts: seq<Action>, e: State)
    requires Resting(s) && n <= |s.free| && |s.clients[0].requests| + n <= s.capacity
    ensures Runs(s, acts, e) && Resting(e) && |e.free| == |s.free| - n
    ensures |e.clients[0].requests| == |s.clients[0].requests| + n && Pending(e) == Pending(s) + n
    ensures e.limit == s.limit && e.capacity == s.capacity
    ensures Pending(s) + n <= s.limit ==> AllBounded(s, acts)
    decreases n
  {
    if n == 0 {
      acts, e := [], s;
    } else {
      OneSend(s);
      hide Resting, Do, Enabled, Pending, Sent;
      acts, e := ManySends(Sent(s, 3), n - 1);
      PrependSend(s, acts, e);
      acts := SendActs() + acts;
    }
  }

  /** From 2^31 on the guarantee fails wherever a server can be created: one client that stays within
      the limit runs the pool dry, and its next send finds no chunk. */
  lemma LargeLimitsRunDry(limit: nat) returns (acts: seq<Action>, s: State)
    requires Creatable(limit) && 0x8000_0000 <= limit < 0x8000_0000_0000_0000
    ensures Runs(Init(limit, 1), acts, s) && AllBounded(Init(limit, 1), acts) && |s.memory| > 0
    ensures Enabled(s, StartSend(0, [])) && Bounded(s, StartSend(0, [])) && s.free == []
  {
    PoolCoversLimit(limit);
    var k := Spsc.RoundedIsPower(limit);
    var s0 := Init(limit, 1);
    InitConserved(limit, 1);
    hide ChunkCount, Spsc.Rounded;
    SumRepeat(1, NewClient(), Unanswered);
    acts, s := ManySends(s0, |s0.free|);
    RunConserved(s0, acts, s);
  }

  /** A step within the limit that takes a chunk from the pool. */
  predicate Allocates(s: State, a: Action) {
    Enabled(s, a) && Bounded(s, a) && (a.StartSend? || a.StartRespond?)
  }

  /** No run within the limit, with any number of clients, finds the pool empty. */
  ghost predicate NeverRunsDry(limit: nat) {
    forall clients: nat, acts: seq<Action>, s: State, a: Action ::
      (Runs(Init(limit, clients), acts, s) && AllBounded(Init(limit, clients), acts) && Allocates(s, a)) ==>
        s.free != []
  }

  /** Where a server can be created, the limit is a guarantee if and only if it is below 2^31. */
  lemma GuaranteeExactly(limit: nat)
    requires Creatable(limit) && limit < 0x8000_0000_0000_0000
    ensures NeverRunsDry(limit) <==> limit < 0x8000_0000
  {
    if limit < 0x8000_0000 {
      forall clients: nat, acts: seq<Action>, s: State, a: Action |
        Runs(Init(limit, clients), acts, s) && AllBounded(Init(limit, clients), acts) && Allocates(s, a)
        ensures s.free != []
      {
        NothingFails(limit, clients, acts, s);
      }
    } else {
      var acts, s := LargeLimitsRunDry(limit);
      assert Allocates(s, StartSend(0, []));
    }
  }

  // ----- Lost chunks -----

  /** A push that meets a full queue. */
  predicate MeetsFull(s: State, a: Action)
    requires Enabled(s, a)
  {
    || (a.PushRequest? && |s.clients[a.i].requests| >= s.capacity)
    || (a.PushResponse? && |s.clients[a.i].responses| >= s.capacity)
  }

  function FullPushes(s: State, acts: seq<Action>): nat
    decreases acts
  {
    if acts == [] || !Enabled(s, acts[0]) then 0
    else One(MeetsFull(s, acts[0])) + FullPushes(Do(s, acts[0]), acts[1..])
  }

  lemma LeakStep(s: State, a: Action)
    requires Conserved(s) && Enabled(s, a)
    ensures s.leaked <= Do(s, a).leaked && |Do(s, a).leaked| == |s.leaked| + One(MeetsFull(s, a))
  {
    hide Conserved;
    if a.PushRequest? { SendingNotLeaked(s, a.i); }
    if a.PushResponse? { RespondingNotLeaked(s, a.i); }
  }

  lemma {:induction false} RunLeaks(s: State, acts: seq<Action>, s': State)
    requires Conserved(s) && Runs(s, acts, s')
    ensures s.leaked <= s'.leaked && |s'.leaked| == |s.leaked| + FullPushes(s, acts)
    decreases acts
  {
    if acts != [] {
      LeakStep(s, acts[0]);
      ConservedStep(s, acts[0]);
      hide Conserved, Do, MeetsFull;
      RunLeaks(Do(s, acts[0]), acts[1..], s');
    }
  }

  /** In every run exactly the pushes that meet a full queue lose a chunk, one each; a lost chunk is
      in no queue, in nobody's hands and not free, and stays lost whatever runs on. */
  lemma LeaksExactly(limit: nat, clients: nat, acts: seq<Action>, s: State, more: seq<Action>, s': State)
    requires Runs(Init(limit, clients), acts, s) && Runs(s, more, s')
    ensures |s.leaked| == FullPushes(Init(limit, clients), acts)
    ensures s.leaked == {} <==> FullPushes(Init(limit, clients), acts) == 0
    ensures forall x <- s.leaked :: x in s'.leaked && x < ChunkCount(limit) && x !in s'.free
  {
    InitConserved(limit, clients);
    RunConserved(Init(limit, clients), acts, s);
    RunLeaks(Init(limit, clients), acts, s);
    RunConserved(s, more, s');
    RunLeaks(s, more, s');
    forall x <- s.leaked ensures x in s'.leaked && x < ChunkCount(limit) && x !in s'.free {
      LeakedElsewhere(s', x);
    }
  }

  lemma LeakedElsewhere(s: State, x: nat)
    requires Conserved(s) && x in s.leaked
    ensures x < |s.memory| && x !in s.free
  {
    hide Occurrences;
    assert PlaceCount(s, x) == One(x < |s.memory|);
    SumBounds0(s.clients, ClientPlaces(x));
    if j :| 0 <= j < |s.free| && s.free[j] == x { Occurs(s.free, j); }
  }

  /** Some run with some number of clients loses a chunk. */
  ghost predicate CanLeak(limit: nat) {
    exists clients: nat, acts: seq<Action>, s: State :: Runs(Init(limit, clients), acts, s) && s.leaked != {}
  }

  /** Chunks can be lost exactly when a queue holds fewer than the pool has. */
  lemma LeakPossibleExactly(limit: nat)
    ensures CanLeak(limit) <==> Spsc.Rounded(limit) < ChunkCount(limit)
  {
    if Spsc.Rounded(limit) < ChunkCount(limit) {
      var acts, s := OutrunServer(limit);
    } else if CanLeak(limit) {
      var clients: nat, acts: seq<Action>, s: State :| Runs(Init(limit, clients), acts, s) && s.leaked != {};
      InitConserved(limit, clients);
      InitStored(limit, clients);
      RunStored(Init(limit, clients), acts, s);
    }
  }

  /** One client that sends one request more than its queue holds, while the server is idle. */
  lemma OutrunServer(limit: nat) returns (acts: seq<Action>, s: State)
    requires Spsc.Rounded(limit) < ChunkCount(limit)
    ensures Runs(Init(limit, 1), acts, s) && s.leaked != {}
  {
    hide ChunkCount, Spsc.Rounded;
    var s0 := Init(limit, 1);
    var acts0, e := ManySends(s0, s0.capacity);
    OneSend(e);
    s := Sent(e, 3);
    RunAppend(s0, acts0, e, SendActs(), s) by {
      PrependSend(e, [], s);
      assert SendActs() + [] == SendActs();
    }
    acts := acts0 + SendActs();
  }

  lemma {:induction false} RunAppend(s: State, xs: seq<Action>, mid: State, ys: seq<Action>, e: State)
    requires Runs(s, xs, mid) && Runs(mid, ys, e)
    ensures Runs(s, xs + ys, e)
    decreases xs
  {
    hide Do, Enabled;
    if xs == [] {
      assert xs + ys == ys;
    } else {
      assert (xs + ys)[1..] == xs[1..] + ys;
      RunAppend(Do(s, xs[0]), xs[1..], mid, ys, e);
    }
  }

  lemma InitStored(limit: nat, clients: nat)
    ensures Stored(Init(limit, clients))
  {
    hide ChunkCount;
    SumRepeat(clients, NewClient(), Stage);
  }

  lemma StoredStep(s: State, a: Action)
    requires Conserved(s) && Stored(s) && Enabled(s, a)
    ensures Stored(Do(s, a))
  {
    if HasClient(a) { ClientStored(s, a); } else { ServerStored(s, a); }
  }

  lemma ClientStored(s: State, a: Action)
    requires Conserved(s) && Stored(s) && Enabled(s, a) && HasClient(a)
    ensures Stored(Do(s, a))
  {
    hide Conserved, Sum;
    LeakStep(s, a);
    ClientSums(s, a.i, Do(s, a).clients[a.i]);
  }

  lemma ServerStored(s: State, a: Action)
    requires Conserved(s) && Stored(s) && Enabled(s, a) && !HasClient(a)
    ensures Stored(Do(s, a))
  {
    hide Conserved, Sum;
    match a
    case Scan =>
      var i := s.serving.i;
      if i < |s.clients| && s.clients[i].requests != [] { ClientSums(s, i, Do(s, a).clients[i]); }
    case StartRespond(k, _) => ClientSums(s, s.active[k].client, Do(s, a).clients[s.active[k].client]);
    case _ =>
  }

  /** Where a queue holds the whole pool, no push meets a full queue. */
  lemma {:induction false} RunStored(s: State, acts: seq<Action>, s': State)
    requires Conserved(s) && Stored(s) && Runs(s, acts, s') && |s.memory| <= s.capacity && s.leaked == {}
    ensures s'.leaked == {}
    decreases acts
  {
    if acts != [] {
      ConservedStep(s, acts[0]);
      StoredStep(s, acts[0]);
      LeakStep(s, acts[0]);
      NoFullPush(s, acts[0]);
      assert Do(s, acts[0]).capacity == s.capacity;
      hide Conserved, Stored, Do, Enabled;
      RunStored(Do(s, acts[0]), acts[1..], s');
    }
  }

  lemma NoFullPush(s: State, a: Action)
    requires Stored(s) && |s.memory| <= s.capacity && Enabled(s, a)
    ensures !MeetsFull(s, a)
  {
    if a.PushRequest? || a.PushResponse? { StageAtMost(s, a.i); }
  }
}
