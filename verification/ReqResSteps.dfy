/** Request/response over one shared chunk pool as a step machine. */
module ReqResSteps {
  import opened Words
  import opened Sums
  import opened Counts
  import FL = FreeList
  import Spsc = SpscSteps

  type Payload = seq<nat>

  /** Where `Client::send` stands. */
  datatype Sending =
    | SendIdle
    | SendWrite(chunk: nat, value: Payload)    // chunk allocated, about to write the request
    | SendPush(chunk: nat)                     // request written, about to push its offset

  /** Where `PendingResponse::try_receive` stands. */
  datatype Receiving =
    | ReceiveIdle
    | ReceiveRead(chunk: nat)                  // offset popped, about to copy the response
    | ReceiveFree(chunk: nat, value: Payload)  // response copied, about to deallocate

  /** Where `ActiveRequest::respond` stands, for an answer to this client. */
  datatype Responding =
    | RespondIdle
    | RespondWrite(chunk: nat, value: Payload)
    | RespondPush(chunk: nat)

  /** A client and its two channels. `sent`: its requests in the order they were pushed. `got`: its
      responses in the order they were received. `started`, `finished`: sends that got a chunk, and
      responses consumed. */
  datatype Client = Client(
    sending: Sending, requests: seq<nat>, responses: seq<nat>, receiving: Receiving, responding: Responding,
    sent: seq<Payload>, got: seq<Payload>, started: nat, finished: nat)

  /** Where `Server::receive` stands. */
  datatype Serving =
    | ServeIdle
    | ServeScan(i: nat)                        // about to try client i's request channel
    | ServeRead(i: nat, chunk: nat)            // offset popped, about to copy the request
    | ServeFree(i: nat, chunk: nat, value: Payload)

  datatype ActiveRequest = ActiveRequest(client: nat, value: Payload)

  /** `leaked`: chunks whose push failed. `lost`: how many `respond` calls failed. */
  datatype State = State(
    limit: nat, capacity: nat, free: seq<nat>, memory: seq<Payload>, clients: seq<Client>,
    serving: Serving, active: seq<ActiveRequest>, leaked: set<nat>, lost: nat)

  /** Any number of clients and one server, which may answer different clients at the same time. Each
      pool operation, queue operation and payload copy is one step. */
  datatype Action =
    | StartSend(i: nat, value: Payload)
    | WriteRequest(i: nat)
    | PushRequest(i: nat)
    | BeginServe
    | Scan
    | CopyRequest
    | FreeRequest
    | StartRespond(k: nat, response: Payload)
    | WriteResponse(i: nat)
    | PushResponse(i: nat)
    | PopResponse(i: nat)
    | CopyResponse(i: nat)
    | FreeResponse(i: nat)

  /** `(max_pending_requests * 2).max(16) as u32`. */
  function ChunkCount(limit: nat): nat {
    Max(limit * 2 % U64, 16) % U32
  }

  /** What `UniqueIndexSet::new` asserts of the pool's size; otherwise there is no server. */
  predicate Creatable(limit: nat) {
    0 < ChunkCount(limit) < FL.SENTINEL
  }

  /** A client that has just been created. */
  function NewClient(): Client {
    Client(SendIdle, [], [], ReceiveIdle, RespondIdle, [], [], 0, 0)
  }

  function Init(limit: nat, clients: nat): State {
    var n := ChunkCount(limit);
    State(limit, Spsc.Rounded(limit), Range(n), seq(n, _ => []), seq(clients, _ => NewClient()),
          ServeIdle, [], {}, 0)
  }

  predicate HasClient(a: Action) {
    || a.StartSend? || a.WriteRequest? || a.PushRequest? || a.WriteResponse? || a.PushResponse?
    || a.PopResponse? || a.CopyResponse? || a.FreeResponse?
  }

  predicate Enabled(s: State, a: Action) {
    && (HasClient(a) ==> a.i < |s.clients|)
    && match a
       case StartSend(i, _) => s.clients[i].sending.SendIdle?
       case WriteRequest(i) => s.clients[i].sending.SendWrite? && s.clients[i].sending.chunk < |s.memory|
       case PushRequest(i) => s.clients[i].sending.SendPush? && s.clients[i].sending.chunk < |s.memory|
       case BeginServe => s.serving.ServeIdle?
       case Scan => s.serving.ServeScan?
       case CopyRequest => s.serving.ServeRead? && s.serving.chunk < |s.memory|
       case FreeRequest => s.serving.ServeFree?
       case StartRespond(k, _) =>
         k < |s.active| && s.active[k].client < |s.clients| && s.clients[s.active[k].client].responding.RespondIdle?
       case WriteResponse(i) => s.clients[i].responding.RespondWrite? && s.clients[i].responding.chunk < |s.memory|
       case PushResponse(i) => s.clients[i].responding.RespondPush?
       case PopResponse(i) => s.clients[i].receiving.ReceiveIdle?
       case CopyResponse(i) => s.clients[i].receiving.ReceiveRead? && s.clients[i].receiving.chunk < |s.memory|
       case FreeResponse(i) => s.clients[i].receiving.ReceiveFree?
  }

  function WithClient(s: State, i: nat, c: Client): State
    requires i < |s.clients|
  {
    s.(clients := s.clients[i := c])
  }

  function Without(active: seq<ActiveRequest>, k: nat): seq<ActiveRequest>
    requires k < |active|
  {
    active[..k] + active[k + 1..]
  }

  function Do(s: State, a: Action): State
    requires Enabled(s, a)
  {
    match a
    case StartSend(i, v) =>
      var c := s.clients[i];
      if s.free == [] then s
      else WithClient(s.(free := s.free[1..]), i, c.(sending := SendWrite(s.free[0], v), started := c.started + 1))
    case WriteRequest(i) =>
      var c := s.clients[i];
      WithClient(s.(memory := s.memory[c.sending.chunk := c.sending.value]), i,
                 c.(sending := SendPush(c.sending.chunk)))
    case PushRequest(i) =>
      var c := s.clients[i];
      if |c.requests| >= s.capacity
      then WithClient(s.(leaked := s.leaked + {c.sending.chunk}), i, c.(sending := SendIdle))
      else WithClient(s, i, c.(sending := SendIdle, requests := c.requests + [c.sending.chunk],
                               sent := c.sent + [s.memory[c.sending.chunk]]))
    case BeginServe => s.(serving := ServeScan(0))
    case Scan =>
      var i := s.serving.i;
      if i >= |s.clients| then s.(serving := ServeIdle)
      else if s.clients[i].requests == [] then s.(serving := ServeScan(i + 1))
      else
        var c := s.clients[i];
        WithClient(s.(serving := ServeRead(i, c.requests[0])), i, c.(requests := c.requests[1..]))
    case CopyRequest => s.(serving := ServeFree(s.serving.i, s.serving.chunk, s.memory[s.serving.chunk]))
    case FreeRequest =>
      s.(free := [s.serving.chunk] + s.free, serving := ServeIdle,
         active := s.active + [ActiveRequest(s.serving.i, s.serving.value)])
    case StartRespond(k, response) =>
      var i := s.active[k].client;
      if s.free == [] then s.(active := Without(s.active, k), lost := s.lost + 1)
      else WithClient(s.(free := s.free[1..], active := Without(s.active, k)), i,
                      s.clients[i].(responding := RespondWrite(s.free[0], response)))
    case WriteResponse(i) =>
      var c := s.clients[i];
      WithClient(s.(memory := s.memory[c.responding.chunk := c.responding.value]), i,
                 c.(responding := RespondPush(c.responding.chunk)))
    case PushResponse(i) =>
      var c := s.clients[i];
      if |c.responses| >= s.capacity
      then WithClient(s.(leaked := s.leaked + {c.responding.chunk}, lost := s.lost + 1), i,
                      c.(responding := RespondIdle))
      else WithClient(s, i, c.(responding := RespondIdle, responses := c.responses + [c.responding.chunk]))
    case PopResponse(i) =>
      var c := s.clients[i];
      if c.responses == [] then s
      else WithClient(s, i, c.(responses := c.responses[1..], receiving := ReceiveRead(c.responses[0])))
    case CopyResponse(i) =>
      var c := s.clients[i];
      WithClient(s, i, c.(receiving := ReceiveFree(c.receiving.chunk, s.memory[c.receiving.chunk])))
    case FreeResponse(i) =>
      var c := s.clients[i];
      WithClient(s.(free := [c.receiving.chunk] + s.free), i,
                 c.(receiving := ReceiveIdle, got := c.got + [c.receiving.value], finished := c.finished + 1))
  }

  predicate Runs(s: State, acts: seq<Action>, s': State)
    decreases acts
  {
    if acts == [] then s' == s
    else Enabled(s, acts[0]) && Runs(Do(s, acts[0]), acts[1..], s')
  }

  // ----- Chunk conservation -----

  function SendingChunk(c: Client, x: nat): nat {
    One((c.sending.SendWrite? || c.sending.SendPush?) && c.sending.chunk == x)
  }

  function ReceivingChunk(c: Client, x: nat): nat {
    One((c.receiving.ReceiveRead? || c.receiving.ReceiveFree?) && c.receiving.chunk == x)
  }

  function RespondingChunk(c: Client, x: nat): nat {
    One((c.responding.RespondWrite? || c.responding.RespondPush?) && c.responding.chunk == x)
  }

  /** In how many places of its client chunk `x` is. */
  function ClientPlaces(x: nat): Client -> int {
    (c: Client) =>
      SendingChunk(c, x) + Occurrences(c.requests, x) + Occurrences(c.responses, x) + ReceivingChunk(c, x)
      + RespondingChunk(c, x)
  }

  function ServerPlaces(s: State, x: nat): nat {
    One((s.serving.ServeRead? || s.serving.ServeFree?) && s.serving.chunk == x) + One(x in s.leaked)
  }

  function PlaceCount(s: State, x: nat): int {
    Occurrences(s.free, x) + Sum(s.clients, ClientPlaces(x)) + ServerPlaces(s, x)
  }

  /** Each chunk is in exactly one place. */
  ghost predicate Conserved(s: State) {
    forall x: nat :: PlaceCount(s, x) == One(x < |s.memory|)
  }

  /** Changing one client changes the count by what changed in that client. */
  lemma ClientMove(s: State, i: nat, c: Client, x: nat)
    requires i < |s.clients|
    ensures Sum(s.clients[i := c], ClientPlaces(x))
         == Sum(s.clients, ClientPlaces(x)) - ClientPlaces(x)(s.clients[i]) + ClientPlaces(x)(c)
  {
    SumUpdate(s.clients, i, c, ClientPlaces(x));
  }

  lemma SameClient(s: State, i: nat, x: nat)
    requires i < |s.clients|
    ensures Sum(s.clients, ClientPlaces(x)) >= ClientPlaces(x)(s.clients[i]) >= 0
  {
    SumAtLeast(s.clients, ClientPlaces(x), i);
  }

  /** The steps of `Client::send`. */
  predicate Sends(a: Action) {
    a.StartSend? || a.WriteRequest? || a.PushRequest?
  }

  /** The steps of `PendingResponse::try_receive`. */
  predicate Receives(a: Action) {
    a.PopResponse? || a.CopyResponse? || a.FreeResponse?
  }

  lemma SendMove(s: State, a: Action, x: nat)
    requires Conserved(s) && Enabled(s, a) && Sends(a)
    ensures PlaceCount(Do(s, a), x) == PlaceCount(s, x)
  {
    hide Conserved, Occurrences, Sum;
    var i := a.i;
    ClientMove(s, i, Do(s, a).clients[i], x);
    match a
    case StartSend(_, _) => if s.free != [] { Behead(s.free, x); }
    case PushRequest(_) =>
      Append(s.clients[i].requests, s.clients[i].sending.chunk, x);
      SendingNotLeaked(s, i);
    case _ =>
  }

  lemma SendingNotLeaked(s: State, i: nat)
    requires Conserved(s) && i < |s.clients| && (s.clients[i].sending.SendPush? || s.clients[i].sending.SendWrite?)
    ensures s.clients[i].sending.chunk !in s.leaked && s.clients[i].sending.chunk < |s.memory|
  {
    var x := s.clients[i].sending.chunk;
    assert PlaceCount(s, x) == One(x < |s.memory|);
    SameClient(s, i, x);
  }

  lemma ReceiveMove(s: State, a: Action, x: nat)
    requires Conserved(s) && Enabled(s, a) && Receives(a)
    ensures PlaceCount(Do(s, a), x) == PlaceCount(s, x)
  {
    hide Conserved, Occurrences, Sum;
    var i := a.i;
    ClientMove(s, i, Do(s, a).clients[i], x);
    match a
    case PopResponse(_) => if s.clients[i].responses != [] { Behead(s.clients[i].responses, x); }
    case FreeResponse(_) => Prepend(s.free, s.clients[i].receiving.chunk, x);
    case _ =>
  }

  /** The steps of `ActiveRequest::respond`. */
  predicate Responds(a: Action) {
    a.StartRespond? || a.WriteResponse? || a.PushResponse?
  }

  lemma RespondMove(s: State, a: Action, x: nat)
    requires Conserved(s) && Enabled(s, a) && Responds(a)
    ensures PlaceCount(Do(s, a), x) == PlaceCount(s, x)
  {
    match a
    case StartRespond(_, _) => StartRespondMove(s, a, x);
    case WriteResponse(i) =>
      hide Conserved, Occurrences, Sum;
      ClientMove(s, i, Do(s, a).clients[i], x);
    case PushResponse(_) => PushResponseMove(s, a, x);
  }

  lemma StartRespondMove(s: State, a: Action, x: nat)
    requires Enabled(s, a) && a.StartRespond?
    ensures PlaceCount(Do(s, a), x) == PlaceCount(s, x)
  {
    hide Occurrences, Sum, Without;
    if s.free != [] {
      var i := s.active[a.k].client;
      var c := s.clients[i].(responding := RespondWrite(s.free[0], a.response));
      ClientMove(s, i, c, x);
      Behead(s.free, x);
      assert Do(s, a).clients == s.clients[i := c];
    }
  }

  lemma PushResponseMove(s: State, a: Action, x: nat)
    requires Conserved(s) && Enabled(s, a) && a.PushResponse?
    ensures PlaceCount(Do(s, a), x) == PlaceCount(s, x)
  {
    var c := s.clients[a.i];
    var y := c.responding.chunk;
    RespondingNotLeaked(s, a.i);
    AnsweredPlaces(c, x);
    if |c.responses| >= s.capacity {
      var c' := c.(responding := RespondIdle);
      assert Do(s, a) == WithClient(s.(leaked := s.leaked + {y}, lost := s.lost + 1), a.i, c');
      hide Conserved, Occurrences, Sum, Do, Enabled, ClientPlaces;
      ClientMove(s, a.i, c', x);
    } else {
      var c' := c.(responding := RespondIdle, responses := c.responses + [y]);
      assert Do(s, a) == WithClient(s, a.i, c');
      hide Conserved, Occurrences, Sum, Do, Enabled, ClientPlaces;
      ClientMove(s, a.i, c', x);
    }
  }

  /** A client that is done with a push holds the chunk no more, or holds it in its queue. */
  lemma AnsweredPlaces(c: Client, x: nat)
    requires c.responding.RespondPush?
    ensures var y := c.responding.chunk;
      && ClientPlaces(x)(c.(responding := RespondIdle)) == ClientPlaces(x)(c) - One(y == x)
      && ClientPlaces(x)(c.(responding := RespondIdle, responses := c.responses + [y])) == ClientPlaces(x)(c)
  {
    hide Occurrences;
    Append(c.responses, c.responding.chunk, x);
  }

  lemma RespondingNotLeaked(s: State, i: nat)
    requires Conserved(s) && i < |s.clients|
    requires s.clients[i].responding.RespondPush? || s.clients[i].responding.RespondWrite?
    ensures s.clients[i].responding.chunk !in s.leaked && s.clients[i].responding.chunk < |s.memory|
  {
    var x := s.clients[i].responding.chunk;
    assert PlaceCount(s, x) == One(x < |s.memory|);
    SameClient(s, i, x);
  }

  lemma ServeMove(s: State, a: Action, x: nat)
    requires Conserved(s) && Enabled(s, a) && !HasClient(a) && !Responds(a)
    ensures PlaceCount(Do(s, a), x) == PlaceCount(s, x)
  {
    hide Conserved, Occurrences, Sum;
    match a
    case Scan =>
      var i := s.serving.i;
      if i < |s.clients| && s.clients[i].requests != [] {
        ClientMove(s, i, Do(s, a).clients[i], x);
        Behead(s.clients[i].requests, x);
      }
    case FreeRequest => Prepend(s.free, s.serving.chunk, x);
    case _ =>
  }

  lemma ConservedStep(s: State, a: Action)
    requires Conserved(s) && Enabled(s, a)
    ensures Conserved(Do(s, a)) && |Do(s, a).memory| == |s.memory| && |Do(s, a).clients| == |s.clients|
  {
    hide PlaceCount;
    forall x: nat ensures PlaceCount(Do(s, a), x) == One(x < |s.memory|) {
      if Sends(a) { SendMove(s, a, x); }
      else if Receives(a) { ReceiveMove(s, a, x); }
      else if Responds(a) { RespondMove(s, a, x); }
      else { ServeMove(s, a, x); }
    }
  }

  lemma InitConserved(limit: nat, clients: nat)
    ensures Conserved(Init(limit, clients))
  {
    var s := Init(limit, clients);
    forall x: nat ensures PlaceCount(s, x) == One(x < |s.memory|) {
      RangeOnce(|s.memory|, x);
      NoOccurrence(x);
      SumRepeat(clients, NewClient(), ClientPlaces(x));
    }
  }

  lemma {:induction false} RunConserved(s: State, acts: seq<Action>, s': State)
    requires Conserved(s) && Runs(s, acts, s')
    ensures Conserved(s') && |s'.memory| == |s.memory| && |s'.clients| == |s.clients|
    decreases acts
  {
    if acts != [] {
      ConservedStep(s, acts[0]);
      hide Conserved, Do;
      RunConserved(Do(s, acts[0]), acts[1..], s');
    }
  }
}
