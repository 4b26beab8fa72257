/** `send`, `receive`, `respond` and `try_receive` as their callers see them. */
module ReqResCalls {
  import opened Results
  import opened Sums
  import opened Counts
  import opened ReqResSteps
  import opened ReqResOrder
  import Atomic = AtomicObjects

  /** How storing a message in a queue ends. */
  datatype Outcome = Stored | NoChunk | QueueFull

  datatype Op = Send(i: nat, value: Payload) | Receive | Respond(i: nat, value: Payload) | TryReceive(i: nat)

  datatype Answer =
    | Pushed(outcome: Outcome)
    | Request(request: Option<ActiveRequest>)
    | Response(response: Option<Payload>)

  /** Each client's requests that the server has not taken, and responses that it has not taken. */
  datatype Service = Service(requests: seq<seq<Payload>>, responses: seq<seq<Payload>>, capacity: nat)

  predicate StoreEffect(queues: seq<seq<Payload>>, capacity: nat, i: nat, v: Payload, r: Outcome,
      queues': seq<seq<Payload>>)
  {
    i < |queues| &&
    match r
    case Stored => |queues[i]| < capacity && queues' == queues[i := queues[i] + [v]]
    case QueueFull => |queues[i]| >= capacity && queues' == queues
    case NoChunk => queues' == queues
  }

  predicate TakeEffect(queues: seq<seq<Payload>>, i: nat, v: Payload, queues': seq<seq<Payload>>) {
    i < |queues| && queues[i] != [] && v == queues[i][0] && queues' == queues[i := queues[i][1..]]
  }

  /** `send` and `respond` append their argument to the queue of their client, or change nothing;
      `receive` takes the oldest request of some client, `try_receive` the oldest response of its own,
      or answers that there is none. */
  predicate ServiceEffect(v: Service, op: Op, r: Answer, v': Service) {
    v'.capacity == v.capacity &&
    match op
    case Send(i, x) =>
      r.Pushed? && StoreEffect(v.requests, v.capacity, i, x, r.outcome, v'.requests) && v'.responses == v.responses
    case Respond(i, x) =>
      r.Pushed? && StoreEffect(v.responses, v.capacity, i, x, r.outcome, v'.responses) && v'.requests == v.requests
    case Receive =>
      r.Request? && v'.responses == v.responses &&
      if r.request.Some? then TakeEffect(v.requests, r.request.value.client, r.request.value.value, v'.requests)
      else v'.requests == v.requests
    case TryReceive(i) =>
      r.Response? && v'.requests == v.requests &&
      if r.response.Some? then TakeEffect(v.responses, i, r.response.value, v'.responses)
      else i < |v.responses| && v.responses[i] == [] && v'.responses == v.responses
  }

  type Event = Atomic.Event<Op, Answer>
  type Endpoint = Atomic.Call<Op, Answer>

  // ----- The calls under way -----

  function SendCall(memory: seq<Payload>, c: Client, i: nat): Endpoint {
    match c.sending
    case SendIdle => Atomic.NoCall
    case SendWrite(_, v) => Atomic.Pending(Send(i, v))
    case SendPush(x) => Atomic.Pending(Send(i, At(memory, x)))
  }

  function RespondCall(memory: seq<Payload>, c: Client, i: nat): Endpoint {
    match c.responding
    case RespondIdle => Atomic.NoCall
    case RespondWrite(_, v) => Atomic.Pending(Respond(i, v))
    case RespondPush(x) => Atomic.Pending(Respond(i, At(memory, x)))
  }

  function TryReceiveCall(memory: seq<Payload>, c: Client): Endpoint {
    match c.receiving
    case ReceiveIdle => Atomic.NoCall
    case ReceiveRead(x) => Atomic.Answered(Response(Some(At(memory, x))))
    case ReceiveFree(_, v) => Atomic.Answered(Response(Some(v)))
  }

  function ReceiveCall(memory: seq<Payload>, serving: Serving): Endpoint {
    match serving
    case ServeIdle => Atomic.NoCall
    case ServeScan(_) => Atomic.Pending(Receive)
    case ServeRead(i, x) => Atomic.Answered(Request(Some(ActiveRequest(i, At(memory, x)))))
    case ServeFree(i, _, v) => Atomic.Answered(Request(Some(ActiveRequest(i, v))))
  }

  /** With n clients: threads 0 to n-1 send, the next n receive responses, the next n respond to them,
      and thread 3n receives requests. */
  function CallAt(s: State, j: nat): Endpoint
    requires j <= 3 * |s.clients|
  {
    var n := |s.clients|;
    if j < n then SendCall(s.memory, s.clients[j], j)
    else if j < 2 * n then TryReceiveCall(s.memory, s.clients[j - n])
    else if j < 3 * n then RespondCall(s.memory, s.clients[j - 2 * n], j - 2 * n)
    else ReceiveCall(s.memory, s.serving)
  }

  function Calls(s: State): seq<Endpoint> {
    seq(3 * |s.clients| + 1, j requires 0 <= j <= 3 * |s.clients| => CallAt(s, j))
  }

  function RequestQueues(s: State): seq<seq<Payload>> {
    seq(|s.clients|, i requires 0 <= i < |s.clients| => Payloads(s.memory, s.clients[i].requests))
  }

  function ResponseQueues(s: State): seq<seq<Payload>> {
    seq(|s.clients|, i requires 0 <= i < |s.clients| => Payloads(s.memory, s.clients[i].responses))
  }

  function ServiceOf(s: State): Service {
    Service(RequestQueues(s), ResponseQueues(s), s.capacity)
  }

  function View(s: State): Atomic.Object<Service, Op, Answer> {
    Atomic.Object(ServiceOf(s), Calls(s))
  }

  /** The thread whose step it is. */
  function Caller(s: State, a: Action): nat
    requires Enabled(s, a)
  {
    var n := |s.clients|;
    if Sends(a) then a.i
    else if Receives(a) then n + a.i
    else if a.StartRespond? then 2 * n + s.active[a.k].client
    else if Responds(a) then 2 * n + a.i
    else 3 * n
  }

  // ----- What callers see -----

  function CallFor(s: State, a: Action): Option<Op>
    requires Enabled(s, a)
  {
    match a
    case StartSend(i, v) => Some(Send(i, v))
    case BeginServe => Some(Receive)
    case StartRespond(k, v) => Some(Respond(s.active[k].client, v))
    case PopResponse(i) => Some(TryReceive(i))
    case _ => None
  }

  /** What the call returns, if the step ends it: errors, or what it added to the client's sent requests,
      the active requests, or the client's responses. */
  function ReturnFor(s: State, a: Action): Option<Answer>
    requires Enabled(s, a)
  {
    var s' := Do(s, a);
    match a
    case StartSend(i, _) => if s'.clients[i].sending.SendIdle? then Some(Pushed(NoChunk)) else None
    case PushRequest(i) => Some(Pushed(if s'.clients[i].sent == s.clients[i].sent then QueueFull else Stored))
    case Scan => if s'.serving.ServeIdle? then Some(Request(None)) else None
    case FreeRequest => Some(Request(if s'.active == [] then None else Some(s'.active[|s'.active| - 1])))
    case StartRespond(k, _) =>
      if s'.clients[s.active[k].client].responding.RespondIdle? then Some(Pushed(NoChunk)) else None
    case PushResponse(_) => Some(Pushed(if s'.lost != s.lost then QueueFull else Stored))
    case PopResponse(i) => if s'.clients[i].receiving.ReceiveIdle? then Some(Response(None)) else None
    case FreeResponse(i) =>
      var got := s'.clients[i].got;
      Some(Response(if got == [] then None else Some(got[|got| - 1])))
    case _ => None
  }

  function Seen(s: State, a: Action): seq<Event>
    requires Enabled(s, a)
  {
    Atomic.Events(Caller(s, a), CallFor(s, a), ReturnFor(s, a))
  }

  function History(s: State, acts: seq<Action>): seq<Event>
    decreases acts
  {
    if acts == [] || !Enabled(s, acts[0]) then []
    else Seen(s, acts[0]) + History(Do(s, acts[0]), acts[1..])
  }

  // ----- What a step leaves alone -----

  /** The client that a step of `respond` answers. */
  function Target(s: State, a: Action): nat
    requires Enabled(s, a) && Responds(a)
  {
    if a.StartRespond? then s.active[a.k].client else a.i
  }

  predicate SameParts(s: State, s': State, a: Action, i: nat)
    requires Enabled(s, a) && i < |s.clients| == |s'.clients|
  {
    var c, c' := s.clients[i], s'.clients[i];
    && (!(Sends(a) && a.i == i) ==> SendCall(s'.memory, c', i) == SendCall(s.memory, c, i))
    && (!(Receives(a) && a.i == i) ==> TryReceiveCall(s'.memory, c') == TryReceiveCall(s.memory, c))
    && (!(Responds(a) && Target(s, a) == i) ==> RespondCall(s'.memory, c', i) == RespondCall(s.memory, c, i))
    && (Sends(a) || Receives(a) || Responds(a) ==>
          ReceiveCall(s'.memory, s'.serving) == ReceiveCall(s.memory, s.serving))
  }

  lemma QuietParts(s: State, a: Action, i: nat)
    requires Enabled(s, a) && i < |s.clients| && !a.WriteRequest? && !a.WriteResponse?
    ensures |Do(s, a).clients| == |s.clients| && SameParts(s, Do(s, a), a, i)
  {
    hide Without;
  }

  /** The chunk that `send` or `respond` writes is in no other call and in no queue. */
  lemma WriteParts(s: State, a: Action, i: nat)
    requires Conserved(s) && Enabled(s, a) && i < |s.clients| && (a.WriteRequest? || a.WriteResponse?)
    ensures |Do(s, a).clients| == |s.clients| && SameParts(s, Do(s, a), a, i)
    ensures Payloads(Do(s, a).memory, s.clients[i].requests) == Payloads(s.memory, s.clients[i].requests)
    ensures Payloads(Do(s, a).memory, s.clients[i].responses) == Payloads(s.memory, s.clients[i].responses)
  {
    var c := s.clients[a.i];
    var x, v := if a.WriteRequest? then c.sending.chunk else c.responding.chunk,
                if a.WriteRequest? then c.sending.value else c.responding.value;
    WrittenElsewhere(s, x, a.i, i);
    PayloadsFrame(s.memory, x, v, s.clients[i].requests);
    PayloadsFrame(s.memory, x, v, s.clients[i].responses);
    hide Conserved, Payloads;
  }

  lemma StepParts(s: State, a: Action, i: nat)
    requires Conserved(s) && Enabled(s, a) && i < |s.clients|
    ensures |Do(s, a).clients| == |s.clients| && SameParts(s, Do(s, a), a, i)
  {
    hide Conserved, SameParts, Do, Enabled;
    if a.WriteRequest? || a.WriteResponse? { WriteParts(s, a, i); } else { QuietParts(s, a, i); }
  }

  lemma ClientCount(s: State, a: Action)
    requires Enabled(s, a)
    ensures |Do(s, a).clients| == |s.clients| && Do(s, a).capacity == s.capacity
    ensures Caller(s, a) <= 3 * |s.clients|
  {
    hide Without;
  }

  lemma OtherCalls(s: State, a: Action)
    requires Conserved(s) && Enabled(s, a)
    ensures |Do(s, a).clients| == |s.clients| && Caller(s, a) <= 3 * |s.clients|
    ensures Calls(Do(s, a)) == Calls(s)[Caller(s, a) := CallAt(Do(s, a), Caller(s, a))]
  {
    ClientCount(s, a);
    var s', n, t := Do(s, a), |s.clients|, Caller(s, a);
    forall j | 0 <= j <= 3 * n && j != t ensures CallAt(s', j) == CallAt(s, j) {
      OtherCall(s, a, j);
    }
    hide Do, CallAt, Caller, Conserved;
  }

  lemma OtherCall(s: State, a: Action, j: nat)
    requires Conserved(s) && Enabled(s, a) && j <= 3 * |s.clients| && j != Caller(s, a)
    ensures |Do(s, a).clients| == |s.clients| && CallAt(Do(s, a), j) == CallAt(s, j)
  {
    var n := |s.clients|;
    ClientCount(s, a);
    CallerIs(s, a);
    if j == 3 * n { SomeClient(s, a); }
    hide Do, Conserved, SendCall, TryReceiveCall, RespondCall, ReceiveCall, Caller, Sends, Receives, Responds,
         Target, Enabled;
    if j < 3 * n {
      StepParts(s, a, if j < n then j else if j < 2 * n then j - n else j - 2 * n);
    } else {
      StepParts(s, a, 0);
    }
  }

  lemma SomeClient(s: State, a: Action)
    requires Enabled(s, a) && (Sends(a) || Receives(a) || Responds(a))
    ensures |s.clients| > 0
  {
  }

  // ----- What a step does -----

  /** Both queues of all clients, except the requests or the responses of client `i`, stay as they are. */
  predicate QueuesElse(s: State, s': State, i: nat, requests: bool, responses: bool)
    requires |s.clients| == |s'.clients|
  {
    forall j :: 0 <= j < |s.clients| ==>
      && ((j == i && requests)
          || Payloads(s'.memory, s'.clients[j].requests) == Payloads(s.memory, s.clients[j].requests))
      && ((j == i && responses)
          || Payloads(s'.memory, s'.clients[j].responses) == Payloads(s.memory, s.clients[j].responses))
  }

  lemma QueueViews(s: State, s': State, i: nat, requests: bool, responses: bool)
    requires |s.clients| == |s'.clients| && QueuesElse(s, s', i, requests, responses)
    ensures !requests ==> RequestQueues(s') == RequestQueues(s)
    ensures !responses ==> ResponseQueues(s') == ResponseQueues(s)
    ensures i < |s.clients| ==>
              && RequestQueues(s') == RequestQueues(s)[i := Payloads(s'.memory, s'.clients[i].requests)]
              && ResponseQueues(s') == ResponseQueues(s)[i := Payloads(s'.memory, s'.clients[i].responses)]
              && RequestQueues(s)[i] == Payloads(s.memory, s.clients[i].requests)
              && ResponseQueues(s)[i] == Payloads(s.memory, s.clients[i].responses)
    ensures |RequestQueues(s)| == |ResponseQueues(s)| == |s.clients|
  {
    hide Payloads;
  }

  /** Steps that neither append to a queue nor take from one. */
  predicate Still(s: State, a: Action)
    requires Enabled(s, a)
  {
    match a
    case PushRequest(i) => Do(s, a).clients[i].requests == s.clients[i].requests
    case PushResponse(i) => Do(s, a).clients[i].responses == s.clients[i].responses
    case Scan => Do(s, a).clients == s.clients
    case PopResponse(_) => Do(s, a).clients == s.clients
    case _ => true
  }

  lemma StillQueues(s: State, a: Action)
    requires Conserved(s) && Enabled(s, a) && Still(s, a)
    ensures |Do(s, a).clients| == |s.clients| && ServiceOf(Do(s, a)) == ServiceOf(s)
  {
    ClientCount(s, a);
    var s' := Do(s, a);
    hide Conserved, Payloads, Without;
    forall j | 0 <= j < |s.clients|
      ensures Payloads(s'.memory, s'.clients[j].requests) == Payloads(s.memory, s.clients[j].requests)
      ensures Payloads(s'.memory, s'.clients[j].responses) == Payloads(s.memory, s.clients[j].responses)
    {
      if a.WriteRequest? || a.WriteResponse? { WriteParts(s, a, j); }
    }
    QueueViews(s, s', 0, false, false);
  }

  ghost predicate Moves(s: State, a: Action)
    requires Enabled(s, a) && Caller(s, a) <= 3 * |s.clients| && |Do(s, a).clients| == |s.clients|
  {
    var t := Caller(s, a);
    Atomic.Moves(ServiceEffect, ServiceOf(s), CallAt(s, t), CallFor(s, a), ReturnFor(s, a), ServiceOf(Do(s, a)),
                 CallAt(Do(s, a), t))
  }

  lemma SendCalls(s: State, a: Action)
    requires Conserved(s) && Enabled(s, a) && Sends(a)
    ensures |Do(s, a).clients| == |s.clients| && Caller(s, a) <= 3 * |s.clients| && Moves(s, a)
  {
    ClientCount(s, a);
    var s', i := Do(s, a), a.i;
    var c := s.clients[i];
    if Still(s, a) {
      StillQueues(s, a);
    } else {
      PayloadsAppend(s.memory, c.requests, c.sending.chunk);
      hide Conserved, Payloads;
      QueueViews(s, s', i, true, false);
    }
    hide Conserved, Payloads, RequestQueues, ResponseQueues;
  }

  lemma RespondCalls(s: State, a: Action)
    requires Conserved(s) && Enabled(s, a) && Responds(a)
    ensures |Do(s, a).clients| == |s.clients| && Caller(s, a) <= 3 * |s.clients| && Moves(s, a)
  {
    ClientCount(s, a);
    var s', i := Do(s, a), Target(s, a);
    var c := s.clients[i];
    if Still(s, a) {
      StillQueues(s, a);
    } else {
      PayloadsAppend(s.memory, c.responses, c.responding.chunk);
      hide Conserved, Payloads;
      QueueViews(s, s', i, false, true);
    }
    hide Conserved, Payloads, RequestQueues, ResponseQueues, Without;
  }

  lemma TryReceiveCalls(s: State, a: Action)
    requires Conserved(s) && Enabled(s, a) && Receives(a)
    ensures |Do(s, a).clients| == |s.clients| && Caller(s, a) <= 3 * |s.clients| && Moves(s, a)
  {
    ClientCount(s, a);
    var s', i := Do(s, a), a.i;
    var c := s.clients[i];
    if Still(s, a) {
      StillQueues(s, a);
      QueueViews(s, s, i, false, false);
    } else {
      PayloadsBehead(s.memory, c.responses);
      hide Conserved, Payloads;
      QueueViews(s, s', i, false, true);
    }
    hide Conserved, Payloads, RequestQueues, ResponseQueues;
  }

  lemma ReceiveCalls(s: State, a: Action)
    requires Conserved(s) && Enabled(s, a) && !Sends(a) && !Receives(a) && !Responds(a)
    ensures |Do(s, a).clients| == |s.clients| && Caller(s, a) <= 3 * |s.clients| && Moves(s, a)
  {
    ClientCount(s, a);
    var s' := Do(s, a);
    if Still(s, a) {
      StillQueues(s, a);
    } else {
      var i := s.serving.i;
      PayloadsBehead(s.memory, s.clients[i].requests);
      hide Conserved, Payloads;
      QueueViews(s, s', i, true, false);
    }
    hide Conserved, Payloads, RequestQueues, ResponseQueues;
  }

  lemma StepSeen(s: State, a: Action)
    requires Conserved(s) && Enabled(s, a)
    ensures Atomic.Linearizes(ServiceEffect, View(s), Seen(s, a), View(Do(s, a)))
  {
    hide Conserved, Do, Enabled, CallAt, ServiceOf, ServiceEffect, Caller, CallFor, ReturnFor, Atomic.Moves,
         Atomic.Linearizes;
    if Sends(a) { SendCalls(s, a); }
    else if Receives(a) { TryReceiveCalls(s, a); }
    else if Responds(a) { RespondCalls(s, a); }
    else { ReceiveCalls(s, a); }
    OtherCalls(s, a);
    var t := Caller(s, a);
    assert |Calls(s)| == 3 * |s.clients| + 1 && Calls(s)[t] == CallAt(s, t);
    hide Calls;
    Atomic.MoveLinearizes(ServiceEffect, View(s), t, CallFor(s, a), ReturnFor(s, a), View(Do(s, a)));
  }

  /** The server holds exactly the requests that `receive` returned and `respond` has not consumed. */
  lemma StepActive(s: State, a: Action)
    requires Enabled(s, a)
    ensures match a
            case FreeRequest => |Do(s, a).active| == |s.active| + 1 && s.active <= Do(s, a).active
            case StartRespond(k, _) => Do(s, a).active == s.active[..k] + s.active[k + 1..]
            case _ => Do(s, a).active == s.active
  {
  }

  lemma {:induction false} RunSeen(s: State, acts: seq<Action>, s': State)
    requires Conserved(s) && Runs(s, acts, s')
    ensures Atomic.Linearizes(ServiceEffect, View(s), History(s, acts), View(s'))
    decreases acts
  {
    hide Conserved, Do, Enabled, Seen, View, ServiceEffect;
    if acts == [] {
      Atomic.NoEvent(ServiceEffect, View(s));
    } else {
      ConservedStep(s, acts[0]);
      StepSeen(s, acts[0]);
      var mid := Do(s, acts[0]);
      RunSeen(mid, acts[1..], s');
      Atomic.Concat(ServiceEffect, View(s), Seen(s, acts[0]), View(mid), History(mid, acts[1..]), View(s'));
    }
  }

  /** Every run of any number of clients and the server is a history of an atomic service with one
      bounded request queue and one bounded response queue for each client: every `send`, `receive`,
      `respond` and `try_receive` takes effect once, between its call and its return, with the payload it
      was called with and the payload it returns. */
  lemma ServiceIsLinearizable(limit: nat, clients: nat, acts: seq<Action>, s: State)
    requires Runs(Init(limit, clients), acts, s)
    ensures Atomic.Linearizes(ServiceEffect,
              Atomic.Object(Service(seq(clients, _ => []), seq(clients, _ => []), Init(limit, clients).capacity),
                            seq(3 * clients + 1, _ => Atomic.NoCall)),
              History(Init(limit, clients), acts), View(s))
  {
    hide Runs, Conserved;
    InitConserved(limit, clients);
    RunSeen(Init(limit, clients), acts, s);
    InitView(limit, clients);
  }

  lemma InitView(limit: nat, clients: nat)
    ensures View(Init(limit, clients))
         == Atomic.Object(Service(seq(clients, _ => []), seq(clients, _ => []), Init(limit, clients).capacity),
                          seq(3 * clients + 1, _ => Atomic.NoCall))
  {
    var s := Init(limit, clients);
    assert Calls(s) == seq(3 * clients + 1, _ => Atomic.NoCall);
    assert RequestQueues(s) == seq(clients, _ => []);
    assert ResponseQueues(s) == seq(clients, _ => []);
  }

  // ----- `receive` looks at every client -----

  /** Client `i`'s request queue is empty before or after some step of the run. */
  ghost predicate EmptyOnce(s: State, acts: seq<Action>, i: nat) {
    exists k: nat :: k <= |acts| && QueueEmpty(StateAt(s, acts, k), i)
  }

  predicate QueueEmpty(s: State, i: nat) {
    i < |s.clients| && s.clients[i].requests == []
  }

  function StateAt(s: State, acts: seq<Action>, k: nat): State
    decreases acts
  {
    if k == 0 || acts == [] || !Enabled(s, acts[0]) then s else StateAt(Do(s, acts[0]), acts[1..], k - 1)
  }

  lemma EmptyNow(s: State, acts: seq<Action>, i: nat)
    requires QueueEmpty(s, i)
    ensures EmptyOnce(s, acts, i)
  {
    assert QueueEmpty(StateAt(s, acts, 0), i);
  }

  lemma EmptyLater(s: State, acts: seq<Action>, i: nat)
    requires acts != [] && Enabled(s, acts[0]) && EmptyOnce(Do(s, acts[0]), acts[1..], i)
    ensures EmptyOnce(s, acts, i)
  {
    hide Do, Enabled, QueueEmpty;
    var k: nat :| k <= |acts[1..]| && QueueEmpty(StateAt(Do(s, acts[0]), acts[1..], k), i);
    assert StateAt(s, acts, k + 1) == StateAt(Do(s, acts[0]), acts[1..], k);
  }

  predicate NoBegin(acts: seq<Action>) {
    forall a <- acts :: !a.BeginServe?
  }

  /** Once the scan is over it does not go on before the next call. */
  lemma {:induction false} ScanOver(s: State, acts: seq<Action>, s': State)
    requires Runs(s, acts, s') && NoBegin(acts) && !s.serving.ServeScan?
    ensures !s'.serving.ServeScan?
    decreases acts
  {
    if acts != [] {
      ScanStep(s, acts[0]);
      hide Do, Enabled;
      ScanOver(Do(s, acts[0]), acts[1..], s');
    }
  }

  /** A step of the scan passes a client only when its queue is empty. */
  lemma ScanStep(s: State, a: Action)
    requires Enabled(s, a) && !a.BeginServe?
    ensures !s.serving.ServeScan? ==> !Do(s, a).serving.ServeScan?
    ensures s.serving.ServeScan? && Do(s, a).serving.ServeScan? ==>
              Do(s, a).serving.i == s.serving.i
              || (Do(s, a).serving.i == s.serving.i + 1 && QueueEmpty(s, s.serving.i))
  {
    hide Without;
  }

  /** While the scan is under way, every client it has passed had an empty queue at some instant. */
  lemma {:induction false} Passed(s: State, acts: seq<Action>, s': State, i: nat)
    requires Runs(s, acts, s') && NoBegin(acts) && s.serving.ServeScan? && s'.serving.ServeScan?
    requires s.serving.i <= i < s'.serving.i
    ensures EmptyOnce(s, acts, i)
    decreases acts
  {
    hide Do, Enabled, QueueEmpty, EmptyOnce;
    if acts != [] {
      var mid := Do(s, acts[0]);
      ScanStep(s, acts[0]);
      if mid.serving.ServeScan? {
        if i < mid.serving.i {
          EmptyNow(s, acts, i);
        } else {
          Passed(mid, acts[1..], s', i);
          EmptyLater(s, acts, i);
        }
      } else {
        ScanOver(mid, acts[1..], s');
      }
    }
  }

  /** The steps `acts` are one call of `receive` up to its step that ends the scan. */
  predicate InReceive(s: State, acts: seq<Action>, s': State) {
    acts != [] && acts[0] == BeginServe && Runs(s, acts, s') && NoBegin(acts[1..]) && Enabled(s', Scan)
  }

  /** In every run, a `receive` that ends without a request saw each client's queue empty at some instant
      of the call; one that ends with a request takes the oldest of a client, and saw the queues of all
      clients before it empty. */
  lemma ReceiveSeesAll(s: State, acts: seq<Action>, s': State)
    requires InReceive(s, acts, s')
    ensures Do(s', Scan).serving.ServeIdle? ==> forall i :: 0 <= i < |s'.clients| ==> EmptyOnce(s, acts, i)
    ensures Do(s', Scan).serving.ServeRead? ==>
              var i := Do(s', Scan).serving.i;
              && i < |s'.clients| && s'.clients[i].requests != []
              && Do(s', Scan).serving.chunk == s'.clients[i].requests[0]
              && Do(s', Scan).clients[i].requests == s'.clients[i].requests[1..]
              && forall j :: 0 <= j < i ==> EmptyOnce(s, acts, j)
    ensures Do(s', Scan).serving.ServeScan? ==>
              Do(s', Scan).serving.i == s'.serving.i + 1 && QueueEmpty(s', s'.serving.i)
  {
    forall i: nat | i < s'.serving.i ensures EmptyOnce(s, acts, i) {
      Passed(Do(s, acts[0]), acts[1..], s', i);
      EmptyLater(s, acts, i);
    }
    hide EmptyOnce, Runs, NoBegin;
  }

  // ----- When there is no chunk -----

  /** `send` and `respond` answer that there is no chunk exactly when every chunk of the pool is in some
      call, in some queue, or lost. */
  lemma NoChunkExactly(limit: nat, clients: nat, acts: seq<Action>, s: State, a: Action)
    requires Runs(Init(limit, clients), acts, s) && Enabled(s, a) && (a.StartSend? || a.StartRespond?)
    ensures ReturnFor(s, a) == Some(Pushed(NoChunk))
       <==> forall x: nat :: x < |s.memory| ==> Sum(s.clients, ClientPlaces(x)) + ServerPlaces(s, x) == 1
  {
    InitConserved(limit, clients);
    RunConserved(Init(limit, clients), acts, s);
    AllocateFails(s, a);
    if s.free == [] {
      forall x: nat | x < |s.memory| ensures Sum(s.clients, ClientPlaces(x)) + ServerPlaces(s, x) == 1 {
        NoOccurrence(x);
        assert PlaceCount(s, x) == 1;
      }
    } else {
      var x := s.free[0];
      Occurs(s.free, 0);
      NoNegative(s, x);
      assert PlaceCount(s, x) == One(x < |s.memory|);
    }
  }

  lemma AllocateFails(s: State, a: Action)
    requires Enabled(s, a) && (a.StartSend? || a.StartRespond?)
    ensures ReturnFor(s, a) == Some(Pushed(NoChunk)) <==> s.free == []
  {
    hide Without;
  }

  lemma NoNegative(s: State, x: nat)
    ensures Sum(s.clients, ClientPlaces(x)) >= 0
  {
    SumBounds0(s.clients, ClientPlaces(x));
  }

  // ----- No call waits -----

  function SendLeft(c: Client): nat {
    match c.sending case SendIdle => 0 case SendWrite(_, _) => 2 case SendPush(_) => 1
  }

  function TryReceiveLeft(c: Client): nat {
    match c.receiving case ReceiveIdle => 0 case ReceiveRead(_) => 2 case ReceiveFree(_, _) => 1
  }

  function RespondLeft(c: Client): nat {
    match c.responding case RespondIdle => 0 case RespondWrite(_, _) => 2 case RespondPush(_) => 1
  }

  function ReceiveLeft(n: nat, serving: Serving): nat {
    match serving
    case ServeIdle => 0
    case ServeScan(i) => if i < n then n - i + 3 else 3
    case ServeRead(_, _) => 2
    case ServeFree(_, _, _) => 1
  }

  /** How many steps the call of thread `j` has left at most. */
  function Left(s: State, j: nat): nat
    requires j <= 3 * |s.clients|
  {
    var n := |s.clients|;
    if j < n then SendLeft(s.clients[j])
    else if j < 2 * n then TryReceiveLeft(s.clients[j - n])
    else if j < 3 * n then RespondLeft(s.clients[j - 2 * n])
    else ReceiveLeft(n, s.serving)
  }

  /** The next step of thread `j`'s call. */
  function NextStep(s: State, j: nat): Action
    requires j <= 3 * |s.clients|
  {
    var n := |s.clients|;
    if j < n then if s.clients[j].sending.SendWrite? then WriteRequest(j) else PushRequest(j)
    else if j < 2 * n then if s.clients[j - n].receiving.ReceiveRead? then CopyResponse(j - n) else FreeResponse(j - n)
    else if j < 3 * n then
      if s.clients[j - 2 * n].responding.RespondWrite? then WriteResponse(j - 2 * n) else PushResponse(j - 2 * n)
    else match s.serving case ServeRead(_, _) => CopyRequest case ServeFree(_, _, _) => FreeRequest case _ => Scan
  }

  lemma NextEnabled(s: State, j: nat)
    requires Conserved(s) && j <= 3 * |s.clients| && Left(s, j) > 0
    ensures Enabled(s, NextStep(s, j)) && Caller(s, NextStep(s, j)) == j && CallFor(s, NextStep(s, j)) == None
  {
    hide Conserved;
    var n := |s.clients|;
    if j < n { SendingNotLeaked(s, j); }
    else if j < 2 * n { ReceivingChunkKnown(s, j - n); }
    else if j < 3 * n { RespondingNotLeaked(s, j - 2 * n); }
    else if s.serving.ServeRead? { ServingChunkKnown(s); }
  }

  lemma ReceivingChunkKnown(s: State, i: nat)
    requires Conserved(s) && i < |s.clients|
    requires s.clients[i].receiving.ReceiveRead? || s.clients[i].receiving.ReceiveFree?
    ensures s.clients[i].receiving.chunk < |s.memory|
  {
    var x := s.clients[i].receiving.chunk;
    assert PlaceCount(s, x) == One(x < |s.memory|);
    SameClient(s, i, x);
  }

  lemma ServingChunkKnown(s: State)
    requires Conserved(s) && s.serving.ServeRead?
    ensures s.serving.chunk < |s.memory|
  {
    var x := s.serving.chunk;
    assert PlaceCount(s, x) == One(x < |s.memory|);
    NoNegative(s, x);
  }

  /** Every call of clients and server is wait-free: whatever the others do, it can take its next step, each
      of its steps brings it nearer to its end, and no step of another sets it back. */
  lemma CallsAdvance(s: State, a: Action, j: nat)
    requires Conserved(s) && Enabled(s, a) && j <= 3 * |s.clients|
    ensures |Do(s, a).clients| == |s.clients|
    ensures Left(s, j) > 0 ==> Enabled(s, NextStep(s, j)) && Caller(s, NextStep(s, j)) == j
    ensures Caller(s, a) != j ==> Left(Do(s, a), j) == Left(s, j)
    ensures Caller(s, a) == j && CallFor(s, a) == None ==> Left(Do(s, a), j) < Left(s, j)
    ensures Caller(s, a) == j && CallFor(s, a).Some? ==> Left(Do(s, a), j) <= |s.clients| + 3
  {
    if Left(s, j) > 0 { NextEnabled(s, j); }
    ClientCount(s, a);
    LeftAfter(s, a, j);
    hide *;
  }

  lemma ClientLeft(s: State, a: Action, i: nat)
    requires Enabled(s, a) && i < |s.clients| == |Do(s, a).clients|
    ensures var c, c', begins := s.clients[i], Do(s, a).clients[i], CallFor(s, a).Some?;
            && (if Sends(a) && a.i == i then SendLeft(c') < (if begins then 3 else SendLeft(c))
                else SendLeft(c') == SendLeft(c))
            && (if Receives(a) && a.i == i then TryReceiveLeft(c') < (if begins then 3 else TryReceiveLeft(c))
                else TryReceiveLeft(c') == TryReceiveLeft(c))
            && (if Responds(a) && Target(s, a) == i then RespondLeft(c') < (if begins then 3 else RespondLeft(c))
                else RespondLeft(c') == RespondLeft(c))
  {
    hide Without;
  }

  lemma ServerLeft(s: State, a: Action)
    requires Enabled(s, a)
    ensures var n := |s.clients|;
            var left, left' := ReceiveLeft(n, s.serving), ReceiveLeft(n, Do(s, a).serving);
            if Sends(a) || Receives(a) || Responds(a) then left' == left
            else left' < if CallFor(s, a).Some? then n + 4 else left
  {
    hide Without;
  }

  lemma LeftAfter(s: State, a: Action, j: nat)
    requires Enabled(s, a) && j <= 3 * |s.clients| == 3 * |Do(s, a).clients|
    ensures Caller(s, a) != j ==> Left(Do(s, a), j) == Left(s, j)
    ensures Caller(s, a) == j && CallFor(s, a) == None ==> Left(Do(s, a), j) < Left(s, j)
    ensures Caller(s, a) == j && CallFor(s, a).Some? ==> Left(Do(s, a), j) <= |s.clients| + 3
  {
    var n := |s.clients|;
    ServerLeft(s, a);
    ClientCount(s, a);
    CallerIs(s, a);
    hide Do, CallFor, SendLeft, TryReceiveLeft, RespondLeft, ReceiveLeft, Enabled, Caller, Sends, Receives,
         Responds, Target;
    if j < 3 * n { ClientLeft(s, a, if j < n then j else if j < 2 * n then j - n else j - 2 * n); }
  }

  lemma CallerIs(s: State, a: Action)
    requires Enabled(s, a)
    ensures !(Sends(a) && Receives(a)) && !(Sends(a) && Responds(a)) && !(Receives(a) && Responds(a))
    ensures Sends(a) ==> Caller(s, a) == a.i < |s.clients|
    ensures Receives(a) ==> Caller(s, a) == |s.clients| + a.i && a.i < |s.clients|
    ensures Responds(a) ==> Caller(s, a) == 2 * |s.clients| + Target(s, a) && Target(s, a) < |s.clients|
    ensures !Sends(a) && !Receives(a) && !Responds(a) ==> Caller(s, a) == 3 * |s.clients|
  {
  }
}
