/** Responses are matched to requests by queue order only. */
module ReqResOrder {
  import opened Sums
  import opened Counts
  import opened ReqResSteps

  function At(memory: seq<Payload>, x: nat): Payload {
    if x < |memory| then memory[x] else []
  }

  function Payloads(memory: seq<Payload>, queue: seq<nat>): seq<Payload> {
    seq(|queue|, j requires 0 <= j < |queue| => At(memory, queue[j]))
  }

  /** The payloads of client `i`'s requests among the active ones, oldest first. */
  function ActiveOf(active: seq<ActiveRequest>, i: nat): seq<Payload> {
    if active == [] then []
    else
      var last := active[|active| - 1];
      ActiveOf(active[..|active| - 1], i) + (if last.client == i then [last.value] else [])
  }

  function ServingPart(s: State, i: nat): seq<Payload> {
    match s.serving
    case ServeRead(j, x) => if j == i then [At(s.memory, x)] else []
    case ServeFree(j, _, v) => if j == i then [v] else []
    case _ => []
  }

  function RespondingPart(memory: seq<Payload>, c: Client): seq<Payload> {
    match c.responding
    case RespondWrite(_, v) => [v]
    case RespondPush(x) => [At(memory, x)]
    case _ => []
  }

  function ReceivingPart(memory: seq<Payload>, c: Client): seq<Payload> {
    match c.receiving
    case ReceiveRead(x) => [At(memory, x)]
    case ReceiveFree(_, v) => [v]
    case _ => []
  }

  /** Client `i`'s unanswered requests, oldest first, wherever they are. */
  function Requests(s: State, i: nat): seq<Payload>
    requires i < |s.clients|
  {
    ActiveOf(s.active, i) + ServingPart(s, i) + Payloads(s.memory, s.clients[i].requests)
  }

  /** Client `i`'s answers, oldest first, received or on their way. */
  function Responses(s: State, i: nat): seq<Payload>
    requires i < |s.clients|
  {
    s.clients[i].got + ReceivingPart(s.memory, s.clients[i]) + Payloads(s.memory, s.clients[i].responses)
    + RespondingPart(s.memory, s.clients[i])
  }

  function Mapped(f: Payload -> Payload, xs: seq<Payload>): seq<Payload> {
    seq(|xs|, j requires 0 <= j < |xs| => f(xs[j]))
  }

  predicate MatchedFor(s: State, i: nat, f: Payload -> Payload)
    requires i < |s.clients|
  {
    Responses(s, i) + Mapped(f, Requests(s, i)) == Mapped(f, s.clients[i].sent)
  }

  predicate Matched(s: State, f: Payload -> Payload) {
    forall i :: 0 <= i < |s.clients| ==> MatchedFor(s, i, f)
  }

  /** No older active request is from the same client. */
  predicate OldestOfItsClient(active: seq<ActiveRequest>, k: nat)
    requires k < |active|
  {
    forall j :: 0 <= j < k ==> active[j].client != active[k].client
  }

  /** The server answers with `f`, and each client in the order of its requests. A server that
      answers each request before it receives the next does this. */
  predicate AnswersInOrder(s: State, a: Action, f: Payload -> Payload)
    requires Enabled(s, a)
  {
    a.StartRespond? ==> a.response == f(s.active[a.k].value) && OldestOfItsClient(s.active, a.k)
  }

  predicate AllInOrder(s: State, acts: seq<Action>, f: Payload -> Payload)
    decreases acts
  {
    acts == [] ||
    (Enabled(s, acts[0]) && AnswersInOrder(s, acts[0], f) && AllInOrder(Do(s, acts[0]), acts[1..], f))
  }

  // ----- Payload sequences -----

  lemma PayloadsAppend(memory: seq<Payload>, q: seq<nat>, x: nat)
    ensures Payloads(memory, q + [x]) == Payloads(memory, q) + [At(memory, x)]
  {
  }

  lemma PayloadsBehead(memory: seq<Payload>, q: seq<nat>)
    requires q != []
    ensures Payloads(memory, q) == [At(memory, q[0])] + Payloads(memory, q[1..])
  {
  }

  lemma PayloadsFrame(memory: seq<Payload>, x: nat, v: Payload, q: seq<nat>)
    requires x < |memory| && x !in q
    ensures Payloads(memory[x := v], q) == Payloads(memory, q)
  {
  }

  lemma MappedAppend(f: Payload -> Payload, xs: seq<Payload>, ys: seq<Payload>)
    ensures Mapped(f, xs + ys) == Mapped(f, xs) + Mapped(f, ys)
  {
  }

  lemma {:induction false} ActiveAppend(active: seq<ActiveRequest>, r: ActiveRequest, i: nat)
    ensures ActiveOf(active + [r], i) == ActiveOf(active, i) + if r.client == i then [r.value] else []
  {
    assert (active + [r])[..|active|] == active;
  }

  /** Taking the oldest active request of its client leaves the rest in order. */
  lemma {:induction false} ActiveWithout(active: seq<ActiveRequest>, k: nat, i: nat)
    requires k < |active| && OldestOfItsClient(active, k)
    ensures active[k].client == i ==> ActiveOf(active, i) == [active[k].value] + ActiveOf(Without(active, k), i)
    ensures active[k].client != i ==> ActiveOf(active, i) == ActiveOf(Without(active, k), i)
  {
    var n := |active| - 1;
    var init, last := active[..n], active[n];
    if k == n {
      assert Without(active, k) == init;
      if last.client == i { NoneOf(init, i); }
    } else {
      ActiveWithout(init, k, i);
      assert Without(active, k) == Without(init, k) + [last];
      ActiveAppend(Without(init, k), last, i);
    }
  }

  lemma {:induction false} NoneOf(active: seq<ActiveRequest>, i: nat)
    requires forall j :: 0 <= j < |active| ==> active[j].client != i
    ensures ActiveOf(active, i) == []
  {
    if active != [] { NoneOf(active[..|active| - 1], i); }
  }

  // ----- Chunks that are not written -----

  /** Client `j`'s `send`, or the `respond` to it, is about to write chunk `x`. */
  predicate Writes(c: Client, x: nat) {
    || (c.sending.SendWrite? && c.sending.chunk == x)
    || (c.responding.RespondWrite? && c.responding.chunk == x)
  }

  /** A chunk about to be written is in no queue, is not being read, and no other write under way
      has it. */
  lemma WrittenElsewhere(s: State, x: nat, j: nat, i: nat)
    requires Conserved(s) && i < |s.clients| && j < |s.clients| && Writes(s.clients[j], x)
    ensures x < |s.memory| && x !in s.clients[i].requests && x !in s.clients[i].responses
    ensures ReceivingChunk(s.clients[i], x) == 0
    ensures s.clients[i].responding.RespondPush? ==> s.clients[i].responding.chunk != x
    ensures s.clients[i].sending.SendPush? ==> s.clients[i].sending.chunk != x
    ensures !((s.serving.ServeRead? || s.serving.ServeFree?) && s.serving.chunk == x)
  {
    hide Occurrences;
    assert PlaceCount(s, x) == One(x < |s.memory|);
    assert SendingChunk(s.clients[j], x) + RespondingChunk(s.clients[j], x) >= 1;
    SameClient(s, i, x);
    SameClient(s, j, x);
    if j != i { TwoClients(s, i, j, x); }
    if k :| 0 <= k < |s.clients[i].requests| && s.clients[i].requests[k] == x { Occurs(s.clients[i].requests, k); }
    if k :| 0 <= k < |s.clients[i].responses| && s.clients[i].responses[k] == x { Occurs(s.clients[i].responses, k); }
  }

  lemma TwoClients(s: State, i: nat, j: nat, x: nat)
    requires i < |s.clients| && j < |s.clients| && i != j
    ensures Sum(s.clients, ClientPlaces(x)) >= ClientPlaces(x)(s.clients[i]) + ClientPlaces(x)(s.clients[j])
  {
    hide Occurrences;
    NoOccurrence(x);
    SumUpdate(s.clients, i, NewClient(), ClientPlaces(x));
    var rest := s.clients[i := NewClient()];
    SumAtLeast(rest, ClientPlaces(x), j);
  }

  // ----- One step, seen by one client -----

  /** Steps that change neither the requests nor the responses of client `i`. */
  lemma QuietStep(s: State, a: Action, i: nat)
    requires Conserved(s) && Enabled(s, a) && i < |s.clients|
    requires a.StartSend? || a.WriteRequest? || a.BeginServe? || (a.PushRequest? && a.i != i)
    ensures Requests(Do(s, a), i) == Requests(s, i) && Responses(Do(s, a), i) == Responses(s, i)
    ensures Do(s, a).clients[i].sent == s.clients[i].sent
  {
    hide Conserved, Payloads, ActiveOf;
    if a.WriteRequest? { WriteRequestStep(s, a, i); }
  }

  lemma WriteRequestStep(s: State, a: Action, i: nat)
    requires Conserved(s) && Enabled(s, a) && i < |s.clients| && a.WriteRequest?
    ensures Requests(Do(s, a), i) == Requests(s, i) && Responses(Do(s, a), i) == Responses(s, i)
    ensures Do(s, a).clients[i].sent == s.clients[i].sent
  {
    hide Conserved;
    var x, v := s.clients[a.i].sending.chunk, s.clients[a.i].sending.value;
    WrittenElsewhere(s, x, a.i, i);
    WriteFrame(s, Do(s, a), i, x, v);
  }

  lemma WriteResponseStep(s: State, a: Action, i: nat)
    requires Conserved(s) && Enabled(s, a) && i < |s.clients| && a.WriteResponse?
    ensures Requests(Do(s, a), i) == Requests(s, i) && Responses(Do(s, a), i) == Responses(s, i)
    ensures Do(s, a).clients[i].sent == s.clients[i].sent
  {
    hide Conserved;
    var x, v := s.clients[a.i].responding.chunk, s.clients[a.i].responding.value;
    WrittenElsewhere(s, x, a.i, i);
    WriteFrame(s, Do(s, a), i, x, v);
  }

  /** Writing a chunk that the client's queues and reads do not have changes nothing it sees. */
  lemma WriteFrame(s: State, s': State, i: nat, x: nat, v: Payload)
    requires x < |s.memory| && s'.memory == s.memory[x := v] && i < |s.clients| == |s'.clients|
    requires s'.serving == s.serving && s'.active == s.active
    requires var c, c' := s.clients[i], s'.clients[i];
             && c'.requests == c.requests && c'.responses == c.responses && c'.receiving == c.receiving
             && c'.sent == c.sent && c'.got == c.got
             && (c'.responding == c.responding
                 || (c.responding == RespondWrite(x, v) && c'.responding == RespondPush(x)))
    requires x !in s.clients[i].requests && x !in s.clients[i].responses && ReceivingChunk(s.clients[i], x) == 0
    requires s.clients[i].responding.RespondPush? ==> s.clients[i].responding.chunk != x
    requires !((s.serving.ServeRead? || s.serving.ServeFree?) && s.serving.chunk == x)
    ensures Requests(s', i) == Requests(s, i) && Responses(s', i) == Responses(s, i)
  {
    PayloadsFrame(s.memory, x, v, s.clients[i].requests);
    PayloadsFrame(s.memory, x, v, s.clients[i].responses);
    hide Payloads;
  }

  lemma PushRequestStep(s: State, a: Action, i: nat)
    requires Enabled(s, a) && a == PushRequest(i) && i < |s.clients|
    ensures Responses(Do(s, a), i) == Responses(s, i)
    ensures var c, c' := s.clients[i], Do(s, a).clients[i];
            if c'.sent == c.sent then Requests(Do(s, a), i) == Requests(s, i)
            else exists p :: c'.sent == c.sent + [p] && Requests(Do(s, a), i) == Requests(s, i) + [p]
  {
    var c := s.clients[i];
    if |c.requests| < s.capacity {
      var p := s.memory[c.sending.chunk];
      PayloadsAppend(s.memory, c.requests, c.sending.chunk);
      assert Requests(Do(s, a), i) == Requests(s, i) + [p];
    }
  }

  /** The server's receive moves a request along without reordering. */
  lemma ServeStep(s: State, a: Action, i: nat)
    requires Enabled(s, a) && i < |s.clients| && (a.Scan? || a.CopyRequest? || a.FreeRequest?)
    ensures Requests(Do(s, a), i) == Requests(s, i) && Responses(Do(s, a), i) == Responses(s, i)
    ensures Do(s, a).clients[i].sent == s.clients[i].sent
  {
    hide Payloads;
    match a
    case Scan =>
      if s.serving.i == i && s.clients[i].requests != [] { PayloadsBehead(s.memory, s.clients[i].requests); }
    case FreeRequest => ActiveAppend(s.active, ActiveRequest(s.serving.i, s.serving.value), i);
    case _ =>
  }

  lemma ReceivedPart(s: State, a: Action, i: nat)
    requires Enabled(s, a) && i < |s.clients| && Receives(a) && a.i == i
    requires a.PopResponse? ==> s.clients[i].responses != []
    ensures var c, c' := s.clients[i], Do(s, a).clients[i];
            && c'.got + ReceivingPart(s.memory, c') == c.got + ReceivingPart(s.memory, c)
               + (if a.PopResponse? then [At(s.memory, c.responses[0])] else [])
            && (a.PopResponse? ==> c.receiving.ReceiveIdle? && c'.responses == c.responses[1..])
            && (!a.PopResponse? ==> c'.responses == c.responses)
            && c'.sent == c.sent && c'.requests == c.requests
  {
  }

  /** The client's receive moves a response along without reordering. */
  lemma ReceiveStep(s: State, a: Action, i: nat)
    requires Enabled(s, a) && i < |s.clients| && Receives(a)
    ensures Requests(Do(s, a), i) == Requests(s, i) && Responses(Do(s, a), i) == Responses(s, i)
    ensures Do(s, a).clients[i].sent == s.clients[i].sent
  {
    hide Payloads, ActiveOf;
    if a.i != i || (a.PopResponse? && s.clients[i].responses == []) {
      assert Do(s, a).clients[i] == s.clients[i];
    } else {
      if a.PopResponse? { PayloadsBehead(s.memory, s.clients[i].responses); }
      ReceivedPart(s, a, i);
    }
  }

  /** Writing and pushing a response does not reorder. */
  lemma RespondStep(s: State, a: Action, i: nat)
    requires Conserved(s) && Enabled(s, a) && i < |s.clients| && (a.WriteResponse? || a.PushResponse?)
    requires Do(s, a).lost == s.lost
    ensures Requests(Do(s, a), i) == Requests(s, i) && Responses(Do(s, a), i) == Responses(s, i)
    ensures Do(s, a).clients[i].sent == s.clients[i].sent
  {
    hide Conserved, Payloads, ActiveOf;
    if a.WriteResponse? {
      WriteResponseStep(s, a, i);
    } else if a.i == i {
      PayloadsAppend(s.memory, s.clients[i].responses, s.clients[i].responding.chunk);
    }
  }

  /** Answering the oldest request of its client turns that client's first request into its last
      answer and touches no other client. */
  lemma StartRespondStep(s: State, a: Action, i: nat)
    requires Enabled(s, a) && a.StartRespond? && i < |s.clients| && OldestOfItsClient(s.active, a.k)
    requires Do(s, a).lost == s.lost
    ensures Do(s, a).clients[i].sent == s.clients[i].sent
    ensures if s.active[a.k].client == i
            then Requests(s, i) == [s.active[a.k].value] + Requests(Do(s, a), i)
                 && Responses(Do(s, a), i) == Responses(s, i) + [a.response]
            else Requests(Do(s, a), i) == Requests(s, i) && Responses(Do(s, a), i) == Responses(s, i)
  {
    hide Payloads, Without, ActiveOf;
    ActiveWithout(s.active, a.k, i);
  }

  lemma MatchedForStep(s: State, a: Action, i: nat, f: Payload -> Payload)
    requires Conserved(s) && Enabled(s, a) && AnswersInOrder(s, a, f) && Do(s, a).lost == s.lost
    requires i < |s.clients| == |Do(s, a).clients| && MatchedFor(s, i, f)
    ensures MatchedFor(Do(s, a), i, f)
  {
    hide Requests, Responses, Conserved;
    match a
    case PushRequest(j) =>
      if j == i {
        PushRequestStep(s, a, i);
        var c, c' := s.clients[i], Do(s, a).clients[i];
        if c'.sent != c.sent {
          var p :| c'.sent == c.sent + [p] && Requests(Do(s, a), i) == Requests(s, i) + [p];
          MappedAppend(f, c.sent, [p]);
          MappedAppend(f, Requests(s, i), [p]);
        }
      } else {
        QuietStep(s, a, i);
      }
    case StartRespond(k, _) =>
      StartRespondStep(s, a, i);
      if s.active[k].client == i {
        MappedAppend(f, [s.active[k].value], Requests(Do(s, a), i));
        assert Mapped(f, [s.active[k].value]) == [a.response];
      }
    case _ =>
      if Receives(a) { ReceiveStep(s, a, i); }
      else if a.Scan? || a.CopyRequest? || a.FreeRequest? { ServeStep(s, a, i); }
      else if a.WriteResponse? || a.PushResponse? { RespondStep(s, a, i); }
      else { QuietStep(s, a, i); }
  }

  lemma MatchedStep(s: State, a: Action, f: Payload -> Payload)
    requires Conserved(s) && Matched(s, f) && Enabled(s, a) && AnswersInOrder(s, a, f) && Do(s, a).lost == s.lost
    ensures Matched(Do(s, a), f)
  {
    ConservedStep(s, a);
    hide Conserved, MatchedFor, Do;
    forall i | 0 <= i < |Do(s, a).clients| ensures MatchedFor(Do(s, a), i, f) {
      MatchedForStep(s, a, i, f);
    }
  }

  lemma {:induction false} LostGrows(s: State, acts: seq<Action>, s': State)
    requires Runs(s, acts, s')
    ensures s.lost <= s'.lost
    decreases acts
  {
    if acts != [] { LostGrows(Do(s, acts[0]), acts[1..], s'); }
  }

  lemma {:induction false} RunMatched(s: State, acts: seq<Action>, s': State, f: Payload -> Payload)
    requires Conserved(s) && Matched(s, f) && Runs(s, acts, s') && AllInOrder(s, acts, f) && s'.lost == s.lost
    ensures Matched(s', f)
    decreases acts
  {
    if acts != [] {
      var mid := Do(s, acts[0]);
      LostGrows(mid, acts[1..], s');
      assert s.lost <= mid.lost;
      MatchedStep(s, acts[0], f);
      ConservedStep(s, acts[0]);
      hide Conserved, Matched, Do;
      RunMatched(mid, acts[1..], s', f);
    }
  }

  /** When the server answers with f, each client in the order of its requests, and no `respond`
      fails: each client's received responses are a prefix of f mapped over its own requests, for
      any number of clients that share the segment and any interleaving. */
  lemma ResponsesMatchRequests(limit: nat, clients: nat, acts: seq<Action>, s: State, f: Payload -> Payload)
    requires Runs(Init(limit, clients), acts, s) && AllInOrder(Init(limit, clients), acts, f) && s.lost == 0
    ensures forall i :: 0 <= i < |s.clients| ==> s.clients[i].got <= Mapped(f, s.clients[i].sent)
  {
    var s0 := Init(limit, clients);
    InitConserved(limit, clients);
    InitMatched(limit, clients, f);
    RunMatched(s0, acts, s, f);
    forall i | 0 <= i < |s.clients| ensures s.clients[i].got <= Mapped(f, s.clients[i].sent) {
      assert MatchedFor(s, i, f);
      assert s.clients[i].got <= Responses(s, i);
    }
  }

  lemma InitMatched(limit: nat, clients: nat, f: Payload -> Payload)
    ensures Matched(Init(limit, clients), f)
  {
  }

}
