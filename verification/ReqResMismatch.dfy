/** What answering out of order does. Responses carry no request id, so an answer to another request
    than a client's oldest goes to the oldest. The match of responses and requests survives an answer
    exactly when the answers that are still due stay the same. */
module ReqResMismatch {
  import opened Words
  import opened Counts
  import opened ReqResSteps
  import opened ReqResOrder
  import Spsc = SpscSteps

  /** `respond` answers with `f` of the request it belongs to. */
  predicate AnswersWith(s: State, a: Action, f: Payload -> Payload)
    requires Enabled(s, a)
  {
    a.StartRespond? ==> a.response == f(s.active[a.k].value)
  }

  predicate AllAnswer(s: State, acts: seq<Action>, f: Payload -> Payload)
    decreases acts
  {
    acts == [] ||
    (Enabled(s, acts[0]) && AnswersWith(s, acts[0], f) && AllAnswer(Do(s, acts[0]), acts[1..], f))
  }

  // ----- One answer -----

  /** Answering request `k` keeps its client's match if and only if its answer followed by the answers
      still to come are the answers that were to come. */
  lemma RespondMatchExactly(s: State, k: nat, f: Payload -> Payload)
    requires k < |s.active| && s.free != [] && Enabled(s, StartRespond(k, f(s.active[k].value)))
    requires MatchedFor(s, s.active[k].client, f)
    ensures var i, s' := s.active[k].client, Do(s, StartRespond(k, f(s.active[k].value)));
            MatchedFor(s', i, f)
            <==> [f(s.active[k].value)] + Mapped(f, Requests(s', i)) == Mapped(f, Requests(s, i))
  {
    var i, v := s.active[k].client, f(s.active[k].value);
    var s' := Do(s, StartRespond(k, v));
    assert Responses(s', i) == Responses(s, i) + [v] by { hide Payloads; }
    SamePrefix(Responses(s, i), [v] + Mapped(f, Requests(s', i)), Mapped(f, Requests(s, i)));
    assert Responses(s, i) + ([v] + Mapped(f, Requests(s', i))) == Responses(s', i) + Mapped(f, Requests(s', i));
  }

  lemma SamePrefix(p: seq<Payload>, xs: seq<Payload>, ys: seq<Payload>)
    ensures p + xs == p + ys <==> xs == ys
  {
    assert (p + xs)[|p|..] == xs && (p + ys)[|p|..] == ys;
  }

  /** The answers to a client's unanswered requests are pairwise different. */
  predicate AnswersDiffer(s: State, i: nat, f: Payload -> Payload)
    requires i < |s.clients|
  {
    forall p, q :: 0 <= p < q < |Requests(s, i)| ==> f(Requests(s, i)[p]) != f(Requests(s, i)[q])
  }

  /** With pairwise different answers, the match survives exactly when the oldest is answered. */
  lemma RespondMatchIffOldest(s: State, k: nat, f: Payload -> Payload)
    requires k < |s.active| && s.free != [] && Enabled(s, StartRespond(k, f(s.active[k].value)))
    requires MatchedFor(s, s.active[k].client, f) && AnswersDiffer(s, s.active[k].client, f)
    ensures MatchedFor(Do(s, StartRespond(k, f(s.active[k].value))), s.active[k].client, f)
            <==> OldestOfItsClient(s.active, k)
  {
    var i, v := s.active[k].client, s.active[k].value;
    var s' := Do(s, StartRespond(k, f(v)));
    RespondMatchExactly(s, k, f);
    if OldestOfItsClient(s.active, k) {
      StartRespondStep(s, StartRespond(k, f(v)), i);
      MappedAppend(f, [v], Requests(s', i));
      assert Mapped(f, [v]) == [f(v)];
    } else {
      var p := LaterPosition(s.active, k);
      hide Payloads, ActiveOf;
      assert Requests(s, i)[p] == v;
      assert Mapped(f, Requests(s, i))[0] == f(Requests(s, i)[0]);
      assert ([f(v)] + Mapped(f, Requests(s', i)))[0] == f(v);
    }
  }

  /** A request that is not its client's oldest stands behind another. */
  lemma {:induction false} LaterPosition(active: seq<ActiveRequest>, k: nat) returns (p: nat)
    requires k < |active| && !OldestOfItsClient(active, k)
    ensures 0 < p < |ActiveOf(active, active[k].client)| && ActiveOf(active, active[k].client)[p] == active[k].value
  {
    var n := |active| - 1;
    if k == n {
      var j :| 0 <= j < k && active[j].client == active[k].client;
      SomeOf(active[..n], j);
      p := |ActiveOf(active[..n], active[k].client)|;
    } else {
      p := LaterPosition(active[..n], k);
    }
  }

  lemma {:induction false} SomeOf(active: seq<ActiveRequest>, j: nat)
    requires j < |active|
    ensures ActiveOf(active, active[j].client) != []
  {
    if j < |active| - 1 { SomeOf(active[..|active| - 1], j); }
  }

  // ----- A run that ends badly -----

  ghost predicate Reach(s0: State, s: State, f: Payload -> Payload) {
    exists acts :: Runs(s0, acts, s) && AllAnswer(s0, acts, f)
  }

  lemma {:induction false} Extend(s: State, acts: seq<Action>, mid: State, a: Action, f: Payload -> Payload)
    requires Runs(s, acts, mid) && AllAnswer(s, acts, f) && Enabled(mid, a) && AnswersWith(mid, a, f)
    ensures Runs(s, acts + [a], Do(mid, a)) && AllAnswer(s, acts + [a], f)
    decreases acts
  {
    hide Do, Enabled;
    if acts == [] {
      assert acts + [a] == [a] && [a][1..] == [];
    } else {
      assert (acts + [a])[1..] == acts[1..] + [a];
      Extend(Do(s, acts[0]), acts[1..], mid, a, f);
    }
  }

  lemma ReachStep(s0: State, s: State, a: Action, f: Payload -> Payload, s': State)
    requires Reach(s0, s, f) && Enabled(s, a) && AnswersWith(s, a, f) && s' == Do(s, a)
    ensures Reach(s0, s', f)
  {
    hide Do, Enabled;
    var acts :| Runs(s0, acts, s) && AllAnswer(s0, acts, f);
    Extend(s0, acts, s, a, f);
  }

  /** A state with one client. */
  function Solo(limit: nat, free: seq<nat>, memory: seq<Payload>, c: Client, active: seq<ActiveRequest>): State {
    State(limit, Spsc.Rounded(limit), free, memory, [c], ServeIdle, active, {}, 0)
  }

  lemma SendPhase(s0: State, f: Payload -> Payload, limit: nat, x: nat, rest: seq<nat>, memory: seq<Payload>,
      c: Client, active: seq<ActiveRequest>, v: Payload)
    requires Reach(s0, Solo(limit, [x] + rest, memory, c, active), f)
    requires c.sending.SendIdle? && x < |memory| && |c.requests| < Spsc.Rounded(limit)
    ensures Reach(s0, Solo(limit, rest, memory[x := v],
                           c.(requests := c.requests + [x], sent := c.sent + [v], started := c.started + 1), active), f)
  {
    hide Reach, Spsc.Rounded;
    var s := Solo(limit, [x] + rest, memory, c, active);
    var c1 := c.(sending := SendWrite(x, v), started := c.started + 1);
    var c2 := c1.(sending := SendPush(x));
    var c3 := c.(requests := c.requests + [x], sent := c.sent + [v], started := c.started + 1);
    assert ([x] + rest)[1..] == rest;
    ReachStep(s0, s, StartSend(0, v), f, Solo(limit, rest, memory, c1, active));
    ReachStep(s0, Solo(limit, rest, memory, c1, active), WriteRequest(0), f,
              Solo(limit, rest, memory[x := v], c2, active));
    ReachStep(s0, Solo(limit, rest, memory[x := v], c2, active), PushRequest(0), f,
              Solo(limit, rest, memory[x := v], c3, active));
  }

  lemma ServePhase(s0: State, f: Payload -> Payload, limit: nat, x: nat, free: seq<nat>, memory: seq<Payload>,
      c: Client, q: seq<nat>, active: seq<ActiveRequest>)
    requires Reach(s0, Solo(limit, free, memory, c, active), f) && c.requests == [x] + q && x < |memory|
    ensures Reach(s0, Solo(limit, [x] + free, memory, c.(requests := q), active + [ActiveRequest(0, memory[x])]), f)
  {
    hide Reach, Spsc.Rounded;
    var s := Solo(limit, free, memory, c, active);
    var t := Solo(limit, free, memory, c.(requests := q), active);
    assert ([x] + q)[1..] == q;
    ReachStep(s0, s, BeginServe, f, s.(serving := ServeScan(0)));
    ReachStep(s0, s.(serving := ServeScan(0)), Scan, f, t.(serving := ServeRead(0, x)));
    ReachStep(s0, t.(serving := ServeRead(0, x)), CopyRequest, f, t.(serving := ServeFree(0, x, memory[x])));
    ReachStep(s0, t.(serving := ServeFree(0, x, memory[x])), FreeRequest, f,
              Solo(limit, [x] + free, memory, c.(requests := q), active + [ActiveRequest(0, memory[x])]));
  }

  lemma RespondPhase(s0: State, f: Payload -> Payload, limit: nat, x: nat, rest: seq<nat>, memory: seq<Payload>,
      c: Client, active: seq<ActiveRequest>, k: nat)
    requires Reach(s0, Solo(limit, [x] + rest, memory, c, active), f)
    requires c.responding.RespondIdle? && x < |memory| && |c.responses| < Spsc.Rounded(limit)
    requires k < |active| && active[k].client == 0
    ensures Reach(s0, Solo(limit, rest, memory[x := f(active[k].value)], c.(responses := c.responses + [x]),
                           Without(active, k)), f)
  {
    hide Reach, Spsc.Rounded;
    var s, v, left := Solo(limit, [x] + rest, memory, c, active), f(active[k].value), Without(active, k);
    assert ([x] + rest)[1..] == rest;
    var s1 := Solo(limit, rest, memory, c.(responding := RespondWrite(x, v)), left);
    var s2 := Solo(limit, rest, memory[x := v], c.(responding := RespondPush(x)), left);
    ReachStep(s0, s, StartRespond(k, v), f, s1);
    ReachStep(s0, s1, WriteResponse(0), f, s2);
    ReachStep(s0, s2, PushResponse(0), f,
              Solo(limit, rest, memory[x := v], c.(responses := c.responses + [x]), left));
  }

  lemma ReceivePhase(s0: State, f: Payload -> Payload, limit: nat, x: nat, free: seq<nat>, memory: seq<Payload>,
      c: Client, q: seq<nat>, active: seq<ActiveRequest>)
    requires Reach(s0, Solo(limit, free, memory, c, active), f)
    requires c.receiving.ReceiveIdle? && c.responses == [x] + q && x < |memory|
    ensures Reach(s0, Solo(limit, [x] + free, memory,
                           c.(responses := q, got := c.got + [memory[x]], finished := c.finished + 1), active), f)
  {
    hide Reach, Spsc.Rounded;
    var s := Solo(limit, free, memory, c, active);
    assert ([x] + q)[1..] == q;
    var s1 := Solo(limit, free, memory, c.(responses := q, receiving := ReceiveRead(x)), active);
    var s2 := Solo(limit, free, memory, c.(responses := q, receiving := ReceiveFree(x, memory[x])), active);
    ReachStep(s0, s, PopResponse(0), f, s1);
    ReachStep(s0, s1, CopyResponse(0), f, s2);
    ReachStep(s0, s2, FreeResponse(0), f,
              Solo(limit, [x] + free, memory,
                   c.(responses := q, got := c.got + [memory[x]], finished := c.finished + 1), active));
  }

  function Waiting(requests: seq<nat>, responses: seq<nat>, sent: seq<Payload>, started: nat): Client {
    Client(SendIdle, requests, responses, ReceiveIdle, RespondIdle, sent, [], started, 0)
  }

  /** Two requests are sent and both are received by the server. */
  lemma TwoRequests(s0: State, f: Payload -> Payload, limit: nat, rest: seq<nat>, memory: seq<Payload>,
      a: Payload, b: Payload)
    requires Reach(s0, Solo(limit, [0] + ([1] + rest), memory, NewClient(), []), f)
    requires |memory| >= 2 && Spsc.Rounded(limit) >= 2
    ensures Reach(s0, Solo(limit, [1] + ([0] + rest), memory[0 := a][1 := b], Waiting([], [], [a, b], 2),
                           [ActiveRequest(0, a), ActiveRequest(0, b)]), f)
  {
    hide Reach, Spsc.Rounded, Solo;
    SendPhase(s0, f, limit, 0, [1] + rest, memory, NewClient(), [], a);
    var c1, m1, m2 := Waiting([0], [], [a], 1), memory[0 := a], memory[0 := a][1 := b];
    assert NewClient().(requests := [] + [0], sent := [] + [a], started := 0 + 1) == c1;
    SendPhase(s0, f, limit, 1, rest, m1, c1, [], b);
    var c2 := Waiting([0, 1], [], [a, b], 2);
    assert c1.(requests := [0] + [1], sent := [a] + [b], started := 1 + 1) == c2;
    assert [0, 1] == [0] + [1];
    ServePhase(s0, f, limit, 0, rest, m2, c2, [1], []);
    var c3 := Waiting([1], [], [a, b], 2);
    assert c2.(requests := [1]) == c3 && [] + [ActiveRequest(0, a)] == [ActiveRequest(0, a)];
    assert [1] == [1] + [];
    ServePhase(s0, f, limit, 1, [0] + rest, m2, c3, [], [ActiveRequest(0, a)]);
    assert c3.(requests := []) == Waiting([], [], [a, b], 2);
    assert [ActiveRequest(0, a)] + [ActiveRequest(0, b)] == [ActiveRequest(0, a), ActiveRequest(0, b)];
  }

  /** The server answers the second request, and the client receives that answer. */
  lemma SecondAnswer(s0: State, f: Payload -> Payload, limit: nat, rest: seq<nat>, memory: seq<Payload>,
      a: Payload, b: Payload) returns (s: State)
    requires Reach(s0, Solo(limit, [1] + rest, memory, Waiting([], [], [a, b], 2),
                            [ActiveRequest(0, a), ActiveRequest(0, b)]), f)
    requires |memory| >= 2 && Spsc.Rounded(limit) >= 2
    ensures Reach(s0, s, f) && s.lost == 0 && |s.clients| == 1
    ensures s.clients[0].sent == [a, b] && s.clients[0].got == [f(b)]
  {
    hide Reach, Spsc.Rounded;
    var active := [ActiveRequest(0, a), ActiveRequest(0, b)];
    RespondPhase(s0, f, limit, 1, rest, memory, Waiting([], [], [a, b], 2), active, 1);
    var c, m := Waiting([], [1], [a, b], 2), memory[1 := f(b)];
    assert Waiting([], [], [a, b], 2).(responses := [] + [1]) == c;
    assert [1] == [1] + [];
    ReceivePhase(s0, f, limit, 1, rest, m, c, [], Without(active, 1));
    s := Solo(limit, [1] + rest, m, c.(responses := [], got := c.got + [m[1]], finished := c.finished + 1),
              Without(active, 1));
    assert c.got + [m[1]] == [f(b)];
  }

  /** For every limit and every f that answers two requests differently: a run in which the server
      answers each request with f, the later one first, no respond fails, and the client receives an
      answer that is not the one to its first request. */
  lemma ReverseAnswersMismatch(limit: nat, f: Payload -> Payload, a: Payload, b: Payload)
    returns (acts: seq<Action>, s: State)
    requires Creatable(limit) && f(a) != f(b)
    ensures Runs(Init(limit, 1), acts, s) && AllAnswer(Init(limit, 1), acts, f) && s.lost == 0
    ensures |s.clients| == 1 && s.clients[0].sent == [a, b] && s.clients[0].got == [f(b)]
    ensures !(s.clients[0].got <= Mapped(f, s.clients[0].sent))
  {
    var s0, n := Init(limit, 1), ChunkCount(limit);
    PoolEven(limit);
    RoundedAtLeastTwo(limit);
    hide ChunkCount, Creatable, Spsc.Rounded, Reach;
    var rest, memory := Range(n)[2..], seq(n, _ => []);
    assert Range(n) == [0] + ([1] + rest);
    ReachSelf(s0, f);
    assert s0 == Solo(limit, [0] + ([1] + rest), memory, NewClient(), []);
    TwoRequests(s0, f, limit, rest, memory, a, b);
    s := SecondAnswer(s0, f, limit, [0] + rest, memory[0 := a][1 := b], a, b);
    acts := SomeRun(s0, s, f);
    assert Mapped(f, [a, b])[0] == f(a);
  }

  lemma ReachSelf(s: State, f: Payload -> Payload)
    ensures Reach(s, s, f)
  {
    assert Runs(s, [], s) && AllAnswer(s, [], f);
  }

  lemma SomeRun(s0: State, s: State, f: Payload -> Payload) returns (acts: seq<Action>)
    requires Reach(s0, s, f)
    ensures Runs(s0, acts, s) && AllAnswer(s0, acts, f)
  {
    hide Runs, AllAnswer;
    acts :| Runs(s0, acts, s) && AllAnswer(s0, acts, f);
  }

  /** The pool has an even number of chunks, so at least two. */
  lemma PoolEven(limit: nat)
    requires Creatable(limit)
    ensures ChunkCount(limit) >= 2
  {
    if ChunkCount(limit) == 1 {
      var m := Max(limit * 2 % U64, 16);
      ModMod(limit * 2, 2, 0x8000_0000_0000_0000);
      ModMod(m, 2, 0x8000_0000);
      DivModUnique(limit * 2, 2, limit, 0);
    }
  }

  lemma RoundedAtLeastTwo(limit: nat)
    ensures Spsc.Rounded(limit) >= 2
  {
  }
}
