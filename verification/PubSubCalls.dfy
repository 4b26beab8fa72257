/** What the publisher's and the subscriber's calls do over every run. */
module PubSubCalls {
  import opened Words
  import opened Counts
  import opened PubSubSteps

  // ----- What is sent is what was written -----

  /** Word `k` of chunk `c` after `acts`, as far as the writes of the payload's owner go: the last value
      written to that word since the chunk was loaned, and 0 before; `v` if the chunk was not loaned. */
  function Word(s: State, acts: seq<Action>, c: nat, k: nat, v: nat): nat
    decreases acts
  {
    if acts == [] || !Enabled(s, acts[0]) then v
    else Word(Do(s, acts[0]), acts[1..], c, k, NextWord(s, acts[0], c, k, v))
  }

  function NextWord(s: State, a: Action, c: nat, k: nat, v: nat): nat {
    if a.WriteWord? && a.c == c && a.k == k then a.v
    else if a.ZeroPayload? && s.loan.LoanZero? && s.loan.c == c then 0
    else v
  }

  lemma StepWord(s: State, a: Action, c: nat)
    requires Enabled(s, a) && c < |s.memory|
    ensures |Do(s, a).memory| == |s.memory| && |Do(s, a).memory[c]| == |s.memory[c]|
    ensures forall k: nat :: k < |s.memory[c]| ==>
              Do(s, a).memory[c][k] == NextWord(s, a, c, k, s.memory[c][k])
  {
  }

  lemma {:induction false} RunWord(s: State, acts: seq<Action>, s': State, c: nat, k: nat)
    requires Runs(s, acts, s') && c < |s.memory| && k < |s.memory[c]|
    ensures c < |s'.memory| && |s'.memory[c]| == |s.memory[c]|
    ensures s'.memory[c][k] == Word(s, acts, c, k, s.memory[c][k])
    decreases acts
  {
    hide Do, Enabled, NextWord;
    if acts != [] {
      StepWord(s, acts[0], c);
      RunWord(Do(s, acts[0]), acts[1..], s', c, k);
    }
  }

  /** In every run, `send` of a loaned chunk succeeds and puts behind the messages already sent one whose
      every word is the last value written to it through the loan, or 0. */
  lemma SentIsWritten(bufferSize: nat, maxLoaned: nat, words: nat, acts: seq<Action>, s: State, c: nat)
    returns (payload: seq<nat>)
    requires Creatable(bufferSize) && maxLoaned < U64
    requires Runs(Init(bufferSize, maxLoaned, words), acts, s) && Enabled(s, Send(c))
    ensures Do(s, Send(c)) == s.(loaned := s.loaned - {c}, sendQueue := s.sendQueue + [c], sent := s.sent + [payload])
    ensures |payload| == words
    ensures forall k: nat :: k < words ==> payload[k] == Word(Init(bufferSize, maxLoaned, words), acts, c, k, 0)
  {
    var s0 := Init(bufferSize, maxLoaned, words);
    InitInv(bufferSize, maxLoaned, words);
    RunInv(s0, acts, s);
    payload := s.memory[c];
    hide Word, Runs, Conserved, Delivered, Counted, ChunkCount, Creatable, Full;
    SendRoom(s, c);
    assert |payload| == words by { RunSize(s0, acts, s, c); }
    forall k: nat | k < words ensures payload[k] == Word(s0, acts, c, k, 0) {
      RunWord(s0, acts, s, c, k);
    }
  }

  lemma SendRoom(s: State, c: nat)
    requires Inv(s) && Enabled(s, Send(c))
    ensures !Full(s.sendQueue, s.capacity)
  {
    RoomForOneMore(s, c);
  }

  lemma {:induction false} RunSize(s: State, acts: seq<Action>, s': State, c: nat)
    requires Runs(s, acts, s') && c < |s.memory|
    ensures c < |s'.memory| && |s'.memory[c]| == |s.memory[c]|
    decreases acts
  {
    if acts != [] {
      StepWord(s, acts[0], c);
      hide Do, Enabled;
      RunSize(Do(s, acts[0]), acts[1..], s', c);
    }
  }

  /** In every run, `receive` takes the oldest message that was sent and not received, and nothing only
      when there is none; a read through a `Sample` sees the payload that was sent in its message. */
  lemma ReceivedInOrder(bufferSize: nat, maxLoaned: nat, words: nat, acts: seq<Action>, s: State)
    requires Creatable(bufferSize) && maxLoaned < U64 && Runs(Init(bufferSize, maxLoaned, words), acts, s)
    ensures Enabled(s, Receive)
    ensures |s.received| == |s.sent| ==> Do(s, Receive) == s
    ensures |s.received| < |s.sent| ==>
              s.sendQueue != [] &&
              var c, s' := s.sendQueue[0], Do(s, Receive);
              && s'.received == s.received + [s.sent[|s.received|]] && c !in s.held
              && s'.held == s.held[c := |s.received|] && s'.sendQueue == s.sendQueue[1..]
    ensures forall c <- s.held :: Enabled(s, ReadSample(c)) && s.held[c] < |s.sent|
              && Do(s, ReadSample(c)).seen == s.seen + [(s.held[c], s.sent[s.held[c]])]
  {
    InitInv(bufferSize, maxLoaned, words);
    RunInv(Init(bufferSize, maxLoaned, words), acts, s);
    if s.sendQueue != [] { HeadNotHeld(s); }
    hide Conserved, Counted, Runs, Init;
  }

  // ----- When `loan` fails -----

  /** In every run, `loan` is refused at the limit exactly when `max_loaned` chunks are out, and finds
      no chunk exactly when every chunk of the pool is loaned, under way, held or on its way back. */
  lemma LoanFailsExactly(bufferSize: nat, maxLoaned: nat, words: nat, acts: seq<Action>, s: State)
    requires Creatable(bufferSize) && maxLoaned < U64 && Runs(Init(bufferSize, maxLoaned, words), acts, s)
    ensures Enabled(s, CheckLimit) ==> (Do(s, CheckLimit).loan.LoanIdle? <==> Ledger(s) == maxLoaned)
    ensures Enabled(s, Allocate) ==>
              (Do(s, Allocate).loan.LoanIdle? <==>
               |s.loaned| + |s.sendQueue| + |s.held| + |s.returnQueue| + One(s.reclaim.ReclaimFree?)
               == ChunkCount(bufferSize))
  {
    InitInv(bufferSize, maxLoaned, words);
    RunInv(Init(bufferSize, maxLoaned, words), acts, s);
    RunLimit(Init(bufferSize, maxLoaned, words), acts, s);
    hide Delivered, PlaceCount, Runs, Spsc.Rounded, ChunkCount;
  }

  // ----- Everything can be given back -----

  function LoanWork(l: Loan): nat {
    match l
    case LoanIdle => 0
    case LoanAllocate => 5
    case LoanCount(_) => 4
    case LoanZero(_) => 3
  }

  /** How many steps it takes at most to give everything back. */
  function Work(s: State): nat {
    LoanWork(s.loan) + 2 * |s.loaned| + s.dropSubs + 5 * |s.sendQueue| + 4 * |s.held| + 3 * |s.returnQueue|
    + (match s.reclaim case ReclaimIdle => 0 case ReclaimFree(_) => 2 case ReclaimCount => 1)
  }

  /** A next step towards a state in which nothing is out. */
  function NextStep(s: State): Action {
    if s.reclaim.ReclaimFree? then ReclaimDealloc
    else if s.reclaim.ReclaimCount? then ReclaimSub
    else if s.returnQueue != [] then ReclaimPop
    else if s.sendQueue != [] then Receive
    else if s.loan.LoanAllocate? then Allocate
    else if s.loan.LoanCount? then CountLoan
    else if s.loan.LoanZero? then ZeroPayload
    else DropCount
  }

  /** The choice of a held or loaned chunk is free, so the step is not a function of the state. */
  lemma SomeStep(s: State) returns (a: Action)
    requires Inv(s) && Work(s) > 0
    ensures Enabled(s, a) && Work(Do(s, a)) < Work(s)
  {
    hide Counted, PlaceCount, Conserved, Delivered;
    if s.reclaim.ReclaimIdle? && s.returnQueue == [] && s.held != map[] {
      var c :| c in s.held;
      a := DropSample(c);
      RoomForOneMore(s, c);
      MapShrinks(s.held, c);
    } else if NextStep(s) == DropCount && s.loaned != {} {
      var c :| c in s.loaned;
      a := DropFree(c);
    } else {
      a := NextStep(s);
      NextAdvances(s);
    }
  }

  lemma NextAdvances(s: State)
    requires Inv(s) && Work(s) > 0
    requires s.reclaim.ReclaimIdle? && s.returnQueue == [] ==> s.held == map[]
    requires NextStep(s) == DropCount ==> s.loaned == {}
    ensures Enabled(s, NextStep(s)) && Work(Do(s, NextStep(s))) < Work(s)
  {
    if s.loan.LoanZero? { NotLoaned(s); LoanChunk(s); }
    if s.sendQueue != [] { HeadNotHeld(s); MapGrows(s.held, s.sendQueue[0], |s.received|); }
    hide Conserved, Counted;
  }

  lemma LoanChunk(s: State)
    requires Conserved(s) && s.loan.LoanZero?
    ensures s.loan.c < |s.memory|
  {
    hide Occurrences;
    assert PlaceCount(s, s.loan.c) == One(s.loan.c < |s.memory|);
  }

  /** From every state of a run, some run gives everything back: all messages are received, all chunks
      are free, and no loan is counted. So no chunk is ever stuck, in whatever state it is. */
  lemma {:induction false} Drain(s: State) returns (acts: seq<Action>, s': State)
    requires Inv(s)
    ensures Runs(s, acts, s') && Inv(s') && |acts| <= Work(s)
    ensures |s'.free| == |s'.memory| == |s.memory| && s'.active == 0 && s'.received == s'.sent
    ensures s'.loaned == {} && s'.held == map[] && s'.loan == LoanIdle && s'.reclaim == ReclaimIdle
    decreases Work(s)
  {
    if Work(s) == 0 {
      acts, s' := [], s;
      AtRest(s);
    } else {
      var a := SomeStep(s);
      InvStep(s, a);
      ConservedStep(s, a) by { InvConserved(s); }
      hide Do, Enabled, Inv, Work;
      acts, s' := Drain(Do(s, a));
      assert ([a] + acts)[1..] == acts;
      acts := [a] + acts;
    }
  }

  lemma InvConserved(s: State)
    requires Inv(s)
    ensures Conserved(s)
  {
  }

  lemma AtRest(s: State)
    requires Inv(s) && Work(s) == 0
    ensures |s.free| == |s.memory| && s.active == 0 && s.received == s.sent
    ensures s.loaned == {} && s.held == map[] && s.loan == LoanIdle && s.reclaim == ReclaimIdle
  {
    hide PlaceCount;
  }
}
