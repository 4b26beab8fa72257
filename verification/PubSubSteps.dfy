/** Zero-copy publish/subscribe with one channel as a step machine. */
module PubSubSteps {
  import opened Words
  import opened Counts
  import FL = FreeList
  import Spsc = SpscSteps

  /** Where `Publisher::loan` stands. */
  datatype Loan =
    | LoanIdle
    | LoanAllocate           // active_loans was below the limit, about to allocate
    | LoanCount(c: nat)      // chunk allocated, about to add to active_loans
    | LoanZero(c: nat)       // about to zero the payload

  /** Where `Publisher::reclaim` stands. */
  datatype Reclaim =
    | ReclaimIdle
    | ReclaimFree(c: nat)    // popped from the return queue, about to deallocate
    | ReclaimCount           // about to subtract from active_loans

  /** `loaned`: chunks of live `SampleMut`s. `held`: chunks of live `Sample`s, each with the number
      of the message it carries. `dropSubs`: dropped `SampleMut`s whose counter update is still to
      come. `leaked`: chunks whose send failed. `sent`, `received`, `seen`: the payloads at each
      successful send, at each receive, and at each read through a `Sample`. */
  datatype State = State(
    maxLoaned: nat, capacity: nat, free: seq<nat>, memory: seq<seq<nat>>, active: nat,
    loan: Loan, loaned: set<nat>, dropSubs: nat,
    sendQueue: seq<nat>, held: map<nat, nat>, returnQueue: seq<nat>, reclaim: Reclaim, leaked: set<nat>,
    sent: seq<seq<nat>>, received: seq<seq<nat>>, seen: seq<(nat, seq<nat>)>)

  /** The publisher's loans, sends, drops and reclaims interleave in any way with the subscriber's
      receives, reads and drops. Each pool operation, queue operation and counter update is one
      step. */
  datatype Action =
    | CheckLimit
    | Allocate
    | CountLoan
    | ZeroPayload
    | WriteWord(c: nat, k: nat, v: nat)
    | Send(c: nat)
    | DropFree(c: nat)
    | DropCount
    | Receive
    | ReadSample(c: nat)
    | DropSample(c: nat)
    | ReclaimPop
    | ReclaimDealloc
    | ReclaimSub

  /** `buffer_size as u32`. */
  function ChunkCount(bufferSize: nat): nat {
    bufferSize % U32
  }

  /** What `UniqueIndexSet::new` asserts of the pool's size. */
  predicate Creatable(bufferSize: nat) {
    0 < ChunkCount(bufferSize) < FL.SENTINEL
  }

  function Init(bufferSize: nat, maxLoaned: nat, words: nat): State {
    var n := ChunkCount(bufferSize);
    State(maxLoaned, Spsc.Rounded(bufferSize), Range(n), seq(n, _ => seq(words, _ => 0)), 0,
          LoanIdle, {}, 0, [], map[], [], ReclaimIdle, {}, [], [], [])
  }

  predicate Enabled(s: State, a: Action) {
    match a
    case CheckLimit => s.loan.LoanIdle?
    case Allocate => s.loan.LoanAllocate?
    case CountLoan => s.loan.LoanCount?
    case ZeroPayload => s.loan.LoanZero? && s.loan.c < |s.memory|
    case WriteWord(c, k, _) => c in s.loaned && c < |s.memory| && k < |s.memory[c]|
    case Send(c) => c in s.loaned && c < |s.memory|
    case DropFree(c) => c in s.loaned
    case DropCount => s.dropSubs > 0
    case Receive => s.sendQueue != [] ==> s.sendQueue[0] < |s.memory|
    case ReadSample(c) => c in s.held && c < |s.memory|
    case DropSample(c) => c in s.held
    case ReclaimPop => s.reclaim.ReclaimIdle?
    case ReclaimDealloc => s.reclaim.ReclaimFree?
    case ReclaimSub => s.reclaim.ReclaimCount?
  }

  predicate Full(queue: seq<nat>, capacity: nat) {
    |queue| >= capacity
  }

  function WithWord(payload: seq<nat>, k: nat, v: nat): seq<nat>
    requires k < |payload|
  {
    payload[k := v]
  }

  function Do(s: State, a: Action): State
    requires Enabled(s, a)
  {
    match a
    case CheckLimit => if s.active >= s.maxLoaned then s else s.(loan := LoanAllocate)
    case Allocate =>
      if s.free == [] then s.(loan := LoanIdle) else s.(free := s.free[1..], loan := LoanCount(s.free[0]))
    case CountLoan => s.(active := (s.active + 1) % U64, loan := LoanZero(s.loan.c))
    case ZeroPayload =>
      var c := s.loan.c;
      s.(memory := s.memory[c := seq(|s.memory[c]|, _ => 0)], loan := LoanIdle, loaned := s.loaned + {c})
    case WriteWord(c, k, v) => s.(memory := s.memory[c := WithWord(s.memory[c], k, v)])
    case Send(c) =>
      if Full(s.sendQueue, s.capacity) then s.(loaned := s.loaned - {c}, leaked := s.leaked + {c})
      else s.(loaned := s.loaned - {c}, sendQueue := s.sendQueue + [c], sent := s.sent + [s.memory[c]])
    case DropFree(c) => s.(loaned := s.loaned - {c}, free := [c] + s.free, dropSubs := s.dropSubs + 1)
    case DropCount => s.(active := (s.active + U64 - 1) % U64, dropSubs := s.dropSubs - 1)
    case Receive =>
      if s.sendQueue == [] then s
      else
        var c := s.sendQueue[0];
        s.(sendQueue := s.sendQueue[1..], held := s.held[c := |s.received|], received := s.received + [s.memory[c]])
    case ReadSample(c) => s.(seen := s.seen + [(s.held[c], s.memory[c])])
    case DropSample(c) =>
      if Full(s.returnQueue, s.capacity) then s
      else s.(held := s.held - {c}, returnQueue := s.returnQueue + [c])
    case ReclaimPop =>
      if s.returnQueue == [] then s
      else s.(returnQueue := s.returnQueue[1..], reclaim := ReclaimFree(s.returnQueue[0]))
    case ReclaimDealloc => s.(free := [s.reclaim.c] + s.free, reclaim := ReclaimCount)
    case ReclaimSub => s.(active := (s.active + U64 - 1) % U64, reclaim := ReclaimIdle)
  }

  predicate Runs(s: State, acts: seq<Action>, s': State)
    decreases acts
  {
    if acts == [] then s' == s
    else Enabled(s, acts[0]) && Runs(Do(s, acts[0]), acts[1..], s')
  }

  // ----- Chunk conservation -----

  /** How many places chunk `c` is in. */
  function PlaceCount(s: State, c: nat): nat {
    Occurrences(s.free, c) + One((s.loan.LoanCount? || s.loan.LoanZero?) && s.loan.c == c) + One(c in s.loaned)
    + Occurrences(s.sendQueue, c) + One(c in s.held) + Occurrences(s.returnQueue, c)
    + One(s.reclaim.ReclaimFree? && s.reclaim.c == c) + One(c in s.leaked)
  }

  /** How many chunks are in all places together. */
  function Total(s: State): nat {
    |s.free| + One(s.loan.LoanCount? || s.loan.LoanZero?) + |s.loaned| + |s.sendQueue| + |s.held|
    + |s.returnQueue| + One(s.reclaim.ReclaimFree?) + |s.leaked|
  }

  /** Each chunk is in exactly one place. */
  ghost predicate Conserved(s: State) {
    && (forall c: nat :: PlaceCount(s, c) == One(c < |s.memory|))
    && Total(s) == |s.memory|
  }

  /** The number of chunks `active_loans` stands for. */
  function Ledger(s: State): nat {
    (if s.loan.LoanZero? then 1 else 0) + |s.loaned| + s.dropSubs + |s.sendQueue| + |s.held|
    + |s.returnQueue| + (if s.reclaim.ReclaimIdle? then 0 else 1) + |s.leaked|
  }

  predicate Counted(s: State) {
    && s.maxLoaned < U64
    && s.active == Ledger(s) <= s.maxLoaned
    && (s.loan.LoanAllocate? || s.loan.LoanCount? ==> s.active < s.maxLoaned)
  }

  /** Messages under way and held carry the payloads that were sent, in order. */
  predicate Delivered(s: State) {
    && |s.sent| == |s.received| + |s.sendQueue|
    && s.received <= s.sent
    && (forall j :: 0 <= j < |s.sendQueue| ==>
          s.sendQueue[j] < |s.memory| && s.memory[s.sendQueue[j]] == s.sent[|s.received| + j])
    && (forall c <- s.held :: s.held[c] < |s.received| && c < |s.memory| && s.memory[c] == s.sent[s.held[c]])
    && (forall k :: 0 <= k < |s.seen| ==> s.seen[k].0 < |s.sent| && s.seen[k].1 == s.sent[s.seen[k].0])
  }

  ghost predicate Inv(s: State) {
    |s.memory| <= s.capacity && Conserved(s) && Counted(s) && Delivered(s) && s.leaked == {}
  }

  lemma InitInv(bufferSize: nat, maxLoaned: nat, words: nat)
    requires Creatable(bufferSize) && maxLoaned < U64
    ensures Inv(Init(bufferSize, maxLoaned, words))
  {
    var k := Spsc.RoundedIsPower(bufferSize);
    assert ChunkCount(bufferSize) <= bufferSize by { ModAtMost(bufferSize, U32); }
    hide ChunkCount, Occurrences;
    var s := Init(bufferSize, maxLoaned, words);
    forall c: nat ensures PlaceCount(s, c) == One(c < |s.memory|) {
      RangeOnce(|s.memory|, c);
      NoOccurrence(c);
    }
  }

  lemma ModAtMost(a: nat, m: nat)
    requires m > 0
    ensures a % m <= a
  {
    if a < m { DivModUnique(a, m, 0, a); }
  }

  // ----- Moves between places -----

  /** The steps of the subscriber side. */
  predicate Subscribers(a: Action) {
    a.Receive? || a.ReadSample? || a.DropSample?
  }

  /** The steps that end a `SampleMut`. */
  predicate Samples(a: Action) {
    a.Send? || a.DropFree? || a.DropCount?
  }

  /** Chunks move between places: no step makes one or loses one. */
  lemma MoveStep(s: State, a: Action, c: nat)
    requires Conserved(s) && Enabled(s, a)
    ensures PlaceCount(Do(s, a), c) == PlaceCount(s, c)
  {
    if Subscribers(a) { SubscriberMove(s, a, c); }
    else if Samples(a) { SampleMove(s, a, c); }
    else { LoanMove(s, a, c); }
  }

  lemma SubscriberMove(s: State, a: Action, c: nat)
    requires Conserved(s) && Enabled(s, a) && Subscribers(a)
    ensures PlaceCount(Do(s, a), c) == PlaceCount(s, c)
  {
    hide Occurrences, Conserved;
    match a
    case Receive =>
      if s.sendQueue != [] {
        Behead(s.sendQueue, c);
        HeadNotHeld(s);
      }
    case DropSample(x) => Append(s.returnQueue, x, c);
    case _ =>
  }

  lemma SampleMove(s: State, a: Action, c: nat)
    requires Conserved(s) && Enabled(s, a) && Samples(a)
    ensures PlaceCount(Do(s, a), c) == PlaceCount(s, c)
  {
    hide Occurrences;
    match a
    case Send(x) => Append(s.sendQueue, x, c); NotLeaked(s, x);
    case DropFree(x) => Prepend(s.free, x, c);
    case _ =>
  }

  lemma LoanMove(s: State, a: Action, c: nat)
    requires Conserved(s) && Enabled(s, a) && !Subscribers(a) && !Samples(a)
    ensures PlaceCount(Do(s, a), c) == PlaceCount(s, c)
  {
    hide Occurrences, Conserved;
    match a
    case Allocate => if s.free != [] { Behead(s.free, c); }
    case ZeroPayload => NotLoaned(s);
    case ReclaimPop => if s.returnQueue != [] { Behead(s.returnQueue, c); }
    case ReclaimDealloc => Prepend(s.free, s.reclaim.c, c);
    case _ =>
  }

  lemma TotalStep(s: State, a: Action)
    requires Conserved(s) && Enabled(s, a)
    ensures Total(Do(s, a)) == Total(s) && |Do(s, a).memory| == |s.memory|
  {
    if Subscribers(a) { SubscriberTotal(s, a); }
    else if Samples(a) { SampleTotal(s, a); }
    else { LoanTotal(s, a); }
  }

  lemma SubscriberTotal(s: State, a: Action)
    requires Conserved(s) && Enabled(s, a) && Subscribers(a)
    ensures Total(Do(s, a)) == Total(s) && |Do(s, a).memory| == |s.memory|
  {
    hide Conserved, PlaceCount;
    match a
    case Receive => if s.sendQueue != [] { ReceiveTotal(s); }
    case DropSample(x) => MapShrinks(s.held, x);
    case _ =>
  }

  lemma ReceiveTotal(s: State)
    requires Conserved(s) && Enabled(s, Receive) && s.sendQueue != []
    ensures Total(Do(s, Receive)) == Total(s) && |Do(s, Receive).memory| == |s.memory|
  {
    hide Conserved, PlaceCount;
    HeadNotHeld(s);
    MapGrows(s.held, s.sendQueue[0], |s.received|);
  }

  lemma SampleTotal(s: State, a: Action)
    requires Conserved(s) && Enabled(s, a) && Samples(a)
    ensures Total(Do(s, a)) == Total(s) && |Do(s, a).memory| == |s.memory|
  {
    hide Conserved, PlaceCount;
    if a.Send? { NotLeaked(s, a.c); }
  }

  lemma NotLeaked(s: State, c: nat)
    requires Conserved(s) && c in s.loaned
    ensures c !in s.leaked
  {
    hide Occurrences;
    assert PlaceCount(s, c) <= 1;
  }

  lemma LoanTotal(s: State, a: Action)
    requires Conserved(s) && Enabled(s, a) && !Subscribers(a) && !Samples(a)
    ensures Total(Do(s, a)) == Total(s) && |Do(s, a).memory| == |s.memory|
  {
    hide Conserved;
    if a.ZeroPayload? { NotLoaned(s); }
  }

  lemma HeadNotHeld(s: State)
    requires Conserved(s) && s.sendQueue != []
    ensures s.sendQueue[0] !in s.held
  {
    hide Occurrences;
    Occurs(s.sendQueue, 0);
    assert PlaceCount(s, s.sendQueue[0]) <= 1;
  }

  lemma ConservedStep(s: State, a: Action)
    requires Conserved(s) && Enabled(s, a)
    ensures Conserved(Do(s, a)) && |Do(s, a).memory| == |s.memory|
  {
    TotalStep(s, a);
    hide Do, Total, PlaceCount;
    forall c: nat ensures PlaceCount(Do(s, a), c) == One(c < |s.memory|) {
      MoveStep(s, a, c);
    }
  }

  /** A queue cannot hold all chunks while one is elsewhere. */
  lemma RoomForOneMore(s: State, c: nat)
    requires Conserved(s) && |s.memory| <= s.capacity
    ensures c in s.loaned ==> !Full(s.sendQueue, s.capacity)
    ensures c in s.held ==> !Full(s.returnQueue, s.capacity)
  {
    if c in s.held { assert c in s.held.Keys; }
  }

  lemma CountedStep(s: State, a: Action)
    requires Conserved(s) && Counted(s) && |s.memory| <= s.capacity && s.leaked == {} && Enabled(s, a)
    ensures Counted(Do(s, a)) && Do(s, a).leaked == {}
  {
    hide Conserved, Ledger;
    if Subscribers(a) { SubscriberLedger(s, a); }
    else if Samples(a) { SampleLedger(s, a); }
    else { LoanLedger(s, a); }
  }

  /** How a step changes the number of chunks that are out. */
  lemma SubscriberLedger(s: State, a: Action)
    requires Conserved(s) && |s.memory| <= s.capacity && Enabled(s, a) && Subscribers(a)
    ensures Ledger(Do(s, a)) == Ledger(s)
  {
    hide Conserved, PlaceCount, Total;
    match a
    case Receive => if s.sendQueue != [] { HeadNotHeld(s); MapGrows(s.held, s.sendQueue[0], |s.received|); }
    case DropSample(c) => MapShrinks(s.held, c);
    case _ =>
  }

  lemma SampleLedger(s: State, a: Action)
    requires Conserved(s) && |s.memory| <= s.capacity && Enabled(s, a) && Samples(a)
    ensures Ledger(Do(s, a)) == Ledger(s) - One(a.DropCount?)
    ensures a.DropCount? ==> Ledger(s) >= 1
    ensures a.Send? ==> !Full(s.sendQueue, s.capacity)
  {
    hide Conserved;
    if a.Send? { RoomForOneMore(s, a.c); }
  }

  lemma LoanLedger(s: State, a: Action)
    requires Conserved(s) && Enabled(s, a) && !Subscribers(a) && !Samples(a)
    ensures Ledger(Do(s, a)) == Ledger(s) + One(a.CountLoan?) - One(a.ReclaimSub?)
    ensures a.ReclaimSub? ==> Ledger(s) >= 1
  {
    hide Conserved;
    if a.ZeroPayload? { NotLoaned(s); }
  }

  lemma NotLoaned(s: State)
    requires Conserved(s) && s.loan.LoanZero?
    ensures s.loan.c !in s.loaned
  {
    assert PlaceCount(s, s.loan.c) <= 1;
  }

  lemma MapGrows(m: map<nat, nat>, c: nat, v: nat)
    requires c !in m
    ensures |m[c := v]| == |m| + 1
  {
    assert m[c := v].Keys == m.Keys + {c};
  }

  lemma MapShrinks(m: map<nat, nat>, c: nat)
    requires c in m
    ensures |m - {c}| == |m| - 1
  {
    assert (m - {c}).Keys == m.Keys - {c};
  }

  /** Only loaned chunks are written, and those are neither under way nor held. */
  lemma WritesElsewhere(s: State, c: nat)
    requires Conserved(s) && (c in s.loaned || (s.loan.LoanZero? && s.loan.c == c))
    ensures c !in s.held && c !in s.sendQueue
  {
    hide Occurrences;
    assert PlaceCount(s, c) <= 1;
    if j :| 0 <= j < |s.sendQueue| && s.sendQueue[j] == c { Occurs(s.sendQueue, j); }
  }

  lemma MemoryWriteDelivered(s: State, c: nat, payload: seq<nat>)
    requires Delivered(s) && c < |s.memory| && c !in s.held && c !in s.sendQueue
    ensures Delivered(s.(memory := s.memory[c := payload]))
  {
  }

  lemma DeliveredStep(s: State, a: Action)
    requires Inv(s) && Enabled(s, a)
    ensures Delivered(Do(s, a))
  {
    hide Conserved, Counted;
    match a
    case ZeroPayload =>
      WritesElsewhere(s, s.loan.c);
      MemoryWriteDelivered(s, s.loan.c, seq(|s.memory[s.loan.c]|, _ => 0));
    case WriteWord(c, k, v) =>
      WritesElsewhere(s, c);
      MemoryWriteDelivered(s, c, WithWord(s.memory[c], k, v));
    case Send(c) => SendDelivered(s, c);
    case Receive => ReceiveDelivered(s);
    case _ =>
  }

  lemma SendDelivered(s: State, c: nat)
    requires Inv(s) && Enabled(s, Send(c))
    ensures Delivered(Do(s, Send(c)))
  {
    RoomForOneMore(s, c);
    hide Conserved, Counted;
    SendAppends(s, c);
  }

  lemma SendAppends(s: State, c: nat)
    requires Delivered(s) && Enabled(s, Send(c)) && !Full(s.sendQueue, s.capacity)
    ensures Delivered(Do(s, Send(c)))
  {
  }

  lemma ReceiveDelivered(s: State)
    requires Inv(s) && Enabled(s, Receive)
    ensures Delivered(Do(s, Receive))
  {
    hide Conserved, Counted;
    if s.sendQueue != [] {
      var s' := Do(s, Receive);
      assert s'.received == s.sent[..|s.received| + 1];
    }
  }

  lemma InvStep(s: State, a: Action)
    requires Inv(s) && Enabled(s, a)
    ensures Inv(Do(s, a))
  {
    ConservedStep(s, a);
    CountedStep(s, a);
    DeliveredStep(s, a);
    hide Conserved, Counted, Delivered;
  }

  lemma {:induction false} RunInv(s: State, acts: seq<Action>, s': State)
    requires Inv(s) && Runs(s, acts, s')
    ensures Inv(s') && |s'.memory| == |s.memory|
    decreases acts
  {
    if acts != [] {
      InvStep(s, acts[0]);
      ConservedStep(s, acts[0]);
      hide Inv, Do;
      RunInv(Do(s, acts[0]), acts[1..], s');
    }
  }

  // ----- Theorems over every run -----

  /** The whole path is a FIFO that carries values: what the subscriber receives is, in order, a
      prefix of what was sent; and every read through a `Sample`, whenever it happens, sees the
      payload of its message. */
  lemma ZeroCopyIsFifo(bufferSize: nat, maxLoaned: nat, words: nat, acts: seq<Action>, s: State)
    requires Creatable(bufferSize) && maxLoaned < U64
    requires Runs(Init(bufferSize, maxLoaned, words), acts, s)
    ensures s.received <= s.sent
    ensures forall k :: 0 <= k < |s.seen| ==> s.seen[k].0 < |s.sent| && s.seen[k].1 == s.sent[s.seen[k].0]
    ensures |s.sent| == |s.received| + |s.sendQueue|
    ensures forall j :: 0 <= j < |s.sendQueue| ==>
              s.sendQueue[j] < |s.memory| && s.memory[s.sendQueue[j]] == s.sent[|s.received| + j]
    ensures forall c <- s.held :: s.held[c] < |s.sent| && c < |s.memory| && s.memory[c] == s.sent[s.held[c]]
  {
    InitInv(bufferSize, maxLoaned, words);
    RunInv(Init(bufferSize, maxLoaned, words), acts, s);
  }

  /** Each chunk is in exactly one place, so no `deallocate` returns a chunk that is already free,
      and no chunk is ever lost. */
  lemma ChunksConserved(bufferSize: nat, maxLoaned: nat, words: nat, acts: seq<Action>, s: State, c: nat)
    requires Creatable(bufferSize) && maxLoaned < U64
    requires Runs(Init(bufferSize, maxLoaned, words), acts, s)
    ensures PlaceCount(s, c) == One(c < ChunkCount(bufferSize))
    ensures s.leaked == {}
    ensures s.reclaim.ReclaimFree? ==> s.reclaim.c !in s.free
    ensures c in s.loaned ==> c !in s.free
  {
    InitInv(bufferSize, maxLoaned, words);
    RunInv(Init(bufferSize, maxLoaned, words), acts, s);
    if s.reclaim.ReclaimFree? { FreeIsElsewhere(s, s.reclaim.c); }
    if c in s.loaned { FreeIsElsewhere(s, c); }
  }

  lemma FreeIsElsewhere(s: State, c: nat)
    requires Conserved(s) && (c in s.loaned || (s.reclaim.ReclaimFree? && s.reclaim.c == c))
    ensures c !in s.free
  {
    hide Occurrences;
    assert PlaceCount(s, c) <= 1;
    if j :| 0 <= j < |s.free| && s.free[j] == c { Occurs(s.free, j); }
  }

  /** `QueueFull` is unreachable and `return_offset` succeeds on its first push. */
  lemma QueuesNeverFull(bufferSize: nat, maxLoaned: nat, words: nat, acts: seq<Action>, s: State, c: nat)
    requires Creatable(bufferSize) && maxLoaned < U64
    requires Runs(Init(bufferSize, maxLoaned, words), acts, s)
    ensures c in s.loaned ==> !Full(s.sendQueue, s.capacity)
    ensures c in s.held ==> !Full(s.returnQueue, s.capacity)
  {
    InitInv(bufferSize, maxLoaned, words);
    RunInv(Init(bufferSize, maxLoaned, words), acts, s);
    RoomForOneMore(s, c);
  }

  /** `active_loans` counts exactly the chunks that are out, never passes `max_loaned`, and is
      positive whenever it is about to be decremented. */
  lemma ActiveLoansExact(bufferSize: nat, maxLoaned: nat, words: nat, acts: seq<Action>, s: State)
    requires Creatable(bufferSize) && maxLoaned < U64
    requires Runs(Init(bufferSize, maxLoaned, words), acts, s)
    ensures s.active == Ledger(s) <= maxLoaned
    ensures s.dropSubs > 0 || s.reclaim.ReclaimCount? ==> s.active > 0
    ensures s.loan.LoanIdle? && s.dropSubs == 0 && s.reclaim.ReclaimIdle? ==>
              s.active == ChunkCount(bufferSize) - |s.free|
  {
    InitInv(bufferSize, maxLoaned, words);
    RunInv(Init(bufferSize, maxLoaned, words), acts, s);
    RunLimit(Init(bufferSize, maxLoaned, words), acts, s);
  }

  lemma {:induction false} RunLimit(s: State, acts: seq<Action>, s': State)
    requires Runs(s, acts, s')
    ensures s'.maxLoaned == s.maxLoaned
    decreases acts
  {
    if acts != [] { RunLimit(Do(s, acts[0]), acts[1..], s'); }
  }
}
