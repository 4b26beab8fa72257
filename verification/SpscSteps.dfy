/** `SpscQueue` as a step machine, and its refinement of a bounded FIFO. */
module SpscSteps {
  import opened Words
  import opened Results
  import Atomic = AtomicObjects

  /** Where the producer stands in `push`. */
  datatype Producer =
    | PushReady
    | PushLoaded(value: nat, write: nat)    // write_pos loaded, about to load read_pos
    | PushStore(value: nat, write: nat)     // room seen, about to store the value
    | PushPublish(value: nat, write: nat)   // value stored, about to advance write_pos
    | PushDone(ok: bool)

  /** Where the consumer stands in `pop`. */
  datatype Consumer =
    | PopReady
    | PopLoaded(read: nat)                  // read_pos loaded, about to load write_pos
    | PopLoad(read: nat)                    // element seen, about to load it
    | PopPublish(read: nat, value: nat)     // value loaded, about to advance read_pos
    | PopDone(result: Option<nat>)

  /** `pushed` and `popped`: all values published by the producer and taken by the consumer. */
  datatype State = State(
    writePos: nat, readPos: nat, capacity: nat, mask: nat, data: seq<nat>,
    producer: Producer, consumer: Consumer, pushed: seq<nat>, popped: seq<nat>)

  /** One producer and one consumer, one atomic access a step. */
  datatype Action =
    | BeginPush(value: nat)
    | LoadRead
    | StoreData
    | PublishWrite
    | ReturnPush
    | BeginPop
    | LoadWrite
    | LoadData
    | PublishRead
    | ReturnPop

  /** `a.wrapping_sub(b)` on 64 bits. */
  function WrappingSub(a: nat, b: nat): nat
    requires a < U64 && b < U64
  {
    (a + U64 - b) % U64
  }

  function WrappingInc(a: nat): nat {
    (a + 1) % U64
  }

  /** The capacity `new` allots: rounded up to a power of two, and at least 2. */
  function Rounded(requested: nat): nat {
    Max(NextPowerOfTwo(requested), 2)
  }

  function Init(requested: nat): State {
    var capacity := Rounded(requested);
    State(0, 0, capacity, capacity - 1, seq(capacity, _ => 0), PushReady, PopReady, [], [])
  }

  predicate Enabled(s: State, a: Action) {
    match a
    case BeginPush(_) => s.producer.PushReady?
    case LoadRead => s.producer.PushLoaded? && s.producer.write < U64 && s.readPos < U64
    case StoreData => s.producer.PushStore? && And(s.producer.write, s.mask) < |s.data|
    case PublishWrite => s.producer.PushPublish?
    case ReturnPush => s.producer.PushDone?
    case BeginPop => s.consumer.PopReady?
    case LoadWrite => s.consumer.PopLoaded?
    case LoadData => s.consumer.PopLoad? && And(s.consumer.read, s.mask) < |s.data|
    case PublishRead => s.consumer.PopPublish?
    case ReturnPop => s.consumer.PopDone?
  }

  function Do(s: State, a: Action): State
    requires Enabled(s, a)
  {
    var p, c := s.producer, s.consumer;
    match a
    case BeginPush(v) => s.(producer := PushLoaded(v, s.writePos))
    case LoadRead =>
      if WrappingSub(p.write, s.readPos) >= s.capacity then s.(producer := PushDone(false))
      else s.(producer := PushStore(p.value, p.write))
    case StoreData =>
      s.(data := s.data[And(p.write, s.mask) := p.value], producer := PushPublish(p.value, p.write))
    case PublishWrite =>
      s.(writePos := WrappingInc(p.write), pushed := s.pushed + [p.value], producer := PushDone(true))
    case ReturnPush => s.(producer := PushReady)
    case BeginPop => s.(consumer := PopLoaded(s.readPos))
    case LoadWrite =>
      if c.read == s.writePos then s.(consumer := PopDone(None)) else s.(consumer := PopLoad(c.read))
    case LoadData => s.(consumer := PopPublish(c.read, s.data[And(c.read, s.mask)]))
    case PublishRead =>
      s.(readPos := WrappingInc(c.read), popped := s.popped + [c.value], consumer := PopDone(Some(c.value)))
    case ReturnPop => s.(consumer := PopReady)
  }

  predicate Runs(s: State, acts: seq<Action>, s': State)
    decreases acts
  {
    if acts == [] then s' == s
    else Enabled(s, acts[0]) && Runs(Do(s, acts[0]), acts[1..], s')
  }

  // ----- Invariant -----

  predicate Sized(s: State, k: nat) {
    k <= 63 && s.capacity == Pow2(k) == |s.data| && s.mask == s.capacity - 1
  }

  /** Both positions are the true counts modulo 2^64, and what was popped is what was pushed. */
  predicate Positions(s: State) {
    && s.writePos == |s.pushed| % U64 && s.readPos == |s.popped| % U64
    && s.popped <= s.pushed && |s.pushed| - |s.popped| <= s.capacity
  }

  /** Every unread value is still in its slot. */
  predicate Unread(s: State) {
    && s.capacity > 0 && s.capacity == |s.data|
    && forall j: nat :: |s.popped| <= j < |s.pushed| ==> s.data[Remainder(j, s.capacity)] == s.pushed[j]
  }

  predicate ProducerOk(s: State) {
    match s.producer
    case PushLoaded(_, w) => w == s.writePos
    case PushStore(_, w) => w == s.writePos && |s.pushed| - |s.popped| < s.capacity
    case PushPublish(v, w) =>
      && w == s.writePos && |s.pushed| - |s.popped| < s.capacity
      && s.capacity > 0 && s.capacity == |s.data| && s.data[Remainder(|s.pushed|, s.capacity)] == v
    case _ => true
  }

  predicate ConsumerOk(s: State) {
    match s.consumer
    case PopLoaded(r) => r == s.readPos
    case PopLoad(r) => r == s.readPos && |s.popped| < |s.pushed|
    case PopPublish(r, v) => r == s.readPos && |s.popped| < |s.pushed| && v == s.pushed[|s.popped|]
    case _ => true
  }

  predicate Inv(s: State, k: nat) {
    Sized(s, k) && Positions(s) && Unread(s) && ProducerOk(s) && ConsumerOk(s)
  }

  /** The requested capacity is at most what `new` allots, which is a power of two. */
  lemma RoundedIsPower(requested: nat) returns (k: nat)
    ensures Rounded(requested) == Pow2(k) >= requested && k >= 1
    ensures requested <= 0x8000_0000_0000_0000 ==> k <= 63
  {
    var j := NextPowerOfTwoIsLeast(requested);
    k := Max(j, 1);
    assert Pow2(1) == 2;
    if j == 0 {
      assert Pow2(0) == 1;
    } else {
      Pow2Monotone(1, j);
    }
    if requested <= 0x8000_0000_0000_0000 && k > 63 {
      Pow2Values();
      assert Pow2(63) >= requested;
      Pow2Monotone(64, k);
    }
  }

  lemma InitInv(requested: nat) returns (k: nat)
    requires requested <= 0x8000_0000_0000_0000
    ensures Inv(Init(requested), k)
  {
    k := RoundedIsPower(requested);
  }

  /** Masking a wrapped position gives the slot of the true count. */
  lemma MaskedSlot(count: nat, k: nat)
    requires k <= 63
    ensures And(count % U64, Pow2(k) - 1) == Remainder(count, Pow2(k))
  {
    DivisionIs(count, Pow2(k));
    AndMask(count % U64, k);
    assert Pow2(64) == U64 by { Pow2Values(); }
    ModPow2(count, k, 64);
  }

  /** Two counts less than the capacity apart use different slots. */
  lemma SlotsDiffer(j: nat, n: nat, m: nat)
    requires m > 0 && j < n < j + m
    ensures Remainder(j, m) != Remainder(n, m)
  {
    DivisionIs(j, m);
    DivisionIs(n, m);
    if j % m == n % m { ModInjective(j, n, m); }
  }

  lemma PowerBelowWord(k: nat)
    requires k <= 63
    ensures Pow2(k) < U64
  {
    Pow2Values();
    Pow2Monotone(k, 63);
  }

  // ----- The bounded FIFO that callers see -----

  datatype Op = Push(v: nat) | Pop

  datatype Answer = Pushed(ok: bool) | Popped(item: Option<nat>)

  datatype Fifo = Fifo(items: seq<nat>, capacity: nat)

  /** `push` appends its argument and answers true, or answers false and the queue is full; `pop` takes
      and answers the oldest value, or answers `None` and the queue is empty. */
  predicate FifoEffect(q: Fifo, op: Op, r: Answer, q': Fifo) {
    match op
    case Push(v) =>
      r.Pushed? &&
      if r.ok then |q.items| < q.capacity && q' == q.(items := q.items + [v])
      else |q.items| == q.capacity && q' == q
    case Pop =>
      r.Popped? &&
      if r.item.Some? then q.items != [] && r.item.value == q.items[0] && q' == q.(items := q.items[1..])
      else q.items == [] && q' == q
  }

  /** The producer is thread 0 and the consumer thread 1. */
  type Event = Atomic.Event<Op, Answer>
  type Queue = Atomic.Object<Fifo, Op, Answer>

  /** The calls and returns that the program sees: arguments come from the caller, results from where
      `push` and `pop` end. */
  function Seen(s: State, a: Action): seq<Event>
    requires Enabled(s, a)
  {
    match a
    case BeginPush(v) => [Atomic.Called(0, Push(v))]
    case ReturnPush => [Atomic.Returned(0, Pushed(s.producer.ok))]
    case BeginPop => [Atomic.Called(1, Pop)]
    case ReturnPop => [Atomic.Returned(1, Popped(s.consumer.result))]
    case _ => []
  }

  function History(s: State, acts: seq<Action>): seq<Event>
    decreases acts
  {
    if acts == [] || !Enabled(s, acts[0]) then []
    else Seen(s, acts[0]) + History(Do(s, acts[0]), acts[1..])
  }

  function PushCall(p: Producer): Atomic.Call<Op, Answer> {
    match p
    case PushReady => Atomic.NoCall
    case PushDone(ok) => Atomic.Answered(Pushed(ok))
    case PushLoaded(v, _) => Atomic.Pending(Push(v))
    case PushStore(v, _) => Atomic.Pending(Push(v))
    case PushPublish(v, _) => Atomic.Pending(Push(v))
  }

  function PopCall(c: Consumer): Atomic.Call<Op, Answer> {
    match c
    case PopReady => Atomic.NoCall
    case PopDone(r) => Atomic.Answered(Popped(r))
    case _ => Atomic.Pending(Pop)
  }

  function Items(s: State): seq<nat>
    requires |s.popped| <= |s.pushed|
  {
    s.pushed[|s.popped|..]
  }

  function Abs(s: State): Queue
    requires |s.popped| <= |s.pushed|
  {
    Atomic.Object(Fifo(Items(s), s.capacity), [PushCall(s.producer), PopCall(s.consumer)])
  }

  /** What a step does to the queue: nothing, a call, a return, or the effect of a call. */
  ghost predicate Refines(s: State, a: Action)
    requires Enabled(s, a) && |s.popped| <= |s.pushed|
  {
    && |Do(s, a).popped| <= |Do(s, a).pushed|
    && Atomic.Linearizes(FifoEffect, Abs(s), Seen(s, a), Abs(Do(s, a)))
  }

  lemma LoadReadStep(s: State, k: nat)
    requires Inv(s, k) && Enabled(s, LoadRead)
    ensures Inv(Do(s, LoadRead), k)
    ensures Refines(s, LoadRead)
  {
    PowerBelowWord(k);
    WrappingDistance(|s.popped|, |s.pushed|, U64);
    var s' := Do(s, LoadRead);
    if s'.producer.PushDone? {
      Atomic.OneEvent(FifoEffect, Abs(s), Atomic.Took(0, Pushed(false)), Abs(s'));
    } else {
      Atomic.NoEvent(FifoEffect, Abs(s));
    }
  }

  lemma StoreDataStep(s: State, k: nat)
    requires Inv(s, k) && Enabled(s, StoreData)
    ensures Inv(Do(s, StoreData), k)
    ensures Refines(s, StoreData)
  {
    Atomic.NoEvent(FifoEffect, Abs(s));
    hide And, Remainder;
    MaskedSlot(|s.pushed|, k);
    var s' := Do(s, StoreData);
    forall j: nat | |s'.popped| <= j < |s'.pushed| ensures s'.data[Remainder(j, s'.capacity)] == s'.pushed[j] {
      SlotsDiffer(j, |s.pushed|, s.capacity);
    }
  }

  lemma PublishWriteStep(s: State, k: nat)
    requires Inv(s, k) && Enabled(s, PublishWrite)
    ensures Inv(Do(s, PublishWrite), k)
    ensures Refines(s, PublishWrite)
  {
    ModIncrement(|s.pushed|, U64);
    Atomic.OneEvent(FifoEffect, Abs(s), Atomic.Took(0, Pushed(true)), Abs(Do(s, PublishWrite)));
  }

  lemma LoadWriteStep(s: State, k: nat)
    requires Inv(s, k) && Enabled(s, LoadWrite)
    ensures Inv(Do(s, LoadWrite), k)
    ensures Refines(s, LoadWrite)
  {
    PowerBelowWord(k);
    if s.readPos == s.writePos {
      ModInjective(|s.popped|, |s.pushed|, U64);
      Atomic.OneEvent(FifoEffect, Abs(s), Atomic.Took(1, Popped(None)), Abs(Do(s, LoadWrite)));
    } else {
      Atomic.NoEvent(FifoEffect, Abs(s));
    }
  }

  lemma LoadDataStep(s: State, k: nat)
    requires Inv(s, k) && Enabled(s, LoadData)
    ensures Inv(Do(s, LoadData), k)
    ensures Refines(s, LoadData)
  {
    Atomic.NoEvent(FifoEffect, Abs(s));
    hide And, Remainder;
    MaskedSlot(|s.popped|, k);
  }

  lemma PublishReadStep(s: State, k: nat)
    requires Inv(s, k) && Enabled(s, PublishRead)
    ensures Inv(Do(s, PublishRead), k)
    ensures Refines(s, PublishRead)
  {
    ModIncrement(|s.popped|, U64);
    Atomic.OneEvent(FifoEffect, Abs(s), Atomic.Took(1, Popped(Some(s.consumer.value))), Abs(Do(s, PublishRead)));
  }

  lemma CallStep(s: State, a: Action, k: nat)
    requires Inv(s, k) && Enabled(s, a) && (a.BeginPush? || a.ReturnPush? || a.BeginPop? || a.ReturnPop?)
    ensures Inv(Do(s, a), k)
    ensures Refines(s, a)
  {
    Atomic.OneEvent(FifoEffect, Abs(s), Seen(s, a)[0], Abs(Do(s, a)));
  }

  /** Each step of either side calls, returns, does nothing that callers see, or is the instant at which
      the call takes effect on the FIFO. */
  lemma StepRefines(s: State, a: Action, k: nat)
    requires Inv(s, k) && Enabled(s, a)
    ensures Inv(Do(s, a), k)
    ensures Refines(s, a)
  {
    match a
    case LoadRead => LoadReadStep(s, k);
    case StoreData => StoreDataStep(s, k);
    case PublishWrite => PublishWriteStep(s, k);
    case LoadWrite => LoadWriteStep(s, k);
    case LoadData => LoadDataStep(s, k);
    case PublishRead => PublishReadStep(s, k);
    case _ => CallStep(s, a, k);
  }

  /** From every state of a run, what callers see is a history of the atomic FIFO. */
  lemma {:induction false} RunRefines(s: State, acts: seq<Action>, s': State, k: nat)
    requires Inv(s, k) && Runs(s, acts, s')
    ensures Inv(s', k) && s'.capacity == s.capacity
    ensures Atomic.Linearizes(FifoEffect, Abs(s), History(s, acts), Abs(s'))
    decreases acts
  {
    if acts == [] {
      Atomic.NoEvent(FifoEffect, Abs(s));
    } else {
      StepRefines(s, acts[0], k);
      var mid := Do(s, acts[0]);
      assert |s.popped| <= |s.pushed| && |mid.popped| <= |mid.pushed| && mid.capacity == s.capacity;
      hide Inv, Enabled, Do, Abs, Seen;
      RunRefines(mid, acts[1..], s', k);
      Atomic.Concat(FifoEffect, Abs(s), Seen(s, acts[0]), Abs(mid), History(mid, acts[1..]), Abs(s'));
    }
  }

  /** Every interleaving of a producer and a consumer is a history of an atomic FIFO bounded by the
      capacity: each call takes effect once, between its call and its return, with the argument it was
      called with and the result it returns. Popped values are a prefix of pushed ones, at most
      `capacity` are pending, and every pending value is still in its slot. */
  lemma QueueRefinesFifo(requested: nat, acts: seq<Action>, s: State)
    requires requested <= 0x8000_0000_0000_0000 && Runs(Init(requested), acts, s)
    ensures s.capacity == Rounded(requested) >= requested
    ensures s.popped <= s.pushed && |s.pushed| - |s.popped| <= s.capacity
    ensures Unread(s)
    ensures Atomic.Linearizes(FifoEffect, Atomic.Object(Fifo([], s.capacity), [Atomic.NoCall, Atomic.NoCall]),
                              History(Init(requested), acts), Abs(s))
  {
    var j := RoundedIsPower(requested);
    var k := InitInv(requested);
    RunRefines(Init(requested), acts, s, k);
  }

  // ----- Neither call waits for the other side -----

  /** How many steps `push` has left at most. */
  function PushLeft(p: Producer): nat {
    match p
    case PushLoaded(_, _) => 3
    case PushStore(_, _) => 2
    case PushPublish(_, _) => 1
    case _ => 0
  }

  function PopLeft(c: Consumer): nat {
    match c
    case PopLoaded(_) => 3
    case PopLoad(_) => 2
    case PopPublish(_, _) => 1
    case _ => 0
  }

  predicate Pushes(a: Action) {
    a.LoadRead? || a.StoreData? || a.PublishWrite?
  }

  predicate Pops(a: Action) {
    a.LoadWrite? || a.LoadData? || a.PublishRead?
  }

  /** A call that is not over can take a step, and each of its steps brings it nearer to its end. */
  lemma CallAdvances(s: State, a: Action, k: nat)
    requires Inv(s, k)
    ensures PushLeft(s.producer) > 0 ==> exists b :: Pushes(b) && Enabled(s, b)
    ensures PopLeft(s.consumer) > 0 ==> exists b :: Pops(b) && Enabled(s, b)
    ensures Enabled(s, a) && Pushes(a) ==> PushLeft(Do(s, a).producer) < PushLeft(s.producer)
    ensures Enabled(s, a) && Pops(a) ==> PopLeft(Do(s, a).consumer) < PopLeft(s.consumer)
  {
    hide And, Remainder;
    MaskedSlot(|s.pushed|, k);
    MaskedSlot(|s.popped|, k);
    assert Enabled(s, LoadRead) || Enabled(s, StoreData) || Enabled(s, PublishWrite) || PushLeft(s.producer) == 0;
    assert Enabled(s, LoadWrite) || Enabled(s, LoadData) || Enabled(s, PublishRead) || PopLeft(s.consumer) == 0;
  }

  function CountOf(acts: seq<Action>, counted: Action -> bool): nat {
    if acts == [] then 0 else (if counted(acts[0]) then 1 else 0) + CountOf(acts[1..], counted)
  }

  /** `push` and `pop` are wait-free: whatever the other side does, a call ends after at most three of
      its own steps. */
  lemma {:induction false} WaitFree(s: State, acts: seq<Action>, s': State, k: nat)
    requires Inv(s, k) && Runs(s, acts, s')
    ensures (forall a <- acts :: !a.BeginPush?) ==>
              CountOf(acts, Pushes) + PushLeft(s'.producer) <= PushLeft(s.producer) <= 3
    ensures (forall a <- acts :: !a.BeginPop?) ==>
              CountOf(acts, Pops) + PopLeft(s'.consumer) <= PopLeft(s.consumer) <= 3
    decreases acts
  {
    if acts != [] {
      var a := acts[0];
      StepRefines(s, a, k);
      CallAdvances(s, a, k);
      assert !a.BeginPush? && !Pushes(a) ==> PushLeft(Do(s, a).producer) <= PushLeft(s.producer);
      assert !a.BeginPop? && !Pops(a) ==> PopLeft(Do(s, a).consumer) <= PopLeft(s.consumer);
      hide Inv, Enabled, Do;
      WaitFree(Do(s, a), acts[1..], s', k);
    }
  }
}
