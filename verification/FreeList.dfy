/** The tagged lock-free free-list as a step machine: one atomic access a step, any number of
    threads. `UniqueIndexSet` and `MpmcContainer` both run it. */
module FreeList {
  import opened Words

  const SENTINEL: nat := 0xFFFF_FFFF

  const TAG_BITS: nat := 32
  const HEAD_BITS: nat := 64

  // ----- The packed head word: [index:32][tag:32] -----

  function Pack(head: nat, tag: nat): nat {
    Or(ShiftLeft(head, TAG_BITS, HEAD_BITS), And(tag, U32 - 1))
  }

  function HeadOf(word: nat): nat {
    ShiftRight(word, TAG_BITS) % U32
  }

  function TagOf(word: nat): nat {
    And(word, U32 - 1) % U32
  }

  function WrappingInc(tag: nat): nat {
    (tag + 1) % U32
  }

  lemma PackFields(head: nat, tag: nat)
    requires head < U32 && tag < U32
    ensures Pack(head, tag) < U64 && HeadOf(Pack(head, tag)) == head && TagOf(Pack(head, tag)) == tag
  {
    Pow2Values();
    PackParts(head, tag, 32, 64);
  }

  lemma PackParts(head: nat, tag: nat, k: nat, n: nat)
    requires head < U32 && tag < U32
    requires k <= n && Pow2(k) == U32 && Pow2(n) == U64 && Pow2(n - k) == U32
    ensures var w := Or(ShiftLeft(head, k, n), And(tag, U32 - 1));
            w < U64 && ShiftRight(w, k) % U32 == head && And(w, U32 - 1) % U32 == tag
  {
    hide Or, And, ShiftLeft, ShiftRight, Pow2;
    PackRoundTrip(head, tag, k, n);
  }

  // ----- State -----

  /** The shared words. `version` counts the head updates; the code keeps only its remainder
      modulo 2^32, as the tag. */
  datatype Memory = Memory(head: nat, next: seq<nat>, version: nat)

  /** Where a thread stands in `acquire` or `release`. `seen` is the version that was current
      when `old` was loaded; the code does not have it. */
  datatype Pc =
    | Ready
    | AcqRead(word: nat, seen: nat)             // about to load next[head of old]
    | AcqCas(word: nat, seen: nat, nx: nat)     // about to compare-and-swap the head
    | Acquired(idx: nat)
    | Exhausted
    | RelStore(idx: nat, word: nat, seen: nat)  // about to store next[idx]
    | RelCas(idx: nat, word: nat, seen: nat)    // about to compare-and-swap the head
    | Released(idx: nat)

  /** `held`: the indices this thread has acquired and not yet given back. */
  datatype Thread = Thread(pc: Pc, held: set<nat>)

  /** `parked`: indices a thread has handed to something else, such as a queue or a table. */
  datatype State = State(mem: Memory, threads: seq<Thread>, parked: set<nat>)

  datatype Action =
    | BeginAcquire(t: nat)
    | ReadNext(t: nat)
    | CasAcquire(t: nat, spurious: bool)
    | BeginRelease(t: nat, i: nat)
    | StoreNext(t: nat)
    | CasRelease(t: nat, spurious: bool)
    | Return(t: nat)
    | Park(t: nat, i: nat)
    | Take(t: nat, i: nat)

  function InitNext(capacity: nat): seq<nat> {
    seq(capacity, i => if i + 1 < capacity then i + 1 else SENTINEL)
  }

  function Init(capacity: nat, threads: nat): State {
    State(Memory(Pack(0, 0), InitNext(capacity), 0), seq(threads, _ => Thread(Ready, {})), {})
  }

  predicate Enabled(s: State, a: Action) {
    && a.t < |s.threads|
    && var th := s.threads[a.t];
       match a
       case BeginAcquire(_) => th.pc.Ready?
       case ReadNext(_) => th.pc.AcqRead? && HeadOf(th.pc.word) < |s.mem.next|
       case CasAcquire(_, _) => th.pc.AcqCas?
       case BeginRelease(_, i) => th.pc.Ready? && i in th.held
       case StoreNext(_) => th.pc.RelStore? && th.pc.idx < |s.mem.next|
       case CasRelease(_, _) => th.pc.RelCas?
       case Return(_) => th.pc.Acquired? || th.pc.Exhausted? || th.pc.Released?
       case Park(_, i) => th.pc.Ready? && i in th.held
       case Take(_, i) => th.pc.Ready? && i in s.parked
  }

  /** What `acquire` does after loading or reloading the head word. */
  function AfterLoad(m: Memory): Pc {
    if HeadOf(m.head) == SENTINEL then Exhausted else AcqRead(m.head, m.version)
  }

  predicate Succeeds(s: State, a: Action)
    requires Enabled(s, a)
  {
    (a.CasAcquire? || a.CasRelease?) && !a.spurious && s.threads[a.t].pc.word == s.mem.head
  }

  function WithPc(s: State, t: nat, pc: Pc): State
    requires t < |s.threads|
  {
    s.(threads := s.threads[t := s.threads[t].(pc := pc)])
  }

  function Do(s: State, a: Action): State
    requires Enabled(s, a)
  {
    var th := s.threads[a.t];
    match a
    case BeginAcquire(t) => WithPc(s, t, AfterLoad(s.mem))
    case ReadNext(t) => WithPc(s, t, AcqCas(th.pc.word, th.pc.seen, s.mem.next[HeadOf(th.pc.word)]))
    case CasAcquire(t, _) =>
      if Succeeds(s, a) then
        var i := HeadOf(th.pc.word);
        var packed := Pack(th.pc.nx, WrappingInc(TagOf(th.pc.word)));
        State(s.mem.(head := packed, version := s.mem.version + 1),
              s.threads[t := Thread(Acquired(i), th.held + {i})], s.parked)
      else WithPc(s, t, AfterLoad(s.mem))
    case BeginRelease(t, i) => WithPc(s, t, RelStore(i, s.mem.head, s.mem.version))
    case StoreNext(t) =>
      WithPc(s.(mem := s.mem.(next := s.mem.next[th.pc.idx := HeadOf(th.pc.word)])), t,
             RelCas(th.pc.idx, th.pc.word, th.pc.seen))
    case CasRelease(t, _) =>
      if Succeeds(s, a) then
        var packed := Pack(th.pc.idx, WrappingInc(TagOf(th.pc.word)));
        State(s.mem.(head := packed, version := s.mem.version + 1),
              s.threads[t := Thread(Released(th.pc.idx), th.held - {th.pc.idx})], s.parked)
      else WithPc(s, t, RelStore(th.pc.idx, s.mem.head, s.mem.version))
    case Return(t) => WithPc(s, t, Ready)
    case Park(t, i) => State(s.mem, s.threads[t := th.(held := th.held - {i})], s.parked + {i})
    case Take(t, i) => State(s.mem, s.threads[t := th.(held := th.held + {i})], s.parked - {i})
  }

  /** The assumption on tags: when an `acquire` swaps the head, fewer than 2^32 head updates
      have happened since it loaded its `old`. Nothing is asked of `release`. */
  predicate WindowOk(s: State, a: Action)
    requires Enabled(s, a)
  {
    a.CasAcquire? && Succeeds(s, a) ==> s.mem.version < s.threads[a.t].pc.seen + U32
  }

  /** `acts` leads from `s` to `s'`. */
  predicate Runs(s: State, acts: seq<Action>, s': State)
    decreases acts
  {
    if acts == [] then s' == s
    else Enabled(s, acts[0]) && Runs(Do(s, acts[0]), acts[1..], s')
  }

  predicate WindowsOk(s: State, acts: seq<Action>)
    decreases acts
  {
    acts == [] ||
    (Enabled(s, acts[0]) && WindowOk(s, acts[0]) && WindowsOk(Do(s, acts[0]), acts[1..]))
  }

  /** What an `acquire` swap needs of the `next` value it read: it is still the current one. */
  predicate NextCurrent(s: State, a: Action)
    requires Enabled(s, a)
  {
    a.CasAcquire? && Succeeds(s, a) && HeadOf(s.mem.head) < |s.mem.next| ==>
      s.threads[a.t].pc.nx == s.mem.next[HeadOf(s.mem.head)]
  }

  predicate AllCurrent(s: State, acts: seq<Action>)
    decreases acts
  {
    acts == [] ||
    (Enabled(s, acts[0]) && NextCurrent(s, acts[0]) && AllCurrent(Do(s, acts[0]), acts[1..]))
  }

  // ----- What holds in every run, whatever the tags do -----

  predicate InRange(i: nat, capacity: nat) {
    i < capacity || i == SENTINEL
  }

  predicate WordOk(word: nat, seen: nat, m: Memory) {
    seen <= m.version && InRange(HeadOf(word), |m.next|) && TagOf(word) == seen % U32
    && (seen == m.version ==> word == m.head)
  }

  predicate MemoryShape(m: Memory) {
    && 0 < |m.next| <= SENTINEL
    && (forall i :: 0 <= i < |m.next| ==> InRange(m.next[i], |m.next|))
    && WordOk(m.head, m.version, m)
  }

  predicate ThreadShape(th: Thread, m: Memory) {
    && (forall i <- th.held :: i < |m.next|)
    && match th.pc
       case AcqRead(word, seen) => WordOk(word, seen, m) && HeadOf(word) < |m.next|
       case AcqCas(word, seen, nx) => WordOk(word, seen, m) && HeadOf(word) < |m.next| && InRange(nx, |m.next|)
       case Acquired(i) => i in th.held
       case RelStore(i, word, seen) => i in th.held && WordOk(word, seen, m)
       case RelCas(i, word, seen) => i in th.held && WordOk(word, seen, m)
       case _ => true
  }

  predicate Shape(s: State) {
    && MemoryShape(s.mem)
    && (forall i <- s.parked :: i < |s.mem.next|)
    && forall t :: 0 <= t < |s.threads| ==> ThreadShape(s.threads[t], s.mem)
  }

  lemma InitShape(capacity: nat, threads: nat)
    requires 0 < capacity <= SENTINEL
    ensures Shape(Init(capacity, threads))
    ensures HeadOf(Init(capacity, threads).mem.head) == 0 && TagOf(Init(capacity, threads).mem.head) == 0
  {
    PackFields(0, 0);
  }

  /** Every index the code uses stays in bounds and every loaded word carries the tag of the
      version it was loaded at. */
  lemma ShapeStep(s: State, a: Action)
    requires Shape(s) && Enabled(s, a)
    ensures Shape(Do(s, a)) && |Do(s, a).mem.next| == |s.mem.next|
  {
    hide Pack, HeadOf, TagOf;
    if Succeeds(s, a) {
      SwapShape(s, a);
    } else if a.StoreNext? {
      StoreShape(s, a);
    } else {
      LocalShape(s, a);
    }
  }

  lemma SwapShape(s: State, a: Action)
    requires Shape(s) && Enabled(s, a) && Succeeds(s, a)
    ensures Shape(Do(s, a)) && |Do(s, a).mem.next| == |s.mem.next|
    ensures HeadOf(Do(s, a).mem.head) == if a.CasAcquire? then s.threads[a.t].pc.nx else s.threads[a.t].pc.idx
  {
    hide Pack, HeadOf, TagOf;
    SwapMemory(s, a);
    hide Do, Enabled, Succeeds;
    var s' := Do(s, a);
    forall u | 0 <= u < |s'.threads| ensures ThreadShape(s'.threads[u], s'.mem) {
      if u != a.t { BumpShape(s.threads[u], s.mem, s'.mem); }
    }
  }

  lemma SwapMemory(s: State, a: Action)
    requires Shape(s) && Enabled(s, a) && Succeeds(s, a)
    ensures var s' := Do(s, a);
            && MemoryShape(s'.mem) && s'.mem.next == s.mem.next && s'.mem.version == s.mem.version + 1
            && HeadOf(s'.mem.head) == (if a.CasAcquire? then s.threads[a.t].pc.nx else s.threads[a.t].pc.idx)
            && |s'.threads| == |s.threads| && s'.parked == s.parked
            && ThreadShape(s'.threads[a.t], s'.mem)
            && forall u :: 0 <= u < |s.threads| && u != a.t ==> s'.threads[u] == s.threads[u]
  {
    hide Pack, HeadOf, TagOf;
    var th := s.threads[a.t];
    assert ThreadShape(th, s.mem);
    PackFields(if a.CasAcquire? then th.pc.nx else th.pc.idx, WrappingInc(TagOf(th.pc.word)));
    ModIncrement(s.mem.version, U32);
  }

  lemma BumpShape(th: Thread, m: Memory, m': Memory)
    requires ThreadShape(th, m) && m'.next == m.next && m'.version == m.version + 1
    ensures ThreadShape(th, m')
  {
    hide Pack, HeadOf, TagOf;
  }

  lemma StoreShape(s: State, a: Action)
    requires Shape(s) && Enabled(s, a) && a.StoreNext?
    ensures Shape(Do(s, a)) && |Do(s, a).mem.next| == |s.mem.next|
  {
    hide Pack, HeadOf, TagOf;
    var s' := Do(s, a);
    assert ThreadShape(s.threads[a.t], s.mem);
    forall u | 0 <= u < |s'.threads| ensures ThreadShape(s'.threads[u], s'.mem) {
      assert ThreadShape(s.threads[u], s.mem);
    }
  }

  lemma LocalShape(s: State, a: Action)
    requires Shape(s) && Enabled(s, a) && !Succeeds(s, a) && !a.StoreNext?
    ensures Shape(Do(s, a)) && Do(s, a).mem == s.mem
  {
    hide Pack, HeadOf, TagOf;
    var s' := Do(s, a);
    forall u | 0 <= u < |s'.threads| ensures ThreadShape(s'.threads[u], s'.mem) {
      assert ThreadShape(s.threads[u], s.mem);
    }
  }
}
