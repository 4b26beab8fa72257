/** The blackboard's seqlock as a step machine, and its refinement of an atomic register. */
module Seqlock {
  import opened Words
  import opened Results
  import Atomic = AtomicObjects

  /** Where the writer stands in `write`. */
  datatype Writer =
    | WriteReady
    | WriteBegin(value: seq<nat>, sequence: nat)                 // sequence loaded, about to make it odd
    | WriteCopy(value: seq<nat>, sequence: nat, left: set<nat>)  // storing the payload words, those in `left` to go

  /** Where a reader stands in `read`. `seen` is the true count behind the sequence it loaded. */
  datatype ReadPc =
    | ReadReady
    | ReadLoop                                                   // about to load the sequence
    | ReadCopy(first: nat, seen: nat, buffer: seq<nat>, left: set<nat>)  // loading the payload words
    | ReadDone(result: Option<seq<nat>>)

  /** `accepted`: the values this reader's calls returned, each with the number of the write it
      came from, counting from 1. */
  datatype Reader = Reader(pc: ReadPc, accepted: seq<(nat, seq<nat>)>)

  /** `version`: the true number of updates of `sequence`. `writes`: the completed writes. */
  datatype State = State(
    sequence: nat, version: nat, memory: seq<nat>, writer: Writer, readers: seq<Reader>, writes: seq<seq<nat>>)

  /** One writer and any number of readers; the words of a payload are copied in any order. */
  datatype Action =
    | BeginWrite(value: seq<nat>)
    | MakeOdd
    | StoreWord(k: nat)
    | MakeEven
    | BeginRead(t: nat)
    | LoadFirst(t: nat)
    | LoadWord(t: nat, k: nat)
    | Recheck(t: nat)
    | Return(t: nat)

  function Init(initial: seq<nat>, readers: nat): State {
    State(0, 0, initial, WriteReady, seq(readers, _ => Reader(ReadReady, [])), [])
  }

  predicate HasReader(a: Action) {
    a.BeginRead? || a.LoadFirst? || a.LoadWord? || a.Recheck? || a.Return?
  }

  predicate Enabled(s: State, a: Action) {
    && (HasReader(a) ==> a.t < |s.readers|)
    && match a
       case BeginWrite(v) => s.writer.WriteReady? && |v| == |s.memory|
       case MakeOdd => s.writer.WriteBegin?
       case StoreWord(k) => s.writer.WriteCopy? && k in s.writer.left && k < |s.memory| && k < |s.writer.value|
       case MakeEven => s.writer.WriteCopy? && s.writer.left == {}
       case BeginRead(t) => s.readers[t].pc.ReadReady?
       case LoadFirst(t) => s.readers[t].pc.ReadLoop?
       case LoadWord(t, k) =>
         s.readers[t].pc.ReadCopy? && k in s.readers[t].pc.left && k < |s.memory| && k < |s.readers[t].pc.buffer|
       case Recheck(t) => s.readers[t].pc.ReadCopy? && s.readers[t].pc.left == {}
       case Return(t) => s.readers[t].pc.ReadDone?
  }

  function WrappingAdd(a: nat, b: nat): nat {
    (a + b) % U64
  }

  /** The indices of all payload words. */
  function AllWords(n: nat): (words: set<nat>)
    ensures forall k: nat :: k in words <==> k < n
  {
    if n == 0 then {} else AllWords(n - 1) + {n - 1}
  }

  function WithReader(s: State, t: nat, r: Reader): State
    requires t < |s.readers|
  {
    s.(readers := s.readers[t := r])
  }

  function Blank(n: nat): seq<nat> {
    seq(n, _ => 0)
  }

  /** What `read` does with the sequence it loaded first. */
  function AfterFirst(s: State): ReadPc {
    if s.sequence == 0 then ReadDone(None)
    else if And(s.sequence, 1) != 0 then ReadLoop
    else ReadCopy(s.sequence, s.version, Blank(|s.memory|), AllWords(|s.memory|))
  }

  /** The second load equals the first. */
  predicate Accepts(s: State, a: Action)
    requires Enabled(s, a)
  {
    a.Recheck? && s.readers[a.t].pc.first == s.sequence
  }

  function Do(s: State, a: Action): State
    requires Enabled(s, a)
  {
    var w := s.writer;
    match a
    case BeginWrite(v) => s.(writer := WriteBegin(v, s.sequence))
    case MakeOdd =>
      s.(sequence := WrappingAdd(w.sequence, 1), version := s.version + 1,
         writer := WriteCopy(w.value, w.sequence, AllWords(|w.value|)))
    case StoreWord(k) => s.(memory := s.memory[k := w.value[k]], writer := w.(left := w.left - {k}))
    case MakeEven =>
      s.(sequence := WrappingAdd(w.sequence, 2), version := s.version + 1, writer := WriteReady,
         writes := s.writes + [w.value])
    case BeginRead(t) => WithReader(s, t, s.readers[t].(pc := ReadLoop))
    case LoadFirst(t) => WithReader(s, t, s.readers[t].(pc := AfterFirst(s)))
    case LoadWord(t, k) =>
      var pc := s.readers[t].pc;
      WithReader(s, t, s.readers[t].(pc := pc.(buffer := pc.buffer[k := s.memory[k]], left := pc.left - {k})))
    case Recheck(t) =>
      var r := s.readers[t];
      if Accepts(s, a)
      then WithReader(s, t, Reader(ReadDone(Some(r.pc.buffer)), r.accepted + [(r.pc.seen / 2, r.pc.buffer)]))
      else WithReader(s, t, r.(pc := ReadLoop))
    case Return(t) => WithReader(s, t, s.readers[t].(pc := ReadReady))
  }

  /** The assumptions on the 64-bit counter: fewer than 2^64 updates happen between the two loads
      of an accepted read, and a read that finds 0 does so before the counter wraps. */
  predicate WindowOk(s: State, a: Action)
    requires Enabled(s, a)
  {
    && (Accepts(s, a) ==> s.version < s.readers[a.t].pc.seen + U64)
    && (a.LoadFirst? && s.sequence == 0 ==> s.version < U64)
  }

  predicate Runs(s: State, acts: seq<Action>, s': State)
    decreases acts
  {
    if acts == [] then s' == s
    else Enabled(s, acts[0]) && Runs(Do(s, acts[0]), acts[1..], s')
  }

  predicate WindowsOk(s: State, acts: seq<Action>)
    decreases acts
  {
    acts == [] ||
    (Enabled(s, acts[0]) && WindowOk(s, acts[0]) && WindowsOk(Do(s, acts[0]), acts[1..]))
  }

  // ----- Invariant -----

  /** `a` and `b` have the same words, except perhaps those in `left`. */
  predicate Agree(a: seq<nat>, b: seq<nat>, left: set<nat>) {
    |a| == |b| && forall k: nat :: k < |a| && k !in left ==> a[k] == b[k]
  }

  predicate WriterOk(s: State) {
    && s.sequence == s.version % U64
    && match s.writer
       case WriteReady => s.version == 2 * |s.writes|
       case WriteBegin(v, q) => s.version == 2 * |s.writes| && q == s.sequence && |v| == |s.memory|
       case WriteCopy(v, q, left) =>
         && s.version == 2 * |s.writes| + 1 && q == (s.version - 1) % U64
         && |v| == |s.memory| && Agree(s.memory, v, left) && forall k <- left :: k < |s.memory|
  }

  /** Between writes the memory holds the last completed one. */
  predicate MemoryOk(s: State) {
    !s.writer.WriteCopy? && s.writes != [] ==> s.memory == s.writes[|s.writes| - 1]
  }

  predicate ReaderOk(r: Reader, version: nat, memory: seq<nat>, writes: seq<seq<nat>>) {
    && (forall k :: 0 <= k < |r.accepted| ==>
          1 <= r.accepted[k].0 <= |writes| && r.accepted[k].1 == writes[r.accepted[k].0 - 1])
    && (forall j, k :: 0 <= j < k < |r.accepted| ==> r.accepted[j].0 <= r.accepted[k].0)
    && (r.pc.ReadCopy? ==>
          && 0 < r.pc.seen <= version && r.pc.seen % 2 == 0 && r.pc.first == r.pc.seen % U64
          && |r.pc.buffer| == |memory| && (forall k <- r.pc.left :: k < |memory|)
          && (r.pc.seen == version ==> Agree(r.pc.buffer, memory, r.pc.left))
          && (r.accepted != [] ==> 2 * r.accepted[|r.accepted| - 1].0 <= r.pc.seen))
    && (r.pc.ReadDone? && r.pc.result.Some? ==>
          r.accepted != [] && r.pc.result.value == r.accepted[|r.accepted| - 1].1)
  }

  predicate ReadersOk(s: State) {
    forall t :: 0 <= t < |s.readers| ==> ReaderOk(s.readers[t], s.version, s.memory, s.writes)
  }

  predicate Inv(s: State) {
    WriterOk(s) && MemoryOk(s) && ReadersOk(s)
  }

  lemma InitInv(initial: seq<nat>, readers: nat)
    ensures Inv(Init(initial, readers))
  {
  }

  /** `sequence & 1` is the parity of the true count. */
  lemma Parity(version: nat)
    ensures And(version % U64, 1) != 0 <==> version % 2 == 1
  {
    assert Pow2(1) == 2;
    AndMask(version % U64, 1);
    ModMod(version, 2, 0x8000_0000_0000_0000);
  }

  // ----- The register that callers see -----

  datatype Op = Write(v: seq<nat>) | Read

  datatype Answer = Written | Got(value: Option<seq<nat>>)

  /** `write` replaces the value by its argument; `read` answers the value. */
  predicate RegisterEffect(v: Option<seq<nat>>, op: Op, r: Answer, v': Option<seq<nat>>) {
    match op
    case Write(x) => r == Written && v' == Some(x)
    case Read => r == Got(v) && v' == v
  }

  /** The writer is thread 0 and reader `t` thread `t + 1`. */
  type Event = Atomic.Event<Op, Answer>
  type Register = Atomic.Object<Option<seq<nat>>, Op, Answer>

  /** The calls and returns that the program sees: `write` returns with its last store. */
  function Seen(s: State, a: Action): seq<Event>
    requires Enabled(s, a)
  {
    match a
    case BeginWrite(v) => [Atomic.Called(0, Write(v))]
    case MakeEven => [Atomic.Returned(0, Written)]
    case BeginRead(t) => [Atomic.Called(t + 1, Read)]
    case Return(t) => [Atomic.Returned(t + 1, Got(s.readers[t].pc.result))]
    case _ => []
  }

  function History(s: State, acts: seq<Action>): seq<Event>
    decreases acts
  {
    if acts == [] || !Enabled(s, acts[0]) then []
    else Seen(s, acts[0]) + History(Do(s, acts[0]), acts[1..])
  }

  function WriteCall(w: Writer): Atomic.Call<Op, Answer> {
    match w
    case WriteReady => Atomic.NoCall
    case WriteBegin(v, _) => Atomic.Pending(Write(v))
    case WriteCopy(v, _, _) => Atomic.Pending(Write(v))
  }

  function ReadCall(r: Reader): Atomic.Call<Op, Answer> {
    match r.pc
    case ReadReady => Atomic.NoCall
    case ReadDone(v) => Atomic.Answered(Got(v))
    case _ => Atomic.Pending(Read)
  }

  function Calls(s: State): seq<Atomic.Call<Op, Answer>> {
    [WriteCall(s.writer)] + seq(|s.readers|, t requires 0 <= t < |s.readers| => ReadCall(s.readers[t]))
  }

  /** The last completed write. */
  function Latest(s: State): Option<seq<nat>> {
    if s.writes == [] then None else Some(s.writes[|s.writes| - 1])
  }

  function Abs(s: State): Register {
    Atomic.Object(Latest(s), Calls(s))
  }

  /** A write takes effect when it makes the sequence even again, a read when its second load agrees
      with its first, or when it finds sequence 0. */
  ghost predicate Refines(s: State, a: Action)
    requires Enabled(s, a)
  {
    Atomic.Linearizes(RegisterEffect, Abs(s), Seen(s, a), Abs(Do(s, a)))
  }

  lemma WriterRefines(s: State, a: Action)
    requires WriterOk(s) && Enabled(s, a) && !HasReader(a)
    ensures Refines(s, a)
  {
    hide Atomic.Linearizes, WriterOk;
    var s' := Do(s, a);
    assert Calls(s') == Calls(s)[0 := WriteCall(s'.writer)];
    match a
    case BeginWrite(v) => Atomic.OneEvent(RegisterEffect, Abs(s), Atomic.Called(0, Write(v)), Abs(s'));
    case MakeEven =>
      Atomic.MoveLinearizes(RegisterEffect, Abs(s), 0, None, Some(Written), Abs(s'));
      assert Atomic.Events<Op, Answer>(0, None, Some(Written)) == Seen(s, a);
    case _ => Atomic.NoEvent(RegisterEffect, Abs(s));
  }

  lemma ReaderRefines(s: State, a: Action)
    requires Inv(s) && Enabled(s, a) && HasReader(a) && WindowOk(s, a)
    ensures Refines(s, a)
  {
    ReaderCall(s, a);
    hide Atomic.Linearizes, Inv, Do, Enabled, Accepts, WindowOk;
    var s', t := Do(s, a), a.t;
    var r' := s'.readers[t];
    assert Calls(s') == Calls(s)[t + 1 := ReadCall(r')];
    if a.BeginRead? || a.Return? {
      Atomic.OneEvent(RegisterEffect, Abs(s), Seen(s, a)[0], Abs(s'));
    } else if r'.pc.ReadDone? {
      Atomic.OneEvent(RegisterEffect, Abs(s), Atomic.Took(t + 1, Got(r'.pc.result)), Abs(s'));
    } else {
      assert Abs(s') == Abs(s);
      Atomic.NoEvent(RegisterEffect, Abs(s));
    }
  }

  /** How a step changes the reader's call: a read that ends has the value of the last write. */
  lemma ReaderCall(s: State, a: Action)
    requires Inv(s) && Enabled(s, a) && HasReader(a) && WindowOk(s, a)
    ensures a.t < |s.readers| == |Do(s, a).readers|
    ensures var r, s' := s.readers[a.t], Do(s, a);
            var r' := s'.readers[a.t];
            && s' == s.(readers := s.readers[a.t := r'])
            && match a
               case BeginRead(_) => r.pc.ReadReady? && r'.pc.ReadLoop?
               case Return(_) => r.pc.ReadDone? && r'.pc.ReadReady?
               case _ =>
                 ReadCall(r) == Atomic.Pending(Read) && !r'.pc.ReadReady?
                 && (r'.pc.ReadDone? ==> r'.pc.result == Latest(s))
  {
    if Accepts(s, a) { AcceptedIsLatest(s, a); }
    if a.LoadFirst? {
      FirstLoad(s, a.t);
      if s.sequence == 0 { NoWrites(s, a); }
    }
    hide WriterOk, MemoryOk, ReadersOk;
  }

  lemma NoWrites(s: State, a: Action)
    requires Inv(s) && Enabled(s, a) && WindowOk(s, a) && a.LoadFirst? && s.sequence == 0
    ensures s.writes == []
  {
  }

  // ----- Preservation and refinement -----

  lemma WriterStep(s: State, a: Action)
    requires Inv(s) && Enabled(s, a) && !HasReader(a)
    ensures Inv(Do(s, a)) && Refines(s, a)
  {
    WriterKeeps(s, a);
    WriterKeepsReaders(s, a);
    WriterRefines(s, a);
  }

  lemma WriterKeeps(s: State, a: Action)
    requires WriterOk(s) && MemoryOk(s) && Enabled(s, a) && !HasReader(a)
    ensures WriterOk(Do(s, a)) && MemoryOk(Do(s, a))
  {
    var s' := Do(s, a);
    match a
    case BeginWrite(_) =>
    case MakeOdd => ModIncrement(s.version, U64);
    case StoreWord(_) =>
    case MakeEven =>
      assert s.memory == s.writer.value;
      ModIncrement(s.version - 1, U64);
      ModIncrement(s.version, U64);
      AddTwo(s.version - 1);
  }

  lemma AddTwo(n: nat)
    ensures (n % U64 + 2) % U64 == (n + 2) % U64
  {
    ModIncrement(n, U64);
    ModIncrement(n + 1, U64);
    ModIncrement(n % U64 + 1, U64);
  }

  /** A write makes every copy in progress stale before it touches the memory. */
  lemma WriterKeepsReaders(s: State, a: Action)
    requires Inv(s) && Enabled(s, a) && !HasReader(a)
    ensures ReadersOk(Do(s, a))
  {
    var s' := Do(s, a);
    forall t | 0 <= t < |s'.readers| ensures ReaderOk(s'.readers[t], s'.version, s'.memory, s'.writes) {
      assert ReaderOk(s.readers[t], s.version, s.memory, s.writes);
      if a.MakeEven? { WritesGrow(s.readers[t], s.writes, s.writer.value); }
    }
  }

  lemma WritesGrow(r: Reader, writes: seq<seq<nat>>, v: seq<nat>)
    requires forall k :: 0 <= k < |r.accepted| ==>
               1 <= r.accepted[k].0 <= |writes| && r.accepted[k].1 == writes[r.accepted[k].0 - 1]
    ensures forall k :: 0 <= k < |r.accepted| ==>
               1 <= r.accepted[k].0 <= |writes + [v]| && r.accepted[k].1 == (writes + [v])[r.accepted[k].0 - 1]
  {
  }

  /** The accepted copy is the complete last write: no update happened since the first load. */
  lemma AcceptedIsLatest(s: State, a: Action)
    requires Inv(s) && Enabled(s, a) && Accepts(s, a) && WindowOk(s, a)
    ensures s.writes != [] && s.readers[a.t].pc.buffer == s.writes[|s.writes| - 1]
    ensures s.readers[a.t].pc.seen == s.version == 2 * |s.writes|
  {
    var r := s.readers[a.t];
    assert ReaderOk(r, s.version, s.memory, s.writes);
    ModInjective(r.pc.seen, s.version, U64);
    assert r.pc.buffer == s.memory;
  }

  lemma ReaderStep(s: State, a: Action)
    requires Inv(s) && Enabled(s, a) && HasReader(a) && WindowOk(s, a)
    ensures Inv(Do(s, a)) && Refines(s, a)
  {
    ReaderMoves(s, a);
    ReaderRefines(s, a);
    hide ReaderOk, Do, WriterOk, MemoryOk;
    var s' := Do(s, a);
    forall t | 0 <= t < |s'.readers| ensures ReaderOk(s'.readers[t], s'.version, s'.memory, s'.writes) {
      assert ReaderOk(s.readers[t], s.version, s.memory, s.writes);
    }
    SameWriter(s, s');
  }

  lemma SameWriter(s: State, s': State)
    requires WriterOk(s) && MemoryOk(s) && s' == s.(readers := s'.readers)
    ensures WriterOk(s') && MemoryOk(s')
  {
  }

  lemma ReaderMoves(s: State, a: Action)
    requires Inv(s) && Enabled(s, a) && HasReader(a) && WindowOk(s, a)
    ensures var s' := Do(s, a);
            && s' == s.(readers := s.readers[a.t := s'.readers[a.t]])
            && ReaderOk(s'.readers[a.t], s.version, s.memory, s.writes)
  {
    assert ReaderOk(s.readers[a.t], s.version, s.memory, s.writes);
    if Accepts(s, a) {
      AcceptMoves(s, a);
    } else if a.LoadFirst? {
      FirstMoves(s, a.t);
    } else if a.LoadWord? {
      LoadWordMoves(s, a.t, a.k);
    }
  }

  lemma AcceptMoves(s: State, a: Action)
    requires Inv(s) && Enabled(s, a) && Accepts(s, a) && WindowOk(s, a)
    ensures ReaderOk(Do(s, a).readers[a.t], s.version, s.memory, s.writes)
  {
    assert ReaderOk(s.readers[a.t], s.version, s.memory, s.writes);
    AcceptedIsLatest(s, a);
    hide WriterOk, MemoryOk, ReadersOk;
  }

  lemma LoadWordMoves(s: State, t: nat, k: nat)
    requires Enabled(s, LoadWord(t, k)) && ReaderOk(s.readers[t], s.version, s.memory, s.writes)
    ensures ReaderOk(Do(s, LoadWord(t, k)).readers[t], s.version, s.memory, s.writes)
  {
  }

  lemma FirstMoves(s: State, t: nat)
    requires Inv(s) && Enabled(s, LoadFirst(t))
    ensures ReaderOk(Do(s, LoadFirst(t)).readers[t], s.version, s.memory, s.writes)
  {
    FirstLoad(s, t);
    assert ReaderOk(s.readers[t], s.version, s.memory, s.writes);
    assert s.version >= 2 * |s.writes|;
    hide Do, MemoryOk, ReadersOk, WriterOk;
  }

  lemma FirstLoad(s: State, t: nat)
    requires Inv(s) && Enabled(s, LoadFirst(t))
    ensures var r' := Do(s, LoadFirst(t)).readers[t];
            && r'.accepted == s.readers[t].accepted && s.sequence == s.version % U64
            && (r'.pc.ReadCopy? ==>
                  r'.pc == AfterFirst(s) && r'.pc.first == s.sequence && r'.pc.seen == s.version
                  && r'.pc.buffer == Blank(|s.memory|) && r'.pc.left == AllWords(|s.memory|)
                  && s.version % 2 == 0 && s.version > 0)
            && (r'.pc == ReadDone(None) || r'.pc.ReadLoop? || r'.pc.ReadCopy?)
  {
    Parity(s.version);
  }

  lemma StepRefines(s: State, a: Action)
    requires Inv(s) && Enabled(s, a) && WindowOk(s, a)
    ensures Inv(Do(s, a)) && Refines(s, a)
  {
    hide Inv, Refines, Do;
    if HasReader(a) { ReaderStep(s, a); } else { WriterStep(s, a); }
  }

  /** The writer's side holds in every run, whatever the counter does. */
  lemma {:induction false} RunWriter(s: State, acts: seq<Action>, s': State)
    requires WriterOk(s) && MemoryOk(s) && Runs(s, acts, s')
    ensures WriterOk(s') && MemoryOk(s')
    decreases acts
  {
    if acts != [] {
      var mid := Do(s, acts[0]);
      if HasReader(acts[0]) {
        assert mid == s.(readers := mid.readers);
        SameWriter(s, mid);
      } else {
        WriterKeeps(s, acts[0]);
      }
      hide WriterOk, MemoryOk, Do, Enabled;
      RunWriter(mid, acts[1..], s');
    }
  }

  /** In every run, with no assumption on the counter: the step at which `read` finds that nothing was
      written is a first load, when no write is under way and the number of completed writes is a
      multiple of 2^63; and every such load is one. */
  lemma NoneExactly(initial: seq<nat>, readers: nat, acts: seq<Action>, s: State, a: Action, t: nat)
    requires Runs(Init(initial, readers), acts, s) && Enabled(s, a)
    requires t < |s.readers| && s.readers[t].pc != ReadDone(None)
    ensures Do(s, a).readers[t].pc == ReadDone(None)
       <==> a == LoadFirst(t) && !s.writer.WriteCopy? && |s.writes| % 0x8000_0000_0000_0000 == 0
  {
    RunWriter(Init(initial, readers), acts, s);
    if a == LoadFirst(t) { NoneAt(s, t); }
  }

  lemma NoneAt(s: State, t: nat)
    requires WriterOk(s) && Enabled(s, LoadFirst(t))
    ensures Do(s, LoadFirst(t)).readers[t].pc == ReadDone(None)
       <==> !s.writer.WriteCopy? && |s.writes| % 0x8000_0000_0000_0000 == 0
  {
    var h := 0x8000_0000_0000_0000;
    if !s.writer.WriteCopy? {
      assert s.version == 2 * |s.writes|;
      var q, r := |s.writes| / h, |s.writes| % h;
      assert s.version == q * U64 + 2 * r;
      DivModUnique(s.version, U64, q, 2 * r);
    } else {
      ModMod(s.version, 2, h);
    }
  }

  /** From every state of a run, what callers see is a history of the atomic register. */
  lemma {:induction false} RunRefines(s: State, acts: seq<Action>, s': State)
    requires Inv(s) && Runs(s, acts, s') && WindowsOk(s, acts)
    ensures Inv(s') && Atomic.Linearizes(RegisterEffect, Abs(s), History(s, acts), Abs(s'))
    decreases acts
  {
    if acts == [] {
      Atomic.NoEvent(RegisterEffect, Abs(s));
    } else {
      StepRefines(s, acts[0]);
      hide Inv, Do, Abs, Seen, WindowOk, Enabled;
      var mid := Do(s, acts[0]);
      RunRefines(mid, acts[1..], s');
      Atomic.Concat(RegisterEffect, Abs(s), Seen(s, acts[0]), Abs(mid), History(mid, acts[1..]), Abs(s'));
    }
  }

  /** Every run of one writer and any number of readers is a history of an atomic register: each call
      takes effect once, between its call and its return, with the value that `write` was called with
      and the value that `read` returns. A read that returned `Some` returned the whole of a completed
      write, the last of those its thread accepted, and a thread's reads never go back. */
  lemma SeqlockIsRegister(initial: seq<nat>, readers: nat, acts: seq<Action>, s: State)
    requires Runs(Init(initial, readers), acts, s) && WindowsOk(Init(initial, readers), acts)
    ensures Atomic.Linearizes(RegisterEffect, Atomic.Object(None, seq(readers + 1, _ => Atomic.NoCall)),
                              History(Init(initial, readers), acts), Abs(s))
    ensures forall t :: 0 <= t < |s.readers| && s.readers[t].pc.ReadDone? && s.readers[t].pc.result.Some? ==>
              s.readers[t].accepted != []
              && s.readers[t].pc.result.value == s.readers[t].accepted[|s.readers[t].accepted| - 1].1
    ensures forall t, k :: 0 <= t < |s.readers| && 0 <= k < |s.readers[t].accepted| ==>
              && 1 <= s.readers[t].accepted[k].0 <= |s.writes|
              && s.readers[t].accepted[k].1 == s.writes[s.readers[t].accepted[k].0 - 1]
    ensures forall t, j, k :: 0 <= t < |s.readers| && 0 <= j < k < |s.readers[t].accepted| ==>
              s.readers[t].accepted[j].0 <= s.readers[t].accepted[k].0
  {
    InitInv(initial, readers);
    RunRefines(Init(initial, readers), acts, s);
    assert Abs(Init(initial, readers)).calls == seq(readers + 1, _ => Atomic.NoCall);
    hide WriterOk, MemoryOk, Atomic.Linearizes;
    forall t | 0 <= t < |s.readers| ensures ReaderOk(s.readers[t], s.version, s.memory, s.writes) {
    }
  }

  // ----- When a read has to try again -----

  /** A read tries again exactly when its first load finds a write under way, or its second load comes
      after an update. */
  lemma RetryExactly(s: State, a: Action)
    requires Inv(s) && Enabled(s, a) && WindowOk(s, a) && (a.LoadFirst? || a.Recheck?)
    ensures Do(s, a).readers[a.t].pc.ReadLoop?
       <==> if a.LoadFirst? then s.writer.WriteCopy? else s.version != s.readers[a.t].pc.seen
  {
    assert ReaderOk(s.readers[a.t], s.version, s.memory, s.writes);
    if a.LoadFirst? {
      Parity(s.version);
      NoneAt(s, a.t);
    } else if Accepts(s, a) {
      AcceptedIsLatest(s, a);
    }
  }

  /** How many steps `write` has left. */
  function WriteLeft(s: State): nat {
    match s.writer
    case WriteReady => 0
    case WriteBegin(v, _) => |v| + 2
    case WriteCopy(_, _, left) => |left| + 1
  }

  /** How many steps `read` has left, unless it has to try again. */
  function ReadLeft(s: State, t: nat): nat
    requires t < |s.readers|
  {
    match s.readers[t].pc
    case ReadLoop => |s.memory| + 2
    case ReadCopy(_, _, _, left) => |left| + 1
    case _ => 0
  }

  predicate Writes(a: Action) {
    a.MakeOdd? || a.StoreWord? || a.MakeEven?
  }

  predicate Reads(a: Action, t: nat) {
    (a.LoadFirst? || a.LoadWord? || a.Recheck?) && a.t == t
  }

  lemma {:induction false} AllWordsSize(n: nat)
    ensures |AllWords(n)| == n
  {
    if n > 0 { AllWordsSize(n - 1); }
  }

  /** `write` never waits: it ends after one step for each word and two more. `read` does unless it has
      to try again, and always has a next step. */
  lemma CallAdvances(s: State, a: Action, t: nat)
    requires Inv(s) && t < |s.readers|
    ensures WriteLeft(s) > 0 ==> exists b :: Writes(b) && Enabled(s, b)
    ensures ReadLeft(s, t) > 0 ==> exists b :: Reads(b, t) && Enabled(s, b)
    ensures Enabled(s, a) && Writes(a) ==> WriteLeft(Do(s, a)) + 1 == WriteLeft(s)
    ensures Enabled(s, a) && Reads(a, t) ==>
              ReadLeft(Do(s, a), t) < ReadLeft(s, t) || Do(s, a).readers[t].pc.ReadLoop?
  {
    if WriteLeft(s) > 0 { WriteCan(s); }
    if ReadLeft(s, t) > 0 { ReadCan(s, t); }
    AllWordsSize(|s.memory|);
    if Enabled(s, a) && Writes(a) { WriteAdvances(s, a); }
    if Enabled(s, a) && Reads(a, t) { ReadAdvances(s, a, t); }
    hide *;
  }

  lemma WriteAdvances(s: State, a: Action)
    requires WriterOk(s) && Enabled(s, a) && Writes(a) && |AllWords(|s.memory|)| == |s.memory|
    ensures WriteLeft(Do(s, a)) + 1 == WriteLeft(s)
  {
    hide AllWords;
  }

  lemma ReadAdvances(s: State, a: Action, t: nat)
    requires Enabled(s, a) && Reads(a, t) && |AllWords(|s.memory|)| == |s.memory|
    ensures |Do(s, a).readers| == |s.readers| && |Do(s, a).memory| == |s.memory|
    ensures ReadLeft(Do(s, a), t) < ReadLeft(s, t) || Do(s, a).readers[t].pc.ReadLoop?
  {
    hide AllWords;
  }

  lemma WriteCan(s: State)
    requires Inv(s) && WriteLeft(s) > 0
    ensures exists b :: Writes(b) && Enabled(s, b)
  {
    match s.writer
    case WriteBegin(_, _) => assert Enabled(s, MakeOdd);
    case WriteCopy(_, _, left) =>
      if k :| k in left { assert Enabled(s, StoreWord(k)); } else { assert Enabled(s, MakeEven); }
  }

  lemma ReadCan(s: State, t: nat)
    requires Inv(s) && t < |s.readers| && ReadLeft(s, t) > 0
    ensures exists b :: Reads(b, t) && Enabled(s, b)
  {
    assert ReaderOk(s.readers[t], s.version, s.memory, s.writes);
    match s.readers[t].pc
    case ReadLoop => assert Enabled(s, LoadFirst(t));
    case ReadCopy(_, _, _, left) =>
      if k :| k in left { assert Enabled(s, LoadWord(t, k)); } else { assert Enabled(s, Recheck(t)); }
  }

  // ----- The counter wraps -----

  /** Some run leads from `s` to `e`. */
  ghost predicate Reaches(s: State, e: State) {
    exists acts :: Runs(s, acts, e)
  }

  lemma ReachesSelf(s: State)
    ensures Reaches(s, s)
  {
    assert Runs(s, [], s);
  }

  lemma {:induction false} RunExtend(s: State, acts: seq<Action>, mid: State, a: Action)
    requires Runs(s, acts, mid) && Enabled(mid, a)
    ensures Runs(s, acts + [a], Do(mid, a))
    decreases acts
  {
    hide Do, Enabled;
    if acts == [] {
      assert acts + [a] == [a];
      assert Runs(Do(mid, a), [a][1..], Do(mid, a));
    } else {
      assert (acts + [a])[1..] == acts[1..] + [a];
      RunExtend(Do(s, acts[0]), acts[1..], mid, a);
    }
  }

  lemma ReachesStep(s: State, mid: State, a: Action)
    requires Reaches(s, mid) && Enabled(mid, a)
    ensures Reaches(s, Do(mid, a))
  {
    hide Do, Enabled;
    var acts :| Runs(s, acts, mid);
    RunExtend(s, acts, mid, a);
  }

  /** The state after `n` writes of the initial payload, seen by one idle reader. */
  function AfterWrites(initial: seq<nat>, n: nat): State {
    State(2 * n % U64, 2 * n, initial, WriteReady, [Reader(ReadReady, [])], seq(n, _ => initial))
  }

  function Storing(initial: seq<nat>, n: nat, left: set<nat>): State {
    AfterWrites(initial, n).(sequence := (2 * n + 1) % U64, version := 2 * n + 1,
                             writer := WriteCopy(initial, 2 * n % U64, left))
  }

  lemma {:induction false} StoreAll(s: State, initial: seq<nat>, n: nat, left: set<nat>)
    requires left <= AllWords(|initial|) && Reaches(s, Storing(initial, n, left))
    ensures Reaches(s, Storing(initial, n, {}))
    decreases |left|
  {
    hide Reaches;
    if left != {} {
      var k :| k in left;
      var mid := Storing(initial, n, left);
      ReachesStep(s, mid, StoreWord(k));
      assert initial[k := initial[k]] == initial;
      assert Do(mid, StoreWord(k)) == Storing(initial, n, left - {k});
      StoreAll(s, initial, n, left - {k});
    }
  }

  lemma OneMoreWrite(s: State, initial: seq<nat>, n: nat)
    requires Reaches(s, AfterWrites(initial, n))
    ensures Reaches(s, AfterWrites(initial, n + 1))
  {
    hide Reaches;
    var s0 := AfterWrites(initial, n);
    ReachesStep(s, s0, BeginWrite(initial));
    var s1 := Do(s0, BeginWrite(initial));
    ReachesStep(s, s1, MakeOdd);
    ModIncrement(2 * n, U64);
    assert Do(s1, MakeOdd) == Storing(initial, n, AllWords(|initial|));
    StoreAll(s, initial, n, AllWords(|initial|));
    var s2 := Storing(initial, n, {});
    ReachesStep(s, s2, MakeEven);
    AddTwo(2 * n);
    assert seq(n, _ => initial) + [initial] == seq(n + 1, _ => initial);
    assert Do(s2, MakeEven) == AfterWrites(initial, n + 1);
  }

  lemma {:induction false} ManyWrites(initial: seq<nat>, n: nat)
    ensures Reaches(Init(initial, 1), AfterWrites(initial, n))
  {
    hide Reaches;
    if n == 0 {
      ReachesSelf(Init(initial, 1));
      assert Init(initial, 1) == AfterWrites(initial, 0);
    } else {
      ManyWrites(initial, n - 1);
      OneMoreWrite(Init(initial, 1), initial, n - 1);
    }
  }

  /** A run of the code's own steps after which a read reports that nothing was written, although
      2^63 writes are complete. */
  lemma NoneAfterWrites(initial: seq<nat>) returns (acts: seq<Action>, s: State)
    ensures Runs(Init(initial, 1), acts, s)
    ensures |s.writes| == 0x8000_0000_0000_0000 && |s.readers| == 1 && s.readers[0].pc == ReadDone(None)
  {
    var n, s0 := 0x8000_0000_0000_0000, Init(initial, 1);
    ManyWrites(initial, n);
    var s1 := AfterWrites(initial, n);
    ReachesStep(s0, s1, BeginRead(0));
    var s2 := Do(s1, BeginRead(0));
    ReachesStep(s0, s2, LoadFirst(0));
    s := Do(s2, LoadFirst(0));
    acts :| Runs(s0, acts, s);
  }
}
