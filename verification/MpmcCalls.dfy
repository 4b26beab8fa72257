/** `add` and `remove` as their callers see them: calls of an atomic table from slots to values. An add
    takes effect when it sets the slot's occupancy bit, a remove when it clears the bit or finds it
    unset. An add fails exactly when no slot is free as it loads the head of the free-list, and a call
    that runs alone ends. */
module MpmcCalls {
  import opened Results
  import opened MpmcSteps
  import opened MpmcSafety
  import FL = FreeList
  import Safety = FreeListSafety
  import BS = BitSetSteps
  import BitWords
  import Lists = IndexSetCalls
  import Bits = BitSetCalls
  import Atomic = AtomicObjects

  datatype Op = Add(value: nat) | Remove(slot: nat)

  datatype Answer = Slot(slot: Option<nat>) | Taken(value: Option<nat>)

  /** The occupied slots and their values. */
  datatype Table = Table(slots: map<nat, nat>, capacity: nat)

  /** `add` puts its argument into a slot that was empty and answers the slot, or changes nothing;
      `remove` empties its slot and answers the value that was there, or the slot was empty. */
  predicate TableEffect(table: Table, op: Op, r: Answer, table': Table) {
    match op
    case Add(v) =>
      r.Slot? &&
      if r.slot.Some? then
        && r.slot.value < table.capacity && r.slot.value !in table.slots
        && table' == table.(slots := table.slots[r.slot.value := v])
      else table' == table
    case Remove(slot) =>
      r.Taken? &&
      if r.value.Some? then
        && slot in table.slots && r.value.value == table.slots[slot]
        && table' == table.(slots := table.slots - {slot})
      else slot !in table.slots && table' == table
  }

  type Event = Atomic.Event<Op, Answer>
  type Container = Atomic.Object<Table, Op, Answer>

  /** What a call that is over answers. */
  function AnswerOf(pc: Pc): Answer {
    match pc
    case AddSet(_, slot) => Slot(Some(slot))
    case AddDone(slot) => Slot(Some(slot))
    case RemFree(_, _, v) => Taken(Some(v))
    case RemClear(_) => Taken(None)
    case _ => Slot(None)
  }

  function ValueOf(adds: seq<nat>, id: nat): nat {
    if id < |adds| then adds[id] else 0
  }

  function CallOf(pc: Pc, lp: FL.Pc, bp: BS.Pc, adds: seq<nat>): Atomic.Call<Op, Answer> {
    match pc
    case Idle => Atomic.NoCall
    case AddAlloc(v) => if lp.Exhausted? then Atomic.Answered(Slot(None)) else Atomic.Pending(Add(v))
    case AddSet(v, _) => Atomic.Pending(Add(v))
    case AddDone(slot) => Atomic.Answered(Slot(Some(slot)))
    case RemClear(slot) => if bp.ClearDone? then Atomic.Answered(Taken(None)) else Atomic.Pending(Remove(slot))
    case RemLoad(_, id) => Atomic.Answered(Taken(Some(ValueOf(adds, id))))
    case RemFree(_, _, v) => Atomic.Answered(Taken(Some(v)))
  }

  function CallAt(s: State, t: nat): Atomic.Call<Op, Answer>
    requires Sized(s) && t < |s.pcs|
  {
    CallOf(s.pcs[t], s.list.threads[t].pc, s.bits.pcs[t], s.adds)
  }

  function CallFor(a: Action): Option<Op> {
    match a
    case BeginAdd(_, v) => Some(Add(v))
    case BeginRemove(_, slot) => Some(Remove(slot))
    case _ => None
  }

  function ReturnFor(s: State, a: Action): Option<Answer>
    requires Enabled(s, a)
  {
    if a.Finish? then Some(AnswerOf(s.pcs[a.t])) else None
  }

  /** The calls and returns that the program sees. */
  function Seen(s: State, a: Action): seq<Event>
    requires Enabled(s, a)
  {
    Atomic.Events(a.t, CallFor(a), ReturnFor(s, a))
  }

  function History(s: State, acts: seq<Action>): seq<Event>
    decreases acts
  {
    if acts == [] || !Enabled(s, acts[0]) then []
    else Seen(s, acts[0]) + History(Do(s, acts[0]), acts[1..])
  }

  function Calls(s: State): seq<Atomic.Call<Op, Answer>>
    requires Sized(s)
  {
    seq(|s.pcs|, t requires 0 <= t < |s.pcs| => CallAt(s, t))
  }

  function Slots(current: map<nat, nat>, adds: seq<nat>): map<nat, nat> {
    map i | i in current :: ValueOf(adds, current[i])
  }

  function TableOf(s: State): Table {
    Table(Slots(s.current, s.adds), s.bits.capacity)
  }

  function View(s: State): Container
    requires Sized(s)
  {
    Atomic.Object(TableOf(s), Calls(s))
  }

  // ----- One step -----

  lemma BitsFrame(b: BS.State, ba: BS.Action)
    requires BS.Enabled(b, ba)
    ensures var b' := BS.Do(b, ba);
            && ba.t < |b.pcs| == |b'.pcs| && b'.capacity == b.capacity
            && forall u :: 0 <= u < |b.pcs| && u != ba.t ==> b'.pcs[u] == b.pcs[u]
  {
    hide BitWords.SetBit, BitWords.ClearBit, BitWords.TestBit;
  }

  /** Where a step of the bit set leaves its thread. */
  function BitPc(b: BS.State, ba: BS.Action): BS.Pc
    requires BS.Enabled(b, ba)
  {
    BitsFrame(b, ba);
    BS.Do(b, ba).pcs[ba.t]
  }

  lemma ListFrameAt(l: FL.State, la: FL.Action)
    ensures var l' := HandOver(l, la);
            && |l'.threads| == |l.threads|
            && forall u :: 0 <= u < |l.threads| && u != la.t ==> l'.threads[u] == l.threads[u]
  {
    hide FL.Pack, FL.HeadOf, FL.TagOf;
  }

  /** A step leaves the other threads alone. */
  lemma StepFrame(s: State, a: Action)
    requires Enabled(s, a)
    ensures var s', t := Do(s, a), a.t;
            && Sized(s) && Sized(s') && t < |s.pcs| == |s'.pcs| && s'.bits.capacity == s.bits.capacity
            && s.adds <= s'.adds
            && forall u :: 0 <= u < |s.pcs| && u != t ==>
                 s'.pcs[u] == s.pcs[u] && s'.list.threads[u].pc == s.list.threads[u].pc
                 && s'.bits.pcs[u] == s.bits.pcs[u]
  {
    var t := a.t;
    var pc := s.pcs[t];
    match a
    case BeginAdd(_, _) => ListFrameAt(s.list, FL.BeginAcquire(t));
    case AllocStep(_, la) => ListFrameAt(s.list, la);
    case StoreData(_) => ListFrameAt(s.list, FL.Return(t));
    case SetBitStep(_, ba) => BitsFrame(s.bits, ba); ListFrameAt(s.list, FL.Park(t, pc.slot));
    case BeginRemove(_, slot) => BitsFrame(s.bits, BS.BeginClear(t, slot));
    case ClearBitStep(_, spurious) =>
      BitsFrame(s.bits, BS.CasClear(t, spurious));
      ListFrameAt(s.list, FL.Take(t, pc.slot));
    case LoadData(_) => BitsFrame(s.bits, BS.Return(t));
    case FreeStep(_, la) => ListFrameAt(s.list, la);
    case Finish(_) =>
      if FinishesList(pc) { ListFrameAt(s.list, FL.Return(t)); } else { BitsFrame(s.bits, BS.Return(t)); }
    hide FL.Do, BS.Do;
  }

  /** How a step of a thread changes its call and the table. */
  ghost predicate Moves(s: State, a: Action)
    requires Enabled(s, a) && Sized(Do(s, a)) && a.t < |Do(s, a).pcs|
  {
    Atomic.Moves(TableEffect, TableOf(s), CallAt(s, a.t), CallFor(a), ReturnFor(s, a), TableOf(Do(s, a)),
                 CallAt(Do(s, a), a.t))
  }

  predicate Plain(a: Action) {
    a.BeginAdd? || a.AllocStep? || a.StoreData? || a.LoadData? || a.FreeStep?
  }

  lemma PlainPc(s: State, a: Action)
    requires Enabled(s, a) && Plain(a)
    ensures var s', t, pc := Do(s, a), a.t, s.pcs[a.t];
            && s'.current == s.current && s'.adds == s.adds && t < |s'.pcs|
            && match a
               case BeginAdd(_, v) => pc == Idle && s'.pcs[t] == AddAlloc(v)
               case AllocStep(_, _) => pc.AddAlloc? && s'.pcs[t] == pc && !s.list.threads[t].pc.Exhausted?
               case StoreData(_) =>
                 && pc.AddAlloc? && s.list.threads[t].pc.Acquired?
                 && s'.pcs[t] == AddSet(pc.value, s.list.threads[t].pc.idx)
               case LoadData(_) =>
                 pc.RemLoad? && pc.slot < |s.data| && s'.pcs[t] == RemFree(pc.slot, pc.id, s.data[pc.slot])
               case _ => pc.RemFree? && s'.pcs[t] == pc
  {
    hide FL.Do, BS.Do, FL.Pack, FL.HeadOf, FL.TagOf;
  }

  /** Steps inside the free-list, the store of the value and its load change neither call nor table,
      except that an exhausted free-list answers `add`. */
  lemma PlainCall(s: State, a: Action, stack: seq<nat>)
    requires Inv(s, stack) && Enabled(s, a) && Plain(a)
    ensures Sized(Do(s, a)) && |Do(s, a).pcs| == |s.pcs|
    ensures Moves(s, a)
  {
    hide Do, Inv, Enabled, Slots;
    StepFrame(s, a);
    PlainPc(s, a);
    CallerOk(s, stack, a.t);
  }

  lemma SlotsAdd(current: map<nat, nat>, adds: seq<nat>, slot: nat, v: nat)
    requires slot !in current && forall i <- current :: current[i] < |adds|
    ensures Slots(current[slot := |adds|], adds + [v]) == Slots(current, adds)[slot := v]
    ensures slot !in Slots(current, adds)
  {
  }

  lemma SlotsRemove(current: map<nat, nat>, adds: seq<nat>, slot: nat)
    ensures Slots(current - {slot}, adds) == Slots(current, adds) - {slot}
    ensures slot in Slots(current, adds) <==> slot in current
    ensures slot in current ==> Slots(current, adds)[slot] == ValueOf(adds, current[slot])
  {
  }

  lemma SetBitPc(s: State, a: Action)
    requires Enabled(s, a) && a.SetBitStep?
    ensures var s', t, pc := Do(s, a), a.t, s.pcs[a.t];
            && pc.AddSet? && t < |s'.pcs|
            && if BS.Succeeds(s.bits, a.ba) then
                 && s'.adds == s.adds + [pc.value] && s'.current == s.current[pc.slot := |s.adds|]
                 && s'.pcs[t] == AddDone(pc.slot)
               else s'.adds == s.adds && s'.current == s.current && s'.pcs[t] == pc
  {
    hide FL.Do, BS.Do, FL.Pack, FL.HeadOf, FL.TagOf;
  }

  lemma SetBitCall(s: State, a: Action, stack: seq<nat>)
    requires Inv(s, stack) && Enabled(s, a) && a.SetBitStep?
    ensures Sized(Do(s, a)) && |Do(s, a).pcs| == |s.pcs|
    ensures Moves(s, a)
  {
    hide Do, Inv, Enabled, Slots, BS.AfterSetLoad, BS.InWords, BS.Succeeds, BS.Enabled, BitWords.Has;
    StepFrame(s, a);
    SetBitPc(s, a);
    SetAlwaysTrue(s, stack, a.t);
    TableKeys(s, stack);
    SlotsAdd(s.current, s.adds, s.pcs[a.t].slot, s.pcs[a.t].value);
  }

  lemma TableKeys(s: State, stack: seq<nat>)
    requires Inv(s, stack)
    ensures s.current.Keys == s.list.parked && forall i <- s.current :: s.current[i] < |s.adds|
    ensures forall i: nat :: BitWords.Has(s.bits.words, i) <==> i in s.current
  {
  }

  lemma ClearBitPc(s: State, a: Action)
    requires Enabled(s, a) && (a.BeginRemove? || a.ClearBitStep?)
    ensures var s', t, pc := Do(s, a), a.t, s.pcs[a.t];
            var slot := if a.BeginRemove? then a.slot else pc.slot;
            && (if a.BeginRemove? then pc == Idle else pc.RemClear? && s.bits.pcs[t].ClearCas?) && t < |s'.pcs|
            && s'.adds == s.adds && BS.Enabled(s.bits, ClearAction(a))
            && s'.bits == BS.Do(s.bits, ClearAction(a))
            && if BS.Succeeds(s.bits, ClearAction(a)) then
                 && s'.current == s.current - {slot}
                 && s'.pcs[t] == RemLoad(slot, if slot in s.current then s.current[slot] else 0)
               else s'.current == s.current && s'.pcs[t] == RemClear(slot)
  {
    hide FL.Do, BS.Do, FL.Pack, FL.HeadOf, FL.TagOf;
  }

  function ClearAction(a: Action): BS.Action
    requires a.BeginRemove? || a.ClearBitStep?
  {
    if a.BeginRemove? then BS.BeginClear(a.t, a.slot) else BS.CasClear(a.t, a.spurious)
  }

  /** Where the bit set leaves the thread, and whether the slot was occupied. */
  lemma ClearBitResult(s: State, a: Action, stack: seq<nat>, slot: nat)
    requires Inv(s, stack) && Enabled(s, a) && (a.BeginRemove? || a.ClearBitStep?)
    requires BS.Enabled(s.bits, ClearAction(a)) && Sized(s) && a.t < |s.pcs|
    requires if a.BeginRemove? then slot == a.slot else s.pcs[a.t].RemClear? && s.pcs[a.t].slot == slot
    ensures var bp' := BitPc(s.bits, ClearAction(a));
            && (bp'.ClearCas? || bp'.ClearDone?) && bp'.i == slot
            && (bp'.ClearDone? ==> (bp'.found <==> slot in s.current))
            && (bp'.ClearDone? ==> (bp'.found <==> BS.Succeeds(s.bits, ClearAction(a))))
            && (BS.Succeeds(s.bits, ClearAction(a)) ==> bp'.ClearDone?)
  {
    hide Inv, Do, Enabled, BS.Do, BS.Inv, BS.InWords, BitWords.Has, BS.SetStep;
    BitsInv(s, stack);
    CallerOk(s, stack, a.t);
    TableKeys(s, stack);
    BitsClear(s.bits, ClearAction(a), slot);
  }

  lemma BitsInv(s: State, stack: seq<nat>)
    requires Inv(s, stack)
    ensures BS.Inv(s.bits)
  {
  }

  /** What `clear` does to its thread, and what that says of the bit. */
  lemma BitsClear(b: BS.State, ba: BS.Action, i: nat)
    requires BS.Inv(b) && BS.Enabled(b, ba)
    requires (ba.BeginClear? && ba.i == i) || (ba.CasClear? && b.pcs[ba.t].i == i)
    ensures var bp' := BitPc(b, ba);
            && (bp'.ClearCas? || bp'.ClearDone?) && bp'.i == i
            && (bp'.ClearDone? ==> (bp'.found <==> BitWords.Has(b.words, i)) && (bp'.found <==> BS.Succeeds(b, ba)))
            && (BS.Succeeds(b, ba) ==> bp'.ClearDone?)
  {
    Bits.ClearPc(b, ba, i);
    BS.StepRefines(b, ba);
    if !BS.Succeeds(b, ba) { BitsNotFound(b, ba, i); }
    hide BS.Do, BitWords.Has, BS.InWords, BS.Inv;
  }

  lemma BitsNotFound(b: BS.State, ba: BS.Action, i: nat)
    requires BS.Enabled(b, ba) && !BS.Succeeds(b, ba)
    requires (ba.BeginClear? && ba.i == i) || (ba.CasClear? && b.pcs[ba.t].i == i)
    ensures BS.Do(b, ba).pcs[ba.t] != BS.ClearDone(i, true)
  {
    hide BitWords.TestBit;
  }

  /** A `remove` that finds its bit unset ends; one that clears it answers the slot's value. */
  lemma ClearBitCall(s: State, a: Action, stack: seq<nat>)
    requires Inv(s, stack) && Enabled(s, a) && (a.BeginRemove? || a.ClearBitStep?)
    ensures Sized(Do(s, a)) && |Do(s, a).pcs| == |s.pcs|
    ensures Moves(s, a)
  {
    hide Do, Inv, Enabled, Slots, BS.Do, BS.Succeeds, BS.Enabled, BitWords.Has;
    StepFrame(s, a);
    ClearBitPc(s, a);
    var slot := if a.BeginRemove? then a.slot else s.pcs[a.t].slot;
    ClearBitResult(s, a, stack, slot);
    TableKeys(s, stack);
    SlotsRemove(s.current, s.adds, slot);
  }

  lemma CallerOk(s: State, stack: seq<nat>, t: nat)
    requires Inv(s, stack) && Sized(s) && t < |s.pcs|
    ensures ThreadOk(s.pcs[t], s.list.threads[t], s.bits.pcs[t], s.data, s.adds)
  {
  }

  lemma FinishCall(s: State, a: Action, stack: seq<nat>)
    requires Inv(s, stack) && Enabled(s, a) && a.Finish?
    ensures Sized(Do(s, a)) && |Do(s, a).pcs| == |s.pcs|
    ensures Moves(s, a)
  {
    hide Inv;
    StepFrame(s, a);
    CallerOk(s, stack, a.t);
    hide FL.Do, BS.Do, Inv, FL.Pack, FL.HeadOf, FL.TagOf, BS.Enabled, FL.Enabled, Slots;
  }

  lemma StepCall(s: State, a: Action, stack: seq<nat>)
    requires Inv(s, stack) && Enabled(s, a)
    ensures Sized(s) && Sized(Do(s, a)) && a.t < |s.pcs| == |Do(s, a).pcs|
    ensures Moves(s, a)
  {
    hide Inv, Do, Moves, CallAt, View;
    match a
    case SetBitStep(_, _) => SetBitCall(s, a, stack);
    case BeginRemove(_, _) => ClearBitCall(s, a, stack);
    case ClearBitStep(_, _) => ClearBitCall(s, a, stack);
    case Finish(_) => FinishCall(s, a, stack);
    case _ => PlainCall(s, a, stack);
  }

  // ----- Whole runs -----

  lemma CallsStep(s: State, a: Action)
    requires Enabled(s, a)
    ensures Sized(s) && Sized(Do(s, a)) && a.t < |s.pcs| == |Do(s, a).pcs|
    ensures forall u :: 0 <= u < |s.pcs| && u != a.t && KnownId(s, u) ==> CallAt(Do(s, a), u) == CallAt(s, u)
  {
    StepFrame(s, a);
    hide Do, Enabled;
  }

  predicate KnownId(s: State, u: nat)
    requires u < |s.pcs|
  {
    s.pcs[u].RemLoad? ==> s.pcs[u].id < |s.adds|
  }

  lemma OtherCalls(s: State, a: Action, stack: seq<nat>)
    requires Inv(s, stack) && Enabled(s, a)
    ensures Sized(s) && Sized(Do(s, a)) && a.t < |s.pcs| == |Do(s, a).pcs|
    ensures Calls(Do(s, a)) == Calls(s)[a.t := CallAt(Do(s, a), a.t)] && Calls(s)[a.t] == CallAt(s, a.t)
  {
    hide Do, Enabled, Inv, CallAt;
    CallsStep(s, a);
    forall u | 0 <= u < |s.pcs| ensures KnownId(s, u) {
      CallerOk(s, stack, u);
    }
  }

  lemma StepSeen(s: State, a: Action, stack: seq<nat>)
    requires Inv(s, stack) && Enabled(s, a)
    ensures Sized(s) && Sized(Do(s, a))
    ensures Atomic.Linearizes(TableEffect, View(s), Seen(s, a), View(Do(s, a)))
  {
    hide Inv, Do, Enabled, Calls, CallAt, TableOf, TableEffect, Atomic.Linearizes, Atomic.Moves;
    StepCall(s, a, stack);
    OtherCalls(s, a, stack);
    CallCount(s);
    Atomic.MoveLinearizes(TableEffect, View(s), a.t, CallFor(a), ReturnFor(s, a), View(Do(s, a)));
  }

  lemma CallCount(s: State)
    requires Sized(s)
    ensures |Calls(s)| == |s.pcs|
  {
  }

  lemma {:induction false} RunSeen(s: State, acts: seq<Action>, s': State, stack: seq<nat>)
    returns (stack': seq<nat>)
    requires Inv(s, stack) && Runs(s, acts, s')
    ensures Inv(s', stack') && Sized(s) && Sized(s')
    ensures Atomic.Linearizes(TableEffect, View(s), History(s, acts), View(s'))
    decreases acts
  {
    hide Inv, Do, Enabled, Seen, View, TableEffect, StackAfter, WindowOk, Sized;
    assert Sized(s) by { SizedHere(s, stack); }
    if acts == [] {
      stack' := stack;
      Atomic.NoEvent(TableEffect, View(s));
    } else {
      InvStep(s, acts[0], stack);
      StepSeen(s, acts[0], stack);
      var mid := Do(s, acts[0]);
      stack' := RunSeen(mid, acts[1..], s', StackAfter(s, acts[0], stack));
      Atomic.Concat(TableEffect, View(s), Seen(s, acts[0]), View(mid), History(mid, acts[1..]), View(s'));
    }
  }

  lemma SizedHere(s: State, stack: seq<nat>)
    requires Inv(s, stack)
    ensures Sized(s)
  {
  }

  /** Inside the tag window, every run of any number of threads is a history of an atomic table that
      starts empty: each `add` and `remove` takes effect once, between its call and its return, with the
      value or slot it was called with and the slot or value it returns. */
  lemma ContainerIsLinearizable(capacity: nat, threads: nat, acts: seq<Action>, s: State)
    requires 0 < capacity <= FL.SENTINEL && Runs(Init(capacity, threads), acts, s)
    ensures Sized(s)
    ensures Atomic.Linearizes(TableEffect, Atomic.Object(Table(map[], capacity), seq(threads, _ => Atomic.NoCall)),
                              History(Init(capacity, threads), acts), View(s))
  {
    hide Inv, Init, Runs, View, TableEffect;
    InitInv(capacity, threads);
    InitView(capacity, threads);
    var stack := RunSeen(Init(capacity, threads), acts, s, Safety.InitStack(capacity));
  }

  lemma InitView(capacity: nat, threads: nat)
    ensures Sized(Init(capacity, threads))
    ensures View(Init(capacity, threads)) == Atomic.Object(Table(map[], capacity), seq(threads, _ => Atomic.NoCall))
  {
    var s0 := Init(capacity, threads);
    assert Calls(s0) == seq(threads, _ => Atomic.NoCall);
    assert Slots(s0.current, s0.adds) == map[];
  }

  // ----- When `add` fails -----

  /** A slot is occupied, or in the hands of a call. */
  predicate Busy(s: State, i: nat)
    requires Sized(s)
  {
    BitWords.Has(s.bits.words, i) || exists t :: 0 <= t < |s.pcs| && (BeingAdded(s, t, i) || BeingRemoved(s, t, i))
  }

  lemma BusyOrFree(s: State, stack: seq<nat>, i: nat)
    requires Inv(s, stack) && Sized(s) && i < |s.data|
    ensures Busy(s, i) <==> i !in stack
  {
    hide Inv, BeingAdded, BeingRemoved, BitWords.Has;
    forall t | 0 <= t < |s.pcs|
      ensures (BeingAdded(s, t, i) || BeingRemoved(s, t, i)) <==> i in s.list.threads[t].held
    {
      HeldIsWork(s, stack, t, i);
    }
    OccupiedIsParked(s, stack, i);
    ListInv(s, stack);
    OnePlace(s.list, stack, i);
  }

  lemma ListInv(s: State, stack: seq<nat>)
    requires Inv(s, stack)
    ensures Safety.Inv(s.list, stack) && |s.data| == |s.list.mem.next|
    ensures stack != [] ==> stack[0] < |s.data|
  {
  }

  /** `add` answers that there is no slot exactly when, as it loads the head of the free-list, every slot
      is occupied or in the hands of a call. */
  lemma AddFailsExactly(capacity: nat, threads: nat, acts: seq<Action>, s: State, a: Action)
    requires 0 < capacity <= FL.SENTINEL && Runs(Init(capacity, threads), acts, s) && Enabled(s, a)
    requires a.BeginAdd? || (a.AllocStep? && a.la.CasAcquire? && !FL.Succeeds(s.list, a.la))
    ensures Sized(s) && Sized(Do(s, a)) && a.t < |s.pcs| == |Do(s, a).pcs|
    ensures CallAt(Do(s, a), a.t) == Atomic.Answered(Slot(None)) <==> forall i: nat :: i < |s.data| ==> Busy(s, i)
  {
    InitInv(capacity, threads);
    var stack := RunInv(Init(capacity, threads), acts, s, Safety.InitStack(capacity));
    AddFailsAt(s, a, stack);
  }

  lemma AddFailsAt(s: State, a: Action, stack: seq<nat>)
    requires Inv(s, stack) && Enabled(s, a)
    requires a.BeginAdd? || (a.AllocStep? && a.la.CasAcquire? && !FL.Succeeds(s.list, a.la))
    ensures Sized(s) && Sized(Do(s, a)) && a.t < |s.pcs| == |Do(s, a).pcs|
    ensures CallAt(Do(s, a), a.t) == Atomic.Answered(Slot(None)) <==> forall i: nat :: i < |s.data| ==> Busy(s, i)
  {
    hide Inv, Safety.Inv, Busy;
    StepFrame(s, a);
    ListInv(s, stack);
    Safety.EmptyAtSentinel(s.list, stack);
    assert (CallAt(Do(s, a), a.t) == Atomic.Answered(Slot(None))) <==> stack == [] by {
      hide FL.Pack, FL.HeadOf, FL.TagOf;
    }
    hide Do, Enabled;
    forall i: nat | i < |s.data| ensures Busy(s, i) <==> i !in stack { BusyOrFree(s, stack, i); }
    if stack != [] { assert stack[0] in stack; }
  }

  // ----- A call that runs alone ends -----

  /** How many steps thread `t` needs at most if no other thread takes one. */
  function StepsAlone(s: State, t: nat): int
    requires Sized(s) && t < |s.pcs|
  {
    var lp, bp := s.list.threads[t].pc, s.bits.pcs[t];
    match s.pcs[t]
    case AddAlloc(_) => if lp.Exhausted? then 0 else Lists.StepsAlone(s.list, t) + 3
    case AddSet(_, _) => if bp.Ready? then 2 else Bits.StepsAlone(s.bits, t)
    case RemClear(_) => if bp.ClearDone? then 0 else Bits.StepsAlone(s.bits, t) + 4
    case RemLoad(_, _) => 4
    case RemFree(_, _, _) => if lp.Ready? then 3 else Lists.StepsAlone(s.list, t)
    case _ => 0
  }

  /** Thread `t`'s next step, with compare-and-swaps that do not fail spuriously. */
  function NextStep(s: State, t: nat): Action
    requires Sized(s) && t < |s.pcs|
  {
    var lp, bp := s.list.threads[t].pc, s.bits.pcs[t];
    match s.pcs[t]
    case AddAlloc(_) => if lp.Acquired? then StoreData(t) else AllocStep(t, Lists.NextStep(s.list, t))
    case AddSet(_, slot) => SetBitStep(t, if bp.Ready? then BS.BeginSet(t, slot) else BS.CasSet(t, false))
    case RemClear(_) => ClearBitStep(t, false)
    case RemLoad(_, _) => LoadData(t)
    case RemFree(slot, _, _) =>
      FreeStep(t, if lp.Ready? then FL.BeginRelease(t, slot) else Lists.NextStep(s.list, t))
    case _ => Finish(t)
  }

  /** The head that thread `t` loaded in `alloc_slot` is not older than the tag can tell. */
  predicate Recent(s: State, t: nat)
    requires t < |s.list.threads|
  {
    var lp := s.list.threads[t].pc;
    lp.AcqRead? || lp.AcqCas? ==> s.list.mem.version < lp.seen + 0x1_0000_0000
  }

  /** The step is possible and brings the call of thread `t` nearer to its end. */
  predicate Advances(s: State, t: nat, a: Action) {
    && Sized(s) && t < |s.pcs| && a.t == t && Enabled(s, a) && WindowOk(s, a)
    && var s' := Do(s, a);
       && Sized(s') && |s'.pcs| == |s.pcs| && !s'.pcs[t].Idle? && Recent(s', t)
       && 0 <= StepsAlone(s', t) < StepsAlone(s, t)
  }

  lemma AllocAlone(s: State, t: nat, stack: seq<nat>)
    requires Inv(s, stack) && Sized(s) && t < |s.pcs| && Recent(s, t)
    requires s.pcs[t].AddAlloc? && !s.list.threads[t].pc.Exhausted?
    ensures Advances(s, t, NextStep(s, t))
  {
    hide Inv, FL.Pack, FL.HeadOf, FL.TagOf, Safety.Inv;
    CallerOk(s, stack, t);
    ListInv(s, stack);
    ListShape(s.list, stack);
    if s.list.threads[t].pc.Acquired? {
      HeldFacts(s.list, stack, t);
      StepFrame(s, StoreData(t));
    } else {
      var la := Lists.NextStep(s.list, t);
      Lists.StepAlone(s.list, t);
      ListPc(s.list, la);
      StepFrame(s, AllocStep(t, la));
    }
  }

  lemma ListShape(l: FL.State, stack: seq<nat>)
    requires Safety.Inv(l, stack)
    ensures FL.Shape(l)
  {
  }

  lemma SetAlone(s: State, t: nat, stack: seq<nat>)
    requires Inv(s, stack) && Sized(s) && t < |s.pcs| && s.pcs[t].AddSet? && !Finished(s, t)
    ensures Advances(s, t, NextStep(s, t))
  {
    hide Inv, FL.Pack, FL.HeadOf, FL.TagOf, BS.Inv, BS.Do, BS.AfterSetLoad;
    CallerOk(s, stack, t);
    SetAlwaysTrue(s, stack, t);
    BitsInv(s, stack);
    var slot, a := s.pcs[t].slot, NextStep(s, t);
    if !s.bits.pcs[t].Ready? { Bits.StepAlone(s.bits, t); }
    Bits.SetPc(s.bits, a.ba, slot);
    if s.bits.pcs[t].Ready? { FreshAfterLoad(s.bits, a.ba, slot); }
    StepFrame(s, a);
    SetBitPc(s, a);
    HandOverPc(s.list, FL.Park(t, slot));
  }

  lemma FreshAfterLoad(b: BS.State, ba: BS.Action, i: nat)
    requires BS.Enabled(b, ba) && ba.BeginSet? && ba.i == i && BS.AfterSetLoad(b, i).SetCas?
    ensures Bits.StepsAlone(BS.Do(b, ba), ba.t) == 1
  {
    hide BitWords.TestBit;
  }

  /** Handing over moves no program counter. */
  lemma HandOverPc(l: FL.State, la: FL.Action)
    requires la.Park? || la.Take?
    ensures var l' := HandOver(l, la);
            |l'.threads| == |l.threads| && l'.mem == l.mem
            && forall u :: 0 <= u < |l.threads| ==> l'.threads[u].pc == l.threads[u].pc
  {
    hide FL.Pack, FL.HeadOf, FL.TagOf;
  }

  lemma ClearAlone(s: State, t: nat, stack: seq<nat>)
    requires Inv(s, stack) && Sized(s) && t < |s.pcs| && s.pcs[t].RemClear? && !Finished(s, t)
    ensures Advances(s, t, NextStep(s, t))
  {
    hide Inv, FL.Pack, FL.HeadOf, FL.TagOf, BS.Inv, BS.Do;
    CallerOk(s, stack, t);
    BitsInv(s, stack);
    var slot, a := s.pcs[t].slot, NextStep(s, t);
    Bits.StepAlone(s.bits, t);
    BitsClear(s.bits, ClearAction(a), slot);
    StepFrame(s, a);
    ClearBitPc(s, a);
    HandOverPc(s.list, FL.Take(t, slot));
  }

  lemma FreeAlone(s: State, t: nat, stack: seq<nat>)
    requires Inv(s, stack) && Sized(s) && t < |s.pcs| && (s.pcs[t].RemLoad? || s.pcs[t].RemFree?) && !Finished(s, t)
    ensures Advances(s, t, NextStep(s, t))
  {
    hide Inv, FL.Pack, FL.HeadOf, FL.TagOf, Safety.Inv, FL.Shape;
    CallerOk(s, stack, t);
    ListInv(s, stack);
    ListShape(s.list, stack);
    var a := NextStep(s, t);
    if s.pcs[t].RemLoad? {
      StepFrame(s, a);
    } else {
      if !s.list.threads[t].pc.Ready? { Lists.StepAlone(s.list, t); }
      ListPc(s.list, a.la);
      StepFrame(s, a);
    }
  }

  lemma StepAlone(s: State, t: nat, stack: seq<nat>)
    requires Inv(s, stack) && Sized(s) && t < |s.pcs| && Recent(s, t) && !s.pcs[t].Idle? && !Finished(s, t)
    ensures Advances(s, t, NextStep(s, t))
  {
    CallerOk(s, stack, t);
    match s.pcs[t]
    case AddAlloc(_) => AllocAlone(s, t, stack);
    case AddSet(_, _) => SetAlone(s, t, stack);
    case RemClear(_) => ClearAlone(s, t, stack);
    case RemLoad(_, _) => FreeAlone(s, t, stack);
    case RemFree(_, _, _) => FreeAlone(s, t, stack);
    case AddDone(_) =>
    hide Inv, Advances, NextStep;
  }

  /** From every state of a run, a thread that is in a call and runs alone ends it within seven steps,
      if the head it loaded is not older than the tag can tell. */
  lemma {:induction false} EndsAlone(s: State, t: nat, stack: seq<nat>) returns (acts: seq<Action>, s': State)
    requires Inv(s, stack) && Sized(s) && t < |s.pcs| && Recent(s, t) && !s.pcs[t].Idle?
    ensures Runs(s, acts, s') && |acts| <= 7 && forall a <- acts :: a.t == t
    ensures Sized(s') && |s'.pcs| == |s.pcs| && Finished(s', t)
    ensures |acts| <= StepsAlone(s, t)
    decreases StepsAlone(s, t)
  {
    StepsBound(s, t, stack);
    if Finished(s, t) {
      acts, s' := [], s;
    } else {
      var a := NextStep(s, t);
      StepAlone(s, t, stack);
      InvStep(s, a, stack);
      hide Do, Enabled, Inv, Finished, StepsAlone, NextStep, Recent, WindowOk, StackAfter;
      acts, s' := EndsAlone(Do(s, a), t, StackAfter(s, a, stack));
      assert ([a] + acts)[1..] == acts;
      acts := [a] + acts;
    }
  }

  lemma StepsBound(s: State, t: nat, stack: seq<nat>)
    requires Inv(s, stack) && Sized(s) && t < |s.pcs|
    ensures 0 <= StepsAlone(s, t) <= 7
  {
    CallerOk(s, stack, t);
  }
}
