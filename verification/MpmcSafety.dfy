/** Every slot of the container is in exactly one place: free, occupied, being added or being removed
    by one thread. So `remove` returns the value of the add whose bit it cleared, once, and the result
    of `occupied.set` that `add` ignores is always true. The invariant couples the free-list, the
    occupancy bits, the values and the place of each thread; it holds of every run inside the window
    of the free-list's tag. */
module MpmcSafety {
  import opened Words
  import opened Sums
  import opened BitWords
  import FL = FreeList
  import Safety = FreeListSafety
  import BS = BitSetSteps
  import opened MpmcSteps

  // ----- Invariant -----

  /** The slots a thread holds are exactly the one its call is working on. */
  function Expected(pc: Pc, lp: FL.Pc): set<nat> {
    match pc
    case AddAlloc(_) => if lp.Acquired? then {lp.idx} else {}
    case AddSet(_, slot) => {slot}
    case RemLoad(slot, _) => {slot}
    case RemFree(slot, _, _) => if lp.Released? then {} else {slot}
    case _ => {}
  }

  predicate ThreadOk(pc: Pc, th: FL.Thread, bp: BS.Pc, data: seq<nat>, adds: seq<nat>) {
    && th.held == Expected(pc, th.pc)
    && match pc
       case Idle => th.pc.Ready? && bp.Ready?
       case AddAlloc(_) => bp.Ready? && (th.pc.AcqRead? || th.pc.AcqCas? || th.pc.Acquired? || th.pc.Exhausted?)
       case AddSet(v, slot) =>
         th.pc.Ready? && slot < |data| && data[slot] == v && (bp.Ready? || (bp.SetCas? && bp.i == slot))
       case AddDone(_) => th.pc.Ready? && bp.SetDone? && bp.added
       case RemClear(slot) =>
         th.pc.Ready? && ((bp.ClearCas? && bp.i == slot) || (bp.ClearDone? && !bp.found))
       case RemLoad(slot, id) =>
         && th.pc.Ready? && bp.ClearDone? && bp.found
         && slot < |data| && id < |adds| && data[slot] == adds[id]
       case RemFree(slot, id, v) =>
         && bp.Ready? && id < |adds| && v == adds[id]
         && (th.pc.Ready? || ((th.pc.RelStore? || th.pc.RelCas? || th.pc.Released?) && th.pc.idx == slot))
  }

  predicate ThreadsOk(s: State) {
    Sized(s) &&
    forall t :: 0 <= t < |s.pcs| ==> ThreadOk(s.pcs[t], s.list.threads[t], s.bits.pcs[t], s.data, s.adds)
  }

  /** The occupied slots are those whose bit is set, and each holds the value of its add. */
  ghost predicate TableOk(s: State) {
    && |s.data| == |s.list.mem.next| == s.bits.capacity
    && (forall i: nat :: BitWords.Has(s.bits.words, i) <==> i in s.list.parked)
    && s.current.Keys == s.list.parked
    && forall i <- s.current :: i < |s.data| && s.current[i] < |s.adds| && s.data[i] == s.adds[s.current[i]]
  }

  predicate HasId(pc: Pc) {
    pc.RemLoad? || pc.RemFree?
  }

  /** No add is removed twice. */
  predicate HistoryOk(s: State) {
    && (forall i <- s.current :: s.current[i] < |s.adds| && s.current[i] !in s.taken)
    && (forall i, j | i in s.current && j in s.current && i != j :: s.current[i] != s.current[j])
    && (forall j, k :: 0 <= j < k < |s.taken| ==> s.taken[j] != s.taken[k])
    && (forall id <- s.taken :: id < |s.adds|)
    && (forall k :: 0 <= k < |s.results| ==>
          s.results[k].0 < |s.adds| && s.results[k].1 == s.adds[s.results[k].0] && s.results[k].0 in s.taken)
    && (forall j, k :: 0 <= j < k < |s.results| ==> s.results[j].0 != s.results[k].0)
    && (forall t :: 0 <= t < |s.pcs| && HasId(s.pcs[t]) ==> s.pcs[t].id in s.taken)
    && (forall t, k :: 0 <= t < |s.pcs| && HasId(s.pcs[t]) && 0 <= k < |s.results| ==> s.results[k].0 != s.pcs[t].id)
    && (forall t, u :: 0 <= t < u < |s.pcs| && HasId(s.pcs[t]) && HasId(s.pcs[u]) ==> s.pcs[t].id != s.pcs[u].id)
  }

  ghost predicate Inv(s: State, stack: seq<nat>) {
    Safety.Inv(s.list, stack) && BS.Inv(s.bits) && ThreadsOk(s) && TableOk(s) && HistoryOk(s)
  }

  function StackAfter(s: State, a: Action, stack: seq<nat>): seq<nat>
    requires Enabled(s, a)
  {
    match a
    case AllocStep(_, la) => Safety.StackAfter(s.list, la, stack)
    case FreeStep(_, la) => Safety.StackAfter(s.list, la, stack)
    case _ => stack
  }

  lemma InitInv(capacity: nat, threads: nat)
    requires 0 < capacity <= FL.SENTINEL
    ensures Inv(Init(capacity, threads), Safety.InitStack(capacity))
  {
    hide Safety.Inv, BS.Inv, TableOk, HistoryOk, ThreadsOk;
    Safety.InitInv(capacity, threads);
    BS.InitInv(capacity, threads);
    InitParts(Init(capacity, threads));
  }

  lemma InitParts(s: State)
    requires Sized(s) && |s.data| == |s.list.mem.next| == s.bits.capacity
    requires forall t :: 0 <= t < |s.pcs| ==>
               s.pcs[t].Idle? && s.bits.pcs[t].Ready? && s.list.threads[t] == FL.Thread(FL.Ready, {})
    requires forall w :: 0 <= w < |s.bits.words| ==> s.bits.words[w] == 0
    requires s.list.parked == {} && s.adds == [] && s.current == map[] && s.taken == [] && s.results == []
    ensures ThreadsOk(s) && TableOk(s) && HistoryOk(s)
  {
    forall i: nat ensures BitWords.Has(s.bits.words, i) <==> i in s.list.parked {
      BitZero(i % WORD);
    }
  }

  // ----- What the free-list invariant says about two threads or a thread and the table -----

  lemma HeldApart(l: FL.State, stack: seq<nat>, t: nat, u: nat)
    requires Safety.Inv(l, stack) && t < |l.threads| && u < |l.threads| && t != u
    ensures l.threads[t].held !! l.threads[u].held && l.threads[t].held !! l.parked
  {
    if t < u {
      assert l.threads[t].held !! l.threads[u].held;
    } else {
      assert l.threads[u].held !! l.threads[t].held;
    }
  }

  lemma HeldFacts(l: FL.State, stack: seq<nat>, t: nat)
    requires Safety.Inv(l, stack) && t < |l.threads|
    ensures l.threads[t].held !! l.parked
    ensures forall i <- l.threads[t].held :: i < |l.mem.next|
    ensures l.threads[t].pc.Acquired? ==> l.threads[t].pc.idx in l.threads[t].held
    ensures (l.threads[t].pc.RelStore? || l.threads[t].pc.RelCas?) ==> l.threads[t].pc.idx in l.threads[t].held
    ensures forall i <- l.parked :: i < |l.mem.next|
  {
    assert FL.ThreadShape(l.threads[t], l.mem);
  }

  /** A free-list step of thread `t` leaves the other threads and the table's slots alone. */
  lemma ListFrame(l: FL.State, la: FL.Action)
    requires FL.Enabled(l, la)
    ensures var l' := FL.Do(l, la);
            && |l'.threads| == |l.threads| && |l'.mem.next| == |l.mem.next|
            && (forall u :: 0 <= u < |l.threads| && u != la.t ==> l'.threads[u] == l.threads[u])
            && (!la.Park? && !la.Take? ==> l'.parked == l.parked)
            && (!la.Park? && !la.Take? && !FL.Succeeds(l, la) ==> l'.threads[la.t].held == l.threads[la.t].held)
  {
  }

  // ----- What a step that moves one call keeps -----

  lemma ThreadsFrame(s: State, s': State, t: nat)
    requires ThreadsOk(s) && Sized(s') && t < |s.pcs| == |s'.pcs|
    requires |s'.data| == |s.data| && s.adds <= s'.adds
    requires forall u :: 0 <= u < |s.pcs| && u != t ==>
               s'.pcs[u] == s.pcs[u] && s'.list.threads[u] == s.list.threads[u] && s'.bits.pcs[u] == s.bits.pcs[u]
               && forall i <- s.list.threads[u].held :: i < |s.data| ==> s'.data[i] == s.data[i]
    requires ThreadOk(s'.pcs[t], s'.list.threads[t], s'.bits.pcs[t], s'.data, s'.adds)
    ensures ThreadsOk(s')
  {
    forall u | 0 <= u < |s'.pcs|
      ensures ThreadOk(s'.pcs[u], s'.list.threads[u], s'.bits.pcs[u], s'.data, s'.adds) {
      assert ThreadOk(s.pcs[u], s.list.threads[u], s.bits.pcs[u], s.data, s.adds) || u == t;
    }
  }

  lemma TableFrame(s: State, s': State)
    requires TableOk(s) && |s'.data| == |s.data| && s'.adds == s.adds && s'.current == s.current
    requires s'.list.parked == s.list.parked && |s'.list.mem.next| == |s.list.mem.next|
    requires s'.bits.words == s.bits.words && s'.bits.capacity == s.bits.capacity
    requires forall i <- s.list.parked :: i < |s.data| ==> s'.data[i] == s.data[i]
    ensures TableOk(s')
  {
  }

  lemma HistoryFrame(s: State, s': State, t: nat)
    requires HistoryOk(s) && t < |s.pcs| == |s'.pcs| && s'.pcs == s.pcs[t := s'.pcs[t]]
    requires HasId(s'.pcs[t]) ==> HasId(s.pcs[t]) && s'.pcs[t].id == s.pcs[t].id
    requires s'.adds == s.adds && s'.current == s.current && s'.taken == s.taken && s'.results == s.results
    ensures HistoryOk(s')
  {
  }

  // ----- Preservation -----

  /** `add` and `remove` inside the free-list. */
  lemma ListStepKeeps(s: State, a: Action, la: FL.Action, stack: seq<nat>)
    requires Inv(s, stack) && Enabled(s, a) && WindowOk(s, a)
    requires (a.BeginAdd? && la == FL.BeginAcquire(a.t)) || ((a.AllocStep? || a.FreeStep?) && la == a.la)
    ensures Inv(Do(s, a), StackAfter(s, a, stack))
  {
    hide Safety.Inv, BS.Inv, TableOk, HistoryOk, ThreadsOk, FL.Do, FL.Enabled, ThreadOk, Do, Enabled;
    var s' := Do(s, a);
    ListStepThread(s, a, la);
    Safety.WindowGivesNext(s.list, la, stack);
    Safety.InvStep(s.list, la, stack);
    ThreadsFrame(s, s', a.t);
    TableFrame(s, s');
    HistoryFrame(s, s', a.t);
  }

  lemma ListStepThread(s: State, a: Action, la: FL.Action)
    requires ThreadsOk(s) && Enabled(s, a) && WindowOk(s, a)
    requires (a.BeginAdd? && la == FL.BeginAcquire(a.t)) || ((a.AllocStep? || a.FreeStep?) && la == a.la)
    ensures var s', t := Do(s, a), a.t;
            && ThreadOk(s'.pcs[t], s'.list.threads[t], s'.bits.pcs[t], s'.data, s'.adds)
            && FL.Enabled(s.list, la) && FL.WindowOk(s.list, la) && la.t == t
            && s' == s.(list := FL.Do(s.list, la), pcs := s.pcs[t := s'.pcs[t]])
            && Sized(s) && Sized(s') && t < |s.pcs|
            && (forall u :: 0 <= u < |s.pcs| && u != t ==> s'.list.threads[u] == s.list.threads[u])
            && s'.list.parked == s.list.parked && |s'.list.mem.next| == |s.list.mem.next|
            && (HasId(s'.pcs[t]) ==> HasId(s.pcs[t]) && s'.pcs[t].id == s.pcs[t].id)
  {
    hide FL.Do;
    ListFrame(s.list, la);
    assert ThreadOk(s.pcs[a.t], s.list.threads[a.t], s.bits.pcs[a.t], s.data, s.adds);
    ListPc(s.list, la);
  }

  /** Where a free-list step leaves its thread. */
  lemma ListPc(l: FL.State, la: FL.Action)
    requires FL.Enabled(l, la) && !la.Park? && !la.Take? && !la.Return?
    ensures var th, th' := l.threads[la.t], FL.Do(l, la).threads[la.t];
            match la
            case BeginAcquire(_) => th'.held == th.held && (th'.pc.AcqRead? || th'.pc.Exhausted?)
            case ReadNext(_) => th'.held == th.held && th'.pc.AcqCas?
            case CasAcquire(_, _) =>
              || (th'.held == th.held && (th'.pc.AcqRead? || th'.pc.Exhausted?))
              || (th'.pc.Acquired? && th'.held == th.held + {th'.pc.idx})
            case BeginRelease(_, i) => th'.held == th.held && th'.pc.RelStore? && th'.pc.idx == i
            case StoreNext(_) => th'.held == th.held && th'.pc.RelCas? && th'.pc.idx == th.pc.idx
            case CasRelease(_, _) =>
              && (th'.pc.RelStore? || th'.pc.Released?) && th'.pc.idx == th.pc.idx
              && ((th'.pc.RelStore? && th'.held == th.held)
                  || (th'.pc.Released? && th'.held == th.held - {th.pc.idx}))
            case _ => true
  {
    hide FL.Pack, FL.HeadOf, FL.TagOf, BitWords.ClearBit, BitWords.SetBit, BitWords.TestBit;
  }

  /** Storing the value touches only the slot this thread holds. */
  lemma StoreDataKeeps(s: State, a: Action, stack: seq<nat>)
    requires Inv(s, stack) && Enabled(s, a) && a.StoreData?
    ensures Inv(Do(s, a), stack)
  {
    hide Safety.Inv, BS.Inv, TableOk, HistoryOk, ThreadsOk, FL.Do, FL.Enabled, ThreadOk, Do, Enabled;
    var s', t := Do(s, a), a.t;
    StoreDataThread(s, a);
    var slot := s.list.threads[t].pc.idx;
    Safety.WindowGivesNext(s.list, FL.Return(t), stack);
    Safety.InvStep(s.list, FL.Return(t), stack);
    HeldFacts(s.list, stack, t);
    forall u | 0 <= u < |s.pcs| && u != t ensures slot !in s.list.threads[u].held {
      HeldApart(s.list, stack, t, u);
    }
    ThreadsFrame(s, s', t);
    TableFrame(s, s');
    HistoryFrame(s, s', t);
  }

  lemma StoreDataThread(s: State, a: Action)
    requires ThreadsOk(s) && Enabled(s, a) && a.StoreData?
    ensures var s', t, la := Do(s, a), a.t, FL.Return(a.t);
            && Sized(s) && Sized(s') && t < |s.pcs| && s.list.threads[t].pc.Acquired?
            && var slot := s.list.threads[t].pc.idx;
            && slot < |s.data|
            && ThreadOk(s'.pcs[t], s'.list.threads[t], s'.bits.pcs[t], s'.data, s'.adds)
            && FL.Enabled(s.list, la) && FL.WindowOk(s.list, la) && !FL.Succeeds(s.list, la)
            && s' == s.(list := FL.Do(s.list, la), pcs := s.pcs[t := s'.pcs[t]], data := s'.data)
            && s'.data == s.data[slot := s'.data[slot]]
            && (forall u :: 0 <= u < |s.pcs| && u != t ==> s'.list.threads[u] == s.list.threads[u])
            && s'.list.parked == s.list.parked && |s'.list.mem.next| == |s.list.mem.next|
            && !HasId(s'.pcs[t])
  {
    ListFrame(s.list, FL.Return(a.t));
    assert ThreadOk(s.pcs[a.t], s.list.threads[a.t], s.bits.pcs[a.t], s.data, s.adds);
  }

  /** While a slot is being added its bit is unset, so `occupied.set` succeeds and returns true. */
  lemma SetAlwaysTrue(s: State, stack: seq<nat>, t: nat)
    requires Inv(s, stack) && t < |s.pcs| && s.pcs[t].AddSet?
    ensures s.pcs[t].slot in s.list.threads[t].held && s.pcs[t].slot !in s.list.parked
    ensures s.pcs[t].slot < s.bits.capacity && BS.InWords(s.bits, s.pcs[t].slot)
    ensures BS.AfterSetLoad(s.bits, s.pcs[t].slot).SetCas?
  {
    hide Safety.Inv, BS.Inv, HistoryOk;
    HeldFacts(s.list, stack, t);
    assert ThreadOk(s.pcs[t], s.list.threads[t], s.bits.pcs[t], s.data, s.adds);
    InRangeWord(s.bits, s.pcs[t].slot);
    TestBitIs(s.bits.words[s.pcs[t].slot / WORD], s.pcs[t].slot % WORD);
  }

  lemma InRangeWord(b: BS.State, i: nat)
    requires BS.Inv(b) && i < b.capacity
    ensures BS.InWords(b, i)
  {
  }

  /** A step of `set` or `clear` that swaps nothing in. */
  lemma BitLoadKeeps(s: State, a: Action, ba: BS.Action, stack: seq<nat>)
    requires Inv(s, stack) && Enabled(s, a) && QuietBits(s, a, ba)
    ensures Inv(Do(s, a), stack)
  {
    hide Safety.Inv, BS.Inv, TableOk, HistoryOk, ThreadsOk, ThreadOk, BS.Do, BS.Enabled, Do, Enabled,
         QuietBits, BS.AfterSetLoad, FL.Pack, FL.HeadOf, FL.TagOf;
    var s' := Do(s, a);
    if a.SetBitStep? {
      AddSetPc(s, a);
      SetAlwaysTrue(s, stack, a.t);
    }
    BitLoadThread(s, a, ba);
    BS.StepRefines(s.bits, ba);
    ThreadsFrame(s, s', a.t);
    TableFrame(s, s');
    HistoryFrame(s, s', a.t);
  }

  predicate QuietBits(s: State, a: Action, ba: BS.Action)
    requires Enabled(s, a)
  {
    || (a.SetBitStep? && ba == a.ba && !BS.Succeeds(s.bits, ba))
    || (a.BeginRemove? && ba == BS.BeginClear(a.t, a.slot))
    || (a.ClearBitStep? && ba == BS.CasClear(a.t, a.spurious) && !BS.Succeeds(s.bits, ba))
    || (a.LoadData? && ba == BS.Return(a.t))
  }

  lemma AddSetPc(s: State, a: Action)
    requires Enabled(s, a) && a.SetBitStep?
    ensures a.t < |s.pcs| && s.pcs[a.t].AddSet?
  {
  }

  lemma BitLoadThread(s: State, a: Action, ba: BS.Action)
    requires ThreadsOk(s) && Enabled(s, a) && QuietBits(s, a, ba)
    requires a.SetBitStep? ==> BS.InWords(s.bits, s.pcs[a.t].slot) && BS.AfterSetLoad(s.bits, s.pcs[a.t].slot).SetCas?
    ensures var s', t := Do(s, a), a.t;
            && Sized(s) && Sized(s') && t < |s.pcs|
            && ThreadOk(s'.pcs[t], s'.list.threads[t], s'.bits.pcs[t], s'.data, s'.adds)
            && BS.Enabled(s.bits, ba)
            && s' == s.(bits := BS.Do(s.bits, ba), pcs := s.pcs[t := s'.pcs[t]])
            && s'.bits.words == s.bits.words && s'.bits.capacity == s.bits.capacity
            && (forall u :: 0 <= u < |s.pcs| && u != t ==> s'.bits.pcs[u] == s.bits.pcs[u])
            && (HasId(s'.pcs[t]) ==> HasId(s.pcs[t]) && s'.pcs[t].id == s.pcs[t].id)
  {
    hide FL.Pack, FL.HeadOf, FL.TagOf, BitWords.ClearBit, BitWords.SetBit, BitWords.TestBit;
    assert ThreadOk(s.pcs[a.t], s.list.threads[a.t], s.bits.pcs[a.t], s.data, s.adds);
    if a.SetBitStep? {
      SetPcAfterLoad(s, a);
    }
  }

  lemma SetPcAfterLoad(s: State, a: Action)
    requires Enabled(s, a) && a.SetBitStep? && !BS.Succeeds(s.bits, a.ba)
    requires a.ba.CasSet? ==> s.bits.pcs[a.t].SetCas? ==> s.bits.pcs[a.t].i == s.pcs[a.t].slot
    requires BS.InWords(s.bits, s.pcs[a.t].slot)
    ensures Do(s, a).bits.pcs[a.t] == BS.AfterSetLoad(s.bits, s.pcs[a.t].slot)
  {
  }

  /** The swap that sets the bit completes the add and hands its slot to the table. */
  lemma SetSwapKeeps(s: State, a: Action, stack: seq<nat>)
    requires Inv(s, stack) && Enabled(s, a) && a.SetBitStep? && BS.Succeeds(s.bits, a.ba)
    ensures Inv(Do(s, a), stack)
  {
    hide Safety.Inv, BS.Inv, TableOk, HistoryOk, ThreadsOk, ThreadOk, FL.Do, FL.Enabled, BS.Do, BS.Enabled,
         BS.OpOf, Do, Enabled;
    var s', t := Do(s, a), a.t;
    AddSetPc(s, a);
    var slot := s.pcs[t].slot;
    SetAlwaysTrue(s, stack, t);
    SetSwapThread(s, a);
    Safety.WindowGivesNext(s.list, FL.Park(t, slot), stack);
    Safety.InvStep(s.list, FL.Park(t, slot), stack);
    BS.StepRefines(s.bits, a.ba);
    ThreadsFrame(s, s', t);
    SetSwapTable(s, s', t, slot);
    SetSwapHistory(s, s', t, slot);
  }

  lemma SetSwapThread(s: State, a: Action)
    requires ThreadsOk(s) && Enabled(s, a) && a.SetBitStep? && BS.Succeeds(s.bits, a.ba)
    ensures var s', t, slot, la := Do(s, a), a.t, s.pcs[a.t].slot, FL.Park(a.t, s.pcs[a.t].slot);
            && Sized(s) && Sized(s') && t < |s.pcs|
            && ThreadOk(s'.pcs[t], s'.list.threads[t], s'.bits.pcs[t], s'.data, s'.adds)
            && FL.Enabled(s.list, la) && FL.WindowOk(s.list, la) && !FL.Succeeds(s.list, la)
            && BS.Enabled(s.bits, a.ba) && BS.OpOf(s.bits, a.ba) == BS.Insert(slot)
            && s'.bits == BS.Do(s.bits, a.ba) && s'.list == FL.Do(s.list, la)
            && s' == s.(bits := s'.bits, list := s'.list, adds := s.adds + [s.pcs[t].value],
                        current := s.current[slot := |s.adds|], pcs := s.pcs[t := AddDone(slot)])
            && s'.list.parked == s.list.parked + {slot} && |s'.list.mem.next| == |s.list.mem.next|
            && s'.bits.capacity == s.bits.capacity && slot < |s.data| && s.data[slot] == s.pcs[t].value
            && (forall u :: 0 <= u < |s.pcs| && u != t ==>
                  s'.list.threads[u] == s.list.threads[u] && s'.bits.pcs[u] == s.bits.pcs[u])
  {
    hide FL.Pack, FL.HeadOf, FL.TagOf, BitWords.ClearBit, BitWords.SetBit, BitWords.TestBit;
    assert ThreadOk(s.pcs[a.t], s.list.threads[a.t], s.bits.pcs[a.t], s.data, s.adds);
    assert s.list.threads[a.t].held - {s.pcs[a.t].slot} == {};
  }

  lemma SetSwapTable(s: State, s': State, t: nat, slot: nat)
    requires TableOk(s) && t < |s.pcs| && s.pcs[t].AddSet? && s.pcs[t].slot == slot && slot !in s.list.parked
    requires s'.adds == s.adds + [s.pcs[t].value] && s'.current == s.current[slot := |s.adds|]
    requires s'.data == s.data && slot < |s.data| && s.data[slot] == s.pcs[t].value
    requires s'.list.parked == s.list.parked + {slot} && |s'.list.mem.next| == |s.list.mem.next|
    requires s'.bits.capacity == s.bits.capacity
    requires forall j: nat :: BitWords.Has(s'.bits.words, j) <==> BitWords.Has(s.bits.words, j) || j == slot
    ensures TableOk(s') && slot !in s.current
  {
  }

  lemma SetSwapHistory(s: State, s': State, t: nat, slot: nat)
    requires HistoryOk(s) && t < |s.pcs| && s.pcs[t].AddSet? && slot !in s.current
    requires s'.adds == s.adds + [s.pcs[t].value] && s'.current == s.current[slot := |s.adds|]
    requires s'.taken == s.taken && s'.results == s.results && s'.pcs == s.pcs[t := AddDone(slot)]
    ensures HistoryOk(s')
  {
  }

  /** The swap that clears the bit takes the slot out of the table, with the add it holds. */
  lemma ClearSwapKeeps(s: State, a: Action, stack: seq<nat>)
    requires Inv(s, stack) && Enabled(s, a) && a.ClearBitStep?
    requires BS.Enabled(s.bits, BS.CasClear(a.t, a.spurious)) && BS.Succeeds(s.bits, BS.CasClear(a.t, a.spurious))
    ensures Inv(Do(s, a), stack)
  {
    hide Safety.Inv, BS.Inv, TableOk, HistoryOk, ThreadsOk, ThreadOk, FL.Do, FL.Enabled, BS.Do, BS.Enabled,
         BS.OpOf, Do, Enabled;
    var s', t, ba := Do(s, a), a.t, BS.CasClear(a.t, a.spurious);
    ClearSwapOp(s, a);
    var slot := s.pcs[t].slot;
    BS.StepRefines(s.bits, ba);
    OccupiedHere(s, slot);
    ClearSwapThread(s, a);
    Safety.WindowGivesNext(s.list, FL.Take(t, slot), stack);
    Safety.InvStep(s.list, FL.Take(t, slot), stack);
    ThreadsFrame(s, s', t);
    ClearSwapTable(s, s', slot);
    ClearSwapHistory(s, s', t, slot);
  }

  lemma ClearSwapOp(s: State, a: Action)
    requires ThreadsOk(s) && Enabled(s, a) && a.ClearBitStep?
    requires BS.Enabled(s.bits, BS.CasClear(a.t, a.spurious)) && BS.Succeeds(s.bits, BS.CasClear(a.t, a.spurious))
    ensures a.t < |s.pcs| && s.pcs[a.t].RemClear?
    ensures BS.OpOf(s.bits, BS.CasClear(a.t, a.spurious)) == BS.Remove(s.pcs[a.t].slot)
  {
    assert ThreadOk(s.pcs[a.t], s.list.threads[a.t], s.bits.pcs[a.t], s.data, s.adds);
  }

  lemma OccupiedHere(s: State, slot: nat)
    requires TableOk(s) && BitWords.Has(s.bits.words, slot)
    ensures slot in s.list.parked && slot in s.current && slot < |s.data|
    ensures s.current[slot] < |s.adds| && s.data[slot] == s.adds[s.current[slot]]
  {
  }

  lemma ClearSwapThread(s: State, a: Action)
    requires ThreadsOk(s) && Enabled(s, a) && a.ClearBitStep?
    requires BS.Enabled(s.bits, BS.CasClear(a.t, a.spurious)) && BS.Succeeds(s.bits, BS.CasClear(a.t, a.spurious))
    requires var slot := s.pcs[a.t].slot;
             && slot in s.list.parked && slot in s.current && slot < |s.data|
             && s.current[slot] < |s.adds| && s.data[slot] == s.adds[s.current[slot]]
    ensures var s', t, slot, ba := Do(s, a), a.t, s.pcs[a.t].slot, BS.CasClear(a.t, a.spurious);
            var la, id := FL.Take(t, slot), s.current[slot];
            && Sized(s) && Sized(s') && t < |s.pcs|
            && ThreadOk(s'.pcs[t], s'.list.threads[t], s'.bits.pcs[t], s'.data, s'.adds)
            && FL.Enabled(s.list, la) && FL.WindowOk(s.list, la) && !FL.Succeeds(s.list, la)
            && s'.bits == BS.Do(s.bits, ba) && s'.list == FL.Do(s.list, la)
            && s' == s.(bits := s'.bits, list := s'.list, current := s.current - {slot},
                        taken := s.taken + [id], pcs := s.pcs[t := RemLoad(slot, id)])
            && s'.list.parked == s.list.parked - {slot} && |s'.list.mem.next| == |s.list.mem.next|
            && s'.bits.capacity == s.bits.capacity
            && (forall u :: 0 <= u < |s.pcs| && u != t ==>
                  s'.list.threads[u] == s.list.threads[u] && s'.bits.pcs[u] == s.bits.pcs[u])
  {
    hide FL.Pack, FL.HeadOf, FL.TagOf, BitWords.ClearBit, BitWords.SetBit, BitWords.TestBit;
    assert ThreadOk(s.pcs[a.t], s.list.threads[a.t], s.bits.pcs[a.t], s.data, s.adds);
  }

  lemma ClearSwapTable(s: State, s': State, slot: nat)
    requires TableOk(s) && slot in s.current
    requires s'.adds == s.adds && s'.current == s.current - {slot} && s'.data == s.data
    requires s'.list.parked == s.list.parked - {slot} && |s'.list.mem.next| == |s.list.mem.next|
    requires s'.bits.capacity == s.bits.capacity
    requires forall j: nat :: BitWords.Has(s'.bits.words, j) <==> BitWords.Has(s.bits.words, j) && j != slot
    ensures TableOk(s')
  {
  }

  lemma ClearSwapHistory(s: State, s': State, t: nat, slot: nat)
    requires HistoryOk(s) && t < |s.pcs| && s.pcs[t].RemClear? && slot in s.current
    requires s'.adds == s.adds && s'.current == s.current - {slot} && s'.results == s.results
    requires s'.taken == s.taken + [s.current[slot]] && s'.pcs == s.pcs[t := RemLoad(slot, s.current[slot])]
    ensures HistoryOk(s')
  {
    assert forall id <- s.taken :: id in s'.taken;
    assert s'.taken[|s.taken|] == s.current[slot];
  }

  lemma FinishKeeps(s: State, a: Action, stack: seq<nat>)
    requires Inv(s, stack) && Enabled(s, a) && a.Finish?
    ensures Inv(Do(s, a), stack)
  {
    hide Safety.Inv, BS.Inv, TableOk, HistoryOk, ThreadsOk, ThreadOk, FL.Do, FL.Enabled, BS.Do, BS.Enabled,
         Do, Enabled;
    var s', t := Do(s, a), a.t;
    FinishThread(s, a);
    if FinishesList(s.pcs[t]) {
      Safety.WindowGivesNext(s.list, FL.Return(t), stack);
      Safety.InvStep(s.list, FL.Return(t), stack);
    } else {
      BS.StepRefines(s.bits, BS.Return(t));
    }
    ThreadsFrame(s, s', t);
    TableFrame(s, s');
    FinishHistory(s, s', t);
  }

  predicate FinishesList(pc: Pc) {
    pc.AddAlloc? || pc.RemFree?
  }

  lemma FinishThread(s: State, a: Action)
    requires ThreadsOk(s) && Enabled(s, a) && a.Finish?
    ensures var s', t := Do(s, a), a.t;
            && Sized(s) && Sized(s') && t < |s.pcs|
            && ThreadOk(s'.pcs[t], s'.list.threads[t], s'.bits.pcs[t], s'.data, s'.adds)
            && (if FinishesList(s.pcs[t]) then
                  && FL.Enabled(s.list, FL.Return(t)) && FL.WindowOk(s.list, FL.Return(t))
                  && !FL.Succeeds(s.list, FL.Return(t))
                  && s'.list == FL.Do(s.list, FL.Return(t)) && s'.bits == s.bits
                else BS.Enabled(s.bits, BS.Return(t)) && s'.bits == BS.Do(s.bits, BS.Return(t)) && s'.list == s.list)
            && s'.list.parked == s.list.parked && |s'.list.mem.next| == |s.list.mem.next|
            && s'.bits.words == s.bits.words && s'.bits.capacity == s.bits.capacity
            && s' == s.(bits := s'.bits, list := s'.list, pcs := s.pcs[t := Idle], results := s'.results)
            && (if s.pcs[t].RemFree? then
                  && s'.results == s.results + [(s.pcs[t].id, s.pcs[t].value)]
                  && s.pcs[t].id < |s.adds| && s.pcs[t].value == s.adds[s.pcs[t].id]
                else s'.results == s.results)
            && (forall u :: 0 <= u < |s.pcs| && u != t ==>
                  s'.list.threads[u] == s.list.threads[u] && s'.bits.pcs[u] == s.bits.pcs[u])
  {
    hide FL.Pack, FL.HeadOf, FL.TagOf;
    assert ThreadOk(s.pcs[a.t], s.list.threads[a.t], s.bits.pcs[a.t], s.data, s.adds);
  }

  lemma FinishHistory(s: State, s': State, t: nat)
    requires HistoryOk(s) && t < |s.pcs| && s'.pcs == s.pcs[t := Idle]
    requires s'.adds == s.adds && s'.current == s.current && s'.taken == s.taken
    requires if s.pcs[t].RemFree?
             then s'.results == s.results + [(s.pcs[t].id, s.pcs[t].value)]
                  && s.pcs[t].id < |s.adds| && s.pcs[t].value == s.adds[s.pcs[t].id]
             else s'.results == s.results
    ensures HistoryOk(s')
  {
  }

  lemma InvStep(s: State, a: Action, stack: seq<nat>)
    requires Inv(s, stack) && Enabled(s, a) && WindowOk(s, a)
    ensures Inv(Do(s, a), StackAfter(s, a, stack))
  {
    hide Inv, Do, FL.Enabled, Safety.StackAfter, BS.Do;
    match a
    case BeginAdd(t, _) => ListStepKeeps(s, a, FL.BeginAcquire(t), stack);
    case AllocStep(_, la) => ListStepKeeps(s, a, la, stack);
    case FreeStep(_, la) => ListStepKeeps(s, a, la, stack);
    case StoreData(_) => StoreDataKeeps(s, a, stack);
    case SetBitStep(_, ba) =>
      if BS.Succeeds(s.bits, ba) { SetSwapKeeps(s, a, stack); } else { BitLoadKeeps(s, a, ba, stack); }
    case BeginRemove(t, slot) => BitLoadKeeps(s, a, BS.BeginClear(t, slot), stack);
    case ClearBitStep(t, spurious) =>
      if BS.Succeeds(s.bits, BS.CasClear(t, spurious)) {
        ClearSwapKeeps(s, a, stack);
      } else {
        BitLoadKeeps(s, a, BS.CasClear(t, spurious), stack);
      }
    case LoadData(t) => BitLoadKeeps(s, a, BS.Return(t), stack);
    case Finish(_) => FinishKeeps(s, a, stack);
  }

  // ----- Whole runs -----

  lemma {:induction false} RunInv(s: State, acts: seq<Action>, s': State, stack: seq<nat>) returns (stack': seq<nat>)
    requires Inv(s, stack) && Runs(s, acts, s')
    ensures Inv(s', stack')
    decreases acts
  {
    if acts == [] {
      stack' := stack;
    } else {
      InvStep(s, acts[0], stack);
      stack' := RunInv(Do(s, acts[0]), acts[1..], s', StackAfter(s, acts[0], stack));
    }
  }

  predicate BeingAdded(s: State, t: nat, i: nat)
    requires t < |s.pcs| == |s.list.threads|
  {
    (s.pcs[t].AddSet? && s.pcs[t].slot == i)
    || (s.pcs[t].AddAlloc? && s.list.threads[t].pc.Acquired? && s.list.threads[t].pc.idx == i)
  }

  predicate BeingRemoved(s: State, t: nat, i: nat)
    requires t < |s.pcs| == |s.list.threads|
  {
    (s.pcs[t].RemLoad? && s.pcs[t].slot == i)
    || (s.pcs[t].RemFree? && s.pcs[t].slot == i && !s.list.threads[t].pc.Released?)
  }

  /** In every run each slot is free-chained, or occupied, or the one slot of exactly one thread
      that is adding or removing it. */
  lemma SlotInOnePlace(capacity: nat, threads: nat, acts: seq<Action>, s: State, i: nat) returns (stack: seq<nat>)
    requires 0 < capacity <= FL.SENTINEL && Runs(Init(capacity, threads), acts, s) && i < |s.data|
    ensures Inv(s, stack) && Sized(s)
    ensures var used := exists t :: 0 <= t < |s.pcs| && (BeingAdded(s, t, i) || BeingRemoved(s, t, i));
            && (i in stack || BitWords.Has(s.bits.words, i) || used)
            && !(i in stack && BitWords.Has(s.bits.words, i))
            && !(used && (i in stack || BitWords.Has(s.bits.words, i)))
    ensures forall t, u :: 0 <= t < u < |s.pcs| && (BeingAdded(s, t, i) || BeingRemoved(s, t, i)) ==>
              !BeingAdded(s, u, i) && !BeingRemoved(s, u, i)
  {
    hide Init, Runs, Safety.Inv, BS.Inv, TableOk, HistoryOk, BeingAdded, BeingRemoved, BitWords.Has;
    InitInv(capacity, threads);
    stack := RunInv(Init(capacity, threads), acts, s, Safety.InitStack(capacity));
    forall t | 0 <= t < |s.pcs|
      ensures (BeingAdded(s, t, i) || BeingRemoved(s, t, i)) <==> i in s.list.threads[t].held
    {
      HeldIsWork(s, stack, t, i);
    }
    OccupiedIsParked(s, stack, i);
    OnePlace(s.list, stack, i);
    hide *;
  }

  lemma OccupiedIsParked(s: State, stack: seq<nat>, i: nat)
    requires Inv(s, stack)
    ensures BitWords.Has(s.bits.words, i) <==> i in s.list.parked
    ensures |s.data| == |s.list.mem.next|
  {
  }

  lemma HeldIsWork(s: State, stack: seq<nat>, t: nat, i: nat)
    requires Inv(s, stack) && t < |s.pcs|
    ensures (BeingAdded(s, t, i) || BeingRemoved(s, t, i)) <==> i in s.list.threads[t].held
  {
    assert ThreadOk(s.pcs[t], s.list.threads[t], s.bits.pcs[t], s.data, s.adds);
  }

  lemma OnePlace(l: FL.State, stack: seq<nat>, i: nat)
    requires Safety.Inv(l, stack) && i < |l.mem.next|
    ensures var used := exists t :: 0 <= t < |l.threads| && i in l.threads[t].held;
            && (i in stack || i in l.parked || used) && !(i in stack && i in l.parked)
            && !(used && (i in stack || i in l.parked))
    ensures forall t, u :: 0 <= t < u < |l.threads| && i in l.threads[t].held ==> i !in l.threads[u].held
  {
    assert Safety.Somewhere(l, stack, i);
  }

  // ----- What `remove` returns -----

  /** The value that each thread's last `add` was called with, after the step. */
  function Arguments(args: seq<nat>, a: Action): seq<nat> {
    if a.BeginAdd? && a.t < |args| then args[a.t := a.value] else args
  }

  /** The values that the adds which complete in the run were called with, in the order in which they
      complete. `args`: what each thread's last `add` before the run was called with. */
  function Completed(s: State, acts: seq<Action>, args: seq<nat>): seq<nat>
    decreases acts
  {
    if acts == [] || !Enabled(s, acts[0]) then []
    else
      (if |Do(s, acts[0]).adds| != |s.adds| && acts[0].t < |args| then [args[acts[0].t]] else [])
      + Completed(Do(s, acts[0]), acts[1..], Arguments(args, acts[0]))
  }

  /** The values that calls of `add` carry are the ones they were called with. */
  predicate Carried(s: State, args: seq<nat>) {
    && |args| == |s.pcs|
    && forall t :: 0 <= t < |s.pcs| && (s.pcs[t].AddAlloc? || s.pcs[t].AddSet?) ==> s.pcs[t].value == args[t]
  }

  /** A call that has cleared its bit and has not returned. */
  function Removing(pc: Pc): int {
    if HasId(pc) then 1 else 0
  }

  lemma StepCarries(s: State, a: Action, args: seq<nat>)
    requires Enabled(s, a) && Carried(s, args)
    ensures Carried(Do(s, a), Arguments(args, a)) && a.t < |s.pcs|
    ensures Do(s, a).adds == s.adds || Do(s, a).adds == s.adds + [args[a.t]]
  {
    hide FL.Do, BS.Do, HandOver, BS.Succeeds, FL.Enabled, BS.Enabled;
  }

  lemma StepRemoves(s: State, a: Action)
    requires Enabled(s, a)
    ensures |Do(s, a).taken| - |Do(s, a).results| - Sum(Do(s, a).pcs, Removing)
         == |s.taken| - |s.results| - Sum(s.pcs, Removing)
  {
    hide FL.Do, BS.Do, HandOver, BS.Succeeds, FL.Enabled, BS.Enabled, Sum;
    var pc' := Do(s, a).pcs[a.t];
    SumUpdate(s.pcs, a.t, pc', Removing);
    assert Do(s, a).pcs == s.pcs[a.t := pc'];
  }

  lemma {:induction false} RunCarries(s: State, acts: seq<Action>, s': State, args: seq<nat>)
    requires Runs(s, acts, s') && Carried(s, args)
    ensures s'.adds == s.adds + Completed(s, acts, args)
    decreases acts
  {
    hide Do, Enabled, WindowOk;
    if acts != [] {
      var a, mid := acts[0], Do(s, acts[0]);
      StepCarries(s, a, args);
      assert a.t < |args| by { assert |args| == |s.pcs|; }
      hide Carried, Arguments;
      RunCarries(mid, acts[1..], s', Arguments(args, a));
      if |mid.adds| == |s.adds| { assert mid.adds == s.adds; }
    }
  }

  lemma {:induction false} RunRemoves(s: State, acts: seq<Action>, s': State)
    requires Runs(s, acts, s')
    ensures |s'.taken| - |s'.results| - Sum(s'.pcs, Removing) == |s.taken| - |s.results| - Sum(s.pcs, Removing)
    decreases acts
  {
    hide Do, Enabled, Sum, WindowOk;
    if acts != [] {
      StepRemoves(s, acts[0]);
      RunRemoves(Do(s, acts[0]), acts[1..], s');
    }
  }

  /** Among any number of concurrent `add` and `remove` calls: each `remove` that returns `Some(v)`
      returns the value of the add whose bit it cleared, which is the value that `add` was called with;
      no add is removed twice; and each `remove` that cleared a bit has returned one value or is still
      on its way. */
  lemma RemoveReturnsItsAdd(capacity: nat, threads: nat, acts: seq<Action>, s: State)
    requires 0 < capacity <= FL.SENTINEL && Runs(Init(capacity, threads), acts, s)
    ensures s.adds == Completed(Init(capacity, threads), acts, seq(threads, _ => 0))
    ensures forall k :: 0 <= k < |s.results| ==>
              s.results[k].0 < |s.adds| && s.results[k].1 == s.adds[s.results[k].0]
    ensures forall j, k :: 0 <= j < k < |s.results| ==> s.results[j].0 != s.results[k].0
    ensures forall j, k :: 0 <= j < k < |s.taken| ==> s.taken[j] != s.taken[k]
    ensures |s.taken| == |s.results| + Sum(s.pcs, Removing)
  {
    hide Inv, Runs, Completed;
    var s0 := Init(capacity, threads);
    InitInv(capacity, threads);
    var stack := RunInv(s0, acts, s, Safety.InitStack(capacity));
    InvHistory(s, stack);
    RunCarries(s0, acts, s, seq(threads, _ => 0));
    RunRemoves(s0, acts, s);
    SumRepeat(threads, Idle, Removing);
  }

  lemma InvHistory(s: State, stack: seq<nat>)
    requires Inv(s, stack)
    ensures HistoryOk(s)
  {
  }

  /** In every run the result of `occupied.set` that `add` ignores is true. */
  lemma IgnoredResultIsTrue(capacity: nat, threads: nat, acts: seq<Action>, s: State, t: nat)
    requires 0 < capacity <= FL.SENTINEL && Runs(Init(capacity, threads), acts, s) && t < |s.pcs| == |s.bits.pcs|
    ensures s.pcs[t].AddSet? || s.pcs[t].AddDone? ==> s.bits.pcs[t].SetDone? ==> s.bits.pcs[t].added
  {
    hide FL.Pack, FL.HeadOf, FL.TagOf;
    InitInv(capacity, threads);
    var stack := RunInv(Init(capacity, threads), acts, s, Safety.InitStack(capacity));
    assert ThreadOk(s.pcs[t], s.list.threads[t], s.bits.pcs[t], s.data, s.adds);
  }
}
