/** `MpmcContainer` as a step machine: the free-list, the occupancy bits and the data array under
    any number of concurrent `add` and `remove` calls. */
module MpmcSteps {
  import FL = FreeList
  import BS = BitSetSteps

  /** Where a call stands. `id` numbers the add whose bit a `remove` cleared; the code has no such
      number. */
  datatype Pc =
    | Idle
    | AddAlloc(value: nat)               // in alloc_slot; its result is in the free-list's pc
    | AddSet(value: nat, slot: nat)      // value stored, setting the occupancy bit
    | AddDone(slot: nat)                 // bit set
    | RemClear(slot: nat)                // clearing the occupancy bit
    | RemLoad(slot: nat, id: nat)        // bit cleared, about to load the value
    | RemFree(slot: nat, id: nat, value: nat)

  /** `adds`: the values of the completed adds. `current`: the add that each occupied slot holds.
      `taken`: the adds whose bit a `remove` cleared, in order. `results`: what finished `remove`
      calls returned, with the add they removed. None of the four is in the code. */
  datatype State = State(
    list: FL.State, bits: BS.State, data: seq<nat>, pcs: seq<Pc>,
    adds: seq<nat>, current: map<nat, nat>, taken: seq<nat>, results: seq<(nat, nat)>)

  datatype Action =
    | BeginAdd(t: nat, value: nat)
    | AllocStep(t: nat, la: FL.Action)
    | StoreData(t: nat)
    | SetBitStep(t: nat, ba: BS.Action)
    | BeginRemove(t: nat, slot: nat)
    | ClearBitStep(t: nat, spurious: bool)
    | LoadData(t: nat)
    | FreeStep(t: nat, la: FL.Action)
    | Finish(t: nat)

  function Init(capacity: nat, threads: nat): State {
    State(FL.Init(capacity, threads), BS.Init(capacity, threads), seq(capacity, _ => 0),
          seq(threads, _ => Idle), [], map[], [], [])
  }

  predicate Sized(s: State) {
    |s.pcs| == |s.list.threads| == |s.bits.pcs|
  }

  /** A call is over: its last free-list or bit operation has a result. */
  predicate Finished(s: State, t: nat)
    requires t < |s.list.threads| && t < |s.bits.pcs| && t < |s.pcs|
  {
    match s.pcs[t]
    case AddAlloc(_) => s.list.threads[t].pc.Exhausted?
    case AddSet(_, _) => s.bits.pcs[t].SetDone?
    case AddDone(_) => s.bits.pcs[t].SetDone?
    case RemClear(_) => s.bits.pcs[t].ClearDone? && !s.bits.pcs[t].found
    case RemFree(_, _, _) => s.list.threads[t].pc.Released?
    case _ => false
  }

  predicate Enabled(s: State, a: Action) {
    && Sized(s) && a.t < |s.pcs|
    && var pc := s.pcs[a.t];
       match a
       case BeginAdd(t, _) => pc.Idle? && FL.Enabled(s.list, FL.BeginAcquire(t))
       case AllocStep(t, la) => pc.AddAlloc? && la.t == t && (la.ReadNext? || la.CasAcquire?)
         && FL.Enabled(s.list, la)
       case StoreData(t) =>
         pc.AddAlloc? && s.list.threads[t].pc.Acquired? && s.list.threads[t].pc.idx < |s.data|
       case SetBitStep(t, ba) =>
         && pc.AddSet? && ba.t == t && (ba == BS.BeginSet(t, pc.slot) || ba.CasSet?)
         && BS.Enabled(s.bits, ba)
       case BeginRemove(t, slot) => pc.Idle? && BS.Enabled(s.bits, BS.BeginClear(t, slot))
       case ClearBitStep(t, spurious) => pc.RemClear? && BS.Enabled(s.bits, BS.CasClear(t, spurious))
       case LoadData(t) => pc.RemLoad? && pc.slot < |s.data| && s.bits.pcs[t].ClearDone?
       case FreeStep(t, la) =>
         && pc.RemFree? && la.t == t
         && (la == FL.BeginRelease(t, pc.slot) || la.StoreNext? || la.CasRelease?)
         && FL.Enabled(s.list, la)
       case Finish(t) => Finished(s, t)
  }

  /** Hand-overs between a thread and the table are bookkeeping only. */
  function HandOver(list: FL.State, la: FL.Action): FL.State {
    if FL.Enabled(list, la) then FL.Do(list, la) else list
  }

  function Do(s: State, a: Action): State
    requires Enabled(s, a)
  {
    var pc := s.pcs[a.t];
    match a
    case BeginAdd(t, v) =>
      s.(list := FL.Do(s.list, FL.BeginAcquire(t)), pcs := s.pcs[t := AddAlloc(v)])
    case AllocStep(t, la) => s.(list := FL.Do(s.list, la))
    case StoreData(t) =>
      var slot := s.list.threads[t].pc.idx;
      s.(list := FL.Do(s.list, FL.Return(t)), data := s.data[slot := pc.value],
         pcs := s.pcs[t := AddSet(pc.value, slot)])
    case SetBitStep(t, ba) =>
      if BS.Succeeds(s.bits, ba) then
        s.(bits := BS.Do(s.bits, ba), list := HandOver(s.list, FL.Park(t, pc.slot)),
           adds := s.adds + [pc.value], current := s.current[pc.slot := |s.adds|],
           pcs := s.pcs[t := AddDone(pc.slot)])
      else s.(bits := BS.Do(s.bits, ba))
    case BeginRemove(t, slot) =>
      s.(bits := BS.Do(s.bits, BS.BeginClear(t, slot)), pcs := s.pcs[t := RemClear(slot)])
    case ClearBitStep(t, spurious) =>
      var ba := BS.CasClear(t, spurious);
      if BS.Succeeds(s.bits, ba) then
        var id := if pc.slot in s.current then s.current[pc.slot] else 0;
        s.(bits := BS.Do(s.bits, ba), list := HandOver(s.list, FL.Take(t, pc.slot)),
           current := s.current - {pc.slot}, taken := s.taken + [id],
           pcs := s.pcs[t := RemLoad(pc.slot, id)])
      else s.(bits := BS.Do(s.bits, ba))
    case LoadData(t) =>
      s.(bits := BS.Do(s.bits, BS.Return(t)), pcs := s.pcs[t := RemFree(pc.slot, pc.id, s.data[pc.slot])])
    case FreeStep(t, la) => s.(list := FL.Do(s.list, la))
    case Finish(t) =>
      if pc.AddAlloc? then s.(list := FL.Do(s.list, FL.Return(t)), pcs := s.pcs[t := Idle])
      else if pc.RemFree? then
        s.(list := FL.Do(s.list, FL.Return(t)), pcs := s.pcs[t := Idle],
           results := s.results + [(pc.id, pc.value)])
      else s.(bits := BS.Do(s.bits, BS.Return(t)), pcs := s.pcs[t := Idle])
  }

  /** The tag assumption of the free-list, for the swaps of `alloc_slot`. */
  predicate WindowOk(s: State, a: Action)
    requires Enabled(s, a)
  {
    a.AllocStep? ==> FL.WindowOk(s.list, a.la)
  }

  predicate Runs(s: State, acts: seq<Action>, s': State)
    decreases acts
  {
    if acts == [] then s' == s
    else Enabled(s, acts[0]) && WindowOk(s, acts[0]) && Runs(Do(s, acts[0]), acts[1..], s')
  }
}
