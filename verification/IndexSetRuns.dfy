/** What else every run of `acquire` and `release` keeps: the borrowed counter and the lock-free
    progress bound. */
module IndexSetRuns {
  import opened Words
  import opened Sums
  import opened FreeList
  import opened FreeListSafety

  // ----- The borrowed counter -----

  /** The free-list with the separate 32-bit `borrowed` counter. `Return` carries the counter
      update that `acquire` and `release` make after their successful swap. */
  datatype CountedState = CountedState(list: State, borrowed: nat)

  function CountedDo(s: CountedState, a: Action): CountedState
    requires Enabled(s.list, a)
  {
    var pc := s.list.threads[a.t].pc;
    CountedState(Do(s.list, a),
                 if a.Return? && pc.Acquired? then (s.borrowed + 1) % U32
                 else if a.Return? && pc.Released? then (s.borrowed + U32 - 1) % U32
                 else s.borrowed)
  }

  predicate CountedRuns(s: CountedState, acts: seq<Action>, s': CountedState)
    decreases acts
  {
    if acts == [] then s' == s
    else Enabled(s.list, acts[0]) && CountedRuns(CountedDo(s, acts[0]), acts[1..], s')
  }

  /** A swap that took an index whose fetch_add is still to come. */
  function PendingAdd(th: Thread): int {
    if th.pc.Acquired? then 1 else 0
  }

  /** A swap that gave an index back whose fetch_sub is still to come. */
  function PendingSub(th: Thread): int {
    if th.pc.Released? then 1 else 0
  }

  function Weight(th: Thread): int {
    |th.held| - PendingAdd(th) + PendingSub(th)
  }

  /** The value the counter would have if it were unbounded. */
  function Ledger(s: State): int {
    |s.parked| + Sum(s.threads, Weight)
  }

  predicate LedgerInv(s: CountedState, stack: seq<nat>) {
    Inv(s.list, stack) && Ledger(s.list) >= 0 && s.borrowed == Ledger(s.list) % U32
  }

  lemma {:induction false} WeightSum(threads: seq<Thread>)
    ensures Sum(threads, Weight)
         == Sum(threads, HeldCount) - Sum(threads, PendingAdd) + Sum(threads, PendingSub)
  {
    if threads != [] { WeightSum(threads[..|threads| - 1]); }
  }

  /** The ledger: counter + pending fetch_adds - pending fetch_subs = capacity - free indices;
      a pending fetch_sub always finds something to subtract. */
  lemma LedgerBalances(s: State, stack: seq<nat>)
    requires Inv(s, stack)
    ensures Ledger(s) + Sum(s.threads, PendingAdd) - Sum(s.threads, PendingSub) == |s.mem.next| - |stack|
    ensures Ledger(s) >= Sum(s.threads, PendingSub) >= 0
    ensures Ledger(s) <= |s.mem.next| + |s.threads|
    ensures forall t :: 0 <= t < |s.threads| && s.threads[t].pc.Released? ==> Ledger(s) >= 1
  {
    WeightSum(s.threads);
    forall t | 0 <= t < |s.threads| ensures PendingSub(s.threads[t]) <= Weight(s.threads[t]) {
      assert ThreadShape(s.threads[t], s.mem);
    }
    SumOrder(s.threads, PendingSub, Weight);
    SumBounds0(s.threads, PendingSub);
    SumBounds(s.threads, PendingSub, 0, 1);
    SumBounds0(s.threads, PendingAdd);
    forall t | 0 <= t < |s.threads| && s.threads[t].pc.Released? ensures Ledger(s) >= 1 {
      SumAtLeast(s.threads, PendingSub, t);
    }
  }

  lemma LedgerStep(s: CountedState, a: Action, stack: seq<nat>)
    requires LedgerInv(s, stack) && Enabled(s.list, a) && NextCurrent(s.list, a)
    ensures LedgerInv(CountedDo(s, a), StackAfter(s.list, a, stack))
  {
    hide Inv, Ledger, Do;
    var l, l' := s.list, Do(s.list, a);
    InvStep(l, a, stack);
    LedgerBalances(l, stack);
    LedgerBalances(l', StackAfter(l, a, stack));
    LedgerMoves(l, a, stack);
    if a.Return? && l.threads[a.t].pc.Acquired? {
      ModIncrement(Ledger(l), U32);
    } else if a.Return? && l.threads[a.t].pc.Released? {
      ModDecrement(Ledger(l), U32);
    }
  }

  lemma LedgerMoves(l: State, a: Action, stack: seq<nat>)
    requires Inv(l, stack) && Enabled(l, a) && NextCurrent(l, a)
    ensures Ledger(Do(l, a)) == Ledger(l)
              + if a.Return? then PendingAdd(l.threads[a.t]) - PendingSub(l.threads[a.t]) else 0
  {
    hide Inv;
    var l' := Do(l, a);
    PlaceOf(l, stack, a.t);
    SumUpdate(l.threads, a.t, l'.threads[a.t], Weight);
    if a.CasAcquire? && Succeeds(l, a) {
      PopIsNew(l, a, stack);
    }
  }

  lemma PlaceOf(l: State, stack: seq<nat>, t: nat)
    requires Inv(l, stack) && t < |l.threads|
    ensures ThreadShape(l.threads[t], l.mem) && l.threads[t].held !! l.parked
  {
  }

  lemma PopIsNew(l: State, a: Action, stack: seq<nat>)
    requires Inv(l, stack) && Enabled(l, a) && NextCurrent(l, a) && a.CasAcquire? && Succeeds(l, a)
    ensures HeadOf(l.threads[a.t].pc.word) !in l.threads[a.t].held
  {
    TopIsHead(l, a, stack);
    assert stack[0] !in l.threads[a.t].held;
  }

  /** In every run the counter satisfies the ledger; it is exact at rest; and unless capacity and
      thread count together reach 2^32 it never wraps. */
  lemma {:induction false} BorrowedLedger(s: CountedState, acts: seq<Action>, s': CountedState, stack: seq<nat>)
    returns (stack': seq<nat>)
    requires LedgerInv(s, stack) && CountedRuns(s, acts, s') && AllCurrent(s.list, acts)
    ensures LedgerInv(s', stack')
    ensures |s'.list.mem.next| + |s'.list.threads| < U32 ==>
              s'.borrowed + Sum(s'.list.threads, PendingAdd) - Sum(s'.list.threads, PendingSub)
                == |s'.list.mem.next| - |stack'|
    ensures |s'.list.mem.next| + |s'.list.threads| < U32
            && (forall t :: 0 <= t < |s'.list.threads| ==> s'.list.threads[t].pc.Ready?)
            ==> s'.borrowed == |s'.list.mem.next| - |stack'|
    decreases acts
  {
    hide Inv, Ledger, Do;
    if acts == [] {
      stack' := stack;
      LedgerBalances(s.list, stack);
      if forall t :: 0 <= t < |s.list.threads| ==> s.list.threads[t].pc.Ready? {
        SumBounds(s.list.threads, PendingAdd, 0, 0);
        SumBounds(s.list.threads, PendingSub, 0, 0);
      }
    } else {
      LedgerStep(s, acts[0], stack);
      stack' := BorrowedLedger(CountedDo(s, acts[0]), acts[1..], s', StackAfter(s.list, acts[0], stack));
    }
  }

  lemma LedgerInit(capacity: nat, threads: nat)
    requires 0 < capacity <= SENTINEL
    ensures LedgerInv(CountedState(Init(capacity, threads), 0), InitStack(capacity))
  {
    InitInv(capacity, threads);
    IdleLedger(Init(capacity, threads));
  }

  lemma IdleLedger(s: State)
    requires s.parked == {} && s.threads == seq(|s.threads|, _ => Thread(Ready, {}))
    ensures Ledger(s) == 0
  {
    SumRepeat(|s.threads|, Thread(Ready, {}), Weight);
  }

  // ----- Lock-free progress -----

  /** A thread whose loaded word is out of date: its next swap can only fail. */
  function Stale(version: nat): Thread -> int {
    (th: Thread) =>
      match th.pc
      case AcqRead(_, seen) => if seen == version then 0 else 1
      case AcqCas(_, seen, _) => if seen == version then 0 else 1
      case RelStore(_, _, seen) => if seen == version then 0 else 1
      case RelCas(_, _, seen) => if seen == version then 0 else 1
      case _ => 0
  }

  function StaleCount(s: State): int {
    Sum(s.threads, Stale(s.mem.version))
  }

  predicate FailedSwap(s: State, a: Action)
    requires Enabled(s, a)
  {
    (a.CasAcquire? || a.CasRelease?) && !Succeeds(s, a)
  }

  predicate FailedSwapEnabled(s: State, a: Action) {
    Enabled(s, a) && FailedSwap(s, a)
  }

  function FailedSwaps(s: State, acts: seq<Action>): nat
    decreases acts
  {
    if acts == [] || !Enabled(s, acts[0]) then 0
    else (if FailedSwap(s, acts[0]) then 1 else 0) + FailedSwaps(Do(s, acts[0]), acts[1..])
  }

  function SuccessfulSwaps(s: State, acts: seq<Action>): nat
    decreases acts
  {
    if acts == [] || !Enabled(s, acts[0]) then 0
    else (if Succeeds(s, acts[0]) then 1 else 0) + SuccessfulSwaps(Do(s, acts[0]), acts[1..])
  }

  predicate NoSpuriousFailure(acts: seq<Action>) {
    forall a <- acts :: (a.CasAcquire? || a.CasRelease?) ==> !a.spurious
  }

  lemma {:induction false} SumOneFree<T>(xs: seq<T>, f: T -> int, k: nat)
    requires k < |xs| && f(xs[k]) == 0
    requires forall i :: 0 <= i < |xs| ==> f(xs[i]) <= 1
    ensures Sum(xs, f) <= |xs| - 1
  {
    var n := |xs| - 1;
    if k < n {
      SumOneFree(xs[..n], f, k);
    } else {
      SumAtMost(xs[..n], f);
    }
  }

  lemma {:induction false} SumAtMost<T>(xs: seq<T>, f: T -> int)
    requires forall i :: 0 <= i < |xs| ==> f(xs[i]) <= 1
    ensures Sum(xs, f) <= |xs|
  {
    if xs != [] { SumAtMost(xs[..|xs| - 1], f); }
  }

  /** One step: a success makes at most all other threads stale; a failure uses up a stale one. */
  lemma ProgressStep(s: State, a: Action)
    requires Shape(s) && Enabled(s, a) && ((a.CasAcquire? || a.CasRelease?) ==> !a.spurious)
    ensures Succeeds(s, a) ==> StaleCount(Do(s, a)) <= |s.threads| - 1
    ensures FailedSwap(s, a) ==> StaleCount(Do(s, a)) == StaleCount(s) - 1
    ensures !Succeeds(s, a) && !FailedSwap(s, a) ==> StaleCount(Do(s, a)) <= StaleCount(s)
  {
    hide Shape, ThreadShape, Do, Succeeds, StaleCount;
    if Succeeds(s, a) {
      SwapStale(s, a);
    } else {
      if FailedSwap(s, a) { FailedWasStale(s, a); }
      StalenessOf(s, a);
      StaleMoves(s, a);
    }
  }

  lemma SwapStale(s: State, a: Action)
    requires Enabled(s, a) && Succeeds(s, a)
    ensures StaleCount(Do(s, a)) <= |s.threads| - 1
  {
    var s' := Do(s, a);
    SumOneFree(s'.threads, Stale(s'.mem.version), a.t);
  }

  lemma StaleMoves(s: State, a: Action)
    requires Enabled(s, a) && !Succeeds(s, a)
    ensures var f := Stale(s.mem.version);
            StaleCount(Do(s, a)) == StaleCount(s) - f(s.threads[a.t]) + f(Do(s, a).threads[a.t])
  {
    SumUpdate(s.threads, a.t, Do(s, a).threads[a.t], Stale(s.mem.version));
  }

  /** How stale the moving thread itself is before and after a step that updates no head. */
  lemma StalenessOf(s: State, a: Action)
    requires Enabled(s, a) && !Succeeds(s, a)
    requires FailedSwap(s, a) ==> s.threads[a.t].pc.seen != s.mem.version
    ensures var f := Stale(s.mem.version);
            && f(Do(s, a).threads[a.t]) <= f(s.threads[a.t])
            && (FailedSwap(s, a) ==> f(Do(s, a).threads[a.t]) == 0 && f(s.threads[a.t]) == 1)
  {
  }

  lemma FailedWasStale(s: State, a: Action)
    requires Shape(s) && FailedSwapEnabled(s, a) && !a.spurious
    ensures s.threads[a.t].pc.seen != s.mem.version
  {
    assert ThreadShape(s.threads[a.t], s.mem);
  }

  /** In every run with strong compare-and-swap, whatever the tags do: failed swaps plus threads
      now stale is at most (T - 1) times the successful swaps. */
  lemma {:induction false} LockFreeProgress(s: State, acts: seq<Action>, s': State)
    requires Shape(s) && Runs(s, acts, s') && NoSpuriousFailure(acts)
    ensures FailedSwaps(s, acts) + StaleCount(s')
              <= StaleCount(s) + (|s.threads| - 1) * SuccessfulSwaps(s, acts)
    decreases acts
  {
    hide Shape, Do, StaleCount, FailedSwap, Succeeds;
    if acts != [] {
      var mid := Do(s, acts[0]);
      assert acts[0] in acts;
      ShapeStep(s, acts[0]);
      ProgressBudget(s, acts[0]);
      LockFreeProgress(mid, acts[1..], s');
      Accumulate(if FailedSwap(s, acts[0]) then 1 else 0, FailedSwaps(mid, acts[1..]),
                 StaleCount(s), StaleCount(mid), StaleCount(s'), |s.threads| - 1,
                 Succeeds(s, acts[0]), SuccessfulSwaps(mid, acts[1..]));
    }
  }

  lemma ProgressBudget(s: State, a: Action)
    requires Shape(s) && Enabled(s, a) && ((a.CasAcquire? || a.CasRelease?) ==> !a.spurious)
    ensures (if FailedSwap(s, a) then 1 else 0) + StaleCount(Do(s, a))
              <= StaleCount(s) + if Succeeds(s, a) then |s.threads| - 1 else 0
    ensures |Do(s, a).threads| == |s.threads|
  {
    ProgressStep(s, a);
    SumBounds0(s.threads, Stale(s.mem.version));
  }

  lemma Accumulate(fail: int, fails: int, before: int, between: int, after: int, d: int, win: bool, wins: int)
    requires fail + between <= before + if win then d else 0
    requires fails + after <= between + d * wins
    ensures fail + fails + after <= before + d * ((if win then 1 else 0) + wins)
  {
    assert d * (1 + wins) == d + d * wins;
  }

  lemma ProgressFromStart(capacity: nat, threads: nat, acts: seq<Action>, s': State)
    requires 0 < capacity <= SENTINEL
    requires Runs(Init(capacity, threads), acts, s') && NoSpuriousFailure(acts)
    ensures FailedSwaps(Init(capacity, threads), acts) + StaleCount(s')
              <= (threads - 1) * SuccessfulSwaps(Init(capacity, threads), acts)
  {
    InitShape(capacity, threads);
    SumRepeat(threads, Thread(Ready, {}), Stale(0));
    LockFreeProgress(Init(capacity, threads), acts, s');
  }
}
