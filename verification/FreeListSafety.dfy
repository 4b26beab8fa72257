/** The free-list step machine refines an atomic stack of free indices; every index is in
    exactly one place. */
module FreeListSafety {
  import opened Words
  import opened Sums
  import opened FreeList

  // ----- The chain of free indices -----

  function NextOnStack(stack: seq<nat>, k: nat): nat {
    if k < |stack| then stack[k] else SENTINEL
  }

  /** Following `next` from the head visits `stack` in order and then meets SENTINEL. */
  predicate IsChain(next: seq<nat>, head: nat, stack: seq<nat>) {
    && head == NextOnStack(stack, 0)
    && (forall k :: 0 <= k < |stack| ==> stack[k] < |next|)
    && forall k {:trigger next[stack[k]]} :: 0 <= k < |stack| ==> next[stack[k]] == NextOnStack(stack, k + 1)
  }

  predicate Distinct(stack: seq<nat>) {
    forall j, k :: 0 <= j < k < |stack| ==> stack[j] != stack[k]
  }

  // ----- Every index in exactly one place -----

  predicate Disjoint(s: State, stack: seq<nat>) {
    && Distinct(stack)
    && (forall k :: 0 <= k < |stack| ==> stack[k] !in s.parked)
    && (forall k, t :: 0 <= k < |stack| && 0 <= t < |s.threads| ==> stack[k] !in s.threads[t].held)
    && (forall t :: 0 <= t < |s.threads| ==> s.threads[t].held !! s.parked)
    && (forall t, u :: 0 <= t < u < |s.threads| ==> s.threads[t].held !! s.threads[u].held)
  }

  /** Index `i` is free, or handed over, or held by some thread. */
  predicate Somewhere(s: State, stack: seq<nat>, i: nat) {
    i in stack || i in s.parked || exists t :: 0 <= t < |s.threads| && i in s.threads[t].held
  }

  predicate Covered(s: State, stack: seq<nat>) {
    forall i: nat :: i < |s.mem.next| ==> Somewhere(s, stack, i)
  }

  function HeldCount(th: Thread): int {
    |th.held|
  }

  predicate Counted(s: State, stack: seq<nat>) {
    |stack| + |s.parked| + Sum(s.threads, HeldCount) == |s.mem.next|
  }

  /** While the version has not moved, what a thread read is still there. */
  predicate Current(th: Thread, m: Memory) {
    match th.pc
    case AcqCas(word, seen, nx) =>
      HeadOf(word) < |m.next| && (seen == m.version ==> nx == m.next[HeadOf(word)])
    case RelCas(i, word, seen) => i < |m.next| && m.next[i] == HeadOf(word)
    case _ => true
  }

  predicate Inv(s: State, stack: seq<nat>) {
    && Shape(s)
    && IsChain(s.mem.next, HeadOf(s.mem.head), stack)
    && Disjoint(s, stack)
    && Covered(s, stack)
    && Counted(s, stack)
    && forall t :: 0 <= t < |s.threads| ==> Current(s.threads[t], s.mem)
  }

  function StackAfter(s: State, a: Action, stack: seq<nat>): seq<nat>
    requires Enabled(s, a)
  {
    if !Succeeds(s, a) then stack
    else if a.CasRelease? then [s.threads[a.t].pc.idx] + stack
    else if stack == [] then []
    else stack[1..]
  }

  function InitStack(capacity: nat): seq<nat> {
    seq(capacity, i => i)
  }

  lemma InitInv(capacity: nat, threads: nat)
    requires 0 < capacity <= SENTINEL
    ensures Inv(Init(capacity, threads), InitStack(capacity))
  {
    var s := Init(capacity, threads);
    assert HeadOf(s.mem.head) == 0 by { PackFields(0, 0); }
    InitShape(capacity, threads);
    FreshInv(s, capacity);
  }

  lemma FreshInv(s: State, capacity: nat)
    requires Shape(s) && HeadOf(s.mem.head) == 0 && s.mem.next == InitNext(capacity)
    requires s.parked == {} && s.threads == seq(|s.threads|, _ => Thread(Ready, {}))
    ensures Inv(s, InitStack(capacity))
  {
    hide Pack, HeadOf, TagOf;
    SumRepeat(|s.threads|, Thread(Ready, {}), HeldCount);
    InitPlaces(s, capacity);
    InitChain(capacity);
  }

  lemma InitPlaces(s: State, capacity: nat)
    requires s.parked == {} && |s.mem.next| == capacity
    requires forall t :: 0 <= t < |s.threads| ==> s.threads[t].held == {}
    ensures Disjoint(s, InitStack(capacity)) && Covered(s, InitStack(capacity))
  {
    var stack := InitStack(capacity);
    forall i: nat | i < |s.mem.next| ensures Somewhere(s, stack, i) {
      assert stack[i] == i;
    }
  }

  lemma InitChain(capacity: nat)
    requires 0 < capacity
    ensures IsChain(InitNext(capacity), 0, InitStack(capacity))
  {
  }

  /** The heart of the tag argument: a compare-and-swap that succeeds on the packed word, inside
      the window, proves that no head update happened since the word was loaded, and therefore
      that the `next` value read after it is still the current one. */
  lemma CasProvesNextCurrent(s: State, a: Action, stack: seq<nat>)
    requires Inv(s, stack) && Enabled(s, a) && a.CasAcquire? && Succeeds(s, a) && WindowOk(s, a)
    ensures var pc := s.threads[a.t].pc;
            && pc.seen == s.mem.version
            && HeadOf(pc.word) == HeadOf(s.mem.head) < |s.mem.next|
            && pc.nx == s.mem.next[HeadOf(s.mem.head)]
  {
    hide Pack, HeadOf, TagOf;
    var th := s.threads[a.t];
    assert ThreadShape(th, s.mem) && Current(th, s.mem);
    ModInjective(th.pc.seen, s.mem.version, U32);
  }

  // ----- Preservation, one kind of step at a time -----

  lemma AcquireKeeps(s: State, a: Action, stack: seq<nat>)
    requires Inv(s, stack) && Enabled(s, a) && a.CasAcquire? && Succeeds(s, a)
    requires s.threads[a.t].pc.nx == s.mem.next[HeadOf(s.threads[a.t].pc.word)]
    ensures stack != [] && HeadOf(s.threads[a.t].pc.word) == stack[0]
    ensures Inv(Do(s, a), stack[1..])
  {
    hide Pack, HeadOf, TagOf;
    var s', th := Do(s, a), s.threads[a.t];
    SwapShape(s, a);
    assert ThreadShape(th, s.mem);
    var i := HeadOf(th.pc.word);
    assert i == stack[0];
    var rest := stack[1..];
    assert forall k :: 0 <= k < |rest| ==> rest[k] == stack[k + 1];
    SumUpdate(s.threads, a.t, s'.threads[a.t], HeldCount);
    HoldIndex(s, s', a.t, i, stack);
    CurrentAfterSwap(s, a);
  }

  /** Moving the top of the stack to thread `t` keeps every index in exactly one place. */
  lemma HoldIndex(s: State, s': State, t: nat, i: nat, stack: seq<nat>)
    requires Disjoint(s, stack) && Covered(s, stack) && stack != [] && stack[0] == i
    requires t < |s.threads| == |s'.threads| && s'.parked == s.parked && |s'.mem.next| == |s.mem.next|
    requires s'.threads[t].held == s.threads[t].held + {i}
    requires forall u :: 0 <= u < |s.threads| && u != t ==> s'.threads[u].held == s.threads[u].held
    ensures Disjoint(s', stack[1..]) && Covered(s', stack[1..])
  {
    var rest := stack[1..];
    assert forall k :: 0 <= k < |rest| ==> rest[k] == stack[k + 1];
    forall j: nat | j < |s'.mem.next| ensures Somewhere(s', rest, j) {
      assert Somewhere(s, stack, j);
      if j in stack {
        var k :| 0 <= k < |stack| && stack[k] == j;
        if k == 0 {
          assert j in s'.threads[t].held;
        } else {
          assert rest[k - 1] == j;
        }
      } else if j !in s.parked {
        var u :| 0 <= u < |s.threads| && j in s.threads[u].held;
        assert j in s'.threads[u].held;
      }
    }
  }

  lemma ReleaseKeeps(s: State, a: Action, stack: seq<nat>)
    requires Inv(s, stack) && Enabled(s, a) && a.CasRelease? && Succeeds(s, a)
    ensures s.threads[a.t].pc.idx in s.threads[a.t].held
    ensures Inv(Do(s, a), [s.threads[a.t].pc.idx] + stack)
  {
    hide Pack, HeadOf, TagOf;
    var s', th := Do(s, a), s.threads[a.t];
    SwapShape(s, a);
    assert ThreadShape(th, s.mem) && Current(th, s.mem);
    var i := th.pc.idx;
    ChainPush(s.mem.next, HeadOf(s.mem.head), stack, i);
    SumUpdate(s.threads, a.t, s'.threads[a.t], HeldCount);
    FreeIndex(s, s', a.t, i, stack);
    CurrentAfterSwap(s, a);
  }

  lemma ChainPush(next: seq<nat>, head: nat, stack: seq<nat>, i: nat)
    requires IsChain(next, head, stack) && i < |next| && next[i] == head
    ensures IsChain(next, i, [i] + stack)
  {
    var stack' := [i] + stack;
    assert forall k :: 0 < k < |stack'| ==> stack'[k] == stack[k - 1];
  }

  /** What follows an element of a chain is a chain. */
  lemma ChainSuffix(next: seq<nat>, head: nat, stack: seq<nat>, k: nat)
    requires k < |stack| && IsChain(next, head, stack)
    ensures IsChain(next, stack[k], stack[k..])
  {
    var rest := stack[k..];
    assert forall j :: 0 <= j < |rest| ==> rest[j] == stack[j + k];
  }

  /** A head update makes every other word that is still being used stale. */
  lemma CurrentAfterSwap(s: State, a: Action)
    requires Shape(s) && Enabled(s, a) && Succeeds(s, a)
    requires forall t :: 0 <= t < |s.threads| ==> Current(s.threads[t], s.mem)
    ensures forall t :: 0 <= t < |Do(s, a).threads| ==> Current(Do(s, a).threads[t], Do(s, a).mem)
  {
    hide Pack, HeadOf, TagOf;
    var s' := Do(s, a);
    forall u | 0 <= u < |s'.threads| ensures Current(s'.threads[u], s'.mem) {
      assert Current(s.threads[u], s.mem) && ThreadShape(s.threads[u], s.mem);
    }
  }

  lemma FreeIndex(s: State, s': State, t: nat, i: nat, stack: seq<nat>)
    requires Disjoint(s, stack) && Covered(s, stack)
    requires t < |s.threads| == |s'.threads| && s'.parked == s.parked && |s'.mem.next| == |s.mem.next|
    requires i in s.threads[t].held && s'.threads[t].held == s.threads[t].held - {i}
    requires forall u :: 0 <= u < |s.threads| && u != t ==> s'.threads[u].held == s.threads[u].held
    ensures Disjoint(s', [i] + stack) && Covered(s', [i] + stack)
  {
    var stack' := [i] + stack;
    assert forall k :: 0 < k < |stack'| ==> stack'[k] == stack[k - 1];
    forall j: nat | j < |s'.mem.next| ensures Somewhere(s', stack', j) {
      assert Somewhere(s, stack, j);
      if j == i {
        assert stack'[0] == j;
      } else if j in stack {
        assert j in stack';
      } else if j !in s.parked {
        var u :| 0 <= u < |s.threads| && j in s.threads[u].held;
        assert j in s'.threads[u].held;
      }
    }
  }

  lemma StoreKeeps(s: State, a: Action, stack: seq<nat>)
    requires Inv(s, stack) && Enabled(s, a) && a.StoreNext?
    ensures Inv(Do(s, a), stack)
  {
    StoreShape(s, a);
    StoreKeepsCurrent(s, a, stack);
    StoreKeepsChain(s, a, stack);
    hide Pack, HeadOf, TagOf, Shape, Current, IsChain;
    var s', th := Do(s, a), s.threads[a.t];
    SumUpdate(s.threads, a.t, s'.threads[a.t], HeldCount);
    SamePlaces(s, s', stack);
  }

  lemma StoreKeepsChain(s: State, a: Action, stack: seq<nat>)
    requires Inv(s, stack) && Enabled(s, a) && a.StoreNext?
    ensures IsChain(Do(s, a).mem.next, HeadOf(Do(s, a).mem.head), stack)
  {
    hide Pack, HeadOf, TagOf;
    assert ThreadShape(s.threads[a.t], s.mem);
  }

  lemma StoreKeepsCurrent(s: State, a: Action, stack: seq<nat>)
    requires Inv(s, stack) && Enabled(s, a) && a.StoreNext?
    ensures forall u :: 0 <= u < |Do(s, a).threads| ==> Current(Do(s, a).threads[u], Do(s, a).mem)
  {
    hide Pack, HeadOf, TagOf;
    var s' := Do(s, a);
    assert ThreadShape(s.threads[a.t], s.mem);
    forall u | 0 <= u < |s'.threads| ensures Current(s'.threads[u], s'.mem) {
      assert Current(s.threads[u], s.mem) && ThreadShape(s.threads[u], s.mem);
      if u != a.t && s.threads[u].pc.AcqCas? && s.threads[u].pc.seen == s.mem.version {
        assert HeadOf(s.mem.head) == stack[0];
      }
    }
  }

  lemma SamePlaces(s: State, s': State, stack: seq<nat>)
    requires Disjoint(s, stack) && Covered(s, stack)
    requires |s.threads| == |s'.threads| && s'.parked == s.parked && |s'.mem.next| == |s.mem.next|
    requires forall u :: 0 <= u < |s.threads| ==> s'.threads[u].held == s.threads[u].held
    ensures Disjoint(s', stack) && Covered(s', stack)
  {
    forall j: nat | j < |s'.mem.next| ensures Somewhere(s', stack, j) {
      assert Somewhere(s, stack, j);
      if j !in stack && j !in s.parked {
        var u :| 0 <= u < |s.threads| && j in s.threads[u].held;
        assert j in s'.threads[u].held;
      }
    }
  }

  lemma LocalKeeps(s: State, a: Action, stack: seq<nat>)
    requires Inv(s, stack) && Enabled(s, a) && !Succeeds(s, a)
    requires !a.StoreNext? && !a.Park? && !a.Take?
    ensures Inv(Do(s, a), stack)
  {
    hide Pack, HeadOf, TagOf;
    var s' := Do(s, a);
    LocalShape(s, a);
    SumUpdate(s.threads, a.t, s'.threads[a.t], HeldCount);
    SamePlaces(s, s', stack);
    forall u | 0 <= u < |s'.threads| ensures Current(s'.threads[u], s'.mem) {
      assert Current(s.threads[u], s.mem) && ThreadShape(s.threads[u], s.mem);
    }
  }

  lemma HandOverKeeps(s: State, a: Action, stack: seq<nat>)
    requires Inv(s, stack) && Enabled(s, a) && (a.Park? || a.Take?)
    ensures Inv(Do(s, a), stack)
  {
    hide Pack, HeadOf, TagOf;
    var s' := Do(s, a);
    LocalShape(s, a);
    if a.Park? {
      ParkPlaces(s, s', a.t, a.i, stack);
    } else {
      TakePlaces(s, s', a.t, a.i, stack);
    }
    HandOverCount(s, a, stack);
  }

  lemma HandOverCount(s: State, a: Action, stack: seq<nat>)
    requires Counted(s, stack) && Enabled(s, a) && (a.Park? || a.Take?)
    requires s.threads[a.t].held !! s.parked
    ensures Counted(Do(s, a), stack)
  {
    var s' := Do(s, a);
    SumUpdate(s.threads, a.t, s'.threads[a.t], HeldCount);
  }

  lemma ParkPlaces(s: State, s': State, t: nat, i: nat, stack: seq<nat>)
    requires Disjoint(s, stack) && Covered(s, stack) && |s.threads| == |s'.threads| && s'.mem == s.mem
    requires t < |s.threads| && i in s.threads[t].held && s'.threads[t].held == s.threads[t].held - {i}
    requires s'.parked == s.parked + {i}
    requires forall u :: 0 <= u < |s.threads| && u != t ==> s'.threads[u].held == s.threads[u].held
    ensures Disjoint(s', stack) && Covered(s', stack)
  {
    forall j: nat | j < |s'.mem.next| ensures Somewhere(s', stack, j) {
      assert Somewhere(s, stack, j);
      if j !in stack && j !in s'.parked {
        var u :| 0 <= u < |s.threads| && j in s.threads[u].held;
        assert j in s'.threads[u].held;
      }
    }
  }

  lemma TakePlaces(s: State, s': State, t: nat, i: nat, stack: seq<nat>)
    requires Disjoint(s, stack) && Covered(s, stack) && |s.threads| == |s'.threads| && s'.mem == s.mem
    requires t < |s.threads| && i in s.parked && s'.threads[t].held == s.threads[t].held + {i}
    requires s'.parked == s.parked - {i}
    requires forall u :: 0 <= u < |s.threads| && u != t ==> s'.threads[u].held == s.threads[u].held
    ensures Disjoint(s', stack) && Covered(s', stack)
  {
    forall j: nat | j < |s'.mem.next| ensures Somewhere(s', stack, j) {
      assert Somewhere(s, stack, j);
      if j == i {
        assert j in s'.threads[t].held;
      } else if j !in stack && j !in s.parked {
        var u :| 0 <= u < |s.threads| && j in s.threads[u].held;
        assert j in s'.threads[u].held;
      }
    }
  }

  lemma WindowGivesNext(s: State, a: Action, stack: seq<nat>)
    requires Inv(s, stack) && Enabled(s, a) && WindowOk(s, a)
    ensures NextCurrent(s, a)
  {
    if a.CasAcquire? && Succeeds(s, a) { CasProvesNextCurrent(s, a, stack); }
  }

  lemma TopIsHead(s: State, a: Action, stack: seq<nat>)
    requires Inv(s, stack) && Enabled(s, a) && a.CasAcquire? && Succeeds(s, a)
    ensures s.threads[a.t].pc.word == s.mem.head && HeadOf(s.mem.head) < |s.mem.next|
    ensures stack != [] && stack[0] == HeadOf(s.mem.head)
  {
    hide Pack, HeadOf, TagOf;
    assert ThreadShape(s.threads[a.t], s.mem);
  }

  lemma InvStep(s: State, a: Action, stack: seq<nat>)
    requires Inv(s, stack) && Enabled(s, a) && NextCurrent(s, a)
    ensures Inv(Do(s, a), StackAfter(s, a, stack))
  {
    if Succeeds(s, a) && a.CasAcquire? {
      TopIsHead(s, a, stack);
      AcquireKeeps(s, a, stack);
    } else if Succeeds(s, a) {
      ReleaseKeeps(s, a, stack);
    } else if a.StoreNext? {
      StoreKeeps(s, a, stack);
    } else if a.Park? || a.Take? {
      HandOverKeeps(s, a, stack);
    } else {
      LocalKeeps(s, a, stack);
    }
  }

  lemma EmptyAtSentinel(s: State, stack: seq<nat>)
    requires Inv(s, stack)
    ensures HeadOf(s.mem.head) == SENTINEL <==> stack == []
  {
    hide HeadOf;
  }

  // ----- Refinement: every concurrent run is a run of an atomic stack -----

  datatype Spec = Spec(stack: seq<nat>, held: seq<set<nat>>, parked: set<nat>)

  datatype SpecOp =
    | Pop(t: nat, i: nat)
    | PopEmpty(t: nat)
    | Push(t: nat, i: nat)
    | HandOver(t: nat, i: nat)
    | TakeOver(t: nat, i: nat)
    | Stutter

  predicate SpecStep(p: Spec, op: SpecOp, p': Spec) {
    match op
    case Pop(t, i) =>
      && t < |p.held| && p.stack != [] && i == p.stack[0]
      && p' == Spec(p.stack[1..], p.held[t := p.held[t] + {i}], p.parked)
    case PopEmpty(t) => t < |p.held| && p.stack == [] && p' == p
    case Push(t, i) =>
      && t < |p.held| && i in p.held[t]
      && p' == Spec([i] + p.stack, p.held[t := p.held[t] - {i}], p.parked)
    case HandOver(t, i) =>
      && t < |p.held| && i in p.held[t]
      && p' == Spec(p.stack, p.held[t := p.held[t] - {i}], p.parked + {i})
    case TakeOver(t, i) =>
      && t < |p.held| && i in p.parked
      && p' == Spec(p.stack, p.held[t := p.held[t] + {i}], p.parked - {i})
    case Stutter => p' == p
  }

  predicate SpecRuns(p: Spec, ops: seq<SpecOp>, states: seq<Spec>, p': Spec)
    decreases ops
  {
    |states| == |ops| &&
    if ops == [] then p' == p
    else SpecStep(p, ops[0], states[0]) && SpecRuns(states[0], ops[1..], states[1..], p')
  }

  function Abs(s: State, stack: seq<nat>): Spec {
    Spec(stack, seq(|s.threads|, t requires 0 <= t < |s.threads| => s.threads[t].held), s.parked)
  }

  /** The point at which a step takes effect: a successful swap is the pop or the push, and a
      load that sees SENTINEL is the failed pop. */
  function OpOf(s: State, a: Action): SpecOp
    requires Enabled(s, a)
  {
    match a
    case CasAcquire(t, _) =>
      if Succeeds(s, a) then Pop(t, HeadOf(s.threads[t].pc.word)) else LoadOp(s, t)
    case BeginAcquire(t) => LoadOp(s, t)
    case CasRelease(t, _) => if Succeeds(s, a) then Push(t, s.threads[t].pc.idx) else Stutter
    case Park(t, i) => HandOver(t, i)
    case Take(t, i) => TakeOver(t, i)
    case _ => Stutter
  }

  function LoadOp(s: State, t: nat): SpecOp {
    if HeadOf(s.mem.head) == SENTINEL then PopEmpty(t) else Stutter
  }

  /** Each step is the atomic operation `OpOf` names, and the caller's result is the one that
      operation gives: `Ok(i)` for a pop of `i`, `Err` for a pop of the empty stack. */
  lemma StepRefines(s: State, a: Action, stack: seq<nat>)
    requires Inv(s, stack) && Enabled(s, a) && NextCurrent(s, a)
    ensures SpecStep(Abs(s, stack), OpOf(s, a), Abs(Do(s, a), StackAfter(s, a, stack)))
    ensures var op, pc := OpOf(s, a), Do(s, a).threads[a.t].pc;
            && (op.Pop? <==> pc.Acquired?) && (op.Pop? ==> pc.idx == op.i)
            && (op.PopEmpty? <==> pc.Exhausted?)
            && (op.Push? <==> pc.Released?) && (op.Push? ==> pc.idx == op.i)
  {
    hide Pack, HeadOf, TagOf;
    assert ThreadShape(s.threads[a.t], s.mem);
    if Succeeds(s, a) {
      SwapRefines(s, a, stack);
    } else {
      LocalRefines(s, a, stack);
    }
  }

  lemma SwapRefines(s: State, a: Action, stack: seq<nat>)
    requires Inv(s, stack) && Enabled(s, a) && NextCurrent(s, a) && Succeeds(s, a)
    ensures SpecStep(Abs(s, stack), OpOf(s, a), Abs(Do(s, a), StackAfter(s, a, stack)))
  {
    hide Pack, HeadOf, TagOf;
    var p, p' := Abs(s, stack), Abs(Do(s, a), StackAfter(s, a, stack));
    assert ThreadShape(s.threads[a.t], s.mem);
    if a.CasAcquire? {
      TopIsHead(s, a, stack);
      assert p'.held == p.held[a.t := p.held[a.t] + {stack[0]}];
    } else {
      assert p'.held == p.held[a.t := p.held[a.t] - {s.threads[a.t].pc.idx}];
    }
  }

  lemma LocalRefines(s: State, a: Action, stack: seq<nat>)
    requires |s.mem.next| <= SENTINEL && IsChain(s.mem.next, HeadOf(s.mem.head), stack)
    requires Enabled(s, a) && !Succeeds(s, a)
    ensures SpecStep(Abs(s, stack), OpOf(s, a), Abs(Do(s, a), stack))
  {
    hide Pack, HeadOf, TagOf;
    var p, p' := Abs(s, stack), Abs(Do(s, a), stack);
    if a.Park? {
      assert p'.held == p.held[a.t := p.held[a.t] - {a.i}];
    } else if a.Take? {
      assert p'.held == p.held[a.t := p.held[a.t] + {a.i}];
    } else {
      assert p'.held == p.held;
    }
  }

  /** The operations a run performs on the stack, in order. */
  function OpsOf(s: State, acts: seq<Action>): seq<SpecOp>
    decreases acts
  {
    if acts == [] || !Enabled(s, acts[0]) then []
    else [OpOf(s, acts[0])] + OpsOf(Do(s, acts[0]), acts[1..])
  }

  /** Every run in which each `acquire` swaps in a `next` value that is still current, for any number
      of threads and any interleaving, is a run of the atomic stack, and ends with every index in
      exactly one place. Nothing is assumed of the tags. */
  lemma {:induction false} RunRefines(s: State, acts: seq<Action>, s': State, stack: seq<nat>)
    returns (specs: seq<Spec>, stack': seq<nat>)
    requires Inv(s, stack) && Runs(s, acts, s') && AllCurrent(s, acts)
    ensures Inv(s', stack')
    ensures SpecRuns(Abs(s, stack), OpsOf(s, acts), specs, Abs(s', stack'))
    decreases acts
  {
    if acts == [] {
      specs, stack' := [], stack;
    } else {
      var mid := Do(s, acts[0]);
      InvStep(s, acts[0], stack);
      StepRefines(s, acts[0], stack);
      var midStack := StackAfter(s, acts[0], stack);
      specs, stack' := RunRefines(mid, acts[1..], s', midStack);
      specs := [Abs(mid, midStack)] + specs;
    }
  }

  /** The tag window implies what the run theorem asks for. */
  lemma {:induction false} WindowsGiveCurrent(s: State, acts: seq<Action>, stack: seq<nat>)
    requires Inv(s, stack) && WindowsOk(s, acts)
    ensures AllCurrent(s, acts)
    decreases acts
  {
    if acts != [] {
      WindowGivesNext(s, acts[0], stack);
      InvStep(s, acts[0], stack);
      hide Inv, Do, NextCurrent, WindowOk, StackAfter;
      WindowsGiveCurrent(Do(s, acts[0]), acts[1..], StackAfter(s, acts[0], stack));
    }
  }

  lemma IndexSetRefinesStack(capacity: nat, threads: nat, acts: seq<Action>, s': State)
    returns (specs: seq<Spec>, stack': seq<nat>)
    requires 0 < capacity <= SENTINEL
    requires Runs(Init(capacity, threads), acts, s') && WindowsOk(Init(capacity, threads), acts)
    ensures Inv(s', stack')
    ensures SpecRuns(Spec(InitStack(capacity), seq(threads, _ => {}), {}),
                     OpsOf(Init(capacity, threads), acts), specs, Abs(s', stack'))
  {
    InitInv(capacity, threads);
    assert Abs(Init(capacity, threads), InitStack(capacity)).held == seq(threads, _ => {});
    WindowsGiveCurrent(Init(capacity, threads), acts, InitStack(capacity));
    specs, stack' := RunRefines(Init(capacity, threads), acts, s', InitStack(capacity));
  }

  /** No index is ever held by two threads, nor held while it is free or handed over. */
  lemma NeverHeldTwice(capacity: nat, threads: nat, acts: seq<Action>, s': State, t: nat, i: nat)
    requires 0 < capacity <= SENTINEL
    requires Runs(Init(capacity, threads), acts, s') && WindowsOk(Init(capacity, threads), acts)
    requires t < |s'.threads| && i in s'.threads[t].held
    ensures i < capacity && i !in s'.parked && i != HeadOf(s'.mem.head)
    ensures forall u :: 0 <= u < |s'.threads| && u != t ==> i !in s'.threads[u].held
  {
    var specs, stack := IndexSetRefinesStack(capacity, threads, acts, s');
    InitShape(capacity, threads);
    RunCapacity(Init(capacity, threads), acts, s');
    HeldOnce(s', stack, t, i);
  }

  lemma HeldOnce(s: State, stack: seq<nat>, t: nat, i: nat)
    requires Inv(s, stack) && t < |s.threads| && i in s.threads[t].held
    ensures i < |s.mem.next| && i !in s.parked && i != HeadOf(s.mem.head)
    ensures forall u :: 0 <= u < |s.threads| && u != t ==> i !in s.threads[u].held
  {
    assert ThreadShape(s.threads[t], s.mem);
    forall u | 0 <= u < |s.threads| && u != t ensures i !in s.threads[u].held {
      if u < t {
        assert s.threads[u].held !! s.threads[t].held;
      } else {
        assert s.threads[t].held !! s.threads[u].held;
      }
    }
  }

  lemma {:induction false} RunCapacity(s: State, acts: seq<Action>, s': State)
    requires Shape(s) && Runs(s, acts, s')
    ensures Shape(s') && |s'.mem.next| == |s.mem.next| && |s'.threads| == |s.threads|
    decreases acts
  {
    if acts != [] {
      ShapeStep(s, acts[0]);
      RunCapacity(Do(s, acts[0]), acts[1..], s');
    }
  }
}
