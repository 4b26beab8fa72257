/** What the 32-bit tag is worth. An `acquire` swap leaves a correct free-list behind if and only if
    the `next` value it installs is still current, and a whole run stays consistent if and only if
    each of its swaps does so. A tag that does not wrap inside a load-to-swap window guarantees that;
    the run at the end wraps the tag inside one such window, and an index ends up held twice. */
module TagWrap {
  import opened Words
  import opened Sums
  import opened FreeList
  import opened FreeListSafety

  // ----- Exactly when an acquire swap keeps the free-list intact -----

  /** Following `next` is deterministic. */
  lemma {:induction false} ChainUnique(next: seq<nat>, head: nat, xs: seq<nat>, ys: seq<nat>)
    requires |next| <= SENTINEL && IsChain(next, head, xs) && IsChain(next, head, ys)
    ensures xs == ys
    decreases |xs|
  {
    if xs == [] || ys == [] {
    } else {
      ChainTail(next, head, xs);
      ChainTail(next, head, ys);
      ChainUnique(next, next[xs[0]], xs[1..], ys[1..]);
      assert xs == [xs[0]] + xs[1..] && ys == [ys[0]] + ys[1..];
    }
  }

  lemma ChainTail(next: seq<nat>, head: nat, xs: seq<nat>)
    requires xs != [] && IsChain(next, head, xs)
    ensures IsChain(next, next[xs[0]], xs[1..])
  {
    var rest := xs[1..];
    assert forall k :: 0 <= k < |rest| ==> rest[k] == xs[k + 1];
  }

  /** An `acquire` swap that succeeds leaves a correct free-list behind if and only if the `next`
      value it read is still the current one, whether or not the tag had wrapped. */
  lemma AcquireSwapExact(s: State, a: Action, stack: seq<nat>)
    requires Inv(s, stack) && Enabled(s, a) && a.CasAcquire? && Succeeds(s, a)
    ensures (exists stack' :: Inv(Do(s, a), stack'))
       <==> s.threads[a.t].pc.nx == s.mem.next[HeadOf(s.mem.head)]
  {
    var s', pc := Do(s, a), s.threads[a.t].pc;
    assert ThreadShape(s.threads[a.t], s.mem);
    if pc.nx == s.mem.next[HeadOf(s.mem.head)] {
      AcquireKeeps(s, a, stack);
    } else if exists stack' :: Inv(s', stack') {
      var stack' :| Inv(s', stack');
      RightNextNeeded(s, a, stack, stack');
    }
  }

  /** Some stack fits the state. */
  ghost predicate Consistent(s: State) {
    exists stack :: Inv(s, stack)
  }

  /** Every state that the run passes is consistent. */
  ghost predicate StaysConsistent(s: State, acts: seq<Action>)
    decreases acts
  {
    acts == [] ||
    (Enabled(s, acts[0]) && Consistent(Do(s, acts[0])) && StaysConsistent(Do(s, acts[0]), acts[1..]))
  }

  lemma StepExact(s: State, a: Action, stack: seq<nat>)
    requires Inv(s, stack) && Enabled(s, a)
    ensures Consistent(Do(s, a)) <==> NextCurrent(s, a)
    ensures NextCurrent(s, a) ==> Inv(Do(s, a), StackAfter(s, a, stack))
  {
    hide Inv, Do, StackAfter, Succeeds, HeadOf;
    if NextCurrent(s, a) {
      InvStep(s, a, stack);
    } else {
      TopIsHead(s, a, stack);
      AcquireSwapExact(s, a, stack);
    }
  }

  /** A run keeps the free-list consistent if and only if every successful `acquire` swap installs a
      `next` value that is still current. */
  lemma {:induction false} RunExact(s: State, acts: seq<Action>, s': State, stack: seq<nat>)
    requires Inv(s, stack) && Runs(s, acts, s')
    ensures StaysConsistent(s, acts) <==> AllCurrent(s, acts)
    decreases acts
  {
    if acts != [] {
      StepExact(s, acts[0], stack);
      hide Inv, Do, NextCurrent, StackAfter, Consistent;
      if NextCurrent(s, acts[0]) {
        RunExact(Do(s, acts[0]), acts[1..], s', StackAfter(s, acts[0], stack));
      }
    }
  }

  lemma RightNextNeeded(s: State, a: Action, stack: seq<nat>, stack': seq<nat>)
    requires Inv(s, stack) && Enabled(s, a) && a.CasAcquire? && Succeeds(s, a)
    requires Inv(Do(s, a), stack')
    ensures s.threads[a.t].pc.nx == s.mem.next[HeadOf(s.mem.head)]
  {
    hide Pack, HeadOf, TagOf;
    assert ThreadShape(s.threads[a.t], s.mem);
    SwapShape(s, a);
    SwapCount(s, a, stack, stack');
    var next := s.mem.next;
    if stack' != [] {
      NotPlacedTwice(s, a, stack, stack');
      var k :| 0 <= k < |stack| && stack[k] == stack'[0];
      ChainSuffix(next, HeadOf(s.mem.head), stack, k);
      ChainUnique(next, stack'[0], stack', stack[k..]);
    }
  }

  lemma SwapCount(s: State, a: Action, stack: seq<nat>, stack': seq<nat>)
    requires Inv(s, stack) && Enabled(s, a) && a.CasAcquire? && Succeeds(s, a)
    requires Inv(Do(s, a), stack')
    ensures |stack'| == |stack| - 1
  {
    hide Pack, HeadOf, TagOf;
    var th, s' := s.threads[a.t], Do(s, a);
    assert ThreadShape(th, s.mem);
    assert stack != [] && HeadOf(th.pc.word) == stack[0];
    assert stack[0] !in th.held;
    SumUpdate(s.threads, a.t, s'.threads[a.t], HeldCount);
  }

  lemma NotPlacedTwice(s: State, a: Action, stack: seq<nat>, stack': seq<nat>)
    requires Inv(s, stack) && Enabled(s, a) && a.CasAcquire? && Succeeds(s, a)
    requires Inv(Do(s, a), stack') && stack' != []
    ensures stack'[0] in stack
  {
    hide Pack, HeadOf, TagOf;
    var s' := Do(s, a);
    assert |s'.mem.next| == |s.mem.next|;
    assert stack'[0] < |s.mem.next|;
    assert Somewhere(s, stack, stack'[0]);
    if stack'[0] !in stack && stack'[0] !in s.parked {
      var u :| 0 <= u < |s.threads| && stack'[0] in s.threads[u].held;
      HeldStays(s, a, u, stack'[0]);
    }
  }

  lemma HeldStays(s: State, a: Action, u: nat, i: nat)
    requires Enabled(s, a) && a.CasAcquire? && u < |s.threads| && i in s.threads[u].held
    ensures i in Do(s, a).threads[u].held
  {
  }

  // ----- Composing runs -----

  ghost predicate Reaches(s: State, e: State) {
    exists acts :: Runs(s, acts, e)
  }

  lemma {:induction false} RunsAppend(s: State, xs: seq<Action>, m: State, ys: seq<Action>, e: State)
    requires Runs(s, xs, m) && Runs(m, ys, e)
    ensures Runs(s, xs + ys, e)
    decreases xs
  {
    if xs == [] {
      assert xs + ys == ys;
    } else {
      RunsAppend(Do(s, xs[0]), xs[1..], m, ys, e);
      assert (xs + ys)[0] == xs[0] && (xs + ys)[1..] == xs[1..] + ys;
    }
  }

  lemma ReachesTrans(s: State, m: State, e: State)
    requires Reaches(s, m) && Reaches(m, e)
    ensures Reaches(s, e)
  {
    var xs :| Runs(s, xs, m);
    var ys :| Runs(m, ys, e);
    RunsAppend(s, xs, m, ys, e);
  }

  lemma ReachesSelf(s: State)
    ensures Reaches(s, s)
  {
    assert Runs(s, [], s);
  }

  lemma ReachesStep(s: State, m: State, a: Action)
    requires Reaches(s, m) && Enabled(m, a)
    ensures Reaches(s, Do(m, a))
  {
    var e := Do(m, a);
    assert [a][1..] == [];
    assert Runs(e, [], e);
    assert Runs(m, [a], e);
    ReachesTrans(s, m, e);
  }

  /** A state whose head word holds index `h` and the tag of version `v`. */
  function At(h: nat, v: nat, next: seq<nat>, threads: seq<Thread>): State {
    State(Memory(Pack(h, v % U32), next, v), threads, {})
  }

  lemma ReachesFour(s0: State, a: Action, s1: State, b: Action, s2: State, c: Action, s3: State, d: Action, s4: State)
    requires Enabled(s0, a) && s1 == Do(s0, a) && Enabled(s1, b) && s2 == Do(s1, b)
    requires Enabled(s2, c) && s3 == Do(s2, c) && Enabled(s3, d) && s4 == Do(s3, d)
    ensures Reaches(s0, s4)
  {
    hide Reaches, Do, Enabled;
    ReachesSelf(s0);
    ReachesStep(s0, s0, a);
    ReachesStep(s0, s1, b);
    ReachesStep(s0, s2, c);
    ReachesStep(s0, s3, d);
  }

  /** An uninterrupted `acquire` by thread `t`. */
  lemma AcquireAlone(h: nat, v: nat, next: seq<nat>, threads: seq<Thread>, t: nat)
    requires h < |next| < SENTINEL && InRange(next[h], |next|)
    requires t < |threads| && threads[t].pc.Ready?
    ensures Reaches(At(h, v, next, threads),
                    At(next[h], v + 1, next, threads[t := Thread(Ready, threads[t].held + {h})]))
  {
    var s0, word := At(h, v, next, threads), At(h, v, next, threads).mem.head;
    var held, held' := threads[t].held, threads[t].held + {h};
    var s1 := s0.(threads := threads[t := Thread(AcqRead(word, v), held)]);
    var s2 := s0.(threads := threads[t := Thread(AcqCas(word, v, next[h]), held)]);
    var s3 := At(next[h], v + 1, next, threads[t := Thread(Acquired(h), held')]);
    var s4 := At(next[h], v + 1, next, threads[t := Thread(Ready, held')]);
    AcquireReads(s0, s1, s2, h, v, next, threads, t);
    AcquireSwaps(s2, s3, s4, h, v, next, threads, t);
    hide Reaches, Do, Enabled, At;
    ReachesFour(s0, BeginAcquire(t), s1, ReadNext(t), s2, CasAcquire(t, false), s3, Return(t), s4);
  }

  lemma AcquireReads(s0: State, s1: State, s2: State, h: nat, v: nat, next: seq<nat>, threads: seq<Thread>, t: nat)
    requires h < |next| < SENTINEL && t < |threads| && threads[t].pc.Ready? && s0 == At(h, v, next, threads)
    requires s1 == s0.(threads := threads[t := Thread(AcqRead(s0.mem.head, v), threads[t].held)])
    requires s2 == s0.(threads := threads[t := Thread(AcqCas(s0.mem.head, v, next[h]), threads[t].held)])
    ensures Enabled(s0, BeginAcquire(t)) && Do(s0, BeginAcquire(t)) == s1
    ensures Enabled(s1, ReadNext(t)) && Do(s1, ReadNext(t)) == s2
  {
    hide Pack, HeadOf, TagOf;
    PackFields(h, v % U32);
    assert Do(s1, ReadNext(t)).threads == s2.threads;
  }

  lemma AcquireSwaps(s2: State, s3: State, s4: State, h: nat, v: nat, next: seq<nat>, threads: seq<Thread>, t: nat)
    requires h < |next| < SENTINEL && t < |threads| && s2.mem == At(h, v, next, threads).mem && s2.parked == {}
    requires s2.threads == threads[t := Thread(AcqCas(s2.mem.head, v, next[h]), threads[t].held)]
    requires s3 == At(next[h], v + 1, next, threads[t := Thread(Acquired(h), threads[t].held + {h})])
    requires s4 == At(next[h], v + 1, next, threads[t := Thread(Ready, threads[t].held + {h})])
    ensures Enabled(s2, CasAcquire(t, false)) && Do(s2, CasAcquire(t, false)) == s3
    ensures Enabled(s3, Return(t)) && Do(s3, Return(t)) == s4
  {
    hide Pack, HeadOf, TagOf;
    PackFields(h, v % U32);
    ModIncrement(v, U32);
    assert Do(s2, CasAcquire(t, false)).threads == s3.threads;
    assert Do(s3, Return(t)).threads == s4.threads;
  }

  /** An uninterrupted `release` of `i` by thread `t`. */
  lemma ReleaseAlone(h: nat, v: nat, next: seq<nat>, threads: seq<Thread>, t: nat, i: nat)
    requires InRange(h, |next|) && i < |next| < SENTINEL
    requires t < |threads| && threads[t].pc.Ready? && i in threads[t].held
    ensures Reaches(At(h, v, next, threads),
                    At(i, v + 1, next[i := h], threads[t := Thread(Ready, threads[t].held - {i})]))
  {
    var s0, word := At(h, v, next, threads), At(h, v, next, threads).mem.head;
    var held, held' := threads[t].held, threads[t].held - {i};
    var s1 := s0.(threads := threads[t := Thread(RelStore(i, word, v), held)]);
    var s2 := State(Memory(word, next[i := h], v), threads[t := Thread(RelCas(i, word, v), held)], {});
    var s3 := At(i, v + 1, next[i := h], threads[t := Thread(Released(i), held')]);
    var s4 := At(i, v + 1, next[i := h], threads[t := Thread(Ready, held')]);
    ReleaseStores(s0, s1, s2, h, v, next, threads, t, i);
    ReleaseSwaps(s2, s3, s4, h, v, next, threads, t, i);
    hide Reaches, Do, Enabled, At;
    ReachesFour(s0, BeginRelease(t, i), s1, StoreNext(t), s2, CasRelease(t, false), s3, Return(t), s4);
  }

  lemma ReleaseStores(s0: State, s1: State, s2: State, h: nat, v: nat, next: seq<nat>, threads: seq<Thread>,
      t: nat, i: nat)
    requires InRange(h, |next|) && i < |next| < SENTINEL && t < |threads| && threads[t].pc.Ready?
    requires i in threads[t].held && s0 == At(h, v, next, threads)
    requires s1 == s0.(threads := threads[t := Thread(RelStore(i, s0.mem.head, v), threads[t].held)])
    requires s2 == State(Memory(s0.mem.head, next[i := h], v), threads[t := Thread(RelCas(i, s0.mem.head, v),
        threads[t].held)], {})
    ensures Enabled(s0, BeginRelease(t, i)) && Do(s0, BeginRelease(t, i)) == s1
    ensures Enabled(s1, StoreNext(t)) && Do(s1, StoreNext(t)) == s2
  {
    hide Pack, HeadOf, TagOf;
    PackFields(h, v % U32);
    assert Do(s1, StoreNext(t)).threads == s2.threads;
  }

  lemma ReleaseSwaps(s2: State, s3: State, s4: State, h: nat, v: nat, next: seq<nat>, threads: seq<Thread>,
      t: nat, i: nat)
    requires InRange(h, |next|) && i < |next| < SENTINEL && t < |threads|
    requires s2.mem == Memory(Pack(h, v % U32), next[i := h], v) && s2.parked == {}
    requires s2.threads == threads[t := Thread(RelCas(i, s2.mem.head, v), threads[t].held)]
    requires s3 == At(i, v + 1, next[i := h], threads[t := Thread(Released(i), threads[t].held - {i})])
    requires s4 == At(i, v + 1, next[i := h], threads[t := Thread(Ready, threads[t].held - {i})])
    ensures Enabled(s2, CasRelease(t, false)) && Do(s2, CasRelease(t, false)) == s3
    ensures Enabled(s3, Return(t)) && Do(s3, Return(t)) == s4
  {
    hide Pack, HeadOf, TagOf;
    PackFields(h, v % U32);
    ModIncrement(v, U32);
    assert Do(s2, CasRelease(t, false)).threads == s3.threads;
    assert Do(s3, Return(t)).threads == s4.threads;
  }

  // ----- The run that goes wrong -----

  /** Two threads: a stuck thread 0, and thread 1 at rest holding `held`. */
  function Duo(h: nat, v: nat, next: seq<nat>, stuck: Thread, held: set<nat>): State {
    At(h, v, next, [stuck, Thread(Ready, held)])
  }

  lemma DuoAcquire(h: nat, v: nat, next: seq<nat>, stuck: Thread, held: set<nat>)
    requires h < |next| < SENTINEL && InRange(next[h], |next|)
    ensures Reaches(Duo(h, v, next, stuck, held), Duo(next[h], v + 1, next, stuck, held + {h}))
  {
    var threads := [stuck, Thread(Ready, held)];
    AcquireAlone(h, v, next, threads, 1);
    assert threads[1 := Thread(Ready, held + {h})] == [stuck, Thread(Ready, held + {h})];
  }

  lemma DuoRelease(h: nat, v: nat, next: seq<nat>, stuck: Thread, held: set<nat>, i: nat)
    requires InRange(h, |next|) && i < |next| < SENTINEL && i in held
    ensures Reaches(Duo(h, v, next, stuck, held), Duo(i, v + 1, next[i := h], stuck, held - {i}))
  {
    var threads := [stuck, Thread(Ready, held)];
    ReleaseAlone(h, v, next, threads, 1, i);
    assert threads[1 := Thread(Ready, held - {i})] == [stuck, Thread(Ready, held - {i})];
  }

  const AFTER: seq<nat> := [SENTINEL, 2, SENTINEL]

  /** Thread 1 acquires and releases index 0: two head updates, everything else as before. */
  lemma OneRound(v: nat, stuck: Thread)
    ensures Reaches(Duo(0, v, AFTER, stuck, {1, 2}), Duo(0, v + 2, AFTER, stuck, {1, 2}))
  {
    DuoAcquire(0, v, AFTER, stuck, {1, 2});
    DuoRelease(SENTINEL, v + 1, AFTER, stuck, {1, 2} + {0}, 0);
    assert AFTER[0 := SENTINEL] == AFTER && {1, 2} + {0} - {0} == {1, 2};
    ReachesTrans(Duo(0, v, AFTER, stuck, {1, 2}), Duo(SENTINEL, v + 1, AFTER, stuck, {1, 2} + {0}),
                 Duo(0, v + 2, AFTER, stuck, {1, 2}));
  }

  lemma {:induction false} Rounds(v: nat, n: nat, stuck: Thread)
    ensures Reaches(Duo(0, v, AFTER, stuck, {1, 2}), Duo(0, v + 2 * n, AFTER, stuck, {1, 2}))
  {
    hide Duo, Reaches;
    var s := Duo(0, v, AFTER, stuck, {1, 2});
    if n == 0 {
      ReachesSelf(s);
    } else {
      var w := v + 2 * (n - 1);
      Rounds(v, n - 1, stuck);
      OneRound(w, stuck);
      assert w + 2 == v + 2 * n;
      ReachesTrans(s, Duo(0, w, AFTER, stuck, {1, 2}), Duo(0, w + 2, AFTER, stuck, {1, 2}));
    }
  }

  /** Thread 0 loads head 0, reads its successor 1 and stops. */
  lemma Prologue(stuck: Thread)
    requires stuck == Thread(AcqCas(Pack(0, 0), 0, 1), {})
    ensures Reaches(Init(3, 2), Duo(0, 0, [1, 2, SENTINEL], stuck, {}))
  {
    hide Pack, HeadOf, TagOf;
    var s0, idle := Init(3, 2), Thread(Ready, {});
    assert HeadOf(s0.mem.head) == 0 by { PackFields(0, 0); }
    assert s0.mem.next == [1, 2, SENTINEL] && s0.threads == [idle, idle];
    ReachesSelf(s0);
    ReachesStep(s0, s0, BeginAcquire(0));
    var s1 := Do(s0, BeginAcquire(0));
    ReachesStep(s0, s1, ReadNext(0));
    assert Do(s1, ReadNext(0)) == Duo(0, 0, [1, 2, SENTINEL], stuck, {});
  }

  /** Thread 1 acquires all three indices and releases index 0. */
  lemma AcquireThreeReleaseOne(stuck: Thread, next: seq<nat>)
    requires next == [1, 2, SENTINEL]
    ensures Reaches(Duo(0, 0, next, stuck, {}), Duo(0, 4, AFTER, stuck, {1, 2}))
  {
    hide Duo, Reaches;
    AcquireThree(stuck, next, {}, {} + {0}, {} + {0} + {1});
    var all := {} + {0} + {1} + {2};
    DuoRelease(SENTINEL, 3, next, stuck, all, 0);
    assert next[0 := SENTINEL] == AFTER;
    assert all - {0} == {1, 2};
    ReachesTrans(Duo(0, 0, next, stuck, {}), Duo(SENTINEL, 3, next, stuck, all), Duo(0, 4, AFTER, stuck, {1, 2}));
  }

  lemma AcquireThree(stuck: Thread, next: seq<nat>, h0: set<nat>, h1: set<nat>, h2: set<nat>)
    requires |next| == 3 && next[0] == 1 && next[1] == 2 && next[2] == SENTINEL
    requires h1 == h0 + {0} && h2 == h1 + {1}
    ensures Reaches(Duo(0, 0, next, stuck, h0), Duo(SENTINEL, 3, next, stuck, h2 + {2}))
  {
    DuoAcquire(0, 0, next, stuck, h0);
    DuoAcquire(1, 1, next, stuck, h1);
    DuoAcquire(2, 2, next, stuck, h2);
    ReachesTrans(Duo(0, 0, next, stuck, h0), Duo(1, 1, next, stuck, h1), Duo(2, 2, next, stuck, h2));
    ReachesTrans(Duo(0, 0, next, stuck, h0), Duo(2, 2, next, stuck, h2), Duo(SENTINEL, 3, next, stuck, h2 + {2}));
  }

  lemma ReachesChain(a: State, b: State, c: State, d: State, e: State)
    requires Reaches(a, b) && Reaches(b, c) && Reaches(c, d) && Reaches(d, e)
    ensures Reaches(a, e)
  {
    ReachesTrans(a, b, c);
    ReachesTrans(a, c, d);
    ReachesTrans(a, d, e);
  }

  /** When the version is a multiple of 2^32 the stale swap of thread 0 succeeds, and its next
      `acquire` takes index 1, which thread 1 holds. */
  lemma StaleSwap(v: nat, next: seq<nat>, word: nat, stuck: Thread) returns (bad: State)
    requires v % U32 == 0 && |next| == 3 && next[1] == 2
    requires word == Pack(0, 0) && stuck == Thread(AcqCas(word, 0, 1), {})
    ensures Reaches(Duo(0, v, next, stuck, {1, 2}), bad)
    ensures |bad.threads| == 2 && 1 in bad.threads[0].held && 1 in bad.threads[1].held
  {
    var threads := [Thread(Ready, {0}), Thread(Ready, {1, 2})];
    var s0 := At(0, v, next, [stuck, Thread(Ready, {1, 2})]);
    StaleCas(v, next, stuck, Thread(Ready, {1, 2}));
    AcquireAlone(1, v + 1, next, threads, 0);
    bad := At(2, v + 2, next, threads[0 := Thread(Ready, {0} + {1})]);
    ReachesTrans(s0, At(1, v + 1, next, threads), bad);
  }

  lemma StaleCas(v: nat, next: seq<nat>, stuck: Thread, other: Thread)
    requires v % U32 == 0 && stuck == Thread(AcqCas(Pack(0, v % U32), 0, 1), {})
    ensures Reaches(At(0, v, next, [stuck, other]), At(1, v + 1, next, [Thread(Ready, {0}), other]))
  {
    var s0, threads := At(0, v, next, [stuck, other]), [stuck, other];
    var s1 := At(1, v + 1, next, [Thread(Acquired(0), {0}), other]);
    var s2 := At(1, v + 1, next, [Thread(Ready, {0}), other]);
    StaleSwaps(s0, s1, s2, v, next, stuck, other);
    hide Reaches, At, Enabled, Do;
    ReachesSelf(s0);
    ReachesStep(s0, s0, CasAcquire(0, false));
    ReachesStep(s0, s1, Return(0));
  }

  lemma StaleSwaps(s0: State, s1: State, s2: State, v: nat, next: seq<nat>, stuck: Thread, other: Thread)
    requires v % U32 == 0 && stuck == Thread(AcqCas(Pack(0, v % U32), 0, 1), {})
    requires s0 == At(0, v, next, [stuck, other]) && s1 == At(1, v + 1, next, [Thread(Acquired(0), {0}), other])
    requires s2 == At(1, v + 1, next, [Thread(Ready, {0}), other])
    ensures Enabled(s0, CasAcquire(0, false)) && Do(s0, CasAcquire(0, false)) == s1
    ensures Enabled(s1, Return(0)) && Do(s1, Return(0)) == s2
  {
    hide Pack, HeadOf, TagOf;
    PackFields(0, v % U32);
    ModIncrement(v, U32);
    assert {} + {0} == {0};
    assert Do(s0, CasAcquire(0, false)).threads == s1.threads;
    assert Do(s1, Return(0)).threads == s2.threads;
  }

  /** Without the window assumption the free-list is not safe: after 2^32 head updates inside one
      window the tag is back at 0, the stale swap succeeds, and thread 0 goes on to acquire
      index 1 while thread 1 still holds it. */
  lemma TagWrapBreaksUniqueness() returns (acts: seq<Action>, bad: State)
    ensures Runs(Init(3, 2), acts, bad)
    ensures |bad.threads| == 2 && 1 in bad.threads[0].held && 1 in bad.threads[1].held
  {
    var start, word := Init(3, 2), Pack(0, 0);
    var stuck := Thread(AcqCas(word, 0, 1), {});
    Prologue(stuck);
    bad := WrapFrom(start, [1, 2, SENTINEL], word, stuck, 2147483646);
    acts :| Runs(start, acts, bad);
  }

  lemma WrapFrom(start: State, next: seq<nat>, word: nat, stuck: Thread, n: nat) returns (bad: State)
    requires next == [1, 2, SENTINEL] && Reaches(start, Duo(0, 0, next, stuck, {}))
    requires word == Pack(0, 0) && stuck == Thread(AcqCas(word, 0, 1), {}) && 4 + 2 * n == U32
    ensures Reaches(start, bad)
    ensures |bad.threads| == 2 && 1 in bad.threads[0].held && 1 in bad.threads[1].held
  {
    var v := 4 + 2 * n;
    AcquireThreeReleaseOne(stuck, next);
    Rounds(4, n, stuck);
    bad := StaleSwap(v, AFTER, word, stuck);
    ReachesChain(start, Duo(0, 0, next, stuck, {}), Duo(0, 4, AFTER, stuck, {1, 2}),
                 Duo(0, v, AFTER, stuck, {1, 2}), bad);
  }
}
