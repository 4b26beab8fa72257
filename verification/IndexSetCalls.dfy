/** `acquire` and `release` as their callers see them. */
module IndexSetCalls {
  import opened Results
  import opened FreeList
  import opened FreeListSafety
  import Atomic = AtomicObjects

  datatype Op = Acquire | Release(i: nat)

  datatype Answer = Got(index: Option<nat>) | Done

  /** `acquire` takes and answers the top of the stack, or answers an error and the stack is empty;
      `release` pushes its argument. */
  predicate StackEffect(stack: seq<nat>, op: Op, r: Answer, stack': seq<nat>) {
    match op
    case Acquire =>
      r.Got? &&
      if r.index.Some? then stack != [] && r.index.value == stack[0] && stack' == stack[1..]
      else stack == [] && stack' == stack
    case Release(i) => r == Done && stack' == [i] + stack
  }

  type Event = Atomic.Event<Op, Answer>
  type Stack = Atomic.Object<seq<nat>, Op, Answer>

  /** What the call of a thread that is about to return answers. */
  function AnswerOf(pc: Pc): Answer {
    match pc
    case Acquired(i) => Got(Some(i))
    case Exhausted => Got(None)
    case _ => Done
  }

  function CallOf(pc: Pc): Atomic.Call<Op, Answer> {
    match pc
    case Ready => Atomic.NoCall
    case AcqRead(_, _) => Atomic.Pending(Acquire)
    case AcqCas(_, _, _) => Atomic.Pending(Acquire)
    case RelStore(i, _, _) => Atomic.Pending(Release(i))
    case RelCas(i, _, _) => Atomic.Pending(Release(i))
    case _ => Atomic.Answered(AnswerOf(pc))
  }

  function CallFor(a: Action): Option<Op> {
    match a
    case BeginAcquire(_) => Some(Acquire)
    case BeginRelease(_, i) => Some(Release(i))
    case _ => None
  }

  function ReturnFor(s: State, a: Action): Option<Answer>
    requires Enabled(s, a)
  {
    if a.Return? then Some(AnswerOf(s.threads[a.t].pc)) else None
  }

  /** The calls and returns that the program sees. */
  function Seen(s: State, a: Action): seq<Event>
    requires Enabled(s, a)
  {
    Atomic.Events(a.t, CallFor(a), ReturnFor(s, a))
  }

  function History(s: State, acts: seq<Action>): seq<Event>
    decreases acts
  {
    if acts == [] || !Enabled(s, acts[0]) then []
    else Seen(s, acts[0]) + History(Do(s, acts[0]), acts[1..])
  }

  function Calls(s: State): seq<Atomic.Call<Op, Answer>> {
    seq(|s.threads|, t requires 0 <= t < |s.threads| => CallOf(s.threads[t].pc))
  }

  function View(s: State, stack: seq<nat>): Stack {
    Atomic.Object(stack, Calls(s))
  }

  /** How a step changes its thread's call and the stack. */
  lemma StepCall(s: State, a: Action, stack: seq<nat>)
    requires Inv(s, stack) && Enabled(s, a) && NextCurrent(s, a)
    ensures a.t < |s.threads| == |Do(s, a).threads|
    ensures Atomic.Moves(StackEffect, stack, CallOf(s.threads[a.t].pc), CallFor(a), ReturnFor(s, a),
                         StackAfter(s, a, stack), CallOf(Do(s, a).threads[a.t].pc))
  {
    hide Inv, NextCurrent;
    if Succeeds(s, a) {
      if a.CasAcquire? { TopIsHead(s, a, stack); }
      SwapCall(s, a, stack);
    } else {
      EmptyAtSentinel(s, stack);
      LocalCall(s, a, stack);
    }
    hide *;
  }

  lemma SwapCall(s: State, a: Action, stack: seq<nat>)
    requires Enabled(s, a) && Succeeds(s, a)
    requires a.CasAcquire? ==> stack != [] && s.threads[a.t].pc.word == s.mem.head && stack[0] == HeadOf(s.mem.head)
    ensures a.t < |s.threads| == |Do(s, a).threads|
    ensures Atomic.Moves(StackEffect, stack, CallOf(s.threads[a.t].pc), CallFor(a), ReturnFor(s, a),
                         StackAfter(s, a, stack), CallOf(Do(s, a).threads[a.t].pc))
  {
    hide Pack, HeadOf, TagOf;
  }

  lemma LocalCall(s: State, a: Action, stack: seq<nat>)
    requires Enabled(s, a) && !Succeeds(s, a) && (HeadOf(s.mem.head) == SENTINEL <==> stack == [])
    ensures a.t < |s.threads| == |Do(s, a).threads|
    ensures Atomic.Moves(StackEffect, stack, CallOf(s.threads[a.t].pc), CallFor(a), ReturnFor(s, a),
                         StackAfter(s, a, stack), CallOf(Do(s, a).threads[a.t].pc))
  {
    hide Pack, HeadOf, TagOf;
  }

  lemma OtherCalls(s: State, a: Action)
    requires Enabled(s, a)
    ensures a.t < |s.threads| == |Do(s, a).threads|
    ensures Calls(Do(s, a)) == Calls(s)[a.t := CallOf(Do(s, a).threads[a.t].pc)]
  {
    hide Pack, HeadOf, TagOf, CallOf;
  }

  lemma StepSeen(s: State, a: Action, stack: seq<nat>)
    requires Inv(s, stack) && Enabled(s, a) && NextCurrent(s, a)
    ensures Atomic.Linearizes(StackEffect, View(s, stack), Seen(s, a), View(Do(s, a), StackAfter(s, a, stack)))
  {
    StepCall(s, a, stack);
    OtherCalls(s, a);
    hide Inv, NextCurrent, Enabled, Do, StackAfter, Calls, Atomic.Linearizes, Atomic.Moves;
    CallsAt(s, a.t);
    Atomic.MoveLinearizes(StackEffect, View(s, stack), a.t, CallFor(a), ReturnFor(s, a),
                          View(Do(s, a), StackAfter(s, a, stack)));
  }

  lemma CallsAt(s: State, t: nat)
    requires t < |s.threads|
    ensures |Calls(s)| == |s.threads| && Calls(s)[t] == CallOf(s.threads[t].pc)
  {
  }

  lemma {:induction false} RunSeen(s: State, acts: seq<Action>, s': State, stack: seq<nat>)
    returns (stack': seq<nat>)
    requires Inv(s, stack) && Runs(s, acts, s') && AllCurrent(s, acts)
    ensures Inv(s', stack')
    ensures Atomic.Linearizes(StackEffect, View(s, stack), History(s, acts), View(s', stack'))
    decreases acts
  {
    if acts == [] {
      stack' := stack;
      Atomic.NoEvent(StackEffect, View(s, stack));
    } else {
      InvStep(s, acts[0], stack);
      StepSeen(s, acts[0], stack);
      hide Inv, Do, Enabled, Seen, View, NextCurrent, StackAfter;
      var mid, midStack := Do(s, acts[0]), StackAfter(s, acts[0], stack);
      stack' := RunSeen(mid, acts[1..], s', midStack);
      Atomic.Concat(StackEffect, View(s, stack), Seen(s, acts[0]), View(mid, midStack), History(mid, acts[1..]),
                    View(s', stack'));
    }
  }

  /** Inside the tag window, every run of any number of threads is a history of an atomic stack of free
      indices that starts full: each call takes effect once, between its call and its return, with the
      index `release` was called with and the result `acquire` returns. */
  lemma IndexSetIsLinearizable(capacity: nat, threads: nat, acts: seq<Action>, s': State) returns (stack': seq<nat>)
    requires 0 < capacity <= SENTINEL
    requires Runs(Init(capacity, threads), acts, s') && WindowsOk(Init(capacity, threads), acts)
    ensures Inv(s', stack')
    ensures Atomic.Linearizes(StackEffect, Atomic.Object(InitStack(capacity), seq(threads, _ => Atomic.NoCall)),
                              History(Init(capacity, threads), acts), View(s', stack'))
  {
    var s := Init(capacity, threads);
    InitInv(capacity, threads);
    assert Calls(s) == seq(threads, _ => Atomic.NoCall);
    WindowsGiveCurrent(s, acts, InitStack(capacity));
    stack' := RunSeen(s, acts, s', InitStack(capacity));
  }

  // ----- A call that runs alone ends -----

  /** How many steps thread `t` needs if no other thread moves the head: two from a load that is still
      current, and two more if it is not. */
  function StepsAlone(s: State, t: nat): nat
    requires t < |s.threads|
  {
    match s.threads[t].pc
    case AcqRead(word, _) => if word == s.mem.head then 2 else 4
    case AcqCas(word, _, _) => if word == s.mem.head then 1 else 3
    case RelStore(_, word, _) => if word == s.mem.head then 2 else 4
    case RelCas(_, word, _) => if word == s.mem.head then 1 else 3
    case _ => 0
  }

  /** Thread `t`'s next step, with a compare-and-swap that does not fail spuriously. */
  function NextStep(s: State, t: nat): Action
    requires t < |s.threads|
  {
    match s.threads[t].pc
    case AcqRead(_, _) => ReadNext(t)
    case AcqCas(_, _, _) => CasAcquire(t, false)
    case RelStore(_, _, _) => StoreNext(t)
    case _ => CasRelease(t, false)
  }

  lemma StepAlone(s: State, t: nat)
    requires Shape(s) && t < |s.threads| && StepsAlone(s, t) > 0
    ensures Enabled(s, NextStep(s, t)) && |Do(s, NextStep(s, t)).threads| == |s.threads|
    ensures StepsAlone(Do(s, NextStep(s, t)), t) < StepsAlone(s, t)
    ensures CallOf(Do(s, NextStep(s, t)).threads[t].pc) != Atomic.NoCall
  {
    hide Pack, HeadOf, TagOf;
    assert ThreadShape(s.threads[t], s.mem);
  }

  /** From every state of a run, whatever the tags do, a thread that is in a call and runs alone ends it
      within four steps. */
  lemma {:induction false} EndsAlone(s: State, t: nat) returns (acts: seq<Action>, s': State)
    requires Shape(s) && t < |s.threads| && CallOf(s.threads[t].pc) != Atomic.NoCall
    ensures Runs(s, acts, s') && |acts| <= StepsAlone(s, t) <= 4 && forall a <- acts :: a.t == t
    ensures |s'.threads| == |s.threads| && CallOf(s'.threads[t].pc).Answered?
    decreases StepsAlone(s, t)
  {
    if StepsAlone(s, t) == 0 {
      acts, s' := [], s;
    } else {
      var a := NextStep(s, t);
      StepAlone(s, t);
      ShapeStep(s, a);
      hide Do, Enabled, Shape;
      acts, s' := EndsAlone(Do(s, a), t);
      assert ([a] + acts)[1..] == acts;
      acts := [a] + acts;
    }
  }
}
