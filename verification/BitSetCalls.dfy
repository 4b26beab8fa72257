/** `set`, `clear` and `find_and_clear_first_set` as their callers see them. */
module BitSetCalls {
  import opened Results
  import opened Words
  import opened BitWords
  import opened BitSetSteps
  import Atomic = AtomicObjects

  datatype Op = Set(i: nat) | Clear(i: nat) | Find

  datatype Answer = Changed(yes: bool) | Found(index: Option<nat>)

  /** `set` and `clear` answer whether the index was absent, or present, and leave it present, or absent;
      `find_and_clear_first_set` takes an index that is the least of its word, or changes nothing. */
  ghost predicate SetEffect(words: seq<nat>, op: Op, r: Answer, words': seq<nat>) {
    match op
    case Set(i) =>
      && r.Changed? && (r.yes <==> !Has(words, i))
      && forall j: nat :: Has(words', j) <==> Has(words, j) || j == i
    case Clear(i) =>
      && r.Changed? && (r.yes <==> Has(words, i))
      && forall j: nat :: Has(words', j) <==> Has(words, j) && j != i
    case Find =>
      r.Found? &&
      if r.index.Some? then
        && Has(words, r.index.value)
        && (forall j: nat :: Has(words', j) <==> Has(words, j) && j != r.index.value)
        && forall j: nat :: Has(words, j) && j / WORD == r.index.value / WORD ==> r.index.value <= j
      else words' == words
  }

  type Event = Atomic.Event<Op, Answer>
  type IndexBits = Atomic.Object<seq<nat>, Op, Answer>

  /** What the call of a thread that is about to return answers. */
  function AnswerOf(pc: Pc): Answer {
    match pc
    case SetDone(_, added) => Changed(added)
    case ClearDone(_, found) => Changed(found)
    case FindDone(i) => Found(Some(i))
    case _ => Found(None)
  }

  function CallOf(pc: Pc): Atomic.Call<Op, Answer> {
    match pc
    case Ready => Atomic.NoCall
    case SetCas(i, _) => Atomic.Pending(Set(i))
    case ClearCas(i, _) => Atomic.Pending(Clear(i))
    case FindLoad(_) => Atomic.Pending(Find)
    case FindCas(_, _) => Atomic.Pending(Find)
    case FindGiveBack(_, _) => Atomic.Pending(Find)
    case _ => Atomic.Answered(AnswerOf(pc))
  }

  function CallFor(a: Action): (op: Option<Op>) {
    match a
    case BeginSet(_, i) => Some(Set(i))
    case BeginClear(_, i) => Some(Clear(i))
    case BeginFind(_) => Some(Find)
    case _ => None
  }

  function ReturnFor(s: State, a: Action): Option<Answer>
    requires Enabled(s, a)
  {
    if a.Return? then Some(AnswerOf(s.pcs[a.t])) else None
  }

  /** The calls and returns that the program sees. */
  function Seen(s: State, a: Action): seq<Event>
    requires Enabled(s, a)
  {
    Atomic.Events(a.t, CallFor(a), ReturnFor(s, a))
  }

  function History(s: State, acts: seq<Action>): seq<Event>
    decreases acts
  {
    if acts == [] || !Enabled(s, acts[0]) then []
    else Seen(s, acts[0]) + History(Do(s, acts[0]), acts[1..])
  }

  function Calls(s: State): seq<Atomic.Call<Op, Answer>> {
    seq(|s.pcs|, t requires 0 <= t < |s.pcs| => CallOf(s.pcs[t]))
  }

  function View(s: State): IndexBits {
    Atomic.Object(s.words, Calls(s))
  }

  lemma OtherCalls(s: State, a: Action)
    requires Enabled(s, a)
    ensures a.t < |s.pcs| == |Do(s, a).pcs|
    ensures Calls(Do(s, a)) == Calls(s)[a.t := CallOf(Do(s, a).pcs[a.t])]
    ensures |Calls(s)| == |s.pcs| && Calls(s)[a.t] == CallOf(s.pcs[a.t])
  {
    hide SetBit, ClearBit, TestBit, CallOf;
  }

  /** The operation the thread is called with, or was called with. */
  function OpFor(a: Action, pc: Pc): (op: Option<Op>) {
    if CallFor(a).Some? then CallFor(a)
    else if CallOf(pc).Pending? then Some(CallOf(pc).op)
    else None
  }

  /** The thread is in a call of `op`. */
  predicate InCall(op: Op, pc: Pc) {
    match op
    case Set(i) => (pc.SetCas? || pc.SetDone?) && pc.i == i
    case Clear(i) => (pc.ClearCas? || pc.ClearDone?) && pc.i == i
    case Find => pc.FindLoad? || pc.FindCas? || pc.FindDone? || pc.FindNone?
  }

  /** Where a step of `set` leaves its thread: done, or about to swap with the word that is there. */
  lemma SetPc(s: State, a: Action, i: nat)
    requires Enabled(s, a) && InWords(s, i)
    requires (a.BeginSet? && a.i == i) || (a.CasSet? && s.pcs[a.t].i == i)
    ensures var pc', w := Do(s, a).pcs[a.t], i / WORD;
            && |Do(s, a).pcs| == |s.pcs| && |Do(s, a).words| == |s.words|
            && (pc' == SetDone(i, true) || pc' == SetDone(i, false) || pc' == SetCas(i, Do(s, a).words[w]))
            && (Succeeds(s, a) ==> pc' == SetDone(i, true))
  {
    hide SetBit, TestBit;
  }

  lemma ClearPc(s: State, a: Action, i: nat)
    requires Enabled(s, a) && InWords(s, i)
    requires (a.BeginClear? && a.i == i) || (a.CasClear? && s.pcs[a.t].i == i)
    ensures var pc', w := Do(s, a).pcs[a.t], i / WORD;
            && |Do(s, a).pcs| == |s.pcs| && |Do(s, a).words| == |s.words|
            && (pc' == ClearDone(i, true) || pc' == ClearDone(i, false) || pc' == ClearCas(i, Do(s, a).words[w]))
            && (Succeeds(s, a) ==> pc' == ClearDone(i, true))
  {
    hide ClearBit, TestBit;
  }

  lemma FindPc(s: State, a: Action)
    requires Inv(s) && Enabled(s, a) && (a.BeginFind? || a.LoadFind? || a.CasFind?)
    ensures var pc', w := Do(s, a).pcs[a.t], if a.BeginFind? then 0 else s.pcs[a.t].w;
            && |Do(s, a).pcs| == |s.pcs| && |Do(s, a).words| == |s.words|
            && (Succeeds(s, a) ==> pc'.FindDone?)
            && (!Succeeds(s, a) ==>
                  pc' == NextWord(s, if a.BeginFind? then 0 else w + 1)
                  || (!a.BeginFind? && pc' == FindCas(w, Do(s, a).words[w])))
  {
    if Succeeds(s, a) { FindKeeps(s, a); }
    hide ClearBit, Inv, And, SetStep;
  }

  /** The index a call is about stays the one it was called with. */
  lemma SameIndex(s: State, a: Action)
    requires Inv(s) && Enabled(s, a) && !a.Return?
    ensures var pc, pc' := s.pcs[a.t], Do(s, a).pcs[a.t];
            && OpFor(a, pc).Some? && InCall(OpFor(a, pc).value, pc')
            && (if CallFor(a).Some? then pc == Ready else CallOf(pc).Pending?)
  {
    assert PcOk(s, s.pcs[a.t]);
    hide Do, Inv, AnswerOf, Succeeds, InWords, PcOk;
    if a.BeginSet? || a.CasSet? {
      SetPc(s, a, if a.BeginSet? then a.i else s.pcs[a.t].i);
    } else if a.BeginClear? || a.CasClear? {
      ClearPc(s, a, if a.BeginClear? then a.i else s.pcs[a.t].i);
    } else {
      NoGiveBack(s, a);
      FindPc(s, a);
    }
  }

  lemma NoGiveBack(s: State, a: Action)
    requires Inv(s) && Enabled(s, a)
    ensures !a.GiveBack?
  {
    assert PcOk(s, s.pcs[a.t]);
  }

  /** What the set does at a step that leaves the thread at `pc`. */
  function StepOf(pc: Pc): SetOp {
    match pc
    case SetDone(i, added) => if added then Insert(i) else Present(i)
    case ClearDone(i, found) => if found then Remove(i) else Absent(i)
    case FindDone(i) => Pick(i)
    case _ => Quiet
  }

  lemma StepEffect(op: Op, pc: Pc, words: seq<nat>, words': seq<nat>)
    requires InCall(op, pc) && SetStep(words, StepOf(pc), words')
    ensures if CallOf(pc).Pending? then words' == words && CallOf(pc) == Atomic.Pending(op)
            else CallOf(pc) == Atomic.Answered(AnswerOf(pc)) && SetEffect(words, op, AnswerOf(pc), words')
  {
    hide Has;
  }

  lemma StepOp(s: State, a: Action)
    requires Enabled(s, a) && !a.Return?
    ensures OpOf(s, a) == StepOf(Do(s, a).pcs[a.t])
  {
    hide Do;
  }

  /** How a step changes its thread's call and the words. */
  lemma StepCall(s: State, a: Action)
    requires Inv(s) && Enabled(s, a)
    ensures Atomic.Moves(SetEffect, s.words, CallOf(s.pcs[a.t]), CallFor(a), ReturnFor(s, a), Do(s, a).words,
                         CallOf(Do(s, a).pcs[a.t]))
  {
    if a.Return? {
      ReturnCall(s, a);
    } else {
      StepRefines(s, a);
      SameIndex(s, a);
      StepOp(s, a);
      ReadyCall();
      hide Inv, Do, Has, Enabled, SetStep, SetEffect, InCall, CallFor, CallOf, AnswerOf, StepOf;
      StepEffect(OpFor(a, s.pcs[a.t]).value, Do(s, a).pcs[a.t], s.words, Do(s, a).words);
    }
  }

  lemma ReturnCall(s: State, a: Action)
    requires Enabled(s, a) && a.Return?
    ensures Do(s, a).words == s.words && CallFor(a) == None && CallOf(Do(s, a).pcs[a.t]) == Atomic.NoCall
    ensures CallOf(s.pcs[a.t]) == Atomic.Answered(AnswerOf(s.pcs[a.t]))
  {
  }

  lemma ReadyCall()
    ensures CallOf(Ready) == Atomic.NoCall
  {
  }

  lemma StepSeen(s: State, a: Action)
    requires Inv(s) && Enabled(s, a)
    ensures Atomic.Linearizes(SetEffect, View(s), Seen(s, a), View(Do(s, a)))
  {
    StepCall(s, a);
    OtherCalls(s, a);
    hide Inv, Do, Enabled, SetEffect, Calls, CallOf, Atomic.Linearizes, Atomic.Moves;
    Atomic.MoveLinearizes(SetEffect, View(s), a.t, CallFor(a), ReturnFor(s, a), View(Do(s, a)));
  }

  lemma {:induction false} RunSeen(s: State, acts: seq<Action>, s': State)
    requires Inv(s) && Runs(s, acts, s')
    ensures Inv(s') && Atomic.Linearizes(SetEffect, View(s), History(s, acts), View(s'))
    decreases acts
  {
    if acts == [] {
      Atomic.NoEvent(SetEffect, View(s));
    } else {
      StepRefines(s, acts[0]);
      StepSeen(s, acts[0]);
      hide Inv, Do, Enabled, Seen, View, SetEffect, SetStep, OpOf;
      var mid := Do(s, acts[0]);
      RunSeen(mid, acts[1..], s');
      Atomic.Concat(SetEffect, View(s), Seen(s, acts[0]), View(mid), History(mid, acts[1..]), View(s'));
    }
  }

  /** Every run of any number of threads is a history of an atomic set that starts empty: each call takes
      effect once, between its call and its return, with the index it was called with and the result it
      returns. */
  lemma BitSetIsLinearizable(capacity: nat, threads: nat, acts: seq<Action>, s': State)
    requires Runs(Init(capacity, threads), acts, s')
    ensures (forall i: nat :: !Has(Init(capacity, threads).words, i)) && PaddingZero(s'.words, s'.capacity)
    ensures Atomic.Linearizes(SetEffect, Atomic.Object(Init(capacity, threads).words, seq(threads, _ => Atomic.NoCall)),
                              History(Init(capacity, threads), acts), View(s'))
  {
    var s := Init(capacity, threads);
    InitInv(capacity, threads);
    forall i: nat ensures !Has(s.words, i) { BitZero(i % WORD); }
    assert Calls(s) == seq(threads, _ => Atomic.NoCall);
    RunSeen(s, acts, s');
  }

  // ----- A call that runs alone ends -----

  /** How many steps thread `t` needs at most if no other thread changes the words. */
  function StepsAlone(s: State, t: nat): int
    requires t < |s.pcs|
  {
    match s.pcs[t]
    case SetCas(i, word) => if InWords(s, i) && word == s.words[i / WORD] then 1 else 2
    case ClearCas(i, word) => if InWords(s, i) && word == s.words[i / WORD] then 1 else 2
    case FindLoad(w) => |s.words| - w + 1
    case FindCas(w, word) => if w < |s.words| && word == s.words[w] then 1 else |s.words| - w + 1
    case _ => 0
  }

  /** Thread `t`'s next step, with a compare-and-swap that does not fail spuriously. */
  function NextStep(s: State, t: nat): Action
    requires t < |s.pcs|
  {
    match s.pcs[t]
    case SetCas(_, _) => CasSet(t, false)
    case ClearCas(_, _) => CasClear(t, false)
    case FindLoad(_) => LoadFind(t)
    case _ => CasFind(t, false)
  }

  lemma NextEnabled(s: State, t: nat)
    requires Inv(s) && t < |s.pcs| && CallOf(s.pcs[t]).Pending?
    ensures Enabled(s, NextStep(s, t)) && !s.pcs[t].FindGiveBack?
    ensures 0 < StepsAlone(s, t) <= |s.words| + 2
  {
    assert PcOk(s, s.pcs[t]);
    hide PaddingZero;
  }

  lemma StepAlone(s: State, t: nat)
    requires Inv(s) && t < |s.pcs| && CallOf(s.pcs[t]).Pending?
    ensures Enabled(s, NextStep(s, t)) && |Do(s, NextStep(s, t)).pcs| == |s.pcs|
    ensures 0 <= StepsAlone(Do(s, NextStep(s, t)), t) < StepsAlone(s, t) <= |s.words| + 2
    ensures CallOf(Do(s, NextStep(s, t)).pcs[t]) != Atomic.NoCall
  {
    NextEnabled(s, t);
    hide Do, Inv, AnswerOf;
    match s.pcs[t]
    case SetCas(i, _) => SetPc(s, CasSet(t, false), i);
    case ClearCas(i, _) => ClearPc(s, CasClear(t, false), i);
    case FindLoad(_) => FindPc(s, LoadFind(t));
    case FindCas(_, _) => FindPc(s, CasFind(t, false));
  }

  /** From every state of a run, a thread that is in a call and runs alone ends it: `set` and `clear`
      within two steps, `find_and_clear_first_set` within one for each word and one more. */
  lemma {:induction false} EndsAlone(s: State, t: nat) returns (acts: seq<Action>, s': State)
    requires Inv(s) && t < |s.pcs| && CallOf(s.pcs[t]) != Atomic.NoCall
    ensures Runs(s, acts, s') && 0 <= |acts| <= StepsAlone(s, t) && forall a <- acts :: a.t == t
    ensures |s'.pcs| == |s.pcs| && CallOf(s'.pcs[t]).Answered?
    ensures s.pcs[t].SetCas? || s.pcs[t].ClearCas? ==> |acts| <= 2
    ensures s.pcs[t].FindLoad? || s.pcs[t].FindCas? ==> |acts| <= |s.words| + 1
    decreases StepsAlone(s, t)
  {
    if !CallOf(s.pcs[t]).Pending? {
      acts, s' := [], s;
    } else {
      var a := NextStep(s, t);
      StepAlone(s, t);
      StepRefines(s, a);
      hide Do, Enabled, Inv, SetStep, OpOf, NextStep;
      acts, s' := EndsAlone(Do(s, a), t);
      assert ([a] + acts)[1..] == acts;
      acts := [a] + acts;
    }
  }
}
