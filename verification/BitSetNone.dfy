/** What `None` from a concurrent `find_and_clear_first_set` means. */
module BitSetNone {
  import opened Words
  import opened BitWords
  import opened BitSetSteps

  /** The state after the first `i` steps of a run. */
  function StateAt(s: State, acts: seq<Action>, i: nat): State
    decreases acts
  {
    if i == 0 || acts == [] || !Enabled(s, acts[0]) then s else StateAt(Do(s, acts[0]), acts[1..], i - 1)
  }

  /** Word `w` is zero before or after some step of the run. */
  ghost predicate ZeroOnce(s: State, acts: seq<Action>, w: nat) {
    exists i: nat :: i <= |acts| && w < |StateAt(s, acts, i).words| && StateAt(s, acts, i).words[w] == 0
  }

  lemma ZeroNow(s: State, acts: seq<Action>, w: nat)
    requires w < |s.words| && s.words[w] == 0
    ensures ZeroOnce(s, acts, w)
  {
    assert StateAt(s, acts, 0) == s;
  }

  lemma ZeroLater(s: State, acts: seq<Action>, w: nat)
    requires acts != [] && Enabled(s, acts[0]) && ZeroOnce(Do(s, acts[0]), acts[1..], w)
    ensures ZeroOnce(s, acts, w)
  {
    var i: nat :| i <= |acts[1..]| && w < |StateAt(Do(s, acts[0]), acts[1..], i).words|
                  && StateAt(Do(s, acts[0]), acts[1..], i).words[w] == 0;
    assert StateAt(s, acts, i + 1) == StateAt(Do(s, acts[0]), acts[1..], i);
  }

  /** The thread is looking at word `w` or at a later one, or has found nothing. */
  predicate At(pc: Pc, p: nat, words: nat) {
    match pc
    case FindLoad(w) => w == p
    case FindCas(w, _) => w == p
    case FindNone => p == words
    case _ => false
  }

  /** The call of thread `t` goes on. */
  predicate NoReturn(acts: seq<Action>, t: nat) {
    forall k :: 0 <= k < |acts| ==> acts[k] != Return(t)
  }

  /** A call that found an index cannot also find nothing. */
  lemma {:induction false} FoundStays(s: State, acts: seq<Action>, s': State, t: nat)
    requires Runs(s, acts, s') && NoReturn(acts, t) && t < |s.pcs| && s.pcs[t].FindDone?
    ensures t < |s'.pcs| && s'.pcs[t].FindDone?
    decreases acts
  {
    if acts != [] {
      assert acts[0] != Return(t);
      FoundStays(Do(s, acts[0]), acts[1..], s', t);
    }
  }

  /** One step of the searching thread: it stays at its word, or goes on because the word is zero, or
      has found an index. */
  lemma SearchStep(s: State, a: Action, p: nat)
    requires Inv(s) && Enabled(s, a) && At(s.pcs[a.t], p, |s.words|) && !a.Return? && p < |s.words|
    ensures var pc := Do(s, a).pcs[a.t];
            pc.FindDone? || At(pc, p, |s.words|) || (At(pc, p + 1, |s.words|) && s.words[p] == 0)
    ensures |Do(s, a).words| == |s.words|
  {
    StepRefines(s, a);
    hide PaddingZero, SetStep, And, SetBit, ClearBit, TrailingZeros;
    assert PcOk(Do(s, a), Do(s, a).pcs[a.t]);
  }

  lemma {:induction false} SearchedWords(s: State, acts: seq<Action>, s': State, t: nat, p: nat, w: nat)
    requires Inv(s) && Runs(s, acts, s') && NoReturn(acts, t) && t < |s.pcs| && At(s.pcs[t], p, |s.words|)
    requires |s'.pcs| == |s.pcs| && s'.pcs[t].FindNone? && p <= w < |s.words|
    ensures ZeroOnce(s, acts, w)
    decreases acts
  {
    if acts != [] {
      var a := acts[0];
      var mid := Do(s, a);
      assert a != Return(t);
      StepRefines(s, a);
      if a.t == t {
        SearchStep(s, a, p);
        if mid.pcs[t].FindDone? {
          FoundStays(mid, acts[1..], s', t);
        } else if At(mid.pcs[t], p, |s.words|) {
          SearchedWords(mid, acts[1..], s', t, p, w);
          ZeroLater(s, acts, w);
        } else if w == p {
          ZeroNow(s, acts, w);
        } else {
          SearchedWords(mid, acts[1..], s', t, p + 1, w);
          ZeroLater(s, acts, w);
        }
      } else {
        OtherThread(s, a, t);
        SearchedWords(mid, acts[1..], s', t, p, w);
        ZeroLater(s, acts, w);
      }
    }
  }

  lemma OtherThread(s: State, a: Action, t: nat)
    requires Enabled(s, a) && t < |s.pcs| && a.t != t
    ensures Do(s, a).pcs[t] == s.pcs[t] && |Do(s, a).pcs| == |s.pcs| && |Do(s, a).words| == |s.words|
  {
  }

  lemma {:induction false} SameThreads(s: State, acts: seq<Action>, s': State)
    requires Runs(s, acts, s')
    ensures |s'.pcs| == |s.pcs|
    decreases acts
  {
    if acts != [] { SameThreads(Do(s, acts[0]), acts[1..], s'); }
  }

  /** When a call of `find_and_clear_first_set` returns `None`, each word was zero at some instant
      between the call's begin and its end, in every run of any number of threads. */
  lemma NoneMeansEachWordWasZero(s: State, acts: seq<Action>, s': State, t: nat, w: nat)
    requires Inv(s) && acts != [] && acts[0] == BeginFind(t) && Runs(s, acts, s') && NoReturn(acts, t)
    requires t < |s'.pcs| && s'.pcs[t].FindNone? && w < |s.words|
    ensures ZeroOnce(s, acts, w)
  {
    var mid := Do(s, acts[0]);
    StepRefines(s, acts[0]);
    SameThreads(s, acts, s');
    SearchedWords(mid, acts[1..], s', t, 0, w);
    ZeroLater(s, acts, w);
  }

  // ----- With one word the set was empty, with two it need not be -----

  ghost predicate Nonempty(words: seq<nat>) {
    exists i: nat :: Has(words, i)
  }

  /** The steps `acts` are one call of thread `t` that returns `None`, among the steps of others. */
  predicate IsEmptyHanded(s: State, acts: seq<Action>, s': State, t: nat) {
    && acts != [] && acts[0] == BeginFind(t) && Runs(s, acts, s') && NoReturn(acts, t)
    && t < |s'.pcs| && s'.pcs[t].FindNone?
  }

  /** The set is empty before or after some step of the run. */
  ghost predicate EmptyOnce(s: State, acts: seq<Action>) {
    exists i: nat :: i <= |acts| && !Nonempty(StateAt(s, acts, i).words)
  }

  /** In every run of any number of threads, a call that returns `None` saw the set empty. */
  ghost predicate NoneMeansEmpty(capacity: nat) {
    forall threads: nat, before: seq<Action>, s: State, acts: seq<Action>, s': State, t: nat ::
      Runs(Init(capacity, threads), before, s) && IsEmptyHanded(s, acts, s', t) ==> EmptyOnce(s, acts)
  }

  lemma {:induction false} WordsKept(s: State, acts: seq<Action>, i: nat)
    ensures |StateAt(s, acts, i).words| == |s.words|
    decreases acts
  {
    if i > 0 && acts != [] && Enabled(s, acts[0]) { WordsKept(Do(s, acts[0]), acts[1..], i - 1); }
  }

  lemma {:induction false} RunInv(s: State, acts: seq<Action>, s': State)
    requires Inv(s) && Runs(s, acts, s')
    ensures Inv(s') && s'.capacity == s.capacity
    decreases acts
  {
    hide Inv, Do, Enabled, SetStep, OpOf;
    if acts != [] {
      StepRefines(s, acts[0]);
      CapacityKept(s, acts[0]);
      RunInv(Do(s, acts[0]), acts[1..], s');
    }
  }

  lemma CapacityKept(s: State, a: Action)
    requires Enabled(s, a)
    ensures Do(s, a).capacity == s.capacity
  {
    hide SetBit, ClearBit, And, TestBit, TrailingZeros;
  }

  lemma ZeroWordIsEmpty(words: seq<nat>)
    requires |words| <= 1 && (|words| == 1 ==> words[0] == 0)
    ensures !Nonempty(words)
  {
    forall i: nat ensures !Has(words, i) {
      if i / WORD < |words| { ZeroWordHas(words, 0, i); }
    }
  }

  /** With at most one word, the instant at which that word was zero is the instant the set was
      empty. */
  lemma OneWordEmpty(capacity: nat, threads: nat, before: seq<Action>, s: State, acts: seq<Action>, s': State, t: nat)
    requires capacity <= WORD && Runs(Init(capacity, threads), before, s) && IsEmptyHanded(s, acts, s', t)
    ensures EmptyOnce(s, acts)
  {
    InitInv(capacity, threads);
    RunInv(Init(capacity, threads), before, s);
    hide PaddingZero, Has, Nonempty;
    assert |s.words| == WordCount(capacity) <= 1 by { WordsOf(s); }
    var i: nat := 0;
    if |s.words| == 1 {
      NoneMeansEachWordWasZero(s, acts, s', t, 0);
      i :| i <= |acts| && 0 < |StateAt(s, acts, i).words| && StateAt(s, acts, i).words[0] == 0;
    }
    WordsKept(s, acts, i);
    ZeroWordIsEmpty(StateAt(s, acts, i).words);
  }

  lemma WordsOf(s: State)
    requires Inv(s)
    ensures |s.words| == WordCount(s.capacity)
  {
  }

  ghost predicate NeverEmpty(s: State, acts: seq<Action>)
    decreases acts
  {
    Nonempty(s.words) && (acts == [] || (Enabled(s, acts[0]) && NeverEmpty(Do(s, acts[0]), acts[1..])))
  }

  lemma {:induction false} NeverEmptyAt(s: State, acts: seq<Action>, i: nat)
    requires NeverEmpty(s, acts)
    ensures Nonempty(StateAt(s, acts, i).words)
    decreases acts
  {
    hide Nonempty, Do, Enabled;
    if i > 0 && acts != [] && Enabled(s, acts[0]) { NeverEmptyAt(Do(s, acts[0]), acts[1..], i - 1); }
  }

  lemma Prepend(s: State, a: Action, acts: seq<Action>, s': State)
    requires Nonempty(s.words) && Enabled(s, a) && Runs(Do(s, a), acts, s') && NeverEmpty(Do(s, a), acts)
    ensures Runs(s, [a] + acts, s') && NeverEmpty(s, [a] + acts)
  {
    hide Do, Enabled, Nonempty;
    assert ([a] + acts)[1..] == acts;
  }

  /** The word with just its lowest bit set. */
  lemma LowBit() returns (m: nat)
    ensures m == SetBit(0, 0) && m != 0 && TestBit(m, 0) && !TestBit(0, 0) && ClearBit(m, 0) == 0
  {
    m := SetBit(0, 0);
    TestBitIs(0, 0);
    TestBitIs(m, 0);
    SetBitBits(0, 0, 0);
    BitZero(0);
    SetBitFits(0, 0) by { Pow2Monotone(0, WORD); }
    forall i: nat ensures Bit(ClearBit(m, 0), i) <==> Bit(0, i) {
      ClearBitBits(m, 0, i);
      SetBitBits(0, 0, i);
      BitZero(i);
    }
    BitsDetermine(ClearBit(m, 0), 0);
  }

  lemma NonemptyLow(words: seq<nat>, w: nat, m: nat)
    requires w < |words| && words[w] == m && TestBit(m, 0)
    ensures Nonempty(words)
  {
    TestBitIs(m, 0);
    IndexParts(w, 0);
    assert Has(words, w * WORD + 0);
  }

  /** Two words and `n` zero words after them. */
  function WordsOfDuo(w0: nat, w1: nat, n: nat): (words: seq<nat>)
    ensures |words| == n + 2 && words[0] == w0 && words[1] == w1
    ensures forall i :: 2 <= i < n + 2 ==> words[i] == 0
  {
    [w0, w1] + seq(n, _ => 0)
  }

  /** Two threads. */
  function Duo(capacity: nat, w0: nat, w1: nat, n: nat, pc0: Pc, pc1: Pc): State {
    State(WordsOfDuo(w0, w1, n), capacity, [pc0, pc1])
  }

  lemma DuoUpdate(w0: nat, w1: nat, n: nat, x: nat)
    ensures WordsOfDuo(w0, w1, n)[0 := x] == WordsOfDuo(x, w1, n)
    ensures WordsOfDuo(w0, w1, n)[1 := x] == WordsOfDuo(w0, x, n)
  {
  }

  /** What happens during the call: thread 1 sets index 0 after thread 0 has passed its word, and
      then clears index 64 before thread 0 reaches that one. */
  function DuringFind(n: nat): seq<Action> {
    [BeginFind(0), LoadFind(0), BeginSet(1, 0), CasSet(1, false), Return(1), BeginClear(1, 64),
     CasClear(1, false)] + LoadsLeft(n + 1)
  }

  function LoadsLeft(n: nat): seq<Action> {
    seq(n, _ => LoadFind(0))
  }

  /** For every capacity of two words or more: a call that returns `None` although the set has a
      member before and after each of its steps. */
  lemma NoneThoughNeverEmpty(capacity: nat) returns (s: State, acts: seq<Action>, s': State)
    requires capacity > WORD
    ensures Runs(Init(capacity, 2), [BeginSet(1, 64), CasSet(1, false), Return(1)], s)
    ensures IsEmptyHanded(s, acts, s', 0) && NeverEmpty(s, acts)
  {
    var m := LowBit();
    hide SetBit, ClearBit, TestBit, Nonempty;
    assert WordCount(capacity) >= 2;
    var n := WordCount(capacity) - 2;
    hide WordCount;
    SetUp(capacity, n, m);
    s := Duo(capacity, 0, m, n, Ready, Ready);
    acts := DuringFind(n);
    s' := FindRun(capacity, n, m);
    forall k | 0 <= k < |acts| ensures acts[k] != Return(0) {
      if k >= 7 { assert acts[k] == LoadsLeft(n + 1)[k - 7]; }
    }
  }

  lemma SetUp(capacity: nat, n: nat, m: nat)
    requires m == SetBit(0, 0) && !TestBit(0, 0) && capacity > WORD && WordCount(capacity) == n + 2
    ensures Runs(Init(capacity, 2), [BeginSet(1, 64), CasSet(1, false), Return(1)],
                 Duo(capacity, 0, m, n, Ready, Ready))
  {
    hide SetBit, TestBit, WordCount;
    var s0 := Init(capacity, 2);
    assert s0.words == WordsOfDuo(0, 0, n);
    assert s0 == Duo(capacity, 0, 0, n, Ready, Ready);
    DuoUpdate(0, 0, n, m);
    var s1, s2 := Duo(capacity, 0, 0, n, Ready, SetCas(64, 0)), Duo(capacity, 0, m, n, Ready, SetDone(64, true));
    assert Do(s0, BeginSet(1, 64)) == s1;
    assert Do(s1, CasSet(1, false)) == s2;
    assert Do(s2, Return(1)) == Duo(capacity, 0, m, n, Ready, Ready);
    assert Runs(s2, [Return(1)], Duo(capacity, 0, m, n, Ready, Ready)) by { assert [Return(1)][1..] == []; }
    assert [CasSet(1, false), Return(1)][1..] == [Return(1)];
    assert [BeginSet(1, 64), CasSet(1, false), Return(1)][1..] == [CasSet(1, false), Return(1)];
  }

  lemma Link(s: State, m: nat, a: Action, next: State, acts: seq<Action>, s': State)
    requires TestBit(m, 0) && |s.words| >= 2 && (s.words[0] == m || s.words[1] == m)
    requires Enabled(s, a) && Do(s, a) == next && Runs(next, acts, s') && NeverEmpty(next, acts)
    ensures Runs(s, [a] + acts, s') && NeverEmpty(s, [a] + acts)
  {
    hide Nonempty, TestBit, Do, Enabled;
    NonemptyLow(s.words, if s.words[0] == m then 0 else 1, m);
    Prepend(s, a, acts, s');
  }

  lemma NoSteps(s: State, m: nat)
    requires TestBit(m, 0) && |s.words| >= 2 && s.words[0] == m
    ensures Runs(s, [], s) && NeverEmpty(s, [])
  {
    hide Nonempty, TestBit;
    NonemptyLow(s.words, 0, m);
  }

  /** Thread 0 stands before word `p`. */
  function Before(p: nat, n: nat): Pc {
    if p < n + 2 then FindLoad(p) else FindNone
  }

  lemma PassOne(capacity: nat, n: nat, m: nat, p: nat)
    requires 1 <= p < n + 2
    ensures var s := Duo(capacity, m, 0, n, Before(p, n), ClearDone(64, true));
            Enabled(s, LoadFind(0))
            && Do(s, LoadFind(0)) == Duo(capacity, m, 0, n, Before(p + 1, n), ClearDone(64, true))
  {
    hide SetBit, ClearBit, And, TestBit, WordsOfDuo;
    assert WordsOfDuo(m, 0, n)[p] == 0;
  }

  /** Thread 0 passes the remaining words, which are all zero. */
  lemma {:induction false} PassZeros(capacity: nat, n: nat, m: nat, p: nat) returns (s': State)
    requires TestBit(m, 0) && 1 <= p <= n + 2
    ensures var s := Duo(capacity, m, 0, n, Before(p, n), ClearDone(64, true));
            Runs(s, LoadsLeft(n + 2 - p), s') && NeverEmpty(s, LoadsLeft(n + 2 - p)) && s'.pcs == [FindNone, s.pcs[1]]
    decreases n + 2 - p
  {
    var s := Duo(capacity, m, 0, n, Before(p, n), ClearDone(64, true));
    hide TestBit, Nonempty, WordsOfDuo, Runs, NeverEmpty, Do, Enabled;
    if p == n + 2 {
      s' := s;
      NoSteps(s, m);
      assert LoadsLeft(0) == [];
    } else {
      var next := Duo(capacity, m, 0, n, Before(p + 1, n), ClearDone(64, true));
      PassOne(capacity, n, m, p);
      s' := PassZeros(capacity, n, m, p + 1);
      Link(s, m, LoadFind(0), next, LoadsLeft(n + 1 - p), s');
      assert [LoadFind(0)] + LoadsLeft(n + 1 - p) == LoadsLeft(n + 2 - p);
    }
  }

  /** Thread 1 clears index 64, and thread 0 passes word 1 and those behind it. */
  lemma ClearRun(capacity: nat, n: nat, m: nat) returns (tail: seq<Action>, s': State)
    requires m != 0 && TestBit(m, 0) && ClearBit(m, 0) == 0 && capacity > WORD
    ensures tail == [BeginClear(1, 64)] + ([CasClear(1, false)] + LoadsLeft(n + 1))
    ensures var s := Duo(capacity, m, m, n, FindLoad(1), Ready);
            Runs(s, tail, s') && NeverEmpty(s, tail) && s'.pcs == [FindNone, ClearDone(64, true)]
  {
    hide SetBit, ClearBit, TestBit, Nonempty, Runs, NeverEmpty, WordsOfDuo;
    DuoUpdate(m, m, n, 0);
    s' := PassZeros(capacity, n, m, 1);
    tail := LoadsLeft(n + 1);
    Link(Duo(capacity, m, m, n, FindLoad(1), ClearCas(64, m)), m, CasClear(1, false),
         Duo(capacity, m, 0, n, FindLoad(1), ClearDone(64, true)), tail, s');
    tail := [CasClear(1, false)] + tail;
    Link(Duo(capacity, m, m, n, FindLoad(1), Ready), m, BeginClear(1, 64),
         Duo(capacity, m, m, n, FindLoad(1), ClearCas(64, m)), tail, s');
    tail := [BeginClear(1, 64)] + tail;
  }

  /** Thread 1 sets index 0 while thread 0 stands before word 1. */
  lemma SetRun(capacity: nat, n: nat, m: nat, rest: seq<Action>, s': State) returns (tail: seq<Action>)
    requires m == SetBit(0, 0) && TestBit(m, 0) && !TestBit(0, 0) && capacity > WORD
    requires Runs(Duo(capacity, m, m, n, FindLoad(1), Ready), rest, s')
    requires NeverEmpty(Duo(capacity, m, m, n, FindLoad(1), Ready), rest)
    ensures tail == [BeginSet(1, 0)] + ([CasSet(1, false)] + ([Return(1)] + rest))
    ensures var s := Duo(capacity, 0, m, n, FindLoad(1), Ready); Runs(s, tail, s') && NeverEmpty(s, tail)
  {
    hide SetBit, ClearBit, TestBit, Nonempty, Runs, NeverEmpty, WordsOfDuo;
    DuoUpdate(0, m, n, m);
    Link(Duo(capacity, m, m, n, FindLoad(1), SetDone(0, true)), m, Return(1),
         Duo(capacity, m, m, n, FindLoad(1), Ready), rest, s');
    tail := [Return(1)] + rest;
    Link(Duo(capacity, 0, m, n, FindLoad(1), SetCas(0, 0)), m, CasSet(1, false),
         Duo(capacity, m, m, n, FindLoad(1), SetDone(0, true)), tail, s');
    tail := [CasSet(1, false)] + tail;
    Link(Duo(capacity, 0, m, n, FindLoad(1), Ready), m, BeginSet(1, 0),
         Duo(capacity, 0, m, n, FindLoad(1), SetCas(0, 0)), tail, s');
    tail := [BeginSet(1, 0)] + tail;
  }

  lemma FindRun(capacity: nat, n: nat, m: nat) returns (s': State)
    requires m == SetBit(0, 0) && m != 0 && TestBit(m, 0) && !TestBit(0, 0) && ClearBit(m, 0) == 0
    requires capacity > WORD
    ensures var s := Duo(capacity, 0, m, n, Ready, Ready);
            Runs(s, DuringFind(n), s') && NeverEmpty(s, DuringFind(n)) && s'.pcs == [FindNone, ClearDone(64, true)]
  {
    hide SetBit, ClearBit, TestBit, Nonempty, Runs, NeverEmpty, WordsOfDuo;
    var rest: seq<Action>;
    rest, s' := ClearRun(capacity, n, m);
    var tail := SetRun(capacity, n, m, rest, s');
    Link(Duo(capacity, 0, m, n, FindLoad(0), Ready), m, LoadFind(0),
         Duo(capacity, 0, m, n, FindLoad(1), Ready), tail, s');
    tail := [LoadFind(0)] + tail;
    Link(Duo(capacity, 0, m, n, Ready, Ready), m, BeginFind(0), Duo(capacity, 0, m, n, FindLoad(0), Ready), tail, s');
    assert DuringFind(n) == [BeginFind(0)] + tail;
  }

  /** `None` from a concurrent `find_and_clear_first_set` means that the set was empty at some instant
      of the call if and only if the set has at most one word. */
  lemma NoneMeansEmptyExactly(capacity: nat)
    ensures NoneMeansEmpty(capacity) <==> capacity <= WORD
  {
    if capacity <= WORD {
      forall threads: nat, before: seq<Action>, s: State, acts: seq<Action>, s': State, t: nat |
        Runs(Init(capacity, threads), before, s) && IsEmptyHanded(s, acts, s', t)
        ensures EmptyOnce(s, acts)
      {
        OneWordEmpty(capacity, threads, before, s, acts, s', t);
      }
    } else {
      var s, acts, s' := NoneThoughNeverEmpty(capacity);
      forall i: nat ensures Nonempty(StateAt(s, acts, i).words) {
        NeverEmptyAt(s, acts, i);
      }
      hide Runs, IsEmptyHanded, Nonempty, NeverEmpty;
      assert !EmptyOnce(s, acts);
    }
  }
}
