/** `AtomicBitSet` as a step machine over its 64-bit words, and its refinement of an atomic set. */
module BitSetSteps {
  import opened Words
  import opened BitWords

  /** Where a thread stands in `set`, `clear` or `find_and_clear_first_set`. */
  datatype Pc =
    | Ready
    | SetCas(i: nat, word: nat)       // about to swap in `word | bit`
    | SetDone(i: nat, added: bool)
    | ClearCas(i: nat, word: nat)     // about to swap in `word & !bit`
    | ClearDone(i: nat, found: bool)
    | FindLoad(w: nat)                // about to load word `w`
    | FindCas(w: nat, word: nat)
    | FindGiveBack(w: nat, k: nat)    // cleared a padding bit, about to put it back
    | FindDone(i: nat)
    | FindNone

  datatype State = State(words: seq<nat>, capacity: nat, pcs: seq<Pc>)

  datatype Action =
    | BeginSet(t: nat, i: nat)
    | CasSet(t: nat, spurious: bool)
    | BeginClear(t: nat, i: nat)
    | CasClear(t: nat, spurious: bool)
    | BeginFind(t: nat)
    | LoadFind(t: nat)
    | CasFind(t: nat, spurious: bool)
    | GiveBack(t: nat)
    | Return(t: nat)

  function Init(capacity: nat, threads: nat): State {
    State(seq(WordCount(capacity), _ => 0), capacity, seq(threads, _ => Ready))
  }

  predicate InWords(s: State, i: nat) {
    i / WORD < |s.words|
  }

  predicate Enabled(s: State, a: Action) {
    && a.t < |s.pcs|
    && var pc := s.pcs[a.t];
       match a
       case BeginSet(_, i) => pc.Ready? && i < s.capacity && InWords(s, i)
       case CasSet(_, _) => pc.SetCas? && InWords(s, pc.i)
       case BeginClear(_, i) => pc.Ready? && i < s.capacity && InWords(s, i)
       case CasClear(_, _) => pc.ClearCas? && InWords(s, pc.i)
       case BeginFind(_) => pc.Ready?
       case LoadFind(_) => pc.FindLoad? && pc.w < |s.words|
       case CasFind(_, _) => pc.FindCas? && pc.w < |s.words| && pc.word != 0
       case GiveBack(_) => pc.FindGiveBack? && pc.w < |s.words|
       case Return(_) => pc.SetDone? || pc.ClearDone? || pc.FindDone? || pc.FindNone?
  }

  predicate Succeeds(s: State, a: Action)
    requires Enabled(s, a)
  {
    match a
    case CasSet(t, spurious) => !spurious && s.pcs[t].word == s.words[s.pcs[t].i / WORD]
    case CasClear(t, spurious) => !spurious && s.pcs[t].word == s.words[s.pcs[t].i / WORD]
    case CasFind(t, spurious) => !spurious && s.pcs[t].word == s.words[s.pcs[t].w]
    case _ => false
  }

  function WithPc(s: State, t: nat, pc: Pc): State
    requires t < |s.pcs|
  {
    s.(pcs := s.pcs[t := pc])
  }

  /** What `set` does with the word it loaded. */
  function AfterSetLoad(s: State, i: nat): Pc
    requires InWords(s, i)
  {
    var word := s.words[i / WORD];
    if TestBit(word, i % WORD) then SetDone(i, false) else SetCas(i, word)
  }

  function AfterClearLoad(s: State, i: nat): Pc
    requires InWords(s, i)
  {
    var word := s.words[i / WORD];
    if TestBit(word, i % WORD) then ClearCas(i, word) else ClearDone(i, false)
  }

  /** The next word `find_and_clear_first_set` looks at, or its end. */
  function NextWord(s: State, w: nat): Pc {
    if w < |s.words| then FindLoad(w) else FindNone
  }

  function AfterFindLoad(s: State, w: nat): Pc
    requires w < |s.words|
  {
    if s.words[w] == 0 then NextWord(s, w + 1) else FindCas(w, s.words[w])
  }

  function Do(s: State, a: Action): State
    requires Enabled(s, a)
  {
    var pc := s.pcs[a.t];
    match a
    case BeginSet(t, i) => WithPc(s, t, AfterSetLoad(s, i))
    case CasSet(t, _) =>
      var w := pc.i / WORD;
      if Succeeds(s, a)
      then WithPc(s.(words := s.words[w := SetBit(pc.word, pc.i % WORD)]), t, SetDone(pc.i, true))
      else WithPc(s, t, AfterSetLoad(s, pc.i))
    case BeginClear(t, i) => WithPc(s, t, AfterClearLoad(s, i))
    case CasClear(t, _) =>
      var w := pc.i / WORD;
      if Succeeds(s, a)
      then WithPc(s.(words := s.words[w := ClearBit(pc.word, pc.i % WORD)]), t, ClearDone(pc.i, true))
      else WithPc(s, t, AfterClearLoad(s, pc.i))
    case BeginFind(t) => WithPc(s, t, NextWord(s, 0))
    case LoadFind(t) => WithPc(s, t, AfterFindLoad(s, pc.w))
    case CasFind(t, _) =>
      if !Succeeds(s, a) then WithPc(s, t, AfterFindLoad(s, pc.w))
      else
        var k := TrailingZeros(pc.word);
        var i := pc.w * WORD + k;
        WithPc(s.(words := s.words[pc.w := And(pc.word, NotMask(k))]), t,
               if i < s.capacity then FindDone(i) else FindGiveBack(pc.w, k))
    case GiveBack(t) => WithPc(s.(words := s.words[pc.w := SetBit(s.words[pc.w], pc.k)]), t, FindNone)
    case Return(t) => WithPc(s, t, Ready)
  }

  /** `!(1 << k)`; the shift is by less than the word size for every nonzero 64-bit word. */
  function NotMask(k: nat): nat {
    if k < WORD then MaskValue(k); Not(Mask(k), WORD) else 0
  }

  predicate Runs(s: State, acts: seq<Action>, s': State)
    decreases acts
  {
    if acts == [] then s' == s
    else Enabled(s, acts[0]) && Runs(Do(s, acts[0]), acts[1..], s')
  }

  ghost predicate PcOk(s: State, pc: Pc) {
    match pc
    case SetCas(i, word) => i < s.capacity && InWords(s, i) && !Bit(word, i % WORD)
    case ClearCas(i, word) => i < s.capacity && InWords(s, i) && Bit(word, i % WORD)
    case FindLoad(w) => w < |s.words|
    case FindCas(w, word) => w < |s.words| && word != 0
    case FindGiveBack(_, _) => false
    case _ => true
  }

  /** Padding bits are zero, and no thread has a padding bit to put back. */
  ghost predicate Inv(s: State) {
    && PaddingZero(s.words, s.capacity)
    && forall t :: 0 <= t < |s.pcs| ==> PcOk(s, s.pcs[t])
  }

  // ----- The atomic set it refines -----

  datatype SetOp =
    | Insert(i: nat)      // returns true: i was absent
    | Present(i: nat)     // set returns false
    | Remove(i: nat)      // clear returns true: i was present
    | Absent(i: nat)      // clear returns false
    | Pick(i: nat)        // find returns i, the least element of its word
    | Quiet

  ghost predicate SetStep(words: seq<nat>, op: SetOp, words': seq<nat>) {
    match op
    case Insert(i) => !Has(words, i) && forall j: nat :: Has(words', j) <==> Has(words, j) || j == i
    case Present(i) => Has(words, i) && words' == words
    case Remove(i) => Has(words, i) && forall j: nat :: Has(words', j) <==> Has(words, j) && j != i
    case Absent(i) => !Has(words, i) && words' == words
    case Pick(i) =>
      && Has(words, i)
      && (forall j: nat :: Has(words', j) <==> Has(words, j) && j != i)
      && forall j: nat :: Has(words, j) && j / WORD == i / WORD ==> i <= j
    case Quiet => words' == words
  }

  /** The operation a step completes: the successful swap of `set`, `clear` or `find`, or the
      load at which `set` finds the bit set and `clear` finds it unset. */
  function OpOf(s: State, a: Action): SetOp
    requires Enabled(s, a)
  {
    if a.Return? then Quiet else
    match Do(s, a).pcs[a.t]
    case SetDone(i, added) => if added then Insert(i) else Present(i)
    case ClearDone(i, found) => if found then Remove(i) else Absent(i)
    case FindDone(i) => Pick(i)
    case _ => Quiet
  }

  lemma InitInv(capacity: nat, threads: nat)
    ensures Inv(Init(capacity, threads))
  {
    var words := Init(capacity, threads).words;
    forall i: nat | Has(words, i) ensures false {
      BitZero(i % WORD);
    }
  }

  lemma LoadKeeps(s: State, t: nat, i: nat)
    requires Inv(s) && t < |s.pcs| && i < s.capacity && InWords(s, i)
    ensures Inv(WithPc(s, t, AfterSetLoad(s, i))) && Inv(WithPc(s, t, AfterClearLoad(s, i)))
    ensures TestBit(s.words[i / WORD], i % WORD) <==> Has(s.words, i)
  {
    TestBitIs(s.words[i / WORD], i % WORD);
  }

  lemma OthersKeep(s: State, s': State, t: nat)
    requires Inv(s) && t < |s.pcs| == |s'.pcs| && s'.pcs == s.pcs[t := s'.pcs[t]]
    requires s'.capacity == s.capacity && PaddingZero(s'.words, s'.capacity) && PcOk(s', s'.pcs[t])
    ensures Inv(s')
  {
    forall u | 0 <= u < |s'.pcs| ensures PcOk(s', s'.pcs[u]) {
      assert PcOk(s, s.pcs[u]);
    }
  }

  lemma SetKeeps(s: State, a: Action)
    requires Inv(s) && Enabled(s, a) && a.CasSet? && Succeeds(s, a)
    ensures Inv(Do(s, a)) && SetStep(s.words, Insert(s.pcs[a.t].i), Do(s, a).words)
  {
    var i := s.pcs[a.t].i;
    assert PcOk(s, s.pcs[a.t]);
    SetBitHas(s.words, s.capacity, i);
    OthersKeep(s, Do(s, a), a.t);
  }

  lemma ClearKeeps(s: State, a: Action)
    requires Inv(s) && Enabled(s, a) && a.CasClear? && Succeeds(s, a)
    ensures Inv(Do(s, a)) && SetStep(s.words, Remove(s.pcs[a.t].i), Do(s, a).words)
  {
    var i := s.pcs[a.t].i;
    assert PcOk(s, s.pcs[a.t]);
    ClearBitHas(s.words, s.capacity, i);
    OthersKeep(s, Do(s, a), a.t);
  }

  /** The bit that `find` clears is below the capacity, so it never has to be put back. */
  lemma FindKeeps(s: State, a: Action)
    requires Inv(s) && Enabled(s, a) && a.CasFind? && Succeeds(s, a)
    ensures Inv(Do(s, a)) && Do(s, a).pcs[a.t].FindDone?
    ensures SetStep(s.words, Pick(Do(s, a).pcs[a.t].i), Do(s, a).words)
  {
    var w, word := s.pcs[a.t].w, s.words[s.pcs[a.t].w];
    var k := TrailingZeros(word);
    LowestHas(s.words, s.capacity, w);
    IndexParts(w, k);
    ClearBitHas(s.words, s.capacity, w * WORD + k);
    FindDoes(s, a, w * WORD + k);
    hide PaddingZero, Has, Do;
    OthersKeep(s, Do(s, a), a.t);
  }

  lemma FindDoes(s: State, a: Action, i: nat)
    requires Enabled(s, a) && a.CasFind? && Succeeds(s, a) && i < s.capacity
    requires i / WORD == s.pcs[a.t].w && i % WORD == TrailingZeros(s.pcs[a.t].word)
    ensures Do(s, a)
         == WithPc(s.(words := s.words[i / WORD := ClearBit(s.words[i / WORD], i % WORD)]), a.t, FindDone(i))
  {
  }

  /** Every step keeps the padding zero and is the set operation `OpOf` names. */
  lemma StepRefines(s: State, a: Action)
    requires Inv(s) && Enabled(s, a)
    ensures Inv(Do(s, a)) && SetStep(s.words, OpOf(s, a), Do(s, a).words)
  {
    hide SetStep, PaddingZero, Has, Do, OpOf;
    var pc := s.pcs[a.t];
    assert PcOk(s, pc);
    if Succeeds(s, a) {
      if a.CasSet? { SetKeeps(s, a); }
      if a.CasClear? { ClearKeeps(s, a); }
      if a.CasFind? { FindKeeps(s, a); }
      SwapOp(s, a);
    } else if a.BeginSet? || a.BeginClear? {
      LoadKeeps(s, a.t, a.i);
      LoadRefines(s, a, a.i);
    } else if a.CasSet? || a.CasClear? {
      LoadKeeps(s, a.t, pc.i);
      LoadRefines(s, a, pc.i);
    } else {
      OtherRefines(s, a);
    }
  }

  lemma OtherRefines(s: State, a: Action)
    requires Inv(s) && Enabled(s, a) && (a.BeginFind? || a.LoadFind? || a.CasFind? || a.GiveBack? || a.Return?)
    requires !Succeeds(s, a)
    ensures Inv(Do(s, a)) && SetStep(s.words, OpOf(s, a), Do(s, a).words)
  {
    hide PaddingZero, Has;
    assert PcOk(s, s.pcs[a.t]);
    OthersKeep(s, Do(s, a), a.t);
  }

  lemma SwapOp(s: State, a: Action)
    requires Enabled(s, a) && Succeeds(s, a)
    ensures OpOf(s, a) == match a
                          case CasSet(t, _) => Insert(s.pcs[t].i)
                          case CasClear(t, _) => Remove(s.pcs[t].i)
                          case CasFind(t, _) => if Do(s, a).pcs[t].FindDone? then Pick(Do(s, a).pcs[t].i) else Quiet
                          case _ => Quiet
  {
  }

  lemma LoadRefines(s: State, a: Action, i: nat)
    requires Enabled(s, a) && !Succeeds(s, a) && i < s.capacity && InWords(s, i)
    requires TestBit(s.words[i / WORD], i % WORD) <==> Has(s.words, i)
    requires ((a.BeginSet? || a.BeginClear?) && a.i == i) || ((a.CasSet? || a.CasClear?) && s.pcs[a.t].i == i)
    ensures Do(s, a) == WithPc(s, a.t, if a.BeginSet? || a.CasSet? then AfterSetLoad(s, i) else AfterClearLoad(s, i))
    ensures SetStep(s.words, OpOf(s, a), Do(s, a).words)
  {
  }

  function OpsOf(s: State, acts: seq<Action>): seq<SetOp>
    decreases acts
  {
    if acts == [] || !Enabled(s, acts[0]) then []
    else [OpOf(s, acts[0])] + OpsOf(Do(s, acts[0]), acts[1..])
  }

  ghost predicate SetRuns(words: seq<nat>, ops: seq<SetOp>, mids: seq<seq<nat>>, words': seq<nat>)
    decreases ops
  {
    |mids| == |ops| &&
    if ops == [] then words' == words
    else SetStep(words, ops[0], mids[0]) && SetRuns(mids[0], ops[1..], mids[1..], words')
  }

  /** Every run of any number of threads is a run of an atomic set of indices below the capacity;
      the branch of `find_and_clear_first_set` that puts a padding bit back is never taken. */
  lemma {:induction false} RunRefines(s: State, acts: seq<Action>, s': State) returns (mids: seq<seq<nat>>)
    requires Inv(s) && Runs(s, acts, s')
    ensures Inv(s') && SetRuns(s.words, OpsOf(s, acts), mids, s'.words)
    ensures forall t :: 0 <= t < |s'.pcs| ==> !s'.pcs[t].FindGiveBack?
    decreases acts
  {
    if acts == [] {
      mids := [];
      forall t | 0 <= t < |s'.pcs| ensures !s'.pcs[t].FindGiveBack? {
        assert PcOk(s', s'.pcs[t]);
      }
    } else {
      hide Inv, SetStep, Do, OpOf;
      StepRefines(s, acts[0]);
      mids := RunRefines(Do(s, acts[0]), acts[1..], s');
      mids := [Do(s, acts[0]).words] + mids;
    }
  }
}
