/** What it means that a run of concurrent calls is a run of an atomic object. */
module AtomicObjects {
  import opened Results

  /** A thread's call: none; called; or taken effect, with the result it is about to return. */
  datatype Call<Op, R> = NoCall | Pending(op: Op) | Answered(result: R)

  /** The atomic object: its value, and the call of each thread. */
  datatype Object<V, Op, R> = Object(value: V, calls: seq<Call<Op, R>>)

  /** Callers see `Called` and `Returned`. `Took` is the instant at which a call takes effect. */
  datatype Event<Op, R> =
    | Called(t: nat, op: Op)
    | Took(t: nat, result: R)
    | Returned(t: nat, result: R)

  /** A call takes effect once, between its call and its return, on the value alone; `effect` relates
      the value before, the operation as it was called, the result it returns, and the value after. */
  ghost predicate Step<V(!new), Op(!new), R(!new)>(effect: (V, Op, R, V) -> bool, o: Object<V, Op, R>,
      e: Event<Op, R>, o': Object<V, Op, R>)
  {
    e.t < |o.calls| &&
    match e
    case Called(t, op) => o.calls[t].NoCall? && o' == Object(o.value, o.calls[t := Pending(op)])
    case Took(t, r) =>
      && o.calls[t].Pending? && effect(o.value, o.calls[t].op, r, o'.value)
      && o'.calls == o.calls[t := Answered(r)]
    case Returned(t, r) => o.calls[t] == Answered(r) && o' == Object(o.value, o.calls[t := NoCall])
  }

  ghost predicate Runs<V(!new), Op(!new), R(!new)>(effect: (V, Op, R, V) -> bool, o: Object<V, Op, R>,
      events: seq<Event<Op, R>>, o': Object<V, Op, R>)
    decreases events
  {
    if events == [] then o' == o
    else exists mid :: Step(effect, o, events[0], mid) && Runs(effect, mid, events[1..], o')
  }

  /** What callers see of some events. */
  function Visible<Op, R>(events: seq<Event<Op, R>>): (seen: seq<Event<Op, R>>)
    ensures forall e <- seen :: !e.Took?
  {
    if events == [] then []
    else (if events[0].Took? then [] else [events[0]]) + Visible(events[1..])
  }

  /** Callers who see `history` cannot tell the calls from calls of the atomic object. */
  ghost predicate Linearizes<V(!new), Op(!new), R(!new)>(effect: (V, Op, R, V) -> bool, o: Object<V, Op, R>,
      history: seq<Event<Op, R>>, o': Object<V, Op, R>)
  {
    exists events :: Runs(effect, o, events, o') && Visible(events) == history
  }

  lemma NoEvent<V(!new), Op(!new), R(!new)>(effect: (V, Op, R, V) -> bool, o: Object<V, Op, R>)
    ensures Linearizes(effect, o, [], o)
  {
    assert Runs(effect, o, [], o) && Visible<Op, R>([]) == [];
  }

  lemma OneEvent<V(!new), Op(!new), R(!new)>(effect: (V, Op, R, V) -> bool, o: Object<V, Op, R>,
      e: Event<Op, R>, o': Object<V, Op, R>)
    requires Step(effect, o, e, o')
    ensures Linearizes(effect, o, if e.Took? then [] else [e], o')
  {
    var events := [e];
    assert events[1..] == [];
    assert Runs(effect, o', events[1..], o');
    assert Runs(effect, o, events, o');
    assert Visible(events) == if e.Took? then [] else [e];
  }

  lemma RunsPrepend<V(!new), Op(!new), R(!new)>(effect: (V, Op, R, V) -> bool, o: Object<V, Op, R>,
      e: Event<Op, R>, mid: Object<V, Op, R>, events: seq<Event<Op, R>>, o': Object<V, Op, R>)
    requires Step(effect, o, e, mid) && Runs(effect, mid, events, o')
    ensures Runs(effect, o, [e] + events, o')
  {
    hide Step;
    assert ([e] + events)[1..] == events;
  }

  lemma {:induction false} RunsConcat<V(!new), Op(!new), R(!new)>(effect: (V, Op, R, V) -> bool,
      o: Object<V, Op, R>, before: seq<Event<Op, R>>, mid: Object<V, Op, R>, after: seq<Event<Op, R>>,
      o': Object<V, Op, R>)
    requires Runs(effect, o, before, mid) && Runs(effect, mid, after, o')
    ensures Runs(effect, o, before + after, o')
    decreases before
  {
    hide Step;
    if before == [] {
      assert before + after == after;
    } else {
      var next :| Step(effect, o, before[0], next) && Runs(effect, next, before[1..], mid);
      hide Runs;
      RunsConcat(effect, next, before[1..], mid, after, o');
      RunsPrepend(effect, o, before[0], next, before[1..] + after, o');
      assert before + after == [before[0]] + (before[1..] + after);
    }
  }

  lemma VisiblePrepend<Op(!new), R(!new)>(e: Event<Op, R>, events: seq<Event<Op, R>>)
    ensures Visible([e] + events) == (if e.Took? then [] else [e]) + Visible(events)
  {
    assert ([e] + events)[1..] == events;
  }

  lemma {:induction false} VisibleConcat<Op(!new), R(!new)>(before: seq<Event<Op, R>>, after: seq<Event<Op, R>>)
    ensures Visible(before + after) == Visible(before) + Visible(after)
    decreases before
  {
    if before == [] {
      assert before + after == after;
    } else {
      hide Visible;
      var e, rest := before[0], before[1..];
      VisibleConcat(rest, after);
      VisiblePrepend(e, rest);
      VisiblePrepend(e, rest + after);
      assert before == [e] + rest && before + after == [e] + (rest + after);
    }
  }

  lemma Concat<V(!new), Op(!new), R(!new)>(effect: (V, Op, R, V) -> bool, o: Object<V, Op, R>,
      before: seq<Event<Op, R>>, mid: Object<V, Op, R>, after: seq<Event<Op, R>>, o': Object<V, Op, R>)
    requires Linearizes(effect, o, before, mid) && Linearizes(effect, mid, after, o')
    ensures Linearizes(effect, o, before + after, o')
  {
    var first :| Runs(effect, o, first, mid) && Visible(first) == before;
    var second :| Runs(effect, mid, second, o') && Visible(second) == after;
    hide Runs, Visible;
    RunsConcat(effect, o, first, mid, second, o');
    VisibleConcat(first, second);
  }

  /** A step of one thread: its call may begin with `call`, takes effect or not, and may end with
      `answer`. The value changes only with the effect. */
  ghost predicate Moves<V(!new), Op(!new), R(!new)>(effect: (V, Op, R, V) -> bool, value: V, c: Call<Op, R>,
      call: Option<Op>, answer: Option<R>, value': V, c': Call<Op, R>)
  {
    var before := if call.Some? then Pending(call.value) else c;
    var after := if answer.Some? then Answered(answer.value) else c';
    && (call.Some? ==> c.NoCall?) && (answer.Some? ==> c'.NoCall?)
    && if after == before then value' == value
       else before.Pending? && after.Answered? && effect(value, before.op, after.result, value')
  }

  /** What callers see of such a step. */
  function Events<Op, R>(t: nat, call: Option<Op>, answer: Option<R>): seq<Event<Op, R>> {
    (if call.Some? then [Called(t, call.value)] else [])
    + (if answer.Some? then [Returned(t, answer.value)] else [])
  }

  lemma MoveLinearizes<V(!new), Op(!new), R(!new)>(effect: (V, Op, R, V) -> bool, o: Object<V, Op, R>,
      t: nat, call: Option<Op>, answer: Option<R>, o': Object<V, Op, R>)
    requires t < |o.calls| == |o'.calls| && o'.calls == o.calls[t := o'.calls[t]]
    requires Moves(effect, o.value, o.calls[t], call, answer, o'.value, o'.calls[t])
    ensures Linearizes(effect, o, Events(t, call, answer), o')
  {
    hide Linearizes;
    var before := if call.Some? then Pending(call.value) else o.calls[t];
    var after := if answer.Some? then Answered(answer.value) else o'.calls[t];
    var o1, o2 := Object(o.value, o.calls[t := before]), Object(o'.value, o.calls[t := after]);
    var calls: seq<Event<Op, R>> := if call.Some? then [Called(t, call.value)] else [];
    var answers: seq<Event<Op, R>> := if answer.Some? then [Returned(t, answer.value)] else [];
    if call.Some? { OneEvent(effect, o, Called(t, call.value), o1); } else { assert o1 == o; NoEvent(effect, o); }
    if after == before {
      assert o2 == o1;
      NoEvent(effect, o1);
    } else {
      assert o2.calls == o1.calls[t := after];
      OneEvent(effect, o1, Took(t, after.result), o2);
    }
    assert o'.calls == o2.calls[t := o'.calls[t]];
    assert !answer.Some? ==> o' == o2;
    if answer.Some? { OneEvent(effect, o2, Returned(t, answer.value), o'); } else { NoEvent(effect, o2); }
    Concat(effect, o, calls, o1, [], o2);
    Concat(effect, o, calls + [], o2, answers, o');
    assert calls + [] + answers == Events(t, call, answer);
  }
}
