/** `MpmcContainer` in its sequential form: its own free-list, the occupancy bits and the values. */
module MpmcContainers {
  import opened Results
  import opened FreeList
  import opened FreeListSafety
  import opened IndexSet
  import opened BitSets

  lemma HeadGone(free: seq<nat>)
    requires Distinct(free) && free != []
    ensures forall i: nat :: i in free[1..] <==> i in free && i != free[0]
  {
    assert free == [free[0]] + free[1..];
    assert forall k :: 1 <= k < |free| ==> free[k] != free[0];
  }

  lemma InitialChain(next: seq<nat>, capacity: nat)
    requires 0 < capacity <= SENTINEL && |next| == capacity
             && forall j :: 0 <= j < capacity ==> next[j] == InitNext(capacity)[j]
    ensures IsChain(next, HeadOf(Pack(0, 0)), InitStack(capacity)) && Distinct(InitStack(capacity))
    ensures forall i: nat :: i < capacity ==> i in InitStack(capacity)
  {
    PackFields(0, 0);
    hide Pack, HeadOf;
    assert next == InitNext(capacity);
    InitChain(capacity);
    forall i: nat | i < capacity ensures i in InitStack(capacity) {
      assert InitStack(capacity)[i] == i;
    }
  }

  lemma AllTaken(contents: map<nat, nat>, capacity: nat)
    requires forall i: nat :: i in contents <==> i < capacity
    ensures |contents| == capacity
  {
    RangeSize(capacity);
    assert contents.Keys == Range(capacity);
  }

  class MpmcContainer {
    const data: array<nat>
    const occupied: AtomicBitSet
    var freeHead: nat
    const next: array<nat>
    const capacity: nat

    /** The free slots, next one first, and the values in the occupied ones. */
    ghost var free: seq<nat>
    ghost var contents: map<nat, nat>

    ghost predicate Apart() {
      data != next && data != occupied.words && next != occupied.words
    }

    ghost predicate ChainOk()
      reads this, next
    {
      && 0 < capacity <= SENTINEL && next.Length == capacity
      && IsChain(next[..], HeadOf(freeHead), free) && Distinct(free)
    }

    ghost predicate Valid()
      reads this, next, data, occupied.words
    {
      && Apart() && ChainOk() && data.Length == capacity && occupied.capacity == capacity && occupied.Valid()
      && occupied.Members() == contents.Keys
      && (forall i: nat :: i < capacity ==> (i in contents <==> i !in free))
      && forall i <- contents :: i < capacity && data[i] == contents[i]
    }

    constructor (capacity: nat)
      requires 0 < capacity <= SENTINEL
      ensures Valid() && this.capacity == capacity && contents == map[] && free == InitStack(capacity)
      ensures fresh(data) && fresh(next) && fresh(occupied.words)
    {
      var slots := new nat[capacity];
      for i := 0 to capacity
        invariant forall j :: 0 <= j < i ==> slots[j] == InitNext(capacity)[j]
      {
        slots[i] := if i + 1 < capacity then i + 1 else SENTINEL;
      }
      this.capacity := capacity;
      next := slots;
      data := new nat[capacity](_ => 0);
      occupied := new AtomicBitSet(capacity);
      freeHead := Pack(0, 0);
      free, contents := InitStack(capacity), map[];
      new;
      InitialChain(next[..], capacity);
      hide Pack, HeadOf, IsChain, Distinct, InitNext, InitStack, AtomicBitSet.Valid, AtomicBitSet.Members;
    }

    /** `compare_exchange_weak` on the head word. */
    method CompareExchangeWeak(expected: nat, desired: nat, spurious: bool) returns (ok: bool, current: nat)
      modifies this`freeHead
      ensures current == old(freeHead) && (ok <==> !spurious && old(freeHead) == expected)
      ensures freeHead == if ok then desired else old(freeHead)
    {
      current := freeHead;
      ok := !spurious && freeHead == expected;
      if ok { freeHead := desired; }
    }

    method AllocSlot(failures: nat) returns (r: Option<nat>)
      requires ChainOk()
      modifies this`freeHead, this`free
      ensures ChainOk()
      ensures old(free) == [] ==> r == None && free == [] && freeHead == old(freeHead)
      ensures old(free) != [] ==> r == Some(old(free)[0]) && free == old(free)[1..] && r.value < capacity
      ensures old(free) != [] ==> TagOf(freeHead) == WrappingInc(TagOf(old(freeHead)))
      ensures forall i: nat :: i in free <==> i in old(free) && r != Some(i)
    {
      var word := freeHead;
      var remaining := failures;
      while true
        invariant ChainOk() && word == freeHead == old(freeHead) && free == old(free)
        decreases remaining
      {
        var head := HeadOf(word);
        if head == SENTINEL {
          return None;
        }
        var nextIdx := next[head];
        var desired := Pack(nextIdx, WrappingInc(TagOf(word)));
        var ok, current := CompareExchangeWeak(word, desired, remaining > 0);
        if ok {
          PackFields(nextIdx, WrappingInc(TagOf(word)));
          hide Pack, HeadOf, TagOf;
          PopChain(next[..], head, free);
          HeadGone(free);
          free := free[1..];
          return Some(head);
        }
        word := current;
        remaining := remaining - 1;
      }
    }

    method FreeSlot(slot: nat, failures: nat)
      requires ChainOk() && slot < capacity && slot !in free
      modifies this`freeHead, this`free, next
      ensures ChainOk() && free == [slot] + old(free)
      ensures TagOf(freeHead) == WrappingInc(TagOf(old(freeHead)))
    {
      var word := freeHead;
      var remaining := failures;
      while true
        invariant ChainOk() && word == freeHead == old(freeHead) && free == old(free)
        decreases remaining
      {
        var head := HeadOf(word);
        ghost var slots := next[..];
        StoreChain(slots, head, free, slot);
        next[slot] := head;
        assert next[..] == slots[slot := head];
        var desired := Pack(slot, WrappingInc(TagOf(word)));
        var ok, current := CompareExchangeWeak(word, desired, remaining > 0);
        if ok {
          PackFields(slot, WrappingInc(TagOf(word)));
          hide Pack, HeadOf, TagOf;
          ChainPush(next[..], head, free, slot);
          free := [slot] + free;
          return;
        }
        word := current;
        remaining := remaining - 1;
      }
    }

    /** Stores the value in a free slot; fails, changing nothing, exactly when all are taken. The
        result of `occupied.set` is always true. */
    method Add(value: nat, failures: nat) returns (r: Option<nat>)
      requires Valid()
      modifies this`freeHead, this`free, this`contents, data, occupied.words
      ensures Valid()
      ensures r == None ==> |old(contents)| == capacity && contents == old(contents)
      ensures r.Some? ==>
                r.value < capacity && r.value !in old(contents) && contents == old(contents)[r.value := value]
    {
      hide Pack, HeadOf, IsChain, Distinct, AtomicBitSet.Valid, AtomicBitSet.Members;
      var got := AllocSlot(failures);
      if got == None {
        AllTaken(contents, capacity);
        return None;
      }
      var slot := got.value;
      data[slot] := value;
      var added := occupied.Set(slot, 0);
      assert added;
      contents := contents[slot := value];
      return Some(slot);
    }

    /** Empties a slot and returns the value it held; fails exactly when the slot is empty. */
    method Remove(slot: nat, failures: nat) returns (r: Option<nat>)
      requires Valid() && slot < capacity
      modifies this`freeHead, this`free, this`contents, next, occupied.words
      ensures Valid() && contents == old(contents) - {slot}
      ensures r == if slot in old(contents) then Some(old(contents)[slot]) else None
    {
      hide Pack, HeadOf, IsChain, Distinct, AtomicBitSet.Valid, AtomicBitSet.Members;
      var cleared := occupied.Clear(slot, 0);
      if !cleared {
        assert contents - {slot} == contents;
        return None;
      }
      var value := data[slot];
      FreeSlot(slot, failures);
      contents := contents - {slot};
      return Some(value);
    }

    method Get(slot: nat) returns (r: Option<nat>)
      requires Valid() && slot < capacity
      ensures r == if slot in contents then Some(contents[slot]) else None
    {
      hide Pack, HeadOf, IsChain, Distinct, AtomicBitSet.Valid, AtomicBitSet.Members;
      var present := occupied.IsSet(slot);
      r := if present then Some(data[slot]) else None;
    }

    /** The calls that `for_each` makes: every occupied slot with its value, in ascending order. */
    method ForEach() returns (calls: seq<(nat, nat)>)
      requires Valid()
      ensures forall j :: 0 <= j < |calls| ==> calls[j].0 in contents && calls[j].1 == contents[calls[j].0]
      ensures forall j, k :: 0 <= j < k < |calls| ==> calls[j].0 < calls[k].0
      ensures forall i <- contents :: (i, contents[i]) in calls
    {
      hide Pack, HeadOf, IsChain, Distinct, AtomicBitSet.Valid, AtomicBitSet.Members;
      calls := [];
      for i := 0 to capacity
        invariant Valid()
        invariant forall j :: 0 <= j < |calls| ==>
                    calls[j].0 < i && calls[j].0 in contents && calls[j].1 == contents[calls[j].0]
        invariant forall j, k :: 0 <= j < k < |calls| ==> calls[j].0 < calls[k].0
        invariant forall s <- contents :: s < i ==> (s, contents[s]) in calls
      {
        var present := occupied.IsSet(i);
        if present {
          calls := calls + [(i, data[i])];
        }
      }
    }

    method Len() returns (n: nat)
      requires Valid()
      ensures n == |contents|
    {
      hide Pack, HeadOf, IsChain, Distinct, AtomicBitSet.Valid, AtomicBitSet.Members;
      n := occupied.CountSet();
    }
  }
}
