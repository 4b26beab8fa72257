/** `SpscQueue` and `ZeroCopyChannel` in their sequential form. */
module Channels {
  import opened Words
  import opened Results
  import Spsc = SpscSteps

  class SpscQueue {
    var writePos: nat
    var readPos: nat
    const capacity: nat
    const mask: nat
    const data: array<nat>

    /** The values waiting, oldest first, and how many were taken before. */
    ghost var items: seq<nat>
    ghost var taken: nat
    ghost const exponent: nat

    ghost predicate Valid()
      reads this, data
    {
      && exponent <= 63 && capacity == Pow2(exponent) == data.Length && mask == capacity - 1
      && writePos == (taken + |items|) % U64 && readPos == taken % U64 && |items| <= capacity
      && forall j :: 0 <= j < |items| ==> data[Remainder(taken + j, capacity)] == items[j]
    }

    constructor (requested: nat)
      requires requested <= 0x8000_0000_0000_0000
      ensures Valid() && fresh(data) && capacity == Spsc.Rounded(requested) >= requested && items == []
    {
      ghost var k := Spsc.RoundedIsPower(requested);
      hide Spsc.Rounded, Pow2;
      var size := Spsc.Rounded(requested);
      capacity := size;
      mask := size - 1;
      data := new nat[size](_ => 0);
      writePos, readPos := 0, 0;
      items, taken, exponent := [], 0, k;
    }

    /** Appends the value; fails, changing nothing, exactly when `capacity` values are waiting. */
    method Push(value: nat) returns (ok: bool)
      requires Valid()
      modifies this`writePos, this`items, data
      ensures Valid() && (ok <==> |old(items)| < capacity)
      ensures items == if ok then old(items) + [value] else old(items)
    {
      hide Pow2, And, Remainder;
      var write, read := writePos, readPos;
      Spsc.PowerBelowWord(exponent);
      WrappingDistance(taken, taken + |items|, U64);
      if Spsc.WrappingSub(write, read) >= capacity {
        return false;
      }
      ghost var count := taken + |items|;
      Spsc.MaskedSlot(count, exponent);
      var idx := And(write, mask);
      forall n: nat | taken <= n < count ensures Remainder(n, capacity) != idx {
        Spsc.SlotsDiffer(n, count, capacity);
      }
      data[idx] := value;
      ModIncrement(count, U64);
      writePos := Spsc.WrappingInc(write);
      items := items + [value];
      return true;
    }

    /** Takes the oldest value; fails exactly when none is waiting. */
    method Pop() returns (r: Option<nat>)
      requires Valid()
      modifies this`readPos, this`items, this`taken
      ensures Valid()
      ensures old(items) == [] ==> r == None && items == []
      ensures old(items) != [] ==> r == Some(old(items)[0]) && items == old(items)[1..]
    {
      hide Pow2, And, Remainder;
      var read, write := readPos, writePos;
      Spsc.PowerBelowWord(exponent);
      if read == write {
        ModInjective(taken, taken + |items|, U64);
        return None;
      }
      assert items != [];
      Spsc.MaskedSlot(taken, exponent);
      var idx := And(read, mask);
      assert Remainder(taken + 0, capacity) == idx;
      var value := data[idx];
      ModIncrement(taken, U64);
      forall j | 0 <= j < |items| - 1
        ensures data[Remainder(taken + 1 + j, capacity)] == items[1..][j]
      {
        assert items[1..][j] == items[j + 1] && taken + 1 + j == taken + (j + 1);
      }
      readPos := Spsc.WrappingInc(read);
      items := items[1..];
      taken := taken + 1;
      return Some(value);
    }

    method Len() returns (n: nat)
      requires Valid()
      ensures n == |items|
    {
      hide Pow2, Remainder;
      Spsc.PowerBelowWord(exponent);
      WrappingDistance(taken, taken + |items|, U64);
      n := Spsc.WrappingSub(writePos, readPos);
    }

    method IsEmpty() returns (empty: bool)
      requires Valid()
      ensures empty <==> items == []
    {
      hide Pow2, Remainder;
      Spsc.PowerBelowWord(exponent);
      if readPos == writePos { ModInjective(taken, taken + |items|, U64); }
      empty := readPos == writePos;
    }

    method IsFull() returns (full: bool)
      requires Valid()
      ensures full <==> |items| == capacity
    {
      hide Pow2, Remainder;
      Spsc.PowerBelowWord(exponent);
      WrappingDistance(taken, taken + |items|, U64);
      full := Spsc.WrappingSub(writePos, readPos) >= capacity;
    }
  }

  datatype ChannelState = Creating | Connected | Disconnected

  datatype SendError = ConnectionBroken | QueueFull

  datatype ReceiveError = Broken | Empty

  class ZeroCopyChannel {
    const sendQueue: SpscQueue
    const returnQueue: SpscQueue
    var state: ChannelState

    ghost function Repr(): set<object> {
      {this, sendQueue, sendQueue.data, returnQueue, returnQueue.data}
    }

    ghost predicate Valid()
      reads Repr()
    {
      && sendQueue.Valid() && returnQueue.Valid() && sendQueue != returnQueue
      && sendQueue.data != returnQueue.data && sendQueue.capacity == returnQueue.capacity
    }

    /** Offsets under way to the receiver. */
    ghost function Sent(): seq<nat>
      reads sendQueue
    {
      sendQueue.items
    }

    /** Offsets on their way back. */
    ghost function Returned(): seq<nat>
      reads returnQueue
    {
      returnQueue.items
    }

    ghost function Capacity(): nat {
      sendQueue.capacity
    }

    constructor (capacity: nat)
      requires capacity <= 0x8000_0000_0000_0000
      ensures Valid() && fresh(Repr()) && state == Creating
      ensures Capacity() == Spsc.Rounded(capacity) >= capacity && Sent() == [] && Returned() == []
    {
      sendQueue := new SpscQueue(capacity);
      returnQueue := new SpscQueue(capacity);
      state := Creating;
    }

    method Connect()
      requires Valid()
      modifies this`state
      ensures Valid() && state == Connected && Sent() == old(Sent()) && Returned() == old(Returned())
    {
      state := Connected;
    }

    method Disconnect()
      requires Valid()
      modifies this`state
      ensures Valid() && state == Disconnected && Sent() == old(Sent()) && Returned() == old(Returned())
    {
      state := Disconnected;
    }

    /** Fails only on a disconnected channel or a full queue. */
    method Send(offset: nat) returns (r: Result<(), SendError>)
      requires Valid()
      modifies sendQueue`writePos, sendQueue`items, sendQueue.data
      ensures Valid() && Returned() == old(Returned())
      ensures state.Disconnected? ==> r == Err(ConnectionBroken) && Sent() == old(Sent())
      ensures !state.Disconnected? ==> r == if |old(Sent())| < Capacity() then Ok(()) else Err(QueueFull)
      ensures Sent() == if r.Ok? then old(Sent()) + [offset] else old(Sent())
    {
      if state == Disconnected {
        return Err(ConnectionBroken);
      }
      var pushed := sendQueue.Push(offset);
      r := if pushed then Ok(()) else Err(QueueFull);
    }

    /** What is under way is still received after a disconnect. */
    method Receive() returns (r: Result<nat, ReceiveError>)
      requires Valid()
      modifies sendQueue`readPos, sendQueue`items, sendQueue`taken
      ensures Valid() && Returned() == old(Returned())
      ensures old(Sent()) != [] ==> r == Ok(old(Sent())[0]) && Sent() == old(Sent())[1..]
      ensures old(Sent()) == [] ==> r == Err(if state.Disconnected? then Broken else Empty) && Sent() == []
    {
      var empty := sendQueue.IsEmpty();
      if state == Disconnected && empty {
        return Err(Broken);
      }
      var got := sendQueue.Pop();
      r := if got.Some? then Ok(got.value) else Err(Empty);
    }

    /** Pushes until there is room, watched for `turns` turns of the loop. With room the first push
        succeeds; on a full queue the loop spins, changing nothing, for as long as it is watched. */
    method ReturnOffset(offset: nat, turns: nat) returns (done: bool)
      requires Valid()
      modifies returnQueue`writePos, returnQueue`items, returnQueue.data
      ensures Valid() && Sent() == old(Sent())
      ensures done <==> turns > 0 && |old(Returned())| < Capacity()
      ensures Returned() == if done then old(Returned()) + [offset] else old(Returned())
    {
      hide SpscQueue.Valid;
      done := false;
      var left := turns;
      while !done && left > 0
        invariant left <= turns && Valid() && Sent() == old(Sent())
        invariant done ==> turns > 0 && |old(Returned())| < Capacity()
        invariant left < turns && !done ==> |old(Returned())| >= Capacity()
        invariant Returned() == if done then old(Returned()) + [offset] else old(Returned())
        decreases left
      {
        done := returnQueue.Push(offset);
        left := left - 1;
      }
    }

    method Reclaim() returns (r: Option<nat>)
      requires Valid()
      modifies returnQueue`readPos, returnQueue`items, returnQueue`taken
      ensures Valid() && Sent() == old(Sent())
      ensures old(Returned()) != [] ==> r == Some(old(Returned())[0]) && Returned() == old(Returned())[1..]
      ensures old(Returned()) == [] ==> r == None && Returned() == []
    {
      r := returnQueue.Pop();
    }

    method PendingCount() returns (n: nat)
      requires Valid()
      ensures n == |Sent()|
    {
      n := sendQueue.Len();
    }

    method ReturnCount() returns (n: nat)
      requires Valid()
      ensures n == |Returned()|
    {
      n := returnQueue.Len();
    }
  }
  /** A new channel in the state in which the ports hand it out. */
  method OpenChannel(capacity: nat) returns (channel: ZeroCopyChannel)
    requires capacity <= 0x8000_0000_0000_0000
    ensures channel.Valid() && fresh(channel.Repr()) && channel.state == Connected
    ensures channel.Capacity() == Spsc.Rounded(capacity) >= capacity
    ensures channel.Sent() == [] && channel.Returned() == []
  {
    hide SpscQueue.Valid, Spsc.Rounded;
    channel := new ZeroCopyChannel(capacity);
    channel.Connect();
  }
}
