/**
  The kernel's queue: fixed-size items, copied in and out of a circular byte store. Calls do not block.
  */
module Queue {
  import opened Values
  import opened RingBuffer
  import opened Arithmetic

  type Item = seq<Byte>

  datatype Position = SendToBack | SendToFront | Overwrite

  // ---------------------------------------------------------------- a circle of item slots

  /** The items queued: count of them, from behind the read slot onwards. */
  function Queued(slots: seq<Item>, read: nat, count: nat): (items: seq<Item>)
    requires read < |slots| && count <= |slots|
    ensures |items| == count
  {
    seq(count, i requires 0 <= i < count => slots[At(Next(read, |slots|), i, |slots|)])
  }

  /** The slot before k, going round. */
  function Previous(k: nat, n: nat): (p: nat)
    requires k < n
    ensures p < n && Next(p, n) == k
  {
    if k == 0 then n - 1 else k - 1
  }

  /** The write slot is the one behind the last item, which for a full queue is the oldest item's. */
  predicate WriteSlotIs(write: nat, read: nat, count: nat, n: nat)
    requires read < n && count <= n
  {
    write == At(Next(read, n), count, n)
  }

  lemma WriteSlotLaw(write: nat, read: nat, count: nat, n: nat)
    requires read < n && count <= n
    ensures WriteSlotIs(write, read, count, n) <==> write == (read + count + 1) % n
  {
    var sum := read + count + 1;
    if sum < n {
      RemainderOfSmall(sum, n);
    } else if sum < 2 * n {
      RemainderOfSmall(sum - n, n);
    } else {
      RemainderOfSmall(0, n);
      QuotientIs(2 * n, n, 2);
    }
  }

  lemma PushedBack(slots: seq<Item>, write: nat, read: nat, count: nat, item: Item)
    requires read < |slots| && count < |slots| && WriteSlotIs(write, read, count, |slots|)
    ensures Queued(slots[write := item], read, count + 1) == Queued(slots, read, count) + [item]
    ensures WriteSlotIs(Next(write, |slots|), read, count + 1, |slots|)
  {
  }

  lemma PushedFront(slots: seq<Item>, write: nat, read: nat, count: nat, item: Item)
    requires read < |slots| && count < |slots| && WriteSlotIs(write, read, count, |slots|)
    ensures Queued(slots[read := item], Previous(read, |slots|), count + 1) == [item] + Queued(slots, read, count)
    ensures WriteSlotIs(write, Previous(read, |slots|), count + 1, |slots|)
  {
  }

  lemma PoppedFront(slots: seq<Item>, write: nat, read: nat, count: nat)
    requires read < |slots| && 0 < count <= |slots| && WriteSlotIs(write, read, count, |slots|)
    ensures Queued(slots, read, count) == [slots[Next(read, |slots|)]] + Queued(slots, Next(read, |slots|), count - 1)
    ensures WriteSlotIs(write, Next(read, |slots|), count - 1, |slots|)
  {
    var before, after := Queued(slots, read, count), Queued(slots, Next(read, |slots|), count - 1);
    assert before[0] == slots[Next(read, |slots|)];
    forall i | 0 <= i < count - 1
      ensures before[i + 1] == after[i]
    {
    }
  }

  // ---------------------------------------------------------------- slots as bytes

  function Offset(k: nat, size: nat): nat {
    k * size
  }

  lemma OffsetFacts(k: nat, j: nat, size: nat)
    requires 0 < size
    ensures Offset(0, size) == 0 && Offset(k + 1, size) == Offset(k, size) + size
    ensures k < j ==> Offset(k, size) + size <= Offset(j, size)
    ensures k <= j <==> Offset(k, size) <= Offset(j, size)
  {
    if k < j {
      ProductMonotone(k + 1, j, size);
    } else if j < k {
      ProductMonotone(j + 1, k, size);
    }
  }

  function SlotAt(bytes: seq<Byte>, k: nat, size: nat): (item: Item)
    requires Offset(k, size) + size <= |bytes|
    ensures |item| == size
  {
    bytes[Offset(k, size)..Offset(k, size) + size]
  }

  ghost predicate Sized(bytes: seq<Byte>, n: nat, size: nat) {
    && 0 < size && |bytes| == Offset(n, size)
    && forall k :: 0 <= k < n ==> Offset(k, size) + size <= |bytes|
  }

  ghost function Slots(bytes: seq<Byte>, n: nat, size: nat): (slots: seq<Item>)
    requires Sized(bytes, n, size)
    ensures |slots| == n
  {
    seq(n, k requires 0 <= k < n => SlotAt(bytes, k, size))
  }

  /** Bytes with an item copied over slot k. */
  function Copied(bytes: seq<Byte>, k: nat, item: Item): (r: seq<Byte>)
    requires Offset(k, |item|) + |item| <= |bytes|
    ensures |r| == |bytes|
    ensures forall i :: 0 <= i < |r| ==>
      r[i] == if Offset(k, |item|) <= i < Offset(k, |item|) + |item| then item[i - Offset(k, |item|)] else bytes[i]
  {
    bytes[..Offset(k, |item|)] + item + bytes[Offset(k, |item|) + |item|..]
  }

  lemma CopyChangesOneSlot(bytes: seq<Byte>, n: nat, size: nat, k: nat, item: Item)
    requires Sized(bytes, n, size) && k < n && |item| == size
    ensures Sized(Copied(bytes, k, item), n, size)
    ensures Slots(Copied(bytes, k, item), n, size) == Slots(bytes, n, size)[k := item]
  {
    hide Copied, Offset;
    var copied := Copied(bytes, k, item);
    forall j | 0 <= j < n
      ensures SlotAt(copied, j, size) == if j == k then item else SlotAt(bytes, j, size)
    {
      OffsetFacts(j, k, size);
      OffsetFacts(k, j, size);
      var slot := SlotAt(copied, j, size);
      forall i | 0 <= i < size
        ensures slot[i] == if j == k then item[i] else SlotAt(bytes, j, size)[i]
      {
        assert slot[i] == copied[Offset(j, size) + i];
      }
    }
  }

  /** So many items of no bytes. */
  function Nothings(count: nat): (items: seq<Item>)
    ensures |items| == count
  {
    seq(count, i => [])
  }

  lemma OneMoreNothing(count: nat)
    ensures Nothings(count + 1) == Nothings(count) + [[]] == [[]] + Nothings(count)
  {
  }

  // ---------------------------------------------------------------- the queue

  class Queue {
    const storage: array<Byte>
    const length: nat
    const itemSize: nat
    var messagesWaiting: nat
    var writeTo: nat    // byte offset of the slot to send to the back into
    var readFrom: nat   // byte offset of the slot last read from
    ghost var readSlot: nat

    ghost predicate Valid()
      reads this, storage
    {
      && readSlot < length && messagesWaiting <= length
      && (itemSize > 0 ==>
        && Sized(storage[..], length, itemSize)
        && readFrom == Offset(readSlot, itemSize)
        && writeTo == Offset(WriteSlot(), itemSize))
    }

    ghost function WriteSlot(): (k: nat)
      requires readSlot < length && messagesWaiting <= length
      reads this
      ensures k < length && WriteSlotIs(k, readSlot, messagesWaiting, length)
    {
      At(Next(readSlot, length), messagesWaiting, length)
    }

    /** The queue's abstract value, oldest item first. Items of no bytes, as semaphores have, are only counted. */
    ghost function Items(): (items: seq<Item>)
      requires Valid()
      reads this, storage
      ensures |items| == messagesWaiting
    {
      if itemSize == 0 then Nothings(messagesWaiting)
      else Queued(Slots(storage[..], length, itemSize), readSlot, messagesWaiting)
    }

    constructor (length: nat, itemSize: nat)
      requires length > 0
      ensures Valid() && Items() == [] && this.length == length && this.itemSize == itemSize
    {
      this.length, this.itemSize := length, itemSize;
      storage := new Byte[Offset(length, itemSize)];
      messagesWaiting, writeTo, readFrom, readSlot := 0, 0, Offset(length - 1, itemSize), length - 1;
      new;
      if itemSize > 0 {
        SizedStore(storage[..], length, itemSize);
        OffsetFacts(0, 0, itemSize);
      }
    }

    static lemma SizedStore(bytes: seq<Byte>, n: nat, size: nat)
      requires 0 < size && |bytes| == Offset(n, size)
      ensures Sized(bytes, n, size)
    {
      forall k | 0 <= k < n
        ensures Offset(k, size) + size <= |bytes|
      {
        OffsetFacts(k, n, size);
      }
    }

    /** Empties the queue: reading resumes behind the last slot, writing at the first. */
    method Reset()
      requires Valid()
      modifies this
      ensures Valid() && Items() == []
    {
      messagesWaiting := 0;
      writeTo := 0;
      readFrom := (length - 1) * itemSize;
      readSlot := length - 1;
      if itemSize > 0 {
        OffsetFacts(0, 0, itemSize);
      }
    }

    method CopyIn(item: Item, offset: nat, ghost k: nat)
      requires |item| == itemSize && offset == Offset(k, itemSize) && offset + itemSize <= storage.Length
      modifies storage
      ensures storage[..] == Copied(old(storage[..]), k, item)
    {
      forall j | offset <= j < offset + itemSize {
        storage[j] := item[j - offset];
      }
    }

    /** Copies an item in at the back, at the front, or over the only item. The caller has made sure of room. */
    method CopyDataToQueue(item: Item, position: Position)
      requires Valid() && |item| == itemSize
      requires position == Overwrite ==> length == 1 && itemSize > 0
      requires position != Overwrite ==> messagesWaiting < length
      modifies this`messagesWaiting, this`writeTo, this`readFrom, this`readSlot, storage
      ensures Valid()
      ensures position == SendToBack ==> Items() == old(Items()) + [item]
      ensures position == SendToFront ==> Items() == [item] + old(Items())
      ensures position == Overwrite ==> Items() == [item]
    {
      hide Sized, Slots, Queued, Copied, WriteSlotIs;
      if itemSize == 0 {
        OneMoreNothing(messagesWaiting);
        messagesWaiting := messagesWaiting + 1;
        return;
      }
      ghost var slots, write := Slots(storage[..], length, itemSize), WriteSlot();
      var waiting := messagesWaiting;
      StoreEnd();
      if position == SendToBack {
        CopyChangesOneSlot(storage[..], length, itemSize, write, item);
        PushedBack(slots, write, readSlot, messagesWaiting, item);
        CopyIn(item, writeTo, write);
        writeTo := writeTo + itemSize;
        if writeTo >= storage.Length {
          writeTo := 0;
        }
        SlotAdvances(write, length, itemSize);
      } else {
        CopyChangesOneSlot(storage[..], length, itemSize, readSlot, item);
        if position == Overwrite {
          Overwritten(slots, write, readSlot, messagesWaiting, item);
        } else {
          PushedFront(slots, write, readSlot, messagesWaiting, item);
        }
        CopyIn(item, readFrom, readSlot);
        var moved: int := readFrom - itemSize;
        if moved < 0 {
          moved := storage.Length - itemSize;
        }
        SlotRetreats(readSlot, length, itemSize);
        readFrom := moved;
        readSlot := Previous(readSlot, length);
        if position == Overwrite && waiting > 0 {
          waiting := waiting - 1;
        }
      }
      messagesWaiting := waiting + 1;
    }

    lemma StoreEnd()
      requires Valid() && itemSize > 0
      ensures storage.Length == Offset(length, itemSize) && 0 < itemSize
      ensures readFrom + itemSize <= storage.Length && writeTo + itemSize <= storage.Length
    {
    }

    static lemma SlotAdvances(k: nat, n: nat, size: nat)
      requires k < n && 0 < size
      ensures Offset(Next(k, n), size) == if Offset(k, size) + size >= Offset(n, size)
        then 0 else Offset(k, size) + size
    {
      OffsetFacts(k, n, size);
      OffsetFacts(k + 1, n, size);
      OffsetFacts(n, k + 1, size);
    }

    static lemma SlotRetreats(k: nat, n: nat, size: nat)
      requires k < n && 0 < size
      ensures Offset(Previous(k, n), size) ==
        if Offset(k, size) - size < 0 then Offset(n, size) - size else Offset(k, size) - size
    {
      if k == 0 {
        OffsetFacts(n - 1, 0, size);
      } else {
        OffsetFacts(k - 1, k, size);
        OffsetFacts(0, k - 1, size);
      }
    }

    static lemma Overwritten(slots: seq<Item>, write: nat, read: nat, count: nat, item: Item)
      requires |slots| == 1 && read < 1 && count <= 1
      ensures Queued(slots[read := item], Previous(read, 1), 1) == [item]
      ensures At(Next(Previous(read, 1), 1), 1, 1) == At(Next(read, 1), count, 1)
    {
    }

    /** Moves the read pointer on to the oldest item and copies that out. */
    method CopyDataFromQueue() returns (item: Item)
      requires Valid() && messagesWaiting > 0
      modifies this`readFrom
      ensures item == old(Items())[0]
      ensures itemSize > 0 ==> readFrom == Offset(Next(readSlot, length), itemSize)
      ensures itemSize == 0 ==> readFrom == old(readFrom)
    {
      hide Sized, Slots, Copied;
      if itemSize == 0 {
        return [];
      }
      StoreEnd();
      SlotAdvances(readSlot, length, itemSize);
      SlotInStore(storage[..], length, itemSize, Next(readSlot, length));
      readFrom := readFrom + itemSize;
      if readFrom >= storage.Length {
        readFrom := 0;
      }
      item := storage[readFrom..readFrom + itemSize];
    }

    static lemma SlotInStore(bytes: seq<Byte>, n: nat, size: nat, k: nat)
      requires Sized(bytes, n, size) && k < n
      ensures Offset(k, size) + size <= |bytes|
      ensures Slots(bytes, n, size)[k] == bytes[Offset(k, size)..Offset(k, size) + size]
    {
    }

    // ---------------------------------------------------------------- the calls

    /** A full queue refuses an item, unless that is to replace the only one there is. */
    method Send(item: Item, position: Position) returns (ok: bool)
      requires Valid() && |item| == itemSize
      requires position == Overwrite ==> length == 1 && itemSize > 0
      modifies this`messagesWaiting, this`writeTo, this`readFrom, this`readSlot, storage
      ensures Valid()
      ensures ok <==> |old(Items())| < length || position == Overwrite
      ensures Items() == if !ok then old(Items()) else Sent(old(Items()), item, position)
    {
      ok := messagesWaiting < length || position == Overwrite;
      if ok {
        CopyDataToQueue(item, position);
      }
    }

    method Receive() returns (ok: bool, item: Item)
      requires Valid()
      modifies this`messagesWaiting, this`readFrom, this`readSlot
      ensures Valid()
      ensures ok <==> old(Items()) != []
      ensures ok ==> old(Items()) == [item] + Items()
      ensures !ok ==> Items() == old(Items())
    {
      hide Sized, Slots, Queued, WriteSlotIs;
      ok, item := messagesWaiting > 0, [];
      if ok {
        if itemSize == 0 {
          OneMoreNothing(messagesWaiting - 1);
        } else {
          PoppedFront(Slots(storage[..], length, itemSize), WriteSlot(), readSlot, messagesWaiting);
        }
        ghost var write := WriteSlot();
        item := CopyDataFromQueue();
        readSlot := Next(readSlot, length);
        messagesWaiting := messagesWaiting - 1;
        if itemSize > 0 {
          assert write == At(Next(readSlot, length), messagesWaiting, length);
        }
      }
    }

    /** Reads the oldest item and puts the read pointer back. */
    method Peek() returns (ok: bool, item: Item)
      requires Valid()
      modifies this`readFrom
      ensures Valid() && readFrom == old(readFrom) && Items() == old(Items())
      ensures ok <==> Items() != []
      ensures ok ==> item == Items()[0]
    {
      ok, item := messagesWaiting > 0, [];
      if ok {
        var originalReadPosition := readFrom;
        item := CopyDataFromQueue();
        readFrom := originalReadPosition;
      }
    }
  }

  /** What a successful send does to the items. */
  function Sent(items: seq<Item>, item: Item, position: Position): seq<Item> {
    match position
    case SendToBack => items + [item]
    case SendToFront => [item] + items
    case Overwrite => [item]
  }

  // ---------------------------------------------------------------- over any sequence of calls

  datatype Call = SendCall(item: Item, position: Position) | ReceiveCall | PeekCall | ResetCall

  /** A bounded double-ended sequence: what a call leaves, and what it hands out. */
  function Effect(items: seq<Item>, call: Call, length: nat): (seq<Item>, seq<Item>) {
    match call
    case SendCall(item, position) =>
      (if |items| < length || position == Overwrite then Sent(items, item, position) else items, [])
    case ReceiveCall => if items == [] then (items, []) else (items[1..], [items[0]])
    case PeekCall => (items, if items == [] then [] else [items[0]])
    case ResetCall => ([], [])
  }

  function Effects(items: seq<Item>, calls: seq<Call>, length: nat): (seq<Item>, seq<Item>) {
    if calls == [] then (items, [])
    else
      var (before, out) := Effects(items, calls[..|calls| - 1], length);
      var (after, more) := Effect(before, calls[|calls| - 1], length);
      (after, out + more)
  }

  /** What is sent to the front comes out next, and then the queue is as before. */
  lemma FrontComesNext(items: seq<Item>, item: Item, length: nat)
    requires |items| < length
    ensures Effects(items, [SendCall(item, SendToFront), ReceiveCall], length) == (items, [item])
  {
    hide Effects;
    OneThenAnother(items, SendCall(item, SendToFront), ReceiveCall, length);
    assert ([item] + items)[1..] == items;
    var out: seq<Item> := [];
    assert out + [item] == [item];
  }

  /** What is sent to the back comes out after all that is there. */
  lemma BackComesLast(items: seq<Item>, item: Item, length: nat)
    requires |items| < length && items != []
    ensures Effects(items, [SendCall(item, SendToBack), ReceiveCall], length) == (items[1..] + [item], [items[0]])
  {
    hide Effects;
    OneThenAnother(items, SendCall(item, SendToBack), ReceiveCall, length);
    assert (items + [item])[1..] == items[1..] + [item];
    var out: seq<Item> := [];
    assert out + [items[0]] == [items[0]];
  }

  /**
    Overwriting leaves the new item alone; peeking leaves the items and hands out what is next; a reset
    leaves none.
    */
  lemma OtherCalls(items: seq<Item>, item: Item, length: nat)
    ensures Effect(items, SendCall(item, Overwrite), length).0 == [item]
    ensures Effect(items, PeekCall, length) == (items, Effect(items, ReceiveCall, length).1)
    ensures Effect(items, ResetCall, length).0 == []
    ensures |items| >= length ==> Effect(items, SendCall(item, SendToBack), length).0 == items
  {
  }

  lemma OneThenAnother(items: seq<Item>, first: Call, second: Call, length: nat)
    ensures var (between, out) := Effect(items, first, length);
      var (after, more) := Effect(between, second, length);
      Effects(items, [first, second], length) == (after, out + more)
  {
    hide Effect;
    assert [first, second][..1] == [first] && [first][..0] == [];
    assert Effects(items, [], length) == (items, []);
    assert [] + Effect(items, first, length).1 == Effect(items, first, length).1;
  }

  ghost predicate Allowed(call: Call, length: nat, itemSize: nat) {
    call.SendCall? ==> |call.item| == itemSize && (call.position == Overwrite ==> length == 1 && itemSize > 0)
  }

  method Apply(queue: Queue, call: Call) returns (out: seq<Item>)
    requires queue.Valid() && Allowed(call, queue.length, queue.itemSize)
    modifies queue, queue.storage
    ensures queue.Valid()
    ensures (queue.Items(), out) == Effect(old(queue.Items()), call, queue.length)
  {
    hide Sized, Slots, Queued, WriteSlotIs;
    out := [];
    match call
    case SendCall(item, position) => var _ := queue.Send(item, position);
    case ReceiveCall =>
      var ok, item := queue.Receive();
      out := if ok then [item] else [];
    case PeekCall =>
      var ok, item := queue.Peek();
      out := if ok then [item] else [];
    case ResetCall => queue.Reset();
  }

  /** Any sequence of calls on the byte store does and returns what it does on the sequence. */
  method RunCalls(queue: Queue, calls: seq<Call>) returns (out: seq<Item>)
    requires queue.Valid() && queue.Items() == []
    requires forall i :: 0 <= i < |calls| ==> Allowed(calls[i], queue.length, queue.itemSize)
    modifies queue, queue.storage
    ensures queue.Valid()
    ensures (queue.Items(), out) == Effects([], calls, queue.length)
  {
    hide Sized, Slots, Queued, WriteSlotIs, Effect, Allowed;
    out := [];
    for i := 0 to |calls|
      invariant queue.Valid()
      invariant (queue.Items(), out) == Effects([], calls[..i], queue.length)
    {
      assert calls[..i + 1][..i] == calls[..i];
      var more := Apply(queue, calls[i]);
      out := out + more;
    }
    assert calls[..|calls|] == calls;
  }

  /** With sends to the back only, what is received is what was accepted, in the order it was sent. */
  lemma {:induction false} BackSendsAreFifo(calls: seq<Call>, length: nat)
    requires forall i :: 0 <= i < |calls| ==>
      calls[i].ReceiveCall? || (calls[i].SendCall? && calls[i].position == SendToBack)
    ensures Effects([], calls, length).1 + Effects([], calls, length).0 == Accepted(calls, length)
  {
    if calls != [] {
      var n := |calls| - 1;
      BackSendsAreFifo(calls[..n], length);
      var (before, out) := Effects([], calls[..n], length);
      StepIsFifo(before, out, calls[n], length);
    }
  }

  lemma StepIsFifo(before: seq<Item>, out: seq<Item>, call: Call, length: nat)
    requires call.ReceiveCall? || (call.SendCall? && call.position == SendToBack)
    ensures var (after, more) := Effect(before, call, length);
      out + more + after == out + before + if call.SendCall? && |before| < length then [call.item] else []
  {
    var (after, more) := Effect(before, call, length);
    if call.ReceiveCall? && before != [] {
      assert before == more + after;
      assert out + (more + after) == out + more + after;
    } else {
      assert out + more == out;
    }
  }

  /** The items of the sends that found room. */
  function Accepted(calls: seq<Call>, length: nat): seq<Item> {
    if calls == [] then []
    else
      var n := |calls| - 1;
      var last := calls[n];
      Accepted(calls[..n], length)
        + if last.SendCall? && |Effects([], calls[..n], length).0| < length then [last.item] else []
  }
}
