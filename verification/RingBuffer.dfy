/**
  The module's ring buffer. One slot always stays free, so that equal pointers mean empty; pointers are
  positions in the buffer, in units of one element.
  */
module RingBuffer {
  import opened Arithmetic

  // ---------------------------------------------------------------- pointers and contents

  /** The position after i: back to the start at the end of the buffer. */
  function Next(i: nat, capacity: nat): (r: nat)
    requires i < capacity
    ensures r < capacity
  {
    if i + 1 == capacity then 0 else i + 1
  }

  /** The k-th position from i, wrapping round once. */
  function At(i: nat, k: nat, size: nat): (p: nat)
    requires i < size && k <= size
    ensures p < size
  {
    if i + k < size then i + k else i + k - size
  }

  /** How far position j is from a position, going round. */
  function Distance(from: nat, j: nat, size: nat): (d: nat)
    requires from < size && j < size
    ensures d < size && At(from, d, size) == j
  {
    if from <= j then j - from else j + size - from
  }

  /** What is between the read and the write position. */
  function Contents<T>(buff: seq<T>, r: nat, w: nat): seq<T>
    requires r < |buff| && w < |buff|
  {
    if r <= w then buff[r..w] else buff[r..] + buff[..w]
  }

  function Used(r: nat, w: nat, capacity: nat): nat
    requires r < capacity && w < capacity
  {
    (w - r + capacity) % capacity
  }

  predicate Empty(r: nat, w: nat) {
    r == w
  }

  predicate Full(r: nat, w: nat, capacity: nat)
    requires w < capacity
  {
    r == Next(w, capacity)
  }

  lemma UsedIsLength<T>(buff: seq<T>, r: nat, w: nat)
    requires r < |buff| && w < |buff|
    ensures Used(r, w, |buff|) == |Contents(buff, r, w)| < |buff|
    ensures Empty(r, w) <==> Contents(buff, r, w) == []
    ensures Full(r, w, |buff|) <==> |Contents(buff, r, w)| == |buff| - 1
  {
    RemainderOfSmall(if r <= w then w - r else w - r + |buff|, |buff|);
  }

  /** Storing at the write position is invisible until the pointer moves, and then appends. */
  lemma StoreThenAdvance<T>(buff: seq<T>, r: nat, w: nat, x: T)
    requires r < |buff| && w < |buff|
    ensures Contents(buff[w := x], r, w) == Contents(buff, r, w)
    ensures buff[w] == x && !Full(r, w, |buff|) ==> Contents(buff, r, Next(w, |buff|)) == Contents(buff, r, w) + [x]
  {
  }

  /** The oldest element is at the read position, and moving the pointer drops it. */
  lemma LoadThenAdvance<T>(buff: seq<T>, r: nat, w: nat)
    requires r < |buff| && w < |buff| && !Empty(r, w)
    ensures Contents(buff, r, w) == [buff[r]] + Contents(buff, Next(r, |buff|), w)
  {
  }

  // ---------------------------------------------------------------- the buffer

  class RingBuffer<T(0)> {
    const buff: array<T>
    var rPtr: nat
    var wPtr: nat

    ghost predicate Valid()
      reads this
    {
      rPtr < buff.Length && wPtr < buff.Length
    }

    ghost function Elements(): seq<T>
      requires Valid()
      reads this, buff
    {
      Contents(buff[..], rPtr, wPtr)
    }

    constructor (capacity: nat)
      requires capacity > 0
      ensures Valid() && Elements() == [] && buff.Length == capacity && fresh(buff)
    {
      buff := new T[capacity];
      rPtr, wPtr := 0, 0;
    }

    method CountUsed() returns (n: nat)
      requires Valid()
      ensures n == |Elements()|
    {
      UsedIsLength(buff[..], rPtr, wPtr);
      n := (wPtr - rPtr + buff.Length) % buff.Length;
    }

    method CountFree() returns (n: nat)
      requires Valid()
      ensures n == buff.Length - 1 - |Elements()|
    {
      UsedIsLength(buff[..], rPtr, wPtr);
      var used := CountUsed();
      n := buff.Length - used - 1;
    }

    /** Takes as many of the given elements as there is room for. */
    method Write(data: seq<T>) returns (cnt: nat)
      requires Valid()
      modifies this`wPtr, buff
      ensures Valid()
      ensures cnt == (if |data| <= buff.Length - 1 - old(|Elements()|)
        then |data| else buff.Length - 1 - old(|Elements()|))
      ensures Elements() == old(Elements()) + data[..cnt]
    {
      hide Contents;
      UsedIsLength(buff[..], rPtr, wPtr);
      cnt := 0;
      while cnt < |data| && rPtr != Next(wPtr, buff.Length)
        invariant Valid() && cnt <= |data|
        invariant Elements() == old(Elements()) + data[..cnt]
        invariant |Elements()| < buff.Length
      {
        StoreThenAdvance(buff[..], rPtr, wPtr, data[cnt]);
        StoreThenAdvance(buff[..][wPtr := data[cnt]], rPtr, wPtr, data[cnt]);
        buff[wPtr] := data[cnt];
        wPtr := Next(wPtr, buff.Length);
        cnt := cnt + 1;
        UsedIsLength(buff[..], rPtr, wPtr);
      }
      UsedIsLength(buff[..], rPtr, wPtr);
    }

    /** Removes and returns the oldest elements, at most size of them. */
    method Read(size: nat) returns (data: seq<T>)
      requires Valid()
      modifies this`rPtr
      ensures Valid()
      ensures |data| == if size <= old(|Elements()|) then size else old(|Elements()|)
      ensures old(Elements()) == data + Elements()
    {
      hide Contents;
      data := [];
      while |data| < size && rPtr != wPtr
        invariant Valid() && |data| <= size
        invariant old(Elements()) == data + Elements()
        decreases size - |data|
      {
        LoadThenAdvance(buff[..], rPtr, wPtr);
        data := data + [buff[rPtr]];
        rPtr := Next(rPtr, buff.Length);
      }
      UsedIsLength(buff[..], rPtr, wPtr);
    }

    /** Reads without removing: the read pointer is moved and put back. */
    method Peek(size: nat) returns (data: seq<T>)
      requires Valid()
      modifies this`rPtr
      ensures Valid() && rPtr == old(rPtr) && Elements() == old(Elements())
      ensures data == Elements()[..if size <= |Elements()| then size else |Elements()|]
    {
      var originalRPtr := rPtr;
      data := Read(size);
      rPtr := originalRPtr;
    }

    method Flush()
      requires Valid()
      modifies this`rPtr
      ensures Valid() && Elements() == []
    {
      rPtr := wPtr;
    }
  }
}
