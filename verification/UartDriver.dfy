/**
  Calls of the UART driver that are not interrupted: the driver as a class, and the machine run from the start
  of a call to its end, which agree.
  */
module UartDriver {
  import opened RingBuffer
  import opened Values
  import opened UartMachine

  /** The driver as its callers see it: the ring's contents and size, the flag, and the DMA buffer. */
  datatype Driver = Driver(ring: seq<Byte>, size: nat, busy: bool, dma: seq<Byte>)

  function View(u: Uart): Driver
    requires WellFormed(u)
  {
    Driver(Ring(u), |u.buff|, u.busy, u.dma)
  }

  function Least(a: nat, b: nat): nat {
    if a <= b then a else b
  }

  /** The front of the ring is in the DMA buffer, and a transfer runs if that is anything. */
  function Refilled(d: Driver): Driver {
    var n := Least(|d.ring|, |d.dma|);
    Driver(d.ring[n..], d.size, n > 0, d.ring[..n] + d.dma[n..])
  }

  /** How much of some data there is room for. */
  function Accepts(d: Driver, data: seq<Byte>): (cnt: nat)
    requires |d.ring| < d.size
    ensures cnt <= |data|
  {
    Least(|data|, d.size - 1 - |d.ring|)
  }

  function Written(d: Driver, data: seq<Byte>): Driver
    requires |d.ring| < d.size
  {
    var filled := d.(ring := d.ring + data[..Accepts(d, data)]);
    if d.busy then filled else Refilled(filled)
  }

  /** The main program runs its call to the end. */
  ghost function CallEnds(u: Uart): (e: Uart)
    requires Inv(u)
    ensures Inv(e) && (u.pc == Idle ==> e == u)
    decreases Remaining(u)
  {
    if u.pc == Idle then u
    else
      StepKeepsInv(u, MainStep(u));
      MainStepUsesUp(u);
      CallEnds(MainStep(u))
  }

  lemma OneMainStep(u: Uart)
    requires Inv(u) && u.pc != Idle
    ensures WellFormed(u) && Inv(MainStep(u)) && CallEnds(u) == CallEnds(MainStep(u))
    ensures WellFormed(MainStep(u)) && Remaining(MainStep(u)) < Remaining(u)
  {
    hide MainStep, Remaining, Contents, HardwareStep, Interrupt;
    StepKeepsInv(u, MainStep(u));
    MainStepUsesUp(u);
  }

  /** Once round the loop of rbuff_write: one more byte is in the ring. */
  lemma OneByteStored(u: Uart)
    requires Inv(u) && u.pc.Filling? && u.pc.cnt < |u.pc.data| && !Full(u.r, u.w, |u.buff|)
    ensures Inv(MainStep(u)) && MainStep(u).pc.Storing?
    ensures Inv(MainStep(MainStep(u))) && MainStep(MainStep(u)).pc.Advancing?
    ensures var v := MainStep(MainStep(MainStep(u)));
      && Inv(v) && CallEnds(v) == CallEnds(u) && Remaining(v) < Remaining(u)
      && v.pc == Filling(u.pc.data, u.pc.cnt + 1, u.pc.base) && v.accepted == u.accepted + [u.pc.data[u.pc.cnt]]
      && Ring(v) == Ring(u) + [u.pc.data[u.pc.cnt]]
      && |v.buff| == |u.buff| && v.busy == u.busy && v.dma == u.dma && v.wire == u.wire
  {
    hide Contents, Remaining;
    OneMainStep(u);
    OneMainStep(MainStep(u));
    OneMainStep(MainStep(MainStep(u)));
    var stored := u.buff[u.w := u.pc.data[u.pc.cnt]];
    StoreThenAdvance(u.buff, u.r, u.w, u.pc.data[u.pc.cnt]);
    StoreThenAdvance(stored, u.r, u.w, u.pc.data[u.pc.cnt]);
    assert stored[u.w := u.pc.data[u.pc.cnt]] == stored;
  }

  /** The loop of rbuff_write, from some count on. */
  lemma {:induction false} FillingEnds(u: Uart)
    requires Inv(u) && u.pc.Filling?
    ensures WellFormed(u) && |Ring(u)| < |u.buff|
    ensures var rest := u.pc.data[u.pc.cnt..];
      View(CallEnds(u)) == Written(View(u), rest)
      && CallEnds(u).accepted == u.accepted + rest[..Accepts(View(u), rest)]
      && CallEnds(u).pc == Idle && CallEnds(u).wire == u.wire
    decreases Remaining(u), 1
  {
    hide Contents, Remaining, Drained, Refilled;
    UsedIsLength(u.buff, u.r, u.w);
    var rest := u.pc.data[u.pc.cnt..];
    if u.pc.cnt < |u.pc.data| && !Full(u.r, u.w, |u.buff|) {
      OneByteStored(u);
      FilledOneMore(u, MainStep(MainStep(MainStep(u))));
    } else {
      OneMainStep(u);
      TestingEnds(MainStep(u));
      assert rest[..0] == [] && Ring(u) + [] == Ring(u);
    }
  }

  lemma {:induction false} FilledOneMore(u: Uart, v: Uart)
    requires Inv(u) && u.pc.Filling? && u.pc.cnt < |u.pc.data| && |Ring(u)| + 1 < |u.buff|
    requires Inv(v) && CallEnds(v) == CallEnds(u) && Remaining(v) < Remaining(u)
    requires v.pc == Filling(u.pc.data, u.pc.cnt + 1, u.pc.base) && v.accepted == u.accepted + [u.pc.data[u.pc.cnt]]
    requires View(v) == View(u).(ring := Ring(u) + [u.pc.data[u.pc.cnt]]) && v.wire == u.wire
    ensures var rest := u.pc.data[u.pc.cnt..];
      View(CallEnds(u)) == Written(View(u), rest)
      && CallEnds(u).accepted == u.accepted + rest[..Accepts(View(u), rest)]
      && CallEnds(u).pc == Idle && CallEnds(u).wire == u.wire
    decreases Remaining(u), 0
  {
    hide Contents, Remaining, Written, CallEnds, MainStep;
    var rest := u.pc.data[u.pc.cnt..];
    FillingEnds(v);
    OneMoreWritten(View(u), rest);
    assert v.pc.data[v.pc.cnt..] == rest[1..];
  }

  lemma OneMoreWritten(d: Driver, data: seq<Byte>)
    requires data != [] && |d.ring| + 1 < d.size
    ensures var e := d.(ring := d.ring + [data[0]]);
      && Written(e, data[1..]) == Written(d, data)
      && [data[0]] + data[1..][..Accepts(e, data[1..])] == data[..Accepts(d, data)]
  {
    hide Refilled;
    var e := d.(ring := d.ring + [data[0]]);
    assert Accepts(e, data[1..]) + 1 == Accepts(d, data);
    assert [data[0]] + data[1..][..Accepts(e, data[1..])] == data[..Accepts(d, data)];
    assert e.ring + data[1..][..Accepts(e, data[1..])] == d.ring + data[..Accepts(d, data)];
  }

  /** What follows the loop: if the driver is idle, the DMA buffer is filled and a transfer started. */
  lemma TestingEnds(u: Uart)
    requires Inv(u) && u.pc == Testing
    ensures WellFormed(u)
    ensures View(CallEnds(u)) == if u.busy then View(u) else Refilled(View(u))
    ensures CallEnds(u).accepted == u.accepted && CallEnds(u).pc == Idle && CallEnds(u).wire == u.wire
  {
    hide Contents, Remaining, Drained;
    OneMainStep(u);
    if !u.busy {
      DrainingEnds(MainStep(u));
      assert u.dma[..0] == [] && [] + Ring(u) == Ring(u);
    }
  }

  /** Once round the loop of rbuff_read: one more byte is in the DMA buffer. */
  lemma OneByteMoved(u: Uart)
    requires Inv(u) && u.pc.Draining? && u.pc.cnt < |u.dma| && !Empty(u.r, u.w)
    ensures Inv(MainStep(u)) && MainStep(u).pc.Copying?
    ensures Inv(MainStep(MainStep(u))) && MainStep(MainStep(u)).pc.Consuming?
    ensures var v := MainStep(MainStep(MainStep(u)));
      && Inv(v) && CallEnds(v) == CallEnds(u) && Remaining(v) < Remaining(u)
      && v.pc == Draining(u.pc.cnt + 1) && v.accepted == u.accepted && v.wire == u.wire && v.busy == u.busy
      && |v.buff| == |u.buff| && v.dma == u.dma[u.pc.cnt := u.buff[u.r]]
      && Ring(u) == [u.buff[u.r]] + Ring(v)
  {
    hide Contents, Remaining;
    OneMainStep(u);
    OneMainStep(MainStep(u));
    OneMainStep(MainStep(MainStep(u)));
    LoadThenAdvance(u.buff, u.r, u.w);
  }

  /** The loop of rbuff_read, from some count on, and the start of the transfer. */
  lemma {:induction false} DrainingEnds(u: Uart)
    requires Inv(u) && u.pc.Draining? && !u.busy
    ensures WellFormed(u)
    ensures View(CallEnds(u)) == Refilled(View(u).(ring := u.dma[..u.pc.cnt] + Ring(u)))
    ensures CallEnds(u).accepted == u.accepted && CallEnds(u).pc == Idle && CallEnds(u).wire == u.wire
    decreases Remaining(u), 1
  {
    hide Contents, Remaining, Drained, Refilled;
    UsedIsLength(u.buff, u.r, u.w);
    if u.pc.cnt < |u.dma| && !Empty(u.r, u.w) {
      OneByteMoved(u);
      DrainedOneMore(u, MainStep(MainStep(MainStep(u))), u.buff[u.r]);
    } else {
      OneMainStep(u);
      StartingEnds(MainStep(u));
    }
  }

  lemma {:induction false} DrainedOneMore(u: Uart, v: Uart, b: Byte)
    requires Inv(u) && u.pc.Draining? && !u.busy && u.pc.cnt < |u.dma|
    requires Inv(v) && CallEnds(v) == CallEnds(u) && Remaining(v) < Remaining(u)
    requires v.pc == Draining(u.pc.cnt + 1) && v.accepted == u.accepted && v.wire == u.wire && !v.busy
    requires |v.buff| == |u.buff| && v.dma == u.dma[u.pc.cnt := b] && Ring(u) == [b] + Ring(v)
    ensures View(CallEnds(u)) == Refilled(View(u).(ring := u.dma[..u.pc.cnt] + Ring(u)))
    ensures CallEnds(u).accepted == u.accepted && CallEnds(u).pc == Idle && CallEnds(u).wire == u.wire
    decreases Remaining(u), 0
  {
    hide Contents, Remaining, CallEnds, MainStep, Refilled;
    DrainingEnds(v);
    var d := View(u).(ring := u.dma[..u.pc.cnt] + Ring(u));
    assert v.dma[..v.pc.cnt] + Ring(v) == d.ring;
    RefilledIgnoresFront(d, v.dma);
  }

  /** What is overwritten does not matter. */
  lemma RefilledIgnoresFront(d: Driver, dma: seq<Byte>)
    requires |dma| == |d.dma| && forall i :: Least(|d.ring|, |d.dma|) <= i < |dma| ==> dma[i] == d.dma[i]
    ensures Refilled(d.(dma := dma)) == Refilled(d)
  {
    var n := Least(|d.ring|, |d.dma|);
    assert dma[n..] == d.dma[n..];
  }

  lemma StartingEnds(u: Uart)
    requires Inv(u) && u.pc.Starting? && !u.busy && (u.pc.cnt == |u.dma| || Ring(u) == [])
    ensures WellFormed(u)
    ensures View(CallEnds(u)) == Refilled(View(u).(ring := u.dma[..u.pc.cnt] + Ring(u)))
    ensures CallEnds(u).accepted == u.accepted && CallEnds(u).pc == Idle && CallEnds(u).wire == u.wire
  {
    hide Contents, Remaining, Drained;
    OneMainStep(u);
    var d := View(u).(ring := u.dma[..u.pc.cnt] + Ring(u));
    assert Least(|d.ring|, |d.dma|) == u.pc.cnt;
    assert d.ring[..u.pc.cnt] + d.dma[u.pc.cnt..] == u.dma && d.ring[u.pc.cnt..] == Ring(u);
    if u.pc.cnt > 0 {
      OneMainStep(MainStep(u));
    }
  }

  /** The machine and the class agree: a write that is not interrupted ends in what the method ends in. */
  lemma StepsImplementWrite(u: Uart, data: seq<Byte>)
    requires Inv(u) && u.pc == Idle
    ensures var called := u.(pc := Filling(data, 0, u.accepted));
      && Call(u, called) && Inv(called) && WellFormed(u) && |Ring(u)| < |u.buff|
      && var e := CallEnds(called);
      && WellFormed(e) && e.pc == Idle && e.wire == u.wire && View(e) == Written(View(u), data)
      && e.accepted == u.accepted + data[..Accepts(View(u), data)]
  {
    hide Contents, MainStep, Remaining, Drained;
    var called := u.(pc := Filling(data, 0, u.accepted));
    assert Call(u, called);
    CallKeepsInv(u, called);
    FillingEnds(called);
    assert data[0..] == data;
  }

  /** And so does the interrupt. */
  lemma InterruptImplementsComplete(u: Uart)
    requires Inv(u) && u.transfer.Complete?
    ensures WellFormed(u) && WellFormed(Interrupt(u)) && View(Interrupt(u)) == Refilled(View(u))
    ensures Interrupt(u).accepted == u.accepted
  {
    hide Contents, Drained;
    var v := u.(busy := false);
    DrainedMoves(v, 0);
    DrainedKeepsRest(v, 0);
    var (w, n) := Drained(v, 0);
    assert u.dma[..0] + Ring(u) == Ring(u);
    assert n == Least(|Ring(u)|, |u.dma|) && Ring(u)[n..] == Ring(w) && Ring(u)[..n] + u.dma[n..] == w.dma;
  }

  lemma {:induction false} DrainedKeepsRest(u: Uart, cnt: nat)
    requires WellFormed(u) && cnt <= |u.dma|
    ensures var (v, n) := Drained(u, cnt);
      cnt <= n && v.dma[n..] == u.dma[n..] && WellFormed(v) && (n == |u.dma| || Ring(v) == [])
    decreases |u.dma| - cnt
  {
    hide Contents;
    UsedIsLength(u.buff, u.r, u.w);
    if cnt < |u.dma| && !Empty(u.r, u.w) {
      DrainedKeepsRest(u.(dma := u.dma[cnt := u.buff[u.r]], r := Next(u.r, |u.buff|)), cnt + 1);
    }
  }

  // ---------------------------------------------------------------- the driver, between interrupts

  class UartDriver {
    const txRing: RingBuffer<Byte>
    const txDmaBuffer: array<Byte>
    var txDmaBusy: bool
    ghost var taken: seq<Byte>   // every byte moved to the DMA buffer so far

    ghost predicate Valid()
      reads this, txRing
    {
      txRing.Valid() && txDmaBuffer.Length > 0 && txRing.buff != txDmaBuffer
    }

    /** Everything accepted so far, whether handed to the DMA or still in the ring. */
    ghost function Accepted(): seq<Byte>
      requires Valid()
      reads this, txRing, txRing.buff
    {
      taken + txRing.Elements()
    }

    /** The driver as the machine shows it. */
    ghost function Seen(): Driver
      requires Valid()
      reads this, txRing, txRing.buff, txDmaBuffer
    {
      Driver(txRing.Elements(), txRing.buff.Length, txDmaBusy, txDmaBuffer[..])
    }

    /** An idle driver has nothing left to send. */
    ghost predicate Settled()
      requires Valid()
      reads this, txRing, txRing.buff
    {
      !txDmaBusy ==> txRing.Elements() == []
    }

    constructor (txBufferSize: nat, txDmaBufferSize: nat)
      requires txBufferSize > 0 && txDmaBufferSize > 0
      ensures Valid() && Settled() && Accepted() == [] && !txDmaBusy
    {
      txRing := new RingBuffer(txBufferSize);
      txDmaBuffer := new Byte[txDmaBufferSize];
      txDmaBusy := false;
      taken := [];
    }

    /** Unless a transfer is running, moves what fits from the ring to the DMA buffer and starts a transfer. */
    method UpdateTxDmaBuffer()
      requires Valid()
      modifies this`txDmaBusy, this`taken, txRing`rPtr, txDmaBuffer
      ensures Valid() && Accepted() == old(Accepted())
      ensures Settled() || old(txDmaBusy)
      ensures old(txDmaBusy) ==> txDmaBusy && taken == old(taken) && txDmaBuffer[..] == old(txDmaBuffer[..])
      ensures !old(txDmaBusy) ==> (txDmaBusy <==> old(txRing.Elements()) != [])
      ensures Seen() == if old(txDmaBusy) then old(Seen()) else Refilled(old(Seen()))
    {
      hide Contents;
      if txDmaBusy {
        return;
      }
      var bytes := txRing.Read(txDmaBuffer.Length);
      forall i | 0 <= i < |bytes| {
        txDmaBuffer[i] := bytes[i];
      }
      assert txDmaBuffer[..] == bytes + old(txDmaBuffer[..])[|bytes|..];
      taken := taken + bytes;
      if |bytes| > 0 {
        txDmaBusy := true;
      }
    }

    /** Accepts as many bytes as the ring has room for; afterwards an idle driver has nothing left to send. */
    method Write(data: seq<Byte>) returns (cnt: nat)
      requires Valid() && Settled()
      modifies this`txDmaBusy, this`taken, txRing`rPtr, txRing`wPtr, txRing.buff, txDmaBuffer
      ensures Valid() && Settled()
      ensures cnt <= |data| && (cnt < |data| ==> cnt + |old(txRing.Elements())| == txRing.buff.Length - 1)
      ensures Accepted() == old(Accepted()) + data[..cnt]
      ensures |old(Seen()).ring| < old(Seen()).size && cnt == Accepts(old(Seen()), data)
        && Seen() == Written(old(Seen()), data)
    {
      hide Contents;
      UsedIsLength(txRing.buff[..], txRing.rPtr, txRing.wPtr);
      cnt := txRing.Write(data);
      assert Accepted() == old(Accepted()) + data[..cnt];
      UpdateTxDmaBuffer();
    }

    /** The completion interrupt. */
    method TxDmaTransferComplete()
      requires Valid() && txDmaBusy
      modifies this`txDmaBusy, this`taken, txRing`rPtr, txDmaBuffer
      ensures Valid() && Settled() && Accepted() == old(Accepted())
      ensures txDmaBusy <==> old(txRing.Elements()) != []
      ensures Seen() == Refilled(old(Seen()))
    {
      hide Contents;
      txDmaBusy := false;
      UpdateTxDmaBuffer();
    }
  }
}
