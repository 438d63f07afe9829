/**
  The UART driver's transmit side. The main program writes bytes into a ring buffer; a DMA transfer drains
  a separate buffer onto the wire, and its completion interrupt refills that buffer from the ring. This is the
  machine in which the interrupt can preempt the main program between any two of its statements.
  */
module UartMachine {
  import opened RingBuffer
  import opened Values
  import opened Arithmetic

  // ---------------------------------------------------------------- the machine

  /** Where the main program is. A write in progress has stored cnt bytes of data, on top of base. */
  datatype Pc =
    | Idle
    | Filling(data: seq<Byte>, cnt: nat, base: seq<Byte>)     // about to test the loop condition of rbuff_write
    | Storing(data: seq<Byte>, cnt: nat, base: seq<Byte>)     // there is room: about to copy a byte
    | Advancing(data: seq<Byte>, cnt: nat, base: seq<Byte>)   // about to move the write pointer
    | Testing                                                 // about to test tx_dma_busy
    | Draining(cnt: nat)                                      // about to test the loop condition of rbuff_read
    | Copying(cnt: nat)                                       // about to copy a byte to the DMA buffer
    | Consuming(cnt: nat)                                     // about to move the read pointer
    | Starting(cnt: nat)                                      // about to test the count and set tx_dma_busy
    | Launching(cnt: nat)                                     // about to start the transfer

  datatype Transfer =
    | NoTransfer
    | Active(len: nat, sent: nat)   // dma[sent..len] is still to go out
    | Complete                      // the interrupt is pending

  datatype Uart = Uart(
    buff: seq<Byte>, r: nat, w: nat,    // the transmit ring
    dma: seq<Byte>, busy: bool,         // the DMA buffer and the driver's flag
    transfer: Transfer,                 // the DMA channel
    pc: Pc,                             // the main program
    wire: seq<Byte>,                    // everything that has been transmitted
    accepted: seq<Byte>                 // everything the driver has taken from its callers
  )

  ghost predicate WellFormed(u: Uart) {
    && u.r < |u.buff| && u.w < |u.buff| && |u.dma| > 0
    && (u.transfer.Active? ==> u.transfer.sent <= u.transfer.len <= |u.dma|)
    && match u.pc
       case Filling(data, cnt, _) => cnt <= |data|
       case Storing(data, cnt, _) => cnt < |data|
       case Advancing(data, cnt, _) => cnt < |data|
       case Draining(cnt) => cnt <= |u.dma|
       case Copying(cnt) => cnt < |u.dma|
       case Consuming(cnt) => cnt < |u.dma|
       case Starting(cnt) => cnt <= |u.dma|
       case Launching(cnt) => cnt <= |u.dma|
       case _ => true
  }

  function Ring(u: Uart): seq<Byte>
    requires WellFormed(u)
  {
    Contents(u.buff, u.r, u.w)
  }

  // ---------------------------------------------------------------- steps

  /** One statement of the main program, in the middle of uart_driver_write. */
  function MainStep(u: Uart): Uart
    requires WellFormed(u) && u.pc != Idle
  {
    match u.pc
    case Filling(data, cnt, base) =>
      if cnt < |data| && !Full(u.r, u.w, |u.buff|) then u.(pc := Storing(data, cnt, base)) else u.(pc := Testing)
    case Storing(data, cnt, base) => u.(buff := u.buff[u.w := data[cnt]], pc := Advancing(data, cnt, base))
    case Advancing(data, cnt, base) =>
      u.(w := Next(u.w, |u.buff|), accepted := u.accepted + [data[cnt]], pc := Filling(data, cnt + 1, base))
    case Testing => u.(pc := if u.busy then Idle else Draining(0))
    case Draining(cnt) =>
      if cnt < |u.dma| && !Empty(u.r, u.w) then u.(pc := Copying(cnt)) else u.(pc := Starting(cnt))
    case Copying(cnt) => u.(dma := u.dma[cnt := u.buff[u.r]], pc := Consuming(cnt))
    case Consuming(cnt) => u.(r := Next(u.r, |u.buff|), pc := Draining(cnt + 1))
    case Starting(cnt) => if cnt > 0 then u.(busy := true, pc := Launching(cnt)) else u.(pc := Idle)
    case Launching(cnt) => u.(transfer := Active(cnt, 0), pc := Idle)
  }

  /** The main program calls uart_driver_write. */
  ghost predicate Call(u: Uart, u': Uart) {
    u.pc == Idle && exists data :: u' == u.(pc := Filling(data, 0, u.accepted))
  }

  /** The DMA channel sends the next byte, reading it from the DMA buffer at this moment. */
  ghost predicate HardwareStep(u: Uart, u': Uart)
    requires WellFormed(u)
  {
    && u.transfer.Active?
    && u' == if u.transfer.sent < u.transfer.len
             then u.(wire := u.wire + [u.dma[u.transfer.sent]], transfer := Active(u.transfer.len, u.transfer.sent + 1))
             else u.(transfer := Complete)
  }

  /** Ring and DMA buffer when a loop of rbuff_read that has copied cnt bytes has run to its end. */
  function Drained(u: Uart, cnt: nat): (e: (Uart, nat))
    requires WellFormed(u) && cnt <= |u.dma|
    ensures |e.0.dma| == |u.dma| && e.1 <= |u.dma|
    decreases |u.dma| - cnt
  {
    if cnt < |u.dma| && !Empty(u.r, u.w) then
      Drained(u.(dma := u.dma[cnt := u.buff[u.r]], r := Next(u.r, |u.buff|)), cnt + 1)
    else (u, cnt)
  }

  /** The completion interrupt: clear the flag, refill the DMA buffer, start over if there was anything. */
  function Interrupt(u: Uart): Uart
    requires WellFormed(u) && u.transfer.Complete?
  {
    var (v, cnt) := Drained(u.(busy := false), 0);
    if cnt > 0 then v.(busy := true, transfer := Active(cnt, 0)) else v.(transfer := NoTransfer)
  }

  ghost predicate Step(u: Uart, u': Uart)
    requires WellFormed(u)
  {
    || (u.pc != Idle && u' == MainStep(u))
    || Call(u, u')
    || HardwareStep(u, u')
    || (u.transfer.Complete? && u' == Interrupt(u))
  }

  ghost predicate Init(u: Uart) {
    && WellFormed(u)
    && u.r == u.w == 0 && !u.busy && u.transfer == NoTransfer && u.pc == Idle
    && u.wire == [] && u.accepted == []
  }

  // ---------------------------------------------------------------- the invariant

  predicate MainOwnsDma(pc: Pc) {
    pc.Draining? || pc.Copying? || pc.Consuming? || pc.Starting? || pc.Launching?
  }

  /** Bytes that have left the ring but not yet reached the wire. */
  function InFlight(u: Uart): seq<Byte>
    requires WellFormed(u)
  {
    if MainOwnsDma(u.pc) then u.dma[..u.pc.cnt]
    else if u.transfer.Active? then u.dma[u.transfer.sent..u.transfer.len]
    else []
  }

  ghost predicate Inv(u: Uart) {
    && WellFormed(u)
    && u.wire + InFlight(u) + Ring(u) == u.accepted
    && (MainOwnsDma(u.pc) ==> u.transfer == NoTransfer)
    && (u.busy <==> u.transfer != NoTransfer || u.pc.Launching?)
    && match u.pc
       case Idle => u.busy || Ring(u) == []
       case Filling(data, cnt, base) => u.accepted == base + data[..cnt]
       case Storing(data, cnt, base) => u.accepted == base + data[..cnt] && |Ring(u)| < |u.buff| - 1
       case Advancing(data, cnt, base) =>
         u.accepted == base + data[..cnt] && |Ring(u)| < |u.buff| - 1 && u.buff[u.w] == data[cnt]
       case Copying(_) => Ring(u) != []
       case Consuming(cnt) => Ring(u) != [] && u.dma[cnt] == u.buff[u.r]
       case Starting(cnt) => cnt > 0 || Ring(u) == []
       case Launching(cnt) => cnt > 0
       case _ => true
  }

  lemma AcceptingKeepsInv(u: Uart)
    requires Inv(u) && (u.pc.Storing? || u.pc.Advancing?)
    ensures Inv(MainStep(u))
  {
    hide Contents, Next;
    var cnt := u.pc.cnt;
    UsedIsLength(u.buff, u.r, u.w);
    StoreThenAdvance(u.buff, u.r, u.w, u.pc.data[cnt]);
    if u.pc.Advancing? {
      assert u.pc.data[..cnt] + [u.pc.data[cnt]] == u.pc.data[..cnt + 1];
      assert MainStep(u).accepted == u.pc.base + u.pc.data[..cnt + 1];
      assert u.wire + InFlight(u) + (Ring(u) + [u.pc.data[cnt]]) == u.wire + InFlight(u) + Ring(u) + [u.pc.data[cnt]];
    }
  }

  lemma TestingKeepsInv(u: Uart)
    requires Inv(u) && (u.pc.Filling? || u.pc.Testing?)
    ensures Inv(MainStep(u))
  {
    hide Contents;
    UsedIsLength(u.buff, u.r, u.w);
    assert u.dma[..0] == [];
  }

  lemma ConsumingKeepsInv(u: Uart)
    requires Inv(u) && u.pc.Consuming?
    ensures Inv(MainStep(u))
  {
    hide Contents, Next;
    var cnt := u.pc.cnt;
    UsedIsLength(u.buff, u.r, u.w);
    LoadThenAdvance(u.buff, u.r, u.w);
    assert u.dma[..cnt] + [u.dma[cnt]] == u.dma[..cnt + 1];
    assert u.wire + (u.dma[..cnt] + [u.dma[cnt]]) == u.wire + u.dma[..cnt] + [u.dma[cnt]];
  }

  lemma DrainingKeepsInv(u: Uart)
    requires Inv(u) && MainOwnsDma(u.pc) && !u.pc.Consuming?
    ensures Inv(MainStep(u))
  {
    hide Contents;
    UsedIsLength(u.buff, u.r, u.w);
    assert MainStep(u).dma[..u.pc.cnt] == u.dma[..u.pc.cnt];
    assert u.dma[0..u.pc.cnt] == u.dma[..u.pc.cnt];
    assert u.dma[..0] == [];
  }

  lemma HardwareKeepsInv(u: Uart, u': Uart)
    requires Inv(u) && HardwareStep(u, u')
    ensures Inv(u')
  {
    hide Contents;
    var sent, len := u.transfer.sent, u.transfer.len;
    if sent < len {
      assert u.dma[sent..len] == [u.dma[sent]] + u.dma[sent + 1..len];
      assert u'.wire + InFlight(u') == u.wire + InFlight(u);
    } else {
      assert InFlight(u) == [];
    }
  }

  /** Draining moves bytes from the front of the ring to the back of the DMA buffer's used part. */
  lemma {:induction false} DrainedMoves(u: Uart, cnt: nat)
    requires WellFormed(u) && cnt <= |u.dma|
    ensures var (v, n) := Drained(u, cnt);
      && v == u.(dma := v.dma, r := v.r) && cnt <= n && WellFormed(v)
      && v.dma[..n] + Ring(v) == u.dma[..cnt] + Ring(u)
      && (n > cnt || n == |u.dma| || Ring(v) == [])
    decreases |u.dma| - cnt
  {
    hide Contents;
    UsedIsLength(u.buff, u.r, u.w);
    if cnt < |u.dma| && !Empty(u.r, u.w) {
      LoadThenAdvance(u.buff, u.r, u.w);
      var next := u.(dma := u.dma[cnt := u.buff[u.r]], r := Next(u.r, |u.buff|));
      DrainedMoves(next, cnt + 1);
      assert next.dma[..cnt + 1] == u.dma[..cnt] + [u.buff[u.r]];
    }
  }

  lemma InterruptKeepsInv(u: Uart)
    requires Inv(u) && u.transfer.Complete?
    ensures Inv(Interrupt(u))
  {
    hide Contents, Drained;
    var (v, n) := Drained(u.(busy := false), 0);
    DrainedMoves(u.(busy := false), 0);
    assert v.dma[0..n] == v.dma[..n];
    assert v.dma[..0] == u.dma[..0] == [];
    assert u.wire + (v.dma[..n] + Ring(v)) == u.wire + v.dma[..n] + Ring(v);
    assert u.wire + [] + Ring(u) == u.wire + ([] + Ring(u));
  }

  lemma StepKeepsInv(u: Uart, u': Uart)
    requires Inv(u) && Step(u, u')
    ensures Inv(u')
  {
    hide Contents, MainStep, Interrupt, WellFormed;
    if u.pc != Idle && u' == MainStep(u) {
      if u.pc.Storing? || u.pc.Advancing? {
        AcceptingKeepsInv(u);
      } else if u.pc.Consuming? {
        ConsumingKeepsInv(u);
      } else if MainOwnsDma(u.pc) {
        DrainingKeepsInv(u);
      } else {
        TestingKeepsInv(u);
      }
    } else if Call(u, u') {
      CallKeepsInv(u, u');
    } else if HardwareStep(u, u') {
      HardwareKeepsInv(u, u');
    } else {
      InterruptKeepsInv(u);
    }
  }

  lemma CallKeepsInv(u: Uart, u': Uart)
    requires Inv(u) && Call(u, u')
    ensures Inv(u')
  {
    hide Contents;
  }

  // ---------------------------------------------------------------- what holds over every run

  ghost predicate Run(run: seq<Uart>) {
    && |run| > 0 && Init(run[0])
    && forall i :: 0 <= i < |run| - 1 ==> WellFormed(run[i]) && Step(run[i], run[i + 1])
  }

  lemma {:induction false} RunKeepsInv(run: seq<Uart>, n: nat)
    requires Run(run) && n < |run|
    ensures Inv(run[n])
  {
    hide Step, Contents;
    if n > 0 {
      RunKeepsInv(run, n - 1);
      StepKeepsInv(run[n - 1], run[n]);
    } else {
      InitHasInv(run[0]);
    }
  }

  lemma InitHasInv(u: Uart)
    requires Init(u)
    ensures Inv(u)
  {
  }

  /**
    At every point of every interleaving, the wire, the bytes in flight and the ring hold exactly the
    accepted bytes, in order; and once a write has returned to a driver that is not busy, every accepted
    byte is on the wire.
    */
  lemma NothingLostOrReordered(run: seq<Uart>, n: nat)
    requires Run(run) && n < |run|
    ensures WellFormed(run[n])
    ensures run[n].wire + InFlight(run[n]) + Ring(run[n]) == run[n].accepted
    ensures run[n].wire <= run[n].accepted
    ensures run[n].pc == Idle && !run[n].busy ==> Ring(run[n]) == [] && run[n].wire == run[n].accepted
  {
    hide Step, Contents;
    RunKeepsInv(run, n);
    var u := run[n];
    assert u.wire + InFlight(u) + Ring(u) == u.wire + (InFlight(u) + Ring(u));
  }

  /** While a transfer is under way nobody writes its buffer, and the flag is set. */
  lemma DmaBufferIsStable(run: seq<Uart>, n: nat)
    requires Run(run) && n + 1 < |run|
    ensures run[n].transfer.Active? ==> run[n].busy && run[n + 1].dma == run[n].dma
  {
    hide Contents;
    RunKeepsInv(run, n);
    assert Step(run[n], run[n + 1]);
  }

  /** What one write has accepted so far is a prefix of its data, behind everything accepted before. */
  lemma WriteAcceptsPrefix(run: seq<Uart>, n: nat)
    requires Run(run) && n < |run| && run[n].pc.Filling?
    ensures run[n].pc.cnt <= |run[n].pc.data|
    ensures run[n].accepted == run[n].pc.base + run[n].pc.data[..run[n].pc.cnt]
  {
    hide Step, Contents;
    RunKeepsInv(run, n);
  }

  /** Statements the main program still has to run, at most, before its call returns. */
  function Remaining(u: Uart): nat
    requires WellFormed(u)
  {
    match u.pc
    case Idle => 0
    case Filling(data, cnt, _) => 3 * (|data| - cnt) + 3 * |u.dma| + 5
    case Storing(data, cnt, _) => 3 * (|data| - cnt) + 3 * |u.dma| + 4
    case Advancing(data, cnt, _) => 3 * (|data| - cnt) + 3 * |u.dma| + 3
    case Testing => 3 * |u.dma| + 4
    case Draining(cnt) => 3 * (|u.dma| - cnt) + 3
    case Copying(cnt) => 3 * (|u.dma| - cnt) + 2
    case Consuming(cnt) => 3 * (|u.dma| - cnt) + 1
    case Starting(_) => 2
    case Launching(_) => 1
  }

  lemma MainStepUsesUp(u: Uart)
    requires WellFormed(u) && u.pc != Idle && WellFormed(MainStep(u))
    ensures Remaining(MainStep(u)) < Remaining(u)
  {
  }

  lemma OthersCostNothing(u: Uart, u': Uart)
    requires WellFormed(u) && WellFormed(u')
    requires HardwareStep(u, u') || (u.transfer.Complete? && u' == Interrupt(u))
    ensures Remaining(u') == Remaining(u)
  {
    hide Contents, Drained;
    if u.transfer.Complete? {
      DrainedMoves(u.(busy := false), 0);
    }
  }

  /** A call returns after boundedly many of its own statements, and preemption never adds to them. */
  lemma CallsTerminate(u: Uart, u': Uart)
    requires Inv(u) && Step(u, u') && u.pc != Idle
    ensures WellFormed(u')
    ensures u' == MainStep(u) ==> Remaining(u') < Remaining(u)
    ensures u' != MainStep(u) ==> Remaining(u') == Remaining(u)
  {
    hide Contents, Drained, MainStep, Interrupt, HardwareStep, Remaining;
    StepKeepsInv(u, u');
    if u' == MainStep(u) {
      MainStepUsesUp(u);
    } else {
      OthersCostNothing(u, u');
    }
  }

  /** When its loop ends, a write has accepted all of its data or filled the ring; the count it returns is final. */
  lemma WriteReturnsCount(run: seq<Uart>, n: nat)
    requires Run(run) && n + 1 < |run| && run[n].pc.Filling? && run[n + 1].pc == Testing
    ensures WellFormed(run[n]) && run[n + 1].accepted == run[n].pc.base + run[n].pc.data[..run[n].pc.cnt]
    ensures run[n].pc.cnt < |run[n].pc.data| ==> |Ring(run[n])| == |run[n].buff| - 1
  {
    hide Contents, Drained;
    RunKeepsInv(run, n);
    assert Step(run[n], run[n + 1]);
    UsedIsLength(run[n].buff, run[n].r, run[n].w);
    if run[n].transfer.Complete? {
      DrainedMoves(run[n].(busy := false), 0);
    }
  }

  /** Nothing is accepted except by the loop of a write. */
  lemma AcceptedOnlyByWrites(run: seq<Uart>, n: nat)
    requires Run(run) && n + 1 < |run| && !run[n].pc.Advancing?
    ensures run[n + 1].accepted == run[n].accepted
  {
    hide Contents, Drained;
    RunKeepsInv(run, n);
    assert Step(run[n], run[n + 1]);
    if run[n].transfer.Complete? {
      DrainedMoves(run[n].(busy := false), 0);
    }
  }

  // ---------------------------------------------------------------- every accepted byte gets out

  /** A statement of the call in progress, the channel, or the interrupt. */
  ghost predicate GoesOn(u: Uart, u': Uart)
    requires WellFormed(u)
  {
    (u.pc != Idle && u' == MainStep(u)) || HardwareStep(u, u') || (u.transfer.Complete? && u' == Interrupt(u))
  }

  /** Steps of the channel and the interrupt that the bytes in ring and channel still take, at most. */
  function ChannelWork(u: Uart): nat
    requires WellFormed(u)
  {
    3 * |Ring(u)|
    + match u.transfer
      case NoTransfer => 0
      case Active(len, sent) => len - sent + 2
      case Complete => 1
  }

  /** More than the work of a full ring and a full channel. */
  function FullWork(u: Uart): nat {
    3 * |u.buff| + |u.dma| + 3
  }

  /** All steps that are left, at most: each statement can bring at most a full ring and a full channel. */
  function StepsLeft(u: Uart): nat
    requires WellFormed(u)
  {
    Remaining(u) * FullWork(u) + ChannelWork(u)
  }

  lemma WorkIsBounded(u: Uart)
    requires WellFormed(u)
    ensures ChannelWork(u) < FullWork(u)
  {
    hide Contents;
    UsedIsLength(u.buff, u.r, u.w);
  }

  lemma InterruptUsesUp(u: Uart)
    requires Inv(u) && u.transfer.Complete? && WellFormed(Interrupt(u))
    ensures ChannelWork(Interrupt(u)) < ChannelWork(u)
  {
    hide Contents, Drained;
    var (v, n) := Drained(u.(busy := false), 0);
    DrainedMoves(u.(busy := false), 0);
    assert |v.dma[..n] + Ring(v)| == |u.dma[..0] + Ring(u)|;
  }

  lemma HardwareUsesUp(u: Uart, u': Uart)
    requires WellFormed(u) && HardwareStep(u, u') && WellFormed(u')
    ensures ChannelWork(u') < ChannelWork(u)
  {
    hide Contents;
  }

  lemma SizesStay(u: Uart, u': Uart)
    requires WellFormed(u) && GoesOn(u, u')
    ensures FullWork(u') == FullWork(u)
  {
    hide Contents, Drained;
    if u.transfer.Complete? {
      DrainedMoves(u.(busy := false), 0);
    }
  }

  /** A statement lowers the bound by all that ring and channel can hold. */
  lemma BoundsCompare(a: nat, b: nat, x: nat, y: nat, most: nat)
    requires (a < b && x < most) || (a == b && x < y)
    ensures a * most + x < b * most + y
  {
    if a < b {
      ProductMonotone(a + 1, b, most);
    }
  }

  /** Every step but a new call lowers the bound. */
  lemma GoingOnUsesUp(u: Uart, u': Uart)
    requires Inv(u) && GoesOn(u, u')
    ensures Inv(u') && StepsLeft(u') < StepsLeft(u)
  {
    hide Contents, Drained, MainStep, Interrupt, HardwareStep, Remaining, ChannelWork, FullWork, Inv, WellFormed;
    InvIsWellFormed(u);
    StepKeepsInv(u, u');
    InvIsWellFormed(u');
    SizesStay(u, u');
    WorkIsBounded(u');
    if u.pc != Idle && u' == MainStep(u) {
      MainStepUsesUp(u);
    } else {
      OthersCostNothing(u, u');
      if HardwareStep(u, u') {
        HardwareUsesUp(u, u');
      } else {
        InterruptUsesUp(u);
      }
    }
    BoundsCompare(Remaining(u'), Remaining(u), ChannelWork(u'), ChannelWork(u), FullWork(u));
  }

  lemma InvIsWellFormed(u: Uart)
    requires Inv(u)
    ensures WellFormed(u)
  {
  }

  /**
    As long as no new call comes, whatever the order of the steps, there are only so many; and where no
    step is possible any more, every accepted byte is on the wire.
    */
  lemma {:induction false} EveryByteGetsOut(run: seq<Uart>)
    requires |run| > 0 && Inv(run[0])
    requires forall i :: 0 <= i < |run| - 1 ==> WellFormed(run[i]) && GoesOn(run[i], run[i + 1])
    ensures |run| <= StepsLeft(run[0]) + 1
    ensures var e := run[|run| - 1];
      WellFormed(e) && ((forall u' :: !GoesOn(e, u')) ==> e.wire == e.accepted && Ring(e) == [])
  {
    hide Contents, Drained, MainStep, Interrupt, StepsLeft;
    if |run| > 1 {
      GoingOnUsesUp(run[0], run[1]);
      EveryByteGetsOut(run[1..]);
    } else {
      StandsStill(run[0]);
    }
  }

  lemma StandsStill(u: Uart)
    requires Inv(u)
    ensures WellFormed(u)
    ensures u.pc != Idle || u.transfer != NoTransfer ==> exists u' :: GoesOn(u, u')
    ensures u.pc == Idle && u.transfer == NoTransfer ==> u.wire == u.accepted && Ring(u) == []
  {
    hide Contents, Drained, MainStep, Interrupt;
    if u.pc != Idle {
      assert GoesOn(u, MainStep(u));
    } else if u.transfer.Complete? {
      assert GoesOn(u, Interrupt(u));
    } else if u.transfer.Active? {
      var u' := if u.transfer.sent < u.transfer.len
        then u.(wire := u.wire + [u.dma[u.transfer.sent]], transfer := Active(u.transfer.len, u.transfer.sent + 1))
        else u.(transfer := Complete);
      assert GoesOn(u, u');
    }
  }
}
