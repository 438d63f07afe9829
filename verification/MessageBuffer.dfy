/**
  The kernel's message buffer: variable-length messages, each behind its length, in a circular byte store
  that one writer and one reader use without a lock. The writer publishes a message by moving the head
  and the reader frees it by moving the tail; everything else either of them does can be interleaved.
  */
module MessageBuffer {
  import opened RingBuffer
  import opened Values

  type Message = seq<Byte>

  // ---------------------------------------------------------------- the wire format

  /** sbBYTES_TO_STORE_MESSAGE_LENGTH, for a 32-bit size_t. */
  const LENGTH_BYTES: nat := 4
  const LENGTH_LIMIT: nat := 0x1_0000_0000

  /** The length as it lies in memory: four bytes, least significant first. */
  function EncodeLength(n: nat): (bytes: seq<Byte>)
    requires n < LENGTH_LIMIT
    ensures |bytes| == LENGTH_BYTES
  {
    [n % 256, n / 256 % 256, n / 256 / 256 % 256, n / 256 / 256 / 256]
  }

  function DecodeLength(bytes: seq<Byte>): nat
    requires |bytes| == LENGTH_BYTES
  {
    var b0: int, b1: int, b2: int, b3: int := bytes[0], bytes[1], bytes[2], bytes[3];
    b0 + 256 * (b1 + 256 * (b2 + 256 * b3))
  }

  lemma LengthRoundTrip(n: nat)
    requires n < LENGTH_LIMIT
    ensures DecodeLength(EncodeLength(n)) == n
  {
    var n1, n2 := n / 256, n / 256 / 256;
    assert n2 == n2 % 256 + 256 * (n2 / 256);
    assert n1 == n1 % 256 + 256 * n2;
    assert n == n % 256 + 256 * n1;
  }

  function Frame(m: Message): (bytes: seq<Byte>)
    requires |m| < LENGTH_LIMIT
    ensures |bytes| == LENGTH_BYTES + |m|
  {
    EncodeLength(|m|) + m
  }

  predicate Sendable(ms: seq<Message>) {
    forall i :: 0 <= i < |ms| ==> 0 < |ms[i]| < LENGTH_LIMIT
  }

  function Frames(ms: seq<Message>): seq<Byte>
    requires Sendable(ms)
  {
    if ms == [] then [] else Frame(ms[0]) + Frames(ms[1..])
  }

  /** The messages a byte sequence holds, if it is a sequence of whole non-empty messages. */
  function Decode(bytes: seq<Byte>): Option<seq<Message>> {
    if bytes == [] then Some([])
    else if |bytes| < LENGTH_BYTES then None
    else
      var n := DecodeLength(bytes[..LENGTH_BYTES]);
      if n == 0 || |bytes| < LENGTH_BYTES + n then None
      else
        match Decode(bytes[LENGTH_BYTES + n..])
        case None => None
        case Some(rest) => Some([bytes[LENGTH_BYTES..LENGTH_BYTES + n]] + rest)
  }

  lemma {:induction false} DecodeFrames(ms: seq<Message>)
    requires Sendable(ms)
    ensures Decode(Frames(ms)) == Some(ms)
  {
    if ms != [] {
      var bytes := Frames(ms);
      var n := |ms[0]|;
      LengthRoundTrip(n);
      assert bytes[..LENGTH_BYTES] == EncodeLength(n);
      assert bytes[LENGTH_BYTES..LENGTH_BYTES + n] == ms[0];
      assert bytes[LENGTH_BYTES + n..] == Frames(ms[1..]);
      DecodeFrames(ms[1..]);
      assert [ms[0]] + ms[1..] == ms;
    }
  }

  lemma {:induction false} FramesSnoc(ms: seq<Message>, m: Message)
    requires Sendable(ms) && 0 < |m| < LENGTH_LIMIT
    ensures Frames(ms + [m]) == Frames(ms) + Frame(m)
  {
    if ms == [] {
      assert ms + [m] == [m];
      assert [m][1..] == [];
    } else {
      assert (ms + [m])[1..] == ms[1..] + [m];
      FramesSnoc(ms[1..], m);
      assert Frame(ms[0]) + (Frames(ms[1..]) + Frame(m)) == Frame(ms[0]) + Frames(ms[1..]) + Frame(m);
    }
  }

  // ---------------------------------------------------------------- positions in the store

  /** The space computation on head and tail. */
  function Spaces(head: nat, tail: nat, size: nat): nat
    requires head < size && tail < size
  {
    var space := size + tail - head - 1;
    if space >= size then space - size else space
  }

  /** The byte count computation on head and tail. */
  function Bytes(head: nat, tail: nat, size: nat): nat
    requires head < size && tail < size
  {
    var count := size + head - tail;
    if count >= size then count - size else count
  }

  lemma CountsAreLengths(buff: seq<Byte>, head: nat, tail: nat)
    requires head < |buff| && tail < |buff|
    ensures Bytes(head, tail, |buff|) == |Contents(buff, tail, head)| < |buff|
    ensures Spaces(head, tail, |buff|) == |buff| - 1 - |Contents(buff, tail, head)|
  {
  }

  lemma StoredAt(buff: seq<Byte>, head: nat, tail: nat, k: nat)
    requires head < |buff| && tail < |buff| && k < |Contents(buff, tail, head)|
    ensures buff[At(tail, k, |buff|)] == Contents(buff, tail, head)[k]
  {
  }

  /** A byte stored in the free space changes neither the contents nor the other free bytes. */
  lemma StoreInFree(buff: seq<Byte>, head: nat, tail: nat, k: nat, b: Byte)
    requires head < |buff| && tail < |buff| && k < |buff| - |Contents(buff, tail, head)|
    ensures Contents(buff[At(head, k, |buff|) := b], tail, head) == Contents(buff, tail, head)
    ensures forall i :: 0 <= i < k ==> At(head, i, |buff|) != At(head, k, |buff|)
  {
  }

  /** Moving the head over n bytes of free space adds those bytes. */
  lemma HeadMoves(buff: seq<Byte>, head: nat, tail: nat, bytes: seq<Byte>)
    requires head < |buff| && tail < |buff| && |bytes| < |buff| - |Contents(buff, tail, head)|
    requires forall i :: 0 <= i < |bytes| ==> buff[At(head, i, |buff|)] == bytes[i]
    ensures Contents(buff, tail, At(head, |bytes|, |buff|)) == Contents(buff, tail, head) + bytes
  {
    var a, b := Contents(buff, tail, At(head, |bytes|, |buff|)), Contents(buff, tail, head) + bytes;
    assert |a| == |b|;
    forall i | 0 <= i < |a|
      ensures a[i] == b[i]
    {
      var h := |Contents(buff, tail, head)|;
      if h <= i {
        assert buff[At(head, i - h, |buff|)] == bytes[i - h];
      }
    }
  }

  /** Moving the tail over n bytes drops them. */
  lemma TailMoves(buff: seq<Byte>, head: nat, tail: nat, n: nat)
    requires head < |buff| && tail < |buff| && n <= |Contents(buff, tail, head)|
    ensures n <= |buff|
    ensures Contents(buff, At(tail, n, |buff|), head) == Contents(buff, tail, head)[n..]
  {
  }

  // ---------------------------------------------------------------- one writer, one reader

  datatype Writer =
    | Ready
    | Sampled(m: Message, space: nat)     // about to compare the space with what the message needs
    | Writing(m: Message, k: nat)         // k bytes of the frame are stored
  datatype Reader =
    | Waiting
    | Counted(room: nat, available: nat)                  // about to test whether there is a message
    | Reading(room: nat, available: nat, got: seq<Byte>)  // bytes copied out so far, length first

  datatype Buffer = Buffer(
    buff: seq<Byte>, head: nat, tail: nat,
    writer: Writer, reader: Reader,
    sent: seq<Message>, received: seq<Message>   // what the calls have reported so far
  )

  ghost predicate WellFormed(b: Buffer) {
    && b.head < |b.buff| && b.tail < |b.buff|
    && (b.writer.Sampled? ==> |b.writer.m| < LENGTH_LIMIT && b.writer.space < |b.buff|)
    && (b.writer.Writing? ==> |b.writer.m| < LENGTH_LIMIT && b.writer.k <= |Frame(b.writer.m)| < |b.buff|)
    && (b.reader.Counted? ==> b.reader.available < |b.buff|)
    && (b.reader.Reading? ==> LENGTH_BYTES < b.reader.available < |b.buff| && |b.reader.got| <= b.reader.available)
  }

  function Stored(b: Buffer): seq<Byte>
    requires WellFormed(b)
  {
    Contents(b.buff, b.tail, b.head)
  }

  /** The writer starts a call and samples the space. The message length must fit its four bytes. */
  ghost predicate WriterStarts(b: Buffer, b': Buffer)
    requires WellFormed(b)
  {
    && b.writer == Ready
    && exists m: Message :: |m| < LENGTH_LIMIT && b' == b.(writer := Sampled(m, Spaces(b.head, b.tail, |b.buff|)))
  }

  /**
    The writer goes on: it gives up if the frame does not fit, else stores the frame byte by byte, and at
    the end publishes it by moving the head. An empty message is stored but never published.
    */
  function WriterStep(b: Buffer): Buffer
    requires WellFormed(b) && b.writer != Ready
  {
    match b.writer
    case Sampled(m, space) =>
      if space >= |Frame(m)| then b.(writer := Writing(m, 0)) else b.(writer := Ready)
    case Writing(m, k) =>
      if k < |Frame(m)| then
        b.(buff := b.buff[At(b.head, k, |b.buff|) := Frame(m)[k]], writer := Writing(m, k + 1))
      else if m == [] then b.(writer := Ready)
      else b.(head := At(b.head, k, |b.buff|), writer := Ready, sent := b.sent + [m])
  }

  /** The reader starts a call with room for so many bytes and counts what is available. */
  ghost predicate ReaderStarts(b: Buffer, b': Buffer)
    requires WellFormed(b)
  {
    && b.reader == Waiting
    && exists room :: b' == b.(reader := Counted(room, Bytes(b.head, b.tail, |b.buff|)))
  }

  /** How many bytes of the message the reader will take, once it has its length. */
  function TakeCount(length: nat, room: nat, available: nat): nat
    requires available >= LENGTH_BYTES
  {
    var next := if length > room then 0 else length;
    if next <= available - LENGTH_BYTES then next else available - LENGTH_BYTES
  }

  /** The reader goes on: it copies out the length and then the bytes, and frees them by moving the tail. */
  function ReaderStep(b: Buffer): Buffer
    requires WellFormed(b) && b.reader != Waiting
  {
    match b.reader
    case Counted(room, available) =>
      if available > LENGTH_BYTES then b.(reader := Reading(room, available, [])) else b.(reader := Waiting)
    case Reading(room, available, got) =>
      if |got| < LENGTH_BYTES then
        b.(reader := Reading(room, available, got + [b.buff[At(b.tail, |got|, |b.buff|)]]))
      else
        var count := TakeCount(DecodeLength(got[..LENGTH_BYTES]), room, available);
        if count == 0 then b.(reader := Waiting)
        else if |got| < LENGTH_BYTES + count then
          b.(reader := Reading(room, available, got + [b.buff[At(b.tail, |got|, |b.buff|)]]))
        else
          b.(tail := At(b.tail, |got|, |b.buff|), reader := Waiting, received := b.received + [got[LENGTH_BYTES..]])
  }

  ghost predicate Step(b: Buffer, b': Buffer)
    requires WellFormed(b)
  {
    || WriterStarts(b, b')
    || (b.writer != Ready && b' == WriterStep(b))
    || ReaderStarts(b, b')
    || (b.reader != Waiting && b' == ReaderStep(b))
  }

  ghost predicate Init(b: Buffer) {
    && |b.buff| > 0 && b.head == b.tail == 0
    && b.writer == Ready && b.reader == Waiting && b.sent == [] && b.received == []
  }

  // ---------------------------------------------------------------- the invariant

  ghost predicate HistoryOk(b: Buffer) {
    && b.received <= b.sent
    && Sendable(b.sent)
  }

  /** Messages sent and not yet received. */
  function Pending(b: Buffer): seq<Message>
    requires |b.received| <= |b.sent|
  {
    b.sent[|b.received|..]
  }

  ghost predicate WriterOk(b: Buffer)
    requires WellFormed(b)
  {
    match b.writer
    case Ready => true
    case Sampled(_, space) => space <= |b.buff| - 1 - |Stored(b)|
    case Writing(m, k) =>
      && |Frame(m)| <= |b.buff| - 1 - |Stored(b)|
      && forall i :: 0 <= i < k ==> b.buff[At(b.head, i, |b.buff|)] == Frame(m)[i]
  }

  /** If the reader saw anything, the whole oldest message is there; what it has copied is the front of that. */
  ghost predicate ReaderOk(b: Buffer)
    requires WellFormed(b) && HistoryOk(b)
  {
    match b.reader
    case Waiting => true
    case Counted(_, available) =>
      available <= |Stored(b)| && (available > 0 ==> Pending(b) != [] && |Frame(Pending(b)[0])| <= available)
    case Reading(room, available, got) =>
      && available <= |Stored(b)|
      && Pending(b) != [] && |Frame(Pending(b)[0])| <= available
      && got <= Frame(Pending(b)[0])
      && (|got| > LENGTH_BYTES ==> |Pending(b)[0]| <= room)
  }

  ghost predicate Inv(b: Buffer) {
    && WellFormed(b) && HistoryOk(b)
    && Stored(b) == Frames(Pending(b))
    && WriterOk(b) && ReaderOk(b)
  }

  lemma StartKeepsInv(b: Buffer, b': Buffer)
    requires Inv(b) && (WriterStarts(b, b') || ReaderStarts(b, b'))
    ensures Inv(b')
  {
    hide Contents;
    CountsAreLengths(b.buff, b.head, b.tail);
  }

  lemma WriterStoresKeepsInv(b: Buffer)
    requires Inv(b) && b.writer.Writing? && b.writer.k < |Frame(b.writer.m)|
    ensures Inv(WriterStep(b))
  {
    hide Contents, Frames, Frame;
    var m, k := b.writer.m, b.writer.k;
    CountsAreLengths(b.buff, b.head, b.tail);
    StoreInFree(b.buff, b.head, b.tail, k, Frame(m)[k]);
  }

  lemma WriterEndsKeepsInv(b: Buffer)
    requires Inv(b) && b.writer.Writing? && b.writer.k == |Frame(b.writer.m)|
    ensures Inv(WriterStep(b))
  {
    hide Contents, Frames, Frame;
    var m := b.writer.m;
    if m != [] {
      var b' := WriterStep(b);
      HeadMoves(b.buff, b.head, b.tail, Frame(m));
      FramesSnoc(Pending(b), m);
      assert Pending(b') == Pending(b) + [m];
    }
  }

  /** What the reader copies next is the next byte of the oldest message's frame. */
  lemma NextByteRead(b: Buffer)
    requires Inv(b) && b.reader.Reading? && |b.reader.got| < |Frame(Pending(b)[0])|
    ensures |b.reader.got| <= |b.buff|
    ensures b.buff[At(b.tail, |b.reader.got|, |b.buff|)] == Frame(Pending(b)[0])[|b.reader.got|]
  {
    hide Contents, Frame;
    CountsAreLengths(b.buff, b.head, b.tail);
    StoredAt(b.buff, b.head, b.tail, |b.reader.got|);
  }

  lemma PrefixGrows(got: seq<Byte>, frame: seq<Byte>)
    requires got <= frame && |got| < |frame|
    ensures got + [frame[|got|]] <= frame
  {
  }

  /** Once the reader has the length, it has the right one, and will take all of the message or nothing. */
  lemma LengthRead(b: Buffer)
    requires Inv(b) && b.reader.Reading? && |b.reader.got| >= LENGTH_BYTES
    ensures DecodeLength(b.reader.got[..LENGTH_BYTES]) == |Pending(b)[0]|
    ensures TakeCount(|Pending(b)[0]|, b.reader.room, b.reader.available)
         == if |Pending(b)[0]| > b.reader.room then 0 else |Pending(b)[0]|
  {
    hide Contents, Frames, EncodeLength, DecodeLength;
    var m := Pending(b)[0];
    LengthRoundTrip(|m|);
    assert b.reader.got[..LENGTH_BYTES] == EncodeLength(|m|);
  }

  lemma ReaderStepKeepsInv(b: Buffer)
    requires Inv(b) && b.reader.Reading?
    ensures Inv(ReaderStep(b))
  {
    hide Contents, Frames, Frame, DecodeLength, TakeCount;
    var got := b.reader.got;
    var m := Pending(b)[0];
    if |got| < LENGTH_BYTES {
      NextByteRead(b);
      PrefixGrows(got, Frame(m));
    } else {
      LengthRead(b);
      var count := TakeCount(|m|, b.reader.room, b.reader.available);
      if count != 0 {
        if |got| < LENGTH_BYTES + count {
          NextByteRead(b);
          PrefixGrows(got, Frame(m));
        } else {
          ReceiveKeepsInv(b);
        }
      }
    }
  }

  lemma ReceiveKeepsInv(b: Buffer)
    requires Inv(b) && b.reader.Reading? && |b.reader.got| == |Frame(Pending(b)[0])|
    ensures |b.reader.got| <= |b.buff|
    ensures b.reader.got[LENGTH_BYTES..] == Pending(b)[0]
    ensures Inv(b.(tail := At(b.tail, |b.reader.got|, |b.buff|), reader := Waiting,
                   received := b.received + [b.reader.got[LENGTH_BYTES..]]))
  {
    hide Contents, EncodeLength;
    var got := b.reader.got;
    var m := Pending(b)[0];
    CountsAreLengths(b.buff, b.head, b.tail);
    TailMoves(b.buff, b.head, b.tail, |got|);
    assert got == Frame(m) && got[LENGTH_BYTES..] == m;
    var b' := b.(tail := At(b.tail, |got|, |b.buff|), reader := Waiting, received := b.received + [m]);
    assert Pending(b') == Pending(b)[1..];
    assert Stored(b') == Frames(Pending(b)[1..]);
  }

  lemma StepKeepsInv(b: Buffer, b': Buffer)
    requires Inv(b) && Step(b, b')
    ensures Inv(b')
  {
    hide Contents, Frames, Frame, WriterOk, ReaderOk;
    if WriterStarts(b, b') {
      StartKeepsInv(b, b');
    } else if b.writer != Ready && b' == WriterStep(b) {
      if b.writer.Sampled? {
        DecisionsKeepInv(b);
      } else if b.writer.k < |Frame(b.writer.m)| {
        WriterStoresKeepsInv(b);
      } else {
        WriterEndsKeepsInv(b);
      }
    } else if ReaderStarts(b, b') {
      StartKeepsInv(b, b');
    } else if b.reader.Reading? {
      ReaderStepKeepsInv(b);
    } else {
      DecisionsKeepInv(b);
    }
  }

  lemma DecisionsKeepInv(b: Buffer)
    requires Inv(b)
    ensures b.writer.Sampled? ==> Inv(WriterStep(b))
    ensures b.reader.Counted? ==> Inv(ReaderStep(b))
  {
    hide Contents, Frames, Frame;
    CountsAreLengths(b.buff, b.head, b.tail);
  }

  // ---------------------------------------------------------------- what holds over every run

  ghost predicate Run(run: seq<Buffer>) {
    && |run| > 0 && Init(run[0])
    && forall i :: 0 <= i < |run| - 1 ==> WellFormed(run[i]) && Step(run[i], run[i + 1])
  }

  lemma {:induction false} RunKeepsInv(run: seq<Buffer>, n: nat)
    requires Run(run) && n < |run|
    ensures Inv(run[n])
  {
    hide Step, Contents;
    if n > 0 {
      RunKeepsInv(run, n - 1);
      StepKeepsInv(run[n - 1], run[n]);
    } else {
      InitHasInv(run[0]);
    }
  }

  lemma InitHasInv(b: Buffer)
    requires Init(b)
    ensures Inv(b)
  {
  }

  /**
    In every interleaving the reader gets the messages sent, whole and in order, and the bytes between tail
    and head are exactly the frames of those sent and not yet received.
    */
  lemma FirstInFirstOut(run: seq<Buffer>, n: nat)
    requires Run(run) && n < |run|
    ensures run[n].received <= run[n].sent
    ensures WellFormed(run[n])
    ensures Decode(Stored(run[n])) == Some(run[n].sent[|run[n].received|..])
  {
    hide Step, Contents, Frames, WriterOk, ReaderOk;
    RunKeepsInv(run, n);
    DecodeFrames(Pending(run[n]));
  }

  /** A writer's step adds one whole message or nothing; a reader's step removes the oldest one or nothing. */
  lemma StepsAreAtomic(run: seq<Buffer>, n: nat)
    requires Run(run) && n + 1 < |run|
    ensures run[n + 1].sent == run[n].sent
         || (run[n].writer.Writing? && run[n].writer.m != [] && run[n + 1].sent == run[n].sent + [run[n].writer.m])
    ensures run[n + 1].received == run[n].received
         || (|run[n].received| < |run[n].sent|
             && run[n + 1].received == run[n].received + [run[n].sent[|run[n].received|]])
  {
    hide Contents, Frames, WriterOk, ReaderOk;
    RunKeepsInv(run, n);
    RunKeepsInv(run, n + 1);
    assert Step(run[n], run[n + 1]);
  }

  /** The reader's call fails, changing nothing, exactly when its room is too small for the oldest message. */
  lemma RoomDecides(run: seq<Buffer>, n: nat)
    requires Run(run) && n < |run| && run[n].reader.Reading? && |run[n].reader.got| == LENGTH_BYTES
    ensures |run[n].received| < |run[n].sent| && WellFormed(run[n])
    ensures ReaderStep(run[n]) == run[n].(reader := Waiting)
       <==> |run[n].sent[|run[n].received|]| > run[n].reader.room
  {
    hide Step, Contents, Frames, Frame;
    RunKeepsInv(run, n);
    LengthRead(run[n]);
  }

  // ---------------------------------------------------------------- a call without interruption

  /** What a send leaves in a buffer of some size. */
  function AfterSend(held: seq<Byte>, size: nat, m: Message): seq<Byte>
    requires |m| < LENGTH_LIMIT
  {
    if m != [] && |held| + |Frame(m)| < size then held + Frame(m) else held
  }

  /** What a receive leaves, and returns. */
  function AfterReceive(held: seq<Byte>, room: nat): (r: (seq<Byte>, Message))
    requires Decode(held).Some?
  {
    DecodeFirst(held);
    var ms := Decode(held).value;
    if ms == [] || |ms[0]| > room then (held, []) else (held[LENGTH_BYTES + |ms[0]|..], ms[0])
  }

  function WriterLeft(b: Buffer): nat
    requires WellFormed(b)
  {
    match b.writer
    case Ready => 0
    case Sampled(m, _) => |Frame(m)| + 2
    case Writing(m, k) => |Frame(m)| - k + 1
  }

  /** The writer runs its call to the end. */
  ghost function WriterEnds(b: Buffer): (e: Buffer)
    requires Inv(b)
    ensures Inv(e) && (b.writer == Ready ==> e == b)
    decreases WriterLeft(b)
  {
    if b.writer == Ready then b
    else
      StepKeepsInv(b, WriterStep(b));
      WriterMeasure(b);
      WriterEnds(WriterStep(b))
  }

  lemma WriterMeasure(b: Buffer)
    requires WellFormed(b) && b.writer != Ready && WellFormed(WriterStep(b))
    ensures WriterLeft(WriterStep(b)) < WriterLeft(b)
  {
    hide Frame;
  }

  lemma {:induction false} WritingEnds(b: Buffer)
    requires Inv(b) && b.writer.Writing?
    ensures var e := WriterEnds(b);
      && e.writer == Ready && e.reader == b.reader && e.tail == b.tail && e.received == b.received
      && |e.buff| == |b.buff|
      && e.sent == if b.writer.m == [] then b.sent else b.sent + [b.writer.m]
    decreases WriterLeft(b)
  {
    hide WriterOk, ReaderOk, HistoryOk, Frames, Frame;
    StepKeepsInv(b, WriterStep(b));
    OneWriterStep(b);
    if WriterStep(b).writer.Writing? {
      WriterMeasure(b);
      WritingEnds(WriterStep(b));
    }
  }

  lemma OneWriterStep(b: Buffer)
    requires Inv(b) && b.writer != Ready && Inv(WriterStep(b))
    ensures WellFormed(b) && WellFormed(WriterStep(b))
    ensures WriterEnds(b) == WriterEnds(WriterStep(b))
  {
    hide WriterOk, ReaderOk, HistoryOk, Frame, Frames, WriterStep;
  }

  lemma SampledEnds(b: Buffer)
    requires Inv(b) && b.writer.Sampled?
    ensures var e := WriterEnds(b);
      && e.writer == Ready && e.reader == b.reader && e.tail == b.tail && e.received == b.received
      && |e.buff| == |b.buff|
      && e.sent == if b.writer.m != [] && b.writer.space >= |Frame(b.writer.m)| then b.sent + [b.writer.m] else b.sent
  {
    hide WriterOk, ReaderOk, HistoryOk, Frames, Frame;
    StepKeepsInv(b, WriterStep(b));
    OneWriterStep(b);
    if WriterStep(b).writer.Writing? {
      WritingEnds(WriterStep(b));
    }
  }

  /** The machine and the class agree on a send: run without interruption it stores what the method stores. */
  lemma StepsImplementSend(b: Buffer, m: Message)
    requires Inv(b) && b.writer == Ready && |m| < LENGTH_LIMIT
    ensures var started := b.(writer := Sampled(m, Spaces(b.head, b.tail, |b.buff|)));
      && WriterStarts(b, started) && Inv(started)
      && var e := WriterEnds(started);
      && e.writer == Ready && e.reader == b.reader && e.tail == b.tail && WellFormed(e)
      && Stored(e) == AfterSend(Stored(b), |b.buff|, m)
      && e.sent == b.sent + if m != [] && |Stored(b)| + |Frame(m)| < |b.buff| then [m] else []
  {
    hide Frame, Frames, Contents, WriterOk, ReaderOk, WriterStep;
    CountsAreLengths(b.buff, b.head, b.tail);
    var started := b.(writer := Sampled(m, Spaces(b.head, b.tail, |b.buff|)));
    assert WriterStarts(b, started);
    StepKeepsInv(b, started);
    SampledEnds(started);
    if m != [] && started.writer.space >= |Frame(m)| {
      assert Pending(WriterEnds(started)) == Pending(b) + [m];
      FramesSnoc(Pending(b), m);
    }
  }

  function ReaderLeft(b: Buffer): nat
    requires WellFormed(b)
  {
    match b.reader
    case Waiting => 0
    case Counted(_, available) => available + 2
    case Reading(_, available, got) => available - |got| + 1
  }

  /** The reader runs its call to the end. */
  ghost function ReaderEnds(b: Buffer): (e: Buffer)
    requires Inv(b)
    ensures Inv(e) && (b.reader == Waiting ==> e == b)
    decreases ReaderLeft(b)
  {
    if b.reader == Waiting then b
    else
      StepKeepsInv(b, ReaderStep(b));
      ReaderMeasure(b);
      ReaderEnds(ReaderStep(b))
  }

  lemma ReaderMeasure(b: Buffer)
    requires WellFormed(b) && b.reader != Waiting && WellFormed(ReaderStep(b))
    ensures ReaderLeft(ReaderStep(b)) < ReaderLeft(b)
  {
    hide Contents, DecodeLength;
  }

  lemma OneReaderStep(b: Buffer)
    requires Inv(b) && b.reader != Waiting && Inv(ReaderStep(b))
    ensures WellFormed(b) && WellFormed(ReaderStep(b))
    ensures ReaderEnds(b) == ReaderEnds(ReaderStep(b))
  {
    hide WriterOk, ReaderOk, HistoryOk, Frame, Frames, ReaderStep;
  }

  lemma {:induction false} ReadingEnds(b: Buffer)
    requires Inv(b) && b.reader.Reading?
    ensures var e := ReaderEnds(b);
      && e.reader == Waiting && e.writer == b.writer && e.head == b.head && e.buff == b.buff && e.sent == b.sent
      && |b.received| < |b.sent|
      && e.received == if |Pending(b)[0]| > b.reader.room then b.received else b.received + [Pending(b)[0]]
    decreases ReaderLeft(b)
  {
    hide WriterOk, Frames, Frame, DecodeLength, Contents, TakeCount;
    StepKeepsInv(b, ReaderStep(b));
    OneReaderStep(b);
    ReadingStep(b);
    if ReaderStep(b).reader.Reading? {
      ReaderMeasure(b);
      ReadingEnds(ReaderStep(b));
    }
  }

  /** One step of reading goes on with the same call, gives up for want of room, or takes the oldest message. */
  lemma ReadingStep(b: Buffer)
    requires Inv(b) && b.reader.Reading?
    ensures var e := ReaderStep(b);
      && e.writer == b.writer && e.head == b.head && e.buff == b.buff && e.sent == b.sent
      && (e.reader.Reading? ==> e.received == b.received && e.reader.room == b.reader.room)
      && (!e.reader.Reading? ==> e.reader == Waiting)
      && (!e.reader.Reading? ==>
        e.received == if |Pending(b)[0]| > b.reader.room then b.received else b.received + [Pending(b)[0]])
  {
    hide WriterOk, Frames, Frame, DecodeLength, Contents;
    if |b.reader.got| >= LENGTH_BYTES {
      LengthRead(b);
      if |b.reader.got| == LENGTH_BYTES + |Pending(b)[0]| {
        FrameLength(Pending(b)[0]);
        ReceiveKeepsInv(b);
      }
      FrameLength(Pending(b)[0]);
    }
  }

  lemma FrameLength(m: Message)
    requires |m| < LENGTH_LIMIT
    ensures |Frame(m)| == LENGTH_BYTES + |m|
  {
  }

  lemma CountedEnds(b: Buffer)
    requires Inv(b) && b.reader.Counted?
    ensures var e := ReaderEnds(b);
      && e.reader == Waiting && e.writer == b.writer && e.head == b.head && e.buff == b.buff && e.sent == b.sent
      && (b.reader.available <= LENGTH_BYTES ==> e.received == b.received && e.tail == b.tail)
      && (b.reader.available > LENGTH_BYTES ==>
        |b.received| < |b.sent|
        && e.received == if |Pending(b)[0]| > b.reader.room then b.received else b.received + [Pending(b)[0]])
  {
    hide WriterOk, Frames, Frame, DecodeLength, Contents;
    StepKeepsInv(b, ReaderStep(b));
    OneReaderStep(b);
    if ReaderStep(b).reader.Reading? {
      ReadingEnds(ReaderStep(b));
    }
  }

  /** And on a receive: run without interruption it takes and leaves what the method returns and leaves. */
  lemma StepsImplementReceive(b: Buffer, room: nat)
    requires Inv(b) && b.reader == Waiting
    ensures var started := b.(reader := Counted(room, Bytes(b.head, b.tail, |b.buff|)));
      && ReaderStarts(b, started) && Inv(started)
      && var e := ReaderEnds(started);
      && e.reader == Waiting && e.writer == b.writer && e.head == b.head && WellFormed(e) && Decode(Stored(b)).Some?
      && Stored(e) == AfterReceive(Stored(b), room).0
      && e.received == b.received +
           if AfterReceive(Stored(b), room).1 == [] then [] else [AfterReceive(Stored(b), room).1]
  {
    hide Frame, Frames, Contents, WriterOk, ReaderOk, DecodeLength, Decode, ReaderStep;
    CountsAreLengths(b.buff, b.head, b.tail);
    DecodeFrames(Pending(b));
    FirstFrame(Pending(b));
    var started := b.(reader := Counted(room, Bytes(b.head, b.tail, |b.buff|)));
    assert ReaderStarts(b, started);
    StepKeepsInv(b, started);
    CountedEnds(started);
    var e := ReaderEnds(started);
    if Pending(b) != [] {
      assert Pending(e) == if |Pending(b)[0]| <= room then Pending(b)[1..] else Pending(b);
    }
  }

  /** The first frame; there are more bytes than a length exactly when there is one. */
  lemma FirstFrame(ms: seq<Message>)
    requires Sendable(ms)
    ensures ms == [] <==> |Frames(ms)| <= LENGTH_BYTES
    ensures ms == [] ==> Frames(ms) == []
    ensures ms != [] ==>
      |Frames(ms)| >= LENGTH_BYTES + |ms[0]| && Frames(ms)[LENGTH_BYTES + |ms[0]|..] == Frames(ms[1..])
  {
  }

  // ---------------------------------------------------------------- the calls, one at a time

  /** A stream buffer, or a message buffer if the flag is set. Calls do not wait. */
  class StreamBuffer {
    const buffer: array<Byte>
    const isMessageBuffer: bool
    var head: nat
    var tail: nat

    ghost predicate Valid()
      reads this
    {
      head < buffer.Length && tail < buffer.Length
    }

    ghost function Held(): seq<Byte>
      requires Valid()
      reads this, buffer
    {
      Contents(buffer[..], tail, head)
    }

    constructor (size: nat, isMessageBuffer: bool)
      requires size > 0
      ensures Valid() && Held() == [] && buffer.Length == size && this.isMessageBuffer == isMessageBuffer
    {
      buffer := new Byte[size];
      this.isMessageBuffer := isMessageBuffer;
      head, tail := 0, 0;
    }

    method SpacesAvailable() returns (space: nat)
      requires Valid()
      ensures space == buffer.Length - 1 - |Held()|
    {
      CountsAreLengths(buffer[..], head, tail);
      space := buffer.Length + tail;
      space := space - head;
      space := space - 1;
      if space >= buffer.Length {
        space := space - buffer.Length;
      }
    }

    method BytesInBuffer() returns (count: nat)
      requires Valid()
      ensures count == |Held()|
    {
      CountsAreLengths(buffer[..], head, tail);
      count := buffer.Length + head;
      count := count - tail;
      if count >= buffer.Length {
        count := count - buffer.Length;
      }
    }

    /** Copies bytes in from a position, in two pieces if they wrap round; returns the position after them. */
    method WriteBytesToBuffer(data: seq<Byte>, from: nat) returns (next: nat)
      requires 0 < |data| <= buffer.Length && from < buffer.Length
      modifies buffer
      ensures buffer[..] == StoreFrom(old(buffer[..]), from, data)
      ensures next == At(from, |data|, buffer.Length)
    {
      var first := if buffer.Length - from <= |data| then buffer.Length - from else |data|;
      forall j | from <= j < from + first {
        buffer[j] := data[j - from];
      }
      if |data| > first {
        forall j | 0 <= j < |data| - first {
          buffer[j] := data[first + j];
        }
      }
      next := from + |data|;
      if next >= buffer.Length {
        next := next - buffer.Length;
      }
    }

    /** Copies bytes out from a position, in two pieces if they wrap round; returns the position after them. */
    method ReadBytesFromBuffer(count: nat, from: nat) returns (data: seq<Byte>, next: nat)
      requires 0 < count <= buffer.Length && from < buffer.Length
      ensures |data| == count && forall i :: 0 <= i < count ==> data[i] == buffer[At(from, i, buffer.Length)]
      ensures next == At(from, count, buffer.Length)
    {
      var first := if buffer.Length - from <= count then buffer.Length - from else count;
      data := buffer[from..from + first];
      if count > first {
        data := data + buffer[..count - first];
      }
      next := from + count;
      if next >= buffer.Length {
        next := next - buffer.Length;
      }
    }

    /** Reading within the held bytes, after skipping some. */
    method ReadHeld(count: nat, ghost skip: nat, from: nat) returns (data: seq<Byte>, next: nat)
      requires Valid() && 0 < count && skip + count <= |Held()| <= buffer.Length
        && from == At(tail, skip, buffer.Length)
      ensures data == Held()[skip..skip + count]
      ensures next == At(tail, skip + count, buffer.Length)
    {
      hide Contents;
      CountsAreLengths(buffer[..], head, tail);
      data, next := ReadBytesFromBuffer(count, from);
      ReadIsSlice(buffer[..], head, tail, skip, data);
    }

    /**
      Writes a whole message, with its length in front, or as much of a stream as there is space for. The
      space was sampled before and can only have grown since.
      */
    method WriteMessageToBuffer(data: seq<Byte>, space: nat, requiredSpace: nat) returns (written: nat)
      requires Valid() && |data| < LENGTH_LIMIT && space <= buffer.Length - 1 - |Held()|
      requires isMessageBuffer ==> requiredSpace == |data| + LENGTH_BYTES
      modifies this`head, buffer
      ensures Valid()
      ensures isMessageBuffer ==> written == if requiredSpace <= space then |data| else 0
      ensures !isMessageBuffer ==> written == if |data| <= space then |data| else space
      ensures Held() == old(Held()) +
        if written == 0 then [] else if isMessageBuffer then Frame(data) else data[..written]
    {
      hide Contents, StoreFrom, EncodeLength;
      var nextHead := head;
      written := |data|;
      if isMessageBuffer {
        if space >= requiredSpace {
          StoredInFree(buffer[..], head, tail, EncodeLength(|data|));
          nextHead := WriteBytesToBuffer(EncodeLength(|data|), nextHead);
        } else {
          written := 0;
        }
      } else {
        written := if |data| <= space then |data| else space;
      }
      if written != 0 {
        if isMessageBuffer {
          FrameInFree(old(buffer[..]), head, tail, data);
        } else {
          StoredInFree(buffer[..], head, tail, data[..written]);
        }
        head := WriteBytesToBuffer(data[..written], nextHead);
        assert data[..|data|] == data;
      }
    }

    /** Reads the oldest message if the caller has room for it, or as much of a stream as there is. */
    method ReadMessageFromBuffer(room: nat, bytesAvailable: nat) returns (data: seq<Byte>)
      requires Valid() && bytesAvailable == |Held()|
      requires isMessageBuffer ==> bytesAvailable > LENGTH_BYTES
      modifies this`tail
      ensures Valid()
      ensures isMessageBuffer ==>
        var n := TakeCount(DecodeLength(old(Held())[..LENGTH_BYTES]), room, bytesAvailable);
        && data == old(Held())[LENGTH_BYTES..LENGTH_BYTES + n]
        && Held() == if n == 0 then old(Held()) else old(Held())[LENGTH_BYTES + n..]
      ensures !isMessageBuffer ==>
        var n := if room <= bytesAvailable then room else bytesAvailable;
        data == old(Held())[..n] && Held() == old(Held())[n..]
    {
      hide Contents, DecodeLength;
      CountsAreLengths(buffer[..], head, tail);
      var nextTail := tail;
      var available := bytesAvailable;
      var nextLength := room;
      ghost var skipped := 0;
      if isMessageBuffer {
        var bytes;
        bytes, nextTail := ReadHeld(LENGTH_BYTES, 0, nextTail);
        nextLength := DecodeLength(bytes);
        available := available - LENGTH_BYTES;
        skipped := LENGTH_BYTES;
        if nextLength > room {
          nextLength := 0;
        }
      }
      var count := if nextLength <= available then nextLength else available;
      data := [];
      if count != 0 {
        var newTail;
        data, newTail := ReadHeld(count, skipped, nextTail);
        TailMoves(buffer[..], head, tail, skipped + count);
        tail := newTail;
      }
    }

    /** A send that does not wait. A message goes in whole or not at all. */
    method Send(data: seq<Byte>) returns (written: nat)
      requires Valid() && |data| + LENGTH_BYTES < LENGTH_LIMIT
      modifies this`head, buffer
      ensures Valid()
      ensures isMessageBuffer ==>
        var fits := 0 < |data| && |data| + LENGTH_BYTES <= buffer.Length - 1 - |old(Held())|;
        && written == (if fits then |data| else 0)
        && Held() == AfterSend(old(Held()), buffer.Length, data)
      ensures !isMessageBuffer ==> written <= |data| && Held() == old(Held()) + data[..written]
      ensures !isMessageBuffer && written < |data| ==> |Held()| == buffer.Length - 1
    {
      hide Contents, EncodeLength;
      var space := SpacesAvailable();
      written := WriteMessageToBuffer(data, space, if isMessageBuffer then |data| + LENGTH_BYTES else |data|);
    }

    /** A receive that does not wait. */
    method Receive(room: nat) returns (data: seq<Byte>)
      requires Valid()
      requires isMessageBuffer ==> Decode(Held()).Some?
      modifies this`tail
      ensures Valid()
      ensures isMessageBuffer ==>
        && (Held(), data) == AfterReceive(old(Held()), room)
        && (data != [] ==> Decode(Held()).Some? && Decode(old(Held())) == Some([data] + Decode(Held()).value))
      ensures !isMessageBuffer ==> old(Held()) == data + Held() && |data| <= room
      ensures !isMessageBuffer && |data| < room ==> Held() == []
    {
      hide Contents, DecodeLength;
      var available := BytesInBuffer();
      data := [];
      if isMessageBuffer {
        DecodeFirst(Held());
      }
      if available > (if isMessageBuffer then LENGTH_BYTES else 0) {
        data := ReadMessageFromBuffer(room, available);
      }
    }
  }

  lemma DecodeFirst(bytes: seq<Byte>)
    requires Decode(bytes).Some?
    ensures |bytes| <= LENGTH_BYTES ==> bytes == [] && Decode(bytes) == Some([])
    ensures bytes != [] ==>
      var n := DecodeLength(bytes[..LENGTH_BYTES]);
      var ms := Decode(bytes).value;
      && 0 < n && LENGTH_BYTES + n <= |bytes| && |ms| > 0 && |ms[0]| == n
      && ms[0] == bytes[LENGTH_BYTES..LENGTH_BYTES + n]
      && Decode(bytes[LENGTH_BYTES + n..]) == Some(ms[1..])
  {
  }

  /** The store after copying bytes in from a position. */
  function StoreFrom(buff: seq<Byte>, from: nat, data: seq<Byte>): (r: seq<Byte>)
    requires from < |buff| && |data| <= |buff|
    ensures |r| == |buff|
    ensures forall i :: 0 <= i < |data| && i < |buff| ==> r[At(from, i, |buff|)] == data[i]
  {
    seq(|buff|, j requires 0 <= j < |buff| =>
      var d := Distance(from, j, |buff|);
      if d < |data| then data[d] else buff[j])
  }

  lemma StoredInFree(buff: seq<Byte>, head: nat, tail: nat, bytes: seq<Byte>)
    requires head < |buff| && tail < |buff| && |bytes| < |buff| - |Contents(buff, tail, head)|
    ensures Contents(StoreFrom(buff, head, bytes), tail, head) == Contents(buff, tail, head)
    ensures Contents(StoreFrom(buff, head, bytes), tail, At(head, |bytes|, |buff|)) ==
      Contents(buff, tail, head) + bytes
  {
    hide Contents, StoreFrom;
    StoreInvisible(buff, head, tail, bytes);
    HeadMoves(StoreFrom(buff, head, bytes), head, tail, bytes);
  }

  lemma StoreInvisible(buff: seq<Byte>, head: nat, tail: nat, bytes: seq<Byte>)
    requires head < |buff| && tail < |buff| && |bytes| < |buff| - |Contents(buff, tail, head)|
    ensures Contents(StoreFrom(buff, head, bytes), tail, head) == Contents(buff, tail, head)
  {
    hide Contents;
    var stored := StoreFrom(buff, head, bytes);
    CountsAreLengths(buff, head, tail);
    CountsAreLengths(stored, head, tail);
    var a, b := Contents(stored, tail, head), Contents(buff, tail, head);
    forall k | 0 <= k < |b|
      ensures a[k] == b[k]
    {
      StoredAt(buff, head, tail, k);
      StoredAt(stored, head, tail, k);
      assert Distance(head, At(tail, k, |buff|), |buff|) >= |bytes|;
    }
  }

  /** Storing the length and then the data behind it stores the frame. */
  lemma FrameInFree(buff: seq<Byte>, head: nat, tail: nat, m: Message)
    requires head < |buff| && tail < |buff| && |m| < LENGTH_LIMIT
    requires |Frame(m)| < |buff| - |Contents(buff, tail, head)|
    ensures StoreFrom(StoreFrom(buff, head, EncodeLength(|m|)), At(head, LENGTH_BYTES, |buff|), m)
         == StoreFrom(buff, head, Frame(m))
    ensures At(At(head, LENGTH_BYTES, |buff|), |m|, |buff|) == At(head, |Frame(m)|, |buff|)
    ensures Contents(StoreFrom(buff, head, Frame(m)), tail, At(head, |Frame(m)|, |buff|))
         == Contents(buff, tail, head) + Frame(m)
  {
    hide Contents, EncodeLength, StoreFrom;
    StoreTwice(buff, head, EncodeLength(|m|), m);
    StoredInFree(buff, head, tail, Frame(m));
  }

  lemma StoreTwice(buff: seq<Byte>, from: nat, a: seq<Byte>, b: seq<Byte>)
    requires from < |buff| && |a| + |b| <= |buff| && |a| < |buff|
    ensures StoreFrom(StoreFrom(buff, from, a), At(from, |a|, |buff|), b) == StoreFrom(buff, from, a + b)
    ensures At(At(from, |a|, |buff|), |b|, |buff|) == At(from, |a| + |b|, |buff|)
  {
    var once, both := StoreFrom(buff, from, a), StoreFrom(buff, from, a + b);
    var twice := StoreFrom(once, At(from, |a|, |buff|), b);
    forall j | 0 <= j < |buff|
      ensures twice[j] == both[j]
    {
      var d := Distance(from, j, |buff|);
      assert both[j] == if d < |a + b| then (a + b)[d] else buff[j];
      assert once[j] == if d < |a| then a[d] else buff[j];
      assert Distance(At(from, |a|, |buff|), j, |buff|) == if d < |a| then d - |a| + |buff| else d - |a|;
    }
  }

  lemma ReadIsSlice(buff: seq<Byte>, head: nat, tail: nat, skip: nat, data: seq<Byte>)
    requires head < |buff| && tail < |buff| && skip + |data| <= |Contents(buff, tail, head)|
    requires skip <= |buff| && |data| <= |buff|
    requires forall i :: 0 <= i < |data| ==> data[i] == buff[At(At(tail, skip, |buff|), i, |buff|)]
    ensures data == Contents(buff, tail, head)[skip..skip + |data|]
  {
    CountsAreLengths(buff, head, tail);
    forall i | 0 <= i < |data|
      ensures data[i] == Contents(buff, tail, head)[skip + i]
    {
      StoredAt(buff, head, tail, skip + i);
    }
  }
}
