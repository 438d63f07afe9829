/**
  A module as the controller keeps it, and the handlers that serialise, read back and compare its
  properties.
  */
module Properties {
  import opened Arithmetic
  import opened Values

  const FIRMWARE_VERSION: PropId := 0
  const FIRMWARE_UPDATE: PropId := 1
  const COMMAND: PropId := 2
  const MODULE_INFO: PropId := 3
  const CHARACTER_SET: PropId := 4
  const CHARACTER: PropId := 5
  const OFFSET: PropId := 6
  const COLOR: PropId := 7
  const MOTION: PropId := 8
  const MINIMUM_ROTATION: PropId := 9
  const IR_THRESHOLD: PropId := 10
  const PROP_CNT := 11

  type PropId = id: nat | id < 11

  /** A sixteen-bit signed integer. */
  type Int16 = x: int | -0x8000 <= x < 0x8000

  datatype FirmwarePage = FirmwarePage(index: nat, data: seq<bv8>)
  datatype CharacterSet = CharacterSet(size: Byte, data: seq<Byte>)
  datatype Color = Color(red: Byte, green: Byte, blue: Byte)
  datatype ColorPair = ColorPair(foreground: Color, background: Color)
  datatype MotionLimits = MotionLimits(speedMin: Byte, speedMax: Byte, rampStart: Byte, rampStop: Byte)
  datatype IrThreshold = IrThreshold(lower: Int16, upper: Int16)

  /** A module; the pending properties are those that must still be written to the real one. */
  datatype Module = Module(
    firmwareVersion: Option<string>,
    firmwareUpdate: Option<FirmwarePage>,
    command: Byte,
    columnEnd: bool,
    characterSet: Option<CharacterSet>,
    characterIndex: Byte,
    offset: Byte,
    color: ColorPair,
    motion: MotionLimits,
    minimumRotation: Byte,
    irThreshold: IrThreshold,
    pending: set<PropId>
  )

  /** Page numbers are sixteen bits wide, pages are whole, and a character takes four bytes. */
  ghost predicate Whole(m: Module) {
    && (m.firmwareUpdate.Some? ==> m.firmwareUpdate.value.index < 0x1_0000 && |m.firmwareUpdate.value.data| == 128)
    && (m.characterSet.Some? ==> |m.characterSet.value.data| == 4 * m.characterSet.value.size)
  }

  // ---------------------------------------------------------------- the page message

  /** The page number, its high byte first, and the page: 130 bytes for a whole page. */
  type PageMessage = buf: seq<bv8> | |buf| >= 2 witness [0, 0]

  /** The byte with a given value. */
  function ToByte(n: nat): (b: bv8)
    requires n < 256
    ensures FromByte(b) == n
  {
    if n == 0 then 0
    else
      Incremented(ToByte(n - 1));
      ToByte(n - 1) + 1
  }

  function FromByte(b: bv8): (n: nat)
    ensures n < 256
  {
    b as nat
  }

  lemma Incremented(b: bv8)
    requires FromByte(b) < 255
    ensures FromByte(b + 1) == FromByte(b) + 1
  {
    assert b != 255;
  }

  lemma SameByte(a: bv8, b: bv8)
    requires FromByte(a) == FromByte(b)
    ensures a == b
  {
  }

  /** The controller's serialisation. */
  function FirmwareUpdateToBin(index: nat, page: seq<bv8>): (buf: PageMessage)
    requires index < 0x1_0000
    ensures |buf| == |page| + 2 && buf[2..] == page
  {
    [ToByte(index / 256), ToByte(index % 256)] + page
  }

  /** The page number the module reads back. */
  function DecodeIndex(buf: PageMessage): (index: nat)
    ensures index < 0x1_0000
  {
    256 * FromByte(buf[0]) + FromByte(buf[1])
  }

  /** Exactly one message reads as a given page number and page. */
  lemma MessageRoundTrip(index: nat, page: seq<bv8>, buf: PageMessage)
    requires index < 0x1_0000
    ensures buf == FirmwareUpdateToBin(index, page) <==> DecodeIndex(buf) == index && buf[2..] == page
  {
    hide ToByte, FromByte;
    var sent := FirmwareUpdateToBin(index, page);
    assert sent[0] == ToByte(index / 256) && sent[1] == ToByte(index % 256);
    if DecodeIndex(buf) == index && buf[2..] == page {
      SameByte(buf[0], ToByte(index / 256));
      SameByte(buf[1], ToByte(index % 256));
      assert buf == [buf[0], buf[1]] + buf[2..];
    }
  }

  // ---------------------------------------------------------------- serialised properties

  /** What goes over the wire for a property. */
  datatype Wire = Plain(bytes: seq<Byte>) | Paged(message: PageMessage)

  predicate HasCompare(id: PropId) { id != MODULE_INFO }

  predicate HasSerializer(id: PropId) { id != FIRMWARE_VERSION && id != MODULE_INFO }

  /** These properties are written and read back with the same layout. */
  predicate TwoWay(id: PropId) { CHARACTER_SET <= id }

  /** An integer in two bytes, the high one first. */
  function TwoBytes(x: Int16): (b: seq<Byte>)
    ensures |b| == 2
  {
    [x / 256 % 256, x % 256]
  }

  function FromTwoBytes(high: Byte, low: Byte): Int16 {
    Signed(256 * high + low, 0x8000)
  }

  lemma TwoBytesRoundTrip(x: Int16)
    ensures FromTwoBytes(TwoBytes(x)[0], TwoBytes(x)[1]) == x
  {
    hide Signed;
    if x < 0 {
      HighByte(x);
    } else {
      SignedInRange(x, 0x8000);
      assert Signed(x, 0x8000) == x;
    }
  }

  lemma HighByte(x: int)
    requires -0x8000 <= x < 0
    ensures 256 * (x / 256 % 256) + x % 256 == x + 0x1_0000 && Signed(x + 0x1_0000, 0x8000) == x
  {
    assert -128 <= x / 256 < 0;
  }

  /** The serialisers; nothing where a module has no value yet or the property cannot be written. */
  function ToBin(id: PropId, m: Module): Option<Wire>
    requires Whole(m)
  {
    if id == FIRMWARE_UPDATE then
      if m.firmwareUpdate.None? then None
      else Some(Paged(FirmwareUpdateToBin(m.firmwareUpdate.value.index, m.firmwareUpdate.value.data)))
    else if id == CHARACTER_SET then
      if m.characterSet.None? || m.characterSet.value.size == 0 then None
      else Some(Plain(m.characterSet.value.data))
    else if !HasSerializer(id) then None
    else Some(Plain(Bytes(id, m)))
  }

  /** The properties of a fixed length. */
  function Bytes(id: PropId, m: Module): seq<Byte> {
    if id == COMMAND then [m.command]
    else if id == CHARACTER then [m.characterIndex]
    else if id == OFFSET then [m.offset]
    else if id == COLOR then ColorBytes(m.color.foreground) + ColorBytes(m.color.background)
    else if id == MOTION then [m.motion.speedMin, m.motion.speedMax, m.motion.rampStart, m.motion.rampStop]
    else if id == MINIMUM_ROTATION then [m.minimumRotation]
    else TwoBytes(m.irThreshold.lower) + TwoBytes(m.irThreshold.upper)
  }

  function ColorBytes(c: Color): (b: seq<Byte>)
    ensures |b| == 3
  {
    [c.red, c.green, c.blue]
  }

  /** The comparison handlers, on the stored values. */
  predicate Compare(id: PropId, a: Module, b: Module)
    requires HasCompare(id)
  {
    if id == FIRMWARE_VERSION then a.firmwareVersion.Some? && a.firmwareVersion == b.firmwareVersion
    else if id == FIRMWARE_UPDATE then a.firmwareUpdate.Some? && a.firmwareUpdate == b.firmwareUpdate
    else if id == COMMAND then a.command == b.command
    else if id == CHARACTER_SET then a.characterSet.Some? && a.characterSet == b.characterSet
    else if id == CHARACTER then a.characterIndex == b.characterIndex
    else if id == OFFSET then a.offset == b.offset
    else if id == COLOR then a.color == b.color
    else if id == MOTION then a.motion == b.motion
    else if id == MINIMUM_ROTATION then a.minimumRotation == b.minimumRotation
    else a.irThreshold == b.irThreshold
  }

  /**
    Which properties have bytes, and which bytes: a page message, four bytes for each character, single
    bytes, both colours by red, green and blue, and thresholds with the high byte first.
    */
  lemma WireFormat(id: PropId, m: Module)
    requires Whole(m)
    ensures ToBin(id, m).Some? <==>
      && id != FIRMWARE_VERSION && id != MODULE_INFO && (id == FIRMWARE_UPDATE ==> m.firmwareUpdate.Some?)
      && (id == CHARACTER_SET ==> m.characterSet.Some? && m.characterSet.value.data != [])
    ensures ToBin(FIRMWARE_UPDATE, m).Some? ==>
      && |ToBin(FIRMWARE_UPDATE, m).value.message| == 130
      && DecodeIndex(ToBin(FIRMWARE_UPDATE, m).value.message) == m.firmwareUpdate.value.index
      && ToBin(FIRMWARE_UPDATE, m).value.message[2..] == m.firmwareUpdate.value.data
    ensures ToBin(CHARACTER_SET, m).Some? ==> ToBin(CHARACTER_SET, m).value.bytes == m.characterSet.value.data
    ensures ToBin(COMMAND, m).value.bytes == [m.command] && ToBin(CHARACTER, m).value.bytes == [m.characterIndex]
    ensures ToBin(OFFSET, m).value.bytes == [m.offset] && ToBin(MINIMUM_ROTATION, m).value.bytes == [m.minimumRotation]
    ensures ToBin(MOTION, m).value.bytes ==
      [m.motion.speedMin, m.motion.speedMax, m.motion.rampStart, m.motion.rampStop]
    ensures ToBin(COLOR, m).value.bytes ==
      [m.color.foreground.red, m.color.foreground.green, m.color.foreground.blue,
       m.color.background.red, m.color.background.green, m.color.background.blue]
    ensures var b := ToBin(IR_THRESHOLD, m).value.bytes;
      && |b| == 4 && HighFirst(b[0], b[1]) == m.irThreshold.lower % 0x1_0000
      && HighFirst(b[2], b[3]) == m.irThreshold.upper % 0x1_0000
  {
    hide FirmwareUpdateToBin, DecodeIndex, TwoBytes;
    if m.firmwareUpdate.Some? {
      var page := m.firmwareUpdate.value;
      MessageRoundTrip(page.index, page.data, FirmwareUpdateToBin(page.index, page.data));
    }
    TwoBytesAre(m.irThreshold.lower);
    TwoBytesAre(m.irThreshold.upper);
  }

  function HighFirst(high: int, low: int): int {
    256 * high + low
  }

  lemma TwoBytesAre(x: Int16)
    ensures HighFirst(TwoBytes(x)[0], TwoBytes(x)[1]) == x % 0x1_0000
  {
  }

  /** Versions compare equal if both are known and the same. */
  lemma VersionsCompare(a: Module, b: Module)
    ensures Compare(FIRMWARE_VERSION, a, b) <==>
      exists v :: a.firmwareVersion == Some(v) && b.firmwareVersion == Some(v)
  {
    if Compare(FIRMWARE_VERSION, a, b) {
      assert a.firmwareVersion == Some(a.firmwareVersion.value) && b.firmwareVersion == Some(a.firmwareVersion.value);
    }
  }

  /** What is stored equal is serialised equal. */
  lemma CompareMeansSameBytes(id: PropId, a: Module, b: Module)
    requires Whole(a) && Whole(b) && HasCompare(id) && Compare(id, a, b) && HasSerializer(id)
    ensures ToBin(id, a) == ToBin(id, b)
  {
  }

  /** Conversely no two different values have the same bytes: a comparison misses no chance to broadcast. */
  lemma SameBytesCompare(id: PropId, a: Module, b: Module)
    requires Whole(a) && Whole(b) && HasSerializer(id)
    requires ToBin(id, a).Some? && ToBin(id, a) == ToBin(id, b)
    ensures Compare(id, a, b)
  {
    hide TwoBytes, FromTwoBytes, FirmwareUpdateToBin, DecodeIndex;
    if id == FIRMWARE_UPDATE {
      var p, q := a.firmwareUpdate.value, b.firmwareUpdate.value;
      MessageRoundTrip(p.index, p.data, ToBin(id, a).value.message);
      MessageRoundTrip(q.index, q.data, ToBin(id, a).value.message);
    } else if id == COLOR {
      ColorBytesDiffer(a.color, b.color);
    } else if id == IR_THRESHOLD {
      ThresholdBytesDiffer(a.irThreshold, b.irThreshold);
    } else if id != CHARACTER_SET {
      FirstBytes(id, a, b);
    }
  }

  lemma FirstBytes(id: PropId, a: Module, b: Module)
    requires Bytes(id, a) == Bytes(id, b)
    ensures |Bytes(id, a)| > 0 && Bytes(id, a)[0] == Bytes(id, b)[0]
    ensures id == MOTION ==> a.motion == b.motion
  {
    hide TwoBytes, ColorBytes;
    if id == MOTION {
      var x, y := Bytes(id, a), Bytes(id, b);
      assert x[0] == y[0] && x[1] == y[1] && x[2] == y[2] && x[3] == y[3];
    }
  }

  lemma ColorBytesDiffer(a: ColorPair, b: ColorPair)
    requires ColorBytes(a.foreground) + ColorBytes(a.background) == ColorBytes(b.foreground) + ColorBytes(b.background)
    ensures a == b
  {
    var x := ColorBytes(a.foreground) + ColorBytes(a.background);
    var y := ColorBytes(b.foreground) + ColorBytes(b.background);
    assert x[0] == y[0] && x[1] == y[1] && x[2] == y[2] && x[3] == y[3] && x[4] == y[4] && x[5] == y[5];
  }

  lemma ThresholdBytesDiffer(a: IrThreshold, b: IrThreshold)
    requires TwoBytes(a.lower) + TwoBytes(a.upper) == TwoBytes(b.lower) + TwoBytes(b.upper)
    ensures a == b
  {
    hide TwoBytes, FromTwoBytes;
    var x := TwoBytes(a.lower) + TwoBytes(a.upper);
    var y := TwoBytes(b.lower) + TwoBytes(b.upper);
    assert x[0] == y[0] && x[1] == y[1] && x[2] == y[2] && x[3] == y[3];
    TwoBytesRoundTrip(a.lower);
    TwoBytesRoundTrip(a.upper);
    TwoBytesRoundTrip(b.lower);
    TwoBytesRoundTrip(b.upper);
  }

  // ---------------------------------------------------------------- reading back

  /** As many bytes as the fixed layouts have. */
  function Width(id: PropId): nat {
    if id == COLOR then 6 else if id == MOTION || id == IR_THRESHOLD then 4 else 1
  }

  /** The handlers that read a property from the wire; nothing for a character set that is cut short. */
  function FromBin(id: PropId, m: Module, b: seq<Byte>): Option<Module>
    requires TwoWay(id) && (id != CHARACTER_SET ==> |b| >= Width(id))
  {
    if id == CHARACTER_SET then
      if |b| % 4 != 0 then None
      else
        var size := |b| / 4 % 256;
        Some(m.(characterSet := Some(CharacterSet(size, b[..4 * size]))))
    else if id == CHARACTER then Some(m.(characterIndex := b[0]))
    else if id == OFFSET then Some(m.(offset := b[0]))
    else if id == COLOR then Some(m.(color := ColorPair(Color(b[0], b[1], b[2]), Color(b[3], b[4], b[5]))))
    else if id == MOTION then Some(m.(motion := MotionLimits(b[0], b[1], b[2], b[3])))
    else if id == MINIMUM_ROTATION then Some(m.(minimumRotation := b[0]))
    else Some(m.(irThreshold := IrThreshold(FromTwoBytes(b[0], b[1]), FromTwoBytes(b[2], b[3]))))
  }

  /** A change of one property: what every other one is serialised to stays. */
  ghost predicate OnlyChanges(id: PropId, m: Module, changed: Module)
    requires Whole(m)
  {
    && Whole(changed) && changed.pending == m.pending
    && forall other: PropId :: other != id ==> ToBin(other, changed) == ToBin(other, m)
  }

  /** A module that reads what another one wrote has the other's value of that property, and no other changed. */
  lemma ReadBack(id: PropId, m: Module, source: Module)
    requires Whole(m) && Whole(source) && TwoWay(id) && ToBin(id, source).Some?
    ensures var b := ToBin(id, source).value.bytes;
      && (id != CHARACTER_SET ==> |b| >= Width(id))
      && FromBin(id, m, b).Some? && Whole(FromBin(id, m, b).value)
      && Compare(id, FromBin(id, m, b).value, source)
      && ToBin(id, FromBin(id, m, b).value) == ToBin(id, source)
  {
    hide TwoBytes, FromTwoBytes, FirmwareUpdateToBin, DecodeIndex;
    if id == CHARACTER_SET {
      CharactersReadBack(m, source);
    } else {
      assert |Bytes(id, source)| == Width(id);
      if id == IR_THRESHOLD {
        TwoBytesRoundTrip(source.irThreshold.lower);
        TwoBytesRoundTrip(source.irThreshold.upper);
      }
      CompareMeansSameBytes(id, FromBin(id, m, ToBin(id, source).value.bytes).value, source);
    }
  }

  lemma CharactersReadBack(m: Module, source: Module)
    requires Whole(m) && Whole(source) && ToBin(CHARACTER_SET, source).Some?
    ensures FromBin(CHARACTER_SET, m, source.characterSet.value.data) == Some(m.(characterSet := source.characterSet))
  {
    var c := source.characterSet.value;
    assert c.data[..4 * c.size] == c.data;
  }

  lemma ReadLeavesOthers(id: PropId, other: PropId, m: Module, b: seq<Byte>)
    requires Whole(m) && TwoWay(id) && (id != CHARACTER_SET ==> |b| >= Width(id)) && other != id
    requires FromBin(id, m, b).Some?
    ensures Whole(FromBin(id, m, b).value)
    ensures ToBin(other, FromBin(id, m, b).value) == ToBin(other, m) && FromBin(id, m, b).value.pending == m.pending
  {
    hide TwoBytes, FromTwoBytes, FirmwareUpdateToBin, ColorBytes;
  }

  /** So storing what was read is a change of that property only. */
  lemma ReadOnlyChanges(id: PropId, m: Module, b: seq<Byte>)
    requires Whole(m) && TwoWay(id) && (id != CHARACTER_SET ==> |b| >= Width(id)) && FromBin(id, m, b).Some?
    ensures OnlyChanges(id, m, FromBin(id, m, b).value)
  {
    hide ToBin, FromBin;
    ReadLeavesOthers(id, FIRMWARE_VERSION, m, b);
    forall other: PropId | other != id
      ensures ToBin(other, FromBin(id, m, b).value) == ToBin(other, m)
    {
      ReadLeavesOthers(id, other, m, b);
    }
  }

}
