/**
  The 32-bit image checksum: the software definition used by the upload script and the
  hardware unit used by the bootloader. Both feed little-endian words into a shift
  register with the polynomial and preset of Annex A of ISO/IEC 13818-1.
  */
module Crc {

  const PRESET: bv32 := 0xFFFF_FFFF

  /** One bit of the register: shift left, and fold the polynomial in when the top bit falls out. */
  function Shift(c: bv32): bv32 {
    if c & 0x8000_0000 != 0 then (c << 1) ^ 0x04C1_1DB7 else c << 1
  }

  /** The inverse of Shift. The polynomial is odd, so the low bit tells which branch was taken. */
  function Unshift(c: bv32): bv32 {
    if c & 1 != 0 then ((c ^ 0x04C1_1DB7) >> 1) | 0x8000_0000 else c >> 1
  }

  function Shifts(n: nat, c: bv32): bv32 {
    if n == 0 then c else Shift(Shifts(n - 1, c))
  }

  function Unshifts(n: nat, c: bv32): bv32 {
    if n == 0 then c else Unshifts(n - 1, Unshift(c))
  }

  function Xor(a: bv32, b: bv32): bv32 {
    a ^ b
  }

  /** Feeding one word: xor it into the register, then shift 32 times. */
  function Feed(c: bv32, w: bv32): bv32 {
    Shifts(32, Xor(c, w))
  }

  function Checksum(ws: seq<bv32>): bv32 {
    if |ws| == 0 then PRESET else Feed(Checksum(ws[..|ws| - 1]), ws[|ws| - 1])
  }

  predicate IsValid(ws: seq<bv32>) {
    Checksum(ws) == 0
  }

  // ---------------------------------------------------------------- one register step is a bijection

  lemma UnshiftMarked(c: bv32)
    requires c & 0x8000_0000 != 0
    ensures Unshift((c << 1) ^ 0x04C1_1DB7) == c
  {
    assert ((c << 1) ^ 0x04C1_1DB7) & 1 != 0;
    assert ((((c << 1) ^ 0x04C1_1DB7) ^ 0x04C1_1DB7) >> 1) | 0x8000_0000 == c;
  }

  lemma UnshiftUnmarked(c: bv32)
    requires c & 0x8000_0000 == 0
    ensures Unshift(c << 1) == c
  {
    assert (c << 1) & 1 == 0;
    assert (c << 1) >> 1 == c;
  }

  lemma UnshiftShift(c: bv32)
    ensures Unshift(Shift(c)) == c
  {
    hide Unshift;
    if c & 0x8000_0000 != 0 {
      UnshiftMarked(c);
    } else {
      UnshiftUnmarked(c);
    }
  }

  lemma ShiftOfMarked(c: bv32)
    requires c & 1 != 0
    ensures Shift(((c ^ 0x04C1_1DB7) >> 1) | 0x8000_0000) == c
  {
  }

  lemma ShiftOfUnmarked(c: bv32)
    requires c & 1 == 0
    ensures Shift(c >> 1) == c
  {
    assert (c >> 1) & 0x8000_0000 == 0;
    assert (c >> 1) << 1 == c;
  }

  lemma ShiftUnshift(c: bv32)
    ensures Shift(Unshift(c)) == c
  {
    hide Shift;
    if c & 1 != 0 {
      ShiftOfMarked(c);
    } else {
      ShiftOfUnmarked(c);
    }
  }

  lemma {:induction false} UnshiftsShifts(n: nat, c: bv32)
    ensures Unshifts(n, Shifts(n, c)) == c
  {
    hide Shift, Unshift;
    if n > 0 {
      UnshiftShift(Shifts(n - 1, c));
      UnshiftsShifts(n - 1, c);
    }
  }

  lemma {:induction false} ShiftsUnshifts(n: nat, c: bv32)
    ensures Shifts(n, Unshifts(n, c)) == c
  {
    hide Shift, Unshift;
    if n > 0 {
      ShiftsUnshifts(n - 1, Unshift(c));
      ShiftUnshift(c);
    }
  }

  lemma XorUndone(s: bv32, w: bv32)
    ensures Xor(s, Xor(s, w)) == w
    ensures Xor(s, w) == Xor(w, s)
    ensures Xor(s, s) == 0 && Xor(s, 0) == s
  {
  }

  /** For a fixed register, exactly one word leads to each target; for a fixed word, exactly one register does. */
  lemma FeedIsBijective(s: bv32, w: bv32, t: bv32)
    ensures Feed(s, w) == t <==> w == Xor(s, Unshifts(32, t))
    ensures Feed(s, w) == t <==> s == Xor(w, Unshifts(32, t))
  {
    hide Xor, Shifts, Unshifts;
    var before := Unshifts(32, t);
    UnshiftsShifts(32, Xor(s, w));
    ShiftsUnshifts(32, t);
    XorUndone(s, w);
    XorUndone(w, s);
    XorUndone(s, before);
    XorUndone(w, before);
  }

  lemma {:induction false} ShiftsOfZero(n: nat)
    ensures Shifts(n, 0) == 0
  {
    if n > 0 {
      ShiftsOfZero(n - 1);
    }
  }

  lemma FeedReachesZero(s: bv32, w: bv32)
    ensures Feed(s, w) == 0 <==> w == s
  {
    hide Xor, Shifts, Unshifts;
    ShiftsOfZero(32);
    UnshiftsShifts(32, 0);
    FeedIsBijective(s, w, 0);
    XorUndone(s, 0);
  }

  // ---------------------------------------------------------------- what the checksum detects

  lemma ChecksumSnoc(p: seq<bv32>, w: bv32)
    ensures Checksum(p + [w]) == Feed(Checksum(p), w)
  {
    assert (p + [w])[..|p|] == p;
  }

  /** Two images that differ in exactly one word never share a checksum. */
  lemma {:induction false} OneWordChangeDetected(a: seq<bv32>, b: seq<bv32>, i: nat)
    requires |a| == |b| && i < |a| && a[i] != b[i]
    requires forall j :: 0 <= j < |a| && j != i ==> a[j] == b[j]
    ensures Checksum(a) != Checksum(b)
  {
    hide Feed, Xor, Unshifts;
    var n := |a| - 1;
    var t := Checksum(b);
    FeedIsBijective(Checksum(a[..n]), a[n], t);
    FeedIsBijective(Checksum(b[..n]), b[n], t);
    XorUndone(a[n], Unshifts(32, t));
    if i == n {
      assert a[..n] == b[..n];
    } else {
      OneWordChangeDetected(a[..n], b[..n], i);
    }
  }

  /** Every prefix has exactly one word that completes it to a valid image: its own checksum. */
  lemma UniqueValidChecksumWord(p: seq<bv32>, w: bv32)
    ensures IsValid(p + [w]) <==> w == Checksum(p)
  {
    ChecksumSnoc(p, w);
    FeedReachesZero(Checksum(p), w);
  }

  lemma ComplementFacts(w: bv32)
    ensures !w != w
    ensures w & !w == 0
  {
  }

  /**
    Overwriting the checksum word of a valid image. The complement always invalidates it; when flash can
    only clear bits the stored word is w & !w == 0, which invalidates it exactly when w was not 0.
    */
  lemma InvertedChecksumInvalidates(p: seq<bv32>, w: bv32)
    requires IsValid(p + [w])
    ensures !IsValid(p + [!w])
    ensures IsValid(p + [w & !w]) <==> w == 0
  {
    ComplementFacts(w);
    UniqueValidChecksumWord(p, w);
    UniqueValidChecksumWord(p, !w);
    UniqueValidChecksumWord(p, w & !w);
  }

  /** Every prefix can be completed to a valid image whose checksum word is 0. */
  lemma ValidWithZeroChecksum(p: seq<bv32>)
    ensures IsValid(p + [Checksum(p)] + [0])
  {
    UniqueValidChecksumWord(p, Checksum(p));
    UniqueValidChecksumWord(p + [Checksum(p)], 0);
  }

  // ---------------------------------------------------------------- the generator and the preset

  /** The word with one bit set. */
  function Bit(k: bv6): bv32
    requires k < 32
  {
    1 << k
  }

  /** The generator's terms but for x^32: x^26, x^23, x^22, x^16, x^12, x^11, x^10, x^8, x^7, x^5, x^4, x^2, x and 1. */
  function Generator(): bv32 {
    Bit(26) | Bit(23) | Bit(22) | Bit(16) | Bit(12) | Bit(11) | Bit(10) | Bit(8) | Bit(7) | Bit(5) | Bit(4) | Bit(2)
    | Bit(1) | Bit(0)
  }

  /** A bit step multiplies the register, read as a polynomial, by x, modulo the generator. */
  lemma ShiftIsTimesX(c: bv32)
    ensures Shift(c) == if c & 0x8000_0000 == 0 then c << 1 else Xor(c << 1, Generator())
  {
    hide Generator;
    GeneratorIs();
  }

  lemma GeneratorIs()
    ensures Generator() == 0x04C1_1DB7
  {
  }

  function FourShifts(c: bv32): bv32 {
    Shift(Shift(Shift(Shift(c))))
  }

  lemma FourMore(n: nat, c: bv32)
    ensures Shifts(n + 4, c) == FourShifts(Shifts(n, c))
  {
    assert Shifts(n + 4, c) == Shift(Shifts(n + 3, c));
    assert Shifts(n + 3, c) == Shift(Shifts(n + 2, c));
    assert Shifts(n + 2, c) == Shift(Shifts(n + 1, c));
  }

  /** The register while one word of zeros is fed. */
  lemma RegisterOfZeros()
    ensures Shifts(32, 0xFFFF_FFFF) == 0xC704_DD7B
  {
    hide Shifts;
    FourMore(0, 0xFFFF_FFFF);
    FourMore(4, 0xFFFF_FFFF);
    FourMore(8, 0xFFFF_FFFF);
    FourMore(12, 0xFFFF_FFFF);
    FourMore(16, 0xFFFF_FFFF);
    FourMore(20, 0xFFFF_FFFF);
    FourMore(24, 0xFFFF_FFFF);
    FourMore(28, 0xFFFF_FFFF);
    ShiftsBegin(0xFFFF_FFFF);
    FourOfZeros();
  }

  lemma ShiftsBegin(c: bv32)
    ensures Shifts(0, c) == c
  {
  }

  lemma FourOfZeros()
    ensures FourShifts(0xFFFF_FFFF) == 0xC7B0_424D
    ensures FourShifts(0xC7B0_424D) == 0x4E08_BFB4
    ensures FourShifts(0x4E08_BFB4) == 0xF38F_8D9C
    ensures FourShifts(0xF38F_8D9C) == 0x00B7_647D
    ensures FourShifts(0x00B7_647D) == 0x0B76_47D0
    ensures FourShifts(0x0B76_47D0) == 0xB764_7D00
    ensures FourShifts(0xB764_7D00) == 0x5D0C_1B61
    ensures FourShifts(0x5D0C_1B61) == 0xC704_DD7B
  {
  }

  /** So one word of zeros makes it this, and one put before a valid image is noticed. */
  lemma ZeroWordNoticed(image: seq<bv32>)
    ensures Checksum([0]) == 0xC704_DD7B
    ensures IsValid(image) ==> !IsValid([0] + image)
  {
    hide Shifts, Shift;
    RegisterOfZeros();
    XorUndone(0xFFFF_FFFF, 0);
    ChecksumSnoc([], 0);
    assert [] + [0] == [0 as bv32];
    if IsValid(image) {
      LeadingWordsNoticedIff([0], image);
    }
  }

  /** Of single words only the preset itself is valid: it is all ones. */
  lemma ValidWord(w: bv32)
    ensures IsValid([w]) <==> w == 0xFFFF_FFFF
  {
    UniqueValidChecksumWord([], w);
    assert [] + [w] == [w];
  }

  /** The register of a run of words, from any start. */
  function Fed(c: bv32, ws: seq<bv32>): bv32 {
    if |ws| == 0 then c else Feed(Fed(c, ws[..|ws| - 1]), ws[|ws| - 1])
  }

  lemma {:induction false} ChecksumOfBoth(p: seq<bv32>, q: seq<bv32>)
    ensures Checksum(p + q) == Fed(Checksum(p), q)
    ensures Checksum(q) == Fed(0xFFFF_FFFF, q)
  {
    hide Feed;
    if q == [] {
      assert p + q == p;
    } else {
      var n := |q| - 1;
      ChecksumOfBoth(p, q[..n]);
      assert (p + q)[..|p| + n] == p + q[..n];
    }
  }

  lemma {:induction false} FedIsInjective(a: bv32, b: bv32, ws: seq<bv32>)
    ensures Fed(a, ws) == Fed(b, ws) <==> a == b
  {
    hide Feed, Xor, Unshifts;
    if ws != [] {
      var n := |ws| - 1;
      FedIsInjective(a, b, ws[..n]);
      FeedIsBijective(Fed(a, ws[..n]), ws[n], Fed(b, ws));
      FeedIsBijective(Fed(b, ws[..n]), ws[n], Fed(b, ws));
    }
  }

  function Zeros(n: nat): (ws: seq<bv32>)
    ensures |ws| == n
  {
    seq(n, _ => 0)
  }

  /** No number of zero words is a valid image: the register never becomes 0. */
  lemma {:induction false} ZerosAreInvalid(n: nat)
    ensures !IsValid(Zeros(n))
  {
    hide Feed;
    if n > 0 {
      ZerosAreInvalid(n - 1);
      assert Zeros(n)[..n - 1] == Zeros(n - 1);
      FeedReachesZero(Checksum(Zeros(n - 1)), 0);
    } else {
      assert Zeros(0) == [];
    }
  }

  /**
    Words put before a valid image, or dropped from its beginning, go unnoticed exactly if they bring the
    register back to the preset.
    */
  lemma LeadingWordsNoticedIff(p: seq<bv32>, image: seq<bv32>)
    requires IsValid(image)
    ensures IsValid(p + image) <==> Checksum(p) == 0xFFFF_FFFF
  {
    ChecksumOfBoth(p, image);
    FedIsInjective(Checksum(p), 0xFFFF_FFFF, image);
  }

  // ---------------------------------------------------------------- bytes and words

  /** The 32-bit word a little-endian load reads. */
  function LoadWord(b0: bv8, b1: bv8, b2: bv8, b3: bv8): bv32 {
    (b0 as bv32) | ((b1 as bv32) << 8) | ((b2 as bv32) << 16) | ((b3 as bv32) << 24)
  }

  lemma LoadWordInjective(a0: bv8, a1: bv8, a2: bv8, a3: bv8, b0: bv8, b1: bv8, b2: bv8, b3: bv8)
    requires LoadWord(a0, a1, a2, a3) == LoadWord(b0, b1, b2, b3)
    ensures a0 == b0 && a1 == b1 && a2 == b2 && a3 == b3
  {
  }

  /** The first byte is the low one. */
  lemma LoadWordIsLittleEndian(b0: bv8, b1: bv8, b2: bv8, b3: bv8)
    ensures LoadWord(b0, b1, b2, b3) & 0xFF == b0 as bv32
    ensures (LoadWord(b0, b1, b2, b3) >> 8) & 0xFF == b1 as bv32
    ensures (LoadWord(b0, b1, b2, b3) >> 16) & 0xFF == b2 as bv32
    ensures LoadWord(b0, b1, b2, b3) >> 24 == b3 as bv32
  {
  }

  /** The four bytes of a word as they are stored. */
  function StoreWord(w: bv32): (bytes: seq<bv8>)
    ensures |bytes| == 4 && LoadWord(bytes[0], bytes[1], bytes[2], bytes[3]) == w
  {
    [(w & 0xFF) as bv8, ((w >> 8) & 0xFF) as bv8, ((w >> 16) & 0xFF) as bv8, ((w >> 24) & 0xFF) as bv8]
  }

  lemma LoadWordZero(b0: bv8, b1: bv8, b2: bv8, b3: bv8)
    ensures LoadWord(b0, b1, b2, b3) == 0 <==> b0 == 0 && b1 == 0 && b2 == 0 && b3 == 0
  {
    assert LoadWord(0, 0, 0, 0) == 0;
    if LoadWord(b0, b1, b2, b3) == 0 {
      LoadWordInjective(b0, b1, b2, b3, 0, 0, 0, 0);
    }
  }

  /** The i-th little-endian word; bytes past the end of the data read as 0, as the upload script assembles it. */
  function WordAt(data: seq<bv8>, i: nat): bv32
    requires 4 * i < |data|
  {
    LoadWord(data[4 * i], ByteOrZero(data, 4 * i + 1), ByteOrZero(data, 4 * i + 2), ByteOrZero(data, 4 * i + 3))
  }

  function ByteOrZero(data: seq<bv8>, i: nat): bv8 {
    if i < |data| then data[i] else 0
  }

  function WordCount(data: seq<bv8>): nat {
    (|data| + 3) / 4
  }

  function Words(data: seq<bv8>): (ws: seq<bv32>)
    ensures |ws| == WordCount(data)
  {
    seq(WordCount(data), i requires 0 <= i < WordCount(data) => WordAt(data, i))
  }

  lemma WordsInjective(a: seq<bv8>, b: seq<bv8>)
    requires |a| == |b| && |a| % 4 == 0
    requires Words(a) == Words(b)
    ensures a == b
  {
    forall j | 0 <= j < |a|
      ensures a[j] == b[j]
    {
      var i := j / 4;
      assert Words(a)[i] == Words(b)[i];
      LoadWordInjective(a[4 * i], a[4 * i + 1], a[4 * i + 2], a[4 * i + 3],
                        b[4 * i], b[4 * i + 1], b[4 * i + 2], b[4 * i + 3]);
    }
  }

  /** Word-aligned data whose last four bytes hold the checksum. */
  lemma WordsSplit(data: seq<bv8>)
    requires |data| >= 4 && |data| % 4 == 0
    ensures Words(data) == Words(data[..|data| - 4]) + [WordAt(data, |data| / 4 - 1)]
  {
  }

  /** Equal-length images of which only the bytes of one word differ are told apart. */
  lemma ChangedBytesDetected(a: seq<bv8>, b: seq<bv8>, i: nat)
    requires |a| == |b| && |a| % 4 == 0 && 4 * i < |a| && a != b
    requires forall j :: 0 <= j < |a| && j / 4 != i ==> a[j] == b[j]
    ensures Checksum(Words(a)) != Checksum(Words(b))
  {
    hide Checksum, LoadWord;
    if Words(a)[i] == Words(b)[i] {
      forall k | 0 <= k < |Words(a)|
        ensures Words(a)[k] == Words(b)[k]
      {
      }
      WordsInjective(a, b);
    }
    OneWordChangeDetected(Words(a), Words(b), i);
  }

  // ---------------------------------------------------------------- the two implementations

  /** The checksum peripheral of the microcontroller. */
  class CrcUnit {
    var data: bv32

    constructor ()
      ensures data == 0xFFFF_FFFF
    {
      data := PRESET;
    }

    method Reset()
      modifies this
      ensures data == 0xFFFF_FFFF
    {
      data := PRESET;
    }

    method FeedData32(w: bv32)
      modifies this
      ensures data == Feed(old(data), w)
    {
      data := Shifts(32, Xor(data, w));
    }
  }

  /** The bootloader's check: reset the unit, feed every word, read the register. */
  method CalculateCrc(unit: CrcUnit, words: seq<bv32>) returns (crc: bv32)
    modifies unit
    ensures crc == Checksum(words)
  {
    unit.Reset();
    for i := 0 to |words|
      invariant unit.data == Checksum(words[..i])
    {
      assert words[..i + 1][..i] == words[..i];
      unit.FeedData32(words[i]);
    }
    assert words[..|words|] == words;
    return unit.data;
  }

  /** The last four bytes (or all of a shorter file) read big-endian. */
  function TrailerBigEndian(data: seq<bv8>): bv32 {
    BigEndian(if |data| <= 4 then data else data[|data| - 4..])
  }

  function BigEndian(bytes: seq<bv8>): bv32
  {
    if |bytes| == 0 then 0 else (BigEndian(bytes[..|bytes| - 1]) << 8) | (bytes[|bytes| - 1] as bv32)
  }

  /** So it is the last little-endian word of the data with its bytes reversed. */
  lemma TrailerIsReversed(data: seq<bv8>)
    requires |data| >= 4
    ensures var n := |data|;
      TrailerBigEndian(data) == LoadWord(data[n - 1], data[n - 2], data[n - 3], data[n - 4])
  {
    var t := data[|data| - 4..];
    BigEndianOfFour(t[0], t[1], t[2], t[3]);
    assert t == [t[0], t[1], t[2], t[3]];
  }

  lemma BigEndianSnoc(bytes: seq<bv8>, b: bv8)
    ensures BigEndian(bytes + [b]) == (BigEndian(bytes) << 8) | (b as bv32)
  {
    assert (bytes + [b])[..|bytes|] == bytes;
  }

  lemma BigEndianOfFour(b0: bv8, b1: bv8, b2: bv8, b3: bv8)
    ensures BigEndian([b0, b1, b2, b3]) == LoadWord(b3, b2, b1, b0)
  {
    hide LoadWord, BigEndian;
    NoBytes();
    BigEndianSnoc([], b0);
    BigEndianSnoc([b0], b1);
    BigEndianSnoc([b0, b1], b2);
    BigEndianSnoc([b0, b1, b2], b3);
    assert [] + [b0] == [b0] && [b0] + [b1] == [b0, b1] && [b0, b1] + [b2] == [b0, b1, b2];
    assert [b0, b1, b2] + [b3] == [b0, b1, b2, b3];
    ShiftedIn(b0, b1, b2, b3);
  }

  lemma NoBytes()
    ensures BigEndian([]) == 0
  {
  }

  lemma ShiftedIn(b0: bv8, b1: bv8, b2: bv8, b3: bv8)
    ensures ((((((((0 << 8) | (b0 as bv32)) << 8) | (b1 as bv32)) << 8) | (b2 as bv32)) << 8) | (b3 as bv32))
      == LoadWord(b3, b2, b1, b0)
  {
  }

  /** The script's inner byte loop: the k-th word, assembled from the up to four bytes that are left. */
  method AssembleWord(data: seq<bv8>, k: nat) returns (word: bv32)
    requires 4 * k < |data|
    ensures word == WordAt(data, k)
  {
    word := 0;
    var size := if |data| - 4 * k < 4 then |data| - 4 * k else 4;
    for j := 0 to size
      invariant j == 0 ==> word == 0
      invariant j == 1 ==> word == LoadWord(data[4 * k], 0, 0, 0)
      invariant j == 2 ==> word == LoadWord(data[4 * k], data[4 * k + 1], 0, 0)
      invariant j == 3 ==> word == LoadWord(data[4 * k], data[4 * k + 1], data[4 * k + 2], 0)
      invariant j == 4 ==> word == LoadWord(data[4 * k], data[4 * k + 1], data[4 * k + 2], data[4 * k + 3])
    {
      word := OrByte(word, data[4 * k + j], j);
    }
  }

  /** The script's inner bit loop. */
  method ProcessBits(start: bv32) returns (crc: bv32)
    ensures crc == Shifts(32, start)
  {
    hide Shift;
    crc := start;
    for b := 0 to 32
      invariant crc == Shifts(b, start)
    {
      crc := Shift(crc);
    }
  }

  /** The upload script's check of an image file. */
  method CalcStm32Checksum(data: seq<bv8>) returns (checksum: bv32, valid: bool)
    ensures checksum == TrailerBigEndian(data)
    ensures valid <==> IsValid(Words(data))
  {
    hide Xor, WordAt, Shifts;
    checksum := TrailerBigEndian(data);
    var crc := PRESET;
    var n := WordCount(data);
    for k := 0 to n
      invariant crc == Checksum(Words(data)[..k])
    {
      var word := AssembleWord(data, k);
      crc := ProcessBits(Xor(crc, word));
      assert Words(data)[..k + 1][..k] == Words(data)[..k];
    }
    assert Words(data)[..n] == Words(data);
    valid := crc == 0;
  }

  /** word | byte << 8 * j */
  function OrByte(word: bv32, byte: bv8, j: nat): bv32
    requires j < 4
  {
    match j
    case 0 => word | (byte as bv32)
    case 1 => word | ((byte as bv32) << 8)
    case 2 => word | ((byte as bv32) << 16)
    case 3 => word | ((byte as bv32) << 24)
  }
}
