/**
  The firmware upload: the web server cuts the file into chunks, the controller numbers and serialises
  each chunk, and the module decodes it and programs one flash page of the new slot.
  */
module Ota {
  import opened Flash
  import opened Bootloader
  import opened Arithmetic
  import opened Properties

  // ---------------------------------------------------------------- cutting the file

  /** A call of the chunk handler: the bytes, where they start, and the length of the whole file. */
  datatype Call = Call(data: seq<bv8>, offset: nat, total: nat)

  /** The calls so far are consecutive pieces of the file, each as long as allowed, and end at the given offset. */
  ghost predicate Cuts(content: seq<bv8>, size: nat, calls: seq<Call>, end: nat)
    requires 0 < size
  {
    if |calls| == 0 then end == 0
    else
      var c := calls[|calls| - 1];
      && c.total == |content| && c.offset < |content|
      && |c.data| == (if |content| - c.offset < size then |content| - c.offset else size)
      && end == c.offset + |c.data|
      && c.data == content[c.offset..end]
      && Cuts(content, size, calls[..|calls| - 1], c.offset)
  }

  /** How many chunks there are. */
  function Chunks(length: nat, size: nat): (n: nat)
    requires 0 < size
    ensures n == 0 <==> length == 0
  {
    if length == 0 then 0 else if length < size then 1 else 1 + Chunks(length - size, size)
  }

  /** The answer to an upload: every chunk was received and handled. */
  predicate Accepted(chunks: nat, received: nat -> bool, handled: nat -> bool) {
    forall k :: 0 <= k < chunks ==> received(k) && handled(k)
  }

  /**
    The upload loop. The k-th receive and the k-th handler call succeed or fail as the given functions
    say; the first failure ends the loop.
    */
  method UploadToChunks(content: seq<bv8>, size: nat, received: nat -> bool, handled: nat -> bool)
    returns (ok: bool, calls: seq<Call>, ghost end: nat)
    requires 0 < size
    ensures end <= |content| && Cuts(content, size, calls, end)
    ensures ok <==> Accepted(Chunks(|content|, size), received, handled)
    ensures ok ==> end == |content| && forall k :: 0 <= k < |calls| ==> received(k) && handled(k)
    ensures !ok ==> (end < |content| && !received(|calls|)) || (|calls| > 0 && !handled(|calls| - 1))
    ensures !ok ==> forall k :: 0 <= k < |calls| - 1 ==> received(k) && handled(k)
  {
    EmptyCut(content, size);
    hide Cuts, Chunks, Accepted;
    ghost var chunks := Chunks(|content|, size);
    var offset, remaining := 0, |content|;
    calls, end := [], 0;
    while remaining > 0
      invariant 0 <= remaining && offset + remaining == |content| && end == offset
      invariant Cuts(content, size, calls, offset)
      invariant chunks == |calls| + Chunks(remaining, size)
      invariant forall k :: 0 <= k < |calls| ==> received(k) && handled(k)
    {
      var len := if remaining < size then remaining else size;
      Decided(chunks, received, handled, |calls|);
      if !received(|calls|) {
        return false, calls, end;
      }
      var call := Call(content[offset..offset + len], offset, |content|);
      CutsExtend(content, size, calls, offset, call);
      OneChunk(remaining, size);
      calls, end := calls + [call], offset + len;
      if !handled(|calls| - 1) {
        return false, calls, end;
      }
      offset := offset + len;
      remaining := remaining - len;
    }
    Decided(chunks, received, handled, |calls|);
    ok := true;
  }

  lemma Decided(chunks: nat, received: nat -> bool, handled: nat -> bool, k: nat)
    requires k <= chunks && forall j :: 0 <= j < k ==> received(j) && handled(j)
    ensures k < chunks && !(received(k) && handled(k)) ==> !Accepted(chunks, received, handled)
    ensures k == chunks ==> Accepted(chunks, received, handled)
  {
  }

  lemma OneChunk(length: nat, size: nat)
    requires 0 < size && 0 < length
    ensures Chunks(length, size) == 1 + Chunks(if length < size then 0 else length - size, size)
  {
  }

  lemma EmptyCut(content: seq<bv8>, size: nat)
    requires 0 < size
    ensures Cuts(content, size, [], 0)
  {
  }

  lemma CutsExtend(content: seq<bv8>, size: nat, calls: seq<Call>, end: nat, c: Call)
    requires 0 < size && Cuts(content, size, calls, end)
    requires c.total == |content| && c.offset == end < |content| && end + |c.data| <= |content|
    requires |c.data| == if |content| - end < size then |content| - end else size
    requires c.data == content[end..end + |c.data|]
    ensures Cuts(content, size, calls + [c], end + |c.data|)
  {
    assert (calls + [c])[..|calls|] == calls;
  }

  function Joined(calls: seq<Call>): seq<bv8> {
    if |calls| == 0 then [] else Joined(calls[..|calls| - 1]) + calls[|calls| - 1].data
  }

  /** No byte of the file is lost, repeated or moved by the cutting. */
  lemma {:induction false} CutsJoin(content: seq<bv8>, size: nat, calls: seq<Call>, end: nat)
    requires 0 < size && Cuts(content, size, calls, end)
    ensures end <= |content| && Joined(calls) == content[..end]
  {
    if |calls| > 0 {
      var c := calls[|calls| - 1];
      CutsJoin(content, size, calls[..|calls| - 1], c.offset);
      assert content[..c.offset] + content[c.offset..end] == content[..end];
    }
  }

  // ---------------------------------------------------------------- numbering the chunks

  /** The page number the controller computes, stored in 16 bits. */
  function PageIndex(call: Call): nat
    requires |call.data| > 0
  {
    (call.offset / |call.data|) % 0x1_0000
  }

  /** In a file of whole pages the i-th chunk is the i-th page. */
  lemma {:induction false} WholePages(content: seq<bv8>, calls: seq<Call>, end: nat, i: nat)
    requires |content| % PAGE_SIZE == 0
    requires Cuts(content, PAGE_SIZE, calls, end) && i < |calls|
    ensures end == 128 * |calls| <= |content|
    ensures calls[i].offset == 128 * i && 128 * i + PAGE_SIZE <= |content|
    ensures calls[i].data == content[128 * i..128 * i + PAGE_SIZE]
  {
    var n := |calls| - 1;
    var c := calls[n];
    var before := calls[..n];
    assert Cuts(content, PAGE_SIZE, before, c.offset);
    hide Cuts;
    if n == 0 {
      assert c.offset == 0;
    } else {
      WholePages(content, before, c.offset, if i < n then i else n - 1);
    }
  }

  /** In a file of whole pages every chunk gets its own number. */
  lemma WholePagesIndex(content: seq<bv8>, calls: seq<Call>, end: nat, i: nat)
    requires |content| % PAGE_SIZE == 0 && |content| <= 0x1_0000 * 128
    requires Cuts(content, PAGE_SIZE, calls, end) && i < |calls|
    ensures |calls[i].data| == PAGE_SIZE && PageIndex(calls[i]) == i
  {
    hide Cuts;
    WholePages(content, calls, end, i);
  }

  /**
    A file that ends with a shorter chunk: q whole pages are followed by r bytes. The index of that last
    chunk is q only when q * (128 - r) < r.
    */
  lemma ShortChunkIndex(q: nat, r: nat, call: Call)
    requires 0 < r < 128 && call.offset == 128 * q && |call.data| == r && 128 * q < 0x1_0000
    ensures PageIndex(call) == q <==> q * (128 - r) < r
  {
    QuotientIs(128 * q, r, q);
    assert q * (128 - r) == 128 * q - q * r;
    assert q * r <= 128 * q;
    QuotientNoLarger(128 * q, r);
  }

  /** The last 64 bytes of any file of 192 are numbered 2, although they belong to page 1. */
  lemma ShortChunkMisplaced(content: seq<bv8>)
    requires |content| == 192
    ensures var last := Call(content[128..192], 128, 192);
      Cuts(content, PAGE_SIZE, [Call(content[0..128], 0, 192), last], 192) && PageIndex(last) == 2
  {
    hide Cuts, PageIndex;
    var first, last := Call(content[0..128], 0, 192), Call(content[128..192], 128, 192);
    assert |first.data| == 128 && |last.data| == 64;
    HalfPageIndex(last);
    EmptyCut(content, PAGE_SIZE);
    CutsExtend(content, PAGE_SIZE, [], 0, first);
    assert [] + [first] == [first];
    CutsExtend(content, PAGE_SIZE, [first], 128, last);
    assert [first] + [last] == [first, last];
  }

  lemma HalfPageIndex(call: Call)
    requires call.offset == 128 && |call.data| == 64
    ensures PageIndex(call) == 2
  {
    QuotientIs(128, 64, 2);
  }

  lemma QuotientNoLarger(a: nat, b: nat)
    requires b > 0
    ensures 0 <= a / b <= a
  {
    var d := a / b;
    QuotientIs(a, b, d);
    ProductMonotone(1, b, d);
  }

  // ---------------------------------------------------------------- the page on the module

  /** Where the page of a message goes. */
  function TargetAddress(buf: PageMessage): nat {
    NEW_APP + 128 * DecodeIndex(buf)
  }

  function AfterFirmwareSet(m: seq<bv8>, buf: PageMessage): (r: seq<bv8>)
    ensures |r| == |m|
  {
    AfterWrite(m, TargetAddress(buf), buf[2..])
  }

  /** The module's handler of a firmware page. */
  method PropertyFirmwareSet(flash: FlashDevice, buf: PageMessage) returns (ok: bool)
    requires flash.Valid() && |buf| == 130 && TargetAddress(buf) + PAGE_SIZE <= flash.cells.Length
    modifies flash.cells
    ensures ok && flash.cells[..] == AfterFirmwareSet(old(flash.cells[..]), buf)
  {
    flash.Write(TargetAddress(buf), buf[2..]);
    ok := true;
  }

  // ---------------------------------------------------------------- the whole upload

  /** The message the module receives for a chunk. */
  function Message(call: Call): PageMessage
    requires |call.data| > 0
  {
    FirmwareUpdateToBin(PageIndex(call), call.data)
  }

  /** Every page delivered in order, each one or more times in a row. */
  ghost predicate InOrder(deliveries: seq<nat>, pages: nat) {
    && (pages == 0 <==> deliveries == [])
    && (deliveries != [] ==> deliveries[0] == 0 && deliveries[|deliveries| - 1] == pages - 1)
    && forall i :: 0 <= i < |deliveries| - 1 ==> deliveries[i] <= deliveries[i + 1] <= deliveries[i] + 1
  }

  lemma {:induction false} InOrderBounds(deliveries: seq<nat>, pages: nat, i: nat)
    requires InOrder(deliveries, pages) && i < |deliveries|
    ensures deliveries[i] < pages
    decreases |deliveries| - i
  {
    if i < |deliveries| - 1 {
      InOrderBounds(deliveries, pages, i + 1);
    }
  }

  /** The deliveries name chunks of a whole page. */
  ghost predicate Deliverable(calls: seq<Call>, deliveries: seq<nat>) {
    forall i :: 0 <= i < |deliveries| ==> deliveries[i] < |calls| && |calls[deliveries[i]].data| == PAGE_SIZE
  }

  /** Flash after the given chunks have been delivered, in the given order. */
  ghost function Deliver(m: seq<bv8>, calls: seq<Call>, deliveries: seq<nat>): (r: seq<bv8>)
    requires Deliverable(calls, deliveries)
    ensures |r| == |m|
  {
    if deliveries == [] then m
    else
      var n := |deliveries| - 1;
      assert Deliverable(calls, deliveries[..n]);
      AfterFirmwareSet(Deliver(m, calls, deliveries[..n]), Message(calls[deliveries[n]]))
  }

  lemma SinglePageWrite(m: seq<bv8>, address: nat, page: seq<bv8>)
    requires address % PAGE_SIZE == 0 && |page| == PAGE_SIZE
    ensures AfterWrite(m, address, page) == AfterPage(m, address, page)
  {
    hide AfterWrite, AfterPage;
    EmptyWrite(m, address);
    WriteExtends(m, address, [], page);
    assert [] + page == page;
  }

  /** Delivering a page again changes nothing: the sector is erased again or the same bits are cleared again. */
  lemma RepeatedPage(m: seq<bv8>, address: nat, page: seq<bv8>)
    ensures AfterPage(AfterPage(m, address, page), address, page) == AfterPage(m, address, page)
  {
    hide AfterPage;
    var once := AfterPage(m, address, page);
    var twice := AfterPage(once, address, page);
    forall j | 0 <= j < |m|
      ensures twice[j] == once[j]
    {
      AfterPageAt(m, address, page, j);
      AfterPageAt(once, address, page, j);
      AndTwice(m[j], if address <= j < address + |page| then page[j - address] else 0);
    }
  }

  lemma AndTwice(b: bv8, p: bv8)
    ensures b & p & p == b & p
  {
  }

  /** Page k on top of the pages before it, or on top of itself. */
  lemma PageDelivered(m: seq<bv8>, image: seq<bv8>, k: nat)
    requires 128 * (k + 1) <= |image|
    ensures var page := image[128 * k..128 * k + PAGE_SIZE];
      var upTo := AfterWrite(m, NEW_APP, image[..128 * (k + 1)]);
      && AfterWrite(AfterWrite(m, NEW_APP, image[..128 * k]), NEW_APP + 128 * k, page) == upTo
      && AfterWrite(upTo, NEW_APP + 128 * k, page) == upTo
  {
    hide AfterWrite, AfterPage;
    var page := image[128 * k..128 * k + PAGE_SIZE];
    var before := AfterWrite(m, NEW_APP, image[..128 * k]);
    var upTo := AfterWrite(m, NEW_APP, image[..128 * (k + 1)]);
    assert image[..128 * k] + page == image[..128 * (k + 1)];
    WriteExtends(m, NEW_APP, image[..128 * k], page);
    SinglePageWrite(before, NEW_APP + 128 * k, page);
    SinglePageWrite(upTo, NEW_APP + 128 * k, page);
    RepeatedPage(before, NEW_APP + 128 * k, page);
  }

  /** What the module does with the message of the k-th chunk. */
  lemma MessageWrites(m: seq<bv8>, image: seq<bv8>, calls: seq<Call>, k: nat)
    requires |image| % PAGE_SIZE == 0 && |image| <= 0x1_0000 * 128
    requires Cuts(image, PAGE_SIZE, calls, |image|) && k < |calls|
    ensures |calls[k].data| == PAGE_SIZE && 128 * k + PAGE_SIZE <= |image|
    ensures AfterFirmwareSet(m, Message(calls[k])) ==
      AfterWrite(m, NEW_APP + 128 * k, image[128 * k..128 * k + PAGE_SIZE])
  {
    hide AfterWrite, Cuts, FirmwareUpdateToBin, DecodeIndex;
    WholePages(image, calls, |image|, k);
    WholePagesIndex(image, calls, |image|, k);
    MessageRoundTrip(k, calls[k].data, Message(calls[k]));
  }

  /** Delivering pages in order, with any repetition, amounts to one write of everything up to the last page. */
  lemma {:induction false} DeliveriesAmountToOneWrite(m: seq<bv8>, image: seq<bv8>, calls: seq<Call>,
      deliveries: seq<nat>)
    requires |image| % PAGE_SIZE == 0 && |image| <= 0x1_0000 * 128
    requires Cuts(image, PAGE_SIZE, calls, |image|)
    requires deliveries != [] && InOrder(deliveries, deliveries[|deliveries| - 1] + 1)
    requires Deliverable(calls, deliveries)
    ensures 128 * (deliveries[|deliveries| - 1] + 1) <= |image|
    ensures Deliver(m, calls, deliveries)
         == AfterWrite(m, NEW_APP, image[..128 * (deliveries[|deliveries| - 1] + 1)])
  {
    hide AfterWrite, Cuts, Message, AfterFirmwareSet;
    var n := |deliveries| - 1;
    var k := deliveries[n];
    var before := Deliver(m, calls, deliveries[..n]);
    MessageWrites(before, image, calls, k);
    PageDelivered(m, image, k);
    if n == 0 {
      assert deliveries[..n] == [];
      EmptyWrite(m, NEW_APP);
      assert image[..0] == [];
    } else {
      assert deliveries[..n][n - 1] == deliveries[n - 1];
      DeliveriesAmountToOneWrite(m, image, calls, deliveries[..n]);
    }
  }

  /**
    An upload of whole pages that fits the slot: whatever flash held before, in whatever multiplicity the
    pages arrive, the new slot starts with the image and nothing outside the new slot has changed.
    */
  lemma UploadWritesImage(m: seq<bv8>, image: seq<bv8>, calls: seq<Call>, deliveries: seq<nat>)
    requires |m| == FLASH_SIZE && |image| % PAGE_SIZE == 0 && |image| <= APP_SIZE
    requires Cuts(image, PAGE_SIZE, calls, |image|)
    requires InOrder(deliveries, |calls|)
    ensures Deliverable(calls, deliveries)
    ensures New(Deliver(m, calls, deliveries))[..|image|] == image
    ensures forall j :: 0 <= j < FLASH_SIZE && !(NEW_APP <= j < NEW_APP + APP_SIZE)
              ==> Deliver(m, calls, deliveries)[j] == m[j]
  {
    hide AfterWrite, Cuts, Deliver;
    forall i | 0 <= i < |deliveries|
      ensures deliveries[i] < |calls| && |calls[deliveries[i]].data| == PAGE_SIZE
    {
      InOrderBounds(deliveries, |calls|, i);
      WholePages(image, calls, |image|, deliveries[i]);
    }
    if |calls| > 0 {
      WholePages(image, calls, |image|, 0);
      DeliveriesAmountToOneWrite(m, image, calls, deliveries);
      assert image[..|image|] == image;
      WholeWrite(m, image);
    } else {
      NothingToDeliver(m, image, calls);
    }
  }

  lemma WholeWrite(m: seq<bv8>, image: seq<bv8>)
    requires |m| == FLASH_SIZE && |image| <= APP_SIZE
    ensures New(AfterWrite(m, NEW_APP, image))[..|image|] == image
    ensures forall j :: 0 <= j < FLASH_SIZE && !(NEW_APP <= j < NEW_APP + APP_SIZE)
              ==> AfterWrite(m, NEW_APP, image)[j] == m[j]
  {
    hide AfterWrite;
    SectorWriteIsExact(m, NEW_APP, image);
    var r := AfterWrite(m, NEW_APP, image);
    SliceOfSlice(r, NEW_APP, APP_SIZE, 0, |image|);
    forall j | 0 <= j < FLASH_SIZE && !(NEW_APP <= j < NEW_APP + APP_SIZE)
      ensures r[j] == m[j]
    {
      WriteIsLocal(m, NEW_APP, image, j);
    }
  }

  lemma NothingToDeliver(m: seq<bv8>, image: seq<bv8>, calls: seq<Call>)
    requires calls == [] && Cuts(image, PAGE_SIZE, calls, |image|)
    ensures image == [] && Deliver(m, calls, []) == m
  {
  }

  /**
    From upload to running firmware: a valid image of the slot's size, uploaded to any module, is what
    the module runs after any number of power cuts during the following boots.
    */
  lemma UploadedImageIsRun(m: seq<bv8>, image: seq<bv8>, calls: seq<Call>, deliveries: seq<nat>,
                           run: seq<Machine>, n: nat)
    requires |m| == FLASH_SIZE && |image| == APP_SIZE && ValidSlot(image)
    requires Cuts(image, PAGE_SIZE, calls, |image|)
    requires InOrder(deliveries, |calls|)
    requires Deliverable(calls, deliveries)
    requires |run| > 0 && run[0] == Machine(Deliver(m, calls, deliveries), Reset)
    requires forall i :: 0 <= i < |run| - 1 ==> WellFormed(run[i]) && Next(run[i], run[i + 1])
    requires n < |run| && run[n].phase.Running?
    ensures |run[n].flash| == FLASH_SIZE && Main(run[n].flash) == image
  {
    hide ValidSlot;
    UploadWritesImage(m, image, calls, deliveries);
    var slot := New(run[0].flash);
    assert slot[..|image|] == slot;
    assert UpdateRun(image, run);
    UpdateSurvivesPowerCuts(image, run, n);
  }
}
