/**
  Program flash. Erasing works on whole sectors and sets every byte to 0xFF; programming works on
  whole pages and can only clear bits. Addresses are offsets from the start of flash.
  */
module Flash {

  const PAGE_SIZE: nat := 128
  const SECTOR_SIZE: nat := 4096
  const ERASED: bv8 := 0xFF

  lemma ByteFacts(b: bv8)
    ensures ERASED & b == b
    ensures b & ERASED == b
    ensures b & b == b
    ensures b & !b == 0
  {
  }

  // ---------------------------------------------------------------- the two primitive operations

  /** Flash after erasing the sector that starts at address. */
  function Erased(m: seq<bv8>, address: nat): (r: seq<bv8>)
    ensures |r| == |m|
  {
    seq(|m|, j requires 0 <= j < |m| => if address <= j < address + SECTOR_SIZE then ERASED else m[j])
  }

  /** Flash after programming the given bytes at address. */
  function Programmed(m: seq<bv8>, address: nat, page: seq<bv8>): (r: seq<bv8>)
    ensures |r| == |m|
  {
    seq(|m|, j requires 0 <= j < |m| =>
      if address <= j < address + |page| then m[j] & page[j - address] else m[j])
  }

  // ---------------------------------------------------------------- what a write leaves behind

  function SectorOf(j: nat): nat {
    j - j % SECTOR_SIZE
  }

  /** A write erases the sector of j exactly when it passes over that sector's first byte. */
  predicate Erases(address: nat, size: nat, j: nat) {
    address <= SectorOf(j) < address + size
  }

  /** The byte at j after writing data at address: old contents or 0xFF, with the data's zero bits cleared. */
  function ByteAfterWrite(m: seq<bv8>, address: nat, data: seq<bv8>, j: nat): bv8
    requires j < |m|
  {
    var base := if Erases(address, |data|, j) then ERASED else m[j];
    if address <= j < address + |data| then base & data[j - address] else base
  }

  function AfterWrite(m: seq<bv8>, address: nat, data: seq<bv8>): (r: seq<bv8>)
    ensures |r| == |m|
  {
    seq(|m|, j requires 0 <= j < |m| => ByteAfterWrite(m, address, data, j))
  }

  /** Flash once the sector that starts at address, if one does, has been erased. */
  function Prepared(m: seq<bv8>, address: nat): (r: seq<bv8>)
    ensures |r| == |m|
  {
    if address % SECTOR_SIZE == 0 then Erased(m, address) else m
  }

  /** One round of the write loop in primitive operations. */
  function AfterPage(m: seq<bv8>, address: nat, page: seq<bv8>): (r: seq<bv8>)
    ensures |r| == |m|
  {
    Programmed(Prepared(m, address), address, page)
  }

  /** Writing one more page after a page-aligned write is the same as one longer write. */
  lemma WriteExtends(m: seq<bv8>, address: nat, data: seq<bv8>, page: seq<bv8>)
    requires address % PAGE_SIZE == 0 && |data| % PAGE_SIZE == 0 && 0 < |page| <= PAGE_SIZE
    ensures AfterPage(AfterWrite(m, address, data), address + |data|, page) == AfterWrite(m, address, data + page)
  {
    hide AfterPage, ByteAfterWrite;
    var here := address + |data|;
    var r := AfterPage(AfterWrite(m, address, data), here, page);
    forall j | 0 <= j < |m|
      ensures r[j] == ByteAfterWrite(m, address, data + page, j)
    {
      WriteExtendsAt(m, address, data, page, j);
    }
  }

  lemma WriteExtendsAt(m: seq<bv8>, address: nat, data: seq<bv8>, page: seq<bv8>, j: nat)
    requires address % PAGE_SIZE == 0 && |data| % PAGE_SIZE == 0 && 0 < |page| <= PAGE_SIZE
    requires j < |m|
    ensures AfterPage(AfterWrite(m, address, data), address + |data|, page)[j]
         == ByteAfterWrite(m, address, data + page, j)
  {
    hide ByteAfterWrite, SectorOf;
    var here := address + |data|;
    SectorNotInsidePage(here, |page|, j);
    ByteBeforePage(m, address, data, page, j);
    var written := AfterWrite(m, address, data);
    AfterPageAt(written, here, page, j);
  }

  lemma AfterPageAt(m: seq<bv8>, here: nat, page: seq<bv8>, j: nat)
    requires j < |m|
    ensures AfterPage(m, here, page)[j] ==
      PageByte(here % SECTOR_SIZE == 0 && here <= j < here + SECTOR_SIZE, m[j], here, page, j)
  {
  }

  /** The byte at j once a page has been programmed at here, over an erased sector or over the byte before. */
  function PageByte(erased: bool, before: bv8, here: nat, page: seq<bv8>, j: nat): bv8 {
    var base := if erased then ERASED else before;
    if here <= j < here + |page| then base & page[j - here] else base
  }

  /** The longer write, byte by byte, in terms of the shorter one. */
  lemma ByteBeforePage(m: seq<bv8>, address: nat, data: seq<bv8>, page: seq<bv8>, j: nat)
    requires j < |m|
    ensures ByteAfterWrite(m, address, data + page, j) ==
      PageByte(address + |data| <= SectorOf(j) < address + |data| + |page|,
               ByteAfterWrite(m, address, data, j), address + |data|, page, j)
  {
  }

  /** A page holds a sector's first byte only at the page's own start. */
  lemma SectorNotInsidePage(here: nat, size: nat, j: nat)
    requires here % PAGE_SIZE == 0 && 0 < size <= PAGE_SIZE
    ensures here <= SectorOf(j) < here + size <==> here == SectorOf(j)
    ensures here == SectorOf(j) <==> here % SECTOR_SIZE == 0 && here <= j < here + SECTOR_SIZE
  {
    assert SectorOf(j) % PAGE_SIZE == 0;
  }

  // ---------------------------------------------------------------- the driver

  class FlashDevice {
    const cells: array<bv8>

    ghost predicate Valid()
      reads this
    {
      cells.Length % SECTOR_SIZE == 0
    }

    constructor (size: nat)
      requires size % SECTOR_SIZE == 0
      ensures Valid() && fresh(cells) && cells.Length == size
    {
      cells := new bv8[size];
    }

    method Read(address: nat, size: nat) returns (data: seq<bv8>)
      requires address + size <= cells.Length
      ensures data == cells[address..address + size]
    {
      data := cells[address..address + size];
    }

    method EraseSector(address: nat)
      requires Valid() && address % SECTOR_SIZE == 0 && address < cells.Length
      modifies cells
      ensures cells[..] == Erased(old(cells[..]), address)
    {
      forall j | address <= j < address + SECTOR_SIZE {
        cells[j] := ERASED;
      }
    }

    method ProgramPage(address: nat, page: seq<bv8>)
      requires address % PAGE_SIZE == 0 && |page| == PAGE_SIZE && address + PAGE_SIZE <= cells.Length
      modifies cells
      ensures cells[..] == Programmed(old(cells[..]), address, page)
    {
      forall j | address <= j < address + PAGE_SIZE {
        cells[j] := cells[j] & page[j - address];
      }
    }

    /** One round of the write loop: erase on reaching a sector, pad the chunk with 0xFF, program the page. */
    method WritePage(address: nat, chunk: seq<bv8>)
      requires Valid() && address % PAGE_SIZE == 0 && 0 < |chunk| <= PAGE_SIZE && address + |chunk| <= cells.Length
      modifies cells
      ensures cells[..] == AfterPage(old(cells[..]), address, chunk)
    {
      hide Programmed, Erased, Pad;
      PageFits(address, cells.Length);
      if address % SECTOR_SIZE == 0 {
        EraseSector(address);
      }
      PaddingIsNeutral(cells[..], address, chunk);
      ProgramPage(address, Pad(chunk));
    }

    /**
      The write loop. The caller must stay on a page boundary and inside the device; a size that is
      not a whole number of pages ends with one padded page.
      */
    method Write(address: nat, data: seq<bv8>)
      requires Valid() && address % PAGE_SIZE == 0 && address + |data| <= cells.Length
      modifies cells
      ensures cells[..] == AfterWrite(old(cells[..]), address, data)
    {
      hide Programmed, Erased, ByteAfterWrite, AfterWrite, AfterPage;
      ghost var m := cells[..];
      var flashAddr := address;
      var sizeRemaining := |data|;
      var src := 0;
      EmptyWrite(m, address);
      while sizeRemaining > 0
        invariant 0 <= src <= |data|
        invariant flashAddr == address + src && src + sizeRemaining == |data|
        invariant sizeRemaining > 0 ==> src % PAGE_SIZE == 0
        invariant cells[..] == AfterWrite(m, address, data[..src])
      {
        var writeSize := if sizeRemaining < PAGE_SIZE then sizeRemaining else PAGE_SIZE;
        PagesAdd(address, src);
        PagesAdd(src, PAGE_SIZE);
        WriteExtends(m, address, data[..src], data[src..src + writeSize]);
        assert data[..src] + data[src..src + writeSize] == data[..src + writeSize];
        WritePage(flashAddr, data[src..src + writeSize]);
        flashAddr := flashAddr + writeSize;
        sizeRemaining := sizeRemaining - writeSize;
        src := src + writeSize;
      }
      assert data[..src] == data;
    }
  }

  lemma PagesAdd(a: nat, b: nat)
    requires a % PAGE_SIZE == 0 && b % PAGE_SIZE == 0
    ensures (a + b) % PAGE_SIZE == 0
  {
    assert a % 128 == 0 && b % 128 == 0;
  }

  lemma EmptyWrite(m: seq<bv8>, address: nat)
    ensures AfterWrite(m, address, []) == m
  {
  }

  /** A chunk copied over a page of 0xFF. */
  function Pad(chunk: seq<bv8>): (page: seq<bv8>)
    requires |chunk| <= PAGE_SIZE
    ensures |page| == PAGE_SIZE
  {
    chunk + seq(PAGE_SIZE - |chunk|, _ => ERASED)
  }

  lemma PageFits(address: nat, size: nat)
    requires address % PAGE_SIZE == 0 && size % SECTOR_SIZE == 0 && address < size
    ensures address + PAGE_SIZE <= size
  {
    assert address % 128 == 0 && size % 4096 == 0;
    assert 128 * (address / 128) + 128 <= 4096 * (size / 4096);
  }

  lemma PaddingIsNeutral(m: seq<bv8>, address: nat, chunk: seq<bv8>)
    requires |chunk| <= PAGE_SIZE
    ensures Programmed(m, address, Pad(chunk)) == Programmed(m, address, chunk)
  {
    var a, b := Programmed(m, address, Pad(chunk)), Programmed(m, address, chunk);
    forall j | 0 <= j < |m|
      ensures a[j] == b[j]
    {
      ByteFacts(m[j]);
    }
  }

  // ---------------------------------------------------------------- consequences callers rely on

  /** Writing over whole sectors leaves exactly the data, whatever was there before. */
  lemma SectorWriteIsExact(m: seq<bv8>, address: nat, data: seq<bv8>)
    requires address % SECTOR_SIZE == 0 && address + |data| <= |m|
    ensures AfterWrite(m, address, data)[address..address + |data|] == data
  {
    var r := AfterWrite(m, address, data);
    forall j | 0 <= j < |data|
      ensures r[address + j] == data[j]
    {
      assert SectorOf(address + j) >= address;
      ByteFacts(data[j]);
    }
  }

  /** Nothing outside the sectors the write touches changes. */
  lemma WriteIsLocal(m: seq<bv8>, address: nat, data: seq<bv8>, j: nat)
    requires j < |m| && (j < address || SectorOf(j) >= address + |data|)
    ensures AfterWrite(m, address, data)[j] == m[j]
  {
  }
}
