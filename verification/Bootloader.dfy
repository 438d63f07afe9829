/**
  The bootloader: if the new slot holds a valid image, copy it over the main slot and spoil its
  checksum, then start the main slot if that is valid. The code is modelled twice: as the method that
  runs it, and as a machine whose steps are single sector erases and page programs, each of which a
  power cut can interrupt part way.
  */
module Bootloader {
  import opened Crc
  import opened Flash

  const FLASH_SIZE: nat := 0x1_0000
  const APP_SIZE: nat := 0x7000
  const MAIN_APP: nat := 0x1000
  const NEW_APP: nat := MAIN_APP + APP_SIZE
  const APP_PAGES: nat := APP_SIZE / PAGE_SIZE
  /** The page of the new slot that ends with the checksum word. */
  const LAST_PAGE: nat := NEW_APP + APP_SIZE - PAGE_SIZE

  function Main(f: seq<bv8>): (slot: seq<bv8>)
    requires |f| == FLASH_SIZE
    ensures |slot| == APP_SIZE
  {
    f[MAIN_APP..MAIN_APP + APP_SIZE]
  }

  function New(f: seq<bv8>): (slot: seq<bv8>)
    requires |f| == FLASH_SIZE
    ensures |slot| == APP_SIZE
  {
    f[NEW_APP..NEW_APP + APP_SIZE]
  }

  predicate ValidSlot(slot: seq<bv8>) {
    IsValid(Words(slot))
  }

  /** A page with its last word complemented. */
  function InvertedTail(page: seq<bv8>): (r: seq<bv8>)
    requires |page| == PAGE_SIZE
    ensures |r| == PAGE_SIZE
  {
    seq(PAGE_SIZE, i requires 0 <= i < PAGE_SIZE => if i < PAGE_SIZE - 4 then page[i] else !page[i])
  }

  function SpoilPage(f: seq<bv8>): (page: seq<bv8>)
    requires |f| == FLASH_SIZE
    ensures |page| == PAGE_SIZE
  {
    InvertedTail(f[LAST_PAGE..LAST_PAGE + PAGE_SIZE])
  }

  // ---------------------------------------------------------------- the code, run without interruption

  /** Flash when the bootloader has finished. */
  function BootResult(f: seq<bv8>): (r: seq<bv8>)
    requires |f| == FLASH_SIZE
    ensures |r| == FLASH_SIZE
  {
    if ValidSlot(New(f)) then
      var copied := AfterWrite(f, MAIN_APP, New(f));
      AfterWrite(copied, LAST_PAGE, SpoilPage(copied))
    else f
  }

  method Boot(unit: CrcUnit, flash: FlashDevice) returns (jump: bool)
    requires flash.Valid() && flash.cells.Length == FLASH_SIZE
    modifies unit, flash.cells
    ensures flash.cells[..] == BootResult(old(flash.cells[..]))
    ensures jump <==> ValidSlot(Main(flash.cells[..]))
  {
    hide Words, Checksum, AfterWrite, InvertedTail;
    var newApp := flash.Read(NEW_APP, APP_SIZE);
    var crc := CalculateCrc(unit, Words(newApp));
    if crc == 0 {
      flash.Write(MAIN_APP, newApp);
      var page := flash.Read(LAST_PAGE, PAGE_SIZE);
      flash.Write(LAST_PAGE, InvertedTail(page));
    }
    var mainApp := flash.Read(MAIN_APP, APP_SIZE);
    crc := CalculateCrc(unit, Words(mainApp));
    jump := crc == 0;
  }

  // ---------------------------------------------------------------- the code, step by step

  datatype Phase =
    | Reset                     // about to check the new slot
    | Copying(page: nat)        // about to handle this page of the main slot
    | Programming(page: nat)    // its sector is ready, about to program it
    | Spoiling                  // about to program the inverted checksum
    | Verifying                 // about to check the main slot
    | Running                   // jumped to the main slot
    | Halted                    // the endless loop at the end

  datatype Machine = Machine(flash: seq<bv8>, phase: Phase)

  /** Distance of a page from the start of its slot. */
  function PageOffset(page: nat): (offset: nat)
    ensures offset == 128 * page
  {
    PAGE_SIZE * page
  }

  function PageAddress(page: nat): nat {
    MAIN_APP + PageOffset(page)
  }

  function NewPage(f: seq<bv8>, page: nat): (r: seq<bv8>)
    requires |f| == FLASH_SIZE && page < APP_PAGES
    ensures |r| == PAGE_SIZE
  {
    f[NEW_APP + PageOffset(page)..NEW_APP + PageOffset(page) + PAGE_SIZE]
  }

  ghost predicate WellFormed(s: Machine) {
    && |s.flash| == FLASH_SIZE
    && (s.phase.Copying? ==> s.phase.page <= APP_PAGES)
    && (s.phase.Programming? ==> s.phase.page < APP_PAGES)
  }

  predicate Terminal(s: Machine) {
    s.phase.Running? || s.phase.Halted?
  }

  /** One complete step. */
  function Step(s: Machine): (s': Machine)
    requires WellFormed(s) && !Terminal(s)
    ensures WellFormed(s')
  {
    match s.phase
    case Reset => s.(phase := if ValidSlot(New(s.flash)) then Copying(0) else Verifying)
    case Copying(k) =>
      if k == APP_PAGES then s.(phase := Spoiling)
      else Machine(Prepared(s.flash, PageAddress(k)), Programming(k))
    case Programming(k) => Machine(Programmed(s.flash, PageAddress(k), NewPage(s.flash, k)), Copying(k + 1))
    case Spoiling => Machine(Programmed(s.flash, LAST_PAGE, SpoilPage(s.flash)), Verifying)
    case Verifying => s.(phase := if ValidSlot(Main(s.flash)) then Running else Halted)
  }

  /** An interrupted sector erase leaves anything at all in that sector, and the rest alone. */
  ghost predicate TornErase(f: seq<bv8>, f': seq<bv8>, address: nat) {
    && |f'| == |f|
    && forall j :: 0 <= j < |f| && !(address <= j < address + SECTOR_SIZE) ==> f'[j] == f[j]
  }

  /** An interrupted page program has cleared some of the bits it would clear, and no others. */
  ghost predicate TornProgram(f: seq<bv8>, f': seq<bv8>, address: nat, page: seq<bv8>) {
    && |f'| == |f|
    && (forall j :: 0 <= j < |f| && !(address <= j < address + |page|) ==> f'[j] == f[j])
    && (forall j :: 0 <= j < |f| && address <= j < address + |page| ==> TornByte(f[j], page[j - address], f'[j]))
  }

  predicate TornByte(before: bv8, target: bv8, after: bv8) {
    && after & before == after
    && (before & target) & after == before & target
  }

  /** Power is lost in any phase; an operation in progress may have been torn. */
  ghost predicate PowerCut(s: Machine, s': Machine)
    requires WellFormed(s)
  {
    && |s'.flash| == FLASH_SIZE
    && s'.phase == Reset
    && match s.phase
       case Copying(k) =>
         if k < APP_PAGES && PageAddress(k) % SECTOR_SIZE == 0
         then TornErase(s.flash, s'.flash, PageAddress(k)) else s'.flash == s.flash
       case Programming(k) => TornProgram(s.flash, s'.flash, PageAddress(k), NewPage(s.flash, k))
       case Spoiling => TornProgram(s.flash, s'.flash, LAST_PAGE, SpoilPage(s.flash))
       case _ => s'.flash == s.flash
  }

  /** What a program that was cut off may leave of a byte: no bit is set, and no bit that is to stay is cleared. */
  predicate PartlyProgrammed(before: bv8, target: bv8, after: bv8) {
    after & !before == 0 && before & target & !after == 0
  }

  lemma TornByteIs(before: bv8, target: bv8, after: bv8)
    ensures TornByte(before, target, after) <==> PartlyProgrammed(before, target, after)
    ensures PartlyProgrammed(before, target, before) && PartlyProgrammed(before, target, before & target)
  {
  }

  /**
    The bootloader goes on while it can, and power can go at every moment: before an operation, after all of it,
    with the sector in any state while it is being erased, and with any part of the bits cleared while a page is
    being programmed.
    */
  lemma PowerCutsHappen(s: Machine, f: seq<bv8>)
    requires WellFormed(s) && |f| == FLASH_SIZE
    ensures !Terminal(s) ==> Next(s, Step(s))
    ensures Next(s, Machine(s.flash, Reset))
    ensures s.phase.Copying? && s.phase.page < APP_PAGES && PageAddress(s.phase.page) % SECTOR_SIZE == 0
      && (forall j :: 0 <= j < FLASH_SIZE && !(PageAddress(s.phase.page) <= j < PageAddress(s.phase.page) + SECTOR_SIZE)
            ==> f[j] == s.flash[j])
      ==> Next(s, Machine(f, Reset))
    ensures s.phase.Programming? && PartOf(s.flash, f, PageAddress(s.phase.page), NewPage(s.flash, s.phase.page))
      ==> Next(s, Machine(f, Reset))
    ensures s.phase.Spoiling? && PartOf(s.flash, f, LAST_PAGE, SpoilPage(s.flash)) ==> Next(s, Machine(f, Reset))
  {
    hide TornByte, PartlyProgrammed;
    forall before: bv8, target: bv8, after: bv8
      ensures TornByte(before, target, after) <==> PartlyProgrammed(before, target, after)
      ensures PartlyProgrammed(before, target, before)
    {
      TornByteIs(before, target, after);
    }
  }

  ghost predicate PartOf(before: seq<bv8>, after: seq<bv8>, address: nat, page: seq<bv8>)
    requires |before| == |after|
  {
    forall j :: 0 <= j < |before| ==>
      if address <= j < address + |page| then PartlyProgrammed(before[j], page[j - address], after[j])
      else after[j] == before[j]
  }

  ghost predicate Next(s: Machine, s': Machine)
    requires WellFormed(s)
  {
    (!Terminal(s) && s' == Step(s)) || PowerCut(s, s')
  }

  // ---------------------------------------------------------------- the invariant

  /** The first bytes of the image have been written over the main slot of some flash whose new slot is the image. */
  ghost predicate CopiedFrom(f0: seq<bv8>, f: seq<bv8>, image: seq<bv8>, pages: nat) {
    && |f0| == |f| == FLASH_SIZE && |image| == APP_SIZE && pages <= APP_PAGES
    && New(f0) == image
    && f == AfterWrite(f0, MAIN_APP, image[..PageOffset(pages)])
  }

  /** The same, with the sector of the next page ready for it. */
  ghost predicate PreparedFrom(f0: seq<bv8>, f: seq<bv8>, image: seq<bv8>, pages: nat) {
    && |f0| == |f| == FLASH_SIZE && |image| == APP_SIZE && pages < APP_PAGES
    && New(f0) == image
    && f == Prepared(AfterWrite(f0, MAIN_APP, image[..PageOffset(pages)]), PageAddress(pages))
  }

  ghost predicate Inv(image: seq<bv8>, s: Machine) {
    && WellFormed(s)
    && |image| == APP_SIZE && ValidSlot(image)
    && (ValidSlot(New(s.flash)) ==> New(s.flash) == image)
    && match s.phase
       case Reset => New(s.flash) == image || Main(s.flash) == image
       case Copying(k) => exists f0 :: CopiedFrom(f0, s.flash, image, k)
       case Programming(k) => exists f0 :: PreparedFrom(f0, s.flash, image, k)
       case Spoiling => New(s.flash) == image && Main(s.flash) == image
       case Verifying => Main(s.flash) == image
       case Running => Main(s.flash) == image
       case Halted => false
  }

  /** Writing any part of the image over the main slot leaves the new slot alone. */
  lemma CopyKeepsNew(f0: seq<bv8>, f: seq<bv8>, image: seq<bv8>, pages: nat)
    requires CopiedFrom(f0, f, image, pages)
    ensures New(f) == image
  {
    forall j | NEW_APP <= j < NEW_APP + APP_SIZE
      ensures f[j] == f0[j]
    {
      WriteIsLocal(f0, MAIN_APP, image[..PageOffset(pages)], j);
    }
    assert New(f) == New(f0);
  }

  lemma PrepareKeepsNew(f: seq<bv8>, f': seq<bv8>, page: nat)
    requires |f| == FLASH_SIZE && page < APP_PAGES
    requires TornErase(f, f', PageAddress(page)) && PageAddress(page) % SECTOR_SIZE == 0
    ensures New(f') == New(f)
  {
  }

  lemma PrepareStep(f0: seq<bv8>, f: seq<bv8>, image: seq<bv8>, k: nat)
    requires CopiedFrom(f0, f, image, k) && k < APP_PAGES
    ensures PreparedFrom(f0, Prepared(f, PageAddress(k)), image, k)
    ensures New(Prepared(f, PageAddress(k))) == image
  {
    CopyKeepsNew(f0, f, image, k);
    if PageAddress(k) % SECTOR_SIZE == 0 {
      assert TornErase(f, Erased(f, PageAddress(k)), PageAddress(k));
      PrepareKeepsNew(f, Erased(f, PageAddress(k)), k);
    }
  }

  lemma PreparedKeepsNew(f0: seq<bv8>, f: seq<bv8>, image: seq<bv8>, k: nat)
    requires PreparedFrom(f0, f, image, k)
    ensures New(f) == image
  {
    PrepareStep(f0, AfterWrite(f0, MAIN_APP, image[..PageOffset(k)]), image, k);
  }

  lemma SliceOfSlice<T>(s: seq<T>, start: nat, size: nat, at: nat, n: nat)
    requires at + n <= size && start + size <= |s|
    ensures s[start..start + size][at..at + n] == s[start + at..start + at + n]
  {
    var left, right := s[start..start + size][at..at + n], s[start + at..start + at + n];
    forall i | 0 <= i < n
      ensures left[i] == right[i]
    {
    }
  }

  lemma ProgramStep(f0: seq<bv8>, f: seq<bv8>, image: seq<bv8>, k: nat)
    requires PreparedFrom(f0, f, image, k)
    ensures CopiedFrom(f0, Programmed(f, PageAddress(k), NewPage(f, k)), image, k + 1)
  {
    hide Programmed, Erased, ByteAfterWrite, AfterWrite, Prepared;
    PreparedKeepsNew(f0, f, image, k);
    var done := image[..PageOffset(k)];
    SliceOfSlice(f, NEW_APP, APP_SIZE, PageOffset(k), PAGE_SIZE);
    assert NewPage(f, k) == image[PageOffset(k)..PageOffset(k) + PAGE_SIZE];
    assert done + NewPage(f, k) == image[..PageOffset(k + 1)];
    WriteExtends(f0, MAIN_APP, done, NewPage(f, k));
    assert MAIN_APP + |done| == PageAddress(k);
  }

  lemma CopyComplete(f0: seq<bv8>, f: seq<bv8>, image: seq<bv8>)
    requires CopiedFrom(f0, f, image, APP_PAGES)
    ensures Main(f) == image && New(f) == image
  {
    CopyKeepsNew(f0, f, image, APP_PAGES);
    assert image[..PageOffset(APP_PAGES)] == image;
    SectorWriteIsExact(f0, MAIN_APP, image);
  }

  /** Of all slots that agree with a valid image up to the checksum word, only the image itself is valid. */
  lemma OnlyTheImageIsValid(image: seq<bv8>, slot: seq<bv8>)
    requires |image| == |slot| == APP_SIZE && ValidSlot(image)
    requires slot[..APP_SIZE - 4] == image[..APP_SIZE - 4]
    ensures ValidSlot(slot) ==> slot == image
  {
    hide Words, WordAt, Checksum;
    WordsSplit(image);
    WordsSplit(slot);
    var prefix := Words(image[..APP_SIZE - 4]);
    UniqueValidChecksumWord(prefix, WordAt(image, APP_SIZE / 4 - 1));
    UniqueValidChecksumWord(prefix, WordAt(slot, APP_SIZE / 4 - 1));
    if ValidSlot(slot) {
      WordsInjective(image, slot);
    }
  }

  /** However the spoiling write is torn, only the checksum word can change. */
  lemma SpoilIsHarmless(image: seq<bv8>, f: seq<bv8>, f': seq<bv8>)
    requires |f| == FLASH_SIZE && New(f) == image && ValidSlot(image)
    requires TornProgram(f, f', LAST_PAGE, SpoilPage(f))
    ensures Main(f') == Main(f)
    ensures New(f')[..APP_SIZE - 4] == image[..APP_SIZE - 4]
    ensures ValidSlot(New(f')) ==> New(f') == image
  {
    hide IsValid, Words;
    forall j | NEW_APP <= j < NEW_APP + APP_SIZE - 4
      ensures f'[j] == f[j]
    {
      if LAST_PAGE <= j {
        ByteFacts(f[j]);
      }
    }
    assert New(f')[..APP_SIZE - 4] == image[..APP_SIZE - 4];
    OnlyTheImageIsValid(image, New(f'));
  }

  lemma ProgrammedIsTorn(f: seq<bv8>, address: nat, page: seq<bv8>)
    ensures TornProgram(f, Programmed(f, address, page), address, page)
  {
    forall j | 0 <= j < |f| && address <= j < address + |page|
      ensures TornByte(f[j], page[j - address], Programmed(f, address, page)[j])
    {
      assert TornByte(f[j], page[j - address], f[j] & page[j - address]);
    }
  }

  // ---------------------------------------------------------------- safety over every run

  /** A run that starts at reset with a valid image in the new slot, whatever the main slot holds. */
  ghost predicate UpdateRun(image: seq<bv8>, run: seq<Machine>) {
    && |run| > 0
    && |image| == APP_SIZE && ValidSlot(image)
    && |run[0].flash| == FLASH_SIZE && run[0].phase == Reset && New(run[0].flash) == image
    && forall i :: 0 <= i < |run| - 1 ==> WellFormed(run[i]) && Next(run[i], run[i + 1])
  }

  lemma {:induction false} RunKeepsInv(image: seq<bv8>, run: seq<Machine>, n: nat)
    requires UpdateRun(image, run) && n < |run|
    ensures Inv(image, run[n])
  {
    if n > 0 {
      RunKeepsInv(image, run, n - 1);
      var s, s' := run[n - 1], run[n];
      assert Next(s, s');
      if !Terminal(s) && s' == Step(s) {
        StepKeepsInv(image, s);
      } else {
        PowerCutKeepsInv(image, s, s');
      }
    }
  }

  /**
    Power cuts cannot break an update: at every point of every run one of the slots holds the whole
    image, the application is only ever started from a main slot equal to it, and the bootloader never
    gives up.
    */
  lemma UpdateSurvivesPowerCuts(image: seq<bv8>, run: seq<Machine>, n: nat)
    requires UpdateRun(image, run) && n < |run|
    ensures |run[n].flash| == FLASH_SIZE
    ensures Main(run[n].flash) == image || New(run[n].flash) == image
    ensures ValidSlot(New(run[n].flash)) ==> New(run[n].flash) == image
    ensures run[n].phase.Running? ==> Main(run[n].flash) == image
    ensures !run[n].phase.Halted?
  {
    RunKeepsInv(image, run, n);
    var s := run[n];
    match s.phase
    case Copying(k) =>
      var f0 :| CopiedFrom(f0, s.flash, image, k);
      CopyKeepsNew(f0, s.flash, image, k);
    case Programming(k) =>
      var f0 :| PreparedFrom(f0, s.flash, image, k);
      PreparedKeepsNew(f0, s.flash, image, k);
    case _ =>
  }

  // ---------------------------------------------------------------- every step and every power cut keeps the invariant

  lemma TornCopyKeepsNew(f: seq<bv8>, f': seq<bv8>, k: nat)
    requires |f| == FLASH_SIZE && k < APP_PAGES
    requires TornProgram(f, f', PageAddress(k), NewPage(f, k))
    ensures New(f') == New(f)
  {
  }

  lemma StepKeepsInv(image: seq<bv8>, s: Machine)
    requires Inv(image, s) && !Terminal(s)
    ensures Inv(image, Step(s))
  {
    hide Programmed, Erased, AfterWrite, Prepared, IsValid, Words, InvertedTail;
    match s.phase
    case Reset =>
      if ValidSlot(New(s.flash)) {
        EmptyWrite(s.flash, MAIN_APP);
        assert CopiedFrom(s.flash, s.flash, image, 0);
      }
    case Copying(k) =>
      var f0 :| CopiedFrom(f0, s.flash, image, k);
      if k == APP_PAGES {
        CopyComplete(f0, s.flash, image);
      } else {
        PrepareStep(f0, s.flash, image, k);
      }
    case Programming(k) =>
      var f0 :| PreparedFrom(f0, s.flash, image, k);
      ProgramStep(f0, s.flash, image, k);
      CopyKeepsNew(f0, Step(s).flash, image, k + 1);
    case Spoiling =>
      ProgrammedIsTorn(s.flash, LAST_PAGE, SpoilPage(s.flash));
      SpoilIsHarmless(image, s.flash, Step(s).flash);
    case Verifying =>
  }

  lemma PowerCutKeepsInv(image: seq<bv8>, s: Machine, s': Machine)
    requires Inv(image, s) && PowerCut(s, s')
    ensures Inv(image, s')
  {
    match s.phase
    case Copying(k) =>
      var f0 :| CopiedFrom(f0, s.flash, image, k);
      CopyKeepsNew(f0, s.flash, image, k);
      if k < APP_PAGES && PageAddress(k) % SECTOR_SIZE == 0 {
        PrepareKeepsNew(s.flash, s'.flash, k);
      }
    case Programming(k) =>
      var f0 :| PreparedFrom(f0, s.flash, image, k);
      PreparedKeepsNew(f0, s.flash, image, k);
      TornCopyKeepsNew(s.flash, s'.flash, k);
    case Spoiling => SpoilIsHarmless(image, s.flash, s'.flash);
    case _ =>
  }

  // ---------------------------------------------------------------- progress without power cuts

  function StepsLeft(s: Machine): nat
    requires WellFormed(s)
  {
    match s.phase
    case Reset => 2 * APP_PAGES + 4
    case Copying(k) => 2 * (APP_PAGES - k) + 3
    case Programming(k) => 2 * (APP_PAGES - k) + 2
    case Spoiling => 2
    case Verifying => 1
    case Running => 0
    case Halted => 0
  }

  /** Where the bootloader ends when power stays on. */
  function RunToEnd(s: Machine): (e: Machine)
    requires WellFormed(s)
    ensures WellFormed(e) && Terminal(e)
    decreases StepsLeft(s)
  {
    if Terminal(s) then s else RunToEnd(Step(s))
  }

  /** Whenever power stays on, the update is completed: the application that starts is the image. */
  lemma {:induction false} CompletesWithPower(image: seq<bv8>, s: Machine)
    requires Inv(image, s)
    ensures RunToEnd(s).phase == Running && Main(RunToEnd(s).flash) == image
    decreases StepsLeft(s)
  {
    hide Programmed, Erased, AfterWrite, Prepared, IsValid, Words, InvertedTail, CopiedFrom, PreparedFrom;
    if !Terminal(s) {
      StepKeepsInv(image, s);
      CompletesWithPower(image, Step(s));
    }
  }

  /** The machine and the method agree: uninterrupted steps from reset end where the code does. */
  lemma StepsImplementBoot(f: seq<bv8>)
    requires |f| == FLASH_SIZE
    ensures RunToEnd(Machine(f, Reset)).flash == BootResult(f)
    ensures RunToEnd(Machine(f, Reset)).phase.Running? <==> ValidSlot(Main(BootResult(f)))
  {
    if ValidSlot(New(f)) {
      EmptyWrite(f, MAIN_APP);
      assert CopiedFrom(f, f, New(f), 0);
      CopyingRunsToEnd(f, f, 0);
      assert RunToEnd(Machine(f, Reset)) == RunToEnd(Machine(f, Copying(0)));
    } else {
      VerifyingRunsToEnd(f);
      assert RunToEnd(Machine(f, Reset)) == RunToEnd(Machine(f, Verifying));
    }
  }

  lemma VerifyingRunsToEnd(f: seq<bv8>)
    requires |f| == FLASH_SIZE
    ensures RunToEnd(Machine(f, Verifying)) == Machine(f, if ValidSlot(Main(f)) then Running else Halted)
  {
  }

  lemma {:induction false} CopyingRunsToEnd(f0: seq<bv8>, f: seq<bv8>, k: nat)
    requires |f0| == FLASH_SIZE && ValidSlot(New(f0)) && CopiedFrom(f0, f, New(f0), k)
    ensures var e := RunToEnd(Machine(f, Copying(k)));
      && e.flash == BootResult(f0)
      && (e.phase.Running? <==> ValidSlot(Main(BootResult(f0))))
    decreases APP_PAGES - k
  {
    hide Programmed, Erased, AfterWrite, Prepared, IsValid, Words, InvertedTail;
    var image := New(f0);
    var s := Machine(f, Copying(k));
    if k == APP_PAGES {
      assert image[..PageOffset(k)] == image;
      var spoiled := Step(Step(s)).flash;
      OnePageWrite(f, LAST_PAGE, SpoilPage(f));
      assert spoiled == BootResult(f0);
      VerifyingRunsToEnd(spoiled);
      assert RunToEnd(s) == RunToEnd(Step(Step(s)));
    } else {
      PrepareStep(f0, f, image, k);
      ProgramStep(f0, Step(s).flash, image, k);
      CopyingRunsToEnd(f0, Step(Step(s)).flash, k + 1);
      assert RunToEnd(s) == RunToEnd(Step(Step(s)));
    }
  }

  lemma OnePageWrite(f: seq<bv8>, address: nat, page: seq<bv8>)
    requires address % PAGE_SIZE == 0 && |page| == PAGE_SIZE && address % SECTOR_SIZE != 0
    ensures AfterWrite(f, address, page) == Programmed(f, address, page)
  {
    hide Programmed, Erased, AfterWrite;
    EmptyWrite(f, address);
    WriteExtends(f, address, [], page);
    assert [] + page == page;
  }

  // ---------------------------------------------------------------- what a finished update leaves behind

  /**
    After an uninterrupted update the main slot is the image. The new slot is meant to be spoiled, and it
    is exactly when the image's checksum word is not zero: programming cannot turn a zero word into ones.
    */
  lemma FinishedUpdate(f: seq<bv8>)
    requires |f| == FLASH_SIZE && ValidSlot(New(f))
    ensures Main(BootResult(f)) == New(f)
    ensures ValidSlot(New(BootResult(f))) <==> WordAt(New(f), APP_SIZE / 4 - 1) == 0
  {
    hide AfterWrite, Programmed, Words, IsValid, InvertedTail;
    var image := New(f);
    var copied := AfterWrite(f, MAIN_APP, image);
    assert image[..PageOffset(APP_PAGES)] == image;
    assert CopiedFrom(f, copied, image, APP_PAGES);
    CopyComplete(f, copied, image);
    OnePageWrite(copied, LAST_PAGE, SpoilPage(copied));
    SpoilEffect(image, copied);
  }

  /** Slots that the update does not spoil: any body, completed so that the checksum word comes out as 0. */
  function ZeroChecksumSlot(body: seq<bv8>): (slot: seq<bv8>)
    requires |body| == APP_SIZE - 8
    ensures |slot| == APP_SIZE
  {
    body + StoreWord(Checksum(Words(body))) + [0, 0, 0, 0]
  }

  lemma ZeroChecksumSlotWords(body: seq<bv8>)
    requires |body| == APP_SIZE - 8
    ensures Words(ZeroChecksumSlot(body)) == Words(body) + [Checksum(Words(body))] + [0]
    ensures WordAt(ZeroChecksumSlot(body), APP_SIZE / 4 - 1) == 0
  {
    hide Checksum, StoreWord, LoadWord, Words;
    var slot := ZeroChecksumSlot(body);
    var most := slot[..APP_SIZE - 4];
    var c := Checksum(Words(body));
    WordsSplit(slot);
    WordsSplit(most);
    assert most[..APP_SIZE - 8] == body;
    assert most[APP_SIZE - 8..] == StoreWord(c);
    LoadWordZero(0, 0, 0, 0);
  }

  /** Programming the inverse over a checksum word of 0 changes nothing: the new slot stays as it is. */
  lemma ZeroChecksumUnspoiled(f: seq<bv8>)
    requires |f| == FLASH_SIZE && ValidSlot(New(f)) && WordAt(New(f), APP_SIZE / 4 - 1) == 0
    ensures New(BootResult(f)) == New(f)
  {
    hide AfterWrite, Programmed, Words, IsValid, InvertedTail, LoadWord;
    var image := New(f);
    var copied := AfterWrite(f, MAIN_APP, image);
    assert image[..PageOffset(APP_PAGES)] == image;
    assert CopiedFrom(f, copied, image, APP_PAGES);
    CopyComplete(f, copied, image);
    OnePageWrite(copied, LAST_PAGE, SpoilPage(copied));
    var spoiled := Programmed(copied, LAST_PAGE, SpoilPage(copied));
    ProgrammedIsTorn(copied, LAST_PAGE, SpoilPage(copied));
    SpoilIsHarmless(image, copied, spoiled);
    FinishedUpdate(f);
    assert BootResult(f) == spoiled;
  }

  /** The flash after so many boots, each with power to its end. */
  function Boots(f: seq<bv8>, n: nat): (r: seq<bv8>)
    requires |f| == FLASH_SIZE
    ensures |r| == FLASH_SIZE
  {
    if n == 0 then f else BootResult(Boots(f, n - 1))
  }

  /** Each of them is valid and stays what it is, so it is copied again at every boot. */
  lemma {:induction false} ZeroChecksumStaysValid(f: seq<bv8>, body: seq<bv8>, n: nat)
    requires |f| == FLASH_SIZE && |body| == APP_SIZE - 8 && New(f) == ZeroChecksumSlot(body)
    ensures New(Boots(f, n)) == New(f) && ValidSlot(New(Boots(f, n)))
    ensures n > 0 ==> Main(Boots(f, n)) == New(f)
  {
    hide BootResult, Words, Checksum, IsValid, ZeroChecksumSlot, WordAt;
    if n == 0 {
      ZeroChecksumSlotWords(body);
      ValidWithZeroChecksum(Words(body));
    } else {
      ZeroChecksumStaysValid(f, body, n - 1);
      ZeroChecksumSlotWords(body);
      FinishedUpdate(Boots(f, n - 1));
      ZeroChecksumUnspoiled(Boots(f, n - 1));
    }
  }

  lemma SpoilEffect(image: seq<bv8>, f: seq<bv8>)
    requires |f| == FLASH_SIZE && New(f) == image && ValidSlot(image)
    ensures var spoiled := Programmed(f, LAST_PAGE, SpoilPage(f));
      && Main(spoiled) == Main(f)
      && (ValidSlot(New(spoiled)) <==> WordAt(image, APP_SIZE / 4 - 1) == 0)
  {
    hide Words, Checksum, Programmed, InvertedTail, LoadWord;
    var spoiled := Programmed(f, LAST_PAGE, SpoilPage(f));
    ProgrammedIsTorn(f, LAST_PAGE, SpoilPage(f));
    SpoilIsHarmless(image, f, spoiled);
    SpoiledTail(image, f);
    var w := WordAt(image, APP_SIZE / 4 - 1);
    WordsSplit(image);
    WordsSplit(New(spoiled));
    InvertedChecksumInvalidates(Words(image[..APP_SIZE - 4]), w);
    ComplementFacts(w);
    LoadWordZero(0, 0, 0, 0);
  }

  lemma SpoiledTail(image: seq<bv8>, f: seq<bv8>)
    requires |f| == FLASH_SIZE && New(f) == image
    ensures forall i :: APP_SIZE - 4 <= i < APP_SIZE ==> New(Programmed(f, LAST_PAGE, SpoilPage(f)))[i] == 0
  {
    forall i | APP_SIZE - 4 <= i < APP_SIZE
      ensures New(Programmed(f, LAST_PAGE, SpoilPage(f)))[i] == 0
    {
      ByteFacts(f[NEW_APP + i]);
    }
  }

  // ---------------------------------------------------------------- the rest of the flash

  /** Of the 64 KB the first 4 are the bootloader, the last 4 the configuration, and the slots fill the rest. */
  lemma MemoryMap()
    ensures MAIN_APP == 0x1000 && NEW_APP == 0x8000 && NEW_APP + APP_SIZE == 0xF000 && FLASH_SIZE == 0x1_0000
    ensures LAST_PAGE + PAGE_SIZE == 0xF000 && PAGE_SIZE == 128 && SECTOR_SIZE == 4096
  {
  }

  /** A byte outside the two slots. */
  predicate Elsewhere(j: nat) {
    j < 0x1000 || 0xF000 <= j < 0x1_0000
  }

  /** No step and no power cut touches the bootloader or the configuration. */
  lemma NextLeavesRest(s: Machine, s': Machine, j: nat)
    requires WellFormed(s) && WellFormed(s') && Next(s, s') && Elsewhere(j)
    ensures j < |s.flash| && j < |s'.flash| && s'.flash[j] == s.flash[j]
  {
    hide IsValid, Words;
  }

  lemma {:induction false} UpdateLeavesRest(image: seq<bv8>, run: seq<Machine>, n: nat, j: nat)
    requires UpdateRun(image, run) && n < |run| && Elsewhere(j)
    ensures |run[n].flash| == FLASH_SIZE && run[n].flash[j] == run[0].flash[j]
    decreases n
  {
    hide Next;
    if n > 0 {
      UpdateLeavesRest(image, run, n - 1, j);
      RunKeepsInv(image, run, n);
      NextLeavesRest(run[n - 1], run[n], j);
    }
  }
}
