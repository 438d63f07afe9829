/**
  What a module receives of a firmware upload, and when that is all of it. The upload is answered with
  success whether or not the pages arrived.
  */
module Upload {
  import opened Values
  import opened Properties
  import opened Display
  import opened Handshake
  import Bootloader
  import Flash
  import Ota

  /**
    The watched module is there all the time, the pages are numbered, and the firmware page, which no
    request can read, is not to be read.
    */
  ghost predicate Regular(u: Setting, w0: World) {
    && AtChunk(u, w0) && FIRMWARE_UPDATE !in w0.display.toRead && u.watched < |w0.display.modules|
    && (forall k :: 0 <= k < |u.pages| ==> u.pages[k].index == k)
    && forall n: nat, id: PropId :: u.watched < u.passes(n).effects(id).count
  }

  function PageWire(u: Setting, k: nat): Wire
    requires k < |u.pages| && u.pages[k].index < 0x1_0000
  {
    Paged(FirmwareUpdateToBin(u.pages[k].index, u.pages[k].data))
  }

  // ---------------------------------------------------------------- the condition

  /** Since the start, a reading of the firmware version that somebody asked for has failed in every pass. */
  predicate Stopped(u: Setting, w0: World, k: nat)
    requires w0.server.Receiving? && w0.server.k <= k
  {
    Flagged(w0.display, FIRMWARE_VERSION) && forall j :: w0.server.k <= j <= k ==>
        Fails(OwnPass(u, w0, j).link, FIRMWARE_VERSION)
  }

  /** The pass for chunk k comes to the firmware page, and one of its attempts reaches the module. */
  predicate Through(u: Setting, w0: World, k: nat)
    requires w0.server.Receiving? && w0.server.k <= k
  {
    !Stopped(u, w0, k) && Copies(OwnPass(u, w0, k), FIRMWARE_UPDATE) > 0
  }

  /** The last page has a second chance: in the pass for the reboot. */
  predicate AllThrough(u: Setting, w0: World)
    requires w0.server.Receiving? && w0.server.k < |u.pages|
  {
    var last := |u.pages| - 1;
    && (forall k :: w0.server.k <= k < last ==> Through(u, w0, k))
    && (Through(u, w0, last) || Through(u, w0, last + 1))
  }

  // ---------------------------------------------------------------- what a pass does

  /** A pass stops before the second property exactly if the first is flagged and fails three times, and so on. */
  lemma FirstOfTwo(s: State, link: Link)
    ensures FirstFailure(s, link, 0) == 0 <==> Flagged(s, FIRMWARE_VERSION) && Fails(link, FIRMWARE_VERSION)
    ensures FirstFailure(s, link, 0) > FIRMWARE_UPDATE <==>
      && !(Flagged(s, FIRMWARE_VERSION) && Fails(link, FIRMWARE_VERSION))
      && !(Flagged(s, FIRMWARE_UPDATE) && Fails(link, FIRMWARE_UPDATE))
  {
    hide Fails, Flagged;
    var rest := FirstFailure(s, link, 1);
    assert FirstFailure(s, link, 0) == if Flagged(s, 0) && Fails(link, 0) then 0 else rest;
    assert rest == if Flagged(s, 1) && Fails(link, 1) then 1 else FirstFailure(s, link, 2);
  }

  /** No pass begins to read the firmware page, and it leaves the module in its place. */
  lemma PassKeeps(s: State, pass: Pass, i: nat)
    requires Proper(s) && Storing(pass.effects) && i < |s.modules| && forall id: PropId :: i < pass.effects(id).count
    ensures var t := AfterPass(s, pass.link, pass.effects);
      && Proper(t) && i < |t.modules| && t.toRead <= s.toRead
      && (Flagged(t, FIRMWARE_VERSION) <==> Flagged(s, FIRMWARE_VERSION) && Fails(pass.link, FIRMWARE_VERSION))
      && (FIRMWARE_UPDATE in t.toWrite <==>
            FIRMWARE_UPDATE in s.toWrite && FirstFailure(s, pass.link, 0) <= FIRMWARE_UPDATE)
  {
    hide Required, Affected, Fails, FirstFailure, ToBin, Storing, Done, Reached;
    var k := FirstFailure(s, pass.link, 0);
    PassClearsFlags(s, pass.link, pass.effects, i);
    FirstOfTwo(s, pass.link);
    ReachedModule(s, pass.effects, k, i);
    ReachedFlags(s, pass.effects, k);
    if k < 11 {
      AffectedProper(Reached(s, pass.effects, k), Required(Reached(s, pass.effects, k), k), pass.effects, k);
    }
  }

  /** A page that was not communicated is still the one to be written. */
  lemma PassKeepsPage(s: State, pass: Pass, i: nat)
    requires Proper(s) && Storing(pass.effects) && i < |s.modules| && forall id: PropId :: i < pass.effects(id).count
    requires FirstFailure(s, pass.link, 0) <= FIRMWARE_UPDATE && FIRMWARE_UPDATE !in s.toRead
    ensures var t := AfterPass(s, pass.link, pass.effects);
      && Proper(t) && i < |t.modules|
      && (FIRMWARE_UPDATE in t.modules[i].pending <==> FIRMWARE_UPDATE in s.modules[i].pending)
      && ToBin(FIRMWARE_UPDATE, t.modules[i]) == ToBin(FIRMWARE_UPDATE, s.modules[i])
  {
    hide Required, Affected, Fails, FirstFailure, ToBin, Storing, Done, Reached;
    var k := FirstFailure(s, pass.link, 0);
    PassKeeps(s, pass, i);
    PassClearsFlags(s, pass.link, pass.effects, i);
    ReachedModule(s, pass.effects, k, i);
    ReachedFlags(s, pass.effects, k);
    AffectedOthers(Reached(s, pass.effects, k), Required(Reached(s, pass.effects, k), k), pass.effects, k, i);
  }

  /** A communication changes no other property of a module, and a write not even its own. */
  lemma AffectedOthers(s: State, action: Action, effects: Effects, id: PropId, i: nat)
    requires Proper(s) && Storing(effects) && i < |s.modules| && i < effects(id).count
    ensures var r := Affected(s, action, effects(id));
      && Proper(r)
      && forall other: PropId :: other != id || action != Read ==>
          ToBin(other, r.modules[i]) == ToBin(other, s.modules[i])
  {
    hide ToBin;
    AffectedProper(s, action, effects, id);
    assert Whole(s.modules[i]);
    assert OnlyChanges(id, s.modules[i], effects(id).stored(i, s.modules[i]));
  }

  // ---------------------------------------------------------------- the display before and in each pass

  ghost predicate Intact(s: State, i: nat) {
    Proper(s) && i < |s.modules| && FIRMWARE_UPDATE !in s.toRead
  }

  lemma StoredKeeps(u: Setting, w0: World, k: nat)
    requires Regular(u, w0) && w0.server.k <= k <= |u.pages| && Intact(Before(u, w0, k), u.watched)
    requires u.watched < SizeAt(u, w0, k)
    ensures var s, t := Before(u, w0, k), Stored(u, w0, k);
      && Intact(t, u.watched) && (Flagged(t, FIRMWARE_VERSION) <==> Flagged(s, FIRMWARE_VERSION))
      && (k < |u.pages| ==>
            && FIRMWARE_UPDATE in t.toWrite && FIRMWARE_UPDATE in t.modules[u.watched].pending
            && ToBin(FIRMWARE_UPDATE, t.modules[u.watched]) == Some(PageWire(u, k)))
      && (k == |u.pages| ==>
            && (FIRMWARE_UPDATE in t.toWrite <==> FIRMWARE_UPDATE in s.toWrite)
            && (FIRMWARE_UPDATE in t.modules[u.watched].pending <==> FIRMWARE_UPDATE in s.modules[u.watched].pending)
            && ToBin(FIRMWARE_UPDATE, t.modules[u.watched]) == ToBin(FIRMWARE_UPDATE, s.modules[u.watched]))
  {
    hide Before, SizeAt, FirmwareUpdateToBin;
    var s, t := Before(u, w0, k), Stored(u, w0, k);
    forall i | 0 <= i < |t.modules|
      ensures Whole(t.modules[i])
    {
      assert Whole(s.modules[i]);
    }
  }

  lemma {:induction false} BeforeIs(u: Setting, w0: World, k: nat)
    requires Regular(u, w0) && w0.server.k <= k <= |u.pages|
    ensures Intact(Before(u, w0, k), u.watched) && u.watched < SizeAt(u, w0, k)
    ensures Flagged(Before(u, w0, k), FIRMWARE_VERSION) <==>
      && Flagged(w0.display, FIRMWARE_VERSION)
      && forall j :: w0.server.k <= j < k ==> Fails(OwnPass(u, w0, j).link, FIRMWARE_VERSION)
    decreases k
  {
    hide Stored, AfterPass, Fails, Flagged, Proper, Storing;
    if k > w0.server.k {
      BeforeIs(u, w0, k - 1);
      StoredKeeps(u, w0, k - 1);
      PassKeeps(Stored(u, w0, k - 1), OwnPass(u, w0, k - 1), u.watched);
    }
  }

  /** Whether the pass for chunk k is stopped before the firmware page. */
  lemma StoppedIff(u: Setting, w0: World, k: nat)
    requires Regular(u, w0) && w0.server.k <= k <= |u.pages|
    ensures Intact(Stored(u, w0, k), u.watched)
    ensures FirstFailure(Stored(u, w0, k), OwnPass(u, w0, k).link, 0) < FIRMWARE_UPDATE <==> Stopped(u, w0, k)
  {
    hide Stored, Before, Fails, Flagged, Proper, FirstFailure, Storing;
    BeforeIs(u, w0, k);
    StoredKeeps(u, w0, k);
    FirstOfTwo(Stored(u, w0, k), OwnPass(u, w0, k).link);
  }

  /** What a pass that comes to the firmware page gives the module. */
  lemma GotInPass(s: State, pass: Pass, i: nat)
    requires Intact(s, i) && Storing(pass.effects) && forall id: PropId :: i < pass.effects(id).count
    requires FIRMWARE_UPDATE in s.toWrite ==>
      FIRMWARE_UPDATE in s.modules[i].pending && ToBin(FIRMWARE_UPDATE, s.modules[i]).Some?
    ensures Got(Reached(s, pass.effects, FIRMWARE_UPDATE), pass, i) ==
      if FIRMWARE_UPDATE in s.toWrite then Repeated(ToBin(FIRMWARE_UPDATE, s.modules[i]).value,
          Copies(pass, FIRMWARE_UPDATE)) else []
  {
    hide Required, Received, ToBin, Storing, Copies, Reached;
    var t := Reached(s, pass.effects, FIRMWARE_UPDATE);
    if FIRMWARE_UPDATE in s.toWrite {
      KeptOneMore(s, pass.effects, FIRMWARE_VERSION, i);
      PassDelivers(s, pass.effects, i, FIRMWARE_UPDATE);
    } else {
      ReachedFlags(s, pass.effects, FIRMWARE_UPDATE);
      NothingGot(t, pass, i);
    }
  }

  /** In the pass for a chunk the module gets its page, as often as it is reached. */
  lemma DeliveredIs(u: Setting, w0: World, k: nat)
    requires Regular(u, w0) && w0.server.k <= k < |u.pages|
    ensures Delivered(u, w0, k) ==
      if Stopped(u, w0, k) then [] else Repeated(PageWire(u, k), Copies(OwnPass(u, w0, k), FIRMWARE_UPDATE))
  {
    hide Stored, Before, Stopped, Copies, FirstFailure, Got, Proper, Reached, Storing, PageWire;
    BeforeIs(u, w0, k);
    StoppedIff(u, w0, k);
    StoredKeeps(u, w0, k);
    GotInPass(Stored(u, w0, k), OwnPass(u, w0, k), u.watched);
  }

  /** In the pass for the reboot it gets the last page again, if that is still flagged. */
  lemma DeliveredLast(u: Setting, w0: World)
    requires Regular(u, w0)
    ensures var n := |u.pages|;
      Delivered(u, w0, n) ==
        if Stopped(u, w0, n) || (!Stopped(u, w0, n - 1) && !Fails(OwnPass(u, w0, n - 1).link, FIRMWARE_UPDATE)) then []
        else Repeated(PageWire(u, n - 1), Copies(OwnPass(u, w0, n), FIRMWARE_UPDATE))
  {
    hide Stored, AfterPass, Stopped, Copies, FirstFailure, Got, Proper, Reached, Storing, PageWire, Fails, ToBin;
    var n := |u.pages|;
    var s, pass := Stored(u, w0, n - 1), OwnPass(u, w0, n - 1);
    BeforeIs(u, w0, n - 1);
    StoredKeeps(u, w0, n - 1);
    StoppedIff(u, w0, n - 1);
    FirstOfTwo(s, pass.link);
    PassKeeps(s, pass, u.watched);
    if FirstFailure(s, pass.link, 0) <= FIRMWARE_UPDATE {
      PassKeepsPage(s, pass, u.watched);
    }
    BeforeIs(u, w0, n);
    StoredKeeps(u, w0, n);
    StoppedIff(u, w0, n);
    GotInPass(Stored(u, w0, n), OwnPass(u, w0, n), u.watched);
  }

  /**
    After the last chunk every module is told to reboot: when the pass comes to the commands, the module gets
    the single byte 1, unless a command was to be read.
    */
  lemma RebootIsSent(u: Setting, w0: World)
    requires Regular(u, w0) && COMMAND !in Stored(u, w0, |u.pages|).toRead
    ensures var s, pass := Stored(u, w0, |u.pages|), OwnPass(u, w0, |u.pages|);
      var t := Reached(s, pass.effects, COMMAND);
      && Proper(t) && u.watched < |t.modules|
      && Received(t, Required(t, COMMAND), COMMAND, u.watched) == Some(Plain([1]))
  {
    hide Before, AfterPass, Required, Received, Reached, Storing, SizeAt;
    var n := |u.pages|;
    BeforeIs(u, w0, n);
    StoredKeeps(u, w0, n);
    var s, pass := Stored(u, w0, n), OwnPass(u, w0, n);
    KeptToCommand(s, pass.effects, u.watched);
    PassDelivers(s, pass.effects, u.watched, COMMAND);
  }

  lemma KeptToCommand(s: State, effects: Effects, i: nat)
    requires i < |s.modules| && forall id: PropId :: i < effects(id).count
    ensures Kept(s, effects, COMMAND, i)
  {
  }

  // ---------------------------------------------------------------- everything the module receives

  /** How often the module gets a page in the pass for chunk k. */
  function Times(u: Setting, w0: World, k: nat): nat
    requires w0.server.Receiving? && w0.server.k <= k && w0.server.k < |u.pages|
  {
    if Stopped(u, w0, k) then 0
    else if k < |u.pages| || Stopped(u, w0, k - 1) || Fails(OwnPass(u, w0, k - 1).link, FIRMWARE_UPDATE)
      then Copies(OwnPass(u, w0, k), FIRMWARE_UPDATE)
    else 0
  }

  /** The numbers of the pages it gets before chunk k. */
  function Numbers(u: Setting, w0: World, k: nat): (numbers: seq<nat>)
    requires w0.server.Receiving? && w0.server.k <= k && w0.server.k < |u.pages|
    ensures forall i :: 0 <= i < |numbers| ==> w0.server.k <= numbers[i] < |u.pages| && numbers[i] < k
    decreases k
  {
    if k == w0.server.k then []
    else Numbers(u, w0, k - 1) + Repeated<nat>(if k - 1 < |u.pages| then k - 1 else |u.pages| - 1, Times(u, w0, k - 1))
  }

  function Wires(u: Setting, numbers: seq<nat>): (wires: seq<Wire>)
    requires forall i :: 0 <= i < |numbers| ==> numbers[i] < |u.pages| && u.pages[numbers[i]].index < 0x1_0000
    ensures |wires| == |numbers|
  {
    seq(|numbers|, i requires 0 <= i < |numbers| => PageWire(u, numbers[i]))
  }

  lemma {:induction false} InboxIs(u: Setting, w0: World, k: nat)
    requires Regular(u, w0) && w0.server.k <= k <= |u.pages| + 1
    ensures Inbox(u, w0, k) == w0.inbox + Wires(u, Numbers(u, w0, k))
    decreases k
  {
    hide Delivered, PageWire, Times, Proper, Storing;
    if k > w0.server.k {
      InboxIs(u, w0, k - 1);
      DeliveredAnyway(u, w0, k - 1);
      var before, number := Numbers(u, w0, k - 1), if k - 1 < |u.pages| then k - 1 else |u.pages| - 1;
      var more := Repeated<nat>(number, Times(u, w0, k - 1));
      assert Wires(u, before + more) == Wires(u, before) + Repeated(PageWire(u, number), |more|);
    }
  }

  lemma DeliveredAnyway(u: Setting, w0: World, k: nat)
    requires Regular(u, w0) && w0.server.k <= k <= |u.pages|
    ensures Delivered(u, w0, k) == Repeated(PageWire(u, if k < |u.pages| then k else |u.pages| - 1), Times(u, w0, k))
  {
    hide Delivered, PageWire, Proper, Storing, Stopped, Copies, Fails;
    if k < |u.pages| {
      DeliveredIs(u, w0, k);
    } else {
      DeliveredLast(u, w0);
    }
  }

  lemma {:induction false} NumbersAre(u: Setting, w0: World, k: nat, x: nat)
    requires w0.server.Receiving? && w0.server.k <= k <= |u.pages| + 1 && w0.server.k < |u.pages|
    ensures x in Numbers(u, w0, k) <==>
      || (w0.server.k <= x < k && x < |u.pages| && Times(u, w0, x) > 0)
      || (k == |u.pages| + 1 && x == |u.pages| - 1 && Times(u, w0, |u.pages|) > 0)
    decreases k
  {
    hide Times;
    if k > w0.server.k {
      NumbersAre(u, w0, k - 1, x);
      var number := if k - 1 < |u.pages| then k - 1 else |u.pages| - 1;
      assert x in Repeated<nat>(number, Times(u, w0, k - 1)) <==> x == number && Times(u, w0, k - 1) > 0 by {
        if Times(u, w0, k - 1) > 0 {
          assert Repeated<nat>(number, Times(u, w0, k - 1))[0] == number;
        }
      }
    }
  }

  /** Different pages have different messages. */
  lemma WireTells(u: Setting, numbers: seq<nat>, k: nat)
    requires Sound(u) && forall i :: 0 <= i < |u.pages| ==> u.pages[i].index == i
    requires k < |u.pages| && forall i :: 0 <= i < |numbers| ==> numbers[i] < |u.pages|
    ensures PageWire(u, k) in Wires(u, numbers) <==> k in numbers
  {
    hide FirmwareUpdateToBin, DecodeIndex, Storing;
    forall i | 0 <= i < |numbers| && PageWire(u, numbers[i]) == PageWire(u, k)
      ensures numbers[i] == k
    {
      MessageRoundTrip(k, u.pages[k].data, FirmwareUpdateToBin(k, u.pages[k].data));
      MessageRoundTrip(numbers[i], u.pages[numbers[i]].data, FirmwareUpdateToBin(k, u.pages[k].data));
    }
    if k in numbers {
      var i :| 0 <= i < |numbers| && numbers[i] == k;
      assert Wires(u, numbers)[i] == PageWire(u, k);
    }
  }

  lemma UnreachedFails(u: Setting, w0: World, k: nat)
    requires Sound(u) && w0.server.Receiving? && w0.server.k <= k
    ensures Copies(OwnPass(u, w0, k), FIRMWARE_UPDATE) == 0 ==> Fails(OwnPass(u, w0, k).link, FIRMWARE_UPDATE)
  {
  }

  /** Each page but the last has its own pass alone; the last has two. */
  lemma TimesAre(u: Setting, w0: World, k: nat)
    requires Sound(u) && w0.server.Receiving? && w0.server.k <= k < |u.pages|
    ensures Times(u, w0, k) > 0 <==> Through(u, w0, k)
    ensures var n := |u.pages|;
      Times(u, w0, n - 1) > 0 || Times(u, w0, n) > 0 <==> Through(u, w0, n - 1) || Through(u, w0, n)
  {
    hide Copies, Fails, Stopped;
    UnreachedFails(u, w0, |u.pages| - 1);
  }

  /** The module receives every page from the first chunk on if and only if every pass gets its page through. */
  lemma ReceivedAllIff(u: Setting, w0: World)
    requires Regular(u, w0) && w0.inbox == []
    ensures (forall k :: w0.server.k <= k < |u.pages| ==> PageWire(u, k) in Inbox(u, w0, |u.pages| + 1)) <==>
      AllThrough(u, w0)
    ensures forall k :: 0 <= k < w0.server.k ==> PageWire(u, k) !in Inbox(u, w0, |u.pages| + 1)
  {
    hide Inbox, PageWire, Times, Proper, Storing, Wires, Numbers, Through;
    var n := |u.pages|;
    var numbers := Numbers(u, w0, n + 1);
    InboxIs(u, w0, n + 1);
    assert [] + Wires(u, numbers) == Wires(u, numbers);
    forall k | 0 <= k < n
      ensures PageWire(u, k) in Inbox(u, w0, n + 1) <==>
        w0.server.k <= k && (Times(u, w0, k) > 0 || (k == n - 1 && Times(u, w0, n) > 0))
    {
      WireTells(u, numbers, k);
      NumbersAre(u, w0, n + 1, k);
    }
    forall k | w0.server.k <= k < n
      ensures Times(u, w0, k) > 0 <==> Through(u, w0, k)
    {
      TimesAre(u, w0, k);
    }
    TimesAre(u, w0, n - 1);
  }

  // ---------------------------------------------------------------- an upload that starts while nothing is under way

  /** The upload begins, with nothing handled and nothing received. */
  ghost predicate AtBeginning(u: Setting, w0: World) {
    Regular(u, w0) && w0.server == Receiving(0) && w0.inbox == [] && w0.handled == {} && w0.early == {}
  }

  /**
    In every interleaving that starts with no pass under way and none asked for: an upload that has been
    answered with success has brought the module every page if and only if every pass got its page through.
    */
  lemma UploadedIff(u: Setting, w0: World, schedule: seq<Turn>)
    requires AtBeginning(u, w0) && Quiet(w0) && After(u, w0, schedule).server == Answered(true)
    ensures After(u, w0, schedule).inbox == Wires(u, Numbers(u, w0, |u.pages| + 1))
    ensures (forall k :: 0 <= k < |u.pages| ==> PageWire(u, k) in After(u, w0, schedule).inbox) <==> AllThrough(u, w0)
  {
    hide After, Wires, Numbers, AllThrough, PageWire, Inbox, Proper, Storing;
    EachWaitIsOwn(u, w0, schedule);
    ReceivedAllIff(u, w0);
    InboxIs(u, w0, |u.pages| + 1);
    assert [] + Wires(u, Numbers(u, w0, |u.pages| + 1)) == Wires(u, Numbers(u, w0, |u.pages| + 1));
  }

  /** The loop of the upload, with a handler that succeeds when its wait finds the bit set, gives the same answer. */
  lemma AnswerIsLoops(u: Setting, w0: World, schedule: seq<Turn>, content: seq<bv8>)
    requires AtBeginning(u, w0) && |u.pages| == Ota.Chunks(|content|, Flash.PAGE_SIZE)
    requires After(u, w0, schedule).server.Answered?
    ensures var e := After(u, w0, schedule);
      e.server.ok <==> Ota.Accepted(Ota.Chunks(|content|, Flash.PAGE_SIZE), u.received, (k: nat) => k in e.handled)
  {
    hide After, Ota.Chunks, Regular;
    AnsweredOkIff(u, w0, schedule);
    var e := After(u, w0, schedule);
    var handled := (k: nat) => k in e.handled;
    assert forall k :: 0 <= k < |u.pages| ==> (handled(k) <==> k in e.handled);
  }

  /** Failing uploads: if no attempt reaches the module, the upload can still be answered with success. */
  lemma AnsweredWithNothing(u: Setting, w0: World) returns (schedule: seq<Turn>)
    requires AtBeginning(u, w0) && Quiet(w0) && (forall k :: 0 <= k < |u.pages| ==> u.received(k))
    requires forall n: nat, a: nat :: !u.passes(n).reaches(FIRMWARE_UPDATE, a)
    ensures After(u, w0, schedule).server == Answered(true) && After(u, w0, schedule).inbox == []
    ensures forall k :: 0 <= k < |u.pages| ==> k in After(u, w0, schedule).handled
  {
    hide After, AllThrough, PageWire, Wires, Numbers, Inv, Next, ServerStep, Proper, Storing;
    StartHasInv(u, w0);
    schedule := CanSucceed(u, w0, w0);
    UploadedIff(u, w0, schedule);
    AnsweredOkIff(u, w0, schedule);
    NothingReached(u, w0);
  }

  lemma NothingReached(u: Setting, w0: World)
    requires AtBeginning(u, w0) && forall n: nat, a: nat :: !u.passes(n).reaches(FIRMWARE_UPDATE, a)
    ensures Wires(u, Numbers(u, w0, |u.pages| + 1)) == []
  {
    hide Numbers, Proper, Storing, Stopped, Fails;
    var numbers := Numbers(u, w0, |u.pages| + 1);
    if numbers != [] {
      NumbersAre(u, w0, |u.pages| + 1, numbers[0]);
    }
  }

  // ---------------------------------------------------------------- an upload that starts during a pass

  lemma IntactStays(u: Setting, w: World, turn: Turn)
    requires Sound(u) && Intact(w.display, u.watched)
      && forall n: nat, id: PropId :: u.watched < u.passes(n).effects(id).count
    ensures Intact(Next(u, w, turn).display, u.watched)
  {
    hide Required, Fails, Got, Storing;
    match turn
    case ServerTurn =>
    case Timeout =>
    case TaskTurn =>
      if w.task.Passing? && w.task.id < 11 {
        var id: PropId := w.task.id;
        AffectedProper(w.display, Required(w.display, id), u.passes(w.ended).effects, id);
      }
  }

  lemma {:induction false} IntactAfter(u: Setting, w: World, schedule: seq<Turn>)
    requires Sound(u) && Intact(w.display, u.watched)
      && forall n: nat, id: PropId :: u.watched < u.passes(n).effects(id).count
    ensures Intact(After(u, w, schedule).display, u.watched)
    decreases |schedule|
  {
    hide Next, Sound, Intact;
    if schedule != [] {
      IntactStays(u, w, schedule[0]);
      IntactAfter(u, Next(u, w, schedule[0]), schedule[1..]);
    }
  }

  lemma AskedHasInv(u: Setting, w: World, e: World)
    requires AtChunk(u, w) && w.task == Blocked
    requires var k, size := w.server.k, |w.display.modules|;
      e == w.(display := DisplayFlagged(Given(w.display, u, k, size), PropertyOf(u, k), false), flagged := Begun(w),
              synchronized := false, desynchronized := true, server := Waiting(k, size))
    ensures Inv(u, w, e)
  {
    hide Given, Proper, Sound, AfterPass, Delivered;
    assert Before(u, w, w.server.k) == w.display && Inbox(u, w, w.server.k) == w.inbox;
    assert SizeAt(u, w, w.server.k) == |w.display.modules|;
    assert e.display == Stored(u, w, w.server.k);
  }

  /** The server gives chunk k without a turn of the task, although a pass has been asked for. */
  lemma GivenAtOnce(u: Setting, w: World) returns (schedule: seq<Turn>)
    requires AtChunk(u, w) && w.task == Blocked && u.received(w.server.k) && w.display.modules != []
    ensures Inv(u, w, After(u, w, schedule)) && After(u, w, schedule).server.Waiting?
    ensures After(u, w, schedule).display.modules != []
  {
    hide Given, Proper, Sound, Inv, GivenTo;
    OneMoreGiven(w.display, u, w.server.k, 0);
    OneMoreGiven(w.display, u, w.server.k, |w.display.modules|);
    var rest := ServerAsks(u, ServerStep(u, w), w.display);
    schedule := [ServerTurn] + rest;
    assert schedule[1..] == rest;
    AskedHasInv(u, w, After(u, w, schedule));
  }

  lemma NothingFails(u: Setting, w0: World)
    requires AtChunk(u, w0) && forall n: nat, id: PropId, a: nat :: u.passes(n).link(id, a)
    ensures AllThrough(u, w0)
  {
    hide Storing, Proper, Flagged;
    forall k | w0.server.k <= k <= |u.pages|
      ensures Through(u, w0, k)
    {
      var pass := OwnPass(u, w0, k);
      assert pass.link(FIRMWARE_VERSION, 1) && !Fails(pass.link, FIRMWARE_VERSION);
      assert pass.link(FIRMWARE_UPDATE, 1) && pass.reaches(FIRMWARE_UPDATE, 1);
    }
  }

  lemma RestGetsThrough(u: Setting, w: World) returns (schedule: seq<Turn>)
    requires Regular(u, w) && w.task == Blocked && w.inbox == []
    requires forall k :: 0 <= k < |u.pages| ==> u.received(k)
    requires forall n: nat, id: PropId, a: nat :: u.passes(n).link(id, a)
    ensures var e := After(u, w, schedule);
      && e.server == Answered(true) && e.early == w.early
      && forall k :: 0 <= k < |u.pages| ==> (PageWire(u, k) in e.inbox <==> w.server.k <= k)
  {
    hide After, Next, ServerStep, PageWire, Proper, Storing, AllThrough, InOwnPass, Between, Inbox;
    var given := GivenAtOnce(u, w);
    var rest := CanSucceed(u, w, After(u, w, given));
    AfterKeepsInv(u, w, After(u, w, given), rest);
    ReceivedAllIff(u, w);
    NothingFails(u, w);
    AfterBoth(u, w, given, rest);
    schedule := given + rest;
  }

  /**
    A failing upload in which no attempt fails: it starts while a pass is under way that has left the firmware
    page behind. That pass ends the wait for the first page, and the second one overwrites it. The upload can
    then be answered with success, and the module has received every page but the first.
    */
  lemma FirstPageOverwritten(u: Setting, w0: World) returns (schedule: seq<Turn>)
    requires AtBeginning(u, w0) && w0.task.Passing? && w0.task.id > FIRMWARE_UPDATE && |u.pages| >= 2
    requires forall k :: 0 <= k < |u.pages| ==> u.received(k)
    requires forall n: nat, id: PropId, a: nat :: u.passes(n).link(id, a)
    ensures var e := After(u, w0, schedule);
      && e.server == Answered(true) && e.early == {0}
      && forall k :: 0 <= k < |u.pages| ==> (PageWire(u, k) in e.inbox <==> k != 0)
  {
    hide After, PageWire, Proper, Storing;
    var first := Overtakes(u, w0);
    IntactAfter(u, w0, first);
    var rest := RestGetsThrough(u, After(u, w0, first));
    AfterBoth(u, w0, first, rest);
    schedule := first + rest;
  }

  // ---------------------------------------------------------------- the image in the module's flash

  /** The module's flash when it has handled all the messages. */
  ghost function Flashed(m: seq<bv8>, inbox: seq<Wire>): (r: seq<bv8>)
    ensures |r| == |m|
  {
    if inbox == [] then m
    else
      var before := Flashed(m, inbox[..|inbox| - 1]);
      match inbox[|inbox| - 1]
      case Paged(message) => Ota.AfterFirmwareSet(before, message)
      case Plain(_) => before
  }

  /** The pages are those of a file of whole pages that fits the slot. */
  ghost predicate PagesOf(u: Setting, image: seq<bv8>, calls: seq<Ota.Call>) {
    && |image| % Flash.PAGE_SIZE == 0 && |image| <= Bootloader.APP_SIZE
    && Ota.Cuts(image, Flash.PAGE_SIZE, calls, |image|)
    && |u.pages| == |calls| && (forall k :: 0 <= k < |calls| ==> |calls[k].data| == Flash.PAGE_SIZE)
    && forall k :: 0 <= k < |calls| ==> u.pages[k] == FirmwarePage(Ota.PageIndex(calls[k]), calls[k].data)
  }

  lemma {:induction false} FlashedIs(u: Setting, image: seq<bv8>, calls: seq<Ota.Call>, m: seq<bv8>, numbers: seq<nat>)
    requires PagesOf(u, image, calls) && Ota.Deliverable(calls, numbers)
    ensures Flashed(m, Wires(u, numbers)) == Ota.Deliver(m, calls, numbers)
  {
    hide Ota.AfterFirmwareSet, FirmwareUpdateToBin, Ota.Cuts;
    if numbers != [] {
      var n := |numbers| - 1;
      FlashedIs(u, image, calls, m, numbers[..n]);
      assert Wires(u, numbers)[..n] == Wires(u, numbers[..n]);
      assert Wires(u, numbers)[n] == Paged(Ota.Message(calls[numbers[n]]));
    }
  }

  /** Another page, one or more times, behind pages in order. */
  lemma OneMoreInOrder(numbers: seq<nat>, pages: nat, x: nat, times: nat)
    requires Ota.InOrder(numbers, pages) && times > 0 && (x == pages || x + 1 == pages)
    ensures Ota.InOrder(numbers + Repeated<nat>(x, times), x + 1)
  {
  }

  lemma {:induction false} NumbersInOrder(u: Setting, w0: World, k: nat)
    requires w0.server == Receiving(0) && k <= |u.pages| && 0 < |u.pages|
    requires forall j :: 0 <= j < k ==> Times(u, w0, j) > 0
    ensures Ota.InOrder(Numbers(u, w0, k), k)
  {
    hide Times, Ota.InOrder;
    if k > 0 {
      NumbersInOrder(u, w0, k - 1);
      OneMoreInOrder(Numbers(u, w0, k - 1), k - 1, k - 1, Times(u, w0, k - 1));
      assert Numbers(u, w0, k) == Numbers(u, w0, k - 1) + Repeated<nat>(k - 1, Times(u, w0, k - 1));
    } else {
      NoneInOrder();
    }
  }

  lemma NoneInOrder()
    ensures Ota.InOrder([], 0)
  {
  }

  lemma AllNumbersInOrder(u: Setting, w0: World)
    requires AtBeginning(u, w0) && AllThrough(u, w0)
    ensures Ota.InOrder(Numbers(u, w0, |u.pages| + 1), |u.pages|)
  {
    hide Times, Ota.InOrder, Through, Proper, Storing, Numbers;
    var n := |u.pages|;
    forall j | 0 <= j < n
      ensures Times(u, w0, j) > 0 <==> Through(u, w0, j)
    {
      TimesAre(u, w0, j);
    }
    TimesAre(u, w0, n - 1);
    NumbersInOrder(u, w0, n - 1);
    NumbersAtEnd(u, w0);
    LastInOrder(Numbers(u, w0, n - 1), n, Times(u, w0, n - 1), Times(u, w0, n));
  }

  lemma NumbersAtEnd(u: Setting, w0: World)
    requires w0.server == Receiving(0) && 0 < |u.pages|
    ensures var n := |u.pages|;
      Numbers(u, w0, n + 1) ==
        Numbers(u, w0, n - 1) + Repeated<nat>(n - 1, Times(u, w0, n - 1)) + Repeated<nat>(n - 1, Times(u, w0, n))
  {
    hide Times;
    var n := |u.pages|;
    assert Numbers(u, w0, n) == Numbers(u, w0, n - 1) + Repeated<nat>(n - 1, Times(u, w0, n - 1));
  }

  lemma LastInOrder(before: seq<nat>, n: nat, a: nat, b: nat)
    requires 0 < n && Ota.InOrder(before, n - 1) && (a > 0 || b > 0)
    ensures Ota.InOrder(before + Repeated<nat>(n - 1, a) + Repeated<nat>(n - 1, b), n)
  {
    hide Ota.InOrder;
    assert before + Repeated<nat>(n - 1, a) + Repeated<nat>(n - 1, b) == before + Repeated<nat>(n - 1, a + b);
    OneMoreInOrder(before, n - 1, n - 1, a + b);
  }

  /** So after such an upload the module's second slot holds the image, and the rest of its flash is as before. */
  lemma UploadedImage(u: Setting, w0: World, schedule: seq<Turn>, image: seq<bv8>, calls: seq<Ota.Call>, m: seq<bv8>)
    requires AtBeginning(u, w0) && Quiet(w0) && After(u, w0, schedule).server == Answered(true)
    requires PagesOf(u, image, calls) && AllThrough(u, w0) && |m| == Bootloader.FLASH_SIZE
    ensures var r := Flashed(m, After(u, w0, schedule).inbox);
      && Bootloader.New(r)[..|image|] == image
      && forall j :: 0 <= j < |m| && !(Bootloader.NEW_APP <= j < Bootloader.NEW_APP + Bootloader.APP_SIZE) ==>
          r[j] == m[j]
  {
    hide After, Numbers, Wires, Flashed, AllThrough, Ota.InOrder, Ota.Cuts, Ota.Deliver, Proper, Storing;
    var numbers := Numbers(u, w0, |u.pages| + 1);
    UploadedIff(u, w0, schedule);
    AllNumbersInOrder(u, w0);
    Ota.UploadWritesImage(m, image, calls, numbers);
    FlashedIs(u, image, calls, m, numbers);
  }

  /**
    From the request to the running application: if the file is a valid image of the slot's size, that image
    is what the module runs, through any number of power cuts at the following boots.
    */
  lemma UploadIsRun(u: Setting, w0: World, schedule: seq<Turn>, image: seq<bv8>, calls: seq<Ota.Call>, m: seq<bv8>,
                    run: seq<Bootloader.Machine>, n: nat)
    requires AtBeginning(u, w0) && Quiet(w0) && After(u, w0, schedule).server == Answered(true)
    requires PagesOf(u, image, calls) && AllThrough(u, w0) && |m| == Bootloader.FLASH_SIZE
    requires |image| == Bootloader.APP_SIZE && Bootloader.ValidSlot(image)
    requires |run| > 0 && run[0] == Bootloader.Machine(Flashed(m, After(u, w0, schedule).inbox), Bootloader.Reset)
    requires forall i :: 0 <= i < |run| - 1 ==> Bootloader.WellFormed(run[i]) && Bootloader.Next(run[i], run[i + 1])
    requires n < |run|
    ensures |run[n].flash| == Bootloader.FLASH_SIZE && !run[n].phase.Halted?
    ensures run[n].phase.Running? ==> Bootloader.Main(run[n].flash) == image
  {
    hide After, Flashed, AllThrough, Ota.Cuts, Proper, Storing, Bootloader.ValidSlot, Bootloader.Next;
    UploadedImage(u, w0, schedule, image, calls, m);
    var slot := Bootloader.New(run[0].flash);
    assert slot[..|image|] == slot;
    assert Bootloader.UpdateRun(image, run);
    Bootloader.UpdateSurvivesPowerCuts(image, run, n);
  }
}
