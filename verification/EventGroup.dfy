/**
  The kernel's event group: a word of event bits, and the tasks blocked until some or all of the bits they
  wait for are set. Blocking is membership in the list of waiters.
  */
module EventGroup {

  type Bits = bv32

  const CLEAR_EVENTS_ON_EXIT_BIT: Bits := 0x0100_0000
  const UNBLOCKED_DUE_TO_BIT_SET: Bits := 0x0200_0000
  const WAIT_FOR_ALL_BITS: Bits := 0x0400_0000
  const CONTROL_BYTES: Bits := 0xFF00_0000

  /** A blocked task with its event list item value: the bits it waits for, and control bits. */
  datatype Waiter = Waiter(task: nat, value: Bits)

  datatype Group = Group(bits: Bits, waiting: seq<Waiter>)

  // ---------------------------------------------------------------- bit words

  predicate Meets(x: Bits, y: Bits) {
    x & y != 0
  }

  function Union(x: Bits, y: Bits): Bits {
    x | y
  }

  function Without(x: Bits, y: Bits): Bits {
    x & !y
  }

  predicate Contains(x: Bits, y: Bits) {
    x & y == y
  }

  lemma UnionMeets(x: Bits, y: Bits, b: Bits)
    ensures Meets(Union(x, y), b) <==> Meets(x, b) || Meets(y, b)
  {
    UnionMeetsBits(x & b, y & b);
    assert (x | y) & b == (x & b) | (y & b);
  }

  lemma UnionMeetsBits(x: Bits, y: Bits)
    ensures x | y != 0 <==> x != 0 || y != 0
  {
  }

  lemma ZeroMeetsNothing(b: Bits)
    ensures !Meets(0, b)
  {
  }

  lemma LackedIsNotMet(x: Bits, y: Bits)
    ensures !Meets(y, Without(x, y))
  {
    assert y & (x & !y) == 0;
  }

  lemma NothingLacked(x: Bits, y: Bits)
    requires !Meets(x, Without(x, y))
    ensures Without(x, y) == 0
  {
  }

  lemma NothingLackedEitherWay(x: Bits, y: Bits)
    requires Without(x, y) == 0 && Without(y, x) == 0
    ensures x == y
  {
  }

  /** Words that meet the same words are equal: each meets what it has and the other lacks. */
  lemma SameMeetings(x: Bits, y: Bits)
    requires Meets(x, Without(x, y)) <==> Meets(y, Without(x, y))
    requires Meets(x, Without(y, x)) <==> Meets(y, Without(y, x))
    ensures x == y
  {
    hide Meets, Without;
    LackedIsNotMet(x, y);
    LackedIsNotMet(y, x);
    NothingLacked(x, y);
    NothingLacked(y, x);
    NothingLackedEitherWay(x, y);
  }

  // ---------------------------------------------------------------- wait conditions

  /** The wait condition on plain bits. */
  predicate TestWaitCondition(current: Bits, wanted: Bits, waitForAll: bool) {
    if waitForAll then Contains(current, wanted) else Meets(current, wanted)
  }

  function Wanted(value: Bits): Bits {
    value & !CONTROL_BYTES
  }

  /** A task as it is put on the list. */
  function Value(wanted: Bits, clearOnExit: bool, waitForAll: bool): Bits {
    wanted | ControlBits(clearOnExit, waitForAll)
  }

  function ControlBits(clearOnExit: bool, waitForAll: bool): Bits {
    (if clearOnExit then CLEAR_EVENTS_ON_EXIT_BIT else 0) | (if waitForAll then WAIT_FOR_ALL_BITS else 0)
  }

  predicate ClearsOnExit(value: Bits) {
    value & CLEAR_EVENTS_ON_EXIT_BIT != 0
  }

  predicate WaitsForAll(value: Bits) {
    value & WAIT_FOR_ALL_BITS != 0
  }

  predicate Satisfied(value: Bits, bits: Bits) {
    TestWaitCondition(bits, Wanted(value), WaitsForAll(value))
  }

  lemma ValueUnpacks(wanted: Bits, clearOnExit: bool, waitForAll: bool)
    requires wanted & CONTROL_BYTES == 0
    ensures Wanted(Value(wanted, clearOnExit, waitForAll)) == wanted
    ensures ClearsOnExit(Value(wanted, clearOnExit, waitForAll)) <==> clearOnExit
    ensures WaitsForAll(Value(wanted, clearOnExit, waitForAll)) <==> waitForAll
  {
    hide ControlBits;
    var control := ControlBits(clearOnExit, waitForAll);
    ControlBitsAre(clearOnExit, waitForAll);
    assert (wanted | control) & !CONTROL_BYTES == wanted;
    FlagUnpacks(wanted, control, CLEAR_EVENTS_ON_EXIT_BIT);
    FlagUnpacks(wanted, control, WAIT_FOR_ALL_BITS);
  }

  lemma ControlBitsAre(clearOnExit: bool, waitForAll: bool)
    ensures ControlBits(clearOnExit, waitForAll) & !CONTROL_BYTES == 0
    ensures ControlBits(clearOnExit, waitForAll) & CLEAR_EVENTS_ON_EXIT_BIT != 0 <==> clearOnExit
    ensures ControlBits(clearOnExit, waitForAll) & WAIT_FOR_ALL_BITS != 0 <==> waitForAll
    ensures CLEAR_EVENTS_ON_EXIT_BIT & CONTROL_BYTES == CLEAR_EVENTS_ON_EXIT_BIT
    ensures WAIT_FOR_ALL_BITS & CONTROL_BYTES == WAIT_FOR_ALL_BITS
  {
  }

  lemma FlagUnpacks(wanted: Bits, control: Bits, flag: Bits)
    requires wanted & CONTROL_BYTES == 0 && flag & CONTROL_BYTES == flag
    ensures (wanted | control) & flag == control & flag
  {
  }

  /** Fewer bits satisfy fewer waiters. */
  lemma ClearingSatisfiesNobody(value: Bits, bits: Bits, cleared: Bits)
    requires Wanted(value) != 0
    ensures Satisfied(value, Without(bits, cleared)) ==> Satisfied(value, bits)
  {
    hide Wanted, WaitsForAll, Without, Contains, Meets;
    WithoutLess(bits, cleared, Wanted(value));
  }

  lemma WithoutLess(bits: Bits, cleared: Bits, wanted: Bits)
    ensures Contains(Without(bits, cleared), wanted) ==> Contains(bits, wanted)
    ensures Meets(Without(bits, cleared), wanted) ==> Meets(bits, wanted)
  {
  }

  // ---------------------------------------------------------------- what setting bits does

  /** The waiters that the given bits satisfy, or do not, in list order. */
  function Chosen(ws: seq<Waiter>, bits: Bits, satisfied: bool): seq<Waiter> {
    if ws == [] then []
    else
      var n := |ws| - 1;
      Chosen(ws[..n], bits, satisfied) + if Satisfied(ws[n].value, bits) == satisfied then [ws[n]] else []
  }

  lemma {:induction false} ChosenMembers(ws: seq<Waiter>, bits: Bits, satisfied: bool)
    ensures forall w :: w in Chosen(ws, bits, satisfied) <==> w in ws && (Satisfied(w.value, bits) <==> satisfied)
  {
    hide Satisfied;
    if ws != [] {
      var n := |ws| - 1;
      ChosenMembers(ws[..n], bits, satisfied);
      assert forall w :: w in ws <==> w in ws[..n] || w == ws[n];
    }
  }

  /** The bits a waiter clears when it is released by the given bits. */
  function ClearedBy(w: Waiter, bits: Bits): Bits {
    if Satisfied(w.value, bits) && ClearsOnExit(w.value) then Wanted(w.value) else 0
  }

  function ToClear(ws: seq<Waiter>, bits: Bits): Bits {
    if ws == [] then 0 else Union(ToClear(ws[..|ws| - 1], bits), ClearedBy(ws[|ws| - 1], bits))
  }

  function AfterSet(g: Group, toSet: Bits): Group {
    var bits := Union(g.bits, toSet);
    Group(Without(bits, ToClear(g.waiting, bits)), Chosen(g.waiting, bits, false))
  }

  /** The tasks released by setting bits. */
  function Released(g: Group, toSet: Bits): seq<Waiter> {
    Chosen(g.waiting, Union(g.bits, toSet), true)
  }

  lemma {:induction false} ToClearMeets(ws: seq<Waiter>, bits: Bits, b: Bits)
    ensures Meets(ToClear(ws, bits), b) <==> exists w :: w in ws && Meets(ClearedBy(w, bits), b)
  {
    hide Meets, Union, ClearedBy;
    ZeroMeetsNothing(b);
    if ws != [] {
      var n := |ws| - 1;
      ToClearMeets(ws[..n], bits, b);
      UnionMeets(ToClear(ws[..n], bits), ClearedBy(ws[n], bits), b);
      assert forall w :: w in ws <==> w in ws[..n] || w == ws[n];
    }
  }

  /** Which tasks are released and which bits remain does not depend on the order of the waiters. */
  lemma OrderDoesNotMatter(g: Group, g': Group, toSet: Bits)
    requires g.bits == g'.bits && forall w :: w in g.waiting <==> w in g'.waiting
    ensures AfterSet(g, toSet).bits == AfterSet(g', toSet).bits
    ensures forall w :: w in Released(g, toSet) <==> w in Released(g', toSet)
    ensures forall w :: w in AfterSet(g, toSet).waiting <==> w in AfterSet(g', toSet).waiting
  {
    hide Satisfied, ClearedBy, Union, Without, Meets, Chosen;
    var bits := Union(g.bits, toSet);
    ChosenMembers(g.waiting, bits, true);
    ChosenMembers(g.waiting, bits, false);
    ChosenMembers(g'.waiting, bits, true);
    ChosenMembers(g'.waiting, bits, false);
    var x, y := ToClear(g.waiting, bits), ToClear(g'.waiting, bits);
    ToClearMeets(g.waiting, bits, Without(x, y));
    ToClearMeets(g'.waiting, bits, Without(x, y));
    ToClearMeets(g.waiting, bits, Without(y, x));
    ToClearMeets(g'.waiting, bits, Without(y, x));
    SameMeetings(x, y);
  }

  /** Every waiter is either released or still waiting, none is lost or duplicated. */
  lemma {:induction false} NobodyLost(ws: seq<Waiter>, bits: Bits)
    ensures multiset(Chosen(ws, bits, true)) + multiset(Chosen(ws, bits, false)) == multiset(ws)
  {
    hide Satisfied, Chosen;
    if ws == [] {
      NoneYet(bits);
    } else {
      var n := |ws| - 1;
      NobodyLost(ws[..n], bits);
      OneMore(ws, n, bits, true);
      OneMore(ws, n, bits, false);
      assert ws[..n + 1] == ws == ws[..n] + [ws[n]];
    }
  }

  /** Setting bits releases exactly the waiters satisfied by the old bits together with the new ones. */
  lemma SetReleasesExactlySatisfied(g: Group, toSet: Bits, w: Waiter)
    requires w in g.waiting
    ensures w in Released(g, toSet) <==> Satisfied(w.value, Union(g.bits, toSet))
    ensures w in AfterSet(g, toSet).waiting <==> !Satisfied(w.value, Union(g.bits, toSet))
  {
    hide Satisfied, Chosen, Union, Without;
    ChosenMembers(g.waiting, Union(g.bits, toSet), true);
    ChosenMembers(g.waiting, Union(g.bits, toSet), false);
  }

  /** A mask of one event bit. */
  predicate OneBit(b: Bits) {
    b != 0 && b & (b - 1) == 0
  }

  lemma BitWithout(x: Bits, y: Bits, b: Bits)
    requires OneBit(b)
    ensures Meets(Without(x, y), b) <==> Meets(x, b) && !Meets(y, b)
  {
    OneBitIn(x, b);
    OneBitIn(y, b);
    assert (x & !y) & b == (x & b) & !(y & b);
  }

  lemma OneBitIn(x: Bits, b: Bits)
    requires OneBit(b)
    ensures x & b == 0 || x & b == b
  {
  }

  /** Of the old and the new bits, exactly those go that a released waiter with clear-on-exit has waited for. */
  lemma SetClearsExactly(g: Group, toSet: Bits, b: Bits)
    requires OneBit(b)
    ensures Meets(AfterSet(g, toSet).bits, b) <==>
      && (Meets(g.bits, b) || Meets(toSet, b))
      && !exists w :: w in Released(g, toSet) && ClearsOnExit(w.value) && Meets(Wanted(w.value), b)
  {
    hide Satisfied, Chosen, Union, Without, Meets, OneBit, Wanted, ClearsOnExit;
    var bits := Union(g.bits, toSet);
    var toClear := ToClear(g.waiting, bits);
    BitWithout(bits, toClear, b);
    UnionMeets(g.bits, toSet, b);
    ToClearMeets(g.waiting, bits, b);
    ChosenMembers(g.waiting, bits, true);
    ZeroMeetsNothing(b);
    assert forall w :: w in g.waiting ==>
      (Meets(ClearedBy(w, bits), b) <==> w in Released(g, toSet) && ClearsOnExit(w.value) && Meets(Wanted(w.value), b));
  }

  /** Of a word exactly the given bits have been cleared. */
  predicate OnlyCleared(before: Bits, after: Bits, which: Bits) {
    after & which == 0 && after & !which == before & !which
  }

  lemma Cleared(x: Bits, y: Bits)
    ensures OnlyCleared(x, Without(x, y), y)
  {
    assert x & !y & y == 0;
    assert x & !y & !y == x & !y;
  }

  /** What a blocked task waits for and what it asked for. */
  predicate WaitsFor(w: Waiter, task: nat, wanted: Bits, clearOnExit: bool, waitForAll: bool) {
    && w.task == task && Wanted(w.value) == wanted
    && (ClearsOnExit(w.value) <==> clearOnExit) && (WaitsForAll(w.value) <==> waitForAll)
  }

  /** An event bit among 24; the control bits are not to be waited for. */
  predicate IsEvents(wanted: Bits) {
    wanted & 0xFF00_0000 == 0
  }

  lemma UnpacksFor(task: nat, wanted: Bits, clearOnExit: bool, waitForAll: bool)
    ensures IsEvents(wanted) ==>
      WaitsFor(Waiter(task, Value(wanted, clearOnExit, waitForAll)), task, wanted, clearOnExit, waitForAll)
  {
    hide Value, Wanted, ClearsOnExit, WaitsForAll;
    if IsEvents(wanted) {
      ValueUnpacks(wanted, clearOnExit, waitForAll);
    }
  }

  /** To wait for all bits is to wait for each, and to wait for any is to wait for one of them. */
  lemma ConditionIs(current: Bits, wanted: Bits)
    ensures TestWaitCondition(current, wanted, true) <==>
      forall b :: OneBit(b) && Meets(wanted, b) ==> Meets(current, b)
    ensures TestWaitCondition(current, wanted, false) <==>
      exists b :: OneBit(b) && Meets(wanted, b) && Meets(current, b)
  {
    hide OneBit, Meets, Contains;
    Lowest(Without(wanted, current));
    Lowest(wanted & current);
    forall b | OneBit(b)
      ensures Contains(current, wanted) && Meets(wanted, b) ==> Meets(current, b)
      ensures Meets(Without(wanted, current), b) <==> Meets(wanted, b) && !Meets(current, b)
      ensures Meets(wanted & current, b) <==> Meets(wanted, b) && Meets(current, b)
    {
      BitWithout(wanted, current, b);
      BitOfBoth(wanted, current, b);
      BitOfContained(current, wanted, b);
    }
    NothingLackedIff(current, wanted);
  }

  lemma BitOfBoth(x: Bits, y: Bits, b: Bits)
    requires OneBit(b)
    ensures Meets(x & y, b) <==> Meets(x, b) && Meets(y, b)
  {
    OneBitIn(x, b);
    OneBitIn(y, b);
    assert x & y & b == (x & b) & (y & b);
  }

  lemma BitOfContained(x: Bits, y: Bits, b: Bits)
    ensures Contains(x, y) && Meets(y, b) ==> Meets(x, b)
  {
  }

  lemma NothingLackedIff(x: Bits, y: Bits)
    ensures Contains(x, y) <==> Without(y, x) == 0
    ensures Meets(x, y) <==> y & x != 0
  {
    hide Contains, Without;
    LacksNone(x, y);
    AllContained(x, y);
    assert x & y == y & x;
  }

  lemma AllContained(x: Bits, y: Bits)
    ensures Contains(x, y) ==> Without(y, x) == 0
  {
  }

  lemma LacksNone(x: Bits, y: Bits)
    ensures Without(y, x) == 0 ==> Contains(x, y)
  {
    assert y == (x & y) | (y & !x);
  }

  /** A word that is not zero has a lowest bit. */
  lemma Lowest(x: Bits)
    ensures x != 0 ==> OneBit(x & (0 - x)) && Meets(x, x & (0 - x))
    ensures x == 0 ==> forall b :: !Meets(x, b)
  {
  }

  /** The words a task leaves on the list and finds there again. */
  lemma PackedWords()
    ensures Value(5, false, false) == 5 && Value(5, true, false) == 0x0100_0005
    ensures Value(5, false, true) == 0x0400_0005 && Value(5, true, true) == 0x0500_0005
    ensures Woken([Waiter(7, 0x0100_0002)], 6) == [Waiter(7, 0x0200_0006)]
  {
  }

  // ---------------------------------------------------------------- the other operations

  function AfterWait(g: Group, task: nat, wanted: Bits, clearOnExit: bool, waitForAll: bool, mayBlock: bool): Group {
    if TestWaitCondition(g.bits, wanted, waitForAll) then
      if clearOnExit then g.(bits := Without(g.bits, wanted)) else g
    else if !mayBlock then g
    else g.(waiting := g.waiting + [Waiter(task, Value(wanted, clearOnExit, waitForAll))])
  }

  /** A rendezvous: set some bits, then go on if all wanted bits have been set, else wait for them. */
  function AfterSync(g: Group, task: nat, toSet: Bits, wanted: Bits, mayBlock: bool): Group {
    var g' := AfterSet(g, toSet);
    if Contains(Union(g.bits, toSet), wanted) then g'.(bits := Without(g'.bits, wanted))
    else if !mayBlock then g'
    else g'.(waiting := g'.waiting + [Waiter(task, Value(wanted, true, true))])
  }

  /** A task whose time is up leaves the list. */
  function AfterTimeout(g: Group, k: nat): Group
    requires k < |g.waiting|
  {
    g.(waiting := g.waiting[..k] + g.waiting[k + 1..])
  }

  /** When it runs again it clears the bits if its condition happens to hold by then. */
  function AfterResume(g: Group, wanted: Bits, clearOnExit: bool, waitForAll: bool): Group {
    if TestWaitCondition(g.bits, wanted, waitForAll) && clearOnExit then g.(bits := Without(g.bits, wanted)) else g
  }

  // ---------------------------------------------------------------- nobody waits for what is already there

  ghost predicate WaiterOk(w: Waiter, bits: Bits) {
    Wanted(w.value) != 0 && !Satisfied(w.value, bits)
  }

  ghost predicate Inv(g: Group) {
    forall w :: w in g.waiting ==> WaiterOk(w, g.bits)
  }

  lemma ClearingKeepsWaiter(w: Waiter, bits: Bits, cleared: Bits)
    requires WaiterOk(w, bits)
    ensures WaiterOk(w, Without(bits, cleared))
  {
    hide Wanted, Without, Satisfied;
    ClearingSatisfiesNobody(w.value, bits, cleared);
  }

  lemma ClearingKeepsInv(g: Group, cleared: Bits)
    requires Inv(g)
    ensures Inv(g.(bits := Without(g.bits, cleared)))
  {
    hide WaiterOk, Without;
    forall w | w in g.waiting
      ensures WaiterOk(w, Without(g.bits, cleared))
    {
      ClearingKeepsWaiter(w, g.bits, cleared);
    }
  }

  lemma SetKeepsInv(g: Group, toSet: Bits)
    requires Inv(g)
    ensures Inv(AfterSet(g, toSet))
  {
    hide Wanted, Without, Satisfied, Union, Chosen;
    ChosenMembers(g.waiting, Union(g.bits, toSet), false);
    var bits := Union(g.bits, toSet);
    var g' := Group(bits, Chosen(g.waiting, bits, false));
    assert Inv(g');
    ClearingKeepsInv(g', ToClear(g.waiting, bits));
  }

  /** After a set, even before bits are cleared again, the remaining waiters are not satisfied. */
  lemma NewWaiterOk(g: Group, wanted: Bits, clearOnExit: bool, waitForAll: bool, task: nat)
    requires wanted & CONTROL_BYTES == 0 && wanted != 0 && !TestWaitCondition(g.bits, wanted, waitForAll)
    requires Inv(g)
    ensures Inv(g.(waiting := g.waiting + [Waiter(task, Value(wanted, clearOnExit, waitForAll))]))
  {
    hide Wanted, Value, WaitsForAll, TestWaitCondition;
    ValueUnpacks(wanted, clearOnExit, waitForAll);
  }

  /** A call on the group. Bits given to it must not be control bits, and bits waited for not be none. */
  datatype Call =
    | SetCall(toSet: Bits)
    | ClearCall(toClear: Bits)
    | WaitCall(task: nat, wanted: Bits, clearOnExit: bool, waitForAll: bool, mayBlock: bool)
    | SyncCall(task: nat, toSet: Bits, wanted: Bits, mayBlock: bool)
    | TimeoutCall(position: nat)
    | ResumeCall(wanted: Bits, clearOnExit: bool, waitForAll: bool)

  predicate Allowed(g: Group, c: Call) {
    match c
    case SetCall(_) => true
    case ClearCall(_) => true
    case WaitCall(_, wanted, _, _, _) => wanted & CONTROL_BYTES == 0 && wanted != 0
    case SyncCall(_, _, wanted, _) => wanted & CONTROL_BYTES == 0 && wanted != 0
    case TimeoutCall(k) => k < |g.waiting|
    case ResumeCall(_, _, _) => true
  }

  function After(g: Group, c: Call): Group
    requires Allowed(g, c)
  {
    match c
    case SetCall(toSet) => AfterSet(g, toSet)
    case ClearCall(toClear) => g.(bits := Without(g.bits, toClear))
    case WaitCall(task, wanted, clearOnExit, waitForAll, mayBlock) =>
      AfterWait(g, task, wanted, clearOnExit, waitForAll, mayBlock)
    case SyncCall(task, toSet, wanted, mayBlock) => AfterSync(g, task, toSet, wanted, mayBlock)
    case TimeoutCall(k) => AfterTimeout(g, k)
    case ResumeCall(wanted, clearOnExit, waitForAll) => AfterResume(g, wanted, clearOnExit, waitForAll)
  }

  lemma SyncKeepsInv(g: Group, task: nat, toSet: Bits, wanted: Bits, mayBlock: bool)
    requires Inv(g) && wanted & CONTROL_BYTES == 0 && wanted != 0
    ensures Inv(AfterSync(g, task, toSet, wanted, mayBlock))
  {
    hide Inv, Union, Without, Contains, ToClear;
    var bits := Union(g.bits, toSet);
    var g' := AfterSet(g, toSet);
    SetKeepsInv(g, toSet);
    if Contains(bits, wanted) {
      ClearingKeepsInv(g', wanted);
    } else if mayBlock {
      WithoutLess(bits, ToClear(g.waiting, bits), wanted);
      NewWaiterOk(g', wanted, true, true, task);
    }
  }

  lemma CallKeepsInv(g: Group, c: Call)
    requires Inv(g) && Allowed(g, c)
    ensures Inv(After(g, c))
  {
    hide Inv, Union, Without, Contains, Meets, Value, AfterSet, AfterSync;
    match c
    case SetCall(toSet) => SetKeepsInv(g, toSet);
    case ClearCall(toClear) => ClearingKeepsInv(g, toClear);
    case WaitCall(task, wanted, clearOnExit, waitForAll, mayBlock) =>
      if TestWaitCondition(g.bits, wanted, waitForAll) {
        ClearingKeepsInv(g, wanted);
      } else {
        NewWaiterOk(g, wanted, clearOnExit, waitForAll, task);
      }
    case SyncCall(task, toSet, wanted, mayBlock) => SyncKeepsInv(g, task, toSet, wanted, mayBlock);
    case TimeoutCall(k) => TimeoutKeepsInv(g, k);
    case ResumeCall(wanted, _, _) => ClearingKeepsInv(g, wanted);
  }

  lemma TimeoutKeepsInv(g: Group, k: nat)
    requires Inv(g) && k < |g.waiting|
    ensures Inv(AfterTimeout(g, k))
  {
    hide WaiterOk;
  }

  /** Every group reachable from an empty one. */
  ghost predicate Run(run: seq<Group>, calls: seq<Call>) {
    && |run| == |calls| + 1 && run[0] == Group(0, [])
    && forall i :: 0 <= i < |calls| ==> Allowed(run[i], calls[i]) && run[i + 1] == After(run[i], calls[i])
  }

  lemma {:induction false} NoBlockedTaskIsSatisfied(run: seq<Group>, calls: seq<Call>, n: nat)
    requires Run(run, calls) && n < |run|
    ensures forall w :: w in run[n].waiting ==> !Satisfied(w.value, run[n].bits)
    ensures Inv(run[n])
  {
    hide After, Allowed, Satisfied, Wanted;
    if n > 0 {
      NoBlockedTaskIsSatisfied(run, calls, n - 1);
      CallKeepsInv(run[n - 1], calls[n - 1]);
    }
  }

  // ---------------------------------------------------------------- rendezvous

  datatype Arrival = Arrival(task: nat, bits: Bits)

  function UnionOf(parts: seq<Arrival>): Bits {
    if parts == [] then 0 else Union(UnionOf(parts[..|parts| - 1]), parts[|parts| - 1].bits)
  }

  function Blocked(parts: seq<Arrival>, all: Bits): seq<Waiter> {
    seq(|parts|, i requires 0 <= i < |parts| => Waiter(parts[i].task, Value(all, true, true)))
  }

  /** The group after the given tasks have arrived at the rendezvous, one after the other. */
  function Arrivals(g: Group, parts: seq<Arrival>, all: Bits): Group {
    if parts == [] then g
    else
      var last := parts[|parts| - 1];
      AfterSync(Arrivals(g, parts[..|parts| - 1], all), last.task, last.bits, all, true)
  }

  lemma UnionFacts(x: Bits, y: Bits, z: Bits)
    ensures Union(Union(x, y), z) == Union(x, Union(y, z))
    ensures Union(x, 0) == x && Without(x, 0) == x
    ensures Union(0, x) == x && Union(x, x) == x
  {
  }

  lemma UnionWithin(x: Bits, y: Bits, all: Bits)
    ensures Contains(all, 0)
    ensures Contains(all, x) && Contains(all, y) ==> Contains(all, Union(x, y))
  {
  }

  /** Bits of the group outside the rendezvous do not help to complete it. */
  lemma CompleteExactly(rest: Bits, parts: Bits, all: Bits)
    requires !Meets(rest, all) && Contains(all, parts)
    ensures Contains(Union(rest, parts), all) <==> parts == all
  {
  }

  lemma {:induction false} PartsWithin(parts: seq<Arrival>, all: Bits)
    requires forall i :: 0 <= i < |parts| ==> Contains(all, parts[i].bits)
    ensures Contains(all, UnionOf(parts))
  {
    hide Contains, Union;
    UnionWithin(0, 0, all);
    if parts != [] {
      var n := |parts| - 1;
      PartsWithin(parts[..n], all);
      UnionWithin(UnionOf(parts[..n]), parts[n].bits, all);
    }
  }

  lemma RendezvousWaiter(all: Bits, bits: Bits)
    requires all & CONTROL_BYTES == 0
    ensures Satisfied(Value(all, true, true), bits) <==> Contains(bits, all)
    ensures ClearsOnExit(Value(all, true, true)) && Wanted(Value(all, true, true)) == all
  {
    hide Value, Wanted, Contains;
    ValueUnpacks(all, true, true);
  }

  /** A task that waits for bits outside the rendezvous, and is not satisfied. */
  ghost predicate Bystander(w: Waiter, bits: Bits, all: Bits) {
    !Meets(Wanted(w.value), all) && !Satisfied(w.value, bits)
  }

  lemma OutsideUnaffected(bits: Bits, part: Bits, wanted: Bits, all: Bits)
    requires !Meets(wanted, all) && Contains(all, part)
    ensures Meets(Union(bits, part), wanted) <==> Meets(bits, wanted)
    ensures Contains(Union(bits, part), wanted) <==> Contains(bits, wanted)
  {
    SameOverlap(bits, part, wanted, all);
  }

  lemma SameOverlap(bits: Bits, part: Bits, wanted: Bits, all: Bits)
    requires wanted & all == 0 && all & part == part
    ensures (bits | part) & wanted == bits & wanted
  {
    assert wanted & part == 0;
  }

  /** The bits of the rendezvous do not satisfy a bystander. */
  lemma BystanderStays(w: Waiter, bits: Bits, part: Bits, all: Bits)
    requires Bystander(w, bits, all) && Contains(all, part)
    ensures !Satisfied(w.value, Union(bits, part))
  {
    hide Wanted, WaitsForAll, Union, Meets, Contains;
    OutsideUnaffected(bits, part, Wanted(w.value), all);
  }

  lemma {:induction false} NoneReleased(ws: seq<Waiter>, bits: Bits)
    requires forall w <- ws :: !Satisfied(w.value, bits)
    ensures Chosen(ws, bits, true) == [] && Chosen(ws, bits, false) == ws && ToClear(ws, bits) == 0
  {
    hide Satisfied, Union;
    if ws != [] {
      var n := |ws| - 1;
      assert forall w <- ws[..n] :: w in ws;
      NoneReleased(ws[..n], bits);
      UnionFacts(0, 0, 0);
      assert ws == ws[..n] + [ws[n]];
    }
  }

  /** Behind unsatisfied bystanders, those who want the whole rendezvous are released all or none. */
  lemma {:induction false} AllOrNone(others: seq<Waiter>, parts: seq<Arrival>, all: Bits, bits: Bits)
    requires all & CONTROL_BYTES == 0 && forall w <- others :: !Satisfied(w.value, bits)
    ensures var ws := others + Blocked(parts, all);
      && (Contains(bits, all) ==>
        && Chosen(ws, bits, true) == Blocked(parts, all) && Chosen(ws, bits, false) == others
        && ToClear(ws, bits) == if parts == [] then 0 else all)
      && (!Contains(bits, all) ==>
        Chosen(ws, bits, true) == [] && Chosen(ws, bits, false) == ws && ToClear(ws, bits) == 0)
  {
    hide Satisfied, Contains, Value, Chosen, ToClear, ClearsOnExit, Wanted, Union;
    if parts == [] {
      NoneReleased(others, bits);
      assert Blocked(parts, all) == [] && others + [] == others;
    } else {
      var n := |parts| - 1;
      var last := Waiter(parts[n].task, Value(all, true, true));
      AllOrNone(others, parts[..n], all, bits);
      assert Blocked(parts, all) == Blocked(parts[..n], all) + [last];
      var ws := others + Blocked(parts, all);
      var k := |ws| - 1;
      assert ws[..k] == others + Blocked(parts[..n], all) && ws[k] == last && ws[..k + 1] == ws;
      OneMore(ws, k, bits, true);
      OneMore(ws, k, bits, false);
      RendezvousWaiter(all, bits);
      UnionFacts(0, 0, 0);
      UnionFacts(all, 0, 0);
    }
  }

  /** The bits of the rendezvous are free, and everybody else waits for other bits. */
  ghost predicate FreeFor(g: Group, all: Bits) {
    !Meets(g.bits, all) && all & CONTROL_BYTES == 0 && forall w <- g.waiting :: Bystander(w, g.bits, all)
  }

  lemma BystandersStay(g: Group, all: Bits, part: Bits)
    requires FreeFor(g, all) && Contains(all, part)
    ensures forall w <- g.waiting :: !Satisfied(w.value, Union(g.bits, part))
  {
    hide Meets, Contains, Union, Satisfied, Wanted;
    forall w <- g.waiting
      ensures !Satisfied(w.value, Union(g.bits, part))
    {
      BystanderStays(w, g.bits, part, all);
    }
  }

  /** Before the last task has arrived, all who have are blocked, and their bits are set. */
  lemma {:induction false} RendezvousFills(g: Group, parts: seq<Arrival>, all: Bits)
    requires FreeFor(g, all)
    requires forall i :: 0 <= i < |parts| ==> Contains(all, parts[i].bits)
    requires forall k :: 0 <= k <= |parts| ==> UnionOf(parts[..k]) != all
    ensures Arrivals(g, parts, all) == Group(Union(g.bits, UnionOf(parts)), g.waiting + Blocked(parts, all))
  {
    hide Contains, Union, Without, Meets, Value, Chosen, ToClear, Bystander, Satisfied;
    UnionFacts(g.bits, 0, 0);
    if parts == [] {
      assert g.waiting + Blocked(parts, all) == g.waiting;
    } else {
      var n := |parts| - 1;
      forall k | 0 <= k <= n
        ensures UnionOf(parts[..n][..k]) != all
      {
        assert parts[..n][..k] == parts[..k];
      }
      RendezvousFills(g, parts[..n], all);
      var before := Arrivals(g, parts[..n], all);
      var bits := Union(before.bits, parts[n].bits);
      UnionFacts(g.bits, UnionOf(parts[..n]), parts[n].bits);
      UnionFacts(bits, 0, 0);
      PartsWithin(parts, all);
      assert parts[..|parts|] == parts;
      CompleteExactly(g.bits, UnionOf(parts), all);
      BystandersStay(g, all, UnionOf(parts));
      AllOrNone(g.waiting, parts[..n], all, bits);
      assert g.waiting + Blocked(parts, all)
        == g.waiting + Blocked(parts[..n], all) + [Waiter(parts[n].task, Value(all, true, true))];
    }
  }

  /**
    A rendezvous of any number of tasks, in any order of arrival, in a group in which others may wait for
    other bits: the arrival that completes the bits releases exactly the tasks that have come to the
    rendezvous, and the group is then as it was before the first of them came.
    */
  lemma RendezvousCompletes(g: Group, parts: seq<Arrival>, all: Bits)
    requires FreeFor(g, all)
    requires parts != [] && UnionOf(parts) == all
    requires forall i :: 0 <= i < |parts| ==> Contains(all, parts[i].bits)
    requires forall k :: 0 <= k < |parts| ==> UnionOf(parts[..k]) != all
    ensures var n := |parts| - 1;
      && Released(Arrivals(g, parts[..n], all), parts[n].bits) == Blocked(parts[..n], all)
      && Arrivals(g, parts, all) == g
  {
    hide Contains, Union, Without, Meets, Value, Chosen, ToClear, Bystander, Satisfied;
    var n := |parts| - 1;
    forall k | 0 <= k <= n
      ensures UnionOf(parts[..n][..k]) != all
    {
      assert parts[..n][..k] == parts[..k];
    }
    RendezvousFills(g, parts[..n], all);
    var before := Arrivals(g, parts[..n], all);
    var bits := Union(before.bits, parts[n].bits);
    UnionFacts(g.bits, UnionOf(parts[..n]), parts[n].bits);
    PartsWithin(parts, all);
    CompleteExactly(g.bits, UnionOf(parts), all);
    BystandersStay(g, all, all);
    AllOrNone(g.waiting, parts[..n], all, bits);
    ClearedAgain(g.bits, all);
  }

  /** Setting free bits and clearing them again, once or twice, changes nothing. */
  lemma ClearedAgain(bits: Bits, all: Bits)
    requires !Meets(bits, all)
    ensures Without(Without(Union(bits, all), all), all) == bits
    ensures Without(Without(Union(bits, all), 0), all) == bits
  {
  }

  // ---------------------------------------------------------------- the code

  /** The set-bits loop's test of one list item, on control and event bits. */
  predicate MatchFound(control: Bits, wanted: Bits, bits: Bits) {
    if control & WAIT_FOR_ALL_BITS == 0 then wanted & bits != 0 else wanted & bits == wanted
  }

  function Control(value: Bits): Bits {
    value & CONTROL_BYTES
  }

  function Event(value: Bits): Bits {
    value & !CONTROL_BYTES
  }

  predicate ClearRequested(control: Bits) {
    control & CLEAR_EVENTS_ON_EXIT_BIT != 0
  }

  lemma ControlKept(value: Bits)
    ensures Control(value) & WAIT_FOR_ALL_BITS == value & WAIT_FOR_ALL_BITS
    ensures ClearRequested(Control(value)) <==> ClearsOnExit(value)
    ensures Event(value) == Wanted(value)
  {
    assert value & CONTROL_BYTES & CLEAR_EVENTS_ON_EXIT_BIT == value & CLEAR_EVENTS_ON_EXIT_BIT;
  }

  lemma MatchIsTest(control: Bits, value: Bits, wanted: Bits, bits: Bits)
    requires control & WAIT_FOR_ALL_BITS == value & WAIT_FOR_ALL_BITS
    ensures MatchFound(control, wanted, bits) <==> TestWaitCondition(bits, wanted, WaitsForAll(value))
  {
    assert wanted & bits == bits & wanted;
  }

  lemma MatchIsSatisfied(value: Bits, bits: Bits)
    ensures MatchFound(Control(value), Event(value), bits) <==> Satisfied(value, bits)
    ensures ClearRequested(Control(value)) <==> ClearsOnExit(value)
    ensures Event(value) == Wanted(value)
  {
    hide Control, Wanted, Event, MatchFound, TestWaitCondition, WaitsForAll, ClearRequested, ClearsOnExit;
    ControlKept(value);
    MatchIsTest(Control(value), value, Wanted(value), bits);
  }

  lemma NoneYet(bits: Bits)
    ensures Chosen([], bits, true) == [] && Chosen([], bits, false) == [] && ToClear([], bits) == 0
    ensures Woken([], bits) == []
  {
  }

  lemma WokenMore(ws: seq<Waiter>, w: Waiter, bits: Bits)
    ensures Woken(ws + [w], bits) == Woken(ws, bits) + [Waiter(w.task, Union(bits, UNBLOCKED_DUE_TO_BIT_SET))]
  {
    hide Union;
  }

  lemma OneMore(ws: seq<Waiter>, i: nat, bits: Bits, satisfied: bool)
    requires i < |ws|
    ensures Chosen(ws[..i + 1], bits, satisfied) ==
      Chosen(ws[..i], bits, satisfied) + if Satisfied(ws[i].value, bits) == satisfied then [ws[i]] else []
    ensures ToClear(ws[..i + 1], bits) == Union(ToClear(ws[..i], bits), ClearedBy(ws[i], bits))
  {
    hide Satisfied, ClearedBy, Union;
    assert ws[..i + 1][..i] == ws[..i];
  }

  /** A released task finds the bits that released it in its list item, marked as such. */
  function Woken(ws: seq<Waiter>, bits: Bits): (r: seq<Waiter>)
    ensures |r| == |ws|
  {
    seq(|ws|, i requires 0 <= i < |ws| => Waiter(ws[i].task, Union(bits, UNBLOCKED_DUE_TO_BIT_SET)))
  }

  class EventGroup {
    var bits: Bits
    var waiting: seq<Waiter>

    ghost function Current(): Group
      reads this
    {
      Group(bits, waiting)
    }

    constructor ()
      ensures Current() == Group(0, [])
    {
      bits, waiting := 0, [];
    }

    method SetBits(toSet: Bits) returns (now: Bits, woken: seq<Waiter>)
      modifies this
      ensures Current() == AfterSet(old(Current()), toSet) && now == bits
      ensures woken == Woken(Released(old(Current()), toSet), Union(old(bits), toSet))
    {
      hide MatchFound, Satisfied, Wanted, ClearsOnExit, Union, Without, Control, Chosen, ToClear, Event,
          ClearRequested, Woken;
      bits := Union(bits, toSet);
      NoneYet(bits);
      var kept: seq<Waiter> := [];
      var toClear: Bits := 0;
      woken := [];
      for i := 0 to |waiting|
        invariant bits == Union(old(bits), toSet) && waiting == old(waiting)
        invariant kept == Chosen(waiting[..i], bits, false)
        invariant woken == Woken(Chosen(waiting[..i], bits, true), bits)
        invariant toClear == ToClear(waiting[..i], bits)
      {
        var item := waiting[i];
        OneMore(waiting, i, bits, true);
        OneMore(waiting, i, bits, false);
        var control := Control(item.value);
        var wanted := Event(item.value);
        WokenMore(Chosen(waiting[..i], bits, true), item, bits);
        MatchIsSatisfied(item.value, bits);
        UnionFacts(toClear, 0, 0);
        assert kept + [] == kept && Chosen(waiting[..i], bits, true) + [] == Chosen(waiting[..i], bits, true);
        if MatchFound(control, wanted, bits) {
          if ClearRequested(control) {
            toClear := Union(toClear, wanted);
          }
          woken := woken + [Waiter(item.task, Union(bits, UNBLOCKED_DUE_TO_BIT_SET))];
        } else {
          kept := kept + [item];
        }
      }
      assert waiting[..|waiting|] == waiting;
      waiting := kept;
      bits := Without(bits, toClear);
      now := bits;
    }

    method ClearBits(toClear: Bits) returns (before: Bits)
      modifies this
      ensures Current() == After(old(Current()), ClearCall(toClear)) && before == old(bits)
      ensures waiting == old(waiting) && OnlyCleared(old(bits), bits, toClear)
    {
      hide OnlyCleared, Without;
      Cleared(bits, toClear);
      before := bits;
      bits := Without(bits, toClear);
    }

    /** Returns at once if the condition holds or the caller does not wait; else the task is blocked. */
    method WaitBits(task: nat, wanted: Bits, clearOnExit: bool, waitForAll: bool, mayBlock: bool)
      returns (blocked: bool, result: Bits)
      modifies this
      ensures Current() == AfterWait(old(Current()), task, wanted, clearOnExit, waitForAll, mayBlock)
      ensures blocked <==> !TestWaitCondition(old(bits), wanted, waitForAll) && mayBlock
      ensures !blocked ==> result == old(bits) && waiting == old(waiting)
      ensures TestWaitCondition(old(bits), wanted, waitForAll) && clearOnExit ==> OnlyCleared(old(bits), bits, wanted)
      ensures !TestWaitCondition(old(bits), wanted, waitForAll) || !clearOnExit ==> bits == old(bits)
      ensures blocked ==>
        && |waiting| == |old(waiting)| + 1 && waiting[..|waiting| - 1] == old(waiting)
        && (IsEvents(wanted) ==> WaitsFor(waiting[|waiting| - 1], task, wanted, clearOnExit, waitForAll))
    {
      hide TestWaitCondition, Value, Without, OnlyCleared, WaitsFor, IsEvents;
      Cleared(bits, wanted);
      UnpacksFor(task, wanted, clearOnExit, waitForAll);
      blocked, result := false, bits;
      if TestWaitCondition(bits, wanted, waitForAll) {
        if clearOnExit {
          bits := Without(bits, wanted);
        }
      } else if mayBlock {
        waiting := waiting + [Waiter(task, Value(wanted, clearOnExit, waitForAll))];
        blocked := true;
      }
    }

    /** Returns at once if the rendezvous is complete or the caller does not wait; else the task is blocked. */
    method Sync(task: nat, toSet: Bits, wanted: Bits, mayBlock: bool)
      returns (blocked: bool, result: Bits, woken: seq<Waiter>)
      modifies this
      ensures Current() == AfterSync(old(Current()), task, toSet, wanted, mayBlock)
      ensures blocked <==> !Contains(Union(old(bits), toSet), wanted) && mayBlock
      ensures woken == Woken(Released(old(Current()), toSet), Union(old(bits), toSet))
      ensures Contains(Union(old(bits), toSet), wanted) ==> result == Union(old(bits), toSet)
      ensures !blocked && !Contains(Union(old(bits), toSet), wanted) ==> result == bits
      ensures Contains(Union(old(bits), toSet), wanted) ==>
        OnlyCleared(AfterSet(old(Current()), toSet).bits, bits, wanted)
      ensures !Contains(Union(old(bits), toSet), wanted) ==> bits == AfterSet(old(Current()), toSet).bits
      ensures blocked ==>
        waiting != [] && (IsEvents(wanted) ==> WaitsFor(waiting[|waiting| - 1], task, wanted, true, true))
    {
      hide Contains, Value, Without, Union, Chosen, ToClear, Satisfied, OnlyCleared, WaitsFor, IsEvents;
      var original := bits;
      var now;
      now, woken := SetBits(toSet);
      Cleared(bits, wanted);
      UnpacksFor(task, wanted, true, true);
      blocked, result := false, bits;
      if Contains(Union(original, toSet), wanted) {
        result := Union(original, toSet);
        bits := Without(bits, wanted);
      } else if mayBlock {
        waiting := waiting + [Waiter(task, Value(wanted, true, true))];
        blocked := true;
      }
    }

    /** The kernel takes a task whose time is up off the list. */
    method Timeout(k: nat)
      requires k < |waiting|
      modifies this
      ensures Current() == AfterTimeout(old(Current()), k)
      ensures bits == old(bits) && multiset(waiting) == multiset(old(waiting)) - multiset{old(waiting)[k]}
    {
      assert waiting == waiting[..k] + [waiting[k]] + waiting[k + 1..];
      waiting := waiting[..k] + waiting[k + 1..];
    }

    /** The end of a wait that timed out. A rendezvous waits for all bits and clears them. */
    method Resume(wanted: Bits, clearOnExit: bool, waitForAll: bool) returns (result: Bits)
      modifies this
      ensures Current() == AfterResume(old(Current()), wanted, clearOnExit, waitForAll) && result == old(bits)
      ensures Current() == After(old(Current()), ResumeCall(wanted, clearOnExit, waitForAll)) && waiting == old(waiting)
      ensures TestWaitCondition(old(bits), wanted, waitForAll) && clearOnExit ==> OnlyCleared(old(bits), bits, wanted)
      ensures !TestWaitCondition(old(bits), wanted, waitForAll) || !clearOnExit ==> bits == old(bits)
    {
      hide TestWaitCondition, Without, OnlyCleared;
      Cleared(bits, wanted);
      result := bits;
      if TestWaitCondition(bits, wanted, waitForAll) {
        if clearOnExit {
          bits := Without(bits, wanted);
        }
      }
    }
  }
}
