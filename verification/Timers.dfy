/**
  The timer daemon: active timers wait in two sorted lists, one for expiries before the tick counter
  next overflows and one for those after. Ticks are 32-bit; unbounded time exists only in ghost state.
  */
module Timers {
  import opened LinkedList
  import Arithmetic

  /** The tick counter counts modulo this. */
  const M: nat := MAX_VALUE + 1

  datatype Timer = Timer(period: nat, autoReload: bool, active: bool)

  /** A list item: the timer that owns it and its 32-bit expiry time. */
  datatype Entry = Entry(timer: nat, value: nat)

  // ---------------------------------------------------------------- modular ticks against unbounded time

  function Epoch(t: nat): nat {
    t / M
  }

  function Tick(t: nat): (v: nat)
    ensures v < M
  {
    t % M
  }

  /** The tick counter is the low 32 bits of the ticks that have passed. */
  lemma TickIsLow(t: nat)
    ensures Tick(t) == t % 0x1_0000_0000
  {
  }

  lemma TickFacts(t: nat)
    ensures t == Epoch(t) * M + Tick(t)
  {
  }

  /** Less than one wrap apart, the tick counter ran backwards exactly when it overflowed, and then once. */
  lemma OverflowDetected(earlier: nat, later: nat)
    requires earlier <= later < earlier + M
    ensures Tick(later) < Tick(earlier) <==> Epoch(later) != Epoch(earlier)
    ensures Epoch(later) == Epoch(earlier) || Epoch(later) == Epoch(earlier) + 1
    ensures (Tick(later) + M - Tick(earlier)) % M == later - earlier
  {
  }

  datatype Placement = ProcessNow | InOverflow | InCurrent

  /** The time n periods after t. */
  function Later(t: nat, n: nat, period: nat): nat {
    t + n * period
  }

  /** The comparisons of prvInsertTimerInActiveList on 32-bit values. */
  function Placed(nextExpiry: nat, timeNow: nat, commandTime: nat, period: nat): Placement {
    if nextExpiry <= timeNow then
      if (timeNow + M - commandTime) % M >= period then ProcessNow else InOverflow
    else
      if timeNow < commandTime && nextExpiry >= commandTime then ProcessNow else InCurrent
  }

  /** The comparisons decide correctly for a command issued at c and handled less than one wrap later, at t. */
  lemma PlacedRight(c: nat, period: nat, t: nat)
    requires c <= t < c + M && 0 < period < M
    ensures var p := Placed(Tick(c + period), Tick(t), Tick(c), period);
      && (p == ProcessNow <==> c + period <= t)
      && (p == InCurrent ==> c + period > t && Epoch(c + period) == Epoch(t))
      && (p == InOverflow ==> c + period > t && Epoch(c + period) == Epoch(t) + 1)
  {
    OverflowDetected(c, t);
    OverflowDetected(c, c + period);
  }

  // ---------------------------------------------------------------- the state and its invariant

  datatype State = State(timers: map<nat, Timer>, current: seq<Entry>, overflow: seq<Entry>)

  /**
    What happened in unbounded time: the present, and for each timer its next expiry, when it was last
    started, and how often its callback has run since.
    */
  datatype History = History(now: nat, due: map<nat, nat>, start: map<nat, nat>, fired: map<nat, nat>)

  function Values(list: seq<Entry>): (vs: seq<nat>)
    ensures |vs| == |list|
  {
    seq(|list|, i requires 0 <= i < |list| => list[i].value)
  }

  ghost predicate Lists(list: seq<Entry>, id: nat) {
    exists i :: 0 <= i < |list| && list[i].timer == id
  }

  ghost predicate Listed(s: State, id: nat) {
    Lists(s.current, id) || Lists(s.overflow, id)
  }

  /** A list holds, in order, the expiries that fall into one epoch of the tick counter. */
  ghost predicate ListOk(list: seq<Entry>, epoch: nat, due: map<nat, nat>) {
    && Sorted(Values(list))
    && (forall i :: 0 <= i < |list| ==> list[i].timer in due)
    && (forall i :: 0 <= i < |list| ==> Epoch(due[list[i].timer]) == epoch && list[i].value == Tick(due[list[i].timer]))
    && (forall i, j :: 0 <= i < j < |list| ==> list[i].timer != list[j].timer)
  }

  /** An active timer has fired for every period that has passed, up to the one it is waiting for. */
  ghost predicate TimerOk(t: Timer, due: nat, start: nat, fired: nat, now: nat) {
    && due == Later(start, fired + 1, t.period)
    && due <= now + t.period
    && (!t.autoReload ==> fired == 0)
  }

  ghost predicate HistoryOk(s: State, h: History) {
    && s.timers.Keys == h.due.Keys == h.start.Keys == h.fired.Keys
    && (forall id <- s.timers :: 0 < s.timers[id].period < M)
  }

  /** The invariant, except that the timers in busy are just being handled. */
  ghost predicate Inv(s: State, h: History, busy: set<nat>) {
    && HistoryOk(s, h)
    && ListOk(s.current, Epoch(h.now), h.due)
    && ListOk(s.overflow, Epoch(h.now) + 1, h.due)
    && (forall id <- s.timers :: !(Lists(s.current, id) && Lists(s.overflow, id)))
    && (forall id <- s.timers :: id !in busy ==>
          && (s.timers[id].active <==> Listed(s, id))
          && (s.timers[id].active ==> TimerOk(s.timers[id], h.due[id], h.start[id], h.fired[id], h.now)))
  }

  /** Nothing that has expired is still waiting. */
  ghost predicate CaughtUp(s: State, h: History) {
    s.current == [] || Tick(h.now) < s.current[0].value
  }

  lemma LaterInEpoch(list: seq<Entry>, due: map<nat, nat>, now: nat, i: nat)
    requires ListOk(list, Epoch(now), due) && i < |list| && Tick(now) < list[0].value
    ensures due[list[i].timer] > now
  {
    assert Values(list)[0] <= Values(list)[i];
    TickFacts(due[list[i].timer]);
    TickFacts(now);
  }

  lemma ListedIsLater(s: State, h: History, id: nat)
    requires Inv(s, h, {}) && CaughtUp(s, h) && Listed(s, id)
    ensures id in h.due && h.due[id] > h.now
  {
    hide Sorted, Values;
    if Lists(s.current, id) {
      var i :| 0 <= i < |s.current| && s.current[i].timer == id;
      LaterInEpoch(s.current, h.due, h.now, i);
    }
  }

  /**
    The daemon's promise. Whenever it has caught up, an active auto-reload timer started at C with period
    P has run its callback exactly (now - C) / P times, over any number of tick overflows; and an active
    one-shot timer has not fired and is not due.
    */
  lemma CaughtUpFiredExactly(s: State, h: History, id: nat)
    requires Inv(s, h, {}) && CaughtUp(s, h)
    requires id in s.timers && s.timers[id].active
    ensures id in h.start && id in h.fired && h.start[id] <= h.now
    ensures s.timers[id].autoReload ==> h.fired[id] == (h.now - h.start[id]) / s.timers[id].period
    ensures !s.timers[id].autoReload ==> h.fired[id] == 0 && h.now < h.start[id] + s.timers[id].period
  {
    hide Listed, ListOk;
    ListedIsLater(s, h, id);
    var p, f := s.timers[id].period, h.fired[id];
    assert (f + 1) * p == f * p + p;
    Arithmetic.QuotientIs(h.now - h.start[id], p, f);
  }

  // ---------------------------------------------------------------- insertion and removal keep the invariant

  function InsertEntry(list: seq<Entry>, e: Entry): (r: seq<Entry>)
    ensures |r| == |list| + 1
  {
    InsertAt(list, InsertPosition(Values(list), e.value), e)
  }

  /** The number of entries of a sorted list that have expired by the given tick. */
  function Pending(list: seq<Entry>, tick: nat): nat {
    InsertPosition(Values(list), tick)
  }

  lemma ValuesInsert(list: seq<Entry>, k: nat, e: Entry)
    requires k <= |list|
    ensures Values(InsertAt(list, k, e)) == InsertAt(Values(list), k, e.value)
  {
  }

  lemma ListInsert(list: seq<Entry>, epoch: nat, due: map<nat, nat>, id: nat, d: nat)
    requires ListOk(list, epoch, due) && !Lists(list, id) && Epoch(d) == epoch
    ensures ListOk(InsertEntry(list, Entry(id, Tick(d))), epoch, due[id := d])
    ensures forall n :: Lists(InsertEntry(list, Entry(id, Tick(d))), n) <==> n == id || Lists(list, n)
  {
    hide Sorted, Values, Epoch, Tick;
    var e := Entry(id, Tick(d));
    var k := InsertPosition(Values(list), e.value);
    var r := InsertEntry(list, e);
    InsertKeepsSorted(Values(list), e.value);
    ValuesInsert(list, k, e);
    InsertLists(list, k, e);
    forall i | 0 <= i < |r|
      ensures r[i].timer in due[id := d] && Epoch(due[id := d][r[i].timer]) == epoch
        && r[i].value == Tick(due[id := d][r[i].timer])
    {
      assert r[i] == if i < k then list[i] else if i == k then e else list[i - 1];
    }
  }

  lemma InsertLists(list: seq<Entry>, k: nat, e: Entry)
    requires k <= |list| && !Lists(list, e.timer) && forall i, j :: 0 <= i < j < |list| ==>
      list[i].timer != list[j].timer
    ensures var r := InsertAt(list, k, e);
      && (forall n :: Lists(r, n) <==> n == e.timer || Lists(list, n))
      && (forall i, j :: 0 <= i < j < |r| ==> r[i].timer != r[j].timer)
  {
    var r := InsertAt(list, k, e);
    assert r[k] == e;
    forall n | Lists(list, n)
      ensures Lists(r, n)
    {
      var i :| 0 <= i < |list| && list[i].timer == n;
      assert r[if i < k then i else i + 1].timer == n;
    }
  }

  lemma ListElsewhere(list: seq<Entry>, epoch: nat, due: map<nat, nat>, id: nat, d: nat)
    requires ListOk(list, epoch, due) && !Lists(list, id)
    ensures ListOk(list, epoch, due[id := d])
  {
    hide Sorted, Values;
    assert forall i :: 0 <= i < |list| ==> list[i].timer != id;
  }

  /** A later expiry does not change how many entries have expired. */
  lemma PendingInsert(list: seq<Entry>, e: Entry, tick: nat)
    requires Sorted(Values(list)) && tick < e.value
    ensures Pending(InsertEntry(list, e), tick) == Pending(list, tick)
  {
    var vs := Values(list);
    var k := InsertPosition(vs, e.value);
    var p := InsertPosition(vs, tick);
    ValuesInsert(list, k, e);
    InsertKeepsSorted(vs, e.value);
    InsertKeepsSorted(vs, tick);
    InsertPositionIs(InsertAt(vs, k, e.value), tick, p);
  }

  lemma HeadRemoved(list: seq<Entry>, epoch: nat, due: map<nat, nat>)
    requires ListOk(list, epoch, due) && list != []
    ensures ListOk(list[1..], epoch, due)
    ensures !Lists(list[1..], list[0].timer)
    ensures forall n :: n != list[0].timer ==> (Lists(list[1..], n) <==> Lists(list, n))
  {
    assert Values(list[1..]) == Values(list)[1..];
    forall n | n != list[0].timer && Lists(list, n)
      ensures Lists(list[1..], n)
    {
      var i :| 0 <= i < |list| && list[i].timer == n;
      assert list[1..][i - 1].timer == n;
    }
  }

  lemma PendingHead(list: seq<Entry>, tick: nat)
    requires list != [] && list[0].value <= tick
    ensures Pending(list, tick) == Pending(list[1..], tick) + 1
  {
    assert Values(list[1..]) == Values(list)[1..];
  }

  /** The state and history once a timer waits for d. */
  function Waiting(s: State, now: nat, id: nat, d: nat): State {
    var e := Entry(id, Tick(d));
    if Epoch(d) == Epoch(now) then s.(current := InsertEntry(s.current, e))
    else s.(overflow := InsertEntry(s.overflow, e))
  }

  lemma InsertKeepsInv(s: State, h: History, busy: set<nat>, id: nat, d: nat)
    requires Inv(s, h, busy) && id in busy && id in s.timers && !Listed(s, id)
    requires Epoch(d) == Epoch(h.now) || Epoch(d) == Epoch(h.now) + 1
    ensures Inv(Waiting(s, h.now, id, d), h.(due := h.due[id := d]), busy)
    ensures forall n :: Listed(Waiting(s, h.now, id, d), n) <==> n == id || Listed(s, n)
  {
    hide ListOk, Lists, InsertEntry, TimerOk;
    if Epoch(d) == Epoch(h.now) {
      ListInsert(s.current, Epoch(h.now), h.due, id, d);
      ListElsewhere(s.overflow, Epoch(h.now) + 1, h.due, id, d);
    } else {
      ListInsert(s.overflow, Epoch(h.now) + 1, h.due, id, d);
      ListElsewhere(s.current, Epoch(h.now), h.due, id, d);
    }
  }

  /** The head has expired: out of the list, and inactive unless it reloads. */
  function HeadTaken(s: State): State
    requires s.current != []
  {
    var id := s.current[0].timer;
    State(if id in s.timers && !s.timers[id].autoReload
        then s.timers[id := s.timers[id].(active := false)] else s.timers,
          s.current[1..], s.overflow)
  }

  lemma HeadTakenKeepsInv(s: State, h: History, busy: set<nat>)
    requires Inv(s, h, busy) && s.current != []
    ensures s.current[0].timer in s.timers
    ensures Inv(HeadTaken(s), h, busy + {s.current[0].timer})
    ensures !Listed(HeadTaken(s), s.current[0].timer)
    ensures forall n :: n != s.current[0].timer ==> (Listed(HeadTaken(s), n) <==> Listed(s, n))
  {
    hide ListOk, Lists, TimerOk;
    HeadIsListed(s, h);
    HeadRemoved(s.current, Epoch(h.now), h.due);
  }

  lemma HeadIsListed(s: State, h: History)
    requires ListOk(s.current, Epoch(h.now), h.due) && s.current != []
    ensures s.current[0].timer in h.due && Lists(s.current, s.current[0].timer)
    ensures Epoch(h.due[s.current[0].timer]) == Epoch(h.now) && s.current[0].value == Tick(h.due[s.current[0].timer])
  {
  }

  /** A handled timer whose own facts hold is no longer busy. */
  lemma NoLongerBusy(s: State, h: History, busy: set<nat>, id: nat)
    requires Inv(s, h, busy) && id in s.timers
    requires s.timers[id].active <==> Listed(s, id)
    requires s.timers[id].active ==> TimerOk(s.timers[id], h.due[id], h.start[id], h.fired[id], h.now)
    ensures Inv(s, h, busy - {id})
  {
    hide ListOk, Lists, TimerOk;
  }

  /** Changing what is recorded about a busy timer does not disturb the others. */
  lemma BusyTimerChanged(s: State, h: History, busy: set<nat>, id: nat, t: Timer, start: nat, fired: nat)
    requires Inv(s, h, busy) && id in busy && id in s.timers && 0 < t.period < M
    ensures Inv(s.(timers := s.timers[id := t]), h.(start := h.start[id := start], fired := h.fired[id := fired]), busy)
    ensures forall n :: Listed(s.(timers := s.timers[id := t]), n) <==> Listed(s, n)
  {
    hide ListOk, Lists, TimerOk;
  }

  /** Within an epoch time passes without effect; between epochs the swapped lists fit the new one. */
  lemma TimePasses(s: State, h: History, busy: set<nat>, t: nat)
    requires Inv(s, h, busy) && h.now <= t
    requires Epoch(t) == Epoch(h.now) || (Epoch(t) == Epoch(h.now) + 1 && s.current == [])
    ensures var s' := if Epoch(t) == Epoch(h.now) then s else State(s.timers, s.overflow, s.current);
      && Inv(s', h.(now := t), busy)
      && forall n :: Listed(s', n) <==> Listed(s, n)
  {
    hide Sorted;
    if Epoch(t) != Epoch(h.now) {
      assert ListOk(s.current, Epoch(t) + 1, h.due);
    }
  }

  /** With nothing to wait for, any time may pass. */
  lemma AnyTimePasses(s: State, h: History, busy: set<nat>, t: nat)
    requires Inv(s, h, busy) && h.now <= t && s.current == [] && s.overflow == []
    ensures Inv(s, h.(now := t), busy)
  {
  }

  /** The present may be a wrap after the last reading only if there is nothing to wait for. */
  ghost predicate InTime(s: State, h: History, t: nat) {
    h.now <= t && (t < h.now + M || (s.current == [] && s.overflow == []))
  }

  // ---------------------------------------------------------------- how long the daemon blocks

  /** The block time handed to the queue. */
  datatype Wait = For(ticks: nat) | Indefinitely

  function BlockTime(s: State, timeNow: nat): Wait
    requires timeNow < M
  {
    if s.current == [] && s.overflow == [] then Indefinitely
    else
      var next := if s.current == [] then 0 else s.current[0].value;
      For((next + M - timeNow) % M)
  }

  /**
    The block time is less than a wrap, and no timer is due before it is over: it ends when the next timer
    is due, or if that is not in the current list when the tick counter overflows. The daemon blocks
    indefinitely only when no timer is active.
    */
  lemma NothingDueWhileBlocked(s: State, h: History)
    requires Inv(s, h, {}) && CaughtUp(s, h)
    ensures var wait := BlockTime(s, Tick(h.now));
      && (wait == Indefinitely <==> forall id <- s.timers :: !s.timers[id].active)
      && (wait.For? ==>
        && wait.ticks < M
        && (forall id <- s.timers :: s.timers[id].active ==> h.due[id] >= h.now + wait.ticks)
        && (s.current != [] ==> s.current[0].timer in h.due && h.due[s.current[0].timer] == h.now + wait.ticks)
        && (s.current == [] ==> Tick(h.now + wait.ticks) == 0))
  {
    hide Sorted, TimerOk;
    TickFacts(h.now);
    if s.current != [] {
      assert Lists(s.current, s.current[0].timer);
      HeadDue(s, h);
    } else if s.overflow != [] {
      assert Lists(s.overflow, s.overflow[0].timer);
      WaitForOverflow(h.now);
    }
    forall id <- s.timers | s.timers[id].active
      ensures BlockTime(s, Tick(h.now)).For? && h.due[id] >= h.now + BlockTime(s, Tick(h.now)).ticks
    {
      assert Listed(s, id);
      DueLater(s, h, id);
    }
  }

  lemma HeadDue(s: State, h: History)
    requires Inv(s, h, {}) && CaughtUp(s, h) && s.current != []
    ensures s.current[0].timer in h.due
    ensures BlockTime(s, Tick(h.now)) == For(h.due[s.current[0].timer] - h.now) && h.due[s.current[0].timer] < h.now + M
  {
    hide Sorted, TimerOk, Lists;
    var due := h.due[s.current[0].timer];
    TickFacts(h.now);
    TickFacts(due);
    Arithmetic.RemainderOfSmall(due - h.now, M);
  }

  lemma WaitForOverflow(now: nat)
    ensures var n := (M - Tick(now)) % M;
      n < M && Tick(now + n) == 0 && now + n <= (Epoch(now) + 1) * M
  {
    TickFacts(now);
    if Tick(now) == 0 {
      Arithmetic.RemainderOfSmall(0, M);
    } else {
      Arithmetic.RemainderOfSmall(M - Tick(now), M);
      Arithmetic.QuotientIs(now + M - Tick(now), M, Epoch(now) + 1);
    }
  }

  lemma DueLater(s: State, h: History, id: nat)
    requires Inv(s, h, {}) && CaughtUp(s, h) && Listed(s, id)
    ensures id in h.due && BlockTime(s, Tick(h.now)).For? && h.due[id] >= h.now + BlockTime(s, Tick(h.now)).ticks
  {
    hide TimerOk;
    if s.current != [] {
      HeadDue(s, h);
    } else {
      WaitForOverflow(h.now);
    }
    TickFacts(h.due[id]);
    if Lists(s.current, id) {
      var i :| 0 <= i < |s.current| && s.current[i].timer == id;
      assert Values(s.current)[0] <= Values(s.current)[i];
      TickFacts(h.due[s.current[0].timer]);
    } else {
      EpochsApart(s, h, id);
    }
  }

  lemma EpochsApart(s: State, h: History, id: nat)
    requires Inv(s, h, {}) && Lists(s.overflow, id)
    ensures id in h.due && h.due[id] >= (Epoch(h.now) + 1) * M
    ensures s.current != [] ==> s.current[0].timer in h.due && h.due[s.current[0].timer] < (Epoch(h.now) + 1) * M
  {
    hide Sorted, TimerOk;
    TickFacts(h.due[id]);
    if s.current != [] {
      TickFacts(h.due[s.current[0].timer]);
    }
  }

  /** Reloading timers and timer periods are left alone; a one-shot timer may have become inactive. */
  ghost predicate SameTimers(a: map<nat, Timer>, b: map<nat, Timer>) {
    && a.Keys == b.Keys
    && forall id <- a :: b[id] == a[id] || (!a[id].autoReload && b[id] == a[id].(active := false))
  }

  /** The same for all timers but one, of which only the reload mode is kept. */
  ghost predicate SameTimersBut(a: map<nat, Timer>, b: map<nat, Timer>, id: nat) {
    && a.Keys == b.Keys
    && (forall n <- a :: n != id ==> b[n] == a[n] || (!a[n].autoReload && b[n] == a[n].(active := false)))
    && (id in a ==> b[id].autoReload == a[id].autoReload)
  }

  /** Commands as the daemon finds them in its queue; a start carries the tick at which it was sent. */
  datatype Command = Start(id: nat, age: nat) | Stop(id: nat) | Change(id: nat, period: nat)

  /** The commands for one timer, in order. */
  function CommandsFor(commands: seq<(nat, Command)>, id: nat): seq<Command> {
    if commands == [] then []
    else
      var n := |commands| - 1;
      CommandsFor(commands[..n], id) + if commands[n].1.id == id then [commands[n].1] else []
  }

  /** The ticks that handling commands takes. */
  function Took(commands: seq<(nat, Command)>): nat {
    if commands == [] then 0 else Took(commands[..|commands| - 1]) + commands[|commands| - 1].0
  }

  function AllCommandsFor(rounds: seq<Round>, id: nat): seq<Command> {
    if rounds == [] then []
    else AllCommandsFor(rounds[..|rounds| - 1], id) + CommandsFor(rounds[|rounds| - 1].commands, id)
  }

  /** What commands make of a timer, apart from a one-shot timer's expiry. */
  function Outcome(t: Timer, commands: seq<Command>): Timer {
    if commands == [] then t
    else
      var before := Outcome(t, commands[..|commands| - 1]);
      match commands[|commands| - 1]
      case Start(_, _) => before.(active := true)
      case Stop(_) => before.(active := false)
      case Change(_, period) => before.(active := true, period := period)
  }

  /** When a command was sent that is handled at some moment; one that is too old counts as sent just now. */
  function Sent(age: nat, clock: nat): (sent: nat)
    ensures age < M && age <= clock ==> sent + age == clock
    ensures age >= M || age > clock ==> sent == clock
  {
    if age < M && age <= clock then clock - age else clock
  }

  /** The last command that starts the timer was handled within a span of time, and the timer counts from then. */
  ghost predicate StartedBy(commands: seq<Command>, before: nat, after: nat, first: nat, last: nat) {
    if commands == [] then after == before
    else
      match commands[|commands| - 1]
      case Start(_, age) => exists at :: first <= at <= last && after == Sent(age, at)
      case Stop(_) => StartedBy(commands[..|commands| - 1], before, after, first, last)
      case Change(_, _) => first <= after <= last
  }

  /** A timer is what the commands make of it, except that a one-shot timer may have expired. */
  ghost predicate Stands(a: Timer, startA: nat, commands: seq<Command>, b: Timer, startB: nat, first: nat, last: nat) {
    && first <= last
    && (b == Outcome(a, commands) || (!a.autoReload && b == Outcome(a, commands).(active := false)))
    && StartedBy(commands, startA, startB, first, last)
  }

  lemma {:induction false} OutcomeIs(t: Timer, commands: seq<Command>)
    ensures Outcome(t, commands).autoReload == t.autoReload
    ensures commands != [] ==> Outcome(t.(active := false), commands) == Outcome(t, commands)
  {
    if |commands| > 1 {
      OutcomeIs(t, commands[..|commands| - 1]);
    }
  }

  lemma {:induction false} OutcomeOfBoth(t: Timer, cs: seq<Command>, ds: seq<Command>)
    ensures Outcome(t, cs + ds) == Outcome(Outcome(t, cs), ds)
  {
    if ds == [] {
      assert cs + ds == cs;
    } else {
      assert (cs + ds)[..|cs + ds| - 1] == cs + ds[..|ds| - 1];
      OutcomeOfBoth(t, cs, ds[..|ds| - 1]);
    }
  }

  lemma {:induction false} StartedByBoth(cs: seq<Command>, ds: seq<Command>, a: nat, b: nat, c: nat,
                                         first: nat, middle: nat, last: nat)
    requires first <= middle <= last && StartedBy(cs, a, b, first, middle) && StartedBy(ds, b, c, middle, last)
    ensures StartedBy(cs + ds, a, c, first, last)
  {
    if ds != [] {
      assert (cs + ds)[..|cs + ds| - 1] == cs + ds[..|ds| - 1];
      if ds[|ds| - 1].Stop? {
        StartedByBoth(cs, ds[..|ds| - 1], a, b, c, first, middle, last);
      }
    } else {
      assert cs + ds == cs;
      if cs != [] && cs[|cs| - 1].Stop? {
        assert cs[..|cs| - 1] + [] == cs[..|cs| - 1];
        StartedByBoth(cs[..|cs| - 1], [], a, b, c, first, middle, last);
      }
    }
  }

  /** One span of time after another. */
  lemma StandsTwice(a: Timer, startA: nat, cs: seq<Command>, b: Timer, startB: nat, ds: seq<Command>,
                    c: Timer, startC: nat, first: nat, middle: nat, last: nat)
    requires Stands(a, startA, cs, b, startB, first, middle) && Stands(b, startB, ds, c, startC, middle, last)
    ensures Stands(a, startA, cs + ds, c, startC, first, last)
  {
    OutcomeOfBoth(a, cs, ds);
    OutcomeIs(a, cs);
    OutcomeIs(Outcome(a, cs), ds);
    StartedByBoth(cs, ds, startA, startB, startC, first, middle, last);
  }

  /**
    So the last command decides: after a stop a timer is inactive; after a start or a change of period a
    reloading timer is active, and after a change any timer has that period and counts from that time.
    */
  lemma LastCommandDecides(a: Timer, startA: nat, commands: seq<Command>, b: Timer, startB: nat, first: nat, last: nat)
    requires Stands(a, startA, commands, b, startB, first, last) && commands != []
    ensures var command := commands[|commands| - 1];
      && (command.Stop? ==> !b.active)
      && (!command.Stop? && a.autoReload ==> b.active)
      && (command.Change? ==> b.period == command.period && first <= startB <= last)
      && (command.Start? ==> exists at :: first <= at <= last && startB == Sent(command.age, at))
  {
    OutcomeIs(a, commands);
  }

  /**
    A round of the daemon's loop: if it blocks, after how many ticks a command wakes it, unless the block time
    is over before; how much later it gets to run; and the commands it then finds, each with the ticks until
    it has been handled.
    */
  datatype Round = Round(wakes: nat, late: nat, commands: seq<(nat, Command)>)

  function Least(a: nat, b: nat): nat {
    if a <= b then a else b
  }

  /**
    The ticks from one look at the tick counter to the next: less than a wrap, unless the daemon blocks
    indefinitely.
    */
  function Slept(blocked: bool, wait: Wait, round: Round): nat {
    if !blocked then Least(round.late, M - 1)
    else
      match wait
      case Indefinitely => round.wakes + round.late
      case For(n) =>
        var asleep := Least(round.wakes, n);
        if asleep < M then asleep + Least(round.late, M - 1 - asleep) else asleep
  }

  // ---------------------------------------------------------------- the daemon

  class TimerDaemon {
    var timers: map<nat, Timer>
    var current: seq<Entry>
    var overflow: seq<Entry>
    var lastTime: nat
    ghost var h: History

    ghost function S(): State
      reads this
    {
      State(timers, current, overflow)
    }

    ghost predicate Valid()
      reads this
    {
      Inv(S(), h, {}) && lastTime == Tick(h.now)
    }

    constructor ()
      ensures Valid() && timers == map[] && h.now == 0
    {
      timers, current, overflow, lastTime := map[], [], [], 0;
      h := History(0, map[], map[], map[]);
    }

    /** A new timer is inactive. */
    method Create(id: nat, period: nat, autoReload: bool)
      requires Valid() && id !in timers && 0 < period < M
      modifies this
      ensures Valid() && timers == old(timers)[id := Timer(period, autoReload, false)] && h.now == old(h.now)
    {
      CreatedKeepsInv(S(), h, id, period, autoReload);
      timers := timers[id := Timer(period, autoReload, false)];
      h := h.(due := h.due[id := 0], start := h.start[id := 0], fired := h.fired[id := 0]);
    }

    static lemma CreatedKeepsInv(s: State, h: History, id: nat, period: nat, autoReload: bool)
      requires Inv(s, h, {}) && id !in s.timers && 0 < period < M
      ensures Inv(s.(timers := s.timers[id := Timer(period, autoReload, false)]),
                  h.(due := h.due[id := 0], start := h.start[id := 0], fired := h.fired[id := 0]), {})
    {
      hide ListOk, Lists, TimerOk;
      UnknownNotListed(s.current, Epoch(h.now), h.due, id);
      UnknownNotListed(s.overflow, Epoch(h.now) + 1, h.due, id);
      ListElsewhere(s.current, Epoch(h.now), h.due, id, 0);
      ListElsewhere(s.overflow, Epoch(h.now) + 1, h.due, id, 0);
    }

    static lemma UnknownNotListed(list: seq<Entry>, epoch: nat, due: map<nat, nat>, id: nat)
      requires ListOk(list, epoch, due) && id !in due
      ensures !Lists(list, id)
    {
    }

    /**
      Puts a timer, whose command or last expiry was at unbounded time c, into the list of its next
      expiry's epoch, unless that has already passed.
      */
    method InsertTimerInActiveList(id: nat, nextExpiry: nat, timeNow: nat, commandTime: nat,
                                   ghost c: nat, ghost busy: set<nat>) returns (processNow: bool)
      requires Inv(S(), h, busy) && id in busy && id in timers && !Listed(S(), id)
      requires c <= h.now < c + M
      requires nextExpiry == Tick(c + timers[id].period) && timeNow == Tick(h.now) && commandTime == Tick(c)
      modifies this`current, this`overflow, this`h
      ensures processNow <==> c + timers[id].period <= h.now
      ensures processNow ==> S() == old(S()) && h == old(h)
      ensures !processNow ==> h == old(h).(due := old(h.due)[id := c + timers[id].period])
      ensures !processNow ==> Inv(S(), h, busy) && forall n :: Listed(S(), n) <==> n == id || old(Listed(S(), n))
      ensures Pending(current, timeNow) == old(Pending(current, timeNow))
    {
      hide Inv, Listed, ListOk, Pending, InsertEntry, Epoch, Tick;
      ghost var s := S();
      ghost var d := c + timers[id].period;
      PlacedFor(s, h, busy, id, c);
      processNow := false;
      if nextExpiry <= timeNow {
        if (timeNow + M - commandTime) % M >= timers[id].period {
          processNow := true;
        } else {
          overflow := InsertEntry(overflow, Entry(id, nextExpiry));
        }
      } else {
        if timeNow < commandTime && nextExpiry >= commandTime {
          processNow := true;
        } else {
          current := InsertEntry(current, Entry(id, nextExpiry));
        }
      }
      if !processNow {
        h := h.(due := h.due[id := d]);
        assert S() == Waiting(s, h.now, id, d);
      }
    }

    /** What is needed to insert a timer: where it belongs, and what the invariant gives there. */
    static lemma PlacedFor(s: State, h: History, busy: set<nat>, id: nat, c: nat)
      requires Inv(s, h, busy) && id in busy && id in s.timers && !Listed(s, id)
      requires c <= h.now < c + M
      ensures 0 < s.timers[id].period < M
      ensures var d := c + s.timers[id].period;
        var p := Placed(Tick(d), Tick(h.now), Tick(c), s.timers[id].period);
        && (p == ProcessNow <==> d <= h.now)
        && (p == InCurrent ==> Epoch(d) == Epoch(h.now))
        && (p == InOverflow ==> Epoch(d) == Epoch(h.now) + 1)
        && (p == InCurrent ==>
             Pending(InsertEntry(s.current, Entry(id, Tick(d))), Tick(h.now)) == Pending(s.current, Tick(h.now)))
        && (p != ProcessNow ==> Inv(Waiting(s, h.now, id, d), h.(due := h.due[id := d]), busy))
        && (p != ProcessNow ==> forall n :: Listed(Waiting(s, h.now, id, d), n) <==> n == id || Listed(s, n))
    {
      hide ListOk, Listed, TimerOk, InsertEntry, Pending;
      var d := c + s.timers[id].period;
      PlacedRight(c, s.timers[id].period, h.now);
      if d > h.now {
        InsertKeepsInv(s, h, busy, id, d);
        if Epoch(d) == Epoch(h.now) {
          ListIsSorted(s.current, Epoch(h.now), h.due);
          PendingInsert(s.current, Entry(id, Tick(d)), Tick(h.now));
        }
      }
    }

    static lemma ListIsSorted(list: seq<Entry>, epoch: nat, due: map<nat, nat>)
      requires ListOk(list, epoch, due)
      ensures Sorted(Values(list))
    {
    }

    /**
      Reinserts an auto-reload timer that expired at unbounded time e, running its callback once for
      every further expiry that has passed meanwhile.
      */
    method ReloadTimer(id: nat, expiredTime: nat, timeNow: nat, ghost e: nat, ghost busy: set<nat>)
      requires Inv(S(), h, busy) && id in busy && id in timers && !Listed(S(), id)
      requires e <= h.now < e + M && expiredTime == Tick(e) && timeNow == Tick(h.now)
      modifies this`current, this`overflow, this`h
      ensures Inv(S(), h, busy) && forall n :: Listed(S(), n) <==> n == id || old(Listed(S(), n))
      ensures h == old(h).(due := old(h.due)[id := h.due[id]], fired := old(h.fired)[id := h.fired[id]])
      ensures h.fired[id] >= old(h.fired[id])
      ensures h.due[id] == Later(e, h.fired[id] - old(h.fired[id]) + 1, timers[id].period)
      ensures h.now < h.due[id] <= h.now + timers[id].period
      ensures Pending(current, timeNow) == old(Pending(current, timeNow))
    {
      hide Inv, Listed, Pending, Epoch, Tick, Counting, Reloaded, Later;
      ghost var s, h0 := S(), h;
      var period := timers[id].period;
      PeriodBounds(s, h, busy, id);
      var expired := expiredTime;
      ghost var x: nat, n: nat := e, 0;
      LaterBounds(e, 0, period);
      TickAdd(x, period);
      StartCounting(s, h, busy, id);
      var again := TryInsert(id, expired, timeNow, x, busy, s, h0, n);
      while again
        invariant expired == Tick(x) && x == Later(e, n, period) && x <= h.now < x + M
        invariant timers == s.timers && h0.now == h.now
        invariant Pending(current, timeNow) == Pending(s.current, timeNow)
        invariant again ==> x + period <= h.now && Counting(s, h0, S(), h, busy, id, n)
        invariant !again ==> h.now < x + period && Reloaded(s, h0, S(), h, busy, id, x + period, n)
        decreases h.now - x, again
      {
        LaterBounds(e, n, period);
        TickAdd(x, period);
        expired := (expired + period) % M;
        CountOne(s, h0, S(), h, busy, id, n);
        h := h.(fired := h.fired[id := h0.fired[id] + n + 1]);
        x, n := x + period, n + 1;
        again := TryInsert(id, expired, timeNow, x, busy, s, h0, n);
      }
      ReloadedFacts(s, h0, S(), h, busy, id, x + period, n);
      LaterBounds(e, n, period);
    }

    /** The loop's condition: insert for the expiry after x, of which the callbacks so far have been counted. */
    method TryInsert(id: nat, expired: nat, timeNow: nat, ghost x: nat, ghost busy: set<nat>,
                     ghost s: State, ghost h0: History, ghost n: nat) returns (again: bool)
      requires Counting(s, h0, S(), h, busy, id, n)
      requires x <= h.now < x + M && expired == Tick(x) && timeNow == Tick(h.now)
      modifies this`current, this`overflow, this`h
      ensures h.now == old(h.now) && Pending(current, timeNow) == old(Pending(current, timeNow))
      ensures again ==> x + s.timers[id].period <= h.now && Counting(s, h0, S(), h, busy, id, n)
      ensures !again ==> h.now < x + s.timers[id].period
      ensures !again ==> Reloaded(s, h0, S(), h, busy, id, x + s.timers[id].period, n)
    {
      hide Inv, Listed, Pending, Epoch, Tick, Counting, Reloaded;
      Counted(s, h0, S(), h, busy, id, n);
      ghost var h1 := h;
      TickAdd(x, timers[id].period);
      again := InsertTimerInActiveList(id, (expired + timers[id].period) % M, timeNow, expired, x, busy);
      if !again {
        CountedAndInserted(s, h0, s, h1, S(), h, busy, id, x + timers[id].period, n);
      }
    }

    // The reload loop between two callbacks, and when it has finished.
    static ghost predicate Counting(s: State, h0: History, s': State, h: History, busy: set<nat>, id: nat, n: nat) {
      && s' == s && id in h0.fired && id in s.timers && id in busy && !Listed(s, id)
      && h == h0.(fired := h0.fired[id := h0.fired[id] + n])
      && Inv(s', h, busy)
    }

    static ghost predicate Reloaded(s: State, h0: History, s': State, h: History, busy: set<nat>, id: nat, d: nat,
        n: nat) {
      && id in h0.fired
      && h == h0.(due := h0.due[id := d], fired := h0.fired[id := h0.fired[id] + n])
      && Inv(s', h, busy)
      && forall m :: Listed(s', m) <==> m == id || Listed(s, m)
    }

    static lemma StartCounting(s: State, h: History, busy: set<nat>, id: nat)
      requires Inv(s, h, busy) && id in busy && id in s.timers && !Listed(s, id)
      ensures Counting(s, h, s, h, busy, id, 0)
    {
      assert h.fired[id := h.fired[id]] == h.fired;
    }

    static lemma CountOne(s: State, h0: History, s': State, h: History, busy: set<nat>, id: nat, n: nat)
      requires Counting(s, h0, s', h, busy, id, n)
      ensures id in h.fired && id in h0.fired
      ensures Counting(s, h0, s', h.(fired := h.fired[id := h0.fired[id] + n + 1]), busy, id, n + 1)
    {
      hide Listed, Inv;
      CallbackRuns(s, h, busy, id, h0.fired[id] + n + 1);
    }

    static lemma Counted(s: State, h0: History, s': State, h: History, busy: set<nat>, id: nat, n: nat)
      requires Counting(s, h0, s', h, busy, id, n)
      ensures s' == s && id in s.timers && id in busy && Inv(s, h, busy) && !Listed(s, id) && h.now == h0.now
    {
    }

    static lemma CountedAndInserted(s: State, h0: History, s1: State, h1: History, s': State, h: History,
                                    busy: set<nat>, id: nat, d: nat, n: nat)
      requires Counting(s, h0, s1, h1, busy, id, n)
      requires h == h1.(due := h1.due[id := d]) && Inv(s', h, busy)
      requires forall m :: Listed(s', m) <==> m == id || Listed(s1, m)
      ensures Reloaded(s, h0, s', h, busy, id, d, n)
    {
      hide Listed, Inv;
    }

    static lemma ReloadedFacts(s: State, h0: History, s': State, h: History, busy: set<nat>, id: nat, d: nat, n: nat)
      requires Reloaded(s, h0, s', h, busy, id, d, n)
      ensures id in h.due && id in h.fired && h.due[id] == d && h.fired[id] == h0.fired[id] + n
      ensures h == h0.(due := h0.due[id := d], fired := h0.fired[id := h0.fired[id] + n])
      ensures Inv(s', h, busy)
      ensures forall m :: Listed(s', m) <==> m == id || Listed(s, m)
    {
      hide Listed, Inv;
    }

    static lemma LaterBounds(t: nat, n: nat, period: nat)
      ensures Later(t, 0, period) == t
      ensures Later(t, n + 1, period) == Later(t, n, period) + period
    {
    }

    static lemma PeriodBounds(s: State, h: History, busy: set<nat>, id: nat)
      requires Inv(s, h, busy) && id in s.timers
      ensures 0 < s.timers[id].period < M && id in h.due && id in h.start && id in h.fired
    {
    }

    static lemma TickAdd(t: nat, p: nat)
      ensures Tick(t + p) == (Tick(t) + p) % M
    {
    }

    static lemma CallbackRuns(s: State, h: History, busy: set<nat>, id: nat, fired: nat)
      requires Inv(s, h, busy) && id in busy && id in s.timers
      ensures id in h.start && id in h.fired
      ensures Inv(s, h.(fired := h.fired[id := fired]), busy)
    {
      hide ListOk, Listed, TimerOk;
      BusyTimerChanged(s, h, busy, id, s.timers[id], h.start[id], fired);
      assert s.timers[id := s.timers[id]] == s.timers;
      assert h.start[id := h.start[id]] == h.start;
    }

    /** Takes the expired head out of the current list, reloads it or makes it inactive, and runs its callback. */
    method ProcessExpiredTimer(nextExpireTime: nat, timeNow: nat, ghost busy: set<nat>)
      requires Inv(S(), h, busy) && forall b <- busy :: !Listed(S(), b)
      requires current != [] && nextExpireTime == current[0].value <= timeNow && timeNow == Tick(h.now)
      modifies this`timers, this`current, this`overflow, this`h
      ensures Inv(S(), h, busy) && forall b <- busy :: !Listed(S(), b)
      ensures SameTimers(old(timers), timers) && h.now == old(h.now) && h.start == old(h.start)
      ensures Pending(current, timeNow) == old(Pending(current, timeNow)) - 1
    {
      hide Inv, Listed, Pending, Tick, TimerOk, Later, HeadTaken;
      ghost var s, h0 := S(), h;
      var id := current[0].timer;
      HeadExpired(s, h, busy);
      HeadTakenKeepsInv(s, h, busy);
      PendingHead(current, timeNow);
      HeadTakenIs(s);
      current := current[1..];
      if timers[id].autoReload {
        ReloadTimer(id, nextExpireTime, timeNow, h.due[id], busy + {id});
        ReloadedOk(timers[id], h0.due[id], h0.start[id], h0.fired[id], h.due[id], h.fired[id], h.now);
      } else {
        timers := timers[id := timers[id].(active := false)];
      }
      ghost var runs := h.fired[id] + 1;
      CallbackRuns(S(), h, busy + {id}, id, runs);
      h := h.(fired := h.fired[id := runs]);
      NoLongerBusy(S(), h, busy + {id}, id);
      assert busy + {id} - {id} == busy;
    }

    static lemma HeadTakenIs(s: State)
      requires s.current != [] && s.current[0].timer in s.timers
      ensures var id := s.current[0].timer;
        HeadTaken(s) == State(if s.timers[id].autoReload
            then s.timers else s.timers[id := s.timers[id].(active := false)],
                              s.current[1..], s.overflow)
    {
    }

    static lemma HeadExpired(s: State, h: History, busy: set<nat>)
      requires Inv(s, h, busy) && forall b <- busy :: !Listed(s, b)
      requires s.current != [] && s.current[0].value <= Tick(h.now)
      ensures var id := s.current[0].timer;
        && id in s.timers && id in h.due && id in h.start && id in h.fired && id !in busy
        && s.timers[id].active && TimerOk(s.timers[id], h.due[id], h.start[id], h.fired[id], h.now)
        && h.due[id] <= h.now < h.due[id] + M && s.current[0].value == Tick(h.due[id])
    {
      hide ListOk, Lists, TimerOk;
      HeadIsListed(s, h);
      var id := s.current[0].timer;
      TickFacts(h.due[id]);
      TickFacts(h.now);
    }

    static lemma ReloadedOk(t: Timer, e: nat, start: nat, fired: nat, d: nat, fired': nat, now: nat)
      requires t.autoReload && TimerOk(t, e, start, fired, now) && fired <= fired'
      requires d == Later(e, fired' - fired + 1, t.period) && d <= now + t.period
      ensures TimerOk(t, d, start, fired' + 1, now)
    {
      assert (fired + 1) * t.period + (fired' - fired + 1) * t.period == (fired' + 2) * t.period;
    }

    /**
      The tick counter has overflowed: everything left in the current list has expired and is processed as
      of the last tick before the overflow, then the lists change places.
      */
    method SwitchTimerLists(ghost t: nat, ghost busy: set<nat>)
      requires Inv(S(), h, busy) && forall b <- busy :: !Listed(S(), b)
      requires h.now <= t && (Epoch(t) == Epoch(h.now) + 1 || (current == [] && overflow == []))
      modifies this`timers, this`current, this`overflow, this`h
      ensures Inv(S(), h, busy) && forall b <- busy :: !Listed(S(), b)
      ensures SameTimers(old(timers), timers) && h.now == t && h.start == old(h.start)
    {
      hide Inv, Listed, Tick, Epoch;
      ghost var idle := current == [] && overflow == [];
      ghost var end := if idle then h.now else EndOfEpoch(h.now);
      if !idle {
        LastTickOfEpoch(h.now, t);
        TimePasses(S(), h, busy, end);
      }
      h := h.(now := end);
      AllPending(S(), h, busy);
      while current != []
        invariant Inv(S(), h, busy) && forall b <- busy :: !Listed(S(), b)
        invariant SameTimers(old(timers), timers) && h.now == end && h.start == old(h.start)
        invariant idle ==> current == [] && overflow == []
        decreases Pending(current, MAX_VALUE)
      {
        AllPending(S(), h, busy);
        ProcessExpiredTimer(current[0].value, MAX_VALUE, busy);
      }
      if idle {
        AnyTimePasses(S(), h, busy, t);
      } else {
        TimePasses(S(), h, busy, t);
      }
      current, overflow := overflow, current;
      h := h.(now := t);
    }

    static ghost function EndOfEpoch(t: nat): nat {
      t - t % M + MAX_VALUE
    }

    static lemma LastTickOfEpoch(now: nat, t: nat)
      requires Epoch(t) == Epoch(now) + 1
      ensures now <= EndOfEpoch(now) < t && Epoch(EndOfEpoch(now)) == Epoch(now)
      ensures Tick(EndOfEpoch(now)) == MAX_VALUE
    {
    }

    static lemma AllPending(s: State, h: History, busy: set<nat>)
      requires Inv(s, h, busy)
      ensures forall i :: 0 <= i < |s.current| ==> s.current[i].value <= MAX_VALUE
    {
      hide Sorted, Values, TimerOk, Lists;
      forall i | 0 <= i < |s.current|
        ensures s.current[i].value <= MAX_VALUE
      {
        TickFacts(h.due[s.current[i].timer]);
      }
    }

    /**
      Reads the tick counter, now at unbounded time t, and switches the lists if it ran backwards. The last
      reading is less than a wrap ago, unless both lists are empty.
      */
    method SampleTimeNow(tick: nat, ghost t: nat, ghost busy: set<nat>) returns (timeNow: nat, switched: bool)
      requires Inv(S(), h, busy) && (forall b <- busy :: !Listed(S(), b)) && lastTime == Tick(h.now)
      requires tick == Tick(t) && InTime(S(), h, t)
      modifies this
      ensures Inv(S(), h, busy) && (forall b <- busy :: !Listed(S(), b)) && lastTime == Tick(h.now)
      ensures timeNow == tick && h.now == t
      ensures t < old(h.now) + M ==> (switched <==> Epoch(t) != Epoch(old(h.now)))
      ensures !switched ==> S() == old(S()) && h == old(h).(now := t)
      ensures SameTimers(old(timers), timers) && h.start == old(h.start)
    {
      hide Inv, Listed, Tick, Epoch;
      timeNow := tick;
      if t < h.now + M {
        OverflowDetected(h.now, t);
      }
      if timeNow < lastTime {
        SwitchTimerLists(t, busy);
        switched := true;
      } else {
        if t < h.now + M {
          TimePasses(S(), h, busy, t);
        } else {
          AnyTimePasses(S(), h, busy, t);
        }
        h := h.(now := t);
        switched := false;
      }
      lastTime := timeNow;
    }

    /**
      One round of the daemon without commands. It looks at the head of the list, samples the time, and
      processes the head if the lists were not switched and it has expired; otherwise it blocks.
      */
    method ProcessTimerOrBlockTask(tick: nat, ghost t: nat) returns (blocked: bool, wait: Wait)
      requires Valid() && tick == Tick(t) && InTime(S(), h, t)
      modifies this
      ensures Valid() && h.now == t && SameTimers(old(timers), timers) && h.start == old(h.start)
      ensures blocked ==> CaughtUp(S(), h) && S() == old(S()) && wait == BlockTime(S(), tick)
      ensures !blocked && Epoch(t) == Epoch(old(h.now)) ==> Pending(current, tick) < old(Pending(current, tick))
    {
      hide Inv, Listed, Tick, Epoch, Pending;
      var listWasEmpty := current == [];
      var nextExpireTime := if listWasEmpty then 0 else current[0].value;
      TickFacts(h.now);
      TickFacts(t);
      var timeNow, switched := SampleTimeNow(tick, t, {});
      blocked, wait := false, For(0);
      if !switched {
        if !listWasEmpty && nextExpireTime <= timeNow {
          ProcessExpiredTimer(nextExpireTime, timeNow, {});
        } else {
          if listWasEmpty {
            listWasEmpty := overflow == [];
          }
          wait := if listWasEmpty then Indefinitely else For((nextExpireTime + M - timeNow) % M);
          blocked := true;
        }
      }
    }

    /** The daemon's loop at one moment: it goes round until it blocks, and then it has caught up. */
    method RunUntilBlocked(tick: nat, ghost t: nat)
      requires Valid() && tick == Tick(t) && InTime(S(), h, t)
      modifies this
      ensures Valid() && h.now == t && CaughtUp(S(), h)
      ensures SameTimers(old(timers), timers) && h.start == old(h.start)
    {
      hide Inv, Listed, Tick, Epoch, Pending;
      var blocked, wait := ProcessTimerOrBlockTask(tick, t);
      while !blocked
        invariant Valid() && h.now == t && SameTimers(old(timers), timers) && h.start == old(h.start)
        invariant blocked ==> CaughtUp(S(), h)
        decreases Pending(current, tick), !blocked
      {
        blocked, wait := ProcessTimerOrBlockTask(tick, t);
      }
    }

    /** A command for a timer that exists, with a period it can have. */
    static ghost predicate Known(timers: map<nat, Timer>, command: Command) {
      command.id in timers && (command.Change? ==> 0 < command.period < M)
    }

    /** Handles a command at a moment of unbounded time; one that starts a timer was sent earlier, or at once. */
    method Handle(command: Command, clock: nat)
      requires Valid() && Known(timers, command) && InTime(S(), h, clock)
      modifies this
      ensures Valid() && h.now == clock && SameTimersBut(old(timers), timers, command.id)
      ensures forall id :: id != command.id && id in h.start ==> id in old(h.start) && h.start[id] == old(h.start[id])
      ensures var id := command.id;
        && id in h.start && id in h.fired && id in old(h.start)
        && match command
           case Start(_, age) =>
             && timers[id].period == old(timers)[id].period
             && (age < M && age <= clock ==> h.start[id] + age == clock)
             && (age >= M || age > clock ==> h.start[id] == clock)
             && (timers[id].active <==> timers[id].autoReload || clock < h.start[id] + timers[id].period)
           case Stop(_) =>
             && !timers[id].active && !Listed(S(), id)
             && timers[id].period == old(timers)[id].period && h.start[id] == old(h.start)[id]
           case Change(_, period) =>
             timers[id].active && timers[id].period == period && h.start[id] == clock && h.fired[id] == 0
    {
      hide Inv, Listed, Epoch, TimerOk;
      PeriodBounds(S(), h, {}, command.id);
      KeysAgree(S(), h);
      match command {
        case Start(id, age) => StartTimer(id, Tick(Sent(age, clock)), Tick(clock), Sent(age, clock), clock);
        case Stop(id) => StopTimer(id, Tick(clock), clock);
        case Change(id, period) => ChangePeriod(id, period, Tick(clock), clock);
      }
      KeysAgree(S(), h);
    }

    /** Handles commands, the first now, each other some ticks after the one before. */
    method HandleAll(commands: seq<(nat, Command)>, start: nat, ghost id: nat) returns (clock: nat)
      requires Valid() && InTime(S(), h, start) && id in timers && forall c <- commands :: c.0 < M && Known(timers, c.1)
      modifies this
      ensures Valid() && InTime(S(), h, clock) && old(timers).Keys == timers.Keys
      ensures id in h.start && id in old(h.start)
      ensures clock == start + Took(commands)
      ensures Stands(old(timers[id]), old(h.start)[id], CommandsFor(commands, id), timers[id], h.start[id], start,
        clock)
    {
      hide Inv, Listed, Tick, Epoch, Stands, CommandsFor, Took;
      clock := start;
      KeysAgree(S(), h);
      StandsStill(timers, h.start, timers, id, start, start);
      NoCommands(id);
      for i := 0 to |commands|
        invariant Valid() && InTime(S(), h, clock) && old(timers).Keys == timers.Keys
        invariant id in h.start && id in old(h.start)
        invariant clock == start + Took(commands[..i])
        invariant Stands(old(timers[id]), old(h.start)[id], CommandsFor(commands[..i], id), timers[id], h.start[id],
          start, clock)
      {
        assert commands[i] in commands;
        ghost var before, started, moment := timers, h.start, clock;
        assert Known(before, commands[i].1);
        Handle(commands[i].1, clock);
        clock := clock + commands[i].0;
        KeysAgree(S(), h);
        StandsAfter(before, started, timers, h.start, commands[i].1, id, moment, clock);
        OneMoreCommand(commands, i, id);
        StandsTwice(old(timers[id]), old(h.start)[id], CommandsFor(commands[..i], id), before[id], started[id],
                    if commands[i].1.id == id then [commands[i].1] else [], timers[id], h.start[id], start, moment,
                        clock);
      }
      assert commands[..|commands|] == commands;
    }

    static lemma KeysAgree(s: State, h: History)
      requires Inv(s, h, {})
      ensures s.timers.Keys == h.start.Keys == h.fired.Keys
    {
    }

    static lemma NoCommands(id: nat)
      ensures CommandsFor([], id) == [] && AllCommandsFor([], id) == [] && Took([]) == 0
    {
    }

    static lemma OneMoreCommand(commands: seq<(nat, Command)>, i: nat, id: nat)
      requires i < |commands|
      ensures CommandsFor(commands[..i + 1], id) ==
        CommandsFor(commands[..i], id) + if commands[i].1.id == id then [commands[i].1] else []
      ensures Took(commands[..i + 1]) == Took(commands[..i]) + commands[i].0
    {
      assert commands[..i + 1][..i] == commands[..i];
    }

    /** What one command does to a timer, if it is for that timer, or as long as it is not. */
    static lemma StandsAfter(a: map<nat, Timer>, startA: map<nat, nat>, b: map<nat, Timer>, startB: map<nat, nat>,
                             command: Command, id: nat, at: nat, last: nat)
      requires at <= last && id in a && id in startA && id in startB && SameTimersBut(a, b, command.id)
      requires id != command.id ==> startB[id] == startA[id]
      requires id == command.id ==>
        && (command.Start? ==>
              && b[id].period == a[id].period && startB[id] == Sent(command.age, at)
              && (b[id].autoReload ==> b[id].active))
        && (command.Stop? ==> !b[id].active && b[id].period == a[id].period && startB[id] == startA[id])
        && (command.Change? ==> b[id].active && b[id].period == command.period && startB[id] == at)
      ensures b.Keys == a.Keys
      ensures Stands(a[id], startA[id], if command.id == id then [command] else [], b[id], startB[id], at, last)
    {
      if command.id == id {
        assert [command][..0] == [];
      }
    }

    /** A moment without commands: only a one-shot timer can have expired. */
    static lemma StandsStill(a: map<nat, Timer>, start: map<nat, nat>, b: map<nat, Timer>, id: nat, first: nat,
        last: nat)
      requires first <= last && id in a && id in start && (a == b || SameTimers(a, b))
      ensures a.Keys == b.Keys && Stands(a[id], start[id], [], b[id], start[id], first, last)
    {
    }

    /** One round: process a timer or block, sleep, and handle the commands found then. */
    method RunRound(round: Round, start: nat, ghost id: nat) returns (clock: nat)
      requires Valid() && InTime(S(), h, start) && id in timers && forall c <- round.commands ::
        c.0 < M && Known(timers, c.1)
      modifies this
      ensures Valid() && InTime(S(), h, clock) && timers.Keys == old(timers).Keys
      ensures id in h.start && id in old(h.start)
      ensures Stands(old(timers[id]), old(h.start)[id], CommandsFor(round.commands, id), timers[id], h.start[id],
        start, clock)
    {
      hide Inv, Listed, Tick, Epoch, CaughtUp, Stands, SameTimers, Pending, CommandsFor;
      KeysAgree(S(), h);
      var blocked, wait := ProcessTimerOrBlockTask(Tick(start), start);
      ghost var between, started := timers, h.start;
      assert InTime(S(), h, h.now + Slept(blocked, wait, round));
      clock := start + Slept(blocked, wait, round);
      ghost var moment := clock;
      StandsStill(old(timers), h.start, timers, id, start, moment);
      clock := HandleAll(round.commands, clock, id);
      StandsTwice(old(timers[id]), old(h.start)[id], [], between[id], started[id], CommandsFor(round.commands, id),
                  timers[id], h.start[id], start, moment, clock);
      assert [] + CommandsFor(round.commands, id) == CommandsFor(round.commands, id);
    }

    /**
      The daemon's loop. In each round it processes a timer or blocks, and then handles the commands it finds.
      It may be scheduled late by any time less than a wrap after it last looked, and when no timer is active
      it may sleep for ever so long. Whenever it has caught up, a timer is what its commands have made of it;
      a reloading timer that is active has fired exactly once per period since it was started; and a one-shot
      timer that is active has not fired.
      */
    method RunDaemon(rounds: seq<Round>, start: nat, ghost id: nat) returns (clock: nat)
      requires Valid() && InTime(S(), h, start) && id in timers
      requires forall r <- rounds :: forall c <- r.commands :: c.0 < M && Known(timers, c.1)
      modifies this
      ensures Valid() && CaughtUp(S(), h) && h.now == clock && timers.Keys == old(timers).Keys
      ensures id in h.start && id in old(h.start)
      ensures Stands(old(timers[id]), old(h.start)[id], AllCommandsFor(rounds, id), timers[id], h.start[id], start,
        clock)
      ensures timers[id].active ==> id in h.fired && h.start[id] <= h.now
      ensures timers[id].active && timers[id].autoReload ==> h.fired[id] == (h.now - h.start[id]) / timers[id].period
      ensures timers[id].active && !timers[id].autoReload ==>
        h.fired[id] == 0 && h.now < h.start[id] + timers[id].period
    {
      hide Inv, Listed, Tick, Epoch, CaughtUp, Stands, SameTimers, Pending, InTime, BlockTime, CommandsFor,
          AllCommandsFor;
      clock := start;
      KeysAgree(S(), h);
      StandsStill(timers, h.start, timers, id, start, start);
      NoCommands(id);
      for i := 0 to |rounds|
        invariant Valid() && InTime(S(), h, clock) && timers.Keys == old(timers).Keys
        invariant id in h.start && id in old(h.start)
        invariant Stands(old(timers[id]), old(h.start)[id], AllCommandsFor(rounds[..i], id), timers[id], h.start[id],
          start, clock)
      {
        assert rounds[i] in rounds;
        ghost var before, started, moment := timers, h.start, clock;
        KnownStill(rounds[i].commands, old(timers), timers);
        clock := RunRound(rounds[i], clock, id);
        OneMoreRound(rounds, i, id);
        StandsTwice(old(timers[id]), old(h.start)[id], AllCommandsFor(rounds[..i], id), before[id], started[id],
                    CommandsFor(rounds[i].commands, id), timers[id], h.start[id], start, moment, clock);
      }
      assert rounds[..|rounds|] == rounds;
      ghost var before, started := timers, h.start;
      RunUntilBlocked(Tick(clock), clock);
      StandsStill(before, started, timers, id, clock, clock);
      StandsTwice(old(timers[id]), old(h.start)[id], AllCommandsFor(rounds, id), before[id], started[id], [],
                  timers[id], h.start[id], start, clock, clock);
      assert AllCommandsFor(rounds, id) + [] == AllCommandsFor(rounds, id);
      if timers[id].active {
        CaughtUpFiredExactly(S(), h, id);
      }
    }

    static lemma OneMoreRound(rounds: seq<Round>, i: nat, id: nat)
      requires i < |rounds|
      ensures AllCommandsFor(rounds[..i + 1], id) ==
        AllCommandsFor(rounds[..i], id) + CommandsFor(rounds[i].commands, id)
    {
      assert rounds[..i + 1][..i] == rounds[..i];
    }

    static lemma KnownStill(commands: seq<(nat, Command)>, a: map<nat, Timer>, b: map<nat, Timer>)
      requires a.Keys == b.Keys && forall c <- commands :: c.0 < M && Known(a, c.1)
      ensures forall c <- commands :: c.0 < M && Known(b, c.1)
    {
    }

    // ---------------------------------------------------------------- commands

    /** Takes a timer out of whichever list it is in. */
    method RemoveIfListed(id: nat)
      requires Valid() && id in timers
      modifies this`current, this`overflow
      ensures Inv(S(), h, {id}) && !Listed(S(), id)
      ensures (old(current) == [] ==> current == []) && (old(overflow) == [] ==> overflow == [])
    {
      hide Inv, Listed, ListOk, Lists;
      ghost var s := S();
      var k := PositionOf(current, id);
      if k < |current| {
        EntryTaken(s, h, id, k, true);
        current := RemoveAt(current, k);
      } else {
        k := PositionOf(overflow, id);
        if k < |overflow| {
          EntryTaken(s, h, id, k, false);
          overflow := RemoveAt(overflow, k);
        } else {
          NotFound(s, h, id);
        }
      }
    }

    static function PositionOf(list: seq<Entry>, id: nat): (k: nat)
      ensures k <= |list|
      ensures k < |list| ==> list[k].timer == id
      ensures k == |list| ==> forall i :: 0 <= i < |list| ==> list[i].timer != id
    {
      if list == [] || list[0].timer == id then 0 else 1 + PositionOf(list[1..], id)
    }

    static lemma EntryTaken(s: State, h: History, id: nat, k: nat, fromCurrent: bool)
      requires Inv(s, h, {}) && id in s.timers
      requires if fromCurrent then k < |s.current| && s.current[k].timer == id
               else k < |s.overflow| && s.overflow[k].timer == id
      ensures var s' := if fromCurrent then s.(current := RemoveAt(s.current, k))
        else s.(overflow := RemoveAt(s.overflow, k));
        Inv(s', h, {id}) && !Listed(s', id)
    {
      hide ListOk, TimerOk, RemoveAt;
      if fromCurrent {
        ListRemove(s.current, Epoch(h.now), h.due, k);
      } else {
        ListRemove(s.overflow, Epoch(h.now) + 1, h.due, k);
      }
    }

    static lemma ListRemove(list: seq<Entry>, epoch: nat, due: map<nat, nat>, k: nat)
      requires ListOk(list, epoch, due) && k < |list|
      ensures ListOk(RemoveAt(list, k), epoch, due)
      ensures Lists(list, list[k].timer)
      ensures forall n :: Lists(RemoveAt(list, k), n) <==> n != list[k].timer && Lists(list, n)
    {
      var r := RemoveAt(list, k);
      assert Values(r) == RemoveAt(Values(list), k);
      RemoveKeepsSorted(Values(list), k);
      forall n | n != list[k].timer && Lists(list, n)
        ensures Lists(r, n)
      {
        var i :| 0 <= i < |list| && list[i].timer == n;
        assert r[if i < k then i else i - 1].timer == n;
      }
    }

    static lemma NotFound(s: State, h: History, id: nat)
      requires Inv(s, h, {}) && id in s.timers
      requires forall i :: 0 <= i < |s.current| ==> s.current[i].timer != id
      requires forall i :: 0 <= i < |s.overflow| ==> s.overflow[i].timer != id
      ensures Inv(s, h, {id}) && !Listed(s, id)
    {
      hide ListOk, TimerOk;
    }

    /** The part every command begins with, up to the timer's new status and period. */
    method Redefine(id: nat, active: bool, period: nat, tick: nat, ghost c: nat, ghost fired: nat, ghost t: nat)
      returns (timeNow: nat)
      requires Valid() && id in timers && tick == Tick(t) && InTime(S(), h, t) && 0 < period < M
      modifies this
      ensures Inv(S(), h, {id}) && !Listed(S(), id) && lastTime == Tick(h.now)
      ensures timeNow == tick && h.now == t && id in timers && SameTimersBut(old(timers), timers, id)
      ensures timers[id].active == active && timers[id].period == period
      ensures id in h.fired && h.start == old(h.start)[id := c] && h.fired[id] == fired
    {
      hide Inv, Listed, Tick, Epoch, TimerOk;
      RemoveIfListed(id);
      var switched;
      timeNow, switched := SampleTimeNow(tick, t, {id});
      var timer := timers[id].(active := active, period := period);
      BusyTimerChanged(S(), h, {id}, id, timer, c, fired);
      timers := timers[id := timer];
      h := h.(start := h.start[id := c], fired := h.fired[id := fired]);
    }

    /** Start or restart, as of unbounded time c, when the command was sent. */
    method StartTimer(id: nat, commandTime: nat, tick: nat, ghost c: nat, ghost t: nat)
      requires Valid() && id in timers && commandTime == Tick(c) && tick == Tick(t)
      requires InTime(S(), h, t) && c <= t < c + M
      modifies this
      ensures Valid() && h.now == t && id in timers && SameTimersBut(old(timers), timers, id)
      ensures timers[id].period == old(timers[id]).period
      ensures h.start == old(h.start)[id := c]
      ensures timers[id].active <==> (timers[id].autoReload || t < c + timers[id].period)
      ensures id in h.fired && (!timers[id].autoReload && !timers[id].active ==> h.fired[id] == 1)
    {
      hide Inv, Listed, Tick, Epoch, TimerOk, Later;
      PeriodBounds(S(), h, {}, id);
      var period := timers[id].period;
      var timeNow := Redefine(id, true, period, tick, c, 0, t);
      TickAdd(c, period);
      var processNow := InsertTimerInActiveList(id, (commandTime + period) % M, timeNow, commandTime, c, {id});
      if processNow {
        ProcessStartedLate(id, (commandTime + period) % M, timeNow, c);
      } else {
        StartedInTime(timers[id], c, h.now);
        NoLongerBusy(S(), h, {id}, id);
        assert {id} - {id} == {};
      }
    }

    /** The command to start the timer at c took longer than a period to arrive: its first expiry has passed. */
    method ProcessStartedLate(id: nat, expiredTime: nat, timeNow: nat, ghost c: nat)
      requires Inv(S(), h, {id}) && id in timers && !Listed(S(), id) && timers[id].active
      requires expiredTime == Tick(c + timers[id].period) && timeNow == Tick(h.now)
      requires c + timers[id].period <= h.now < c + M
      requires id in h.start && id in h.fired && h.start[id] == c && h.fired[id] == 0
      modifies this`timers, this`current, this`overflow, this`h
      ensures Inv(S(), h, {}) && h.now == old(h.now) && h.start == old(h.start) && id in h.fired
      ensures timers == old(timers)[id := old(timers[id]).(active := timers[id].autoReload)]
      ensures !timers[id].autoReload ==> h.fired[id] == 1
    {
      hide Inv, Listed, Tick, Epoch, TimerOk, Later;
      if timers[id].autoReload {
        ReloadTimer(id, expiredTime, timeNow, c + timers[id].period, {id});
        StartedLate(timers[id], c, h.due[id], h.fired[id], h.now);
      } else {
        PeriodBounds(S(), h, {id}, id);
        BusyTimerChanged(S(), h, {id}, id, timers[id].(active := false), c, 0);
        assert h.(start := h.start[id := c], fired := h.fired[id := 0]) == h;
        timers := timers[id := timers[id].(active := false)];
      }
      ghost var runs := h.fired[id] + 1;
      CallbackRuns(S(), h, {id}, id, runs);
      h := h.(fired := h.fired[id := runs]);
      NoLongerBusy(S(), h, {id}, id);
      assert {id} - {id} == {};
    }

    static lemma StartedInTime(t: Timer, c: nat, now: nat)
      requires c <= now
      ensures TimerOk(t, c + t.period, c, 0, now)
    {
    }

    static lemma StartedLate(t: Timer, c: nat, d: nat, fired: nat, now: nat)
      requires t.autoReload && d == Later(c + t.period, fired + 1, t.period) && d <= now + t.period
      ensures TimerOk(t, d, c, fired + 1, now)
    {
      assert t.period + (fired + 1) * t.period == (fired + 2) * t.period;
    }

    /** A stopped (or deleted, statically allocated) timer is inactive and in no list. */
    method StopTimer(id: nat, tick: nat, ghost t: nat)
      requires Valid() && id in timers && tick == Tick(t) && InTime(S(), h, t)
      modifies this
      ensures Valid() && h.now == t && id in timers && !timers[id].active && !Listed(S(), id)
      ensures SameTimersBut(old(timers), timers, id) && h.start == old(h.start)
      ensures timers[id].period == old(timers[id]).period
    {
      hide Inv, Listed, Tick, Epoch, TimerOk;
      PeriodBounds(S(), h, {}, id);
      var _ := Redefine(id, false, timers[id].period, tick, h.start[id], h.fired[id], t);
      NoLongerBusy(S(), h, {id}, id);
      assert {id} - {id} == {};
    }

    /** A new period counts from the moment the command is handled. */
    method ChangePeriod(id: nat, period: nat, tick: nat, ghost t: nat)
      requires Valid() && id in timers && 0 < period < M && tick == Tick(t) && InTime(S(), h, t)
      modifies this
      ensures Valid() && h.now == t && id in timers && timers[id].active && timers[id].period == period
      ensures SameTimersBut(old(timers), timers, id)
      ensures h.start == old(h.start)[id := t] && id in h.fired && h.fired[id] == 0
    {
      hide Inv, Listed, Tick, Epoch, TimerOk;
      var timeNow := Redefine(id, true, period, tick, t, 0, t);
      TickAdd(t, period);
      var _ := InsertTimerInActiveList(id, (timeNow + period) % M, timeNow, timeNow, t, {id});
      StartedInTime(timers[id], t, h.now);
      NoLongerBusy(S(), h, {id}, id);
      assert {id} - {id} == {};
    }
  }
}
