/**
  When a requested write is lost: the exact condition, in every run of the synchronisation, in terms of the
  order of its events.
  */
module LostWrites {
  import opened Properties
  import opened Display
  import opened Synchronisation
  import opened InStep

  type Kind = Event -> bool

  function Requests(i: nat, id: PropId): Kind { (e: Event) => e.Request? && e.i == i && e.id == id }

  function Visits(i: nat): Kind { (e: Event) => e == Visit(i) }

  function Takes(): Kind { (e: Event) => e == TakeShared }

  /** The last event of a kind between two moments, or the first moment if there is none. */
  function Last(events: seq<Event>, s: nat, n: nat, kind: Kind): (r: nat)
    requires s < n <= |events|
    ensures s <= r < n && (r > s ==> kind(events[r]))
    ensures forall k :: r < k < n ==> !kind(events[k])
  {
    if n == s + 1 then s else if kind(events[n - 1]) then n - 1 else Last(events, s, n - 1, kind)
  }

  /** The first one, or the second moment if there is none. */
  function First(events: seq<Event>, s: nat, n: nat, kind: Kind): (r: nat)
    requires s < n <= |events|
    ensures s < r <= n && (r < n ==> kind(events[r]))
    ensures forall k :: s < k < r ==> !kind(events[k])
  {
    if n == s + 1 then n
    else
      var r := First(events, s, n - 1, kind);
      if r == n - 1 && !kind(events[n - 1]) then n else r
  }

  /** From its start to some moment, the communication of a property is under way or its flags are being cleared. */
  ghost predicate UnderWay(run: seq<World>, events: seq<Event>, s: nat, n: nat, id: PropId)
    requires IsRun(run, events)
  {
    s < n <= |events| && events[s] == Start(id) && forall k :: s < k <= n ==> !run[k].task.Elsewhere?
  }

  /** Separate writes: the last request for the property of the module comes after the last visit to it. */
  ghost predicate LateForVisit(events: seq<Event>, s: nat, n: nat, i: nat, id: PropId)
    requires s < n <= |events|
  {
    Last(events, s, n, Requests(i, id)) > Last(events, s, n, Visits(i))
  }

  /**
    A broadcast: module 0's last request comes after its bytes were last taken. For another module: there was
    any request for it since the comparison, or one for module 0 before the bytes were last taken.
    */
  ghost predicate LateForBroadcast(events: seq<Event>, s: nat, n: nat, i: nat, id: PropId)
    requires s < n <= |events|
  {
    if i == 0 then Last(events, s, n, Requests(0, id)) > Last(events, s, n, Takes())
    else Last(events, s, n, Requests(i, id)) > s || First(events, s, n, Requests(0, id)) < Last(events, s, n, Takes())
  }

  /** One step of a communication, or of the clearing after it. */
  ghost predicate Onward(w: World, e: Event, w': World) {
    Inv(w) && Follows(w, e, w') && !w'.task.Elsewhere?
  }

  ghost predicate WriteNoted(w: World, events: seq<Event>, s: nat, n: nat, i: nat, id: PropId)
    requires s < n <= |events|
  {
    var late := LateForVisit(events, s, n, i, id);
    var pending := i < |w.display.modules| && id in w.display.modules[i].pending;
    match w.task
    case Elsewhere => false
    case Talking(p, action, count, visited, got, alike, current) =>
      && p == id && action == Write
      && (late ==> i !in current)
      && (pending && !late && (i in visited || i >= count) ==> i in current)
    case Clearing(p, next, current) =>
      && p == id
      && (late ==> i !in current)
      && (pending && !late && next <= i ==> i in current)
  }

  lemma WriteNotedStep(w: World, w': World, events: seq<Event>, s: nat, n: nat, i: nat, id: PropId)
    requires s < n < |events| && Onward(w, events[n], w')
    requires WriteNoted(w, events, s, n, i, id)
    ensures WriteNoted(w', events, s, n + 1, i, id)
  {
    hide ToBin, Required, Last, First, Known, UpToDate, Disturbed, HeldResized, Arrived, Told, Proper, Compare, Whole;
    LastStep(events, s, n, Requests(i, id));
    LastStep(events, s, n, Visits(i));
  }

  lemma LastStep(events: seq<Event>, s: nat, n: nat, kind: Kind)
    requires s < n < |events|
    ensures Last(events, s, n + 1, kind) == if kind(events[n]) then n else Last(events, s, n, kind)
  {
  }

  lemma FirstStep(events: seq<Event>, s: nat, n: nat, kind: Kind)
    requires s < n < |events|
    ensures First(events, s, n + 1, kind) ==
      if First(events, s, n, kind) < n then First(events, s, n, kind) else if kind(events[n]) then n else n + 1
  {
  }

  ghost predicate BroadcastNoted(w: World, events: seq<Event>, s: nat, n: nat, i: nat, id: PropId)
    requires s < n <= |events|
  {
    var asked := Last(events, s, n, Requests(i, id)) > s;
    var late := LateForBroadcast(events, s, n, i, id);
    var pending := i < |w.display.modules| && id in w.display.modules[i].pending;
    match w.task
    case Elsewhere => false
    case Talking(p, action, count, visited, got, alike, current) =>
      && p == id && action == Broadcast
      && (asked ==> i !in alike) && (!asked && i < count ==> i in alike)
      && (late ==> i !in current)
      && (pending && i >= count ==> if i == 0 then late else asked)
      && (0 in got && i < count && !late ==> i in current)
    case Clearing(p, next, current) =>
      && p == id
      && (late ==> i !in current)
      && (pending && !late && next <= i ==> i in current)
  }

  lemma BroadcastRequested(w: World, w': World, events: seq<Event>, s: nat, n: nat, i: nat, id: PropId)
    requires s < n < |events| && Onward(w, events[n], w') && events[n].Request?
    requires BroadcastNoted(w, events, s, n, i, id) && BroadcastNoted(w, events, s, n, 0, id)
    ensures BroadcastNoted(w', events, s, n + 1, i, id)
  {
    hide ToBin, Required, Last, First, Known, UpToDate, Disturbed, HeldResized, Arrived, LateForBroadcast;
    LateAfterRequest(events, s, n, i, id);
  }

  lemma BroadcastTaken(w: World, w': World, events: seq<Event>, s: nat, n: nat, i: nat, id: PropId)
    requires s < n < |events| && Onward(w, events[n], w') && events[n].TakeShared?
    requires BroadcastNoted(w, events, s, n, i, id) && BroadcastNoted(w, events, s, n, 0, id)
    ensures BroadcastNoted(w', events, s, n + 1, i, id)
  {
    hide ToBin, Required, Last, First, Known, UpToDate, Disturbed, HeldResized, Arrived;
    LastStep(events, s, n, Requests(i, id));
    LastStep(events, s, n, Requests(0, id));
    LastStep(events, s, n, Takes());
    FirstStep(events, s, n, Requests(0, id));
    FirstOrLast(events, s, n, Requests(0, id));
  }

  lemma BroadcastGoesOn(w: World, w': World, events: seq<Event>, s: nat, n: nat, i: nat, id: PropId)
    requires s < n < |events| && Onward(w, events[n], w') && !events[n].Request? && !events[n].TakeShared?
    requires BroadcastNoted(w, events, s, n, i, id) && BroadcastNoted(w, events, s, n, 0, id)
    ensures BroadcastNoted(w', events, s, n + 1, i, id)
  {
    hide ToBin, Required, Last, First, Known, UpToDate, Disturbed, HeldResized, Arrived, LateForBroadcast, Told, Proper;
    LateUnchanged(events, s, n, i, id);
  }

  lemma BroadcastNotedStep(w: World, w': World, events: seq<Event>, s: nat, n: nat, i: nat, id: PropId)
    requires s < n < |events| && Onward(w, events[n], w')
    requires BroadcastNoted(w, events, s, n, i, id) && BroadcastNoted(w, events, s, n, 0, id)
    ensures BroadcastNoted(w', events, s, n + 1, i, id)
  {
    hide Onward, BroadcastNoted;
    if events[n].Request? {
      BroadcastRequested(w, w', events, s, n, i, id);
    } else if events[n].TakeShared? {
      BroadcastTaken(w, w', events, s, n, i, id);
    } else {
      BroadcastGoesOn(w, w', events, s, n, i, id);
    }
  }

  lemma LateAfterRequest(events: seq<Event>, s: nat, n: nat, i: nat, id: PropId)
    requires s < n < |events| && events[n].Request?
    ensures var mine := events[n].i == i && events[n].id == id;
      && LateForBroadcast(events, s, n + 1, i, id) == (LateForBroadcast(events, s, n, i, id) || mine)
      && Last(events, s, n + 1, Requests(i, id)) == if mine then n else Last(events, s, n, Requests(i, id))
  {
    hide Last, First;
    LastStep(events, s, n, Requests(i, id));
    LastStep(events, s, n, Requests(0, id));
    LastStep(events, s, n, Takes());
    FirstStep(events, s, n, Requests(0, id));
    FirstOrLast(events, s, n, Requests(0, id));
  }

  lemma LateUnchanged(events: seq<Event>, s: nat, n: nat, i: nat, id: PropId)
    requires s < n < |events| && !events[n].Request? && !events[n].TakeShared?
    ensures LateForBroadcast(events, s, n + 1, i, id) == LateForBroadcast(events, s, n, i, id)
    ensures Last(events, s, n + 1, Requests(i, id)) == Last(events, s, n, Requests(i, id))
    ensures i > 0 && Last(events, s, n, Requests(i, id)) > s ==> LateForBroadcast(events, s, n, i, id)
  {
    hide Last, First;
    LastStep(events, s, n, Requests(i, id));
    LastStep(events, s, n, Requests(0, id));
    LastStep(events, s, n, Takes());
    FirstStep(events, s, n, Requests(0, id));
  }

  lemma FirstOrLast(events: seq<Event>, s: nat, n: nat, kind: Kind)
    requires s < n <= |events|
    ensures First(events, s, n, kind) < n <==> Last(events, s, n, kind) > s
  {
  }

  lemma StartedNoted(w: World, w': World, events: seq<Event>, s: nat, i: nat, id: PropId)
    requires s < |events| && Inv(w) && Follows(w, events[s], w') && events[s] == Start(id)
    ensures w'.task.Talking? && w'.task.id == id && w'.task.action != Nothing
    ensures w'.task.action == Write ==> WriteNoted(w', events, s, s + 1, i, id)
    ensures w'.task.action == Broadcast ==> BroadcastNoted(w', events, s, s + 1, i, id)
    ensures w'.task.action == Read ==> ReadNoted(w', id)
  {
    hide ToBin, Required, Known, UpToDate;
  }

  /** What was noted at the start of a communication still describes it at any later moment. */
  lemma {:induction false} CommunicationNoted(run: seq<World>, events: seq<Event>, s: nat, n: nat, i: nat, id: PropId)
    requires IsRun(run, events) && UnderWay(run, events, s, n, id)
    ensures run[s + 1].task.Talking?
    ensures run[s + 1].task.action == Write ==> WriteNoted(run[n], events, s, n, i, id)
    ensures run[s + 1].task.action == Broadcast ==>
      BroadcastNoted(run[n], events, s, n, i, id) && BroadcastNoted(run[n], events, s, n, 0, id)
    ensures run[s + 1].task.action == Read ==> ReadNoted(run[n], id)
  {
    hide Inv, Step, Enabled, WriteNoted, BroadcastNoted, ReadNoted;
    assert Follows(run[n - 1], events[n - 1], run[n]);
    RunKeepsInv(run, events, n - 1);
    if n == s + 1 {
      StartedNoted(run[s], run[n], events, s, i, id);
      StartedNoted(run[s], run[n], events, s, 0, id);
    } else {
      CommunicationNoted(run, events, s, n - 1, i, id);
      if run[s + 1].task.action == Write {
        WriteNotedStep(run[n - 1], run[n], events, s, n - 1, i, id);
      } else if run[s + 1].task.action == Broadcast {
        BroadcastNotedStep(run[n - 1], run[n], events, s, n - 1, i, id);
        BroadcastNotedStep(run[n - 1], run[n], events, s, n - 1, 0, id);
      } else if run[s + 1].task.action == Read {
        ReadNotedStep(run[n - 1], events[n - 1], run[n], id);
      }
    }
  }

  /** A read takes nothing from the model. */
  ghost predicate ReadNoted(w: World, id: PropId) {
    match w.task
    case Elsewhere => false
    case Talking(p, action, count, visited, got, alike, current) => p == id && action == Read && current == {}
    case Clearing(p, next, current) => p == id && current == {}
  }

  lemma ReadNotedStep(w: World, e: Event, w': World, id: PropId)
    requires Follows(w, e, w') && !w'.task.Elsewhere? && ReadNoted(w, id)
    ensures ReadNoted(w', id)
  {
    hide ToBin, Required, Disturbed, HeldResized, Arrived;
  }

  /** Every clearing belongs to a communication that was started before. */
  lemma {:induction false} CommunicationExists(run: seq<World>, events: seq<Event>, n: nat)
    requires IsRun(run, events) && n < |run| && !run[n].task.Elsewhere?
    ensures exists s :: UnderWay(run, events, s, n, run[n].task.id)
  {
    hide Inv, Required, ToBin;
    var before, e := run[n - 1], events[n - 1];
    assert Follows(before, e, run[n]);
    if before.task.Elsewhere? {
      assert UnderWay(run, events, n - 1, n, run[n].task.id);
    } else {
      CommunicationExists(run, events, n - 1);
      var s :| UnderWay(run, events, s, n - 1, before.task.id);
      assert UnderWay(run, events, s, n, run[n].task.id);
    }
  }

  /** When the flag of a pending write is cleared, the write is lost under exactly this condition. */
  ghost predicate ComesLate(action: Action, events: seq<Event>, s: nat, c: nat, i: nat, id: PropId)
    requires s < c <= |events|
  {
    match action
    case Write => LateForVisit(events, s, c, i, id)
    case Broadcast => LateForBroadcast(events, s, c, i, id)
    case _ => true
  }

  /**
    In every run, when the task clears a module's flag, the pending write is lost if and only if it came late:
    with separate writes, if its last request came after the last visit, at which the bytes were taken; with
    a broadcast, if it came after the comparison or module 0 was changed between the comparison and the
    taking of its bytes, and for module 0 itself after the taking; with a read, always.
    */
  lemma LostIff(run: seq<World>, events: seq<Event>, s: nat, c: nat, i: nat, id: PropId)
    requires IsRun(run, events) && c < |events| && UnderWay(run, events, s, c, id)
    requires events[c] == ClearNext && run[c].task == Clearing(id, i, run[c].task.current)
    requires i < |run[c].display.modules| && id in run[c].display.modules[i].pending
    ensures run[s + 1].task.Talking? && run[s + 1].task.action != Nothing
    ensures (i, id) in run[c + 1].lost <==> ComesLate(run[s + 1].task.action, events, s, c, i, id)
  {
    hide ToBin, Required, LateForVisit, LateForBroadcast, Known, UpToDate;
    CommunicationNoted(run, events, s, c, i, id);
    RunKeepsInv(run, events, s);
    RunKeepsInv(run, events, c);
    assert Follows(run[s], events[s], run[s + 1]);
    StartedNoted(run[s], run[s + 1], events, s, i, id);
    assert Follows(run[c], events[c], run[c + 1]);
  }

  /** Nothing else makes a write lost, and only a new request or the module's removal ends it. */
  lemma LostOnlyByClearing(w: World, e: Event, i: nat, id: PropId)
    requires Inv(w) && Enabled(w, e) && i < |w.held|
    ensures (i, id) in Step(w, e).lost <==>
      if e == ClearNext && w.task.id == id && w.task.next == i && id in w.display.modules[i].pending
      then i !in w.task.current
      else (i, id) in w.lost && !(e.Request? && e.i == i && e.id == id) && !(e.Resize? && e.count <= i)
  {
    hide ToBin, Required;
  }
}
