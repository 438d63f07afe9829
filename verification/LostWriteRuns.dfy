/**
  Runs in which writes do get lost: requests while the property is being communicated, while its flags are
  being cleared, and between the comparison for a broadcast and the taking of its bytes.
  */
module LostWriteRuns {
  import opened Values
  import opened Properties
  import opened Display
  import opened Synchronisation

  /** From a start at which nothing is flagged and nothing is known, these events can lead to a world. */
  ghost predicate LeadTo(events: seq<Event>, w: World) {
    exists run :: IsRun(run, events) && run[|events|] == w
  }

  /** A display of one module that has the property to write, and a second value for it. */
  ghost predicate OneModule(m: Module, changed: Module, id: PropId) {
    Whole(m) && HasCompare(id) && m.pending == {id} && OnlyChanges(id, m, changed)
  }

  function Flagless(m: Module): Module { m.(pending := {}) }

  ghost function Alone(m: Module, toWrite: set<PropId>, midway: multiset<PropId>, task: Task,
                       held: Holding, lost: set<(nat, PropId)>): World {
    World(State([m], {}, toWrite), midway, task, [held], lost)
  }

  /** The module is compared, with itself alone, and its bytes are taken. */
  lemma TakenAlone(m: Module, id: PropId)
    requires Whole(m) && HasCompare(id) && m.pending == {id}
    ensures var w0 := Alone(m, {id}, multiset{}, Elsewhere, map[], {});
      var w1 := Alone(m, {id}, multiset{}, Talking(id, Broadcast, 1, {}, map[], {0}, {}), map[], {});
      var w2 := Alone(m, {id}, multiset{}, Talking(id, Broadcast, 1, {}, map[0 := ToBin(id, m)], {0}, {0}), map[], {});
      Follows(w0, Start(id), w1) && Follows(w1, TakeShared, w2)
  {
    hide ToBin, Compare;
    assert Upto(1) == {0} by { assert Upto(0) == {}; }
    var d := State([m], {}, {id});
    assert CanBroadcast(d, id) && Required(d, id) == Broadcast;
    assert Started(d, id) == Talking(id, Broadcast, 1, {}, map[], {0}, {});
    assert (map i: nat | i in Upto(1) :: ToBin(id, m)) == map[0 := ToBin(id, m)];
    assert Shared(d, Started(d, id)).got == map[0 := ToBin(id, m)];
  }

  /** The first value is requested, and the display flagged. */
  lemma AskedAlone(m: Module, id: PropId)
    requires Whole(m) && m.pending == {id}
    ensures var start := Alone(Flagless(m), {}, multiset{}, Elsewhere, map[], {});
      var midway := Alone(m, {}, multiset{id}, Elsewhere, map[], {});
      && AtStart(start) && Follows(start, Request(0, id, Flagless(m)), midway)
      && Follows(midway, FlagDisplay(id, 1), Alone(m, {id}, multiset{}, Elsewhere, map[], {}))
  {
    hide ToBin;
    PendingNotSerialised(id, m, {});
    var nothing: set<(nat, PropId)> := {};
    assert nothing - {(0, id)} == nothing;
    assert {} + {id} == {id};
    assert Flagless(m).(pending := {id}) == m;
  }

  lemma RequestedAlone(m: Module, changed: Module, id: PropId, toWrite: set<PropId>, task: Task,
                       held: Holding)
    requires OneModule(m, changed, id)
    ensures var w := Alone(m, toWrite, multiset{}, task, held, {});
      var asked := Requested(task, 0, id);
      && Follows(w, Request(0, id, changed), Alone(changed, toWrite, multiset{id}, asked, held, {}))
      && Follows(Alone(changed, toWrite, multiset{id}, asked, held, {}), FlagDisplay(id, 1),
                 Alone(changed, toWrite + {id}, multiset{}, asked, held, {}))
  {
    hide ToBin;
    assert changed.pending + {id} == {id};
    assert changed.(pending := {id}) == changed;
    var nothing: set<(nat, PropId)> := {};
    assert nothing - {(0, id)} == nothing;
  }

  lemma SucceededAlone(m: Module, id: PropId, bytes: Option<Wire>, alike: set<nat>, current: set<nat>)
    requires Whole(m)
    ensures Follows(Alone(m, {id}, multiset{},
                          Talking(id, Broadcast, 1, {}, map[0 := bytes], alike, current), map[], {}),
                    Succeed, Alone(m, {}, multiset{}, Clearing(id, 0, current), map[id := bytes], {}))
  {
    hide ToBin, Arrived;
    assert {id} - {id} == {};
    var r := Arrived([map[]], id, map[0 := bytes]);
    assert r == [map[id := bytes]] by {
      assert r[0] == Told(map[], id, bytes);
    }
  }

  lemma ClearedAlone(m: Module, id: PropId, toWrite: set<PropId>, held: Holding)
    requires Whole(m) && m.pending == {id}
    ensures var w := Alone(Flagless(m), toWrite, multiset{}, Clearing(id, 1, {}), held, {(0, id)});
      && Follows(Alone(m, toWrite, multiset{}, Clearing(id, 0, {}), held, {}), ClearNext, w)
      && Follows(w, EndClearing, w.(task := Elsewhere))
  {
    hide ToBin;
    assert m.pending - {id} == {};
    PendingNotSerialised(id, m, {});
  }

  /**
    A request that is complete before the clearing starts, but comes after the bytes were taken, is lost:
    nothing is flagged, and the real module keeps the old value.
    */
  lemma LostWhileTalking(m: Module, changed: Module, id: PropId)
    requires OneModule(m, changed, id)
    ensures LeadTo([Request(0, id, Flagless(m)), FlagDisplay(id, 1), Start(id), TakeShared, Request(0, id, changed),
      FlagDisplay(id, 1), Succeed, ClearNext, EndClearing],
                   Alone(Flagless(changed), {}, multiset{}, Elsewhere, map[id := ToBin(id, m)], {(0, id)}))
  {
    hide ToBin, Follows, AtStart;
    var bytes := ToBin(id, m);
    var talking := Talking(id, Broadcast, 1, {}, map[0 := bytes], {0}, {0});
    var asked := Talking(id, Broadcast, 1, {}, map[0 := bytes], {}, {});
    AskedAlone(m, id);
    TakenAlone(m, id);
    RequestedAlone(m, changed, id, {id}, talking, map[]);
    assert Requested(talking, 0, id) == asked;
    assert {id} + {id} == {id};
    SucceededAlone(changed, id, bytes, {}, {});
    ClearedAlone(changed, id, {}, map[id := bytes]);
    var events := [Request(0, id, Flagless(m)), FlagDisplay(id, 1), Start(id), TakeShared, Request(0, id, changed),
        FlagDisplay(id, 1), Succeed, ClearNext, EndClearing];
    var run := [
      Alone(Flagless(m), {}, multiset{}, Elsewhere, map[], {}),
      Alone(m, {}, multiset{id}, Elsewhere, map[], {}),
      Alone(m, {id}, multiset{}, Elsewhere, map[], {}),
      Alone(m, {id}, multiset{}, Talking(id, Broadcast, 1, {}, map[], {0}, {}), map[], {}),
      Alone(m, {id}, multiset{}, talking, map[], {}),
      Alone(changed, {id}, multiset{id}, asked, map[], {}),
      Alone(changed, {id}, multiset{}, asked, map[], {}),
      Alone(changed, {}, multiset{}, Clearing(id, 0, {}), map[id := bytes], {}),
      Alone(Flagless(changed), {}, multiset{}, Clearing(id, 1, {}), map[id := bytes], {(0, id)}),
      Alone(Flagless(changed), {}, multiset{}, Elsewhere, map[id := bytes], {(0, id)})];
    assert IsRun(run, events);
  }

  /**
    So is one that comes while the flags of its property are being cleared: it leaves the display flagged and
    the module not, so the next communication of the property writes nothing.
    */
  lemma LostWhileClearing(m: Module, changed: Module, id: PropId)
    requires OneModule(m, changed, id)
    ensures LeadTo([Request(0, id, Flagless(m)), FlagDisplay(id, 1), Start(id), TakeShared, Succeed,
      Request(0, id, changed), FlagDisplay(id, 1), ClearNext, EndClearing],
                   Alone(Flagless(changed), {id}, multiset{}, Elsewhere, map[id := ToBin(id, m)], {(0, id)}))
  {
    hide ToBin, Follows, AtStart;
    var bytes := ToBin(id, m);
    AskedAlone(m, id);
    TakenAlone(m, id);
    SucceededAlone(m, id, bytes, {0}, {0});
    RequestedAlone(m, changed, id, {}, Clearing(id, 0, {0}), map[id := bytes]);
    assert Requested(Clearing(id, 0, {0}), 0, id) == Clearing(id, 0, {});
    assert {} + {id} == {id};
    ClearedAlone(changed, id, {id}, map[id := bytes]);
    var events := [Request(0, id, Flagless(m)), FlagDisplay(id, 1), Start(id), TakeShared, Succeed,
        Request(0, id, changed), FlagDisplay(id, 1), ClearNext, EndClearing];
    var run := [
      Alone(Flagless(m), {}, multiset{}, Elsewhere, map[], {}),
      Alone(m, {}, multiset{id}, Elsewhere, map[], {}),
      Alone(m, {id}, multiset{}, Elsewhere, map[], {}),
      Alone(m, {id}, multiset{}, Talking(id, Broadcast, 1, {}, map[], {0}, {}), map[], {}),
      Alone(m, {id}, multiset{}, Talking(id, Broadcast, 1, {}, map[0 := bytes], {0}, {0}), map[], {}),
      Alone(m, {}, multiset{}, Clearing(id, 0, {0}), map[id := bytes], {}),
      Alone(changed, {}, multiset{id}, Clearing(id, 0, {}), map[id := bytes], {}),
      Alone(changed, {id}, multiset{}, Clearing(id, 0, {}), map[id := bytes], {}),
      Alone(Flagless(changed), {id}, multiset{}, Clearing(id, 1, {}), map[id := bytes], {(0, id)}),
      Alone(Flagless(changed), {id}, multiset{}, Elsewhere, map[id := bytes], {(0, id)})];
    assert IsRun(run, events);
  }

  ghost function Two(m0: Module, m1: Module, toWrite: set<PropId>, midway: multiset<PropId>, task: Task,
                     held: seq<Holding>, lost: set<(nat, PropId)>): World {
    World(State([m0, m1], {}, toWrite), midway, task, held, lost)
  }

  /** Two modules that compare alike and have the property to write, and a second value for the first. */
  ghost predicate TwoModules(m0: Module, m1: Module, changed: Module, id: PropId) {
    && Whole(m0) && Whole(m1) && HasCompare(id) && m0.pending == {id} && m1.pending == {id}
    && Compare(id, m0, m1) && OnlyChanges(id, m0, changed)
  }

  lemma BothAsked(m0: Module, m1: Module, id: PropId)
    requires Whole(m0) && Whole(m1) && m0.pending == {id} && m1.pending == {id}
    ensures var unknown := [map[], map[]];
      var start := Two(Flagless(m0), Flagless(m1), {}, multiset{}, Elsewhere, unknown, {});
      var first := Two(m0, Flagless(m1), {}, multiset{id}, Elsewhere, unknown, {});
      var both := Two(m0, m1, {}, multiset{id, id}, Elsewhere, unknown, {});
      && AtStart(start) && Follows(start, Request(0, id, Flagless(m0)), first)
      && Follows(first, Request(1, id, Flagless(m1)), both)
      && Follows(both, FlagDisplay(id, 2), Two(m0, m1, {id}, multiset{}, Elsewhere, unknown, {}))
  {
    hide ToBin;
    PendingNotSerialised(id, m0, {});
    PendingNotSerialised(id, m1, {});
    var nothing: set<(nat, PropId)> := {};
    assert nothing - {(0, id)} == nothing && nothing - {(1, id)} == nothing;
    assert {} + {id} == {id};
    assert Flagless(m0).(pending := {id}) == m0 && Flagless(m1).(pending := {id}) == m1;
  }

  lemma ComparedAlike(m0: Module, m1: Module, changed: Module, id: PropId)
    requires TwoModules(m0, m1, changed, id)
    ensures Follows(Two(m0, m1, {id}, multiset{}, Elsewhere, [map[], map[]], {}), Start(id),
                    Two(m0, m1, {id}, multiset{}, Talking(id, Broadcast, 2, {}, map[], {0, 1}, {}), [map[], map[]], {}))
  {
    hide ToBin, Compare;
    var d := State([m0, m1], {}, {id});
    assert Upto(2) == {0, 1};
    assert CanBroadcast(d, id) && Required(d, id) == Broadcast;
    assert Started(d, id) == Talking(id, Broadcast, 2, {}, map[], {0, 1}, {});
  }

  lemma ThenChanged(m0: Module, m1: Module, changed: Module, id: PropId)
    requires TwoModules(m0, m1, changed, id)
    ensures Follows(Two(m0, m1, {id}, multiset{}, Talking(id, Broadcast, 2, {}, map[], {0, 1}, {}), [map[], map[]], {}),
                    Request(0, id, changed),
                    Two(changed, m1, {id}, multiset{id}, Talking(id, Broadcast, 2, {}, map[], {1}, {}),
                        [map[], map[]], {}))
  {
    hide ToBin, Compare;
    var d := State([m0, m1], {}, {id});
    var none: set<nat> := {};
    assert {0, 1} - {0} == {1} && none - {0} == none;
    assert changed.pending + {id} == {id};
    assert changed.(pending := {id}) == changed;
    assert ModuleFlagged(d.(modules := [changed, m1]), 0, id) == State([changed, m1], {}, {id});
    assert Requested(Talking(id, Broadcast, 2, {}, map[], {0, 1}, {}), 0, id) ==
      Talking(id, Broadcast, 2, {}, map[], {1}, {});
    var nothing: set<(nat, PropId)> := {};
    assert nothing - {(0, id)} == nothing;
  }

  lemma NewerTaken(m0: Module, m1: Module, id: PropId)
    requires Whole(m0) && Whole(m1)
    ensures Follows(Two(m0, m1, {id}, multiset{id}, Talking(id, Broadcast, 2, {}, map[], {1}, {}),
                        [map[], map[]], {}), TakeShared,
                    Two(m0, m1, {id}, multiset{id},
                        Talking(id, Broadcast, 2, {}, map[0 := ToBin(id, m0), 1 := ToBin(id, m0)], {1}, {0}),
                        [map[], map[]], {}))
  {
    hide ToBin;
    var bytes := ToBin(id, m0);
    assert Upto(2) == {0, 1};
    assert (map i: nat | i in Upto(2) :: bytes) == map[0 := bytes, 1 := bytes];
  }

  lemma NewerFlagged(m0: Module, m1: Module, id: PropId, task: Task)
    requires Whole(m0) && Whole(m1)
    ensures Follows(Two(m0, m1, {id}, multiset{id}, task, [map[], map[]], {}), FlagDisplay(id, 1),
                    Two(m0, m1, {id}, multiset{}, task, [map[], map[]], {}))
  {
    hide ToBin;
    assert {id} + {id} == {id};
  }

  lemma NewerArrived(m0: Module, m1: Module, id: PropId, bytes: Option<Wire>)
    requires Whole(m0) && Whole(m1)
    ensures Follows(Two(m0, m1, {id}, multiset{}, Talking(id, Broadcast, 2, {}, map[0 := bytes, 1 := bytes], {1}, {0}),
                        [map[], map[]], {}), Succeed,
                    Two(m0, m1, {}, multiset{}, Clearing(id, 0, {0}), [map[id := bytes], map[id := bytes]], {}))
  {
    hide ToBin, Arrived;
    assert {id} - {id} == {};
    var r := Arrived([map[], map[]], id, map[0 := bytes, 1 := bytes]);
    assert r == [map[id := bytes], map[id := bytes]] by {
      assert r[0] == Told(map[], id, bytes) && r[1] == Told(map[], id, bytes);
    }
  }

  lemma BothCleared(m0: Module, m1: Module, id: PropId, bytes: Option<Wire>)
    requires Whole(m0) && Whole(m1) && m0.pending == {id} && m1.pending == {id}
    ensures var held := [map[id := bytes], map[id := bytes]];
      var w1 := Two(Flagless(m0), m1, {}, multiset{}, Clearing(id, 1, {0}), held, {});
      var w2 := Two(Flagless(m0), Flagless(m1), {}, multiset{}, Clearing(id, 2, {0}), held, {(1, id)});
      && Follows(Two(m0, m1, {}, multiset{}, Clearing(id, 0, {0}), held, {}), ClearNext, w1)
      && Follows(w1, ClearNext, w2)
      && Follows(w2, EndClearing, w2.(task := Elsewhere))
  {
    hide ToBin;
    assert {id} - {id} == {};
    PendingNotSerialised(id, m0, {});
    PendingNotSerialised(id, m1, {});
    var nothing: set<(nat, PropId)> := {};
    assert nothing - {(0, id)} == nothing;
  }

  /**
    And a change of module 0 between the comparison and the taking of its bytes goes to every module: the
    other one holds a value nobody asked it to show, and nothing remembers that.
    */
  lemma WrongValueBroadcast(m0: Module, m1: Module, changed: Module, id: PropId)
    requires TwoModules(m0, m1, changed, id)
    ensures LeadTo([Request(0, id, Flagless(m0)), Request(1, id, Flagless(m1)), FlagDisplay(id, 2), Start(id),
      Request(0, id, changed), TakeShared, FlagDisplay(id, 1), Succeed, ClearNext, ClearNext, EndClearing],
                    Two(Flagless(changed), Flagless(m1), {}, multiset{}, Elsewhere,
                        [map[id := ToBin(id, changed)], map[id := ToBin(id, changed)]], {(1, id)}))
  {
    hide ToBin, Follows, AtStart;
    var bytes := ToBin(id, changed);
    var got := map[0 := bytes, 1 := bytes];
    var unknown, held := [map[], map[]], [map[id := bytes], map[id := bytes]];
    BothAsked(m0, m1, id);
    ComparedAlike(m0, m1, changed, id);
    ThenChanged(m0, m1, changed, id);
    NewerTaken(changed, m1, id);
    NewerFlagged(changed, m1, id, Talking(id, Broadcast, 2, {}, got, {1}, {0}));
    NewerArrived(changed, m1, id, bytes);
    BothCleared(changed, m1, id, bytes);
    var events := [Request(0, id, Flagless(m0)), Request(1, id, Flagless(m1)), FlagDisplay(id, 2), Start(id),
        Request(0, id, changed), TakeShared, FlagDisplay(id, 1), Succeed, ClearNext, ClearNext, EndClearing];
    var run := [
      Two(Flagless(m0), Flagless(m1), {}, multiset{}, Elsewhere, unknown, {}),
      Two(m0, Flagless(m1), {}, multiset{id}, Elsewhere, unknown, {}),
      Two(m0, m1, {}, multiset{id, id}, Elsewhere, unknown, {}),
      Two(m0, m1, {id}, multiset{}, Elsewhere, unknown, {}),
      Two(m0, m1, {id}, multiset{}, Talking(id, Broadcast, 2, {}, map[], {0, 1}, {}), unknown, {}),
      Two(changed, m1, {id}, multiset{id}, Talking(id, Broadcast, 2, {}, map[], {1}, {}), unknown, {}),
      Two(changed, m1, {id}, multiset{id}, Talking(id, Broadcast, 2, {}, got, {1}, {0}), unknown, {}),
      Two(changed, m1, {id}, multiset{}, Talking(id, Broadcast, 2, {}, got, {1}, {0}), unknown, {}),
      Two(changed, m1, {}, multiset{}, Clearing(id, 0, {0}), held, {}),
      Two(Flagless(changed), m1, {}, multiset{}, Clearing(id, 1, {0}), held, {}),
      Two(Flagless(changed), Flagless(m1), {}, multiset{}, Clearing(id, 2, {0}), held, {(1, id)}),
      Two(Flagless(changed), Flagless(m1), {}, multiset{}, Elsewhere, held, {(1, id)})];
    assert IsRun(run, events);
  }

  // ---------------------------------------------------------------- a run in which nothing is lost

  lemma SecondAsked(m0: Module, m1: Module, id: PropId)
    requires Whole(m0) && Whole(m1) && m0.pending == {} && m1.pending == {id}
    ensures var unknown := [map[], map[]];
      var start := Two(m0, Flagless(m1), {}, multiset{}, Elsewhere, unknown, {});
      var asked := Two(m0, m1, {}, multiset{id}, Elsewhere, unknown, {});
      && AtStart(start) && Follows(start, Request(1, id, Flagless(m1)), asked)
      && Follows(asked, FlagDisplay(id, 1), Two(m0, m1, {id}, multiset{}, Elsewhere, unknown, {}))
  {
    hide ToBin;
    PendingNotSerialised(id, m1, {});
    var nothing: set<(nat, PropId)> := {};
    assert nothing - {(1, id)} == nothing;
    assert {} + {id} == {id};
    assert Flagless(m1).(pending := {id}) == m1;
  }

  lemma BothVisited(m0: Module, m1: Module, id: PropId)
    requires Whole(m0) && Whole(m1) && m0.pending == {} && m1.pending == {id}
    ensures var unknown := [map[], map[]];
      var w0 := Two(m0, m1, {id}, multiset{}, Elsewhere, unknown, {});
      var w1 := Two(m0, m1, {id}, multiset{}, Talking(id, Write, 2, {}, map[], {}, {}), unknown, {});
      var w2 := Two(m0, m1, {id}, multiset{}, Talking(id, Write, 2, {0}, map[], {}, {}), unknown, {});
      var w3 := Two(m0, m1, {id}, multiset{}, Talking(id, Write, 2, {0, 1}, map[1 := ToBin(id, m1)], {}, {1}),
          unknown, {});
      && Follows(w0, Start(id), w1) && Follows(w1, Visit(0), w2) && Follows(w2, Visit(1), w3)
  {
    hide ToBin, Compare;
    var d := State([m0, m1], {}, {id});
    assert id !in d.modules[0].pending && !CanBroadcast(d, id);
    assert Started(d, id) == Talking(id, Write, 2, {}, map[], {}, {});
    var none: set<nat> := {};
    assert none + {0} == {0} && {0} + {1} == {0, 1} && none + {1} == {1};
  }

  lemma SecondArrived(m0: Module, m1: Module, id: PropId)
    requires Whole(m0) && Whole(m1)
    ensures var task := Talking(id, Write, 2, {0, 1}, map[1 := ToBin(id, m1)], {}, {1});
      Follows(Two(m0, m1, {id}, multiset{}, task, [map[], map[]], {}), Succeed,
              Two(m0, m1, {}, multiset{}, Clearing(id, 0, {1}), [map[], map[id := ToBin(id, m1)]], {}))
  {
    hide ToBin, Arrived;
    var bytes := ToBin(id, m1);
    assert {id} - {id} == {};
    var r := Arrived([map[], map[]], id, map[1 := bytes]);
    assert r == [map[], map[id := bytes]] by {
      assert r[0] == map[] && r[1] == Told(map[], id, bytes);
    }
  }

  lemma FirstCleared(m0: Module, m1: Module, id: PropId, held: seq<Holding>)
    requires Whole(m0) && Whole(m1) && m0.pending == {} && |held| == 2
    ensures Follows(Two(m0, m1, {}, multiset{}, Clearing(id, 0, {1}), held, {}), ClearNext,
                    Two(m0, m1, {}, multiset{}, Clearing(id, 1, {1}), held, {}))
  {
    hide ToBin;
    assert m0.pending - {id} == {};
    assert m0.(pending := {}) == m0;
  }

  lemma SecondCleared(m0: Module, m1: Module, id: PropId, held: seq<Holding>)
    requires Whole(m0) && Whole(m1) && m1.pending == {id} && |held| == 2
    ensures var w := Two(m0, Flagless(m1), {}, multiset{}, Clearing(id, 2, {1}), held, {});
      && Follows(Two(m0, m1, {}, multiset{}, Clearing(id, 1, {1}), held, {}), ClearNext, w)
      && Follows(w, EndClearing, w.(task := Elsewhere))
  {
    hide ToBin;
    assert {id} - {id} == {};
    PendingNotSerialised(id, m1, {});
    var nothing: set<(nat, PropId)> := {};
    assert nothing - {(1, id)} == nothing;
  }

  /** Undisturbed, a request for one module of two reaches that module alone, and leaves no flag and no loss. */
  lemma WriteArrives(m0: Module, m1: Module, id: PropId)
    requires Whole(m0) && Whole(m1) && m0.pending == {} && m1.pending == {id}
    ensures LeadTo([Request(1, id, Flagless(m1)), FlagDisplay(id, 1), Start(id), Visit(0), Visit(1), Succeed,
                    ClearNext, ClearNext, EndClearing],
                   Two(m0, Flagless(m1), {}, multiset{}, Elsewhere, [map[], map[id := ToBin(id, m1)]], {}))
  {
    hide ToBin, Follows, AtStart;
    var bytes := ToBin(id, m1);
    var unknown, held := [map[], map[]], [map[], map[id := bytes]];
    SecondAsked(m0, m1, id);
    BothVisited(m0, m1, id);
    SecondArrived(m0, m1, id);
    FirstCleared(m0, m1, id, held);
    SecondCleared(m0, m1, id, held);
    var events := [Request(1, id, Flagless(m1)), FlagDisplay(id, 1), Start(id), Visit(0), Visit(1), Succeed,
                   ClearNext, ClearNext, EndClearing];
    var run := [
      Two(m0, Flagless(m1), {}, multiset{}, Elsewhere, unknown, {}),
      Two(m0, m1, {}, multiset{id}, Elsewhere, unknown, {}),
      Two(m0, m1, {id}, multiset{}, Elsewhere, unknown, {}),
      Two(m0, m1, {id}, multiset{}, Talking(id, Write, 2, {}, map[], {}, {}), unknown, {}),
      Two(m0, m1, {id}, multiset{}, Talking(id, Write, 2, {0}, map[], {}, {}), unknown, {}),
      Two(m0, m1, {id}, multiset{}, Talking(id, Write, 2, {0, 1}, map[1 := bytes], {}, {1}), unknown, {}),
      Two(m0, m1, {}, multiset{}, Clearing(id, 0, {1}), held, {}),
      Two(m0, m1, {}, multiset{}, Clearing(id, 1, {1}), held, {}),
      Two(m0, Flagless(m1), {}, multiset{}, Clearing(id, 2, {1}), held, {}),
      Two(m0, Flagless(m1), {}, multiset{}, Elsewhere, held, {})];
    assert IsRun(run, events);
  }
}
