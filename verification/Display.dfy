/**
  The controller's model of the display: which properties of which modules must still be written, how a
  write becomes a broadcast, and the pass that synchronises the real modules.
  */
module Display {
  import opened Values
  import opened Properties

  datatype Action = Nothing | Read | Write | Broadcast

  /** The modules, and the properties that the display as a whole must read or write. */
  datatype State = State(modules: seq<Module>, toRead: set<PropId>, toWrite: set<PropId>)

  ghost predicate Proper(s: State) {
    && |s.modules| < 0x1_0000
    && forall i :: 0 <= i < |s.modules| ==> Whole(s.modules[i])
  }

  // ---------------------------------------------------------------- flags

  /** A module's property must be written. */
  function ModuleFlagged(s: State, i: nat, id: PropId): State
    requires i < |s.modules|
  {
    s.(modules := s.modules[i := s.modules[i].(pending := s.modules[i].pending + {id})])
  }

  /** A property must be read, or written, somewhere in the display. */
  function DisplayFlagged(s: State, id: PropId, read: bool): State {
    if read then s.(toRead := s.toRead + {id}) else s.(toWrite := s.toWrite + {id})
  }

  // ---------------------------------------------------------------- what is required

  /**
    When one shared write may replace the separate ones. Modules are counted with a signed sixteen-bit
    number, so a display of 32768 modules or more never broadcasts.
    */
  ghost predicate CanBroadcast(s: State, id: PropId) {
    && 0 < |s.modules| < 0x8000 && HasCompare(id)
    && (forall i :: 0 <= i < |s.modules| ==> id in s.modules[i].pending)
    && (forall i :: 0 < i < |s.modules| ==> Compare(id, s.modules[0], s.modules[i]))
  }

  /** Reading goes before writing. */
  ghost function Required(s: State, id: PropId): Action {
    if id in s.toRead then Read
    else if id !in s.toWrite then Nothing
    else if CanBroadcast(s, id) then Broadcast
    else Write
  }

  /** The bytes a module gets with an action; with separate writes only the pending modules get theirs. */
  ghost function Received(s: State, action: Action, id: PropId, i: nat): Option<Wire>
    requires Proper(s) && i < |s.modules|
  {
    if action == Broadcast then ToBin(id, s.modules[0])
    else if action == Write && id in s.modules[i].pending then ToBin(id, s.modules[i])
    else None
  }

  /** A broadcast is only answered when all modules are pending and all would get the same bytes. */
  lemma BroadcastMeansAllAlike(s: State, id: PropId, i: nat)
    requires Proper(s) && Required(s, id) == Broadcast && HasSerializer(id) && i < |s.modules|
    ensures id in s.modules[i].pending && ToBin(id, s.modules[i]) == ToBin(id, s.modules[0])
    ensures Received(s, Broadcast, id, i) == Received(s, Write, id, i)
  {
    hide ToBin, Compare;
    if i > 0 {
      CompareMeansSameBytes(id, s.modules[0], s.modules[i]);
    }
  }

  /** And for alike pending modules it is answered exactly on a display of 1 to 32767 modules. */
  lemma AllAlikeMeansBroadcast(s: State, id: PropId)
    requires Proper(s) && id in s.toWrite && id !in s.toRead && HasSerializer(id)
    requires forall i :: 0 <= i < |s.modules| ==>
      id in s.modules[i].pending && ToBin(id, s.modules[i]).Some? && ToBin(id, s.modules[i]) == ToBin(id, s.modules[0])
    ensures Required(s, id) == Broadcast <==> 0 < |s.modules| < 0x8000
    ensures Required(s, id) != Broadcast ==> Required(s, id) == Write
  {
    hide ToBin, Compare;
    forall i | 0 < i < |s.modules| ensures Compare(id, s.modules[0], s.modules[i]) {
      SameBytesCompare(id, s.modules[0], s.modules[i]);
    }
  }

  /**
    So 32768 equal modules with the same character to show are written one by one, but for any one of them
    left out.
    */
  lemma TooManyToBroadcast(m: Module, n: nat)
    requires Whole(m) && CHARACTER in m.pending && (n == 0x8000 || n == 0x7FFF)
    ensures Required(State(seq(n, _ => m), {}, {CHARACTER}), CHARACTER) == if n == 0x8000 then Write else Broadcast
  {
    AllAlikeMeansBroadcast(State(seq(n, _ => m), {}, {CHARACTER}), CHARACTER);
  }

  /** What the real modules become, whatever they do with the bytes they get. */
  ghost function NodesAfter<N>(nodes: seq<N>, s: State, action: Action, id: PropId, write: (N, Wire) -> N): (r: seq<N>)
    requires Proper(s) && |nodes| == |s.modules|
    ensures |r| == |nodes|
  {
    seq(|nodes|, i requires 0 <= i < |nodes| =>
      if Received(s, action, id, i).Some? then write(nodes[i], Received(s, action, id, i).value) else nodes[i])
  }

  /** One shared write leaves all modules as separate writes would. */
  lemma BroadcastIsSeparateWrites<N>(nodes: seq<N>, s: State, id: PropId, write: (N, Wire) -> N)
    requires Proper(s) && |nodes| == |s.modules| && Required(s, id) == Broadcast && HasSerializer(id)
    ensures NodesAfter(nodes, s, Broadcast, id, write) == NodesAfter(nodes, s, Write, id, write)
  {
    hide Required, Received, ToBin;
    forall i | 0 <= i < |nodes|
      ensures NodesAfter(nodes, s, Broadcast, id, write)[i] == NodesAfter(nodes, s, Write, id, write)[i]
    {
      BroadcastMeansAllAlike(s, id, i);
    }
  }

  // ---------------------------------------------------------------- a property is done

  function Unpended(modules: seq<Module>, ids: set<PropId>): (r: seq<Module>)
    ensures |r| == |modules|
    ensures forall i :: 0 <= i < |r| ==> r[i] == modules[i].(pending := modules[i].pending - ids)
  {
    seq(|modules|, i requires 0 <= i < |modules| => modules[i].(pending := modules[i].pending - ids))
  }

  /** The flags of the given properties are gone, everywhere; nothing else changes. */
  function Done(s: State, ids: set<PropId>): State {
    State(Unpended(s.modules, ids), s.toRead - ids, s.toWrite - ids)
  }

  lemma DoneLeavesOthers(s: State, ids: set<PropId>, id: PropId)
    requires id !in ids
    ensures Required(Done(s, ids), id) == Required(s, id)
  {
    hide Compare;
    var d := Done(s, ids);
    assert forall i :: 0 <= i < |s.modules| ==> (id in d.modules[i].pending <==> id in s.modules[i].pending);
    if |s.modules| > 0 && HasCompare(id) {
      forall i | 0 <= i < |s.modules| ensures Compare(id, d.modules[0], d.modules[i]) ==
          Compare(id, s.modules[0], s.modules[i]) {
        PendingDoesNotMatter(id, s.modules[0], s.modules[i], ids);
      }
    }
  }

  lemma PendingDoesNotMatter(id: PropId, a: Module, b: Module, ids: set<PropId>)
    requires HasCompare(id)
    ensures Compare(id, a.(pending := a.pending - ids), b.(pending := b.pending - ids)) == Compare(id, a, b)
  {
  }

  // ---------------------------------------------------------------- a pass

  /** Whether the n-th attempt to communicate a property succeeds. */
  type Link = (PropId, nat) -> bool

  /** All three attempts fail. */
  predicate Fails(link: Link, id: PropId) {
    !link(id, 1) && !link(id, 2) && !link(id, 3)
  }

  /**
    What communicating a property does to the model, whether it succeeds or not: it can tell how many modules
    there are, and reading stores what the modules answer.
    */
  datatype Effect = Effect(count: nat, stored: (nat, Module) -> Module)

  type Effects = PropId -> Effect

  /** Storing an answer changes the property that was read and no other, and no flag. */
  ghost predicate Storing(effects: Effects) {
    forall id: PropId ::
      effects(id).count < 0x1_0000 && forall i: nat, m :: Whole(m) ==> OnlyChanges(id, m, effects(id).stored(i, m))
  }

  function Affected(s: State, action: Action, effect: Effect): (r: State)
    ensures |r.modules| == effect.count && r.toRead == s.toRead && r.toWrite == s.toWrite
  {
    Resized(if action == Read then Answered(s, effect) else s, effect.count)
  }

  function Answered(s: State, effect: Effect): State {
    s.(modules := seq(|s.modules|, i requires 0 <= i < |s.modules| => effect.stored(i, s.modules[i])))
  }

  /**
    After a read a module that has answered has the value of the real one, if its answer was stored by the
    property's reader; a write stores nothing.
    */
  lemma ReadAgrees(s: State, id: PropId, effect: Effect, i: nat, node: Module)
    requires Proper(s) && i < |s.modules| && i < effect.count && TwoWay(id)
    requires Whole(node) && ToBin(id, node).Some?
    requires (id != CHARACTER_SET ==> |ToBin(id, node).value.bytes| >= Width(id)) ==>
      Some(effect.stored(i, s.modules[i])) == FromBin(id, s.modules[i], ToBin(id, node).value.bytes)
    ensures var m := Affected(s, Read, effect).modules[i];
      && Whole(m) && Compare(id, m, node) && ToBin(id, m) == ToBin(id, node)
      && forall other: PropId :: other != id ==> ToBin(other, m) == ToBin(other, s.modules[i])
    ensures forall action :: action != Read ==> Affected(s, action, effect).modules[i] == s.modules[i]
  {
    hide FromBin, Compare, FirmwareUpdateToBin, TwoBytes, ColorBytes;
    assert Whole(s.modules[i]);
    ReadBack(id, s.modules[i], node);
    ReadOnlyChanges(id, s.modules[i], ToBin(id, node).value.bytes);
  }

  /** A module as it is allocated. */
  function NewModule(): Module {
    Module(None, None, 0, false, None, 0, 0, ColorPair(Color(0, 0, 0), Color(0, 0, 0)),
           MotionLimits(0, 0, 0, 0), 0, IrThreshold(0, 0), {})
  }

  function Resized(s: State, count: nat): (r: State)
    ensures |r.modules| == count
    ensures forall i :: 0 <= i < count ==> r.modules[i] == if i < |s.modules| then s.modules[i] else NewModule()
    ensures r.toRead == s.toRead && r.toWrite == s.toWrite
  {
    if count <= |s.modules| then s.(modules := s.modules[..count])
    else s.(modules := s.modules + seq(count - |s.modules|, i => NewModule()))
  }

  /** The display asks for the property to be read or written. */
  predicate Flagged(s: State, id: PropId) {
    id in s.toRead || id in s.toWrite
  }

  /** The first property, from a given one on, that is flagged and cannot be communicated; 11 if there is none. */
  function FirstFailure(s: State, link: Link, id: nat): (k: nat)
    requires id <= 11
    ensures id <= k <= 11
    ensures k < 11 ==> Flagged(s, k) && Fails(link, k)
    ensures forall j: PropId :: id <= j < k ==> !Flagged(s, j) || !Fails(link, j)
    decreases 11 - id
  {
    if id == 11 then 11
    else if Flagged(s, id) && Fails(link, id) then id
    else FirstFailure(s, link, id + 1)
  }

  /** The properties before a given one that the display is flagged for. */
  ghost function FlaggedBefore(s: State, k: nat): set<PropId> {
    set id: PropId | id < k && Flagged(s, id)
  }

  lemma OneMoreFlagged(s: State, id: PropId)
    ensures FlaggedBefore(s, 0) == {} && id !in FlaggedBefore(s, id)
    ensures FlaggedBefore(s, id + 1) == if Flagged(s, id) then FlaggedBefore(s, id) + {id} else FlaggedBefore(s, id)
  {
  }

  /** The display when a pass comes to a property, all flagged ones before it having been communicated. */
  ghost function Reached(s: State, effects: Effects, k: nat): State
    requires k <= 11
  {
    if k == 0 then s
    else
      var t := Reached(s, effects, k - 1);
      if Required(t, k - 1) == Nothing then t
      else Done(Affected(t, Required(t, k - 1), effects(k - 1)), {k - 1})
  }

  /** The display after a pass. The communication that failed has had its effect too. */
  ghost function AfterPass(s: State, link: Link, effects: Effects): State {
    var k := FirstFailure(s, link, 0);
    var t := Reached(s, effects, k);
    if k == 11 then t else Affected(t, Required(t, k), effects(k))
  }

  /** Everything communicated in a pass up to a property, in order. */
  ghost function Log(s: State, effects: Effects, k: nat): (log: seq<(PropId, Action)>)
    requires k <= 11
  {
    if k == 0 then []
    else
      var action := Required(Reached(s, effects, k - 1), k - 1);
      if action == Nothing then Log(s, effects, k - 1) else Log(s, effects, k - 1) + [(k - 1, action)]
  }

  /** A module of the display before the pass that no communication before a given property has found missing. */
  ghost predicate Kept(s: State, effects: Effects, k: nat, i: nat) {
    i < |s.modules| && forall j: PropId :: j < k && Flagged(s, j) ==> i < effects(j).count
  }

  lemma {:induction false} ReachedFlags(s: State, effects: Effects, k: nat)
    requires k <= 11
    ensures Reached(s, effects, k).toRead == s.toRead - FlaggedBefore(s, k)
    ensures Reached(s, effects, k).toWrite == s.toWrite - FlaggedBefore(s, k)
    ensures k < 11 ==> (Required(Reached(s, effects, k), k) == Nothing <==> !Flagged(s, k))
    ensures k < 11 ==> (Required(Reached(s, effects, k), k) == Read <==> k in s.toRead)
  {
    hide CanBroadcast, Affected, FlaggedBefore;
    if k == 0 {
      OneMoreFlagged(s, 0);
    } else {
      ReachedFlags(s, effects, k - 1);
      OneMoreFlagged(s, k - 1);
    }
    if k < 11 {
      OneMoreFlagged(s, k);
    }
  }

  /** What the pass has done to a module by the time it comes to a property. */
  lemma {:induction false} ReachedModule(s: State, effects: Effects, k: nat, i: nat)
    requires k <= 11 && Proper(s) && Storing(effects)
    ensures Proper(Reached(s, effects, k))
    ensures Kept(s, effects, k, i) ==>
      var t := Reached(s, effects, k);
      && i < |t.modules| && t.modules[i].pending == s.modules[i].pending - FlaggedBefore(s, k)
      && forall id: PropId :: k <= id ==> ToBin(id, t.modules[i]) == ToBin(id, s.modules[i])
    ensures !Kept(s, effects, k, i) && i < |Reached(s, effects, k).modules| ==>
      Reached(s, effects, k).modules[i].pending == {}
  {
    hide ToBin, Required, Affected, FlaggedBefore;
    if k == 0 {
      OneMoreFlagged(s, 0);
    } else {
      ReachedModule(s, effects, k - 1, i);
      ReachedFlags(s, effects, k - 1);
      OneMoreFlagged(s, k - 1);
      KeptOneMore(s, effects, k - 1, i);
      var t := Reached(s, effects, k - 1);
      if Flagged(s, k - 1) {
        AffectedProper(t, Required(t, k - 1), effects, k - 1);
        AffectedModule(t, Required(t, k - 1), effects, k - 1, i);
      }
    }
  }

  lemma KeptOneMore(s: State, effects: Effects, k: PropId, i: nat)
    ensures Kept(s, effects, k, i) ==> i < |s.modules|
    ensures Kept(s, effects, k + 1, i) <==> Kept(s, effects, k, i) && (Flagged(s, k) ==> i < effects(k).count)
  {
  }

  lemma AffectedProper(s: State, action: Action, effects: Effects, id: PropId)
    requires Proper(s) && Storing(effects)
    ensures Proper(Affected(s, action, effects(id))) && Proper(Done(Affected(s, action, effects(id)), {id}))
  {
    var r := Affected(s, action, effects(id));
    assert forall i: nat, m :: Whole(m) ==> OnlyChanges(id, m, effects(id).stored(i, m));
    assert Whole(NewModule());
    forall i | 0 <= i < |r.modules|
      ensures Whole(r.modules[i])
    {
      if i < |s.modules| { assert Whole(s.modules[i]); }
    }
  }

  lemma AffectedModule(s: State, action: Action, effects: Effects, id: PropId, i: nat)
    requires Proper(s) && Storing(effects) && Proper(Done(Affected(s, action, effects(id)), {id}))
    ensures var r := Done(Affected(s, action, effects(id)), {id});
      && (i < |s.modules| && i < effects(id).count ==>
        && i < |r.modules| && r.modules[i].pending == s.modules[i].pending - {id}
        && forall other: PropId :: other != id ==> ToBin(other, r.modules[i]) == ToBin(other, s.modules[i]))
      && (i >= |s.modules| && i < |r.modules| ==> r.modules[i].pending == {})
  {
    hide ToBin;
    var t := Affected(s, action, effects(id));
    if i < |s.modules| && i < effects(id).count {
      assert Whole(s.modules[i]);
      assert OnlyChanges(id, s.modules[i], effects(id).stored(i, s.modules[i]));
      forall other: PropId | other != id
        ensures ToBin(other, Done(t, {id}).modules[i]) == ToBin(other, s.modules[i])
      {
        PendingNotSerialised(other, t.modules[i], t.modules[i].pending - {id});
      }
    }
  }

  lemma PendingNotSerialised(id: PropId, m: Module, pending: set<PropId>)
    requires Whole(m)
    ensures Whole(m.(pending := pending)) && ToBin(id, m.(pending := pending)) == ToBin(id, m)
  {
    hide FirmwareUpdateToBin, TwoBytes, ColorBytes;
  }

  /**
    After a pass exactly the flags of the properties before the first one that fails three times are
    cleared, and no others: of the display, and of every module that was there all the time. Modules that
    have joined have no flags.
    */
  lemma PassClearsFlags(s: State, link: Link, effects: Effects, i: nat)
    requires Proper(s) && Storing(effects)
    ensures var cleared := FlaggedBefore(s, FirstFailure(s, link, 0));
      var last := if FirstFailure(s, link, 0) < 11 then FirstFailure(s, link, 0) + 1 else 11;
      var t := AfterPass(s, link, effects);
      && t.toRead == s.toRead - cleared && t.toWrite == s.toWrite - cleared
      && (Kept(s, effects, last, i) ==> i < |t.modules| && t.modules[i].pending == s.modules[i].pending - cleared)
      && (!Kept(s, effects, last, i) && i < |t.modules| ==> t.modules[i].pending == {})
  {
    hide ToBin, Required, Affected, FlaggedBefore, Storing;
    var k := FirstFailure(s, link, 0);
    ReachedFlags(s, effects, k);
    ReachedModule(s, effects, k, i);
    if k < 11 {
      KeptOneMore(s, effects, k, i);
      AffectedFlags(Reached(s, effects, k), Required(Reached(s, effects, k), k), effects, k, i);
    }
  }

  lemma AffectedFlags(s: State, action: Action, effects: Effects, id: PropId, i: nat)
    requires Proper(s) && Storing(effects)
    ensures var r := Affected(s, action, effects(id));
      && (i < |s.modules| && i < effects(id).count ==> i < |r.modules| && r.modules[i].pending == s.modules[i].pending)
      && (i >= |s.modules| && i < |r.modules| ==> r.modules[i].pending == {})
  {
    hide ToBin;
    if i < |s.modules| {
      assert Whole(s.modules[i]);
      assert OnlyChanges(id, s.modules[i], effects(id).stored(i, s.modules[i]));
    }
  }

  /**
    A pass delivers: when it comes to a property, and the module is still there, the action it takes gives the
    module the bytes its value had before the pass, whatever the earlier communications read or found
    missing, unless the property was flagged for reading as well. Then nothing is written.
    */
  lemma PassDelivers(s: State, effects: Effects, i: nat, id: PropId)
    requires Proper(s) && Storing(effects) && Kept(s, effects, id, i)
    requires HasSerializer(id) && id in s.modules[i].pending && id in s.toWrite
    ensures var t := Reached(s, effects, id);
      && Proper(t) && i < |t.modules|
      && Received(t, Required(t, id), id, i) == if id in s.toRead then None else ToBin(id, s.modules[i])
  {
    hide ToBin, CanBroadcast, FlaggedBefore, Storing;
    ReachedFlags(s, effects, id);
    ReachedModule(s, effects, id, i);
    OneMoreFlagged(s, id);
    var t := Reached(s, effects, id);
    if Required(t, id) == Broadcast {
      BroadcastMeansAllAlike(t, id, i);
    }
  }

  /** What is communicated: the flagged properties, each with what the display requires when the pass comes to it. */
  lemma {:induction false} LogIs(s: State, effects: Effects, k: nat, id: PropId, action: Action)
    requires k <= 11
    ensures (id, action) in Log(s, effects, k) <==>
      id < k && Flagged(s, id) && action == Required(Reached(s, effects, id), id)
  {
    hide Required, Reached, Flagged;
    if k > 0 {
      LogIs(s, effects, k - 1, id, action);
      ReachedFlags(s, effects, k - 1);
    }
  }

  /**
    A module that has joined during the pass is not flagged, so what could have been broadcast is written
    separately.
    */
  lemma GrowthForbidsBroadcast(s: State, effects: Effects, id: PropId, i: nat)
    requires Proper(s) && Storing(effects) && !Kept(s, effects, id, i) && i < |Reached(s, effects, id).modules|
    ensures Required(Reached(s, effects, id), id) != Broadcast
  {
    hide ToBin, FlaggedBefore, Storing, Kept;
    ReachedModule(s, effects, id, i);
  }

  // ---------------------------------------------------------------- the display

  class Display {
    var modules: seq<Module>
    var syncPropReadRequired: set<PropId>
    var syncPropWriteRequired: set<PropId>

    function View(): State reads this { State(modules, syncPropReadRequired, syncPropWriteRequired) }

    ghost predicate Valid() reads this { Proper(View()) }

    constructor ()
      ensures Valid() && View() == State([], {}, {})
    {
      modules, syncPropReadRequired, syncPropWriteRequired := [], {}, {};
    }

    method ResizeTo(count: nat)
      requires Valid() && count < 0x1_0000
      modifies this`modules
      ensures Valid() && View() == Resized(old(View()), count)
    {
      ghost var s := View();
      if count == |modules| {
        assert modules[..count] == modules;
        return;
      }
      var kept := modules[..if count < |modules| then count else |modules|];
      var i := |modules|;
      while i < count
        invariant |modules| == |s.modules| && modules == s.modules
        invariant i >= |modules| && (|modules| <= count ==> i <= count)
        invariant count > |modules| ==> |kept| == i
        invariant count <= |modules| ==> kept == modules[..count]
        invariant forall k :: 0 <= k < |kept| ==> kept[k] == if k < |modules| then modules[k] else NewModule()
      {
        kept := kept + [NewModule()];
        i := i + 1;
      }
      modules := kept;
      assert modules == Resized(s, count).modules;
    }

    /** From now on a separate write of the property includes the module; nothing else changes for it. */
    method ModuleIndicateDesynchronized(i: nat, id: PropId)
      requires Valid() && i < |modules|
      modifies this`modules
      ensures Valid() && View() == ModuleFlagged(old(View()), i, id)
      ensures Received(View(), Write, id, i) == ToBin(id, old(modules)[i])
      ensures forall other: PropId :: other != id ==>
        Received(View(), Write, other, i) == Received(old(View()), Write, other, i)
    {
      hide ToBin;
      forall other: PropId
        ensures ToBin(other, modules[i].(pending := modules[i].pending + {id})) == ToBin(other, modules[i])
      {
        PendingNotSerialised(other, modules[i], modules[i].pending + {id});
      }
      modules := modules[i := modules[i].(pending := modules[i].pending + {id})];
    }

    /** From now on the next pass does something about the property. */
    method IndicateDesynchronized(id: PropId, read: bool)
      requires Valid()
      modifies this`syncPropReadRequired, this`syncPropWriteRequired
      ensures Valid() && View() == DisplayFlagged(old(View()), id, read)
      ensures Required(View(), id) != Nothing && (read ==> Required(View(), id) == Read)
    {
      if read {
        syncPropReadRequired := syncPropReadRequired + {id};
      } else {
        syncPropWriteRequired := syncPropWriteRequired + {id};
      }
    }

    method PropSyncDone(id: PropId)
      requires Valid()
      modifies this
      ensures Valid() && View() == Done(old(View()), {id})
    {
      ghost var s := View();
      ghost var done := Unpended(s.modules, {id});
      syncPropReadRequired := syncPropReadRequired - {id};
      syncPropWriteRequired := syncPropWriteRequired - {id};
      var i := 0;
      while i < |modules|
        invariant i <= |modules| == |s.modules|
        invariant forall k :: 0 <= k < i ==> modules[k] == done[k]
        invariant forall k :: i <= k < |modules| ==> modules[k] == s.modules[k]
        invariant syncPropReadRequired == s.toRead - {id} && syncPropWriteRequired == s.toWrite - {id}
      {
        modules := modules[i := modules[i].(pending := modules[i].pending - {id})];
        i := i + 1;
      }
      assert modules == done;
    }

    /** The loop counter is signed: from 32768 on it is below every size, until it names no module. */
    method PropSyncRequired(id: PropId) returns (action: Action)
      requires Valid()
      ensures action == Required(View(), id)
    {
      if id in syncPropReadRequired {
        return Read;
      }
      if id !in syncPropWriteRequired {
        return Nothing;
      }
      var size := |modules|;
      var can := size > 0 && id in modules[0].pending && HasCompare(id);
      var i := 1;
      while can && (i >= 0x8000 || i < size)
        invariant 1 <= i <= 0x1_0000
        invariant can ==> 0 < size && HasCompare(id) && i <= size
        invariant can ==> forall k :: 0 <= k < i ==> id in modules[k].pending
        invariant can ==> forall k :: 0 < k < i ==> Compare(id, modules[0], modules[k])
        invariant !can ==> !CanBroadcast(View(), id)
        decreases 0x1_0000 - i
      {
        can := i < size && id in modules[i].pending && Compare(id, modules[0], modules[i]);
        i := i + 1;
      }
      action := if can then Broadcast else Write;
    }

    /** The synchronising task's pass over the properties; it stops at the first that fails three times. */
    method SynchronizePass(link: Link, effects: Effects) returns (log: seq<(PropId, Action)>, failed: Option<PropId>)
      requires Valid() && Storing(effects)
      modifies this
      ensures Valid() && View() == AfterPass(old(View()), link, effects)
      ensures log == Log(old(View()), effects, FirstFailure(old(View()), link, 0))
      ensures failed == if FirstFailure(old(View()), link, 0) < 11
        then Some(FirstFailure(old(View()), link, 0)) else None
    {
      hide Required, Affected, Done, Proper, Storing;
      ghost var s := View();
      log := [];
      failed := None;
      var propId := 0;
      while propId < PROP_CNT
        invariant propId <= 11 && Valid() && failed == None
        invariant View() == Reached(s, effects, propId) && log == Log(s, effects, propId)
        invariant FirstFailure(s, link, 0) == FirstFailure(s, link, propId)
      {
        ReachedFlags(s, effects, propId);
        var action := PropSyncRequired(propId);
        if action != Nothing {
          var ok := Communicate(link, effects, propId, action);
          if !ok {
            failed := Some(propId);
            return;
          }
          PropSyncDone(propId);
          log := log + [(propId, action)];
        }
        propId := propId + 1;
      }
    }

    /** At most three attempts. */
    method Communicate(link: Link, effects: Effects, id: PropId, action: Action) returns (ok: bool)
      requires Valid() && Storing(effects)
      modifies this
      ensures ok == !Fails(link, id)
      ensures Valid() && View() == Affected(old(View()), action, effects(id))
    {
      AffectedProper(View(), action, effects, id);
      var attempt := 1;
      ok := link(id, attempt);
      while !ok && attempt < 3
        invariant 1 <= attempt <= 3
        invariant ok ==> !Fails(link, id)
        invariant !ok ==> !link(id, 1) && (attempt >= 2 ==> !link(id, 2)) && (attempt >= 3 ==> !link(id, 3))
      {
        attempt := attempt + 1;
        assert attempt == 2 || attempt == 3;
        ok := link(id, attempt);
      }
      modules := Affected(View(), action, effects(id)).modules;
    }

    /** The upload's chunk handler up to its synchronisation: every module gets the page. */
    method StoreFirmwarePage(index: nat, data: seq<bv8>) returns (ok: bool)
      requires Valid() && index < 0x1_0000 && |data| == 128
      modifies this
      ensures Valid() && (ok <==> old(modules) != [])
      ensures View() == if ok then AllPaged(old(View()), FirmwarePage(index, data)) else old(View())
      ensures ok && FIRMWARE_UPDATE !in syncPropReadRequired && |modules| < 0x8000 ==>
        Required(View(), FIRMWARE_UPDATE) == Broadcast
    {
      if modules == [] {
        return false;
      }
      var i := 0;
      while i < |modules|
        invariant i <= |modules| == |old(modules)| && Valid()
        invariant forall k :: 0 <= k < i ==> modules[k] == WithPage(old(modules)[k], FirmwarePage(index, data))
        invariant forall k :: i <= k < |modules| ==> modules[k] == old(modules)[k]
        invariant syncPropReadRequired == old(syncPropReadRequired)
          && syncPropWriteRequired == old(syncPropWriteRequired)
      {
        modules := modules[i := WithPage(modules[i], FirmwarePage(index, data))];
        i := i + 1;
      }
      assert modules == AllPaged(old(View()), FirmwarePage(index, data)).modules;
      IndicateDesynchronized(FIRMWARE_UPDATE, false);
      ok := true;
    }
  }

  /** Every module has been given the same firmware page to write. */
  function AllPaged(s: State, page: FirmwarePage): State {
    DisplayFlagged(s.(modules := seq(|s.modules|, i requires 0 <= i < |s.modules| => WithPage(s.modules[i], page))),
                   FIRMWARE_UPDATE, false)
  }

  /** A module that has been given a firmware page to write. */
  function WithPage(m: Module, page: FirmwarePage): Module {
    m.(firmwareUpdate := Some(page), pending := m.pending + {FIRMWARE_UPDATE})
  }
}
