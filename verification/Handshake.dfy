/**
  A firmware upload against the synchronising task, in every interleaving. The web server gives each chunk to
  all modules, lowers one event bit, raises another and waits for the first; the task takes the second, makes
  a pass over the properties and sets the first. The bits do not say which pass has ended.
  */
module Handshake {
  import opened Values
  import opened Properties
  import opened Display

  /**
    How one pass goes: which attempts succeed, which of them reach the module that is watched, and what the
    communication does to the model.
    */
  datatype Pass = Pass(link: Link, reaches: Link, effects: Effects)

  /** The pages of a file, which chunks the client sends, the passes in their order, and the module that is watched. */
  datatype Setting = Setting(pages: seq<FirmwarePage>, received: nat -> bool, passes: nat -> Pass, watched: nat)

  /** The task waits for its bit, or its pass comes to a property; from the last one on, to its end. */
  datatype Task = Blocked | Passing(id: nat)

  /**
    The web server: receiving chunk k, giving it to the modules one by one, flagging the display, lowering
    the one bit, raising the other, and waiting. After the last chunk the same is done with a command to
    reboot, under the number of pages. The size is that of the display when the chunk arrived.
    */
  datatype Server =
    | Receiving(k: nat)
    | Giving(k: nat, size: nat, j: nat)
    | Flagging(k: nat, size: nat)
    | Lowering(k: nat, size: nat)
    | Raising(k: nat, size: nat)
    | Waiting(k: nat, size: nat)
    | Answered(ok: bool)
    | Aborted   // an assertion of the source

  /**
    The model and the two bits, the task and the passes it has ended, the server, the chunks whose handler
    has returned successfully, and what the watched module has received of the firmware. For the record also
    how many passes had begun when the display was last flagged, and the waits that were ended although no
    pass begun after that had ended.
    */
  datatype World = World(
    display: State, desynchronized: bool, synchronized: bool, task: Task, ended: nat,
    server: Server, handled: set<nat>, inbox: seq<Wire>, flagged: nat, early: set<nat>
  )

  datatype Turn = ServerTurn | TaskTurn | Timeout

  function Begun(w: World): nat {
    if w.task.Passing? then w.ended + 1 else w.ended
  }

  // ---------------------------------------------------------------- the server

  /** What a module is given: its page, or the command to reboot. */
  function GivenTo(u: Setting, k: nat, m: Module): Module {
    if k < |u.pages| then WithPage(m, u.pages[k]) else m.(command := 1, pending := m.pending + {COMMAND})
  }

  function PropertyOf(u: Setting, k: nat): PropId {
    if k < |u.pages| then FIRMWARE_UPDATE else COMMAND
  }

  /** The first j modules have been given what they are to get. */
  function Given(s: State, u: Setting, k: nat, j: nat): State {
    s.(modules := seq(|s.modules|, i requires 0 <= i < |s.modules| =>
         if i < j then GivenTo(u, k, s.modules[i]) else s.modules[i]))
  }

  function ServerStep(u: Setting, w: World): World {
    match w.server
    case Receiving(k) =>
      if k >= |u.pages| then w.(server := Answered(true))
      else if !u.received(k) || w.display.modules == [] then w.(server := Answered(false))
      else w.(server := Giving(k, |w.display.modules|, 0))
    case Giving(k, size, j) =>
      if j >= size then w.(server := Flagging(k, size))
      else if j < |w.display.modules| then
        w.(display := w.display.(modules := w.display.modules[j := GivenTo(u, k, w.display.modules[j])]),
           server := Giving(k, size, j + 1))
      else if k < |u.pages| then w.(server := Aborted)
      else w.(server := Giving(k, size, j + 1))
    case Flagging(k, size) =>
      w.(display := DisplayFlagged(w.display, PropertyOf(u, k), false), server := Lowering(k, size),
          flagged := Begun(w))
    case Lowering(k, size) => w.(synchronized := false, server := Raising(k, size))
    case Raising(k, size) => w.(desynchronized := true, server := Waiting(k, size))
    case Waiting(k, size) => if w.synchronized then Returned(u, w) else w
    case Answered(_) => w
    case Aborted => w
  }

  /** The wait takes the bit. The last chunk is handled only when the wait for the reboot has returned too. */
  function Returned(u: Setting, w: World): World
    requires w.server.Waiting?
  {
    var k, n := w.server.k, |u.pages|;
    w.(synchronized := false,
       early := if w.ended > w.flagged then w.early else w.early + {k},
       handled := if k + 1 < n then w.handled + {k} else if k >= n > 0 then w.handled + {n - 1} else w.handled,
       server := if k + 1 < n then Receiving(k + 1)
                 else if k < n then Giving(n, w.server.size, 0)
                 else Answered(true))
  }

  // ---------------------------------------------------------------- the task

  /** How many of the attempts that are made reach the watched module. */
  function Copies(pass: Pass, id: PropId): nat {
    (if pass.reaches(id, 1) then 1 else 0)
    + (if !pass.link(id, 1) && pass.reaches(id, 2) then 1 else 0)
    + (if !pass.link(id, 1) && !pass.link(id, 2) && pass.reaches(id, 3) then 1 else 0)
  }

  /**
    If the first success is attempt a and every attempt reaches the module, it gets a copies; without a
    success three.
    */
  lemma CopiesAre(pass: Pass, id: PropId, a: nat)
    requires 1 <= a <= 3 && (a == 3 || pass.link(id, a))
    requires (a > 1 ==> !pass.link(id, 1)) && (a > 2 ==> !pass.link(id, 2))
    requires pass.reaches(id, 1) && pass.reaches(id, 2) && pass.reaches(id, 3)
    ensures Copies(pass, id) == a
  {
  }

  function Repeated<T>(x: T, n: nat): (r: seq<T>)
    ensures |r| == n && forall i :: 0 <= i < n ==> r[i] == x
  {
    seq(n, _ => x)
  }

  /** What the watched module gets when a pass comes to the firmware page. */
  ghost function Got(s: State, pass: Pass, i: nat): seq<Wire> {
    if Proper(s) && i < |s.modules| && Received(s, Required(s, FIRMWARE_UPDATE), FIRMWARE_UPDATE, i).Some?
    then Repeated(Received(s, Required(s, FIRMWARE_UPDATE), FIRMWARE_UPDATE, i).value, Copies(pass, FIRMWARE_UPDATE))
    else []
  }

  ghost function TaskStep(u: Setting, w: World): World {
    match w.task
    case Blocked => if w.desynchronized then w.(desynchronized := false, task := Passing(0)) else w
    case Passing(id) =>
      if id >= 11 then w.(task := Blocked, synchronized := true, ended := w.ended + 1)
      else Communicated(u, w, id)
  }

  /** One property of a pass. A communication that fails three times ends it. */
  ghost function Communicated(u: Setting, w: World, id: PropId): World {
    var action := Required(w.display, id);
    var pass := u.passes(w.ended);
    var affected := Affected(w.display, action, pass.effects(id));
    var inbox := if id == FIRMWARE_UPDATE then w.inbox + Got(w.display, pass, u.watched) else w.inbox;
    if action == Nothing then w.(task := Passing(id + 1))
    else if Fails(pass.link, id) then w.(display := affected, task := Passing(11), inbox := inbox)
    else w.(display := Done(affected, {id}), task := Passing(id + 1), inbox := inbox)
  }

  // ---------------------------------------------------------------- runs

  ghost function Next(u: Setting, w: World, turn: Turn): World {
    match turn
    case ServerTurn => ServerStep(u, w)
    case TaskTurn => TaskStep(u, w)
    case Timeout => if w.server.Waiting? && !w.synchronized then w.(server := Answered(false)) else w
  }

  /** The world after any schedule; a turn of somebody who waits changes nothing. */
  ghost function After(u: Setting, w: World, schedule: seq<Turn>): World
    decreases |schedule|
  {
    if schedule == [] then w else After(u, Next(u, w, schedule[0]), schedule[1..])
  }

  lemma {:induction false} AfterBoth(u: Setting, w: World, a: seq<Turn>, b: seq<Turn>)
    ensures After(u, w, a + b) == After(u, After(u, w, a), b)
    decreases |a|
  {
    hide Next;
    if a == [] {
      assert a + b == b;
    } else {
      assert (a + b)[1..] == a[1..] + b;
      AfterBoth(u, Next(u, w, a[0]), a[1..], b);
    }
  }

  /** Whole pages; a successful attempt reaches the module; reading stores no other property. */
  ghost predicate Sound(u: Setting) {
    && (forall k :: 0 <= k < |u.pages| ==> u.pages[k].index < 0x1_0000 && |u.pages[k].data| == 128)
    && (forall n: nat :: Storing(u.passes(n).effects))
    && (forall n: nat, id: PropId, a: nat :: u.passes(n).link(id, a) ==> u.passes(n).reaches(id, a))
  }

  /** The server is about to receive a chunk of a file. */
  ghost predicate AtChunk(u: Setting, w: World) {
    Sound(u) && Proper(w.display) && w.server.Receiving? && w.server.k < |u.pages|
  }

  /** No pass is under way and none has been asked for. */
  predicate Quiet(w: World) {
    w.task == Blocked && !w.desynchronized
  }

  // ---------------------------------------------------------------- one pass for each chunk

  /** The pass that belongs to a chunk, when each has its own. */
  function OwnPass(u: Setting, w0: World, k: nat): Pass
    requires w0.server.Receiving? && w0.server.k <= k
  {
    u.passes(w0.ended + k - w0.server.k)
  }

  /** The display when chunk k arrives, if each chunk from w0 on has had a whole pass for itself. */
  ghost function Before(u: Setting, w0: World, k: nat): State
    requires AtChunk(u, w0) && w0.server.k <= k <= |u.pages| + 1
    decreases k, 0
  {
    if k == w0.server.k then w0.display
    else AfterPass(Stored(u, w0, k - 1), OwnPass(u, w0, k - 1).link, OwnPass(u, w0, k - 1).effects)
  }

  /** How many modules are given chunk k; the command to reboot goes to as many as the last chunk. */
  ghost function SizeAt(u: Setting, w0: World, k: nat): nat
    requires AtChunk(u, w0) && w0.server.k <= k <= |u.pages|
    decreases k, 1
  {
    if k < |u.pages| then |Before(u, w0, k).modules| else |Before(u, w0, |u.pages| - 1).modules|
  }

  /** The display when the pass for chunk k begins. */
  ghost function Stored(u: Setting, w0: World, k: nat): State
    requires AtChunk(u, w0) && w0.server.k <= k <= |u.pages|
    decreases k, 2
  {
    DisplayFlagged(Given(Before(u, w0, k), u, k, SizeAt(u, w0, k)), PropertyOf(u, k), false)
  }

  /** It is the display that the handler of a chunk leaves behind. */
  lemma StoredIsPaged(u: Setting, w0: World, k: nat)
    requires AtChunk(u, w0) && w0.server.k <= k < |u.pages|
    ensures Stored(u, w0, k) == AllPaged(Before(u, w0, k), u.pages[k])
  {
    hide Before;
    assert Stored(u, w0, k).modules == AllPaged(Before(u, w0, k), u.pages[k]).modules;
  }

  /** What the watched module gets in the pass for chunk k. */
  ghost function Delivered(u: Setting, w0: World, k: nat): seq<Wire>
    requires AtChunk(u, w0) && w0.server.k <= k <= |u.pages|
  {
    var s, pass := Stored(u, w0, k), OwnPass(u, w0, k);
    if FIRMWARE_UPDATE <= FirstFailure(s, pass.link, 0)
    then Got(Reached(s, pass.effects, FIRMWARE_UPDATE), pass, u.watched)
    else []
  }

  ghost function Inbox(u: Setting, w0: World, k: nat): seq<Wire>
    requires AtChunk(u, w0) && w0.server.k <= k <= |u.pages| + 1
  {
    if k == w0.server.k then w0.inbox else Inbox(u, w0, k - 1) + Delivered(u, w0, k - 1)
  }

  // ---------------------------------------------------------------- the invariant

  /** A pass over s has come to a property, or to its end. */
  ghost predicate Along(s: State, pass: Pass, id: nat, t: State) {
    || (id <= FirstFailure(s, pass.link, 0) && t == Reached(s, pass.effects, id))
    || (id == 11 && t == AfterPass(s, pass.link, pass.effects))
  }

  ghost predicate InOwnPass(u: Setting, w0: World, w: World, k: nat)
    requires AtChunk(u, w0) && w0.server.k <= k <= |u.pages|
  {
    var nth := w0.ended + k - w0.server.k;
    var s, pass := Stored(u, w0, k), OwnPass(u, w0, k);
    match w.task
    case Passing(id) =>
      && !w.desynchronized && !w.synchronized && w.ended == nth && Along(s, pass, id, w.display) && id <= 11
      && w.inbox == Inbox(u, w0, k) + if id > FIRMWARE_UPDATE then Delivered(u, w0, k) else []
    case Blocked =>
      if w.desynchronized then !w.synchronized && w.ended == nth && w.display == s && w.inbox == Inbox(u, w0, k)
      else w.synchronized && w.ended == nth + 1 && w.display == Before(u, w0, k + 1) && w.inbox == Inbox(u, w0, k + 1)
  }

  /** The server has come to chunk k and nothing has been asked for since the pass before. */
  ghost predicate Between(u: Setting, w0: World, w: World, k: nat)
    requires AtChunk(u, w0)
  {
    && w0.server.k <= k <= |u.pages|
    && Quiet(w) && w.ended == w0.ended + k - w0.server.k && w.inbox == Inbox(u, w0, k)
  }

  /** Each chunk from w0 on has a pass of its own. */
  ghost predicate Inv(u: Setting, w0: World, w: World)
    requires AtChunk(u, w0)
  {
    && w.early == w0.early
    && match w.server
       case Receiving(k) => Between(u, w0, w, k) && k < |u.pages| && w.display == Before(u, w0, k)
       case Giving(k, size, j) =>
         && Between(u, w0, w, k) && size == SizeAt(u, w0, k) && j <= size
         && w.display == Given(Before(u, w0, k), u, k, j)
       case Flagging(k, size) =>
         && Between(u, w0, w, k) && size == SizeAt(u, w0, k)
         && w.display == Given(Before(u, w0, k), u, k, size)
       case Lowering(k, size) =>
         && Between(u, w0, w, k) && size == SizeAt(u, w0, k)
         && w.display == Stored(u, w0, k) && w.flagged == w.ended
       case Raising(k, size) =>
         && Between(u, w0, w, k) && size == SizeAt(u, w0, k)
         && w.display == Stored(u, w0, k) && w.flagged == w.ended && !w.synchronized
       case Waiting(k, size) =>
         && w0.server.k <= k <= |u.pages| && size == SizeAt(u, w0, k)
         && w.flagged == w0.ended + k - w0.server.k && InOwnPass(u, w0, w, k)
       case Answered(ok) => ok ==> Quiet(w) && w.inbox == Inbox(u, w0, |u.pages| + 1)
       case Aborted => false
  }

  /** One property of a pass brings it to the next, or to its end. */
  lemma PassGoesOn(s: State, pass: Pass, id: PropId, t: State)
    requires Along(s, pass, id, t)
    ensures id <= FirstFailure(s, pass.link, 0) && t == Reached(s, pass.effects, id)
    ensures var action := Required(t, id);
      var affected := Affected(t, action, pass.effects(id));
      if action == Nothing then Along(s, pass, id + 1, t)
      else if Fails(pass.link, id) then Along(s, pass, 11, affected)
      else Along(s, pass, id + 1, Done(affected, {id}))
    ensures Fails(pass.link, id) && Required(t, id) != Nothing <==> FirstFailure(s, pass.link, 0) == id
  {
    hide Required, Affected, Done, Fails, FirstFailure;
    ReachedFlags(s, pass.effects, id);
  }

  lemma PassStarts(s: State, pass: Pass)
    ensures Along(s, pass, 0, s)
  {
  }

  lemma PassIsOver(s: State, pass: Pass, t: State)
    requires Along(s, pass, 11, t)
    ensures t == AfterPass(s, pass.link, pass.effects)
  {
  }

  lemma TaskKeepsInv(u: Setting, w0: World, w: World)
    requires AtChunk(u, w0) && Inv(u, w0, w)
    ensures Inv(u, w0, TaskStep(u, w))
  {
    hide Required, Affected, Done, Fails, FirstFailure, Reached, Got, Stored, SizeAt, AfterPass, Given;
    if w.server.Waiting? {
      var k := w.server.k;
      var s, pass := Stored(u, w0, k), OwnPass(u, w0, k);
      PassStarts(s, pass);
      if w.task.Blocked? {
        return;
      }
      var id := w.task.id;
      if id < 11 {
        PassGoesOn(s, pass, id, w.display);
        if id == FIRMWARE_UPDATE && Required(w.display, id) == Nothing {
          NothingGot(w.display, pass, u.watched);
        }
      } else {
        PassIsOver(s, pass, w.display);
      }
    }
  }

  lemma NothingGot(s: State, pass: Pass, i: nat)
    requires Required(s, FIRMWARE_UPDATE) == Nothing
    ensures Got(s, pass, i) == []
  {
  }

  lemma OneMoreGiven(s: State, u: Setting, k: nat, j: nat)
    ensures Given(s, u, k, 0) == s
    ensures |Given(s, u, k, j).modules| == |s.modules|
    ensures var g := Given(s, u, k, j);
      Given(s, u, k, j + 1) ==
        if j < |s.modules| then g.(modules := g.modules[j := GivenTo(u, k, g.modules[j])]) else g
  {
    hide GivenTo;
    var g, more := Given(s, u, k, j), Given(s, u, k, j + 1);
    assert Given(s, u, k, 0).modules == s.modules;
    if j < |s.modules| {
      assert more.modules == g.modules[j := GivenTo(u, k, g.modules[j])];
    } else {
      assert more.modules == g.modules;
    }
  }

  lemma ServerKeepsInv(u: Setting, w0: World, w: World)
    requires AtChunk(u, w0) && Inv(u, w0, w)
    ensures Inv(u, w0, ServerStep(u, w))
  {
    hide Required, FirstFailure, Delivered, AfterPass, Given, GivenTo, Before;
    match w.server
    case Receiving(k) => OneMoreGiven(w.display, u, k, 0);
    case Giving(k, size, j) => OneMoreGiven(Before(u, w0, k), u, k, j);
    case Waiting(k, size) => OneMoreGiven(w.display, u, k + 1, 0);
    case _ =>
  }

  lemma NextKeepsInv(u: Setting, w0: World, w: World, turn: Turn)
    requires AtChunk(u, w0) && Inv(u, w0, w)
    ensures Inv(u, w0, Next(u, w, turn))
  {
    hide ServerStep, TaskStep, Before, InOwnPass, Between, SizeAt, Stored, Given;
    match turn
    case ServerTurn => ServerKeepsInv(u, w0, w);
    case TaskTurn => TaskKeepsInv(u, w0, w);
    case Timeout =>
  }

  lemma {:induction false} AfterKeepsInv(u: Setting, w0: World, w: World, schedule: seq<Turn>)
    requires AtChunk(u, w0) && Inv(u, w0, w)
    ensures Inv(u, w0, After(u, w, schedule))
    decreases |schedule|
  {
    hide Inv, Next, AtChunk;
    if schedule != [] {
      NextKeepsInv(u, w0, w, schedule[0]);
      AfterKeepsInv(u, w0, Next(u, w, schedule[0]), schedule[1..]);
    }
  }

  // ---------------------------------------------------------------- when a wait is ended by an older pass

  /** The server gives the chunk to all modules, asks for a pass and waits, without a turn of the task. */
  lemma {:induction false} ServerAsks(u: Setting, w: World, s: State) returns (schedule: seq<Turn>)
    requires w.server.Giving? && w.server.j <= w.server.size && w.display == Given(s, u, w.server.k, w.server.j)
    requires w.server.k < |u.pages| ==> w.server.size <= |s.modules|
    ensures var k, size := w.server.k, w.server.size;
      After(u, w, schedule) ==
        w.(display := DisplayFlagged(Given(s, u, k, size), PropertyOf(u, k), false), flagged := Begun(w),
           synchronized := false, desynchronized := true, server := Waiting(k, size))
    decreases w.server.size - w.server.j
  {
    hide Given, GivenTo, PropertyOf;
    if w.server.j < w.server.size {
      OneMoreGiven(s, u, w.server.k, w.server.j);
      var rest := ServerAsks(u, ServerStep(u, w), s);
      schedule := [ServerTurn] + rest;
    } else {
      schedule := [ServerTurn, ServerTurn, ServerTurn, ServerTurn];
      var w1 := ServerStep(u, w);
      var w2 := ServerStep(u, w1);
      var w3 := ServerStep(u, w2);
      assert After(u, w, schedule) == After(u, w1, [ServerTurn, ServerTurn, ServerTurn]);
      assert After(u, w1, [ServerTurn, ServerTurn, ServerTurn]) == After(u, w2, [ServerTurn, ServerTurn]);
      assert After(u, w2, [ServerTurn, ServerTurn]) == After(u, w3, [ServerTurn]);
      assert After(u, w3, [ServerTurn]) == After(u, ServerStep(u, w3), []);
    }
  }

  /** A pass has run to its end; nothing else has happened. */
  ghost predicate PassEnded(w: World, e: World) {
    && e.task == Blocked && e.synchronized && e.ended == w.ended + 1
    && e == w.(display := e.display, task := Blocked, ended := w.ended + 1, synchronized := true, inbox := e.inbox)
    && (w.task.Passing? && w.task.id > FIRMWARE_UPDATE ==> e.inbox == w.inbox)
  }

  lemma {:induction false} PassEnds(u: Setting, w: World) returns (schedule: seq<Turn>)
    requires w.task.Passing?
    ensures PassEnded(w, After(u, w, schedule))
    decreases if w.task.id < 11 then 11 - w.task.id else 0
  {
    hide Required, Affected, Done, Fails, Got;
    if w.task.id < 11 {
      var rest := PassEnds(u, TaskStep(u, w));
      schedule := [TaskTurn] + rest;
    } else {
      schedule := [TaskTurn];
      assert After(u, w, schedule) == After(u, TaskStep(u, w), []);
    }
  }

  /** A pass that is under way ends the wait for a chunk that was given after it had begun. */
  lemma Overtakes(u: Setting, w: World) returns (schedule: seq<Turn>)
    requires AtChunk(u, w) && w.task.Passing? && u.received(w.server.k) && w.display.modules != []
    ensures var k, e := w.server.k, After(u, w, schedule);
      && e.early == w.early + {k} && e.task == Blocked && e.desynchronized && e.ended == w.ended + 1
      && (k + 1 < |u.pages| ==> e.server == Receiving(k + 1) && e.handled == w.handled + {k})
      && (w.task.id > FIRMWARE_UPDATE ==> e.inbox == w.inbox)
  {
    hide Given, Proper, TaskStep, Sound;
    var w1 := ServerStep(u, w);
    OneMoreGiven(w.display, u, w.server.k, 0);
    var asked := ServerAsks(u, w1, w.display);
    var w2 := After(u, w1, asked);
    var ended := PassEnds(u, w2);
    var w3 := After(u, w2, ended);
    var w4 := ServerStep(u, w3);
    AfterBoth(u, w1, asked, ended);
    AfterBoth(u, w1, asked + ended, [ServerTurn]);
    schedule := [ServerTurn] + (asked + ended + [ServerTurn]);
    assert schedule[1..] == asked + ended + [ServerTurn];
    assert After(u, w3, [ServerTurn]) == After(u, w4, []);
  }

  /**
    With no pass under way and none asked for, every wait of the upload is ended by a pass begun after the
    chunk was flagged.
    */
  lemma EachWaitIsOwn(u: Setting, w0: World, schedule: seq<Turn>)
    requires AtChunk(u, w0) && Quiet(w0)
    ensures After(u, w0, schedule).early == w0.early
    ensures Inv(u, w0, After(u, w0, schedule))
  {
    hide After, Next, Proper, Sound;
    StartHasInv(u, w0);
    AfterKeepsInv(u, w0, w0, schedule);
  }

  lemma StartHasInv(u: Setting, w0: World)
    requires AtChunk(u, w0) && Quiet(w0)
    ensures Inv(u, w0, w0)
  {
  }

  /** And with no other start is that so in all interleavings, whatever the link does. */
  lemma OwnPassIff(u: Setting, w0: World)
    requires AtChunk(u, w0) && u.received(w0.server.k) && w0.display.modules != [] && w0.server.k !in w0.early
    ensures (forall schedule :: w0.server.k !in After(u, w0, schedule).early) <==> Quiet(w0)
  {
    hide After, Inv, Communicated, Proper, Sound;
    if Quiet(w0) {
      forall schedule
        ensures w0.server.k !in After(u, w0, schedule).early
      {
        EachWaitIsOwn(u, w0, schedule);
      }
    } else if w0.task.Passing? {
      var schedule := Overtakes(u, w0);
      assert w0.server.k in After(u, w0, schedule).early;
    } else {
      var schedule := OvertakesFromRest(u, w0);
      assert w0.server.k in After(u, w0, schedule).early;
    }
  }

  lemma OvertakesFromRest(u: Setting, w: World) returns (schedule: seq<Turn>)
    requires AtChunk(u, w) && w.task.Blocked? && w.desynchronized && u.received(w.server.k) && w.display.modules != []
    ensures w.server.k in After(u, w, schedule).early
  {
    hide Proper, Sound, ServerStep;
    var rest := Overtakes(u, TaskStep(u, w));
    schedule := [TaskTurn] + rest;
    assert schedule[1..] == rest;
  }

  // ---------------------------------------------------------------- an upload can always be answered with success

  /** Every chunk arrives, and every communication finds a module. */
  ghost predicate Lively(u: Setting) {
    && (forall k :: 0 <= k < |u.pages| ==> u.received(k))
    && forall n: nat, id: PropId :: u.passes(n).effects(id).count > 0
  }

  lemma NeverEmpty(u: Setting, w: World, turn: Turn)
    requires Lively(u) && w.display.modules != []
    ensures Next(u, w, turn).display.modules != []
  {
    hide Required, Fails, Got, GivenTo;
  }

  function ChunksLeft(u: Setting, w: World): nat {
    if w.server.Answered? || w.server.Aborted? || w.server.k > |u.pages| then 0 else |u.pages| + 1 - w.server.k
  }

  function PhasesLeft(w: World): nat {
    match w.server
    case Receiving(_) => 5
    case Giving(_, _, _) => 4
    case Flagging(_, _) => 3
    case Lowering(_, _) => 2
    case Raising(_, _) => 1
    case _ => 0
  }

  function TurnsLeft(w: World): nat {
    match w.server
    case Giving(_, size, j) => if j < size then size - j else 0
    case Waiting(_, _) =>
      if w.synchronized then 0
      else if w.task.Passing? then (if w.task.id < 11 then 12 - w.task.id else 1)
      else 13
    case _ => 0
  }

  /** The one who can act acts. */
  function UsefulTurn(w: World): Turn {
    if w.server.Waiting? && !w.synchronized then TaskTurn else ServerTurn
  }

  lemma UsefulTurnHelps(u: Setting, w0: World, w: World)
    requires AtChunk(u, w0) && Inv(u, w0, w) && Lively(u) && w.display.modules != []
    requires !w.server.Answered?
    ensures var w' := Next(u, w, UsefulTurn(w));
      && w'.server != Answered(false)
      && (w'.server.Answered? || ChunksLeft(u, w') < ChunksLeft(u, w)
         || (ChunksLeft(u, w') == ChunksLeft(u, w) && (PhasesLeft(w') < PhasesLeft(w)
            || (PhasesLeft(w') == PhasesLeft(w) && TurnsLeft(w') < TurnsLeft(w)))))
  {
    hide Required, Affected, Done, Fails, Got, Stored, SizeAt, Before, Inbox, Along, Delivered, Given, GivenTo, Proper,
         Sound, Begun, PropertyOf, DisplayFlagged;
  }

  /** However the attempts go, some interleaving ends with the answer that all is well. */
  lemma {:induction false} CanSucceed(u: Setting, w0: World, w: World) returns (schedule: seq<Turn>)
    requires AtChunk(u, w0) && Inv(u, w0, w) && Lively(u) && w.display.modules != [] && w.server != Answered(false)
    ensures After(u, w, schedule).server == Answered(true)
    decreases ChunksLeft(u, w), PhasesLeft(w), TurnsLeft(w)
  {
    hide Next, Inv, AtChunk, Lively, ChunksLeft, PhasesLeft, TurnsLeft, UsefulTurn;
    if w.server.Answered? {
      schedule := [];
    } else {
      var w' := Next(u, w, UsefulTurn(w));
      UsefulTurnHelps(u, w0, w);
      NextKeepsInv(u, w0, w, UsefulTurn(w));
      NeverEmpty(u, w, UsefulTurn(w));
      if w'.server.Answered? {
        schedule := [UsefulTurn(w)];
        assert After(u, w', []) == w';
      } else {
        var rest := CanSucceed(u, w0, w');
        schedule := [UsefulTurn(w)] + rest;
      }
    }
  }

  // ---------------------------------------------------------------- the answer

  /** So many chunks have arrived and been handled. */
  ghost predicate HandledUpTo(u: Setting, handled: set<nat>, k: nat) {
    && k <= |u.pages| && (forall i: nat :: i in handled <==> i < k)
    && forall i :: 0 <= i < k ==> u.received(i)
  }

  ghost predicate AnswerInv(u: Setting, w: World) {
    match w.server
    case Receiving(k) => HandledUpTo(u, w.handled, k)
    case Answered(ok) =>
      (ok ==> HandledUpTo(u, w.handled, |u.pages|))
      && (!ok ==> exists k :: 0 <= k < |u.pages| && (!u.received(k) || k !in w.handled))
    case Aborted => true
    case _ =>
      var k, n := w.server.k, |u.pages|;
      0 < n && k <= n && HandledUpTo(u, w.handled, if k < n then k else n - 1) && u.received(if k < n then k else n - 1)
  }

  lemma ServerKeepsAnswerInv(u: Setting, w: World)
    requires AnswerInv(u, w)
    ensures AnswerInv(u, ServerStep(u, w))
  {
    hide HandledUpTo, DisplayFlagged, GivenTo, PropertyOf, Begun;
    match w.server
    case Receiving(k) => Unhandled(u, w.handled, k);
    case Waiting(k, _) =>
      Handled(u, w.handled, k);
      Handled(u, w.handled, |u.pages| - 1);
    case _ =>
  }

  lemma Handled(u: Setting, handled: set<nat>, k: nat)
    ensures HandledUpTo(u, handled, k) && k < |u.pages| && u.received(k) ==> HandledUpTo(u, handled + {k}, k + 1)
  {
  }

  lemma Unhandled(u: Setting, handled: set<nat>, k: nat)
    ensures HandledUpTo(u, handled, k) ==> k <= |u.pages| && k !in handled
  {
  }

  lemma NextKeepsAnswerInv(u: Setting, w: World, turn: Turn)
    requires AnswerInv(u, w)
    ensures AnswerInv(u, Next(u, w, turn))
  {
    hide HandledUpTo, ServerStep, Required, Affected, Done, Got, Fails;
    match turn
    case ServerTurn => ServerKeepsAnswerInv(u, w);
    case TaskTurn =>
    case Timeout =>
      if w.server.Waiting? && !w.synchronized {
        Unhandled(u, w.handled, if w.server.k < |u.pages| then w.server.k else |u.pages| - 1);
      }
  }

  /**
    In every interleaving the upload is answered with success if and only if every chunk has arrived and
    every chunk's wait has found the bit set.
    */
  lemma {:induction false} AnsweredOkIff(u: Setting, w: World, schedule: seq<Turn>)
    requires AnswerInv(u, w)
    ensures AnswerInv(u, After(u, w, schedule))
    ensures var e := After(u, w, schedule);
      e.server.Answered? ==> (e.server.ok <==> forall k :: 0 <= k < |u.pages| ==> u.received(k) && k in e.handled)
    decreases |schedule|
  {
    hide Next, DisplayFlagged;
    if schedule != [] {
      NextKeepsAnswerInv(u, w, schedule[0]);
      AnsweredOkIff(u, Next(u, w, schedule[0]), schedule[1..]);
    }
  }

  // ---------------------------------------------------------------- uploads that fail at once

  /** A file without pages is answered with success, a chunk that does not arrive or finds no module with failure. */
  lemma AnsweredAtOnce(u: Setting, w: World)
    requires w.server.Receiving?
    ensures w.server.k >= |u.pages| ==> ServerStep(u, w) == w.(server := Answered(true))
    ensures w.server.k < |u.pages| && (!u.received(w.server.k) || w.display.modules == []) ==>
      ServerStep(u, w) == w.(server := Answered(false))
  {
  }

  /** If the task gets no turn, the wait for a chunk times out, and that is a failure; the page stays flagged. */
  lemma TimesOut(u: Setting, w: World) returns (schedule: seq<Turn>)
    requires AtChunk(u, w) && u.received(w.server.k) && w.display.modules != []
    ensures var e := After(u, w, schedule);
      && e.server == Answered(false) && e.desynchronized && !e.synchronized && e.task == w.task
      && FIRMWARE_UPDATE in e.display.toWrite && e.handled == w.handled
  {
    hide Given, GivenTo, Proper, Sound;
    var w1 := ServerStep(u, w);
    OneMoreGiven(w.display, u, w.server.k, 0);
    var asked := ServerAsks(u, w1, w.display);
    var w2 := After(u, w1, asked);
    AfterBoth(u, w1, asked, [Timeout]);
    schedule := [ServerTurn] + (asked + [Timeout]);
    assert schedule[1..] == asked + [Timeout];
    assert After(u, w2, [Timeout]) == After(u, Next(u, w2, Timeout), []);
  }

  /** A wait that returns has taken the bit: the next one waits for another pass. */
  lemma WaitTakesBit(u: Setting, w: World)
    requires w.server.Waiting? && w.synchronized
    ensures !ServerStep(u, w).synchronized && !ServerStep(u, w).server.Waiting?
    ensures ServerStep(u, w).task == w.task && ServerStep(u, w).desynchronized == w.desynchronized
  {
  }
}
