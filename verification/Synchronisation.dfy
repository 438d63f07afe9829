/**
  Requests against the synchronising task, in every interleaving. A request changes a module's value, flags
  the module and then the display. Meanwhile the task communicates one property at a time: it takes the
  modules' bytes, and after success it clears the property's flags, first the display's and then the
  modules', one by one. What the real modules hold is kept too, so that a write that gets lost shows.
  */
module Synchronisation {
  import opened Values
  import opened Properties
  import opened Display

  /** The bytes a module holds, of the properties of which that is known. */
  type Holding = map<PropId, Option<Wire>>

  /** The bytes taken for modules. */
  type Taken = map<nat, Option<Wire>>

  /**
    Where the task is. While it talks about a property: how many modules there were when it started, which
    it has visited, the bytes taken for each, the modules unchanged since they were compared for a
    broadcast, and the modules whose present value is the one that was taken.
    */
  datatype Task =
    | Elsewhere
    | Talking(id: PropId, action: Action, count: nat, visited: set<nat>, got: Taken,
              alike: set<nat>, current: set<nat>)
    | Clearing(id: PropId, next: nat, current: set<nat>)

  /**
    The model, the requests that have flagged modules but not yet the display, the task, the bytes each real
    module holds as far as they are known, and the writes whose flag was cleared undelivered.
    */
  datatype World = World(
    display: State, midway: multiset<PropId>, task: Task,
    held: seq<Holding>, lost: set<(nat, PropId)>
  )

  datatype Event =
    | Request(i: nat, id: PropId, changed: Module)   // a new value, and the module's flag
    | FlagDisplay(id: PropId, flagged: nat)          // the display's flag, for so many modules flagged before
    | FlagRead(id: PropId)
    | Start(id: PropId)                              // the pass comes to a property that requires an action
    | Visit(i: nat)                                  // a separate write: is the module to be written?
    | TakeShared                                     // a broadcast: module 0's bytes
    | Report(i: nat, reported: Module)               // a read: what a module answers is stored
    | Resize(count: nat)
    | GiveUp(held: seq<Holding>)   // the attempts failed; some bytes may have arrived
    | Succeed                                        // the bytes have arrived; the display's flags are cleared
    | ClearNext                                      // the next module's flag is cleared
    | EndClearing

  // ---------------------------------------------------------------- steps

  /** Only what was being sent to a module can have changed in it. */
  ghost predicate Disturbed(before: seq<Holding>, after: seq<Holding>,
                            id: PropId, got: Taken) {
    && |after| == |before|
    && (forall i :: 0 <= i < |before| && i !in got ==> after[i] == before[i])
    && (forall i :: 0 <= i < |before| ==> after[i] - {id} == before[i] - {id})
  }

  ghost predicate Enabled(w: World, e: Event)
    requires Proper(w.display)
  {
    var modules := w.display.modules;
    match e
    case Request(i, id, changed) =>
      i < |modules| && OnlyChanges(id, modules[i], changed)
    case FlagDisplay(id, flagged) => flagged <= w.midway[id]
    case FlagRead(_) => true
    case Start(id) => w.task.Elsewhere? && Required(w.display, id) != Nothing
    case Visit(i) => w.task.Talking? && w.task.action == Write && i < |modules|
    case TakeShared => w.task.Talking? && w.task.action == Broadcast && 0 < w.task.count <= |modules|
    case Report(i, reported) =>
      && w.task.Talking? && w.task.action == Read && i < |modules|
      && OnlyChanges(w.task.id, modules[i], reported)
    case Resize(count) => !w.task.Clearing? && count < 0x1_0000
    case GiveUp(held) => w.task.Talking? && Disturbed(w.held, held, w.task.id, w.task.got)
    case Succeed =>
      && w.task.Talking?
      && (w.task.action == Write ==> forall i :: 0 <= i < w.task.count ==> i in w.task.visited)
      && (w.task.action == Broadcast && 0 < w.task.count ==> 0 in w.task.got)
    case ClearNext => w.task.Clearing? && w.task.next < |modules|
    case EndClearing => w.task.Clearing? && w.task.next == |modules|
  }

  ghost function Step(w: World, e: Event): World
    requires Proper(w.display) && |w.held| == |w.display.modules| && Enabled(w, e)
  {
    var d := w.display;
    match e
    case Request(i, id, changed) =>
      w.(display := ModuleFlagged(d.(modules := d.modules[i := changed]), i, id), midway := w.midway + multiset{id},
         task := Requested(w.task, i, id), lost := w.lost - {(i, id)})
    case FlagDisplay(id, flagged) =>
      w.(display := DisplayFlagged(d, id, false), midway := w.midway[id := w.midway[id] - flagged])
    case FlagRead(id) => w.(display := DisplayFlagged(d, id, true))
    case Start(id) => w.(task := Started(d, id))
    case Visit(i) => w.(task := Visited(d, w.task, i))
    case TakeShared => w.(task := Shared(d, w.task))
    case Report(i, reported) =>
      w.(display := d.(modules := d.modules[i := reported]),
         held := w.held[i := Told(w.held[i], w.task.id, ToBin(w.task.id, reported))])
    case Resize(count) =>
      w.(display := Resized(d, count), task := Trimmed(w.task, count), held := HeldResized(w.held, count),
         lost := set p | p in w.lost && p.0 < count)
    case GiveUp(held) => w.(held := held, task := Elsewhere)
    case Succeed =>
      w.(display := d.(toRead := d.toRead - {w.task.id}, toWrite := d.toWrite - {w.task.id}),
         held := Arrived(w.held, w.task.id, w.task.got), task := Clearing(w.task.id, 0, w.task.current))
    case ClearNext => ClearOne(w, w.task.id, w.task.next)
    case EndClearing => w.(task := Elsewhere)
  }

  /** A request spoils what was compared and taken for the same property of the same module. */
  function Requested(task: Task, i: nat, id: PropId): Task {
    if task.Talking? && task.id == id then task.(alike := task.alike - {i}, current := task.current - {i})
    else if task.Clearing? && task.id == id then Clearing(task.id, task.next, task.current - {i})
    else task
  }

  function Upto(n: nat): (s: set<nat>)
    ensures forall i: nat :: i in s <==> i < n
  {
    if n == 0 then {} else Upto(n - 1) + {n - 1}
  }

  ghost function Started(d: State, id: PropId): Task {
    var action := Required(d, id);
    var n := |d.modules|;
    Talking(id, action, n, {}, map[], if action == Broadcast then Upto(n) else {}, {})
  }

  /** A module is only asked for its bytes while it is flagged. */
  function Visited(d: State, task: Task, i: nat): Task
    requires task.Talking? && i < |d.modules| && Whole(d.modules[i])
  {
    if task.id in d.modules[i].pending then
      task.(visited := task.visited + {i}, got := task.got[i := ToBin(task.id, d.modules[i])],
          current := task.current + {i})
    else task.(visited := task.visited + {i})
  }

  /** Module 0's bytes are taken for all; they are the others' as long as nothing has changed since the comparison. */
  function Shared(d: State, task: Task): Task
    requires task.Talking? && d.modules != [] && Whole(d.modules[0])
  {
    task.(got := (map i: nat | i in Upto(task.count) :: ToBin(task.id, d.modules[0])),
          current := if 0 in task.alike then task.alike else {0})
  }

  /** Modules that go take with them whatever was noted about them. */
  function Trimmed(task: Task, count: nat): Task {
    if task.Talking? then
      task.(count := if count < task.count then count else task.count,
            visited := (set i | i in task.visited && i < count),
            got := (map i: nat | i in task.got && i < count :: task.got[i]),
            alike := (set i | i in task.alike && i < count),
            current := (set i | i in task.current && i < count))
    else task
  }

  function HeldResized(held: seq<Holding>, count: nat): (r: seq<Holding>)
    ensures |r| == count
    ensures forall i :: 0 <= i < count ==> r[i] == if i < |held| then held[i] else map[]
  {
    if count <= |held| then held[..count] else held + seq(count - |held|, i => map[])
  }

  function Told(held: Holding, id: PropId, bytes: Option<Wire>): Holding {
    held[id := bytes]
  }

  function Arrived(held: seq<Holding>, id: PropId, got: Taken): (r: seq<Holding>)
    ensures |r| == |held|
    ensures forall i :: 0 <= i < |r| ==> r[i] == if i in got then Told(held[i], id, got[i]) else held[i]
  {
    seq(|held|, i requires 0 <= i < |held| => if i in got then Told(held[i], id, got[i]) else held[i])
  }

  /** A flag that is cleared without the present value having been taken is a lost write. */
  function ClearOne(w: World, id: PropId, k: nat): World
    requires w.task.Clearing? && k < |w.display.modules|
  {
    var m := w.display.modules[k];
    w.(display := w.display.(modules := w.display.modules[k := m.(pending := m.pending - {id})]),
       task := w.task.(next := k + 1),
       lost := if id !in m.pending then w.lost else if k in w.task.current
           then w.lost - {(k, id)} else w.lost + {(k, id)})
  }

  // ---------------------------------------------------------------- the invariant

  /** Why a pending write will not be forgotten. */
  ghost predicate Remembered(w: World, i: nat, id: PropId) {
    id in w.display.toWrite || id in w.midway || (w.task.Clearing? && w.task.id == id && w.task.next <= i)
  }

  ghost predicate Known(w: World) {
    forall i, id: PropId :: 0 <= i < |w.display.modules| && id in w.display.modules[i].pending ==> Remembered(w, i, id)
  }

  ghost predicate TaskOk(w: World)
    requires Proper(w.display) && |w.held| == |w.display.modules|
  {
    var modules := w.display.modules;
    match w.task
    case Elsewhere => true
    case Talking(id, action, count, visited, got, alike, current) =>
      && count <= |modules|
      && (forall i :: i in got ==> i < |modules| && id in modules[i].pending)
      && (forall i :: i in current ==> i in got && got[i] == ToBin(id, modules[i]))
      && (forall i :: i in alike ==> i < count)
      && (forall i, j :: i in alike && j in alike ==> ToBin(id, modules[i]) == ToBin(id, modules[j]))
      && (action == Broadcast ==> forall i :: 0 <= i < count ==> id in modules[i].pending)
      && (action == Write ==> alike == {})
      && (action == Read ==> alike == {} && got == map[])
    case Clearing(id, next, current) =>
      && next <= |modules|
      && (forall i :: i in current && next <= i ==>
            i < |modules| && id in w.held[i] && w.held[i][id] == ToBin(id, modules[i]))
  }

  /** What was ever sent to a module or read from it is still right, or pending, or lost. */
  ghost predicate UpToDate(w: World, i: nat, id: PropId)
    requires Proper(w.display) && |w.held| == |w.display.modules| && i < |w.held|
  {
    id in w.held[i] ==>
      id in w.display.modules[i].pending || (i, id) in w.lost || w.held[i][id] == ToBin(id, w.display.modules[i])
  }

  ghost predicate Inv(w: World) {
    && Proper(w.display) && |w.held| == |w.display.modules|
    && Known(w) && TaskOk(w)
    && (forall i, id: PropId :: 0 <= i < |w.held| ==> UpToDate(w, i, id))
    && (forall p :: p in w.lost ==> p.0 < |w.held| && p.1 !in w.display.modules[p.0].pending)
  }

  // ---------------------------------------------------------------- runs

  ghost predicate Follows(w: World, e: Event, w': World) {
    Proper(w.display) && |w.held| == |w.display.modules| && Enabled(w, e) && w' == Step(w, e)
  }

  /** At the start nothing is flagged, nothing is known of the real modules, and the task is elsewhere. */
  ghost predicate AtStart(w: World) {
    && Proper(w.display) && |w.held| == |w.display.modules| && w.task == Elsewhere && w.lost == {}
    && forall i :: 0 <= i < |w.held| ==> w.held[i] == map[] && w.display.modules[i].pending == {}
  }

  ghost predicate IsRun(run: seq<World>, events: seq<Event>) {
    && |run| == |events| + 1 && AtStart(run[0])
    && forall n :: 0 <= n < |events| ==> Follows(run[n], events[n], run[n + 1])
  }
}
