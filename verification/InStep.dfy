/**
  What every interleaving keeps: pending writes are remembered, and the real modules stay in step with the
  model unless a write is pending or was lost.
  */
module InStep {
  import opened Properties
  import opened Display
  import opened Synchronisation

  lemma RequestKeepsInv(w: World, i: nat, id: PropId, changed: Module)
    requires Inv(w) && Enabled(w, Request(i, id, changed))
    ensures Inv(Step(w, Request(i, id, changed)))
  {
    hide ToBin, Required;
    var w' := Step(w, Request(i, id, changed));
    FlagNotSerialised(changed, id);
    forall k, p: PropId | 0 <= k < |w'.held|
      ensures UpToDate(w', k, p)
      ensures p in w'.display.modules[k].pending ==> Remembered(w', k, p)
    {
      assert UpToDate(w, k, p);
      if p in w.display.modules[k].pending { assert Remembered(w, k, p); }
    }
  }

  lemma FlagNotSerialised(m: Module, flag: PropId)
    requires Whole(m)
    ensures Whole(m.(pending := m.pending + {flag}))
    ensures forall id: PropId :: ToBin(id, m.(pending := m.pending + {flag})) == ToBin(id, m)
  {
    hide ToBin;
    forall id: PropId
      ensures ToBin(id, m.(pending := m.pending + {flag})) == ToBin(id, m)
    {
      PendingNotSerialised(id, m, m.pending + {flag});
    }
  }

  lemma FlagKeepsInv(w: World, e: Event)
    requires Inv(w) && Enabled(w, e) && (e.FlagDisplay? || e.FlagRead?)
    ensures Inv(Step(w, e))
  {
    hide ToBin;
    var w' := Step(w, e);
    forall k, p: PropId | 0 <= k < |w'.held|
      ensures UpToDate(w', k, p)
      ensures p in w'.display.modules[k].pending ==> Remembered(w', k, p)
    {
      assert UpToDate(w, k, p);
      if p in w.display.modules[k].pending { assert Remembered(w, k, p); }
    }
  }

  /**
    What is flagged for reading is read next, also if it is to be written; what is only flagged for writing
    is written.
    */
  lemma FlagsDecide(w: World, w': World, id: PropId)
    ensures Follows(w, FlagRead(id), w') ==> Required(w'.display, id) == Read
    ensures forall n :: Follows(w, FlagDisplay(id, n), w') && id !in w.display.toRead ==>
      Required(w'.display, id) == Write || Required(w'.display, id) == Broadcast
  {
    hide CanBroadcast, Whole;
  }

  /** What could not be communicated stays flagged as it was, and the task can come to it again. */
  lemma GivenUpIsRetried(w: World, held: seq<Holding>, w': World)
    requires Follows(w, GiveUp(held), w') && Required(w.display, w.task.id) != Nothing
    ensures w'.task == Elsewhere && w'.held == held && w'.display == w.display
    ensures Enabled(w', Start(w.task.id))
  {
    hide CanBroadcast, Whole, Disturbed;
  }

  /**
    Nobody waits for anybody: a request and a reader are always served, and the task can always go on, to the
    next module, to the end of the communication or to the end of the clearing.
    */
  lemma NobodyIsStuck(w: World, id: PropId)
    requires Inv(w)
    ensures Enabled(w, FlagRead(id)) && Enabled(w, FlagDisplay(id, 0))
    ensures forall i :: 0 <= i < |w.display.modules| ==> Enabled(w, Request(i, id, w.display.modules[i]))
    ensures w.task.Elsewhere? ==> (Enabled(w, Start(id)) <==> Required(w.display, id) != Nothing)
    ensures w.task.Talking? ==> Enabled(w, GiveUp(w.held))
    ensures w.task.Talking? ==>
      || Enabled(w, Succeed) || Enabled(w, TakeShared)
      || (w.task.action == Write && exists i :: 0 <= i < w.task.count && i !in w.task.visited && Enabled(w, Visit(i)))
    ensures w.task.Clearing? ==> Enabled(w, ClearNext) || Enabled(w, EndClearing)
  {
    hide CanBroadcast, Whole, Required, UpToDate, Remembered;
  }

  /** What was communicated is not required any more, unless somebody flags it again. */
  lemma SucceededIsDone(w: World, w': World)
    requires Follows(w, Succeed, w')
    ensures Required(w'.display, w.task.id) == Nothing && w'.task.Clearing?
    ensures w'.display.modules == w.display.modules
  {
    hide CanBroadcast, Whole;
  }

  lemma StartKeepsInv(w: World, id: PropId)
    requires Inv(w) && Enabled(w, Start(id))
    ensures Inv(Step(w, Start(id)))
  {
    hide ToBin, Compare;
    var w' := Step(w, Start(id));
    if w'.task.action == Broadcast {
      forall i | 0 <= i < |w.display.modules|
        ensures id in w.display.modules[i].pending
        ensures ToBin(id, w.display.modules[i]) == ToBin(id, w.display.modules[0])
      {
        AlikeWhenBroadcast(w.display, id, i);
      }
    }
    forall k, p: PropId | 0 <= k < |w'.held|
      ensures UpToDate(w', k, p)
      ensures p in w'.display.modules[k].pending ==> Remembered(w', k, p)
    {
      assert UpToDate(w, k, p);
      if p in w.display.modules[k].pending { assert Remembered(w, k, p); }
    }
  }

  /** Also for the property that has a comparison but is never serialised. */
  lemma AlikeWhenBroadcast(d: State, id: PropId, i: nat)
    requires Proper(d) && Required(d, id) == Broadcast && i < |d.modules|
    ensures id in d.modules[i].pending && ToBin(id, d.modules[i]) == ToBin(id, d.modules[0])
  {
    if HasSerializer(id) {
      hide ToBin, Compare;
      BroadcastMeansAllAlike(d, id, i);
    }
  }

  lemma TakingKeepsInv(w: World, e: Event)
    requires Inv(w) && Enabled(w, e) && (e.Visit? || e.TakeShared?)
    ensures Inv(Step(w, e))
  {
    hide ToBin, Required;
    var w' := Step(w, e);
    forall k, p: PropId | 0 <= k < |w'.held|
      ensures UpToDate(w', k, p)
      ensures p in w'.display.modules[k].pending ==> Remembered(w', k, p)
    {
      assert UpToDate(w, k, p);
      if p in w.display.modules[k].pending { assert Remembered(w, k, p); }
    }
  }

  lemma ReportKeepsInv(w: World, i: nat, reported: Module)
    requires Inv(w) && Enabled(w, Report(i, reported))
    ensures Inv(Step(w, Report(i, reported)))
  {
    hide ToBin, Required;
    var w' := Step(w, Report(i, reported));
    forall k, p: PropId | 0 <= k < |w'.held|
      ensures UpToDate(w', k, p)
      ensures p in w'.display.modules[k].pending ==> Remembered(w', k, p)
    {
      assert UpToDate(w, k, p);
      if p in w.display.modules[k].pending { assert Remembered(w, k, p); }
    }
  }

  lemma ResizeKeepsInv(w: World, count: nat)
    requires Inv(w) && Enabled(w, Resize(count))
    ensures Inv(Step(w, Resize(count)))
  {
    hide ToBin, Required;
    var w' := Step(w, Resize(count));
    assert Whole(NewModule());
    forall k, p: PropId | 0 <= k < |w'.held|
      ensures UpToDate(w', k, p)
      ensures p in w'.display.modules[k].pending ==> Remembered(w', k, p)
    {
      if k < |w.held| {
        assert UpToDate(w, k, p);
        if p in w.display.modules[k].pending { assert Remembered(w, k, p); }
      }
    }
  }

  lemma GiveUpKeepsInv(w: World, held: seq<Holding>)
    requires Inv(w) && Enabled(w, GiveUp(held))
    ensures Inv(Step(w, GiveUp(held)))
  {
    hide ToBin, Required;
    var w' := Step(w, GiveUp(held));
    forall k, p: PropId | 0 <= k < |w'.held|
      ensures UpToDate(w', k, p)
      ensures p in w'.display.modules[k].pending ==> Remembered(w', k, p)
    {
      assert UpToDate(w, k, p);
      if p in w.display.modules[k].pending { assert Remembered(w, k, p); }
      if p != w.task.id && p in held[k] {
        assert p in held[k] - {w.task.id};
        assert p in w.held[k] - {w.task.id} && (w.held[k] - {w.task.id})[p] == (held[k] - {w.task.id})[p];
      }
    }
  }

  lemma SucceedKeepsInv(w: World)
    requires Inv(w) && Enabled(w, Succeed)
    ensures Inv(Step(w, Succeed))
  {
    hide ToBin, Required;
    var w' := Step(w, Succeed);
    forall k, p: PropId | 0 <= k < |w'.held|
      ensures UpToDate(w', k, p)
      ensures p in w'.display.modules[k].pending ==> Remembered(w', k, p)
    {
      assert UpToDate(w, k, p);
      if p in w.display.modules[k].pending { assert Remembered(w, k, p); }
    }
  }

  lemma ClearKeepsInv(w: World, e: Event)
    requires Inv(w) && Enabled(w, e) && (e.ClearNext? || e.EndClearing?)
    ensures Inv(Step(w, e))
  {
    hide ToBin, Required;
    var w' := Step(w, e);
    if e.ClearNext? {
      var m := w.display.modules[w.task.next];
      forall p: PropId
        ensures Whole(w'.display.modules[w.task.next])
        ensures ToBin(p, w'.display.modules[w.task.next]) == ToBin(p, m)
      {
        PendingNotSerialised(p, m, m.pending - {w.task.id});
      }
    }
    forall k, p: PropId | 0 <= k < |w'.held|
      ensures UpToDate(w', k, p)
      ensures p in w'.display.modules[k].pending ==> Remembered(w', k, p)
    {
      assert UpToDate(w, k, p);
      if p in w.display.modules[k].pending { assert Remembered(w, k, p); }
    }
  }

  lemma StepKeepsInv(w: World, e: Event)
    requires Inv(w) && Enabled(w, e)
    ensures Inv(Step(w, e))
  {
    hide Inv, Enabled, Step;
    match e
    case Request(i, id, changed) => RequestKeepsInv(w, i, id, changed);
    case FlagDisplay(_, _) => FlagKeepsInv(w, e);
    case FlagRead(_) => FlagKeepsInv(w, e);
    case Start(id) => StartKeepsInv(w, id);
    case Visit(_) => TakingKeepsInv(w, e);
    case TakeShared => TakingKeepsInv(w, e);
    case Report(i, reported) => ReportKeepsInv(w, i, reported);
    case Resize(count) => ResizeKeepsInv(w, count);
    case GiveUp(held) => GiveUpKeepsInv(w, held);
    case Succeed => SucceedKeepsInv(w);
    case ClearNext => ClearKeepsInv(w, e);
    case EndClearing => ClearKeepsInv(w, e);
  }

  // ---------------------------------------------------------------- over every run

  lemma StartHasInv(w: World)
    requires AtStart(w)
    ensures Inv(w)
  {
    hide ToBin;
  }

  lemma {:induction false} RunKeepsInv(run: seq<World>, events: seq<Event>, n: nat)
    requires IsRun(run, events) && n < |run|
    ensures Inv(run[n])
  {
    hide Inv, Step, Enabled, AtStart, Proper;
    if n == 0 {
      StartHasInv(run[0]);
    } else {
      RunKeepsInv(run, events, n - 1);
      assert Follows(run[n - 1], events[n - 1], run[n]);
      StepKeepsInv(run[n - 1], events[n - 1]);
    }
  }

  /**
    Whatever the interleaving of requests, the synchronising task and resizing: when no request is midway
    and the task is not clearing, every pending module is known to the display.
    */
  lemma PendingIsKnown(run: seq<World>, events: seq<Event>, n: nat)
    requires IsRun(run, events) && n < |run| && run[n].midway == multiset{} && !run[n].task.Clearing?
    ensures forall i :: 0 <= i < |run[n].display.modules| ==>
      run[n].display.modules[i].pending <= run[n].display.toWrite
  {
    RunKeepsInv(run, events, n);
    hide IsRun, TaskOk, UpToDate;
    forall i, id: PropId | 0 <= i < |run[n].display.modules| && id in run[n].display.modules[i].pending
      ensures id in run[n].display.toWrite
    {
      assert Remembered(run[n], i, id);
    }
  }

  /** What a module was ever sent, or told, is what the model says, unless a write is pending or was lost. */
  lemma ModulesAreInStep(run: seq<World>, events: seq<Event>, n: nat, i: nat, id: PropId)
    requires IsRun(run, events) && n < |run| && i < |run[n].held| && id in run[n].held[i]
    ensures i < |run[n].display.modules| && Whole(run[n].display.modules[i])
    ensures id !in run[n].display.modules[i].pending && (i, id) !in run[n].lost ==>
      run[n].held[i][id] == ToBin(id, run[n].display.modules[i])
  {
    RunKeepsInv(run, events, n);
    assert UpToDate(run[n], i, id);
  }
}
