/**
 What the orphan TTL is for.  The program does not check that an upload inserts its row in
 time; this says exactly what an insert that comes at any later time can cost.
 */
module LateInsert {
  import opened PhotoProtocol
  import opened PhotoGuarantees
  import opened PhotoCleanup

  /** The insert takes place, however late. */
  function Inserted(w: World, t: TaskId): World
    requires t in w.tasks && w.tasks[t].Uploading?
  {
    SetTask(InsertRow(w, w.tasks[t].upload), t, w.tasks[t].(stage := Recording))
  }

  /** A running sweep has found the key unreferenced and is going to delete it. */
  ghost predicate ChosenBySweep(w: World, key: Key) {
    exists s :: s in w.tasks && w.tasks[s].Sweeping? && w.tasks[s].step.Deleting? && key in w.tasks[s].step.orphans
  }

  /** The part of the invariant that does not depend on time. */
  ghost predicate Timeless(w: World) {
    && RowsWellFormed(w) && UploadsDistinct(w)
    && forall t | t in w.tasks && w.tasks[t].Uploading? ::
         && w.tasks[t].upload in w.minted
         && (w.tasks[t].stage != Recording ==> Unreferenced(w, w.tasks[t].upload))
  }

  lemma TimelessUploadStep(w: World, t: TaskId, reply: Reply)
    requires Timeless(w) && t in w.tasks && w.tasks[t].Uploading?
    ensures Timeless(StepTask(w, t, w.tasks[t], UploadStep(reply)))
  {
    var task, w' := w.tasks[t], StepTask(w, t, w.tasks[t], UploadStep(reply));
    if task.stage == Insert && InsertHappens(w, task.startedAt, reply) {
      TimelessInsert(w, t);
    } else {
      assert w'.rows == w.rows && w'.minted == w.minted && w'.nextId == w.nextId;
    }
  }

  lemma TimelessInsert(w: World, t: TaskId)
    requires Timeless(w) && t in w.tasks && w.tasks[t].Uploading? && w.tasks[t].stage != Recording
    ensures Timeless(Inserted(w, t))
  {
    assert RowsWellFormed(Inserted(w, t));
  }

  lemma TimelessRows(w: World, w': World)
    requires Timeless(w) && AddsNothing(w, w')
    ensures Timeless(w')
  {
  }

  lemma TimelessStep(w: World, e: Event)
    requires Timeless(w)
    ensures Timeless(Apply(w, e))
  {
    if e.By? && e.task in w.tasks && w.tasks[e.task].Uploading? && e.action.UploadStep? {
      TimelessUploadStep(w, e.task, e.action.reply);
    } else if e.By? && e.task !in w.tasks && e.action.BeginUpload? {
    } else {
      OtherStep(w, e);
      TimelessRows(w, Apply(w, e));
    }
  }

  /** The event inserts no row and begins no upload. */
  ghost predicate AddsNothing(w: World, w': World) {
    && w'.minted == w.minted && w'.nextId == w.nextId
    && (forall id | id in w'.rows :: id in w.rows && w'.rows[id] == w.rows[id].(state := w'.rows[id].state))
    && (forall t | t in w'.tasks && w'.tasks[t].Uploading? :: t in w.tasks && w'.tasks[t] == w.tasks[t])
  }

  lemma RequestAddsNothing(w: World, t: TaskId, action: Action)
    requires t in w.tasks && !(w.tasks[t].Uploading? && action.UploadStep?)
    ensures AddsNothing(w, StepTask(w, t, w.tasks[t], action))
  {
  }

  lemma StartAddsNothing(w: World, t: TaskId, action: Action)
    requires t !in w.tasks && !action.BeginUpload?
    ensures AddsNothing(w, StartTask(w, t, action))
  {
  }

  lemma OtherStep(w: World, e: Event)
    requires !(e.By? && e.task in w.tasks && w.tasks[e.task].Uploading? && e.action.UploadStep?)
    requires !(e.By? && e.task !in w.tasks && e.action.BeginUpload?)
    ensures AddsNothing(w, Apply(w, e))
  {
    if e.By? {
      if e.task in w.tasks { RequestAddsNothing(w, e.task, e.action); } else { StartAddsNothing(w, e.task, e.action); }
    }
  }

  /** The row can still be shown, its object is stored, and nobody who is running is going to
      delete it. */
  ghost predicate Kept(w: World, id: PhotoId, key: Key) {
    && id in w.rows && Live(w.rows[id].state)
    && key in KeysToDelete(w.rows[id]) && key in w.objects
    && !ChosenBySweep(w, key) && !AwaitsDelete(w, key)
    && forall t | t in w.tasks && w.tasks[t].Uploading? && w.tasks[t].upload == key.upload :: w.tasks[t].stage == Recording
  }

  ghost predicate GoneOrRejected(w: World, id: PhotoId) {
    id < w.nextId && (id in w.rows ==> w.rows[id].state == Rejected)
  }

  lemma GoneOrRejectedStep(w: World, e: Event, id: PhotoId)
    requires GoneOrRejected(w, id)
    ensures GoneOrRejected(Apply(w, e), id)
  {
  }

  lemma KeptObjectStays(w: World, e: Event, id: PhotoId, key: Key)
    requires Timeless(w) && Kept(w, id, key)
    ensures key in Apply(w, e).objects
  {
    if e.By? && e.task in w.tasks {
      var task := w.tasks[e.task];
      if task.Rejecting? && task.remaining != [] { assert task.remaining[0] in task.remaining; }
    }
  }

  lemma NoSweepChooses(w: World, e: Event, id: PhotoId, key: Key)
    requires Timeless(w) && Kept(w, id, key)
    ensures !ChosenBySweep(Apply(w, e), key)
  {
    var w' := Apply(w, e);
    assert Referenced(w, key);
    forall s | s in w'.tasks && w'.tasks[s].Sweeping? && w'.tasks[s].step.Deleting? ensures key !in w'.tasks[s].step.orphans {
      if Foreign(e, s) { ForeignStepKeepsTask(w, e, s); }
    }
  }

  lemma NoRejectionHolds(w: World, e: Event, id: PhotoId, key: Key)
    requires Timeless(w) && Kept(w, id, key) && id in Apply(w, e).rows && Live(Apply(w, e).rows[id].state)
    ensures !AwaitsDelete(Apply(w, e), key)
  {
    var w' := Apply(w, e);
    forall t | t in w'.tasks && w'.tasks[t].Rejecting? ensures key !in w'.tasks[t].remaining {
      if t in w.tasks {
        if key in w'.tasks[t].remaining { RejectionsOnlyShrink(w, e, t, key); }
      } else {
        StartedOnPending(w, e, t);
        assert e.action.id != id;
        assert UploadOf(w.rows[e.action.id]) != UploadOf(w.rows[id]);
      }
    }
  }

  lemma NoUploadTouches(w: World, e: Event, id: PhotoId, key: Key, t: TaskId)
    requires Timeless(w) && Kept(w, id, key)
    requires t in Apply(w, e).tasks && Apply(w, e).tasks[t].Uploading? && Apply(w, e).tasks[t].upload == key.upload
    ensures Apply(w, e).tasks[t].stage == Recording
  {
    assert UploadOf(w.rows[id]) == key.upload && key.upload in w.minted;
    if Foreign(e, t) { ForeignStepKeepsTask(w, e, t); }
  }

  lemma KeptStep(w: World, e: Event, id: PhotoId, key: Key)
    requires Timeless(w) && Kept(w, id, key)
    ensures Kept(Apply(w, e), id, key) || GoneOrRejected(Apply(w, e), id)
  {
    var w' := Apply(w, e);
    assert id < w.nextId;
    IdsOnlyGrow(w, e);
    if id in w'.rows && Live(w'.rows[id].state) {
      RowStep(w, e, id);
      KeptObjectStays(w, e, id, key);
      NoSweepChooses(w, e, id, key);
      NoRejectionHolds(w, e, id, key);
      forall t | t in w'.tasks && w'.tasks[t].Uploading? && w'.tasks[t].upload == key.upload
        ensures w'.tasks[t].stage == Recording
      {
        NoUploadTouches(w, e, id, key, t);
      }
    }
  }

  lemma {:induction false} KeptForever(w: World, events: seq<Event>, id: PhotoId, key: Key)
    requires Timeless(w) && (Kept(w, id, key) || GoneOrRejected(w, id))
    ensures Kept(Run(w, events), id, key) || GoneOrRejected(Run(w, events), id)
    decreases |events|
  {
    if events != [] {
      TimelessStep(w, events[0]);
      if Kept(w, id, key) { KeptStep(w, events[0], id, key); } else { GoneOrRejectedStep(w, events[0], id); }
      KeptForever(Apply(w, events[0]), events[1..], id, key);
    }
  }

  /** A row that can still be shown points at a missing object. */
  predicate Broken(w: World, id: PhotoId, key: Key) {
    id in w.rows && Live(w.rows[id].state) && key !in w.objects
  }

  lemma TimelessInv(w: World)
    requires Inv(w)
    ensures Timeless(w)
  {
    forall t | t in w.tasks && w.tasks[t].Uploading?
      ensures w.tasks[t].upload in w.minted
      ensures w.tasks[t].stage != Recording ==> Unreferenced(w, w.tasks[t].upload)
    {
      assert TaskSafe(w, w.tasks[t]);
    }
  }

  lemma NobodyRejectsAnUpload(w: World, t: TaskId, key: Key)
    requires Inv(w) && t in w.tasks && w.tasks[t].Uploading? && w.tasks[t].stage == Insert
    requires key.upload == w.tasks[t].upload
    ensures !AwaitsDelete(w, key)
  {
    forall u | u in w.tasks && w.tasks[u].Rejecting? ensures key !in w.tasks[u].remaining {
      assert TaskSafe(w, w.tasks[u]);
    }
  }

  lemma InsertedIsKept(w: World, t: TaskId, key: Key)
    requires Inv(w) && t in w.tasks && w.tasks[t].Uploading? && w.tasks[t].stage == Insert
    requires key.upload == w.tasks[t].upload && key in w.objects
    requires !ChosenBySweep(w, key) && !AwaitsDelete(w, key)
    ensures Kept(Inserted(w, t), w.nextId, key)
  {
    var w' := Inserted(w, t);
    assert forall u | u in w'.tasks && u != t :: w'.tasks[u] == w.tasks[u];
  }

  /** The late row is broken once these events have followed its insert. */
  predicate BrokenAfter(w: World, t: TaskId, key: Key, events: seq<Event>)
    requires t in w.tasks && w.tasks[t].Uploading?
  {
    Broken(Run(Inserted(w, t), events), w.nextId, key)
  }

  lemma NothingBreaks(w: World, t: TaskId, key: Key, events: seq<Event>)
    requires Inv(w) && t in w.tasks && w.tasks[t].Uploading? && w.tasks[t].stage == Insert
    requires key.upload == w.tasks[t].upload && key in w.objects && !ChosenBySweep(w, key)
    ensures !BrokenAfter(w, t, key, events)
  {
    TimelessInv(w);
    TimelessInsert(w, t);
    NobodyRejectsAnUpload(w, t, key);
    InsertedIsKept(w, t, key);
    KeptForever(Inserted(w, t), events, w.nextId, key);
  }

  lemma SomethingBreaks(w: World, t: TaskId, key: Key) returns (events: seq<Event>)
    requires t in w.tasks && w.tasks[t].Uploading?
    requires key !in w.objects || ChosenBySweep(w, key)
    ensures BrokenAfter(w, t, key, events)
  {
    var w' := Inserted(w, t);
    events := [];
    if key in w.objects {
      var s :| s in w.tasks && w.tasks[s].Sweeping? && w.tasks[s].step.Deleting? && key in w.tasks[s].step.orphans;
      events := [By(s, SweepDelete(key, Done))];
      RunSnoc(w', [], events[0]);
      assert [] + [events[0]] == events && w'.tasks[s] == w.tasks[s];
    }
  }

  /** The exact price of an insert at any time: its row comes to point at a missing object in
      some continuation if and only if the object is missing already, or a sweep has chosen
      it and not yet deleted it. */
  lemma LateRowBreaksIff(w: World, t: TaskId, key: Key)
    requires Inv(w) && t in w.tasks && w.tasks[t].Uploading? && w.tasks[t].stage == Insert
    requires key.upload == w.tasks[t].upload
    ensures (exists events :: BrokenAfter(w, t, key, events))
            <==> key !in w.objects || ChosenBySweep(w, key)
  {
    if key !in w.objects || ChosenBySweep(w, key) {
      var events := SomethingBreaks(w, t, key);
      assert BrokenAfter(w, t, key, events);
    } else {
      forall events ensures !BrokenAfter(w, t, key, events) {
        NothingBreaks(w, t, key, events);
      }
    }
  }

  /** In time neither can be: the sweeps leave the objects of an upload alone until its orphan
      TTL is over. */
  lemma InTimeNothingBreaks(w: World, t: TaskId, key: Key)
    requires Inv(w) && t in w.tasks && w.tasks[t].Uploading? && w.tasks[t].stage == Insert
    requires key.upload == w.tasks[t].upload && InTime(w, w.tasks[t].startedAt)
    ensures key in w.objects && !ChosenBySweep(w, key)
  {
    assert TaskSafe(w, w.tasks[t]);
    forall s | s in w.tasks && w.tasks[s].Sweeping? && w.tasks[s].step.Deleting? ensures key !in w.tasks[s].step.orphans {
      assert TaskSafe(w, w.tasks[s]);
    }
  }
}
