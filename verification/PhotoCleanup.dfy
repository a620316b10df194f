/**
 What is cleaned up after the photo pipeline, and what never is: the orphan sweep collects
 what abandoned uploads leave, and what a rejection leaves stays exactly when nobody is
 about to delete it or its row.
 */
module PhotoCleanup {
  import opened Wrappers
  import opened Keyset
  import opened PhotoProtocol
  import opened PhotoGuarantees

  // ---------------------------------------------------------------------------
  // The orphan sweep
  // ---------------------------------------------------------------------------

  lemma AbandonedObjectStep(w: World, key: Key, e: Event)
    requires Abandoned(w, key.upload) && key in Apply(w, e).objects
    ensures key in w.objects && Apply(w, e).objects[key] == w.objects[key]
  {
    if e.By? && e.task in w.tasks && w.tasks[e.task].Uploading? {
      assert w.tasks[e.task].upload != key.upload;
    }
  }

  /** An object of an abandoned upload is never written again. */
  lemma {:induction false} AbandonedObjectsOnlyGo(w: World, key: Key, events: seq<Event>)
    requires Abandoned(w, key.upload)
    ensures Abandoned(Run(w, events), key.upload)
    ensures key in Run(w, events).objects ==> key in w.objects && Run(w, events).objects[key] == w.objects[key]
    decreases |events|
  {
    if events != [] {
      AbandonedStep(w, key.upload, events[0]);
      AbandonedObjectsOnlyGo(Apply(w, events[0]), key, events[1..]);
      if key in Run(w, events).objects { AbandonedObjectStep(w, key, events[0]); }
    }
  }

  /** The key is stored, if at all, since before the cutoff, and nothing will write it. */
  ghost predicate Collectable(w: World, key: Key, cutoff: int) {
    Inv(w) && Abandoned(w, key.upload) && (key in w.objects ==> w.objects[key] < cutoff)
  }

  lemma StaysCollectable(w: World, key: Key, cutoff: int, events: seq<Event>)
    requires Collectable(w, key, cutoff)
    ensures Collectable(Run(w, events), key, cutoff)
    ensures key !in w.objects ==> key !in Run(w, events).objects
  {
    AbandonedObjectsOnlyGo(w, key, events);
    RunKeepsInv(w, events);
  }

  ghost predicate SweepAt(w: World, t: TaskId, cutoff: int, step: SweepStage) {
    t in w.tasks && w.tasks[t] == Sweeping(cutoff, step)
  }

  /** The key is gone, or the sweep is at its deletes and has this key still to come. */
  ghost predicate Going(w: World, t: TaskId, key: Key) {
    key in w.objects ==>
      t in w.tasks && w.tasks[t].Sweeping? && w.tasks[t].step.Deleting? && key in w.tasks[t].step.orphans
  }

  /** Listing and probing a page choose an aged key of an abandoned upload, whatever runs
      before and in between. */
  lemma PageChooses(w: World, t: TaskId, cutoff: int, key: Key, gap: seq<Event>, page: set<Key>, probeGap: seq<Event>)
    requires Collectable(w, key, cutoff) && SweepAt(w, t, cutoff, Listing)
    requires (forall e | e in gap :: Foreign(e, t)) && (forall e | e in probeGap :: Foreign(e, t))
    requires key in page || key !in Run(w, gap).objects
    ensures
      var probed := Run(w, gap + [By(t, SweepList(page))] + probeGap + [By(t, SweepProbe)]);
      Collectable(probed, key, cutoff) && Going(probed, t, key)
  {
    var list, probe := By(t, SweepList(page)), By(t, SweepProbe);
    var w1 := Run(w, gap);
    StaysCollectable(w, key, cutoff, gap);
    ForeignRunKeepsTask(w, gap, t);
    var w2 := Apply(w1, list);
    RunSnoc(w, gap, list);
    StaysCollectable(w, key, cutoff, gap + [list]);
    var w3 := Run(w2, probeGap);
    RunAppend(w, gap + [list], probeGap);
    StaysCollectable(w2, key, cutoff, probeGap);
    ForeignRunKeepsTask(w2, probeGap, t);
    RunSnoc(w, gap + [list] + probeGap, probe);
    StaysCollectable(w, key, cutoff, gap + [list] + probeGap + [probe]);
    ProbeChooses(w3, t, cutoff, key, AgedKeys(w1, page, cutoff));
  }

  lemma ProbeChooses(w: World, t: TaskId, cutoff: int, key: Key, aged: set<Key>)
    requires Collectable(w, key, cutoff) && SweepAt(w, t, cutoff, Probing(aged))
    requires key in w.objects ==> key in aged
    ensures Going(Apply(w, By(t, SweepProbe)), t, key)
  {
    assert !Referenced(w, key);
  }

  /** An event of another request, or a successful delete of the sweep. */
  predicate Deletes(e: Event, t: TaskId) {
    Foreign(e, t) || (e.action.SweepDelete? && e.action.reply == Done)
  }

  lemma DeleteKeepsGoing(w: World, t: TaskId, key: Key, e: Event)
    requires Abandoned(w, key.upload) && Going(w, t, key) && Deletes(e, t)
    ensures Going(Apply(w, e), t, key)
  {
    if key in Apply(w, e).objects {
      AbandonedObjectStep(w, key, e);
      if Foreign(e, t) { ForeignStepKeepsTask(w, e, t); }
    }
  }

  lemma {:induction false} DeletesKeepGoing(w: World, t: TaskId, key: Key, events: seq<Event>)
    requires Abandoned(w, key.upload) && Going(w, t, key)
    requires forall e | e in events :: Deletes(e, t)
    ensures Abandoned(Run(w, events), key.upload) && Going(Run(w, events), t, key)
    decreases |events|
  {
    if events != [] {
      AbandonedStep(w, key.upload, events[0]);
      DeleteKeepsGoing(w, t, key, events[0]);
      DeletesKeepGoing(Apply(w, events[0]), t, key, events[1..]);
    }
  }

  /** A sweep that lists an aged key of an abandoned upload and gets to delete it has
      collected it for good, with arbitrary other requests before, between and after its
      calls. */
  lemma SweepCollectsAbandoned(w: World, t: TaskId, cutoff: int, key: Key, gap: seq<Event>, page: set<Key>,
                               probeGap: seq<Event>, deletes: seq<Event>, after: seq<Event>)
    requires Inv(w) && Abandoned(w, key.upload) && (key in w.objects ==> w.objects[key] < cutoff)
    requires SweepAt(w, t, cutoff, Listing) && key in page
    requires (forall e | e in gap :: Foreign(e, t)) && (forall e | e in probeGap :: Foreign(e, t))
    requires forall e | e in deletes :: Deletes(e, t)
    ensures
      var sweep := gap + [By(t, SweepList(page))] + probeGap + [By(t, SweepProbe)] + deletes + [By(t, SweepDelete(key, Done))];
      key !in Run(w, sweep + after).objects
  {
    var chosen := gap + [By(t, SweepList(page))] + probeGap + [By(t, SweepProbe)];
    var last := By(t, SweepDelete(key, Done));
    PageChooses(w, t, cutoff, key, gap, page, probeGap);
    DeletesKeepGoing(Run(w, chosen), t, key, deletes);
    RunAppend(w, chosen, deletes);
    RunSnoc(w, chosen + deletes, last);
    AbandonedStep(Run(w, chosen + deletes), key.upload, last);
    if key in Apply(Run(w, chosen + deletes), last).objects {
      AbandonedObjectStep(Run(w, chosen + deletes), key, last);
    }
    AbandonedObjectsOnlyGo(Run(w, chosen + deletes + [last]), key, after);
    RunAppend(w, chosen + deletes + [last], after);
  }

  /** One page of a sweep, from its listing to its last delete, amid other requests. */
  datatype Round = Round(gap: seq<Event>, page: seq<Key>, next: Option<Key>, probeGap: seq<Event>, deletes: seq<Event>)

  function Chosen(t: TaskId, r: Round): seq<Event> {
    r.gap + [By(t, SweepList(set k | k in r.page))] + r.probeGap + [By(t, SweepProbe)]
  }

  function RoundEvents(t: TaskId, r: Round): seq<Event> {
    Chosen(t, r) + r.deletes
  }

  /** The page is what the store answers to a listing after the cursor, and the sweep gets
      through it. */
  ghost predicate RoundDone(lt: (Key, Key) -> bool, w: World, t: TaskId, cutoff: int, after: Option<Key>, r: Round) {
    && (forall e | e in r.gap :: Foreign(e, t)) && (forall e | e in r.probeGap :: Foreign(e, t))
    && (forall e | e in r.deletes :: Deletes(e, t))
    && IsPage(lt, Run(w, r.gap).objects.Keys, after, r.page, r.next)
    && SweepAt(Run(w, RoundEvents(t, r)), t, cutoff, Listing)
  }

  /** The sweep follows the cursors until there is none. */
  ghost predicate SweepDone(lt: (Key, Key) -> bool, w: World, t: TaskId, cutoff: int, after: Option<Key>, rounds: seq<Round>)
    decreases |rounds|
  {
    && rounds != []
    && RoundDone(lt, w, t, cutoff, after, rounds[0])
    && if rounds[0].next.None? then |rounds| == 1
       else SweepDone(lt, Run(w, RoundEvents(t, rounds[0])), t, cutoff, rounds[0].next, rounds[1..])
  }

  function SweepEvents(t: TaskId, rounds: seq<Round>): seq<Event> {
    if rounds == [] then [] else RoundEvents(t, rounds[0]) + SweepEvents(t, rounds[1..])
  }

  lemma RoundCollects(lt: (Key, Key) -> bool, w: World, t: TaskId, cutoff: int, after: Option<Key>, r: Round, key: Key)
    requires Collectable(w, key, cutoff) && SweepAt(w, t, cutoff, Listing)
    requires RoundDone(lt, w, t, cutoff, after, r)
    requires key in r.page || key !in Run(w, r.gap).objects
    ensures key !in Run(w, RoundEvents(t, r)).objects
  {
    PageChooses(w, t, cutoff, key, r.gap, (set k | k in r.page), r.probeGap);
    DeletesKeepGoing(Run(w, Chosen(t, r)), t, key, r.deletes);
    RunAppend(w, Chosen(t, r), r.deletes);
  }

  lemma {:induction false} RoundsCollect(lt: (Key, Key) -> bool, w: World, t: TaskId, cutoff: int, after: Option<Key>,
                                         rounds: seq<Round>, key: Key)
    requires Collectable(w, key, cutoff) && SweepAt(w, t, cutoff, Listing)
    requires SweepDone(lt, w, t, cutoff, after, rounds)
    requires key in w.objects ==> Above(lt, after, key)
    ensures Abandoned(Run(w, SweepEvents(t, rounds)), key.upload)
    ensures key !in Run(w, SweepEvents(t, rounds)).objects
    decreases |rounds|
  {
    var first := rounds[0];
    var w' := Run(w, RoundEvents(t, first));
    StaysCollectable(w, key, cutoff, first.gap);
    StaysCollectable(w, key, cutoff, RoundEvents(t, first));
    if key in first.page || key !in Run(w, first.gap).objects {
      RoundCollects(lt, w, t, cutoff, after, first, key);
    } else {
      assert first.next.Some? && lt(first.next.value, key);
    }
    RunAppend(w, RoundEvents(t, first), SweepEvents(t, rounds[1..]));
    if first.next.Some? {
      RoundsCollect(lt, w', t, cutoff, first.next, rounds[1..], key);
    } else {
      assert SweepEvents(t, rounds[1..]) == [];
    }
  }

  /** A complete sweep collects every object that was abandoned and past the orphan TTL when
      it started, for any page sizes and amid arbitrary other requests, and it never comes
      back. */
  lemma CompleteSweepCollectsAll(lt: (Key, Key) -> bool, w: World, t: TaskId, rounds: seq<Round>, after: seq<Event>, key: Key)
    requires Inv(w) && t !in w.tasks
    requires SweepDone(lt, Apply(w, By(t, BeginSweep)), t, w.clock - w.orphanTtl, None, rounds)
    requires Abandoned(w, key.upload) && (key in w.objects ==> w.objects[key] < w.clock - w.orphanTtl)
    ensures key !in Run(w, [By(t, BeginSweep)] + SweepEvents(t, rounds) + after).objects
  {
    var begin := By(t, BeginSweep);
    var begun, sweep := Apply(w, begin), SweepEvents(t, rounds);
    SweepBegins(w, t, key);
    RoundsCollect(lt, begun, t, w.clock - w.orphanTtl, None, rounds, key);
    AbandonedObjectsOnlyGo(Run(begun, sweep), key, after);
    RunInThree(w, begin, sweep, after);
  }

  lemma RunInThree(w: World, e: Event, middle: seq<Event>, last: seq<Event>)
    ensures Run(w, [e] + middle + last) == Run(Run(Apply(w, e), middle), last)
  {
    RunAppend(w, [e] + middle, last);
    RunCons(w, e, middle);
  }

  lemma SweepBegins(w: World, t: TaskId, key: Key)
    requires t !in w.tasks && Collectable(w, key, w.clock - w.orphanTtl)
    ensures
      var begun := Apply(w, By(t, BeginSweep));
      Collectable(begun, key, w.clock - w.orphanTtl) && SweepAt(begun, t, w.clock - w.orphanTtl, Listing)
  {
    StepKeepsInv(w, By(t, BeginSweep));
    AbandonedStep(w, key.upload, By(t, BeginSweep));
  }

  function SweepOf(sweeper: TaskId, key: Key): seq<Event> {
    [By(sweeper, BeginSweep), By(sweeper, SweepList({key})), By(sweeper, SweepProbe), By(sweeper, SweepDelete(key, Done))]
  }

  /** A sweep that lists an aged key no row names goes on to delete it. */
  lemma SweepChooses(w: World, key: Key, sweeper: TaskId)
    requires RowsWellFormed(w) && Unreferenced(w, key.upload)
    requires key in w.objects && w.objects[key] < w.clock - w.orphanTtl
    requires sweeper !in w.tasks
    ensures
      var listed := Apply(Apply(w, By(sweeper, BeginSweep)), By(sweeper, SweepList({key})));
      Apply(listed, By(sweeper, SweepProbe)) == SetTask(w, sweeper, Sweeping(w.clock - w.orphanTtl, Deleting({key})))
  {
    var cutoff := w.clock - w.orphanTtl;
    var w1 := SetTask(w, sweeper, Sweeping(cutoff, Listing));
    var w2 := SetTask(w1, sweeper, Sweeping(cutoff, Probing({key})));
    assert AgedKeys(w1, {key}, cutoff) == {key};
    assert OrphansAmong(w2, {key}) == {key} by { assert !Referenced(w2, key); }
    assert StepTask(w1, sweeper, w1.tasks[sweeper], SweepList({key})) == w2;
  }

  /** Left to itself a sweep of one unreferenced aged key removes that key and no other. */
  lemma SweepTakes(w: World, key: Key, sweeper: TaskId)
    requires RowsWellFormed(w) && Unreferenced(w, key.upload)
    requires key in w.objects && w.objects[key] < w.clock - w.orphanTtl
    requires sweeper !in w.tasks
    ensures Run(w, SweepOf(sweeper, key)).objects == w.objects - {key}
  {
    SweepChooses(w, key, sweeper);
    RunFour(w, By(sweeper, BeginSweep), By(sweeper, SweepList({key})),
            By(sweeper, SweepProbe), By(sweeper, SweepDelete(key, Done)));
  }

  // ---------------------------------------------------------------------------
  // What a rejection leaves
  // ---------------------------------------------------------------------------

  /** A running rejection is going to delete the key. */
  ghost predicate AwaitsDelete(w: World, key: Key) {
    exists t :: t in w.tasks && w.tasks[t].Rejecting? && key in w.tasks[t].remaining
  }

  /** A running reconciliation may delete the row: it has found the object missing, or is
      still to look for one that is missing or about to be deleted. */
  ghost predicate MayBeDropped(w: World, id: PhotoId) {
    exists t :: t in w.tasks && w.tasks[t].Reconciling? && DropsRow(w, w.tasks[t], id)
  }

  ghost predicate DropsRow(w: World, task: Task, id: PhotoId)
    requires task.Reconciling?
  {
    || id in task.missing
    || (id in task.selected && (task.selected[id] !in w.objects || AwaitsDelete(w, task.selected[id])))
  }

  /** A rejected row still names the key, and the object is still stored. */
  ghost predicate LeftBehind(w: World, id: PhotoId, key: Key) {
    && id in w.rows && w.rows[id].state == Rejected
    && key in KeysToDelete(w.rows[id]) && key in w.objects
  }

  /** And nobody who is running will delete the object or the row. */
  ghost predicate Leftover(w: World, id: PhotoId, key: Key) {
    LeftBehind(w, id, key) && !AwaitsDelete(w, key) && !MayBeDropped(w, id)
  }

  /** A row's full object is what reconciliation looks for. */
  lemma SelectedIsTheRows(w: World, t: TaskId, id: PhotoId)
    requires Inv(w) && id in w.rows && t in w.tasks && w.tasks[t].Reconciling? && id in w.tasks[t].selected
    ensures w.tasks[t].selected[id] == w.rows[id].storageKey
  {
    assert TaskSafe(w, w.tasks[t]);
  }

  // The steps of the requests that touch objects, one by one.

  lemma UploadSparesRejected(w: World, id: PhotoId, key: Key, t: TaskId, reply: Reply)
    requires RowsWellFormed(w) && LeftBehind(w, id, key)
    requires t in w.tasks && w.tasks[t].Uploading? && TaskSafe(w, w.tasks[t])
    ensures key in StepTask(w, t, w.tasks[t], UploadStep(reply)).objects
  {
    assert UploadOf(w.rows[id]) == key.upload;
  }

  lemma SweepSparesRejected(w: World, id: PhotoId, key: Key, t: TaskId, action: Action)
    requires RowsWellFormed(w) && LeftBehind(w, id, key)
    requires t in w.tasks && w.tasks[t].Sweeping? && TaskSafe(w, w.tasks[t])
    ensures key in StepTask(w, t, w.tasks[t], action).objects
  {
    assert UploadOf(w.rows[id]) == key.upload;
  }

  /** Only a rejection that holds the key ever deletes an object of a rejected row. */
  lemma ObjectStays(w: World, id: PhotoId, key: Key, e: Event)
    requires Inv(w) && LeftBehind(w, id, key) && !AwaitsDelete(w, key)
    ensures key in Apply(w, e).objects
  {
    if e.By? && e.task in w.tasks {
      var t, action := e.task, e.action;
      assert TaskSafe(w, w.tasks[t]);
      if w.tasks[t].Uploading? && action.UploadStep? {
        UploadSparesRejected(w, id, key, t, action.reply);
      } else if w.tasks[t].Sweeping? {
        SweepSparesRejected(w, id, key, t, action);
      } else if w.tasks[t].Rejecting? && w.tasks[t].remaining != [] {
        assert w.tasks[t].remaining[0] in w.tasks[t].remaining;
      }
    }
  }

  /** Where a request stands after an event that does not start it. */
  lemma RejectionsOnlyShrink(w: World, e: Event, t: TaskId, key: Key)
    requires t in w.tasks && t in Apply(w, e).tasks && Apply(w, e).tasks[t].Rejecting?
    requires key in Apply(w, e).tasks[t].remaining
    ensures w.tasks[t].Rejecting? && key in w.tasks[t].remaining
  {
    if Foreign(e, t) { ForeignStepKeepsTask(w, e, t); }
  }

  /** No rejection starts on the objects of a row that is already rejected. */
  lemma NoNewDeletes(w: World, id: PhotoId, key: Key, e: Event)
    requires Inv(w) && LeftBehind(w, id, key) && !AwaitsDelete(w, key)
    ensures !AwaitsDelete(Apply(w, e), key)
  {
    var w' := Apply(w, e);
    forall t | t in w'.tasks && w'.tasks[t].Rejecting? ensures key !in w'.tasks[t].remaining {
      if t in w.tasks {
        if key in w'.tasks[t].remaining { RejectionsOnlyShrink(w, e, t, key); }
      } else {
        StartedOnPending(w, e, t);
        assert UploadOf(w.rows[e.action.id]) != UploadOf(w.rows[id]);
      }
    }
  }

  lemma StartedOnPending(w: World, e: Event, t: TaskId)
    requires t !in w.tasks && t in Apply(w, e).tasks && Apply(w, e).tasks[t].Rejecting?
    ensures e.By? && e.task == t && e.action.Reject? && e.action.id in w.rows
    ensures w.rows[e.action.id].state == PendingReview
    ensures Apply(w, e).tasks[t].remaining == KeysToDelete(w.rows[e.action.id])
  {
    if Foreign(e, t) { ForeignStepKeepsTask(w, e, t); }
  }

  /** The row stays rejected unless a reconciliation has found its object missing. */
  lemma RowStays(w: World, id: PhotoId, e: Event)
    requires Inv(w) && id in w.rows && w.rows[id].state == Rejected && !MayBeDropped(w, id)
    ensures id in Apply(w, e).rows && Apply(w, e).rows[id] == w.rows[id]
  {
    if e.By? && e.task in w.tasks && w.tasks[e.task].Reconciling? {
      assert !DropsRow(w, w.tasks[e.task], id);
    }
  }

  /** A reconciliation that would not drop the row does not come to do so. */
  lemma NoNewDrop(w: World, id: PhotoId, e: Event, t: TaskId)
    requires Inv(w) && id in w.rows && w.rows[id].state == Rejected && !MayBeDropped(w, id)
    requires t in Apply(w, e).tasks && Apply(w, e).tasks[t].Reconciling?
    ensures !DropsRow(Apply(w, e), Apply(w, e).tasks[t], id)
  {
    var w' := Apply(w, e);
    if t !in w.tasks {
      StartedReconciling(w, e, t);
    } else {
      ReconcilingStep(w, e, t, id);
      assert !DropsRow(w, w.tasks[t], id);
      if id in w.tasks[t].selected {
        SelectedIsTheRows(w, t, id);
        ObjectStays(w, id, w.rows[id].storageKey, e);
        NoNewDeletes(w, id, w.rows[id].storageKey, e);
      }
    }
  }

  lemma StartedReconciling(w: World, e: Event, t: TaskId)
    requires t !in w.tasks && t in Apply(w, e).tasks && Apply(w, e).tasks[t].Reconciling?
    ensures Apply(w, e).tasks[t] == Reconciling(PendingRows(w), {})
  {
    if Foreign(e, t) { ForeignStepKeepsTask(w, e, t); }
  }

  lemma ReconcilingStep(w: World, e: Event, t: TaskId, id: PhotoId)
    requires t in w.tasks && t in Apply(w, e).tasks && Apply(w, e).tasks[t].Reconciling?
    ensures w.tasks[t].Reconciling? && Apply(w, e).tasks[t].selected == w.tasks[t].selected
    ensures id in Apply(w, e).tasks[t].missing ==>
      id in w.tasks[t].missing || (id in w.tasks[t].selected && w.tasks[t].selected[id] !in w.objects)
  {
    if Foreign(e, t) { ForeignStepKeepsTask(w, e, t); }
  }

  lemma LeftoverSurvives(w: World, id: PhotoId, key: Key, e: Event)
    requires Inv(w) && Leftover(w, id, key)
    ensures Leftover(Apply(w, e), id, key)
  {
    ObjectStays(w, id, key, e);
    NoNewDeletes(w, id, key, e);
    RowStays(w, id, e);
    forall t | t in Apply(w, e).tasks && Apply(w, e).tasks[t].Reconciling?
      ensures !DropsRow(Apply(w, e), Apply(w, e).tasks[t], id)
    {
      NoNewDrop(w, id, e, t);
    }
  }

  /** The orphan sweep asks whether a row references a key, not in which state that row is.
      So what a rejection leaves when nobody is about to delete it or its row, no later
      event of any kind ever removes. */
  lemma {:induction false} RejectedLeftoverIsNeverSwept(w: World, id: PhotoId, key: Key, events: seq<Event>)
    requires Inv(w) && Leftover(w, id, key)
    ensures Leftover(Run(w, events), id, key)
    decreases |events|
  {
    if events != [] {
      LeftoverSurvives(w, id, key, events[0]);
      StepKeepsInv(w, events[0]);
      RejectedLeftoverIsNeverSwept(Apply(w, events[0]), id, key, events[1..]);
    }
  }

  // And otherwise there is a continuation that removes it.

  /** A rejection that goes on deletes everything it still holds, and disturbs nothing else. */
  lemma {:induction false} RejectionGoesOn(w: World, t: TaskId, remaining: seq<Key>) returns (events: seq<Event>)
    requires t in w.tasks && w.tasks[t] == Rejecting(remaining)
    ensures
      var w' := Run(w, events);
      && w'.rows == w.rows && w'.clock == w.clock && w'.orphanTtl == w.orphanTtl
      && (forall k | k in remaining :: k !in w'.objects)
      && (forall k | k in w'.objects :: k in w.objects && w'.objects[k] == w.objects[k])
      && (forall u | u in w.tasks && u != t :: u in w'.tasks && w'.tasks[u] == w.tasks[u])
    decreases |remaining|
  {
    events := [];
    if remaining != [] {
      var step := By(t, RejectStep(Done));
      var rest := RejectionGoesOn(Apply(w, step), t, remaining[1..]);
      events := [step] + rest;
      RunCons(w, step, rest);
      assert forall k | k in remaining :: k == remaining[0] || k in remaining[1..];
    }
  }

  /** A reconciliation that can drop the row does. */
  lemma RowIsDropped(w: World, id: PhotoId) returns (events: seq<Event>)
    requires Inv(w) && id in w.rows && MayBeDropped(w, id)
    ensures
      var w' := Run(w, events);
      && w'.rows == w.rows - {id} && w'.clock == w.clock && w'.orphanTtl == w.orphanTtl
      && (forall k | k in w'.objects :: k in w.objects && w'.objects[k] == w.objects[k])
  {
    var t :| t in w.tasks && w.tasks[t].Reconciling? && DropsRow(w, w.tasks[t], id);
    var drop := By(t, ReconcileDelete(id));
    if id in w.tasks[t].missing {
      events := [drop];
      RunCons(w, drop, []);
      assert [drop] + [] == [drop];
    } else {
      var deleting := [];
      if w.tasks[t].selected[id] in w.objects {
        var r :| r in w.tasks && w.tasks[r].Rejecting? && w.tasks[t].selected[id] in w.tasks[r].remaining;
        deleting := RejectionGoesOn(w, r, w.tasks[r].remaining);
      }
      var w1, check := Run(w, deleting), By(t, ReconcileCheck(id));
      events := deleting + [check] + [drop];
      RunSnoc(w, deleting, check);
      RunSnoc(w, deleting + [check], drop);
      assert w1.tasks[t] == w.tasks[t] && w1.tasks[t].selected[id] !in w1.objects;
    }
  }

  lemma UnusedTask(tasks: map<TaskId, Task>) returns (t: TaskId)
    ensures t !in tasks
  {
    t := TaskBound(tasks.Keys);
  }

  lemma {:induction false} TaskBound(ids: set<TaskId>) returns (bound: TaskId)
    ensures forall t | t in ids :: t < bound
    decreases |ids|
  {
    bound := 0;
    if ids != {} {
      var t :| t in ids;
      var rest := TaskBound(ids - {t});
      assert forall u | u in ids :: u == t || u in ids - {t};
      bound := if t < rest then rest else t + 1;
    }
  }

  /** Once no row names it, waiting and sweeping removes an object. */
  lemma UnreferencedIsSwept(w: World, key: Key) returns (events: seq<Event>)
    requires RowsWellFormed(w) && Unreferenced(w, key.upload) && key in w.objects
    ensures key !in Run(w, events).objects
  {
    var age := w.clock - w.orphanTtl - w.objects[key];
    var wait := Tick(if age > 0 then 0 else 1 - age);
    var sweeper := UnusedTask(w.tasks);
    var w1 := Apply(w, wait);
    SweepTakes(w1, key, sweeper);
    events := [wait] + SweepOf(sweeper, key);
    RunCons(w, wait, SweepOf(sweeper, key));
  }

  lemma ObjectCanGo(w: World, id: PhotoId, key: Key) returns (events: seq<Event>)
    requires Inv(w) && LeftBehind(w, id, key) && (AwaitsDelete(w, key) || MayBeDropped(w, id))
    ensures key !in Run(w, events).objects
  {
    if AwaitsDelete(w, key) {
      var t :| t in w.tasks && w.tasks[t].Rejecting? && key in w.tasks[t].remaining;
      events := RejectionGoesOn(w, t, w.tasks[t].remaining);
    } else {
      events := RowIsDropped(w, id);
      var w' := Run(w, events);
      RunKeepsInv(w, events);
      assert UploadOf(w.rows[id]) == key.upload;
      if key in w'.objects {
        var sweep := UnreferencedIsSwept(w', key);
        RunAppend(w, events, sweep);
        events := events + sweep;
      }
    }
  }

  /** The exact condition: in every reachable state, a stored object of a rejected row can
      still be removed by some continuation if and only if a running rejection holds it, or
      a running reconciliation is in a position to drop the row. */
  lemma RejectedObjectGoesIff(w: World, id: PhotoId, key: Key)
    requires Inv(w) && LeftBehind(w, id, key)
    ensures (exists events :: key !in Run(w, events).objects) <==> AwaitsDelete(w, key) || MayBeDropped(w, id)
  {
    if AwaitsDelete(w, key) || MayBeDropped(w, id) {
      var events := ObjectCanGo(w, id, key);
      assert key !in Run(w, events).objects;
    } else {
      forall events ensures key in Run(w, events).objects {
        RejectedLeftoverIsNeverSwept(w, id, key, events);
      }
    }
  }

  /** Leftovers exist: a rejection that stops right after flipping the row leaves both
      objects for ever. */
  lemma LeftoverIsReachable()
    ensures
      var w := Run(Initial(0, 86400), UploadRun() + StoppedRejection());
      Leftover(w, 0, Full(0)) && Leftover(w, 0, Thumb(0))
  {
    UploadRunResult();
    RunAppend(Initial(0, 86400), UploadRun(), StoppedRejection());
    StoppedRejectionResult(Run(Initial(0, 86400), UploadRun()));
  }

  function StoppedRejection(): seq<Event> {
    [By(0, UploadStep(Done)), Tick(0), By(1, Reject(0)), By(1, Stop)]
  }

  lemma StoppedRejectionResult(w: World)
    requires w.rows == map[0 := Row(PendingReview, Full(0), Thumb(0), 0)]
    requires w.tasks == map[0 := Uploading(0, 0, Recording)] && Full(0) in w.objects && Thumb(0) in w.objects
    ensures Leftover(Run(w, StoppedRejection()), 0, Full(0)) && Leftover(Run(w, StoppedRejection()), 0, Thumb(0))
  {
    RunFour(w, By(0, UploadStep(Done)), Tick(0), By(1, Reject(0)), By(1, Stop));
  }

  // ---------------------------------------------------------------------------
  // Reconciliation reads, checks and deletes in three calls
  // ---------------------------------------------------------------------------

  /** A photo is uploaded; later a reconciliation selects its row, and a moderator
      rejects it before the reconciliation looks for its object. */
  function UploadRun(): seq<Event> {
    [By(0, BeginUpload(0)), By(0, UploadStep(Done)), By(0, UploadStep(Done)), By(0, UploadStep(Done))]
  }

  function OverlapRun(): seq<Event> {
    [By(0, UploadStep(Done)), Tick(RECONCILE_GRACE + 1), By(1, BeginReconcile), By(2, Reject(0))]
  }

  function RaceRun(): seq<Event> {
    [By(2, RejectStep(Done)), By(2, RejectStep(Done)), By(1, ReconcileCheck(0)), By(1, ReconcileDelete(0))]
  }

  lemma UploadRunResult()
    ensures
      var w := Run(Initial(0, 86400), UploadRun());
      && w.clock == 0 && w.rows == map[0 := Row(PendingReview, Full(0), Thumb(0), 0)]
      && w.tasks == map[0 := Uploading(0, 0, Recording)]
      && Full(0) in w.objects && Thumb(0) in w.objects
  {
    var step := By(0, UploadStep(Done));
    var stored := Apply(Apply(Apply(Initial(0, 86400), By(0, BeginUpload(0))), step), step);
    assert stored.objects == map[Full(0) := 0, Thumb(0) := 0];
    RunFour(Initial(0, 86400), By(0, BeginUpload(0)), step, step, step);
  }

  lemma OverlapRunResult(w: World)
    requires w.clock == 0 && w.rows == map[0 := Row(PendingReview, Full(0), Thumb(0), 0)]
    requires w.tasks == map[0 := Uploading(0, 0, Recording)]
    ensures
      var w' := Run(w, OverlapRun());
      && w'.rows == map[0 := Row(Rejected, Full(0), Thumb(0), 0)]
      && w'.tasks == map[1 := Reconciling(map[0 := Full(0)], {}), 2 := Rejecting([Full(0), Thumb(0)])]
  {
    var w1 := Apply(w, By(0, UploadStep(Done)));
    var w2 := Apply(w1, Tick(RECONCILE_GRACE + 1));
    assert PendingRows(w2) == map[0 := Full(0)];
    RunFour(w, By(0, UploadStep(Done)), Tick(RECONCILE_GRACE + 1), By(1, BeginReconcile), By(2, Reject(0)));
  }

  lemma ObjectsDeleted(w: World)
    requires w.tasks == map[1 := Reconciling(map[0 := Full(0)], {}), 2 := Rejecting([Full(0), Thumb(0)])]
    ensures
      var w' := Apply(Apply(w, By(2, RejectStep(Done))), By(2, RejectStep(Done)));
      w'.rows == w.rows && Full(0) !in w'.objects && 1 in w'.tasks && w'.tasks[1] == w.tasks[1]
  {
  }

  lemma RaceRunResult(w: World)
    requires w.rows == map[0 := Row(Rejected, Full(0), Thumb(0), 0)]
    requires w.tasks == map[1 := Reconciling(map[0 := Full(0)], {}), 2 := Rejecting([Full(0), Thumb(0)])]
    ensures Run(w, RaceRun()).rows == map[]
  {
    ObjectsDeleted(w);
    RunFour(w, By(2, RejectStep(Done)), By(2, RejectStep(Done)), By(1, ReconcileCheck(0)), By(1, ReconcileDelete(0)));
  }

  /** Reconciliation can delete the record of a rejection: its final DELETE does not ask
      again whether the row is still pending.  `OnlyRejectedRowsDisappear` is therefore
      as strong as it can be. */
  lemma ReconcileCanDropARejection()
    ensures 0 in Run(Initial(0, 86400), UploadRun() + OverlapRun()).rows
    ensures Run(Initial(0, 86400), UploadRun() + OverlapRun()).rows[0].state == Rejected
    ensures 0 !in Run(Initial(0, 86400), UploadRun() + OverlapRun() + RaceRun()).rows
  {
    var w0 := Initial(0, 86400);
    UploadRunResult();
    RunAppend(w0, UploadRun(), OverlapRun());
    OverlapRunResult(Run(w0, UploadRun()));
    RunAppend(w0, UploadRun() + OverlapRun(), RaceRun());
    RaceRunResult(Run(w0, UploadRun() + OverlapRun()));
  }
}
