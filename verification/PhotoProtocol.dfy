/**
 The photo pipeline as a transition system: an object store, the photo rows, and
 every request that is in flight (uploads, rejections, orphan sweeps, pending-row
 reconciliations).  One event is one port call of one request, so requests
 interleave freely and any of them may stop for good between two calls.
 */
module PhotoProtocol {

  type UploadId = nat
  type PhotoId = nat
  type TaskId = nat

  /** The two object keys minted for one upload. */
  datatype Key = Full(upload: UploadId) | Thumb(upload: UploadId)

  datatype PhotoState = PendingReview | Approved | Rejected | Hidden

  datatype Row = Row(state: PhotoState, storageKey: Key, thumbnailKey: Key, createdAt: int)

  /** What a storage or repository call did: it worked; it failed without effect;
      it reported a failure although its effect took place. */
  datatype Reply = Done | Refused | Lost

  datatype UploadStage = PutFull | PutThumb | Insert | Recording | UndoThumb | UndoFull

  datatype SweepStage = Listing | Probing(aged: set<Key>) | Deleting(orphans: set<Key>)

  datatype Task =
    | Uploading(upload: UploadId, startedAt: int, stage: UploadStage)
    | Rejecting(remaining: seq<Key>)
    | Sweeping(cutoff: int, step: SweepStage)
    | Reconciling(selected: map<PhotoId, Key>, missing: set<PhotoId>)

  datatype World = World(
    clock: int,
    orphanTtl: int,
    objects: map<Key, int>,
    rows: map<PhotoId, Row>,
    nextId: PhotoId,
    minted: set<UploadId>,
    tasks: map<TaskId, Task>)

  const RECONCILE_GRACE := 3600

  /** What a request does next: start, or make its next port call. */
  datatype Action =
    | BeginUpload(newUpload: UploadId)
    | UploadStep(reply: Reply)
    | Reject(id: PhotoId)
    | RejectStep(reply: Reply)
    | BeginSweep
    | SweepList(page: set<Key>)
    | SweepProbe
    | SweepDelete(key: Key, reply: Reply)
    | BeginReconcile
    | ReconcileCheck(id: PhotoId)
    | ReconcileDelete(id: PhotoId)
    | Stop

  datatype Event =
    | Tick(seconds: nat)
    | Approve(id: PhotoId)
    | Hide(id: PhotoId)
    | Restore(id: PhotoId)
    | By(task: TaskId, action: Action)

  predicate Live(state: PhotoState) {
    state != Rejected
  }

  function UploadOf(row: Row): UploadId {
    row.storageKey.upload
  }

  function Initial(clock: int, orphanTtl: int): World {
    World(clock, orphanTtl, map[], map[], 0, {}, map[])
  }

  // ---------------------------------------------------------------------------
  // Steps
  // ---------------------------------------------------------------------------

  function SetTask(w: World, t: TaskId, task: Task): World {
    w.(tasks := w.tasks[t := task])
  }

  function EndTask(w: World, t: TaskId): World {
    w.(tasks := w.tasks - {t})
  }

  function PutObject(w: World, key: Key, reply: Reply): World {
    if reply == Refused then w else w.(objects := w.objects[key := w.clock])
  }

  function DeleteObject(w: World, key: Key, reply: Reply): World {
    if reply == Refused then w else w.(objects := w.objects - {key})
  }

  /** The row insert.  A refused insert wrote no row, and an insert that comes later
      than the orphan TTL after the upload started is taken to be refused. */
  predicate InsertHappens(w: World, startedAt: int, reply: Reply) {
    reply == Done && w.clock <= startedAt + w.orphanTtl
  }

  function InsertRow(w: World, upload: UploadId): World {
    w.(rows := w.rows[w.nextId := Row(PendingReview, Full(upload), Thumb(upload), w.clock)],
       nextId := w.nextId + 1)
  }

  function StepUpload(w: World, t: TaskId, upload: UploadId, startedAt: int, stage: UploadStage, reply: Reply): World {
    match stage
    case PutFull =>
      var w1 := PutObject(w, Full(upload), reply);
      if reply == Done then SetTask(w1, t, Uploading(upload, startedAt, PutThumb)) else EndTask(w1, t)
    case PutThumb =>
      var w1 := PutObject(w, Thumb(upload), reply);
      SetTask(w1, t, Uploading(upload, startedAt, if reply == Done then Insert else UndoFull))
    case Insert =>
      if InsertHappens(w, startedAt, reply) then
        SetTask(InsertRow(w, upload), t, Uploading(upload, startedAt, Recording))
      else
        SetTask(w, t, Uploading(upload, startedAt, UndoThumb))
    case UndoThumb =>
      SetTask(DeleteObject(w, Thumb(upload), reply), t, Uploading(upload, startedAt, UndoFull))
    case UndoFull =>
      EndTask(DeleteObject(w, Full(upload), reply), t)
    case Recording =>
      EndTask(w, t)
  }

  /** `UPDATE ... SET moderation_state = to WHERE id = ... AND moderation_state = from`. */
  function Flip(w: World, id: PhotoId, from: PhotoState, to: PhotoState): World {
    if id in w.rows && w.rows[id].state == from then
      w.(rows := w.rows[id := w.rows[id].(state := to)])
    else
      w
  }

  function KeysToDelete(row: Row): seq<Key> {
    [row.storageKey, row.thumbnailKey]
  }

  function StepReject(w: World, t: TaskId, remaining: seq<Key>, reply: Reply): World {
    if remaining == [] then EndTask(w, t)
    else SetTask(DeleteObject(w, remaining[0], reply), t, Rejecting(remaining[1..]))
  }

  function AgedKeys(w: World, page: set<Key>, cutoff: int): set<Key> {
    set k | k in page && k in w.objects && w.objects[k] < cutoff
  }

  predicate Referenced(w: World, key: Key) {
    exists id :: id in w.rows && (w.rows[id].storageKey == key || w.rows[id].thumbnailKey == key)
  }

  function OrphansAmong(w: World, aged: set<Key>): set<Key> {
    set k | k in aged && !Referenced(w, k)
  }

  function StepSweepDelete(w: World, t: TaskId, cutoff: int, orphans: set<Key>, key: Key, reply: Reply): World {
    if orphans == {} then SetTask(w, t, Sweeping(cutoff, Listing))
    else if key !in orphans then w
    else if reply != Done then EndTask(DeleteObject(w, key, reply), t)
    else SetTask(DeleteObject(w, key, reply), t, Sweeping(cutoff, Deleting(orphans - {key})))
  }

  function PendingRows(w: World): map<PhotoId, Key> {
    map id | id in w.rows && w.rows[id].state == PendingReview
          && w.rows[id].createdAt < w.clock - RECONCILE_GRACE :: w.rows[id].storageKey
  }

  function StepReconcileCheck(w: World, t: TaskId, selected: map<PhotoId, Key>, missing: set<PhotoId>, id: PhotoId): World {
    if id !in selected || selected[id] in w.objects then w
    else SetTask(w, t, Reconciling(selected, missing + {id}))
  }

  function StepReconcileDelete(w: World, missing: set<PhotoId>, id: PhotoId): World {
    if id in missing then w.(rows := w.rows - {id}) else w
  }

  function StepSweep(w: World, t: TaskId, cutoff: int, step: SweepStage, action: Action): World {
    match step
    case Listing =>
      if action.SweepList? then SetTask(w, t, Sweeping(cutoff, Probing(AgedKeys(w, action.page, cutoff)))) else w
    case Probing(aged) =>
      if action.SweepProbe? then SetTask(w, t, Sweeping(cutoff, Deleting(OrphansAmong(w, aged)))) else w
    case Deleting(orphans) =>
      if action.SweepDelete? then StepSweepDelete(w, t, cutoff, orphans, action.key, action.reply) else w
  }

  /** The next call of request `t`, which is at `task`; a call the request is not
      waiting for changes nothing. */
  function StepTask(w: World, t: TaskId, task: Task, action: Action): World {
    if action.Stop? then
      EndTask(w, t)
    else
      match task
      case Uploading(upload, startedAt, stage) =>
        if action.UploadStep? then StepUpload(w, t, upload, startedAt, stage, action.reply) else w
      case Rejecting(remaining) =>
        if action.RejectStep? then StepReject(w, t, remaining, action.reply) else w
      case Sweeping(cutoff, step) =>
        StepSweep(w, t, cutoff, step, action)
      case Reconciling(selected, missing) =>
        if action.ReconcileCheck? then StepReconcileCheck(w, t, selected, missing, action.id)
        else if action.ReconcileDelete? then StepReconcileDelete(w, missing, action.id)
        else w
  }

  function StartTask(w: World, t: TaskId, action: Action): World {
    match action
    case BeginUpload(upload) =>
      if upload in w.minted then w
      else SetTask(w.(minted := w.minted + {upload}), t, Uploading(upload, w.clock, PutFull))
    case Reject(id) =>
      if id in w.rows && w.rows[id].state == PendingReview then
        SetTask(Flip(w, id, PendingReview, Rejected), t, Rejecting(KeysToDelete(w.rows[id])))
      else w
    case BeginSweep => SetTask(w, t, Sweeping(w.clock - w.orphanTtl, Listing))
    case BeginReconcile => SetTask(w, t, Reconciling(PendingRows(w), {}))
    case _ => w
  }

  function Apply(w: World, e: Event): World {
    match e
    case Tick(seconds) => w.(clock := w.clock + seconds)
    case Approve(id) => Flip(w, id, PendingReview, Approved)
    case Hide(id) => Flip(w, id, Approved, Hidden)
    case Restore(id) => Flip(w, id, Hidden, Approved)
    case By(t, action) => if t in w.tasks then StepTask(w, t, w.tasks[t], action) else StartTask(w, t, action)
  }

  function Run(w: World, events: seq<Event>): World
    decreases |events|
  {
    if events == [] then w else Run(Apply(w, events[0]), events[1..])
  }

  // ---------------------------------------------------------------------------
  // The invariant
  // ---------------------------------------------------------------------------

  ghost predicate RowsWellFormed(w: World) {
    && (forall id | id in w.rows ::
          && id < w.nextId
          && w.rows[id].storageKey == Full(UploadOf(w.rows[id]))
          && w.rows[id].thumbnailKey == Thumb(UploadOf(w.rows[id]))
          && UploadOf(w.rows[id]) in w.minted)
    && (forall id, id' | id in w.rows && id' in w.rows && id != id' ::
          UploadOf(w.rows[id]) != UploadOf(w.rows[id']))
  }

  /** No row that can still be shown points at a missing object. */
  ghost predicate LiveRowsStored(w: World) {
    forall id | id in w.rows && Live(w.rows[id].state) ::
      w.rows[id].storageKey in w.objects && w.rows[id].thumbnailKey in w.objects
  }

  ghost predicate ObjectsMinted(w: World) {
    forall k | k in w.objects :: k.upload in w.minted && w.objects[k] <= w.clock
  }

  predicate InTime(w: World, startedAt: int) {
    w.clock <= startedAt + w.orphanTtl
  }

  ghost predicate UploadSafe(w: World, upload: UploadId, startedAt: int, stage: UploadStage) {
    && upload in w.minted
    && startedAt <= w.clock
    && (forall k | k in w.objects && k.upload == upload :: startedAt <= w.objects[k])
    && (stage != Recording ==> forall id | id in w.rows :: UploadOf(w.rows[id]) != upload)
    && (InTime(w, startedAt) && stage in {PutThumb, Insert} ==> Full(upload) in w.objects)
    && (InTime(w, startedAt) && stage == Insert ==> Thumb(upload) in w.objects)
  }

  /** No upload that could still insert a row owns this key. */
  ghost predicate OutOfTime(w: World, key: Key) {
    && key.upload in w.minted
    && forall t | t in w.tasks && w.tasks[t].Uploading? && w.tasks[t].upload == key.upload ::
         !InTime(w, w.tasks[t].startedAt)
  }

  ghost predicate Unreferenced(w: World, upload: UploadId) {
    forall id | id in w.rows :: UploadOf(w.rows[id]) != upload
  }

  ghost predicate SweepSafe(w: World, cutoff: int, step: SweepStage) {
    && cutoff + w.orphanTtl <= w.clock
    && (step.Probing? ==> forall k | k in step.aged :: OutOfTime(w, k))
    && (step.Deleting? ==> forall k | k in step.orphans :: OutOfTime(w, k) && Unreferenced(w, k.upload))
  }

  /** A key the rejection path may delete: its row, if still there, is rejected, and
      its upload has finished inserting. */
  ghost predicate RejectedKey(w: World, key: Key) {
    && key.upload in w.minted
    && (forall id | id in w.rows && UploadOf(w.rows[id]) == key.upload :: w.rows[id].state == Rejected)
    && (forall t | t in w.tasks && w.tasks[t].Uploading? && w.tasks[t].upload == key.upload ::
          w.tasks[t].stage == Recording)
  }

  ghost predicate ReconcileSafe(w: World, selected: map<PhotoId, Key>, missing: set<PhotoId>) {
    && (forall id | id in selected ::
          id < w.nextId && (id in w.rows ==> w.rows[id].storageKey == selected[id]))
    && (forall id | id in missing ::
          id < w.nextId && (id in w.rows ==> w.rows[id].state == Rejected))
  }

  ghost predicate TaskSafe(w: World, task: Task) {
    match task
    case Uploading(upload, startedAt, stage) => UploadSafe(w, upload, startedAt, stage)
    case Rejecting(remaining) => forall k | k in remaining :: RejectedKey(w, k)
    case Sweeping(cutoff, step) => SweepSafe(w, cutoff, step)
    case Reconciling(selected, missing) => ReconcileSafe(w, selected, missing)
  }

  ghost predicate UploadsDistinct(w: World) {
    forall t, t' | t in w.tasks && t' in w.tasks && t != t'
                && w.tasks[t].Uploading? && w.tasks[t'].Uploading? ::
      w.tasks[t].upload != w.tasks[t'].upload
  }

  ghost predicate Inv(w: World) {
    && RowsWellFormed(w)
    && LiveRowsStored(w)
    && ObjectsMinted(w)
    && UploadsDistinct(w)
    && (forall t | t in w.tasks :: TaskSafe(w, w.tasks[t]))
  }

  // ---------------------------------------------------------------------------
  // Every event keeps the invariant
  // ---------------------------------------------------------------------------

  lemma TickKeepsInv(w: World, seconds: nat)
    requires Inv(w)
    ensures Inv(Apply(w, Tick(seconds)))
  {
    var w' := Apply(w, Tick(seconds));
    forall t | t in w'.tasks ensures TaskSafe(w', w'.tasks[t]) {
      assert TaskSafe(w, w.tasks[t]);
    }
  }

  /** Deleting an object is harmless when no live row and no upload that may still
      insert its row needs it. */
  lemma DeleteKeepsInv(w: World, key: Key, reply: Reply)
    requires Inv(w)
    requires forall id | id in w.rows && UploadOf(w.rows[id]) == key.upload :: w.rows[id].state == Rejected
    requires forall t | t in w.tasks && w.tasks[t].Uploading? && w.tasks[t].upload == key.upload ::
               !InTime(w, w.tasks[t].startedAt) || w.tasks[t].stage !in {PutThumb, Insert}
    ensures Inv(DeleteObject(w, key, reply))
  {
    var w' := DeleteObject(w, key, reply);
    forall t | t in w'.tasks ensures TaskSafe(w', w'.tasks[t]) {
      assert TaskSafe(w, w.tasks[t]);
    }
  }

  lemma EndTaskKeepsInv(w: World, t: TaskId)
    requires Inv(w)
    ensures Inv(EndTask(w, t))
  {
    var w' := EndTask(w, t);
    forall u | u in w'.tasks ensures TaskSafe(w', w'.tasks[u]) {
      assert TaskSafe(w, w.tasks[u]);
    }
  }

  /** Replacing a task that is not an upload by another that is not. */
  lemma SetTaskKeepsInv(w: World, t: TaskId, task: Task)
    requires Inv(w)
    requires t in w.tasks ==> !w.tasks[t].Uploading?
    requires !task.Uploading? && TaskSafe(w, task)
    ensures Inv(SetTask(w, t, task))
  {
    var w' := SetTask(w, t, task);
    forall u | u in w'.tasks ensures TaskSafe(w', w'.tasks[u]) {
      if u != t { assert TaskSafe(w, w.tasks[u]); }
    }
  }

  /** Moving an upload to a later stage. */
  lemma AdvanceKeepsInv(w: World, t: TaskId, stage: UploadStage)
    requires Inv(w)
    requires t in w.tasks && w.tasks[t].Uploading? && w.tasks[t].stage != Recording
    requires UploadSafe(w, w.tasks[t].upload, w.tasks[t].startedAt, stage)
    requires stage != Recording
    ensures Inv(SetTask(w, t, w.tasks[t].(stage := stage)))
  {
    var w' := SetTask(w, t, w.tasks[t].(stage := stage));
    forall u | u in w'.tasks ensures TaskSafe(w', w'.tasks[u]) {
      assert TaskSafe(w, w.tasks[u]);
    }
  }

  lemma PutKeepsInv(w: World, t: TaskId, key: Key, reply: Reply)
    requires Inv(w)
    requires t in w.tasks && w.tasks[t].Uploading? && w.tasks[t].upload == key.upload
    ensures Inv(PutObject(w, key, reply))
  {
    var w' := PutObject(w, key, reply);
    assert TaskSafe(w, w.tasks[t]);
    forall u | u in w'.tasks ensures TaskSafe(w', w'.tasks[u]) {
      assert TaskSafe(w, w.tasks[u]);
    }
  }

  lemma InsertKeepsInv(w: World, t: TaskId)
    requires Inv(w)
    requires t in w.tasks && w.tasks[t].Uploading? && w.tasks[t].stage == Insert
    requires InTime(w, w.tasks[t].startedAt)
    ensures Inv(SetTask(InsertRow(w, w.tasks[t].upload), t, w.tasks[t].(stage := Recording)))
  {
    var w' := SetTask(InsertRow(w, w.tasks[t].upload), t, w.tasks[t].(stage := Recording));
    assert TaskSafe(w, w.tasks[t]);
    forall u | u in w'.tasks ensures TaskSafe(w', w'.tasks[u]) {
      assert TaskSafe(w, w.tasks[u]);
    }
  }

  lemma UploadStepKeepsInv(w: World, t: TaskId, reply: Reply)
    requires Inv(w)
    requires t in w.tasks && w.tasks[t].Uploading?
    ensures Inv(StepTask(w, t, w.tasks[t], UploadStep(reply)))
  {
    var Uploading(upload, startedAt, stage) := w.tasks[t];
    assert TaskSafe(w, w.tasks[t]);
    match stage {
      case PutFull =>
        PutKeepsInv(w, t, Full(upload), reply);
        var w1 := PutObject(w, Full(upload), reply);
        if reply == Done { AdvanceKeepsInv(w1, t, PutThumb); } else { EndTaskKeepsInv(w1, t); }
      case PutThumb =>
        PutKeepsInv(w, t, Thumb(upload), reply);
        AdvanceKeepsInv(PutObject(w, Thumb(upload), reply), t, if reply == Done then Insert else UndoFull);
      case Insert =>
        if InsertHappens(w, startedAt, reply) { InsertKeepsInv(w, t); } else { AdvanceKeepsInv(w, t, UndoThumb); }
      case UndoThumb =>
        DeleteKeepsInv(w, Thumb(upload), reply);
        AdvanceKeepsInv(DeleteObject(w, Thumb(upload), reply), t, UndoFull);
      case UndoFull =>
        DeleteKeepsInv(w, Full(upload), reply);
        EndTaskKeepsInv(DeleteObject(w, Full(upload), reply), t);
      case Recording =>
        EndTaskKeepsInv(w, t);
    }
  }

  lemma FlipKeepsInv(w: World, id: PhotoId, from: PhotoState, to: PhotoState)
    requires Inv(w)
    requires Live(from)
    ensures Inv(Flip(w, id, from, to))
  {
    var w' := Flip(w, id, from, to);
    forall t | t in w'.tasks ensures TaskSafe(w', w'.tasks[t]) {
      assert TaskSafe(w, w.tasks[t]);
    }
  }

  lemma RejectKeepsInv(w: World, t: TaskId, id: PhotoId)
    requires Inv(w)
    requires t !in w.tasks
    ensures Inv(StartTask(w, t, Reject(id)))
  {
    if id in w.rows && w.rows[id].state == PendingReview {
      var flipped := Flip(w, id, PendingReview, Rejected);
      FlipKeepsInv(w, id, PendingReview, Rejected);
      forall k | k in KeysToDelete(w.rows[id]) ensures RejectedKey(flipped, k) {
        forall u | u in w.tasks && w.tasks[u].Uploading? && w.tasks[u].upload == k.upload
          ensures w.tasks[u].stage == Recording
        {
          assert TaskSafe(w, w.tasks[u]);
        }
      }
      SetTaskKeepsInv(flipped, t, Rejecting(KeysToDelete(w.rows[id])));
    }
  }

  lemma RejectStepKeepsInv(w: World, t: TaskId, reply: Reply)
    requires Inv(w)
    requires t in w.tasks && w.tasks[t].Rejecting?
    ensures Inv(StepTask(w, t, w.tasks[t], RejectStep(reply)))
  {
    var remaining := w.tasks[t].remaining;
    assert TaskSafe(w, w.tasks[t]);
    if remaining == [] {
      EndTaskKeepsInv(w, t);
    } else {
      assert RejectedKey(w, remaining[0]);
      DeleteKeepsInv(w, remaining[0], reply);
      var w1 := DeleteObject(w, remaining[0], reply);
      forall k | k in remaining[1..] ensures RejectedKey(w1, k) {
        assert RejectedKey(w, k);
      }
      SetTaskKeepsInv(w1, t, Rejecting(remaining[1..]));
    }
  }

  lemma SweepListKeepsInv(w: World, t: TaskId, page: set<Key>)
    requires Inv(w)
    requires t in w.tasks && w.tasks[t].Sweeping? && w.tasks[t].step.Listing?
    ensures Inv(StepTask(w, t, w.tasks[t], SweepList(page)))
  {
    var cutoff := w.tasks[t].cutoff;
    assert TaskSafe(w, w.tasks[t]);
    forall k | k in AgedKeys(w, page, cutoff) ensures OutOfTime(w, k) {
      forall u | u in w.tasks && w.tasks[u].Uploading? && w.tasks[u].upload == k.upload
        ensures !InTime(w, w.tasks[u].startedAt)
      {
        assert TaskSafe(w, w.tasks[u]);
      }
    }
    SetTaskKeepsInv(w, t, Sweeping(cutoff, Probing(AgedKeys(w, page, cutoff))));
  }

  lemma SweepProbeKeepsInv(w: World, t: TaskId)
    requires Inv(w)
    requires t in w.tasks && w.tasks[t].Sweeping? && w.tasks[t].step.Probing?
    ensures Inv(StepTask(w, t, w.tasks[t], SweepProbe))
  {
    var Sweeping(cutoff, Probing(aged)) := w.tasks[t];
    assert TaskSafe(w, w.tasks[t]);
    var orphans := OrphansAmong(w, aged);
    forall k | k in orphans ensures OutOfTime(w, k) && Unreferenced(w, k.upload) {
      assert OutOfTime(w, k);
    }
    SetTaskKeepsInv(w, t, Sweeping(cutoff, Deleting(orphans)));
  }

  lemma SweepDeleteOneKeepsInv(w: World, t: TaskId, key: Key, reply: Reply)
    requires Inv(w)
    requires t in w.tasks && w.tasks[t].Sweeping? && w.tasks[t].step.Deleting? && key in w.tasks[t].step.orphans
    ensures Inv(StepSweepDelete(w, t, w.tasks[t].cutoff, w.tasks[t].step.orphans, key, reply))
  {
    var Sweeping(cutoff, Deleting(orphans)) := w.tasks[t];
    assert TaskSafe(w, w.tasks[t]);
    assert OutOfTime(w, key) && Unreferenced(w, key.upload);
    DeleteKeepsInv(w, key, reply);
    var w1 := DeleteObject(w, key, reply);
    if reply != Done {
      EndTaskKeepsInv(w1, t);
    } else {
      assert TaskSafe(w1, w1.tasks[t]);
      SetTaskKeepsInv(w1, t, Sweeping(cutoff, Deleting(orphans - {key})));
    }
  }

  lemma SweepDeleteKeepsInv(w: World, t: TaskId, key: Key, reply: Reply)
    requires Inv(w)
    requires t in w.tasks && w.tasks[t].Sweeping? && w.tasks[t].step.Deleting?
    ensures Inv(StepTask(w, t, w.tasks[t], SweepDelete(key, reply)))
  {
    var Sweeping(cutoff, Deleting(orphans)) := w.tasks[t];
    if orphans == {} {
      assert TaskSafe(w, w.tasks[t]);
      SetTaskKeepsInv(w, t, Sweeping(cutoff, Listing));
    } else if key in orphans {
      SweepDeleteOneKeepsInv(w, t, key, reply);
    }
  }

  lemma ReconcileCheckKeepsInv(w: World, t: TaskId, id: PhotoId)
    requires Inv(w)
    requires t in w.tasks && w.tasks[t].Reconciling?
    ensures Inv(StepTask(w, t, w.tasks[t], ReconcileCheck(id)))
  {
    var Reconciling(selected, missing) := w.tasks[t];
    assert TaskSafe(w, w.tasks[t]);
    if id in selected && selected[id] !in w.objects {
      SetTaskKeepsInv(w, t, Reconciling(selected, missing + {id}));
    }
  }

  lemma ReconcileDeleteKeepsInv(w: World, t: TaskId, id: PhotoId)
    requires Inv(w)
    requires t in w.tasks && w.tasks[t].Reconciling?
    ensures Inv(StepTask(w, t, w.tasks[t], ReconcileDelete(id)))
  {
    assert TaskSafe(w, w.tasks[t]);
    var w' := StepTask(w, t, w.tasks[t], ReconcileDelete(id));
    forall u | u in w'.tasks ensures TaskSafe(w', w'.tasks[u]) {
      assert TaskSafe(w, w.tasks[u]);
    }
  }

  lemma BeginUploadKeepsInv(w: World, t: TaskId, upload: UploadId)
    requires Inv(w)
    requires t !in w.tasks
    ensures Inv(StartTask(w, t, BeginUpload(upload)))
  {
    var w' := StartTask(w, t, BeginUpload(upload));
    forall u | u in w'.tasks ensures TaskSafe(w', w'.tasks[u]) {
      if u in w.tasks { assert TaskSafe(w, w.tasks[u]); }
    }
  }

  lemma BeginScanKeepsInv(w: World, t: TaskId, action: Action)
    requires Inv(w)
    requires t !in w.tasks
    requires action.BeginSweep? || action.BeginReconcile?
    ensures Inv(StartTask(w, t, action))
  {
    if action.BeginSweep? {
      SetTaskKeepsInv(w, t, Sweeping(w.clock - w.orphanTtl, Listing));
    } else {
      SetTaskKeepsInv(w, t, Reconciling(PendingRows(w), {}));
    }
  }

  lemma StartKeepsInv(w: World, t: TaskId, action: Action)
    requires Inv(w)
    requires t !in w.tasks
    ensures Inv(StartTask(w, t, action))
  {
    if action.BeginUpload? {
      BeginUploadKeepsInv(w, t, action.newUpload);
    } else if action.Reject? {
      RejectKeepsInv(w, t, action.id);
    } else if action.BeginSweep? || action.BeginReconcile? {
      BeginScanKeepsInv(w, t, action);
    }
  }

  lemma StepTaskKeepsInv(w: World, t: TaskId, action: Action)
    requires Inv(w)
    requires t in w.tasks
    ensures Inv(StepTask(w, t, w.tasks[t], action))
  {
    var task := w.tasks[t];
    if action.Stop? {
      EndTaskKeepsInv(w, t);
    } else if task.Uploading? && action.UploadStep? {
      UploadStepKeepsInv(w, t, action.reply);
    } else if task.Rejecting? && action.RejectStep? {
      RejectStepKeepsInv(w, t, action.reply);
    } else if task.Sweeping? && task.step.Listing? && action.SweepList? {
      SweepListKeepsInv(w, t, action.page);
    } else if task.Sweeping? && task.step.Probing? && action.SweepProbe? {
      SweepProbeKeepsInv(w, t);
    } else if task.Sweeping? && task.step.Deleting? && action.SweepDelete? {
      SweepDeleteKeepsInv(w, t, action.key, action.reply);
    } else if task.Reconciling? && action.ReconcileCheck? {
      ReconcileCheckKeepsInv(w, t, action.id);
    } else if task.Reconciling? && action.ReconcileDelete? {
      ReconcileDeleteKeepsInv(w, t, action.id);
    }
  }

  lemma StepKeepsInv(w: World, e: Event)
    requires Inv(w)
    ensures Inv(Apply(w, e))
  {
    match e {
      case Tick(seconds) => TickKeepsInv(w, seconds);
      case Approve(id) => FlipKeepsInv(w, id, PendingReview, Approved);
      case Hide(id) => FlipKeepsInv(w, id, Approved, Hidden);
      case Restore(id) => FlipKeepsInv(w, id, Hidden, Approved);
      case By(t, action) =>
        if t in w.tasks { StepTaskKeepsInv(w, t, action); } else { StartKeepsInv(w, t, action); }
    }
  }

  lemma {:induction false} RunKeepsInv(w: World, events: seq<Event>)
    requires Inv(w)
    ensures Inv(Run(w, events))
    decreases |events|
  {
    if events != [] {
      StepKeepsInv(w, events[0]);
      RunKeepsInv(Apply(w, events[0]), events[1..]);
    }
  }
}
