/**
 The photo service itself.  Every method makes its port calls one after another, as
 the service does, and between any two of them the other requests of the system run
 an arbitrary list of events.  Each method is proved to be a run of the transition
 system, so what is proved of all runs holds of it.
 */
module PhotoService {
  import opened Wrappers
  import opened Interference
  import opened PhotoProtocol
  import opened PhotoGuarantees
  import opened PhotoCleanup

  datatype PhotoError =
    | NotVerified | RateLimited | TooLarge | InvalidField | Unprocessable
    | Storage | Repository | NotFound | NotPending | Unauthorized | AuditFailed

  /** What the checks before the first write find. */
  datatype UploadRequest = UploadRequest(
    verified: bool, userAllowed: bool, addressAllowed: bool,
    byteCount: nat, maxBytes: nat, captionLength: nat, decodable: bool)

  const MAX_ALT_LEN := 500

  function Admit(request: UploadRequest): Option<PhotoError> {
    if !request.verified then Some(NotVerified)
    else if !request.userAllowed || !request.addressAllowed then Some(RateLimited)
    else if request.byteCount > request.maxBytes then Some(TooLarge)
    else if request.captionLength > MAX_ALT_LEN then Some(InvalidField)
    else if !request.decodable then Some(Unprocessable)
    else None
  }

  datatype UploadReplies = UploadReplies(
    full: Reply, thumb: Reply, insert: Reply, undoThumb: Reply, undoFull: Reply, audit: Reply)

  ghost predicate AllForeign(others: nat -> seq<Event>, me: TaskId) {
    forall i: nat, e | e in others(i) :: Foreign(e, me)
  }

  ghost predicate CompleteRow(w: World, id: PhotoId, upload: UploadId) {
    && id in w.rows && w.rows[id].state == PendingReview
    && w.rows[id].storageKey == Full(upload) && w.rows[id].thumbnailKey == Thumb(upload)
    && Full(upload) in w.objects && Thumb(upload) in w.objects
  }

  /** Every object a failed upload wrote is one it is told about, and every undo works. */
  predicate Restores(replies: UploadReplies) {
    replies.full != Lost && replies.thumb != Lost && replies.undoThumb != Refused && replies.undoFull != Refused
  }

  function PendingRow(upload: UploadId, createdAt: int): Row {
    Row(PendingReview, Full(upload), Thumb(upload), createdAt)
  }

  /** Once rejected, a row is rejected or gone after any run. */
  lemma {:induction false} RejectedIsFinal(w: World, events: seq<Event>, id: PhotoId)
    requires id < w.nextId && (id in w.rows ==> w.rows[id].state == Rejected)
    ensures id < Run(w, events).nextId
    ensures id in Run(w, events).rows ==> Run(w, events).rows[id].state == Rejected
    decreases |events|
  {
    if events != [] {
      RejectedStep(w, events[0], id);
      RejectedIsFinal(Apply(w, events[0]), events[1..], id);
    }
  }

  lemma RejectedStep(w: World, e: Event, id: PhotoId)
    requires id < w.nextId && (id in w.rows ==> w.rows[id].state == Rejected)
    ensures id < Apply(w, e).nextId
    ensures id in Apply(w, e).rows ==> Apply(w, e).rows[id].state == Rejected
  {
  }

  /** What an answer to an approval says of the row, whatever else runs until it is given: a
      photo approved meanwhile may have been hidden again, but is not gone. */
  predicate ApprovalAnswer(w: World, id: PhotoId, r: Result<(), PhotoError>) {
    match r
    case Success(_) => id in w.rows && w.rows[id].state in {Approved, Hidden}
    case Failure(AuditFailed) => id in w.rows && w.rows[id].state in {Approved, Hidden}
    case Failure(NotFound) => id !in w.rows
    case Failure(error) => error == NotPending && (id in w.rows ==> w.rows[id].state != PendingReview)
  }

  /** An object whose delete was refused stays for ever, unless it is the thumbnail, the
      full object is gone, and a reconciliation still has the row to look at. */
  ghost predicate RefusedIsLeft(w: World, id: PhotoId, full: Reply, thumb: Reply) {
    && id in w.rows
    && (full == Refused ==> Leftover(w, id, w.rows[id].storageKey))
    && (thumb == Refused ==>
          (Leftover(w, id, w.rows[id].thumbnailKey) <==>
             full == Refused || forall t | t in w.tasks && w.tasks[t].Reconciling? :: id !in w.tasks[t].selected))
  }

  /** No rejection holds an object of a pending row, and no reconciliation has found it
      missing. */
  lemma PendingIsUntouched(w: World, id: PhotoId)
    requires Inv(w) && id in w.rows && w.rows[id].state == PendingReview
    ensures forall key | key in KeysToDelete(w.rows[id]) :: key in w.objects && !AwaitsDelete(w, key)
    ensures forall t | t in w.tasks && w.tasks[t].Reconciling? :: id !in w.tasks[t].missing
    ensures forall t | t in w.tasks && w.tasks[t].Reconciling? && id in w.tasks[t].selected ::
              w.tasks[t].selected[id] == w.rows[id].storageKey
  {
    forall key, t | key in KeysToDelete(w.rows[id]) && t in w.tasks && w.tasks[t].Rejecting?
      ensures key !in w.tasks[t].remaining
    {
      assert TaskSafe(w, w.tasks[t]);
      assert key.upload == UploadOf(w.rows[id]);
    }
    forall t | t in w.tasks && w.tasks[t].Reconciling?
      ensures id !in w.tasks[t].missing
      ensures id in w.tasks[t].selected ==> w.tasks[t].selected[id] == w.rows[id].storageKey
    {
      assert TaskSafe(w, w.tasks[t]);
    }
  }

  /** The pending row is rejected and its objects are gone, as far as the store obeyed. */
  predicate RejectionDone(before: World, w: World, id: PhotoId, full: Reply, thumb: Reply) {
    && id in before.rows && before.rows[id].state == PendingReview
    && w.rows == before.rows[id := before.rows[id].(state := Rejected)] && w.tasks == before.tasks
    && w.objects == before.objects - (if full == Refused then {} else {before.rows[id].storageKey})
                                   - (if thumb == Refused then {} else {before.rows[id].thumbnailKey})
  }

  lemma RejectionLeaves(before: World, w: World, id: PhotoId, full: Reply, thumb: Reply)
    requires Inv(before) && RejectionDone(before, w, id, full, thumb)
    ensures RefusedIsLeft(w, id, full, thumb)
  {
    PendingIsUntouched(before, id);
    var row := w.rows[id];
    assert !AwaitsDelete(w, row.storageKey) && !AwaitsDelete(w, row.thumbnailKey);
    assert row.storageKey != row.thumbnailKey;
    forall t | t in w.tasks && w.tasks[t].Reconciling?
      ensures DropsRow(w, w.tasks[t], id) <==> id in w.tasks[t].selected && full != Refused
    {
    }
  }

  lemma AbandonedWhenEnded(w: World, t: TaskId, reply: Reply)
    requires Inv(w)
    requires t in w.tasks && w.tasks[t].Uploading? && w.tasks[t].stage != Recording
    ensures t !in Apply(w, By(t, UploadStep(reply))).tasks ==>
      Abandoned(Apply(w, By(t, UploadStep(reply))), w.tasks[t].upload)
  {
    assert TaskSafe(w, w.tasks[t]);
    if t !in Apply(w, By(t, UploadStep(reply))).tasks {
      EndingUploadIsAbandoned(w, t, By(t, UploadStep(reply)));
    }
  }

  class Service {
    var clock: int
    var orphanTtl: int
    var objects: map<Key, int>
    var rows: map<PhotoId, Row>
    var nextId: PhotoId
    var minted: set<UploadId>
    /** The port call every running request is about to make. */
    var tasks: map<TaskId, Task>
    /** Everything that happened since the system started. */
    ghost var origin: World
    ghost var history: seq<Event>

    function View(): World
      reads this
    {
      World(clock, orphanTtl, objects, rows, nextId, minted, tasks)
    }

    /** The current state is the one the history leads to. */
    ghost predicate Valid()
      reads this
    {
      && origin == Initial(origin.clock, origin.orphanTtl)
      && View() == Run(origin, history)
    }

    lemma Reached()
      requires Valid()
      ensures Inv(View())
    {
      RunKeepsInv(origin, history);
    }

    constructor (clock: int, orphanTtl: int)
      ensures Valid() && history == []
      ensures View() == Initial(clock, orphanTtl)
    {
      this.clock, this.orphanTtl := clock, orphanTtl;
      objects, rows, nextId, minted, tasks := map[], map[], 0, {}, map[];
      origin, history := Initial(clock, orphanTtl), [];
    }

    twostate predicate SameClock()
      reads this
    {
      clock == old(clock) && orphanTtl == old(orphanTtl) && nextId == old(nextId)
    }

    ghost method Record(e: Event, before: World)
      requires origin == Initial(origin.clock, origin.orphanTtl)
      requires before == Run(origin, history) && View() == Apply(before, e)
      modifies this`history
      ensures Valid()
      ensures history == old(history) + [e]
    {
      RunSnoc(origin, history, e);
      history := history + [e];
    }

    /** The rest of the system runs. */
    method Others(events: seq<Event>, ghost me: TaskId)
      requires Valid()
      requires forall e | e in events :: Foreign(e, me)
      modifies this
      ensures Valid() && history == old(history) + events && origin == old(origin)
      ensures View() == Run(old(View()), events)
      ensures events == [] ==> View() == old(View())
      ensures me in tasks <==> me in old(tasks)
      ensures me in tasks ==> tasks[me] == old(tasks[me])
    {
      ForeignRunKeepsTask(View(), events, me);
      RunAppend(origin, history, events);
      var w := Run(View(), events);
      clock, orphanTtl, objects, rows := w.clock, w.orphanTtl, w.objects, w.rows;
      nextId, minted, tasks := w.nextId, w.minted, w.tasks;
      history := history + events;
    }

    /** Mint the keys: the request now owns a fresh upload id. */
    method Mint(me: TaskId, upload: UploadId)
      requires Valid() && me !in tasks && upload !in minted
      modifies this
      ensures Valid() && history == old(history) + [By(me, BeginUpload(upload))] && origin == old(origin)
      ensures tasks == old(tasks)[me := Uploading(upload, clock, PutFull)]
      ensures objects == old(objects) && rows == old(rows) && SameClock()
    {
      minted := minted + {upload};
      tasks := tasks[me := Uploading(upload, clock, PutFull)];
      Record(By(me, BeginUpload(upload)), old(View()));
    }

    method Put(me: TaskId, key: Key, reply: Reply) returns (ok: bool)
      requires Valid() && me in tasks && tasks[me].Uploading?
      requires || (tasks[me].stage == PutFull && key == Full(tasks[me].upload))
               || (tasks[me].stage == PutThumb && key == Thumb(tasks[me].upload))
      modifies this
      ensures Valid() && history == old(history) + [By(me, UploadStep(reply))] && origin == old(origin)
      ensures objects == if reply == Refused then old(objects) else old(objects)[key := clock]
      ensures rows == old(rows) && SameClock()
      ensures ok ==>
        && me in tasks
        && tasks[me] == old(tasks[me]).(stage := if old(tasks[me]).stage == PutFull then PutThumb else Insert)
      ensures !ok && key.Full? ==> me !in tasks && Abandoned(View(), key.upload)
      ensures !ok && key.Thumb? ==> me in tasks && tasks[me] == old(tasks[me]).(stage := UndoFull)
      ensures ok <==> reply == Done
    {
      ghost var before := View();
      Reached();
      if reply != Refused {
        objects := objects[key := clock];
      }
      ok := reply == Done;
      if tasks[me].stage == PutFull {
        tasks := if ok then tasks[me := tasks[me].(stage := PutThumb)] else tasks - {me};
      } else {
        tasks := tasks[me := tasks[me].(stage := if ok then Insert else UndoFull)];
      }
      Record(By(me, UploadStep(reply)), before);
      AbandonedWhenEnded(before, me, reply);
    }

    method InsertPending(me: TaskId, reply: Reply) returns (r: Result<PhotoId, PhotoError>)
      requires Valid() && me in tasks && tasks[me].Uploading? && tasks[me].stage == Insert
      modifies this
      ensures Valid() && history == old(history) + [By(me, UploadStep(reply))] && origin == old(origin)
      ensures objects == old(objects) && clock == old(clock) && orphanTtl == old(orphanTtl)
      ensures r.Success? ==>
        && rows == old(rows)[r.value := PendingRow(old(tasks[me]).upload, clock)]
        && CompleteRow(View(), r.value, old(tasks[me]).upload)
        && me in tasks && tasks[me] == old(tasks[me]).(stage := Recording)
      ensures r.Failure? ==>
        rows == old(rows) && me in tasks && tasks[me] == old(tasks[me]).(stage := UndoThumb)
      ensures r == if InsertHappens(old(View()), old(tasks[me].startedAt), reply) then Success(old(nextId))
                   else Failure(Repository)
    {
      Reached();
      assert TaskSafe(View(), tasks[me]);
      var upload := tasks[me].upload;
      if reply == Done && clock <= tasks[me].startedAt + orphanTtl {
        r := Success(nextId);
        rows := rows[nextId := PendingRow(upload, clock)];
        nextId := nextId + 1;
        tasks := tasks[me := tasks[me].(stage := Recording)];
      } else {
        r := Failure(Repository);
        tasks := tasks[me := tasks[me].(stage := UndoThumb)];
      }
      Record(By(me, UploadStep(reply)), old(View()));
    }

    /** Delete an object this upload wrote. */
    method Undo(me: TaskId, key: Key, reply: Reply)
      requires Valid() && me in tasks && tasks[me].Uploading?
      requires || (tasks[me].stage == UndoThumb && key == Thumb(tasks[me].upload))
               || (tasks[me].stage == UndoFull && key == Full(tasks[me].upload))
      modifies this
      ensures Valid() && history == old(history) + [By(me, UploadStep(reply))] && origin == old(origin)
      ensures objects == if reply == Refused then old(objects) else old(objects) - {key}
      ensures rows == old(rows) && SameClock()
      ensures key.Thumb? ==> me in tasks && tasks[me] == old(tasks[me]).(stage := UndoFull)
      ensures key.Full? ==> me !in tasks && Abandoned(View(), key.upload)
    {
      ghost var before := View();
      Reached();
      if reply != Refused {
        objects := objects - {key};
      }
      if tasks[me].stage == UndoThumb {
        tasks := tasks[me := tasks[me].(stage := UndoFull)];
      } else {
        tasks := tasks - {me};
      }
      Record(By(me, UploadStep(reply)), before);
      AbandonedWhenEnded(before, me, reply);
    }

    method Audit(me: TaskId, reply: Reply) returns (ok: bool)
      requires Valid() && me in tasks && tasks[me].Uploading? && tasks[me].stage == Recording
      modifies this
      ensures Valid() && history == old(history) + [By(me, UploadStep(reply))] && origin == old(origin)
      ensures objects == old(objects) && rows == old(rows) && clock == old(clock)
      ensures tasks == old(tasks) - {me}
      ensures ok <==> reply == Done
    {
      tasks := tasks - {me};
      ok := reply == Done;
      Record(By(me, UploadStep(reply)), old(View()));
    }

    /** Write the full derivative, then the thumbnail, taking the first back when the
        second fails. */
    method StoreDerivatives(me: TaskId, upload: UploadId, replies: UploadReplies, others: nat -> seq<Event>)
      returns (ok: bool)
      requires Valid() && me in tasks && tasks[me].Uploading?
      requires tasks[me].upload == upload && tasks[me].stage == PutFull
      requires AllForeign(others, me)
      modifies this
      ensures Valid() && origin == old(origin) && old(history) <= history
      ensures ok <==> replies.full == Done && replies.thumb == Done
      ensures ok ==> me in tasks && tasks[me] == old(tasks[me]).(stage := Insert)
      ensures !ok ==> me !in tasks && Abandoned(View(), upload)
      ensures Quiet(others) ==> rows == old(rows) && SameClock()
      ensures Quiet(others) && ok ==> objects == old(objects)[Full(upload) := clock][Thumb(upload) := clock]
      ensures Quiet(others) && !ok && Restores(replies) && old(Full(upload) !in objects && Thumb(upload) !in objects) ==>
        objects == old(objects)
    {
      Others(others(0), me);
      ok := Put(me, Full(upload), replies.full);
      if !ok {
        return;
      }
      Others(others(1), me);
      ok := Put(me, Thumb(upload), replies.thumb);
      if !ok {
        Others(others(2), me);
        Undo(me, Full(upload), replies.undoFull);
      }
    }

    /** Insert the row; when that fails, take both objects back. */
    method InsertOrUndo(me: TaskId, upload: UploadId, replies: UploadReplies, others: nat -> seq<Event>)
      returns (r: Result<PhotoId, PhotoError>)
      requires Valid() && me in tasks && tasks[me].Uploading?
      requires tasks[me].upload == upload && tasks[me].stage == Insert
      requires AllForeign(others, me)
      modifies this
      ensures Valid() && origin == old(origin) && old(history) <= history
      ensures r.Success? ==>
        && replies.insert == Done
        && CompleteRow(View(), r.value, upload)
        && me in tasks && tasks[me] == old(tasks[me]).(stage := Recording)
      ensures r.Failure? ==> r.error == Repository && me !in tasks && Abandoned(View(), upload)
      ensures Quiet(others) ==> (r.Success? <==> InsertHappens(old(View()), old(tasks[me]).startedAt, replies.insert))
      ensures Quiet(others) && r.Success? ==>
        r.value == old(nextId) && rows == old(rows)[old(nextId) := PendingRow(upload, old(clock))] && objects == old(objects)
      ensures Quiet(others) && r.Failure? ==> rows == old(rows)
      ensures Quiet(others) && r.Failure? && Restores(replies) ==> objects == old(objects) - {Full(upload), Thumb(upload)}
    {
      Others(others(2), me);
      r := InsertPending(me, replies.insert);
      if r.Failure? {
        TakeBack(me, upload, replies, others);
      }
    }

    /** Delete both objects of an upload whose row was not inserted. */
    method TakeBack(me: TaskId, upload: UploadId, replies: UploadReplies, others: nat -> seq<Event>)
      requires Valid() && me in tasks && tasks[me].Uploading?
      requires tasks[me].upload == upload && tasks[me].stage == UndoThumb
      requires AllForeign(others, me)
      modifies this
      ensures Valid() && origin == old(origin) && old(history) <= history
      ensures me !in tasks && Abandoned(View(), upload)
      ensures Quiet(others) ==> rows == old(rows)
      ensures Quiet(others) && Restores(replies) ==> objects == old(objects) - {Full(upload), Thumb(upload)}
    {
      Others(others(3), me);
      Undo(me, Thumb(upload), replies.undoThumb);
      Others(others(4), me);
      Undo(me, Full(upload), replies.undoFull);
    }

    /** Insert the row and record the audit event; `wrote` is the length of the history
        when the row was inserted. */
    method Publish(me: TaskId, upload: UploadId, replies: UploadReplies, others: nat -> seq<Event>)
      returns (r: Result<PhotoId, PhotoError>, ghost wrote: Option<nat>)
      requires Valid() && me in tasks && tasks[me].Uploading?
      requires tasks[me].upload == upload && tasks[me].stage == Insert
      requires AllForeign(others, me)
      modifies this
      ensures Valid() && origin == old(origin) && old(history) <= history && me !in tasks
      ensures wrote.None? ==> r == Failure(Repository) && Abandoned(View(), upload)
      ensures wrote.Some? ==>
        && replies.insert == Done
        && wrote.value <= |history|
        && exists id: PhotoId :: CompleteRow(Run(origin, history[..wrote.value]), id, upload)
                     && r == if replies.audit == Done then Success(id) else Failure(AuditFailed)
      ensures Quiet(others) ==> (wrote.Some? <==> InsertHappens(old(View()), old(tasks[me]).startedAt, replies.insert))
      ensures Quiet(others) && wrote.Some? ==>
        && rows == old(rows)[old(nextId) := PendingRow(upload, old(clock))]
        && objects == old(objects)
      ensures Quiet(others) && wrote.None? ==>
        && rows == old(rows)
        && (Restores(replies) ==> objects == old(objects) - {Full(upload), Thumb(upload)})
    {
      wrote := None;
      r := InsertOrUndo(me, upload, replies, others);
      if r.Failure? {
        return;
      }
      wrote := Some(|history|);
      ghost var inserted := history;
      assert history[..wrote.value] == inserted;
      Others(others(3), me);
      var recorded := Audit(me, replies.audit);
      assert history[..wrote.value] == inserted;
      if !recorded {
        r := Failure(AuditFailed);
      }
    }

    /** One upload.  `others(i)` is what the rest of the system does before the i-th
        port call. */
    method UploadPhoto(me: TaskId, upload: UploadId, request: UploadRequest, replies: UploadReplies,
                       others: nat -> seq<Event>)
      returns (r: Result<PhotoId, PhotoError>, ghost wrote: Option<nat>)
      requires Valid() && me !in tasks && upload !in minted
      requires AllForeign(others, me)
      modifies this
      ensures Valid() && origin == old(origin) && old(history) <= history && me !in tasks
      ensures Admit(request).Some? ==>
        r == Failure(Admit(request).value) && View() == old(View()) && history == old(history)
      ensures !request.verified ==> r == Failure(NotVerified) && View() == old(View())
      ensures request.verified && !(request.userAllowed && request.addressAllowed) ==>
        r == Failure(RateLimited) && View() == old(View())
      ensures request.verified && request.userAllowed && request.addressAllowed && request.byteCount > request.maxBytes ==>
        r == Failure(TooLarge) && View() == old(View())
      ensures request.verified && request.userAllowed && request.addressAllowed && request.byteCount <= request.maxBytes
              && request.captionLength > 500 ==>
        r == Failure(InvalidField) && View() == old(View())
      ensures request.verified && request.userAllowed && request.addressAllowed && request.byteCount <= request.maxBytes
              && request.captionLength <= 500 && !request.decodable ==>
        r == Failure(Unprocessable) && View() == old(View())
      ensures r.Failure? && r.error in {NotVerified, RateLimited, TooLarge, InvalidField, Unprocessable} <==>
        !(&& request.verified && request.userAllowed && request.addressAllowed
          && request.byteCount <= request.maxBytes && request.captionLength <= 500 && request.decodable)
      ensures Admit(request).None? && wrote.None? ==> Abandoned(View(), upload)
      ensures wrote.Some? ==>
        && wrote.value <= |history|
        && exists id: PhotoId :: CompleteRow(Run(origin, history[..wrote.value]), id, upload) && (r.Success? ==> r.value == id)
      ensures r.Success? <==> wrote.Some? && replies.audit == Done
      ensures r.Failure? ==> (wrote.Some? <==> r.error == AuditFailed)
      ensures wrote.Some? ==> replies.full == replies.thumb == replies.insert == Done
      ensures Quiet(others) && wrote.Some? ==>
        && rows == old(rows)[old(nextId) := Row(PendingReview, Full(upload), Thumb(upload), old(clock))]
        && objects == old(objects)[Full(upload) := old(clock)][Thumb(upload) := old(clock)]
      ensures Quiet(others) && wrote.None? ==>
        && rows == old(rows)
        && (replies.full != Lost && replies.thumb != Lost && replies.undoThumb != Refused && replies.undoFull != Refused ==>
              objects == old(objects))
      ensures Quiet(others) && Admit(request).None? && old(orphanTtl) >= 0 && replies.full == replies.thumb == replies.insert == Done ==>
        wrote.Some?
    {
      wrote := None;
      var refusal := Admit(request);
      if refusal.Some? {
        return Failure(refusal.value), wrote;
      }
      assert Full(upload) !in objects && Thumb(upload) !in objects by { Reached(); }
      Mint(me, upload);

      var stored := StoreDerivatives(me, upload, replies, others);
      if !stored {
        return Failure(Storage), wrote;
      }
      r, wrote := Publish(me, upload, replies, others);
    }

    // -------------------------------------------------------------------------
    // Moderation
    // -------------------------------------------------------------------------

    /** The compare-and-set that approves a pending row. */
    method ApproveRow(id: PhotoId) returns (ok: bool)
      requires Valid()
      modifies this
      ensures Valid() && history == old(history) + [Approve(id)] && origin == old(origin)
      ensures ok <==> id in old(rows) && old(rows)[id].state == PendingReview
      ensures rows == if ok then old(rows)[id := old(rows)[id].(state := Approved)] else old(rows)
      ensures objects == old(objects) && tasks == old(tasks)
    {
      ok := id in rows && rows[id].state == PendingReview;
      if ok {
        rows := rows[id := rows[id].(state := Approved)];
      }
      Record(Approve(id), old(View()));
    }

    /** The compare-and-set that rejects a pending row and returns its keys. */
    method RejectRow(me: TaskId, id: PhotoId) returns (ok: bool)
      requires Valid() && me !in tasks
      modifies this
      ensures Valid() && history == old(history) + [By(me, Reject(id))] && origin == old(origin)
      ensures ok <==> id in old(rows) && old(rows)[id].state == PendingReview
      ensures rows == if ok then old(rows)[id := old(rows)[id].(state := Rejected)] else old(rows)
      ensures tasks == if ok then old(tasks)[me := Rejecting(KeysToDelete(old(rows)[id]))] else old(tasks)
      ensures objects == old(objects)
    {
      ok := id in rows && rows[id].state == PendingReview;
      if ok {
        tasks := tasks[me := Rejecting(KeysToDelete(rows[id]))];
        rows := rows[id := rows[id].(state := Rejected)];
      }
      Record(By(me, Reject(id)), old(View()));
    }

    /** Delete the next object of a rejected row, or finish when none is left. */
    method RejectNext(me: TaskId, reply: Reply)
      requires Valid() && me in tasks && tasks[me].Rejecting?
      modifies this
      ensures Valid() && history == old(history) + [By(me, RejectStep(reply))] && origin == old(origin)
      ensures rows == old(rows) && nextId == old(nextId)
      ensures old(tasks[me]).remaining == [] ==> objects == old(objects) && tasks == old(tasks) - {me}
      ensures old(tasks[me]).remaining != [] ==>
        && objects == (if reply == Refused then old(objects) else old(objects) - {old(tasks[me]).remaining[0]})
        && tasks == old(tasks)[me := Rejecting(old(tasks[me]).remaining[1..])]
    {
      var remaining := tasks[me].remaining;
      if remaining == [] {
        tasks := tasks - {me};
      } else {
        if reply != Refused {
          objects := objects - {remaining[0]};
        }
        tasks := tasks[me := Rejecting(remaining[1..])];
      }
      Record(By(me, RejectStep(reply)), old(View()));
    }

    /** Approve a pending photo; approving an approved one changes nothing. */
    method ApprovePhoto(me: TaskId, moderator: bool, id: PhotoId, audit: Reply, others: nat -> seq<Event>)
      returns (r: Result<(), PhotoError>)
      requires Valid() && AllForeign(others, me)
      modifies this
      ensures Valid() && origin == old(origin) && old(history) <= history
      ensures !moderator ==> r == Failure(Unauthorized) && View() == old(View())
      ensures moderator ==> ApprovalAnswer(View(), id, r)
      ensures Quiet(others) && moderator ==>
        && objects == old(objects)
        && if id !in old(rows) then r == Failure(NotFound) && rows == old(rows)
           else match old(rows)[id].state
             case PendingReview =>
               && rows == old(rows)[id := old(rows)[id].(state := Approved)]
               && r == if audit == Done then Success(()) else Failure(AuditFailed)
             case Approved => r == Success(()) && rows == old(rows)
             case _ => r == Failure(NotPending) && rows == old(rows)
    {
      if !moderator {
        return Failure(Unauthorized);
      }
      Others(others(0), me);
      if id !in rows {
        return Failure(NotFound);
      }
      match rows[id].state {
        case PendingReview =>
        case Approved => return Success(());
        case Rejected => return Failure(NotPending);
        case Hidden => return Failure(NotPending);
      }
      Others(others(1), me);
      var ok := ApproveRow(id);
      if !ok {
        return Failure(NotPending);
      }
      ghost var approved := View();
      assert Inv(approved) by { Reached(); }
      Others(others(2), me);
      ShownRowsStay(approved, others(2), id);
      r := if audit == Done then Success(()) else Failure(AuditFailed);
    }

    /** The next delete of a rejection, after whatever else went on in between. */
    method DeleteNext(me: TaskId, ghost id: PhotoId, reply: Reply, events: seq<Event>)
      requires Valid() && me in tasks && tasks[me].Rejecting?
      requires forall e | e in events :: Foreign(e, me)
      requires id < nextId && (id in rows ==> rows[id].state == Rejected)
      modifies this
      ensures Valid() && origin == old(origin) && old(history) <= history
      ensures id < nextId && (id in rows ==> rows[id].state == Rejected)
      ensures events == [] ==> rows == old(rows) && tasks - {me} == old(tasks) - {me}
      ensures old(tasks[me]).remaining == [] ==> me !in tasks && (events == [] ==> objects == old(objects))
      ensures old(tasks[me]).remaining != [] ==>
        && me in tasks && tasks[me] == Rejecting(old(tasks[me]).remaining[1..])
        && (events == [] ==>
              objects == if reply == Refused then old(objects) else old(objects) - {old(tasks[me]).remaining[0]})
    {
      ghost var w := View();
      Others(events, me);
      RejectedIsFinal(w, events, id);
      RejectNext(me, reply);
    }

    /** Delete both objects of the row just rejected; failures are ignored.  `others(5)` is
        what runs before the audit call that follows. */
    method DeleteRejected(me: TaskId, ghost id: PhotoId, full: Reply, thumb: Reply, others: nat -> seq<Event>)
      requires Valid() && AllForeign(others, me)
      requires id in rows && rows[id].state == Rejected
      requires me in tasks && tasks[me] == Rejecting(KeysToDelete(rows[id]))
      modifies this
      ensures Valid() && origin == old(origin) && old(history) <= history && me !in tasks
      ensures id in rows ==> rows[id].state == Rejected
      ensures Quiet(others) ==>
        && rows == old(rows) && tasks == old(tasks) - {me}
        && objects == old(objects) - (if full == Refused then {} else {old(rows)[id].storageKey})
                                   - (if thumb == Refused then {} else {old(rows)[id].thumbnailKey})
    {
      assert id < nextId by { Reached(); }
      DeleteNext(me, id, full, others(2));
      DeleteNext(me, id, thumb, others(3));
      DeleteNext(me, id, Done, others(4));
      ghost var deleted := View();
      Others(others(5), me);
      RejectedIsFinal(deleted, others(5), id);
    }

    /** Flip a pending row to rejected and delete its objects. */
    method RejectPending(me: TaskId, id: PhotoId, full: Reply, thumb: Reply, others: nat -> seq<Event>)
      returns (ok: bool)
      requires Valid() && me !in tasks && AllForeign(others, me)
      modifies this
      ensures Valid() && origin == old(origin) && old(history) <= history && me !in tasks
      ensures ok && id in rows ==> rows[id].state == Rejected
      ensures Quiet(others) ==> (ok <==> id in old(rows) && old(rows)[id].state == PendingReview)
      ensures Quiet(others) && ok ==> RejectionDone(old(View()), View(), id, full, thumb)
    {
      ok := RejectRow(me, id);
      if ok {
        DeleteRejected(me, id, full, thumb, others);
      }
    }

    /** Reject a pending photo, then delete its objects.  What the store refuses to delete
        is left for good. */
    method RejectPhoto(me: TaskId, moderator: bool, reasonBlank: bool, id: PhotoId,
                       full: Reply, thumb: Reply, audit: Reply, others: nat -> seq<Event>)
      returns (r: Result<(), PhotoError>)
      requires Valid() && me !in tasks && AllForeign(others, me)
      modifies this
      ensures Valid() && origin == old(origin) && old(history) <= history && me !in tasks
      ensures !moderator ==> r == Failure(Unauthorized) && View() == old(View())
      ensures moderator && reasonBlank ==> r == Failure(InvalidField) && View() == old(View())
      ensures r.Success? ==> id in rows ==> rows[id].state == Rejected
      ensures Quiet(others) && moderator && !reasonBlank ==>
        if id !in old(rows) then r == Failure(NotFound) && View() == old(View())
        else match old(rows)[id].state
          case PendingReview =>
            && RejectionDone(old(View()), View(), id, full, thumb)
            && RefusedIsLeft(View(), id, full, thumb)
            && r == if audit == Done then Success(()) else Failure(AuditFailed)
          case Rejected => r == Success(()) && View() == old(View())
          case _ => r == Failure(NotPending) && View() == old(View())
    {
      if !moderator {
        return Failure(Unauthorized);
      }
      if reasonBlank {
        return Failure(InvalidField);
      }
      Others(others(0), me);
      if id !in rows {
        return Failure(NotFound);
      }
      match rows[id].state {
        case PendingReview =>
        case Rejected => return Success(());
        case Approved => return Failure(NotPending);
        case Hidden => return Failure(NotPending);
      }
      Others(others(1), me);
      ghost var before := View();
      assert Inv(before) by { Reached(); }
      var ok := RejectPending(me, id, full, thumb, others);
      if !ok {
        return Failure(NotPending);
      }
      if Quiet(others) { RejectionLeaves(before, View(), id, full, thumb); }
      r := if audit == Done then Success(()) else Failure(AuditFailed);
    }
  }
}
