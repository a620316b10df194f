/** What every run of the photo pipeline guarantees, and where its guarantees end. */
module PhotoGuarantees {
  import opened PhotoProtocol

  lemma {:induction false} RunAppend(w: World, first: seq<Event>, second: seq<Event>)
    ensures Run(w, first + second) == Run(Run(w, first), second)
    decreases |first|
  {
    if first == [] {
      assert first + second == second;
    } else {
      assert (first + second)[1..] == first[1..] + second;
      RunAppend(Apply(w, first[0]), first[1..], second);
    }
  }

  /** A row that can still be shown always has both of its objects. */
  lemma EveryLiveRowHasItsObjects(clock: int, orphanTtl: int, events: seq<Event>, id: PhotoId)
    ensures
      var w := Run(Initial(clock, orphanTtl), events);
      id in w.rows && w.rows[id].state in {PendingReview, Approved, Hidden} ==>
        w.rows[id].storageKey in w.objects && w.rows[id].thumbnailKey in w.objects
  {
    RunKeepsInv(Initial(clock, orphanTtl), events);
  }

  // ---------------------------------------------------------------------------
  // Uploads that fail or stop
  // ---------------------------------------------------------------------------

  /** The upload id was used, nothing is uploading under it, and no row names it. */
  ghost predicate Abandoned(w: World, upload: UploadId) {
    && upload in w.minted
    && Unreferenced(w, upload)
    && forall t | t in w.tasks && w.tasks[t].Uploading? :: w.tasks[t].upload != upload
  }

  lemma AbandonedStep(w: World, upload: UploadId, e: Event)
    requires Abandoned(w, upload)
    ensures Abandoned(Apply(w, e), upload)
  {
  }

  lemma {:induction false} AbandonedForever(w: World, upload: UploadId, events: seq<Event>)
    requires Abandoned(w, upload)
    ensures Abandoned(Run(w, events), upload)
    decreases |events|
  {
    if events != [] {
      AbandonedStep(w, upload, events[0]);
      AbandonedForever(Apply(w, events[0]), upload, events[1..]);
    }
  }

  lemma EndingWritesNoRow(w: World, t: TaskId, action: Action)
    requires t in w.tasks && w.tasks[t].Uploading? && w.tasks[t].stage != Recording
    requires t !in StepTask(w, t, w.tasks[t], action).tasks
    ensures
      var w' := StepTask(w, t, w.tasks[t], action);
      w'.rows == w.rows && w'.minted == w.minted && w'.tasks == w.tasks - {t}
  {
  }

  lemma EndingUploadIsAbandoned(w: World, t: TaskId, e: Event)
    requires UploadsDistinct(w)
    requires t in w.tasks && w.tasks[t].Uploading? && w.tasks[t].stage != Recording
    requires w.tasks[t].upload in w.minted && Unreferenced(w, w.tasks[t].upload)
    requires t !in Apply(w, e).tasks
    ensures Abandoned(Apply(w, e), w.tasks[t].upload)
  {
    assert e.By? && e.task == t;
    EndingWritesNoRow(w, t, e.action);
  }

  /** An upload that ends before its insert took place (a failed call, a refused
      insert, a crash between any two calls) never has a row, in any continuation. */
  lemma UnfinishedUploadLeavesNoRow(w: World, t: TaskId, e: Event, events: seq<Event>)
    requires Inv(w)
    requires t in w.tasks && w.tasks[t].Uploading? && w.tasks[t].stage != Recording
    requires t !in Apply(w, e).tasks
    ensures Unreferenced(Run(Apply(w, e), events), w.tasks[t].upload)
  {
    assert TaskSafe(w, w.tasks[t]);
    EndingUploadIsAbandoned(w, t, e);
    AbandonedForever(Apply(w, e), w.tasks[t].upload, events);
  }

  /** The insert itself writes a pending row whose objects are both stored, so an
      upload that fails or stops after it leaves a complete row behind. */
  lemma InsertWritesACompleteRow(w: World, t: TaskId)
    requires Inv(w)
    requires t in w.tasks && w.tasks[t].Uploading? && w.tasks[t].stage == Insert
    requires InsertHappens(w, w.tasks[t].startedAt, Done)
    ensures
      var w' := Apply(w, By(t, UploadStep(Done)));
      var upload := w.tasks[t].upload;
      && w.nextId !in w.rows && w.nextId in w'.rows
      && w'.rows[w.nextId] == Row(PendingReview, Full(upload), Thumb(upload), w.clock)
      && Full(upload) in w'.objects && Thumb(upload) in w'.objects
  {
    assert TaskSafe(w, w.tasks[t]);
    assert RowsWellFormed(w);
  }

  lemma RunCons(w: World, e: Event, rest: seq<Event>)
    ensures Run(w, [e] + rest) == Run(Apply(w, e), rest)
  {
    assert ([e] + rest)[1..] == rest;
  }

  lemma RunSnoc(w: World, events: seq<Event>, e: Event)
    ensures Run(w, events + [e]) == Apply(Run(w, events), e)
  {
    RunAppend(w, events, [e]);
    RunCons(Run(w, events), e, []);
    assert [e] + [] == [e];
  }

  lemma RunFour(w: World, a: Event, b: Event, c: Event, d: Event)
    ensures Run(w, [a, b, c, d]) == Apply(Apply(Apply(Apply(w, a), b), c), d)
  {
    assert [a, b, c, d] == [a] + ([b] + ([c] + ([d] + [])));
    RunCons(w, a, [b] + ([c] + ([d] + [])));
    RunCons(Apply(w, a), b, [c] + ([d] + []));
    RunCons(Apply(Apply(w, a), b), c, [d] + []);
    RunCons(Apply(Apply(Apply(w, a), b), c), d, []);
  }

  // ---------------------------------------------------------------------------
  // Rows
  // ---------------------------------------------------------------------------

  /** A row leaves its table only when it is rejected: reconciliation never deletes a
      row that could still be shown, whatever runs between its reads. */
  lemma OnlyRejectedRowsDisappear(w: World, e: Event, id: PhotoId)
    requires Inv(w)
    requires id in w.rows && id !in Apply(w, e).rows
    ensures w.rows[id].state == Rejected
  {
    assert e.By? && e.task in w.tasks;
    assert TaskSafe(w, w.tasks[e.task]);
  }

  /** The transitions a row can make in one event. */
  predicate MayBecome(from: PhotoState, to: PhotoState) {
    from == to || (from, to) in {
      (PendingReview, Approved), (PendingReview, Rejected), (Approved, Hidden), (Hidden, Approved)
    }
  }

  /** A moderator's decision flips a row from the one state it applies to, and leaves any other
      row, and everything else, alone. */
  lemma DecisionsFlip(w: World, id: PhotoId)
    ensures
      Apply(w, Approve(id)) ==
        if id in w.rows && w.rows[id].state == PendingReview then w.(rows := w.rows[id := w.rows[id].(state := Approved)])
        else w
    ensures
      Apply(w, Hide(id)) ==
        if id in w.rows && w.rows[id].state == Approved then w.(rows := w.rows[id := w.rows[id].(state := Hidden)]) else w
    ensures
      Apply(w, Restore(id)) ==
        if id in w.rows && w.rows[id].state == Hidden then w.(rows := w.rows[id := w.rows[id].(state := Approved)]) else w
  {
  }

  /** Reconciliation looks at the rows that are pending for more than an hour, and at their
      full objects; a sweep at objects older than the orphan TTL. */
  lemma ScansBegin(w: World, t: TaskId, id: PhotoId)
    requires t !in w.tasks
    ensures
      var w' := Apply(w, By(t, BeginReconcile));
      && t in w'.tasks && w'.tasks[t].Reconciling? && w'.tasks[t].missing == {}
      && (id in w'.tasks[t].selected <==>
            id in w.rows && w.rows[id].state == PendingReview && w.clock - w.rows[id].createdAt > 3600)
      && (id in w'.tasks[t].selected ==> w'.tasks[t].selected[id] == w.rows[id].storageKey)
    ensures
      var w' := Apply(w, By(t, BeginSweep));
      t in w'.tasks && w'.tasks[t] == Sweeping(w.clock - w.orphanTtl, Listing)
  {
  }

  /** Of a listed page a sweep picks what is stored since before its cutoff, and of that what
      no row names. */
  lemma SweepPicks(w: World, t: TaskId, cutoff: int, page: set<Key>, aged: set<Key>, key: Key)
    requires t in w.tasks
    ensures w.tasks[t] == Sweeping(cutoff, Listing) ==>
      var w' := Apply(w, By(t, SweepList(page)));
      && t in w'.tasks && w'.tasks[t].Sweeping? && w'.tasks[t].step.Probing?
      && (key in w'.tasks[t].step.aged <==> key in page && key in w.objects && w.objects[key] < cutoff)
    ensures w.tasks[t] == Sweeping(cutoff, Probing(aged)) ==>
      var w' := Apply(w, By(t, SweepProbe));
      && t in w'.tasks && w'.tasks[t].Sweeping? && w'.tasks[t].step.Deleting?
      && (key in w'.tasks[t].step.orphans <==>
            key in aged && forall id | id in w.rows :: w.rows[id].storageKey != key && w.rows[id].thumbnailKey != key)
  {
    assert (forall id | id in w.rows :: w.rows[id].storageKey != key && w.rows[id].thumbnailKey != key)
      <==> !Referenced(w, key);
  }

  /** A reconciliation finds missing exactly the selected rows whose object is not stored, and
      deletes exactly those. */
  lemma ReconciliationDeletes(w: World, t: TaskId, selected: map<PhotoId, Key>, missing: set<PhotoId>, id: PhotoId)
    requires t in w.tasks && w.tasks[t] == Reconciling(selected, missing)
    ensures
      Apply(w, By(t, ReconcileCheck(id))) ==
        if id in selected && selected[id] !in w.objects
        then w.(tasks := w.tasks[t := Reconciling(selected, missing + {id})]) else w
    ensures Apply(w, By(t, ReconcileDelete(id))) == if id in missing then w.(rows := w.rows - {id}) else w
  {
  }

  lemma RowStep(w: World, e: Event, id: PhotoId)
    requires RowsWellFormed(w)
    requires id in w.rows && id in Apply(w, e).rows
    ensures MayBecome(w.rows[id].state, Apply(w, e).rows[id].state)
    ensures Apply(w, e).rows[id] == w.rows[id].(state := Apply(w, e).rows[id].state)
  {
  }

  lemma ShownRowStep(w: World, e: Event, id: PhotoId)
    requires Inv(w) && id in w.rows && w.rows[id].state in {Approved, Hidden}
    ensures id in Apply(w, e).rows && Apply(w, e).rows[id].state in {Approved, Hidden}
  {
    if id !in Apply(w, e).rows { OnlyRejectedRowsDisappear(w, e, id); } else { RowStep(w, e, id); }
  }

  /** A photo that was approved stays, approved or hidden, in every run. */
  lemma {:induction false} ShownRowsStay(w: World, events: seq<Event>, id: PhotoId)
    requires Inv(w) && id in w.rows && w.rows[id].state in {Approved, Hidden}
    ensures id in Run(w, events).rows && Run(w, events).rows[id].state in {Approved, Hidden}
    decreases |events|
  {
    if events != [] {
      ShownRowStep(w, events[0], id);
      StepKeepsInv(w, events[0]);
      ShownRowsStay(Apply(w, events[0]), events[1..], id);
    }
  }

  /** A deleted row's id is never used again. */
  lemma {:induction false} GoneForGood(w: World, events: seq<Event>, id: PhotoId)
    requires id < w.nextId && id !in w.rows
    ensures id !in Run(w, events).rows
    decreases |events|
  {
    if events != [] { GoneForGood(Apply(w, events[0]), events[1..], id); }
  }

  /** The transitions a row can make in any number of events. */
  predicate MayReach(from: PhotoState, to: PhotoState) {
    from == to || from == PendingReview || (from in {Approved, Hidden} && to in {Approved, Hidden})
  }

  /** Over any run a row changes only in its state, a pending row can become anything, one
      that was shown is approved or hidden for ever, and a rejected one stays rejected. */
  lemma {:induction false} RowsMoveAlongTheLifecycle(w: World, events: seq<Event>, id: PhotoId)
    requires Inv(w) && id in w.rows && id in Run(w, events).rows
    ensures MayReach(w.rows[id].state, Run(w, events).rows[id].state)
    ensures Run(w, events).rows[id] == w.rows[id].(state := Run(w, events).rows[id].state)
    decreases |events|
  {
    if events != [] {
      var w1 := Apply(w, events[0]);
      StepKeepsInv(w, events[0]);
      if id in w1.rows {
        RowStep(w, events[0], id);
        RowsMoveAlongTheLifecycle(w1, events[1..], id);
      } else {
        IdsOnlyGrow(w, events[0]);
        GoneForGood(w1, events[1..], id);
      }
    }
  }

  lemma IdsOnlyGrow(w: World, e: Event)
    ensures w.nextId <= Apply(w, e).nextId
  {
  }

  // ---------------------------------------------------------------------------
  // Requests do not disturb each other
  // ---------------------------------------------------------------------------

  /** An event of some other request. */
  predicate Foreign(e: Event, me: TaskId) {
    !(e.By? && e.task == me)
  }

  ghost predicate SameTask(w: World, w': World, me: TaskId) {
    (me in w'.tasks <==> me in w.tasks) && (me in w.tasks ==> w'.tasks[me] == w.tasks[me])
  }

  lemma UploadKeepsOthers(w: World, t: TaskId, upload: UploadId, startedAt: int, stage: UploadStage, reply: Reply, me: TaskId)
    requires me != t
    ensures SameTask(w, StepUpload(w, t, upload, startedAt, stage, reply), me)
  {
  }

  lemma SweepKeepsOthers(w: World, t: TaskId, cutoff: int, step: SweepStage, action: Action, me: TaskId)
    requires me != t
    ensures SameTask(w, StepSweep(w, t, cutoff, step, action), me)
  {
  }

  lemma ForeignStepKeepsTask(w: World, e: Event, me: TaskId)
    requires Foreign(e, me)
    ensures SameTask(w, Apply(w, e), me)
  {
    if e.By? && e.task in w.tasks {
      var t, action := e.task, e.action;
      match w.tasks[t] {
        case Uploading(upload, startedAt, stage) =>
          if action.UploadStep? { UploadKeepsOthers(w, t, upload, startedAt, stage, action.reply, me); }
        case Sweeping(cutoff, step) => SweepKeepsOthers(w, t, cutoff, step, action, me);
        case Rejecting(_) =>
        case Reconciling(_, _) =>
      }
    }
  }

  lemma {:induction false} ForeignRunKeepsTask(w: World, events: seq<Event>, me: TaskId)
    requires forall e | e in events :: Foreign(e, me)
    ensures SameTask(w, Run(w, events), me)
    decreases |events|
  {
    if events != [] {
      ForeignStepKeepsTask(w, events[0], me);
      ForeignRunKeepsTask(Apply(w, events[0]), events[1..], me);
    }
  }
}
