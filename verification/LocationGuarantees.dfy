/** What every interleaving of readers, editors and moderators guarantees. */
module LocationGuarantees {
  import opened Wrappers
  import opened Locations
  import Proposals

  lemma {:induction false} RunAppend(w: World, first: seq<Event>, second: seq<Event>)
    ensures Run(w, first + second) == Run(Run(w, first), second)
    decreases |first|
  {
    if first == [] {
      assert first + second == second;
    } else {
      assert (first + second)[1..] == first[1..] + second;
      RunAppend(Apply(w, first[0]), first[1..], second);
    }
  }

  lemma RunSnoc(w: World, events: seq<Event>, e: Event)
    ensures Run(w, events + [e]) == Apply(Run(w, events), e)
  {
    RunAppend(w, events, [e]);
    assert [e][1..] == [];
  }

  lemma ReachableInv(events: seq<Event>)
    ensures Inv(Run(INITIAL, events))
  {
    RunKeepsInv(INITIAL, events);
  }

  // ---------------------------------------------------------------------------
  // Revisions
  // ---------------------------------------------------------------------------

  lemma {:induction false} VersionsCountUp(row: Location, revisions: seq<Revision>, i: nat)
    requires HistoryOf(row, revisions) && i < |revisions|
    ensures revisions[i].after.version == i + 1
  {
    if i > 0 {
      VersionsCountUp(row, revisions, i - 1);
      assert Follows(revisions[i - 1].after, revisions[i]);
    }
  }

  /** The revisions of a location are exactly versions 1 to the current one, and the
      last of them is the location itself. */
  lemma RevisionsHaveNoGap(events: seq<Event>, id: LocationId)
    ensures
      var w := Run(INITIAL, events);
      id in w.locations ==>
        && id in w.history && |w.history[id]| == w.locations[id].version >= 1
        && (forall i | 0 <= i < |w.history[id]| :: w.history[id][i].after.version == i + 1)
        && w.history[id][|w.history[id]| - 1].after == w.locations[id]
  {
    ReachableInv(events);
    var w := Run(INITIAL, events);
    if id in w.locations {
      assert HistoryOf(w.locations[id], w.history[id]);
      forall i | 0 <= i < |w.history[id]| ensures w.history[id][i].after.version == i + 1 {
        VersionsCountUp(w.locations[id], w.history[id], i);
      }
    }
  }

  /** No update is lost: whoever wrote revision n + 1 as an edit had in front of them
      exactly revision n, although row and schedule were read in two queries and
      anything may have run in between. */
  lemma EditsFollowWhatWasSeen(events: seq<Event>, id: LocationId, n: nat)
    ensures
      var w := Run(INITIAL, events);
      id in w.history && n < |w.history[id]| && w.history[id][n].cause.Edited? ==>
        n >= 1 && w.history[id][n].cause.seen == w.history[id][n - 1].after
  {
    ReachableInv(events);
    var w := Run(INITIAL, events);
    if id in w.history && 1 <= n < |w.history[id]| {
      assert HistoryOf(w.locations[id], w.history[id]);
      assert Follows(w.history[id][n - 1].after, w.history[id][n]);
    }
  }

  /** Nor does a request that names a version without having read it overwrite anything but
      that version. */
  lemma UnreadEditsNameTheVersionBefore(events: seq<Event>, id: LocationId, n: nat)
    ensures
      var w := Run(INITIAL, events);
      id in w.history && n < |w.history[id]| && w.history[id][n].cause.EditedUnread? ==>
        n >= 1 && w.history[id][n].cause.expected == w.history[id][n - 1].after.version == n
  {
    ReachableInv(events);
    var w := Run(INITIAL, events);
    if id in w.history && 1 <= n < |w.history[id]| {
      assert HistoryOf(w.locations[id], w.history[id]);
      assert Follows(w.history[id][n - 1].after, w.history[id][n]);
      VersionsCountUp(w.locations[id], w.history[id], n - 1);
    }
  }

  lemma HistoryStep(w: World, e: Event, id: LocationId)
    requires id in w.history
    ensures id in Apply(w, e).history && w.history[id] <= Apply(w, e).history[id]
    ensures id in w.locations ==> id in Apply(w, e).locations
  {
  }

  lemma {:induction false} HistoryOnlyGrows(w: World, events: seq<Event>, id: LocationId)
    requires id in w.history && id in w.locations
    ensures id in Run(w, events).history && w.history[id] <= Run(w, events).history[id]
    ensures id in Run(w, events).locations
    decreases |events|
  {
    if events != [] {
      HistoryStep(w, events[0], id);
      HistoryOnlyGrows(Apply(w, events[0]), events[1..], id);
    }
  }

  /** Versions are monotone, and a version determines the whole location: its details,
      its place and its moderation state. */
  lemma VersionDeterminesLocation(w: World, events: seq<Event>, id: LocationId)
    requires Inv(w) && id in w.locations
    ensures
      var w' := Run(w, events);
      && id in w'.locations
      && w.locations[id].version <= w'.locations[id].version
      && (w.locations[id].version == w'.locations[id].version ==> w.locations[id] == w'.locations[id])
  {
    RunKeepsInv(w, events);
    HistoryOnlyGrows(w, events, id);
    var w' := Run(w, events);
    assert HistoryOf(w.locations[id], w.history[id]);
    assert HistoryOf(w'.locations[id], w'.history[id]);
  }

  /** What an approval writes, in column values: the next version, and of the place or the
      state exactly what was approved. */
  lemma ApprovalWrites(before: Location, application: Proposals.Application)
    ensures
      var after := ApplyTo(Next(before), application);
      && after.version == before.version + 1
      && after.details == before.details && after.schedule == before.schedule
      && (application.ApplyMove? ==>
            && after.place.lat == application.lat && after.place.lon == application.lon
            && after.place.timezone == application.timezone && after.state == before.state)
      && (application.ApplyExistence? ==>
            after.place == before.place && after.state == if application.present then Active else Removed)
  {
  }

  /** Approving one proposal supersedes exactly the other pending ones of its location. */
  lemma ApprovalResolves(proposals: map<ProposalId, Proposal>, id: ProposalId, q: ProposalId)
    requires id in proposals && q in proposals
    ensures
      var after := Resolve(proposals, id);
      && after.Keys == proposals.Keys
      && after[q] == proposals[q].(status := after[q].status)
      && after[q].status ==
           if q == id then Approved
           else if proposals[q].location == proposals[id].location && proposals[q].status == Pending then Superseded
           else proposals[q].status
  {
  }

  /** A new location is active, at version 1, with what was given. */
  lemma CreationWrites(w: World, id: LocationId, details: string, schedule: string, place: Place)
    requires Inv(w)
    ensures
      var w' := Apply(w, Create(id, details, schedule, place));
      if id in w.locations then w' == w
      else
        && w'.locations == w.locations[id := Location(details, schedule, place, Active, 1)]
        && id in w'.history && w'.history[id] == [Revision(Created, Location(details, schedule, place, Active, 1))]
  {
  }

  /** A moderator takes down an active location, and brings back an invalid or removed one;
      every other state is refused, and nothing but state and version changes. */
  lemma ModerationWrites(w: World, id: LocationId)
    requires Inv(w) && id in w.locations
    ensures
      var row := w.locations[id];
      Apply(w, Invalidate(id)).locations ==
        if row.state == Active then w.locations[id := row.(state := Invalid, version := row.version + 1)] else w.locations
    ensures
      var row := w.locations[id];
      Apply(w, Restore(id)).locations ==
        if row.state == Invalid || row.state == Removed
        then w.locations[id := row.(state := Active, version := row.version + 1)] else w.locations
  {
    assert id in w.history;
  }

  /** Declining marks a pending proposal and does nothing else. */
  lemma DeclineWrites(w: World, id: ProposalId)
    ensures
      Apply(w, Decline(id)) ==
        if id in w.proposals && w.proposals[id].status == Pending
        then w.(proposals := w.proposals[id := w.proposals[id].(status := Declined)]) else w
  {
  }

  /** Where an edit's location and version come from. */
  lemma BasisMeans(w: World, basis: Basis)
    requires BasisReady(w, basis)
    ensures basis.OnRequest? ==> TargetOf(w, basis) == basis.location && ExpectedBy(w, basis) == basis.version
    ensures basis.OnForm? ==>
      && basis.client in w.forms
      && TargetOf(w, basis) == w.forms[basis.client].location
      && ExpectedBy(w, basis) == w.forms[basis.client].row.version
  {
  }

  // ---------------------------------------------------------------------------
  // Proposals
  // ---------------------------------------------------------------------------

  lemma ApprovalFindsWhatWasProposed(w: World, id: ProposalId)
    requires Inv(w) && ApprovalAllowed(w, id)
    ensures
      var p := w.proposals[id];
      && w.locations[p.location].state == Active
      && 1 <= p.baseVersion <= |w.history[p.location]|
      && w.locations[p.location] == w.history[p.location][p.baseVersion - 1].after
  {
    var p := w.proposals[id];
    assert ProposalOk(w.history, id, p);
    assert HistoryOf(w.locations[p.location], w.history[p.location]);
  }

  /** A pending proposal that is not stale is about a location that is active, and is
      still exactly what it was when the proposer read it. */
  lemma FreshProposalsAreOnActiveLocations(events: seq<Event>, id: ProposalId)
    ensures
      var w := Run(INITIAL, events);
      ApprovalAllowed(w, id) ==>
        var p := w.proposals[id];
        && w.locations[p.location].state == Active
        && 1 <= p.baseVersion <= |w.history[p.location]|
        && w.locations[p.location] == w.history[p.location][p.baseVersion - 1].after
  {
    ReachableInv(events);
    if ApprovalAllowed(Run(INITIAL, events), id) {
      ApprovalFindsWhatWasProposed(Run(INITIAL, events), id);
    }
  }

  predicate Stale(w: World, id: ProposalId)
    requires id in w.proposals && w.proposals[id].location in w.locations
  {
    w.proposals[id].baseVersion != w.locations[w.proposals[id].location].version
  }

  lemma ProposalStep(w: World, e: Event, id: ProposalId)
    requires id in w.proposals && id < w.nextProposal
    ensures w.nextProposal <= Apply(w, e).nextProposal
    ensures id in Apply(w, e).proposals
    ensures Apply(w, e).proposals[id] == w.proposals[id].(status := Apply(w, e).proposals[id].status)
    ensures w.proposals[id].status != Pending ==> Apply(w, e).proposals[id] == w.proposals[id]
  {
  }

  lemma {:induction false} ProposalsKeepTheirBase(w: World, events: seq<Event>, id: ProposalId)
    requires id in w.proposals && id < w.nextProposal
    ensures id in Run(w, events).proposals
    ensures Run(w, events).proposals[id] == w.proposals[id].(status := Run(w, events).proposals[id].status)
    ensures w.proposals[id].status != Pending ==> Run(w, events).proposals[id] == w.proposals[id]
    decreases |events|
  {
    if events != [] {
      ProposalStep(w, events[0], id);
      ProposalsKeepTheirBase(Apply(w, events[0]), events[1..], id);
    }
  }

  /** A stale proposal never becomes fresh again, so it is never approved. */
  lemma StaleForever(w: World, events: seq<Event>, id: ProposalId)
    requires Inv(w)
    requires id in w.proposals && w.proposals[id].location in w.locations && Stale(w, id)
    ensures
      var w' := Run(w, events);
      id in w'.proposals && w'.proposals[id].location in w'.locations && Stale(w', id) && !ApprovalAllowed(w', id)
  {
    var p := w.proposals[id];
    assert ProposalOk(w.history, id, p);
    assert HistoryOf(w.locations[p.location], w.history[p.location]);
    ProposalsKeepTheirBase(w, events, id);
    VersionDeterminesLocation(w, events, p.location);
  }

  /** A proposal is fresh exactly while its location is, in every respect, what the
      proposer read. */
  lemma FreshIffUnchanged(w: World, id: ProposalId)
    requires Inv(w) && id in w.proposals
    ensures
      var p := w.proposals[id];
      && p.location in w.locations && p.location in w.history && 1 <= p.baseVersion <= |w.history[p.location]|
      && (!Stale(w, id) <==> w.locations[p.location] == w.history[p.location][p.baseVersion - 1].after)
  {
    var p := w.proposals[id];
    assert ProposalOk(w.history, id, p);
    assert HistoryOf(w.locations[p.location], w.history[p.location]);
    VersionsCountUp(w.locations[p.location], w.history[p.location], p.baseVersion - 1);
  }

  /** A proposal about a location that is not active is stale. */
  lemma InactiveMeansStale(w: World, id: ProposalId)
    requires Inv(w) && id in w.proposals
    ensures
      var location := w.proposals[id].location;
      location in w.locations && (w.locations[location].state != Active ==> Stale(w, id))
  {
    FreshIffUnchanged(w, id);
    assert ProposalOk(w.history, id, w.proposals[id]);
  }

  /** A filed proposal is fresh if and only if the location is still the one read, and it
      cannot be when the location was taken down meanwhile. */
  lemma FiledFreshIff(w: World, client: ClientId, kind: Proposals.ProposalKind, proposed: Proposals.Json)
    requires Inv(w) && FormReady(w, client) && w.forms[client].row.state == Active
    ensures
      var form := w.forms[client];
      var w' := Apply(w, CreateProposal(client, kind, proposed));
      && form.location in w.locations
      && w.nextProposal in w'.proposals && w'.proposals[w.nextProposal].location == form.location
      && form.location in w'.locations
      && (!Stale(w', w.nextProposal) <==> w.locations[form.location] == form.row)
      && (w.locations[form.location].state != Active ==> Stale(w', w.nextProposal))
  {
    var form := w.forms[client];
    assert FormOk(w.locations, w.history, form);
    assert HistoryOf(w.locations[form.location], w.history[form.location]);
  }

  /** Once a proposal's location is not active, the proposal is never approved: not even
      after the location is restored. */
  lemma LateProposalsAreNeverApproved(w: World, events: seq<Event>, id: ProposalId)
    requires Inv(w) && id in w.proposals && w.proposals[id].location in w.locations
    requires w.locations[w.proposals[id].location].state != Active
    ensures
      var w' := Run(w, events);
      && id in w'.proposals && w'.proposals[id].location in w'.locations
      && Stale(w', id) && !ApprovalAllowed(w', id)
      && (w.proposals[id].status != Approved ==> w'.proposals[id].status != Approved)
  {
    InactiveMeansStale(w, id);
    StaleForever(w, events, id);
    if w.proposals[id].status != Approved { StaleIsNotApproved(w, events, id); }
  }

  lemma {:induction false} StaleIsNotApproved(w: World, events: seq<Event>, id: ProposalId)
    requires Inv(w) && id in w.proposals && w.proposals[id].location in w.locations && Stale(w, id)
    requires w.proposals[id].status != Approved
    ensures id in Run(w, events).proposals && Run(w, events).proposals[id].status != Approved
    decreases |events|
  {
    if events != [] {
      var e := events[0];
      assert id < w.nextProposal;
      StepKeepsInv(w, e);
      ProposalStep(w, e, id);
      StaleForever(w, [e], id);
      RunSnoc(w, [], e);
      assert [] + [e] == [e];
      StaleStep(w, e, id);
      StaleIsNotApproved(Apply(w, e), events[1..], id);
    }
  }

  lemma StaleStep(w: World, e: Event, id: ProposalId)
    requires Inv(w) && id in w.proposals && w.proposals[id].location in w.locations && Stale(w, id)
    requires w.proposals[id].status != Approved
    ensures id in Apply(w, e).proposals && Apply(w, e).proposals[id].status != Approved
  {
    assert id < w.nextProposal;
    if e.Approve? {
      if ApprovalAllowed(w, e.proposal) { ResolvesOnlyOne(w.proposals, e.proposal, id); }
    } else {
      OnlyApprovalApproves(w, e, id);
    }
  }

  lemma ResolvesOnlyOne(proposals: map<ProposalId, Proposal>, approved: ProposalId, id: ProposalId)
    requires approved in proposals && id in proposals && id != approved && proposals[id].status != Approved
    ensures Resolve(proposals, approved)[id].status != Approved
  {
  }

  lemma OnlyApprovalApproves(w: World, e: Event, id: ProposalId)
    requires id in w.proposals && id < w.nextProposal && w.proposals[id].status != Approved && !e.Approve?
    ensures id in Apply(w, e).proposals && Apply(w, e).proposals[id].status != Approved
  {
  }

  /** Of all proposals made against one version of a location, at most one is ever
      approved. */
  lemma AtMostOneApprovedPerVersion(events: seq<Event>, p: ProposalId, q: ProposalId)
    ensures
      var proposals := Run(INITIAL, events).proposals;
      (&& p in proposals && q in proposals
       && proposals[p].status == Approved && proposals[q].status == Approved
       && proposals[p].location == proposals[q].location
       && proposals[p].baseVersion == proposals[q].baseVersion)
      ==> p == q
  {
    ReachableInv(events);
    var w := Run(INITIAL, events);
    if p in w.proposals && q in w.proposals {
      assert ProposalOk(w.history, p, w.proposals[p]) && ProposalOk(w.history, q, w.proposals[q]);
    }
  }

  /** A location that is not active is taken down in one of two ways. */
  lemma TakenDownStates(w: World, id: LocationId)
    requires Inv(w) && id in w.locations
    ensures w.locations[id].state in {Active, Invalid, Removed}
  {
    var row, revisions := w.locations[id], w.history[id];
    assert HistoryOf(row, revisions);
    if |revisions| > 1 { assert Follows(revisions[|revisions| - 2].after, revisions[|revisions| - 1]); }
  }

  lemma RestoreReactivates(w: World, id: LocationId)
    requires Inv(w) && id in w.locations && w.locations[id].state != Active
    ensures id in Apply(w, Restore(id)).locations && Apply(w, Restore(id)).locations[id].state == Active
  {
    TakenDownStates(w, id);
    assert id in w.history;
  }

  lemma ApprovalReactivatesNothing(w: World, e: Event, id: LocationId)
    requires Inv(w) && id in w.locations && w.locations[id].state != Active && e.Approve?
    ensures id in Apply(w, e).locations && Apply(w, e).locations[id].state != Active
  {
    if ApprovalAllowed(w, e.proposal) { ApprovalFindsWhatWasProposed(w, e.proposal); }
  }

  lemma ReactivationStep(w: World, e: Event, id: LocationId)
    requires Inv(w) && id in w.locations && w.locations[id].state != Active
    ensures id in Apply(w, e).locations
    ensures Apply(w, e).locations[id].state == Active <==> e == Restore(id)
  {
    LocationsStay(w, e, id);
    if e == Restore(id) {
      RestoreReactivates(w, id);
    } else if e.Approve? {
      ApprovalReactivatesNothing(w, e, id);
    } else if Apply(w, e).locations[id].state == Active {
      NothingElseReactivates(w, e, id);
    }
  }

  lemma LocationsStay(w: World, e: Event, id: LocationId)
    requires id in w.locations
    ensures id in Apply(w, e).locations
  {
  }

  predicate ActiveAfter(w: World, events: seq<Event>, id: LocationId, n: nat) {
    n <= |events| && id in Run(w, events[..n]).locations && Run(w, events[..n]).locations[id].state == Active
  }

  lemma RunNext(w: World, events: seq<Event>, i: nat)
    requires i < |events|
    ensures Run(w, events[..i + 1]) == Apply(Run(w, events[..i]), events[i])
  {
    assert events[..i + 1] == events[..i] + [events[i]];
    RunSnoc(w, events[..i], events[i]);
  }

  /** As long as nothing restores it, a taken-down location stays down. */
  lemma {:induction false} StaysDown(w: World, events: seq<Event>, id: LocationId, n: nat)
    requires Inv(w) && id in w.locations && w.locations[id].state != Active && n <= |events|
    requires forall i | 0 <= i < n :: events[i] != Restore(id)
    ensures !ActiveAfter(w, events, id, n)
    ensures id in Run(w, events[..n]).locations
  {
    assert events[..0] == [];
    if n > 0 {
      StaysDown(w, events, id, n - 1);
      RunKeepsInv(w, events[..n - 1]);
      RunNext(w, events, n - 1);
      ReactivationStep(Run(w, events[..n - 1]), events[n - 1], id);
    }
  }

  /** Only a moderator's restore brings a location back, and it always does: a location that
      is not active is active at some moment of a run if and only if the run restores it.
      Approving "it exists" can only confirm a location that is active already. */
  lemma OnlyRestoreReactivates(w: World, events: seq<Event>, id: LocationId)
    requires Inv(w) && id in w.locations && w.locations[id].state != Active
    ensures (exists n: nat :: ActiveAfter(w, events, id, n)) <==> Restore(id) in events
  {
    if n: nat :| ActiveAfter(w, events, id, n) {
      if Restore(id) !in events { StaysDown(w, events, id, n); }
    }
    if Restore(id) in events {
      var i := FirstRestore(events, id);
      StaysDown(w, events, id, i);
      RunKeepsInv(w, events[..i]);
      RunNext(w, events, i);
      ReactivationStep(Run(w, events[..i]), events[i], id);
      assert ActiveAfter(w, events, id, i + 1);
    }
  }

  lemma {:induction false} FirstRestore(events: seq<Event>, id: LocationId) returns (i: nat)
    requires Restore(id) in events
    ensures i < |events| && events[i] == Restore(id) && forall j | 0 <= j < i :: events[j] != Restore(id)
    decreases |events|
  {
    i := 0;
    if events[0] != Restore(id) {
      var rest := FirstRestore(events[1..], id);
      i := rest + 1;
    }
  }

  lemma NothingElseReactivates(w: World, e: Event, id: LocationId)
    requires id in w.locations && w.locations[id].state != Active && !e.Approve?
    requires id in Apply(w, e).locations && Apply(w, e).locations[id].state == Active
    ensures e == Restore(id)
  {
  }

  /** The insert of a proposal does not ask again whether the location is active, so a
      proposal can be filed against one that has just been taken down; by
      `LateProposalsAreNeverApproved` it comes to nothing. */
  function LateProposalRun(): seq<Event> {
    [Create(0, "rack", "always", NullIsland()), ReadRow(0, 0), ReadSchedule(0), Invalidate(0),
     CreateProposal(0, Proposals.ExistenceKind, Proposals.Null)]
  }

  function NullIsland(): Place {
    Place(0.0, 0.0, "UTC")
  }

  lemma RunCons(w: World, e: Event, rest: seq<Event>)
    ensures Run(w, [e] + rest) == Run(Apply(w, e), rest)
  {
    assert ([e] + rest)[1..] == rest;
  }

  lemma ProposalsCanArriveLate()
    ensures
      var w := Run(INITIAL, LateProposalRun());
      && 0 in w.locations && w.locations[0].state == Invalid
      && 0 in w.proposals && w.proposals[0].location == 0 && w.proposals[0].status == Pending
      && Stale(w, 0)
  {
    var events := LateProposalRun();
    var w1 := Apply(INITIAL, events[0]);
    var w2 := Apply(w1, events[1]);
    var w3 := Apply(w2, events[2]);
    var w4 := Apply(w3, events[3]);
    assert events == [events[0]] + ([events[1]] + ([events[2]] + ([events[3]] + ([events[4]] + []))));
    RunCons(INITIAL, events[0], [events[1]] + ([events[2]] + ([events[3]] + ([events[4]] + []))));
    RunCons(w1, events[1], [events[2]] + ([events[3]] + ([events[4]] + [])));
    RunCons(w2, events[2], [events[3]] + ([events[4]] + []));
    RunCons(w3, events[3], [events[4]] + []);
    RunCons(w4, events[4], []);
  }
}
