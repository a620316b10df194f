/**
 The contribution and moderation services over locations.  Between any two port calls
 of a method the rest of the system runs an arbitrary list of events; every method is
 a run of the transition system.
 */
module LocationService {
  import opened Wrappers
  import opened Interference
  import opened Locations
  import opened LocationGuarantees
  import Proposals

  datatype Error =
    | NotVerified | RateLimited | InvalidField | NotFound | LocationNotActive | VersionConflict
    | NotAuthorized | InvalidState | StaleProposal | InvalidProposalField(field: Proposals.Field) | AuditFailed

  /** The checks a contribution passes before it reads anything. */
  datatype Gate = Gate(verified: bool, allowed: bool, wellFormed: bool)

  function Refusal(gate: Gate): Option<Error> {
    if !gate.verified then Some(NotVerified)
    else if !gate.allowed then Some(RateLimited)
    else if !gate.wellFormed then Some(InvalidField)
    else None
  }

  /** An event that does not touch what these clients have on their screens. */
  predicate Foreign(e: Event, mine: set<ClientId>) {
    !((e.ReadRow? || e.ReadSchedule?) && e.client in mine)
  }

  /** The form an edit is based on. */
  function FormOf(basis: Basis): set<ClientId> {
    if basis.OnForm? then {basis.client} else {}
  }

  ghost predicate AllForeign(others: nat -> seq<Event>, mine: set<ClientId>) {
    forall i: nat, e | e in others(i) :: Foreign(e, mine)
  }

  function MergeOf(p: Proposal, over: Proposals.Override, known: string -> bool)
    : Result<Proposals.Application, Proposals.Field>
  {
    Proposals.Merge(p.kind, Proposals.FromJson(p.kind, p.proposed).change, over, known)
  }

  ghost predicate SameForms(before: map<ClientId, Form>, after: map<ClientId, Form>, mine: set<ClientId>) {
    forall c | c in mine && c in before :: c in after && after[c] == before[c]
  }

  lemma {:induction false} ForeignRunKeepsForms(w: World, events: seq<Event>, mine: set<ClientId>)
    requires forall e | e in events :: Foreign(e, mine)
    ensures SameForms(w.forms, Run(w, events).forms, mine)
    decreases |events|
  {
    if events != [] {
      assert Foreign(events[0], mine);
      ForeignRunKeepsForms(Apply(w, events[0]), events[1..], mine);
    }
  }

  /** The proposal is approved: it wrote the version after its base, which is the
      current one, and no other proposal of the location is pending. */
  ghost predicate ApprovedWith(w: World, id: ProposalId, application: Proposals.Application) {
    && id in w.proposals && w.proposals[id].status == Approved
    && var p := w.proposals[id];
    && p.location in w.locations && p.location in w.history
    && w.locations[p.location].version == p.baseVersion + 1 == |w.history[p.location]|
    && w.history[p.location][p.baseVersion] == Revision(Applied(id, application), w.locations[p.location])
    && forall q | q in w.proposals && w.proposals[q].location == p.location :: w.proposals[q].status != Pending
  }

  lemma ApprovalWritesNextVersion(w: World, id: ProposalId, application: Proposals.Application)
    requires Inv(w) && ApprovalAllowed(w, id)
    ensures ApprovedWith(StepApprove(w, id, application), id, application)
  {
    assert HistoryOf(w.locations[w.proposals[id].location], w.history[w.proposals[id].location]);
  }

  /** The approval is on record: the revision after the base version is the merged change
      applied to what was there. */
  ghost predicate ApprovalStands(w: World, id: ProposalId, application: Proposals.Application) {
    && id in w.proposals && w.proposals[id].status == Approved
    && var p := w.proposals[id];
    && p.location in w.history && 1 <= p.baseVersion < |w.history[p.location]|
    && w.history[p.location][p.baseVersion] ==
         Revision(Applied(id, application), ApplyTo(Next(w.history[p.location][p.baseVersion - 1].after), application))
  }

  /** The change as columns: the next version, and of place and state what was approved. */
  predicate WrittenBy(before: Location, after: Location, application: Proposals.Application) {
    && after.version == before.version + 1 && after.details == before.details && after.schedule == before.schedule
    && match application
       case ApplyMove(lat, lon, timezone) => after.place == Place(lat, lon, timezone) && after.state == before.state
       case ApplyExistence(present) => after.place == before.place && after.state == if present then Active else Removed
  }

  /** The revision after the proposal's base version is this change of the one before. */
  ghost predicate Written(w: World, id: ProposalId, application: Proposals.Application) {
    && id in w.proposals && w.proposals[id].status == Approved
    && var p := w.proposals[id];
    && p.location in w.history && 1 <= p.baseVersion < |w.history[p.location]|
    && w.history[p.location][p.baseVersion].cause == Applied(id, application)
    && WrittenBy(w.history[p.location][p.baseVersion - 1].after, w.history[p.location][p.baseVersion].after, application)
  }

  lemma StandingIsWritten(w: World, id: ProposalId, application: Proposals.Application)
    requires ApprovalStands(w, id, application)
    ensures Written(w, id, application)
  {
    var p := w.proposals[id];
    ApprovalWrites(w.history[p.location][p.baseVersion - 1].after, application);
  }

  lemma ApprovalIsOnRecord(w: World, id: ProposalId, application: Proposals.Application)
    requires Inv(w) && ApprovedWith(w, id, application)
    ensures ApprovalStands(w, id, application)
  {
    var p := w.proposals[id];
    assert ProposalOk(w.history, id, p);
    assert HistoryOf(w.locations[p.location], w.history[p.location]);
    assert Follows(w.history[p.location][p.baseVersion - 1].after, w.history[p.location][p.baseVersion]);
  }

  lemma ApprovalStaysOnRecord(w: World, events: seq<Event>, id: ProposalId, application: Proposals.Application)
    requires Inv(w) && ApprovalStands(w, id, application)
    ensures ApprovalStands(Run(w, events), id, application)
    ensures Run(w, events).proposals[id] == w.proposals[id]
  {
    assert id < w.nextProposal;
    ProposalsKeepTheirBase(w, events, id);
    HistoryOnlyGrows(w, events, w.proposals[id].location);
  }

  /** The proposal is about the location, against a version that was active. */
  ghost predicate Filed(w: World, q: ProposalId, id: LocationId, kind: Proposals.ProposalKind, proposed: Proposals.Json) {
    && q in w.proposals && w.proposals[q].location == id && w.proposals[q].kind == kind
    && w.proposals[q].proposed == proposed && id in w.history
    && 1 <= w.proposals[q].baseVersion <= |w.history[id]|
    && w.history[id][w.proposals[q].baseVersion - 1].after.state == Active
  }

  lemma FiledStays(w: World, events: seq<Event>, q: ProposalId)
    requires Inv(w) && q in w.proposals
    ensures
      var p := w.proposals[q];
      && Filed(Run(w, events), q, p.location, p.kind, p.proposed)
      && Run(w, events).proposals[q].baseVersion == p.baseVersion
  {
    assert ProposalOk(w.history, q, w.proposals[q]);
    assert q < w.nextProposal;
    ProposalsKeepTheirBase(w, events, q);
    HistoryOnlyGrows(w, events, w.proposals[q].location);
  }

  class Service {
    var locations: map<LocationId, Location>
    var history: map<LocationId, seq<Revision>>
    var proposals: map<ProposalId, Proposal>
    var nextProposal: ProposalId
    /** What every client has on its screen. */
    var forms: map<ClientId, Form>
    ghost var past: seq<Event>

    function View(): World
      reads this
    {
      World(locations, history, proposals, nextProposal, forms)
    }

    ghost predicate Valid()
      reads this
    {
      View() == Run(INITIAL, past)
    }

    lemma Reached()
      requires Valid()
      ensures Inv(View())
    {
      ReachableInv(past);
    }

    constructor ()
      ensures Valid() && View() == INITIAL && past == []
    {
      locations, history, proposals, nextProposal, forms := map[], map[], map[], 0, map[];
      past := [];
    }

    ghost method Record(e: Event, before: World)
      requires before == Run(INITIAL, past) && View() == Apply(before, e)
      modifies this`past
      ensures Valid() && past == old(past) + [e]
    {
      RunSnoc(INITIAL, past, e);
      past := past + [e];
    }

    method Others(events: seq<Event>, ghost mine: set<ClientId>)
      requires Valid()
      requires forall e | e in events :: Foreign(e, mine)
      modifies this
      ensures Valid() && past == old(past) + events && View() == Run(old(View()), events)
      ensures events == [] ==> View() == old(View())
      ensures SameForms(old(forms), forms, mine)
    {
      RunAppend(INITIAL, past, events);
      ForeignRunKeepsForms(View(), events, mine);
      var w := Run(View(), events);
      locations, history, proposals := w.locations, w.history, w.proposals;
      nextProposal, forms := w.nextProposal, w.forms;
      past := past + events;
    }

    // -------------------------------------------------------------------------
    // Ports
    // -------------------------------------------------------------------------

    /** The optimistic edit, in one transaction. */
    method ApplyEditTx(basis: Basis, details: string, schedule: string) returns (r: Result<nat, Error>)
      requires Valid() && BasisReady(View(), basis)
      modifies this
      ensures Valid() && past == old(past) + [ApplyEdit(basis, details, schedule)]
      ensures
        var id, expected := old(TargetOf(View(), basis)), old(ExpectedBy(View(), basis));
        if id !in old(locations) then r == Failure(NotFound) && View() == old(View())
        else if old(locations[id]).state != Active then r == Failure(LocationNotActive) && View() == old(View())
        else if old(locations[id]).version != expected then r == Failure(VersionConflict) && View() == old(View())
        else
          var after := Next(old(locations[id])).(details := details, schedule := schedule);
          && r == Success(expected + 1)
          && id in old(history)
          && locations == old(locations)[id := after]
          && history == old(history)[id := old(history[id]) + [Revision(old(CauseOf(View(), basis)), after)]]
          && proposals == old(proposals) && nextProposal == old(nextProposal) && forms == old(forms)
    {
      var id, expected, cause := TargetOf(View(), basis), ExpectedBy(View(), basis), CauseOf(View(), basis);
      assert history.Keys == locations.Keys by { Reached(); }
      if id !in locations {
        r := Failure(NotFound);
      } else if locations[id].state != Active {
        r := Failure(LocationNotActive);
      } else if locations[id].version != expected {
        r := Failure(VersionConflict);
      } else {
        var after := locations[id].(details := details, schedule := schedule, version := expected + 1);
        locations := locations[id := after];
        history := history[id := history[id] + [Revision(cause, after)]];
        r := Success(expected + 1);
      }
      Record(ApplyEdit(basis, details, schedule), old(View()));
    }

    /** The row query of a location read. */
    method ReadRowOf(client: ClientId, id: LocationId) returns (found: bool)
      requires Valid()
      modifies this
      ensures Valid() && past == old(past) + [ReadRow(client, id)]
      ensures found <==> id in old(locations)
      ensures found ==> forms == old(forms)[client := Form(id, old(locations[id]), None)]
      ensures !found ==> forms == old(forms)
      ensures locations == old(locations) && history == old(history)
      ensures proposals == old(proposals) && nextProposal == old(nextProposal)
    {
      found := id in locations;
      if found {
        forms := forms[client := Form(id, locations[id], None)];
      }
      Record(ReadRow(client, id), old(View()));
    }

    /** Its second query. */
    method ReadScheduleOf(client: ClientId)
      requires Valid() && client in forms
      modifies this
      ensures Valid() && past == old(past) + [ReadSchedule(client)]
      ensures client in forms && forms[client].schedule.Some?
      ensures forms == old(forms)[client := old(forms[client]).(schedule := forms[client].schedule)]
      ensures locations == old(locations) && history == old(history)
      ensures proposals == old(proposals) && nextProposal == old(nextProposal)
    {
      var form := forms[client];
      assert form.location in locations by {
        Reached();
        assert FormOk(locations, history, form);
      }
      forms := forms[client := form.(schedule := Some(locations[form.location].schedule))];
      Record(ReadSchedule(client), old(View()));
    }

    method CreateProposalRow(client: ClientId, kind: Proposals.ProposalKind, proposed: Proposals.Json)
      returns (id: ProposalId)
      requires Valid() && FormReady(View(), client) && forms[client].row.state == Active
      modifies this
      ensures Valid() && past == old(past) + [CreateProposal(client, kind, proposed)]
      ensures id == old(nextProposal) && nextProposal == id + 1
      ensures proposals == old(proposals)[id :=
                Proposal(old(forms[client]).location, old(forms[client]).row.version, kind, proposed, Pending)]
      ensures locations == old(locations) && history == old(history) && forms == old(forms)
    {
      id := nextProposal;
      proposals := proposals[id := Proposal(forms[client].location, forms[client].row.version, kind, proposed, Pending)];
      nextProposal := nextProposal + 1;
      Record(CreateProposal(client, kind, proposed), old(View()));
    }

    /** The approval transaction: location and proposal are locked, checked, written. */
    method ApproveTx(id: ProposalId, application: Proposals.Application) returns (r: Result<(), Error>)
      requires Valid()
      modifies this
      ensures Valid() && past == old(past) + [Approve(id, application)]
      ensures
        if id !in old(proposals) then r == Failure(NotFound) && View() == old(View())
        else if old(proposals[id]).status != Pending then r == Failure(InvalidState) && View() == old(View())
        else
          var p := old(proposals[id]);
          && p.location in old(locations) && p.location in old(history)
          && if p.baseVersion != old(locations[p.location]).version then
               r == Failure(StaleProposal) && View() == old(View())
             else
               var after := ApplyTo(Next(old(locations[p.location])), application);
               && r == Success(())
               && old(locations[p.location]).state == Active
               && locations == old(locations)[p.location := after]
               && history == old(history)[p.location :=
                    old(history[p.location]) + [Revision(Applied(id, application), after)]]
               && proposals == Resolve(old(proposals), id)
      ensures r.Success? ==> ApprovedWith(View(), id, application)
      ensures r.Success? ==>
        var location := old(proposals[id]).location;
        && location in old(locations) && location in locations
        && locations[location].version == old(locations[location]).version + 1
        && locations[location].details == old(locations[location]).details
        && locations[location].schedule == old(locations[location]).schedule
        && (application.ApplyExistence? ==>
              && locations[location].state == (if application.present then Active else Removed)
              && locations[location].place == old(locations[location]).place)
        && (application.ApplyMove? ==>
              && locations[location].place == Place(application.lat, application.lon, application.timezone)
              && locations[location].state == old(locations[location]).state)
    {
      if id !in proposals {
        r := Failure(NotFound);
      } else {
        var p := proposals[id];
        assert p.location in locations && p.location in history by {
          Reached();
          assert ProposalOk(history, id, p);
        }
        if p.status != Pending {
          r := Failure(InvalidState);
        } else if p.baseVersion != locations[p.location].version {
          r := Failure(StaleProposal);
        } else {
          Reached();
          ApprovalFindsWhatWasProposed(View(), id);
          ApprovalWritesNextVersion(View(), id, application);
          var after := ApplyTo(Next(locations[p.location]), application);
          locations := locations[p.location := after];
          history := history[p.location := history[p.location] + [Revision(Applied(id, application), after)]];
          proposals := Resolve(proposals, id);
          r := Success(());
        }
      }
      Record(Approve(id, application), old(View()));
    }

    // -------------------------------------------------------------------------
    // Use cases
    // -------------------------------------------------------------------------

    /** Read the location and insist that it is active. */
    method RequireActive(me: ClientId, ghost keep: set<ClientId>, id: LocationId, others: nat -> seq<Event>)
      returns (r: Result<Location, Error>)
      requires Valid() && me !in keep && AllForeign(others, keep + {me})
      modifies this
      ensures Valid() && old(past) <= past && SameForms(old(forms), forms, keep)
      ensures r.Failure? ==> r.error in {NotFound, LocationNotActive}
      ensures r.Success? ==>
        && r.value.state == Active
        && FormReady(View(), me) && forms[me].location == id && forms[me].row == r.value
      ensures Quiet(others) ==>
        && locations == old(locations) && history == old(history)
        && proposals == old(proposals) && nextProposal == old(nextProposal)
        && r == if id !in old(locations) then Failure(NotFound)
                else if old(locations[id]).state != Active then Failure(LocationNotActive)
                else Success(old(locations[id]))
    {
      Others(others(0), keep + {me});
      var found := ReadRowOf(me, id);
      if !found {
        return Failure(NotFound);
      }
      Others(others(1), keep + {me});
      assert me in keep + {me};
      ReadScheduleOf(me);
      if forms[me].row.state != Active {
        return Failure(LocationNotActive);
      }
      r := Success(forms[me].row);
    }

    /** The edit's transaction, with what else goes on before and after it. */
    method RecordEdit(basis: Basis, details: string, schedule: string, before: seq<Event>, after: seq<Event>)
      returns (r: Result<nat, Error>)
      requires Valid() && BasisReady(View(), basis)
      requires forall e | e in before :: Foreign(e, FormOf(basis))
      modifies this
      ensures Valid() && old(past) <= past
      ensures
        var id, expected := old(TargetOf(View(), basis)), old(ExpectedBy(View(), basis));
        r.Success? ==>
          && id in history && 0 <= expected < |history[id]| && r.value == expected + 1
          && history[id][expected].cause == old(CauseOf(View(), basis))
          && history[id][expected].after.details == details && history[id][expected].after.schedule == schedule
      ensures r.Failure? ==> r.error in {NotFound, LocationNotActive, VersionConflict}
      ensures before == after == [] ==>
        var id, expected := old(TargetOf(View(), basis)), old(ExpectedBy(View(), basis));
        if id !in old(locations) then r == Failure(NotFound) && locations == old(locations)
        else if old(locations[id]).state != Active then r == Failure(LocationNotActive) && locations == old(locations)
        else if old(locations[id]).version != expected then r == Failure(VersionConflict) && locations == old(locations)
        else
          && r == Success(expected + 1)
          && locations == old(locations)[id := Next(old(locations[id])).(details := details, schedule := schedule)]
    {
      ghost var id := TargetOf(View(), basis);
      assert basis.OnForm? ==> basis.client in FormOf(basis);
      Others(before, FormOf(basis));
      assert id in locations ==> HistoryOf(locations[id], history[id]) by { Reached(); }
      r := ApplyEditTx(basis, details, schedule);
      if r.Failure? {
        return;
      }
      ghost var edited := View();
      Others(after, {});
      HistoryOnlyGrows(edited, after, id);
    }

    /** Edit a location at an expected version; `probe` is the read the service makes itself.
        When the edit is applied, the new revision is the one after that version and says
        what its author had seen, if anything. */
    method ApplyParkingEdit(basis: Basis, probe: ClientId, details: string, schedule: string, gate: Gate,
                            audited: bool, others: nat -> seq<Event>)
      returns (r: Result<nat, Error>)
      requires Valid() && BasisReady(View(), basis) && probe !in FormOf(basis)
      requires AllForeign(others, FormOf(basis) + {probe})
      modifies this
      ensures Valid() && old(past) <= past
      ensures Refusal(gate).Some? ==> r == Failure(Refusal(gate).value) && View() == old(View())
      ensures !gate.verified ==> r == Failure(NotVerified) && View() == old(View())
      ensures gate.verified && !gate.allowed ==> r == Failure(RateLimited) && View() == old(View())
      ensures gate.verified && gate.allowed && !gate.wellFormed ==> r == Failure(InvalidField) && View() == old(View())
      ensures r in {Failure(NotVerified), Failure(RateLimited), Failure(InvalidField)} <==>
        !(gate.verified && gate.allowed && gate.wellFormed)
      ensures
        var id, expected := old(TargetOf(View(), basis)), old(ExpectedBy(View(), basis));
        r.Success? || r == Failure(AuditFailed) ==>
          && id in history && 0 <= expected < |history[id]|
          && history[id][expected].cause == old(CauseOf(View(), basis))
          && history[id][expected].after.details == details && history[id][expected].after.schedule == schedule
          && r == if audited then Success(expected + 1) else Failure(AuditFailed)
      ensures Quiet(others) && Refusal(gate).None? ==>
        var id, expected := old(TargetOf(View(), basis)), old(ExpectedBy(View(), basis));
        if id !in old(locations) then r == Failure(NotFound) && locations == old(locations)
        else if old(locations[id]).state != Active then r == Failure(LocationNotActive) && locations == old(locations)
        else if old(locations[id]).version != expected then r == Failure(VersionConflict) && locations == old(locations)
        else
          && r == (if audited then Success(expected + 1) else Failure(AuditFailed))
          && locations == old(locations)[id := Location(details, schedule, old(locations[id]).place, Active, expected + 1)]
    {
      var refusal := Refusal(gate);
      if refusal.Some? {
        return Failure(refusal.value);
      }
      var id := TargetOf(View(), basis);
      var active := RequireActive(probe, FormOf(basis), id, others);
      if active.Failure? {
        return Failure(active.error);
      }
      assert basis.OnForm? ==> basis.client in FormOf(basis);
      forall e | e in others(2) ensures Foreign(e, FormOf(basis)) {
        assert Foreign(e, FormOf(basis) + {probe});
      }
      r := RecordEdit(basis, details, schedule, others(2), others(3));
      if r.Success? && !audited {
        r := Failure(AuditFailed);
      }
    }

    /** File a proposal against the version just read. */
    method ProposeLocationChange(me: ClientId, id: LocationId, kind: Proposals.ProposalKind, proposed: Proposals.Json,
                                 gate: Gate, audited: bool, others: nat -> seq<Event>)
      returns (r: Result<ProposalId, Error>)
      requires Valid() && AllForeign(others, {me})
      modifies this
      ensures Valid() && old(past) <= past
      ensures Refusal(gate).Some? ==> r == Failure(Refusal(gate).value) && View() == old(View())
      ensures !gate.verified ==> r == Failure(NotVerified) && View() == old(View())
      ensures gate.verified && !gate.allowed ==> r == Failure(RateLimited) && View() == old(View())
      ensures gate.verified && gate.allowed && !gate.wellFormed ==> r == Failure(InvalidField) && View() == old(View())
      ensures r in {Failure(NotVerified), Failure(RateLimited), Failure(InvalidField)} <==>
        !(gate.verified && gate.allowed && gate.wellFormed)
      ensures r.Success? ==> audited && Filed(View(), r.value, id, kind, proposed)
      ensures Quiet(others) && Refusal(gate).None? ==>
        && locations == old(locations) && history == old(history)
        && if id !in old(locations) then r == Failure(NotFound) && proposals == old(proposals)
           else if old(locations[id]).state != Active then r == Failure(LocationNotActive) && proposals == old(proposals)
           else
             && r == (if audited then Success(old(nextProposal)) else Failure(AuditFailed))
             && proposals == old(proposals)[old(nextProposal) :=
                  Proposal(id, old(locations[id]).version, kind, proposed, Pending)]
    {
      var refusal := Refusal(gate);
      if refusal.Some? {
        return Failure(refusal.value);
      }
      assert {} + {me} == {me};
      var active := RequireActive(me, {}, id, others);
      if active.Failure? {
        return Failure(active.error);
      }
      Others(others(2), {me});
      assert me in {me};
      var proposal := CreateProposalRow(me, kind, proposed);
      ghost var filed := View();
      assert Inv(filed) by { Reached(); }
      Others(others(3), {});
      FiledStays(filed, others(3), proposal);
      r := if audited then Success(proposal) else Failure(AuditFailed);
    }

    /** The approval's transaction, with what else goes on after it. */
    method RecordApproval(id: ProposalId, application: Proposals.Application, events: seq<Event>)
      returns (r: Result<(), Error>)
      requires Valid() && id in proposals
      modifies this
      ensures Valid() && old(past) <= past
      ensures r.Success? ==>
        && id in proposals
        && proposals[id].kind == old(proposals[id]).kind && proposals[id].proposed == old(proposals[id]).proposed
        && ApprovalStands(View(), id, application) && Written(View(), id, application)
        && (events == [] ==> ApprovedWith(View(), id, application))
      ensures r.Failure? ==> r.error in {InvalidState, StaleProposal, NotFound} && View() == old(View())
      ensures r == if old(proposals[id]).status != Pending then Failure(InvalidState)
                   else if !ApprovalAllowed(old(View()), id) then Failure(StaleProposal)
                   else Success(())
    {
      r := ApproveTx(id, application);
      if r.Failure? {
        return;
      }
      ghost var approved := View();
      assert Inv(approved) by { Reached(); }
      ApprovalIsOnRecord(approved, id, application);
      Others(events, {});
      ApprovalStaysOnRecord(approved, events, id, application);
      StandingIsWritten(View(), id, application);
    }

    /** Approve a proposal with the moderator's own values merged in. */
    method ApproveProposal(moderator: bool, id: ProposalId, over: Proposals.Override, known: string -> bool,
                           audited: bool, others: nat -> seq<Event>)
      returns (r: Result<(), Error>)
      requires Valid()
      modifies this
      ensures Valid() && old(past) <= past
      ensures !moderator ==> r == Failure(NotAuthorized) && View() == old(View())
      ensures r.Success? || r == Failure(AuditFailed) ==>
        && id in proposals
        && var change := Proposals.FromJson(proposals[id].kind, proposals[id].proposed).change;
        && var merged := Proposals.Merge(proposals[id].kind, change, over, known);
        && merged.Success? && ApprovalStands(View(), id, merged.value) && Written(View(), id, merged.value)
        && (r.Success? <==> audited)
        && (Quiet(others) ==> ApprovedWith(View(), id, merged.value))
      ensures Quiet(others) && moderator ==>
        if id !in old(proposals) then r == Failure(NotFound) && View() == old(View())
        else
          var merged := MergeOf(old(proposals[id]), over, known);
          if merged.Failure? then r == Failure(InvalidProposalField(merged.error)) && View() == old(View())
          else if old(proposals[id]).status != Pending then r == Failure(InvalidState) && View() == old(View())
          else if !ApprovalAllowed(old(View()), id) then r == Failure(StaleProposal) && View() == old(View())
          else r == if audited then Success(()) else Failure(AuditFailed)
    {
      if !moderator {
        return Failure(NotAuthorized);
      }
      Others(others(0), {});
      if id !in proposals {
        return Failure(NotFound);
      }
      var p := proposals[id];
      var merged := MergeOf(p, over, known);
      if merged.Failure? {
        return Failure(InvalidProposalField(merged.error));
      }
      ghost var before := View();
      assert ProposalsOk(before) by { Reached(); }
      Others(others(1), {});
      assert id in proposals && proposals[id].kind == p.kind && proposals[id].proposed == p.proposed by {
        ProposalsKeepTheirBase(before, others(1), id);
      }
      r := RecordApproval(id, merged.value, others(2));
      if r.Success? && !audited {
        r := Failure(AuditFailed);
      }
    }
  }
}
