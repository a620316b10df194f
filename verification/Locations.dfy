/**
 Parking locations under optimistic concurrency.  Contributors read a location (the
 row first, its schedule in a second query), keep what they saw in a form, and later
 edit it or file a proposal; moderators invalidate, restore and approve.  One event is
 one port call, so everybody's calls interleave freely.
 */
module Locations {
  import opened Wrappers
  import Proposals

  type LocationId = nat
  type ProposalId = nat
  type ClientId = nat

  datatype ModerationState = Active | PendingReview | Flagged | Invalid | Removed

  datatype Place = Place(lat: real, lon: real, timezone: string)

  /** `details` stands for the columns an edit writes, `schedule` for the opening-hours
      and security rows it replaces. */
  datatype Location = Location(details: string, schedule: string, place: Place, state: ModerationState, version: nat)

  /** What wrote a revision. */
  datatype Cause =
    | Created
    | Edited(seen: Location)
    | EditedUnread(expected: int)
    | Invalidated
    | Restored
    | Applied(proposal: ProposalId, application: Proposals.Application)

  /** One row of the revision table: the location after the change. */
  datatype Revision = Revision(cause: Cause, after: Location)

  datatype Status = Pending | Approved | Declined | Superseded

  datatype Proposal = Proposal(
    location: LocationId, baseVersion: nat, kind: Proposals.ProposalKind, proposed: Proposals.Json, status: Status)

  /** What a client has read so far; the schedule comes from the second query. */
  datatype Form = Form(location: LocationId, row: Location, schedule: Option<string>)

  /** Where an edit's location and expected version come from: the form its author read, or
      a request that names them without having read anything. */
  datatype Basis = OnForm(client: ClientId) | OnRequest(location: LocationId, version: int)

  datatype World = World(
    locations: map<LocationId, Location>,
    history: map<LocationId, seq<Revision>>,
    proposals: map<ProposalId, Proposal>,
    nextProposal: ProposalId,
    forms: map<ClientId, Form>)

  datatype Event =
    | Create(location: LocationId, details: string, schedule: string, place: Place)
    | ReadRow(client: ClientId, location: LocationId)
    | ReadSchedule(client: ClientId)
    | ApplyEdit(basis: Basis, details: string, schedule: string)
    | CreateProposal(client: ClientId, kind: Proposals.ProposalKind, proposed: Proposals.Json)
    | Invalidate(location: LocationId)
    | Restore(location: LocationId)
    | Approve(proposal: ProposalId, application: Proposals.Application)
    | Decline(proposal: ProposalId)

  const INITIAL := World(map[], map[], map[], 0, map[])

  // ---------------------------------------------------------------------------
  // Steps
  // ---------------------------------------------------------------------------

  function Write(w: World, id: LocationId, after: Location, cause: Cause): World
    requires id in w.history
  {
    w.(locations := w.locations[id := after], history := w.history[id := w.history[id] + [Revision(cause, after)]])
  }

  function Next(row: Location): Location {
    row.(version := row.version + 1)
  }

  /** The row as the client believes it to be. */
  function Seen(form: Form): Location
    requires form.schedule.Some?
  {
    form.row.(schedule := form.schedule.value)
  }

  /** `UPDATE ... WHERE id = ... AND version = expected AND moderation_state = 'ACTIVE'`. */
  predicate EditAllowed(w: World, id: LocationId, expected: int) {
    && id in w.locations && id in w.history
    && w.locations[id].state == Active && w.locations[id].version == expected
  }

  predicate FormReady(w: World, client: ClientId) {
    client in w.forms && w.forms[client].schedule.Some?
  }

  predicate BasisReady(w: World, basis: Basis) {
    basis.OnForm? ==> FormReady(w, basis.client)
  }

  function TargetOf(w: World, basis: Basis): LocationId
    requires BasisReady(w, basis)
  {
    if basis.OnForm? then w.forms[basis.client].location else basis.location
  }

  function ExpectedBy(w: World, basis: Basis): int
    requires BasisReady(w, basis)
  {
    if basis.OnForm? then w.forms[basis.client].row.version else basis.version
  }

  function CauseOf(w: World, basis: Basis): Cause
    requires BasisReady(w, basis)
  {
    if basis.OnForm? then Edited(Seen(w.forms[basis.client])) else EditedUnread(basis.version)
  }

  function StepEdit(w: World, basis: Basis, details: string, schedule: string): World
    requires BasisReady(w, basis)
  {
    var id := TargetOf(w, basis);
    if !EditAllowed(w, id, ExpectedBy(w, basis)) then w
    else Write(w, id, Next(w.locations[id]).(details := details, schedule := schedule), CauseOf(w, basis))
  }

  /** The service checked the state it read; the insert itself checks nothing. */
  function StepCreateProposal(w: World, form: Form, kind: Proposals.ProposalKind, proposed: Proposals.Json): World {
    if form.row.state != Active then w
    else
      w.(proposals := w.proposals[w.nextProposal := Proposal(form.location, form.row.version, kind, proposed, Pending)],
         nextProposal := w.nextProposal + 1)
  }

  function SetState(w: World, id: LocationId, from: set<ModerationState>, to: ModerationState, cause: Cause): World {
    if id in w.locations && id in w.history && w.locations[id].state in from then
      Write(w, id, Next(w.locations[id]).(state := to), cause)
    else w
  }

  function ApplyTo(row: Location, application: Proposals.Application): Location {
    match application
    case ApplyMove(lat, lon, timezone) => row.(place := Place(lat, lon, timezone))
    case ApplyExistence(present) => row.(state := if present then Active else Removed)
  }

  predicate ApprovalAllowed(w: World, id: ProposalId) {
    && id in w.proposals && w.proposals[id].status == Pending
    && w.proposals[id].location in w.locations && w.proposals[id].location in w.history
    && w.proposals[id].baseVersion == w.locations[w.proposals[id].location].version
  }

  /** Approving one proposal supersedes the other pending ones of its location. */
  function Resolve(proposals: map<ProposalId, Proposal>, id: ProposalId): map<ProposalId, Proposal>
    requires id in proposals
  {
    map p | p in proposals ::
      if p == id then proposals[p].(status := Approved)
      else if proposals[p].location == proposals[id].location && proposals[p].status == Pending then
        proposals[p].(status := Superseded)
      else proposals[p]
  }

  function StepApprove(w: World, id: ProposalId, application: Proposals.Application): World {
    if !ApprovalAllowed(w, id) then w
    else
      var location := w.proposals[id].location;
      var after := ApplyTo(Next(w.locations[location]), application);
      Write(w, location, after, Applied(id, application)).(proposals := Resolve(w.proposals, id))
  }

  function Apply(w: World, e: Event): World {
    match e
    case Create(id, details, schedule, place) =>
      if id in w.locations || id in w.history then w
      else
        var row := Location(details, schedule, place, Active, 1);
        w.(locations := w.locations[id := row], history := w.history[id := [Revision(Created, row)]])
    case ReadRow(client, id) =>
      if id in w.locations then w.(forms := w.forms[client := Form(id, w.locations[id], None)]) else w
    case ReadSchedule(client) =>
      if client in w.forms && w.forms[client].location in w.locations then
        var form := w.forms[client];
        w.(forms := w.forms[client := form.(schedule := Some(w.locations[form.location].schedule))])
      else w
    case ApplyEdit(basis, details, schedule) =>
      if BasisReady(w, basis) then StepEdit(w, basis, details, schedule) else w
    case CreateProposal(client, kind, proposed) =>
      if FormReady(w, client) then StepCreateProposal(w, w.forms[client], kind, proposed) else w
    case Invalidate(id) => SetState(w, id, {Active}, Invalid, Invalidated)
    case Restore(id) => SetState(w, id, {Invalid, Removed}, Active, Restored)
    case Approve(id, application) => StepApprove(w, id, application)
    case Decline(id) =>
      if id in w.proposals && w.proposals[id].status == Pending then
        w.(proposals := w.proposals[id := w.proposals[id].(status := Declined)])
      else w
  }

  function Run(w: World, events: seq<Event>): World
    decreases |events|
  {
    if events == [] then w else Run(Apply(w, events[0]), events[1..])
  }

  // ---------------------------------------------------------------------------
  // The invariant
  // ---------------------------------------------------------------------------

  /** How a revision may follow the state of the location before it.  An edit was made
      by somebody who had seen exactly that state. */
  ghost predicate Follows(before: Location, revision: Revision) {
    && revision.after.version == before.version + 1
    && match revision.cause
       case Created => false
       case Edited(seen) =>
         && seen == before && before.state == Active
         && revision.after.place == before.place && revision.after.state == Active
       case EditedUnread(expected) =>
         && expected == before.version && before.state == Active
         && revision.after.place == before.place && revision.after.state == Active
       case Invalidated => before.state == Active && revision.after == Next(before).(state := Invalid)
       case Restored => before.state in {Invalid, Removed} && revision.after == Next(before).(state := Active)
       case Applied(_, application) => before.state == Active && revision.after == ApplyTo(Next(before), application)
  }

  /** The revisions of a location are versions 1, 2, ..., each following the one
      before, and the last one is the row. */
  ghost predicate HistoryOf(row: Location, revisions: seq<Revision>) {
    && |revisions| == row.version >= 1
    && revisions[|revisions| - 1].after == row
    && revisions[0].cause == Created && revisions[0].after.version == 1 && revisions[0].after.state == Active
    && forall i | 1 <= i < |revisions| :: Follows(revisions[i - 1].after, revisions[i])
  }

  ghost predicate HistoriesOk(locations: map<LocationId, Location>, history: map<LocationId, seq<Revision>>) {
    && history.Keys == locations.Keys
    && forall id | id in locations :: HistoryOf(locations[id], history[id])
  }

  /** A form holds the row of some version.  Its schedule was read later, but while the
      location is still at that version it is that version's schedule. */
  ghost predicate FormOk(locations: map<LocationId, Location>, history: map<LocationId, seq<Revision>>, form: Form) {
    && form.location in locations && form.location in history
    && 1 <= form.row.version <= |history[form.location]|
    && history[form.location][form.row.version - 1].after == form.row
    && (form.schedule.Some? && locations[form.location].version == form.row.version ==>
          form.schedule.value == locations[form.location].schedule)
  }

  /** A proposal was made against a version that was active, and an approved one wrote
      the very next version. */
  ghost predicate ProposalOk(history: map<LocationId, seq<Revision>>, id: ProposalId, p: Proposal) {
    && p.location in history
    && 1 <= p.baseVersion <= |history[p.location]|
    && history[p.location][p.baseVersion - 1].after.state == Active
    && (p.status == Approved ==>
          && p.baseVersion < |history[p.location]|
          && history[p.location][p.baseVersion].cause.Applied?
          && history[p.location][p.baseVersion].cause.proposal == id)
  }

  ghost predicate FormsOk(w: World) {
    forall c | c in w.forms :: FormOk(w.locations, w.history, w.forms[c])
  }

  ghost predicate ProposalsOk(w: World) {
    forall p | p in w.proposals :: p < w.nextProposal && ProposalOk(w.history, p, w.proposals[p])
  }

  ghost predicate Inv(w: World) {
    HistoriesOk(w.locations, w.history) && FormsOk(w) && ProposalsOk(w)
  }

  lemma WriteKeepsInv(w: World, id: LocationId, after: Location, cause: Cause)
    requires Inv(w)
    requires id in w.locations
    requires Follows(w.locations[id], Revision(cause, after))
    ensures Inv(Write(w, id, after, cause))
  {
    var w' := Write(w, id, after, cause);
    assert HistoryOf(w.locations[id], w.history[id]);
    assert HistoryOf(after, w'.history[id]);
    assert HistoriesOk(w'.locations, w'.history);
    forall c | c in w'.forms ensures FormOk(w'.locations, w'.history, w'.forms[c]) {
      assert FormOk(w.locations, w.history, w.forms[c]);
    }
    forall p | p in w'.proposals ensures ProposalOk(w'.history, p, w'.proposals[p]) {
      assert ProposalOk(w.history, p, w.proposals[p]);
    }
  }

  lemma ResolveKeepsProposals(w: World, history: map<LocationId, seq<Revision>>, id: ProposalId)
    requires forall p | p in w.proposals :: p < w.nextProposal && ProposalOk(history, p, w.proposals[p])
    requires id in w.proposals && ProposalOk(history, id, w.proposals[id].(status := Approved))
    ensures ProposalsOk(w.(history := history, proposals := Resolve(w.proposals, id)))
  {
    var resolved := Resolve(w.proposals, id);
    forall p | p in resolved ensures ProposalOk(history, p, resolved[p]) {
      assert ProposalOk(history, p, w.proposals[p]);
    }
  }

  lemma ApproveKeepsInv(w: World, id: ProposalId, application: Proposals.Application)
    requires Inv(w)
    requires ApprovalAllowed(w, id)
    ensures Inv(StepApprove(w, id, application))
  {
    var p := w.proposals[id];
    assert ProposalOk(w.history, id, p);
    assert HistoryOf(w.locations[p.location], w.history[p.location]);
    var after := ApplyTo(Next(w.locations[p.location]), application);
    WriteKeepsInv(w, p.location, after, Applied(id, application));
    var w1 := Write(w, p.location, after, Applied(id, application));
    ResolveKeepsProposals(w1, w1.history, id);
  }

  lemma EditKeepsInv(w: World, basis: Basis, details: string, schedule: string)
    requires Inv(w)
    requires BasisReady(w, basis)
    ensures Inv(StepEdit(w, basis, details, schedule))
  {
    var id := TargetOf(w, basis);
    if EditAllowed(w, id, ExpectedBy(w, basis)) {
      var row := w.locations[id];
      assert HistoryOf(row, w.history[id]);
      if basis.OnForm? { assert FormOk(w.locations, w.history, w.forms[basis.client]); }
      WriteKeepsInv(w, id, Next(row).(details := details, schedule := schedule), CauseOf(w, basis));
    }
  }

  lemma ReadKeepsInv(w: World, e: Event)
    requires Inv(w)
    requires e.ReadRow? || e.ReadSchedule?
    ensures Inv(Apply(w, e))
  {
    if e.ReadRow? && e.location in w.locations {
      assert HistoryOf(w.locations[e.location], w.history[e.location]);
    }
  }

  lemma CreateProposalKeepsInv(w: World, form: Form, kind: Proposals.ProposalKind, proposed: Proposals.Json)
    requires Inv(w)
    requires FormOk(w.locations, w.history, form)
    ensures Inv(StepCreateProposal(w, form, kind, proposed))
  {
  }

  lemma CreateKeepsInv(w: World, e: Event)
    requires Inv(w)
    requires e.Create? && e.location !in w.locations
    ensures Inv(Apply(w, e))
  {
    var w' := Apply(w, e);
    assert HistoriesOk(w'.locations, w'.history);
    forall c | c in w'.forms ensures FormOk(w'.locations, w'.history, w'.forms[c]) {
      assert FormOk(w.locations, w.history, w.forms[c]);
    }
    forall p | p in w'.proposals ensures ProposalOk(w'.history, p, w'.proposals[p]) {
      assert ProposalOk(w.history, p, w.proposals[p]);
    }
  }

  lemma ModerationKeepsInv(w: World, id: LocationId, from: set<ModerationState>, to: ModerationState, cause: Cause)
    requires Inv(w)
    requires (from == {Active} && to == Invalid && cause == Invalidated)
          || (from == {Invalid, Removed} && to == Active && cause == Restored)
    ensures Inv(SetState(w, id, from, to, cause))
  {
    if id in w.locations && w.locations[id].state in from {
      WriteKeepsInv(w, id, Next(w.locations[id]).(state := to), cause);
    }
  }

  lemma DeclineKeepsInv(w: World, id: ProposalId)
    requires Inv(w)
    ensures Inv(Apply(w, Decline(id)))
  {
  }

  lemma StepKeepsInv(w: World, e: Event)
    requires Inv(w)
    ensures Inv(Apply(w, e))
  {
    match e {
      case Create(id, _, _, _) => if id !in w.locations { CreateKeepsInv(w, e); }
      case ReadRow(_, _) => ReadKeepsInv(w, e);
      case ReadSchedule(_) => ReadKeepsInv(w, e);
      case CreateProposal(client, kind, proposed) =>
        if FormReady(w, client) { CreateProposalKeepsInv(w, w.forms[client], kind, proposed); }
      case Decline(id) => DeclineKeepsInv(w, id);
      case ApplyEdit(basis, details, schedule) =>
        if BasisReady(w, basis) { EditKeepsInv(w, basis, details, schedule); }
      case Invalidate(id) => ModerationKeepsInv(w, id, {Active}, Invalid, Invalidated);
      case Restore(id) => ModerationKeepsInv(w, id, {Invalid, Removed}, Active, Restored);
      case Approve(id, application) =>
        if ApprovalAllowed(w, id) { ApproveKeepsInv(w, id, application); }
    }
  }

  lemma {:induction false} RunKeepsInv(w: World, events: seq<Event>)
    requires Inv(w)
    ensures Inv(Run(w, events))
    decreases |events|
  {
    if events != [] {
      StepKeepsInv(w, events[0]);
      RunKeepsInv(Apply(w, events[0]), events[1..]);
    }
  }
}
