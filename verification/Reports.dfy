/**
 The report lifecycle.  Users report content, moderators claim and resolve reports,
 accounts are erased; one event is one port call, and the read that guards a
 resolution is an event of its own.
 */
module Reports {
  import opened Wrappers

  type UserId = nat
  type ReportId = nat

  datatype TargetKind = Parking | ParkingPhoto | Review | ReviewPhoto

  datatype Target = Target(kind: TargetKind, id: nat)

  /** The moderation states of all four tables. */
  datatype ContentState = Active | PendingReview | Flagged | Invalid | Removed | Approved | Rejected | Hidden

  datatype ReportState = Open | UnderReview | Resolved | Dismissed

  datatype Outcome = AsResolved | AsDismissed

  /** `reporter` is the column; `submitter` remembers who really filed the report and
      `trail` the states it went through. */
  datatype Report = Report(
    submitter: UserId, reporter: Option<UserId>, target: Target, state: ReportState,
    claimedBy: Option<UserId>, resolvedBy: Option<UserId>, trail: seq<ReportState>)

  /** `cleared` holds the resolutions whose guard has been passed. */
  datatype World = World(
    reports: map<ReportId, Report>,
    nextReport: ReportId,
    content: map<Target, ContentState>,
    cleared: set<(UserId, ReportId)>)

  datatype Event =
    | Submit(user: UserId, target: Target)
    | Claim(user: UserId, report: ReportId)
    | CheckResolver(user: UserId, report: ReportId)
    | Resolve(user: UserId, report: ReportId, outcome: Outcome)
    | HideTarget(target: Target)
    | SetContent(target: Target, state: ContentState)
    | DropContent(target: Target)
    | Erase(user: UserId)

  const INITIAL := World(map[], 0, map[], {})

  predicate Unfinished(state: ReportState) {
    state == Open || state == UnderReview
  }

  /** The partial unique index: one unfinished report per reporter and target. */
  predicate Duplicate(w: World, user: UserId, target: Target) {
    exists id :: id in w.reports && w.reports[id].reporter == Some(user)
              && w.reports[id].target == target && Unfinished(w.reports[id].state)
  }

  /** The state content must be in to be taken down, and what it becomes. */
  function Takedown(kind: TargetKind): (ContentState, ContentState) {
    match kind
    case Parking => (Active, Invalid)
    case Review => (Active, Hidden)
    case ParkingPhoto => (Approved, Hidden)
    case ReviewPhoto => (Approved, Hidden)
  }

  predicate PubliclyVisible(w: World, target: Target) {
    target in w.content && w.content[target] == (if target.kind in {Parking, Review} then Active else Approved)
  }

  function Terminal(outcome: Outcome): ReportState {
    if outcome == AsResolved then Resolved else Dismissed
  }

  function Advance(w: World, id: ReportId, report: Report, state: ReportState): World {
    w.(reports := w.reports[id := report.(state := state, trail := report.trail + [state])])
  }

  /** Erasing an account blanks all three attribution columns of every report that names it in any of them. */
  function EraseIn(report: Report, user: UserId): Report {
    if Some(user) in {report.reporter, report.claimedBy, report.resolvedBy} then
      report.(reporter := None, claimedBy := None, resolvedBy := None)
    else report
  }

  function Apply(w: World, e: Event): World {
    match e
    case Submit(user, target) =>
      if Duplicate(w, user, target) then w
      else
        var report := Report(user, Some(user), target, Open, None, None, [Open]);
        w.(reports := w.reports[w.nextReport := report], nextReport := w.nextReport + 1)
    case Claim(user, id) =>
      if id in w.reports && w.reports[id].state == Open then
        Advance(w, id, w.reports[id].(claimedBy := Some(user)), UnderReview)
      else w
    case CheckResolver(user, id) =>
      if id in w.reports && w.reports[id].reporter != Some(user) then w.(cleared := w.cleared + {(user, id)}) else w
    case Resolve(user, id, outcome) =>
      if (user, id) in w.cleared && id in w.reports && w.reports[id].state == UnderReview then
        Advance(w, id, w.reports[id].(resolvedBy := Some(user)), Terminal(outcome))
      else w
    case HideTarget(target) =>
      if target in w.content && w.content[target] == Takedown(target.kind).0 then
        w.(content := w.content[target := Takedown(target.kind).1])
      else w
    case SetContent(target, state) => w.(content := w.content[target := state])
    case DropContent(target) => w.(content := w.content - {target})
    case Erase(user) => w.(reports := map id | id in w.reports :: EraseIn(w.reports[id], user))
  }

  function Run(w: World, events: seq<Event>): World
    decreases |events|
  {
    if events == [] then w else Run(Apply(w, events[0]), events[1..])
  }

  lemma {:induction false} RunAppend(w: World, first: seq<Event>, second: seq<Event>)
    ensures Run(w, first + second) == Run(Run(w, first), second)
    decreases |first|
  {
    if first == [] {
      assert first + second == second;
    } else {
      assert (first + second)[1..] == first[1..] + second;
      RunAppend(Apply(w, first[0]), first[1..], second);
    }
  }

  lemma RunSnoc(w: World, events: seq<Event>, e: Event)
    ensures Run(w, events + [e]) == Apply(Run(w, events), e)
  {
    RunAppend(w, events, [e]);
    assert [e][1..] == [];
  }

  // ---------------------------------------------------------------------------
  // The invariant
  // ---------------------------------------------------------------------------

  predicate TrailOk(report: Report) {
    match report.state
    case Open => report.trail == [Open] && report.resolvedBy.None?
    case UnderReview => report.trail == [Open, UnderReview] && report.resolvedBy.None?
    case _ => report.trail == [Open, UnderReview, report.state]
  }

  /** While the reporter column is set it names the submitter, who then neither passes
      the guard nor resolves. */
  ghost predicate GuardHolds(w: World, id: ReportId, report: Report) {
    report.reporter.Some? ==>
      && report.reporter.value == report.submitter
      && (report.submitter, id) !in w.cleared
      && report.resolvedBy != Some(report.submitter)
  }

  ghost predicate ReportsOk(w: World) {
    && (forall id | id in w.reports :: id < w.nextReport && TrailOk(w.reports[id]) && GuardHolds(w, id, w.reports[id]))
    && (forall pair | pair in w.cleared :: pair.1 < w.nextReport)
  }

  ghost predicate NoDuplicates(w: World) {
    forall id, id' | id in w.reports && id' in w.reports && id != id'
                  && Unfinished(w.reports[id].state) && Unfinished(w.reports[id'].state)
                  && w.reports[id].reporter.Some? && w.reports[id].reporter == w.reports[id'].reporter ::
      w.reports[id].target != w.reports[id'].target
  }

  ghost predicate Inv(w: World) {
    ReportsOk(w) && NoDuplicates(w)
  }

  lemma StepKeepsReportsOk(w: World, e: Event)
    requires ReportsOk(w)
    ensures ReportsOk(Apply(w, e))
  {
    var w' := Apply(w, e);
    forall id | id in w'.reports
      ensures id < w'.nextReport && TrailOk(w'.reports[id]) && GuardHolds(w', id, w'.reports[id])
    {
      if id in w.reports { assert GuardHolds(w, id, w.reports[id]) && TrailOk(w.reports[id]); }
    }
  }

  lemma StepKeepsNoDuplicates(w: World, e: Event)
    requires NoDuplicates(w)
    ensures NoDuplicates(Apply(w, e))
  {
  }

  lemma {:induction false} RunKeepsInv(w: World, events: seq<Event>)
    requires Inv(w)
    ensures Inv(Run(w, events))
    decreases |events|
  {
    if events != [] {
      StepKeepsReportsOk(w, events[0]);
      StepKeepsNoDuplicates(w, events[0]);
      RunKeepsInv(Apply(w, events[0]), events[1..]);
    }
  }

  lemma ReachableInv(events: seq<Event>)
    ensures Inv(Run(INITIAL, events))
  {
    RunKeepsInv(INITIAL, events);
  }

  lemma ReportStep(w: World, e: Event, id: ReportId)
    requires id in w.reports && id < w.nextReport
    ensures
      var w' := Apply(w, e);
      && id in w'.reports && id < w'.nextReport
      && w'.reports[id].submitter == w.reports[id].submitter && w'.reports[id].target == w.reports[id].target
      && w.reports[id].trail <= w'.reports[id].trail
      && (w.reports[id].state != Open ==>
            && w'.reports[id].state != Open
            && w'.reports[id].claimedBy in {w.reports[id].claimedBy, None})
  {
  }

  /** A report keeps its submitter and its target, only adds to its trail, and once it is
      claimed keeps its moderator unless an erasure blanks the name. */
  lemma {:induction false} ReportsKeepTheirSubject(w: World, events: seq<Event>, id: ReportId)
    requires id in w.reports && id < w.nextReport
    ensures
      var w' := Run(w, events);
      && id in w'.reports && id < w'.nextReport
      && w'.reports[id].submitter == w.reports[id].submitter && w'.reports[id].target == w.reports[id].target
      && w.reports[id].trail <= w'.reports[id].trail
      && (w.reports[id].state != Open ==>
            && w'.reports[id].state != Open
            && w'.reports[id].claimedBy in {w.reports[id].claimedBy, None})
    decreases |events|
  {
    if events != [] {
      ReportStep(w, events[0], id);
      ReportsKeepTheirSubject(Apply(w, events[0]), events[1..], id);
    }
  }

  lemma FinishedStepKeepsResolver(w: World, e: Event, id: ReportId)
    requires id in w.reports && id < w.nextReport && !Unfinished(w.reports[id].state)
    ensures id in Apply(w, e).reports && id < Apply(w, e).nextReport
    ensures Apply(w, e).reports[id].state == w.reports[id].state
    ensures Apply(w, e).reports[id].resolvedBy in {w.reports[id].resolvedBy, None}
  {
  }

  lemma {:induction false} FinishedKeepTheirResolver(w: World, events: seq<Event>, id: ReportId)
    requires id in w.reports && id < w.nextReport && !Unfinished(w.reports[id].state)
    ensures id in Run(w, events).reports
    ensures Run(w, events).reports[id].state == w.reports[id].state
    ensures Run(w, events).reports[id].resolvedBy in {w.reports[id].resolvedBy, None}
    decreases |events|
  {
    if events != [] {
      FinishedStepKeepsResolver(w, events[0], id);
      FinishedKeepTheirResolver(Apply(w, events[0]), events[1..], id);
    }
  }

  /** An erasure blanks all three names of exactly the reports that name the user in one. */
  lemma ErasureBlanks(w: World, user: UserId, id: ReportId)
    requires id in w.reports
    ensures
      var report, after := w.reports[id], Apply(w, Erase(user)).reports[id];
      if report.reporter == Some(user) || report.claimedBy == Some(user) || report.resolvedBy == Some(user) then
        after == report.(reporter := None, claimedBy := None, resolvedBy := None)
      else after == report
    ensures Apply(w, Erase(user)).reports.Keys == w.reports.Keys
  {
  }

  // ---------------------------------------------------------------------------
  // Guarantees
  // ---------------------------------------------------------------------------

  /** Every finished report was claimed first: it went through all three states. */
  lemma FinishedReportsWereReviewed(events: seq<Event>, id: ReportId)
    ensures
      var reports := Run(INITIAL, events).reports;
      id in reports && !Unfinished(reports[id].state) ==>
        reports[id].trail == [Open, UnderReview, reports[id].state]
  {
    ReachableInv(events);
    var w := Run(INITIAL, events);
    if id in w.reports { assert TrailOk(w.reports[id]); }
  }

  lemma FinishedStep(w: World, e: Event, id: ReportId)
    requires id in w.reports && id < w.nextReport && !Unfinished(w.reports[id].state)
    ensures id in Apply(w, e).reports && id < Apply(w, e).nextReport
    ensures Apply(w, e).reports[id] == if e.Erase? then EraseIn(w.reports[id], e.user) else w.reports[id]
  {
  }

  /** A finished report never changes again; only the erasure of an account can blank
      who was involved. */
  lemma {:induction false} FinishedReportsAreFinal(w: World, events: seq<Event>, id: ReportId)
    requires id in w.reports && id < w.nextReport && !Unfinished(w.reports[id].state)
    ensures id in Run(w, events).reports
    ensures
      var after := Run(w, events).reports[id];
      && after == w.reports[id].(reporter := after.reporter, claimedBy := after.claimedBy, resolvedBy := after.resolvedBy)
      && ((forall e | e in events :: !e.Erase?) ==> after == w.reports[id])
    decreases |events|
  {
    if events != [] {
      FinishedStep(w, events[0], id);
      FinishedReportsAreFinal(Apply(w, events[0]), events[1..], id);
    }
  }

  /** Nobody resolves their own report as long as the report still names its reporter. */
  lemma ResolverIsNotTheReporter(events: seq<Event>, id: ReportId)
    ensures
      var reports := Run(INITIAL, events).reports;
      id in reports && reports[id].reporter.Some? && reports[id].resolvedBy.Some? ==>
        reports[id].reporter.value == reports[id].submitter != reports[id].resolvedBy.value
  {
    ReachableInv(events);
    var w := Run(INITIAL, events);
    if id in w.reports { assert GuardHolds(w, id, w.reports[id]); }
  }

  lemma NoErasureStep(w: World, e: Event)
    requires forall id | id in w.reports :: w.reports[id].reporter.Some?
    requires !e.Erase?
    ensures forall id | id in Apply(w, e).reports :: Apply(w, e).reports[id].reporter.Some?
  {
  }

  lemma {:induction false} NoErasureKeepsReporters(w: World, events: seq<Event>)
    requires forall id | id in w.reports :: w.reports[id].reporter.Some?
    requires forall e | e in events :: !e.Erase?
    ensures forall id | id in Run(w, events).reports :: Run(w, events).reports[id].reporter.Some?
    decreases |events|
  {
    if events != [] {
      NoErasureStep(w, events[0]);
      NoErasureKeepsReporters(Apply(w, events[0]), events[1..]);
    }
  }

  /** In runs of submit, claim, resolve and dismiss alone, no resolver is the submitter. */
  lemma ResolverIsNotTheSubmitter(events: seq<Event>, id: ReportId)
    requires forall e | e in events :: !e.Erase?
    ensures
      var reports := Run(INITIAL, events).reports;
      id in reports && reports[id].resolvedBy.Some? ==> reports[id].resolvedBy.value != reports[id].submitter
  {
    ResolverIsNotTheReporter(events, id);
    NoErasureKeepsReporters(INITIAL, events);
  }

  lemma RunTwo(w: World, a: Event, b: Event)
    ensures Run(w, [a, b]) == Apply(Apply(w, a), b)
  {
    assert [a, b][1..] == [b] && [b][1..] == [];
    assert Run(w, [a, b]) == Run(Apply(w, a), [b]);
  }

  /** With erasures the guard has a gap, and this is its exact extent: the submitter of
      a report under review gets past it if and only if the reporter column has been
      blanked, which the erasure of the moderator who claimed the report also does. */
  lemma SubmitterResolvesIffBlanked(events: seq<Event>, id: ReportId, outcome: Outcome)
    ensures
      var w := Run(INITIAL, events);
      id in w.reports && w.reports[id].state == UnderReview ==>
        var me := w.reports[id].submitter;
        var after := Run(w, [CheckResolver(me, id), Resolve(me, id, outcome)]);
        id in after.reports && (after.reports[id].resolvedBy == Some(me) <==> w.reports[id].reporter.None?)
  {
    ReachableInv(events);
    var w := Run(INITIAL, events);
    if id in w.reports && w.reports[id].state == UnderReview {
      var me := w.reports[id].submitter;
      assert GuardHolds(w, id, w.reports[id]);
      RunTwo(w, CheckResolver(me, id), Resolve(me, id, outcome));
    }
  }

  /** The gap is reachable: user 1 reports, moderator 2 claims, account 2 is erased. */
  lemma ErasingTheClaimerBlanksTheReporter()
    ensures
      var w := Run(INITIAL, [Submit(1, Target(Review, 0)), Claim(2, 0)] + [Erase(2)]);
      && 0 in w.reports && w.reports[0].state == UnderReview
      && w.reports[0].submitter == 1 && w.reports[0].reporter.None?
  {
    var submit, claim, erase := Submit(1, Target(Review, 0)), Claim(2, 0), Erase(2);
    var w2 := Apply(Apply(INITIAL, submit), claim);
    assert w2.reports[0].claimedBy == Some(2);
    var events := [submit, claim] + [erase];
    assert events[1..] == [claim, erase] && [claim, erase][1..] == [erase] && [erase][1..] == [];
    assert Run(INITIAL, events) == Run(Apply(INITIAL, submit), [claim, erase]);
    assert Run(Apply(INITIAL, submit), [claim, erase]) == Run(w2, [erase]);
    assert Run(w2, [erase]) == Apply(w2, erase);
  }

  /** At most one unfinished report per reporter and target, in every run. */
  lemma OneOpenReportPerTarget(events: seq<Event>, id: ReportId, id': ReportId)
    ensures
      var reports := Run(INITIAL, events).reports;
      (&& id in reports && id' in reports
       && Unfinished(reports[id].state) && Unfinished(reports[id'].state)
       && reports[id].reporter.Some? && reports[id].reporter == reports[id'].reporter
       && reports[id].target == reports[id'].target)
      ==> id == id'
  {
    ReachableInv(events);
  }
}
