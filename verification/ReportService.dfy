/**
 The moderation service's report use cases.  Between two port calls the rest of the
 system runs an arbitrary list of events.
 */
module ReportService {
  import opened Wrappers
  import opened Interference
  import opened Reports

  datatype Error =
    | NotAuthorized | SelfResolve | NotFound | TargetNotFound | InvalidState | AlreadyReported
    | RateLimited | InvalidReason | InvalidField | Unavailable | AuditFailed

  datatype Gate = Gate(userAllowed: bool, addressAllowed: bool, reasonAllowed: bool, descriptionFits: bool)

  function Refusal(gate: Gate): Option<Error> {
    if !gate.userAllowed || !gate.addressAllowed then Some(RateLimited)
    else if !gate.reasonAllowed then Some(InvalidReason)
    else if !gate.descriptionFits then Some(InvalidField)
    else None
  }

  class Service {
    var reports: map<ReportId, Report>
    var nextReport: ReportId
    var content: map<Target, ContentState>
    var cleared: set<(UserId, ReportId)>
    ghost var past: seq<Event>

    function View(): World
      reads this
    {
      World(reports, nextReport, content, cleared)
    }

    ghost predicate Valid()
      reads this
    {
      View() == Run(INITIAL, past)
    }

    constructor ()
      ensures Valid() && View() == INITIAL && past == []
    {
      reports, nextReport, content, cleared, past := map[], 0, map[], {}, [];
    }

    ghost method Record(e: Event, before: World)
      requires before == Run(INITIAL, past) && View() == Apply(before, e)
      modifies this`past
      ensures Valid() && past == old(past) + [e]
    {
      RunSnoc(INITIAL, past, e);
      past := past + [e];
    }

    lemma TrailOfReport(id: ReportId)
      requires Valid() && id in reports
      ensures TrailOk(reports[id])
    {
      ReachableInv(past);
      assert id in View().reports;
    }

    method Others(events: seq<Event>)
      requires Valid()
      modifies this
      ensures Valid() && past == old(past) + events && View() == Run(old(View()), events)
    {
      RunAppend(INITIAL, past, events);
      var w := Run(View(), events);
      reports, nextReport, content, cleared := w.reports, w.nextReport, w.content, w.cleared;
      past := past + events;
    }

    // -------------------------------------------------------------------------
    // Ports
    // -------------------------------------------------------------------------

    method CreateRow(user: UserId, target: Target) returns (r: Result<ReportId, Error>)
      requires Valid()
      modifies this
      ensures Valid() && past == old(past) + [Submit(user, target)] && content == old(content)
      ensures r == if Duplicate(old(View()), user, target) then Failure(AlreadyReported) else Success(old(nextReport))
      ensures nextReport == if r.Failure? then old(nextReport) else old(nextReport) + 1
      ensures reports == if r.Failure? then old(reports)
                         else old(reports)[r.value := Report(user, Some(user), target, Open, None, None, [Open])]
    {
      if exists id :: id in reports && reports[id].reporter == Some(user)
                   && reports[id].target == target && Unfinished(reports[id].state) {
        r := Failure(AlreadyReported);
      } else {
        r := Success(nextReport);
        reports := reports[nextReport := Report(user, Some(user), target, Open, None, None, [Open])];
        nextReport := nextReport + 1;
      }
      Record(Submit(user, target), old(View()));
    }

    method ClaimRow(user: UserId, id: ReportId) returns (ok: bool)
      requires Valid()
      modifies this
      ensures Valid() && past == old(past) + [Claim(user, id)]
      ensures content == old(content) && nextReport == old(nextReport)
      ensures ok <==> id in old(reports) && old(reports)[id].state == Open
      ensures reports == if !ok then old(reports)
                         else old(reports)[id := old(reports)[id].(
                                claimedBy := Some(user), state := UnderReview, trail := old(reports)[id].trail + [UnderReview])]
    {
      ok := id in reports && reports[id].state == Open;
      if ok {
        reports := reports[id := reports[id].(
          claimedBy := Some(user), state := UnderReview, trail := reports[id].trail + [UnderReview])];
      }
      Record(Claim(user, id), old(View()));
    }

    /** Read the report and apply the self-resolve guard. */
    method Guard(user: UserId, id: ReportId) returns (r: Result<Target, Error>)
      requires Valid()
      modifies this
      ensures Valid() && past == old(past) + [CheckResolver(user, id)]
      ensures reports == old(reports) && content == old(content) && nextReport == old(nextReport)
      ensures r == if id !in old(reports) then Failure(NotFound)
                   else if old(reports)[id].reporter == Some(user) then Failure(SelfResolve)
                   else Success(old(reports)[id].target)
      ensures cleared == if r.Success? then old(cleared) + {(user, id)} else old(cleared)
    {
      if id !in reports {
        r := Failure(NotFound);
      } else if reports[id].reporter == Some(user) {
        r := Failure(SelfResolve);
      } else {
        r := Success(reports[id].target);
        cleared := cleared + {(user, id)};
      }
      Record(CheckResolver(user, id), old(View()));
    }

    method ResolveRow(user: UserId, id: ReportId, outcome: Outcome) returns (ok: bool)
      requires Valid() && (user, id) in cleared
      modifies this
      ensures Valid() && past == old(past) + [Resolve(user, id, outcome)]
      ensures content == old(content) && nextReport == old(nextReport)
      ensures ok <==> id in old(reports) && old(reports)[id].state == UnderReview
      ensures reports == if !ok then old(reports)
                         else old(reports)[id := old(reports)[id].(
                                resolvedBy := Some(user), state := Terminal(outcome),
                                trail := old(reports)[id].trail + [Terminal(outcome)])]
    {
      ok := id in reports && reports[id].state == UnderReview;
      if ok {
        reports := reports[id := reports[id].(
          resolvedBy := Some(user), state := Terminal(outcome), trail := reports[id].trail + [Terminal(outcome)])];
      }
      Record(Resolve(user, id, outcome), old(View()));
    }

    /** Take content down: a compare-and-set on its visible state. */
    method HideContent(target: Target) returns (ok: bool)
      requires Valid()
      modifies this
      ensures Valid() && past == old(past) + [HideTarget(target)]
      ensures reports == old(reports) && nextReport == old(nextReport)
      ensures ok <==> PubliclyVisible(old(View()), target)
      ensures content == if ok then old(content)[target := if target.kind == Parking then Invalid else Hidden]
                         else old(content)
      ensures !PubliclyVisible(View(), target)
    {
      var (from, to) := Takedown(target.kind);
      ok := target in content && content[target] == from;
      if ok {
        content := content[target := to];
      }
      Record(HideTarget(target), old(View()));
    }

    // -------------------------------------------------------------------------
    // Use cases
    // -------------------------------------------------------------------------

    method SubmitReport(user: UserId, target: Target, gate: Gate, audited: bool, others: nat -> seq<Event>)
      returns (r: Result<ReportId, Error>)
      requires Valid()
      modifies this
      ensures Valid() && old(past) <= past
      ensures Refusal(gate).Some? ==> r == Failure(Refusal(gate).value) && View() == old(View())
      ensures !(gate.userAllowed && gate.addressAllowed) ==> r == Failure(RateLimited) && View() == old(View())
      ensures gate.userAllowed && gate.addressAllowed && !gate.reasonAllowed ==>
        r == Failure(InvalidReason) && View() == old(View())
      ensures gate.userAllowed && gate.addressAllowed && gate.reasonAllowed && !gate.descriptionFits ==>
        r == Failure(InvalidField) && View() == old(View())
      ensures r in {Failure(RateLimited), Failure(InvalidReason), Failure(InvalidField)} <==>
        !(gate.userAllowed && gate.addressAllowed && gate.reasonAllowed && gate.descriptionFits)
      ensures r.Success? ==>
        && r.value in reports
        && reports[r.value].submitter == user && reports[r.value].target == target && [Open] <= reports[r.value].trail
      ensures Quiet(others) && r.Success? ==>
        reports == old(reports)[r.value := Report(user, Some(user), target, Open, None, None, [Open])]
      ensures Quiet(others) && Refusal(gate).None? ==>
        r == if target !in old(content) then Failure(TargetNotFound)
             else if Duplicate(old(View()), user, target) then Failure(AlreadyReported)
             else if !audited then Failure(AuditFailed)
             else Success(old(nextReport))
    {
      var refusal := Refusal(gate);
      if refusal.Some? {
        return Failure(refusal.value);
      }
      Others(others(0));
      if target !in content {
        return Failure(TargetNotFound);
      }
      Others(others(1));
      r := CreateRow(user, target);
      if r.Failure? {
        return;
      }
      ghost var created := View();
      Others(others(2));
      ReportsKeepTheirSubject(created, others(2), r.value);
      if !audited {
        r := Failure(AuditFailed);
      }
    }

    /** Claim an open report. */
    method ClaimReport(user: UserId, moderator: bool, id: ReportId, audited: bool, others: nat -> seq<Event>)
      returns (r: Result<(), Error>)
      requires Valid()
      modifies this
      ensures Valid() && old(past) <= past
      ensures !moderator ==> r == Failure(NotAuthorized) && View() == old(View())
      ensures r == Failure(InvalidState) ==> id in reports ==> reports[id].state != Open
      ensures moderator && r != Failure(InvalidState) ==>
        && r == (if audited then Success(()) else Failure(AuditFailed))
        && id in reports && reports[id].state != Open && reports[id].claimedBy in {Some(user), None}
        && [Open, UnderReview] <= reports[id].trail
      ensures Quiet(others) && moderator && !(id in old(reports) && old(reports)[id].state == Open) ==>
        r == Failure(InvalidState) && reports == old(reports)
      ensures Quiet(others) && moderator && id in old(reports) && old(reports)[id].state == Open ==>
        && r == (if audited then Success(()) else Failure(AuditFailed))
        && reports == old(reports)[id := old(reports)[id].(
             claimedBy := Some(user), state := UnderReview, trail := [Open, UnderReview])]
    {
      if !moderator {
        return Failure(NotAuthorized);
      }
      Others(others(0));
      assert id in reports ==> id < nextReport && TrailOk(reports[id]) by { ReachableInv(past); }
      var ok := ClaimRow(user, id);
      if !ok {
        return Failure(InvalidState);
      }
      assert reports[id].trail == [Open, UnderReview];
      ghost var claimed := View();
      Others(others(1));
      ReportsKeepTheirSubject(claimed, others(1), id);
      r := if audited then Success(()) else Failure(AuditFailed);
    }

    /** Take down what a resolved report is about.  Content that is already down, or
        gone, is fine; `reachable` says whether the database answers. */
    method HideResolvedTarget(target: Target, reachable: bool) returns (r: Result<(), Error>)
      requires Valid()
      modifies this
      ensures Valid() && old(past) <= past && reports == old(reports) && nextReport == old(nextReport)
      ensures r == if reachable then Success(()) else Failure(Unavailable)
      ensures r.Success? ==> !PubliclyVisible(View(), target)
      ensures r.Success? && target in content ==>
        content[target] != (if target.kind in {Parking, Review} then Active else Approved)
      ensures r.Success? && target in old(content) ==>
        && target in content
        && content[target] == match (target.kind, old(content)[target])
                              case (Parking, Active) => Invalid
                              case (Review, Active) => Hidden
                              case (ParkingPhoto, Approved) => Hidden
                              case (ReviewPhoto, Approved) => Hidden
                              case (_, state) => state
      ensures r.Failure? ==> View() == old(View())
      ensures forall other | other != target && other in old(content) :: other in content && content[other] == old(content)[other]
    {
      if !reachable {
        return Failure(Unavailable);
      }
      var _ := HideContent(target);
      r := Success(());
    }

    /** The resolution is on record; only an erasure can blank who made it. */
    ghost predicate Recorded(user: UserId, id: ReportId, outcome: Outcome, target: Target)
      reads this
    {
      && id in reports && id < nextReport && reports[id].state == Terminal(outcome) && reports[id].target == target
      && reports[id].resolvedBy in {Some(user), None}
    }

    /** Take the target down; `hidden` is the moment at which it was down. */
    method HideBetween(target: Target, reachable: bool, events: seq<Event>, ghost user: UserId, ghost id: ReportId,
                       ghost outcome: Outcome)
      returns (r: Result<(), Error>, ghost hidden: nat)
      requires Valid() && Recorded(user, id, outcome, target)
      modifies this
      ensures Valid() && old(past) <= past && Recorded(user, id, outcome, target)
      ensures r == if reachable then Success(()) else Failure(Unavailable)
      ensures r.Success? ==>
        && hidden == |past| && !PubliclyVisible(View(), target)
      ensures events == [] ==> reports == old(reports)
      ensures events == [] && r.Failure? ==> content == old(content)
    {
      ghost var before := View();
      Others(events);
      FinishedKeepTheirResolver(before, events, id);
      ReportsKeepTheirSubject(before, events, id);
      r := HideResolvedTarget(target, reachable);
      hidden := |past|;
    }

    /** The resolution with its guard: the report as it is on record afterwards. */
    method RecordResolution(user: UserId, id: ReportId, outcome: Outcome, others: nat -> seq<Event>)
      returns (r: Result<Target, Error>)
      requires Valid()
      modifies this
      ensures Valid() && old(past) <= past
      ensures r.Success? ==> Recorded(user, id, outcome, r.value)
      ensures r.Failure? ==> r.error in {NotFound, SelfResolve, InvalidState}
      ensures Quiet(others) ==> content == old(content)
      ensures Quiet(others) ==>
        if id !in old(reports) then r == Failure(NotFound) && reports == old(reports)
        else if old(reports)[id].reporter == Some(user) then r == Failure(SelfResolve) && reports == old(reports)
        else if old(reports)[id].state != UnderReview then r == Failure(InvalidState) && reports == old(reports)
        else
          && r == Success(old(reports)[id].target)
          && reports == old(reports)[id := old(reports)[id].(
               resolvedBy := Some(user), state := Terminal(outcome), trail := old(reports)[id].trail + [Terminal(outcome)])]
    {
      Others(others(0));
      r := Guard(user, id);
      if r.Failure? {
        return;
      }
      assert id in reports && (id in View().reports ==> id < nextReport) by { ReachableInv(past); }
      ghost var checked := View();
      Others(others(1));
      ClearedStays(checked, others(1), (user, id));
      ReportsKeepTheirSubject(checked, others(1), id);
      var ok := ResolveRow(user, id, outcome);
      if !ok {
        r := Failure(InvalidState);
      }
    }

    /** Resolve or dismiss a claimed report. */
    method ResolveReport(user: UserId, moderator: bool, id: ReportId, outcome: Outcome,
                         reachable: bool, audited: bool, others: nat -> seq<Event>)
      returns (r: Result<(), Error>, ghost hidden: nat)
      requires Valid()
      modifies this
      ensures Valid() && old(past) <= past
      ensures !moderator ==> r == Failure(NotAuthorized) && View() == old(View())
      ensures moderator && (r.Success? || r.error in {Unavailable, AuditFailed}) ==>
        && id in reports && Recorded(user, id, outcome, reports[id].target)
        && (reports[id].state == Resolved <==> outcome == AsResolved)
        && (reports[id].state == Dismissed <==> outcome == AsDismissed)
        && reports[id].trail == [Open, UnderReview, if outcome == AsResolved then Resolved else Dismissed]
      ensures moderator && outcome == AsResolved && (r.Success? || r.error == AuditFailed) ==>
        && |old(past)| <= hidden <= |past|
        && !PubliclyVisible(Run(INITIAL, past[..hidden]), reports[id].target)
      ensures Quiet(others) && moderator ==>
        if id !in old(reports) then r == Failure(NotFound) && reports == old(reports)
        else if old(reports)[id].reporter == Some(user) then r == Failure(SelfResolve) && reports == old(reports)
        else if old(reports)[id].state != UnderReview then r == Failure(InvalidState) && reports == old(reports)
        else
          && reports == old(reports)[id := old(reports)[id].(
               resolvedBy := Some(user), state := Terminal(outcome), trail := old(reports)[id].trail + [Terminal(outcome)])]
          && r == if outcome == AsResolved && !reachable then Failure(Unavailable)
                  else if audited then Success(()) else Failure(AuditFailed)
      ensures Quiet(others) && r.Success? && outcome == AsResolved ==>
        id in old(reports) && !PubliclyVisible(View(), old(reports)[id].target)
      ensures Quiet(others) && ((r.Failure? && r.error != AuditFailed) || outcome == AsDismissed) ==> content == old(content)
    {
      hidden := 0;
      if !moderator {
        return Failure(NotAuthorized), hidden;
      }
      var target := RecordResolution(user, id, outcome, others);
      if target.Failure? {
        return Failure(target.error), hidden;
      }
      if outcome == AsResolved {
        r, hidden := HideBetween(target.value, reachable, others(2), user, id, outcome);
        if r.Failure? {
          TrailOfReport(id);
          return;
        }
      }
      ghost var finished := View();
      ghost var earlier := past;
      Others(others(3));
      FinishedKeepTheirResolver(finished, others(3), id);
      ReportsKeepTheirSubject(finished, others(3), id);
      assert outcome == AsResolved ==> past[..hidden] == earlier;
      TrailOfReport(id);
      r := if audited then Success(()) else Failure(AuditFailed);
    }
  }

  lemma {:induction false} ClearedStays(w: World, events: seq<Event>, pair: (UserId, ReportId))
    requires pair in w.cleared
    ensures pair in Run(w, events).cleared
    decreases |events|
  {
    if events != [] {
      ClearedStays(Apply(w, events[0]), events[1..], pair);
    }
  }
}
