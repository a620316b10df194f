/**
 How sure the map is of a parking place: community signals and the age of the latest
 confirmation. Times are in nanoseconds.
 */
module Confidence {
  import opened Wrappers

  const NANOS_PER_DAY := 86_400_000_000_000

  datatype Thresholds = Thresholds(freshDays: int, recentDays: int, agingDays: int, staleDays: int)

  datatype Freshness = Fresh | RecentlyVerified | Aging | Stale | VeryStale | Never {
    function Rank(): int {
      if Fresh? then 0 else if RecentlyVerified? then 1 else if Aging? then 2 else if Stale? then 3
      else if VeryStale? then 4 else 5
    }
  }

  /** Whole days of a duration, rounded towards zero. */
  function NumDays(nanos: int): int {
    if nanos >= 0 then nanos / NANOS_PER_DAY else -(-nanos / NANOS_PER_DAY)
  }

  function Max(a: int, b: int): int { if a < b then b else a }

  function Age(verifiedAt: int, now: int): int {
    Max(NumDays(now - verifiedAt), 0)
  }

  function Categorize(verifiedAt: Option<int>, now: int, t: Thresholds): Freshness {
    if verifiedAt.None? then Never
    else
      var days := Age(verifiedAt.value, now);
      if days < t.freshDays then Fresh
      else if days < t.recentDays then RecentlyVerified
      else if days < t.agingDays then Aging
      else if days < t.staleDays then Freshness.Stale
      else VeryStale
  }

  datatype Existence = StillExists | NoLongerExists | InfoChanged

  datatype Signal = Signal(user: int, existence: Existence, at: int)

  datatype Level = Reported | RecentlyConfirmed | Verified | Outdated | Conflicting

  /** When the place was last confirmed. */
  function Latest(signals: seq<Signal>): (at: Option<int>)
    ensures at.None? <==> forall s | s in signals :: !s.existence.StillExists?
    ensures at.Some? ==> forall s | s in signals && s.existence.StillExists? :: s.at <= at.value
    ensures at.Some? ==> exists s | s in signals :: s.existence.StillExists? && s.at == at.value
  {
    if signals == [] then None
    else
      var first, rest := signals[0], Latest(signals[1..]);
      assert signals == [first] + signals[1..];
      if !first.existence.StillExists? then rest
      else if rest.Some? && first.at < rest.value then rest
      else Some(first.at)
  }

  /** Someone reports the place gone. */
  predicate ReportedGone(signals: seq<Signal>) {
    exists s | s in signals :: s.existence.NoLongerExists?
  }

  function Confidence(signals: seq<Signal>, now: int, t: Thresholds): Level {
    if signals == [] then Reported
    else if ReportedGone(signals) then Conflicting
    else
      var latest := Latest(signals);
      if latest.None? then Reported
      else
        match Categorize(latest, now, t)
        case Fresh => RecentlyConfirmed
        case RecentlyVerified => Verified
        case Aging => Verified
        case Stale => Outdated
        case VeryStale => Outdated
        case Never => Reported
  }

  lemma SameMembers(signals: seq<Signal>, permuted: seq<Signal>, s: Signal)
    requires multiset(signals) == multiset(permuted)
    ensures s in signals <==> s in permuted
  {
    assert s in multiset(signals) <==> s in multiset(permuted);
  }

  lemma LatestGrows(signals: seq<Signal>, more: seq<Signal>)
    requires forall s | s in signals :: s in more
    ensures Latest(signals).Some? ==> Latest(more).Some? && Latest(signals).value <= Latest(more).value
  {
    if Latest(signals).Some? {
      var s :| s in signals && s.existence.StillExists? && s.at == Latest(signals).value;
      assert s in more;
    }
  }

  /** Only which signals there are matters, not their order or how often one is listed. */
  lemma MembersDecide(signals: seq<Signal>, permuted: seq<Signal>, now: int, t: Thresholds)
    requires forall s :: s in signals <==> s in permuted
    ensures Confidence(signals, now, t) == Confidence(permuted, now, t)
  {
    assert signals != [] ==> signals[0] in permuted;
    assert permuted != [] ==> permuted[0] in signals;
    LatestGrows(signals, permuted);
    LatestGrows(permuted, signals);
    assert ReportedGone(signals) <==> ReportedGone(permuted);
  }

  /** The order of the signals does not matter. */
  lemma OrderIsIrrelevant(signals: seq<Signal>, permuted: seq<Signal>, now: int, t: Thresholds)
    requires multiset(signals) == multiset(permuted)
    ensures Confidence(signals, now, t) == Confidence(permuted, now, t)
  {
    forall s ensures s in signals <==> s in permuted {
      SameMembers(signals, permuted, s);
    }
    MembersDecide(signals, permuted, now, t);
  }

  lemma AgeGrows(verifiedAt: int, earlier: int, later: int)
    requires earlier <= later
    ensures 0 <= Age(verifiedAt, earlier) <= Age(verifiedAt, later)
  {
    var a, b := earlier - verifiedAt, later - verifiedAt;
    if a >= 0 {
      DivGrows(a, b);
    } else {
      DivGrows(0, -a);
    }
  }

  lemma DivGrows(a: int, b: int)
    requires 0 <= a <= b
    ensures 0 <= a / NANOS_PER_DAY <= b / NANOS_PER_DAY
  {
  }

  /** The age in whole days of 24 hours; a signal from the future is as old as one from now. */
  lemma AgeIsWholeDays(verifiedAt: int, now: int)
    ensures now < verifiedAt ==> Age(verifiedAt, now) == 0
    ensures now >= verifiedAt ==>
      var day := 24 * 60 * 60 * 1_000_000_000;
      Age(verifiedAt, now) * day <= now - verifiedAt < (Age(verifiedAt, now) + 1) * day
  {
    if now < verifiedAt { DivGrows(0, verifiedAt - now); }
  }

  /** The first threshold that the age is below names the category. */
  lemma CategoryMeans(verifiedAt: int, now: int, t: Thresholds)
    ensures
      var days, category := Age(verifiedAt, now), Categorize(Some(verifiedAt), now, t);
      && (category == Fresh <==> days < t.freshDays)
      && (category == RecentlyVerified <==> t.freshDays <= days < t.recentDays)
      && (category == Aging <==> t.freshDays <= days && t.recentDays <= days < t.agingDays)
      && (category == Freshness.Stale <==> t.freshDays <= days && t.recentDays <= days && t.agingDays <= days < t.staleDays)
      && (category == VeryStale <==>
            t.freshDays <= days && t.recentDays <= days && t.agingDays <= days && t.staleDays <= days)
    ensures Categorize(None, now, t) == Never
  {
  }

  /** Freshness only wears off, for any thresholds, in order or not. */
  lemma FreshnessWearsOff(verifiedAt: Option<int>, earlier: int, later: int, t: Thresholds)
    requires earlier <= later
    ensures Categorize(verifiedAt, earlier, t).Rank() <= Categorize(verifiedAt, later, t).Rank()
  {
    if verifiedAt.Some? { AgeGrows(verifiedAt.value, earlier, later); }
  }

  /** `after` is what `before` can have become by waiting. */
  predicate WearsTo(before: Level, after: Level) {
    || before == after
    || (before.RecentlyConfirmed? && (after.Verified? || after.Outdated?))
    || (before.Verified? && after.Outdated?)
  }

  /** With the signals as they are, time moves the level only down its scale. */
  lemma WaitingOnlyWears(signals: seq<Signal>, earlier: int, later: int, t: Thresholds)
    requires earlier <= later
    ensures WearsTo(Confidence(signals, earlier, t), Confidence(signals, later, t))
  {
    if signals != [] { FreshnessWearsOff(Latest(signals), earlier, later, t); }
  }

  /** What each level says about the signals and the clock. */
  lemma LevelMeans(signals: seq<Signal>, now: int, t: Thresholds)
    ensures var level := Confidence(signals, now, t);
            var latest := Latest(signals);
            var gone := ReportedGone(signals);
            var outdatedFrom := Max(t.freshDays, Max(t.recentDays, t.agingDays));
            && (level.Conflicting? <==> gone)
            && (level.Reported? <==> !gone && latest.None?)
            && (level.RecentlyConfirmed? <==> !gone && latest.Some? && Age(latest.value, now) < t.freshDays)
            && (level.Verified? <==> !gone && latest.Some? && t.freshDays <= Age(latest.value, now) < outdatedFrom)
            && (level.Outdated? <==> !gone && latest.Some? && Age(latest.value, now) >= outdatedFrom)
  {
  }

  /** One more confirmation never makes a confirmed place look older. */
  lemma ConfirmingHelps(signals: seq<Signal>, more: Signal, now: int, t: Thresholds)
    requires more.existence.StillExists? && !Confidence(signals, now, t).Reported?
    ensures WearsTo(Confidence([more] + signals, now, t), Confidence(signals, now, t))
  {
    var all := [more] + signals;
    assert all[1..] == signals;
    assert forall s :: s in all <==> s == more || s in signals;
    assert ReportedGone(all) <==> ReportedGone(signals);
    if Latest(signals).Some? {
      AgeShrinks(Latest(signals).value, Latest(all).value, now);
    }
  }

  lemma AgeShrinks(older: int, newer: int, now: int)
    requires older <= newer
    ensures 0 <= Age(newer, now) <= Age(older, now)
  {
    AgeGrows(older, now - (newer - older), now);
  }
}
