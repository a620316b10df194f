/**
 Weekly opening hours, read on a location's own wall clock.  A row opens an arc of the
 circular week; the branch logic, the per-day buckets and the database function all
 decide membership in those arcs.
 */
module Hours {

  /** Nanoseconds of a day and of a week. */
  const DAY := 86_400_000_000_000
  const WEEK := 7 * 86_400_000_000_000

  type TimeOfDay = t: int | 0 <= t < DAY witness 0

  type Weekday = d: int | 1 <= d <= 7 witness 1

  datatype TimeRange = TimeRange(opensAt: TimeOfDay, closesAt: TimeOfDay, allDay: bool)

  /** A stored row; its day is a raw number. */
  datatype Row = Row(day: nat, range: TimeRange)

  datatype OpeningHours = Unknown | Weekly(rows: seq<Row>)

  datatype OpenStatus = Open | Closed | UnknownStatus

  // ---------------------------------------------------------------------------
  // Arcs of the week
  // ---------------------------------------------------------------------------

  function Instant(day: int, t: int): int {
    (day - 1) * DAY + t
  }

  function ArcStart(row: Row): int {
    Instant(row.day, if row.range.allDay then 0 else row.range.opensAt)
  }

  /** How long a row stays open: its whole day, or until it closes, which is on the next
      day when the close is not after the opening. */
  function ArcLength(row: Row): int {
    if row.range.allDay then DAY
    else if row.range.closesAt <= row.range.opensAt then row.range.closesAt - row.range.opensAt + DAY
    else row.range.closesAt - row.range.opensAt
  }

  /** The instant lies in the half-open arc that starts at the row's opening. */
  predicate InArc(row: Row, today: Weekday, t: TimeOfDay) {
    1 <= row.day <= 7 && (Instant(today, t) - ArcStart(row)) % WEEK < ArcLength(row)
  }

  ghost predicate OpenInSomeArc(rows: seq<Row>, today: Weekday, t: TimeOfDay) {
    exists i :: 0 <= i < |rows| && InArc(rows[i], today, t)
  }

  // ---------------------------------------------------------------------------
  // The branch logic
  // ---------------------------------------------------------------------------

  function Yesterday(today: Weekday): Weekday {
    if today == 1 then 7 else today - 1
  }

  predicate Overnight(range: TimeRange) {
    !range.allDay && range.closesAt <= range.opensAt
  }

  predicate RowOpen(row: Row, today: Weekday, t: TimeOfDay) {
    || (row.day == today
        && (|| row.range.allDay
            || (Overnight(row.range) && row.range.opensAt <= t)
            || (!Overnight(row.range) && row.range.opensAt <= t < row.range.closesAt)))
    || (row.day == Yesterday(today) && Overnight(row.range) && t < row.range.closesAt)
  }

  lemma WrappedDistance(x: int)
    requires -WEEK < x < WEEK
    ensures x % WEEK == if x < 0 then x + WEEK else x
  {
  }

  /** A day is 24 hours, and a week seven of them. */
  lemma DayAndWeek()
    ensures DAY == 24 * 60 * 60 * 1_000_000_000 && WEEK == 7 * DAY
  {
  }

  /** The branches decide membership in the row's arc, over Sunday night too. */
  lemma RowOpenIffInArc(row: Row, today: Weekday, t: TimeOfDay)
    ensures RowOpen(row, today, t) <==> InArc(row, today, t)
  {
    if 1 <= row.day <= 7 {
      WrappedDistance(Instant(today, t) - ArcStart(row));
    }
  }

  /** Open or closed at a wall-clock time of a day of the week. */
  method StatusAt(hours: OpeningHours, today: Weekday, t: TimeOfDay) returns (status: OpenStatus)
    ensures hours.Unknown? ==> status == UnknownStatus
    ensures hours.Weekly? ==> status == if OpenInSomeArc(hours.rows, today, t) then Open else Closed
  {
    if hours.Unknown? {
      return UnknownStatus;
    }
    var yesterday := if today == 1 then 7 else today - 1;
    var rows := hours.rows;
    for i := 0 to |rows|
      invariant forall j | 0 <= j < i :: !InArc(rows[j], today, t)
    {
      var day, range := rows[i].day, rows[i].range;
      RowOpenIffInArc(rows[i], today, t);
      var overnight := !range.allDay && range.closesAt <= range.opensAt;
      if day == today {
        if range.allDay {
          return Open;
        }
        if overnight && range.opensAt <= t {
          return Open;
        }
        if !overnight && range.opensAt <= t && t < range.closesAt {
          return Open;
        }
      }
      if day == yesterday && overnight && t < range.closesAt {
        return Open;
      }
    }
    status := Closed;
  }

  // ---------------------------------------------------------------------------
  // Rows by day
  // ---------------------------------------------------------------------------

  /** The ranges of one day, in the order of the rows. */
  function RangesOf(rows: seq<Row>, day: int): seq<TimeRange>
    decreases |rows|
  {
    if rows == [] then []
    else RangesOf(rows[..|rows| - 1], day)
         + if rows[|rows| - 1].day == day then [rows[|rows| - 1].range] else []
  }

  method RowsByDay(hours: OpeningHours) returns (days: array<seq<TimeRange>>)
    ensures fresh(days) && days.Length == 7
    ensures forall d | 0 <= d < 7 :: days[d] == if hours.Weekly? then RangesOf(hours.rows, d + 1) else []
  {
    days := new seq<TimeRange>[7](_ => []);
    if hours.Weekly? {
      var rows := hours.rows;
      for i := 0 to |rows|
        invariant forall d | 0 <= d < 7 :: days[d] == RangesOf(rows[..i], d + 1)
      {
        assert rows[..i + 1][..i] == rows[..i];
        if 1 <= rows[i].day <= 7 {
          days[rows[i].day - 1] := days[rows[i].day - 1] + [rows[i].range];
        }
      }
      assert rows[..|rows|] == rows;
    }
  }

  lemma {:induction false} RangesOfIsTheDay(rows: seq<Row>, day: nat, range: TimeRange)
    ensures range in RangesOf(rows, day) <==> Row(day, range) in rows
    decreases |rows|
  {
    if rows != [] {
      RangesOfIsTheDay(rows[..|rows| - 1], day, range);
      assert rows == rows[..|rows| - 1] + [rows[|rows| - 1]];
    }
  }

  /** A bucket is its day's rows in their order, each as often as it is there: `at` lists
      where they stand. */
  lemma {:induction false} RangesInOrder(rows: seq<Row>, day: nat) returns (at: seq<nat>)
    ensures |at| == |RangesOf(rows, day)|
    ensures forall i, j | 0 <= i < j < |at| :: at[i] < at[j]
    ensures forall i | 0 <= i < |at| :: at[i] < |rows| && rows[at[i]] == Row(day, RangesOf(rows, day)[i])
    ensures forall k | 0 <= k < |rows| && rows[k].day == day :: k in at
    decreases |rows|
  {
    at := [];
    if rows != [] {
      var last := |rows| - 1;
      at := RangesInOrder(rows[..last], day);
      if rows[last].day == day { at := at + [last]; }
    }
  }

  /** Evaluating the buckets gives the same answer as evaluating the rows. */
  lemma BucketsAgree(rows: seq<Row>, today: Weekday, t: TimeOfDay)
    ensures OpenInSomeArc(rows, today, t) <==>
              exists day: Weekday, range :: range in RangesOf(rows, day) && InArc(Row(day, range), today, t)
  {
    if OpenInSomeArc(rows, today, t) {
      var i :| 0 <= i < |rows| && InArc(rows[i], today, t);
      var day: Weekday, range := rows[i].day, rows[i].range;
      RangesOfIsTheDay(rows, day, range);
      assert Row(day, range) == rows[i];
      assert range in RangesOf(rows, day) && InArc(Row(day, range), today, t);
    }
    if exists day: Weekday, range :: range in RangesOf(rows, day) && InArc(Row(day, range), today, t) {
      var day: Weekday, range :| range in RangesOf(rows, day) && InArc(Row(day, range), today, t);
      RangesOfIsTheDay(rows, day, range);
      var i :| 0 <= i < |rows| && rows[i] == Row(day, range);
      assert InArc(rows[i], today, t);
    }
  }

  /** The order of the rows does not matter. */
  lemma OrderIsIrrelevant(rows: seq<Row>, rows': seq<Row>, today: Weekday, t: TimeOfDay)
    requires multiset(rows) == multiset(rows')
    ensures OpenInSomeArc(rows, today, t) <==> OpenInSomeArc(rows', today, t)
  {
    SameRowsSameStatus(rows, rows', today, t);
    SameRowsSameStatus(rows', rows, today, t);
  }

  lemma SameRowsSameStatus(rows: seq<Row>, rows': seq<Row>, today: Weekday, t: TimeOfDay)
    requires multiset(rows) == multiset(rows')
    ensures OpenInSomeArc(rows, today, t) ==> OpenInSomeArc(rows', today, t)
  {
    if OpenInSomeArc(rows, today, t) {
      var i :| 0 <= i < |rows| && InArc(rows[i], today, t);
      assert rows[i] in multiset(rows');
      var j :| 0 <= j < |rows'| && rows'[j] == rows[i];
      assert InArc(rows'[j], today, t);
    }
  }

  // ---------------------------------------------------------------------------
  // The database function
  // ---------------------------------------------------------------------------

  /** The condition of `bikesnest_is_open_at`, which migration 0020 creates under an older
      name and 0021 renames, for one row. */
  predicate SqlRowOpen(row: Row, dow: Weekday, prevDow: Weekday, t: TimeOfDay) {
    || (row.day == dow
        && (|| row.range.allDay
            || (row.range.opensAt <= t && t < row.range.closesAt)
            || (row.range.closesAt <= row.range.opensAt && row.range.opensAt <= t)))
    || (row.day == prevDow && !row.range.allDay && row.range.closesAt <= row.range.opensAt && t < row.range.closesAt)
  }

  /** Search results and the details page agree on "open now". */
  lemma SqlAgrees(rows: seq<Row>, today: Weekday, t: TimeOfDay)
    ensures (exists i :: 0 <= i < |rows| && SqlRowOpen(rows[i], today, Yesterday(today), t))
            <==> OpenInSomeArc(rows, today, t)
  {
    forall i | 0 <= i < |rows|
      ensures SqlRowOpen(rows[i], today, Yesterday(today), t) <==> InArc(rows[i], today, t)
    {
      RowOpenIffInArc(rows[i], today, t);
    }
  }
}
