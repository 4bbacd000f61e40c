/**
 * `_calc_attendance`: the attendance tallies of one employee over a period,
 * read from `attendance_records`.
 *
 * Check-in and check-out times are instants counted in microseconds on one
 * clock, so their difference is the `timedelta` the source subtracts.
 */
module Attendance {
  import opened Wrappers
  import opened Period

  // ---------------------------------------------------------------------------
  // Records and the query
  // ---------------------------------------------------------------------------

  datatype Date = Date(year: int, month: int, day: int)

  function Midnight(d: Date): DateTime {
    DateTime(d.year, d.month, d.day, 0, 0, 0, 0)
  }

  /** `CAST(t AS timestamp)::date`. */
  function DateOf(t: DateTime): Date {
    Date(t.year, t.month, t.day)
  }

  predicate DateBefore(a: Date, b: Date) {
    Before(Midnight(a), Midnight(b))
  }

  predicate IsMidnight(t: DateTime) {
    t.hour == 0 && t.minute == 0 && t.second == 0 && t.microsecond == 0
  }

  /** One row of `attendance_records` as stored; `None` is SQL NULL. */
  datatype StoredRecord = StoredRecord(
    userId: int,
    workDate: Date,
    checkInAt: Option<int>,
    checkOutAt: Option<int>,
    shiftType: Option<string>,
    isHolidayWork: Option<bool>,
    status: Option<string>,
    deleted: bool)

  /** One row the query returns, after its `COALESCE`s. */
  datatype Record = Record(
    workDate: Date,
    checkInAt: Option<int>,
    checkOutAt: Option<int>,
    shiftType: string,
    isHolidayWork: bool,
    status: string)

  function Fetch(s: StoredRecord): Record {
    Record(s.workDate, s.checkInAt, s.checkOutAt, s.shiftType.GetOr(""), s.isHolidayWork.GetOr(false), s.status.GetOr(""))
  }

  /** The query's `WHERE`: this user, not deleted, work date in [start::date, end::date). */
  predicate Queried(s: StoredRecord, uid: int, start: DateTime, end: DateTime) {
    s.userId == uid && !s.deleted &&
    !DateBefore(s.workDate, DateOf(start)) && DateBefore(s.workDate, DateOf(end))
  }

  function SelectRecords(records: seq<StoredRecord>, uid: int, start: DateTime, end: DateTime): (rows: seq<Record>)
    ensures |rows| <= |records|
    ensures forall r :: r in rows ==> exists s :: s in records && Queried(s, uid, start, end) && r == Fetch(s)
    ensures forall s :: s in records && Queried(s, uid, start, end) ==> Fetch(s) in rows
  {
    if records == [] then []
    else
      var rest := SelectRecords(records[1..], uid, start, end);
      assert forall s :: s in records <==> s == records[0] || s in records[1..];
      if Queried(records[0], uid, start, end) then [Fetch(records[0])] + rest else rest
  }

  /**
   * For a period that starts and ends at midnight, as every period of the
   * report does, a record is in it exactly when its work day begins in it.
   */
  lemma QueriedInPeriod(s: StoredRecord, uid: int, start: DateTime, end: DateTime)
    requires IsMidnight(start) && IsMidnight(end)
    ensures Queried(s, uid, start, end) <==>
      s.userId == uid && !s.deleted && InRange(Midnight(s.workDate), start, end)
  {
  }

  /** With a month's period, a record is counted exactly when its work date lies in that month. */
  lemma QueriedInMonth(s: StoredRecord, uid: int, date: string)
    requires PeriodRange("month", date).Ok?
    requires Valid(Midnight(s.workDate))
    ensures var r := PeriodRange("month", date).value;
      Queried(s, uid, r.start, r.end) <==>
        s.userId == uid && !s.deleted &&
        s.workDate.year == r.start.year && s.workDate.month == r.start.month
  {
    var r := PeriodRange("month", date).value;
    MonthRangeCovers(date, Midnight(s.workDate));
    MonthIsMidnight(date);
    QueriedInPeriod(s, uid, r.start, r.end);
  }

  lemma MonthIsMidnight(date: string)
    requires PeriodRange("month", date).Ok?
    ensures IsMidnight(PeriodRange("month", date).value.start) && IsMidnight(PeriodRange("month", date).value.end)
  {
  }

  // ---------------------------------------------------------------------------
  // Text tests
  // ---------------------------------------------------------------------------

  function UpperChar(c: char): char {
    if 'a' <= c <= 'z' then (c as int - 32) as char else c
  }

  /** `str.upper()` on ASCII letters. */
  function Upper(s: string): (r: string)
    ensures |r| == |s|
    ensures forall i :: 0 <= i < |s| ==> r[i] == UpperChar(s[i])
  {
    if s == [] then [] else [UpperChar(s[0])] + Upper(s[1..])
  }

  lemma UpperIdempotent(s: string)
    ensures Upper(Upper(s)) == Upper(s)
  {
    assert forall i :: 0 <= i < |s| ==> Upper(Upper(s))[i] == Upper(s)[i];
  }

  /** `needle in hay` for strings: a substring test. */
  predicate Contains(needle: string, hay: string)
    decreases |hay|
  {
    needle <= hay || (hay != [] && Contains(needle, hay[1..]))
  }

  predicate OccursAt(needle: string, hay: string, i: int) {
    0 <= i && i + |needle| <= |hay| && hay[i..i + |needle|] == needle
  }

  /** The substring test finds `needle` exactly when it occurs at some position. */
  lemma {:induction false} ContainsAt(needle: string, hay: string)
    decreases |hay|
    ensures Contains(needle, hay) <==> exists i :: OccursAt(needle, hay, i)
  {
    if needle <= hay {
      assert OccursAt(needle, hay, 0);
    }
    if hay != [] {
      ContainsAt(needle, hay[1..]);
      forall i | 0 <= i
        ensures OccursAt(needle, hay[1..], i) <==> OccursAt(needle, hay, i + 1)
      {
        if i + |needle| <= |hay| - 1 {
          assert hay[1..][i..i + |needle|] == hay[i + 1..i + 1 + |needle|];
        }
      }
      if exists i :: OccursAt(needle, hay, i) {
        var i :| OccursAt(needle, hay, i);
        if i == 0 {
          assert needle <= hay;
        } else {
          assert OccursAt(needle, hay[1..], i - 1);
        }
      }
    } else if exists i :: OccursAt(needle, hay, i) {
      var i :| OccursAt(needle, hay, i);
      assert needle == [];
    }
  }

  // ---------------------------------------------------------------------------
  // What each record counts towards
  // ---------------------------------------------------------------------------

  function Shift(r: Record): string { Upper(r.shiftType) }
  function Status(r: Record): string { Upper(r.status) }

  predicate IsOffice(r: Record) { Shift(r) == "OFFICE" }
  predicate IsOutside(r: Record) { Shift(r) == "OUTSIDE" }
  predicate IsLeave(r: Record) { Shift(r) == "LEAVE" }
  predicate IsHalf(r: Record) { Contains("HALF", Shift(r)) }
  predicate IsHoliday(r: Record) { r.isHolidayWork }
  predicate IsOvertime(r: Record) { Contains("OVERTIME", Status(r)) || Contains("OVERTIME", Shift(r)) }
  predicate IsExtra(r: Record) { Contains("EXTRA", Status(r)) || Contains("ADDITIONAL", Status(r)) }

  /** A timestamp is truthy exactly when it is not NULL. */
  predicate HasTimes(r: Record) { r.checkInAt.Some? && r.checkOutAt.Some? }

  /** Leave and half-day leave are not work days. */
  predicate IsAbsence(r: Record) { IsLeave(r) || IsHalf(r) }

  /** An actual work day: not leave, and both times recorded. */
  predicate IsActualDay(r: Record) { !IsAbsence(r) && HasTimes(r) }

  /** `sum(1 for r in rows if keep(r))`. */
  function Count(rows: seq<Record>, keep: Record -> bool): (n: nat)
    ensures n <= |rows|
  {
    if rows == [] then 0 else Count(rows[..|rows| - 1], keep) + (if keep(rows[|rows| - 1]) then 1 else 0)
  }

  /** The distinct work dates. */
  function Dates(rows: seq<Record>): (ds: set<Date>)
    ensures forall d :: d in ds <==> exists r :: r in rows && r.workDate == d
    ensures |ds| <= |rows|
  {
    if rows == [] then {}
    else
      var rest := Dates(rows[..|rows| - 1]);
      assert forall r :: r in rows <==> r in rows[..|rows| - 1] || r == rows[|rows| - 1];
      rest + {rows[|rows| - 1].workDate}
  }

  // ---------------------------------------------------------------------------
  // Minutes and hours
  // ---------------------------------------------------------------------------

  const MicrosPerMinute: int := 60_000_000

  /**
   * The whole minutes a record contributes: `int(diff)` of a positive
   * difference, nothing when a time is missing or the difference is not
   * positive.
   */
  function RecordMinutes(r: Record): nat {
    if HasTimes(r) && r.checkOutAt.value - r.checkInAt.value > 0
    then (r.checkOutAt.value - r.checkInAt.value) / MicrosPerMinute
    else 0
  }

  /** The minutes are the whole minutes of a positive stay, rounded down. */
  lemma RecordMinutesFloor(r: Record)
    requires HasTimes(r) && r.checkOutAt.value > r.checkInAt.value
    ensures var d := r.checkOutAt.value - r.checkInAt.value;
      RecordMinutes(r) * MicrosPerMinute <= d < (RecordMinutes(r) + 1) * MicrosPerMinute
  {
  }

  /** A check-out not after the check-in, or a missing time, adds nothing. */
  lemma RecordMinutesZero(r: Record)
    ensures RecordMinutes(r) == 0 <==>
      !HasTimes(r) || r.checkOutAt.value - r.checkInAt.value < MicrosPerMinute
  {
  }

  function TotalMinutes(rows: seq<Record>): nat {
    if rows == [] then 0 else TotalMinutes(rows[..|rows| - 1]) + RecordMinutes(rows[|rows| - 1])
  }

  predicate IsHundredth(r: real) {
    (r * 100.0).Floor as real == r * 100.0
  }

  /** The integer `round(x, 2)` picks for `x * 100`: nearest, ties to even. */
  function RoundedHundredths(x: real): int {
    var n := (x * 100.0).Floor;
    var f := x * 100.0 - n as real;
    if f < 0.5 then n else if f > 0.5 then n + 1 else if n % 2 == 0 then n else n + 1
  }

  lemma RoundedHundredthsClose(x: real)
    ensures -0.5 <= RoundedHundredths(x) as real - x * 100.0 <= 0.5
  {
    var n := (x * 100.0).Floor;
    assert n as real <= x * 100.0 < n as real + 1.0;
  }

  /** `round(x, 2)`: the nearest hundredth, halves to the even hundredth. */
  function Round2(x: real): (r: real)
    ensures IsHundredth(r)
    ensures -0.005 <= r - x <= 0.005
  {
    var k := RoundedHundredths(x);
    assert (k as real / 100.0) * 100.0 == k as real;
    RoundedHundredthsClose(x);
    assert k as real / 100.0 - x == (k as real - x * 100.0) / 100.0;
    k as real / 100.0
  }

  function Distance(a: real, b: real): real {
    if a < b then b - a else a - b
  }

  /** The rounded count of hundredths is an integer nearest to `x * 100`. */
  lemma RoundedHundredthsNearest(x: real, j: int)
    ensures Distance(RoundedHundredths(x) as real, x * 100.0) <= Distance(j as real, x * 100.0)
  {
    var y := x * 100.0;
    var n := y.Floor;
    assert n as real <= y < n as real + 1.0;
    if j > n {
      assert j as real >= n as real + 1.0;
    }
  }

  /**
   * No hundredth is nearer to `x` than `Round2(x)`, and an exact tie goes to
   * an even number of hundredths.
   */
  lemma Round2Nearest(x: real, j: int)
    ensures Distance(Round2(x) * 100.0, x * 100.0) <= Distance(j as real, x * 100.0)
    ensures x * 100.0 - (x * 100.0).Floor as real == 0.5 ==> RoundedHundredths(x) % 2 == 0
  {
    assert Round2(x) * 100.0 == RoundedHundredths(x) as real;
    RoundedHundredthsNearest(x, j);
  }

  lemma Round2OfHundredth(x: real)
    requires IsHundredth(x)
    ensures Round2(x) == x
  {
    assert RoundedHundredths(x) as real == x * 100.0;
  }

  // ---------------------------------------------------------------------------
  // The summary
  // ---------------------------------------------------------------------------

  datatype AttendanceSummary = AttendanceSummary(
    totalDays: int,
    actualWorkDays: int,
    totalWorkHours: real,
    avgWorkHours: real,
    officeDays: int,
    offsiteDays: int,
    annualLeaveDays: real,
    halfLeaveDays: real,
    overtimeDays: int,
    holidayWorkDays: int,
    extraWorkDays: int)

  /** `AttendanceSummary()`: every field 0. */
  const DefaultSummary := AttendanceSummary(0, 0, 0.0, 0.0, 0, 0, 0.0, 0.0, 0, 0, 0)

  function Hours(minutes: nat): real {
    Round2(minutes as real / 60.0)
  }

  function Average(hours: real, actual: nat): real {
    if actual <= 0 then 0.0 else Round2(hours / actual as real)
  }

  function Summarize(rows: seq<Record>, minutes: nat, actual: nat): AttendanceSummary {
    var hours := Hours(minutes);
    AttendanceSummary(
      |Dates(rows)|, actual, hours, Average(hours, actual),
      Count(rows, IsOffice), Count(rows, IsOutside),
      Count(rows, IsLeave) as real, Count(rows, IsHalf) as real * 0.5,
      Count(rows, IsOvertime), Count(rows, IsHoliday), Count(rows, IsExtra))
  }

  /** The whole computation: no table or no rows give the default summary. */
  function AttendanceOf(hasTable: bool, records: seq<StoredRecord>, uid: int, start: DateTime, end: DateTime): AttendanceSummary {
    if !hasTable then DefaultSummary
    else
      var rows := SelectRecords(records, uid, start, end);
      if rows == [] then DefaultSummary
      else Summarize(rows, TotalMinutes(rows), Count(rows, IsActualDay))
  }

  // ---------------------------------------------------------------------------
  // The two loops and the computation
  // ---------------------------------------------------------------------------

  /** The `total_minutes` loop. */
  method SumWorkMinutes(rows: seq<Record>) returns (total: nat)
    ensures total == TotalMinutes(rows)
  {
    total := 0;
    for i := 0 to |rows|
      invariant total == TotalMinutes(rows[..i])
    {
      assert rows[..i + 1][..i] == rows[..i];
      var r := rows[i];
      if r.checkInAt.Some? && r.checkOutAt.Some? {
        var diff := r.checkOutAt.value - r.checkInAt.value;
        if diff > 0 {
          total := total + diff / MicrosPerMinute;
        }
      }
    }
    assert rows[..|rows|] == rows;
  }

  /** The `actual` loop: leave and half days are skipped, the rest count when both times are there. */
  method CountActualDays(rows: seq<Record>) returns (actual: nat)
    ensures actual == Count(rows, IsActualDay)
  {
    actual := 0;
    for i := 0 to |rows|
      invariant actual == Count(rows[..i], IsActualDay)
    {
      assert rows[..i + 1][..i] == rows[..i];
      var st := Upper(rows[i].shiftType);
      if st == "LEAVE" || Contains("HALF", st) {
        continue;
      }
      if rows[i].checkInAt.Some? && rows[i].checkOutAt.Some? {
        actual := actual + 1;
      }
    }
    assert rows[..|rows|] == rows;
  }

  method CalcAttendance(hasTable: bool, records: seq<StoredRecord>, uid: int, start: DateTime, end: DateTime)
    returns (summary: AttendanceSummary)
    ensures summary == AttendanceOf(hasTable, records, uid, start, end)
  {
    if !hasTable {
      return DefaultSummary;
    }
    var rows := SelectRecords(records, uid, start, end);
    if rows == [] {
      return DefaultSummary;
    }
    var minutes := SumWorkMinutes(rows);
    var actual := CountActualDays(rows);
    summary := Summarize(rows, minutes, actual);
  }
}
