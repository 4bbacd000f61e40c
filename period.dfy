/**
 * Reporting periods: a unit ("month" or "year") and a date string become a
 * half-open range [start, end) of naive date-times.
 */
module Period {
  import opened Wrappers
  import opened Decimal

  /** The year bounds of Python's `datetime`. */
  const MinYear: int := 1
  const MaxYear: int := 9999

  /** A naive `datetime.datetime`, to the microsecond. */
  datatype DateTime = DateTime(year: int, month: int, day: int, hour: int, minute: int, second: int, microsecond: int)

  /** Field ranges `datetime` enforces (days only up to 31). */
  predicate Valid(t: DateTime) {
    MinYear <= t.year <= MaxYear && 1 <= t.month <= 12 && 1 <= t.day <= 31
    && 0 <= t.hour < 24 && 0 <= t.minute < 60 && 0 <= t.second < 60 && 0 <= t.microsecond < 1_000_000
  }

  /** Chronological order of date-times: lexicographic on the fields. */
  predicate Before(a: DateTime, b: DateTime) {
    a.year < b.year || (a.year == b.year &&
    (a.month < b.month || (a.month == b.month &&
    (a.day < b.day || (a.day == b.day &&
    (a.hour < b.hour || (a.hour == b.hour &&
    (a.minute < b.minute || (a.minute == b.minute &&
    (a.second < b.second || (a.second == b.second && a.microsecond < b.microsecond)))))))))))
  }

  /** `start <= t < end`, the filter `created_at >= :s AND created_at < :e`. */
  predicate InRange(t: DateTime, start: DateTime, end: DateTime) {
    !Before(t, start) && Before(t, end)
  }

  lemma BeforeTransitive(a: DateTime, b: DateTime, c: DateTime)
    requires Before(a, b) && Before(b, c)
    ensures Before(a, c)
  {
  }

  /** Two different date-times are ordered one way or the other, never both. */
  lemma BeforeTotal(a: DateTime, b: DateTime)
    ensures a == b || Before(a, b) || Before(b, a)
    ensures !(Before(a, b) && Before(b, a))
  {
  }

  /** Midnight on the first day of a month. */
  function FirstOfMonth(y: int, m: int): DateTime {
    DateTime(y, m, 1, 0, 0, 0, 0)
  }

  // ---------------------------------------------------------------------------
  // _period_range
  // ---------------------------------------------------------------------------

  /** Why a period request is refused with HTTP 400. */
  datatype BadInput = MonthFormat | YearFormat | UnknownUnit

  /**
   * BadRequest: the HTTP 400 the code raises itself. ValueError: `int()` or
   * `datetime(...)` rejected the digits (month outside 1..12, year outside
   * 1..9999); it is not caught, so it escapes as a server error.
   */
  datatype PeriodError = BadRequest(reason: BadInput) | ValueError

  datatype Range = Range(start: DateTime, end: DateTime)

  /** `datetime(y, m, 1)`, which raises ValueError outside the supported range. */
  function MakeFirstOfMonth(y: int, m: int): (r: Result<DateTime, PeriodError>)
    ensures r.Ok? <==> MinYear <= y <= MaxYear && 1 <= m <= 12
    ensures r.Ok? ==> r.value == FirstOfMonth(y, m) && Valid(r.value)
    ensures r.Err? ==> r.error == ValueError
  {
    if MinYear <= y <= MaxYear && 1 <= m <= 12 then Ok(FirstOfMonth(y, m)) else Err(ValueError)
  }

  /** Both ends of a range, each through `datetime(...)`; the start is built first. */
  function MakeRange(y: int, m: int, y': int, m': int): Result<Range, PeriodError> {
    match MakeFirstOfMonth(y, m)
    case Err(e) => Err(e)
    case Ok(s) =>
      match MakeFirstOfMonth(y', m')
      case Err(e) => Err(e)
      case Ok(e) => Ok(Range(s, e))
  }

  /**
   * `_period_range(unit, date_str)`. "month" takes "YYYY-MM" (seven
   * characters; the fifth is not looked at) and gives [Y-M-01, next month-01),
   * rolling December into January of the next year; "year" takes "YYYY" and
   * gives [Y-01-01, (Y+1)-01-01). A wrong length or an unknown unit is a 400.
   */
  function PeriodRange(unit: string, date: string): (r: Result<Range, PeriodError>)
    ensures r.Ok? ==> Valid(r.value.start) && Valid(r.value.end) && Before(r.value.start, r.value.end)
    ensures r.Ok? ==> r.value.start.day == 1 && r.value.end.day == 1
    ensures r == Err(BadRequest(UnknownUnit)) <==> unit != "month" && unit != "year"
    ensures r == Err(BadRequest(MonthFormat)) <==> unit == "month" && |date| != 7
    ensures r == Err(BadRequest(YearFormat)) <==> unit == "year" && |date| != 4
  {
    if unit == "month" then
      if |date| != 7 then Err(BadRequest(MonthFormat))
      else
        match (ParseInt(date[..4]), ParseInt(date[5..7]))
        case (Some(y), Some(m)) =>
          if m == 12 then MakeRange(y, m, y + 1, 1) else MakeRange(y, m, y, m + 1)
        case _ => Err(ValueError)
    else if unit == "year" then
      if |date| != 4 then Err(BadRequest(YearFormat))
      else
        match ParseInt(date)
        case Some(y) => MakeRange(y, 1, y + 1, 1)
        case None => Err(ValueError)
    else
      Err(BadRequest(UnknownUnit))
  }

  /**
   * A month written as four digits, any separator and two digits gives the
   * month's range; December rolls over, and December 9999 has no end.
   */
  lemma MonthPeriod(y: int, sep: char, m: int)
    requires 0 <= y <= MaxYear && 0 <= m <= 99
    ensures PeriodRange("month", Digits(y, 4) + [sep] + Digits(m, 2)) ==
      if y < MinYear || m < 1 || 12 < m || (m == 12 && y == MaxYear) then Err(ValueError)
      else if m == 12 then Ok(Range(FirstOfMonth(y, 12), FirstOfMonth(y + 1, 1)))
      else Ok(Range(FirstOfMonth(y, m), FirstOfMonth(y, m + 1)))
  {
    var d := Digits(y, 4) + [sep] + Digits(m, 2);
    assert d[..4] == Digits(y, 4);
    assert d[5..7] == Digits(m, 2);
    ParseIntDigits(y, 4);
    ParseIntDigits(m, 2);
  }

  /** A year written as four digits gives [Y-01-01, (Y+1)-01-01); 0000 and 9999 fail. */
  lemma YearPeriod(y: int)
    requires 0 <= y <= MaxYear
    ensures PeriodRange("year", Digits(y, 4)) ==
      if y < MinYear || y == MaxYear then Err(ValueError)
      else Ok(Range(FirstOfMonth(y, 1), FirstOfMonth(y + 1, 1)))
  {
    ParseIntDigits(y, 4);
  }

  /** A month range holds exactly the valid instants of that calendar month. */
  lemma MonthRangeCovers(date: string, t: DateTime)
    requires PeriodRange("month", date).Ok?
    requires Valid(t)
    ensures var r := PeriodRange("month", date).value;
      InRange(t, r.start, r.end) <==> t.year == r.start.year && t.month == r.start.month
  {
  }

  /** A year range holds exactly the valid instants of that calendar year. */
  lemma YearRangeCovers(date: string, t: DateTime)
    requires PeriodRange("year", date).Ok?
    requires Valid(t)
    ensures var r := PeriodRange("year", date).value;
      InRange(t, r.start, r.end) <==> t.year == r.start.year
  {
  }
}
