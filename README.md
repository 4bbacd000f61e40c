# Staff report scoring engine, modelled in Dafny

This project models the computation behind the staff report of a
project-management back end (`router.py`). For one employee and one period
the report gives:

- **Project performance.** This is the number of company projects in the
  period and the sum of their scores P. The company projects are those
  completed in the period when `projects.completed_at` exists, and those
  evaluated by anyone in the period otherwise. It also gives the employee's own rows:
  one per company project of the period that is present in `projects` and
  that they evaluated in the period, with P, their personal score, their
  allocated score, and whether P came from an active completion
  **snapshot** or was computed **live** from the project's score
  components. Then come the employee's totals and their share in percent.
- **Attendance.** These are the tallies of the employee's attendance
  records: days, actual work days, hours, office, outside and leave days,
  overtime, holiday and extra work.

Database tables are sequences of rows. A query is a function over those
rows. A dictionary is a `map` built "last write wins", and iterating it
follows first insertion. The loops of `_calc_project_performance` and
`_calc_attendance` are methods with loop invariants. Each method is proved
equal to a specification function, and the properties the report relies on
are proved as lemmas about those functions.

Files:

| file | module | what it holds |
|---|---|---|
| wrappers.dfy | Wrappers | `Option`, `Result` |
| truncation.dfy | Truncation | `_trunc1`: truncation to one decimal |
| decimal.dfy | Decimal | `int()` on digit strings and `str()` on integers |
| period.dfy | Period | date-times and `_period_range` |
| score.dfy | Score | the project columns, the project query's row and `_calc_final_score_row` |
| evaluations.dfy | Evaluations | `project_evaluations` and the `DISTINCT ON` query |
| keyed_rows.dfy | KeyedRows | dictionaries built from rows |
| performance.dfy | Performance | `_calc_project_performance` |
| performance_properties.dfy | PerformanceProperties | what the performance part promises |
| attendance.dfy | Attendance | `_calc_attendance` |
| attendance_properties.dfy | AttendanceProperties | what the attendance part promises |

Modelling choices:

- Scores are exact `real`s.
- Timestamps of evaluations, completions and periods are civil date-times
  to the microsecond, as PostgreSQL stores them, ordered by their fields.
- Attendance check-in and check-out are integer instants in microseconds.
- Schema probing (`_table_exists`, `_col_exists`) is replaced by a `Schema`
  value. It says which tables exist, whether `projects.completed_at`
  exists, and which optional `projects` columns exist.

The module docstring at the head of `router.py` describes a different formula
(router.py:10-14). The model follows the code that runs: `_calc_final_score_row`
adds up nine stored score columns, and truncates the total to one decimal.

## Model

| member | source | states |
|---|---|---|
| Truncation.Trunc1 | router.py:186-191 | the result is a whole number of tenths; it is never further from zero than x, and lies within 0.1 of x, on the same side of zero |
| Truncation.Trunc1Unique | router.py:186-191 | those three facts pin the truncation down: any tenth toward zero within 0.1 of x is `Trunc1(x)` |
| Truncation.Trunc1OfTenth | router.py:186-191 | a value already in tenths is left as it is |
| Truncation.Trunc1Idempotent | router.py:186-191 | truncating twice is truncating once |
| Truncation.Trunc1Monotone | router.py:186-191 | truncation keeps order |
| Truncation.Trunc1Odd | router.py:186-191 | `math.trunc` goes toward zero, so truncating -x gives minus the truncation of x |
| Truncation.Trunc1Examples | router.py:186-191 | 12.37 gives 12.3, and -12.37 gives -12.3 |
| Truncation.Trunc1Value | router.py:188-191 | a value whose conversion or truncation raises gives 0.0; any other value gives its truncation `Trunc1`, a tenth between it and 0 |
| Decimal.ParseInt | router.py:92-93 | `int()` of a digit string succeeds exactly when the string is non-empty and all digits, and its value is below 10 to the length |
| Decimal.DigitsRoundTrip | router.py:92-93 | the zero-padded digits of n, read back, are n |
| Decimal.ParseIntDigits | router.py:92-93 | reading a zero-padded field gives its number |
| Decimal.NatToString | router.py:434 | `str(n)` is non-empty digits without a leading zero |
| Decimal.NatToStringRoundTrip | router.py:434 | `int(str(n)) == n` |
| Decimal.IntToString | router.py:434 | `str(i)` is canonical: for i >= 0, digits without a leading zero that read back as i; for a negative i, '-' followed by such digits for -i |
| Period.MakeFirstOfMonth | router.py:94-97 | `datetime(y, m, 1)` succeeds exactly for a year in 1..9999 and a month in 1..12; it is that day at midnight, or a ValueError |
| Period.PeriodRange | router.py:87-105 | a success is a valid half-open range from a first of month to a later first of month; each 400 happens exactly under its condition (unknown unit, wrong length for month, wrong length for year) |
| Period.MonthPeriod | router.py:89-98 | for "YYYY?MM" with any separator: the month's range; a December period ends on 1 January of the next year; a month outside 1..12 or year 0 is a ValueError, and so is December 9999 |
| Period.YearPeriod | router.py:99-103 | for "YYYY": 1 January to 1 January of the next year; year 0 and year 9999 are ValueErrors |
| Period.MonthRangeCovers | router.py:89-98 | a valid date-time lies in a month's range exactly when its year and month are that month's |
| Period.YearRangeCovers | router.py:99-103 | a valid date-time lies in a year's range exactly when its year is that year |
| Score.FetchRow | router.py:286-325 | id and name are the stored ones; the contract amount is the stored one, or 0 when NULL; the cost sum adds up the six cost columns, each through COALESCE, or 0 when the column is missing; each fetched score component is the stored column through COALESCE, or 0 when the column is missing; `profit_rate` is NULL without its column or a stored value |
| Score.FinalScore | router.py:194-229 | the final score is a whole number of tenths and not negative when the components are not negative |
| Score.ScoreColumnsSum | router.py:207-228 | the summed total is the nine components added in the source's order |
| Score.ComponentSumPermutation | router.py:217-228 | the total does not depend on the order the columns are added |
| Score.FinalScoreAnyOrder | router.py:217-229 | the final score is the truncated sum over any permutation of the nine columns |
| Score.FinalScoreIgnoresAmounts | router.py:194-229 | contract amount and cost sum do not affect the score |
| Score.LiveScoreOfStored | router.py:295-322 | a stored project's live score is the truncated sum of its available columns, with missing values as 0 |
| Score.FinalScoreWithoutColumns | router.py:179-183 | with none of the columns present, every project scores 0 |
| Score.FinalScoreMonotone | router.py:194-229 | raising any component never lowers the score |
| Score.FinalScoreExample | router.py:194-229 | components 2, 3, 1, 1, 0, 0, 0, 2 and 1.26 give 10.2 |
| Evaluations.Latest | router.py:393-400 | there is a latest evaluation exactly when there is any; it is one of them, and none is later |
| Evaluations.LatestUnique | router.py:400 | with distinct ids the latest evaluation is unique |
| Evaluations.LatestOrderIndependent | router.py:400 | the choice does not depend on the order of the rows |
| Evaluations.LatestOfTwo | router.py:400 | of two evaluations the newer wins, and on equal times (to the microsecond) the higher id wins |
| Evaluations.LatestWithinSecond | router.py:400 | of two evaluations in the same second, id 7 at .900 and id 8 at .100, id 7 wins in either row order |
| Evaluations.ProjectIds | router.py:274 | the distinct project ids, strictly ascending, are exactly the projects evaluated |
| Evaluations.LatestPerProjectSpec | router.py:390-404 | one row per project the employee evaluated in the period, in ascending project order; each row is their own in-period evaluation, and no other is later |
| Evaluations.LatestPerProjectEmpty | router.py:406-407 | no row exactly when the employee has no evaluation in the period |
| KeyedRows.LastWins | router.py:329 | the dictionary's keys are exactly the rows' keys; each entry is a row with that key |
| KeyedRows.LastWinsIsLast | router.py:348-353 | an entry is the last row with its key |
| KeyedRows.FirstSeen | router.py:381 | iteration visits each key of the dictionary once |
| KeyedRows.IndexRows | router.py:329 | the loop builds that dictionary and its key order |
| Performance.CompletedIn | router.py:257-268 | the ids are exactly those of the projects completed in the period; with unique project ids, each comes once |
| Performance.CompanyProjectIds | router.py:256-282 | with `completed_at`, exactly the projects completed in the period, each once when project ids are unique; without it, exactly the projects evaluated by anyone in the period, each once |
| Performance.SelectProjects | router.py:308-328 | the fetched rows are exactly the company projects present in `projects`, each read through the schema |
| Performance.ActiveSnapshots | router.py:333-346 | the rows are exactly the active snapshots of company projects |
| Performance.ItemJoin | router.py:357-368 | an item's rows are exactly its joins with active snapshots of company projects, scores through COALESCE |
| Performance.UserItems | router.py:355-370 | the rows are exactly the employee's items joined with active snapshots of company projects |
| Performance.ProjectName | router.py:434 | a non-empty stored name is shown as it is; otherwise the name is '#' followed by `str(pid)`: digits without a leading zero that read back as the id, after a '-' for a negative id |
| Performance.Share | router.py:446 | 0% when the P sum is not positive; otherwise a whole number of tenths, toward zero and within 0.1 of alloc / P sum × 100 (so `_trunc1` of it, by Trunc1Unique); between 0% and 100% when the allocations lie between 0 and the P sum; 100% when they equal it |
| Performance.RatioBounds | router.py:446 | a part over a positive whole lies between 0 and 1 |
| Performance.SumCompany | router.py:380-387 | the loop adds up P over the fetched projects |
| Performance.CollectRows | router.py:411-443 | the loop builds the employee's rows and both sums |
| Performance.CalcProjectPerformance | router.py:252-456 | the whole computation equals the specification `StaffPerformance`, early returns included |
| PerformanceProperties.SummaryFields | router.py:446-455 | company count is the number of company projects; employee count is the number of rows; the two sums are the truncated totals, and the share is derived from them |
| PerformanceProperties.NoCompanyProjects | router.py:252-284 | no evaluations table, or no company project: an all-zero summary and no rows |
| PerformanceProperties.NoEmployeeEvaluations | router.py:406-409 | with no evaluation by the employee in the period, the employee's figures are 0 and there are no rows |
| PerformanceProperties.EmployeeRowRule | router.py:421-440 | SNAPSHOT exactly with an active snapshot; P frozen then, live otherwise; the employee's item overrides both personal and allocated scores; otherwise allocated = trunc1(P / 10 × score); evaluated-at is the completion time or the evaluation time |
| PerformanceProperties.EmployeeRowsOrigin | router.py:416-441 | each row comes from one selected evaluation of a fetched project |
| PerformanceProperties.EmployeeRowsCover | router.py:416-420 | each selected evaluation of a fetched project has a row |
| PerformanceProperties.EmployeeRowsAscending | router.py:416-441 | rows keep the evaluations' ascending project order |
| PerformanceProperties.EmployeeRowsEvaluationScore | router.py:421-429 | a row whose project has no item carries its evaluation's score and the allocation trunc1(P / 10 × score) |
| PerformanceProperties.SnapMapDomain | router.py:333-353 | a company project is in `snap_map` exactly when an active snapshot of it exists and the table exists |
| PerformanceProperties.SnapMapValue | router.py:348-353 | with at most one active snapshot per project, `snap_map` holds that snapshot's score and time |
| PerformanceProperties.ItemMapDomain | router.py:355-378 | a project is in `item_map` exactly when both snapshot tables exist and the employee has an item of an active snapshot of that company project |
| PerformanceProperties.ItemMapValue | router.py:372-378 | with at most one active snapshot per project and one item per employee and snapshot, `item_map` holds that item's scores, NULL as 0 |
| PerformanceProperties.FetchedProject | router.py:328-329 | with unique project ids, `all_map` holds the stored project read through the schema |
| PerformanceProperties.FetchedDomain | router.py:324-329 | `all_map` holds exactly the company projects present in `projects` |
| PerformanceProperties.ResolvedScoreOfStored | router.py:380-386 | P is the active snapshot's stored score whatever the live components are, and the live score otherwise |
| PerformanceProperties.StaffRowsAscending | router.py:393-441 | the report's rows are in ascending project order |
| PerformanceProperties.StaffRowOrigin | router.py:416-441 | each row is a company project present in `projects` that the employee evaluated in the period, tagged SNAPSHOT exactly when the project has an active snapshot |
| PerformanceProperties.StaffRowsCover | router.py:416-420 | each company project present in `projects` that the employee evaluated in the period has a row |
| PerformanceProperties.StaffRowName | router.py:434 | with unique project ids, a row's name is the stored project's name, or '#' and the id when that is NULL or empty |
| PerformanceProperties.StaffRowProjectScore | router.py:421-437 | in terms of the stored tables, a row's P and evaluated-at are the active snapshot's score (NULL as 0) and completion time when there is one; a LIVE row's P is the live score of the stored project |
| PerformanceProperties.StaffRowItemScores | router.py:421-425 | when the employee has an item of the project's active snapshot, the row's personal and allocated scores are that item's, NULL as 0 |
| PerformanceProperties.StaffRowEvaluationScores | router.py:421-429 | without such an item, the personal score is the selected evaluation's score (NULL as 0) and the allocation is trunc1(P / 10 × score) |
| PerformanceProperties.CompanySumRange | router.py:380-387 | the company sum takes P once per company project present in `projects` |
| PerformanceProperties.CompanySumLive | router.py:380-386 | without active snapshots the company sum is the sum of live scores |
| PerformanceProperties.AllocateBounds | router.py:429 | a live allocation from a non-negative P and a 0-10 score lies between 0 and P |
| PerformanceProperties.SumsBounded | router.py:442-443 | allocations bounded row by row bound the sums |
| PerformanceProperties.ShareInRange | router.py:446 | the report's share is 0 without a positive P sum, and between 0 and 100 when every allocation lies between 0 and its P |
| Attendance.SelectRecords | router.py:463-480 | the rows are exactly the user's non-deleted records dated in [start date, end date), with the COALESCE defaults |
| AttendanceProperties.SelectRecordsCount | router.py:463-480 | for any test, as many rows pass it as there are qualifying records whose row passes it, so each row occurs as often as the records it comes from |
| AttendanceProperties.SelectRecordsLength | router.py:463-480 | there are exactly as many rows as qualifying records |
| Attendance.QueriedInPeriod | router.py:473-476 | for a period bounded by midnights, a record qualifies exactly when its day starts in the period |
| Attendance.QueriedInMonth | router.py:473-476 | for a month period, a record qualifies exactly when its work date is in that month |
| Attendance.Upper | router.py:502-509 | upper-casing keeps the length, and maps each character |
| Attendance.UpperIdempotent | router.py:502-509 | upper-casing twice is upper-casing once |
| Attendance.ContainsAt | router.py:505-509 | the `in` test holds exactly when the needle occurs at some position |
| Attendance.Dates | router.py:486 | the distinct work dates are exactly the rows' dates, no more of them than rows |
| Attendance.RecordMinutesFloor | router.py:491-497 | a positive stay contributes its whole minutes, rounded down |
| Attendance.RecordMinutesZero | router.py:491-497 | a record adds nothing exactly when a time is missing or the stay is shorter than a minute |
| Attendance.Round2 | router.py:500 | `round(x, 2)` is a hundredth within 0.005 of x |
| Attendance.Round2Nearest | router.py:500 | no hundredth is nearer, and a tie goes to the even hundredth |
| Attendance.Round2OfHundredth | router.py:500 | a hundredth rounds to itself |
| Attendance.SumWorkMinutes | router.py:489-499 | the loop adds up each record's minutes |
| Attendance.CountActualDays | router.py:512-518 | the loop counts the days that are not leave or half leave and have both times |
| Attendance.CalcAttendance | router.py:458-534 | the whole computation equals the specification `AttendanceOf` |
| AttendanceProperties.NothingToCount | router.py:459-483 | no table, or no qualifying record: the default summary |
| AttendanceProperties.SummaryBounds | router.py:520-534 | total days between 1 and the number of rows; actual days at most the rows that are not leave; hours and average within 0.005 of the exact values; average 0 without actual days; office, outside and leave days together at most the rows; half leave half a day each |
| AttendanceProperties.ShiftDaysExclusive | router.py:502-504 | office, outside and leave compare the whole shift, so no row counts twice among them |
| AttendanceProperties.DaysPartition | router.py:512-518 | each row is exactly one of: an actual work day, leave or half leave, or a day without both times |
| AttendanceProperties.CountPermutation | router.py:463-480 | a tally does not depend on the row order |
| AttendanceProperties.TotalMinutesPermutation | router.py:489-499 | the minutes do not depend on the row order |
| AttendanceProperties.SummaryOrderIndependent | router.py:463-534 | the query has no ORDER BY, and the summary does not depend on the row order |
| AttendanceProperties.NineToSix | router.py:489-500 | 09:00 to 18:00 is 540 minutes and 9.00 hours, an actual office day |
| AttendanceProperties.CheckOutBeforeCheckIn | router.py:493-497 | a check-out before the check-in adds no minutes, yet the day still counts as an actual work day |
| AttendanceProperties.TalliesOverlap | router.py:505-509 | a "half_leave" shift with status "Overtime/Extra" counts as half leave, overtime and extra work, but not as annual leave |

## Left out

- The HTTP layer is not modelled: the route, authentication and the admin check, the employee lookup (router.py:157-173), and the response assembly.
- Schema probing through `information_schema` is not modelled. The model takes the outcome of the probes as an input.
- A database error, or the database's own row order, is not modelled. Where no `ORDER BY` fixes the order, the model reads rows in table order. The attendance summary is proved not to depend on that order. The performance figures depend on it only through `snap_map` and `item_map`, where a later row replaces an earlier one: when a project has two active snapshots, or the employee two items of one, the row order picks the value. With at most one active snapshot per project and one item per employee and snapshot (the preconditions of SnapMapValue and ItemMapValue), the figures are fixed by the stored rows; the sums themselves add exact reals, so their order does not matter.
- The code at router.py:232-249 (a second, older score formula) is not modelled: it follows the `return` at router.py:229 inside `_calc_final_score_row`, so it never runs.
- The module docstring's formula (router.py:10-14) is not modelled: the code that runs does something else.
- Floating-point rounding is not modelled. Scores are exact reals, so a total where float addition would drift by one ulp is computed exactly.
- Truncation.Trunc1Value: float overflow to inf, and NaN, are not modelled. No score in the model is `NotANumber`, so every report figure goes through `Trunc1` and the 0.0 fallback of router.py:188-191 is never reached.
- Attendance.Round2: rounds the exact value. Python rounds the float nearest to it, so on an exact tie of the average the two can differ.
- Truncation.Trunc1: models `math.trunc(x * 10) / 10` on exact reals. It ignores float artifacts: in Python 0.7 + 0.1 is 0.7999999999999999, which truncates to 0.7, while the exact sum 0.8 truncates to 0.8.
- Decimal.ParseInt: accepts only ASCII digit strings. Python's `int()` also accepts surrounding whitespace, a sign, underscores between digits and non-ASCII digits.
- Attendance.Upper: upper-cases ASCII letters only. `str.upper()` also maps other characters, some of them onto ASCII letters or onto two characters.
- Attendance.SumWorkMinutes: does not model the exception path at router.py:498-499, taken when a naive and an aware timestamp are subtracted. All instants here are on one clock.
- A snapshot whose `completed_at` is NULL gives a row with `evaluated_at=None`, which `ProjectRow` (router.py:138) rejects with a validation error inside `_calc_project_performance`. Nothing catches it (router.py:548-551), so the whole report request fails. The model does not model that failure: it returns the row with `None`.
- The snapshot writers (how snapshots and items are created and deactivated) are not part of this model. The invariants "at most one active snapshot per project", "one item per employee and snapshot" and "unique project ids" are preconditions where they are needed.
