/** What the attendance part of the staff report promises, proved about its specification. */
module AttendanceProperties {
  import opened Wrappers
  import opened Period
  import opened Attendance

  /** No `attendance_records` table, or no row in the period: the default summary. */
  lemma NothingToCount(hasTable: bool, records: seq<StoredRecord>, uid: int, start: DateTime, end: DateTime)
    requires !hasTable || forall s :: s in records ==> !Queried(s, uid, start, end)
    ensures AttendanceOf(hasTable, records, uid, start, end) == DefaultSummary
  {
  }

  /** The summary of a non-empty set of rows, with the bounds each count keeps. */
  lemma SummaryBounds(rows: seq<Record>)
    requires rows != []
    ensures var s := Summarize(rows, TotalMinutes(rows), Count(rows, IsActualDay));
      0 < s.totalDays <= |rows| &&
      0 <= s.actualWorkDays <= |rows| - Count(rows, IsAbsence) &&
      -0.005 <= s.totalWorkHours - TotalMinutes(rows) as real / 60.0 <= 0.005 &&
      (s.actualWorkDays == 0 ==> s.avgWorkHours == 0.0) &&
      (s.actualWorkDays > 0 ==> -0.005 <= s.avgWorkHours - s.totalWorkHours / s.actualWorkDays as real <= 0.005) &&
      s.officeDays + s.offsiteDays + Count(rows, IsLeave) <= |rows| &&
      s.annualLeaveDays == Count(rows, IsLeave) as real &&
      s.halfLeaveDays == 0.5 * Count(rows, IsHalf) as real
  {
    assert rows[0].workDate in Dates(rows);
    ShiftDaysExclusive(rows);
    DaysPartition(rows);
  }

  // ---------------------------------------------------------------------------
  // Counting
  // ---------------------------------------------------------------------------

  lemma {:induction false} CountAppend(a: seq<Record>, b: seq<Record>, keep: Record -> bool)
    ensures Count(a + b, keep) == Count(a, keep) + Count(b, keep)
  {
    if b == [] {
      assert a + b == a;
    } else {
      CountAppend(a, b[..|b| - 1], keep);
      assert (a + b)[..|a + b| - 1] == a + b[..|b| - 1];
    }
  }

  /** How many stored records pass a test. */
  function CountStored(records: seq<StoredRecord>, keep: StoredRecord -> bool): nat {
    if records == [] then 0 else (if keep(records[0]) then 1 else 0) + CountStored(records[1..], keep)
  }

  /**
   * The query returns each record in the period once: for any test on rows,
   * as many rows pass it as there are stored records of the employee in the
   * period whose row passes it. With the test `r == x`, a row occurs exactly
   * as often as the records it is fetched from.
   */
  lemma {:induction false} SelectRecordsCount(records: seq<StoredRecord>, uid: int, start: DateTime, end: DateTime, keep: Record -> bool)
    ensures Count(SelectRecords(records, uid, start, end), keep) ==
      CountStored(records, (s: StoredRecord) => Queried(s, uid, start, end) && keep(Fetch(s)))
  {
    if records != [] {
      SelectRecordsCount(records[1..], uid, start, end, keep);
      var rest := SelectRecords(records[1..], uid, start, end);
      var here := if Queried(records[0], uid, start, end) then [Fetch(records[0])] else [];
      assert SelectRecords(records, uid, start, end) == here + rest;
      CountAppend(here, rest, keep);
      if here != [] {
        assert here[..0] == [];
      }
    }
  }

  /** The query returns exactly as many rows as the employee has records in the period. */
  lemma {:induction false} SelectRecordsLength(records: seq<StoredRecord>, uid: int, start: DateTime, end: DateTime)
    ensures |SelectRecords(records, uid, start, end)| ==
      CountStored(records, (s: StoredRecord) => Queried(s, uid, start, end))
  {
    if records != [] {
      SelectRecordsLength(records[1..], uid, start, end);
    }
  }

  /** Two tests no record passes together count at most one row each. */
  lemma {:induction false} CountDisjoint(rows: seq<Record>, p: Record -> bool, q: Record -> bool)
    requires forall i :: 0 <= i < |rows| ==> !(p(rows[i]) && q(rows[i]))
    ensures Count(rows, p) + Count(rows, q) <= |rows|
  {
    if rows != [] {
      CountDisjoint(rows[..|rows| - 1], p, q);
    }
  }

  predicate IsOfficeOrOutside(r: Record) { IsOffice(r) || IsOutside(r) }

  lemma {:induction false} CountOr(rows: seq<Record>)
    ensures Count(rows, IsOfficeOrOutside) == Count(rows, IsOffice) + Count(rows, IsOutside)
  {
    if rows != [] {
      CountOr(rows[..|rows| - 1]);
    }
  }

  /** Office, outside and leave days are told apart by the whole shift, so no row counts twice. */
  lemma ShiftDaysExclusive(rows: seq<Record>)
    ensures Count(rows, IsOffice) + Count(rows, IsOutside) + Count(rows, IsLeave) <= |rows|
  {
    CountOr(rows);
    CountDisjoint(rows, IsOfficeOrOutside, IsLeave);
  }

  /** A work day without both times: neither leave nor an actual day. */
  predicate IsUntimed(r: Record) { !IsAbsence(r) && !HasTimes(r) }

  /** Every row is exactly one of: an actual work day, leave or half leave, or a day without both times. */
  lemma {:induction false} DaysPartition(rows: seq<Record>)
    ensures Count(rows, IsActualDay) + Count(rows, IsAbsence) + Count(rows, IsUntimed) == |rows|
  {
    if rows != [] {
      DaysPartition(rows[..|rows| - 1]);
    }
  }

  // ---------------------------------------------------------------------------
  // The order of the rows does not matter
  // ---------------------------------------------------------------------------

  lemma {:induction false} TotalMinutesAppend(a: seq<Record>, b: seq<Record>)
    ensures TotalMinutes(a + b) == TotalMinutes(a) + TotalMinutes(b)
  {
    if b == [] {
      assert a + b == a;
    } else {
      TotalMinutesAppend(a, b[..|b| - 1]);
      assert (a + b)[..|a + b| - 1] == a + b[..|b| - 1];
    }
  }

  /** Removing the row at `j` from `b`, and the facts about the rest. */
  lemma Without(b: seq<Record>, j: int, a: seq<Record>)
    requires 0 <= j < |b| && a != [] && b[j] == a[|a| - 1] && multiset(a) == multiset(b)
    ensures multiset(a[..|a| - 1]) == multiset(b[..j] + b[j + 1..])
    ensures b == b[..j] + [b[j]] + b[j + 1..]
  {
    assert b == b[..j] + [b[j]] + b[j + 1..];
    assert a == a[..|a| - 1] + [a[|a| - 1]];
    assert multiset(b) == multiset(b[..j] + b[j + 1..]) + multiset{b[j]};
    assert multiset(a) == multiset(a[..|a| - 1]) + multiset{b[j]};
    assert multiset(a[..|a| - 1]) == multiset(a) - multiset{b[j]};
    assert multiset(b[..j] + b[j + 1..]) == multiset(b) - multiset{b[j]};
  }

  lemma {:induction false} CountPermutation(a: seq<Record>, b: seq<Record>, keep: Record -> bool)
    requires multiset(a) == multiset(b)
    ensures Count(a, keep) == Count(b, keep)
    decreases |a|
  {
    if a == [] {
      assert |b| == |multiset(b)| == 0;
    } else {
      var x := a[|a| - 1];
      assert x in multiset(b);
      var j :| 0 <= j < |b| && b[j] == x;
      Without(b, j, a);
      var rest := b[..j] + b[j + 1..];
      CountPermutation(a[..|a| - 1], rest, keep);
      CountAppend(b[..j], [x], keep);
      CountAppend(b[..j] + [x], b[j + 1..], keep);
      CountAppend(b[..j], b[j + 1..], keep);
      assert Count([x], keep) == Count([], keep) + (if keep(x) then 1 else 0);
    }
  }

  lemma {:induction false} TotalMinutesPermutation(a: seq<Record>, b: seq<Record>)
    requires multiset(a) == multiset(b)
    ensures TotalMinutes(a) == TotalMinutes(b)
    decreases |a|
  {
    if a == [] {
      assert |b| == |multiset(b)| == 0;
    } else {
      var x := a[|a| - 1];
      assert x in multiset(b);
      var j :| 0 <= j < |b| && b[j] == x;
      Without(b, j, a);
      var rest := b[..j] + b[j + 1..];
      TotalMinutesPermutation(a[..|a| - 1], rest);
      TotalMinutesAppend(b[..j], [x]);
      TotalMinutesAppend(b[..j] + [x], b[j + 1..]);
      TotalMinutesAppend(b[..j], b[j + 1..]);
      assert TotalMinutes([x]) == TotalMinutes([]) + RecordMinutes(x);
    }
  }

  lemma DatesPermutation(a: seq<Record>, b: seq<Record>)
    requires multiset(a) == multiset(b)
    ensures Dates(a) == Dates(b)
  {
    forall r ensures r in a <==> r in b {
      assert r in a <==> r in multiset(a);
      assert r in b <==> r in multiset(b);
    }
  }

  /**
   * The query has no `ORDER BY`, and the summary does not depend on the
   * order in which the rows arrive.
   */
  lemma SummaryOrderIndependent(a: seq<Record>, b: seq<Record>)
    requires multiset(a) == multiset(b)
    ensures Summarize(a, TotalMinutes(a), Count(a, IsActualDay)) == Summarize(b, TotalMinutes(b), Count(b, IsActualDay))
  {
    DatesPermutation(a, b);
    TotalMinutesPermutation(a, b);
    CountPermutation(a, b, IsActualDay);
    CountPermutation(a, b, IsOffice);
    CountPermutation(a, b, IsOutside);
    CountPermutation(a, b, IsLeave);
    CountPermutation(a, b, IsHalf);
    CountPermutation(a, b, IsOvertime);
    CountPermutation(a, b, IsHoliday);
    CountPermutation(a, b, IsExtra);
  }

  // ---------------------------------------------------------------------------
  // Examples
  // ---------------------------------------------------------------------------

  const MicrosPerHour: int := 3_600_000_000

  /** Checked in at 09:00, out at 18:00: 540 minutes, 9.00 hours. */
  lemma NineToSix(d: Date)
    ensures var r := Record(d, Some(9 * MicrosPerHour), Some(18 * MicrosPerHour), "OFFICE", false, "");
      RecordMinutes(r) == 540 && Hours(TotalMinutes([r])) == 9.0 && IsActualDay(r) && IsOffice(r)
  {
    var r := Record(d, Some(9 * MicrosPerHour), Some(18 * MicrosPerHour), "OFFICE", false, "");
    assert TotalMinutes([r]) == 540;
    assert Upper("OFFICE") == "OFFICE";
    assert !Contains("HALF", "OFFICE");
    Round2OfHundredth(9.0);
  }

  /** Checked out before checking in: the record adds no minutes, but is still an actual work day. */
  lemma CheckOutBeforeCheckIn(d: Date)
    ensures var r := Record(d, Some(18 * MicrosPerHour), Some(9 * MicrosPerHour), "", false, "");
      RecordMinutes(r) == 0 && IsActualDay(r)
  {
    assert Upper("") == "";
  }

  lemma UpperHalf()
    ensures Upper("half") == "HALF"
  {
  }

  lemma UpperLeave()
    ensures Upper("_leave") == "_LEAVE"
  {
  }

  lemma UpperHalfLeave()
    ensures Upper("half_leave") == "HALF_LEAVE"
  {
    UpperHalf();
    UpperLeave();
    UpperAppend("half", "_leave");
    assert "half_leave" == "half" + "_leave";
    assert "HALF_LEAVE" == "HALF" + "_LEAVE";
  }

  lemma UpperAppend(a: string, b: string)
    ensures Upper(a + b) == Upper(a) + Upper(b)
  {
    assert forall i :: 0 <= i < |a + b| ==> Upper(a + b)[i] == (Upper(a) + Upper(b))[i];
  }

  lemma UpperOvertime()
    ensures Upper("Overtime") == "OVERTIME"
  {
  }

  lemma UpperSlashExtra()
    ensures Upper("/Extra") == "/EXTRA"
  {
  }

  lemma UpperOvertimeExtra()
    ensures Upper("Overtime/Extra") == "OVERTIME/EXTRA"
  {
    UpperOvertime();
    UpperSlashExtra();
    UpperAppend("Overtime", "/Extra");
    assert "Overtime/Extra" == "Overtime" + "/Extra";
    assert "OVERTIME/EXTRA" == "OVERTIME" + "/EXTRA";
  }

  /** What occurs in `b` occurs in any text that ends with `b`. */
  lemma {:induction false} ContainsInSuffix(needle: string, a: string, b: string)
    requires Contains(needle, b)
    ensures Contains(needle, a + b)
  {
    if a != [] {
      ContainsInSuffix(needle, a[1..], b);
      assert (a + b)[1..] == a[1..] + b;
    } else {
      assert a + b == b;
    }
  }

  lemma ExtraInStatus()
    ensures Contains("EXTRA", "OVERTIME/EXTRA")
  {
    assert "EXTRA" <= "EXTRA";
    ContainsInSuffix("EXTRA", "OVERTIME/", "EXTRA");
    assert "OVERTIME/EXTRA" == "OVERTIME/" + "EXTRA";
  }

  /**
   * The tallies overlap: a lower-case "half_leave" shift with status
   * "Overtime/Extra" is half leave, overtime and extra work at once, and is
   * not annual leave.
   */
  lemma TalliesOverlap(d: Date)
    ensures var r := Record(d, None, None, "half_leave", false, "Overtime/Extra");
      IsHalf(r) && !IsLeave(r) && IsOvertime(r) && IsExtra(r) && !IsActualDay(r)
  {
    var r := Record(d, None, None, "half_leave", false, "Overtime/Extra");
    UpperHalfLeave();
    UpperOvertimeExtra();
    assert Shift(r) == "HALF_LEAVE";
    assert Status(r) == "OVERTIME/EXTRA";
    assert IsHalf(r) by {
      assert "HALF" <= "HALF_LEAVE";
    }
    assert !IsLeave(r) by {
      assert |Shift(r)| != |"LEAVE"|;
    }
    assert IsOvertime(r) by {
      assert "OVERTIME" <= "OVERTIME/EXTRA";
    }
    ExtraInStatus();
  }
}
