/**
 * What the staff report's performance part promises, proved about the
 * specification of `_calc_project_performance`.
 */
module PerformanceProperties {
  import opened Wrappers
  import opened Truncation
  import opened Period
  import opened Score
  import opened Evaluations
  import opened KeyedRows
  import opened Performance

  // ---------------------------------------------------------------------------
  // Summary fields
  // ---------------------------------------------------------------------------

  /**
   * Whatever path the computation takes: the company count is the number of
   * company projects (0 without an evaluations table), the employee count is
   * the number of rows, the employee sums are the truncated sums over the
   * rows, and the share is derived from those sums.
   */
  lemma SummaryFields(schema: Schema, db: Database, uid: int, start: DateTime, end: DateTime)
    ensures var (s, rows) := StaffPerformance(schema, db, uid, start, end);
      s.companyProjectCount == (if schema.hasEvaluations then |CompanyProjectIds(schema, db, start, end)| else 0) &&
      s.employeeProjectCount == |rows| &&
      s.employeeProjectScoreSum == Trunc1(SumFinal(rows)) &&
      s.employeeAllocatedScoreSum == Trunc1(SumAlloc(rows)) &&
      s.employeeSharePercent == Share(SumAlloc(rows), SumFinal(rows))
  {
  }

  /** No evaluations table, or no company project in the period: all zero, no rows. */
  lemma NoCompanyProjects(schema: Schema, db: Database, uid: int, start: DateTime, end: DateTime)
    requires !schema.hasEvaluations || CompanyProjectIds(schema, db, start, end) == []
    ensures StaffPerformance(schema, db, uid, start, end) == (EmptySummary, [])
  {
  }

  /** An employee with no evaluation in the period gets company figures only and no rows. */
  lemma NoEmployeeEvaluations(schema: Schema, db: Database, uid: int, start: DateTime, end: DateTime)
    requires forall e :: e in db.evaluations ==> !(e.userId == uid && InRange(e.createdAt, start, end))
    ensures var (s, rows) := StaffPerformance(schema, db, uid, start, end);
      rows == [] && s.employeeProjectCount == 0 && s.employeeProjectScoreSum == 0.0 &&
      s.employeeAllocatedScoreSum == 0.0 && s.employeeSharePercent == 0.0
  {
    LatestPerProjectEmpty(db.evaluations, uid, start, end);
  }

  // ---------------------------------------------------------------------------
  // Rows
  // ---------------------------------------------------------------------------

  /**
   * One row: tagged SNAPSHOT exactly when the project has an active snapshot;
   * P is the frozen score then and the live score otherwise; the allocated
   * (and personal) score come from the employee's snapshot item when there is
   * one, and otherwise the allocation is (P / 10) * personal score, truncated.
   */
  lemma EmployeeRowRule(ue: Evaluation, base: FetchedRow, snaps: map<int, SnapRow>, items: map<int, ItemRow>)
    ensures var row := EmployeeRow(ue, base, snaps, items); var pid := ue.projectId;
      row.projectId == pid &&
      (row.scoreSource == Snapshot <==> pid in snaps) &&
      row.projectFinalScore == (if pid in snaps then snaps[pid].finalProjectScore else FinalScore(base)) &&
      (pid in snaps && pid in items ==>
        row.personalScore == items[pid].userEvalScore && row.allocatedScore == items[pid].convertedScore) &&
      (!(pid in snaps && pid in items) ==>
        row.personalScore == ue.score.GetOr(0.0) &&
        row.allocatedScore == Allocate(row.projectFinalScore, row.personalScore)) &&
      row.evaluatedAt == (if pid in snaps then snaps[pid].completedAt else Some(ue.createdAt))
  {
  }

  /**
   * Each row comes from one selected evaluation of a fetched project, and
   * there are no more rows than evaluations.
   */
  lemma {:induction false} EmployeeRowsOrigin(ues: seq<Evaluation>, all: map<int, FetchedRow>, snaps: map<int, SnapRow>, items: map<int, ItemRow>)
    ensures var rows := EmployeeRows(ues, all, snaps, items);
      |rows| <= |ues| &&
      forall i :: 0 <= i < |rows| ==>
        rows[i].projectId in all &&
        exists j :: 0 <= j < |ues| && ues[j].projectId == rows[i].projectId &&
          rows[i] == EmployeeRow(ues[j], all[ues[j].projectId], snaps, items)
  {
    if ues != [] {
      var prefix, ue := ues[..|ues| - 1], ues[|ues| - 1];
      EmployeeRowsOrigin(prefix, all, snaps, items);
      var prev := EmployeeRows(prefix, all, snaps, items);
      var rows := EmployeeRows(ues, all, snaps, items);
      forall i | 0 <= i < |rows|
        ensures rows[i].projectId in all
        ensures exists j :: (0 <= j < |ues| && ues[j].projectId == rows[i].projectId &&
          rows[i] == EmployeeRow(ues[j], all[ues[j].projectId], snaps, items))
      {
        if i < |prev| {
          var j :| 0 <= j < |prefix| && prefix[j].projectId == prev[i].projectId &&
            prev[i] == EmployeeRow(prefix[j], all[prefix[j].projectId], snaps, items);
          assert ues[j] == prefix[j];
        } else {
          assert rows[i] == EmployeeRow(ue, all[ue.projectId], snaps, items);
        }
      }
    }
  }

  /** Every selected evaluation of a fetched project has its row; one of a project not fetched has none. */
  lemma {:induction false} EmployeeRowsCover(ues: seq<Evaluation>, all: map<int, FetchedRow>, snaps: map<int, SnapRow>, items: map<int, ItemRow>)
    ensures forall j :: 0 <= j < |ues| && ues[j].projectId in all ==>
      exists i :: 0 <= i < |EmployeeRows(ues, all, snaps, items)| &&
        EmployeeRows(ues, all, snaps, items)[i].projectId == ues[j].projectId
  {
    if ues != [] {
      var prefix, ue := ues[..|ues| - 1], ues[|ues| - 1];
      EmployeeRowsCover(prefix, all, snaps, items);
      var prev := EmployeeRows(prefix, all, snaps, items);
      var rows := EmployeeRows(ues, all, snaps, items);
      assert rows == if ue.projectId in all then prev + [EmployeeRow(ue, all[ue.projectId], snaps, items)] else prev;
      forall j | 0 <= j < |ues| && ues[j].projectId in all
        ensures exists i :: 0 <= i < |rows| && rows[i].projectId == ues[j].projectId
      {
        if j < |prefix| {
          assert prefix[j] == ues[j];
          var i :| 0 <= i < |prev| && prev[i].projectId == prefix[j].projectId;
          assert rows[i] == prev[i];
          assert rows[i].projectId == ues[j].projectId;
        } else {
          assert ues[j] == ue;
          var k := |rows| - 1;
          assert rows[k] == EmployeeRow(ue, all[ue.projectId], snaps, items);
          assert rows[k].projectId == ues[j].projectId;
        }
      }
      assert forall j :: 0 <= j < |ues| && ues[j].projectId in all ==>
        exists i :: 0 <= i < |rows| && rows[i].projectId == ues[j].projectId;
      assert rows == EmployeeRows(ues, all, snaps, items);
      assert forall j :: 0 <= j < |ues| && ues[j].projectId in all ==>
        exists i :: 0 <= i < |EmployeeRows(ues, all, snaps, items)| &&
          EmployeeRows(ues, all, snaps, items)[i].projectId == ues[j].projectId;
    } else {
      assert |ues| == 0;
    }
  }

  /**
   * A row whose project has no snapshot item carries the score of its
   * selected evaluation and the allocation derived from it.
   */
  lemma EmployeeRowsEvaluationScore(ues: seq<Evaluation>, all: map<int, FetchedRow>, snaps: map<int, SnapRow>, items: map<int, ItemRow>, i: int)
    requires forall a, b :: 0 <= a < b < |ues| ==> ues[a].projectId < ues[b].projectId
    requires 0 <= i < |EmployeeRows(ues, all, snaps, items)|
    requires EmployeeRows(ues, all, snaps, items)[i].projectId !in items
    ensures var row := EmployeeRows(ues, all, snaps, items)[i];
      row.allocatedScore == Allocate(row.projectFinalScore, row.personalScore) &&
      forall e :: e in ues && e.projectId == row.projectId ==> row.personalScore == e.score.GetOr(0.0)
  {
    var rows := EmployeeRows(ues, all, snaps, items);
    EmployeeRowsOrigin(ues, all, snaps, items);
    var j :| 0 <= j < |ues| && ues[j].projectId == rows[i].projectId &&
      rows[i] == EmployeeRow(ues[j], all[ues[j].projectId], snaps, items);
    EmployeeRowRule(ues[j], all[ues[j].projectId], snaps, items);
    forall e | e in ues && e.projectId == rows[i].projectId ensures rows[i].personalScore == e.score.GetOr(0.0) {
      var k :| 0 <= k < |ues| && ues[k] == e;
    }
  }

  /** Rows keep the order of the evaluations, so they are in ascending project order. */
  lemma {:induction false} EmployeeRowsAscending(ues: seq<Evaluation>, all: map<int, FetchedRow>, snaps: map<int, SnapRow>, items: map<int, ItemRow>)
    requires forall i, j :: 0 <= i < j < |ues| ==> ues[i].projectId < ues[j].projectId
    ensures var rows := EmployeeRows(ues, all, snaps, items);
      forall i, j :: 0 <= i < j < |rows| ==> rows[i].projectId < rows[j].projectId
  {
    if ues != [] {
      var prefix, ue := ues[..|ues| - 1], ues[|ues| - 1];
      EmployeeRowsAscending(prefix, all, snaps, items);
      EmployeeRowsOrigin(prefix, all, snaps, items);
      var prev := EmployeeRows(prefix, all, snaps, items);
      if ue.projectId in all {
        var rows := EmployeeRows(ues, all, snaps, items);
        assert rows == prev + [EmployeeRow(ue, all[ue.projectId], snaps, items)];
        forall i | 0 <= i < |prev| ensures prev[i].projectId < ue.projectId {
          var j :| 0 <= j < |prefix| && prefix[j].projectId == prev[i].projectId &&
            prev[i] == EmployeeRow(prefix[j], all[prefix[j].projectId], snaps, items);
          assert prefix[j] == ues[j];
        }
        forall i, j | 0 <= i < j < |rows| ensures rows[i].projectId < rows[j].projectId {
          if j < |prev| {
            assert rows[i] == prev[i] && rows[j] == prev[j];
          } else {
            assert rows[i] == prev[i];
          }
        }
      }
    }
  }

  // ---------------------------------------------------------------------------
  // Snapshot versus live, in terms of the stored tables
  // ---------------------------------------------------------------------------

  /** The store's invariant: at most one active snapshot per project. */
  predicate AtMostOneActive(snapshots: seq<CompletionSnapshot>) {
    forall i, j :: 0 <= i < |snapshots| && 0 <= j < |snapshots| &&
      snapshots[i].isActive && snapshots[j].isActive &&
      snapshots[i].projectId == snapshots[j].projectId
      ==> i == j
  }

  /** A company project is in `snap_map` exactly when it has an active snapshot. */
  lemma SnapMapDomain(schema: Schema, db: Database, ids: seq<int>, pid: int)
    requires pid in ids
    ensures pid in SnapMap(schema, db, ids) <==>
      schema.hasSnapshots && exists s :: s in db.snapshots && s.isActive && s.projectId == pid
  {
    if schema.hasSnapshots {
      var rows := ActiveSnapshots(db.snapshots, ids);
      if exists s :: s in db.snapshots && s.isActive && s.projectId == pid {
        var s :| s in db.snapshots && s.isActive && s.projectId == pid;
        assert Selectable(s, ids);
        var i :| 0 <= i < |rows| && rows[i] == SnapRowOf(s);
        assert SnapKey(rows[i]) == pid;
      }
      if pid in SnapMap(schema, db, ids) {
        var i :| 0 <= i < |rows| && SnapKey(rows[i]) == pid;
        assert rows[i] in rows;
      }
    }
  }

  /** Under the one-active-snapshot invariant, `snap_map` holds that snapshot's score and time. */
  lemma SnapMapValue(schema: Schema, db: Database, ids: seq<int>, s: CompletionSnapshot)
    requires AtMostOneActive(db.snapshots)
    requires schema.hasSnapshots && s in db.snapshots && s.isActive && s.projectId in ids
    ensures s.projectId in SnapMap(schema, db, ids)
    ensures SnapMap(schema, db, ids)[s.projectId] == SnapRowOf(s)
  {
    SnapMapDomain(schema, db, ids, s.projectId);
    var m := SnapMap(schema, db, ids);
    var r := m[s.projectId];
    var t :| t in db.snapshots && Selectable(t, ids) && r == SnapRowOf(t);
    var i :| 0 <= i < |db.snapshots| && db.snapshots[i] == s;
    var j :| 0 <= j < |db.snapshots| && db.snapshots[j] == t;
  }

  /** An employee has at most one item per snapshot. */
  predicate OneItemPerEmployee(items: seq<SnapshotItem>) {
    forall i, j :: 0 <= i < |items| && 0 <= j < |items| &&
      items[i].snapshotId == items[j].snapshotId && items[i].userId == items[j].userId
      ==> i == j
  }

  /**
   * A project is in `item_map` exactly when both snapshot tables exist and
   * the employee has an item of an active snapshot of that company project.
   */
  lemma ItemMapDomain(schema: Schema, db: Database, ids: seq<int>, uid: int, pid: int)
    ensures pid in ItemMap(schema, db, ids, uid) <==>
      schema.hasSnapshots && schema.hasSnapshotItems &&
      exists it, s :: it in db.items && s in db.snapshots && it.userId == uid && Joins(it, s, ids) && s.projectId == pid
  {
    var rows := UserItems(db.items, db.snapshots, ids, uid);
    if pid in ItemMap(schema, db, ids, uid) {
      var i :| 0 <= i < |rows| && ItemKey(rows[i]) == pid;
      assert rows[i] in rows;
    }
    if schema.hasSnapshots && schema.hasSnapshotItems &&
      exists it, s :: it in db.items && s in db.snapshots && it.userId == uid && Joins(it, s, ids) && s.projectId == pid
    {
      var it, s :| it in db.items && s in db.snapshots && it.userId == uid && Joins(it, s, ids) && s.projectId == pid;
      SnapMapDomain(schema, db, ids, pid);
      var i :| 0 <= i < |rows| && rows[i] == ItemRowOf(it, s);
      assert ItemKey(rows[i]) == pid;
    }
  }

  /**
   * Under the one-active-snapshot and one-item-per-snapshot invariants,
   * `item_map` holds the employee's item of the project's active snapshot,
   * with NULL scores read as 0.
   */
  lemma ItemMapValue(schema: Schema, db: Database, ids: seq<int>, uid: int, it: SnapshotItem, s: CompletionSnapshot)
    requires AtMostOneActive(db.snapshots) && OneItemPerEmployee(db.items)
    requires schema.hasSnapshots && schema.hasSnapshotItems
    requires it in db.items && s in db.snapshots && it.userId == uid && Joins(it, s, ids)
    ensures s.projectId in ItemMap(schema, db, ids, uid)
    ensures ItemMap(schema, db, ids, uid)[s.projectId] == ItemRowOf(it, s)
  {
    ItemMapDomain(schema, db, ids, uid, s.projectId);
    var r := ItemMap(schema, db, ids, uid)[s.projectId];
    var it', s' :| it' in db.items && s' in db.snapshots && it'.userId == uid && Joins(it', s', ids) && r == ItemRowOf(it', s');
    var a :| 0 <= a < |db.snapshots| && db.snapshots[a] == s;
    var b :| 0 <= b < |db.snapshots| && db.snapshots[b] == s';
    assert s == s';
    var c :| 0 <= c < |db.items| && db.items[c] == it;
    var d :| 0 <= d < |db.items| && db.items[d] == it';
    assert it == it';
  }

  /** The fetched project under a company project's id is the stored one, read through the schema. */
  lemma FetchedProject(schema: Schema, db: Database, ids: seq<int>, p: StoredProject)
    requires UniqueProjectIds(db.projects)
    requires p in db.projects && p.id in ids
    ensures var all := LastWins(SelectProjects(db.projects, ids, schema.columns), RowKey);
      p.id in all && all[p.id] == FetchRow(p, schema.columns)
  {
    var fetched := SelectProjects(db.projects, ids, schema.columns);
    var all := LastWins(fetched, RowKey);
    var i :| 0 <= i < |fetched| && fetched[i] == FetchRow(p, schema.columns);
    assert RowKey(fetched[i]) == p.id;
    var q :| q in db.projects && q.id in ids && all[p.id] == FetchRow(q, schema.columns);
    var a :| 0 <= a < |db.projects| && db.projects[a] == p;
    var b :| 0 <= b < |db.projects| && db.projects[b] == q;
  }

  /** Exactly the company projects present in `projects` are fetched. */
  lemma FetchedDomain(schema: Schema, db: Database, ids: seq<int>, pid: int)
    ensures pid in LastWins(SelectProjects(db.projects, ids, schema.columns), RowKey) <==>
      pid in ids && exists p :: p in db.projects && p.id == pid
  {
    var fetched := SelectProjects(db.projects, ids, schema.columns);
    if pid in LastWins(fetched, RowKey) {
      var i :| 0 <= i < |fetched| && RowKey(fetched[i]) == pid;
      assert fetched[i] in fetched;
    }
    if pid in ids && exists p :: p in db.projects && p.id == pid {
      var p :| p in db.projects && p.id == pid;
      var i :| 0 <= i < |fetched| && fetched[i] == FetchRow(p, schema.columns);
      assert RowKey(fetched[i]) == pid;
    }
  }

  /**
   * A project's P in the report: with an active snapshot it is that
   * snapshot's stored score whatever the project's components are now;
   * without one it is the live score of the stored project under this
   * deployment's columns.
   */
  lemma ResolvedScoreOfStored(schema: Schema, db: Database, ids: seq<int>, p: StoredProject)
    requires UniqueProjectIds(db.projects) && AtMostOneActive(db.snapshots)
    requires p in db.projects && p.id in ids
    ensures var all := LastWins(SelectProjects(db.projects, ids, schema.columns), RowKey);
      p.id in all &&
      ResolvedScore(all[p.id], SnapMap(schema, db, ids)) ==
        if schema.hasSnapshots && exists s :: s in db.snapshots && s.isActive && s.projectId == p.id
        then (var s :| s in db.snapshots && s.isActive && s.projectId == p.id; s.finalProjectScore.GetOr(0.0))
        else FinalScore(FetchRow(p, schema.columns))
  {
    FetchedProject(schema, db, ids, p);
    SnapMapDomain(schema, db, ids, p.id);
    if schema.hasSnapshots && exists s :: s in db.snapshots && s.isActive && s.projectId == p.id {
      var s :| s in db.snapshots && s.isActive && s.projectId == p.id;
      SnapMapValue(schema, db, ids, s);
    }
  }

  /** Where the rows come from: with an employee evaluation in the period, the rows are built over the selected evaluations. */
  lemma StaffRowsAre(schema: Schema, db: Database, uid: int, start: DateTime, end: DateTime)
    requires schema.hasEvaluations
    ensures var ids := CompanyProjectIds(schema, db, start, end);
      StaffPerformance(schema, db, uid, start, end).1 ==
        if ids == [] then []
        else EmployeeRows(LatestPerProject(db.evaluations, uid, start, end),
          LastWins(SelectProjects(db.projects, ids, schema.columns), RowKey),
          SnapMap(schema, db, ids), ItemMap(schema, db, ids, uid))
  {
  }

  /** The report's rows are in ascending project order. */
  lemma StaffRowsAscending(schema: Schema, db: Database, uid: int, start: DateTime, end: DateTime)
    ensures var rows := StaffPerformance(schema, db, uid, start, end).1;
      forall i, j :: 0 <= i < j < |rows| ==> rows[i].projectId < rows[j].projectId
  {
    if schema.hasEvaluations {
      var ids := CompanyProjectIds(schema, db, start, end);
      StaffRowsAre(schema, db, uid, start, end);
      if ids != [] {
        LatestPerProjectAscending(db.evaluations, uid, start, end);
        EmployeeRowsAscending(LatestPerProject(db.evaluations, uid, start, end),
          LastWins(SelectProjects(db.projects, ids, schema.columns), RowKey),
          SnapMap(schema, db, ids), ItemMap(schema, db, ids, uid));
      }
    }
  }

  /**
   * Each row of the report is a company project present in `projects` that
   * the employee evaluated in the period, tagged SNAPSHOT exactly when the
   * project has an active snapshot.
   */
  lemma StaffRowOrigin(schema: Schema, db: Database, uid: int, start: DateTime, end: DateTime, i: int)
    requires var rows := StaffPerformance(schema, db, uid, start, end).1; 0 <= i < |rows|
    ensures var row := StaffPerformance(schema, db, uid, start, end).1[i];
      schema.hasEvaluations &&
      row.projectId in CompanyProjectIds(schema, db, start, end) &&
      (exists p :: p in db.projects && p.id == row.projectId) &&
      (exists e :: e in db.evaluations && e.userId == uid && InRange(e.createdAt, start, end) &&
        e.projectId == row.projectId) &&
      (row.scoreSource == Snapshot <==>
        schema.hasSnapshots && exists s :: s in db.snapshots && s.isActive && s.projectId == row.projectId)
  {
    var ids := CompanyProjectIds(schema, db, start, end);
    StaffRowsAre(schema, db, uid, start, end);
    var all := LastWins(SelectProjects(db.projects, ids, schema.columns), RowKey);
    var snaps := SnapMap(schema, db, ids);
    var items := ItemMap(schema, db, ids, uid);
    var ues := LatestPerProject(db.evaluations, uid, start, end);
    var rows := EmployeeRows(ues, all, snaps, items);
    EmployeeRowsOrigin(ues, all, snaps, items);
    LatestPerProjectSpec(db.evaluations, uid, start, end);
    var pid := rows[i].projectId;
    FetchedDomain(schema, db, ids, pid);
    var j :| 0 <= j < |ues| && ues[j].projectId == pid &&
      rows[i] == EmployeeRow(ues[j], all[ues[j].projectId], snaps, items);
    EmployeeRowRule(ues[j], all[pid], snaps, items);
    assert ues[j] in db.evaluations;
    SnapMapDomain(schema, db, ids, pid);
  }

  /**
   * Every company project present in `projects` that the employee evaluated
   * in the period has its row.
   */
  lemma StaffRowsCover(schema: Schema, db: Database, uid: int, start: DateTime, end: DateTime, e: Evaluation)
    requires schema.hasEvaluations
    requires e in db.evaluations && e.userId == uid && InRange(e.createdAt, start, end)
    requires e.projectId in CompanyProjectIds(schema, db, start, end)
    requires exists p :: p in db.projects && p.id == e.projectId
    ensures var rows := StaffPerformance(schema, db, uid, start, end).1;
      exists i :: 0 <= i < |rows| && rows[i].projectId == e.projectId
  {
    var ids := CompanyProjectIds(schema, db, start, end);
    StaffRowsAre(schema, db, uid, start, end);
    var all := LastWins(SelectProjects(db.projects, ids, schema.columns), RowKey);
    var ues := LatestPerProject(db.evaluations, uid, start, end);
    LatestPerProjectSpec(db.evaluations, uid, start, end);
    EmployeeRowsCover(ues, all, SnapMap(schema, db, ids), ItemMap(schema, db, ids, uid));
    FetchedDomain(schema, db, ids, e.projectId);
    var j :| 0 <= j < |ues| && ues[j].projectId == e.projectId;
  }

  /** The selected evaluation a row of the report was built from. */
  lemma StaffRowSource(schema: Schema, db: Database, uid: int, start: DateTime, end: DateTime, i: int) returns (j: int)
    requires 0 <= i < |StaffPerformance(schema, db, uid, start, end).1|
    ensures var ids := CompanyProjectIds(schema, db, start, end);
      var ues := LatestPerProject(db.evaluations, uid, start, end);
      var all := LastWins(SelectProjects(db.projects, ids, schema.columns), RowKey);
      var row := StaffPerformance(schema, db, uid, start, end).1[i];
      schema.hasEvaluations && row.projectId in ids && row.projectId in all &&
      0 <= j < |ues| && ues[j].projectId == row.projectId &&
      row == EmployeeRow(ues[j], all[row.projectId], SnapMap(schema, db, ids), ItemMap(schema, db, ids, uid))
  {
    var ids := CompanyProjectIds(schema, db, start, end);
    StaffRowsAre(schema, db, uid, start, end);
    var all := LastWins(SelectProjects(db.projects, ids, schema.columns), RowKey);
    var snaps := SnapMap(schema, db, ids);
    var items := ItemMap(schema, db, ids, uid);
    var ues := LatestPerProject(db.evaluations, uid, start, end);
    var rows := EmployeeRows(ues, all, snaps, items);
    EmployeeRowsOrigin(ues, all, snaps, items);
    FetchedDomain(schema, db, ids, rows[i].projectId);
    j :| 0 <= j < |ues| && ues[j].projectId == rows[i].projectId &&
      rows[i] == EmployeeRow(ues[j], all[ues[j].projectId], snaps, items);
  }

  /**
   * A row's P in terms of the stored tables: the score (NULL as 0) and the
   * completion time of the project's active snapshot when it has one, and
   * otherwise the live score of the stored project under this deployment's
   * columns.
   */
  lemma StaffRowProjectScore(schema: Schema, db: Database, uid: int, start: DateTime, end: DateTime, i: int)
    requires UniqueProjectIds(db.projects) && AtMostOneActive(db.snapshots)
    requires 0 <= i < |StaffPerformance(schema, db, uid, start, end).1|
    ensures var row := StaffPerformance(schema, db, uid, start, end).1[i];
      (forall s :: schema.hasSnapshots && s in db.snapshots && s.isActive && s.projectId == row.projectId ==>
        row.projectFinalScore == s.finalProjectScore.GetOr(0.0) && row.evaluatedAt == s.completedAt) &&
      (forall p :: row.scoreSource == Live && p in db.projects && p.id == row.projectId ==>
        row.projectFinalScore == FinalScore(FetchRow(p, schema.columns)))
  {
    var j := StaffRowSource(schema, db, uid, start, end, i);
    var ids := CompanyProjectIds(schema, db, start, end);
    var all := LastWins(SelectProjects(db.projects, ids, schema.columns), RowKey);
    var ues := LatestPerProject(db.evaluations, uid, start, end);
    var row := StaffPerformance(schema, db, uid, start, end).1[i];
    EmployeeRowRule(ues[j], all[row.projectId], SnapMap(schema, db, ids), ItemMap(schema, db, ids, uid));
    forall s | schema.hasSnapshots && s in db.snapshots && s.isActive && s.projectId == row.projectId
      ensures row.projectFinalScore == s.finalProjectScore.GetOr(0.0) && row.evaluatedAt == s.completedAt
    {
      SnapMapValue(schema, db, ids, s);
    }
    forall p | row.scoreSource == Live && p in db.projects && p.id == row.projectId
      ensures row.projectFinalScore == FinalScore(FetchRow(p, schema.columns))
    {
      FetchedProject(schema, db, ids, p);
    }
  }

  /**
   * A row shows the stored project's name, or "#" followed by its id when
   * that name is NULL or empty.
   */
  lemma StaffRowName(schema: Schema, db: Database, uid: int, start: DateTime, end: DateTime, i: int)
    requires UniqueProjectIds(db.projects)
    requires 0 <= i < |StaffPerformance(schema, db, uid, start, end).1|
    ensures var row := StaffPerformance(schema, db, uid, start, end).1[i];
      forall p :: p in db.projects && p.id == row.projectId ==> row.projectName == ProjectName(p.name, p.id)
  {
    var j := StaffRowSource(schema, db, uid, start, end, i);
    var ids := CompanyProjectIds(schema, db, start, end);
    var row := StaffPerformance(schema, db, uid, start, end).1[i];
    forall p | p in db.projects && p.id == row.projectId ensures row.projectName == ProjectName(p.name, p.id) {
      FetchedProject(schema, db, ids, p);
    }
  }

  /**
   * A row's personal and allocated scores when the employee has an item of
   * the project's active snapshot: that item's scores, NULL read as 0.
   */
  lemma StaffRowItemScores(schema: Schema, db: Database, uid: int, start: DateTime, end: DateTime, i: int)
    requires AtMostOneActive(db.snapshots) && OneItemPerEmployee(db.items)
    requires 0 <= i < |StaffPerformance(schema, db, uid, start, end).1|
    ensures var row := StaffPerformance(schema, db, uid, start, end).1[i];
      forall it, s ::
        schema.hasSnapshots && schema.hasSnapshotItems && it in db.items && it.userId == uid &&
        s in db.snapshots && s.id == it.snapshotId && s.isActive && s.projectId == row.projectId ==>
          row.personalScore == it.userEvalScore.GetOr(0.0) && row.allocatedScore == it.convertedScore.GetOr(0.0)
  {
    var j := StaffRowSource(schema, db, uid, start, end, i);
    var ids := CompanyProjectIds(schema, db, start, end);
    var all := LastWins(SelectProjects(db.projects, ids, schema.columns), RowKey);
    var ues := LatestPerProject(db.evaluations, uid, start, end);
    var row := StaffPerformance(schema, db, uid, start, end).1[i];
    var pid := row.projectId;
    EmployeeRowRule(ues[j], all[pid], SnapMap(schema, db, ids), ItemMap(schema, db, ids, uid));
    forall it, s |
      schema.hasSnapshots && schema.hasSnapshotItems && it in db.items && it.userId == uid &&
      s in db.snapshots && s.id == it.snapshotId && s.isActive && s.projectId == pid
      ensures row.personalScore == it.userEvalScore.GetOr(0.0) && row.allocatedScore == it.convertedScore.GetOr(0.0)
    {
      assert Joins(it, s, ids);
      SnapMapDomain(schema, db, ids, pid);
      ItemMapValue(schema, db, ids, uid, it, s);
    }
  }

  /**
   * A row's personal and allocated scores when the employee has no item of
   * the project's active snapshot: the score of the selected evaluation
   * (NULL as 0), and the allocation (P / 10) * score, truncated.
   */
  lemma StaffRowEvaluationScores(schema: Schema, db: Database, uid: int, start: DateTime, end: DateTime, i: int)
    requires 0 <= i < |StaffPerformance(schema, db, uid, start, end).1|
    requires !schema.hasSnapshots || !schema.hasSnapshotItems ||
      forall it, s :: it in db.items && it.userId == uid && s in db.snapshots && s.id == it.snapshotId && s.isActive ==>
        s.projectId != StaffPerformance(schema, db, uid, start, end).1[i].projectId
    ensures var row := StaffPerformance(schema, db, uid, start, end).1[i];
      row.allocatedScore == Allocate(row.projectFinalScore, row.personalScore) &&
      forall e :: e in LatestPerProject(db.evaluations, uid, start, end) && e.projectId == row.projectId ==>
        row.personalScore == e.score.GetOr(0.0)
  {
    var j := StaffRowSource(schema, db, uid, start, end, i);
    var ids := CompanyProjectIds(schema, db, start, end);
    var all := LastWins(SelectProjects(db.projects, ids, schema.columns), RowKey);
    var ues := LatestPerProject(db.evaluations, uid, start, end);
    var items := ItemMap(schema, db, ids, uid);
    StaffRowsAre(schema, db, uid, start, end);
    var rows := EmployeeRows(ues, all, SnapMap(schema, db, ids), items);
    var pid := rows[i].projectId;
    ItemMapDomain(schema, db, ids, uid, pid);
    LatestPerProjectAscending(db.evaluations, uid, start, end);
    EmployeeRowsEvaluationScore(ues, all, SnapMap(schema, db, ids), items, i);
  }

  // ---------------------------------------------------------------------------
  // The company sum and the share
  // ---------------------------------------------------------------------------

  /**
   * The company score sum adds up P once for each company project present in
   * `projects`, and truncates the total.
   */
  lemma CompanySumRange(schema: Schema, db: Database, uid: int, start: DateTime, end: DateTime)
    requires schema.hasEvaluations && CompanyProjectIds(schema, db, start, end) != []
    ensures var ids := CompanyProjectIds(schema, db, start, end);
      var fetched := SelectProjects(db.projects, ids, schema.columns);
      var keys := FirstSeen(fetched, RowKey);
      var all := LastWins(fetched, RowKey);
      Distinct(keys) &&
      (forall k :: k in keys <==> k in ids && exists p :: p in db.projects && p.id == k) &&
      StaffPerformance(schema, db, uid, start, end).0.companyProjectScoreSum ==
        Trunc1(CompanySum(keys, all, SnapMap(schema, db, ids)))
  {
    var ids := CompanyProjectIds(schema, db, start, end);
    forall k ensures k in FirstSeen(SelectProjects(db.projects, ids, schema.columns), RowKey) <==>
      k in ids && exists p :: p in db.projects && p.id == k {
      FetchedDomain(schema, db, ids, k);
    }
  }

  /** With no active snapshot among them, the company sum is the sum of live scores. */
  lemma {:induction false} CompanySumLive(keys: seq<int>, all: map<int, FetchedRow>, snaps: map<int, SnapRow>)
    requires forall i :: 0 <= i < |keys| ==> keys[i] in all && all[keys[i]].id !in snaps
    ensures CompanySum(keys, all, snaps) == CompanySum(keys, all, map[])
  {
    if keys != [] {
      CompanySumLive(keys[..|keys| - 1], all, snaps);
    }
  }

  /** A live allocation from a non-negative P and a 0-10 personal score lies between 0 and P. */
  lemma AllocateBounds(p: real, score: real)
    requires 0.0 <= p && 0.0 <= score <= 10.0
    ensures 0.0 <= Allocate(p, score) <= p
  {
    var x := (p / 10.0) * score;
    assert x <= (p / 10.0) * 10.0;
    Trunc1OfTenth(0.0);
    Trunc1Monotone(x, p);
    Trunc1Monotone(0.0, x);
    assert Trunc1(p) <= p;
  }

  /** Allocations between 0 and P, row by row, add up to between 0 and the P sum. */
  lemma {:induction false} SumsBounded(rows: seq<ProjectRow>)
    requires forall i :: 0 <= i < |rows| ==> 0.0 <= rows[i].allocatedScore <= rows[i].projectFinalScore
    ensures 0.0 <= SumAlloc(rows) <= SumFinal(rows)
  {
    if rows != [] {
      SumsBounded(rows[..|rows| - 1]);
    }
  }

  /**
   * When every row's allocation lies between 0 and its P, the share percent
   * lies between 0 and 100; it is 0 whenever the P sum is not positive.
   */
  lemma ShareInRange(schema: Schema, db: Database, uid: int, start: DateTime, end: DateTime)
    ensures var (s, rows) := StaffPerformance(schema, db, uid, start, end);
      (SumFinal(rows) <= 0.0 ==> s.employeeSharePercent == 0.0) &&
      ((forall i :: 0 <= i < |rows| ==> 0.0 <= rows[i].allocatedScore <= rows[i].projectFinalScore) ==>
        0.0 <= s.employeeSharePercent <= 100.0)
  {
    var (s, rows) := StaffPerformance(schema, db, uid, start, end);
    SummaryFields(schema, db, uid, start, end);
    if forall i :: 0 <= i < |rows| ==> 0.0 <= rows[i].allocatedScore <= rows[i].projectFinalScore {
      SumsBounded(rows);
    }
  }
}
