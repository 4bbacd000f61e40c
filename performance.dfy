/**
 * The performance part of the staff report: the company's projects for a
 * period and their scores, and the employee's share of them. A project's
 * score P is frozen in its active completion snapshot when it has one and
 * computed live from its components otherwise; every employee row says which.
 */
module Performance {
  import opened Wrappers
  import opened Truncation
  import opened Decimal
  import opened Period
  import opened Score
  import opened Evaluations
  import opened KeyedRows

  // ---------------------------------------------------------------------------
  // Stored rows and what the schema probes find
  // ---------------------------------------------------------------------------

  /** A row of `project_completion_snapshots`. */
  datatype CompletionSnapshot = CompletionSnapshot(
    id: int, projectId: int, finalProjectScore: Option<real>, completedAt: Option<DateTime>, isActive: bool)

  /** A row of `project_completion_snapshot_items`: one employee's part of a snapshot. */
  datatype SnapshotItem = SnapshotItem(
    snapshotId: int, userId: int, userEvalScore: Option<real>, convertedScore: Option<real>)

  /**
   * The deployment's schema: which tables exist, whether `projects` has
   * `completed_at`, and which optional `projects` columns it has.
   */
  datatype Schema = Schema(
    hasEvaluations: bool, hasSnapshots: bool, hasSnapshotItems: bool,
    hasCompletedAt: bool, columns: set<Column>)

  datatype Database = Database(
    projects: seq<StoredProject>, evaluations: seq<Evaluation>,
    snapshots: seq<CompletionSnapshot>, items: seq<SnapshotItem>)

  /** A row of the active-snapshot query, its score passed through COALESCE. */
  datatype SnapRow = SnapRow(projectId: int, finalProjectScore: real, completedAt: Option<DateTime>)

  /** A row of the employee's snapshot-item query, both scores passed through COALESCE. */
  datatype ItemRow = ItemRow(projectId: int, userEvalScore: real, convertedScore: real)

  /** The `score_source` of a row: "SNAPSHOT" or "LIVE". */
  datatype ScoreSource = Snapshot | Live

  datatype ProjectRow = ProjectRow(
    projectId: int, projectName: string, evaluatedAt: Option<DateTime>,
    projectFinalScore: real, personalScore: real, allocatedScore: real, scoreSource: ScoreSource)

  datatype PerformanceSummary = PerformanceSummary(
    companyProjectCount: nat, companyProjectScoreSum: real,
    employeeProjectCount: nat, employeeProjectScoreSum: real,
    employeeAllocatedScoreSum: real, employeeSharePercent: real)

  /** `PerformanceSummary()`: every field 0. */
  const EmptySummary := PerformanceSummary(0, 0.0, 0, 0.0, 0.0, 0.0)

  // ---------------------------------------------------------------------------
  // The queries
  // ---------------------------------------------------------------------------

  /** `projects.id` is the primary key. */
  predicate UniqueProjectIds(projects: seq<StoredProject>) {
    forall i, j :: 0 <= i < |projects| && 0 <= j < |projects| && projects[i].id == projects[j].id ==> i == j
  }

  /**
   * `SELECT p.id FROM projects p WHERE p.completed_at >= :s AND p.completed_at < :e`:
   * the ids of the projects completed in the period, each once when ids are unique.
   */
  function CompletedIn(projects: seq<StoredProject>, start: DateTime, end: DateTime): (ids: seq<int>)
    ensures forall k :: k in ids <==> exists p :: p in projects && p.id == k && CompletedInPeriod(p, start, end)
    ensures UniqueProjectIds(projects) ==> Distinct(ids)
  {
    if projects == [] then []
    else
      var rest := CompletedIn(projects[1..], start, end);
      assert forall p :: p in projects <==> p == projects[0] || p in projects[1..];
      UniqueTail(projects);
      assert UniqueProjectIds(projects) ==> projects[0].id !in rest;
      if CompletedInPeriod(projects[0], start, end) then
        var ids := [projects[0].id] + rest;
        assert forall i :: 0 < i < |ids| ==> ids[i] == rest[i - 1];
        ids
      else rest
  }

  /** With unique ids, the rest of the table has unique ids, none of them the first row's. */
  lemma UniqueTail(projects: seq<StoredProject>)
    requires projects != []
    ensures UniqueProjectIds(projects) ==>
      UniqueProjectIds(projects[1..]) && forall p :: p in projects[1..] ==> p.id != projects[0].id
  {
    if UniqueProjectIds(projects) {
      forall i, j | 0 <= i < |projects[1..]| && 0 <= j < |projects[1..]| && projects[1..][i].id == projects[1..][j].id
        ensures i == j
      {
        assert projects[i + 1].id == projects[j + 1].id;
      }
      forall p | p in projects[1..] ensures p.id != projects[0].id {
        var i :| 0 <= i < |projects[1..]| && projects[1..][i] == p;
        assert projects[i + 1] == p;
      }
    }
  }

  predicate CompletedInPeriod(p: StoredProject, start: DateTime, end: DateTime) {
    p.completedAt.Some? && InRange(p.completedAt.value, start, end)
  }

  /**
   * Step 1, the company's projects for the period: those completed in it when
   * `projects.completed_at` exists, otherwise the distinct projects evaluated
   * (by anyone) in it.
   */
  function CompanyProjectIds(schema: Schema, db: Database, start: DateTime, end: DateTime): (ids: seq<int>)
    ensures schema.hasCompletedAt ==> forall k :: k in ids <==>
      exists p :: p in db.projects && p.id == k && CompletedInPeriod(p, start, end)
    ensures !schema.hasCompletedAt ==> forall k :: k in ids <==>
      exists e :: e in db.evaluations && InRange(e.createdAt, start, end) && e.projectId == k
    ensures !schema.hasCompletedAt || UniqueProjectIds(db.projects) ==> Distinct(ids)
  {
    if schema.hasCompletedAt then CompletedIn(db.projects, start, end)
    else ProjectIds(Filter(db.evaluations, (e: Evaluation) => InRange(e.createdAt, start, end)))
  }

  /** The project query: `... FROM projects p WHERE p.id = ANY(:ids)`. */
  function SelectProjects(projects: seq<StoredProject>, ids: seq<int>, columns: set<Column>): (rows: seq<FetchedRow>)
    ensures forall r :: r in rows ==> exists p :: p in projects && p.id in ids && r == FetchRow(p, columns)
    ensures forall p :: p in projects && p.id in ids ==> FetchRow(p, columns) in rows
  {
    if projects == [] then []
    else
      var rest := SelectProjects(projects[1..], ids, columns);
      assert forall p :: p in projects <==> p == projects[0] || p in projects[1..];
      if projects[0].id in ids then [FetchRow(projects[0], columns)] + rest else rest
  }

  /** The row the active-snapshot query returns for a snapshot. */
  function SnapRowOf(s: CompletionSnapshot): SnapRow {
    SnapRow(s.projectId, s.finalProjectScore.GetOr(0.0), s.completedAt)
  }

  predicate Selectable(s: CompletionSnapshot, ids: seq<int>) {
    s.isActive && s.projectId in ids
  }

  /** `... FROM project_completion_snapshots WHERE is_active = true AND project_id = ANY(:ids)`. */
  function ActiveSnapshots(snapshots: seq<CompletionSnapshot>, ids: seq<int>): (rows: seq<SnapRow>)
    ensures forall r :: r in rows ==> exists s :: s in snapshots && Selectable(s, ids) && r == SnapRowOf(s)
    ensures forall s :: s in snapshots && Selectable(s, ids) ==> SnapRowOf(s) in rows
  {
    if snapshots == [] then []
    else
      var rest := ActiveSnapshots(snapshots[1..], ids);
      assert forall t :: t in snapshots <==> t == snapshots[0] || t in snapshots[1..];
      if Selectable(snapshots[0], ids) then [SnapRowOf(snapshots[0])] + rest else rest
  }

  /** An item joins a snapshot it names when that snapshot is an active one of a company project. */
  predicate Joins(item: SnapshotItem, s: CompletionSnapshot, ids: seq<int>) {
    s.id == item.snapshotId && s.isActive && s.projectId in ids
  }

  /** The row the item query returns for a joined pair, both scores passed through COALESCE. */
  function ItemRowOf(item: SnapshotItem, s: CompletionSnapshot): ItemRow {
    ItemRow(s.projectId, item.userEvalScore.GetOr(0.0), item.convertedScore.GetOr(0.0))
  }

  /** The item rows one item contributes to the join: one per snapshot it joins. */
  function ItemJoin(item: SnapshotItem, snapshots: seq<CompletionSnapshot>, ids: seq<int>): (rows: seq<ItemRow>)
    ensures forall r :: r in rows <==> exists s :: s in snapshots && Joins(item, s, ids) && r == ItemRowOf(item, s)
  {
    if snapshots == [] then []
    else
      var rest := ItemJoin(item, snapshots[1..], ids);
      assert forall t :: t in snapshots <==> t == snapshots[0] || t in snapshots[1..];
      (if Joins(item, snapshots[0], ids) then [ItemRowOf(item, snapshots[0])] else []) + rest
  }

  /**
   * `... FROM project_completion_snapshot_items psi JOIN
   * project_completion_snapshots pcs ON pcs.id = psi.snapshot_id WHERE
   * pcs.is_active AND pcs.project_id = ANY(:ids) AND psi.user_id = :uid`:
   * one row for each of the employee's items and each snapshot it joins.
   */
  function UserItems(items: seq<SnapshotItem>, snapshots: seq<CompletionSnapshot>, ids: seq<int>, uid: int): (rows: seq<ItemRow>)
    ensures forall r :: r in rows ==>
      exists it, s :: it in items && s in snapshots && it.userId == uid && Joins(it, s, ids) && r == ItemRowOf(it, s)
    ensures forall it, s :: it in items && s in snapshots && it.userId == uid && Joins(it, s, ids) ==>
      ItemRowOf(it, s) in rows
  {
    if items == [] then []
    else
      var here := if items[0].userId == uid then ItemJoin(items[0], snapshots, ids) else [];
      var rest := UserItems(items[1..], snapshots, ids, uid);
      assert forall it :: it in items <==> it == items[0] || it in items[1..];
      here + rest
  }

  function RowKey(r: FetchedRow): int { r.id }
  function SnapKey(r: SnapRow): int { r.projectId }
  function ItemKey(r: ItemRow): int { r.projectId }

  // ---------------------------------------------------------------------------
  // Resolving P, building rows, adding up
  // ---------------------------------------------------------------------------

  /** P of a fetched project: its active snapshot's frozen score if any, its live score otherwise. */
  function ResolvedScore(row: FetchedRow, snaps: map<int, SnapRow>): real {
    if row.id in snaps then snaps[row.id].finalProjectScore else FinalScore(row)
  }

  /** `company_P_sum`: P added up over the fetched projects, in `keys` order. */
  function CompanySum(keys: seq<int>, all: map<int, FetchedRow>, snaps: map<int, SnapRow>): real
    requires forall i :: 0 <= i < |keys| ==> keys[i] in all
  {
    if keys == [] then 0.0
    else
      CompanySum(keys[..|keys| - 1], all, snaps) + ResolvedScore(all[keys[|keys| - 1]], snaps)
  }

  /** `str(base.get("name") or f"#{pid}")`: a missing or empty name becomes "#" and the id. */
  function ProjectName(name: Option<string>, pid: int): (s: string)
    ensures |s| > 0
    ensures name.Some? && name.value != "" ==> s == name.value
    ensures !(name.Some? && name.value != "") ==>
      |s| > 1 && s[0] == '#' && (pid >= 0 ==> ParseInt(s[1..]).Some? && ParseInt(s[1..]).value == pid) &&
      (pid < 0 ==> |s| > 2 && s[1] == '-' && ParseInt(s[2..]).Some? && ParseInt(s[2..]).value == -pid) &&
      (pid >= 0 && |s| > 2 ==> s[1] != '0') && (pid < 0 && |s| > 3 ==> s[2] != '0')
  {
    if name.Some? && name.value != "" then name.value
    else
      var s := "#" + IntToString(pid);
      assert s[1..] == IntToString(pid);
      assert pid < 0 ==> s[2..] == IntToString(pid)[1..];
      s
  }

  /** The allocated score derived from P and a 0-10 personal score: (P / 10) * score, truncated. */
  function Allocate(p: real, score: real): real {
    Trunc1((p / 10.0) * score)
  }

  /** The row for one selected evaluation of a fetched project. */
  function EmployeeRow(ue: Evaluation, base: FetchedRow, snaps: map<int, SnapRow>, items: map<int, ItemRow>): ProjectRow {
    var pid := ue.projectId;
    if pid in snaps then
      var p := snaps[pid].finalProjectScore;
      var score := if pid in items then items[pid].userEvalScore else ue.score.GetOr(0.0);
      var alloc := if pid in items then items[pid].convertedScore else Allocate(p, score);
      ProjectRow(pid, ProjectName(base.name, pid), snaps[pid].completedAt, p, score, alloc, Snapshot)
    else
      var p := FinalScore(base);
      var score := ue.score.GetOr(0.0);
      ProjectRow(pid, ProjectName(base.name, pid), Some(ue.createdAt), p, score, Allocate(p, score), Live)
  }

  /** `projects_out`: one row per selected evaluation whose project was fetched. */
  function EmployeeRows(ues: seq<Evaluation>, all: map<int, FetchedRow>, snaps: map<int, SnapRow>, items: map<int, ItemRow>): seq<ProjectRow> {
    if ues == [] then []
    else
      var rows := EmployeeRows(ues[..|ues| - 1], all, snaps, items);
      var ue := ues[|ues| - 1];
      if ue.projectId in all then rows + [EmployeeRow(ue, all[ue.projectId], snaps, items)] else rows
  }

  /** `emp_score_sum`. */
  function SumFinal(rows: seq<ProjectRow>): real {
    if rows == [] then 0.0 else SumFinal(rows[..|rows| - 1]) + rows[|rows| - 1].projectFinalScore
  }

  /** `alloc_sum`. */
  function SumAlloc(rows: seq<ProjectRow>): real {
    if rows == [] then 0.0 else SumAlloc(rows[..|rows| - 1]) + rows[|rows| - 1].allocatedScore
  }

  /**
   * `employee_share_percent`: 0 when the employee's P sum is not positive,
   * otherwise alloc / emp * 100 truncated; between 0 and 100 whenever the
   * allocations lie between 0 and the P sum.
   */
  function Share(alloc: real, emp: real): (r: real)
    ensures emp <= 0.0 ==> r == 0.0
    ensures emp > 0.0 ==> IsTenth(r)
    ensures emp > 0.0 && 0.0 <= alloc ==> 0.0 <= r <= (alloc / emp) * 100.0 < r + 0.1
    ensures emp > 0.0 && alloc <= 0.0 ==> r - 0.1 < (alloc / emp) * 100.0 <= r <= 0.0
    ensures emp > 0.0 && 0.0 <= alloc <= emp ==> 0.0 <= r <= 100.0
    ensures emp > 0.0 && alloc == emp ==> r == 100.0
  {
    if emp <= 0.0 then 0.0
    else
      var q := (alloc / emp) * 100.0;
      assert 0.0 <= alloc ==> 0.0 <= q by {
        if 0.0 <= alloc { assert 0.0 <= alloc / emp; }
      }
      assert alloc <= 0.0 ==> q <= 0.0 by {
        if alloc <= 0.0 { assert alloc / emp <= 0.0; }
      }
      if 0.0 <= alloc <= emp then
        RatioBounds(alloc, emp);
        Trunc1OfTenth(100.0);
        Trunc1Monotone(q, 100.0);
        Trunc1(q)
      else
        Trunc1(q)
  }

  lemma RatioBounds(a: real, b: real)
    requires 0.0 < b && 0.0 <= a <= b
    ensures 0.0 <= a / b <= 1.0
    ensures a == b ==> a / b == 1.0
  {
    var d := a / b;
    assert d * b == a;
    if d < 1.0 {
      assert (1.0 - d) * b > 0.0;
      assert (1.0 - d) * b == b - a;
    }
    if a == b {
      assert (d - 1.0) * b == 0.0;
    }
  }

  function Summarize(count: nat, companySum: real, rows: seq<ProjectRow>): PerformanceSummary {
    PerformanceSummary(count, companySum, |rows|, Trunc1(SumFinal(rows)), Trunc1(SumAlloc(rows)),
      Share(SumAlloc(rows), SumFinal(rows)))
  }

  /** The active snapshots by project, as `snap_map` holds them. */
  function SnapMap(schema: Schema, db: Database, ids: seq<int>): map<int, SnapRow> {
    if schema.hasSnapshots then LastWins(ActiveSnapshots(db.snapshots, ids), SnapKey) else map[]
  }

  /** The employee's snapshot items by project, as `item_map` holds them. */
  function ItemMap(schema: Schema, db: Database, ids: seq<int>, uid: int): map<int, ItemRow> {
    if SnapMap(schema, db, ids) != map[] && schema.hasSnapshotItems
    then LastWins(UserItems(db.items, db.snapshots, ids, uid), ItemKey)
    else map[]
  }

  /** `_calc_project_performance` as a function of the schema, the tables and the period. */
  function StaffPerformance(schema: Schema, db: Database, uid: int, start: DateTime, end: DateTime): (PerformanceSummary, seq<ProjectRow>) {
    if !schema.hasEvaluations then (EmptySummary, [])
    else
      var ids := CompanyProjectIds(schema, db, start, end);
      if ids == [] then (EmptySummary, [])
      else
        var fetched := SelectProjects(db.projects, ids, schema.columns);
        var all := LastWins(fetched, RowKey);
        var snaps := SnapMap(schema, db, ids);
        var companySum := Trunc1(CompanySum(FirstSeen(fetched, RowKey), all, snaps));
        var ues := LatestPerProject(db.evaluations, uid, start, end);
        if ues == [] then (PerformanceSummary(|ids|, companySum, 0, 0.0, 0.0, 0.0), [])
        else
          var rows := EmployeeRows(ues, all, snaps, ItemMap(schema, db, ids, uid));
          (Summarize(|ids|, companySum, rows), rows)
  }

  // ---------------------------------------------------------------------------
  // The computation, step by step
  // ---------------------------------------------------------------------------

  /** The company loop: adds up each fetched project's P. */
  method SumCompany(keys: seq<int>, all: map<int, FetchedRow>, snaps: map<int, SnapRow>) returns (total: real)
    requires forall i :: 0 <= i < |keys| ==> keys[i] in all
    ensures total == CompanySum(keys, all, snaps)
  {
    total := 0.0;
    for i := 0 to |keys|
      invariant total == CompanySum(keys[..i], all, snaps)
    {
      assert keys[..i + 1][..i] == keys[..i];
      var rr := all[keys[i]];
      if rr.id in snaps {
        total := total + snaps[rr.id].finalProjectScore;
      } else {
        total := total + FinalScore(rr);
      }
    }
    assert keys[..|keys|] == keys;
  }

  /** The employee loop: one row per selected evaluation of a fetched project, and the two sums. */
  method CollectRows(ues: seq<Evaluation>, all: map<int, FetchedRow>, snaps: map<int, SnapRow>, items: map<int, ItemRow>)
    returns (rows: seq<ProjectRow>, empSum: real, allocSum: real)
    ensures rows == EmployeeRows(ues, all, snaps, items)
    ensures empSum == SumFinal(rows) && allocSum == SumAlloc(rows)
  {
    rows, empSum, allocSum := [], 0.0, 0.0;
    for i := 0 to |ues|
      invariant rows == EmployeeRows(ues[..i], all, snaps, items)
      invariant empSum == SumFinal(rows) && allocSum == SumAlloc(rows)
    {
      assert ues[..i + 1][..i] == ues[..i];
      var ue := ues[i];
      var pid := ue.projectId;
      if pid !in all {
        continue;
      }
      var base := all[pid];
      var p, score, alloc;
      if pid in snaps {
        p := snaps[pid].finalProjectScore;
        score := if pid in items then items[pid].userEvalScore else ue.score.GetOr(0.0);
        alloc := if pid in items then items[pid].convertedScore else Allocate(p, score);
      } else {
        p := FinalScore(base);
        score := ue.score.GetOr(0.0);
        alloc := Allocate(p, score);
      }
      var row := ProjectRow(pid, ProjectName(base.name, pid),
        if pid in snaps then snaps[pid].completedAt else Some(ue.createdAt),
        p, score, alloc, if pid in snaps then Snapshot else Live);
      rows := rows + [row];
      empSum := empSum + p;
      allocSum := allocSum + alloc;
    }
    assert ues[..|ues|] == ues;
  }

  /**
   * `_calc_project_performance` over the already probed schema and the rows
   * of the tables it reads: it builds `all_map`, `snap_map` and `item_map`,
   * adds up the company's P, then walks the employee's latest evaluations.
   */
  method CalcProjectPerformance(schema: Schema, db: Database, uid: int, start: DateTime, end: DateTime)
    returns (summary: PerformanceSummary, rows: seq<ProjectRow>)
    ensures (summary, rows) == StaffPerformance(schema, db, uid, start, end)
  {
    if !schema.hasEvaluations {
      return EmptySummary, [];
    }
    var ids := CompanyProjectIds(schema, db, start, end);
    if ids == [] {
      return EmptySummary, [];
    }
    var fetched := SelectProjects(db.projects, ids, schema.columns);
    var keys, all := IndexRows(fetched, RowKey);
    var snaps: map<int, SnapRow> := map[];
    var items: map<int, ItemRow> := map[];
    if schema.hasSnapshots {
      var _, s := IndexRows(ActiveSnapshots(db.snapshots, ids), SnapKey);
      snaps := s;
      if snaps != map[] && schema.hasSnapshotItems {
        var _, it := IndexRows(UserItems(db.items, db.snapshots, ids, uid), ItemKey);
        items := it;
      }
    }
    var companyP := SumCompany(keys, all, snaps);
    var companySum := Trunc1(companyP);
    var ues := LatestPerProject(db.evaluations, uid, start, end);
    if ues == [] {
      return PerformanceSummary(|ids|, companySum, 0, 0.0, 0.0, 0.0), [];
    }
    var empSum, allocSum;
    rows, empSum, allocSum := CollectRows(ues, all, snaps, items);
    summary := PerformanceSummary(|ids|, companySum, |rows|, Trunc1(empSum), Trunc1(allocSum), Share(allocSum, empSum));
  }
}
