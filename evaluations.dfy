/**
 * Personal evaluations and the rule that picks the one that counts: per
 * project, the newest by `created_at`, ties broken by the highest `id`.
 */
module Evaluations {
  import opened Wrappers
  import opened Period

  /** A row of `project_evaluations`; a NULL score is None. */
  datatype Evaluation = Evaluation(id: int, projectId: int, userId: int, createdAt: DateTime, score: Option<real>)

  /** `a` sorts before `b` under `ORDER BY created_at DESC, id DESC`. */
  predicate Later(a: Evaluation, b: Evaluation) {
    Before(b.createdAt, a.createdAt) || (a.createdAt == b.createdAt && a.id > b.id)
  }

  lemma LaterTransitive(a: Evaluation, b: Evaluation, c: Evaluation)
    requires Later(a, b) && Later(b, c)
    ensures Later(a, c)
  {
    if Before(c.createdAt, b.createdAt) && Before(b.createdAt, a.createdAt) {
      BeforeTransitive(c.createdAt, b.createdAt, a.createdAt);
    }
  }

  /** Two evaluations with different ids are ordered one way or the other, never both. */
  lemma LaterTotal(a: Evaluation, b: Evaluation)
    ensures a.id != b.id ==> Later(a, b) || Later(b, a)
    ensures !(Later(a, b) && Later(b, a))
  {
    BeforeTotal(a.createdAt, b.createdAt);
  }

  /** No two rows share an id (the primary key). */
  predicate DistinctIds(es: seq<Evaluation>) {
    forall i, j :: 0 <= i < |es| && 0 <= j < |es| && es[i].id == es[j].id ==> i == j
  }

  /** The first row of `es` under the ordering; None for no rows. */
  function Latest(es: seq<Evaluation>): (r: Option<Evaluation>)
    ensures r.Some? <==> |es| > 0
    ensures r.Some? ==> r.value in es && forall e :: e in es ==> !Later(e, r.value)
  {
    if es == [] then None
    else
      var prefix, last := es[..|es| - 1], es[|es| - 1];
      assert es == prefix + [last];
      match Latest(prefix)
      case None => Some(last)
      case Some(p) =>
        if Later(last, p) then
          assert forall e :: e in prefix && Later(e, last) ==> Later(e, p) by {
            forall e | e in prefix && Later(e, last) ensures Later(e, p) {
              LaterTransitive(e, last, p);
            }
          }
          Some(last)
        else Some(p)
  }

  /** Among rows with distinct ids, only one row is outranked by none. */
  lemma LatestUnique(es: seq<Evaluation>, a: Evaluation, b: Evaluation)
    requires DistinctIds(es)
    requires a in es && b in es
    requires forall e :: e in es ==> !Later(e, a) && !Later(e, b)
    ensures a == b
  {
    LaterTotal(a, b);
    var i :| 0 <= i < |es| && es[i] == a;
    var j :| 0 <= j < |es| && es[j] == b;
  }

  /** Which evaluation is used does not depend on the order the rows come in. */
  lemma LatestOrderIndependent(es: seq<Evaluation>, fs: seq<Evaluation>)
    requires DistinctIds(es)
    requires multiset(es) == multiset(fs)
    ensures Latest(es) == Latest(fs)
  {
    assert |es| == |multiset(es)| == |multiset(fs)| == |fs|;
    if es != [] {
      var a, b := Latest(es).value, Latest(fs).value;
      assert forall e :: e in es <==> e in fs by {
        forall e ensures e in es <==> e in fs {
          assert e in es <==> e in multiset(es);
          assert e in fs <==> e in multiset(fs);
        }
      }
      LatestUnique(es, a, b);
    }
  }

  /** Both orders of two evaluations of one project pick the later one. */
  lemma LatestOfTwo(a: Evaluation, b: Evaluation)
    requires a.id != b.id
    requires Before(b.createdAt, a.createdAt) || (a.createdAt == b.createdAt && a.id > b.id)
    ensures Latest([a, b]) == Some(a) && Latest([b, a]) == Some(a)
  {
    LaterTotal(a, b);
    assert [a, b][..1] == [a];
    assert [b, a][..1] == [b];
  }

  /**
   * `created_at` is compared to the microsecond before `id` is: of two
   * evaluations in the same second, the one later within it wins even with
   * the lower id.
   */
  lemma LatestWithinSecond(score: Option<real>)
    ensures var a := Evaluation(7, 1, 1, DateTime(2024, 5, 2, 10, 0, 0, 900_000), score);
      var b := Evaluation(8, 1, 1, DateTime(2024, 5, 2, 10, 0, 0, 100_000), score);
      Latest([a, b]) == Some(a) && Latest([b, a]) == Some(a)
  {
    var a := Evaluation(7, 1, 1, DateTime(2024, 5, 2, 10, 0, 0, 900_000), score);
    var b := Evaluation(8, 1, 1, DateTime(2024, 5, 2, 10, 0, 0, 100_000), score);
    LatestOfTwo(a, b);
  }

  // ---------------------------------------------------------------------------
  // The DISTINCT ON (project_id) query
  // ---------------------------------------------------------------------------

  /** Rows of `es` that `keep` accepts, in their order. */
  function Filter(es: seq<Evaluation>, keep: Evaluation -> bool): (r: seq<Evaluation>)
    ensures forall e :: e in r <==> e in es && keep(e)
    ensures |r| <= |es|
  {
    if es == [] then []
    else if keep(es[0]) then [es[0]] + Filter(es[1..], keep)
    else Filter(es[1..], keep)
  }

  /** `WHERE pe.user_id = :uid AND pe.created_at >= :s AND pe.created_at < :e`. */
  function ByUserInPeriod(es: seq<Evaluation>, uid: int, start: DateTime, end: DateTime): seq<Evaluation> {
    Filter(es, (e: Evaluation) => e.userId == uid && InRange(e.createdAt, start, end))
  }

  function ForProject(es: seq<Evaluation>, pid: int): seq<Evaluation> {
    Filter(es, (e: Evaluation) => e.projectId == pid)
  }

  predicate StrictlyIncreasing(xs: seq<int>) {
    forall i, j :: 0 <= i < j < |xs| ==> xs[i] < xs[j]
  }

  function Insert(xs: seq<int>, x: int): (r: seq<int>)
    requires StrictlyIncreasing(xs)
    ensures StrictlyIncreasing(r)
    ensures forall y :: y in r <==> y in xs || y == x
  {
    if xs == [] then [x]
    else if x < xs[0] then [x] + xs
    else if x == xs[0] then xs
    else
      var rest := Insert(xs[1..], x);
      assert forall y :: y in xs[1..] ==> xs[0] < y;
      assert forall i :: 0 <= i < |rest| ==> xs[0] < rest[i] by {
        forall i | 0 <= i < |rest| ensures xs[0] < rest[i] {
          assert rest[i] in rest;
        }
      }
      [xs[0]] + rest
  }

  /** The distinct project ids of `es` in ascending order. */
  function ProjectIds(es: seq<Evaluation>): (r: seq<int>)
    ensures StrictlyIncreasing(r)
    ensures forall pid :: pid in r <==> exists e :: e in es && e.projectId == pid
  {
    if es == [] then []
    else
      var rest := ProjectIds(es[1..]);
      assert forall e :: e in es <==> e == es[0] || e in es[1..];
      Insert(rest, es[0].projectId)
  }

  /** The selected row of each project in `pids`, in that order. */
  function LatestOfEach(es: seq<Evaluation>, pids: seq<int>): (r: seq<Evaluation>)
    ensures |r| <= |pids|
  {
    if pids == [] then []
    else
      match Latest(ForProject(es, pids[0]))
      case Some(e) => [e] + LatestOfEach(es, pids[1..])
      case None => LatestOfEach(es, pids[1..])
  }

  /**
   * `SELECT DISTINCT ON (pe.project_id) ... ORDER BY pe.project_id,
   * pe.created_at DESC, pe.id DESC`: one row per project the employee
   * evaluated in the period, the newest one, in ascending project order.
   */
  function LatestPerProject(es: seq<Evaluation>, uid: int, start: DateTime, end: DateTime): seq<Evaluation> {
    var mine := ByUserInPeriod(es, uid, start, end);
    LatestOfEach(mine, ProjectIds(mine))
  }

  lemma {:induction false} LatestOfEachRows(es: seq<Evaluation>, pids: seq<int>)
    requires StrictlyIncreasing(pids)
    requires forall pid :: pid in pids ==> exists e :: e in es && e.projectId == pid
    ensures var r := LatestOfEach(es, pids);
      |r| == |pids| &&
      forall i :: 0 <= i < |r| ==>
        r[i].projectId == pids[i] && r[i] in es &&
        forall e :: e in es && e.projectId == pids[i] ==> !Later(e, r[i])
  {
    if pids != [] {
      assert pids[0] in pids;
      var e0 :| e0 in es && e0.projectId == pids[0];
      assert e0 in ForProject(es, pids[0]);
      assert forall pid :: pid in pids[1..] ==> pid in pids;
      LatestOfEachRows(es, pids[1..]);
    }
  }

  /** The query's rows are in strictly ascending project order. */
  lemma LatestPerProjectAscending(es: seq<Evaluation>, uid: int, start: DateTime, end: DateTime)
    ensures var r := LatestPerProject(es, uid, start, end);
      forall i, j :: 0 <= i < j < |r| ==> r[i].projectId < r[j].projectId
  {
    var mine := ByUserInPeriod(es, uid, start, end);
    var pids := ProjectIds(mine);
    LatestOfEachRows(mine, pids);
    var r := LatestOfEach(mine, pids);
    forall i, j | 0 <= i < j < |r| ensures r[i].projectId < r[j].projectId {
      assert r[i].projectId == pids[i] && r[j].projectId == pids[j];
    }
  }

  /**
   * Each row is one of the employee's evaluations in the period, outranked
   * by no other evaluation of the same employee, project and period.
   */
  lemma LatestPerProjectRow(es: seq<Evaluation>, uid: int, start: DateTime, end: DateTime, i: int)
    requires 0 <= i < |LatestPerProject(es, uid, start, end)|
    ensures var r := LatestPerProject(es, uid, start, end)[i];
      r in es && r.userId == uid && InRange(r.createdAt, start, end) &&
      forall e ::
        (e in es && e.userId == uid && InRange(e.createdAt, start, end) && e.projectId == r.projectId)
        ==> !Later(e, r)
  {
    var mine := ByUserInPeriod(es, uid, start, end);
    assert forall e :: e in mine <==> e in es && e.userId == uid && InRange(e.createdAt, start, end);
    LatestOfEachRows(mine, ProjectIds(mine));
  }

  /** Every project the employee evaluated in the period has its row. */
  lemma LatestPerProjectCover(es: seq<Evaluation>, uid: int, start: DateTime, end: DateTime, e: Evaluation)
    requires e in es && e.userId == uid && InRange(e.createdAt, start, end)
    ensures var r := LatestPerProject(es, uid, start, end);
      exists i :: 0 <= i < |r| && r[i].projectId == e.projectId
  {
    var mine := ByUserInPeriod(es, uid, start, end);
    var pids := ProjectIds(mine);
    LatestOfEachRows(mine, pids);
    var r := LatestOfEach(mine, pids);
    assert e in mine;
    assert e.projectId in pids;
    var i :| 0 <= i < |pids| && pids[i] == e.projectId;
    assert r[i].projectId == e.projectId;
    assert r == LatestPerProject(es, uid, start, end);
  }

  /** The query returns no row exactly when the employee has no evaluation in the period. */
  lemma LatestPerProjectEmpty(es: seq<Evaluation>, uid: int, start: DateTime, end: DateTime)
    ensures LatestPerProject(es, uid, start, end) == [] <==>
      forall e :: e in es ==> !(e.userId == uid && InRange(e.createdAt, start, end))
  {
    var mine := ByUserInPeriod(es, uid, start, end);
    var pids := ProjectIds(mine);
    LatestOfEachRows(mine, pids);
    if exists e :: e in es && e.userId == uid && InRange(e.createdAt, start, end) {
      var e :| e in es && e.userId == uid && InRange(e.createdAt, start, end);
      LatestPerProjectCover(es, uid, start, end, e);
    }
  }

  /**
   * What the query returns: rows in strictly ascending project order, each
   * one of the employee's evaluations in the period, and each outranked by no
   * other evaluation of the same employee, project and period; and every
   * project the employee evaluated in the period has its row.
   */
  lemma LatestPerProjectSpec(es: seq<Evaluation>, uid: int, start: DateTime, end: DateTime)
    ensures var r := LatestPerProject(es, uid, start, end);
      (forall i, j :: 0 <= i < j < |r| ==> r[i].projectId < r[j].projectId) &&
      (forall i :: 0 <= i < |r| ==>
        r[i] in es && r[i].userId == uid && InRange(r[i].createdAt, start, end) &&
        forall e ::
          (e in es && e.userId == uid && InRange(e.createdAt, start, end) && e.projectId == r[i].projectId)
          ==> !Later(e, r[i])) &&
      (forall e :: e in es && e.userId == uid && InRange(e.createdAt, start, end) ==>
        exists i :: 0 <= i < |r| && r[i].projectId == e.projectId)
  {
    LatestPerProjectAscending(es, uid, start, end);
    forall i | 0 <= i < |LatestPerProject(es, uid, start, end)| {
      LatestPerProjectRow(es, uid, start, end, i);
    }
    forall e | e in es && e.userId == uid && InRange(e.createdAt, start, end) {
      LatestPerProjectCover(es, uid, start, end, e);
    }
  }
}
