/**
 * The final project score P: the sum of nine stored components, each taken
 * as 0 when its column is missing from the deployment or holds NULL, cut to
 * one decimal place.
 */
module Score {
  import opened Wrappers
  import opened Truncation
  import opened Period

  /** The optional columns of `projects`: a deployment has some of them. */
  datatype Column =
    | SalesScore | ProjectPeriodDays | Difficulty | ProgressStep | WorkSpeed
    | InternalScore | ExternalScore | ParticipantCount | ProfitRate
    | CostMaterial | CostLabor | CostOffice | CostOther | SalesCost | CostProgress

  /** The nine summands of P, in the order the score is added up. */
  const ScoreColumns: seq<Column> :=
    [SalesScore, ProjectPeriodDays, Difficulty, ProgressStep, WorkSpeed,
     InternalScore, ExternalScore, ParticipantCount, ProfitRate]

  /** The cost columns that make up `cost_sum`. */
  const CostColumns: seq<Column> :=
    [CostMaterial, CostLabor, CostOffice, CostOther, SalesCost, CostProgress]

  /**
   * A row of `projects` as stored. A column that holds NULL, or that this
   * deployment does not have, has no entry in `values`.
   */
  datatype StoredProject = StoredProject(
    id: int,
    name: Option<string>,
    completedAt: Option<DateTime>,
    contractAmount: Option<real>,
    values: map<Column, real>)

  /**
   * A row of the project query: `contract_amount`, `cost_sum` and the nine
   * components. A component with no entry came back NULL (only `profit_rate`
   * can: it is selected without COALESCE).
   */
  datatype FetchedRow = FetchedRow(
    id: int,
    name: Option<string>,
    contractAmount: real,
    costSum: real,
    components: map<Column, real>)

  /**
   * `_select_expr(col)`: `COALESCE(p.col, 0)` when the deployment has the
   * column, the literal 0 when it does not.
   */
  function Selected(p: StoredProject, available: set<Column>, c: Column): real {
    if c in available && c in p.values then p.values[c] else 0.0
  }

  function SelectedSum(p: StoredProject, available: set<Column>, cs: seq<Column>): real {
    if cs == [] then 0.0 else Selected(p, available, cs[0]) + SelectedSum(p, available, cs[1..])
  }

  /** The SELECT of the project query, for one project and the available columns. */
  function FetchRow(p: StoredProject, available: set<Column>): (row: FetchedRow)
    ensures row.id == p.id && row.name == p.name
    ensures row.contractAmount == (if p.contractAmount.Some? then p.contractAmount.value else 0.0)
    ensures row.costSum == SelectedSum(p, available, CostColumns)
    ensures forall c :: c in ScoreColumns && c != ProfitRate ==>
      c in row.components && row.components[c] == Selected(p, available, c)
    ensures ProfitRate in row.components <==> ProfitRate in available && ProfitRate in p.values
    ensures ProfitRate in row.components ==> row.components[ProfitRate] == p.values[ProfitRate]
    ensures forall c :: c in row.components ==> c in ScoreColumns
  {
    FetchedRow(
      p.id, p.name,
      p.contractAmount.GetOr(0.0),
      SelectedSum(p, available, CostColumns),
      map c | c in ScoreColumns && (c == ProfitRate ==> c in available && c in p.values)
        :: Selected(p, available, c))
  }

  /** `float(r.get(col) or 0.0)`: a NULL or absent component counts as 0. */
  function Component(v: map<Column, real>, c: Column): real {
    if c in v then v[c] else 0.0
  }

  /** The components named by `cs`, added up. */
  function ComponentSum(v: map<Column, real>, cs: seq<Column>): real {
    if cs == [] then 0.0 else Component(v, cs[0]) + ComponentSum(v, cs[1..])
  }

  /**
   * `_calc_final_score_row`: sales score, project period days, difficulty,
   * progress step, work speed, internal score, external score, participant
   * count and profit rate added up, then truncated to one decimal place.
   * Contract amount and cost sum take no part.
   */
  function FinalScore(row: FetchedRow): (r: real)
    ensures IsTenth(r)
    ensures (forall c :: c in row.components ==> row.components[c] >= 0.0) ==> r >= 0.0
  {
    ComponentSumNonNegative(row.components, ScoreColumns);
    Trunc1(ComponentSum(row.components, ScoreColumns))
  }

  lemma {:induction false} ComponentSumNonNegative(v: map<Column, real>, cs: seq<Column>)
    ensures (forall c :: c in v ==> v[c] >= 0.0) ==> ComponentSum(v, cs) >= 0.0
  {
    if cs != [] {
      ComponentSumNonNegative(v, cs[1..]);
    }
  }

  lemma {:induction false} ComponentSumMonotone(v: map<Column, real>, v': map<Column, real>, cs: seq<Column>)
    requires forall c :: Component(v, c) <= Component(v', c)
    ensures ComponentSum(v, cs) <= ComponentSum(v', cs)
  {
    if cs != [] {
      ComponentSumMonotone(v, v', cs[1..]);
    }
  }

  lemma {:induction false} ComponentSumAppend(v: map<Column, real>, a: seq<Column>, b: seq<Column>)
    ensures ComponentSum(v, a + b) == ComponentSum(v, a) + ComponentSum(v, b)
  {
    if a == [] {
      assert a + b == b;
    } else {
      assert (a + b)[1..] == a[1..] + b;
      ComponentSumAppend(v, a[1..], b);
    }
  }

  /** Adding up the components is independent of the order they are taken in. */
  lemma {:induction false} ComponentSumPermutation(v: map<Column, real>, cs: seq<Column>, ds: seq<Column>)
    requires multiset(cs) == multiset(ds)
    ensures ComponentSum(v, cs) == ComponentSum(v, ds)
    decreases |cs|
  {
    if cs == [] {
      assert |ds| == |multiset(ds)| == 0;
    } else {
      var c := cs[0];
      assert c in multiset(ds);
      var j :| 0 <= j < |ds| && ds[j] == c;
      var rest := ds[..j] + ds[j + 1..];
      RemoveColumn(cs, ds, j);
      ComponentSumPermutation(v, cs[1..], rest);
      ComponentSumAround(v, ds, j);
    }
  }

  /** Taking the first column of `cs` out of `ds` at `j` leaves the same multiset as the rest of `cs`. */
  lemma RemoveColumn(cs: seq<Column>, ds: seq<Column>, j: int)
    requires cs != [] && 0 <= j < |ds| && ds[j] == cs[0] && multiset(cs) == multiset(ds)
    ensures multiset(cs[1..]) == multiset(ds[..j] + ds[j + 1..])
  {
    var c := cs[0];
    assert ds == ds[..j] + [c] + ds[j + 1..];
    assert cs == [c] + cs[1..];
    assert multiset(ds) == multiset(ds[..j]) + multiset{c} + multiset(ds[j + 1..]);
    assert multiset(cs) == multiset{c} + multiset(cs[1..]);
    assert multiset(cs) - multiset{c} == multiset(cs[1..]);
    assert multiset(ds) - multiset{c} == multiset(ds[..j] + ds[j + 1..]);
  }

  /** The sum over `ds` is its `j`-th component plus the sum over the others. */
  lemma ComponentSumAround(v: map<Column, real>, ds: seq<Column>, j: int)
    requires 0 <= j < |ds|
    ensures ComponentSum(v, ds) == Component(v, ds[j]) + ComponentSum(v, ds[..j] + ds[j + 1..])
  {
    assert ds == ds[..j] + [ds[j]] + ds[j + 1..];
    ComponentSumAppend(v, ds[..j] + [ds[j]], ds[j + 1..]);
    ComponentSumAppend(v, ds[..j], [ds[j]]);
    ComponentSumAppend(v, ds[..j], ds[j + 1..]);
    assert ComponentSum(v, [ds[j]]) == Component(v, ds[j]) + ComponentSum(v, []);
  }

  /** P is the source's nine-term sum, truncated. */
  lemma ScoreColumnsSum(v: map<Column, real>)
    ensures ComponentSum(v, ScoreColumns) ==
      Component(v, SalesScore) + Component(v, ProjectPeriodDays) + Component(v, Difficulty)
      + Component(v, ProgressStep) + Component(v, WorkSpeed) + Component(v, InternalScore)
      + Component(v, ExternalScore) + Component(v, ParticipantCount) + Component(v, ProfitRate)
  {
    var cs := ScoreColumns;
    assert cs[8..] == [ProfitRate] && cs[9..] == [];
    assert ComponentSum(v, cs[8..]) == Component(v, ProfitRate);
    assert ComponentSum(v, cs[7..]) == Component(v, ParticipantCount) + ComponentSum(v, cs[8..]);
    assert ComponentSum(v, cs[6..]) == Component(v, ExternalScore) + ComponentSum(v, cs[7..]);
    assert ComponentSum(v, cs[5..]) == Component(v, InternalScore) + ComponentSum(v, cs[6..]);
    assert ComponentSum(v, cs[4..]) == Component(v, WorkSpeed) + ComponentSum(v, cs[5..]);
    assert ComponentSum(v, cs[3..]) == Component(v, ProgressStep) + ComponentSum(v, cs[4..]);
    assert ComponentSum(v, cs[2..]) == Component(v, Difficulty) + ComponentSum(v, cs[3..]);
    assert ComponentSum(v, cs[1..]) == Component(v, ProjectPeriodDays) + ComponentSum(v, cs[2..]);
  }

  /** Sums agree term by term. */
  lemma {:induction false} SumsAgree(p: StoredProject, available: set<Column>, v: map<Column, real>, cs: seq<Column>)
    requires forall c :: c in cs ==> Component(v, c) == Selected(p, available, c)
    ensures ComponentSum(v, cs) == SelectedSum(p, available, cs)
  {
    if cs != [] {
      SumsAgree(p, available, v, cs[1..]);
    }
  }

  /**
   * P is the truncated sum of the nine components taken in ANY order: the
   * order of summation does not affect the result.
   */
  lemma FinalScoreAnyOrder(row: FetchedRow, cs: seq<Column>)
    requires multiset(cs) == multiset(ScoreColumns)
    ensures FinalScore(row) == Trunc1(ComponentSum(row.components, cs))
  {
    ComponentSumPermutation(row.components, cs, ScoreColumns);
  }

  /** Contract amount and cost sum do not affect P. */
  lemma FinalScoreIgnoresAmounts(row: FetchedRow, contractAmount: real, costSum: real)
    ensures FinalScore(row.(contractAmount := contractAmount, costSum := costSum)) == FinalScore(row)
  {
  }

  /**
   * The live P of a stored project: each component is its stored value when
   * the deployment has the column and the value is not NULL, and 0 otherwise.
   */
  lemma LiveScoreOfStored(p: StoredProject, available: set<Column>)
    ensures FinalScore(FetchRow(p, available)) == Trunc1(SelectedSum(p, available, ScoreColumns))
  {
    var v := FetchRow(p, available).components;
    forall c | c in ScoreColumns ensures Component(v, c) == Selected(p, available, c) {
    }
    SumsAgree(p, available, v, ScoreColumns);
  }

  /** A deployment with none of the nine score columns scores every project 0. */
  lemma FinalScoreWithoutColumns(p: StoredProject, available: set<Column>)
    requires forall c :: c in ScoreColumns ==> c !in available
    ensures FinalScore(FetchRow(p, available)) == 0.0
  {
    LiveScoreOfStored(p, available);
    SelectedSumUnavailable(p, available, ScoreColumns);
  }

  lemma {:induction false} SelectedSumUnavailable(p: StoredProject, available: set<Column>, cs: seq<Column>)
    requires forall c :: c in cs ==> c !in available
    ensures SelectedSum(p, available, cs) == 0.0
  {
    if cs != [] {
      SelectedSumUnavailable(p, available, cs[1..]);
    }
  }

  /** Raising components never lowers P. */
  lemma FinalScoreMonotone(row: FetchedRow, row': FetchedRow)
    requires forall c :: Component(row.components, c) <= Component(row'.components, c)
    ensures FinalScore(row) <= FinalScore(row')
  {
    ComponentSumMonotone(row.components, row'.components, ScoreColumns);
    Trunc1Monotone(ComponentSum(row.components, ScoreColumns), ComponentSum(row'.components, ScoreColumns));
  }

  /** The worked example: components adding up to 10.26 give P = 10.2. */
  lemma FinalScoreExample()
    ensures FinalScore(FetchedRow(1, None, 5000000.0, 200000.0, map[
      SalesScore := 2.0, ProjectPeriodDays := 3.0, Difficulty := 1.0, ProgressStep := 1.0,
      WorkSpeed := 0.0, InternalScore := 0.0, ExternalScore := 0.0,
      ParticipantCount := 2.0, ProfitRate := 1.26])) == 10.2
  {
    var row := FetchedRow(1, None, 5000000.0, 200000.0, map[
      SalesScore := 2.0, ProjectPeriodDays := 3.0, Difficulty := 1.0, ProgressStep := 1.0,
      WorkSpeed := 0.0, InternalScore := 0.0, ExternalScore := 0.0,
      ParticipantCount := 2.0, ProfitRate := 1.26]);
    ScoreColumnsSum(row.components);
    assert ComponentSum(row.components, ScoreColumns) == 10.26;
    assert (10.26 * 10.0).Floor == 102;
  }
}
