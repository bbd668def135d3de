// Flexible, dynamically re-planned scoring of field-engineer visits.
//
// A contract fixes a monthly quota of stations `n` and a number of planned
// visits `k`.  Each visit reports how many stations were actually inspected.
// After every visit the remaining quota is spread evenly over the remaining
// visits, and each visit is scored 0, 1 or 2 by a two-tier rule: a visit
// that keeps the month on pace scores 2; otherwise its score depends on how
// much of its own re-planned target it met.
//
// All quotients are exact rationals (`real`); nothing is rounded.

module ServiceScore {

  /** Why a visit got its score; one case per label the program shows. */
  datatype Status =
    | OverallOk   // on pace for the month: 2 points whatever the visit did
    | Poor        // behind pace and under 50% of the visit's own target
    | Acceptable  // behind pace and in [50%, 90%) of the visit's own target
    | Good        // behind pace but at least 90% of the visit's own target

  /** The label the program displays for each status. */
  function Label(s: Status): string
  {
    match s
    case OverallOk => "90+% хорошо (общий OK)"
    case Poor => "<50% плохо"
    case Acceptable => "50-90% нормально"
    case Good => "90+% хорошо"
  }

  /** One row of the result table: one per reported visit. */
  datatype VisitRow = VisitRow(
    visit: nat,               // 1-based number of the visit
    plan: real,               // re-planned target for this visit
    fact: int,                // stations actually inspected on this visit
    visitPercent: real,       // fact as a percentage of plan
    score: int,
    expectedPercent: real,    // share of the month's visits done so far
    actualPercent: real,      // share of the quota inspected so far
    status: Status)

  // ---------------------------------------------------------------------
  // Specification: one visit
  // ---------------------------------------------------------------------

  /** Remaining stations spread over remaining visits; 0 once no visit remains. */
  function Plan(remainingStations: int, remainingVisits: int): real
  {
    if remainingVisits > 0 then remainingStations as real / remainingVisits as real else 0.0
  }

  /** The visit's attainment of its own target; 0 when the target is not positive. */
  function VisitPercent(fact: int, plan: real): real
  {
    if plan > 0.0 then fact as real / plan * 100.0 else 0.0
  }

  /** Expected cumulative progress after visit `i` (0-based) of `k`. */
  function ExpectedProgress(i: nat, k: int): real
  {
    if k > 0 then (i + 1) as real / k as real * 100.0 else 0.0
  }

  /** Actual cumulative progress once `done` of `n` stations are inspected. */
  function ActualProgress(done: int, n: int): real
  {
    if n > 0 then done as real / n as real * 100.0 else 0.0
  }

  /** The two-tier rule: global pace first, then the visit's own attainment. */
  function Classify(actual: real, expected: real, visitPercent: real): Status
  {
    if actual >= expected then OverallOk
    else if visitPercent < 50.0 then Poor
    else if visitPercent < 90.0 then Acceptable
    else Good
  }

  /** Points awarded for each status. */
  function ScoreOf(s: Status): int
  {
    match s
    case OverallOk => 2
    case Poor => 0
    case Acceptable => 1
    case Good => 2
  }

  /** The row for visit `i` (0-based) with fact `f`, after `done` stations in earlier visits. */
  function Visit(n: int, k: int, i: nat, done: int, f: int): VisitRow
  {
    var plan := Plan(n - done, k - i);
    var percent := VisitPercent(f, plan);
    var expected := ExpectedProgress(i, k);
    var actual := ActualProgress(done + f, n);
    var status := Classify(actual, expected, percent);
    VisitRow(i + 1, plan, f, percent, ScoreOf(status), expected, actual, status)
  }

  // ---------------------------------------------------------------------
  // Specification: the whole month
  // ---------------------------------------------------------------------

  /** Stations inspected over all the given visits. */
  function Sum(facts: seq<int>): int
  {
    if facts == [] then 0 else Sum(facts[..|facts| - 1]) + facts[|facts| - 1]
  }

  /** Points summed over the rows. */
  function ScoreSum(rows: seq<VisitRow>): int
  {
    if rows == [] then 0 else ScoreSum(rows[..|rows| - 1]) + rows[|rows| - 1].score
  }

  /** The rows, one per fact in input order; each visit sees the facts before it. */
  function Rows(n: int, k: int, facts: seq<int>): (rows: seq<VisitRow>)
    ensures |rows| == |facts|
    ensures forall j :: 0 <= j < |rows| ==> rows[j].visit == j + 1 && rows[j].fact == facts[j]
  {
    if facts == [] then []
    else
      var i := |facts| - 1;
      Rows(n, k, facts[..i]) + [Visit(n, k, i, Sum(facts[..i]), facts[i])]
  }

  /** Share of the quota inspected over the month; 0 without a positive quota. */
  function MonthPercent(n: int, totalDone: int): real
  {
    if n > 0 then totalDone as real / n as real * 100.0 else 0.0
  }

  // ---------------------------------------------------------------------
  // The scoring pass
  // ---------------------------------------------------------------------

  /**
   * One pass over the facts keeping four running values: the stations and
   * visits still remaining, the stations done and the points earned.
   */
  method CalcFlexibleScoreDynamic(n: int, k: int, facts: seq<int>)
    returns (rows: seq<VisitRow>, totalScore: int, monthPercent: real)
    ensures rows == Rows(n, k, facts)
    ensures |rows| == |facts|
    ensures forall j :: 0 <= j < |rows| ==> rows[j].visit == j + 1 && rows[j].fact == facts[j]
    ensures totalScore == ScoreSum(rows) && 0 <= totalScore <= 2 * |facts|
    ensures monthPercent == MonthPercent(n, Sum(facts))
    ensures facts == [] ==> rows == [] && totalScore == 0 && monthPercent == 0.0
  {
    rows := [];
    var remainingStations := n;
    var remainingVisits := k;
    var totalDone := 0;
    totalScore := 0;

    for i := 0 to |facts|
      invariant remainingStations == n - totalDone
      invariant remainingVisits == k - i
      invariant totalDone == Sum(facts[..i])
      invariant rows == Rows(n, k, facts[..i])
      invariant totalScore == ScoreSum(rows)
      invariant 0 <= totalScore <= 2 * i
    {
      var f := facts[i];
      var plan := Plan(remainingStations, remainingVisits);
      var percentVisit := VisitPercent(f, plan);
      var expected := ExpectedProgress(i, k);
      var actual := ActualProgress(totalDone + f, n);

      var score, status;
      if actual >= expected {
        score, status := 2, OverallOk;
      } else if percentVisit < 50.0 {
        score, status := 0, Poor;
      } else if percentVisit < 90.0 {
        score, status := 1, Acceptable;
      } else {
        score, status := 2, Good;
      }

      var row := VisitRow(i + 1, plan, f, percentVisit, score, expected, actual, status);
      assert row == Visit(n, k, i, totalDone, f);
      RowsSnoc(n, k, facts, i);
      ScoreSumSnoc(rows, row);
      rows := rows + [row];

      remainingStations := remainingStations - f;
      remainingVisits := remainingVisits - 1;
      totalDone := totalDone + f;
      totalScore := totalScore + score;
    }

    assert facts[..|facts|] == facts;
    monthPercent := MonthPercent(n, totalDone);
  }

  // ---------------------------------------------------------------------
  // Properties of the specification
  // ---------------------------------------------------------------------

  /** The plan spreads the remaining stations evenly: plan times remaining visits gives them back. */
  lemma PlanSpreadsRemaining(remainingStations: int, remainingVisits: int)
    ensures remainingVisits > 0 ==>
      Plan(remainingStations, remainingVisits) * remainingVisits as real == remainingStations as real
    ensures remainingVisits > 0 ==>
      (Plan(remainingStations, remainingVisits) > 0.0 <==> remainingStations > 0)
    ensures remainingVisits <= 0 ==> Plan(remainingStations, remainingVisits) == 0.0
  {
    if remainingVisits > 0 {
      var v := remainingVisits as real;
      var p := remainingStations as real / v;
      assert p * v == remainingStations as real;
      if p > 0.0 { assert p * v > 0.0; }
      if remainingStations > 0 { assert p > 0.0; }
    }
  }

  /**
   * Attainment against a positive plan: attainment times plan is 100 times
   * the fact, so the 50 and 90 thresholds are half and nine tenths of the plan.
   */
  lemma VisitPercentMeaning(fact: int, plan: real)
    ensures plan > 0.0 ==> VisitPercent(fact, plan) * plan == fact as real * 100.0
    ensures plan > 0.0 ==> (VisitPercent(fact, plan) >= 50.0 <==> fact as real >= 0.5 * plan)
    ensures plan > 0.0 ==> (VisitPercent(fact, plan) >= 90.0 <==> fact as real >= 0.9 * plan)
    ensures plan <= 0.0 ==> VisitPercent(fact, plan) == 0.0
  {
    if plan > 0.0 {
      var q := fact as real / plan;
      assert q * plan == fact as real;
      assert q >= 0.5 <==> q * plan >= 0.5 * plan;
      assert q >= 0.9 <==> q * plan >= 0.9 * plan;
    }
  }

  /** Expected progress is positive once visits are planned and reaches 100 exactly at the last planned visit. */
  lemma ExpectedProgressMeaning(i: nat, k: int)
    ensures k > 0 ==> ExpectedProgress(i, k) > 0.0
    ensures k > 0 ==> (ExpectedProgress(i, k) >= 100.0 <==> i + 1 >= k)
    ensures k <= 0 ==> ExpectedProgress(i, k) == 0.0
  {
    if k > 0 {
      var q := (i + 1) as real / k as real;
      assert q * k as real == (i + 1) as real;
      assert q >= 1.0 <==> q * k as real >= k as real;
    }
  }

  /** Actual progress reaches 100 exactly when the quota is met; it is 0 without a positive quota. */
  lemma ActualProgressMeaning(done: int, n: int)
    ensures n > 0 ==> (ActualProgress(done, n) >= 100.0 <==> done >= n)
    ensures n > 0 && done >= 0 ==> ActualProgress(done, n) >= 0.0
    ensures n <= 0 ==> ActualProgress(done, n) == 0.0
  {
    if n > 0 {
      var q := done as real / n as real;
      assert q * n as real == done as real;
      assert q >= 1.0 <==> q * n as real >= n as real;
      assert q >= 0.0 <==> q * n as real >= 0.0;
    }
  }

  /**
   * The pace test without division: with a positive quota and plan, a visit
   * is on pace exactly when stations done times planned visits is at least
   * visits made times quota.
   */
  lemma OnPaceCrossMultiplied(n: int, k: int, i: nat, done: int)
    requires n > 0 && k > 0
    ensures ActualProgress(done, n) >= ExpectedProgress(i, k) <==> done * k >= (i + 1) * n
  {
    var a := done as real / n as real;
    var e := (i + 1) as real / k as real;
    assert a * n as real == done as real;
    assert e * k as real == (i + 1) as real;
    var nk := (n * k) as real;
    assert nk > 0.0;
    assert a * nk == (done * k) as real by {
      assert a * nk == (a * n as real) * k as real;
    }
    assert e * nk == ((i + 1) * n) as real by {
      assert e * nk == (e * k as real) * n as real;
    }
    assert a >= e <==> a * nk >= e * nk;
  }

  /**
   * The two-tier rule as score conditions: 2 points when on pace or at
   * least 90 attainment, 0 only behind pace under 50, 1 in between.
   */
  lemma ClassifyTiers(actual: real, expected: real, visitPercent: real)
    ensures var s := Classify(actual, expected, visitPercent);
      && 0 <= ScoreOf(s) <= 2
      && (s == OverallOk <==> actual >= expected)
      && (ScoreOf(s) == 2 <==> actual >= expected || visitPercent >= 90.0)
      && (ScoreOf(s) == 1 <==> actual < expected && 50.0 <= visitPercent < 90.0)
      && (ScoreOf(s) == 0 <==> actual < expected && visitPercent < 50.0)
  {
  }

  /** Distinct statuses show distinct labels, so a label tells why a visit got its score. */
  lemma LabelInjective(s: Status, t: Status)
    ensures Label(s) == Label(t) ==> s == t
  {
  }

  /**
   * One visit's row: its number and fact, a score in {0, 1, 2} that its
   * status determines, a plan that re-spreads the remaining stations, and
   * the pace test stated without division.
   */
  lemma VisitRowMeaning(n: int, k: int, i: nat, done: int, f: int)
    ensures var r := Visit(n, k, i, done, f);
      && r.visit == i + 1 && r.fact == f
      && 0 <= r.score <= 2 && r.score == ScoreOf(r.status)
      && (k - i > 0 ==> r.plan * (k - i) as real == (n - done) as real)
      && (k - i <= 0 ==> r.plan == 0.0)
      && (r.status == OverallOk <==> r.actualPercent >= r.expectedPercent)
      && (n > 0 && k > 0 ==> (r.status == OverallOk <==> (done + f) * k >= (i + 1) * n))
  {
    PlanSpreadsRemaining(n - done, k - i);
    ClassifyTiers(ActualProgress(done + f, n), ExpectedProgress(i, k), VisitPercent(f, Plan(n - done, k - i)));
    if n > 0 && k > 0 {
      OnPaceCrossMultiplied(n, k, i, done + f);
    }
  }

  /** The month percent reaches 100 exactly when the quota is met; 0 without a positive quota. */
  lemma MonthPercentMeaning(n: int, totalDone: int)
    ensures n > 0 ==> MonthPercent(n, totalDone) * n as real == totalDone as real * 100.0
    ensures n > 0 ==> (MonthPercent(n, totalDone) >= 100.0 <==> totalDone >= n)
    ensures n <= 0 ==> MonthPercent(n, totalDone) == 0.0
  {
    if n > 0 {
      var q := totalDone as real / n as real;
      assert q * n as real == totalDone as real;
      assert q >= 1.0 <==> q * n as real >= n as real;
    }
  }

  /** The month percent is the last row's actual progress. */
  lemma MonthPercentIsLastProgress(n: int, k: int, facts: seq<int>)
    requires facts != []
    ensures MonthPercent(n, Sum(facts)) == Rows(n, k, facts)[|facts| - 1].actualPercent
  {
    var i := |facts| - 1;
    RowsAt(n, k, facts, i);
    SumSnoc(facts, i);
    assert facts[..i + 1] == facts;
  }

  /** Extending the facts by one appends exactly one row and leaves the earlier rows alone. */
  lemma RowsSnoc(n: int, k: int, facts: seq<int>, i: nat)
    requires i < |facts|
    ensures Rows(n, k, facts[..i + 1]) == Rows(n, k, facts[..i]) + [Visit(n, k, i, Sum(facts[..i]), facts[i])]
    ensures Sum(facts[..i + 1]) == Sum(facts[..i]) + facts[i]
  {
    assert facts[..i + 1][..i] == facts[..i];
  }

  lemma ScoreSumSnoc(rows: seq<VisitRow>, row: VisitRow)
    ensures ScoreSum(rows + [row]) == ScoreSum(rows) + row.score
  {
    assert (rows + [row])[..|rows|] == rows;
  }

  lemma {:induction false} SumSnoc(facts: seq<int>, j: nat)
    requires j < |facts|
    ensures Sum(facts[..j + 1]) == Sum(facts[..j]) + facts[j]
  {
    assert facts[..j + 1][..j] == facts[..j];
  }

  lemma {:induction false} SumNonNegative(facts: seq<int>)
    requires forall j :: 0 <= j < |facts| ==> facts[j] >= 0
    ensures Sum(facts) >= 0
  {
    if facts != [] {
      SumNonNegative(facts[..|facts| - 1]);
    }
  }

  /** Row `j` is computed from the facts before it, whatever came after. */
  lemma {:induction false} RowsAt(n: int, k: int, facts: seq<int>, j: nat)
    requires j < |facts|
    ensures Rows(n, k, facts)[j] == Visit(n, k, j, Sum(facts[..j]), facts[j])
  {
    var i := |facts| - 1;
    if j < i {
      RowsAt(n, k, facts[..i], j);
      assert facts[..i][..j] == facts[..j];
    }
  }

  /**
   * Closed form of row `j`: the plan is the quota not yet inspected over the
   * visits not yet made (0 once none remain, never a sign-flipped quotient),
   * and the cumulative percentages count visits and stations up to row `j`.
   */
  lemma {:induction false} RowClosedForm(n: int, k: int, facts: seq<int>, j: nat)
    requires j < |facts|
    ensures var r := Rows(n, k, facts)[j];
      && r.plan == (if k - j > 0 then (n - Sum(facts[..j])) as real / (k - j) as real else 0.0)
      && r.visitPercent == (if r.plan > 0.0 then facts[j] as real / r.plan * 100.0 else 0.0)
      && r.expectedPercent == (if k > 0 then (j + 1) as real / k as real * 100.0 else 0.0)
      && r.actualPercent == (if n > 0 then Sum(facts[..j + 1]) as real / n as real * 100.0 else 0.0)
  {
    RowsAt(n, k, facts, j);
    SumSnoc(facts, j);
  }

  /**
   * The scoring rule on every row: global pace wins and gives 2 points;
   * behind pace, attainment under 50 gives 0, under 90 gives 1, else 2.
   * A visit behind pace with a non-positive plan therefore scores 0.
   */
  lemma {:induction false} ScoreRule(n: int, k: int, facts: seq<int>, j: nat)
    requires j < |facts|
    ensures var r := Rows(n, k, facts)[j];
      && (r.status == OverallOk <==> r.actualPercent >= r.expectedPercent)
      && (r.actualPercent >= r.expectedPercent ==> r.score == 2)
      && (r.actualPercent < r.expectedPercent ==>
            r.score == (if r.visitPercent < 50.0 then 0 else if r.visitPercent < 90.0 then 1 else 2))
      && (r.actualPercent < r.expectedPercent && r.plan <= 0.0 ==> r.score == 0 && r.status == Poor)
      && r.score == ScoreOf(r.status)
  {
    RowsAt(n, k, facts, j);
  }

  /** Every row scores 0, 1 or 2, so the total lies in [0, 2 * |facts|]. */
  lemma {:induction false} ScoreBounds(n: int, k: int, facts: seq<int>)
    ensures forall j :: 0 <= j < |facts| ==> 0 <= Rows(n, k, facts)[j].score <= 2
    ensures 0 <= ScoreSum(Rows(n, k, facts)) <= 2 * |facts|
  {
    var rows := Rows(n, k, facts);
    forall j | 0 <= j < |facts|
      ensures 0 <= rows[j].score <= 2
    {
      RowsAt(n, k, facts, j);
    }
    ScoreSumBounds(rows);
  }

  lemma {:induction false} ScoreSumBounds(rows: seq<VisitRow>)
    requires forall j :: 0 <= j < |rows| ==> 0 <= rows[j].score <= 2
    ensures 0 <= ScoreSum(rows) <= 2 * |rows|
  {
    if rows != [] {
      ScoreSumBounds(rows[..|rows| - 1]);
    }
  }

  /**
   * With no visits planned the expected progress is 0, so with non-negative
   * facts every visit is on pace and scores 2.
   */
  lemma {:induction false} NoPlannedVisits(n: int, facts: seq<int>)
    requires forall j :: 0 <= j < |facts| ==> facts[j] >= 0
    ensures forall j :: 0 <= j < |facts| ==>
      Rows(n, 0, facts)[j].score == 2 && Rows(n, 0, facts)[j].status == OverallOk
    ensures ScoreSum(Rows(n, 0, facts)) == 2 * |facts|
  {
    var rows := Rows(n, 0, facts);
    forall j | 0 <= j < |facts|
      ensures rows[j].score == 2 && rows[j].status == OverallOk
    {
      RowsAt(n, 0, facts, j);
      SumNonNegative(facts[..j + 1]);
      SumSnoc(facts, j);
    }
    ScoreSumAllTwo(rows);
  }

  lemma {:induction false} ScoreSumAllTwo(rows: seq<VisitRow>)
    requires forall j :: 0 <= j < |rows| ==> rows[j].score == 2
    ensures ScoreSum(rows) == 2 * |rows|
  {
    if rows != [] {
      ScoreSumAllTwo(rows[..|rows| - 1]);
    }
  }

  /** With visits planned and nothing inspected, every visit is behind pace and scores 0. */
  lemma {:induction false} AllZeroFacts(n: int, k: int, facts: seq<int>)
    requires k > 0
    requires forall j :: 0 <= j < |facts| ==> facts[j] == 0
    ensures forall j :: 0 <= j < |facts| ==>
      Rows(n, k, facts)[j].score == 0 && Rows(n, k, facts)[j].status == Poor
    ensures ScoreSum(Rows(n, k, facts)) == 0
    ensures MonthPercent(n, Sum(facts)) == 0.0
  {
    SumZero(facts);
    var rows := Rows(n, k, facts);
    forall j | 0 <= j < |facts|
      ensures rows[j].score == 0 && rows[j].status == Poor
    {
      RowsAt(n, k, facts, j);
      SumZero(facts[..j]);
      NothingInspected(n, k, j);
    }
    ScoreSumAllZero(rows);
  }

  /** A visit that inspects nothing, after visits that inspected nothing, is behind pace. */
  lemma NothingInspected(n: int, k: int, i: nat)
    requires k > 0
    ensures Visit(n, k, i, 0, 0).expectedPercent > 0.0
    ensures Visit(n, k, i, 0, 0).actualPercent == 0.0
    ensures Visit(n, k, i, 0, 0).visitPercent == 0.0
    ensures Visit(n, k, i, 0, 0).score == 0 && Visit(n, k, i, 0, 0).status == Poor
  {
    assert (i + 1) as real / k as real > 0.0;
    assert ExpectedProgress(i, k) > 0.0;
    assert ActualProgress(0, n) == 0.0;
    assert VisitPercent(0, Plan(n, k - i)) == 0.0;
  }

  lemma {:induction false} SumZero(facts: seq<int>)
    requires forall j :: 0 <= j < |facts| ==> facts[j] == 0
    ensures Sum(facts) == 0
  {
    if facts != [] {
      SumZero(facts[..|facts| - 1]);
    }
  }

  lemma {:induction false} ScoreSumAllZero(rows: seq<VisitRow>)
    requires forall j :: 0 <= j < |rows| ==> rows[j].score == 0
    ensures ScoreSum(rows) == 0
  {
    if rows != [] {
      ScoreSumAllZero(rows[..|rows| - 1]);
    }
  }

  /**
   * Re-planning: while more than one planned visit remains, the next plan
   * moves by this visit's shortfall spread over the visits still to come.
   * A visit that meets its plan exactly leaves the plan unchanged; a
   * surplus lowers the next target and a shortfall raises it.
   */
  lemma {:induction false} PlanRedistribution(n: int, k: int, facts: seq<int>, j: nat)
    requires j + 1 < |facts| && k - j > 1
    ensures var p := Rows(n, k, facts)[j].plan;
      var q := Rows(n, k, facts)[j + 1].plan;
      && q == p + (p - facts[j] as real) / (k - j - 1) as real
      && (facts[j] as real == p ==> q == p)
      && (facts[j] as real > p ==> q < p)
      && (facts[j] as real < p ==> q > p)
  {
    RowsAt(n, k, facts, j);
    RowsAt(n, k, facts, j + 1);
    SumSnoc(facts, j);
    var r := (n - Sum(facts[..j])) as real;
    var v := (k - j) as real;
    Spread(r, facts[j] as real, v);
  }

  /** (r - f) / (v - 1) == r / v + (r / v - f) / (v - 1) for v > 1. */
  lemma Spread(r: real, f: real, v: real)
    requires v > 1.0
    ensures (r - f) / (v - 1.0) == r / v + (r / v - f) / (v - 1.0)
  {
    var w := v - 1.0;
    var p := r / v;
    var a := (r - f) / w;
    var b := (p - f) / w;
    assert a * w == r - f;
    assert b * w == p - f;
    assert p * v == r;
    assert (p + b) * w == p * w + b * w;
    assert (a - (p + b)) * w == 0.0;
  }

  /** N = 47, K = 4, facts 12, 13, 13, 2: on pace three times, then a shortfall. */
  lemma FullPaceThenShortfall()
    ensures var rows := Rows(47, 4, [12, 13, 13, 2]);
      && |rows| == 4
      && rows[0].score == 2 && rows[1].score == 2 && rows[2].score == 2 && rows[3].score == 0
      && rows[0].status == OverallOk && rows[1].status == OverallOk && rows[2].status == OverallOk
      && rows[3].status == Poor
      && rows[3].plan == 9.0
      && ScoreSum(rows) == 6
      && MonthPercent(47, Sum([12, 13, 13, 2])) == 4000.0 / 47.0
  {
    var facts := [12, 13, 13, 2];
    PrefixSums4(facts);
    var rows := Rows(47, 4, facts);
    RowsAt(47, 4, facts, 0);
    RowsAt(47, 4, facts, 1);
    RowsAt(47, 4, facts, 2);
    RowsAt(47, 4, facts, 3);
    assert rows == [Visit(47, 4, 0, 0, 12), Visit(47, 4, 1, 12, 13), Visit(47, 4, 2, 25, 13), Visit(47, 4, 3, 38, 2)];
    ScoreSum4(rows);
  }

  /** N = 10, K = 2, facts 15, 5: the overshoot makes the second plan -5, yet pace still gives 2. */
  lemma Overshoot()
    ensures var rows := Rows(10, 2, [15, 5]);
      && |rows| == 2
      && rows[0].plan == 5.0 && rows[0].visitPercent == 300.0
      && rows[0].actualPercent == 150.0 && rows[0].expectedPercent == 50.0
      && rows[0].score == 2 && rows[0].status == OverallOk
      && rows[1].plan == -5.0 && rows[1].visitPercent == 0.0
      && rows[1].actualPercent == 200.0 && rows[1].expectedPercent == 100.0
      && rows[1].score == 2 && rows[1].status == OverallOk
      && ScoreSum(rows) == 4
      && MonthPercent(10, Sum([15, 5])) == 200.0
  {
    var facts := [15, 5];
    assert facts[..0] == [] && facts[..1] == [15];
    assert Sum(facts) == 20;
    var rows := Rows(10, 2, facts);
    RowsAt(10, 2, facts, 0);
    RowsAt(10, 2, facts, 1);
    assert rows == [Visit(10, 2, 0, 0, 15), Visit(10, 2, 1, 15, 5)];
    assert rows[..1] == [rows[0]];
  }

  /** N = 47, K = 4, ten stations per visit: the plan rises as the shortfall is spread. */
  lemma Redistribution()
    ensures var rows := Rows(47, 4, [10, 10, 10, 10]);
      && |rows| == 4
      && rows[0].plan == 47.0 / 4.0 && rows[1].plan == 37.0 / 3.0
      && rows[2].plan == 27.0 / 2.0 && rows[3].plan == 17.0
      && MonthPercent(47, Sum([10, 10, 10, 10])) == 4000.0 / 47.0
  {
    var facts := [10, 10, 10, 10];
    PrefixSums4(facts);
    RowsAt(47, 4, facts, 0);
    RowsAt(47, 4, facts, 1);
    RowsAt(47, 4, facts, 2);
    RowsAt(47, 4, facts, 3);
  }

  lemma PrefixSums4(facts: seq<int>)
    requires |facts| == 4
    ensures Sum(facts[..0]) == 0
    ensures Sum(facts[..1]) == facts[0]
    ensures Sum(facts[..2]) == facts[0] + facts[1]
    ensures Sum(facts[..3]) == facts[0] + facts[1] + facts[2]
    ensures Sum(facts) == facts[0] + facts[1] + facts[2] + facts[3]
  {
    SumSnoc(facts, 0);
    SumSnoc(facts, 1);
    SumSnoc(facts, 2);
    SumSnoc(facts, 3);
    assert facts[..4] == facts;
  }

  lemma ScoreSum4(rows: seq<VisitRow>)
    requires |rows| == 4
    ensures ScoreSum(rows) == rows[0].score + rows[1].score + rows[2].score + rows[3].score
  {
    ScoreSumSnoc([], rows[0]);
    ScoreSumSnoc([rows[0]], rows[1]);
    ScoreSumSnoc([rows[0], rows[1]], rows[2]);
    ScoreSumSnoc([rows[0], rows[1], rows[2]], rows[3]);
    assert [] + [rows[0]] == [rows[0]];
    assert [rows[0]] + [rows[1]] == [rows[0], rows[1]];
    assert [rows[0], rows[1]] + [rows[2]] == [rows[0], rows[1], rows[2]];
    assert rows == [rows[0], rows[1], rows[2]] + [rows[3]];
  }
}
