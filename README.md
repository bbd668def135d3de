# Service score: dynamically re-planned visit scoring

This project models the scoring engine of the service-score application: the
function `calc_flexible_score_dynamic(N, K, facts)`. It scores the visits of
a field engineer against a monthly contract of `N` stations spread over `K`
planned visits. `facts` holds the number of stations actually inspected on
each visit, in order.

The function makes one pass over the facts and keeps four running values:
the stations still to inspect, the visits still to make, the stations done
and the points earned. For every visit it:

- re-plans the visit's target as the remaining stations over the remaining
  visits, or 0 once no visit remains;
- computes the visit's attainment of that target, which is 0 when the target
  is not positive;
- compares the expected cumulative progress `(i+1)/K*100` with the actual
  progress `done/N*100`.

A visit that keeps the month on pace scores 2 ("общий OK"). Otherwise its own
attainment decides: under 50 scores 0, under 90 scores 1 and anything else
scores 2. The function returns the rows, the total score and the share of the
quota done in the month.

The model is one module, `ServiceScore`, in `service_score.dfy`:

- Specification functions give one visit's row (`Plan`, `VisitPercent`,
  `ExpectedProgress`, `ActualProgress`, `Classify`, `ScoreOf`, `Visit`) and
  the whole month (`Sum`, `Rows`, `ScoreSum`, `MonthPercent`). Each of them
  is tied to its source lines by a lemma that states what it means; the
  table below names those lemmas.
- `Label` gives the text each status shows (service_score_app.py:20, 24, 27
  and 30). `LabelInjective` states that no two statuses share a label.
- `Rows` is defined recursively: each row sees only the facts before it.
- `CalcFlexibleScoreDynamic` is the source's loop. It runs over the same four
  accumulators and has the same branch structure. Its loop invariants tie it
  to `Rows`, `Sum` and `ScoreSum`.
- Lemmas state the scoring rule, the bounds, the re-planning behaviour, the
  edge cases and three concrete traces.

Numbers are exact: `N`, `K` and the facts are `int`, and every quotient and
percentage is a `real`. The facts are non-negative because the input form
demands it (service_score_app.py:65). Only the lemmas that need this assume
it. The loop itself accepts any integers, as the source does.

Notes on the function's behaviour:

- The function has no guard of its own for `N <= 0`, `K <= 0` or empty facts.
  Only the caller checks, with `N > 0 and K > 0 and num_visits > 0`
  (service_score_app.py:69). Because `num_visits > 0`, the caller never passes
  empty facts. Called directly with `N = 0` and `K = 2`, the function still
  produces one row per fact, and so does the model.
- When the remaining visits reach 0 or less, the plan is 0
  (service_score_app.py:12). It is never a sign-flipped quotient. Only an
  overshoot of stations can make the plan negative.
- The attainment is 0 whenever the plan is not positive (`P_i > 0` guard at
  line 13), not only when it is exactly 0.

## Model

| member | source | states |
|---|---|---|
| `ServiceScore.CalcFlexibleScoreDynamic` | service_score_app.py:3-44 | The loop keeps `remaining_stations == N - total_done`, `remaining_visits == K - i` and `total_done == sum(facts[..i])`. It returns exactly the rows of `Rows`, one per fact, in order, carrying visit number `i+1` and fact `facts[i]`. The total is the sum of the row scores and lies in `[0, 2*len(facts)]`. The month percent is `sum(facts)/N*100`, or 0 when `N <= 0`. Empty facts give no rows, a total of 0 and a month percent of 0. |
| `ServiceScore.VisitRowMeaning` | service_score_app.py:11-36 | `Visit` builds one row. The row carries visit number `i+1` and fact `f`. Its score is in {0,1,2} and is fixed by its status. Its plan times the remaining visits `K - i` gives back the remaining stations `N - done`; with no visits remaining the plan is 0. The status is "общий OK" exactly when actual progress is at least expected progress. With `N, K > 0` that holds exactly when `(done + f) * K >= (i + 1) * N`. |
| `ServiceScore.PlanSpreadsRemaining` | service_score_app.py:12 | `Plan` times the remaining visits equals the remaining stations when visits remain. The plan is then positive exactly when stations remain. With no visits remaining the plan is 0. |
| `ServiceScore.VisitPercentMeaning` | service_score_app.py:13 | Against a positive plan, attainment times plan equals `100 * fact`. So attainment is at least 50 exactly when the fact is at least half the plan, and at least 90 exactly when it is at least nine tenths of it. With a non-positive plan the attainment is 0. |
| `ServiceScore.ExpectedProgressMeaning` | service_score_app.py:15 | With `K > 0`, expected progress is positive and reaches 100 exactly at visit `K` and after it. With `K <= 0` it is 0. |
| `ServiceScore.ActualProgressMeaning` | service_score_app.py:16 | With `N > 0`, actual progress reaches 100 exactly when the stations done reach `N`, and it is non-negative for non-negative stations done. With `N <= 0` it is 0. |
| `ServiceScore.OnPaceCrossMultiplied` | service_score_app.py:15-18 | With `N, K > 0`, the pace test `actual >= expected` holds exactly when `done * K >= (i + 1) * N`. |
| `ServiceScore.ClassifyTiers` | service_score_app.py:18-30 | `Classify` and `ScoreOf`: the score is in {0,1,2}, and the status is "общий OK" exactly when on pace. The score is 2 exactly when on pace or attainment is at least 90. It is 1 exactly when behind pace with attainment in [50, 90). It is 0 exactly when behind pace with attainment under 50. |
| `ServiceScore.LabelInjective` | service_score_app.py:18-30 | `Label` gives the four labels of lines 20, 24, 27 and 30, and no two statuses share a label. |
| `ServiceScore.SumSnoc` | service_score_app.py:40 | `Sum` over the first `j+1` facts is `Sum` over the first `j` plus `facts[j]`. This is the update `total_done += F_i`. |
| `ServiceScore.SumZero` | service_score_app.py:40 | `Sum` over facts that are all 0 is 0. |
| `ServiceScore.ScoreSumSnoc` | service_score_app.py:41 | Appending a row adds its score to `ScoreSum`. This is the update `total_score += score`. |
| `ServiceScore.MonthPercentMeaning` | service_score_app.py:43 | With `N > 0`, the month percent times `N` is `100 * total_done`, and it reaches 100 exactly when `total_done >= N`. With `N <= 0` it is 0. |
| `ServiceScore.MonthPercentIsLastProgress` | service_score_app.py:16-43 | For non-empty facts, the month percent equals the last row's actual progress. |
| `ServiceScore.Rows` | service_score_app.py:10-36 | Exactly one row per fact. Row `j` has visit number `j+1` and fact `facts[j]`. |
| `ServiceScore.RowsAt` | service_score_app.py:10-41 | Row `j` depends only on `N`, `K`, `j`, the stations done before it and its own fact. Later facts do not change earlier rows. |
| `ServiceScore.RowClosedForm` | service_score_app.py:5-16 | Row `j`'s plan is `(N - sum(facts[..j])) / (K - j)` when `K - j > 0`, and 0 otherwise. Its attainment is `facts[j]/plan*100` when the plan is positive, and 0 otherwise. Its expected progress is `(j+1)/K*100`, or 0 when `K <= 0`. Its actual progress is `sum(facts[..j+1])/N*100`, or 0 when `N <= 0`. |
| `ServiceScore.ScoreRule` | service_score_app.py:18-30 | Global pace dominates: the status is "общий OK" exactly when actual progress is at least expected progress, and such a row scores 2 whatever its attainment. Behind pace, attainment under 50 gives 0, under 90 gives 1, otherwise 2. A behind-pace row with a non-positive plan scores 0 with status "<50% плохо". |
| `ServiceScore.ScoreBounds` | service_score_app.py:18-41 | Every row scores 0, 1 or 2, and the total lies in `[0, 2*len(facts)]`. |
| `ServiceScore.ScoreSumBounds` | service_score_app.py:41 | The accumulated total of scores in `[0, 2]` lies in `[0, 2*len(rows)]`. |
| `ServiceScore.NoPlannedVisits` | service_score_app.py:15-20 | With `K = 0` and non-negative facts, every row scores 2 with status "общий OK", and the total is `2*len(facts)`. |
| `ServiceScore.AllZeroFacts` | service_score_app.py:12-30 | With `K > 0` and every fact 0, every row is behind pace and scores 0 with status "<50% плохо". The total is 0 and the month percent is 0. |
| `ServiceScore.NothingInspected` | service_score_app.py:12-24 | With `K > 0`, a visit with fact 0 after visits that inspected nothing has positive expected progress and zero actual progress and attainment. It scores 0 with status "<50% плохо". |
| `ServiceScore.PlanRedistribution` | service_score_app.py:12-39 | While more than one planned visit remains, the next plan equals this plan plus this visit's shortfall (`plan - fact`) spread over the remaining visits. Meeting the plan exactly keeps the plan. A surplus lowers the next plan, and a shortfall raises it. |
| `ServiceScore.Spread` | service_score_app.py:12 | The algebra behind re-planning: `(r-f)/(v-1) == r/v + (r/v - f)/(v-1)` for `v > 1`. |
| `ServiceScore.FullPaceThenShortfall` | service_score_app.py:3-44 | `N=47, K=4, facts=[12,13,13,2]` gives scores 2, 2, 2, 0, with three "общий OK" rows and then "<50% плохо". The last plan is 9, the total is 6 and the month percent is 4000/47. |
| `ServiceScore.Overshoot` | service_score_app.py:3-44 | `N=10, K=2, facts=[15,5]`: visit 1 has plan 5, attainment 300, actual progress 150 against 50 expected, and score 2 with "общий OK". Visit 2 has plan -5, attainment 0, actual progress 200 against 100 expected, and score 2 by global pace. The total is 4 and the month percent is 200. |
| `ServiceScore.Redistribution` | service_score_app.py:5-43 | `N=47, K=4, facts=[10,10,10,10]` gives plans 47/4, 37/3, 27/2 and 17, and a month percent of 4000/47. |
| `ServiceScore.SumNonNegative` | service_score_app.py:40 | The stations done, summed over non-negative facts, are non-negative. |

## Left out

- The Streamlit page (service_score_app.py:46-81) is not modelled: its widgets, session state, columns, metrics and the caller-side validation message are user-interface plumbing.
- Display formatting is not modelled. This covers `round(..., 1)` on the plan and the percentages, the `"%"` suffix strings and the `"#i"` visit label. Rows keep exact numeric fields, and the visit number is a `nat`.
- Floating point is not modelled. The source computes with IEEE-754 doubles, and the model uses exact rationals. The two can differ only at exact tie boundaries: attainment exactly 50 or 90, and actual progress exactly equal to expected progress.
- The spreadsheet import of station quotas, the journal of past reports and the cached company directory are not part of this model. They are I/O and persistence around the engine.
