# Greedy multilabel oversampling, modelled in Dafny

This project models the core of `MultilabelOversampler` from the
`multilabel_oversampling` package. The core is the greedy accept/reject
search that balances a multilabel data frame by appending duplicate rows.
It also models how the constructor defaults the two search budgets,
including the defaults of 1000 iterations and 100 tries used when an
argument is left out.

- **Data.** A row is its index label plus its 0/1 values in the target
  columns (`Labels.Row`). A frame is a sequence of rows. `Labels.Counts` is
  the per-label positive-count vector, which `df[target_list].sum()` computes.
- **Score.** The source minimises the sample standard deviation
  (denominator k − 1) of the count vector. The model keeps the exact integer
  `k·Σc² − (Σc)²` instead. `Spread.VarianceIdentity` proves that this integer
  is k(k − 1) times the sample variance, defined over the reals, and
  `Spread.NumeratorNonNegative` that it is never negative. So for a
  fixed k, strict `<` on the integer is strict `<` on the deviation. With
  fewer than two labels, pandas gives NaN. That case is `Score.Undefined`,
  and `Spread.Lower`, like Python's `<`, is false whenever either side is
  undefined.
- **Randomness.** `df.sample(n=1)` becomes a caller-supplied sequence of
  positions into the original frame, consumed one per draw.
- **Search.** `Oversampler.Search` is the try loop. `Oversampler.Step` is
  one iteration, written as the transition of a state machine.
  `Oversampler.Iterate` and `Oversampler.Fit` are the whole run. All four are
  reference definitions. `FitLoop.Oversample` is the loop the source writes:
  an iteration loop, and inside it a try loop (`FitLoop.TryRows`) that keeps
  the label counts incrementally. It is proved equal to `Oversampler.Fit`.
- **Outputs.** A run yields `df_new` (`table`), `res_std` (`scores`, the
  accepted scores), `res_bad` (`rejections`, one list per iteration), a
  status, and the number of draws used. The status models the "No
  improvement" message. `Completed` means the iteration budget ran out.
  `TriesExhausted` means the run stopped on a last try.

Two behaviours of the code are reproduced exactly:

- The stop check at line 91 compares the try counter with the last try
  index after the try loop ends. An iteration that accepts on its final try
  therefore also ends the run, after appending the row and its score but
  before recording the iteration's rejections (`AcceptOnLastTryStops`).
- Draws always come from the original frame, never from the growing one.

The Python error paths become `Oversampler.FitError` values:

- Sampling from an empty frame raises an error. This is `EmptyFrame`.
- Reading `try_` when no try ran raises an error. This is
  `TryCounterUnbound`. It happens only when the try budget is negative: a
  falsy budget is replaced by one million, and any other integer is kept.
- `DrawsExhausted` exists only in the model: the supplied random source ran
  out. `FitOutcome` proves that `adds · tries` draws always suffice.

## Model

| member | source | states |
|---|---|---|
| Budget.Effective | multilabel_oversampling/multilabel_oversampling.py:44-51 | a truthy budget is stored unchanged; `None` or `0` is replaced by one million |
| Budget.Init | multilabel_oversampling/multilabel_oversampling.py:44-51 | both stored budgets are truthy (non-zero); each is the argument when that is truthy, one million otherwise |
| Budget.Construct | multilabel_oversampling/multilabel_oversampling.py:33-51 | an omitted argument stores its default (1000 iterations, 100 tries); a passed one is stored as `Effective` defaults it |
| Budget.OmittedIsDefault | multilabel_oversampling/multilabel_oversampling.py:33 | leaving an argument out stores the same budgets as passing its default explicitly |
| Budget.EffectiveIdempotent | multilabel_oversampling/multilabel_oversampling.py:44-51 | a stored budget is truthy, so defaulting it again changes nothing |
| Budget.EffectivePositive | multilabel_oversampling/multilabel_oversampling.py:44-51 | a budget argument that is `None` or not negative is stored as a positive number |
| Labels.Counts | multilabel_oversampling/multilabel_oversampling.py:74 | the summed label columns: its own contract gives only the length k; `CountsArePositives` and `CountsAppend` state what it computes |
| Labels.CountsArePositives | multilabel_oversampling/multilabel_oversampling.py:74 | entry j of the summed label columns is the number of rows positive for label j, between 0 and the row count |
| Labels.CountsAppend | multilabel_oversampling/multilabel_oversampling.py:80-81 | the counts of concatenated frames are the element-wise sum of their counts |
| Spread.ScoreOf | multilabel_oversampling/multilabel_oversampling.py:74 | the score is undefined (NaN) exactly when there are fewer than two labels |
| Spread.ScoreIsScaledVariance | multilabel_oversampling/multilabel_oversampling.py:74 | a defined score is k(k−1) times the sample variance (denominator k−1) of the k label counts |
| Spread.VarianceIdentity | multilabel_oversampling/multilabel_oversampling.py:74 | for k ≥ 2 counts, k·Σc² − (Σc)² equals k(k−1) times their sample variance |
| Spread.NumeratorNonNegative | multilabel_oversampling/multilabel_oversampling.py:74 | k·Σc² − (Σc)² is never negative, since it is k times a sum of squared deviations |
| Spread.Lower | multilabel_oversampling/multilabel_oversampling.py:83 | Python's strict `<` on two scores, false when either is NaN; it has no contract of its own, and `LowerIsLowerVariance` states what it means |
| Spread.LowerIsLowerVariance | multilabel_oversampling/multilabel_oversampling.py:83 | for equally many labels, one score is lower than another exactly when its sample variance is lower; with fewer than two labels nothing is lower |
| Oversampler.ScoreWith | multilabel_oversampling/multilabel_oversampling.py:80-81 | the score of the frame with a row appended is the score of the old counts plus that row's labels |
| Oversampler.Search | multilabel_oversampling/multilabel_oversampling.py:78-90 | the try loop draws consecutive positions of the random source from the original frame; it accepts exactly when the new score is strictly lower; it stops only on acceptance or the last try; its rejections are exactly the earlier draws, in draw order, with their scores; an empty frame fails, and the random source can run out only if fewer draws remain than tries |
| Oversampler.Step | multilabel_oversampling/multilabel_oversampling.py:74-94 | one iteration fails only on an empty frame or a source with fewer draws left than tries; otherwise it consumes between 1 and `tries` draws |
| Oversampler.StepTransition | multilabel_oversampling/multilabel_oversampling.py:78-94 | one iteration ends the run exactly when its try loop ended on the last try index; an iteration that goes on accepted its row; the accepted row and score, and nothing else, are appended; the try loop's rejections are recorded exactly when the run goes on; the draws used are the try loop's |
| Oversampler.Iterate | multilabel_oversampling/multilabel_oversampling.py:73-94 | the iteration loop from a given iteration on; it has no contract of its own, and `IterateSound`, `IterateAccounts`, `IterateErrors` and `IterateHasDraws` state its behaviour |
| Oversampler.Fit | multilabel_oversampling/multilabel_oversampling.py:58-100 | the whole run from the original frame; it has no contract of its own, and the `Fit*` lemmas below state its behaviour |
| Oversampler.FitGrowsFromOriginal | multilabel_oversampling/multilabel_oversampling.py:67-68 | the returned frame has `|df| + len(res_std)` rows, starts with the original frame, and every added row is a row of the original frame |
| Oversampler.FitCounts | multilabel_oversampling/multilabel_oversampling.py:79-84 | the label counts of the returned frame are the original counts plus the counts of the added rows |
| Oversampler.FitScoresDecrease | multilabel_oversampling/multilabel_oversampling.py:74-85 | the first accepted score is strictly below the original frame's, the accepted scores strictly decrease, and the last one is the returned frame's score |
| Oversampler.FitBookkeeping | multilabel_oversampling/multilabel_oversampling.py:73-94 | at most one accepted row per iteration and at most `number_of_adds` in all; `len(res_bad) ≤ len(res_std) ≤ len(res_bad) + 1`; list j is shorter than `number_of_tries − 1`, and each entry is the index label of a row of the original frame with a score that did not lower iteration j's starting score; no lists at all unless two tries are allowed |
| Oversampler.FitStops | multilabel_oversampling/multilabel_oversampling.py:77-94 | a run completes exactly when every budgeted iteration recorded its rejections; a completed run accepted in every iteration and used exactly the draws its lists account for (each list plus the accepted draw); a run that stopped early did so before the iteration budget ran out, and its last iteration used exactly `number_of_tries` draws; every earlier iteration used fewer |
| Oversampler.FitDraws | multilabel_oversampling/multilabel_oversampling.py:77-94 | `res_bad[j]` is exactly the draws iteration j turned down, in draw order, each the drawn row's index label with the score the frame `df_new` had at the start of iteration j would have got with it; the next draw is the row iteration j appended; iteration j starts where iteration j − 1's draws left off; a run that stopped used `number_of_tries` draws in its last iteration; none of its first `number_of_tries − 1` draws lowered the score that iteration started from, and the last draw is the appended row if it accepted, or otherwise did not lower the score either |
| Oversampler.SingleTryStopsAfterFirstIteration | multilabel_oversampling/multilabel_oversampling.py:78-93 | with one try per iteration, the first iteration always ends the run with the stop status: no rejection lists, at most one added row |
| Oversampler.FewLabelsAddNothing | multilabel_oversampling/multilabel_oversampling.py:81-83 | with fewer than two labels (NaN scores) no row is ever accepted |
| Oversampler.FitOutcome | multilabel_oversampling/multilabel_oversampling.py:73-91 | a budget of zero or less returns the original frame untouched; the try counter is unbound exactly when the try budget is not positive; only an empty frame fails to be drawn from; `adds · tries` draws always suffice |
| Oversampler.NoImprovementStalls | multilabel_oversampling/multilabel_oversampling.py:78-93 | when no row of the original lowers its score, the first iteration rejects every try and the run returns the original frame with nothing recorded |
| Oversampler.BalancedFrameStalls | multilabel_oversampling/multilabel_oversampling.py:78-93 | a frame whose labels are already equally frequent (score 0) is returned unchanged after one fruitless iteration |
| Oversampler.AcceptOnLastTryStops | multilabel_oversampling/multilabel_oversampling.py:83-94 | on a concrete frame with one try and five iterations allowed, the accepted first draw is kept and its score recorded, yet the run stops with no rejection list |
| FitLoop.TryRows | multilabel_oversampling/multilabel_oversampling.py:77-90 | the imperative try loop, with incremental counts, returns exactly what the reference try loop does |
| FitLoop.Oversample | multilabel_oversampling/multilabel_oversampling.py:58-100 | the imperative nested loop, with its break and the try-counter stop, returns exactly what the reference run does |
| FitLoop.ConstructAndFit | multilabel_oversampling/multilabel_oversampling.py:33-94 | constructing, with each budget argument omitted or passed, and then fitting runs the reference search on the stored budgets; a try budget that is omitted or not negative never leaves the try counter unbound; a passed negative one does, whenever the stored iteration budget is positive (:91) |

## Left out

- Plotting (`plot_all_tries`, `plot_results`, `plot_distr`,
  `plot_index_counts`), which is not purely presentation:
  - `fit` calls `plot_all_tries` when `plot` is set, which is the
    constructor default, and at least one row was accepted
    (multilabel_oversampling.py:101-102).
  - `plot_all_tries` reads `max` of the scores in `res_bad[0]` (:117).
    It raises `IndexError` when `res_bad` is empty, as in
    `AcceptOnLastTryStops`. It raises `ValueError` when `res_bad[0]` is
    empty, which happens when iteration 0 accepted on its first try with
    at least two tries allowed.
  - In those cases `fit` raises instead of returning `df_new`, although it
    has already stored `df_new`, `res_std` and `res_bad` (:98-100).
  - The model returns the run in these cases too. It also does not model
    the `(df_new, plot_at)` return shape. That shape is used only when
    `plot` is set and `res_std` is not empty.
- `print` and `tqdm` progress output, and the `details`, `tqdm_disable` and
  `plot` flags. These do not affect any accept/reject decision. The "No
  improvement" message is modelled as the `TriesExhausted` status.
- `seed_everything` and `create_fake_data`. Global seeding and fixture
  generation are replaced by the explicit draw sequence.
- `reset`, which only clears fields. Storing results on `self` is modelled
  by returning them.
- Floating-point standard deviation and its rounding. The model compares
  exact integers, proved to order frames as the exact deviation does. A
  floating-point tie or near-tie could decide differently.
- The one-million default is a float in the source, which `range()` would
  reject. The model stores it as an integer.
- Frames whose target columns are missing (pandas raises `KeyError`) or not
  0/1. Rows carry only the projection of their labels, each in {0, 1}, and
  the number of labels is passed in.
- pandas `deepcopy`/`concat`/`sample` internals. Frames are values, so the
  original is never changed.
- Oversampler.Search: the random source is finite, so a run can fail with
  `DrawsExhausted`, which the unbounded Python generator never does.
  `FitOutcome` shows that this cannot happen with `adds · tries` draws.
- Oversampler.Step: its own contract states only when an iteration fails
  and how many draws it uses. How it ends the run and what it appends is
  stated by `Oversampler.StepTransition`, so that the function's contract
  does not repeat its body.
- Oversampler.FitBookkeeping: it states what every rejection list holds,
  not which draws they are. The exact draws are stated by
  `Oversampler.FitDraws`.
