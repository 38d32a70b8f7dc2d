# DataScorer sweep bookkeeping, in Dafny

DataScorer rates item-based recommenders trained on boolean (implicit)
preference data. It runs one evaluation per train/evaluation split ratio of a
fixed ladder, once with Tanimoto item similarity and once with
log-likelihood similarity. It then prints a table of the scores with the best
ratio's row flagged. The evaluation itself belongs to Apache Mahout. The
repository's own logic is the bookkeeping around it, and that is what this
project models:

- `ladder.dfy`, module `Ladder`: the table of 18 (training %, evaluation %)
  pairs built in `setUp`, and the fractions each pair is turned into before it
  reaches the evaluator.
- `selection.dfy`, module `Selection`: the best-row selection of the score
  loop. It is a left fold, `Select`, over the scores that carries the loop's
  two locals `lowest` and `index`. An independent first-minimum predicate,
  `IsFirstMinIn`, is the reference it is compared with.
- `labels.dfy`, module `Labels`: the row labels `"<train> : <eval>"` as
  `String.valueOf(double)` writes whole numbers (`"10.0 : 90.0"`), and the
  marker `"  *** -->"` appended to the chosen label.
- `sweep.dfy`, module `Sweep`: one sweep over the ladder with an algorithm
  tag, replacing the two near-identical sweep methods. `Sweep` is the
  functional version, built from `Scores` (the evaluator's score for each
  rung, in ladder order) and `Tabulate`. `ScoreLoop` follows the method's loop for the scores
  and the best-row update. `RunSweep` runs it, builds the labels with
  `Headers`, and marks the chosen one.

The Mahout evaluator cannot be modelled, so it is the parameter
`evaluate: (Algorithm, real, real) -> real`. Every sweep member is a function
of it. The ladder is also a parameter `rs` of the sweep members, because the
scorer reads it from a field. `LadderSweep` instantiates it with the table
that `setUp` stores.

Two facts about the code shape the model:

- The ladder has 18 ratios in five-point steps, from 10/90 to 95/5.
- The loop does not always flag the lowest score. It starts from
  `lowest = 0`, and `lowest == 0` means "nothing chosen yet". So a score of
  exactly 0, which is a perfect mean absolute difference, is replaced by the
  next score whatever that score is, once it has been adopted
  (`ZeroLosesToNext`, `SelectSkipsZero`). For non-negative scores, the only
  scores a mean absolute difference gives, a 0 is always adopted. With no score of 0
  the loop flags the first minimum (`SelectNonZero`). `SelectAfterLastZero`
  gives the exact choice for non-negative scores that contain a 0.

## Model

| member | source | states |
|---|---|---|
| Ladder.RatiosAreRungs | src/main/java/com/fazland/recommenders/datascorer/DataScorer.java:104-123 | The table has exactly 18 entries, and entry i is (10 + 5i, 90 - 5i). |
| Ladder.RatiosShape | src/main/java/com/fazland/recommenders/datascorer/DataScorer.java:104-123 | Every pair is valid: both shares are positive and they sum to 100. The training share starts at 10, rises by exactly 5 per entry, ends at 95, and strictly increases along the table. |
| Ladder.Fractions | src/main/java/com/fazland/recommenders/datascorer/DataScorer.java:157 | The two values passed to the evaluator are the two percentages divided by 100: each fraction times 100 gives back its percentage. |
| Ladder.FractionsOfValid | src/main/java/com/fazland/recommenders/datascorer/DataScorer.java:157 | For a pair that sums to 100 with both shares positive, each fraction lies strictly between 0 and 1, and the two fractions sum to 1. |
| Ladder.LadderFractions | src/main/java/com/fazland/recommenders/datascorer/DataScorer.java:104-123 | Every entry of the table gives fractions strictly inside (0, 1) that sum to 1. |
| Selection.Step | src/main/java/com/fazland/recommenders/datascorer/DataScorer.java:162-165 | One loop iteration either keeps the state or adopts (score, i). When `lowest` is 0 it always adopts. Otherwise the new `lowest` is no greater than either the old one or the score, and a score equal to the old `lowest` changes nothing, so ties keep the earlier index. |
| Selection.Select | src/main/java/com/fazland/recommenders/datascorer/DataScorer.java:135-165 | After the loop runs over a non-empty score sequence, the index is a valid position and `lowest` is the score at that position. Over no scores, the initial values (0, 0) remain. |
| Selection.SelectAdoptsFirst | src/main/java/com/fazland/recommenders/datascorer/DataScorer.java:135-136 | The first score is adopted unconditionally: after one iteration the state is (first score, 0). |
| Selection.SelectNonZero | src/main/java/com/fazland/recommenders/datascorer/DataScorer.java:162-165 | If no score is 0, the chosen index is the first position of the minimum. Ties go to the earliest position. |
| Selection.SelectSkipsZero | src/main/java/com/fazland/recommenders/datascorer/DataScorer.java:162-165 | A score of exactly 0 at any position except the last is never the final choice. |
| Selection.SelectAfterLastZero | src/main/java/com/fazland/recommenders/datascorer/DataScorer.java:162-165 | For non-negative scores whose last 0 is at position z: the choice is z if z is the last position. Otherwise the choice is the first minimum of the scores after z. |
| Selection.ZeroLosesToNext | src/main/java/com/fazland/recommenders/datascorer/DataScorer.java:162-165 | For scores [0, 0.5] the loop chooses position 1 with 0.5, although position 0 is the first minimum. |
| Labels.DecimalRoundTrip | src/main/java/com/fazland/recommenders/datascorer/DataScorer.java:160 | Reading back the decimal digits written for a percentage gives the same number. |
| Labels.DoubleText | src/main/java/com/fazland/recommenders/datascorer/DataScorer.java:160 | The text of a whole-numbered percentage is decimal digits that read back as that number, followed by ".0". The digits have no leading zero: a first digit 0 means the number is 0, and then it is the only digit. |
| Labels.DecimalUnique | src/main/java/com/fazland/recommenders/datascorer/DataScorer.java:160 | Any digit string without a leading zero is exactly the decimal text of its value, so the digits of a percentage are unique. |
| Labels.DoubleTextUnique | src/main/java/com/fazland/recommenders/datascorer/DataScorer.java:160 | Any text of digits without a leading zero followed by ".0" is the text of its value, so the facts `DoubleText` ensures single out the one text `String.valueOf` writes. |
| Labels.Header | src/main/java/com/fazland/recommenders/datascorer/DataScorer.java:160 | A label is exactly the training text, then the three characters " : ", then the evaluation text: prefix, separator, suffix and total length are all fixed. |
| Labels.Mark | src/main/java/com/fazland/recommenders/datascorer/DataScorer.java:168 | The chosen label becomes its old text followed by the marker. Every other label is unchanged. |
| Labels.HeaderUnmarked | src/main/java/com/fazland/recommenders/datascorer/DataScorer.java:160 | An unmarked label never ends with the marker, because its text ends in ".0". |
| Labels.MarkedExactlyOne | src/main/java/com/fazland/recommenders/datascorer/DataScorer.java:168 | After marking position k, a label carries the marker if and only if it is at k. Every other label is still its plain "train : eval" text. |
| Labels.HeadersDistinct | src/main/java/com/fazland/recommenders/datascorer/DataScorer.java:160 | No two ratios of the table share a label, so the one marked label identifies one ratio. |
| Sweep.ScoreAtFractions | src/main/java/com/fazland/recommenders/datascorer/DataScorer.java:156-158 | A rung's score is the evaluator applied to the algorithm and to the two fractions that, times 100, give the training and evaluation percentages. |
| Sweep.Tabulate | src/main/java/com/fazland/recommenders/datascorer/DataScorer.java:160-168 | After the scores are tabulated, the data are the scores, the chosen row is the one the loop selects, and exactly that row's label carries the marker. Every other label is plain. |
| Sweep.Sweep | src/main/java/com/fazland/recommenders/datascorer/DataScorer.java:130-168 | A sweep gives one score per ratio, which is the evaluator applied to that ratio's fractions. The marked row is the one the `Select` fold chooses over those scores, and exactly that row's label carries the marker. |
| Sweep.TabulateChoosesBest | src/main/java/com/fazland/recommenders/datascorer/DataScorer.java:162-168 | If no score is 0, the marked row is the first lowest score, and no other row is a first lowest score. A 0 score that is not the last row is never marked. |
| Sweep.SameScoresSameTable | src/main/java/com/fazland/recommenders/datascorer/DataScorer.java:130-223 | If two sweeps, such as the Tanimoto and log-likelihood sweeps, get the same score for every ratio, they produce identical tables: the same labels, the same data and the same marked row. |
| Sweep.LadderSweep | src/main/java/com/fazland/recommenders/datascorer/DataScorer.java:104-157 | On the scorer's own table, a sweep has 18 rows and a chosen row below 18. Each row is scored with fractions strictly inside (0, 1) that sum to 1. |
| Sweep.ScoreLoop | src/main/java/com/fazland/recommenders/datascorer/DataScorer.java:133-166 | The loop records the evaluator's score for each ratio in order, and ends holding the (lowest, index) that the `Select` fold computes. |
| Sweep.RunSweep | src/main/java/com/fazland/recommenders/datascorer/DataScorer.java:130-168 | The method's result equals the functional `Sweep`. The chosen index is in range, and exactly the label at that index carries the marker. |

## Left out

- Mahout's evaluator, data models, similarities and recommender are not part of this model. Their combined effect is the parameter `evaluate`. This covers the random split inside the evaluation, so two runs of DataScorer need not give the same scores, whereas `evaluate` is one fixed function for the whole sweep.
- Exceptions thrown by the evaluator (`TasteException`) are not modelled. They abort DataScorer's sweep.
- Loading the rating file (`FileDataModel`), the console table and the `System.out.println` output are file and console I/O.
- The log lines in `setUp` are left out, because they are side effects only.
- The fields `neighborhoods`, `threshold`, `similarityClasses` and `booleanSimilarityClasses` are left out, because no evaluation reads them.
- `DataScorerEvaluatorTestRunner` is left out. It is an entry point that only calls the two sweeps, and its other methods are empty.
- IEEE-754 doubles are left out. Scores and fractions are exact reals, so `10/100` is exactly 0.1, and there is no NaN or -0.0.
- Sweep.Sweep: requires a non-empty ladder. With an empty ladder DataScorer would index an empty header array; the scorer's table always has 18 rows.
- Labels.DoubleText: models `String.valueOf(double)` only for whole numbers below ten million, the only values the table holds.
- The code does not check that a ratio sums to 100. `Valid` states that property for the fixed table only.
