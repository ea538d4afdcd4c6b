# Last-observation predictor and batch-replay validator, in Dafny

This project models the two pieces of engineering in the NFL trajectory-prediction
workflow and proves properties of them:

- **The baseline predictor** (`inference.py`, `predict`). It builds a lookup from the
  entity key `(game_id, play_id, nfl_id)` to the latest observed `(x, y)`. "Latest"
  means greatest `frame_id`, or last in input order when the table has no `frame_id`.
  It then answers every query row in order, falling back to `(0.0, 0.0)`. A table
  without the key columns answers `(0.0, 0.0)` for every query.
- **The submission validator** (`scripts/validate_submission.py`, `validate` and
  `to_pandas_series_first_col`). It checks the submission's schema (file present,
  `id` column, `x` and `y` columns), then replays the evaluation batches in order. For
  each batch it reads the requested ids from the first column of the row-id table,
  selects the submitted `(x, y)` of those ids in request order, and hands them to the
  harness's own check. It stops at the first failure.

Files:

- `basics.dfy`: module `Basics`, with the coordinate pair `Point`, the fallback
  `Origin` and `Option`.
- `predictor.dfy`: module `Predictor`. It holds the observation table, the grouping
  `LatestByKey` (a single scan keeping the best record per key), its declarative
  partner `IsLatest` (latest by frame, then by input position), the `Lookup` dictionary, `Predict`, and the lemmas.
- `validator.dfy`: module `Validator`. It holds the submission file, row-id tables,
  `FirstColumn`, `Select`, the per-batch `Examine`, the fold `Replay`, `Validate` with
  its `Outcome` and exit statuses, and the lemmas.

Modelling choices:

- Coordinates are `real` values that are only ever copied.
- Keys are triples of integers. Submission ids are strings.
- The submission is a map from id to `Point`.
- The batch source is a finite sequence of `Batch(payload, rowIds)`.
- The harness's `competition_specific_validation` is a function parameter `check`.
  It returns `None` to accept and `Some(error)` where the harness raises
  `GatewayRuntimeError`.
- Both components are pure functions: they are deterministic and cannot modify their
  inputs.
- A failing outcome carries the counters `batch_idx` and `total_rows` as they stood
  when the run stopped, so the lemmas can state what was counted. The program prints
  the batch index only in the missing-id message (scripts/validate_submission.py:75).
  It never prints `total_rows` on failure. On a harness rejection it prints the
  error's type and details (lines 89-93), which the model keeps as the error value.
- Ties on equal `frame_id` go to the later row in input order. A stable sort on the
  key columns and `frame_id` produces this order before `groupby().last()`.

Facts about the program that shape the model:

- A table without the key columns yields `(0.0, 0.0)` for every query
  (inference.py:53-56).
- The validator checks that the submission file exists before any column check
  (scripts/validate_submission.py:42-44).
- `to_pandas_series_first_col` raises `ValueError` for an unsupported row-id type.
  `iloc[:, 0]` on a frame with no columns raises `IndexError`. The handler catches only
  `GatewayRuntimeError`, so both exceptions end the process with Python's status 1
  (outcome `Unhandled`). Exit statuses 0, 2 and 3 are not the only ones possible.

## Model

| member | source | states |
|---|---|---|
| Predictor.LatestByKeyKeys | inference.py:58-64 | the grouping holds exactly one entry per distinct observed key, no more and no fewer |
| Predictor.LatestExists | inference.py:58-64 | every observed key has a latest record |
| Predictor.LatestByKeySelectsLatest | inference.py:58-64 | the entry kept for a key is that key's latest record: greatest `frame_id` with ties going to the later row, or the last row in input order when there is no `frame_id` |
| Predictor.LatestIsUnique | inference.py:58-62 | the latest record of a key is unique, because recency (frame, then input position) totally orders a key's records |
| Predictor.ArrivalOrderIrrelevant | inference.py:58-62 | with `frame_id` present and no two records of one entity sharing a frame, any rearrangement of the observation rows gives the same grouping |
| Predictor.Lookup | inference.py:66-70 | the lookup has one entry per distinct observed key, holding the latest record's coordinates; a missing `x` or `y` column reads as 0.0 |
| Predictor.Predict | inference.py:52-80 | one prediction per query, in query order; all origin when a key column is missing; origin for an unobserved key; otherwise the coordinates of the key's latest record; `x` (`y`) is 0.0 throughout when the table lacks that column |
| Predictor.EachQueryAnsweredAlone | inference.py:72-80 | prediction `i` equals the prediction for query `i` asked on its own |
| Predictor.LaterFrameWins | inference.py:58-62 | of two frames of one player, the later frame's `(5.0, 9.0)` is predicted |
| Predictor.LastRowWinsWithoutFrames | inference.py:63-64 | without `frame_id`, the last row's `(2.0, 2.0)` is predicted, whatever the frame field holds |
| Predictor.UnseenPlayerAtOrigin | inference.py:74-76 | a player absent from the observations is predicted at `(0.0, 0.0)` |
| Validator.FirstColumn | scripts/validate_submission.py:28-38 | the row ids are the series itself or a frame's first column in order; any other type is an unsupported-type error, and a frame with no column is a no-column error |
| Validator.MissingOf | scripts/validate_submission.py:70-76 | an id is reported missing exactly when it is requested and absent from the submission |
| Validator.Select | scripts/validate_submission.py:70-80 | selection succeeds exactly when every requested id is submitted; it then yields one `(x, y)` per requested id, in request order, without the id; otherwise it names a non-empty list of exactly the absent requested ids |
| Validator.Examine | scripts/validate_submission.py:64-86 | a batch passes exactly when its ids can be read, all are submitted and the check accepts their selected rows, and it then counts one row per requested id; it is unreadable exactly when its ids cannot be read, carrying that fault; a missing-id failure names exactly the absent ids; it is rejected exactly when the check returns an error on the selected rows, carrying the check's own error |
| Validator.Validate | scripts/validate_submission.py:41-58 | the schema checks run in order (file, `id` column, `x` and `y` columns), and a configuration error arises exactly when one of them fails |
| Validator.SchemaChecksPrecedeBatches | scripts/validate_submission.py:42-58 | a schema failure gives the same outcome whatever the batches and the check, with exit status 2 |
| Validator.ReplayStopsAtFirstFailure | scripts/validate_submission.py:61-93 | from any counters, the loop stops at the first failing batch with index advanced by its 1-based position and rows advanced only by the earlier batches' requests |
| Validator.ReplayAllPass | scripts/validate_submission.py:61-86 | when every batch passes, the loop succeeds with every batch and every requested row counted |
| Validator.ReplaySuccessMeansAllPassed | scripts/validate_submission.py:61-93 | the loop succeeds only if every batch passed |
| Validator.SucceedsIffEveryBatchPasses | scripts/validate_submission.py:61-95 | a well-formed run succeeds exactly when every batch passes, and then `total_rows` is the sum of the batches' id counts and `batch_idx` the number of batches |
| Validator.StopsAtFirstFailure | scripts/validate_submission.py:61-93 | if batch `k+1` is the first to fail, the run reports batch index `k+1`, rows of batches 1..k only, that batch's failure, and exit status 2 (missing ids), 3 (harness error) or 1 (unreadable ids) |
| Validator.FailureHasFirstFailingBatch | scripts/validate_submission.py:61-93 | every well-formed run that does not succeed stopped at its first failing batch |
| Validator.LaterBatchesUnexamined | scripts/validate_submission.py:63-93 | replacing every batch after the first failing one leaves the outcome unchanged |
| Validator.EmptySourceSucceeds | scripts/validate_submission.py:61-95 | an empty batch source succeeds with 0 rows and 0 batches |
| Validator.GroundTruthAccepted | scripts/validate_submission.py:64-86 | a submission holding the true answers for every requested id succeeds with all rows and batches counted, if the harness accepts true answers |
| Validator.MissingIdStopsAtItsBatch | scripts/validate_submission.py:71-76 | id "42" missing from batch 3 stops the run at batch 3 naming "42" with exit status 2, whatever batches follow |
| Validator.RejectedBatchCountsOnlyEarlierRows | scripts/validate_submission.py:83-93 | a harness rejection of batch 2 stops the run at batch 2 with exit status 3, having counted only batch 1's row |

## Left out

- Reading the CSV files, converting between polars and pandas, `reset_index` and
  building result frames: tables are sequences of records here.
- The gateway internals (`NFLGateway`, `unpack_data_paths`, `generate_data_batches`,
  `competition_specific_validation`): the batch source is a given finite sequence, not
  a lazy single-pass generator, and the check is an uninterpreted function parameter.
  An exception from the check other than `GatewayRuntimeError` is not modelled.
- The inference-server wiring and the environment-variable branch (`inference.py`
  lines 86-96), and `argparse`/`main` of the validator: process plumbing.
- Printed messages: only the outcome kind, batch index, missing ids and counters are
  kept.
- Null handling: `groupby().last()` takes the last non-null value per column and drops
  rows whose key is NaN. The model assumes no nulls, so "last non-null" is "last row".
- Duplicate submission ids, for which `.loc` returns several rows per id: the
  submission is a map, so ids are unique.
- A query table without the key columns, where the source raises `KeyError`: queries
  are modelled as keys.
- Float semantics and the `float(...)` conversion: coordinates are copied as `real`
  values.
- Validator.Select: the missing ids are stated as a set (exactly the absent requested
  ids). The order and repetition of ids in the `KeyError` message are not stated.
