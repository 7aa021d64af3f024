# Data-quality monitor: the check engine and its scoring, in Dafny

This project models the core of the data-quality monitor. It covers:

- The **quality engine** `run_data_quality_checks`. It turns the stored rows of a dataset into a table and reports three counts, always in the order `null_check`, `duplicate_check`, `anomaly_check`:
  - `null_check`: the missing cells.
  - `duplicate_check`: the rows equal to an earlier row.
  - `anomaly_check`: the values more than three sample standard deviations from their numeric column's mean.
- The **run-checks handler**. It refuses a dataset with no stored rows. For each check it produces a label such as `NULL CHECK`, a PASS/FAIL status and a stored result record. It computes an overall score: the truncated percentage of checks that passed.
- The **upload handler's file-name guard**, plus the upload's effect on storage.

Modules, in dependency order:

| file | module | contents |
|---|---|---|
| wrappers.dfy | Wrappers | `Option` and `Result` |
| seqs.dfy | Seqs | counting, mapping, de-duplication, repeats, sums, and permutation facts about them |
| cells.dfy | Cells | cell values, and Python equality between them |
| frame.dfy | Frame | decoded rows; the rectangular table built from them, and its columns |
| real_arith.dfy | RealArith | steps of exact real arithmetic |
| stats.dfy | Stats | mean, sample variance, the squared three-sigma test, Samuelson's inequality |
| null_check.dfy | NullCheck | the null count |
| duplicate_check.dfy | DuplicateCheck | the duplicate-row count |
| anomaly_check.dfy | AnomalyCheck | the anomaly count over numeric columns |
| quality_engine.dfy | QualityEngine | the three counts together |
| dataset_routes.dfy | DatasetRoutes | labels, status, score, the run-checks and upload requests over a `Store` value |

How the model represents the source:

- **Values.** A cell is `Null`, `Int`, `Float`, `Bool` or `Text`. JSON `null`, a missing key and NaN are all `Null`. Numbers are exact: `int` and `real`.
- **Rows.** A row is its member list in document order. A repeated key is read with the last binding winning.
- **Columns.** The column names are the keys of all rows, each once, in order of first appearance.
- **Anomaly test.** The test that a value lies strictly outside `mean ± 3σ` is stated without square roots as `(x − mean)² > 9·variance`. `Stats.OutsideIffBeyondThreeSigma` shows the two are equivalent for any `σ > 0` with `σ² = variance`.
- **Storage.** The database is a value with three tables: datasets, stored rows and validation results, each in insertion order. A request maps a store to a response and the following store.
- **Query order.** The query for a dataset's rows fixes no order, and the JSONB column keeps neither the member order of a row nor its repeated keys. `RunChecks` therefore takes the fetched rows as the stored ones in any order, each with the same bindings in any member order. Its contract is stated on the stored rows in insertion order. This holds because the engine's result depends neither on row order (`QualityEngine.EngineRowOrderFree`) nor on member order (`QualityEngine.EngineMemberOrderFree`).

Behaviour of the code worth knowing:

- **A short column with one extreme value.** A column such as `[10, 12, 11, 13, 9, 1000]` reports **no** anomaly. By Samuelson's inequality, no value in a column of at most ten numbers can lie more than three sample standard deviations from the mean (`Stats.NoOutliersBelowEleven`). The bound is tight: among ten equal values, one differing value is flagged (`Stats.SingleOutlier`).
- **Truncation, not rounding.** The score truncates: one passing check out of three scores 33, and two score 66.
- **Zero checks.** With no checks the score's division fails, so there is no score (`Score` returns `None`); no score of 0 is produced. The engine always returns three checks, so this never happens.
- **Empty table, direct call.** Called directly on no rows, the engine reports three zero counts. All three checks then pass and the score would be 100, not 0.
- **No stored rows.** The "not found" error is raised inside the handler's catch-all. It therefore reaches the client as status 500 with detail `404: No records found`.

## Model

| member | source | states |
|---|---|---|
| Frame.Lookup | backend/app/services/validation_service.py:9 | A key is found exactly when the row has it. The value found is the one at that key's last occurrence, as a decoded JSON object keeps it. |
| Frame.Columns | backend/app/services/validation_service.py:10 | The column names are distinct. A name is a column exactly when some row has that key. |
| Frame.ColumnsInFirstSeenOrder | backend/app/services/validation_service.py:10 | Columns are ordered by where their key first appears when the rows are read in order. |
| Frame.Normalize | backend/app/services/validation_service.py:9-10 | The table has one row per input row and is rectangular. It has one column per distinct key. A row lacking a key has a null cell there; a row having it has the value it binds. |
| Frame.SameBindingsRows | backend/app/services/validation_service.py:9-10 | Rows that bind the same keys to the same values, in any member order, give the same table cells. Their column names differ at most in order. |
| Frame.ColumnsRowPerm | backend/app/services/validation_service.py:10 | Reordering the rows can change only the order of the columns, not which columns there are. |
| Frame.TableOfRowPerm | backend/app/services/validation_service.py:10 | Reordering the rows reorders the table's rows and the cells of every column, and nothing else. |
| Cells.KeyOfDecidesSameValue | backend/app/services/validation_service.py:18 | Two cells have the same comparison key exactly when Python's `==` holds between them, with null equal to null. |
| Cells.SameValueIsEquivalence | backend/app/services/validation_service.py:18 | Cell equality, as used for duplicate rows, is reflexive, symmetric and transitive. |
| NullCheck.NullCount | backend/app/services/validation_service.py:15 | The null count never exceeds rows × columns. |
| NullCheck.NullCountByColumns | backend/app/services/validation_service.py:15 | Adding up the missing cells column by column, as the code does, gives the same total as adding them up row by row. |
| NullCheck.NullCountZeroIff | backend/app/services/validation_service.py:15 | The null count is zero exactly when no cell of the table is missing. |
| NullCheck.AllNullCount | backend/app/services/validation_service.py:15 | A table whose every cell is missing counts all rows × columns cells. |
| NullCheck.NullCountRowPerm | backend/app/services/validation_service.py:15 | The null count does not depend on row order. |
| NullCheck.NullCountColumnOrder | backend/app/services/validation_service.py:15 | The null count does not depend on column order. |
| DuplicateCheck.RowKeyEqIff | backend/app/services/validation_service.py:18 | Two rows have equal comparison tuples exactly when they are equal cell by cell under Python equality. |
| DuplicateCheck.DuplicateCount | backend/app/services/validation_service.py:18 | The duplicate count is at most the number of rows, and zero for a table of at most one row. |
| DuplicateCheck.DuplicateCountIsRowsMinusDistinct | backend/app/services/validation_service.py:18 | With at least one column, the duplicate count is the number of rows minus the number of distinct rows. Each group of equal rows keeps its first row uncounted. |
| DuplicateCheck.DuplicateCountZeroIff | backend/app/services/validation_service.py:18 | With at least one column, the count is zero exactly when no two rows are equal cell by cell. |
| DuplicateCheck.DuplicateCountRowPerm | backend/app/services/validation_service.py:18 | The duplicate count does not depend on row order. |
| DuplicateCheck.DuplicateCountColumnOrder | backend/app/services/validation_service.py:18 | The duplicate count does not depend on column order. |
| AnomalyCheck.IsNumericColumnIff | backend/app/services/validation_service.py:23 | A column takes part exactly when it holds some number and every value present in it is an integer or a float. |
| AnomalyCheck.NonNumericColumnContributesNothing | backend/app/services/validation_service.py:23-25 | A column holding a boolean or a string, or no number at all, adds nothing to the anomaly count. |
| AnomalyCheck.AnomalyCount | backend/app/services/validation_service.py:21-42 | The anomaly count, the per-column counts added up, never exceeds rows × columns. |
| AnomalyCheck.ColumnAnomalies | backend/app/services/validation_service.py:25-40 | A column's anomalies never exceed its number of numeric values. |
| AnomalyCheck.ConstantColumnContributesNothing | backend/app/services/validation_service.py:26-30 | A column whose numbers are all equal has zero spread and adds nothing, however long it is. |
| AnomalyCheck.SmallColumnContributesNothing | backend/app/services/validation_service.py:26-38 | A column with at most ten numbers adds nothing: no such value can be three sample standard deviations from the mean. |
| AnomalyCheck.FewRowsHaveNoAnomalies | backend/app/services/validation_service.py:23-42 | A table of at most ten rows has anomaly count zero. |
| AnomalyCheck.FlaggedIffBeyondThreeSigma | backend/app/services/validation_service.py:26-40 | Take a numeric column with at least two values and standard deviation σ > 0. Its count is the number of its values strictly below mean − 3σ or strictly above mean + 3σ. Values on a bound and missing cells are not counted. |
| AnomalyCheck.AnomalyCountBounds | backend/app/services/validation_service.py:35-42 | The anomaly count is at most the number of numeric cells. That is at most rows × numeric columns. |
| AnomalyCheck.ColumnAnomaliesPerm | backend/app/services/validation_service.py:25-40 | Reordering a column's cells does not change its anomaly count. |
| AnomalyCheck.AnomalyCountRowPerm | backend/app/services/validation_service.py:23-42 | The anomaly count does not depend on row order. |
| AnomalyCheck.AnomalyCountColumnOrder | backend/app/services/validation_service.py:23-42 | The anomaly count does not depend on column order. |
| Stats.Outliers | backend/app/services/validation_service.py:26-40 | One column's flagged values are no more than its values. None is flagged where the code skips the column: fewer than two values, whose standard deviation is NaN, or zero spread. |
| Stats.OutsideIffBeyondThreeSigma | backend/app/services/validation_service.py:32-38 | For σ > 0 with σ² equal to the variance, the squared test flags a value exactly when it is strictly outside [mean − 3σ, mean + 3σ]. |
| Stats.OutliersPerm | backend/app/services/validation_service.py:26-40 | The number of flagged values does not depend on their order. |
| Stats.ConstantHasNoOutliers | backend/app/services/validation_service.py:27-30 | Equal values have variance zero and none is flagged. |
| Stats.SamuelsonBound | backend/app/services/validation_service.py:26-27 | Samuelson's inequality: one value's squared deviation from the mean is at most (n − 1)/n of the total squared deviation. |
| Stats.NoOutliersBelowEleven | backend/app/services/validation_service.py:26-40 | Among at most ten values none is ever flagged. |
| Stats.SingleOutlier | backend/app/services/validation_service.py:26-40 | Take k ≥ 1 copies of one value followed by one different value. The different value is flagged exactly when k ≥ 10; no copy ever is. |
| QualityEngine.RunDataQualityChecks | backend/app/services/validation_service.py:12-44 | The result has exactly the keys null_check, duplicate_check and anomaly_check, in that order. |
| QualityEngine.EngineCountBounds | backend/app/services/validation_service.py:15-42 | The null and anomaly counts are at most rows × columns. The duplicate count is at most the number of rows. |
| QualityEngine.EngineRowOrderFree | backend/app/services/validation_service.py:9-44 | Any reordering of the input rows gives the same three counts. |
| QualityEngine.EngineMemberOrderFree | backend/app/services/validation_service.py:9-10 | Any reordering of the members inside each row gives the same three counts. |
| QualityEngine.EngineOnNoRows | backend/app/services/validation_service.py:9-44 | With no rows all three counts are zero. |
| QualityEngine.EngineOnThreeRows | backend/app/services/validation_service.py:12-44 | Rows {a:1,b:2}, {a:1,b:2}, {a:null,b:2} give one missing cell, one repeated row and no anomaly. |
| DatasetRoutes.Label | backend/app/routes/dataset_routes.py:130 | A label has the key's length. It has no underscore and no lower-case letter. Each character is the key's character with `_` turned into a space and a letter upper-cased. |
| DatasetRoutes.LabelRoundTrip | backend/app/routes/dataset_routes.py:130 | A key of lower-case letters and underscores can be read back from its label. |
| DatasetRoutes.LabelIdempotent | backend/app/routes/dataset_routes.py:130 | Labelling a label changes nothing. |
| DatasetRoutes.EngineKeyLabels | backend/app/routes/dataset_routes.py:130 | The engine's keys are labelled NULL CHECK, DUPLICATE CHECK and ANOMALY CHECK. |
| DatasetRoutes.StatusOf | backend/app/routes/dataset_routes.py:125 | A check passes exactly when its issue count is zero. |
| DatasetRoutes.TruncDiv | backend/app/routes/dataset_routes.py:143 | The integer conversion of a quotient is the quotient truncated toward zero. For a non-negative dividend that is the floor. |
| DatasetRoutes.Score | backend/app/routes/dataset_routes.py:122-143 | With no checks there is no score. Otherwise the score is within 0..100. It is the largest whole number r with r × total ≤ 100 × passed. |
| DatasetRoutes.ScoreFullIffAllPass | backend/app/routes/dataset_routes.py:143 | The score is 100 exactly when no check failed. |
| DatasetRoutes.ScoreNonIncreasing | backend/app/routes/dataset_routes.py:143 | More failed checks never give a higher score. |
| DatasetRoutes.ScoreOfThreeChecks | backend/app/routes/dataset_routes.py:143 | With three checks, 0, 1, 2 or 3 failures score 100, 66, 33 or 0. |
| DatasetRoutes.EngineScore | backend/app/routes/dataset_routes.py:118-143 | On the engine's result, whatever the rows, the score is 100, 66, 33 or 0 according to the number of failed checks. |
| DatasetRoutes.ScoreChecks | backend/app/routes/dataset_routes.py:120-141 | The loop yields one entry per engine result, in order, each with the check's label, its status and its count as failed rows. `failed` is the number of results with a nonzero count and at most their number. One record (dataset, raw key, count) is written per result, in order. |
| DatasetRoutes.Respond | backend/app/routes/dataset_routes.py:118-153 | After the engine, the report carries the dataset id, the score of the passed checks and the labelled entries. The results table gains exactly one record per check at its end; the other tables are untouched. |
| DatasetRoutes.RunChecks | backend/app/routes/dataset_routes.py:104-156 | No stored rows: a 500 with detail "404: No records found", and the store unchanged. Otherwise: the report on the engine's counts for the stored rows, whatever order the query returned them in and whatever order the members of each came back in, and one appended result record per check. Nothing else changes. |
| DatasetRoutes.RecordsOf | backend/app/routes/dataset_routes.py:109-113 | The store's rows under the id, in insertion order: each row occurs as many times as it is stored under that id, so a row is present exactly when it is stored under the id. There are no more of them than stored records. |
| DatasetRoutes.CsvSuffixIff | backend/app/routes/dataset_routes.py:55 | The guard accepts exactly the names that are some name followed by ".csv". |
| DatasetRoutes.CsvSuffixCaseSensitive | backend/app/routes/dataset_routes.py:55 | "data.csv" passes. "data.CSV", "data.csv.txt" and "csv" do not. |
| DatasetRoutes.Upload | backend/app/routes/dataset_routes.py:53-97 | A name without ".csv" gets a 400 before anything is read or stored. A parse failure gets a 500 with the parser's message and stores nothing. Otherwise the dataset and one stored row per parsed row are appended, and the reply carries the new id and the row count. |
| DatasetRoutes.UploadThenRead | backend/app/routes/dataset_routes.py:76-86 | After an upload under an id not used before, the store's rows under that id are exactly the uploaded rows, in insertion order. |

## Left out

- **CSV parsing and JSON.** CSV parsing (`read_csv`), `to_dict` and JSON encoding and decoding are not modelled. The upload takes the parse outcome as a parameter. The engine starts from decoded rows. Two consequences of JSON handling are not modelled. First, if the database driver hands back a JSONB column already decoded, as psycopg2 does by default, `json.loads` at validation_service.py:9 raises `TypeError`, and every run-checks request on a non-empty dataset answers 500. Second, `json.dumps` writes `NaN` for an empty CSV cell, which JSONB rejects, so an upload with any missing cell answers 500. The model assumes both steps succeed.
- **Database.** Connection handling, the SQL text, commits and failures inside the database are not modelled. A store is a value. The id the database assigns to a new dataset is a parameter of `Upload`. An error after some inserts and before the commit leaves the store unchanged, as the model's failure paths do.
- **Member order in storage.** The database reorders the members of each stored row and keeps only the last of repeated keys. The model store keeps rows verbatim. `RunChecks` admits fetched rows with the same bindings in another member order, and `QualityEngine.EngineMemberOrderFree` makes the counts independent of that reordering.
- **Other endpoints.** The create-dataset, health and latest-dataset endpoints are not modelled: they only store or read one value. The dashboard routes, the application setup, the synthetic data generator and the web front end are not modelled either.
- **Floating point.** Means, deviations and the score are exact here. Pandas and Python compute them in IEEE floating point, so a value within rounding of a bound, or a score such as `int(0.58 * 100)`, can come out differently. With three checks the float score agrees with the exact one.
- **Integer width.** Integers are unbounded. The 64-bit integer columns and the `INTEGER` issue count in storage are not modelled.
- **Nested values.** Nested JSON values (lists, objects) inside a row are not modelled. Rows read from a CSV file hold only scalars.
- DatasetRoutes.Label: only ASCII letters are upper-cased. Python's `upper` also maps other scripts, but the engine's keys are ASCII.
