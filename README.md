# Withings weight sync — a verified model of its core

The program polls a body-composition provider for measurement groups and
stores them in a relational `weight` table, keeping its OAuth credential in a
single-row `credentials` table. This project models, in Dafny, the parts of
`main.py` that carry logic:

- **Measures** — `Weight.from_measure`: one measurement group, an unordered
  list of `(type, value)` pairs sharing a timestamp, is folded field by field
  into one weight record. Unknown types are ignored; a group with no `WEIGHT`
  keeps the sentinel weight `-1` (and is logged) but is still returned.
- **Normaliser** — `measures_to_weights`: the folded records are collapsed
  through a dictionary keyed by timestamp (the last group wins) and returned
  sorted by timestamp.
- **Repository** — the `weight` table as a map from its primary key
  `created_at` to a record; the conflict-skipping batch insert
  (`on_conflict_do_nothing`) and its row count; `get_last_weight_timestamp`,
  the checkpoint (largest key, or none).
- **Credentials** — the `credentials` table as a sequence of opaque pickled
  blobs; `save_credentials` deletes every row and inserts one,
  `get_credentials` decodes the first row or returns nothing.
- **Sync** — one pass of the `monitor_weight` loop: checkpoint, fetch since
  it, normalise, insert, and the sleep arithmetic.
- **Timestamps** — least/greatest member of a set of timestamps (the sort
  and the `ORDER BY ... DESC LIMIT 1` query rest on them).

Timestamps are `int`s; the fetch is a function parameter from the checkpoint
to the returned groups; a failing insert transaction is a boolean parameter
under which the table is left unchanged; the iteration's wall-clock duration
is a parameter in microseconds.

## Model

| member | source | states |
|---|---|---|
| `Measures.FromMeasure` | main.py:71-101 | the loop's record equals the per-kind fold: `created_at` is the group's timestamp, each field its kind's last value, weight `-1` and flagged when no WEIGHT measure occurs |
| `Measures.LastValueAbsent` | main.py:75-97 | an optional field stays `None` exactly when no measure of its kind occurs |
| `Measures.LastValueIsLast` | main.py:83-97 | a set field holds the value of the last measure of its kind |
| `Measures.UnknownKindIgnored` | main.py:83-97 | inserting a measure of an unrecognised type anywhere in a group leaves the folded record unchanged |
| `Measures.MissingWeightFlagged` | main.py:74-101 | a group without WEIGHT yields weight `-1` and is still returned; with non-negative WEIGHT values the record is flagged exactly when WEIGHT is missing |
| `Normaliser.CollapseKeys` | main.py:105-108 | the dictionary's keys are exactly the groups' timestamps and each record sits under its own timestamp |
| `Normaliser.CollapseSize` | main.py:105-108 | the dictionary holds at most as many records as there are groups |
| `Normaliser.CollapseLastWins` | main.py:106-108 | for a repeated timestamp the record of the last group carrying it is kept |
| `Normaliser.CollapseFrom` | main.py:106-108 | every kept record is the fold of the last group with its timestamp |
| `Normaliser.SortByCreatedAt` | main.py:109 | the sorted values are strictly ascending by timestamp, as many as the dictionary's entries, each the entry under its own key, and every entry appears |
| `Normaliser.MeasuresToWeights` | main.py:104-109 | output strictly ascending, one record per distinct input timestamp, each the fold of the last group with that timestamp, no more records than groups |
| `Normaliser.NormalisationUnique` | main.py:104-109 | the normaliser's contract determines its output: two outputs meeting it are equal |
| `Normaliser.AscendingGroupsNormaliseInOrder` | main.py:104-109 | groups with strictly ascending timestamps normalise to their folds in the same order |
| `Normaliser.AscendingNormalisationIsFoldEach` | main.py:104-109 | for strictly ascending groups, any output meeting the normaliser's contract is exactly the fold of each group, in order |
| `Timestamps.Greatest` | main.py:254-257 | the scan returns the greatest key of a non-empty key set |
| `Repository.Checkpoint` | main.py:253-261 | none exactly for an empty table, otherwise the largest stored `created_at` |
| `Repository.InsertKeepsExisting` | main.py:124-124 | the insert never changes or removes an existing row |
| `Repository.InsertKeys` | main.py:241-242 | the insert adds exactly the batch's keys to the table's keys |
| `Repository.InsertFirstWins` | main.py:241-242 | a new key holds the first batch row carrying it; later duplicates are skipped |
| `Repository.InsertPresentIsNoop` | main.py:241-242 | a batch whose keys are all stored leaves the table as it was |
| `Repository.InsertIdempotent` | main.py:241-243 | inserting a batch twice leaves the table as inserting it once, and the second insert has no new keys |
| `Repository.InsertKeepsKeyed` | main.py:124-124 | every row stays under its own primary key after an insert |
| `Repository.CheckpointMonotone` | main.py:253-261 | after an insert the checkpoint is present if it was before and no smaller; a non-empty batch always sets one |
| `Repository.WeightTable.constructor` | main.py:121-134 | a fresh table is empty |
| `Repository.WeightTable.InsertBatch` | main.py:241-243 | the new table is the conflict-skipping insert of the batch and the count is the number of new keys |
| `Repository.WeightTable.LastWeightTimestamp` | main.py:253-261 | returns none exactly when the table is empty, otherwise the maximum stored key |
| `Credentials.DeserializeSerialize` | main.py:264-271 | unpickling a pickled credential returns it |
| `Credentials.FirstCredential` | main.py:181-184 | reading yields nothing exactly when the table has no row |
| `Credentials.Replaced` | main.py:187-189 | after a save the table holds exactly one row |
| `Credentials.SaveThenLoad` | main.py:175-189 | loading after saving returns the saved credential, whatever was stored before |
| `Credentials.LatestSaveWins` | main.py:187-189 | two saves leave what the second alone leaves; only the latest credential is loaded |
| `Credentials.CredentialTable.Save` | main.py:187-189 | the table afterwards is exactly one row, the serialised credential |
| `Credentials.CredentialTable.Load` | main.py:175-184 | returns what reading the table yields (nothing exactly when it is empty, else the decoded first row); with at most one row, a found credential is the whole table |
| `Credentials.SaveThenReload` | main.py:175-189 | on the table object, a save followed by a load returns the saved credential and leaves exactly its row |
| `Sync.TimedeltaSeconds` | main.py:248-248 | the elapsed reading lies in [0, 86400) and, within a day, is the elapsed whole seconds |
| `Sync.SleepForAsWritten` | main.py:248-248 | the computed pause lies within a day below the refresh period and is not clamped at zero |
| `Sync.ClockStepBackSleepsNegative` | main.py:248-250 | a wall clock stepped back by one microsecond reads as 86399 seconds elapsed, so a 60-second period gives a negative pause |
| `Sync.SlowCycleSleepsNegative` | main.py:248-250 | a 90-second iteration with a 60-second period gives a pause of -30 |
| `Sync.DayLongCycleReadsAsShort` | main.py:248-248 | an iteration of a day and 30 seconds with a one-hour period still gives a pause of 3570 seconds |
| `Sync.SleepFor` | main.py:248-250 | the intended pause is never negative and is what remains of the period, or zero |
| `Sync.SleepForKeepsCadence` | main.py:248-250 | elapsed time plus the intended pause covers the period, exactly when the period was not exceeded |
| `Sync.SleepForAgreesWhenShort` | main.py:248-248 | for iterations shorter than a day and than the period, the code as written computes the intended pause |
| `Sync.SyncOnce` | main.py:214-250 | the fetch starts at the checkpoint, the batch is the normalisation of what it returns, the table is the conflict-skipping insert (or unchanged on a storage failure) with the count of new keys, and the pause is the one computed as written, raising when negative |
| `Sync.CycleKeepsHistory` | main.py:217-243 | an iteration never loses or rewrites a stored row and never moves the checkpoint back |
| `Sync.RefetchedCheckpointSkipped` | main.py:217-243 | the re-fetched newest stored reading keeps its stored row and is not counted as new |
| `Sync.RunTwoCycles` | main.py:214-243 | two loop iterations run through `SyncOnce` on a fresh table: the first stores the folds of the groups at T1 < T2, counts 2 and leaves checkpoint T2; the second, fetching T1, T2 and T3, adds only T3's fold and counts 1 |
| `Sync.TwoCycleScenario` | main.py:214-243 | the same two iterations with concrete readings: the stored weights and fat mass are the groups' values, the checkpoint is T2, and the second iteration keeps the first two rows and adds only T3 |

## Findings

| source | as written | input that shows it | evidently intended | confidence | as-written member | corrected member |
|---|---|---|---|---|---|---|
| main.py:248-250 | `sleep_for = refresh_seconds - elapsed` is passed to `sleep` unclamped; `time.sleep` raises `ValueError` on a negative argument, which escapes the `while True` loop and ends the process | refresh period 60 s, an iteration taking 90 s: `sleep_for` is -30; more likely still, a wall clock stepped back during the iteration makes `.seconds` read 86399, so `sleep_for` is 60 - 86399 (`Sync.ClockStepBackSleepsNegative`) | start the next iteration at once when the period is already spent | high; not executed | `Sync.SlowCycleSleepsNegative` | `Sync.SleepFor` |
| main.py:248 | `(Arrow.now() - start_time).seconds` is the seconds-within-a-day component of a `timedelta`, not its total length | refresh period 3600 s, an iteration taking 86430 s: elapsed reads as 30 s and the loop sleeps 3570 s | measure the whole elapsed time (`total_seconds()`) | medium; not executed | `Sync.DayLongCycleReadsAsShort` | `Sync.SleepFor` |

`Sync.SyncOnce` keeps the pause as written (`Sync.SleepForAsWritten`), so that
the raising pause stays visible in the model of the loop; `Sync.SleepFor` is
the corrected pause, and `Sync.SleepForAgreesWhenShort` shows the two agree on
every iteration shorter than a day and than the period.

## Left out

- Measures.MissingWeightFlagged: the "flagged exactly when WEIGHT is missing" direction is stated only for groups whose WEIGHT values are non-negative, because the source flags any negative weight, and a reported WEIGHT of `-1` is indistinguishable from the sentinel.
- Credentials.CredentialTable.Load: takes the first element of the row sequence; a SQL `SELECT` without `ORDER BY` returns rows in no specified order, which matters only if more than one row existed, and `save_credentials` never leaves more than one.
- Credentials.FirstCredential: states only when a credential is found; which row is decoded is the body itself.
- Environment parsing (`Config.parse`, main.py:39-46) and duration parsing: bootstrap code over a foreign library; the refresh period is an integer parameter.
- Engine creation, schema creation and dialect selection (`connect_to_database`, main.py:112-135, and main.py:207-212): replaced by the map and sequence fields of the two table classes.
- `ensure_credentials` (main.py:138-172): the OAuth handshake, the authorise URL, console `print`/`input` and the remote validation call are network and console I/O.
- `build_token_refresh_callback` (main.py:192-199) and every `WithingsApi` call: foreign network calls; the callback only calls `save_credentials`, which is modelled, and the fetch result is a parameter of `Sync.SyncOnce`.
- Transactions and `SQLAlchemyError` handling (main.py:226-246): a failed insert is modelled only as "table unchanged, nothing counted": the failed statement leaves the table unchanged, and the error is caught and logged inside the transaction block; other storage errors, such as values outside the 32-bit `INTEGER` column range, are covered by the same parameter rather than modelled.
- Failures of the checkpoint query (main.py:217) and of the fetch (main.py:219-221): both sit outside the `try`, so an exception there ends the loop; `Repository.WeightTable.LastWeightTimestamp` and the fetch parameter are total, so this path is not modelled.
- An empty batch: the statement the library generates for `values([])` is not modelled; the model inserts nothing and reports 0, and the table is unchanged either way.
- Concurrency, including the window between the credential delete and insert (main.py:188-189): the model runs one operation at a time.
- The credential replace is two statements, a delete and then an insert (main.py:188-189), not one atomic step; `Credentials.CredentialTable.Save` performs them in order, but a crash between them, which would leave the table empty, is not modelled.
- The pickle byte format (main.py:264-271): a blob is an opaque wrapper of the credential, so only the round trip is captured.
- Logging, `Arrow.now()`, the real `sleep` and the infinite `while True` loop: one iteration is modelled, with its duration as a parameter and the log line replaced by the `Measures.Flagged` condition.
- Time zones and sub-second precision of timestamps (`Arrow`, the `TIMESTAMP` column): timestamps are integers compared exactly.
- The unit exponent of each measure and the response's paging fields: the source reads only `type` and `value` of each measure and only `measuregrps` of the response.
