# Robotics intelligence store: data points, change detection, validation

This project models the core of the robotics-intelligence database: the data-point store with its append-only change log (`src/database.py`), the change detector that compares periods and grades changes by significance (`src/change_detection.py`), and the validation rule engine and workflow that move data points through review (`src/validation_workflow.py`). It proves properties of that model.

The model has these parts:

- `common.dfy` (module `Common`): shared sequence building blocks.
  - An `Option` type.
  - SQL `LIMIT` as SQLite reads it: a negative limit places no bound.
  - An order-preserving `Filter`.
  - The newest-first selection that `ORDER BY created_at DESC` gives over an append-only table.
  - A first-match search, as used for `SELECT ... WHERE name = ?` and `next(...)`.
- `schema.dfy` (module `Schema`): the tables as values.
  - Status and confidence are enumerations. A confidence text outside the four listed levels is kept as `Unlisted(text)`, because the store accepts any text and the `valid_confidence` rule must be able to fail.
  - A data point's value is a tagged union with one case each for the numeric, text and JSON columns. The three nullable columns are derived from it.
  - Also here: the joined view that `get_data_points` returns, the query functions, and the name resolution done by `add_data_point`.
- `database.dfy` (module `Store`): class `Database`.
  - Its fields are the tables (`seq`s) and `log`, a `seq<LogEntry>` that is only ever appended to.
  - Each public method of the source is a method here, and each one is atomic, like one transaction.
  - The read methods loop over the table. Each is proved equal to the query function that specifies it.
- `change_detection.dfy` (module `ChangeDetection`):
  - Pure functions: percent change, significance and one comparison.
  - Classes `ChangeDetector` and `ChangeReporter`, whose scanning and grouping loops are proved against the specification functions.
- `validation_rules.dfy` (module `ValidationRules`):
  - Rules as data: a name, a description, a check, a severity and an auto-reject flag.
  - A check gives `Pass`, `Fail` or `Raised(message)`, so the exception path is explicit.
  - The tally of outcomes, the recommendation policy, and the seven default rules.
- `validation_workflow.dfy` (module `Workflow`): class `ValidationWorkflow` over a `Database`. It holds the lookup, the four status transitions, and the two batch drivers.

Conventions:

- Row ids and log ids are the AUTOINCREMENT ids: the row at position i has id i + 1.
- "Newest first" is reverse insertion order. The source sorts on `created_at`, which SQLite keeps to the second, so rows created within the same second may come back there in either order.
- The clock is a parameter: `now`, the current year and the current month are passed in.
- Python truthiness is modelled where the source relies on it:
  - an empty sector or dimension name and a year of 0 do not filter;
  - `year or now.year` treats 0 as missing;
  - `reason or "..."` treats an empty reason as missing.

Behaviour of the code that the model follows, though a reader might expect otherwise:

- A market size of 5000 gives one `error` failure. That rule is not auto-reject, so the recommendation is `review`, not `reject` (`ValidationRules.MarketSizeOverBoundIsReviewed`). Under the default rules, a data point that was found is never rejected (`ValidationRules.DefaultsNeverReject`), for every value other than a float NaN (see "## Left out").
- The `value_not_null` rule asks for at least one populated value column, not exactly one. The store keeps exactly one populated by construction (`Schema.ColumnsOf`), for every value other than a float NaN.
- `auto_validate_high_confidence` leaves data points that are not high-confidence unchanged. It only counts them as flagged; it does not move them to `in_review`.
- `start_review`, `validate_item`, `reject_item` and `mark_outdated` are unguarded. They move any status to their target and fail only on a missing id. `validate_item` proceeds even when the rules recommend `reject`.
- `validate_data_point` searches only the 1000 newest data points. An older id is reported as not found (`Workflow.LookupFinds`, `Workflow.ValidationRejects`).
- The `since` filter of `get_changes` compares texts: `since.isoformat()` separates date and time with `T`, and the stored timestamp with a space. A space sorts before `T`, so every entry of `since`'s own date is left out, and only entries of a later date pass (`Schema.SameDayEntryLeftOut`).
- Sectors, subcategories and dimensions are listed in order of name, compared code point by code point as SQLite's default collation does. The change scans visit them in that order.

## Model

| member | source | states |
|---|---|---|
| Common.Take | src/database.py:514-515 | `LIMIT n` keeps a prefix of the rows: exactly n of them when more are available, all of them when fewer are, and all of them for a negative n |
| Common.NewestFirstDescending | src/database.py:514 | along a newest-first selection over a table whose key grows with insertion, the keys strictly decrease |
| Common.NewestFirstComplete | src/database.py:494-514 | every row of the table that matches the filters is in the newest-first selection (the limit is applied afterwards) |
| Common.NewestFirstLimited | src/database.py:514-515 | a matching row missing from a limited selection means the limit was reached, and every row returned is newer than it |
| Common.FirstWhere | src/database.py:322-328 | lookup by name: the position returned matches and no earlier position does; there is no result exactly when nothing matches |
| Schema.ParseConfidence | src/config.py:56-61 | a stored confidence text keeps its label exactly; it is one of the four levels exactly when it is listed |
| Schema.ParseLabelRoundTrip | src/config.py:56-61 | reading back the label of a confidence gives that confidence again, for every confidence except an unlisted text that spells one of the four level names |
| Schema.ResolveValue | src/database.py:434-444 | numbers (bools included) go to the numeric column, dicts to the JSON column, everything else to the text column; `None` becomes the text "None"; a bool becomes 1.0 or 0.0 |
| Schema.ColumnsOf | src/database.py:434-455 | a stored value occupies exactly one of the three value columns, and reading the columns back gives the value |
| Schema.FromColumns | src/database.py:107-109 | a value can be read back from the columns exactly when one column is populated, and it is the value that column holds |
| Schema.ResolveRefs | src/database.py:407-432 | unknown dimension name gives an error; otherwise the dimension id names that dimension; the sector is set exactly when a non-empty sector name exists; the subcategory is set exactly when the sector was found and a subcategory of that name exists under it; all ids are valid references |
| Schema.DefaultInput | src/database.py:380-389 | with no confidence argument the confidence is `medium` |
| Schema.NewRow | src/database.py:446-455 | a new row has the next id, status pending, no validator and no validation time, the confidence given, the resolved value, and created and updated times equal to now |
| Schema.ApplyValidation | src/database.py:545-551 | sets status, validator and validation time; replaces the notes only when new notes are given (COALESCE); every other field is unchanged apart from the update time |
| Schema.QuerySound | src/database.py:489-512 | every data point returned is a row of the table, joined with its names, that matches every given filter |
| Schema.QueryNewestFirst | src/database.py:514 | query results come newest first: their ids strictly decrease |
| Schema.QueryNewest | src/database.py:514-515 | a matching row left out of the answer was crowded out: the answer holds `limit` rows, all newer than it |
| Schema.QueryLastRow | tests/test_database.py:83-97 | the row added last, when it matches the filters, is the first answer of any query with a non-zero limit |
| Schema.AddedPointReadBack | tests/test_database.py:187-226 | a data point added under names that resolve reads back as written: a float, int, text or JSON value sits unchanged in its column, the view carries the dimension's name, and a query on its sector, dimension and year returns it first |
| Schema.LogQuerySound | src/database.py:575-591 | every change-log entry returned is in the log, matches the table filter and is of a later date than `since`; entries come newest first |
| Schema.LogQueryNewest | src/database.py:586-591 | a log entry that matches the table filter and is of a later date than `since`, but is left out, means the limit was reached with newer entries |
| Store.UpdatedRows | src/database.py:545-551 | after a validation update, the row with the id carries the new validation and every other row is unchanged; nothing changes when the id is missing |
| Store.UpdatedLog | src/database.py:539-542 | a validation update appends one entry when the row exists and none otherwise |
| Store.Database.constructor | src/database.py:21-30 | a fresh store is well formed with empty tables and an empty log |
| Store.Database.LogChange | src/database.py:562-573 | `_log_change` appends exactly one entry with the next id and leaves earlier entries unchanged |
| Store.Database.GetChanges | src/database.py:575-606 | the loop returns exactly the change-log query: entries of the table that are of a later date than `since`, newest first, at most `limit` |
| Schema.SameDayEntryLeftOut | src/database.py:586-588 | an entry written at 12:00 is left out of a query with `since` at 09:00 of the same day, though it is later |
| Store.Database.AddSource | src/database.py:349-365 | a new source is appended with the next id; nothing else changes |
| Store.Database.GetOrCreateSource | src/database.py:367-378 | with a non-empty URL that some source has, returns the first such source and adds nothing; otherwise appends a new source |
| Store.Database.AddDataPoint | src/database.py:380-467 | an unknown dimension is an error and writes nothing; otherwise exactly one row with the next id and exactly one insert log entry are appended, and the taxonomy is unchanged |
| Store.Database.GetDataPoints | src/database.py:469-529 | the loop returns exactly the query: joined rows matching every filter, newest first, at most `limit` |
| Store.Database.UpdateDataPointValidation | src/database.py:531-560 | returns true exactly when the id exists; then the one row is updated and one update entry pairs the old status with the new status and validator; on a missing id no row and no log entry change |
| Store.Database.InsertSectorIfAbsent | src/database.py:256-265 | INSERT OR IGNORE by name: a new sector is created exactly when no sector has that name; the id returned names that sector |
| Store.Database.InsertSubcategoryIfAbsent | src/database.py:268-274 | INSERT OR IGNORE, unique per sector and name: created exactly when absent, and present afterwards |
| Store.Database.InsertDimensionIfAbsent | src/database.py:277-283 | INSERT OR IGNORE by name: created exactly when absent |
| Store.Database.SeedSector | src/database.py:256-274 | one seed sector: afterwards it exists with each of its seeded subcategories under it; at most one sector row is added and the subcategory count equals the rows created; when it was seeded already, nothing changes |
| Store.Database.SeedSectors | src/database.py:255-274 | every seeded sector exists afterwards with each of its seeded subcategories under it; the two counts equal the sector and subcategory rows created; only sectors and subcategories grow; when every seed was present already, neither table changes |
| Store.Database.SeedSubcategories | src/database.py:268-274 | every subcategory name exists under its sector afterwards; the count equals the rows created; when every name was present already, the table is unchanged |
| Store.Database.SeedDimensions | src/database.py:276-283 | every seeded dimension exists afterwards; the count equals the rows created; when every name was present already, the table is unchanged |
| Store.Database.Seed | src/database.py:240-302 | seeding grows only the taxonomy, reports how many sector, subcategory and dimension rows it created, and leaves every seeded sector (with its seeded subcategories under it) and every seeded dimension present; seeding a store where every seed is present creates nothing, so seeding twice adds nothing the second time |
| Store.Database.SeedDefaultData | src/database.py:240-302 | everything `Seed` promises, for the configured sectors, subcategories and dimensions: the counts, only growth of the taxonomy, every default sector with its subcategories and every default dimension present (`market_size` and `market_growth_rate` among them); data points, sources and log are untouched; seeding a store where every seed is present creates nothing, so seeding twice adds nothing the second time |
| Store.Database.GetSectors | src/database.py:306-320 | the sectors ordered by name (sorted, and a permutation of the table), each listed with exactly its own subcategories, ordered by name |
| Store.ListingOf | src/database.py:313-318 | a sector's entry in the listing holds exactly the subcategories with that sector's id, ordered by name |
| Store.Database.GetDimensions | src/database.py:332-337 | the dimensions ordered by name: sorted, and a permutation of the table |
| Common.SortByKeySorts | src/database.py:310 | sorting by name gives names in order, and only reorders (same multiset) |
| Common.InOrderUnique | src/database.py:54 | when names are unique (`name TEXT UNIQUE`), there is exactly one name order of a table: any two name-ordered permutations are equal |
| Store.SeededUnderId | src/database.py:54 | sector names are unique, so a seeded sector is the one its name finds, and its seeded subcategories hang under that id |
| Common.BeforeIrreflexive | src/database.py:310 | no name sorts before itself |
| Common.BeforeAsymmetric | src/database.py:310 | two names never sort before each other |
| Common.BeforeTransitive | src/database.py:310 | name order is transitive |
| Common.BeforeTotal | src/database.py:310 | of two different names one sorts before the other |
| Common.InsertByKeyInOrder | src/database.py:310 | inserting into a name-ordered list keeps it ordered and adds exactly the one element |
| ChangeDetection.PercentChange | src/change_detection.py:53-60 | undefined exactly when a value is missing or both are zero; from zero any change is 100 percent |
| ChangeDetection.PercentChangeInverse | src/change_detection.py:60 | applying the percent change to a non-zero old value gives the new value back |
| ChangeDetection.PercentChangeSign | src/change_detection.py:60 | from a non-zero old value the percent change has the sign of the difference |
| ChangeDetection.SignificanceOf | src/change_detection.py:62-73 | an undefined change is low; otherwise high at 20 percent or more, medium from 10 up to 20, low from 5 up to 10, minimal below 5, each threshold belonging to the grade above it |
| ChangeDetection.SignificanceMonotone | src/change_detection.py:62-73 | a larger change is never graded below a smaller one |
| ChangeDetection.Classify | src/change_detection.py:116-129 | no kind exactly when the values are equal (both missing included); new, removed, increase and decrease each hold exactly in their case |
| ChangeDetection.CompareValues | src/change_detection.py:109-148 | a reported change is never minimal and carries the sector, dimension, period and detection time |
| ChangeDetection.CompareValuesReports | src/change_detection.py:109-148 | a change is reported exactly when the two newest values differ and the grade is not minimal; it carries both values, their kind, percent change and grade, and the id of the newest current-period point, or of the previous period's point when the current period is empty |
| ChangeDetection.AppearingAlwaysReported | src/change_detection.py:117-120 | a value that appears or disappears is always reported, as low, with no percent change |
| ChangeDetection.ComparisonTraceable | src/change_detection.py:93-138 | a reported change names a stored data point of one of the two compared years (of any year when a year of 0 skips the year filter) |
| ChangeDetection.PeriodDataTraceable | src/change_detection.py:93-107 | the newest data point of a period is a stored row of that year (of any year when the year filter is skipped) |
| ChangeDetection.OrNow | src/change_detection.py:163-164 | a missing or zero argument means the clock's value |
| ChangeDetection.PreviousMonth | src/change_detection.py:166-172 | the month before is one month earlier on the running month count, stays a calendar month when given one (1 to 12), and keeps the year except in January |
| ChangeDetection.ScanSectorExact | src/change_detection.py:179-186 | a change is in one sector's scan exactly when comparing that sector with some dimension reports it |
| ChangeDetection.ScanExact | src/change_detection.py:178-186 | a change is in the full scan exactly when some sector and dimension pair reports it |
| ChangeDetection.PairComparisonNotMinimal | src/change_detection.py:134-135 | no comparison of a store reports a minimal change |
| ChangeDetection.TierPartition | src/change_detection.py:189-190 | the four grades together hold exactly the changes, as a multiset |
| ChangeDetection.TierSortedPermutation | src/change_detection.py:190 | sorting by significance only reorders |
| ChangeDetection.TierSortedOrdered | src/change_detection.py:189-190 | the sorted changes never go from a higher rank back to a lower one |
| ChangeDetection.TierSortedStable | src/change_detection.py:190 | the sort is stable: within a grade the scan order is kept |
| ChangeDetection.ScanNotMinimal | src/change_detection.py:178-186 | no scanned change is minimal |
| ChangeDetection.TierCounts | src/change_detection.py:345-348 | with no minimal change, the high, medium and low counts add up to the total |
| ChangeDetection.MonthOverMonthCounts | src/change_detection.py:325-349 | the total of a month's changes over the store equals high + medium + low |
| ChangeDetection.ChangeDetector.ComparePeriods | src/change_detection.py:75-148 | `compare_periods` returns what one month-over-month comparison of the store specifies |
| ChangeDetection.ChangeDetector.CompareYears | src/change_detection.py:213-267 | the body of the year-over-year loop returns what one year-over-year comparison specifies |
| ChangeDetection.ChangeDetector.SortBySignificance | src/change_detection.py:189-190 | the sort returns the stable grade order, high first (see the tier lemmas) |
| ChangeDetection.ChangeDetector.ComparePair | src/change_detection.py:180-184 | one comparison by the rules of the period's kind equals its specification |
| ChangeDetection.ChangeDetector.ScanSectorPairs | src/change_detection.py:179-186 | the inner loop collects one sector's reported changes, in the order of the dimensions it is given |
| ChangeDetection.ChangeDetector.ScanAll | src/change_detection.py:178-186 | the outer loop collects every sector's changes, in the order of the sectors it is given |
| ChangeDetection.ChangeDetector.ScanPairs | src/change_detection.py:174-186 | the nested loops return exactly the scan of every sector and dimension pair of the store, sectors and dimensions each in order of name as `get_sectors` and `get_dimensions` list them |
| ChangeDetection.ChangeDetector.DetectMonthOverMonth | src/change_detection.py:150-193 | every pair compared with the month before (January rolls back to December of the year before), scanned in order of sector and dimension name, then stably sorted by grade |
| ChangeDetection.ChangeDetector.DetectYearOverYear | src/change_detection.py:195-269 | every pair's annual points compared with the year before, in order of sector and dimension name, not re-sorted |
| ChangeDetection.GroupBySignificance | src/change_detection.py:327-331 | each grade's list holds exactly that grade's changes, in order |
| ChangeDetection.GroupBySector | src/change_detection.py:333-338 | one entry per sector that has a change, holding exactly that sector's changes, in order; the keys in the order the dict receives them, that of each sector's first change |
| ChangeDetection.SectorOrderSound | src/change_detection.py:333-338 | the key order of the by-sector dict lists every sector that has a change, each once, ordered by where each sector's first change stands |
| ChangeDetection.GroupStep | src/change_detection.py:335-338 | appending a change to its sector's group, opening the group if needed, keeps the grouping exact |
| ChangeDetection.ChangeReporter.GenerateMonthlyReport | src/change_detection.py:309-358 | the report's grade lists and sector groups (with their key order) are exactly those of the month's changes in the name-ordered scan, sorted by grade, and the summary total equals high + medium + low |
| ValidationRules.TallyOf | src/validation_workflow.py:205-221 | every rule lands in exactly one of passes, failures and warnings, so their counts add up to the number of rules; an auto-reject only comes with a failure |
| ValidationRules.TallyFailuresSound | src/validation_workflow.py:211-215 | every failure names an error-severity rule whose check failed |
| ValidationRules.TallyFailuresComplete | src/validation_workflow.py:211-215 | every error-severity rule whose check failed is among the failures |
| ValidationRules.TallyFailuresCount | src/validation_workflow.py:205-215 | there are exactly as many failures as error-severity rules whose check failed |
| ValidationRules.RejectPolicy | src/validation_workflow.py:211-224 | a found data point is recommended for rejection exactly when an auto-reject error rule failed or at least two error rules failed |
| ValidationRules.TallyAutoReject | src/validation_workflow.py:214-215 | the auto-reject flag is set exactly when a failed error rule carries it |
| ValidationRules.TallyAllPass | src/validation_workflow.py:208-209 | the pass count equals the number of rules exactly when every check passed |
| ValidationRules.AssessSound | src/validation_workflow.py:222-241 | passed + failed + warnings = rules checked = number of rules; passed exactly when no error rule failed; a reject never passed; validate exactly when every rule passed |
| ValidationRules.CheckRules | src/validation_workflow.py:200-241 | the rule loop, with exceptions downgraded to warnings, gives exactly the specified tally and recommendation |
| ValidationRules.DefaultRules | src/validation_workflow.py:112-156 | there are seven default rules; their checks, severities and auto-reject flags are the rule constants beside it |
| ValidationRules.RulesOrDefault | src/validation_workflow.py:173 | no rules, or an empty list, means the defaults; the rules in use are never empty |
| ValidationRules.DefaultTally | src/validation_workflow.py:112-156 | the default tally is the seven rules applied in their order |
| ValidationRules.DefaultsNeverReject | src/validation_workflow.py:56-156 | under the defaults a found data point is never rejected; it passes exactly when its value is in its dimension's range, and is recommended for validation exactly when all seven conditions hold |
| ValidationRules.DefaultsNeverRejectFound | src/validation_workflow.py:112-156 | the default rules never reject a data point that was found |
| ValidationRules.MarketSizeOverBoundIsReviewed | src/validation_workflow.py:132-137 | a market size above 1000 fails one error rule that is not auto-reject, so it goes to review, not reject |
| Workflow.LookupFinds | src/validation_workflow.py:186-187 | searching the 1000 newest data points finds an id exactly when it lies in that window, and then finds the row with that id |
| Workflow.NewestRows | src/validation_workflow.py:186 | without filters the query returns the newest rows in reverse insertion order |
| Workflow.ValidationRejects | src/validation_workflow.py:189-198 | an id outside the window gives the not-found result, which recommends reject; under rules that never reject a found point, reject means exactly "not found" |
| Workflow.ValidationFrame | src/validation_workflow.py:186-241 | validating an id depends only on the taxonomy, the row count and that id's row |
| Workflow.ValidateIdempotent | src/validation_workflow.py:323-328 | validating twice with the same validator, time and no notes is validating once |
| Workflow.ValidationWorkflow.constructor | src/validation_workflow.py:164-173 | the workflow uses the rules given, or the defaults when none are given |
| Workflow.ValidationWorkflow.ValidateDataPoint | src/validation_workflow.py:175-241 | the search loop and the rule loop give exactly the specified validation of the id |
| Workflow.ValidationWorkflow.StartReview | src/validation_workflow.py:285-301 | from any status the row goes to `in_review` under the reviewer, with a note; fails only on a missing id |
| Workflow.ValidationWorkflow.ValidateItem | src/validation_workflow.py:303-328 | from any status the row goes to `validated`, even when the rules recommend reject; fails only on a missing id |
| Workflow.ValidationWorkflow.RejectItem | src/validation_workflow.py:330-348 | from any status the row goes to `rejected`, with the reason in the notes |
| Workflow.ValidationWorkflow.MarkOutdated | src/validation_workflow.py:350-366 | from any status the row goes to `outdated` by "system"; an absent or empty reason gives the stock note |
| Workflow.ValidationWorkflow.BatchStep | src/validation_workflow.py:384-391 | an id is validated exactly when its recommendation is not reject, and then it lies in the lookup window; the one row is validated and the log gains exactly its update entry (old status to validated, by the validator), otherwise rows and log are unchanged; if only ids the rules accept (on the store as the batch found it) had changed rows before, that still holds, and a validated id is one of them |
| Workflow.ValidationWorkflow.BatchRound | src/validation_workflow.py:383-391 | one loop iteration keeps the batch invariant: the counts, which rows may have changed, and the log: the earlier entries kept, every new entry the update to validated of a listed, accepted id in the window, and under never-rejecting rules the new entries name exactly the window ids done so far, in order |
| Workflow.ValidationWorkflow.BatchValidate | src/validation_workflow.py:368-393 | validated + failed equals the number of ids, the empty list included; the log keeps its earlier entries and gains one entry per validated id, each the update to validated by the validator of a listed id in the window that the rules accept; under the default rules those entries name exactly the listed ids in the window, in list order; a row changes only when its id is listed, lies in the window and is not rejected, and then it is validated by the validator; under the default rules exactly the ids outside the window fail |
| Workflow.ValidationWorkflow.AutoStep | src/validation_workflow.py:413-426 | a high-confidence data point is validated when it passes and put in review otherwise, and the log gains its one update entry (by the validator, or by the automatic reviewer); any other leaves rows and log alone |
| Workflow.ValidationWorkflow.AutoStepLogged | src/validation_workflow.py:413-426 | the same step, with the log read as the entries of the high-confidence points scanned so far, one more when this one is high |
| Workflow.ValidationWorkflow.AutoRound | src/validation_workflow.py:413-426 | one loop iteration keeps the counting, row and log invariant of the automatic pass: the log is the earlier log followed by one entry per high-confidence point scanned so far, in scan order |
| Workflow.ValidationWorkflow.AutoValidateHighConfidence | src/validation_workflow.py:395-431 | auto-validated + flagged equals the pending data points scanned (at most 100); auto-validated counts the high-confidence ones that pass; exactly the scanned high-confidence rows are written, each validated or sent to review, and every other row is unchanged; the log keeps its earlier entries and gains one update entry per scanned high-confidence point, in scan order, numbered on, each for the status that point's decision sets |
| Workflow.AcceptedStep | src/validation_workflow.py:384-386 | validating an id that the rules do not reject keeps the batch guarantee that only accepted rows have changed |
| Workflow.BatchRowsStep | src/validation_workflow.py:383-391 | after one more id the changed rows are still validated rows with listed ids in the window |
| Workflow.BatchRowsExactStep | src/validation_workflow.py:383-391 | under rules that never reject a found point, after one more id exactly the listed ids in the window are validated |
| Workflow.AutoRowsStep | src/validation_workflow.py:413-426 | after one more scanned data point, exactly the high-confidence scanned rows are decided |
| Workflow.BatchLogStep | src/validation_workflow.py:384-391 | after one more id, the new log entries are still updates to validated of listed, accepted ids in the window |
| Workflow.BatchLogExactStep | src/validation_workflow.py:383-391 | under never-rejecting rules, after one more id the new log entries still name exactly the window ids done so far, in order |
| Workflow.BatchLogDone | src/validation_workflow.py:368-393 | the batch log invariant over the whole list of ids is the one over all of it |
| Workflow.RecordIdsSnoc | src/database.py:562-573 | appending an entry appends its record id to the ids of a run of entries |
| Workflow.AutoEntriesAt | src/validation_workflow.py:413-426 | entry m of the automatic pass's run is the update for the m-th high-confidence point, with log id base + m + 1 |
| Workflow.AutoEntriesSnoc | src/validation_workflow.py:413-426 | one more high-confidence point adds exactly its entry at the end of the run |
| Workflow.AutoLogNext | src/validation_workflow.py:413-426 | one more scanned point keeps the log equal to the earlier log followed by the run for the high-confidence points scanned so far |
| Workflow.QueryScanRows | src/database.py:514 | a query answer carries, for each entry, the row stored under its id, and the ids strictly decrease |

## Left out

- SQLite itself is not modelled: SQL strings, connections, transactions, indexes and the `CREATE TABLE` statements. Tables are in-memory sequences, and each method is atomic.
- JSON is not modelled. Structured values, metadata and log snapshots are opaque texts or datatypes, and `json.dumps` and `json.loads` are not modelled.
- Clock, logging and filesystem are left out. `datetime.now()` is the `now`, year and month parameters. `logger` calls are left out. Choosing the database path and creating its directory in `Database.__init__` is left out. A workflow or detector built without a store is given the store explicitly.
- Floating-point arithmetic is not modelled: values and percentages are `real`.
- `Store.Database.AddDataPoint`: a float NaN (which `json.loads` accepts) has no counterpart in `real`. SQLite stores a bound NaN as NULL, so such a data point has all three value columns NULL; the model always populates exactly one.
- `ValidationRules.DefaultsNeverReject`: for a stored NaN value the auto-reject rule `value_not_null` fails, so the source recommends `reject` for a found data point; the model, having no NaN, never does.
- A confidence given as `None` (a JSON `null` passed through `.get("confidence", "medium")`) is not modelled: the confidence is a text. The rules treat `None` as they treat any unlisted text (`Unlisted`), so the recommendations are the same.
- Name order is code-point order (SQLite's default `BINARY` collation). Only the ordering of sectors, subcategories and dimensions is modelled; `get_sectors` and `get_dimensions` return the rows as records and every column besides the name is carried unchanged.
- `get_changes`: `since` is a local `datetime` in the source while `CURRENT_TIMESTAMP` is UTC. The model has one clock, so the time-zone offset between them is not modelled.
- `Store.Database.AddDataPoint`: only values, dicts and metadata that `json.dumps` can encode are modelled. For anything else (a set, a datetime, an arbitrary object, or a dict holding one) the source raises `TypeError` while writing the insert's log entry, or while encoding the dict or the metadata, and the connection rolls back so nothing is stored (src/database.py:40-42). The model always stores the row and its log entry.
- Interviews, technologies, research sessions, `get_statistics`, `get_technologies` and the other technology operations are not modelled. Seeding does not create technologies.
- `get_sector_by_name` and `get_dimension_by_name` appear only through `Schema.ResolveRefs` and `Common.FirstWhere`. They are not separate methods.
- `get_change_history`, `generate_annual_report`, `_change_to_dict`, `format_changes_as_text` and `get_monthly_changes` are not modelled: they are formatting and wrappers over the modelled detectors.
- `get_pending_items`, `get_review_queue`, `get_validation_stats` and `validation_result_to_dict` are not modelled: they are read-only wrappers and statistics over the modelled queries.
- A change's period label (`"2025-01 vs 2024-12"`) is the datatype `Period`, not formatted text.
- A rule's check takes the current year as an argument. That is how `recent_year` reads the clock in the source.
- `Workflow.ValidationWorkflow.BatchValidate`: when the rules may reject found data points, the contract says which rows may have changed and that each changed row was not rejected. It does not say exactly which listed ids fail.
