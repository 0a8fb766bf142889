# Smart-apartment data pipeline — a verified Dafny model

This project models the core of a small smart-apartment data platform. Sensor
captures move through a medallion pipeline, and a companion script keeps an
issue tracker in step with a planning board:

- **Bronze archiver** (`BronzeIngest`, `bronze.dfy`). It moves every regular
  file of the landing directories `apt1`, `apt2` and `weather` to
  `<bronze>/<source>/YYYY/MM/DD/<filename>`, partitioned by the UTC date of
  the run. The filesystem is a `FileSystem` class whose `ArchiveLandingFiles`
  method is proved against the functional specification `Archive`.
- **Silver transformer** (`SilverTransform`, `silver.dfy`). It flattens each
  decoded capture of an apartment into one row of `sensor_readings` and
  inserts it with `INSERT OR IGNORE` under the unique key `(apt_id, ts)`.
  A capture whose `timestamp` is `null` breaks the `NOT NULL` constraint on
  `ts` and is ignored. Unreadable or undecodable files are logged and skipped. The database is a
  `SilverDb` class and the run is specified by `Ingest`.
- **Gold aggregator** (`GoldAggregate`, `gold.dfy`). It groups silver rows
  by apartment and hour (energy) or by apartment and day (presence and
  environment). It computes SQL `SUM`/`AVG`, which skip NULLs, and upserts
  one row per group into the fact tables. The `GroupKeys`/`Members`/`Query`
  functions give the meaning of the `GROUP BY` queries. `Upsert` gives the
  meaning of `INSERT OR REPLACE` on the table's primary key. The `GoldDb` class holds the
  tables.
- **Forecast baselines** (`Forecast`, `forecast.dfy`). These are the
  rolling-mean energy model (last 24 hours) and presence model (last 7 days)
  over the non-NULL values of a gold series.
- **Issue-sync helpers** (`IssueSync`, `sync.dfy`). These are the pure
  functions of the sync script:
  - case-insensitive matching of a status against the board's options;
  - rich-text truncation;
  - status and type mapping from labels;
  - splitting an issue body at `**Acceptance criteria**`;
  - building the property dictionaries for issues and milestones.
- **Shared helpers** (`Common`, `common.dfy`). These cover options,
  prefixes, zero padding, NULL filtering and sums.

## Model

| member | source | states |
|---|---|---|
| BronzeIngest.DatePart | etl/bronze/ingest.py:24-25 | `strftime("%Y/%m/%d")` is 10 characters with `/` at positions 4 and 7, and the fields are the zero-padded year, month and day |
| BronzeIngest.DatePartInjective | etl/bronze/ingest.py:25 | distinct calendar dates give distinct date partitions |
| BronzeIngest.DatePartDigits | etl/bronze/ingest.py:25 | every character of the date part other than its two separators is a decimal digit |
| BronzeIngest.PathJoinSplit | etl/bronze/ingest.py:26-28 | `os.path.join(a, b)` puts `b` after a prefix that depends on `a` alone |
| BronzeIngest.DestPathShape | etl/bronze/ingest.py:23-28 | `_dest_path` (the directory `DestDir` joined with the filename, `DestPath`) is `<root>/<source>/YYYY/MM/DD/<filename>` |
| BronzeIngest.DatePartExample | etl/bronze/ingest.py:25 | 2024-03-05 is partitioned as `2024/03/05` |
| BronzeIngest.DestPathExample | etl/bronze/ingest.py:23-28 | `reading.json` of `apt1` on 2024-03-05 goes to `data/bronze/apt1/2024/03/05/reading.json` |
| BronzeIngest.DestPathInjective | etl/bronze/ingest.py:23-28 | distinct (source, date, filename) triples never share an archive path, so no archived file is overwritten by another source, day or name |
| BronzeIngest.DestPathInjectiveInName | etl/bronze/ingest.py:28 | on one day, distinct filenames of one source get distinct archive paths |
| BronzeIngest.SourcesDoNotCollide | etl/bronze/ingest.py:46-48 | two different sources archived on the same day never write the same path |
| BronzeIngest.Moved | etl/bronze/ingest.py:37-42 | exactly the regular files among the listed names are written to their destination paths, with their bytes |
| BronzeIngest.Archive | etl/bronze/ingest.py:31-43 | a missing landing directory changes nothing; otherwise every regular file of the source moves out of landing |
| BronzeIngest.ArchiveEffect | etl/bronze/ingest.py:31-43 | after a run, no regular file of the source is left in landing, every one is in bronze at its destination path with its bytes, other sources' entries and sub-directories stay, and bronze gains exactly those destinations, every earlier bronze file being kept or replaced by one of them |
| BronzeIngest.MoveFilesNothing | etl/bronze/ingest.py:39-40 | when no listed entry is a regular file, nothing changes |
| BronzeIngest.ArchiveIdempotent | etl/bronze/ingest.py:31-43 | a second run with no new landing file, on the same day or any later one, finds nothing to move and changes nothing |
| BronzeIngest.MoveFilesTwice | etl/bronze/ingest.py:37-42 | moving the regular files among one set of names, then among another, moves those among both |
| BronzeIngest.ArchiveResumes | etl/bronze/ingest.py:37-42 | a run interrupted after moving some of the listed files (a failing `makedirs` or `move`) is completed by a second run, which leaves the disk as one uninterrupted run would |
| BronzeIngest.MoveFilesStep | etl/bronze/ingest.py:37-42 | moving one more listed name updates landing and bronze for that name alone |
| BronzeIngest.FileSystem.constructor | etl/bronze/ingest.py:19-20 | the filesystem starts with the given contents and bronze root |
| BronzeIngest.FileSystem.ArchiveLandingFiles | etl/bronze/ingest.py:31-43 | the new filesystem is `Archive` of the old one, with the `os.listdir` loop moving one file at a time |
| BronzeIngest.FileSystem.ArchiveAllSources | etl/bronze/ingest.py:46-48 | `apt1`, `apt2` and `weather` are archived in that order |
| BronzeIngest.ArchiveEachSnoc | etl/bronze/ingest.py:47-48 | archiving a list of sources then one more equals archiving that one after the list |
| SilverTransform.Flatten | etl/silver/transform.py:44-53 | a capture whose `timestamp` is `null` gives no storable row (its `ts` would be NULL); otherwise the row carries the apartment id, the capture's timestamp or, when the key is missing, the clock's time, presence 1 exactly when `presence.detected` is truthy and 0 otherwise, and `kwh`, `temperature`, `humidity`, `co2` copied or NULL when absent |
| SilverTransform.FlattenIgnoresClock | etl/silver/transform.py:47 | a capture with a `timestamp` key flattens to the same result whatever the clock says |
| SilverTransform.FlattenPresenceDefault | etl/silver/transform.py:49 | a capture without `presence.detected` gets presence 0 |
| SilverTransform.InsertIfAbsent | etl/silver/transform.py:65-73 | `INSERT OR IGNORE` leaves the table unchanged exactly when the key is already present, otherwise appends one row; the unique key is preserved |
| SilverTransform.InsertRow | etl/silver/transform.py:65-73 | a row with a NULL `ts` is ignored under the `NOT NULL` constraint of line 31; any other row is inserted as by `InsertIfAbsent`, and a row that is added is the flattened one |
| SilverTransform.ArchivedCaptureIsListed | etl/silver/transform.py:57-58 | a capture the bronze stage archived for the apartment under a visible `.json` name lies under `<root>/<apt_id>/` and matches the recursive glob, so the silver run lists it |
| SilverTransform.FailuresCount | etl/silver/transform.py:74-75 | a file whose read or decode failed is logged as many times as the listing holds it, and every other file zero times |
| SilverTransform.FailuresAreSkipped | etl/silver/transform.py:74-75 | a file is logged exactly when it is listed and its read or decode failed |
| SilverTransform.FailuresLoggedOnce | etl/silver/transform.py:58-75 | as the glob lists each path once, no file is logged twice |
| SilverTransform.Ingest | etl/silver/transform.py:56-76 | a run aborts exactly when some file raises an error other than a read or decode error, and the file it aborts on is the first such file in glob order |
| SilverTransform.IngestAppends | etl/silver/transform.py:60-73 | a committed run keeps every earlier row in place and only appends rows of this apartment |
| SilverTransform.IngestKeepsKeysUnique | etl/silver/transform.py:37 | a committed run keeps at most one row per `(apt_id, ts)` |
| SilverTransform.IngestComplete | etl/silver/transform.py:60-73 | after a committed run, the key of every file that loaded with a non-null timestamp is in the table |
| SilverTransform.IngestSound | etl/silver/transform.py:60-73 | every row a committed run adds is the flattening of a file that loaded |
| SilverTransform.IngestNothingNew | etl/silver/transform.py:65-73 | when the key of every storable loaded file is already present, the run adds no row |
| SilverTransform.IngestIdempotent | etl/silver/transform.py:56-76 | after a committed run, a second run over files of the same tree, in any order, with any repetition and any clock, leaves the table as it is, when every capture has a `timestamp` key |
| SilverTransform.SilverDb.constructor | etl/silver/transform.py:81 | a fresh database has no table |
| SilverTransform.SilverDb.EnsureDb | etl/silver/transform.py:25-41 | `CREATE TABLE IF NOT EXISTS` creates the table and keeps existing rows |
| SilverTransform.SilverDb.InsertOrIgnore | etl/silver/transform.py:65-73 | one insertion is `InsertRow` on the table |
| SilverTransform.SilverDb.ProcessFile | etl/silver/transform.py:61-75 | one file of the loop: a loaded capture is inserted with `INSERT OR IGNORE`, and a read or decode failure leaves the table unchanged and is reported as skipped |
| SilverTransform.SilverDb.ProcessBronzeFiles | etl/silver/transform.py:56-76 | the table after processing the globbed files is the rows of `Ingest` and the log is `Failures` when the run commits; when it aborts, the table is unchanged, the first uncaught file in glob order is reported, and the failures logged are `Failures` of the files before it |
| SilverTransform.SilverDb.Transform | etl/silver/transform.py:79-85 | the table is created, then `apt1` and `apt2` are processed in order, and the second is skipped when the first aborts |
| GoldAggregate.GroupKeys | etl/gold/aggregate.py:62 | `GROUP BY` yields each (apartment, period) key that occurs in silver, and yields it once |
| GoldAggregate.Members | etl/gold/aggregate.py:62 | a group holds exactly the silver rows with that key, and an occurring key has a non-empty group |
| GoldAggregate.Query | etl/gold/aggregate.py:54-64 | the query gives one row per occurring key, with distinct keys and the aggregate of that key's group |
| GoldAggregate.SqlSum | etl/gold/aggregate.py:59 | `SUM` is NULL exactly when the group has no non-NULL value |
| GoldAggregate.SqlSumSnoc | etl/gold/aggregate.py:59 | one more non-NULL value adds to `SUM`, starting from 0 when the column had none; with the NULL case and `NullSkipped` this fixes `SUM` as the sum of the non-NULL values on every column |
| GoldAggregate.SqlAvg | etl/gold/aggregate.py:60 | `AVG` is NULL exactly when there is no non-NULL value, and otherwise times their count is their sum |
| GoldAggregate.NullSkipped | etl/gold/aggregate.py:59-60 | a NULL reading changes neither `SUM` nor `AVG` |
| GoldAggregate.AvgBounds | etl/gold/aggregate.py:60 | an average lies between bounds that hold for every non-NULL value |
| GoldAggregate.AllNull | etl/gold/aggregate.py:59-60 | a column has no non-NULL value exactly when every value in it is NULL |
| GoldAggregate.EnergyOf | etl/gold/aggregate.py:59-60 | the total and the average energy of a group are NULL exactly when every reading's energy is NULL |
| GoldAggregate.PresenceOf | etl/gold/aggregate.py:82 | the presence ratio of a group is defined exactly when the group has a reading |
| GoldAggregate.EnvironmentOf | etl/gold/aggregate.py:104-106 | each average of a group is NULL exactly when that column is NULL in every reading |
| GoldAggregate.EnergyHourlyQuery | etl/gold/aggregate.py:54-64 | one row per (apartment, hour) of silver, with distinct keys, each holding the energy aggregates of that hour's readings |
| GoldAggregate.PresenceDailyQuery | etl/gold/aggregate.py:77-86 | one row per (apartment, day) of silver, with distinct keys, each holding the presence ratio of that day's readings |
| GoldAggregate.EnvironmentDailyQuery | etl/gold/aggregate.py:99-110 | one row per (apartment, day) of silver, with distinct keys, each holding the averages of temperature, humidity and CO2 over that day's readings |
| GoldAggregate.PresenceRatioBounded | etl/gold/aggregate.py:76-87 | for presence values in {0, 1}, every daily presence ratio is defined and lies in [0, 1] |
| GoldAggregate.UpsertOverrides | etl/gold/aggregate.py:65-71 | upserting rows overrides the table at their keys and keeps every other key |
| GoldAggregate.UpsertWrites | etl/gold/aggregate.py:65-71 | rows with distinct keys are each written with their own value, and no other key is written |
| GoldAggregate.UpsertIdempotent | etl/gold/aggregate.py:65-71 | upserting the same rows twice equals upserting them once |
| GoldAggregate.UpsertCovering | etl/gold/aggregate.py:65-71 | when the rows cover every key of the table, the old values are gone |
| GoldAggregate.UpsertQuery | etl/gold/aggregate.py:53-73 | after the upsert, each occurring group holds its fresh aggregate, and keys absent from silver keep their old rows |
| GoldAggregate.ExecuteMany | etl/gold/aggregate.py:65-71 | `executemany` of the upsert statement applies the rows one after another and gives `Upsert` |
| GoldAggregate.RerunReplaces | etl/gold/aggregate.py:53-73 | re-running over a silver table that only grew overwrites everything the earlier run wrote |
| GoldAggregate.Aggregate | etl/gold/aggregate.py:123-130 | the run creates the three fact tables and upserts the three queries |
| GoldAggregate.AggregateIdempotent | etl/gold/aggregate.py:123-130 | running the aggregation twice over the same silver table equals running it once |
| GoldAggregate.AggregateRerun | etl/gold/aggregate.py:123-130 | after silver grows, a re-run gives the same gold as a single run over the larger silver |
| GoldAggregate.AggregateEmpty | etl/gold/aggregate.py:123-130 | an empty silver table only creates the tables |
| GoldAggregate.ExampleHours | etl/gold/aggregate.py:58 | `strftime('%Y-%m-%dT%H', ts)` of ISO timestamps keeps the hour and drops minutes and seconds |
| GoldAggregate.EnergyOfPair | etl/gold/aggregate.py:59-60 | two readings x and y give the total x + y and the average (x + y) / 2 |
| GoldAggregate.EnergyOfWithNull | etl/gold/aggregate.py:59-60 | a reading x with a NULL reading gives total x and average x |
| GoldAggregate.RollupOfThree | etl/gold/aggregate.py:53-73 | two readings in one hour and one in the next give two rows with their own totals and averages |
| GoldAggregate.HourlyRollupExample | etl/gold/aggregate.py:53-73 | 2.0 and 4.0 kWh at 09:xx and 1.0 at 10:00 give 6.0/3.0 for hour 09 and 1.0/1.0 for hour 10 |
| GoldAggregate.NullEnergyExample | etl/gold/aggregate.py:59-60 | 10.0 kWh and a NULL in one hour give total 10.0 and average 10.0 |
| GoldAggregate.GoldDb.constructor | etl/gold/aggregate.py:126 | a fresh gold database has no table |
| GoldAggregate.GoldDb.EnsureGoldTables | etl/gold/aggregate.py:22-50 | creates the three fact tables and keeps existing rows |
| GoldAggregate.GoldDb.BuildEnergyHourly | etl/gold/aggregate.py:53-73 | upserts the hourly energy query into its table and returns the number of groups |
| GoldAggregate.GoldDb.BuildPresenceDaily | etl/gold/aggregate.py:76-95 | upserts the daily presence query into its table and returns the number of groups |
| GoldAggregate.GoldDb.BuildEnvironmentDaily | etl/gold/aggregate.py:98-120 | upserts the daily environment query into its table and returns the number of groups |
| GoldAggregate.GoldDb.AggregateAll | etl/gold/aggregate.py:123-130 | the new gold state is `Aggregate` of the old one |
| Common.Take | etl/gold/aggregate.py:58 | the first n characters, or the whole string when it is shorter |
| Common.ZeroPadInjective | etl/bronze/ingest.py:25 | zero-padded numbers that fit the width are equal only when the numbers are |
| Common.ZeroPadDigits | etl/bronze/ingest.py:25 | a zero-padded number is made of decimal digits only |
| Common.NonNull | etl/gold/aggregate.py:59-60 | the non-NULL values are exactly the present values of the column |
| Common.NonNullAppend | etl/gold/aggregate.py:59-60 | filtering NULLs distributes over concatenation |
| Common.MeanBounds | ml/forecast.py:57 | the mean of values within [lo, hi] lies within [lo, hi] |
| Forecast.Values | ml/forecast.py:52 | the values are exactly the non-None entries of the series |
| Forecast.ValuesAppend | ml/forecast.py:52 | the values of two concatenated series are the values of each |
| Forecast.TrainRollingMean | ml/forecast.py:52-58 | the model is empty exactly when no value is left; otherwise the window is the horizon or the count of values, whichever is smaller |
| Forecast.RollingMeanIsMean | ml/forecast.py:56-57 | the model's value, added `window` times, is the sum of the last `window` values: it is their mean |
| Forecast.TimesIsProduct | ml/forecast.py:57 | adding a value `n` times is multiplying it by `n`, so the model's value times its window is that sum |
| Forecast.TrainEnergyModel | ml/forecast.py:50-60 | empty for no value, otherwise a window of min(24, n) |
| Forecast.TrainPresenceModel | ml/forecast.py:63-73 | empty for no value, otherwise a window of min(7, n) |
| Forecast.NothingSavedForEmptySeries | ml/forecast.py:84-99 | a series with only NULLs saves neither model |
| Forecast.NullIgnored | ml/forecast.py:52 | a NULL anywhere in the series does not change the model |
| Forecast.OnlyRecentValuesCount | ml/forecast.py:56-57 | once `horizon` newer values exist, older values do not change the model |
| Forecast.MeanWithinBounds | ml/forecast.py:56-57 | the forecast lies between bounds that hold for every value |
| Forecast.PresenceForecastIsRatio | ml/forecast.py:63-73 | presence ratios in [0, 1] give a presence forecast in [0, 1] |
| Forecast.ConstantSeries | ml/forecast.py:52-58 | a constant series is forecast as that constant |
| IssueSync.LowerIdempotent | sync.py:48 | lower-casing a lower-cased string changes nothing |
| IssueSync.Strip | sync.py:145-147 | the stripped text has no surrounding whitespace and is the slice of the input after its leading whitespace, followed only by whitespace |
| IssueSync.Find | sync.py:144-147 | the first occurrence of the separator, or proof there is none |
| IssueSync.UpTo | sync.py:145-146 | `s.split(m)[0]` is a prefix of `s` with no occurrence of `m`; it is all of `s` exactly when `m` does not occur, and otherwise ends where the first occurrence begins |
| IssueSync.Join | sync.py:166 | the empty list joins to "", a single item to itself, and otherwise the result starts with the first item and ends with the last |
| IssueSync.JoinExample | sync.py:166 | `", ".join(["ann", "bob"])` is `ann, bob` |
| IssueSync.JoinSnoc | sync.py:166 | joining one more item appends the separator and then that item, so the result is the items in order with the separator between each pair |
| IssueSync.After | sync.py:147 | when `m` occurs, `s` is the part before it, then `m`, then the result |
| IssueSync.FirstCaseMatch | sync.py:47-50 | the first option equal to the value ignoring case, or none exactly when no option matches |
| IssueSync.MatchStatus | sync.py:43-51 | the value itself when it is an option; otherwise the first option equal to it ignoring case; none exactly when no option matches |
| IssueSync.SafeStatus | sync.py:43-51 | the exact test and the loop over the options return `MatchStatus`: the value when it is an option, else the first option equal to it ignoring case, else none |
| IssueSync.MatchStatusExample | sync.py:43-51 | `done` matches `Done`; an exact match wins over an earlier case-only match; of two case-only matches the first wins; `Ice Box` matches nothing in a board without it |
| IssueSync.Txt | sync.py:114-115 | rich text of at most 2000 characters, a prefix of the value, the whole value when it fits, and empty for None |
| IssueSync.MapIssueStatus | sync.py:118-126 | a closed issue is `Done`; an open one is `In Review`, `In Progress`, `Backlog` or `Ice Box`, the first of the labels `in-review`, `in-progress`, `backlog`, `ice-box` it carries deciding, and `New Issues` when it carries none of them |
| IssueSync.StatusIgnoresLabelOrder | sync.py:118-126 | the status depends on the set of labels, not their order |
| IssueSync.FirstKnown | sync.py:129-138 | the first label that is a known type, or none exactly when no label is known |
| IssueSync.MapIssueType | sync.py:129-138 | the loop over the labels returns `FirstKnown` |
| IssueSync.TypeFollowsLabelOrder | sync.py:129-138 | the first known label wins: `bi` before `security` when listed first, and unknown labels are skipped |
| IssueSync.SplitBody | sync.py:142-147 | without the marker the whole body is the description and the criteria are empty; with it, the body is the text before the first marker, the marker and the rest, and the parts are that text stripped and the rest up to the next marker stripped |
| IssueSync.SplitBodyDropsMarkers | sync.py:142-147 | neither part of a split body contains the marker |
| IssueSync.SplitBodyRoundTrip | sync.py:142-147 | splitting `description + marker + criteria` gives back the stripped description and criteria whenever the marker written is the first one in the body and the criteria hold no marker |
| IssueSync.BuildIssueProps | sync.py:141-178 | only issue properties are set; Name and GitHub URL always; Status exactly when the schema's Status is a status and `safe_status` of the mapped status gives an option, and then as that option; Sprint exactly when the milestone maps to a sprint and the type is relation, with that sprint's id |
| IssueSync.IssueTextProps | sync.py:159-167 | Description, Acceptance Criteria and Assigned To are set exactly when their schema type is rich_text, each at most 2000 characters: the rich text of the split body's description, of its acceptance criteria, and of the assignees' logins joined with `, ` |
| IssueSync.IssueTypeProp | sync.py:169-171 | Type is set exactly when a label is a known type and the schema's type is select, and its value is the first label, in label order, that is a known type |
| IssueSync.ClosedIssueIsDone | sync.py:154-157 | a closed issue is written with status `Done` when the board offers it |
| IssueSync.BuildMilestoneProps | sync.py:181-206 | Name and URL are always set; Status exactly when the schema's type is status or select and `safe_status` of `Current`/`Completed` gives an option, as a value of that type named by that option; Sprint Goal exactly when there is a description, as its rich text; Duration exactly when there is a due date, starting and ending on its first 10 characters |
| IssueSync.DurationExample | sync.py:202-204 | a due date `2024-05-31T07:00:00Z` gives the one-day range `2024-05-31` |

## Left out

- The clock is a parameter. The bronze archiver reads it once per run, although `_dest_path` reads it per file, so a run that crosses midnight could split its files over two partitions; silver gets one clock value per file.
- The text of log messages, warnings and `print` output is not modelled. What the logs report is modelled: the silver error log is `Failures`, and the gold row counts are the `upserted` results. Directories that `os.makedirs` creates are implied by the paths of the files in them.
- An exception from `os.makedirs` or `shutil.move` (a permission error, a full disk) stops `archive_landing_files` part way; `ArchiveLandingFiles` always runs to the end. `ArchiveResumes` states what running again after such a stop gives.
- `shutil.move` is modelled as an overwrite of the destination. The claim in the module docstring that bronze files are never modified is only as strong as `DestPathInjective`: a file with the same name arriving on the same day replaces the earlier one.
- DatePart: the year is written with four digits, so years of 10000 and beyond are not modelled (`datetime` does not reach them).
- The listing order of `os.listdir` and of `glob.glob` is a parameter. The glob is the set of visible `.json` files under the apartment's directory; hidden files and symbolic links are not modelled.
- A capture's `timestamp` is a string, missing, or `null`; a timestamp of another JSON type is not modelled.
- JSON decoding is abstract: a file `Load`s as a record, a read error, a decode error, or another error. Another error stands for a non-object payload or a `null` or non-object section, where `_flatten` raises `AttributeError`, which the loop does not catch.
- SQLite is modelled through the statements used: the `AUTOINCREMENT` id is not modelled, and the rollback of an uncaught exception keeps the table as it was before the run. The row order of a `GROUP BY` result is not modelled either; the result is keyed by unique groups.
- `strftime` in the gold queries is modelled as taking the first 13 or 10 characters of an ISO-8601 timestamp. Timestamps with offsets or in other formats, for which SQLite normalises or returns NULL, are not modelled.
- Floating-point numbers are reals: no rounding of `SUM`, `AVG` or the rolling mean is modelled.
- Sensor values (`kwh`, `temperature`, `humidity`, `co2`) are modelled as numbers or NULL. A string value is not modelled: the column's REAL affinity converts numeric text and stores other text as TEXT, which `SUM` and `AVG` then read as 0. Nor is an object or list value: binding it to the INSERT raises an error that the loop at `etl/silver/transform.py:74` does not catch, so such a file behaves as one that `Load`s as another error and ends the apartment's run.
- SQLite errors are not modelled. The gold queries assume the silver database holds `sensor_readings`; run against a database without it, `build_energy_hourly` raises `OperationalError` and the gold run stops. Locking and disk errors are left out likewise.
- IngestIdempotent: requires every loaded capture to carry a timestamp. A capture without one is stamped with the current time and so is inserted again on every run.
- Lower: only ASCII letters are lower-cased; Python's full Unicode `str.lower` is not modelled.
- The Notion schema is restricted to the properties the sync helpers read, and their type names to an enumeration. A property dictionary is a map, so its key order is not modelled.
- The network and API functions of `sync.py` (`get_db_schema`, `get_github_issues`, `get_github_milestones`, `query_notion_db`, `create_page`, `update_page`, `sync_milestones`, `sync_issues`) and `write_summary` are not modelled: they are HTTP calls and file output.
- `ingestion/recup.py` is not part of this model.
- Forecast: `_load_energy_series`, `_load_presence_series` and `save_model` are not modelled (a SQLite read and a pickle write). `main` is modelled only by `Saved` (a model is saved exactly when it is non-empty). The `apt_id` argument of the training functions is dropped, since it only feeds log messages.
- TrainRollingMean: requires a horizon of at least 1, the only horizons the source uses being 24 and 7.
