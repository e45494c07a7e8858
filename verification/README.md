# Incremental volume transfer by simulation month

A Dafny model of the decision logic in the Brickwell Health notebook that copies
partitioned extraction files from one Unity Catalog volume to another, one
"simulation month" at a time. It covers:

- table discovery under the source volume (`get_table_paths`);
- the partition scanner, which finds the `extraction_month=YYYY-MM` labels of a table (`extract_months_from_table`);
- the choice of the next month (`get_next_simulation_month`);
- the enumeration of a month's files (`get_files_for_month`);
- the per-file copy accounting (`transfer_files_for_table`);
- the per-table skip policy (`process_single_table_for_month`);
- the sequential aggregation and status classification of a run (`process_all_tables`).

The platform is passed in as data. The volume's state is a map from listable
path to its entries (`Listing.Volume`). A path that is missing from the map is
one whose `dbutils.fs.ls` raises. The copy operation is a function from
(source, destination) to `Copied` or `CopyFailed(message)` (`Transfer.Copier`).
The ledger's latest month is an `Option<string>` input, and the ledger row a run
appends is part of its output (`RunCoordinator.RunOutcome`).

Modules follow the notebook's components:

- `Strings`: Python `str` ordering, `startswith`, `rstrip`, `split("/")[-1]`.
- `Sorting`: `sorted(..., key=...)` as a stable insertion sort.
- `Sequences`: `[f(x) for x in s]` and permutation facts about it.
- `Listing`: directory entries.
- `Discovery`: table discovery.
- `Partitions`: the month pattern and the partition scanner.
- `MonthSelector`: choosing the next month.
- `FileEnumerator`: listing a month's files.
- `Transfer`: copying files.
- `TableOrchestrator`: processing one table.
- `RunCoordinator`: aggregation, status and the run.

Two details of the code that the model keeps:

- `extract_months_from_table` builds `months` as a list and returns `sorted(months)` (lines 221-230), so duplicate labels are kept (`Partitions.CapturesAppend`).
- `item.path.replace("dbfs:", "")` (line 249) removes every occurrence of `dbfs:`, not only the leading one (`FileEnumerator.RemoveSchemeAtFirst`).

## Model

| member | source | states |
|---|---|---|
| Strings.RStrip | env_steup_notebooks/transfer_files_to_volume.py:189 | `rstrip("/")` removes exactly the trailing slashes: the result is a prefix of the name, does not end in `/`, and only `/` characters were dropped |
| Strings.LastSegment | env_steup_notebooks/transfer_files_to_volume.py:330 | the file name of a path contains no `/`, ends the path, and is either the whole path or follows a `/` |
| Sorting.SortBy | env_steup_notebooks/transfer_files_to_volume.py:206 | `sorted` returns its input reordered: the output is ordered by key and is a permutation of the input |
| Sorting.SortByStable | env_steup_notebooks/transfer_files_to_volume.py:206 | the sort is stable: elements sharing a key keep their input order |
| Discovery.TablesOfSchema | env_steup_notebooks/transfer_files_to_volume.py:191-200 | a schema's tables are exactly its non-hidden directory entries, with trailing `/` stripped from the names |
| Discovery.TablesOfSchemaAppend | env_steup_notebooks/transfer_files_to_volume.py:192-200 | each visible table directory gives exactly one table, in listing order: the tables of a concatenated listing are the two parts' tables concatenated |
| Discovery.CollectTables | env_steup_notebooks/transfer_files_to_volume.py:184-202 | the tables found are exactly the visible table directories of visible schema directories whose listing succeeds; a schema that cannot be listed contributes nothing |
| Discovery.CollectTablesOfOne | env_steup_notebooks/transfer_files_to_volume.py:186-202 | one schema entry contributes its table directories once each when it is a visible directory whose listing succeeds, and nothing otherwise |
| Discovery.CollectTablesAppend | env_steup_notebooks/transfer_files_to_volume.py:183-202 | schemas are visited in listing order and each contributes its tables once: collecting a concatenated listing concatenates the results |
| Discovery.TablePaths | env_steup_notebooks/transfer_files_to_volume.py:176-206 | discovery returns the found tables and nothing else, ordered by `schema/table`, as a permutation of the listing-order tables; an unlistable root gives no tables |
| Discovery.TablePathsStable | env_steup_notebooks/transfer_files_to_volume.py:206 | tables with the same `schema/table` label stay in listing order |
| Partitions.SearchMonth | env_steup_notebooks/transfer_files_to_volume.py:211-227 | the pattern is searched, not anchored: a result exists iff some position matches `extraction_month=` plus `DDDD-DD`, and it is the group of the leftmost match |
| Partitions.Capture | env_steup_notebooks/transfer_files_to_volume.py:223-227 | an entry contributes at most one label, and contributes `m` iff its leftmost match captures `m` |
| Partitions.Captures | env_steup_notebooks/transfer_files_to_volume.py:223-227 | a label is collected iff some entry's name yields it as its match |
| Partitions.CapturesOfOne | env_steup_notebooks/transfer_files_to_volume.py:223-227 | a single entry contributes exactly its own capture |
| Partitions.CapturesAppend | env_steup_notebooks/transfer_files_to_volume.py:221-227 | every matching entry contributes its label in listing order, even when an earlier entry gave the same label: nothing is de-duplicated |
| Partitions.ExtractMonths | env_steup_notebooks/transfer_files_to_volume.py:214-230 | the months are sorted ascending and are a permutation of the entries' captures, duplicates kept; every one is a `DDDD-DD` label; an unlistable table has none |
| Partitions.MonthOrderIsChronological | env_steup_notebooks/transfer_files_to_volume.py:298-308 | comparing `YYYY-MM` labels as strings is comparing them by year, then month |
| MonthSelector.FirstAfter | env_steup_notebooks/transfer_files_to_volume.py:307-308 | the first element after the last month is an element greater than it; none exists iff no element is greater; over a sorted list it is the least such element |
| MonthSelector.SelectMonth | env_steup_notebooks/transfer_files_to_volume.py:298-308 | the result exists iff some pooled month is eligible (any month when nothing was processed, otherwise one strictly after the last). It is an eligible pooled month and no greater than any other eligible month |
| MonthSelector.SelectMonthDependsOnlyOnSet | env_steup_notebooks/transfer_files_to_volume.py:293-298 | the choice depends only on which months occur, so pooling into a set or a list gives the same month |
| MonthSelector.AllMonths | env_steup_notebooks/transfer_files_to_volume.py:293-296 | the pool holds a month iff some table has it |
| MonthSelector.NextSimulationMonth | env_steup_notebooks/transfer_files_to_volume.py:281-308 | a chosen month is a `YYYY-MM` partition month of some discovered table, is after the last processed month, and is no later than any other such month; with no tables or no partitions nothing is offered, so no month is chosen |
| MonthSelector.NextSimulationMonthExists | env_steup_notebooks/transfer_files_to_volume.py:293-308 | a month is chosen whenever some table has a partition month after the last processed one |
| FileEnumerator.RemoveScheme | env_steup_notebooks/transfer_files_to_volume.py:249 | removing `dbfs:` never lengthens a path; `RemoveSchemeUnchanged` and `RemoveSchemeAtFirst` pin down the result |
| FileEnumerator.RemoveSchemeUnchanged | env_steup_notebooks/transfer_files_to_volume.py:249 | a path in which `dbfs:` does not occur is kept unchanged |
| FileEnumerator.RemoveSchemeAtFirst | env_steup_notebooks/transfer_files_to_volume.py:249 | every occurrence is removed, not only a leading one: the path up to the first occurrence is kept, that occurrence is dropped, and removal continues in the rest |
| FileEnumerator.CleanPath | env_steup_notebooks/transfer_files_to_volume.py:249 | a path not starting with `dbfs:` is kept; a `dbfs:` path loses its prefix and every later occurrence of the scheme, as `RemoveScheme` does to the rest of the path (and exactly the prefix when there is no later occurrence) |
| FileEnumerator.EligibleFiles | env_steup_notebooks/transfer_files_to_volume.py:247-250 | the files are exactly the listed non-directory entries whose names do not start with `_`, each with its cleaned path and size |
| FileEnumerator.EligibleFilesAppend | env_steup_notebooks/transfer_files_to_volume.py:247-254 | listing order is kept: files from an earlier part of the listing come before those from a later part |
| FileEnumerator.PartitionPath | env_steup_notebooks/transfer_files_to_volume.py:243 | the partition folder path is the table path followed by exactly `extraction_month=<month>` and nothing more, so for a `YYYY-MM` month the pattern matches right after the table path and captures that month |
| FileEnumerator.FilesForMonth | env_steup_notebooks/transfer_files_to_volume.py:235-254 | a month's files are exactly the eligible entries of `<table path>extraction_month=<month>`, one per entry in listing order; an unlistable partition gives none |
| Transfer.Succeeded | env_steup_notebooks/transfer_files_to_volume.py:328-334 | a file is among the copied ones iff its own copy succeeded: one failure does not stop the others |
| Transfer.Failures | env_steup_notebooks/transfer_files_to_volume.py:328-337 | a file appears among the failures with message `m` iff its own copy failed with `m` |
| Transfer.CopyEach | env_steup_notebooks/transfer_files_to_volume.py:328-338 | every file is counted once: transferred + failed = number of files, one error per failure, transferred is the number of successful copies, and bytes = total size of the copied files |
| Transfer.CopyEachErrors | env_steup_notebooks/transfer_files_to_volume.py:333-337 | the errors are one `<path>: <message>` line per failed file, in file order, each with that file's own failure message |
| Transfer.TargetBase | env_steup_notebooks/transfer_files_to_volume.py:326 | the target folder lies under `<target>/` and is named `extraction_month=<month>`; `CopyDestination` and `TargetBaseDistinct` give its full layout |
| Transfer.TransferFilesForTable | env_steup_notebooks/transfer_files_to_volume.py:313-340 | an empty file list gives all-zero stats; otherwise every file is attempted once in the table's target folder: transferred and bytes come from the successful copies, the errors are the copy loop's error lines, and all sizes count when nothing failed |
| Transfer.DestinationKeepsFileName | env_steup_notebooks/transfer_files_to_volume.py:326-331 | a copy lands directly inside the target folder (one `/`, then the name, nothing more) under the source file's own name |
| Transfer.CopyDestination | env_steup_notebooks/transfer_files_to_volume.py:326-331 | a file of a table's month is copied to `<target>/<schema>/<table>/extraction_month=<month>/<file name>` |
| Transfer.TargetBaseDistinct | env_steup_notebooks/transfer_files_to_volume.py:326 | when schema and table names hold no `/`, two tables or months never share a target folder: the folder determines schema, table and month |
| TableOrchestrator.ProcessSingleTable | env_steup_notebooks/transfer_files_to_volume.py:378-430 | a table has files iff the month is among its partitions and its month folder has eligible files. Otherwise it is a skip with zero counts and no errors. With files, its counts, bytes and errors are those of copying the month's files into `<target>/<schema>/<table>/extraction_month=<month>` |
| TableOrchestrator.SparseTableIsSkipped | env_steup_notebooks/transfer_files_to_volume.py:400-404 | a table with no partition for the month is skipped, not an error |
| RunCoordinator.Classify | env_steup_notebooks/transfer_files_to_volume.py:525-531 | `success` iff no errors, `partial` iff errors and some files, `failed` iff errors and no files |
| RunCoordinator.Accumulate | env_steup_notebooks/transfer_files_to_volume.py:493-500 | one loop step adds exactly that table's contribution (files and bytes only for a table with files, one count of the right kind) and appends its errors after those collected so far |
| RunCoordinator.Summarize | env_steup_notebooks/transfer_files_to_volume.py:525-531 | the ledger row carries the month and the counters over, and its status is `success` iff there are no errors, `partial` iff errors and some files, `failed` iff errors and no files |
| RunCoordinator.Aggregate | env_steup_notebooks/transfer_files_to_volume.py:488-500 | every table is counted once, either with files or skipped |
| RunCoordinator.AggregateMatchesTally | env_steup_notebooks/transfer_files_to_volume.py:491-500 | the sequential loop sums files and bytes over the tables with files only, counts both kinds of table, and concatenates the errors in table order |
| RunCoordinator.TallyPermutation | env_steup_notebooks/transfer_files_to_volume.py:491-500 | the counters are a commutative reduction: reordering the results does not change them |
| RunCoordinator.TableResults | env_steup_notebooks/transfer_files_to_volume.py:491-492 | every table is processed once for the month, and the results are in table order |
| RunCoordinator.ResultsPermutation | env_steup_notebooks/transfer_files_to_volume.py:503-507 | processing the tables in another order gives the same results in another order |
| RunCoordinator.RunOrderIndependent | env_steup_notebooks/transfer_files_to_volume.py:508-519 | folding the tables in any order yields the same ledger row and the same errors up to order |
| RunCoordinator.ProcessAllTables | env_steup_notebooks/transfer_files_to_volume.py:435-534 | no tables or no month ends the run without a row; a non-empty override is used verbatim; otherwise the selected month is used. The row counts every table once and its status follows the three-way rule |
| RunCoordinator.ProcessAllTablesTotals | env_steup_notebooks/transfer_files_to_volume.py:488-500 | a processed run's totals and errors are the tables' totals and errors: files and bytes summed over tables with files, errors concatenated in table order |
| RunCoordinator.OverrideWithoutPartitions | env_steup_notebooks/transfer_files_to_volume.py:456-458 | an override month that no table has still yields a row for it: all tables skipped, nothing transferred, status `success` |
| RunCoordinator.NothingLeftToProcess | env_steup_notebooks/transfer_files_to_volume.py:467-472 | when no partition month is after the ledger's latest month, the run stops with nothing processed |

## Left out

- `dbutils.fs.ls`, `cp` and `rm` are not called. Listings are the `Volume` map and copy outcomes come from the `Copier` function, so a copy's outcome depends only on its source and destination paths.
- `cleanup_target_volume` and the `restart` path are not modelled. They are recursive deletion on the platform, with no decision logic beyond skipping hidden entries.
- `initialize_tracking_table`, `get_last_processed_month`, `update_tracking` and the `display` queries are not modelled. They run SQL on Spark/Delta. The ledger's latest month is an input, and the row a run writes is part of its output.
- The ledger row has no `last_updated`: it is a `datetime.now()` value.
- The ledger columns' widths are not modelled: 32-bit counts and a 64-bit byte total. Counts are unbounded naturals, as in Python before the row is written.
- The `ThreadPoolExecutor` branch (lines 502-523) is not modelled, and neither is its handler for a failed future. Its point is concurrency. `RunOrderIndependent` shows that folding in any order gives the row the sequential loop writes.
- TableOrchestrator.ProcessSingleTable: the catch-all `except` (lines 425-428) is not modelled, because no modelled step raises. The listing and copy failures are all caught inside the functions the table step calls.
- Partitions.SearchMonth: `\d` is modelled as ASCII `0`-`9`. Python's `re` on `str` also accepts other Unicode decimal digits.
- MonthSelector.SelectMonth: the pooled months are sorted as a list, not first turned into a set. `SelectMonthDependsOnlyOnSet` proves this cannot change the month chosen.
- Widgets and parameter parsing are not modelled. The source and target paths and the month override are direct inputs, and an override counts only when non-empty, as `if specific_month:` does.
- The dry-run report, all printing, and the recent-history and progress queries are not modelled.
- The source volume is one snapshot for the whole run. `get_next_simulation_month` lists it again (line 287) after `process_all_tables` has listed it (line 447); the model assumes the volume does not change in between.
- The target volume's state after copies is not modelled, so re-copying on a second run is not stated. The model has no de-duplication, and a second run makes the same copy attempts.
- `Unity_Catalog_Setup.py` is not part of this model. It is static SQL DDL.
