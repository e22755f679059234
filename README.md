# glourbee_planet workflow core in Dafny

This project models the local logic of the glourbee_planet workflow helpers.

- **Image selection** (`functions/gee_delivery.py`):
  - `request_itemids` pages through a Planet quick search.
  - `filter_images_by_interval` keeps the images of dates spaced at least `interval_days` apart.
- **Landsat/Sentinel-2 workflow** (`functions/workflow.py`):
  - It splits the extraction zones into subsets with `np.array_split` and starts one Earth Engine export task per subset.
  - It tracks a run's tasks by the `run {id}` tag in their descriptions.
  - It downloads and concatenates the exported assets, then deletes them.
- **PlanetScope workflow** (`functions/workflow_planet.py`):
  - It runs a single export task.
  - Its download asks the server for 17 metric columns. After an HTTP error it falls back to keeping those columns locally.

Modules, one per file:

- `Wrappers`: the Option and Result types.
- `Text`: Python's `in` on strings, `split(sep)[1]`, `str(n)` and `os.path.basename`/`join`.
- `CivilDate`: day numbers of dates, and `datetime.strptime(s, '%Y%m%d')` with the leniency of its regular expression.
- `ImageOrder`: `(date, id)` pairs, per-day groups, and the stable sort by date.
- `IntervalFilter`: `filter_images_by_interval`, as specification functions and as the loop itself.
- `IntervalProperties`: what the filter guarantees.
- `ItemSearch`: `request_itemids`.
- `Remote`: a loop of remote calls (`task.start()`, `cancelTask`, `deleteAsset`) that stops at the first call that raises.
- `Tables`: the pandas operations on CSV tables (`drop`, `df[cols]`, `concat`).
- `Tasks`: the task-list bookkeeping shared by both workflows (`workflowState`, `cancelWorkflow`, the URI rewrite, `cleanAssets`). The two files contain the same code for it.
- `Results`: the download, read and concatenate half of `getResults`, over a file system given as a map from paths to tables.
- `Workflow`: `functions/workflow.py`.
- `PlanetWorkflow`: `functions/workflow_planet.py`.

Everything remote is an input:

- the Earth Engine task list;
- the catalogue's result pages;
- the assets' tables;
- whether each `task.start()`, `cancelTask` and `deleteAsset` call goes through;
- the run id that `uuid4().hex` draws;
- the temporary directory.

A download is a function from an asset id to its outcome. The outcome is one of:

- a table written;
- a failure after the raw file was written;
- a failure before anything was written.

## Model

| member | source | states |
|---|---|---|
| ItemSearch.RequestItemIds | functions/gee_delivery.py:7-45 | posts to `{base}/quick-search` with the product and filter; gets each `_next` link of the pages before the first stopping page; returns the ids of all pages up to the first empty one, or the KeyError of a non-empty page without `_next` |
| ItemSearch.WalkClosedForm | functions/gee_delivery.py:23-43 | the page walk equals the concatenated ids of the pages before the first stopping page, or fails exactly at that page when it still lists ids |
| ItemSearch.PagesAfterEndUnread | functions/gee_delivery.py:31-43 | pages after the first empty page never influence the result |
| ItemSearch.EmptyFirstPage | functions/gee_delivery.py:26-31 | an empty first answer returns no id and follows no link |
| CivilDate.ParseYmd | functions/gee_delivery.py:52 | strptime's result, when it parses, is a day number within `datetime`'s range |
| CivilDate.DateOrdinal | functions/gee_delivery.py:52 | a parsed year, month and day give a date exactly when they form a valid calendar date, and then its ordinal |
| CivilDate.MatchMonthDay | functions/gee_delivery.py:52 | the first month and day alternatives a backtracking match finds are a month 1-12 and a day 1-31 within the text |
| CivilDate.ParseCanonical | functions/gee_delivery.py:52 | every valid date spelled `YYYYMMDD` parses back to that date |
| CivilDate.ParseShortForm | functions/gee_delivery.py:52 | the lenient pattern reads `2021111` as 1 November 2021 |
| CivilDate.OrdinalOrder | functions/gee_delivery.py:64-68 | comparing day numbers is comparing dates: `<` is calendar order and `==` is equality of year, month and day |
| CivilDate.OrdinalInRange | functions/gee_delivery.py:64 | every valid date has a day number from 1 to 3652059 |
| CivilDate.DaysBeforeYearStep | functions/gee_delivery.py:64 | consecutive years' day counts differ by the length of the year, with Gregorian leap rules |
| IntervalFilter.DatePrefix | functions/gee_delivery.py:52 | `split('_')[0]` is a prefix of the id without `_`, followed by `_` when shorter |
| IntervalFilter.DateOfIsParseOfPrefix | functions/gee_delivery.py:52 | the date of an id is strptime applied to the text before its first underscore |
| IntervalFilter.ParseImages | functions/gee_delivery.py:51-53 | succeeds exactly when every id parses, pairing each id with its own date in input order; otherwise it raises for the first id that does not parse |
| IntervalFilter.FilterImagesByInterval | functions/gee_delivery.py:49-71 | the loop returns the ids of the date groups selected by the walk, or the first parse or overflow error |
| ImageOrder.SortByDateFacts | functions/gee_delivery.py:51-54 | the sort is a permutation, sorted by date, and keeps every date's pairs in input order |
| ImageOrder.StableSortUnique | functions/gee_delivery.py:51-54 | any sequence that is sorted by date and has the same per-date groups is equal to it, so the result does not depend on the sort algorithm (Timsort included) |
| ImageOrder.SortSortedIdentity | functions/gee_delivery.py:51-54 | sorting an already sorted list changes nothing |
| ImageOrder.InsertSorted | functions/gee_delivery.py:51-54 | inserting into a sorted list keeps it sorted |
| ImageOrder.InsertPermutes | functions/gee_delivery.py:51-54 | insertion adds exactly the inserted pair |
| IntervalProperties.SelectionsShape | functions/gee_delivery.py:60-69 | the selected dates occur in the input, never decrease, and lie at least `interval_days` after every earlier selection |
| IntervalProperties.SelectionsFailOnlyByOverflow | functions/gee_delivery.py:64 | the walk can only fail with the date overflow |
| IntervalProperties.SelectionsDefined | functions/gee_delivery.py:64 | with a non-negative interval, the walk succeeds when every date plus the interval stays a date |
| IntervalProperties.SelectsAll | functions/gee_delivery.py:64 | with `interval_days <= 0` every sorted element selects its own date |
| IntervalProperties.SelectionsCover | functions/gee_delivery.py:60-69 | with `interval_days >= 1` every walked date is selected or lies less than the interval after a selected date |
| IntervalProperties.SelectionsOfGroups | functions/gee_delivery.py:60-69 | walking the selected groups again selects the same dates |
| IntervalProperties.GroupOfGroups | functions/gee_delivery.py:67-69 | the output holds a date's group once per time the date was selected |
| IntervalProperties.GroupsIdempotent | functions/gee_delivery.py:67-69 | taking the groups of strictly increasing dates twice equals taking them once |
| IntervalProperties.FilterOutputOrdered | functions/gee_delivery.py:49-71 | the output is input pairs with their own dates, sorted by date, and with `interval_days >= 1` different dates lie at least the interval apart |
| IntervalProperties.FirstSelected | functions/gee_delivery.py:58-65 | the walk's output starts with the first sorted pair |
| IntervalProperties.FilterEmptyExactly | functions/gee_delivery.py:49-71 | the filter returns no id exactly when it is given none |
| IntervalProperties.FilterKeepsEarliest | functions/gee_delivery.py:58-65 | a non-empty input gives a non-empty output whose first pair has the earliest date |
| IntervalProperties.GroupsCover | functions/gee_delivery.py:60-69 | with `interval_days >= 1` every sorted pair is output or lies less than the interval after an output date |
| IntervalProperties.FilterKeepsWholeDates | functions/gee_delivery.py:64-69 | with `interval_days >= 1` each date keeps all its images or none |
| IntervalProperties.FilterCoversDates | functions/gee_delivery.py:60-69 | with `interval_days >= 1` an image left out has a kept image less than the interval before it |
| IntervalProperties.FilterRepeatsGroups | functions/gee_delivery.py:64-69 | with `interval_days <= 0` a date with `n` images appears `n` times over in the output |
| IntervalProperties.FilterErrors | functions/gee_delivery.py:51-64 | a parse error happens exactly when some id does not parse, names the first such id, and an overflow only happens when all ids parse |
| IntervalProperties.FilterDefined | functions/gee_delivery.py:64 | with a non-negative interval the filter succeeds when every image date plus the interval is still a date |
| IntervalProperties.ParseIdsOfDated | functions/gee_delivery.py:51-53 | ids of correctly dated pairs parse back to the same pairs |
| IntervalProperties.FilterIdempotent | functions/gee_delivery.py:49-71 | with `interval_days >= 1` filtering the output again gives the same output |
| Workflow.Scale | functions/workflow.py:55-81 | only `Landsat` (scale 30) and `Sentinel-2` (scale 10) pass the assertion |
| Workflow.SectionCount | functions/workflow.py:62 | `int(n / split_size)` truncates toward zero: `n / s` for positive sizes, at most zero for negative ones |
| Workflow.ArraySplitFacts | functions/workflow.py:62 | `array_split` into `k` sections gives `k` subsets that concatenate back to the ids; the first `n % k` hold one more than the rest |
| Workflow.Partition | functions/workflow.py:59-62 | fails for a size of zero (ZeroDivisionError) or when fewer than one section results (ValueError); otherwise gives `n_dgos / split_size` subsets covering the ids in order |
| Workflow.PartitionSizes | functions/workflow.py:62 | every subset holds at least `split_size` ids, and sizes never grow and differ by at most one |
| Workflow.SplitFiveByTwo | functions/workflow.py:62 | five ids with a size of two split into `[1,2,3]` and `[4,5]` |
| Workflow.StartWorkflow | functions/workflow.py:55-112 | raises before starting anything exactly when the satellite or the split is rejected; otherwise it makes the `start()` calls of the planned export tasks in order until one raises, leaving exactly the earlier tasks started |
| Workflow.StartSubsets | functions/workflow.py:66-108 | the loop creates, in order, the export task numbered `i` for subset `i` (from 1), with its description, asset id and scale, and starts each one until a `start()` raises |
| Workflow.StartedTasks | functions/workflow.py:62-108 | one task per subset, their zone ids together the input ids in order, all at the satellite's scale, each described as part of the run |
| Workflow.DescriptionInRun | functions/workflow.py:105 | every sub-task description contains `run {workflow_id}` |
| Workflow.LongerRunIdMatches | functions/workflow.py:117 | a run whose id extends another's is counted as the shorter one's too, because membership is a substring test |
| Workflow.AssetIdsDistinct | functions/workflow.py:100-101 | different sub-task numbers give different asset ids |
| Workflow.ExportedAssetResolves | functions/workflow.py:148-150 | with `/`-free project and run id, the URI rewrite maps each exported asset id to itself |
| Workflow.StartedRunResolves | functions/workflow.py:147-150 | once the started tasks have completed, the assets downloaded and deleted are exactly their asset ids, in start order |
| Workflow.GeeFetch | functions/workflow.py:155-161 | a missing asset fails before writing; a missing `system:index` or `.geo` column fails after the raw file is written; otherwise the table keeps every other column and all rows and cells |
| Workflow.GetResults | functions/workflow.py:145-174 | `getResults` with the whole-asset download |
| Tasks.RunTasks | functions/workflow.py:117 | the run's tasks are exactly those whose description contains `run {run_id}`, in list order |
| Tasks.RunTasksAppend | functions/workflow.py:117 | the task filter preserves list order |
| Tasks.StateOf | functions/workflow.py:120-124 | each counted state is recognized by exactly its own name |
| Tasks.CountStateExtremes | functions/workflow.py:120-124 | a count is zero exactly when no task has that state, and full exactly when all have it |
| Tasks.CountsPartition | functions/workflow.py:120-124 | the five counts plus the uncounted tasks add up to the number of tasks |
| Tasks.WorkflowState | functions/workflow.py:115-132 | reports the run's tasks and the five counts (same code at functions/workflow_planet.py:59-76); the counts add up to the number of tasks exactly when no task is in another state |
| Tasks.CancelWorkflow | functions/workflow.py:135-142 | calls `cancelTask`, in order, on the id of every task of the run and no other, whatever its state, until a call raises; when none raises every task of the run is cancelled (same code at functions/workflow_planet.py:79-86) |
| Text.SecondField | functions/workflow.py:148 | `split(sep)[1]` raises exactly when `sep` is absent; otherwise it is the text after the first occurrence up to the next one, and does not contain `sep`; no occurrence of `sep` starts inside it, so even an overlapping separator leaves one possible value |
| Text.FieldAfterFirstUnique | functions/workflow.py:148 | any text that starts right after the first occurrence, holds no start of another one and ends at the end or at the next occurrence is `split(sep)[1]` |
| Tasks.ResolveUri | functions/workflow.py:148-150 | a URI fails exactly when it lacks `{project}/assets/`; otherwise its asset id starts with `projects/{project}/assets/` and its rest has no separator |
| Tasks.ResolveUris | functions/workflow.py:148-150 | all URIs are rewritten, in order, exactly when each has the separator; otherwise the first URI without it raises |
| Tasks.ResolveAssetPath | functions/workflow.py:148-150 | with a `/`-free project, an asset path whose tail has no separator is rewritten to itself |
| Tasks.IgnoredTask | functions/workflow.py:147 | a task of another run, or one not `COMPLETED`, contributes no asset wherever it is listed |
| Tasks.CompletedTasksResolve | functions/workflow.py:147-150 | completed run tasks whose single destination rewrites to itself yield exactly those destinations, in task order |
| Tasks.CleanAssets | functions/workflow.py:177-184 | raises before deleting anything exactly when a URI lacks the separator; otherwise calls `deleteAsset` on the resolved assets, in order, until a call raises (same code at functions/workflow_planet.py:144-151) |
| Remote.UntilRaise | functions/workflow.py:183-184 | calls made in a loop until one raises: exactly the calls before the first rejected one are made, all of them when none is rejected, and the rejected call is reported |
| Remote.CallEach | functions/workflow.py:141-142 | the loop makes the calls in order and stops at the first that raises (the `cancelTask`, `deleteAsset` and `start()` loops, functions/workflow.py:66-108 and functions/workflow_planet.py:85-86, 150-151) |
| Text.Basename | functions/workflow.py:151 | the base name is the suffix of the path after its last `/` and contains no `/` |
| Text.NatToStringInjective | functions/workflow.py:100 | different sub-task numbers are printed differently |
| Results.TempPathInjective | functions/workflow.py:151 | two assets share a temporary file only when their base names are equal |
| Results.TempPaths | functions/workflow.py:151 | one temporary path per asset, in order |
| Results.CacheAssets | functions/workflow.py:153-163 | the download loop fetches each asset whose file is absent, or all with `overwrite`, and stops at the first failure keeping what it wrote |
| Results.CacheKeepsOtherFiles | functions/workflow.py:153-163 | the download loop writes no path outside the temporary list |
| Results.CacheKeepsExistingFiles | functions/workflow.py:154 | without `overwrite` an existing temporary file is left as it is |
| Results.CacheFillsPaths | functions/workflow.py:153-163 | no file disappears, and after a loop that raised nothing every temporary file exists |
| Results.CacheOverwriteFetchesAll | functions/workflow.py:154 | with `overwrite` every asset is downloaded, in order |
| Results.CacheOverwriteWritesFetched | functions/workflow.py:153-161 | with `overwrite` every temporary file holds a table that a download of an asset with that path returned |
| Results.CacheFetchesMissing | functions/workflow.py:154 | without `overwrite`, with distinct paths, exactly the assets whose file was absent are downloaded |
| Results.CollectTables | functions/workflow.py:165-171 | the reading loop reads each temporary file in order, deletes it after reading with `remove_tmp`, and raises at an absent file |
| Results.CollectKeeping | functions/workflow.py:165-168 | reading without deletion changes no file and returns every table in order |
| Results.CollectRemoving | functions/workflow.py:165-171 | reading with deletion and distinct paths returns every table and removes exactly the temporary files |
| Results.SharedTempFileFails | functions/workflow.py:170-171 | with `remove_tmp`, two assets sharing a base name make the second reading raise |
| Results.AbsentFails | functions/workflow.py:167 | reading raises once it reaches a file that is absent |
| Results.CollectReadsOriginals | functions/workflow.py:165-168 | a successful read returns the tables as they stood before the loop |
| Results.CollectRemovesTemps | functions/workflow.py:170-171 | with `remove_tmp`, a successful read leaves no temporary file and touches no other file |
| Results.GetResults | functions/workflow.py:145-174 | resolve, download, read and concatenate in that order, stopping at the first error (shared by functions/workflow_planet.py:89-141) |
| Results.GetResultsWithoutCompletedTasks | functions/workflow.py:173 | a run with no completed task raises in `pd.concat` and changes no file |
| Results.GetResultsOutput | functions/workflow.py:173-174 | the output holds the rows of the temporary files, asset by asset, under the union of their columns, and is written to `output_csv` |
| Results.GetResultsRemovesTemps | functions/workflow.py:170-174 | with `remove_tmp` a successful run leaves none of its temporary files |
| Results.GetResultsKeepsFiles | functions/workflow.py:153-174 | without `overwrite` or `remove_tmp` every file that existed before is unchanged, apart from the output |
| Tables.Drop | functions/workflow.py:160 | `drop` raises exactly when a listed column is absent; otherwise it keeps every other column, every row and every other cell |
| Tables.Concat | functions/workflow.py:173 | `concat` of no table raises; otherwise it gives all rows in order under every column of any table |
| Tables.RowsInOrder | functions/workflow.py:173 | each row of table `k` sits after the rows of the tables before it |
| Tables.Project | functions/workflow_planet.py:127 | `df[cols]` raises exactly when a listed column is absent; otherwise it has exactly those columns in that order, with the rows' cells in them |
| PlanetWorkflow.StartWorkflow | functions/workflow_planet.py:21-57 | the one task's description contains `run {workflow_id}`, it exports under `projects/{project}/assets/`, and it computes at scale 3 |
| PlanetWorkflow.StartedRunResolves | functions/workflow_planet.py:45-53 | once the task has completed, the run's assets are exactly its asset id and `workflowState` counts one completed task |
| PlanetWorkflow.PlanetFetch | functions/workflow_planet.py:116-128 | a missing asset fails before writing; the selected download returns the server's table; after an HTTP error the whole asset is written and fails exactly when a listed column is missing, otherwise keeping exactly the 17 columns with all rows |
| PlanetWorkflow.GetResults | functions/workflow_planet.py:89-141 | `getResults` with the Planet download |
| PlanetWorkflow.CacheHasListedColumns | functions/workflow_planet.py:116-128 | with `overwrite` and a server returning the listed columns, every temporary file has exactly the listed columns |
| PlanetWorkflow.OutputHasListedColumns | functions/workflow_planet.py:97-141 | under the same conditions, the output's columns are exactly the 17 listed ones |

## Notable behaviour

- **Subset sizes.** The subsets come from `np.array_split(ids, int(n / split_size))`, so each holds at least `split_size` ids. Five ids with a size of two give `[a,b,c],[d,e]` (`Workflow.SplitFiveByTwo`, `Workflow.PartitionSizes`). Fewer ids than `split_size` raise a ValueError.
- **Repeated images at `interval_days <= 0`.** Every element selects again, and each selection appends its date's whole group. A date with `n` images therefore appears `n` times over (`IntervalProperties.FilterRepeatsGroups`), and idempotence holds for `interval_days >= 1` (`IntervalProperties.FilterIdempotent`).
- **Status counts.** `workflowState` counts the five named states only. The five counts add up to the number of run tasks exactly when no task is in another state, such as `CANCELLED` (`Tasks.WorkflowState`, `Tasks.CountsPartition`).
- **Cancellation.** `cancelWorkflow` calls `cancelTask` on every task of the run, in any state (`Tasks.CancelWorkflow`).
- **No completed task.** A run with no completed task raises in `pd.concat` and writes no output (`Results.GetResultsWithoutCompletedTasks`).
- **Run membership.** Membership is a substring test, so a run id that extends another id also matches it (`Workflow.LongerRunIdMatches`).

## Left out

- The Earth Engine computation each export runs (collections, classification, metrics) is not part of this model. Tasks carry only their description, target asset, zone ids and scale.
- Printed progress and status lines are left out.
- Remote answers become inputs: the task list (`getTaskList`), the downloads and the catalogue pages. For `task.start()`, `cancelTask` and `deleteAsset`, whether each call goes through is an input function; the model returns the calls made and the one that raised. Why a call raises is not modelled.
- PlanetWorkflow.StartWorkflow: returns the one task the run starts; a `start()` that raises (functions/workflow_planet.py:53), which leaves nothing started, is not modelled.
- The random run id (`uuid4().hex`) and the temporary directory (`tempfile.mkdtemp`) are parameters.
- Task list entries are assumed to have a `destination_uris` field. A missing key (KeyError) is not modelled.
- ItemSearch.RequestItemIds: requires that some page eventually ends the walk (an empty page or one without `_next`). Without one the source loops forever.
- Workflow.Partition: `n / split_size` is taken as exact rational division before truncation. Floating-point rounding for very large counts is not modelled.
- Workflow.GeeFetch: `to_csv` without `index=False` adds an unnamed index column to each temporary file when it is read back. The model's tables do not carry that column.
- PlanetWorkflow.PlanetFetch: which assets the server-side selected download serves, and what it returns, is an input (`selected`). The extra index column written by `to_csv` after the fallback is not modelled. Network failures other than the HTTP error that triggers the fallback are not modelled.
- CivilDate.ParseYmd: `\d` in strptime's pattern also matches non-ASCII decimal digits. The model accepts only `0`-`9`.
- Workflow.StartedRunResolves: assumes each completed task reports its own asset id as its single destination URI, with a project name and run id free of `/`. PlanetWorkflow.StartedRunResolves makes the same assumption.
- `indicatorsWorkflow` and the other functions of the two workflow files outside `startWorkflow`, `workflowState`, `cancelWorkflow`, `getResults` and `cleanAssets` are not part of this model.
