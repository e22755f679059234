/**
 * The local logic of functions/workflow_planet.py, the PlanetScope variant
 * of the workflow: one computation task per run, exported to a single
 * asset, and a download that asks the server for the 17 metric columns
 * and, when that request fails with an HTTP error, downloads the whole
 * asset and keeps those columns locally. The task list bookkeeping
 * (`workflowState`, `cancelWorkflow`, `cleanAssets`) is the same code as in
 * functions/workflow.py and is modelled once, in module Tasks.
 */
module PlanetWorkflow {
  import opened Wrappers
  import opened Text
  import opened Tables
  import Tasks
  import Results

  /** The pixel scale the metrics are computed at. */
  const MetricsScale: nat := 3

  /** The one export task a Planet run starts: its description, target asset and scale. */
  datatype ComputationTask = ComputationTask(description: string, assetId: string, scale: nat)

  /** `Computation task for run {runId}`. */
  function Description(runId: string): string {
    "Computation task for " + Tasks.RunTag(runId)
  }

  /** `projects/{project}/assets/metrics/tmp/{runId}`. */
  function AssetId(project: string, runId: string): string {
    Tasks.AssetPrefix(project) + "metrics/tmp/" + runId
  }

  /**
   * `startWorkflow(...)` with the run id (`uuid4().hex`) given: the task it
   * starts belongs to the run, exports under the project's asset prefix
   * and computes at 3 m.
   */
  function StartWorkflow(project: string, runId: string): (t: ComputationTask)
    ensures Contains(t.description, Tasks.RunTag(runId))
    ensures |Tasks.AssetPrefix(project)| <= |t.assetId|
    ensures t.assetId[..|Tasks.AssetPrefix(project)|] == Tasks.AssetPrefix(project)
    ensures t.scale == MetricsScale
  {
    var head := "Computation task for ";
    assert Description(runId) == head + Tasks.RunTag(runId) + "";
    ContainsInfix(head, Tasks.RunTag(runId), "");
    assert AssetId(project, runId) == Tasks.AssetPrefix(project) + ("metrics/tmp/" + runId);
    ComputationTask(Description(runId), AssetId(project, runId), MetricsScale)
  }

  /**
   * Start and collection fit together: once the task has completed with
   * its asset id as destination, the run's assets are that one asset, and
   * the run counts one completed task.
   */
  lemma StartedRunResolves(project: string, runId: string, id: string)
    requires '/' !in project && '/' !in runId
    ensures var t := StartWorkflow(project, runId);
      var reported := [Tasks.Task(id, t.description, "COMPLETED", [t.assetId])];
      && Tasks.ResolveAssets(reported, runId, project) == Ok([t.assetId])
      && Tasks.WorkflowState(reported, runId).completed == 1
  {
    var t := StartWorkflow(project, runId);
    var reported := [Tasks.Task(id, t.description, "COMPLETED", [t.assetId])];
    assert t.assetId == Tasks.AssetPrefix(project) + ("metrics/tmp/" + runId);
    Tasks.MetricsTailHasNoSeparator(project, runId);
    Tasks.ResolveAssetPath(project, "metrics/tmp/" + runId);
    Tasks.CompletedTasksResolve(reported, runId, project, [t.assetId]);
    assert Tasks.RunTasks(reported, runId) == reported;
    assert Tasks.StateOf("COMPLETED") == Tasks.Completed;
    assert Tasks.CountState(reported, Tasks.Completed) == 1;
  }

  /** The metric columns kept from each asset, in this order. */
  const PropertiesList: seq<string> := [
    "DATE",
    "DGO_FID",
    "acquired",
    "AC_AREA",
    "CLEAR_SCORE",
    "COVERAGE_SCORE",
    "MEAN_AC_NDWI",
    "MEAN_AC_NDVI",
    "MEAN_NDWI",
    "MEAN_NDVI",
    "MEAN_VEGETATION_NDWI",
    "MEAN_VEGETATION_NDVI",
    "MEAN_WATER_NDWI",
    "VEGETATION_AREA",
    "VEGETATION_PERIMETER",
    "WATER_AREA",
    "WATER_PERIMETER"]

  /**
   * The download of one asset. `remote` holds the assets that exist;
   * `selected` the table the server returns for an asset whose selected
   * download succeeds. For any other existing asset the selected download
   * raises an HTTP error, the whole asset is saved and read back, and only
   * the listed columns are kept; a listed column the asset lacks raises
   * with the raw download left in place.
   */
  function PlanetFetch(remote: map<string, Table>, selected: map<string, Table>, asset: string): (r: Results.FetchOutcome)
    ensures asset !in remote ==> r == Results.FailedBeforeWrite(Results.AssetUnavailable(asset))
    ensures asset in remote && asset in selected ==> r == Results.Fetched(selected[asset])
    ensures asset in remote && asset !in selected ==>
      (r.FailedAfterWrite? <==> exists c :: c in PropertiesList && c !in remote[asset].columns)
    ensures r.FailedAfterWrite? ==>
      && asset in remote && r.written == remote[asset]
      && r.error.MissingColumn? && r.error.column in PropertiesList && r.error.column !in remote[asset].columns
    ensures r.Fetched? && asset !in selected ==>
      && asset in remote
      && r.table.columns == PropertiesList
      && |r.table.rows| == |remote[asset].rows|
      && forall i, c :: 0 <= i < |r.table.rows| && c in PropertiesList && c in remote[asset].rows[i] ==>
           c in r.table.rows[i] && r.table.rows[i][c] == remote[asset].rows[i][c]
  {
    if asset !in remote then Results.FailedBeforeWrite(Results.AssetUnavailable(asset))
    else if asset in selected then Results.Fetched(selected[asset])
    else match Project(remote[asset], PropertiesList)
      case Err(c) => Results.FailedAfterWrite(remote[asset], Results.MissingColumn(c))
      case Ok(t) => Results.Fetched(t)
  }

  /**
   * `getResults(...)` of functions/workflow_planet.py: the shared resolve,
   * download, read and concatenate steps with the Planet download.
   */
  method GetResults(tasks: seq<Tasks.Task>, runId: string, project: string, tempDir: string,
                    outputCsv: string, overwrite: bool, removeTmp: bool, files: Results.Files,
                    remote: map<string, Table>, selected: map<string, Table>) returns (r: Results.Run<Table>)
    ensures r == Results.GetResultsSpec(tasks, runId, project, tempDir, outputCsv, overwrite, removeTmp, files,
                                        a => PlanetFetch(remote, selected, a))
  {
    r := Results.GetResults(tasks, runId, project, tempDir, outputCsv, overwrite, removeTmp, files,
                            a => PlanetFetch(remote, selected, a));
  }

  /**
   * With `overwrite`, and a server that returns exactly the listed columns
   * when the selected download succeeds, a download loop that raises
   * nothing leaves every temporary file with exactly the listed columns.
   */
  lemma CacheHasListedColumns(files: Results.Files, assets: seq<string>, paths: seq<string>,
                              remote: map<string, Table>, selected: map<string, Table>)
    requires |assets| == |paths|
    requires forall a :: a in selected ==> selected[a].columns == PropertiesList
    ensures var r := Results.CacheSpec(files, assets, paths, true, a => PlanetFetch(remote, selected, a));
      r.Done? ==> forall k :: 0 <= k < |paths| ==> paths[k] in r.files && r.files[paths[k]].columns == PropertiesList
  {
    var fetch := a => PlanetFetch(remote, selected, a);
    var r := Results.CacheSpec(files, assets, paths, true, fetch);
    Results.CacheOverwriteWritesFetched(files, assets, paths, fetch);
    if r.Done? {
      forall k | 0 <= k < |paths| ensures paths[k] in r.files && r.files[paths[k]].columns == PropertiesList {
        assert Results.FetchedInto(r.files, assets, paths, fetch, paths[k]);
        var j :| 0 <= j < |assets| && paths[j] == paths[k] && fetch(assets[j]) == Results.Fetched(r.files[paths[k]]);
        assert PlanetFetch(remote, selected, assets[j]).Fetched?;
      }
    }
  }

  /**
   * With `overwrite`, and a server that returns exactly the listed columns
   * when the selected download succeeds, a run that raises nothing writes
   * an output whose columns are exactly the listed ones.
   */
  lemma OutputHasListedColumns(tasks: seq<Tasks.Task>, runId: string, project: string, tempDir: string,
                               outputCsv: string, removeTmp: bool, files: Results.Files,
                               remote: map<string, Table>, selected: map<string, Table>)
    requires forall a :: a in selected ==> selected[a].columns == PropertiesList
    ensures var r := Results.GetResultsSpec(tasks, runId, project, tempDir, outputCsv, true, removeTmp, files,
                                            a => PlanetFetch(remote, selected, a));
      r.Done? ==> forall c :: c in r.value.columns <==> c in PropertiesList
  {
    var fetch := a => PlanetFetch(remote, selected, a);
    var r := Results.GetResultsSpec(tasks, runId, project, tempDir, outputCsv, true, removeTmp, files, fetch);
    Results.GetResultsOutput(tasks, runId, project, tempDir, outputCsv, true, removeTmp, files, fetch);
    if r.Done? {
      var assets := Tasks.ResolveAssets(tasks, runId, project).value;
      var paths := Results.TempPaths(tempDir, assets);
      CacheHasListedColumns(files, assets, paths, remote, selected);
      assert 0 < |paths|;
    }
  }
}
