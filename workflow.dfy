/**
 * The local logic of `startWorkflow` and `getResults` in
 * functions/workflow.py: the extraction zones are split into subsets with
 * `np.array_split`, one export task is started per subset with 1-based
 * names, and a downloaded asset has its `system:index` and `.geo` columns
 * dropped. The Earth Engine computation each task runs is not modelled.
 */
module Workflow {
  import opened Wrappers
  import opened Text
  import opened Tables
  import Tasks
  import Results
  import opened Remote

  /** The pixel scale of a satellite type; other types fail the assertion of line 55. */
  function Scale(satellite: string): (r: Option<nat>)
    ensures r.Some? <==> satellite == "Landsat" || satellite == "Sentinel-2"
    ensures satellite == "Landsat" ==> r == Some(30)
    ensures satellite == "Sentinel-2" ==> r == Some(10)
  {
    if satellite == "Landsat" then Some(30)
    else if satellite == "Sentinel-2" then Some(10)
    else None
  }

  /** `m` copies of `v`. */
  function Fill(v: nat, m: nat): (r: seq<nat>)
    ensures |r| == m && forall i :: 0 <= i < m ==> r[i] == v
  {
    if m == 0 then [] else [v] + Fill(v, m - 1)
  }

  function Sum(s: seq<nat>): nat {
    if s == [] then 0 else s[0] + Sum(s[1..])
  }

  /** numpy's section sizes for `n` items in `k` sections: `n % k` of size `n / k + 1`, then the rest of size `n / k`. */
  function SectionSizes(n: nat, k: nat): (sizes: seq<nat>)
    requires k >= 1
    ensures |sizes| == k
    ensures forall i :: 0 <= i < k ==> sizes[i] == n / k + (if i < n % k then 1 else 0)
  {
    Fill(n / k + 1, n % k) + Fill(n / k, k - n % k)
  }

  /** Cuts `xs` into consecutive pieces of the given sizes. */
  function Cut<T>(xs: seq<T>, sizes: seq<nat>): (pieces: seq<seq<T>>)
    requires Sum(sizes) == |xs|
    ensures |pieces| == |sizes|
    ensures forall i :: 0 <= i < |sizes| ==> |pieces[i]| == sizes[i]
  {
    if sizes == [] then []
    else
      assert sizes[0] <= |xs|;
      [xs[..sizes[0]]] + Cut(xs[sizes[0]..], sizes[1..])
  }

  function Flatten<T>(pieces: seq<seq<T>>): seq<T> {
    if pieces == [] then [] else pieces[0] + Flatten(pieces[1..])
  }

  lemma {:induction false} SumAppend(a: seq<nat>, b: seq<nat>)
    ensures Sum(a + b) == Sum(a) + Sum(b)
  {
    if a == [] {
      assert a + b == b;
    } else {
      assert (a + b)[1..] == a[1..] + b;
      SumAppend(a[1..], b);
    }
  }

  lemma {:induction false} SumFill(v: nat, m: nat)
    ensures Sum(Fill(v, m)) == v * m
  {
    if m > 0 {
      SumFill(v, m - 1);
      assert Fill(v, m)[1..] == Fill(v, m - 1);
    }
  }

  lemma SumSectionSizes(n: nat, k: nat)
    requires k >= 1
    ensures Sum(SectionSizes(n, k)) == n
  {
    var e, x := n / k, n % k;
    assert n == e * k + x;
    assert SectionSizes(n, k) == Fill(e + 1, x) + Fill(e, k - x);
    SumSizes(e, x, k);
  }

  lemma SumSizes(e: nat, x: nat, k: nat)
    requires x <= k
    ensures Sum(Fill(e + 1, x) + Fill(e, k - x)) == e * k + x
  {
    SumAppend(Fill(e + 1, x), Fill(e, k - x));
    SumFill(e + 1, x);
    SumFill(e, k - x);
    SizesTotal(e, x, k);
  }

  lemma SizesTotal(e: nat, x: nat, k: nat)
    requires x <= k
    ensures (e + 1) * x + e * (k - x) == e * k + x
  {
    assert (e + 1) * x == e * x + x;
    assert e * (k - x) == e * k - e * x;
  }

  /** Cutting loses and reorders nothing. */
  lemma {:induction false} CutFlatten<T>(xs: seq<T>, sizes: seq<nat>)
    requires Sum(sizes) == |xs|
    ensures Flatten(Cut(xs, sizes)) == xs
  {
    if sizes != [] {
      CutFlatten(xs[sizes[0]..], sizes[1..]);
      assert xs == xs[..sizes[0]] + xs[sizes[0]..];
    }
  }

  /** `np.array_split(xs, k)` for a whole number `k >= 1` of sections. */
  function ArraySplit<T>(xs: seq<T>, k: nat): seq<seq<T>>
    requires k >= 1
  {
    SumSectionSizes(|xs|, k);
    Cut(xs, SectionSizes(|xs|, k))
  }

  /**
   * `np.array_split(xs, k)` gives `k` subsets that concatenate back to `xs`;
   * the first `|xs| % k` hold `|xs| / k + 1` items and the rest `|xs| / k`.
   */
  lemma ArraySplitFacts<T>(xs: seq<T>, k: nat)
    requires k >= 1
    ensures |ArraySplit(xs, k)| == k
    ensures Flatten(ArraySplit(xs, k)) == xs
    ensures forall i :: 0 <= i < k ==> |ArraySplit(xs, k)[i]| == |xs| / k + (if i < |xs| % k then 1 else 0)
  {
    SumSectionSizes(|xs|, k);
    CutFlatten(xs, SectionSizes(|xs|, k));
  }

  /** The two errors the split can raise. */
  datatype StartError = UnknownSatellite(name: string) | ZeroDivision | NoSections

  /**
   * `int(n / s)` for `n >= 0`: Python's true division truncated toward
   * zero, so a negative `s` gives zero or less.
   */
  function SectionCount(n: nat, s: int): (k: int)
    requires s != 0
    ensures s > 0 ==> k == n / s && k >= 0
    ensures s < 0 ==> k <= 0
  {
    if s > 0 then n / s else -(n / -s)
  }

  /**
   * The split of line 62: the zone ids `fids` (from `aggregate_array`) cut
   * into `int(nDgos / splitSize)` sections, `nDgos` being the collection's
   * size.
   */
  function Partition<T>(fids: seq<T>, nDgos: nat, splitSize: int): (r: Result<seq<seq<T>>, StartError>)
    ensures r.Err? <==> splitSize <= 0 || nDgos < splitSize
    ensures r.Err? ==> r.error == if splitSize == 0 then ZeroDivision else NoSections
    ensures r.Ok? ==> |r.value| == nDgos / splitSize && Flatten(r.value) == fids
  {
    if splitSize == 0 then Err(ZeroDivision)
    else
      var k := SectionCount(nDgos, splitSize);
      if k <= 0 then Err(NoSections)
      else
        ArraySplitFacts(fids, k);
        Ok(ArraySplit(fids, k))
  }

  /**
   * When the collection's size is the number of ids, every subset holds at
   * least `splitSize` ids, and sizes differ by at most one, larger first.
   */
  lemma PartitionSizes<T>(fids: seq<T>, splitSize: int)
    requires Partition(fids, |fids|, splitSize).Ok?
    ensures var subsets := Partition(fids, |fids|, splitSize).value;
      && (forall i :: 0 <= i < |subsets| ==> splitSize <= |subsets[i]|)
      && (forall i, j :: 0 <= i < j < |subsets| ==> |subsets[j]| <= |subsets[i]| <= |subsets[j]| + 1)
  {
    var n, k := |fids|, |fids| / splitSize;
    ArraySplitFacts(fids, k);
    assert splitSize * k <= n;
    DivLowerBound(n, k, splitSize);
  }

  lemma DivLowerBound(n: nat, k: nat, s: nat)
    requires k >= 1 && s * k <= n
    ensures s <= n / k
  {
    var q := n / k;
    assert n < (q + 1) * k;
    assert s * k < (q + 1) * k;
    MulCancel(s, q + 1, k);
  }

  lemma MulCancel(a: nat, b: nat, k: nat)
    requires a * k < b * k
    ensures a < b
  {
    if b <= a {
      MulMono(b, a, k);
    }
  }

  lemma MulMono(a: nat, b: nat, k: nat)
    requires a <= b
    ensures a * k <= b * k
  {
  }

  /** The description of sub-task `i` of `total`: `Computation task {i}-{total} for run {runId}`. */
  function Description(i: nat, total: nat, runId: string): string {
    "Computation task " + NatToString(i) + "-" + NatToString(total) + " for " + Tasks.RunTag(runId)
  }

  /** The asset sub-task `i` exports to: `projects/{project}/assets/metrics/tmp/{runId}_{i}`. */
  function AssetId(project: string, runId: string, i: nat): string {
    "projects/" + project + "/assets/metrics/tmp/" + runId + "_" + NatToString(i)
  }

  /** One export task `startWorkflow` starts: its description, target asset, zone ids and scale. */
  datatype ExportTask<T> = ExportTask(description: string, assetId: string, fids: seq<T>, scale: nat)

  /** The tasks for the subsets, numbered from 1. */
  function Exports<T>(subsets: seq<seq<T>>, project: string, runId: string, scale: nat): (r: seq<ExportTask<T>>)
    ensures |r| == |subsets|
    ensures forall i :: 0 <= i < |subsets| ==>
      r[i] == ExportTask(Description(i + 1, |subsets|, runId), AssetId(project, runId, i + 1), subsets[i], scale)
  {
    seq(|subsets|, i requires 0 <= i < |subsets| =>
      ExportTask(Description(i + 1, |subsets|, runId), AssetId(project, runId, i + 1), subsets[i], scale))
  }

  /** What `startWorkflow` starts, or the error it raises first. */
  function StartSpec<T>(fids: seq<T>, nDgos: nat, project: string, satellite: string, splitSize: int,
                        runId: string): Result<seq<ExportTask<T>>, StartError>
  {
    match Scale(satellite)
    case None => Err(UnknownSatellite(satellite))
    case Some(scale) =>
      match Partition(fids, nDgos, splitSize)
      case Err(e) => Err(e)
      case Ok(subsets) => Ok(Exports(subsets, project, runId, scale))
  }

  /**
   * `startWorkflow(...)` with the zone ids, the collection size and the run
   * id (`uuid4().hex`) given: it fails before starting anything on an
   * unknown satellite or a bad split size; otherwise it creates the task of
   * each subset in order and starts it, until a `start()` raises (`starts`
   * says which calls go through).
   */
  method StartWorkflow<T>(fids: seq<T>, nDgos: nat, project: string, satellite: string, splitSize: int,
                          runId: string, starts: ExportTask<T> -> bool)
    returns (r: Result<Calls<ExportTask<T>>, StartError>)
    ensures r.Err? <==> StartSpec(fids, nDgos, project, satellite, splitSize, runId).Err?
    ensures r.Err? ==> r.error == StartSpec(fids, nDgos, project, satellite, splitSize, runId).error
    ensures r.Ok? ==> r.value == UntilRaise(StartSpec(fids, nDgos, project, satellite, splitSize, runId).value, starts)
  {
    if satellite != "Landsat" && satellite != "Sentinel-2" {
      return Err(UnknownSatellite(satellite));
    }
    var split := Partition(fids, nDgos, splitSize);
    if split.Err? {
      return Err(split.error);
    }
    var scale := if satellite == "Landsat" then 30 else 10;
    assert Scale(satellite) == Some(scale);
    var started := StartSubsets(split.value, project, runId, scale, starts);
    return Ok(started);
  }

  /**
   * The loop of `startWorkflow`: it creates the task of each subset, numbered
   * from 1, and starts it, until a `start()` raises.
   */
  method StartSubsets<T>(subsets: seq<seq<T>>, project: string, runId: string, scale: nat,
                         starts: ExportTask<T> -> bool) returns (r: Calls<ExportTask<T>>)
    ensures r == UntilRaise(Exports(subsets, project, runId, scale), starts)
  {
    ghost var planned := Exports(subsets, project, runId, scale);
    var started: seq<ExportTask<T>> := [];
    for k := 0 to |subsets|
      invariant started == planned[..k]
      invariant forall j :: 0 <= j < k ==> starts(planned[j])
    {
      var i := k + 1;
      var task := ExportTask(Description(i, |subsets|, runId), AssetId(project, runId, i), subsets[k], scale);
      assert task == planned[k];
      if !starts(task) {
        UntilRaiseAt(planned, starts, k);
        return Calls(started, Some(task));
      }
      started := started + [task];
    }
    assert planned[..|subsets|] == planned;
    UntilRaiseAt(planned, starts, |subsets|);
    return Calls(started, None);
  }

  /**
   * The started tasks: one per subset, their ids together the zone ids in
   * order, each described as part of the run.
   */
  lemma StartedTasks<T>(fids: seq<T>, nDgos: nat, project: string, satellite: string, splitSize: int, runId: string)
    requires StartSpec(fids, nDgos, project, satellite, splitSize, runId).Ok?
    ensures var tasks := StartSpec(fids, nDgos, project, satellite, splitSize, runId).value;
      && |tasks| == nDgos / splitSize
      && (forall i :: 0 <= i < |tasks| ==> tasks[i].scale == Scale(satellite).value)
      && Flatten(seq(|tasks|, i requires 0 <= i < |tasks| => tasks[i].fids)) == fids
      && (forall i :: 0 <= i < |tasks| ==> Contains(tasks[i].description, Tasks.RunTag(runId)))
  {
    var subsets := Partition(fids, nDgos, splitSize).value;
    var tasks := StartSpec(fids, nDgos, project, satellite, splitSize, runId).value;
    assert seq(|tasks|, i requires 0 <= i < |tasks| => tasks[i].fids) == subsets;
    forall i | 0 <= i < |tasks| ensures Contains(tasks[i].description, Tasks.RunTag(runId)) {
      DescriptionInRun(i + 1, |tasks|, runId);
    }
  }

  /** A sub-task's description names its run. */
  lemma DescriptionInRun(i: nat, total: nat, runId: string)
    ensures Contains(Description(i, total, runId), Tasks.RunTag(runId))
  {
    var head := "Computation task " + NatToString(i) + "-" + NatToString(total) + " for ";
    assert Description(i, total, runId) == head + Tasks.RunTag(runId) + "";
    ContainsInfix(head, Tasks.RunTag(runId), "");
  }

  /**
   * Membership is a substring test, so the tasks of a run whose id extends
   * `runId` also count as tasks of `runId`.
   */
  lemma LongerRunIdMatches(i: nat, total: nat, runId: string, more: string)
    ensures Contains(Description(i, total, runId + more), Tasks.RunTag(runId))
  {
    var head := "Computation task " + NatToString(i) + "-" + NatToString(total) + " for ";
    assert Description(i, total, runId + more) == head + Tasks.RunTag(runId) + more;
    ContainsInfix(head, Tasks.RunTag(runId), more);
  }

  /** Sub-tasks with different numbers export to different assets. */
  lemma AssetIdsDistinct(project: string, runId: string, i: nat, j: nat)
    requires i != j
    ensures AssetId(project, runId, i) != AssetId(project, runId, j)
  {
    var head := "projects/" + project + "/assets/metrics/tmp/" + runId + "_";
    assert AssetId(project, runId, i) == head + NatToString(i);
    assert AssetId(project, runId, j) == head + NatToString(j);
    if AssetId(project, runId, i) == AssetId(project, runId, j) {
      assert NatToString(i) == AssetId(project, runId, i)[|head|..] == NatToString(j);
      NatToStringInjective(i, j);
    }
  }

  /** Five ids split in sections of two make two subsets of three and two. */
  lemma SplitFiveByTwo()
    ensures Partition([1, 2, 3, 4, 5], 5, 2) == Ok([[1, 2, 3], [4, 5]])
  {
    var xs := [1, 2, 3, 4, 5];
    assert SectionCount(5, 2) == 2;
    assert Fill(3, 1) == [3] && Fill(2, 1) == [2];
    assert SectionSizes(5, 2) == [3, 2];
    assert ArraySplit(xs, 2) == Cut(xs, [3, 2]);
    assert Cut(xs[3..][2..], []) == [];
    assert Cut(xs[3..], [2]) == [xs[3..][..2]] + Cut(xs[3..][2..], []);
    assert Cut(xs, [3, 2]) == [xs[..3]] + Cut(xs[3..], [2]);
    assert xs[..3] == [1, 2, 3] && xs[3..][..2] == [4, 5];
    assert ArraySplit(xs, 2) == [[1, 2, 3], [4, 5]];
    assert Partition(xs, 5, 2) == Ok(ArraySplit(xs, 2));
  }

  /**
   * With a project name and a run id free of `/`, each sub-task's asset id
   * resolves to itself, as `getResults` and `cleanAssets` rewrite it.
   */
  lemma ExportedAssetResolves(project: string, runId: string, i: nat)
    requires '/' !in project && '/' !in runId
    ensures Tasks.ResolveUri(AssetId(project, runId, i), project) == Some(AssetId(project, runId, i))
  {
    var name := runId + "_" + NatToString(i);
    assert '/' !in name by {
      forall k | 0 <= k < |name| ensures name[k] != '/' {
        if k >= |runId| + 1 {
          assert name[k] == NatToString(i)[k - |runId| - 1];
        }
      }
    }
    assert AssetId(project, runId, i) == Tasks.AssetPrefix(project) + ("metrics/tmp/" + name);
    Tasks.MetricsTailHasNoSeparator(project, name);
    Tasks.ResolveAssetPath(project, "metrics/tmp/" + name);
  }

  /** The task list once every started task has completed, each reporting its asset id as destination. */
  function Reported<T>(started: seq<ExportTask<T>>, ids: seq<string>): (ts: seq<Tasks.Task>)
    requires |ids| == |started|
    ensures |ts| == |started| && forall k :: 0 <= k < |started| ==>
      ts[k] == Tasks.Task(ids[k], started[k].description, "COMPLETED", [started[k].assetId])
  {
    seq(|started|, k requires 0 <= k < |started| =>
      Tasks.Task(ids[k], started[k].description, "COMPLETED", [started[k].assetId]))
  }

  /**
   * Start and collection fit together: once the started tasks have
   * completed, the assets `getResults` downloads and `cleanAssets` deletes
   * are exactly the started tasks' asset ids, in order.
   */
  lemma StartedRunResolves<T>(fids: seq<T>, nDgos: nat, project: string, satellite: string, splitSize: int,
                              runId: string, ids: seq<string>)
    requires StartSpec(fids, nDgos, project, satellite, splitSize, runId).Ok?
    requires '/' !in project && '/' !in runId
    requires |ids| == |StartSpec(fids, nDgos, project, satellite, splitSize, runId).value|
    ensures var started := StartSpec(fids, nDgos, project, satellite, splitSize, runId).value;
      Tasks.ResolveAssets(Reported(started, ids), runId, project)
        == Ok(seq(|started|, k requires 0 <= k < |started| => started[k].assetId))
  {
    var started := StartSpec(fids, nDgos, project, satellite, splitSize, runId).value;
    var uris := seq(|started|, k requires 0 <= k < |started| => started[k].assetId);
    StartedTasks(fids, nDgos, project, satellite, splitSize, runId);
    forall k | 0 <= k < |uris| ensures Tasks.ResolveUri(uris[k], project) == Some(uris[k]) {
      ExportedAssetResolves(project, runId, k + 1);
    }
    Tasks.CompletedTasksResolve(Reported(started, ids), runId, project, uris);
  }

  /** The columns dropped after a full download. */
  const DroppedColumns: seq<string> := ["system:index", ".geo"]

  /**
   * The download of lines 155-161: the whole asset is saved, read back, and
   * saved again without `system:index` and `.geo`; if one of them is absent
   * the raw download stays in place and the drop raises.
   */
  function GeeFetch(remote: map<string, Table>, asset: string): (r: Results.FetchOutcome)
    ensures asset !in remote ==> r == Results.FailedBeforeWrite(Results.AssetUnavailable(asset))
    ensures asset in remote ==> (r.FailedAfterWrite? <==> exists c :: c in DroppedColumns && c !in remote[asset].columns)
    ensures r.FailedAfterWrite? ==>
      && asset in remote && r.written == remote[asset]
      && r.error.MissingColumn? && r.error.column in DroppedColumns && r.error.column !in remote[asset].columns
    ensures r.Fetched? ==>
      && asset in remote
      && (forall c :: c in r.table.columns <==> c in remote[asset].columns && c != "system:index" && c != ".geo")
      && |r.table.rows| == |remote[asset].rows|
      && forall i, c :: 0 <= i < |r.table.rows| && c in remote[asset].rows[i] && c !in DroppedColumns ==>
           c in r.table.rows[i] && r.table.rows[i][c] == remote[asset].rows[i][c]
  {
    if asset !in remote then Results.FailedBeforeWrite(Results.AssetUnavailable(asset))
    else match Drop(remote[asset], DroppedColumns)
      case Err(c) => Results.FailedAfterWrite(remote[asset], Results.MissingColumn(c))
      case Ok(t) => Results.Fetched(t)
  }

  /**
   * `getResults(...)` of functions/workflow.py, each asset downloaded whole
   * from `remote` and cleaned locally.
   */
  method GetResults(tasks: seq<Tasks.Task>, runId: string, project: string, tempDir: string,
                    outputCsv: string, overwrite: bool, removeTmp: bool, files: Results.Files,
                    remote: map<string, Table>) returns (r: Results.Run<Table>)
    ensures r == Results.GetResultsSpec(tasks, runId, project, tempDir, outputCsv, overwrite, removeTmp, files,
                                        a => GeeFetch(remote, a))
  {
    r := Results.GetResults(tasks, runId, project, tempDir, outputCsv, overwrite, removeTmp, files,
                            a => GeeFetch(remote, a));
  }
}
