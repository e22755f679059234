/**
 * The local half of `getResults` shared by functions/workflow.py and
 * functions/workflow_planet.py: the assets of the run's completed tasks are
 * downloaded into temporary CSV files (skipping files already present unless
 * `overwrite`), read back in order (optionally deleting each one), and
 * concatenated into the output CSV.
 *
 * The file system is a map from paths to tables. How one asset is
 * downloaded is the one step the two workflows do differently; it is given
 * as a function from asset id to what the download did.
 */
module Results {
  import opened Wrappers
  import opened Text
  import opened Tables
  import Tasks

  type Files = map<string, Table>

  datatype ResultError =
    | SeparatorMissing(uri: string)
    | AssetUnavailable(asset: string)
    | MissingColumn(column: string)
    | FileNotFound(path: string)
    | NothingToConcat

  /** What downloading one asset into its temporary file did. */
  datatype FetchOutcome =
    | Fetched(table: Table)
    | FailedAfterWrite(written: Table, error: ResultError)
    | FailedBeforeWrite(error: ResultError)

  /** A step's file system afterwards, with its value or the error it raised. */
  datatype Run<T> = Done(files: Files, value: T) | Failed(files: Files, error: ResultError)

  /** The temporary CSV of an asset: `{basename}.tmp.csv` in the temporary directory. */
  function TempPath(tempDir: string, asset: string): string {
    JoinPath(tempDir, Basename(asset) + ".tmp.csv")
  }

  function TempPaths(tempDir: string, assets: seq<string>): (paths: seq<string>)
    ensures |paths| == |assets| && forall k :: 0 <= k < |assets| ==> paths[k] == TempPath(tempDir, assets[k])
  {
    if assets == [] then [] else [TempPath(tempDir, assets[0])] + TempPaths(tempDir, assets[1..])
  }

  /** Two assets share a temporary file only when their base names are equal. */
  lemma TempPathInjective(tempDir: string, a: string, b: string)
    requires TempPath(tempDir, a) == TempPath(tempDir, b)
    ensures Basename(a) == Basename(b)
  {
    var na, nb := Basename(a) + ".tmp.csv", Basename(b) + ".tmp.csv";
    assert na[0] != '/' by {
      if |Basename(a)| > 0 {
        assert na[0] == Basename(a)[0];
      }
    }
    assert nb[0] != '/' by {
      if |Basename(b)| > 0 {
        assert nb[0] == Basename(b)[0];
      }
    }
    JoinPathInjective(tempDir, na, nb);
    assert Basename(a) == na[..|na| - 8] == nb[..|nb| - 8] == Basename(b);
  }

  /**
   * The download loop: each asset is fetched into its path when the path is
   * absent or `overwrite` is set, and skipped otherwise. The value is the
   * list of assets fetched; the first failing fetch stops the loop, leaving
   * whatever it wrote.
   */
  function CacheSpec(files: Files, assets: seq<string>, paths: seq<string>, overwrite: bool,
                     fetch: string -> FetchOutcome): Run<seq<string>>
    requires |assets| == |paths|
    decreases |assets|
  {
    if assets == [] then Done(files, [])
    else if paths[0] in files && !overwrite then CacheSpec(files, assets[1..], paths[1..], overwrite, fetch)
    else match fetch(assets[0])
      case FailedBeforeWrite(e) => Failed(files, e)
      case FailedAfterWrite(raw, e) => Failed(files[paths[0] := raw], e)
      case Fetched(t) =>
        match CacheSpec(files[paths[0] := t], assets[1..], paths[1..], overwrite, fetch)
        case Failed(f, e) => Failed(f, e)
        case Done(f, d) => Done(f, [assets[0]] + d)
  }

  /** Puts the values found before a step in front of the step's own. */
  function Prepend<T>(pre: seq<T>, r: Run<seq<T>>): Run<seq<T>> {
    match r
    case Failed(f, e) => Failed(f, e)
    case Done(f, v) => Done(f, pre + v)
  }

  lemma PrependNothing<T>(r: Run<seq<T>>)
    ensures Prepend([], r) == r
  {
    match r
    case Failed(f, e) =>
    case Done(f, v) => assert [] + v == v;
  }

  /** The download loop of `getResults`, over the temporary paths of the assets. */
  method CacheAssets(files: Files, assets: seq<string>, paths: seq<string>, overwrite: bool,
                     fetch: string -> FetchOutcome) returns (r: Run<seq<string>>)
    requires |assets| == |paths|
    ensures r == CacheSpec(files, assets, paths, overwrite, fetch)
  {
    var current := files;
    var downloaded := [];
    PrependNothing(CacheSpec(files, assets, paths, overwrite, fetch));
    assert assets[0..] == assets && paths[0..] == paths;
    for k := 0 to |assets|
      invariant Prepend(downloaded, CacheSpec(current, assets[k..], paths[k..], overwrite, fetch))
        == CacheSpec(files, assets, paths, overwrite, fetch)
    {
      assert assets[k..][1..] == assets[k + 1..] && paths[k..][1..] == paths[k + 1..];
      if paths[k] !in current || overwrite {
        var outcome := fetch(assets[k]);
        match outcome {
          case FailedBeforeWrite(e) =>
            return Failed(current, e);
          case FailedAfterWrite(raw, e) =>
            return Failed(current[paths[k] := raw], e);
          case Fetched(t) =>
            PrependStep(downloaded, assets[k], CacheSpec(current[paths[k] := t], assets[k + 1..], paths[k + 1..], overwrite, fetch));
            current := current[paths[k] := t];
            downloaded := downloaded + [assets[k]];
        }
      }
    }
    assert assets[|assets|..] == [] && paths[|paths|..] == [];
    assert downloaded + [] == downloaded;
    r := Done(current, downloaded);
  }

  lemma PrependStep<T>(pre: seq<T>, x: T, r: Run<seq<T>>)
    ensures Prepend(pre, match r case Failed(f, e) => Failed(f, e) case Done(f, d) => Done(f, [x] + d))
      == Prepend(pre + [x], r)
  {
    match r
    case Failed(f, e) =>
    case Done(f, d) => assert pre + ([x] + d) == pre + [x] + d;
  }

  /** Paths outside the temporary list are never written. */
  lemma {:induction false} CacheKeepsOtherFiles(files: Files, assets: seq<string>, paths: seq<string>, overwrite: bool,
                                                fetch: string -> FetchOutcome)
    requires |assets| == |paths|
    ensures var r := CacheSpec(files, assets, paths, overwrite, fetch);
      forall p :: p !in paths ==> (p in r.files <==> p in files) && (p in files ==> r.files[p] == files[p])
    decreases |assets|
  {
    if assets != [] {
      var rest, restPaths := assets[1..], paths[1..];
      assert forall p :: p in restPaths ==> p in paths;
      if !(paths[0] in files && !overwrite) && fetch(assets[0]).Fetched? {
        CacheKeepsOtherFiles(files[paths[0] := fetch(assets[0]).table], rest, restPaths, overwrite, fetch);
      } else {
        CacheKeepsOtherFiles(files, rest, restPaths, overwrite, fetch);
      }
    }
  }

  /** Without `overwrite`, a temporary file that exists is left as it is. */
  lemma {:induction false} CacheKeepsExistingFiles(files: Files, assets: seq<string>, paths: seq<string>,
                                                   fetch: string -> FetchOutcome)
    requires |assets| == |paths|
    ensures var r := CacheSpec(files, assets, paths, false, fetch);
      forall p :: p in files ==> p in r.files && r.files[p] == files[p]
    decreases |assets|
  {
    if assets != [] {
      if paths[0] !in files && fetch(assets[0]).Fetched? {
        CacheKeepsExistingFiles(files[paths[0] := fetch(assets[0]).table], assets[1..], paths[1..], fetch);
      } else {
        CacheKeepsExistingFiles(files, assets[1..], paths[1..], fetch);
      }
    }
  }

  /** After a loop that raised nothing every temporary file exists. */
  lemma {:induction false} CacheFillsPaths(files: Files, assets: seq<string>, paths: seq<string>, overwrite: bool,
                                           fetch: string -> FetchOutcome)
    requires |assets| == |paths|
    ensures var r := CacheSpec(files, assets, paths, overwrite, fetch);
      forall p :: p in files ==> p in r.files
    ensures var r := CacheSpec(files, assets, paths, overwrite, fetch);
      r.Done? ==> forall p :: p in paths ==> p in r.files
    decreases |assets|
  {
    if assets != [] {
      assert forall p :: p in paths ==> p == paths[0] || p in paths[1..];
      if !(paths[0] in files && !overwrite) && fetch(assets[0]).Fetched? {
        CacheFillsPaths(files[paths[0] := fetch(assets[0]).table], assets[1..], paths[1..], overwrite, fetch);
      } else {
        CacheFillsPaths(files, assets[1..], paths[1..], overwrite, fetch);
      }
    }
  }

  /** With `overwrite` every asset is downloaded, in order. */
  lemma {:induction false} CacheOverwriteFetchesAll(files: Files, assets: seq<string>, paths: seq<string>,
                                                    fetch: string -> FetchOutcome)
    requires |assets| == |paths|
    ensures var r := CacheSpec(files, assets, paths, true, fetch);
      r.Done? ==> r.value == assets
    decreases |assets|
  {
    if assets != [] && fetch(assets[0]).Fetched? {
      CacheOverwriteFetchesAll(files[paths[0] := fetch(assets[0]).table], assets[1..], paths[1..], fetch);
      assert assets == [assets[0]] + assets[1..];
    }
  }

  /** The file at `p` holds the table a fetch of some asset whose path is `p` returned. */
  predicate FetchedInto(files: Files, assets: seq<string>, paths: seq<string>, fetch: string -> FetchOutcome, p: string)
    requires |assets| == |paths|
  {
    p in files && exists j :: 0 <= j < |assets| && paths[j] == p && fetch(assets[j]) == Fetched(files[p])
  }

  lemma FetchedIntoTail(files: Files, assets: seq<string>, paths: seq<string>, fetch: string -> FetchOutcome, p: string)
    requires |assets| == |paths| && assets != []
    requires FetchedInto(files, assets[1..], paths[1..], fetch, p)
    ensures FetchedInto(files, assets, paths, fetch, p)
  {
    var j :| 0 <= j < |assets[1..]| && paths[1..][j] == p && fetch(assets[1..][j]) == Fetched(files[p]);
    assert paths[j + 1] == p && assets[j + 1] == assets[1..][j];
  }

  /**
   * With `overwrite`, after a loop that raised nothing every temporary file
   * holds a table some fetch of an asset with that path returned.
   */
  lemma {:induction false} CacheOverwriteWritesFetched(files: Files, assets: seq<string>, paths: seq<string>,
                                                       fetch: string -> FetchOutcome)
    requires |assets| == |paths|
    ensures var r := CacheSpec(files, assets, paths, true, fetch);
      r.Done? ==> forall p :: p in paths ==> FetchedInto(r.files, assets, paths, fetch, p)
    decreases |assets|
  {
    if assets != [] && fetch(assets[0]).Fetched? {
      var t := fetch(assets[0]).table;
      var after := files[paths[0] := t];
      var rest, restPaths := assets[1..], paths[1..];
      var r := CacheSpec(after, rest, restPaths, true, fetch);
      assert r.Done? ==> CacheSpec(files, assets, paths, true, fetch).files == r.files;
      CacheOverwriteWritesFetched(after, rest, restPaths, fetch);
      CacheKeepsOtherFiles(after, rest, restPaths, true, fetch);
      if r.Done? {
        forall p | p in paths ensures FetchedInto(r.files, assets, paths, fetch, p) {
          if p in restPaths {
            FetchedIntoTail(r.files, assets, paths, fetch, p);
          } else {
            assert p == paths[0] && r.files[p] == t;
          }
        }
      }
    }
  }

  /** The assets, in order, whose temporary file is absent from `files`. */
  function MissingAssets(files: Files, assets: seq<string>, paths: seq<string>): seq<string>
    requires |assets| == |paths|
  {
    if assets == [] then []
    else (if paths[0] in files then [] else [assets[0]]) + MissingAssets(files, assets[1..], paths[1..])
  }

  lemma {:induction false} MissingAssetsFrame(files: Files, p: string, t: Table, assets: seq<string>, paths: seq<string>)
    requires |assets| == |paths| && p !in paths
    ensures MissingAssets(files[p := t], assets, paths) == MissingAssets(files, assets, paths)
  {
    if assets != [] {
      assert paths[0] != p;
      MissingAssetsFrame(files, p, t, assets[1..], paths[1..]);
    }
  }

  predicate Distinct(ps: seq<string>) {
    forall i, j :: 0 <= i < j < |ps| ==> ps[i] != ps[j]
  }

  /**
   * Without `overwrite`, and with one temporary file per asset, exactly the
   * assets whose file was absent at the start are downloaded.
   */
  lemma {:induction false} CacheFetchesMissing(files: Files, assets: seq<string>, paths: seq<string>,
                                               fetch: string -> FetchOutcome)
    requires |assets| == |paths| && Distinct(paths)
    ensures var r := CacheSpec(files, assets, paths, false, fetch);
      r.Done? ==> r.value == MissingAssets(files, assets, paths)
    decreases |assets|
  {
    if assets != [] {
      assert Distinct(paths[1..]) by {
        forall i, j | 0 <= i < j < |paths[1..]| ensures paths[1..][i] != paths[1..][j] {
          assert paths[1..][i] == paths[i + 1] && paths[1..][j] == paths[j + 1];
        }
      }
      if paths[0] in files {
        CacheFetchesMissing(files, assets[1..], paths[1..], fetch);
      } else if fetch(assets[0]).Fetched? {
        var t := fetch(assets[0]).table;
        CacheFetchesMissing(files[paths[0] := t], assets[1..], paths[1..], fetch);
        assert paths[0] !in paths[1..] by {
          forall j | 0 <= j < |paths[1..]| ensures paths[1..][j] != paths[0] {
            assert paths[1..][j] == paths[j + 1];
          }
        }
        MissingAssetsFrame(files, paths[0], t, assets[1..], paths[1..]);
      }
    }
  }

  /**
   * The reading loop: each temporary file is read in order, and deleted
   * after reading when `removeTmp` is set; a file that is absent raises.
   */
  function CollectSpec(files: Files, paths: seq<string>, removeTmp: bool): Run<seq<Table>>
    decreases |paths|
  {
    if paths == [] then Done(files, [])
    else if paths[0] !in files then Failed(files, FileNotFound(paths[0]))
    else
      var after := if removeTmp then files - {paths[0]} else files;
      match CollectSpec(after, paths[1..], removeTmp)
      case Failed(f, e) => Failed(f, e)
      case Done(f, ts) => Done(f, [files[paths[0]]] + ts)
  }

  /** The reading loop of `getResults`, filling `output_dfs`. */
  method CollectTables(files: Files, paths: seq<string>, removeTmp: bool) returns (r: Run<seq<Table>>)
    ensures r == CollectSpec(files, paths, removeTmp)
  {
    var current := files;
    var outputDfs := [];
    PrependNothing(CollectSpec(files, paths, removeTmp));
    assert paths[0..] == paths;
    for k := 0 to |paths|
      invariant Prepend(outputDfs, CollectSpec(current, paths[k..], removeTmp)) == CollectSpec(files, paths, removeTmp)
    {
      assert paths[k..][1..] == paths[k + 1..];
      if paths[k] !in current {
        return Failed(current, FileNotFound(paths[k]));
      }
      var df := current[paths[k]];
      var after := if removeTmp then current - {paths[k]} else current;
      PrependStep(outputDfs, df, CollectSpec(after, paths[k + 1..], removeTmp));
      outputDfs := outputDfs + [df];
      current := after;
    }
    assert paths[|paths|..] == [];
    assert outputDfs + [] == outputDfs;
    r := Done(current, outputDfs);
  }

  /** The tables stored at the paths, in order. */
  function TablesAt(files: Files, paths: seq<string>): (ts: seq<Table>)
    requires forall p :: p in paths ==> p in files
    ensures |ts| == |paths| && forall k :: 0 <= k < |paths| ==> ts[k] == files[paths[k]]
  {
    if paths == [] then [] else [files[paths[0]]] + TablesAt(files, paths[1..])
  }

  /** Reading without deleting changes no file and returns every table in order. */
  lemma {:induction false} CollectKeeping(files: Files, paths: seq<string>)
    requires forall p :: p in paths ==> p in files
    ensures CollectSpec(files, paths, false) == Done(files, TablesAt(files, paths))
  {
    if paths != [] {
      CollectKeeping(files, paths[1..]);
    }
  }

  /**
   * Reading with deletion, one path per asset, returns every table in order
   * and removes exactly the temporary files.
   */
  lemma {:induction false} CollectRemoving(files: Files, paths: seq<string>)
    requires forall p :: p in paths ==> p in files
    requires Distinct(paths)
    ensures CollectSpec(files, paths, true) == Done(files - (set p | p in paths), TablesAt(files, paths))
  {
    if paths != [] {
      var after := files - {paths[0]};
      assert forall p :: p in paths[1..] ==> p in after by {
        forall p | p in paths[1..] ensures p in after {
          var j :| 0 <= j < |paths[1..]| && paths[1..][j] == p;
          assert paths[j + 1] == p;
        }
      }
      assert Distinct(paths[1..]) by {
        forall i, j | 0 <= i < j < |paths[1..]| ensures paths[1..][i] != paths[1..][j] {
          assert paths[1..][i] == paths[i + 1] && paths[1..][j] == paths[j + 1];
        }
      }
      CollectRemoving(after, paths[1..]);
      assert after - (set p | p in paths[1..]) == files - (set p | p in paths);
      assert TablesAt(after, paths[1..]) == TablesAt(files, paths[1..]);
    }
  }

  /** With deletion, a temporary file listed twice is gone at its second reading, which raises. */
  lemma SharedTempFileFails(files: Files, paths: seq<string>, i: nat, j: nat)
    requires i < j < |paths| && paths[i] == paths[j]
    ensures CollectSpec(files, paths, true).Failed?
  {
    SharedTempFileFailsFrom(files, paths, i, j);
  }

  lemma {:induction false} SharedTempFileFailsFrom(files: Files, paths: seq<string>, i: nat, j: nat)
    requires i < j < |paths| && paths[i] == paths[j]
    ensures CollectSpec(files, paths, true).Failed?
    decreases i
  {
    if paths[0] in files {
      if i == 0 {
        AbsentFails(files - {paths[0]}, paths[1..], j - 1);
      } else {
        SharedTempFileFailsFrom(files - {paths[0]}, paths[1..], i - 1, j - 1);
      }
    }
  }

  /** Reading fails once it reaches a path that is absent and, with deletion, stays absent. */
  lemma {:induction false} AbsentFails(files: Files, paths: seq<string>, j: nat)
    requires j < |paths| && paths[j] !in files
    ensures CollectSpec(files, paths, true).Failed?
    decreases j
  {
    if j > 0 && paths[0] in files {
      AbsentFails(files - {paths[0]}, paths[1..], j - 1);
    }
  }

  /** A reading loop that raised nothing read every table as it stood before the loop. */
  lemma {:induction false} CollectReadsOriginals(files: Files, paths: seq<string>, removeTmp: bool)
    ensures var r := CollectSpec(files, paths, removeTmp);
      r.Done? ==> (forall p :: p in paths ==> p in files) && r.value == TablesAt(files, paths)
  {
    if paths != [] && paths[0] in files {
      var after := if removeTmp then files - {paths[0]} else files;
      CollectReadsOriginals(after, paths[1..], removeTmp);
      var r := CollectSpec(after, paths[1..], removeTmp);
      if r.Done? {
        assert forall p :: p in paths ==> p == paths[0] || p in paths[1..];
        assert TablesAt(after, paths[1..]) == TablesAt(files, paths[1..]);
      }
    }
  }

  /** With deletion, none of the temporary files remains; other files are untouched. */
  lemma {:induction false} CollectRemovesTemps(files: Files, paths: seq<string>)
    ensures var r := CollectSpec(files, paths, true);
      && (forall p :: p in paths ==> p !in r.files || r.Failed?)
      && (forall p :: p !in paths ==> (p in r.files <==> p in files) && (p in files ==> r.files[p] == files[p]))
  {
    if paths != [] && paths[0] in files {
      CollectRemovesTemps(files - {paths[0]}, paths[1..]);
      assert forall p :: p in paths ==> p == paths[0] || p in paths[1..];
      assert forall p :: p in paths[1..] ==> p in paths;
    }
  }

  /**
   * `getResults(run_id, ee_project_name, output_csv, overwrite, remove_tmp)`
   * on the task list and file system: resolve the run's assets, download the
   * missing ones, read the temporary files back and write their
   * concatenation to `outputCsv`.
   */
  function GetResultsSpec(tasks: seq<Tasks.Task>, runId: string, project: string, tempDir: string,
                          outputCsv: string, overwrite: bool, removeTmp: bool, files: Files,
                          fetch: string -> FetchOutcome): Run<Table>
  {
    match Tasks.ResolveAssets(tasks, runId, project)
    case Err(uri) => Failed(files, SeparatorMissing(uri))
    case Ok(assets) =>
      var paths := TempPaths(tempDir, assets);
      match CacheSpec(files, assets, paths, overwrite, fetch)
      case Failed(f, e) => Failed(f, e)
      case Done(cached, _) =>
        match CollectSpec(cached, paths, removeTmp)
        case Failed(f, e) => Failed(f, e)
        case Done(read, tables) =>
          match Concat(tables)
          case None => Failed(read, NothingToConcat)
          case Some(t) => Done(read[outputCsv := t], t)
  }

  method GetResults(tasks: seq<Tasks.Task>, runId: string, project: string, tempDir: string,
                    outputCsv: string, overwrite: bool, removeTmp: bool, files: Files,
                    fetch: string -> FetchOutcome) returns (r: Run<Table>)
    ensures r == GetResultsSpec(tasks, runId, project, tempDir, outputCsv, overwrite, removeTmp, files, fetch)
  {
    var resolved := Tasks.ResolveAssets(tasks, runId, project);
    if resolved.Err? {
      return Failed(files, SeparatorMissing(resolved.error));
    }
    var assets := resolved.value;
    var tempCsvList := TempPaths(tempDir, assets);
    var cached := CacheAssets(files, assets, tempCsvList, overwrite, fetch);
    if cached.Failed? {
      return Failed(cached.files, cached.error);
    }
    var read := CollectTables(cached.files, tempCsvList, removeTmp);
    if read.Failed? {
      return Failed(read.files, read.error);
    }
    var df := Concat(read.value);
    if df.None? {
      return Failed(read.files, NothingToConcat);
    }
    r := Done(read.files[outputCsv := df.value], df.value);
  }

  /** A run without a completed task has nothing to concatenate, which raises; no file changes. */
  lemma GetResultsWithoutCompletedTasks(tasks: seq<Tasks.Task>, runId: string, project: string, tempDir: string,
                                        outputCsv: string, overwrite: bool, removeTmp: bool, files: Files,
                                        fetch: string -> FetchOutcome)
    requires Tasks.CompletedUris(tasks, runId) == []
    ensures GetResultsSpec(tasks, runId, project, tempDir, outputCsv, overwrite, removeTmp, files, fetch)
      == Failed(files, NothingToConcat)
  {
    assert Tasks.ResolveAssets(tasks, runId, project) == Ok([]);
    assert TempPaths(tempDir, []) == [];
  }

  /**
   * The output written is the rows of the temporary files, asset by asset,
   * as they stood after the download loop.
   */
  lemma GetResultsOutput(tasks: seq<Tasks.Task>, runId: string, project: string, tempDir: string,
                         outputCsv: string, overwrite: bool, removeTmp: bool, files: Files,
                         fetch: string -> FetchOutcome)
    ensures var r := GetResultsSpec(tasks, runId, project, tempDir, outputCsv, overwrite, removeTmp, files, fetch);
      r.Done? ==>
        && Tasks.ResolveAssets(tasks, runId, project).Ok?
        && var assets := Tasks.ResolveAssets(tasks, runId, project).value;
           var paths := TempPaths(tempDir, assets);
           var cached := CacheSpec(files, assets, paths, overwrite, fetch);
           && assets != []
           && cached.Done?
           && (forall p :: p in paths ==> p in cached.files)
           && r.value.rows == AllRows(TablesAt(cached.files, paths))
           && (forall c :: c in r.value.columns <==> exists k :: 0 <= k < |paths| && c in cached.files[paths[k]].columns)
           && outputCsv in r.files && r.files[outputCsv] == r.value
  {
    var r := GetResultsSpec(tasks, runId, project, tempDir, outputCsv, overwrite, removeTmp, files, fetch);
    if r.Done? {
      var assets := Tasks.ResolveAssets(tasks, runId, project).value;
      var paths := TempPaths(tempDir, assets);
      var cached := CacheSpec(files, assets, paths, overwrite, fetch);
      CacheFillsPaths(files, assets, paths, overwrite, fetch);
      CollectReadsOriginals(cached.files, paths, removeTmp);
    }
  }

  /** With `remove_tmp`, a run that raises nothing leaves none of its temporary files behind. */
  lemma GetResultsRemovesTemps(tasks: seq<Tasks.Task>, runId: string, project: string, tempDir: string,
                               outputCsv: string, overwrite: bool, files: Files,
                               fetch: string -> FetchOutcome)
    ensures var r := GetResultsSpec(tasks, runId, project, tempDir, outputCsv, overwrite, true, files, fetch);
      r.Done? ==>
        var paths := TempPaths(tempDir, Tasks.ResolveAssets(tasks, runId, project).value);
        forall p :: p in paths && p != outputCsv ==> p !in r.files
  {
    var r := GetResultsSpec(tasks, runId, project, tempDir, outputCsv, overwrite, true, files, fetch);
    if r.Done? {
      var assets := Tasks.ResolveAssets(tasks, runId, project).value;
      var paths := TempPaths(tempDir, assets);
      var cached := CacheSpec(files, assets, paths, overwrite, fetch);
      CollectRemovesTemps(cached.files, paths);
    }
  }

  /**
   * Without `overwrite` or `remove_tmp`, a run that raises nothing leaves
   * every file that existed before as it was (the output file aside).
   */
  lemma GetResultsKeepsFiles(tasks: seq<Tasks.Task>, runId: string, project: string, tempDir: string,
                             outputCsv: string, files: Files, fetch: string -> FetchOutcome)
    ensures var r := GetResultsSpec(tasks, runId, project, tempDir, outputCsv, false, false, files, fetch);
      r.Done? ==> forall p :: p in files && p != outputCsv ==> p in r.files && r.files[p] == files[p]
  {
    var r := GetResultsSpec(tasks, runId, project, tempDir, outputCsv, false, false, files, fetch);
    if r.Done? {
      var assets := Tasks.ResolveAssets(tasks, runId, project).value;
      var paths := TempPaths(tempDir, assets);
      var cached := CacheSpec(files, assets, paths, false, fetch);
      CacheKeepsExistingFiles(files, assets, paths, fetch);
      CacheFillsPaths(files, assets, paths, false, fetch);
      CollectKeeping(cached.files, paths);
    }
  }
}
