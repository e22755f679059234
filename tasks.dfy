/**
 * The run bookkeeping both workflow modules (functions/workflow.py and
 * functions/workflow_planet.py) do on the Earth Engine task list: which
 * tasks belong to a run, how many are in each state, which are cancelled,
 * and which assets a run's completed tasks wrote. The two files carry the
 * same code for this; it is modelled once.
 */
module Tasks {
  import opened Wrappers
  import opened Text
  import opened Remote

  /** One entry of the task list: its id, description, state and destination URIs. */
  datatype Task = Task(id: string, description: string, state: string, destinationUris: seq<string>)

  /** The text a task description must contain to belong to run `runId`. */
  function RunTag(runId: string): string {
    "run " + runId
  }

  /** The task belongs to the run: its description contains `run {runId}`. */
  predicate InRun(t: Task, runId: string) {
    Contains(t.description, RunTag(runId))
  }

  /** The tasks of the run, in task-list order. */
  function RunTasks(tasks: seq<Task>, runId: string): (r: seq<Task>)
    ensures |r| <= |tasks|
    ensures forall t :: t in r <==> t in tasks && InRun(t, runId)
  {
    if tasks == [] then []
    else (if InRun(tasks[0], runId) then [tasks[0]] else []) + RunTasks(tasks[1..], runId)
  }

  /** Selecting the run's tasks commutes with splitting the task list: order is kept. */
  lemma {:induction false} RunTasksAppend(a: seq<Task>, b: seq<Task>, runId: string)
    ensures RunTasks(a + b, runId) == RunTasks(a, runId) + RunTasks(b, runId)
  {
    if a == [] {
      assert a + b == b;
    } else {
      assert (a + b)[1..] == a[1..] + b;
      RunTasksAppend(a[1..], b, runId);
    }
  }

  /** The task states the status report tells apart; any other state name is `Other`. */
  datatype State = Completed | Running | Pending | Ready | Failed | Other(name: string)

  /** The state a task's `state` string names. */
  function StateOf(name: string): (st: State)
    ensures st == Completed <==> name == "COMPLETED"
    ensures st == Running <==> name == "RUNNING"
    ensures st == Pending <==> name == "PENDING"
    ensures st == Ready <==> name == "READY"
    ensures st == Failed <==> name == "FAILED"
  {
    if name == "COMPLETED" then Completed
    else if name == "RUNNING" then Running
    else if name == "PENDING" then Pending
    else if name == "READY" then Ready
    else if name == "FAILED" then Failed
    else Other(name)
  }

  /** The number of tasks in state `st`. */
  function CountState(ts: seq<Task>, st: State): (n: nat)
    ensures n <= |ts|
  {
    if ts == [] then 0 else (if StateOf(ts[0].state) == st then 1 else 0) + CountState(ts[1..], st)
  }

  /** No task is in the state exactly when the count is zero, all are exactly when it is the length. */
  lemma {:induction false} CountStateExtremes(ts: seq<Task>, st: State)
    ensures CountState(ts, st) == 0 <==> forall t :: t in ts ==> StateOf(t.state) != st
    ensures CountState(ts, st) == |ts| <==> forall t :: t in ts ==> StateOf(t.state) == st
  {
    if ts != [] {
      CountStateExtremes(ts[1..], st);
      assert forall t :: t in ts ==> t == ts[0] || t in ts[1..];
      assert ts[0] in ts;
    }
  }

  /** The number of tasks in a state the report does not count (such as `CANCELLED`). */
  function CountUncounted(ts: seq<Task>): (n: nat)
    ensures n == 0 <==> forall t :: t in ts ==> !StateOf(t.state).Other?
  {
    if ts == [] then 0
    else
      assert forall t :: t in ts ==> t == ts[0] || t in ts[1..];
      (if StateOf(ts[0].state).Other? then 1 else 0) + CountUncounted(ts[1..])
  }

  /** What `workflowState(run_id)` reports: the run's tasks and the five counts. */
  datatype Status = Status(tasks: seq<Task>, completed: nat, running: nat, pending: nat, ready: nat, failed: nat)

  function Counted(s: Status): nat {
    s.completed + s.running + s.pending + s.ready + s.failed
  }

  /** Every task is in one counted state or is uncounted. */
  lemma {:induction false} CountsPartition(ts: seq<Task>)
    ensures CountState(ts, Completed) + CountState(ts, Running) + CountState(ts, Pending)
      + CountState(ts, Ready) + CountState(ts, Failed) + CountUncounted(ts) == |ts|
  {
    if ts != [] {
      CountsPartition(ts[1..]);
    }
  }

  /**
   * `workflowState(run_id)`: the run's tasks in list order, each count the
   * number of them whose state is that exact name; the counts add up to the
   * number of tasks exactly when none is in another state.
   */
  function WorkflowState(tasks: seq<Task>, runId: string): (s: Status)
    ensures forall t :: t in s.tasks <==> t in tasks && InRun(t, runId)
    ensures s.completed == CountState(s.tasks, Completed) && s.running == CountState(s.tasks, Running)
    ensures s.pending == CountState(s.tasks, Pending) && s.ready == CountState(s.tasks, Ready)
    ensures s.failed == CountState(s.tasks, Failed)
    ensures Counted(s) <= |s.tasks|
    ensures Counted(s) == |s.tasks| <==> forall t :: t in s.tasks ==> !StateOf(t.state).Other?
  {
    var ts := RunTasks(tasks, runId);
    CountsPartition(ts);
    Status(ts, CountState(ts, Completed), CountState(ts, Running), CountState(ts, Pending),
           CountState(ts, Ready), CountState(ts, Failed))
  }

  /** The ids of the tasks, in order. */
  function TaskIds(ts: seq<Task>): (r: seq<string>)
    ensures |r| == |ts| && forall k :: 0 <= k < |ts| ==> r[k] == ts[k].id
  {
    if ts == [] then [] else [ts[0].id] + TaskIds(ts[1..])
  }

  /**
   * `cancelWorkflow(run_id)`: it calls `cancelTask` on the id of every task of
   * the run, in order and whatever the task's state, until a call raises;
   * `cancels` says which calls go through.
   */
  method CancelWorkflow(tasks: seq<Task>, runId: string, cancels: string -> bool) returns (r: Calls<string>)
    ensures r == UntilRaise(TaskIds(RunTasks(tasks, runId)), cancels)
    ensures forall id :: id in r.done ==> exists t :: t in tasks && InRun(t, runId) && t.id == id
    ensures r.raised.None? ==> forall t :: t in tasks && InRun(t, runId) ==> t.id in r.done
  {
    var ts := RunTasks(tasks, runId);
    r := CallEach(TaskIds(ts), cancels);
    forall id | id in r.done ensures exists t :: t in tasks && InRun(t, runId) && t.id == id {
      var k :| 0 <= k < |r.done| && r.done[k] == id;
      assert ts[k] in ts;
    }
    if r.raised.None? {
      forall t | t in tasks && InRun(t, runId) ensures t.id in r.done {
        var k :| 0 <= k < |ts| && ts[k] == t;
        assert r.done[k] == t.id;
      }
    }
  }

  /** The separator a destination URI is split on: `{project}/assets/`. */
  function AssetSeparator(project: string): string {
    project + "/assets/"
  }

  /** The prefix a resolved asset id starts with: `projects/{project}/assets/`. */
  function AssetPrefix(project: string): string {
    "projects/" + project + "/assets/"
  }

  /**
   * One URI rewritten to an asset id: the prefix followed by the text after
   * the first separator, up to any second one. `None` is the IndexError
   * raised when the separator does not occur.
   */
  function ResolveUri(uri: string, project: string): (r: Option<string>)
    ensures r.None? <==> !Contains(uri, AssetSeparator(project))
    ensures r.Some? ==>
      && |AssetPrefix(project)| <= |r.value|
      && r.value[..|AssetPrefix(project)|] == AssetPrefix(project)
      && !Contains(r.value[|AssetPrefix(project)|..], AssetSeparator(project))
  {
    match SecondField(uri, AssetSeparator(project))
    case None => None
    case Some(x) =>
      assert (AssetPrefix(project) + x)[|AssetPrefix(project)|..] == x;
      Some(AssetPrefix(project) + x)
  }

  /**
   * With a project name free of `/`, the separator cannot occur inside the
   * `projects/{project}` head of an asset path before its own place.
   */
  lemma SeparatorNotEarly(project: string, tail: string, j: nat)
    requires '/' !in project && j < 9
    ensures !OccursAt(AssetPrefix(project) + tail, AssetSeparator(project), j)
  {
    var uri, sep, m := AssetPrefix(project) + tail, AssetSeparator(project), |project|;
    assert uri == "projects/" + project + "/assets/" + tail;
    assert sep[m] == '/' && sep[m + 1] == 'a';
    if j + m < 8 {
      assert uri[j + m] == "projects/"[j + m];
      Mismatch(uri, sep, j, m);
    } else if j + m == 8 {
      if m == 0 {
        assert uri[9] == '/';
        Mismatch(uri, sep, j, 1);
      } else if project[0] != 'a' {
        assert uri[9] == project[0];
        Mismatch(uri, sep, j, m + 1);
      } else {
        assert uri[j] == "projects/"[j] && sep[0] == project[0];
        Mismatch(uri, sep, j, 0);
      }
    } else {
      assert uri[j + m] == project[j + m - 9];
      Mismatch(uri, sep, j, m);
    }
  }

  /**
   * An asset path whose tail does not contain the separator resolves to
   * itself: what a task exports to is what `getResults` and `cleanAssets`
   * find again.
   */
  lemma ResolveAssetPath(project: string, tail: string)
    requires '/' !in project
    requires !Contains(tail, AssetSeparator(project))
    ensures ResolveUri(AssetPrefix(project) + tail, project) == Some(AssetPrefix(project) + tail)
  {
    var uri, sep := AssetPrefix(project) + tail, AssetSeparator(project);
    assert uri[9..9 + |sep|] == sep;
    forall j: nat | j < 9 ensures !OccursAt(uri, sep, j) {
      SeparatorNotEarly(project, tail, j);
    }
    assert OccursAt(uri, sep, 9);
    IndexOfFirst(uri, sep, 0, 9);
    assert uri[9 + |sep|..] == tail;
    assert IndexOf(tail, sep, 0) == None;
  }

  /**
   * The tail `metrics/tmp/{name}` of an exported asset does not contain the
   * separator when `name` is free of `/`.
   */
  lemma MetricsTailHasNoSeparator(project: string, name: string)
    requires '/' !in name
    ensures !Contains("metrics/tmp/" + name, AssetSeparator(project))
  {
    var tail, sep, m := "metrics/tmp/" + name, AssetSeparator(project), |project|;
    assert sep[m] == '/' && sep[m + 7] == '/';
    forall i: nat | i <= |tail| ensures !OccursAt(tail, sep, i) {
      if i + |sep| <= |tail| {
        var p := i + m;
        if p == 7 || p == 11 {
          assert tail[p + 7] == name[p + 7 - 12];
          Mismatch(tail, sep, i, m + 7);
        } else if p < 12 {
          assert tail[p] == "metrics/tmp/"[p];
          Mismatch(tail, sep, i, m);
        } else {
          assert tail[p] == name[p - 12];
          Mismatch(tail, sep, i, m);
        }
      }
    }
  }

  /** The destination URIs of the run's completed tasks, task by task. */
  function CompletedUris(tasks: seq<Task>, runId: string): seq<string> {
    if tasks == [] then []
    else
      (if InRun(tasks[0], runId) && tasks[0].state == "COMPLETED" then tasks[0].destinationUris else [])
      + CompletedUris(tasks[1..], runId)
  }

  /**
   * `r` is what rewriting `uris` yields: every URI rewritten, in order, when
   * each has the separator; otherwise the first URI lacking it.
   */
  predicate Rewrites(uris: seq<string>, project: string, r: Result<seq<string>, string>) {
    && (r.Ok? <==> forall k :: 0 <= k < |uris| ==> Contains(uris[k], AssetSeparator(project)))
    && (r.Ok? ==> |r.value| == |uris| && forall k :: 0 <= k < |uris| ==> ResolveUri(uris[k], project) == Some(r.value[k]))
    && (r.Err? ==> exists k ::
         && 0 <= k < |uris| && r.error == uris[k]
         && !Contains(uris[k], AssetSeparator(project))
         && forall j :: 0 <= j < k ==> Contains(uris[j], AssetSeparator(project)))
  }

  /** The comprehension of functions/workflow.py line 148 with the asset prefix of line 150. */
  function ResolveUris(uris: seq<string>, project: string): (r: Result<seq<string>, string>)
    ensures Rewrites(uris, project, r)
  {
    if uris == [] then Ok([])
    else match ResolveUri(uris[0], project)
      case None => RewritesFirstMissing(uris, project); Err(uris[0])
      case Some(a) =>
        match ResolveUris(uris[1..], project)
        case Err(e) => RewritesLaterMissing(uris, project, e); Err(e)
        case Ok(rest) => RewritesAll(uris, project, a, rest); Ok([a] + rest)
  }

  lemma RewritesFirstMissing(uris: seq<string>, project: string)
    requires uris != [] && !Contains(uris[0], AssetSeparator(project))
    ensures Rewrites(uris, project, Err(uris[0]))
  {
  }

  lemma RewritesLaterMissing(uris: seq<string>, project: string, e: string)
    requires uris != [] && Contains(uris[0], AssetSeparator(project))
    requires Rewrites(uris[1..], project, Err(e))
    ensures Rewrites(uris, project, Err(e))
  {
    var sep := AssetSeparator(project);
    var k :| 0 <= k < |uris[1..]| && e == uris[1..][k] && !Contains(uris[1..][k], sep)
             && forall j :: 0 <= j < k ==> Contains(uris[1..][j], sep);
    assert uris[k + 1] == uris[1..][k];
    forall j | 0 <= j < k + 1 ensures Contains(uris[j], sep) {
      if j > 0 {
        assert uris[j] == uris[1..][j - 1];
      }
    }
  }

  lemma RewritesAll(uris: seq<string>, project: string, a: string, rest: seq<string>)
    requires uris != [] && ResolveUri(uris[0], project) == Some(a)
    requires Rewrites(uris[1..], project, Ok(rest))
    ensures Rewrites(uris, project, Ok([a] + rest))
  {
    assert forall k :: 1 <= k < |uris| ==> uris[k] == uris[1..][k - 1];
  }

  /** The asset list `getResults` and `cleanAssets` compute for a run. */
  function ResolveAssets(tasks: seq<Task>, runId: string, project: string): Result<seq<string>, string> {
    ResolveUris(CompletedUris(tasks, runId), project)
  }

  lemma {:induction false} CompletedUrisAppend(a: seq<Task>, b: seq<Task>, runId: string)
    ensures CompletedUris(a + b, runId) == CompletedUris(a, runId) + CompletedUris(b, runId)
  {
    if a == [] {
      assert a + b == b;
    } else {
      assert (a + b)[1..] == a[1..] + b;
      CompletedUrisAppend(a[1..], b, runId);
    }
  }

  /**
   * Only the run's completed tasks contribute assets: a task of another run,
   * or one in any other state, changes nothing wherever it is listed.
   */
  lemma IgnoredTask(a: seq<Task>, t: Task, b: seq<Task>, runId: string, project: string)
    requires !InRun(t, runId) || t.state != "COMPLETED"
    ensures ResolveAssets(a + [t] + b, runId, project) == ResolveAssets(a + b, runId, project)
  {
    CompletedUrisAppend(a + [t], b, runId);
    CompletedUrisAppend(a, [t], runId);
    CompletedUrisAppend(a, b, runId);
    assert CompletedUris([t], runId) == [] by {
      assert [t][1..] == [];
    }
    assert a + [t] + b == (a + [t]) + b;
    assert CompletedUris(a, runId) + [] == CompletedUris(a, runId);
  }

  /**
   * When every listed task is a completed task of the run whose single
   * destination URI is an asset path that resolves to itself, the run's
   * assets are exactly those paths, in task order.
   */
  lemma {:induction false} CompletedTasksResolve(tasks: seq<Task>, runId: string, project: string, uris: seq<string>)
    requires |uris| == |tasks|
    requires forall k :: 0 <= k < |tasks| ==>
      && InRun(tasks[k], runId) && tasks[k].state == "COMPLETED" && tasks[k].destinationUris == [uris[k]]
    requires forall k :: 0 <= k < |uris| ==> ResolveUri(uris[k], project) == Some(uris[k])
    ensures CompletedUris(tasks, runId) == uris
    ensures ResolveAssets(tasks, runId, project) == Ok(uris)
  {
    if tasks != [] {
      CompletedTasksResolve(tasks[1..], runId, project, uris[1..]);
      assert uris == [uris[0]] + uris[1..];
    }
    FixedUrisResolve(uris, project);
  }

  /** URIs that each rewrite to themselves rewrite, together, to themselves. */
  lemma FixedUrisResolve(uris: seq<string>, project: string)
    requires forall k :: 0 <= k < |uris| ==> ResolveUri(uris[k], project) == Some(uris[k])
    ensures ResolveUris(uris, project) == Ok(uris)
  {
    var r := ResolveUris(uris, project);
    assert r.Ok? by {
      forall k | 0 <= k < |uris| ensures Contains(uris[k], AssetSeparator(project)) {
        assert ResolveUri(uris[k], project).Some?;
      }
    }
    assert r.value == uris;
  }

  /**
   * `cleanAssets(run_id, ee_project_name)`: it fails before deleting anything
   * when a URI lacks the separator; otherwise it calls `deleteAsset` on the
   * resolved assets, in order, until a call raises (`deletes` says which
   * calls go through).
   */
  method CleanAssets(tasks: seq<Task>, runId: string, project: string, deletes: string -> bool)
    returns (r: Result<Calls<string>, string>)
    ensures r.Err? <==> ResolveAssets(tasks, runId, project).Err?
    ensures r.Err? ==> r.error == ResolveAssets(tasks, runId, project).error
    ensures r.Ok? ==> r.value == UntilRaise(ResolveAssets(tasks, runId, project).value, deletes)
  {
    var resolved := ResolveAssets(tasks, runId, project);
    if resolved.Err? {
      return Err(resolved.error);
    }
    var deleted := CallEach(resolved.value, deletes);
    r := Ok(deleted);
  }
}
