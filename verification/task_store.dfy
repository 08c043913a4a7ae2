/** The control tables: runs projected from the logs, tasks, and the attempts that tie run ids to tasks. */
module TaskStore {
  import opened Common
  import opened RunTree

  datatype TaskState =
    | Queued | WaitingDependencies | Claimed | Running | CancelRequested | Cancelling
    | Cancelled | Done | Failed | Blocked

  /** `state` is None for a NULL `control_state`, which every reader refuses. */
  datatype Task = Task(
    id: string, workflow: string, itemId: string, runId: Option<string>, parentRunId: Option<string>,
    state: Option<TaskState>)

  datatype Run = Run(
    workflow: string, date: string, itemId: string, runId: string, parentRunId: Option<string>, status: string)

  datatype Attempt = Attempt(runId: string, taskId: string)

  /** `runs` and `tasks` list their rows in the order the queries return them. */
  datatype Db = Db(runs: seq<Run>, tasks: seq<Task>, attempts: seq<Attempt>)

  /** Every task carries a state: no reader fails on it. */
  predicate StatesKnown(tasks: seq<Task>) { forall t :: t in tasks ==> t.state.Some? }

  predicate IsTerminal(s: TaskState) { s == Done || s == Failed || s == Cancelled }

  predicate IsLiveTask(t: Task) { t.state.Some? && !IsTerminal(t.state.value) }

  predicate IsLiveRun(r: Run) { r.status != "done" && r.status != "failed" && r.status != "skipped" }

  // ---- Queries over runs ----

  function ChildRuns(runs: seq<Run>, parent: string): seq<Run> {
    if runs == [] then []
    else (if runs[0].parentRunId == Some(parent) then [runs[0]] else []) + ChildRuns(runs[1..], parent)
  }

  lemma {:induction false} ChildRunsHas(runs: seq<Run>, parent: string, r: Run)
    ensures r in ChildRuns(runs, parent) <==> r in runs && r.parentRunId == Some(parent)
  {
    if runs != [] {
      ChildRunsHas(runs[1..], parent, r);
    }
  }

  function RunIdOf(r: Run): string { r.runId }

  function ChildrenIn(runs: seq<Run>): string -> seq<Run> { p => ChildRuns(runs, p) }

  function RunLinks(runs: seq<Run>): Links { LinksOf(ChildrenIn(runs), RunIdOf) }

  lemma RunLinkMeans(runs: seq<Run>, x: string, y: string)
    ensures y in RunLinks(runs)(x)
       <==> x != "" && exists r :: r in runs && r.parentRunId == Some(x) && r.runId == y
  {
    var rows, links := ChildRuns(runs, x), RunLinks(runs)(x);
    LinksAt(ChildrenIn(runs), RunIdOf, x);
    if y in links {
      var i :| 0 <= i < |links| && links[i] == y;
      assert RunIdOf(rows[i]) == y;
      ChildRunsHas(runs, x, rows[i]);
    }
    if x != "" {
      if r :| r in runs && r.parentRunId == Some(x) && r.runId == y {
        ChildRunsHas(runs, x, r);
        var i :| 0 <= i < |rows| && rows[i] == r;
        assert links[i] == RunIdOf(r);
      }
    }
  }

  /** A projected row lies under the roots when its parent is reachable from them. */
  ghost predicate ProjectedUnder(runs: seq<Run>, roots: seq<string>, r: Run) {
    r in runs && r.parentRunId.Some? && r.parentRunId.value != "" && Reached(RunLinks(runs), roots, r.parentRunId.value)
  }

  /** The worklist query shared by tree actions and deletion: every run row under the roots. */
  method RunsUnder(runs: seq<Run>, roots: seq<string>) returns (visited: seq<string>, rows: seq<Run>)
    ensures forall x :: x in visited <==> x != "" && Reached(RunLinks(runs), roots, x)
    ensures forall r :: r in rows <==> ProjectedUnder(runs, roots, r)
    ensures Distinct(runs) ==> Distinct(rows)
  {
    ghost var ids := set r | r in runs :: r.runId;
    forall p, r | r in ChildRuns(runs, p)
      ensures RunIdOf(r) in ids
    {
      ChildRunsHas(runs, p, r);
    }
    visited, rows := Walk(roots, ChildrenIn(runs), RunIdOf, ids);
    GatherChildRuns(runs, visited);
    forall r
      ensures r in rows <==> ProjectedUnder(runs, roots, r)
    {
      GatherHasChild(runs, visited, r);
    }
  }

  lemma {:induction false} GatherHasChild(runs: seq<Run>, parents: seq<string>, r: Run)
    ensures r in Gather(ChildrenIn(runs), parents)
       <==> r in runs && r.parentRunId.Some? && r.parentRunId.value in parents
    decreases |parents|
  {
    if parents != [] {
      var init, last := parents[..|parents| - 1], parents[|parents| - 1];
      GatherHasChild(runs, init, r);
      ChildRunsHas(runs, last, r);
      assert parents == init + [last];
    }
  }

  lemma {:induction false} ChildRunsDistinct(runs: seq<Run>, parent: string)
    requires Distinct(runs)
    ensures Distinct(ChildRuns(runs, parent))
  {
    if runs != [] {
      ChildRunsDistinct(runs[1..], parent);
      ChildRunsHas(runs[1..], parent, runs[0]);
    }
  }

  lemma DistinctConcat<T>(a: seq<T>, b: seq<T>)
    requires Distinct(a) && Distinct(b) && forall x :: x in a ==> x !in b
    ensures Distinct(a + b)
  {
    forall i, j | 0 <= i < j < |a + b|
      ensures (a + b)[i] != (a + b)[j]
    {
      if i < |a| <= j {
        assert a[i] in a && b[j - |a|] in b;
      }
    }
  }

  lemma {:induction false} GatherChildRuns(runs: seq<Run>, parents: seq<string>)
    requires Distinct(parents)
    ensures Distinct(runs) ==> Distinct(Gather(ChildrenIn(runs), parents))
    decreases |parents|
  {
    if parents != [] && Distinct(runs) {
      var init, last := parents[..|parents| - 1], parents[|parents| - 1];
      GatherChildRuns(runs, init);
      ChildRunsDistinct(runs, last);
      forall r | r in Gather(ChildrenIn(runs), init)
        ensures r !in ChildRuns(runs, last)
      {
        GatherHasChild(runs, init, r);
        ChildRunsHas(runs, last, r);
      }
      DistinctConcat(Gather(ChildrenIn(runs), init), ChildRuns(runs, last));
    }
  }

  // ---- Queries over tasks ----

  /** First attempt of a run, joined with its task. */
  function TaskOfRun(db: Db, runId: string): (t: Option<Task>)
    ensures t.Some? ==> t.value in db.tasks
  {
    FirstAttempt(db.attempts, db.tasks, runId)
  }

  function FirstAttempt(attempts: seq<Attempt>, tasks: seq<Task>, runId: string): (t: Option<Task>)
    ensures t.Some? ==> t.value in tasks
  {
    if attempts == [] then None
    else if attempts[0].runId == runId && FindTask(tasks, attempts[0].taskId).Some?
    then FindTask(tasks, attempts[0].taskId)
    else FirstAttempt(attempts[1..], tasks, runId)
  }

  function FindTask(tasks: seq<Task>, id: string): (t: Option<Task>)
    ensures t.Some? ==> t.value in tasks && t.value.id == id
    ensures t.None? ==> forall x :: x in tasks ==> x.id != id
  {
    if tasks == [] then None
    else if tasks[0].id == id then Some(tasks[0])
    else FindTask(tasks[1..], id)
  }

  /** The task's row is the first with its id. */
  predicate IsRowOf(tasks: seq<Task>, id: string, t: Task) {
    exists i :: 0 <= i < |tasks| && tasks[i] == t && t.id == id && forall j :: 0 <= j < i ==> tasks[j].id != id
  }

  predicate IsStored(tasks: seq<Task>, id: string) { exists t :: t in tasks && t.id == id }

  /** The run's task is that of its first attempt that has one. */
  predicate IsTaskOf(attempts: seq<Attempt>, tasks: seq<Task>, run: string, t: Task) {
    exists k :: 0 <= k < |attempts| && attempts[k].runId == run && IsRowOf(tasks, attempts[k].taskId, t)
      && forall j :: 0 <= j < k && attempts[j].runId == run ==> !IsStored(tasks, attempts[j].taskId)
  }

  lemma {:induction false} FindTaskMeans(tasks: seq<Task>, id: string)
    ensures FindTask(tasks, id).Some? <==> IsStored(tasks, id)
    ensures forall t :: FindTask(tasks, id) == Some(t) <==> IsRowOf(tasks, id, t)
  {
    if tasks != [] {
      var rest := tasks[1..];
      FindTaskMeans(rest, id);
      assert tasks[0] in tasks && forall i :: 0 < i < |tasks| ==> tasks[i] == rest[i - 1];
      forall t
        ensures IsRowOf(tasks, id, t) <==>
          if tasks[0].id == id then t == tasks[0] else IsRowOf(rest, id, t)
      {
        if tasks[0].id != id && IsRowOf(rest, id, t) {
          var i :| 0 <= i < |rest| && rest[i] == t && forall j :: 0 <= j < i ==> rest[j].id != id;
          assert tasks[i + 1] == t;
        }
        if tasks[0].id == id && t == tasks[0] {
          assert tasks[0] == t;
        }
      }
    }
  }

  lemma IsTaskOfMore(attempts: seq<Attempt>, tasks: seq<Task>, run: string, t: Task)
    requires attempts != []
    ensures var first, rest := attempts[0], attempts[1..];
      IsTaskOf(attempts, tasks, run, t) <==>
        if first.runId == run && IsStored(tasks, first.taskId) then IsRowOf(tasks, first.taskId, t)
        else IsTaskOf(rest, tasks, run, t)
  {
    var first, rest := attempts[0], attempts[1..];
    FindTaskMeans(tasks, first.taskId);
    if IsTaskOf(attempts, tasks, run, t) {
      var k :| 0 <= k < |attempts| && attempts[k].runId == run && IsRowOf(tasks, attempts[k].taskId, t)
        && forall j :: 0 <= j < k && attempts[j].runId == run ==> !IsStored(tasks, attempts[j].taskId);
      if k > 0 {
        assert rest[k - 1] == attempts[k] && forall j :: 0 <= j < k - 1 ==> rest[j] == attempts[j + 1];
      }
    }
    if first.runId == run && IsStored(tasks, first.taskId) {
      assert IsRowOf(tasks, first.taskId, t) ==> attempts[0].runId == run;
    } else if IsTaskOf(rest, tasks, run, t) {
      var k :| 0 <= k < |rest| && rest[k].runId == run && IsRowOf(tasks, rest[k].taskId, t)
        && forall j :: 0 <= j < k && rest[j].runId == run ==> !IsStored(tasks, rest[j].taskId);
      assert attempts[k + 1] == rest[k];
      forall j | 0 <= j < k + 1 && attempts[j].runId == run
        ensures !IsStored(tasks, attempts[j].taskId)
      {
        assert j > 0 ==> rest[j - 1] == attempts[j];
      }
    }
  }

  lemma {:induction false} FirstAttemptMeans(attempts: seq<Attempt>, tasks: seq<Task>, run: string)
    ensures forall t :: FirstAttempt(attempts, tasks, run) == Some(t) <==> IsTaskOf(attempts, tasks, run, t)
    decreases |attempts|
  {
    if attempts != [] {
      FirstAttemptMeans(attempts[1..], tasks, run);
      FindTaskMeans(tasks, attempts[0].taskId);
      forall t
        ensures FirstAttempt(attempts, tasks, run) == Some(t) <==> IsTaskOf(attempts, tasks, run, t)
      {
        IsTaskOfMore(attempts, tasks, run, t);
      }
    }
  }

  /** A run's task is found through its first attempt whose task there is, and by no other way. */
  lemma TaskOfRunMeans(db: Db, run: string)
    ensures forall t :: TaskOfRun(db, run) == Some(t) <==> IsTaskOf(db.attempts, db.tasks, run, t)
    ensures TaskOfRun(db, run).None? <==>
      forall a :: a in db.attempts && a.runId == run ==> !IsStored(db.tasks, a.taskId)
  {
    FirstAttemptMeans(db.attempts, db.tasks, run);
    NoAttempt(db.attempts, db.tasks, run);
  }

  lemma {:induction false} NoAttempt(attempts: seq<Attempt>, tasks: seq<Task>, run: string)
    ensures FirstAttempt(attempts, tasks, run).None? <==>
      forall a :: a in attempts && a.runId == run ==> !IsStored(tasks, a.taskId)
    decreases |attempts|
  {
    if attempts != [] {
      NoAttempt(attempts[1..], tasks, run);
      FindTaskMeans(tasks, attempts[0].taskId);
      assert attempts[0] in attempts && forall a :: a in attempts <==> a == attempts[0] || a in attempts[1..];
    }
  }

  function ChildTasks(tasks: seq<Task>, parent: string): (r: seq<Task>)
    ensures forall t :: t in r <==> t in tasks && t.parentRunId == Some(parent)
  {
    if tasks == [] then []
    else (if tasks[0].parentRunId == Some(parent) then [tasks[0]] else []) + ChildTasks(tasks[1..], parent)
  }

  function TaskRunIds(tasks: seq<Task>): seq<string> {
    if tasks == [] then []
    else (if tasks[0].runId.Some? then [tasks[0].runId.value] else []) + TaskRunIds(tasks[1..])
  }

  lemma {:induction false} TaskRunIdsHas(tasks: seq<Task>, x: string)
    ensures x in TaskRunIds(tasks) <==> exists t :: t in tasks && t.runId == Some(x)
  {
    if tasks != [] {
      TaskRunIdsHas(tasks[1..], x);
      assert tasks == [tasks[0]] + tasks[1..];
    }
  }

  function TaskLinks(tasks: seq<Task>): Links { x => TaskRunIds(ChildTasks(tasks, x)) }

  lemma TaskLinkMeans(tasks: seq<Task>, x: string, y: string)
    ensures y in TaskLinks(tasks)(x) <==> exists t :: t in tasks && t.parentRunId == Some(x) && t.runId == Some(y)
  {
    TaskRunIdsHas(ChildTasks(tasks, x), y);
    if t :| t in tasks && t.parentRunId == Some(x) && t.runId == Some(y) {
      assert t in ChildTasks(tasks, x);
    }
  }

  function Present(ids: seq<string>): (r: seq<string>)
    ensures forall x :: x in r <==> x in ids && x != ""
  {
    if ids == [] then [] else (if ids[0] == "" then [] else [ids[0]]) + Present(ids[1..])
  }

  /** A task descends from the roots through the authoritative parent links; the roots themselves do not count. */
  ghost predicate InTaskTree(tasks: seq<Task>, roots: seq<string>, t: Task) {
    t in tasks && t.parentRunId.Some? && Reached(TaskLinks(tasks), Present(roots), t.parentRunId.value)
  }

  /** Tasks that `keep`, in the query's order. */
  function Members(tasks: seq<Task>, keep: set<Task>): (r: seq<Task>)
    ensures forall t :: t in r <==> t in tasks && t in keep
    ensures Distinct(tasks) ==> Distinct(r)
  {
    if tasks == [] then [] else (if tasks[0] in keep then [tasks[0]] else []) + Members(tasks[1..], keep)
  }

  function TasksBelow(tasks: seq<Task>, parents: seq<string>): (r: seq<Task>)
    ensures forall t :: t in r <==> t in tasks && t.parentRunId.Some? && t.parentRunId.value in parents
  {
    if tasks == [] then []
    else (if tasks[0].parentRunId.Some? && tasks[0].parentRunId.value in parents then [tasks[0]] else [])
         + TasksBelow(tasks[1..], parents)
  }

  function TasksUnder(tasks: seq<Task>, t: Task): (r: seq<Task>)
    ensures forall c :: c in r <==> c in tasks && t.runId.Some? && c.parentRunId == t.runId
  {
    if t.runId.Some? then ChildTasks(tasks, t.runId.value) else []
  }

  /** These rows are in the tree already, or will be taken from the queue. */
  ghost predicate Held(rows: seq<Task>, tree: set<Task>, queue: seq<Task>) {
    forall c :: c in rows ==> c in tree || c in queue
  }

  ghost predicate TreeWorklist(tasks: seq<Task>, roots: seq<string>, tree: set<Task>, queue: seq<Task>) {
    && (forall t :: t in tree || t in queue ==> InTaskTree(tasks, roots, t))
    && Held(TasksBelow(tasks, Present(roots)), tree, queue)
    && (forall t :: t in tree ==> Held(TasksUnder(tasks, t), tree, queue))
  }

  lemma TreeSeed(tasks: seq<Task>, roots: seq<string>)
    ensures TreeWorklist(tasks, roots, {}, TasksBelow(tasks, Present(roots)))
  {
    forall x | x in Present(roots)
      ensures Reached(TaskLinks(tasks), Present(roots), x)
    {
      RootReached(TaskLinks(tasks), Present(roots), x);
    }
  }

  lemma StillHeld(rows: seq<Task>, tree: set<Task>, queue: seq<Task>, more: seq<Task>)
    requires queue != [] && Held(rows, tree, queue)
    ensures Held(rows, tree + {queue[0]}, queue[1..] + more)
    ensures queue[0] in tree ==> Held(rows, tree, queue[1..])
  {
    assert queue == [queue[0]] + queue[1..];
  }

  lemma TreeSkip(tasks: seq<Task>, roots: seq<string>, tree: set<Task>, queue: seq<Task>)
    requires queue != [] && queue[0] in tree && TreeWorklist(tasks, roots, tree, queue)
    ensures TreeWorklist(tasks, roots, tree, queue[1..])
  {
    StillHeld(TasksBelow(tasks, Present(roots)), tree, queue, []);
    forall t | t in tree
      ensures Held(TasksUnder(tasks, t), tree, queue[1..])
    {
      StillHeld(TasksUnder(tasks, t), tree, queue, []);
    }
  }

  lemma ChildInTree(tasks: seq<Task>, roots: seq<string>, t: Task, c: Task)
    requires InTaskTree(tasks, roots, t) && c in TasksUnder(tasks, t)
    ensures InTaskTree(tasks, roots, c)
  {
    TaskLinkMeans(tasks, t.parentRunId.value, t.runId.value);
    LinkReached(TaskLinks(tasks), Present(roots), t.parentRunId.value, t.runId.value);
  }

  lemma TreeGrow(tasks: seq<Task>, roots: seq<string>, tree: set<Task>, queue: seq<Task>)
    requires queue != [] && TreeWorklist(tasks, roots, tree, queue)
    ensures InTaskTree(tasks, roots, queue[0])
    ensures TreeWorklist(tasks, roots, tree + {queue[0]}, queue[1..] + TasksUnder(tasks, queue[0]))
  {
    var t, more := queue[0], TasksUnder(tasks, queue[0]);
    assert InTaskTree(tasks, roots, t);
    forall c | c in more
      ensures InTaskTree(tasks, roots, c)
    {
      ChildInTree(tasks, roots, t, c);
    }
    StillHeld(TasksBelow(tasks, Present(roots)), tree, queue, more);
    forall x | x in tree
      ensures Held(TasksUnder(tasks, x), tree + {t}, queue[1..] + more)
    {
      StillHeld(TasksUnder(tasks, x), tree, queue, more);
    }
  }

  lemma {:induction false} TreeChain(tasks: seq<Task>, roots: seq<string>, tree: set<Task>, p: seq<string>, t: Task)
    requires TreeWorklist(tasks, roots, tree, []) && IsChain(TaskLinks(tasks), Present(roots), p)
    requires t in tasks && t.parentRunId == Some(p[|p| - 1])
    ensures t in tree
    decreases |p|
  {
    if |p| > 1 {
      var q := p[..|p| - 1];
      forall i | 0 <= i < |q| - 1
        ensures q[i + 1] in TaskLinks(tasks)(q[i])
      {
        assert p[i + 1] in TaskLinks(tasks)(p[i]);
      }
      assert p[|p| - 2 + 1] in TaskLinks(tasks)(p[|p| - 2]);
      TaskLinkMeans(tasks, q[|q| - 1], p[|p| - 1]);
      var mid :| mid in tasks && mid.parentRunId == Some(q[|q| - 1]) && mid.runId == Some(p[|p| - 1]);
      TreeChain(tasks, roots, tree, q, mid);
      assert t in TasksUnder(tasks, mid);
    }
  }

  /** Recursive query with UNION: every descendant once, whatever its state and even when the links form a cycle.
      None when a row on the way has no state. */
  method ListTaskTreeByRunIds(tasks: seq<Task>, roots: seq<string>) returns (r: Option<seq<Task>>)
    ensures r.None? <==> exists t :: InTaskTree(tasks, roots, t) && t.state.None?
    ensures r.Some? ==> forall t :: t in r.value <==> InTaskTree(tasks, roots, t)
    ensures r.Some? && Distinct(tasks) ==> Distinct(r.value)
  {
    var tree: set<Task>, queue := {}, TasksBelow(tasks, Present(roots));
    ghost var left := set t | t in tasks;
    TreeSeed(tasks, roots);
    while queue != []
      invariant TreeWorklist(tasks, roots, tree, queue)
      invariant forall t :: t in tasks ==> t in tree || t in left
      decreases |left|, |queue|
    {
      var t := queue[0];
      if t in tree {
        TreeSkip(tasks, roots, tree, queue);
        queue := queue[1..];
        continue;
      }
      TreeGrow(tasks, roots, tree, queue);
      queue := queue[1..] + TasksUnder(tasks, t);
      tree := tree + {t};
      left := Without(left, t);
    }
    forall t | InTaskTree(tasks, roots, t)
      ensures t in tree
    {
      var p :| IsChain(TaskLinks(tasks), Present(roots), p) && p[|p| - 1] == t.parentRunId.value;
      TreeChain(tasks, roots, tree, p, t);
    }
    var rows := Members(tasks, tree);
    if i :| 0 <= i < |rows| && rows[i].state.None? {
      assert rows[i] in rows;
      return None;
    }
    return Some(rows);
  }

  // ---- What does not depend on states ----

  /** The same tasks, but for their states. */
  predicate SameTasks(a: seq<Task>, b: seq<Task>) {
    |a| == |b| && forall i :: 0 <= i < |a| ==> a[i].(state := b[i].state) == b[i]
  }

  lemma BackInShape(a: seq<Task>, b: seq<Task>)
    requires SameTasks(a, b)
    ensures SameTasks(b, a)
  {
    forall i | 0 <= i < |b|
      ensures b[i].(state := a[i].state) == a[i]
    {
      assert a[i].(state := b[i].state) == b[i];
    }
  }

  lemma TaskLinkInShape(a: seq<Task>, b: seq<Task>, x: string, y: string)
    requires SameTasks(a, b) && y in TaskLinks(b)(x)
    ensures y in TaskLinks(a)(x)
  {
    var t := LinkingTask(b, x, y);
    var i :| 0 <= i < |b| && b[i] == t;
    assert a[i].(state := b[i].state) == t;
    TaskIsLink(a, a[i], x, y);
  }

  lemma LinkingTask(tasks: seq<Task>, x: string, y: string) returns (t: Task)
    requires y in TaskLinks(tasks)(x)
    ensures t in tasks && t.parentRunId == Some(x) && t.runId == Some(y)
  {
    TaskLinkMeans(tasks, x, y);
    t :| t in tasks && t.parentRunId == Some(x) && t.runId == Some(y);
  }

  lemma TaskIsLink(tasks: seq<Task>, t: Task, x: string, y: string)
    requires t in tasks && t.parentRunId == Some(x) && t.runId == Some(y)
    ensures y in TaskLinks(tasks)(x)
  {
    TaskLinkMeans(tasks, x, y);
  }

  lemma InTreeInShape(a: seq<Task>, b: seq<Task>, roots: seq<string>, i: nat)
    requires SameTasks(a, b) && i < |b| && InTaskTree(b, roots, b[i])
    ensures InTaskTree(a, roots, a[i])
  {
    assert a[i].(state := b[i].state) == b[i];
    forall x, y | y in TaskLinks(b)(x)
      ensures y in TaskLinks(a)(x)
    {
      TaskLinkInShape(a, b, x, y);
    }
    ReachedMonotone(TaskLinks(b), TaskLinks(a), Present(roots), b[i].parentRunId.value);
  }
}
