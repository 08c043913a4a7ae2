/** The blast radius of a tree action: which rows it may touch, decided before any handler runs. */
module ResolveTargets {
  import opened Common
  import opened KeyedList
  import opened RunTree
  import opened TaskStore

  datatype RowStatus = AsPending | AsRunning

  datatype Target = Target(
    workflow: string, id: string, runId: Option<string>, date: Option<string>, status: Option<RowStatus>)

  datatype Resolution =
    | Targets(targets: seq<Target>)
    | NoTargets
    | Disagreement(runId: string)
    | CorruptTask

  function TargetKey(t: Target): string {
    t.workflow + "\0" + t.id + "\0" + (if t.runId.Some? then t.runId.value else "")
  }

  // ---- What the two hierarchies contribute ----

  function TaskRun(t: Task): Option<string> { if t.runId == Some("") then None else t.runId }

  function TaskTarget(t: Task): Target
    requires t.state.Some?
  {
    var s := t.state.value;
    Target(t.workflow, t.itemId, TaskRun(t), None,
           Some(if s == Claimed || s == Running || s == CancelRequested || s == Cancelling then AsRunning
             else AsPending))
  }

  function RowTarget(r: Run): Target {
    Target(r.workflow, r.itemId, Some(r.runId), Some(r.date),
      Some(if r.status == "running" then AsRunning else AsPending))
  }

  predicate HasRow(runs: seq<Run>, runId: string) { exists i :: 0 <= i < |runs| && runs[i].runId == runId }

  predicate HasId(tasks: seq<Task>, id: string) { exists i :: 0 <= i < |tasks| && tasks[i].id == id }

  /** A live projected row under the roots whose task the task tree does not place there. */
  predicate RowStrays(db: Db, tree: seq<Task>, r: Run) {
    IsLiveRun(r) && TaskOfRun(db, r.runId).Some? && !HasId(tree, TaskOfRun(db, r.runId).value.id)
  }

  /** A live task of the tree whose run is projected, but not under the roots. */
  predicate TaskStrays(db: Db, projected: seq<Run>, t: Task) {
    IsLiveTask(t) && TaskRun(t).Some? && HasRow(db.runs, TaskRun(t).value) && !HasRow(projected, TaskRun(t).value)
  }

  predicate SomeStray(db: Db, projected: seq<Run>, tree: seq<Task>) {
    (exists r :: r in projected && RowStrays(db, tree, r)) || (exists t :: t in tree && TaskStrays(db, projected, t))
  }

  predicate FromTask(tree: seq<Task>, x: Target) {
    exists i :: 0 <= i < |tree| && IsLiveTask(tree[i]) && x == TaskTarget(tree[i])
  }

  predicate Taskless(db: Db, r: Run) { IsLiveRun(r) && TaskOfRun(db, r.runId).None? }

  predicate FromRow(db: Db, projected: seq<Run>, x: Target) {
    exists i :: 0 <= i < |projected| && Taskless(db, projected[i]) && x == RowTarget(projected[i])
  }

  /** Live tasks in query order; of two with one key the first stays. */
  function TaskTargets(tree: seq<Task>): seq<Target> {
    if tree == [] then []
    else
      var front, last := TaskTargets(tree[..|tree| - 1]), tree[|tree| - 1];
      if IsLiveTask(last) then PutNew(TargetKey, front, TaskTarget(last)) else front
  }

  /** Then live rows without a task; of two with one key the last stays, in the first one's place. */
  function WithRows(db: Db, tasks: seq<Target>, projected: seq<Run>): seq<Target>
    decreases |projected|
  {
    if projected == [] then tasks
    else
      var front, last := WithRows(db, tasks, projected[..|projected| - 1]), projected[|projected| - 1];
      if Taskless(db, last) then Put(TargetKey, front, RowTarget(last)) else front
  }

  /** The rows of the live tasks, and of the live rows without a task, one after another. */
  function LiveTargets(tree: seq<Task>): seq<Target> {
    if tree == [] then []
    else
      var last := tree[|tree| - 1];
      LiveTargets(tree[..|tree| - 1]) + (if IsLiveTask(last) then [TaskTarget(last)] else [])
  }

  function TasklessTargets(db: Db, projected: seq<Run>): seq<Target> {
    if projected == [] then []
    else
      var last := projected[|projected| - 1];
      TasklessTargets(db, projected[..|projected| - 1]) + (if Taskless(db, last) then [RowTarget(last)] else [])
  }

  /** Of two tasks with one key the first counts, and the targets are in the tasks' order. */
  lemma {:induction false} TaskTargetsInOrder(tree: seq<Task>)
    ensures KeysDistinct(TargetKey, TaskTargets(tree)) && FirstWins(TargetKey, LiveTargets(tree), TaskTargets(tree))
    decreases |tree|
  {
    if tree == [] {
      ApartInOrder<Target, string>(TargetKey, []);
    } else {
      var front, last := tree[..|tree| - 1], tree[|tree| - 1];
      TaskTargetsInOrder(front);
      if IsLiveTask(last) {
        PutFirst(TargetKey, LiveTargets(front), TaskTargets(front), TaskTarget(last));
      } else {
        assert LiveTargets(tree) == LiveTargets(front);
      }
    }
  }

  /** Of two rows with one key, or a task and a row, the last counts, in the first one's place. */
  lemma {:induction false} WithRowsInOrder(db: Db, tasks: seq<Target>, projected: seq<Run>)
    requires KeysDistinct(TargetKey, tasks)
    ensures KeysDistinct(TargetKey, WithRows(db, tasks, projected))
    ensures LastWins(TargetKey, tasks + TasklessTargets(db, projected), WithRows(db, tasks, projected))
    decreases |projected|
  {
    if projected == [] {
      ApartInOrder(TargetKey, tasks);
      assert tasks + [] == tasks;
    } else {
      var front, last := projected[..|projected| - 1], projected[|projected| - 1];
      var items := tasks + TasklessTargets(db, front);
      WithRowsInOrder(db, tasks, front);
      if Taskless(db, last) {
        PutLast(TargetKey, items, WithRows(db, tasks, front), RowTarget(last));
        assert tasks + TasklessTargets(db, projected) == items + [RowTarget(last)];
      } else {
        assert TasklessTargets(db, projected) == TasklessTargets(db, front);
      }
    }
  }

  method CheckProjected(db: Db, projected: seq<Run>, tree: seq<Task>) returns (r: Option<Resolution>)
    ensures r.None? ==> forall x :: x in projected ==> !RowStrays(db, tree, x)
    ensures r.Some? ==> r.value.Disagreement? || r.value.CorruptTask?
    ensures r.Some? && r.value.Disagreement? ==>
      exists x :: x in projected && RowStrays(db, tree, x) && x.runId == r.value.runId
    ensures r.Some? && r.value.CorruptTask? ==> !StatesKnown(db.tasks)
  {
    for i := 0 to |projected|
      invariant forall k :: 0 <= k < i ==> !RowStrays(db, tree, projected[k])
    {
      var row := projected[i];
      if !IsLiveRun(row) { continue; }
      var task := TaskOfRun(db, row.runId);
      if task.Some? {
        if task.value.state.None? { return Some(CorruptTask); }
        if !HasId(tree, task.value.id) { return Some(Disagreement(row.runId)); }
      }
    }
    r := None;
  }

  predicate CoversTasks(tree: seq<Task>, targets: seq<Target>) {
    forall i :: 0 <= i < |tree| && IsLiveTask(tree[i]) ==> HasKey(TargetKey, targets, TargetKey(TaskTarget(tree[i])))
  }

  predicate CoversRows(db: Db, projected: seq<Run>, targets: seq<Target>) {
    forall i :: 0 <= i < |projected| && Taskless(db, projected[i]) ==>
      HasKey(TargetKey, targets, TargetKey(RowTarget(projected[i])))
  }

  /** Every target comes from a live task of the tree. */
  lemma {:induction false} TaskTargetsFrom(tree: seq<Task>, x: Target)
    requires x in TaskTargets(tree)
    ensures FromTask(tree, x)
    decreases |tree|
  {
    var front, last := tree[..|tree| - 1], tree[|tree| - 1];
    if x in TaskTargets(front) {
      TaskTargetsFrom(front, x);
      var i :| 0 <= i < |front| && IsLiveTask(front[i]) && x == TaskTarget(front[i]);
      assert tree[i] == front[i];
    } else {
      assert IsLiveTask(tree[|tree| - 1]) && x == TaskTarget(last);
    }
  }

  /** One target a key, and no live task missing. */
  lemma {:induction false} TaskTargetsCover(tree: seq<Task>)
    ensures KeysDistinct(TargetKey, TaskTargets(tree)) && CoversTasks(tree, TaskTargets(tree))
    decreases |tree|
  {
    if tree != [] {
      var front, last := tree[..|tree| - 1], tree[|tree| - 1];
      TaskTargetsCover(front);
      if IsLiveTask(last) {
        PutKeeps(TargetKey, TaskTargets(front), TaskTarget(last));
      }
      forall i | 0 <= i < |tree| && IsLiveTask(tree[i])
        ensures HasKey(TargetKey, TaskTargets(tree), TargetKey(TaskTarget(tree[i])))
      {
        LiveTaskKept(tree, i);
      }
    }
  }

  lemma LiveTaskKept(tree: seq<Task>, i: nat)
    requires i < |tree| && IsLiveTask(tree[i]) && CoversTasks(tree[..|tree| - 1], TaskTargets(tree[..|tree| - 1]))
    ensures HasKey(TargetKey, TaskTargets(tree), TargetKey(TaskTarget(tree[i])))
  {
    var front, last := tree[..|tree| - 1], tree[|tree| - 1];
    assert i < |front| ==> front[i] == tree[i];
    if IsLiveTask(last) {
      PutHolds(TargetKey, TaskTargets(front), TaskTarget(last), TargetKey(TaskTarget(tree[i])));
    }
  }

  lemma {:induction false} WithRowsCover(db: Db, tasks: seq<Target>, projected: seq<Run>)
    requires KeysDistinct(TargetKey, tasks)
    ensures KeysDistinct(TargetKey, WithRows(db, tasks, projected))
      && CoversRows(db, projected, WithRows(db, tasks, projected))
    ensures forall x :: x in WithRows(db, tasks, projected) ==> x in tasks || FromRow(db, projected, x)
    ensures forall key :: HasKey(TargetKey, tasks, key) ==> HasKey(TargetKey, WithRows(db, tasks, projected), key)
    decreases |projected|
  {
    if projected != [] {
      var front, last := projected[..|projected| - 1], projected[|projected| - 1];
      var out := WithRows(db, tasks, front);
      WithRowsCover(db, tasks, front);
      forall x | FromRow(db, front, x)
        ensures FromRow(db, projected, x)
      {
        var i :| 0 <= i < |front| && Taskless(db, front[i]) && x == RowTarget(front[i]);
        assert projected[i] == front[i];
      }
      if Taskless(db, last) {
        assert FromRow(db, projected, RowTarget(last));
        PutKeeps(TargetKey, out, RowTarget(last));
        forall key
          ensures HasKey(TargetKey, Put(TargetKey, out, RowTarget(last)), key)
             <==> HasKey(TargetKey, out, key) || key == TargetKey(RowTarget(last))
        {
          PutHolds(TargetKey, out, RowTarget(last), key);
        }
      }
      assert forall i :: 0 <= i < |front| ==> projected[i] == front[i];
    }
  }

  method MergeTasks(db: Db, projected: seq<Run>, tree: seq<Task>) returns (r: Resolution)
    requires StatesKnown(tree)
    ensures r.Targets? || r.Disagreement?
    ensures r.Disagreement? <==> exists t :: t in tree && TaskStrays(db, projected, t)
    ensures r.Targets? ==> r.targets == TaskTargets(tree) && FirstWins(TargetKey, LiveTargets(tree), r.targets)
  {
    var out := [];
    TaskTargetsInOrder(tree);
    for i := 0 to |tree|
      invariant out == TaskTargets(tree[..i])
      invariant forall k :: 0 <= k < i ==> !TaskStrays(db, projected, tree[k])
    {
      var task := tree[i];
      assert tree[..i + 1][..i] == tree[..i];
      assert task.state.Some?;
      if IsTerminal(task.state.value) { continue; }
      var runId := TaskRun(task);
      if runId.Some? {
        if HasRow(db.runs, runId.value) && !HasRow(projected, runId.value) {
          assert TaskStrays(db, projected, task);
          return Disagreement(runId.value);
        }
      }
      out := PutNew(TargetKey, out, TaskTarget(task));
    }
    assert tree[..|tree|] == tree;
    r := Targets(out);
  }

  method MergeRows(db: Db, projected: seq<Run>, tasks: seq<Target>) returns (r: Resolution)
    requires KeysDistinct(TargetKey, tasks)
    ensures r.Targets? || r.CorruptTask?
    ensures r.CorruptTask? ==> !StatesKnown(db.tasks)
    ensures r.Targets? ==> r.targets == WithRows(db, tasks, projected)
    ensures r.Targets? ==> LastWins(TargetKey, tasks + TasklessTargets(db, projected), r.targets)
  {
    var out := tasks;
    WithRowsInOrder(db, tasks, projected);
    for i := 0 to |projected|
      invariant out == WithRows(db, tasks, projected[..i])
    {
      var row := projected[i];
      assert projected[..i + 1][..i] == projected[..i];
      if !IsLiveRun(row) { continue; }
      var task := TaskOfRun(db, row.runId);
      if task.Some? {
        if task.value.state.None? { return CorruptTask; }
        continue;
      }
      out := Put(TargetKey, out, RowTarget(row));
    }
    assert projected[..|projected|] == projected;
    r := Targets(out);
  }

  // ---- The reconciliation ----

  ghost predicate LiveTaskBelow(db: Db, roots: seq<string>, t: Task) { InTaskTree(db.tasks, roots, t) && IsLiveTask(t) }

  ghost predicate TasklessRowBelow(db: Db, roots: seq<string>, r: Run) {
    ProjectedUnder(db.runs, roots, r) && Taskless(db, r)
  }

  /** What a tree action may touch below the roots: live tasks of the tree, and live projected rows without a task. */
  ghost predicate InBlastRadius(db: Db, roots: seq<string>, x: Target) {
    || (exists t :: LiveTaskBelow(db, roots, t) && x == TaskTarget(t))
    || (exists r :: TasklessRowBelow(db, roots, r) && x == RowTarget(r))
  }

  /** The two hierarchies place some live run differently. */
  ghost predicate HierarchiesDisagree(db: Db, roots: seq<string>) {
    || (exists r :: ProjectedUnder(db.runs, roots, r) && RowOutsideTree(db, roots, r))
    || (exists t :: LiveTaskBelow(db, roots, t) && TaskOutsideProjection(db, roots, t))
  }

  ghost predicate RowOutsideTree(db: Db, roots: seq<string>, r: Run) {
    IsLiveRun(r) && TaskOfRun(db, r.runId).Some?
    && !(exists t :: InTaskTree(db.tasks, roots, t) && t.id == TaskOfRun(db, r.runId).value.id)
  }

  ghost predicate TaskOutsideProjection(db: Db, roots: seq<string>, t: Task) {
    TaskRun(t).Some? && HasRow(db.runs, TaskRun(t).value)
    && !(exists r :: ProjectedUnder(db.runs, roots, r) && r.runId == TaskRun(t).value)
  }

  // ---- The radius by fields ----

  /** A task that has a state, and not one it ends in. */
  predicate GoesOn(t: Task) { t.state.Some? && t.state.value !in {Done, Failed, Cancelled} }

  predicate IsOpenRow(r: Run) { r.status !in {"done", "failed", "skipped"} }

  /** The row of a task: running once a worker has taken it. */
  predicate IsRowOfTask(x: Target, t: Task) {
    && x.workflow == t.workflow && x.id == t.itemId && x.date == None
    && x.runId == (if t.runId == Some("") then None else t.runId)
    && x.status.Some? && (x.status.value == AsRunning <==>
          t.state in {Some(Claimed), Some(Running), Some(CancelRequested), Some(Cancelling)})
  }

  predicate IsRowOfRun(x: Target, r: Run) {
    && x.workflow == r.workflow && x.id == r.itemId && x.date == Some(r.date) && x.runId == Some(r.runId)
    && x.status.Some? && (x.status.value == AsRunning <==> r.status == "running")
  }

  ghost predicate NoTaskOf(db: Db, run: string) {
    forall a :: a in db.attempts && a.runId == run ==> !IsStored(db.tasks, a.taskId)
  }

  /** The target is the row of a task of the tree, or of a projected run that has no task. */
  ghost predicate PlacedByTask(db: Db, roots: seq<string>, x: Target, t: Task) {
    InTaskTree(db.tasks, roots, t) && GoesOn(t) && IsRowOfTask(x, t)
  }

  ghost predicate PlacedByRow(db: Db, roots: seq<string>, x: Target, r: Run) {
    ProjectedUnder(db.runs, roots, r) && IsOpenRow(r) && NoTaskOf(db, r.runId) && IsRowOfRun(x, r)
  }

  ghost predicate RadiusByFields(db: Db, roots: seq<string>, x: Target) {
    (exists t :: PlacedByTask(db, roots, x, t)) || (exists r :: PlacedByRow(db, roots, x, r))
  }

  /** A live row under the roots whose task is not in their tree. */
  ghost predicate RowAstray(db: Db, roots: seq<string>, r: Run, t: Task) {
    && ProjectedUnder(db.runs, roots, r) && IsOpenRow(r) && IsTaskOf(db.attempts, db.tasks, r.runId, t)
    && forall u :: InTaskTree(db.tasks, roots, u) ==> u.id != t.id
  }

  ghost predicate NoneProjected(db: Db, roots: seq<string>, run: string) {
    forall u :: ProjectedUnder(db.runs, roots, u) ==> u.runId != run
  }

  /** A live task of the tree whose run has a row, and none under the roots. */
  ghost predicate TaskAstray(db: Db, roots: seq<string>, t: Task, r: Run) {
    && InTaskTree(db.tasks, roots, t) && GoesOn(t) && r in db.runs && t.runId == Some(r.runId) && r.runId != ""
    && NoneProjected(db, roots, r.runId)
  }

  ghost predicate DisagreeByFields(db: Db, roots: seq<string>) {
    (exists r, t :: RowAstray(db, roots, r, t)) || (exists t, r :: TaskAstray(db, roots, t, r))
  }

  /** Main result: what the action may touch, and when it refuses, read off the rows of the tables. */
  lemma RadiusMeans(db: Db, roots: seq<string>)
    ensures forall x :: InBlastRadius(db, roots, x) <==> RadiusByFields(db, roots, x)
    ensures HierarchiesDisagree(db, roots) <==> DisagreeByFields(db, roots)
  {
    forall x
      ensures InBlastRadius(db, roots, x) <==> RadiusByFields(db, roots, x)
    {
      TargetMeans(db, roots, x);
    }
    RowsAstray(db, roots);
    TasksAstray(db, roots);
  }

  lemma TargetMeans(db: Db, roots: seq<string>, x: Target)
    ensures InBlastRadius(db, roots, x) <==> RadiusByFields(db, roots, x)
  {
    if InBlastRadius(db, roots, x) {
      RadiusHasFields(db, roots, x);
    }
    if t :| PlacedByTask(db, roots, x, t) {
      TaskIsPlaced(db, roots, x, t);
    }
    if r :| PlacedByRow(db, roots, x, r) {
      RowIsPlaced(db, roots, x, r);
    }
  }

  lemma TaskIsPlaced(db: Db, roots: seq<string>, x: Target, t: Task)
    requires IsLiveTask(t) || GoesOn(t)
    ensures PlacedByTask(db, roots, x, t) <==> LiveTaskBelow(db, roots, t) && x == TaskTarget(t)
  {
  }

  lemma RowIsPlaced(db: Db, roots: seq<string>, x: Target, r: Run)
    ensures PlacedByRow(db, roots, x, r) <==> TasklessRowBelow(db, roots, r) && x == RowTarget(r)
  {
    TaskOfRunMeans(db, r.runId);
  }

  lemma RadiusHasFields(db: Db, roots: seq<string>, x: Target)
    requires InBlastRadius(db, roots, x)
    ensures RadiusByFields(db, roots, x)
  {
    if t :| LiveTaskBelow(db, roots, t) && x == TaskTarget(t) {
      TaskIsPlaced(db, roots, x, t);
    } else {
      var r :| TasklessRowBelow(db, roots, r) && x == RowTarget(r);
      RowIsPlaced(db, roots, x, r);
    }
  }

  lemma RowsAstray(db: Db, roots: seq<string>)
    ensures (exists r :: ProjectedUnder(db.runs, roots, r) && RowOutsideTree(db, roots, r))
       <==> exists r, t :: RowAstray(db, roots, r, t)
  {
    if r :| ProjectedUnder(db.runs, roots, r) && RowOutsideTree(db, roots, r) {
      TaskOfRunMeans(db, r.runId);
      assert RowAstray(db, roots, r, TaskOfRun(db, r.runId).value);
    }
    if r, t :| RowAstray(db, roots, r, t) {
      TaskOfRunMeans(db, r.runId);
      assert RowOutsideTree(db, roots, r);
    }
  }

  lemma TaskIsAstray(db: Db, roots: seq<string>, t: Task, r: Run)
    requires t.runId == Some(r.runId) && r.runId != "" && r in db.runs
    ensures TaskAstray(db, roots, t, r) <==> LiveTaskBelow(db, roots, t) && TaskOutsideProjection(db, roots, t)
  {
    RowIsOutside(db, roots, t, r);
  }

  lemma RowIsOutside(db: Db, roots: seq<string>, t: Task, r: Run)
    requires t.runId == Some(r.runId) && r.runId != "" && r in db.runs
    ensures TaskOutsideProjection(db, roots, t) <==> NoneProjected(db, roots, r.runId)
  {
    HasRowMeans(db.runs, r.runId);
  }

  lemma OutsideHasRow(db: Db, roots: seq<string>, t: Task) returns (r: Run)
    requires TaskOutsideProjection(db, roots, t)
    ensures t.runId == Some(r.runId) && r.runId != "" && r in db.runs
  {
    HasRowMeans(db.runs, TaskRun(t).value);
    r :| r in db.runs && r.runId == TaskRun(t).value;
  }

  lemma TasksAstray(db: Db, roots: seq<string>)
    ensures (exists t :: LiveTaskBelow(db, roots, t) && TaskOutsideProjection(db, roots, t))
       <==> exists t, r :: TaskAstray(db, roots, t, r)
  {
    if t :| LiveTaskBelow(db, roots, t) && TaskOutsideProjection(db, roots, t) {
      var r := OutsideHasRow(db, roots, t);
      TaskIsAstray(db, roots, t, r);
    }
    if t, r :| TaskAstray(db, roots, t, r) {
      TaskIsAstray(db, roots, t, r);
    }
  }

  lemma HasIdMeans(db: Db, roots: seq<string>, tree: seq<Task>, id: string)
    requires forall t :: t in tree <==> InTaskTree(db.tasks, roots, t)
    ensures HasId(tree, id) <==> exists t :: InTaskTree(db.tasks, roots, t) && t.id == id
  {
    if t :| InTaskTree(db.tasks, roots, t) && t.id == id {
      assert t in tree;
    }
    if HasId(tree, id) {
      var i :| 0 <= i < |tree| && tree[i].id == id;
      assert tree[i] in tree;
    }
  }

  lemma HasRowMeans(rows: seq<Run>, id: string)
    ensures HasRow(rows, id) <==> exists r :: r in rows && r.runId == id
  {
    if r :| r in rows && r.runId == id {
      var i :| 0 <= i < |rows| && rows[i] == r;
      assert rows[i].runId == id;
    }
  }

  lemma RowStraysOutside(db: Db, roots: seq<string>, tree: seq<Task>, r: Run)
    requires forall t :: t in tree <==> InTaskTree(db.tasks, roots, t)
    ensures RowStrays(db, tree, r) <==> RowOutsideTree(db, roots, r)
  {
    TaskOfRunMeans(db, r.runId);
    var task := TaskOfRun(db, r.runId);
    if task.Some? {
      HasIdMeans(db, roots, tree, task.value.id);
    }
  }

  lemma TaskStraysOutside(db: Db, roots: seq<string>, projected: seq<Run>, t: Task)
    requires forall r :: r in projected <==> ProjectedUnder(db.runs, roots, r)
    ensures TaskStrays(db, projected, t) <==> IsLiveTask(t) && TaskOutsideProjection(db, roots, t)
  {
    if t.runId.Some? {
      HasRowMeans(db.runs, t.runId.value);
      HasRowMeans(projected, t.runId.value);
    }
  }

  /** The targets are keyed apart, all within the radius, and nothing in the radius is missed. */
  ghost predicate CoversRadius(db: Db, roots: seq<string>, targets: seq<Target>) {
    && KeysDistinct(TargetKey, targets)
    && (forall x :: x in targets ==> InBlastRadius(db, roots, x))
    && (forall x :: InBlastRadius(db, roots, x) ==> HasKey(TargetKey, targets, TargetKey(x)))
  }

  lemma MergedCovers(db: Db, roots: seq<string>, projected: seq<Run>, tree: seq<Task>)
    requires forall r :: r in projected <==> ProjectedUnder(db.runs, roots, r)
    requires forall t :: t in tree <==> InTaskTree(db.tasks, roots, t)
    ensures CoversRadius(db, roots, WithRows(db, TaskTargets(tree), projected))
  {
    var fromTasks, targets := TaskTargets(tree), WithRows(db, TaskTargets(tree), projected);
    TaskTargetsCover(tree);
    WithRowsCover(db, fromTasks, projected);
    forall x | x in targets
      ensures InBlastRadius(db, roots, x)
    {
      if x in fromTasks {
        TaskTargetsFrom(tree, x);
        var i :| 0 <= i < |tree| && IsLiveTask(tree[i]) && x == TaskTarget(tree[i]);
        assert tree[i] in tree && LiveTaskBelow(db, roots, tree[i]);
      } else {
        var i :| 0 <= i < |projected| && Taskless(db, projected[i]) && x == RowTarget(projected[i]);
        assert projected[i] in projected && TasklessRowBelow(db, roots, projected[i]);
      }
    }
    forall x | InBlastRadius(db, roots, x)
      ensures HasKey(TargetKey, targets, TargetKey(x))
    {
      if t :| LiveTaskBelow(db, roots, t) && x == TaskTarget(t) {
        assert t in tree;
      } else {
        var r :| TasklessRowBelow(db, roots, r) && x == RowTarget(r);
        assert r in projected;
      }
    }
  }

  lemma StraysDisagree(db: Db, roots: seq<string>, projected: seq<Run>, tree: seq<Task>)
    requires forall r :: r in projected <==> ProjectedUnder(db.runs, roots, r)
    requires forall t :: t in tree <==> InTaskTree(db.tasks, roots, t)
    ensures SomeStray(db, projected, tree) <==> HierarchiesDisagree(db, roots)
  {
    forall r
      ensures r in projected && RowStrays(db, tree, r)
         <==> ProjectedUnder(db.runs, roots, r) && RowOutsideTree(db, roots, r)
    {
      RowStraysOutside(db, roots, tree, r);
    }
    forall t
      ensures t in tree && TaskStrays(db, projected, t)
         <==> LiveTaskBelow(db, roots, t) && TaskOutsideProjection(db, roots, t)
    {
      TaskStraysOutside(db, roots, projected, t);
    }
  }

  method Reconcile(db: Db, projected: seq<Run>, tree: seq<Task>) returns (o: Resolution)
    requires StatesKnown(tree)
    ensures !o.NoTargets?
    ensures o.CorruptTask? ==> !StatesKnown(db.tasks)
    ensures o.Disagreement? ==> SomeStray(db, projected, tree)
    ensures o.Targets? ==> !SomeStray(db, projected, tree) && o.targets == WithRows(db, TaskTargets(tree), projected)
  {
    var checked := CheckProjected(db, projected, tree);
    if checked.Some? { return checked.value; }
    var fromTasks := MergeTasks(db, projected, tree);
    if fromTasks.Disagreement? { return fromTasks; }
    TaskTargetsInOrder(tree);
    o := MergeRows(db, projected, fromTasks.targets);
  }

  /** Refuses exactly when the hierarchies disagree; otherwise resolves to the blast radius, neither more nor less. */
  method CollectDescendants(db: Db, roots: seq<string>) returns (o: Resolution)
    ensures !o.NoTargets?
    ensures o.CorruptTask? ==> !StatesKnown(db.tasks)
    ensures o.Disagreement? ==> HierarchiesDisagree(db, roots)
    ensures o.Targets? ==> !HierarchiesDisagree(db, roots) && CoversRadius(db, roots, o.targets)
  {
    var _, projected := RunsUnder(db.runs, roots);
    var listed := ListTaskTreeByRunIds(db.tasks, roots);
    if listed.None? { return CorruptTask; }
    var tree := listed.value;
    StraysDisagree(db, roots, projected, tree);
    MergedCovers(db, roots, projected, tree);
    forall t | t in tree
      ensures t.state.Some?
    {
      assert InTaskTree(db.tasks, roots, t);
    }
    o := Reconcile(db, projected, tree);
  }

  // ---- The request ----

  /** A target as the request names it; an empty workflow, run id or date counts as absent. */
  datatype Request = Request(tree: bool, excludeRoots: bool, workflow: string, date: Option<string>,
    targets: seq<Target>)

  function NonEmpty(s: Option<string>): Option<string> { if s == Some("") then None else s }

  function ToResolved(req: Request, t: Target): Target {
    Target(if t.workflow != "" then t.workflow else req.workflow, t.id, NonEmpty(t.runId),
           NonEmpty(if t.date.Some? then t.date else req.date), t.status)
  }

  function Base(req: Request): (r: seq<Target>)
    ensures |r| == |req.targets|
  {
    seq(|req.targets|, i requires 0 <= i < |req.targets| => ToResolved(req, req.targets[i]))
  }

  function RootRunIds(base: seq<Target>): (ids: seq<string>)
    ensures forall x :: x in ids <==> exists t :: t in base && t.runId == Some(x)
  {
    if base == [] then [] else (if base[0].runId.Some? then [base[0].runId.value] else []) + RootRunIds(base[1..])
  }

  ghost predicate Requested(req: Request, x: Target) { !req.excludeRoots && x in Base(req) }

  /** The requested rows as they are: each with the request's workflow and date where it names none of its own. */
  predicate AsRequested(req: Request, rows: seq<Target>) {
    |rows| == |req.targets| && forall i :: 0 <= i < |rows| ==>
      var t, x := req.targets[i], rows[i];
      var date := if t.date == None then req.date else t.date;
      && x.id == t.id && x.status == t.status
      && x.workflow == (if t.workflow == "" then req.workflow else t.workflow)
      && (x.runId == None <==> t.runId in {None, Some("")}) && (x.runId.Some? ==> x.runId == t.runId)
      && (x.date == None <==> date in {None, Some("")}) && (x.date.Some? ==> x.date == date)
  }

  /** The requested rows come first, of two with one key the last; what follows is below them. */
  ghost predicate RequestedFirst(req: Request, db: Option<Db>, targets: seq<Target>) {
    exists n :: 0 <= n <= |targets|
      && LastWins(TargetKey, if req.excludeRoots then [] else Base(req), targets[..n])
      && forall k :: n <= k < |targets| ==>
           db.Some? && InBlastRadius(db.value, RootRunIds(Base(req)), targets[k])
  }

  method RequestedRows(req: Request) returns (own: seq<Target>)
    ensures KeysDistinct(TargetKey, own) && LastWins(TargetKey, if req.excludeRoots then [] else Base(req), own)
    ensures forall x :: x in own ==> Requested(req, x)
    ensures forall x :: Requested(req, x) ==> HasKey(TargetKey, own, TargetKey(x))
  {
    own := [];
    ApartInOrder<Target, string>(TargetKey, []);
    if !req.excludeRoots {
      own := PutAll(TargetKey, own, Base(req));
      assert [] + Base(req) == Base(req);
      WinsMeans(TargetKey, Base(req), own);
    }
  }

  method AddBelow(own: seq<Target>, below: seq<Target>) returns (merged: seq<Target>)
    requires KeysDistinct(TargetKey, own)
    ensures KeysDistinct(TargetKey, merged) && own <= merged
    ensures forall k :: |own| <= k < |merged| ==> merged[k] in below
    ensures forall x :: x in own || x in below ==> HasKey(TargetKey, merged, TargetKey(x))
  {
    merged := PutAllNew(TargetKey, own, below);
    WinsMeans(TargetKey, own + below, merged);
    forall k | |own| <= k < |merged|
      ensures merged[k] in below
    {
      assert merged[k] in merged && forall j :: 0 <= j < |own| ==> TargetKey(merged[j]) != TargetKey(merged[k]);
      assert forall j :: 0 <= j < |own| ==> merged[j] == own[j];
    }
  }

  /** `db` is None when the control database is not ready: a tree request then degrades to its own targets. */
  method ResolveActionTargets(req: Request, db: Option<Db>) returns (o: Resolution)
    ensures o.NoTargets? <==> req.targets == []
    ensures AsRequested(req, Base(req))
    ensures req.targets != [] && !req.tree ==> o == Targets(Base(req))
    ensures o.Disagreement? ==> db.Some? && HierarchiesDisagree(db.value, RootRunIds(Base(req)))
    ensures o.CorruptTask? ==> db.Some? && !StatesKnown(db.value.tasks)
    ensures o.Targets? && req.tree ==> KeysDistinct(TargetKey, o.targets) && RequestedFirst(req, db, o.targets)
    ensures o.Targets? && req.tree ==>
      forall x :: x in o.targets ==>
        Requested(req, x) || (db.Some? && InBlastRadius(db.value, RootRunIds(Base(req)), x))
    ensures o.Targets? && req.tree ==>
      forall x :: Requested(req, x) || (db.Some? && InBlastRadius(db.value, RootRunIds(Base(req)), x))
        ==> HasKey(TargetKey, o.targets, TargetKey(x))
    ensures o.Targets? && req.tree && db.Some? ==> !HierarchiesDisagree(db.value, RootRunIds(Base(req)))
  {
    BaseAsRequested(req);
    if |req.targets| == 0 { return NoTargets; }
    var base := Base(req);
    if !req.tree { return Targets(base); }
    var own := RequestedRows(req);
    assert own[..|own|] == own;
    if db.None? { return Targets(own); }
    o := CollectDescendants(db.value, RootRunIds(base));
    if !o.Targets? { return; }
    ghost var below := o.targets;
    var merged := AddBelow(own, o.targets);
    KeysKept(own + below, merged);
    assert merged[..|own|] == own;
    o := Targets(merged);
  }

  lemma BaseAsRequested(req: Request)
    ensures AsRequested(req, Base(req))
  {
  }

  lemma KeysKept(items: seq<Target>, merged: seq<Target>)
    requires forall x :: x in items ==> HasKey(TargetKey, merged, TargetKey(x))
    ensures forall key :: HasKey(TargetKey, items, key) ==> HasKey(TargetKey, merged, key)
  {
    forall key | HasKey(TargetKey, items, key)
      ensures HasKey(TargetKey, merged, key)
    {
      HasKeyMeans(TargetKey, items, key);
    }
  }
}
