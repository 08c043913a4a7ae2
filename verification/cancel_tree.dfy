/** Cancelling a target, and, when it has no task of its own, everything below it: all or nothing. */
module CancelTree {
  import opened Common
  import opened KeyedList
  import opened RunTree
  import opened TaskStore
  import opened ResolveTargets

  /** A tracker row as far as cancelling looks at it; `prep` says its data names an OCR session that can be
      discarded. */
  datatype TrackerRow = TrackerRow(
    workflow: string, id: string, runId: Option<string>, status: string, operation: bool, prep: bool,
    step: Option<string>)

  /** What happened outside the task table. */
  datatype Effect = InProcess(runId: string) | Discarded(key: string) | Terminalized(key: string)

  datatype Refusal =
    | BadRequest | TaskNotFound | WrongState | AlreadyTerminal | CannotCancel | NoPriorRow | NoWorker
    | Unverified | NotOwned | DiscardFailed | DescendantsLive(failed: nat, total: nat)

  datatype Result = Succeeded | Refused(why: Refusal) | Thrown

  /** The parts a cancel consults but does not change: live in-process handles, tasks with a worker, discards and
      row writes that will work, and what finishing a child does to tasks waiting for it. */
  datatype Env = Env(
    registered: set<string>, owned: set<string>, discards: set<string>, emitFails: set<string>,
    release: (seq<Task>, string) -> map<string, TaskState>)

  /** A target's run id, an empty one counting as none. */
  function RunOf(t: Target): Option<string> { if t.runId == Some("") then None else t.runId }

  /** The newest row of an item, or of one run of it. */
  function Latest(rows: seq<TrackerRow>, t: Target): (r: Option<TrackerRow>)
    ensures r.Some? ==> r.value in rows && r.value.workflow == t.workflow && r.value.id == t.id
    decreases |rows|
  {
    if rows == [] then None
    else
      var row := rows[|rows| - 1];
      if row.workflow == t.workflow && row.id == t.id && (RunOf(t).Some? ==> row.runId == RunOf(t)) then Some(row)
      else Latest(rows[..|rows| - 1], t)
  }

  /** The row is of the target's item, and of its run if the target names one. */
  predicate Concerns(row: TrackerRow, t: Target) {
    row.workflow == t.workflow && row.id == t.id && (t.runId == None || t.runId == Some("") || row.runId == t.runId)
  }

  predicate IsNewestRow(rows: seq<TrackerRow>, t: Target, row: TrackerRow) {
    exists k :: 0 <= k < |rows| && rows[k] == row && Concerns(row, t)
      && forall j :: k < j < |rows| ==> !Concerns(rows[j], t)
  }

  lemma {:induction false} LatestMeans(rows: seq<TrackerRow>, t: Target)
    ensures forall row :: Latest(rows, t) == Some(row) <==> IsNewestRow(rows, t, row)
    ensures Latest(rows, t).None? <==> forall row :: row in rows ==> !Concerns(row, t)
    decreases |rows|
  {
    if rows != [] {
      var n := |rows| - 1;
      LatestMeans(rows[..n], t);
      forall row
        ensures IsNewestRow(rows, t, row) <==>
          if Concerns(rows[n], t) then row == rows[n] else IsNewestRow(rows[..n], t, row)
      {
        NewestRowMore(rows, t, row);
      }
      assert rows == rows[..n] + [rows[n]];
    }
  }

  lemma NewestRowMore(rows: seq<TrackerRow>, t: Target, row: TrackerRow)
    requires rows != []
    ensures var n := |rows| - 1;
      IsNewestRow(rows, t, row) <==>
        if Concerns(rows[n], t) then row == rows[n] else IsNewestRow(rows[..n], t, row)
  {
    var n := |rows| - 1;
    var front := rows[..n];
    if IsNewestRow(front, t, row) && !Concerns(rows[n], t) {
      var k :| 0 <= k < n && front[k] == row && Concerns(row, t) && forall j :: k < j < n ==> !Concerns(front[j], t);
      assert rows[k] == row;
      forall j | k < j <= n
        ensures !Concerns(rows[j], t)
      {
        assert j < n ==> front[j] == rows[j];
      }
    }
    if IsNewestRow(rows, t, row) && !Concerns(rows[n], t) {
      var k :| 0 <= k <= n && rows[k] == row && Concerns(row, t) && forall j :: k < j <= n ==> !Concerns(rows[j], t);
      assert front[k] == row;
    }
  }

  function LastTask(tasks: seq<Task>, workflow: string, itemId: string): (t: Option<Task>)
    ensures t.Some? ==> t.value in tasks
    decreases |tasks|
  {
    if tasks == [] then None
    else
      var last := tasks[|tasks| - 1];
      if last.workflow == workflow && last.itemId == itemId then Some(last)
      else LastTask(tasks[..|tasks| - 1], workflow, itemId)
  }

  function Found(db: Db, t: Target): (r: Option<Task>)
    ensures r.Some? ==> r.value in db.tasks
  {
    if RunOf(t).Some? then TaskOfRun(db, RunOf(t).value) else LastTask(db.tasks, t.workflow, t.id)
  }

  /** The task a target stands for: the one its run id names, if it is of the same item. */
  function Lookup(db: Db, t: Target): (r: Option<Task>)
    ensures r.Some? ==> r.value in db.tasks
  {
    var found := Found(db, t);
    if found.Some? && found.value.workflow == t.workflow && found.value.itemId == t.id then found else None
  }

  predicate IsOfItem(task: Task, t: Target) { task.workflow == t.workflow && task.itemId == t.id }

  predicate IsLastOfItem(tasks: seq<Task>, t: Target, task: Task) {
    exists k :: 0 <= k < |tasks| && tasks[k] == task && IsOfItem(task, t)
      && forall j :: k < j < |tasks| ==> !IsOfItem(tasks[j], t)
  }

  lemma {:induction false} LastTaskMeans(tasks: seq<Task>, t: Target)
    ensures forall task :: LastTask(tasks, t.workflow, t.id) == Some(task) <==> IsLastOfItem(tasks, t, task)
    decreases |tasks|
  {
    if tasks != [] {
      var n := |tasks| - 1;
      LastTaskMeans(tasks[..n], t);
      forall task
        ensures IsLastOfItem(tasks, t, task) <==>
          if IsOfItem(tasks[n], t) then task == tasks[n] else IsLastOfItem(tasks[..n], t, task)
      {
        LastOfItemMore(tasks, t, task);
      }
    }
  }

  lemma LastOfItemMore(tasks: seq<Task>, t: Target, task: Task)
    requires tasks != []
    ensures var n := |tasks| - 1;
      IsLastOfItem(tasks, t, task) <==>
        if IsOfItem(tasks[n], t) then task == tasks[n] else IsLastOfItem(tasks[..n], t, task)
  {
    var n := |tasks| - 1;
    var front := tasks[..n];
    if IsLastOfItem(front, t, task) && !IsOfItem(tasks[n], t) {
      var k :| 0 <= k < n && front[k] == task && IsOfItem(task, t) && forall j :: k < j < n ==> !IsOfItem(front[j], t);
      assert tasks[k] == task;
      forall j | k < j <= n
        ensures !IsOfItem(tasks[j], t)
      {
        assert j < n ==> front[j] == tasks[j];
      }
    }
    if IsLastOfItem(tasks, t, task) && !IsOfItem(tasks[n], t) {
      var k :| 0 <= k <= n && tasks[k] == task && IsOfItem(task, t)
        && forall j :: k < j <= n ==> !IsOfItem(tasks[j], t);
      assert front[k] == task;
    }
  }

  /** What a target stands for: the task of the run it names, if that is of its item, and else its item's last task. */
  lemma LookupMeans(db: Db, t: Target)
    ensures forall task :: Lookup(db, t) == Some(task) <==>
      if t.runId == None || t.runId == Some("") then IsLastOfItem(db.tasks, t, task)
      else IsTaskOf(db.attempts, db.tasks, t.runId.value, task) && IsOfItem(task, t)
  {
    LastTaskMeans(db.tasks, t);
    if RunOf(t).Some? {
      TaskOfRunMeans(db, t.runId.value);
    }
  }

  predicate LookupThrows(db: Db, t: Target) { Found(db, t).Some? && Found(db, t).value.state.None? }

  // ---- Task states ----

  /** No worker will start or go on with the task unasked. */
  predicate IsStopped(t: Task) {
    t.state.Some? && (t.state.value == Cancelled || t.state.value == CancelRequested || t.state.value == Cancelling)
  }

  function SetState(tasks: seq<Task>, id: string, s: TaskState): (r: seq<Task>)
    ensures |r| == |tasks|
    ensures forall i :: 0 <= i < |r| ==> r[i] == if tasks[i].id == id then tasks[i].(state := Some(s)) else tasks[i]
  {
    seq(|tasks|, i requires 0 <= i < |tasks| => if tasks[i].id == id then tasks[i].(state := Some(s)) else tasks[i])
  }

  /** Finishing a child moves only tasks that wait for their dependencies. */
  function Released(tasks: seq<Task>, moves: map<string, TaskState>): (r: seq<Task>)
    ensures |r| == |tasks|
    ensures forall i :: 0 <= i < |r| ==> r[i] == tasks[i].(state := r[i].state)
    ensures forall i :: 0 <= i < |r| && tasks[i].state != Some(WaitingDependencies) ==> r[i] == tasks[i]
  {
    seq(|tasks|, i requires 0 <= i < |tasks| =>
      if tasks[i].state == Some(WaitingDependencies) && tasks[i].id in moves
      then tasks[i].(state := Some(moves[tasks[i].id])) else tasks[i])
  }

  /** Same rows and links; only task states differ. */
  predicate SameShape(a: Db, b: Db) {
    && a.runs == b.runs && a.attempts == b.attempts && |a.tasks| == |b.tasks|
    && forall i :: 0 <= i < |a.tasks| ==> a.tasks[i].(state := b.tasks[i].state) == b.tasks[i]
  }

  /** Only states differ; what was stopped still is, and what had ended has not come back to life. */
  predicate KeepsStopped(a: Db, b: Db) {
    && SameShape(a, b)
    && (forall i :: 0 <= i < |a.tasks| && IsStopped(a.tasks[i]) ==> IsStopped(b.tasks[i]))
    && (forall i :: 0 <= i < |a.tasks| && IsLiveTask(b.tasks[i]) ==> IsLiveTask(a.tasks[i]))
  }

  /** `tasks.id` is the primary key. */
  predicate UniqueIds(tasks: seq<Task>) {
    forall i, j :: 0 <= i < |tasks| && 0 <= j < |tasks| && tasks[i].id == tasks[j].id ==> i == j
  }

  lemma ShapeKeepsIds(a: Db, b: Db)
    requires SameShape(a, b) && UniqueIds(a.tasks)
    ensures UniqueIds(b.tasks)
  {
    forall i | 0 <= i < |b.tasks|
      ensures b.tasks[i].id == a.tasks[i].id
    {
      assert a.tasks[i].(state := b.tasks[i].state) == b.tasks[i];
    }
  }

  predicate StoppedId(tasks: seq<Task>, id: string) {
    forall i :: 0 <= i < |tasks| && tasks[i].id == id ==> IsStopped(tasks[i])
  }

  lemma ShapeTransitive(a: Db, b: Db, c: Db)
    ensures SameShape(a, b) && SameShape(b, c) ==> SameShape(a, c)
    ensures KeepsStopped(a, b) && KeepsStopped(b, c) ==> KeepsStopped(a, c)
  {
  }

  lemma StoppedIdKept(a: Db, b: Db, id: string)
    requires KeepsStopped(a, b) && StoppedId(a.tasks, id)
    ensures StoppedId(b.tasks, id)
  {
    forall i | 0 <= i < |b.tasks| && b.tasks[i].id == id
      ensures IsStopped(b.tasks[i])
    {
      assert a.tasks[i].(state := b.tasks[i].state) == b.tasks[i];
      assert a.tasks[i].id == id;
    }
  }

  // ---- Lookups do not depend on states ----

  predicate SameTask(a: Option<Task>, b: Option<Task>) {
    (a.Some? <==> b.Some?) && (a.Some? ==> a.value.(state := b.value.state) == b.value)
  }

  lemma {:induction false} FindTaskShape(a: seq<Task>, b: seq<Task>, id: string)
    requires SameTasks(a, b)
    ensures SameTask(FindTask(a, id), FindTask(b, id))
  {
    if a != [] {
      assert a[0].(state := b[0].state) == b[0];
      assert SameTasks(a[1..], b[1..]);
      FindTaskShape(a[1..], b[1..], id);
    }
  }

  lemma {:induction false} FirstAttemptShape(attempts: seq<Attempt>, a: seq<Task>, b: seq<Task>, runId: string)
    requires SameTasks(a, b)
    ensures SameTask(FirstAttempt(attempts, a, runId), FirstAttempt(attempts, b, runId))
  {
    if attempts != [] {
      FindTaskShape(a, b, attempts[0].taskId);
      FirstAttemptShape(attempts[1..], a, b, runId);
    }
  }

  lemma {:induction false} LastTaskShape(a: seq<Task>, b: seq<Task>, workflow: string, itemId: string)
    requires SameTasks(a, b)
    ensures SameTask(LastTask(a, workflow, itemId), LastTask(b, workflow, itemId))
    decreases |a|
  {
    if a != [] {
      var n := |a| - 1;
      assert a[n].(state := b[n].state) == b[n];
      assert SameTasks(a[..n], b[..n]);
      LastTaskShape(a[..n], b[..n], workflow, itemId);
    }
  }

  lemma LookupShape(a: Db, b: Db, t: Target)
    requires SameShape(a, b)
    ensures SameTask(Lookup(a, t), Lookup(b, t))
  {
    if RunOf(t).Some? {
      FirstAttemptShape(a.attempts, a.tasks, b.tasks, RunOf(t).value);
    } else {
      LastTaskShape(a.tasks, b.tasks, t.workflow, t.id);
    }
  }

  // ---- Depth: why the recursion ends ----

  ghost predicate EntersRow(db: Db, x: string, r: Run, y: string) { TasklessRowBelow(db, [x], r) && r.runId == y }

  ghost predicate EntersTask(db: Db, x: string, t: Task, y: string) {
    LiveTaskBelow(db, [x], t) && t.runId == Some(y) && Lookup(db, TaskTarget(t)).None?
  }

  /** A cancel below `x` may come to `y` and look below that in turn: the run of a live row without a task, or of a live
      task that its own target does not find. */
  ghost predicate Enters(db: Db, x: string, y: string) {
    y != "" && ((exists r :: EntersRow(db, x, r, y)) || (exists t :: EntersTask(db, x, t, y)))
  }

  ghost predicate IsDescent(db: Db, x: string, p: seq<string>) {
    p != [] && Enters(db, x, p[0]) && forall i :: 0 <= i < |p| - 1 ==> Enters(db, p[i], p[i + 1])
  }

  ghost predicate Descends(db: Db, x: string, y: string) { exists p :: IsDescent(db, x, p) && p[|p| - 1] == y }

  /** Nothing the recursion enters lies below itself. Links that form a cycle through runs with tasks do no harm. */
  ghost predicate Acyclic(db: Db) { forall x :: !Descends(db, x, x) }

  ghost function RunIds(db: Db): set<string> {
    (set r | r in db.runs :: r.runId) + (set t | t in db.tasks && t.runId.Some? :: t.runId.value)
  }

  ghost function Descendants(db: Db, x: string): set<string> { set y | y in RunIds(db) && Descends(db, x, y) }

  ghost function Depth(db: Db, t: Target): nat {
    if RunOf(t).Some? && Lookup(db, t).None? then 1 + |Descendants(db, RunOf(t).value)| else 0
  }

  lemma EntersRunId(db: Db, x: string, y: string)
    requires Enters(db, x, y)
    ensures y in RunIds(db)
  {
    if r :| EntersRow(db, x, r, y) {
      assert r.runId in set r | r in db.runs :: r.runId;
    } else {
      var t :| EntersTask(db, x, t, y);
      assert t.runId.value in set t | t in db.tasks && t.runId.Some? :: t.runId.value;
    }
  }

  lemma DescentLonger(db: Db, x: string, y: string, p: seq<string>)
    requires Enters(db, x, y) && IsDescent(db, y, p)
    ensures Descends(db, x, p[|p| - 1])
  {
    var q := [y] + p;
    forall i | 0 <= i < |q| - 1
      ensures Enters(db, q[i], q[i + 1])
    {
      if i > 0 {
        assert q[i] == p[i - 1] && q[i + 1] == p[i] && Enters(db, p[i - 1], p[i - 1 + 1]);
      } else {
        assert q[i] == y && q[i + 1] == p[0];
      }
    }
    assert q[0] == y && q[|q| - 1] == p[|p| - 1];
    assert IsDescent(db, x, q);
  }

  lemma EnteredIsLower(db: Db, x: string, y: string)
    requires Acyclic(db) && Enters(db, x, y)
    ensures |Descendants(db, y)| < |Descendants(db, x)|
  {
    EntersRunId(db, x, y);
    var step := [y];
    assert IsDescent(db, x, step) && step[|step| - 1] == y;
    forall z | z in Descendants(db, y)
      ensures z in Descendants(db, x) && z != y
    {
      var p :| IsDescent(db, y, p) && p[|p| - 1] == z;
      DescentLonger(db, x, y, p);
    }
    assert Descendants(db, y) <= Without(Descendants(db, x), y);
    SmallerSet(Descendants(db, y), Without(Descendants(db, x), y));
  }

  lemma TaskEnteredInShape(shape: Db, db: Db, x: string, t: Task, y: string)
    requires KeepsStopped(shape, db) && EntersTask(db, x, t, y)
    ensures exists u :: EntersTask(shape, x, u, y)
  {
    var i :| 0 <= i < |db.tasks| && db.tasks[i] == t;
    InTreeInShape(shape.tasks, db.tasks, [x], i);
    TargetInShape(shape, db, i);
    assert EntersTask(shape, x, shape.tasks[i], y);
  }

  lemma TargetInShape(shape: Db, db: Db, i: nat)
    requires KeepsStopped(shape, db) && i < |db.tasks| && IsLiveTask(db.tasks[i])
    requires Lookup(db, TaskTarget(db.tasks[i])).None?
    ensures IsLiveTask(shape.tasks[i]) && Lookup(shape, TaskTarget(shape.tasks[i])).None?
    ensures shape.tasks[i].runId == db.tasks[i].runId
  {
    assert shape.tasks[i].(state := db.tasks[i].state) == db.tasks[i];
    LookupShape(shape, db, TaskTarget(db.tasks[i]));
    LookupByIds(shape, TaskTarget(db.tasks[i]), TaskTarget(shape.tasks[i]));
  }

  lemma LookupByIds(db: Db, a: Target, b: Target)
    requires a.workflow == b.workflow && a.id == b.id && a.runId == b.runId
    ensures Lookup(db, a) == Lookup(db, b)
  {
  }

  lemma RowEnteredInShape(shape: Db, db: Db, x: string, r: Run, y: string)
    requires SameShape(shape, db) && EntersRow(db, x, r, y)
    ensures EntersRow(shape, x, r, y)
  {
    FirstAttemptShape(shape.attempts, shape.tasks, db.tasks, r.runId);
  }

  datatype Origin = OfTask(t: Task) | OfRow(r: Run)

  predicate From(x: Target, o: Origin) {
    match o
    case OfTask(t) => t.state.Some? && x == TaskTarget(t)
    case OfRow(r) => x == RowTarget(r)
  }

  ghost predicate OriginBelow(db: Db, roots: seq<string>, o: Origin) {
    match o
    case OfTask(t) => LiveTaskBelow(db, roots, t)
    case OfRow(r) => TasklessRowBelow(db, roots, r)
  }

  lemma RadiusOrigin(db: Db, roots: seq<string>, x: Target) returns (o: Origin)
    requires InBlastRadius(db, roots, x)
    ensures From(x, o) && OriginBelow(db, roots, o)
  {
    if t :| LiveTaskBelow(db, roots, t) && x == TaskTarget(t) {
      o := OfTask(t);
    } else {
      var r :| TasklessRowBelow(db, roots, r) && x == RowTarget(r);
      o := OfRow(r);
    }
  }

  lemma OriginEntered(shape: Db, db: Db, x: string, u: Target, o: Origin)
    requires KeepsStopped(shape, db) && OriginBelow(db, [x], o) && From(u, o)
    requires RunOf(u).Some? && Lookup(shape, u).None?
    ensures Enters(shape, x, RunOf(u).value)
  {
    LookupShape(shape, db, u);
    match o {
      case OfTask(t) => TaskEnteredInShape(shape, db, x, t, RunOf(u).value);
      case OfRow(r) => RowEnteredInShape(shape, db, x, r, RunOf(u).value);
    }
  }

  /** Whatever a tree resolution returns below a target without a task is not as deep as that target. */
  lemma RadiusIsLower(shape: Db, db: Db, root: Target, u: Target)
    requires KeepsStopped(shape, db) && Acyclic(shape) && RunOf(root).Some? && Lookup(shape, root).None?
    requires InBlastRadius(db, [RunOf(root).value], u)
    ensures Depth(shape, u) < Depth(shape, root)
  {
    if RunOf(u).Some? && Lookup(shape, u).None? {
      var o := RadiusOrigin(db, [RunOf(root).value], u);
      OriginEntered(shape, db, RunOf(root).value, u, o);
      EnteredIsLower(shape, RunOf(root).value, RunOf(u).value);
    }
  }

  // ---- Keys tell targets apart ----

  /** Workflows and item ids hold no NUL, so the joined key can be taken apart again. */
  predicate PlainIds(db: Db) {
    && (forall t :: t in db.tasks ==> NoNul(t.workflow) && NoNul(t.itemId))
    && (forall r :: r in db.runs ==> NoNul(r.workflow) && NoNul(r.itemId))
  }

  lemma SameKeySameTarget(a: Target, b: Target)
    requires NoNul(a.workflow) && NoNul(a.id) && NoNul(b.workflow) && NoNul(b.id)
    requires TargetKey(a) == TargetKey(b)
    ensures a.workflow == b.workflow && a.id == b.id && RunOf(a) == RunOf(b)
  {
    var ra, rb := if a.runId.Some? then a.runId.value else "", if b.runId.Some? then b.runId.value else "";
    assert a.workflow + "\0" + a.id + "\0" + ra == a.workflow + "\0" + (a.id + "\0" + ra);
    assert b.workflow + "\0" + b.id + "\0" + rb == b.workflow + "\0" + (b.id + "\0" + rb);
    CutAtNul(a.workflow, a.id + "\0" + ra, b.workflow, b.id + "\0" + rb);
    CutAtNul(a.id, ra, b.id, rb);
  }

  lemma RadiusIsPlain(db: Db, roots: seq<string>, x: Target)
    requires PlainIds(db) && InBlastRadius(db, roots, x)
    ensures NoNul(x.workflow) && NoNul(x.id)
  {
    var o := RadiusOrigin(db, roots, x);
    assert o.OfTask? ==> o.t in db.tasks;
    assert o.OfRow? ==> o.r in db.runs;
  }

  // ---- The handlers ----

  /** Dealt with: its task is stopped, or its OCR session was discarded instead. */
  ghost predicate Settled(db: Db, log: seq<Effect>, t: Target) {
    Discarded(TargetKey(t)) in log || (Lookup(db, t).Some? ==> StoppedId(db.tasks, Lookup(db, t).value.id))
  }

  lemma SettledKept(a: Db, b: Db, log: seq<Effect>, log': seq<Effect>, t: Target)
    requires Settled(a, log, t) && KeepsStopped(a, b) && log <= log'
    ensures Settled(b, log', t)
  {
    LookupShape(a, b, t);
    if Discarded(TargetKey(t)) !in log && Lookup(a, t).Some? {
      StoppedIdKept(a, b, Lookup(a, t).value.id);
    }
  }

  predicate HasNoTask(db: Db, t: Target) {
    t.status != Some(AsRunning) && t.workflow != "" && t.id != "" && !LookupThrows(db, t) && Lookup(db, t).None?
  }

  /** The request names an item, and its task can be looked up. */
  predicate HasTask(db: Db, t: Target) { t.workflow != "" && t.id != "" && !LookupThrows(db, t) && Lookup(db, t).Some? }

  function StateOf(db: Db, t: Target): TaskState
    requires HasTask(db, t)
  {
    Lookup(db, t).value.state.value
  }

  /** A worker has, or had, the task in hand. */
  predicate InHand(s: TaskState) { s == Claimed || s == Running || s == CancelRequested || s == Cancelling }

  /** The run the cancel is recorded under: the one asked for, else the task's own. */
  function Audited(db: Db, t: Target): Target
    requires HasTask(db, t)
  {
    t.(runId := if RunOf(t).Some? then RunOf(t) else TaskRun(Lookup(db, t).value))
  }

  /** The run in the row: the one asked for; without one the task's, and an empty id is none. */
  predicate CarriesRun(row: TrackerRow, t: Target, task: Task) {
    row.runId ==
    if t.runId != None && t.runId != Some("") then t.runId else if task.runId == Some("") then None else task.runId
  }

  predicate CanWriteRow(rows: seq<TrackerRow>, env: Env, t: Target) {
    Latest(rows, t).Some? && TargetKey(t) !in env.emitFails
  }

  /** A queued task that can be cancelled on the spot, with its row. */
  predicate CancelsQueued(rows: seq<TrackerRow>, db: Db, env: Env, t: Target) {
    HasTask(db, t) && StateOf(db, t) == Queued && CanWriteRow(rows, env, Audited(db, t))
  }

  /** A task in a worker's hands, with a worker there to ask. */
  predicate AsksWorker(db: Db, env: Env, t: Target) {
    HasTask(db, t) && InHand(StateOf(db, t)) && Lookup(db, t).value.id in env.owned
  }

  /** There is no task, and the run is one this process can abort. */
  predicate HoldsHandle(db: Db, env: Env, t: Target) {
    && t.workflow != "" && t.id != "" && !LookupThrows(db, t) && Lookup(db, t).None?
    && RunOf(t).Some? && RunOf(t).value in env.registered
  }

  /** One of the two handlers cancels the target itself. */
  predicate CancelsDirectly(rows: seq<TrackerRow>, db: Db, env: Env, t: Target) {
    if RunOf(t).None? then t.status != Some(AsRunning) && CancelsQueued(rows, db, env, t)
    else
      || CancelsQueued(rows, db, env, t) || AsksWorker(db, env, t)
      || (t.status == Some(AsRunning) && HoldsHandle(db, env, t))
  }

  /** A target can be cancelled on the spot exactly if its task is queued and its row can be written, if its task is in
      the hands of a worker that can be asked, or if there is no task and it is shown running on a run held here. */
  lemma DirectMeans(rows: seq<TrackerRow>, db: Db, env: Env, t: Target)
    ensures CancelsDirectly(rows, db, env, t) <==>
      t.workflow != "" && t.id != "" && !LookupThrows(db, t)
      && var runless := t.runId == None || t.runId == Some("");
      match Lookup(db, t) {
        case Some(task) =>
          (task.state == Some(Queued) && CanWriteRow(rows, env, Audited(db, t))
          && !(runless && t.status == Some(AsRunning)))
          || (task.state in {Some(Claimed), Some(Running), Some(CancelRequested), Some(Cancelling)}
          && task.id in env.owned && !runless)
        case None => !runless && t.status == Some(AsRunning) && t.runId.value in env.registered
      }
  {
  }

  function CancelRow(rows: seq<TrackerRow>, t: Target): TrackerRow
    requires Latest(rows, t).Some?
  {
    Latest(rows, t).value.(runId := RunOf(t), status := "failed", step := Some("cancelled"))
  }

  /** The tables once a queued task is cancelled and the tasks waiting for it have moved. */
  function AfterCancel(db: Db, env: Env, id: string): Db {
    var cancelled := SetState(db.tasks, id, Cancelled);
    db.(tasks := Released(cancelled, env.release(cancelled, id)))
  }

  /** The task is cancelled; of the others only those that wait for their dependencies move, to where the release of the
      cancelled task sends them. */
  ghost predicate CancelledAlone(a: Db, b: Db, env: Env, id: string) {
    && b.runs == a.runs && b.attempts == a.attempts && |b.tasks| == |a.tasks|
    && exists cancelled: seq<Task> :: CancelledIn(a.tasks, cancelled, id)
         && MovedBy(cancelled, b.tasks, env.release(cancelled, id))
  }

  predicate CancelledIn(a: seq<Task>, b: seq<Task>, id: string) {
    |b| == |a| && forall i :: 0 <= i < |a| ==>
      b[i] == if a[i].id == id then a[i].(state := Some(Cancelled)) else a[i]
  }

  predicate MovedBy(a: seq<Task>, b: seq<Task>, moves: map<string, TaskState>) {
    |b| == |a| && forall i :: 0 <= i < |a| ==>
      b[i] == if a[i].state == Some(WaitingDependencies) && a[i].id in moves
              then a[i].(state := Some(moves[a[i].id])) else a[i]
  }

  lemma CancelsAlone(db: Db, env: Env, id: string)
    ensures CancelledAlone(db, AfterCancel(db, env, id), env, id)
  {
    var cancelled := SetState(db.tasks, id, Cancelled);
    assert CancelledIn(db.tasks, cancelled, id);
    assert MovedBy(cancelled, AfterCancel(db, env, id).tasks, env.release(cancelled, id));
  }

  /** The task is asked to stop, unless it was asked before; no other task is touched. */
  predicate AskedAlone(a: Db, b: Db, task: Task) {
    && b.runs == a.runs && b.attempts == a.attempts && |b.tasks| == |a.tasks|
    && forall i :: 0 <= i < |a.tasks| ==>
         b.tasks[i] == if a.tasks[i].id == task.id && task.state != Some(Cancelling)
                       then a.tasks[i].(state := Some(CancelRequested)) else a.tasks[i]
  }

  predicate TerminalStatus(status: string) { status == "done" || status == "failed" || status == "skipped" }

  predicate IsLiveOperation(row: TrackerRow) {
    row.operation && row.status != "done" && row.status != "failed" && row.status != "skipped"
  }

  /** A live operation row without a task, whose cancel row can be written. */
  predicate Terminalizable(rows: seq<TrackerRow>, env: Env, t: Target) {
    var prior := Latest(rows, t);
    prior.Some? && prior.value.operation && !TerminalStatus(prior.value.status) && TargetKey(t) !in env.emitFails
  }

  predicate IsPrep(rows: seq<TrackerRow>, t: Target) { Latest(rows, t).Some? && Latest(rows, t).value.prep }

  /** The cancel goes on to whatever lies below the target. */
  predicate FansOut(rows: seq<TrackerRow>, db: Db, t: Target) {
    !IsPrep(rows, t) && HasNoTask(db, t) && RunOf(t).Some?
  }

  // ---- What a cancel row does to the display ----

  /** The newest row says the item was cancelled. */
  predicate Cleared(rows: seq<TrackerRow>, t: Target) {
    Latest(rows, t).Some? && Latest(rows, t).value.status == "failed" && Latest(rows, t).value.step == Some("cancelled")
  }

  /** Another item, or another run of it. */
  predicate Elsewhere(t: Target, u: Target) {
    u.workflow != t.workflow || u.id != t.id || (RunOf(u).Some? && RunOf(u) != RunOf(t))
  }

  /** The target's newest row is a cancelled one of its run, and nothing else is shown differently. */
  ghost predicate RowClosed(before: seq<TrackerRow>, rows: seq<TrackerRow>, t: Target) {
    && Cleared(rows, t) && Latest(rows, t).value.runId == RunOf(t)
    && Latest(before, t).Some? && Latest(rows, t).value.operation == Latest(before, t).value.operation
    && Latest(rows, t).value.prep == Latest(before, t).value.prep
    && forall u :: Elsewhere(t, u) ==> Latest(rows, u) == Latest(before, u)
  }

  /** Main result: the row a cancel writes closes its target and touches no other. */
  lemma CancelRowCloses(rows: seq<TrackerRow>, t: Target)
    requires Latest(rows, t).Some?
    ensures RowClosed(rows, rows + [CancelRow(rows, t)], t)
    ensures Cleared(rows + [CancelRow(rows, t)], t.(runId := None))
  {
    var after := rows + [CancelRow(rows, t)];
    assert after[..|after| - 1] == rows && after[|after| - 1] == CancelRow(rows, t);
  }

  /** A closed row can neither be cleared once more nor taken for a live one. */
  lemma ClearedIsTerminal(rows: seq<TrackerRow>, env: Env, t: Target)
    requires Cleared(rows, t)
    ensures !Terminalizable(rows, env, t)
    ensures Latest(rows, t).value.status in ["done", "failed", "skipped"]
  {
  }

  /** Cancels only append cancelled rows. */
  predicate RowsGrow(before: seq<TrackerRow>, rows: seq<TrackerRow>) {
    && before <= rows
    && forall i :: |before| <= i < |rows| ==> rows[i].status == "failed" && rows[i].step == Some("cancelled")
  }

  /** So what is closed stays closed. */
  lemma {:induction false} ClearedKept(before: seq<TrackerRow>, rows: seq<TrackerRow>, t: Target)
    requires RowsGrow(before, rows) && Cleared(before, t)
    ensures Cleared(rows, t)
    decreases |rows|
  {
    if |rows| == |before| {
      assert rows == before;
    } else {
      ClearedKept(before, rows[..|rows| - 1], t);
    }
  }

  // ---- What lies below a run, and when it is dealt with ----

  /** A live task whose live row the projection places below the run. */
  ghost predicate LiveTaskProjected(db: Db, run: string, t: Task) {
    IsLiveTask(t) && exists r :: ProjectedUnder(db.runs, [run], r) && IsLiveRun(r) && TaskOfRun(db, r.runId) == Some(t)
  }

  /** A live task below the run, whichever of the two hierarchies places it there. */
  ghost predicate LiveBelow(db: Db, run: string, t: Task) {
    LiveTaskBelow(db, [run], t) || LiveTaskProjected(db, run, t)
  }

  /** The target a task gives rise to is looked up as that task: its run has an attempt. */
  predicate FindsItself(db: Db, t: Task)
    requires t.state.Some?
  {
    Lookup(db, TaskTarget(t)).Some? && Lookup(db, TaskTarget(t)).value.id == t.id
  }

  /** The task is stopped, or its OCR session was discarded instead. */
  predicate Dealt(db: Db, log: seq<Effect>, t: Task)
    requires t.state.Some?
  {
    StoppedId(db.tasks, t.id) || Discarded(TargetKey(TaskTarget(t))) in log
  }

  predicate Handled(db: Db, log: seq<Effect>, t: Task)
    requires t.state.Some?
  {
    FindsItself(db, t) ==> Dealt(db, log, t)
  }

  /** Every task that was live below the run is dealt with. */
  ghost predicate BelowSettled(before: Db, db: Db, log: seq<Effect>, run: string) {
    forall t :: LiveBelow(before, run, t) ==> Handled(db, log, t)
  }

  /** Some task that was live below the run goes on. */
  ghost predicate SomeGoesOn(before: Db, db: Db, log: seq<Effect>, run: string) {
    exists t :: LiveBelow(before, run, t) && !Dealt(db, log, t)
  }

  /** Some task that was live below the run, and that its own target does not find, goes on. */
  ghost predicate SomeUnfoundGoesOn(before: Db, db: Db, log: seq<Effect>, run: string) {
    exists t :: LiveBelow(before, run, t) && !FindsItself(before, t) && !Dealt(db, log, t)
  }

  ghost predicate NothingBelow(db: Db, run: string) { forall x :: !InBlastRadius(db, [run], x) }

  /** The resolution below the run refuses, or finds nothing. */
  ghost predicate NothingToCancel(db: Db, run: string) { HierarchiesDisagree(db, [run]) || NothingBelow(db, run) }

  /** Where the hierarchies agree, the task tree holds whatever either places below the run. */
  lemma AgreedIsInTree(db: Db, run: string, t: Task)
    requires UniqueIds(db.tasks) && !HierarchiesDisagree(db, [run]) && LiveBelow(db, run, t)
    ensures LiveTaskBelow(db, [run], t)
  {
    if LiveTaskProjected(db, run, t) {
      var r :| ProjectedUnder(db.runs, [run], r) && IsLiveRun(r) && TaskOfRun(db, r.runId) == Some(t);
      assert !RowOutsideTree(db, [run], r);
      var u :| InTaskTree(db.tasks, [run], u) && u.id == t.id;
      SameIdSameTask(db.tasks, t, u);
    }
  }

  lemma SameIdSameTask(tasks: seq<Task>, t: Task, u: Task)
    requires UniqueIds(tasks) && t in tasks && u in tasks && t.id == u.id
    ensures t == u
  {
    var i, j :| 0 <= i < |tasks| && 0 <= j < |tasks| && tasks[i] == t && tasks[j] == u;
    assert tasks[i].id == tasks[j].id;
  }

  lemma HandledKept(a: Db, b: Db, log: seq<Effect>, log': seq<Effect>, t: Task)
    requires t.state.Some? && Handled(a, log, t) && KeepsStopped(a, b) && log <= log'
    ensures Handled(b, log', t)
  {
    LookupShape(a, b, TaskTarget(t));
    if StoppedId(a.tasks, t.id) {
      StoppedIdKept(a, b, t.id);
    }
  }

  lemma BelowSettledKept(first: Db, a: Db, b: Db, log: seq<Effect>, log': seq<Effect>, run: string)
    requires BelowSettled(first, a, log, run) && KeepsStopped(a, b) && log <= log'
    ensures BelowSettled(first, b, log', run)
  {
    forall t | LiveBelow(first, run, t)
      ensures Handled(b, log', t)
    {
      HandledKept(a, b, log, log', t);
    }
  }

  // ---- A cancel as it went ----

  /** Everything a cancel may change. */
  datatype Tables = Tables(db: Db, rows: seq<TrackerRow>, log: seq<Effect>)

  predicate Later(a: Tables, b: Tables) {
    KeepsStopped(a.db, b.db) && RowsGrow(a.rows, b.rows) && a.log <= b.log
  }

  /** One target's cancel: the tables around it, its result, and, where it went on below, the targets the resolution
      gave and their own cancels. */
  datatype Step = Step(t: Target, r: Result, before: Tables, after: Tables, targets: seq<Target>, below: seq<Step>)

  function Results(steps: seq<Step>): (results: seq<Result>)
    ensures |results| == |steps| && forall i :: 0 <= i < |steps| ==> results[i] == steps[i].r
  {
    seq(|steps|, i requires 0 <= i < |steps| => steps[i].r)
  }

  predicate AllSucceeded(results: seq<Result>) { forall i :: 0 <= i < |results| ==> results[i].Succeeded? }

  predicate IsFailure(r: Result) { !r.Succeeded? }

  /** Each step starts where the one before it ended. */
  predicate Joined(a: Tables, steps: seq<Step>, b: Tables) {
    if steps == [] then a == b
    else
      && steps[0].before == a && steps[|steps| - 1].after == b
      && forall i :: 0 < i < |steps| ==> steps[i].before == steps[i - 1].after
  }

  /** One step a target, in turn. */
  predicate InTurn(targets: seq<Target>, steps: seq<Step>) {
    |steps| <= |targets| && forall i :: 0 <= i < |steps| ==> steps[i].t == targets[i]
  }

  /** The targets were worked off until one threw. */
  predicate WorkedOff(a: Tables, targets: seq<Target>, steps: seq<Step>, b: Tables) {
    && InTurn(targets, steps) && Joined(a, steps, b)
    && (forall i :: 0 <= i < |steps| - 1 ==> !steps[i].r.Thrown?)
    && (|steps| < |targets| ==> steps != [] && steps[|steps| - 1].r.Thrown?)
  }

  /** The targets are the blast radius, unless the resolution refused. */
  ghost predicate Resolves(db: Db, run: string, targets: seq<Target>) {
    if HierarchiesDisagree(db, [run]) then targets == [] else CoversRadius(db, [run], targets)
  }

  ghost predicate Covered(db: Db, run: string, targets: seq<Target>) {
    !HierarchiesDisagree(db, [run]) && CoversRadius(db, [run], targets)
  }

  /** What the cancel of one target does, and when it reports success: all the way down. */
  ghost predicate CancelStep(env: Env, s: Step)
    decreases s, 1
  {
    && Later(s.before, s.after)
    && (s.r.Succeeded? ==> Settled(s.after.db, s.after.log, s.t))
    && (if FansOut(s.before.rows, s.before.db, s.t) then AllOrNothing(env, s) else Direct(env, s))
  }

  /** A target cancelled by itself: by discarding its session, or by one of the handlers. */
  ghost predicate Direct(env: Env, s: Step) {
    && s.below == []
    && if IsPrep(s.before.rows, s.t) then
         && (s.r.Succeeded? <==> TargetKey(s.t) in env.discards)
         && s.after == s.before.(log := s.before.log + if s.r.Succeeded? then [Discarded(TargetKey(s.t))] else [])
       else
         && (s.r.Succeeded? <==> CancelsDirectly(s.before.rows, s.before.db, env, s.t))
         && (s.r.Succeeded? && Lookup(s.before.db, s.t).None? ==> InProcess(RunOf(s.t).value) in s.after.log)
         && (s.r.Succeeded? && CancelsQueued(s.before.rows, s.before.db, env, s.t) ==> Cleared(s.after.rows, s.t))
  }

  /** A target without a task answers for everything below it: one cancel a resolved target, each of which answers for
      what is below it in turn. */
  ghost predicate AllOrNothing(env: Env, s: Step)
    requires RunOf(s.t).Some?
    decreases s, 0
  {
    if s.below == [] then NothingDone(env, s)
    else
      && Covered(s.before.db, RunOf(s.t).value, s.targets) && WorkedOff(s.before, s.targets, s.below, s.after)
      && (forall i :: 0 <= i < |s.below| ==> CancelStep(env, s.below[i]))
      && s.r == Verdict(Results(s.below))
  }

  function Verdict(results: seq<Result>): Result
    requires results != []
  {
    if results[|results| - 1].Thrown? then Thrown
    else if AllSucceeded(results) then Succeeded
    else Refused(DescendantsLive(CountWhere(IsFailure, results), |results|))
  }

  /** With nothing to cancel below: a live operation row is cleared, anything else stays and is reported missing. */
  ghost predicate NothingDone(env: Env, s: Step)
    requires RunOf(s.t).Some?
  {
    var a, b, t := s.before, s.after, s.t;
    && b.db == a.db && s.targets == []
    && (s.r.Succeeded? ==>
          && Terminalizable(a.rows, env, t) && b.log == a.log + [Terminalized(TargetKey(t))]
          && b.rows == a.rows + [CancelRow(a.rows, t)] && RowClosed(a.rows, b.rows, t))
    && (!s.r.Succeeded? ==> b == a)
    && (if s.r.Thrown? then !StatesKnown(a.db.tasks)
        else
          && s.r == (if Terminalizable(a.rows, env, t) then Succeeded else Refused(TaskNotFound))
          && NothingToCancel(a.db, RunOf(t).value))
  }

  ghost predicate AllSteps(env: Env, steps: seq<Step>) { forall i :: 0 <= i < |steps| ==> CancelStep(env, steps[i]) }

  lemma StepAdded(env: Env, a: Tables, targets: seq<Target>, steps: seq<Step>, s: Step)
    requires InTurn(targets, steps) && Joined(a, steps, s.before) && AllSteps(env, steps)
    requires |steps| < |targets| && s.t == targets[|steps|] && CancelStep(env, s)
    ensures InTurn(targets, steps + [s]) && Joined(a, steps + [s], s.after) && AllSteps(env, steps + [s])
    ensures Results(steps + [s]) == Results(steps) + [s.r]
  {
    StepJoins(a, steps, s);
    OneStepMore(env, steps, s);
  }

  lemma OneStepMore(env: Env, steps: seq<Step>, s: Step)
    requires AllSteps(env, steps) && CancelStep(env, s)
    ensures AllSteps(env, steps + [s])
  {
    forall i | 0 <= i < |steps + [s]|
      ensures CancelStep(env, (steps + [s])[i])
    {
      SameStep(env, if i < |steps| then steps[i] else s, (steps + [s])[i]);
    }
  }

  lemma StepJoins(a: Tables, steps: seq<Step>, s: Step)
    requires Joined(a, steps, s.before)
    ensures Joined(a, steps + [s], s.after)
  {
  }

  lemma SameStep(env: Env, s: Step, s': Step)
    requires CancelStep(env, s) && s == s'
    ensures CancelStep(env, s')
  {
  }

  lemma StepIsLater(env: Env, steps: seq<Step>, i: nat)
    requires AllSteps(env, steps) && i < |steps|
    ensures Later(steps[i].before, steps[i].after)
  {
    assert CancelStep(env, steps[i]);
  }

  /** From a step on nothing stopped starts again, nothing ended comes back, and nothing logged is lost. */
  lemma {:induction false} AfterStep(env: Env, a: Tables, steps: seq<Step>, b: Tables, i: nat)
    requires Joined(a, steps, b) && AllSteps(env, steps) && i < |steps|
    ensures Later(steps[i].after, b)
    decreases |steps| - i
  {
    if i + 1 < |steps| {
      AfterStep(env, a, steps, b, i + 1);
      StepIsLater(env, steps, i + 1);
      LaterTransitive(steps[i].after, steps[i + 1].after, b);
    }
  }

  lemma {:induction false} BeforeStep(env: Env, a: Tables, steps: seq<Step>, b: Tables, i: nat)
    requires Joined(a, steps, b) && AllSteps(env, steps) && i < |steps|
    ensures Later(a, steps[i].before)
  {
    if i > 0 {
      BeforeStep(env, a, steps, b, i - 1);
      StepIsLater(env, steps, i - 1);
      LaterTransitive(a, steps[i - 1].before, steps[i].before);
    }
  }

  lemma LaterTransitive(a: Tables, b: Tables, c: Tables)
    requires Later(a, b) && Later(b, c)
    ensures Later(a, c)
  {
    ShapeTransitive(a.db, b.db, c.db);
    forall i | |a.rows| <= i < |c.rows|
      ensures c.rows[i].status == "failed" && c.rows[i].step == Some("cancelled")
    {
      assert i < |b.rows| ==> c.rows[i] == b.rows[i];
    }
  }

  /** Unless something threw, each resolved target has its step, and there is none exactly when the resolution refused
      or found nothing. */
  lemma FanIsResolution(env: Env, s: Step)
    requires CancelStep(env, s) && FansOut(s.before.rows, s.before.db, s.t) && !s.r.Thrown?
    ensures |s.below| == |s.targets| && Resolves(s.before.db, RunOf(s.t).value, s.targets)
    ensures s.below == [] <==> NothingToCancel(s.before.db, RunOf(s.t).value)
  {
    if s.below != [] {
      assert s.targets[0] in s.targets && InBlastRadius(s.before.db, [RunOf(s.t).value], s.targets[0]);
    } else {
      NothingCoversNothing(s.before.db, RunOf(s.t).value);
    }
  }

  lemma NothingCoversNothing(db: Db, run: string)
    ensures NothingBelow(db, run) ==> CoversRadius(db, [run], [])
  {
  }

  // ---- What a success says about the tasks below ----

  /** Each target whose cancel succeeded is dealt with when all is done. */
  lemma StepsSettled(env: Env, a: Tables, steps: seq<Step>, b: Tables)
    requires Joined(a, steps, b) && AllSteps(env, steps)
    ensures forall i :: 0 <= i < |steps| && steps[i].r.Succeeded? ==> Settled(b.db, b.log, steps[i].t)
  {
    forall i | 0 <= i < |steps| && steps[i].r.Succeeded?
      ensures Settled(b.db, b.log, steps[i].t)
    {
      AfterStep(env, a, steps, b, i);
      SettledKept(steps[i].after.db, b.db, steps[i].after.log, b.log, steps[i].t);
    }
  }

  /** Targets with one key share their task and their discard. */
  lemma CoveredSettles(before: Db, db: Db, log: seq<Effect>, run: string, targets: seq<Target>)
    requires PlainIds(before) && UniqueIds(before.tasks) && Covered(before, run, targets)
    requires forall i :: 0 <= i < |targets| ==> Settled(db, log, targets[i])
    ensures BelowSettled(before, db, log, run)
  {
    forall t | LiveBelow(before, run, t)
      ensures Handled(db, log, t)
    {
      AgreedIsInTree(before, run, t);
      CoveredTaskSettled(before, db, log, run, targets, TaskTarget(t));
      SettledIsHandled(db, log, t);
    }
  }

  lemma SettledIsHandled(db: Db, log: seq<Effect>, t: Task)
    requires t.state.Some? && Settled(db, log, TaskTarget(t))
    ensures Handled(db, log, t)
  {
  }

  lemma CoveredTaskSettled(before: Db, db: Db, log: seq<Effect>, run: string, targets: seq<Target>, x: Target)
    requires PlainIds(before) && CoversRadius(before, [run], targets) && InBlastRadius(before, [run], x)
    requires forall i :: 0 <= i < |targets| ==> Settled(db, log, targets[i])
    ensures Settled(db, log, x)
  {
    var k := CoveringTarget(before, run, targets, x);
    RadiusIsPlain(before, [run], x);
    RadiusIsPlain(before, [run], targets[k]);
    SettledByKey(db, log, targets[k], x);
  }

  lemma CoveringTarget(db: Db, run: string, targets: seq<Target>, x: Target) returns (k: nat)
    requires CoversRadius(db, [run], targets) && InBlastRadius(db, [run], x)
    ensures k < |targets| && TargetKey(targets[k]) == TargetKey(x) && InBlastRadius(db, [run], targets[k])
  {
    assert HasKey(TargetKey, targets, TargetKey(x));
    k := IndexOf(TargetKey, targets, TargetKey(x));
    assert targets[k] in targets;
  }

  lemma SettledByKey(db: Db, log: seq<Effect>, x: Target, y: Target)
    requires NoNul(x.workflow) && NoNul(x.id) && NoNul(y.workflow) && NoNul(y.id)
    requires TargetKey(x) == TargetKey(y) && Settled(db, log, x)
    ensures Settled(db, log, y)
  {
    SameKeySameTarget(x, y);
    assert Found(db, x) == Found(db, y);
  }

  lemma NothingToSettle(before: Db, db: Db, log: seq<Effect>, run: string)
    requires UniqueIds(before.tasks) && NothingBelow(before, run) && !HierarchiesDisagree(before, [run])
    ensures BelowSettled(before, db, log, run)
  {
    if t :| LiveBelow(before, run, t) {
      AgreedIsInTree(before, run, t);
      assert InBlastRadius(before, [run], TaskTarget(t));
      assert false;
    }
  }

  lemma FannedOut(env: Env, s: Step)
    requires CancelStep(env, s) && FansOut(s.before.rows, s.before.db, s.t) && s.below != []
    ensures Covered(s.before.db, RunOf(s.t).value, s.targets) && WorkedOff(s.before, s.targets, s.below, s.after)
    ensures AllSteps(env, s.below) && s.r == Verdict(Results(s.below))
  {
  }

  lemma AgreementSettles(env: Env, s: Step)
    requires CancelStep(env, s) && FansOut(s.before.rows, s.before.db, s.t) && s.r.Succeeded?
    requires PlainIds(s.before.db) && UniqueIds(s.before.db.tasks)
    requires !HierarchiesDisagree(s.before.db, [RunOf(s.t).value])
    ensures BelowSettled(s.before.db, s.after.db, s.after.log, RunOf(s.t).value)
  {
    var run := RunOf(s.t).value;
    if s.below == [] {
      NothingToSettle(s.before.db, s.after.db, s.after.log, run);
    } else {
      FannedOut(env, s);
      StepsSettleBelow(env, s.before, run, s.targets, s.below, s.after);
    }
  }

  lemma StepsSettleBelow(env: Env, a: Tables, run: string, targets: seq<Target>, steps: seq<Step>, b: Tables)
    requires Covered(a.db, run, targets) && WorkedOff(a, targets, steps, b) && AllSteps(env, steps)
    requires steps != [] && AllSucceeded(Results(steps)) && PlainIds(a.db) && UniqueIds(a.db.tasks)
    ensures BelowSettled(a.db, b.db, b.log, run)
  {
    assert forall i :: 0 <= i < |steps| ==> Results(steps)[i].Succeeded?;
    StepsSettled(env, a, steps, b);
    CoveredSettles(a.db, b.db, b.log, run, targets);
  }

  /** Main result: a cancel that fanned out and reports success leaves a live task below it, in either hierarchy,
      unsettled exactly when the hierarchies disagree and some live task below was unsettled before. */
  lemma SuccessLeavesUnsettled(env: Env, s: Step)
    requires CancelStep(env, s) && FansOut(s.before.rows, s.before.db, s.t) && s.r.Succeeded?
    requires PlainIds(s.before.db) && UniqueIds(s.before.db.tasks)
    ensures var a, b, run := s.before, s.after, RunOf(s.t).value;
      !BelowSettled(a.db, b.db, b.log, run)
      <==> HierarchiesDisagree(a.db, [run]) && !BelowSettled(a.db, a.db, a.log, run)
  {
    var run := RunOf(s.t).value;
    if HierarchiesDisagree(s.before.db, [run]) {
      forall t: Task | t.state.Some?
        ensures Handled(s.after.db, s.after.log, t) <==> Handled(s.before.db, s.before.log, t)
      {
      }
    } else {
      AgreementSettles(env, s);
    }
  }

  /** The same for every live task below, found or not: besides the disagreement, only a task its own target does not
      find can go on. */
  lemma SuccessLetsGoOn(env: Env, s: Step)
    requires CancelStep(env, s) && FansOut(s.before.rows, s.before.db, s.t) && s.r.Succeeded?
    requires PlainIds(s.before.db) && UniqueIds(s.before.db.tasks)
    ensures var a, b, run := s.before, s.after, RunOf(s.t).value;
      SomeGoesOn(a.db, b.db, b.log, run)
      <==> (HierarchiesDisagree(a.db, [run]) && SomeGoesOn(a.db, a.db, a.log, run))
           || SomeUnfoundGoesOn(a.db, b.db, b.log, run)
  {
    var a, b, run := s.before, s.after, RunOf(s.t).value;
    if HierarchiesDisagree(a.db, [run]) {
      DisagreementLeavesAll(env, s);
    } else {
      AgreementSettles(env, s);
      if t :| LiveBelow(a.db, run, t) && !Dealt(b.db, b.log, t) {
        FoundByShape(a.db, b.db, t);
        assert Handled(b.db, b.log, t) && !FindsItself(a.db, t);
      }
    }
  }

  lemma DisagreementLeavesAll(env: Env, s: Step)
    requires CancelStep(env, s) && FansOut(s.before.rows, s.before.db, s.t) && s.r.Succeeded?
    requires HierarchiesDisagree(s.before.db, [RunOf(s.t).value])
    ensures forall t: Task :: t.state.Some? ==>
      (Dealt(s.after.db, s.after.log, t) <==> Dealt(s.before.db, s.before.log, t))
  {
  }

  lemma FoundByShape(a: Db, b: Db, t: Task)
    requires SameShape(a, b) && t.state.Some?
    ensures FindsItself(a, t) <==> FindsItself(b, t)
  {
    LookupShape(a, b, TaskTarget(t));
  }

  /** The cancel of this target wrote a row of its own: for a queued task, or for a live operation row. */
  predicate WritesRow(env: Env, s: Step) {
    if FansOut(s.before.rows, s.before.db, s.t) then s.below == []
    else !IsPrep(s.before.rows, s.t) && CancelsQueued(s.before.rows, s.before.db, env, s.t)
  }

  /** At every target the cancel came to, all the way down: it is dealt with, its row is closed if one was written, and
      where it fanned out the hierarchies disagreed at that point or every task then live below it is dealt with. */
  ghost predicate SettledThroughout(env: Env, s: Step, end: Tables)
    decreases s
  {
    && Settled(end.db, end.log, s.t)
    && (WritesRow(env, s) ==> Cleared(end.rows, s.t))
    && (FansOut(s.before.rows, s.before.db, s.t) ==>
          var run := RunOf(s.t).value;
          HierarchiesDisagree(s.before.db, [run]) || BelowSettled(s.before.db, end.db, end.log, run))
    && forall i :: 0 <= i < |s.below| ==> SettledThroughout(env, s.below[i], end)
  }

  lemma RowStaysClosed(env: Env, s: Step, end: Tables)
    requires CancelStep(env, s) && s.r.Succeeded? && Later(s.after, end) && WritesRow(env, s)
    ensures Cleared(end.rows, s.t)
  {
    ClearedKept(s.after.rows, end.rows, s.t);
  }

  /** Main result: a success holds all the way down, however deep the rows without a task are nested. */
  lemma {:induction false} SuccessIsDeep(env: Env, s: Step, end: Tables)
    requires CancelStep(env, s) && s.r.Succeeded? && PlainIds(s.before.db) && UniqueIds(s.before.db.tasks)
    requires Later(s.after, end)
    ensures SettledThroughout(env, s, end)
    decreases s
  {
    SettledKept(s.after.db, end.db, s.after.log, end.log, s.t);
    if WritesRow(env, s) {
      RowStaysClosed(env, s, end);
    }
    if FansOut(s.before.rows, s.before.db, s.t) {
      if !HierarchiesDisagree(s.before.db, [RunOf(s.t).value]) {
        AgreementSettles(env, s);
        BelowSettledKept(s.before.db, s.after.db, end.db, s.after.log, end.log, RunOf(s.t).value);
      }
      forall i | 0 <= i < |s.below|
        ensures SettledThroughout(env, s.below[i], end)
      {
        FannedOut(env, s);
        StepInside(env, s.before, s.below, s.after, i, end);
        SuccessIsDeep(env, s.below[i], end);
      }
    }
  }

  predicate EndedId(tasks: seq<Task>, id: string) {
    forall i :: 0 <= i < |tasks| && tasks[i].id == id ==> !IsLiveTask(tasks[i])
  }

  /** What was live below a run when the request began is dealt with or has ended, wherever in between the cancel came
      to that run and found its hierarchies in agreement. */
  lemma SettledSinceStart(first: Db, mid: Db, db: Db, log: seq<Effect>, run: string, t: Task)
    requires KeepsStopped(first, mid) && KeepsStopped(mid, db) && UniqueIds(first.tasks)
    requires BelowSettled(mid, db, log, run) && LiveBelow(first, run, t)
    ensures Handled(db, log, t) || EndedId(db.tasks, t.id)
  {
    var i :| 0 <= i < |first.tasks| && first.tasks[i] == t;
    if IsLiveTask(mid.tasks[i]) {
      StillBelow(first, mid, run, i);
      SameHandled(first, mid, db, log, i);
    } else {
      StaysEnded(first, mid, db, i);
    }
  }

  lemma SameHandled(first: Db, mid: Db, db: Db, log: seq<Effect>, i: nat)
    requires SameShape(first, mid) && i < |first.tasks| && first.tasks[i].state.Some? && mid.tasks[i].state.Some?
    requires Handled(db, log, mid.tasks[i])
    ensures Handled(db, log, first.tasks[i])
  {
    assert first.tasks[i].(state := mid.tasks[i].state) == mid.tasks[i];
    LookupByIds(db, TaskTarget(first.tasks[i]), TaskTarget(mid.tasks[i]));
  }

  lemma StaysEnded(first: Db, mid: Db, db: Db, i: nat)
    requires SameShape(first, mid) && KeepsStopped(mid, db) && UniqueIds(first.tasks) && i < |first.tasks|
    requires !IsLiveTask(mid.tasks[i])
    ensures EndedId(db.tasks, first.tasks[i].id)
  {
    ShapeTransitive(first, mid, db);
    forall j | 0 <= j < |db.tasks| && db.tasks[j].id == first.tasks[i].id
      ensures !IsLiveTask(db.tasks[j])
    {
      assert first.tasks[j].(state := db.tasks[j].state) == db.tasks[j];
      assert j == i;
    }
  }

  lemma StillBelow(first: Db, mid: Db, run: string, i: nat)
    requires SameShape(first, mid) && UniqueIds(first.tasks) && i < |first.tasks|
    requires LiveBelow(first, run, first.tasks[i]) && IsLiveTask(mid.tasks[i])
    ensures LiveBelow(mid, run, mid.tasks[i])
  {
    var t, u := first.tasks[i], mid.tasks[i];
    assert t.(state := u.state) == u;
    if LiveTaskBelow(first, [run], t) {
      BackInShape(first.tasks, mid.tasks);
      InTreeInShape(mid.tasks, first.tasks, [run], i);
    } else {
      var r :| ProjectedUnder(first.runs, [run], r) && IsLiveRun(r) && TaskOfRun(first, r.runId) == Some(t);
      FirstAttemptShape(first.attempts, first.tasks, mid.tasks, r.runId);
      ShapeKeepsIds(first, mid);
      SameIdSameTask(mid.tasks, TaskOfRun(mid, r.runId).value, u);
    }
  }

  /** One step among others that all succeeded. */
  lemma StepInside(env: Env, a: Tables, steps: seq<Step>, b: Tables, i: nat, end: Tables)
    requires Joined(a, steps, b) && AllSteps(env, steps) && AllSucceeded(Results(steps)) && i < |steps|
    requires PlainIds(a.db) && UniqueIds(a.db.tasks) && Later(b, end)
    ensures CancelStep(env, steps[i]) && steps[i].r.Succeeded?
    ensures PlainIds(steps[i].before.db) && UniqueIds(steps[i].before.db.tasks)
    ensures Later(steps[i].after, end)
  {
    assert Results(steps)[i].Succeeded?;
    BeforeStep(env, a, steps, b, i);
    AfterStep(env, a, steps, b, i);
    ShapeKeepsIds(a.db, steps[i].before.db);
    ShapeKeepsPlain(a.db, steps[i].before.db);
    LaterTransitive(steps[i].after, b, end);
  }

  /** The whole request: each target's cancel holds all the way down once the last one is done. */
  lemma AllDeep(env: Env, a: Tables, steps: seq<Step>, b: Tables)
    requires Joined(a, steps, b) && AllSteps(env, steps) && AllSucceeded(Results(steps))
    requires PlainIds(a.db) && UniqueIds(a.db.tasks)
    ensures forall i :: 0 <= i < |steps| ==> SettledThroughout(env, steps[i], b)
  {
    forall i | 0 <= i < |steps|
      ensures SettledThroughout(env, steps[i], b)
    {
      StepInside(env, a, steps, b, i, b);
      SuccessIsDeep(env, steps[i], b);
    }
  }

  lemma ShapeKeepsPlain(a: Db, b: Db)
    requires SameShape(a, b) && PlainIds(a)
    ensures PlainIds(b)
  {
    forall t | t in b.tasks
      ensures NoNul(t.workflow) && NoNul(t.itemId)
    {
      var i :| 0 <= i < |b.tasks| && b.tasks[i] == t;
      assert a.tasks[i].(state := b.tasks[i].state) == t && a.tasks[i] in a.tasks;
    }
  }

  lemma StillInShape(shape: Db, a: Db, b: Db)
    requires KeepsStopped(shape, a) && UniqueIds(a.tasks) && KeepsStopped(a, b)
    ensures KeepsStopped(shape, b) && UniqueIds(b.tasks)
  {
    ShapeKeepsIds(a, b);
    ShapeTransitive(shape, a, b);
  }

  lemma NoFailures(results: seq<Result>)
    ensures CountWhere(IsFailure, results) == 0 <==> AllSucceeded(results)
  {
    CountPositive(IsFailure, results);
    if i: nat :| i < |results| && IsFailure(results[i]) {
      assert results[i] in results;
    }
  }

  lemma OneRoot(req: Request, root: Target)
    requires req.targets == [root] && RunOf(root).Some?
    ensures RootRunIds(Base(req)) == [RunOf(root).value]
  {
    var base := Base(req);
    assert base == [ToResolved(req, root)];
    assert base[1..] == [];
  }

  lemma NoTargetsNothingBelow(db: Db, run: string)
    requires Resolves(db, run, [])
    ensures NothingToCancel(db, run)
  {
    if !HierarchiesDisagree(db, [run]) {
      forall x
        ensures !InBlastRadius(db, [run], x)
      {
        HasKeyMeans(TargetKey, [], TargetKey(x));
      }
    }
  }

  ghost function MaxDepth(shape: Db, targets: seq<Target>): nat {
    if targets == [] then 0
    else
      var rest := MaxDepth(shape, targets[1..]);
      if Depth(shape, targets[0]) > rest then Depth(shape, targets[0]) else rest
  }

  lemma {:induction false} DepthWithin(shape: Db, targets: seq<Target>)
    ensures forall x :: x in targets ==> Depth(shape, x) < 1 + MaxDepth(shape, targets)
  {
    if targets != [] {
      DepthWithin(shape, targets[1..]);
      assert targets == [targets[0]] + targets[1..];
    }
  }

  // ---- Where it can go wrong ----

  /** On a cycle the recursion meets its own target again, and nothing has changed: a pending row below itself fans out,
      and whatever its resolution returns, its own key is among it. */
  lemma CycleMeetsItself(rows: seq<TrackerRow>, db: Db, r: Run, targets: seq<Target>)
    requires ProjectedUnder(db.runs, [r.runId], r) && Taskless(db, r)
    requires r.workflow != "" && r.itemId != "" && r.runId != "" && r.status != "running" && !IsPrep(rows, RowTarget(r))
    requires Resolves(db, r.runId, targets)
    ensures FansOut(rows, db, RowTarget(r)) && RunOf(RowTarget(r)) == Some(r.runId)
    ensures HierarchiesDisagree(db, [r.runId]) || HasKey(TargetKey, targets, TargetKey(RowTarget(r)))
    ensures !Acyclic(db)
  {
    assert TasklessRowBelow(db, [r.runId], r);
    assert InBlastRadius(db, [r.runId], RowTarget(r));
    assert EntersRow(db, r.runId, r, r.runId);
    BelowItself(db, r.runId);
  }

  lemma BelowItself(db: Db, x: string)
    requires Enters(db, x, x)
    ensures !Acyclic(db)
  {
    var p := [x];
    assert IsDescent(db, x, p) && p[|p| - 1] == x;
    assert Descends(db, x, x);
  }

  /** A running task whose row and whose own link name different parents. */
  function Child(taskParent: string): Task {
    Task("t", "w", "child-item", Some("child"), Some(taskParent), Some(Running))
  }

  function ChildRow(rowParent: string): Run {
    Run("w", "2026-01-01", "child-item", "child", Some(rowParent), "running")
  }

  function Split(rowParent: string, taskParent: string): Db {
    Db([ChildRow(rowParent)], [Child(taskParent)], [Attempt("child", "t")])
  }

  const CHILD := Child("root")
  const STRAY := Child("elsewhere")
  const COORDINATOR := TrackerRow("w", "root-item", Some("root"), "running", true, false, None)
  const ROOT := Target("w", "root-item", Some("root"), None, None)

  lemma SplitLinks(rowParent: string, taskParent: string, x: string, y: string)
    requires rowParent != ""
    ensures y in RunLinks(Split(rowParent, taskParent).runs)(x) <==> x == rowParent && y == "child"
    ensures y in TaskLinks(Split(rowParent, taskParent).tasks)(x) <==> x == taskParent && y == "child"
  {
    var db := Split(rowParent, taskParent);
    RunLinkMeans(db.runs, x, y);
    TaskLinkMeans(db.tasks, x, y);
    assert db.runs[0] == ChildRow(rowParent) && db.tasks[0] == Child(taskParent);
    assert ChildRow(rowParent) in db.runs && Child(taskParent) in db.tasks;
  }

  lemma NothingEntered(rowParent: string, taskParent: string, x: string, y: string, r: Run, t: Task)
    ensures !EntersRow(Split(rowParent, taskParent), x, r, y) && !EntersTask(Split(rowParent, taskParent), x, t, y)
  {
    TaskOfChild(rowParent, taskParent);
    assert r in Split(rowParent, taskParent).runs ==> r == ChildRow(rowParent);
    assert t in Split(rowParent, taskParent).tasks ==> t == Child(taskParent);
  }

  lemma SplitIsAcyclic(rowParent: string, taskParent: string)
    ensures Acyclic(Split(rowParent, taskParent))
  {
    var db := Split(rowParent, taskParent);
    forall x, y
      ensures !Enters(db, x, y)
    {
      forall r
        ensures !EntersRow(db, x, r, y)
      {
        NothingEntered(rowParent, taskParent, x, y, r, Child(taskParent));
      }
      forall t
        ensures !EntersTask(db, x, t, y)
      {
        NothingEntered(rowParent, taskParent, x, y, ChildRow(rowParent), t);
      }
    }
  }

  lemma TaskOfChild(rowParent: string, taskParent: string)
    ensures TaskOfRun(Split(rowParent, taskParent), "child") == Some(Child(taskParent))
    ensures Split(rowParent, taskParent).runs[0].runId == "child"
    ensures ChildRow(rowParent) in Split(rowParent, taskParent).runs
    ensures Child(taskParent) in Split(rowParent, taskParent).tasks
  {
    var db := Split(rowParent, taskParent);
    assert db.runs[0] == ChildRow(rowParent) && db.tasks[0] == Child(taskParent);
  }

  /** The task is below the row, and its projected row is not. */
  lemma TaskSideDisagrees()
    ensures var db := Split("elsewhere", "root");
      HierarchiesDisagree(db, ["root"]) && LiveTaskBelow(db, ["root"], CHILD)
  {
    ChildBelowRoot();
    ChildNotProjected();
  }

  lemma ChildBelowRoot()
    ensures LiveTaskBelow(Split("elsewhere", "root"), ["root"], CHILD)
  {
    var tasks := Split("elsewhere", "root").tasks;
    TaskOfChild("elsewhere", "root");
    ParentIsRoot(tasks, CHILD);
  }

  lemma ParentIsRoot(tasks: seq<Task>, t: Task)
    requires t in tasks && t.parentRunId == Some("root")
    ensures InTaskTree(tasks, ["root"], t)
  {
    var roots: seq<string> := ["root"];
    assert Present(roots) == roots;
    RootReached(TaskLinks(tasks), roots, "root");
  }

  lemma ChildNotProjected()
    ensures TaskOutsideProjection(Split("elsewhere", "root"), ["root"], CHILD)
  {
    TaskOfChild("elsewhere", "root");
    NoRowBelowRoot();
  }

  /** The task's projected row is below the row, and the task is not. */
  lemma RowSideDisagrees()
    ensures var db := Split("root", "elsewhere");
      HierarchiesDisagree(db, ["root"]) && LiveTaskProjected(db, "root", STRAY)
  {
    StrayProjected();
    StrayOutsideTree();
    TaskOfChild("root", "elsewhere");
  }

  lemma StrayProjected()
    ensures ProjectedUnder(Split("root", "elsewhere").runs, ["root"], ChildRow("root"))
  {
    var db := Split("root", "elsewhere");
    TaskOfChild("root", "elsewhere");
    RootReached(RunLinks(db.runs), ["root"], "root");
  }

  lemma StrayOutsideTree()
    ensures RowOutsideTree(Split("root", "elsewhere"), ["root"], ChildRow("root"))
  {
    TaskOfChild("root", "elsewhere");
    NoTaskBelowRoot();
  }

  lemma NothingReached(next: Links, roots: seq<string>, x: string)
    requires Reached(next, roots, x) && forall r, y :: r in roots ==> y !in next(r)
    ensures x in roots
  {
    ClosedHoldsReached(next, roots, roots, x);
  }

  lemma NoRowBelowRoot()
    ensures forall r :: !ProjectedUnder(Split("elsewhere", "root").runs, ["root"], r)
  {
    var db, roots: seq<string> := Split("elsewhere", "root"), ["root"];
    forall y
      ensures y !in RunLinks(db.runs)("root")
    {
      SplitLinks("elsewhere", "root", "root", y);
    }
    forall r | r in db.runs
      ensures !ProjectedUnder(db.runs, roots, r)
    {
      assert r == ChildRow("elsewhere");
      if Reached(RunLinks(db.runs), roots, "elsewhere") {
        NothingReached(RunLinks(db.runs), roots, "elsewhere");
      }
    }
  }

  lemma NoTaskBelowRoot()
    ensures forall t :: !InTaskTree(Split("root", "elsewhere").tasks, ["root"], t)
  {
    var db, roots: seq<string> := Split("root", "elsewhere"), ["root"];
    assert Present(roots) == roots;
    forall y
      ensures y !in TaskLinks(db.tasks)("root")
    {
      SplitLinks("root", "elsewhere", "root", y);
    }
    forall t | t in db.tasks
      ensures !InTaskTree(db.tasks, roots, t)
    {
      assert t == STRAY;
      if Reached(TaskLinks(db.tasks), roots, "elsewhere") {
        NothingReached(TaskLinks(db.tasks), roots, "elsewhere");
      }
    }
  }

  lemma SplitFansOut(rowParent: string, taskParent: string)
    ensures FansOut([COORDINATOR], Split(rowParent, taskParent), ROOT)
    ensures Latest([COORDINATOR], ROOT) == Some(COORDINATOR)
  {
    var db := Split(rowParent, taskParent);
    assert db.attempts[0].runId != "root" && db.attempts[1..] == [];
  }

  lemma SplitIsReady(env: Env, rowParent: string, taskParent: string)
    requires TargetKey(ROOT) !in env.emitFails && HierarchiesDisagree(Split(rowParent, taskParent), ["root"])
    requires rowParent in ["root", "elsewhere"] && taskParent in ["root", "elsewhere"]
    ensures DisagreesAndClears([COORDINATOR], Split(rowParent, taskParent), env, ROOT)
  {
    SplitIsAcyclic(rowParent, taskParent);
    SplitFansOut(rowParent, taskParent);
    OneTask(Child(taskParent));
  }

  lemma OneTask(t: Task)
    requires t.state.Some?
    ensures StatesKnown([t]) && UniqueIds([t])
  {
  }

  /** Clearing the row has done nothing about the task. */
  lemma SplitRunsOn(rowParent: string, taskParent: string, log: seq<Effect>)
    requires log == [Terminalized(TargetKey(ROOT))]
    ensures !Handled(Split(rowParent, taskParent), log, Child(taskParent))
  {
    TaskOfChild(rowParent, taskParent);
    assert !IsStopped(Split(rowParent, taskParent).tasks[0]);
  }

  /** A live operation row without a task, whose hierarchies disagree, where nothing the recursion enters lies below
      itself. */
  ghost predicate DisagreesAndClears(rows: seq<TrackerRow>, db: Db, env: Env, t: Target) {
    && FansOut(rows, db, t) && HierarchiesDisagree(db, [RunOf(t).value])
    && Terminalizable(rows, env, t) && StatesKnown(db.tasks) && UniqueIds(db.tasks) && Acyclic(db)
  }

  /** Whatever goes on below, such a row is reported cancelled and no task is touched. */
  lemma DisagreementClears(env: Env, s: Step)
    requires DisagreesAndClears(s.before.rows, s.before.db, env, s.t) && CancelStep(env, s)
    ensures s.r == Succeeded && s.after.db == s.before.db
    ensures s.after.log == s.before.log + [Terminalized(TargetKey(s.t))]
  {
  }

  // ---- A task its own target does not find ----

  /** A queued task whose run has no attempt, and the operation row of that run. */
  const ORPHAN := Task("t", "w", "child-item", Some("child"), Some("root"), Some(Queued))
  const UNATTEMPTED := Db([], [ORPHAN], [])
  const CHILD_OPERATION := TrackerRow("w", "child-item", Some("child"), "running", true, false, None)
  const TWO_OPERATIONS := [COORDINATOR, CHILD_OPERATION]

  lemma OrphanLinks(x: string, y: string)
    ensures y in TaskLinks(UNATTEMPTED.tasks)(x) <==> x == "root" && y == "child"
  {
    TaskLinkMeans(UNATTEMPTED.tasks, x, y);
    assert UNATTEMPTED.tasks[0] == ORPHAN;
  }

  lemma OnlyOrphanBelow(x: string, t: Task)
    ensures LiveTaskBelow(UNATTEMPTED, [x], t) <==> x == "root" && t == ORPHAN
  {
    var tasks, roots: seq<string> := UNATTEMPTED.tasks, Present([x]);
    assert tasks[0] == ORPHAN;
    if x == "root" {
      ParentIsRoot(tasks, ORPHAN);
    } else if Reached(TaskLinks(tasks), roots, "root") {
      forall r, y | r in roots
        ensures y !in TaskLinks(tasks)(r)
      {
        OrphanLinks(r, y);
      }
      NothingReached(TaskLinks(tasks), roots, "root");
    }
  }

  lemma OrphanRadius(x: string, u: Target)
    ensures !HierarchiesDisagree(UNATTEMPTED, [x])
    ensures InBlastRadius(UNATTEMPTED, [x], u) <==> x == "root" && u == TaskTarget(ORPHAN)
  {
    forall t
      ensures LiveTaskBelow(UNATTEMPTED, [x], t) <==> x == "root" && t == ORPHAN
    {
      OnlyOrphanBelow(x, t);
    }
  }

  lemma OrphanIsEntered(x: string, y: string)
    ensures Enters(UNATTEMPTED, x, y) ==> x == "root" && y == "child"
  {
    if t :| EntersTask(UNATTEMPTED, x, t, y) {
      OnlyOrphanBelow(x, t);
    }
  }

  lemma OrphanDescent(x: string, p: seq<string>)
    requires IsDescent(UNATTEMPTED, x, p)
    ensures x == "root" && p[|p| - 1] == "child"
  {
    OrphanIsEntered(x, p[0]);
    if |p| > 1 {
      OrphanIsEntered(p[0], p[1]);
    }
  }

  lemma OrphanIsAcyclic()
    ensures Acyclic(UNATTEMPTED)
  {
    forall x
      ensures !Descends(UNATTEMPTED, x, x)
    {
      if p :| IsDescent(UNATTEMPTED, x, p) && p[|p| - 1] == x {
        OrphanDescent(x, p);
      }
    }
  }

  lemma OrphanFansOut()
    ensures FansOut(TWO_OPERATIONS, UNATTEMPTED, ROOT) && FansOut(TWO_OPERATIONS, UNATTEMPTED, TaskTarget(ORPHAN))
    ensures Latest(TWO_OPERATIONS, TaskTarget(ORPHAN)) == Some(CHILD_OPERATION)
    ensures !FindsItself(UNATTEMPTED, ORPHAN)
  {
    assert TWO_OPERATIONS[..1] == [COORDINATOR];
  }

  /** Nothing is below the orphan's run, so its operation row is cleared and the task stays as it is. */
  lemma OrphanStep(env: Env, s: Step)
    requires CancelStep(env, s) && s.t == TaskTarget(ORPHAN) && TargetKey(TaskTarget(ORPHAN)) !in env.emitFails
    requires s.before.db == UNATTEMPTED && s.before.rows == TWO_OPERATIONS
    ensures s.r == Succeeded && s.after.db == UNATTEMPTED
    ensures s.after.log == s.before.log + [Terminalized(TargetKey(s.t))]
  {
    OrphanFansOut();
    OneTask(ORPHAN);
    if s.below != [] {
      FannedOut(env, s);
      NoTarget(s.targets);
    }
  }

  lemma NoTarget(targets: seq<Target>)
    requires Covered(UNATTEMPTED, "child", targets)
    ensures targets == []
  {
    if targets != [] {
      var u := targets[0];
      assert u in targets;
      OrphanRadius("child", u);
    }
  }

  /** The root's only target is the orphan's, and it succeeds. */
  lemma OrphanRootStep(env: Env, s: Step)
    requires CancelStep(env, s) && s.t == ROOT && TargetKey(TaskTarget(ORPHAN)) !in env.emitFails
    requires s.before == Tables(UNATTEMPTED, TWO_OPERATIONS, [])
    ensures s.r == Succeeded && s.after.db == UNATTEMPTED
    ensures s.after.log == [Terminalized(TargetKey(TaskTarget(ORPHAN)))]
  {
    OrphanFansOut();
    OneTask(ORPHAN);
    OrphanRadius("root", TaskTarget(ORPHAN));
    if s.below != [] {
      FannedOut(env, s);
      OneTarget(s.targets);
      OrphanOnly(env, s.before, s.targets, s.below, s.after);
    }
  }

  lemma OrphanOnly(env: Env, a: Tables, targets: seq<Target>, steps: seq<Step>, b: Tables)
    requires a == Tables(UNATTEMPTED, TWO_OPERATIONS, []) && TargetKey(TaskTarget(ORPHAN)) !in env.emitFails
    requires (targets == [TaskTarget(ORPHAN)] || targets == []) && steps != []
    requires WorkedOff(a, targets, steps, b) && AllSteps(env, steps)
    ensures Verdict(Results(steps)) == Succeeded
    ensures b.db == UNATTEMPTED && b.log == [Terminalized(TargetKey(TaskTarget(ORPHAN)))]
  {
    OrphanStep(env, steps[0]);
  }

  lemma OneTarget(targets: seq<Target>)
    requires Covered(UNATTEMPTED, "root", targets)
    ensures targets == [TaskTarget(ORPHAN)] || targets == []
  {
    forall i | 0 <= i < |targets|
      ensures targets[i] == TaskTarget(ORPHAN)
    {
      OrphanRadius("root", targets[i]);
      assert targets[i] in targets;
    }
    OneKey(targets, TaskTarget(ORPHAN));
  }

  lemma OneKey(targets: seq<Target>, u: Target)
    requires KeysDistinct(TargetKey, targets) && forall i :: 0 <= i < |targets| ==> targets[i] == u
    ensures |targets| <= 1
  {
    if |targets| > 1 {
      KeysApart(targets, 0, 1);
    }
  }

  lemma KeysApart(targets: seq<Target>, i: nat, j: nat)
    requires KeysDistinct(TargetKey, targets) && i < j < |targets|
    ensures TargetKey(targets[i]) != TargetKey(targets[j])
  {
  }

  /** The cancelled task is still what the target finds, and it is cancelled. */
  lemma CancelledIsFound(a: Db, b: Db, env: Env, t: Target)
    requires HasTask(a, t) && StateOf(a, t) == Queued && b == AfterCancel(a, env, Lookup(a, t).value.id)
    requires SameShape(a, b)
    ensures HasTask(b, t) && StateOf(b, t) == Cancelled
  {
    LookupShape(a, b, t);
    FoundShape(a, b, t);
    var u := Lookup(b, t).value;
    var i :| 0 <= i < |b.tasks| && b.tasks[i] == u;
    assert a.tasks[i].(state := b.tasks[i].state) == u;
  }

  lemma FoundShape(a: Db, b: Db, t: Target)
    requires SameShape(a, b)
    ensures SameTask(Found(a, t), Found(b, t))
  {
    if RunOf(t).Some? {
      FirstAttemptShape(a.attempts, a.tasks, b.tasks, RunOf(t).value);
    } else {
      LastTaskShape(a.tasks, b.tasks, t.workflow, t.id);
    }
  }

  lemma StepOfBelow(env: Env, s: Step)
    requires RunOf(s.t).Some? && s.below != [] && AllSteps(env, s.below) && s.r == Verdict(Results(s.below))
    requires Covered(s.before.db, RunOf(s.t).value, s.targets) && WorkedOff(s.before, s.targets, s.below, s.after)
    ensures AllOrNothing(env, s)
  {
  }

  lemma RadiusBound(shape: Db, db: Db, root: Target, targets: seq<Target>)
    requires KeepsStopped(shape, db) && Acyclic(shape) && RunOf(root).Some? && Lookup(shape, root).None?
    requires targets != [] && Resolves(db, RunOf(root).value, targets)
    ensures Covered(db, RunOf(root).value, targets)
    ensures forall x :: x in targets ==> Depth(shape, x) < Depth(shape, root)
  {
    forall x | x in targets
      ensures Depth(shape, x) < Depth(shape, root)
    {
      RadiusIsLower(shape, db, root, x);
    }
  }

  class Control {
    var db: Db
    var rows: seq<TrackerRow>
    var log: seq<Effect>
    const env: Env

    constructor (db: Db, rows: seq<TrackerRow>, env: Env)
      ensures this.db == db && this.rows == rows && this.env == env && log == []
    {
      this.db, this.rows, this.env, this.log := db, rows, env, [];
    }

    /** The operator-cancel row: `failed`, inheriting from the newest row; it may throw. */
    method EmitCancelRow(t: Target) returns (ok: bool)
      modifies this`rows
      ensures ok <==> CanWriteRow(old(rows), env, t)
      ensures rows == if ok then old(rows) + [CancelRow(old(rows), t)] else old(rows)
    {
      var prior := Latest(rows, t);
      ok := prior.Some? && TargetKey(t) !in env.emitFails;
      if ok {
        rows := rows + [prior.value.(runId := RunOf(t), status := "failed", step := Some("cancelled"))];
      }
    }

    /** Cancel a task that no worker has claimed yet. */
    method CancelQueued(t: Target) returns (r: Result)
      modifies this
      ensures KeepsStopped(old(db), db) && log == old(log)
      ensures r == Refused(BadRequest) <==> t.workflow == "" || t.id == ""
      ensures r == Refused(TaskNotFound) <==>
        t.workflow != "" && t.id != "" && !LookupThrows(old(db), t) && Lookup(old(db), t).None?
      ensures r == Refused(NoPriorRow) <==>
        HasTask(old(db), t) && StateOf(old(db), t) == Queued && Latest(old(rows), Audited(old(db), t)).None?
      ensures r.Thrown? && !LookupThrows(old(db), t) ==>
        HasTask(old(db), t) && StateOf(old(db), t) == Queued && TargetKey(Audited(old(db), t)) in env.emitFails
      ensures r == Refused(WrongState) <==>
        HasTask(old(db), t) && StateOf(old(db), t) in {Claimed, Running, CancelRequested, Cancelling}
      ensures r == Refused(AlreadyTerminal) <==>
        HasTask(old(db), t) && StateOf(old(db), t) in {Done, Failed, Cancelled}
      ensures r == Refused(CannotCancel) <==>
        HasTask(old(db), t) && StateOf(old(db), t) in {WaitingDependencies, Blocked}
      ensures r.Succeeded? ==> HasTask(old(db), t)
      ensures r.Succeeded? ==>
        StateOf(old(db), t) == Queued && CancelledAlone(old(db), db, env, Lookup(old(db), t).value.id)
      ensures r.Refused? ==> db == old(db)
      ensures !r.Succeeded? ==> rows == old(rows)
      ensures r.Succeeded? <==> CancelsQueued(old(rows), old(db), env, t)
      ensures r.Succeeded? ==> RowClosed(old(rows), rows, Audited(old(db), t)) && Cleared(rows, t)
      ensures r.Succeeded? ==> |rows| > 0 && CarriesRun(rows[|rows| - 1], t, Lookup(old(db), t).value)
      ensures r.Succeeded? ==> HasTask(db, t) && StateOf(db, t) == Cancelled
      ensures r.Succeeded? ==> rows == old(rows) + [CancelRow(old(rows), Audited(old(db), t))]
      ensures r.Succeeded? ==> db == AfterCancel(old(db), env, Lookup(old(db), t).value.id)
      ensures r.Succeeded? ==> StoppedId(db.tasks, Lookup(old(db), t).value.id)
    {
      if t.workflow == "" || t.id == "" { return Refused(BadRequest); }
      if LookupThrows(db, t) { return Thrown; }
      var task := Lookup(db, t);
      if task.None? { return Refused(TaskNotFound); }
      var state := task.value.state.value;
      if InHand(state) { return Refused(WrongState); }
      if IsTerminal(state) { return Refused(AlreadyTerminal); }
      if state != Queued { return Refused(CannotCancel); }
      if Latest(rows, Audited(db, t)).None? { return Refused(NoPriorRow); }
      r := CancelWithRow(t);
    }

    /** Cancel the task, then write its row: a row that cannot be written leaves the task cancelled and throws. */
    method CancelWithRow(t: Target) returns (r: Result)
      requires HasTask(db, t) && StateOf(db, t) == Queued && Latest(rows, Audited(db, t)).Some?
      modifies this
      ensures KeepsStopped(old(db), db) && log == old(log) && !r.Refused?
      ensures r.Succeeded? <==> CanWriteRow(old(rows), env, Audited(old(db), t))
      ensures r.Succeeded? ==> rows == old(rows) + [CancelRow(old(rows), Audited(old(db), t))]
      ensures !r.Succeeded? ==> rows == old(rows)
      ensures r.Succeeded? ==> RowClosed(old(rows), rows, Audited(old(db), t)) && Cleared(rows, t)
      ensures r.Succeeded? ==> |rows| > 0 && CarriesRun(rows[|rows| - 1], t, Lookup(old(db), t).value)
      ensures db == AfterCancel(old(db), env, Lookup(old(db), t).value.id)
      ensures CancelledAlone(old(db), db, env, Lookup(old(db), t).value.id)
      ensures StoppedId(db.tasks, Lookup(old(db), t).value.id) && HasTask(db, t) && StateOf(db, t) == Cancelled
    {
      var audited := Audited(db, t);
      MarkCancelled(Lookup(db, t).value.id);
      CancelledIsFound(old(db), db, env, t);
      CancelRowCloses(rows, audited);
      var emitted := EmitCancelRow(audited);
      r := if emitted then Succeeded else Thrown;
    }

    /** Cancel the task, and let the tasks waiting for it move on. */
    method MarkCancelled(id: string)
      modifies this`db
      ensures db == AfterCancel(old(db), env, id) && KeepsStopped(old(db), db) && StoppedId(db.tasks, id)
      ensures CancelledAlone(old(db), db, env, id)
    {
      CancelsAlone(db, env, id);
      var cancelled := SetState(db.tasks, id, Cancelled);
      db := db.(tasks := Released(cancelled, env.release(cancelled, id)));
    }

    /** Ask the worker that owns the task to stop; without a task, abort the run in this process. */
    method CancelRunning(t: Target) returns (r: Result)
      requires RunOf(t).Some? && UniqueIds(db.tasks)
      modifies this
      ensures KeepsStopped(old(db), db) && old(log) <= log && rows == old(rows)
      ensures r != Refused(TaskNotFound)
      ensures r == Refused(WrongState) <==> HasTask(old(db), t) && StateOf(old(db), t) == Queued
      ensures r == Refused(AlreadyTerminal) <==>
        HasTask(old(db), t) && StateOf(old(db), t) in {Done, Failed, Cancelled}
      ensures r.Succeeded? && HasTask(old(db), t) ==> AskedAlone(old(db), db, Lookup(old(db), t).value)
      ensures r == Refused(BadRequest) <==> t.workflow == "" || t.id == ""
      ensures r.Thrown? <==> t.workflow != "" && t.id != "" && LookupThrows(old(db), t)
      ensures r == Refused(NoWorker) <==>
        && HasTask(old(db), t) && StateOf(old(db), t) in {Claimed, Running, CancelRequested, Cancelling}
        && Lookup(old(db), t).value.id !in env.owned
      ensures r in {Refused(Unverified), Refused(NotOwned)} <==>
        && t.workflow != "" && t.id != "" && !LookupThrows(old(db), t) && Lookup(old(db), t).None?
        && t.runId.value !in env.registered
      ensures r == Refused(NotOwned) ==> Latest(rows, t).None? || Latest(rows, t).value.status != "running"
      ensures r == Refused(Unverified) ==> Latest(rows, t).Some? && Latest(rows, t).value.status == "running"
      ensures !r.Succeeded? ==> db == old(db) && log == old(log)
      ensures r.Succeeded? <==> AsksWorker(old(db), env, t) || HoldsHandle(old(db), env, t)
      ensures r.Succeeded? && HasTask(old(db), t) ==>
        StoppedId(db.tasks, Lookup(old(db), t).value.id) && log == old(log)
      ensures r.Succeeded? && !HasTask(old(db), t) ==> Lookup(db, t).None? && db == old(db)
      ensures r.Succeeded? && !HasTask(old(db), t) ==>
        log == old(log) + [InProcess(RunOf(t).value)] && RunOf(t).value in env.registered
    {
      if t.workflow == "" || t.id == "" { return Refused(BadRequest); }
      if LookupThrows(db, t) { return Thrown; }
      var task := Lookup(db, t);
      if task.Some? {
        var state := task.value.state.value;
        if state == Queued { return Refused(WrongState); }
        if state == WaitingDependencies || state == Blocked { return Refused(CannotCancel); }
        if IsTerminal(state) { return Refused(AlreadyTerminal); }
        if task.value.id !in env.owned { return Refused(NoWorker); }
        r := RequestCancel(task.value);
        return;
      }
      if RunOf(t).value in env.registered {
        log := log + [InProcess(RunOf(t).value)];
        return Succeeded;
      }
      var latest := Latest(rows, t);
      r := Refused(if latest.Some? && latest.value.status == "running" then Unverified else NotOwned);
    }

    /** An already requested cancel is accepted again; a claimed or running task is asked to stop. */
    method RequestCancel(task: Task) returns (r: Result)
      requires task.state.Some? && task.state.value in {Claimed, Running, CancelRequested, Cancelling}
      requires UniqueIds(db.tasks) && task in db.tasks
      modifies this`db
      ensures r == Succeeded && KeepsStopped(old(db), db) && StoppedId(db.tasks, task.id)
      ensures AskedAlone(old(db), db, task)
    {
      if task.state.value != CancelRequested && task.state.value != Cancelling {
        db := db.(tasks := SetState(db.tasks, task.id, CancelRequested));
      }
      r := Succeeded;
    }

    /** The target's status only picks which handler goes first; each hands the other what it cannot do itself. */
    method CancelTarget(t: Target) returns (r: Result)
      requires UniqueIds(db.tasks)
      modifies this
      ensures KeepsStopped(old(db), db) && old(log) <= log
      ensures r == Refused(TaskNotFound) <==> HasNoTask(old(db), t)
      ensures r == Refused(TaskNotFound) ==> db == old(db) && rows == old(rows) && log == old(log)
      ensures r.Succeeded? <==> CancelsDirectly(old(rows), old(db), env, t)
      ensures r.Succeeded? ==> Settled(db, log, t)
      ensures r.Succeeded? && Lookup(old(db), t).None? ==> InProcess(RunOf(t).value) in log
      ensures RowsGrow(old(rows), rows)
      ensures r.Succeeded? && CancelsQueued(old(rows), old(db), env, t) ==> Cleared(rows, t)
    {
      if t.status == Some(AsRunning) {
        if RunOf(t).None? { return Refused(BadRequest); }
        r := CancelRunning(t);
        if r == Refused(WrongState) {
          r := CancelQueued(t);
        }
      } else {
        r := CancelQueued(t);
        if r == Refused(WrongState) && RunOf(t).Some? {
          r := CancelRunning(t);
        }
      }
      LookupShape(old(db), db, t);
    }

    /** Discard the OCR session a preparation row stands for. */
    method DiscardPrep(t: Target) returns (r: Result)
      modifies this`log
      ensures r.Succeeded? <==> TargetKey(t) in env.discards
      ensures log == if r.Succeeded? then old(log) + [Discarded(TargetKey(t))] else old(log)
    {
      if TargetKey(t) in env.discards {
        log := log + [Discarded(TargetKey(t))];
        return Succeeded;
      }
      r := Refused(DiscardFailed);
    }

    /** Clear the display row of an operation that has nothing left to cancel. */
    method TerminalizeStrandedCoordinator(t: Target) returns (ok: bool)
      modifies this`rows, this`log
      ensures ok <==> Terminalizable(old(rows), env, t)
      ensures ok <==>
        Latest(old(rows), t).Some? && IsLiveOperation(Latest(old(rows), t).value) && TargetKey(t) !in env.emitFails
      ensures ok ==>
        log == old(log) + [Terminalized(TargetKey(t))] && rows == old(rows) + [CancelRow(old(rows), t)]
      ensures ok ==> RowClosed(old(rows), rows, t) && !Terminalizable(rows, env, t)
      ensures !ok ==> rows == old(rows) && log == old(log)
    {
      var prior := Latest(rows, t);
      if prior.Some? {
        CancelRowCloses(rows, t);
      }
      if prior.None? || !prior.value.operation || TerminalStatus(prior.value.status) { return false; }
      ok := EmitCancelRow(t);
      if ok {
        log := log + [Terminalized(TargetKey(t))];
      }
    }

    function Now(): Tables
      reads this
    {
      Tables(db, rows, log)
    }

    /** Cancel everything the tree resolution finds below a root, one after another. */
    method CancelDescendants(ghost shape: Db, root: Target)
      returns (results: seq<Result>, thrown: bool, ghost targets: seq<Target>, ghost steps: seq<Step>)
      requires KeepsStopped(shape, db) && Acyclic(shape) && UniqueIds(db.tasks)
      requires RunOf(root).Some? && Lookup(shape, root).None?
      modifies this
      decreases Depth(shape, root), 2
      ensures results == Results(steps) && AllSteps(env, steps) && Later(old(Now()), Now())
      ensures results == [] ==> Now() == old(Now()) && targets == []
      ensures results == [] ==>
        if thrown then !StatesKnown(old(db).tasks) else NothingToCancel(old(db), RunOf(root).value)
      ensures results != [] ==> thrown == results[|results| - 1].Thrown?
      ensures results != [] ==>
        Covered(old(db), RunOf(root).value, targets) && WorkedOff(old(Now()), targets, steps, Now())
    {
      results, thrown, targets, steps := [], false, [], [];
      var resolved := ResolveBelow(root);
      if resolved.None? { return [], true, [], []; }
      if |resolved.value| == 0 {
        NoTargetsNothingBelow(db, RunOf(root).value);
        return;
      }
      targets := resolved.value;
      RadiusBound(shape, db, root, resolved.value);
      results, steps := CancelEach(shape, resolved.value, Depth(shape, root));
      thrown := results[|results| - 1].Thrown?;
    }

    /** The tree resolution below a root; a refusal counts as no targets, and a task without a state throws. */
    method ResolveBelow(root: Target) returns (targets: Option<seq<Target>>)
      requires RunOf(root).Some?
      ensures targets.None? ==> !StatesKnown(db.tasks)
      ensures targets.Some? ==> Resolves(db, RunOf(root).value, targets.value)
    {
      var req := Request(true, true, "", None, [root]);
      OneRoot(req, root);
      var o := ResolveActionTargets(req, Some(db));
      if o.CorruptTask? { return None; }
      targets := Some(if o.Targets? then o.targets else []);
    }

    /** One target after another, until one throws. */
    method CancelEach(ghost shape: Db, targets: seq<Target>, ghost bound: nat)
      returns (results: seq<Result>, ghost steps: seq<Step>)
      requires KeepsStopped(shape, db) && Acyclic(shape) && UniqueIds(db.tasks)
      requires forall x :: x in targets ==> Depth(shape, x) < bound
      modifies this
      decreases bound, 0
      ensures Later(old(Now()), Now()) && results == Results(steps) && AllSteps(env, steps)
      ensures WorkedOff(old(Now()), targets, steps, Now())
    {
      results, steps := [], [];
      for i := 0 to |targets|
        invariant Later(old(Now()), Now()) && KeepsStopped(shape, db) && UniqueIds(db.tasks)
        invariant |steps| == i && results == Results(steps) && AllSteps(env, steps)
        invariant InTurn(targets, steps) && Joined(old(Now()), steps, Now())
        invariant forall k :: 0 <= k < i ==> !steps[k].r.Thrown?
      {
        ghost var before := Now();
        var r;
        ghost var s;
        r, s := CancelResolved(shape, targets[i]);
        StepAdded(env, old(Now()), targets, steps, s);
        StillInShape(shape, before.db, db);
        LaterTransitive(old(Now()), before, Now());
        results, steps := results + [r], steps + [s];
        if r.Thrown? {
          return;
        }
      }
    }

    /** Main result. A target with a task is cancelled through it; without one it succeeds only if all below it did,
        or, with nothing below, if it was a live operation row that could be cleared. When the hierarchies disagree
        the refusal counts as nothing below. */
    method CancelResolved(ghost shape: Db, t: Target) returns (r: Result, ghost s: Step)
      requires KeepsStopped(shape, db) && Acyclic(shape) && UniqueIds(db.tasks)
      modifies this
      decreases Depth(shape, t), 4
      ensures s.t == t && s.r == r && s.before == old(Now()) && s.after == Now()
      ensures CancelStep(env, s)
    {
      if IsPrep(rows, t) {
        r := DiscardPrep(t);
        s := Step(t, r, old(Now()), Now(), [], []);
        return;
      }
      r := CancelTarget(t);
      if r != Refused(TaskNotFound) || RunOf(t).None? {
        s := Step(t, r, old(Now()), Now(), [], []);
        return;
      }
      LookupShape(shape, db, t);
      r, s := CancelBelow(shape, t);
      LookupShape(old(db), db, t);
    }

    method CancelBelow(ghost shape: Db, t: Target) returns (r: Result, ghost s: Step)
      requires KeepsStopped(shape, db) && Acyclic(shape) && UniqueIds(db.tasks)
      requires RunOf(t).Some? && Lookup(shape, t).None?
      modifies this
      decreases Depth(shape, t), 3
      ensures s.t == t && s.r == r && s.before == old(Now()) && s.after == Now()
      ensures Later(s.before, s.after) && AllOrNothing(env, s)
    {
      var below, thrown;
      ghost var targets, steps;
      below, thrown, targets, steps := CancelDescendants(shape, t);
      if |below| > 0 {
        r := Conclude(below);
        s := Step(t, r, old(Now()), Now(), targets, steps);
        StepOfBelow(env, s);
      } else if thrown {
        r := Thrown;
        s := Step(t, r, old(Now()), Now(), [], []);
      } else {
        r, s := ClearStranded(t);
      }
    }

    /** Nothing to cancel below: the row itself is cleared, or reported missing. */
    method ClearStranded(t: Target) returns (r: Result, ghost s: Step)
      requires RunOf(t).Some? && NothingToCancel(db, RunOf(t).value)
      modifies this
      ensures s.t == t && s.r == r && s.before == old(Now()) && s.after == Now()
      ensures Later(s.before, s.after) && AllOrNothing(env, s)
    {
      var cleared := TerminalizeStrandedCoordinator(t);
      r := if cleared then Succeeded else Refused(TaskNotFound);
      s := Step(t, r, old(Now()), Now(), [], []);
    }

    /** A throw goes on up; otherwise every failure counts. */
    method Conclude(below: seq<Result>) returns (r: Result)
      requires below != []
      ensures r == Verdict(below)
    {
      if below[|below| - 1].Thrown? {
        return Thrown;
      }
      var failed := CountWhere(IsFailure, below);
      NoFailures(below);
      r := if failed == 0 then Succeeded else Refused(DescendantsLive(failed, |below|));
    }

    /** One request: every resolved target in turn, until one throws; ok only when each one is, and then all the way
        down. */
    method PerformCancel(ghost shape: Db, targets: seq<Target>)
      returns (ok: bool, results: seq<Result>, ghost steps: seq<Step>)
      requires KeepsStopped(shape, db) && Acyclic(shape) && UniqueIds(db.tasks)
      modifies this
      ensures Later(old(Now()), Now()) && results == Results(steps) && AllSteps(env, steps)
      ensures WorkedOff(old(Now()), targets, steps, Now())
      ensures ok <==> results != [] && AllSucceeded(results)
      ensures ok ==> |results| == |targets|
      ensures ok ==> forall i :: 0 <= i < |targets| ==> Settled(db, log, targets[i])
      ensures ok && PlainIds(old(db)) ==> forall i :: 0 <= i < |steps| ==> SettledThroughout(env, steps[i], Now())
    {
      DepthWithin(shape, targets);
      results, steps := CancelEach(shape, targets, 1 + MaxDepth(shape, targets));
      NoFailures(results);
      ok := |results| > 0 && CountWhere(IsFailure, results) == 0;
      if ok {
        StepsSettled(env, old(Now()), steps, Now());
        if PlainIds(old(db)) {
          AllDeep(env, old(Now()), steps, Now());
        }
      }
    }
  }

  /** What was cancelled once is refused the second time: the task has ended, and the row is closed. */
  method CancelTwice(control: Control, t: Target) returns (first: Result, second: Result)
    modifies control
    ensures first.Succeeded? ==> second == Refused(AlreadyTerminal)
  {
    first := control.CancelQueued(t);
    second := control.CancelQueued(t);
  }

  method TerminalizeTwice(control: Control, t: Target) returns (first: bool, second: bool)
    modifies control
    ensures first ==> !second
  {
    first := control.TerminalizeStrandedCoordinator(t);
    second := control.TerminalizeStrandedCoordinator(t);
  }

  method CancelDespiteDisagreement(rows: seq<TrackerRow>, db: Db, env: Env, t: Target)
    returns (r: Result, after: Db, log: seq<Effect>)
    requires DisagreesAndClears(rows, db, env, t)
    ensures r == Succeeded && after == db && log == [Terminalized(TargetKey(t))]
  {
    var control := new Control(db, rows, env);
    ghost var s;
    r, s := control.CancelResolved(db, t);
    DisagreementClears(env, s);
    after, log := control.db, control.log;
  }

  /** An instance: a running task below the row, which the projection puts under another run. The cancel clears the row,
      reports success, and the task goes on. */
  method DisagreementIsReportedCancelled(env: Env) returns (r: Result, after: Db, log: seq<Effect>)
    requires TargetKey(ROOT) !in env.emitFails
    ensures r == Succeeded && CHILD.state == Some(Running)
    ensures LiveTaskBelow(after, ["root"], CHILD) && !Handled(after, log, CHILD)
  {
    TaskSideDisagrees();
    SplitIsReady(env, "elsewhere", "root");
    r, after, log := CancelDespiteDisagreement([COORDINATOR], Split("elsewhere", "root"), env, ROOT);
    SplitRunsOn("elsewhere", "root", log);
  }

  /** The mirror image: the projection puts the running task below the row, and its own parent link does not. */
  method ProjectionAloneIsReportedCancelled(env: Env) returns (r: Result, after: Db, log: seq<Effect>)
    requires TargetKey(ROOT) !in env.emitFails
    ensures r == Succeeded && STRAY.state == Some(Running)
    ensures LiveTaskProjected(after, "root", STRAY) && !Handled(after, log, STRAY)
  {
    RowSideDisagrees();
    SplitIsReady(env, "root", "elsewhere");
    r, after, log := CancelDespiteDisagreement([COORDINATOR], Split("root", "elsewhere"), env, ROOT);
    SplitRunsOn("root", "elsewhere", log);
  }

  /** An instance: the run of a queued task has no attempt, so its target is taken for a row without a task. The cancel
      clears both rows and reports success, and the task is still queued. */
  method UnfoundTaskIsReportedCancelled(env: Env) returns (r: Result, after: Db, log: seq<Effect>)
    requires TargetKey(TaskTarget(ORPHAN)) !in env.emitFails
    ensures r == Succeeded && ORPHAN.state == Some(Queued) && !HierarchiesDisagree(after, ["root"])
    ensures LiveTaskBelow(after, ["root"], ORPHAN) && !Dealt(after, log, ORPHAN)
  {
    OrphanIsAcyclic();
    OneTask(ORPHAN);
    var control := new Control(UNATTEMPTED, TWO_OPERATIONS, env);
    ghost var s;
    r, s := control.CancelResolved(UNATTEMPTED, ROOT);
    OrphanRootStep(env, s);
    OnlyOrphanBelow("root", ORPHAN);
    OrphanRadius("root", ROOT);
    after, log := control.db, control.log;
    assert !IsStopped(UNATTEMPTED.tasks[0]);
  }
}
