/** Operator deletes: which runs one request hides, and which tasks may forbid it. */
module DeleteClosure {
  import opened Common
  import opened KeyedList
  import opened RunTree
  import opened TaskStore

  /** A run to hide; without a run id, every run of the item. */
  datatype DeleteTarget = DeleteTarget(workflow: string, id: string, date: string, runId: Option<string>)

  /** One complete row of a log; fields that are not strings are None. */
  datatype LogRow = LogRow(id: Option<string>, runId: Option<string>, parentRunId: Option<string>)

  /** `rows` is None when some complete line of the file is no JSON object. */
  datatype LogFile = LogFile(workflow: string, date: string, rows: Option<seq<LogRow>>)

  datatype Dependency = Dependency(parent: string, child: string)

  datatype Sources = Sources(db: Db, files: seq<LogFile>, deps: seq<Dependency>)

  datatype Key = Key(workflow: string, date: string, id: string, run: string)

  function DeleteKey(t: DeleteTarget): Key {
    Key(t.workflow, t.date, t.id, if t.runId.Some? then t.runId.value else "")
  }

  /** The tombstone of a target. */
  predicate IsKeyOf(k: Key, t: DeleteTarget) {
    && k.workflow == t.workflow && k.date == t.date && k.id == t.id
    && k.run == (if t.runId == None then "" else t.runId.value)
  }

  predicate HasRunId(t: DeleteTarget) { t.runId.Some? && t.runId.value != "" }

  // ---- Runs below a run ----

  function LogChildren(workflow: string, date: string, rows: seq<LogRow>, parent: string): seq<DeleteTarget> {
    if rows == [] then []
    else
      var row := rows[0];
      (if row.id.Some? && row.runId.Some? && row.parentRunId == Some(parent)
       then [DeleteTarget(workflow, row.id.value, date, row.runId)] else [])
      + LogChildren(workflow, date, rows[1..], parent)
  }

  predicate Readable(files: seq<LogFile>) { forall i :: 0 <= i < |files| ==> files[i].rows.Some? }

  function FileChildren(files: seq<LogFile>, parent: string): seq<DeleteTarget> {
    if files == [] then []
    else
      (if files[0].rows.Some? then LogChildren(files[0].workflow, files[0].date, files[0].rows.value, parent) else [])
      + FileChildren(files[1..], parent)
  }

  function AsTargets(runs: seq<Run>): seq<DeleteTarget> {
    if runs == [] then []
    else [DeleteTarget(runs[0].workflow, runs[0].itemId, runs[0].date, Some(runs[0].runId))] + AsTargets(runs[1..])
  }

  /** Children of a run in the projection and in the logs. */
  function Under(s: Sources, parent: string): seq<DeleteTarget> {
    AsTargets(ChildRuns(s.db.runs, parent)) + FileChildren(s.files, parent)
  }

  function RunIdOfTarget(t: DeleteTarget): string { if t.runId.Some? then t.runId.value else "" }

  function ParentLinks(s: Sources): Links { LinksOf(p => Under(s, p), RunIdOfTarget) }

  ghost predicate Below(s: Sources, roots: seq<string>, t: DeleteTarget) {
    exists p :: p != "" && Reached(ParentLinks(s), roots, p) && t in Under(s, p)
  }

  // ---- The same in terms of rows ----

  /** A projected run row names `p` as its parent. */
  ghost predicate RunRowUnder(s: Sources, p: string, t: DeleteTarget) {
    exists r :: r in s.db.runs && r.parentRunId == Some(p)
      && t == DeleteTarget(r.workflow, r.itemId, r.date, Some(r.runId))
  }

  /** A row of a readable log names `p` as its parent; rows without an id or a run do not count. */
  ghost predicate LogRowUnder(s: Sources, p: string, t: DeleteTarget) {
    exists f, row :: f in s.files && IsChildRow(f, row, p, t)
  }

  predicate IsChildRow(f: LogFile, row: LogRow, p: string, t: DeleteTarget) {
    && f.rows.Some? && row in f.rows.value && row.parentRunId == Some(p)
    && row.id == Some(t.id) && row.runId.Some? && t.runId == row.runId && t.workflow == f.workflow && t.date == f.date
  }

  ghost predicate NamesParent(s: Sources, p: string, t: DeleteTarget) {
    p != "" && (RunRowUnder(s, p, t) || LogRowUnder(s, p, t))
  }

  /** A line of descent: the first names a root as its parent, each other one the run before it. */
  ghost predicate IsLine(s: Sources, roots: seq<string>, line: seq<DeleteTarget>) {
    && line != [] && (exists p :: p in roots && NamesParent(s, p, line[0]))
    && forall i :: 0 <= i < |line| - 1 ==> line[i].runId.Some? && NamesParent(s, line[i].runId.value, line[i + 1])
  }

  ghost predicate DescendsFrom(s: Sources, roots: seq<string>, t: DeleteTarget) {
    exists line :: IsLine(s, roots, line) && line[|line| - 1] == t
  }

  lemma {:induction false} LogChildMeans(workflow: string, date: string, rows: seq<LogRow>, p: string, t: DeleteTarget)
    ensures t in LogChildren(workflow, date, rows, p)
       <==> t.workflow == workflow && t.date == date
            && exists row :: row in rows && row.parentRunId == Some(p) && row.id == Some(t.id) && row.runId.Some?
                 && t.runId == row.runId
  {
    if rows != [] {
      LogChildMeans(workflow, date, rows[1..], p, t);
      assert rows == [rows[0]] + rows[1..];
    }
  }

  lemma {:induction false} FileChildMeans(files: seq<LogFile>, p: string, t: DeleteTarget)
    ensures t in FileChildren(files, p)
       <==> exists f :: f in files && f.rows.Some? && t in LogChildren(f.workflow, f.date, f.rows.value, p)
  {
    if files != [] {
      FileChildMeans(files[1..], p, t);
      assert files == [files[0]] + files[1..];
    }
  }

  /** What lies directly under a run: the projected rows and the log rows that name it, and nothing else. */
  lemma UnderMeans(s: Sources, p: string, t: DeleteTarget)
    ensures t in Under(s, p) <==> RunRowUnder(s, p, t) || LogRowUnder(s, p, t)
  {
    RunRowMeans(s, p, t);
    LogRowMeans(s, p, t);
  }

  lemma RunRowMeans(s: Sources, p: string, t: DeleteTarget)
    ensures t in AsTargets(ChildRuns(s.db.runs, p)) <==> RunRowUnder(s, p, t)
  {
    AsTargetsHas(ChildRuns(s.db.runs, p), t);
    if r :| r in ChildRuns(s.db.runs, p) && t == DeleteTarget(r.workflow, r.itemId, r.date, Some(r.runId)) {
      ChildRunsHas(s.db.runs, p, r);
    }
    if r :| r in s.db.runs && r.parentRunId == Some(p)
            && t == DeleteTarget(r.workflow, r.itemId, r.date, Some(r.runId)) {
      ChildRunsHas(s.db.runs, p, r);
    }
  }

  lemma LogRowMeans(s: Sources, p: string, t: DeleteTarget)
    ensures t in FileChildren(s.files, p) <==> LogRowUnder(s, p, t)
  {
    FileChildMeans(s.files, p, t);
    if f :| f in s.files && f.rows.Some? && t in LogChildren(f.workflow, f.date, f.rows.value, p) {
      LogChildMeans(f.workflow, f.date, f.rows.value, p, t);
      var row :| row in f.rows.value && row.parentRunId == Some(p) && row.id == Some(t.id) && row.runId.Some?
        && t.runId == row.runId;
      assert IsChildRow(f, row, p, t);
    }
    if f, row :| f in s.files && IsChildRow(f, row, p, t) {
      LogChildMeans(f.workflow, f.date, f.rows.value, p, t);
    }
  }

  lemma ParentLinkMeans(s: Sources, p: string, y: string)
    ensures y in ParentLinks(s)(p) <==> p != "" && exists t :: t in Under(s, p) && RunIdOfTarget(t) == y
  {
    LinksAt(q => Under(s, q), RunIdOfTarget, p);
    var rows, links := Under(s, p), ParentLinks(s)(p);
    if y in links {
      var i :| 0 <= i < |links| && links[i] == y;
      assert rows[i] in rows;
    }
    if p != "" {
      if t :| t in rows && RunIdOfTarget(t) == y {
        var i :| 0 <= i < |rows| && rows[i] == t;
        assert links[i] == y;
      }
    }
  }

  lemma UnderHasRun(s: Sources, p: string, t: DeleteTarget)
    requires t in Under(s, p)
    ensures t.runId.Some?
  {
    UnderMeans(s, p, t);
  }

  lemma {:induction false} ChainIsLine(s: Sources, roots: seq<string>, p: seq<string>, t: DeleteTarget)
    requires IsChain(ParentLinks(s), roots, p) && p[|p| - 1] != "" && t in Under(s, p[|p| - 1])
    ensures DescendsFrom(s, roots, t)
    decreases |p|
  {
    UnderMeans(s, p[|p| - 1], t);
    if |p| == 1 {
      var line := [t];
      assert IsLine(s, roots, line) && line[|line| - 1] == t;
    } else {
      var q := p[..|p| - 1];
      assert p[|p| - 2 + 1] in ParentLinks(s)(p[|p| - 2]);
      ParentLinkMeans(s, q[|q| - 1], p[|p| - 1]);
      var u :| u in Under(s, q[|q| - 1]) && RunIdOfTarget(u) == p[|p| - 1];
      UnderHasRun(s, q[|q| - 1], u);
      ChainFront(ParentLinks(s), roots, p);
      ChainIsLine(s, roots, q, u);
      var line :| IsLine(s, roots, line) && line[|line| - 1] == u;
      LineLonger(s, roots, line, t);
    }
  }

  lemma ChainFront(next: Links, roots: seq<string>, p: seq<string>)
    requires IsChain(next, roots, p) && |p| > 1
    ensures IsChain(next, roots, p[..|p| - 1])
  {
    var q := p[..|p| - 1];
    forall i | 0 <= i < |q| - 1
      ensures q[i + 1] in next(q[i])
    {
      assert p[i + 1] in next(p[i]);
    }
  }

  lemma LineLonger(s: Sources, roots: seq<string>, line: seq<DeleteTarget>, t: DeleteTarget)
    requires IsLine(s, roots, line) && line[|line| - 1].runId.Some?
    requires NamesParent(s, line[|line| - 1].runId.value, t)
    ensures DescendsFrom(s, roots, t)
  {
    var more := line + [t];
    assert IsLine(s, roots, more) && more[|more| - 1] == t;
  }

  lemma {:induction false} LineIsBelow(s: Sources, roots: seq<string>, line: seq<DeleteTarget>)
    requires IsLine(s, roots, line)
    ensures Below(s, roots, line[|line| - 1])
    decreases |line|
  {
    var t := line[|line| - 1];
    if |line| == 1 {
      var p :| p in roots && NamesParent(s, p, t);
      UnderMeans(s, p, t);
      RootReached(ParentLinks(s), roots, p);
    } else {
      var front := line[..|line| - 1];
      var u := front[|front| - 1];
      assert NamesParent(s, u.runId.value, line[|line| - 2 + 1]);
      LineFront(s, roots, line);
      LineIsBelow(s, roots, front);
      UnderMeans(s, u.runId.value, t);
      var p :| p != "" && Reached(ParentLinks(s), roots, p) && u in Under(s, p);
      ParentLinkMeans(s, p, u.runId.value);
      LinkReached(ParentLinks(s), roots, p, u.runId.value);
    }
  }

  lemma LineFront(s: Sources, roots: seq<string>, line: seq<DeleteTarget>)
    requires IsLine(s, roots, line) && |line| > 1
    ensures IsLine(s, roots, line[..|line| - 1])
  {
    var front := line[..|line| - 1];
    forall i | 0 <= i < |front| - 1
      ensures front[i].runId.Some? && NamesParent(s, front[i].runId.value, front[i + 1])
    {
      assert line[i].runId.Some? && NamesParent(s, line[i].runId.value, line[i + 1]);
    }
  }

  /** Main result: what a delete collects below its roots is what rows, projected or logged, trace back to them. */
  lemma {:induction false} BelowMeans(s: Sources, roots: seq<string>, t: DeleteTarget)
    ensures Below(s, roots, t) <==> DescendsFrom(s, roots, t)
  {
    if Below(s, roots, t) {
      var p :| p != "" && Reached(ParentLinks(s), roots, p) && t in Under(s, p);
      var chain :| IsChain(ParentLinks(s), roots, chain) && chain[|chain| - 1] == p;
      ChainIsLine(s, roots, chain, t);
    }
    if DescendsFrom(s, roots, t) {
      var line :| IsLine(s, roots, line) && line[|line| - 1] == t;
      LineIsBelow(s, roots, line);
    }
  }

  // ---- Every run id there can be, for termination ----

  function LogIds(rows: seq<LogRow>): set<string> {
    if rows == [] then {} else (if rows[0].runId.Some? then {rows[0].runId.value} else {}) + LogIds(rows[1..])
  }

  function FileIds(files: seq<LogFile>): set<string> {
    if files == [] then {} else (if files[0].rows.Some? then LogIds(files[0].rows.value) else {}) + FileIds(files[1..])
  }

  lemma {:induction false} LogChildIn(workflow: string, date: string, rows: seq<LogRow>, parent: string,
                                      t: DeleteTarget)
    requires t in LogChildren(workflow, date, rows, parent)
    ensures RunIdOfTarget(t) in LogIds(rows)
  {
    if t in LogChildren(workflow, date, rows[1..], parent) {
      LogChildIn(workflow, date, rows[1..], parent, t);
    }
  }

  lemma {:induction false} FileChildIn(files: seq<LogFile>, parent: string, t: DeleteTarget)
    requires t in FileChildren(files, parent)
    ensures RunIdOfTarget(t) in FileIds(files)
  {
    if files[0].rows.Some? && t in LogChildren(files[0].workflow, files[0].date, files[0].rows.value, parent) {
      LogChildIn(files[0].workflow, files[0].date, files[0].rows.value, parent, t);
    } else {
      FileChildIn(files[1..], parent, t);
    }
  }

  lemma {:induction false} AsTargetsHas(runs: seq<Run>, t: DeleteTarget)
    ensures t in AsTargets(runs)
       <==> exists r :: r in runs && t == DeleteTarget(r.workflow, r.itemId, r.date, Some(r.runId))
  {
    if runs != [] {
      AsTargetsHas(runs[1..], t);
      assert runs == [runs[0]] + runs[1..];
    }
  }

  ghost function AllRunIds(s: Sources): set<string> { (set r | r in s.db.runs :: r.runId) + FileIds(s.files) }

  lemma UnderWithin(s: Sources)
    ensures WithinUniverse(p => Under(s, p), RunIdOfTarget, AllRunIds(s))
  {
    forall p, t | t in Under(s, p)
      ensures RunIdOfTarget(t) in AllRunIds(s)
    {
      if t in FileChildren(s.files, p) {
        FileChildIn(s.files, p, t);
      } else {
        AsTargetsHas(ChildRuns(s.db.runs, p), t);
        var r :| r in ChildRuns(s.db.runs, p) && t == DeleteTarget(r.workflow, r.itemId, r.date, Some(r.runId));
        ChildRunsHas(s.db.runs, p, r);
      }
    }
  }

  lemma {:induction false} GatherHas<R(!new)>(under: string -> seq<R>, parents: seq<string>, r: R)
    ensures r in Gather(under, parents) <==> exists p :: p in parents && r in under(p)
    decreases |parents|
  {
    if parents != [] {
      var init, last := parents[..|parents| - 1], parents[|parents| - 1];
      GatherHas(under, init, r);
      assert parents == init + [last];
    }
  }

  method RowsBelow(s: Sources, roots: seq<string>) returns (rows: seq<DeleteTarget>)
    ensures forall t :: t in rows <==> Below(s, roots, t)
  {
    UnderWithin(s);
    var visited, found := Walk(roots, p => Under(s, p), RunIdOfTarget, AllRunIds(s));
    forall t
      ensures t in found <==> Below(s, roots, t)
    {
      GatherHas(p => Under(s, p), visited, t);
    }
    rows := found;
  }

  /** The Map of `collectDescendantDeleteTargets` holds one target a key; None when a log it had to read is
      malformed. */
  method CollectDescendantDeleteTargets(s: Sources, roots: seq<string>) returns (r: Option<seq<DeleteTarget>>)
    ensures r.None? ==> !Readable(s.files)
    ensures r.Some? ==> forall t :: t in r.value ==> Below(s, roots, t)
    ensures r.Some? ==> forall t :: Below(s, roots, t) ==> HasKey(DeleteKey, r.value, DeleteKey(t))
    ensures r.Some? ==> forall t :: t in r.value ==> DescendsFrom(s, roots, t)
    ensures r.Some? ==> forall t :: DescendsFrom(s, roots, t) ==> HasKey(DeleteKey, r.value, DeleteKey(t))
  {
    if !Readable(s.files) && Present(roots) != [] { return None; }
    var rows := RowsBelow(s, roots);
    var targets := PutAll(DeleteKey, [], rows);
    assert [] + rows == rows;
    WinsMeans(DeleteKey, rows, targets);
    BelowIsDescent(s, roots);
    r := Some(targets);
  }

  lemma BelowIsDescent(s: Sources, roots: seq<string>)
    ensures forall t :: Below(s, roots, t) <==> DescendsFrom(s, roots, t)
  {
    forall t
      ensures Below(s, roots, t) <==> DescendsFrom(s, roots, t)
    {
      BelowMeans(s, roots, t);
    }
  }

  // ---- Run ids of an item ----

  function RunsOfItem(runs: seq<Run>, t: DeleteTarget): seq<string> {
    if runs == [] then []
    else (if runs[0].workflow == t.workflow && runs[0].date == t.date && runs[0].itemId == t.id
          then [runs[0].runId]
          else [])
         + RunsOfItem(runs[1..], t)
  }

  function TaskRunsOfItem(tasks: seq<Task>, t: DeleteTarget): seq<string> {
    if tasks == [] then []
    else (if tasks[0].workflow == t.workflow && tasks[0].itemId == t.id && tasks[0].runId.Some?
          then [tasks[0].runId.value]
          else [])
         + TaskRunsOfItem(tasks[1..], t)
  }

  function LogRunsOfItem(rows: seq<LogRow>, t: DeleteTarget): seq<string> {
    if rows == [] then []
    else (if rows[0].id != Some(t.id) then [] else if rows[0].runId.Some? then [rows[0].runId.value] else [t.id + "#1"])
         + LogRunsOfItem(rows[1..], t)
  }

  function FileOf(files: seq<LogFile>, t: DeleteTarget): Option<LogFile> {
    if files == [] then None
    else if files[0].workflow == t.workflow && files[0].date == t.date then Some(files[0])
    else FileOf(files[1..], t)
  }

  /** A malformed log of the item's own makes the read throw. */
  predicate OwnLogReadable(s: Sources, t: DeleteTarget) {
    !HasRunId(t) && FileOf(s.files, t).Some? ==> FileOf(s.files, t).value.rows.Some?
  }

  /** The exact runs an item stands for now: a Set in `normalizeDeleteTargets`, so repeats do not matter. */
  function RootRunIds(s: Sources, t: DeleteTarget): seq<string> {
    if HasRunId(t) then [t.runId.value]
    else
      var file := FileOf(s.files, t);
      RunsOfItem(s.db.runs, t) + TaskRunsOfItem(s.db.tasks, t)
      + (if file.Some? && file.value.rows.Some? then LogRunsOfItem(file.value.rows.value, t) else [])
  }

  lemma {:induction false} FileOfReadable(files: seq<LogFile>, t: DeleteTarget)
    requires Readable(files)
    ensures FileOf(files, t).Some? ==> FileOf(files, t).value.rows.Some?
  {
    if files != [] {
      FileOfReadable(files[1..], t);
    }
  }

  ghost predicate RunRowOfItem(s: Sources, t: DeleteTarget, run: string) {
    exists r :: r in s.db.runs && r.workflow == t.workflow && r.date == t.date && r.itemId == t.id && r.runId == run
  }

  ghost predicate TaskOfItem(s: Sources, t: DeleteTarget, run: string) {
    exists u :: u in s.db.tasks && u.workflow == t.workflow && u.itemId == t.id && u.runId == Some(run)
  }

  /** The item's own log: the file of its workflow and date. */
  predicate IsOwnLog(files: seq<LogFile>, t: DeleteTarget, i: nat) {
    && i < |files| && files[i].workflow == t.workflow && files[i].date == t.date
    && forall j :: 0 <= j < i ==> !(files[j].workflow == t.workflow && files[j].date == t.date)
  }

  /** A row of the item and the run; one without a run is of the item's first run. */
  predicate IsItemRow(row: LogRow, t: DeleteTarget, run: string) {
    row.id == Some(t.id) && (row.runId == Some(run) || (row.runId == None && run == t.id + "#1"))
  }

  ghost predicate LoggedOfItem(s: Sources, t: DeleteTarget, run: string) {
    exists i: nat :: IsOwnLog(s.files, t, i) && s.files[i].rows.Some?
      && exists row :: row in s.files[i].rows.value && IsItemRow(row, t, run)
  }

  /** The run a request stands for: the one it names, or any of its item. */
  ghost predicate StandsFor(s: Sources, t: DeleteTarget, run: string) {
    if t.runId.Some? && t.runId.value != "" then run == t.runId.value
    else RunRowOfItem(s, t, run) || TaskOfItem(s, t, run) || LoggedOfItem(s, t, run)
  }

  lemma {:induction false} RunsOfItemMeans(s: Sources, runs: seq<Run>, t: DeleteTarget, run: string)
    ensures run in RunsOfItem(runs, t)
       <==> exists r :: r in runs && r.workflow == t.workflow && r.date == t.date && r.itemId == t.id && r.runId == run
  {
    if runs != [] {
      RunsOfItemMeans(s, runs[1..], t, run);
      assert runs == [runs[0]] + runs[1..];
    }
  }

  lemma {:induction false} TaskRunsOfItemMeans(tasks: seq<Task>, t: DeleteTarget, run: string)
    ensures run in TaskRunsOfItem(tasks, t)
       <==> exists u :: u in tasks && u.workflow == t.workflow && u.itemId == t.id && u.runId == Some(run)
  {
    if tasks != [] {
      TaskRunsOfItemMeans(tasks[1..], t, run);
      assert tasks == [tasks[0]] + tasks[1..];
    }
  }

  lemma {:induction false} LogRunsOfItemMeans(rows: seq<LogRow>, t: DeleteTarget, run: string)
    ensures run in LogRunsOfItem(rows, t)
       <==> exists row :: row in rows && IsItemRow(row, t, run)
  {
    if rows != [] {
      LogRunsOfItemMeans(rows[1..], t, run);
      if row :| row in rows && IsItemRow(row, t, run) {
        assert row == rows[0] || row in rows[1..];
      }
      if IsItemRow(rows[0], t, run) {
        assert rows[0] in rows;
      }
    }
  }

  lemma {:induction false} FileOfMeans(files: seq<LogFile>, t: DeleteTarget, i: nat)
    requires IsOwnLog(files, t, i)
    ensures FileOf(files, t) == Some(files[i])
  {
    if i > 0 {
      assert IsOwnLog(files[1..], t, i - 1) by {
        assert forall j :: 0 <= j < i - 1 ==> files[1..][j] == files[j + 1];
      }
      FileOfMeans(files[1..], t, i - 1);
    }
  }

  lemma {:induction false} FileOfAt(files: seq<LogFile>, t: DeleteTarget) returns (i: nat)
    requires FileOf(files, t).Some?
    ensures IsOwnLog(files, t, i)
  {
    if files[0].workflow == t.workflow && files[0].date == t.date {
      i := 0;
    } else {
      var k := FileOfAt(files[1..], t);
      i := k + 1;
      forall j | 0 <= j < i
        ensures !(files[j].workflow == t.workflow && files[j].date == t.date)
      {
        assert j > 0 ==> files[j] == files[1..][j - 1];
      }
    }
  }

  lemma LoggedMeans(s: Sources, t: DeleteTarget, run: string)
    ensures LoggedOfItem(s, t, run)
       <==> FileOf(s.files, t).Some? && FileOf(s.files, t).value.rows.Some?
            && run in LogRunsOfItem(FileOf(s.files, t).value.rows.value, t)
  {
    if FileOf(s.files, t).Some? {
      var i := FileOfAt(s.files, t);
      FileOfMeans(s.files, t, i);
      if s.files[i].rows.Some? {
        LogRunsOfItemMeans(s.files[i].rows.value, t, run);
      }
    }
    if LoggedOfItem(s, t, run) {
      var i: nat :| IsOwnLog(s.files, t, i) && s.files[i].rows.Some?
        && exists row :: row in s.files[i].rows.value && IsItemRow(row, t, run);
      FileOfMeans(s.files, t, i);
      LogRunsOfItemMeans(s.files[i].rows.value, t, run);
    }
  }

  /** An item-wide request stands for the item's runs in the projection, in the task table and in its own log. */
  lemma RootRunsMean(s: Sources, t: DeleteTarget, run: string)
    ensures run in RootRunIds(s, t) <==> StandsFor(s, t, run)
  {
    if !HasRunId(t) {
      RunsOfItemMeans(s, s.db.runs, t, run);
      TaskRunsOfItemMeans(s.db.tasks, t, run);
      LoggedMeans(s, t, run);
    }
  }

  // ---- What one request deletes ----

  ghost predicate InScope(s: Sources, req: DeleteTarget, t: DeleteTarget) {
    t == req || Below(s, RootRunIds(s, req), t)
  }

  function ExactOf(s: Sources, t: DeleteTarget): (r: seq<DeleteTarget>)
    ensures |r| == |RootRunIds(s, t)|
    ensures forall i :: 0 <= i < |r| ==> r[i] == t.(runId := Some(RootRunIds(s, t)[i]))
  {
    var ids := RootRunIds(s, t);
    seq(|ids|, i requires 0 <= i < |ids| => t.(runId := Some(ids[i])))
  }

  /** The exact runs one request hides. */
  ghost predicate Hides(s: Sources, req: DeleteTarget, x: DeleteTarget) {
    exists t :: InScope(s, req, t) && x in ExactOf(s, t)
  }

  /** The same in terms of rows: a run the request stands for, or one that a descendant of those stands for. */
  ghost predicate HidesRun(s: Sources, req: DeleteTarget, x: DeleteTarget) {
    exists t, roots, run :: HiddenVia(s, req, x, t, roots, run)
  }

  ghost predicate HiddenVia(s: Sources, req: DeleteTarget, x: DeleteTarget, t: DeleteTarget, roots: seq<string>,
                            run: string)
  {
    && (forall r :: r in roots <==> StandsFor(s, req, r))
    && (t == req || DescendsFrom(s, roots, t))
    && StandsFor(s, t, run) && x == t.(runId := Some(run))
  }

  lemma HidesMeans(s: Sources, req: DeleteTarget, x: DeleteTarget)
    ensures Hides(s, req, x) <==> HidesRun(s, req, x)
  {
    if Hides(s, req, x) {
      HidesIsRun(s, req, x);
    }
    if t, roots, run :| HiddenVia(s, req, x, t, roots, run) {
      RunIsHidden(s, req, x, t, roots, run);
    }
  }

  lemma HidesIsRun(s: Sources, req: DeleteTarget, x: DeleteTarget)
    requires Hides(s, req, x)
    ensures HidesRun(s, req, x)
  {
    var t :| InScope(s, req, t) && x in ExactOf(s, t);
    var roots := RootRunIds(s, req);
    forall r
      ensures r in roots <==> StandsFor(s, req, r)
    {
      RootRunsMean(s, req, r);
    }
    BelowMeans(s, roots, t);
    var i :| 0 <= i < |ExactOf(s, t)| && ExactOf(s, t)[i] == x;
    RootRunsMean(s, t, RootRunIds(s, t)[i]);
    assert HiddenVia(s, req, x, t, roots, RootRunIds(s, t)[i]);
  }

  lemma RunIsHidden(s: Sources, req: DeleteTarget, x: DeleteTarget, t: DeleteTarget, roots: seq<string>, run: string)
    requires HiddenVia(s, req, x, t, roots, run)
    ensures Hides(s, req, x)
  {
    RootRunsMean(s, t, run);
    var i :| 0 <= i < |RootRunIds(s, t)| && RootRunIds(s, t)[i] == run;
    assert ExactOf(s, t)[i] == x;
    if t != req {
      forall r
        ensures r in roots <==> r in RootRunIds(s, req)
      {
        RootRunsMean(s, req, r);
      }
      SameRootsSameLines(s, roots, RootRunIds(s, req), t);
      BelowMeans(s, RootRunIds(s, req), t);
    }
    assert InScope(s, req, t);
  }

  lemma SameRootsSameLines(s: Sources, a: seq<string>, b: seq<string>, t: DeleteTarget)
    requires (forall r :: r in a <==> r in b) && DescendsFrom(s, a, t)
    ensures DescendsFrom(s, b, t)
  {
    var line :| IsLine(s, a, line) && line[|line| - 1] == t;
    assert IsLine(s, b, line);
  }

  /** Targets with the same key stand for the same exact runs. */
  lemma SameKeySameRuns(s: Sources, a: DeleteTarget, b: DeleteTarget)
    requires DeleteKey(a) == DeleteKey(b)
    ensures ExactOf(s, a) == ExactOf(s, b)
  {
    SameItem(s, a, b);
    assert forall i :: 0 <= i < |RootRunIds(s, a)| ==> ExactOf(s, a)[i] == ExactOf(s, b)[i];
  }

  lemma {:induction false} SameItem(s: Sources, a: DeleteTarget, b: DeleteTarget)
    requires DeleteKey(a) == DeleteKey(b)
    ensures RootRunIds(s, a) == RootRunIds(s, b)
  {
    ItemOnly(s.db.runs, s.db.tasks, a, b);
    FileOnly(s.files, a, b);
    if FileOf(s.files, a).Some? && FileOf(s.files, a).value.rows.Some? {
      RowsOnly(FileOf(s.files, a).value.rows.value, a, b);
    }
  }

  lemma {:induction false} ItemOnly(runs: seq<Run>, tasks: seq<Task>, a: DeleteTarget, b: DeleteTarget)
    requires a.workflow == b.workflow && a.id == b.id && a.date == b.date
    ensures RunsOfItem(runs, a) == RunsOfItem(runs, b) && TaskRunsOfItem(tasks, a) == TaskRunsOfItem(tasks, b)
    decreases |runs| + |tasks|
  {
    if runs != [] {
      ItemOnly(runs[1..], tasks, a, b);
    } else if tasks != [] {
      ItemOnly(runs, tasks[1..], a, b);
    }
  }

  lemma {:induction false} FileOnly(files: seq<LogFile>, a: DeleteTarget, b: DeleteTarget)
    requires a.workflow == b.workflow && a.date == b.date
    ensures FileOf(files, a) == FileOf(files, b)
  {
    if files != [] {
      FileOnly(files[1..], a, b);
    }
  }

  lemma {:induction false} RowsOnly(rows: seq<LogRow>, a: DeleteTarget, b: DeleteTarget)
    requires a.id == b.id
    ensures LogRunsOfItem(rows, a) == LogRunsOfItem(rows, b)
  {
    if rows != [] {
      RowsOnly(rows[1..], a, b);
    }
  }

  method CollectDeleteTargets(s: Sources, req: DeleteTarget) returns (r: Option<seq<DeleteTarget>>)
    ensures r.None? ==> !Readable(s.files)
    ensures r.Some? ==> forall t :: t in r.value ==> InScope(s, req, t)
    ensures r.Some? ==> forall t :: InScope(s, req, t) ==> HasKey(DeleteKey, r.value, DeleteKey(t))
  {
    if !OwnLogReadable(s, req) { FileOfReadableOrNot(s, req); return None; }
    var below := CollectDescendantDeleteTargets(s, RootRunIds(s, req));
    if below.None? { return None; }
    var own := [req];
    var targets := PutAll(DeleteKey, own, below.value);
    WinsMeans(DeleteKey, own + below.value, targets);
    assert req in own + below.value;
    forall t | InScope(s, req, t)
      ensures HasKey(DeleteKey, targets, DeleteKey(t))
    {
      if t != req {
        HasKeyMeans(DeleteKey, below.value, DeleteKey(t));
        var u :| u in below.value && DeleteKey(u) == DeleteKey(t);
        assert u in own + below.value;
      }
    }
    r := Some(targets);
  }

  lemma FileOfReadableOrNot(s: Sources, t: DeleteTarget)
    ensures !OwnLogReadable(s, t) ==> !Readable(s.files)
  {
    if Readable(s.files) {
      FileOfReadable(s.files, t);
    }
  }

  lemma HidesFromKeys(s: Sources, req: DeleteTarget, targets: seq<DeleteTarget>, x: DeleteTarget)
    requires forall t :: t in targets ==> InScope(s, req, t)
    requires forall t :: InScope(s, req, t) ==> HasKey(DeleteKey, targets, DeleteKey(t))
    ensures Hides(s, req, x) <==> FromTargets(s, targets, x)
  {
    if Hides(s, req, x) {
      var t :| InScope(s, req, t) && x in ExactOf(s, t);
      HasKeyMeans(DeleteKey, targets, DeleteKey(t));
      var u :| u in targets && DeleteKey(u) == DeleteKey(t);
      SameKeySameRuns(s, t, u);
    }
  }

  /** Expand item-wide targets to the runs that exist; each exact run once. */
  method NormalizeDeleteTargets(s: Sources, targets: seq<DeleteTarget>) returns (r: Option<seq<DeleteTarget>>)
    ensures r.None? ==> !Readable(s.files)
    ensures r.Some? ==> forall x :: x in r.value <==> FromTargets(s, targets, x)
  {
    var exact: seq<DeleteTarget> := [];
    for i := 0 to |targets|
      invariant KeysDistinct(DeleteKey, exact)
      invariant forall x :: x in exact <==> FromTargets(s, targets[..i], x)
    {
      if !OwnLogReadable(s, targets[i]) { FileOfReadableOrNot(s, targets[i]); return None; }
      var next := PutAll(DeleteKey, exact, ExactOf(s, targets[i]));
      ExactAdded(s, exact, ExactOf(s, targets[i]), next);
      exact := next;
      forall x
        ensures FromTargets(s, targets[..i + 1], x) <==> FromTargets(s, targets[..i], x) || x in ExactOf(s, targets[i])
      {
        OneMoreTarget(s, targets, i, x);
      }
    }
    assert targets[..|targets|] == targets;
    r := Some(exact);
  }

  ghost predicate FromTargets(s: Sources, targets: seq<DeleteTarget>, x: DeleteTarget) {
    exists t :: t in targets && x in ExactOf(s, t)
  }

  lemma OneMoreTarget(s: Sources, targets: seq<DeleteTarget>, i: nat, x: DeleteTarget)
    requires i < |targets|
    ensures FromTargets(s, targets[..i + 1], x) <==> FromTargets(s, targets[..i], x) || x in ExactOf(s, targets[i])
  {
    assert targets[..i + 1] == targets[..i] + [targets[i]];
  }

  /** Exact targets are told apart by their key, so merging them by key is plain union. */
  lemma ExactAdded(s: Sources, into: seq<DeleteTarget>, more: seq<DeleteTarget>, out: seq<DeleteTarget>)
    requires LastWins(DeleteKey, into + more, out)
    requires forall x :: x in into || x in more ==> x.runId.Some?
    ensures forall x :: x in out <==> x in into || x in more
  {
    WinsMeans(DeleteKey, into + more, out);
    forall x | x in into + more
      ensures x in out
    {
      HasKeyMeans(DeleteKey, out, DeleteKey(x));
      assert HasKey(DeleteKey, out, DeleteKey(x));
      var y :| y in out && DeleteKey(y) == DeleteKey(x);
      assert y == x;
    }
  }

  ghost function HiddenBy(s: Sources, req: DeleteTarget): iset<DeleteTarget> { iset x | Hides(s, req, x) }

  ghost function Listed(exact: seq<DeleteTarget>): iset<DeleteTarget> { iset x | x in exact }

  // ---- Tasks that may forbid it ----

  /** Terminal for deletion includes `blocked`; a NULL state counts as active. */
  predicate IsActive(t: Task) {
    t.state.None? || (!IsTerminal(t.state.value) && t.state.value != Blocked)
  }

  predicate OwnTask(x: DeleteTarget, t: Task) {
    x.workflow == t.workflow && x.id == t.itemId && (HasRunId(x) ==> t.runId == x.runId)
  }

  function DependencyChildren(deps: seq<Dependency>, parent: string): (r: seq<string>)
    ensures forall c :: c in r <==> Dependency(parent, c) in deps
  {
    if deps == [] then []
    else (if deps[0].parent == parent then [deps[0].child] else []) + DependencyChildren(deps[1..], parent)
  }

  function DependencyLinks(s: Sources): Links { p => DependencyChildren(s.deps, p) }

  /** Tasks of the hidden runs, and tasks below those runs. */
  ghost predicate RootTask(s: Sources, exact: iset<DeleteTarget>, t: Task) {
    && t in s.db.tasks
    && (|| (exists x :: x in exact && OwnTask(x, t))
        || (exists x :: x in exact && HasRunId(x) && InTaskTree(s.db.tasks, [x.runId.value], t)))
  }

  /** The tasks a delete looks at: those, and whatever they depend on, transitively. */
  ghost predicate Examined(s: Sources, exact: iset<DeleteTarget>, id: string) {
    exists t :: RootTask(s, exact, t) && Reached(DependencyLinks(s), [t.id], id)
  }

  lemma {:induction false} ReachedFromOne(next: Links, roots: seq<string>, x: string)
    ensures Reached(next, roots, x) <==> exists r :: r in roots && Reached(next, [r], x)
  {
    if Reached(next, roots, x) {
      var p :| IsChain(next, roots, p) && p[|p| - 1] == x;
      assert IsChain(next, [p[0]], p);
    }
    if r :| r in roots && Reached(next, [r], x) {
      var p :| IsChain(next, [r], p) && p[|p| - 1] == x;
      assert IsChain(next, roots, p);
    }
  }

  function OwnTaskIds(tasks: seq<Task>, exact: seq<DeleteTarget>): (r: seq<string>)
    ensures forall id :: id in r <==> exists t, x :: t in tasks && x in exact && OwnTask(x, t) && t.id == id
  {
    if tasks == [] then []
    else
      (if exists i :: 0 <= i < |exact| && OwnTask(exact[i], tasks[0]) then [tasks[0].id] else [])
      + OwnTaskIds(tasks[1..], exact)
  }

  function ExactRunIds(exact: seq<DeleteTarget>): (r: seq<string>)
    ensures forall id :: id in r <==> exists x :: x in exact && HasRunId(x) && x.runId.value == id
  {
    if exact == [] then []
    else (if HasRunId(exact[0]) then [exact[0].runId.value] else []) + ExactRunIds(exact[1..])
  }

  function TaskIds(tasks: seq<Task>): (r: seq<string>)
    ensures forall id :: id in r <==> exists t :: t in tasks && t.id == id
  {
    if tasks == [] then [] else [tasks[0].id] + TaskIds(tasks[1..])
  }

  /** Children not marked yet, each once. */
  function Unseen(children: seq<string>, seen: seq<string>): (r: seq<string>)
    ensures forall c :: c in r <==> c in children && c !in seen
    decreases |children|
  {
    if children == [] then []
    else
      var rest := Unseen(children[1..], seen);
      if children[0] in seen || children[0] in children[1..] then rest else [children[0]] + rest
  }

  lemma Shrinks(deps: seq<Dependency>, parent: string, unseen: seq<string>, left: set<string>, all: seq<string>)
    requires forall c :: c in unseen ==> Dependency(parent, c) in deps && c !in all
    requires forall c :: c in Children(deps) ==> c in all || c in left
    ensures unseen == [] ==> left - (set c | c in unseen) == left
    ensures unseen != [] ==> |left - (set c | c in unseen)| < |left|
  {
    if unseen != [] {
      var c := unseen[0];
      assert Dependency(parent, c) in deps && Dependency(parent, c).child in Children(deps);
      SmallerSet(left - (set c | c in unseen), left - {c});
    }
  }

  /** Everything marked is reached, and what is not queued any more has its children marked. */
  ghost predicate Marking(next: Links, roots: seq<string>, all: seq<string>, queue: seq<string>) {
    && (forall x :: x in roots || x in queue ==> x in all)
    && (forall x :: x in all ==> Reached(next, roots, x))
    && (forall x, y :: x in all && x !in queue && y in next(x) ==> y in all)
  }

  lemma MarkStep(next: Links, roots: seq<string>, all: seq<string>, queue: seq<string>, unseen: seq<string>)
    requires queue != [] && Marking(next, roots, all, queue)
    requires forall y :: y in unseen <==> y in next(queue[0]) && y !in all
    ensures Marking(next, roots, all + unseen, queue[1..] + unseen)
  {
    assert queue == [queue[0]] + queue[1..];
    forall y | y in next(queue[0])
      ensures Reached(next, roots, y)
    {
      LinkReached(next, roots, queue[0], y);
    }
  }

  lemma MarkStart(next: Links, roots: seq<string>)
    ensures Marking(next, roots, roots, roots)
  {
    forall r | r in roots
      ensures Reached(next, roots, r)
    {
      RootReached(next, roots, r);
    }
  }

  lemma MarkedAll(next: Links, roots: seq<string>, all: seq<string>)
    requires Marking(next, roots, all, [])
    ensures forall id :: id in all <==> Reached(next, roots, id)
  {
    forall id | Reached(next, roots, id)
      ensures id in all
    {
      ClosedHoldsReached(next, roots, all, id);
    }
  }

  ghost function Children(deps: seq<Dependency>): set<string> { set d | d in deps :: d.child }

  /** The dependency walk marks a task when it is queued, so each is looked up once. */
  method DependencyClosure(s: Sources, roots: seq<string>) returns (all: seq<string>)
    ensures forall id :: id in all <==> Reached(DependencyLinks(s), roots, id)
  {
    ghost var next := DependencyLinks(s);
    all := roots;
    var queue := roots;
    ghost var left := Children(s.deps);
    MarkStart(next, roots);
    while queue != []
      invariant Marking(next, roots, all, queue)
      invariant forall c :: c in Children(s.deps) ==> c in all || c in left
      decreases |left|, |queue|
    {
      var unseen := Unseen(DependencyChildren(s.deps, queue[0]), all);
      MarkStep(next, roots, all, queue, unseen);
      Shrinks(s.deps, queue[0], unseen, left, all);
      queue := queue[1..] + unseen;
      all := all + unseen;
      left := left - (set c | c in unseen);
    }
    MarkedAll(next, roots, all);
  }

  /** The ids a delete examines; None when a task of the tree has no state. */
  method CollectTaskSubtreeIds(s: Sources, exact: seq<DeleteTarget>) returns (r: Option<seq<string>>)
    ensures r.None? ==> !StatesKnown(s.db.tasks)
    ensures r.Some? ==> forall id :: id in r.value <==> Examined(s, Listed(exact), id)
  {
    var own := OwnTaskIds(s.db.tasks, exact);
    var tree := ListTaskTreeByRunIds(s.db.tasks, ExactRunIds(exact));
    if tree.None? { return None; }
    var roots := own + TaskIds(tree.value);
    ghost var targets := Listed(exact);
    forall id
      ensures id in roots <==> exists t :: RootTask(s, targets, t) && t.id == id
    {
      RootIds(s, exact, own, tree.value, id);
    }
    var all := DependencyClosure(s, roots);
    forall id
      ensures id in all <==> Examined(s, targets, id)
    {
      ReachedFromOne(DependencyLinks(s), roots, id);
    }
    r := Some(all);
  }

  lemma RootIds(s: Sources, exact: seq<DeleteTarget>, own: seq<string>, tree: seq<Task>, id: string)
    requires own == OwnTaskIds(s.db.tasks, exact)
    requires forall t :: t in tree <==> InTaskTree(s.db.tasks, ExactRunIds(exact), t)
    ensures id in own + TaskIds(tree) <==> exists t :: RootTask(s, Listed(exact), t) && t.id == id
  {
    if id in own + TaskIds(tree) {
      RootIdsSound(s, exact, own, tree, id);
    }
    if t :| RootTask(s, Listed(exact), t) && t.id == id {
      RootIdsComplete(s, exact, own, tree, t);
    }
  }

  lemma RootIdsSound(s: Sources, exact: seq<DeleteTarget>, own: seq<string>, tree: seq<Task>, id: string)
    requires own == OwnTaskIds(s.db.tasks, exact)
    requires forall t :: t in tree <==> InTaskTree(s.db.tasks, ExactRunIds(exact), t)
    requires id in own + TaskIds(tree)
    ensures exists t :: RootTask(s, Listed(exact), t) && t.id == id
  {
    if id in own {
      var t, x :| t in s.db.tasks && x in exact && OwnTask(x, t) && t.id == id;
      assert x in Listed(exact) && RootTask(s, Listed(exact), t);
    } else {
      var t :| t in tree && t.id == id;
      TreeFromOne(s.db.tasks, ExactRunIds(exact), t);
      var run :| run in Present(ExactRunIds(exact)) && InTaskTree(s.db.tasks, [run], t);
      var x :| x in exact && HasRunId(x) && x.runId.value == run;
      assert x in Listed(exact) && RootTask(s, Listed(exact), t);
    }
  }

  lemma RootIdsComplete(s: Sources, exact: seq<DeleteTarget>, own: seq<string>, tree: seq<Task>, t: Task)
    requires own == OwnTaskIds(s.db.tasks, exact)
    requires forall t :: t in tree <==> InTaskTree(s.db.tasks, ExactRunIds(exact), t)
    requires RootTask(s, Listed(exact), t)
    ensures t.id in own + TaskIds(tree)
  {
    if x :| x in Listed(exact) && OwnTask(x, t) {
      assert t.id in own;
    } else {
      var x :| x in Listed(exact) && HasRunId(x) && InTaskTree(s.db.tasks, [x.runId.value], t);
      assert x.runId.value in Present(ExactRunIds(exact));
      TreeFromOne(s.db.tasks, ExactRunIds(exact), t);
      assert t in tree;
    }
  }

  lemma TreeFromOne(tasks: seq<Task>, roots: seq<string>, t: Task)
    ensures InTaskTree(tasks, roots, t) <==> exists r :: r in Present(roots) && InTaskTree(tasks, [r], t)
  {
    if t in tasks && t.parentRunId.Some? {
      ReachedFromOne(TaskLinks(tasks), Present(roots), t.parentRunId.value);
      forall r | r in Present(roots)
        ensures Present([r]) == [r]
      {
      }
      if InTaskTree(tasks, roots, t) {
        var r :| r in Present(roots) && Reached(TaskLinks(tasks), [r], t.parentRunId.value);
        assert InTaskTree(tasks, [r], t);
      }
    }
  }

  function FirstActive(tasks: seq<Task>, ids: seq<string>): (t: Option<Task>)
    ensures t.Some? ==> t.value in tasks && t.value.id in ids && IsActive(t.value)
    ensures t.None? ==> forall x :: x in tasks && x.id in ids ==> !IsActive(x)
  {
    if tasks == [] then None
    else if tasks[0].id in ids && IsActive(tasks[0]) then Some(tasks[0])
    else FirstActive(tasks[1..], ids)
  }

  // ---- The operation ----

  datatype Outcome = Deleted | BadRequest | ActiveTask(task: Task) | MalformedLog | CorruptTask

  /** The tasks one request must find at rest. */
  ghost predicate Guards(s: Sources, req: DeleteTarget, t: Task) {
    t in s.db.tasks && Examined(s, HiddenBy(s, req), t.id)
  }

  // ---- The check by fields ----

  predicate AtRest(t: Task) { t.state in {Some(Done), Some(Failed), Some(Cancelled), Some(Blocked)} }

  /** A task of a hidden run, or a task below one. */
  ghost predicate IsHiddenTask(s: Sources, req: DeleteTarget, u: Task) {
    u in s.db.tasks && exists x :: HidesRun(s, req, x) && IsTaskUnder(s.db.tasks, x, u)
  }

  ghost predicate IsTaskUnder(tasks: seq<Task>, x: DeleteTarget, u: Task) {
    var named := x.runId != None && x.runId != Some("");
    || (u.workflow == x.workflow && u.itemId == x.id && (named ==> u.runId == x.runId))
    || (named && InTaskTree(tasks, [x.runId.value], u))
  }

  /** Dependencies lead to the task from one of those. */
  ghost predicate MustRest(s: Sources, req: DeleteTarget, t: Task) {
    t in s.db.tasks && exists u :: IsHiddenTask(s, req, u) && Reached(DependencyLinks(s), [u.id], t.id)
  }

  lemma RootTaskMeans(s: Sources, req: DeleteTarget, u: Task)
    ensures RootTask(s, HiddenBy(s, req), u) <==> IsHiddenTask(s, req, u)
  {
    forall x
      ensures x in HiddenBy(s, req) <==> HidesRun(s, req, x)
    {
      HidesMeans(s, req, x);
    }
  }

  /** Which tasks must be at rest before a request is carried out. */
  lemma GuardsMean(s: Sources, req: DeleteTarget)
    ensures forall t :: Guards(s, req, t) <==> MustRest(s, req, t)
    ensures forall t: Task :: IsActive(t) <==> !AtRest(t)
  {
    forall u
      ensures RootTask(s, HiddenBy(s, req), u) <==> IsHiddenTask(s, req, u)
    {
      RootTaskMeans(s, req, u);
    }
  }

  /** Every run the request hides has its tombstone. */
  ghost predicate AllHidden(s: Sources, req: DeleteTarget, hidden: set<Key>) {
    forall x :: HidesRun(s, req, x) ==> exists k :: k in hidden && IsKeyOf(k, x)
  }

  lemma KeysHideAll(s: Sources, req: DeleteTarget, hidden: set<Key>)
    requires forall x :: Hides(s, req, x) ==> DeleteKey(x) in hidden
    ensures AllHidden(s, req, hidden)
  {
    forall x | HidesRun(s, req, x)
      ensures exists k :: k in hidden && IsKeyOf(k, x)
    {
      HidesMeans(s, req, x);
      assert IsKeyOf(DeleteKey(x), x);
    }
  }

  class Deletions {
    var sources: Sources
    var hidden: set<Key>

    constructor (sources: Sources)
      ensures this.sources == sources && hidden == {}
    {
      this.sources, this.hidden := sources, {};
    }

    /** One transaction: check, then hide everything in one manifest line, or nothing. */
    method ApplyDeleteTargets(targets: seq<DeleteTarget>, ghost req: DeleteTarget) returns (o: Outcome)
      requires forall t :: t in targets ==> InScope(sources, req, t)
      requires forall t :: InScope(sources, req, t) ==> HasKey(DeleteKey, targets, DeleteKey(t))
      modifies this
      ensures sources == old(sources)
      ensures !o.BadRequest?
      ensures o.MalformedLog? ==> !Readable(sources.files)
      ensures o.CorruptTask? ==> !StatesKnown(sources.db.tasks)
      ensures o.ActiveTask? ==> Guards(sources, req, o.task) && IsActive(o.task)
      ensures o.Deleted? ==> forall t :: Guards(sources, req, t) ==> !IsActive(t)
      ensures o.Deleted? ==> forall k :: k in hidden <==>
        k in old(hidden) || exists x :: Hides(sources, req, x) && DeleteKey(x) == k
      ensures !o.Deleted? ==> hidden == old(hidden)
    {
      var normalized := NormalizeDeleteTargets(sources, targets);
      if normalized.None? { return MalformedLog; }
      var exact := normalized.value;
      forall x
        ensures x in exact <==> Hides(sources, req, x)
      {
        HidesFromKeys(sources, req, targets, x);
      }
      assert Listed(exact) == HiddenBy(sources, req);
      var ids := CollectTaskSubtreeIds(sources, exact);
      if ids.None? { return CorruptTask; }
      var active := FirstActive(sources.db.tasks, ids.value);
      if active.Some? { return ActiveTask(active.value); }
      hidden := hidden + Keys(exact);
      o := Deleted;
    }

    /** Main result: a request hides exactly the runs of its closure, or nothing; never past an active task. */
    method DeleteEntry(req: DeleteTarget) returns (o: Outcome)
      modifies this
      ensures sources == old(sources)
      ensures o.BadRequest? <==> req.workflow == "" || req.id == "" || req.date == ""
      ensures o.MalformedLog? ==> !Readable(sources.files)
      ensures o.CorruptTask? ==> !StatesKnown(sources.db.tasks)
      ensures o.ActiveTask? ==> Guards(sources, req, o.task) && IsActive(o.task)
      ensures o.Deleted? ==> forall t :: Guards(sources, req, t) ==> !IsActive(t)
      ensures o.Deleted? ==> forall k :: k in hidden <==>
        k in old(hidden) || exists x :: Hides(sources, req, x) && DeleteKey(x) == k
      ensures !o.Deleted? ==> hidden == old(hidden)
      ensures o.Deleted? ==> forall k :: k in hidden <==>
        k in old(hidden) || exists x :: HidesRun(sources, req, x) && IsKeyOf(k, x)
      ensures o.Deleted? ==> AllHidden(sources, req, hidden)
      ensures o.ActiveTask? ==> MustRest(sources, req, o.task) && !AtRest(o.task)
      ensures o.Deleted? ==> forall t :: MustRest(sources, req, t) ==> AtRest(t)
      ensures PassesCheck(sources, req) ==> o.Deleted?
      ensures o.Deleted? && DependencyChildrenCovered(sources, HiddenBy(sources, req)) ==>
        !ActiveInClosure(sources, req)
    {
      GuardsMean(sources, req);
      if req.workflow == "" || req.id == "" || req.date == "" { return BadRequest; }
      var targets := CollectDeleteTargets(sources, req);
      if targets.None? { return MalformedLog; }
      o := ApplyDeleteTargets(targets.value, req);
      forall x
        ensures Hides(sources, req, x) <==> HidesRun(sources, req, x)
      {
        HidesMeans(sources, req, x);
      }
      assert forall k, x :: IsKeyOf(k, x) <==> DeleteKey(x) == k;
      if o.Deleted? {
        KeysHideAll(sources, req, hidden);
      }
      if o.Deleted? && DependencyChildrenCovered(sources, HiddenBy(sources, req)) {
        CoveredIsAtRest(sources, req);
      }
    }
  }

  function Keys(exact: seq<DeleteTarget>): set<Key> { set x | x in exact :: DeleteKey(x) }

  // ---- How far the check reaches ----

  /** Both hierarchies at once: dependencies, and tasks whose parent run is one of this task's. */
  function BothLinks(s: Sources): Links {
    id => DependencyChildren(s.deps, id) + ParentLinked(s.db.tasks, s.db.tasks, id)
  }

  function ParentLinked(tasks: seq<Task>, all: seq<Task>, id: string): (r: seq<string>)
    ensures forall c :: c in r <==> exists t, u :: t in tasks && t.id == id && u in TasksUnder(all, t) && u.id == c
  {
    if tasks == [] then []
    else
      var rest := ParentLinked(tasks[1..], all, id);
      if tasks[0].id == id then TaskIds(TasksUnder(all, tasks[0])) + rest else rest
  }

  ghost predicate InFullClosure(s: Sources, exact: iset<DeleteTarget>, id: string) {
    exists t :: RootTask(s, exact, t) && Reached(BothLinks(s), [t.id], id)
  }

  /** Tasks whose parent-linked children the check has listed: those of the hidden runs and of their tree. */
  ghost predicate Walked(s: Sources, exact: iset<DeleteTarget>, t: Task) {
    exists x :: x in exact && HasRunId(x) && (OwnTask(x, t) || InTaskTree(s.db.tasks, [x.runId.value], t))
  }

  lemma WalkedChildren(s: Sources, exact: iset<DeleteTarget>, t: Task, c: Task)
    requires t in s.db.tasks && Walked(s, exact, t) && c in TasksUnder(s.db.tasks, t)
    ensures Examined(s, exact, c.id)
  {
    var x :| x in exact && HasRunId(x) && (OwnTask(x, t) || InTaskTree(s.db.tasks, [x.runId.value], t));
    var roots: seq<string> := [x.runId.value];
    if OwnTask(x, t) {
      RootReached(TaskLinks(s.db.tasks), Present(roots), x.runId.value);
      assert InTaskTree(s.db.tasks, roots, c);
    } else {
      ChildInTree(s.db.tasks, roots, t, c);
    }
    assert RootTask(s, exact, c);
    RootReached(DependencyLinks(s), [c.id], c.id);
  }

  ghost predicate DependsOn(s: Sources, root: Task, id: string) { Reached(DependencyLinks(s), [root.id], id) }

  /** A task that only dependencies lead to: its own children were not listed. */
  ghost predicate DependencyOnly(s: Sources, exact: iset<DeleteTarget>, root: Task, t: Task) {
    RootTask(s, exact, root) && t in s.db.tasks && DependsOn(s, root, t.id) && !Walked(s, exact, t)
  }

  /** The one step the walk may miss: a parent-linked child of such a task has to be a dependency of some root as
      well. */
  ghost predicate DependencyChildrenCovered(s: Sources, exact: iset<DeleteTarget>) {
    forall root, t, c :: DependencyOnly(s, exact, root, t) && c in TasksUnder(s.db.tasks, t)
      ==> exists r :: RootTask(s, exact, r) && DependsOn(s, r, c.id)
  }

  lemma ExaminedStep(s: Sources, exact: iset<DeleteTarget>, a: string, b: string)
    requires DependencyChildrenCovered(s, exact) && Examined(s, exact, a) && b in BothLinks(s)(a)
    ensures Examined(s, exact, b)
  {
    if b in DependencyChildren(s.deps, a) {
      var r :| RootTask(s, exact, r) && Reached(DependencyLinks(s), [r.id], a);
      LinkReached(DependencyLinks(s), [r.id], a, b);
    } else {
      var t, c :| t in s.db.tasks && t.id == a && c in TasksUnder(s.db.tasks, t) && c.id == b;
      if Walked(s, exact, t) {
        WalkedChildren(s, exact, t, c);
      } else {
        var r :| RootTask(s, exact, r) && Reached(DependencyLinks(s), [r.id], a);
        assert DependencyOnly(s, exact, r, t);
        var r' :| RootTask(s, exact, r') && DependsOn(s, r', c.id);
      }
    }
  }

  lemma {:induction false} ExaminedChain(s: Sources, exact: iset<DeleteTarget>, t: Task, p: seq<string>)
    requires DependencyChildrenCovered(s, exact) && RootTask(s, exact, t) && IsChain(BothLinks(s), [t.id], p)
    ensures Examined(s, exact, p[|p| - 1])
    decreases |p|
  {
    if |p| == 1 {
      RootReached(DependencyLinks(s), [t.id], t.id);
    } else {
      var q := p[..|p| - 1];
      forall i | 0 <= i < |q| - 1
        ensures q[i + 1] in BothLinks(s)(q[i])
      {
        assert p[i + 1] in BothLinks(s)(p[i]);
      }
      ExaminedChain(s, exact, t, q);
      assert p[|p| - 2 + 1] in BothLinks(s)(p[|p| - 2]);
      ExaminedStep(s, exact, q[|q| - 1], p[|p| - 1]);
    }
  }

  lemma ExaminedIsInFull(s: Sources, exact: iset<DeleteTarget>, id: string)
    requires Examined(s, exact, id)
    ensures InFullClosure(s, exact, id)
  {
    var t :| RootTask(s, exact, t) && Reached(DependencyLinks(s), [t.id], id);
    var p :| IsChain(DependencyLinks(s), [t.id], p) && p[|p| - 1] == id;
    forall i | 0 <= i < |p| - 1
      ensures p[i + 1] in BothLinks(s)(p[i])
    {
      assert p[i + 1] in DependencyLinks(s)(p[i]);
    }
    assert IsChain(BothLinks(s), [t.id], p);
  }

  /** The check covers the closure over both hierarchies exactly when no dependency-only task has a parent-linked
      child outside what is examined. */
  lemma {:induction false} FullClosureExamined(s: Sources, exact: iset<DeleteTarget>)
    ensures (forall id :: InFullClosure(s, exact, id) <==> Examined(s, exact, id)) <==>
      DependencyChildrenCovered(s, exact)
  {
    if DependencyChildrenCovered(s, exact) {
      forall id
        ensures InFullClosure(s, exact, id) <==> Examined(s, exact, id)
      {
        if Examined(s, exact, id) {
          ExaminedIsInFull(s, exact, id);
        }
        if InFullClosure(s, exact, id) {
          var t :| RootTask(s, exact, t) && Reached(BothLinks(s), [t.id], id);
          var p :| IsChain(BothLinks(s), [t.id], p) && p[|p| - 1] == id;
          ExaminedChain(s, exact, t, p);
        }
      }
    }
    if forall id :: InFullClosure(s, exact, id) <==> Examined(s, exact, id) {
      forall root, t, c | DependencyOnly(s, exact, root, t) && c in TasksUnder(s.db.tasks, t)
        ensures exists r :: RootTask(s, exact, r) && DependsOn(s, r, c.id)
      {
        ExaminedIsInFull(s, exact, t.id);
        var r :| RootTask(s, exact, r) && Reached(BothLinks(s), [r.id], t.id);
        LinkReached(BothLinks(s), [r.id], t.id, c.id);
        assert InFullClosure(s, exact, c.id) && Examined(s, exact, c.id);
        var r' :| RootTask(s, exact, r') && Reached(DependencyLinks(s), [r'.id], c.id);
        assert DependsOn(s, r', c.id);
      }
    }
  }

  // ---- What the check lets through, whatever the states ----

  /** The same rows, links and logs; only task states differ. */
  predicate SameLinks(a: Sources, b: Sources) {
    a.files == b.files && a.deps == b.deps && a.db.runs == b.db.runs && SameTasks(a.db.tasks, b.db.tasks)
  }

  lemma LinksBack(a: Sources, b: Sources)
    requires SameLinks(a, b)
    ensures SameLinks(b, a)
  {
    BackInShape(a.db.tasks, b.db.tasks);
  }

  lemma {:induction false} TaskRunsStay(a: seq<Task>, b: seq<Task>, t: DeleteTarget)
    requires SameTasks(a, b)
    ensures TaskRunsOfItem(a, t) == TaskRunsOfItem(b, t)
  {
    if a != [] {
      assert a[0].(state := b[0].state) == b[0];
      TaskRunsStay(a[1..], b[1..], t);
    }
  }

  lemma UnderStays(a: Sources, b: Sources, p: string)
    requires SameLinks(a, b)
    ensures Under(a, p) == Under(b, p)
  {
  }

  lemma BelowStays(a: Sources, b: Sources, roots: seq<string>, t: DeleteTarget)
    requires SameLinks(a, b) && Below(a, roots, t)
    ensures Below(b, roots, t)
  {
    var p :| p != "" && Reached(ParentLinks(a), roots, p) && t in Under(a, p);
    forall x, y | y in ParentLinks(a)(x)
      ensures y in ParentLinks(b)(x)
    {
      UnderStays(a, b, x);
    }
    ReachedMonotone(ParentLinks(a), ParentLinks(b), roots, p);
    UnderStays(a, b, p);
  }

  lemma HidesStays(a: Sources, b: Sources, req: DeleteTarget, x: DeleteTarget)
    requires SameLinks(a, b) && Hides(a, req, x)
    ensures Hides(b, req, x)
  {
    var t :| InScope(a, req, t) && x in ExactOf(a, t);
    ScopeStays(a, b, req, t);
    ExactStays(a, b, t);
  }

  lemma RootRunsStay(a: Sources, b: Sources, t: DeleteTarget)
    requires SameLinks(a, b)
    ensures RootRunIds(a, t) == RootRunIds(b, t)
  {
    TaskRunsStay(a.db.tasks, b.db.tasks, t);
  }

  lemma ExactStays(a: Sources, b: Sources, t: DeleteTarget)
    requires SameLinks(a, b)
    ensures ExactOf(a, t) == ExactOf(b, t)
  {
    RootRunsStay(a, b, t);
  }

  lemma ScopeStays(a: Sources, b: Sources, req: DeleteTarget, t: DeleteTarget)
    requires SameLinks(a, b) && InScope(a, req, t)
    ensures InScope(b, req, t)
  {
    RootRunsStay(a, b, req);
    if t != req {
      BelowStays(a, b, RootRunIds(a, req), t);
    }
  }

  lemma HiddenStays(a: Sources, b: Sources, req: DeleteTarget)
    requires SameLinks(a, b)
    ensures HiddenBy(a, req) == HiddenBy(b, req)
  {
    LinksBack(a, b);
    forall x
      ensures Hides(a, req, x) <==> Hides(b, req, x)
    {
      if Hides(a, req, x) {
        HidesStays(a, b, req, x);
      }
      if Hides(b, req, x) {
        HidesStays(b, a, req, x);
      }
    }
  }

  lemma RootTaskStays(a: Sources, b: Sources, exact: iset<DeleteTarget>, t: Task) returns (u: Task)
    requires SameLinks(a, b) && RootTask(a, exact, t)
    ensures RootTask(b, exact, u) && u.id == t.id
  {
    var i :| 0 <= i < |a.db.tasks| && a.db.tasks[i] == t;
    u := b.db.tasks[i];
    assert t.(state := u.state) == u;
    if x :| x in exact && OwnTask(x, t) {
      assert OwnTask(x, u);
    } else {
      var x :| x in exact && HasRunId(x) && InTaskTree(a.db.tasks, [x.runId.value], t);
      BackInShape(a.db.tasks, b.db.tasks);
      InTreeInShape(b.db.tasks, a.db.tasks, [x.runId.value], i);
    }
  }

  lemma ExaminedStays(a: Sources, b: Sources, exact: iset<DeleteTarget>, id: string)
    requires SameLinks(a, b) && Examined(a, exact, id)
    ensures Examined(b, exact, id)
  {
    var t :| RootTask(a, exact, t) && Reached(DependencyLinks(a), [t.id], id);
    var u := RootTaskStays(a, b, exact, t);
    ReachedMonotone(DependencyLinks(a), DependencyLinks(b), [t.id], id);
  }

  ghost function TaskStays(a: seq<Task>, b: seq<Task>, t: Task): (u: Task)
    requires SameTasks(a, b) && t in a
    ensures u in b && t.(state := u.state) == u
  {
    var i :| 0 <= i < |a| && a[i] == t;
    b[i]
  }

  lemma BothLinksStay(a: Sources, b: Sources, x: string, y: string)
    requires SameLinks(a, b) && y in BothLinks(a)(x)
    ensures y in BothLinks(b)(x)
  {
    if y !in DependencyChildren(a.deps, x) {
      var t, c :| t in a.db.tasks && t.id == x && c in TasksUnder(a.db.tasks, t) && c.id == y;
      var t', c' := TaskStays(a.db.tasks, b.db.tasks, t), TaskStays(a.db.tasks, b.db.tasks, c);
      assert c' in TasksUnder(b.db.tasks, t');
    }
  }

  lemma FullClosureStays(a: Sources, b: Sources, exact: iset<DeleteTarget>, id: string)
    requires SameLinks(a, b) && InFullClosure(a, exact, id)
    ensures InFullClosure(b, exact, id)
  {
    var t :| RootTask(a, exact, t) && Reached(BothLinks(a), [t.id], id);
    var u := RootTaskStays(a, b, exact, t);
    forall x, y | y in BothLinks(a)(x)
      ensures y in BothLinks(b)(x)
    {
      BothLinksStay(a, b, x, y);
    }
    ReachedMonotone(BothLinks(a), BothLinks(b), [t.id], id);
  }

  /** Some task of the closure over both hierarchies is active. */
  ghost predicate ActiveInClosure(s: Sources, req: DeleteTarget) {
    exists t :: t in s.db.tasks && InFullClosure(s, HiddenBy(s, req), t.id) && IsActive(t)
  }

  /** Where dependency-only tasks are covered, a request that passes the check finds the whole closure at rest. */
  lemma CoveredIsAtRest(s: Sources, req: DeleteTarget)
    requires DependencyChildrenCovered(s, HiddenBy(s, req)) && forall t :: Guards(s, req, t) ==> !IsActive(t)
    ensures !ActiveInClosure(s, req)
  {
    FullClosureExamined(s, HiddenBy(s, req));
    if t :| t in s.db.tasks && InFullClosure(s, HiddenBy(s, req), t.id) && IsActive(t) {
      assert Guards(s, req, t);
    }
  }

  lemma CoveredStays(a: Sources, b: Sources, exact: iset<DeleteTarget>)
    requires SameLinks(a, b) && DependencyChildrenCovered(a, exact)
    ensures DependencyChildrenCovered(b, exact)
  {
    FullClosureExamined(a, exact);
    LinksBack(a, b);
    forall id
      ensures InFullClosure(b, exact, id) <==> Examined(b, exact, id)
    {
      if InFullClosure(b, exact, id) {
        FullClosureStays(b, a, exact, id);
        ExaminedStays(a, b, exact, id);
      }
      if Examined(b, exact, id) {
        ExaminedIsInFull(b, exact, id);
      }
    }
    FullClosureExamined(b, exact);
  }

  /** What is examined is done, and everything else runs. */
  ghost function RestExamined(s: Sources, exact: iset<DeleteTarget>): (r: Sources)
    ensures SameLinks(s, r) && StatesKnown(r.db.tasks)
    ensures forall t :: t in r.db.tasks ==> (IsActive(t) <==> !Examined(s, exact, t.id))
  {
    var tasks := seq(|s.db.tasks|, i requires 0 <= i < |s.db.tasks| =>
      s.db.tasks[i].(state := Some(if Examined(s, exact, s.db.tasks[i].id) then Done else Running)));
    s.(db := s.db.(tasks := tasks))
  }

  lemma UncoveredLetsThrough(s: Sources, req: DeleteTarget) returns (r: Sources)
    requires !DependencyChildrenCovered(s, HiddenBy(s, req))
    ensures SameLinks(s, r) && StatesKnown(r.db.tasks) && (forall t :: Guards(r, req, t) ==> !IsActive(t))
    ensures ActiveInClosure(r, req)
  {
    var exact := HiddenBy(s, req);
    r := RestExamined(s, exact);
    LinksBack(s, r);
    HiddenStays(s, r, req);
    forall t | Guards(r, req, t)
      ensures !IsActive(t)
    {
      ExaminedStays(r, s, exact, t.id);
    }
    var id := MissedId(s, exact);
    FullClosureStays(s, r, exact, id);
    var i :| 0 <= i < |s.db.tasks| && s.db.tasks[i].id == id;
    assert s.db.tasks[i].(state := r.db.tasks[i].state) == r.db.tasks[i];
    assert r.db.tasks[i] in r.db.tasks && IsActive(r.db.tasks[i]);
  }

  /** A task of the closure the check does not look at. */
  lemma MissedId(s: Sources, exact: iset<DeleteTarget>) returns (id: string)
    requires !DependencyChildrenCovered(s, exact)
    ensures InFullClosure(s, exact, id) && !Examined(s, exact, id)
    ensures exists i :: 0 <= i < |s.db.tasks| && s.db.tasks[i].id == id
  {
    var root, t, c :| DependencyOnly(s, exact, root, t) && c in TasksUnder(s.db.tasks, t)
      && !exists r :: RootTask(s, exact, r) && DependsOn(s, r, c.id);
    id := c.id;
    ExaminedIsInFull(s, exact, t.id);
    var r :| RootTask(s, exact, r) && Reached(BothLinks(s), [r.id], t.id);
    LinkReached(BothLinks(s), [r.id], t.id, c.id);
    if r' :| RootTask(s, exact, r') && Reached(DependencyLinks(s), [r'.id], id) {
      assert DependsOn(s, r', c.id);
    }
  }

  /** A request the operation goes through with. */
  ghost predicate PassesCheck(s: Sources, req: DeleteTarget) {
    && req.workflow != "" && req.id != "" && req.date != "" && Readable(s.files) && StatesKnown(s.db.tasks)
    && forall t :: Guards(s, req, t) ==> !IsActive(t)
  }

  /** Main result: whatever the states of the tasks, no delete of the request gets past an active task of the closure
      over both hierarchies, exactly when no dependency-only task has a parent-linked child outside. */
  lemma {:induction false} ClosureSafeExactly(s: Sources, req: DeleteTarget)
    requires req.workflow != "" && req.id != "" && req.date != "" && Readable(s.files)
    ensures (forall r :: SameLinks(s, r) && PassesCheck(r, req) ==> !ActiveInClosure(r, req))
       <==> DependencyChildrenCovered(s, HiddenBy(s, req))
  {
    if DependencyChildrenCovered(s, HiddenBy(s, req)) {
      forall r | SameLinks(s, r) && PassesCheck(r, req)
        ensures !ActiveInClosure(r, req)
      {
        HiddenStays(s, r, req);
        CoveredStays(s, r, HiddenBy(s, req));
        CoveredIsAtRest(r, req);
      }
    } else {
      var r := UncoveredLetsThrough(s, req);
      assert SameLinks(s, r) && PassesCheck(r, req);
    }
  }

  const FINISHED := Task("a", "w", "item", Some("ra"), None, Some(Done))
  const DEPENDENCY := Task("b", "w", "other", Some("rb"), None, Some(Done))
  const STILL_RUNNING := Task("c", "w", "third", Some("rc"), Some("rb"), Some(Running))
  const EXAMPLE := Sources(Db([], [FINISHED, DEPENDENCY, STILL_RUNNING], []), [], [Dependency("a", "b")])
  const REQUESTED := DeleteTarget("w", "item", "2026-01-01", Some("ra"))

  lemma ExampleTasks(t: Task)
    ensures t in EXAMPLE.db.tasks <==> t == FINISHED || t == DEPENDENCY || t == STILL_RUNNING
  {
    var tasks := EXAMPLE.db.tasks;
    assert tasks[0] == FINISHED && tasks[1] == DEPENDENCY && tasks[2] == STILL_RUNNING;
  }

  lemma RunningInFullClosure()
    ensures InFullClosure(EXAMPLE, iset{REQUESTED}, "c")
  {
    var next := BothLinks(EXAMPLE);
    ExampleTasks(FINISHED);
    ExampleTasks(DEPENDENCY);
    ExampleTasks(STILL_RUNNING);
    assert OwnTask(REQUESTED, FINISHED) && RootTask(EXAMPLE, iset{REQUESTED}, FINISHED);
    RootReached(next, ["a"], "a");
    assert EXAMPLE.deps[0] == Dependency("a", "b");
    LinkReached(next, ["a"], "a", "b");
    assert STILL_RUNNING in TasksUnder(EXAMPLE.db.tasks, DEPENDENCY);
    assert "c" in ParentLinked(EXAMPLE.db.tasks, EXAMPLE.db.tasks, "b");
    LinkReached(next, ["a"], "b", "c");
  }

  lemma NothingUnderRequested(t: Task)
    ensures !InTaskTree(EXAMPLE.db.tasks, ["ra"], t)
  {
    var roots: seq<string> := ["ra"];
    assert Present(roots) == roots;
    if InTaskTree(EXAMPLE.db.tasks, roots, t) {
      forall c
        ensures c !in TaskLinks(EXAMPLE.db.tasks)("ra")
      {
        TaskLinkMeans(EXAMPLE.db.tasks, "ra", c);
        if u :| u in EXAMPLE.db.tasks && u.parentRunId == Some("ra") && u.runId == Some(c) {
          ExampleTasks(u);
          assert false;
        }
      }
      assert Closed(TaskLinks(EXAMPLE.db.tasks), roots);
      ClosedHoldsReached(TaskLinks(EXAMPLE.db.tasks), roots, roots, t.parentRunId.value);
      ExampleTasks(t);
      assert false;
    }
  }

  lemma RunningNotExamined()
    ensures !Examined(EXAMPLE, iset{REQUESTED}, "c")
  {
    if t :| RootTask(EXAMPLE, iset{REQUESTED}, t) && Reached(DependencyLinks(EXAMPLE), [t.id], "c") {
      NothingUnderRequested(t);
      ExampleTasks(t);
      var s: seq<string> := ["a", "b"];
      assert t.id == "a";
      assert forall p, c :: c in DependencyLinks(EXAMPLE)(p) ==> Dependency(p, c) == EXAMPLE.deps[0];
      assert Closed(DependencyLinks(EXAMPLE), s);
      ClosedHoldsReached(DependencyLinks(EXAMPLE), ["a"], s, "c");
      assert false;
    }
  }

  lemma OnlyRequestedHidden()
    ensures HiddenBy(EXAMPLE, REQUESTED) == iset{REQUESTED}
  {
    forall t
      ensures InScope(EXAMPLE, REQUESTED, t) <==> t == REQUESTED
    {
      assert forall p :: Under(EXAMPLE, p) == [];
    }
    assert ExactOf(EXAMPLE, REQUESTED) == [REQUESTED];
    assert Hides(EXAMPLE, REQUESTED, REQUESTED);
  }

  lemma RunningTaskIsOutside()
    ensures STILL_RUNNING in EXAMPLE.db.tasks && IsActive(STILL_RUNNING)
    ensures InFullClosure(EXAMPLE, iset{REQUESTED}, STILL_RUNNING.id)
    ensures !Examined(EXAMPLE, iset{REQUESTED}, STILL_RUNNING.id)
  {
    ExampleTasks(STILL_RUNNING);
    RunningInFullClosure();
    RunningNotExamined();
  }

  lemma NothingForbids(t: Task)
    requires Guards(EXAMPLE, REQUESTED, t)
    ensures !IsActive(t)
  {
    OnlyRequestedHidden();
    ExampleTasks(t);
    RunningNotExamined();
  }

  lemma NothingRefuses()
    ensures Readable(EXAMPLE.files) && StatesKnown(EXAMPLE.db.tasks)
    ensures REQUESTED.workflow != "" && REQUESTED.id != "" && REQUESTED.date != ""
  {
    forall i | 0 <= i < |EXAMPLE.db.tasks|
      ensures EXAMPLE.db.tasks[i].state.Some?
    {
      ExampleTasks(EXAMPLE.db.tasks[i]);
    }
  }

  /** The condition can fail: a running task under the run of a finished dependency is in the closure of what the
      request hides, and the delete goes through. */
  method RunningTaskUnderDependency() returns (o: Outcome)
    ensures o.Deleted?
    ensures STILL_RUNNING in EXAMPLE.db.tasks && IsActive(STILL_RUNNING)
    ensures InFullClosure(EXAMPLE, HiddenBy(EXAMPLE, REQUESTED), STILL_RUNNING.id)
  {
    OnlyRequestedHidden();
    RunningTaskIsOutside();
    NothingRefuses();
    var deletions := new Deletions(EXAMPLE);
    o := deletions.DeleteEntry(REQUESTED);
    if o.ActiveTask? {
      NothingForbids(o.task);
    }
  }
}
