/** The two places that write a run's terminal row: the kernel wrapper around a handler and the
    daemon's teardown branch, with every emit free to fail. */
module TrackedWorkflow {
  import opened Common
  import opened RunRegistry
  import opened TerminalRows

  // ---- teardown-transition.ts ----

  datatype FailReason = NoResponsivePeer | NoDaemon

  datatype TeardownAction = Reassign | Fail(reason: FailReason) | CancelItem

  datatype TeardownArgs = TeardownArgs(
    reassignInFlight: bool, forceShutdown: bool, hasTaskId: bool, responsivePeerCount: nat, pidAlivePeerCount: nat)

  /** Never hands an item to nobody, never parks it on peers that do not answer, never turns a forced shutdown into a
      cancel, and leaves a deliberate cancel one, whoever could take the item. */
  function ResolveTeardownTransition(args: TeardownArgs): (action: TeardownAction)
    ensures action.Reassign? ==> args.reassignInFlight && args.hasTaskId && args.responsivePeerCount > 0
    ensures args.reassignInFlight && args.hasTaskId && args.responsivePeerCount > 0 ==> action.Reassign?
    ensures args.reassignInFlight && args.responsivePeerCount == 0 && args.pidAlivePeerCount > 0
      ==> action == Fail(NoResponsivePeer)
    ensures action == Fail(NoResponsivePeer) ==> args.reassignInFlight && args.pidAlivePeerCount > 0
    ensures args.forceShutdown ==> !action.CancelItem?
    ensures !args.reassignInFlight ==> (action == Fail(NoDaemon) <==> args.forceShutdown)
    ensures !args.reassignInFlight && !args.forceShutdown ==> action.CancelItem?
    ensures args.reassignInFlight && args.pidAlivePeerCount == 0 && args.responsivePeerCount == 0 ==>
      action == if args.forceShutdown then Fail(NoDaemon) else CancelItem
    ensures args.reassignInFlight && !args.hasTaskId && args.pidAlivePeerCount > 0 ==> action == Fail(NoResponsivePeer)
  {
    if args.reassignInFlight && args.responsivePeerCount > 0 && args.hasTaskId then Reassign
    else if args.reassignInFlight && args.pidAlivePeerCount > 0 then Fail(NoResponsivePeer)
    else if args.forceShutdown then Fail(NoDaemon)
    else CancelItem
  }

  // ---- tracked-workflow.ts ----

  datatype Row = Row(run: string, done: bool, step: Option<string>, byDaemon: bool)

  /** How the handler ended; `stepName` is what a CancelledError carries. */
  datatype Handler = Completed | Threw(cancelled: bool, stepName: string)

  datatype End = Returned | Rethrew | EmitThrew

  function TerminalStep(error: Handler, lastStep: Option<string>): Option<string>
    requires error.Threw?
  {
    if error.cancelled && (error.stepName == "discarded" || error.stepName == "cancelled") then Some(error.stepName)
    else lastStep
  }

  /** The kernel stays silent about a cancel that went through the registry: the daemon owns that row. */
  predicate Suppressed(s: State, run: string, handler: Handler) {
    handler.Threw? && handler.cancelled && run in s.origins
  }

  /** The rows the kernel wrapper tries to write, one after another until one lands. */
  function KernelPlan(s: State, run: string, handler: Handler, lastStep: Option<string>): seq<Row> {
    if run in s.tokens || Suppressed(s, run, handler) then []
    else if handler.Completed? then [Row(run, true, None, false), Row(run, false, lastStep, false)]
    else [Row(run, false, TerminalStep(handler, lastStep), false)]
  }

  /** The row the daemon's branch tries to write. */
  function DaemonPlan(s: State, run: string, action: TeardownAction, applied: bool): seq<Row> {
    if run in s.tokens || action.Reassign? || !applied then []
    else [Row(run, false, if action.CancelItem? then Some("cancelled") else None, true)]
  }

  // ---- What a plan writes, when emits may fail ----

  /** `written` are the rows on disk, `torn` counts those whose emit threw all the same, `rest` are the results left. */
  datatype Played = Played(written: seq<Row>, torn: nat, rest: seq<EmitResult>, landed: bool)

  /** One emit after another, until one lands; past the end of the script every emit does. */
  function Play(script: seq<EmitResult>, plan: seq<Row>): Played
    decreases |plan|
  {
    if plan == [] then Played([], 0, script, false)
    else if script == [] then Played([plan[0]], 0, [], true)
    else
      match script[0]
      case Landed => Played([plan[0]], 0, script[1..], true)
      case FailedBefore => Play(script[1..], plan[1..])
      case FailedAfter =>
        var p := Play(script[1..], plan[1..]);
        Played([plan[0]] + p.written, p.torn + 1, p.rest, p.landed)
  }

  /** One of the next `n` emits lands. */
  predicate Lands(script: seq<EmitResult>, n: nat) { exists i: nat :: i < n && LandsAt(script, i) }

  predicate LandsAt(script: seq<EmitResult>, i: nat) { i >= |script| || script[i].Landed? }

  /** Beyond the torn ones there is one row if an emit of the plan lands, and none otherwise. */
  lemma {:induction false} PlayCounts(script: seq<EmitResult>, plan: seq<Row>)
    ensures Play(script, plan).landed <==> Lands(script, |plan|)
    ensures |Play(script, plan).written| == Play(script, plan).torn + (if Lands(script, |plan|) then 1 else 0)
    decreases |plan|
  {
    if plan != [] {
      if LandsAt(script, 0) {
        assert Lands(script, |plan|);
      } else {
        PlayCounts(script[1..], plan[1..]);
        LandsLater(script, |plan|);
      }
    }
  }

  lemma LandsLater(script: seq<EmitResult>, n: nat)
    requires n > 0 && !LandsAt(script, 0)
    ensures Lands(script, n) <==> Lands(script[1..], n - 1)
  {
    if i: nat :| i < n && LandsAt(script, i) {
      assert LandsAt(script[1..], i - 1);
    }
    if i: nat :| i < n - 1 && LandsAt(script[1..], i) {
      assert LandsAt(script, i + 1);
    }
  }

  function Then(p: Played, q: Played): Played {
    if p.landed then p else Played(p.written + q.written, p.torn + q.torn, q.rest, q.landed)
  }

  /** A second plan gets its turn only where no emit of the first landed. */
  lemma {:induction false} PlayThen(script: seq<EmitResult>, a: seq<Row>, b: seq<Row>)
    ensures Play(script, a + b) == Then(Play(script, a), Play(Play(script, a).rest, b))
    decreases |a|
  {
    if a == [] {
      assert a + b == b;
    } else {
      assert (a + b)[1..] == a[1..] + b;
      if script != [] && !script[0].Landed? {
        PlayThen(script[1..], a[1..], b);
        Regroup([a[0]], Play(script[1..], a[1..]).written, Play(Play(script[1..], a[1..]).rest, b).written);
      }
    }
  }

  /** The emits one item may try: the wrapper's, then, if the item was stopped or its cancel went through the registry,
      the daemon's. */
  function ItemPlan(s: State, run: string, handler: Handler, lastStep: Option<string>,
                    stopped: bool, action: TeardownAction, applied: bool): seq<Row> {
    KernelPlan(s, run, handler, lastStep)
    + (if stopped || Suppressed(s, run, handler) then DaemonPlan(s, run, action, applied) else [])
  }

  /** There is a plan, unless a cancel that went through the registry was reassigned to a peer or its task transition
      did not apply. */
  lemma PlansAreMade(s: State, run: string, handler: Handler, lastStep: Option<string>,
                     stopped: bool, action: TeardownAction, applied: bool)
    requires run !in s.tokens
    ensures ItemPlan(s, run, handler, lastStep, stopped, action, applied) == []
       <==> Suppressed(s, run, handler) && (action.Reassign? || !applied)
  {
  }

  /** What the item was registered as and how it was cancelled, before its handler ends. */
  function Started(s: State, run: string, handle: Handle, cancels: seq<CancelOrigin>): State
    decreases |cancels|
  {
    if cancels == [] then Registered(s, run, handle)
    else AfterCancel(Started(s, run, handle, cancels[..|cancels| - 1]), run, cancels[|cancels| - 1])
  }

  lemma {:induction false} StartedCancelled(s: State, run: string, handle: Handle, cancels: seq<CancelOrigin>)
    requires run !in s.origins
    ensures var t := Started(s, run, handle, cancels);
      run in t.handles && t.tokens == s.tokens && (run in t.origins <==> cancels != [])
    decreases |cancels|
  {
    if cancels != [] {
      StartedCancelled(s, run, handle, cancels[..|cancels| - 1]);
    }
  }

  // ---- What the rows say ----

  /** The step a failed row carries: the sentinel of a cancel that named one, else the last step. */
  predicate CarriesStep(row: Row, handler: Handler, lastStep: Option<string>) {
    if handler.Threw? && handler.cancelled && handler.stepName in ["cancelled", "discarded"]
    then row.step == Some(handler.stepName)
    else row.step == lastStep
  }

  /** A row of the wrapper: done only for a handler that completed, and then without a step. */
  predicate TellsHandler(row: Row, run: string, handler: Handler, lastStep: Option<string>) {
    && row.run == run && !row.byDaemon
    && (row.done ==> handler.Completed? && row.step == None)
    && (!row.done ==> CarriesStep(row, handler, lastStep))
  }

  /** A row of the daemon: never done, and a cancelled one exactly for a deliberate cancel. */
  predicate TellsTeardown(row: Row, run: string, action: TeardownAction) {
    row.run == run && row.byDaemon && !row.done && (row.step == Some("cancelled") <==> action.CancelItem?)
    && (row.step == None <==> action.Fail?)
  }

  /** What is written is of the plan, in its order. */
  lemma {:induction false} WrittenOfPlan(script: seq<EmitResult>, plan: seq<Row>)
    ensures forall row :: row in Play(script, plan).written ==> row in plan
    ensures Play(script, plan).landed ==> Play(script, plan).written != []
    decreases |plan|
  {
    if plan != [] && script != [] && !script[0].Landed? {
      WrittenOfPlan(script[1..], plan[1..]);
    }
  }

  lemma KernelRows(s: State, run: string, handler: Handler, lastStep: Option<string>, row: Row)
    requires row in KernelPlan(s, run, handler, lastStep)
    ensures TellsHandler(row, run, handler, lastStep)
  {
  }

  lemma PlayOne(script: seq<EmitResult>, row: Row)
    ensures Play(script, [row]).written == [] || Play(script, [row]).written == [row]
    ensures Play(script, [row]).landed <==> LandsAt(script, 0)
    ensures LandsAt(script, 0) ==> Play(script, [row]).written == [row] && Play(script, [row]).torn == 0
  {
    var plan: seq<Row> := [row];
    assert plan[1..] == [];
  }

  /** A completed handler's first row is the done one, a failed row follows only where that did not land, and a handler
      that threw gets a failed one. */
  lemma KernelRowsWritten(script: seq<EmitResult>, s: State, run: string, handler: Handler, lastStep: Option<string>)
    ensures var p := Play(script, KernelPlan(s, run, handler, lastStep));
      && (forall row :: row in p.written ==> TellsHandler(row, run, handler, lastStep))
      && (p.written != [] && p.written[|p.written| - 1].done && p.torn == 0
          <==> handler.Completed? && run !in s.tokens && LandsAt(script, 0))
      && (handler.Completed? && run !in s.tokens && LandsAt(script, 0) ==>
            p.written == [Row(run, true, None, false)] && p.torn == 0)
  {
    var plan := KernelPlan(s, run, handler, lastStep);
    WrittenOfPlan(script, plan);
    if |plan| == 2 {
      assert plan[1..] == [plan[1]];
      if !LandsAt(script, 0) {
        PlayOne(script[1..], plan[1]);
      }
    } else if |plan| == 1 {
      assert plan == [plan[0]];
      PlayOne(script, plan[0]);
    }
    forall row | row in Play(script, plan).written
      ensures TellsHandler(row, run, handler, lastStep)
    {
      KernelRows(s, run, handler, lastStep, row);
    }
  }

  lemma DaemonRows(s: State, run: string, action: TeardownAction, applied: bool, row: Row)
    requires row in DaemonPlan(s, run, action, applied)
    ensures TellsTeardown(row, run, action) && applied && !action.Reassign?
  {
  }

  /** A row of the item: the wrapper's, or the daemon's. */
  predicate TellsItem(row: Row, run: string, handler: Handler, lastStep: Option<string>, action: TeardownAction) {
    TellsHandler(row, run, handler, lastStep) || TellsTeardown(row, run, action)
  }

  lemma ItemRowsWritten(script: seq<EmitResult>, s: State, run: string, handler: Handler, lastStep: Option<string>,
                        stopped: bool, action: TeardownAction, applied: bool)
    ensures forall row ::
      row in Play(script, ItemPlan(s, run, handler, lastStep, stopped, action, applied)).written ==>
        && TellsItem(row, run, handler, lastStep, action)
        && (row.byDaemon ==> applied && (stopped || Suppressed(s, run, handler)))
        && (Suppressed(s, run, handler) ==> row.byDaemon)
    ensures run !in s.tokens && handler.Completed? && LandsAt(script, 0) ==>
      Play(script, ItemPlan(s, run, handler, lastStep, stopped, action, applied)).written
      == [Row(run, true, None, false)]
  {
    var plan := ItemPlan(s, run, handler, lastStep, stopped, action, applied);
    WrittenOfPlan(script, plan);
    forall row | row in Play(script, plan).written
      ensures TellsItem(row, run, handler, lastStep, action)
      ensures row.byDaemon ==> applied && (stopped || Suppressed(s, run, handler))
      ensures Suppressed(s, run, handler) ==> row.byDaemon
    {
      if row in KernelPlan(s, run, handler, lastStep) {
        KernelRows(s, run, handler, lastStep, row);
      } else {
        DaemonRows(s, run, action, applied, row);
      }
    }
    KernelRowsWritten(script, s, run, handler, lastStep);
  }

  /** Everything an emit may change. */
  datatype Book = Book(reg: State, rows: seq<Row>, torn: nat, script: seq<EmitResult>)

  /** The plan worked off: this much was written, and the token is committed if an emit landed. */
  function Worked(b: Book, run: string, plan: seq<Row>): Book { Booked(b, run, Play(b.script, plan)) }

  function Booked(b: Book, run: string, p: Played): Book {
    Book(if p.landed then b.reg.(tokens := b.reg.tokens[run := RunRegistry.Committed]) else b.reg,
         b.rows + p.written, b.torn + p.torn, p.rest)
  }

  lemma WorkedThen(b: Book, run: string, x: seq<Row>, y: seq<Row>)
    ensures Worked(b, run, x + y)
      == if Play(b.script, x).landed then Worked(b, run, x) else Worked(Worked(b, run, x), run, y)
  {
    PlayThen(b.script, x, y);
    BookedThen(b, run, Play(b.script, x), Play(Play(b.script, x).rest, y));
  }

  lemma BookedThen(b: Book, run: string, p: Played, q: Played)
    ensures Booked(b, run, Then(p, q)) == if p.landed then Booked(b, run, p) else Booked(Booked(b, run, p), run, q)
  {
    Regroup(b.rows, p.written, q.written);
  }

  lemma WorkedNothing(b: Book, run: string)
    ensures Worked(b, run, []) == b
  {
    assert b.rows + [] == b.rows;
  }

  class RunLog {
    const registry: Registry
    var rows: seq<Row>
    var torn: nat
    var script: seq<EmitResult>

    constructor (registry: Registry, script: seq<EmitResult>)
      ensures this.registry == registry && rows == [] && torn == 0 && this.script == script
    {
      this.registry, this.rows, this.torn, this.script := registry, [], 0, script;
    }

    /** One tracker row; `ok` is false where the emit throws. */
    method EmitRow(row: Row) returns (ok: bool)
      modifies this
      ensures var p := Play(old(script), [row]);
        rows == old(rows) + p.written && torn == old(torn) + p.torn && script == p.rest && ok == p.landed
    {
      var result := Landed;
      if |script| > 0 {
        result := script[0];
        script := script[1..];
      }
      if result != FailedBefore {
        rows := rows + [row];
      }
      if result == FailedAfter {
        torn := torn + 1;
      }
      ok := result == Landed;
    }

    function Now(): Book
      reads this, registry
    {
      Book(registry.Abs(), rows, torn, script)
    }

    /** Emit under the token: commit on success, roll back on a throw, nothing when another emitter has it. */
    method EmitTerminal(run: string, row: Row) returns (threw: bool)
      modifies this, registry
      ensures Now() == Worked(old(Now()), run, if run in old(registry.terminalWrites) then [] else [row])
      ensures threw <==> run !in old(registry.terminalWrites) && !Play(old(script), [row]).landed
      ensures registry.terminalWrites
           == if run in old(registry.terminalWrites) || threw then old(registry.terminalWrites)
              else old(registry.terminalWrites)[run := RunRegistry.Committed]
    {
      var won := registry.ClaimTerminalWrite(run);
      if !won {
        return false;
      }
      var ok := EmitRow(row);
      if ok {
        ok := registry.CommitTerminalWrite(run);
      }
      if !ok {
        registry.RollbackTerminalWrite(run);
      }
      threw := !ok;
    }

    /** The kernel wrapper, and what its rows say. */
    method WithTrackedWorkflow(run: string, handler: Handler, lastStep: Option<string>) returns (end: End)
      modifies this, registry
      ensures Now() == Worked(old(Now()), run, KernelPlan(old(registry.Abs()), run, handler, lastStep))
      ensures end == EmitThrew <==>
        var plan := KernelPlan(old(registry.Abs()), run, handler, lastStep);
        plan != [] && !Play(old(script), plan).landed
      ensures end == Returned <==>
        handler.Completed?
          && (run in old(registry.terminalWrites) || Play(old(script), [Row(run, true, None, false)]).landed)
      ensures old(rows) <= rows
      ensures forall i :: |old(rows)| <= i < |rows| ==> TellsHandler(rows[i], run, handler, lastStep)
      ensures run !in old(registry.terminalWrites) ==>
        (end == Returned <==> |rows| > |old(rows)| && rows[|rows| - 1].done && torn == old(torn))
      ensures run !in old(registry.terminalWrites) && handler.Completed? && LandsAt(old(script), 0) ==>
        rows == old(rows) + [Row(run, true, None, false)]
    {
      KernelRowsWritten(script, registry.Abs(), run, handler, lastStep);
      PlayOne(script, Row(run, true, None, false));
      end := Finish(run, handler, lastStep);
    }

    /** The success path, and the catch path behind it. */
    method Finish(run: string, handler: Handler, lastStep: Option<string>) returns (end: End)
      modifies this, registry
      ensures Now() == Worked(old(Now()), run, KernelPlan(old(registry.Abs()), run, handler, lastStep))
      ensures end == EmitThrew <==>
        var plan := KernelPlan(old(registry.Abs()), run, handler, lastStep);
        plan != [] && !Play(old(script), plan).landed
      ensures end == Returned <==>
        handler.Completed?
          && (run in old(registry.terminalWrites) || Play(old(script), [Row(run, true, None, false)]).landed)
    {
      WorkedNothing(Now(), run);
      if handler.Completed? {
        ghost var done, failed := Row(run, true, None, false), Row(run, false, lastStep, false);
        assert [done] + [failed] == [done, failed];
        WorkedThen(Now(), run, [done], [failed]);
        PlayThen(script, [done], [failed]);
        var threw := EmitTerminal(run, Row(run, true, None, false));
        if !threw {
          return Returned;
        }
        end := Fail(run, Threw(false, ""), lastStep);
      } else {
        end := Fail(run, handler, lastStep);
      }
    }

    /** The catch path: the handler's error, or that of the emit before. */
    method Fail(run: string, error: Handler, lastStep: Option<string>) returns (end: End)
      requires error.Threw?
      modifies this, registry
      ensures Now() == Worked(old(Now()), run, KernelPlan(old(registry.Abs()), run, error, lastStep))
      ensures end == EmitThrew <==>
        var plan := KernelPlan(old(registry.Abs()), run, error, lastStep);
        plan != [] && !Play(old(script), plan).landed
      ensures end != Returned
    {
      WorkedNothing(Now(), run);
      var suppress := error.cancelled && run in registry.cancelOrigins;
      if !suppress {
        var threw := EmitTerminal(run, Row(run, false, TerminalStep(error, lastStep), false));
        if threw {
          return EmitThrew;
        }
      }
      return Rethrew;
    }

    /** The daemon's branch for a stopped item; `applied` tells whether the task transition took effect. */
    method SettleStopped(run: string, action: TeardownAction, applied: bool)
      modifies this, registry
      ensures Now() == Worked(old(Now()), run, DaemonPlan(old(registry.Abs()), run, action, applied))
      ensures old(rows) <= rows && forall i :: |old(rows)| <= i < |rows| ==> TellsTeardown(rows[i], run, action)
      ensures run !in old(registry.terminalWrites) && applied && !action.Reassign? && LandsAt(old(script), 0) ==>
        |rows| == |old(rows)| + 1
      ensures action.Reassign? || !applied ==> rows == old(rows)
    {
      WorkedNothing(Now(), run);
      match action {
        case Reassign =>
        case Fail(_) =>
          if applied {
            var _ := EmitTerminal(run, Row(run, false, None, true));
          }
        case CancelItem =>
          if applied {
            var _ := EmitTerminal(run, Row(run, false, Some("cancelled"), true));
          }
      }
    }

    /** The wrapper, and the daemon's branch after it: entered for a stopped item and for a cancel the wrapper passed
        on, but not for an emit's own error. */
    method TryItem(run: string, handler: Handler, lastStep: Option<string>, stopped: bool, action: TeardownAction,
                   applied: bool)
      requires run !in registry.terminalWrites
      modifies this, registry
      ensures Now()
        == Worked(old(Now()), run, ItemPlan(old(registry.Abs()), run, handler, lastStep, stopped, action, applied))
    {
      ghost var kernel := KernelPlan(registry.Abs(), run, handler, lastStep);
      ghost var daemon := if stopped || Suppressed(registry.Abs(), run, handler)
        then DaemonPlan(registry.Abs(), run, action, applied) else [];
      WorkedThen(Now(), run, kernel, daemon);
      WorkedNothing(Worked(Now(), run, kernel), run);
      var end := WithTrackedWorkflow(run, handler, lastStep);
      if stopped || (end == Rethrew && handler.Threw? && handler.cancelled) {
        SettleStopped(run, action, applied);
      }
    }

    /** Main result. One item from registration to release, with any cancels arriving while the handler runs: whatever
        the emits do, exactly one row beyond those whose emit landed and threw, if an emit of the plan lands. */
    method RunItem(run: string, handle: Handle, cancels: seq<CancelOrigin>, handler: Handler, lastStep: Option<string>,
                   stopped: bool, args: TeardownArgs, applied: bool)
      requires run !in registry.terminalWrites && run !in registry.cancelOrigins
      modifies this, registry
      ensures run !in registry.terminalWrites && run !in registry.cancelOrigins
      ensures var plan := ItemPlan(Started(old(registry.Abs()), run, handle, cancels), run, handler, lastStep, stopped,
                                   ResolveTeardownTransition(args), applied);
        && rows == old(rows) + Play(old(script), plan).written && script == Play(old(script), plan).rest
        && |rows| - torn == |old(rows)| - old(torn) + (if Lands(old(script), |plan|) then 1 else 0)
        && (plan == [] <==> handler.Threw? && handler.cancelled && cancels != []
                            && (ResolveTeardownTransition(args).Reassign? || !applied))
      ensures old(rows) <= rows
      ensures forall i :: |old(rows)| <= i < |rows| ==>
        && TellsItem(rows[i], run, handler, lastStep, ResolveTeardownTransition(args))
        && (rows[i].byDaemon ==> applied && (stopped || (handler.Threw? && handler.cancelled && cancels != [])))
        && (handler.Threw? && handler.cancelled && cancels != [] ==> rows[i].byDaemon)
      ensures handler.Completed? && LandsAt(old(script), 0) ==> rows == old(rows) + [Row(run, true, None, false)]
    {
      registry.Register(run, handle);
      for i := 0 to |cancels|
        invariant rows == old(rows) && torn == old(torn) && script == old(script)
        invariant registry.Abs() == Started(old(registry.Abs()), run, handle, cancels[..i])
      {
        assert cancels[..i + 1][..i] == cancels[..i];
        var _ := registry.Cancel(run, Some(cancels[i]));
      }
      assert cancels[..|cancels|] == cancels;
      StartedCancelled(old(registry.Abs()), run, handle, cancels);
      PlansAreMade(registry.Abs(), run, handler, lastStep, stopped, ResolveTeardownTransition(args), applied);
      PlayCounts(script,
        ItemPlan(registry.Abs(), run, handler, lastStep, stopped, ResolveTeardownTransition(args), applied));
      ItemRowsWritten(script, registry.Abs(), run, handler, lastStep, stopped, ResolveTeardownTransition(args),
        applied);
      TryItem(run, handler, lastStep, stopped, ResolveTeardownTransition(args), applied);
      registry.Unregister(run);
      registry.ReleaseTerminalWrite(run);
    }
  }
}
