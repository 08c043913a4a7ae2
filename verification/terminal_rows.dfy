/** Any number of emitters racing for any number of runs, interleaved step by step. */
module TerminalRows {
  import opened Common
  import opened RunRegistry

  /** An emit may throw before the row reaches the file, or after it (a failed sync or lock clean-up). */
  datatype EmitResult = Landed | FailedBefore | FailedAfter

  datatype Phase = Claimed | Wrote | Failing

  datatype InFlight = InFlight(run: string, phase: Phase)

  /** `rows` and `torn` count, since the run's last release, terminal rows on disk and those of them
      whose emit threw all the same. */
  datatype World = World(reg: State, emitters: map<nat, InFlight>, rows: map<string, nat>, torn: map<string, nat>) {
    function Rows(run: string): nat { if run in rows then rows[run] else 0 }

    function Torn(run: string): nat { if run in torn then torn[run] else 0 }
  }

  datatype Event =
    | Register(run: string, handle: Handle)
    | Unregister(run: string)
    | Cancel(run: string, origin: CancelOrigin)
    | Claim(emitter: nat, run: string)
    | Emit(emitter: nat, result: EmitResult)
    | Commit(emitter: nat)
    | Rollback(emitter: nat)
    | Release(run: string)

  predicate Busy(w: World, run: string) { exists e :: e in w.emitters && w.emitters[e].run == run }

  predicate HasWritten(w: World, run: string) { exists e :: e in w.emitters && w.emitters[e] == InFlight(run, Wrote) }

  /** Claim, emit and commit run without an await in between, so a release never falls inside them. */
  predicate Enabled(w: World, ev: Event) {
    match ev
    case Claim(e, _) => e !in w.emitters
    case Emit(e, _) => e in w.emitters && w.emitters[e].phase == Claimed
    case Commit(e) => e in w.emitters && w.emitters[e].phase == Wrote
    case Rollback(e) => e in w.emitters && w.emitters[e].phase == Failing
    case Release(run) => !Busy(w, run)
    case _ => true
  }

  function Apply(w: World, ev: Event): World
    requires Enabled(w, ev)
  {
    match ev
    case Register(run, handle) => w.(reg := Registered(w.reg, run, handle))
    case Unregister(run) => w.(reg := Unregistered(w.reg, run))
    case Cancel(run, origin) => w.(reg := AfterCancel(w.reg, run, origin))
    case Claim(e, run) =>
      if run in w.reg.tokens then w
      else w.(reg := AfterClaim(w.reg, run), emitters := w.emitters[e := InFlight(run, Claimed)])
    case Emit(e, result) =>
      var run := w.emitters[e].run;
      w.(emitters := w.emitters[e := InFlight(run, if result.Landed? then Wrote else Failing)],
         rows := if result.FailedBefore? then w.rows else w.rows[run := w.Rows(run) + 1],
         torn := if result.FailedAfter? then w.torn[run := w.Torn(run) + 1] else w.torn)
    case Commit(e) =>
      var run := w.emitters[e].run;
      if HoldsReservation(w.reg, run)
      then w.(reg := AfterCommit(w.reg, run), emitters := w.emitters - {e})
      else w.(emitters := w.emitters[e := InFlight(run, Failing)])
    case Rollback(e) =>
      w.(reg := AfterRollback(w.reg, w.emitters[e].run), emitters := w.emitters - {e})
    case Release(run) =>
      w.(reg := AfterRelease(w.reg, run), rows := w.rows - {run}, torn := w.torn - {run})
  }

  predicate Legal(w: World, events: seq<Event>)
    decreases |events|
  {
    events != [] ==> Enabled(w, events[0]) && Legal(Apply(w, events[0]), events[1..])
  }

  function Run(w: World, events: seq<Event>): World
    requires Legal(w, events)
    decreases |events|
  {
    if events == [] then w else Run(Apply(w, events[0]), events[1..])
  }

  const START := World(EMPTY, map[], map[], map[])

  predicate OnePerRun(w: World) {
    forall e1, e2 :: e1 in w.emitters && e2 in w.emitters && w.emitters[e1].run == w.emitters[e2].run ==> e1 == e2
  }

  /** The token is reserved exactly while one emitter is between claim and commit or rollback. */
  predicate TokenTracksEmitter(w: World, run: string) { HoldsReservation(w.reg, run) <==> Busy(w, run) }

  predicate Committed(w: World, run: string) { run in w.reg.tokens && w.reg.tokens[run] == RunRegistry.Committed }

  /** Terminal rows on disk: one for the token's holder, and one for each emit that landed and threw. */
  predicate RowsAccounted(w: World, run: string) {
    w.Rows(run) == w.Torn(run) + (if Committed(w, run) || HasWritten(w, run) then 1 else 0)
  }

  ghost predicate Inv(w: World) {
    OnePerRun(w) && forall run: string :: TokenTracksEmitter(w, run) && RowsAccounted(w, run)
  }

  lemma {:induction false} OtherRunsUntouched(w: World, e: nat, next: map<nat, InFlight>, mine: string, run: string)
    requires run != mine
    requires next.Keys + {e} == w.emitters.Keys + {e}
    requires forall o :: o in next && o != e ==> next[o] == w.emitters[o]
    requires e in w.emitters ==> w.emitters[e].run == mine
    requires e in next ==> next[e].run == mine
    ensures Busy(w, run) <==> Busy(w.(emitters := next), run)
    ensures HasWritten(w, run) <==> HasWritten(w.(emitters := next), run)
  {
    if Busy(w, run) {
      var o :| o in w.emitters && w.emitters[o].run == run;
      assert o in next && next[o].run == run;
    }
    if HasWritten(w, run) {
      var o :| o in w.emitters && w.emitters[o] == InFlight(run, Wrote);
      assert o in next && next[o] == InFlight(run, Wrote);
    }
  }

  lemma {:induction false} StaysOnePerRun(w: World, ev: Event)
    requires Inv(w) && Enabled(w, ev)
    ensures OnePerRun(Apply(w, ev))
  {
    if ev.Claim? {
      assert TokenTracksEmitter(w, ev.run);
    }
  }

  lemma {:induction false} StepRun(w: World, ev: Event, run: string)
    requires Inv(w) && Enabled(w, ev)
    ensures TokenTracksEmitter(Apply(w, ev), run) && RowsAccounted(Apply(w, ev), run)
  {
    assert TokenTracksEmitter(w, run) && RowsAccounted(w, run);
    match ev {
      case Claim(e, mine) => ClaimStep(w, e, mine, run);
      case Emit(e, result) => EmitStep(w, e, result, run);
      case Commit(e) => CommitStep(w, e, run);
      case Rollback(e) => RollbackStep(w, e, run);
      case _ =>
    }
  }

  lemma {:induction false} ClaimStep(w: World, e: nat, mine: string, run: string)
    requires TokenTracksEmitter(w, run) && RowsAccounted(w, run) && Enabled(w, Claim(e, mine))
    ensures TokenTracksEmitter(Apply(w, Claim(e, mine)), run) && RowsAccounted(Apply(w, Claim(e, mine)), run)
  {
    var w' := Apply(w, Claim(e, mine));
    if run == mine {
      if mine !in w.reg.tokens {
        assert w'.emitters[e].run == mine;
      }
    } else {
      OtherRunsUntouched(w, e, w'.emitters, mine, run);
    }
  }

  lemma {:induction false} EmitStep(w: World, e: nat, result: EmitResult, run: string)
    requires OnePerRun(w) && TokenTracksEmitter(w, run) && RowsAccounted(w, run) && Enabled(w, Emit(e, result))
    ensures TokenTracksEmitter(Apply(w, Emit(e, result)), run) && RowsAccounted(Apply(w, Emit(e, result)), run)
  {
    var w', mine := Apply(w, Emit(e, result)), w.emitters[e].run;
    if run == mine {
      assert w'.emitters[e].run == mine;
    } else {
      OtherRunsUntouched(w, e, w'.emitters, mine, run);
    }
  }

  lemma {:induction false} CommitStep(w: World, e: nat, run: string)
    requires OnePerRun(w) && Enabled(w, Commit(e))
    requires TokenTracksEmitter(w, run) && RowsAccounted(w, run) && TokenTracksEmitter(w, w.emitters[e].run)
    ensures TokenTracksEmitter(Apply(w, Commit(e)), run) && RowsAccounted(Apply(w, Commit(e)), run)
  {
    var w', mine := Apply(w, Commit(e)), w.emitters[e].run;
    assert Busy(w, mine) && HasWritten(w, mine);
    if run == mine {
      assert forall o :: o in w'.emitters ==> w'.emitters[o].run != mine;
    } else {
      OtherRunsUntouched(w, e, w'.emitters, mine, run);
    }
  }

  lemma {:induction false} RollbackStep(w: World, e: nat, run: string)
    requires OnePerRun(w) && Enabled(w, Rollback(e))
    requires TokenTracksEmitter(w, run) && RowsAccounted(w, run) && TokenTracksEmitter(w, w.emitters[e].run)
    ensures TokenTracksEmitter(Apply(w, Rollback(e)), run) && RowsAccounted(Apply(w, Rollback(e)), run)
  {
    var w', mine := Apply(w, Rollback(e)), w.emitters[e].run;
    assert Busy(w, mine);
    if run == mine {
      assert forall o :: o in w'.emitters ==> w'.emitters[o].run != mine;
    } else {
      OtherRunsUntouched(w, e, w'.emitters, mine, run);
    }
  }

  lemma {:induction false} StepInv(w: World, ev: Event)
    requires Inv(w) && Enabled(w, ev)
    ensures Inv(Apply(w, ev))
  {
    StaysOnePerRun(w, ev);
    forall run: string
      ensures TokenTracksEmitter(Apply(w, ev), run) && RowsAccounted(Apply(w, ev), run)
    {
      StepRun(w, ev, run);
    }
  }

  lemma {:induction false} RunInv(w: World, events: seq<Event>)
    requires Inv(w) && Legal(w, events)
    ensures Inv(Run(w, events))
    decreases |events|
  {
    if events != [] {
      StepInv(w, events[0]);
      RunInv(Apply(w, events[0]), events[1..]);
    }
  }

  // ---- What a step does, by fields ----

  /** Runs are registered, unregistered and cancelled at any time, without a row or a token touched. */
  lemma RegistryMoves(w: World, run: string, handle: Handle, origin: CancelOrigin)
    ensures Enabled(w, Register(run, handle)) && Enabled(w, Unregister(run)) && Enabled(w, Cancel(run, origin))
    ensures forall ev | ev in [Register(run, handle), Unregister(run), Cancel(run, origin)] ::
      var w' := Apply(w, ev);
      w'.reg.tokens == w.reg.tokens && w'.emitters == w.emitters && w'.rows == w.rows && w'.torn == w.torn
    ensures Apply(w, Register(run, handle)).reg.handles == w.reg.handles[run := handle]
    ensures var reg := Apply(w, Unregister(run)).reg;
      run !in reg.handles && run !in reg.cancelled && run !in reg.origins
    ensures var reg := Apply(w, Cancel(run, origin)).reg;
      if run in w.reg.handles then
        && run in reg.cancelled && run in reg.origins
        && (origin == Shutdown ==> reg.origins[run] == Shutdown)
        && (run !in w.reg.origins ==> reg.origins[run] == origin)
      else reg == w.reg
  {
  }

  /** A step of the emitter that ends its attempt. */
  function Ending(e: nat, result: EmitResult): Event { if result.Landed? then Commit(e) else Rollback(e) }

  lemma AttemptLegal(w: World, e: nat, run: string, result: EmitResult)
    requires e !in w.emitters && run !in w.reg.tokens
    ensures var events := [Claim(e, run), Emit(e, result), Ending(e, result)];
      Legal(w, events)
        && Run(w, events) == Apply(Apply(Apply(w, Claim(e, run)), Emit(e, result)), Ending(e, result))
  {
    ThreeSteps(w, Claim(e, run), Emit(e, result), Ending(e, result), []);
    assert [Claim(e, run), Emit(e, result), Ending(e, result)] + []
        == [Claim(e, run), Emit(e, result), Ending(e, result)];
  }

  /** What became of a run's token and counts. */
  predicate Attempted(a: World, b: World, run: string, result: EmitResult) {
    && b.emitters == a.emitters
    && b.reg.tokens == (if result == Landed then a.reg.tokens[run := RunRegistry.Committed] else a.reg.tokens)
    && b.Rows(run) == a.Rows(run) + (if result == FailedBefore then 0 else 1)
    && b.Torn(run) == a.Torn(run) + (if result == FailedAfter then 1 else 0)
  }

  /** An idle emitter whose run has its token free writes one row unless its emit fails before the file, commits exactly
      if the emit returns, and leaves the token free otherwise; where the token is taken it writes nothing. */
  lemma OneAttempt(w: World, e: nat, run: string, result: EmitResult)
    requires e !in w.emitters
    ensures Enabled(w, Claim(e, run))
    ensures run in w.reg.tokens ==> Apply(w, Claim(e, run)) == w
    ensures run !in w.reg.tokens ==>
      var events := [Claim(e, run), Emit(e, result), Ending(e, result)];
      Legal(w, events) && Attempted(w, Run(w, events), run, result)
  {
    if run !in w.reg.tokens {
      AttemptLegal(w, e, run, result);
      AttemptSteps(w, e, run, result);
    }
  }

  lemma AttemptSteps(w: World, e: nat, run: string, result: EmitResult)
    requires e !in w.emitters && run !in w.reg.tokens
    requires Enabled(Apply(Apply(w, Claim(e, run)), Emit(e, result)), Ending(e, result))
    ensures Attempted(w, Apply(Apply(Apply(w, Claim(e, run)), Emit(e, result)), Ending(e, result)), run, result)
  {
    var tokens := w.reg.tokens;
    assert w.emitters[e := InFlight(run, Claimed)][e := InFlight(run, Wrote)] - {e} == w.emitters;
    assert w.emitters[e := InFlight(run, Claimed)][e := InFlight(run, Failing)] - {e} == w.emitters;
    assert tokens[run := Reserved] - {run} == tokens;
    assert tokens[run := Reserved][run := RunRegistry.Committed] == tokens[run := RunRegistry.Committed];
  }

  /** A release forgets the token and starts the counts afresh, once nobody is at work on the run. */
  lemma Released(w: World, run: string)
    ensures Enabled(w, Release(run)) <==> forall e :: e in w.emitters ==> w.emitters[e].run != run
    ensures Enabled(w, Release(run)) ==>
      var w' := Apply(w, Release(run));
      run !in w'.reg.tokens && w'.Rows(run) == 0 && w'.Torn(run) == 0 && w'.emitters == w.emitters
  {
  }

  /** In every interleaving, the terminal rows of a run since its last release are one per emit that landed
      but threw, and one more once a claim was won and written: never two from two emitters. */
  lemma {:induction false} OneTerminalRow(events: seq<Event>, run: string)
    requires Legal(START, events)
    ensures var w := Run(START, events);
      && w.Rows(run) == w.Torn(run) + (if Committed(w, run) || HasWritten(w, run) then 1 else 0)
      && (w.Torn(run) == 0 ==> w.Rows(run) <= 1)
  {
    RunInv(START, events);
    assert RowsAccounted(Run(START, events), run);
  }

  /** The row the guard cannot prevent: an emit lands and throws, the token is rolled back, another emitter wins. */
  lemma TornEmitDoublesRow(run: string)
    ensures var events := [Claim(0, run), Emit(0, FailedAfter), Rollback(0), Claim(1, run), Emit(1, Landed), Commit(1)];
      Legal(START, events) && Run(START, events).Rows(run) == 2
  {
    var w3 := Apply(Apply(Apply(START, Claim(0, run)), Emit(0, FailedAfter)), Rollback(0));
    ThreeSteps(w3, Claim(1, run), Emit(1, Landed), Commit(1), []);
    var rest := [Claim(1, run), Emit(1, Landed), Commit(1)];
    assert rest + [] == rest;
    ThreeSteps(START, Claim(0, run), Emit(0, FailedAfter), Rollback(0), rest);
    assert [Claim(0, run), Emit(0, FailedAfter), Rollback(0)] + rest
        == [Claim(0, run), Emit(0, FailedAfter), Rollback(0), Claim(1, run), Emit(1, Landed), Commit(1)];
  }

  lemma ThreeSteps(w: World, a: Event, b: Event, c: Event, rest: seq<Event>)
    requires Enabled(w, a) && Enabled(Apply(w, a), b) && Enabled(Apply(Apply(w, a), b), c)
    requires Legal(Apply(Apply(Apply(w, a), b), c), rest)
    ensures Legal(w, [a, b, c] + rest) && Run(w, [a, b, c] + rest) == Run(Apply(Apply(Apply(w, a), b), c), rest)
  {
    OneStep(Apply(Apply(w, a), b), c, rest);
    OneStep(Apply(w, a), b, [c] + rest);
    OneStep(w, a, [b] + ([c] + rest));
    assert [a] + ([b] + ([c] + rest)) == [a, b, c] + rest;
  }

  lemma OneStep(w: World, a: Event, rest: seq<Event>)
    requires Enabled(w, a) && Legal(Apply(w, a), rest)
    ensures Legal(w, [a] + rest) && Run(w, [a] + rest) == Run(Apply(w, a), rest)
  {
    assert ([a] + rest)[1..] == rest;
  }

  /** An emitter that wrote its row always still holds the reservation, so commit never throws. */
  lemma {:induction false} CommitNeverThrows(events: seq<Event>, e: nat)
    requires Legal(START, events) && Enabled(Run(START, events), Commit(e))
    ensures HoldsReservation(Run(START, events).reg, Run(START, events).emitters[e].run)
  {
    RunInv(START, events);
    var w := Run(START, events);
    assert TokenTracksEmitter(w, w.emitters[e].run);
  }

  /** Once recorded, a shutdown origin stays until the run is unregistered. */
  lemma {:induction false} ShutdownSticks(w: World, events: seq<Event>, run: string)
    requires Legal(w, events) && run in w.reg.origins && w.reg.origins[run] == Shutdown
    requires forall i :: 0 <= i < |events| ==> events[i] != Unregister(run)
    ensures run in Run(w, events).reg.origins && Run(w, events).reg.origins[run] == Shutdown
    decreases |events|
  {
    if events != [] {
      assert events[0] != Unregister(run);
      ShutdownSticks(Apply(w, events[0]), events[1..], run);
    }
  }
}
