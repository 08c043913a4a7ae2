/** The per-process registry of live runs: cancellation, its sticky origin, and the token
    that lets one emitter write a run's terminal row. */
module RunRegistry {
  import opened Common

  datatype CancelOrigin = User | Shutdown

  datatype Token = Reserved | Committed

  datatype Handle = Handle(itemId: string, workflow: string, aborted: bool)

  datatype CancelResult = Cancelled(alreadyCancelled: bool) | NotFound

  datatype State = State(
    handles: map<string, Handle>, cancelled: set<string>,
    origins: map<string, CancelOrigin>, tokens: map<string, Token>)

  const EMPTY := State(map[], {}, map[], map[])

  function Registered(s: State, run: string, handle: Handle): State { s.(handles := s.handles[run := handle]) }

  function Unregistered(s: State, run: string): State {
    s.(handles := s.handles - {run}, cancelled := s.cancelled - {run}, origins := s.origins - {run})
  }

  /** Shutdown is sticky; a later user cancel does not downgrade it. */
  function MergedOrigin(s: State, run: string, incoming: CancelOrigin): CancelOrigin {
    if incoming == Shutdown || (run in s.origins && s.origins[run] == Shutdown) then Shutdown else User
  }

  function AfterCancel(s: State, run: string, incoming: CancelOrigin): State {
    if run !in s.handles then s
    else s.(origins := s.origins[run := MergedOrigin(s, run, incoming)],
            cancelled := s.cancelled + {run},
            handles := if run in s.cancelled then s.handles else s.handles[run := s.handles[run].(aborted := true)])
  }

  function AfterClaim(s: State, run: string): State {
    if run in s.tokens then s else s.(tokens := s.tokens[run := Reserved])
  }

  predicate HoldsReservation(s: State, run: string) { run in s.tokens && s.tokens[run] == Reserved }

  function AfterCommit(s: State, run: string): State {
    if HoldsReservation(s, run) then s.(tokens := s.tokens[run := Committed]) else s
  }

  function AfterRollback(s: State, run: string): State {
    if HoldsReservation(s, run) then s.(tokens := s.tokens - {run}) else s
  }

  function AfterRelease(s: State, run: string): State { s.(tokens := s.tokens - {run}) }

  class Registry {
    var handles: map<string, Handle>
    var cancelled: set<string>
    var cancelOrigins: map<string, CancelOrigin>
    var terminalWrites: map<string, Token>

    function Abs(): State
      reads this
    {
      State(handles, cancelled, cancelOrigins, terminalWrites)
    }

    constructor ()
      ensures Abs() == EMPTY
    {
      handles, cancelled, cancelOrigins, terminalWrites := map[], {}, map[], map[];
    }

    method Register(run: string, handle: Handle)
      modifies this
      ensures Abs() == Registered(old(Abs()), run, handle)
      ensures handles == old(handles)[run := handle] && cancelled == old(cancelled)
      ensures cancelOrigins == old(cancelOrigins) && terminalWrites == old(terminalWrites)
    {
      handles := handles[run := handle];
    }

    method Unregister(run: string)
      modifies this
      ensures Abs() == Unregistered(old(Abs()), run)
      ensures handles == old(handles) - {run} && cancelled == old(cancelled) - {run}
      ensures cancelOrigins == old(cancelOrigins) - {run} && terminalWrites == old(terminalWrites)
    {
      handles := handles - {run};
      cancelled := cancelled - {run};
      cancelOrigins := cancelOrigins - {run};
    }

    method Cancel(run: string, origin: Option<CancelOrigin>) returns (r: CancelResult)
      modifies this
      ensures Abs() == AfterCancel(old(Abs()), run, if origin.None? then User else origin.value)
      ensures r == if run in old(handles) then Cancelled(run in old(cancelled)) else NotFound
      ensures r.NotFound? ==> unchanged(this)
      ensures r.Cancelled? ==> cancelled == old(cancelled) + {run} && run in cancelOrigins
      ensures r.Cancelled? ==>
        (cancelOrigins[run] == Shutdown <==>
          origin == Some(Shutdown) || (run in old(cancelOrigins) && old(cancelOrigins)[run] == Shutdown))
      ensures r == Cancelled(false) ==>
        handles == old(handles)[run := Handle(old(handles)[run].itemId, old(handles)[run].workflow, true)]
      ensures r == Cancelled(true) ==> handles == old(handles)
      ensures terminalWrites == old(terminalWrites)
      ensures forall x :: x != run ==>
        (x in cancelOrigins <==> x in old(cancelOrigins))
        && (x in cancelOrigins ==> cancelOrigins[x] == old(cancelOrigins)[x])
    {
      if run !in handles {
        return NotFound;
      }
      var incomingOrigin := if origin.None? then User else origin.value;
      if incomingOrigin == Shutdown || (run in cancelOrigins && cancelOrigins[run] == Shutdown) {
        cancelOrigins := cancelOrigins[run := Shutdown];
      } else {
        cancelOrigins := cancelOrigins[run := User];
      }
      if run in cancelled {
        assert cancelled + {run} == cancelled;
        return Cancelled(true);
      }
      cancelled := cancelled + {run};
      if !handles[run].aborted {
        handles := handles[run := handles[run].(aborted := true)];
      } else {
        assert handles[run := handles[run].(aborted := true)] == handles;
      }
      return Cancelled(false);
    }

    method ClaimTerminalWrite(run: string) returns (won: bool)
      modifies this
      ensures Abs() == AfterClaim(old(Abs()), run)
      ensures won <==> run !in old(terminalWrites)
      ensures terminalWrites == if won then old(terminalWrites)[run := Reserved] else old(terminalWrites)
      ensures handles == old(handles) && cancelled == old(cancelled) && cancelOrigins == old(cancelOrigins)
    {
      if run in terminalWrites {
        return false;
      }
      terminalWrites := terminalWrites[run := Reserved];
      return true;
    }

    /** `ok` is false where `commitTerminalWrite` throws. */
    method CommitTerminalWrite(run: string) returns (ok: bool)
      modifies this
      ensures Abs() == AfterCommit(old(Abs()), run)
      ensures ok <==> HoldsReservation(old(Abs()), run)
      ensures ok <==> run in old(terminalWrites) && old(terminalWrites)[run] == Reserved
      ensures terminalWrites == if ok then old(terminalWrites)[run := Committed] else old(terminalWrites)
      ensures handles == old(handles) && cancelled == old(cancelled) && cancelOrigins == old(cancelOrigins)
    {
      if run !in terminalWrites || terminalWrites[run] != Reserved {
        return false;
      }
      terminalWrites := terminalWrites[run := Committed];
      return true;
    }

    method RollbackTerminalWrite(run: string)
      modifies this
      ensures Abs() == AfterRollback(old(Abs()), run)
      ensures terminalWrites
           == if run in old(terminalWrites) && old(terminalWrites)[run] != Committed then old(terminalWrites) - {run}
              else old(terminalWrites)
      ensures handles == old(handles) && cancelled == old(cancelled) && cancelOrigins == old(cancelOrigins)
    {
      if run in terminalWrites && terminalWrites[run] == Reserved {
        terminalWrites := terminalWrites - {run};
      }
    }

    method ReleaseTerminalWrite(run: string)
      modifies this
      ensures Abs() == AfterRelease(old(Abs()), run)
      ensures terminalWrites == old(terminalWrites) - {run}
      ensures handles == old(handles) && cancelled == old(cancelled) && cancelOrigins == old(cancelOrigins)
    {
      terminalWrites := terminalWrites - {run};
    }
  }
}
