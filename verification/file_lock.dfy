/** The cross-process lock file: who may be inside, step by step, and what one locked call does whatever fails. */
module FileLock {
  import opened Common

  // ---- Processes and the lock file ----

  /** `owner` is None until the creator has written its pid; `serial` tells one creation of the file from another. */
  datatype Lock = Lock(owner: Option<nat>, serial: nat)

  /** What a process is doing about the lock: nothing, about to write its pid into the file it made, inside the body, or
      about to remove a lock it judged dead or stale. */
  datatype Phase = Idle | Created(serial: nat) | Inside(serial: nat) | Judged

  /** `procs` holds the processes that are alive. */
  datatype World = World(lock: Option<Lock>, procs: map<nat, Phase>, nextSerial: nat)

  datatype Event =
    | Spawn(p: nat) | Create(p: nat) | WritePid(p: nat) | WriteFails(p: nat)
    | Judge(p: nat) | Unlink(p: nat) | Finish(p: nat) | Die(p: nat)

  /** A lock without an owner is judged by its age, so at some time or other by anyone. */
  predicate MayJudge(w: World) {
    w.lock.Some? && (w.lock.value.owner.Some? ==> w.lock.value.owner.value !in w.procs)
  }

  predicate Enabled(w: World, ev: Event) {
    match ev
    case Spawn(p) => p !in w.procs
    case Create(p) => p in w.procs && w.procs[p].Idle? && w.lock.None?
    case WritePid(p) => p in w.procs && w.procs[p].Created?
    case WriteFails(p) => p in w.procs && w.procs[p].Created?
    case Judge(p) => p in w.procs && w.procs[p].Idle? && MayJudge(w)
    case Unlink(p) => p in w.procs && w.procs[p].Judged?
    case Finish(p) => p in w.procs && w.procs[p].Inside?
    case Die(p) => p in w.procs
  }

  function Apply(w: World, ev: Event): World
    requires Enabled(w, ev)
  {
    match ev
    case Spawn(p) => w.(procs := w.procs[p := Idle])
    case Create(p) => World(Some(Lock(None, w.nextSerial)), w.procs[p := Created(w.nextSerial)], w.nextSerial + 1)
    case WritePid(p) =>
      var serial := w.procs[p].serial;
      World(if w.lock.Some? && w.lock.value.serial == serial then Some(Lock(Some(p), serial)) else w.lock,
            w.procs[p := Inside(serial)], w.nextSerial)
    case WriteFails(p) => w.(procs := w.procs[p := Idle])
    case Judge(p) => w.(procs := w.procs[p := Judged])
    case Unlink(p) => w.(lock := None, procs := w.procs[p := Idle])
    case Finish(p) => w.(lock := None, procs := w.procs[p := Idle])
    case Die(p) => w.(procs := w.procs - {p})
  }

  /** Past the creation of its file, and not done with it. */
  predicate Holds(w: World, p: nat) { p in w.procs && (w.procs[p].Created? || w.procs[p].Inside?) }

  /** Whoever made a lock file and is not done with it finds it there, and nobody else did. */
  ghost predicate HoldersHold(w: World) {
    && (forall p :: Holds(w, p) ==> w.lock.Some? && w.lock.value.serial == w.procs[p].serial)
    && (forall p, q :: Holds(w, p) && Holds(w, q) ==> p == q)
  }

  predicate AtMostOneInside(w: World) {
    forall p, q :: p in w.procs && q in w.procs && w.procs[p].Inside? && w.procs[q].Inside? ==> p == q
  }

  /** The lock about to be removed belongs to a live process: it was made after the one that was judged, or its maker is
      still about to write its pid. */
  ghost predicate RemovesLiveLock(w: World, ev: Event) { ev.Unlink? && exists p :: Holds(w, p) }

  /** A step keeps every holder holding exactly when it does not remove a live holder's lock. */
  lemma StepKeepsHolders(w: World, ev: Event)
    requires HoldersHold(w) && Enabled(w, ev)
    ensures HoldersHold(Apply(w, ev)) <==> !RemovesLiveLock(w, ev)
  {
    var next := Apply(w, ev);
    if RemovesLiveLock(w, ev) {
      var p :| Holds(w, p);
      assert Holds(next, p);
    } else {
      assert ev.Finish? || ev.WritePid? ==> Holds(w, ev.p);
      forall p | Holds(next, p)
        ensures next.lock.Some? && next.lock.value.serial == next.procs[p].serial
        ensures Holds(w, p) || ev == Create(p)
      {
        assert ev != Create(p) ==> Holds(w, p);
      }
    }
  }

  predicate Legal(w: World, events: seq<Event>)
    decreases |events|
  {
    events != [] ==> Enabled(w, events[0]) && Legal(Apply(w, events[0]), events[1..])
  }

  function Run(w: World, events: seq<Event>): World
    requires Legal(w, events)
    decreases |events|
  {
    if events == [] then w else Run(Apply(w, events[0]), events[1..])
  }

  /** No removal hits a live lock. */
  ghost predicate Timely(w: World, events: seq<Event>)
    requires Legal(w, events)
    decreases |events|
  {
    events != [] ==> !RemovesLiveLock(w, events[0]) && Timely(Apply(w, events[0]), events[1..])
  }

  /** While every reclaim is timely, no two live processes are ever inside. */
  lemma {:induction false} Exclusive(w: World, events: seq<Event>)
    requires HoldersHold(w) && Legal(w, events) && Timely(w, events)
    ensures HoldersHold(Run(w, events)) && AtMostOneInside(Run(w, events))
    decreases |events|
  {
    if events == [] {
      HoldersApart(w);
    } else {
      StepKeepsHolders(w, events[0]);
      Exclusive(Apply(w, events[0]), events[1..]);
    }
  }

  lemma HoldersApart(w: World)
    requires HoldersHold(w)
    ensures AtMostOneInside(w)
  {
    forall p, q | p in w.procs && q in w.procs && w.procs[p].Inside? && w.procs[q].Inside?
      ensures p == q
    {
      assert Holds(w, p) && Holds(w, q);
    }
  }

  // ---- Reclaims and creations taken as one step ----

  /** What comes next after a judgement or a creation, when nothing else may come in between. */
  predicate FollowedUp(ev: Event, next: Event) {
    match ev
    case Judge(p) => next == Unlink(p) || next == Die(p)
    case Create(p) => next == WritePid(p) || next == WriteFails(p) || next == Die(p)
    case _ => true
  }

  /** A lock judged dead or stale is unlinked before anything else happens, unless the judge dies first. */
  predicate ReclaimsAtOnce(events: seq<Event>) {
    forall i :: 0 <= i < |events| - 1 && events[i].Judge? ==> FollowedUp(events[i], events[i + 1])
  }

  /** A lock file just made gets its pid before anything else happens, unless the write fails or the maker dies. */
  predicate CreatesAtOnce(events: seq<Event>) {
    forall i :: 0 <= i < |events| - 1 && events[i].Create? ==> FollowedUp(events[i], events[i + 1])
  }

  predicate Atomic(events: seq<Event>) { ReclaimsAtOnce(events) && CreatesAtOnce(events) }

  /** Nobody is in the middle of a creation or a reclaim, and whoever is inside is the owner the file names. */
  predicate Between(w: World) {
    forall p :: p in w.procs ==>
      w.procs[p].Idle? || (w.procs[p].Inside? && w.lock == Some(Lock(Some(p), w.procs[p].serial)))
  }

  lemma BetweenHolds(w: World)
    requires Between(w)
    ensures HoldersHold(w)
  {
    forall p, q | Holds(w, p) && Holds(w, q)
      ensures p == q
    {
    }
  }

  lemma AtomicTail(events: seq<Event>, n: nat)
    requires Atomic(events) && n <= |events|
    ensures Atomic(events[n..])
  {
    var rest := events[n..];
    forall i | 0 <= i < |rest| - 1
      ensures FollowedUp(rest[i], rest[i + 1])
    {
      assert rest[i] == events[n + i] && rest[i + 1] == events[n + i + 1];
    }
  }

  /** A judged lock has no live owner: this is where the test for a dead or missing owner counts. */
  lemma JudgedIsNobodys(w: World, p: nat)
    requires Between(w) && Enabled(w, Judge(p))
    ensures forall q :: !Holds(w, q) && !Holds(Apply(w, Judge(p)), q)
  {
  }

  lemma {:induction false} AtomicIsTimely(w: World, events: seq<Event>)
    requires Between(w) && Legal(w, events) && Atomic(events)
    ensures Timely(w, events)
    decreases |events|
  {
    if events != [] {
      var w1 := Apply(w, events[0]);
      if events[0].Create? || events[0].Judge? {
        if |events| > 1 {
          assert events[1..][0] == events[1] == events[0 + 1] && events[1..][1..] == events[2..];
          if events[0].Judge? {
            JudgedIsNobodys(w, events[0].p);
          }
          AtomicTail(events, 2);
          AtomicIsTimely(Apply(w1, events[1]), events[2..]);
        }
      } else {
        AtomicTail(events, 1);
        AtomicIsTimely(w1, events[1..]);
      }
    }
  }

  /** Main result: where a reclaim is one step and the creation with its pid is another, no two live processes are
      ever inside, whatever fails or dies in between. */
  lemma {:induction false} AtomicExclusive(w: World, events: seq<Event>)
    requires Between(w) && Legal(w, events) && Atomic(events)
    ensures AtMostOneInside(Run(w, events))
  {
    BetweenHolds(w);
    AtomicIsTimely(w, events);
    Exclusive(w, events);
  }

  // ---- Neither can be spared ----

  lemma RunOne(w: World, ev: Event, rest: seq<Event>)
    requires Enabled(w, ev) && Legal(Apply(w, ev), rest)
    ensures Legal(w, [ev] + rest) && Run(w, [ev] + rest) == Run(Apply(w, ev), rest)
  {
    assert ([ev] + rest)[1..] == rest;
  }

  function Enter(w: World, p: nat): World
    requires Enabled(w, Create(p))
  {
    Apply(Apply(w, Create(p)), WritePid(p))
  }

  lemma RunEnter(w: World, p: nat, rest: seq<Event>)
    requires Enabled(w, Create(p)) && Legal(Enter(w, p), rest)
    ensures Legal(w, [Create(p)] + ([WritePid(p)] + rest))
      && Run(w, [Create(p)] + ([WritePid(p)] + rest)) == Run(Enter(w, p), rest)
  {
    RunOne(Apply(w, Create(p)), WritePid(p), rest);
    RunOne(w, Create(p), [WritePid(p)] + rest);
  }

  // ---- What a process by itself can do ----

  /** A free lock can be taken by anyone idle, names its owner while that one is inside, and is free again
      afterwards. */
  lemma FreeLockIsTaken(w: World, p: nat)
    requires p in w.procs && w.procs[p] == Idle && w.lock == None
    ensures Legal(w, [Create(p), WritePid(p), Finish(p)])
    ensures Enter(w, p).lock == Some(Lock(Some(p), w.nextSerial)) && Enter(w, p).procs[p] == Inside(w.nextSerial)
    ensures Run(w, [Create(p), WritePid(p), Finish(p)]) == w.(nextSerial := w.nextSerial + 1)
  {
    RunOne(Enter(w, p), Finish(p), []);
    RunEnter(w, p, [Finish(p)]);
    assert [Create(p)] + ([WritePid(p)] + [Finish(p)]) == [Create(p), WritePid(p), Finish(p)];
    assert [Finish(p)] + [] == [Finish(p)];
    assert Apply(Enter(w, p), Finish(p)).procs == w.procs;
  }

  /** A lock whose owner is dead or missing can be reclaimed by anyone idle, and one whose owner lives by nobody. */
  lemma DeadLockIsReclaimed(w: World, p: nat)
    requires p in w.procs && w.procs[p] == Idle && w.lock.Some?
    ensures w.lock.value.owner.Some? && w.lock.value.owner.value in w.procs ==> !Enabled(w, Judge(p))
    ensures w.lock.value.owner.None? || w.lock.value.owner.value !in w.procs ==>
      Legal(w, [Judge(p), Unlink(p)]) && Run(w, [Judge(p), Unlink(p)]) == w.(lock := None)
  {
    if w.lock.value.owner.None? || w.lock.value.owner.value !in w.procs {
      var judged := Apply(w, Judge(p));
      RunOne(judged, Unlink(p), []);
      RunOne(w, Judge(p), [Unlink(p)]);
      assert [Judge(p)] + [Unlink(p)] == [Judge(p), Unlink(p)] && [Unlink(p)] + [] == [Unlink(p)];
      assert Apply(judged, Unlink(p)).procs == w.procs;
    }
  }

  /** A process can die at any point, and leaves the file. */
  lemma DeathLeavesTheFile(w: World, p: nat)
    requires p in w.procs
    ensures Enabled(w, Die(p)) && Apply(w, Die(p)).lock == w.lock && Apply(w, Die(p)).procs == w.procs - {p}
  {
  }

  /** A lock left by a process that died, and two others waiting. */
  const DEAD_OWNER := World(Some(Lock(Some(0), 6)), map[1 := Idle, 2 := Idle], 7)

  const LATE_UNLINK := [Judge(1), Judge(2), Unlink(1), Create(1), WritePid(1), Unlink(2), Create(2), WritePid(2)]

  /** With late unlinks two can be inside: both judge a dead owner's lock, one reclaims and enters, the other then
      removes its lock. */
  lemma LateUnlinkAdmitsTwo()
    ensures Between(DEAD_OWNER) && Legal(DEAD_OWNER, LATE_UNLINK) && CreatesAtOnce(LATE_UNLINK)
    ensures !AtMostOneInside(Run(DEAD_OWNER, LATE_UNLINK))
  {
    var w2 := Apply(Apply(DEAD_OWNER, Judge(1)), Judge(2));
    var w3 := Apply(w2, Unlink(1));
    var w4 := Enter(w3, 1);
    var w5 := Apply(w4, Unlink(2));
    var w6 := Enter(w5, 2);
    var enter2 := [Create(2)] + ([WritePid(2)] + []);
    RunEnter(w5, 2, []);
    RunOne(w4, Unlink(2), enter2);
    var e4 := [Unlink(2)] + enter2;
    RunEnter(w3, 1, e4);
    var e3 := [Create(1)] + ([WritePid(1)] + e4);
    RunOne(w2, Unlink(1), e3);
    RunOne(Apply(DEAD_OWNER, Judge(1)), Judge(2), [Unlink(1)] + e3);
    RunOne(DEAD_OWNER, Judge(1), [Judge(2)] + ([Unlink(1)] + e3));
    assert w6.procs[1] == Inside(7) && w6.procs[2] == Inside(8);
    LateUnlinkInOrder();
  }

  lemma LateUnlinkInOrder()
    ensures CreatesAtOnce(LATE_UNLINK)
    ensures var enter2 := [Create(2)] + ([WritePid(2)] + []);
      LATE_UNLINK
      == [Judge(1)] + ([Judge(2)] + ([Unlink(1)] + ([Create(1)] + ([WritePid(1)] + ([Unlink(2)] + enter2)))))
  {
  }

  const LATE_PID := [Create(1), Judge(2), Unlink(2), Create(2), WritePid(2), WritePid(1)]

  /** With late pids two can be inside: a file whose maker has not written its pid for long is judged stale and
      reclaimed at once, and the maker goes on. */
  lemma LatePidAdmitsTwo()
    ensures Between(UNLOCKED) && Legal(UNLOCKED, LATE_PID) && ReclaimsAtOnce(LATE_PID)
    ensures !AtMostOneInside(Run(UNLOCKED, LATE_PID))
  {
    var w1 := Apply(UNLOCKED, Create(1));
    var w2 := Apply(w1, Judge(2));
    var w3 := Apply(w2, Unlink(2));
    var w4 := Enter(w3, 2);
    var w5 := Apply(w4, WritePid(1));
    RunOne(w4, WritePid(1), []);
    var late := [WritePid(1)] + [];
    RunEnter(w3, 2, late);
    var e3 := [Create(2)] + ([WritePid(2)] + late);
    RunOne(w2, Unlink(2), e3);
    RunOne(w1, Judge(2), [Unlink(2)] + e3);
    RunOne(UNLOCKED, Create(1), [Judge(2)] + ([Unlink(2)] + e3));
    assert w5.procs[1] == Inside(0) && w5.procs[2] == Inside(1);
    LatePidInOrder();
  }

  lemma LatePidInOrder()
    ensures ReclaimsAtOnce(LATE_PID)
    ensures LATE_PID
      == [Create(1)] + ([Judge(2)] + ([Unlink(2)] + ([Create(2)] + ([WritePid(2)] + ([WritePid(1)] + [])))))
  {
  }

  /** No lock, and two processes about to ask for it. */
  const UNLOCKED := World(None, map[1 := Idle, 2 := Idle], 0)

  // ---- One locked call ----

  /** An attempt to create the file: made, or made but the pid could not be written, or it exists and was reclaimed or
      is held (perhaps past the deadline), or the file system refused. */
  datatype Attempt = Made | Unwritten | Reclaimed | Held(late: bool) | Refused

  datatype Error = Body | Close | Remove | TimedOut | Open | WritingPid

  datatype Outcome = Value | Failed(errors: seq<Error>)

  /** What the attempts amount to; None when the file was made. */
  function Acquire(attempts: seq<Attempt>): Option<Error> {
    if attempts == [] then Some(TimedOut)
    else
      match attempts[0]
      case Made => None
      case Unwritten => Some(WritingPid)
      case Refused => Some(Open)
      case Held(late) => if late then Some(TimedOut) else Acquire(attempts[1..])
      case Reclaimed => Acquire(attempts[1..])
  }

  /** The file is there, and waiting for it goes on. */
  predicate Waits(a: Attempt) { a == Reclaimed || a == Held(false) }

  /** The first attempt that does not wait decides; attempts without end run into the deadline. */
  predicate IsAcquired(attempts: seq<Attempt>, e: Option<Error>) {
    if forall i :: 0 <= i < |attempts| ==> Waits(attempts[i]) then e == Some(TimedOut)
    else exists k :: 0 <= k < |attempts| && (forall i :: 0 <= i < k ==> Waits(attempts[i])) && Decides(attempts[k], e)
  }

  predicate Decides(a: Attempt, e: Option<Error>) {
    || (a == Made && e == None)
    || (a == Unwritten && e == Some(WritingPid))
    || (a == Held(true) && e == Some(TimedOut))
    || (a == Refused && e == Some(Open))
  }

  lemma {:induction false} AcquireMeans(attempts: seq<Attempt>)
    ensures IsAcquired(attempts, Acquire(attempts))
    decreases |attempts|
  {
    if attempts != [] {
      var rest := attempts[1..];
      AcquireMeans(rest);
      if Waits(attempts[0]) {
        assert forall i :: 0 < i < |attempts| ==> attempts[i] == rest[i - 1];
        if k :| 0 <= k < |rest| && (forall i :: 0 <= i < k ==> Waits(rest[i])) && Decides(rest[k], Acquire(rest)) {
          assert Decides(attempts[k + 1], Acquire(attempts));
        }
      } else {
        assert Decides(attempts[0], Acquire(attempts));
      }
    }
  }

  class LockedCall {
    var present: bool
    var runs: nat

    constructor ()
      ensures !present && runs == 0
    {
      present, runs := false, 0;
    }

    /** The body runs once if the lock was made and not at all otherwise; every failure is reported, the body's first;
        and the lock file is gone after the body unless removing it is what failed. A pid that could not be written
        leaves it behind. */
    method WithExclusiveFileLock(attempts: seq<Attempt>, bodyOk: bool, closeOk: bool, removeOk: bool)
      returns (o: Outcome)
      modifies this
      ensures runs == old(runs) + (if Acquire(attempts).None? then 1 else 0)
      ensures Acquire(attempts).Some? ==>
        o == Failed([Acquire(attempts).value]) && present == (old(present) || Acquire(attempts) == Some(WritingPid))
      ensures Acquire(attempts).None? ==> present == !removeOk
      ensures Acquire(attempts).None? ==> (o.Value? <==> bodyOk && closeOk && removeOk)
      ensures Acquire(attempts).None? && o.Failed? ==>
        o.errors
        == (if bodyOk then [] else [Body]) + (if closeOk then [] else [Close]) + (if removeOk then [] else [Remove])
      ensures IsAcquired(attempts, Acquire(attempts))
    {
      AcquireMeans(attempts);
      var i := 0;
      var made := false;
      while !made
        invariant 0 <= i <= |attempts|
        invariant !made ==> Acquire(attempts[i..]) == Acquire(attempts)
        invariant made ==> Acquire(attempts).None?
        decreases |attempts| - i, !made
      {
        if i == |attempts| { return Failed([TimedOut]); }
        match attempts[i] {
          case Made => made := true;
          case Unwritten =>
            present := true;
            return Failed([WritingPid]);
          case Refused => return Failed([Open]);
          case Held(late) => if late { return Failed([TimedOut]); }
          case Reclaimed =>
        }
        i := i + 1;
      }
      present := true;
      runs := runs + 1;
      var cleanup: seq<Error> := [];
      if !closeOk { cleanup := cleanup + [Close]; }
      if removeOk { present := false; } else { cleanup := cleanup + [Remove]; }
      if !bodyOk { return Failed([Body] + cleanup); }
      if |cleanup| > 0 { return Failed(cleanup); }
      o := Value;
    }
  }
}
