/** Replaying a tracker log into one life story per row, and the transition trail made from the stories. */
module RowLifecycle {
  import opened Common
  import opened KeyedList
  import opened StableSort

  datatype Status = Pending | Running | Done | Failed | Skipped

  /** A tracker line; `archetype` is the resolved one, `batch` says the stamp is the legacy `batch`. */
  datatype Entry = Entry(
    ts: int, workflow: string, id: string, runId: Option<string>, status: Status, step: Option<string>,
    archetype: string, batch: bool, data: map<string, string>)

  datatype Classification = Classification(surface: string, members: nat)

  /** The surface classifier: a function of the rows as they stand. */
  type Classifier = seq<Entry> -> map<string, Classification>

  datatype Cause = Create | Retry | Reassign | Cancel | Discard | OcrApproval

  /** What a snapshot is compared by; `Signer` makes it the text `stateSignature` gives. */
  datatype View = View(status: Status, step: Option<string>, surface: string, archetype: string, members: nat,
    data: map<string, string>)

  type Signer = View -> string

  datatype Snapshot = Snapshot(ts: int, runId: Option<string>, view: View, self: bool, cause: Option<Cause>)

  datatype Event =
    | Caused(ts: int, cause: Cause)
    | LateSurfaceChange(ts: int, from: string, to: string)
    | ReachTerminal(ts: int)

  datatype Cycle = Cycle(
    id: string, runIds: seq<string>, terminal: bool, reopened: bool, lateChanges: nat, terminalAt: Option<int>,
    history: seq<Snapshot>, events: seq<Event>)

  /** A row's story, once it has one, and the data gathered from its own lines. */
  datatype Row = Row(cycle: Option<Cycle>, data: map<string, string>)

  const UNSEEN := Row(None, map[])

  function IdOf(e: Entry): string { e.id }

  /** Empty texts count as absent. */
  function Given(s: Option<string>): Option<string> { if s == Some("") then None else s }

  predicate IsTerminal(s: Status) { s == Done || s == Failed || s == Skipped }

  function CurrentRun(c: Cycle): Option<string> { if c.runIds == [] then None else Some(c.runIds[|c.runIds| - 1]) }

  // ---- One row ----

  function CauseOf(prev: Option<Snapshot>, live: Entry, self: bool, wasTerminal: bool,
                   currentRun: Option<string>): Option<Cause>
  {
    if prev.None? then Some(Create)
    else if !self then None
    else if live.status == Pending && wasTerminal && Given(live.runId).Some? && Given(live.runId) != currentRun
    then Some(Retry)
    else if live.status == Pending && Given(live.runId).Some? && Given(live.runId) == currentRun
            && prev.value.view.status != Pending
    then Some(Reassign)
    else if live.status == Failed && live.step == Some("cancelled") then Some(Cancel)
    else if live.status == Failed && live.step == Some("discarded") then Some(Discard)
    else if live.status == Done && (live.batch || live.archetype == "preview") && live.workflow == "ocr"
            && (live.step == Some("approved") || live.step == None)
    then Some(OcrApproval)
    else None
  }

  function LastSnapshot(row: Row): Option<Snapshot> {
    if row.cycle.None? || row.cycle.value.history == [] then None
    else Some(row.cycle.value.history[|row.cycle.value.history| - 1])
  }

  function NewEvents(cycle: Cycle, prev: Option<Snapshot>, live: Entry, surface: string, cause: Option<Cause>,
                     ts: int): seq<Event>
  {
    (if cause.Some? then [Caused(ts, cause.value)] else [])
    + (if IsLate(cycle, prev, surface, cause) then [LateSurfaceChange(ts, prev.value.view.surface, surface)] else [])
    + (if IsTerminal(live.status) && !cycle.terminal then [ReachTerminal(ts)] else [])
  }

  /** The surface moved although the row was over and nothing reopened it. */
  predicate IsLate(cycle: Cycle, prev: Option<Snapshot>, surface: string, cause: Option<Cause>) {
    prev.Some? && prev.value.view.surface != surface && cycle.terminal && cause != Some(Retry)
      && cause != Some(Reassign)
  }

  const NEW_CYCLE := Cycle("", [], false, false, 0, None, [], [])

  function ViewOf(live: Entry, c: Classification, data: map<string, string>): View {
    View(live.status, Given(live.step), c.surface, live.archetype, c.members, data)
  }

  function WithSnapshot(cycle: Cycle, prev: Option<Snapshot>, live: Entry, view: View, self: bool, ts: int): Cycle {
    var currentRun := CurrentRun(cycle);
    var cause := CauseOf(prev, live, self, cycle.terminal, currentRun);
    Cycle(
      live.id,
      if Given(live.runId).Some? && currentRun != Given(live.runId) then cycle.runIds + [live.runId.value]
      else cycle.runIds,
      IsTerminal(live.status),
      cycle.reopened || cause == Some(Retry),
      cycle.lateChanges + (if IsLate(cycle, prev, view.surface, cause) then 1 else 0),
      if IsTerminal(live.status) && !cycle.terminal && cycle.terminalAt.None? then Some(ts) else cycle.terminalAt,
      cycle.history + [Snapshot(ts, Given(live.runId), view, self, cause)],
      cycle.events + NewEvents(cycle, prev, live, view.surface, cause, ts))
  }

  /** `observeRow`: nothing, unless the row looks different from its last snapshot. */
  function Observed(sign: Signer, row: Row, live: Entry, c: Classification, self: bool, ts: int): Row {
    var data := if self then row.data + live.data else row.data;
    var view, prev := ViewOf(live, c, data), LastSnapshot(row);
    if prev.Some? && sign(prev.value.view) == sign(view) then row.(data := data)
    else
      var cycle := if row.cycle.Some? then row.cycle.value else NEW_CYCLE;
      Row(Some(WithSnapshot(cycle, prev, live, view, self, ts)), data)
  }

  // ---- What every story keeps ----

  /** Neighbouring snapshots look different. */
  predicate SnapshotsDiffer(sign: Signer, h: seq<Snapshot>) {
    forall i :: 0 < i < |h| ==> sign(h[i - 1].view) != sign(h[i].view)
  }

  function SnapshotTime(s: Snapshot): int { s.ts }

  predicate IsLateChange(e: Event) { e.LateSurfaceChange? }

  predicate IsCaused(e: Event) { e.Caused? }

  /** When the row was first over. */
  function FirstTerminal(events: seq<Event>): Option<int>
    decreases |events|
  {
    if events == [] then None
    else
      var front, last := FirstTerminal(events[..|events| - 1]), events[|events| - 1];
      if front.Some? then front else if last.ReachTerminal? then Some(last.ts) else None
  }

  /** The causes the snapshots carry, in order. */
  function Causes(h: seq<Snapshot>): seq<Event>
    decreases |h|
  {
    if h == [] then []
    else
      var last := h[|h| - 1];
      Causes(h[..|h| - 1]) + (if last.cause.Some? then [Caused(last.ts, last.cause.value)] else [])
  }

  predicate Reopens(events: seq<Event>) {
    exists i :: 0 <= i < |events| && events[i].Caused? && events[i].cause == Retry
  }

  predicate IsOver(s: Snapshot) { s.view.status in {Done, Failed, Skipped} }

  /** The run the row was last seen in. */
  predicate IsLastRun(h: seq<Snapshot>, run: Option<string>) {
    if run.None? then forall k :: 0 <= k < |h| ==> h[k].runId.None?
    else exists k :: 0 <= k < |h| && h[k].runId == run && forall j :: k < j < |h| ==> h[j].runId.None?
  }

  /** A cause says how the row got here from the snapshot before, and is there whenever it applies: the row's own line
      set it pending in a new run after it was over, or pending again in the same run, or stopped it. */
  predicate CauseFits(h: seq<Snapshot>, i: nat)
    requires i < |h|
  {
    var s := h[i];
    var renewed := i > 0 && s.self && s.view.status == Pending && s.runId.Some?;
    var failed := i > 0 && s.self && s.view.status == Failed;
    && (s.cause == Some(Create) <==> i == 0)
    && (s.cause == Some(Retry) <==> renewed && IsOver(h[i - 1]) && !IsLastRun(h[..i], s.runId))
    && (s.cause == Some(Reassign) <==> renewed && h[i - 1].view.status != Pending && IsLastRun(h[..i], s.runId))
    && (s.cause == Some(Cancel) <==> failed && s.view.step == Some("cancelled"))
    && (s.cause == Some(Discard) <==> failed && s.view.step == Some("discarded"))
    && (s.cause == Some(OcrApproval) ==>
          i > 0 && s.self && s.view.status == Done && (s.view.step == None || s.view.step == Some("approved")))
  }

  /** The surface moved although the row was over and the snapshot reopened nothing. */
  predicate MovedLate(h: seq<Snapshot>, i: nat)
    requires i < |h|
  {
    i > 0 && h[i - 1].view.surface != h[i].view.surface && IsOver(h[i - 1])
      && h[i].cause !in {Some(Retry), Some(Reassign)}
  }

  predicate EndsAt(h: seq<Snapshot>, i: nat)
    requires i < |h|
  {
    IsOver(h[i]) && (i == 0 || !IsOver(h[i - 1]))
  }

  /** What each snapshot adds to the events. */
  function EventsAt(h: seq<Snapshot>, i: nat): seq<Event>
    requires i < |h|
  {
    (if h[i].cause.Some? then [Caused(h[i].ts, h[i].cause.value)] else [])
    + (if MovedLate(h, i) then [LateSurfaceChange(h[i].ts, h[i - 1].view.surface, h[i].view.surface)] else [])
    + (if EndsAt(h, i) then [ReachTerminal(h[i].ts)] else [])
  }

  function EventsOf(h: seq<Snapshot>): seq<Event> {
    if h == [] then [] else EventsOf(h[..|h| - 1]) + EventsAt(h, |h| - 1)
  }

  predicate SeenIn(h: seq<Snapshot>, id: string) { exists k :: 0 <= k < |h| && h[k].runId == Some(id) }

  /** The runs the row was seen in: just these, and the last of them is the one it was last seen in. */
  ghost predicate RunsTold(ids: seq<string>, h: seq<Snapshot>) {
    && (forall id :: id in ids <==> SeenIn(h, id))
    && IsLastRun(h, if ids == [] then None else Some(ids[|ids| - 1]))
    && RunsAlternate(ids)
  }

  /** Only the first event is a creation, and the first event is one. */
  predicate CreatedOnce(events: seq<Event>) {
    events != [] && forall i :: 0 <= i < |events| ==> ((events[i].Caused? && events[i].cause == Create) <==> i == 0)
  }

  predicate RunsAlternate(ids: seq<string>) { forall i :: 0 < i < |ids| ==> ids[i - 1] != ids[i] }

  /** Snapshots in order of time, no two neighbours alike, each with a cause that fits. */
  ghost predicate HistoryTold(sign: Signer, h: seq<Snapshot>, now: int) {
    && h != [] && SnapshotsDiffer(sign, h) && Ordered(SnapshotTime, h) && (forall s :: s in h ==> s.ts <= now)
    && forall i :: 0 <= i < |h| ==> CauseFits(h, i)
  }

  /** The summary fields are what the events and the history say. */
  predicate SummaryTold(c: Cycle) {
    && IsCausedBy(c.events, c.history)
    && c.lateChanges == CountWhere(IsLateChange, c.events)
    && c.terminalAt == FirstTerminal(c.events)
    && (c.reopened <==> Reopens(c.events))
  }

  predicate IsCausedBy(events: seq<Event>, h: seq<Snapshot>) { Filter(IsCaused, events) == Causes(h) }

  ghost predicate WellTold(sign: Signer, c: Cycle, id: string, now: int) {
    && c.id == id && HistoryTold(sign, c.history, now) && CreatedOnce(c.events) && SummaryTold(c)
    && (c.terminal <==> IsOver(c.history[|c.history| - 1]))
    && RunsTold(c.runIds, c.history)
    && c.events == EventsOf(c.history)
  }

  lemma {:induction false} FirstTerminalAppend(a: seq<Event>, b: seq<Event>)
    ensures FirstTerminal(a + b) == if FirstTerminal(a).Some? then FirstTerminal(a) else FirstTerminal(b)
    decreases |b|
  {
    if b == [] {
      assert a + b == a;
    } else {
      assert (a + b)[..|a + b| - 1] == a + b[..|b| - 1];
      FirstTerminalAppend(a, b[..|b| - 1]);
    }
  }

  lemma EventsAppend(a: seq<Event>, b: seq<Event>)
    ensures CountWhere(IsLateChange, a + b) == CountWhere(IsLateChange, a) + CountWhere(IsLateChange, b)
    ensures FirstTerminal(a + b) == if FirstTerminal(a).Some? then FirstTerminal(a) else FirstTerminal(b)
    ensures Filter(IsCaused, a + b) == Filter(IsCaused, a) + Filter(IsCaused, b)
  {
    CountWhereAppend(IsLateChange, a, b);
    FirstTerminalAppend(a, b);
    FilterAppend(IsCaused, a, b);
  }

  /** At most one event of a kind. */
  lemma UpToOne(events: seq<Event>)
    requires |events| <= 1
    ensures CountWhere(IsLateChange, events) == if events != [] && IsLateChange(events[0]) then 1 else 0
    ensures FirstTerminal(events) == if events != [] && events[0].ReachTerminal? then Some(events[0].ts) else None
    ensures Filter(IsCaused, events) == if events != [] && IsCaused(events[0]) then events else []
  {
    if events != [] {
      assert events[..0] == [] && events == [events[0]];
    }
  }

  /** What one line adds to a story: its cause, a late change or not, an end or not. */
  predicate Tells(more: seq<Event>, cause: Option<Cause>, late: bool, over: bool, ts: int) {
    && CountWhere(IsLateChange, more) == (if late then 1 else 0)
    && FirstTerminal(more) == (if over then Some(ts) else None)
    && Filter(IsCaused, more) == (if cause.Some? then [Caused(ts, cause.value)] else [])
    && (forall i :: 0 <= i < |more| && more[i].Caused? ==> cause == Some(more[i].cause))
    && (cause.Some? ==> more != [] && more[0].Caused?)
  }

  /** A cause, a late move and an end, each there or not. */
  predicate AreParts(a: seq<Event>, b: seq<Event>, c: seq<Event>) {
    && |a| <= 1 && |b| <= 1 && |c| <= 1
    && (a != [] ==> a[0].Caused?) && (b != [] ==> b[0].LateSurfaceChange?) && (c != [] ==> c[0].ReachTerminal?)
  }

  lemma LateInParts(a: seq<Event>, b: seq<Event>, c: seq<Event>)
    requires AreParts(a, b, c)
    ensures CountWhere(IsLateChange, a + b + c) == |b|
  {
    UpToOne(a);
    UpToOne(b);
    UpToOne(c);
    CountWhereAppend(IsLateChange, a, b);
    CountWhereAppend(IsLateChange, a + b, c);
  }

  lemma EndInParts(a: seq<Event>, b: seq<Event>, c: seq<Event>)
    requires AreParts(a, b, c)
    ensures FirstTerminal(a + b + c) == if c == [] then None else Some(c[0].ts)
  {
    UpToOne(a);
    UpToOne(b);
    UpToOne(c);
    FirstTerminalAppend(a, b);
    FirstTerminalAppend(a + b, c);
  }

  lemma CauseInParts(a: seq<Event>, b: seq<Event>, c: seq<Event>)
    requires AreParts(a, b, c)
    ensures Filter(IsCaused, a + b + c) == a
  {
    UpToOne(a);
    UpToOne(b);
    UpToOne(c);
    FilterAppend(IsCaused, a, b);
    FilterAppend(IsCaused, a + b, c);
  }

  lemma NewEventsTell(cycle: Cycle, prev: Option<Snapshot>, live: Entry, surface: string, cause: Option<Cause>, ts: int)
    ensures Tells(NewEvents(cycle, prev, live, surface, cause, ts), cause, IsLate(cycle, prev, surface, cause),
                  IsTerminal(live.status) && !cycle.terminal, ts)
  {
    var a: seq<Event> := if cause.Some? then [Caused(ts, cause.value)] else [];
    var b: seq<Event> :=
      if IsLate(cycle, prev, surface, cause) then [LateSurfaceChange(ts, prev.value.view.surface, surface)] else [];
    var c: seq<Event> := if IsTerminal(live.status) && !cycle.terminal then [ReachTerminal(ts)] else [];
    LateInParts(a, b, c);
    EndInParts(a, b, c);
    CauseInParts(a, b, c);
    assert NewEvents(cycle, prev, live, surface, cause, ts) == a + b + c;
  }

  lemma ReopensMore(events: seq<Event>, more: seq<Event>, cause: Option<Cause>)
    requires forall i :: 0 <= i < |more| && more[i].Caused? ==> cause == Some(more[i].cause)
    requires cause.Some? ==> more != [] && more[0].Caused?
    ensures Reopens(events + more) <==> Reopens(events) || cause == Some(Retry)
  {
    var all := events + more;
    if i :| 0 <= i < |events| && events[i].Caused? && events[i].cause == Retry {
      assert all[i] == events[i];
    }
    if cause == Some(Retry) {
      assert all[|events|] == more[0];
    }
  }

  lemma CausedAdded(events: seq<Event>, more: seq<Event>, h: seq<Snapshot>, s: Snapshot)
    requires IsCausedBy(events, h) && Filter(IsCaused, more)
      == if s.cause.Some? then [Caused(s.ts, s.cause.value)] else []
    ensures IsCausedBy(events + more, h + [s])
  {
    EventsAppend(events, more);
    Snoc(h, s);
  }

  lemma SummaryGrows(a: Cycle, b: Cycle, more: seq<Event>, s: Snapshot, late: bool, over: bool)
    requires SummaryTold(a) && Tells(more, s.cause, late, over, s.ts)
    requires b.events == a.events + more && b.history == a.history + [s]
    requires b.lateChanges == a.lateChanges + (if late then 1 else 0)
    requires b.terminalAt == if over && a.terminalAt.None? then Some(s.ts) else a.terminalAt
    requires b.reopened <==> a.reopened || s.cause == Some(Retry)
    ensures SummaryTold(b)
  {
    EventsAppend(a.events, more);
    ReopensMore(a.events, more, s.cause);
    CausedAdded(a.events, more, a.history, s);
  }

  lemma SummaryAdded(cycle: Cycle, prev: Option<Snapshot>, live: Entry, view: View, self: bool, ts: int)
    requires SummaryTold(cycle)
    ensures SummaryTold(WithSnapshot(cycle, prev, live, view, self, ts))
  {
    var next, cause :=
      WithSnapshot(cycle, prev, live, view, self, ts), CauseOf(prev, live, self, cycle.terminal, CurrentRun(cycle));
    var more, s :=
      NewEvents(cycle, prev, live, view.surface, cause, ts), Snapshot(ts, Given(live.runId), view, self, cause);
    NewEventsTell(cycle, prev, live, view.surface, cause, ts);
    SummaryGrows(cycle, next, more, s, IsLate(cycle, prev, view.surface, cause),
      IsTerminal(live.status) && !cycle.terminal);
  }

  lemma CreationAdded(cycle: Cycle, prev: Option<Snapshot>, live: Entry, view: View, self: bool, ts: int)
    requires if prev.None? then cycle == NEW_CYCLE else CreatedOnce(cycle.events)
    ensures CreatedOnce(WithSnapshot(cycle, prev, live, view, self, ts).events)
  {
    var cause := CauseOf(prev, live, self, cycle.terminal, CurrentRun(cycle));
    EventsCreatedOnce(cycle.events, NewEvents(cycle, prev, live, view.surface, cause, ts), prev.None?);
  }

  lemma CausesFit(h: seq<Snapshot>, s: Snapshot)
    requires forall i :: 0 <= i < |h| ==> CauseFits(h, i)
    requires CauseFits(h + [s], |h|)
    ensures forall i :: 0 <= i < |h + [s]| ==> CauseFits(h + [s], i)
  {
    forall i | 0 <= i < |h|
      ensures CauseFits(h + [s], i)
    {
      assert CauseFits(h, i) && (h + [s])[..i] == h[..i];
    }
  }

  lemma OneLastRun(h: seq<Snapshot>, a: Option<string>, b: Option<string>)
    requires IsLastRun(h, a)
    ensures IsLastRun(h, b) <==> a == b
  {
  }

  /** `prev` is the last snapshot, and the summary fields speak of it and of the last run. */
  predicate EndsWith(h: seq<Snapshot>, prev: Option<Snapshot>, terminal: bool, run: Option<string>) {
    && (prev.None? <==> h == [])
    && (prev.Some? ==> prev.value == h[|h| - 1] && (terminal <==> IsOver(prev.value)))
    && (prev.None? ==> !terminal)
    && IsLastRun(h, run)
  }

  lemma NewCauseFits(h: seq<Snapshot>, s: Snapshot, prev: Option<Snapshot>, live: Entry, terminal: bool,
                     run: Option<string>)
    requires EndsWith(h, prev, terminal, run)
    requires s.view.status == live.status && s.view.step == Given(live.step) && s.runId == Given(live.runId)
    requires s.cause == CauseOf(prev, live, s.self, terminal, run)
    ensures CauseFits(h + [s], |h|)
  {
    assert (h + [s])[..|h|] == h && (h + [s])[|h|] == s;
    assert h != [] ==> (h + [s])[|h| - 1] == h[|h| - 1];
    OneLastRun(h, run, s.runId);
  }

  lemma HistoryAdded(sign: Signer, h: seq<Snapshot>, before: int, prev: Option<Snapshot>, s: Snapshot)
    requires before <= s.ts && (prev.None? <==> h == [])
    requires prev.Some? ==>
      HistoryTold(sign, h, before) && prev.value == h[|h| - 1] && sign(prev.value.view) != sign(s.view)
    requires CauseFits(h + [s], |h|)
    ensures HistoryTold(sign, h + [s], s.ts)
  {
    OrderedSnoc(SnapshotTime, h, s);
    CausesFit(h, s);
  }

  function RunsWith(ids: seq<string>, run: Option<string>): seq<string> {
    if run.Some? && (ids == [] || ids[|ids| - 1] != run.value) then ids + [run.value] else ids
  }

  lemma LastRunAdded(h: seq<Snapshot>, s: Snapshot, run: Option<string>)
    requires IsLastRun(h, run)
    ensures IsLastRun(h + [s], if s.runId.Some? then s.runId else run)
  {
    var next := h + [s];
    if s.runId.Some? {
      assert next[|h|].runId == s.runId;
    } else if run.Some? {
      var k :| 0 <= k < |h| && h[k].runId == run && forall j :: k < j < |h| ==> h[j].runId.None?;
      assert next[k].runId == run;
    }
  }

  lemma SeenInMore(h: seq<Snapshot>, s: Snapshot, id: string)
    ensures SeenIn(h + [s], id) <==> SeenIn(h, id) || s.runId == Some(id)
  {
    var next := h + [s];
    assert next[|h|] == s;
    if SeenIn(h, id) {
      var k :| 0 <= k < |h| && h[k].runId == Some(id);
      assert next[k].runId == Some(id);
    }
  }

  lemma RunsAdded(ids: seq<string>, h: seq<Snapshot>, s: Snapshot)
    requires RunsTold(ids, h)
    ensures RunsTold(RunsWith(ids, s.runId), h + [s])
  {
    LastRunAdded(h, s, if ids == [] then None else Some(ids[|ids| - 1]));
    forall id: string
      ensures id in RunsWith(ids, s.runId) <==> SeenIn(h + [s], id)
    {
      SeenInMore(h, s, id);
    }
  }

  lemma NewEventsAre(h: seq<Snapshot>, s: Snapshot, prev: Option<Snapshot>, live: Entry, cycle: Cycle)
    requires s.view.status == live.status && EndsWith(h, prev, cycle.terminal, CurrentRun(cycle))
    ensures EventsOf(h + [s]) == EventsOf(h) + NewEvents(cycle, prev, live, s.view.surface, s.cause, s.ts)
  {
    assert (h + [s])[..|h|] == h && (h + [s])[|h|] == s;
    assert h != [] ==> (h + [s])[|h| - 1] == h[|h| - 1];
  }

  /** The story a snapshot is added to: none yet, or one that was well told. */
  ghost predicate Continues(sign: Signer, cycle: Cycle, id: string, before: int, prev: Option<Snapshot>) {
    if prev.None? then cycle == NEW_CYCLE
    else WellTold(sign, cycle, id, before) && prev.value == cycle.history[|cycle.history| - 1]
  }

  lemma ContinuesEnds(sign: Signer, cycle: Cycle, id: string, before: int, prev: Option<Snapshot>)
    requires Continues(sign, cycle, id, before, prev)
    ensures EndsWith(cycle.history, prev, cycle.terminal, CurrentRun(cycle)) && RunsTold(cycle.runIds, cycle.history)
    ensures cycle.events == EventsOf(cycle.history) && SummaryTold(cycle)
    ensures if prev.None? then cycle == NEW_CYCLE else CreatedOnce(cycle.events)
  {
  }

  lemma HistoryPart(sign: Signer, cycle: Cycle, before: int, prev: Option<Snapshot>, live: Entry, view: View,
                    self: bool, ts: int)
    requires before <= ts && view.status == live.status && view.step == Given(live.step)
    requires EndsWith(cycle.history, prev, cycle.terminal, CurrentRun(cycle))
    requires prev.Some? ==> HistoryTold(sign, cycle.history, before) && sign(prev.value.view) != sign(view)
    ensures HistoryTold(sign, WithSnapshot(cycle, prev, live, view, self, ts).history, ts)
  {
    var run := CurrentRun(cycle);
    var s := Snapshot(ts, Given(live.runId), view, self, CauseOf(prev, live, self, cycle.terminal, run));
    NewCauseFits(cycle.history, s, prev, live, cycle.terminal, run);
    HistoryAdded(sign, cycle.history, before, prev, s);
  }

  lemma RunsPart(cycle: Cycle, prev: Option<Snapshot>, live: Entry, view: View, self: bool, ts: int)
    requires RunsTold(cycle.runIds, cycle.history)
    ensures var next := WithSnapshot(cycle, prev, live, view, self, ts); RunsTold(next.runIds, next.history)
  {
    var s := Snapshot(ts, Given(live.runId), view, self,
      CauseOf(prev, live, self, cycle.terminal, CurrentRun(cycle)));
    RunsAdded(cycle.runIds, cycle.history, s);
    assert WithSnapshot(cycle, prev, live, view, self, ts).runIds == RunsWith(cycle.runIds, s.runId);
  }

  lemma EventsPart(cycle: Cycle, prev: Option<Snapshot>, live: Entry, view: View, self: bool, ts: int)
    requires EndsWith(cycle.history, prev, cycle.terminal, CurrentRun(cycle)) && view.status == live.status
    requires cycle.events == EventsOf(cycle.history)
    ensures var next := WithSnapshot(cycle, prev, live, view, self, ts); next.events == EventsOf(next.history)
  {
    var s := Snapshot(ts, Given(live.runId), view, self,
      CauseOf(prev, live, self, cycle.terminal, CurrentRun(cycle)));
    NewEventsAre(cycle.history, s, prev, live, cycle);
  }

  lemma SnapshotAdded(sign: Signer, cycle: Cycle, id: string, before: int, prev: Option<Snapshot>, live: Entry,
                      view: View, self: bool, ts: int)
    requires before <= ts && live.id == id && view.status == live.status && view.step == Given(live.step)
    requires Continues(sign, cycle, id, before, prev)
    requires prev.Some? ==> sign(prev.value.view) != sign(view)
    ensures WellTold(sign, WithSnapshot(cycle, prev, live, view, self, ts), id, ts)
  {
    ContinuesEnds(sign, cycle, id, before, prev);
    HistoryPart(sign, cycle, before, prev, live, view, self, ts);
    RunsPart(cycle, prev, live, view, self, ts);
    EventsPart(cycle, prev, live, view, self, ts);
    SummaryAdded(cycle, prev, live, view, self, ts);
    CreationAdded(cycle, prev, live, view, self, ts);
  }

  ghost predicate RowTold(sign: Signer, row: Row, id: string, now: int) {
    row.cycle.Some? ==> WellTold(sign, row.cycle.value, id, now)
  }

  lemma EventsCreatedOnce(events: seq<Event>, more: seq<Event>, first: bool)
    requires first ==> events == [] && more != [] && more[0].Caused? && more[0].cause == Create
    requires !first ==> CreatedOnce(events)
    requires forall i :: (if first then 1 else 0) <= i < |more| ==> !(more[i].Caused? && more[i].cause == Create)
    ensures CreatedOnce(events + more)
  {
  }

  lemma {:induction false} ObservedTold(sign: Signer, row: Row, live: Entry, c: Classification, self: bool, ts: int,
                                        before: int)
    requires before <= ts && RowTold(sign, row, live.id, before)
    ensures RowTold(sign, Observed(sign, row, live, c, self, ts), live.id, ts)
    ensures Observed(sign, row, live, c, self, ts).cycle.Some?
  {
    var data := if self then row.data + live.data else row.data;
    var view, prev := ViewOf(live, c, data), LastSnapshot(row);
    if !(prev.Some? && sign(prev.value.view) == sign(view)) {
      var cycle := if row.cycle.Some? then row.cycle.value else NEW_CYCLE;
      SnapshotAdded(sign, cycle, live.id, before, prev, live, view, self, ts);
    }
  }

  /** A story only grows. */
  predicate Extends(a: Row, b: Row) {
    a.cycle.Some? ==>
      b.cycle.Some? && a.cycle.value.history <= b.cycle.value.history && a.cycle.value.events <= b.cycle.value.events
  }

  lemma ObservedExtends(sign: Signer, row: Row, live: Entry, c: Classification, self: bool, ts: int)
    ensures Extends(row, Observed(sign, row, live, c, self, ts))
  {
  }

  // ---- The replay ----

  datatype State = State(live: seq<Entry>, rows: map<string, Row>)

  const START := State([], map[])

  function RowAt(rows: map<string, Row>, id: string): Row { if id in rows then rows[id] else UNSEEN }

  function ClassOf(surfaces: map<string, Classification>, id: string): Classification {
    if id in surfaces then surfaces[id] else Classification("hidden", 0)
  }

  /** Every live row looks at the line that just came. */
  function ObserveAll(sign: Signer, surfaces: map<string, Classification>, live: seq<Entry>, e: Entry,
                      rows: map<string, Row>): map<string, Row>
    decreases |live|
  {
    if live == [] then rows
    else
      var l, before := live[|live| - 1], ObserveAll(sign, surfaces, live[..|live| - 1], e, rows);
      before[l.id := Observed(sign, RowAt(before, l.id), l, ClassOf(surfaces, l.id), l.id == e.id, e.ts)]
  }

  function Step(sign: Signer, classify: Classifier, s: State, e: Entry): State {
    var live := Put(IdOf, s.live, e);
    State(live, ObserveAll(sign, classify(live), live, e, s.rows))
  }

  function Replay(sign: Signer, classify: Classifier, entries: seq<Entry>): State
    decreases |entries|
  {
    if entries == [] then START
    else Step(sign, classify, Replay(sign, classify, entries[..|entries| - 1]), entries[|entries| - 1])
  }

  function EntryTime(e: Entry): int { e.ts }

  function Of(workflow: string): Entry -> bool { (e: Entry) => e.workflow == workflow }

  function Chronological(workflow: string, raw: seq<Entry>): seq<Entry> { Sort(EntryTime, Filter(Of(workflow), raw)) }

  function Lifecycles(sign: Signer, classify: Classifier, workflow: string, raw: seq<Entry>): map<string, Row> {
    Replay(sign, classify, Chronological(workflow, raw)).rows
  }

  lemma {:induction false} NotLiveUntouched(sign: Signer, surfaces: map<string, Classification>, live: seq<Entry>,
                                            e: Entry, rows: map<string, Row>, id: string)
    requires forall l :: l in live ==> l.id != id
    ensures RowAt(ObserveAll(sign, surfaces, live, e, rows), id) == RowAt(rows, id)
    decreases |live|
  {
    if live != [] {
      NotLiveUntouched(sign, surfaces, live[..|live| - 1], e, rows, id);
    }
  }

  lemma KeysApart(live: seq<Entry>, k: nat)
    requires KeysDistinct(IdOf, live) && k < |live|
    ensures KeysDistinct(IdOf, live[..k]) && forall l :: l in live[..k] ==> l.id != live[k].id
  {
    forall l | l in live[..k]
      ensures l.id != live[k].id
    {
      var j :| 0 <= j < k && live[j] == l;
      assert IdOf(live[j]) != IdOf(live[k]);
    }
  }

  /** Ids are distinct among live rows, so each row is observed once, on its own. */
  lemma {:induction false} LiveObservedOnce(sign: Signer, surfaces: map<string, Classification>, live: seq<Entry>,
                                            e: Entry, rows: map<string, Row>, l: Entry)
    requires KeysDistinct(IdOf, live) && l in live
    ensures RowAt(ObserveAll(sign, surfaces, live, e, rows), l.id)
         == Observed(sign, RowAt(rows, l.id), l, ClassOf(surfaces, l.id), l.id == e.id, e.ts)
    decreases |live|
  {
    var front, last := live[..|live| - 1], live[|live| - 1];
    KeysApart(live, |live| - 1);
    if l == last {
      NotLiveUntouched(sign, surfaces, front, e, rows, l.id);
    } else {
      LiveObservedOnce(sign, surfaces, front, e, rows, l);
    }
  }

  /** What a replay keeps: live rows are told apart by id, and every story is well told up to now. */
  ghost predicate Told(sign: Signer, s: State, now: int) {
    && KeysDistinct(IdOf, s.live)
    && (forall id: string :: RowTold(sign, RowAt(s.rows, id), id, now))
    && (forall l :: l in s.live ==> RowAt(s.rows, l.id).cycle.Some?)
  }

  lemma {:induction false} StepTold(sign: Signer, classify: Classifier, s: State, e: Entry, now: int)
    requires Told(sign, s, now) && now <= e.ts
    ensures Told(sign, Step(sign, classify, s, e), e.ts)
    ensures forall id: string :: Extends(RowAt(s.rows, id), RowAt(Step(sign, classify, s, e).rows, id))
  {
    var live, next := Put(IdOf, s.live, e), Step(sign, classify, s, e);
    PutKeeps(IdOf, s.live, e);
    forall id: string
      ensures RowTold(sign, RowAt(next.rows, id), id, e.ts)
      ensures Extends(RowAt(s.rows, id), RowAt(next.rows, id))
      ensures (exists l :: l in live && l.id == id) ==> RowAt(next.rows, id).cycle.Some?
    {
      assert RowTold(sign, RowAt(s.rows, id), id, now);
      if l :| l in live && l.id == id {
        var c := ClassOf(classify(live), id);
        LiveObservedOnce(sign, classify(live), live, e, s.rows, l);
        ObservedTold(sign, RowAt(s.rows, id), l, c, id == e.id, e.ts, now);
        ObservedExtends(sign, RowAt(s.rows, id), l, c, id == e.id, e.ts);
      } else {
        NotLiveUntouched(sign, classify(live), live, e, s.rows, id);
      }
    }
  }

  /** Main result: in a chronological replay, every row's story is well told: neighbouring snapshots differ, there is
      one creation and it comes first, and the late-change counter is the number of such events. */
  lemma {:induction false} ReplayTold(sign: Signer, classify: Classifier, entries: seq<Entry>, now: int)
    requires Ordered(EntryTime, entries) && (forall e :: e in entries ==> e.ts <= now)
    ensures Told(sign, Replay(sign, classify, entries), now)
    decreases |entries|
  {
    if entries != [] {
      var front, e := entries[..|entries| - 1], entries[|entries| - 1];
      FrontBelow(entries);
      ReplayTold(sign, classify, front, e.ts);
      StepTold(sign, classify, Replay(sign, classify, front), e, e.ts);
      ToldLater(sign, Replay(sign, classify, entries), e.ts, now);
    }
  }

  lemma ToldLater(sign: Signer, s: State, now: int, later: int)
    requires Told(sign, s, now) && now <= later
    ensures Told(sign, s, later)
  {
    forall id: string
      ensures RowTold(sign, RowAt(s.rows, id), id, later)
    {
      assert RowTold(sign, RowAt(s.rows, id), id, now);
    }
  }

  // ---- The stories are up to date ----

  /** How a live row looks: as its own line says, on its surface or hidden, with the data of its own lines. */
  predicate LooksLike(v: View, l: Entry, surfaces: map<string, Classification>, data: map<string, string>) {
    && v.status == l.status && v.archetype == l.archetype && v.data == data
    && v.step == (if l.step == Some("") then None else l.step)
    && v.surface == (if l.id in surfaces then surfaces[l.id].surface else "hidden")
    && v.members == (if l.id in surfaces then surfaces[l.id].members else 0)
  }

  /** The operator approved a scanned form: the last line of the OCR row itself says so, with a step or without. */
  predicate IsApproval(l: Entry) {
    && l.workflow == "ocr" && l.status == Done && (l.step == None || l.step == Some("approved"))
    && (l.batch || l.archetype == "preview")
  }

  /** A snapshot shows the row at the line `e`, `l` being the row's own last line. */
  predicate Shows(x: Snapshot, l: Entry, e: Entry, first: bool) {
    && x.ts == e.ts && (x.self <==> l.id == e.id)
    && x.runId == (if l.runId == Some("") then None else l.runId)
    && (x.cause == Some(OcrApproval) <==> !first && x.self && IsApproval(l))
  }

  /** The last snapshot looks as the row does. */
  predicate IsCurrent(sign: Signer, row: Row, v: View) {
    row.cycle.Some? && row.cycle.value.history != []
      && sign(row.cycle.value.history[|row.cycle.value.history| - 1].view) == sign(v)
  }

  /** Nothing was added to the row's history, or one snapshot that looks different from the last. */
  ghost predicate AddsOne(sign: Signer, a: Row, b: Row, v: View, l: Entry, e: Entry) {
    var h := if a.cycle.Some? then a.cycle.value.history else [];
    var same := h != [] && sign(h[|h| - 1].view) == sign(v);
    && b.cycle.Some?
    && (same ==> b.cycle == a.cycle)
    && (!same ==> exists x :: b.cycle.value.history == h + [x] && x.view == v && Shows(x, l, e, h == []))
  }

  lemma ObservedAdds(sign: Signer, row: Row, l: Entry, e: Entry, c: Classification, v: View)
    requires v == View(l.status, Given(l.step), c.surface, l.archetype, c.members,
                       if l.id == e.id then row.data + l.data else row.data)
    requires row.cycle.Some? ==> row.cycle.value.history != []
    ensures var after := Observed(sign, row, l, c, l.id == e.id, e.ts);
      AddsOne(sign, row, after, v, l, e) && IsCurrent(sign, after, v) && after.data == v.data
  {
    var after := Observed(sign, row, l, c, l.id == e.id, e.ts).cycle.value.history;
    var x := after[|after| - 1];
    assert row.cycle.None? ==> after == [] + [x];
  }

  /** What one line does to each live row. */
  lemma StepShows(sign: Signer, classify: Classifier, s: State, e: Entry, now: int, l: Entry, v: View)
    requires Told(sign, s, now) && l in Step(sign, classify, s, e).live
    requires LooksLike(v, l, classify(Step(sign, classify, s, e).live),
                       if l.id == e.id then RowAt(s.rows, l.id).data + e.data else RowAt(s.rows, l.id).data)
    ensures var a, b := RowAt(s.rows, l.id), RowAt(Step(sign, classify, s, e).rows, l.id);
      AddsOne(sign, a, b, v, l, e) && IsCurrent(sign, b, v) && b.data == v.data
  {
    var live := Put(IdOf, s.live, e);
    var c := ClassOf(classify(live), l.id);
    PutKeeps(IdOf, s.live, e);
    assert l.id == e.id ==> l == e;
    assert RowTold(sign, RowAt(s.rows, l.id), l.id, now);
    LiveObservedOnce(sign, classify(live), live, e, s.rows, l);
    ObservedAdds(sign, RowAt(s.rows, l.id), l, e, c, v);
  }

  /** The last line of its row. */
  predicate IsLatest(entries: seq<Entry>, l: Entry) {
    exists k :: 0 <= k < |entries| && entries[k] == l && forall j :: k < j < |entries| ==> entries[j].id != l.id
  }

  /** The data of a row's own lines, a later value over an earlier one. */
  function Gathered(entries: seq<Entry>, id: string): map<string, string> {
    if entries == [] then map[]
    else
      var front, e := Gathered(entries[..|entries| - 1], id), entries[|entries| - 1];
      if e.id == id then front + e.data else front
  }

  lemma LatestMore(entries: seq<Entry>, l: Entry)
    requires entries != []
    ensures var e := entries[|entries| - 1];
      IsLatest(entries, l) <==> l == e || (l.id != e.id && IsLatest(entries[..|entries| - 1], l))
  {
    var n := |entries| - 1;
    var front := entries[..n];
    if IsLatest(entries, l) && l != entries[n] {
      var k :| 0 <= k <= n && entries[k] == l && forall j :: k < j <= n ==> entries[j].id != l.id;
      assert k < n && front[k] == l;
    }
    if l == entries[n] {
      assert entries[n] == l;
    } else if l.id != entries[n].id && IsLatest(front, l) {
      var k :| 0 <= k < n && front[k] == l && forall j :: k < j < n ==> front[j].id != l.id;
      assert entries[k] == l;
      forall j | k < j <= n
        ensures entries[j].id != l.id
      {
        assert j < n ==> front[j] == entries[j];
      }
    }
  }

  /** The live rows are the last lines, and each row has the data of its own lines. */
  lemma {:induction false} ReplayLive(sign: Signer, classify: Classifier, entries: seq<Entry>, now: int)
    requires Ordered(EntryTime, entries) && (forall e :: e in entries ==> e.ts <= now)
    ensures forall l :: l in Replay(sign, classify, entries).live <==> IsLatest(entries, l)
    ensures forall id: string :: RowAt(Replay(sign, classify, entries).rows, id).data == Gathered(entries, id)
    decreases |entries|
  {
    if entries != [] {
      var front, e := entries[..|entries| - 1], entries[|entries| - 1];
      var s, next := Replay(sign, classify, front), Replay(sign, classify, entries);
      FrontBelow(entries);
      ReplayLive(sign, classify, front, e.ts);
      ReplayTold(sign, classify, front, e.ts);
      PutKeeps(IdOf, s.live, e);
      forall l
        ensures l in next.live <==> IsLatest(entries, l)
      {
        LatestMore(entries, l);
      }
      forall id: string
        ensures RowAt(next.rows, id).data == Gathered(entries, id)
      {
        StepData(sign, classify, s, e, e.ts, id);
      }
    }
  }

  lemma FrontBelow(entries: seq<Entry>)
    requires entries != [] && Ordered(EntryTime, entries)
    ensures Ordered(EntryTime, entries[..|entries| - 1])
    ensures forall x :: x in entries[..|entries| - 1] ==> x.ts <= entries[|entries| - 1].ts
  {
    var front, e := entries[..|entries| - 1], entries[|entries| - 1];
    forall x | x in front
      ensures x.ts <= e.ts
    {
      var k :| 0 <= k < |front| && entries[k] == x;
      assert EntryTime(entries[k]) <= EntryTime(entries[|entries| - 1]);
    }
  }

  lemma StepData(sign: Signer, classify: Classifier, s: State, e: Entry, now: int, id: string)
    requires Told(sign, s, now)
    ensures RowAt(Step(sign, classify, s, e).rows, id).data
         == if id == e.id then RowAt(s.rows, id).data + e.data else RowAt(s.rows, id).data
  {
    var live := Put(IdOf, s.live, e);
    PutKeeps(IdOf, s.live, e);
    if l :| l in live && l.id == id {
      assert l.id == e.id ==> l == e;
      LiveObservedOnce(sign, classify(live), live, e, s.rows, l);
    } else {
      assert e in live;
      NotLiveUntouched(sign, classify(live), live, e, s.rows, id);
    }
  }

  /** Main result: after a replay, each row's last snapshot looks as its last line, the surfaces of the last lines and
      the data of all its lines say. */
  lemma ReplayIsCurrent(sign: Signer, classify: Classifier, entries: seq<Entry>, now: int, l: Entry, v: View)
    requires Ordered(EntryTime, entries) && (forall e :: e in entries ==> e.ts <= now)
    requires IsLatest(entries, l)
    requires LooksLike(v, l, classify(Replay(sign, classify, entries).live), Gathered(entries, l.id))
    ensures IsCurrent(sign, RowAt(Replay(sign, classify, entries).rows, l.id), v)
  {
    var front, e := entries[..|entries| - 1], entries[|entries| - 1];
    FrontBelow(entries);
    ReplayLive(sign, classify, entries, now);
    ReplayLive(sign, classify, front, e.ts);
    ReplayTold(sign, classify, front, e.ts);
    StepShows(sign, classify, Replay(sign, classify, front), e, e.ts, l, v);
  }

  lemma ReplayExtends(sign: Signer, classify: Classifier, sorted: seq<Entry>, e: Entry, id: string)
    requires Ordered(EntryTime, sorted) && forall x :: x in sorted ==> x.ts <= e.ts
    ensures Extends(RowAt(Replay(sign, classify, sorted).rows, id),
      RowAt(Replay(sign, classify, sorted + [e]).rows, id))
  {
    Snoc(sorted, e);
    ReplayTold(sign, classify, sorted, e.ts);
    StepTold(sign, classify, Replay(sign, classify, sorted), e, e.ts);
  }

  lemma KeptBelow(workflow: string, raw: seq<Entry>, limit: int)
    requires forall x :: x in raw && x.workflow == workflow ==> x.ts <= limit
    ensures forall x :: x in Filter(Of(workflow), raw) ==> x.ts <= limit
  {
    forall x | x in Filter(Of(workflow), raw)
      ensures x.ts <= limit
    {
      FilterHas(Of(workflow), raw, x);
    }
  }

  lemma ChronologicalOrdered(workflow: string, raw: seq<Entry>, limit: int)
    requires forall x :: x in raw && x.workflow == workflow ==> x.ts <= limit
    ensures Ordered(EntryTime, Chronological(workflow, raw)) && forall x :: x in Chronological(workflow, raw) ==>
      x.ts <= limit
  {
    KeptBelow(workflow, raw, limit);
    SortedBelow(Filter(Of(workflow), raw), limit);
    SortOrdered(EntryTime, Filter(Of(workflow), raw));
  }

  /** A line no earlier than the rest of its workflow comes last. */
  lemma ChronologicalSnoc(workflow: string, raw: seq<Entry>, e: Entry)
    requires e.workflow == workflow && forall x :: x in raw && x.workflow == workflow ==> x.ts <= e.ts
    ensures Chronological(workflow, raw + [e]) == Chronological(workflow, raw) + [e]
  {
    KeptBelow(workflow, raw, e.ts);
    assert Filter(Of(workflow), raw + [e]) == Filter(Of(workflow), raw) + [e] by { FilterSnoc(Of(workflow), raw, e); }
    SortAppendsLatest(EntryTime, Filter(Of(workflow), raw), e);
  }

  lemma ChronologicalSkips(workflow: string, raw: seq<Entry>, e: Entry)
    requires e.workflow != workflow
    ensures Chronological(workflow, raw + [e]) == Chronological(workflow, raw)
  {
    assert Filter(Of(workflow), raw + [e]) == Filter(Of(workflow), raw) by { FilterSnoc(Of(workflow), raw, e); }
  }

  /** Main result: a line no earlier than the rest only extends the stories; a line of another workflow leaves them. */
  lemma {:induction false} ReplayIsMonotone(sign: Signer, classify: Classifier, workflow: string, raw: seq<Entry>,
                                            e: Entry, id: string)
    requires forall x :: x in raw && x.workflow == workflow ==> x.ts <= e.ts
    ensures Extends(RowAt(Lifecycles(sign, classify, workflow, raw), id),
      RowAt(Lifecycles(sign, classify, workflow, raw + [e]), id))
    ensures e.workflow != workflow ==>
      Lifecycles(sign, classify, workflow, raw + [e]) == Lifecycles(sign, classify, workflow, raw)
  {
    if e.workflow == workflow {
      ChronologicalSnoc(workflow, raw, e);
      ChronologicalOrdered(workflow, raw, e.ts);
      ReplayExtends(sign, classify, Chronological(workflow, raw), e, id);
    } else {
      ChronologicalSkips(workflow, raw, e);
    }
  }

  lemma SortedBelow(kept: seq<Entry>, limit: int)
    requires forall x :: x in kept ==> x.ts <= limit
    ensures forall x :: x in Sort(EntryTime, kept) ==> x.ts <= limit
  {
    SortPermutes(EntryTime, kept);
    forall x | x in Sort(EntryTime, kept)
      ensures x.ts <= limit
    {
      assert x in multiset(Sort(EntryTime, kept));
    }
  }

  lemma ReplayStep(sign: Signer, classify: Classifier, entries: seq<Entry>, i: nat)
    requires i < |entries|
    ensures Replay(sign, classify, entries[..i + 1])
      == Step(sign, classify, Replay(sign, classify, entries[..i]), entries[i])
  {
    assert entries[..i + 1][..i] == entries[..i];
  }

  /** The replay's loops: for each line, every live row in turn. */
  method BuildRowLifecycles(sign: Signer, classify: Classifier, workflow: string, raw: seq<Entry>)
    returns (rows: map<string, Row>)
    ensures rows == Lifecycles(sign, classify, workflow, raw)
  {
    var entries := Chronological(workflow, raw);
    var live: seq<Entry> := [];
    rows := map[];
    for i := 0 to |entries|
      invariant State(live, rows) == Replay(sign, classify, entries[..i])
    {
      var entry := entries[i];
      ReplayStep(sign, classify, entries, i);
      live := Put(IdOf, live, entry);
      rows := ObserveRows(sign, classify(live), live, entry, rows);
    }
    assert entries[..|entries|] == entries;
  }

  method ObserveRows(sign: Signer, surfaces: map<string, Classification>, live: seq<Entry>, entry: Entry,
                     rows: map<string, Row>)
    returns (out: map<string, Row>)
    ensures out == ObserveAll(sign, surfaces, live, entry, rows)
  {
    out := rows;
    for j := 0 to |live|
      invariant out == ObserveAll(sign, surfaces, live[..j], entry, rows)
    {
      var l := live[j];
      assert live[..j + 1][..j] == live[..j];
      out := out[l.id := Observed(sign, RowAt(out, l.id), l, ClassOf(surfaces, l.id), l.id == entry.id, entry.ts)];
    }
    assert live[..|live|] == live;
  }

  // ---- The transition trail ----

  /** What a trail line shows of a snapshot. */
  datatype Shown = Shown(status: Status, step: Option<string>, surface: string)

  datatype TrailLine = TrailLine(
    ts: int, workflow: string, id: string, seqNo: nat, self: bool, cause: Option<Cause>, from: Option<Shown>, to: Shown)

  function ShownOf(s: Snapshot): Shown { Shown(s.view.status, s.view.step, s.view.surface) }

  function LineAt(workflow: string, c: Cycle, i: nat): TrailLine
    requires i < |c.history|
  {
    var s := c.history[i];
    TrailLine(s.ts, workflow, c.id, i, s.self, s.cause,
      if i > 0 then Some(ShownOf(c.history[i - 1])) else None, ShownOf(s))
  }

  function CycleLines(workflow: string, c: Cycle, n: nat): (r: seq<TrailLine>)
    requires n <= |c.history|
    ensures |r| == n && forall i :: 0 <= i < n ==> r[i] == LineAt(workflow, c, i)
  {
    seq(n, i requires 0 <= i < n => LineAt(workflow, c, i))
  }

  function AllLines(cycles: seq<(string, Cycle)>): seq<TrailLine> {
    if cycles == [] then []
    else
      var (workflow, c) := cycles[|cycles| - 1];
      AllLines(cycles[..|cycles| - 1]) + CycleLines(workflow, c, |c.history|)
  }

  function LineTime(l: TrailLine): int { l.ts }

  lemma TrailOrdered(lines: seq<TrailLine>)
    ensures var s := Sort(LineTime, lines);
      multiset(s) == multiset(lines) && forall i, j :: 0 <= i < j < |s| ==> s[i].ts <= s[j].ts
  {
    var s := Sort(LineTime, lines);
    SortPermutes(LineTime, lines);
    SortOrdered(LineTime, lines);
    forall i, j | 0 <= i < j < |s|
      ensures s[i].ts <= s[j].ts
    {
      assert LineTime(s[i]) <= LineTime(s[j]);
    }
  }

  method BuildTransitionTrail(cycles: seq<(string, Cycle)>) returns (lines: seq<TrailLine>)
    ensures lines == Sort(LineTime, AllLines(cycles))
    ensures multiset(lines) == multiset(AllLines(cycles))
    ensures forall i, j :: 0 <= i < j < |lines| ==> lines[i].ts <= lines[j].ts
  {
    lines := [];
    for i := 0 to |cycles|
      invariant lines == AllLines(cycles[..i])
    {
      var (workflow, c) := cycles[i];
      ghost var before := lines;
      for k := 0 to |c.history|
        invariant lines == before + CycleLines(workflow, c, k)
      {
        lines := lines + [LineAt(workflow, c, k)];
      }
      assert cycles[..i + 1][..i] == cycles[..i];
    }
    assert cycles[..|cycles|] == cycles;
    TrailOrdered(lines);
    lines := Sort(LineTime, lines);
  }

  function OfRow(workflow: string, id: string): TrailLine -> bool {
    (l: TrailLine) => l.workflow == workflow && l.id == id
  }

  /** Rows are told apart by workflow and id. */
  predicate DistinctRows(cycles: seq<(string, Cycle)>) {
    forall i, j :: 0 <= i < j < |cycles| ==> cycles[i].0 != cycles[j].0 || cycles[i].1.id != cycles[j].1.id
  }

  lemma {:induction false} FilterAll<T(!new)>(keep: T -> bool, s: seq<T>)
    ensures (forall x :: x in s ==> keep(x)) ==> Filter(keep, s) == s
    ensures (forall x :: x in s ==> !keep(x)) ==> Filter(keep, s) == []
  {
    if s != [] {
      FilterAll(keep, s[..|s| - 1]);
      Unsnoc(s);
    }
  }

  lemma {:induction false} FilterAppend<T(!new)>(keep: T -> bool, a: seq<T>, b: seq<T>)
    ensures Filter(keep, a + b) == Filter(keep, a) + Filter(keep, b)
  {
    if b == [] {
      assert a + b == a;
    } else {
      var front, last := b[..|b| - 1], b[|b| - 1];
      Unsnoc(b);
      assert a + b == (a + front) + [last];
      FilterAppend(keep, a, front);
      FilterSnoc(keep, a + front, last);
      FilterSnoc(keep, front, last);
    }
  }

  lemma {:induction false} RowLines(cycles: seq<(string, Cycle)>, i: nat)
    requires DistinctRows(cycles) && i < |cycles|
    ensures Filter(OfRow(cycles[i].0, cycles[i].1.id), AllLines(cycles))
         == CycleLines(cycles[i].0, cycles[i].1, |cycles[i].1.history|)
    decreases |cycles|
  {
    var front := cycles[..|cycles| - 1];
    var (workflow, c) := cycles[|cycles| - 1];
    var keep, lines := OfRow(cycles[i].0, cycles[i].1.id), CycleLines(workflow, c, |c.history|);
    FilterAppend(keep, AllLines(front), lines);
    FilterAll(keep, lines);
    if i < |front| {
      RowLines(front, i);
    } else {
      OtherRows(front, workflow, c.id);
    }
  }

  lemma {:induction false} OtherRows(cycles: seq<(string, Cycle)>, workflow: string, id: string)
    requires forall i :: 0 <= i < |cycles| ==> cycles[i].0 != workflow || cycles[i].1.id != id
    ensures Filter(OfRow(workflow, id), AllLines(cycles)) == []
    decreases |cycles|
  {
    if cycles != [] {
      var front := cycles[..|cycles| - 1];
      var (w, c) := cycles[|cycles| - 1];
      OtherRows(front, workflow, id);
      FilterAppend(OfRow(workflow, id), AllLines(front), CycleLines(w, c, |c.history|));
      FilterAll(OfRow(workflow, id), CycleLines(w, c, |c.history|));
    }
  }

  predicate IsOf(line: TrailLine, s: Snapshot) {
    && line.ts == s.ts && line.self == s.self && line.cause == s.cause
    && line.to.status == s.view.status && line.to.step == s.view.step && line.to.surface == s.view.surface
  }

  /** A row's lines number its snapshots, and each starts where the last one ended. */
  ghost predicate Chains(lines: seq<TrailLine>, h: seq<Snapshot>) {
    && |lines| == |h|
    && (forall k :: 0 <= k < |lines| ==> lines[k].seqNo == k && IsOf(lines[k], h[k]))
    && (forall k :: 0 <= k < |lines| ==> lines[k].from == if k == 0 then None else Some(lines[k - 1].to))
  }

  lemma CycleLinesChain(workflow: string, c: Cycle)
    ensures Chains(CycleLines(workflow, c, |c.history|), c.history)
  {
    var lines := CycleLines(workflow, c, |c.history|);
    forall k | 0 <= k < |lines|
      ensures lines[k].seqNo == k && IsOf(lines[k], c.history[k])
      ensures lines[k].from == if k == 0 then None else Some(lines[k - 1].to)
    {
      assert lines[k] == LineAt(workflow, c, k);
      if k > 0 {
        assert lines[k - 1] == LineAt(workflow, c, k - 1);
      }
    }
  }

  lemma CycleLinesOrdered(workflow: string, c: Cycle)
    requires Ordered(SnapshotTime, c.history)
    ensures Ordered(LineTime, CycleLines(workflow, c, |c.history|))
  {
    var lines := CycleLines(workflow, c, |c.history|);
    forall a, b | 0 <= a < b < |lines|
      ensures LineTime(lines[a]) <= LineTime(lines[b])
    {
      assert SnapshotTime(c.history[a]) <= SnapshotTime(c.history[b]);
    }
  }

  /** Main result: the sorted trail still tells each row's story in order, without a gap. */
  lemma {:induction false} TrailChains(sign: Signer, cycles: seq<(string, Cycle)>, i: nat, now: int)
    requires DistinctRows(cycles) && i < |cycles| && WellTold(sign, cycles[i].1, cycles[i].1.id, now)
    ensures Chains(Filter(OfRow(cycles[i].0, cycles[i].1.id), Sort(LineTime, AllLines(cycles))), cycles[i].1.history)
  {
    RowLines(cycles, i);
    CycleLinesChain(cycles[i].0, cycles[i].1);
    CycleLinesOrdered(cycles[i].0, cycles[i].1);
    SortKeepsPart(LineTime, OfRow(cycles[i].0, cycles[i].1.id), AllLines(cycles));
  }
}
