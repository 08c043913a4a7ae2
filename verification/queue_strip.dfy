/** The status strip's row list: children of a run rolled up into one row, everything else as it is. */
module QueueStrip {
  import opened Common
  import opened Grouping
  import opened StableSort
  import opened QueueSurfaces
  import Cards = QueueCards

  predicate IsPrepare(e: Entry)
    requires ValidStamp(e)
  {
    ShapeOf(e) == Operation && e.mode == Some("prepare")
  }

  predicate IsStripDiscarded(e: Entry)
    requires ValidStamp(e)
  {
    IsPrepare(e) && e.status == Failed && e.step == Some("discarded")
  }

  predicate IsStripApproved(e: Entry)
    requires ValidStamp(e)
  {
    e.workflow != "ocr" && IsPrepare(e) && e.status == Done && e.step == Some("approved")
  }

  /** Rolled up below its parent; OCR rows are children of an upload, not members of a batch. */
  function BatchOf(e: Entry): Option<string> { if e.workflow != "ocr" && HasParent(e) then e.parentRunId else None }

  predicate IsRolledUp(e: Entry) { BatchOf(e).Some? }

  // ---- One status for a batch ----

  datatype RollupKey = Plain(status: Status) | Cancelled

  /** A deliberate stop is no failure. */
  function KeyOf(e: Entry): RollupKey {
    if e.status == Failed && (e.step == Some("cancelled") || e.step == Some("discarded")) then Cancelled
    else Plain(e.status)
  }

  predicate SomeKey(members: seq<Entry>, key: RollupKey) { exists m :: m in members && KeyOf(m) == key }

  predicate SomeQueueLike(members: seq<Entry>) { exists m :: m in members && IsQueueLike(m) }

  function Rollup(members: seq<Entry>): (Status, Option<string>) {
    if SomeQueueLike(members) then (Queued, None)
    else if SomeKey(members, Plain(Running)) then (Running, None)
    else if SomeKey(members, Plain(Failed)) && !SomeKey(members, Plain(Done)) then (Failed, None)
    else if SomeKey(members, Cancelled) then (Failed, Some("cancelled"))
    else (Done, None)
  }

  // ---- The strip ----

  /** The runs that have members, in order of first appearance. */
  function StripParents(es: seq<Entry>): seq<string> { Keys(BatchOf, es) }

  function NotDiscarded(): Entry -> bool { (e: Entry) => ValidStamp(e) && !IsStripDiscarded(e) }

  predicate IsStandalone(e: Entry, parents: seq<string>) {
    && !(HasParent(e) && e.parentRunId.value in parents)
    && !(e.runId.Some? && e.runId.value in parents)
    && !(ValidStamp(e) && IsStripApproved(e))
  }

  function StandaloneIn(parents: seq<string>): Entry -> bool { (e: Entry) => IsStandalone(e, parents) }

  function Synth(parent: string, members: seq<Entry>): Entry
    requires members != []
  {
    var (status, step) := Rollup(members);
    var workflow := if members[0].workflow == "" then "workflow" else members[0].workflow;
    Entry(workflow, "__queue-strip-batch:" + parent, Some(parent), None, status, step, None, None)
  }

  function Synths(es: seq<Entry>): (rows: seq<Entry>)
    ensures |rows| == |StripParents(es)|
    ensures forall i :: 0 <= i < |rows| ==> rows[i] == Synth(StripParents(es)[i], RowsAt(BatchOf, es, i))
  {
    seq(|StripParents(es)|,
      i requires 0 <= i < |StripParents(es)| => Synth(StripParents(es)[i], RowsAt(BatchOf, es, i)))
  }

  function Strip(entries: seq<Entry>): seq<Entry> {
    var es := Filter(NotDiscarded(), entries);
    Filter(StandaloneIn(StripParents(es)), es) + Synths(es)
  }

  // ---- What becomes of each row ----

  /** Main result: every child is counted in exactly one batch: the batches' members add up to the children. */
  lemma ChildrenAddUp(es: seq<Entry>)
    ensures SumSizes(BatchOf, es, StripParents(es)) == CountWhere(HasKeyAt(BatchOf), es) && Distinct(StripParents(es))
  {
    SizesAddUp(BatchOf, es);
    KeysAre(BatchOf, es);
  }

  /** The strip has one row for each standalone entry and one for each run with members, no two of them for one run. */
  lemma StripSize(entries: seq<Entry>)
    ensures var es := Filter(NotDiscarded(), entries);
      && |Strip(entries)| == CountWhere(StandaloneIn(StripParents(es)), es) + |StripParents(es)|
      && Distinct(StripParents(es))
  {
    var es := Filter(NotDiscarded(), entries);
    KeysAre(BatchOf, es);
    FilterSize(StandaloneIn(StripParents(es)), es);
  }

  // ---- What the status pills add up to ----

  function OfKey(key: RollupKey): Entry -> bool { (e: Entry) => KeyOf(e) == key }

  function RollupKeyOf(members: seq<Entry>): RollupKey {
    var (status, step) := Rollup(members);
    if step == Some("cancelled") then Cancelled else Plain(status)
  }

  /** A run is counted under the key its members roll up to. */
  function ShowsKey(es: seq<Entry>, key: RollupKey): string -> bool {
    (parent: string) => RollupKeyOf(Filter(Under(BatchOf, parent), es)) == key
  }

  function KeptWithKey(parents: seq<string>, key: RollupKey): Entry -> bool {
    (e: Entry) => IsStandalone(e, parents) && KeyOf(e) == key
  }

  lemma {:induction false} CountOfFilter(keep: Entry -> bool, key: RollupKey, both: Entry -> bool, es: seq<Entry>)
    requires forall e :: both(e) <==> keep(e) && KeyOf(e) == key
    ensures CountWhere(OfKey(key), Filter(keep, es)) == CountWhere(both, es)
    decreases |es|
  {
    if es != [] {
      var front, last := es[..|es| - 1], es[|es| - 1];
      CountOfFilter(keep, key, both, front);
      CountWhereAppend(OfKey(key), Filter(keep, front), if keep(last) then [last] else []);
    }
  }

  lemma CountOfSynths(es: seq<Entry>, key: RollupKey)
    ensures CountWhere(OfKey(key), Synths(es)) == CountWhere(ShowsKey(es, key), StripParents(es))
  {
    forall i | 0 <= i < |StripParents(es)|
      ensures OfKey(key)(Synths(es)[i]) <==> ShowsKey(es, key)(StripParents(es)[i])
    {
      SynthShows(es, key, i);
    }
    CountsAgree(OfKey(key), Synths(es), ShowsKey(es, key), StripParents(es));
  }

  lemma SynthShows(es: seq<Entry>, key: RollupKey, i: nat)
    requires i < |StripParents(es)|
    ensures OfKey(key)(Synths(es)[i]) <==> ShowsKey(es, key)(StripParents(es)[i])
  {
    SynthKey(StripParents(es)[i], RowsAt(BatchOf, es, i));
  }

  lemma SynthKey(parent: string, members: seq<Entry>)
    requires members != []
    ensures KeyOf(Synth(parent, members)) == RollupKeyOf(members)
  {
  }

  /** Main result: a pill counts the standalone rows with its status and the runs whose members roll up to it. */
  lemma PillCounts(entries: seq<Entry>, key: RollupKey)
    ensures var es := Filter(NotDiscarded(), entries);
      CountWhere(OfKey(key), Strip(entries))
        == CountWhere(KeptWithKey(StripParents(es), key), es) + CountWhere(ShowsKey(es, key), StripParents(es))
  {
    var es := Filter(NotDiscarded(), entries);
    var parents := StripParents(es);
    CountWhereAppend(OfKey(key), Filter(StandaloneIn(parents), es), Synths(es));
    CountOfFilter(StandaloneIn(parents), key, KeptWithKey(parents, key), es);
    CountOfSynths(es, key);
  }

  function PillSum(rows: seq<Entry>): nat {
    CountWhere(OfKey(Plain(Queued)), rows) + CountWhere(OfKey(Plain(Running)), rows)
    + CountWhere(OfKey(Plain(Done)), rows) + CountWhere(OfKey(Plain(Failed)), rows)
    + CountWhere(OfKey(Plain(Skipped)), rows) + CountWhere(OfKey(Cancelled), rows)
  }

  lemma {:induction false} EachRowOnOnePill(rows: seq<Entry>)
    ensures PillSum(rows) == |rows|
    decreases |rows|
  {
    if rows != [] {
      EachRowOnOnePill(rows[..|rows| - 1]);
    }
  }

  /** The pills together count each standalone row and each run with members once. */
  lemma PillsAddUp(entries: seq<Entry>)
    ensures var es := Filter(NotDiscarded(), entries);
      PillSum(Strip(entries)) == CountWhere(StandaloneIn(StripParents(es)), es) + |StripParents(es)|
  {
    EachRowOnOnePill(Strip(entries));
    StripSize(entries);
  }

  /** A row the strip stands for: kept as it is, rolled up, the run a batch is for, or an approved preparation. */
  predicate Represented(es: seq<Entry>, e: Entry) {
    || IsStandalone(e, StripParents(es))
    || IsRolledUp(e)
    || (e.runId.Some? && e.runId.value in StripParents(es))
    || (ValidStamp(e) && IsStripApproved(e))
  }

  /** An OCR child of a run that also has other children: in no batch, and not kept either. */
  predicate IsOcrBesideBatch(es: seq<Entry>, e: Entry) {
    e.workflow == "ocr" && HasParent(e) && exists m :: m in es && BatchOf(m) == e.parentRunId
  }

  /** Main result: a row vanishes from the strip exactly when it is an OCR child beside a batch, and no batch is its
      own. */
  lemma OnlyOcrChildrenVanish(es: seq<Entry>, e: Entry)
    ensures !Represented(es, e)
       <==> IsOcrBesideBatch(es, e) && !(e.runId.Some? && e.runId.value in StripParents(es))
  {
    KeysAre(BatchOf, es);
  }

  const CHILD := Entry("person-lookup", "c", Some("r1"), Some("up"), Running, None, None, None)
  const OCR_CHILD := Entry("ocr", "o", Some("r2"), Some("up"), Running, None, None, None)

  lemma OcrChildVanishes()
    ensures !Represented([CHILD, OCR_CHILD], OCR_CHILD)
  {
    assert CHILD in [CHILD, OCR_CHILD] && BatchOf(CHILD) == Some("up");
    KeysAre(BatchOf, [CHILD, OCR_CHILD]);
    assert "r2" !in StripParents([CHILD, OCR_CHILD]);
    OnlyOcrChildrenVanish([CHILD, OCR_CHILD], OCR_CHILD);
  }

  /** The strip and the queue surfaces drop the same discarded rows, but for previews: the strip keeps those. */
  lemma DiscardsDiffer(e: Entry)
    requires ValidStamp(e)
    ensures IsDiscarded(e) != IsStripDiscarded(e) <==>
      ShapeOf(e) == Preview && e.status == Failed && e.step == Some("discarded")
    ensures IsStripDiscarded(e) ==> IsDiscarded(e)
  {
  }

  // ---- The strip by fields ----

  /** A preparation of an operation, old stamp or new. */
  predicate Prepares(e: Entry) { Cards.IsCoordinator(e) && e.mode == Some("prepare") }

  predicate IsDropped(e: Entry) { Prepares(e) && e.status == Failed && e.step == Some("discarded") }

  /** A row of the run's batch. */
  predicate IsChildOf(e: Entry, run: string) {
    run != "" && e.parentRunId == Some(run) && e.workflow != "ocr" && !IsDropped(e)
  }

  function ChildOf(run: string): Entry -> bool { (e: Entry) => IsChildOf(e, run) }

  ghost predicate HasChildren(entries: seq<Entry>, run: Option<string>) {
    run.Some? && exists m :: m in entries && IsChildOf(m, run.value)
  }

  ghost predicate StandsAlone(entries: seq<Entry>, e: Entry) {
    && !IsDropped(e) && !HasChildren(entries, e.parentRunId) && !HasChildren(entries, e.runId)
    && !(Prepares(e) && e.workflow != "ocr" && e.status == Done && e.step == Some("approved"))
  }

  ghost function StandingAlone(entries: seq<Entry>): Entry -> bool { (e: Entry) => StandsAlone(entries, e) }

  predicate SomeWith(members: seq<Entry>, status: Status) { exists m :: m in members && m.status == status }

  predicate WasStopped(e: Entry) { e.step == Some("cancelled") || e.step == Some("discarded") }

  /** A batch waits while one of its rows does, and runs while one does. When none does it has failed if a row failed by
      itself and none is done, was cancelled if a row was stopped, and is done otherwise. */
  predicate RollsUpTo(members: seq<Entry>, status: Status, step: Option<string>) {
    var waits := exists m :: m in members && IsQueueLike(m);
    var runs := SomeWith(members, Running);
    var broke := !SomeWith(members, Done) && exists m :: m in members && m.status == Failed && !WasStopped(m);
    var stopped := exists m :: m in members && m.status == Failed && WasStopped(m);
    && (status == Queued <==> waits)
    && (status == Running <==> !waits && runs)
    && (status == Failed <==> !waits && !runs && (broke || stopped))
    && (status == Done <==> !waits && !runs && !broke && !stopped)
    && step == if status == Failed && !broke then Some("cancelled") else None
  }

  ghost predicate IsBatchRow(entries: seq<Entry>, row: Entry) {
    row.runId.Some? &&
    var run := row.runId.value;
    var members := Filter(ChildOf(run), entries);
    && members != [] && RollsUpTo(members, row.status, row.step)
    && row.id == "__queue-strip-batch:" + run
    && row.workflow == (if members[0].workflow == "" then "workflow" else members[0].workflow)
    && row.parentRunId == None && row.stamp == None && row.mode == None
  }

  /** First the rows that stand alone, in their order, then a row for each run with children. */
  ghost predicate StripByFields(entries: seq<Entry>, rows: seq<Entry>) {
    var alone := Filter(StandingAlone(entries), entries);
    && alone <= rows
    && (forall i :: |alone| <= i < |rows| ==> IsBatchRow(entries, rows[i]))
    && (forall i, j :: |alone| <= i < j < |rows| ==> rows[i].runId != rows[j].runId)
    && (forall run :: HasChildren(entries, Some(run)) ==>
          exists i :: |alone| <= i < |rows| && rows[i].runId == Some(run))
  }

  lemma RollupMeans(members: seq<Entry>)
    ensures var (status, step) := Rollup(members); RollsUpTo(members, status, step)
  {
    forall m
      ensures KeyOf(m) == Plain(Running) <==> m.status == Running
      ensures KeyOf(m) == Plain(Done) <==> m.status == Done
      ensures KeyOf(m) == Plain(Failed) <==> m.status == Failed && !WasStopped(m)
      ensures KeyOf(m) == Cancelled <==> m.status == Failed && WasStopped(m)
    {
    }
    if m :| m in members && m.status == Running {
      assert KeyOf(m) == Plain(Running);
    }
    if m :| m in members && m.status == Done {
      assert KeyOf(m) == Plain(Done);
    }
    if m :| m in members && m.status == Failed && !WasStopped(m) {
      assert KeyOf(m) == Plain(Failed);
    }
    if m :| m in members && m.status == Failed && WasStopped(m) {
      assert KeyOf(m) == Cancelled;
    }
  }

  lemma ChildMeans(e: Entry, run: string)
    requires ValidStamp(e)
    ensures IsChildOf(e, run) <==> NotDiscarded()(e) && BatchOf(e) == Some(run)
    ensures IsStripDiscarded(e) <==> IsDropped(e)
    ensures IsStripApproved(e) <==>
      Prepares(e) && e.workflow != "ocr" && e.status == Done && e.step == Some("approved")
  {
  }

  lemma ParentsMean(entries: seq<Entry>, run: string)
    requires AllStamped(entries)
    ensures var es := Filter(NotDiscarded(), entries);
      && (run in StripParents(es) <==> HasChildren(entries, Some(run)))
      && Filter(Under(BatchOf, run), es) == Filter(ChildOf(run), entries)
  {
    var es := Filter(NotDiscarded(), entries);
    KeysAre(BatchOf, es);
    forall e | e in entries
      ensures ValidStamp(e)
      ensures IsChildOf(e, run) <==> e in es && BatchOf(e) == Some(run)
      ensures ChildOf(run)(e) <==> NotDiscarded()(e) && Under(BatchOf, run)(e)
    {
      ChildMeans(e, run);
      FilterHas(NotDiscarded(), entries, e);
    }
    forall e | e in es
      ensures e in entries
    {
      FilterHas(NotDiscarded(), entries, e);
    }
    Cards.FilterTwice(NotDiscarded(), Under(BatchOf, run), ChildOf(run), entries);
  }

  lemma AloneMeans(entries: seq<Entry>)
    requires AllStamped(entries)
    ensures var es := Filter(NotDiscarded(), entries);
      Filter(StandaloneIn(StripParents(es)), es) == Filter(StandingAlone(entries), entries)
  {
    var es := Filter(NotDiscarded(), entries);
    forall e | e in entries
      ensures StandingAlone(entries)(e) <==> NotDiscarded()(e) && StandaloneIn(StripParents(es))(e)
    {
      ChildMeans(e, "");
      if e.parentRunId.Some? {
        ParentsMean(entries, e.parentRunId.value);
      }
      if e.runId.Some? {
        ParentsMean(entries, e.runId.value);
      }
    }
    Cards.FilterTwice(NotDiscarded(), StandaloneIn(StripParents(es)), StandingAlone(entries), entries);
  }

  lemma BatchRowsMean(entries: seq<Entry>, i: nat)
    requires AllStamped(entries)
    requires var es := Filter(NotDiscarded(), entries); i < |StripParents(es)|
    ensures var es := Filter(NotDiscarded(), entries);
      IsBatchRow(entries, Synths(es)[i]) && Synths(es)[i].runId == Some(StripParents(es)[i])
  {
    var es := Filter(NotDiscarded(), entries);
    ParentsMean(entries, StripParents(es)[i]);
    RollupMeans(RowsAt(BatchOf, es, i));
  }

  /** Main result: what the strip shows, read off the rows themselves. */
  lemma StripIsByFields(entries: seq<Entry>)
    requires AllStamped(entries)
    ensures StripByFields(entries, Strip(entries))
  {
    var es := Filter(NotDiscarded(), entries);
    var alone, parents, rows := Filter(StandingAlone(entries), entries), StripParents(es), Strip(entries);
    AloneMeans(entries);
    KeysAre(BatchOf, es);
    forall i | |alone| <= i < |rows|
      ensures IsBatchRow(entries, rows[i]) && rows[i].runId == Some(parents[i - |alone|])
    {
      BatchRowsMean(entries, i - |alone|);
    }
    forall run | HasChildren(entries, Some(run))
      ensures exists i :: |alone| <= i < |rows| && rows[i].runId == Some(run)
    {
      ParentsMean(entries, run);
      var k :| 0 <= k < |parents| && parents[k] == run;
      assert rows[|alone| + k].runId == Some(run);
    }
  }

  // ---- The loops ----

  method CollapseMergedPrimariesForQueueStrip(entries: seq<Entry>) returns (rows: Option<seq<Entry>>)
    ensures rows.None? <==> !AllStamped(entries)
    ensures rows.Some? ==> rows.value == Strip(entries) && StripByFields(entries, rows.value)
  {
    if !AllStamped(entries) { return None; }
    StripIsByFields(entries);
    var es := Filter(NotDiscarded(), entries);
    var batches := Tabulate(BatchOf, es);
    var synths := RollUp(es, batches);
    var standalone := KeepStandalone(es, batches);
    rows := Some(standalone + synths);
  }

  method RollUp(ghost es: seq<Entry>, batches: seq<Bucket<Entry>>) returns (synths: seq<Entry>)
    requires Grouping.Tabulates(BatchOf, es, batches)
    ensures synths == Synths(es)
  {
    synths := [];
    for i := 0 to |batches|
      invariant synths == Synths(es)[..i]
    {
      assert batches[i] == BucketOf(BatchOf, es, StripParents(es)[i]) && batches[i].rows == RowsAt(BatchOf, es, i);
      synths := synths + [Synth(batches[i].key, batches[i].rows)];
    }
  }

  predicate HasBatch(batches: seq<Bucket<Entry>>, run: Option<string>) {
    run.Some? && exists i :: 0 <= i < |batches| && batches[i].key == run.value
  }

  lemma HasBatchMeans(es: seq<Entry>, batches: seq<Bucket<Entry>>, run: Option<string>)
    requires Grouping.Tabulates(BatchOf, es, batches)
    ensures HasBatch(batches, run) <==> run.Some? && run.value in StripParents(es)
  {
    forall i | 0 <= i < |batches|
      ensures batches[i].key == StripParents(es)[i]
    {
      assert batches[i] == BucketOf(BatchOf, es, StripParents(es)[i]);
    }
  }

  method KeepStandalone(es: seq<Entry>, batches: seq<Bucket<Entry>>) returns (standalone: seq<Entry>)
    requires Grouping.Tabulates(BatchOf, es, batches)
    ensures standalone == Filter(StandaloneIn(StripParents(es)), es)
  {
    standalone := [];
    ghost var keep := StandaloneIn(StripParents(es));
    for i := 0 to |es|
      invariant standalone == Filter(keep, es[..i])
    {
      var e := es[i];
      assert es[..i + 1] == es[..i] + [e];
      FilterSnoc(keep, es[..i], e);
      HasBatchMeans(es, batches, e.parentRunId);
      HasBatchMeans(es, batches, e.runId);
      if HasParent(e) && HasBatch(batches, e.parentRunId) { continue; }
      if HasBatch(batches, e.runId) { continue; }
      if ValidStamp(e) && IsStripApproved(e) { continue; }
      standalone := standalone + [e];
    }
    assert es[..|es|] == es;
  }
}
