/** The compactor itself, statement by statement, against an adversary that runs between its
    durable steps: live writers, deletions and crashes. */
module Compaction {
  import opened Common
  import opened Lines
  import opened CompactionSpec
  import opened CompactionSafety
  import JsonlRecovery

  datatype Error =
    | Crashed
    | JournalInvalid
    | JournalPathsInvalid
    | RecoveryArchiveMismatch
    | RecoveryPendingMismatch
    | RecoveryPendingMissing
    | SourceChanged
    | GenerationMismatch
    | SourceMissing
    | LineRefused(index: nat)
    | ArchiveHashMismatch

  datatype Outcome = Done | Failed(error: Error) {
    predicate IsFailure() { Failed? }
    function PropagateFailure(): Outcome
      requires Failed?
    {
      this
    }
  }

  /** What may happen before the compactor's next durable step. */
  datatype Event = Other(m: Move) | Turn | Crash

  /** How the disk may differ after the others had their turn; `lock` is the source held by the compactor. */
  ghost predicate OthersOnly(before: Disk, after: Disk, lock: Option<Path>) {
    && after.journal == before.journal && after.generations == before.generations && after.retired == before.retired
    && before.deleted <= after.deleted
    && (forall q: Path :: q.Archive? || (q.Source? && lock == Some(q)) ==>
          (q in after.files <==> q in before.files) && after.Content(q) == before.Content(q))
    && (forall q: Path :: q.Source? ==> (q in before.files ==> q in after.files) && before.Ledger(q) <= after.Ledger(q))
    && (Pending in after.files <==> Pending in before.files) && after.Content(Pending) == before.Content(Pending)
  }

  /** `lines.join("\n")`; the caller adds the final newline. */
  function JoinKept(kept: seq<bytes>): (b: bytes)
    requires kept != []
    ensures b + [NL] == Join(kept)
    decreases |kept|
  {
    if |kept| == 1 then
      assert kept[1..] == [];
      kept[0]
    else kept[0] + [NL] + JoinKept(kept[1..])
  }

  function Terminated(kept: seq<bytes>): (b: bytes)
    ensures b == Join(kept)
  {
    if |kept| > 0 then JoinKept(kept) + [NL] else []
  }

  /** One move of another process looks like the others having had a turn. */
  lemma {:induction false} OtherMove(parse: Parser, d: Disk, m: Move, lock: Option<Path>)
    requires Enabled(parse, d, m) && Allowed(d, m, lock)
    ensures OthersOnly(d, Apply(parse, d, m), lock)
  {
    var d' := Apply(parse, d, m);
    forall q: Path
      ensures d.Ledger(q) <= d'.Ledger(q)
    {
      LedgerStep(parse, d, m, q);
    }
  }

  lemma {:induction false} OthersTwice(a: Disk, b: Disk, c: Disk, lock: Option<Path>)
    requires OthersOnly(a, b, lock) && OthersOnly(b, c, lock)
    ensures OthersOnly(a, c, lock)
  {
    forall q: Path | q.Archive? || (q.Source? && lock == Some(q))
      ensures (q in c.files <==> q in a.files) && c.Content(q) == a.Content(q)
    {
      assert b.Content(q) == a.Content(q);
    }
    forall q: Path | q.Source?
      ensures (q in a.files ==> q in c.files) && a.Ledger(q) <= c.Ledger(q)
    {
      assert a.Ledger(q) <= b.Ledger(q);
    }
  }

  /** What the others may do while the compactor holds `lock`. */
  predicate Allowed(d: Disk, m: Move, lock: Option<Path>) {
    match m
    case Write(p, content) => p.Source? && lock != Some(p) && Complete(d.Content(p)) <= content
    case Delete(_) => true
    case _ => false
  }

  /** The others delete at any time, append to any source that is not locked, and may replace a torn tail there; that is
      all. */
  lemma OthersAreFree(parse: Parser, d: Disk, p: Path, more: bytes, keys: set<string>, lock: Option<Path>)
    ensures Allowed(d, Delete(keys), lock) && Enabled(parse, d, Delete(keys))
    ensures p.Source? && lock != Some(p) ==>
      && Allowed(d, Write(p, d.Content(p) + more), lock) && Enabled(parse, d, Write(p, d.Content(p) + more))
      && Allowed(d, Write(p, Complete(d.Content(p)) + more), lock)
      && Enabled(parse, d, Write(p, Complete(d.Content(p)) + more))
    ensures lock == Some(p) ==> !Allowed(d, Write(p, more), lock)
    ensures forall m :: Allowed(d, m, lock) ==> m.Write? || m.Delete?
  {
  }

  /** `j` is the open journal and its archive is in place. */
  predicate InHand(d: Disk, j: Journal) {
    d.journal == Readable(j) && ValidPaths(j) && ArchiveMatches(d, j)
  }

  predicate CountsAsReplaced(d: Disk, j: Journal) {
    && j.sourcePath in d.files
    && (|| d.files[j.sourcePath] == j.compacted.content
        || AlreadyReplaced(d.files[j.sourcePath], j.original.content, j.compacted.content))
  }

  /** What recovery leaves in the source: its bytes where it counts as replaced already, else the compacted ones. */
  function SourceAfter(d: Disk, j: Journal): bytes {
    var p := j.sourcePath;
    if p in d.files && AlreadyReplaced(d.files[p], j.original.content, j.compacted.content) then d.files[p]
    else j.compacted.content
  }

  /** While the source is locked, the others touch neither it nor the journal nor its archive. */
  lemma {:induction false} OthersSpareLocked(before: Disk, after: Disk, j: Journal)
    requires OthersOnly(before, after, Some(j.sourcePath)) && InHand(before, j)
    ensures InHand(after, j)
    ensures j.sourcePath in after.files <==> j.sourcePath in before.files
    ensures j.sourcePath in after.files ==> after.files[j.sourcePath] == before.files[j.sourcePath]
    ensures CountsAsReplaced(before, j) ==> CountsAsReplaced(after, j)
  {
    assert after.Content(j.sourcePath) == before.Content(j.sourcePath);
    assert after.Content(j.archivePath) == before.Content(j.archivePath);
  }

  /** The compactor's own steps so far left the locked source, the journal and the generations alone. */
  ghost predicate OthersSpare(before: Disk, after: Disk, p: Path) {
    && after.journal == before.journal && after.generations == before.generations
    && before.deleted <= after.deleted && before.Ledger(p) <= after.Ledger(p)
    && (p in after.files <==> p in before.files) && after.Content(p) == before.Content(p)
    && (forall a: Path :: a.Archive? && a in before.files ==> Holds(after, a, before.files[a]))
  }

  /** `j` is open and its source still holds what was archived. */
  predicate JournalOpened(d: Disk, j: Journal) { InHand(d, j) && Holds(d, j.sourcePath, j.original.content) }

  lemma {:induction false} OthersSpareSource(before: Disk, after: Disk, p: Path)
    requires p.Source? && OthersOnly(before, after, Some(p))
    ensures OthersSpare(before, after, p)
  {
    forall a: Path | a.Archive? && a in before.files
      ensures Holds(after, a, before.files[a])
    {
      assert after.Content(a) == before.Content(a);
    }
  }

  /** Straight after the replacement no line tombstoned in the set read is left. */
  lemma {:induction false} CleanAfterReplace(parse: Parser, d: Disk, p: Path, original: bytes, used: set<string>,
                                             mark: nat)
    requires p.Source? && mark <= |d.Ledger(p)|
    ensures d.Content(p) == CompactedBytes(parse, p, original, used)
      && (OnSource(d, p) ==> d.journal.j.compacted.content == CompactedBytes(parse, p, original, used))
      ==> CleanSince(parse, d, p, used, mark)
  {
    CompactedLines(parse, p, original, used);
    VisibleHasNoHidden(parse, p, LinesOf(original), used);
  }

  function RepairMove(parse: Parser, d: Disk, p: Path): Move
    requires p in d.files
  {
    Write(p, JsonlRecovery.Repaired((line: bytes) => parse(line) != NotJson, d.files[p]))
  }

  /** A last line that was cut off is terminated if it is JSON, and dropped if not. */
  predicate IsRepair(parse: Parser, c: bytes, repaired: bytes) {
    if Tail(c) == [] then repaired == c
    else repaired == if parse(Tail(c)) == NotJson then Complete(c) else c + [NL]
  }

  /** The source holds what is left of its repaired old bytes without the lines tombstoned. */
  ghost predicate IsCompactedFrom(parse: Parser, d: Disk, p: Path, old': bytes, used: set<string>)
    requires p.Source?
  {
    exists repaired :: IsRepair(parse, old', repaired) && Holds(d, p, CompactedBytes(parse, p, repaired, used))
  }

  lemma RepairEffect(parse: Parser, d: Disk, p: Path)
    requires p.Source? && p in d.files
    ensures IsRepair(parse, d.files[p], Apply(parse, d, RepairMove(parse, d, p)).files[p])
    ensures Enabled(parse, d, RepairMove(parse, d, p))
    ensures var d' := Apply(parse, d, RepairMove(parse, d, p));
      && d'.journal == d.journal && d'.generations == d.generations && d'.deleted == d.deleted
      && d.Ledger(p) <= d'.Ledger(p) && p in d'.files && IsComplete(d'.files[p])
  {
    CompleteTail(d.files[p]);
    JsonlRecovery.RepairedIsComplete((line: bytes) => parse(line) != NotJson, d.files[p]);
  }

  class Tracker {
    const parse: Parser
    var disk: Disk
    var lock: Option<Path>
    var script: seq<Event>
    ghost const start: Disk
    ghost var trail: seq<Move>

    /** Every durable effect so far is a legal move, whatever state the tracker started in. */
    ghost predicate Traced()
      reads this
    {
      Legal(parse, start, trail) && Run(parse, start, trail) == disk
    }

    /** Open a tracker directory as a previous process, or a crash, left it. */
    constructor (parse: Parser, left: Disk, script: seq<Event>)
      ensures Traced() && disk == left && start == left && trail == [] && lock == None
      ensures this.parse == parse && this.script == script
    {
      this.parse, this.disk, this.script := parse, left, script;
      this.start, this.trail, this.lock := left, [], None;
    }

    /** One durable effect. */
    method Perform(m: Move)
      requires Traced() && Enabled(parse, disk, m)
      modifies this
      ensures Traced() && disk == Apply(parse, old(disk), m) && trail == old(trail) + [m]
      ensures lock == old(lock) && script == old(script)
    {
      RunConcat(parse, start, trail, [m]);
      disk := Apply(parse, disk, m);
      trail := trail + [m];
    }

    /** Everything other processes do before the compactor's next step; a crash may take that step's place. */
    method Pause() returns (o: Outcome)
      requires Traced()
      modifies this
      ensures Traced() && lock == old(lock) && old(trail) <= trail
      ensures OthersOnly(old(disk), disk, lock)
      ensures o.Failed? ==> o.error == Crashed
      ensures old(script) == [] ==> o.Done? && disk == old(disk) && trail == old(trail) && script == []
    {
      ghost var before := disk;
      while |script| > 0 && script[0].Other?
        invariant Traced() && lock == old(lock) && old(trail) <= trail
        invariant OthersOnly(before, disk, lock)
        invariant old(script) == [] ==> disk == before && trail == old(trail) && script == []
        decreases |script|
      {
        var m := script[0].m;
        script := script[1..];
        if Allowed(disk, m, lock) {
          OtherMove(parse, disk, m, lock);
          OthersTwice(before, disk, Apply(parse, disk, m), lock);
          Perform(m);
        }
      }
      o := Done;
      if |script| > 0 {
        if script[0].Crash? {
          o := Failed(Crashed);
        }
        script := script[1..];
      }
    }

    /** Resume an interrupted replacement. Works on whatever disk.journal it finds. */
    method FinishJournal() returns (o: Outcome)
      requires Traced() && lock == None
      modifies this
      ensures Traced() && lock == None && old(trail) <= trail
      ensures o.Done? ==> disk.journal.NoJournal?
      ensures o.Done? && old(disk).journal.Readable? ==>
        disk.Generation(old(disk).journal.j.sourcePath) == old(disk).journal.j.generation
      ensures o.Done? && old(disk).journal.Readable? ==> Pending !in disk.files
      ensures old(disk).journal.NoJournal? ==> o.Done? && trail == old(trail)
      ensures old(script) == [] ==> (o.Done? <==> Recoverable(old(disk)))
      ensures old(script) == [] && o.Done? && old(disk).journal.Readable? ==>
        Holds(disk, old(disk).journal.j.sourcePath, SourceAfter(old(disk), old(disk).journal.j))
    {
      if disk.journal.NoJournal? {
        return Done;
      }
      if disk.journal.Unreadable? || disk.journal.j.generation < 2 {
        return Failed(JournalInvalid);
      }
      var j := disk.journal.j;
      if !ValidPaths(j) {
        return Failed(JournalPathsInvalid);
      }
      if j.archivePath !in disk.files || Sha256(disk.files[j.archivePath]) != j.original {
        return Failed(RecoveryArchiveMismatch);
      }
      var archived := disk.files[j.archivePath];
      var pending: bytes;
      if Pending in disk.files {
        pending := disk.files[Pending];
        if Sha256(pending) != j.compacted {
          return Failed(RecoveryPendingMismatch);
        }
      } else {
        if j.phase != Replaced || j.sourcePath !in disk.files || Sha256(disk.files[j.sourcePath]) != j.compacted {
          return Failed(RecoveryPendingMissing);
        }
        pending := disk.files[j.sourcePath];
      }
      o := ResumeReplacement(j, archived, pending);
    }

    /** Recovery once the journal, its archive and the compacted bytes are in hand. */
    method ResumeReplacement(j: Journal, archived: bytes, pending: bytes) returns (o: Outcome)
      requires Traced() && lock == None && InHand(disk, j)
      requires j.original == Sha256(archived) && j.compacted == Sha256(pending)
      modifies this
      ensures Traced() && lock == None && old(trail) <= trail
      ensures o.Done? ==>
        disk.journal.NoJournal? && disk.Generation(j.sourcePath) == j.generation && Pending !in disk.files
      ensures old(script) == [] ==>
        (o.Done? <==>
          && (j.sourcePath in old(disk).files ==> Undisturbed(old(disk), j))
          && j.generation - 1 <= old(disk).Generation(j.sourcePath) <= j.generation)
      ensures old(script) == [] && o.Done? ==> Holds(disk, j.sourcePath, SourceAfter(old(disk), j))
    {
      label Before:
      :- Pause();
      assert disk.Content(j.archivePath) == old@Before(disk).Content(j.archivePath);
      lock := Some(j.sourcePath);
      o := ReplaceAndBump(j, archived, pending);
      lock := None;
      if o.Failed? {
        return;
      }
      o := RetireJournal(j);
    }

    /** Unlink the journal, then the pending file. */
    method RetireJournal(j: Journal) returns (o: Outcome)
      requires Traced() && lock == None && disk.journal == Readable(j) && ValidPaths(j)
      requires disk.Generation(j.sourcePath) == j.generation
      modifies this
      ensures Traced() && lock == None && old(trail) <= trail
      ensures disk.generations == old(disk).generations
      ensures o.Done? ==> disk.journal.NoJournal? && Pending !in disk.files
      ensures !disk.journal.NoJournal? ==> (Pending in disk.files <==> Pending in old(disk).files)
      ensures old(script) == [] ==>
        o.Done? && trail == old(trail) + [Retire, DropPending] && disk.files == old(disk).files - {Pending}
    {
      o := Done;
      :- Pause();
      Perform(Retire);
      :- Pause();
      Perform(DropPending);
    }

    /** The part of recovery that runs under the source's append lock. */
    method ReplaceAndBump(j: Journal, archived: bytes, pending: bytes) returns (o: Outcome)
      requires Traced() && lock == Some(j.sourcePath) && InHand(disk, j)
      requires j.original == Sha256(archived) && j.compacted == Sha256(pending)
      modifies this
      ensures Traced() && lock == old(lock) && old(trail) <= trail && disk.journal == old(disk).journal
      ensures o.Done? ==> disk.Generation(j.sourcePath) == j.generation
      ensures old(script) == [] ==>
        script == [] && (o.Done? <==>
          && (j.sourcePath in old(disk).files ==> Undisturbed(old(disk), j))
          && j.generation - 1 <= old(disk).Generation(j.sourcePath) <= j.generation)
      ensures o.Done? ==> Holds(disk, j.sourcePath, SourceAfter(old(disk), j))
      ensures o.Done? && j.sourcePath in old(disk).files ==> Undisturbed(old(disk), j)
    {
      o := Done;
      var alreadyReplaced := j.sourcePath in disk.files && AlreadyReplaced(disk.files[j.sourcePath], archived, pending);
      if !alreadyReplaced {
        :- ReplaceUnchanged(j);
      }
      o := BumpGeneration(j);
    }

    /** Put the compacted bytes into a source that still holds the archived ones, or that has gone. */
    method ReplaceUnchanged(j: Journal) returns (o: Outcome)
      requires Traced() && lock == Some(j.sourcePath) && InHand(disk, j)
      modifies this
      ensures Traced() && lock == old(lock) && old(trail) <= trail && disk.journal == old(disk).journal
      ensures o.Done? ==> InHand(disk, j) && Holds(disk, j.sourcePath, j.compacted.content)
      ensures o.Done? && j.sourcePath in old(disk).files ==> Sha256(old(disk).files[j.sourcePath]) == j.original
      ensures old(script) == [] ==>
        && script == [] && disk.generations == old(disk).generations
        && (o.Done? <==> (j.sourcePath in old(disk).files ==> Sha256(old(disk).files[j.sourcePath]) == j.original))
    {
      o := Done;
      if j.sourcePath in disk.files && Sha256(disk.files[j.sourcePath]) != j.original {
        return Failed(SourceChanged);
      }
      :- Pause();
      OthersSpareLocked(old(disk), disk, j);
      Perform(Replace);
    }

    /** The generation transaction of recovery. */
    method BumpGeneration(j: Journal) returns (o: Outcome)
      requires Traced() && lock == Some(j.sourcePath) && InHand(disk, j) && CountsAsReplaced(disk, j)
      modifies this
      ensures Traced() && lock == old(lock) && old(trail) <= trail && disk.journal == old(disk).journal
      ensures o.Done? ==> disk.Generation(j.sourcePath) == j.generation
      ensures old(script) == [] ==>
        script == [] && (o.Done? <==> j.generation - 1 <= old(disk).Generation(j.sourcePath) <= j.generation)
      ensures o.Done? ==> Holds(disk, j.sourcePath, old(disk).files[j.sourcePath])
    {
      o := Done;
      :- Pause();
      OthersSpareLocked(old(disk), disk, j);
      var current := disk.Generation(j.sourcePath);
      if current != j.generation && current != j.generation - 1 {
        return Failed(GenerationMismatch);
      }
      if current == j.generation - 1 {
        Perform(Bump);
      }
    }

    /** The rows of a file that are not tombstoned, refusing any line without a key. */
    method CompactedRowsForFile(p: Path, raw: bytes, used: set<string>) returns (o: Outcome, compacted: bytes)
      requires p.Source?
      ensures o.Done? <==> AllKeyed(parse, p, LinesOf(raw))
      ensures o.Done? ==> compacted == CompactedBytes(parse, p, raw, used)
      ensures o.Failed? ==> o.error.LineRefused?
    {
      var segments := SegmentsOf(raw);
      o, compacted := KeptRows(p, segments, used);
    }

    /** The segments of everything up to the last newline. */
    method SegmentsOf(raw: bytes) returns (segments: seq<bytes>)
      ensures NonEmpty(segments) == LinesOf(raw)
    {
      segments := Split(raw[..JsonlRecovery.LastNewlineIndex(raw) + 1]);
      CompleteSegments(raw);
    }

    /** The rows' own loop, over the segments of the complete part. */
    method KeptRows(p: Path, segments: seq<bytes>, used: set<string>) returns (o: Outcome, compacted: bytes)
      requires p.Source?
      ensures o.Done? <==> AllKeyed(parse, p, NonEmpty(segments))
      ensures o.Done? ==> compacted == Join(Visible(parse, p, NonEmpty(segments), used))
      ensures o.Failed? ==> o.error.LineRefused?
    {
      o, compacted := Done, [];
      var kept: seq<bytes> := [];
      for i := 0 to |segments|
        invariant o.Done? && AllKeyed(parse, p, NonEmpty(segments[..i]))
        invariant kept == Visible(parse, p, NonEmpty(segments[..i]), used)
      {
        var line := segments[i];
        KeptStep(parse, p, segments, i, used);
        if line != [] {
          var key := KeyOf(parse, p, line);
          if key.None? {
            RefusedLine(parse, p, segments, i);
            o := Failed(LineRefused(i + 1));
            return;
          }
          if key.value !in used {
            kept := kept + [line];
          }
        }
      }
      assert segments[..|segments|] == segments;
      compacted := Terminated(kept);
    }

    /** Compact one source; `changed` tells whether its bytes had to change. */
    method CompactFile(p: Path, used: set<string>) returns (o: Outcome, changed: bool)
      requires Traced() && lock == None && disk.journal.NoJournal? && p.Source? && used <= disk.deleted
      modifies this
      ensures Traced() && lock == None && old(trail) <= trail
      ensures o.Done? ==> disk.journal.NoJournal?
      ensures o.Done? ==> CleanSince(parse, disk, p, used, |old(disk).Ledger(p)|)
      ensures o.Done? ==> disk.Generation(p) == old(disk).Generation(p) + (if changed then 1 else 0)
      ensures o.Done? && old(script) == [] ==>
        p in old(disk).files && IsCompactedFrom(parse, disk, p, old(disk).files[p], used)
    {
      ghost var mark := |disk.Ledger(p)|;
      lock := Some(p);
      o, changed := CompactLocked(p, used);
      lock := None;
      if o.Failed? || !changed {
        return;
      }
      ghost var before := trail;
      o := FinishJournal();
      LongerTrailClean(parse, start, before, trail, p, used, mark);
    }

    /** The part of compaction that runs under the source's append lock. */
    method CompactLocked(p: Path, used: set<string>) returns (o: Outcome, changed: bool)
      requires Traced() && lock == Some(p) && disk.journal.NoJournal? && p.Source? && used <= disk.deleted
      modifies this
      ensures Traced() && lock == old(lock) && old(trail) <= trail
      ensures o.Done? && !changed ==> disk.journal.NoJournal? && disk.Generation(p) == old(disk).Generation(p)
      ensures o.Done? && changed ==>
        disk.journal.Readable? && disk.journal.j.sourcePath == p
          && disk.journal.j.generation == old(disk).Generation(p) + 1
          && Holds(disk, p, disk.journal.j.compacted.content)
      ensures o.Done? ==> p in old(disk).files && IsCompactedFrom(parse, disk, p, old(disk).files[p], used)
      ensures old(script) == [] ==> script == []
      ensures o.Done? ==> CleanSince(parse, disk, p, used, |old(disk).Ledger(p)|)
    {
      changed := false;
      ghost var before := disk;
      o := RepairSource(p);
      if o.Failed? {
        return;
      }
      var original := disk.files[p];
      var compacted: bytes;
      o, compacted := CompactedRowsForFile(p, original, used);
      if o.Failed? {
        return;
      }
      if original == compacted {
        CleanAfterReplace(parse, disk, p, original, used, |before.Ledger(p)|);
        return;
      }
      ghost var mark := |disk.Ledger(p)|;
      o := JournalledReplace(p, used);
      changed := o.Done?;
      if changed {
        CleanEarlier(parse, disk, p, used, |before.Ledger(p)|, mark);
      }
    }

    /** Drop or terminate a torn tail before reading. */
    method RepairSource(p: Path) returns (o: Outcome)
      requires Traced() && lock == Some(p) && p.Source?
      modifies this
      ensures Traced() && lock == old(lock) && old(trail) <= trail
      ensures disk.journal == old(disk).journal && disk.generations == old(disk).generations
      ensures old(disk).deleted <= disk.deleted && old(disk).Ledger(p) <= disk.Ledger(p)
      ensures o.Done? ==> p in disk.files && IsComplete(disk.files[p])
      ensures o.Done? ==> p in old(disk).files && IsRepair(parse, old(disk).files[p], disk.files[p])
      ensures old(script) == [] ==> script == []
    {
      label Before:
      :- Pause();
      OthersSpareSource(old@Before(disk), disk, p);
      if p !in disk.files {
        return Failed(SourceMissing);
      }
      RepairEffect(parse, disk, p);
      Perform(RepairMove(parse, disk, p));
      o := Done;
    }

    /** Archive, pending file, journal, replacement, journal again: the order recovery relies on. */
    method JournalledReplace(p: Path, used: set<string>) returns (o: Outcome)
      requires Traced() && lock == Some(p) && p.Source? && disk.journal.NoJournal? && p in disk.files
      requires used <= disk.deleted && IsComplete(disk.files[p]) && AllKeyed(parse, p, LinesOf(disk.files[p]))
      requires CompactedBytes(parse, p, disk.files[p], used) != disk.files[p]
      modifies this
      ensures Traced() && lock == old(lock) && old(trail) <= trail
      ensures o.Done? ==> disk.journal == Readable(JournalFor(parse, old(disk), p, used).(phase := Replaced))
      ensures o.Done? ==> Holds(disk, p, CompactedBytes(parse, p, old(disk).files[p], used))
      ensures old(script) == [] ==> script == []
      ensures o.Done? ==> CleanSince(parse, disk, p, used, |old(disk).Ledger(p)|)
    {
      ghost var mark := |disk.Ledger(p)|;
      ghost var original := disk.files[p];
      :- OpenJournal(p, used);
      var j := disk.journal.j;
      :- ReplaceSource(j);
      :- MarkJournal(j);
      CleanAfterReplace(parse, disk, p, original, used, mark);
      o := Done;
    }

    /** Everything recovery will need, on disk before the source is touched. */
    method OpenJournal(p: Path, used: set<string>) returns (o: Outcome)
      requires Traced() && lock == Some(p) && p.Source? && disk.journal.NoJournal? && p in disk.files
      requires used <= disk.deleted && IsComplete(disk.files[p]) && AllKeyed(parse, p, LinesOf(disk.files[p]))
      requires CompactedBytes(parse, p, disk.files[p], used) != disk.files[p]
      modifies this
      ensures Traced() && lock == old(lock) && old(trail) <= trail
      ensures o.Done? ==> JournalOpened(disk, JournalFor(parse, old(disk), p, used))
      ensures old(script) == [] ==> script == []
      ensures o.Done? ==> disk.generations == old(disk).generations && old(disk).Ledger(p) <= disk.Ledger(p)
    {
      var original := disk.files[p];
      :- ArchiveOriginal(p, original);
      :- WritePending(p, CompactedBytes(parse, p, original, used));
      o := WriteJournal(p, used);
    }

    /** Archive the source under its current generation, or check that it is archived already. */
    method ArchiveOriginal(p: Path, original: bytes) returns (o: Outcome)
      requires Traced() && lock == Some(p) && p.Source? && disk.journal.NoJournal? && Holds(disk, p, original)
      modifies this
      ensures Traced() && lock == old(lock) && old(trail) <= trail
      ensures OthersSpare(old(disk), disk, p)
      ensures o.Done? ==> Holds(disk, ArchiveOf(p, disk.Generation(p)), original)
      ensures old(script) == [] ==> script == []
      ensures (ArchiveOf(p, old(disk).Generation(p)) in old(disk).files
        && old(disk).files[ArchiveOf(p, old(disk).Generation(p))] != original) ==> o.Failed?
    {
      var archive := ArchiveOf(p, disk.Generation(p));
      label Before:
      :- Pause();
      OthersSpareSource(old@Before(disk), disk, p);
      assert disk.Content(archive) == old@Before(disk).Content(archive);
      if archive in disk.files {
        if Sha256(disk.files[archive]) != Sha256(original) {
          return Failed(ArchiveHashMismatch);
        }
      } else {
        Perform(KeepArchive(p));
      }
      o := Done;
    }

    /** Whatever was started from a fresh tracker is sound at every point, crashed or not. */
    lemma AlwaysSound()
      requires Traced() && Fresh(start)
      ensures AllSound(parse, disk)
    {
      FreshIsSound(parse, start);
      RunKeepsSound(parse, start, trail);
    }

    /** Write the pending file. */
    method WritePending(p: Path, content: bytes) returns (o: Outcome)
      requires Traced() && lock == Some(p) && p.Source? && disk.journal.NoJournal?
      modifies this
      ensures Traced() && lock == old(lock) && old(trail) <= trail
      ensures OthersSpare(old(disk), disk, p)
      ensures o.Done? ==> Holds(disk, Pending, content)
      ensures old(script) == [] ==> script == []
    {
      label Before:
      :- Pause();
      OthersSpareSource(old@Before(disk), disk, p);
      Perform(Stage(content));
      o := Done;
    }

    /** Write the journal in phase "prepared". */
    method WriteJournal(p: Path, used: set<string>) returns (o: Outcome)
      requires Traced() && lock == Some(p) && p.Source? && disk.journal.NoJournal? && p in disk.files
      requires used <= disk.deleted && IsComplete(disk.files[p]) && AllKeyed(parse, p, LinesOf(disk.files[p]))
      requires CompactedBytes(parse, p, disk.files[p], used) != disk.files[p]
      requires Holds(disk, ArchiveOf(p, disk.Generation(p)), disk.files[p])
      requires Holds(disk, Pending, CompactedBytes(parse, p, disk.files[p], used))
      modifies this
      ensures Traced() && lock == old(lock) && old(trail) <= trail
      ensures o.Done? ==> JournalOpened(disk, JournalFor(parse, old(disk), p, used))
      ensures old(script) == [] ==> script == []
      ensures o.Done? ==> disk.generations == old(disk).generations && old(disk).Ledger(p) <= disk.Ledger(p)
    {
      label Before:
      :- Pause();
      OthersSpareSource(old@Before(disk), disk, p);
      assert Holds(disk, ArchiveOf(p, disk.Generation(p)), disk.files[p]);
      assert disk.Content(Pending) == old@Before(disk).Content(Pending);
      Perform(Prepare(p, used));
      o := Done;
    }

    /** Put the compacted content in the source's place. */
    method ReplaceSource(j: Journal) returns (o: Outcome)
      requires Traced() && lock == Some(j.sourcePath) && JournalOpened(disk, j)
      modifies this
      ensures old(script) == [] ==> script == []
      ensures Traced() && lock == old(lock) && old(trail) <= trail
      ensures o.Done? ==> InHand(disk, j) && Holds(disk, j.sourcePath, j.compacted.content)
      ensures o.Done? ==>
        disk.generations == old(disk).generations && old(disk).Ledger(j.sourcePath) <= disk.Ledger(j.sourcePath)
    {
      label Before:
      :- Pause();
      OthersSpareLocked(old@Before(disk), disk, j);
      Perform(Replace);
      o := Done;
    }

    /** Write the journal in phase "replaced". */
    method MarkJournal(j: Journal) returns (o: Outcome)
      requires Traced() && lock == Some(j.sourcePath) && InHand(disk, j)
        && Holds(disk, j.sourcePath, j.compacted.content)
      modifies this
      ensures Traced() && lock == old(lock) && old(trail) <= trail
      ensures o.Done? ==>
        disk.journal == Readable(j.(phase := Replaced)) && Holds(disk, j.sourcePath, j.compacted.content)
      ensures old(script) == [] ==> script == []
      ensures o.Done? ==>
        disk.generations == old(disk).generations && old(disk).Ledger(j.sourcePath) <= disk.Ledger(j.sourcePath)
    {
      label Before:
      :- Pause();
      OthersSpareLocked(old@Before(disk), disk, j);
      Perform(MarkReplaced);
      o := Done;
    }

    /** The listing of the rows and logs directories. */
    method ListSources() returns (names: seq<Path>)
      ensures forall q :: q in names <==> q in disk.files && q.Source?
    {
      names := [];
      var left := set q | q in disk.files.Keys && q.Source?;
      while left != {}
        invariant forall q :: q in disk.files && q.Source? <==> q in names || q in left
        decreases |left|
      {
        var q :| q in left;
        names := names + [q];
        left := left - {q};
      }
    }

    /** The next file of the list; those already compacted stay clean. */
    method CompactNext(ghost read: Disk, names: seq<Path>, i: nat, used: set<string>)
      returns (o: Outcome, changed: bool)
      requires Traced() && lock == None && disk.journal.NoJournal? && i < |names|
      requires CleanSoFar(parse, disk, read, names, i, used)
      modifies this
      ensures Traced() && lock == None && old(trail) <= trail
      ensures o.Done? ==> disk.journal.NoJournal? && CleanSoFar(parse, disk, read, names, i + 1, used)
    {
      ghost var before, soFar := disk, trail;
      o, changed := CompactFile(names[i], used);
      ghost var added := trail[|soFar|..];
      assert trail == soFar + added;
      RunConcat(parse, start, soFar, added);
      if o.Done? {
        NextFileClean(parse, before, added, read, names, i, used);
      }
    }

    /** Finish any interrupted compaction, then compact every source. On success nothing that was tombstoned
        when the manifests were read is left, except what was appended since; `readAt` marks that moment. */
    method CompactTracker() returns (o: Outcome, filesCompacted: nat, ghost readAt: nat)
      requires Traced() && lock == None
      modifies this
      ensures Traced() && lock == None && old(trail) <= trail
      ensures |old(trail)| <= readAt <= |trail|
      ensures Legal(parse, start, trail[..readAt])
      ensures o.Done? ==>
        var read := Run(parse, start, trail[..readAt]);
        forall p: Path :: p.Source? && p in read.files ==>
          CleanSince(parse, disk, p, read.deleted, |read.Ledger(p)|)
    {
      filesCompacted := 0;
      o := FinishJournal();
      readAt := |trail|;
      assert trail[..readAt] == trail;
      if o.Failed? {
        return;
      }
      ghost var read, before := disk, trail;
      var used := disk.deleted;
      var names := ListSources();
      for i := 0 to |names|
        invariant Traced() && lock == None && disk.journal.NoJournal? && before <= trail
        invariant CleanSoFar(parse, disk, read, names, i, used)
      {
        var changed: bool;
        o, changed := CompactNext(read, names, i, used);
        if o.Failed? {
          assert trail[..readAt] == before;
          return;
        }
        if changed {
          filesCompacted := filesCompacted + 1;
        }
      }
      assert names[..|names|] == names;
      assert trail[..readAt] == before;
      o := Done;
    }
  }

  lemma {:induction false} NonEmptyDropsEmptyEnd(segments: seq<bytes>)
    requires segments != [] && Last(segments) == []
    ensures NonEmpty(segments) == NonEmpty(DropLast(segments))
  {
    var last: seq<bytes> := [[]];
    assert segments == DropLast(segments) + last;
    NonEmptyAppend(DropLast(segments), last);
    assert last[1..] == [];
  }

  /** Split of the complete part, which the compactor loops over, against the file's lines. */
  lemma {:induction false} CompleteSegments(raw: bytes)
    ensures raw[..JsonlRecovery.LastNewlineIndex(raw) + 1] == Complete(raw)
    ensures NonEmpty(Split(Complete(raw))) == LinesOf(raw)
  {
    JsonlRecovery.CompleteEndsAt(raw, JsonlRecovery.LastNewlineIndex(raw) + 1);
    CompleteTail(raw);
    NonEmptyDropsEmptyEnd(Split(Complete(raw)));
  }

  lemma LongerTrailClean(parse: Parser, start: Disk, before: seq<Move>, trail: seq<Move>, p: Path,
                         used: set<string>, mark: nat)
    requires p.Source? && before <= trail && Legal(parse, start, before) && Legal(parse, start, trail)
    requires CleanSince(parse, Run(parse, start, before), p, used, mark)
    ensures CleanSince(parse, Run(parse, start, trail), p, used, mark)
  {
    var rest := trail[|before|..];
    assert trail == before + rest;
    RunConcat(parse, start, before, rest);
    RunKeepsClean(parse, Run(parse, start, before), rest, p, used, mark);
  }

  /** One turn of the compaction loop. */
  lemma {:induction false} KeptStep(parse: Parser, p: Path, segments: seq<bytes>, i: nat, used: set<string>)
    requires p.Source? && i < |segments|
    ensures NonEmpty(segments[..i + 1]) == NonEmpty(segments[..i]) + (if segments[i] == [] then [] else [segments[i]])
    ensures Visible(parse, p, NonEmpty(segments[..i + 1]), used)
         == Visible(parse, p, NonEmpty(segments[..i]), used)
            + (if segments[i] == [] || Tombstoned(parse, p, segments[i], used) then [] else [segments[i]])
    ensures AllKeyed(parse, p, NonEmpty(segments[..i])) && (segments[i] != [] ==> KeyOf(parse, p, segments[i]).Some?)
        ==> AllKeyed(parse, p, NonEmpty(segments[..i + 1]))
  {
    var line := segments[i];
    assert segments[..i + 1] == segments[..i] + [line];
    NonEmptyAppend(segments[..i], [line]);
    var one: seq<bytes> := [line];
    assert one[1..] == [];
    if line == [] {
      assert NonEmpty(segments[..i + 1]) == NonEmpty(segments[..i]);
    } else {
      VisibleAppend(parse, p, NonEmpty(segments[..i]), one, used);
      assert Visible(parse, p, one, used) == if Tombstoned(parse, p, line, used) then [] else one;
    }
  }

  lemma {:induction false} RefusedLine(parse: Parser, p: Path, segments: seq<bytes>, i: nat)
    requires p.Source? && i < |segments| && segments[i] != [] && KeyOf(parse, p, segments[i]).None?
    ensures !AllKeyed(parse, p, NonEmpty(segments))
  {
    assert segments == segments[..i] + ([segments[i]] + segments[i + 1..]);
    NonEmptyAppend(segments[..i], [segments[i]] + segments[i + 1..]);
    NonEmptyAppend([segments[i]], segments[i + 1..]);
    var n := |NonEmpty(segments[..i])|;
    assert NonEmpty(segments)[n] == segments[i];
  }

  lemma {:induction false} RunGrowsLedger(parse: Parser, d: Disk, moves: seq<Move>)
    requires Legal(parse, d, moves)
    ensures forall p: Path :: d.Ledger(p) <= Run(parse, d, moves).Ledger(p)
    ensures d.deleted <= Run(parse, d, moves).deleted
    decreases |moves|
  {
    if moves != [] {
      var d' := Apply(parse, d, moves[0]);
      RunGrowsLedger(parse, d', moves[1..]);
      forall p: Path
        ensures d.Ledger(p) <= d'.Ledger(p)
      {
        LedgerStep(parse, d, moves[0], p);
      }
    }
  }

  /** The first files of the list are clean of what was tombstoned when the set was read. */
  ghost predicate CleanSoFar(parse: Parser, d: Disk, read: Disk, names: seq<Path>, n: nat, used: set<string>)
    requires n <= |names|
  {
    && (forall p :: p in names ==> p.Source? && read.Ledger(p) <= d.Ledger(p))
    && used <= d.deleted
    && (forall p: Path :: p in names[..n] ==> p.Source? && CleanSince(parse, d, p, used, |read.Ledger(p)|))
  }

  lemma NextFileClean(parse: Parser, d: Disk, added: seq<Move>, read: Disk, names: seq<Path>, n: nat, used: set<string>)
    requires n < |names| && Legal(parse, d, added) && CleanSoFar(parse, d, read, names, n, used)
    requires CleanSince(parse, Run(parse, d, added), names[n], used, |d.Ledger(names[n])|)
    ensures CleanSoFar(parse, Run(parse, d, added), read, names, n + 1, used)
  {
    FirstFilesClean(parse, d, added, read, names, n, used);
    LastFileClean(parse, d, added, read, names[n], used);
    OneFileMore(parse, Run(parse, d, added), read, names, n, used);
  }

  lemma FirstFilesClean(parse: Parser, d: Disk, added: seq<Move>, read: Disk, names: seq<Path>, n: nat,
                        used: set<string>)
    requires n <= |names| && Legal(parse, d, added) && CleanSoFar(parse, d, read, names, n, used)
    ensures CleanSoFar(parse, Run(parse, d, added), read, names, n, used)
  {
    RunGrowsLedger(parse, d, added);
    forall p | p in names[..n]
      ensures p.Source? && CleanSince(parse, Run(parse, d, added), p, used, |read.Ledger(p)|)
    {
      RunKeepsClean(parse, d, added, p, used, |read.Ledger(p)|);
    }
  }

  lemma OneFileMore(parse: Parser, d: Disk, read: Disk, names: seq<Path>, n: nat, used: set<string>)
    requires n < |names| && CleanSoFar(parse, d, read, names, n, used)
    requires names[n].Source? && CleanSince(parse, d, names[n], used, |read.Ledger(names[n])|)
    ensures CleanSoFar(parse, d, read, names, n + 1, used)
  {
    assert names[..n + 1] == names[..n] + [names[n]];
  }

  lemma LastFileClean(parse: Parser, d: Disk, added: seq<Move>, read: Disk, p: Path, used: set<string>)
    requires p.Source? && Legal(parse, d, added) && read.Ledger(p) <= d.Ledger(p)
    requires CleanSince(parse, Run(parse, d, added), p, used, |d.Ledger(p)|)
    ensures CleanSince(parse, Run(parse, d, added), p, used, |read.Ledger(p)|)
  {
    CleanEarlier(parse, Run(parse, d, added), p, used, |read.Ledger(p)|, |d.Ledger(p)|);
  }

  lemma HiddenSuffix(parse: Parser, p: Path, a: seq<bytes>, b: seq<bytes>, used: set<string>)
    requires p.Source?
    ensures multiset(Hidden(parse, p, b, used)) <= multiset(Hidden(parse, p, a + b, used))
  {
    VisibleAppend(parse, p, a, b, used);
    var x, y := Hidden(parse, p, a, used), Hidden(parse, p, b, used);
    assert multiset(x + y) == multiset(x) + multiset(y);
  }

  /** A later mark is the stronger statement. */
  lemma {:induction false} CleanEarlier(parse: Parser, d: Disk, p: Path, used: set<string>, mark: nat, later: nat)
    requires p.Source? && mark <= later && CleanSince(parse, d, p, used, later)
    ensures CleanSince(parse, d, p, used, mark)
  {
    var tail, rest := d.Ledger(p)[mark..], d.Ledger(p)[later..];
    assert tail == tail[..later - mark] + rest;
    HiddenSuffix(parse, p, tail[..later - mark], rest, used);
  }

  // ---- A crash before a replacement that only cuts the end off ----

  const LOG := Source(Rows, "w", "d")
  const TWO_LINES: bytes := [49, NL, 50, NL]
  const ONE_LINE: bytes := [49, NL]
  const SECOND_KEY := RowKey("y")
  const EMPTY_DISK := Disk(map[], NoJournal, map[], {}, map[], map[])

  /** Two rows are written, the second is deleted, and the compactor gets as far as its journal. */
  const UNTIL_PREPARED: seq<Move> :=
    [Write(LOG, TWO_LINES), Delete({SECOND_KEY}), KeepArchive(LOG), Stage(ONE_LINE), Prepare(LOG, {SECOND_KEY})]

  function RowKey(item: string): string { "w" + "\0" + "d" + "\0" + item + "\0" + (item + "#1") }

  /** The rows have ids `x` and `y`. */
  predicate ReadsRows(parse: Parser) {
    parse([49]) == Fields(Some("x"), None, None) && parse([50]) == Fields(Some("y"), None, None)
  }

  lemma TwoLines()
    ensures LinesOf(TWO_LINES) == [[49], [50]] && IsComplete(TWO_LINES) && Complete([]) == []
  {
    var first: bytes, second: bytes := [49], [50];
    var lines: seq<bytes> := [first, second];
    assert lines[1..] == [second] && [second][1..] == [];
    assert Join([second]) == second + [NL] + Join([]) == [50, NL];
    assert Join(lines) == first + [NL] + Join([second]) == TWO_LINES;
    JoinLines(lines);
  }

  lemma OneIsKept(parse: Parser)
    requires ReadsRows(parse)
    ensures CompactedBytes(parse, LOG, TWO_LINES, {SECOND_KEY}) == ONE_LINE
    ensures AllKeyed(parse, LOG, LinesOf(TWO_LINES))
    ensures Hidden(parse, LOG, LinesOf(TWO_LINES), {SECOND_KEY}) == [[50]]
  {
    TwoLines();
    RowKeys(parse);
    var first: seq<bytes>, second: seq<bytes> := [[49]], [[50]];
    assert LinesOf(TWO_LINES) == first + second;
    VisibleAppend(parse, LOG, first, second, {SECOND_KEY});
    OneRow(parse, LOG, [49], {SECOND_KEY});
    OneRow(parse, LOG, [50], {SECOND_KEY});
    assert Join([[49]]) == [49] + [NL] + Join([]) == ONE_LINE;
  }

  lemma RowKeys(parse: Parser)
    requires ReadsRows(parse)
    ensures KeyOf(parse, LOG, [49]) == Some(RowKey("x")) && RowKey("x") != SECOND_KEY
    ensures KeyOf(parse, LOG, [50]) == Some(SECOND_KEY)
  {
    assert RowKey("x")[4] == 'x' && SECOND_KEY[4] == 'y';
  }

  lemma OneRow(parse: Parser, p: Path, line: bytes, used: set<string>)
    requires p.Source?
    ensures Visible(parse, p, [line], used) == if Tombstoned(parse, p, line, used) then [] else [line]
    ensures Hidden(parse, p, [line], used) == if Tombstoned(parse, p, line, used) then [line] else []
  {
    assert [line][1..] == [];
  }

  const LOG_ARCHIVE := Archive(1, Rows, "w", "d")

  /** What the crash leaves behind. */
  const LEFT := Disk(
    map[LOG := TWO_LINES, LOG_ARCHIVE := TWO_LINES, Pending := ONE_LINE],
    Readable(Journal(LOG, Pending, LOG_ARCHIVE, Sha256(TWO_LINES), Sha256(ONE_LINE), 2, Prepared)),
    map[], {SECOND_KEY}, map[LOG := [[49], [50]]], map[])

  lemma OneMove(parse: Parser, d: Disk, m: Move, rest: seq<Move>)
    requires Enabled(parse, d, m) && Legal(parse, Apply(parse, d, m), rest)
    ensures Legal(parse, d, [m] + rest) && Run(parse, d, [m] + rest) == Run(parse, Apply(parse, d, m), rest)
  {
    assert ([m] + rest)[1..] == rest;
  }

  const WRITTEN := EMPTY_DISK.(files := map[LOG := TWO_LINES], ledger := map[LOG := [[49], [50]]])
  const DELETED := WRITTEN.(deleted := {SECOND_KEY})
  const ARCHIVED := DELETED.(files := map[LOG := TWO_LINES, LOG_ARCHIVE := TWO_LINES])
  const STAGED := ARCHIVED.(files := map[LOG := TWO_LINES, LOG_ARCHIVE := TWO_LINES, Pending := ONE_LINE])

  lemma FirstMoves(parse: Parser)
    ensures Enabled(parse, EMPTY_DISK, Write(LOG, TWO_LINES))
      && Apply(parse, EMPTY_DISK, Write(LOG, TWO_LINES)) == WRITTEN
    ensures Apply(parse, WRITTEN, Delete({SECOND_KEY})) == DELETED
    ensures Enabled(parse, DELETED, KeepArchive(LOG)) && Apply(parse, DELETED, KeepArchive(LOG)) == ARCHIVED
    ensures Apply(parse, ARCHIVED, Stage(ONE_LINE)) == STAGED
  {
    TwoLines();
    assert TWO_LINES[|Complete([])|..] == TWO_LINES;
    assert EMPTY_DISK.Ledger(LOG) + [[49], [50]] == [[49], [50]];
  }

  lemma LastMove(parse: Parser)
    requires ReadsRows(parse)
    ensures Enabled(parse, STAGED, Prepare(LOG, {SECOND_KEY}))
      && Apply(parse, STAGED, Prepare(LOG, {SECOND_KEY})) == LEFT
  {
    TwoLines();
    OneIsKept(parse);
  }

  /** It is a crash point of a run on a fresh tracker. */
  lemma LeftByACrash(parse: Parser)
    requires ReadsRows(parse)
    ensures Fresh(EMPTY_DISK) && Legal(parse, EMPTY_DISK, UNTIL_PREPARED)
      && Run(parse, EMPTY_DISK, UNTIL_PREPARED) == LEFT
  {
    SplitNoNewline([]);
    FirstMoves(parse);
    LastMove(parse);
    var last := [Prepare(LOG, {SECOND_KEY})];
    OneMove(parse, STAGED, Prepare(LOG, {SECOND_KEY}), []);
    assert [Prepare(LOG, {SECOND_KEY})] + [] == last;
    OneMove(parse, ARCHIVED, Stage(ONE_LINE), last);
    var fourth := [Stage(ONE_LINE)] + last;
    OneMove(parse, DELETED, KeepArchive(LOG), fourth);
    OneMove(parse, WRITTEN, Delete({SECOND_KEY}), [KeepArchive(LOG)] + fourth);
    OneMove(parse, EMPTY_DISK, Write(LOG, TWO_LINES), [Delete({SECOND_KEY})] + ([KeepArchive(LOG)] + fourth));
    assert UNTIL_PREPARED == [Write(LOG, TWO_LINES)] + ([Delete({SECOND_KEY})] + ([KeepArchive(LOG)] + fourth));
  }

  /** Recovery takes the replacement for done, succeeds, and the deleted row is still in the source. */
  method TombstonedLineStays(parse: Parser) returns (o: Outcome, content: bytes)
    requires ReadsRows(parse)
    ensures o.Done? && content == TWO_LINES
    ensures Hidden(parse, LOG, LinesOf(content), LEFT.deleted) == [[50]]
  {
    OneIsKept(parse);
    var tracker := new Tracker(parse, LEFT, []);
    assert Recoverable(LEFT) && SourceAfter(LEFT, LEFT.journal.j) == TWO_LINES;
    o := tracker.FinishJournal();
    content := tracker.disk.Content(LOG);
  }
}
