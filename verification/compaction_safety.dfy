/** What no crash, no live writer and no re-run of recovery can break. */
module CompactionSafety {
  import opened Common
  import opened Lines
  import opened CompactionSpec

  /** A tracker no compaction has touched yet. */
  ghost predicate Fresh(d: Disk) {
    && d.journal.NoJournal?
    && (forall p: Path :: d.Generation(p) == 1 && d.Retired(p) == 0)
    && (forall p: Path :: p.Source? ==> d.Ledger(p) == LinesOf(d.Content(p)))
  }

  predicate OnSource(d: Disk, p: Path) { d.journal.Readable? && d.journal.j.sourcePath == p }

  /** Any journal on disk is one compaction wrote, and its two contents agree on what is visible. */
  ghost predicate JournalSound(parse: Parser, d: Disk) {
    && !d.journal.Unreadable?
    && (d.journal.Readable? ==>
        var j := d.journal.j;
        && ValidPaths(j) && j.sourcePath in d.files && ArchiveMatches(d, j)
        && Holds(d, Pending, j.compacted.content)
        && j.generation == d.Retired(j.sourcePath) + 2
        && j.original != j.compacted
        && Visible(parse, j.sourcePath, LinesOf(j.compacted.content), d.deleted)
        == Visible(parse, j.sourcePath, LinesOf(j.original.content), d.deleted))
  }

  /** No line that is not tombstoned was ever lost, duplicated or reordered. */
  ghost predicate VisibleIntact(parse: Parser, d: Disk, p: Path)
    requires p.Source?
  {
    Visible(parse, p, LinesOf(d.Content(p)), d.deleted) == Visible(parse, p, d.Ledger(p), d.deleted)
  }

  ghost predicate InArchive(d: Disk, p: Path, l: bytes)
    requires p.Source?
  {
    exists g: int :: ArchiveOf(p, g) in d.files && l in LinesOf(d.files[ArchiveOf(p, g)])
  }

  /** Every line ever completed, tombstoned or not, is still in the source or in an archive of it. */
  ghost predicate Covered(d: Disk, p: Path)
    requires p.Source?
  {
    forall l :: l in d.Ledger(p) ==> l in LinesOf(d.Content(p)) || InArchive(d, p, l)
  }

  /** One generation per retired journal, and one more once the open journal's transaction ran. */
  ghost predicate GenerationCounts(d: Disk, p: Path) {
    if OnSource(d, p) then d.Retired(p) + 1 <= d.Generation(p) <= d.Retired(p) + 2
    else d.Generation(p) == d.Retired(p) + 1
  }

  ghost predicate Sound(parse: Parser, d: Disk, p: Path)
    requires p.Source?
  {
    JournalSound(parse, d) && VisibleIntact(parse, d, p) && Covered(d, p) && GenerationCounts(d, p)
  }

  lemma {:induction false} ArchivesStay(parse: Parser, d: Disk, m: Move, p: Path)
    requires p.Source? && Enabled(parse, d, m)
    ensures forall l :: InArchive(d, p, l) ==> InArchive(Apply(parse, d, m), p, l)
  {
    var d' := Apply(parse, d, m);
    forall l | InArchive(d, p, l)
      ensures InArchive(d', p, l)
    {
      var g: int :| ArchiveOf(p, g) in d.files && l in LinesOf(d.files[ArchiveOf(p, g)]);
      assert ArchiveOf(p, g) in d'.files && d'.files[ArchiveOf(p, g)] == d.files[ArchiveOf(p, g)];
    }
  }

  lemma {:induction false} WriteKeepsSource(parse: Parser, d: Disk, q: Path, content: bytes, p: Path)
    requires p.Source? && Enabled(parse, d, Write(q, content)) && Sound(parse, d, p)
    ensures VisibleIntact(parse, Apply(parse, d, Write(q, content)), p)
    ensures Covered(Apply(parse, d, Write(q, content)), p)
  {
    var d' := Apply(parse, d, Write(q, content));
    ArchivesStay(parse, d, Write(q, content), p);
    if p == q {
      GrownLines(d.Content(p), content);
      var added := NewLines(d.Content(p), content);
      VisibleAppend(parse, p, LinesOf(d.Content(p)), added, d.deleted);
      VisibleAppend(parse, p, d.Ledger(p), added, d.deleted);
    } else {
      assert d'.Content(p) == d.Content(p) && d'.Ledger(p) == d.Ledger(p);
    }
  }

  lemma {:induction false} DeleteKeepsVisible(parse: Parser, d: Disk, keys: set<string>, p: Path)
    requires p.Source? && Sound(parse, d, p)
    ensures VisibleIntact(parse, d.(deleted := d.deleted + keys), p)
  {
    var more := d.deleted + keys;
    VisibleTwice(parse, p, LinesOf(d.Content(p)), d.deleted, more);
    VisibleTwice(parse, p, d.Ledger(p), d.deleted, more);
  }

  lemma {:induction false} DeleteKeepsJournal(parse: Parser, d: Disk, keys: set<string>)
    requires JournalSound(parse, d)
    ensures JournalSound(parse, d.(deleted := d.deleted + keys))
  {
    if d.journal.Readable? {
      var j, more := d.journal.j, d.deleted + keys;
      VisibleTwice(parse, j.sourcePath, LinesOf(j.compacted.content), d.deleted, more);
      VisibleTwice(parse, j.sourcePath, LinesOf(j.original.content), d.deleted, more);
    }
  }

  lemma {:induction false} PrepareIsSound(parse: Parser, d: Disk, q: Path, used: set<string>)
    requires Enabled(parse, d, Prepare(q, used)) && GenerationCounts(d, q)
    ensures JournalSound(parse, Apply(parse, d, Prepare(q, used)))
  {
    CompactedLines(parse, q, d.files[q], used);
    VisibleTwice(parse, q, LinesOf(d.files[q]), used, d.deleted);
  }

  /** The one destructive move loses only tombstoned lines, and those are archived. */
  lemma {:induction false} ReplaceKeepsSource(parse: Parser, d: Disk, p: Path)
    requires p.Source? && Enabled(parse, d, Replace) && Sound(parse, d, p)
    ensures VisibleIntact(parse, Apply(parse, d, Replace), p)
    ensures Covered(Apply(parse, d, Replace), p)
  {
    var d', j := Apply(parse, d, Replace), d.journal.j;
    ArchivesStay(parse, d, Replace, p);
    if j.sourcePath == p {
      assert d.Content(p) == j.original.content && d'.Content(p) == j.compacted.content;
      forall l | l in d'.Ledger(p)
        ensures l in LinesOf(d'.Content(p)) || InArchive(d', p, l)
      {
        if l in LinesOf(d.Content(p)) {
          assert ArchiveOf(p, j.generation - 1) in d'.files && d'.files[j.archivePath] == j.original.content;
          assert InArchive(d', p, l);
        }
      }
    } else {
      assert d'.Content(p) == d.Content(p);
    }
  }

  lemma {:induction false} OtherMovesKeepSource(parse: Parser, d: Disk, m: Move, p: Path)
    requires p.Source? && Enabled(parse, d, m) && Sound(parse, d, p)
    requires !m.Write? && !m.Delete? && !m.Replace?
    ensures VisibleIntact(parse, Apply(parse, d, m), p)
    ensures Covered(Apply(parse, d, m), p)
  {
    var d' := Apply(parse, d, m);
    ArchivesStay(parse, d, m, p);
    assert d'.Content(p) == d.Content(p) && d'.Ledger(p) == d.Ledger(p) && d'.deleted == d.deleted;
  }

  lemma {:induction false} StepKeepsSource(parse: Parser, d: Disk, m: Move, p: Path)
    requires p.Source? && Enabled(parse, d, m) && Sound(parse, d, p)
    ensures VisibleIntact(parse, Apply(parse, d, m), p)
    ensures Covered(Apply(parse, d, m), p)
  {
    match m {
      case Write(q, content) => WriteKeepsSource(parse, d, q, content, p);
      case Delete(keys) => DeleteKeepsVisible(parse, d, keys, p);
      case Replace => ReplaceKeepsSource(parse, d, p);
      case _ => OtherMovesKeepSource(parse, d, m, p);
    }
  }

  ghost predicate AllGenerationsCount(d: Disk) { forall p: Path :: GenerationCounts(d, p) }

  lemma {:induction false} StepKeepsGenerations(parse: Parser, d: Disk, m: Move)
    requires Enabled(parse, d, m) && JournalSound(parse, d) && AllGenerationsCount(d)
    ensures AllGenerationsCount(Apply(parse, d, m))
  {
    var d' := Apply(parse, d, m);
    forall p: Path
      ensures GenerationCounts(d', p)
    {
      assert GenerationCounts(d, p);
    }
  }

  lemma {:induction false} StepKeepsJournal(parse: Parser, d: Disk, m: Move)
    requires Enabled(parse, d, m) && JournalSound(parse, d) && AllGenerationsCount(d)
    ensures JournalSound(parse, Apply(parse, d, m))
  {
    match m {
      case Prepare(q, used) => PrepareIsSound(parse, d, q, used);
      case Delete(keys) => DeleteKeepsJournal(parse, d, keys);
      case _ =>
    }
  }

  ghost predicate AllSound(parse: Parser, d: Disk) {
    && JournalSound(parse, d) && AllGenerationsCount(d)
    && forall p: Path :: p.Source? ==> Sound(parse, d, p)
  }

  lemma {:induction false} FreshIsSound(parse: Parser, d: Disk)
    requires Fresh(d)
    ensures AllSound(parse, d)
  {
    forall p: Path | p.Source?
      ensures Sound(parse, d, p)
    {
      assert d.Ledger(p) == LinesOf(d.Content(p)) && d.Generation(p) == 1 && d.Retired(p) == 0;
    }
  }

  lemma {:induction false} StepKeepsSound(parse: Parser, d: Disk, m: Move)
    requires Enabled(parse, d, m) && AllSound(parse, d)
    ensures AllSound(parse, Apply(parse, d, m))
  {
    var d' := Apply(parse, d, m);
    StepKeepsGenerations(parse, d, m);
    StepKeepsJournal(parse, d, m);
    forall p: Path | p.Source?
      ensures Sound(parse, d', p)
    {
      StepKeepsSource(parse, d, m, p);
    }
  }

  lemma {:induction false} RunKeepsSound(parse: Parser, d: Disk, moves: seq<Move>)
    requires Legal(parse, d, moves) && AllSound(parse, d)
    ensures AllSound(parse, Run(parse, d, moves))
    decreases |moves|
  {
    if moves != [] {
      StepKeepsSound(parse, d, moves[0]);
      RunKeepsSound(parse, Apply(parse, d, moves[0]), moves[1..]);
    }
  }

  function AddedBy(d: Disk, m: Move, p: Path): seq<bytes>
    requires m.Write? ==> Complete(d.Content(m.p)) <= m.content
  {
    if m.Write? && m.p == p then NewLines(d.Content(p), m.content) else []
  }

  /** The lines live writers completed in `p` during a run, in order. */
  ghost function Written(parse: Parser, d: Disk, moves: seq<Move>, p: Path): seq<bytes>
    requires Legal(parse, d, moves)
    decreases |moves|
  {
    if moves == [] then []
    else AddedBy(d, moves[0], p) + Written(parse, Apply(parse, d, moves[0]), moves[1..], p)
  }

  lemma {:induction false} LedgerStep(parse: Parser, d: Disk, m: Move, p: Path)
    requires Enabled(parse, d, m)
    ensures Apply(parse, d, m).Ledger(p) == d.Ledger(p) + AddedBy(d, m, p)
  {
  }

  lemma {:induction false} LedgerIsWritten(parse: Parser, d: Disk, moves: seq<Move>, p: Path)
    requires Legal(parse, d, moves)
    ensures Run(parse, d, moves).Ledger(p) == d.Ledger(p) + Written(parse, d, moves, p)
    decreases |moves|
  {
    if moves != [] {
      LedgerStep(parse, d, moves[0], p);
      var d', head := Apply(parse, d, moves[0]), AddedBy(d, moves[0], p);
      LedgerIsWritten(parse, d', moves[1..], p);
      Regroup(d.Ledger(p), head, Written(parse, d', moves[1..], p));
    }
  }

  /** Main result. Over every run of compaction, recovery, crashes, deletions and live writers, what a
      source shows is what it showed at the start followed by what was appended: nothing lost, doubled or
      moved, judged by the tombstones in force at the end. */
  lemma {:induction false} VisibleLinesSurvive(parse: Parser, d: Disk, moves: seq<Move>, p: Path)
    requires p.Source? && Fresh(d) && Legal(parse, d, moves)
    ensures var end := Run(parse, d, moves);
      Visible(parse, p, LinesOf(end.Content(p)), end.deleted)
      == Visible(parse, p, LinesOf(d.Content(p)) + Written(parse, d, moves, p), end.deleted)
  {
    FreshIsSound(parse, d);
    RunKeepsSound(parse, d, moves);
    LedgerIsWritten(parse, d, moves, p);
    assert Sound(parse, Run(parse, d, moves), p);
    assert d.Ledger(p) == LinesOf(d.Content(p));
  }

  /** Every line ever completed can still be read back, from the source or from an archive. */
  lemma {:induction false} NoLineIsEverLost(parse: Parser, d: Disk, moves: seq<Move>, p: Path, l: bytes)
    requires p.Source? && Fresh(d) && Legal(parse, d, moves)
    requires l in LinesOf(d.Content(p)) + Written(parse, d, moves, p)
    ensures l in LinesOf(Run(parse, d, moves).Content(p)) || InArchive(Run(parse, d, moves), p, l)
  {
    FreshIsSound(parse, d);
    RunKeepsSound(parse, d, moves);
    LedgerIsWritten(parse, d, moves, p);
    assert Sound(parse, Run(parse, d, moves), p);
    assert d.Ledger(p) == LinesOf(d.Content(p));
  }

  /** With no journal open, a source's generation is one more than its retired journals. */
  lemma {:induction false} GenerationPerRetiredJournal(parse: Parser, d: Disk, moves: seq<Move>, p: Path)
    requires Fresh(d) && Legal(parse, d, moves)
    ensures var end := Run(parse, d, moves);
      && (!OnSource(end, p) ==> end.Generation(p) == end.Retired(p) + 1)
      && (OnSource(end, p) ==> end.Retired(p) + 1 <= end.Generation(p) <= end.Retired(p) + 2)
  {
    FreshIsSound(parse, d);
    RunKeepsSound(parse, d, moves);
    assert GenerationCounts(Run(parse, d, moves), p);
  }

  /** An archive once written never changes. */
  lemma {:induction false} ArchiveNeverChanges(parse: Parser, d: Disk, moves: seq<Move>, a: Path)
    requires a.Archive? && a in d.files && Legal(parse, d, moves)
    ensures a in Run(parse, d, moves).files && Run(parse, d, moves).files[a] == d.files[a]
    decreases |moves|
  {
    if moves != [] {
      ghost var d' := Apply(parse, d, moves[0]);
      assert a in d'.files && d'.files[a] == d.files[a] by {
        if moves[0].Replace? {
          assert d.journal.j.sourcePath != a;
        }
      }
      ArchiveNeverChanges(parse, d', moves[1..], a);
    }
  }

  // ---- When recovery can finish ----

  /** Recovery goes through from here if nobody interferes. */
  predicate Recoverable(d: Disk) {
    match d.journal
    case NoJournal => true
    case Unreadable => false
    case Readable(j) =>
      && j.generation >= 2 && ValidPaths(j) && ArchiveMatches(d, j)
      && (if Pending in d.files then Sha256(d.files[Pending]) == j.compacted
          else j.phase == Replaced && j.sourcePath in d.files && Sha256(d.files[j.sourcePath]) == j.compacted)
      && (j.sourcePath in d.files ==> Undisturbed(d, j))
      && j.generation - 1 <= d.Generation(j.sourcePath) <= j.generation
  }

  /** The source is as archived, or shows the mark of the replacement. */
  predicate Undisturbed(d: Disk, j: Journal)
    requires j.sourcePath in d.files
  {
    || Sha256(d.files[j.sourcePath]) == j.original
    || AlreadyReplaced(d.files[j.sourcePath], j.original.content, j.compacted.content)
  }

  /** In every run, an interrupted compaction can be finished unless a writer changed the source before the
      replacement: a crash on its own never leaves a journal recovery refuses. */
  lemma {:induction false} RecoveryRefusesOnlyChangedSource(parse: Parser, d: Disk, moves: seq<Move>)
    requires Fresh(d) && Legal(parse, d, moves)
    ensures var end := Run(parse, d, moves);
      end.journal.Readable? ==>
        end.journal.j.sourcePath in end.files && (Recoverable(end) <==> Undisturbed(end, end.journal.j))
  {
    FreshIsSound(parse, d);
    RunKeepsSound(parse, d, moves);
    var end := Run(parse, d, moves);
    if end.journal.Readable? {
      assert GenerationCounts(end, end.journal.j.sourcePath);
    }
  }

  /** A replaced source is recognised for as long as writers only append, unless compaction emptied it and the
      appended bytes begin with the whole original again. */
  lemma {:induction false} ReplacedIsRecognised(original: bytes, compacted: bytes, appended: bytes)
    ensures AlreadyReplaced(compacted + appended, original, compacted) <==> compacted != [] || !(original <= appended)
  {
    if compacted == [] {
      assert compacted + appended == appended;
    }
  }

  /** A source not yet replaced is taken for a replaced one exactly when the rows to keep are a leading part
      of it. Recovery then retires the journal and leaves the tombstoned rows to the next compaction. */
  lemma {:induction false} UnreplacedTakenForReplaced(parse: Parser, p: Path, original: bytes, used: set<string>,
                                                      appended: bytes)
    requires p.Source? && IsComplete(original)
    ensures var compacted := CompactedBytes(parse, p, original, used);
      AlreadyReplaced(original + appended, original, compacted) <==> compacted != [] && compacted <= original
  {
    CompactedIsShorter(parse, p, original, used);
    var compacted := CompactedBytes(parse, p, original, used);
    assert (original + appended)[..|compacted|] == original[..|compacted|];
    assert (original + appended)[..|original|] == original;
  }

  // ---- What is clean after compaction stays clean ----

  /** Tombstoned lines in the source, and in what an open journal may put there, are all newer than `mark`. */
  ghost predicate CleanSince(parse: Parser, d: Disk, p: Path, deleted: set<string>, mark: nat)
    requires p.Source?
  {
    && mark <= |d.Ledger(p)|
    && var later := multiset(Hidden(parse, p, d.Ledger(p)[mark..], deleted));
    && multiset(Hidden(parse, p, LinesOf(d.Content(p)), deleted)) <= later
    && (OnSource(d, p) ==> multiset(Hidden(parse, p, LinesOf(d.journal.j.compacted.content), deleted)) <= later)
  }

  lemma {:induction false} GrowBoth<T>(a: seq<T>, b: seq<T>, x: seq<T>)
    requires multiset(a) <= multiset(b)
    ensures multiset(a + x) <= multiset(b + x)
    ensures multiset(a) <= multiset(b + x)
  {
    assert multiset(a + x) == multiset(a) + multiset(x);
    assert multiset(b + x) == multiset(b) + multiset(x);
  }

  lemma {:induction false} HiddenGrows(parse: Parser, p: Path, a: seq<bytes>, b: seq<bytes>, x: seq<bytes>,
                                       deleted: set<string>)
    requires p.Source? && multiset(Hidden(parse, p, a, deleted)) <= multiset(Hidden(parse, p, b, deleted))
    ensures multiset(Hidden(parse, p, a + x, deleted)) <= multiset(Hidden(parse, p, b + x, deleted))
    ensures multiset(Hidden(parse, p, a, deleted)) <= multiset(Hidden(parse, p, b + x, deleted))
  {
    VisibleAppend(parse, p, a, x, deleted);
    VisibleAppend(parse, p, b, x, deleted);
    GrowBoth(Hidden(parse, p, a, deleted), Hidden(parse, p, b, deleted), Hidden(parse, p, x, deleted));
  }

  lemma {:induction false} WriteKeepsClean(parse: Parser, d: Disk, content: bytes, p: Path, deleted: set<string>,
                                           mark: nat)
    requires p.Source? && Enabled(parse, d, Write(p, content)) && CleanSince(parse, d, p, deleted, mark)
    ensures CleanSince(parse, Apply(parse, d, Write(p, content)), p, deleted, mark)
  {
    var added, since := NewLines(d.Content(p), content), d.Ledger(p)[mark..];
    WriteEffect(parse, d, content, p, mark);
    HiddenGrows(parse, p, LinesOf(d.Content(p)), since, added, deleted);
    if OnSource(d, p) {
      HiddenGrows(parse, p, LinesOf(d.journal.j.compacted.content), since, added, deleted);
    }
  }

  lemma WriteEffect(parse: Parser, d: Disk, content: bytes, p: Path, mark: nat)
    requires p.Source? && Enabled(parse, d, Write(p, content)) && mark <= |d.Ledger(p)|
    ensures var d', added := Apply(parse, d, Write(p, content)), NewLines(d.Content(p), content);
      && d'.journal == d.journal
      && mark <= |d'.Ledger(p)| && d'.Ledger(p)[mark..] == d.Ledger(p)[mark..] + added
      && LinesOf(d'.Content(p)) == LinesOf(d.Content(p)) + added
  {
    GrownLines(d.Content(p), content);
  }

  lemma {:induction false} StepKeepsClean(parse: Parser, d: Disk, m: Move, p: Path, deleted: set<string>, mark: nat)
    requires p.Source? && Enabled(parse, d, m) && CleanSince(parse, d, p, deleted, mark)
    ensures CleanSince(parse, Apply(parse, d, m), p, deleted, mark)
  {
    if m.Write? && m.p == p {
      WriteKeepsClean(parse, d, m.content, p, deleted, mark);
    } else if m.Prepare? && m.p == p {
      CompactedLines(parse, p, d.files[p], m.used);
      HiddenOfVisible(parse, p, LinesOf(d.files[p]), m.used, deleted);
    } else {
      OtherEffect(parse, d, m, p);
    }
  }

  /** Any other move leaves the ledger alone, and puts nothing in the source that an open journal did not hold. */
  lemma OtherEffect(parse: Parser, d: Disk, m: Move, p: Path)
    requires p.Source? && Enabled(parse, d, m) && !(m.Write? && m.p == p) && !(m.Prepare? && m.p == p)
    ensures var d' := Apply(parse, d, m);
      && d'.Ledger(p) == d.Ledger(p)
      && (d'.Content(p) == d.Content(p) || (OnSource(d, p) && d'.Content(p) == d.journal.j.compacted.content))
      && (OnSource(d', p) ==> OnSource(d, p) && d'.journal.j.compacted == d.journal.j.compacted)
  {
  }

  lemma {:induction false} RunKeepsClean(parse: Parser, d: Disk, moves: seq<Move>, p: Path, deleted: set<string>,
                                         mark: nat)
    requires p.Source? && Legal(parse, d, moves) && CleanSince(parse, d, p, deleted, mark)
    ensures CleanSince(parse, Run(parse, d, moves), p, deleted, mark)
    decreases |moves|
  {
    if moves != [] {
      StepKeepsClean(parse, d, moves[0], p, deleted, mark);
      RunKeepsClean(parse, Apply(parse, d, moves[0]), moves[1..], p, deleted, mark);
    }
  }
}
