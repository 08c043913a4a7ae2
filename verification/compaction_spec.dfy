/** Crash-safe log compaction as durable moves on a disk.

    A crash writes nothing, so a run cut at any move is itself a run: a statement
    about every legal sequence of moves is a statement about every crash point. */
module CompactionSpec {
  import opened Common
  import opened Lines

  datatype Kind = Rows | Logs

  datatype Path =
    | Source(kind: Kind, workflow: string, date: string)
    | Archive(generation: int, kind: Kind, workflow: string, date: string)
    | Pending
    | Elsewhere(name: string)

  /** SHA-256 taken to be injective: a digest carries the one content that has it. */
  datatype Digest = Sha256(content: bytes)

  datatype Phase = Prepared | Replaced

  datatype Journal = Journal(
    sourcePath: Path, pendingPath: Path, archivePath: Path,
    original: Digest, compacted: Digest, generation: int, phase: Phase)

  datatype JournalFile = NoJournal | Unreadable | Readable(j: Journal)

  /** What JSON.parse makes of one line, as far as compaction looks at it. */
  datatype Parsed = NotJson | Fields(id: Option<string>, itemId: Option<string>, runId: Option<string>)

  type Parser = bytes -> Parsed

  /** The durable state, with two history variables: every line a source ever completed, and
      how many journals of it were retired. */
  datatype Disk = Disk(
    files: map<Path, bytes>,
    journal: JournalFile,
    generations: map<Path, int>,
    deleted: set<string>,
    ledger: map<Path, seq<bytes>>,
    retired: map<Path, nat>)
  {
    function Content(p: Path): bytes { if p in files then files[p] else [] }

    function Generation(p: Path): int { if p in generations then generations[p] else 1 }

    function Ledger(p: Path): seq<bytes> { if p in ledger then ledger[p] else [] }

    function Retired(p: Path): nat { if p in retired then retired[p] else 0 }
  }

  function ArchiveOf(p: Path, generation: int): Path
    requires p.Source?
  {
    Archive(generation, p.kind, p.workflow, p.date)
  }

  // ---- Tombstones ----

  /** The tombstone key of a line, or None for a line compaction refuses. */
  function KeyOf(parse: Parser, p: Path, line: bytes): Option<string>
    requires p.Source?
  {
    match parse(line)
    case NotJson => None
    case Fields(id, itemId, runId) =>
      var item := if p.kind.Rows? then id else itemId;
      if item.None? || item.value == "" then None
      else
        var run := if runId.Some? then runId.value else item.value + "#1";
        Some(p.workflow + "\0" + p.date + "\0" + item.value + "\0" + run)
  }

  predicate Tombstoned(parse: Parser, p: Path, line: bytes, deleted: set<string>)
    requires p.Source?
  {
    var key := KeyOf(parse, p, line);
    key.Some? && key.value in deleted
  }

  predicate AllKeyed(parse: Parser, p: Path, ls: seq<bytes>)
    requires p.Source?
  {
    forall i :: 0 <= i < |ls| ==> KeyOf(parse, p, ls[i]).Some?
  }

  /** The lines that are not tombstoned, in order. */
  function Visible(parse: Parser, p: Path, ls: seq<bytes>, deleted: set<string>): seq<bytes>
    requires p.Source?
  {
    if ls == [] then []
    else (if Tombstoned(parse, p, ls[0], deleted) then [] else [ls[0]]) + Visible(parse, p, ls[1..], deleted)
  }

  /** The lines that are tombstoned, in order. */
  function Hidden(parse: Parser, p: Path, ls: seq<bytes>, deleted: set<string>): seq<bytes>
    requires p.Source?
  {
    if ls == [] then []
    else (if Tombstoned(parse, p, ls[0], deleted) then [ls[0]] else []) + Hidden(parse, p, ls[1..], deleted)
  }

  function CompactedBytes(parse: Parser, p: Path, original: bytes, deleted: set<string>): bytes
    requires p.Source?
  {
    Join(Visible(parse, p, LinesOf(original), deleted))
  }

  // ---- Moves ----

  /** Lines completed by growing `c` to `c'` past the complete part of `c`. */
  function NewLines(c: bytes, c': bytes): seq<bytes>
    requires Complete(c) <= c'
  {
    LinesOf(c'[|Complete(c)|..])
  }

  datatype Move =
    | Write(p: Path, content: bytes)          // a live writer: repair, append, torn append
    | Delete(keys: set<string>)               // an operator deletion
    | KeepArchive(p: Path)                    // archive the source under its current generation
    | Stage(content: bytes)                   // write the pending file
    | DropPending                             // unlink the pending file, after its journal
    | Prepare(p: Path, used: set<string>)     // journal "prepared"
    | Replace                                 // source := compacted content
    | MarkReplaced                            // journal "replaced"
    | Bump                                    // generation transaction
    | Retire                                  // journal unlinked

  predicate ValidPaths(j: Journal) {
    && j.sourcePath.Source?
    && j.pendingPath == Pending
    && j.archivePath == ArchiveOf(j.sourcePath, j.generation - 1)
  }

  /** The guard by which recovery decides the source was replaced before the crash. */
  predicate AlreadyReplaced(source: bytes, archived: bytes, pending: bytes) {
    if |pending| > 0 then pending <= source else !(archived <= source)
  }

  function JournalFor(parse: Parser, d: Disk, p: Path, used: set<string>): Journal
    requires p.Source?
  {
    var original := d.Content(p);
    Journal(p, Pending, ArchiveOf(p, d.Generation(p)), Sha256(original),
            Sha256(CompactedBytes(parse, p, original, used)), d.Generation(p) + 1, Prepared)
  }

  predicate Holds(d: Disk, p: Path, content: bytes) { p in d.files && d.files[p] == content }

  predicate ArchiveMatches(d: Disk, j: Journal) {
    j.archivePath in d.files && Sha256(d.files[j.archivePath]) == j.original
  }

  predicate Enabled(parse: Parser, d: Disk, m: Move) {
    match m
    case Write(p, content) => p.Source? && Complete(d.Content(p)) <= content
    case Delete(_) => true
    case KeepArchive(p) => p.Source? && p in d.files && ArchiveOf(p, d.Generation(p)) !in d.files
    case Stage(_) => d.journal.NoJournal?
    case DropPending => d.journal.NoJournal?
    case Prepare(p, used) =>
      && d.journal.NoJournal? && p.Source? && p in d.files && used <= d.deleted
      && IsComplete(d.files[p])
      && AllKeyed(parse, p, LinesOf(d.files[p]))
      && CompactedBytes(parse, p, d.files[p], used) != d.files[p]
      && ArchiveMatches(d, JournalFor(parse, d, p, used))
      && Holds(d, Pending, CompactedBytes(parse, p, d.files[p], used))
    case Replace =>
      && d.journal.Readable? && ValidPaths(d.journal.j) && ArchiveMatches(d, d.journal.j)
      && (d.journal.j.sourcePath in d.files ==> Sha256(d.files[d.journal.j.sourcePath]) == d.journal.j.original)
    case MarkReplaced =>
      && d.journal.Readable? && d.journal.j.sourcePath in d.files
      && Sha256(d.files[d.journal.j.sourcePath]) == d.journal.j.compacted
    case Bump =>
      && d.journal.Readable? && ValidPaths(d.journal.j) && ArchiveMatches(d, d.journal.j)
      && d.journal.j.sourcePath in d.files
      && (|| d.files[d.journal.j.sourcePath] == d.journal.j.compacted.content
          || AlreadyReplaced(d.files[d.journal.j.sourcePath], d.journal.j.original.content,
            d.journal.j.compacted.content))
      && d.Generation(d.journal.j.sourcePath) == d.journal.j.generation - 1
    case Retire =>
      && d.journal.Readable? && ValidPaths(d.journal.j)
      && d.Generation(d.journal.j.sourcePath) == d.journal.j.generation
  }

  function Apply(parse: Parser, d: Disk, m: Move): Disk
    requires Enabled(parse, d, m)
  {
    match m
    case Write(p, content) =>
      d.(files := d.files[p := content], ledger := d.ledger[p := d.Ledger(p) + NewLines(d.Content(p), content)])
    case Delete(keys) => d.(deleted := d.deleted + keys)
    case KeepArchive(p) => d.(files := d.files[ArchiveOf(p, d.Generation(p)) := d.files[p]])
    case Stage(content) => d.(files := d.files[Pending := content])
    case DropPending => d.(files := d.files - {Pending})
    case Prepare(p, used) => d.(journal := Readable(JournalFor(parse, d, p, used)))
    case Replace => d.(files := d.files[d.journal.j.sourcePath := d.journal.j.compacted.content])
    case MarkReplaced => d.(journal := Readable(d.journal.j.(phase := Replaced)))
    case Bump => d.(generations := d.generations[d.journal.j.sourcePath := d.journal.j.generation])
    case Retire =>
      var p := d.journal.j.sourcePath;
      d.(journal := NoJournal, retired := d.retired[p := d.Retired(p) + 1])
  }

  ghost predicate Legal(parse: Parser, d: Disk, moves: seq<Move>)
    decreases |moves|
  {
    moves != [] ==> Enabled(parse, d, moves[0]) && Legal(parse, Apply(parse, d, moves[0]), moves[1..])
  }

  ghost function Run(parse: Parser, d: Disk, moves: seq<Move>): Disk
    requires Legal(parse, d, moves)
    decreases |moves|
  {
    if moves == [] then d else Run(parse, Apply(parse, d, moves[0]), moves[1..])
  }

  lemma {:induction false} RunConcat(parse: Parser, d: Disk, a: seq<Move>, b: seq<Move>)
    requires Legal(parse, d, a)
    ensures Legal(parse, d, a + b) <==> Legal(parse, Run(parse, d, a), b)
    ensures Legal(parse, d, a + b) ==> Run(parse, d, a + b) == Run(parse, Run(parse, d, a), b)
    decreases |a|
  {
    if a == [] {
      assert a + b == b;
    } else {
      assert (a + b)[0] == a[0] && (a + b)[1..] == a[1..] + b;
      RunConcat(parse, Apply(parse, d, a[0]), a[1..], b);
    }
  }

  /** A crash at any point: every prefix of a legal run is a legal run. */
  lemma {:induction false} CrashAnywhere(parse: Parser, d: Disk, moves: seq<Move>, k: nat)
    requires Legal(parse, d, moves) && k <= |moves|
    ensures Legal(parse, d, moves[..k])
    decreases k
  {
    if k > 0 {
      assert moves[..k][0] == moves[0] && moves[..k][1..] == moves[1..][..k - 1];
      CrashAnywhere(parse, Apply(parse, d, moves[0]), moves[1..], k - 1);
    }
  }

  // ---- Filtering ----

  lemma {:induction false} VisibleAppend(parse: Parser, p: Path, a: seq<bytes>, b: seq<bytes>, deleted: set<string>)
    requires p.Source?
    ensures Visible(parse, p, a + b, deleted) == Visible(parse, p, a, deleted) + Visible(parse, p, b, deleted)
    ensures Hidden(parse, p, a + b, deleted) == Hidden(parse, p, a, deleted) + Hidden(parse, p, b, deleted)
  {
    if a == [] {
      assert a + b == b;
    } else {
      assert (a + b)[1..] == a[1..] + b;
      VisibleAppend(parse, p, a[1..], b, deleted);
    }
  }

  /** Filtering by an older tombstone set first changes nothing for a newer one. */
  lemma {:induction false} VisibleTwice(parse: Parser, p: Path, ls: seq<bytes>, older: set<string>, newer: set<string>)
    requires p.Source? && older <= newer
    ensures Visible(parse, p, Visible(parse, p, ls, older), newer) == Visible(parse, p, ls, newer)
  {
    if ls != [] {
      VisibleTwice(parse, p, ls[1..], older, newer);
      var head := if Tombstoned(parse, p, ls[0], older) then [] else [ls[0]];
      VisibleAppend(parse, p, head, Visible(parse, p, ls[1..], older), newer);
      if head != [] {
        assert head[1..] == [];
      }
    }
  }

  /** Compaction leaves no line tombstoned in the set it read. */
  lemma {:induction false} VisibleHasNoHidden(parse: Parser, p: Path, ls: seq<bytes>, deleted: set<string>)
    requires p.Source?
    ensures Hidden(parse, p, Visible(parse, p, ls, deleted), deleted) == []
  {
    if ls != [] {
      VisibleHasNoHidden(parse, p, ls[1..], deleted);
      var head := if Tombstoned(parse, p, ls[0], deleted) then [] else [ls[0]];
      VisibleAppend(parse, p, head, Visible(parse, p, ls[1..], deleted), deleted);
    }
  }

  lemma {:induction false} HiddenOfVisible(parse: Parser, p: Path, ls: seq<bytes>, used: set<string>,
                                           deleted: set<string>)
    requires p.Source?
    ensures multiset(Hidden(parse, p, Visible(parse, p, ls, used), deleted)) <= multiset(Hidden(parse, p, ls, deleted))
  {
    if ls != [] {
      HiddenOfVisible(parse, p, ls[1..], used, deleted);
      var head := if Tombstoned(parse, p, ls[0], used) then [] else [ls[0]];
      var rest := Visible(parse, p, ls[1..], used);
      VisibleAppend(parse, p, head, rest, deleted);
      VisibleAppend(parse, p, [ls[0]], ls[1..], deleted);
      assert [ls[0]] + ls[1..] == ls;
      assert multiset(Hidden(parse, p, head + rest, deleted))
          == multiset(Hidden(parse, p, head, deleted)) + multiset(Hidden(parse, p, rest, deleted));
      assert multiset(Hidden(parse, p, ls, deleted))
          == multiset(Hidden(parse, p, [ls[0]], deleted)) + multiset(Hidden(parse, p, ls[1..], deleted));
    }
  }

  lemma {:induction false} VisibleMembers(parse: Parser, p: Path, ls: seq<bytes>, deleted: set<string>)
    requires p.Source?
    ensures forall l :: l in Visible(parse, p, ls, deleted) ==> l in ls
  {
    if ls != [] {
      VisibleMembers(parse, p, ls[1..], deleted);
    }
  }

  lemma {:induction false} CompactedLines(parse: Parser, p: Path, original: bytes, deleted: set<string>)
    requires p.Source?
    ensures LinesOf(CompactedBytes(parse, p, original, deleted)) == Visible(parse, p, LinesOf(original), deleted)
    ensures IsComplete(CompactedBytes(parse, p, original, deleted))
  {
    VisibleMembers(parse, p, LinesOf(original), deleted);
    JoinLines(Visible(parse, p, LinesOf(original), deleted));
  }

  /** Rewriting a file's own lines never makes it longer, and is the same file when as long. */
  lemma {:induction false} CompactedIsShorter(parse: Parser, p: Path, original: bytes, deleted: set<string>)
    requires p.Source? && IsComplete(original)
    ensures var compacted := CompactedBytes(parse, p, original, deleted);
      |compacted| <= |original| && (compacted <= original && |compacted| == |original| ==> compacted == original)
  {
    KeptIsShorter(parse, p, LinesOf(original), deleted);
    LinesAreShorter(original);
  }

  lemma {:induction false} KeptIsShorter(parse: Parser, p: Path, ls: seq<bytes>, deleted: set<string>)
    requires p.Source?
    ensures |Join(Visible(parse, p, ls, deleted))| <= |Join(ls)|
  {
    if ls != [] {
      KeptIsShorter(parse, p, ls[1..], deleted);
      var rest := Visible(parse, p, ls[1..], deleted);
      if Tombstoned(parse, p, ls[0], deleted) {
        assert Visible(parse, p, ls, deleted) == rest;
      } else {
        assert Visible(parse, p, ls, deleted) == [ls[0]] + rest;
        assert ([ls[0]] + rest)[1..] == rest;
      }
    }
  }

  lemma {:induction false} LinesAreShorter(b: bytes)
    requires IsComplete(b)
    ensures |Join(LinesOf(b))| <= |b|
  {
    CompleteHasNoTail(b);
    SegmentsAreShorter(b);
    var segments := Split(b);
    assert segments == DropLast(segments) + [Last(segments)];
  }

  lemma {:induction false} SegmentsAreShorter(b: bytes)
    ensures |Join(NonEmpty(DropLast(Split(b))))| + |Tail(b)| <= |b|
    decreases |b|
  {
    var i := FirstNewline(b);
    if i < |b| {
      var head, rest := b[..i], b[i + 1..];
      SegmentsAreShorter(rest);
      assert Split(b) == [head] + Split(rest);
      assert DropLast(Split(b)) == [head] + DropLast(Split(rest));
      NonEmptyAppend([head], DropLast(Split(rest)));
      JoinAppend(NonEmpty([head]), NonEmpty(DropLast(Split(rest))));
      var one: seq<bytes> := [head];
      assert one[1..] == [];
      assert |Join(NonEmpty(one))| <= |head| + 1;
    }
  }

  lemma {:induction false} GrownLines(c: bytes, c': bytes)
    requires Complete(c) <= c'
    ensures LinesOf(c') == LinesOf(c) + NewLines(c, c')
  {
    CompleteTail(c);
    assert c' == Complete(c) + c'[|Complete(c)|..];
    LinesAppendComplete(Complete(c), c'[|Complete(c)|..]);
  }
}
