/** Torn-tail repair of append-only JSONL files, and the locked append built on it. */
module JsonlRecovery {
  import opened Common
  import opened Lines
  import opened JsonText
  import opened FsAtomic

  const SCAN_CHUNK_BYTES: nat := 4096

  /** What repair leaves: a complete file as it is, a parseable tail terminated, any other tail dropped. */
  function Repaired(parses: bytes -> bool, c: bytes): bytes {
    if IsComplete(c) then c else if parses(Tail(c)) then c + [NL] else Complete(c)
  }

  lemma SuffixSnoc(x: bytes, i: nat, b: byte)
    requires i <= |x| && NoNewline(x[i..]) && b != NL
    ensures NoNewline((x + [b])[i..])
  {
    assert (x + [b])[i..] == x[i..] + [b];
  }

  /** Buffer.lastIndexOf for the newline byte; -1 when there is none. */
  function LastNewlineIndex(chunk: bytes): (i: int)
    ensures -1 <= i < |chunk|
    ensures i >= 0 ==> chunk[i] == NL
    ensures NoNewline(chunk[i + 1..])
  {
    if chunk == [] then -1
    else
      var init, last := chunk[..|chunk| - 1], chunk[|chunk| - 1];
      assert chunk == init + [last];
      if last == NL then |chunk| - 1
      else
        var i := LastNewlineIndex(init);
        SuffixSnoc(init, i + 1, last);
        i
  }

  /** The complete part is whatever ends just past the last newline. */
  lemma {:induction false} CompleteEndsAt(c: bytes, keep: nat)
    requires keep <= |c| && NoNewline(c[keep..])
    requires keep == 0 || c[keep - 1] == NL
    ensures Complete(c) == c[..keep] && Tail(c) == c[keep..]
  {
    var x, y := c[..keep], c[keep..];
    assert c == x + y;
    LinesAppendComplete(x, y);
    SplitNoNewline(y);
    CompleteTail(c);
    assert |Complete(c)| == |x|;
  }

  lemma ScannedSuffix(c: bytes, start: nat, pos: nat, at: nat)
    requires start <= pos <= |c| && at <= pos - start
    requires NoNewline(c[start..pos][at..]) && NoNewline(c[pos..])
    ensures NoNewline(c[start + at..])
  {
    assert c[start + at..] == c[start..pos][at..] + c[pos..];
  }

  /** The backwards scan in fixed-size chunks: index just past the last newline. */
  method FindKeep(content: bytes) returns (keep: nat)
    ensures keep <= |content| && Complete(content) == content[..keep] && Tail(content) == content[keep..]
  {
    keep := 0;
    var pos := |content|;
    while pos > 0
      invariant 0 <= pos <= |content| && keep == 0 && NoNewline(content[pos..])
    {
      var start := if pos > SCAN_CHUNK_BYTES then pos - SCAN_CHUNK_BYTES else 0;
      var chunk := content[start..pos];
      var idx := LastNewlineIndex(chunk);
      ScannedSuffix(content, start, pos, idx + 1);
      if idx != -1 {
        keep := start + idx + 1;
        CompleteEndsAt(content, keep);
        return;
      }
      pos := start;
    }
    CompleteEndsAt(content, 0);
  }

  method TruncateToLastNewline(f: DiskFile, parses: bytes -> bool) returns (dropped: nat)
    modifies f
    ensures f.present == old(f.present)
    ensures f.content == if f.present then Repaired(parses, old(f.content)) else old(f.content)
    ensures dropped == if |f.content| < |old(f.content)| then |old(f.content)| - |f.content| else 0
  {
    if !f.present {
      return 0;
    }
    var size := |f.content|;
    if size == 0 {
      return 0;
    }
    if f.content[size - 1] == NL {
      return 0;
    }
    var keep := FindKeep(f.content);
    if parses(f.content[keep..]) {
      f.content := f.content + [NL];
      return 0;
    }
    f.content := f.content[..keep];
    return size - keep;
  }

  /** Repair, then append one record under the file's lock; the record may land only in part. */
  method AppendJsonlLineLocked(f: DiskFile, parses: bytes -> bool, record: bytes, grants: seq<nat>)
    returns (done: bool, offset: nat, ghost landed: nat)
    modifies f
    ensures f.present && landed <= |record| + 1
    ensures f.content == Appended(parses, old(if f.present then f.content else []), Attempt(record, landed))
    ensures offset == |Repaired(parses, old(if f.present then f.content else []))|
    ensures done ==> landed == |record| + 1
    ensures |grants| > |record| ==> done
  {
    ghost var before := if f.present then f.content else [];
    var _ := TruncateToLastNewline(f, parses);
    offset := if f.present then |f.content| else 0;
    done, landed := AppendFileDurable(f, record + [NL], grants);
  }

  /** An append of `record` of whose bytes, newline included, the first `landed` reached the disk. */
  datatype Attempt = Attempt(record: bytes, landed: nat)

  predicate ValidAttempt(a: Attempt) { a.landed <= |a.record| + 1 && NoNewline(a.record) && a.record != [] }

  function Appended(parses: bytes -> bool, c: bytes, a: Attempt): bytes
    requires a.landed <= |a.record| + 1
  {
    Repaired(parses, c) + (a.record + [NL])[..a.landed]
  }

  predicate ValidAttempts(attempts: seq<Attempt>) { forall i :: 0 <= i < |attempts| ==> ValidAttempt(attempts[i]) }

  ghost predicate ObjectRecords(attempts: seq<Attempt>) {
    forall i :: 0 <= i < |attempts| ==> IsObjectText(attempts[i].record)
  }

  ghost predicate DecidesJson(parses: bytes -> bool) { forall t :: parses(t) <==> IsJson(t) }

  function Replay(parses: bytes -> bool, c: bytes, attempts: seq<Attempt>): bytes
    requires ValidAttempts(attempts)
    decreases |attempts|
  {
    if attempts == [] then c
    else Replay(parses, Appended(parses, c, attempts[0]), attempts[1..])
  }

  /** The records every byte of which, newline aside, reached the disk. */
  function Landed(attempts: seq<Attempt>): seq<bytes> {
    if attempts == [] then []
    else (if attempts[0].landed >= |attempts[0].record| then [attempts[0].record] else []) + Landed(attempts[1..])
  }

  lemma {:induction false} RepairedIsComplete(parses: bytes -> bool, c: bytes)
    ensures IsComplete(Repaired(parses, c))
  {
    CompleteTail(c);
  }

  /** Repairing twice is repairing once. */
  lemma {:induction false} RepairIdempotent(parses: bytes -> bool, c: bytes)
    ensures Repaired(parses, Repaired(parses, c)) == Repaired(parses, c)
  {
    RepairedIsComplete(parses, c);
  }

  /** Repair of a complete file with an unterminated part after it. */
  lemma {:induction false} RepairGrown(parses: bytes -> bool, base: bytes, part: bytes)
    requires IsComplete(base) && NoNewline(part) && part != []
    ensures Repaired(parses, base + part) == if parses(part) then base + part + [NL] else base
  {
    var grown := base + part;
    assert grown[|base|..] == part && grown[..|base|] == base;
    assert grown[|grown| - 1] == part[|part| - 1];
    CompleteEndsAt(grown, |base|);
  }

  /** Repair after one attempt: the record is there whole, or not at all. */
  lemma {:induction false} RepairAfterAttempt(parses: bytes -> bool, c: bytes, a: Attempt)
    requires ValidAttempt(a) && Unmistakable(parses, a.record)
    ensures Repaired(parses, Appended(parses, c, a))
         == Repaired(parses, c) + (if a.landed >= |a.record| then a.record + [NL] else [])
  {
    RepairedIsComplete(parses, c);
    var base, part := Repaired(parses, c), (a.record + [NL])[..a.landed];
    if a.landed == 0 {
      assert base + part == base;
    } else if a.landed <= |a.record| {
      assert part == a.record[..a.landed];
      RepairGrown(parses, base, part);
      if a.landed == |a.record| {
        assert part == a.record;
        assert base + part + [NL] == base + (a.record + [NL]);
      }
    } else {
      assert part == a.record + [NL];
    }
  }

  /** The record parses and nothing torn off its end does. */
  predicate Unmistakable(parses: bytes -> bool, record: bytes) {
    parses(record) && forall k :: 0 <= k < |record| ==> !parses(record[..k])
  }

  lemma {:induction false} ObjectsAreUnmistakable(parses: bytes -> bool, record: bytes)
    requires DecidesJson(parses) && IsObjectText(record)
    ensures Unmistakable(parses, record)
  {
    ObjectIsJson(record);
    forall k | 0 <= k < |record|
      ensures !parses(record[..k])
    {
      ProperPrefixIsNotJson(record, k);
    }
  }

  lemma {:induction false} LandedStep(attempts: seq<Attempt>, base: bytes)
    requires attempts != []
    ensures base + Join(Landed(attempts))
         == base + (if attempts[0].landed >= |attempts[0].record| then attempts[0].record + [NL] else [])
          + Join(Landed(attempts[1..]))
  {
    var a := attempts[0];
    var head := if a.landed >= |a.record| then [a.record] else [];
    JoinAppend(head, Landed(attempts[1..]));
    if head != [] {
      assert Join(head) == a.record + [NL];
    }
  }

  lemma {:induction false} RepairedReplayUnmistakable(parses: bytes -> bool, c: bytes, attempts: seq<Attempt>)
    requires ValidAttempts(attempts)
    requires forall i :: 0 <= i < |attempts| ==> Unmistakable(parses, attempts[i].record)
    ensures Repaired(parses, Replay(parses, c, attempts)) == Repaired(parses, c) + Join(Landed(attempts))
    decreases |attempts|
  {
    if attempts == [] {
      assert Join(Landed(attempts)) == [];
    } else {
      RepairAfterAttempt(parses, c, attempts[0]);
      RepairedReplayUnmistakable(parses, Appended(parses, c, attempts[0]), attempts[1..]);
      LandedStep(attempts, Repaired(parses, c));
    }
  }

  /** Whatever the file held before and wherever each append was cut, the repaired file is the
      repaired old file followed by exactly the records that fully landed, one a line, in order. */
  lemma {:induction false} RepairedReplay(parses: bytes -> bool, c: bytes, attempts: seq<Attempt>)
    requires DecidesJson(parses) && ValidAttempts(attempts) && ObjectRecords(attempts)
    ensures Repaired(parses, Replay(parses, c, attempts)) == Repaired(parses, c) + Join(Landed(attempts))
  {
    forall i | 0 <= i < |attempts|
      ensures Unmistakable(parses, attempts[i].record)
    {
      ObjectsAreUnmistakable(parses, attempts[i].record);
    }
    RepairedReplayUnmistakable(parses, c, attempts);
  }

  /** The same law read line by line, from an empty file: no fused, lost or torn line. */
  lemma {:induction false} ReplayLines(parses: bytes -> bool, attempts: seq<Attempt>)
    requires DecidesJson(parses) && ValidAttempts(attempts) && ObjectRecords(attempts)
    ensures LinesOf(Repaired(parses, Replay(parses, [], attempts))) == Landed(attempts)
  {
    RepairedReplay(parses, [], attempts);
    assert [] + Join(Landed(attempts)) == Join(Landed(attempts));
    LandedIsLineList(attempts);
    JoinLines(Landed(attempts));
  }

  lemma {:induction false} LandedIsLineList(attempts: seq<Attempt>)
    requires ValidAttempts(attempts)
    ensures LineList(Landed(attempts))
  {
    if attempts != [] {
      assert ValidAttempt(attempts[0]);
      LandedIsLineList(attempts[1..]);
    }
  }

  /** Repair and a possibly torn append never disturb the lines already complete. */
  lemma {:induction false} AppendKeepsCompletePart(parses: bytes -> bool, c: bytes, a: Attempt)
    requires a.landed <= |a.record| + 1
    ensures Complete(c) <= Repaired(parses, c) <= Appended(parses, c, a)
  {
    CompleteTail(c);
  }
}
