/** From a delete to the disk: which lines of which log compaction drops once the tombstones of a request are read. */
module DeletedRuns {
  import opened Common
  import opened Lines
  import opened StableSort
  import opened CompactionSpec
  import DeleteClosure
  import Compaction

  // ---- Whose line it is ----

  /** A row belongs to the item its `id` names, a log line to the one its `itemId` names; without a `runId` it belongs
      to the item's first run. */
  predicate IsOfRun(parse: Parser, p: Path, line: bytes, item: string, run: string)
    requires p.Source?
  {
    && item != "" && parse(line).Fields?
    && (p.kind == Rows ==> parse(line).id == Some(item))
    && (p.kind == Logs ==> parse(line).itemId == Some(item))
    && (parse(line).runId == Some(run) || (parse(line).runId == None && run == item + "#1"))
  }

  /** The text of a deletion key, as manifests are read. */
  function KeyText(k: DeleteClosure.Key): string { k.workflow + "\0" + k.date + "\0" + k.id + "\0" + k.run }

  function Texts(keys: set<DeleteClosure.Key>): set<string> { set k | k in keys :: KeyText(k) }

  function KeyAt(p: Path, item: string, run: string): DeleteClosure.Key
    requires p.Source?
  {
    DeleteClosure.Key(p.workflow, p.date, item, run)
  }

  predicate PlainKey(k: DeleteClosure.Key) { NoNul(k.workflow) && NoNul(k.date) && NoNul(k.id) }

  /** The keys and every item the line could belong to hold no NUL, so a joined key can be taken apart again. */
  predicate Plain(parse: Parser, p: Path, line: bytes)
    requires p.Source?
  {
    && NoNul(p.workflow) && NoNul(p.date)
    && (parse(line).Fields? && parse(line).id.Some? ==> NoNul(parse(line).id.value))
    && (parse(line).Fields? && parse(line).itemId.Some? ==> NoNul(parse(line).itemId.value))
  }

  /** Compaction has a key for exactly the lines that belong to some run; it refuses a file with any other. */
  lemma KeyedExactly(parse: Parser, p: Path, line: bytes)
    requires p.Source?
    ensures KeyOf(parse, p, line).Some? <==> exists item, run :: IsOfRun(parse, p, line, item, run)
  {
    if KeyOf(parse, p, line).Some? {
      var f := parse(line);
      var item := if p.kind == Rows then f.id.value else f.itemId.value;
      assert IsOfRun(parse, p, line, item, if f.runId.Some? then f.runId.value else item + "#1");
    }
  }

  lemma KeyOfRun(parse: Parser, p: Path, line: bytes, item: string, run: string)
    requires p.Source? && IsOfRun(parse, p, line, item, run)
    ensures KeyOf(parse, p, line) == Some(KeyText(KeyAt(p, item, run)))
  {
  }

  lemma TextsApart(a: DeleteClosure.Key, b: DeleteClosure.Key)
    requires PlainKey(a) && PlainKey(b) && KeyText(a) == KeyText(b)
    ensures a == b
  {
    var a', b' := a.date + "\0" + a.id + "\0" + a.run, b.date + "\0" + b.id + "\0" + b.run;
    assert KeyText(a) == a.workflow + "\0" + a' && KeyText(b) == b.workflow + "\0" + b';
    CutAtNul(a.workflow, a', b.workflow, b');
    assert a' == a.date + "\0" + (a.id + "\0" + a.run) && b' == b.date + "\0" + (b.id + "\0" + b.run);
    CutAtNul(a.date, a.id + "\0" + a.run, b.date, b.id + "\0" + b.run);
    CutAtNul(a.id, a.run, b.id, b.run);
  }

  /** Two lines share a key exactly when they are of one run of one item, in logs of one workflow and date. */
  lemma SameKeyExactly(parse: Parser, p: Path, line: bytes, item: string, run: string,
                       p': Path, line': bytes, item': string, run': string)
    requires p.Source? && p'.Source? && Plain(parse, p, line) && Plain(parse, p', line')
    requires IsOfRun(parse, p, line, item, run) && IsOfRun(parse, p', line', item', run')
    ensures KeyOf(parse, p, line) == KeyOf(parse, p', line')
       <==> p.workflow == p'.workflow && p.date == p'.date && item == item' && run == run'
  {
    KeyOfRun(parse, p, line, item, run);
    KeyOfRun(parse, p', line', item', run');
    if KeyOf(parse, p, line) == KeyOf(parse, p', line') {
      TextsApart(KeyAt(p, item, run), KeyAt(p', item', run'));
    }
  }

  // ---- What a set of deletions removes ----

  ghost predicate IsDeleted(parse: Parser, p: Path, keys: set<DeleteClosure.Key>, line: bytes)
    requires p.Source?
  {
    exists item, run :: IsOfRun(parse, p, line, item, run) && KeyAt(p, item, run) in keys
  }

  lemma TombstonedExactly(parse: Parser, p: Path, line: bytes, keys: set<DeleteClosure.Key>)
    requires p.Source? && Plain(parse, p, line) && forall k :: k in keys ==> PlainKey(k)
    ensures Tombstoned(parse, p, line, Texts(keys)) <==> IsDeleted(parse, p, keys, line)
  {
    if Tombstoned(parse, p, line, Texts(keys)) {
      KeyedExactly(parse, p, line);
      var item, run :| IsOfRun(parse, p, line, item, run);
      KeyOfRun(parse, p, line, item, run);
      var k :| k in keys && KeyText(k) == KeyText(KeyAt(p, item, run));
      TextsApart(k, KeyAt(p, item, run));
    }
    if IsDeleted(parse, p, keys, line) {
      var item, run :| IsOfRun(parse, p, line, item, run) && KeyAt(p, item, run) in keys;
      KeyOfRun(parse, p, line, item, run);
    }
  }

  ghost function Kept(parse: Parser, p: Path, keys: set<DeleteClosure.Key>): bytes -> bool
    requires p.Source?
  {
    line => !IsDeleted(parse, p, keys, line)
  }

  lemma {:induction false} VisibleIsKept(parse: Parser, p: Path, ls: seq<bytes>, keys: set<DeleteClosure.Key>)
    requires p.Source? && (forall l :: l in ls ==> Plain(parse, p, l)) && forall k :: k in keys ==> PlainKey(k)
    ensures Visible(parse, p, ls, Texts(keys)) == Filter(Kept(parse, p, keys), ls)
    decreases |ls|
  {
    if ls != [] {
      var front, last := ls[..|ls| - 1], ls[|ls| - 1];
      assert ls == front + [last];
      VisibleIsKept(parse, p, front, keys);
      TombstonedExactly(parse, p, last, keys);
      var one: seq<bytes> := [last];
      VisibleAppend(parse, p, front, one, Texts(keys));
      assert one[1..] == [];
    }
  }

  /** Main result: compaction with a set of deletions leaves the lines of all other runs, in order, and no others. */
  lemma CompactionRemovesExactly(parse: Parser, p: Path, original: bytes, keys: set<DeleteClosure.Key>)
    requires p.Source? && (forall l :: l in LinesOf(original) ==> Plain(parse, p, l))
    requires forall k :: k in keys ==> PlainKey(k)
    ensures LinesOf(CompactedBytes(parse, p, original, Texts(keys)))
         == Filter(Kept(parse, p, keys), LinesOf(original))
  {
    VisibleIsKept(parse, p, LinesOf(original), keys);
    var kept := Filter(Kept(parse, p, keys), LinesOf(original));
    forall l | l in kept
      ensures l in LinesOf(original)
    {
      FilterHas(Kept(parse, p, keys), LinesOf(original), l);
    }
    JoinLines(kept);
  }

  /** The deletion of one run removes that run's lines from the log of its workflow and date, and nothing elsewhere. */
  lemma OneRunRemoved(parse: Parser, p: Path, original: bytes, k: DeleteClosure.Key, line: bytes)
    requires p.Source? && PlainKey(k) && forall l :: l in LinesOf(original) ==> Plain(parse, p, l)
    ensures line in LinesOf(CompactedBytes(parse, p, original, Texts({k})))
       <==> line in LinesOf(original)
            && !(p.workflow == k.workflow && p.date == k.date && IsOfRun(parse, p, line, k.id, k.run))
  {
    CompactionRemovesExactly(parse, p, original, {k});
    FilterHas(Kept(parse, p, {k}), LinesOf(original), line);
    if p.workflow == k.workflow && p.date == k.date && IsOfRun(parse, p, line, k.id, k.run) {
      assert KeyAt(p, k.id, k.run) in {k};
    }
  }

  /** The line is in the log of the target's workflow and date, and of its run. */
  predicate IsLineOf(parse: Parser, p: Path, line: bytes, x: DeleteClosure.DeleteTarget)
    requires p.Source?
  {
    p.workflow == x.workflow && p.date == x.date && x.runId.Some? && IsOfRun(parse, p, line, x.id, x.runId.value)
  }

  lemma HiddenIsDeleted(parse: Parser, p: Path, hidden: set<DeleteClosure.Key>, line: bytes,
                        x: DeleteClosure.DeleteTarget)
    requires p.Source? && IsLineOf(parse, p, line, x) && exists k :: k in hidden && DeleteClosure.IsKeyOf(k, x)
    ensures IsDeleted(parse, p, hidden, line)
  {
    var k :| k in hidden && DeleteClosure.IsKeyOf(k, x);
    assert k == KeyAt(p, x.id, x.runId.value);
    assert IsOfRun(parse, p, line, x.id, x.runId.value);
  }

  /** None of the lines is of a run the request hides. */
  ghost predicate NoLineOf(parse: Parser, p: Path, s: DeleteClosure.Sources, req: DeleteClosure.DeleteTarget,
                           ls: seq<bytes>)
    requires p.Source?
  {
    forall x, line :: DeleteClosure.HidesRun(s, req, x) && IsLineOf(parse, p, line, x) ==> line !in ls
  }

  lemma HiddenLinesGone(parse: Parser, p: Path, s: DeleteClosure.Sources, req: DeleteClosure.DeleteTarget,
                        hidden: set<DeleteClosure.Key>, ls: seq<bytes>)
    requires p.Source? && DeleteClosure.AllHidden(s, req, hidden)
    ensures NoLineOf(parse, p, s, req, Filter(Kept(parse, p, hidden), ls))
  {
    forall x, line | DeleteClosure.HidesRun(s, req, x) && IsLineOf(parse, p, line, x)
      ensures line !in Filter(Kept(parse, p, hidden), ls)
    {
      HiddenIsDeleted(parse, p, hidden, line, x);
      FilterHas(Kept(parse, p, hidden), ls, line);
    }
  }

  /** Main result: a delete goes through, and the rows compaction then writes are those of the runs nobody hid. */
  method DeleteThenCompact(deletions: DeleteClosure.Deletions, req: DeleteClosure.DeleteTarget,
                           tracker: Compaction.Tracker, p: Path, raw: bytes)
    returns (o: DeleteClosure.Outcome, done: bool, compacted: bytes)
    requires p.Source? && forall l :: l in LinesOf(raw) ==> Plain(tracker.parse, p, l)
    modifies deletions
    ensures done && (forall k :: k in deletions.hidden ==> PlainKey(k)) ==>
      LinesOf(compacted) == Filter(Kept(tracker.parse, p, deletions.hidden), LinesOf(raw))
    ensures done && o.Deleted? && (forall k :: k in deletions.hidden ==> PlainKey(k)) ==>
      NoLineOf(tracker.parse, p, deletions.sources, req, LinesOf(compacted))
  {
    o := deletions.DeleteEntry(req);
    var made;
    made, compacted := tracker.CompactedRowsForFile(p, raw, Texts(deletions.hidden));
    done := made.Done?;
    if forall k :: k in deletions.hidden ==> PlainKey(k) {
      CompactionRemovesExactly(tracker.parse, p, raw, deletions.hidden);
      if o.Deleted? {
        HiddenLinesGone(tracker.parse, p, deletions.sources, req, deletions.hidden, LinesOf(raw));
      }
    }
  }
}
