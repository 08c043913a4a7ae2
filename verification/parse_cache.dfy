/** The parse cache of the JSONL readers: what it holds after any run of reads and file changes, and which reads of a
    run are current. */
module ParseCache {
  import opened Common
  import opened Lines

  const PARSE_CACHE_MAX: nat := 64

  /** A parsed line; `value` stands for whatever `JSON.parse` made of it. */
  datatype Row = Row(lineNum: nat, value: string)

  type Parser = bytes -> Option<string>

  /** The caller's `validate`, if it passes one. */
  type Guard = Option<Row -> bool>

  datatype File = File(mtime: int, content: bytes) {
    function Stamp(): (int, int) { (mtime, |content|) }
  }

  datatype Cached = Cached(path: string, stamp: (int, int), rows: seq<Row>)

  datatype Result = Rows(rows: seq<Row>) | Thrown

  /** Non-empty segments that parse, with their line numbers counted from 1. */
  function ParseFrom(parse: Parser, segments: seq<bytes>, at: nat): seq<Row> {
    if segments == [] then []
    else
      (if segments[0] != [] && parse(segments[0]).Some? then [Row(at + 1, parse(segments[0]).value)] else [])
      + ParseFrom(parse, segments[1..], at + 1)
  }

  predicate HasMalformed(parse: Parser, segments: seq<bytes>) {
    exists i :: 0 <= i < |segments| && segments[i] != [] && parse(segments[i]).None?
  }

  function Parsed(parse: Parser, content: bytes): seq<Row> { ParseFrom(parse, Split(content), 0) }

  /** Rows a guard lets through; no guard lets all through. */
  function Kept(rows: seq<Row>, validate: Guard): seq<Row> {
    if rows == [] then []
    else (if validate.Some? && !validate.value(rows[0]) then [] else [rows[0]]) + Kept(rows[1..], validate)
  }

  function Entry(parse: Parser, path: string, f: File): Cached { Cached(path, f.Stamp(), Parsed(parse, f.content)) }

  /** What parsing the file now gives; only an unguarded parse minds a malformed line. */
  function ParseNow(parse: Parser, f: File, validate: Guard): Result {
    if validate.None? && HasMalformed(parse, Split(f.content)) then Thrown
    else Rows(Kept(Parsed(parse, f.content), validate))
  }

  // ---- What a reading is, line by line ----

  /** The row of a line: numbered from 1, not empty, and valid JSON. */
  predicate IsLineRow(parse: Parser, segments: seq<bytes>, row: Row) {
    0 < row.lineNum <= |segments| && segments[row.lineNum - 1] != []
      && parse(segments[row.lineNum - 1]) == Some(row.value)
  }

  predicate InLineOrder(rows: seq<Row>) { forall i, j :: 0 <= i < j < |rows| ==> rows[i].lineNum < rows[j].lineNum }

  /** A malformed line fails a reading without a guard. Any other gives the rows of the valid lines in file order, but
      for those the guard turns down. */
  ghost predicate IsReading(parse: Parser, content: bytes, validate: Guard, r: Result) {
    var lines := Split(content);
    && (r.Thrown? <==>
          validate.None? && exists i :: 0 <= i < |lines| && lines[i] != [] && parse(lines[i]).None?)
    && (r.Rows? ==> InLineOrder(r.rows))
    && (r.Rows? ==> forall row :: row in r.rows <==>
          IsLineRow(parse, lines, row) && (validate.Some? ==> validate.value(row)))
  }

  predicate IsRowFrom(parse: Parser, segments: seq<bytes>, at: nat, row: Row) {
    at < row.lineNum <= at + |segments| && segments[row.lineNum - 1 - at] != []
      && parse(segments[row.lineNum - 1 - at]) == Some(row.value)
  }

  lemma {:induction false} ParseFromIs(parse: Parser, segments: seq<bytes>, at: nat)
    ensures InLineOrder(ParseFrom(parse, segments, at))
    ensures forall row :: row in ParseFrom(parse, segments, at) <==> IsRowFrom(parse, segments, at, row)
  {
    if segments != [] {
      var rest := ParseFrom(parse, segments[1..], at + 1);
      ParseFromIs(parse, segments[1..], at + 1);
      forall row
        ensures IsRowFrom(parse, segments, at, row) <==>
          (segments[0] != [] && Some(row.value) == parse(segments[0]) && row.lineNum == at + 1)
            || IsRowFrom(parse, segments[1..], at + 1, row)
      {
        assert row.lineNum > at + 1 && row.lineNum <= at + |segments| ==>
          segments[row.lineNum - 1 - at] == segments[1..][row.lineNum - 2 - at];
      }
      forall j | 0 <= j < |rest|
        ensures rest[j].lineNum > at + 1
      {
        assert rest[j] in rest;
      }
    }
  }

  lemma {:induction false} KeptIs(rows: seq<Row>, validate: Guard)
    requires InLineOrder(rows)
    ensures InLineOrder(Kept(rows, validate))
    ensures forall row :: row in Kept(rows, validate) <==> row in rows && (validate.Some? ==> validate.value(row))
  {
    if rows != [] {
      var rest := Kept(rows[1..], validate);
      KeptIs(rows[1..], validate);
      assert forall row :: row in rows <==> row == rows[0] || row in rows[1..];
      forall j | 0 <= j < |rest|
        ensures rest[j].lineNum > rows[0].lineNum
      {
        assert rest[j] in rows[1..];
      }
    }
  }

  lemma ParseNowIsReading(parse: Parser, f: File, validate: Guard)
    ensures IsReading(parse, f.content, validate, ParseNow(parse, f, validate))
  {
    ParseFromIs(parse, Split(f.content), 0);
    KeptIs(Parsed(parse, f.content), validate);
  }

  /** The stamp tells two versions apart by their time and their size. */
  lemma StampMeans(f: File, g: File)
    ensures f.Stamp() == g.Stamp() <==> f.mtime == g.mtime && |f.content| == |g.content|
  {
  }

  // ---- The Map: insertion order is recency ----

  /** `map.delete(path)`. */
  function Removed(entries: seq<Cached>, path: string): seq<Cached> {
    if entries == [] then [] else (if entries[0].path == path then [] else [entries[0]]) + Removed(entries[1..], path)
  }

  /** Delete, set again, and drop the first entry when there are too many. */
  function Touched(entries: seq<Cached>, e: Cached): seq<Cached> { Newest(Removed(entries, e.path) + [e]) }

  /** The last entries, as many as the cache holds. */
  function Newest(entries: seq<Cached>): seq<Cached> {
    if |entries| > PARSE_CACHE_MAX then entries[|entries| - PARSE_CACHE_MAX..] else entries
  }

  function Find(entries: seq<Cached>, path: string): (r: Option<Cached>)
    ensures r.Some? ==> r.value in entries && r.value.path == path
    ensures r.None? ==> forall c :: c in entries ==> c.path != path
  {
    if entries == [] then None else if entries[0].path == path then Some(entries[0]) else Find(entries[1..], path)
  }

  predicate Hit(entries: seq<Cached>, path: string, f: File) {
    Find(entries, path).Some? && Find(entries, path).value.stamp == f.Stamp()
  }

  /** One read: its answer and the cache it leaves. */
  function Read(parse: Parser, entries: seq<Cached>, path: string, file: Option<File>, validate: Guard)
    : (Result, seq<Cached>)
  {
    if file.None? then (Rows([]), entries)
    else if Hit(entries, path, file.value) then
      var e := Find(entries, path).value;
      (Rows(Kept(e.rows, validate)), Touched(entries, e))
    else if ParseNow(parse, file.value, validate).Thrown? then (Thrown, entries)
    else (ParseNow(parse, file.value, validate), Touched(entries, Entry(parse, path, file.value)))
  }

  // ---- Runs ----

  /** A file is written or removed, or somebody reads it. */
  datatype Event = Change(path: string, file: Option<File>) | Look(path: string, validate: Guard)

  /** The file as the run left it. */
  function FileAt(run: seq<Event>, path: string): Option<File>
    decreases |run|
  {
    if run == [] then None
    else
      var last := run[|run| - 1];
      if last.Change? && last.path == path then last.file else FileAt(run[..|run| - 1], path)
  }

  function CacheAfter(parse: Parser, run: seq<Event>): seq<Cached>
    decreases |run|
  {
    if run == [] then []
    else
      var front, last := run[..|run| - 1], run[|run| - 1];
      if last.Change? then CacheAfter(parse, front)
      else Read(parse, CacheAfter(parse, front), last.path, FileAt(front, last.path), last.validate).1
  }

  /** What a read at the end of the run is told, and what it should be told. */
  function Answer(parse: Parser, run: seq<Event>, path: string, validate: Guard): Result {
    Read(parse, CacheAfter(parse, run), path, FileAt(run, path), validate).0
  }

  function Truth(parse: Parser, run: seq<Event>, path: string, validate: Guard): Result {
    if FileAt(run, path).None? then Rows([]) else ParseNow(parse, FileAt(run, path).value, validate)
  }

  // ---- The history a cache keeps ----

  /** A path that was read, and the version of its file that was parsed for it last. */
  datatype Seen = Seen(path: string, version: File)

  function Without(seen: seq<Seen>, path: string): seq<Seen> {
    if seen == [] then [] else (if seen[0].path == path then [] else [seen[0]]) + Without(seen[1..], path)
  }

  function VersionOf(seen: seq<Seen>, path: string): Option<File> {
    if seen == [] then None else if seen[0].path == path then Some(seen[0].version) else VersionOf(seen[1..], path)
  }

  /** The paths read most lately, and no more of them than the cache holds. */
  function Recent(seen: seq<Seen>): seq<Seen> {
    if |seen| > PARSE_CACHE_MAX then seen[|seen| - PARSE_CACHE_MAX..] else seen
  }

  /** The version a reader would still find: parsed for the path last, and fewer than 64 other paths read since. */
  function StillHeld(seen: seq<Seen>, path: string): Option<File> { VersionOf(Recent(seen), path) }

  predicate Returns(held: Option<File>, f: File) { held.Some? && held.value.Stamp() == f.Stamp() }

  function Served(held: Option<File>, f: File): File { if Returns(held, f) then held.value else f }

  /** A read that has to parse, and may not skip the line that is no JSON. */
  predicate Throws(parse: Parser, held: Option<File>, f: File, validate: Guard) {
    !Returns(held, f) && ParseNow(parse, f, validate).Thrown?
  }

  function ReadAgain(parse: Parser, seen: seq<Seen>, path: string, f: File, validate: Guard): seq<Seen> {
    var held := StillHeld(seen, path);
    if Throws(parse, held, f, validate) then seen else Without(seen, path) + [Seen(path, Served(held, f))]
  }

  /** Every path ever read, by when it was read last; nothing is ever evicted here. */
  function History(parse: Parser, run: seq<Event>): seq<Seen>
    decreases |run|
  {
    if run == [] then []
    else
      var front, last := run[..|run| - 1], run[|run| - 1];
      var file := FileAt(front, last.path);
      if last.Change? || file.None? then History(parse, front)
      else ReadAgain(parse, History(parse, front), last.path, file.value, last.validate)
  }

  // ---- The cache refines the history ----

  function EntryOf(parse: Parser): Seen -> Cached { (s: Seen) => Entry(parse, s.path, s.version) }

  function Entries(parse: Parser, seen: seq<Seen>): (r: seq<Cached>)
    ensures |r| == |seen| && forall i :: 0 <= i < |r| ==> r[i] == EntryOf(parse)(seen[i])
  {
    seq(|seen|, i requires 0 <= i < |seen| => EntryOf(parse)(seen[i]))
  }

  predicate PathsDistinct(seen: seq<Seen>) { forall i, j :: 0 <= i < j < |seen| ==> seen[i].path != seen[j].path }

  lemma {:induction false} WithoutAppend(a: seq<Seen>, b: seq<Seen>, path: string)
    ensures Without(a + b, path) == Without(a, path) + Without(b, path)
  {
    if a == [] {
      assert a + b == b;
    } else {
      assert (a + b)[1..] == a[1..] + b;
      WithoutAppend(a[1..], b, path);
    }
  }

  lemma {:induction false} WithoutAbsent(seen: seq<Seen>, path: string)
    requires forall i :: 0 <= i < |seen| ==> seen[i].path != path
    ensures Without(seen, path) == seen
  {
    if seen != [] {
      WithoutAbsent(seen[1..], path);
    }
  }

  lemma {:induction false} WithoutHas(seen: seq<Seen>, path: string, s: Seen)
    ensures s in Without(seen, path) <==> s in seen && s.path != path
  {
    if seen != [] {
      WithoutHas(seen[1..], path, s);
      assert s in seen <==> s == seen[0] || s in seen[1..];
    }
  }

  lemma {:induction false} WithoutKeeps(seen: seq<Seen>, path: string)
    requires PathsDistinct(seen)
    ensures PathsDistinct(Without(seen, path))
  {
    if seen != [] {
      var head, rest := seen[0], Without(seen[1..], path);
      WithoutKeeps(seen[1..], path);
      forall k | 0 <= k < |rest|
        ensures rest[k].path != head.path
      {
        WithoutHas(seen[1..], path, rest[k]);
        var m :| 0 <= m < |seen| - 1 && seen[m + 1] == rest[k];
      }
    }
  }

  lemma ReadAgainDistinct(parse: Parser, seen: seq<Seen>, path: string, f: File, validate: Guard)
    requires PathsDistinct(seen)
    ensures PathsDistinct(ReadAgain(parse, seen, path, f, validate))
  {
    WithoutKeeps(seen, path);
    var kept := Without(seen, path);
    forall k | 0 <= k < |kept|
      ensures kept[k].path != path
    {
      WithoutHas(seen, path, kept[k]);
    }
  }

  lemma {:induction false} WithoutOne(seen: seq<Seen>, path: string, k: nat)
    requires PathsDistinct(seen) && k < |seen| && seen[k].path == path
    ensures Without(seen, path) == seen[..k] + seen[k + 1..]
  {
    if k == 0 {
      WithoutAbsent(seen[1..], path);
    } else {
      WithoutOne(seen[1..], path, k - 1);
      assert seen[1..][..k - 1] == seen[1..k] && seen[1..][k..] == seen[k + 1..];
    }
  }

  /** Forgetting what fell out before makes no difference to what is held after the next read. */
  lemma RecentTwice(seen: seq<Seen>, path: string, x: Seen)
    requires PathsDistinct(seen)
    ensures Recent(Without(Recent(seen), path) + [x]) == Recent(Without(seen, path) + [x])
  {
    if |seen| > PARSE_CACHE_MAX {
      var cut := |seen| - PARSE_CACHE_MAX;
      var gone, kept := seen[..cut], seen[cut..];
      assert seen == gone + kept;
      WithoutAppend(gone, kept, path);
      if k :| 0 <= k < |kept| && kept[k].path == path {
        OldIsAbsent(seen, cut, k);
        WithoutAbsent(gone, path);
        WithoutOne(kept, path, k);
        KnownMovesUp(gone, Without(kept, path), x);
      } else {
        WithoutAbsent(kept, path);
        NewPushesOut(Without(gone, path), kept, x);
      }
    }
  }

  lemma KnownMovesUp(gone: seq<Seen>, others: seq<Seen>, x: Seen)
    requires |others| == PARSE_CACHE_MAX - 1
    ensures Recent(gone + others + [x]) == Recent(others + [x])
  {
    assert gone + others + [x] == gone + (others + [x]);
    SuffixStays(gone, others + [x]);
  }

  lemma NewPushesOut(gone: seq<Seen>, kept: seq<Seen>, x: Seen)
    requires |kept| == PARSE_CACHE_MAX
    ensures Recent(gone + kept + [x]) == Recent(kept + [x])
  {
    assert gone + kept + [x] == (gone + [kept[0]]) + (kept[1..] + [x]);
    assert kept + [x] == [kept[0]] + (kept[1..] + [x]);
    SuffixStays(gone + [kept[0]], kept[1..] + [x]);
    SuffixStays([kept[0]], kept[1..] + [x]);
  }

  lemma OldIsAbsent(seen: seq<Seen>, cut: nat, k: nat)
    requires PathsDistinct(seen) && cut + k < |seen|
    ensures forall i :: 0 <= i < |seen[..cut]| ==> seen[..cut][i].path != seen[cut..][k].path
  {
    assert seen[cut..][k] == seen[cut + k];
  }

  lemma SuffixStays(a: seq<Seen>, b: seq<Seen>)
    requires |b| == PARSE_CACHE_MAX
    ensures Recent(a + b) == b
  {
  }

  // ---- Entries mirror the history ----

  lemma EntriesSplit(parse: Parser, a: seq<Seen>, b: seq<Seen>)
    ensures Entries(parse, a + b) == Entries(parse, a) + Entries(parse, b)
  {
  }

  lemma {:induction false} EntriesRemoved(parse: Parser, seen: seq<Seen>, path: string)
    ensures Removed(Entries(parse, seen), path) == Entries(parse, Without(seen, path))
  {
    if seen != [] {
      assert Entries(parse, seen)[1..] == Entries(parse, seen[1..]);
      EntriesRemoved(parse, seen[1..], path);
      EntriesSplit(parse, if seen[0].path == path then [] else [seen[0]], Without(seen[1..], path));
    }
  }

  lemma {:induction false} EntriesFound(parse: Parser, seen: seq<Seen>, path: string)
    ensures Find(Entries(parse, seen), path)
         == if VersionOf(seen, path).None? then None else Some(Entry(parse, path, VersionOf(seen, path).value))
  {
    if seen != [] {
      assert Entries(parse, seen)[1..] == Entries(parse, seen[1..]);
      EntriesFound(parse, seen[1..], path);
    }
  }

  lemma EntriesTouched(parse: Parser, seen: seq<Seen>, path: string, v: File)
    requires PathsDistinct(seen)
    ensures Touched(Entries(parse, Recent(seen)), Entry(parse, path, v))
         == Entries(parse, Recent(Without(seen, path) + [Seen(path, v)]))
  {
    var x := Seen(path, v);
    EntriesRemoved(parse, Recent(seen), path);
    EntriesSplit(parse, Without(Recent(seen), path), [x]);
    assert Entries(parse, [x]) == [Entry(parse, path, v)];
    EntriesNewest(parse, Without(Recent(seen), path) + [x]);
    RecentTwice(seen, path, x);
  }

  lemma EntriesNewest(parse: Parser, seen: seq<Seen>)
    ensures Newest(Entries(parse, seen)) == Entries(parse, Recent(seen))
  {
  }

  lemma ReadFollows(parse: Parser, seen: seq<Seen>, path: string, f: File, validate: Guard)
    requires PathsDistinct(seen)
    ensures var held := StillHeld(seen, path);
      Read(parse, Entries(parse, Recent(seen)), path, Some(f), validate)
        == (if Throws(parse, held, f, validate) then Thrown
            else Rows(Kept(Parsed(parse, Served(held, f).content), validate)),
            Entries(parse, Recent(ReadAgain(parse, seen, path, f, validate))))
  {
    EntriesFound(parse, Recent(seen), path);
    EntriesTouched(parse, seen, path, Served(StillHeld(seen, path), f));
  }

  /** Main result: the bounded cache is the unbounded history cut to the 64 paths read last, each with the version
      parsed for it last: least recently read goes first, and nothing else does. */
  lemma {:induction false} CacheIsHistory(parse: Parser, run: seq<Event>)
    ensures PathsDistinct(History(parse, run))
    ensures CacheAfter(parse, run) == Entries(parse, Recent(History(parse, run)))
    decreases |run|
  {
    if run != [] {
      var front, last := run[..|run| - 1], run[|run| - 1];
      CacheIsHistory(parse, front);
      if last.Look? && FileAt(front, last.path).Some? {
        ReadFollows(parse, History(parse, front), last.path, FileAt(front, last.path).value, last.validate);
        ReadAgainDistinct(parse, History(parse, front), last.path, FileAt(front, last.path).value, last.validate);
      }
    }
  }

  // ---- What is held, by the reads of the run ----

  /** The k-th event is a read that found a file and did not throw. */
  predicate Reads(parse: Parser, run: seq<Event>, k: nat) {
    k < |run| && run[k].Look? && FileAt(run[..k], run[k].path).Some?
      && Answer(parse, run[..k], run[k].path, run[k].validate) != Thrown
  }

  function ReadsOf(parse: Parser, run: seq<Event>): (looks: set<nat>)
    ensures forall k :: k in looks ==> k < |run|
  {
    set k: nat | k < |run| && Reads(parse, run, k)
  }

  /** Of these reads the last one of the path. */
  predicate LastIn(looks: set<nat>, run: seq<Event>, path: string, k: nat) {
    k in looks && k < |run| && run[k].path == path
      && forall j :: j in looks && k < j < |run| ==> run[j].path != path
  }

  /** The paths read after it. */
  function ReadSince(looks: set<nat>, run: seq<Event>, k: nat): set<string> {
    set j | j in looks && k < j < |run| :: run[j].path
  }

  predicate IsListed(seen: seq<Seen>, path: string) { exists i :: 0 <= i < |seen| && seen[i].path == path }

  /** The history lists the paths read, each by its last read. */
  predicate ByLastRead(looks: set<nat>, run: seq<Event>, seen: seq<Seen>, at: seq<nat>) {
    && |at| == |seen| && (forall i, j :: 0 <= i < j < |at| ==> at[i] < at[j])
    && (forall i :: 0 <= i < |seen| ==> LastIn(looks, run, seen[i].path, at[i]))
    && (forall k :: k in looks && k < |run| ==> IsListed(seen, run[k].path))
  }

  lemma ReadsEarlier(parse: Parser, run: seq<Event>)
    requires run != []
    ensures var n := |run| - 1;
      ReadsOf(parse, run) == ReadsOf(parse, run[..n]) + if Reads(parse, run, n) then {n} else {}
  {
    var n := |run| - 1;
    forall k: nat | k < n
      ensures Reads(parse, run, k) <==> Reads(parse, run[..n], k)
    {
      assert run[..n][..k] == run[..k];
    }
  }

  /** The last event was no read. */
  lemma NotRead(looks: set<nat>, run: seq<Event>, e: Event, seen: seq<Seen>, at: seq<nat>)
    requires ByLastRead(looks, run, seen, at) && forall k :: k in looks ==> k < |run|
    ensures ByLastRead(looks, run + [e], seen, at)
  {
    forall i | 0 <= i < |seen|
      ensures LastIn(looks, run + [e], seen[i].path, at[i])
    {
      assert LastIn(looks, run, seen[i].path, at[i]);
    }
  }

  /** The entries of the other paths, and where they were read last. */
  lemma WithoutAt(seen: seq<Seen>, at: seq<nat>, path: string) returns (left: seq<nat>)
    requires PathsDistinct(seen) && |at| == |seen| && forall i, j :: 0 <= i < j < |at| ==> at[i] < at[j]
    ensures |left| == |Without(seen, path)| && forall i, j :: 0 <= i < j < |left| ==> left[i] < left[j]
    ensures forall i :: 0 <= i < |left| ==>
      exists m :: 0 <= m < |seen| && seen[m] == Without(seen, path)[i] && at[m] == left[i]
  {
    if m :| 0 <= m < |seen| && seen[m].path == path {
      WithoutOne(seen, path, m);
      left := at[..m] + at[m + 1..];
      forall i | 0 <= i < |left|
        ensures exists m :: 0 <= m < |seen| && seen[m] == Without(seen, path)[i] && at[m] == left[i]
      {
        var from := if i < m then i else i + 1;
        assert seen[from] == Without(seen, path)[i] && at[from] == left[i];
      }
    } else {
      WithoutAbsent(seen, path);
      left := at;
    }
  }

  lemma OthersStay(looks: set<nat>, run: seq<Event>, e: Event, path: string, k: nat)
    requires LastIn(looks, run, path, k) && e.path != path
    ensures LastIn(looks + {|run|}, run + [e], path, k)
  {
  }

  lemma ReadAdded(looks: set<nat>, run: seq<Event>, e: Event, seen: seq<Seen>, at: seq<nat>, x: Seen)
    returns (next: seq<nat>)
    requires PathsDistinct(seen) && ByLastRead(looks, run, seen, at) && x.path == e.path
    requires forall k :: k in looks ==> k < |run|
    ensures ByLastRead(looks + {|run|}, run + [e], Without(seen, e.path) + [x], next)
  {
    var others := Without(seen, e.path);
    var left := WithoutAt(seen, at, e.path);
    next := left + [|run|];
    forall i | 0 <= i < |others|
      ensures LastIn(looks + {|run|}, run + [e], others[i].path, left[i]) && left[i] < |run|
    {
      var m :| 0 <= m < |seen| && seen[m] == others[i] && at[m] == left[i];
      assert LastIn(looks, run, seen[m].path, at[m]);
      WithoutHas(seen, e.path, others[i]);
      OthersStay(looks, run, e, others[i].path, left[i]);
    }
    forall k | k in looks + {|run|} && k < |run + [e]|
      ensures IsListed(others + [x], (run + [e])[k].path)
    {
      StaysListed(seen, (run + [e])[k].path, x);
    }
  }

  lemma StaysListed(seen: seq<Seen>, path: string, x: Seen)
    ensures IsListed(seen, path) || path == x.path ==> IsListed(Without(seen, x.path) + [x], path)
  {
    var others := Without(seen, x.path);
    if path == x.path {
      assert (others + [x])[|others|].path == path;
    } else if IsListed(seen, path) {
      var m :| 0 <= m < |seen| && seen[m].path == path;
      WithoutHas(seen, x.path, seen[m]);
      var i :| 0 <= i < |others| && others[i] == seen[m];
      assert (others + [x])[i].path == path;
    }
  }

  /** The last event is a read exactly if it found a file and did not throw. */
  lemma LastReads(parse: Parser, run: seq<Event>, e: Event)
    ensures Reads(parse, run + [e], |run|) <==>
      && e.Look? && FileAt(run, e.path).Some?
      && !Throws(parse, StillHeld(History(parse, run), e.path), FileAt(run, e.path).value, e.validate)
  {
    assert (run + [e])[..|run|] == run;
    CacheIsHistory(parse, run);
    if e.Look? && FileAt(run, e.path).Some? {
      ReadFollows(parse, History(parse, run), e.path, FileAt(run, e.path).value, e.validate);
    }
  }

  lemma ReadsOfMore(parse: Parser, run: seq<Event>, e: Event)
    ensures ReadsOf(parse, run + [e])
         == ReadsOf(parse, run) + if Reads(parse, run + [e], |run|) then {|run|} else {}
  {
    assert (run + [e])[..|run|] == run;
    ReadsEarlier(parse, run + [e]);
  }

  lemma HistoryMore(parse: Parser, run: seq<Event>, e: Event, at: seq<nat>) returns (next: seq<nat>)
    requires ByLastRead(ReadsOf(parse, run), run, History(parse, run), at)
    ensures ByLastRead(ReadsOf(parse, run + [e]), run + [e], History(parse, run + [e]), next)
  {
    var seen := History(parse, run);
    Snoc(parse, run, e, e.path);
    CacheIsHistory(parse, run);
    LastReads(parse, run, e);
    ReadsOfMore(parse, run, e);
    if Reads(parse, run + [e], |run|) {
      var x := Seen(e.path, Served(StillHeld(seen, e.path), FileAt(run, e.path).value));
      next := ReadAdded(ReadsOf(parse, run), run, e, seen, at, x);
    } else {
      NotRead(ReadsOf(parse, run), run, e, seen, at);
      next := at;
    }
  }

  lemma {:induction false} HistoryByReads(parse: Parser, run: seq<Event>) returns (at: seq<nat>)
    ensures ByLastRead(ReadsOf(parse, run), run, History(parse, run), at)
    decreases |run|
  {
    if run == [] {
      at := [];
    } else {
      var front, last := run[..|run| - 1], run[|run| - 1];
      assert run == front + [last];
      var before := HistoryByReads(parse, front);
      at := HistoryMore(parse, front, last, before);
    }
  }

  lemma {:induction false} PathsCount(seen: seq<Seen>, i: nat)
    requires PathsDistinct(seen) && i <= |seen|
    ensures |(set j | i <= j < |seen| :: seen[j].path)| == |seen| - i
    decreases |seen| - i
  {
    var paths := set j | i <= j < |seen| :: seen[j].path;
    if i < |seen| {
      var rest := set j | i + 1 <= j < |seen| :: seen[j].path;
      PathsCount(seen, i + 1);
      assert paths == rest + {seen[i].path};
      assert seen[i].path !in rest;
    } else {
      assert paths == {};
    }
  }

  lemma SinceIs(looks: set<nat>, run: seq<Event>, seen: seq<Seen>, at: seq<nat>, i: nat)
    requires ByLastRead(looks, run, seen, at) && i < |seen|
    ensures ReadSince(looks, run, at[i]) == set j | i + 1 <= j < |seen| :: seen[j].path
  {
    var later := set j | i + 1 <= j < |seen| :: seen[j].path;
    assert LastIn(looks, run, seen[i].path, at[i]);
    forall path | path in ReadSince(looks, run, at[i])
      ensures path in later
    {
      var k :| k in looks && at[i] < k < |run| && run[k].path == path;
      var m :| 0 <= m < |seen| && seen[m].path == path;
      assert LastIn(looks, run, seen[m].path, at[m]);
      assert k <= at[m];
    }
    forall path | path in later
      ensures path in ReadSince(looks, run, at[i])
    {
      var j :| i + 1 <= j < |seen| && seen[j].path == path;
      assert LastIn(looks, run, seen[j].path, at[j]);
    }
  }

  lemma {:induction false} VersionOfHas(seen: seq<Seen>, path: string)
    ensures VersionOf(seen, path).Some? <==> IsListed(seen, path)
  {
    if seen != [] {
      VersionOfHas(seen[1..], path);
      if IsListed(seen, path) {
        var i :| 0 <= i < |seen| && seen[i].path == path;
        assert i > 0 ==> seen[1..][i - 1].path == path;
      }
      if IsListed(seen[1..], path) {
        var i :| 0 <= i < |seen| - 1 && seen[1..][i].path == path;
        assert seen[i + 1].path == path;
      }
    }
  }

  /** The place in the history at which the path is held. */
  lemma HeldAt(seen: seq<Seen>, path: string)
    ensures StillHeld(seen, path).Some? <==> exists i :: 0 <= i < |seen| && |seen| - i <= 64 && seen[i].path == path
  {
    var kept := Recent(seen);
    var cut := |seen| - |kept|;
    VersionOfHas(kept, path);
    if IsListed(kept, path) {
      var i :| 0 <= i < |kept| && kept[i].path == path;
      assert seen[cut + i].path == path;
    }
    if i :| 0 <= i < |seen| && |seen| - i <= 64 && seen[i].path == path {
      assert kept[i - cut] == seen[i];
    }
  }

  lemma PlaceOf(looks: set<nat>, run: seq<Event>, seen: seq<Seen>, at: seq<nat>, path: string, k: nat)
    returns (i: nat)
    requires ByLastRead(looks, run, seen, at) && LastIn(looks, run, path, k)
    ensures i < |seen| && seen[i].path == path && at[i] == k
  {
    assert IsListed(seen, run[k].path);
    i :| i < |seen| && seen[i].path == run[k].path;
    assert LastIn(looks, run, seen[i].path, at[i]);
  }

  lemma HeldByReads(looks: set<nat>, run: seq<Event>, seen: seq<Seen>, at: seq<nat>, path: string)
    requires ByLastRead(looks, run, seen, at) && PathsDistinct(seen)
    ensures StillHeld(seen, path).Some? <==>
      exists k: nat :: LastIn(looks, run, path, k) && |ReadSince(looks, run, k)| < 64
  {
    HeldAt(seen, path);
    if i :| 0 <= i < |seen| && |seen| - i <= 64 && seen[i].path == path {
      SinceIs(looks, run, seen, at, i);
      PathsCount(seen, i + 1);
      assert LastIn(looks, run, path, at[i]);
    }
    if k: nat :| LastIn(looks, run, path, k) && |ReadSince(looks, run, k)| < 64 {
      var i := PlaceOf(looks, run, seen, at, path, k);
      SinceIs(looks, run, seen, at, i);
      PathsCount(seen, i + 1);
    }
  }

  /** Main result: a file that was read is held exactly as long as fewer than 64 others have been read since. */
  lemma HeldExactly(parse: Parser, run: seq<Event>, path: string)
    ensures StillHeld(History(parse, run), path).Some? <==>
      exists k: nat :: LastIn(ReadsOf(parse, run), run, path, k) && |ReadSince(ReadsOf(parse, run), run, k)| < 64
  {
    var at := HistoryByReads(parse, run);
    CacheIsHistory(parse, run);
    HeldByReads(ReadsOf(parse, run), run, History(parse, run), at, path);
  }

  // ---- Which reads are current ----

  /** A stamp came back while its entry was still held, and what was parsed then is not what parsing now would give. */
  predicate Misled(parse: Parser, run: seq<Event>, path: string, validate: Guard) {
    var held, file := StillHeld(History(parse, run), path), FileAt(run, path);
    file.Some? && Returns(held, file.value)
    && Rows(Kept(Parsed(parse, held.value.content), validate)) != ParseNow(parse, file.value, validate)
  }

  lemma {:induction false} ReadIsCurrent(parse: Parser, run: seq<Event>, path: string, validate: Guard)
    ensures Answer(parse, run, path, validate) == Truth(parse, run, path, validate) <==>
      !Misled(parse, run, path, validate)
  {
    CacheIsHistory(parse, run);
    var file := FileAt(run, path);
    if file.Some? {
      ReadFollows(parse, History(parse, run), path, file.value, validate);
    }
  }

  predicate Current(parse: Parser, run: seq<Event>, k: nat)
    requires k < |run| && run[k].Look?
  {
    Answer(parse, run[..k], run[k].path, run[k].validate) == Truth(parse, run[..k], run[k].path, run[k].validate)
  }

  /** Main result: every read of a run is current exactly when no read meets a returned stamp whose held version reads
      otherwise. Guarded or not: an unguarded read that should have thrown counts as misled. */
  lemma {:induction false} RunIsCurrentExactly(parse: Parser, run: seq<Event>)
    ensures (forall k: nat :: k < |run| && run[k].Look? ==> Current(parse, run, k))
       <==> (forall k: nat :: k < |run| && run[k].Look? ==> !Misled(parse, run[..k], run[k].path, run[k].validate))
  {
    forall k: nat | k < |run| && run[k].Look?
      ensures Current(parse, run, k) <==> !Misled(parse, run[..k], run[k].path, run[k].validate)
    {
      ReadIsCurrent(parse, run[..k], run[k].path, run[k].validate);
    }
  }

  // ---- When stamps tell versions apart ----

  predicate IsVersion(run: seq<Event>, path: string, f: File) {
    exists k :: 0 <= k < |run| && run[k] == Change(path, Some(f))
  }

  /** No stamp of a path ever stands for two contents. */
  ghost predicate StampsTell(run: seq<Event>) {
    forall path, f, g :: IsVersion(run, path, f) && IsVersion(run, path, g) && f.Stamp() == g.Stamp() ==>
      f.content == g.content
  }

  lemma VersionStays(run: seq<Event>, e: Event, path: string, f: File)
    requires IsVersion(run, path, f)
    ensures IsVersion(run + [e], path, f)
  {
    var k :| 0 <= k < |run| && run[k] == Change(path, Some(f));
    assert (run + [e])[k] == run[k];
  }

  lemma {:induction false} FileIsVersion(run: seq<Event>, path: string)
    requires FileAt(run, path).Some?
    ensures IsVersion(run, path, FileAt(run, path).value)
    decreases |run|
  {
    var front, last := run[..|run| - 1], run[|run| - 1];
    if last.Change? && last.path == path {
      assert run[|run| - 1] == Change(path, Some(FileAt(run, path).value));
    } else {
      FileIsVersion(front, path);
      VersionStays(front, last, path, FileAt(run, path).value);
      assert front + [last] == run;
    }
  }

  ghost predicate AllVersions(run: seq<Event>, seen: seq<Seen>) {
    forall i :: 0 <= i < |seen| ==> IsVersion(run, seen[i].path, seen[i].version)
  }

  lemma {:induction false} HeldIsSeen(seen: seq<Seen>, path: string)
    requires VersionOf(seen, path).Some?
    ensures exists i :: 0 <= i < |seen| && seen[i] == Seen(path, VersionOf(seen, path).value)
  {
    if seen[0].path == path {
      assert seen[0] == Seen(path, VersionOf(seen, path).value);
    } else {
      HeldIsSeen(seen[1..], path);
      var i :| 0 <= i < |seen[1..]| && seen[1..][i] == Seen(path, VersionOf(seen, path).value);
      assert seen[i + 1] == seen[1..][i];
    }
  }

  lemma HeldIsVersion(run: seq<Event>, seen: seq<Seen>, path: string)
    requires AllVersions(run, seen) && StillHeld(seen, path).Some?
    ensures IsVersion(run, path, StillHeld(seen, path).value)
  {
    HeldIsSeen(Recent(seen), path);
    var i :| 0 <= i < |Recent(seen)| && Recent(seen)[i] == Seen(path, StillHeld(seen, path).value);
    assert Recent(seen)[i] in seen;
  }

  lemma ReadAgainVersions(parse: Parser, run: seq<Event>, seen: seq<Seen>, path: string, f: File, validate: Guard)
    requires AllVersions(run, seen) && IsVersion(run, path, f)
    ensures AllVersions(run, ReadAgain(parse, seen, path, f, validate))
  {
    if StillHeld(seen, path).Some? {
      HeldIsVersion(run, seen, path);
    }
    KeptVersions(run, seen, path);
  }

  lemma KeptVersions(run: seq<Event>, seen: seq<Seen>, path: string)
    requires AllVersions(run, seen)
    ensures AllVersions(run, Without(seen, path))
  {
    var kept := Without(seen, path);
    forall i | 0 <= i < |kept|
      ensures IsVersion(run, kept[i].path, kept[i].version)
    {
      WithoutHas(seen, path, kept[i]);
      var k :| 0 <= k < |seen| && seen[k] == kept[i];
    }
  }

  lemma {:induction false} SeenAreVersions(parse: Parser, run: seq<Event>)
    ensures AllVersions(run, History(parse, run))
    decreases |run|
  {
    if run != [] {
      var front, last := run[..|run| - 1], run[|run| - 1];
      SeenAreVersions(parse, front);
      assert front + [last] == run;
      SeenStep(parse, front, last);
    }
  }

  lemma SeenStep(parse: Parser, run: seq<Event>, e: Event)
    requires AllVersions(run, History(parse, run))
    ensures AllVersions(run + [e], History(parse, run + [e]))
  {
    Snoc(parse, run, e, e.path);
    VersionsStay(run, e, History(parse, run));
    if e.Look? && FileAt(run, e.path).Some? {
      FileIsVersion(run, e.path);
      VersionStays(run, e, e.path, FileAt(run, e.path).value);
      ReadAgainVersions(parse, run + [e], History(parse, run), e.path, FileAt(run, e.path).value, e.validate);
    }
  }

  lemma VersionsStay(run: seq<Event>, e: Event, seen: seq<Seen>)
    requires AllVersions(run, seen)
    ensures AllVersions(run + [e], seen)
  {
    forall i | 0 <= i < |seen|
      ensures IsVersion(run + [e], seen[i].path, seen[i].version)
    {
      VersionStays(run, e, seen[i].path, seen[i].version);
    }
  }

  /** A guarded read is current whenever no stamp of its path came back with other contents. */
  lemma GuardedIsCurrent(parse: Parser, run: seq<Event>, path: string, validate: Guard)
    requires validate.Some? && StampsTell(run)
    ensures Answer(parse, run, path, validate) == Truth(parse, run, path, validate)
  {
    ReadIsCurrent(parse, run, path, validate);
    var held, file := StillHeld(History(parse, run), path), FileAt(run, path);
    if file.Some? && Returns(held, file.value) {
      SeenAreVersions(parse, run);
      HeldIsVersion(run, History(parse, run), path);
      FileIsVersion(run, path);
    }
  }

  const LOG := "log"
  const FIRST := File(1, [49])
  const SECOND := File(2, [50, 50])
  const THIRD := File(1, [50])

  /** Each change alters the stamp, and the last read is stale: the first stamp came back with another digit in the
      file, and nobody had read the version in between. */
  lemma ReturningStampIsStale(parse: Parser, validate: Guard)
    requires parse([49]) == Some("1") && parse([50]) == Some("2") && (validate.Some? ==> forall r :: validate.value(r))
    ensures FIRST.Stamp() != SECOND.Stamp() && SECOND.Stamp() != THIRD.Stamp()
    ensures var run :=
      [Change(LOG, Some(FIRST)), Look(LOG, validate), Change(LOG, Some(SECOND)), Change(LOG, Some(THIRD))];
      && Answer(parse, run, LOG, validate) == Rows([Row(1, "1")])
      && Truth(parse, run, LOG, validate) == Rows([Row(1, "2")])
      && Misled(parse, run, LOG, validate) && !Current(parse, run + [Look(LOG, validate)], 4)
  {
    var run := [Change(LOG, Some(FIRST)), Look(LOG, validate), Change(LOG, Some(SECOND)), Change(LOG, Some(THIRD))];
    OneDigit(parse, 49, "1", validate);
    OneDigit(parse, 50, "2", validate);
    StaleHistory(parse, validate);
    CacheIsHistory(parse, run);
    ReadFollows(parse, [Seen(LOG, FIRST)], LOG, THIRD, validate);
    assert (run + [Look(LOG, validate)])[..4] == run;
  }

  lemma StaleHistory(parse: Parser, validate: Guard)
    requires !ParseNow(parse, FIRST, validate).Thrown?
    ensures var run :=
      [Change(LOG, Some(FIRST)), Look(LOG, validate), Change(LOG, Some(SECOND)), Change(LOG, Some(THIRD))];
      && History(parse, run) == [Seen(LOG, FIRST)] && FileAt(run, LOG) == Some(THIRD)
      && StillHeld([Seen(LOG, FIRST)], LOG) == Some(FIRST)
  {
    var r0: seq<Event>, r1: seq<Event> := [], [Change(LOG, Some(FIRST))];
    var r2 := r1 + [Look(LOG, validate)];
    var r3 := r2 + [Change(LOG, Some(SECOND))];
    assert History(parse, r1) == [] && FileAt(r1, LOG) == Some(FIRST) by {
      assert r0 + [Change(LOG, Some(FIRST))] == r1;
      Snoc(parse, r0, Change(LOG, Some(FIRST)), LOG);
    }
    FirstRead(parse, LOG, FIRST, validate);
    assert History(parse, r2) == [Seen(LOG, FIRST)] by { Snoc(parse, r1, Look(LOG, validate), LOG); }
    assert History(parse, r3) == [Seen(LOG, FIRST)] by { Snoc(parse, r2, Change(LOG, Some(SECOND)), LOG); }
    Snoc(parse, r3, Change(LOG, Some(THIRD)), LOG);
    assert r3 + [Change(LOG, Some(THIRD))]
        == [Change(LOG, Some(FIRST)), Look(LOG, validate), Change(LOG, Some(SECOND)), Change(LOG, Some(THIRD))];
  }

  lemma Snoc(parse: Parser, run: seq<Event>, e: Event, path: string)
    ensures FileAt(run + [e], path) == if e.Change? && e.path == path then e.file else FileAt(run, path)
    ensures History(parse, run + [e])
         == if e.Change? || FileAt(run, e.path).None? then History(parse, run)
            else ReadAgain(parse, History(parse, run), e.path, FileAt(run, e.path).value, e.validate)
  {
    assert (run + [e])[..|run|] == run;
  }

  lemma FirstRead(parse: Parser, path: string, f: File, validate: Guard)
    requires !ParseNow(parse, f, validate).Thrown?
    ensures var seen := ReadAgain(parse, [], path, f, validate);
      seen == [Seen(path, f)] && StillHeld(seen, path) == Some(f)
  {
    var none: seq<Seen> := [];
    assert Recent(none) == [] && Without(none, path) == [];
  }

  lemma OneDigit(parse: Parser, digit: byte, value: string, validate: Guard)
    requires digit != NL && parse([digit]) == Some(value) && (validate.Some? ==> forall r :: validate.value(r))
    ensures ParseNow(parse, File(1, [digit]), validate) == Rows([Row(1, value)])
    ensures Rows(Kept(Parsed(parse, [digit]), validate)) == Rows([Row(1, value)])
  {
    var segments: seq<bytes> := [[digit]];
    SplitNoNewline([digit]);
    assert Split([digit]) == segments && segments[1..] == [];
    assert ParseFrom(parse, segments, 0) == [Row(1, value)] + ParseFrom(parse, [], 1);
    var rows := [Row(1, value)];
    assert rows[1..] == [];
    assert Kept(rows, validate) == rows;
    assert !HasMalformed(parse, segments);
  }

  predicate IsRow(parse: Parser, segment: bytes) { segment != [] && parse(segment).Some? }

  lemma ParseStep(parse: Parser, segments: seq<bytes>, i: nat, rows: seq<Row>)
    requires i < |segments|
    ensures !IsRow(parse, segments[i]) ==>
      ParseFrom(parse, segments[i..], i) == ParseFrom(parse, segments[i + 1..], i + 1)
    ensures IsRow(parse, segments[i]) ==>
      rows + ParseFrom(parse, segments[i..], i)
      == rows + [Row(i + 1, parse(segments[i]).value)] + ParseFrom(parse, segments[i + 1..], i + 1)
  {
    assert segments[i..][0] == segments[i] && segments[i..][1..] == segments[i + 1..];
    if IsRow(parse, segments[i]) {
      Regroup(rows, [Row(i + 1, parse(segments[i]).value)], ParseFrom(parse, segments[i + 1..], i + 1));
    }
  }

  lemma MalformedStep(parse: Parser, segments: seq<bytes>, i: nat)
    requires i < |segments|
    ensures HasMalformed(parse, segments[..i + 1])
       <==> HasMalformed(parse, segments[..i]) || (segments[i] != [] && parse(segments[i]).None?)
  {
    assert segments[..i + 1] == segments[..i] + [segments[i]];
    if HasMalformed(parse, segments[..i]) {
      var k :| 0 <= k < i && segments[..i][k] != [] && parse(segments[..i][k]).None?;
      assert segments[..i + 1][k] == segments[..i][k];
    }
    assert segments[..i + 1][i] == segments[i];
  }

  // ---- The module's cache ----

  class Cache {
    const parse: Parser
    var entries: seq<Cached>
    ghost var run: seq<Event>

    ghost predicate Valid()
      reads this
    {
      entries == CacheAfter(parse, run)
    }

    constructor (parse: Parser)
      ensures Valid() && entries == [] && run == [] && this.parse == parse
    {
      this.parse, entries, run := parse, [], [];
    }

    /** Somebody writes or removes a file. */
    ghost method FileChanges(path: string, file: Option<File>)
      requires Valid()
      modifies this`run
      ensures Valid() && run == old(run) + [Change(path, file)]
    {
      assert (run + [Change(path, file)])[..|run|] == run;
      run := run + [Change(path, file)];
    }

    /** One read of the file as it is now; current unless its stamp misleads, and never more than 64 entries. */
    method ReadJsonlCached(path: string, file: Option<File>, validate: Guard) returns (r: Result)
      requires Valid() && file == FileAt(run, path)
      modifies this
      ensures Valid() && run == old(run) + [Look(path, validate)]
      ensures r == Answer(parse, old(run), path, validate)
      ensures r == Truth(parse, old(run), path, validate) <==> !Misled(parse, old(run), path, validate)
      ensures file.None? ==> r == Rows([]) && entries == old(entries)
      ensures file.Some? && !Misled(parse, old(run), path, validate) ==>
        IsReading(parse, file.value.content, validate, r)
      ensures |entries| <= 64
    {
      if file.Some? {
        ParseNowIsReading(parse, file.value, validate);
      }
      ReadIsCurrent(parse, run, path, validate);
      CacheIsHistory(parse, run + [Look(path, validate)]);
      assert (run + [Look(path, validate)])[..|run|] == run;
      run := run + [Look(path, validate)];
      if file.None? { return Rows([]); }
      var f := file.value;
      var cached := Find(entries, path);
      if cached.Some? && cached.value.stamp == f.Stamp() {
        entries := Touched(entries, cached.value);
        return Rows(Kept(cached.value.rows, validate));
      }
      var rows, malformed := ParseLines(Split(f.content));
      if malformed && validate.None? { return Thrown; }
      entries := Touched(entries, Cached(path, f.Stamp(), rows));
      r := Rows(Kept(rows, validate));
    }

    /** The parse loop: every non-empty segment that is JSON, and whether some was not. */
    method ParseLines(segments: seq<bytes>) returns (rows: seq<Row>, malformed: bool)
      ensures rows == ParseFrom(parse, segments, 0) && malformed == HasMalformed(parse, segments)
    {
      rows, malformed := [], false;
      for i := 0 to |segments|
        invariant rows + ParseFrom(parse, segments[i..], i) == ParseFrom(parse, segments, 0)
        invariant malformed == HasMalformed(parse, segments[..i])
      {
        ParseStep(parse, segments, i, rows);
        MalformedStep(parse, segments, i);
        if segments[i] == [] { continue; }
        var value := parse(segments[i]);
        if value.Some? {
          rows := rows + [Row(i + 1, value.value)];
        } else {
          malformed := true;
        }
      }
      assert segments[..|segments|] == segments;
    }
  }
}
