/** The incremental tailer: polls of a growing file give back exactly its complete lines, once each. */
module TailIncremental {
  import opened Common
  import opened Lines

  /** One `readSync`: some bytes, the end of the file, or an error. */
  datatype Read = Got(n: nat) | EndOfFile | Error

  datatype State = State(lastSize: nat, pending: bytes)

  const FRESH := State(0, [])

  /** The tail after reading `total` more bytes of the file, and the lines they complete. */
  function Advance(s: State, file: bytes, total: nat): (r: (State, seq<bytes>))
    requires s.lastSize + total <= |file|
  {
    var combined := s.pending + file[s.lastSize..s.lastSize + total];
    (State(s.lastSize + total, Tail(combined)), LinesOf(combined))
  }

  /** What a tailer knows of the bytes it has read. */
  predicate Holds(s: State, read: bytes) { s.lastSize == |read| && s.pending == Tail(read) }

  lemma AdvanceLaw(s: State, read: bytes, file: bytes, total: nat)
    requires Holds(s, read) && read <= file && s.lastSize + total <= |file|
    ensures var (s', lines) := Advance(s, file, total);
      Holds(s', file[..s'.lastSize]) && LinesOf(read) + lines == LinesOf(file[..s'.lastSize])
  {
    var more := file[s.lastSize..s.lastSize + total];
    assert file[..s.lastSize + total] == read + more;
    LinesAppend(read, more);
  }

  // ---- Any growth, any poll times ----

  /** A poll sees the file as it is then and gets `total` more bytes of it. */
  datatype Poll = Poll(file: bytes, total: nat)

  /** The file only grows from poll to poll, past what was read of it. */
  predicate Grows(read: bytes, polls: seq<Poll>)
    decreases |polls|
  {
    polls != [] ==> Extends(read, polls[0]) && Grows(ReadBy(read, polls[0]), polls[1..])
  }

  predicate Extends(read: bytes, p: Poll) { read <= p.file && |read| + p.total <= |p.file| }

  function ReadBy(read: bytes, p: Poll): bytes
    requires Extends(read, p)
  {
    p.file[..|read| + p.total]
  }

  function Polled(s: State, read: bytes, polls: seq<Poll>): (State, seq<bytes>)
    requires s.lastSize == |read| && Grows(read, polls)
    decreases |polls|
  {
    if polls == [] then (s, [])
    else
      var (s', lines) := Advance(s, polls[0].file, polls[0].total);
      var (end, more) := Polled(s', ReadBy(read, polls[0]), polls[1..]);
      (end, lines + more)
  }

  function AllRead(read: bytes, polls: seq<Poll>): bytes
    requires Grows(read, polls)
    decreases |polls|
  {
    if polls == [] then read else AllRead(ReadBy(read, polls[0]), polls[1..])
  }

  /** Main result: what the polls return, one after another, are the complete lines of the bytes read, each once and
      in order, and what is pending is the unfinished last line. */
  lemma {:induction false} PollsGiveTheLines(s: State, read: bytes, polls: seq<Poll>)
    requires Holds(s, read) && Grows(read, polls)
    ensures Holds(Polled(s, read, polls).0, AllRead(read, polls))
    ensures LinesOf(read) + Polled(s, read, polls).1 == LinesOf(AllRead(read, polls))
    decreases |polls|
  {
    if polls != [] {
      var p := polls[0];
      var (s', lines) := Advance(s, p.file, p.total);
      AdvanceLaw(s, read, p.file, p.total);
      PollsGiveTheLines(s', ReadBy(read, p), polls[1..]);
      Regroup(LinesOf(read), lines, Polled(s', ReadBy(read, p), polls[1..]).1);
    }
  }

  /** From a fresh start, reading everything there is. */
  lemma FreshPollsGiveTheLines(polls: seq<Poll>, file: bytes)
    requires Grows([], polls) && AllRead([], polls) == file
    ensures Polled(FRESH, [], polls) == (State(|file|, Tail(file)), LinesOf(file))
  {
    SplitNoNewline([]);
    PollsGiveTheLines(FRESH, [], polls);
    assert LinesOf([]) + Polled(FRESH, [], polls).1 == Polled(FRESH, [], polls).1;
  }

  // ---- The tailer ----

  /** A read gives at least one byte and at most what is left. */
  function Chunk(n: nat, left: nat): (k: nat)
    requires left > 0
    ensures 0 < k <= left
  {
    if 0 < n <= left then n else left
  }

  /** Bytes the reads add up to; the rest comes in one read when no more is said, and -1 stands for a thrown read. */
  function Total(wanted: nat, results: seq<Read>, got: nat): (total: int)
    requires got <= wanted
    ensures -1 <= total <= wanted
    ensures (forall i :: 0 <= i < |results| ==> results[i].Got?) ==> total == wanted
  {
    if got == wanted || results == [] then wanted
    else
      match results[0]
      case EndOfFile => got
      case Error => -1
      case Got(n) => Total(wanted, results[1..], got + Chunk(n, wanted - got))
  }

  function Granted(gots: seq<nat>): nat { if gots == [] then 0 else gots[0] + Granted(gots[1..]) }

  function Gots(gots: seq<nat>): seq<Read> { seq(|gots|, i requires 0 <= i < |gots| => Got(gots[i])) }

  /** Reads that give something but not all, and then the end of the file or an error: what was given before the end,
      and nothing at all after an error. */
  lemma {:induction false} CutShort(wanted: nat, gots: seq<nat>, end: Read, rest: seq<Read>, got: nat)
    requires got + Granted(gots) < wanted && (forall i :: 0 <= i < |gots| ==> gots[i] > 0)
    ensures end == EndOfFile ==> Total(wanted, Gots(gots) + [end] + rest, got) == got + Granted(gots)
    ensures end == Error ==> Total(wanted, Gots(gots) + [end] + rest, got) == -1
    decreases |gots|
  {
    var results := Gots(gots) + [end] + rest;
    if gots != [] {
      assert results[0] == Got(gots[0]) && results[1..] == Gots(gots[1..]) + [end] + rest;
      CutShort(wanted, gots[1..], end, rest, got + gots[0]);
    } else {
      assert results[0] == end;
    }
  }

  lemma TakenPrefix(read: bytes, c: bytes, n: nat)
    requires |read| + n <= |c|
    ensures n == 0 ==> read + c[|read|..|read| + n] == read
    ensures read <= c ==> read + c[|read|..|read| + n] == c[..|read| + n]
  {
  }

  /** So a poll takes up to the end that a read met, and an error leaves all of it for the next one. */
  lemma TakenCutShort(wanted: nat, gots: seq<nat>, rest: seq<Read>)
    requires Granted(gots) < wanted && (forall i :: 0 <= i < |gots| ==> gots[i] > 0)
    ensures Taken(wanted, true, Gots(gots) + [EndOfFile] + rest) == Granted(gots)
    ensures Taken(wanted, true, Gots(gots) + [Error] + rest) == 0
  {
    CutShort(wanted, gots, EndOfFile, rest, 0);
    CutShort(wanted, gots, Error, rest, 0);
  }

  /** What a poll takes of the new bytes: nothing when the file cannot be opened or a read throws. */
  function Taken(wanted: nat, opens: bool, results: seq<Read>): (n: nat)
    ensures n <= wanted
    ensures !opens ==> n == 0
    ensures opens && (forall i :: 0 <= i < |results| ==> results[i].Got?) ==> n == wanted
  {
    var total := if opens then Total(wanted, results, 0) else 0;
    if total < 0 then 0 else total
  }

  class Tailer {
    var lastSize: nat
    var pending: bytes
    ghost var read: bytes

    ghost predicate Valid()
      reads this
    {
      Holds(State(lastSize, pending), read)
    }

    constructor ()
      ensures Valid() && read == []
    {
      lastSize, pending, read := 0, [], [];
      new;
      SplitNoNewline([]);
    }

    /** One poll; `file` is None when it cannot be examined, and `results` are what its reads return. */
    method TailIncremental(file: Option<bytes>, opens: bool, results: seq<Read>) returns (lines: seq<bytes>)
      requires Valid()
      modifies this
      ensures Valid()
      ensures file.None? || !opens ==> lines == []
      ensures file.None? ==> read == old(read)
      ensures file.Some? && |old(read)| <= |file.value| && !opens ==> read == old(read)
      ensures file.Some? && |file.value| < |old(read)| ==> read == [] && lines == []
      ensures file.Some? && |old(read)| <= |file.value| ==>
        && read == old(read) + file.value[|old(read)|..|old(read)| + Taken(|file.value| - |old(read)|, opens, results)]
        && LinesOf(old(read)) + lines == LinesOf(read)
      ensures file.Some? && old(read) <= file.value ==> old(read) <= read <= file.value
    {
      if file.None? { return []; }
      var c := file.value;
      if |c| >= lastSize { TakenPrefix(read, c, Taken(|c| - lastSize, opens, results)); }
      if |c| < lastSize {
        lastSize, pending, read := 0, [], [];
        SplitNoNewline([]);
        return [];
      }
      if |c| == lastSize {
        assert LinesOf(read) + [] == LinesOf(read);
        return [];
      }
      var total := 0;
      if opens {
        total := ReadUpTo(|c| - lastSize, results);
      }
      if total <= 0 {
        assert LinesOf(read) + [] == LinesOf(read);
        return [];
      }
      lines := Take(c[lastSize..lastSize + total]);
    }

    /** Join the new bytes to the pending ones and keep the unfinished last line back. */
    method Take(chunk: bytes) returns (lines: seq<bytes>)
      requires Valid()
      modifies this
      ensures Valid() && read == old(read) + chunk && LinesOf(old(read)) + lines == LinesOf(read)
    {
      LinesAppend(read, chunk);
      var segments := Split(pending + chunk);
      read := read + chunk;
      lastSize := lastSize + |chunk|;
      pending := Last(segments);
      lines := NonEmpty(DropLast(segments));
    }

    /** The read loop: how many bytes were got; -1 when a read threw, which leaves everything as it was. */
    method ReadUpTo(wanted: nat, results: seq<Read>) returns (total: int)
      ensures total == Total(wanted, results, 0)
    {
      total := 0;
      var next := 0;
      while total < wanted
        invariant 0 <= total <= wanted && 0 <= next <= |results|
        invariant Total(wanted, results, 0) == Total(wanted, results[next..], total)
        decreases wanted - total
      {
        if next == |results| {
          return wanted;
        }
        assert results[next..][0] == results[next] && results[next..][1..] == results[next + 1..];
        match results[next] {
          case EndOfFile => return;
          case Error => return -1;
          case Got(n) => total := total + Chunk(n, wanted - total);
        }
        next := next + 1;
      }
    }
  }
}
