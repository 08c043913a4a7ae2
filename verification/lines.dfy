/** Newline-delimited byte files: how the tracker splits them, what a complete
    line is, and how the two behave when bytes are appended at the end. */
module Lines {
  import opened Common

  const NL: byte := 10

  predicate NoNewline(b: bytes) { NL !in b }

  /** First position of a newline, or the length when there is none. */
  function FirstNewline(b: bytes): (i: nat)
    ensures i <= |b|
    ensures NoNewline(b[..i])
    ensures i < |b| ==> b[i] == NL
  {
    if b == [] || b[0] == NL then 0 else 1 + FirstNewline(b[1..])
  }

  /** JavaScript's `split("\n")`: always at least one segment, the last one unterminated. */
  function Split(b: bytes): (segments: seq<bytes>)
    ensures |segments| >= 1
    ensures forall s :: s in segments ==> NoNewline(s)
  {
    var i := FirstNewline(b);
    if i == |b| then [b] else [b[..i]] + Split(b[i + 1..])
  }

  function NonEmpty(segments: seq<bytes>): (kept: seq<bytes>)
    ensures forall s :: s in kept ==> s != [] && s in segments
  {
    if segments == [] then []
    else (if segments[0] == [] then [] else [segments[0]]) + NonEmpty(segments[1..])
  }

  function DropLast<T>(s: seq<T>): seq<T>
    requires s != []
  {
    s[..|s| - 1]
  }

  function Last<T>(s: seq<T>): T
    requires s != []
  {
    s[|s| - 1]
  }

  /** The non-empty newline-terminated lines of a file. */
  function LinesOf(b: bytes): (ls: seq<bytes>)
    ensures forall l :: l in ls ==> l != [] && NoNewline(l)
  {
    NonEmpty(DropLast(Split(b)))
  }

  /** The bytes after the last newline. */
  function Tail(b: bytes): (t: bytes)
    ensures NoNewline(t)
  {
    Last(Split(b))
  }

  /** The bytes up to and including the last newline. */
  function Complete(b: bytes): (c: bytes)
    ensures c <= b
    decreases |b|
  {
    if b == [] || b[|b| - 1] == NL then b else Complete(b[..|b| - 1])
  }

  predicate IsComplete(b: bytes) { b == [] || b[|b| - 1] == NL }

  /** The file holding exactly these lines, each newline-terminated. */
  function Join(ls: seq<bytes>): bytes {
    if ls == [] then [] else ls[0] + [NL] + Join(ls[1..])
  }

  lemma {:induction false} FirstNewlineAt(x: bytes, y: bytes)
    requires NoNewline(x)
    ensures FirstNewline(x + [NL] + y) == |x|
  {
    if x != [] {
      assert (x + [NL] + y)[1..] == x[1..] + [NL] + y;
      FirstNewlineAt(x[1..], y);
    }
  }

  lemma {:induction false} SplitNoNewline(x: bytes)
    requires NoNewline(x)
    ensures Split(x) == [x]
  {
    assert FirstNewline(x) == |x| by { NoFirstNewline(x); }
  }

  lemma {:induction false} NoFirstNewline(x: bytes)
    requires NoNewline(x)
    ensures FirstNewline(x) == |x|
  {
    if x != [] {
      NoFirstNewline(x[1..]);
    }
  }

  lemma SplitCons(x: bytes, y: bytes)
    requires NoNewline(x)
    ensures Split(x + [NL] + y) == [x] + Split(y)
  {
    FirstNewlineAt(x, y);
    var z := x + [NL] + y;
    assert z[..|x|] == x && z[|x| + 1..] == y;
  }

  lemma RegroupTail(h: bytes, r: bytes, y: bytes)
    ensures (h + [NL] + r) + y == h + [NL] + (r + y)
  {
  }

  lemma FrontDrop(h: bytes, rest: seq<bytes>, more: seq<bytes>)
    requires rest != []
    ensures DropLast([h] + rest) == [h] + DropLast(rest)
    ensures DropLast([h] + rest) + more == [h] + (DropLast(rest) + more)
    ensures Last([h] + rest) == Last(rest)
  {
  }

  /** Appending bytes only continues the unterminated last segment: the law
      behind every incremental reader and every append of the tracker. */
  lemma {:induction false} SplitAppend(x: bytes, y: bytes)
    ensures Split(x + y) == DropLast(Split(x)) + Split(Tail(x) + y)
    decreases |x|
  {
    var i := FirstNewline(x);
    if i == |x| {
      assert DropLast(Split(x)) == [];
    } else {
      var h, r := x[..i], x[i + 1..];
      assert x == h + [NL] + r;
      RegroupTail(h, r, y);
      SplitCons(h, r + y);
      SplitAppend(r, y);
      FrontDrop(h, Split(r), Split(Tail(r) + y));
    }
  }

  lemma {:induction false} NonEmptyAppend(a: seq<bytes>, b: seq<bytes>)
    ensures NonEmpty(a + b) == NonEmpty(a) + NonEmpty(b)
  {
    if a == [] {
      assert a + b == b;
    } else {
      assert (a + b)[1..] == a[1..] + b;
      NonEmptyAppend(a[1..], b);
    }
  }

  /** Lines of an appended file: the old lines, then those the old tail and the new bytes form. */
  lemma {:induction false} LinesAppend(x: bytes, y: bytes)
    ensures LinesOf(x + y) == LinesOf(x) + LinesOf(Tail(x) + y)
    ensures Tail(x + y) == Tail(Tail(x) + y)
  {
    SplitAppend(x, y);
    var a, b := DropLast(Split(x)), Split(Tail(x) + y);
    assert DropLast(a + b) == a + DropLast(b);
    NonEmptyAppend(a, DropLast(b));
  }

  lemma {:induction false} TerminatedHasNoTail(x: bytes)
    ensures Tail(x + [NL]) == []
  {
    SplitAppend(x, [NL]);
    assert Tail(x) + [NL] == Tail(x) + [NL] + [];
    SplitCons(Tail(x), []);
    SplitNoNewline([]);
  }

  lemma {:induction false} SplitGrowTail(x: bytes, y: bytes)
    requires NoNewline(y)
    ensures DropLast(Split(x + y)) == DropLast(Split(x)) && Tail(x + y) == Tail(x) + y
  {
    SplitAppend(x, y);
    SplitNoNewline(Tail(x) + y);
  }

  lemma {:induction false} CompleteSnoc(x: bytes, c: byte)
    ensures Complete(x + [c]) == if c == NL then x + [c] else Complete(x)
  {
    assert (x + [c])[..|x|] == x;
  }

  lemma {:induction false} LinesGrowTail(x: bytes, c: byte)
    requires c != NL
    ensures LinesOf(x + [c]) == LinesOf(x) && Tail(x + [c]) == Tail(x) + [c]
  {
    SplitGrowTail(x, [c]);
  }

  /** A file is its complete part followed by its tail, and the lines are those of the complete part. */
  lemma {:induction false} CompleteTail(b: bytes)
    ensures b == Complete(b) + Tail(b)
    ensures IsComplete(Complete(b))
    ensures Tail(Complete(b)) == []
    ensures LinesOf(Complete(b)) == LinesOf(b)
    decreases |b|
  {
    if b == [] {
      SplitNoNewline(b);
    } else {
      var x, c := b[..|b| - 1], b[|b| - 1];
      assert b == x + [c];
      CompleteSnoc(x, c);
      if c == NL {
        TerminatedHasNoTail(x);
      } else {
        CompleteTail(x);
        LinesGrowTail(x, c);
      }
    }
  }

  lemma {:induction false} CompleteHasNoTail(b: bytes)
    requires IsComplete(b)
    ensures Tail(b) == [] && Complete(b) == b
  {
    CompleteTail(b);
  }

  /** Appending after a complete file just concatenates the lines. */
  lemma {:induction false} LinesAppendComplete(x: bytes, y: bytes)
    requires IsComplete(x)
    ensures LinesOf(x + y) == LinesOf(x) + LinesOf(y)
    ensures Tail(x + y) == Tail(y)
  {
    CompleteHasNoTail(x);
    LinesAppend(x, y);
    assert [] + y == y;
  }

  predicate LineList(ls: seq<bytes>) {
    forall l :: l in ls ==> l != [] && NoNewline(l)
  }

  lemma NonEmptyCons(h: bytes, rest: seq<bytes>)
    requires h != []
    ensures NonEmpty([h] + rest) == [h] + NonEmpty(rest)
  {
    assert ([h] + rest)[1..] == rest;
  }

  lemma CompleteConcat(x: bytes, y: bytes)
    requires IsComplete(x) && IsComplete(y)
    ensures IsComplete(x + y)
  {
    assert y == [] ==> x + y == x;
  }

  lemma {:induction false} JoinLines(ls: seq<bytes>)
    requires LineList(ls)
    ensures LinesOf(Join(ls)) == ls
    ensures IsComplete(Join(ls))
  {
    if ls == [] {
      SplitNoNewline([]);
    } else {
      var h, r := ls[0], Join(ls[1..]);
      JoinLines(ls[1..]);
      SplitCons(h, r);
      FrontDrop(h, Split(r), []);
      NonEmptyCons(h, DropLast(Split(r)));
      assert ls == [h] + ls[1..];
      CompleteConcat(h + [NL], r);
    }
  }

  lemma {:induction false} JoinAppend(a: seq<bytes>, b: seq<bytes>)
    ensures Join(a + b) == Join(a) + Join(b)
  {
    if a == [] {
      assert a + b == b;
    } else {
      assert (a + b)[1..] == a[1..] + b;
      JoinAppend(a[1..], b);
    }
  }
}
