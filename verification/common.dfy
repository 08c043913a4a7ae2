/** Vocabulary every part of the model uses. */
module Common {
  type byte = b: int | 0 <= b <= 255
  type bytes = seq<byte>

  datatype Option<T> = None | Some(value: T)

  /** No element twice. */
  predicate Distinct<T(==)>(s: seq<T>) { forall i, j :: 0 <= i < j < |s| ==> s[i] != s[j] }

  lemma Regroup<T>(a: seq<T>, b: seq<T>, c: seq<T>)
    ensures a + (b + c) == (a + b) + c
  {
  }

  function CountWhere<T>(keep: T -> bool, s: seq<T>): (n: nat)
    ensures n <= |s|
  {
    if s == [] then 0 else CountWhere(keep, s[..|s| - 1]) + (if keep(s[|s| - 1]) then 1 else 0)
  }

  lemma {:induction false} CountsAgree<A, B>(p: A -> bool, xs: seq<A>, q: B -> bool, ys: seq<B>)
    requires |xs| == |ys| && forall i :: 0 <= i < |xs| ==> (p(xs[i]) <==> q(ys[i]))
    ensures CountWhere(p, xs) == CountWhere(q, ys)
    decreases |xs|
  {
    if xs != [] {
      CountsAgree(p, xs[..|xs| - 1], q, ys[..|ys| - 1]);
    }
  }

  lemma CountWhereSnoc<T>(keep: T -> bool, s: seq<T>, i: nat)
    requires i < |s|
    ensures CountWhere(keep, s[..i + 1]) == CountWhere(keep, s[..i]) + (if keep(s[i]) then 1 else 0)
  {
    assert s[..i + 1][..i] == s[..i];
  }

  lemma {:induction false} CountWhereAppend<T>(keep: T -> bool, a: seq<T>, b: seq<T>)
    ensures CountWhere(keep, a + b) == CountWhere(keep, a) + CountWhere(keep, b)
    decreases |b|
  {
    if b == [] {
      assert a + b == a;
    } else {
      assert (a + b)[..|a + b| - 1] == a + b[..|b| - 1];
      CountWhereAppend(keep, a, b[..|b| - 1]);
    }
  }

  lemma {:induction false} CountPositive<T(!new)>(keep: T -> bool, s: seq<T>)
    ensures CountWhere(keep, s) > 0 <==> exists x :: x in s && keep(x)
    decreases |s|
  {
    if s != [] {
      var front := s[..|s| - 1];
      CountPositive(keep, front);
      assert s == front + [s[|s| - 1]];
    }
  }

  lemma {:induction false} SmallerSet<T>(a: set<T>, b: set<T>)
    requires a <= b
    ensures |a| <= |b|
  {
    if a != {} {
      var x :| x in a;
      SmallerSet(a - {x}, b - {x});
    }
  }

  // ---- Keys joined with NUL ----

  predicate NoNul(s: string) { '\0' !in s }

  lemma {:induction false} CutAtNul(x: string, y: string, x': string, y': string)
    requires NoNul(x) && NoNul(x') && x + "\0" + y == x' + "\0" + y'
    ensures x == x' && y == y'
  {
    NotShorter(x, y, x', y');
    NotShorter(x', y', x, y);
    var s := x + "\0" + y;
    assert x == s[..|x|] && x' == s[..|x'|];
    assert y == s[|x| + 1..] && y' == s[|x'| + 1..];
  }

  lemma NotShorter(x: string, y: string, x': string, y': string)
    requires NoNul(x') && x + "\0" + y == x' + "\0" + y'
    ensures |x| >= |x'|
  {
    assert (x + "\0" + y)[|x|] == '\0';
  }
}
