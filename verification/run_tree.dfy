/** Walking parent links that may form cycles: reachability, and the worklist that computes it. */
module RunTree {
  import opened Common

  /** The run ids directly below a run id. */
  type Links = string -> seq<string>

  /** A chain of links from one of the roots. */
  ghost predicate IsChain(next: Links, roots: seq<string>, p: seq<string>) {
    p != [] && p[0] in roots && forall i :: 0 <= i < |p| - 1 ==> p[i + 1] in next(p[i])
  }

  ghost predicate Reached(next: Links, roots: seq<string>, x: string) {
    exists p :: IsChain(next, roots, p) && p[|p| - 1] == x
  }

  lemma RootReached(next: Links, roots: seq<string>, x: string)
    requires x in roots
    ensures Reached(next, roots, x)
  {
    var p: seq<string> := [x];
    assert IsChain(next, roots, p) && p[|p| - 1] == x;
  }

  lemma LinkReached(next: Links, roots: seq<string>, x: string, y: string)
    requires Reached(next, roots, x) && y in next(x)
    ensures Reached(next, roots, y)
  {
    var p :| IsChain(next, roots, p) && p[|p| - 1] == x;
    var q := p + [y];
    forall i | 0 <= i < |q| - 1
      ensures q[i + 1] in next(q[i])
    {
      if i < |p| - 1 {
        assert p[i + 1] in next(p[i]);
      }
    }
    assert IsChain(next, roots, q) && q[|q| - 1] == y;
  }

  /** Fewer links reach no more. */
  lemma ReachedMonotone(f: Links, g: Links, roots: seq<string>, x: string)
    requires Reached(f, roots, x) && forall a, b :: b in f(a) ==> b in g(a)
    ensures Reached(g, roots, x)
  {
    var p :| IsChain(f, roots, p) && p[|p| - 1] == x;
    assert IsChain(g, roots, p);
  }

  /** A closed collection that holds the roots holds everything reached. */
  ghost predicate Closed(next: Links, s: seq<string>) {
    forall x, y :: x in s && y in next(x) ==> y in s
  }

  lemma {:induction false} ClosedHoldsChain(next: Links, roots: seq<string>, s: seq<string>, p: seq<string>)
    requires Closed(next, s) && (forall r :: r in roots ==> r in s) && IsChain(next, roots, p)
    ensures p[|p| - 1] in s
    decreases |p|
  {
    if |p| > 1 {
      var q := p[..|p| - 1];
      forall i | 0 <= i < |q| - 1
        ensures q[i + 1] in next(q[i])
      {
        assert p[i + 1] in next(p[i]);
      }
      ClosedHoldsChain(next, roots, s, q);
      assert p[|p| - 2 + 1] in next(p[|p| - 2]);
    }
  }

  lemma {:induction false} ClosedHoldsReached(next: Links, roots: seq<string>, s: seq<string>, x: string)
    requires Closed(next, s) && (forall r :: r in roots ==> r in s) && Reached(next, roots, x)
    ensures x in s
  {
    var p :| IsChain(next, roots, p) && p[|p| - 1] == x;
    ClosedHoldsChain(next, roots, s, p);
  }

  // ---- The worklist ----

  function Ids<R>(rows: seq<R>, idOf: R -> string): (ids: seq<string>)
    ensures |ids| == |rows| && forall i :: 0 <= i < |rows| ==> ids[i] == idOf(rows[i])
  {
    seq(|rows|, i requires 0 <= i < |rows| => idOf(rows[i]))
  }

  /** Links given by a query for the rows under a run id; nothing is ever looked up under the empty id. */
  function LinksOf<R>(under: string -> seq<R>, idOf: R -> string): Links {
    x => if x == "" then [] else Ids(under(x), idOf)
  }

  lemma LinksAt<R>(under: string -> seq<R>, idOf: R -> string, x: string)
    ensures LinksOf(under, idOf)(x) == if x == "" then [] else Ids(under(x), idOf)
  {
  }

  /** The rows found under each of these run ids, in order. */
  function Gather<R>(under: string -> seq<R>, parents: seq<string>): seq<R>
    decreases |parents|
  {
    if parents == [] then [] else Gather(under, parents[..|parents| - 1]) + under(parents[|parents| - 1])
  }

  ghost predicate WithinUniverse<R(!new)>(under: string -> seq<R>, idOf: R -> string, universe: set<string>) {
    forall x, r :: r in under(x) ==> idOf(r) in universe
  }

  /** What the worklist keeps: everything in hand is reached, and nothing reached is lost. */
  ghost predicate Worklist(next: Links, roots: seq<string>, visited: seq<string>, queue: seq<string>) {
    && Distinct(visited) && "" !in visited
    && (forall x :: x in visited || x in queue ==> Reached(next, roots, x))
    && (forall r :: r in roots && r != "" ==> r in visited || r in queue)
    && (forall x, y :: x in visited && y in next(x) && y != "" ==> y in visited || y in queue)
  }

  lemma SkipKeeps(next: Links, roots: seq<string>, visited: seq<string>, queue: seq<string>)
    requires queue != [] && Worklist(next, roots, visited, queue) && (queue[0] == "" || queue[0] in visited)
    ensures Worklist(next, roots, visited, queue[1..])
  {
    assert queue == [queue[0]] + queue[1..];
  }

  lemma VisitKeeps(next: Links, roots: seq<string>, visited: seq<string>, queue: seq<string>)
    requires queue != [] && Worklist(next, roots, visited, queue) && queue[0] != "" && queue[0] !in visited
    ensures Worklist(next, roots, visited + [queue[0]], queue[1..] + next(queue[0]))
  {
    var x := queue[0];
    assert queue == [x] + queue[1..];
    forall y | y in next(x)
      ensures Reached(next, roots, y)
    {
      LinkReached(next, roots, x, y);
    }
  }

  lemma DrainedIsReached(next: Links, roots: seq<string>, visited: seq<string>)
    requires Worklist(next, roots, visited, []) && next("") == []
    ensures forall x :: x in visited <==> x != "" && Reached(next, roots, x)
  {
    var s := visited + [""];
    assert Closed(next, s);
    forall x | x != "" && Reached(next, roots, x)
      ensures x in visited
    {
      ClosedHoldsReached(next, roots, s, x);
      assert x in s;
    }
  }

  /** Only finitely many run ids are still to come: the measure that makes cycles harmless. */
  ghost predicate Bounded<R(!new)>(under: string -> seq<R>, idOf: R -> string, visited: seq<string>, queue: seq<string>,
                                   unseen: set<string>) {
    && (forall x :: x in queue ==> x in visited || x in unseen)
    && (forall x, r :: r in under(x) ==> idOf(r) in visited || idOf(r) in unseen)
  }

  lemma VisitBounded<R(!new)>(under: string -> seq<R>, idOf: R -> string, visited: seq<string>, queue: seq<string>,
                              unseen: set<string>)
    requires queue != [] && Bounded(under, idOf, visited, queue, unseen) && queue[0] !in visited
    ensures queue[0] in unseen
    ensures Bounded(under, idOf, visited + [queue[0]], queue[1..] + Ids(under(queue[0]), idOf), unseen - {queue[0]})
  {
  }

  /** Visits every run id reachable from the roots once, cycles or not, and gathers the rows found under each. */
  method Walk<R(!new)>(roots: seq<string>, under: string -> seq<R>, idOf: R -> string, ghost universe: set<string>)
    returns (visited: seq<string>, rows: seq<R>)
    requires WithinUniverse(under, idOf, universe)
    ensures Distinct(visited)
    ensures forall x :: x in visited <==> x != "" && Reached(LinksOf(under, idOf), roots, x)
    ensures rows == Gather(under, visited)
  {
    ghost var next := LinksOf(under, idOf);
    visited, rows := [], [];
    var queue := roots;
    ghost var unseen := universe + (set r | r in roots);
    StartKeeps(next, roots);
    while queue != []
      invariant Worklist(next, roots, visited, queue)
      invariant rows == Gather(under, visited)
      invariant Bounded(under, idOf, visited, queue, unseen)
      decreases |unseen|, |queue|
    {
      var parent := queue[0];
      if parent == "" || parent in visited {
        SkipKeeps(next, roots, visited, queue);
        queue := queue[1..];
        continue;
      }
      VisitKeeps(next, roots, visited, queue);
      VisitBounded(under, idOf, visited, queue, unseen);
      GatherSnoc(under, visited, parent);
      var children := under(parent);
      queue := queue[1..] + Ids(children, idOf);
      rows := rows + children;
      visited := visited + [parent];
      unseen := Without(unseen, parent);
    }
    DrainedIsReached(next, roots, visited);
  }

  ghost function Without<T(!new)>(s: set<T>, x: T): (r: set<T>)
    requires x in s
    ensures r == s - {x} && |r| < |s|
  {
    s - {x}
  }

  lemma StartKeeps(next: Links, roots: seq<string>)
    ensures Worklist(next, roots, [], roots)
  {
    forall r | r in roots
      ensures Reached(next, roots, r)
    {
      RootReached(next, roots, r);
    }
  }

  lemma GatherSnoc<R>(under: string -> seq<R>, parents: seq<string>, x: string)
    ensures Gather(under, parents + [x]) == Gather(under, parents) + under(x)
  {
    assert (parents + [x])[..|parents|] == parents;
  }
}
