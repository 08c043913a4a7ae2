/** `Array.prototype.sort` by a time stamp: stable, and harmless to rows that are in order already. */
module StableSort {
  /** After everything not later than it. */
  function Insert<T>(at: T -> int, sorted: seq<T>, x: T): seq<T> {
    if sorted == [] then [x]
    else
      var front, last := sorted[..|sorted| - 1], sorted[|sorted| - 1];
      if at(last) <= at(x) then sorted + [x] else Insert(at, front, x) + [last]
  }

  function Sort<T>(at: T -> int, s: seq<T>): seq<T> {
    if s == [] then [] else Insert(at, Sort(at, s[..|s| - 1]), s[|s| - 1])
  }

  ghost predicate Ordered<T(!new)>(at: T -> int, s: seq<T>) { forall i, j :: 0 <= i < j < |s| ==> at(s[i]) <= at(s[j]) }

  lemma Snoc<T>(s: seq<T>, x: T)
    ensures (s + [x])[..|s|] == s && (s + [x])[|s|] == x
  {
  }

  lemma Unsnoc<T>(s: seq<T>)
    requires s != []
    ensures s == s[..|s| - 1] + [s[|s| - 1]]
  {
  }

  lemma InsertSnoc<T>(at: T -> int, front: seq<T>, last: T, x: T)
    ensures Insert(at, front + [last], x)
      == if at(last) <= at(x) then front + [last] + [x] else Insert(at, front, x) + [last]
  {
    Snoc(front, last);
  }

  lemma SortSnoc<T>(at: T -> int, s: seq<T>, x: T)
    ensures Sort(at, s + [x]) == Insert(at, Sort(at, s), x)
  {
    Snoc(s, x);
  }

  /** What comes first, once a row is inserted. */
  lemma {:induction false} InsertFirst<T>(at: T -> int, sorted: seq<T>, x: T)
    requires forall y :: y in sorted ==> at(sorted[0]) <= at(y)
    ensures Insert(at, sorted, x) != []
    ensures Insert(at, sorted, x)[0] == if sorted == [] || at(x) < at(sorted[0]) then x else sorted[0]
  {
    if |sorted| > 1 {
      InsertFirst(at, sorted[..|sorted| - 1], x);
    } else if |sorted| == 1 {
      assert sorted[0] in sorted && Insert(at, [], x) == [x];
    }
  }

  lemma {:induction false} InsertSize<T>(at: T -> int, sorted: seq<T>, x: T)
    ensures |Insert(at, sorted, x)| == |sorted| + 1
  {
    if sorted != [] {
      InsertSize(at, sorted[..|sorted| - 1], x);
    }
  }

  lemma {:induction false} SortSize<T>(at: T -> int, s: seq<T>)
    ensures |Sort(at, s)| == |s|
  {
    if s != [] {
      SortSize(at, s[..|s| - 1]);
      InsertSize(at, Sort(at, s[..|s| - 1]), s[|s| - 1]);
    }
  }

  lemma {:induction false} InsertPermutes<T>(at: T -> int, sorted: seq<T>, x: T)
    ensures multiset(Insert(at, sorted, x)) == multiset(sorted) + multiset{x}
  {
    if sorted != [] {
      Unsnoc(sorted);
      InsertPermutes(at, sorted[..|sorted| - 1], x);
    }
  }

  /** Nothing is lost, doubled or made up. */
  lemma {:induction false} SortPermutes<T>(at: T -> int, s: seq<T>)
    ensures multiset(Sort(at, s)) == multiset(s)
  {
    if s != [] {
      Unsnoc(s);
      SortPermutes(at, s[..|s| - 1]);
      InsertPermutes(at, Sort(at, s[..|s| - 1]), s[|s| - 1]);
    }
  }

  lemma {:induction false} InsertOrdered<T(!new)>(at: T -> int, sorted: seq<T>, x: T)
    requires Ordered(at, sorted)
    ensures Ordered(at, Insert(at, sorted, x))
    ensures forall y :: y in Insert(at, sorted, x) ==> y == x || y in sorted
  {
    if sorted != [] {
      var front, last := sorted[..|sorted| - 1], sorted[|sorted| - 1];
      if at(last) > at(x) {
        InsertOrdered(at, front, x);
        OrderedSnoc(at, Insert(at, front, x), last);
      }
    }
  }

  lemma OrderedSnoc<T(!new)>(at: T -> int, s: seq<T>, last: T)
    requires Ordered(at, s) && forall y :: y in s ==> at(y) <= at(last)
    ensures Ordered(at, s + [last])
  {
    assert forall i :: 0 <= i < |s| ==> s[i] in s;
  }

  lemma {:induction false} SortOrdered<T(!new)>(at: T -> int, s: seq<T>)
    ensures Ordered(at, Sort(at, s))
  {
    if s != [] {
      SortOrdered(at, s[..|s| - 1]);
      InsertOrdered(at, Sort(at, s[..|s| - 1]), s[|s| - 1]);
    }
  }

  /** What is in order stays as it is. */
  lemma {:induction false} SortKeepsOrdered<T(!new)>(at: T -> int, s: seq<T>)
    requires Ordered(at, s)
    ensures Sort(at, s) == s
  {
    if s != [] {
      SortKeepsOrdered(at, s[..|s| - 1]);
      Unsnoc(s);
    }
  }

  /** Something not earlier than the rest ends up last. */
  lemma {:induction false} SortAppendsLatest<T(!new)>(at: T -> int, s: seq<T>, x: T)
    requires forall y :: y in s ==> at(y) <= at(x)
    ensures Sort(at, s + [x]) == Sort(at, s) + [x]
  {
    SortSnoc(at, s, x);
    SortPermutes(at, s);
    var sorted := Sort(at, s);
    if sorted != [] {
      assert sorted[|sorted| - 1] in multiset(sorted);
    }
  }

  function Filter<T>(keep: T -> bool, s: seq<T>): seq<T> {
    if s == [] then []
    else Filter(keep, s[..|s| - 1]) + (if keep(s[|s| - 1]) then [s[|s| - 1]] else [])
  }

  lemma FilterSnoc<T>(keep: T -> bool, s: seq<T>, x: T)
    ensures Filter(keep, s + [x]) == Filter(keep, s) + (if keep(x) then [x] else [])
  {
    Snoc(s, x);
  }

  lemma {:induction false} FilterHas<T>(keep: T -> bool, s: seq<T>, x: T)
    ensures x in Filter(keep, s) <==> x in s && keep(x)
  {
    if s != [] {
      Unsnoc(s);
      FilterHas(keep, s[..|s| - 1], x);
    }
  }

  lemma InsertAtEnd<T(!new)>(at: T -> int, s: seq<T>, x: T)
    requires forall y :: y in s ==> at(y) <= at(x)
    ensures Insert(at, s, x) == s + [x]
  {
    if s == [] {
      assert s + [x] == [x];
    } else {
      assert s[|s| - 1] in s;
    }
  }

  lemma {:induction false} FilterInsert<T(!new)>(at: T -> int, keep: T -> bool, sorted: seq<T>, x: T)
    requires Ordered(at, sorted)
    ensures Filter(keep, Insert(at, sorted, x))
         == if keep(x) then Insert(at, Filter(keep, sorted), x) else Filter(keep, sorted)
  {
    if sorted == [] || at(sorted[|sorted| - 1]) <= at(x) {
      FilterInsertLate(at, keep, sorted, x);
    } else {
      var front, last := sorted[..|sorted| - 1], sorted[|sorted| - 1];
      FilterInsert(at, keep, front, x);
      Unsnoc(sorted);
      FilterInsertEarly(at, keep, front, last, x);
    }
  }

  lemma FilterInsertEarly<T(!new)>(at: T -> int, keep: T -> bool, front: seq<T>, last: T, x: T)
    requires at(x) < at(last)
    requires Filter(keep, Insert(at, front, x))
      == if keep(x) then Insert(at, Filter(keep, front), x) else Filter(keep, front)
    ensures Filter(keep, Insert(at, front + [last], x))
         == if keep(x) then Insert(at, Filter(keep, front + [last]), x) else Filter(keep, front + [last])
  {
    var inserted, kept := Insert(at, front, x), Filter(keep, front);
    assert Insert(at, front + [last], x) == inserted + [last] by { InsertSnoc(at, front, last, x); }
    FilterSnoc(keep, inserted, last);
    FilterSnoc(keep, front, last);
    if keep(last) {
      assert Filter(keep, front + [last]) == kept + [last];
      assert Insert(at, kept + [last], x) == Insert(at, kept, x) + [last] by { InsertSnoc(at, kept, last, x); }
    } else {
      assert Filter(keep, front + [last]) == kept;
    }
  }

  lemma FilterBounded<T(!new)>(at: T -> int, keep: T -> bool, s: seq<T>, limit: int)
    requires forall y :: y in s ==> at(y) <= limit
    ensures forall y :: y in Filter(keep, s) ==> at(y) <= limit
  {
    forall y | y in Filter(keep, s)
      ensures at(y) <= limit
    {
      FilterHas(keep, s, y);
    }
  }

  lemma FilterInsertLate<T(!new)>(at: T -> int, keep: T -> bool, sorted: seq<T>, x: T)
    requires Ordered(at, sorted) && (sorted != [] ==> at(sorted[|sorted| - 1]) <= at(x))
    ensures Filter(keep, Insert(at, sorted, x))
         == if keep(x) then Insert(at, Filter(keep, sorted), x) else Filter(keep, sorted)
  {
    FilterBounded(at, keep, sorted, at(x));
    InsertAtEnd(at, Filter(keep, sorted), x);
    assert Insert(at, sorted, x) == sorted + [x] by { InsertAtEnd(at, sorted, x); }
    FilterSnoc(keep, sorted, x);
  }

  /** Sorting a list sorts each part of it by itself. */
  lemma {:induction false} FilterSort<T(!new)>(at: T -> int, keep: T -> bool, s: seq<T>)
    ensures Filter(keep, Sort(at, s)) == Sort(at, Filter(keep, s))
  {
    if s != [] {
      var front, x := s[..|s| - 1], s[|s| - 1];
      FilterSort(at, keep, front);
      SortOrdered(at, front);
      FilterInsert(at, keep, Sort(at, front), x);
      SortSnoc(at, Filter(keep, front), x);
      assert !keep(x) ==> Filter(keep, s) == Filter(keep, front);
    }
  }

  /** Stability: rows that were in order among themselves keep their order. */
  lemma SortKeepsPart<T(!new)>(at: T -> int, keep: T -> bool, s: seq<T>)
    requires Ordered(at, Filter(keep, s))
    ensures Filter(keep, Sort(at, s)) == Filter(keep, s)
  {
    FilterSort(at, keep, s);
    SortKeepsOrdered(at, Filter(keep, s));
  }
}
