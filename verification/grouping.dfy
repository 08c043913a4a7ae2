/** Buckets by an optional text key: the Map of lists every projection of the log builds first. */
module Grouping {
  import opened Common
  import opened KeyedList
  import opened StableSort

  function Under<T>(keyOf: T -> Option<string>, key: string): T -> bool { (x: T) => keyOf(x) == Some(key) }

  function HasKeyAt<T>(keyOf: T -> Option<string>): T -> bool { (x: T) => keyOf(x).Some? }

  /** The keys in order of first appearance. */
  function Keys<T>(keyOf: T -> Option<string>, ts: seq<T>): seq<string>
    decreases |ts|
  {
    if ts == [] then []
    else
      var before, key := Keys(keyOf, ts[..|ts| - 1]), keyOf(ts[|ts| - 1]);
      if key.Some? && key.value !in before then before + [key.value] else before
  }

  lemma {:induction false} KeysAre<T(!new)>(keyOf: T -> Option<string>, ts: seq<T>)
    ensures Distinct(Keys(keyOf, ts))
    ensures forall key :: key in Keys(keyOf, ts) <==> exists x :: x in ts && keyOf(x) == Some(key)
    decreases |ts|
  {
    if ts != [] {
      KeysAre(keyOf, ts[..|ts| - 1]);
      Unsnoc(ts);
    }
  }

  /** The key comes first at this place. */
  predicate FirstAt<T(==)>(keyOf: T -> Option<string>, ts: seq<T>, key: string, k: nat) {
    k < |ts| && keyOf(ts[k]) == Some(key) && forall j :: 0 <= j < k ==> keyOf(ts[j]) != Some(key)
  }

  ghost predicate ByFirst<T(!new)>(keyOf: T -> Option<string>, ts: seq<T>, keys: seq<string>, at: seq<nat>) {
    && |at| == |keys| && (forall i, j :: 0 <= i < j < |at| ==> at[i] < at[j])
    && (forall i :: 0 <= i < |keys| ==> FirstAt(keyOf, ts, keys[i], at[i]))
  }

  /** The keys are listed in the order in which they come first. */
  lemma {:induction false} KeysInFirstOrder<T(!new)>(keyOf: T -> Option<string>, ts: seq<T>) returns (at: seq<nat>)
    ensures ByFirst(keyOf, ts, Keys(keyOf, ts), at)
    decreases |ts|
  {
    if ts == [] {
      at := [];
    } else {
      var front, key := ts[..|ts| - 1], keyOf(ts[|ts| - 1]);
      var before := Keys(keyOf, front);
      at := KeysInFirstOrder(keyOf, front);
      KeysAre(keyOf, front);
      forall i | 0 <= i < |before|
        ensures FirstAt(keyOf, ts, before[i], at[i])
      {
        assert FirstAt(keyOf, front, before[i], at[i]);
      }
      if key.Some? && key.value !in before {
        assert FirstAt(keyOf, ts, key.value, |front|) by {
          assert forall j :: 0 <= j < |front| ==> ts[j] in front;
        }
        at := at + [|front|];
      }
    }
  }

  lemma KeysSnoc<T(!new)>(keyOf: T -> Option<string>, ts: seq<T>, x: T)
    ensures Keys(keyOf, ts + [x])
         == if keyOf(x).Some? && keyOf(x).value !in Keys(keyOf, ts) then Keys(keyOf, ts) + [keyOf(x).value]
           else Keys(keyOf, ts)
  {
    Snoc(ts, x);
  }

  lemma KeyHasRows<T(!new)>(keyOf: T -> Option<string>, ts: seq<T>, i: nat)
    requires i < |Keys(keyOf, ts)|
    ensures Filter(Under(keyOf, Keys(keyOf, ts)[i]), ts) != []
  {
    var key := Keys(keyOf, ts)[i];
    KeysAre(keyOf, ts);
    assert key in Keys(keyOf, ts);
    var x :| x in ts && keyOf(x) == Some(key);
    FilterHas(Under(keyOf, key), ts, x);
  }

  /** The rows of the i-th key, in their order. */
  function RowsAt<T(!new)>(keyOf: T -> Option<string>, ts: seq<T>, i: nat): (rows: seq<T>)
    requires i < |Keys(keyOf, ts)|
    ensures rows != []
  {
    KeyHasRows(keyOf, ts, i);
    Filter(Under(keyOf, Keys(keyOf, ts)[i]), ts)
  }

  // ---- Nothing is lost ----

  lemma {:induction false} FilterCounts<T(!new)>(keep: T -> bool, ts: seq<T>, x: T)
    ensures multiset(Filter(keep, ts))[x] == if keep(x) then multiset(ts)[x] else 0
    decreases |ts|
  {
    if ts != [] {
      FilterCounts(keep, ts[..|ts| - 1], x);
      Unsnoc(ts);
    }
  }

  lemma {:induction false} FilterSize<T(!new)>(keep: T -> bool, ts: seq<T>)
    ensures |Filter(keep, ts)| == CountWhere(keep, ts)
    decreases |ts|
  {
    if ts != [] {
      FilterSize(keep, ts[..|ts| - 1]);
    }
  }

  function SumSizes<T>(keyOf: T -> Option<string>, ts: seq<T>, keys: seq<string>): nat {
    if keys == [] then 0 else |Filter(Under(keyOf, keys[0]), ts)| + SumSizes(keyOf, ts, keys[1..])
  }

  lemma {:induction false} SumSnoc<T(!new)>(keyOf: T -> Option<string>, ts: seq<T>, x: T, keys: seq<string>)
    requires Distinct(keys)
    ensures SumSizes(keyOf, ts + [x], keys)
         == SumSizes(keyOf, ts, keys) + (if keyOf(x).Some? && keyOf(x).value in keys then 1 else 0)
  {
    if keys != [] {
      var key, rest := keys[0], keys[1..];
      var keep := Under(keyOf, key);
      assert Distinct(rest) && key !in rest;
      SumSnoc(keyOf, ts, x, rest);
      FilterSnoc(keep, ts, x);
      assert keep(x) <==> keyOf(x) == Some(key);
      assert keyOf(x).Some? ==> (keyOf(x).value in keys <==> keep(x) || keyOf(x).value in rest);
    }
  }

  lemma {:induction false} SumAppend<T(!new)>(keyOf: T -> Option<string>, ts: seq<T>, keys: seq<string>, key: string)
    ensures SumSizes(keyOf, ts, keys + [key]) == SumSizes(keyOf, ts, keys) + |Filter(Under(keyOf, key), ts)|
  {
    if keys == [] {
      assert keys + [key] == [key] && [key][1..] == [];
    } else {
      assert (keys + [key])[1..] == keys[1..] + [key];
      SumAppend(keyOf, ts, keys[1..], key);
    }
  }

  /** The buckets' sizes add up to the rows that carry a key. */
  lemma {:induction false} SizesAddUp<T(!new)>(keyOf: T -> Option<string>, ts: seq<T>)
    ensures SumSizes(keyOf, ts, Keys(keyOf, ts)) == CountWhere(HasKeyAt(keyOf), ts)
    decreases |ts|
  {
    if ts != [] {
      var front, x := ts[..|ts| - 1], ts[|ts| - 1];
      SizesAddUp(keyOf, front);
      Unsnoc(ts);
      KeysAre(keyOf, front);
      SumSnoc(keyOf, front, x, Keys(keyOf, front));
      if keyOf(x).Some? && keyOf(x).value !in Keys(keyOf, front) {
        NoRows(keyOf, front, keyOf(x).value);
        FilterSnoc(Under(keyOf, keyOf(x).value), front, x);
        SumAppend(keyOf, ts, Keys(keyOf, front), keyOf(x).value);
      }
    }
  }

  lemma NoRows<T(!new)>(keyOf: T -> Option<string>, ts: seq<T>, key: string)
    requires key !in Keys(keyOf, ts)
    ensures Filter(Under(keyOf, key), ts) == []
  {
    KeysAre(keyOf, ts);
    var kept := Filter(Under(keyOf, key), ts);
    if kept != [] {
      FilterHas(Under(keyOf, key), ts, kept[0]);
    }
  }

  // ---- The table ----

  datatype Bucket<T> = Bucket(key: string, rows: seq<T>)

  function BucketKey<T>(b: Bucket<T>): string { b.key }

  function BucketOf<T>(keyOf: T -> Option<string>, ts: seq<T>, key: string): Bucket<T> {
    Bucket(key, Filter(Under(keyOf, key), ts))
  }

  ghost predicate Tabulates<T(!new)>(keyOf: T -> Option<string>, ts: seq<T>, buckets: seq<Bucket<T>>) {
    && |buckets| == |Keys(keyOf, ts)|
    && forall j :: 0 <= j < |buckets| ==> buckets[j] == BucketOf(keyOf, ts, Keys(keyOf, ts)[j])
  }

  lemma BucketGrows<T(!new)>(keyOf: T -> Option<string>, ts: seq<T>, key: string, x: T)
    ensures BucketOf(keyOf, ts + [x], key)
         == Bucket(key, BucketOf(keyOf, ts, key).rows + (if keyOf(x) == Some(key) then [x] else []))
  {
    FilterSnoc(Under(keyOf, key), ts, x);
  }

  lemma TableKnows<T(!new)>(keyOf: T -> Option<string>, ts: seq<T>, buckets: seq<Bucket<T>>, key: string)
    requires Tabulates(keyOf, ts, buckets)
    ensures var at := IndexOf(BucketKey, buckets, key);
      if at < |buckets| then Keys(keyOf, ts)[at] == key else key !in Keys(keyOf, ts)
  {
    var at, keys := IndexOf(BucketKey, buckets, key), Keys(keyOf, ts);
    forall j | 0 <= j < |keys|
      ensures BucketKey(buckets[j]) == keys[j]
    {
      assert buckets[j] == BucketOf(keyOf, ts, keys[j]);
    }
  }

  lemma KnownKeyStep<T(!new)>(keyOf: T -> Option<string>, ts: seq<T>, buckets: seq<Bucket<T>>, x: T, at: nat)
    requires Tabulates(keyOf, ts, buckets) && at < |buckets| && keyOf(x) == Some(Keys(keyOf, ts)[at])
    ensures Tabulates(keyOf, ts + [x], buckets[at := Bucket(Keys(keyOf, ts)[at], buckets[at].rows + [x])])
  {
    var keys := Keys(keyOf, ts);
    var next := buckets[at := Bucket(keys[at], buckets[at].rows + [x])];
    KeysSnoc(keyOf, ts, x);
    KeysAre(keyOf, ts);
    forall j | 0 <= j < |keys|
      ensures next[j] == BucketOf(keyOf, ts + [x], keys[j])
    {
      assert j != at ==> keys[j] != keys[at];
      assert buckets[j] == BucketOf(keyOf, ts, keys[j]);
      BucketGrows(keyOf, ts, keys[j], x);
    }
  }

  lemma NewBucket<T(!new)>(keyOf: T -> Option<string>, ts: seq<T>, x: T)
    requires keyOf(x).Some? && keyOf(x).value !in Keys(keyOf, ts)
    ensures BucketOf(keyOf, ts + [x], keyOf(x).value) == Bucket(keyOf(x).value, [x])
  {
    NoRows(keyOf, ts, keyOf(x).value);
    BucketGrows(keyOf, ts, keyOf(x).value, x);
  }

  lemma OtherKey<T(!new)>(keyOf: T -> Option<string>, ts: seq<T>, keys: seq<string>, j: nat, x: T)
    requires j < |keys| && keyOf(x).Some? && keyOf(x).value !in keys
    ensures BucketOf(keyOf, ts + [x], keys[j]) == BucketOf(keyOf, ts, keys[j])
  {
    assert keys[j] in keys;
    BucketGrows(keyOf, ts, keys[j], x);
  }

  lemma NewKeyStep<T(!new)>(keyOf: T -> Option<string>, ts: seq<T>, buckets: seq<Bucket<T>>, x: T)
    requires Tabulates(keyOf, ts, buckets) && keyOf(x).Some? && keyOf(x).value !in Keys(keyOf, ts)
    ensures Tabulates(keyOf, ts + [x], buckets + [Bucket(keyOf(x).value, [x])])
  {
    var keys, key := Keys(keyOf, ts), keyOf(x).value;
    var next := buckets + [Bucket(key, [x])];
    KeysSnoc(keyOf, ts, x);
    assert Keys(keyOf, ts + [x]) == keys + [key];
    NewBucket(keyOf, ts, x);
    forall j | 0 <= j < |next|
      ensures next[j] == BucketOf(keyOf, ts + [x], (keys + [key])[j])
    {
      if j < |keys| {
        assert buckets[j] == BucketOf(keyOf, ts, keys[j]);
        OtherKey(keyOf, ts, keys, j, x);
      }
    }
  }

  lemma NoKeyStep<T(!new)>(keyOf: T -> Option<string>, ts: seq<T>, buckets: seq<Bucket<T>>, x: T)
    requires Tabulates(keyOf, ts, buckets) && keyOf(x).None?
    ensures Tabulates(keyOf, ts + [x], buckets)
  {
    var keys := Keys(keyOf, ts);
    KeysSnoc(keyOf, ts, x);
    forall j | 0 <= j < |keys|
      ensures buckets[j] == BucketOf(keyOf, ts + [x], keys[j])
    {
      assert buckets[j] == BucketOf(keyOf, ts, keys[j]);
      BucketGrows(keyOf, ts, keys[j], x);
    }
  }

  /** `map.get(key) ?? []`, push, `map.set`: the rows with a key, by key. */
  method Tabulate<T(!new)>(keyOf: T -> Option<string>, ts: seq<T>) returns (buckets: seq<Bucket<T>>)
    ensures Tabulates(keyOf, ts, buckets)
  {
    buckets := [];
    for i := 0 to |ts|
      invariant Tabulates(keyOf, ts[..i], buckets)
    {
      assert ts[..i + 1] == ts[..i] + [ts[i]];
      buckets := AddRow(keyOf, ts[..i], buckets, ts[i]);
    }
    assert ts[..|ts|] == ts;
  }

  method AddRow<T(!new)>(keyOf: T -> Option<string>, ghost ts: seq<T>, buckets: seq<Bucket<T>>, x: T)
    returns (next: seq<Bucket<T>>)
    requires Tabulates(keyOf, ts, buckets)
    ensures Tabulates(keyOf, ts + [x], next)
  {
    var key := keyOf(x);
    if key.None? {
      NoKeyStep(keyOf, ts, buckets, x);
      return buckets;
    }
    var at := IndexOf(BucketKey, buckets, key.value);
    TableKnows(keyOf, ts, buckets, key.value);
    if at < |buckets| {
      KnownKeyStep(keyOf, ts, buckets, x, at);
      next := buckets[at := Bucket(key.value, buckets[at].rows + [x])];
    } else {
      NewKeyStep(keyOf, ts, buckets, x);
      next := buckets + [Bucket(key.value, [x])];
    }
  }
}
