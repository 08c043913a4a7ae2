/** A JavaScript Map seen as the list of its values: insertion order, one value a key. */
module KeyedList {
  predicate KeysDistinct<T(!new), K(==,!new)>(keyOf: T -> K, ts: seq<T>) {
    forall i, j :: 0 <= i < j < |ts| ==> keyOf(ts[i]) != keyOf(ts[j])
  }

  function IndexOf<T, K(==,!new)>(keyOf: T -> K, ts: seq<T>, key: K): (i: nat)
    ensures i <= |ts|
    ensures i < |ts| ==> keyOf(ts[i]) == key
    ensures forall j :: 0 <= j < i ==> keyOf(ts[j]) != key
  {
    if ts == [] || keyOf(ts[0]) == key then 0 else 1 + IndexOf(keyOf, ts[1..], key)
  }

  predicate HasKey<T, K(==,!new)>(keyOf: T -> K, ts: seq<T>, key: K) { IndexOf(keyOf, ts, key) < |ts| }

  /** `Map.set`: a known key keeps its place and takes the new value. */
  function Put<T, K(==,!new)>(keyOf: T -> K, ts: seq<T>, t: T): seq<T> {
    var i := IndexOf(keyOf, ts, keyOf(t));
    if i < |ts| then ts[i := t] else ts + [t]
  }

  /** `if (!map.has(key)) map.set(key, value)`. */
  function PutNew<T, K(==,!new)>(keyOf: T -> K, ts: seq<T>, t: T): seq<T> {
    if HasKey(keyOf, ts, keyOf(t)) then ts else ts + [t]
  }

  lemma HasKeyMeans<T(!new), K(!new)>(keyOf: T -> K, ts: seq<T>, key: K)
    ensures HasKey(keyOf, ts, key) <==> exists t :: t in ts && keyOf(t) == key
  {
    if HasKey(keyOf, ts, key) {
      assert ts[IndexOf(keyOf, ts, key)] in ts;
    }
  }

  lemma PutKeeps<T(!new), K(!new)>(keyOf: T -> K, ts: seq<T>, t: T)
    requires KeysDistinct(keyOf, ts)
    ensures KeysDistinct(keyOf, Put(keyOf, ts, t)) && KeysDistinct(keyOf, PutNew(keyOf, ts, t))
    ensures forall x :: x in Put(keyOf, ts, t) <==> x == t || (x in ts && keyOf(x) != keyOf(t))
    ensures forall x :: x in PutNew(keyOf, ts, t) ==> x == t || x in ts
  {
    var i, out := IndexOf(keyOf, ts, keyOf(t)), Put(keyOf, ts, t);
    assert out[i] == t;
    forall x | x in ts && keyOf(x) != keyOf(t)
      ensures x in out
    {
      var k :| 0 <= k < |ts| && ts[k] == x;
      assert out[k] == x;
    }
  }

  lemma PutHolds<T(!new), K(!new)>(keyOf: T -> K, ts: seq<T>, t: T, key: K)
    ensures HasKey(keyOf, Put(keyOf, ts, t), key) <==> HasKey(keyOf, ts, key) || key == keyOf(t)
    ensures HasKey(keyOf, PutNew(keyOf, ts, t), key) <==> HasKey(keyOf, ts, key) || key == keyOf(t)
  {
    HasKeyMeans(keyOf, ts, key);
    HasKeyMeans(keyOf, Put(keyOf, ts, t), key);
    HasKeyMeans(keyOf, PutNew(keyOf, ts, t), key);
    var i := IndexOf(keyOf, ts, keyOf(t));
    assert Put(keyOf, ts, t)[i] == t;
    if HasKey(keyOf, ts, key) {
      var k := IndexOf(keyOf, ts, key);
      assert Put(keyOf, ts, t)[k] == if k == i then t else ts[k];
    }
    if !HasKey(keyOf, ts, keyOf(t)) {
      assert PutNew(keyOf, ts, t)[|ts|] == t;
    }
  }

  lemma IndexIs<T(!new), K(!new)>(keyOf: T -> K, ts: seq<T>, at: nat)
    requires KeysDistinct(keyOf, ts) && at < |ts|
    ensures IndexOf(keyOf, ts, keyOf(ts[at])) == at
  {
    var i := IndexOf(keyOf, ts, keyOf(ts[at]));
    assert !(i < at);
  }

  // ---- Setting a list of values one after another ----

  /** One value for each key of the items, in the order in which the keys come first. */
  ghost predicate KeysInOrder<T(!new), K(!new)>(keyOf: T -> K, items: seq<T>, out: seq<T>) {
    && (forall key :: HasKey(keyOf, out, key) <==> HasKey(keyOf, items, key))
    && (forall a, b :: 0 <= a < b < |out| ==>
          IndexOf(keyOf, items, keyOf(out[a])) < IndexOf(keyOf, items, keyOf(out[b])))
  }

  ghost predicate IsLastOfKey<T(!new), K(!new)>(keyOf: T -> K, items: seq<T>, x: T) {
    exists k :: 0 <= k < |items| && items[k] == x && forall j :: k < j < |items| ==> keyOf(items[j]) != keyOf(x)
  }

  ghost predicate IsFirstOfKey<T(!new), K(!new)>(keyOf: T -> K, items: seq<T>, x: T) {
    exists k :: 0 <= k < |items| && items[k] == x && forall j :: 0 <= j < k ==> keyOf(items[j]) != keyOf(x)
  }

  /** Each value set: of one key's values the last counts. */
  ghost predicate LastWins<T(!new), K(!new)>(keyOf: T -> K, items: seq<T>, out: seq<T>) {
    KeysInOrder(keyOf, items, out) && forall x :: x in out ==> IsLastOfKey(keyOf, items, x)
  }

  /** Each value set unless its key is known: of one key's values the first counts. */
  ghost predicate FirstWins<T(!new), K(!new)>(keyOf: T -> K, items: seq<T>, out: seq<T>) {
    KeysInOrder(keyOf, items, out) && forall x :: x in out ==> IsFirstOfKey(keyOf, items, x)
  }

  lemma IndexSnoc<T(!new), K(!new)>(keyOf: T -> K, items: seq<T>, t: T, key: K)
    ensures IndexOf(keyOf, items + [t], key)
         == if HasKey(keyOf, items, key) then IndexOf(keyOf, items, key)
            else if keyOf(t) == key then |items| else |items| + 1
  {
    var all, i := items + [t], IndexOf(keyOf, items + [t], key);
    assert forall j :: 0 <= j < |items| ==> all[j] == items[j];
    if HasKey(keyOf, items, key) {
      var k := IndexOf(keyOf, items, key);
      assert keyOf(all[k]) == key && !(i < k) && !(k < i);
    } else {
      assert !(i < |items|) && all[|items|] == t;
    }
  }

  lemma KeysInOrderSnoc<T(!new), K(!new)>(keyOf: T -> K, items: seq<T>, out: seq<T>, t: T)
    requires KeysInOrder(keyOf, items, out)
    ensures KeysInOrder(keyOf, items + [t], Put(keyOf, out, t))
    ensures KeysInOrder(keyOf, items + [t], PutNew(keyOf, out, t))
  {
    forall key
      ensures HasKey(keyOf, Put(keyOf, out, t), key) <==> HasKey(keyOf, items + [t], key)
      ensures HasKey(keyOf, PutNew(keyOf, out, t), key) <==> HasKey(keyOf, items + [t], key)
    {
      PutHolds(keyOf, out, t, key);
      IndexSnoc(keyOf, items, t, key);
    }
    PlacesKept(keyOf, items, out, t, Put(keyOf, out, t));
    PlacesKept(keyOf, items, out, t, PutNew(keyOf, out, t));
  }

  lemma PlacesKept<T(!new), K(!new)>(keyOf: T -> K, items: seq<T>, out: seq<T>, t: T, next: seq<T>)
    requires KeysInOrder(keyOf, items, out)
    requires next == Put(keyOf, out, t) || next == PutNew(keyOf, out, t)
    ensures forall a, b :: 0 <= a < b < |next| ==>
      IndexOf(keyOf, items + [t], keyOf(next[a])) < IndexOf(keyOf, items + [t], keyOf(next[b]))
  {
    var at := IndexOf(keyOf, out, keyOf(t));
    forall a, b | 0 <= a < b < |next|
      ensures IndexOf(keyOf, items + [t], keyOf(next[a])) < IndexOf(keyOf, items + [t], keyOf(next[b]))
    {
      assert forall k :: 0 <= k < |out| ==> keyOf(next[k]) == keyOf(out[k]);
      IndexSnoc(keyOf, items, t, keyOf(next[a]));
      IndexSnoc(keyOf, items, t, keyOf(next[b]));
      assert out[a] in out;
      HasKeyMeans(keyOf, out, keyOf(out[a]));
      if b < |out| {
        assert out[b] in out;
        HasKeyMeans(keyOf, out, keyOf(out[b]));
      } else {
        assert next[b] == t && !HasKey(keyOf, out, keyOf(t));
      }
    }
  }

  lemma PutLast<T(!new), K(!new)>(keyOf: T -> K, items: seq<T>, out: seq<T>, t: T)
    requires KeysDistinct(keyOf, out) && LastWins(keyOf, items, out)
    ensures KeysDistinct(keyOf, Put(keyOf, out, t)) && LastWins(keyOf, items + [t], Put(keyOf, out, t))
  {
    var all := items + [t];
    KeysInOrderSnoc(keyOf, items, out, t);
    PutKeeps(keyOf, out, t);
    forall x | x in Put(keyOf, out, t)
      ensures IsLastOfKey(keyOf, all, x)
    {
      if x == t {
        assert all[|items|] == x;
      } else {
        var k :| 0 <= k < |items| && items[k] == x && forall j :: k < j < |items| ==> keyOf(items[j]) != keyOf(x);
        assert all[k] == x;
      }
    }
  }

  lemma PutFirst<T(!new), K(!new)>(keyOf: T -> K, items: seq<T>, out: seq<T>, t: T)
    requires KeysDistinct(keyOf, out) && FirstWins(keyOf, items, out)
    ensures KeysDistinct(keyOf, PutNew(keyOf, out, t)) && FirstWins(keyOf, items + [t], PutNew(keyOf, out, t))
  {
    var all := items + [t];
    KeysInOrderSnoc(keyOf, items, out, t);
    PutKeeps(keyOf, out, t);
    forall x | x in PutNew(keyOf, out, t)
      ensures IsFirstOfKey(keyOf, all, x)
    {
      if x in out {
        var k :| 0 <= k < |items| && items[k] == x && forall j :: 0 <= j < k ==> keyOf(items[j]) != keyOf(x);
        assert all[k] == x;
      } else {
        assert !HasKey(keyOf, out, keyOf(t)) && all[|items|] == x;
        forall j | 0 <= j < |items|
          ensures keyOf(all[j]) != keyOf(x)
        {
          assert !HasKey(keyOf, items, keyOf(t)) && all[j] == items[j];
        }
      }
    }
  }

  lemma ApartInOrder<T(!new), K(!new)>(keyOf: T -> K, items: seq<T>)
    requires KeysDistinct(keyOf, items)
    ensures LastWins(keyOf, items, items) && FirstWins(keyOf, items, items)
  {
    forall a, b | 0 <= a < b < |items|
      ensures IndexOf(keyOf, items, keyOf(items[a])) < IndexOf(keyOf, items, keyOf(items[b]))
    {
      IndexIs(keyOf, items, a);
      IndexIs(keyOf, items, b);
    }
  }

  /** What setting keeps: the values are among the items and every item has one of its key. */
  lemma WinsMeans<T(!new), K(!new)>(keyOf: T -> K, items: seq<T>, out: seq<T>)
    requires LastWins(keyOf, items, out) || FirstWins(keyOf, items, out)
    ensures forall x :: x in out ==> x in items
    ensures forall x :: x in items ==> HasKey(keyOf, out, keyOf(x))
  {
    forall x | x in items
      ensures HasKey(keyOf, out, keyOf(x))
    {
      HasKeyMeans(keyOf, items, keyOf(x));
    }
  }

  method PutAll<T(!new), K(==,!new)>(keyOf: T -> K, into: seq<T>, more: seq<T>) returns (out: seq<T>)
    requires KeysDistinct(keyOf, into)
    ensures KeysDistinct(keyOf, out) && LastWins(keyOf, into + more, out)
  {
    out := into;
    ApartInOrder(keyOf, into);
    assert into + more[..0] == into;
    for i := 0 to |more|
      invariant KeysDistinct(keyOf, out) && LastWins(keyOf, into + more[..i], out)
    {
      assert into + more[..i + 1] == into + more[..i] + [more[i]];
      PutLast(keyOf, into + more[..i], out, more[i]);
      out := Put(keyOf, out, more[i]);
    }
    assert more[..|more|] == more;
  }

  method PutAllNew<T(!new), K(==,!new)>(keyOf: T -> K, into: seq<T>, more: seq<T>) returns (out: seq<T>)
    requires KeysDistinct(keyOf, into)
    ensures KeysDistinct(keyOf, out) && FirstWins(keyOf, into + more, out) && into <= out
  {
    out := into;
    ApartInOrder(keyOf, into);
    assert into + more[..0] == into;
    for i := 0 to |more|
      invariant KeysDistinct(keyOf, out) && FirstWins(keyOf, into + more[..i], out) && into <= out
    {
      assert into + more[..i + 1] == into + more[..i] + [more[i]];
      PutFirst(keyOf, into + more[..i], out, more[i]);
      out := PutNew(keyOf, out, more[i]);
    }
    assert more[..|more|] == more;
  }
}
