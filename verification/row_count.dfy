/** From a workflow's whole history to the rows the rail counts: the newest line of an item, one row a person. */
module RowCount {
  import opened Common
  import opened Grouping
  import opened KeyedList
  import opened StableSort
  import Queue = QueueSurfaces

  /** `emplId` is empty when the line's data has none; `activity` is the first log time, or else the line's own;
      `eidKeyed` says its search is by employee id. */
  datatype Line = Line(row: Queue.Entry, ts: int, activity: int, emplId: string, eidKeyed: bool)

  function ItemId(l: Line): string { l.row.id }

  // ---- The newest line of each item ----

  /** An older line never displaces a newer one; of equal times the later line wins. */
  function Newest(raw: seq<Line>): seq<Line>
    decreases |raw|
  {
    if raw == [] then []
    else
      var before, last := Newest(raw[..|raw| - 1]), raw[|raw| - 1];
      var i := IndexOf(ItemId, before, ItemId(last));
      if i < |before| && before[i].ts > last.ts then before else Put(ItemId, before, last)
  }

  /** The item's last known employee id. */
  function CarriedEmplId(raw: seq<Line>, id: string): string
    decreases |raw|
  {
    if raw == [] then ""
    else
      var last := raw[|raw| - 1];
      if ItemId(last) == id && last.emplId != "" then last.emplId else CarriedEmplId(raw[..|raw| - 1], id)
  }

  function Carry(raw: seq<Line>, l: Line): Line {
    if l.emplId == "" && CarriedEmplId(raw, ItemId(l)) != "" then l.(emplId := CarriedEmplId(raw, ItemId(l))) else l
  }

  function Deduped(raw: seq<Line>): (rows: seq<Line>)
    ensures |rows| == |Newest(raw)| && forall i :: 0 <= i < |rows| ==> rows[i] == Carry(raw, Newest(raw)[i])
  {
    seq(|Newest(raw)|, i requires 0 <= i < |Newest(raw)| => Carry(raw, Newest(raw)[i]))
  }

  predicate SameItem(raw: seq<Line>, j: nat, k: nat)
    requires j < |raw| && k < |raw|
  {
    ItemId(raw[j]) == ItemId(raw[k])
  }

  /** No line of the item is newer, and none as new comes later. */
  predicate IsNewestAt(raw: seq<Line>, k: nat)
    requires k < |raw|
  {
    forall j: nat :: j < |raw| && SameItem(raw, j, k) ==> raw[j].ts < raw[k].ts || (raw[j].ts == raw[k].ts && j <= k)
  }

  predicate IsNewest(raw: seq<Line>, l: Line) { exists k: nat :: k < |raw| && raw[k] == l && IsNewestAt(raw, k) }

  lemma StaysNewest(raw: seq<Line>, x: Line, l: Line)
    requires IsNewest(raw, l) && (ItemId(x) == ItemId(l) ==> x.ts < l.ts)
    ensures IsNewest(raw + [x], l)
  {
    var all := raw + [x];
    var k: nat :| k < |raw| && raw[k] == l && IsNewestAt(raw, k);
    forall j: nat | j < |all| && SameItem(all, j, k)
      ensures all[j].ts < all[k].ts || (all[j].ts == all[k].ts && j <= k)
    {
      assert j < |raw| ==> SameItem(raw, j, k);
    }
    assert all[k] == l && IsNewestAt(all, k);
  }

  lemma BecomesNewest(raw: seq<Line>, x: Line)
    requires forall j: nat :: j < |raw| && ItemId(raw[j]) == ItemId(x) ==> raw[j].ts <= x.ts
    ensures IsNewest(raw + [x], x)
  {
    var all := raw + [x];
    forall j: nat | j < |all| && SameItem(all, j, |raw|)
      ensures all[j].ts < x.ts || (all[j].ts == x.ts && j <= |raw|)
    {
      assert j < |raw| ==> ItemId(raw[j]) == ItemId(x);
    }
    assert all[|raw|] == x && IsNewestAt(all, |raw|);
  }

  /** One line an item, the newest; no item is missed. */
  predicate NewestHold(raw: seq<Line>, rows: seq<Line>) {
    && KeysDistinct(ItemId, rows)
    && (forall i :: 0 <= i < |rows| ==> IsNewest(raw, rows[i]))
    && (forall k :: 0 <= k < |raw| ==> HasKey(ItemId, rows, ItemId(raw[k])))
  }

  lemma RowBounds(raw: seq<Line>, rows: seq<Line>, x: Line, i: nat)
    requires NewestHold(raw, rows) && i < |rows| && ItemId(rows[i]) == ItemId(x)
    ensures forall j: nat :: j < |raw| && ItemId(raw[j]) == ItemId(x) ==> raw[j].ts <= rows[i].ts
  {
    var k: nat :| k < |raw| && raw[k] == rows[i] && IsNewestAt(raw, k);
    forall j: nat | j < |raw| && ItemId(raw[j]) == ItemId(x)
      ensures raw[j].ts <= rows[i].ts
    {
      assert SameItem(raw, j, k);
    }
  }

  lemma NewestKept(raw: seq<Line>, rows: seq<Line>, x: Line, i: nat)
    requires NewestHold(raw, rows) && i < |rows| && ItemId(rows[i]) == ItemId(x) && rows[i].ts > x.ts
    ensures NewestHold(raw + [x], rows)
  {
    forall k | 0 <= k < |rows|
      ensures IsNewest(raw + [x], rows[k])
    {
      assert k != i ==> ItemId(rows[k]) != ItemId(rows[i]);
      StaysNewest(raw, x, rows[k]);
    }
    HasKeyMeans(ItemId, rows, ItemId(x));
    assert rows[i] in rows;
  }

  lemma NewestReplaced(raw: seq<Line>, rows: seq<Line>, x: Line)
    requires NewestHold(raw, rows)
    requires forall j: nat :: j < |raw| && ItemId(raw[j]) == ItemId(x) ==> raw[j].ts <= x.ts
    ensures NewestHold(raw + [x], Put(ItemId, rows, x))
  {
    var all, out := raw + [x], Put(ItemId, rows, x);
    PutKeeps(ItemId, rows, x);
    forall k | 0 <= k < |out|
      ensures IsNewest(all, out[k])
    {
      assert out[k] in out;
      if out[k] == x {
        BecomesNewest(raw, x);
      } else {
        var m :| 0 <= m < |rows| && rows[m] == out[k];
        StaysNewest(raw, x, out[k]);
      }
    }
    forall k | 0 <= k < |all|
      ensures HasKey(ItemId, out, ItemId(all[k]))
    {
      PutHolds(ItemId, rows, x, ItemId(all[k]));
      assert k < |raw| ==> all[k] == raw[k];
    }
  }

  /** The rows are in the order in which their items come first. */
  lemma {:induction false} NewestInOrder(raw: seq<Line>)
    ensures KeysInOrder(ItemId, raw, Newest(raw))
    decreases |raw|
  {
    if raw != [] {
      var front, x := raw[..|raw| - 1], raw[|raw| - 1];
      NewestInOrder(front);
      Unsnoc(raw);
      KeysInOrderSnoc(ItemId, front, Newest(front), x);
    }
  }

  lemma {:induction false} NewestIs(raw: seq<Line>)
    ensures NewestHold(raw, Newest(raw))
    decreases |raw|
  {
    if raw != [] {
      var front, x := raw[..|raw| - 1], raw[|raw| - 1];
      var rows := Newest(front);
      NewestIs(front);
      Unsnoc(raw);
      var i := IndexOf(ItemId, rows, ItemId(x));
      if i < |rows| && rows[i].ts > x.ts {
        NewestKept(front, rows, x, i);
      } else {
        NotNewer(front, rows, x);
        NewestReplaced(front, rows, x);
      }
    }
  }

  lemma NotNewer(raw: seq<Line>, rows: seq<Line>, x: Line)
    requires NewestHold(raw, rows)
    requires var i := IndexOf(ItemId, rows, ItemId(x)); i < |rows| ==> rows[i].ts <= x.ts
    ensures forall j: nat :: j < |raw| && ItemId(raw[j]) == ItemId(x) ==> raw[j].ts <= x.ts
  {
    var i := IndexOf(ItemId, rows, ItemId(x));
    forall j: nat | j < |raw| && ItemId(raw[j]) == ItemId(x)
      ensures raw[j].ts <= x.ts
    {
      assert HasKey(ItemId, rows, ItemId(raw[j]));
      RowBounds(raw, rows, x, i);
    }
  }

  ghost predicate LastWithEmplId(raw: seq<Line>, id: string, k: int) {
    && 0 <= k < |raw| && ItemId(raw[k]) == id && raw[k].emplId != ""
    && forall j :: k < j < |raw| && ItemId(raw[j]) == id ==> raw[j].emplId == ""
  }

  /** The employee id on the last line of the item that has one; empty when none has. */
  ghost predicate IsLastEmplId(raw: seq<Line>, id: string, v: string) {
    if v == "" then forall k :: 0 <= k < |raw| && ItemId(raw[k]) == id ==> raw[k].emplId == ""
    else exists k :: LastWithEmplId(raw, id, k) && raw[k].emplId == v
  }

  lemma {:induction false} CarriedIsLast(raw: seq<Line>, id: string)
    ensures IsLastEmplId(raw, id, CarriedEmplId(raw, id))
    decreases |raw|
  {
    if raw != [] {
      var front, last := raw[..|raw| - 1], raw[|raw| - 1];
      CarriedIsLast(front, id);
      if ItemId(last) == id && last.emplId != "" {
        assert LastWithEmplId(raw, id, |raw| - 1);
      } else if CarriedEmplId(front, id) != "" {
        var k :| LastWithEmplId(front, id, k) && front[k].emplId == CarriedEmplId(front, id);
        assert LastWithEmplId(raw, id, k) && raw[k].emplId == front[k].emplId;
      }
    }
  }

  /** The item's newest line, with its own employee id or else the last one known. */
  ghost predicate IsCarriedNewest(raw: seq<Line>, l: Line) {
    exists k: nat :: k < |raw| && IsNewestAt(raw, k) && l == raw[k].(emplId := l.emplId)
      && (if raw[k].emplId != "" then l.emplId == raw[k].emplId else IsLastEmplId(raw, ItemId(l), l.emplId))
  }

  lemma CarriedNewest(raw: seq<Line>, l: Line)
    requires IsNewest(raw, l)
    ensures IsCarriedNewest(raw, Carry(raw, l))
  {
    CarriedIsLast(raw, ItemId(l));
    var k: nat :| k < |raw| && raw[k] == l && IsNewestAt(raw, k);
    var r := Carry(raw, l);
    assert r == raw[k].(emplId := r.emplId);
    assert if raw[k].emplId != "" then r.emplId == raw[k].emplId else IsLastEmplId(raw, ItemId(r), r.emplId);
  }

  /** Main result: one row an item, and none missed; each is the item's newest line, with the last known employee id
      where it has none itself. */
  lemma DedupedIs(raw: seq<Line>)
    ensures KeysDistinct(ItemId, Deduped(raw))
    ensures forall k :: 0 <= k < |raw| ==> HasKey(ItemId, Deduped(raw), ItemId(raw[k]))
    ensures forall i, j :: 0 <= i < j < |Deduped(raw)| ==>
      IndexOf(ItemId, raw, ItemId(Deduped(raw)[i])) < IndexOf(ItemId, raw, ItemId(Deduped(raw)[j]))
    ensures forall i :: 0 <= i < |Deduped(raw)| ==> IsCarriedNewest(raw, Deduped(raw)[i])
  {
    var rows, newest := Deduped(raw), Newest(raw);
    NewestIs(raw);
    NewestInOrder(raw);
    assert forall i :: 0 <= i < |rows| ==> ItemId(rows[i]) == ItemId(newest[i]);
    forall k | 0 <= k < |raw|
      ensures HasKey(ItemId, rows, ItemId(raw[k]))
    {
      assert HasKey(ItemId, newest, ItemId(raw[k]));
      CarryKeepsKeys(raw, ItemId(raw[k]));
    }
    forall i | 0 <= i < |rows|
      ensures IsCarriedNewest(raw, rows[i])
    {
      CarriedNewest(raw, newest[i]);
    }
  }

  lemma CarryKeepsKeys(raw: seq<Line>, id: string)
    requires HasKey(ItemId, Newest(raw), id)
    ensures HasKey(ItemId, Deduped(raw), id)
  {
    var i := IndexOf(ItemId, Newest(raw), id);
    HasKeyMeans(ItemId, Deduped(raw), id);
    assert Deduped(raw)[i] in Deduped(raw);
  }

  ghost predicate Remembers(raw: seq<Line>, emplIds: map<string, string>) {
    forall id :: CarriedEmplId(raw, id) == if id in emplIds then emplIds[id] else ""
  }

  lemma RememberStep(raw: seq<Line>, emplIds: map<string, string>, x: Line)
    requires Remembers(raw, emplIds)
    ensures Remembers(raw + [x], if x.emplId != "" then emplIds[ItemId(x) := x.emplId] else emplIds)
  {
    Snoc(raw, x);
  }

  /** The loop over the history, and the pass that carries employee ids forward. */
  method DedupeLatestByIdWithCarriedEmplId(raw: seq<Line>) returns (rows: seq<Line>)
    ensures rows == Deduped(raw)
  {
    var latest: seq<Line> := [];
    var emplIds: map<string, string> := map[];
    for i := 0 to |raw|
      invariant latest == Newest(raw[..i])
      invariant Remembers(raw[..i], emplIds)
    {
      var entry := raw[i];
      RememberStep(raw[..i], emplIds, entry);
      Snoc(raw[..i], entry);
      assert raw[..i + 1] == raw[..i] + [entry];
      var at := IndexOf(ItemId, latest, ItemId(entry));
      if at == |latest| || latest[at].ts <= entry.ts {
        latest := Put(ItemId, latest, entry);
      }
      if entry.emplId != "" {
        emplIds := emplIds[ItemId(entry) := entry.emplId];
      }
    }
    assert raw[..|raw|] == raw;
    rows := CarryForward(raw, latest, emplIds);
  }

  method CarryForward(ghost raw: seq<Line>, latest: seq<Line>, emplIds: map<string, string>) returns (rows: seq<Line>)
    requires Remembers(raw, emplIds)
    ensures |rows| == |latest| && forall k :: 0 <= k < |rows| ==> rows[k] == Carry(raw, latest[k])
  {
    rows := [];
    for i := 0 to |latest|
      invariant |rows| == i && forall k :: 0 <= k < i ==> rows[k] == Carry(raw, latest[k])
    {
      var entry := latest[i];
      assert CarriedEmplId(raw, ItemId(entry)) == if ItemId(entry) in emplIds then emplIds[ItemId(entry)] else "";
      if ItemId(entry) in emplIds && emplIds[ItemId(entry)] != "" && entry.emplId == "" {
        entry := entry.(emplId := emplIds[ItemId(entry)]);
      }
      rows := rows + [entry];
    }
  }

  // ---- One row a person ----

  /** Lines of one employee id are one row; a line without one stands for its item. */
  function MergeKey(l: Line): string { if l.emplId != "" then l.emplId else ItemId(l) }

  function PersonOf(l: Line): Option<string> { Some(MergeKey(l)) }

  function MergeKeys(lines: seq<Line>): seq<string> { Keys(PersonOf, lines) }

  datatype MergedGroup = MergedGroup(primary: Line, siblings: seq<Line>)

  function Lines(g: MergedGroup): seq<Line> { [g.primary] + g.siblings }

  function IsOther(l: Line): bool { !l.eidKeyed }

  function IsEidKeyed(l: Line): bool { l.eidKeyed }

  function Recency(l: Line): int { -l.activity }

  /** The stable sort by `compareMergedPrimaries`: searches by employee id first, newest activity first among a kind. */
  function SortedPrimaries(lines: seq<Line>): seq<Line> {
    Sort(Recency, Filter(IsEidKeyed, lines)) + Sort(Recency, Filter(IsOther, lines))
  }

  predicate ComparesNotAfter(a: Line, b: Line) {
    if a.eidKeyed == b.eidKeyed then a.activity >= b.activity else a.eidKeyed
  }

  lemma {:induction false} FilterSplits(lines: seq<Line>)
    ensures multiset(Filter(IsEidKeyed, lines)) + multiset(Filter(IsOther, lines)) == multiset(lines)
    decreases |lines|
  {
    if lines != [] {
      FilterSplits(lines[..|lines| - 1]);
      Unsnoc(lines);
    }
  }

  lemma SortedKind(kind: Line -> bool, lines: seq<Line>)
    ensures var s := Sort(Recency, Filter(kind, lines));
      && multiset(s) == multiset(Filter(kind, lines))
      && (forall i :: 0 <= i < |s| ==> kind(s[i]))
      && (forall i, j :: 0 <= i < j < |s| ==> s[i].activity >= s[j].activity)
  {
    var kept, s := Filter(kind, lines), Sort(Recency, Filter(kind, lines));
    SortPermutes(Recency, kept);
    SortOrdered(Recency, kept);
    forall i | 0 <= i < |s|
      ensures kind(s[i])
    {
      assert s[i] in multiset(s);
      FilterHas(kind, lines, s[i]);
    }
    forall i, j | 0 <= i < j < |s|
      ensures s[i].activity >= s[j].activity
    {
      assert Recency(s[i]) <= Recency(s[j]);
    }
  }

  /** The order is that of the comparison, and nothing is lost. */
  lemma SortedPrimariesAre(lines: seq<Line>)
    ensures multiset(SortedPrimaries(lines)) == multiset(lines) && |SortedPrimaries(lines)| == |lines|
    ensures var s := SortedPrimaries(lines); forall i, j :: 0 <= i < j < |s| ==> ComparesNotAfter(s[i], s[j])
  {
    FilterSplits(lines);
    SortedKind(IsEidKeyed, lines);
    SortedKind(IsOther, lines);
    var s := SortedPrimaries(lines);
    assert multiset(s) == multiset(lines);
    assert |s| == |multiset(s)| && |lines| == |multiset(lines)|;
  }

  lemma SortedSize(lines: seq<Line>)
    ensures |SortedPrimaries(lines)| == |lines|
  {
    SortedPrimariesAre(lines);
  }

  function GroupOf(bucket: seq<Line>): MergedGroup
    requires bucket != []
  {
    SortedSize(bucket);
    MergedGroup(SortedPrimaries(bucket)[0], SortedPrimaries(bucket)[1..])
  }

  function Groups(lines: seq<Line>): (groups: seq<MergedGroup>)
    ensures |groups| == |MergeKeys(lines)|
    ensures forall i :: 0 <= i < |groups| ==> groups[i] == GroupOf(RowsAt(PersonOf, lines, i))
  {
    seq(|MergeKeys(lines)|, i requires 0 <= i < |MergeKeys(lines)| => GroupOf(RowsAt(PersonOf, lines, i)))
  }

  /** A group is its bucket, with the row the comparison puts first in front. */
  lemma GroupIs(bucket: seq<Line>)
    requires bucket != []
    ensures multiset(Lines(GroupOf(bucket))) == multiset(bucket)
    ensures GroupOf(bucket).primary in bucket
    ensures forall l :: l in bucket ==> l == GroupOf(bucket).primary || ComparesNotAfter(GroupOf(bucket).primary, l)
  {
    var s := SortedPrimaries(bucket);
    SortedPrimariesAre(bucket);
    assert Lines(GroupOf(bucket)) == s;
    assert s[0] in multiset(bucket);
    forall l | l in bucket
      ensures l == s[0] || ComparesNotAfter(s[0], l)
    {
      assert l in multiset(s);
      var j: nat :| j < |s| && s[j] == l;
      assert j > 0 ==> ComparesNotAfter(s[0], s[j]);
    }
  }

  /** Main result: every line is in the one group of its person, as often as it was there, and in no other; the
      primary is what the comparison puts first. */
  lemma EveryLineInOneGroup(lines: seq<Line>, i: nat, l: Line)
    requires i < |Groups(lines)|
    ensures multiset(Lines(Groups(lines)[i]))[l] == if MergeKey(l) == MergeKeys(lines)[i] then multiset(lines)[l] else 0
    ensures l in lines && MergeKey(l) == MergeKeys(lines)[i] ==>
      l == Groups(lines)[i].primary || ComparesNotAfter(Groups(lines)[i].primary, l)
  {
    GroupIs(RowsAt(PersonOf, lines, i));
    BucketHas(lines, i, l);
    assert Groups(lines)[i] == GroupOf(RowsAt(PersonOf, lines, i));
  }

  lemma BucketHas(lines: seq<Line>, i: nat, l: Line)
    requires i < |MergeKeys(lines)|
    ensures multiset(RowsAt(PersonOf, lines, i))[l]
      == if MergeKey(l) == MergeKeys(lines)[i] then multiset(lines)[l] else 0
    ensures l in RowsAt(PersonOf, lines, i) <==> l in lines && MergeKey(l) == MergeKeys(lines)[i]
  {
    var key := MergeKeys(lines)[i];
    FilterCounts(Under(PersonOf, key), lines, l);
    FilterHas(Under(PersonOf, key), lines, l);
    var keep := Under(PersonOf, key);
    assert PersonOf(l) == Some(MergeKey(l));
    assert keep(l) <==> PersonOf(l) == Some(key);
    assert keep(l) <==> MergeKey(l) == key;
  }

  // ---- The groups by fields ----

  /** One employee id, or one item where neither line has an employee id; an employee id may also stand as an item's
      id. */
  predicate SamePerson(a: Line, b: Line) {
    || (a.emplId != "" && b.emplId != "" && a.emplId == b.emplId)
    || (a.emplId == "" && b.emplId == "" && a.row.id == b.row.id)
    || (a.emplId != "" && b.emplId == "" && a.emplId == b.row.id)
    || (a.emplId == "" && b.emplId != "" && a.row.id == b.emplId)
  }

  function OfPerson(p: Line): Line -> bool { (l: Line) => SamePerson(l, p) }

  /** Of the lines kept, the first that no other comes before. */
  ghost predicate IsFirstBest(keep: Line -> bool, lines: seq<Line>, x: Line) {
    exists k: nat :: k < |lines| && lines[k] == x && keep(x)
      && forall j: nat :: j < |lines| && keep(lines[j]) ==>
           ComparesNotAfter(x, lines[j]) && (j < k ==> !ComparesNotAfter(lines[j], x))
  }

  /** The places in the list at which the groups' people come first. */
  ghost predicate ByFirstLine(lines: seq<Line>, groups: seq<MergedGroup>, at: seq<nat>) {
    && |at| == |groups| && (forall i, j :: 0 <= i < j < |at| ==> at[i] < at[j])
    && forall i :: 0 <= i < |at| ==>
         && at[i] < |lines| && SamePerson(lines[at[i]], groups[i].primary)
         && forall j :: 0 <= j < at[i] ==> !SamePerson(lines[j], groups[i].primary)
  }

  /** One group a person, in the order in which they come first: all of their lines and nobody else's, and in front the
      first of their lines that no other comes before. */
  ghost predicate GroupedByPerson(lines: seq<Line>, groups: seq<MergedGroup>) {
    && (forall i :: 0 <= i < |groups| ==>
          var p := groups[i].primary;
          && IsFirstBest(OfPerson(p), lines, p)
          && forall l :: multiset(Lines(groups[i]))[l] == if SamePerson(l, p) then multiset(lines)[l] else 0)
    && (exists at :: ByFirstLine(lines, groups, at))
    && (forall l :: l in lines ==> exists i :: 0 <= i < |groups| && SamePerson(l, groups[i].primary))
  }

  lemma SamePersonMeans(a: Line, b: Line)
    ensures SamePerson(a, b) <==> MergeKey(a) == MergeKey(b)
  {
  }

  lemma SortedFirst(lines: seq<Line>, x: Line)
    ensures var s, t := Sort(Recency, lines), Sort(Recency, lines + [x]);
      |s| == |lines| && |t| == |lines| + 1
        && t[0] == if lines == [] || x.activity > s[0].activity then x else s[0]
  {
    var s := Sort(Recency, lines);
    SortSnoc(Recency, lines, x);
    SortSize(Recency, lines);
    SortSize(Recency, lines + [x]);
    SortOrdered(Recency, lines);
    forall y | y in s
      ensures Recency(s[0]) <= Recency(y)
    {
      var k :| 0 <= k < |s| && s[k] == y;
      assert k > 0 ==> Recency(s[0]) <= Recency(s[k]);
    }
    InsertFirst(Recency, s, x);
  }

  /** What a further line does to the line in front. */
  lemma FrontMore(bucket: seq<Line>, x: Line)
    ensures |SortedPrimaries(bucket)| == |bucket| && |SortedPrimaries(bucket + [x])| == |bucket| + 1
    ensures SortedPrimaries(bucket + [x])[0]
         == if bucket == [] || !ComparesNotAfter(SortedPrimaries(bucket)[0], x) then x else SortedPrimaries(bucket)[0]
  {
    var eids, others := Filter(IsEidKeyed, bucket), Filter(IsOther, bucket);
    SortedSize(bucket);
    SortedSize(bucket + [x]);
    FilterSnoc(IsEidKeyed, bucket, x);
    FilterSnoc(IsOther, bucket, x);
    assert eids + [] == eids && others + [] == others;
    KindsInFront(bucket);
    if x.eidKeyed {
      SortedFirst(eids, x);
      assert SortedPrimaries(bucket + [x]) == Sort(Recency, eids + [x]) + Sort(Recency, others);
    } else {
      SortedFirst(others, x);
      assert SortedPrimaries(bucket + [x]) == Sort(Recency, eids) + Sort(Recency, others + [x]);
    }
  }

  /** Whoever searches by employee id stands in front, if anyone does. */
  lemma KindsInFront(bucket: seq<Line>)
    ensures var eids, others := Sort(Recency, Filter(IsEidKeyed, bucket)), Sort(Recency, Filter(IsOther, bucket));
      && SortedPrimaries(bucket) == eids + others && |eids| + |others| == |bucket|
      && |eids| == |Filter(IsEidKeyed, bucket)| && |others| == |Filter(IsOther, bucket)|
      && (eids != [] ==> eids[0].eidKeyed) && (others != [] ==> !others[0].eidKeyed)
  {
    SortedSize(bucket);
    SortSize(Recency, Filter(IsEidKeyed, bucket));
    SortSize(Recency, Filter(IsOther, bucket));
    SortedKind(IsEidKeyed, bucket);
    SortedKind(IsOther, bucket);
  }

  lemma BestKept(keep: Line -> bool, lines: seq<Line>, x: Line, best: Line)
    requires IsFirstBest(keep, lines, best) && (keep(x) ==> ComparesNotAfter(best, x))
    ensures IsFirstBest(keep, lines + [x], best)
  {
    var k: nat :| k < |lines| && lines[k] == best && keep(best)
      && forall j: nat :: j < |lines| && keep(lines[j]) ==>
           ComparesNotAfter(best, lines[j]) && (j < k ==> !ComparesNotAfter(lines[j], best));
    assert (lines + [x])[k] == best;
  }

  lemma BestReplaced(keep: Line -> bool, lines: seq<Line>, x: Line, best: Line)
    requires IsFirstBest(keep, lines, best) && keep(x) && !ComparesNotAfter(best, x)
    ensures IsFirstBest(keep, lines + [x], x)
  {
    assert (lines + [x])[|lines|] == x;
  }

  lemma BestAlone(keep: Line -> bool, lines: seq<Line>, x: Line)
    requires keep(x) && forall l :: l in lines ==> !keep(l)
    ensures IsFirstBest(keep, lines + [x], x)
  {
    assert (lines + [x])[|lines|] == x;
    assert forall j :: 0 <= j < |lines| ==> lines[j] in lines;
  }

  lemma BestStep(keep: Line -> bool, lines: seq<Line>, x: Line, none: bool, best: Line, next: Line)
    requires keep(x) && next == if none || !ComparesNotAfter(best, x) then x else best
    requires if none then forall l :: l in lines ==> !keep(l) else IsFirstBest(keep, lines, best)
    ensures IsFirstBest(keep, lines + [x], next)
  {
    if none {
      BestAlone(keep, lines, x);
    } else if ComparesNotAfter(best, x) {
      BestKept(keep, lines, x, best);
    } else {
      BestReplaced(keep, lines, x, best);
    }
  }

  lemma NoneKept(keep: Line -> bool, lines: seq<Line>)
    requires Filter(keep, lines) == []
    ensures forall l :: l in lines ==> !keep(l)
  {
    forall l | l in lines
      ensures !keep(l)
    {
      FilterHas(keep, lines, l);
    }
  }

  /** The line in front of those kept; any line where none is. */
  function Front(bucket: seq<Line>, other: Line): Line {
    SortedSize(bucket);
    if bucket == [] then other else SortedPrimaries(bucket)[0]
  }

  lemma FrontSnoc(bucket: seq<Line>, x: Line)
    ensures Front(bucket + [x], x)
      == if bucket == [] || !ComparesNotAfter(Front(bucket, x), x) then x else Front(bucket, x)
  {
    FrontMore(bucket, x);
  }

  lemma FrontOfSome(bucket: seq<Line>, a: Line, b: Line)
    requires bucket != []
    ensures Front(bucket, a) == Front(bucket, b)
  {
  }

  lemma {:induction false} FrontIsFirstBest(keep: Line -> bool, lines: seq<Line>, other: Line)
    ensures Filter(keep, lines) != [] ==> IsFirstBest(keep, lines, Front(Filter(keep, lines), other))
    decreases |lines|
  {
    if lines != [] {
      var front, x := lines[..|lines| - 1], lines[|lines| - 1];
      FrontIsFirstBest(keep, front, x);
      Unsnoc(lines);
      FrontAfter(keep, front, x, other);
    }
  }

  lemma FrontAfter(keep: Line -> bool, lines: seq<Line>, x: Line, other: Line)
    requires Filter(keep, lines) != [] ==> IsFirstBest(keep, lines, Front(Filter(keep, lines), x))
    ensures Filter(keep, lines + [x]) != [] ==>
      IsFirstBest(keep, lines + [x], Front(Filter(keep, lines + [x]), other))
  {
    var bucket := Filter(keep, lines);
    FilterSnoc(keep, lines, x);
    if keep(x) {
      FrontSnoc(bucket, x);
      FrontOfSome(bucket + [x], x, other);
      if bucket == [] {
        NoneKept(keep, lines);
      }
      BestStep(keep, lines, x, bucket == [], Front(bucket, x), Front(bucket + [x], x));
    } else if bucket != [] {
      assert bucket + [] == bucket;
      FrontOfSome(bucket, x, other);
      BestKept(keep, lines, x, Front(bucket, x));
    }
  }

  lemma SameBest(p: Line -> bool, q: Line -> bool, lines: seq<Line>, x: Line)
    requires IsFirstBest(p, lines, x) && forall l :: p(l) <==> q(l)
    ensures IsFirstBest(q, lines, x)
  {
  }

  lemma KeepsPerson(key: string, p: Line, l: Line)
    requires MergeKey(p) == key
    ensures OfPerson(p)(l) <==> Under(PersonOf, key)(l)
  {
    var keep, of := Under(PersonOf, key), OfPerson(p);
    SamePersonMeans(l, p);
    assert keep(l) <==> PersonOf(l) == Some(key);
    assert of(l) <==> SamePerson(l, p);
  }

  lemma GroupHasPerson(lines: seq<Line>, i: nat, l: Line)
    requires i < |Groups(lines)|
    ensures multiset(Lines(Groups(lines)[i]))[l]
         == if SamePerson(l, Groups(lines)[i].primary) then multiset(lines)[l] else 0
  {
    PrimaryIsLine(lines, i);
    SamePersonMeans(l, Groups(lines)[i].primary);
    EveryLineInOneGroup(lines, i, l);
  }

  lemma PrimaryIsBest(lines: seq<Line>, i: nat)
    requires i < |Groups(lines)|
    ensures IsFirstBest(OfPerson(Groups(lines)[i].primary), lines, Groups(lines)[i].primary)
  {
    var key, p := MergeKeys(lines)[i], Groups(lines)[i].primary;
    PrimaryIsLine(lines, i);
    assert Groups(lines)[i] == GroupOf(RowsAt(PersonOf, lines, i)) && p == Front(RowsAt(PersonOf, lines, i), p);
    FrontIsFirstBest(Under(PersonOf, key), lines, p);
    forall l
      ensures Under(PersonOf, key)(l) <==> OfPerson(p)(l)
    {
      KeepsPerson(key, p, l);
    }
    SameBest(Under(PersonOf, key), OfPerson(p), lines, p);
  }

  lemma GroupsInOrder(lines: seq<Line>) returns (at: seq<nat>)
    ensures ByFirstLine(lines, Groups(lines), at)
  {
    var groups, keys := Groups(lines), MergeKeys(lines);
    at := KeysInFirstOrder(PersonOf, lines);
    forall i | 0 <= i < |at|
      ensures at[i] < |lines| && SamePerson(lines[at[i]], groups[i].primary)
      ensures forall j :: 0 <= j < at[i] ==> !SamePerson(lines[j], groups[i].primary)
    {
      assert FirstAt(PersonOf, lines, keys[i], at[i]);
      PrimaryIsLine(lines, i);
    }
  }

  /** Main result: who is grouped with whom, and who stands in front, read off the lines. */
  lemma GroupsAre(lines: seq<Line>)
    ensures GroupedByPerson(lines, Groups(lines))
  {
    var groups := Groups(lines);
    forall i | 0 <= i < |groups|
      ensures IsFirstBest(OfPerson(groups[i].primary), lines, groups[i].primary)
      ensures forall l ::
        multiset(Lines(groups[i]))[l] == if SamePerson(l, groups[i].primary) then multiset(lines)[l] else 0
    {
      PrimaryIsBest(lines, i);
      forall l
        ensures multiset(Lines(groups[i]))[l] == if SamePerson(l, groups[i].primary) then multiset(lines)[l] else 0
      {
        GroupHasPerson(lines, i, l);
      }
    }
    var at := GroupsInOrder(lines);
    KeysAre(PersonOf, lines);
    forall l | l in lines
      ensures exists i :: 0 <= i < |groups| && SamePerson(l, groups[i].primary)
    {
      assert MergeKey(l) in MergeKeys(lines);
      var i :| 0 <= i < |groups| && MergeKeys(lines)[i] == MergeKey(l);
      PrimaryIsLine(lines, i);
      SamePersonMeans(l, groups[i].primary);
    }
  }

  method GroupMergedTrackerEntries(lines: seq<Line>) returns (groups: seq<MergedGroup>)
    ensures groups == Groups(lines) && GroupedByPerson(lines, groups)
  {
    GroupsAre(lines);
    var buckets := Tabulate(PersonOf, lines);
    forall i | 0 <= i < |buckets|
      ensures Merges(buckets[i].rows, Groups(lines)[i])
    {
      GroupAt(lines, buckets, i);
    }
    groups := GroupEach(buckets, Merges);
    forall i | 0 <= i < |groups|
      ensures groups[i] == Groups(lines)[i]
    {
      assert Merges(buckets[i].rows, groups[i]);
    }
  }

  predicate Merges(bucket: seq<Line>, g: MergedGroup) { bucket != [] && g == GroupOf(bucket) }

  method MergeBucket(bucket: seq<Line>, ghost fits: (seq<Line>, MergedGroup) -> bool) returns (g: MergedGroup)
    requires bucket != [] && Follows(fits)
    ensures fits(bucket, g)
  {
    if |bucket| == 1 {
      LoneGroup(bucket);
      g := MergedGroup(bucket[0], []);
    } else {
      SortedSize(bucket);
      var sorted := SortedPrimaries(bucket);
      g := MergedGroup(sorted[0], sorted[1..]);
    }
    assert Merges(bucket, g);
  }

  lemma GroupAt(lines: seq<Line>, buckets: seq<Bucket<Line>>, i: nat)
    requires Tabulates(PersonOf, lines, buckets) && i < |buckets|
    ensures Merges(buckets[i].rows, Groups(lines)[i])
  {
    assert buckets[i] == BucketOf(PersonOf, lines, MergeKeys(lines)[i])
      && buckets[i].rows == RowsAt(PersonOf, lines, i);
  }

  /** `fits` stands for `Merges`, so that the loop need not look inside the sort. */
  ghost predicate Follows(fits: (seq<Line>, MergedGroup) -> bool) {
    forall bucket: seq<Line>, g: MergedGroup :: Merges(bucket, g) ==> fits(bucket, g)
  }

  method GroupEach(buckets: seq<Bucket<Line>>, ghost fits: (seq<Line>, MergedGroup) -> bool)
    returns (groups: seq<MergedGroup>)
    requires Follows(fits) && forall i :: 0 <= i < |buckets| ==> buckets[i].rows != []
    ensures |groups| == |buckets| && forall i :: 0 <= i < |groups| ==> fits(buckets[i].rows, groups[i])
  {
    groups := [];
    for i := 0 to |buckets|
      invariant |groups| == i && forall k :: 0 <= k < i ==> fits(buckets[k].rows, groups[k])
    {
      var g := MergeBucket(buckets[i].rows, fits);
      groups := groups + [g];
    }
  }

  lemma LoneGroup(bucket: seq<Line>)
    requires |bucket| == 1
    ensures GroupOf(bucket) == MergedGroup(bucket[0], [])
  {
    SortedPrimariesAre(bucket);
    assert SortedPrimaries(bucket)[0] in multiset(bucket);
  }

  // ---- The rail's counts ----

  function RowOf(l: Line): Queue.Entry { l.row }

  function Rows(lines: seq<Line>): (rows: seq<Queue.Entry>)
    ensures |rows| == |lines| && forall i :: 0 <= i < |rows| ==> rows[i] == RowOf(lines[i])
  {
    seq(|lines|, i requires 0 <= i < |lines| => RowOf(lines[i]))
  }

  function Primaries(groups: seq<MergedGroup>): (lines: seq<Line>)
    ensures |lines| == |groups| && forall i :: 0 <= i < |lines| ==> lines[i] == groups[i].primary
  {
    seq(|groups|, i requires 0 <= i < |groups| => groups[i].primary)
  }

  /** The newest lines that are not excluded, and of those one for each person. */
  function SidebarLines(raw: seq<Line>, kept: Line -> bool): seq<Line> { Filter(kept, Deduped(raw)) }

  function SidebarPrimaries(raw: seq<Line>, kept: Line -> bool): seq<Line> {
    Primaries(Groups(SidebarLines(raw, kept)))
  }

  lemma {:induction false} FilterKeepsApart(keep: Line -> bool, lines: seq<Line>)
    requires KeysDistinct(ItemId, lines)
    ensures KeysDistinct(ItemId, Filter(keep, lines))
    decreases |lines|
  {
    if lines != [] {
      var front, last := lines[..|lines| - 1], lines[|lines| - 1];
      FilterKeepsApart(keep, front);
      forall l | l in Filter(keep, front)
        ensures ItemId(l) != ItemId(last)
      {
        FilterHas(keep, front, l);
        var k :| 0 <= k < |front| && lines[k] == l;
        assert ItemId(lines[k]) != ItemId(lines[|lines| - 1]);
      }
      SnocApart(Filter(keep, front), last);
    }
  }

  lemma SnocApart(lines: seq<Line>, x: Line)
    requires KeysDistinct(ItemId, lines) && forall l :: l in lines ==> ItemId(l) != ItemId(x)
    ensures KeysDistinct(ItemId, lines + [x])
  {
    assert forall k :: 0 <= k < |lines| ==> lines[k] in lines;
  }

  lemma PrimaryIsLine(lines: seq<Line>, i: nat)
    requires i < |Groups(lines)|
    ensures Groups(lines)[i].primary in lines && MergeKey(Groups(lines)[i].primary) == MergeKeys(lines)[i]
  {
    GroupIs(RowsAt(PersonOf, lines, i));
    assert Groups(lines)[i] == GroupOf(RowsAt(PersonOf, lines, i));
    BucketHas(lines, i, Groups(lines)[i].primary);
  }

  /** One primary a person: their merge keys are all different and cover every line. */
  lemma PrimariesAre(lines: seq<Line>)
    ensures KeysDistinct(MergeKey, Primaries(Groups(lines)))
    ensures forall p :: p in Primaries(Groups(lines)) ==> p in lines
    ensures forall l :: l in lines ==> HasKey(MergeKey, Primaries(Groups(lines)), MergeKey(l))
  {
    var primaries, keys := Primaries(Groups(lines)), MergeKeys(lines);
    KeysAre(PersonOf, lines);
    forall i | 0 <= i < |primaries|
      ensures primaries[i] in lines && MergeKey(primaries[i]) == keys[i]
    {
      PrimaryIsLine(lines, i);
    }
    forall l | l in lines
      ensures HasKey(MergeKey, primaries, MergeKey(l))
    {
      assert MergeKey(l) in keys;
      var i :| 0 <= i < |keys| && keys[i] == MergeKey(l);
      assert primaries[i] in primaries;
      HasKeyMeans(MergeKey, primaries, MergeKey(l));
    }
  }

  // The queue surfaces are given the primaries to show, and every kept line as a source of members.

  lemma PrimariesApart(lines: seq<Line>)
    requires KeysDistinct(ItemId, lines)
    ensures KeysDistinct(ItemId, Primaries(Groups(lines)))
  {
    var primaries := Primaries(Groups(lines));
    PrimariesAre(lines);
    forall i, j | 0 <= i < j < |primaries|
      ensures ItemId(primaries[i]) != ItemId(primaries[j])
    {
      assert primaries[i] in primaries && primaries[j] in primaries;
      assert MergeKey(primaries[i]) != MergeKey(primaries[j]);
      if ItemId(primaries[i]) == ItemId(primaries[j]) {
        SameIdSameLine(lines, primaries[i], primaries[j]);
      }
    }
  }

  lemma SidebarLinesApart(raw: seq<Line>, kept: Line -> bool)
    ensures KeysDistinct(ItemId, SidebarLines(raw, kept))
  {
    DedupedIs(raw);
    FilterKeepsApart(kept, Deduped(raw));
  }

  lemma SameIdSameLine(lines: seq<Line>, a: Line, b: Line)
    requires KeysDistinct(ItemId, lines) && a in lines && b in lines && ItemId(a) == ItemId(b)
    ensures a == b
  {
    var i :| 0 <= i < |lines| && lines[i] == a;
    var j :| 0 <= j < |lines| && lines[j] == b;
  }

  predicate PlainRows(lines: seq<Line>) {
    forall i :: 0 <= i < |lines| ==> NoNul(lines[i].row.workflow) && NoNul(lines[i].row.id)
  }

  /** Different items have different entry keys, when workflows and ids hold no NUL. */
  lemma RowKeysApart(lines: seq<Line>)
    requires KeysDistinct(ItemId, lines) && PlainRows(lines)
    ensures KeysDistinct(Queue.EntryKey, Rows(lines))
  {
    var rows := Rows(lines);
    forall i, j | 0 <= i < j < |rows|
      ensures Queue.EntryKey(rows[i]) != Queue.EntryKey(rows[j])
    {
      assert ItemId(lines[i]) != ItemId(lines[j]);
      if Queue.EntryKey(rows[i]) == Queue.EntryKey(rows[j]) {
        SameEntryKey(rows[i], rows[j]);
      }
    }
  }

  lemma SameEntryKey(a: Queue.Entry, b: Queue.Entry)
    requires NoNul(a.workflow) && NoNul(a.id) && NoNul(b.workflow) && NoNul(b.id)
    requires Queue.EntryKey(a) == Queue.EntryKey(b)
    ensures a.workflow == b.workflow && a.id == b.id
  {
    var ra, rb := if a.runId.Some? then a.runId.value else "", if b.runId.Some? then b.runId.value else "";
    assert Queue.EntryKey(a) == a.workflow + "\0" + (a.id + "\0" + ra);
    assert Queue.EntryKey(b) == b.workflow + "\0" + (b.id + "\0" + rb);
    CutAtNul(a.workflow, a.id + "\0" + ra, b.workflow, b.id + "\0" + rb);
    CutAtNul(a.id, ra, b.id, rb);
  }

  function SidebarEntries(raw: seq<Line>, kept: Line -> bool): seq<Queue.Entry> { Rows(SidebarPrimaries(raw, kept)) }

  function SidebarSources(raw: seq<Line>, kept: Line -> bool): seq<Queue.Entry> { Rows(SidebarLines(raw, kept)) }

  /** Main result: what the rail hands to the queue surfaces is what they need to show every row exactly once: keys
      apart, and nothing to show that is not among the sources. */
  lemma SidebarInputWellFormed(raw: seq<Line>, kept: Line -> bool)
    requires PlainRows(raw)
    ensures KeysDistinct(Queue.EntryKey, SidebarEntries(raw, kept))
      && KeysDistinct(Queue.EntryKey, SidebarSources(raw, kept))
    ensures forall e :: e in SidebarEntries(raw, kept) ==> e in SidebarSources(raw, kept)
  {
    var lines := SidebarLines(raw, kept);
    SidebarLinesApart(raw, kept);
    SidebarLinesPlain(raw, kept);
    GroupedWellFormed(lines);
  }

  lemma GroupedWellFormed(lines: seq<Line>)
    requires KeysDistinct(ItemId, lines) && PlainRows(lines)
    ensures KeysDistinct(Queue.EntryKey, Rows(Primaries(Groups(lines)))) && KeysDistinct(Queue.EntryKey, Rows(lines))
    ensures forall e :: e in Rows(Primaries(Groups(lines))) ==> e in Rows(lines)
  {
    var primaries := Primaries(Groups(lines));
    PrimariesAre(lines);
    PrimariesApart(lines);
    assert PlainRows(primaries) by { LinesPlain(primaries, lines); }
    RowKeysApart(lines);
    RowKeysApart(primaries);
    RowsWithin(primaries, lines);
  }

  lemma LinesPlain(some: seq<Line>, lines: seq<Line>)
    requires PlainRows(lines) && forall l :: l in some ==> l in lines
    ensures PlainRows(some)
  {
    forall i | 0 <= i < |some|
      ensures NoNul(some[i].row.workflow) && NoNul(some[i].row.id)
    {
      assert some[i] in lines;
    }
  }

  lemma RowsWithin(some: seq<Line>, lines: seq<Line>)
    requires forall l :: l in some ==> l in lines
    ensures forall e :: e in Rows(some) ==> e in Rows(lines)
  {
    forall e | e in Rows(some)
      ensures e in Rows(lines)
    {
      var i :| 0 <= i < |some| && RowOf(some[i]) == e;
      assert some[i] in lines;
      var k :| 0 <= k < |lines| && lines[k] == some[i];
      assert Rows(lines)[k] == e;
    }
  }

  lemma SidebarLinesPlain(raw: seq<Line>, kept: Line -> bool)
    requires PlainRows(raw)
    ensures PlainRows(SidebarLines(raw, kept))
  {
    var lines := SidebarLines(raw, kept);
    DedupedIs(raw);
    forall i | 0 <= i < |lines|
      ensures NoNul(lines[i].row.workflow) && NoNul(lines[i].row.id)
    {
      FilterHas(kept, Deduped(raw), lines[i]);
      assert IsCarriedNewest(raw, lines[i]);
      var k: nat :| k < |raw| && lines[i].row == raw[k].row;
    }
  }

  /** Each person's row is on the rail exactly once, unless it is an anchor below a root that persists. */
  lemma SidebarShowsEachOnce(raw: seq<Line>, kept: Line -> bool, policies: Queue.Policies, e: Queue.Entry)
    requires PlainRows(raw) && e in SidebarEntries(raw, kept)
    requires Queue.AllStamped(SidebarEntries(raw, kept)) && Queue.AllStamped(SidebarSources(raw, kept))
    requires Queue.OneKindEach(Queue.Visible(SidebarEntries(raw, kept)))
      && Queue.OneCardEach(Queue.Visible(SidebarEntries(raw, kept)))
    requires !Queue.IsDiscarded(e)
    requires Queue.IsAnchor(e) && Queue.HasParent(e) ==>
      e.parentRunId.value !in Queue.RootPersisting(Queue.Visible(SidebarSources(raw, kept)), policies)
    ensures Queue.Shown(Queue.SurfacesFor(SidebarEntries(raw, kept), SidebarSources(raw, kept), policies), e) == 1
  {
    SidebarInputWellFormed(raw, kept);
    Queue.EverythingShownOnce(SidebarEntries(raw, kept), SidebarSources(raw, kept), policies, e);
  }

  /** Both badges from one history: the queued one counts some of what the total counts. */
  method CountSidebar(raw: seq<Line>, kept: Line -> bool, policies: Queue.Policies)
    returns (total: nat, queued: nat, ok: bool)
    ensures ok <==> Queue.AllStamped(SidebarEntries(raw, kept)) && Queue.AllStamped(SidebarSources(raw, kept))
    ensures ok ==>
      var s := Queue.SurfacesFor(SidebarEntries(raw, kept), SidebarSources(raw, kept), policies);
      && total == |s.groups| + |s.flat|
      && queued == CountWhere(Queue.SurfaceIsQueued, s.groups) + CountWhere(Queue.IsQueueLike, s.flat)
    ensures queued <= total
  {
    var deduped := DedupeLatestByIdWithCarriedEmplId(raw);
    var visible := Filter(kept, deduped);
    var groups := GroupMergedTrackerEntries(visible);
    var s := Queue.BuildTrackerQueueSurfaces(Rows(Primaries(groups)), Rows(visible), policies);
    if s.None? {
      return 0, 0, false;
    }
    queued := Queue.CountQueued(s.value);
    total, ok := |s.value.groups| + |s.value.flat|, true;
  }
}
