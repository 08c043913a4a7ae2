/** Tracker rows collapsed into queue cards and flat rows, and the proof that every row is shown once. */
module QueueSurfaces {
  import opened Common
  import opened KeyedList

  datatype Status = Queued | Running | Done | Failed | Skipped

  /** A tracker row as far as the queue looks at it; `stamp` and `mode` are `data.archetype` and `data.mode`. */
  datatype Entry = Entry(
    workflow: string, id: string, runId: Option<string>, parentRunId: Option<string>,
    status: Status, step: Option<string>, stamp: Option<string>, mode: Option<string>)

  datatype Shape = Single | Preview | Operation | OperationMember

  /** Delegation policy of a workflow. */
  datatype Policy = Policy(rootRowPersistsThroughChildren: bool, alwaysOperationDelegatedMembers: bool)

  type Policies = string -> Policy

  // ---- Row predicates ----

  predicate ValidStamp(e: Entry) {
    e.stamp.None? || e.stamp.value in ["single", "preview", "operation", "operation-member", "batch", "batch-member"]
  }

  predicate AllStamped(es: seq<Entry>) { forall i :: 0 <= i < |es| ==> ValidStamp(es[i]) }

  function ShapeOf(e: Entry): Shape
    requires ValidStamp(e)
  {
    if e.stamp.None? then Single
    else if e.stamp.value == "batch" || e.stamp.value == "operation" then Operation
    else if e.stamp.value == "batch-member" || e.stamp.value == "operation-member" then OperationMember
    else if e.stamp.value == "preview" then Preview
    else Single
  }

  predicate IsPreviewAnchor(e: Entry)
    requires ValidStamp(e)
  {
    || ShapeOf(e) == Preview
    || (e.stamp == Some("batch") && e.workflow == "ocr" && e.mode == Some("prepare"))
  }

  predicate IsLegacyBatchAnchor(e: Entry)
    requires ValidStamp(e)
  {
    e.stamp == Some("batch") && !IsPreviewAnchor(e)
  }

  predicate IsOperationAnchor(e: Entry)
    requires ValidStamp(e)
  {
    ShapeOf(e) == Operation || IsLegacyBatchAnchor(e)
  }

  predicate IsPrepAnchor(e: Entry)
    requires ValidStamp(e)
  {
    IsPreviewAnchor(e) || (ShapeOf(e) == Operation && e.mode == Some("prepare"))
  }

  predicate IsDiscarded(e: Entry)
    requires ValidStamp(e)
  {
    IsPrepAnchor(e) && e.status == Failed && e.step == Some("discarded")
  }

  predicate IsVisiblePreviewAnchor(e: Entry)
    requires ValidStamp(e)
  {
    IsPreviewAnchor(e) && !IsDiscarded(e)
  }

  predicate IsApproved(e: Entry)
    requires ValidStamp(e)
  {
    IsPreviewAnchor(e) && e.status == Done && (e.step == Some("approved") || e.workflow == "ocr")
  }

  predicate IsAnchor(e: Entry)
    requires ValidStamp(e)
  {
    IsOperationAnchor(e) || IsVisiblePreviewAnchor(e)
  }

  function RunIdFor(e: Entry): string { if e.runId.Some? then e.runId.value else e.id }

  /** An empty parent id counts as none. */
  predicate HasParent(e: Entry) { e.parentRunId.Some? && e.parentRunId.value != "" }

  function EntryKey(e: Entry): string {
    e.workflow + "\0" + e.id + "\0" + (if e.runId.Some? then e.runId.value else "")
  }

  predicate IsQueueLike(e: Entry) {
    || e.status == Queued || e.status == Skipped
    || (e.status == Running && e.step.Some? && "auth:" <= e.step.value)
    || (e.workflow == "ocr" && e.status == Running && e.step == Some("awaiting-approval") && HasParent(e))
  }

  // ---- Projection, as functions ----

  function Visible(es: seq<Entry>): (r: seq<Entry>)
    requires AllStamped(es)
    ensures AllStamped(r)
    ensures forall e :: e in r ==> e in es && ValidStamp(e) && !IsDiscarded(e)
  {
    if es == [] then []
    else (if IsDiscarded(es[0]) then [] else [es[0]]) + Visible(es[1..])
  }

  function RootPersisting(es: seq<Entry>, policies: Policies): set<string>
    requires AllStamped(es)
  {
    set e | e in es && ValidStamp(e) && IsOperationAnchor(e)
            && policies(e.workflow).rootRowPersistsThroughChildren :: RunIdFor(e)
  }

  /** Anchors are cards of their own, unless they sit under an operation whose root row persists. */
  predicate IsMember(e: Entry, persisting: set<string>)
    requires ValidStamp(e)
  {
    HasParent(e) && (IsAnchor(e) ==> e.parentRunId.value in persisting)
  }

  function MembersOf(es: seq<Entry>, persisting: set<string>, parent: string): (r: seq<Entry>)
    requires AllStamped(es)
  {
    if es == [] then []
    else (if IsMember(es[0], persisting) && es[0].parentRunId.value == parent then [es[0]] else [])
         + MembersOf(es[1..], persisting, parent)
  }

  /** Parents of members, in order of first appearance: the key order of `buildMembersByParentRunId`'s Map. */
  function ParentsOf(es: seq<Entry>, persisting: set<string>): (r: seq<string>)
    requires AllStamped(es)
    decreases |es|
  {
    if es == [] then []
    else
      var last := es[|es| - 1];
      var before := ParentsOf(es[..|es| - 1], persisting);
      if IsMember(last, persisting) && last.parentRunId.value !in before
      then before + [last.parentRunId.value] else before
  }

  function PreviewAnchors(es: seq<Entry>): (r: seq<Entry>)
    requires AllStamped(es)
    ensures AllStamped(r)
  {
    if es == [] then []
    else (if IsVisiblePreviewAnchor(es[0]) then [es[0]] else []) + PreviewAnchors(es[1..])
  }

  function OperationAnchors(es: seq<Entry>): (r: seq<Entry>)
    requires AllStamped(es)
    ensures AllStamped(r)
  {
    if es == [] then []
    else (if IsOperationAnchor(es[0]) then [es[0]] else []) + OperationAnchors(es[1..])
  }

  /** One queue card. `parent` is None for the pending shell made up for an absent coordinator. */
  datatype Group = Group(preview: bool, parentRunId: string, parent: Option<Entry>, members: seq<Entry>, approved: bool)

  function AnchorGroups(anchors: seq<Entry>, preview: bool, sources: seq<Entry>, persisting: set<string>): seq<Group>
    requires AllStamped(anchors) && AllStamped(sources)
  {
    if anchors == [] then []
    else
      [Group(preview, RunIdFor(anchors[0]), Some(anchors[0]),
             MembersOf(sources, persisting, RunIdFor(anchors[0])), preview && IsApproved(anchors[0]))]
      + AnchorGroups(anchors[1..], preview, sources, persisting)
  }

  function RunIds(es: seq<Entry>): set<string> { set e | e in es :: RunIdFor(e) }

  predicate StaysFlat(members: seq<Entry>, policies: Policies) {
    |members| == 1 && !policies(members[0].workflow).alwaysOperationDelegatedMembers
  }

  function ShellGroups(parents: seq<string>, anchored: set<string>, sources: seq<Entry>, persisting: set<string>,
                       policies: Policies): seq<Group>
    requires AllStamped(sources)
  {
    if parents == [] then []
    else
      var members := MembersOf(sources, persisting, parents[0]);
      (if parents[0] in anchored || StaysFlat(members, policies) then []
       else [Group(false, parents[0], None, members, false)])
      + ShellGroups(parents[1..], anchored, sources, persisting, policies)
  }

  function LoneChildren(parents: seq<string>, anchored: set<string>, sources: seq<Entry>, persisting: set<string>,
                        policies: Policies): seq<Entry>
    requires AllStamped(sources)
  {
    if parents == [] then []
    else
      var members := MembersOf(sources, persisting, parents[0]);
      (if parents[0] !in anchored && StaysFlat(members, policies) then [members[0]] else [])
      + LoneChildren(parents[1..], anchored, sources, persisting, policies)
  }

  predicate IsFlat(e: Entry, grouped: set<string>, parents: set<string>)
    requires ValidStamp(e)
  {
    !IsAnchor(e) && (HasParent(e) ==> e.parentRunId.value !in grouped && e.parentRunId.value !in parents)
  }

  function FlatOf(es: seq<Entry>, grouped: set<string>, parents: set<string>): seq<Entry>
    requires AllStamped(es)
  {
    if es == [] then []
    else (if IsFlat(es[0], grouped, parents) then [es[0]] else []) + FlatOf(es[1..], grouped, parents)
  }

  function Unique(es: seq<Entry>): seq<Entry>
    decreases |es|
  {
    if es == [] then [] else Put(EntryKey, Unique(es[..|es| - 1]), es[|es| - 1])
  }

  datatype Surfaces = Surfaces(groups: seq<Group>, flat: seq<Entry>)

  function GroupIds(groups: seq<Group>): set<string> { set g | g in groups :: g.parentRunId }

  function Elements<T>(s: seq<T>): set<T> { set x | x in s }

  function Anchored(shown: seq<Entry>): set<string>
    requires AllStamped(shown)
  {
    RunIds(OperationAnchors(shown)) + RunIds(PreviewAnchors(shown))
  }

  /** All cards: preview anchors, operation anchors, then made-up shells. */
  function Cards(shown: seq<Entry>, from: seq<Entry>, persisting: set<string>, policies: Policies): seq<Group>
    requires AllStamped(shown) && AllStamped(from)
  {
    AnchorGroups(PreviewAnchors(shown), true, from, persisting)
    + AnchorGroups(OperationAnchors(shown), false, from, persisting)
    + ShellGroups(ParentsOf(from, persisting), Anchored(shown), from, persisting, policies)
  }

  function GroupsFor(entries: seq<Entry>, sources: seq<Entry>, policies: Policies): seq<Group>
    requires AllStamped(entries) && AllStamped(sources)
  {
    Cards(Visible(entries), Visible(sources), RootPersisting(Visible(sources), policies), policies)
  }

  /** Lone children first, then the rows nothing claims. */
  function FlatRows(shown: seq<Entry>, from: seq<Entry>, persisting: set<string>, policies: Policies): seq<Entry>
    requires AllStamped(shown) && AllStamped(from)
  {
    LoneChildren(ParentsOf(from, persisting), Anchored(shown), from, persisting, policies)
    + FlatOf(shown, GroupIds(Cards(shown, from, persisting, policies)), Elements(ParentsOf(from, persisting)))
  }

  function SurfacesFor(entries: seq<Entry>, sources: seq<Entry>, policies: Policies): Surfaces
    requires AllStamped(entries) && AllStamped(sources)
  {
    Surfaces(GroupsFor(entries, sources, policies),
             Unique(FlatRows(Visible(entries), Visible(sources), RootPersisting(Visible(sources), policies), policies)))
  }

  // ---- Counting where an entry is shown ----

  function Count<T(==)>(s: seq<T>, x: T): nat {
    if s == [] then 0 else (if s[0] == x then 1 else 0) + Count(s[1..], x)
  }

  function AsParent(groups: seq<Group>, e: Entry): nat {
    if groups == [] then 0 else (if groups[0].parent == Some(e) then 1 else 0) + AsParent(groups[1..], e)
  }

  function AsMember(groups: seq<Group>, e: Entry): nat {
    if groups == [] then 0 else Count(groups[0].members, e) + AsMember(groups[1..], e)
  }

  /** How often an entry appears on screen: as a card, inside cards, and as a flat row. */
  function Shown(s: Surfaces, e: Entry): nat {
    AsParent(s.groups, e) + AsMember(s.groups, e) + Count(s.flat, e)
  }

  lemma {:induction false} CountAppend<T>(a: seq<T>, b: seq<T>, x: T)
    ensures Count(a + b, x) == Count(a, x) + Count(b, x)
  {
    if a == [] {
      assert a + b == b;
    } else {
      assert (a + b)[1..] == a[1..] + b;
      CountAppend(a[1..], b, x);
    }
  }

  lemma {:induction false} CountIn<T>(s: seq<T>, x: T)
    ensures Count(s, x) > 0 <==> x in s
  {
    if s != [] {
      CountIn(s[1..], x);
    }
  }

  lemma {:induction false} CountDistinct(es: seq<Entry>, e: Entry)
    requires KeysDistinct(EntryKey, es)
    ensures Count(es, e) <= 1
  {
    if es != [] {
      CountDistinct(es[1..], e);
      if es[0] == e {
        CountIn(es[1..], e);
      }
    }
  }

  lemma {:induction false} AsParentAppend(a: seq<Group>, b: seq<Group>, e: Entry)
    ensures AsParent(a + b, e) == AsParent(a, e) + AsParent(b, e)
    ensures AsMember(a + b, e) == AsMember(a, e) + AsMember(b, e)
  {
    if a == [] {
      assert a + b == b;
    } else {
      assert (a + b)[1..] == a[1..] + b;
      AsParentAppend(a[1..], b, e);
    }
  }

  lemma {:induction false} CountVisible(es: seq<Entry>, e: Entry)
    requires AllStamped(es)
    ensures Count(Visible(es), e) == if ValidStamp(e) && !IsDiscarded(e) then Count(es, e) else 0
  {
    if es != [] {
      CountVisible(es[1..], e);
      CountAppend(if IsDiscarded(es[0]) then [] else [es[0]], Visible(es[1..]), e);
    }
  }

  lemma {:induction false} CountAnchors(es: seq<Entry>, e: Entry)
    requires AllStamped(es) && ValidStamp(e)
    ensures Count(PreviewAnchors(es), e) == if IsVisiblePreviewAnchor(e) then Count(es, e) else 0
    ensures Count(OperationAnchors(es), e) == if IsOperationAnchor(e) then Count(es, e) else 0
  {
    if es != [] {
      CountAnchors(es[1..], e);
      CountAppend(if IsVisiblePreviewAnchor(es[0]) then [es[0]] else [], PreviewAnchors(es[1..]), e);
      CountAppend(if IsOperationAnchor(es[0]) then [es[0]] else [], OperationAnchors(es[1..]), e);
    }
  }

  lemma {:induction false} CountMembers(es: seq<Entry>, persisting: set<string>, parent: string, e: Entry)
    requires AllStamped(es) && ValidStamp(e)
    ensures Count(MembersOf(es, persisting, parent), e)
         == if IsMember(e, persisting) && e.parentRunId.value == parent then Count(es, e) else 0
  {
    if es != [] {
      CountMembers(es[1..], persisting, parent, e);
      CountAppend(if IsMember(es[0], persisting) && es[0].parentRunId.value == parent then [es[0]] else [],
                  MembersOf(es[1..], persisting, parent), e);
    }
  }

  /** How many of these anchors carry a given run id. */
  function Carrying(anchors: seq<Entry>, run: string): nat {
    if anchors == [] then 0 else (if RunIdFor(anchors[0]) == run then 1 else 0) + Carrying(anchors[1..], run)
  }

  /** An entry is once in each anchor card of its own parent, and in no other card. */
  lemma {:induction false} CountInAnchorGroups(anchors: seq<Entry>, preview: bool, sources: seq<Entry>,
                                               persisting: set<string>, e: Entry)
    requires AllStamped(anchors) && AllStamped(sources) && ValidStamp(e) && Count(sources, e) <= 1
    ensures AsParent(AnchorGroups(anchors, preview, sources, persisting), e) == Count(anchors, e)
    ensures AsMember(AnchorGroups(anchors, preview, sources, persisting), e)
         == if IsMember(e, persisting) && e in sources then Carrying(anchors, e.parentRunId.value) else 0
  {
    CountIn(sources, e);
    if anchors != [] {
      CountInAnchorGroups(anchors[1..], preview, sources, persisting, e);
      CountMembers(sources, persisting, RunIdFor(anchors[0]), e);
    }
  }

  /** A card is made up for a parent exactly when it has no anchor and its members do not stay flat. */
  lemma {:induction false} CountInShellGroups(parents: seq<string>, anchored: set<string>, sources: seq<Entry>,
                                              persisting: set<string>, policies: Policies, e: Entry)
    requires AllStamped(sources) && ValidStamp(e) && Count(sources, e) <= 1
    requires Distinct(parents)
    ensures AsParent(ShellGroups(parents, anchored, sources, persisting, policies), e) == 0
    ensures AsMember(ShellGroups(parents, anchored, sources, persisting, policies), e)
         == if IsMember(e, persisting) && e in sources && e.parentRunId.value in parents
               && e.parentRunId.value !in anchored
               && !StaysFlat(MembersOf(sources, persisting, e.parentRunId.value), policies) then 1 else 0
  {
    CountIn(sources, e);
    if parents != [] {
      CountInShellGroups(parents[1..], anchored, sources, persisting, policies, e);
      CountMembers(sources, persisting, parents[0], e);
      var members := MembersOf(sources, persisting, parents[0]);
      var head := if parents[0] in anchored || StaysFlat(members, policies) then []
                  else [Group(false, parents[0], None, members, false)];
      AsParentAppend(head, ShellGroups(parents[1..], anchored, sources, persisting, policies), e);
      assert head != [] ==> head[1..] == [];
      assert parents[0] !in parents[1..];
    }
  }

  lemma {:induction false} CountLoneChildren(parents: seq<string>, anchored: set<string>, sources: seq<Entry>,
                                             persisting: set<string>, policies: Policies, e: Entry)
    requires AllStamped(sources) && ValidStamp(e) && Count(sources, e) <= 1
    requires Distinct(parents)
    ensures Count(LoneChildren(parents, anchored, sources, persisting, policies), e)
         == if IsMember(e, persisting) && e in sources && e.parentRunId.value in parents
               && e.parentRunId.value !in anchored
               && StaysFlat(MembersOf(sources, persisting, e.parentRunId.value), policies) then 1 else 0
  {
    CountIn(sources, e);
    if parents != [] {
      CountLoneChildren(parents[1..], anchored, sources, persisting, policies, e);
      CountMembers(sources, persisting, parents[0], e);
      var members := MembersOf(sources, persisting, parents[0]);
      var head := if parents[0] !in anchored && StaysFlat(members, policies) then [members[0]] else [];
      CountAppend(head, LoneChildren(parents[1..], anchored, sources, persisting, policies), e);
      assert parents[0] !in parents[1..];
      if head != [] {
        assert members == [members[0]] && members[1..] == [];
      }
    }
  }

  lemma {:induction false} CountFlat(es: seq<Entry>, grouped: set<string>, parents: set<string>, e: Entry)
    requires AllStamped(es) && ValidStamp(e)
    ensures Count(FlatOf(es, grouped, parents), e) == if IsFlat(e, grouped, parents) then Count(es, e) else 0
  {
    if es != [] {
      CountFlat(es[1..], grouped, parents, e);
      CountAppend(if IsFlat(es[0], grouped, parents) then [es[0]] else [], FlatOf(es[1..], grouped, parents), e);
    }
  }

  /** The key order lists each parent of a member once. */
  lemma {:induction false} ParentsAreDistinct(es: seq<Entry>, persisting: set<string>)
    requires AllStamped(es)
    ensures Distinct(ParentsOf(es, persisting))
    decreases |es|
  {
    if es != [] {
      ParentsAreDistinct(es[..|es| - 1], persisting);
    }
  }

  lemma {:induction false} ParentsListMembers(es: seq<Entry>, persisting: set<string>, parent: string)
    requires AllStamped(es)
    ensures parent in ParentsOf(es, persisting)
       <==> exists e :: e in es && ValidStamp(e) && IsMember(e, persisting) && e.parentRunId.value == parent
    decreases |es|
  {
    if es != [] {
      var init, last := es[..|es| - 1], es[|es| - 1];
      assert es == init + [last];
      ParentsListMembers(init, persisting, parent);
      if IsMember(last, persisting) && last.parentRunId.value == parent {
        assert last in es;
      }
      forall e | e in es && ValidStamp(e) && IsMember(e, persisting) && e.parentRunId.value == parent
        ensures parent in ParentsOf(es, persisting)
      {
        assert e in init || e == last;
      }
    }
  }

  lemma {:induction false} UniqueMembers(es: seq<Entry>)
    ensures KeysDistinct(EntryKey, Unique(es))
    ensures forall x :: x in Unique(es) ==> x in es
    decreases |es|
  {
    if es != [] {
      UniqueMembers(es[..|es| - 1]);
      PutKeeps(EntryKey, Unique(es[..|es| - 1]), es[|es| - 1]);
    }
  }

  lemma {:induction false} UniqueHas(es: seq<Entry>, i: nat)
    requires i < |es| && forall j :: i <= j < |es| && EntryKey(es[j]) == EntryKey(es[i]) ==> es[j] == es[i]
    ensures es[i] in Unique(es)
    decreases |es|
  {
    var init, last, e := es[..|es| - 1], es[|es| - 1], es[i];
    UniqueMembers(init);
    PutKeeps(EntryKey, Unique(init), last);
    if i < |init| {
      assert forall j :: i <= j < |init| ==> init[j] == es[j];
      UniqueHas(init, i);
      assert e in Unique(init);
      assert EntryKey(last) == EntryKey(e) ==> last == e;
    }
  }

  /** Merging by key keeps every entry that no later one with its key displaces, exactly once. */
  lemma {:induction false} UniqueKeeps(es: seq<Entry>, i: nat)
    requires i < |es| && forall j :: i <= j < |es| && EntryKey(es[j]) == EntryKey(es[i]) ==> es[j] == es[i]
    ensures Count(Unique(es), es[i]) == 1
  {
    UniqueMembers(es);
    UniqueHas(es, i);
    CountDistinct(Unique(es), es[i]);
    CountIn(Unique(es), es[i]);
  }

  // ---- The partition ----

  /** Entry keys are unique, a card's id names one card, and no row is both kinds of card. */
  ghost predicate WellFormed(entries: seq<Entry>, sources: seq<Entry>) {
    && AllStamped(entries) && AllStamped(sources)
    && KeysDistinct(EntryKey, entries) && KeysDistinct(EntryKey, sources)
    && OneKindEach(Visible(entries)) && OneCardEach(Visible(entries))
  }

  predicate OneKindEach(shown: seq<Entry>)
    requires AllStamped(shown)
  {
    forall i :: 0 <= i < |shown| ==> !(IsOperationAnchor(shown[i]) && IsVisiblePreviewAnchor(shown[i]))
  }

  ghost predicate OneCardEach(shown: seq<Entry>)
    requires AllStamped(shown)
  {
    forall run: string :: Carrying(PreviewAnchors(shown), run) + Carrying(OperationAnchors(shown), run) <= 1
  }

  /** An entry is neither lost nor doubled: an anchor is no member as well, and a delegated row is among
      the sources or nothing on screen claims its parent. */
  predicate Placeable(entries: seq<Entry>, sources: seq<Entry>, policies: Policies, e: Entry)
    requires AllStamped(entries) && AllStamped(sources) && ValidStamp(e)
  {
    var from := Visible(sources);
    if IsAnchor(e) then !(e in from && HasParent(e) && e.parentRunId.value in RootPersisting(from, policies))
    else
      || e in from || !HasParent(e)
      || (e.parentRunId.value !in GroupIds(GroupsFor(entries, sources, policies))
          && e.parentRunId.value !in ParentsOf(from, RootPersisting(from, policies)))
  }

  lemma {:induction false} CarryingIn(anchors: seq<Entry>, run: string)
    ensures Carrying(anchors, run) > 0 <==> run in RunIds(anchors)
  {
    if anchors != [] {
      CarryingIn(anchors[1..], run);
      assert anchors == [anchors[0]] + anchors[1..];
      if run in RunIds(anchors[1..]) {
        var e :| e in anchors[1..] && RunIdFor(e) == run;
        assert e in anchors;
      }
      if RunIdFor(anchors[0]) == run {
        assert anchors[0] in anchors;
      }
    }
  }

  lemma {:induction false} VisibleKeysDistinct(es: seq<Entry>)
    requires AllStamped(es) && KeysDistinct(EntryKey, es)
    ensures KeysDistinct(EntryKey, Visible(es))
  {
    if es != [] {
      VisibleKeysDistinct(es[1..]);
      forall x | x in Visible(es[1..])
        ensures EntryKey(x) != EntryKey(es[0])
      {
        assert x in es[1..];
      }
    }
  }

  /** Cards: an entry heads one if it is an anchor, and sits in one if it is a member whose card exists. */
  lemma {:induction false} ShownInCards(shown: seq<Entry>, from: seq<Entry>, persisting: set<string>,
                                        policies: Policies, e: Entry)
    requires AllStamped(shown) && AllStamped(from) && ValidStamp(e)
    requires Count(shown, e) == 1 && Count(from, e) <= 1
    requires OneCardEach(shown) && !(IsOperationAnchor(e) && IsVisiblePreviewAnchor(e))
    ensures AsParent(Cards(shown, from, persisting, policies), e) == if IsAnchor(e) then 1 else 0
    ensures AsMember(Cards(shown, from, persisting, policies), e)
         == if IsMember(e, persisting) && e in from && InCard(shown, from, persisting, policies, e.parentRunId.value)
           then 1 else 0
  {
    var previews, operations, parents := PreviewAnchors(shown), OperationAnchors(shown), ParentsOf(from, persisting);
    CountAnchors(shown, e);
    CountInAnchorGroups(previews, true, from, persisting, e);
    CountInAnchorGroups(operations, false, from, persisting, e);
    ParentsAreDistinct(from, persisting);
    CountInShellGroups(parents, Anchored(shown), from, persisting, policies, e);
    var a, b := AnchorGroups(previews, true, from, persisting), AnchorGroups(operations, false, from, persisting);
    var c := ShellGroups(parents, Anchored(shown), from, persisting, policies);
    AsParentAppend(a, b, e);
    AsParentAppend(a + b, c, e);
    if IsMember(e, persisting) && e in from {
      MemberParentListed(from, persisting, e);
      AnchoredCarried(shown, e.parentRunId.value);
    }
  }

  /** The members under this parent are shown in a card. */
  predicate InCard(shown: seq<Entry>, from: seq<Entry>, persisting: set<string>, policies: Policies, parent: string)
    requires AllStamped(shown) && AllStamped(from)
  {
    parent in Anchored(shown) || !StaysFlat(MembersOf(from, persisting, parent), policies)
  }

  lemma {:induction false} AnchoredCarried(shown: seq<Entry>, run: string)
    requires AllStamped(shown) && OneCardEach(shown)
    ensures Carrying(PreviewAnchors(shown), run) + Carrying(OperationAnchors(shown), run)
         == if run in Anchored(shown) then 1 else 0
  {
    CarryingIn(PreviewAnchors(shown), run);
    CarryingIn(OperationAnchors(shown), run);
    assert Carrying(PreviewAnchors(shown), run) + Carrying(OperationAnchors(shown), run) <= 1;
  }

  /** Flat rows: an entry is one if it is a lone child or nothing claims it. */
  lemma {:induction false} ShownFlat(shown: seq<Entry>, from: seq<Entry>, persisting: set<string>, policies: Policies,
                                     e: Entry)
    requires AllStamped(shown) && AllStamped(from) && ValidStamp(e)
    requires KeysDistinct(EntryKey, shown) && KeysDistinct(EntryKey, from) && e in shown
    ensures Count(Unique(FlatRows(shown, from, persisting, policies)), e)
         == if (IsMember(e, persisting) && e in from && !InCard(shown, from, persisting, policies, e.parentRunId.value))
               || IsFlat(e, GroupIds(Cards(shown, from, persisting, policies)), Elements(ParentsOf(from, persisting)))
            then 1 else 0
  {
    var parents, grouped := ParentsOf(from, persisting), GroupIds(Cards(shown, from, persisting, policies));
    CountDistinct(from, e);
    CountIn(shown, e);
    ParentsAreDistinct(from, persisting);
    CountLoneChildren(parents, Anchored(shown), from, persisting, policies, e);
    CountFlat(shown, grouped, Elements(parents), e);
    var lone := LoneChildren(parents, Anchored(shown), from, persisting, policies);
    var rest := FlatOf(shown, grouped, Elements(parents));
    CountIn(lone, e);
    CountIn(rest, e);
    if IsMember(e, persisting) && e in from {
      MemberParentListed(from, persisting, e);
    }
    FlatSources(parents, Anchored(shown), from, persisting, policies, shown, grouped, Elements(parents));
    MergedOnce(lone, rest, from, shown, e);
  }

  /** Lone children come first, so a flat row of the board displaces a source row with its key, never the reverse. */
  lemma {:induction false} MergedOnce(lone: seq<Entry>, rest: seq<Entry>, from: seq<Entry>, shown: seq<Entry>, e: Entry)
    requires KeysDistinct(EntryKey, from) && KeysDistinct(EntryKey, shown) && e in shown
    requires forall x :: x in lone ==> x in from
    requires forall x :: x in rest ==> x in shown
    ensures Count(Unique(lone + rest), e) == if e in lone || e in rest then 1 else 0
  {
    var all := lone + rest;
    if e in lone || e in rest {
      var i: nat;
      if e in lone {
        i :| i < |lone| && lone[i] == e;
      } else {
        var k: nat :| k < |rest| && rest[k] == e;
        i := |lone| + k;
      }
      forall j | i <= j < |all| && EntryKey(all[j]) == EntryKey(e)
        ensures all[j] == e
      {
        if j < |lone| {
          assert all[j] in lone;
          SameKey(from, e, all[j]);
        } else {
          assert all[j] in rest;
          SameKey(shown, e, all[j]);
        }
      }
      UniqueKeeps(all, i);
    } else {
      UniqueMembers(all);
      CountIn(Unique(all), e);
    }
  }

  lemma {:induction false} SameKey(es: seq<Entry>, x: Entry, y: Entry)
    requires KeysDistinct(EntryKey, es) && x in es && y in es && EntryKey(x) == EntryKey(y)
    ensures x == y
  {
    var i: nat :| i < |es| && es[i] == x;
    var j: nat :| j < |es| && es[j] == y;
    assert !(i < j) && !(j < i);
  }

  lemma {:induction false} FlatSources(parents: seq<string>, anchored: set<string>, sources: seq<Entry>,
                                       persisting: set<string>, policies: Policies, shown: seq<Entry>,
                                       grouped: set<string>, keys: set<string>)
    requires AllStamped(sources) && AllStamped(shown)
    ensures forall x :: x in LoneChildren(parents, anchored, sources, persisting, policies) ==> x in sources
    ensures forall x :: x in FlatOf(shown, grouped, keys) ==> x in shown
  {
    forall x | x in LoneChildren(parents, anchored, sources, persisting, policies)
      ensures x in sources
    {
      LoneChildSource(parents, anchored, sources, persisting, policies, x);
    }
    forall x | x in FlatOf(shown, grouped, keys)
      ensures x in shown
    {
      FlatSource(shown, grouped, keys, x);
    }
  }

  lemma {:induction false} FlatSource(shown: seq<Entry>, grouped: set<string>, keys: set<string>, x: Entry)
    requires AllStamped(shown) && x in FlatOf(shown, grouped, keys)
    ensures x in shown
  {
    if !(IsFlat(shown[0], grouped, keys) && x == shown[0]) {
      FlatSource(shown[1..], grouped, keys, x);
    }
  }

  lemma {:induction false} MemberSource(es: seq<Entry>, persisting: set<string>, parent: string, x: Entry)
    requires AllStamped(es) && x in MembersOf(es, persisting, parent)
    ensures x in es
  {
    if x != es[0] {
      MemberSource(es[1..], persisting, parent, x);
    }
  }

  lemma {:induction false} LoneChildSource(parents: seq<string>, anchored: set<string>, sources: seq<Entry>,
                                           persisting: set<string>, policies: Policies, x: Entry)
    requires AllStamped(sources) && x in LoneChildren(parents, anchored, sources, persisting, policies)
    ensures x in sources
  {
    var members := MembersOf(sources, persisting, parents[0]);
    if parents[0] !in anchored && StaysFlat(members, policies) && x == members[0] {
      MemberSource(sources, persisting, parents[0], x);
    } else {
      LoneChildSource(parents[1..], anchored, sources, persisting, policies, x);
    }
  }

  lemma {:induction false} MemberParentListed(sources: seq<Entry>, persisting: set<string>, e: Entry)
    requires AllStamped(sources) && ValidStamp(e) && e in sources && IsMember(e, persisting)
    ensures e.parentRunId.value in ParentsOf(sources, persisting)
  {
    ParentsListMembers(sources, persisting, e.parentRunId.value);
  }

  /** Main result: a row on the board is shown exactly once, as a card, in a card or flat, precisely when it
      can be placed. Nothing is lost and nothing is counted twice. */
  lemma {:induction false} ShownExactlyOnce(entries: seq<Entry>, sources: seq<Entry>, policies: Policies, e: Entry)
    requires WellFormed(entries, sources) && e in Visible(entries)
    ensures Shown(SurfacesFor(entries, sources, policies), e) == 1 <==> Placeable(entries, sources, policies, e)
  {
    var shown, from := Visible(entries), Visible(sources);
    var persisting := RootPersisting(from, policies);
    VisibleKeysDistinct(entries);
    VisibleKeysDistinct(sources);
    CountDistinct(shown, e);
    CountDistinct(from, e);
    CountIn(shown, e);
    ShownInCards(shown, from, persisting, policies, e);
    ShownFlat(shown, from, persisting, policies, e);
    if e in from && IsMember(e, persisting) {
      MemberParentListed(from, persisting, e);
    }
  }

  /** The dashboard's case: entries are among the sources, and no anchor sits under a persisting root. */
  lemma {:induction false} EverythingShownOnce(entries: seq<Entry>, sources: seq<Entry>, policies: Policies, e: Entry)
    requires WellFormed(entries, sources) && e in entries && !IsDiscarded(e)
    requires forall x :: x in entries ==> x in sources
    requires IsAnchor(e) && HasParent(e) ==> e.parentRunId.value !in RootPersisting(Visible(sources), policies)
    ensures Shown(SurfacesFor(entries, sources, policies), e) == 1
  {
    CountVisible(entries, e);
    CountIn(entries, e);
    CountIn(Visible(entries), e);
    CountVisible(sources, e);
    CountIn(sources, e);
    CountIn(Visible(sources), e);
    ShownExactlyOnce(entries, sources, policies, e);
  }

  /** A row is filed as both kinds of card exactly when it is a legacy OCR prepare row stamped `batch`, still
      visible; it is then shown twice as a card. */
  lemma {:induction false} LegacyPrepareShownTwice(entries: seq<Entry>, sources: seq<Entry>, policies: Policies,
                                                   e: Entry)
    requires AllStamped(entries) && AllStamped(sources) && KeysDistinct(EntryKey, entries)
      && KeysDistinct(EntryKey, sources)
    requires e in Visible(entries)
    ensures AsParent(GroupsFor(entries, sources, policies), e) == 2
       <==> e.stamp == Some("batch") && e.workflow == "ocr" && e.mode == Some("prepare")
  {
    var shown, from := Visible(entries), Visible(sources);
    var persisting := RootPersisting(from, policies);
    VisibleKeysDistinct(entries);
    VisibleKeysDistinct(sources);
    CountDistinct(shown, e);
    CountDistinct(from, e);
    CountIn(shown, e);
    CountAnchors(shown, e);
    var previews, operations, parents := PreviewAnchors(shown), OperationAnchors(shown), ParentsOf(from, persisting);
    CountInAnchorGroups(previews, true, from, persisting, e);
    CountInAnchorGroups(operations, false, from, persisting, e);
    ParentsAreDistinct(from, persisting);
    CountInShellGroups(parents, Anchored(shown), from, persisting, policies, e);
    var a, b := AnchorGroups(previews, true, from, persisting), AnchorGroups(operations, false, from, persisting);
    AsParentAppend(a, b, e);
    AsParentAppend(a + b, ShellGroups(parents, Anchored(shown), from, persisting, policies), e);
  }

  /** Nothing on screen comes from anywhere but the rows that were handed in. */
  lemma {:induction false} NothingInvented(entries: seq<Entry>, sources: seq<Entry>, policies: Policies, e: Entry)
    requires AllStamped(entries) && AllStamped(sources) && ValidStamp(e)
    requires Shown(SurfacesFor(entries, sources, policies), e) > 0
    ensures e in Visible(entries) || e in Visible(sources)
  {
    var shown, from := Visible(entries), Visible(sources);
    var persisting := RootPersisting(from, policies);
    if e !in shown && e !in from {
      var previews, operations, parents := PreviewAnchors(shown), OperationAnchors(shown), ParentsOf(from, persisting);
      CountIn(shown, e);
      CountIn(from, e);
      CountAnchors(shown, e);
      CountInAnchorGroups(previews, true, from, persisting, e);
      CountInAnchorGroups(operations, false, from, persisting, e);
      ParentsAreDistinct(from, persisting);
      CountInShellGroups(parents, Anchored(shown), from, persisting, policies, e);
      var a, b := AnchorGroups(previews, true, from, persisting), AnchorGroups(operations, false, from, persisting);
      AsParentAppend(a, b, e);
      AsParentAppend(a + b, ShellGroups(parents, Anchored(shown), from, persisting, policies), e);
      var grouped := GroupIds(Cards(shown, from, persisting, policies));
      var flat := FlatRows(shown, from, persisting, policies);
      FlatSources(parents, Anchored(shown), from, persisting, policies, shown, grouped, Elements(parents));
      UniqueMembers(flat);
      CountIn(Unique(flat), e);
    }
  }

  // ---- The loops that build it ----

  lemma {:induction false} MembersSnoc(es: seq<Entry>, persisting: set<string>, parent: string, i: nat)
    requires AllStamped(es) && i < |es|
    ensures MembersOf(es[..i + 1], persisting, parent)
         == MembersOf(es[..i], persisting, parent)
            + (if IsMember(es[i], persisting) && es[i].parentRunId.value == parent then [es[i]] else [])
  {
    if i == 0 {
      assert es[..1][1..] == [];
    } else {
      MembersSnoc(es[1..], persisting, parent, i - 1);
      assert es[..i + 1][1..] == es[1..][..i];
      assert es[..i][1..] == es[1..][..i - 1];
    }
  }

  /** A JavaScript Map of lists: the keys in insertion order beside the table. */
  ghost predicate Tabulates(keys: seq<string>, table: map<string, seq<Entry>>, es: seq<Entry>, persisting: set<string>)
    requires AllStamped(es)
  {
    && keys == ParentsOf(es, persisting)
    && (forall k :: k in keys <==> k in table)
    && (forall k :: k in table ==> table[k] == MembersOf(es, persisting, k))
    && (forall k :: k !in table ==> MembersOf(es, persisting, k) == [])
  }

  /** `getOrDefault` on the member table. */
  function MembersAt(table: map<string, seq<Entry>>, run: string): seq<Entry> {
    if run in table then table[run] else []
  }

  lemma {:induction false} TabulateSkip(keys: seq<string>, table: map<string, seq<Entry>>, es: seq<Entry>,
                                        persisting: set<string>, i: nat)
    requires AllStamped(es) && i < |es| && !IsMember(es[i], persisting) && Tabulates(keys, table, es[..i], persisting)
    ensures Tabulates(keys, table, es[..i + 1], persisting)
  {
    ParentsSkip(es, persisting, i);
    forall k
      ensures MembersOf(es[..i + 1], persisting, k) == MembersOf(es[..i], persisting, k)
    {
      MembersSkip(es, persisting, k, i);
    }
  }

  lemma ParentsSkip(es: seq<Entry>, persisting: set<string>, i: nat)
    requires AllStamped(es) && i < |es| && !IsMember(es[i], persisting)
    ensures ParentsOf(es[..i + 1], persisting) == ParentsOf(es[..i], persisting)
  {
    assert es[..i + 1][..i] == es[..i];
  }

  lemma MembersSkip(es: seq<Entry>, persisting: set<string>, parent: string, i: nat)
    requires AllStamped(es) && i < |es| && !IsMember(es[i], persisting)
    ensures MembersOf(es[..i + 1], persisting, parent) == MembersOf(es[..i], persisting, parent)
  {
    MembersSnoc(es, persisting, parent, i);
  }

  lemma ParentsSnoc(es: seq<Entry>, persisting: set<string>, i: nat)
    requires AllStamped(es) && i < |es| && IsMember(es[i], persisting)
    ensures var parent, before := es[i].parentRunId.value, ParentsOf(es[..i], persisting);
      ParentsOf(es[..i + 1], persisting) == if parent in before then before else before + [parent]
  {
    assert es[..i + 1][..i] == es[..i];
  }

  lemma {:induction false} TabulateAdd(keys: seq<string>, table: map<string, seq<Entry>>, es: seq<Entry>,
                                       persisting: set<string>, i: nat)
    requires AllStamped(es) && i < |es| && IsMember(es[i], persisting) && Tabulates(keys, table, es[..i], persisting)
    ensures var parent := es[i].parentRunId.value;
      Tabulates(if parent in table then keys else keys + [parent],
                table[parent := MembersAt(table, parent) + [es[i]]], es[..i + 1], persisting)
  {
    var parent, init, now := es[i].parentRunId.value, es[..i], es[..i + 1];
    ParentsSnoc(es, persisting, i);
    forall k
      ensures MembersOf(now, persisting, k) == MembersOf(init, persisting, k) + (if k == parent then [es[i]] else [])
    {
      MembersSnoc(es, persisting, k, i);
    }
    var table' := table[parent := MembersAt(table, parent) + [es[i]]];
    forall k
      ensures k in table' ==> table'[k] == MembersOf(now, persisting, k)
      ensures k !in table' ==> MembersOf(now, persisting, k) == []
    {
      assert MembersOf(now, persisting, k) == MembersOf(init, persisting, k) + (if k == parent then [es[i]] else []);
    }
  }

  method BuildMembersByParentRunId(entries: seq<Entry>, persisting: set<string>)
    returns (keys: seq<string>, table: map<string, seq<Entry>>)
    requires AllStamped(entries)
    ensures Tabulates(keys, table, entries, persisting)
  {
    keys, table := [], map[];
    for i := 0 to |entries|
      invariant Tabulates(keys, table, entries[..i], persisting)
    {
      var entry := entries[i];
      if !HasParent(entry) || (IsAnchor(entry) && entry.parentRunId.value !in persisting) {
        TabulateSkip(keys, table, entries, persisting, i);
        continue;
      }
      TabulateAdd(keys, table, entries, persisting, i);
      var parent := entry.parentRunId.value;
      var list := MembersAt(table, parent);
      if parent !in table { keys := keys + [parent]; }
      table := table[parent := list + [entry]];
    }
    assert entries[..|entries|] == entries;
  }

  /** The Map of `uniqueFlatEntries`: its values, in key order, are the merged rows. */
  ghost predicate Indexes(keys: seq<string>, byKey: map<string, Entry>, rows: seq<Entry>) {
    && |keys| == |rows|
    && (forall k :: k in keys <==> k in byKey)
    && (forall j :: 0 <= j < |keys| ==> keys[j] == EntryKey(rows[j]) && keys[j] in byKey && byKey[keys[j]] == rows[j])
  }

  lemma IndexReplace(keys: seq<string>, byKey: map<string, Entry>, rows: seq<Entry>, e: Entry, at: nat)
    requires Indexes(keys, byKey, rows) && KeysDistinct(EntryKey, rows) && at < |keys| && keys[at] == EntryKey(e)
    ensures Indexes(keys, byKey[keys[at] := e], rows[at := e])
  {
    assert keys[at] in byKey;
    forall j | 0 <= j < |keys| && j != at
      ensures keys[j] != keys[at]
    {
      assert keys[j] == EntryKey(rows[j]) && keys[at] == EntryKey(rows[at]);
    }
  }

  lemma {:induction false} IndexAdd(keys: seq<string>, byKey: map<string, Entry>, rows: seq<Entry>, e: Entry)
    requires Indexes(keys, byKey, rows) && KeysDistinct(EntryKey, rows)
    ensures EntryKey(e) in byKey ==> Indexes(keys, byKey[EntryKey(e) := e], Put(EntryKey, rows, e))
    ensures EntryKey(e) !in byKey ==> Put(EntryKey, rows, e) == rows + [e]
  {
    if EntryKey(e) in byKey {
      var at: nat :| at < |keys| && keys[at] == EntryKey(e);
      assert EntryKey(rows[at]) == EntryKey(e);
      IndexIs(EntryKey, rows, at);
      IndexReplace(keys, byKey, rows, e, at);
    } else {
      forall j | 0 <= j < |rows|
        ensures EntryKey(rows[j]) != EntryKey(e)
      {
        assert keys[j] in keys;
      }
    }
  }

  method UniqueFlatEntries(entries: seq<Entry>) returns (rows: seq<Entry>)
    ensures rows == Unique(entries)
  {
    var keys: seq<string>, byKey: map<string, Entry> := [], map[];
    for i := 0 to |entries|
      invariant Indexes(keys, byKey, Unique(entries[..i]))
    {
      assert entries[..i + 1][..i] == entries[..i];
      UniqueMembers(entries[..i]);
      IndexAdd(keys, byKey, Unique(entries[..i]), entries[i]);
      var key := EntryKey(entries[i]);
      if key !in byKey { keys := keys + [key]; }
      byKey := byKey[key := entries[i]];
    }
    assert entries[..|entries|] == entries;
    rows := ValuesInOrder(keys, byKey, Unique(entries));
  }

  method ValuesInOrder(keys: seq<string>, byKey: map<string, Entry>, ghost expected: seq<Entry>)
    returns (rows: seq<Entry>)
    requires Indexes(keys, byKey, expected)
    ensures rows == expected
  {
    rows := [];
    for j := 0 to |keys|
      invariant rows == expected[..j]
    {
      rows := rows + [byKey[keys[j]]];
    }
  }

  method AnchorCards(anchors: seq<Entry>, preview: bool, ghost sources: seq<Entry>, ghost persisting: set<string>,
                     ghost keys: seq<string>, table: map<string, seq<Entry>>) returns (cards: seq<Group>)
    requires AllStamped(anchors) && AllStamped(sources) && Tabulates(keys, table, sources, persisting)
    ensures cards == AnchorGroups(anchors, preview, sources, persisting)
  {
    cards := [];
    for i := 0 to |anchors|
      invariant cards + AnchorGroups(anchors[i..], preview, sources, persisting)
             == AnchorGroups(anchors, preview, sources, persisting)
    {
      var parent := anchors[i];
      assert anchors[i..][0] == parent && anchors[i..][1..] == anchors[i + 1..];
      var members := MembersAt(table, RunIdFor(parent));
      assert members == MembersOf(sources, persisting, RunIdFor(parent));
      var card := Group(preview, RunIdFor(parent), Some(parent), members, preview && IsApproved(parent));
      Regroup(cards, [card], AnchorGroups(anchors[i + 1..], preview, sources, persisting));
      cards := cards + [card];
    }
  }

  lemma ShellStep(keys: seq<string>, i: nat, anchored: set<string>, sources: seq<Entry>, persisting: set<string>,
                  policies: Policies)
    requires AllStamped(sources) && i < |keys|
    ensures var members := MembersOf(sources, persisting, keys[i]);
      && ShellGroups(keys[i..], anchored, sources, persisting, policies)
         == (if keys[i] in anchored || StaysFlat(members, policies) then []
           else [Group(false, keys[i], None, members, false)])
            + ShellGroups(keys[i + 1..], anchored, sources, persisting, policies)
      && LoneChildren(keys[i..], anchored, sources, persisting, policies)
         == (if keys[i] !in anchored && StaysFlat(members, policies) then [members[0]] else [])
            + LoneChildren(keys[i + 1..], anchored, sources, persisting, policies)
  {
    assert keys[i..][0] == keys[i] && keys[i..][1..] == keys[i + 1..];
  }

  /** What is left of the table only has to be added to what was collected. */
  predicate ShellsSoFar(keys: seq<string>, i: nat, anchored: set<string>, sources: seq<Entry>, persisting: set<string>,
                        policies: Policies, cards: seq<Group>, lone: seq<Entry>)
    requires AllStamped(sources) && i <= |keys|
  {
    && cards + ShellGroups(keys[i..], anchored, sources, persisting, policies)
       == ShellGroups(keys, anchored, sources, persisting, policies)
    && lone + LoneChildren(keys[i..], anchored, sources, persisting, policies)
       == LoneChildren(keys, anchored, sources, persisting, policies)
  }

  lemma ShellsGrow(keys: seq<string>, i: nat, anchored: set<string>, sources: seq<Entry>, persisting: set<string>,
                   policies: Policies, cards: seq<Group>, lone: seq<Entry>)
    requires AllStamped(sources) && i < |keys|
    requires ShellsSoFar(keys, i, anchored, sources, persisting, policies, cards, lone)
    ensures var members := MembersOf(sources, persisting, keys[i]);
      if keys[i] in anchored then ShellsSoFar(keys, i + 1, anchored, sources, persisting, policies, cards, lone)
      else if StaysFlat(members, policies)
      then ShellsSoFar(keys, i + 1, anchored, sources, persisting, policies, cards, lone + [members[0]])
      else ShellsSoFar(keys, i + 1, anchored, sources, persisting, policies,
        cards + [Group(false, keys[i], None, members, false)], lone)
  {
    var members := MembersOf(sources, persisting, keys[i]);
    var shells := ShellGroups(keys[i + 1..], anchored, sources, persisting, policies);
    var children := LoneChildren(keys[i + 1..], anchored, sources, persisting, policies);
    ShellStep(keys, i, anchored, sources, persisting, policies);
    if keys[i] in anchored {
      assert [] + shells == shells && [] + children == children;
    } else if StaysFlat(members, policies) {
      assert [] + shells == shells;
      Regroup(lone, [members[0]], children);
    } else {
      assert [] + children == children;
      Regroup(cards, [Group(false, keys[i], None, members, false)], shells);
    }
  }

  /** Walks the member table: parents without an anchor become a made-up card or leave a lone child flat. */
  method ShellCards(keys: seq<string>, table: map<string, seq<Entry>>, anchored: set<string>, ghost sources: seq<Entry>,
                    ghost persisting: set<string>, policies: Policies) returns (cards: seq<Group>, lone: seq<Entry>)
    requires AllStamped(sources) && Tabulates(keys, table, sources, persisting)
    ensures cards == ShellGroups(keys, anchored, sources, persisting, policies)
    ensures lone == LoneChildren(keys, anchored, sources, persisting, policies)
  {
    cards, lone := [], [];
    for i := 0 to |keys|
      invariant ShellsSoFar(keys, i, anchored, sources, persisting, policies, cards, lone)
    {
      ShellsGrow(keys, i, anchored, sources, persisting, policies, cards, lone);
      var parent := keys[i];
      assert parent in keys;
      var members := table[parent];
      if parent in anchored { continue; }
      if StaysFlat(members, policies) {
        lone := lone + [members[0]];
        continue;
      }
      cards := cards + [Group(false, parent, None, members, false)];
    }
  }

  /** Fails exactly when some row carries a stamp outside the six known ones; otherwise the projection. */
  method BuildTrackerQueueSurfaces(entries: seq<Entry>, sources: seq<Entry>, policies: Policies)
    returns (r: Option<Surfaces>)
    ensures r.Some? <==> AllStamped(entries) && AllStamped(sources)
    ensures r.Some? ==> r.value == SurfacesFor(entries, sources, policies)
  {
    if !AllStamped(entries) || !AllStamped(sources) { return None; }
    var shown, from := Visible(entries), Visible(sources);
    var persisting := RootPersisting(from, policies);
    var keys, table := BuildMembersByParentRunId(from, persisting);
    var operations, previews := OperationAnchors(shown), PreviewAnchors(shown);
    var groups := AnchorCards(previews, true, from, persisting, keys, table);
    var operationCards := AnchorCards(operations, false, from, persisting, keys, table);
    groups := groups + operationCards;
    var shells, lone := ShellCards(keys, table, RunIds(operations) + RunIds(previews), from, persisting, policies);
    groups := groups + shells;
    var flat := UniqueFlatEntries(lone + FlatOf(shown, GroupIds(groups), Elements(keys)));
    r := Some(Surfaces(groups, flat));
  }

  // ---- Counts ----

  predicate HasQueued(members: seq<Entry>) { exists i :: 0 <= i < |members| && IsQueueLike(members[i]) }

  predicate SurfaceIsQueued(g: Group) {
    if g.members != [] then HasQueued(g.members) else g.parent.Some? && IsQueueLike(g.parent.value)
  }

  /** Rows on screen whose own status decides them: flat rows, members, and anchors without members. */
  predicate Decides(s: Surfaces, e: Entry) {
    || e in s.flat
    || (exists g :: g in s.groups && e in g.members)
    || (exists g :: g in s.groups && g.members == [] && g.parent == Some(e))
  }

  method CountQueued(s: Surfaces) returns (queued: nat)
    ensures queued == CountWhere(SurfaceIsQueued, s.groups) + CountWhere(IsQueueLike, s.flat)
    ensures queued <= |s.groups| + |s.flat|
    ensures queued > 0 <==> exists e :: Decides(s, e) && IsQueueLike(e)
  {
    queued := 0;
    for i := 0 to |s.groups|
      invariant queued == CountWhere(SurfaceIsQueued, s.groups[..i])
    {
      CountWhereSnoc(SurfaceIsQueued, s.groups, i);
      if SurfaceIsQueued(s.groups[i]) { queued := queued + 1; }
    }
    assert s.groups[..|s.groups|] == s.groups;
    for i := 0 to |s.flat|
      invariant queued == CountWhere(SurfaceIsQueued, s.groups) + CountWhere(IsQueueLike, s.flat[..i])
    {
      CountWhereSnoc(IsQueueLike, s.flat, i);
      if IsQueueLike(s.flat[i]) { queued := queued + 1; }
    }
    assert s.flat[..|s.flat|] == s.flat;
    SomeQueued(s);
  }

  lemma SomeQueued(s: Surfaces)
    ensures CountWhere(SurfaceIsQueued, s.groups) + CountWhere(IsQueueLike, s.flat) > 0
       <==> exists e :: Decides(s, e) && IsQueueLike(e)
  {
    CountPositive(SurfaceIsQueued, s.groups);
    CountPositive(IsQueueLike, s.flat);
    QueuedGroups(s.groups);
    if e :| Decides(Surfaces(s.groups, []), e) && IsQueueLike(e) {
      assert Decides(s, e);
    }
    if e :| e in s.flat && IsQueueLike(e) {
      assert Decides(s, e);
    }
    if e :| Decides(s, e) && IsQueueLike(e) && e !in s.flat {
      assert Decides(Surfaces(s.groups, []), e);
    }
  }

  lemma QueuedGroups(groups: seq<Group>)
    ensures (exists g :: g in groups && SurfaceIsQueued(g))
       <==> exists e :: Decides(Surfaces(groups, []), e) && IsQueueLike(e)
  {
    if g :| g in groups && SurfaceIsQueued(g) {
      var e := if g.members != [] then
                 var i :| 0 <= i < |g.members| && IsQueueLike(g.members[i]); g.members[i]
               else g.parent.value;
      assert Decides(Surfaces(groups, []), e) && IsQueueLike(e);
    }
  }

  /** A made-up card always has members, so its invented `pending` parent never makes it count as queued. */
  lemma {:induction false} ShellsHaveMembers(entries: seq<Entry>, sources: seq<Entry>, policies: Policies, g: Group)
    requires AllStamped(entries) && AllStamped(sources)
    requires g in GroupsFor(entries, sources, policies) && g.parent.None?
    ensures g.members != [] && forall e :: e in g.members ==> e in sources
  {
    var shown, from := Visible(entries), Visible(sources);
    var persisting := RootPersisting(from, policies);
    AnchorGroupsHaveParents(PreviewAnchors(shown), true, from, persisting, g);
    AnchorGroupsHaveParents(OperationAnchors(shown), false, from, persisting, g);
    ShellOf(ParentsOf(from, persisting), Anchored(shown), from, persisting, policies, g);
    ParentsListMembers(from, persisting, g.parentRunId);
    var e :| e in from && ValidStamp(e) && IsMember(e, persisting) && e.parentRunId.value == g.parentRunId;
    CountMembers(from, persisting, g.parentRunId, e);
    CountIn(from, e);
    CountIn(g.members, e);
    forall x | x in g.members
      ensures x in sources
    {
      MemberSource(from, persisting, g.parentRunId, x);
    }
  }

  lemma {:induction false} AnchorGroupsHaveParents(anchors: seq<Entry>, preview: bool, sources: seq<Entry>,
                                                   persisting: set<string>, g: Group)
    requires AllStamped(anchors) && AllStamped(sources)
    ensures g in AnchorGroups(anchors, preview, sources, persisting) ==> g.parent.Some?
  {
    if anchors != [] {
      AnchorGroupsHaveParents(anchors[1..], preview, sources, persisting, g);
    }
  }

  lemma {:induction false} ShellOf(parents: seq<string>, anchored: set<string>, sources: seq<Entry>,
                                   persisting: set<string>, policies: Policies, g: Group)
    requires AllStamped(sources)
    ensures g in ShellGroups(parents, anchored, sources, persisting, policies)
        ==> g.parentRunId in parents && g.members == MembersOf(sources, persisting, g.parentRunId)
  {
    if parents != [] {
      ShellOf(parents[1..], anchored, sources, persisting, policies, g);
    }
  }
}
