/** The queue by stamps: which rows head which cards, who is inside them, and what is left beside them. */
module QueueCards {
  import opened Common
  import opened KeyedList
  import opened StableSort
  import opened QueueSurfaces

  // ---- Rows by what is stamped on them ----

  predicate IsUnknown(e: Entry) {
    && e.stamp != None && e.stamp != Some("single") && e.stamp != Some("preview")
    && e.stamp != Some("operation") && e.stamp != Some("operation-member")
    && e.stamp != Some("batch") && e.stamp != Some("batch-member")
  }

  predicate IsCoordinator(e: Entry) { e.stamp == Some("operation") || e.stamp == Some("batch") }

  /** A preview, or one of the old OCR prepare rows stamped `batch`. */
  predicate IsPreviewRow(e: Entry) {
    e.stamp == Some("preview") || (e.stamp == Some("batch") && e.workflow == "ocr" && e.mode == Some("prepare"))
  }

  predicate Heads(e: Entry, preview: bool) { if preview then IsPreviewRow(e) else IsCoordinator(e) }

  predicate HeadsAny(e: Entry) { IsCoordinator(e) || IsPreviewRow(e) }

  /** A discarded preparation, of either kind. */
  predicate IsRetired(e: Entry) {
    && e.status == Failed && e.step == Some("discarded")
    && (IsPreviewRow(e) || (IsCoordinator(e) && e.mode == Some("prepare")))
  }

  function NotRetired(): Entry -> bool { (e: Entry) => !IsRetired(e) }

  function RunOf(e: Entry): string { if e.runId == None then e.id else e.runId.value }

  /** A coordinator of the run is among the sources, and its workflow keeps the root row. */
  ghost predicate Persists(sources: seq<Entry>, policies: Policies, run: string) {
    exists c :: c in sources && !IsRetired(c) && IsCoordinator(c)
      && policies(c.workflow).rootRowPersistsThroughChildren && RunOf(c) == run
  }

  /** The row names the run as its parent; one that heads a card of its own only where the root persists. */
  ghost predicate Belongs(sources: seq<Entry>, policies: Policies, run: string, e: Entry) {
    && !IsRetired(e) && run != "" && e.parentRunId == Some(run)
    && (HeadsAny(e) ==> Persists(sources, policies, run))
  }

  ghost function BelongingTo(sources: seq<Entry>, policies: Policies, run: string): Entry -> bool {
    (e: Entry) => Belongs(sources, policies, run, e)
  }

  ghost function Inside(sources: seq<Entry>, policies: Policies, run: string): seq<Entry> {
    Filter(BelongingTo(sources, policies, run), sources)
  }

  /** The run has a card head on the board. */
  ghost predicate HeadOnBoard(entries: seq<Entry>, run: string) {
    exists c :: c in entries && !IsRetired(c) && HeadsAny(c) && RunOf(c) == run
  }

  /** A lone delegated row whose workflow does not ask for a card. */
  predicate Alone(members: seq<Entry>, policies: Policies) {
    |members| == 1 && !policies(members[0].workflow).alwaysOperationDelegatedMembers
  }

  // ---- The classification agrees with the stamps ----

  lemma StampsDecide(e: Entry)
    requires ValidStamp(e)
    ensures IsOperationAnchor(e) <==> IsCoordinator(e)
    ensures IsVisiblePreviewAnchor(e) <==> IsPreviewRow(e) && !IsRetired(e)
    ensures IsDiscarded(e) <==> IsRetired(e)
    ensures RunIdFor(e) == RunOf(e)
    ensures IsApproved(e) <==>
      IsPreviewRow(e) && e.status == Done && (e.step == Some("approved") || e.workflow == "ocr")
  {
  }

  lemma {:induction false} FilterCons<T>(keep: T -> bool, s: seq<T>)
    requires s != []
    ensures Filter(keep, s) == (if keep(s[0]) then [s[0]] else []) + Filter(keep, s[1..])
    decreases |s|
  {
    if |s| == 1 {
      assert s[..0] == [] && s[1..] == [];
    } else {
      var front, tail := s[..|s| - 1], s[1..];
      FilterCons(keep, front);
      assert front[0] == s[0] && front[1..] == tail[..|tail| - 1];
    }
  }

  lemma {:induction false} FilterTwice<T>(p: T -> bool, q: T -> bool, both: T -> bool, s: seq<T>)
    requires forall x :: x in s ==> (both(x) <==> p(x) && q(x))
    ensures Filter(q, Filter(p, s)) == Filter(both, s)
    decreases |s|
  {
    if s != [] {
      var front, last := s[..|s| - 1], s[|s| - 1];
      assert s == front + [last] && last in s;
      FilterTwice(p, q, both, front);
      if p(last) {
        FilterSnoc(q, Filter(p, front), last);
      } else {
        assert Filter(p, s) == Filter(p, front);
      }
    }
  }

  lemma {:induction false} VisibleIs(es: seq<Entry>)
    requires AllStamped(es)
    ensures Visible(es) == Filter(NotRetired(), es)
  {
    if es != [] {
      StampsDecide(es[0]);
      VisibleIs(es[1..]);
      FilterCons(NotRetired(), es);
    }
  }

  function IsMemberOf(persisting: set<string>, run: string): Entry -> bool {
    (e: Entry) => ValidStamp(e) && IsMember(e, persisting) && e.parentRunId.value == run
  }

  lemma {:induction false} MembersAreFilter(es: seq<Entry>, persisting: set<string>, run: string)
    requires AllStamped(es)
    ensures MembersOf(es, persisting, run) == Filter(IsMemberOf(persisting, run), es)
  {
    if es != [] {
      MembersAreFilter(es[1..], persisting, run);
      FilterCons(IsMemberOf(persisting, run), es);
    }
  }

  lemma PersistingIs(sources: seq<Entry>, policies: Policies, run: string)
    requires AllStamped(sources)
    ensures run in RootPersisting(Visible(sources), policies) <==> Persists(sources, policies, run)
  {
    VisibleIs(sources);
    if run in RootPersisting(Visible(sources), policies) {
      var c :| c in Visible(sources) && ValidStamp(c) && IsOperationAnchor(c)
        && policies(c.workflow).rootRowPersistsThroughChildren && RunIdFor(c) == run;
      StampsDecide(c);
    }
    if Persists(sources, policies, run) {
      var c :| c in sources && !IsRetired(c) && IsCoordinator(c)
        && policies(c.workflow).rootRowPersistsThroughChildren && RunOf(c) == run;
      FilterHas(NotRetired(), sources, c);
      StampsDecide(c);
    }
  }

  lemma BelongsIff(sources: seq<Entry>, policies: Policies, persisting: set<string>, run: string, e: Entry)
    requires ValidStamp(e) && (run in persisting <==> Persists(sources, policies, run))
    ensures Belongs(sources, policies, run, e) <==> !IsRetired(e) && IsMemberOf(persisting, run)(e)
  {
    StampsDecide(e);
  }

  /** Who is inside a card: the source rows that name its run, in their order. */
  lemma InsideIs(sources: seq<Entry>, policies: Policies, run: string)
    requires AllStamped(sources)
    ensures MembersOf(Visible(sources), RootPersisting(Visible(sources), policies), run)
         == Inside(sources, policies, run)
  {
    var persisting := RootPersisting(Visible(sources), policies);
    VisibleIs(sources);
    MembersAreFilter(Visible(sources), persisting, run);
    PersistingIs(sources, policies, run);
    forall e | e in sources
      ensures BelongingTo(sources, policies, run)(e) <==> NotRetired()(e) && IsMemberOf(persisting, run)(e)
    {
      BelongsIff(sources, policies, persisting, run, e);
    }
    FilterTwice(NotRetired(), IsMemberOf(persisting, run), BelongingTo(sources, policies, run), sources);
  }

  // ---- Cards of rows on the board ----

  function HeadedBy(preview: bool, e: Entry): Group -> bool {
    (g: Group) => g.preview == preview && g.parent == Some(e)
  }

  lemma {:induction false} AnchorCardsOf(anchors: seq<Entry>, kind: bool, from: seq<Entry>, persisting: set<string>,
                                         preview: bool, e: Entry)
    requires AllStamped(anchors) && AllStamped(from)
    ensures CountWhere(HeadedBy(preview, e), AnchorGroups(anchors, kind, from, persisting))
         == if kind == preview then Count(anchors, e) else 0
  {
    if anchors != [] {
      AnchorCardsOf(anchors[1..], kind, from, persisting, preview, e);
      var rest := AnchorGroups(anchors[1..], kind, from, persisting);
      var head := AnchorGroups(anchors, kind, from, persisting)[0];
      CountWhereAppend(HeadedBy(preview, e), [head], rest);
      CountOne(HeadedBy(preview, e), head);
    }
  }

  lemma CountOne<T>(keep: T -> bool, x: T)
    ensures CountWhere(keep, [x]) == if keep(x) then 1 else 0
  {
    var s := [x];
    assert s[..0] == [];
  }

  lemma {:induction false} NoShellIsHeaded(parents: seq<string>, anchored: set<string>, from: seq<Entry>,
                                           persisting: set<string>, policies: Policies, preview: bool, e: Entry)
    requires AllStamped(from)
    ensures CountWhere(HeadedBy(preview, e), ShellGroups(parents, anchored, from, persisting, policies)) == 0
  {
    if parents != [] {
      NoShellIsHeaded(parents[1..], anchored, from, persisting, policies, preview, e);
      var members := MembersOf(from, persisting, parents[0]);
      var rest := ShellGroups(parents[1..], anchored, from, persisting, policies);
      if !(parents[0] in anchored || StaysFlat(members, policies)) {
        var head := Group(false, parents[0], None, members, false);
        CountWhereAppend(HeadedBy(preview, e), [head], rest);
        CountOne(HeadedBy(preview, e), head);
      } else {
        assert ShellGroups(parents, anchored, from, persisting, policies) == rest;
      }
    }
  }

  /** Main result: a row of the board heads exactly one card of its kind if its stamp says so and it is not retired,
      and none otherwise. */
  lemma HeadsOneCard(entries: seq<Entry>, sources: seq<Entry>, policies: Policies, preview: bool, e: Entry)
    requires AllStamped(entries) && AllStamped(sources) && KeysDistinct(EntryKey, entries) && e in entries
    ensures CountWhere(HeadedBy(preview, e), GroupsFor(entries, sources, policies))
         == if Heads(e, preview) && !IsRetired(e) then 1 else 0
  {
    var shown, from := Visible(entries), Visible(sources);
    var persisting := RootPersisting(from, policies);
    var previews, operations := PreviewAnchors(shown), OperationAnchors(shown);
    var a, b := AnchorGroups(previews, true, from, persisting), AnchorGroups(operations, false, from, persisting);
    var c := ShellGroups(ParentsOf(from, persisting), Anchored(shown), from, persisting, policies);
    AnchorCardsOf(previews, true, from, persisting, preview, e);
    AnchorCardsOf(operations, false, from, persisting, preview, e);
    NoShellIsHeaded(ParentsOf(from, persisting), Anchored(shown), from, persisting, policies, preview, e);
    CountWhereAppend(HeadedBy(preview, e), a + b, c);
    CountWhereAppend(HeadedBy(preview, e), a, b);
    StampsDecide(e);
    CountVisible(entries, e);
    CountAnchors(shown, e);
    CountIn(entries, e);
    CountDistinct(entries, e);
  }

  /** What is on a card headed by a row of the board. */
  ghost predicate IsCardOf(entries: seq<Entry>, sources: seq<Entry>, policies: Policies, g: Group)
    requires g.parent.Some?
  {
    var e := g.parent.value;
    && e in entries && !IsRetired(e) && Heads(e, g.preview)
    && g.parentRunId == RunOf(e) && g.members == Inside(sources, policies, RunOf(e))
    && (g.approved <==> g.preview && e.status == Done && (e.step == Some("approved") || e.workflow == "ocr"))
  }

  /** What a made-up card stands for: rows of a run without a head on the board. */
  ghost predicate IsShellOf(entries: seq<Entry>, sources: seq<Entry>, policies: Policies, g: Group) {
    && !g.preview && !g.approved && g.members == Inside(sources, policies, g.parentRunId) && g.members != []
    && !HeadOnBoard(entries, g.parentRunId) && !Alone(g.members, policies)
  }

  lemma {:induction false} AnchorCardIn(anchors: seq<Entry>, kind: bool, from: seq<Entry>, persisting: set<string>,
                                        g: Group)
    requires AllStamped(anchors) && AllStamped(from) && g in AnchorGroups(anchors, kind, from, persisting)
    ensures g.parent.Some? && g.parent.value in anchors && ValidStamp(g.parent.value)
    ensures g == Group(kind, RunIdFor(g.parent.value), g.parent, MembersOf(from, persisting, RunIdFor(g.parent.value)),
                       kind && IsApproved(g.parent.value))
  {
    assert anchors == [anchors[0]] + anchors[1..];
    if g in AnchorGroups(anchors[1..], kind, from, persisting) {
      AnchorCardIn(anchors[1..], kind, from, persisting, g);
    }
  }

  lemma {:induction false} AnchorsAre(shown: seq<Entry>, e: Entry)
    requires AllStamped(shown)
    ensures e in PreviewAnchors(shown) <==> e in shown && ValidStamp(e) && IsVisiblePreviewAnchor(e)
    ensures e in OperationAnchors(shown) <==> e in shown && ValidStamp(e) && IsOperationAnchor(e)
  {
    if shown != [] {
      assert shown == [shown[0]] + shown[1..];
      AnchorsAre(shown[1..], e);
    }
  }

  lemma AnchoredIs(entries: seq<Entry>, run: string)
    requires AllStamped(entries)
    ensures run in Anchored(Visible(entries)) <==> HeadOnBoard(entries, run)
  {
    var shown := Visible(entries);
    VisibleIs(entries);
    if run in Anchored(shown) {
      var e :| (e in OperationAnchors(shown) || e in PreviewAnchors(shown)) && RunIdFor(e) == run;
      AnchorsAre(shown, e);
      StampsDecide(e);
      assert e in entries && !IsRetired(e) && HeadsAny(e) && RunOf(e) == run;
    }
    if HeadOnBoard(entries, run) {
      var e :| e in entries && !IsRetired(e) && HeadsAny(e) && RunOf(e) == run;
      FilterHas(NotRetired(), entries, e);
      StampsDecide(e);
      AnchorsAre(shown, e);
    }
  }

  lemma {:induction false} ShellIn(parents: seq<string>, anchored: set<string>, from: seq<Entry>,
                                   persisting: set<string>, policies: Policies, g: Group)
    requires AllStamped(from) && g in ShellGroups(parents, anchored, from, persisting, policies)
    ensures g == Group(false, g.parentRunId, None, MembersOf(from, persisting, g.parentRunId), false)
    ensures g.parentRunId in parents && g.parentRunId !in anchored && !StaysFlat(g.members, policies)
  {
    var members := MembersOf(from, persisting, parents[0]);
    var rest := ShellGroups(parents[1..], anchored, from, persisting, policies);
    if g in rest {
      ShellIn(parents[1..], anchored, from, persisting, policies, g);
    }
  }

  /** Main result: every card is either that of a row of the board or one made up for a run without one. */
  lemma CardsAre(entries: seq<Entry>, sources: seq<Entry>, policies: Policies, g: Group)
    requires AllStamped(entries) && AllStamped(sources) && g in GroupsFor(entries, sources, policies)
    ensures if g.parent.Some? then IsCardOf(entries, sources, policies, g) else IsShellOf(entries, sources, policies, g)
  {
    var shown, from := Visible(entries), Visible(sources);
    var persisting := RootPersisting(from, policies);
    VisibleIs(entries);
    if g in ShellGroups(ParentsOf(from, persisting), Anchored(shown), from, persisting, policies) {
      ShellIn(ParentsOf(from, persisting), Anchored(shown), from, persisting, policies, g);
      ShellMeans(entries, sources, policies, g);
    } else {
      var kind := g in AnchorGroups(PreviewAnchors(shown), true, from, persisting);
      AnchorCardIn(if kind then PreviewAnchors(shown) else OperationAnchors(shown), kind, from, persisting, g);
      AnchorsAre(shown, g.parent.value);
      StampsDecide(g.parent.value);
      FilterHas(NotRetired(), entries, g.parent.value);
      InsideIs(sources, policies, RunOf(g.parent.value));
    }
  }

  lemma ShellMeans(entries: seq<Entry>, sources: seq<Entry>, policies: Policies, g: Group)
    requires AllStamped(entries) && AllStamped(sources) && g.parent.None?
    requires g in GroupsFor(entries, sources, policies)
    requires var from := Visible(sources); var persisting := RootPersisting(from, policies);
      && g == Group(false, g.parentRunId, None, MembersOf(from, persisting, g.parentRunId), false)
      && g.parentRunId !in Anchored(Visible(entries)) && !StaysFlat(g.members, policies)
    ensures IsShellOf(entries, sources, policies, g)
  {
    ShellsHaveMembers(entries, sources, policies, g);
    InsideIs(sources, policies, g.parentRunId);
    AnchoredIs(entries, g.parentRunId);
  }

  function ShellFor(run: string): Group -> bool { (g: Group) => g.parent == None && g.parentRunId == run }

  lemma {:induction false} ShellsFor(parents: seq<string>, anchored: set<string>, from: seq<Entry>,
                                     persisting: set<string>, policies: Policies, run: string)
    requires AllStamped(from) && Distinct(parents)
    ensures CountWhere(ShellFor(run), ShellGroups(parents, anchored, from, persisting, policies))
         == if run in parents && run !in anchored && !StaysFlat(MembersOf(from, persisting, run), policies) then 1
            else 0
  {
    if parents != [] {
      assert parents == [parents[0]] + parents[1..];
      assert parents[0] !in parents[1..];
      ShellsFor(parents[1..], anchored, from, persisting, policies, run);
      var members := MembersOf(from, persisting, parents[0]);
      var rest := ShellGroups(parents[1..], anchored, from, persisting, policies);
      if !(parents[0] in anchored || StaysFlat(members, policies)) {
        var head := Group(false, parents[0], None, members, false);
        CountWhereAppend(ShellFor(run), [head], rest);
        CountOne(ShellFor(run), head);
      } else {
        assert ShellGroups(parents, anchored, from, persisting, policies) == rest;
      }
    }
  }

  lemma {:induction false} NoAnchorIsShell(anchors: seq<Entry>, kind: bool, from: seq<Entry>, persisting: set<string>,
                                           run: string)
    requires AllStamped(anchors) && AllStamped(from)
    ensures CountWhere(ShellFor(run), AnchorGroups(anchors, kind, from, persisting)) == 0
  {
    if anchors != [] {
      NoAnchorIsShell(anchors[1..], kind, from, persisting, run);
      var head := AnchorGroups(anchors, kind, from, persisting)[0];
      CountWhereAppend(ShellFor(run), [head], AnchorGroups(anchors[1..], kind, from, persisting));
      CountOne(ShellFor(run), head);
    }
  }

  /** Main result: a run gets one made-up card exactly when rows belong to it, none of the board heads it, and they
      are not one row alone. */
  lemma ShellsAre(entries: seq<Entry>, sources: seq<Entry>, policies: Policies, run: string)
    requires AllStamped(entries) && AllStamped(sources)
    ensures CountWhere(ShellFor(run), GroupsFor(entries, sources, policies))
         == if Inside(sources, policies, run) != [] && !HeadOnBoard(entries, run)
               && !Alone(Inside(sources, policies, run), policies) then 1 else 0
  {
    var shown, from := Visible(entries), Visible(sources);
    var persisting := RootPersisting(from, policies);
    var parents := ParentsOf(from, persisting);
    var a := AnchorGroups(PreviewAnchors(shown), true, from, persisting);
    var b := AnchorGroups(OperationAnchors(shown), false, from, persisting);
    NoAnchorIsShell(PreviewAnchors(shown), true, from, persisting, run);
    NoAnchorIsShell(OperationAnchors(shown), false, from, persisting, run);
    ParentsAreDistinct(from, persisting);
    ShellsFor(parents, Anchored(shown), from, persisting, policies, run);
    CountWhereAppend(ShellFor(run), a + b, ShellGroups(parents, Anchored(shown), from, persisting, policies));
    CountWhereAppend(ShellFor(run), a, b);
    AnchoredIs(entries, run);
    InsideIs(sources, policies, run);
    ParentsAre(sources, policies, run);
  }

  /** The member table has an entry for exactly the runs that rows belong to. */
  lemma ParentsAre(sources: seq<Entry>, policies: Policies, run: string)
    requires AllStamped(sources)
    ensures var from := Visible(sources);
      run in ParentsOf(from, RootPersisting(from, policies)) <==> Inside(sources, policies, run) != []
  {
    var from := Visible(sources);
    var persisting := RootPersisting(from, policies);
    ParentsListMembers(from, persisting, run);
    InsideIs(sources, policies, run);
    MembersAreFilter(from, persisting, run);
    if Inside(sources, policies, run) != [] {
      var e := Inside(sources, policies, run)[0];
      assert e in Inside(sources, policies, run);
      FilterHas(IsMemberOf(persisting, run), from, e);
    }
    if e :| e in from && ValidStamp(e) && IsMember(e, persisting) && e.parentRunId.value == run {
      FilterHas(IsMemberOf(persisting, run), from, e);
    }
  }

  // ---- Flat rows ----

  /** The only row of a run that nobody heads, in a workflow that does not ask for a card. */
  ghost predicate IsLone(entries: seq<Entry>, sources: seq<Entry>, policies: Policies, x: Entry) {
    && x.parentRunId.Some? && !HeadOnBoard(entries, x.parentRunId.value)
    && Inside(sources, policies, x.parentRunId.value) == [x] && Alone([x], policies)
  }

  /** A row of the board that heads nothing, and that no card and no other row's run claims. */
  ghost predicate IsLoose(entries: seq<Entry>, sources: seq<Entry>, policies: Policies, x: Entry) {
    && x in entries && !IsRetired(x) && !HeadsAny(x)
    && (x.parentRunId == None || x.parentRunId == Some("")
        || (!HeadOnBoard(entries, x.parentRunId.value) && Inside(sources, policies, x.parentRunId.value) == []))
  }

  lemma {:induction false} LoneIn(parents: seq<string>, anchored: set<string>, from: seq<Entry>,
                                  persisting: set<string>, policies: Policies, x: Entry)
    requires AllStamped(from)
    ensures x in LoneChildren(parents, anchored, from, persisting, policies)
       <==> exists run :: run in parents && run !in anchored && StaysFlat(MembersOf(from, persisting, run), policies)
              && MembersOf(from, persisting, run) == [x]
  {
    if parents != [] {
      assert parents == [parents[0]] + parents[1..];
      LoneIn(parents[1..], anchored, from, persisting, policies, x);
      var members := MembersOf(from, persisting, parents[0]);
      if parents[0] !in anchored && StaysFlat(members, policies) {
        assert members == [members[0]];
      }
    }
  }

  lemma LoneAre(entries: seq<Entry>, sources: seq<Entry>, policies: Policies, x: Entry)
    requires AllStamped(entries) && AllStamped(sources)
    ensures var from := Visible(sources); var persisting := RootPersisting(from, policies);
      x in LoneChildren(ParentsOf(from, persisting), Anchored(Visible(entries)), from, persisting, policies)
      <==> IsLone(entries, sources, policies, x)
  {
    var from := Visible(sources);
    var persisting := RootPersisting(from, policies);
    LoneIn(ParentsOf(from, persisting), Anchored(Visible(entries)), from, persisting, policies, x);
    if run :| run in ParentsOf(from, persisting) && run !in Anchored(Visible(entries))
              && StaysFlat(MembersOf(from, persisting, run), policies) && MembersOf(from, persisting, run) == [x] {
      InsideIs(sources, policies, run);
      AnchoredIs(entries, run);
      assert x in Inside(sources, policies, run);
      FilterHas(BelongingTo(sources, policies, run), sources, x);
    }
    if IsLone(entries, sources, policies, x) {
      var run := x.parentRunId.value;
      InsideIs(sources, policies, run);
      AnchoredIs(entries, run);
      ParentsAre(sources, policies, run);
    }
  }

  lemma {:induction false} FlatIn(shown: seq<Entry>, grouped: set<string>, parents: set<string>, x: Entry)
    requires AllStamped(shown)
    ensures x in FlatOf(shown, grouped, parents) <==> x in shown && ValidStamp(x) && IsFlat(x, grouped, parents)
  {
    if shown != [] {
      assert shown == [shown[0]] + shown[1..];
      FlatIn(shown[1..], grouped, parents, x);
    }
  }

  /** A run is claimed by a card or by the member table exactly when somebody heads it or belongs to it. */
  lemma ClaimedIs(entries: seq<Entry>, sources: seq<Entry>, policies: Policies, run: string)
    requires AllStamped(entries) && AllStamped(sources)
    ensures var from := Visible(sources); var persisting := RootPersisting(from, policies);
      run in GroupIds(GroupsFor(entries, sources, policies)) || run in ParentsOf(from, persisting)
      <==> HeadOnBoard(entries, run) || Inside(sources, policies, run) != []
  {
    ParentsAre(sources, policies, run);
    if run in GroupIds(GroupsFor(entries, sources, policies)) {
      var g :| g in GroupsFor(entries, sources, policies) && g.parentRunId == run;
      CardsAre(entries, sources, policies, g);
      if g.parent.Some? {
        assert HeadsAny(g.parent.value);
      }
    }
    if HeadOnBoard(entries, run) {
      HeadIsGrouped(entries, sources, policies, run);
    }
  }

  lemma HeadIsGrouped(entries: seq<Entry>, sources: seq<Entry>, policies: Policies, run: string)
    requires AllStamped(entries) && AllStamped(sources) && HeadOnBoard(entries, run)
    ensures run in GroupIds(GroupsFor(entries, sources, policies))
  {
    var shown, from := Visible(entries), Visible(sources);
    var persisting := RootPersisting(from, policies);
    var e :| e in entries && !IsRetired(e) && HeadsAny(e) && RunOf(e) == run;
    VisibleIs(entries);
    FilterHas(NotRetired(), entries, e);
    StampsDecide(e);
    AnchorsAre(shown, e);
    var kind := e in PreviewAnchors(shown);
    AnchorHasCard(if kind then PreviewAnchors(shown) else OperationAnchors(shown), kind, from, persisting, e);
  }

  lemma {:induction false} AnchorHasCard(anchors: seq<Entry>, kind: bool, from: seq<Entry>, persisting: set<string>,
                                         e: Entry)
    requires AllStamped(anchors) && AllStamped(from) && e in anchors
    ensures exists g :: g in AnchorGroups(anchors, kind, from, persisting) && g.parentRunId == RunIdFor(e)
  {
    var cards := AnchorGroups(anchors, kind, from, persisting);
    if e == anchors[0] {
      assert cards[0] in cards;
    } else {
      AnchorHasCard(anchors[1..], kind, from, persisting, e);
    }
  }

  /** Main result: the flat rows, before those of one key are merged, are the lone and the loose ones. */
  lemma FlatAre(entries: seq<Entry>, sources: seq<Entry>, policies: Policies, x: Entry)
    requires AllStamped(entries) && AllStamped(sources)
    ensures var from := Visible(sources);
      x in FlatRows(Visible(entries), from, RootPersisting(from, policies), policies)
      <==> IsLone(entries, sources, policies, x) || IsLoose(entries, sources, policies, x)
  {
    var shown, from := Visible(entries), Visible(sources);
    var persisting := RootPersisting(from, policies);
    LoneAre(entries, sources, policies, x);
    FlatIn(shown, GroupIds(GroupsFor(entries, sources, policies)), Elements(ParentsOf(from, persisting)), x);
    VisibleIs(entries);
    FilterHas(NotRetired(), entries, x);
    if x in entries {
      StampsDecide(x);
      if HasParent(x) {
        ClaimedIs(entries, sources, policies, x.parentRunId.value);
      }
    }
  }

  lemma {:induction false} UniqueKeepsKeys(es: seq<Entry>)
    ensures forall x :: x in es ==> HasKey(EntryKey, Unique(es), EntryKey(x))
    decreases |es|
  {
    if es != [] {
      var front, last := es[..|es| - 1], es[|es| - 1];
      UniqueKeepsKeys(front);
      forall x | x in es
        ensures HasKey(EntryKey, Unique(es), EntryKey(x))
      {
        assert x == last || x in front;
        PutHolds(EntryKey, Unique(front), last, EntryKey(x));
      }
    }
  }

  /** The projection by stamps: every card is of a row on the board or of rows nobody heads, every flat row is lone or
      loose and every lone or loose row is among them up to its key; or some row carries an unknown stamp. */
  method BuildByStamps(entries: seq<Entry>, sources: seq<Entry>, policies: Policies) returns (r: Option<Surfaces>)
    ensures r.None? <==> exists e :: (e in entries || e in sources) && IsUnknown(e)
    ensures r.Some? ==> forall g :: g in r.value.groups ==>
      if g.parent.Some? then IsCardOf(entries, sources, policies, g) else IsShellOf(entries, sources, policies, g)
    ensures r.Some? && KeysDistinct(EntryKey, entries) ==> forall preview, e :: e in entries ==>
      CountWhere(HeadedBy(preview, e), r.value.groups) == if Heads(e, preview) && !IsRetired(e) then 1 else 0
    ensures r.Some? ==> forall run ::
      CountWhere(ShellFor(run), r.value.groups)
      == if Inside(sources, policies, run) != [] && !HeadOnBoard(entries, run)
            && !Alone(Inside(sources, policies, run), policies) then 1 else 0
    ensures r.Some? ==> forall x :: x in r.value.flat ==>
      IsLone(entries, sources, policies, x) || IsLoose(entries, sources, policies, x)
    ensures r.Some? ==> forall x :: IsLone(entries, sources, policies, x) || IsLoose(entries, sources, policies, x) ==>
      HasKey(EntryKey, r.value.flat, EntryKey(x))
  {
    r := BuildTrackerQueueSurfaces(entries, sources, policies);
    AllKnown(entries);
    AllKnown(sources);
    if r.None? { return; }
    forall g | g in r.value.groups
      ensures if g.parent.Some? then IsCardOf(entries, sources, policies, g)
              else IsShellOf(entries, sources, policies, g)
    {
      CardsAre(entries, sources, policies, g);
    }
    if KeysDistinct(EntryKey, entries) {
      forall preview, e | e in entries
        ensures CountWhere(HeadedBy(preview, e), r.value.groups)
             == if Heads(e, preview) && !IsRetired(e) then 1 else 0
      {
        HeadsOneCard(entries, sources, policies, preview, e);
      }
    }
    forall run
      ensures CountWhere(ShellFor(run), r.value.groups)
           == if Inside(sources, policies, run) != [] && !HeadOnBoard(entries, run)
                 && !Alone(Inside(sources, policies, run), policies) then 1 else 0
    {
      ShellsAre(entries, sources, policies, run);
    }
    FlatByStamps(entries, sources, policies);
  }

  lemma AllKnown(es: seq<Entry>)
    ensures AllStamped(es) <==> forall e :: e in es ==> !IsUnknown(e)
  {
    forall e
      ensures ValidStamp(e) <==> !IsUnknown(e)
    {
    }
  }

  lemma FlatByStamps(entries: seq<Entry>, sources: seq<Entry>, policies: Policies)
    requires AllStamped(entries) && AllStamped(sources)
    ensures forall x :: x in SurfacesFor(entries, sources, policies).flat ==>
      IsLone(entries, sources, policies, x) || IsLoose(entries, sources, policies, x)
    ensures forall x :: IsLone(entries, sources, policies, x) || IsLoose(entries, sources, policies, x) ==>
      HasKey(EntryKey, SurfacesFor(entries, sources, policies).flat, EntryKey(x))
  {
    var from := Visible(sources);
    var rows := FlatRows(Visible(entries), from, RootPersisting(from, policies), policies);
    UniqueMembers(rows);
    UniqueKeepsKeys(rows);
    forall x
      ensures x in rows <==> IsLone(entries, sources, policies, x) || IsLoose(entries, sources, policies, x)
    {
      FlatAre(entries, sources, policies, x);
    }
  }

  // ---- Which rows are still queued ----

  /** A row waits while it is pending or skipped; a running one while it signs in, or, delegated by OCR, while it waits
      for approval; no other does. */
  lemma QueuedMeans(e: Entry)
    ensures e.status in [Queued, Skipped] ==> IsQueueLike(e)
    ensures e.status in [Done, Failed] ==> !IsQueueLike(e)
    ensures e.status == Running ==>
      (IsQueueLike(e) <==>
        || (exists what: string :: e.step == Some("auth:" + what))
        || (e.workflow == "ocr" && e.step == Some("awaiting-approval")
            && e.parentRunId.Some? && e.parentRunId.value != ""))
  {
    if e.step.Some? && "auth:" <= e.step.value {
      assert e.step.value == "auth:" + e.step.value[5..];
    }
  }
}
