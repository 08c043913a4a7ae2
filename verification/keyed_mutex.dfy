/** The promise-tail mutex: callers of one key run one at a time, in arrival order, whatever the others do. */
module KeyedMutex {
  import opened Common

  /** Where a call is: its body not begun, under way, settled (either way), or its `finally` done as well. */
  datatype Phase = Waiting | Running | Settled(rejected: bool) | Returned(rejected: bool) {
    predicate Over() { Settled? || Returned? }

    function Left(): nat {
      match this
      case Waiting => 3
      case Running => 2
      case Settled(_) => 1
      case Returned(_) => 0
    }
  }

  /** `prior` is the call whose tail this one chained onto; None for an already resolved promise. */
  datatype Call = Call(key: string, prior: Option<nat>, phase: Phase)

  /** `calls` in arrival order; `tails` maps a key to the call whose tail is stored for it. */
  datatype World = World(calls: seq<Call>, tails: map<string, nat>)

  datatype Event = Arrive(key: string) | Start(call: nat) | Settle(call: nat, rejected: bool) | Return(call: nat)

  /** A body starts once the tail it waits on has settled; the microtasks interleave freely otherwise. */
  predicate Enabled(w: World, ev: Event) {
    match ev
    case Arrive(_) => true
    case Start(c) =>
      && c < |w.calls| && w.calls[c].phase.Waiting?
      && (w.calls[c].prior.Some? ==> w.calls[c].prior.value < |w.calls| && w.calls[w.calls[c].prior.value].phase.Over())
    case Settle(c, _) => c < |w.calls| && w.calls[c].phase.Running?
    case Return(c) => c < |w.calls| && w.calls[c].phase.Settled?
  }

  function Apply(w: World, ev: Event): World
    requires Enabled(w, ev)
  {
    match ev
    case Arrive(key) =>
      var prior := if key in w.tails then Some(w.tails[key]) else None;
      World(w.calls + [Call(key, prior, Waiting)], w.tails[key := |w.calls|])
    case Start(c) => w.(calls := w.calls[c := w.calls[c].(phase := Running)])
    case Settle(c, rejected) => w.(calls := w.calls[c := w.calls[c].(phase := Settled(rejected))])
    case Return(c) =>
      var key := w.calls[c].key;
      World(w.calls[c := w.calls[c].(phase := Returned(w.calls[c].phase.rejected))],
            if key in w.tails && w.tails[key] == c then w.tails - {key} else w.tails)
  }

  predicate Legal(w: World, events: seq<Event>)
    decreases |events|
  {
    events != [] ==> Enabled(w, events[0]) && Legal(Apply(w, events[0]), events[1..])
  }

  function Run(w: World, events: seq<Event>): World
    requires Legal(w, events)
    decreases |events|
  {
    if events == [] then w else Run(Apply(w, events[0]), events[1..])
  }

  const START := World([], map[])

  // ---- What every interleaving keeps ----

  predicate SameKeyBetween(w: World, lo: int, hi: int, key: string) {
    exists m :: 0 <= m < |w.calls| && lo < m < hi && w.calls[m].key == key
  }

  /** A call waits on its immediate predecessor, or every predecessor was over when it came. */
  predicate Chained(w: World, c: nat)
    requires c < |w.calls|
  {
    match w.calls[c].prior
    case Some(p) => p < c && w.calls[p].key == w.calls[c].key && !SameKeyBetween(w, p, c, w.calls[c].key)
    case None => forall m :: 0 <= m < c && w.calls[m].key == w.calls[c].key ==> w.calls[m].phase.Over()
  }

  /** The stored tail is the newest call of its key, kept until that call returns. */
  predicate TailIsNewest(w: World, key: string) {
    if key in w.tails then
      && w.tails[key] < |w.calls| && w.calls[w.tails[key]].key == key && !w.calls[w.tails[key]].phase.Returned?
      && !SameKeyBetween(w, w.tails[key], |w.calls|, key)
    else forall m :: 0 <= m < |w.calls| && w.calls[m].key == key ==> w.calls[m].phase.Over()
  }

  /** A body has begun only if every earlier one of its key is over. */
  predicate InTurn(w: World) {
    forall i, j :: 0 <= i < j < |w.calls| && w.calls[i].key == w.calls[j].key && !w.calls[j].phase.Waiting?
      ==> w.calls[i].phase.Over()
  }

  ghost predicate Inv(w: World) {
    && InTurn(w) && (forall c :: 0 <= c < |w.calls| ==> Chained(w, c)) && (forall key: string :: TailIsNewest(w, key))
  }

  /** Nothing of this key lies between a call and its predecessor, so the predecessor being over settles the matter. */
  lemma PriorOver(w: World, c: nat)
    requires Inv(w) && Enabled(w, Start(c))
    ensures forall i :: 0 <= i < c && w.calls[i].key == w.calls[c].key ==> w.calls[i].phase.Over()
  {
    assert Chained(w, c);
    if w.calls[c].prior.Some? {
      var p := w.calls[c].prior.value;
      forall i | 0 <= i < c && w.calls[i].key == w.calls[c].key
        ensures w.calls[i].phase.Over()
      {
        assert i <= p by {
          if p < i { assert SameKeyBetween(w, p, c, w.calls[c].key); }
        }
      }
    }
  }

  lemma {:induction false} StepInTurn(w: World, ev: Event)
    requires Inv(w) && Enabled(w, ev)
    ensures InTurn(Apply(w, ev))
  {
    if ev.Start? {
      PriorOver(w, ev.call);
    }
  }

  /** Phases only advance, and calls keep their key and predecessor. */
  predicate Advances(w: World, w': World) {
    && |w.calls| <= |w'.calls|
    && forall i :: 0 <= i < |w.calls| ==>
         && w'.calls[i].key == w.calls[i].key && w'.calls[i].prior == w.calls[i].prior
         && (w.calls[i].phase.Over() ==> w'.calls[i].phase.Over())
  }

  lemma StepAdvances(w: World, ev: Event)
    requires Enabled(w, ev)
    ensures Advances(w, Apply(w, ev))
    ensures !ev.Arrive? ==> |Apply(w, ev).calls| == |w.calls|
  {
  }

  lemma BetweenKept(w: World, w': World, lo: int, hi: int, key: string)
    requires Advances(w, w') && hi <= |w.calls| && !SameKeyBetween(w, lo, hi, key)
    ensures !SameKeyBetween(w', lo, hi, key)
  {
  }

  lemma ChainedKept(w: World, w': World, c: nat)
    requires Advances(w, w') && c < |w.calls| && Chained(w, c)
    ensures Chained(w', c)
  {
    if w.calls[c].prior.Some? {
      BetweenKept(w, w', w.calls[c].prior.value, c, w.calls[c].key);
    }
  }

  lemma {:induction false} StepChained(w: World, ev: Event)
    requires Inv(w) && Enabled(w, ev)
    ensures forall c :: 0 <= c < |Apply(w, ev).calls| ==> Chained(Apply(w, ev), c)
  {
    var w' := Apply(w, ev);
    StepAdvances(w, ev);
    forall c | 0 <= c < |w'.calls|
      ensures Chained(w', c)
    {
      if c < |w.calls| {
        ChainedKept(w, w', c);
      } else {
        assert TailIsNewest(w, ev.key);
        if ev.key in w.tails {
          BetweenKept(w, w', w.tails[ev.key], |w.calls|, ev.key);
        }
      }
    }
  }

  lemma {:induction false} StepTail(w: World, ev: Event, key: string)
    requires Inv(w) && Enabled(w, ev)
    ensures TailIsNewest(Apply(w, ev), key)
  {
    var w' := Apply(w, ev);
    StepAdvances(w, ev);
    assert TailIsNewest(w, key);
    if ev.Arrive? {
      if key == ev.key {
        assert !SameKeyBetween(w', |w.calls|, |w'.calls|, key);
      } else if key in w.tails {
        BetweenKept(w, w', w.tails[key], |w.calls|, key);
        assert !SameKeyBetween(w', w.tails[key], |w'.calls|, key);
      }
    } else if key in w.tails {
      BetweenKept(w, w', w.tails[key], |w.calls|, key);
      if key !in w'.tails {
        NewestOver(w, ev.call, key);
      }
    }
  }

  /** Once the newest call of a key is over, all of them are. */
  lemma NewestOver(w: World, c: nat, key: string)
    requires Inv(w) && Enabled(w, Return(c)) && key in w.tails && w.tails[key] == c
    ensures forall m :: 0 <= m < |w.calls| && w.calls[m].key == key ==> w.calls[m].phase.Over()
  {
    assert TailIsNewest(w, key);
    forall m | 0 <= m < |w.calls| && w.calls[m].key == key
      ensures w.calls[m].phase.Over()
    {
      if m > c { assert SameKeyBetween(w, c, |w.calls|, key); }
    }
  }

  lemma {:induction false} StepInv(w: World, ev: Event)
    requires Inv(w) && Enabled(w, ev)
    ensures Inv(Apply(w, ev))
  {
    StepInTurn(w, ev);
    StepChained(w, ev);
    forall key: string
      ensures TailIsNewest(Apply(w, ev), key)
    {
      StepTail(w, ev, key);
    }
  }

  lemma {:induction false} RunInv(w: World, events: seq<Event>)
    requires Inv(w) && Legal(w, events)
    ensures Inv(Run(w, events))
    decreases |events|
  {
    if events != [] {
      StepInv(w, events[0]);
      RunInv(Apply(w, events[0]), events[1..]);
    }
  }

  // ---- Main results ----

  /** For every key, in every interleaving, bodies start in arrival order, rejections or not, and never overlap. */
  lemma {:induction false} OneBodyAtATime(events: seq<Event>, i: nat, j: nat)
    requires Legal(START, events) && i < j < |Run(START, events).calls|
    requires Run(START, events).calls[i].key == Run(START, events).calls[j].key
    ensures var calls := Run(START, events).calls;
      && (!calls[j].phase.Waiting? ==> calls[i].phase.Over())
      && !(calls[i].phase.Running? && calls[j].phase.Running?)
  {
    RunInv(START, events);
  }

  // ---- The same, by what happened ----

  /** The keys in order of arrival: the n-th arrival is call n. */
  function Arrivals(events: seq<Event>): seq<string> {
    if events == [] then []
    else
      var last := events[|events| - 1];
      Arrivals(events[..|events| - 1]) + (if last.Arrive? then [last.key] else [])
  }

  lemma {:induction false} RunMore(w: World, events: seq<Event>, ev: Event)
    ensures Legal(w, events + [ev]) <==> Legal(w, events) && Enabled(Run(w, events), ev)
    ensures Legal(w, events + [ev]) ==> Run(w, events + [ev]) == Apply(Run(w, events), ev)
    decreases |events|
  {
    if events == [] {
      assert [] + [ev] == [ev] && [ev][1..] == [];
      assert Legal(w, [ev]) <==> Enabled(w, ev) && Legal(Apply(w, ev), []);
    } else {
      assert (events + [ev])[0] == events[0] && (events + [ev])[1..] == events[1..] + [ev];
      if Enabled(w, events[0]) {
        RunMore(Apply(w, events[0]), events[1..], ev);
      }
    }
  }

  predicate HasSettled(events: seq<Event>, c: nat) { Settle(c, true) in events || Settle(c, false) in events }

  /** A call's phase is what has happened to it: its body begun, settled one way or the other, its caller returned. */
  predicate IsPhase(events: seq<Event>, c: nat, phase: Phase) {
    && (phase.Waiting? <==> Start(c) !in events)
    && (phase.Over() <==> HasSettled(events, c))
    && (phase.Returned? <==> Return(c) in events)
    && (phase.Over() ==> (phase.rejected <==> Settle(c, true) in events))
  }

  ghost predicate ByTrace(events: seq<Event>, calls: seq<Call>) {
    && |calls| == |Arrivals(events)|
    && (forall c :: 0 <= c < |calls| ==> calls[c].key == Arrivals(events)[c] && IsPhase(events, c, calls[c].phase))
    && (forall c: nat :: |calls| <= c ==>
          Start(c) !in events && !HasSettled(events, c) && Return(c) !in events)
  }

  lemma TraceStep(events: seq<Event>, w: World, ev: Event)
    requires ByTrace(events, w.calls) && Enabled(w, ev)
    ensures ByTrace(events + [ev], Apply(w, ev).calls)
  {
    var after := Apply(w, ev).calls;
    assert (events + [ev])[..|events|] == events;
    assert forall e :: e in events + [ev] <==> e in events || e == ev;
    forall c | 0 <= c < |after|
      ensures after[c].key == Arrivals(events + [ev])[c] && IsPhase(events + [ev], c, after[c].phase)
    {
      if c < |w.calls| {
        assert IsPhase(events, c, w.calls[c].phase);
      }
    }
  }

  lemma {:induction false} RunByTrace(events: seq<Event>)
    requires Legal(START, events)
    ensures ByTrace(events, Run(START, events).calls)
    decreases |events|
  {
    if events != [] {
      var front, ev := events[..|events| - 1], events[|events| - 1];
      assert events == front + [ev];
      RunMore(START, front, ev);
      RunByTrace(front);
      TraceStep(front, Run(START, front), ev);
    }
  }

  lemma {:induction false} LegalPrefix(w: World, events: seq<Event>, t: nat)
    requires Legal(w, events) && t < |events|
    ensures Legal(w, events[..t]) && Enabled(Run(w, events[..t]), events[t])
    decreases |events| - t
  {
    if t + 1 == |events| {
      assert events == events[..t] + [events[t]];
      RunMore(w, events[..t], events[t]);
    } else {
      LegalPrefix(w, events, t + 1);
      assert events[..t + 1] == events[..t] + [events[t]];
      RunMore(w, events[..t], events[t]);
    }
  }

  /** Main result: of two calls of one key the later one's body begins only after the earlier one's has settled, in
      whatever order anything else happens. */
  lemma BodiesInOrder(events: seq<Event>, i: nat, j: nat, t: nat)
    requires Legal(START, events) && t < |events| && events[t] == Start(j)
    requires i < j < |Arrivals(events)| && Arrivals(events)[i] == Arrivals(events)[j]
    ensures exists u :: 0 <= u < t && (events[u] == Settle(i, true) || events[u] == Settle(i, false))
  {
    var before := events[..t];
    LegalPrefix(START, events, t);
    var w := Run(START, before);
    RunInv(START, before);
    RunByTrace(before);
    ArrivalsGrow(events, t);
    PriorOver(w, j);
    assert w.calls[i].key == w.calls[j].key && IsPhase(before, i, w.calls[i].phase);
    assert HasSettled(before, i);
    var u :| 0 <= u < |before| && (before[u] == Settle(i, true) || before[u] == Settle(i, false));
    assert events[u] == before[u];
  }

  /** And it can begin as soon as all earlier ones of its key have settled, returned or not. */
  lemma BodyMayBegin(events: seq<Event>, c: nat)
    requires Legal(START, events) && c < |Arrivals(events)| && Start(c) !in events
    ensures Legal(START, events + [Start(c)]) <==>
      forall i: nat :: i < c && Arrivals(events)[i] == Arrivals(events)[c] ==> HasSettled(events, i)
  {
    var w := Run(START, events);
    RunInv(START, events);
    RunByTrace(events);
    RunMore(START, events, Start(c));
    assert Chained(w, c) && IsPhase(events, c, w.calls[c].phase);
    forall i: nat | i < c
      ensures w.calls[i].key == Arrivals(events)[i] && (w.calls[i].phase.Over() <==> HasSettled(events, i))
    {
      assert IsPhase(events, i, w.calls[i].phase);
    }
    if Enabled(w, Start(c)) {
      PriorOver(w, c);
    }
  }

  lemma {:induction false} ArrivalsGrow(events: seq<Event>, t: nat)
    requires t <= |events|
    ensures Arrivals(events[..t]) <= Arrivals(events)
    decreases |events|
  {
    if t < |events| {
      ArrivalsGrow(events[..|events| - 1], t);
      assert events[..|events| - 1][..t] == events[..t];
    } else {
      assert events[..t] == events;
    }
  }

  /** The map has an entry for a key exactly while the key's newest call has not returned. */
  lemma {:induction false} EntryWhileNewestOpen(events: seq<Event>, key: string)
    requires Legal(START, events)
    ensures var w := Run(START, events);
      && (key !in w.tails ==> forall m :: 0 <= m < |w.calls| && w.calls[m].key == key ==> w.calls[m].phase.Over())
      && (key in w.tails <==>
            exists m :: 0 <= m < |w.calls| && w.calls[m].key == key && !w.calls[m].phase.Returned?
                        && !SameKeyBetween(w, m, |w.calls|, key))
  {
    RunInv(START, events);
    TailRun(START, events, key);
    assert TailIsNewest(Run(START, events), key);
  }

  /** A key without an entry: its newest call has returned. */
  predicate NewestReturned(w: World, key: string) {
    forall m :: 0 <= m < |w.calls| && w.calls[m].key == key && !SameKeyBetween(w, m, |w.calls|, key) ==>
      w.calls[m].phase.Returned?
  }

  lemma {:induction false} TailRun(w: World, events: seq<Event>, key: string)
    requires Inv(w) && Legal(w, events) && (key !in w.tails ==> NewestReturned(w, key))
    ensures key !in Run(w, events).tails ==> NewestReturned(Run(w, events), key)
    decreases |events|
  {
    if events != [] {
      StepInv(w, events[0]);
      NewestStep(w, events[0], key);
      TailRun(Apply(w, events[0]), events[1..], key);
    }
  }

  lemma NoneBefore(w: World, w': World, lo: int, key: string)
    requires Advances(w, w') && 0 <= lo && !SameKeyBetween(w', lo, |w'.calls|, key)
    ensures !SameKeyBetween(w, lo, |w.calls|, key)
  {
  }

  lemma {:induction false} NewestStep(w: World, ev: Event, key: string)
    requires Inv(w) && Enabled(w, ev) && (key !in w.tails ==> NewestReturned(w, key))
    ensures key !in Apply(w, ev).tails ==> NewestReturned(Apply(w, ev), key)
  {
    var w' := Apply(w, ev);
    assert TailIsNewest(w, key);
    if key !in w'.tails {
      forall m | 0 <= m < |w'.calls| && w'.calls[m].key == key && !SameKeyBetween(w', m, |w'.calls|, key)
        ensures w'.calls[m].phase.Returned?
      {
        assert m < |w.calls|;
        NoneBefore(w, w', m, key);
        assert key in w.tails ==> m == w.tails[key];
      }
    }
  }

  function Remaining(calls: seq<Call>): nat {
    if calls == [] then 0 else calls[0].phase.Left() + Remaining(calls[1..])
  }

  lemma {:induction false} RemainingUpdate(calls: seq<Call>, c: nat, call: Call)
    requires c < |calls|
    ensures Remaining(calls[c := call]) == Remaining(calls) - calls[c].phase.Left() + call.phase.Left()
    ensures Remaining(calls) >= calls[c].phase.Left()
  {
    if c == 0 {
      assert calls[0 := call][1..] == calls[1..];
    } else {
      RemainingUpdate(calls[1..], c - 1, call);
      assert calls[c := call][1..] == calls[1..][c - 1 := call];
    }
  }

  /** Every step but an arrival brings the calls one step nearer to returning. */
  lemma {:induction false} StepsAreFinite(w: World, ev: Event)
    requires Enabled(w, ev) && !ev.Arrive?
    ensures Remaining(Apply(w, ev).calls) == Remaining(w.calls) - 1
  {
    RemainingUpdate(w.calls, ev.call, Apply(w, ev).calls[ev.call]);
  }

  /** Nothing gets stuck: while some call has not returned, some call can take its next step. */
  lemma {:induction false} NeverStuck(w: World, c: nat) returns (ev: Event)
    requires Inv(w) && c < |w.calls| && !w.calls[c].phase.Returned?
    ensures !ev.Arrive? && Enabled(w, ev)
    decreases c
  {
    match w.calls[c].phase {
      case Settled(_) => ev := Return(c);
      case Running => ev := Settle(c, false);
      case Waiting =>
        assert Chained(w, c);
        if w.calls[c].prior.None? || w.calls[w.calls[c].prior.value].phase.Over() {
          ev := Start(c);
        } else {
          ev := NeverStuck(w, w.calls[c].prior.value);
        }
    }
  }

  /** Once all callers have returned the map is empty. */
  lemma {:induction false} AllReturnedLeavesNothing(events: seq<Event>)
    requires Legal(START, events)
    requires forall c :: 0 <= c < |Run(START, events).calls| ==> Run(START, events).calls[c].phase.Returned?
    ensures Run(START, events).tails == map[]
  {
    RunInv(START, events);
    var w := Run(START, events);
    forall key: string
      ensures key !in w.tails
    {
      assert TailIsNewest(w, key);
    }
  }

  // ---- The class ----

  class Mutex {
    var tails: map<string, nat>
    ghost var calls: seq<Call>

    ghost function Now(): World
      reads this
    {
      World(calls, tails)
    }

    constructor ()
      ensures Now() == START && Inv(Now())
    {
      tails, calls := map[], [];
    }

    /** The synchronous part of `runExclusive`: chain onto the stored tail and store one's own. */
    method Chain(key: string, me: nat) returns (prior: Option<nat>)
      requires Inv(Now()) && me == |calls|
      modifies this
      ensures Now() == Apply(old(Now()), Arrive(key)) && Inv(Now())
      ensures prior == calls[me].prior
    {
      StepInv(Now(), Arrive(key));
      prior := if key in tails then Some(tails[key]) else None;
      tails := tails[key := me];
      calls := calls + [Call(key, prior, Waiting)];
    }

    /** The `finally` block: clear the entry only if it is still one's own. */
    method Finish(key: string, me: nat)
      requires Inv(Now()) && Enabled(Now(), Return(me)) && calls[me].key == key
      modifies this
      ensures Now() == Apply(old(Now()), Return(me)) && Inv(Now())
      ensures forall other :: other != key ==> (other in tails <==> other in old(tails))
    {
      StepInv(Now(), Return(me));
      if key in tails && tails[key] == me {
        tails := tails - {key};
      }
      calls := calls[me := calls[me].(phase := Returned(calls[me].phase.rejected))];
    }
  }
}
