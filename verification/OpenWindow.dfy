/** The one live commit window of a branch worker (internal/git/open_window.go).

    A window collects the events of one author and one GitTarget. Repeated writes to one
    path key are last-write-wins, in first-seen key order. */
module OpenWindows {
  import opened PrunePolicy
  import opened Documents

  /** The worker-local identity of a CommitRequest. */
  datatype CrId = CrId(namespace: string, name: string, uid: string)

  datatype Window = Window(
    author: string,
    attribution: Attribution,
    target: TargetKey,
    order: seq<Slot>,
    latest: map<Slot, Event>,
    message: string,
    cr: Option<CrId>)

  function NewWindow(e: Event): Window {
    Window(e.author, e.attribution, e.target, [], map[], "", None)
  }

  predicate CanAppend(w: Window, e: Event) {
    && e.attribution == w.attribution
    && e.author == w.author
    && e.target == w.target
  }

  function Add(w: Window, e: Event): Window {
    var key := PathKey(e);
    w.(order := if key in w.latest then w.order else w.order + [key],
       latest := w.latest[key := e])
  }

  /** The representation invariant: `order` lists each key of `latest` once, every event
      sits under its own key and belongs to the window's author and target. */
  ghost predicate Consistent(w: Window) {
    && (forall k :: k in w.order <==> k in w.latest)
    && (forall i, j :: 0 <= i < j < |w.order| ==> w.order[i] != w.order[j])
    && (forall k :: k in w.latest ==> PathKey(w.latest[k]) == k && CanAppend(w, w.latest[k]))
  }

  lemma AddKeepsConsistent(w: Window, e: Event)
    requires Consistent(w) && CanAppend(w, e)
    ensures Consistent(Add(w, e)) && Add(w, e).order != []
  {
    var key := PathKey(e);
    var after := Add(w, e);
    if key !in w.latest {
      assert forall k :: k in after.order <==> k in w.order || k == key;
    } else {
      assert key in w.order;
    }
  }

  lemma NewWindowAccepts(e: Event)
    ensures Consistent(NewWindow(e)) && CanAppend(NewWindow(e), e)
  {
  }

  /** One event per distinct key, in first-seen order. */
  function OrderedEvents(w: Window): (events: seq<Event>)
    requires Consistent(w)
    ensures |events| == |w.order|
    ensures forall i :: 0 <= i < |events| ==> events[i] == w.latest[w.order[i]]
  {
    seq(|w.order|, i requires 0 <= i < |w.order| => assert w.order[i] in w.order; w.latest[w.order[i]])
  }

  /** The window that a non-empty run of events for one author and target leaves open. */
  function Collect(events: seq<Event>): (w: Window)
    requires events != []
    requires forall i :: 0 <= i < |events| ==> CanAppend(NewWindow(events[0]), events[i])
    ensures Consistent(w)
    ensures w.author == events[0].author && w.attribution == events[0].attribution
    ensures w.target == events[0].target
  {
    if |events| == 1 then
      AddKeepsConsistent(NewWindow(events[0]), events[0]);
      Add(NewWindow(events[0]), events[0])
    else
      var w := Collect(events[..|events| - 1]);
      assert CanAppend(NewWindow(events[0]), events[|events| - 1]);
      AddKeepsConsistent(w, events[|events| - 1]);
      Add(w, events[|events| - 1])
  }

  // ------------------------------------------------ what coalescing preserves

  /** The index of the last event at a key. */
  predicate IsLast(events: seq<Event>, j: int) {
    && 0 <= j < |events|
    && forall k :: j < k < |events| ==> PathKey(events[k]) != PathKey(events[j])
  }

  predicate IsFirst(events: seq<Event>, j: int) {
    && 0 <= j < |events|
    && forall k :: 0 <= k < j ==> PathKey(events[k]) != PathKey(events[j])
  }

  /** An event that decides the whole document: an upsert, or a delete the mode applies. */
  predicate WholeObject(e: Event, mode: Modes) {
    EventEffect(e, mode(e.base)).Put?
  }

  /** The fields a partial event assigns: none for a suppressed delete or an encrypted document. */
  function AssignedFields(e: Event): set<string> {
    if e.op.FieldPatch? && !e.ident.sensitive then e.op.assign.Keys else {}
  }

  /** Wherever the surviving event of a key is only partial, the events it replaced were
      partial too and assigned no field that it does not assign itself. */
  predicate NothingLost(events: seq<Event>, mode: Modes) {
    forall i, j :: 0 <= i < j < |events| && PathKey(events[i]) == PathKey(events[j])
                   && IsLast(events, j) && !WholeObject(events[j], mode) ==>
      !WholeObject(events[i], mode) && AssignedFields(events[i]) <= AssignedFields(events[j])
  }

  predicate OneAuthorOneTarget(events: seq<Event>) {
    && events != []
    && forall i :: 0 <= i < |events| ==> CanAppend(NewWindow(events[0]), events[i])
  }

  /** The effect of the surviving event at a slot. */
  function LastEffect(events: seq<Event>, mode: Modes, s: Slot): Effect {
    if events == [] then UNTOUCHED
    else
      var e := events[|events| - 1];
      if PathKey(e) == s then EventEffect(e, mode(e.base))
      else LastEffect(events[..|events| - 1], mode, s)
  }

  /** A window holds, for each key, the last event that arrived for it. */
  lemma {:induction false} WindowKeepsLast(events: seq<Event>, j: int)
    requires OneAuthorOneTarget(events) && IsLast(events, j)
    ensures PathKey(events[j]) in Collect(events).latest
    ensures Collect(events).latest[PathKey(events[j])] == events[j]
  {
    var n := |events| - 1;
    if j < n {
      assert events[j] == events[..n][j];
      assert PathKey(events[n]) != PathKey(events[j]);
      WindowKeepsLast(events[..n], j);
    }
  }

  /** Its keys are in the order in which each was first seen. */
  lemma {:induction false} WindowKeepsFirstSeenOrder(events: seq<Event>, i: int, j: int)
    requires OneAuthorOneTarget(events)
    requires IsFirst(events, i) && IsFirst(events, j) && i < j
    ensures Before(Collect(events).order, PathKey(events[i]), PathKey(events[j]))
  {
    var n := |events| - 1;
    var rest := events[..n];
    if j < n {
      WindowKeepsFirstSeenOrder(rest, i, j);
      BeforeExtends(Collect(rest).order, Collect(events).order, PathKey(events[i]), PathKey(events[j]));
    } else {
      assert events == rest + [events[n]];
      NewKeyComesLast(rest, events[n]);
      KnownKey(rest, i);
    }
  }

  /** `a` occurs in `order` at an earlier position than `b`. */
  ghost predicate Before(order: seq<Slot>, a: Slot, b: Slot) {
    exists x, y :: 0 <= x < y < |order| && order[x] == a && order[y] == b
  }

  lemma BeforeExtends(short: seq<Slot>, long: seq<Slot>, a: Slot, b: Slot)
    requires short <= long && Before(short, a, b)
    ensures Before(long, a, b)
  {
    var x, y :| 0 <= x < y < |short| && short[x] == a && short[y] == b;
    assert long[x] == a && long[y] == b;
  }

  lemma {:induction false} KnownKey(events: seq<Event>, i: int)
    requires OneAuthorOneTarget(events) && 0 <= i < |events|
    ensures PathKey(events[i]) in Collect(events).latest
  {
    if i < |events| - 1 { KnownKey(events[..|events| - 1], i); }
  }

  lemma {:induction false} OnlyKnownKeys(events: seq<Event>, k: Slot)
    requires OneAuthorOneTarget(events) && k in Collect(events).latest
    ensures exists i :: 0 <= i < |events| && PathKey(events[i]) == k
  {
    var n := |events| - 1;
    if PathKey(events[n]) != k {
      OnlyKnownKeys(events[..n], k);
      var i :| 0 <= i < n && PathKey(events[..n][i]) == k;
      assert PathKey(events[i]) == k;
    }
  }

  lemma NewKeyComesLast(rest: seq<Event>, e: Event)
    requires OneAuthorOneTarget(rest + [e]) && rest != []
    requires forall k :: 0 <= k < |rest| ==> PathKey(rest[k]) != PathKey(e)
    ensures OneAuthorOneTarget(rest)
    ensures forall k :: k in Collect(rest).latest ==> Before(Add(Collect(rest), e).order, k, PathKey(e))
  {
    assert forall i :: 0 <= i < |rest| ==> (rest + [e])[i] == rest[i];
    var w := Collect(rest);
    if PathKey(e) in w.latest { OnlyKnownKeys(rest, PathKey(e)); }
    forall k | k in w.latest
      ensures Before(Add(w, e).order, k, PathKey(e))
    {
      assert k in w.order;
      var x :| 0 <= x < |w.order| && w.order[x] == k;
      assert Add(w, e).order[x] == k && Add(w, e).order[|w.order|] == PathKey(e);
    }
  }

  /** The coalesced events have, at every slot, exactly the effect of the last event there. */
  lemma OrderedEventsEffect(events: seq<Event>, mode: Modes, s: Slot)
    requires OneAuthorOneTarget(events)
    ensures EffectAt(OrderedEvents(Collect(events)), mode, s) == LastEffect(events, mode, s)
  {
    var w := Collect(events);
    var out := OrderedEvents(w);
    assert forall i :: 0 <= i < |out| ==> w.order[i] in w.order;
    assert forall i, j :: 0 <= i < j < |out| ==> PathKey(out[i]) != PathKey(out[j]);
    LastEffectIsWindowEvent(events, mode, s);
    if s in w.latest {
      assert s in w.order;
      var i :| 0 <= i < |w.order| && w.order[i] == s;
      assert PathKey(out[i]) == s;
      LoneEffect(out, mode, s, i);
    } else {
      assert forall i :: 0 <= i < |out| ==> PathKey(out[i]) != s;
      NoEffect(out, mode, s);
    }
  }

  lemma {:induction false} LastEffectIsWindowEvent(events: seq<Event>, mode: Modes, s: Slot)
    requires OneAuthorOneTarget(events)
    ensures var w := Collect(events);
            LastEffect(events, mode, s) ==
            if s in w.latest then EventEffect(w.latest[s], mode(w.latest[s].base)) else UNTOUCHED
  {
    if |events| > 1 {
      LastEffectIsWindowEvent(events[..|events| - 1], mode, s);
    } else {
      assert events[..0] == [];
    }
  }

  /** Two sequences of events that lead from every branch to the same branch. */
  ghost predicate SameMeaning(a: seq<Event>, b: seq<Event>, mode: Modes) {
    forall t: Tree :: ApplyEvents(t, a, mode) == ApplyEvents(t, b, mode)
  }

  ghost predicate SameEffects(a: seq<Event>, b: seq<Event>, mode: Modes) {
    forall s :: EffectAt(a, mode, s) == EffectAt(b, mode, s)
  }

  lemma SameEffectsSameMeaning(a: seq<Event>, b: seq<Event>, mode: Modes)
    requires SameEffects(a, b, mode)
    ensures SameMeaning(a, b, mode)
  {
    forall t: Tree
      ensures ApplyEvents(t, a, mode) == ApplyEvents(t, b, mode)
    {
      forall s ensures Get(ApplyEvents(t, a, mode), s) == Get(ApplyEvents(t, b, mode), s) {
        EventsActBySlot(t, a, mode, s);
        EventsActBySlot(t, b, mode, s);
      }
      TreesAgree(ApplyEvents(t, a, mode), ApplyEvents(t, b, mode));
    }
  }

  lemma SameEffectOn(a: seq<Event>, b: seq<Event>, mode: Modes, s: Slot, t: Tree)
    requires SameMeaning(a, b, mode)
    ensures Run(EffectAt(a, mode, s), Get(t, s)) == Run(EffectAt(b, mode, s), Get(t, s))
  {
    assert ApplyEvents(t, a, mode) == ApplyEvents(t, b, mode);
    EventsActBySlot(t, a, mode, s);
    EventsActBySlot(t, b, mode, s);
  }

  lemma SameMeaningSameEffects(a: seq<Event>, b: seq<Event>, mode: Modes)
    requires SameMeaning(a, b, mode)
    ensures SameEffects(a, b, mode)
  {
    forall s ensures EffectAt(a, mode, s) == EffectAt(b, mode, s) {
      SameEffectOn(a, b, mode, s, map[]);
      SameEffectOn(a, b, mode, s, map[s := [map[]]]);
      EffectsDistinguished(EffectAt(a, mode, s), EffectAt(b, mode, s));
    }
  }

  /** The condition, restricted to the events at one slot: the last event there absorbs
      everything before it. */
  predicate AbsorbedAt(events: seq<Event>, mode: Modes, s: Slot, last: Effect) {
    last.Merge? ==>
      forall i :: 0 <= i < |events| && PathKey(events[i]) == s ==>
        !WholeObject(events[i], mode) && AssignedFields(events[i]) <= last.fields.Keys
  }

  lemma {:induction false} PartialEventsMerge(events: seq<Event>, mode: Modes, s: Slot, bound: set<string>)
    ensures (EffectAt(events, mode, s).Merge? && EffectAt(events, mode, s).fields.Keys <= bound) <==>
            forall i :: 0 <= i < |events| && PathKey(events[i]) == s ==>
              !WholeObject(events[i], mode) && AssignedFields(events[i]) <= bound
  {
    if events != [] {
      var n := |events| - 1;
      var rest := events[..n];
      PartialEventsMerge(rest, mode, s, bound);
      assert forall i :: 0 <= i < n ==> rest[i] == events[i];
      if PathKey(events[n]) == s {
        var e := EventEffect(events[n], mode(events[n].base));
        if e.Merge? { assert e.fields.Keys == AssignedFields(events[n]); }
      }
    }
  }

  lemma {:induction false} EffectIsLastExactly(events: seq<Event>, mode: Modes, s: Slot)
    ensures EffectAt(events, mode, s) == LastEffect(events, mode, s) <==>
            AbsorbedAt(events, mode, s, LastEffect(events, mode, s))
  {
    if events == [] {
    } else {
      var n := |events| - 1;
      var rest := events[..n];
      assert forall i :: 0 <= i < n ==> rest[i] == events[i];
      var e := events[n];
      if PathKey(e) == s {
        var last := EventEffect(e, mode(e.base));
        var before := EffectAt(rest, mode, s);
        assert EffectAt(events, mode, s) == Then(before, last);
        if last.Merge? {
          PartialEventsMerge(rest, mode, s, last.fields.Keys);
          assert last.fields.Keys == AssignedFields(e);
          MergeAbsorbs(before, last.fields);
        }
      } else {
        EffectIsLastExactly(rest, mode, s);
      }
    }
  }

  lemma MergeAbsorbs(before: Effect, f: Fields)
    ensures Then(before, Merge(f)) == Merge(f) <==> before.Merge? && before.fields.Keys <= f.Keys
  {
    if before.Merge? {
      if before.fields.Keys <= f.Keys {
        assert before.fields + f == f;
      } else {
        var k :| k in before.fields && k !in f;
        assert k in before.fields + f;
      }
    }
  }

  /** The event that survives at a slot, if any event is there. */
  lemma {:induction false} LastEventAt(events: seq<Event>, mode: Modes, s: Slot, i: int) returns (j: int)
    requires 0 <= i < |events| && PathKey(events[i]) == s
    ensures i <= j && IsLast(events, j) && PathKey(events[j]) == s
    ensures LastEffect(events, mode, s) == EventEffect(events[j], mode(events[j].base))
  {
    var n := |events| - 1;
    if PathKey(events[n]) == s {
      j := n;
    } else {
      j := LastEventAt(events[..n], mode, s, i);
      assert forall k :: j < k < n ==> events[k] == events[..n][k];
    }
  }

  ghost predicate AbsorbedEverywhere(events: seq<Event>, mode: Modes) {
    forall s :: AbsorbedAt(events, mode, s, LastEffect(events, mode, s))
  }

  lemma NothingLostAbsorbs(events: seq<Event>, mode: Modes)
    requires NothingLost(events, mode)
    ensures AbsorbedEverywhere(events, mode)
  {
    forall s ensures AbsorbedAt(events, mode, s, LastEffect(events, mode, s)) {
      if LastEffect(events, mode, s).Merge? {
        forall i | 0 <= i < |events| && PathKey(events[i]) == s
          ensures !WholeObject(events[i], mode)
          ensures AssignedFields(events[i]) <= LastEffect(events, mode, s).fields.Keys
        {
          var j := LastEventAt(events, mode, s, i);
        }
      }
    }
  }

  lemma AbsorbedLosesNothing(events: seq<Event>, mode: Modes)
    requires AbsorbedEverywhere(events, mode)
    ensures NothingLost(events, mode)
  {
    forall i, j | 0 <= i < j < |events| && PathKey(events[i]) == PathKey(events[j])
                  && IsLast(events, j) && !WholeObject(events[j], mode)
      ensures !WholeObject(events[i], mode) && AssignedFields(events[i]) <= AssignedFields(events[j])
    {
      var s := PathKey(events[j]);
      var k := LastEventAt(events, mode, s, j);
      assert k == j;
      assert AbsorbedAt(events, mode, s, LastEffect(events, mode, s));
    }
  }

  lemma CoalescedEffectsExactly(events: seq<Event>, mode: Modes)
    requires OneAuthorOneTarget(events)
    ensures SameEffects(OrderedEvents(Collect(events)), events, mode) <==> AbsorbedEverywhere(events, mode)
  {
    var out := OrderedEvents(Collect(events));
    forall s ensures EffectAt(out, mode, s) == EffectAt(events, mode, s) <==>
                     AbsorbedAt(events, mode, s, LastEffect(events, mode, s))
    {
      OrderedEventsEffect(events, mode, s);
      EffectIsLastExactly(events, mode, s);
    }
  }

  lemma AbsorbedExactly(events: seq<Event>, mode: Modes)
    requires OneAuthorOneTarget(events)
    ensures SameEffects(OrderedEvents(Collect(events)), events, mode) <==> NothingLost(events, mode)
  {
    hide Collect, SameEffects, NothingLost, AbsorbedEverywhere;
    CoalescedEffectsExactly(events, mode);
    if NothingLost(events, mode) { NothingLostAbsorbs(events, mode); }
    if AbsorbedEverywhere(events, mode) { AbsorbedLosesNothing(events, mode); }
  }

  /** Committing the coalesced window instead of every event in arrival order leads to the
      same branch, from every starting branch, exactly when no partial event survives over
      something it does not absorb. */
  lemma CoalescingPreservesMeaningExactly(events: seq<Event>, mode: Modes)
    requires OneAuthorOneTarget(events)
    ensures SameMeaning(OrderedEvents(Collect(events)), events, mode) <==> NothingLost(events, mode)
  {
    var out := OrderedEvents(Collect(events));
    AbsorbedExactly(events, mode);
    if NothingLost(events, mode) { SameEffectsSameMeaning(out, events, mode); }
    if SameMeaning(out, events, mode) { SameMeaningSameEffects(out, events, mode); }
  }

  /** In particular it does for whole-object upserts and deletes that the mode applies. */
  lemma WholeObjectStreamsCoalesce(events: seq<Event>, mode: Modes, t: Tree)
    requires OneAuthorOneTarget(events)
    requires forall i :: 0 <= i < |events| ==> WholeObject(events[i], mode)
    ensures ApplyEvents(t, OrderedEvents(Collect(events)), mode) == ApplyEvents(t, events, mode)
  {
    assert NothingLost(events, mode);
    CoalescingPreservesMeaningExactly(events, mode);
  }

  lemma SecondReplacesFirst(a: Event, b: Event)
    requires CanAppend(NewWindow(a), b) && PathKey(a) == PathKey(b)
    ensures OneAuthorOneTarget([a, b]) && OrderedEvents(Collect([a, b])) == [b]
  {
    NewWindowAccepts(a);
    assert [a, b][..1] == [a] && OneAuthorOneTarget([a]);
    assert Collect([a, b]) == Add(Add(NewWindow(a), a), b);
  }

  /** It does not for a field patch that replaces an upsert: the upsert is lost. */
  lemma FieldPatchOverUpsertLosesIt(author: string, target: TargetKey, base: string, ident: Ident, doc: Fields, assign: Fields)
    ensures var create := Event(author, Resolved, target, base, ident, Upsert(doc), 1);
            var scale := Event(author, Resolved, target, base, ident, FieldPatch(assign), 0);
            var mode: Modes := _ => ON_EVENT;
            && OneAuthorOneTarget([create, scale])
            && Get(ApplyEvents(map[], [create, scale], mode), Slot(base, ident))
               == [if ident.sensitive then doc else doc + assign]
            && ApplyBatch(map[], OrderedEvents(Collect([create, scale])), mode) == map[]
  {
    var create := Event(author, Resolved, target, base, ident, Upsert(doc), 1);
    var scale := Event(author, Resolved, target, base, ident, FieldPatch(assign), 0);
    var mode: Modes := _ => ON_EVENT;
    var s := Slot(base, ident);
    var events := [create, scale];
    EventsActBySlot(map[], events, mode, s);
    assert events[..1] == [create] && [create][..0] == [];
    assert EffectAt([create], mode, s) == Put([doc]);
    assert EffectAt(events, mode, s) == Then(Put([doc]), EventEffect(scale, ON_EVENT));
    UntouchedKeeps([doc]);
    SecondReplacesFirst(create, scale);
    hide Collect, OrderedEvents;
    assert [scale][..0] == [];
    assert ApplyBatch(map[], [scale], mode) == map[];
  }

  // --------------------------------------------------------------- the object

  class OpenWindow {
    const author: string
    const attribution: Attribution
    const target: TargetKey
    var pathOrder: seq<Slot>
    var pathToEvent: map<Slot, Event>
    var pendingMessage: string
    var pendingCR: Option<CrId>

    function View(): Window
      reads this
    {
      Window(author, attribution, target, pathOrder, pathToEvent, pendingMessage, pendingCR)
    }

    constructor (e: Event)
      ensures View() == NewWindow(e)
    {
      author, attribution, target := e.author, e.attribution, e.target;
      pathOrder, pathToEvent, pendingMessage, pendingCR := [], map[], "", None;
    }

    method Append(e: Event)
      requires Consistent(View()) && CanAppend(View(), e)
      modifies this
      ensures View() == Add(old(View()), e)
      ensures Consistent(View())
    {
      AddKeepsConsistent(View(), e);
      var key := PathKey(e);
      if key !in pathToEvent {
        pathOrder := pathOrder + [key];
      }
      pathToEvent := pathToEvent[key := e];
    }

    method Ordered() returns (events: seq<Event>)
      requires Consistent(View())
      ensures events == OrderedEvents(View())
    {
      events := [];
      for i := 0 to |pathOrder|
        invariant |events| == i
        invariant forall k :: 0 <= k < i ==> events[k] == OrderedEvents(View())[k]
      {
        assert pathOrder[i] in View().order;
        events := events + [pathToEvent[pathOrder[i]]];
      }
    }
  }
}
