/** Pending writes as functions on the mirrored documents, and what replaying a retained
    queue of them does (internal/git/pending_writes.go, commit_executor.go, resync_flush.go). */
module Writes {
  import opened PrunePolicy
  import opened Documents
  import opened Batches
  import opened OpenWindows

  datatype Kind = Grouped | Atomic | Resync

  /** Which identities a resync may sweep: all of the target's, or one type, optionally in
      one namespace. */
  datatype Scope = WholeTarget | OneType(group: string, resource: string, namespace: string)

  /** One entry of a desired snapshot; a malformed entry carries no document. */
  datatype Desired = Desired(ident: Ident, doc: Option<Fields>)

  /** The metadata captured for the write's GitTarget when the write was built. */
  datatype ResolvedTarget = ResolvedTarget(key: TargetKey, base: string, mode: PruneMode)

  datatype Write = Write(
    kind: Kind,
    events: seq<Event>,
    desired: seq<Desired>,
    scope: Scope,
    target: Option<ResolvedTarget>,
    message: string,
    cr: Option<CrId>)

  /** The prune mode of a base: the target's when it owns that base, else the default. */
  function PruneModeForBase(target: Option<ResolvedTarget>, base: string): PruneMode {
    if target.Some? && target.value.base == base then OrDefault(target.value.mode) else ON_EVENT
  }

  function ModesOf(target: Option<ResolvedTarget>): Modes {
    base => PruneModeForBase(target, base)
  }

  function BaseOf(w: Write): string {
    if w.target.Some? then w.target.value.base else ""
  }

  predicate ScopeMatches(scope: Scope, id: Ident) {
    match scope
    case WholeTarget => true
    case OneType(g, r, ns) => id.group == g && id.resource == r && (ns == "" || id.namespace == ns)
  }

  predicate Mentions(desired: seq<Desired>, id: Ident) {
    exists i :: 0 <= i < |desired| && desired[i].ident == id
  }

  /** The upserts of a snapshot, in order; a malformed entry contributes nothing. */
  function UpsertsOf(base: string, desired: seq<Desired>): seq<Event> {
    if desired == [] then []
    else
      var before := UpsertsOf(base, desired[..|desired| - 1]);
      var d := desired[|desired| - 1];
      if d.doc.None? then before
      else before + [Event("", NotAttempted, TargetKey("", ""), base, d.ident, Upsert(d.doc.value), 0)]
  }

  /** Whether a resync drops the document at a slot: an orphan of its scope, and a mode
      that sweeps. */
  predicate Sweeps(w: Write, s: Slot) {
    && s.base == BaseOf(w)
    && ScopeMatches(w.scope, s.ident)
    && !Mentions(w.desired, s.ident)
    && SweepsOrphans(PruneModeForBase(w.target, BaseOf(w)))
  }

  /** The events of a write: those of a resync are the upserts of its snapshot. */
  function EventsOf(w: Write): seq<Event> {
    if w.kind.Resync? then UpsertsOf(BaseOf(w), w.desired) else w.events
  }

  function Swept(t: Tree, w: Write): Tree {
    if w.kind.Resync? then map s | s in t && !Sweeps(w, s) :: t[s] else t
  }

  /** A write applies its events as one batch; a resync then sweeps. */
  function ApplyWrite(t: Tree, w: Write): Tree {
    Swept(ApplyBatch(t, EventsOf(w), ModesOf(w.target)), w)
  }

  function ApplyWrites(t: Tree, ws: seq<Write>): Tree {
    if ws == [] then t else ApplyWrite(ApplyWrites(t, ws[..|ws| - 1]), ws[|ws| - 1])
  }

  // -------------------------------------------------------------- slot by slot

  function WriteAction(w: Write, s: Slot): Action {
    if w.kind.Resync? && Sweeps(w, s) then Action([], Put([])) else ActionAt(EventsOf(w), ModesOf(w.target), s)
  }

  lemma WriteActsBySlot(t: Tree, w: Write, s: Slot)
    ensures Get(ApplyWrite(t, w), s) == Act(WriteAction(w, s), Get(t, s))
  {
    BatchActsBySlot(t, EventsOf(w), ModesOf(w.target), s);
    if w.kind.Resync? && Sweeps(w, s) { SweptIsNotUpserted(w, s); }
  }

  /** A resync sweeps only what its snapshot does not mention. */
  lemma SweptIsNotUpserted(w: Write, s: Slot)
    requires w.kind.Resync? && Sweeps(w, s)
    ensures !Upserts(EventsOf(w), s)
    ensures ActionAt(EventsOf(w), ModesOf(w.target), s) == Action([], UNTOUCHED)
  {
    var n := |w.desired|;
    assert w.desired[..n] == w.desired;
    UnmentionedIsNotUpserted(w, s, n);
  }

  lemma {:induction false} UnmentionedIsNotUpserted(w: Write, s: Slot, n: nat)
    requires n <= |w.desired| && !Mentions(w.desired, s.ident)
    ensures var events := UpsertsOf(BaseOf(w), w.desired[..n]);
            !Upserts(events, s) && ActionAt(events, ModesOf(w.target), s) == Action([], UNTOUCHED)
  {
    if n > 0 {
      UnmentionedIsNotUpserted(w, s, n - 1);
      assert w.desired[..n][..n - 1] == w.desired[..n - 1];
      assert w.desired[n - 1].ident != s.ident;
      var events := UpsertsOf(BaseOf(w), w.desired[..n]);
      if w.desired[n - 1].doc.Some? {
        assert events[..|events| - 1] == UpsertsOf(BaseOf(w), w.desired[..n - 1]);
        ExtendSlot(events, ModesOf(w.target), s);
      }
    }
  }

  // ------------------------------------------------- a write applied twice

  /** The write has something to do with a folder. */
  predicate Touches(w: Write, base: string) {
    if w.kind.Resync? then base == BaseOf(w) else exists i :: 0 <= i < |w.events| && w.events[i].base == base
  }

  /** No identity is stored twice in a folder of the write; any other branch is refused. */
  ghost predicate Accepts(t: Tree, w: Write) {
    forall s :: s in t && Touches(w, s.base) ==> |t[s]| == 1
  }

  /** Applied again, the write is accepted and changes nothing. */
  ghost predicate Replays(t: Tree, w: Write) {
    Accepts(ApplyWrite(t, w), w) && ApplyWrite(ApplyWrite(t, w), w) == ApplyWrite(t, w)
  }

  lemma {:induction false} UpsertsAreInFolder(base: string, desired: seq<Desired>)
    ensures forall i :: 0 <= i < |UpsertsOf(base, desired)| ==> UpsertsOf(base, desired)[i].base == base
  {
    if desired != [] { UpsertsAreInFolder(base, desired[..|desired| - 1]); }
  }

  lemma {:induction false} NothingAt(events: seq<Event>, mode: Modes, s: Slot)
    requires forall i :: 0 <= i < |events| ==> PathKey(events[i]) != s
    ensures ActionAt(events, mode, s) == Action([], UNTOUCHED)
  {
    if events != [] { NothingAt(events[..|events| - 1], mode, s); }
  }

  lemma UntouchedFolder(w: Write, s: Slot)
    requires !Touches(w, s.base)
    ensures WriteAction(w, s) == Action([], UNTOUCHED) && !Upserts(EventsOf(w), s)
  {
    UpsertsAreInFolder(BaseOf(w), w.desired);
    NothingAt(EventsOf(w), ModesOf(w.target), s);
  }

  /** The condition at one slot, for a branch that has the document or has not. */
  ghost predicate KeptAt(w: Write, s: Slot, present: bool) {
    forall i :: FirstUpsert(EventsOf(w), i) && PathKey(EventsOf(w)[i]) == s ==>
      if present then KeepsHeld(EventsOf(w), ModesOf(w.target), i) else KeepsCreated(EventsOf(w), ModesOf(w.target), i)
  }

  ghost predicate ReplaysAt(t: Tree, w: Write, s: Slot) {
    var once := ApplyWrite(t, w);
    && (Touches(w, s.base) ==> |Get(once, s)| <= 1)
    && Get(ApplyWrite(once, w), s) == Get(once, s)
  }

  lemma SlotReplaysExactly(t: Tree, w: Write, s: Slot)
    requires Accepts(t, w)
    ensures ReplaysAt(t, w, s) <==> KeptAt(w, s, s in t)
  {
    var c := Get(t, s);
    var once := ApplyWrite(t, w);
    WriteActsBySlot(t, w, s);
    WriteActsBySlot(once, w, s);
    hide ApplyWrite, Accepts, Sweeps, ActionAt, FirstUpsert, KeepsHeld, KeepsCreated;
    if !Touches(w, s.base) {
      UntouchedFolder(w, s);
      UntouchedKeeps(c);
      UntouchedKeeps(Get(once, s));
      NoFirstUpsert(w, s);
    } else {
      if s in t { AcceptedSlot(t, w, s); }
      if w.kind.Resync? && Sweeps(w, s) {
        SweptIsNotUpserted(w, s);
        NoFirstUpsert(w, s);
      } else {
        SlotSettlesExactly(EventsOf(w), ModesOf(w.target), s, c);
      }
    }
  }

  lemma AcceptedSlot(t: Tree, w: Write, s: Slot)
    requires Accepts(t, w) && s in t && Touches(w, s.base)
    ensures |t[s]| == 1
  {
  }

  lemma NoFirstUpsert(w: Write, s: Slot)
    requires !Upserts(EventsOf(w), s)
    ensures forall i :: FirstUpsert(EventsOf(w), i) ==> PathKey(EventsOf(w)[i]) != s
  {
  }

  /** On the branch `t`, no identity of the write is upserted in a way that does not last: one
      that is there is not deleted, one that is not is created once and for all. */
  ghost predicate Lasts(t: Tree, w: Write) {
    forall i :: FirstUpsert(EventsOf(w), i) ==>
      if PathKey(EventsOf(w)[i]) in t then KeepsHeld(EventsOf(w), ModesOf(w.target), i)
      else KeepsCreated(EventsOf(w), ModesOf(w.target), i)
  }

  /** Applying a write to a branch that already has it is accepted and changes nothing if and
      only if the identities it upserts last. */
  lemma ReplayExactly(t: Tree, w: Write)
    requires Accepts(t, w)
    ensures Replays(t, w) <==> Lasts(t, w)
  {
    var once := ApplyWrite(t, w);
    var twice := ApplyWrite(once, w);
    forall s ensures ReplaysAt(t, w, s) <==> KeptAt(w, s, s in t) { SlotReplaysExactly(t, w, s); }
    hide ApplyWrite, FirstUpsert, KeepsHeld, KeepsCreated, Touches;
    assert Lasts(t, w) <==> forall s :: KeptAt(w, s, s in t);
    if forall s :: ReplaysAt(t, w, s) {
      forall s ensures Get(twice, s) == Get(once, s) { assert ReplaysAt(t, w, s); }
      TreesAgree(twice, once);
      forall s | s in once && Touches(w, s.base) ensures |once[s]| == 1 { assert ReplaysAt(t, w, s); }
    }
  }

  /** Every identity of the write is upserted in a way that does not depend on the branch. */
  ghost predicate Steady(w: Write) {
    SteadyEvents(EventsOf(w), ModesOf(w.target))
  }

  /** The write's events one after the other, each looked up in what the others left. */
  function InOrder(t: Tree, w: Write): Tree {
    Swept(ApplyEvents(t, EventsOf(w), ModesOf(w.target)), w)
  }

  function WriteEffect(w: Write, s: Slot): Effect {
    if w.kind.Resync? && Sweeps(w, s) then Put([]) else EffectAt(EventsOf(w), ModesOf(w.target), s)
  }

  lemma InOrderBySlot(t: Tree, w: Write, s: Slot)
    ensures Get(InOrder(t, w), s) == Run(WriteEffect(w, s), Get(t, s))
  {
    EventsActBySlot(t, EventsOf(w), ModesOf(w.target), s);
  }

  lemma SteadyBySlot(t: Tree, w: Write, s: Slot)
    requires Steady(w)
    ensures Get(ApplyWrite(t, w), s) == Run(WriteEffect(w, s), Get(t, s))
  {
    WriteActsBySlot(t, w, s);
    hide ApplyWrite;
    if !(w.kind.Resync? && Sweeps(w, s)) { SteadyActsInOrder(EventsOf(w), ModesOf(w.target), s, Get(t, s)); }
  }

  lemma SteadyIsInOrder(t: Tree, w: Write)
    requires Steady(w)
    ensures ApplyWrite(t, w) == InOrder(t, w)
  {
    forall s ensures Get(ApplyWrite(t, w), s) == Get(InOrder(t, w), s) {
      SteadyBySlot(t, w, s);
      InOrderBySlot(t, w, s);
    }
    TreesAgree(ApplyWrite(t, w), InOrder(t, w));
  }

  /** A write that acts as its events in order can be replayed on the empty branch. */
  lemma InOrderReplays(w: Write)
    requires ApplyWrite(map[], w) == InOrder(map[], w)
    requires ApplyWrite(InOrder(map[], w), w) == InOrder(InOrder(map[], w), w)
    ensures Replays(map[], w)
  {
    var once := InOrder(map[], w);
    hide ApplyWrite, InOrder, WriteEffect, Touches;
    forall s ensures Get(InOrder(once, w), s) == Get(once, s) && |Get(once, s)| <= 1 {
      InOrderBySlot(map[], w, s);
      InOrderBySlot(once, w, s);
      EffectIdempotent(WriteEffect(w, s), []);
      SmallEffect(w, s);
    }
    TreesAgree(InOrder(once, w), once);
    forall s | s in once ensures |once[s]| == 1 { assert |Get(once, s)| <= 1; }
  }

  lemma SmallEffect(w: Write, s: Slot)
    ensures |Run(WriteEffect(w, s), [])| <= 1
  {
    HeldExactly(EventsOf(w), ModesOf(w.target), s);
  }

  /** A batch means the same as its events in order on every branch if and only if it is
      steady. */
  lemma BatchIsInOrderExactly(w: Write)
    ensures (forall t :: ApplyWrite(t, w) == InOrder(t, w)) <==> Steady(w)
  {
    hide ApplyWrite, InOrder, Replays;
    if Steady(w) {
      forall t ensures ApplyWrite(t, w) == InOrder(t, w) { SteadyIsInOrder(t, w); }
    } else if forall t :: ApplyWrite(t, w) == InOrder(t, w) {
      InOrderReplays(w);
      ReplayExactly(map[], w);
    }
  }

  ghost predicate ReplaysEverywhere(w: Write) {
    forall t :: Accepts(t, w) ==> Replays(t, w)
  }

  /** A write can be replayed on every branch if and only if it is steady. */
  lemma ReplaysEverywhereExactly(w: Write)
    ensures ReplaysEverywhere(w) <==> Steady(w)
  {
    hide Replays, Accepts, EventsOf, ModesOf;
    if Steady(w) {
      forall t | Accepts(t, w) ensures Replays(t, w) {
        SteadyLasts(t, w);
        ReplayExactly(t, w);
      }
    }
    if ReplaysEverywhere(w) {
      assert Accepts(map[], w) by { EmptyIsAccepted(w); }
      ReplayExactly(map[], w);
    }
  }

  lemma EmptyIsAccepted(w: Write)
    ensures Accepts(map[], w)
  {
  }

  lemma SteadyLasts(t: Tree, w: Write)
    requires Steady(w)
    ensures Lasts(t, w)
  {
    var events, mode := EventsOf(w), ModesOf(w.target);
    hide EffectAt;
    forall i | FirstUpsert(events, i) && PathKey(events[i]) in t ensures KeepsHeld(events, mode, i) {
      assert KeepsCreated(events, mode, i);
      CreatedIsHeld(events, mode, i);
    }
  }

  // ----------------------------------------------------- a queue applied twice

  ghost predicate AllSteady(ws: seq<Write>) {
    forall i :: 0 <= i < |ws| ==> Steady(ws[i])
  }

  function QueueEffect(ws: seq<Write>, s: Slot): Effect {
    if ws == [] then UNTOUCHED
    else Then(QueueEffect(ws[..|ws| - 1], s), WriteEffect(ws[|ws| - 1], s))
  }

  lemma {:induction false} WritesActBySlot(t: Tree, ws: seq<Write>, s: Slot)
    requires AllSteady(ws)
    ensures Get(ApplyWrites(t, ws), s) == Run(QueueEffect(ws, s), Get(t, s))
  {
    hide ApplyWrite, WriteEffect, Steady;
    if ws == [] {
      UntouchedKeeps(Get(t, s));
    } else {
      var rest, w := ws[..|ws| - 1], ws[|ws| - 1];
      WritesActBySlot(t, rest, s);
      SteadyBySlot(ApplyWrites(t, rest), w, s);
      ThenRuns(QueueEffect(rest, s), WriteEffect(w, s), Get(t, s));
    }
  }

  /** Replaying a retained queue of steady writes over a branch that already contains it changes
      nothing: a push the server accepted but reported as failed converges through the replay
      path. */
  lemma ReplayIdempotent(t: Tree, ws: seq<Write>)
    requires AllSteady(ws)
    ensures ApplyWrites(ApplyWrites(t, ws), ws) == ApplyWrites(t, ws)
  {
    var once := ApplyWrites(t, ws);
    forall s ensures Get(ApplyWrites(once, ws), s) == Get(once, s) {
      WritesActBySlot(t, ws, s);
      WritesActBySlot(once, ws, s);
      EffectIdempotent(QueueEffect(ws, s), Get(t, s));
    }
    TreesAgree(ApplyWrites(once, ws), once);
  }

  // -------------------------------------------------------- writes of one event

  lemma InTwo(t: Tree, a: Write, b: Write)
    ensures ApplyWrites(t, [a, b]) == ApplyWrite(ApplyWrite(t, a), b)
  {
    hide ApplyWrite;
    assert [a, b][..1] == [a] && [a][..0] == [];
    assert ApplyWrites(t, [a]) == ApplyWrite(t, a);
  }

  /** A grouped write of one event. */
  function OneEvent(key: TargetKey, base: string, ident: Ident, op: Op, mode: PruneMode): Write {
    Write(Grouped, [Event("", NotAttempted, key, base, ident, op, 0)], [], WholeTarget,
          Some(ResolvedTarget(key, base, mode)), "", None)
  }

  /** A write of one event is steady, and does at its slot what the event does. */
  lemma OneEventWrite(w: Write, t: Tree)
    requires !w.kind.Resync? && |w.events| == 1
    ensures Steady(w)
    ensures var e := w.events[0];
            Get(ApplyWrite(t, w), PathKey(e)) == Run(EventEffect(e, ModesOf(w.target)(e.base)), Get(t, PathKey(e)))
  {
    var e := w.events[0];
    var mode := ModesOf(w.target);
    assert w.events[..0] == [] && EventsOf(w) == [e];
    OneEachIsSteady([e], mode);
    LoneEffect([e], mode, PathKey(e), 0);
    SteadyBySlot(t, w, PathKey(e));
  }

  lemma OneUpsertApplies(t: Tree, w: Write)
    requires !w.kind.Resync? && |w.events| == 1 && w.events[0].op.Upsert?
    ensures ApplyWrite(t, w) == t[PathKey(w.events[0]) := [w.events[0].op.doc]]
  {
    var e := w.events[0];
    assert w.events == [e] && [e][..0] == [];
    assert Get(t, PathKey(e)) == [] ==> Get(t, PathKey(e)) + [e.op.doc] == [e.op.doc];
    assert ApplyBatch(t, [e], ModesOf(w.target)) == Set(t, PathKey(e), [e.op.doc]);
  }

  /** A write that upserts an identity and deletes it, in either order, leaves it absent where it
      was present and present where it was absent, so every replay of it undoes the last; one
      that upserts and then patches is only complete after its second application. */
  lemma ReplayFlips(t: Tree, target: Option<ResolvedTarget>, event: Event, doc: Fields, assign: Fields)
    requires AppliesEventDeletes(PruneModeForBase(target, event.base)) && !event.ident.sensitive
    ensures var s := PathKey(event);
            var upsert, delete, patch := event.(op := Upsert(doc)), event.(op := Delete), event.(op := FieldPatch(assign));
            && Get(ApplyWrite(t, Pair(target, upsert, delete)), s) == (if s in t then [] else [doc])
            && Get(ApplyWrite(t, Pair(target, delete, upsert)), s) == (if s in t then [] else [doc])
            && Get(ApplyWrite(t, Pair(target, upsert, patch)), s) == (if s in t then [doc + assign] else [doc])
  {
    var upsert, delete, patch := event.(op := Upsert(doc)), event.(op := Delete), event.(op := FieldPatch(assign));
    PairActs(t, target, upsert, delete);
    PairActs(t, target, delete, upsert);
    PairActs(t, target, upsert, patch);
    hide ApplyWrite, ModesOf;
    assert [doc + assign] + [] == [doc + assign];
  }

  /** An atomic write of two events. */
  function Pair(target: Option<ResolvedTarget>, a: Event, b: Event): Write {
    Write(Atomic, [a, b], [], WholeTarget, target, "", None)
  }

  lemma PairActs(t: Tree, target: Option<ResolvedTarget>, a: Event, b: Event)
    requires PathKey(a) == PathKey(b)
    ensures var held := HeldStep(EventEffect(a, PruneModeForBase(target, a.base)), b, ModesOf(target));
            Get(ApplyWrite(t, Pair(target, a, b)), PathKey(a)) ==
            Act(Action(BatchStep(false, b, ModesOf(target), BatchStep(false, a, ModesOf(target), [])), held), Get(t, PathKey(a)))
  {
    var mode := ModesOf(target);
    WriteActsBySlot(t, Pair(target, a, b), PathKey(a));
    hide ApplyWrite;
    assert [a, b][..1] == [a] && [a][..0] == [];
    UntouchedIsUnit(EventEffect(a, mode(a.base)));
    assert ActionAt([a], mode, PathKey(a)) == Action(BatchStep(false, a, mode, []), EventEffect(a, mode(a.base)));
  }
}
