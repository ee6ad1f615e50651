/** What closing a window, an atomic request and a resync do to the documents of a branch, said
    on the events, the snapshot and the metadata read for the target (internal/git/branch_worker.go,
    pending_writes.go, resync_flush.go). */
module ClosingWrites {
  import opened PrunePolicy
  import opened Documents
  import opened Batches
  import opened OpenWindows
  import opened Writes
  import opened Repository
  import opened Push
  import opened LoopSpec
  import opened Coalescing

  /** The deletion policy at a folder: the target's at its own, the default elsewhere. */
  function ModeUnder(target: TargetKey, md: Metadata): Modes {
    base => if Named(target) && base == md.base then OrDefault(md.mode) else ON_EVENT
  }

  /** The documents at a slot after a batch of the events of a target. */
  function EventsLeave(events: seq<Event>, target: TargetKey, md: Metadata, s: Slot, c: seq<Fields>): seq<Fields> {
    Act(ActionAt(Written(events, target, md), ModeUnder(target, md), s), c)
  }

  /** The documents at a slot after a resync to a snapshot. */
  function SnapshotLeaves(desired: seq<Desired>, scope: Scope, md: Metadata, s: Slot, c: seq<Fields>): seq<Fields> {
    if s.base != md.base then c
    else if Mentions(desired, s.ident) then Act(ActionAt(UpsertsOf(md.base, desired), _ => ON_EVENT, s), c)
    else if ScopeMatches(scope, s.ident) && SweepsOrphans(OrDefault(md.mode)) then []
    else c
  }

  // -------------------------------------------------------------- what is kept

  /** Without event deletes, no document of the target's folder is removed. */
  lemma EventsRemoveNothing(events: seq<Event>, target: TargetKey, md: Metadata, s: Slot, c: Copies)
    requires Named(target) && s.base == md.base && !AppliesEventDeletes(OrDefault(md.mode))
    ensures EventsLeave(events, target, md, s, c) != []
  {
    var written, mode := Written(events, target, md), ModeUnder(target, md);
    HeldExactly(written, mode, s);
    hide ActionAt, EffectAt, Written;
  }

  /** The identity is one of those a resync answers for: of its one type, and its one namespace if it
      has one. */
  predicate Covers(scope: Scope, id: Ident) {
    scope.OneType? ==> id.group == scope.group && id.resource == scope.resource && scope.namespace in {"", id.namespace}
  }

  /** Without sweeps, a resync removes no document; with them, it removes exactly what its scope
      covers and its snapshot does not list, not even without a document. */
  lemma SnapshotRemovesOnlyOrphans(desired: seq<Desired>, scope: Scope, md: Metadata, s: Slot, c: Copies)
    ensures SnapshotLeaves(desired, scope, md, s, c) == [] <==>
            && s.base == md.base && OrDefault(md.mode) == ALWAYS && Covers(scope, s.ident)
            && forall i :: 0 <= i < |desired| ==> desired[i].ident != s.ident
  {
    var mode: Modes := _ => ON_EVENT;
    HeldExactly(UpsertsOf(md.base, desired), mode, s);
    UpsertsDeleteNothing(md.base, desired, mode, s);
    hide ActionAt, EffectAt;
  }

  /** A document that the snapshot lists once is mirrored: it is what the branch holds afterwards. */
  lemma SnapshotIsMirrored(desired: seq<Desired>, scope: Scope, md: Metadata, i: nat, c: seq<Fields>)
    requires i < |desired| && desired[i].doc.Some? && |c| <= 1
    requires forall k :: 0 <= k < |desired| && k != i ==> desired[k].ident != desired[i].ident
    ensures SnapshotLeaves(desired, scope, md, Slot(md.base, desired[i].ident), c) == [desired[i].doc.value]
  {
    assert Mentions(desired, desired[i].ident);
    OneUpsert(md.base, desired, _ => ON_EVENT, i);
  }

  lemma {:induction false} OneUpsert(base: string, desired: seq<Desired>, mode: Modes, i: nat)
    requires i < |desired| && desired[i].doc.Some?
    requires forall k :: 0 <= k < |desired| && k != i ==> desired[k].ident != desired[i].ident
    ensures ActionAt(UpsertsOf(base, desired), mode, Slot(base, desired[i].ident)) ==
            Action([desired[i].doc.value], Put([desired[i].doc.value]))
  {
    var n := |desired| - 1;
    var rest := desired[..n];
    if i < n {
      OneUpsert(base, rest, mode, i);
      var events := UpsertsOf(base, desired);
      if desired[n].doc.Some? { assert events[..|events| - 1] == UpsertsOf(base, rest); }
    } else {
      NoUpsert(base, rest, mode, desired[n].ident);
      var events := UpsertsOf(base, desired);
      assert events[..|events| - 1] == UpsertsOf(base, rest);
    }
  }

  lemma {:induction false} NoUpsert(base: string, desired: seq<Desired>, mode: Modes, id: Ident)
    requires forall k :: 0 <= k < |desired| ==> desired[k].ident != id
    ensures ActionAt(UpsertsOf(base, desired), mode, Slot(base, id)) == Action([], UNTOUCHED)
  {
    if desired != [] {
      var n := |desired| - 1;
      NoUpsert(base, desired[..n], mode, id);
      var events := UpsertsOf(base, desired);
      if desired[n].doc.Some? { assert events[..|events| - 1] == UpsertsOf(base, desired[..n]); }
    }
  }

  lemma {:induction false} UpsertsDeleteNothing(base: string, desired: seq<Desired>, mode: Modes, s: Slot)
    ensures !DeletesAt(UpsertsOf(base, desired), mode, s)
  {
    if desired != [] { UpsertsDeleteNothing(base, desired[..|desired| - 1], mode, s); }
  }

  // --------------------------------------------------------- what the writes mean

  /** A batch acts by paths, operations and modes alone. */
  lemma {:induction false} ActionAgrees(a: seq<Event>, b: seq<Event>, m: Modes, n: Modes, s: Slot)
    requires |a| == |b| && forall base :: m(base) == n(base)
    requires forall i :: 0 <= i < |a| ==> PathKey(a[i]) == PathKey(b[i]) && a[i].op == b[i].op
    ensures ActionAt(a, m, s) == ActionAt(b, n, s)
  {
    if a != [] { ActionAgrees(a[..|a| - 1], b[..|b| - 1], m, n, s); }
  }

  lemma GroupedMeans(w: Window, md: Metadata, t: Tree, s: Slot)
    requires Consistent(w)
    ensures Get(ApplyWrite(t, GroupedWrite(w, OrderedEvents(w), md)), s) == EventsLeave(OrderedEvents(w), w.target, md, s, Get(t, s))
  {
    var write := GroupedWrite(w, OrderedEvents(w), md);
    WriteActsBySlot(t, write, s);
    ActionAgrees(write.events, Written(OrderedEvents(w), w.target, md), ModesOf(write.target), ModeUnder(w.target, md), s);
    hide ApplyWrite, ActionAt, OrderedEvents;
  }

  lemma AtomicMeans(events: seq<Event>, target: TargetKey, message: string, md: Metadata, t: Tree, s: Slot)
    ensures Get(ApplyWrite(t, AtomicWrite(events, target, message, md)), s) == EventsLeave(events, target, md, s, Get(t, s))
  {
    var write := AtomicWrite(events, target, message, md);
    WriteActsBySlot(t, write, s);
    ActionAgrees(write.events, Written(events, target, md), ModesOf(write.target), ModeUnder(target, md), s);
    hide ApplyWrite, ActionAt;
  }

  lemma ResyncMeans(target: TargetKey, desired: seq<Desired>, scope: Scope, md: Metadata, t: Tree, s: Slot)
    ensures var w := Write(Resync, [], desired, scope, Some(ResolvedTarget(target, md.base, md.mode)), "", None);
            Get(ApplyWrite(t, w), s) == SnapshotLeaves(desired, scope, md, s, Get(t, s))
  {
    var w := Write(Resync, [], desired, scope, Some(ResolvedTarget(target, md.base, md.mode)), "", None);
    WriteActsBySlot(t, w, s);
    UntouchedKeeps(Get(t, s));
    if s.base != md.base {
      UntouchedFolder(w, s);
    } else if !Mentions(desired, s.ident) {
      UnmentionedIsNotUpserted(w, s, |desired|);
      assert desired[..|desired|] == desired;
    } else {
      UpsertsIgnoreModes(md.base, desired, ModesOf(w.target), _ => ON_EVENT, s);
    }
    hide ApplyWrite, ActionAt;
  }

  lemma {:induction false} UpsertsIgnoreModes(base: string, desired: seq<Desired>, m: Modes, n: Modes, s: Slot)
    ensures ActionAt(UpsertsOf(base, desired), m, s) == ActionAt(UpsertsOf(base, desired), n, s)
  {
    if desired != [] { UpsertsIgnoreModes(base, desired[..|desired| - 1], m, n, s); }
  }

  // ------------------------------------------------------------- in the loop

  /** The head a write is committed on: the local one while something is retained, else the remote's
      best branch. */
  function HeadFor(s: State, a: Answer): History {
    if s.pending != [] then s.repo.local else Available(Observe(s.repo, a.moves)).1
  }

  /** Whether a write is committed at all. */
  predicate Executes(s: State, a: Answer) {
    (s.pending != [] || a.prepared) && a.executed
  }

  /** The tree holds, at the slot, what `leave` makes of the documents of the head. */
  predicate Leaves(head: History, after: History, s: Slot, leave: seq<Fields> -> seq<Fields>) {
    Get(TreeOf(after), s) == leave(Get(TreeOf(head), s))
  }

  lemma CommitLeaves(s: State, o: Oracle, w: Write, slot: Slot, leave: seq<Fields> -> seq<Fields>)
    requires forall t :: Get(ApplyWrite(t, w), slot) == leave(Get(t, slot))
    ensures var c := CommitOne(s, o, w);
            && (c.ok <==> Executes(s, o(s.tick)))
            && (c.ok ==> Leaves(HeadFor(s, o(s.tick)), c.state.repo.local, slot, leave))
            && (c.ok ==> (c.changed <==> c.state.repo.local != HeadFor(s, o(s.tick))))
            && (!c.ok ==> c.state.repo.local == s.repo.local || c.state.repo.local == HeadFor(s, o(s.tick)))
  {
    hide ApplyWrite, Observe, Available;
  }

  /** What has to hold for an open window to be retained: the gate lets its target through, its
      target can be read, it holds an event, and the commit goes through. */
  predicate Retains(s: State, o: Oracle)
    requires s.window.Some?
  {
    var w := s.window.value;
    && (Named(w.target) ==> o(s.tick).gateOpen)
    && o(s.tick + 1).metadata.Some? && w.order != []
    && Executes(s, o(s.tick + 2))
  }

  /** One write of the message and size was committed on the head and retained, which leaves at the slot what `leave` makes of
      the documents there, on the head and, replayed, on the branch `t`. */
  ghost predicate Took(s: State, r: State, head: History, target: TargetKey, message: string, size: nat, slot: Slot, t: Tree, leave: seq<Fields> -> seq<Fields>) {
    && Leaves(head, r.repo.local, slot, leave)
    && |r.pending| == |s.pending| + 1 && r.pending[..|s.pending|] == s.pending
    && Get(ApplyWrite(t, r.pending[|s.pending|].write), slot) == leave(Get(t, slot))
    && FollowsPolicyOf(r.pending[|s.pending|].write, target) && r.pending[|s.pending|].byteSize == size
    && r.pending[|s.pending|].write.message == message
  }

  /** The write is tightened by the policy of the target, if that has a name. */
  predicate FollowsPolicyOf(w: Write, target: TargetKey) {
    if Named(target) then w.target.Some? && w.target.value.key == target else w.target.None?
  }

  /** The open window was taken as one write, under the metadata read for its target. */
  ghost predicate TookWindow(s: State, o: Oracle, r: State, slot: Slot, t: Tree) {
    && s.window.Some? && Consistent(s.window.value) && o(s.tick + 1).metadata.Some?
    && var w, md := s.window.value, o(s.tick + 1).metadata.value;
       Took(s, r, HeadFor(s, o(s.tick + 2)), w.target, w.message, SizeOf(OrderedEvents(w)), slot, t,
            c => EventsLeave(OrderedEvents(w), w.target, md, slot, c))
  }

  /** Nothing was committed and nothing retained. */
  predicate Left(s: State, r: State, head: History) {
    r.pending == s.pending && (r.repo.local == s.repo.local || r.repo.local == head)
  }

  /** Closing a window either drops it, with the queue and the branch as they were, or commits one
      write that leaves, at every slot, the documents its events leave under the metadata read for
      its target; the retained write does the same on every branch it is replayed on. */
  lemma FinalizeLeaves(s: State, o: Oracle, slot: Slot, t: Tree)
    requires s.window.Some? && Consistent(s.window.value)
    ensures var f := Finalize(s, o);
            && (f.retained <==> Retains(s, o))
            && if Retains(s, o) then TookWindow(s, o, f.state, slot, t) else Left(s, f.state, HeadFor(s, o(s.tick + 2)))
  {
    hide CommitWindow, DropWindow, OrderedEvents, EventsLeave, Consistent, HeadFor, Executes, Took;
    var w := s.window.value;
    var s1 := Tick(s.(commitTimer := None), o(s.tick));
    var s2 := Tick(s1, o(s1.tick));
    if Named(w.target) && !o(s.tick).gateOpen {
      DropKeepsQueue(s1, GateClosed);
    } else if o(s1.tick).metadata.None? || w.order == [] {
      DropKeepsQueue(s2, BuildFailed);
    } else {
      var md := o(s1.tick).metadata.value;
      CommitWindowLeaves(s2, o, md, slot, t);
      HeadForAgrees(s, s2, o(s.tick + 2));
      if Executes(s, o(s.tick + 2)) {
        TookAgrees(s, s2, CommitWindow(s2, o, md).state, HeadFor(s2, o(s.tick + 2)), w.target, w.message, SizeOf(OrderedEvents(w)), slot, t,
                   c => EventsLeave(OrderedEvents(w), w.target, md, slot, c));
      }
    }
  }

  lemma TookAgrees(s: State, s2: State, r: State, head: History, target: TargetKey, message: string, size: nat, slot: Slot, t: Tree, leave: seq<Fields> -> seq<Fields>)
    requires Took(s2, r, head, target, message, size, slot, t, leave) && s.pending == s2.pending
    ensures Took(s, r, head, target, message, size, slot, t, leave)
  {
  }

  lemma HeadForAgrees(s: State, r: State, a: Answer)
    requires s.pending == r.pending && s.repo == r.repo
    ensures HeadFor(s, a) == HeadFor(r, a) && (Executes(s, a) <==> Executes(r, a))
  {
  }

  lemma DropKeepsQueue(s: State, cause: Cause)
    requires s.window.Some?
    ensures DropWindow(s, cause).pending == s.pending && DropWindow(s, cause).repo == s.repo
  {
    hide DropWindow;
  }

  lemma CommitWindowLeaves(s: State, o: Oracle, md: Metadata, slot: Slot, t: Tree)
    requires s.window.Some? && Consistent(s.window.value)
    ensures var f := CommitWindow(s, o, md);
            var w := s.window.value;
            var head := HeadFor(s, o(s.tick));
            && (f.retained <==> Executes(s, o(s.tick)))
            && if f.retained then Took(s, f.state, head, w.target, w.message, SizeOf(OrderedEvents(w)), slot, t, c => EventsLeave(OrderedEvents(w), w.target, md, slot, c))
               else Left(s, f.state, head)
  {
    hide OrderedEvents, EventsLeave, ApplyWrite, Consistent, GroupedWrite, DropWindow, RetainWindow, RetainedWindow, CommitOne, SizeOf, HeadFor, Executes;
    var w := s.window.value;
    var write := GroupedWrite(w, OrderedEvents(w), md);
    forall u ensures Get(ApplyWrite(u, write), slot) == EventsLeave(OrderedEvents(w), w.target, md, slot, Get(u, slot)) {
      GroupedMeans(w, md, u, slot);
    }
    CommitLeaves(s, o, write, slot, c => EventsLeave(OrderedEvents(w), w.target, md, slot, c));
    var c := CommitOne(s, o, write);
    if c.ok {
      RetainAddsWrite(c, write, SizeOf(write.events), t);
      GroupedFollowsPolicy(w, md);
    } else {
      DropKeepsQueue(c.state, CommitFailed);
    }
  }

  lemma GroupedFollowsPolicy(w: Window, md: Metadata)
    requires Consistent(w)
    ensures FollowsPolicyOf(GroupedWrite(w, OrderedEvents(w), md), w.target) && GroupedWrite(w, OrderedEvents(w), md).message == w.message
    ensures SizeOf(GroupedWrite(w, OrderedEvents(w), md).events) == SizeOf(OrderedEvents(w))
  {
    SameSizes(GroupedWrite(w, OrderedEvents(w), md).events, OrderedEvents(w));
  }

  lemma {:induction false} SameSizes(a: seq<Event>, b: seq<Event>)
    requires |a| == |b| && forall i :: 0 <= i < |a| ==> a[i].size == b[i].size
    ensures SizeOf(a) == SizeOf(b)
  {
    if a != [] { SameSizes(a[..|a| - 1], b[..|b| - 1]); }
  }

  lemma AtomicFollowsPolicy(events: seq<Event>, target: TargetKey, message: string, md: Metadata)
    ensures FollowsPolicyOf(AtomicWrite(events, target, message, md), target) && AtomicWrite(events, target, message, md).message == message
    ensures SizeOf(AtomicWrite(events, target, message, md).events) == SizeOf(events)
  {
    SameSizes(AtomicWrite(events, target, message, md).events, events);
  }

  lemma RetainAddsWrite(c: Committing, w: Write, size: nat, t: Tree)
    ensures var r := RetainWindow(c, w, size);
            && r.repo == c.state.repo
            && r.pending == c.state.pending + [RetainedWindow(c, w, size)]
            && ApplyWrite(t, RetainedWindow(c, w, size).write) == ApplyWrite(t, w)
            && RetainedWindow(c, w, size).write.target == w.target && RetainedWindow(c, w, size).write.message == w.message
            && RetainedWindow(c, w, size).byteSize == size
  {
    if w.cr.None? { } else if c.changed { } else { }
    assert EventsOf(w.(cr := None)) == EventsOf(w);
    hide ApplyBatch, EventsOf, ModesOf;
    assert Swept(ApplyBatch(t, EventsOf(w), ModesOf(w.target)), w) == Swept(ApplyBatch(t, EventsOf(w), ModesOf(w.target)), w.(cr := None));
  }

  /** Closing a window under a mode without event deletes removes no document of the folder. */
  lemma FinalizeRemovesNothing(s: State, o: Oracle, slot: Slot)
    requires s.window.Some? && Consistent(s.window.value) && Finalize(s, o).retained && Named(s.window.value.target)
    requires var md := o(s.tick + 1).metadata;
             md.Some? && slot.base == md.value.base && !AppliesEventDeletes(OrDefault(md.value.mode))
    ensures slot in TreeOf(HeadFor(s, o(s.tick + 2))) ==> slot in TreeOf(Finalize(s, o).state.repo.local)
  {
    hide Finalize, Consistent, HeadFor, EventsLeave;
    var head := HeadFor(s, o(s.tick + 2));
    FinalizeLeaves(s, o, slot, map[]);
    if slot in TreeOf(head) {
      EventsRemoveNothing(OrderedEvents(s.window.value), s.window.value.target, o(s.tick + 1).metadata.value, slot, TreeOf(head)[slot]);
    }
  }

  /** An atomic request that reaches its commit takes what its events leave under the metadata read
      for its target, and is then scheduled; otherwise it takes nothing. */
  lemma AtomicLeaves(s: State, o: Oracle, events: seq<Event>, target: TargetKey, message: string, slot: Slot, t: Tree) returns (q: State)
    ensures var md := o(s.tick).metadata;
            var head := HeadFor(s, o(s.tick + 1));
            if events != [] && md.Some? && Executes(s, o(s.tick + 1)) then
              && Took(s, q, head, target, message, SizeOf(events), slot, t, c => EventsLeave(events, target, md.value, slot, c))
              && RunAtomic(s, o, events, target, message) == MaybeSchedulePush(q, o)
            else Left(s, q, head) && RunAtomic(s, o, events, target, message) == q
  {
    hide EventsLeave, ApplyWrite, AtomicWrite, MaybeSchedulePush, CommitOne, SizeOf, HeadFor, Executes;
    var s1 := Tick(s, o(s.tick));
    q := s1;
    if events != [] && o(s.tick).metadata.Some? {
      var md := o(s.tick).metadata.value;
      var w := AtomicWrite(events, target, message, md);
      forall u ensures Get(ApplyWrite(u, w), slot) == EventsLeave(events, target, md, slot, Get(u, slot)) {
        AtomicMeans(events, target, message, md, u, slot);
      }
      CommitLeaves(s1, o, w, slot, c => EventsLeave(events, target, md, slot, c));
      HeadForAgrees(s, s1, o(s.tick + 1));
      AtomicFollowsPolicy(events, target, message, md);
      var c := CommitOne(s1, o, w);
      q := if c.ok then Retain(c.state, PendingWrite(w, SizeOf(w.events), Unborn)) else c.state;
    }
  }

  /** So does a resync, with what its snapshot leaves; one that changes nothing is not retained. */
  lemma ResyncLeaves(s: State, o: Oracle, req: ResyncRequest, closed: bool, slot: Slot, t: Tree) returns (q: State)
    ensures var md := o(s.tick).metadata;
            var head := HeadFor(s, o(s.tick + 1));
            if Named(req.target) && md.Some? && Executes(s, o(s.tick + 1)) then
              && Leaves(head, q.repo.local, slot, c => SnapshotLeaves(req.desired, req.scope, md.value, slot, c))
              && (q.repo.local != head ==> Took(s, q, head, req.target, "", req.byteSize, slot, t, c => SnapshotLeaves(req.desired, req.scope, md.value, slot, c)))
              && (q.repo.local == head ==> q.pending == s.pending)
              && RunResync(s, o, req, closed) == if q.repo.local != head || closed then MaybeSchedulePush(q, o) else q
            else Left(s, q, head) && RunResync(s, o, req, closed) == q
  {
    hide SnapshotLeaves, ApplyWrite, MaybeSchedulePush, CommitOne, HeadFor, Executes;
    var s1 := Tick(s, o(s.tick));
    q := s1;
    if Named(req.target) && o(s.tick).metadata.Some? {
      var md := o(s.tick).metadata.value;
      var w := Write(Resync, [], req.desired, req.scope, Some(ResolvedTarget(req.target, md.base, md.mode)), "", None);
      forall u ensures Get(ApplyWrite(u, w), slot) == SnapshotLeaves(req.desired, req.scope, md, slot, Get(u, slot)) {
        ResyncMeans(req.target, req.desired, req.scope, md, u, slot);
      }
      CommitLeaves(s1, o, w, slot, c => SnapshotLeaves(req.desired, req.scope, md, slot, c));
      HeadForAgrees(s, s1, o(s.tick + 1));
      var c := CommitOne(s1, o, w);
      q := if c.ok && c.changed then Retain(c.state, PendingWrite(w, req.byteSize, Unborn)) else c.state;
    }
  }
}
