/** What replaying retained writes under tightened deletion policies does
    (internal/git/branch_worker.go). */
module Tightening {
  import opened PrunePolicy
  import opened Documents
  import opened Batches
  import opened Writes

  /** The same write under a captured mode that holds no further deletion right. */
  predicate TightenedWrite(tight: Write, loose: Write) {
    && tight == loose.(target := tight.target)
    && (tight.target.None? <==> loose.target.None?)
    && (tight.target.Some? ==>
          && tight.target.value == loose.target.value.(mode := tight.target.value.mode)
          && NoMoreRights(tight.target.value.mode, loose.target.value.mode))
  }

  predicate TightenedWrites(tight: seq<Write>, loose: seq<Write>) {
    && |tight| == |loose|
    && forall i :: 0 <= i < |tight| ==> TightenedWrite(tight[i], loose[i])
  }

  /** Tightening leaves an effect as it is, unless that is a removal. */
  predicate Loosens(tight: Effect, loose: Effect) {
    tight == loose || loose == Put([])
  }

  lemma LoosensComposes(t1: Effect, l1: Effect, t2: Effect, l2: Effect)
    requires Loosens(t1, l1) && Loosens(t2, l2)
    ensures Loosens(Then(t1, t2), Then(l1, l2))
  {
  }

  lemma {:induction false} TightenedEvents(events: seq<Event>, tight: Modes, loose: Modes, s: Slot)
    requires forall b :: AppliesEventDeletes(OrDefault(tight(b))) ==> AppliesEventDeletes(OrDefault(loose(b)))
    ensures Loosens(EffectAt(events, tight, s), EffectAt(events, loose, s))
  {
    if events != [] {
      var rest, e := events[..|events| - 1], events[|events| - 1];
      TightenedEvents(rest, tight, loose, s);
      if PathKey(e) == s {
        LoosensComposes(EffectAt(rest, tight, s), EffectAt(rest, loose, s),
                        EventEffect(e, tight(e.base)), EventEffect(e, loose(e.base)));
      }
    }
  }

  lemma TightenedWriteLoosens(tight: Write, loose: Write, s: Slot)
    requires TightenedWrite(tight, loose)
    ensures Loosens(WriteEffect(tight, s), WriteEffect(loose, s))
  {
    TightenedEvents(EventsOf(tight), ModesOf(tight.target), ModesOf(loose.target), s);
  }

  /** At every slot a tightened queue acts as the original one, or the original one removes. */
  lemma {:induction false} TightenedQueueLoosens(tight: seq<Write>, loose: seq<Write>, s: Slot)
    requires TightenedWrites(tight, loose)
    ensures Loosens(QueueEffect(tight, s), QueueEffect(loose, s))
  {
    hide WriteEffect;
    if tight != [] {
      var n := |tight| - 1;
      TightenedQueueLoosens(tight[..n], loose[..n], s);
      TightenedWriteLoosens(tight[n], loose[n], s);
      LoosensComposes(QueueEffect(tight[..n], s), QueueEffect(loose[..n], s),
                      WriteEffect(tight[n], s), WriteEffect(loose[n], s));
    }
  }

  lemma TightenedIsSteady(tight: Write, loose: Write)
    requires TightenedWrite(tight, loose) && Steady(loose)
    ensures Steady(tight)
  {
    var events := EventsOf(loose);
    var strict, mode := ModesOf(tight.target), ModesOf(loose.target);
    assert EventsOf(tight) == events;
    hide EventsOf;
    forall i | FirstUpsert(events, i) ensures KeepsCreated(events, strict, i) {
      assert KeepsCreated(events, mode, i);
      TightenedEvents(events, strict, mode, PathKey(events[i]));
    }
  }

  lemma TightenedAreSteady(tight: seq<Write>, loose: seq<Write>)
    requires TightenedWrites(tight, loose) && AllSteady(loose)
    ensures AllSteady(tight)
  {
    hide Steady, TightenedWrite;
    forall i | 0 <= i < |tight| ensures Steady(tight[i]) { TightenedIsSteady(tight[i], loose[i]); }
  }

  /** Every document the tightened queue makes out of nothing, the original one makes too. */
  ghost predicate CreatesNoMore(tight: seq<Write>, loose: seq<Write>) {
    forall s :: s in ApplyWrites(map[], tight) ==> s in ApplyWrites(map[], loose)
  }

  /** Replaying a tightened queue over a branch that already contains the original one, of
      steady writes, changes nothing if and only if it creates nothing that the original one
      goes on to delete. */
  lemma TightenedReplayExactly(t: Tree, tight: seq<Write>, loose: seq<Write>)
    requires TightenedWrites(tight, loose) && AllSteady(loose)
    ensures ApplyWrites(ApplyWrites(t, loose), tight) == ApplyWrites(t, loose) <==> CreatesNoMore(tight, loose)
  {
    hide ApplyWrites, TightenedWrite, Steady;
    var once := ApplyWrites(t, loose);
    var twice := ApplyWrites(once, tight);
    forall s
      ensures Get(twice, s) == Get(once, s) <==> (s in ApplyWrites(map[], tight) ==> s in ApplyWrites(map[], loose))
    {
      TightenedSlot(t, tight, loose, s);
    }
    if CreatesNoMore(tight, loose) {
      TreesAgree(twice, once);
    }
  }

  lemma TightenedSlot(t: Tree, tight: seq<Write>, loose: seq<Write>, s: Slot)
    requires TightenedWrites(tight, loose) && AllSteady(loose)
    ensures Get(ApplyWrites(ApplyWrites(t, loose), tight), s) == Get(ApplyWrites(t, loose), s) <==>
            (s in ApplyWrites(map[], tight) ==> s in ApplyWrites(map[], loose))
  {
    hide ApplyWrites, QueueEffect, TightenedWrite, Steady;
    var once := ApplyWrites(t, loose);
    TightenedAreSteady(tight, loose);
    WritesActBySlot(t, loose, s);
    WritesActBySlot(once, tight, s);
    WritesActBySlot(map[], tight, s);
    WritesActBySlot(map[], loose, s);
    TightenedQueueLoosens(tight, loose, s);
    EffectIdempotent(QueueEffect(loose, s), Get(t, s));
  }

  /** The queue of a create and a delete, each a commit of its own, replayed after the policy
      came to forbid deletes, brings the document back. */
  lemma TightenedReplayRevives(base: string, ident: Ident, doc: Fields, key: TargetKey)
    ensures var s := Slot(base, ident);
            var loose := [OneEvent(key, base, ident, Upsert(doc), ON_EVENT), OneEvent(key, base, ident, Delete, ON_EVENT)];
            var tight := [OneEvent(key, base, ident, Upsert(doc), NEVER), OneEvent(key, base, ident, Delete, NEVER)];
            && TightenedWrites(tight, loose) && AllSteady(loose)
            && s !in ApplyWrites(map[], loose) && s in ApplyWrites(ApplyWrites(map[], loose), tight)
  {
    var s := Slot(base, ident);
    var create, delete := OneEvent(key, base, ident, Upsert(doc), ON_EVENT), OneEvent(key, base, ident, Delete, ON_EVENT);
    var create1, delete1 := OneEvent(key, base, ident, Upsert(doc), NEVER), OneEvent(key, base, ident, Delete, NEVER);
    var once := ApplyWrites(map[], [create, delete]);
    Creates(map[], key, base, ident, doc, ON_EVENT);
    Removes(ApplyWrite(map[], create), key, base, ident, ON_EVENT);
    Creates(once, key, base, ident, doc, NEVER);
    Removes(ApplyWrite(once, create1), key, base, ident, NEVER);
    TightenedOne(key, base, ident, Upsert(doc));
    TightenedOne(key, base, ident, Delete);
    hide ApplyWrite, ApplyWrites, Steady, OneEvent, TightenedWrite;
    InTwo(map[], create, delete);
    InTwo(once, create1, delete1);
  }

  lemma TightenedOne(key: TargetKey, base: string, ident: Ident, op: Op)
    ensures TightenedWrite(OneEvent(key, base, ident, op, NEVER), OneEvent(key, base, ident, op, ON_EVENT))
  {
  }

  lemma Creates(t: Tree, key: TargetKey, base: string, ident: Ident, doc: Fields, mode: PruneMode)
    ensures var w := OneEvent(key, base, ident, Upsert(doc), mode);
            Steady(w) && Get(ApplyWrite(t, w), Slot(base, ident)) == [doc]
  {
    OneEventWrite(OneEvent(key, base, ident, Upsert(doc), mode), t);
  }

  lemma Removes(t: Tree, key: TargetKey, base: string, ident: Ident, mode: PruneMode)
    ensures var w := OneEvent(key, base, ident, Delete, mode);
            && Steady(w)
            && Get(ApplyWrite(t, w), Slot(base, ident)) ==
               if AppliesEventDeletes(OrDefault(mode)) then [] else Get(t, Slot(base, ident))
  {
    OneEventWrite(OneEvent(key, base, ident, Delete, mode), t);
    UntouchedKeeps(Get(t, Slot(base, ident)));
  }

  // ------------------------------------------------- what a tightened queue keeps

  /** No identity the write would create is left deleted where it was present. */
  ghost predicate NeverFlips(w: Write) {
    forall i :: FirstUpsert(EventsOf(w), i) ==> KeepsHeld(EventsOf(w), ModesOf(w.target), i)
  }

  lemma PresentExactly(t: Tree, w: Write, s: Slot)
    ensures s in ApplyWrite(t, w) <==>
            if s in t then WriteAction(w, s).held != Put([]) else WriteAction(w, s).created != []
  {
    WriteActsBySlot(t, w, s);
    hide ApplyWrite;
  }

  /** Tightening a write changes nothing that it creates, and stops some of its deletes. */
  lemma TightenedAction(tight: Write, loose: Write, s: Slot)
    requires TightenedWrite(tight, loose)
    ensures WriteAction(tight, s).created != [] <==> WriteAction(loose, s).created != []
    ensures WriteAction(tight, s).held == Put([]) ==> WriteAction(loose, s).held == Put([])
  {
    var events := EventsOf(loose);
    assert EventsOf(tight) == events;
    TightenedEvents(events, ModesOf(tight.target), ModesOf(loose.target), s);
    HeldExactly(events, ModesOf(tight.target), s);
    HeldExactly(events, ModesOf(loose.target), s);
    CreatedExactly(events, ModesOf(tight.target), s);
    CreatedExactly(events, ModesOf(loose.target), s);
    if loose.kind.Resync? && Sweeps(loose, s) { SweptIsNotUpserted(loose, s); }
    hide ActionAt, EffectAt, Upserts;
  }

  lemma NeverFlipsAt(w: Write, s: Slot)
    requires NeverFlips(w)
    ensures WriteAction(w, s).created != [] ==> WriteAction(w, s).held != Put([])
  {
    var events, mode := EventsOf(w), ModesOf(w.target);
    HeldExactly(events, mode, s);
    CreatedExactly(events, mode, s);
    if Upserts(events, s) {
      var i := FirstUpsertAt(events, s);
      assert KeepsHeld(events, mode, i);
      if w.kind.Resync? && Sweeps(w, s) { SweptIsNotUpserted(w, s); }
    }
    hide ActionAt, EffectAt;
  }

  /** A replay under tightened modes deletes no document that the queue, under the modes it was
      planned with, would have left in place, if none of its writes flips. */
  lemma {:induction false} TightenedReplayDeletesNoMore(t: Tree, tight: seq<Write>, loose: seq<Write>, s: Slot)
    requires TightenedWrites(tight, loose) && forall i :: 0 <= i < |loose| ==> NeverFlips(loose[i])
    ensures s in ApplyWrites(t, loose) ==> s in ApplyWrites(t, tight)
  {
    hide ApplyWrite, WriteAction, NeverFlips, TightenedWrite;
    if tight != [] {
      var n := |tight| - 1;
      TightenedReplayDeletesNoMore(t, tight[..n], loose[..n], s);
      PresentExactly(ApplyWrites(t, loose[..n]), loose[n], s);
      PresentExactly(ApplyWrites(t, tight[..n]), tight[n], s);
      TightenedAction(tight[n], loose[n], s);
      NeverFlipsAt(loose[n], s);
    }
  }

  /** After any write, tightened or not, `w` leaves in place what it would have left. */
  ghost predicate KeepsAfterTightening(w: Write) {
    forall t, tight, loose, s :: TightenedWrite(tight, loose) && s in ApplyWrites(t, [loose, w]) ==> s in ApplyWrites(t, [tight, w])
  }

  /** A write can follow every tightened write without deleting more than it would have if and
      only if it does not flip. */
  lemma TightenedKeepsExactly(w: Write)
    ensures KeepsAfterTightening(w) <==> NeverFlips(w)
  {
    hide ApplyWrites, NeverFlips, TightenedWrite;
    if NeverFlips(w) {
      forall t, tight, loose, s | TightenedWrite(tight, loose) && s in ApplyWrites(t, [loose, w])
        ensures s in ApplyWrites(t, [tight, w])
      {
        FollowsTightened(t, tight, loose, w, s);
      }
    } else {
      var s := FlippingSlot(w);
      SweepThenFlip(w, s);
      assert !KeepsAfterTightening(w);
    }
  }

  lemma FollowsTightened(t: Tree, tight: Write, loose: Write, w: Write, s: Slot)
    requires NeverFlips(w) && TightenedWrite(tight, loose) && s in ApplyWrites(t, [loose, w])
    ensures s in ApplyWrites(t, [tight, w])
  {
    InTwo(t, loose, w);
    InTwo(t, tight, w);
    PresentExactly(t, loose, s);
    PresentExactly(t, tight, s);
    PresentExactly(ApplyWrite(t, loose), w, s);
    PresentExactly(ApplyWrite(t, tight), w, s);
    TightenedAction(tight, loose, s);
    NeverFlipsAt(w, s);
    hide ApplyWrite, ApplyWrites, WriteAction;
  }

  lemma FlippingSlot(w: Write) returns (s: Slot)
    requires !NeverFlips(w)
    ensures WriteAction(w, s).created != [] && WriteAction(w, s).held == Put([])
  {
    var events, mode := EventsOf(w), ModesOf(w.target);
    var i :| FirstUpsert(events, i) && !KeepsHeld(events, mode, i);
    s := PathKey(events[i]);
    HeldExactly(events, mode, s);
    CreatedExactly(events, mode, s);
    assert Upserts(events, s);
    if w.kind.Resync? && Sweeps(w, s) { SweptIsNotUpserted(w, s); }
    hide ActionAt, EffectAt;
  }

  /** A resync of a folder with nothing in it. */
  function Sweep(base: string, mode: PruneMode): Write {
    Write(Resync, [], [], WholeTarget, Some(ResolvedTarget(TargetKey("", ""), base, mode)), "", None)
  }

  /** A flipping write after a sweep: when the sweep is tightened away, the write deletes the
      document that it would have created. */
  lemma SweepThenFlip(w: Write, s: Slot)
    requires WriteAction(w, s).created != [] && WriteAction(w, s).held == Put([])
    ensures var t: Tree := map[s := [map[]]];
            && TightenedWrite(Sweep(s.base, ON_EVENT), Sweep(s.base, ALWAYS))
            && s in ApplyWrites(t, [Sweep(s.base, ALWAYS), w])
            && s !in ApplyWrites(t, [Sweep(s.base, ON_EVENT), w])
  {
    var t: Tree := map[s := [map[]]];
    var loose, tight := Sweep(s.base, ALWAYS), Sweep(s.base, ON_EVENT);
    InTwo(t, loose, w);
    InTwo(t, tight, w);
    PresentExactly(t, loose, s);
    PresentExactly(t, tight, s);
    PresentExactly(ApplyWrite(t, loose), w, s);
    PresentExactly(ApplyWrite(t, tight), w, s);
    SweepActs(s);
    hide ApplyWrite, ApplyWrites, WriteAction, Sweep, TightenedWrite;
  }

  lemma SweepActs(s: Slot)
    ensures TightenedWrite(Sweep(s.base, ON_EVENT), Sweep(s.base, ALWAYS))
    ensures WriteAction(Sweep(s.base, ALWAYS), s) == Action([], Put([]))
    ensures WriteAction(Sweep(s.base, ON_EVENT), s) == Action([], UNTOUCHED)
  {
  }
}
