/** When a batch of events means the same as its events one after the other, and when it can be
    applied a second time (internal/git/plan_flush.go, commit_executor.go).

    Both come to one condition. A batch looks identities up in the scan before it, so an upsert
    beside a delete of the same identity, a field patch after an upsert, or a second upsert acts
    differently on a branch that has the document and on one that has not. */
module Batches {
  import opened PrunePolicy
  import opened Documents

  // ---------------------------------------------------------- the condition

  predicate FirstUpsert(events: seq<Event>, i: int) {
    && 0 <= i < |events| && events[i].op.Upsert?
    && forall k :: 0 <= k < i && PathKey(events[k]) == PathKey(events[i]) ==> !events[k].op.Upsert?
  }

  /** No other event upserts or deletes the identity of event `i`. */
  predicate SoleWrite(events: seq<Event>, mode: Modes, i: int)
    requires 0 <= i < |events|
  {
    forall k :: 0 <= k < |events| && k != i && PathKey(events[k]) == PathKey(events[i]) ==>
      !events[k].op.Upsert? && !Deletes(events[k], mode)
  }

  /** What the first upsert creates, the events taken one after the other lead to as well; of a
      plain identity it is the only write. */
  predicate KeepsCreated(events: seq<Event>, mode: Modes, i: int)
    requires FirstUpsert(events, i)
  {
    && EffectAt(events, mode, PathKey(events[i])) == Put([events[i].op.doc])
    && (events[i].ident.sensitive || SoleWrite(events, mode, i))
  }

  /** The identity of event `i` is not deleted; a sensitive one is not left deleted. */
  predicate KeepsHeld(events: seq<Event>, mode: Modes, i: int)
    requires FirstUpsert(events, i)
  {
    if events[i].ident.sensitive then EffectAt(events, mode, PathKey(events[i])) != Put([])
    else forall k :: 0 <= k < |events| && PathKey(events[k]) == PathKey(events[i]) ==> !Deletes(events[k], mode)
  }

  /** Every identity the events upsert is upserted in a way that does not depend on the scan. */
  ghost predicate SteadyEvents(events: seq<Event>, mode: Modes) {
    forall i :: FirstUpsert(events, i) ==> KeepsCreated(events, mode, i)
  }

  // ------------------------------------------------------------ at one slot

  predicate Upserts(events: seq<Event>, s: Slot) {
    exists i :: 0 <= i < |events| && PathKey(events[i]) == s && events[i].op.Upsert?
  }

  predicate DeletesAt(events: seq<Event>, mode: Modes, s: Slot) {
    exists i :: 0 <= i < |events| && PathKey(events[i]) == s && Deletes(events[i], mode)
  }

  lemma {:induction false} FirstUpsertAt(events: seq<Event>, s: Slot) returns (i: int)
    requires Upserts(events, s)
    ensures FirstUpsert(events, i) && PathKey(events[i]) == s
  {
    var n := |events| - 1;
    if Upserts(events[..n], s) {
      i := FirstUpsertAt(events[..n], s);
      assert forall k :: 0 <= k < i ==> events[..n][k] == events[k];
    } else {
      ExtendSlot(events, _ => ON_EVENT, s);
      i := n;
      assert forall k :: 0 <= k < n ==> events[..n][k] == events[k];
    }
  }

  lemma FirstUpsertIsUnique(events: seq<Event>, i: int, j: int)
    requires FirstUpsert(events, i) && FirstUpsert(events, j) && PathKey(events[i]) == PathKey(events[j])
    ensures i == j
  {
  }

  lemma ExtendSlot(events: seq<Event>, mode: Modes, s: Slot)
    requires events != []
    ensures var n := |events| - 1;
            && (Upserts(events, s) <==> Upserts(events[..n], s) || (PathKey(events[n]) == s && events[n].op.Upsert?))
            && (DeletesAt(events, mode, s) <==> DeletesAt(events[..n], mode, s) || (PathKey(events[n]) == s && Deletes(events[n], mode)))
  {
    var n := |events| - 1;
    var rest := events[..n];
    assert forall k :: 0 <= k < n ==> rest[k] == events[k];
    if Upserts(rest, s) {
      var i :| 0 <= i < |rest| && PathKey(rest[i]) == s && rest[i].op.Upsert?;
      assert PathKey(events[i]) == s && events[i].op.Upsert?;
    }
    if DeletesAt(rest, mode, s) {
      var i :| 0 <= i < |rest| && PathKey(rest[i]) == s && Deletes(rest[i], mode);
      assert PathKey(events[i]) == s && Deletes(events[i], mode);
    }
  }

  /** The effect on a document that was there is the composed effect of the events, except that
      a plain document once deleted stays away. */
  lemma {:induction false} HeldExactly(events: seq<Event>, mode: Modes, s: Slot)
    ensures var h := ActionAt(events, mode, s).held;
            var e := EffectAt(events, mode, s);
            && h == (if !s.ident.sensitive && DeletesAt(events, mode, s) then Put([]) else e)
            && (h == Put([]) ==> DeletesAt(events, mode, s))
            && (Upserts(events, s) || DeletesAt(events, mode, s) ==> e.Put?)
            && (e.Put? ==> |e.result| <= 1)
            && (e.Put? && e.result != [] ==> Upserts(events, s))
  {
    if events != [] {
      HeldExactly(events[..|events| - 1], mode, s);
      ExtendSlot(events, mode, s);
    }
  }

  /** What is created where there was nothing. */
  lemma {:induction false} CreatedExactly(events: seq<Event>, mode: Modes, s: Slot)
    ensures var c := ActionAt(events, mode, s).created; c != [] <==> Upserts(events, s)
  {
    if events != [] {
      CreatedExactly(events[..|events| - 1], mode, s);
      ExtendSlot(events, mode, s);
    }
  }

  predicate NoLaterUpsert(events: seq<Event>, i: int)
    requires 0 <= i < |events|
  {
    forall k :: i < k < |events| && PathKey(events[k]) == PathKey(events[i]) ==> !events[k].op.Upsert?
  }

  lemma {:induction false} CreatedBy(events: seq<Event>, mode: Modes, i: int)
    requires FirstUpsert(events, i)
    ensures var c := ActionAt(events, mode, PathKey(events[i])).created;
            && c != [] && c[0] == events[i].op.doc
            && (|c| == 1 <==> events[i].ident.sensitive || NoLaterUpsert(events, i))
  {
    var n := |events| - 1;
    var s := PathKey(events[i]);
    var rest := events[..n];
    assert forall k :: 0 <= k < n ==> rest[k] == events[k];
    if i < n {
      CreatedBy(rest, mode, i);
    } else {
      CreatedExactly(rest, mode, s);
    }
  }

  /** The documents at a slot after the batch are accepted by a second one, which keeps them. */
  predicate Settled(a: Action, c: seq<Fields>) {
    |Act(a, c)| <= 1 && Act(a, Act(a, c)) == Act(a, c)
  }

  lemma SlotWithoutUpsert(events: seq<Event>, mode: Modes, s: Slot, c: seq<Fields>)
    requires |c| <= 1 && !Upserts(events, s)
    ensures Settled(ActionAt(events, mode, s), c)
    ensures Act(ActionAt(events, mode, s), c) == Run(EffectAt(events, mode, s), c)
  {
    HeldExactly(events, mode, s);
    CreatedExactly(events, mode, s);
    EffectIdempotent(EffectAt(events, mode, s), c);
    hide ActionAt, EffectAt, Upserts, DeletesAt;
  }

  lemma SlotWithUpsert(events: seq<Event>, mode: Modes, i: int, c: seq<Fields>)
    requires |c| <= 1 && FirstUpsert(events, i)
    ensures Settled(ActionAt(events, mode, PathKey(events[i])), c) <==>
            if c == [] then KeepsCreated(events, mode, i) else KeepsHeld(events, mode, i)
  {
    var s := PathKey(events[i]);
    HeldExactly(events, mode, s);
    CreatedBy(events, mode, i);
    SoleExactly(events, mode, i);
    hide ActionAt, EffectAt, SoleWrite, FirstUpsert;
    assert Upserts(events, s);
  }

  lemma SoleExactly(events: seq<Event>, mode: Modes, i: int)
    requires FirstUpsert(events, i)
    ensures SoleWrite(events, mode, i) <==>
            !DeletesAt(events, mode, PathKey(events[i])) && NoLaterUpsert(events, i)
  {
  }

  /** On a branch with at most one document per identity, a batch leaves a slot in a state that
      a second application accepts and keeps if and only if the identity is not upserted, or is
      upserted in a way that is kept: after creation if it was absent, else after the edit. */
  lemma SlotSettlesExactly(events: seq<Event>, mode: Modes, s: Slot, c: seq<Fields>)
    requires |c| <= 1
    ensures Settled(ActionAt(events, mode, s), c) <==>
            forall i :: FirstUpsert(events, i) && PathKey(events[i]) == s ==>
              if c == [] then KeepsCreated(events, mode, i) else KeepsHeld(events, mode, i)
  {
    hide Settled, ActionAt, KeepsCreated, KeepsHeld;
    if Upserts(events, s) {
      var i := FirstUpsertAt(events, s);
      SlotWithUpsert(events, mode, i, c);
      forall j | FirstUpsert(events, j) && PathKey(events[j]) == s ensures i == j { FirstUpsertIsUnique(events, i, j); }
    } else {
      SlotWithoutUpsert(events, mode, s, c);
    }
  }

  /** A kept upsert makes the batch act at its slot as its events one after the other. */
  lemma KeptActsInOrder(events: seq<Event>, mode: Modes, i: int, c: seq<Fields>)
    requires FirstUpsert(events, i) && KeepsCreated(events, mode, i)
    ensures Act(ActionAt(events, mode, PathKey(events[i])), c) == Run(EffectAt(events, mode, PathKey(events[i])), c)
  {
    var s := PathKey(events[i]);
    HeldExactly(events, mode, s);
    CreatedBy(events, mode, i);
    SoleExactly(events, mode, i);
    hide ActionAt, EffectAt, SoleWrite, FirstUpsert;
  }

  lemma SteadyActsInOrder(events: seq<Event>, mode: Modes, s: Slot, c: seq<Fields>)
    requires SteadyEvents(events, mode)
    ensures Act(ActionAt(events, mode, s), c) == Run(EffectAt(events, mode, s), c)
  {
    if Upserts(events, s) {
      var i := FirstUpsertAt(events, s);
      KeptActsInOrder(events, mode, i, c);
    } else {
      HeldExactly(events, mode, s);
      CreatedExactly(events, mode, s);
      hide ActionAt, EffectAt, Upserts, DeletesAt;
    }
  }

  /** One event per identity is enough. */
  lemma OneEachIsSteady(events: seq<Event>, mode: Modes)
    requires forall i, j :: 0 <= i < j < |events| ==> PathKey(events[i]) != PathKey(events[j])
    ensures SteadyEvents(events, mode)
  {
    forall i | FirstUpsert(events, i) ensures KeepsCreated(events, mode, i) {
      LoneEffect(events, mode, PathKey(events[i]), i);
    }
  }

  lemma CreatedIsHeld(events: seq<Event>, mode: Modes, i: int)
    requires FirstUpsert(events, i) && KeepsCreated(events, mode, i)
    ensures KeepsHeld(events, mode, i)
  {
  }
}
