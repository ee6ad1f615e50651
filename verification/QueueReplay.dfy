/** When a whole queue of writes, steady or not, can be replayed, and what tightening it can
    delete (internal/git/commit_executor.go, branch_worker.go).

    A later write can make up for what an earlier one flips, so the exact conditions are about
    the queue: replaying has only to be tried on the empty branch, and tightening only on
    branches of at most one document. */
module QueueReplay {
  import opened Documents
  import opened Batches
  import opened Writes

  // ----------------------------------------------------- the action of a queue

  function Both(a: Action, b: Action): Action {
    Action(Act(b, a.created),
           match a.held
           case Put(c) => Put(Act(b, c))
           case Merge(_) => Then(a.held, b.held))
  }

  lemma BothAct(a: Action, b: Action, c: seq<Fields>)
    ensures Act(Both(a, b), c) == Act(b, Act(a, c))
  {
    if c != [] && a.held.Merge? { ThenRuns(a.held, b.held, c); }
  }

  function QueueAction(ws: seq<Write>, s: Slot): Action {
    if ws == [] then Action([], UNTOUCHED)
    else Both(QueueAction(ws[..|ws| - 1], s), WriteAction(ws[|ws| - 1], s))
  }

  lemma {:induction false} QueueActsBySlot(t: Tree, ws: seq<Write>, s: Slot)
    ensures Get(ApplyWrites(t, ws), s) == Act(QueueAction(ws, s), Get(t, s))
  {
    hide ApplyWrite, WriteAction;
    if ws == [] {
      UntouchedKeeps(Get(t, s));
    } else {
      var rest, w := ws[..|ws| - 1], ws[|ws| - 1];
      QueueActsBySlot(t, rest, s);
      WriteActsBySlot(ApplyWrites(t, rest), w, s);
      BothAct(QueueAction(rest, s), WriteAction(w, s), Get(t, s));
    }
  }

  // ------------------------------------------------------------- what is accepted

  /** No plain identity is upserted twice in one write. */
  predicate WritesOnce(w: Write) {
    forall i, j ::
      && 0 <= i < j < |EventsOf(w)| && PathKey(EventsOf(w)[i]) == PathKey(EventsOf(w)[j])
      && EventsOf(w)[i].op.Upsert? && EventsOf(w)[j].op.Upsert?
      ==> EventsOf(w)[i].ident.sensitive
  }

  ghost predicate AllOnce(ws: seq<Write>) {
    forall i :: 0 <= i < |ws| ==> WritesOnce(ws[i])
  }

  /** No identity of a folder that the queue touches is stored twice. */
  ghost predicate AllAccept(t: Tree, ws: seq<Write>) {
    forall i :: 0 <= i < |ws| ==> Accepts(t, ws[i])
  }

  /** Every write of the queue finds a branch that accepts it. */
  ghost predicate Runs(t: Tree, ws: seq<Write>) {
    forall n :: 0 <= n < |ws| ==> Accepts(ApplyWrites(t, ws[..n]), ws[n])
  }

  lemma OnceStays(w: Write, s: Slot, c: seq<Fields>)
    requires WritesOnce(w) && |c| <= 1
    ensures |Act(WriteAction(w, s), c)| <= 1
  {
    var events, mode := EventsOf(w), ModesOf(w.target);
    HeldExactly(events, mode, s);
    CreatedExactly(events, mode, s);
    if Upserts(events, s) {
      var i := FirstUpsertAt(events, s);
      CreatedBy(events, mode, i);
      assert events[i].ident.sensitive || NoLaterUpsert(events, i);
    }
    hide ActionAt, EffectAt, Upserts, DeletesAt;
  }

  lemma OnceKeepsAccepted(t: Tree, w: Write, other: Write)
    requires WritesOnce(w) && Accepts(t, other)
    ensures Accepts(ApplyWrite(t, w), other)
  {
    hide ApplyWrite, WriteAction, WritesOnce, Touches;
    forall s | s in ApplyWrite(t, w) && Touches(other, s.base) ensures |ApplyWrite(t, w)[s]| == 1 {
      WriteActsBySlot(t, w, s);
      OnceStays(w, s, Get(t, s));
    }
  }

  lemma {:induction false} PrefixKeepsAccepted(t: Tree, ws: seq<Write>, n: nat, other: Write)
    requires n <= |ws| && AllOnce(ws) && Accepts(t, other)
    ensures Accepts(ApplyWrites(t, ws[..n]), other)
  {
    hide ApplyWrite, Accepts, WritesOnce;
    if n > 0 {
      PrefixKeepsAccepted(t, ws, n - 1, other);
      assert ws[..n][..n - 1] == ws[..n - 1];
      OnceKeepsAccepted(ApplyWrites(t, ws[..n - 1]), ws[n - 1], other);
    }
  }

  lemma OnceRuns(t: Tree, ws: seq<Write>)
    requires AllOnce(ws) && AllAccept(t, ws)
    ensures Runs(t, ws) && AllAccept(ApplyWrites(t, ws), ws)
  {
    hide ApplyWrites, Accepts, WritesOnce;
    forall i | 0 <= i < |ws| ensures Accepts(ApplyWrites(t, ws[..i]), ws[i]) && Accepts(ApplyWrites(t, ws), ws[i]) {
      PrefixKeepsAccepted(t, ws, i, ws[i]);
      PrefixKeepsAccepted(t, ws, |ws|, ws[i]);
      assert ws[..|ws|] == ws;
    }
  }

  // ------------------------------------------------------------------- replaying

  /** The queue runs, runs again, and the second run changes nothing. */
  ghost predicate Replayable(t: Tree, ws: seq<Write>) {
    var once := ApplyWrites(t, ws);
    Runs(t, ws) && Runs(once, ws) && ApplyWrites(once, ws) == once
  }

  lemma SlotReplaysFromNothing(a: Action, c: seq<Fields>)
    requires Act(a, Act(a, [])) == Act(a, [])
    ensures Act(a, Act(a, c)) == Act(a, c)
  {
    EffectIdempotent(a.held, c);
  }

  /** A queue whose writes upsert no plain identity twice can be replayed on every branch that
      accepts it if and only if it can be replayed on the empty one. */
  lemma QueueReplaysExactly(ws: seq<Write>)
    requires AllOnce(ws)
    ensures (forall t :: AllAccept(t, ws) ==> Replayable(t, ws)) <==> ApplyWrites(ApplyWrites(map[], ws), ws) == ApplyWrites(map[], ws)
  {
    hide ApplyWrites, AllOnce, Runs, QueueAction;
    assert AllAccept(map[], ws);
    if ApplyWrites(ApplyWrites(map[], ws), ws) == ApplyWrites(map[], ws) {
      forall t | AllAccept(t, ws) ensures Replayable(t, ws) { ReplaysFromNothing(t, ws); }
    } else {
      assert !Replayable(map[], ws);
    }
  }

  lemma ReplaysFromNothing(t: Tree, ws: seq<Write>)
    requires AllOnce(ws) && AllAccept(t, ws) && ApplyWrites(ApplyWrites(map[], ws), ws) == ApplyWrites(map[], ws)
    ensures Replayable(t, ws)
  {
    hide ApplyWrites, AllOnce, Runs, QueueAction, AllAccept;
    var once := ApplyWrites(t, ws);
    OnceRuns(t, ws);
    OnceRuns(once, ws);
    forall s ensures Get(ApplyWrites(once, ws), s) == Get(once, s) {
      QueueActsBySlot(t, ws, s);
      QueueActsBySlot(once, ws, s);
      QueueActsBySlot(map[], ws, s);
      QueueActsBySlot(ApplyWrites(map[], ws), ws, s);
      SlotReplaysFromNothing(QueueAction(ws, s), Get(t, s));
    }
    TreesAgree(ApplyWrites(once, ws), once);
  }

  // ------------------------------------------------------------------ tightening

  /** Whether a queue leaves a document at a slot depends only on whether there was one. */
  lemma PresenceDecides(t: Tree, ws: seq<Write>, s: Slot)
    ensures s in ApplyWrites(t, ws) <==> s in ApplyWrites(if s in t then map[s := [map[]]] else map[], ws)
  {
    hide ApplyWrites, QueueAction;
    QueueActsBySlot(t, ws, s);
    QueueActsBySlot(if s in t then map[s := [map[]]] else map[], ws, s);
  }

  ghost predicate DeletesNoMore(tight: seq<Write>, loose: seq<Write>, t: Tree) {
    forall s :: s in ApplyWrites(t, loose) ==> s in ApplyWrites(t, tight)
  }

  /** A queue deletes, on no branch, a document another one leaves, as a tightened one should, if
      and only if it does so on no branch of at most one document. */
  lemma TightenedQueueExactly(tight: seq<Write>, loose: seq<Write>)
    ensures (forall t :: DeletesNoMore(tight, loose, t)) <==>
            DeletesNoMore(tight, loose, map[]) && forall s :: DeletesNoMore(tight, loose, map[s := [map[]]])
  {
    hide ApplyWrites;
    if DeletesNoMore(tight, loose, map[]) && forall s :: DeletesNoMore(tight, loose, map[s := [map[]]]) {
      forall t, s | s in ApplyWrites(t, loose) ensures s in ApplyWrites(t, tight) {
        PresenceDecides(t, loose, s);
        PresenceDecides(t, tight, s);
        assert DeletesNoMore(tight, loose, if s in t then map[s := [map[]]] else map[]);
      }
    }
  }
}
