/** Where the push protocol's guarantees end (internal/git/branch_worker.go,
    git_atomic_push.go): replaced branches, replays that stop part-way, and pushes that are
    applied without an acknowledgement, each with its exact condition. */
module PushEdges {
  import opened Documents
  import opened Writes
  import opened Tightening
  import opened Repository
  import opened Push

  // ------------------------------------------------------------ replaced branches

  /** A coherent worker rooted on the target branch itself never loses anyone's commit. */
  lemma {:induction false} RootedOnTargetNeverClobbers(r: Repo, ws: seq<PendingWrite>, env: nat -> Attempt, i: nat)
    requires HistoryKept(r) && Coherent(r, ws) && !r.clobbered
    requires RootBranch(r) == r.target && (r.target in r.refs || r.rootHash == Unborn)
    ensures !PushFrom(r, ws, env, i).repo.clobbered
    decreases MAX_RETRIES - i
  {
    hide PushOnce, Coherent, HistoryKept;
    if i < MAX_RETRIES {
      PassOnTargetNeverClobbers(r, ws, env(i));
      var pass := PushOnce(r, ws, env(i));
      if pass.Retry? {
        RootedOnTargetNeverClobbers(pass.repo, pass.writes, env, i + 1);
      }
    }
  }

  lemma PassOnTargetNeverClobbers(r: Repo, ws: seq<PendingWrite>, a: Attempt)
    requires HistoryKept(r) && Coherent(r, ws) && !r.clobbered
    requires RootBranch(r) == r.target && (r.target in r.refs || r.rootHash == Unborn)
    ensures match PushOnce(r, ws, a)
            case Done(p) => !p.repo.clobbered
            case Retry(r1, ws1) => !r1.clobbered && RootBranch(r1) == r1.target && r1.target in r1.refs
                                   && HistoryKept(r1) && Coherent(r1, ws1)
  {
    AttemptOnTargetNeverClobbers(r, ws, a);
    PassAfterSafeAttempt(r, ws, a);
  }

  /** An attempt that replaced nothing ends the call, or is followed by a replay that starts
      from the target branch when there is one. */
  lemma PassAfterSafeAttempt(r: Repo, ws: seq<PendingWrite>, a: Attempt)
    requires HistoryKept(r) && Coherent(r, ws) && !r.clobbered && !PushAtomic(r, a).repo.clobbered
    ensures match PushOnce(r, ws, a)
            case Done(p) => !p.repo.clobbered
            case Retry(r1, ws1) =>
              && !r1.clobbered && HistoryKept(r1) && Coherent(r1, ws1) && r1.target == r.target && r1.fallback == r.fallback
              && (r.target in r.refs ==> r1.target in r1.refs)
              && (RootBranch(r) == r.target && r.rootHash == Unborn ==> r1.target in r1.refs)
              && (r1.rootBranch, r1.rootHash) == Available(r1)
  {
    hide PushAtomic, Observe, Replay, HistoryKept, Coherent, Available;
    var p := PushAtomic(r, a);
    PushAtomicKeeps(r, a);
    if !p.ok {
      var fetched := Observe(p.repo, a.beforeFetch);
      SafeObserve(p.repo, a.beforeFetch);
      SafeObserve(fetched, a.beforeSync);
      SafeReplay(Observe(fetched, a.beforeSync), ws, a);
    }
  }

  lemma SafeObserve(r: Repo, moves: seq<Move>)
    requires HistoryKept(r)
    ensures var o := Observe(r, moves);
            && HistoryKept(o) && o == r.(refs := o.refs, seen := o.seen)
            && (forall b :: b in r.refs ==> b in o.refs)
  {
    ObserveKeepsHistory(r, moves);
  }

  lemma SafeReplay(r: Repo, ws: seq<PendingWrite>, a: Attempt)
    requires HistoryKept(r)
    ensures var p := Replay(r, ws, a);
            && p.repo.clobbered == r.clobbered && p.repo.target == r.target && p.repo.fallback == r.fallback
            && p.repo.refs == r.refs && HistoryKept(p.repo)
            && (p.ok ==> Coherent(p.repo, p.writes) && (p.repo.rootBranch, p.repo.rootHash) == Available(p.repo))
  {
    ReplayRebuilds(r, ws, a);
    hide TightenFrom, ExecuteFrom, Coherent, Within, TightenedQueue;
  }

  lemma AttemptOnTargetNeverClobbers(r: Repo, ws: seq<PendingWrite>, a: Attempt)
    requires HistoryKept(r) && Coherent(r, ws) && !r.clobbered && RootBranch(r) == r.target
    ensures !PushAtomic(r, a).repo.clobbered
  {
    var adv := Observe(r, a.before);
    if ValidatePushState(adv).Send? {
      SendContainsOld(adv, ws);
    }
  }

  const NOTHING: Attempt := Attempt([], true, [], Delivered, [], true, [], true, map[], None, 0)

  /** The write of the examples: one document at one slot. */
  function OneDocument(s: Slot, doc: Fields): Write {
    Write(Atomic, [Event("", NotAttempted, TargetKey("", ""), s.base, s.ident, Upsert(doc), 0)], [], WholeTarget, None, "", None)
  }

  lemma OneDocumentApplies(t: Tree, s: Slot, doc: Fields)
    ensures ApplyWrite(t, OneDocument(s, doc)) == t[s := [doc]]
  {
    OneUpsertApplies(t, OneDocument(s, doc));
  }

  lemma OneDocumentBuilds(root: History, s: Slot, doc: Fields, sha: History)
    requires TreeOf(root) == map[]
    requires sha == Unborn || sha == Commit(root, map[s := [doc]], Mirror(OneDocument(s, doc), 0))
    ensures Built(root, [PendingWrite(OneDocument(s, doc), 0, sha)], 1, Commit(root, map[s := [doc]], Mirror(OneDocument(s, doc), 0)))
  {
    var w := PendingWrite(OneDocument(s, doc), 0, sha);
    OneDocumentApplies(map[], s, doc);
    hide ApplyWrite;
    assert map[][s := [doc]] == map[s := [doc]];
    assert s in map[s := [doc]];
    assert Built(root, [w], 0, root);
  }

  /** Rooted on the default branch, the worker compares only that branch. A target branch
      that someone creates in the meantime is replaced, and the push reports success. */
  lemma ConcurrentTargetBranchIsReplaced(s: Slot, doc: Fields, theirs: Tree, id: nat)
    ensures var trunk := Commit(Unborn, map[], Foreign(0));
            var w := PendingWrite(OneDocument(s, doc), 0, Unborn);
            var local := Commit(trunk, map[s := [doc]], Mirror(w.write, 0));
            var r := Repo("mirror", "main", local, "main", trunk, map["main" := trunk], {Unborn}, false, false, false);
            var a := NOTHING.(before := [Move("mirror", Unborn, theirs, id + 1)]);
            var p := PushAtomic(r, a);
            && HistoryKept(r) && Coherent(r, [w])
            && p.ok && p.repo.clobbered
            && Commit(Unborn, theirs, Foreign(id + 1)) in p.repo.seen
            && !Within(Commit(Unborn, theirs, Foreign(id + 1)), p.repo.refs["mirror"])
  {
    var trunk := Commit(Unborn, map[], Foreign(0));
    var w := PendingWrite(OneDocument(s, doc), 0, Unborn);
    var local := Commit(trunk, map[s := [doc]], Mirror(w.write, 0));
    var r := Repo("mirror", "main", local, "main", trunk, map["main" := trunk], {Unborn}, false, false, false);
    var move := Move("mirror", Unborn, theirs, id + 1);
    var a := NOTHING.(before := [move]);
    var created := Commit(Unborn, theirs, Foreign(id + 1));
    OneDocumentBuilds(trunk, s, doc, Unborn);
    hide Built, OneDocument;
    assert Moved(r.refs, [move]) == r.refs["mirror" := created] by { assert [move][..0] == []; }
    hide PushAtomic, Moved;
    assert !Within(created, trunk) && local != created;
    UndisturbedSend(r, a, created);
  }

  /** A push that nothing disturbs, of a cycle whose root has not moved, replaces the target tip. */
  lemma UndisturbedSend(r: Repo, a: Attempt, theirs: History)
    requires a == NOTHING.(before := a.before) && RootBranch(r) in Moved(r.refs, a.before)
    requires var refs := Moved(r.refs, a.before);
             r.target in refs && refs[r.target] == theirs != r.local && theirs.Commit? && Tip(refs, RootBranch(r)) == r.rootHash
    ensures var p := PushAtomic(r, a);
            && p.ok && theirs in p.repo.seen && r.target in p.repo.refs && p.repo.refs[r.target] == r.local
            && (p.repo.clobbered <==> r.clobbered || !Within(theirs, r.local))
  {
    hide Within;
    var adv := Observe(r, a.before);
    assert ValidatePushState(adv) == Send(theirs, r.local);
    NoMoves(adv);
    hide Moved, ValidatePushState;
  }

  function Depth(h: History): nat {
    if h.Commit? then 1 + Depth(h.parent) else 0
  }

  lemma {:induction false} WithinIsShorter(a: History, b: History)
    requires Within(a, b)
    ensures Depth(a) <= Depth(b)
    ensures Depth(a) == Depth(b) ==> a == b
  {
    if a != b { WithinIsShorter(a, b.parent); }
  }

  /** The recorded root is an earlier, and no longer the current, tip of its branch. */
  predicate RootMoved(r: Repo) {
    && Within(r.rootHash, Tip(r.refs, RootBranch(r)))
    && r.rootHash != Tip(r.refs, RootBranch(r))
  }

  lemma RootStaysMoved(r: Repo, moves: seq<Move>)
    requires HistoryKept(r) && RootMoved(r)
    ensures RootMoved(Observe(r, moves))
  {
    ObserveKeepsHistory(r, moves);
    var o := Observe(r, moves);
    var then_, now := Tip(r.refs, RootBranch(r)), Tip(o.refs, RootBranch(r));
    UnbornWithin(now);
    WithinTransitive(r.rootHash, then_, now);
    WithinIsShorter(r.rootHash, then_);
    WithinIsShorter(then_, now);
  }

  /** The largest number of a foreign commit in a history. */
  function LastForeign(h: History): nat {
    if h.Unborn? then 0
    else
      var before := LastForeign(h.parent);
      if h.made.Foreign? && h.made.id > before then h.made.id else before
  }

  lemma {:induction false} ForeignIsCounted(c: History, h: History)
    requires Within(c, h) && c.Commit? && c.made.Foreign?
    ensures c.made.id <= LastForeign(h)
  {
    if c != h { ForeignIsCounted(c, h.parent); }
  }

  /** What another writer can do to a worker that is rooted elsewhere on an unmoved branch:
      create, or extend, the target branch just before the push. */
  lemma RootedElsewhereReplaces(r: Repo) returns (a: Attempt)
    requires RootBranch(r) != r.target && Tip(r.refs, RootBranch(r)) == r.rootHash && !r.clobbered
    ensures PushAtomic(r, a).repo.clobbered
  {
    hide LastForeign;
    var move := Move(r.target, Unborn, map[], LastForeign(r.local) + 1);
    var theirs := Commit(Tip(r.refs, r.target), map[], Foreign(move.id));
    var moves := [move];
    a := NOTHING.(before := moves);
    assert moves[..|moves| - 1] == [] && moves[|moves| - 1] == move;
    assert Moved(r.refs, moves[..|moves| - 1]) == r.refs;
    var adv := Observe(r, a.before);
    assert adv.refs == r.refs[r.target := theirs];
    if Within(theirs, r.local) { ForeignIsCounted(theirs, r.local); }
    assert ValidatePushState(adv) == Send(theirs, r.local);
    NoMoves(adv);
  }

  lemma {:induction false} ReplacedStaysReplaced(r: Repo, ws: seq<PendingWrite>, env: nat -> Attempt, i: nat)
    requires r.clobbered
    ensures PushFrom(r, ws, env, i).repo.clobbered
    decreases MAX_RETRIES - i
  {
    hide PushOnce;
    if i < MAX_RETRIES {
      ReplacingAttempt(r, ws, env(i));
      var pass := PushOnce(r, ws, env(i));
      if pass.Retry? { ReplacedStaysReplaced(pass.repo, pass.writes, env, i + 1); }
    }
  }

  lemma ReplacingAttempt(r: Repo, ws: seq<PendingWrite>, a: Attempt)
    requires r.clobbered || PushAtomic(r, a).repo.clobbered
    ensures match PushOnce(r, ws, a) case Done(p) => p.repo.clobbered case Retry(r1, _) => r1.clobbered
  {
    hide ValidatePushState, Moved, TightenFrom, ExecuteFrom;
  }

  lemma AttemptReplaces(r: Repo, ws: seq<PendingWrite>, env: nat -> Attempt, i: nat)
    requires i < MAX_RETRIES && PushAtomic(r, env(i)).repo.clobbered
    ensures PushFrom(r, ws, env, i).repo.clobbered
  {
    hide PushOnce;
    ReplacingAttempt(r, ws, env(i));
    var pass := PushOnce(r, ws, env(i));
    if pass.Retry? { ReplacedStaysReplaced(pass.repo, pass.writes, env, i + 1); }
  }

  /** A policy under which nothing is unreadable. */
  function Readable(ws: seq<PendingWrite>): map<TargetKey, PolicyRead> {
    map i | 0 <= i < |ws| && ws[i].write.target.Some? :: ws[i].write.target.value.key := NotFound
  }

  lemma {:induction false} ReadableTightens(ws: seq<PendingWrite>, i: nat, policy: map<TargetKey, PolicyRead>)
    requires forall k :: i <= k < |ws| && ws[k].write.target.Some? ==> ReadPolicy(policy, ws[k].write.target.value.key) == NotFound
    ensures TightenFrom(ws, i, policy).ok
    decreases |ws| - i
  {
    if i < |ws| {
      if ws[i].write.target.None? {
        ReadableTightens(ws, i + 1, policy);
      } else {
        var t := ws[i].write.target.value;
        ReadableTightens(ws[i := ws[i].(write := ws[i].write.(target := Some(TightenTarget(t, NotFound))))], i + 1, policy);
      }
    }
  }

  /** When the root has moved and there is no target branch, a replay roots on the default
      branch again. */
  lemma ReplayRootsElsewhere(r: Repo, ws: seq<PendingWrite>) returns (a: Attempt, r1: Repo, ws1: seq<PendingWrite>)
    requires HistoryKept(r) && RootMoved(r) && !r.clobbered
    requires r.target !in r.refs && r.fallback != r.target && r.fallback != ""
    ensures PushOnce(r, ws, a) == Retry(r1, ws1)
    ensures RootBranch(r1) != r1.target && Tip(r1.refs, RootBranch(r1)) == r1.rootHash && !r1.clobbered
  {
    var moves := [Move(r.fallback, Unborn, map[], 0)];
    a := NOTHING.(session := false, beforeSync := moves, policy := Readable(ws));
    assert moves[..|moves| - 1] == [];
    var adv := Observe(r, []);
    NoMoves(r);
    NoMoves(adv);
    var fetched := Observe(adv, []);
    var synced := Observe(fetched, moves);
    assert Moved(fetched.refs, moves[..|moves| - 1]) == fetched.refs == r.refs;
    assert r.fallback in synced.refs && r.target !in synced.refs;
    ReadableTightens(ws, 0, a.policy);
    var tight := TightenFrom(ws, 0, a.policy);
    NothingFails(synced.refs[r.fallback], tight.writes, 0, a.stamp);
    var rebuilt := Replay(synced, ws, a);
    r1, ws1 := rebuilt.repo, rebuilt.writes;
    hide TightenFrom, ExecuteFrom, Moved, ValidatePushState;
  }

  /** No behaviour of other writers can make a push call replace their commits if and only if
      the cycle is rooted on the target branch, or the branch it is rooted on has moved and a
      replay is bound to root on the target. */
  lemma NeverReplacesExactly(r: Repo, ws: seq<PendingWrite>)
    requires HistoryKept(r) && Coherent(r, ws) && !r.clobbered && r.fallback != ""
    requires Within(r.rootHash, Tip(r.refs, RootBranch(r)))
    ensures (forall env :: !PushFrom(r, ws, env, 0).repo.clobbered) <==>
            || RootBranch(r) == r.target
            || (Tip(r.refs, RootBranch(r)) != r.rootHash && (r.target in r.refs || r.fallback == r.target))
  {
    hide PushFrom, PushOnce, Coherent, HistoryKept;
    if RootBranch(r) == r.target {
      forall env: nat -> Attempt ensures !PushFrom(r, ws, env, 0).repo.clobbered { RootedOnTargetNeverClobbers(r, ws, env, 0); }
    } else if Tip(r.refs, RootBranch(r)) == r.rootHash {
      var a := RootedElsewhereReplaces(r);
      var env: nat -> Attempt := _ => a;
      AttemptReplaces(r, ws, env, 0);
      assert PushFrom(r, ws, env, 0).repo.clobbered;
    } else if r.target in r.refs || r.fallback == r.target {
      forall env: nat -> Attempt ensures !PushFrom(r, ws, env, 0).repo.clobbered { MovedRootCallReplacesNothing(r, ws, env); }
    } else {
      var first, r1, ws1 := ReplayRootsElsewhere(r, ws);
      var second := RootedElsewhereReplaces(r1);
      var env: nat -> Attempt := n => if n == 0 then first else second;
      AttemptReplaces(r1, ws1, env, 1);
      RetriedCall(r, ws, env, r1, ws1);
      assert PushFrom(r, ws, env, 0).repo.clobbered;
    }
  }

  lemma RetriedCall(r: Repo, ws: seq<PendingWrite>, env: nat -> Attempt, r1: Repo, ws1: seq<PendingWrite>)
    requires PushOnce(r, ws, env(0)) == Retry(r1, ws1)
    ensures PushFrom(r, ws, env, 0) == PushFrom(r1, ws1, env, 1)
  {
    hide PushOnce;
  }

  lemma MovedRootCallReplacesNothing(r: Repo, ws: seq<PendingWrite>, env: nat -> Attempt)
    requires HistoryKept(r) && Coherent(r, ws) && !r.clobbered && RootMoved(r)
    requires r.target in r.refs || r.fallback == r.target
    ensures !PushFrom(r, ws, env, 0).repo.clobbered
  {
    hide PushOnce, Coherent, HistoryKept;
    MovedRootNeverReplaces(r, env(0));
    PassAfterSafeAttempt(r, ws, env(0));
    var pass := PushOnce(r, ws, env(0));
    if pass.Retry? { RootedOnTargetNeverClobbers(pass.repo, pass.writes, env, 1); }
  }

  lemma MovedRootNeverReplaces(r: Repo, a: Attempt)
    requires HistoryKept(r) && RootMoved(r) && !r.clobbered
    ensures !PushAtomic(r, a).repo.clobbered
  {
    RootStaysMoved(r, a.before);
    var adv := Observe(r, a.before);
    UnbornWithin(r.local);
    hide Moved, Within, HistoryKept;
    if ValidatePushState(adv).Send? { assert ValidatePushState(adv).prev == Unborn; }
  }

  /** A push changes the remote beyond what others do only if the branch the cycle is rooted on is
      still advertised, or the cycle started on nothing, and has not moved if the target exists. */
  lemma SendsOnlyFromItsRoot(r: Repo, a: Attempt)
    ensures var adv := Observe(r, a.before).refs;
            PushAtomic(r, a).repo.refs != adv && PushAtomic(r, a).repo.refs != Moved(adv, a.between) ==>
              && a.session && (RootBranch(r) in adv || r.rootHash == Unborn)
              && (r.target in adv ==> Tip(adv, RootBranch(r)) == r.rootHash)
              && Tip(PushAtomic(r, a).repo.refs, r.target) == r.local
  {
    hide Moved, Within;
  }

  /** With nothing committed locally and no such branch on the remote, there is nothing to push: the
      attempt succeeds and leaves the remote to the others. */
  lemma NothingToPush(r: Repo, a: Attempt)
    requires a.session && r.local == Unborn && r.rootHash == Unborn && r.target !in Moved(r.refs, a.before)
    ensures PushAtomic(r, a) == Attempted(Observe(r, a.before), true)
  {
    hide Moved;
  }

  /** A push call that succeeds ends the push cycle. */
  lemma {:induction false} SuccessEndsCycle(r: Repo, ws: seq<PendingWrite>, env: nat -> Attempt, i: nat)
    ensures var p := PushFrom(r, ws, env, i); p.ok ==> p.repo.rootBranch == "" && p.repo.rootHash == Unborn && !p.repo.aborted
    decreases MAX_RETRIES - i
  {
    hide PushAtomic, Observe, TightenFrom, ExecuteFrom, Available;
    if i < MAX_RETRIES {
      var pass := PushOnce(r, ws, env(i));
      if pass.Retry? { SuccessEndsCycle(pass.repo, pass.writes, env, i + 1); }
    }
  }

  // -------------------------------------------------------------- stopped replays

  /** After a replay that stopped part-way the recorded root is an earlier tip of its branch. */
  lemma AbortKeepsMovedRoot(r: Repo, ws: seq<PendingWrite>, a: Attempt)
    requires HistoryKept(r) && !r.clobbered && !r.aborted
    requires Within(r.rootHash, Tip(r.refs, RootBranch(r)))
    requires var pass := PushOnce(r, ws, a); pass.Done? && pass.result.repo.aborted && !pass.result.repo.clobbered
    ensures RootMoved(PushOnce(r, ws, a).result.repo)
  {
    PushAtomicKeeps(r, a);
    var p := PushAtomic(r, a);
    var fetched := Observe(p.repo, a.beforeFetch);
    ObserveKeepsHistory(p.repo, a.beforeFetch);
    ExtendsTransitive(r.refs, p.repo.refs, fetched.refs);
    UnbornWithin(Tip(fetched.refs, RootBranch(r)));
    WithinTransitive(r.rootHash, Tip(r.refs, RootBranch(r)), Tip(fetched.refs, RootBranch(r)));
    RootStaysMoved(fetched, a.beforeSync);
    ReplayRebuilds(Observe(fetched, a.beforeSync), ws, a);
  }

  /** Out of such a state the next attempt succeeds exactly when the local head is the
      remote tip, because that shortcut is tested before the root is compared. */
  lemma MovedRootSucceedsExactlyOnShortcut(r: Repo, a: Attempt)
    requires HistoryKept(r) && RootMoved(r) && a.session
    requires r.target in Moved(r.refs, a.before)
    ensures PushAtomic(r, a).ok <==> Moved(r.refs, a.before)[r.target] == r.local
  {
    RootStaysMoved(r, a.before);
  }

  /** The tree is the base with every retained write applied in order. */
  predicate Landed(base: History, t: Tree, ws: seq<PendingWrite>) {
    t == ApplyWrites(TreeOf(base), WritesOf(ws))
  }

  /** A successful attempt leaves a base with every retained write on the remote if and only if
      the local head was that: always, for the recorded root, from a coherent state, and after
      a stopped replay only by chance. If the writes are steady, they then have nothing left to
      do there. */
  lemma SuccessLandsExactly(r: Repo, ws: seq<PendingWrite>, a: Attempt, base: History)
    requires HistoryKept(r) && PushAtomic(r, a).ok && !PushAtomic(r, a).repo.clobbered
    ensures var there := TreeOf(Tip(PushAtomic(r, a).repo.refs, r.target));
            && (Landed(base, there, ws) <==> Landed(base, TreeOf(r.local), ws))
            && (Coherent(r, ws) ==> Landed(r.rootHash, there, ws))
            && (Landed(base, there, ws) && AllSteady(WritesOf(ws)) ==> ApplyWrites(there, WritesOf(ws)) == there)
  {
    PushAtomicKeeps(r, a);
    hide ApplyWrites, PushAtomic, HistoryKept, AllSteady;
    if Coherent(r, ws) {
      BuiltIsFold(r.rootHash, ws, |ws|, r.local);
      assert WritesOf(ws)[..|ws|] == WritesOf(ws);
    }
    if AllSteady(WritesOf(ws)) { ReplayIdempotent(TreeOf(base), WritesOf(ws)); }
  }

  lemma {:induction false} ApplyInTwoParts(t: Tree, ws: seq<Write>, k: nat)
    requires k <= |ws|
    ensures ApplyWrites(t, ws) == ApplyWrites(ApplyWrites(t, ws[..k]), ws[k..])
  {
    hide ApplyWrite;
    var n := |ws| - 1;
    if k == |ws| {
      assert ws[..k] == ws && ws[k..] == [];
    } else {
      var rest := ws[k..];
      assert ws[..n][..k] == ws[..k] && ws[..n][k..] == rest[..|rest| - 1] && rest[|rest| - 1] == ws[n];
      ApplyInTwoParts(t, ws[..n], k);
      assert ApplyWrites(t, ws) == ApplyWrite(ApplyWrites(t, ws[..n]), ws[n]);
      assert ApplyWrites(ApplyWrites(t, ws[..k]), rest) == ApplyWrite(ApplyWrites(ApplyWrites(t, ws[..k]), rest[..|rest| - 1]), ws[n]);
    }
  }

  /** Where a stopped replay stopped: at the policies, or at the write that failed. */
  function StoppedAt(ws: seq<PendingWrite>, a: Attempt): nat {
    if !TightenFrom(ws, 0, a.policy).ok || a.failAt.None? then 0 else a.failAt.value
  }

  /** A stopped replay leaves the tip it started from with the writes before the stop. */
  lemma StoppedReplayHead(r: Repo, ws: seq<PendingWrite>, a: Attempt)
    requires !Replay(r, ws, a).ok
    ensures var p := Replay(r, ws, a);
            var k := StoppedAt(ws, a);
            && k <= |p.writes|
            && TreeOf(p.repo.local) == ApplyWrites(TreeOf(p.base), WritesOf(p.writes)[..k])
  {
    var tip := Available(r).1;
    var tight := TightenFrom(ws, 0, a.policy);
    if tight.ok {
      ExecutePrefix(tip, tight.writes, 0, a.failAt, a.stamp, tip);
    }
  }

  lemma {:induction false} ExecutePrefix(local: History, ws: seq<PendingWrite>, i: nat, failAt: Option<nat>, stamp: int, root: History)
    requires i <= |ws| && TreeOf(local) == ApplyWrites(TreeOf(root), WritesOf(ws)[..i])
    requires !ExecuteFrom(local, ws, i, failAt, stamp).ok
    ensures failAt.Some? && i <= failAt.value < |ws|
    ensures var e := ExecuteFrom(local, ws, i, failAt, stamp);
            |e.writes| == |ws| && TreeOf(e.local) == ApplyWrites(TreeOf(root), WritesOf(e.writes)[..failAt.value])
    decreases |ws| - i
  {
    hide ApplyWrite;
    if failAt != Some(i) {
      var after := CommitWrite(local, ws[i].write, stamp);
      var next := ws[i := ws[i].(sha := RecordedSha(local, after, ws[i].write))];
      assert WritesOf(next) == WritesOf(ws);
      assert WritesOf(ws)[..i + 1][..i] == WritesOf(ws)[..i] && WritesOf(ws)[..i + 1][i] == ws[i].write;
      assert TreeOf(after) == ApplyWrite(TreeOf(local), ws[i].write) == ApplyWrites(TreeOf(root), WritesOf(next)[..i + 1]);
      ExecutePrefix(after, next, i + 1, failAt, stamp, root);
    }
  }

  /** If the attempt after a stopped replay succeeds, the remote is the tip that replay started
      from with every retained write applied if and only if the writes from the stop on change
      nothing. */
  lemma StoppedReplayLandsExactly(r: Repo, ws: seq<PendingWrite>, a: Attempt, next: Attempt)
    requires HistoryKept(r) && !r.clobbered && !r.aborted
    requires var pass := PushOnce(r, ws, a);
             && pass.Done? && pass.result.repo.aborted && !pass.result.repo.clobbered
             && PushAtomic(pass.result.repo, next).ok && !PushAtomic(pass.result.repo, next).repo.clobbered
    ensures var p := PushOnce(r, ws, a).result;
            var k := StoppedAt(ws, a);
            && k <= |p.writes|
            && (Landed(p.base, TreeOf(Tip(PushAtomic(p.repo, next).repo.refs, r.target)), p.writes) <==>
                ApplyWrites(TreeOf(p.repo.local), WritesOf(p.writes)[k..]) == TreeOf(p.repo.local))
  {
    hide PushOnce, PushAtomic, HistoryKept, ApplyWrites;
    var p := PushOnce(r, ws, a).result;
    StoppedPass(r, ws, a);
    SuccessLandsExactly(p.repo, p.writes, next, p.base);
    ApplyInTwoParts(TreeOf(p.base), WritesOf(p.writes), StoppedAt(ws, a));
  }

  lemma StoppedPass(r: Repo, ws: seq<PendingWrite>, a: Attempt)
    requires HistoryKept(r) && !r.clobbered && !r.aborted
    requires var pass := PushOnce(r, ws, a); pass.Done? && pass.result.repo.aborted && !pass.result.repo.clobbered
    ensures var p := PushOnce(r, ws, a).result;
            var k := StoppedAt(ws, a);
            && HistoryKept(p.repo) && p.repo.target == r.target && k <= |p.writes|
            && TreeOf(p.repo.local) == ApplyWrites(TreeOf(p.base), WritesOf(p.writes)[..k])
  {
    PushAtomicKeeps(r, a);
    var p := PushAtomic(r, a);
    var fetched := Observe(p.repo, a.beforeFetch);
    ObserveKeepsHistory(p.repo, a.beforeFetch);
    ObserveKeepsHistory(fetched, a.beforeSync);
    var synced := Observe(fetched, a.beforeSync);
    ReplayRebuilds(synced, ws, a);
    StoppedReplayHead(synced, ws, a);
  }

  lemma NoMoves(r: Repo)
    ensures Observe(r, []) == r.(seen := r.seen + {Tip(r.refs, r.target)})
  {
  }

  /** The shortcut is taken when the replay failed on its first write: the next push then
      reports success although the retained write is not on the remote, and the hash
      recorded for it names no commit of the branch. */
  lemma AbortedReplayLosesWrite(s: Slot, doc: Fields)
    ensures var root := Commit(Unborn, map[], Foreign(0));
            var write := OneDocument(s, doc);
            var local := Commit(root, map[s := [doc]], Mirror(write, 0));
            var w := PendingWrite(write, 0, local);
            var r := Repo("main", "main", local, "main", root, map["main" := root], {root}, false, false, false);
            var conflict := NOTHING.(before := [Move("main", Unborn, map[], 1)], failAt := Some(0));
            var failed := PushOnce(r, [w], conflict);
            && Coherent(r, [w]) && HistoryKept(r)
            && failed.Done? && !failed.result.ok && failed.result.repo.aborted
            && var again := PushOnce(failed.result.repo, failed.result.writes, NOTHING);
               && again.Done? && again.result.ok && again.result.repo.lost
               && again.result.writes == [w]
               && s !in TreeOf(again.result.repo.refs["main"])
               && !Within(w.sha, again.result.repo.refs["main"])
  {
    var root := Commit(Unborn, map[], Foreign(0));
    var write := OneDocument(s, doc);
    var local := Commit(root, map[s := [doc]], Mirror(write, 0));
    var w := PendingWrite(write, 0, local);
    var r := Repo("main", "main", local, "main", root, map["main" := root], {root}, false, false, false);
    OneDocumentBuilds(root, s, doc, local);
    hide Built;
    var move := Move("main", Unborn, map[], 1);
    var moved := Commit(root, map[], Foreign(1));
    var conflict := NOTHING.(before := [move], failAt := Some(0));
    assert [move][..0] == [];
    assert Moved(r.refs, [move]) == map["main" := moved];
    var adv := Observe(r, [move]);
    assert ValidatePushState(adv).Refused?;
    NoMoves(adv);
    var synced := Observe(Observe(adv, []), []);
    assert synced.refs == map["main" := moved];
    assert TightenFrom([w], 1, map[]) == Tightened([w], true);
    assert TightenFrom([w], 0, map[]) == Tightened([w], true);
    assert ExecuteFrom(moved, [w], 0, Some(0), 0) == Executed(moved, [w], false);
    assert Replay(synced, [w], conflict) == Pushed(synced.(local := moved, aborted := true), [w], false, moved);
    var failed := PushOnce(r, [w], conflict);
    assert failed == Done(Replay(synced, [w], conflict));
    NoMoves(failed.result.repo);
    assert ValidatePushState(Observe(failed.result.repo, [])).UpToDate?;
    assert local.made.Mirror? && root.made.Foreign? && moved.made.Foreign?;
    assert !Within(local, root);
  }

  // -------------------------------------------------------- unacknowledged pushes

  /** The server applied the push and the worker did not hear of it. */
  predicate Unacknowledged(r: Repo, a: Attempt) {
    var p := PushAtomic(r, a);
    !p.ok && !p.repo.clobbered && r.target in p.repo.refs && p.repo.refs[r.target] == r.local
  }

  /** The remote as the worker finds it when it looks again. */
  function Fetched(r: Repo, a: Attempt): Repo {
    Observe(PushAtomic(r, a).repo, a.beforeFetch)
  }

  /** While the root branch has not moved, the worker gives up and keeps everything as it was;
      the next attempt that finds the target branch unmoved succeeds through the shortcut. So
      converges the first push of a new branch. */
  lemma UnacknowledgedIsKept(r: Repo, ws: seq<PendingWrite>, a: Attempt, next: Attempt)
    requires HistoryKept(r) && Coherent(r, ws) && !r.clobbered && Unacknowledged(r, a) && a.fetched
    requires Tip(Fetched(r, a).refs, RootBranch(r)) == r.rootHash
    ensures var pass := PushOnce(r, ws, a);
            && pass == Done(Pushed(Fetched(r, a), ws, false, r.rootHash)) && Coherent(pass.result.repo, ws)
            && var there := Moved(pass.result.repo.refs, next.before);
               next.session && Tip(there, r.target) == r.local ==>
                 && PushAtomic(pass.result.repo, next).ok
                 && TreeOf(Tip(PushAtomic(pass.result.repo, next).repo.refs, r.target)) == ApplyWrites(TreeOf(r.rootHash), WritesOf(ws))
  {
    hide PushAtomic, Observe, Moved, Built, ApplyWrites, Replay, HistoryKept;
    PushAtomicKeeps(r, a);
    SafeObserve(PushAtomic(r, a).repo, a.beforeFetch);
    var kept := Fetched(r, a);
    assert r.target in kept.refs;
    ShortcutSucceeds(kept, next);
    BuiltIsFold(r.rootHash, ws, |ws|, r.local);
    assert WritesOf(ws)[..|ws|] == WritesOf(ws);
  }

  /** An attempt that finds the local head on the remote succeeds and changes nothing there. */
  lemma ShortcutSucceeds(r: Repo, a: Attempt)
    requires HistoryKept(r) && r.target in r.refs && (RootBranch(r) in r.refs || r.rootHash == Unborn)
    ensures a.session && Tip(Moved(r.refs, a.before), r.target) == r.local ==>
              PushAtomic(r, a).ok && Tip(PushAtomic(r, a).repo.refs, r.target) == r.local
  {
    SafeObserve(r, a.before);
    hide Moved, HistoryKept;
  }

  /** Once the root branch has moved, the queue is rebuilt on the target branch, which contains
      the applied push and whatever others added to it. If they added nothing and the writes are
      steady, the replay leads to the same documents if and only if the tightened queue creates
      nothing that the queue as pushed goes on to delete. */
  lemma UnacknowledgedIsReplayed(r: Repo, ws: seq<PendingWrite>, a: Attempt)
    requires HistoryKept(r) && Coherent(r, ws) && !r.clobbered && Unacknowledged(r, a)
    requires Tip(Fetched(r, a).refs, RootBranch(r)) != r.rootHash
    requires a.fetched && a.synced && a.failAt.None? && TightenFrom(ws, 0, a.policy).ok
    ensures var pass := PushOnce(r, ws, a);
            && pass.Retry?
            && var r1 := pass.repo;
               && r1.rootBranch == r.target && r1.rootHash == Tip(r1.refs, r.target) && Within(r.local, r1.rootHash)
               && TightenedQueue(pass.writes, ws) && Coherent(r1, pass.writes) && HistoryKept(r1)
               && TreeOf(r1.local) == ApplyWrites(TreeOf(r1.rootHash), WritesOf(pass.writes))
               && (r1.rootHash == r.local && AllSteady(WritesOf(ws)) ==>
                     (TreeOf(r1.local) == TreeOf(r.local) <==> CreatesNoMore(WritesOf(pass.writes), WritesOf(ws))))
  {
    PushAtomicKeeps(r, a);
    var p := PushAtomic(r, a).repo;
    var fetched := Fetched(r, a);
    var synced := Observe(fetched, a.beforeSync);
    ObserveKeepsHistory(p, a.beforeFetch);
    ObserveKeepsHistory(fetched, a.beforeSync);
    ExtendsTransitive(p.refs, fetched.refs, synced.refs);
    assert Available(synced) == (r.target, synced.refs[r.target]);
    ReplayRebuilds(synced, ws, a);
    NothingFails(synced.refs[r.target], TightenFrom(ws, 0, a.policy).writes, 0, a.stamp);
    var rebuilt := Replay(synced, ws, a);
    assert rebuilt.ok && PushOnce(r, ws, a) == Retry(rebuilt.repo, rebuilt.writes);
    ReplayedTree(r, ws, rebuilt.repo, rebuilt.writes);
    hide PushOnce, PushAtomic, Moved, Built, ApplyWrites, ExecuteFrom, TightenFrom, ValidatePushState, CreatesNoMore;
  }

  lemma ReplayedTree(r: Repo, ws: seq<PendingWrite>, r1: Repo, ws1: seq<PendingWrite>)
    requires Coherent(r, ws) && Coherent(r1, ws1) && TightenedQueue(ws1, ws)
    ensures TreeOf(r1.local) == ApplyWrites(TreeOf(r1.rootHash), WritesOf(ws1))
    ensures r1.rootHash == r.local && AllSteady(WritesOf(ws)) ==>
              (TreeOf(r1.local) == TreeOf(r.local) <==> CreatesNoMore(WritesOf(ws1), WritesOf(ws)))
  {
    hide ApplyWrites, AllSteady;
    BuiltIsFold(r.rootHash, ws, |ws|, r.local);
    BuiltIsFold(r1.rootHash, ws1, |ws1|, r1.local);
    assert WritesOf(ws)[..|ws|] == WritesOf(ws) && WritesOf(ws1)[..|ws1|] == WritesOf(ws1);
    assert TightenedWrites(WritesOf(ws1), WritesOf(ws));
    if AllSteady(WritesOf(ws)) { TightenedReplayExactly(TreeOf(r.rootHash), WritesOf(ws1), WritesOf(ws)); }
  }

  /** Rooted on an existing target branch, an applied push has moved the root by itself. */
  lemma AppliedPushMovesRoot(r: Repo, ws: seq<PendingWrite>, a: Attempt)
    requires HistoryKept(r) && Coherent(r, ws) && !r.clobbered && Unacknowledged(r, a)
    requires RootBranch(r) == r.target && r.rootHash != r.local
    ensures Tip(Fetched(r, a).refs, RootBranch(r)) != r.rootHash
  {
    PushAtomicKeeps(r, a);
    var p := PushAtomic(r, a).repo;
    ObserveKeepsHistory(p, a.beforeFetch);
    BuiltIsFold(r.rootHash, ws, |ws|, r.local);
    WithinIsShorter(r.rootHash, r.local);
    WithinIsShorter(r.local, Fetched(r, a).refs[r.target]);
  }

  /** The rebuilt queue goes through when the target branch stays where it is, whatever happens
      to other branches: the call then succeeds with those documents on the remote. */
  lemma RebuiltQueueLands(r1: Repo, ws1: seq<PendingWrite>, next: Attempt)
    requires HistoryKept(r1) && RootBranch(r1) == r1.target && r1.rootHash == Tip(r1.refs, r1.target) && r1.target in r1.refs
    requires next.session && next.delivery.Delivered?
    requires Tip(Moved(r1.refs, next.before), r1.target) == r1.rootHash
    requires Tip(Moved(Moved(r1.refs, next.before), next.between), r1.target) == r1.rootHash
    ensures var done := PushOnce(r1, ws1, next);
            done.Done? && done.result.ok && Tip(done.result.repo.refs, r1.target) == r1.local
  {
    ObserveKeepsHistory(r1, next.before);
    hide Moved, Within, HistoryKept, Replay;
    var adv := Observe(r1, next.before);
    assert adv.refs[r1.target] == r1.rootHash;
    assert ValidatePushState(adv) == if r1.local == r1.rootHash then UpToDate else Send(r1.rootHash, r1.local);
    assert PushAtomic(r1, next).ok;
  }

  lemma {:induction false} NothingFails(local: History, ws: seq<PendingWrite>, i: nat, stamp: int)
    ensures ExecuteFrom(local, ws, i, None, stamp).ok
    decreases |ws| - i
  {
    hide CommitWrite, RecordedSha;
    if i < |ws| {
      var after := CommitWrite(local, ws[i].write, stamp);
      NothingFails(after, ws[i := ws[i].(sha := RecordedSha(local, after, ws[i].write))], i + 1, stamp);
    }
  }
}
