/** The push and replay protocol (internal/git/branch_worker.go, git_atomic_push.go).

    A push is a compare-and-set of one ref. The remote is a shared object: before every
    remote operation other writers may have appended commits (`Move`), and every remote
    operation may fail. The environment's part of one attempt is an `Attempt` value, so the
    theorems hold for every interleaving and every pattern of failures. */
module Push {
  import opened PrunePolicy
  import opened Documents
  import opened Writes
  import opened Tightening
  import opened Repository

  const MAX_RETRIES: nat := 3

  /** The worker's repository state. The last four fields are history: every tip the target
      branch ever had, whether the last replay aborted part-way, whether a push was ever
      reported as done out of such an aborted state, and whether a push ever replaced a
      tip it did not contain. */
  datatype Repo = Repo(
    target: string,
    fallback: string,
    local: History,
    rootBranch: string,
    rootHash: History,
    refs: Refs,
    seen: set<History>,
    aborted: bool,
    lost: bool,
    clobbered: bool)

  function RootBranch(r: Repo): string {
    if r.rootBranch == "" then r.target else r.rootBranch
  }

  /** Other writers move the remote. */
  function Observe(r: Repo, moves: seq<Move>): Repo {
    var refs := Moved(r.refs, moves);
    r.(refs := refs, seen := r.seen + {Tip(refs, r.target)})
  }

  // ------------------------------------------------------------------ pushing

  datatype Validation = Refused | UpToDate | Send(prev: History, next: History)

  /** The decision on the advertised references. */
  function ValidatePushState(r: Repo): Validation {
    var root := RootBranch(r);
    if root !in r.refs && r.rootHash != Unborn then Refused
    else if r.target in r.refs then
      if r.local == r.refs[r.target] then UpToDate
      else if r.rootHash != Tip(r.refs, root) then Refused
      else Send(r.refs[r.target], r.local)
    else Send(Unborn, r.local)
  }

  datatype Delivery = Dropped | Delivered | Unacknowledged

  datatype PolicyRead = Found(mode: PruneMode) | NotFound | Unreadable

  /** What the environment does during one push attempt and the replay that may follow. */
  datatype Attempt = Attempt(
    before: seq<Move>,
    session: bool,
    between: seq<Move>,
    delivery: Delivery,
    beforeFetch: seq<Move>,
    fetched: bool,
    beforeSync: seq<Move>,
    synced: bool,
    policy: map<TargetKey, PolicyRead>,
    failAt: Option<nat>,
    stamp: int)

  /** The server's compare-and-set. */
  function Receive(r: Repo, prev: History, next: History): Repo
    requires Tip(r.refs, r.target) == prev
  {
    r.(refs := r.refs[r.target := next],
       seen := r.seen + {next},
       clobbered := r.clobbered || !Within(prev, next))
  }

  datatype Attempted = Attempted(repo: Repo, ok: bool)

  function PushAtomic(r: Repo, a: Attempt): Attempted {
    var adv := Observe(r, a.before);
    if !a.session then Attempted(adv, false)
    else
      match ValidatePushState(adv)
      case Refused => Attempted(adv, false)
      case UpToDate => Attempted(adv, true)
      case Send(prev, next) =>
        if prev == Unborn && next == Unborn then Attempted(adv, true)
        else
          var now := Observe(adv, a.between);
          if a.delivery.Dropped? || Tip(now.refs, now.target) != prev then Attempted(now, false)
          else Attempted(Receive(now, prev, next), a.delivery.Delivered?)
  }

  // ---------------------------------------------------------------- replaying

  /** The branch and tip that a sync leaves checked out: the target, else the default
      branch, else an unborn target. */
  function Available(r: Repo): (string, History) {
    if r.target in r.refs then (r.target, r.refs[r.target])
    else if r.fallback in r.refs then (r.fallback, r.refs[r.fallback])
    else (r.target, Unborn)
  }

  function TightenTarget(t: ResolvedTarget, read: PolicyRead): (r: ResolvedTarget)
    ensures r == t.(mode := r.mode)
    ensures NoMoreRights(r.mode, t.mode)
    ensures read.NotFound? ==> !AppliesEventDeletes(OrDefault(r.mode))
    ensures read.Found? ==> NoMoreRights(r.mode, read.mode)
  {
    var current := if read.Found? then OrDefault(read.mode) else NEVER;
    var tightened := MoreRestrictiveOf(t.mode, current);
    if tightened == OrDefault(t.mode) then t else t.(mode := tightened)
  }

  function ReadPolicy(policy: map<TargetKey, PolicyRead>, key: TargetKey): PolicyRead {
    if key in policy then policy[key] else Unreadable
  }

  datatype Tightened = Tightened(writes: seq<PendingWrite>, ok: bool)

  /** Tightens the captured modes from index `i` on; an unreadable policy stops the pass,
      leaving the writes before it tightened. */
  function TightenFrom(ws: seq<PendingWrite>, i: nat, policy: map<TargetKey, PolicyRead>): Tightened
    decreases |ws| - i
  {
    if i >= |ws| then Tightened(ws, true)
    else if ws[i].write.target.None? then TightenFrom(ws, i + 1, policy)
    else
      var t := ws[i].write.target.value;
      var read := ReadPolicy(policy, t.key);
      if read.Unreadable? then Tightened(ws, false)
      else
        var w := ws[i].(write := ws[i].write.(target := Some(TightenTarget(t, read))));
        TightenFrom(ws[i := w], i + 1, policy)
  }

  datatype Pushed = Pushed(repo: Repo, writes: seq<PendingWrite>, ok: bool, base: History)

  /** Sync to the remote tip, tighten the captured modes, and rebuild the queue on it. */
  function Replay(r: Repo, ws: seq<PendingWrite>, a: Attempt): Pushed {
    var (branch, tip) := Available(r);
    var synced := r.(local := tip);
    var tight := TightenFrom(ws, 0, a.policy);
    if !tight.ok then Pushed(synced.(aborted := true), tight.writes, false, tip)
    else
      var ex := ExecuteFrom(tip, tight.writes, 0, a.failAt, a.stamp);
      if !ex.ok then Pushed(synced.(local := ex.local, aborted := true), ex.writes, false, tip)
      else Pushed(synced.(local := ex.local, rootBranch := branch, rootHash := tip, aborted := false), ex.writes, true, tip)
  }

  /** One pass of the retry loop: it ends the call, or leaves a rebuilt queue to push. */
  datatype Pass = Done(result: Pushed) | Retry(repo: Repo, writes: seq<PendingWrite>)

  function PushOnce(r: Repo, ws: seq<PendingWrite>, a: Attempt): Pass {
    var p := PushAtomic(r, a);
    if p.ok then
      Done(Pushed(p.repo.(rootBranch := "", rootHash := Unborn, lost := r.lost || r.aborted, aborted := false), ws, true, r.rootHash))
    else
      var fetched := Observe(p.repo, a.beforeFetch);
      if !a.fetched || Tip(fetched.refs, RootBranch(r)) == r.rootHash then Done(Pushed(fetched, ws, false, r.rootHash))
      else
        var synced := Observe(fetched, a.beforeSync);
        if !a.synced then Done(Pushed(synced, ws, false, r.rootHash))
        else
          var rebuilt := Replay(synced, ws, a);
          if rebuilt.ok then Retry(rebuilt.repo, rebuilt.writes) else Done(rebuilt)
  }

  /** The retry loop from attempt `i` on. */
  function PushFrom(r: Repo, ws: seq<PendingWrite>, env: nat -> Attempt, i: nat): Pushed
    decreases MAX_RETRIES - i
  {
    if i >= MAX_RETRIES then Pushed(r, ws, false, r.rootHash)
    else
      match PushOnce(r, ws, env(i))
      case Done(result) => result
      case Retry(repo, writes) => PushFrom(repo, writes, env, i + 1)
  }

  // ------------------------------------------------------------------ theorems

  /** Everything the target branch ever was is still in its history. */
  ghost predicate HistoryKept(r: Repo) {
    && Live(r.refs)
    && forall h :: h in r.seen ==> Within(h, Tip(r.refs, r.target))
  }

  /** The local head is the recorded root plus the retained writes, in order. */
  predicate Coherent(r: Repo, ws: seq<PendingWrite>) {
    Built(r.rootHash, ws, |ws|, r.local)
  }

  predicate TightenedQueue(tight: seq<PendingWrite>, loose: seq<PendingWrite>) {
    && |tight| == |loose|
    && forall i :: 0 <= i < |tight| ==>
         tight[i].byteSize == loose[i].byteSize && TightenedWrite(tight[i].write, loose[i].write)
  }

  lemma TightenedQueueReflexive(ws: seq<PendingWrite>)
    ensures TightenedQueue(ws, ws)
  {
  }

  lemma TightenedQueueTransitive(a: seq<PendingWrite>, b: seq<PendingWrite>, c: seq<PendingWrite>)
    requires TightenedQueue(a, b) && TightenedQueue(b, c)
    ensures TightenedQueue(a, c)
  {
    forall i | 0 <= i < |a| ensures TightenedWrite(a[i].write, c[i].write) {
      assert TightenedWrite(a[i].write, b[i].write) && TightenedWrite(b[i].write, c[i].write);
    }
  }

  lemma ObserveKeepsHistory(r: Repo, moves: seq<Move>)
    requires HistoryKept(r)
    ensures HistoryKept(Observe(r, moves)) && Extends(r.refs, Observe(r, moves).refs)
  {
    var o := Observe(r, moves);
    MovesExtend(r.refs, moves);
    forall h | h in o.seen ensures Within(h, Tip(o.refs, o.target)) {
      if h in r.seen {
        UnbornWithin(Tip(o.refs, o.target));
        WithinTransitive(h, Tip(r.refs, r.target), Tip(o.refs, o.target));
      }
    }
  }

  /** The compare-and-set keeps the branch's history exactly when the new head contains the
      old one. */
  lemma ReceiveKeepsHistoryExactly(r: Repo, prev: History, next: History)
    requires HistoryKept(r) && Tip(r.refs, r.target) == prev && prev in r.seen && next.Commit?
    ensures HistoryKept(Receive(r, prev, next)) <==> Within(prev, next)
  {
    var after := Receive(r, prev, next);
    if Within(prev, next) {
      forall h | h in after.seen ensures Within(h, Tip(after.refs, after.target)) {
        if h in r.seen { WithinTransitive(h, prev, next); }
      }
    } else {
      assert prev in after.seen;
    }
  }

  /** A coherent worker whose root branch is the target branch contains what it replaces. */
  lemma SendContainsOld(r: Repo, ws: seq<PendingWrite>)
    requires Coherent(r, ws) && ValidatePushState(r).Send? && RootBranch(r) == r.target
    ensures var v := ValidatePushState(r); Within(v.prev, v.next)
  {
    BuiltIsFold(r.rootHash, ws, |ws|, r.local);
    UnbornWithin(r.local);
  }

  lemma ReceiveKeeps(now: Repo, prev: History, next: History)
    requires HistoryKept(now) && prev in now.seen && Tip(now.refs, now.target) == prev && next.Commit? && Within(prev, next)
    ensures HistoryKept(Receive(now, prev, next)) && Extends(now.refs, Receive(now, prev, next).refs)
  {
    ReceiveKeepsHistoryExactly(now, prev, next);
  }

  lemma WithinCommit(prev: History, next: History)
    requires Within(prev, next) && prev.Commit?
    ensures next.Commit?
  {
  }

  lemma PushAtomicKeeps(r: Repo, a: Attempt)
    requires r.clobbered || HistoryKept(r)
    ensures var p := PushAtomic(r, a);
            && p.repo == r.(refs := p.repo.refs, seen := p.repo.seen, clobbered := p.repo.clobbered)
            && r.seen <= p.repo.seen
            && (r.clobbered ==> p.repo.clobbered)
            && (p.repo.clobbered || (HistoryKept(p.repo) && Extends(r.refs, p.repo.refs)))
            && (p.ok && !p.repo.clobbered ==> Tip(p.repo.refs, r.target) == r.local)
  {
    var adv := Observe(r, a.before);
    var p := PushAtomic(r, a);
    if !r.clobbered {
      ObserveKeepsHistory(r, a.before);
      assert forall b :: b in adv.refs ==> adv.refs[b].Commit?;
      hide Moved, Within, Extends, HistoryKept;
      if a.session && ValidatePushState(adv).Send? {
        var v := ValidatePushState(adv);
        var now := Observe(adv, a.between);
        ObserveKeepsHistory(adv, a.between);
        ExtendsTransitive(r.refs, adv.refs, now.refs);
        if v.prev == Unborn && v.next == Unborn {
          assert r.target !in adv.refs;
        } else if !a.delivery.Dropped? && Tip(now.refs, now.target) == v.prev && !p.repo.clobbered {
          if v.prev.Commit? { WithinCommit(v.prev, v.next); }
          ReceiveKeeps(now, v.prev, v.next);
          ExtendsTransitive(r.refs, now.refs, p.repo.refs);
        }
      }
    }
  }

  lemma {:induction false} TightenShrinks(ws: seq<PendingWrite>, i: nat, policy: map<TargetKey, PolicyRead>)
    ensures TightenedQueue(TightenFrom(ws, i, policy).writes, ws)
    ensures forall k :: 0 <= k < |ws| ==> TightenFrom(ws, i, policy).writes[k].sha == ws[k].sha
    decreases |ws| - i
  {
    hide ReadPolicy, NoMoreRights, OrDefault, MoreRestrictiveOf;
    TightenedQueueReflexive(ws);
    if i < |ws| {
      if ws[i].write.target.None? {
        TightenShrinks(ws, i + 1, policy);
      } else {
        var t := ws[i].write.target.value;
        var read := ReadPolicy(policy, t.key);
        if !read.Unreadable? {
          var w := ws[i].(write := ws[i].write.(target := Some(TightenTarget(t, read))));
          var next := ws[i := w];
          TightenedTarget(ws, i, t, read);
          TightenShrinks(next, i + 1, policy);
          TightenedQueueTransitive(TightenFrom(next, i + 1, policy).writes, next, ws);
        }
      }
    }
  }

  lemma TightenedTarget(ws: seq<PendingWrite>, i: nat, t: ResolvedTarget, read: PolicyRead)
    requires i < |ws| && ws[i].write.target == Some(t) && !read.Unreadable?
    ensures TightenedQueue(ws[i := ws[i].(write := ws[i].write.(target := Some(TightenTarget(t, read))))], ws)
  {
  }

  lemma SameWritesTightened(a: seq<PendingWrite>, b: seq<PendingWrite>)
    requires SameWrites(a, b)
    ensures TightenedQueue(a, b)
  {
  }

  lemma ReplayRebuilds(r: Repo, ws: seq<PendingWrite>, a: Attempt)
    ensures var p := Replay(r, ws, a);
            && TightenedQueue(p.writes, ws)
            && p.repo == r.(local := p.repo.local, rootBranch := p.repo.rootBranch, rootHash := p.repo.rootHash, aborted := p.repo.aborted)
            && p.repo.aborted == !p.ok
            && (p.ok ==> Coherent(p.repo, p.writes))
            && (p.ok && Tip(r.refs, r.target) in r.seen ==> WasTip(p.repo, p.repo.rootHash))
  {
    var tip := Available(r).1;
    TightenShrinks(ws, 0, a.policy);
    var tight := TightenFrom(ws, 0, a.policy);
    if tight.ok {
      ExecuteBuilds(tip, tip, tight.writes, 0, a.failAt, a.stamp);
      var ex := ExecuteFrom(tip, tight.writes, 0, a.failAt, a.stamp);
      SameWritesTightened(ex.writes, tight.writes);
      TightenedQueueTransitive(ex.writes, tight.writes, ws);
    }
  }

  /** Whatever happens, the retained queue stays the same queue of the same writes, and no
      captured mode gains a deletion right. */
  lemma {:induction false} PushOnlyTightens(r: Repo, ws: seq<PendingWrite>, env: nat -> Attempt, i: nat)
    ensures TightenedQueue(PushFrom(r, ws, env, i).writes, ws)
    decreases MAX_RETRIES - i
  {
    hide PushOnce, TightenedQueue;
    TightenedQueueReflexive(ws);
    if i < MAX_RETRIES {
      PassOnlyTightens(r, ws, env(i));
      var pass := PushOnce(r, ws, env(i));
      if pass.Retry? {
        PushOnlyTightens(pass.repo, pass.writes, env, i + 1);
        TightenedQueueTransitive(PushFrom(pass.repo, pass.writes, env, i + 1).writes, pass.writes, ws);
      }
    }
  }

  lemma PassOnlyTightens(r: Repo, ws: seq<PendingWrite>, a: Attempt)
    ensures match PushOnce(r, ws, a)
            case Done(p) => TightenedQueue(p.writes, ws)
            case Retry(_, ws1) => TightenedQueue(ws1, ws)
  {
    TightenedQueueReflexive(ws);
    if !PushAtomic(r, a).ok {
      var synced := Observe(Observe(PushAtomic(r, a).repo, a.beforeFetch), a.beforeSync);
      ReplayRebuilds(synced, ws, a);
    }
  }

  /** What any part of the loop keeps of the remote and of the queue. */
  ghost predicate Progress(r: Repo, ws: seq<PendingWrite>, r1: Repo, ws1: seq<PendingWrite>) {
    // the queue is the same queue, under modes that only shrank
    && TightenedQueue(ws1, ws)
    && r1.target == r.target && r1.fallback == r.fallback
    && r.seen <= r1.seen
    && (r.clobbered ==> r1.clobbered)
    && (r.lost ==> r1.lost)
    // every commit that was on the remote is still there
    && (r1.clobbered || (HistoryKept(r1) && Extends(r.refs, r1.refs)))
  }

  lemma ProgressTransitive(r: Repo, ws: seq<PendingWrite>, r1: Repo, ws1: seq<PendingWrite>, r2: Repo, ws2: seq<PendingWrite>)
    requires Progress(r, ws, r1, ws1) && Progress(r1, ws1, r2, ws2)
    ensures Progress(r, ws, r2, ws2)
  {
    TightenedQueueTransitive(ws2, ws1, ws);
    if !r2.clobbered { ExtendsTransitive(r.refs, r1.refs, r2.refs); }
  }

  /** A tip the target branch had, or a commit of the default branch. */
  ghost predicate WasTip(r: Repo, h: History) {
    h in r.seen || Within(h, Tip(r.refs, r.fallback))
  }

  lemma WasTipStays(r: Repo, r1: Repo, h: History)
    requires WasTip(r, h) && r.seen <= r1.seen && r1.fallback == r.fallback && Extends(r.refs, r1.refs)
    ensures WasTip(r1, h)
  {
    if h !in r.seen {
      UnbornWithin(Tip(r1.refs, r1.fallback));
      WithinTransitive(h, Tip(r.refs, r.fallback), Tip(r1.refs, r1.fallback));
    }
  }

  /** What one call of the retry loop establishes, under any interleaving and any failures. */
  ghost predicate PushContract(r: Repo, ws: seq<PendingWrite>, p: Pushed) {
    && Progress(r, ws, p.repo, p.writes)
    && (p.repo.lost ==> r.lost || r.aborted)
    // success: the remote tip is the queue folded over the tip it was rebuilt on
    && (p.ok ==> !p.repo.aborted)
    && (p.ok && !p.repo.clobbered ==> Tip(p.repo.refs, r.target) == p.repo.local)
    && (p.ok && !p.repo.lost ==> Built(p.base, p.writes, |p.writes|, p.repo.local))
    && (p.ok && !p.repo.clobbered ==> p.base == r.rootHash || WasTip(p.repo, p.base))
    // failure: unless a replay aborted part-way, the recorded root is coherent again
    && (!p.ok ==> p.repo.aborted || Coherent(p.repo, p.writes))
  }

  lemma ObserveProgress(r: Repo, ws: seq<PendingWrite>, moves: seq<Move>)
    requires r.clobbered || HistoryKept(r)
    ensures Progress(r, ws, Observe(r, moves), ws)
  {
    TightenedQueueReflexive(ws);
    if !r.clobbered { ObserveKeepsHistory(r, moves); }
  }

  lemma PushOnceContract(r: Repo, ws: seq<PendingWrite>, a: Attempt)
    requires r.clobbered || HistoryKept(r)
    requires r.aborted || Coherent(r, ws)
    ensures match PushOnce(r, ws, a)
            case Done(p) => PushContract(r, ws, p)
            case Retry(r1, ws1) => Progress(r, ws, r1, ws1) && Coherent(r1, ws1) && !r1.aborted && r1.lost == r.lost
                                   && WasTip(r1, r1.rootHash)
  {
    TightenedQueueReflexive(ws);
    var p := PushAtomic(r, a);
    PushAtomicKeeps(r, a);
    if !p.ok {
      var fetched := Observe(p.repo, a.beforeFetch);
      var synced := Observe(fetched, a.beforeSync);
      ObserveProgress(p.repo, ws, a.beforeFetch);
      ProgressTransitive(r, ws, p.repo, ws, fetched, ws);
      ObserveProgress(fetched, ws, a.beforeSync);
      ProgressTransitive(r, ws, fetched, ws, synced, ws);
      ReplayRebuilds(synced, ws, a);
      var rebuilt := Replay(synced, ws, a);
      assert synced.clobbered || HistoryKept(rebuilt.repo);
    }
  }

  lemma ContractAfterRetry(r: Repo, ws: seq<PendingWrite>, r1: Repo, ws1: seq<PendingWrite>, p: Pushed)
    requires Progress(r, ws, r1, ws1) && !r1.aborted && r1.lost == r.lost && WasTip(r1, r1.rootHash)
    requires PushContract(r1, ws1, p)
    ensures PushContract(r, ws, p)
  {
    ProgressTransitive(r, ws, r1, ws1, p.repo, p.writes);
    if !p.repo.clobbered { WasTipStays(r1, p.repo, r1.rootHash); }
    hide WasTip, Built, HistoryKept, Extends;
  }

  lemma NoAttemptLeft(r: Repo, ws: seq<PendingWrite>)
    requires r.clobbered || HistoryKept(r)
    requires r.aborted || Coherent(r, ws)
    ensures PushContract(r, ws, Pushed(r, ws, false, r.rootHash))
  {
    TightenedQueueReflexive(ws);
    assert forall b :: b in r.refs ==> Within(r.refs[b], r.refs[b]);
  }

  /** A push refines a fold. From a coherent worker, whatever the other writers do and
      whatever fails: success leaves the remote tip equal to the tip the queue was last
      built on with every retained write applied in order; failure leaves the worker
      coherent with its recorded root, unless a replay aborted part-way; and, unless a
      push replaced a target branch it was not rooted on, no commit that was ever on the
      branch is lost. */
  lemma {:induction false} PushRefinesFold(r: Repo, ws: seq<PendingWrite>, env: nat -> Attempt, i: nat)
    requires r.clobbered || HistoryKept(r)
    requires r.aborted || Coherent(r, ws)
    ensures PushContract(r, ws, PushFrom(r, ws, env, i))
    decreases MAX_RETRIES - i
  {
    if i >= MAX_RETRIES {
      NoAttemptLeft(r, ws);
    } else {
      PushOnceContract(r, ws, env(i));
      var pass := PushOnce(r, ws, env(i));
      if pass.Retry? {
        PushRefinesFold(pass.repo, pass.writes, env, i + 1);
        ContractAfterRetry(r, ws, pass.repo, pass.writes, PushFrom(pass.repo, pass.writes, env, i + 1));
      }
    }
  }
}
