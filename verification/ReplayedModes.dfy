/** Which deletion rights a retained write holds after its modes were tightened
    (internal/git/branch_worker.go, api/v1alpha3/prune_policy.go): exactly those it was captured
    with and every policy read for it since then grants. */
module ReplayedModes {
  import opened PrunePolicy
  import opened Documents
  import opened Writes
  import opened Repository
  import opened Push

  datatype Right = EventDeletes | OrphanSweeps

  predicate Grants(m: PruneMode, right: Right) {
    match right
    case EventDeletes => AppliesEventDeletes(OrDefault(m))
    case OrphanSweeps => SweepsOrphans(OrDefault(m))
  }

  /** What a policy read allows; without a target nothing authorises a deletion. */
  predicate Allows(read: PolicyRead, right: Right) {
    read.Found? && Grants(read.mode, right)
  }

  /** Whether a write's captured mode grants a right. */
  predicate Holds(w: PendingWrite, right: Right) {
    w.write.target.Some? && Grants(w.write.target.value.mode, right)
  }

  function ReadFor(policy: map<TargetKey, PolicyRead>, w: PendingWrite): PolicyRead
    requires w.write.target.Some?
  {
    ReadPolicy(policy, w.write.target.value.key)
  }

  lemma TightenedRight(t: ResolvedTarget, read: PolicyRead, right: Right)
    requires !read.Unreadable?
    ensures Grants(TightenTarget(t, read).mode, right) <==> Grants(t.mode, right) && Allows(read, right)
  {
  }

  // -------------------------------------------------------------- one pass

  /** The pass gets as far as write `k`: no policy it needs up to there is unreadable. */
  predicate Reaches(ws: seq<PendingWrite>, policy: map<TargetKey, PolicyRead>, i: nat, k: nat)
    requires k < |ws|
  {
    forall j :: i <= j <= k && ws[j].write.target.Some? ==> !ReadFor(policy, ws[j]).Unreadable?
  }

  /** One pass over the queue leaves a write with a right exactly when it had it and, if the pass
      got that far, the policy read for its target allows it. */
  lemma {:induction false} PassIsExact(ws: seq<PendingWrite>, i: nat, policy: map<TargetKey, PolicyRead>, k: nat, right: Right)
    requires k < |ws| && ws[k].write.target.Some?
    ensures var out := TightenFrom(ws, i, policy).writes;
            && |out| == |ws| && out[k].write.target.Some? && out[k].write.target.value.key == ws[k].write.target.value.key
            && (Holds(out[k], right) <==>
                Holds(ws[k], right) && (i <= k && Reaches(ws, policy, i, k) ==> Allows(ReadFor(policy, ws[k]), right)))
    decreases |ws| - i
  {
    hide Grants, Allows;
    if i < |ws| {
      if ws[i].write.target.None? {
        PassIsExact(ws, i + 1, policy, k, right);
      } else {
        var t := ws[i].write.target.value;
        var read := ReadPolicy(policy, t.key);
        if !read.Unreadable? {
          var next := ws[i := ws[i].(write := ws[i].write.(target := Some(TightenTarget(t, read))))];
          PassIsExact(next, i + 1, policy, k, right);
          TightenedRight(t, read, right);
          SameReach(ws, next, policy, i, k);
        }
      }
    }
  }

  lemma SameReach(ws: seq<PendingWrite>, next: seq<PendingWrite>, policy: map<TargetKey, PolicyRead>, i: nat, k: nat)
    requires k < |ws| == |next| && i < |ws| && ws[i].write.target.Some? && !ReadFor(policy, ws[i]).Unreadable?
    requires forall j :: 0 <= j < |ws| && j != i ==> next[j] == ws[j]
    ensures i <= k ==> (Reaches(next, policy, i + 1, k) <==> Reaches(ws, policy, i, k))
  {
  }

  /** The pass completes exactly when every policy it needs can be read. */
  lemma {:induction false} PassCompletesExactly(ws: seq<PendingWrite>, i: nat, policy: map<TargetKey, PolicyRead>)
    ensures TightenFrom(ws, i, policy).ok <==>
            forall j :: i <= j < |ws| && ws[j].write.target.Some? ==> !ReadFor(policy, ws[j]).Unreadable?
    decreases |ws| - i
  {
    if i < |ws| {
      if ws[i].write.target.None? {
        PassCompletesExactly(ws, i + 1, policy);
      } else {
        var t := ws[i].write.target.value;
        var read := ReadPolicy(policy, t.key);
        if read.Unreadable? {
          assert ReadFor(policy, ws[i]).Unreadable?;
        } else {
          var next := ws[i := ws[i].(write := ws[i].write.(target := Some(TightenTarget(t, read))))];
          assert forall j :: i < j < |ws| ==> next[j] == ws[j];
          PassCompletesExactly(next, i + 1, policy);
        }
      }
    }
  }

  // ------------------------------------------------------------- one replay

  /** Replaying leaves the modes as the pass left them. */
  lemma ReplayIsExact(r: Repo, ws: seq<PendingWrite>, a: Attempt, k: nat, right: Right)
    requires k < |ws| && ws[k].write.target.Some?
    ensures var p := Replay(r, ws, a);
            && |p.writes| == |ws| && p.writes[k].write.target.Some?
            && p.writes[k].write.target.value.key == ws[k].write.target.value.key
            && (Holds(p.writes[k], right) <==> Holds(ws[k], right) && (Reaches(ws, a.policy, 0, k) ==> Allows(ReadFor(a.policy, ws[k]), right)))
            && (p.ok ==> Reaches(ws, a.policy, 0, k))
  {
    PassIsExact(ws, 0, a.policy, k, right);
    PassCompletesExactly(ws, 0, a.policy);
    var tight := TightenFrom(ws, 0, a.policy);
    var tip := Available(r).1;
    ExecuteKeepsWrites(tip, tight.writes, 0, a.failAt, a.stamp, k);
    hide TightenFrom, ExecuteFrom, Available;
  }

  lemma {:induction false} ExecuteKeepsWrites(local: History, ws: seq<PendingWrite>, i: nat, failAt: Option<nat>, stamp: int, k: nat)
    requires k < |ws|
    ensures var out := ExecuteFrom(local, ws, i, failAt, stamp).writes; |out| == |ws| && out[k].write == ws[k].write
    decreases |ws| - i
  {
    hide CommitWrite, RecordedSha;
    if i < |ws| && failAt != Some(i) {
      var after := CommitWrite(local, ws[i].write, stamp);
      ExecuteKeepsWrites(after, ws[i := ws[i].(sha := RecordedSha(local, after, ws[i].write))], i + 1, failAt, stamp, k);
    }
  }

  /** After a completed replay every retained write holds exactly the rights that its captured mode
      and the current policy both grant; a target that is gone grants none. */
  lemma CompletedReplayIsExact(r: Repo, ws: seq<PendingWrite>, a: Attempt, k: nat, right: Right)
    requires k < |ws| && ws[k].write.target.Some? && Replay(r, ws, a).ok
    ensures |Replay(r, ws, a).writes| == |ws|
    ensures Holds(Replay(r, ws, a).writes[k], right) <==> Holds(ws[k], right) && Allows(ReadFor(a.policy, ws[k]), right)
  {
    ReplayIsExact(r, ws, a, k, right);
  }

  // ------------------------------------------------------------- a push call

  /** The attempt fails in a way that makes the worker replay its queue. */
  predicate Rebuilds(r: Repo, a: Attempt) {
    var p := PushAtomic(r, a);
    var fetched := Observe(p.repo, a.beforeFetch);
    !p.ok && a.fetched && Tip(fetched.refs, RootBranch(r)) != r.rootHash && a.synced
  }

  type Policies = map<TargetKey, PolicyRead>

  /** The policies that the replays of a push call read, in order. */
  function PoliciesRead(r: Repo, ws: seq<PendingWrite>, env: nat -> Attempt, i: nat): seq<Policies>
    decreases MAX_RETRIES - i
  {
    if i >= MAX_RETRIES || !Rebuilds(r, env(i)) then []
    else
      match PushOnce(r, ws, env(i))
      case Done(_) => [env(i).policy]
      case Retry(r1, ws1) => [env(i).policy] + PoliciesRead(r1, ws1, env, i + 1)
  }

  /** Every policy that a replay came to read for a write allows the right. */
  predicate AllAllow(policies: seq<Policies>, ws: seq<PendingWrite>, k: nat, right: Right)
    requires k < |ws| && ws[k].write.target.Some?
  {
    forall j :: 0 <= j < |policies| && Reaches(ws, policies[j], 0, k) ==> Allows(ReadFor(policies[j], ws[k]), right)
  }

  /** The writes name the same targets. */
  predicate SameTargets(a: seq<PendingWrite>, b: seq<PendingWrite>) {
    && |a| == |b|
    && forall j :: 0 <= j < |a| ==>
         && (a[j].write.target.Some? <==> b[j].write.target.Some?)
         && (a[j].write.target.Some? ==> a[j].write.target.value.key == b[j].write.target.value.key)
  }

  lemma TightenedSameTargets(a: seq<PendingWrite>, b: seq<PendingWrite>)
    requires TightenedQueue(a, b)
    ensures SameTargets(a, b)
  {
  }

  lemma AllAllowAgrees(policies: seq<Policies>, a: seq<PendingWrite>, b: seq<PendingWrite>, k: nat, right: Right)
    requires SameTargets(a, b) && k < |a| && a[k].write.target.Some?
    ensures AllAllow(policies, a, k, right) <==> AllAllow(policies, b, k, right)
  {
    forall j | 0 <= j < |policies| ensures Reaches(a, policies[j], 0, k) <==> Reaches(b, policies[j], 0, k) {}
  }

  lemma OnePass(r: Repo, ws: seq<PendingWrite>, a: Attempt, k: nat, right: Right)
    requires k < |ws| && ws[k].write.target.Some?
    ensures var out := match PushOnce(r, ws, a) case Done(p) => p.writes case Retry(_, ws1) => ws1;
            && |out| == |ws|
            && (Holds(out[k], right) <==> Holds(ws[k], right) && AllAllow(if Rebuilds(r, a) then [a.policy] else [], ws, k, right))
    ensures PushOnce(r, ws, a).Retry? ==> Rebuilds(r, a)
  {
    if Rebuilds(r, a) {
      var synced := Observe(Observe(PushAtomic(r, a).repo, a.beforeFetch), a.beforeSync);
      ReplayIsExact(synced, ws, a, k, right);
      assert [a.policy][0] == a.policy;
    }
    hide Replay, PushAtomic, Observe, Reaches;
  }

  /** Over all retries of a push call, a retained write is left with a right exactly when its
      captured mode grants it and so does every policy that a replay came to read for it. */
  lemma {:induction false} ModesAreExact(r: Repo, ws: seq<PendingWrite>, env: nat -> Attempt, i: nat, k: nat, right: Right)
    requires k < |ws| && ws[k].write.target.Some?
    ensures |PushFrom(r, ws, env, i).writes| == |ws|
    ensures Holds(PushFrom(r, ws, env, i).writes[k], right) <==>
            Holds(ws[k], right) && AllAllow(PoliciesRead(r, ws, env, i), ws, k, right)
    decreases MAX_RETRIES - i
  {
    hide PushOnce, Rebuilds, Holds, TightenedQueue;
    if i < MAX_RETRIES {
      OnePass(r, ws, env(i), k, right);
      var pass := PushOnce(r, ws, env(i));
      if pass.Retry? {
        PassOnlyTightens(r, ws, env(i));
        TightenedSameTargets(pass.writes, ws);
        ModesAreExact(pass.repo, pass.writes, env, i + 1, k, right);
        AllAllowAgrees(PoliciesRead(pass.repo, pass.writes, env, i + 1), pass.writes, ws, k, right);
        AllAllowSplits(env(i).policy, PoliciesRead(pass.repo, pass.writes, env, i + 1), ws, k, right);
      }
    }
  }

  lemma AllAllowSplits(first: Policies, rest: seq<Policies>, ws: seq<PendingWrite>, k: nat, right: Right)
    requires k < |ws| && ws[k].write.target.Some?
    ensures AllAllow([first] + rest, ws, k, right) <==> AllAllow([first], ws, k, right) && AllAllow(rest, ws, k, right)
  {
    var all := [first] + rest;
    assert all[0] == first && forall j :: 0 <= j < |rest| ==> all[j + 1] == rest[j];
    if AllAllow([first], ws, k, right) && AllAllow(rest, ws, k, right) {
      forall j | 0 <= j < |all| && Reaches(ws, all[j], 0, k) ensures Allows(ReadFor(all[j], ws[k]), right) {
        assert all[j] == if j == 0 then [first][0] else rest[j - 1];
      }
    }
    if AllAllow(all, ws, k, right) {
      assert [first][0] == all[0];
    }
  }
}
