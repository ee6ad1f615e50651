/** The worker object that owns the local repository and talks to the remote
    (internal/git/branch_worker.go, commit_executor.go, git_atomic_push.go). */
module BranchWorkers {
  import opened PrunePolicy
  import opened Documents
  import opened Writes
  import opened Repository
  import P = Push
  import opened Push

  /** The queue with one captured target tightened. */
  function TightenedAt(ws: seq<PendingWrite>, i: nat, t: ResolvedTarget, read: PolicyRead): seq<PendingWrite>
    requires i < |ws|
  {
    ws[i := ws[i].(write := ws[i].write.(target := Some(TightenTarget(t, read))))]
  }

  lemma TightenStep(ws: seq<PendingWrite>, i: nat, policy: map<TargetKey, PolicyRead>)
    requires i < |ws| && ws[i].write.target.Some?
    requires !ReadPolicy(policy, ws[i].write.target.value.key).Unreadable?
    ensures var t := ws[i].write.target.value;
            TightenFrom(ws, i, policy) == TightenFrom(TightenedAt(ws, i, t, ReadPolicy(policy, t.key)), i + 1, policy)
  {
  }

  class BranchWorker {
    const target: string
    const fallback: string
    var local: History
    var pushCycleRootBranch: string
    var pushCycleRootHash: History
    var remote: Refs
    ghost var seen: set<History>
    ghost var aborted: bool
    ghost var lost: bool
    ghost var clobbered: bool

    ghost function View(): Repo
      reads this
    {
      Repo(target, fallback, local, pushCycleRootBranch, pushCycleRootHash, remote, seen, aborted, lost, clobbered)
    }

    constructor (target: string, fallback: string, remote: Refs)
      ensures View() == Repo(target, fallback, Unborn, "", Unborn, remote, {Tip(remote, target)}, false, false, false)
    {
      this.target, this.fallback, this.remote := target, fallback, remote;
      local, pushCycleRootBranch, pushCycleRootHash := Unborn, "", Unborn;
      seen, aborted, lost, clobbered := {Tip(remote, target)}, false, false, false;
    }

    /** Other writers reach the remote first. */
    method OthersMove(moves: seq<Move>)
      modifies this
      ensures View() == Observe(old(View()), moves)
    {
      for i := 0 to |moves|
        invariant View() == old(View()).(refs := Moved(old(remote), moves[..i]), seen := old(seen))
      {
        assert moves[..i + 1][..i] == moves[..i];
        var m := moves[i];
        var parent := if m.branch in remote then remote[m.branch] else m.base;
        remote := remote[m.branch := Commit(parent, m.tree, Foreign(m.id))];
      }
      assert moves[..|moves|] == moves;
      seen := seen + {Tip(remote, target)};
    }

    /** One push in one session: validate against the advertised references, then send. */
    method PushAtomic(a: Attempt) returns (ok: bool)
      modifies this
      ensures View() == P.PushAtomic(old(View()), a).repo && ok == P.PushAtomic(old(View()), a).ok
    {
      hide Moved, Within;
      OthersMove(a.before);
      if !a.session { return false; }
      var root := if pushCycleRootBranch == "" then target else pushCycleRootBranch;
      if root !in remote && pushCycleRootHash != Unborn { return false; }
      var prev := Unborn;
      if target in remote {
        prev := remote[target];
        if local == prev { return true; }
        if pushCycleRootHash != Tip(remote, root) { return false; }
      }
      if prev == Unborn && local == Unborn { return true; }
      OthersMove(a.between);
      if a.delivery.Dropped? || Tip(remote, target) != prev { return false; }
      remote := remote[target := local];
      seen, clobbered := seen + {local}, clobbered || !Within(prev, local);
      ok := a.delivery.Delivered?;
    }

    /** Creates the commits of the writes in order, recording each hash on its write. */
    method ExecutePendingWrites(ws: seq<PendingWrite>, failAt: Option<nat>, stamp: int)
      returns (out: seq<PendingWrite>, ok: bool)
      modifies this
      ensures var e := ExecuteFrom(old(local), ws, 0, failAt, stamp);
              View() == old(View()).(local := e.local) && out == e.writes && ok == e.ok
    {
      hide ApplyWrite;
      out, ok := ws, true;
      var i := 0;
      while i < |ws|
        invariant 0 <= i <= |out| == |ws|
        invariant View() == old(View()).(local := local)
        invariant ExecuteFrom(local, out, i, failAt, stamp) == ExecuteFrom(old(local), ws, 0, failAt, stamp)
      {
        if failAt == Some(i) {
          return out, false;
        }
        var before := local;
        var t := ApplyWrite(TreeOf(local), out[i].write);
        if t != TreeOf(local) {
          local := Commit(local, t, Mirror(out[i].write, stamp));
        }
        assert local == CommitWrite(before, out[i].write, stamp);
        out := out[i := out[i].(sha := RecordedSha(before, local, out[i].write))];
        i := i + 1;
      }
    }

    /** Lowers every captured mode to the stricter of captured and current. The policy of a
        target is read once and remembered. */
    method TightenPendingPruneModes(ws: seq<PendingWrite>, policy: map<TargetKey, PolicyRead>)
      returns (out: seq<PendingWrite>, ok: bool)
      ensures var t := TightenFrom(ws, 0, policy); out == t.writes && ok == t.ok
    {
      hide MoreRestrictiveOf;
      out, ok := ws, true;
      var current: map<TargetKey, PruneMode> := map[];
      var i := 0;
      while i < |ws|
        invariant 0 <= i <= |out| == |ws|
        invariant TightenFrom(out, i, policy) == TightenFrom(ws, 0, policy)
        invariant forall k :: k in current ==>
                    var read := ReadPolicy(policy, k);
                    !read.Unreadable? && current[k] == if read.Found? then OrDefault(read.mode) else NEVER
      {
        if out[i].write.target.Some? {
          var t := out[i].write.target.value;
          if t.key !in current {
            var read := ReadPolicy(policy, t.key);
            if read.Unreadable? {
              return out, false;
            }
            current := current[t.key := if read.Found? then OrDefault(read.mode) else NEVER];
          }
          var tightened := MoreRestrictiveOf(t.mode, current[t.key]);
          ghost var next := TightenedAt(out, i, t, ReadPolicy(policy, t.key));
          TightenStep(out, i, policy);
          if tightened != OrDefault(t.mode) {
            out := out[i := out[i].(write := out[i].write.(target := Some(t.(mode := tightened))))];
          }
          assert out == next;
        }
        i := i + 1;
      }
    }

    /** Checks out the best available branch and returns it with its tip. */
    method SyncToRemote() returns (branch: string, tip: History)
      modifies this`local
      ensures (branch, tip) == Available(old(View())) && local == tip
    {
      if target in remote {
        branch, tip := target, remote[target];
      } else if fallback in remote {
        branch, tip := fallback, remote[fallback];
      } else {
        branch, tip := target, Unborn;
      }
      local := tip;
    }

    /** Rebuilds the queue on the remote tip. */
    method RebuildPendingWrites(ws: seq<PendingWrite>, a: Attempt) returns (out: seq<PendingWrite>, ok: bool)
      modifies this
      ensures var p := Replay(old(View()), ws, a);
              View() == p.repo && out == p.writes && ok == p.ok
    {
      var branch, tip := SyncToRemote();
      out, ok := TightenPendingPruneModes(ws, a.policy);
      if !ok {
        aborted := true;
        return;
      }
      out, ok := ExecutePendingWrites(out, a.failAt, a.stamp);
      if !ok {
        aborted := true;
        return;
      }
      pushCycleRootBranch, pushCycleRootHash, aborted := branch, tip, false;
    }

    /** One pass of the retry loop: `done` ends the call with `ok`, otherwise the queue was
        rebuilt and is to be pushed again. */
    method PushOrRebuild(ws: seq<PendingWrite>, a: Attempt) returns (out: seq<PendingWrite>, done: bool, ok: bool)
      modifies this
      ensures match PushOnce(old(View()), ws, a)
              case Done(p) => done && View() == p.repo && out == p.writes && ok == p.ok
              case Retry(repo, writes) => !done && View() == repo && out == writes && !ok
    {
      hide P.PushAtomic, Observe, Replay;
      var root := if pushCycleRootBranch == "" then target else pushCycleRootBranch;
      var rootHash := pushCycleRootHash;
      out, done := ws, true;
      ok := PushAtomic(a);
      if ok {
        pushCycleRootBranch, pushCycleRootHash := "", Unborn;
        lost, aborted := old(lost) || old(aborted), false;
        return;
      }
      OthersMove(a.beforeFetch);
      if !a.fetched || Tip(remote, root) == rootHash {
        return;
      }
      OthersMove(a.beforeSync);
      if !a.synced {
        return;
      }
      out, done := RebuildPendingWrites(out, a);
      done := !done;
    }

    /** Pushes the local commits; on a conflict rebuilds the queue on the remote tip and
        tries again, a bounded number of times. */
    method PushPendingCommits(ws: seq<PendingWrite>, env: nat -> Attempt)
      returns (out: seq<PendingWrite>, ok: bool)
      modifies this
      ensures var p := PushFrom(old(View()), ws, env, 0);
              View() == p.repo && out == p.writes && ok == p.ok
    {
      hide PushOnce;
      out, ok := ws, false;
      var i: nat := 0;
      while i < MAX_RETRIES
        invariant i <= MAX_RETRIES && !ok
        invariant PushFrom(View(), out, env, i) == PushFrom(old(View()), ws, env, 0)
        decreases MAX_RETRIES - i
      {
        var done;
        out, done, ok := PushOrRebuild(out, env(i));
        if done {
          return;
        }
        i := i + 1;
      }
    }
  }
}
