/** Commit histories, a remote that other writers extend, and the local execution of
    pending writes (internal/git/commit_executor.go, git.go, branch_worker.go).

    A commit stands for its own hash: two commits are equal exactly when their parents,
    trees and provenance are (hash collisions are not modelled). The zero hash is `Unborn`. */
module Repository {
  import opened Documents
  import opened Writes

  /** Who made a commit: another writer, or this worker from one pending write. */
  datatype Provenance = Foreign(id: nat) | Mirror(write: Write, stamp: int)

  datatype History = Unborn | Commit(parent: History, tree: Tree, made: Provenance)

  function TreeOf(h: History): Tree {
    if h.Commit? then h.tree else map[]
  }

  /** `c` is `h` or one of its ancestors. */
  predicate Within(c: History, h: History) {
    c == h || (h.Commit? && Within(c, h.parent))
  }

  lemma {:induction false} WithinTransitive(a: History, b: History, c: History)
    requires Within(a, b) && Within(b, c)
    ensures Within(a, c)
  {
    if b != c { WithinTransitive(a, b, c.parent); }
  }

  lemma {:induction false} UnbornWithin(h: History)
    ensures Within(Unborn, h)
  {
    if h.Commit? { UnbornWithin(h.parent); }
  }

  // ----------------------------------------------------------------- remotes

  /** The advertised branches of the remote. */
  type Refs = map<string, History>

  predicate Live(refs: Refs) {
    forall b :: b in refs ==> refs[b].Commit?
  }

  /** What the remote advertises for a branch; the zero hash when it has no such branch. */
  function Tip(refs: Refs, branch: string): History {
    if branch in refs then refs[branch] else Unborn
  }

  /** A commit another writer adds to a branch; `base` is where a new branch starts. */
  datatype Move = Move(branch: string, base: History, tree: Tree, id: nat)

  function Moved(refs: Refs, moves: seq<Move>): Refs {
    if moves == [] then refs
    else
      var before := Moved(refs, moves[..|moves| - 1]);
      var m := moves[|moves| - 1];
      var parent := if m.branch in before then before[m.branch] else m.base;
      before[m.branch := Commit(parent, m.tree, Foreign(m.id))]
  }

  /** No branch disappears and no branch loses a commit. */
  predicate Extends(before: Refs, after: Refs) {
    forall b :: b in before ==> b in after && Within(before[b], after[b])
  }

  lemma ExtendsTransitive(a: Refs, b: Refs, c: Refs)
    requires Extends(a, b) && Extends(b, c)
    ensures Extends(a, c)
  {
    forall x | x in a ensures x in c && Within(a[x], c[x]) {
      WithinTransitive(a[x], b[x], c[x]);
    }
  }

  lemma {:induction false} MovesExtend(refs: Refs, moves: seq<Move>)
    requires Live(refs)
    ensures Live(Moved(refs, moves)) && Extends(refs, Moved(refs, moves))
  {
    if moves != [] {
      var before := Moved(refs, moves[..|moves| - 1]);
      MovesExtend(refs, moves[..|moves| - 1]);
      assert Extends(before, Moved(refs, moves));
      ExtendsTransitive(refs, before, Moved(refs, moves));
    }
  }

  // ----------------------------------------------------------- pending writes

  /** A retained write: what it does, how large it is, and the commit it last produced. */
  datatype PendingWrite = PendingWrite(write: Write, byteSize: nat, sha: History)

  function WritesOf(ws: seq<PendingWrite>): seq<Write> {
    seq(|ws|, i requires 0 <= i < |ws| => ws[i].write)
  }

  /** The local head after one write: a new commit, or the same head when nothing changed. */
  function CommitWrite(local: History, w: Write, stamp: int): History {
    var t := ApplyWrite(TreeOf(local), w);
    if t == TreeOf(local) then local else Commit(local, t, Mirror(w, stamp))
  }

  /** The hash written back onto the pending write; a resync never records one. */
  function RecordedSha(before: History, after: History, w: Write): History {
    if w.kind.Resync? || after == before then Unborn else after
  }

  datatype Executed = Executed(local: History, writes: seq<PendingWrite>, ok: bool)

  /** Executes the writes from index `i` on, recording each hash; write `failAt` fails. */
  function ExecuteFrom(local: History, ws: seq<PendingWrite>, i: nat, failAt: Option<nat>, stamp: int): Executed
    decreases |ws| - i
  {
    if i >= |ws| then Executed(local, ws, true)
    else if failAt == Some(i) then Executed(local, ws, false)
    else
      var after := CommitWrite(local, ws[i].write, stamp);
      ExecuteFrom(after, ws[i := ws[i].(sha := RecordedSha(local, after, ws[i].write))], i + 1, failAt, stamp)
  }

  /** `local` is `root` plus exactly the commits of the first `n` writes, in order: each
      write either changed nothing and left no commit, or is the next commit. The recorded
      hash of a grouped write is that commit, or zero when there is none. */
  predicate Built(root: History, ws: seq<PendingWrite>, n: nat, local: History)
    requires n <= |ws|
  {
    if n == 0 then local == root
    else
      var w := ws[n - 1];
      || (&& ApplyWrite(TreeOf(local), w.write) == TreeOf(local)
          && w.sha == Unborn
          && Built(root, ws, n - 1, local))
      || (&& local.Commit?
          && local.tree == ApplyWrite(TreeOf(local.parent), w.write) != TreeOf(local.parent)
          && local.made.Mirror? && local.made.write == w.write
          && (w.sha == local || (w.sha == Unborn && !w.write.kind.Grouped?))
          && Built(root, ws, n - 1, local.parent))
  }

  /** Only the first `n` writes matter. */
  lemma {:induction false} BuiltAgrees(root: History, a: seq<PendingWrite>, b: seq<PendingWrite>, n: nat, local: History)
    requires n <= |a| && n <= |b| && forall i :: 0 <= i < n ==> a[i] == b[i]
    ensures Built(root, a, n, local) <==> Built(root, b, n, local)
  {
    hide ApplyWrite;
    if n > 0 {
      BuiltAgrees(root, a, b, n - 1, local);
      if local.Commit? { BuiltAgrees(root, a, b, n - 1, local.parent); }
    }
  }

  /** A built head is the fold of the writes over the root, and still contains the root. */
  lemma {:induction false} BuiltIsFold(root: History, ws: seq<PendingWrite>, n: nat, local: History)
    requires n <= |ws| && Built(root, ws, n, local)
    ensures TreeOf(local) == ApplyWrites(TreeOf(root), WritesOf(ws)[..n])
    ensures Within(root, local)
  {
    hide ApplyWrite;
    if n > 0 {
      var w := ws[n - 1];
      assert WritesOf(ws)[..n][..n - 1] == WritesOf(ws)[..n - 1];
      assert WritesOf(ws)[..n][n - 1] == w.write;
      if Built(root, ws, n - 1, local) && ApplyWrite(TreeOf(local), w.write) == TreeOf(local) {
        BuiltIsFold(root, ws, n - 1, local);
      } else {
        BuiltIsFold(root, ws, n - 1, local.parent);
      }
    }
  }

  /** Every recorded hash of a built head names a commit of its history, after the root, made
      from exactly that write. */
  lemma {:induction false} BuiltHashesAreReal(root: History, ws: seq<PendingWrite>, n: nat, local: History, i: int)
    requires n <= |ws| && Built(root, ws, n, local) && 0 <= i < n && ws[i].sha != Unborn
    ensures ws[i].sha.Commit? && Within(ws[i].sha, local) && Within(root, ws[i].sha.parent)
    ensures ws[i].sha.made.Mirror? && ws[i].sha.made.write == ws[i].write
  {
    hide ApplyWrite;
    var w := ws[n - 1];
    if Built(root, ws, n - 1, local) && ApplyWrite(TreeOf(local), w.write) == TreeOf(local) && w.sha == Unborn {
      BuiltHashesAreReal(root, ws, n - 1, local, i);
    } else if i < n - 1 {
      BuiltHashesAreReal(root, ws, n - 1, local.parent, i);
    } else {
      BuiltIsFold(root, ws, n - 1, local.parent);
    }
  }

  /** A grouped write of a built head has a recorded hash exactly when it changes the tree of
      the root with the writes before it. */
  lemma {:induction false} BuiltRecordsExactly(root: History, ws: seq<PendingWrite>, n: nat, local: History, i: int)
    requires n <= |ws| && Built(root, ws, n, local) && 0 <= i < n && ws[i].write.kind.Grouped?
    ensures var before := ApplyWrites(TreeOf(root), WritesOf(ws)[..i]);
            ws[i].sha != Unborn <==> ApplyWrite(before, ws[i].write) != before
  {
    hide ApplyWrite, ApplyWrites;
    var w := ws[n - 1];
    if Built(root, ws, n - 1, local) && ApplyWrite(TreeOf(local), w.write) == TreeOf(local) && w.sha == Unborn {
      BuiltIsFold(root, ws, n - 1, local);
      if i < n - 1 { BuiltRecordsExactly(root, ws, n - 1, local, i); }
    } else {
      BuiltIsFold(root, ws, n - 1, local.parent);
      if i < n - 1 { BuiltRecordsExactly(root, ws, n - 1, local.parent, i); }
    }
  }

  /** The same retained queue up to recorded hashes. */
  predicate SameWrites(a: seq<PendingWrite>, b: seq<PendingWrite>) {
    && |a| == |b|
    && forall i :: 0 <= i < |a| ==> a[i] == b[i].(sha := a[i].sha)
  }

  lemma ExecuteOneBuilds(root: History, ws: seq<PendingWrite>, i: nat, local: History, stamp: int)
    requires i < |ws| && Built(root, ws, i, local)
    ensures var after := CommitWrite(local, ws[i].write, stamp);
            var next := ws[i := ws[i].(sha := RecordedSha(local, after, ws[i].write))];
            Built(root, next, i + 1, after)
  {
    hide ApplyWrite;
    var after := CommitWrite(local, ws[i].write, stamp);
    var next := ws[i := ws[i].(sha := RecordedSha(local, after, ws[i].write))];
    BuiltAgrees(root, ws, next, i, local);
    assert next[i].write == ws[i].write;
  }

  /** A resync that is executed has no hash recorded. */
  lemma {:induction false} ResyncRecordsNone(local: History, ws: seq<PendingWrite>, i: nat, failAt: Option<nat>, stamp: int, k: nat)
    requires i <= k < |ws| && ws[k].write.kind.Resync? && (failAt.Some? ==> k < failAt.value)
    ensures var out := ExecuteFrom(local, ws, i, failAt, stamp).writes; |out| == |ws| && out[k].sha == Unborn
    decreases k - i
  {
    hide CommitWrite;
    var after := CommitWrite(local, ws[i].write, stamp);
    var next := ws[i := ws[i].(sha := RecordedSha(local, after, ws[i].write))];
    if i < k {
      ResyncRecordsNone(after, next, i + 1, failAt, stamp, k);
    } else {
      OthersAreLeft(after, next, i + 1, failAt, stamp, k);
    }
  }

  lemma {:induction false} OthersAreLeft(local: History, ws: seq<PendingWrite>, i: nat, failAt: Option<nat>, stamp: int, k: nat)
    requires k < i && k < |ws|
    ensures var out := ExecuteFrom(local, ws, i, failAt, stamp).writes; |out| == |ws| && out[k] == ws[k]
    decreases |ws| - i
  {
    hide CommitWrite, RecordedSha;
    if i < |ws| && failAt != Some(i) {
      var after := CommitWrite(local, ws[i].write, stamp);
      OthersAreLeft(after, ws[i := ws[i].(sha := RecordedSha(local, after, ws[i].write))], i + 1, failAt, stamp, k);
    }
  }

  /** Executing a queue extends a built head by the executed writes, in order; a failure
      keeps the prefix that was executed. */
  lemma {:induction false} ExecuteBuilds(root: History, local: History, ws: seq<PendingWrite>, i: nat, failAt: Option<nat>, stamp: int)
    requires i <= |ws| && Built(root, ws, i, local)
    ensures var r := ExecuteFrom(local, ws, i, failAt, stamp);
            && SameWrites(r.writes, ws)
            && (r.ok ==> Built(root, r.writes, |ws|, r.local))
            && (!r.ok ==> exists k :: i <= k < |ws| && Built(root, r.writes, k, r.local) && r.writes[k..] == ws[k..])
    decreases |ws| - i
  {
    hide ApplyWrite, CommitWrite, Built;
    if i < |ws| && failAt != Some(i) {
      var after := CommitWrite(local, ws[i].write, stamp);
      var next := ws[i := ws[i].(sha := RecordedSha(local, after, ws[i].write))];
      ExecuteOneBuilds(root, ws, i, local, stamp);
      ExecuteBuilds(root, after, next, i + 1, failAt, stamp);
      var r := ExecuteFrom(local, ws, i, failAt, stamp);
      if !r.ok {
        var k :| i + 1 <= k < |next| && Built(root, r.writes, k, r.local) && r.writes[k..] == next[k..];
        assert next[k..] == ws[k..];
      }
    }
  }
}
