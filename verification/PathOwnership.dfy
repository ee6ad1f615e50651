/** One owner per folder (internal/controller/gittarget_path_overlap.go, the conflict check of
    internal/controller/gittarget_controller.go, and the writer's sanitizePath in
    internal/git/git.go). */
module PathOwnership {
  import opened PrunePolicy
  import opened Documents
  import opened Ordering
  import opened Paths

  // ------------------------------------------------------------- the writer's base

  function TrimSlashesLeft(s: string): string {
    if s != "" && s[0] == '/' then TrimSlashesLeft(s[1..]) else s
  }

  function TrimSlashesRight(s: string): string {
    if s != "" && s[|s| - 1] == '/' then TrimSlashesRight(s[..|s| - 1]) else s
  }

  /** The folder the writer puts a target's files in, "" being the repository root. */
  function SanitizePath(base: string): string {
    var trimmed := TrimSpace(base);
    if trimmed == "" || HasPrefix(trimmed, "/") || '\\' in trimmed || Contains(trimmed, "..") then ""
    else
      var cleaned := TrimSlashesRight(TrimSlashesLeft(Clean(trimmed)));
      if cleaned == "" || cleaned == "." then "" else cleaned
  }

  predicate IsValidTargetPath(p: string) {
    var trimmed := TrimSpace(p);
    trimmed == "" || trimmed == "." || SanitizePath(trimmed) != ""
  }

  // ---------------------------------------------------------- the overlap check

  function Normalize(p: string): string {
    Clean("/" + TrimSpace(p))
  }

  predicate IsAncestor(ancestor: string, descendant: string) {
    if ancestor == descendant then false
    else if ancestor == "/" then true
    else HasPrefix(descendant, ancestor + "/")
  }

  predicate PathsOverlap(a: string, b: string) {
    var na := Normalize(a);
    var nb := Normalize(b);
    na == nb || IsAncestor(na, nb) || IsAncestor(nb, na)
  }

  // --------------------------------------------------------- the two agree

  lemma {:induction false} TrimRightTwice(s: string)
    ensures TrimRight(TrimRight(s)) == TrimRight(s)
  {
    if s != "" && IsSpace(s[|s| - 1]) { TrimRightTwice(s[..|s| - 1]); }
  }

  lemma {:induction false} TrimRightKeepsHead(s: string)
    requires s == "" || !IsSpace(s[0])
    ensures TrimRight(s) == "" || !IsSpace(TrimRight(s)[0])
  {
    if s != "" && IsSpace(s[|s| - 1]) {
      assert s[..|s| - 1] == "" || s[..|s| - 1][0] == s[0];
      TrimRightKeepsHead(s[..|s| - 1]);
    }
  }

  lemma {:induction false} TrimLeftTrims(s: string)
    ensures TrimLeft(s) == "" || !IsSpace(TrimLeft(s)[0])
  {
    if s != "" && IsSpace(s[0]) { TrimLeftTrims(s[1..]); }
  }

  lemma TrimTwice(s: string)
    ensures TrimSpace(TrimSpace(s)) == TrimSpace(s)
  {
    TrimLeftTrims(s);
    TrimRightKeepsHead(TrimLeft(s));
    TrimRightTwice(TrimLeft(s));
  }

  lemma {:induction false} SegmentIsSubstring(s: string, k: nat) returns (i: nat)
    requires k < |Split(s)|
    ensures i <= |s| && Split(s)[k] <= s[i..]
    ensures k == 0 ==> i == 0
  {
    i := 0;
    if s != "" {
      var rest := Split(s[1..]);
      if s[0] == '/' {
        if k > 0 {
          var j := SegmentIsSubstring(s[1..], k - 1);
          i := j + 1;
          assert s[1..][j..] == s[i..];
        }
      } else {
        var j := SegmentIsSubstring(s[1..], k);
        if k > 0 {
          i := j + 1;
          assert s[1..][j..] == s[i..];
        } else {
          assert s == [s[0]] + s[1..];
        }
      }
    }
  }

  lemma NoDotsNoClimb(s: string)
    requires !Contains(s, "..")
    ensures ".." !in Split(s)
  {
    if ".." in Split(s) {
      var k :| 0 <= k < |Split(s)| && Split(s)[k] == "..";
      var i := SegmentIsSubstring(s, k);
    }
  }

  lemma {:induction false} WalkIsTheSame(out: seq<string>, segs: seq<string>)
    requires ".." !in segs
    ensures Walk(out, segs, true) == Walk(out, segs, false)
    decreases |segs|
  {
    if segs != [] { WalkIsTheSame(Resolve(out, segs[0], false), segs[1..]); }
  }

  lemma {:induction false} WalkStaysInside(out: seq<string>, segs: seq<string>)
    requires Names(out) && ".." !in segs && forall i :: 0 <= i < |segs| ==> '/' !in segs[i]
    ensures Names(Walk(out, segs, false))
    decreases |segs|
  {
    if segs != [] { WalkStaysInside(Resolve(out, segs[0], false), segs[1..]); }
  }

  lemma {:induction false} JoinEndsPlain(segs: seq<string>)
    requires segs != [] && Names(segs)
    ensures Join(segs) != "" && Join(segs)[|Join(segs)| - 1] != '/'
  {
    if |segs| == 1 {
      assert segs[0][|segs[0]| - 1] in segs[0];
    } else {
      JoinEndsPlain(segs[1..]);
    }
  }

  /** A path with nothing unsafe in it: both the writer and the overlap check read its names. */
  lemma ReadsTheSame(trimmed: string)
    requires trimmed != "" && trimmed[0] != '/' && '\\' !in trimmed && !Contains(trimmed, "..") && TrimSpace(trimmed) == trimmed
    ensures var names := Walk([], Split(trimmed), false);
            && Names(names) && SanitizePath(trimmed) == Join(names) && Clean("/" + trimmed) == "/" + Join(names)
  {
    var names := Walk([], Split(trimmed), false);
    NoDotsNoClimb(trimmed);
    WalkStaysInside([], Split(trimmed));
    WalkIsTheSame([], Split(trimmed));
    var rooted := "/" + trimmed;
    assert rooted[1..] == trimmed;
    assert Split(rooted) == [""] + Split(trimmed) && Split(rooted)[1..] == Split(trimmed);
    if names == [] {
      assert Clean(trimmed) == ".";
    } else {
      JoinEndsPlain(names);
      JoinIsRelative(names);
      SplitOfJoin(names);
      if Join(names) == "." { SplitOfSegment("."); }
    }
  }

  /** For every valid path the overlap check compares exactly the folder the writer writes. */
  lemma NormalizeAgreesWithWriter(p: string)
    requires IsValidTargetPath(p)
    ensures Inside(SanitizePath(p)) && Normalize(p) == "/" + SanitizePath(p)
  {
    var trimmed := TrimSpace(p);
    TrimTwice(p);
    if trimmed == "" {
      assert "/" + trimmed == "/" && "/"[1..] == "";
      assert Split("/") == ["", ""] && Walk([], ["", ""], true) == [] by {
        assert ["", ""][1..] == [""] && [""][1..] == [];
      }
    } else {
      assert SanitizePath(p) == SanitizePath(trimmed);
      if trimmed == "." { assert !Contains(".", ".."); }
      ReadsTheSame(trimmed);
      var names := Walk([], Split(trimmed), false);
      if names != [] { SplitOfJoin(names); JoinIsRelative(names); }
    }
  }

  /** A path is valid if and only if it is empty or a dot, or relative, without backslashes and
      double dots, and names a folder. */
  lemma ValidPathExactly(p: string)
    ensures var t := TrimSpace(p);
            IsValidTargetPath(p) <==>
            || t == "" || t == "."
            || (t[0] != '/' && '\\' !in t && !Contains(t, "..") && Walk([], Split(t), false) != [])
  {
    var t := TrimSpace(p);
    TrimTwice(p);
    if t != "" && t[0] != '/' && '\\' !in t && !Contains(t, "..") {
      ReadsTheSame(t);
      var names := Walk([], Split(t), false);
      if names != [] { JoinIsRelative(names); }
    }
  }

  /** Any other path is written at the root without taking part in the conflict check. */
  lemma InvalidPathWritesAtRoot(p: string)
    requires !IsValidTargetPath(p)
    ensures SanitizePath(p) == ""
  {
    TrimTwice(p);
  }

  /** Two folders share a place exactly when one contains the other. */
  lemma SharedSubtree(a: string, b: string)
    ensures (exists q :: Segs(a) <= Segs(q) && Segs(b) <= Segs(q)) <==> Segs(a) <= Segs(b) || Segs(b) <= Segs(a)
  {
    if exists q :: Segs(a) <= Segs(q) && Segs(b) <= Segs(q) {
      var q :| Segs(a) <= Segs(q) && Segs(b) <= Segs(q);
      PrefixesCompare(Segs(a), Segs(b), Segs(q));
    }
    if Segs(a) <= Segs(b) { assert Segs(a) <= Segs(b) && Segs(b) <= Segs(b); }
    if Segs(b) <= Segs(a) { assert Segs(a) <= Segs(a) && Segs(b) <= Segs(a); }
  }

  lemma PrefixesCompare(a: seq<string>, b: seq<string>, q: seq<string>)
    requires a <= q && b <= q
    ensures a <= b || b <= a
  {
    if |a| <= |b| { assert a == b[..|a|]; } else { assert b == a[..|b|]; }
  }

  lemma AncestorIsPrefix(a: string, b: string)
    requires a != b
    ensures IsAncestor("/" + a, "/" + b) <==> Segs(a) <= Segs(b)
  {
    WithinIsSegmentPrefix(b, a);
    var x := "/" + a;
    var y := "/" + b;
    assert x[1..] == a && y[1..] == b;
    if a != "" {
      if HasPrefix(y, x + "/") { assert b[..|a| + 1] == y[1..|a| + 2] == (x + "/")[1..] == a + "/"; }
      if HasPrefix(b, a + "/") { assert y[..|a| + 2] == x + "/"; }
    }
  }

  /** The overlap check decides whether two valid targets' subtrees have a place in common. */
  lemma OverlapIsSharedSubtree(p: string, q: string)
    requires IsValidTargetPath(p) && IsValidTargetPath(q)
    ensures PathsOverlap(p, q) <==>
            exists place :: Segs(SanitizePath(p)) <= Segs(place) && Segs(SanitizePath(q)) <= Segs(place)
  {
    NormalizeAgreesWithWriter(p);
    NormalizeAgreesWithWriter(q);
    hide IsValidTargetPath, SanitizePath, Normalize;
    var a := SanitizePath(p);
    var b := SanitizePath(q);
    SharedSubtree(a, b);
    if a == b {
    } else {
      AncestorIsPrefix(a, b);
      AncestorIsPrefix(b, a);
      assert Normalize(p)[1..] == a && Normalize(q)[1..] == b;
    }
  }

  // ------------------------------------------------------------- the conflict rule

  datatype GitTarget = GitTarget(namespace: string, name: string, provider: string, branch: string, path: string, created: int)

  function IdentityKey(t: GitTarget): string {
    t.namespace + "/" + t.name
  }

  predicate LosesConflict(target: GitTarget, existing: GitTarget) {
    target.created > existing.created
    || (target.created == existing.created && Less(IdentityKey(existing), IdentityKey(target)))
  }

  predicate SameObject(a: GitTarget, b: GitTarget) {
    a.namespace == b.namespace && a.name == b.name
  }

  /** The two write the same branch through the same provider. */
  predicate Neighbours(a: GitTarget, b: GitTarget) {
    a.namespace == b.namespace && a.provider == b.provider && a.branch == b.branch
  }

  predicate BlockedBy(target: GitTarget, existing: GitTarget) {
    && !SameObject(target, existing) && Neighbours(target, existing)
    && IsValidTargetPath(existing.path) && PathsOverlap(target.path, existing.path)
    && LosesConflict(target, existing)
  }

  /** The check on a listing of all targets. */
  predicate Passes(target: GitTarget, all: seq<GitTarget>) {
    !IsValidTargetPath(target.path) || forall i :: 0 <= i < |all| ==> !BlockedBy(target, all[i])
  }

  predicate FirstBlocker(target: GitTarget, all: seq<GitTarget>, i: int)
    requires 0 <= i < |all|
  {
    BlockedBy(target, all[i]) && forall j :: 0 <= j < i ==> !BlockedBy(target, all[j])
  }

  /** The search of the reconciler: the first target in the listing that blocks this one. */
  method CheckForConflicts(target: GitTarget, all: seq<GitTarget>) returns (blocker: Option<GitTarget>)
    ensures blocker.None? <==> Passes(target, all)
    ensures blocker.Some? ==> exists i :: 0 <= i < |all| && blocker == Some(all[i]) && FirstBlocker(target, all, i)
  {
    hide IsValidTargetPath, PathsOverlap, LosesConflict;
    if !IsValidTargetPath(target.path) {
      return None;
    }
    for i := 0 to |all|
      invariant forall j :: 0 <= j < i ==> !BlockedBy(target, all[j])
    {
      var existing := all[i];
      if SameObject(existing, target) {
        continue;
      }
      if existing.namespace != target.namespace || existing.provider != target.provider {
        continue;
      }
      if existing.branch != target.branch || !IsValidTargetPath(existing.path) || !PathsOverlap(target.path, existing.path) {
        continue;
      }
      if LosesConflict(target, existing) {
        assert FirstBlocker(target, all, i);
        return Some(existing);
      }
    }
    return None;
  }

  /** Losing is a strict total order on the targets of one namespace. */
  lemma OneLoses(a: GitTarget, b: GitTarget)
    requires a.namespace == b.namespace
    ensures SameObject(a, b) || LosesConflict(a, b) || LosesConflict(b, a)
  {
    LessIsTotal(IdentityKey(a), IdentityKey(b));
    if IdentityKey(a) == IdentityKey(b) {
      assert a.name == IdentityKey(a)[|a.namespace| + 1..];
      assert b.name == IdentityKey(b)[|b.namespace| + 1..];
    }
  }

  lemma NoneLosesToItself(a: GitTarget)
    ensures !LosesConflict(a, a)
  {
    LessIsStrict(IdentityKey(a));
  }

  lemma LosingIsTransitive(a: GitTarget, b: GitTarget, c: GitTarget)
    requires LosesConflict(a, b) && LosesConflict(b, c)
    ensures LosesConflict(a, c)
  {
    if a.created == b.created == c.created {
      LessIsTransitive(IdentityKey(c), IdentityKey(b), IdentityKey(a));
    }
  }

  /** On any snapshot, two valid-path targets of one provider and branch that both pass own
      disjoint subtrees: no place lies in the folders the writer writes for both. */
  lemma PassingTargetsAreDisjoint(all: seq<GitTarget>, a: GitTarget, b: GitTarget, place: string)
    requires a in all && b in all && !SameObject(a, b) && Neighbours(a, b)
    requires IsValidTargetPath(a.path) && IsValidTargetPath(b.path) && Passes(a, all) && Passes(b, all)
    ensures !(Segs(SanitizePath(a.path)) <= Segs(place) && Segs(SanitizePath(b.path)) <= Segs(place))
  {
    hide IsValidTargetPath, SanitizePath, Normalize, LosesConflict, Segs;
    OverlapIsSharedSubtree(a.path, b.path);
    OverlapIsSharedSubtree(b.path, a.path);
    OneLoses(a, b);
    var i :| 0 <= i < |all| && all[i] == a;
    var j :| 0 <= j < |all| && all[j] == b;
    assert !BlockedBy(a, all[j]) && !BlockedBy(b, all[i]);
  }

  /** Two targets that pass share a place exactly when one of them has a path the writer
      rejects: such a path is written at the root, which contains every place. */
  lemma PassingTargetsShareExactly(all: seq<GitTarget>, a: GitTarget, b: GitTarget)
    requires a in all && b in all && !SameObject(a, b) && Neighbours(a, b) && Passes(a, all) && Passes(b, all)
    ensures (exists place :: Segs(SanitizePath(a.path)) <= Segs(place) && Segs(SanitizePath(b.path)) <= Segs(place))
            <==> !(IsValidTargetPath(a.path) && IsValidTargetPath(b.path))
  {
    var p := SanitizePath(a.path);
    var q := SanitizePath(b.path);
    if IsValidTargetPath(a.path) && IsValidTargetPath(b.path) {
      hide IsValidTargetPath, SanitizePath, Segs, Passes;
      forall place
        ensures !(Segs(p) <= Segs(place) && Segs(q) <= Segs(place))
      {
        PassingTargetsAreDisjoint(all, a, b, place);
      }
    } else if !IsValidTargetPath(a.path) {
      InvalidPathWritesAtRoot(a.path);
      assert Segs(p) <= Segs(q) && Segs(q) <= Segs(q);
    } else {
      InvalidPathWritesAtRoot(b.path);
      assert Segs(p) <= Segs(p) && Segs(q) <= Segs(p);
    }
  }

  /** A folder has at most one passing owner, so a lookup by folder finds at most one. */
  lemma OneOwnerPerFolder(all: seq<GitTarget>, a: GitTarget, b: GitTarget, base: string)
    requires a in all && b in all && Neighbours(a, b)
    requires IsValidTargetPath(a.path) && IsValidTargetPath(b.path) && Passes(a, all) && Passes(b, all)
    requires SanitizePath(a.path) == base == SanitizePath(b.path)
    ensures SameObject(a, b)
  {
    if !SameObject(a, b) { PassingTargetsAreDisjoint(all, a, b, base); }
  }

  /** Whoever lists the targets, one of a provider and branch passes: the one created first, of
      several created at once the one with the least name. */
  lemma EarliestPasses(all: seq<GitTarget>, some: GitTarget) returns (first: GitTarget)
    requires some in all
    ensures first in all && Neighbours(first, some) && Passes(first, all)
    ensures forall i :: 0 <= i < |all| && Neighbours(all[i], some) && !SameObject(all[i], first) ==>
              first.created < all[i].created || (first.created == all[i].created && Less(first.name, all[i].name))
  {
    hide LosesConflict;
    first := Earliest(all, some, |all|);
    forall i | 0 <= i < |all| && Neighbours(all[i], some) && !SameObject(all[i], first)
      ensures CameFirst(first, all[i])
    {
      LosesToEarlierExactly(first, all[i]);
      OneCameFirst(first, all[i]);
    }
  }

  lemma {:induction false} Earliest(all: seq<GitTarget>, some: GitTarget, n: nat) returns (first: GitTarget)
    requires some in all && n <= |all|
    ensures first in all && Neighbours(first, some)
    ensures forall i :: 0 <= i < n && Neighbours(all[i], some) ==> !LosesConflict(first, all[i])
  {
    hide LosesConflict;
    if n == 0 {
      first := some;
    } else {
      var prior := Earliest(all, some, n - 1);
      var t := all[n - 1];
      if Neighbours(t, some) && LosesConflict(prior, t) {
        first := t;
        forall i | 0 <= i < n && Neighbours(all[i], some)
          ensures !LosesConflict(first, all[i])
        {
          if LosesConflict(t, all[i]) {
            if i == n - 1 { NoneLosesToItself(t); } else { LosingIsTransitive(prior, t, all[i]); }
          }
        }
      } else {
        first := prior;
      }
    }
  }

  // ----------------------------------------------------- who was there first

  /** `a` has the earlier claim: it was created before `b`, or at the same time under a lesser
      name of the same namespace. */
  predicate CameFirst(a: GitTarget, b: GitTarget) {
    a.created < b.created || (a.created == b.created && a.namespace == b.namespace && Less(a.name, b.name))
  }

  lemma {:induction false} LessAfterPrefix(p: string, a: string, b: string)
    ensures Less(p + a, p + b) <==> Less(a, b)
  {
    if p == "" {
      assert p + a == a && p + b == b;
    } else {
      assert (p + a)[1..] == p[1..] + a && (p + b)[1..] == p[1..] + b;
      LessAfterPrefix(p[1..], a, b);
    }
  }

  /** In one namespace, a target loses exactly to those that came first. */
  lemma LosesToEarlierExactly(target: GitTarget, existing: GitTarget)
    requires target.namespace == existing.namespace
    ensures LosesConflict(target, existing) <==> CameFirst(existing, target)
  {
    LessAfterPrefix(target.namespace + "/", existing.name, target.name);
  }

  /** Two targets of one provider and branch whose folders have a place in common, in either of
      which the writer would write. */
  ghost predicate Contend(a: GitTarget, b: GitTarget) {
    && !SameObject(a, b) && Neighbours(a, b) && IsValidTargetPath(a.path) && IsValidTargetPath(b.path)
    && exists place :: Segs(SanitizePath(a.path)) <= Segs(place) && Segs(SanitizePath(b.path)) <= Segs(place)
  }

  /** A target passes if and only if it came before every target it contends with. */
  lemma PassesExactly(target: GitTarget, all: seq<GitTarget>)
    ensures Passes(target, all) <==> forall i :: 0 <= i < |all| && Contend(target, all[i]) ==> CameFirst(target, all[i])
  {
    hide IsValidTargetPath, SanitizePath, Segs, PathsOverlap, LosesConflict, CameFirst;
    if IsValidTargetPath(target.path) {
      forall i | 0 <= i < |all| ensures BlockedBy(target, all[i]) <==> Contend(target, all[i]) && !CameFirst(target, all[i]) {
        if !SameObject(target, all[i]) && Neighbours(target, all[i]) && IsValidTargetPath(all[i].path) {
          OverlapIsSharedSubtree(target.path, all[i].path);
          LosesToEarlierExactly(target, all[i]);
          OneCameFirst(target, all[i]);
        }
      }
    }
  }

  /** A target created before all its neighbours passes; of neighbours created at the same time, the
      one with the least name does. */
  lemma FirstCreatedPasses(target: GitTarget, all: seq<GitTarget>)
    requires forall i :: 0 <= i < |all| && Neighbours(target, all[i]) && !SameObject(target, all[i]) ==>
               target.created < all[i].created || (target.created == all[i].created && Less(target.name, all[i].name))
    ensures Passes(target, all)
  {
    hide IsValidTargetPath, SanitizePath, Segs, Less;
    PassesExactly(target, all);
  }

  lemma OneCameFirst(a: GitTarget, b: GitTarget)
    requires a.namespace == b.namespace && !SameObject(a, b)
    ensures CameFirst(a, b) <==> !CameFirst(b, a)
  {
    LessIsTotal(a.name, b.name);
    if Less(a.name, b.name) && Less(b.name, a.name) {
      LessIsTransitive(a.name, b.name, a.name);
      LessIsStrict(a.name);
    }
  }

  /** The owner keeps its folder: whoever comes later, wherever it is listed, a target that passed
      still passes. */
  lemma NewcomerEvictsNone(target: GitTarget, all: seq<GitTarget>, newcomer: GitTarget, at: nat)
    requires at <= |all| && Passes(target, all) && target.created < newcomer.created
    ensures Passes(target, all[..at] + [newcomer] + all[at..])
  {
    hide IsValidTargetPath, SanitizePath, Segs, Contend;
    PassesExactly(target, all);
    var listed := all[..at] + [newcomer] + all[at..];
    PassesExactly(target, listed);
    forall i | 0 <= i < |listed| && Contend(target, listed[i]) ensures CameFirst(target, listed[i]) {
      if i < at {
        assert listed[i] == all[i];
      } else if i > at {
        assert listed[i] == all[i - 1];
      } else {
        assert listed[i] == newcomer;
      }
    }
  }

  /** And the newcomer does not pass while it contends with a target that is listed. */
  lemma NewcomerIsBlocked(newcomer: GitTarget, all: seq<GitTarget>, i: nat)
    requires i < |all| && Contend(newcomer, all[i]) && all[i].created < newcomer.created
    ensures !Passes(newcomer, all)
  {
    hide IsValidTargetPath, SanitizePath, Segs, Contend;
    PassesExactly(newcomer, all);
    assert !CameFirst(newcomer, all[i]);
  }

  /** Disjointness needs the valid paths: a target at the root and a target whose path the
      writer rejects both pass, and both are written at the root. */
  lemma InvalidPathSharesRoot(ns: string, provider: string, branch: string, created: int)
    ensures var root := GitTarget(ns, "root", provider, branch, ".", created);
            var odd := GitTarget(ns, "odd", provider, branch, "a..b", created);
            && Passes(root, [root, odd]) && Passes(odd, [root, odd])
            && SanitizePath(root.path) == "" == SanitizePath(odd.path)
  {
    var root := GitTarget(ns, "root", provider, branch, ".", created);
    var odd := GitTarget(ns, "odd", provider, branch, "a..b", created);
    assert TrimSpace("a..b") == "a..b" && TrimSpace(".") == ".";
    assert Contains("a..b", "..") by { assert ".." <= "a..b"[1..]; }
    assert !IsValidTargetPath(odd.path) && IsValidTargetPath(root.path);
    assert !BlockedBy(root, root) && !BlockedBy(root, odd);
    NormalizeAgreesWithWriter(".");
    SplitOfSegment(".");
  }

  // ---------------------------------------------------------- lookup by folder

  datatype TargetMetadata = TargetMetadata(owner: GitTarget, mode: PruneMode)

  /** Finds the prune mode of the target that owns a folder; the range is over a map, so in
      any order. */
  method PruneModeForBase(metas: seq<TargetMetadata>, base: string) returns (mode: PruneMode)
    ensures mode == ModeFor(metas, base)
  {
    hide SanitizePath;
    for i := 0 to |metas|
      invariant ModeFor(metas, base) == ModeFor(metas[i..], base)
    {
      if SanitizePath(metas[i].owner.path) == base {
        return OrDefault(metas[i].mode);
      }
    }
    return ON_EVENT;
  }

  function ModeFor(metas: seq<TargetMetadata>, base: string): PruneMode {
    if metas == [] then ON_EVENT
    else if SanitizePath(metas[0].owner.path) == base then OrDefault(metas[0].mode)
    else ModeFor(metas[1..], base)
  }

  /** The metadata belongs to passing valid targets of one provider and branch, one entry each. */
  ghost predicate OwnedFolders(metas: seq<TargetMetadata>, all: seq<GitTarget>) {
    && (forall m :: m in metas ==> m.owner in all && IsValidTargetPath(m.owner.path) && Passes(m.owner, all))
    && (forall m, n :: m in metas && n in metas ==> Neighbours(m.owner, n.owner))
    && (forall m, n :: m in metas && n in metas && SameObject(m.owner, n.owner) ==> m == n)
  }

  lemma {:induction false} ModeOfOwner(metas: seq<TargetMetadata>, all: seq<GitTarget>, base: string, m: TargetMetadata)
    requires OwnedFolders(metas, all) && m in metas && SanitizePath(m.owner.path) == base
    ensures ModeFor(metas, base) == OrDefault(m.mode)
  {
    hide SanitizePath, IsValidTargetPath, Passes, Neighbours, SameObject;
    var first := metas[0];
    if SanitizePath(first.owner.path) == base {
      assert first in metas;
      OneOwnerPerFolder(all, first.owner, m.owner, base);
    } else {
      ModeOfOwner(metas[1..], all, base, m);
    }
  }

  lemma {:induction false} ModeOfNone(metas: seq<TargetMetadata>, base: string)
    requires forall m :: m in metas ==> SanitizePath(m.owner.path) != base
    ensures ModeFor(metas, base) == ON_EVENT
  {
    if metas != [] {
      assert metas[0] in metas;
      ModeOfNone(metas[1..], base);
    }
  }

  /** The order in which the targets are ranged over does not matter. */
  lemma LookupIsOrderIndependent(a: seq<TargetMetadata>, b: seq<TargetMetadata>, all: seq<GitTarget>, base: string)
    requires OwnedFolders(a, all) && forall m :: m in a <==> m in b
    ensures ModeFor(a, base) == ModeFor(b, base)
  {
    hide SanitizePath, IsValidTargetPath, Passes, Neighbours, SameObject, ModeFor;
    assert OwnedFolders(b, all);
    if exists m :: m in a && SanitizePath(m.owner.path) == base {
      var m :| m in a && SanitizePath(m.owner.path) == base;
      ModeOfOwner(a, all, base, m);
      ModeOfOwner(b, all, base, m);
    } else {
      ModeOfNone(a, base);
      ModeOfNone(b, base);
    }
  }
}
