/** Read scope and write jail of a GitTarget folder (internal/git/render_scope.go, and the
    scope test of internal/git/plan_flush.go). */
module RenderScope {
  import opened Ordering
  import opened Paths
  import opened Documents

  // ------------------------------------------------------------------ worktree

  /** The local and remote entries a kustomization names. */
  datatype Refs = Refs(resources: seq<string>, patches: seq<string>)

  /** A regular file. `refs` is what the kustomization parser reads from it, if it can. */
  datatype File = File(text: string, refs: Option<Refs>)

  /** Directories and regular files by clean path; a symbolic link is neither. */
  datatype Worktree = Worktree(dirs: set<string>, files: map<string, File>)

  /** Joined to the root, a rooted path names the same entry as the path without the slash. */
  function At(p: string): string {
    if p != "" && p[0] == '/' then p[1..] else p
  }

  predicate IsDir(t: Worktree, p: string) {
    At(p) in t.dirs
  }

  function ReadFile(t: Worktree, p: string): Option<File> {
    if At(p) in t.files then Some(t.files[At(p)]) else None
  }

  // -------------------------------------------------------------- path algebra

  predicate PathWithin(p: string, dir: string) {
    var c := CleanSlash(p);
    var d := CleanSlash(dir);
    d == "" || c == d || HasPrefix(c, d + "/")
  }

  function RelUnder(ancestor: string, child: string): string {
    var a := CleanSlash(ancestor);
    var c := CleanSlash(child);
    if a == "" then c
    else if a == c then ""
    else if HasPrefix(c, a + "/") then c[|a| + 1..]
    else c
  }

  predicate EscapesRoot(p: string) {
    p == ".." || HasPrefix(p, "../")
  }

  lemma PathWithinIsPrefix(p: string, dir: string)
    ensures PathWithin(p, dir) <==> Segs(CleanSlash(dir)) <= Segs(CleanSlash(p))
  {
    WithinIsSegmentPrefix(CleanSlash(p), CleanSlash(dir));
  }

  /** A relative path climbs out exactly when its clean form is not inside. */
  lemma EscapesExactly(p: string)
    requires p == "" || p[0] != '/'
    ensures EscapesRoot(CleanSlash(p)) <==> !Inside(CleanSlash(p))
  {
    var c := CleanSlash(p);
    CleanSlashSegs(p);
    var k: nat :| Climbs(Segs(c), k);
    WithinIsSegmentPrefix(c, "..");
    SplitOfSegment("..");
    assert EscapesRoot(c) <==> [".."] <= Segs(c);
    if k == 0 {
      assert Segs(c) != [] ==> Name(Segs(c)[0]);
    } else {
      assert Segs(c)[0] == "..";
    }
  }

  lemma ProperPrefixSplits(ancestor: string, child: string)
    requires ancestor != "" && ancestor != child && Inside(child) && Segs(ancestor) <= Segs(child)
    ensures HasPrefix(child, ancestor + "/")
    ensures var rel := child[|ancestor| + 1..];
            && child == ancestor + "/" + rel && rel != "" && Inside(rel)
            && Segs(ancestor) + Segs(rel) == Segs(child)
  {
    WithinIsSegmentPrefix(child, ancestor);
    var rel := child[|ancestor| + 1..];
    assert child == ancestor + "/" + rel;
    SplitOfConcat(ancestor, rel);
    var last := Segs(child)[|Segs(child)| - 1];
    assert Name(last) && (rel == "" ==> last == "");
    assert Segs(rel) == Segs(child)[|Segs(ancestor)|..];
  }

  /** What lies under an ancestor, relative to it, completes the path. */
  lemma RelUnderCompletes(ancestor: string, child: string)
    requires Inside(ancestor) && Inside(child) && Segs(ancestor) <= Segs(child)
    ensures Inside(RelUnder(ancestor, child))
    ensures Segs(ancestor) + Segs(RelUnder(ancestor, child)) == Segs(child)
    ensures JoinPath(ancestor, RelUnder(ancestor, child)) == child
    ensures RelUnder(ancestor, child) == "" <==> ancestor == child
  {
    CleanIsIdentity(ancestor);
    CleanIsIdentity(child);
    hide Clean, CleanSlash, Segs, Names;
    if ancestor == "" {
      assert Segs("") == [] by { EmptySegs(); }
    } else if ancestor == child {
      assert Segs("") == [] && Inside("") by { EmptySegs(); }
    } else {
      ProperPrefixSplits(ancestor, child);
    }
  }

  lemma EmptySegs()
    ensures Segs("") == [] && Inside("")
  {
  }

  // ------------------------------------------------------------- common ancestor

  /** `parts` leads every folder, and some folder ends or differs right after it. */
  ghost predicate LongestShared(dirs: seq<string>, parts: seq<string>)
    requires dirs != []
  {
    && (forall i :: 0 <= i < |dirs| ==> parts <= Split(CleanSlash(dirs[i])))
    && exists i :: 0 <= i < |dirs| && DepartsAt(Split(CleanSlash(dirs[0])), Split(CleanSlash(dirs[i])), |parts|)
  }

  predicate DepartsAt(a: seq<string>, b: seq<string>, n: nat) {
    n >= |a| || n >= |b| || a[n] != b[n]
  }

  /** How many leading segments two folders share. */
  method SharedRun(a: seq<string>, b: seq<string>) returns (n: nat)
    ensures n <= |a| && n <= |b| && a[..n] == b[..n]
    ensures n == |a| || n == |b| || a[n] != b[n]
  {
    n := 0;
    while n < |a| && n < |b| && a[n] == b[n]
      invariant 0 <= n <= |a| && n <= |b| && a[..n] == b[..n]
    {
      n := n + 1;
    }
  }

  method CommonAncestor(dirs: seq<string>) returns (r: string)
    ensures dirs == [] ==> r == ""
    ensures dirs != [] ==> exists parts :: LongestShared(dirs, parts) && r == Join(parts)
  {
    hide CleanSlash, Join, Split;
    if dirs == [] {
      return "";
    }
    var first := Split(CleanSlash(dirs[0]));
    var parts := first;
    ghost var last := 0;
    for i := 1 to |dirs|
      invariant forall k :: 0 <= k < i ==> parts <= Split(CleanSlash(dirs[k]))
      invariant 0 <= last < i && DepartsAt(first, Split(CleanSlash(dirs[last])), |parts|)
    {
      var cur := Split(CleanSlash(dirs[i]));
      var n := SharedRun(parts, cur);
      assert parts <= first;
      if n < |parts| {
        last := i;
      }
      parts := parts[..n];
    }
    assert LongestShared(dirs, parts);
    r := Join(parts);
  }

  // ------------------------------------------------------------------ the graph

  /** What the read scope is resolved from: the worktree, the target's folder, and the
      kustomizations found inside that folder, by directory. */
  datatype World = World(tree: Worktree, base: string, spec: map<string, File>)

  const KUSTOMIZATION_NAMES: seq<string> := ["kustomization.yaml", "kustomization.yml"]

  predicate IsRemote(entry: string) {
    var e := TrimSpace(entry);
    || Contains(e, "://") || Contains(e, "git@")
    || HasPrefix(e, "github.com/") || HasPrefix(e, "gitlab.com/") || HasPrefix(e, "bitbucket.org/")
  }

  function KustomizationAt(dir: string, name: string): string {
    CleanSlash(JoinPath(dir, name))
  }

  function ReadKustomization(t: Worktree, dir: string): Option<File> {
    var first := ReadFile(t, KustomizationAt(dir, KUSTOMIZATION_NAMES[0]));
    if first.Some? then first else ReadFile(t, KustomizationAt(dir, KUSTOMIZATION_NAMES[1]))
  }

  /** Every recognised kustomization file of the directory. */
  function KustomizationFiles(t: Worktree, dir: string): set<string> {
    set name | name in KUSTOMIZATION_NAMES && ReadFile(t, KustomizationAt(dir, name)).Some? :: KustomizationAt(dir, name)
  }

  function ContentOf(w: World, dir: string): Option<File> {
    if dir in w.spec then Some(w.spec[dir]) else ReadKustomization(w.tree, dir)
  }

  function Entries(f: File): seq<string> {
    if f.refs.None? then [] else f.refs.value.resources + f.refs.value.patches
  }

  /** The clean worktree paths a kustomization's local entries name. */
  function TargetsOf(dir: string, f: File): set<string> {
    set e | e in Entries(f) && !IsRemote(e) :: CleanSlash(JoinPath(dir, e))
  }

  function Targets(w: World, dir: string): set<string> {
    if ContentOf(w, dir).None? then {} else TargetsOf(dir, ContentOf(w, dir).value)
  }

  /** The kustomization in `dir` refers outside the repository. */
  predicate RefersOutside(w: World, dir: string) {
    exists t :: t in Targets(w, dir) && EscapesRoot(t)
  }

  /** A build of `dir` goes on into `next`. */
  predicate Follows(w: World, dir: string, next: string) {
    next in Targets(w, dir) && !EscapesRoot(next) && IsDir(w.tree, next)
  }

  ghost predicate Chain(w: World, dirs: seq<string>) {
    && dirs != [] && dirs[0] in w.spec
    && forall i :: 0 <= i < |dirs| - 1 ==> Follows(w, dirs[i], dirs[i + 1])
  }

  /** `dir` is reached from some kustomization inside the folder. */
  ghost predicate Reachable(w: World, dir: string) {
    exists dirs :: Chain(w, dirs) && dirs[|dirs| - 1] == dir
  }

  lemma RootIsReachable(w: World, dir: string)
    requires dir in w.spec
    ensures Reachable(w, dir)
  {
    assert Chain(w, [dir]);
  }

  lemma FollowedIsReachable(w: World, dir: string, next: string)
    requires Reachable(w, dir) && Follows(w, dir, next)
    ensures Reachable(w, next)
  {
    hide Follows;
    var dirs :| Chain(w, dirs) && dirs[|dirs| - 1] == dir;
    assert Chain(w, dirs + [next]);
  }

  /** A set with the roots that is closed under following holds everything reachable. */
  lemma ClosedHoldsReachable(w: World, closed: set<string>)
    requires forall d :: d in w.spec ==> d in closed
    requires forall d, n :: d in closed && Follows(w, d, n) ==> n in closed
    ensures forall d :: Reachable(w, d) ==> d in closed
  {
    hide Follows;
    forall d | Reachable(w, d)
      ensures d in closed
    {
      var dirs :| Chain(w, dirs) && dirs[|dirs| - 1] == d;
      ClosedHoldsChain(w, closed, dirs);
    }
  }

  lemma {:induction false} ClosedHoldsChain(w: World, closed: set<string>, dirs: seq<string>)
    requires Chain(w, dirs)
    requires forall d :: d in w.spec ==> d in closed
    requires forall d, n :: d in closed && Follows(w, d, n) ==> n in closed
    ensures dirs[|dirs| - 1] in closed
  {
    hide Follows;
    var n := |dirs| - 1;
    if n > 0 {
      ClosedHoldsChain(w, closed, dirs[..n]);
      assert Follows(w, dirs[n - 1], dirs[n]);
    }
  }

  /** The kustomization in `dir` makes the build read `f` from outside the folder. */
  predicate Reads(w: World, dir: string, f: string) {
    && ContentOf(w, dir).Some?
    && (|| (!PathWithin(dir, w.base) && f in KustomizationFiles(w.tree, dir))
        || (f in Targets(w, dir) && !IsDir(w.tree, f) && !PathWithin(f, w.base)))
  }

  ghost predicate Needed(w: World, f: string) {
    exists dir :: Reachable(w, dir) && Reads(w, dir, f)
  }

  // ------------------------------------------------------------------ read scope

  datatype ReadScope = Refused | Files(files: seq<string>)

  /** Sorts one kustomization's targets into directories to follow and files to read. */
  method ReachableTargets(w: World, dir: string, f: File) returns (escapes: bool, dirs: seq<string>, files: seq<string>)
    ensures escapes <==> exists t :: t in TargetsOf(dir, f) && EscapesRoot(t)
    ensures !escapes ==> forall t :: t in dirs <==> t in TargetsOf(dir, f) && IsDir(w.tree, t)
    ensures !escapes ==>
              forall t :: t in files <==> t in TargetsOf(dir, f) && !IsDir(w.tree, t) && !PathWithin(t, w.base)
  {
    hide EscapesRoot, IsRemote, CleanSlash, PathWithin;
    escapes, dirs, files := false, [], [];
    var entries := Entries(f);
    ghost var done: set<string> := {};
    for i := 0 to |entries|
      invariant done == set e | e in entries[..i] && !IsRemote(e) :: CleanSlash(JoinPath(dir, e))
      invariant forall t :: t in done ==> !EscapesRoot(t)
      invariant forall t :: t in dirs <==> t in done && IsDir(w.tree, t)
      invariant forall t :: t in files <==> t in done && !IsDir(w.tree, t) && !PathWithin(t, w.base)
    {
      assert entries[..i + 1] == entries[..i] + [entries[i]];
      if !IsRemote(entries[i]) {
        var target := CleanSlash(JoinPath(dir, entries[i]));
        done := done + {target};
        if EscapesRoot(target) {
          assert target in TargetsOf(dir, f);
          return true, [], [];
        }
        if IsDir(w.tree, target) {
          dirs := dirs + [target];
        } else if !PathWithin(target, w.base) {
          files := files + [target];
        }
      }
    }
    assert entries[..|entries|] == entries;
  }

  /** The files the build reads from outside the folder: refused exactly when a reachable
      kustomization refers outside the repository, and otherwise exactly the needed files,
      sorted and distinct. The graph may be cyclic. */
  method ResolveReadScope(w: World) returns (r: ReadScope)
    ensures r.Refused? <==> exists dir :: Reachable(w, dir) && RefersOutside(w, dir)
    ensures r.Files? ==> Ascending(r.files) && forall f :: f in r.files <==> Needed(w, f)
  {
    hide EscapesRoot, IsRemote, CleanSlash, PathWithin, Reachable, KustomizationFiles, TargetsOf, ContentOf;
    var readSet: set<string> := {};
    var visited: set<string> := {};
    var queue := SortedKeys(w.spec.Keys);
    ghost var universe := w.spec.Keys + w.tree.dirs + set d | d in w.tree.dirs :: "/" + d;
    forall d | d in queue ensures Reachable(w, d) { RootIsReachable(w, d); }
    while queue != []
      invariant visited <= universe && forall d :: d in queue ==> d in universe
      invariant forall d :: d in visited || d in queue ==> Reachable(w, d)
      invariant forall d :: d in w.spec ==> d in visited || d in queue
      invariant forall d :: d in visited ==> !RefersOutside(w, d)
      invariant forall d, n :: d in visited && Follows(w, d, n) ==> n in visited || n in queue
      invariant forall f :: f in readSet <==> exists d :: d in visited && Reads(w, d, f)
      decreases universe - visited, |queue|
    {
      var dir := queue[0];
      assert dir in queue && queue == [dir] + queue[1..];
      queue := queue[1..];
      if dir in visited {
        continue;
      }
      visited := visited + {dir};
      var content := ContentOf(w, dir);
      if content.None? {
        continue;
      }
      if !PathWithin(dir, w.base) {
        readSet := readSet + KustomizationFiles(w.tree, dir);
      }
      var escapes, dirs, files := ReachableTargets(w, dir, content.value);
      if escapes {
        return Refused;
      }
      forall d | d in dirs
        ensures d in universe && Reachable(w, d)
      {
        FollowedIsReachable(w, dir, d);
        assert d == At(d) || d == "/" + At(d);
      }
      queue := queue + dirs;
      readSet := readSet + set t | t in files;
    }
    ClosedHoldsReachable(w, visited);
    var listed := SortedKeys(readSet);
    r := Files(listed);
  }

  // ------------------------------------------- where reachable things can lie

  /** A clean path inside the tree, or the rooted form an absolute entry of the root folder's
      kustomization takes. */
  predicate Rooted(p: string) {
    p != "" && p[0] == '/' && Clean(p) == p
  }

  predicate Placed(p: string) {
    Inside(p) || Rooted(p)
  }

  lemma CleanIsPlaced(p: string)
    requires !EscapesRoot(CleanSlash(Clean(p)))
    ensures Placed(CleanSlash(Clean(p)))
  {
    if p != "" && p[0] == '/' {
      CleanRooted(p);
    } else {
      var c := Clean(p);
      CleanSlashSegs(p);
      assert c == "" || c[0] != '/' by {
        var segs := Walk([], Split(p), false);
        if p != "" && segs != [] {
          assert Segs(CleanSlash(p)) == segs;
          var k: nat :| Climbs(segs, k);
          JoinIsRelative(segs);
        }
      }
      EscapesExactly(c);
    }
  }

  lemma JoinIsPlaced(dir: string, e: string)
    requires !EscapesRoot(CleanSlash(JoinPath(dir, e)))
    ensures Placed(CleanSlash(JoinPath(dir, e)))
  {
    hide Clean, CleanSlash, EscapesRoot;
    if dir == "" && e == "" {
      assert Clean("") == "." && CleanSlash("") == "" by { CleanOfEmpty(); }
    } else {
      var p := if dir == "" then e else if e == "" then dir else dir + "/" + e;
      assert JoinPath(dir, e) == Clean(p);
      CleanIsPlaced(p);
    }
  }

  lemma CleanOfEmpty()
    ensures Clean("") == "." && CleanSlash("") == ""
  {
  }

  lemma {:induction false} ChainIsPlaced(w: World, dirs: seq<string>)
    requires Chain(w, dirs) && forall d :: d in w.spec ==> Placed(d)
    ensures Placed(dirs[|dirs| - 1])
  {
    hide Placed, IsRemote, CleanSlash, EscapesRoot;
    var n := |dirs| - 1;
    if n > 0 {
      ChainIsPlaced(w, dirs[..n]);
      assert Follows(w, dirs[n - 1], dirs[n]);
      assert dirs[n] in TargetsOf(dirs[n - 1], ContentOf(w, dirs[n - 1]).value);
      var e :| e in Entries(ContentOf(w, dirs[n - 1]).value) && dirs[n] == CleanSlash(JoinPath(dirs[n - 1], e));
      JoinIsPlaced(dirs[n - 1], e);
    }
  }

  /** The folder of `f` is not inside the target's folder. */
  predicate ReadFromOutside(base: string, f: string) {
    base != "" && Placed(f) && (Inside(f) ==> !(Segs(base) <= Segs(DirOf(f))))
  }

  lemma KustomizationIsOutside(base: string, dir: string, name: string)
    requires Inside(base) && Placed(dir) && !PathWithin(dir, base) && Name(name)
    ensures ReadFromOutside(base, KustomizationAt(dir, name))
  {
    var f := KustomizationAt(dir, name);
    SplitOfSegment(name);
    CleanIsIdentity(base);
    PathWithinIsPrefix(dir, base);
    if Inside(dir) {
      CleanIsIdentity(name);
      CleanIsIdentity(dir);
      JoinPathAppends(dir, name);
      assert Segs(f) == Segs(dir) + [name];
      DirOfInside(f);
      assert Segs(DirOf(f)) == Segs(dir);
    } else {
      CleanRooted(dir + "/" + name);
      if Inside(f) { CleanIsIdentity(f); }
    }
  }

  lemma KustomizationNamesAreNames()
    ensures Names(KUSTOMIZATION_NAMES)
  {
  }

  lemma TargetIsOutside(base: string, f: string)
    requires Inside(base) && Placed(f) && !PathWithin(f, base)
    ensures ReadFromOutside(base, f)
  {
    CleanIsIdentity(base);
    PathWithinIsPrefix(f, base);
    if Inside(f) {
      CleanIsIdentity(f);
      if f == "" {
        assert DirOf("") == "" by { SplitOfSegment(""); SplitOfSegment("."); }
      } else {
        DirOfInside(f);
      }
    }
  }

  lemma NeededIsOutside(w: World, f: string)
    requires Inside(w.base) && forall d :: d in w.spec ==> Placed(d)
    requires Needed(w, f) && !exists dir :: Reachable(w, dir) && RefersOutside(w, dir)
    ensures ReadFromOutside(w.base, f)
  {
    hide Placed, CleanSlash, EscapesRoot, IsRemote, PathWithin, Chain, ReadFromOutside, Name;
    var dir :| Reachable(w, dir) && Reads(w, dir, f);
    assert Placed(dir) by { ReachableIsPlaced(w, dir); }
    if !PathWithin(dir, w.base) && f in KustomizationFiles(w.tree, dir) {
      var name :| name in KUSTOMIZATION_NAMES && f == KustomizationAt(dir, name);
      KustomizationNamesAreNames();
      KustomizationIsOutside(w.base, dir, name);
    } else {
      assert !RefersOutside(w, dir);
      assert f in Targets(w, dir) && !EscapesRoot(f);
      var e :| e in Entries(ContentOf(w, dir).value) && f == CleanSlash(JoinPath(dir, e));
      JoinIsPlaced(dir, e);
      TargetIsOutside(w.base, f);
    }
  }

  lemma ReachableIsPlaced(w: World, dir: string)
    requires Reachable(w, dir) && forall d :: d in w.spec ==> Placed(d)
    ensures Placed(dir)
  {
    hide Placed;
    var dirs :| Chain(w, dirs) && dirs[|dirs| - 1] == dir;
    ChainIsPlaced(w, dirs);
  }

  // ------------------------------------------------------------ re-rooting the scan

  /** A file of a folder scan, by its path relative to the folder. */
  datatype FileContent = FileContent(path: string, file: File)

  predicate IsKustomizationFileName(p: string) {
    BaseName(p) in KUSTOMIZATION_NAMES
  }

  function SpecDir(base: string, p: string): string {
    CleanSlash(JoinPath(base, Clean(DirPart(p))))
  }

  /** The kustomizations of the scan by worktree directory; a later file of a directory wins. */
  function SpecKustomizations(base: string, files: seq<FileContent>): map<string, File> {
    if files == [] then map[]
    else
      var n := |files| - 1;
      var before := SpecKustomizations(base, files[..n]);
      if IsKustomizationFileName(files[n].path) then before[SpecDir(base, files[n].path) := files[n].file] else before
  }

  /** Where a key of a scan anchored at `anchor` lies in the worktree. */
  function PlaceOf(anchor: string, key: string): string {
    CleanSlash(JoinPath(anchor, key))
  }

  /** The scan lists files of the worktree folder. */
  predicate ScanOf(t: Worktree, base: string, files: seq<FileContent>) {
    forall i :: 0 <= i < |files| ==>
      && files[i].path != "" && Inside(files[i].path)
      && ReadFile(t, PlaceOf(base, files[i].path)) == Some(files[i].file)
  }

  lemma {:induction false} SpecDirsArePlaced(t: Worktree, base: string, files: seq<FileContent>)
    requires Inside(base) && ScanOf(t, base, files)
    ensures forall d :: d in SpecKustomizations(base, files) ==> Placed(d)
  {
    if files != [] {
      var n := |files| - 1;
      SpecDirsArePlaced(t, base, files[..n]);
      var p := files[n].path;
      DirOfInside(p);
      var rel := Clean(DirPart(p));
      assert Inside(CleanSlash(rel));
      DirIsRelative(p);
      JoinPathAppends(base, rel);
    }
  }

  lemma DirIsRelative(p: string)
    requires Inside(p) && p != ""
    ensures Clean(DirPart(p)) == "" || Clean(DirPart(p))[0] != '/'
  {
    var d := DirPart(p);
    var segs := Split(p);
    assert Segs(p) == segs;
    if |segs| > 1 {
      JoinIsRelative(segs[..|segs| - 1]);
      CleanSlashSegs(d);
      var out := Walk([], Split(d), false);
      if out != [] {
        var k: nat :| Climbs(out, k);
        JoinIsRelative(out);
      }
    }
  }

  datatype Scope = Scope(renderBase: string, writeSubdir: string, scan: map<string, File>)

  datatype Scoped = ScopeRefused | Scanned(scope: Scope)

  /** The anchor is inside the tree and contains the target's folder. */
  lemma AnchorLeadsBase(base: string, dirs: seq<string>, parts: seq<string>)
    requires Inside(base) && base != "" && dirs != [] && dirs[0] == base && LongestShared(dirs, parts)
    ensures Segs(Join(parts)) == parts <= Segs(base) && Inside(Join(parts))
    ensures forall i :: 0 <= i < |dirs| ==> parts <= Segs(CleanSlash(dirs[i]))
  {
    CleanIsIdentity(base);
    assert parts <= Split(CleanSlash(dirs[0]));
    assert Names(parts) by { assert Segs(base) == Split(base); }
    if parts != [] {
      SplitOfJoin(parts);
      JoinIsRelative(parts);
    }
    forall i | 0 <= i < |dirs|
      ensures parts <= Segs(CleanSlash(dirs[i]))
    {
      assert parts <= Split(CleanSlash(dirs[i]));
      if parts != [] {
        assert Name(parts[0]);
      }
    }
  }

  /** A file read from outside shortens the anchor below the target's folder, and keeps its
      place when it is keyed relative to the anchor. */
  lemma AnchorFits(base: string, f: string, dirs: seq<string>, i: int, parts: seq<string>)
    requires Inside(base) && base != "" && dirs != [] && dirs[0] == base && LongestShared(dirs, parts)
    requires 0 <= i < |dirs| && dirs[i] == DirOf(f) && ReadFromOutside(base, f)
    ensures Join(parts) != base
    ensures PlaceOf(Join(parts), RelUnder(Join(parts), f)) == f
  {
    AnchorLeadsBase(base, dirs, parts);
    var anchor := Join(parts);
    assert parts <= Segs(CleanSlash(DirOf(f)));
    if Inside(f) {
      if f == "" {
        assert DirOf("") == "" by { SplitOfSegment(""); SplitOfSegment("."); }
      } else {
        DirOfInside(f);
      }
      CleanIsIdentity(DirOf(f));
      assert Segs(anchor) <= Segs(f);
      RelUnderCompletes(anchor, f);
      CleanIsIdentity(f);
    } else {
      DirOfRooted(f);
      CleanRooted(DirOf(f));
      assert parts == [];
      CleanRooted(f);
    }
  }

  lemma PlaceAppends(dir: string, p: string)
    requires Inside(dir) && Inside(p)
    ensures Inside(PlaceOf(dir, p)) && Segs(PlaceOf(dir, p)) == Segs(dir) + Segs(p)
  {
    CleanIsIdentity(p);
    hide Clean, CleanSlash, JoinPath, Segs, Names;
    JoinPathAppends(dir, p);
  }

  lemma Associative(a: seq<string>, b: seq<string>, c: seq<string>)
    ensures a + (b + c) == (a + b) + c
  {
  }

  /** Lifting a scan into the coordinates of the anchor moves no file. */
  lemma RekeyKeepsPlace(anchor: string, sub: string, base: string, p: string)
    requires Inside(anchor) && Inside(sub) && Inside(base) && Inside(p)
    requires Segs(anchor) + Segs(sub) == Segs(base)
    ensures PlaceOf(anchor, PlaceOf(sub, p)) == PlaceOf(base, p)
    ensures Inside(PlaceOf(sub, p)) && Segs(PlaceOf(sub, p)) == Segs(sub) + Segs(p)
  {
    hide PlaceOf, Segs, Names;
    PlaceAppends(sub, p);
    PlaceAppends(anchor, PlaceOf(sub, p));
    PlaceAppends(base, p);
    Associative(Segs(anchor), Segs(sub), Segs(p));
    SegsAreInjective(PlaceOf(anchor, PlaceOf(sub, p)), PlaceOf(base, p));
  }

  method KustomizationContents(base: string, files: seq<FileContent>) returns (m: map<string, File>)
    ensures m == SpecKustomizations(base, files)
  {
    hide SpecDir, IsKustomizationFileName;
    m := map[];
    for i := 0 to |files|
      invariant m == SpecKustomizations(base, files[..i])
    {
      assert files[..i + 1][..i] == files[..i];
      if IsKustomizationFileName(files[i].path) {
        m := m[SpecDir(base, files[i].path) := files[i].file];
      }
    }
    assert files[..|files|] == files;
  }

  method DirsOf(files: seq<string>) returns (dirs: seq<string>)
    ensures |dirs| == |files| && forall i :: 0 <= i < |files| ==> dirs[i] == DirOf(files[i])
  {
    dirs := [];
    for i := 0 to |files|
      invariant |dirs| == i && forall k :: 0 <= k < i ==> dirs[k] == DirOf(files[k])
    {
      dirs := dirs + [DirOf(files[i])];
    }
  }

  /** The scan shows the worktree as seen from the anchor. */
  ghost predicate Shows(t: Worktree, anchor: string, scan: map<string, File>) {
    forall k :: k in scan ==> ReadFile(t, PlaceOf(anchor, k)) == Some(scan[k])
  }

  method RekeyScan(t: Worktree, anchor: string, sub: string, base: string, files: seq<FileContent>)
    returns (scan: map<string, File>)
    requires Inside(anchor) && Inside(sub) && Inside(base) && Segs(anchor) + Segs(sub) == Segs(base)
    requires ScanOf(t, base, files)
    ensures Shows(t, anchor, scan)
    ensures forall i :: 0 <= i < |files| ==> PlaceOf(sub, files[i].path) in scan
  {
    hide PlaceOf, ReadFile, Segs, Names;
    scan := map[];
    for i := 0 to |files|
      invariant Shows(t, anchor, scan)
      invariant forall k :: 0 <= k < i ==> PlaceOf(sub, files[k].path) in scan
    {
      RekeyKeepsPlace(anchor, sub, base, files[i].path);
      scan := scan[PlaceOf(sub, files[i].path) := files[i].file];
    }
  }

  /** Reads the out-of-scope files into the scan. */
  method AddReads(t: Worktree, anchor: string, read: seq<string>, start: map<string, File>)
    returns (scan: map<string, File>)
    requires Shows(t, anchor, start)
    requires forall i :: 0 <= i < |read| ==> PlaceOf(anchor, RelUnder(anchor, read[i])) == read[i]
    ensures Shows(t, anchor, scan)
    ensures forall k :: k in start ==> k in scan
    ensures forall i :: 0 <= i < |read| && ReadFile(t, read[i]).Some? ==> RelUnder(anchor, read[i]) in scan
  {
    hide PlaceOf, ReadFile, RelUnder;
    scan := start;
    for i := 0 to |read|
      invariant Shows(t, anchor, scan)
      invariant forall k :: k in start ==> k in scan
      invariant forall k :: 0 <= k < i && ReadFile(t, read[k]).Some? ==> RelUnder(anchor, read[k]) in scan
    {
      var key := RelUnder(anchor, read[i]);
      if key in scan {
        continue;
      }
      var content := ReadFile(t, read[i]);
      if content.Some? {
        scan := scan[key := content.value];
      }
    }
  }

  /** Resolves the read scope and re-roots the scan at the lowest folder that holds the
      target's folder and everything its builds read. The jail is empty exactly when nothing
      is read from outside; the anchor joined with the jail is the target's folder; and every
      file of the scan stands for the worktree file at its place. */
  method ScanRenderScope(t: Worktree, base: string, files: seq<FileContent>) returns (r: Scoped)
    requires Inside(base) && ScanOf(t, base, files)
    ensures var w := World(t, base, SpecKustomizations(base, files));
            && (r.ScopeRefused? <==> exists dir :: Reachable(w, dir) && RefersOutside(w, dir))
            && (r.Scanned? ==>
                  var sc := r.scope;
                  && Inside(sc.renderBase) && Inside(sc.writeSubdir)
                  && JoinPath(sc.renderBase, sc.writeSubdir) == base
                  && Segs(sc.renderBase) + Segs(sc.writeSubdir) == Segs(base)
                  && (sc.writeSubdir == "" <==> !exists f :: Needed(w, f))
                  && Shows(t, sc.renderBase, sc.scan)
                  && (forall i :: 0 <= i < |files| ==> PlaceOf(sc.writeSubdir, files[i].path) in sc.scan)
                  && (forall f :: Needed(w, f) && ReadFile(t, f).Some? ==> RelUnder(sc.renderBase, f) in sc.scan))
  {
    hide Needed, Reachable, RefersOutside, CleanSlash, Clean, Names, PlaceOf, ReadFile, RelUnder, Shows;
    var spec := KustomizationContents(base, files);
    var w := World(t, base, spec);
    SpecDirsArePlaced(t, base, files);
    var read := ResolveReadScope(w);
    if read.Refused? {
      return ScopeRefused;
    }
    if read.files == [] {
      assert forall f :: !Needed(w, f) by { assert forall f :: f in read.files <==> Needed(w, f); }
      RootJail(base);
      var plain := RekeyScan(t, base, "", base, files);
      return Scanned(Scope(base, "", plain));
    }
    forall f | f in read.files
      ensures ReadFromOutside(base, f)
    {
      NeededIsOutside(w, f);
    }
    var anchor := AnchorOf(base, read.files);
    var sub := RelUnder(anchor, base);
    RelUnderCompletes(anchor, base);
    var rekeyed := RekeyScan(t, anchor, sub, base, files);
    var scan := AddReads(t, anchor, read.files, rekeyed);
    assert Needed(w, read.files[0]);
    r := Scanned(Scope(anchor, sub, scan));
  }

  lemma RootJail(base: string)
    requires Inside(base)
    ensures JoinPath(base, "") == base && Inside("") && Segs(base) + Segs("") == Segs(base)
  {
    CleanIsIdentity(base);
  }

  /** The anchor of a folder and the files its builds read from outside it. */
  method AnchorOf(base: string, read: seq<string>) returns (anchor: string)
    requires Inside(base) && read != []
    requires forall i :: 0 <= i < |read| ==> ReadFromOutside(base, read[i])
    ensures Inside(anchor) && Segs(anchor) <= Segs(base) && anchor != base
    ensures forall i :: 0 <= i < |read| ==> PlaceOf(anchor, RelUnder(anchor, read[i])) == read[i]
  {
    hide CleanSlash, Clean, PlaceOf, RelUnder, LongestShared, Placed;
    assert ReadFromOutside(base, read[0]);
    var dirs := DirsOf(read);
    dirs := [base] + dirs;
    anchor := CommonAncestor(dirs);
    ghost var parts :| LongestShared(dirs, parts) && anchor == Join(parts);
    AnchorLeadsBase(base, dirs, parts);
    forall i | 0 <= i < |read|
      ensures anchor != base && PlaceOf(anchor, RelUnder(anchor, read[i])) == read[i]
    {
      AnchorFits(base, read[i], dirs, i + 1, parts);
    }
    assert read[0] in read;
  }

  // ------------------------------------------------------------------ write jail

  /** A planned write, relative to the anchor, would land outside the target's folder. */
  predicate WriteEscapes(writeSubdir: string, rel: string) {
    if rel == "" || rel[0] == '/' then true
    else
      var clean := Clean(rel);
      if clean == ".." || HasPrefix(clean, "../") then true
      else writeSubdir != "" && !PathWithin(clean, writeSubdir)
  }

  /** For a planned path that does not climb above the anchor, the test is exact: it refuses
      precisely the paths whose place in the worktree is outside the target's folder. */
  lemma JailIsExact(sc: Scope, base: string, rel: string)
    requires Inside(sc.renderBase) && Inside(sc.writeSubdir) && Inside(base)
    requires Segs(sc.renderBase) + Segs(sc.writeSubdir) == Segs(base)
    requires rel != "" && rel[0] != '/' && Inside(CleanSlash(rel))
    ensures WriteEscapes(sc.writeSubdir, rel) <==> !(Segs(base) <= Segs(PlaceOf(sc.renderBase, rel)))
    ensures Inside(PlaceOf(sc.renderBase, rel))
  {
    var inner := Segs(CleanSlash(rel));
    EscapesExactly(rel);
    CleanTwice(rel);
    CleanIsIdentity(sc.writeSubdir);
    PathWithinIsPrefix(Clean(rel), sc.writeSubdir);
    assert WriteEscapes(sc.writeSubdir, rel) <==> !(Segs(sc.writeSubdir) <= inner);
    JoinPathAppends(sc.renderBase, rel);
    PrefixUnderPrefix(Segs(sc.renderBase), Segs(sc.writeSubdir), inner);
  }

  lemma PrefixUnderPrefix(a: seq<string>, b: seq<string>, c: seq<string>)
    ensures a + b <= a + c <==> b <= c
  {
    if a + b <= a + c {
      assert b == (a + b)[|a|..] == (a + c)[|a|..|a| + |b|] == c[..|b|];
    }
  }

  /** No path the test lets through leaves the target's folder. */
  lemma JailHolds(sc: Scope, base: string, rel: string)
    requires Inside(sc.renderBase) && Inside(sc.writeSubdir) && Inside(base)
    requires Segs(sc.renderBase) + Segs(sc.writeSubdir) == Segs(base)
    requires !WriteEscapes(sc.writeSubdir, rel)
    ensures Inside(PlaceOf(sc.renderBase, rel)) && Segs(base) <= Segs(PlaceOf(sc.renderBase, rel))
  {
    EscapesExactly(rel);
    JailIsExact(sc, base, rel);
  }
}
