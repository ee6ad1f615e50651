/** Slash paths as strings, with the parts of Go's strings and path packages that the writer
    relies on, and their meaning as sequences of segments. */
module Paths {
  predicate HasPrefix(s: string, p: string) {
    p <= s
  }

  predicate Contains(s: string, sub: string) {
    exists i :: 0 <= i <= |s| && sub <= s[i..]
  }

  /** Go's unicode.IsSpace. */
  predicate IsSpace(c: char) {
    || '\U{9}' <= c <= '\U{D}' || c == ' ' || c == '\U{85}' || c == '\U{A0}' || c == '\U{1680}'
    || '\U{2000}' <= c <= '\U{200A}' || c == '\U{2028}' || c == '\U{2029}' || c == '\U{202F}' || c == '\U{205F}'
    || c == '\U{3000}'
  }

  function TrimLeft(s: string): string {
    if s != "" && IsSpace(s[0]) then TrimLeft(s[1..]) else s
  }

  function TrimRight(s: string): string {
    if s != "" && IsSpace(s[|s| - 1]) then TrimRight(s[..|s| - 1]) else s
  }

  function TrimSpace(s: string): string {
    TrimRight(TrimLeft(s))
  }

  /** The segments between slashes; the empty string has one empty segment. */
  function Split(s: string): (r: seq<string>)
    ensures |r| >= 1
    ensures forall i :: 0 <= i < |r| ==> '/' !in r[i]
  {
    if s == "" then [""]
    else if s[0] == '/' then [""] + Split(s[1..])
    else
      var rest := Split(s[1..]);
      [[s[0]] + rest[0]] + rest[1..]
  }

  function Join(segs: seq<string>): string {
    if segs == [] then ""
    else if |segs| == 1 then segs[0]
    else segs[0] + "/" + Join(segs[1..])
  }

  lemma {:induction false} JoinOfSplit(s: string)
    ensures Join(Split(s)) == s
  {
    if s == "" {
    } else {
      var rest := Split(s[1..]);
      JoinOfSplit(s[1..]);
      assert s == [s[0]] + s[1..];
      if s[0] == '/' {
        assert Split(s)[1..] == rest;
      } else if |rest| == 1 {
        assert Split(s) == [[s[0]] + rest[0]];
      } else {
        assert Split(s)[1..] == rest[1..];
      }
    }
  }

  lemma {:induction false} SplitOfSegment(s: string)
    requires '/' !in s
    ensures Split(s) == [s]
  {
    if s != "" {
      assert s[0] in s;
      SplitOfSegment(s[1..]);
      assert s == [s[0]] + s[1..];
    }
  }

  lemma {:induction false} SplitOfConcat(a: string, b: string)
    ensures Split(a + "/" + b) == Split(a) + Split(b)
  {
    if a == "" {
      assert a + "/" + b == "/" + b && ("/" + b)[1..] == b;
    } else {
      assert (a + "/" + b)[1..] == a[1..] + "/" + b;
      SplitOfConcat(a[1..], b);
    }
  }

  lemma {:induction false} SplitOfJoin(segs: seq<string>)
    requires segs != [] && forall i :: 0 <= i < |segs| ==> '/' !in segs[i]
    ensures Split(Join(segs)) == segs
  {
    SplitOfSegment(segs[0]);
    if |segs| == 1 {
    } else {
      SplitOfJoin(segs[1..]);
      SplitOfConcat(segs[0], Join(segs[1..]));
    }
  }

  lemma {:induction false} JoinOfConcat(a: seq<string>, b: seq<string>)
    requires a != [] && b != []
    ensures Join(a + b) == Join(a) + "/" + Join(b)
  {
    if |a| == 1 {
      assert (a + b)[1..] == b;
    } else {
      assert (a + b)[1..] == a[1..] + b;
      JoinOfConcat(a[1..], b);
    }
  }

  /** The segments of a path; the repository root "" has none. */
  function Segs(p: string): (r: seq<string>) {
    if p == "" then [] else Split(p)
  }

  lemma SegsAreInjective(a: string, b: string)
    requires Segs(a) == Segs(b)
    ensures a == b
  {
    JoinOfSplit(a);
    JoinOfSplit(b);
  }

  /** The tests of the code on strings decide the prefix relation on segments. */
  lemma WithinIsSegmentPrefix(p: string, dir: string)
    ensures (dir == "" || p == dir || HasPrefix(p, dir + "/")) <==> Segs(dir) <= Segs(p)
  {
    if dir != "" {
      if HasPrefix(p, dir + "/") {
        var rest := p[|dir| + 1..];
        assert p == dir + "/" + rest;
        SplitOfConcat(dir, rest);
      } else if p != "" && Split(dir) <= Split(p) {
        var rest := Split(p)[|Split(dir)|..];
        assert Split(p) == Split(dir) + rest;
        JoinOfSplit(p);
        JoinOfSplit(dir);
        if rest == [] {
          assert Split(p) == Split(dir);
        } else {
          JoinOfConcat(Split(dir), rest);
          assert p == dir + "/" + Join(rest);
        }
      }
    }
  }

  // ---------------------------------------------------------------- path.Clean

  /** One segment of the walk that resolves "." and "..". */
  function Resolve(out: seq<string>, seg: string, rooted: bool): seq<string> {
    if seg == "" || seg == "." then out
    else if seg == ".." then
      if out != [] && out[|out| - 1] != ".." then out[..|out| - 1]
      else if rooted then out
      else out + [".."]
    else out + [seg]
  }

  function Walk(out: seq<string>, segs: seq<string>, rooted: bool): seq<string>
    decreases |segs|
  {
    if segs == [] then out else Walk(Resolve(out, segs[0], rooted), segs[1..], rooted)
  }

  function Clean(p: string): string {
    if p == "" then "."
    else if p[0] == '/' then "/" + Join(Walk([], Split(p), true))
    else
      var segs := Walk([], Split(p), false);
      if segs == [] then "." else Join(segs)
  }

  /** path.Join of two elements: empty elements are ignored. */
  function JoinPath(a: string, b: string): string {
    if a == "" && b == "" then ""
    else if a == "" then Clean(b)
    else if b == "" then Clean(a)
    else Clean(a + "/" + b)
  }

  /** A cleaned path, with the root as "". */
  function CleanSlash(p: string): string {
    var c := Clean(p);
    if c == "." then "" else c
  }

  /** A segment that names an entry of a folder. */
  predicate Name(seg: string) {
    seg != "" && seg != "." && seg != ".." && '/' !in seg
  }

  predicate Names(segs: seq<string>) {
    forall i :: 0 <= i < |segs| ==> Name(segs[i])
  }

  /** A clean relative path that stays inside the tree it is relative to. */
  predicate Inside(p: string) {
    Names(Segs(p))
  }

  lemma {:induction false} WalkOfConcat(out: seq<string>, a: seq<string>, b: seq<string>, rooted: bool)
    ensures Walk(out, a + b, rooted) == Walk(Walk(out, a, rooted), b, rooted)
    decreases |a|
  {
    if a == [] {
      assert a + b == b;
    } else {
      assert (a + b)[1..] == a[1..] + b;
      WalkOfConcat(Resolve(out, a[0], rooted), a[1..], b, rooted);
    }
  }

  lemma {:induction false} WalkOfNames(out: seq<string>, segs: seq<string>, rooted: bool)
    requires Names(segs)
    ensures Walk(out, segs, rooted) == out + segs
    decreases |segs|
  {
    if segs != [] {
      WalkOfNames(out + [segs[0]], segs[1..], rooted);
      assert out + [segs[0]] + segs[1..] == out + segs;
    }
  }

  /** Climbing out, then names: the shape of every resolved relative path. */
  ghost predicate Resolved(segs: seq<string>) {
    exists k: nat :: Climbs(segs, k)
  }

  predicate Climbs(segs: seq<string>, k: nat) {
    && k <= |segs|
    && (forall i :: 0 <= i < k ==> segs[i] == "..")
    && (forall i :: k <= i < |segs| ==> Name(segs[i]))
  }

  lemma {:induction false} WalkResolves(out: seq<string>, segs: seq<string>)
    requires Resolved(out) && forall i :: 0 <= i < |segs| ==> '/' !in segs[i]
    ensures Resolved(Walk(out, segs, false))
    decreases |segs|
  {
    if segs != [] {
      ResolveResolves(out, segs[0]);
      WalkResolves(Resolve(out, segs[0], false), segs[1..]);
    }
  }

  lemma ResolveResolves(out: seq<string>, seg: string)
    requires Resolved(out) && '/' !in seg
    ensures Resolved(Resolve(out, seg, false))
  {
    var k: nat :| Climbs(out, k);
    var r := Resolve(out, seg, false);
    if seg == "" || seg == "." {
      assert Climbs(r, k);
    } else if seg == ".." {
      if k < |out| {
        assert Climbs(r, k);
      } else {
        assert Climbs(r, k + 1);
      }
    } else {
      assert Climbs(r, k);
    }
  }

  lemma {:induction false} RootedWalkNames(out: seq<string>, segs: seq<string>)
    requires Names(out) && forall i :: 0 <= i < |segs| ==> '/' !in segs[i]
    ensures Names(Walk(out, segs, true))
    decreases |segs|
  {
    if segs != [] {
      RootedWalkNames(Resolve(out, segs[0], true), segs[1..]);
    }
  }

  /** Once a walk has climbed out it stays out. */
  lemma {:induction false} ClimbedOutStaysOut(out: seq<string>, segs: seq<string>)
    requires out != [] && out[0] == ".."
    ensures Walk(out, segs, false) != [] && Walk(out, segs, false)[0] == ".."
    ensures !Names(Walk(out, segs, false))
    decreases |segs|
  {
    if segs != [] {
      ClimbedOutStaysOut(Resolve(out, segs[0], false), segs[1..]);
    }
  }

  /** A walk that does not climb out never touches what is above its start. */
  lemma {:induction false} WalkAbove(above: seq<string>, out: seq<string>, segs: seq<string>)
    requires Names(above) && Names(out) && forall i :: 0 <= i < |segs| ==> '/' !in segs[i]
    requires Names(Walk(out, segs, false))
    ensures Walk(above + out, segs, false) == above + Walk(out, segs, false)
    decreases |segs|
  {
    if segs != [] {
      var seg := segs[0];
      var next := Resolve(out, seg, false);
      if seg == ".." && out == [] {
        ClimbedOutStaysOut(next, segs[1..]);
      } else {
        assert Resolve(above + out, seg, false) == above + next;
        WalkAbove(above, next, segs[1..]);
      }
    }
  }

  // ------------------------------------------------------ what the code may assume

  lemma JoinIsRelative(segs: seq<string>)
    requires segs != [] && segs[0] != "" && '/' !in segs[0]
    ensures Join(segs) != "" && Join(segs)[0] != '/'
  {
    assert Join(segs)[0] == segs[0][0];
    assert segs[0][0] in segs[0];
  }

  /** Cleaning a relative path yields its resolved segments. */
  lemma CleanSlashSegs(p: string)
    requires p == "" || p[0] != '/'
    ensures Resolved(Segs(CleanSlash(p)))
    ensures Segs(CleanSlash(p)) == Walk([], Split(p), false)
  {
    var segs := Walk([], Split(p), false);
    assert Climbs([], 0);
    WalkResolves([], Split(p));
    if p == "" {
      assert Split(p)[1..] == [];
    }
    if segs != [] {
      var k: nat :| Climbs(segs, k);
      assert forall i :: 0 <= i < |segs| ==> '/' !in segs[i];
      SplitOfJoin(segs);
      JoinIsRelative(segs);
      if Join(segs) == "." {
        SplitOfSegment(".");
      }
    }
  }

  lemma CleanIsIdentity(p: string)
    requires Inside(p)
    ensures CleanSlash(p) == p
    ensures p != "" ==> Clean(p) == p && p[0] != '/'
  {
    if p != "" {
      JoinOfSplit(p);
      assert Segs(p) == Split(p);
      JoinIsRelative(Split(p));
      WalkOfNames([], Split(p), false);
      assert [] + Split(p) == Split(p);
      if p == "." { SplitOfSegment("."); }
    }
  }

  /** Joining a path that does not climb out to an inside folder appends its segments. */
  lemma JoinPathAppends(dir: string, rel: string)
    requires Inside(dir) && (rel == "" || rel[0] != '/') && Inside(CleanSlash(rel))
    ensures Segs(CleanSlash(JoinPath(dir, rel))) == Segs(dir) + Segs(CleanSlash(rel))
    ensures Inside(CleanSlash(JoinPath(dir, rel)))
  {
    CleanIsIdentity(dir);
    CleanSlashSegs(rel);
    if dir == "" {
      CleanTwice(rel);
    } else if rel == "" {
      CleanTwice(dir);
    } else {
      SplitOfConcat(dir, rel);
      WalkOfConcat([], Split(dir), Split(rel), false);
      WalkOfNames([], Split(dir), false);
      assert [] + Split(dir) == Split(dir) == Split(dir) + [];
      WalkAbove(Split(dir), [], Split(rel));
      CleanSlashSegs(dir + "/" + rel);
      CleanTwice(dir + "/" + rel);
    }
  }

  /** Cleaning is idempotent. */
  lemma CleanTwice(p: string)
    requires p == "" || p[0] != '/'
    requires Inside(CleanSlash(p))
    ensures CleanSlash(Clean(p)) == CleanSlash(p)
  {
    CleanIsIdentity(CleanSlash(p));
    assert Clean(".") == "." by { SplitOfSegment("."); }
  }

  /** Rooted paths clean to a slash and names, and stay as they are when cleaned again. */
  lemma CleanRooted(p: string)
    requires p != "" && p[0] == '/'
    ensures exists segs :: Names(segs) && Clean(p) == "/" + Join(segs)
    ensures Clean(p) != "." && Clean(Clean(p)) == Clean(p) && CleanSlash(p) == Clean(p)
    ensures Split(Clean(p))[0] == "" && Clean(p)[0] == '/'
  {
    var segs := Walk([], Split(p), true);
    RootedWalkNames([], Split(p));
    var c := "/" + Join(segs);
    assert Clean(p) == c && c[1..] == Join(segs) && c[0] == '/';
    assert Split(c) == [""] + Split(Join(segs));
    assert Split(c)[1..] == Split(Join(segs));
    if segs == [] {
      assert Walk([], [""], true) == Walk([], [""][1..], true);
    } else {
      SplitOfJoin(segs);
      WalkOfNames([], segs, true);
      assert [] + segs == segs;
    }
  }

  // ------------------------------------------------------------------ path.Dir

  /** Everything up to and including the last slash. */
  function DirPart(p: string): string {
    var segs := Split(p);
    if |segs| == 1 then "" else Join(segs[..|segs| - 1]) + "/"
  }

  function BaseName(p: string): string {
    var segs := Split(p);
    segs[|segs| - 1]
  }

  /** path.Dir with the root as "". */
  function DirOf(p: string): string {
    CleanSlash(Clean(DirPart(p)))
  }

  lemma DirOfInside(p: string)
    requires Inside(p) && p != ""
    ensures Inside(DirOf(p)) && Segs(DirOf(p)) == Segs(p)[..|Segs(p)| - 1]
  {
    var segs := Split(p);
    var up := segs[..|segs| - 1];
    assert Segs(p) == segs;
    if up == [] {
      assert Clean("") == "." && Clean(".") == "." by { SplitOfSegment("."); }
    } else {
      SplitOfJoin(up);
      JoinIsRelative(up);
      SplitOfConcat(Join(up), "");
      assert Join(up) + "/" + "" == DirPart(p);
      WalkOfConcat([], up, [""], false);
      WalkOfNames([], up, false);
      assert [] + up == up;
      assert Walk(up, [""], false) == Walk(up, [""][1..], false);
      CleanSlashSegs(DirPart(p));
      CleanTwice(DirPart(p));
    }
  }

  lemma DirOfRooted(p: string)
    requires p != "" && p[0] == '/'
    ensures DirOf(p) != "" && DirOf(p)[0] == '/' && Split(DirOf(p))[0] == ""
  {
    var segs := Split(p);
    assert segs[0] == "";
    assert |segs| > 1;
    var d := DirPart(p);
    var up := segs[..|segs| - 1];
    assert up[0] == "" && |up| >= 1;
    assert d[0] == '/' by {
      if |up| > 1 { assert Join(up) == "" + "/" + Join(up[1..]); }
    }
    CleanRooted(d);
  }
}
