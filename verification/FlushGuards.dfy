/** What an accepted flush is known to satisfy on the worktree, and that everything else is
    refused (internal/git/plan_flush.go). */
module FlushGuards {
  import opened PrunePolicy
  import opened Documents
  import opened Ordering
  import opened Paths
  import opened RenderScope
  import opened PlanFlush

  // ------------------------------------------------- when the oracle is called for

  /** The change, made to the batch `m`, touches what a kustomization renders: it patches fields of
      a governed document, edits a rendered one, deletes from a file that a kustomization lists, or
      writes a new document into a file that joins one. */
  predicate TouchesRender(m: Batch, c: Change) {
    match c
    case FieldPatch(id, _) => id in m.located && id in m.governed
    case Delete(id) =>
      && AppliesEventDeletes(OrDefault(m.mode)) && id in m.located && m.located[id] in m.listed
      && Holds(DocsAt(m, m.located[id]), id)
    case Upsert(id, _, _, sensitive, place) =>
      if id in m.located then !sensitive && id in m.rendered && Holds(DocsAt(m, m.located[id]), id)
      else place.Placed? && place.governed && WritesAt(m, c, place.path)
  }

  /** The change leaves other documents in the file, or a file where there was none. */
  predicate WritesAt(m: Batch, c: Change, rel: string) {
    BufferAt(ApplyChange(m, c), rel).current != BufferAt(m, rel).current
  }

  lemma ArmedByChange(m: Batch, c: Change)
    ensures ApplyChange(m, c).putToKustomize <==> m.putToKustomize || TouchesRender(m, c)
  {
    hide EditFirst, DropFirst;
  }

  /** The change at `i` touches what a kustomization renders, when its turn comes. */
  predicate TouchesAt(b: Batch, cs: seq<Change>, i: int) {
    0 <= i < |cs| && TouchesRender(ApplyChanges(b, cs[..i]), cs[i])
  }

  ghost predicate AnyTouchesRender(b: Batch, cs: seq<Change>) {
    exists i :: TouchesAt(b, cs, i)
  }

  lemma TouchesAtPrefix(b: Batch, cs: seq<Change>, n: nat, i: int)
    requires n <= |cs|
    ensures TouchesAt(b, cs[..n], i) <==> i < n && TouchesAt(b, cs, i)
  {
    hide ApplyChanges, TouchesRender;
    if 0 <= i < n { assert cs[..n][..i] == cs[..i]; }
  }

  /** The oracle is called for exactly when some change touches what a kustomization renders. */
  lemma {:induction false} ArmedExactly(b: Batch, cs: seq<Change>)
    ensures ApplyChanges(b, cs).putToKustomize <==> b.putToKustomize || AnyTouchesRender(b, cs)
  {
    hide ApplyChange, TouchesRender;
    if cs == [] {
      assert forall i :: !TouchesAt(b, cs, i);
    } else {
      var n := |cs| - 1;
      ArmedExactly(b, cs[..n]);
      ArmedByChange(ApplyChanges(b, cs[..n]), cs[n]);
      assert TouchesAt(b, cs, n) <==> TouchesRender(ApplyChanges(b, cs[..n]), cs[n]);
      forall i ensures TouchesAt(b, cs, i) <==> (i == n && TouchesAt(b, cs, n)) || TouchesAt(b, cs[..n], i) { TouchesAtPrefix(b, cs, n, i); }
      hide TouchesAt, ApplyChanges;
    }
  }

  // -------------------------------------------------------------- the verdict

  predicate Refusing(writeSubdir: string, g: Guards, rel: string) {
    g.ignores(RelUnder(writeSubdir, rel)) || WriteEscapes(writeSubdir, rel) || g.shared(rel)
  }

  /** A plan is accepted if and only if none of the paths it writes is ignored, outside the folder or
      shared, and the oracle vouches for it if a change touched what a kustomization renders. */
  lemma AcceptedExactly(b: Batch, cs: seq<Change>, writeSubdir: string, g: Guards)
    requires !b.putToKustomize
    ensures var after := ApplyChanges(b, cs);
            Verdict(after, writeSubdir, g).None? <==>
            && (forall rel :: rel in after.buffers && Planned(after.buffers[rel]) ==> !Refusing(writeSubdir, g, rel))
            && (AnyTouchesRender(b, cs) ==> g.vouches(PlanFlush.Scanned(b), Folded(after)))
  {
    ArmedExactly(b, cs);
    ChangesKeepScan(b, cs);
    var after := ApplyChanges(b, cs);
    hide ApplyChanges, AnyTouchesRender, Planned, Folded, WriteEscapes, RelUnder;
    assert PlanFlush.Scanned(after) == PlanFlush.Scanned(b);
    var ignored := rel => g.ignores(RelUnder(writeSubdir, rel));
    var outside := rel => WriteEscapes(writeSubdir, rel);
    assert AnyPlanned(after, ignored) <==> exists rel :: rel in after.buffers && Planned(after.buffers[rel]) && g.ignores(RelUnder(writeSubdir, rel));
    assert AnyPlanned(after, outside) <==> exists rel :: rel in after.buffers && Planned(after.buffers[rel]) && WriteEscapes(writeSubdir, rel);
  }

  /** Some path the plan writes is bad. */
  ghost predicate Plans(b: Batch, bad: string -> bool) {
    exists rel :: rel in b.buffers && Planned(b.buffers[rel]) && bad(rel)
  }

  /** A refusal names the first of the checks that fails. */
  lemma RefusalNamesFirst(b: Batch, writeSubdir: string, g: Guards)
    ensures var ignored := Plans(b, rel => g.ignores(RelUnder(writeSubdir, rel)));
            var outside := Plans(b, rel => WriteEscapes(writeSubdir, rel));
            var shared := Plans(b, g.shared);
            && (Verdict(b, writeSubdir, g) == Some(Shadowed) <==> ignored)
            && (Verdict(b, writeSubdir, g) == Some(EscapesScope) <==> !ignored && outside)
            && (Verdict(b, writeSubdir, g) == Some(SharedSource) <==> !ignored && !outside && shared)
            && (Verdict(b, writeSubdir, g) == Some(RenderRefused) ==> !ignored && !outside && !shared)
  {
    hide Planned, WriteEscapes, RelUnder, Folded;
    assert forall bad: string -> bool :: Plans(b, bad) <==> AnyPlanned(b, bad);
  }

  // ------------------------------------------------------ an accepted flush on disk

  /** The folder as the batch finds it: scanned completely, under clean paths, its documents not
      empty. */
  ghost predicate Found(b: Batch, cs: seq<Change>, d: Disk, anchor: string) {
    var after := ApplyChanges(b, cs);
    && b.buffers == map[] && b.bundles == map[] && !b.putToKustomize && PlacesFit(b, cs)
    && (forall i :: 0 <= i < |cs| && cs[i].Upsert? ==> cs[i].text != "")
    && CleanKeys(after.content.Keys + after.buffers.Keys)
    && Seen(d, anchor, after.content.Keys + after.buffers.Keys) == PlanFlush.Scanned(b)
  }

  /** No path whose bytes an accepted flush changes is ignored, shared or outside the folder. */
  lemma FlushIsGuarded(sc: Scope, base: string, b: Batch, cs: seq<Change>, g: Guards, d: Disk, keys: seq<string>, rel: string)
    requires Inside(sc.renderBase) && Inside(sc.writeSubdir) && Inside(base)
    requires Segs(sc.renderBase) + Segs(sc.writeSubdir) == Segs(base)
    requires Found(b, cs, d, sc.renderBase) && Verdict(ApplyChanges(b, cs), sc.writeSubdir, g).None?
    requires (forall k :: k in keys ==> k in ApplyChanges(b, cs).buffers) && Inside(rel)
    requires var p := PlaceOf(sc.renderBase, rel);
             Peek(WriteAll(d, sc.renderBase, ApplyChanges(b, cs).buffers, keys), p) != Peek(d, p)
    ensures !g.ignores(RelUnder(sc.writeSubdir, rel)) && !g.shared(rel)
    ensures Inside(PlaceOf(sc.renderBase, rel)) && Segs(base) <= Segs(PlaceOf(sc.renderBase, rel))
  {
    var after := ApplyChanges(b, cs);
    AcceptedExactly(b, cs, sc.writeSubdir, g);
    var p := PlaceOf(sc.renderBase, rel);
    assert CleanKeys(after.content.Keys + after.buffers.Keys);
    hide ApplyChanges, Found, PlaceOf, WriteAll, Segs, Names, WriteEscapes, RelUnder, Inside, Verdict, Planned;
    FlushStaysInside(sc, base, after, g, d, keys, p);
    if forall k :: k in keys && Planned(after.buffers[k]) ==> PlaceOf(sc.renderBase, k) != p {
      WritesOnlyPlannedPlaces(d, sc.renderBase, after.buffers, keys, p);
    } else {
      var k :| k in keys && Planned(after.buffers[k]) && PlaceOf(sc.renderBase, k) == p;
      PlacesDiffer(sc.renderBase, k, rel);
      assert !Refusing(sc.writeSubdir, g, k);
    }
  }

  /** If a change of an accepted flush touches what a kustomization renders, the oracle vouched for
      the folder as it was found and as it stands on disk afterwards. */
  lemma OracleVouchedForDisk(sc: Scope, b: Batch, cs: seq<Change>, g: Guards, d: Disk, keys: seq<string>)
    requires Inside(sc.renderBase) && Found(b, cs, d, sc.renderBase) && Verdict(ApplyChanges(b, cs), sc.writeSubdir, g).None?
    requires Ascending(keys) && (forall k :: k in keys <==> k in ApplyChanges(b, cs).buffers)
    requires AnyTouchesRender(b, cs)
    ensures var after := ApplyChanges(b, cs);
            var all := after.content.Keys + after.buffers.Keys;
            g.vouches(Seen(d, sc.renderBase, all), Seen(WriteAll(d, sc.renderBase, after.buffers, keys), sc.renderBase, all))
  {
    var after := ApplyChanges(b, cs);
    AcceptedExactly(b, cs, sc.writeSubdir, g);
    ChangesKeepScan(b, cs);
    FoundIsReal(b, cs, d, sc.renderBase);
    hide ApplyChanges, Found, PlaceOf, WriteAll, Inside, Verdict, AnyTouchesRender, Less, Folded, NewAndEmpty;
    OracleJudgesWhatIsCommitted(after, d, sc.renderBase, keys);
  }

  lemma FoundIsReal(b: Batch, cs: seq<Change>, d: Disk, anchor: string)
    requires Found(b, cs, d, anchor)
    ensures var after := ApplyChanges(b, cs);
            && Faithful(after) && CleanKeys(after.content.Keys + after.buffers.Keys)
            && Seen(d, anchor, after.content.Keys + after.buffers.Keys) == PlanFlush.Scanned(b) == PlanFlush.Scanned(after)
            && forall k :: k in after.buffers ==> !NewAndEmpty(after.buffers[k])
  {
    var after := ApplyChanges(b, cs);
    ChangesKeepScan(b, cs);
    hide ApplyChanges, NewAndEmpty;
    assert Faithful(b);
    forall k | k in after.buffers ensures !NewAndEmpty(after.buffers[k]) { RealContentIsNotEmpty(b, cs, k); }
  }

  /** A flush changes the bytes at the place of a buffer if and only if the buffer is planned, so it
      reports a change exactly when there is one. */
  lemma PlannedExactlyChanged(b: Batch, cs: seq<Change>, d: Disk, anchor: string, keys: seq<string>, k: string)
    requires Inside(anchor) && Found(b, cs, d, anchor)
    requires Ascending(keys) && (forall j :: j in keys <==> j in ApplyChanges(b, cs).buffers) && k in keys
    ensures var buffers := ApplyChanges(b, cs).buffers;
            Planned(buffers[k]) <==> Peek(WriteAll(d, anchor, buffers, keys), PlaceOf(anchor, k)) != Peek(d, PlaceOf(anchor, k))
  {
    var after := ApplyChanges(b, cs);
    var all := after.content.Keys + after.buffers.Keys;
    FoundIsReal(b, cs, d, anchor);
    hide ApplyChanges, Found, PlaceOf, WriteAll, Inside, Less, Bytes;
    assert CleanKeys(after.buffers.Keys) by { assert after.buffers.Keys <= all; }
    WritesEachPlace(d, anchor, after.buffers, keys, k);
    assert Peek(Seen(d, anchor, all), k) == Peek(d, PlaceOf(anchor, k));
    assert !NewAndEmpty(after.buffers[k]) && after.buffers[k].original == Lookup(after.content, k);
  }
}
