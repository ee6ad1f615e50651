/** The write batch object (internal/git/plan_flush.go). Every method is the transition of the
    same purpose in PlanFlush, so the theorems about batches hold of it. */
module WriteBatches {
  import opened PrunePolicy
  import opened Documents
  import opened Ordering
  import opened RenderScope
  import P = PlanFlush
  import opened PlanFlush

  class Worktree {
    var files: Disk

    constructor (files: Disk)
      ensures this.files == files
    {
      this.files := files;
    }
  }

  datatype FlushResult = FlushRefused(check: Check) | Flushed(changed: bool)

  class WriteBatch {
    const content: P.Tree
    const located: map<Id, string>
    const rendered: set<Id>
    const governed: set<Id>
    const listed: set<string>
    const mode: PruneMode
    const writeSubdir: string
    var buffers: map<string, Buffer>
    var coldBundles: map<string, seq<Member>>
    var putToKustomize: bool

    function View(): Batch
      reads this
    {
      Batch(content, located, rendered, governed, listed, mode, buffers, coldBundles, putToKustomize)
    }

    constructor (content: P.Tree, located: map<Id, string>, rendered: set<Id>, governed: set<Id>, listed: set<string>,
                 mode: PruneMode, writeSubdir: string)
      ensures View() == NewBatch(content, located, rendered, governed, listed, mode) && this.writeSubdir == writeSubdir
    {
      this.content, this.located, this.rendered, this.governed, this.listed := content, located, rendered, governed, listed;
      this.mode, this.writeSubdir := mode, writeSubdir;
      buffers, coldBundles, putToKustomize := map[], map[], false;
    }

    /** The working copy of a file, read from the scan on first touch. */
    method Touch(rel: string) returns (buf: Buffer)
      modifies `buffers
      ensures View() == Hydrated(old(View()), rel) && buf == BufferAt(old(View()), rel) && rel in buffers && buffers[rel] == buf
    {
      if rel !in buffers {
        var orig := if rel in content then Some(content[rel]) else None;
        buffers := buffers[rel := Buffer(orig, orig)];
      }
      buf := buffers[rel];
      assert buffers == old(buffers)[rel := buf];
    }

    /** The position of the identity among the documents as they are now. */
    static method CurrentDocIndex(docs: Content, id: Id) returns (i: nat, ok: bool)
      ensures ok <==> Holds(docs, id)
      ensures ok ==> i < |docs| && docs[i].id == Some(id) && !Holds(docs[..i], id)
    {
      i := 0;
      while i < |docs|
        invariant 0 <= i <= |docs|
        invariant !Holds(docs[..i], id)
      {
        if docs[i].id == Some(id) {
          return i, true;
        }
        assert docs[..i + 1] == docs[..i] + [docs[i]];
        HoldsOfConcat(docs[..i], [docs[i]], id);
        i := i + 1;
      }
      assert docs[..i] == docs;
      return i, false;
    }

    method PatchExisting(rel: string, id: Id, edit: string -> string, arms: bool)
      modifies `buffers, `putToKustomize
      ensures View() == P.PatchExisting(old(View()), rel, id, edit, arms)
    {
      hide EditFirst, Holds, OnlyAt;
      var buf := Touch(rel);
      if buf.current.None? {
        return;
      }
      var docs := buf.current.value;
      var i, ok := CurrentDocIndex(docs, id);
      if !ok {
        return;
      }
      IndexAddressesFirst(docs, id, i, edit);
      buffers := buffers[rel := buf.(current := Some(docs[i := Doc(Some(id), edit(docs[i].text))]))];
      if arms {
        putToKustomize := true;
      }
    }

    method ApplyFieldPatch(id: Id, edit: string -> string)
      modifies `buffers, `putToKustomize
      ensures View() == P.ApplyFieldPatch(old(View()), id, edit)
    {
      hide P.PatchExisting;
      if id !in located {
        return;
      }
      if id in governed {
        putToKustomize := true;
      }
      PatchExisting(located[id], id, edit, false);
    }

    method ApplyDelete(id: Id)
      modifies `buffers, `putToKustomize
      ensures View() == P.ApplyDelete(old(View()), id)
    {
      hide DropFirst, Holds, OnlyAt;
      if !AppliesEventDeletes(OrDefault(mode)) || id !in located {
        return;
      }
      var rel := located[id];
      var buf := Touch(rel);
      if buf.current.None? {
        return;
      }
      var docs := buf.current.value;
      var i, ok := CurrentDocIndex(docs, id);
      if !ok {
        return;
      }
      IndexAddressesFirst(docs, id, i, t => t);
      if rel in listed {
        putToKustomize := true;
      }
      var left := docs[..i] + docs[i + 1..];
      buffers := buffers[rel := buf.(current := if left == [] then None else Some(left))];
    }

    method WriteWholeFile(rel: string, doc: Doc)
      modifies `buffers
      ensures View() == P.WriteWholeFile(old(View()), rel, doc)
    {
      var buf := Touch(rel);
      if buf.current.Some? && (|buf.current.value| > 1 || buf.current.value == [doc]) {
        return;
      }
      buffers := buffers[rel := buf.(current := Some([doc]))];
    }

    method AppendNewDocument(rel: string, doc: Doc)
      modifies `buffers
      ensures View() == AppendNew(old(View()), rel, doc)
    {
      var buf := Touch(rel);
      var docs := if buf.current.Some? then buf.current.value else [];
      buffers := buffers[rel := buf.(current := Some(docs + [doc]))];
    }

    method ColdBundleHasSensitive(rel: string) returns (r: bool)
      ensures r == HasSensitive(Bundle(View(), rel))
    {
      var ms := if rel in coldBundles then coldBundles[rel] else [];
      for i := 0 to |ms|
        invariant forall k :: 0 <= k < i ==> !ms[k].sensitive
      {
        if ms[i].sensitive {
          return true;
        }
      }
      return false;
    }

    /** Re-sorts the members of a new file and rebuilds it from scratch. */
    method WriteColdBundleMember(rel: string, m: Member)
      modifies `buffers, `coldBundles
      ensures View() == WriteBundleMember(old(View()), rel, m)
    {
      hide InsertMember, OnlyAt;
      var ms := if rel in coldBundles then coldBundles[rel] else [];
      ms := InsertMember(ms, m);
      coldBundles := coldBundles[rel := ms];
      var rebuilt: Content := [];
      for i := 0 to |ms|
        invariant |rebuilt| == i && forall k :: 0 <= k < i ==> rebuilt[k] == DocsOf(ms)[k]
      {
        rebuilt := rebuilt + [Doc(Some(ms[i].id), ms[i].text)];
      }
      assert rebuilt == DocsOf(ms);
      var buf := Touch(rel);
      buffers := buffers[rel := buf.(current := Some(rebuilt))];
    }

    method PlaceNewDocument(c: Change)
      requires c.Upsert? && c.place.Placed?
      modifies `buffers, `coldBundles
      ensures View() == PlaceNew(old(View()), c)
    {
      hide AppendNew, P.WriteWholeFile, WriteBundleMember;
      var rel := c.place.path;
      if c.place.append {
        AppendNewDocument(rel, Doc(Some(c.id), c.text));
        return;
      }
      var was := if rel in buffers then buffers[rel] else Buffer(Lookup(content, rel), Lookup(content, rel));
      if was.original.None? {
        var mixed := ColdBundleHasSensitive(rel);
        if was.current.Some? && (c.sensitive || mixed) {
          was := Touch(rel);
          return;
        }
        WriteColdBundleMember(rel, Member(c.id, c.text, c.sensitive));
      } else {
        WriteWholeFile(rel, Doc(Some(c.id), c.text));
      }
    }

    method CreateNewDocument(c: Change)
      requires c.Upsert?
      modifies `buffers, `coldBundles, `putToKustomize
      ensures View() == CreateNew(old(View()), c)
    {
      hide PlaceNew;
      if c.place.Unplaced? {
        return;
      }
      var before := if c.place.path in buffers then buffers[c.place.path].current else Lookup(content, c.place.path);
      PlaceNewDocument(c);
      if before != buffers[c.place.path].current && c.place.governed {
        putToKustomize := true;
      }
    }

    method ApplyEvent(c: Change)
      modifies `buffers, `coldBundles, `putToKustomize
      ensures View() == ApplyChange(old(View()), c)
    {
      hide P.ApplyFieldPatch, P.PatchExisting, P.ApplyDelete, P.WriteWholeFile, CreateNew;
      match c
      case FieldPatch(id, edit) => ApplyFieldPatch(id, edit);
      case Delete(id) => ApplyDelete(id);
      case Upsert(id, edit, text, sensitive, place) =>
        if id !in located {
          CreateNewDocument(c);
        } else if sensitive {
          WriteWholeFile(located[id], Doc(Some(id), text));
        } else {
          PatchExisting(located[id], id, edit, id in rendered);
        }
    }

    method ApplyEvents(cs: seq<Change>)
      modifies `buffers, `coldBundles, `putToKustomize
      ensures View() == ApplyChanges(old(View()), cs)
    {
      hide ApplyChange;
      for i := 0 to |cs|
        invariant View() == ApplyChanges(old(View()), cs[..i])
      {
        assert cs[..i + 1][..i] == cs[..i];
        ApplyEvent(cs[i]);
      }
      assert cs[..|cs|] == cs;
    }

    // -------------------------------------------------------------------- flush

    /** The planned paths a check refuses, in order. */
    method Refusals(bad: string -> bool) returns (paths: seq<string>)
      ensures Ascending(paths)
      ensures forall rel :: rel in paths <==> rel in buffers && Planned(buffers[rel]) && bad(rel)
    {
      hide Planned, Less;
      paths := [];
      var keys := SortedKeys(buffers.Keys);
      for i := 0 to |keys|
        invariant forall rel :: rel in paths <==> rel in keys[..i] && Planned(buffers[rel]) && bad(rel)
        invariant Ascending(paths) && forall k, j :: 0 <= k < |paths| && i <= j < |keys| ==> Less(paths[k], keys[j])
      {
        var rel := keys[i];
        assert keys[..i + 1] == keys[..i] + [rel];
        if Planned(buffers[rel]) && bad(rel) {
          paths := paths + [rel];
        }
      }
      assert keys[..|keys|] == keys;
    }

    /** The complete tree as the flush would leave it. */
    method Files() returns (tree: Disk)
      ensures tree == Folded(View())
    {
      hide Bytes;
      tree := map rel | rel in content :: Bytes(content[rel]);
      var keys := SortedKeys(buffers.Keys);
      ghost var done: set<string> := {};
      for i := 0 to |keys|
        invariant done == set rel | rel in keys[..i]
        invariant forall rel :: rel in done ==> rel in buffers
        invariant forall rel :: rel !in done ==> Peek(tree, rel) == if rel in content then Some(Bytes(content[rel])) else None
        invariant forall rel :: rel in done ==>
                    Peek(tree, rel) == if buffers[rel].current.Some? then Some(Bytes(buffers[rel].current.value)) else None
      {
        var rel := keys[i];
        assert keys[..i + 1] == keys[..i] + [rel];
        if buffers[rel].current.None? {
          tree := tree - {rel};
        } else {
          tree := tree[rel := Bytes(buffers[rel].current.value)];
        }
        done := done + {rel};
      }
      assert keys[..|keys|] == keys;
      assert done == buffers.Keys;
      SameLookups(tree, Folded(View()), tree.Keys + content.Keys + buffers.Keys);
    }

    /** Checks the plan, then writes it. A refusal leaves the worktree as it was; otherwise
        exactly the planned buffers are written or removed. */
    method Flush(wt: Worktree, anchor: string, g: Guards) returns (r: FlushResult)
      modifies wt
      ensures match Verdict(View(), writeSubdir, g)
              case Some(check) => r == FlushRefused(check) && wt.files == old(wt.files)
              case None =>
                && r == Flushed(exists rel :: rel in buffers && Planned(buffers[rel]))
                && exists keys :: Ascending(keys) && Lists(keys, buffers.Keys)
                                  && wt.files == WriteAll(old(wt.files), anchor, buffers, keys)
    {
      hide Verdict, WriteAll, Planned;
      var refused := CheckPlan(g);
      if refused.Some? {
        return FlushRefused(refused.value);
      }
      var changed := WriteBuffers(wt, anchor);
      r := Flushed(changed);
    }

    method WriteBuffers(wt: Worktree, anchor: string) returns (changed: bool)
      modifies wt
      ensures changed <==> exists rel :: rel in buffers && Planned(buffers[rel])
      ensures exists keys :: Ascending(keys) && Lists(keys, buffers.Keys)
                             && wt.files == WriteAll(old(wt.files), anchor, buffers, keys)
    {
      hide Less, Planned, WriteOne;
      var keys := SortedKeys(buffers.Keys);
      changed := false;
      for i := 0 to |keys|
        invariant forall k :: k in keys[..i] ==> k in buffers
        invariant wt.files == WriteAll(old(wt.files), anchor, buffers, keys[..i])
        invariant changed <==> exists rel :: rel in keys[..i] && Planned(buffers[rel])
      {
        var rel := keys[i];
        assert keys[..i + 1] == keys[..i] + [rel];
        assert keys[..i + 1][..i] == keys[..i];
        changed := WriteBuffer(wt, anchor, rel, changed);
      }
      assert keys[..|keys|] == keys;
    }

    method WriteBuffer(wt: Worktree, anchor: string, rel: string, before: bool) returns (changed: bool)
      requires rel in buffers
      modifies wt
      ensures wt.files == WriteOne(old(wt.files), anchor, rel, buffers[rel])
      ensures changed == (before || Planned(buffers[rel]))
    {
      var buf := buffers[rel];
      var place := PlaceOf(anchor, rel);
      changed := before;
      if Deleted(buf) {
        wt.files := wt.files - {place};
        changed := true;
      } else if Dirty(buf) {
        wt.files := wt.files[place := Bytes(buf.current.value)];
        changed := true;
      }
    }

    /** The preconditions, before any byte is touched. */
    method CheckPlan(g: Guards) returns (r: Option<Check>)
      ensures r == Verdict(View(), writeSubdir, g)
    {
      hide Planned, WriteEscapes, RelUnder, Folded;
      var sub := writeSubdir;
      var shadowed := Refusals(rel => g.ignores(RelUnder(sub, rel)));
      if shadowed != [] {
        assert shadowed[0] in shadowed;
        return Some(Shadowed);
      }
      var escaping := Refusals(rel => WriteEscapes(sub, rel));
      if escaping != [] {
        assert escaping[0] in escaping;
        return Some(EscapesScope);
      }
      var shared := Refusals(g.shared);
      if shared != [] {
        assert shared[0] in shared;
        return Some(SharedSource);
      }
      if putToKustomize {
        var after := Files();
        var before := map rel | rel in content :: Bytes(content[rel]);
        if !g.vouches(before, after) {
          return Some(RenderRefused);
        }
      }
      return None;
    }
  }
}
