/** The plan-then-flush batch of one GitTarget folder (internal/git/plan_flush.go): buffers over
    the scanned files, the edits events make to them, and the flush to the worktree.

    A file is the sequence of its YAML documents; `Bytes` gives the text they are written as.
    The YAML editor, new-file placement and the kustomize oracle are parameters. */
module PlanFlush {
  import opened PrunePolicy
  import opened Documents
  import opened Ordering
  import opened Paths
  import opened RenderScope

  type Id = string

  /** One document; one that is not a manifest has no identity. */
  datatype Doc = Doc(id: Option<Id>, text: string)

  type Content = seq<Doc>

  /** File contents by path. */
  type Tree = map<string, Content>

  /** Appends a document after a separator line. */
  function AppendYaml(existing: string, doc: string): string {
    if existing == "" then doc
    else if existing[|existing| - 1] != '\n' then existing + "\n" + "---\n" + doc
    else existing + "---\n" + doc
  }

  function Bytes(c: Content): string {
    if c == [] then "" else AppendYaml(Bytes(c[..|c| - 1]), c[|c| - 1].text)
  }

  // -------------------------------------------------------------------- buffers

  /** `None` is Go's nil slice: no such file before, or no such file any more. */
  datatype Buffer = Buffer(original: Option<Content>, current: Option<Content>)

  /** The comparison of bytes does not tell a missing original from an empty one. */
  predicate Dirty(b: Buffer) {
    b.current.Some? && Bytes(b.current.value) != if b.original.Some? then Bytes(b.original.value) else ""
  }

  predicate Deleted(b: Buffer) {
    b.current.None? && b.original.Some?
  }

  predicate Planned(b: Buffer) {
    Dirty(b) || Deleted(b)
  }

  /** A member of a file that the batch itself creates. */
  datatype Member = Member(id: Id, text: string, sensitive: bool)

  /** Where a new document goes: nowhere safe, or a path, to be appended to an accepted file
      there or to start one; `governed` when the path joins a kustomization. */
  datatype Placement = Unplaced | Placed(path: string, append: bool, governed: bool)

  datatype Change =
    | Upsert(id: Id, edit: string -> string, text: string, sensitive: bool, place: Placement)
    | FieldPatch(id: Id, edit: string -> string)
    | Delete(id: Id)

  /** The batch. `located` is the file of every managed identity at scan time, `governed` the
      identities an override entry of a kustomization sets values of, `rendered` the
      identities a render root produces, `listed` the files a kustomization lists. */
  datatype Batch = Batch(
    content: Tree,
    located: map<Id, string>,
    rendered: set<Id>,
    governed: set<Id>,
    listed: set<string>,
    mode: PruneMode,
    buffers: map<string, Buffer>,
    bundles: map<string, seq<Member>>,
    putToKustomize: bool)

  function Lookup(t: Tree, rel: string): Option<Content> {
    if rel in t then Some(t[rel]) else None
  }

  function BufferAt(b: Batch, rel: string): Buffer {
    if rel in b.buffers then b.buffers[rel] else Buffer(Lookup(b.content, rel), Lookup(b.content, rel))
  }

  /** What every change leaves alone. */
  predicate SameScan(a: Batch, b: Batch) {
    && a.content == b.content && a.located == b.located && a.rendered == b.rendered && a.governed == b.governed
    && a.listed == b.listed && a.mode == b.mode
  }

  /** Only the buffer and the bundle of `rel` may differ, and its original does not. */
  ghost predicate OnlyAt(b: Batch, after: Batch, rel: string) {
    && SameScan(after, b)
    && rel in after.buffers && after.buffers[rel].original == BufferAt(b, rel).original
    && (forall k :: k != rel ==> (k in after.buffers <==> k in b.buffers))
    && (forall k :: k != rel && k in b.buffers ==> after.buffers[k] == b.buffers[k])
    && (forall k :: k != rel ==> Bundle(after, k) == Bundle(b, k))
  }

  function WithCurrent(b: Batch, rel: string, c: Option<Content>): (r: Batch)
    ensures OnlyAt(b, r, rel) && BufferAt(r, rel).current == c && r.bundles == b.bundles
  {
    b.(buffers := b.buffers[rel := BufferAt(b, rel).(current := c)])
  }

  /** Touching a file without changing it. */
  function Hydrated(b: Batch, rel: string): (r: Batch)
    ensures OnlyAt(b, r, rel) && BufferAt(r, rel) == BufferAt(b, rel) && r.bundles == b.bundles
  {
    b.(buffers := b.buffers[rel := BufferAt(b, rel)])
  }

  // ------------------------------------------------------- edits inside a file

  predicate Holds(docs: Content, id: Id) {
    exists i :: 0 <= i < |docs| && docs[i].id == Some(id)
  }

  /** Rewrites the first document of the identity. */
  function EditFirst(docs: Content, id: Id, edit: string -> string): (r: Content)
    ensures |r| == |docs|
  {
    if docs == [] then []
    else if docs[0].id == Some(id) then [Doc(Some(id), edit(docs[0].text))] + docs[1..]
    else [docs[0]] + EditFirst(docs[1..], id, edit)
  }

  /** Drops the first document of the identity. */
  function DropFirst(docs: Content, id: Id): Content {
    if docs == [] then []
    else if docs[0].id == Some(id) then docs[1..]
    else [docs[0]] + DropFirst(docs[1..], id)
  }

  /** What the index found by a search over the present documents addresses. */
  lemma {:induction false} IndexAddressesFirst(docs: Content, id: Id, i: nat, edit: string -> string)
    requires i < |docs| && docs[i].id == Some(id) && !Holds(docs[..i], id)
    ensures docs[i := Doc(Some(id), edit(docs[i].text))] == EditFirst(docs, id, edit)
    ensures docs[..i] + docs[i + 1..] == DropFirst(docs, id)
  {
    if i > 0 {
      var rest := docs[1..];
      assert docs[..i][0] == docs[0];
      assert rest[..i - 1] == docs[..i][1..];
      TailHolds(docs[..i], id);
      IndexAddressesFirst(rest, id, i - 1, edit);
      assert docs == [docs[0]] + rest;
      assert docs[i := Doc(Some(id), edit(docs[i].text))] == [docs[0]] + rest[i - 1 := Doc(Some(id), edit(rest[i - 1].text))];
      assert docs[..i] + docs[i + 1..] == [docs[0]] + (rest[..i - 1] + rest[i..]);
    }
  }

  lemma {:induction false} AbsentIsUntouched(docs: Content, id: Id, edit: string -> string)
    requires !Holds(docs, id)
    ensures EditFirst(docs, id, edit) == docs && DropFirst(docs, id) == docs
  {
    if docs != [] {
      assert docs[0].id != Some(id);
      TailHolds(docs, id);
      AbsentIsUntouched(docs[1..], id, edit);
    }
  }

  lemma TailHolds(docs: Content, id: Id)
    requires docs != []
    ensures Holds(docs, id) <==> docs[0].id == Some(id) || Holds(docs[1..], id)
  {
    if Holds(docs[1..], id) {
      var k :| 0 <= k < |docs| - 1 && docs[1..][k].id == Some(id);
      assert docs[k + 1].id == Some(id);
    }
    if Holds(docs, id) {
      var k :| 0 <= k < |docs| && docs[k].id == Some(id);
      if k > 0 { assert docs[1..][k - 1].id == Some(id); }
    }
  }

  /** Edits a document where it is; `arms` when that calls for the oracle. */
  function PatchExisting(b: Batch, rel: string, id: Id, edit: string -> string, arms: bool): (r: Batch)
    ensures OnlyAt(b, r, rel) && r.bundles == b.bundles
  {
    var cur := BufferAt(b, rel).current;
    if cur.None? || !Holds(cur.value, id) then Hydrated(b, rel)
    else WithCurrent(b, rel, Some(EditFirst(cur.value, id, edit)))
         .(putToKustomize := b.putToKustomize || arms)
  }

  /** A field patch of a governed document calls for the oracle before the document is looked for. */
  function ApplyFieldPatch(b: Batch, id: Id, edit: string -> string): (r: Batch)
    ensures r == b || (id in b.located && OnlyAt(b, r, b.located[id]))
    ensures r.bundles == b.bundles
  {
    if id !in b.located then b
    else PatchExisting(b.(putToKustomize := b.putToKustomize || id in b.governed), b.located[id], id, edit, false)
  }

  /** Removing the last document removes the file. */
  function ApplyDelete(b: Batch, id: Id): (r: Batch)
    ensures r == b || (id in b.located && OnlyAt(b, r, b.located[id]))
    ensures r.bundles == b.bundles
  {
    if !AppliesEventDeletes(OrDefault(b.mode)) || id !in b.located then b
    else
      var rel := b.located[id];
      var cur := BufferAt(b, rel).current;
      if cur.None? || !Holds(cur.value, id) then Hydrated(b, rel)
      else
        var left := DropFirst(cur.value, id);
        WithCurrent(b, rel, if left == [] then None else Some(left))
        .(putToKustomize := b.putToKustomize || rel in b.listed)
  }

  /** Replaces a file that holds at most one document. */
  function WriteWholeFile(b: Batch, rel: string, doc: Doc): (r: Batch)
    ensures OnlyAt(b, r, rel) && r.bundles == b.bundles
  {
    var cur := BufferAt(b, rel).current;
    if cur.Some? && (|cur.value| > 1 || cur.value == [doc]) then Hydrated(b, rel)
    else WithCurrent(b, rel, Some([doc]))
  }

  function AppendNew(b: Batch, rel: string, doc: Doc): (r: Batch)
    ensures OnlyAt(b, r, rel) && r.bundles == b.bundles
  {
    var cur := BufferAt(b, rel).current;
    WithCurrent(b, rel, Some((if cur.Some? then cur.value else []) + [doc]))
  }

  // --------------------------------------------------------------- cold bundles

  /** Keeps the members of a new file in identity order. */
  function InsertMember(ms: seq<Member>, m: Member): seq<Member> {
    if ms == [] then [m]
    else if Less(m.id, ms[0].id) then [m] + ms
    else [ms[0]] + InsertMember(ms[1..], m)
  }

  function DocsOf(ms: seq<Member>): (docs: Content)
    ensures |docs| == |ms|
    ensures forall i :: 0 <= i < |ms| ==> docs[i] == Doc(Some(ms[i].id), ms[i].text)
  {
    seq(|ms|, i requires 0 <= i < |ms| => Doc(Some(ms[i].id), ms[i].text))
  }

  function Bundle(b: Batch, rel: string): seq<Member> {
    if rel in b.bundles then b.bundles[rel] else []
  }

  predicate HasSensitive(ms: seq<Member>) {
    exists i :: 0 <= i < |ms| && ms[i].sensitive
  }

  predicate RefusesMember(b: Batch, rel: string, sensitive: bool) {
    BufferAt(b, rel).current.Some? && (sensitive || HasSensitive(Bundle(b, rel)))
  }

  function WriteBundleMember(b: Batch, rel: string, m: Member): (r: Batch)
    ensures OnlyAt(b, r, rel)
    ensures Bundle(r, rel) == InsertMember(Bundle(b, rel), m)
    ensures BufferAt(r, rel) == BufferAt(b, rel).(current := Some(DocsOf(Bundle(r, rel))))
  {
    var ms := InsertMember(Bundle(b, rel), m);
    WithCurrent(b.(bundles := b.bundles[rel := ms]), rel, Some(DocsOf(ms)))
  }

  function PlaceNew(b: Batch, c: Change): (r: Batch)
    requires c.Upsert? && c.place.Placed?
    ensures OnlyAt(b, r, c.place.path)
  {
    var rel := c.place.path;
    var doc := Doc(Some(c.id), c.text);
    if c.place.append then AppendNew(b, rel, doc)
    else if BufferAt(b, rel).original.Some? then WriteWholeFile(b, rel, doc)
    else if RefusesMember(b, rel, c.sensitive) then Hydrated(b, rel)
    else WriteBundleMember(b, rel, Member(c.id, c.text, c.sensitive))
  }

  function CreateNew(b: Batch, c: Change): (r: Batch)
    requires c.Upsert?
    ensures r == b || (c.place.Placed? && OnlyAt(b, r, c.place.path))
  {
    if c.place.Unplaced? then b
    else
      var placed := PlaceNew(b, c);
      var wrote := BufferAt(placed, c.place.path).current != BufferAt(b, c.place.path).current;
      placed.(putToKustomize := b.putToKustomize || (wrote && c.place.governed))
  }

  // --------------------------------------------------------------------- events

  function ApplyChange(b: Batch, c: Change): (r: Batch)
    ensures r == b || exists rel :: OnlyAt(b, r, rel)
  {
    match c
    case FieldPatch(id, edit) => ApplyFieldPatch(b, id, edit)
    case Delete(id) => ApplyDelete(b, id)
    case Upsert(id, edit, text, sensitive, place) =>
      if id !in b.located then CreateNew(b, c)
      else if sensitive then WriteWholeFile(b, b.located[id], Doc(Some(id), text))
      else PatchExisting(b, b.located[id], id, edit, id in b.rendered)
  }

  function ApplyChanges(b: Batch, cs: seq<Change>): Batch {
    if cs == [] then b else ApplyChange(ApplyChanges(b, cs[..|cs| - 1]), cs[|cs| - 1])
  }

  function NewBatch(content: Tree, located: map<Id, string>, rendered: set<Id>, governed: set<Id>, listed: set<string>, mode: PruneMode): Batch {
    Batch(content, located, rendered, governed, listed, mode, map[], map[], false)
  }

  /** Every buffer knows the scanned content of its file. */
  predicate Faithful(b: Batch) {
    forall rel :: rel in b.buffers ==> b.buffers[rel].original == Lookup(b.content, rel)
  }

  lemma ChangeKeepsScan(b: Batch, c: Change)
    ensures SameScan(ApplyChange(b, c), b)
    ensures Faithful(b) ==> Faithful(ApplyChange(b, c))
  {
  }

  lemma {:induction false} ChangesKeepScan(b: Batch, cs: seq<Change>)
    ensures SameScan(ApplyChanges(b, cs), b)
    ensures Faithful(b) ==> Faithful(ApplyChanges(b, cs))
  {
    hide ApplyChange;
    if cs != [] {
      ChangesKeepScan(b, cs[..|cs| - 1]);
      ChangeKeepsScan(ApplyChanges(b, cs[..|cs| - 1]), cs[|cs| - 1]);
    }
  }

  // ----------------------------------------- what becomes of a file's documents

  /** The documents a file has now; none when it is gone. */
  function DocsAt(b: Batch, rel: string): Content {
    var cur := BufferAt(b, rel).current;
    if cur.Some? then cur.value else []
  }

  predicate UniqueIds(docs: Content) {
    forall i, j :: 0 <= i < j < |docs| && docs[i].id.Some? ==> docs[i].id != docs[j].id
  }

  /** The change is about the managed identity `id` living in `rel`. */
  predicate Concerns(b: Batch, c: Change, rel: string, id: Id) {
    c.id == id && id in b.located && b.located[id] == rel
  }

  /** What one change does to one document of `rel`; `alone` when it is the only one there. A
      sensitive document is rewritten as a whole, and only alone. */
  function FateOfOne(b: Batch, c: Change, rel: string, d: Doc, alone: bool): (r: Option<Doc>)
    ensures r.Some? ==> r.value.id == d.id
  {
    if d.id.None? || !Concerns(b, c, rel, d.id.value) then Some(d)
    else if c.Delete? then
      if AppliesEventDeletes(OrDefault(b.mode)) then None else Some(d)
    else if c.Upsert? && c.sensitive then
      if alone then Some(Doc(d.id, c.text)) else Some(d)
    else Some(Doc(d.id, c.edit(d.text)))
  }

  predicate Alone(b: Batch, cs: seq<Change>, rel: string)
    decreases |cs|, 3, 0
  {
    |Intended(b, cs, rel)| == 1
  }

  /** What the changes of its own identity make of a document. */
  function Fate(b: Batch, cs: seq<Change>, rel: string, d: Doc): (r: Option<Doc>)
    ensures r.Some? ==> r.value.id == d.id
    decreases |cs|, 0, 0
  {
    if cs == [] then Some(d)
    else
      var prior := cs[..|cs| - 1];
      var before := Fate(b, prior, rel, d);
      if before.None? then None else FateOfOne(b, cs[|cs| - 1], rel, before.value, Alone(b, prior, rel))
  }

  function Kept(d: Option<Doc>): Content {
    if d.Some? then [d.value] else []
  }

  /** The documents that remain, each as its own changes left it, in the original order. */
  function Survivors(b: Batch, cs: seq<Change>, rel: string, docs: Content): Content
    decreases |cs|, 1, |docs|
  {
    if docs == [] then [] else Kept(Fate(b, cs, rel, docs[0])) + Survivors(b, cs, rel, docs[1..])
  }

  /** The documents appended to the file, in arrival order. */
  function Appended(b: Batch, cs: seq<Change>, rel: string): Content {
    if cs == [] then []
    else
      var c := cs[|cs| - 1];
      Appended(b, cs[..|cs| - 1], rel) + if AppendsTo(b, c, rel) then [Doc(Some(c.id), c.text)] else []
  }

  predicate AppendsTo(b: Batch, c: Change, rel: string) {
    c.Upsert? && c.id !in b.located && c.place.Placed? && c.place.append && c.place.path == rel
  }

  /** The documents the batch should leave in the file. */
  function Intended(b: Batch, cs: seq<Change>, rel: string): Content
    decreases |cs|, 2, 0
  {
    Survivors(b, cs, rel, if rel in b.content then b.content[rel] else []) + Appended(b, cs, rel)
  }

  /** The change writes the file as a whole instead of a document in it. */
  predicate WritesWhole(b: Batch, c: Change, rel: string) {
    && c.Upsert?
    && if c.id in b.located then c.sensitive && b.located[c.id] == rel
       else c.place.Placed? && !c.place.append && c.place.path == rel
  }

  lemma {:induction false} EditOfConcat(s: Content, a: Content, id: Id, edit: string -> string)
    requires !Holds(a, id)
    ensures EditFirst(s + a, id, edit) == EditFirst(s, id, edit) + a
  {
    hide Holds;
    if s == [] {
      assert s + a == a;
      AbsentIsUntouched(a, id, edit);
    } else {
      assert (s + a)[1..] == s[1..] + a && (s + a)[0] == s[0];
      if s[0].id == Some(id) {
        Reassociate(Doc(Some(id), edit(s[0].text)), s[1..], a);
      } else {
        EditOfConcat(s[1..], a, id, edit);
        Reassociate(s[0], EditFirst(s[1..], id, edit), a);
      }
    }
  }

  lemma {:induction false} DropOfConcat(s: Content, a: Content, id: Id)
    requires !Holds(a, id)
    ensures DropFirst(s + a, id) == DropFirst(s, id) + a
  {
    hide Holds;
    if s == [] {
      assert s + a == a;
      AbsentIsUntouched(a, id, t => t);
    } else {
      assert (s + a)[1..] == s[1..] + a && (s + a)[0] == s[0];
      if s[0].id != Some(id) {
        DropOfConcat(s[1..], a, id);
        Reassociate(s[0], DropFirst(s[1..], id), a);
      }
    }
  }

  lemma Reassociate(d: Doc, s: Content, a: Content)
    ensures ([d] + s) + a == [d] + (s + a)
  {
  }

  lemma {:induction false} SurvivorsHold(b: Batch, cs: seq<Change>, rel: string, docs: Content, id: Id)
    ensures Holds(Survivors(b, cs, rel, docs), id) ==> Holds(docs, id)
  {
    if docs != [] {
      SurvivorsHold(b, cs, rel, docs[1..], id);
      TailHolds(docs, id);
      var f := Fate(b, cs, rel, docs[0]);
      var all := Survivors(b, cs, rel, docs);
      if f.Some? {
        assert all[0] == f.value && all[1..] == Survivors(b, cs, rel, docs[1..]);
        TailHolds(all, id);
      } else {
        assert all == Survivors(b, cs, rel, docs[1..]);
      }
    }
  }

  /** What one change should make of the documents that were there from the start. */
  function Stepped(b: Batch, c: Change, rel: string, docs: Content, alone: bool): Content {
    if !Concerns(b, c, rel, c.id) then docs
    else if c.Delete? then
      if AppliesEventDeletes(OrDefault(b.mode)) then DropFirst(docs, c.id) else docs
    else if c.Upsert? && c.sensitive then
      if alone then EditFirst(docs, c.id, t => c.text) else docs
    else EditFirst(docs, c.id, c.edit)
  }

  /** One more change, seen document by document. */
  lemma {:induction false} SurvivorsStep(b: Batch, cs: seq<Change>, rel: string, docs: Content)
    requires cs != [] && UniqueIds(docs)
    ensures var prior := cs[..|cs| - 1];
            Survivors(b, cs, rel, docs) == Stepped(b, cs[|cs| - 1], rel, Survivors(b, prior, rel, docs), Alone(b, prior, rel))
  {
    hide Alone, Intended, Holds, UniqueIds;
    var c := cs[|cs| - 1];
    var prior := cs[..|cs| - 1];
    if docs != [] {
      var d := docs[0];
      var rest := docs[1..];
      UniqueTail(docs);
      SurvivorsStep(b, cs, rel, rest);
      var before := Survivors(b, prior, rel, docs);
      var tail := Survivors(b, prior, rel, rest);
      var f := Fate(b, prior, rel, d);
      if f.Some? {
        assert before == [f.value] + tail && before[1..] == tail;
        if d.id == Some(c.id) {
          SurvivorsHold(b, prior, rel, rest, c.id);
          AbsentIsUntouched(tail, c.id, if c.Upsert? && c.sensitive then t => c.text else if c.Delete? then t => t else c.edit);
        }
      } else {
        assert before == tail;
      }
    }
  }

  lemma UniqueTail(docs: Content)
    requires UniqueIds(docs) && docs != []
    ensures UniqueIds(docs[1..]) && (docs[0].id.Some? ==> !Holds(docs[1..], docs[0].id.value))
  {
  }

  lemma {:induction false} AppendedAreNew(b: Batch, cs: seq<Change>, rel: string, id: Id)
    ensures id in b.located ==> !Holds(Appended(b, cs, rel), id)
  {
    if cs != [] {
      AppendedAreNew(b, cs[..|cs| - 1], rel, id);
    }
  }

  lemma HoldsOfConcat(s: Content, a: Content, id: Id)
    ensures Holds(s + a, id) <==> Holds(s, id) || Holds(a, id)
  {
    if Holds(s + a, id) {
      var k :| 0 <= k < |s + a| && (s + a)[k].id == Some(id);
      if k >= |s| { assert a[k - |s|].id == Some(id); } else { assert s[k].id == Some(id); }
    }
    if Holds(s, id) {
      var k :| 0 <= k < |s| && s[k].id == Some(id);
      assert (s + a)[k].id == Some(id);
    }
    if Holds(a, id) {
      var k :| 0 <= k < |a| && a[k].id == Some(id);
      assert (s + a)[|s| + k].id == Some(id);
    }
  }

  lemma PatchedDocs(m: Batch, rel: string, id: Id, edit: string -> string, arms: bool, s: Content, a: Content)
    requires DocsAt(m, rel) == s + a && !Holds(a, id)
    ensures DocsAt(PatchExisting(m, rel, id, edit, arms), rel) == EditFirst(s, id, edit) + a
  {
    HoldsOfConcat(s, a, id);
    if Holds(s, id) { EditOfConcat(s, a, id, edit); } else { AbsentIsUntouched(s, id, edit); }
  }

  lemma DeletedDocs(m: Batch, id: Id, s: Content, a: Content)
    requires id in m.located && DocsAt(m, m.located[id]) == s + a && !Holds(a, id)
    ensures DocsAt(ApplyDelete(m, id), m.located[id]) ==
            if AppliesEventDeletes(OrDefault(m.mode)) then DropFirst(s, id) + a else s + a
  {
    HoldsOfConcat(s, a, id);
    if Holds(s, id) { DropOfConcat(s, a, id); } else { AbsentIsUntouched(s, id, t => t); }
  }

  lemma RewrittenDocs(m: Batch, c: Change, rel: string, s: Content, a: Content)
    requires Concerns(m, c, rel, c.id) && c.Upsert? && c.sensitive && DocsAt(m, rel) == s + a && !Holds(a, c.id)
    requires |s + a| > 1 || Holds(s + a, c.id)
    ensures DocsAt(ApplyChange(m, c), rel) == (if |s + a| == 1 then EditFirst(s, c.id, t => c.text) else s) + a
  {
    HoldsOfConcat(s, a, c.id);
    if |s + a| == 1 {
      assert a == [] && s == [s[0]];
    }
  }

  /** A whole-file write reaches the file when it holds no document, or only one that is not
      the managed document being written. */
  predicate TakesOver(b: Batch, cs: seq<Change>, rel: string, i: int) {
    && 0 <= i < |cs| && WritesWhole(b, cs[i], rel)
    && var docs := Intended(b, cs[..i], rel);
       && |docs| <= 1 && docs != [Doc(Some(cs[i].id), cs[i].text)]
       && !(cs[i].id in b.located && Holds(docs, cs[i].id))
  }

  lemma IntendedStep(b: Batch, cs: seq<Change>, rel: string)
    requires cs != [] && b.buffers == map[] && rel in b.content && UniqueIds(b.content[rel])
    requires !TakesOver(b, cs, rel, |cs| - 1)
    requires DocsAt(ApplyChanges(b, cs[..|cs| - 1]), rel) == Intended(b, cs[..|cs| - 1], rel)
    ensures DocsAt(ApplyChanges(b, cs), rel) == Intended(b, cs, rel)
  {
    var c := cs[|cs| - 1];
    var prior := cs[..|cs| - 1];
    var m := ApplyChanges(b, prior);
    var s := Survivors(b, prior, rel, b.content[rel]);
    var a := Appended(b, prior, rel);
    ChangesKeepScan(b, prior);
    SurvivorsStep(b, cs, rel, b.content[rel]);
    AppendedStep(b, cs, rel);
    AppendedAreNew(b, prior, rel, c.id);
    assert ApplyChanges(b, cs) == ApplyChange(m, c);
    hide ApplyChange, ApplyChanges, DocsAt, Survivors, Appended, EditFirst, DropFirst, Holds, UniqueIds;
    if Concerns(b, c, rel, c.id) {
      if c.Upsert? && c.sensitive {
        assert |s + a| > 1 || Holds(s + a, c.id) by { OwnDocumentHeld(s + a, c); }
        RewrittenDocs(m, c, rel, s, a);
      } else {
        ConcernedDocs(m, c, rel, s, a);
      }
    } else if AppendsTo(b, c, rel) {
      AppendedDocs(m, c, s, a);
    } else if WritesWhole(b, c, rel) {
      SkippedDocs(m, c, rel);
    } else {
      ElsewhereKeeps(m, c, rel);
    }
  }

  lemma OwnDocumentHeld(docs: Content, c: Change)
    requires c.Upsert? && (|docs| > 1 || docs == [Doc(Some(c.id), c.text)] || Holds(docs, c.id))
    ensures |docs| > 1 || Holds(docs, c.id)
  {
    if docs == [Doc(Some(c.id), c.text)] { assert docs[0].id == Some(c.id); }
  }

  /** A new document placed on an occupied path is not written. */
  lemma SkippedDocs(m: Batch, c: Change, rel: string)
    requires Faithful(m) && rel in m.content && WritesWhole(m, c, rel) && c.id !in m.located
    requires |DocsAt(m, rel)| > 1 || DocsAt(m, rel) == [Doc(Some(c.id), c.text)]
    ensures DocsAt(ApplyChange(m, c), rel) == DocsAt(m, rel)
  {
  }

  lemma AppendedStep(b: Batch, cs: seq<Change>, rel: string)
    requires cs != []
    ensures var c := cs[|cs| - 1];
            var a := Appended(b, cs[..|cs| - 1], rel);
            Appended(b, cs, rel) == if AppendsTo(b, c, rel) then a + [Doc(Some(c.id), c.text)] else a
  {
  }

  lemma ConcernedDocs(m: Batch, c: Change, rel: string, s: Content, a: Content)
    requires Concerns(m, c, rel, c.id) && !(c.Upsert? && c.sensitive) && DocsAt(m, rel) == s + a && !Holds(a, c.id)
    ensures DocsAt(ApplyChange(m, c), rel) ==
            (if !c.Delete? then EditFirst(s, c.id, c.edit)
             else if AppliesEventDeletes(OrDefault(m.mode)) then DropFirst(s, c.id)
             else s) + a
  {
    hide PatchExisting, ApplyDelete, DocsAt, EditFirst, DropFirst, Holds;
    if c.Delete? {
      DeletedDocs(m, c.id, s, a);
    } else if c.FieldPatch? {
      var armed := m.(putToKustomize := m.putToKustomize || c.id in m.governed);
      SameDocs(m, armed, rel);
      PatchedDocs(armed, rel, c.id, c.edit, false, s, a);
    } else {
      PatchedDocs(m, rel, c.id, c.edit, c.id in m.rendered, s, a);
    }
  }

  lemma SameDocs(a: Batch, b: Batch, rel: string)
    requires a.buffers == b.buffers && a.content == b.content
    ensures DocsAt(a, rel) == DocsAt(b, rel)
  {
  }

  /** A change that neither concerns the file nor is placed in it leaves it alone. */
  lemma ElsewhereKeeps(m: Batch, c: Change, rel: string)
    requires !Concerns(m, c, rel, c.id)
    requires !(c.Upsert? && c.id !in m.located && c.place.Placed? && c.place.path == rel)
    ensures BufferAt(ApplyChange(m, c), rel) == BufferAt(m, rel) && Bundle(ApplyChange(m, c), rel) == Bundle(m, rel)
    ensures DocsAt(ApplyChange(m, c), rel) == DocsAt(m, rel)
  {
    hide ApplyFieldPatch, PatchExisting, ApplyDelete, CreateNew, WriteWholeFile;
  }

  lemma AppendedDocs(m: Batch, c: Change, s: Content, a: Content)
    requires c.Upsert? && c.id !in m.located && c.place.Placed? && c.place.append
    requires DocsAt(m, c.place.path) == s + a
    ensures DocsAt(ApplyChange(m, c), c.place.path) == s + (a + [Doc(Some(c.id), c.text)])
  {
    assert s + a + [Doc(Some(c.id), c.text)] == s + (a + [Doc(Some(c.id), c.text)]);
  }

  /** At every point of the batch the file is as intended: its original documents without the
      deleted ones, in their original order, each changed by exactly the changes of its own
      identity, followed by what was appended. */
  ghost predicate NeverMisdirected(b: Batch, cs: seq<Change>, rel: string) {
    forall n :: 0 <= n <= |cs| ==> DocsAt(ApplyChanges(b, cs[..n]), rel) == Intended(b, cs[..n], rel)
  }

  /** However edits, deletes, appends and whole-file writes interleave in a batch, no change of
      a file with unique identities is misdirected if and only if no whole-file write takes the
      file over. */
  lemma NeverMisdirectedExactly(b: Batch, cs: seq<Change>, rel: string)
    requires b.buffers == map[] && rel in b.content && UniqueIds(b.content[rel])
    ensures NeverMisdirected(b, cs, rel) <==> forall i :: !TakesOver(b, cs, rel, i)
  {
    hide ApplyChanges, Intended, TakesOver, DocsAt, UniqueIds;
    if forall i :: !TakesOver(b, cs, rel, i) {
      forall n | 0 <= n <= |cs|
        ensures DocsAt(ApplyChanges(b, cs[..n]), rel) == Intended(b, cs[..n], rel)
      {
        WithoutTakeover(b, cs, rel, n);
      }
    } else {
      var i :| TakesOver(b, cs, rel, i);
      assert 0 <= i < |cs| by { TakeoverIndex(b, cs, rel, i); }
      if NeverMisdirected(b, cs, rel) { TakeoverMisdirects(b, cs, rel, i); }
    }
  }

  lemma TakeoverIndex(b: Batch, cs: seq<Change>, rel: string, i: int)
    requires TakesOver(b, cs, rel, i)
    ensures 0 <= i < |cs|
    ensures TakesOver(b, cs[..i + 1], rel, i)
  {
    assert cs[..i + 1][..i] == cs[..i];
  }

  lemma {:induction false} WithoutTakeover(b: Batch, cs: seq<Change>, rel: string, n: nat)
    requires b.buffers == map[] && rel in b.content && UniqueIds(b.content[rel])
    requires n <= |cs| && forall i :: !TakesOver(b, cs, rel, i)
    ensures DocsAt(ApplyChanges(b, cs[..n]), rel) == Intended(b, cs[..n], rel)
  {
    if n == 0 {
      assert cs[..0] == [];
      NoChangesKeepAll(b, rel, b.content[rel]);
    } else {
      WithoutTakeover(b, cs, rel, n - 1);
      assert cs[..n][..n - 1] == cs[..n - 1];
      assert !TakesOver(b, cs[..n], rel, n - 1) by { assert !TakesOver(b, cs, rel, n - 1); }
      IntendedStep(b, cs[..n], rel);
    }
  }

  lemma TakeoverMisdirects(b: Batch, cs: seq<Change>, rel: string, i: int)
    requires b.buffers == map[] && rel in b.content && UniqueIds(b.content[rel]) && TakesOver(b, cs, rel, i)
    requires DocsAt(ApplyChanges(b, cs[..i]), rel) == Intended(b, cs[..i], rel)
    ensures DocsAt(ApplyChanges(b, cs[..i + 1]), rel) == [Doc(Some(cs[i].id), cs[i].text)]
    ensures DocsAt(ApplyChanges(b, cs[..i + 1]), rel) != Intended(b, cs[..i + 1], rel)
  {
    hide ApplyChange, DocsAt, Fate, EditFirst, DropFirst, Alone, UniqueIds, Faithful, Holds;
    var now := cs[..i + 1];
    var c := cs[i];
    assert now[..i] == cs[..i] && now[|now| - 1] == c;
    var m := ApplyChanges(b, cs[..i]);
    ChangesKeepScan(b, cs[..i]);
    assert Faithful(b) by { NothingIsFaithful(b); }
    TakenDocs(m, c, rel);
    SurvivorsStep(b, now, rel, b.content[rel]);
    AppendedStep(b, now, rel);
    var s, a := Survivors(b, cs[..i], rel, b.content[rel]), Appended(b, cs[..i], rel);
    OneDocHolds(Doc(Some(c.id), c.text), c.id);
    hide Survivors, Appended, ApplyChanges;
    IntendedUnchanged(b, c, rel, s, a);
  }

  /** A whole-file write that reaches the file does not change what was intended. */
  lemma IntendedUnchanged(b: Batch, c: Change, rel: string, s: Content, a: Content)
    requires WritesWhole(b, c, rel) && |s + a| <= 1 && !(c.id in b.located && Holds(s + a, c.id))
    ensures Stepped(b, c, rel, s, |s + a| == 1) == s && !AppendsTo(b, c, rel)
  {
    HoldsOfConcat(s, a, c.id);
    if c.id in b.located { AbsentIsUntouched(s, c.id, t => c.text); }
  }

  lemma NothingIsFaithful(b: Batch)
    requires b.buffers == map[]
    ensures Faithful(b)
  {
  }

  lemma TakenDocs(m: Batch, c: Change, rel: string)
    requires Faithful(m) && rel in m.content && WritesWhole(m, c, rel) && |DocsAt(m, rel)| <= 1
    ensures DocsAt(ApplyChange(m, c), rel) == [Doc(Some(c.id), c.text)]
  {
  }

  lemma {:induction false} NoChangesKeepAll(b: Batch, rel: string, docs: Content)
    ensures Survivors(b, [], rel, docs) == docs
  {
    if docs != [] { NoChangesKeepAll(b, rel, docs[1..]); }
  }

  // ---------------------------------------------------------------------- flush

  /** The worktree: the bytes of every file by clean path. */
  type Disk = map<string, string>

  function Peek(d: Disk, p: string): Option<string> {
    if p in d then Some(d[p]) else None
  }

  /** The tree the oracle is shown: the scanned files with every buffer folded over them. */
  function Folded(b: Batch): Disk {
    map rel | rel in b.content.Keys + b.buffers.Keys && BufferAt(b, rel).current.Some? :: Bytes(BufferAt(b, rel).current.value)
  }

  function WriteOne(d: Disk, anchor: string, rel: string, b: Buffer): Disk {
    if Deleted(b) then d - {PlaceOf(anchor, rel)}
    else if Dirty(b) then d[PlaceOf(anchor, rel) := Bytes(b.current.value)]
    else d
  }

  function WriteAll(d: Disk, anchor: string, buffers: map<string, Buffer>, keys: seq<string>): Disk
    requires forall k :: k in keys ==> k in buffers
  {
    if keys == [] then d
    else
      var n := |keys| - 1;
      WriteOne(WriteAll(d, anchor, buffers, keys[..n]), anchor, keys[n], buffers[keys[n]])
  }

  /** The checks that precede the first byte, in the order they are made. */
  datatype Check = Shadowed | EscapesScope | SharedSource | RenderRefused

  /** What the batch is checked against: which folder paths the ignore file matches, which
      files several render roots read, and what the re-render vouches for. */
  datatype Guards = Guards(
    ignores: string -> bool,
    shared: string -> bool,
    vouches: (Disk, Disk) -> bool)

  function Scanned(b: Batch): Disk {
    map rel | rel in b.content :: Bytes(b.content[rel])
  }

  predicate AnyPlanned(b: Batch, bad: string -> bool) {
    exists rel :: rel in b.buffers && Planned(b.buffers[rel]) && bad(rel)
  }

  function Verdict(b: Batch, writeSubdir: string, g: Guards): Option<Check> {
    if AnyPlanned(b, rel => g.ignores(RelUnder(writeSubdir, rel))) then Some(Shadowed)
    else if AnyPlanned(b, rel => WriteEscapes(writeSubdir, rel)) then Some(EscapesScope)
    else if AnyPlanned(b, g.shared) then Some(SharedSource)
    else if b.putToKustomize && !g.vouches(Scanned(b), Folded(b)) then Some(RenderRefused)
    else None
  }

  lemma {:induction false} WritesOnlyPlannedPlaces(d: Disk, anchor: string, buffers: map<string, Buffer>, keys: seq<string>, p: string)
    requires forall k :: k in keys ==> k in buffers
    requires forall k :: k in keys && Planned(buffers[k]) ==> PlaceOf(anchor, k) != p
    ensures Peek(WriteAll(d, anchor, buffers, keys), p) == Peek(d, p)
  {
    hide PlaceOf, Bytes;
    if keys != [] {
      WritesOnlyPlannedPlaces(d, anchor, buffers, keys[..|keys| - 1], p);
      assert keys[|keys| - 1] in keys;
    }
  }

  /** Every path a flush writes or removes lies inside the target's folder. */
  lemma FlushStaysInside(sc: Scope, base: string, b: Batch, g: Guards, d: Disk, keys: seq<string>, p: string)
    requires Inside(sc.renderBase) && Inside(sc.writeSubdir) && Inside(base)
    requires Segs(sc.renderBase) + Segs(sc.writeSubdir) == Segs(base)
    requires (forall k :: k in keys ==> k in b.buffers) && Verdict(b, sc.writeSubdir, g).None?
    requires Peek(WriteAll(d, sc.renderBase, b.buffers, keys), p) != Peek(d, p)
    ensures Inside(p) && Segs(base) <= Segs(p)
  {
    hide PlaceOf, WriteAll, Segs, Names, WriteEscapes;
    if forall k :: k in keys && Planned(b.buffers[k]) ==> PlaceOf(sc.renderBase, k) != p {
      WritesOnlyPlannedPlaces(d, sc.renderBase, b.buffers, keys, p);
    } else {
      var k :| k in keys && Planned(b.buffers[k]) && PlaceOf(sc.renderBase, k) == p;
      var escapes := rel => WriteEscapes(sc.writeSubdir, rel);
      assert !AnyPlanned(b, escapes);
      assert !escapes(k);
      JailHolds(sc, base, k);
    }
  }

  // ------------------------------------------- the oracle judges what is committed

  predicate CleanKeys(keys: set<string>) {
    forall k :: k in keys ==> Inside(k)
  }

  lemma PlacesDiffer(anchor: string, a: string, b: string)
    requires Inside(anchor) && Inside(a) && Inside(b) && PlaceOf(anchor, a) == PlaceOf(anchor, b)
    ensures a == b
  {
    hide PlaceOf, Segs, Names;
    PlaceAppends(anchor, a);
    PlaceAppends(anchor, b);
    SameTail(Segs(anchor), Segs(a), Segs(b));
    SegsAreInjective(a, b);
  }

  lemma SameTail(x: seq<string>, a: seq<string>, b: seq<string>)
    requires x + a == x + b
    ensures a == b
  {
    assert a == (x + a)[|x|..] && b == (x + b)[|x|..];
  }

  lemma {:induction false} WritesEachPlace(d: Disk, anchor: string, buffers: map<string, Buffer>, keys: seq<string>, k: string)
    requires forall k :: k in keys ==> k in buffers
    requires Inside(anchor) && CleanKeys(buffers.Keys) && Ascending(keys) && k in keys
    ensures var b := buffers[k];
            Peek(WriteAll(d, anchor, buffers, keys), PlaceOf(anchor, k)) ==
            if Deleted(b) then None else if Dirty(b) then Some(Bytes(b.current.value)) else Peek(d, PlaceOf(anchor, k))
  {
    hide PlaceOf, Bytes, Inside;
    var n := |keys| - 1;
    var last := keys[n];
    if k == last {
      forall j | j in keys[..n]
        ensures PlaceOf(anchor, j) != PlaceOf(anchor, k)
      {
        LessIsStrict(k);
        if PlaceOf(anchor, j) == PlaceOf(anchor, k) { PlacesDiffer(anchor, j, k); }
      }
      WritesOnlyPlannedPlaces(d, anchor, buffers, keys[..n], PlaceOf(anchor, k));
    } else {
      WritesEachPlace(d, anchor, buffers, keys[..n], k);
      if PlaceOf(anchor, last) == PlaceOf(anchor, k) { PlacesDiffer(anchor, last, k); }
    }
  }

  /** What a scan of the given keys sees. */
  function Seen(d: Disk, anchor: string, keys: set<string>): Disk {
    map k | k in keys && PlaceOf(anchor, k) in d :: d[PlaceOf(anchor, k)]
  }

  /** A file the batch would create without a byte in it. */
  predicate NewAndEmpty(b: Buffer) {
    b.original.None? && b.current.Some? && Bytes(b.current.value) == ""
  }

  /** The tree shown to the oracle is the tree a scan finds after the flush, exactly when the
      batch creates no empty file: such a file is shown but, not being dirty, never written. */
  lemma OracleJudgesWhatIsCommitted(b: Batch, d: Disk, anchor: string, keys: seq<string>)
    requires Faithful(b) && Inside(anchor) && CleanKeys(b.content.Keys + b.buffers.Keys)
    requires Ascending(keys) && forall k :: k in keys <==> k in b.buffers
    requires Seen(d, anchor, b.content.Keys + b.buffers.Keys) == Scanned(b)
    ensures Seen(WriteAll(d, anchor, b.buffers, keys), anchor, b.content.Keys + b.buffers.Keys) == Folded(b)
            <==> forall k :: k in b.buffers ==> !NewAndEmpty(b.buffers[k])
  {
    hide PlaceOf, Bytes, Inside, WriteAll, Less;
    var all := b.content.Keys + b.buffers.Keys;
    var after := WriteAll(d, anchor, b.buffers, keys);
    forall k | k in all
      ensures Peek(d, PlaceOf(anchor, k)) == Peek(Scanned(b), k)
      ensures Peek(Seen(after, anchor, all), k) == Peek(after, PlaceOf(anchor, k))
      ensures (Peek(after, PlaceOf(anchor, k)) == Peek(Folded(b), k)) <==> !NewAndEmpty(BufferAt(b, k))
    {
      assert Peek(d, PlaceOf(anchor, k)) == Peek(Seen(d, anchor, all), k);
      if k in b.buffers {
        WritesEachPlace(d, anchor, b.buffers, keys, k);
      } else {
        forall j | j in keys
          ensures PlaceOf(anchor, j) != PlaceOf(anchor, k)
        {
          if PlaceOf(anchor, j) == PlaceOf(anchor, k) { PlacesDiffer(anchor, j, k); }
        }
        WritesOnlyPlannedPlaces(d, anchor, b.buffers, keys, PlaceOf(anchor, k));
      }
    }
    var seen := Seen(after, anchor, all);
    assert forall k :: k in seen ==> k in all;
    assert forall k :: k in Folded(b) ==> k in all;
    if seen == Folded(b) {
      forall k | k in b.buffers
        ensures !NewAndEmpty(b.buffers[k])
      {
        assert Peek(seen, k) == Peek(Folded(b), k);
      }
    } else {
      if forall k :: k in all ==> Peek(seen, k) == Peek(Folded(b), k) {
        SameLookups(seen, Folded(b), all);
      }
    }
  }

  lemma SameLookups(a: Disk, b: Disk, all: set<string>)
    requires a.Keys <= all && b.Keys <= all && forall k :: k in all ==> Peek(a, k) == Peek(b, k)
    ensures a == b
  {
    assert forall k :: k in a ==> Peek(a, k) == Peek(b, k);
    assert forall k :: k in b ==> Peek(a, k) == Peek(b, k);
  }

  // ------------------------------------------------------ new files, in any order

  predicate Sorted(ms: seq<Member>) {
    forall i, j :: 0 <= i < j < |ms| ==> !Less(ms[j].id, ms[i].id)
  }

  predicate DistinctIds(ms: seq<Member>) {
    forall i, j :: 0 <= i < j < |ms| ==> ms[i].id != ms[j].id
  }

  lemma {:induction false} InsertKeepsMembers(ms: seq<Member>, m: Member)
    ensures multiset(InsertMember(ms, m)) == multiset(ms) + multiset{m}
  {
    if ms != [] && !Less(m.id, ms[0].id) {
      InsertKeepsMembers(ms[1..], m);
      assert ms == [ms[0]] + ms[1..];
    }
  }

  lemma {:induction false} InsertKeepsSorted(ms: seq<Member>, m: Member)
    requires Sorted(ms)
    ensures Sorted(InsertMember(ms, m))
    decreases |ms|
  {
    var r := InsertMember(ms, m);
    if ms != [] {
      if Less(m.id, ms[0].id) {
        forall j | 0 < j < |r|
          ensures !Less(r[j].id, m.id)
        {
          assert r[j] == ms[j - 1];
          if Less(r[j].id, m.id) { LessIsTransitive(r[j].id, m.id, ms[0].id); LessIsStrict(ms[0].id); }
        }
      } else {
        InsertKeepsSorted(ms[1..], m);
        InsertKeepsMembers(ms[1..], m);
        forall j | 0 < j < |r|
          ensures !Less(r[j].id, ms[0].id)
        {
          assert r[j] == InsertMember(ms[1..], m)[j - 1];
          assert r[j] in multiset(InsertMember(ms[1..], m));
        }
      }
    }
  }

  predicate HasId(ms: seq<Member>, id: Id) {
    exists i :: 0 <= i < |ms| && ms[i].id == id
  }

  lemma {:induction false} InsertDistinct(ms: seq<Member>, m: Member)
    ensures DistinctIds(InsertMember(ms, m)) <==> DistinctIds(ms) && !HasId(ms, m.id)
    ensures forall id :: HasId(InsertMember(ms, m), id) <==> HasId(ms, id) || id == m.id
  {
    var r := InsertMember(ms, m);
    if ms == [] {
      assert r[0].id == m.id;
    } else if Less(m.id, ms[0].id) {
      ConsDistinct(m, ms);
    } else {
      InsertDistinct(ms[1..], m);
      ConsDistinct(ms[0], ms[1..]);
      ConsDistinct(ms[0], InsertMember(ms[1..], m));
      assert ms == [ms[0]] + ms[1..];
    }
  }

  lemma ConsDistinct(m: Member, ms: seq<Member>)
    ensures DistinctIds([m] + ms) <==> DistinctIds(ms) && !HasId(ms, m.id)
    ensures forall id :: HasId([m] + ms, id) <==> HasId(ms, id) || id == m.id
  {
    var all := [m] + ms;
    assert all[0] == m && all[1..] == ms;
    if DistinctIds(all) {
      forall i, j | 0 <= i < j < |ms| ensures ms[i].id != ms[j].id { assert all[i + 1].id != all[j + 1].id; }
      forall i | 0 <= i < |ms| ensures ms[i].id != m.id { assert all[0].id != all[i + 1].id; }
    }
    forall id
      ensures HasId(all, id) <==> HasId(ms, id) || id == m.id
    {
      if HasId(ms, id) {
        var k :| 0 <= k < |ms| && ms[k].id == id;
        assert all[k + 1].id == id;
      }
      if HasId(all, id) {
        var k :| 0 <= k < |all| && all[k].id == id;
        if k > 0 { assert ms[k - 1].id == id; }
      }
    }
  }

  /** The new documents that changes place at a new path, in arrival order. */
  function Arrivals(b: Batch, cs: seq<Change>, rel: string): seq<Member> {
    if cs == [] then []
    else
      var c := cs[|cs| - 1];
      Arrivals(b, cs[..|cs| - 1], rel) +
      if c.Upsert? && c.id !in b.located && c.place.Placed? && c.place.path == rel
      then [Member(c.id, c.text, c.sensitive)] else []
  }

  function Plaintext(ms: seq<Member>): seq<Member> {
    if ms == [] then []
    else Plaintext(ms[..|ms| - 1]) + if ms[|ms| - 1].sensitive then [] else [ms[|ms| - 1]]
  }

  /** The arrivals a new file keeps: the first alone when it is sensitive, otherwise every
      plaintext one. */
  function Admitted(ms: seq<Member>): seq<Member> {
    if ms == [] then [] else if ms[0].sensitive then [ms[0]] else Plaintext(ms)
  }

  lemma {:induction false} PlaintextIsPlain(ms: seq<Member>)
    ensures !HasSensitive(Plaintext(ms))
    ensures ms != [] && !ms[0].sensitive ==> Plaintext(ms) != []
  {
    if ms != [] {
      PlaintextIsPlain(ms[..|ms| - 1]);
      if |ms| > 1 { assert ms[..|ms| - 1][0] == ms[0]; }
    }
  }

  lemma PlaintextStep(ms: seq<Member>, m: Member)
    ensures Plaintext(ms + [m]) == Plaintext(ms) + if m.sensitive then [] else [m]
  {
    assert (ms + [m])[..|ms|] == ms;
  }

  /** One more arrival joins exactly when the admission rule admits it. */
  lemma AdmittedStep(ms: seq<Member>, m: Member)
    ensures var prior := Admitted(ms);
            Admitted(ms + [m]) == if prior != [] && (m.sensitive || HasSensitive(prior)) then prior else prior + [m]
  {
    PlaintextStep(ms, m);
    PlaintextIsPlain(ms);
    if ms == [] {
      assert Plaintext([]) == [];
      hide Plaintext;
      assert (ms + [m])[0] == m;
    } else {
      hide Plaintext;
      assert (ms + [m])[0] == ms[0];
      if ms[0].sensitive {
        assert Admitted(ms)[0].sensitive;
      }
    }
  }

  lemma SameSensitivity(a: seq<Member>, b: seq<Member>)
    requires multiset(a) == multiset(b)
    ensures HasSensitive(a) <==> HasSensitive(b)
    ensures a == [] <==> b == []
  {
    assert |a| == |multiset(a)| == |multiset(b)| == |b|;
    if HasSensitive(a) {
      var i :| 0 <= i < |a| && a[i].sensitive;
      assert a[i] in multiset(b);
      var j :| 0 <= j < |b| && b[j] == a[i];
    }
    if HasSensitive(b) {
      var i :| 0 <= i < |b| && b[i].sensitive;
      assert b[i] in multiset(a);
      var j :| 0 <= j < |a| && a[j] == b[i];
    }
  }

  /** The admitted arrivals, in identity order. */
  ghost predicate Collects(ms: seq<Member>, admitted: seq<Member>) {
    && Sorted(ms)
    && multiset(ms) == multiset(admitted)
    && (DistinctIds(ms) <==> DistinctIds(admitted))
    && (forall id :: HasId(ms, id) <==> HasId(admitted, id))
  }

  /** A new file is made of the admitted arrivals, in identity order. */
  ghost predicate IsBundle(m: Batch, rel: string, arrivals: seq<Member>) {
    var ms := Bundle(m, rel);
    && Collects(ms, Admitted(arrivals))
    && BufferAt(m, rel).original.None?
    && BufferAt(m, rel).current == if ms == [] then None else Some(DocsOf(ms))
  }

  /** Only existing files are appended to, and only scanned files hold managed documents. */
  predicate PlacesFit(b: Batch, cs: seq<Change>) {
    && (forall id :: id in b.located ==> b.located[id] in b.content)
    && (forall i :: 0 <= i < |cs| && cs[i].Upsert? && cs[i].place.Placed? && cs[i].place.append ==> cs[i].place.path in b.content)
  }

  lemma SnocDistinct(ms: seq<Member>, m: Member)
    ensures DistinctIds(ms + [m]) <==> DistinctIds(ms) && !HasId(ms, m.id)
    ensures forall id :: HasId(ms + [m], id) <==> HasId(ms, id) || id == m.id
  {
    var all := ms + [m];
    assert all[|ms|] == m;
    if DistinctIds(all) {
      forall i, j | 0 <= i < j < |ms| ensures ms[i].id != ms[j].id { assert all[i].id != all[j].id; }
      forall i | 0 <= i < |ms| ensures ms[i].id != m.id { assert all[i].id != all[|ms|].id; }
    }
    forall id
      ensures HasId(all, id) <==> HasId(ms, id) || id == m.id
    {
      if HasId(ms, id) {
        var k :| 0 <= k < |ms| && ms[k].id == id;
        assert all[k].id == id;
      }
      if HasId(all, id) {
        var k :| 0 <= k < |all| && all[k].id == id;
        if k < |ms| { assert ms[k].id == id; }
      }
    }
  }

  lemma CollectsOneMore(ms: seq<Member>, admitted: seq<Member>, one: Member)
    requires Collects(ms, admitted)
    ensures Collects(InsertMember(ms, one), admitted + [one]) && InsertMember(ms, one) != []
  {
    InsertKeepsMembers(ms, one);
    InsertKeepsSorted(ms, one);
    InsertDistinct(ms, one);
    SnocDistinct(admitted, one);
    hide InsertMember, Sorted, DistinctIds, HasId;
    assert multiset(admitted + [one]) == multiset(admitted) + multiset{one};
    assert one in multiset(InsertMember(ms, one));
  }

  lemma BundleStep(m: Batch, c: Change, rel: string, arrivals: seq<Member>)
    requires IsBundle(m, rel, arrivals) && c.Upsert? && c.place.Placed? && c.place.path == rel && !c.place.append
    ensures IsBundle(PlaceNew(m, c), rel, arrivals + [Member(c.id, c.text, c.sensitive)])
  {
    var one := Member(c.id, c.text, c.sensitive);
    AdmittedStep(arrivals, one);
    SameSensitivity(Bundle(m, rel), Admitted(arrivals));
    if RefusesMember(m, rel, c.sensitive) {
      hide Collects, HasSensitive, Admitted, OnlyAt;
    } else {
      CollectsOneMore(Bundle(m, rel), Admitted(arrivals), one);
      hide InsertMember, Collects, HasSensitive, Admitted, OnlyAt, WriteBundleMember, BufferAt, Bundle, DocsOf;
    }
  }

  /** In every batch, whatever the order of its changes, a file the batch creates holds exactly
      the admitted arrivals, in identity order; so a sensitive document shares it with none. */
  lemma {:induction false} NewFilesNeverMix(b: Batch, cs: seq<Change>, rel: string)
    requires b.buffers == map[] && b.bundles == map[] && PlacesFit(b, cs) && rel !in b.content
    ensures IsBundle(ApplyChanges(b, cs), rel, Arrivals(b, cs, rel))
    ensures var ms := Bundle(ApplyChanges(b, cs), rel); HasSensitive(ms) ==> |ms| == 1
  {
    hide ApplyChange, Sorted, DistinctIds, HasId, OnlyAt;
    if cs == [] {
      NothingArrived(b, rel);
    } else {
      var c := cs[|cs| - 1];
      var prior := cs[..|cs| - 1];
      NewFilesNeverMix(b, prior, rel);
      ChangesKeepScan(b, prior);
      assert c == cs[|cs| - 1];
      BundleOrKeep(b, ApplyChanges(b, prior), c, rel, Arrivals(b, prior, rel));
    }
    AdmittedAlone(Bundle(ApplyChanges(b, cs), rel), Arrivals(b, cs, rel));
  }

  lemma NothingArrived(b: Batch, rel: string)
    requires b.buffers == map[] && b.bundles == map[] && rel !in b.content
    ensures IsBundle(b, rel, [])
  {
  }

  lemma AdmittedAlone(ms: seq<Member>, arrivals: seq<Member>)
    requires multiset(ms) == multiset(Admitted(arrivals))
    ensures HasSensitive(ms) ==> |ms| == 1
  {
    SameSensitivity(ms, Admitted(arrivals));
    PlaintextIsPlain(arrivals);
    assert |ms| == |multiset(ms)| == |Admitted(arrivals)|;
  }

  lemma BundleOrKeep(b: Batch, m: Batch, c: Change, rel: string, arrivals: seq<Member>)
    requires SameScan(m, b) && PlacesFit(b, [c]) && rel !in b.content && IsBundle(m, rel, arrivals)
    ensures IsBundle(ApplyChange(m, c), rel,
                     arrivals + if c.Upsert? && c.id !in b.located && c.place.Placed? && c.place.path == rel
                                then [Member(c.id, c.text, c.sensitive)] else [])
  {
    hide Collects, HasSensitive, Admitted, OnlyAt, PlaceNew, InsertMember;
    if c.Upsert? && c.id !in b.located && c.place.Placed? && c.place.path == rel {
      assert [c][0] == c;
      BundleStep(m, c, rel, arrivals);
    } else {
      ElsewhereKeeps(m, c, rel);
      assert arrivals + [] == arrivals;
    }
  }

  lemma {:induction false} AllPlaintext(ms: seq<Member>)
    requires !HasSensitive(ms)
    ensures Plaintext(ms) == ms && Admitted(ms) == ms
  {
    if ms != [] {
      var n := |ms| - 1;
      assert !ms[n].sensitive && !ms[0].sensitive;
      assert !HasSensitive(ms[..n]) by { assert forall i :: 0 <= i < n ==> ms[..n][i] == ms[i]; }
      AllPlaintext(ms[..n]);
      assert ms == ms[..n] + [ms[n]];
    }
  }

  function IdsOf(ms: seq<Member>): (ids: seq<string>)
    ensures |ids| == |ms| && forall i :: 0 <= i < |ms| ==> ids[i] == ms[i].id
  {
    seq(|ms|, i requires 0 <= i < |ms| => ms[i].id)
  }

  /** Sorted members with distinct identities are determined by which members they are. */
  lemma SortedIsUnique(a: seq<Member>, b: seq<Member>)
    requires Sorted(a) && Sorted(b) && DistinctIds(a) && DistinctIds(b)
    requires multiset(a) == multiset(b)
    ensures a == b
  {
    SortedAscends(a);
    SortedAscends(b);
    forall x
      ensures x in IdsOf(a) <==> x in IdsOf(b)
    {
      SameIds(a, b, x);
      SameIds(b, a, x);
    }
    ListingIsUnique(IdsOf(a), IdsOf(b));
    forall i | 0 <= i < |a|
      ensures a[i] == b[i]
    {
      assert a[i] in multiset(b);
      var j :| 0 <= j < |b| && b[j] == a[i];
      assert IdsOf(b)[j] == IdsOf(b)[i];
    }
  }

  lemma SortedAscends(a: seq<Member>)
    requires Sorted(a) && DistinctIds(a)
    ensures Ascending(IdsOf(a))
  {
    forall i, j | 0 <= i < j < |a|
      ensures Less(IdsOf(a)[i], IdsOf(a)[j])
    {
      LessIsTotal(a[i].id, a[j].id);
    }
  }

  lemma SameIds(a: seq<Member>, b: seq<Member>, x: string)
    requires multiset(a) == multiset(b)
    ensures x in IdsOf(a) ==> x in IdsOf(b)
  {
    if x in IdsOf(a) {
      var i :| 0 <= i < |a| && IdsOf(a)[i] == x;
      assert a[i] in multiset(b);
      var j :| 0 <= j < |b| && b[j] == a[i];
      assert IdsOf(b)[j] == x;
    }
  }

  /** Distinct plaintext documents placed at one new path make the same bytes in every order of
      arrival, whatever other changes the two batches make. */
  lemma ArrivalOrderDoesNotMatter(b: Batch, cs: seq<Change>, ds: seq<Change>, rel: string)
    requires b.buffers == map[] && b.bundles == map[] && PlacesFit(b, cs) && PlacesFit(b, ds) && rel !in b.content
    requires multiset(Arrivals(b, cs, rel)) == multiset(Arrivals(b, ds, rel))
    requires !HasSensitive(Arrivals(b, cs, rel)) && DistinctIds(Arrivals(b, cs, rel)) && DistinctIds(Arrivals(b, ds, rel))
    ensures BufferAt(ApplyChanges(b, cs), rel) == BufferAt(ApplyChanges(b, ds), rel)
    ensures Bytes(DocsAt(ApplyChanges(b, cs), rel)) == Bytes(DocsAt(ApplyChanges(b, ds), rel))
  {
    hide ApplyChanges, Sorted, DistinctIds, HasId, HasSensitive, Admitted, Arrivals;
    NewFilesNeverMix(b, cs, rel);
    NewFilesNeverMix(b, ds, rel);
    SameSensitivity(Arrivals(b, cs, rel), Arrivals(b, ds, rel));
    AllPlaintext(Arrivals(b, cs, rel));
    AllPlaintext(Arrivals(b, ds, rel));
    SortedIsUnique(Bundle(ApplyChanges(b, cs), rel), Bundle(ApplyChanges(b, ds), rel));
  }

  /** A new file has unique identities exactly when no identity was placed in it twice: the
      batch looks identities up in the scan, which does not know its own new documents. */
  lemma RepeatedIdentityIsWrittenTwice(b: Batch, cs: seq<Change>, rel: string)
    requires b.buffers == map[] && b.bundles == map[] && PlacesFit(b, cs) && rel !in b.content
    ensures UniqueIds(DocsAt(ApplyChanges(b, cs), rel)) <==> DistinctIds(Admitted(Arrivals(b, cs, rel)))
  {
    hide ApplyChanges, Sorted, HasId, HasSensitive, Admitted, Arrivals;
    NewFilesNeverMix(b, cs, rel);
    var ms := Bundle(ApplyChanges(b, cs), rel);
    var docs := DocsOf(ms);
    if UniqueIds(docs) {
      forall i, j | 0 <= i < j < |ms|
        ensures ms[i].id != ms[j].id
      {
        assert docs[i].id != docs[j].id;
      }
    }
  }

  /** Two upserts of one new identity in one batch are written as two documents. */
  lemma TwoUpsertsOneIdentity(x: Id, first: string, second: string, edit: string -> string)
    ensures var place := Placed("f", false, false);
            var cs := [Change.Upsert(x, edit, first, false, place), Change.Upsert(x, edit, second, false, place)];
            DocsAt(ApplyChanges(NewBatch(map[], map[], {}, {}, {}, ON_EVENT), cs), "f") == [Doc(Some(x), first), Doc(Some(x), second)]
  {
    var place := Placed("f", false, false);
    var cs := [Change.Upsert(x, edit, first, false, place), Change.Upsert(x, edit, second, false, place)];
    var b := NewBatch(map[], map[], {}, {}, {}, ON_EVENT);
    var m, n := Member(x, first, false), Member(x, second, false);
    var one := cs[..1];
    assert cs[..|cs| - 1] == one && one[..|one| - 1] == [] && one[|one| - 1] == cs[0];
    LessIsStrict(x);
    assert [m][1..] == [] && InsertMember([m], n) == [m, n];
    var b1 := ApplyChange(b, cs[0]);
    assert ApplyChanges(b, one) == b1;
    assert Bundle(b1, "f") == [m] && DocsAt(b1, "f") == DocsOf([m]);
    assert ApplyChanges(b, cs) == ApplyChange(b1, cs[1]);
    assert !HasSensitive([m]);
  }

  // --------------------------------------------------- identities and one batch

  predicate AtMostOnce(docs: Content, id: Id) {
    forall i, j :: 0 <= i < j < |docs| && docs[i].id == Some(id) ==> docs[j].id != Some(id)
  }

  lemma {:induction false} EditKeepsIds(docs: Content, id: Id, edit: string -> string)
    ensures forall i :: 0 <= i < |docs| ==> EditFirst(docs, id, edit)[i].id == docs[i].id
  {
    if docs != [] && docs[0].id != Some(id) { EditKeepsIds(docs[1..], id, edit); }
  }

  lemma {:induction false} DropKeepsOthers(docs: Content, id: Id, other: Id)
    ensures AtMostOnce(docs, other) ==> AtMostOnce(DropFirst(docs, id), other)
    ensures Holds(DropFirst(docs, id), other) ==> Holds(docs, other)
    ensures AtMostOnce(docs, id) ==> !Holds(DropFirst(docs, id), id)
  {
    if docs != [] {
      var rest := docs[1..];
      TailHolds(docs, other);
      TailHolds(docs, id);
      ConsOnce(docs[0], rest, other);
      ConsOnce(docs[0], rest, id);
      assert docs == [docs[0]] + rest;
      if docs[0].id != Some(id) {
        DropKeepsOthers(rest, id, other);
        var left := DropFirst(rest, id);
        ConsOnce(docs[0], left, other);
        assert DropFirst(docs, id)[1..] == left;
        TailHolds(DropFirst(docs, id), other);
        TailHolds(DropFirst(docs, id), id);
      }
    }
  }

  lemma ConsOnce(d: Doc, rest: Content, id: Id)
    ensures AtMostOnce([d] + rest, id) <==> AtMostOnce(rest, id) && (d.id == Some(id) ==> !Holds(rest, id))
  {
    var all := [d] + rest;
    assert all[0] == d && forall i :: 0 <= i < |rest| ==> all[i + 1] == rest[i];
    if AtMostOnce(all, id) {
      forall i, j | 0 <= i < j < |rest| && rest[i].id == Some(id)
        ensures rest[j].id != Some(id)
      {
        assert all[i + 1].id == Some(id) && all[j + 1] == rest[j];
      }
    }
  }

  lemma EditKeepsHeld(docs: Content, id: Id, edit: string -> string, other: Id)
    ensures Holds(EditFirst(docs, id, edit), other) <==> Holds(docs, other)
    ensures AtMostOnce(EditFirst(docs, id, edit), other) <==> AtMostOnce(docs, other)
  {
    EditKeepsIds(docs, id, edit);
    var after := EditFirst(docs, id, edit);
    assert forall i :: 0 <= i < |docs| ==> after[i].id == docs[i].id;
    if Holds(docs, other) {
      var i :| 0 <= i < |docs| && docs[i].id == Some(other);
      assert after[i].id == Some(other);
    }
    hide EditFirst;
  }

  /** The change rewrites `id` as a whole file. */
  predicate Rewrites(b: Batch, c: Change, id: Id) {
    c.Upsert? && c.id == id && c.sensitive
  }

  /** A managed identity is in its file at most once, and only its own whole-file write can
      bring it in. */
  lemma HeldStep(m: Batch, c: Change, id: Id)
    requires id in m.located && m.located[id] in m.content && Faithful(m)
    requires AtMostOnce(DocsAt(m, m.located[id]), id)
    ensures var after := DocsAt(ApplyChange(m, c), m.located[id]);
            && AtMostOnce(after, id)
            && (Holds(after, id) && !Rewrites(m, c, id) ==> Holds(DocsAt(m, m.located[id]), id))
            && (c == Change.Delete(id) && AppliesEventDeletes(OrDefault(m.mode)) ==> !Holds(after, id))
  {
    var rel := m.located[id];
    var docs := DocsAt(m, rel);
    if Concerns(m, c, rel, c.id) {
      if c.Delete? {
        DropKeepsOthers(docs, c.id, id);
        if !Holds(docs, c.id) { AbsentIsUntouched(docs, c.id, t => t); }
      } else if !(c.Upsert? && c.sensitive) {
        EditKeepsHeld(docs, c.id, c.edit, id);
      }
    } else if c.Upsert? && c.id !in m.located && c.place.Placed? && c.place.path == rel {
      hide Holds;
      SnocOnce(docs, Doc(Some(c.id), c.text), id);
      assert !Holds([Doc(Some(c.id), c.text)], id) by { OneDocHolds(Doc(Some(c.id), c.text), id); }
    } else {
      ElsewhereKeeps(m, c, rel);
      hide ApplyChange;
    }
  }

  lemma OneDocHolds(d: Doc, id: Id)
    ensures Holds([d], id) <==> d.id == Some(id)
  {
    assert [d][0] == d;
  }

  lemma SnocOnce(docs: Content, d: Doc, id: Id)
    requires AtMostOnce(docs, id) && d.id != Some(id)
    ensures AtMostOnce(docs + [d], id) && (Holds(docs + [d], id) <==> Holds(docs, id))
  {
    HoldsOfConcat(docs, [d], id);
    OneDocHolds(d, id);
  }

  lemma {:induction false} HeldAtMostOnce(b: Batch, cs: seq<Change>, id: Id)
    requires b.buffers == map[] && id in b.located && b.located[id] in b.content && UniqueIds(b.content[b.located[id]])
    ensures AtMostOnce(DocsAt(ApplyChanges(b, cs), b.located[id]), id)
  {
    hide ApplyChange, OnlyAt;
    if cs != [] {
      var prior := cs[..|cs| - 1];
      HeldAtMostOnce(b, prior, id);
      ChangesKeepScan(b, prior);
      HeldStep(ApplyChanges(b, prior), cs[|cs| - 1], id);
    }
  }

  /** The documents of a file after the first `n` changes. */
  function After(b: Batch, cs: seq<Change>, n: nat, rel: string): Content
    requires n <= |cs|
  {
    DocsAt(ApplyChanges(b, cs[..n]), rel)
  }

  lemma HeldStepAt(b: Batch, cs: seq<Change>, id: Id, n: nat)
    requires b.buffers == map[] && id in b.located && b.located[id] in b.content && UniqueIds(b.content[b.located[id]])
    requires n < |cs|
    ensures var rel := b.located[id];
            && (Holds(After(b, cs, n + 1, rel), id) && !Rewrites(b, cs[n], id) ==> Holds(After(b, cs, n, rel), id))
            && (cs[n] == Change.Delete(id) && AppliesEventDeletes(OrDefault(b.mode)) ==> !Holds(After(b, cs, n + 1, rel), id))
            && (Rewrites(b, cs[n], id) && |After(b, cs, n, rel)| > 1 ==> After(b, cs, n + 1, rel) == After(b, cs, n, rel))
            && (Rewrites(b, cs[n], id) && |After(b, cs, n, rel)| <= 1 ==> Holds(After(b, cs, n + 1, rel), id))
  {
    assert cs[..n + 1][..n] == cs[..n];
    ChangesKeepScan(b, cs[..n]);
    HeldAtMostOnce(b, cs[..n], id);
    HeldStep(ApplyChanges(b, cs[..n]), cs[n], id);
    if Rewrites(b, cs[n], id) && |After(b, cs, n, b.located[id])| <= 1 {
      TakenDocs(ApplyChanges(b, cs[..n]), cs[n], b.located[id]);
      OneDocHolds(Doc(Some(id), cs[n].text), id);
    }
    hide Holds;
  }

  lemma {:induction false} StaysDeleted(b: Batch, cs: seq<Change>, id: Id, i: nat, n: nat)
    requires b.buffers == map[] && id in b.located && b.located[id] in b.content && UniqueIds(b.content[b.located[id]])
    requires i < n <= |cs| && cs[i] == Change.Delete(id) && AppliesEventDeletes(OrDefault(b.mode))
    requires forall k :: i < k < n ==> !(Rewrites(b, cs[k], id) && |After(b, cs, k, b.located[id])| <= 1)
    ensures !Holds(After(b, cs, n, b.located[id]), id)
  {
    hide After, Holds;
    HeldStepAt(b, cs, id, n - 1);
    if n > i + 1 { StaysDeleted(b, cs, id, i, n - 1); }
  }

  /** A managed identity deleted in a batch is found in its file again, at some later point of
      the batch, if and only if its own whole-file write reaches the file when at most one
      document is left. Any other upsert finds no document to edit and is dropped. */
  lemma DeletedIsRevivedExactly(b: Batch, cs: seq<Change>, id: Id, i: nat)
    requires b.buffers == map[] && id in b.located && b.located[id] in b.content && UniqueIds(b.content[b.located[id]])
    requires i < |cs| && cs[i] == Change.Delete(id) && AppliesEventDeletes(OrDefault(b.mode))
    ensures var rel := b.located[id];
            (exists n :: i < n <= |cs| && Holds(After(b, cs, n, rel), id)) <==>
            (exists k :: i < k < |cs| && Rewrites(b, cs[k], id) && |After(b, cs, k, rel)| <= 1)
  {
    hide After, Holds;
    var rel := b.located[id];
    if exists k :: i < k < |cs| && Rewrites(b, cs[k], id) && |After(b, cs, k, rel)| <= 1 {
      var k :| i < k < |cs| && Rewrites(b, cs[k], id) && |After(b, cs, k, rel)| <= 1;
      HeldStepAt(b, cs, id, k);
      assert Holds(After(b, cs, k + 1, rel), id);
    } else {
      forall n | i < n <= |cs|
        ensures !Holds(After(b, cs, n, rel), id)
      {
        StaysDeleted(b, cs, id, i, n);
      }
    }
  }

  /** A file of two managed documents. Deleting the sensitive one and upserting it again in the
      same batch brings it back and removes the other. */
  lemma RewriteTakesSibling(x: Id, y: Id, secret: string, other: string, place: Placement)
    requires x != y
    ensures var file := [Doc(Some(x), secret), Doc(Some(y), other)];
            var b := NewBatch(map["f" := file], map[x := "f", y := "f"], {}, {}, {}, ON_EVENT);
            var cs := [Change.Delete(x), Change.Upsert(x, t => t, secret, true, place)];
            && DocsAt(ApplyChanges(b, cs), "f") == [Doc(Some(x), secret)]
            && Fate(b, cs, "f", file[1]) == Some(file[1])
            && TakesOver(b, cs, "f", 1)
  {
    var file := [Doc(Some(x), secret), Doc(Some(y), other)];
    var b := NewBatch(map["f" := file], map[x := "f", y := "f"], {}, {}, {}, ON_EVENT);
    var cs := [Change.Delete(x), Change.Upsert(x, t => t, secret, true, place)];
    var one := [Change.Delete(x)];
    assert cs[..|cs| - 1] == one && cs[..1] == one;
    SiblingIsLeft(b, x, file);
    assert Fate(b, cs, "f", file[1]) == Some(file[1]) by {
      assert one[..0] == [];
      assert Fate(b, one, "f", file[1]) == Some(file[1]);
    }
    hide Fate, Survivors, Intended, ApplyChange;
    assert !Holds([file[1]], x) by { OneDocHolds(file[1], x); }
    assert ApplyChanges(b, cs) == ApplyChange(ApplyChanges(b, one), cs[1]);
    ChangesKeepScan(b, one);
    TakenDocs(ApplyChanges(b, one), cs[1], "f");
  }

  lemma SiblingIsLeft(b: Batch, x: Id, file: Content)
    requires b.buffers == map[] && "f" in b.content && b.content["f"] == file && x in b.located && b.located[x] == "f"
    requires |file| == 2 && UniqueIds(file) && file[0].id == Some(x) && AppliesEventDeletes(OrDefault(b.mode))
    ensures DocsAt(ApplyChanges(b, [Change.Delete(x)]), "f") == [file[1]] == Intended(b, [Change.Delete(x)], "f")
  {
    var one := [Change.Delete(x)];
    assert one[..0] == [];
    assert ApplyChanges(b, one) == ApplyDelete(b, x);
    assert DropFirst(file, x) == file[1..] == [file[1]];
    NoChangesKeepAll(b, "f", file);
    assert Intended(b, [], "f") == file + [] == file;
    hide Survivors, Intended, ApplyChanges, Fate;
    IntendedStep(b, one, "f");
  }

  /** With non-empty document texts a batch creates no empty file, so the oracle judges what is
      committed. */
  lemma RealContentIsNotEmpty(b: Batch, cs: seq<Change>, rel: string)
    requires b.buffers == map[] && b.bundles == map[] && PlacesFit(b, cs)
    requires forall i :: 0 <= i < |cs| && cs[i].Upsert? ==> cs[i].text != ""
    ensures !NewAndEmpty(BufferAt(ApplyChanges(b, cs), rel))
  {
    hide ApplyChanges, Sorted, DistinctIds, HasId, Bytes, Admitted;
    if rel in b.content {
      ChangesKeepScan(b, cs);
    } else {
      NewFilesNeverMix(b, cs, rel);
      var ms := Bundle(ApplyChanges(b, cs), rel);
      if ms != [] {
        var last := ms[|ms| - 1];
        assert last in multiset(Admitted(Arrivals(b, cs, rel)));
        AdmittedArrived(Arrivals(b, cs, rel), last);
        ArrivalsHaveText(b, cs, rel, last);
        BytesOfLast(DocsOf(ms));
      }
    }
  }

  lemma BytesOfLast(c: Content)
    requires c != [] && c[|c| - 1].text != ""
    ensures Bytes(c) != ""
  {
  }

  lemma {:induction false} PlaintextArrived(ms: seq<Member>, m: Member)
    requires m in Plaintext(ms)
    ensures m in ms
  {
    if ms != [] && m in Plaintext(ms[..|ms| - 1]) { PlaintextArrived(ms[..|ms| - 1], m); }
  }

  lemma AdmittedArrived(ms: seq<Member>, m: Member)
    requires m in Admitted(ms)
    ensures m in ms
  {
    if !ms[0].sensitive { PlaintextArrived(ms, m); }
  }

  lemma {:induction false} ArrivalsHaveText(b: Batch, cs: seq<Change>, rel: string, m: Member)
    requires m in Arrivals(b, cs, rel)
    requires forall i :: 0 <= i < |cs| && cs[i].Upsert? ==> cs[i].text != ""
    ensures m.text != ""
  {
    var n := |cs| - 1;
    if m in Arrivals(b, cs[..n], rel) { ArrivalsHaveText(b, cs[..n], rel, m); }
  }
}
