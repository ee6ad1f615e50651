/** The batch of one folder, document by document in its files (PlanFlush), does for every
    identity what the batch of Documents does at the identity's slot
    (internal/git/plan_flush.go, commit_executor.go). */
module FolderBatches {
  import opened PrunePolicy
  import opened Documents
  import opened Ordering
  import P = PlanFlush

  /** A target's folder as the writer sees it: how an identity is written in a file, how a
      document is written as text and patched there, and where a new identity is placed. */
  datatype Folder = Folder(
    base: string,
    key: Ident -> P.Id,
    render: Fields -> string,
    patch: (string, Fields) -> string,
    place: Ident -> P.Placement)

  /** What the writer makes of an event: an edit of the document there, or a new document. The
      editor leaves an encrypted document as it is. */
  function ChangeOf(f: Folder, e: Event): P.Change {
    match e.op
    case Upsert(d) => P.Change.Upsert(f.key(e.ident), (t: string) => f.render(d), f.render(d), e.ident.sensitive, f.place(e.ident))
    case Delete => P.Change.Delete(f.key(e.ident))
    case FieldPatch(a) => P.Change.FieldPatch(f.key(e.ident), (t: string) => if e.ident.sensitive then t else f.patch(t, a))
  }

  function ChangesOf(f: Folder, events: seq<Event>): (cs: seq<P.Change>)
    ensures |cs| == |events|
    ensures forall i :: 0 <= i < |cs| ==> cs[i] == ChangeOf(f, events[i])
  {
    seq(|events|, i requires 0 <= i < |events| => ChangeOf(f, events[i]))
  }

  /** The texts of an identity's documents, in file order. */
  function Texts(docs: P.Content, id: P.Id): seq<string> {
    if docs == [] then []
    else (if docs[0].id == Some(id) then [docs[0].text] else []) + Texts(docs[1..], id)
  }

  function Rendered(f: Folder, c: seq<Fields>): (r: seq<string>)
    ensures |r| == |c| && forall i :: 0 <= i < |c| ==> r[i] == f.render(c[i])
  {
    seq(|c|, i requires 0 <= i < |c| => f.render(c[i]))
  }

  /** The file of an identity: where the scan located it, or where a new one is placed. */
  function Home(f: Folder, scan: P.Batch, x: Ident): string {
    if f.key(x) in scan.located then scan.located[f.key(x)] else if f.place(x).Placed? then f.place(x).path else ""
  }

  // ------------------------------------------------------- an accepted folder

  /** A located identity has one document, in its file; a sensitive one has the file for itself. */
  ghost predicate LocatedWell(f: Folder, scan: P.Batch, t: Tree, x: Ident) {
    f.key(x) in scan.located ==>
      && Slot(f.base, x) in t && |t[Slot(f.base, x)]| == 1
      && var rel := scan.located[f.key(x)];
         && rel in scan.content && Texts(scan.content[rel], f.key(x)) == Rendered(f, t[Slot(f.base, x)])
         && (x.sensitive ==> |scan.content[rel]| == 1)
  }

  /** A new identity is nowhere in the folder yet; it is appended to an existing file or starts
      one, and a sensitive one always starts one. */
  ghost predicate PlacedWell(f: Folder, scan: P.Batch, t: Tree, x: Ident) {
    f.key(x) !in scan.located ==>
      && Slot(f.base, x) !in t
      && f.place(x).Placed?
      && var rel := f.place(x).path;
         && (f.place(x).append <==> rel in scan.content)
         && (x.sensitive ==> rel !in scan.content)
         && (rel in scan.content ==> Texts(scan.content[rel], f.key(x)) == [])
  }

  /** Sensitive identities share a file with none. */
  ghost predicate Apart(f: Folder, scan: P.Batch, x: Ident, y: Ident) {
    x != y ==> f.key(x) != f.key(y) && (x.sensitive || y.sensitive ==> Home(f, scan, x) != Home(f, scan, y))
  }

  /** A folder the writer accepts: the scan of it holds, for the identities `who`, the documents
      of `t`. */
  ghost predicate Orderly(f: Folder, scan: P.Batch, t: Tree, who: set<Ident>) {
    && scan.buffers == map[] && scan.bundles == map[]
    && (forall d, a :: f.patch(f.render(d), a) == f.render(d + a))
    && (forall x :: x in who ==> LocatedWell(f, scan, t, x) && PlacedWell(f, scan, t, x))
    && (forall x, y :: x in who && y in who ==> Apart(f, scan, x, y))
  }

  // ---------------------------------------------------------- texts of a file

  lemma {:induction false} TextsOfConcat(a: P.Content, b: P.Content, id: P.Id)
    ensures Texts(a + b, id) == Texts(a, id) + Texts(b, id)
  {
    if a == [] {
      assert a + b == b;
    } else {
      assert (a + b)[0] == a[0] && (a + b)[1..] == a[1..] + b;
      TextsOfConcat(a[1..], b, id);
    }
  }

  lemma {:induction false} TextsHold(docs: P.Content, id: P.Id)
    ensures P.Holds(docs, id) <==> Texts(docs, id) != []
  {
    if docs != [] {
      P.TailHolds(docs, id);
      TextsHold(docs[1..], id);
    }
  }

  lemma {:induction false} TextsOfEdit(docs: P.Content, id: P.Id, edit: string -> string, other: P.Id)
    ensures Texts(P.EditFirst(docs, id, edit), other) == if other == id then FirstEdited(Texts(docs, id), edit) else Texts(docs, other)
  {
    if docs != [] {
      var d, rest := docs[0], docs[1..];
      hide Texts, FirstEdited;
      assert docs == [d] + rest;
      TextsOfHead(d, rest, other);
      if d.id == Some(id) {
        var head := P.Doc(Some(id), edit(d.text));
        TextsOfHead(head, rest, other);
        FirstEditedHead(d.text, Texts(rest, id), edit);
      } else {
        TextsOfEdit(rest, id, edit, other);
        TextsOfHead(d, P.EditFirst(rest, id, edit), other);
      }
      EmptyFront(Texts(rest, other));
      EmptyFront(Texts(P.EditFirst(rest, id, edit), other));
    } else {
      assert P.EditFirst(docs, id, edit) == [];
    }
  }

  function FirstEdited(texts: seq<string>, edit: string -> string): seq<string> {
    if texts == [] then [] else [edit(texts[0])] + texts[1..]
  }

  lemma FirstEditedHead(text: string, rest: seq<string>, edit: string -> string)
    ensures FirstEdited([text] + rest, edit) == [edit(text)] + rest
  {
  }

  lemma EmptyFront(texts: seq<string>)
    ensures [] + texts == texts
  {
  }

  lemma TextsOfHead(d: P.Doc, rest: P.Content, id: P.Id)
    ensures Texts([d] + rest, id) == (if d.id == Some(id) then [d.text] else []) + Texts(rest, id)
  {
    assert ([d] + rest)[1..] == rest;
  }

  lemma {:induction false} TextsOfDrop(docs: P.Content, id: P.Id, other: P.Id)
    ensures var was := Texts(docs, other);
            Texts(P.DropFirst(docs, id), other) == if other == id && was != [] then was[1..] else was
  {
    if docs != [] && docs[0].id != Some(id) {
      var left := P.DropFirst(docs, id);
      assert left[0] == docs[0] && left[1..] == P.DropFirst(docs[1..], id);
      TextsOfDrop(docs[1..], id, other);
    }
  }

  /** A member joins a new file after the members of its own identity. */
  lemma {:induction false} TextsOfInsert(ms: seq<P.Member>, m: P.Member, other: P.Id)
    requires P.Sorted(ms)
    ensures Texts(P.DocsOf(P.InsertMember(ms, m)), other) == Texts(P.DocsOf(ms), other) + if other == m.id then [m.text] else []
  {
    hide Less;
    if ms == [] {
      TextsOfMember(m, [], other);
    } else if Less(m.id, ms[0].id) {
      TextsOfMember(m, ms, other);
      if other == m.id { NoTexts(ms, m.id); }
    } else {
      assert ms == [ms[0]] + ms[1..];
      TextsOfMember(ms[0], ms[1..], other);
      TextsOfMember(ms[0], P.InsertMember(ms[1..], m), other);
      TextsOfInsert(ms[1..], m, other);
    }
  }

  lemma TextsOfMember(m: P.Member, ms: seq<P.Member>, other: P.Id)
    ensures Texts(P.DocsOf([m] + ms), other) == (if other == m.id then [m.text] else []) + Texts(P.DocsOf(ms), other)
  {
    assert P.DocsOf([m] + ms) == [P.Doc(Some(m.id), m.text)] + P.DocsOf(ms);
    TextsOfHead(P.Doc(Some(m.id), m.text), P.DocsOf(ms), other);
  }

  lemma NoTexts(ms: seq<P.Member>, id: P.Id)
    requires P.Sorted(ms) && ms != [] && Less(id, ms[0].id)
    ensures Texts(P.DocsOf(ms), id) == []
  {
    TextsHold(P.DocsOf(ms), id);
    if P.Holds(P.DocsOf(ms), id) {
      var i :| 0 <= i < |ms| && P.DocsOf(ms)[i].id == Some(id);
      if i == 0 { LessIsStrict(id); }
    }
  }

  // ------------------------------------------------------------- what is kept

  /** The batch shows the documents `c` for the identity `x`, and its file is in the state that
      such documents leave it in. */
  ghost predicate Shows(f: Folder, scan: P.Batch, b: P.Batch, x: Ident, c: seq<Fields>) {
    var rel := Home(f, scan, x);
    && Texts(P.DocsAt(b, rel), f.key(x)) == Rendered(f, c)
    && (f.key(x) in scan.located ==> |c| <= 1)
    && (x.sensitive ==> |P.DocsAt(b, rel)| == |c|)
    && (rel !in scan.content ==> NewFile(b, rel) && (!x.sensitive ==> !P.HasSensitive(P.Bundle(b, rel))))
  }

  /** A file the batch creates is its members in identity order. */
  ghost predicate NewFile(b: P.Batch, rel: string) {
    && P.BufferAt(b, rel) == P.Buffer(None, if P.Bundle(b, rel) == [] then None else Some(P.DocsOf(P.Bundle(b, rel))))
    && P.Sorted(P.Bundle(b, rel))
  }

  lemma ScanShows(f: Folder, scan: P.Batch, t: Tree, who: set<Ident>, x: Ident)
    requires Orderly(f, scan, t, who) && x in who
    ensures Shows(f, scan, scan, x, Get(t, Slot(f.base, x)))
  {
    assert LocatedWell(f, scan, t, x) && PlacedWell(f, scan, t, x);
  }

  /** A change in another file, or of nothing, shows the same. */
  lemma ElsewhereShows(f: Folder, scan: P.Batch, b: P.Batch, after: P.Batch, x: Ident, c: seq<Fields>)
    requires Shows(f, scan, b, x, c)
    requires P.BufferAt(after, Home(f, scan, x)) == P.BufferAt(b, Home(f, scan, x))
    requires P.Bundle(after, Home(f, scan, x)) == P.Bundle(b, Home(f, scan, x))
    ensures Shows(f, scan, after, x, c)
  {
  }

  // ---------------------------------------------------------- one event in a file

  lemma Edited(f: Folder, b: P.Batch, e: Event)
    requires f.key(e.ident) in b.located && !e.op.Delete? && !(e.op.Upsert? && e.ident.sensitive)
    ensures var rel := b.located[f.key(e.ident)];
            P.DocsAt(P.ApplyChange(b, ChangeOf(f, e)), rel) == P.EditFirst(P.DocsAt(b, rel), f.key(e.ident), ChangeOf(f, e).edit)
  {
    var docs := P.DocsAt(b, b.located[f.key(e.ident)]);
    if !P.Holds(docs, f.key(e.ident)) { P.AbsentIsUntouched(docs, f.key(e.ident), ChangeOf(f, e).edit); }
  }

  lemma Dropped(b: P.Batch, id: P.Id)
    requires id in b.located
    ensures var rel := b.located[id];
            P.DocsAt(P.ApplyDelete(b, id), rel) ==
            if AppliesEventDeletes(OrDefault(b.mode)) then P.DropFirst(P.DocsAt(b, rel), id) else P.DocsAt(b, rel)
  {
    var docs := P.DocsAt(b, b.located[id]);
    if !P.Holds(docs, id) { P.AbsentIsUntouched(docs, id, t => t); }
  }

  /** What becomes of one text of an identity that is located. */
  function TextAfter(f: Folder, e: Event, deletes: bool, texts: seq<string>): seq<string> {
    if texts == [] then []
    else match e.op
      case Upsert(d) => [f.render(d)] + texts[1..]
      case Delete => if deletes then texts[1..] else texts
      case FieldPatch(a) => [if e.ident.sensitive then texts[0] else f.patch(texts[0], a)] + texts[1..]
  }

  /** An event of a located plain identity, or a field patch or delete of any located one. */
  lemma LocatedTexts(f: Folder, b: P.Batch, e: Event, other: P.Id)
    requires f.key(e.ident) in b.located && !(e.op.Upsert? && e.ident.sensitive)
    ensures var rel := b.located[f.key(e.ident)];
            var was := Texts(P.DocsAt(b, rel), other);
            Texts(P.DocsAt(P.ApplyChange(b, ChangeOf(f, e)), rel), other) ==
            if other == f.key(e.ident) then TextAfter(f, e, AppliesEventDeletes(OrDefault(b.mode)), was) else was
  {
    var id := f.key(e.ident);
    var rel := b.located[id];
    if e.op.Delete? {
      TextsOfDrop(P.DocsAt(b, rel), id, other);
      Dropped(b, id);
    } else {
      TextsOfEdit(P.DocsAt(b, rel), id, ChangeOf(f, e).edit, other);
      Edited(f, b, e);
    }
    hide P.ApplyFieldPatch, P.PatchExisting, P.ApplyDelete, P.DocsAt, P.EditFirst, P.DropFirst, Texts;
  }

  /** An upsert of a new plain identity adds a document. */
  lemma NewTexts(f: Folder, b: P.Batch, e: Event, other: P.Id)
    requires f.key(e.ident) !in b.located && e.op.Upsert? && !e.ident.sensitive && f.place(e.ident).Placed?
    requires var rel := f.place(e.ident).path;
             if f.place(e.ident).append then rel in b.content
             else rel !in b.content && NewFile(b, rel) && !P.HasSensitive(P.Bundle(b, rel))
    ensures var rel := f.place(e.ident).path;
            var after := P.ApplyChange(b, ChangeOf(f, e));
            && Texts(P.DocsAt(after, rel), other) ==
               Texts(P.DocsAt(b, rel), other) + (if other == f.key(e.ident) then [f.render(e.op.doc)] else [])
            && (rel !in b.content ==> NewFile(after, rel) && !P.HasSensitive(P.Bundle(after, rel)))
  {
    var id, text := f.key(e.ident), f.render(e.op.doc);
    var rel := f.place(e.ident).path;
    var c := ChangeOf(f, e);
    var doc := P.Doc(Some(id), text);
    if f.place(e.ident).append {
      TextsOfConcat(P.DocsAt(b, rel), [doc], other);
      assert [doc][1..] == [];
      assert P.DocsAt(P.ApplyChange(b, c), rel) == P.DocsAt(b, rel) + [doc];
    } else {
      var m := P.Member(id, text, false);
      TextsOfInsert(P.Bundle(b, rel), m, other);
      P.InsertKeepsSorted(P.Bundle(b, rel), m);
      StaysPlain(P.Bundle(b, rel), m);
      assert P.Bundle(P.ApplyChange(b, c), rel) == P.InsertMember(P.Bundle(b, rel), m);
      hide P.Sorted, P.HasSensitive, Texts, P.DocsOf;
    }
  }

  lemma {:induction false} StaysPlain(ms: seq<P.Member>, m: P.Member)
    requires !P.HasSensitive(ms) && !m.sensitive
    ensures !P.HasSensitive(P.InsertMember(ms, m)) && P.InsertMember(ms, m) != []
  {
    if ms != [] && !Less(m.id, ms[0].id) {
      assert !ms[0].sensitive;
      StaysPlain(ms[1..], m);
    }
  }

  // --------------------------------------------------- one event, one identity

  lemma LocatedStep(f: Folder, scan: P.Batch, b: P.Batch, e: Event, mode: Modes, c: seq<Fields>)
    requires P.SameScan(b, scan) && (forall d, a :: f.patch(f.render(d), a) == f.render(d + a)) && mode(e.base) == b.mode
    requires f.key(e.ident) in scan.located && scan.located[f.key(e.ident)] in scan.content
    requires !(e.op.Upsert? && e.ident.sensitive) && Shows(f, scan, b, e.ident, c)
    ensures Shows(f, scan, P.ApplyChange(b, ChangeOf(f, e)), e.ident, BatchStep(true, e, mode, c))
  {
    var id := f.key(e.ident);
    var rel := scan.located[id];
    LocatedTexts(f, b, e, id);
    if e.ident.sensitive { SoleDocument(f, b, e, rel); }
    hide P.ApplyChange, P.DocsAt, Texts, P.SameScan;
    assert c != [] ==> c == [c[0]] && Rendered(f, c) == [f.render(c[0])];
    assert Rendered(f, BatchStep(true, e, mode, c)) == TextAfter(f, e, AppliesEventDeletes(OrDefault(b.mode)), Rendered(f, c));
  }

  /** The file of a sensitive identity keeps no other document. */
  lemma SoleDocument(f: Folder, b: P.Batch, e: Event, rel: string)
    requires f.key(e.ident) in b.located && b.located[f.key(e.ident)] == rel && !e.op.Upsert?
    requires |P.DocsAt(b, rel)| == |Texts(P.DocsAt(b, rel), f.key(e.ident))| <= 1
    ensures var after := P.DocsAt(P.ApplyChange(b, ChangeOf(f, e)), rel); |after| == |Texts(after, f.key(e.ident))|
  {
    var id := f.key(e.ident);
    var docs := P.DocsAt(b, rel);
    TextsHold(docs, id);
    LocatedTexts(f, b, e, id);
    if docs != [] { assert docs == [docs[0]] && docs[0].id == Some(id); }
    if e.op.Delete? { Dropped(b, id); } else { Edited(f, b, e); }
    hide P.ApplyFieldPatch, P.PatchExisting, P.ApplyDelete, P.DocsAt;
  }

  lemma LocatedSecretStep(f: Folder, scan: P.Batch, b: P.Batch, e: Event, mode: Modes, c: seq<Fields>)
    requires P.SameScan(b, scan) && f.key(e.ident) in scan.located && scan.located[f.key(e.ident)] in scan.content
    requires e.op.Upsert? && e.ident.sensitive && Shows(f, scan, b, e.ident, c)
    ensures Shows(f, scan, P.ApplyChange(b, ChangeOf(f, e)), e.ident, BatchStep(true, e, mode, c))
  {
    var rel := scan.located[f.key(e.ident)];
    var doc := P.Doc(Some(f.key(e.ident)), f.render(e.op.doc));
    var after := P.ApplyChange(b, ChangeOf(f, e));
    assert |P.DocsAt(b, rel)| <= 1;
    assert P.DocsAt(after, rel) == [doc];
    assert [doc][1..] == [];
    assert Rendered(f, [e.op.doc]) == [f.render(e.op.doc)];
  }

  lemma NewPlainStep(f: Folder, scan: P.Batch, b: P.Batch, e: Event, mode: Modes, c: seq<Fields>)
    requires P.SameScan(b, scan) && f.key(e.ident) !in scan.located && e.op.Upsert? && !e.ident.sensitive
    requires f.place(e.ident).Placed? && (f.place(e.ident).append <==> f.place(e.ident).path in scan.content)
    requires Shows(f, scan, b, e.ident, c)
    ensures Shows(f, scan, P.ApplyChange(b, ChangeOf(f, e)), e.ident, BatchStep(false, e, mode, c))
  {
    NewTexts(f, b, e, f.key(e.ident));
    hide P.ApplyChange, P.DocsAt, Texts, NewFile, P.HasSensitive, P.Bundle;
    assert Rendered(f, c + [e.op.doc]) == Rendered(f, c) + [f.render(e.op.doc)];
  }

  lemma NewSecretStep(f: Folder, scan: P.Batch, b: P.Batch, e: Event, mode: Modes, c: seq<Fields>)
    requires P.SameScan(b, scan) && f.key(e.ident) !in scan.located && e.op.Upsert? && e.ident.sensitive
    requires f.place(e.ident).Placed? && !f.place(e.ident).append && f.place(e.ident).path !in scan.content
    requires Shows(f, scan, b, e.ident, c)
    ensures Shows(f, scan, P.ApplyChange(b, ChangeOf(f, e)), e.ident, BatchStep(false, e, mode, c))
  {
    var rel := f.place(e.ident).path;
    var after := P.ApplyChange(b, ChangeOf(f, e));
    if c != [] {
      assert P.BufferAt(after, rel) == P.BufferAt(b, rel) && P.Bundle(after, rel) == P.Bundle(b, rel);
      ElsewhereShows(f, scan, b, after, e.ident, c);
    } else {
      var m := P.Member(f.key(e.ident), f.render(e.op.doc), true);
      assert P.Bundle(b, rel) == [];
      assert P.Bundle(after, rel) == [m];
      var docs := P.DocsOf([m]);
      assert docs == [P.Doc(Some(m.id), m.text)] && docs[1..] == [];
      assert P.BufferAt(after, rel) == P.Buffer(None, Some(docs));
      assert Rendered(f, [] + [e.op.doc]) == [f.render(e.op.doc)];
      hide P.ApplyChange;
    }
  }

  /** An event of the identity itself. */
  lemma OwnStep(f: Folder, scan: P.Batch, t: Tree, who: set<Ident>, b: P.Batch, e: Event, mode: Modes, c: seq<Fields>)
    requires Orderly(f, scan, t, who) && P.SameScan(b, scan) && e.ident in who && mode(e.base) == scan.mode
    requires Shows(f, scan, b, e.ident, c)
    ensures Shows(f, scan, P.ApplyChange(b, ChangeOf(f, e)), e.ident, BatchStep(f.key(e.ident) in scan.located, e, mode, c))
  {
    assert LocatedWell(f, scan, t, e.ident) && PlacedWell(f, scan, t, e.ident);
    assert forall d, a :: f.patch(f.render(d), a) == f.render(d + a);
    hide Shows, Orderly;
    if f.key(e.ident) in scan.located {
      if e.op.Upsert? && e.ident.sensitive {
        LocatedSecretStep(f, scan, b, e, mode, c);
      } else {
        LocatedStep(f, scan, b, e, mode, c);
      }
    } else if !e.op.Upsert? {
    } else if e.ident.sensitive {
      NewSecretStep(f, scan, b, e, mode, c);
    } else {
      NewPlainStep(f, scan, b, e, mode, c);
    }
  }

  /** An event of another identity. */
  lemma OtherStep(f: Folder, scan: P.Batch, t: Tree, who: set<Ident>, b: P.Batch, e: Event, x: Ident, c: seq<Fields>)
    requires Orderly(f, scan, t, who) && P.SameScan(b, scan) && e.ident in who && x in who && e.ident != x
    requires Shows(f, scan, b, x, c)
    ensures Shows(f, scan, P.ApplyChange(b, ChangeOf(f, e)), x, c)
  {
    var y := e.ident;
    assert LocatedWell(f, scan, t, y) && PlacedWell(f, scan, t, y) && Apart(f, scan, x, y);
    hide Orderly, LocatedWell, P.ApplyChange, NewFile;
    if Home(f, scan, x) != Home(f, scan, y) {
      P.ElsewhereKeeps(b, ChangeOf(f, e), Home(f, scan, x));
      ElsewhereShows(f, scan, b, P.ApplyChange(b, ChangeOf(f, e)), x, c);
    } else {
      SameFileStep(f, scan, b, e, x, c);
    }
  }

  lemma SameFileStep(f: Folder, scan: P.Batch, b: P.Batch, e: Event, x: Ident, c: seq<Fields>)
    requires P.SameScan(b, scan) && Home(f, scan, x) == Home(f, scan, e.ident) && f.key(x) != f.key(e.ident)
    requires !x.sensitive && !e.ident.sensitive && Shows(f, scan, b, x, c)
    requires if f.key(e.ident) in scan.located then scan.located[f.key(e.ident)] in scan.content
             else f.place(e.ident).Placed? && (f.place(e.ident).append <==> f.place(e.ident).path in scan.content)
    ensures Shows(f, scan, P.ApplyChange(b, ChangeOf(f, e)), x, c)
  {
    if f.key(e.ident) in scan.located {
      LocatedTexts(f, b, e, f.key(x));
      hide P.ApplyChange;
    } else if e.op.Upsert? {
      NewTexts(f, b, e, f.key(x));
      hide P.ApplyChange;
    }
  }

  // --------------------------------------------------------------- the batch

  /** On an accepted folder, whatever the files share and however the events interleave, the
      batch of the folder shows for every identity exactly the documents that the batch over
      slots leaves there. */
  lemma {:induction false} FolderBatchIsSlotBatch(f: Folder, scan: P.Batch, t: Tree, who: set<Ident>, events: seq<Event>, mode: Modes, x: Ident)
    requires Orderly(f, scan, t, who) && x in who && mode(f.base) == scan.mode
    requires forall i :: 0 <= i < |events| ==> events[i].base == f.base && events[i].ident in who
    ensures Shows(f, scan, P.ApplyChanges(scan, ChangesOf(f, events)), x, Get(ApplyBatch(t, events, mode), Slot(f.base, x)))
  {
    hide Shows, Orderly, P.ApplyChange, BatchStep, ChangeOf;
    if events == [] {
      ScanShows(f, scan, t, who, x);
    } else {
      var n := |events| - 1;
      FolderBatchIsSlotBatch(f, scan, t, who, events[..n], mode, x);
      LastChange(f, scan, events);
      LastEvent(t, events, mode, Slot(f.base, x));
      FoundIsLocated(f, scan, t, who, x);
      hide P.ApplyChanges, ApplyBatch;
      var b := P.ApplyChanges(scan, ChangesOf(f, events[..n]));
      var c := Get(ApplyBatch(t, events[..n], mode), Slot(f.base, x));
      if events[n].ident == x {
        OwnStep(f, scan, t, who, b, events[n], mode, c);
      } else {
        OtherStep(f, scan, t, who, b, events[n], x, c);
      }
    }
  }

  lemma LastChange(f: Folder, scan: P.Batch, events: seq<Event>)
    requires events != []
    ensures var n := |events| - 1;
            var b := P.ApplyChanges(scan, ChangesOf(f, events[..n]));
            P.ApplyChanges(scan, ChangesOf(f, events)) == P.ApplyChange(b, ChangeOf(f, events[n])) && P.SameScan(b, scan)
  {
    var n := |events| - 1;
    assert ChangesOf(f, events)[..n] == ChangesOf(f, events[..n]);
    P.ChangesKeepScan(scan, ChangesOf(f, events[..n]));
    hide P.ApplyChange, ChangeOf;
  }

  lemma LastEvent(t: Tree, events: seq<Event>, mode: Modes, s: Slot)
    requires events != []
    ensures var e := events[|events| - 1];
            var before := Get(ApplyBatch(t, events[..|events| - 1], mode), s);
            Get(ApplyBatch(t, events, mode), s) == if PathKey(e) == s then BatchStep(s in t, e, mode, before) else before
  {
    hide BatchStep;
  }

  lemma FoundIsLocated(f: Folder, scan: P.Batch, t: Tree, who: set<Ident>, x: Ident)
    requires Orderly(f, scan, t, who) && x in who
    ensures Slot(f.base, x) in t <==> f.key(x) in scan.located
  {
    assert LocatedWell(f, scan, t, x) && PlacedWell(f, scan, t, x);
  }
}
