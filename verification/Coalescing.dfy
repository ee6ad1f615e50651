/** What committing a window means, as the write the loop makes of it
    (internal/git/open_window.go, pending_writes.go). */
module Coalescing {
  import opened Documents
  import opened Batches
  import opened OpenWindows
  import opened Writes
  import opened LoopSpec

  /** The events of a target as they are written: with the target's path where they have none. */
  function Written(events: seq<Event>, target: TargetKey, md: Metadata): (r: seq<Event>)
    ensures |r| == |events|
    ensures forall i :: 0 <= i < |r| ==> r[i] == events[i].(base := r[i].base)
  {
    seq(|events|, i requires 0 <= i < |events| => if Named(target) && events[i].base == "" then events[i].(base := md.base) else events[i])
  }

  /** The write of the window that the events leave open, under the message and the claim the
      window came to have. */
  function WindowWrite(events: seq<Event>, md: Metadata, message: string, cr: Option<CrId>): (w: Write)
    requires OneAuthorOneTarget(events)
    ensures w.events == Written(OrderedEvents(Collect(events)), events[0].target, md) && w.kind.Grouped?
  {
    var window := Collect(events);
    var w := GroupedWrite(window.(message := message, cr := cr), OrderedEvents(window), md);
    assert w.events == Written(OrderedEvents(window), events[0].target, md);
    w
  }

  /** From every branch, the write leads where the events, each a write of its own, lead. */
  ghost predicate MeansTheSame(w: Write, arrived: seq<Event>) {
    forall t :: Accepts(t, w) ==> ApplyWrite(t, w) == ApplyEvents(t, arrived, ModesOf(w.target))
  }

  // -------------------------------------------------------- writes in general

  /** A write means the same as a stream of events if and only if it is steady and its own events,
      in order, have the effects of the stream. */
  lemma MeansTheSameExactly(w: Write, arrived: seq<Event>)
    requires !w.kind.Resync?
    ensures MeansTheSame(w, arrived) <==> Steady(w) && SameEffects(w.events, arrived, ModesOf(w.target))
  {
    hide ApplyWrite, Accepts, Touches, ModesOf;
    if MeansTheSame(w, arrived) {
      SameIsSteady(w, arrived);
      forall s ensures EffectAt(w.events, ModesOf(w.target), s) == EffectAt(arrived, ModesOf(w.target), s) {
        SameEffectFrom(w, arrived, s, map[]);
        SameEffectFrom(w, arrived, s, map[s := [map[]]]);
        EffectsDistinguished(EffectAt(w.events, ModesOf(w.target), s), EffectAt(arrived, ModesOf(w.target), s));
      }
    }
    if Steady(w) && SameEffects(w.events, arrived, ModesOf(w.target)) {
      SameEffectsSameMeaning(w.events, arrived, ModesOf(w.target));
      forall t | Accepts(t, w) ensures ApplyWrite(t, w) == ApplyEvents(t, arrived, ModesOf(w.target)) {
        SteadyIsInOrder(t, w);
      }
    }
  }

  lemma SameIsSteady(w: Write, arrived: seq<Event>)
    requires !w.kind.Resync? && MeansTheSame(w, arrived)
    ensures Steady(w)
  {
    var mode := ModesOf(w.target);
    var once := ApplyEvents(map[], arrived, mode);
    forall s ensures Get(ApplyEvents(once, arrived, mode), s) == Get(once, s) && |Get(once, s)| <= 1 {
      EventsActBySlot(map[], arrived, mode, s);
      EventsActBySlot(once, arrived, mode, s);
      EffectIdempotent(EffectAt(arrived, mode, s), []);
      HeldExactly(arrived, mode, s);
    }
    TreesAgree(ApplyEvents(once, arrived, mode), once);
    forall s | s in once ensures |once[s]| == 1 { assert |Get(once, s)| <= 1; }
    hide ApplyWrite, ApplyEvents, Touches;
    assert Accepts(map[], w) && Accepts(once, w);
    ReplayExactly(map[], w);
  }

  lemma SameEffectFrom(w: Write, arrived: seq<Event>, s: Slot, t: Tree)
    requires !w.kind.Resync? && MeansTheSame(w, arrived) && Steady(w) && forall k :: k in t ==> |t[k]| == 1
    ensures Run(EffectAt(w.events, ModesOf(w.target), s), Get(t, s)) == Run(EffectAt(arrived, ModesOf(w.target), s), Get(t, s))
  {
    hide ApplyWrite, EffectAt, Touches;
    assert Accepts(t, w);
    SteadyBySlot(t, w, s);
    EventsActBySlot(t, arrived, ModesOf(w.target), s);
  }

  // ------------------------------------------------------------- the window

  /** No identity arrives both without a path and with the path it is then given. */
  predicate Unmixed(events: seq<Event>, target: TargetKey, md: Metadata) {
    forall i, j :: 0 <= i < j < |events| && PathKey(Written(events, target, md)[i]) == PathKey(Written(events, target, md)[j]) ==>
      PathKey(events[i]) == PathKey(events[j])
  }

  lemma WrittenKeepsOwner(events: seq<Event>, md: Metadata)
    requires OneAuthorOneTarget(events)
    ensures OneAuthorOneTarget(Written(events, events[0].target, md))
  {
  }

  function WrittenKey(k: Slot, target: TargetKey, md: Metadata): Slot {
    if Named(target) && k.base == "" then Slot(md.base, k.ident) else k
  }

  /** The windows of the events and of the events as written correspond key by key. */
  ghost predicate Corresponds(w: Window, v: Window, target: TargetKey, md: Metadata) {
    && |v.order| == |w.order|
    && (forall i :: 0 <= i < |w.order| ==> v.order[i] == WrittenKey(w.order[i], target, md))
    && (forall k :: k in w.latest ==>
          && WrittenKey(k, target, md) in v.latest
          && v.latest[WrittenKey(k, target, md)] == w.latest[k].(base := WrittenKey(k, target, md).base))
  }

  lemma {:induction false} WindowsCorrespond(events: seq<Event>, target: TargetKey, md: Metadata)
    requires OneAuthorOneTarget(events) && OneAuthorOneTarget(Written(events, target, md)) && Unmixed(events, target, md)
    ensures Corresponds(Collect(events), Collect(Written(events, target, md)), target, md)
  {
    var written := Written(events, target, md);
    var n := |events| - 1;
    assert PathKey(written[n]) == WrittenKey(PathKey(events[n]), target, md);
    if n > 0 {
      var rest := events[..n];
      assert Written(rest, target, md) == written[..n];
      WindowsCorrespond(rest, target, md);
      assert Collect(events) == Add(Collect(rest), events[n]) && Collect(written) == Add(Collect(written[..n]), written[n]);
      KeysStayApart(events, target, md);
      hide Collect, Unmixed;
      OneMoreCorresponds(Collect(rest), Collect(written[..n]), events[n], written[n], target, md);
    }
  }

  /** The last event meets a key as written exactly where it meets the key itself. */
  lemma KeysStayApart(events: seq<Event>, target: TargetKey, md: Metadata)
    requires |events| > 1 && OneAuthorOneTarget(events) && Unmixed(events, target, md)
    requires OneAuthorOneTarget(events[..|events| - 1]) && OneAuthorOneTarget(Written(events, target, md)[..|events| - 1])
    ensures var e, f := events[|events| - 1], Written(events, target, md)[|events| - 1];
            var w, v := Collect(events[..|events| - 1]), Collect(Written(events, target, md)[..|events| - 1]);
            && (PathKey(f) in v.latest ==> PathKey(e) in w.latest)
            && (forall k :: k in w.latest && WrittenKey(k, target, md) == PathKey(f) ==> k == PathKey(e))
  {
    var n := |events| - 1;
    var written := Written(events, target, md);
    hide Collect;
    if PathKey(written[n]) in Collect(written[..n]).latest {
      OnlyKnownKeys(written[..n], PathKey(written[n]));
      var i :| 0 <= i < n && PathKey(written[..n][i]) == PathKey(written[n]);
      assert PathKey(written[i]) == PathKey(written[n]);
      KnownKey(events[..n], i);
    }
    forall k | k in Collect(events[..n]).latest && WrittenKey(k, target, md) == PathKey(written[n])
      ensures k == PathKey(events[n])
    {
      OnlyKnownKeys(events[..n], k);
      var i :| 0 <= i < n && PathKey(events[..n][i]) == k;
      assert PathKey(written[i]) == WrittenKey(k, target, md);
    }
  }

  lemma OneMoreCorresponds(w: Window, v: Window, e: Event, f: Event, target: TargetKey, md: Metadata)
    requires Corresponds(w, v, target, md) && f == e.(base := f.base) && PathKey(f) == WrittenKey(PathKey(e), target, md)
    requires PathKey(f) in v.latest ==> PathKey(e) in w.latest
    requires forall k :: k in w.latest && WrittenKey(k, target, md) == PathKey(f) ==> k == PathKey(e)
    ensures Corresponds(Add(w, e), Add(v, f), target, md)
  {
  }

  /** The write of the window is the window of the events as written. */
  lemma WriteIsWindow(events: seq<Event>, md: Metadata, message: string, cr: Option<CrId>)
    requires OneAuthorOneTarget(events) && Unmixed(events, events[0].target, md)
    ensures var written := Written(events, events[0].target, md);
            && OneAuthorOneTarget(written)
            && WindowWrite(events, md, message, cr).events == OrderedEvents(Collect(written))
  {
    var target := events[0].target;
    WrittenKeepsOwner(events, md);
    WindowsCorrespond(events, target, md);
    hide Collect, WindowWrite, Unmixed;
    var w, v := Collect(events), Collect(Written(events, target, md));
    var out := WindowWrite(events, md, message, cr).events;
    forall i | 0 <= i < |out| ensures out[i] == OrderedEvents(v)[i] {
      assert w.order[i] in w.order;
      assert out[i].base == WrittenKey(w.order[i], target, md).base;
    }
    assert out == OrderedEvents(v);
  }

  /** Committing the window instead of every event as it arrives leads to the same branch, from
      every branch, if and only if the write is steady and its events have the effects of those
      that arrived; if no identity arrives under two spellings of its path, that is exactly when
      no partial event survives over something it does not absorb. */
  lemma WindowMeansTheSameExactly(events: seq<Event>, md: Metadata, message: string, cr: Option<CrId>)
    requires OneAuthorOneTarget(events)
    ensures var w := WindowWrite(events, md, message, cr);
            var arrived := Written(events, events[0].target, md);
            && (MeansTheSame(w, arrived) <==> Steady(w) && SameEffects(w.events, arrived, ModesOf(w.target)))
            && (Unmixed(events, events[0].target, md) ==>
                  Steady(w) && (MeansTheSame(w, arrived) <==> NothingLost(arrived, ModesOf(w.target))))
  {
    var w := WindowWrite(events, md, message, cr);
    var arrived := Written(events, events[0].target, md);
    MeansTheSameExactly(w, arrived);
    hide MeansTheSame, WindowWrite, Unmixed, SameEffects, NothingLost;
    if Unmixed(events, events[0].target, md) {
      WriteIsWindow(events, md, message, cr);
      OrderedAreDistinct(arrived);
      OneEachIsSteady(w.events, ModesOf(w.target));
      AbsorbedExactly(arrived, ModesOf(w.target));
    }
  }

  lemma OrderedAreDistinct(events: seq<Event>)
    requires OneAuthorOneTarget(events)
    ensures var out := OrderedEvents(Collect(events)); forall i, j :: 0 <= i < j < |out| ==> PathKey(out[i]) != PathKey(out[j])
  {
    var w := Collect(events);
    hide Collect;
    assert forall i :: 0 <= i < |w.order| ==> w.order[i] in w.order;
  }

  /** Two upserts of a new object, the first without a path and the second with the target's, stay
      apart in the window and are written as two documents. */
  lemma MixedPathsWriteTwice(e: Event, md: Metadata, one: Fields, two: Fields)
    requires Named(e.target) && md.base != "" && e.base == "" && !e.ident.sensitive
    ensures var events := [e.(op := Upsert(one)), e.(op := Upsert(two), base := md.base)];
            var s := Slot(md.base, e.ident);
            && OneAuthorOneTarget(events)
            && var w := WindowWrite(events, md, "", None);
               && Get(ApplyWrite(map[], w), s) == [one, two]
               && Get(ApplyEvents(map[], Written(events, e.target, md), ModesOf(w.target)), s) == [two]
  {
    var first, second := e.(op := Upsert(one)), e.(op := Upsert(two), base := md.base);
    var events := [first, second];
    BothStay(first, second);
    var w := WindowWrite(events, md, "", None);
    var written := [first.(base := md.base), second];
    assert Written(events, e.target, md) == written;
    hide WindowWrite, Written;
    TwoUpserts(w, written[0], second);
  }

  lemma BothStay(a: Event, b: Event)
    requires CanAppend(NewWindow(a), b) && PathKey(a) != PathKey(b)
    ensures OneAuthorOneTarget([a, b]) && OrderedEvents(Collect([a, b])) == [a, b]
  {
    NewWindowAccepts(a);
    assert [a, b][..1] == [a] && OneAuthorOneTarget([a]);
    assert Collect([a, b]) == Add(Add(NewWindow(a), a), b);
  }

  lemma TwoUpserts(w: Write, a: Event, b: Event)
    requires !w.kind.Resync? && w.events == [a, b] && PathKey(a) == PathKey(b) && a.op.Upsert? && b.op.Upsert? && !a.ident.sensitive
    ensures Get(ApplyWrite(map[], w), PathKey(a)) == [a.op.doc, b.op.doc]
    ensures Get(ApplyEvents(map[], [a, b], ModesOf(w.target)), PathKey(a)) == [b.op.doc]
  {
    var mode := ModesOf(w.target);
    WriteActsBySlot(map[], w, PathKey(a));
    EventsActBySlot(map[], [a, b], mode, PathKey(a));
    hide ApplyWrite, ApplyEvents;
    assert [a, b][..1] == [a] && [a][..0] == [];
    assert ActionAt([a], mode, PathKey(a)).created == [a.op.doc];
  }
}
