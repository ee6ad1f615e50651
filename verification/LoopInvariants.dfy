/** What every step of the event loop keeps. */
module LoopInvariants {
  import opened Documents
  import opened OpenWindows
  import opened Writes
  import opened Tightening
  import opened Repository
  import opened Push
  import opened LoopSpec

  // ------------------------------------------------------------------- ledger

  function RetainedUpTo(ws: seq<PendingWrite>, n: nat): nat
    requires n <= |ws|
  {
    if n == 0 then 0 else RetainedUpTo(ws, n - 1) + ws[n - 1].byteSize
  }

  function RetainedSize(ws: seq<PendingWrite>): nat {
    RetainedUpTo(ws, |ws|)
  }

  lemma {:induction false} RetainedAgrees(a: seq<PendingWrite>, b: seq<PendingWrite>, n: nat)
    requires n <= |a| && n <= |b|
    requires forall i :: 0 <= i < n ==> a[i].byteSize == b[i].byteSize
    ensures RetainedUpTo(a, n) == RetainedUpTo(b, n)
  {
    if n > 0 { RetainedAgrees(a, b, n - 1); }
  }

  /** All events of a grouped write have one author, one attribution and one target, which is
      the target whose metadata the write captured. */
  predicate OneOwner(w: Write) {
    w.kind.Grouped? ==>
      && w.events != []
      && (forall i :: 0 <= i < |w.events| ==>
            && w.events[i].author == w.events[0].author
            && w.events[i].attribution == w.events[0].attribution
            && w.events[i].target == w.events[0].target)
      && (w.target.Some? ==> w.target.value.key == w.events[0].target)
  }

  ghost predicate QueueLedger(pending: seq<PendingWrite>, bytes: int) {
    && bytes == RetainedSize(pending)
    && forall i :: 0 <= i < |pending| ==> OneOwner(pending[i].write)
  }

  ghost predicate WindowLedger(window: Option<Window>, bytes: int) {
    match window
    case None => bytes == 0
    case Some(w) => Consistent(w) && w.order != [] && SizeOf(OrderedEvents(w)) <= bytes
  }

  /** The byte counters and the ownership of windows and writes. */
  ghost predicate Ledger(s: State) {
    WindowLedger(s.window, s.windowBytes) && QueueLedger(s.pending, s.pendingBytes)
  }

  lemma {:induction false} SizeOfUpdate(events: seq<Event>, i: int, e: Event)
    requires 0 <= i < |events|
    ensures SizeOf(events[i := e]) == SizeOf(events) - events[i].size + e.size
  {
    var n := |events| - 1;
    if i < n {
      assert events[i := e][..n] == events[..n][i := e];
      SizeOfUpdate(events[..n], i, e);
    } else {
      assert events[i := e][..n] == events[..n];
    }
  }

  lemma {:induction false} SizeOfRebased(events: seq<Event>, base: string)
    ensures SizeOf(Rebased(events, base)) == SizeOf(events)
  {
    if events != [] {
      var n := |events| - 1;
      assert Rebased(events, base)[..n] == Rebased(events[..n], base);
      SizeOfRebased(events[..n], base);
    }
  }

  lemma AddGrowsByAtMost(w: Window, e: Event)
    requires Consistent(w) && CanAppend(w, e)
    ensures Consistent(Add(w, e)) && SizeOf(OrderedEvents(Add(w, e))) <= SizeOf(OrderedEvents(w)) + e.size
  {
    AddKeepsConsistent(w, e);
    var before, after, key := OrderedEvents(w), OrderedEvents(Add(w, e)), PathKey(e);
    if key in w.latest {
      assert key in w.order;
      var i :| 0 <= i < |w.order| && w.order[i] == key;
      assert after == before[i := e];
      SizeOfUpdate(before, i, e);
    } else {
      assert forall i :: 0 <= i < |w.order| ==> w.order[i] in w.order;
      assert after == before + [e];
      assert after[..|after| - 1] == before;
    }
  }

  lemma RetainedAppend(ws: seq<PendingWrite>, w: PendingWrite)
    ensures RetainedSize(ws + [w]) == RetainedSize(ws) + w.byteSize
  {
    RetainedAgrees(ws + [w], ws, |ws|);
  }

  lemma AddEventLedger(s: State, e: Event)
    requires Ledger(s) && (s.window.Some? ==> CanAppend(s.window.value, e))
    ensures Ledger(AddEvent(s, e))
  {
    var w := if s.window.Some? then s.window.value else NewWindow(e);
    AddKeepsConsistent(w, e);
    AddGrowsByAtMost(w, e);
  }

  lemma GroupedWriteOwned(w: Window, md: Metadata)
    requires Consistent(w) && w.order != []
    ensures var write := GroupedWrite(w, OrderedEvents(w), md);
            && OneOwner(write) && write.kind.Grouped? && write.message == w.message && write.cr == w.cr
            && SizeOf(write.events) == SizeOf(OrderedEvents(w))
            && (forall i :: 0 <= i < |write.events| ==> CanAppend(w, write.events[i]))
  {
    hide SizeOf, OneOwner, OrderedEvents, Consistent;
    WindowEventsOwned(w);
    SizeOfRebased(OrderedEvents(w), md.base);
    RebasedOwned(w, OrderedEvents(w), md);
  }

  lemma WindowEventsOwned(w: Window)
    requires Consistent(w)
    ensures |OrderedEvents(w)| == |w.order| && forall i :: 0 <= i < |w.order| ==> CanAppend(w, OrderedEvents(w)[i])
  {
    assert forall i :: 0 <= i < |w.order| ==> w.order[i] in w.order;
  }

  lemma RebasedOwned(w: Window, events: seq<Event>, md: Metadata)
    requires events != [] && forall i :: 0 <= i < |events| ==> CanAppend(w, events[i])
    ensures var write := GroupedWrite(w, events, md);
            OneOwner(write) && forall i :: 0 <= i < |write.events| ==> CanAppend(w, write.events[i])
  {
  }

  lemma QueueLedgerAppend(pending: seq<PendingWrite>, bytes: int, w: PendingWrite)
    requires QueueLedger(pending, bytes) && OneOwner(w.write)
    ensures QueueLedger(pending + [w], bytes + w.byteSize)
  {
    RetainedAppend(pending, w);
  }

  lemma QueueLedgerTightened(tight: seq<PendingWrite>, loose: seq<PendingWrite>, bytes: int)
    requires QueueLedger(loose, bytes) && TightenedQueue(tight, loose)
    ensures QueueLedger(tight, bytes)
  {
    RetainedAgrees(tight, loose, |tight|);
    forall i | 0 <= i < |tight| ensures OneOwner(tight[i].write) {
      assert OneOwner(loose[i].write) && TightenedWrite(tight[i].write, loose[i].write);
    }
  }

  lemma RetainedIsOwned(c: Committing, w: Write, size: nat)
    requires OneOwner(w)
    ensures OneOwner(RetainedWindow(c, w, size).write) && RetainedWindow(c, w, size).byteSize == size
  {
  }

  lemma RetainWindowLedger(c: Committing, w: Write, size: nat)
    requires QueueLedger(c.state.pending, c.state.pendingBytes) && OneOwner(w)
    ensures Ledger(RetainWindow(c, w, size))
    ensures RetainWindow(c, w, size).pendingBytes == c.state.pendingBytes + size
    ensures RetainWindow(c, w, size).commitTimer == c.state.commitTimer
    ensures RetainWindow(c, w, size).heals == c.state.heals
  {
    hide QueueLedger, OneOwner, RetainWindow, RetainedWindow;
    RetainedIsOwned(c, w, size);
    QueueLedgerAppend(c.state.pending, c.state.pendingBytes, RetainedWindow(c, w, size));
  }

  lemma DropWindowLedger(s: State, cause: Cause)
    requires s.window.Some? && QueueLedger(s.pending, s.pendingBytes)
    ensures Ledger(DropWindow(s, cause)) && DropWindow(s, cause).pendingBytes == s.pendingBytes
    ensures DropWindow(s, cause).commitTimer == s.commitTimer && DropWindow(s, cause).heals == s.heals
  {
    if s.window.value.cr.Some? { } else { }
  }

  lemma CommitWindowLedger(s: State, o: Oracle, md: Metadata)
    requires Ledger(s) && s.window.Some?
    ensures var f := CommitWindow(s, o, md).state;
            && Ledger(f) && f.heals == s.heals && f.commitTimer == s.commitTimer
            && TotalRetainedBytes(f) <= TotalRetainedBytes(s)
  {
    hide DropWindow, RetainWindow;
    var w := s.window.value;
    GroupedWriteOwned(w, md);
    var write := GroupedWrite(w, OrderedEvents(w), md);
    var c := CommitOne(s, o, write);
    if !c.ok {
      DropWindowLedger(c.state, CommitFailed);
    } else {
      RetainWindowLedger(c, write, SizeOf(write.events));
    }
  }

  /** Finalizing keeps the ledger and never raises the retained total. */
  lemma FinalizeLedger(s: State, o: Oracle)
    requires Ledger(s)
    ensures var f := Finalize(s, o).state;
            && Ledger(f) && f.window.None?
            && TotalRetainedBytes(f) <= TotalRetainedBytes(s)
            && f.heals == s.heals
            && f.commitTimer == if s.window.Some? then None else s.commitTimer
  {
    hide DropWindow, CommitWindow;
    if s.window.Some? {
      var w := s.window.value;
      var gate := o(s.tick);
      var s1 := Tick(s.(commitTimer := None), gate);
      if Named(w.target) && !gate.gateOpen {
        DropWindowLedger(s1, GateClosed);
      } else {
        var build := o(s1.tick);
        var s2 := Tick(s1, build);
        if build.metadata.None? || w.order == [] {
          DropWindowLedger(s2, BuildFailed);
        } else {
          CommitWindowLedger(s2, o, build.metadata.value);
        }
      }
    }
  }

  lemma AfterPushLedger(s: State, p: Pushed)
    requires Ledger(s) && TightenedQueue(p.writes, s.pending)
    ensures var r := AfterPush(s, p);
            && Ledger(r)
            && r.window == s.window && r.windowBytes == s.windowBytes && r.commitTimer == s.commitTimer
            && r.pendingBytes <= s.pendingBytes
  {
    QueueLedgerTightened(p.writes, s.pending, s.pendingBytes);
    hide TightenedQueue, ResolvePushed;
    if p.ok {
      assert QueueLedger([], 0);
    } else {
    }
  }

  lemma PushPendingLedger(s: State, o: Oracle)
    requires Ledger(s)
    ensures var p := PushPending(s, o);
            && Ledger(p)
            && p.window == s.window && p.windowBytes == s.windowBytes && p.commitTimer == s.commitTimer
            && p.pendingBytes <= s.pendingBytes
  {
    hide PushFrom, TightenedQueue, AfterPush;
    if s.pending == [] {
    } else {
      var a := o(s.tick);
      if !a.ready {
      } else {
        PushOnlyTightens(s.repo, s.pending, a.attempts, 0);
        AfterPushLedger(Tick(s, a), PushFrom(s.repo, s.pending, a.attempts, 0));
      }
    }
  }

  lemma MaybeSchedulePushLedger(s: State, o: Oracle)
    requires Ledger(s)
    ensures var p := MaybeSchedulePush(s, o);
            && Ledger(p)
            && p.window == s.window && p.windowBytes == s.windowBytes && p.commitTimer == s.commitTimer
            && p.pendingBytes <= s.pendingBytes
  {
    if s.pending == [] {
    } else if s.lastPushAt.None? || s.now - s.lastPushAt.value >= PUSH_COOLDOWN {
      PushPendingLedger(s, o);
    } else if s.pushTimer.None? { } else { }
  }


  /** What a step that cannot close or open a window leaves alone. */
  predicate SameWindow(s: State, r: State) {
    r.window == s.window && r.windowBytes == s.windowBytes && r.commitTimer == s.commitTimer
  }

  lemma RunResyncLedger(s: State, o: Oracle, req: ResyncRequest, closed: bool)
    requires Ledger(s)
    ensures Ledger(RunResync(s, o, req, closed)) && SameWindow(s, RunResync(s, o, req, closed))
  {
    var a := o(s.tick);
    var s1 := Tick(s, a);
    if !Named(req.target) || a.metadata.None? {
    } else {
      var md := a.metadata.value;
      var w := Write(Resync, [], req.desired, req.scope, Some(ResolvedTarget(req.target, md.base, md.mode)), "", None);
      var c := CommitOne(s1, o, w);
      if c.ok {
        hide CommitOne, MaybeSchedulePush;
        var s2 := if c.changed then Retain(c.state, PendingWrite(w, req.byteSize, Unborn)) else c.state;
        if c.changed {
          QueueLedgerAppend(c.state.pending, c.state.pendingBytes, PendingWrite(w, req.byteSize, Unborn));
        }
        MaybeSchedulePushLedger(s2, o);
        if c.changed || closed { } else { }
      } else {
      }
    }
  }

  lemma {:induction false} RunHealsLedger(s: State, o: Oracle, heals: seq<ResyncRequest>)
    requires Ledger(s)
    ensures Ledger(RunHeals(s, o, heals)) && SameWindow(s, RunHeals(s, o, heals))
  {
    hide RunResync;
    if heals != [] {
      RunHealsLedger(s, o, heals[..|heals| - 1]);
      RunResyncLedger(RunHeals(s, o, heals[..|heals| - 1]), o, heals[|heals| - 1], false);
    }
  }

  lemma ApplyHealsLedger(s: State, o: Oracle)
    requires Ledger(s)
    ensures Ledger(ApplyHeals(s, o)) && SameWindow(s, ApplyHeals(s, o))
    ensures s.window.Some? ==> ApplyHeals(s, o) == s
  {
    hide RunHeals;
    if s.window.Some? || s.heals == [] { } else { RunHealsLedger(s.(heals := []), o, s.heals); }
  }

  /** At a loop boundary a window is open exactly while its silence timer runs, and then the
      retained total is below the cap. */
  predicate Boundary(s: State, cfg: Config) {
    && (s.window.Some? <==> s.commitTimer.Some?)
    && (s.window.Some? ==> TotalRetainedBytes(s) < cfg.maxBytes)
  }

  lemma HandleAtomicLedger(s: State, o: Oracle, cfg: Config, events: seq<Event>, target: TargetKey, message: string)
    requires Ledger(s) && Boundary(s, cfg)
    ensures Ledger(HandleAtomic(s, o, events, target, message)) && Boundary(HandleAtomic(s, o, events, target, message), cfg)
  {
    hide Finalize, ApplyHeals, CommitOne, MaybeSchedulePush;
    var gate := o(s.tick);
    var s1 := Tick(s, gate);
    if Named(AtomicTarget(events, target)) && !gate.gateOpen {
    } else {
      FinalizeLedger(s1, o);
      var f := Finalize(s1, o).state;
      ApplyHealsLedger(f, o);
      RunAtomicLedger(ApplyHeals(f, o), o, events, target, message);
    }
  }

  lemma RunAtomicLedger(s: State, o: Oracle, events: seq<Event>, target: TargetKey, message: string)
    requires Ledger(s)
    ensures Ledger(RunAtomic(s, o, events, target, message)) && SameWindow(s, RunAtomic(s, o, events, target, message))
  {
    hide MaybeSchedulePush;
    var a := o(s.tick);
    var s1 := Tick(s, a);
    if events == [] || a.metadata.None? {
    } else {
      var w := AtomicWrite(events, target, message, a.metadata.value);
      var c := CommitOne(s1, o, w);
      if c.ok {
        var pw := PendingWrite(w, SizeOf(w.events), Unborn);
        QueueLedgerAppend(c.state.pending, c.state.pendingBytes, pw);
        MaybeSchedulePushLedger(Retain(c.state, pw), o);
      } else {
      }
    }
  }

  lemma MakeRoomLedger(s: State, o: Oracle, e: Event)
    requires Ledger(s)
    ensures Ledger(MakeRoom(s, o, e))
  {
    hide Finalize, ApplyHeals, MaybeSchedulePush;
    if s.window.Some? && !CanAppend(s.window.value, e) {
      FinalizeLedger(s, o);
      MaybeSchedulePushLedger(Finalize(s, o).state, o);
      ApplyHealsLedger(MaybeSchedulePush(Finalize(s, o).state, o), o);
    } else {
    }
  }

  lemma SettleLedger(s: State, o: Oracle, cfg: Config)
    requires Ledger(s) && s.window.Some?
    ensures Ledger(Settle(s, o, cfg)) && Boundary(Settle(s, o, cfg), cfg)
  {
    hide Finalize, MaybeSchedulePush;
    if TotalRetainedBytes(s) >= cfg.maxBytes || cfg.commitWindow == 0 {
      FinalizeLedger(s, o);
      MaybeSchedulePushLedger(Finalize(s, o).state, o);
    } else {
    }
  }

  lemma HandleEventLedger(s: State, o: Oracle, cfg: Config, e: Event)
    requires Ledger(s) && Boundary(s, cfg)
    ensures Ledger(HandleEvent(s, o, cfg, e)) && Boundary(HandleEvent(s, o, cfg, e), cfg)
  {
    hide MakeRoom, Settle, AddEvent;
    var gate := o(s.tick);
    var s1 := Tick(s, gate);
    if Named(e.target) && !gate.gateOpen {
    } else {
      MakeRoomLedger(s1, o, e);
      AddEventLedger(MakeRoom(s1, o, e), e);
      SettleLedger(AddEvent(MakeRoom(s1, o, e), e), o, cfg);
    }
  }

  lemma {:induction false} HandleEventsLedger(s: State, o: Oracle, cfg: Config, events: seq<Event>)
    requires Ledger(s) && Boundary(s, cfg)
    ensures Ledger(HandleEvents(s, o, cfg, events)) && Boundary(HandleEvents(s, o, cfg, events), cfg)
  {
    hide HandleEvent;
    if events != [] {
      HandleEventsLedger(s, o, cfg, events[..|events| - 1]);
      HandleEventLedger(HandleEvents(s, o, cfg, events[..|events| - 1]), o, cfg, events[|events| - 1]);
    }
  }

  lemma HandleResyncLedger(s: State, o: Oracle, cfg: Config, req: ResyncRequest)
    requires Ledger(s) && Boundary(s, cfg)
    ensures Ledger(HandleResync(s, o, req)) && Boundary(HandleResync(s, o, req), cfg)
  {
    hide Finalize, RunResync;
    if req.heal && s.window.Some? {
    } else if req.heal {
      RunResyncLedger(s, o, req, false);
    } else {
      FinalizeLedger(s, o);
      RunResyncLedger(Finalize(s, o).state, o, req, Finalize(s, o).retained);
    }
  }

  lemma HandleItemLedger(s: State, o: Oracle, cfg: Config, item: Item)
    requires Ledger(s) && Boundary(s, cfg)
    ensures Ledger(HandleItem(s, o, cfg, item)) && Boundary(HandleItem(s, o, cfg, item), cfg)
  {
    hide HandleResync, HandleAtomic, HandleEvents;
    match item
    case Attach(req) => if req.id in s.outcomes || req.id in s.crs { } else { }
    case ResyncItem(req) => HandleResyncLedger(s, o, cfg, req);
    case AtomicItem(events, target, message) => HandleAtomicLedger(s, o, cfg, events, target, message);
    case LiveItem(events) => HandleEventsLedger(s, o, cfg, events);
    case EmptyItem =>
  }

  lemma AttachWaitingLedger(s: State, cfg: Config, order: seq<CrId>)
    requires Ledger(s) && Boundary(s, cfg)
    ensures Ledger(AttachWaiting(s, order)) && Boundary(AttachWaiting(s, order), cfg)
  {
    if s.window.None? || s.window.value.cr.Some? {
    } else {
      var best := Oldest(s.crs, s.window.value, order);
      if best.None? || best.value !in s.crs {
      } else {
        var w := s.window.value;
        var claimed := w.(message := s.crs[best.value].request.message, cr := best);
        assert OrderedEvents(claimed) == OrderedEvents(w);
      }
    }
  }

  lemma ServeDueLedger(s: State, o: Oracle, cfg: Config, id: CrId)
    requires Ledger(s) && Boundary(s, cfg)
    ensures Ledger(ServeDue(s, o, id)) && Boundary(ServeDue(s, o, id), cfg)
  {
    hide Finalize, MaybeSchedulePush;
    if id !in s.crs {
    } else if Claims(s.window, id) {
      FinalizeLedger(s, o);
      MaybeSchedulePushLedger(Finalize(s, o).state, o);
      var pushed := MaybeSchedulePush(Finalize(s, o).state, o);
      if id in pushed.crs { } else { }
    } else {
    }
  }

  lemma {:induction false} ServeAllDueLedger(s: State, o: Oracle, cfg: Config, due: seq<CrId>)
    requires Ledger(s) && Boundary(s, cfg)
    ensures Ledger(ServeAllDue(s, o, due)) && Boundary(ServeAllDue(s, o, due), cfg)
  {
    hide ServeDue;
    if due != [] {
      ServeAllDueLedger(s, o, cfg, due[..|due| - 1]);
      ServeDueLedger(ServeAllDue(s, o, due[..|due| - 1]), o, cfg, due[|due| - 1]);
    }
  }

  lemma ServiceLedger(s: State, o: Oracle, cfg: Config, order: seq<CrId>)
    requires Ledger(s) && Boundary(s, cfg)
    ensures Ledger(Service(s, o, order)) && Boundary(Service(s, o, order), cfg)
  {
    hide AttachWaiting, ServeAllDue;
    if s.crs == map[] {
    } else {
      AttachWaitingLedger(s, cfg, order);
      var attached := AttachWaiting(s, order);
      ServeAllDueLedger(attached, o, cfg, Due(attached.crs, attached.now, order));
    }
  }

  lemma DispatchLedger(s: State, o: Oracle, cfg: Config, wake: Wake)
    requires Ledger(s) && Boundary(s, cfg)
    ensures Ledger(Dispatch(s, o, cfg, wake)) && Boundary(Dispatch(s, o, cfg, wake), cfg)
  {
    hide Finalize, MaybeSchedulePush, PushPending, HandleItem;
    match wake
    case Received(item) => HandleItemLedger(s, o, cfg, item);
    case CommitTimeout =>
      FinalizeLedger(s.(commitTimer := None), o);
      MaybeSchedulePushLedger(Finalize(s.(commitTimer := None), o).state, o);
    case PushTimeout => PushPendingLedger(s.(pushTimer := None), o);
    case AttachTimeout =>
  }

  lemma StepLedger(s: State, o: Oracle, cfg: Config, wake: Wake, order: seq<CrId>)
    requires Ledger(s) && Boundary(s, cfg)
    ensures Ledger(Step(s, o, cfg, wake, order)) && Boundary(Step(s, o, cfg, wake, order), cfg)
  {
    hide Dispatch, Service, ApplyHeals;
    var woken := Woken(s, o);
    DispatchLedger(woken, o, cfg, wake);
    ServiceLedger(Dispatch(woken, o, cfg, wake), o, cfg, order);
    ApplyHealsLedger(Service(Dispatch(woken, o, cfg, wake), o, order), o);
  }
}
