/** The event loop object (internal/git/branch_worker.go, commit_request_attach_loop.go,
    resync_flush.go). Every method is the transition of the same name in LoopSpec, so the
    theorems about runs hold of it. */
module EventLoops {
  import opened Documents
  import opened OpenWindows
  import opened Writes
  import opened Repository
  import opened Push
  import L = LoopSpec
  import opened LoopSpec
  import LoopInvariants
  import LoopRequests
  import LoopTheorems
  import opened BranchWorkers

  class EventLoop {
    const cfg: Config
    const oracle: Oracle
    const w: BranchWorker
    var openWindow: OpenWindow?
    var windowBytes: int
    var pendingWrites: seq<PendingWrite>
    var pendingWritesBytes: int
    var lastPushAt: Option<int>
    var commitTimer: Option<int>
    var pushTimer: Option<int>
    var attachTimer: Option<int>
    var deferredHeals: seq<ResyncRequest>
    var pendingCRs: map<CrId, PendingCr>
    var crOutcomes: map<CrId, OutcomeEntry>
    var now: int
    var tick: nat
    ghost var requests: map<CrId, Request>
    ghost var claims: map<CrId, Write>
    ghost var resent: bool
    ghost var mark: Mark
    ghost var ends: map<CrId, Ending>

    ghost predicate Valid()
      reads this, openWindow
    {
      openWindow != null ==> Consistent(openWindow.View())
    }

    ghost function View(): State
      reads this, w, openWindow
    {
      State(if openWindow == null then None else Some(openWindow.View()),
            windowBytes, pendingWrites, pendingWritesBytes, lastPushAt, commitTimer, pushTimer, attachTimer,
            deferredHeals, pendingCRs, crOutcomes, w.View(), now, tick, requests, claims, resent, mark, ends)
    }

    /** The window object is the old one, a new one, or gone. */
    twostate predicate WindowKept()
      reads this
    {
      openWindow == old(openWindow) || openWindow == null || fresh(openWindow)
    }

    constructor (worker: BranchWorker, oracle: Oracle, cfg: Config, start: int)
      ensures Valid() && w == worker && this.oracle == oracle && this.cfg == cfg
      ensures View() == InitialState(worker.View(), start)
      ensures LoopTheorems.Fresh(worker.View()) ==> LoopRequests.Sound(View()) && LoopInvariants.Boundary(View(), cfg)
    {
      this.cfg, this.oracle, this.w := cfg, oracle, worker;
      openWindow, windowBytes := null, 0;
      pendingWrites, pendingWritesBytes := [], 0;
      lastPushAt, commitTimer, pushTimer, attachTimer := None, None, None, None;
      deferredHeals, pendingCRs, crOutcomes := [], map[], map[];
      now, tick, requests, claims, resent, mark, ends := start, 0, map[], map[], false, Settled, map[];
    }

    /** Asks the environment the next question. */
    method Ask() returns (a: Answer)
      modifies `tick, `now
      ensures a == oracle(old(tick)) && View() == Tick(old(View()), a)
    {
      a := oracle(tick);
      tick, now := tick + 1, now + a.elapsed;
    }

    // ---------------------------------------------------- CommitRequest outcomes

    method ResolveCommitRequest(id: CrId, outcome: Outcome)
      modifies `crOutcomes, `pendingCRs
      ensures View() == Resolve(old(View()), id, outcome)
    {
      crOutcomes := crOutcomes[id := OutcomeEntry(outcome, now)];
      crOutcomes := map k | k in crOutcomes && now - crOutcomes[k].resolvedAt <= OUTCOME_TTL :: crOutcomes[k];
      pendingCRs := pendingCRs - {id};
    }

    method HandleAttachCommitRequest(req: Request)
      modifies `pendingCRs, `requests, `resent
      ensures View() == HandleAttach(old(View()), req)
    {
      if req.id in crOutcomes || req.id in pendingCRs {
        return;
      }
      pendingCRs := pendingCRs[req.id := PendingCr(req, now + req.closeDelaySeconds * SECOND, false)];
      requests := requests[req.id := req];
      resent := resent || Rides(pendingWrites, req.id);
    }

    // ------------------------------------------------------- closing a window

    /** Resolves a request that no push will resolve. */
    method FinishCommitRequest(id: CrId, outcome: Outcome, ghost ending: Ending)
      modifies `crOutcomes, `pendingCRs, `ends
      ensures View() == Finish(old(View()), id, outcome, ending)
    {
      hide Resolve;
      ResolveCommitRequest(id, outcome);
      ends := ends[id := ending];
    }

    method DropOpenWindow(cause: Cause)
      requires openWindow != null
      modifies this
      ensures View() == DropWindow(old(View()), cause) && openWindow == null
    {
      hide Finish;
      var cr := openWindow.pendingCR;
      openWindow, windowBytes := null, 0;
      if cr.Some? {
        FinishCommitRequest(cr.value, Failed(cause), Discarded(old(View()).window, tick));
      }
    }

    /** Commits one write locally, on top of the retained ones or on the remote tip. */
    method CommitPendingWrite(write: Write) returns (ok: bool, changed: bool)
      modifies `tick, `now, w
      ensures View() == CommitOne(old(View()), oracle, write).state
      ensures ok == CommitOne(old(View()), oracle, write).ok
      ensures changed == CommitOne(old(View()), oracle, write).changed
    {
      hide Observe, Available, ApplyWrite;
      var a := Ask();
      if pendingWrites == [] {
        if !a.prepared {
          return false, false;
        }
        w.OthersMove(a.moves);
        var branch, tip := w.SyncToRemote();
        w.pushCycleRootBranch, w.pushCycleRootHash := branch, tip;
      }
      if !a.executed {
        return false, false;
      }
      var before := w.local;
      w.local := CommitWrite(w.local, write, a.stamp);
      return true, w.local != before;
    }

    /** Closes the open window into one retained write, or drops it. */
    method FinalizeOpenWindow() returns (retained: bool)
      requires Valid()
      modifies this, w
      ensures openWindow == null && Valid()
      ensures View() == Finalize(old(View()), oracle).state && retained == Finalize(old(View()), oracle).retained
    {
      hide CommitWindow, DropWindow, Consistent;
      if openWindow == null {
        return false;
      }
      commitTimer := None;
      var gate := Ask();
      ghost var s1 := View();
      assert s1 == Tick(old(View()).(commitTimer := None), gate);
      if Named(openWindow.target) && !gate.gateOpen {
        DropOpenWindow(GateClosed);
        return false;
      }
      var build := Ask();
      assert View() == Tick(s1, build);
      var events := openWindow.Ordered();
      if build.metadata.None? || events == [] {
        DropOpenWindow(BuildFailed);
        return false;
      }
      retained := CommitOpenWindow(events, build.metadata.value);
    }

    method CommitOpenWindow(events: seq<Event>, md: Metadata) returns (retained: bool)
      requires Valid() && openWindow != null && events == OrderedEvents(openWindow.View())
      modifies this, w
      ensures openWindow == null
      ensures View() == CommitWindow(old(View()), oracle, md).state && retained == CommitWindow(old(View()), oracle, md).retained
    {
      hide CommitOne, DropWindow, GroupedWrite, Consistent, L.RetainWindow;
      var write := GroupedWrite(openWindow.View(), events, md);
      var ok, changed := CommitPendingWrite(write);
      if !ok {
        DropOpenWindow(CommitFailed);
        return false;
      }
      RetainWindow(write, changed);
      return true;
    }

    method Enqueue(retained: PendingWrite)
      modifies `pendingWrites, `pendingWritesBytes
      ensures View() == L.Retain(old(View()), retained)
    {
      pendingWrites, pendingWritesBytes := pendingWrites + [retained], pendingWritesBytes + retained.byteSize;
    }

    method CloseWindowInto(retained: PendingWrite)
      modifies `pendingWrites, `pendingWritesBytes, `openWindow, `windowBytes, `mark
      ensures View() == CloseInto(old(View()), retained) && openWindow == null
    {
      Enqueue(retained);
      openWindow, windowBytes, mark := null, 0, if pushTimer.None? then ClosedUnscheduled else mark;
    }

    /** The committed window becomes a retained write, which a claiming request rides. */
    method RetainWindow(write: Write, changed: bool)
      modifies this
      ensures openWindow == null
      ensures View() == L.RetainWindow(Committing(old(View()), true, changed), write, SizeOf(write.events))
    {
      hide Finish, SizeOf;
      var size := SizeOf(write.events);
      CloseWindowInto(if changed then PendingWrite(write, size, w.local) else PendingWrite(write.(cr := None), size, Unborn));
      if write.cr.None? {
        return;
      }
      if changed {
        pendingCRs := pendingCRs - {write.cr.value};
        claims := claims[write.cr.value := write];
      } else {
        FinishCommitRequest(write.cr.value, AlreadyPresent, Unchanged(old(View()).window, tick, w.View().local));
      }
    }

    // ------------------------------------------------------------------ pushing

    method ResolvePushedCommitRequests()
      modifies `crOutcomes, `pendingCRs
      ensures View() == ResolvePushed(old(View()), pendingWrites)
    {
      hide Resolve;
      ghost var start := View();
      for i := 0 to |pendingWrites|
        invariant View() == ResolvePushed(start, pendingWrites[..i])
      {
        assert pendingWrites[..i + 1][..i] == pendingWrites[..i];
        var pw := pendingWrites[i];
        if pw.write.cr.Some? && pw.sha != Unborn {
          ResolveCommitRequest(pw.write.cr.value, Committed(pw.sha));
        }
      }
      assert pendingWrites[..|pendingWrites|] == pendingWrites;
    }

    /** Hands the retained writes to the worker and takes back what it made of them. */
    method Publish(attempts: nat -> Attempt) returns (ok: bool)
      modifies `pendingWrites, `pushTimer, w
      ensures var p := PushFrom(old(w.View()), old(pendingWrites), attempts, 0);
              ok == p.ok && View() == old(View()).(repo := p.repo, pending := p.writes, pushTimer := None)
    {
      hide PushFrom;
      pushTimer := None;
      pendingWrites, ok := w.PushPendingCommits(pendingWrites, attempts);
    }

    /** Pushes the retained writes; success resolves their requests and clears them. */
    method PushRetained(attempts: nat -> Attempt)
      modifies `pendingWrites, `pendingWritesBytes, `lastPushAt, `pushTimer, `crOutcomes, `pendingCRs, `mark, w
      ensures View() == AfterPush(old(View()), PushFrom(old(w.View()), old(pendingWrites), attempts, 0))
    {
      hide PushFrom, ResolvePushed;
      ghost var start, p := View(), PushFrom(w.View(), pendingWrites, attempts, 0);
      var ok := Publish(attempts);
      ghost var s1 := start.(repo := p.repo, pending := p.writes, pushTimer := None);
      assert View() == s1;
      if ok {
        ClearPublished();
      } else {
        mark := PushFailed(start.repo, start.pending, start.tick);
        assert View() == s1.(mark := mark);
      }
    }

    method ClearPublished()
      modifies `pendingWrites, `pendingWritesBytes, `lastPushAt, `crOutcomes, `pendingCRs, `mark
      ensures View() == ResolvePushed(old(View()), old(pendingWrites)).(pending := [], pendingBytes := 0, lastPushAt := Some(now), mark := Settled)
    {
      hide ResolvePushed;
      ResolvePushedCommitRequests();
      pendingWrites, pendingWritesBytes, lastPushAt, mark := [], 0, Some(now), Settled;
    }

    method PushPending()
      modifies this, w
      ensures View() == L.PushPending(old(View()), oracle) && openWindow == old(openWindow)
    {
      hide PushFrom, AfterPush;
      if pendingWrites == [] {
        pushTimer := None;
        return;
      }
      var a := Ask();
      assert View() == Tick(old(View()), a);
      if a.ready {
        PushRetained(a.attempts);
      } else {
        GiveUpPush();
      }
    }

    method GiveUpPush()
      modifies `pushTimer, `mark
      ensures var s := old(View()); View() == s.(pushTimer := None, mark := PushFailed(s.repo, s.pending, s.tick))
    {
      pushTimer, mark := None, PushFailed(w.View(), pendingWrites, tick);
    }

    method MaybeSchedulePush()
      modifies this, w
      ensures View() == L.MaybeSchedulePush(old(View()), oracle) && openWindow == old(openWindow)
    {
      hide L.PushPending;
      if pendingWrites == [] {
        return;
      }
      if lastPushAt.None? || now - lastPushAt.value >= PUSH_COOLDOWN {
        PushPending();
      } else {
        if pushTimer.None? {
          pushTimer := Some(lastPushAt.value + PUSH_COOLDOWN);
        }
        mark := Settled;
      }
    }

    // ------------------------------------------------------------------ resyncs

    /** The body of a resync once any window it may close is closed. */
    method RunResync(req: ResyncRequest, closed: bool)
      modifies this, w
      ensures View() == L.RunResync(old(View()), oracle, req, closed) && openWindow == old(openWindow)
    {
      hide CommitOne, L.MaybeSchedulePush, L.Retain;
      var a := Ask();
      if !Named(req.target) || a.metadata.None? {
        return;
      }
      var md := a.metadata.value;
      var write := Write(Resync, [], req.desired, req.scope, Some(ResolvedTarget(req.target, md.base, md.mode)), "", None);
      var ok, changed := CommitPendingWrite(write);
      if !ok {
        return;
      }
      if changed {
        Enqueue(PendingWrite(write, req.byteSize, Unborn));
      }
      if changed || closed {
        MaybeSchedulePush();
      }
    }

    method ApplyResync(req: ResyncRequest)
      requires Valid()
      modifies this, w
      ensures View() == L.ApplyResync(old(View()), oracle, req)
      ensures openWindow == if req.heal then old(openWindow) else null
    {
      hide L.RunResync, Finalize, Consistent;
      if req.heal {
        RunResync(req, false);
      } else {
        var retained := FinalizeOpenWindow();
        RunResync(req, retained);
      }
    }

    /** Drains the parked heals, only when no window is open. */
    method ApplyDeferredHeals()
      modifies this, w
      ensures View() == ApplyHeals(old(View()), oracle) && openWindow == old(openWindow)
    {
      hide L.RunResync;
      if openWindow != null || deferredHeals == [] {
        return;
      }
      var heals := deferredHeals;
      deferredHeals := [];
      ghost var start := View();
      for i := 0 to |heals|
        invariant openWindow == null && View() == RunHeals(start, oracle, heals[..i])
      {
        assert heals[..i + 1][..i] == heals[..i];
        RunResync(heals[i], false);
      }
      assert heals[..|heals|] == heals;
    }

    /** Parks a heal, in place of an older one for the same target and scope. */
    method StashDeferredHeal(req: ResyncRequest)
      modifies `deferredHeals
      ensures View() == old(View()).(heals := StashHeal(old(deferredHeals), req))
    {
      hide SameHeal;
      for i := 0 to |deferredHeals|
        invariant deferredHeals == old(deferredHeals)
        invariant forall k :: 0 <= k < i ==> !SameHeal(deferredHeals[k], req)
      {
        if SameHeal(deferredHeals[i], req) {
          StashReplaces(deferredHeals, req, i);
          deferredHeals := deferredHeals[i := req];
          return;
        }
      }
      StashAppends(deferredHeals, req);
      deferredHeals := deferredHeals + [req];
    }

    method HandleResyncRequest(req: ResyncRequest)
      requires Valid()
      modifies this, w
      ensures View() == HandleResync(old(View()), oracle, req)
      ensures openWindow == old(openWindow) || openWindow == null
    {
      hide L.ApplyResync, StashHeal, Consistent;
      if req.heal && openWindow != null {
        StashDeferredHeal(req);
      } else {
        ApplyResync(req);
      }
    }

    // --------------------------------------------------------------- queue items

    /** The first named target, that of the request before those of its events. */
    static method RefusalTarget(events: seq<Event>, target: TargetKey) returns (t: TargetKey)
      ensures t == AtomicTarget(events, target)
    {
      if Named(target) {
        return target;
      }
      for i := 0 to |events|
        invariant AtomicTarget(events, target) == AtomicTarget(events[i..], target)
      {
        if Named(events[i].target) {
          return events[i].target;
        }
      }
      return TargetKey("", "");
    }

    method RunAtomic(events: seq<Event>, target: TargetKey, message: string)
      modifies this, w
      ensures View() == L.RunAtomic(old(View()), oracle, events, target, message) && openWindow == old(openWindow)
    {
      hide CommitOne, L.MaybeSchedulePush, L.Retain, AtomicWrite, SizeOf;
      var a := Ask();
      if events == [] || a.metadata.None? {
        return;
      }
      var write := AtomicWrite(events, target, message, a.metadata.value);
      var ok, changed := CommitPendingWrite(write);
      if !ok {
        return;
      }
      Enqueue(PendingWrite(write, SizeOf(write.events), Unborn));
      MaybeSchedulePush();
    }

    method HandleAtomicRequest(events: seq<Event>, target: TargetKey, message: string)
      requires Valid()
      modifies this, w
      ensures View() == HandleAtomic(old(View()), oracle, events, target, message)
      ensures openWindow == old(openWindow) || openWindow == null
    {
      hide AtomicTarget, Finalize, ApplyHeals, L.RunAtomic, Consistent;
      var refused := RefusalTarget(events, target);
      var gate := Ask();
      if Named(refused) && !gate.gateOpen {
        return;
      }
      var retained := FinalizeOpenWindow();
      ApplyDeferredHeals();
      RunAtomic(events, target, message);
    }

    method MakeRoom(e: Event)
      requires Valid()
      modifies this, w
      ensures View() == L.MakeRoom(old(View()), oracle, e) && Valid()
      ensures openWindow == old(openWindow) || openWindow == null
    {
      hide Finalize, ApplyHeals, L.MaybeSchedulePush, CanAppend, Consistent;
      if openWindow != null && !CanAppend(openWindow.View(), e) {
        var retained := FinalizeOpenWindow();
        MaybeSchedulePush();
        ApplyDeferredHeals();
      }
    }

    method AddEvent(e: Event)
      requires Valid() && (openWindow != null ==> CanAppend(openWindow.View(), e))
      modifies this, openWindow
      ensures View() == L.AddEvent(old(View()), e) && Valid() && WindowKept()
    {
      hide Add, Consistent;
      if openWindow == null {
        openWindow := new OpenWindow(e);
        NewWindowAccepts(e);
      }
      openWindow.Append(e);
      windowBytes := windowBytes + e.size;
    }

    method Settle()
      requires Valid()
      modifies this, w
      ensures View() == L.Settle(old(View()), oracle, cfg) && Valid()
      ensures openWindow == old(openWindow) || openWindow == null
    {
      hide Finalize, L.MaybeSchedulePush, Consistent;
      if windowBytes + pendingWritesBytes >= cfg.maxBytes || cfg.commitWindow == 0 {
        var retained := FinalizeOpenWindow();
        MaybeSchedulePush();
      } else {
        commitTimer := Some(now + cfg.commitWindow);
      }
    }

    method HandleEvent(e: Event)
      requires Valid()
      modifies this, w, openWindow
      ensures View() == L.HandleEvent(old(View()), oracle, cfg, e) && Valid() && WindowKept()
    {
      hide L.MakeRoom, L.AddEvent, L.Settle, CanAppend, Consistent;
      var gate := Ask();
      if Named(e.target) && !gate.gateOpen {
        return;
      }
      MakeRoom(e);
      AddEvent(e);
      Settle();
    }

    method HandleLiveEvents(events: seq<Event>)
      requires Valid()
      modifies this, w, openWindow
      ensures View() == HandleEvents(old(View()), oracle, cfg, events) && Valid() && WindowKept()
    {
      hide L.HandleEvent, Consistent;
      ghost var start := View();
      for i := 0 to |events|
        invariant Valid() && WindowKept() && View() == HandleEvents(start, oracle, cfg, events[..i])
      {
        assert events[..i + 1][..i] == events[..i];
        HandleEvent(events[i]);
      }
      assert events[..|events|] == events;
    }

    method HandleQueueItem(item: Item)
      requires Valid()
      modifies this, w, openWindow
      ensures View() == HandleItem(old(View()), oracle, cfg, item) && Valid() && WindowKept()
    {
      hide HandleAttach, HandleResync, HandleAtomic, HandleEvents, Consistent;
      match item
      case Attach(req) => HandleAttachCommitRequest(req);
      case ResyncItem(req) => HandleResyncRequest(req);
      case AtomicItem(events, target, message) => HandleAtomicRequest(events, target, message);
      case LiveItem(events) => HandleLiveEvents(events);
      case EmptyItem =>
    }

    // ------------------------------------------------- servicing CommitRequests
    // `order` is the order in which a range over the pending requests visits them.

    method AttachWaitingCommitRequests(order: seq<CrId>)
      requires Valid()
      modifies this, openWindow
      ensures View() == AttachWaiting(old(View()), order) && Valid() && openWindow == old(openWindow)
    {
      if openWindow == null || openWindow.pendingCR.Some? {
        return;
      }
      var oldest: Option<CrId> := None;
      for i := 0 to |order|
        invariant oldest == Oldest(pendingCRs, openWindow.View(), order[..i])
        invariant View() == old(View())
      {
        assert order[..i + 1][..i] == order[..i];
        var id := order[i];
        if id in pendingCRs && !pendingCRs[id].attached && MatchesWindow(pendingCRs[id].request, openWindow.View()) {
          if oldest.None? || oldest.value !in pendingCRs || pendingCRs[id].finalizeAt < pendingCRs[oldest.value].finalizeAt {
            oldest := Some(id);
          }
        }
      }
      assert order[..|order|] == order;
      if oldest.Some? && oldest.value in pendingCRs {
        AttachToOpenWindow(oldest.value);
      }
    }

    method AttachToOpenWindow(id: CrId)
      requires openWindow != null && id in pendingCRs
      modifies `pendingCRs, openWindow
      ensures var pcr := old(pendingCRs)[id];
              View() == old(View()).(window := Some(old(openWindow.View()).(message := pcr.request.message, cr := Some(id))),
                                     crs := old(pendingCRs)[id := pcr.(attached := true)])
    {
      var pcr := pendingCRs[id];
      openWindow.pendingMessage, openWindow.pendingCR := pcr.request.message, Some(id);
      pendingCRs := pendingCRs[id := pcr.(attached := true)];
    }

    method CollectDue(order: seq<CrId>) returns (due: seq<CrId>)
      ensures due == Due(pendingCRs, now, order)
    {
      due := [];
      for i := 0 to |order|
        invariant due == Due(pendingCRs, now, order[..i])
      {
        assert order[..i + 1][..i] == order[..i];
        if order[i] in pendingCRs && pendingCRs[order[i]].finalizeAt <= now {
          due := due + [order[i]];
        }
      }
      assert order[..|order|] == order;
    }

    method ServeDueRequest(id: CrId)
      requires Valid()
      modifies this, w
      ensures View() == ServeDue(old(View()), oracle, id) && Valid()
      ensures openWindow == old(openWindow) || openWindow == null
    {
      hide Finalize, L.MaybeSchedulePush, Overdue, Consistent;
      if id !in pendingCRs {
        return;
      }
      if openWindow != null && openWindow.pendingCR == Some(id) {
        var retained := FinalizeOpenWindow();
        MaybeSchedulePush();
        if id in pendingCRs {
          ResolveOverdue(id);
        }
      } else {
        ResolveOverdue(id);
      }
    }

    method ResolveOverdue(id: CrId)
      requires id in pendingCRs
      modifies `crOutcomes, `pendingCRs, `ends
      ensures View() == Overdue(old(View()), id)
    {
      hide Finish;
      FinishCommitRequest(id, NoOpenWindow, Unclaimed(View().window, pendingCRs[id].finalizeAt, now));
    }

    method ProcessDueCommitRequests(order: seq<CrId>)
      requires Valid()
      modifies this, w
      ensures View() == ServeAllDue(old(View()), oracle, Due(old(pendingCRs), old(now), order)) && Valid()
      ensures openWindow == old(openWindow) || openWindow == null
    {
      hide ServeDue, Due, Consistent;
      var due := CollectDue(order);
      ghost var start := View();
      for i := 0 to |due|
        invariant Valid() && (openWindow == old(openWindow) || openWindow == null)
        invariant View() == ServeAllDue(start, oracle, due[..i])
      {
        assert due[..i + 1][..i] == due[..i];
        ServeDueRequest(due[i]);
      }
      assert due[..|due|] == due;
    }

    method RearmAttachTimer(order: seq<CrId>)
      modifies `attachTimer
      ensures View() == Rearm(old(View()), order)
    {
      var earliest: Option<int> := None;
      for i := 0 to |order|
        invariant earliest == Earliest(pendingCRs, order[..i])
      {
        assert order[..i + 1][..i] == order[..i];
        var id := order[i];
        if id in pendingCRs && (earliest.None? || pendingCRs[id].finalizeAt < earliest.value) {
          earliest := Some(pendingCRs[id].finalizeAt);
        }
      }
      assert order[..|order|] == order;
      attachTimer := if earliest.None? then None else if earliest.value < now then Some(now) else earliest;
    }

    method ServiceCommitRequests(order: seq<CrId>)
      requires Valid()
      modifies this, w, openWindow
      ensures View() == Service(old(View()), oracle, order) && Valid()
      ensures openWindow == old(openWindow) || openWindow == null
    {
      hide AttachWaiting, ServeAllDue, Due, Rearm, Consistent;
      if pendingCRs == map[] {
        attachTimer := None;
        return;
      }
      AttachWaitingCommitRequests(order);
      ProcessDueCommitRequests(order);
      RearmAttachTimer(order);
    }

    // ----------------------------------------------------------------- the loop

    method DispatchWake(wake: Wake)
      requires Valid()
      modifies this, w, openWindow
      ensures View() == Dispatch(old(View()), oracle, cfg, wake) && Valid() && WindowKept()
    {
      hide HandleItem, Finalize, L.MaybeSchedulePush, L.PushPending, Consistent;
      match wake
      case Received(item) => HandleQueueItem(item);
      case CommitTimeout =>
        commitTimer := None;
        var retained := FinalizeOpenWindow();
        MaybeSchedulePush();
      case PushTimeout =>
        pushTimer := None;
        PushPending();
      case AttachTimeout =>
        attachTimer := None;
    }

    /** One iteration of the loop. */
    method Step(wake: Wake, order: seq<CrId>)
      requires Valid()
      modifies this, w, openWindow
      ensures View() == L.Step(old(View()), oracle, cfg, wake, order) && Valid() && WindowKept()
    {
      hide Dispatch, Service, ApplyHeals, Consistent;
      var a := Ask();
      DispatchWake(wake);
      ServiceCommitRequests(order);
      ApplyDeferredHeals();
    }

    /** The loop up to its shutdown. */
    method Serve(turns: seq<LoopTheorems.Turn>)
      requires Valid()
      modifies this, w, openWindow
      ensures View() == LoopTheorems.Run(old(View()), oracle, cfg, turns) && Valid() && WindowKept()
      ensures old(LoopRequests.Sound(View()) && LoopInvariants.Boundary(View(), cfg)) ==>
                LoopRequests.Sound(View()) && LoopInvariants.Boundary(View(), cfg)
    {
      hide L.Step, Consistent, LoopRequests.Sound, LoopInvariants.Boundary;
      ghost var start := View();
      for i := 0 to |turns|
        invariant Valid() && WindowKept() && View() == LoopTheorems.Run(start, oracle, cfg, turns[..i])
      {
        assert turns[..i + 1][..i] == turns[..i];
        Step(turns[i].wake, turns[i].order);
      }
      assert turns[..|turns|] == turns;
      if LoopRequests.Sound(start) && LoopInvariants.Boundary(start, cfg) {
        LoopTheorems.RunSound(start, oracle, cfg, turns);
      }
    }

    method HandleShutdown()
      requires Valid()
      modifies this, w
      ensures View() == Shutdown(old(View()), oracle) && openWindow == null
    {
      hide Finalize, ApplyHeals, L.PushPending, Consistent;
      var retained := FinalizeOpenWindow();
      ApplyDeferredHeals();
      if pendingWrites != [] {
        PushPending();
      }
    }
  }
}
