/** What the outcomes of CommitRequests that no push resolved tell
    (internal/git/branch_worker.go, commit_request_attach_loop.go). */
module LoopOutcomes {
  import opened Documents
  import opened OpenWindows
  import opened Writes
  import opened Repository
  import opened Push
  import opened LoopSpec
  import opened LoopRequests
  import opened LoopTheorems
  import opened ClosingWrites

  // --------------------------------------------------------- what they tell

  /** The window the request claimed was dropped, for the given cause. */
  predicate WasDropped(o: Oracle, id: CrId, cause: Cause, e: Ending) {
    && e.Discarded? && Claims(e.window, id) && e.tick > 0
    && var w, a := e.window.value, o(e.tick - 1);
       match cause
       case GateClosed => Named(w.target) && !a.gateOpen
       case BuildFailed => a.metadata.None? || w.order == []
       case CommitFailed => !a.prepared || !a.executed
  }

  /** The window the request claimed was committed as a write that changes nothing on the head. */
  ghost predicate WasPresent(o: Oracle, id: CrId, e: Ending) {
    && e.Unchanged? && Claims(e.window, id) && Consistent(e.window.value) && e.tick > 1
    && var w, md := e.window.value, o(e.tick - 2).metadata;
       && md.Some?
       && forall s :: Get(TreeOf(e.head), s) == EventsLeave(OrderedEvents(w), w.target, md.value, s, Get(TreeOf(e.head), s))
  }

  /** The request came due while no window, or another's, was open. */
  predicate CameDue(id: CrId, entry: OutcomeEntry, e: Ending) {
    e.Unclaimed? && !Claims(e.window, id) && e.deadline <= e.now == entry.resolvedAt
  }

  ghost predicate Told(o: Oracle, id: CrId, entry: OutcomeEntry, ends: map<CrId, Ending>) {
    match entry.outcome
    case Committed(_) => true
    case AlreadyPresent => id in ends && WasPresent(o, id, ends[id])
    case NoOpenWindow => id in ends && CameDue(id, entry, ends[id])
    case Failed(cause) => id in ends && WasDropped(o, id, cause, ends[id])
  }

  ghost predicate AllTold(o: Oracle, s: State) {
    forall id :: id in s.outcomes ==> Told(o, id, s.outcomes[id], s.ends)
  }

  // ------------------------------------------------------ what each step does

  lemma FinishTells(s: State, o: Oracle, id: CrId, outcome: Outcome, e: Ending)
    requires AllTold(o, s) && Told(o, id, OutcomeEntry(outcome, s.now), s.ends[id := e])
    ensures AllTold(o, Finish(s, id, outcome, e))
  {
    hide WasDropped, WasPresent, CameDue;
  }

  lemma CommittedTells(s: State, o: Oracle, id: CrId, sha: History)
    requires AllTold(o, s)
    ensures AllTold(o, Resolve(s, id, Committed(sha)))
  {
    hide WasDropped, WasPresent, CameDue;
  }

  lemma SameTells(s: State, o: Oracle, r: State)
    requires AllTold(o, s) && r.outcomes == s.outcomes && r.ends == s.ends
    ensures AllTold(o, r)
  {
  }

  lemma DropTells(s: State, o: Oracle, cause: Cause)
    requires AllTold(o, s) && s.window.Some?
    requires s.window.value.cr.Some? ==> WasDropped(o, s.window.value.cr.value, cause, Discarded(s.window, s.tick))
    ensures AllTold(o, DropWindow(s, cause))
  {
    hide AllTold, WasDropped, WasPresent, Finish;
    var closed := s.(window := None, windowBytes := 0);
    SameTells(s, o, closed);
    if s.window.value.cr.Some? {
      var id := s.window.value.cr.value;
      FinishTells(closed, o, id, Failed(cause), Discarded(s.window, s.tick));
    }
  }

  lemma RetainTells(c: Committing, o: Oracle, w: Write, size: nat)
    requires AllTold(o, c.state)
    requires w.cr.Some? && !c.changed ==> WasPresent(o, w.cr.value, Unchanged(c.state.window, c.state.tick, c.state.repo.local))
    ensures AllTold(o, RetainWindow(c, w, size))
  {
    hide AllTold, WasPresent, Finish;
    var closed := CloseInto(c.state, RetainedWindow(c, w, size));
    SameTells(c.state, o, closed);
    if w.cr.None? {
    } else if c.changed {
      SameTells(closed, o, Ride(closed, w.cr.value, w));
    } else {
      FinishTells(closed, o, w.cr.value, AlreadyPresent, Unchanged(c.state.window, c.state.tick, c.state.repo.local));
    }
  }

  lemma CommitWindowTells(s: State, o: Oracle, md: Metadata)
    requires AllTold(o, s) && s.window.Some? && Consistent(s.window.value)
    requires s.tick > 0 && o(s.tick - 1).metadata == Some(md)
    ensures AllTold(o, CommitWindow(s, o, md).state)
  {
    hide AllTold, DropWindow, RetainWindow, Consistent, SizeOf, EventsLeave, OrderedEvents, Observe, Available, ApplyWrite;
    var w := s.window.value;
    var write := GroupedWrite(w, OrderedEvents(w), md);
    var c := CommitOne(s, o, write);
    SameTells(s, o, c.state);
    if !c.ok {
      DropTells(c.state, o, CommitFailed);
    } else {
      if write.cr.Some? && !c.changed {
        UnchangedIsPresent(s, o, md, c.state.repo.local);
      }
      RetainTells(c, o, write, SizeOf(write.events));
    }
  }

  lemma UnchangedIsPresent(s: State, o: Oracle, md: Metadata, head: History)
    requires s.window.Some? && Consistent(s.window.value) && s.window.value.cr.Some?
    requires s.tick > 0 && o(s.tick - 1).metadata == Some(md)
    requires ApplyWrite(TreeOf(head), GroupedWrite(s.window.value, OrderedEvents(s.window.value), md)) == TreeOf(head)
    ensures WasPresent(o, s.window.value.cr.value, Unchanged(s.window, s.tick + 1, head))
  {
    hide ApplyWrite, GroupedWrite, EventsLeave, Consistent, OrderedEvents;
    var w := s.window.value;
    forall slot ensures Get(TreeOf(head), slot) == EventsLeave(OrderedEvents(w), w.target, md, slot, Get(TreeOf(head), slot)) {
      GroupedMeans(w, md, TreeOf(head), slot);
    }
  }

  lemma FinalizeTells(s: State, o: Oracle)
    requires AllTold(o, s) && (s.window.Some? ==> Consistent(s.window.value))
    ensures AllTold(o, Finalize(s, o).state)
  {
    hide AllTold, CommitWindow, DropWindow, Consistent;
    if s.window.Some? {
      var w := s.window.value;
      var s1 := Tick(s.(commitTimer := None), o(s.tick));
      var s2 := Tick(s1, o(s1.tick));
      SameTells(s, o, s1);
      SameTells(s, o, s2);
      if Named(w.target) && !o(s.tick).gateOpen {
        DropTells(s1, o, GateClosed);
      } else if o(s1.tick).metadata.None? || w.order == [] {
        DropTells(s2, o, BuildFailed);
      } else {
        CommitWindowTells(s2, o, o(s1.tick).metadata.value);
      }
    }
  }

  /** What keeps a window from being retained, in the order it is found out. */
  function FirstFailing(s: State, o: Oracle): Cause
    requires s.window.Some?
  {
    if Named(s.window.value.target) && !o(s.tick).gateOpen then GateClosed
    else if o(s.tick + 1).metadata.None? || s.window.value.order == [] then BuildFailed
    else CommitFailed
  }

  /** Closing the window of a request decides on it: it fails if the window is dropped, with the
      cause; it is reported as present at once if the commit is the head itself; and otherwise it
      rides the retained write, whose commit is the new head. */
  lemma FinalizeDecides(s: State, o: Oracle, id: CrId)
    requires Claims(s.window, id) && Consistent(s.window.value)
    ensures var r := Finalize(s, o).state;
            if !Retains(s, o) then id in r.outcomes && r.outcomes[id].outcome == Failed(FirstFailing(s, o))
            else
              && |r.pending| == |s.pending| + 1
              && var last := r.pending[|s.pending|];
                 if r.repo.local == HeadFor(s, o(s.tick + 2)) then
                   id in r.outcomes && r.outcomes[id].outcome == AlreadyPresent && last.write.cr.None?
                 else r.outcomes == s.outcomes && id !in r.crs && last.write.cr == Some(id) && last.sha == r.repo.local
  {
    hide CommitWindow, DropWindow, Consistent, HeadFor, Executes;
    var w := s.window.value;
    var s1 := Tick(s.(commitTimer := None), o(s.tick));
    var s2 := Tick(s1, o(s1.tick));
    if Named(w.target) && !o(s.tick).gateOpen {
      DropFails(s1, GateClosed, id);
    } else if o(s1.tick).metadata.None? || w.order == [] {
      DropFails(s2, BuildFailed, id);
    } else {
      CommitWindowDecides(s2, o, o(s1.tick).metadata.value, id);
      HeadForAgrees(s, s2, o(s.tick + 2));
    }
  }

  lemma DropFails(s: State, cause: Cause, id: CrId)
    requires Claims(s.window, id)
    ensures id in DropWindow(s, cause).outcomes && DropWindow(s, cause).outcomes[id].outcome == Failed(cause)
  {
  }

  lemma CommitWindowDecides(s: State, o: Oracle, md: Metadata, id: CrId)
    requires Claims(s.window, id) && Consistent(s.window.value)
    ensures var r := CommitWindow(s, o, md).state;
            if !Executes(s, o(s.tick)) then id in r.outcomes && r.outcomes[id].outcome == Failed(CommitFailed)
            else
              && |r.pending| == |s.pending| + 1
              && var last := r.pending[|s.pending|];
                 if r.repo.local == HeadFor(s, o(s.tick)) then
                   id in r.outcomes && r.outcomes[id].outcome == AlreadyPresent && last.write.cr.None?
                 else r.outcomes == s.outcomes && id !in r.crs && last.write.cr == Some(id) && last.sha == r.repo.local
  {
    hide OrderedEvents, ApplyWrite, Consistent, DropWindow, RetainWindow, SizeOf, Observe, Available, Rebased;
    var write := GroupedWrite(s.window.value, OrderedEvents(s.window.value), md);
    var c := CommitOne(s, o, write);
    if c.ok {
      RetainDecides(c, write, SizeOf(write.events), id);
    } else {
      DropFails(c.state, CommitFailed, id);
    }
  }

  lemma RetainDecides(c: Committing, w: Write, size: nat, id: CrId)
    requires w.cr == Some(id)
    ensures var r := RetainWindow(c, w, size);
            && |r.pending| == |c.state.pending| + 1 && r.repo == c.state.repo
            && var last := r.pending[|c.state.pending|];
               if c.changed then
                 r.outcomes == c.state.outcomes && id !in r.crs && last.write.cr == Some(id) && last.sha == r.repo.local
               else id in r.outcomes && r.outcomes[id].outcome == AlreadyPresent && last.write.cr.None?
  {
    if c.changed { } else { }
  }

  lemma {:induction false} ResolvePushedTells(s: State, o: Oracle, ws: seq<PendingWrite>)
    requires AllTold(o, s)
    ensures AllTold(o, ResolvePushed(s, ws))
  {
    hide AllTold, Resolve;
    if ws != [] {
      var w := ws[|ws| - 1];
      ResolvePushedTells(s, o, ws[..|ws| - 1]);
      if w.write.cr.Some? && w.sha != Unborn {
        CommittedTells(ResolvePushed(s, ws[..|ws| - 1]), o, w.write.cr.value, w.sha);
      }
    }
  }

  lemma PushTells(s: State, o: Oracle)
    requires AllTold(o, s)
    ensures AllTold(o, PushPending(s, o)) && s.now <= PushPending(s, o).now
  {
    hide AllTold, PushFrom, AfterPush;
    if s.pending == [] {
      SameTells(s, o, s.(pushTimer := None));
    } else {
      var a := o(s.tick);
      var s1 := Tick(s, a);
      SameTells(s, o, s1);
      if a.ready {
        AfterPushTells(s1, o, PushFrom(s.repo, s.pending, a.attempts, 0));
      } else {
        SameTells(s1, o, s1.(pushTimer := None, mark := PushFailed(s1.repo, s1.pending, s1.tick)));
      }
    }
  }

  lemma AfterPushTells(s: State, o: Oracle, p: Pushed)
    requires AllTold(o, s)
    ensures AllTold(o, AfterPush(s, p)) && AfterPush(s, p).now == s.now
  {
    hide AllTold, ResolvePushed;
    var s1 := s.(repo := p.repo, pending := p.writes, pushTimer := None);
    SameTells(s, o, s1);
    if p.ok {
      ResolvePushedTells(s1, o, p.writes);
      SameTells(ResolvePushed(s1, p.writes), o, AfterPush(s, p));
    } else {
      SameTells(s1, o, AfterPush(s, p));
    }
  }

  lemma ScheduleTells(s: State, o: Oracle)
    requires AllTold(o, s)
    ensures AllTold(o, MaybeSchedulePush(s, o)) && s.now <= MaybeSchedulePush(s, o).now
  {
    hide AllTold, PushPending;
    if s.pending == [] {
    } else if s.lastPushAt.None? || s.now - s.lastPushAt.value >= PUSH_COOLDOWN {
      PushTells(s, o);
    } else {
      SameTells(s, o, MaybeSchedulePush(s, o));
    }
  }

  lemma ResyncTells(s: State, o: Oracle, req: ResyncRequest, closed: bool)
    requires AllTold(o, s)
    ensures AllTold(o, RunResync(s, o, req, closed))
  {
    hide AllTold, CommitOne, MaybeSchedulePush;
    var a := o(s.tick);
    SameTells(s, o, Tick(s, a));
    if Named(req.target) && a.metadata.Some? {
      var md := a.metadata.value;
      var w := Write(Resync, [], req.desired, req.scope, Some(ResolvedTarget(req.target, md.base, md.mode)), "", None);
      var c := CommitOne(Tick(s, a), o, w);
      SameTells(s, o, c.state);
      if c.ok {
        var s2 := if c.changed then Retain(c.state, PendingWrite(w, req.byteSize, Unborn)) else c.state;
        SameTells(s, o, s2);
        ScheduleTells(s2, o);
      }
    }
  }

  lemma {:induction false} HealsTell(s: State, o: Oracle, heals: seq<ResyncRequest>)
    requires AllTold(o, s)
    ensures AllTold(o, RunHeals(s, o, heals))
  {
    hide AllTold, RunResync;
    if heals != [] {
      HealsTell(s, o, heals[..|heals| - 1]);
      ResyncTells(RunHeals(s, o, heals[..|heals| - 1]), o, heals[|heals| - 1], false);
    }
  }

  lemma ApplyHealsTells(s: State, o: Oracle)
    requires AllTold(o, s)
    ensures AllTold(o, ApplyHeals(s, o))
  {
    hide AllTold, RunHeals;
    if s.window.None? && s.heals != [] {
      SameTells(s, o, s.(heals := []));
      HealsTell(s.(heals := []), o, s.heals);
    }
  }

  lemma AtomicTells(s: State, o: Oracle, events: seq<Event>, target: TargetKey, message: string)
    requires AllTold(o, s)
    ensures AllTold(o, RunAtomic(s, o, events, target, message))
  {
    hide AllTold, CommitOne, MaybeSchedulePush, AtomicWrite, SizeOf;
    var a := o(s.tick);
    SameTells(s, o, Tick(s, a));
    if events != [] && a.metadata.Some? {
      var w := AtomicWrite(events, target, message, a.metadata.value);
      var c := CommitOne(Tick(s, a), o, w);
      SameTells(s, o, c.state);
      if c.ok {
        var s2 := Retain(c.state, PendingWrite(w, SizeOf(w.events), Unborn));
        SameTells(s, o, s2);
        ScheduleTells(s2, o);
      }
    }
  }

  lemma CloseAndScheduleTells(s: State, o: Oracle)
    requires AllTold(o, s) && (s.window.Some? ==> Consistent(s.window.value))
    ensures AllTold(o, MaybeSchedulePush(Finalize(s, o).state, o))
  {
    hide AllTold, Finalize, MaybeSchedulePush;
    FinalizeTells(s, o);
    ScheduleTells(Finalize(s, o).state, o);
  }

  lemma EventTells(s: State, o: Oracle, cfg: Config, e: Event)
    requires AllTold(o, s) && (s.window.Some? ==> Consistent(s.window.value))
    ensures AllTold(o, HandleEvent(s, o, cfg, e))
  {
    hide AllTold, Finalize, MaybeSchedulePush, ApplyHeals, Consistent, CanAppend;
    var s1 := Tick(s, o(s.tick));
    SameTells(s, o, s1);
    if !(Named(e.target) && !o(s.tick).gateOpen) {
      MakeRoomTells(s1, o, e);
      var room := MakeRoom(s1, o, e);
      hide MakeRoom;
      AddTells(room, o, e);
      hide AddEvent;
      SettleTells(AddEvent(room, e), o, cfg);
      hide Settle;
    }
  }

  lemma AddTells(s: State, o: Oracle, e: Event)
    requires AllTold(o, s) && (s.window.Some? ==> Consistent(s.window.value) && CanAppend(s.window.value, e))
    ensures AllTold(o, AddEvent(s, e))
  {
    hide AllTold, Consistent;
    SameTells(s, o, AddEvent(s, e));
  }

  lemma SettleTells(s: State, o: Oracle, cfg: Config)
    requires AllTold(o, s) && (s.window.Some? ==> Consistent(s.window.value))
    ensures AllTold(o, Settle(s, o, cfg))
  {
    hide AllTold, Finalize, MaybeSchedulePush, Consistent;
    CloseAndScheduleTells(s, o);
    SameTells(s, o, s.(commitTimer := Some(s.now + cfg.commitWindow)));
  }

  lemma MakeRoomTells(s: State, o: Oracle, e: Event)
    requires AllTold(o, s) && (s.window.Some? ==> Consistent(s.window.value))
    ensures AllTold(o, MakeRoom(s, o, e))
  {
    hide AllTold, Finalize, MaybeSchedulePush, ApplyHeals, Consistent, CanAppend;
    if s.window.Some? && !CanAppend(s.window.value, e) {
      CloseAndScheduleTells(s, o);
      ApplyHealsTells(MaybeSchedulePush(Finalize(s, o).state, o), o);
    }
  }

  lemma {:induction false} EventsTell(s: State, o: Oracle, cfg: Config, events: seq<Event>)
    requires AllTold(o, s) && (s.window.Some? ==> Consistent(s.window.value))
    ensures AllTold(o, HandleEvents(s, o, cfg, events))
  {
    hide AllTold, HandleEvent, Consistent;
    if events != [] {
      EventsTell(s, o, cfg, events[..|events| - 1]);
      EventTells(HandleEvents(s, o, cfg, events[..|events| - 1]), o, cfg, events[|events| - 1]);
    }
  }

  lemma ItemTells(s: State, o: Oracle, cfg: Config, item: Item)
    requires AllTold(o, s) && (s.window.Some? ==> Consistent(s.window.value))
    ensures AllTold(o, HandleItem(s, o, cfg, item))
  {
    hide AllTold, Finalize, RunResync, RunAtomic, ApplyHeals, HandleEvents, StashHeal, AtomicTarget, Consistent;
    match item
    case Attach(req) => SameTells(s, o, HandleAttach(s, req));
    case EmptyItem =>
    case LiveItem(events) => EventsTell(s, o, cfg, events);
    case ResyncItem(req) =>
      if req.heal && s.window.Some? {
        SameTells(s, o, s.(heals := StashHeal(s.heals, req)));
      } else if req.heal {
        ResyncTells(s, o, req, false);
      } else {
        FinalizeTells(s, o);
        ResyncTells(Finalize(s, o).state, o, req, Finalize(s, o).retained);
      }
    case AtomicItem(events, target, message) =>
      var s1 := Tick(s, o(s.tick));
      SameTells(s, o, s1);
      if !(Named(AtomicTarget(events, target)) && !o(s.tick).gateOpen) {
        FinalizeTells(s1, o);
        ApplyHealsTells(Finalize(s1, o).state, o);
        AtomicTells(ApplyHeals(Finalize(s1, o).state, o), o, events, target, message);
      }
  }

  // ------------------------------------------------------------ serving requests

  lemma FinalizeTakesTime(s: State, o: Oracle)
    requires s.window.Some? ==> Consistent(s.window.value)
    ensures s.now <= Finalize(s, o).state.now
  {
    hide OrderedEvents, Consistent, CommitWindow, DropWindow;
    if s.window.Some? {
      var w := s.window.value;
      var s1 := Tick(s.(commitTimer := None), o(s.tick));
      var s2 := Tick(s1, o(s1.tick));
      if Named(w.target) && !o(s.tick).gateOpen {
        DropTakesNoTime(s1, GateClosed);
      } else if o(s1.tick).metadata.None? || w.order == [] {
        DropTakesNoTime(s2, BuildFailed);
      } else {
        CommitWindowTakesTime(s2, o, o(s1.tick).metadata.value);
      }
    }
  }

  lemma DropTakesNoTime(s: State, cause: Cause)
    requires s.window.Some?
    ensures DropWindow(s, cause).now == s.now
  {
    hide DropWindow;
  }

  lemma CommitWindowTakesTime(s: State, o: Oracle, md: Metadata)
    requires s.window.Some? && Consistent(s.window.value)
    ensures s.now <= CommitWindow(s, o, md).state.now
  {
    hide GroupedWrite, OrderedEvents, SizeOf, CommitOne, DropWindow, Resolve;
    var c := CommitOne(s, o, GroupedWrite(s.window.value, OrderedEvents(s.window.value), md));
    var write := GroupedWrite(s.window.value, OrderedEvents(s.window.value), md);
    if c.ok { RetainTakesNoTime(c, write, SizeOf(write.events)); } else { DropTakesNoTime(c.state, CommitFailed); }
    hide RetainWindow;
  }

  lemma RetainTakesNoTime(c: Committing, w: Write, size: nat)
    ensures RetainWindow(c, w, size).now == c.state.now
  {
    if w.cr.None? { } else if c.changed { } else { }
  }

  /** Every one of the requests that is still pending has come due. */
  ghost predicate AllDue(s: State, due: seq<CrId>) {
    forall id :: id in due && id in s.crs ==> s.crs[id].finalizeAt <= s.now
  }

  lemma DueIsSound(crs: map<CrId, PendingCr>, now: int, order: seq<CrId>)
    ensures forall id :: id in Due(crs, now, order) ==> id in crs && crs[id].finalizeAt <= now
  {
  }

  lemma OverdueTells(s: State, o: Oracle, id: CrId)
    requires AllTold(o, s) && id in s.crs && s.crs[id].finalizeAt <= s.now && !Claims(s.window, id)
    ensures AllTold(o, Overdue(s, id))
  {
    hide AllTold, Finish;
    FinishTells(s, o, id, NoOpenWindow, Unclaimed(s.window, s.crs[id].finalizeAt, s.now));
  }

  lemma ServeDueTells(s: State, o: Oracle, id: CrId, due: seq<CrId>)
    requires AllTold(o, s) && (s.window.Some? ==> Consistent(s.window.value)) && AllDue(s, due) && id in due
    ensures AllTold(o, ServeDue(s, o, id)) && AllDue(ServeDue(s, o, id), due)
  {
    hide AllTold, Finalize, MaybeSchedulePush, Consistent, Finish;
    ServeDueForgets(s, o, id);
    if id !in s.crs {
    } else if Claims(s.window, id) {
      CloseAndScheduleTells(s, o);
      ClaimedFinalizeForgets(s, o, id);
      FinalizeTakesTime(s, o);
      FinalizeTells(s, o);
      ScheduleTells(Finalize(s, o).state, o);
    } else {
      OverdueTells(s, o, id);
      OverdueTakesNoTime(s, id);
    }
  }

  lemma OverdueTakesNoTime(s: State, id: CrId)
    requires id in s.crs
    ensures Overdue(s, id).now == s.now
  {
  }

  lemma {:induction false} ServeAllDueTells(s: State, o: Oracle, due: seq<CrId>, all: seq<CrId>)
    requires AllTold(o, s) && (s.window.Some? ==> Consistent(s.window.value)) && AllDue(s, all) && forall id :: id in due ==> id in all
    ensures AllTold(o, ServeAllDue(s, o, due)) && AllDue(ServeAllDue(s, o, due), all)
  {
    hide AllTold, ServeDue, Consistent, AllDue;
    if due != [] {
      ServeAllDueTells(s, o, due[..|due| - 1], all);
      ServeDueTells(ServeAllDue(s, o, due[..|due| - 1]), o, due[|due| - 1], all);
    }
  }

  lemma ServiceTells(s: State, o: Oracle, order: seq<CrId>)
    requires AllTold(o, s) && (s.window.Some? ==> Consistent(s.window.value))
    ensures AllTold(o, Service(s, o, order))
  {
    hide AllTold, ServeAllDue, Oldest, Earliest, Consistent, Due;
    if s.crs == map[] {
      SameTells(s, o, s.(attachTimer := None));
    } else {
      var attached := AttachWaiting(s, order);
      SameTells(s, o, attached);
      hide AttachWaiting;
      var due := Due(attached.crs, attached.now, order);
      DueIsSound(attached.crs, attached.now, order);
      ServeAllDueTells(attached, o, due, due);
      var served := ServeAllDue(attached, o, due);
      SameTells(served, o, Rearm(served, order));
    }
  }

  // ---------------------------------------------------------------- whole runs

  lemma StepTells(s: State, o: Oracle, cfg: Config, wake: Wake, order: seq<CrId>)
    requires AllTold(o, s) && (s.window.Some? ==> Consistent(s.window.value))
    ensures AllTold(o, Step(s, o, cfg, wake, order))
  {
    hide AllTold, Dispatch, Service, ApplyHeals, Consistent;
    var woken := Woken(s, o);
    SameTells(s, o, woken);
    DispatchTells(woken, o, cfg, wake);
    var d := Dispatch(woken, o, cfg, wake);
    ServiceTells(d, o, order);
    ApplyHealsTells(Service(d, o, order), o);
  }

  lemma DispatchTells(s: State, o: Oracle, cfg: Config, wake: Wake)
    requires AllTold(o, s) && (s.window.Some? ==> Consistent(s.window.value))
    ensures AllTold(o, Dispatch(s, o, cfg, wake))
  {
    hide AllTold, HandleItem, Finalize, MaybeSchedulePush, PushPending, Consistent;
    match wake
    case Received(item) => ItemTells(s, o, cfg, item);
    case CommitTimeout =>
      SameTells(s, o, s.(commitTimer := None));
      CloseAndScheduleTells(s.(commitTimer := None), o);
    case PushTimeout =>
      SameTells(s, o, s.(pushTimer := None));
      PushTells(s.(pushTimer := None), o);
    case AttachTimeout => SameTells(s, o, s.(attachTimer := None));
  }

  lemma {:induction false} RunTells(s: State, o: Oracle, cfg: Config, turns: seq<Turn>)
    requires AllTold(o, s) && (s.window.Some? ==> Consistent(s.window.value))
    ensures AllTold(o, LoopTheorems.Run(s, o, cfg, turns))
  {
    hide AllTold, Step, Consistent;
    if turns != [] {
      RunTells(s, o, cfg, turns[..|turns| - 1]);
      StepTells(LoopTheorems.Run(s, o, cfg, turns[..|turns| - 1]), o, cfg, turns[|turns| - 1].wake, turns[|turns| - 1].order);
    }
  }

  /** In every run, every outcome that is not Committed tells what happened: a request is reported
      Failed only if the window it claimed was dropped for the cause given, AlreadyPresent only if
      its window's events change nothing on the head they were committed on, and NoOpenWindow only
      if it came due while it claimed no window. Such a request rides no retained write. */
  lemma OutcomesAreTrue(repo: Repo, now: int, o: Oracle, cfg: Config, turns: seq<Turn>, id: CrId)
    requires Fresh(repo)
    ensures var s := Reached(repo, now, o, cfg, turns);
            id in s.outcomes ==>
              && Told(o, id, s.outcomes[id], s.ends)
              && (s.resent || !Rides(s.pending, id))
  {
    hide Told;
    var start := InitialState(repo, now);
    RunTells(start, o, cfg, turns);
    ReachedSound(repo, now, o, cfg, turns);
    var s := Reached(repo, now, o, cfg, turns);
    hide Reached;
    if id in s.outcomes && !s.resent {
      assert forall i :: 0 <= i < |s.pending| && s.pending[i].write.cr.Some? ==>
          RiderOk(s.pending[i].write, s.pending[i].write.cr.value, s.crs, s.outcomes, s.requests, s.claims);
    }
  }
}
