/** What each kind of wake of the loop comes to (internal/git/branch_worker.go,
    commit_request_attach_loop.go, resync_flush.go). */
module LoopWakes {
  import opened Documents
  import opened OpenWindows
  import opened Push
  import opened LoopSpec
  import opened LoopTheorems

  // --------------------------------------------------------------------- pushing

  /** Whether a push of what is retained goes through. */
  predicate Publishes(s: State, o: Oracle) {
    o(s.tick).ready && PushFrom(s.repo, s.pending, o(s.tick).attempts, 0).ok
  }

  /** A push publishes everything that is retained, and then the queue is empty and the cooldown
      starts; or it fails, and then the queue, its size, the outcomes and the last push are as
      before, up to tightened modes and recorded hashes. No push timer runs after either. */
  lemma PushIsAllOrNothing(s: State, o: Oracle)
    requires s.pending != []
    ensures var r := PushPending(s, o);
            && r.pushTimer.None? && r.window == s.window
            && if Publishes(s, o) then
                 r.pending == [] && r.pendingBytes == 0 && r.lastPushAt == Some(s.now + o(s.tick).elapsed)
               else
                 && TightenedQueue(r.pending, s.pending) && r.pendingBytes == s.pendingBytes
                 && r.outcomes == s.outcomes && r.crs == s.crs && r.lastPushAt == s.lastPushAt
  {
    hide PushFrom, ResolvePushed, TightenedQueue;
    TightenedQueueReflexive(s.pending);
    PushOnlyTightens(s.repo, s.pending, o(s.tick).attempts, 0);
  }

  /** A push timeout tries to publish what is retained. */
  lemma PushTimeoutPublishes(s: State, o: Oracle, cfg: Config)
    requires (s.window.Some? ==> Consistent(s.window.value)) && s.pending != []
    ensures var r := Dispatch(s, o, cfg, PushTimeout);
            r.pushTimer.None? && (r.pending == [] <==> Publishes(s, o))
  {
    hide PushPending, Consistent, PushFrom, TightenedQueue;
    var t := s.(pushTimer := None);
    PushIsAllOrNothing(t, o);
    if !Publishes(s, o) { StillRetained(PushPending(t, o), t); }
  }

  lemma StillRetained(r: State, s: State)
    requires TightenedQueue(r.pending, s.pending) && s.pending != []
    ensures r.pending != []
  {
  }

  // --------------------------------------------------------------------- windows

  /** A live event that the gate lets through leaves its window open with the silence timer started
      anew, or closed because the cap is reached or there is no commit window. */
  lemma EventRestartsTimer(s: State, o: Oracle, cfg: Config, e: Event)
    requires (s.window.Some? ==> Consistent(s.window.value)) && !(Named(e.target) && !o(s.tick).gateOpen)
    ensures var r := HandleEvent(s, o, cfg, e);
            && (r.window.Some? ==>
                  && r.commitTimer == Some(r.now + cfg.commitWindow)
                  && PathKey(e) in r.window.value.latest && r.window.value.latest[PathKey(e)] == e
                  && cfg.commitWindow != 0 && TotalRetainedBytes(r) < cfg.maxBytes)
  {
    hide MakeRoom, Consistent, Finalize, MaybeSchedulePush, CanAppend;
    var room := MakeRoom(Tick(s, o(s.tick)), o, e);
    AddKeepsEvent(room, e);
    hide AddEvent;
  }

  lemma AddKeepsEvent(s: State, e: Event)
    requires s.window.Some? ==> Consistent(s.window.value) && CanAppend(s.window.value, e)
    ensures var r := AddEvent(s, e);
            r.window.Some? && PathKey(e) in r.window.value.latest && r.window.value.latest[PathKey(e)] == e
  {
    hide Consistent;
  }

  /** The silence timeout closes the window. */
  lemma CommitTimeoutCloses(s: State, o: Oracle, cfg: Config)
    requires s.window.Some? ==> Consistent(s.window.value)
    ensures Dispatch(s, o, cfg, CommitTimeout).window.None?
  {
    hide Finalize, MaybeSchedulePush, Consistent;
  }

  lemma {:induction false} NoCommitWindow(s: State, o: Oracle, cfg: Config, events: seq<Event>)
    requires (s.window.Some? ==> Consistent(s.window.value)) && cfg.commitWindow == 0 && s.window.None?
    ensures HandleEvents(s, o, cfg, events).window.None?
  {
    hide HandleEvent, Consistent;
    if events != [] {
      NoCommitWindow(s, o, cfg, events[..|events| - 1]);
      var before := HandleEvents(s, o, cfg, events[..|events| - 1]);
      OneNeverOpens(before, o, cfg, events[|events| - 1]);
    }
  }

  lemma OneNeverOpens(s: State, o: Oracle, cfg: Config, e: Event)
    requires s.window.None? && cfg.commitWindow == 0
    ensures HandleEvent(s, o, cfg, e).window.None?
  {
    hide Consistent, Finalize, MaybeSchedulePush, AddEvent, ApplyHeals;
  }

  /** No window is left open without a commit window, and no heal is left parked without an open
      window. */
  predicate Tidy(s: State, cfg: Config) {
    (cfg.commitWindow == 0 ==> s.window.None?) && (s.heals != [] ==> s.window.Some?)
  }

  lemma HealsDrained(s: State, o: Oracle)
    ensures s.window.None? ==> ApplyHeals(s, o).heals == []
  {
    hide RunHeals;
  }

  lemma ItemOpensNothing(s: State, o: Oracle, cfg: Config, item: Item)
    requires s.window.None? && cfg.commitWindow == 0
    ensures HandleItem(s, o, cfg, item).window.None?
  {
    hide Finalize, RunResync, RunAtomic, ApplyHeals, HandleEvents, StashHeal, AtomicTarget;
    match item
    case LiveItem(events) => NoCommitWindow(s, o, cfg, events);
    case _ =>
  }

  lemma StepTidies(s: State, o: Oracle, cfg: Config, wake: Wake, order: seq<CrId>)
    requires (s.window.Some? ==> Consistent(s.window.value)) && Tidy(s, cfg)
    ensures Tidy(Step(s, o, cfg, wake, order), cfg)
  {
    hide HandleItem, Finalize, MaybeSchedulePush, PushPending, ServeAllDue, AttachWaiting, Earliest, Due, ApplyHeals, Consistent;
    var woken := Woken(s, o);
    if wake.Received? && cfg.commitWindow == 0 { ItemOpensNothing(woken, o, cfg, wake.item); }
    HealsDrained(Service(Dispatch(woken, o, cfg, wake), o, order), o);
  }

  /** In every run, at every loop boundary: without a commit window no window is open, and a parked
      heal waits for an open window. */
  lemma {:induction false} RunIsTidy(repo: Repo, now: int, o: Oracle, cfg: Config, turns: seq<Turn>)
    ensures Tidy(Reached(repo, now, o, cfg, turns), cfg)
  {
    hide Step;
    if turns != [] {
      var n := |turns| - 1;
      RunIsTidy(repo, now, o, cfg, turns[..n]);
      StepTidies(Reached(repo, now, o, cfg, turns[..n]), o, cfg, turns[n].wake, turns[n].order);
    }
  }

  /** A heal that finds a window open is parked, newest for its target and scope, and changes
      nothing else. */
  lemma HealWaits(s: State, o: Oracle, cfg: Config, req: ResyncRequest)
    requires s.window.Some? && Consistent(s.window.value) && req.heal
    ensures var r := HandleItem(s, o, cfg, ResyncItem(req));
            && r == s.(heals := r.heals) && req in r.heals
            && (forall h :: h in s.heals && !SameHeal(h, req) ==> h in r.heals)
  {
    hide Consistent;
    ParkedIsThere(s.heals, req);
  }

  lemma {:induction false} ParkedIsThere(heals: seq<ResyncRequest>, req: ResyncRequest)
    ensures var r := StashHeal(heals, req); req in r && forall h :: h in heals && !SameHeal(h, req) ==> h in r
  {
    hide SameHeal;
    if heals != [] && !SameHeal(heals[0], req) { ParkedIsThere(heals[1..], req); }
  }

  /** An event that cannot join the open window closes it, and nothing stays parked. */
  lemma MakingRoomDrains(s: State, o: Oracle, cfg: Config, e: Event)
    requires s.window.Some? && Consistent(s.window.value) && !CanAppend(s.window.value, e)
    requires Named(e.target) ==> o(s.tick).gateOpen
    ensures var r := HandleEvent(s, o, cfg, e);
            r.heals == [] && (r.window.Some? ==> r.window.value.order == [PathKey(e)])
  {
    hide Consistent, Finalize, MaybeSchedulePush, ApplyHeals;
    var s1 := Tick(s, o(s.tick));
    var closed := MaybeSchedulePush(Finalize(s1, o).state, o);
    HealsDrained(closed, o);
    FinalizeOpensNothing(AddEvent(ApplyHeals(closed, o), e), o);
  }

  lemma FinalizeOpensNothing(s: State, o: Oracle)
    requires s.window.Some? ==> Consistent(s.window.value)
    ensures Finalize(s, o).state.heals == s.heals
  {
    hide Consistent, CommitWindow, DropWindow;
    if s.window.Some? && o(s.tick + 1).metadata.Some? {
      CommitWindowParksNothing(Tick(Tick(s.(commitTimer := None), o(s.tick)), o(s.tick + 1)), o, o(s.tick + 1).metadata.value);
    }
  }

  lemma CommitWindowParksNothing(s: State, o: Oracle, md: Metadata)
    requires s.window.Some? && Consistent(s.window.value)
    ensures CommitWindow(s, o, md).state.heals == s.heals
  {
    hide Consistent, DropWindow, RetainWindow, CommitOne, GroupedWrite, SizeOf, OrderedEvents;
  }

  /** An atomic request that the gate lets through closes the open window and drains the parked heals
      before its own commit. */
  lemma AtomicGoesLast(s: State, o: Oracle, cfg: Config, events: seq<Event>, target: TargetKey, message: string)
    requires s.window.Some? ==> Consistent(s.window.value)
    requires Named(AtomicTarget(events, target)) ==> o(s.tick).gateOpen
    ensures var r := HandleItem(s, o, cfg, AtomicItem(events, target, message)); r.window.None? && r.heals == []
  {
    hide Consistent, Finalize, ApplyHeals, MaybeSchedulePush, CommitOne, AtomicWrite, SizeOf, AtomicTarget;
    HealsDrained(Finalize(Tick(s, o(s.tick)), o).state, o);
  }

  /** The target an atomic request is gated by: its own, or the first that one of its events names. */
  lemma {:induction false} AtomicTargetIsFirst(events: seq<Event>, target: TargetKey, i: nat)
    requires !Named(target) && i < |events| && Named(events[i].target) && forall k :: 0 <= k < i ==> !Named(events[k].target)
    ensures AtomicTarget(events, target) == events[i].target
  {
    if i > 0 { AtomicTargetIsFirst(events[1..], target, i - 1); }
  }

  /** A request is registered with its close delay, in seconds, from now. */
  lemma AttachRegisters(s: State, o: Oracle, cfg: Config, req: Request)
    requires s.window.Some? ==> Consistent(s.window.value)
    ensures var r := HandleItem(s, o, cfg, Attach(req));
            if req.id in s.outcomes || req.id in s.crs then r == s
            else
              && r == s.(crs := r.crs, requests := r.requests, resent := r.resent)
              && req.id in r.crs && r.crs[req.id].request == req && !r.crs[req.id].attached
              && r.crs[req.id].finalizeAt - s.now == 1_000_000_000 * req.closeDelaySeconds
              && forall id :: id != req.id ==> (id in r.crs <==> id in s.crs) && (id in s.crs ==> r.crs[id] == s.crs[id])
  {
    hide Consistent;
  }
}
