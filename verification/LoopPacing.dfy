/** Time in the loop: how far apart pushes are, when the push timer is armed for, and how long
    outcomes are remembered (internal/git/branch_worker.go, commit_request_attach_loop.go). */
module LoopPacing {
  import opened Documents
  import opened OpenWindows
  import opened Writes
  import opened Repository
  import opened Push
  import opened LoopSpec
  import opened LoopTheorems

  /** Fifteen minutes, and five seconds, in nanoseconds. */
  const MEMORY: int := 900_000_000_000
  const DISTANCE: int := 5_000_000_000

  /** A running push timer is armed for the moment the cooldown after the last push is over. */
  predicate TimerExact(s: State) {
    s.pushTimer.Some? ==> s.lastPushAt.Some? && s.pushTimer.value == s.lastPushAt.value + DISTANCE
  }

  /** No push succeeded, or the last one at least the cooldown after the one before. */
  predicate Apart(s: State, r: State) {
    || r.lastPushAt == s.lastPushAt
    || (r.lastPushAt.Some? && r.lastPushAt.value <= r.now
        && (s.lastPushAt.Some? ==> r.lastPushAt.value >= s.lastPushAt.value + DISTANCE))
  }

  /** Whatever was resolved within the memory is still known to be. */
  predicate Remembers(s: State, r: State) {
    forall id :: id in s.outcomes && r.now - s.outcomes[id].resolvedAt <= MEMORY ==>
      id in r.outcomes && r.outcomes[id].resolvedAt >= s.outcomes[id].resolvedAt
  }

  /** No outcome is from the future. */
  predicate Dated(s: State) {
    forall id :: id in s.outcomes ==> s.outcomes[id].resolvedAt <= s.now
  }

  predicate Onward(s: State, r: State) {
    && s.now <= r.now && (TimerExact(s) ==> TimerExact(r)) && Apart(s, r)
    && (Dated(s) ==> Dated(r) && Remembers(s, r))
  }

  lemma OnwardTransitive(a: State, b: State, c: State)
    requires Onward(a, b) && Onward(b, c)
    ensures Onward(a, c)
  {
  }

  /** The clock, timers and outcomes are all there is to it. */
  lemma SameOnward(s: State, r: State)
    requires s.now <= r.now && r.lastPushAt == s.lastPushAt && r.outcomes == s.outcomes
    requires r.pushTimer == s.pushTimer || r.pushTimer.None?
    ensures Onward(s, r)
  {
  }

  lemma ResolveOnward(s: State, id: CrId, outcome: Outcome)
    ensures Onward(s, Resolve(s, id, outcome))
  {
  }

  lemma FinishOnward(s: State, id: CrId, outcome: Outcome, e: Ending)
    ensures Onward(s, Finish(s, id, outcome, e))
  {
    hide Resolve;
    ResolveOnward(s, id, outcome);
    SameOnward(Resolve(s, id, outcome), Finish(s, id, outcome, e));
    OnwardTransitive(s, Resolve(s, id, outcome), Finish(s, id, outcome, e));
  }

  // ------------------------------------------------------------- closing windows

  lemma DropOnward(s: State, cause: Cause)
    requires s.window.Some?
    ensures Onward(s, DropWindow(s, cause))
  {
    hide Onward, Finish;
    var closed := s.(window := None, windowBytes := 0);
    SameOnward(s, closed);
    if s.window.value.cr.Some? {
      FinishOnward(closed, s.window.value.cr.value, Failed(cause), Discarded(s.window, s.tick));
      OnwardTransitive(s, closed, DropWindow(s, cause));
    }
  }

  lemma RetainOnward(c: Committing, w: Write, size: nat)
    ensures Onward(c.state, RetainWindow(c, w, size))
  {
    hide Onward, Finish;
    var closed := CloseInto(c.state, RetainedWindow(c, w, size));
    SameOnward(c.state, closed);
    if w.cr.None? {
    } else if c.changed {
      SameOnward(c.state, Ride(closed, w.cr.value, w));
    } else {
      FinishOnward(closed, w.cr.value, AlreadyPresent, Unchanged(c.state.window, c.state.tick, c.state.repo.local));
      OnwardTransitive(c.state, closed, RetainWindow(c, w, size));
    }
  }

  lemma CommitWindowOnward(s: State, o: Oracle, md: Metadata)
    requires s.window.Some? && Consistent(s.window.value)
    ensures Onward(s, CommitWindow(s, o, md).state)
  {
    hide Onward, DropWindow, RetainWindow, Consistent, SizeOf, OrderedEvents, GroupedWrite, CommitOne;
    var write := GroupedWrite(s.window.value, OrderedEvents(s.window.value), md);
    var c := CommitOne(s, o, write);
    SameOnward(s, c.state);
    if c.ok { RetainOnward(c, write, SizeOf(write.events)); } else { DropOnward(c.state, CommitFailed); }
    OnwardTransitive(s, c.state, CommitWindow(s, o, md).state);
  }

  lemma FinalizeOnward(s: State, o: Oracle)
    requires s.window.Some? ==> Consistent(s.window.value)
    ensures Onward(s, Finalize(s, o).state)
  {
    hide Onward, CommitWindow, DropWindow, Consistent;
    SameOnward(s, s);
    if s.window.Some? {
      var w := s.window.value;
      var s1 := Tick(s.(commitTimer := None), o(s.tick));
      var s2 := Tick(s1, o(s1.tick));
      SameOnward(s, s1);
      SameOnward(s, s2);
      if Named(w.target) && !o(s.tick).gateOpen {
        DropOnward(s1, GateClosed);
        OnwardTransitive(s, s1, Finalize(s, o).state);
      } else if o(s1.tick).metadata.None? || w.order == [] {
        DropOnward(s2, BuildFailed);
        OnwardTransitive(s, s2, Finalize(s, o).state);
      } else {
        CommitWindowOnward(s2, o, o(s1.tick).metadata.value);
        OnwardTransitive(s, s2, Finalize(s, o).state);
      }
    }
  }

  // --------------------------------------------------------------------- pushing

  lemma {:induction false} ResolvePushedOnward(s: State, ws: seq<PendingWrite>)
    ensures Onward(s, ResolvePushed(s, ws))
  {
    hide Onward, Resolve;
    SameOnward(s, s);
    if ws != [] {
      var w := ws[|ws| - 1];
      var done := ResolvePushed(s, ws[..|ws| - 1]);
      ResolvePushedOnward(s, ws[..|ws| - 1]);
      if w.write.cr.Some? && w.sha != Unborn {
        ResolveOnward(done, w.write.cr.value, Committed(w.sha));
        OnwardTransitive(s, done, ResolvePushed(s, ws));
      }
    }
  }

  /** The cooldown after the last push is over, or there was none. */
  predicate Rested(s: State) {
    s.lastPushAt.Some? ==> s.now >= s.lastPushAt.value + DISTANCE
  }

  lemma AfterPushOnward(s: State, p: Pushed)
    requires Rested(s)
    ensures Onward(s, AfterPush(s, p))
  {
    hide ResolvePushed;
    var s1 := s.(repo := p.repo, pending := p.writes, pushTimer := None);
    ResolvePushedOnward(s1, p.writes);
  }

  lemma PushOnward(s: State, o: Oracle)
    requires Rested(s)
    ensures Onward(s, PushPending(s, o))
  {
    hide Onward, PushFrom, AfterPush;
    if s.pending == [] {
      SameOnward(s, s.(pushTimer := None));
    } else {
      var a := o(s.tick);
      var s1 := Tick(s, a);
      SameOnward(s, s1);
      if a.ready {
        AfterPushOnward(s1, PushFrom(s.repo, s.pending, a.attempts, 0));
        OnwardTransitive(s, s1, PushPending(s, o));
      } else {
        SameOnward(s, PushPending(s, o));
      }
    }
  }

  lemma ScheduleOnward(s: State, o: Oracle)
    ensures Onward(s, MaybeSchedulePush(s, o))
  {
    hide PushPending;
    if s.pending != [] && (s.lastPushAt.None? || s.now - s.lastPushAt.value >= PUSH_COOLDOWN) {
      PushOnward(s, o);
    }
  }

  // ------------------------------------------------------------ everything else

  lemma ResyncOnward(s: State, o: Oracle, req: ResyncRequest, closed: bool)
    ensures Onward(s, RunResync(s, o, req, closed))
  {
    hide Onward, CommitOne, MaybeSchedulePush;
    var a := o(s.tick);
    SameOnward(s, Tick(s, a));
    if Named(req.target) && a.metadata.Some? {
      var md := a.metadata.value;
      var w := Write(Resync, [], req.desired, req.scope, Some(ResolvedTarget(req.target, md.base, md.mode)), "", None);
      var c := CommitOne(Tick(s, a), o, w);
      SameOnward(s, c.state);
      if c.ok {
        var s2 := if c.changed then Retain(c.state, PendingWrite(w, req.byteSize, Unborn)) else c.state;
        SameOnward(s, s2);
        ScheduleOnward(s2, o);
        OnwardTransitive(s, s2, MaybeSchedulePush(s2, o));
      }
    }
  }

  lemma {:induction false} HealsOnward(s: State, o: Oracle, heals: seq<ResyncRequest>)
    ensures Onward(s, RunHeals(s, o, heals))
  {
    hide Onward, RunResync;
    SameOnward(s, s);
    if heals != [] {
      var before := RunHeals(s, o, heals[..|heals| - 1]);
      HealsOnward(s, o, heals[..|heals| - 1]);
      ResyncOnward(before, o, heals[|heals| - 1], false);
      OnwardTransitive(s, before, RunHeals(s, o, heals));
    }
  }

  lemma ApplyHealsOnward(s: State, o: Oracle)
    ensures Onward(s, ApplyHeals(s, o))
  {
    hide Onward, RunHeals;
    SameOnward(s, s);
    if s.window.None? && s.heals != [] {
      SameOnward(s, s.(heals := []));
      HealsOnward(s.(heals := []), o, s.heals);
      OnwardTransitive(s, s.(heals := []), ApplyHeals(s, o));
    }
  }

  lemma AtomicOnward(s: State, o: Oracle, events: seq<Event>, target: TargetKey, message: string)
    ensures Onward(s, RunAtomic(s, o, events, target, message))
  {
    hide Onward, CommitOne, MaybeSchedulePush, AtomicWrite, SizeOf;
    var a := o(s.tick);
    SameOnward(s, Tick(s, a));
    if events != [] && a.metadata.Some? {
      var w := AtomicWrite(events, target, message, a.metadata.value);
      var c := CommitOne(Tick(s, a), o, w);
      SameOnward(s, c.state);
      if c.ok {
        var s2 := Retain(c.state, PendingWrite(w, SizeOf(w.events), Unborn));
        SameOnward(s, s2);
        ScheduleOnward(s2, o);
        OnwardTransitive(s, s2, MaybeSchedulePush(s2, o));
      }
    }
  }

  lemma CloseAndScheduleOnward(s: State, o: Oracle)
    requires s.window.Some? ==> Consistent(s.window.value)
    ensures Onward(s, MaybeSchedulePush(Finalize(s, o).state, o))
  {
    hide Onward, Finalize, MaybeSchedulePush;
    FinalizeOnward(s, o);
    ScheduleOnward(Finalize(s, o).state, o);
    OnwardTransitive(s, Finalize(s, o).state, MaybeSchedulePush(Finalize(s, o).state, o));
  }

  lemma EventOnward(s: State, o: Oracle, cfg: Config, e: Event)
    requires s.window.Some? ==> Consistent(s.window.value)
    ensures Onward(s, HandleEvent(s, o, cfg, e))
  {
    hide Onward, MakeRoom, AddEvent, Settle, Consistent;
    var s1 := Tick(s, o(s.tick));
    SameOnward(s, s1);
    if !(Named(e.target) && !o(s.tick).gateOpen) {
      var room := MakeRoom(s1, o, e);
      MakeRoomOnward(s1, o, e);
      AddOnward(room, e);
      SettleOnward(AddEvent(room, e), o, cfg);
      OnwardTransitive(s, s1, room);
      OnwardTransitive(s, room, AddEvent(room, e));
      OnwardTransitive(s, AddEvent(room, e), HandleEvent(s, o, cfg, e));
    }
  }

  lemma MakeRoomOnward(s: State, o: Oracle, e: Event)
    requires s.window.Some? ==> Consistent(s.window.value)
    ensures Onward(s, MakeRoom(s, o, e))
  {
    hide Onward, Finalize, MaybeSchedulePush, ApplyHeals, Consistent, CanAppend;
    SameOnward(s, s);
    if s.window.Some? && !CanAppend(s.window.value, e) {
      CloseAndScheduleOnward(s, o);
      ApplyHealsOnward(MaybeSchedulePush(Finalize(s, o).state, o), o);
      OnwardTransitive(s, MaybeSchedulePush(Finalize(s, o).state, o), MakeRoom(s, o, e));
    }
  }

  lemma AddOnward(s: State, e: Event)
    requires s.window.Some? ==> Consistent(s.window.value) && CanAppend(s.window.value, e)
    ensures Onward(s, AddEvent(s, e))
  {
    hide Onward, Consistent;
    SameOnward(s, AddEvent(s, e));
  }

  lemma SettleOnward(s: State, o: Oracle, cfg: Config)
    requires s.window.Some? ==> Consistent(s.window.value)
    ensures Onward(s, Settle(s, o, cfg))
  {
    hide Onward, Finalize, MaybeSchedulePush, Consistent;
    CloseAndScheduleOnward(s, o);
    SameOnward(s, s.(commitTimer := Some(s.now + cfg.commitWindow)));
  }

  lemma {:induction false} EventsOnward(s: State, o: Oracle, cfg: Config, events: seq<Event>)
    requires s.window.Some? ==> Consistent(s.window.value)
    ensures Onward(s, HandleEvents(s, o, cfg, events))
  {
    hide Onward, HandleEvent, Consistent;
    SameOnward(s, s);
    if events != [] {
      var before := HandleEvents(s, o, cfg, events[..|events| - 1]);
      EventsOnward(s, o, cfg, events[..|events| - 1]);
      EventOnward(before, o, cfg, events[|events| - 1]);
      OnwardTransitive(s, before, HandleEvents(s, o, cfg, events));
    }
  }

  lemma ItemOnward(s: State, o: Oracle, cfg: Config, item: Item)
    requires s.window.Some? ==> Consistent(s.window.value)
    ensures Onward(s, HandleItem(s, o, cfg, item))
  {
    hide Onward, Finalize, RunResync, RunAtomic, ApplyHeals, HandleEvents, StashHeal, AtomicTarget, Consistent;
    match item
    case Attach(req) => SameOnward(s, HandleAttach(s, req));
    case EmptyItem => SameOnward(s, s);
    case LiveItem(events) => EventsOnward(s, o, cfg, events);
    case ResyncItem(req) =>
      if req.heal && s.window.Some? {
        SameOnward(s, s.(heals := StashHeal(s.heals, req)));
      } else if req.heal {
        ResyncOnward(s, o, req, false);
      } else {
        FinalizeOnward(s, o);
        ResyncOnward(Finalize(s, o).state, o, req, Finalize(s, o).retained);
        OnwardTransitive(s, Finalize(s, o).state, ApplyResync(s, o, req));
      }
    case AtomicItem(events, target, message) =>
      var s1 := Tick(s, o(s.tick));
      SameOnward(s, s1);
      if !(Named(AtomicTarget(events, target)) && !o(s.tick).gateOpen) {
        var idle := ApplyHeals(Finalize(s1, o).state, o);
        FinalizeOnward(s1, o);
        ApplyHealsOnward(Finalize(s1, o).state, o);
        AtomicOnward(idle, o, events, target, message);
        OnwardTransitive(s, s1, Finalize(s1, o).state);
        OnwardTransitive(s, Finalize(s1, o).state, idle);
        OnwardTransitive(s, idle, RunAtomic(idle, o, events, target, message));
      }
  }

  lemma ServeDueOnward(s: State, o: Oracle, id: CrId)
    requires s.window.Some? ==> Consistent(s.window.value)
    ensures Onward(s, ServeDue(s, o, id))
  {
    hide Onward, Finalize, MaybeSchedulePush, Consistent, Finish;
    SameOnward(s, s);
    if id !in s.crs {
    } else if Claims(s.window, id) {
      CloseAndScheduleOnward(s, o);
      ClaimedFinalizeForgets(s, o, id);
    } else {
      FinishOnward(s, id, NoOpenWindow, Unclaimed(s.window, s.crs[id].finalizeAt, s.now));
    }
  }

  lemma {:induction false} ServeAllDueOnward(s: State, o: Oracle, due: seq<CrId>)
    requires s.window.Some? ==> Consistent(s.window.value)
    ensures Onward(s, ServeAllDue(s, o, due))
  {
    hide Onward, ServeDue, Consistent;
    SameOnward(s, s);
    if due != [] {
      var before := ServeAllDue(s, o, due[..|due| - 1]);
      ServeAllDueOnward(s, o, due[..|due| - 1]);
      ServeDueOnward(before, o, due[|due| - 1]);
      OnwardTransitive(s, before, ServeAllDue(s, o, due));
    }
  }

  lemma ServiceOnward(s: State, o: Oracle, order: seq<CrId>)
    requires s.window.Some? ==> Consistent(s.window.value)
    ensures Onward(s, Service(s, o, order))
  {
    hide Onward, ServeAllDue, Oldest, Earliest, Consistent, Due;
    if s.crs == map[] {
      SameOnward(s, s.(attachTimer := None));
    } else {
      var attached := AttachWaiting(s, order);
      SameOnward(s, attached);
      hide AttachWaiting;
      var served := ServeAllDue(attached, o, Due(attached.crs, attached.now, order));
      ServeAllDueOnward(attached, o, Due(attached.crs, attached.now, order));
      SameOnward(served, Rearm(served, order));
      OnwardTransitive(s, attached, served);
      OnwardTransitive(s, served, Service(s, o, order));
    }
  }

  // ---------------------------------------------------------------- whole runs

  /** A push timer fires only while it runs, and not before its time. */
  predicate Punctual(s: State, o: Oracle, wake: Wake) {
    wake.PushTimeout? ==> s.pushTimer.Some? && s.pushTimer.value <= Woken(s, o).now
  }

  lemma DispatchOnward(s: State, o: Oracle, cfg: Config, wake: Wake)
    requires (s.window.Some? ==> Consistent(s.window.value)) && TimerExact(s)
    requires wake.PushTimeout? ==> s.pushTimer.Some? && s.pushTimer.value <= s.now
    ensures Onward(s, Dispatch(s, o, cfg, wake))
  {
    hide Onward, HandleItem, Finalize, MaybeSchedulePush, PushPending, Consistent;
    match wake
    case Received(item) => ItemOnward(s, o, cfg, item);
    case CommitTimeout =>
      SameOnward(s, s.(commitTimer := None));
      CloseAndScheduleOnward(s.(commitTimer := None), o);
      OnwardTransitive(s, s.(commitTimer := None), Dispatch(s, o, cfg, wake));
    case PushTimeout =>
      SameOnward(s, s.(pushTimer := None));
      PushOnward(s.(pushTimer := None), o);
      OnwardTransitive(s, s.(pushTimer := None), Dispatch(s, o, cfg, wake));
    case AttachTimeout => SameOnward(s, s.(attachTimer := None));
  }

  lemma StepOnward(s: State, o: Oracle, cfg: Config, wake: Wake, order: seq<CrId>)
    requires (s.window.Some? ==> Consistent(s.window.value)) && TimerExact(s) && Punctual(s, o, wake)
    ensures Onward(s, Step(s, o, cfg, wake, order))
  {
    hide Onward, Dispatch, Service, ApplyHeals, Consistent;
    var woken := Woken(s, o);
    SameOnward(s, woken);
    DispatchOnward(woken, o, cfg, wake);
    var d := Dispatch(woken, o, cfg, wake);
    ServiceOnward(d, o, order);
    ApplyHealsOnward(Service(d, o, order), o);
    OnwardTransitive(s, woken, d);
    OnwardTransitive(s, d, Service(d, o, order));
    OnwardTransitive(s, Service(d, o, order), Step(s, o, cfg, wake, order));
  }

  /** Every wake of the run for a push timeout is one its timer was running for. */
  ghost predicate PunctualRun(repo: Repo, now: int, o: Oracle, cfg: Config, turns: seq<Turn>) {
    forall k :: 0 <= k < |turns| ==> Punctual(Reached(repo, now, o, cfg, turns[..k]), o, turns[k].wake)
  }

  /** In every run whose push timer fires only when it is due: the timer is armed exactly for the
      end of the cooldown, and from any boundary `k` to any later one a push that succeeded came
      at least five seconds after the last one before, and an outcome less than fifteen minutes
      old is not forgotten. */
  lemma {:induction false} RunIsPaced(repo: Repo, now: int, o: Oracle, cfg: Config, turns: seq<Turn>, k: nat)
    requires k <= |turns| && PunctualRun(repo, now, o, cfg, turns)
    ensures var s, r := Reached(repo, now, o, cfg, turns[..k]), Reached(repo, now, o, cfg, turns);
            TimerExact(r) && Dated(r) && Apart(s, r) && Remembers(s, r)
  {
    hide Step, Punctual;
    var n := |turns| - 1;
    if turns == [] {
      assert turns[..k] == turns;
    } else {
      var before := Reached(repo, now, o, cfg, turns[..n]);
      var r := Reached(repo, now, o, cfg, turns);
      PrefixIsPunctual(repo, now, o, cfg, turns);
      RunIsPaced(repo, now, o, cfg, turns[..n], if k <= n then k else n);
      assert Punctual(before, o, turns[n].wake);
      StepOnward(before, o, cfg, turns[n].wake, turns[n].order);
      hide Reached;
      if k <= n {
        assert turns[..n][..k] == turns[..k];
        var s := Reached(repo, now, o, cfg, turns[..k]);
        TimeOnly(s, before, r);
      } else {
        assert turns[..k] == turns;
      }
    }
  }

  lemma TimeOnly(s: State, b: State, r: State)
    requires Apart(s, b) && Remembers(s, b) && Onward(b, r) && Dated(b)
    ensures Apart(s, r) && Remembers(s, r)
  {
  }

  lemma PrefixIsPunctual(repo: Repo, now: int, o: Oracle, cfg: Config, turns: seq<Turn>)
    requires turns != [] && PunctualRun(repo, now, o, cfg, turns)
    ensures PunctualRun(repo, now, o, cfg, turns[..|turns| - 1])
  {
    hide Reached, Punctual;
    var n := |turns| - 1;
    forall k | 0 <= k < n ensures Punctual(Reached(repo, now, o, cfg, turns[..n][..k]), o, turns[..n][k].wake) {
      assert turns[..n][..k] == turns[..k];
    }
  }
}
