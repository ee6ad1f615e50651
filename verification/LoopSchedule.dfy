/** When the retained queue is left without a push and without a timer
    (internal/git/branch_worker.go, resync_flush.go). */
module LoopSchedule {
  import opened Documents
  import opened OpenWindows
  import opened Writes
  import opened Repository
  import opened Push
  import opened LoopSpec
  import opened LoopTheorems

  /** Something is retained and nothing will push it before the next event. */
  predicate Stranded(s: State) {
    s.pending != [] && s.pushTimer.None?
  }

  /** A queue is stranded exactly when the last thing that happened to it was a failed push or
      the closing of a window that nothing followed up. */
  predicate Marked(s: State) {
    Stranded(s) <==> s.mark != Settled
  }

  /** The push that a mark tells of fails: the worker cannot start it, or no attempt goes through. */
  predicate PushFails(o: Oracle, m: Mark) {
    && m.PushFailed? && m.tick > 0 && m.queue != []
    && var a := o(m.tick - 1);
       !(a.ready && PushFrom(m.repo, m.queue, a.attempts, 0).ok)
  }

  /** Between two states, a mark of a failed push is an old one or tells of a push made there. */
  predicate Progress(s: State, o: Oracle, r: State) {
    && s.tick <= r.tick
    && (r.mark.PushFailed? ==> r.mark == s.mark || (s.tick < r.mark.tick <= r.tick && PushFails(o, r.mark)))
  }

  /** In addition, no window is left closed and unscheduled that was not before. */
  predicate Follows(s: State, o: Oracle, r: State) {
    Progress(s, o, r) && (r.mark.ClosedUnscheduled? ==> s.mark.ClosedUnscheduled?)
  }

  // -------------------------------------------------------- what each step does

  lemma PushMarks(s: State, o: Oracle)
    requires s.pending != []
    ensures Marked(PushPending(s, o)) && !PushPending(s, o).mark.ClosedUnscheduled? && Progress(s, o, PushPending(s, o))
  {
    hide PushFrom, AfterPush;
    var a := o(s.tick);
    var p := PushFrom(s.repo, s.pending, a.attempts, 0);
    assert p.writes != [] by { PushOnlyTightens(s.repo, s.pending, a.attempts, 0); }
    AfterPushMarks(Tick(s, a), p);
  }

  lemma AfterPushMarks(s: State, p: Pushed)
    requires p.writes != []
    ensures var r := AfterPush(s, p);
            && r.tick == s.tick && r.pushTimer.None? && (r.pending == [] <==> p.ok)
            && r.mark == if p.ok then Settled else PushFailed(s.repo, s.pending, s.tick)
  {
    hide ResolvePushed;
  }

  /** Scheduling always follows up. */
  lemma ScheduleMarks(s: State, o: Oracle)
    requires Marked(s) || s.pending != []
    ensures var r := MaybeSchedulePush(s, o);
            && Marked(r) && Progress(s, o, r)
            && (s.pending != [] ==> !r.mark.ClosedUnscheduled?)
            && (s.pending == [] ==> r == s)
  {
    hide PushPending;
    if s.pending != [] && (s.lastPushAt.None? || s.now - s.lastPushAt.value >= PUSH_COOLDOWN) {
      PushMarks(s, o);
    }
  }

  /** Closing a window into the queue marks it, unless a timer is running. */
  predicate Closes(s: State, f: Finalized) {
    && f.state.pushTimer == s.pushTimer && f.state.window.None? && f.state.heals == s.heals && s.tick <= f.state.tick
    && (if f.retained then f.state.pending != [] && f.state.mark == (if s.pushTimer.None? then ClosedUnscheduled else s.mark)
        else f.state.mark == s.mark && f.state.pending == s.pending)
  }

  lemma DropMarks(s: State, cause: Cause)
    requires s.window.Some?
    ensures Closes(s, Finalized(DropWindow(s, cause), false))
  {
  }

  lemma CommitWindowCloses(s: State, o: Oracle, md: Metadata)
    requires s.window.Some? && Consistent(s.window.value)
    ensures Closes(s, CommitWindow(s, o, md))
  {
    hide GroupedWrite, SizeOf, CommitOne, DropWindow, RetainWindow, Consistent;
    var write := GroupedWrite(s.window.value, OrderedEvents(s.window.value), md);
    var c := CommitOne(s, o, write);
    if !c.ok { DropMarks(c.state, CommitFailed); }
  }

  lemma FinalizeCloses(s: State, o: Oracle)
    requires s.window.Some? ==> Consistent(s.window.value)
    ensures Closes(s, Finalize(s, o))
  {
    hide CommitWindow, DropWindow;
    if s.window.Some? {
      var w := s.window.value;
      var gate := o(s.tick);
      var s1 := Tick(s.(commitTimer := None), gate);
      if Named(w.target) && !gate.gateOpen {
        DropMarks(s1, GateClosed);
      } else {
        var build := o(s1.tick);
        var s2 := Tick(s1, build);
        if build.metadata.None? || w.order == [] { DropMarks(s2, BuildFailed); } else { CommitWindowCloses(s2, o, build.metadata.value); }
      }
    }
  }

  /** The window is closed, if there is one, and the queue followed up. */
  lemma CloseAndScheduleMarks(s: State, o: Oracle)
    requires (s.window.Some? ==> Consistent(s.window.value)) && Marked(s)
    ensures var r := MaybeSchedulePush(Finalize(s, o).state, o);
            Marked(r) && Follows(s, o, r)
  {
    hide Finalize, MaybeSchedulePush;
    FinalizeCloses(s, o);
    ScheduleMarks(Finalize(s, o).state, o);
  }

  // ------------------------------------------------- resyncs and atomic requests

  /** What keeps a resync from committing. */
  predicate ResyncFails(s: State, o: Oracle, req: ResyncRequest) {
    var a := o(s.tick);
    || !Named(req.target) || a.metadata.None?
    || !CommitOne(Tick(s, a), o, Write(Resync, [], req.desired, req.scope,
                  Some(ResolvedTarget(req.target, a.metadata.value.base, a.metadata.value.mode)), "", None)).ok
  }

  /** What keeps an atomic request from committing. */
  predicate AtomicFails(s: State, o: Oracle, events: seq<Event>, target: TargetKey, message: string) {
    var a := o(s.tick);
    || events == [] || a.metadata.None?
    || !CommitOne(Tick(s, a), o, AtomicWrite(events, target, message, a.metadata.value)).ok
  }

  /** After a window was closed for it, a resync leaves the queue as the closing left it if and
      only if it fails; a heal that changes nothing leaves it too. */
  lemma ResyncMarks(s: State, o: Oracle, req: ResyncRequest, closed: bool)
    requires Marked(s)
    ensures var r := RunResync(s, o, req, closed);
            && Marked(r) && Follows(s, o, r)
            && (closed && s.mark.ClosedUnscheduled? ==> (r.mark.ClosedUnscheduled? <==> ResyncFails(s, o, req)))
  {
    hide CommitOne, MaybeSchedulePush;
    var a := o(s.tick);
    if Named(req.target) && a.metadata.Some? {
      var md := a.metadata.value;
      var w := Write(Resync, [], req.desired, req.scope, Some(ResolvedTarget(req.target, md.base, md.mode)), "", None);
      var c := CommitOne(Tick(s, a), o, w);
      if c.ok {
        ScheduleMarks(if c.changed then Retain(c.state, PendingWrite(w, req.byteSize, Unborn)) else c.state, o);
      }
    }
  }

  lemma {:induction false} HealsMark(s: State, o: Oracle, heals: seq<ResyncRequest>)
    requires Marked(s)
    ensures var r := RunHeals(s, o, heals); Marked(r) && Follows(s, o, r)
  {
    hide RunResync;
    if heals != [] {
      HealsMark(s, o, heals[..|heals| - 1]);
      ResyncMarks(RunHeals(s, o, heals[..|heals| - 1]), o, heals[|heals| - 1], false);
    }
  }

  lemma ApplyHealsMarks(s: State, o: Oracle)
    requires Marked(s)
    ensures var r := ApplyHeals(s, o); Marked(r) && Follows(s, o, r)
  {
    hide RunHeals;
    if s.window.None? && s.heals != [] { HealsMark(s.(heals := []), o, s.heals); }
  }

  lemma AtomicMarks(s: State, o: Oracle, events: seq<Event>, target: TargetKey, message: string)
    requires Marked(s)
    ensures var r := RunAtomic(s, o, events, target, message);
            && Marked(r) && Progress(s, o, r)
            && (r.mark.ClosedUnscheduled? <==> s.mark.ClosedUnscheduled? && AtomicFails(s, o, events, target, message))
  {
    hide CommitOne, MaybeSchedulePush, AtomicWrite, SizeOf;
    var a := o(s.tick);
    if events != [] && a.metadata.Some? {
      var w := AtomicWrite(events, target, message, a.metadata.value);
      var c := CommitOne(Tick(s, a), o, w);
      if c.ok { ScheduleMarks(Retain(c.state, PendingWrite(w, SizeOf(w.events), Unborn)), o); }
    }
  }

  /** The item closes a window into the queue and then fails, with nothing scheduled between:
      an atomic request, after the parked heals it lets in, or a resync that is not a heal. */
  predicate FailsAfterClosing(s: State, o: Oracle, item: Item)
    requires s.window.Some? ==> Consistent(s.window.value)
  {
    match item
    case AtomicItem(events, target, message) =>
      var gate := o(s.tick);
      var s1 := Tick(s, gate);
      && !(Named(AtomicTarget(events, target)) && !gate.gateOpen)
      && Finalize(s1, o).retained
      && var drained := ApplyHeals(Finalize(s1, o).state, o);
         drained.mark.ClosedUnscheduled? && AtomicFails(drained, o, events, target, message)
    case ResyncItem(req) =>
      && !req.heal && Finalize(s, o).retained
      && Finalize(s, o).state.mark.ClosedUnscheduled? && ResyncFails(Finalize(s, o).state, o, req)
    case _ => false
  }

  /** An item leaves the queue unscheduled after closing a window, if it was not before, if and
      only if it fails after closing it. */
  lemma ItemMarks(s: State, o: Oracle, cfg: Config, item: Item)
    requires (s.window.Some? ==> Consistent(s.window.value)) && Marked(s)
    ensures var r := HandleItem(s, o, cfg, item);
            && Marked(r) && Progress(s, o, r)
            && (r.mark.ClosedUnscheduled? ==> s.mark.ClosedUnscheduled? || FailsAfterClosing(s, o, item))
            && (FailsAfterClosing(s, o, item) ==> r.mark.ClosedUnscheduled?)
  {
    hide Finalize, RunResync, RunAtomic, ApplyHeals, HandleEvents, StashHeal, AtomicTarget, AtomicFails, ResyncFails;
    match item
    case Attach(req) =>
    case EmptyItem =>
    case LiveItem(events) => EventsMark(s, o, cfg, events);
    case ResyncItem(req) =>
      if !(req.heal && s.window.Some?) {
        if req.heal {
          ResyncMarks(s, o, req, false);
        } else {
          FinalizeCloses(s, o);
          var f := Finalize(s, o);
          ResyncMarks(f.state, o, req, f.retained);
        }
      }
    case AtomicItem(events, target, message) =>
      var gate := o(s.tick);
      var s1 := Tick(s, gate);
      if !(Named(AtomicTarget(events, target)) && !gate.gateOpen) {
        FinalizeCloses(s1, o);
        var f := Finalize(s1, o).state;
        ApplyHealsMarks(f, o);
        AtomicMarks(ApplyHeals(f, o), o, events, target, message);
      }
  }

  // --------------------------------------------------------- live events and runs

  lemma EventMarks(s: State, o: Oracle, cfg: Config, e: Event)
    requires (s.window.Some? ==> Consistent(s.window.value)) && Marked(s)
    ensures var r := HandleEvent(s, o, cfg, e); Marked(r) && Follows(s, o, r)
  {
    hide MakeRoom, AddEvent, Settle, Consistent, PushFails;
    var s1 := Tick(s, o(s.tick));
    if !(Named(e.target) && !o(s.tick).gateOpen) {
      MakeRoomMarks(s1, o, e);
      var room := MakeRoom(s1, o, e);
      AddMarks(room, e);
      SettleMarks(AddEvent(room, e), o, cfg);
    }
  }

  lemma AddMarks(s: State, e: Event)
    requires s.window.Some? ==> Consistent(s.window.value) && CanAppend(s.window.value, e)
    ensures var r := AddEvent(s, e);
            r.mark == s.mark && r.pending == s.pending && r.pushTimer == s.pushTimer && r.tick == s.tick
  {
    hide Consistent;
  }

  lemma SettleMarks(s: State, o: Oracle, cfg: Config)
    requires (s.window.Some? ==> Consistent(s.window.value)) && Marked(s)
    ensures var r := Settle(s, o, cfg); Marked(r) && Follows(s, o, r)
  {
    hide Finalize, MaybeSchedulePush, Consistent, PushFails;
    CloseAndScheduleMarks(s, o);
  }

  lemma MakeRoomMarks(s: State, o: Oracle, e: Event)
    requires (s.window.Some? ==> Consistent(s.window.value)) && Marked(s)
    ensures var r := MakeRoom(s, o, e); Marked(r) && Follows(s, o, r)
  {
    hide Finalize, MaybeSchedulePush, ApplyHeals, CanAppend, Consistent;
    if s.window.Some? && !CanAppend(s.window.value, e) {
      CloseAndScheduleMarks(s, o);
      ApplyHealsMarks(MaybeSchedulePush(Finalize(s, o).state, o), o);
    }
  }

  lemma {:induction false} EventsMark(s: State, o: Oracle, cfg: Config, events: seq<Event>)
    requires (s.window.Some? ==> Consistent(s.window.value)) && Marked(s)
    ensures var r := HandleEvents(s, o, cfg, events); Marked(r) && Follows(s, o, r)
  {
    hide HandleEvent, Consistent;
    if events != [] {
      EventsMark(s, o, cfg, events[..|events| - 1]);
      EventMarks(HandleEvents(s, o, cfg, events[..|events| - 1]), o, cfg, events[|events| - 1]);
    }
  }

  lemma ServeDueMarks(s: State, o: Oracle, id: CrId)
    requires (s.window.Some? ==> Consistent(s.window.value)) && Marked(s)
    ensures var r := ServeDue(s, o, id); Marked(r) && Follows(s, o, r)
  {
    hide Finalize, MaybeSchedulePush, Consistent;
    CloseAndScheduleMarks(s, o);
  }

  lemma {:induction false} ServeAllDueMarks(s: State, o: Oracle, due: seq<CrId>)
    requires (s.window.Some? ==> Consistent(s.window.value)) && Marked(s)
    ensures var r := ServeAllDue(s, o, due); Marked(r) && Follows(s, o, r)
  {
    hide ServeDue, Consistent;
    if due != [] {
      ServeAllDueMarks(s, o, due[..|due| - 1]);
      ServeDueMarks(ServeAllDue(s, o, due[..|due| - 1]), o, due[|due| - 1]);
    }
  }

  /** The wake is an item that closes a window and then fails. */
  predicate StrandingWake(s: State, o: Oracle, wake: Wake)
    requires s.window.Some? ==> Consistent(s.window.value)
  {
    wake.Received? && FailsAfterClosing(Woken(s, o), o, wake.item)
  }

  lemma DispatchMarks(s: State, o: Oracle, cfg: Config, wake: Wake)
    requires (s.window.Some? ==> Consistent(s.window.value)) && Marked(s)
    ensures var r := Dispatch(s, o, cfg, wake);
            && Marked(r) && Progress(s, o, r)
            && (r.mark.ClosedUnscheduled? ==>
                  s.mark.ClosedUnscheduled? || (wake.Received? && FailsAfterClosing(s, o, wake.item)))
  {
    hide HandleItem, Finalize, MaybeSchedulePush, PushPending, FailsAfterClosing, Consistent;
    match wake
    case Received(item) => ItemMarks(s, o, cfg, item);
    case CommitTimeout => CloseAndScheduleMarks(s.(commitTimer := None), o);
    case PushTimeout =>
      if s.pending != [] { PushMarks(s.(pushTimer := None), o); } else { IdlePush(s.(pushTimer := None), o); }
    case AttachTimeout =>
  }

  lemma ServiceMarks(s: State, o: Oracle, order: seq<CrId>)
    requires (s.window.Some? ==> Consistent(s.window.value)) && Marked(s)
    ensures var r := Service(s, o, order); Marked(r) && Follows(s, o, r)
  {
    hide ServeAllDue, Due, Oldest, Earliest, Consistent;
    if s.crs != map[] {
      var attached := AttachWaiting(s, order);
      ServeAllDueMarks(attached, o, Due(attached.crs, attached.now, order));
    }
  }

  /** One iteration leaves a closed window's commit unscheduled only if it was so before, or the
      iteration closed it and failed. */
  lemma StepMarks(s: State, o: Oracle, cfg: Config, wake: Wake, order: seq<CrId>)
    requires (s.window.Some? ==> Consistent(s.window.value)) && Marked(s)
    ensures var r := Step(s, o, cfg, wake, order);
            Marked(r) && Progress(s, o, r) && (r.mark.ClosedUnscheduled? ==> s.mark.ClosedUnscheduled? || StrandingWake(s, o, wake))
  {
    hide Dispatch, Service, ApplyHeals, FailsAfterClosing, Consistent;
    var woken := Woken(s, o);
    DispatchMarks(woken, o, cfg, wake);
    var d := Dispatch(woken, o, cfg, wake);
    ServiceMarks(d, o, order);
    ApplyHealsMarks(Service(d, o, order), o);
  }

  lemma IdlePush(s: State, o: Oracle)
    requires s.pending == []
    ensures PushPending(s, o) == s.(pushTimer := None)
  {
  }

  /** A closed window's commit has been waiting, unscheduled, since the turn `k` that closed the
      window and then failed. */
  predicate WaitingSince(repo: Repo, now: int, o: Oracle, cfg: Config, turns: seq<Turn>, k: int) {
    && 0 <= k < |turns|
    && StrandingWake(Reached(repo, now, o, cfg, turns[..k]), o, turns[k].wake)
    && forall n :: k < n <= |turns| ==> Reached(repo, now, o, cfg, turns[..n]).mark.ClosedUnscheduled?
  }

  /** The last push failed, in the turn `k`, with nothing scheduled since. */
  predicate FailingSince(repo: Repo, now: int, o: Oracle, cfg: Config, turns: seq<Turn>, k: int) {
    && 0 <= k < |turns|
    && var before, after := Reached(repo, now, o, cfg, turns[..k]), Reached(repo, now, o, cfg, turns[..k + 1]);
       && PushFails(o, after.mark) && before.tick < after.mark.tick <= after.tick
       && forall n :: k < n <= |turns| ==> Reached(repo, now, o, cfg, turns[..n]).mark == after.mark
  }

  /** In every run, at every loop boundary: something is retained with no push timer running if
      and only if a push failed in some turn, or an atomic request or a resync closed a window
      in some turn and then failed, with nothing scheduled since. */
  lemma StrandedExactly(repo: Repo, now: int, o: Oracle, cfg: Config, turns: seq<Turn>)
    ensures var s := Reached(repo, now, o, cfg, turns);
            Stranded(s) <==>
            || (exists k :: FailingSince(repo, now, o, cfg, turns, k))
            || (exists k :: WaitingSince(repo, now, o, cfg, turns, k))
  {
    hide Reached, FailingSince, WaitingSince;
    MarksAreTrue(repo, now, o, cfg, turns);
  }

  lemma {:induction false} MarksAreTrue(repo: Repo, now: int, o: Oracle, cfg: Config, turns: seq<Turn>)
    ensures var s := Reached(repo, now, o, cfg, turns);
            && Marked(s)
            && (s.mark.PushFailed? <==> exists k :: FailingSince(repo, now, o, cfg, turns, k))
            && (s.mark.ClosedUnscheduled? <==> exists k :: WaitingSince(repo, now, o, cfg, turns, k))
  {
    hide Step, StrandingWake, PushFails;
    assert turns[..|turns|] == turns;
    MarkNamesTurn(repo, now, o, cfg, turns);
    if turns != [] {
      var n := |turns| - 1;
      var t := turns[n];
      MarksAreTrue(repo, now, o, cfg, turns[..n]);
      var before := Reached(repo, now, o, cfg, turns[..n]);
      StepMarks(before, o, cfg, t.wake, t.order);
      var s := Reached(repo, now, o, cfg, turns);
      if s.mark.ClosedUnscheduled? {
        WaitingContinues(repo, now, o, cfg, turns);
      } else if s.mark.PushFailed? {
        FailingContinues(repo, now, o, cfg, turns);
      }
    }
  }

  lemma MarkNamesTurn(repo: Repo, now: int, o: Oracle, cfg: Config, turns: seq<Turn>)
    ensures var s := Reached(repo, now, o, cfg, turns);
            && ((exists k :: FailingSince(repo, now, o, cfg, turns, k)) ==> s.mark.PushFailed?)
            && ((exists k :: WaitingSince(repo, now, o, cfg, turns, k)) ==> s.mark.ClosedUnscheduled?)
  {
    hide Reached, PushFrom;
    assert turns[..|turns|] == turns;
  }

  lemma WaitingContinues(repo: Repo, now: int, o: Oracle, cfg: Config, turns: seq<Turn>)
    requires turns != [] && Reached(repo, now, o, cfg, turns).mark.ClosedUnscheduled?
    requires var n := |turns| - 1;
             var before := Reached(repo, now, o, cfg, turns[..n]);
             || StrandingWake(before, o, turns[n].wake)
             || (before.mark.ClosedUnscheduled? && exists k :: WaitingSince(repo, now, o, cfg, turns[..n], k))
    ensures exists k :: WaitingSince(repo, now, o, cfg, turns, k)
  {
    hide Reached, StrandingWake;
    var n := |turns| - 1;
    assert turns[..|turns|] == turns;
    if StrandingWake(Reached(repo, now, o, cfg, turns[..n]), o, turns[n].wake) {
      assert WaitingSince(repo, now, o, cfg, turns, n);
    } else {
      var k :| WaitingSince(repo, now, o, cfg, turns[..n], k);
      Prefixes(turns, n);
      assert WaitingSince(repo, now, o, cfg, turns, k);
    }
  }

  lemma FailingContinues(repo: Repo, now: int, o: Oracle, cfg: Config, turns: seq<Turn>)
    requires turns != [] && Reached(repo, now, o, cfg, turns).mark.PushFailed?
    requires var n := |turns| - 1;
             var before, s := Reached(repo, now, o, cfg, turns[..n]), Reached(repo, now, o, cfg, turns);
             || (s.mark == before.mark && exists k :: FailingSince(repo, now, o, cfg, turns[..n], k))
             || (before.tick < s.mark.tick <= s.tick && PushFails(o, s.mark))
    ensures exists k :: FailingSince(repo, now, o, cfg, turns, k)
  {
    hide Reached, PushFails;
    var n := |turns| - 1;
    assert turns[..|turns|] == turns;
    var before, s := Reached(repo, now, o, cfg, turns[..n]), Reached(repo, now, o, cfg, turns);
    if before.tick < s.mark.tick <= s.tick && PushFails(o, s.mark) {
      assert FailingSince(repo, now, o, cfg, turns, n);
    } else {
      var k :| FailingSince(repo, now, o, cfg, turns[..n], k);
      Prefixes(turns, n);
      assert turns[..n][..n] == turns[..n];
      assert FailingSince(repo, now, o, cfg, turns, k);
    }
  }

  lemma Prefixes(turns: seq<Turn>, n: nat)
    requires n <= |turns|
    ensures forall m :: 0 <= m <= n ==> turns[..n][..m] == turns[..m]
  {
  }
}
