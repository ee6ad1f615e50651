/** While the render-fidelity gate is closed the loop takes nothing from it but resyncs
    (internal/git/branch_worker.go, internal/git/resync_flush.go). */
module LoopGate {
  import opened Documents
  import opened OpenWindows
  import opened Writes
  import opened Tightening
  import opened Repository
  import opened Push
  import opened LoopSpec
  import opened LoopTheorems

  ghost predicate AlwaysClosed(o: Oracle) {
    forall n :: !o(n).gateOpen
  }

  /** The write is for a target, or one of its events is. */
  predicate NamesTarget(w: Write) {
    w.target.Some? || exists i :: 0 <= i < |w.events| && Named(w.events[i].target)
  }

  predicate Ungated(s: State) {
    && (s.window.Some? ==> !Named(s.window.value.target))
    && forall i :: 0 <= i < |s.pending| ==> s.pending[i].write.kind.Resync? || !NamesTarget(s.pending[i].write)
  }

  lemma SameUngated(s: State, r: State)
    requires Ungated(s) && (r.window == s.window || r.window.None?) && r.pending == s.pending
    ensures Ungated(r)
  {
  }

  lemma RetainedUngated(s: State, r: State, w: PendingWrite)
    requires Ungated(s) && (r.window == s.window || r.window.None?) && r.pending == s.pending + [w]
    requires w.write.kind.Resync? || !NamesTarget(w.write)
    ensures Ungated(r)
  {
    hide NamesTarget;
  }

  // ------------------------------------------------------------- closing windows

  lemma DropUngated(s: State, cause: Cause)
    requires Ungated(s) && s.window.Some?
    ensures Ungated(DropWindow(s, cause))
  {
    hide Ungated, DropWindow;
    SameUngated(s, DropWindow(s, cause));
  }

  lemma CommitWindowUngated(s: State, o: Oracle, md: Metadata)
    requires Ungated(s) && s.window.Some? && Consistent(s.window.value)
    ensures Ungated(CommitWindow(s, o, md).state)
  {
    hide DropWindow, RetainWindow, SizeOf, CommitOne;
    var w := s.window.value;
    var write := GroupedWrite(w, OrderedEvents(w), md);
    UnnamedWindowWrite(w, md);
    hide Consistent, OrderedEvents, GroupedWrite, NamesTarget;
    var c := CommitOne(s, o, write);
    if c.ok {
      RetainWindowUngated(c, write, SizeOf(write.events));
    } else {
      SameUngated(s, c.state);
      DropUngated(c.state, CommitFailed);
    }
  }

  lemma UnnamedWindowWrite(w: Window, md: Metadata)
    requires Consistent(w) && !Named(w.target)
    ensures !NamesTarget(GroupedWrite(w, OrderedEvents(w), md))
  {
    assert forall i :: 0 <= i < |w.order| ==> w.order[i] in w.order;
  }

  lemma RetainWindowUngated(c: Committing, w: Write, size: nat)
    requires Ungated(c.state) && !NamesTarget(w)
    ensures Ungated(RetainWindow(c, w, size))
  {
    assert !NamesTarget(w.(cr := None));
    if w.cr.None? { } else if c.changed { } else { }
    hide NamesTarget, Ungated;
    RetainedUngated(c.state, RetainWindow(c, w, size), RetainedWindow(c, w, size));
  }

  lemma FinalizeUngated(s: State, o: Oracle)
    requires Ungated(s) && (s.window.Some? ==> Consistent(s.window.value))
    ensures Ungated(Finalize(s, o).state)
  {
    hide CommitWindow, DropWindow, Consistent;
    if s.window.Some? {
      var s1 := Tick(s.(commitTimer := None), o(s.tick));
      var s2 := Tick(s1, o(s1.tick));
      SameUngated(s, s2);
      if o(s1.tick).metadata.None? || s.window.value.order == [] {
        DropUngated(s2, BuildFailed);
      } else {
        CommitWindowUngated(s2, o, o(s1.tick).metadata.value);
      }
    }
  }

  // --------------------------------------------------------------------- pushing

  lemma PushUngated(s: State, o: Oracle)
    requires Ungated(s)
    ensures Ungated(PushPending(s, o))
  {
    hide PushFrom, ResolvePushed, NamesTarget;
    if s.pending != [] {
      var a := o(s.tick);
      var p := PushFrom(s.repo, s.pending, a.attempts, 0);
      PushOnlyTightens(s.repo, s.pending, a.attempts, 0);
      forall i | 0 <= i < |p.writes| ensures p.writes[i].write.kind.Resync? || !NamesTarget(p.writes[i].write) {
        assert TightenedWrite(p.writes[i].write, s.pending[i].write);
        SameNames(p.writes[i].write, s.pending[i].write);
      }
    }
  }

  lemma SameNames(tight: Write, loose: Write)
    requires TightenedWrite(tight, loose)
    ensures NamesTarget(tight) <==> NamesTarget(loose)
    ensures tight.kind == loose.kind
  {
  }

  lemma ScheduleUngated(s: State, o: Oracle)
    requires Ungated(s)
    ensures Ungated(MaybeSchedulePush(s, o))
  {
    hide PushPending, NamesTarget;
    if s.pending != [] && (s.lastPushAt.None? || s.now - s.lastPushAt.value >= PUSH_COOLDOWN) {
      PushUngated(s, o);
    } else {
      SameUngated(s, MaybeSchedulePush(s, o));
    }
  }

  // ------------------------------------------------------------ everything else

  lemma ResyncUngated(s: State, o: Oracle, req: ResyncRequest, closed: bool)
    requires Ungated(s)
    ensures Ungated(RunResync(s, o, req, closed))
  {
    hide Ungated, CommitOne, MaybeSchedulePush;
    var a := o(s.tick);
    SameUngated(s, Tick(s, a));
    if Named(req.target) && a.metadata.Some? {
      var md := a.metadata.value;
      var w := Write(Resync, [], req.desired, req.scope, Some(ResolvedTarget(req.target, md.base, md.mode)), "", None);
      var c := CommitOne(Tick(s, a), o, w);
      SameUngated(s, c.state);
      if c.ok {
        if c.changed {
          RetainedUngated(s, Retain(c.state, PendingWrite(w, req.byteSize, Unborn)), PendingWrite(w, req.byteSize, Unborn));
          ScheduleUngated(Retain(c.state, PendingWrite(w, req.byteSize, Unborn)), o);
        } else {
          ScheduleUngated(c.state, o);
        }
      }
    }
  }

  lemma {:induction false} HealsUngated(s: State, o: Oracle, heals: seq<ResyncRequest>)
    requires Ungated(s)
    ensures Ungated(RunHeals(s, o, heals))
  {
    hide Ungated, RunResync;
    if heals != [] {
      HealsUngated(s, o, heals[..|heals| - 1]);
      ResyncUngated(RunHeals(s, o, heals[..|heals| - 1]), o, heals[|heals| - 1], false);
    }
  }

  lemma ApplyHealsUngated(s: State, o: Oracle)
    requires Ungated(s)
    ensures Ungated(ApplyHeals(s, o))
  {
    hide Ungated, RunHeals;
    if s.window.None? && s.heals != [] {
      SameUngated(s, s.(heals := []));
      HealsUngated(s.(heals := []), o, s.heals);
    }
  }

  lemma {:induction false} UnnamedAtomic(events: seq<Event>, target: TargetKey)
    requires !Named(AtomicTarget(events, target))
    ensures !Named(target) && forall i :: 0 <= i < |events| ==> !Named(events[i].target)
  {
    if events != [] && !Named(target) {
      UnnamedAtomic(events[1..], target);
      assert forall i :: 1 <= i < |events| ==> events[i] == events[1..][i - 1];
    }
  }

  lemma AtomicUngated(s: State, o: Oracle, events: seq<Event>, target: TargetKey, message: string)
    requires Ungated(s) && !Named(AtomicTarget(events, target))
    ensures Ungated(RunAtomic(s, o, events, target, message))
  {
    UnnamedAtomic(events, target);
    hide Ungated, CommitOne, MaybeSchedulePush, SizeOf, AtomicTarget;
    var a := o(s.tick);
    SameUngated(s, Tick(s, a));
    if events != [] && a.metadata.Some? {
      var w := AtomicWrite(events, target, message, a.metadata.value);
      var c := CommitOne(Tick(s, a), o, w);
      SameUngated(s, c.state);
      if c.ok {
        var pw := PendingWrite(w, SizeOf(w.events), Unborn);
        RetainedUngated(s, Retain(c.state, pw), pw);
        ScheduleUngated(Retain(c.state, pw), o);
      }
    }
  }

  lemma CloseAndScheduleUngated(s: State, o: Oracle)
    requires Ungated(s) && (s.window.Some? ==> Consistent(s.window.value))
    ensures Ungated(MaybeSchedulePush(Finalize(s, o).state, o))
  {
    hide Ungated, Finalize, MaybeSchedulePush;
    FinalizeUngated(s, o);
    ScheduleUngated(Finalize(s, o).state, o);
  }

  lemma EventUngated(s: State, o: Oracle, cfg: Config, e: Event)
    requires Ungated(s) && (s.window.Some? ==> Consistent(s.window.value)) && AlwaysClosed(o)
    ensures Ungated(HandleEvent(s, o, cfg, e))
  {
    hide Ungated, MakeRoom, AddEvent, Settle, Consistent;
    var s1 := Tick(s, o(s.tick));
    SameUngated(s, s1);
    if !Named(e.target) {
      var room := MakeRoom(s1, o, e);
      MakeRoomUngated(s1, o, e);
      AddUngated(room, e);
      SettleUngated(AddEvent(room, e), o, cfg);
    }
  }

  lemma MakeRoomUngated(s: State, o: Oracle, e: Event)
    requires Ungated(s) && (s.window.Some? ==> Consistent(s.window.value))
    ensures Ungated(MakeRoom(s, o, e))
  {
    hide Ungated, Finalize, MaybeSchedulePush, ApplyHeals, Consistent, CanAppend;
    if s.window.Some? && !CanAppend(s.window.value, e) {
      CloseAndScheduleUngated(s, o);
      ApplyHealsUngated(MaybeSchedulePush(Finalize(s, o).state, o), o);
    }
  }

  lemma AddUngated(s: State, e: Event)
    requires Ungated(s) && !Named(e.target)
    requires s.window.Some? ==> Consistent(s.window.value) && CanAppend(s.window.value, e)
    ensures Ungated(AddEvent(s, e))
  {
    hide NamesTarget, Consistent;
  }

  lemma SettleUngated(s: State, o: Oracle, cfg: Config)
    requires Ungated(s) && (s.window.Some? ==> Consistent(s.window.value))
    ensures Ungated(Settle(s, o, cfg))
  {
    hide Ungated, Finalize, MaybeSchedulePush, Consistent;
    CloseAndScheduleUngated(s, o);
    SameUngated(s, s.(commitTimer := Some(s.now + cfg.commitWindow)));
  }

  lemma {:induction false} EventsUngated(s: State, o: Oracle, cfg: Config, events: seq<Event>)
    requires Ungated(s) && (s.window.Some? ==> Consistent(s.window.value)) && AlwaysClosed(o)
    ensures Ungated(HandleEvents(s, o, cfg, events))
  {
    hide Ungated, HandleEvent, Consistent, AlwaysClosed;
    if events != [] {
      EventsUngated(s, o, cfg, events[..|events| - 1]);
      EventUngated(HandleEvents(s, o, cfg, events[..|events| - 1]), o, cfg, events[|events| - 1]);
    }
  }

  lemma ItemUngated(s: State, o: Oracle, cfg: Config, item: Item)
    requires Ungated(s) && (s.window.Some? ==> Consistent(s.window.value)) && AlwaysClosed(o)
    ensures Ungated(HandleItem(s, o, cfg, item))
  {
    hide Ungated, Finalize, RunResync, RunAtomic, ApplyHeals, HandleEvents, StashHeal, AtomicTarget, Consistent;
    match item
    case Attach(req) => SameUngated(s, HandleAttach(s, req));
    case EmptyItem =>
    case LiveItem(events) => EventsUngated(s, o, cfg, events);
    case ResyncItem(req) =>
      if req.heal && s.window.Some? {
        SameUngated(s, s.(heals := StashHeal(s.heals, req)));
      } else if req.heal {
        ResyncUngated(s, o, req, false);
      } else {
        FinalizeUngated(s, o);
        ResyncUngated(Finalize(s, o).state, o, req, Finalize(s, o).retained);
      }
    case AtomicItem(events, target, message) =>
      var s1 := Tick(s, o(s.tick));
      SameUngated(s, s1);
      if !Named(AtomicTarget(events, target)) {
        FinalizeUngated(s1, o);
        ApplyHealsUngated(Finalize(s1, o).state, o);
        AtomicUngated(ApplyHeals(Finalize(s1, o).state, o), o, events, target, message);
      }
  }

  lemma {:induction false} ServeAllDueUngated(s: State, o: Oracle, due: seq<CrId>)
    requires Ungated(s) && (s.window.Some? ==> Consistent(s.window.value))
    ensures Ungated(ServeAllDue(s, o, due))
  {
    hide Ungated, ServeDue, Consistent;
    if due != [] {
      ServeAllDueUngated(s, o, due[..|due| - 1]);
      ServeDueUngated(ServeAllDue(s, o, due[..|due| - 1]), o, due[|due| - 1]);
    }
  }

  lemma ServeDueUngated(s: State, o: Oracle, id: CrId)
    requires Ungated(s) && (s.window.Some? ==> Consistent(s.window.value))
    ensures Ungated(ServeDue(s, o, id))
  {
    hide Ungated, Finalize, MaybeSchedulePush, Consistent;
    if id !in s.crs {
    } else if Claims(s.window, id) {
      CloseAndScheduleUngated(s, o);
      ClaimedFinalizeForgets(s, o, id);
    } else {
      SameUngated(s, Overdue(s, id));
    }
  }

  lemma ServiceUngated(s: State, o: Oracle, order: seq<CrId>)
    requires Ungated(s) && (s.window.Some? ==> Consistent(s.window.value))
    ensures Ungated(Service(s, o, order))
  {
    hide ServeAllDue, Oldest, Earliest, Consistent, Due, NamesTarget;
    if s.crs != map[] {
      var attached := AttachWaiting(s, order);
      assert Ungated(attached);
      hide AttachWaiting;
      ServeAllDueUngated(attached, o, Due(attached.crs, attached.now, order));
    }
  }

  // ---------------------------------------------------------------- whole runs

  lemma StepUngated(s: State, o: Oracle, cfg: Config, wake: Wake, order: seq<CrId>)
    requires Ungated(s) && (s.window.Some? ==> Consistent(s.window.value)) && AlwaysClosed(o)
    ensures Ungated(Step(s, o, cfg, wake, order))
  {
    hide Ungated, Dispatch, Service, ApplyHeals, Consistent, AlwaysClosed;
    var woken := Woken(s, o);
    SameUngated(s, woken);
    DispatchUngated(woken, o, cfg, wake);
    var d := Dispatch(woken, o, cfg, wake);
    ServiceUngated(d, o, order);
    ApplyHealsUngated(Service(d, o, order), o);
  }

  lemma DispatchUngated(s: State, o: Oracle, cfg: Config, wake: Wake)
    requires Ungated(s) && (s.window.Some? ==> Consistent(s.window.value)) && AlwaysClosed(o)
    ensures Ungated(Dispatch(s, o, cfg, wake))
  {
    hide Ungated, HandleItem, Finalize, MaybeSchedulePush, PushPending, Consistent;
    match wake
    case Received(item) => ItemUngated(s, o, cfg, item);
    case CommitTimeout =>
      SameUngated(s, s.(commitTimer := None));
      CloseAndScheduleUngated(s.(commitTimer := None), o);
    case PushTimeout =>
      SameUngated(s, s.(pushTimer := None));
      PushUngated(s.(pushTimer := None), o);
    case AttachTimeout => SameUngated(s, s.(attachTimer := None));
  }

  /** In every run in which the gate never opens, no window is ever open for a named target, and
      nothing is retained for one but resyncs. */
  lemma {:induction false} ClosedGateTakesNothing(repo: Repo, now: int, o: Oracle, cfg: Config, turns: seq<Turn>)
    requires AlwaysClosed(o)
    ensures Ungated(Reached(repo, now, o, cfg, turns))
  {
    hide Step, AlwaysClosed, NamesTarget;
    if turns != [] {
      var n := |turns| - 1;
      ClosedGateTakesNothing(repo, now, o, cfg, turns[..n]);
      StepUngated(Reached(repo, now, o, cfg, turns[..n]), o, cfg, turns[n].wake, turns[n].order);
    }
  }
}
