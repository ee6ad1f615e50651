/** Safety of whole runs of the branch worker. */
module LoopTheorems {
  import opened Documents
  import opened OpenWindows
  import opened Writes
  import opened Repository
  import opened Push
  import opened LoopSpec
  import opened LoopInvariants
  import opened LoopRequests

  // ---------------------------------------------------------- servicing pass

  /** The order in which a map is ranged over reaches every key. */
  ghost predicate Covers(order: seq<CrId>, crs: map<CrId, PendingCr>) {
    forall id :: id in crs ==> id in order
  }

  predicate Eligible(crs: map<CrId, PendingCr>, w: Window, id: CrId) {
    id in crs && !crs[id].attached && MatchesWindow(crs[id].request, w)
  }

  /** The chosen request is eligible and no eligible one has an earlier deadline; none is
      chosen only when none is eligible. */
  lemma {:induction false} OldestIsEarliestEligible(crs: map<CrId, PendingCr>, w: Window, order: seq<CrId>)
    ensures var best := Oldest(crs, w, order);
            && (best.Some? ==> Eligible(crs, w, best.value) && best.value in order)
            && (forall id :: id in order && Eligible(crs, w, id) ==>
                  best.Some? && crs[best.value].finalizeAt <= crs[id].finalizeAt)
  {
    if order != [] {
      var rest := order[..|order| - 1];
      OldestIsEarliestEligible(crs, w, rest);
      assert forall id :: id in order <==> id in rest || id == order[|order| - 1];
    }
  }

  lemma AttachWaitingKeepsRequests(s: State, order: seq<CrId>)
    requires Requests(s)
    ensures Requests(AttachWaiting(s, order))
  {
    hide RiderOk, TrueOutcome;
    if s.window.None? || s.window.value.cr.Some? {
    } else {
      var best := Oldest(s.crs, s.window.value, order);
      OldestIsEarliestEligible(s.crs, s.window.value, order);
      if best.None? || best.value !in s.crs {
      } else if !s.resent {
        var r := AttachWaiting(s, order);
        assert r.crs.Keys == s.crs.Keys;
        assert DeskOk(r.window, r.crs, r.requests);
        QueueSurvives(s, r);
      }
    }
  }

  lemma AttachWaitingSound(s: State, cfg: Config, order: seq<CrId>)
    requires Sound(s) && Boundary(s, cfg)
    ensures Sound(AttachWaiting(s, order)) && Boundary(AttachWaiting(s, order), cfg)
  {
    AttachWaitingLedger(s, cfg, order);
    AttachWaitingKeepsRequests(s, order);
    hide Ledger, Requests, RepoSound, Oldest;
    if s.window.None? || s.window.value.cr.Some? {
    } else if Oldest(s.crs, s.window.value, order).None? || Oldest(s.crs, s.window.value, order).value !in s.crs {
    } else {
    }
  }

  lemma ServeDueSound(s: State, o: Oracle, cfg: Config, id: CrId)
    requires Sound(s) && Boundary(s, cfg)
    ensures Sound(ServeDue(s, o, id)) && Boundary(ServeDue(s, o, id), cfg)
  {
    ServeDueLedger(s, o, cfg, id);
    hide Requests, RepoSound, Finalize, MaybeSchedulePush, QueueLedger;
    if id !in s.crs {
    } else if Claims(s.window, id) {
      FinalizeSound(s, o);
      MaybeSchedulePushSound(Finalize(s, o).state, o);
      ClaimedFinalizeForgets(s, o, id);
    } else {
      ResolveKeepsRequests(s, id, NoOpenWindow);
    }
  }

  lemma {:induction false} ServeAllDueSound(s: State, o: Oracle, cfg: Config, due: seq<CrId>)
    requires Sound(s) && Boundary(s, cfg)
    ensures Sound(ServeAllDue(s, o, due)) && Boundary(ServeAllDue(s, o, due), cfg)
  {
    hide ServeDue, RepoSound, Requests;
    if due != [] {
      ServeAllDueSound(s, o, cfg, due[..|due| - 1]);
      ServeDueSound(ServeAllDue(s, o, due[..|due| - 1]), o, cfg, due[|due| - 1]);
    }
  }

  // ------------------------------------------------- requests only leave a desk

  /** Every request still on the desk was there before, with the same deadline. */
  predicate Fewer(before: map<CrId, PendingCr>, after: map<CrId, PendingCr>) {
    forall id :: id in after ==> id in before && after[id].finalizeAt == before[id].finalizeAt
  }

  lemma FinalizeOnlyForgets(s: State, o: Oracle)
    requires s.window.Some? ==> Consistent(s.window.value)
    ensures Fewer(s.crs, Finalize(s, o).state.crs)
    ensures s.window.Some? && s.window.value.cr.Some? ==> s.window.value.cr.value !in Finalize(s, o).state.crs
  {
    hide Consistent, OrderedEvents, CommitWindow, DropWindow;
    if s.window.Some? {
      var w := s.window.value;
      var gate := o(s.tick);
      var s1 := Tick(s.(commitTimer := None), gate);
      if Named(w.target) && !gate.gateOpen {
        DropOnlyForgets(s1, GateClosed);
      } else {
        var build := o(s1.tick);
        var s2 := Tick(s1, build);
        if build.metadata.None? || w.order == [] {
          DropOnlyForgets(s2, BuildFailed);
        } else {
          CommitWindowOnlyForgets(s2, o, build.metadata.value);
        }
      }
    }
  }

  lemma DropOnlyForgets(s: State, cause: Cause)
    requires s.window.Some?
    ensures Fewer(s.crs, DropWindow(s, cause).crs)
    ensures s.window.value.cr.Some? ==> s.window.value.cr.value !in DropWindow(s, cause).crs
  {
    hide DropWindow;
    DropForgetsClaim(s, cause);
  }

  lemma CommitWindowOnlyForgets(s: State, o: Oracle, md: Metadata)
    requires s.window.Some? && Consistent(s.window.value)
    ensures Fewer(s.crs, CommitWindow(s, o, md).state.crs)
    ensures s.window.value.cr.Some? ==> s.window.value.cr.value !in CommitWindow(s, o, md).state.crs
  {
    hide Consistent, DropWindow, RetainWindow;
    var write := GroupedWrite(s.window.value, OrderedEvents(s.window.value), md);
    var c := CommitOne(s, o, write);
    if !c.ok {
      DropOnlyForgets(c.state, CommitFailed);
    } else {
      RetainOnlyForgets(c, write, SizeOf(write.events));
    }
  }

  lemma RetainOnlyForgets(c: Committing, w: Write, size: nat)
    ensures Fewer(c.state.crs, RetainWindow(c, w, size).crs)
    ensures w.cr.Some? ==> w.cr.value !in RetainWindow(c, w, size).crs
  {
    if w.cr.None? { } else if c.changed { } else { }
  }

  lemma PushOnlyForgets(s: State, o: Oracle)
    ensures Fewer(s.crs, PushPending(s, o).crs)
  {
    hide PushFrom, ResolvePushed;
    if s.pending == [] {
    } else {
      var a := o(s.tick);
      if !a.ready {
      } else {
        var p := PushFrom(s.repo, s.pending, a.attempts, 0);
        ResolvePushedOutcomes(Tick(s, a).(repo := p.repo, pending := p.writes, pushTimer := None), p.writes);
        if p.ok { } else { }
      }
    }
  }

  lemma ScheduleOnlyForgets(s: State, o: Oracle)
    ensures Fewer(s.crs, MaybeSchedulePush(s, o).crs)
  {
    hide PushPending;
    PushOnlyForgets(s, o);
    if s.pending == [] {
    } else if s.lastPushAt.None? || s.now - s.lastPushAt.value >= PUSH_COOLDOWN {
    } else if s.pushTimer.None? { } else { }
  }

  /** A window it claimed always settles a request on finalize: the fallback resolution
      that follows a claimed finalize is never reached. */
  lemma ClaimedFinalizeForgets(s: State, o: Oracle, id: CrId)
    requires s.window.Some? ==> Consistent(s.window.value)
    requires Claims(s.window, id)
    ensures id !in MaybeSchedulePush(Finalize(s, o).state, o).crs
  {
    hide Finalize, MaybeSchedulePush;
    FinalizeOnlyForgets(s, o);
    ScheduleOnlyForgets(Finalize(s, o).state, o);
  }

  lemma ServeDueForgets(s: State, o: Oracle, id: CrId)
    requires s.window.Some? ==> Consistent(s.window.value)
    ensures Fewer(s.crs, ServeDue(s, o, id).crs) && id !in ServeDue(s, o, id).crs
  {
    hide Finalize, MaybeSchedulePush, Consistent;
    if id !in s.crs {
    } else if Claims(s.window, id) {
      FinalizeOnlyForgets(s, o);
      ScheduleOnlyForgets(Finalize(s, o).state, o);
      ClaimedFinalizeForgets(s, o, id);
    } else {
    }
  }

  lemma {:induction false} ServeAllDueForgets(s: State, o: Oracle, due: seq<CrId>)
    requires s.window.Some? ==> Consistent(s.window.value)
    ensures Fewer(s.crs, ServeAllDue(s, o, due).crs)
    ensures forall id :: id in due ==> id !in ServeAllDue(s, o, due).crs
  {
    hide ServeDue, Consistent;
    if due != [] {
      var rest := due[..|due| - 1];
      ServeAllDueForgets(s, o, rest);
      ServeDueForgets(ServeAllDue(s, o, rest), o, due[|due| - 1]);
      assert forall id :: id in due ==> id in rest || id == due[|due| - 1];
    }
  }

  lemma {:induction false} DueIsComplete(crs: map<CrId, PendingCr>, now: int, order: seq<CrId>)
    ensures forall id :: id in order && id in crs && crs[id].finalizeAt <= now ==> id in Due(crs, now, order)
  {
    if order != [] {
      var rest := order[..|order| - 1];
      DueIsComplete(crs, now, rest);
      assert forall id :: id in order ==> id in rest || id == order[|order| - 1];
    }
  }

  lemma {:induction false} EarliestIsMinimum(crs: map<CrId, PendingCr>, order: seq<CrId>)
    ensures var e := Earliest(crs, order);
            && (e.Some? ==> exists id :: id in order && id in crs && crs[id].finalizeAt == e.value)
            && (forall id :: id in order && id in crs ==> e.Some? && e.value <= crs[id].finalizeAt)
  {
    if order != [] {
      var rest, last := order[..|order| - 1], order[|order| - 1];
      EarliestIsMinimum(crs, rest);
      assert forall id :: id in order <==> id in rest || id == last;
      var e := Earliest(crs, order);
      if e.Some? && (last !in crs || e.value != crs[last].finalizeAt) {
        var id :| id in rest && id in crs && crs[id].finalizeAt == e.value;
        assert id in order;
      }
    }
  }

  /** No pending request has an earlier deadline. */
  predicate IsEarliest(crs: map<CrId, PendingCr>, id: CrId)
    requires id in crs
  {
    forall k :: k in crs ==> crs[id].finalizeAt <= crs[k].finalizeAt
  }

  /** After a service pass no pending request was overdue when the pass began, and the timer
      is armed for the earliest deadline, or at once when that has passed meanwhile, or off
      when nothing is pending. */
  lemma ServiceLeavesNothingOverdue(s: State, o: Oracle, order: seq<CrId>)
    requires s.window.Some? ==> Consistent(s.window.value)
    requires Covers(order, s.crs)
    ensures var r := Service(s, o, order);
            && (forall id :: id in r.crs ==> r.crs[id].finalizeAt > s.now)
            && (r.crs == map[] <==> r.attachTimer.None?)
            && (r.attachTimer.Some? ==>
                  exists id :: id in r.crs && IsEarliest(r.crs, id)
                               && r.attachTimer.value == if r.crs[id].finalizeAt < r.now then r.now else r.crs[id].finalizeAt)
  {
    hide Consistent, ServeAllDue, AttachWaiting, Oldest;
    if s.crs == map[] {
    } else {
      var attached := AttachWaiting(s, order);
      AttachKeepsDeadlines(s, order);
      var due := Due(attached.crs, attached.now, order);
      DueIsComplete(attached.crs, attached.now, order);
      ServeAllDueForgets(attached, o, due);
      var served := ServeAllDue(attached, o, due);
      EarliestIsMinimum(served.crs, order);
      assert forall id :: id in served.crs ==> id in order && served.crs[id].finalizeAt > s.now;
      if served.crs != map[] {
        var k :| k in served.crs;
        var id :| id in order && id in served.crs && served.crs[id].finalizeAt == Earliest(served.crs, order).value;
        assert IsEarliest(served.crs, id);
      }
    }
  }

  lemma AttachKeepsDeadlines(s: State, order: seq<CrId>)
    ensures Fewer(s.crs, AttachWaiting(s, order).crs) && AttachWaiting(s, order).now == s.now
  {
    hide Oldest;
    if s.window.None? || s.window.value.cr.Some? {
    } else if Oldest(s.crs, s.window.value, order).None? || Oldest(s.crs, s.window.value, order).value !in s.crs {
    } else {
    }
  }

  // ---------------------------------------------------------------- whole runs

  lemma ServiceSound(s: State, o: Oracle, cfg: Config, order: seq<CrId>)
    requires Sound(s) && Boundary(s, cfg)
    ensures Sound(Service(s, o, order)) && Boundary(Service(s, o, order), cfg)
  {
    ServiceLedger(s, o, cfg, order);
    hide Ledger, Requests, RepoSound, AttachWaiting, ServeAllDue, Due, Earliest;
    if s.crs == map[] {
      RepoStepKeeps(s, Service(s, o, order));
    } else {
      AttachWaitingSound(s, cfg, order);
      var attached := AttachWaiting(s, order);
      var due := Due(attached.crs, attached.now, order);
      ServeAllDueSound(attached, o, cfg, due);
      RepoStepKeeps(ServeAllDue(attached, o, due), Service(s, o, order));
    }
  }

  lemma DispatchSound(s: State, o: Oracle, cfg: Config, wake: Wake)
    requires Sound(s)
    ensures Sound(Dispatch(s, o, cfg, wake))
  {
    hide RepoSound, Requests, Finalize, MaybeSchedulePush, PushPending, HandleItem;
    match wake
    case Received(item) => HandleItemSound(s, o, cfg, item);
    case CommitTimeout =>
      RepoStepKeeps(s, s.(commitTimer := None));
      FinalizeSound(s.(commitTimer := None), o);
      MaybeSchedulePushSound(Finalize(s.(commitTimer := None), o).state, o);
    case PushTimeout =>
      RepoStepKeeps(s, s.(pushTimer := None));
      PushPendingSound(s.(pushTimer := None), o);
    case AttachTimeout => RepoStepKeeps(s, s.(attachTimer := None));
  }

  /** One iteration of the loop keeps everything. */
  lemma StepSound(s: State, o: Oracle, cfg: Config, wake: Wake, order: seq<CrId>)
    requires Sound(s) && Boundary(s, cfg)
    ensures Sound(Step(s, o, cfg, wake, order)) && Boundary(Step(s, o, cfg, wake, order), cfg)
  {
    hide RepoSound, Requests, Dispatch, Service, ApplyHeals;
    var woken := Woken(s, o);
    RepoStepKeeps(s, woken);
    DispatchSound(woken, o, cfg, wake);
    DispatchLedger(woken, o, cfg, wake);
    var d := Dispatch(woken, o, cfg, wake);
    ServiceSound(d, o, cfg, order);
    ApplyHealsSound(Service(d, o, order), o);
    ApplyHealsLedger(Service(d, o, order), o);
  }

  datatype Turn = Turn(wake: Wake, order: seq<CrId>)

  function Run(s: State, o: Oracle, cfg: Config, turns: seq<Turn>): (r: State)
    requires s.window.Some? ==> Consistent(s.window.value)
    ensures r.window.Some? ==> Consistent(r.window.value)
  {
    if turns == [] then s
    else
      var t := turns[|turns| - 1];
      Step(Run(s, o, cfg, turns[..|turns| - 1]), o, cfg, t.wake, t.order)
  }

  lemma {:induction false} RunSound(s: State, o: Oracle, cfg: Config, turns: seq<Turn>)
    requires Sound(s) && Boundary(s, cfg)
    ensures Sound(Run(s, o, cfg, turns)) && Boundary(Run(s, o, cfg, turns), cfg)
  {
    hide RepoSound, Requests, Step;
    if turns != [] {
      RunSound(s, o, cfg, turns[..|turns| - 1]);
      var t := turns[|turns| - 1];
      StepSound(Run(s, o, cfg, turns[..|turns| - 1]), o, cfg, t.wake, t.order);
    }
  }

  /** A worker that has just been started over a repository. */
  ghost predicate Fresh(r: Repo) {
    HistoryKept(r) && !r.aborted && !r.lost && !r.clobbered
  }

  function Reached(repo: Repo, now: int, o: Oracle, cfg: Config, turns: seq<Turn>): (r: State)
    ensures r.window.Some? ==> Consistent(r.window.value)
  {
    Run(InitialState(repo, now), o, cfg, turns)
  }

  lemma ReachedSound(repo: Repo, now: int, o: Oracle, cfg: Config, turns: seq<Turn>)
    requires Fresh(repo)
    ensures Sound(Reached(repo, now, o, cfg, turns)) && Boundary(Reached(repo, now, o, cfg, turns), cfg)
  {
    RunSound(InitialState(repo, now), o, cfg, turns);
  }

  /** In every run in which no riding request is registered again, no push succeeds out of an
      aborted replay and no push replaces a foreign branch: a request reported Committed
      carries the hash of a commit that is on the remote branch and was made from exactly the
      events, author, target and message of that request's window. */
  lemma CommittedIsTrue(repo: Repo, now: int, o: Oracle, cfg: Config, turns: seq<Turn>, id: CrId)
    requires Fresh(repo)
    requires var s := Reached(repo, now, o, cfg, turns);
             && !s.resent && !s.repo.lost && !s.repo.clobbered
             && id in s.outcomes && s.outcomes[id].outcome.Committed?
    ensures var s := Reached(repo, now, o, cfg, turns);
            var sha := s.outcomes[id].outcome.sha;
            && sha.Commit? && Within(sha, Tip(s.repo.refs, s.repo.target))
            && sha.made.Mirror?
            && id in s.requests && MatchesWrite(s.requests[id], sha.made.write)
            && id in s.claims && sha.made.write.events == s.claims[id].events
  {
    hide Reached;
    ReachedSound(repo, now, o, cfg, turns);
    var s := Reached(repo, now, o, cfg, turns);
    assert TrueOutcome(id, s.outcomes[id].outcome.sha, s.requests, s.claims, s.repo);
  }

  /** In every run in which no riding request is registered again, an id is in at most one of
      waiting, attached, riding one write, resolved; the attached one is exactly the one the
      open window claims, and the window then carries its message for its author and target. */
  lemma RequestIsInOnePlace(repo: Repo, now: int, o: Oracle, cfg: Config, turns: seq<Turn>, id: CrId)
    requires Fresh(repo) && !Reached(repo, now, o, cfg, turns).resent
    ensures var s := Reached(repo, now, o, cfg, turns);
            && !(id in s.crs && id in s.outcomes)
            && !(id in s.crs && Rides(s.pending, id))
            && !(id in s.outcomes && Rides(s.pending, id))
            && (forall i, j :: 0 <= i < j < |s.pending| && s.pending[i].write.cr == Some(id) ==> s.pending[j].write.cr != Some(id))
            && ((id in s.crs && s.crs[id].attached) <==> Claims(s.window, id))
            && (Claims(s.window, id) ==>
                  MatchesWindow(s.crs[id].request, s.window.value) && s.window.value.message == s.crs[id].request.message)
  {
    hide Reached;
    ReachedSound(repo, now, o, cfg, turns);
    hide RepoSound, Truthful, Ledger;
  }

  /** In every run: a retained request rides a write of its own author, target and named-actor
      class, under its own message. */
  lemma RiderIsOwner(repo: Repo, now: int, o: Oracle, cfg: Config, turns: seq<Turn>, i: int)
    requires Fresh(repo)
    requires var s := Reached(repo, now, o, cfg, turns);
             !s.resent && 0 <= i < |s.pending| && s.pending[i].write.cr.Some?
    ensures var s := Reached(repo, now, o, cfg, turns);
            var id := s.pending[i].write.cr.value;
            id in s.requests && MatchesWrite(s.requests[id], s.pending[i].write)
  {
    hide Reached;
    ReachedSound(repo, now, o, cfg, turns);
    var s := Reached(repo, now, o, cfg, turns);
    assert RiderOk(s.pending[i].write, s.pending[i].write.cr.value, s.crs, s.outcomes, s.requests, s.claims);
  }

  /** In every run, at every loop boundary: the byte counters are exact, an open window keeps
      the total below the cap and has its silence timer running, and every window and every
      grouped write has one author, one attribution and one target. */
  lemma BooksAreExact(repo: Repo, now: int, o: Oracle, cfg: Config, turns: seq<Turn>)
    requires Fresh(repo)
    ensures var s := Reached(repo, now, o, cfg, turns);
            && s.pendingBytes == RetainedSize(s.pending)
            && (s.window.None? ==> s.windowBytes == 0)
            && (s.window.Some? ==>
                  && SizeOf(OrderedEvents(s.window.value)) <= s.windowBytes
                  && TotalRetainedBytes(s) < cfg.maxBytes)
            && (s.window.Some? <==> s.commitTimer.Some?)
            && (s.window.Some? ==> forall k :: k in s.window.value.latest ==> CanAppend(s.window.value, s.window.value.latest[k]))
            && (forall i :: 0 <= i < |s.pending| ==> OneOwner(s.pending[i].write))
  {
    hide Reached;
    ReachedSound(repo, now, o, cfg, turns);
    hide RepoSound, Requests;
  }

  /** In every run in which no push replaces a foreign branch, every tip the target branch
      ever had is still in its history; and unless the last replay aborted, the local head is
      the recorded root with the retained writes applied in order. */
  lemma RemoteHistoryIsKept(repo: Repo, now: int, o: Oracle, cfg: Config, turns: seq<Turn>, h: History)
    requires Fresh(repo) && !Reached(repo, now, o, cfg, turns).repo.clobbered
    ensures var s := Reached(repo, now, o, cfg, turns);
            && (h in s.repo.seen ==> Within(h, Tip(s.repo.refs, s.repo.target)))
            && (s.pending != [] && !s.repo.aborted ==>
                  TreeOf(s.repo.local) == ApplyWrites(TreeOf(s.repo.rootHash), WritesOf(s.pending)))
  {
    hide Reached;
    ReachedSound(repo, now, o, cfg, turns);
    hide Requests, Ledger;
    var s := Reached(repo, now, o, cfg, turns);
    if s.pending != [] && !s.repo.aborted {
      BuiltIsFold(s.repo.rootHash, s.pending, |s.pending|, s.repo.local);
      assert WritesOf(s.pending)[..|s.pending|] == WritesOf(s.pending);
    }
  }

  /** A shutdown after any run keeps every invariant, leaves no open window and no parked
      heal, and leaves nothing unpublished unless the one push it makes, cooldown or not, fails. */
  lemma ShutdownDrains(repo: Repo, now: int, o: Oracle, cfg: Config, turns: seq<Turn>)
    requires Fresh(repo)
    ensures var s := Reached(repo, now, o, cfg, turns);
            var r := Shutdown(s, o);
            && Sound(r) && r.window.None? && r.heals == []
            && var idle := ApplyHeals(Finalize(s, o).state, o);
               r.pending != [] ==> !o(idle.tick).ready || !PushFrom(idle.repo, idle.pending, o(idle.tick).attempts, 0).ok
  {
    hide Reached;
    ReachedSound(repo, now, o, cfg, turns);
    hide RepoSound, Requests, Ledger, PushFrom, RunHeals;
    var s := Reached(repo, now, o, cfg, turns);
    FinalizeSound(s, o);
    var closed := Finalize(s, o).state;
    hide Finalize;
    ApplyHealsSound(closed, o);
    var idle := ApplyHeals(closed, o);
    if idle.pending != [] {
      PushPendingSound(idle, o);
    }
  }

  // ------------------------------------------- the hypotheses, shown necessary

  /** Registering keeps a request in one place exactly when its id is not riding a retained
      write: such an id is recognised neither as pending nor as resolved. */
  lemma RegisteringARiderDuplicatesIt(s: State, req: Request)
    requires Lifecycle(s)
    ensures Lifecycle(HandleAttach(s, req)) <==>
            req.id in s.outcomes || req.id in s.crs || !Rides(s.pending, req.id)
  {
    if req.id !in s.outcomes && req.id !in s.crs {
      if Rides(s.pending, req.id) { RegisteredRider(s, req); } else { RegisteredAnew(s, req); }
    }
  }

  lemma RegisteredRider(s: State, req: Request)
    requires Rides(s.pending, req.id) && req.id !in s.outcomes && req.id !in s.crs
    ensures !Lifecycle(HandleAttach(s, req))
  {
    var r := HandleAttach(s, req);
    var i :| 0 <= i < |s.pending| && s.pending[i].write.cr == Some(req.id);
    assert !RiderOk(r.pending[i].write, req.id, r.crs, r.outcomes, r.requests, r.claims);
    hide DeskOk, RiderOk, Rides;
  }

  lemma RegisteredAnew(s: State, req: Request)
    requires Lifecycle(s) && !Rides(s.pending, req.id) && req.id !in s.outcomes && req.id !in s.crs
    ensures Lifecycle(HandleAttach(s, req))
  {
    hide DeskOk, QueueOk, Disjoint, Truthful;
    var calm := s.(resent := false, repo := s.repo.(lost := true));
    RegisterKeepsRequests(calm, req);
  }

  /** A push that succeeds, and not out of a stopped replay, resolves a rider if and only if
      the rider's write changes the tip the queue was last built on with the writes before it
      applied. A rider whose write changes nothing there is then in no place at all. */
  lemma RiderResolvedExactly(s: State, o: Oracle, i: int)
    requires Sound(s) && !s.resent && s.pending != [] && o(s.tick).ready
    requires var p := PushFrom(s.repo, s.pending, o(s.tick).attempts, 0);
             p.ok && !p.repo.lost && 0 <= i < |p.writes| && p.writes[i].write.cr.Some?
    ensures var p := PushFrom(s.repo, s.pending, o(s.tick).attempts, 0);
            var before := ApplyWrites(TreeOf(p.base), WritesOf(p.writes)[..i]);
            var id := p.writes[i].write.cr.value;
            var r := PushPending(s, o);
            && (id in r.outcomes <==> ApplyWrite(before, p.writes[i].write) != before)
            && (id in r.outcomes ==> r.outcomes[id].outcome == Committed(p.writes[i].sha))
            && id !in r.crs && !Rides(r.pending, id)
  {
    var p := PushFrom(s.repo, s.pending, o(s.tick).attempts, 0);
    SoundPush(s.repo, s.pending, o(s.tick).attempts);
    hide PushFrom, ApplyWrite, ApplyWrites;
    TightenedQueueOk(p.writes, s.pending, s.crs, s.outcomes, s.requests, s.claims);
    var id := p.writes[i].write.cr.value;
    assert RiderOk(p.writes[i].write, id, s.crs, s.outcomes, s.requests, s.claims);
    BuiltRecordsExactly(p.base, p.writes, |p.writes|, p.repo.local, i);
    PushedRider(Tick(s, o(s.tick)), p, i);
  }

  /** The push reports a rider exactly when its write has a hash. */
  lemma PushedRider(s: State, p: Pushed, i: int)
    requires Lifecycle(s) && TightenedQueue(p.writes, s.pending) && p.ok
    requires 0 <= i < |p.writes| && p.writes[i].write.cr.Some?
    ensures var id := p.writes[i].write.cr.value;
            var r := AfterPush(s, p);
            && (id in r.outcomes <==> p.writes[i].sha != Unborn)
            && (id in r.outcomes ==> r.outcomes[id].outcome == Committed(p.writes[i].sha))
            && id !in r.crs && !Rides(r.pending, id)
  {
    var s1 := s.(repo := p.repo, pending := p.writes, pushTimer := None);
    var id := p.writes[i].write.cr.value;
    TightenedQueueOk(p.writes, s.pending, s.crs, s.outcomes, s.requests, s.claims);
    assert RiderOk(p.writes[i].write, id, s.crs, s.outcomes, s.requests, s.claims);
    ResolvePushedOutcomes(s1, p.writes);
    if p.writes[i].sha != Unborn { ResolvedWhenCommitted(s1, p.writes, i); }
    var done := ResolvePushed(s1, p.writes);
    if id in done.outcomes {
      var j :| Reports(p.writes, j, id, done.outcomes[id].outcome);
      assert j == i;
    }
  }

  lemma {:induction false} ResolvedWhenCommitted(s: State, ws: seq<PendingWrite>, i: int)
    requires 0 <= i < |ws| && ws[i].write.cr.Some? && ws[i].sha != Unborn
    ensures ws[i].write.cr.value in ResolvePushed(s, ws).outcomes
    ensures ResolvePushed(s, ws).outcomes[ws[i].write.cr.value].resolvedAt == s.now
  {
    var n := |ws| - 1;
    if i < n {
      ResolvedWhenCommitted(s, ws[..n], i);
    }
  }
}
