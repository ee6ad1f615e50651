/** Runs from a fresh worker in which a plain claim about the loop fails. One target mirrors to
    the branch "main" of a repository with a single commit, and one document is upserted. */
module LoopRuns {
  import opened PrunePolicy
  import opened Documents
  import opened OpenWindows
  import opened Writes
  import opened Repository
  import opened Push
  import opened PushEdges
  import opened LoopSpec
  import opened LoopTheorems
  import opened LoopSchedule

  const KEY := TargetKey("mirror", "team")
  const PLACE := Slot("b", Ident("apps", "deployments", "team", "web", false))
  const CFG := Config(1, 1)
  const ROOT := Commit(Unborn, map[], Foreign(0))
  const REPO := Repo("main", "main", Unborn, "", Unborn, map["main" := ROOT], {ROOT}, false, false, false)
  const ID := CrId("team", "save", "1")
  const REQUEST := Request(ID, "alice", Resolved, KEY, "save", 10)

  function Upserted(doc: Fields): Event {
    Event("alice", Resolved, KEY, "b", PLACE.ident, Op.Upsert(doc), 0)
  }

  /** Nothing takes time, everything succeeds, and a push does what it is told. */
  function Calm(ready: bool, attempts: nat -> Attempt): Oracle {
    _ => Answer(0, true, Some(Metadata("b", ON_EVENT)), [], true, true, 0, ready, attempts)
  }

  lemma FreshRepo()
    ensures Fresh(REPO)
  {
  }

  // ------------------------------------------------------------- closing a window

  /** The window holding the one event, under a message and a claim. */
  function OneWindow(doc: Fields, message: string, cr: Option<CrId>): Window {
    Window("alice", Resolved, KEY, [PLACE], map[PLACE := Upserted(doc)], message, cr)
  }

  function OneWrite(doc: Fields, message: string, cr: Option<CrId>): Write {
    Write(Grouped, [Upserted(doc)], [], WholeTarget, Some(ResolvedTarget(KEY, "b", ON_EVENT)), message, cr)
  }

  function OneCommit(doc: Fields, message: string, cr: Option<CrId>): History {
    Commit(ROOT, map[PLACE := [doc]], Mirror(OneWrite(doc, message, cr), 0))
  }

  lemma OneWindowFacts(doc: Fields, message: string, cr: Option<CrId>)
    ensures var w := OneWindow(doc, message, cr);
            && Consistent(w) && OrderedEvents(w) == [Upserted(doc)]
            && GroupedWrite(w, OrderedEvents(w), Metadata("b", ON_EVENT)) == OneWrite(doc, message, cr)
            && SizeOf([Upserted(doc)]) == 0
  {
    var w := OneWindow(doc, message, cr);
    assert Named(KEY);
    assert OrderedEvents(w) == [Upserted(doc)];
    assert Rebased([Upserted(doc)], "b") == [Upserted(doc)];
    assert [Upserted(doc)][..0] == [];
  }

  lemma OneWriteApplies(t: Tree, doc: Fields, message: string, cr: Option<CrId>)
    ensures ApplyWrite(t, OneWrite(doc, message, cr)) == t[PLACE := [doc]]
  {
    OneUpsertApplies(t, OneWrite(doc, message, cr));
  }

  /** The repository once the document is committed locally. */
  function Ahead(doc: Fields, message: string, cr: Option<CrId>): Repo {
    REPO.(local := OneCommit(doc, message, cr), rootBranch := "main", rootHash := ROOT)
  }

  lemma CommitsOneWrite(s: State, ready: bool, attempts: nat -> Attempt, doc: Fields, message: string, cr: Option<CrId>)
    requires s.pending == [] && s.repo == REPO
    ensures CommitOne(s, Calm(ready, attempts), OneWrite(doc, message, cr)) ==
            Committing(s.(tick := s.tick + 1, repo := Ahead(doc, message, cr)), true, true)
  {
    OneWriteApplies(map[], doc, message, cr);
    assert map[][PLACE := [doc]] == map[PLACE := [doc]] && PLACE in map[PLACE := [doc]];
    NoMoves(REPO);
    assert REPO.seen + {ROOT} == REPO.seen;
    assert Prepared(REPO, []) == REPO.(local := ROOT, rootBranch := "main", rootHash := ROOT);
    hide ApplyWrite, Prepared;
  }

  /** Closing the window of an idle worker commits the document on the remote's commit. */
  lemma ClosesOneWindow(s: State, ready: bool, attempts: nat -> Attempt, doc: Fields, message: string, cr: Option<CrId>)
    requires s.window == Some(OneWindow(doc, message, cr)) && s.pending == [] && s.repo == REPO
    ensures Consistent(s.window.value)
    ensures var w := PendingWrite(OneWrite(doc, message, cr), 0, OneCommit(doc, message, cr));
            var closed := CloseInto(s.(commitTimer := None, tick := s.tick + 3, repo := Ahead(doc, message, cr)), w);
            Finalize(s, Calm(ready, attempts)) == Finalized(if cr.Some? then Ride(closed, cr.value, w.write) else closed, true)
  {
    hide OrderedEvents, Consistent, OneCommit, OneWrite, Ahead, CommitWindow;
    OneWindowFacts(doc, message, cr);
    CommitsOneWindow(s.(commitTimer := None, tick := s.tick + 2), ready, attempts, doc, message, cr);
  }

  lemma CommitsOneWindow(s: State, ready: bool, attempts: nat -> Attempt, doc: Fields, message: string, cr: Option<CrId>)
    requires s.window == Some(OneWindow(doc, message, cr)) && s.pending == [] && s.repo == REPO && Consistent(s.window.value)
    ensures var w := PendingWrite(OneWrite(doc, message, cr), 0, OneCommit(doc, message, cr));
            var closed := CloseInto(s.(tick := s.tick + 1, repo := Ahead(doc, message, cr)), w);
            CommitWindow(s, Calm(ready, attempts), Metadata("b", ON_EVENT)) ==
            Finalized(if cr.Some? then Ride(closed, cr.value, w.write) else closed, true)
  {
    hide CommitOne, GroupedWrite, OrderedEvents, SizeOf, Consistent, OneCommit, Ahead, Ride, CloseInto;
    OneWindowFacts(doc, message, cr);
    CommitsOneWrite(s, ready, attempts, doc, message, cr);
    AheadIsCommitted(doc, message, cr);
  }

  lemma AheadIsCommitted(doc: Fields, message: string, cr: Option<CrId>)
    ensures Ahead(doc, message, cr).local == OneCommit(doc, message, cr)
  {
    hide OneCommit;
  }

  // --------------------------------------------------------------------- turns

  lemma OpensOneWindow(s: State, ready: bool, attempts: nat -> Attempt, doc: Fields)
    requires s.window.None? && s.windowBytes == 0 && s.pendingBytes == 0
    ensures HandleItem(s, Calm(ready, attempts), CFG, LiveItem([Upserted(doc)])) ==
            s.(window := Some(OneWindow(doc, "", None)), commitTimer := Some(s.now + 1), tick := s.tick + 1)
  {
    var o := Calm(ready, attempts);
    var e := Upserted(doc);
    HandlesOneEvent(s, ready, attempts, doc);
    hide HandleEvent, OneWindow, Upserted, Calm;
    LoneEvent(s, o, e);
    hide HandleEvents;
  }

  lemma LoneEvent(s: State, o: Oracle, e: Event)
    requires s.window.None?
    ensures HandleEvents(s, o, CFG, [e]) == HandleEvent(s, o, CFG, e)
  {
    hide HandleEvent;
    assert [e][..0] == [];
    assert HandleEvents(s, o, CFG, [e][..0]) == s;
  }

  lemma HandlesOneEvent(s: State, ready: bool, attempts: nat -> Attempt, doc: Fields)
    requires s.window.None? && s.windowBytes == 0 && s.pendingBytes == 0
    ensures HandleEvent(s, Calm(ready, attempts), CFG, Upserted(doc)) ==
            s.(window := Some(OneWindow(doc, "", None)), commitTimer := Some(s.now + 1), tick := s.tick + 1)
  {
    var o := Calm(ready, attempts);
    var s1 := s.(tick := s.tick + 1);
    AddsOneEvent(s1, doc);
    hide AddEvent, Finalize, MaybeSchedulePush, Consistent, OneWindow, Upserted;
    assert MakeRoom(s1, o, Upserted(doc)) == s1;
    assert Settle(AddEvent(s1, Upserted(doc)), o, CFG) == AddEvent(s1, Upserted(doc)).(commitTimer := Some(s.now + 1));
  }

  lemma AddsOneEvent(s: State, doc: Fields)
    requires s.window.None? && s.windowBytes == 0
    ensures AddEvent(s, Upserted(doc)) == s.(window := Some(OneWindow(doc, "", None)))
  {
    assert Add(NewWindow(Upserted(doc)), Upserted(doc)) == OneWindow(doc, "", None);
  }

  /** A turn without waiting requests and parked heals is its dispatch. */
  lemma QuietTurn(s: State, o: Oracle, wake: Wake, order: seq<CrId>)
    requires s.window.Some? ==> Consistent(s.window.value)
    requires var d := Dispatch(Woken(s, o), o, CFG, wake); d.crs == map[] && d.heals == []
    ensures Step(s, o, CFG, wake, order) == Dispatch(Woken(s, o), o, CFG, wake).(attachTimer := None)
  {
    hide Dispatch, Consistent;
  }

  function Live(doc: Fields): Turn {
    Turn(Received(LiveItem([Upserted(doc)])), [])
  }

  /** The worker after the live event. */
  function Opened(doc: Fields): State {
    InitialState(REPO, 0).(window := Some(OneWindow(doc, "", None)), commitTimer := Some(1), tick := 2)
  }

  lemma FirstTurn(ready: bool, attempts: nat -> Attempt, doc: Fields)
    ensures Reached(REPO, 0, Calm(ready, attempts), CFG, [Live(doc)]) == Opened(doc)
  {
    var o := Calm(ready, attempts);
    var s := InitialState(REPO, 0);
    OneTurn(s, o, Live(doc));
    OpensOneWindow(s.(tick := 1), ready, attempts, doc);
    hide HandleItem, LoopTheorems.Run, Step, OneWindow, Upserted;
    QuietTurn(s, o, Live(doc).wake, []);
  }

  lemma OneTurn(s: State, o: Oracle, a: Turn)
    requires s.window.None?
    ensures LoopTheorems.Run(s, o, CFG, [a]) == Step(s, o, CFG, a.wake, a.order)
  {
    assert [a][..0] == [];
    hide Step;
  }

  lemma OneMoreTurn(o: Oracle, before: seq<Turn>, a: Turn)
    ensures Reached(REPO, 0, o, CFG, before + [a]) == Step(Reached(REPO, 0, o, CFG, before), o, CFG, a.wake, a.order)
  {
    assert (before + [a])[..|before|] == before;
    hide Step;
  }

  /** An empty atomic request does nothing but close the window. */
  lemma EmptyAtomic(s: State, o: Oracle, key: TargetKey, message: string)
    requires (s.window.Some? ==> Consistent(s.window.value)) && o(s.tick).gateOpen
    requires Finalize(Tick(s, o(s.tick)), o).state.heals == []
    ensures var f := Finalize(Tick(s, o(s.tick)), o).state;
            HandleItem(s, o, CFG, AtomicItem([], key, message)) == Tick(f, o(f.tick))
  {
    hide Finalize, Consistent;
  }

  /** A resync for a target without a name does nothing but close the window. */
  lemma NamelessResync(s: State, o: Oracle, req: ResyncRequest)
    requires (s.window.Some? ==> Consistent(s.window.value)) && !Named(req.target) && !req.heal
    ensures var f := Finalize(s, o).state; HandleItem(s, o, CFG, ResyncItem(req)) == Tick(f, o(f.tick))
  {
    hide Finalize, Consistent, CommitOne;
  }

  /** Waiting and asking take no time here. */
  lemma CalmTicks(s: State, ready: bool, attempts: nat -> Attempt)
    ensures var o := Calm(ready, attempts);
            && Tick(s, o(s.tick)) == s.(tick := s.tick + 1) == Woken(s, o)
            && o(s.tick).gateOpen
  {
  }

  /** A window's commit is retained on the local branch only, unpushed and unscheduled. */
  predicate OnlyLocal(s: State, commit: History) {
    Stranded(s) && s.pending[0].sha == commit && s.repo.refs == REPO.refs
  }

  /** What closing the open window, and nothing else, leaves. */
  lemma ClosedIsStranded(s: State, ready: bool, attempts: nat -> Attempt, doc: Fields)
    requires s == Opened(doc).(tick := s.tick)
    ensures Consistent(s.window.value)
    ensures var f := Finalize(s, Calm(ready, attempts)).state;
            OnlyLocal(f, OneCommit(doc, "", None)) && f.crs == map[] && f.heals == [] && f.window.None?
  {
    ClosesOneWindow(s, ready, attempts, doc, "", None);
    hide Finalize, OneCommit, OneWrite, Consistent;
  }

  /** A turn whose item comes down to closing the open window. */
  lemma ClosingTurnStrands(ready: bool, attempts: nat -> Attempt, doc: Fields, item: Item, s: State)
    requires s == Opened(doc).(tick := s.tick) && Consistent(Opened(doc).window.value) && Consistent(s.window.value)
    requires var o := Calm(ready, attempts);
             var f := Finalize(s, o).state;
             HandleItem(Woken(Opened(doc), o), o, CFG, item) == Tick(f, o(f.tick))
    ensures OnlyLocal(Reached(REPO, 0, Calm(ready, attempts), CFG, [Live(doc)] + [Turn(Received(item), [])]), OneCommit(doc, "", None))
  {
    hide Calm, Opened, OneCommit, Step, HandleItem, Finalize, Reached, Consistent, Live;
    var o := Calm(ready, attempts);
    FirstTurn(ready, attempts, doc);
    OneMoreTurn(o, [Live(doc)], Turn(Received(item), []));
    ClosedIsStranded(s, ready, attempts, doc);
    CalmTicks(Finalize(s, o).state, ready, attempts);
    QuietTurn(Opened(doc), o, Received(item), []);
  }

  /** An empty atomic request closes the window and leaves its commit with no push and no timer. */
  lemma AtomicRequestStrandsWindow(doc: Fields, ready: bool, attempts: nat -> Attempt)
    ensures var s := Reached(REPO, 0, Calm(ready, attempts), CFG, [Live(doc)] + [Turn(Received(AtomicItem([], KEY, "")), [])]);
            OnlyLocal(s, OneCommit(doc, "", None))
  {
    var o := Calm(ready, attempts);
    var s := Opened(doc).(tick := 4);
    OneWindowFacts(doc, "", None);
    CalmTicks(Opened(doc), ready, attempts);
    CalmTicks(Opened(doc).(tick := 3), ready, attempts);
    ClosedIsStranded(s, ready, attempts, doc);
    hide Calm, OneCommit, HandleItem, Finalize, Reached, Consistent;
    EmptyAtomic(Woken(Opened(doc), o), o, KEY, "");
    ClosingTurnStrands(ready, attempts, doc, AtomicItem([], KEY, ""), s);
  }

  /** So does a resync for a target without a name. */
  lemma ResyncStrandsWindow(doc: Fields, ready: bool, attempts: nat -> Attempt)
    ensures var nameless := ResyncRequest(TargetKey("", ""), [], WholeTarget, false, 0);
            var s := Reached(REPO, 0, Calm(ready, attempts), CFG, [Live(doc)] + [Turn(Received(ResyncItem(nameless)), [])]);
            OnlyLocal(s, OneCommit(doc, "", None))
  {
    var o := Calm(ready, attempts);
    var nameless := ResyncRequest(TargetKey("", ""), [], WholeTarget, false, 0);
    var s := Opened(doc).(tick := 3);
    OneWindowFacts(doc, "", None);
    CalmTicks(Opened(doc), ready, attempts);
    hide Calm, OneCommit, HandleItem, Finalize, Reached, Consistent;
    NamelessResync(Woken(Opened(doc), o), o, nameless);
    ClosingTurnStrands(ready, attempts, doc, ResyncItem(nameless), s);
  }

  // ---------------------------------------------------- a request and its window

  const WAITING := PendingCr(REQUEST, 10 * SECOND, false)
  const ATTACH := Turn(Received(Attach(REQUEST)), [ID])
  const CLOSE := Turn(CommitTimeout, [ID])

  function LiveWhileWaiting(doc: Fields): Turn {
    Turn(Received(LiveItem([Upserted(doc)])), [ID])
  }

  /** A turn in which the one request is pending and not due. */
  lemma WaitingTurn(s: State, o: Oracle, wake: Wake, pcr: PendingCr)
    requires s.window.Some? ==> Consistent(s.window.value)
    requires var d := Dispatch(Woken(s, o), o, CFG, wake);
             d.crs == map[ID := pcr] && pcr.finalizeAt > d.now && d.heals == []
    ensures var a := AttachWaiting(Dispatch(Woken(s, o), o, CFG, wake), [ID]);
            Step(s, o, CFG, wake, [ID]) == a.(attachTimer := Some(pcr.finalizeAt))
  {
    hide Dispatch, Consistent;
    var d := Dispatch(Woken(s, o), o, CFG, wake);
    assert [ID][..0] == [];
    assert ID in d.crs;
    OneWaits(d, pcr);
    var a := AttachWaiting(d, [ID]);
    hide AttachWaiting, Due, Earliest;
    assert ServeAllDue(a, o, []) == a;
  }

  lemma OneWaits(d: State, pcr: PendingCr)
    requires d.crs == map[ID := pcr] && pcr.finalizeAt > d.now
    ensures var a := AttachWaiting(d, [ID]);
            && a.crs != map[] && a.now == d.now && a.heals == d.heals
            && Due(a.crs, a.now, [ID]) == [] && Earliest(a.crs, [ID]) == Some(pcr.finalizeAt)
  {
    assert [ID][..0] == [];
    var a := AttachWaiting(d, [ID]);
    assert ID in a.crs && a.crs[ID].finalizeAt == pcr.finalizeAt;
  }

  function Registered(): State {
    InitialState(REPO, 0).(crs := map[ID := WAITING], requests := map[ID := REQUEST], attachTimer := Some(10 * SECOND), tick := 1)
  }

  function Attached(doc: Fields): State {
    Registered().(window := Some(OneWindow(doc, "save", Some(ID))), commitTimer := Some(1), tick := 3,
                  crs := map[ID := WAITING.(attached := true)])
  }

  lemma RegisterTurn(ready: bool, attempts: nat -> Attempt)
    ensures Reached(REPO, 0, Calm(ready, attempts), CFG, [ATTACH]) == Registered()
  {
    var o := Calm(ready, attempts);
    var s := InitialState(REPO, 0);
    OneTurn(s, o, ATTACH);
    assert !Rides([], ID);
    assert Dispatch(Woken(s, o), o, CFG, ATTACH.wake) == Registered().(attachTimer := None);
    hide Step, Dispatch, LoopTheorems.Run;
    WaitingTurn(s, o, ATTACH.wake, WAITING);
  }

  lemma AttachTurn(ready: bool, attempts: nat -> Attempt, doc: Fields)
    ensures Reached(REPO, 0, Calm(ready, attempts), CFG, [ATTACH] + [LiveWhileWaiting(doc)]) == Attached(doc)
  {
    var o := Calm(ready, attempts);
    var wake := LiveWhileWaiting(doc).wake;
    RegisterTurn(ready, attempts);
    OneMoreTurn(o, [ATTACH], LiveWhileWaiting(doc));
    OpensOneWindow(Registered().(tick := 2), ready, attempts, doc);
    hide HandleItem, Step, Reached;
    var d := Dispatch(Woken(Registered(), o), o, CFG, wake);
    assert d == Registered().(window := Some(OneWindow(doc, "", None)), commitTimer := Some(1), tick := 3);
    hide Dispatch;
    WaitingTurn(Registered(), o, wake, WAITING);
    ClaimsWindow(d, doc);
  }

  lemma ClaimsWindow(d: State, doc: Fields)
    requires d.crs == map[ID := WAITING] && d.window == Some(OneWindow(doc, "", None))
    ensures AttachWaiting(d, [ID]) ==
            d.(window := Some(OneWindow(doc, "save", Some(ID))), crs := map[ID := WAITING.(attached := true)])
  {
    assert [ID][..0] == [];
    assert ID in d.crs && MatchesWindow(REQUEST, d.window.value);
    assert Oldest(d.crs, d.window.value, [ID]) == Some(ID);
    assert d.crs[ID := WAITING.(attached := true)] == map[ID := WAITING.(attached := true)];
  }

  /** The write the claimed window becomes. */
  function Rider(doc: Fields): PendingWrite {
    PendingWrite(OneWrite(doc, "save", Some(ID)), 0, OneCommit(doc, "save", Some(ID)))
  }

  /** The worker once the window is closed and before its push. */
  function Riding(doc: Fields): State {
    Attached(doc).(window := None, commitTimer := None, tick := 7, pending := [Rider(doc)],
                   repo := Ahead(doc, "save", Some(ID)), crs := map[], claims := map[ID := Rider(doc).write], mark := ClosedUnscheduled)
  }

  lemma ClosedIsRiding(ready: bool, attempts: nat -> Attempt, doc: Fields)
    ensures Consistent(Attached(doc).window.value)
    ensures Finalize(Attached(doc).(tick := 4, commitTimer := None), Calm(ready, attempts)).state == Riding(doc)
  {
    ClosesOneWindow(Attached(doc).(tick := 4, commitTimer := None), ready, attempts, doc, "save", Some(ID));
    hide Finalize, Consistent, OneWindow, OneCommit, OneWrite, Ahead;
    var before := Attached(doc).(tick := 7, commitTimer := None, repo := Ahead(doc, "save", Some(ID)));
    assert before.crs == map[ID := WAITING.(attached := true)] && before.claims == map[] && before.pending == [];
    RidesAlone(CloseInto(before, Rider(doc)), doc);
    ClosesAlone(before, Rider(doc));
    hide CloseInto, Ride, Rider;
  }

  lemma ClosesAlone(s: State, w: PendingWrite)
    requires s.pending == [] && s.pendingBytes == 0 && s.pushTimer.None? && w.byteSize == 0
    ensures CloseInto(s, w) == s.(window := None, windowBytes := 0, pending := [w], pendingBytes := 0, mark := ClosedUnscheduled)
  {
  }

  lemma RidesAlone(closed: State, doc: Fields)
    requires closed.crs == map[ID := WAITING.(attached := true)] && closed.claims == map[]
    ensures Ride(closed, ID, Rider(doc).write) == closed.(crs := map[], claims := map[ID := Rider(doc).write])
  {
    hide OneWrite, OneCommit;
    assert map[ID := WAITING.(attached := true)] - {ID} == map[];
    assert map[][ID := Rider(doc).write] == map[ID := Rider(doc).write];
  }

  lemma CloseTurn(ready: bool, attempts: nat -> Attempt, doc: Fields)
    requires PushPending(Riding(doc), Calm(ready, attempts)).crs == map[]
    ensures Reached(REPO, 0, Calm(ready, attempts), CFG, [ATTACH] + [LiveWhileWaiting(doc)] + [CLOSE]) ==
            PushPending(Riding(doc), Calm(ready, attempts)).(attachTimer := None)
  {
    var o := Calm(ready, attempts);
    AttachTurn(ready, attempts, doc);
    OneMoreTurn(o, [ATTACH] + [LiveWhileWaiting(doc)], CLOSE);
    OneWindowFacts(doc, "save", Some(ID));
    var s := Attached(doc).(tick := 4);
    ClosedIsRiding(ready, attempts, doc);
    hide Finalize, PushPending, Step, Reached, Consistent, OneWindow, Rider, Ahead;
    assert MaybeSchedulePush(Riding(doc), o) == PushPending(Riding(doc), o);
    QuietTurn(Attached(doc), o, CLOSE.wake, CLOSE.order);
  }

  /** The push is not ready, so the request still rides; sent again, it is registered again. */
  lemma RiderIsRegisteredTwice(doc: Fields, attempts: nat -> Attempt)
    ensures var s := Reached(REPO, 0, Calm(false, attempts), CFG, [ATTACH] + [LiveWhileWaiting(doc)] + [CLOSE] + [ATTACH]);
            ID in s.crs && Rides(s.pending, ID)
  {
    var o := Calm(false, attempts);
    var s := PushPending(Riding(doc), o).(attachTimer := None);
    assert s == Riding(doc).(attachTimer := None, tick := 8, mark := PushFailed(Riding(doc).repo, [Rider(doc)], 8));
    CloseTurn(false, attempts, doc);
    OneMoreTurn(o, [ATTACH] + [LiveWhileWaiting(doc)] + [CLOSE], ATTACH);
    hide Step, Reached, OneCommit, OneWrite, OneWindow, PushPending;
    var d := Dispatch(Woken(s, o), o, CFG, ATTACH.wake);
    assert d.crs == map[ID := WAITING] && d.pending == [Rider(doc)];
    WaitingTurn(s, o, ATTACH.wake, WAITING);
    assert d.pending[0].write.cr == Some(ID);
  }

  // ------------------------------------------------- someone else writes the same

  /** Another writer commits the same document first. */
  function Theirs(doc: Fields): History {
    Commit(ROOT, map[PLACE := [doc]], Foreign(1))
  }

  function Conflict(doc: Fields): nat -> Attempt {
    n => if n > 0 then NOTHING
         else NOTHING.(before := [Move("main", Unborn, map[PLACE := [doc]], 1)], policy := map[KEY := Found(ON_EVENT)])
  }

  function Behind(doc: Fields): Repo {
    Ahead(doc, "save", Some(ID)).(refs := map["main" := Theirs(doc)], seen := {ROOT, Theirs(doc)})
  }

  lemma ConflictIsReplayed(doc: Fields)
    ensures PushOnce(Ahead(doc, "save", Some(ID)), [Rider(doc)], Conflict(doc)(0)) ==
            Retry(Behind(doc).(local := Theirs(doc), rootHash := Theirs(doc)), [Rider(doc).(sha := Unborn)])
  {
    var r := Ahead(doc, "save", Some(ID));
    var a := Conflict(doc)(0);
    assert a.before[..|a.before| - 1] == [];
    assert Moved(r.refs, a.before[..|a.before| - 1]) == r.refs;
    assert Moved(r.refs, a.before) == map["main" := Theirs(doc)];
    var adv := Observe(r, a.before);
    assert adv == Behind(doc);
    assert ValidatePushState(adv).Refused?;
    assert PushAtomic(r, a) == Attempted(adv, false);
    NoMoves(adv);
    assert adv.seen + {Theirs(doc)} == adv.seen;
    assert Observe(Observe(adv, []), []) == adv;
    NothingNew(doc);
    hide PushAtomic, Moved, ExecuteFrom, TightenFrom, OneWrite, OneCommit;
  }

  /** Replayed on their commit, the write changes nothing. */
  lemma NothingNew(doc: Fields)
    ensures Replay(Behind(doc), [Rider(doc)], Conflict(doc)(0)) ==
            Pushed(Behind(doc).(local := Theirs(doc), rootHash := Theirs(doc)), [Rider(doc).(sha := Unborn)], true, Theirs(doc))
  {
    var w := Rider(doc);
    var a := Conflict(doc)(0);
    var t := map[PLACE := [doc]];
    OneWriteApplies(t, doc, "save", Some(ID));
    assert t[PLACE := [doc]] == t;
    assert TightenTarget(w.write.target.value, Found(ON_EVENT)) == w.write.target.value;
    assert [w][0 := w] == [w];
    assert TightenFrom([w], 1, a.policy) == Tightened([w], true);
    assert TightenFrom([w], 0, a.policy) == Tightened([w], true);
    var next := [w.(sha := Unborn)];
    assert [w][0 := w.(sha := Unborn)] == next;
    assert ExecuteFrom(Theirs(doc), next, 1, None, 0) == Executed(Theirs(doc), next, true);
    assert CommitWrite(Theirs(doc), w.write, 0) == Theirs(doc);
    hide ApplyWrite;
    assert ExecuteFrom(Theirs(doc), [w], 0, None, 0) == Executed(Theirs(doc), next, true);
  }

  lemma ConflictSucceeds(doc: Fields)
    ensures var p := PushFrom(Ahead(doc, "save", Some(ID)), [Rider(doc)], Conflict(doc), 0);
            p.ok && p.writes == [Rider(doc).(sha := Unborn)]
  {
    ConflictIsReplayed(doc);
    var r1 := Behind(doc).(local := Theirs(doc), rootHash := Theirs(doc));
    NoMoves(r1);
    assert ValidatePushState(Observe(r1, [])).UpToDate?;
    assert PushAtomic(r1, NOTHING).ok;
    hide PushAtomic, OneWrite, OneCommit, Theirs;
  }

  /** The push is replayed to no difference and succeeds, and the request is in no place: not
      waiting, not riding, and without an outcome. */
  lemma RiderIsForgotten(doc: Fields)
    ensures var s := Reached(REPO, 0, Calm(true, Conflict(doc)), CFG, [ATTACH] + [LiveWhileWaiting(doc)] + [CLOSE]);
            s.pending == [] && ID !in s.crs && ID !in s.outcomes && ID in s.requests
  {
    var o := Calm(true, Conflict(doc));
    ConflictSucceeds(doc);
    var w := Rider(doc).(sha := Unborn);
    var p := PushFrom(Ahead(doc, "save", Some(ID)), [Rider(doc)], Conflict(doc), 0);
    hide PushFrom, OneWrite, OneCommit, OneWindow, Ahead;
    var s := Riding(doc).(tick := 8);
    var s1 := s.(repo := p.repo, pending := p.writes, pushTimer := None);
    assert [w][..0] == [];
    assert ResolvePushed(s1, [w]) == s1;
    assert PushPending(Riding(doc), o) == AfterPush(s, p);
    CloseTurn(true, Conflict(doc), doc);
  }
}
