/** The branch worker's event loop as a transition function (internal/git/branch_worker.go,
    commit_request_attach_loop.go, resync_flush.go).

    Everything the loop asks of the outside world is an input: `Oracle` gives, for the n-th
    question of a run, the time that passed, whether the render-fidelity gate is open,
    whether builds, fetches and executions succeed, what other writers did to the remote,
    and what happens during a push. The iteration order of a Go map is an input too. */
module LoopSpec {
  import opened PrunePolicy
  import opened Documents
  import opened OpenWindows
  import opened Writes
  import opened Repository
  import opened Push

  /** Durations are in nanoseconds. */
  const SECOND: int := 1_000_000_000
  const PUSH_COOLDOWN: int := 5 * SECOND
  const OUTCOME_TTL: int := 15 * 60 * SECOND

  datatype Config = Config(maxBytes: nat, commitWindow: nat)

  // ------------------------------------------------------------ CommitRequests

  /** A CommitRequest as its controller sends it. */
  datatype Request = Request(
    id: CrId,
    author: string,
    attribution: Attribution,
    target: TargetKey,
    message: string,
    closeDelaySeconds: int)

  datatype PendingCr = PendingCr(request: Request, finalizeAt: int, attached: bool)

  /** Why a window was dropped. */
  datatype Cause = GateClosed | BuildFailed | CommitFailed

  datatype Outcome = Committed(sha: History) | AlreadyPresent | NoOpenWindow | Failed(cause: Cause)

  datatype OutcomeEntry = OutcomeEntry(outcome: Outcome, resolvedAt: int)

  predicate MatchesWindow(r: Request, w: Window) {
    && r.author == w.author
    && NamesActor(r.attribution) == NamesActor(w.attribution)
    && r.target == w.target
  }

  // --------------------------------------------------------------------- state

  datatype ResyncRequest = ResyncRequest(
    target: TargetKey,
    desired: seq<Desired>,
    scope: Scope,
    heal: bool,
    byteSize: nat)

  datatype Item =
    | Attach(request: Request)
    | ResyncItem(resync: ResyncRequest)
    | AtomicItem(events: seq<Event>, target: TargetKey, message: string)
    | LiveItem(events: seq<Event>)
    | EmptyItem

  /** What last happened to the retained queue: a push went through or a push timer was found or
      set running; a push failed, of which queue over which repository, after how many answers of
      the outside; a window was closed into it with no push timer running. */
  datatype Mark = Settled | PushFailed(repo: Repo, queue: seq<PendingWrite>, tick: nat) | ClosedUnscheduled

  /** How a request came to an end without a push: its window was dropped, or its window was
      committed on a head and changed nothing there, or it came due beside another window or none.
      `tick` is the number of answers of the outside by then. */
  datatype Ending =
    | Discarded(window: Option<Window>, tick: nat)
    | Unchanged(window: Option<Window>, tick: nat, head: History)
    | Unclaimed(window: Option<Window>, deadline: int, now: int)

  /** The worker. The last five fields are history: the request each id was last registered
      with, the write each claimed window became, whether an id was ever registered again
      while it was riding a retained write, what last happened to the queue, and how each
      request that was resolved without a push came to its end. */
  datatype State = State(
    window: Option<Window>,
    windowBytes: int,
    pending: seq<PendingWrite>,
    pendingBytes: int,
    lastPushAt: Option<int>,
    commitTimer: Option<int>,
    pushTimer: Option<int>,
    attachTimer: Option<int>,
    heals: seq<ResyncRequest>,
    crs: map<CrId, PendingCr>,
    outcomes: map<CrId, OutcomeEntry>,
    repo: Repo,
    now: int,
    tick: nat,
    requests: map<CrId, Request>,
    claims: map<CrId, Write>,
    resent: bool,
    mark: Mark,
    ends: map<CrId, Ending>)

  /** The base path and prune mode read for a GitTarget when a write is built. */
  datatype Metadata = Metadata(base: string, mode: PruneMode)

  datatype Answer = Answer(
    elapsed: nat,
    gateOpen: bool,
    metadata: Option<Metadata>,
    moves: seq<Move>,
    prepared: bool,
    executed: bool,
    stamp: int,
    ready: bool,
    attempts: nat -> Attempt)

  type Oracle = nat -> Answer

  function Tick(s: State, a: Answer): State {
    s.(tick := s.tick + 1, now := s.now + a.elapsed)
  }

  function InitialState(repo: Repo, now: int): State {
    State(None, 0, [], 0, None, None, None, None, [], map[], map[], repo, now, 0, map[], map[], false, Settled, map[])
  }

  function TotalRetainedBytes(s: State): int {
    s.windowBytes + s.pendingBytes
  }

  // ----------------------------------------------------------------- resolving

  /** Records an outcome, forgets outcomes past their time to live, and forgets the request. */
  function Resolve(s: State, id: CrId, outcome: Outcome): (r: State)
    ensures r == s.(outcomes := r.outcomes, crs := r.crs)
  {
    var recorded := s.outcomes[id := OutcomeEntry(outcome, s.now)];
    s.(outcomes := map k | k in recorded && s.now - recorded[k].resolvedAt <= OUTCOME_TTL :: recorded[k],
       crs := s.crs - {id})
  }

  /** Resolves a request that no push will resolve. */
  function Finish(s: State, id: CrId, outcome: Outcome, ending: Ending): (r: State)
    ensures r == s.(outcomes := r.outcomes, crs := r.crs, ends := r.ends)
  {
    Resolve(s, id, outcome).(ends := s.ends[id := ending])
  }

  function DropWindow(s: State, cause: Cause): (r: State)
    requires s.window.Some?
    ensures r == s.(window := None, windowBytes := 0, outcomes := r.outcomes, crs := r.crs, ends := r.ends)
  {
    var closed := s.(window := None, windowBytes := 0);
    if s.window.value.cr.Some? then Finish(closed, s.window.value.cr.value, Failed(cause), Discarded(s.window, s.tick))
    else closed
  }

  // ---------------------------------------------------------------- committing

  function SizeOf(events: seq<Event>): nat {
    if events == [] then 0 else SizeOf(events[..|events| - 1]) + events[|events| - 1].size
  }

  predicate Named(t: TargetKey) {
    t.name != "" && t.namespace != ""
  }

  /** An event without a path of its own takes the path of its target. */
  function Rebased(events: seq<Event>, base: string): (r: seq<Event>)
    ensures |r| == |events|
    ensures forall i :: 0 <= i < |r| ==> r[i] == events[i].(base := r[i].base)
  {
    seq(|events|, i requires 0 <= i < |events| => if events[i].base == "" then events[i].(base := base) else events[i])
  }

  function GroupedWrite(w: Window, events: seq<Event>, md: Metadata): Write {
    if Named(w.target) then
      Write(Grouped, Rebased(events, md.base), [], WholeTarget, Some(ResolvedTarget(w.target, md.base, md.mode)), w.message, w.cr)
    else
      Write(Grouped, events, [], WholeTarget, None, w.message, w.cr)
  }

  /** The outcome of committing one write locally. `changed` tells whether it left a commit. */
  datatype Committing = Committing(state: State, ok: bool, changed: bool)

  /** A new push cycle starts from the remote tip, which becomes the recorded root. */
  function Prepared(r: Repo, moves: seq<Move>): Repo {
    var fetched := Observe(r, moves);
    var (branch, tip) := Available(fetched);
    fetched.(local := tip, rootBranch := branch, rootHash := tip)
  }

  function CommitOn(s: State, prepared: Repo, a: Answer, w: Write): (c: Committing)
    ensures c.state == s.(repo := c.state.repo)
  {
    if !a.executed then Committing(s.(repo := prepared), false, false)
    else
      var after := CommitWrite(prepared.local, w, a.stamp);
      Committing(s.(repo := prepared.(local := after)), true, after != prepared.local)
  }

  /** Commits one write locally, on a prepared branch. */
  function CommitOne(s: State, o: Oracle, w: Write): (c: Committing)
    ensures c.state == s.(repo := c.state.repo, now := s.now + o(s.tick).elapsed, tick := s.tick + 1)
  {
    var a := o(s.tick);
    var s1 := Tick(s, a);
    if s.pending == [] && !a.prepared then Committing(s1, false, false)
    else CommitOn(s1, if s.pending != [] then s.repo else Prepared(s.repo, a.moves), a, w)
  }

  function Retain(s: State, w: PendingWrite): State {
    s.(pending := s.pending + [w], pendingBytes := s.pendingBytes + w.byteSize)
  }

  datatype Finalized = Finalized(state: State, retained: bool)

  function CloseInto(s: State, w: PendingWrite): State {
    s.(window := None, windowBytes := 0, pending := s.pending + [w], pendingBytes := s.pendingBytes + w.byteSize,
       mark := if s.pushTimer.None? then ClosedUnscheduled else s.mark)
  }

  function Ride(s: State, id: CrId, w: Write): State {
    s.(crs := s.crs - {id}, claims := s.claims[id := w])
  }

  /** The write a committed window is retained as; without a commit no request rides it. */
  function RetainedWindow(c: Committing, w: Write, size: nat): PendingWrite {
    if c.changed then PendingWrite(w, size, c.state.repo.local) else PendingWrite(w.(cr := None), size, Unborn)
  }

  /** The committed window becomes a retained write; a claiming request rides it, or, when
      nothing changed, is resolved at once. */
  function RetainWindow(c: Committing, w: Write, size: nat): (r: State)
    ensures r == CloseInto(c.state, RetainedWindow(c, w, size)).(outcomes := r.outcomes, crs := r.crs, claims := r.claims, ends := r.ends)
  {
    var closed := CloseInto(c.state, RetainedWindow(c, w, size));
    if w.cr.None? then closed
    else if c.changed then Ride(closed, w.cr.value, w)
    else Finish(closed, w.cr.value, AlreadyPresent, Unchanged(c.state.window, c.state.tick, c.state.repo.local))
  }

  /** Commits the open window once its target's metadata is known. */
  function CommitWindow(s: State, o: Oracle, md: Metadata): (f: Finalized)
    requires s.window.Some? && Consistent(s.window.value)
    ensures f.state.window.None?
  {
    var write := GroupedWrite(s.window.value, OrderedEvents(s.window.value), md);
    var c := CommitOne(s, o, write);
    if !c.ok then Finalized(DropWindow(c.state, CommitFailed), false)
    else Finalized(RetainWindow(c, write, SizeOf(write.events)), true)
  }

  /** Closes the open window into one retained write, or drops it. */
  function Finalize(s: State, o: Oracle): (f: Finalized)
    requires s.window.Some? ==> Consistent(s.window.value)
    ensures f.state.window.None?
  {
    if s.window.None? then Finalized(s, false)
    else
      var w := s.window.value;
      var gate := o(s.tick);
      var s1 := Tick(s.(commitTimer := None), gate);
      if Named(w.target) && !gate.gateOpen then Finalized(DropWindow(s1, GateClosed), false)
      else
        var build := o(s1.tick);
        var s2 := Tick(s1, build);
        if build.metadata.None? || w.order == [] then Finalized(DropWindow(s2, BuildFailed), false)
        else CommitWindow(s2, o, build.metadata.value)
  }

  // ------------------------------------------------------------------- pushing

  /** Resolves every request riding a pushed write with that write's own commit. */
  function ResolvePushed(s: State, ws: seq<PendingWrite>): (r: State)
    ensures r == s.(outcomes := r.outcomes, crs := r.crs)
  {
    if ws == [] then s
    else
      var done := ResolvePushed(s, ws[..|ws| - 1]);
      var w := ws[|ws| - 1];
      if w.write.cr.None? || w.sha == Unborn then done
      else Resolve(done, w.write.cr.value, Committed(w.sha))
  }

  /** A failed push keeps the queue as the push left it; a successful one clears it. */
  function AfterPush(s: State, p: Pushed): (r: State)
    ensures r.window == s.window && r.heals == s.heals
  {
    var s1 := s.(repo := p.repo, pending := p.writes, pushTimer := None);
    if !p.ok then s1.(mark := PushFailed(s.repo, s.pending, s.tick))
    else ResolvePushed(s1, p.writes).(pending := [], pendingBytes := 0, lastPushAt := Some(s.now), mark := Settled)
  }

  function PushPending(s: State, o: Oracle): (r: State)
    ensures r.window == s.window && r.heals == s.heals
  {
    if s.pending == [] then s.(pushTimer := None)
    else
      var a := o(s.tick);
      var s1 := Tick(s, a);
      if !a.ready then s1.(pushTimer := None, mark := PushFailed(s1.repo, s1.pending, s1.tick))
      else AfterPush(s1, PushFrom(s.repo, s.pending, a.attempts, 0))
  }

  function MaybeSchedulePush(s: State, o: Oracle): (r: State)
    ensures r.window == s.window && r.heals == s.heals
  {
    if s.pending == [] then s
    else if s.lastPushAt.None? || s.now - s.lastPushAt.value >= PUSH_COOLDOWN then PushPending(s, o)
    else if s.pushTimer.None? then s.(pushTimer := Some(s.lastPushAt.value + PUSH_COOLDOWN), mark := Settled)
    else s.(mark := Settled)
  }

  // ------------------------------------------------------------------- resyncs

  /** The body of a resync once any window it may close is closed. */
  function RunResync(s: State, o: Oracle, req: ResyncRequest, closed: bool): (r: State)
    ensures r.window == s.window && r.heals == s.heals
  {
    var a := o(s.tick);
    var s1 := Tick(s, a);
    if !Named(req.target) || a.metadata.None? then s1
    else
      var md := a.metadata.value;
      var w := Write(Resync, [], req.desired, req.scope, Some(ResolvedTarget(req.target, md.base, md.mode)), "", None);
      var c := CommitOne(s1, o, w);
      if !c.ok then c.state
      else
        var s2 := if c.changed then Retain(c.state, PendingWrite(w, req.byteSize, Unborn)) else c.state;
        if c.changed || closed then MaybeSchedulePush(s2, o) else s2
  }

  function ApplyResync(s: State, o: Oracle, req: ResyncRequest): (r: State)
    requires s.window.Some? ==> Consistent(s.window.value)
    ensures r.window == if req.heal then s.window else None
  {
    if req.heal then RunResync(s, o, req, false)
    else
      var f := Finalize(s, o);
      RunResync(f.state, o, req, f.retained)
  }

  function RunHeals(s: State, o: Oracle, heals: seq<ResyncRequest>): (r: State)
    ensures r.window == s.window && r.heals == s.heals
  {
    if heals == [] then s
    else RunResync(RunHeals(s, o, heals[..|heals| - 1]), o, heals[|heals| - 1], false)
  }

  /** Drains the parked heals, only when no window is open. */
  function ApplyHeals(s: State, o: Oracle): (r: State)
    ensures r.window == s.window
  {
    if s.window.Some? || s.heals == [] then s
    else RunHeals(s.(heals := []), o, s.heals)
  }

  predicate SameHeal(a: ResyncRequest, b: ResyncRequest) {
    a.target == b.target && a.scope == b.scope
  }

  /** A newer heal for the same target and scope replaces the parked one. */
  function StashHeal(heals: seq<ResyncRequest>, req: ResyncRequest): seq<ResyncRequest> {
    if heals == [] then [req]
    else if SameHeal(heals[0], req) then [req] + heals[1..]
    else [heals[0]] + StashHeal(heals[1..], req)
  }

  /** The first parked heal for the same target and scope is replaced in its place. */
  lemma {:induction false} StashReplaces(heals: seq<ResyncRequest>, req: ResyncRequest, i: nat)
    requires i < |heals| && SameHeal(heals[i], req) && forall k :: 0 <= k < i ==> !SameHeal(heals[k], req)
    ensures StashHeal(heals, req) == heals[i := req]
  {
    hide SameHeal;
    if i > 0 {
      StashReplaces(heals[1..], req, i - 1);
      assert heals[i := req] == [heals[0]] + heals[1..][i - 1 := req];
    }
  }

  lemma {:induction false} StashAppends(heals: seq<ResyncRequest>, req: ResyncRequest)
    requires forall k :: 0 <= k < |heals| ==> !SameHeal(heals[k], req)
    ensures StashHeal(heals, req) == heals + [req]
  {
    hide SameHeal;
    if heals != [] {
      StashAppends(heals[1..], req);
      assert heals + [req] == [heals[0]] + (heals[1..] + [req]);
    }
  }

  function HandleResync(s: State, o: Oracle, req: ResyncRequest): State
    requires s.window.Some? ==> Consistent(s.window.value)
  {
    if req.heal && s.window.Some? then s.(heals := StashHeal(s.heals, req))
    else ApplyResync(s, o, req)
  }

  // --------------------------------------------------------------- queue items

  function AtomicTarget(events: seq<Event>, target: TargetKey): TargetKey {
    if Named(target) then target
    else if events == [] then TargetKey("", "")
    else if Named(events[0].target) then events[0].target
    else AtomicTarget(events[1..], target)
  }

  function Retargeted(events: seq<Event>, target: TargetKey, base: string): (r: seq<Event>)
    ensures |r| == |events|
  {
    var rebased := Rebased(events, base);
    seq(|events|, i requires 0 <= i < |events| => rebased[i].(target := target))
  }

  function AtomicWrite(events: seq<Event>, target: TargetKey, message: string, md: Metadata): Write {
    if Named(target) then
      Write(Atomic, Retargeted(events, target, md.base), [], WholeTarget, Some(ResolvedTarget(target, md.base, md.mode)), message, None)
    else
      Write(Atomic, events, [], WholeTarget, None, message, None)
  }

  /** The part of an atomic request that follows the closing of the window. */
  function RunAtomic(s: State, o: Oracle, events: seq<Event>, target: TargetKey, message: string): (r: State)
    ensures r.window == s.window
  {
    var a := o(s.tick);
    var s1 := Tick(s, a);
    if events == [] || a.metadata.None? then s1
    else
      var w := AtomicWrite(events, target, message, a.metadata.value);
      var c := CommitOne(s1, o, w);
      if !c.ok then c.state
      else MaybeSchedulePush(Retain(c.state, PendingWrite(w, SizeOf(w.events), Unborn)), o)
  }

  function HandleAtomic(s: State, o: Oracle, events: seq<Event>, target: TargetKey, message: string): State
    requires s.window.Some? ==> Consistent(s.window.value)
  {
    var gate := o(s.tick);
    var s1 := Tick(s, gate);
    if Named(AtomicTarget(events, target)) && !gate.gateOpen then s1
    else RunAtomic(ApplyHeals(Finalize(s1, o).state, o), o, events, target, message)
  }

  /** Closes a window that the event cannot join. */
  function MakeRoom(s: State, o: Oracle, e: Event): (r: State)
    requires s.window.Some? ==> Consistent(s.window.value)
    ensures r.window.Some? ==> r.window == s.window && CanAppend(r.window.value, e)
  {
    if s.window.Some? && !CanAppend(s.window.value, e) then
      ApplyHeals(MaybeSchedulePush(Finalize(s, o).state, o), o)
    else s
  }

  /** Adds the event to the open window, opening one if there is none. */
  function AddEvent(s: State, e: Event): (r: State)
    requires s.window.Some? ==> Consistent(s.window.value) && CanAppend(s.window.value, e)
    ensures r.window.Some? && Consistent(r.window.value)
  {
    if s.window.Some? then
      AddKeepsConsistent(s.window.value, e);
      s.(window := Some(Add(s.window.value, e)), windowBytes := s.windowBytes + e.size)
    else
      AddKeepsConsistent(NewWindow(e), e);
      s.(window := Some(Add(NewWindow(e), e)), windowBytes := s.windowBytes + e.size)
  }

  /** Closes the window at once under memory pressure or without a commit window; otherwise
      restarts its silence timer. */
  function Settle(s: State, o: Oracle, cfg: Config): (r: State)
    requires s.window.Some? ==> Consistent(s.window.value)
    ensures r.window.Some? ==> r.window == s.window
  {
    if TotalRetainedBytes(s) >= cfg.maxBytes || cfg.commitWindow == 0 then
      MaybeSchedulePush(Finalize(s, o).state, o)
    else s.(commitTimer := Some(s.now + cfg.commitWindow))
  }

  /** One live event. */
  function HandleEvent(s: State, o: Oracle, cfg: Config, e: Event): (r: State)
    requires s.window.Some? ==> Consistent(s.window.value)
    ensures r.window.Some? ==> Consistent(r.window.value)
  {
    var gate := o(s.tick);
    var s1 := Tick(s, gate);
    if Named(e.target) && !gate.gateOpen then s1
    else Settle(AddEvent(MakeRoom(s1, o, e), e), o, cfg)
  }

  function HandleEvents(s: State, o: Oracle, cfg: Config, events: seq<Event>): (r: State)
    requires s.window.Some? ==> Consistent(s.window.value)
    ensures r.window.Some? ==> Consistent(r.window.value)
  {
    if events == [] then s
    else HandleEvent(HandleEvents(s, o, cfg, events[..|events| - 1]), o, cfg, events[|events| - 1])
  }

  /** `id` rides a retained write that has not been pushed. */
  predicate Rides(pending: seq<PendingWrite>, id: CrId) {
    exists i :: 0 <= i < |pending| && pending[i].write.cr == Some(id)
  }

  /** Registers a request; a repeated one is recognised only while it waits or once it is
      resolved. */
  function HandleAttach(s: State, req: Request): State {
    if req.id in s.outcomes || req.id in s.crs then s
    else s.(crs := s.crs[req.id := PendingCr(req, s.now + req.closeDelaySeconds * SECOND, false)],
            requests := s.requests[req.id := req],
            resent := s.resent || Rides(s.pending, req.id))
  }

  function HandleItem(s: State, o: Oracle, cfg: Config, item: Item): (r: State)
    requires s.window.Some? ==> Consistent(s.window.value)
    ensures r.window.Some? ==> Consistent(r.window.value)
  {
    match item
    case Attach(req) => HandleAttach(s, req)
    case ResyncItem(req) => HandleResync(s, o, req)
    case AtomicItem(events, target, message) => HandleAtomic(s, o, events, target, message)
    case LiveItem(events) => HandleEvents(s, o, cfg, events)
    case EmptyItem => s
  }

  // ------------------------------------------------- servicing CommitRequests

  /** The waiting request with the earliest deadline that matches the window; `order` is the
      order in which the map is ranged over. */
  function Oldest(crs: map<CrId, PendingCr>, w: Window, order: seq<CrId>): Option<CrId> {
    if order == [] then None
    else
      var best := Oldest(crs, w, order[..|order| - 1]);
      var id := order[|order| - 1];
      if id !in crs || crs[id].attached || !MatchesWindow(crs[id].request, w) then best
      else if best.None? || best.value !in crs || crs[id].finalizeAt < crs[best.value].finalizeAt then Some(id)
      else best
  }

  function AttachWaiting(s: State, order: seq<CrId>): (r: State)
    ensures r.window.Some? <==> s.window.Some?
    ensures s.window.Some? && Consistent(s.window.value) ==> Consistent(r.window.value)
  {
    if s.window.None? || s.window.value.cr.Some? then s
    else
      var best := Oldest(s.crs, s.window.value, order);
      if best.None? || best.value !in s.crs then s
      else
        var pcr := s.crs[best.value];
        s.(window := Some(s.window.value.(message := pcr.request.message, cr := best)),
           crs := s.crs[best.value := pcr.(attached := true)])
  }

  function Due(crs: map<CrId, PendingCr>, now: int, order: seq<CrId>): seq<CrId> {
    if order == [] then []
    else
      var before := Due(crs, now, order[..|order| - 1]);
      var id := order[|order| - 1];
      if id in crs && crs[id].finalizeAt <= now then before + [id] else before
  }

  predicate Claims(window: Option<Window>, id: CrId) {
    window.Some? && window.value.cr == Some(id)
  }

  /** A request that came due without a window of its own. */
  function Overdue(s: State, id: CrId): State
    requires id in s.crs
  {
    Finish(s, id, NoOpenWindow, Unclaimed(s.window, s.crs[id].finalizeAt, s.now))
  }

  function ServeDue(s: State, o: Oracle, id: CrId): (r: State)
    requires s.window.Some? ==> Consistent(s.window.value)
    ensures r.window.Some? ==> r.window == s.window
  {
    if id !in s.crs then s
    else if Claims(s.window, id) then
      var pushed := MaybeSchedulePush(Finalize(s, o).state, o);
      if id in pushed.crs then Overdue(pushed, id) else pushed
    else Overdue(s, id)
  }

  function ServeAllDue(s: State, o: Oracle, due: seq<CrId>): (r: State)
    requires s.window.Some? ==> Consistent(s.window.value)
    ensures r.window.Some? ==> r.window == s.window
  {
    if due == [] then s else ServeDue(ServeAllDue(s, o, due[..|due| - 1]), o, due[|due| - 1])
  }

  /** The earliest deadline among the pending requests. */
  function Earliest(crs: map<CrId, PendingCr>, order: seq<CrId>): Option<int> {
    if order == [] then None
    else
      var before := Earliest(crs, order[..|order| - 1]);
      var id := order[|order| - 1];
      if id !in crs then before
      else if before.None? || crs[id].finalizeAt < before.value then Some(crs[id].finalizeAt)
      else before
  }

  /** The timer fires at the deadline, or at once when that has passed. */
  function Rearm(s: State, order: seq<CrId>): State {
    var earliest := Earliest(s.crs, order);
    s.(attachTimer := if earliest.None? then None
                      else if earliest.value < s.now then Some(s.now)
                      else earliest)
  }

  function Service(s: State, o: Oracle, order: seq<CrId>): (r: State)
    requires s.window.Some? ==> Consistent(s.window.value)
    ensures r.window.Some? ==> Consistent(r.window.value)
  {
    if s.crs == map[] then s.(attachTimer := None)
    else
      var attached := AttachWaiting(s, order);
      Rearm(ServeAllDue(attached, o, Due(attached.crs, attached.now, order)), order)
  }

  // ---------------------------------------------------------------- the loop

  datatype Wake = Received(item: Item) | CommitTimeout | PushTimeout | AttachTimeout

  /** Waiting for a wake takes time. */
  function Woken(s: State, o: Oracle): State {
    Tick(s, o(s.tick))
  }

  function Dispatch(s: State, o: Oracle, cfg: Config, wake: Wake): (r: State)
    requires s.window.Some? ==> Consistent(s.window.value)
    ensures r.window.Some? ==> Consistent(r.window.value)
  {
    match wake
    case Received(item) => HandleItem(s, o, cfg, item)
    case CommitTimeout => MaybeSchedulePush(Finalize(s.(commitTimer := None), o).state, o)
    case PushTimeout => PushPending(s.(pushTimer := None), o)
    case AttachTimeout => s.(attachTimer := None)
  }

  /** One iteration of the loop. */
  function Step(s: State, o: Oracle, cfg: Config, wake: Wake, order: seq<CrId>): (r: State)
    requires s.window.Some? ==> Consistent(s.window.value)
    ensures r.window.Some? ==> Consistent(r.window.value)
  {
    ApplyHeals(Service(Dispatch(Woken(s, o), o, cfg, wake), o, order), o)
  }

  function Shutdown(s: State, o: Oracle): State
    requires s.window.Some? ==> Consistent(s.window.value)
  {
    var idle := ApplyHeals(Finalize(s, o).state, o);
    if idle.pending != [] then PushPending(idle, o) else idle
  }
}
