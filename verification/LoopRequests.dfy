/** The life of a CommitRequest across the loop, and the truth of what is reported for it. */
module LoopRequests {
  import opened Documents
  import opened OpenWindows
  import opened Writes
  import opened Tightening
  import opened Repository
  import opened Push
  import opened LoopSpec
  import opened LoopInvariants

  // --------------------------------------------------------------- repository

  /** The repository side of the worker, whatever happened so far. */
  ghost predicate RepoSound(r: Repo, pending: seq<PendingWrite>) {
    && (r.clobbered || HistoryKept(r))
    && (pending == [] ==> !r.aborted)
    && (pending != [] ==> r.aborted || Coherent(r, pending))
  }

  /** What any step does to the remote it shares: it only grows, unless a push replaced a
      branch it was not rooted on. */
  ghost predicate Advanced(before: Repo, after: Repo) {
    && after.target == before.target
    && (before.lost ==> after.lost)
    && (before.clobbered ==> after.clobbered)
    && (after.clobbered || Extends(before.refs, after.refs))
  }

  lemma AdvancedReflexive(r: Repo)
    ensures Advanced(r, r)
  {
  }

  lemma PreparedAdvances(r: Repo, moves: seq<Move>)
    requires r.clobbered || HistoryKept(r)
    ensures var p := Prepared(r, moves);
            && Advanced(r, p) && (p.clobbered || HistoryKept(p))
            && p.lost == r.lost && p.aborted == r.aborted && p.clobbered == r.clobbered
            && p.local == p.rootHash
  {
    if !r.clobbered { ObserveKeepsHistory(r, moves); }
  }

  /** The repository a write is committed on. */
  function Base(s: State, a: Answer): Repo {
    if s.pending != [] then s.repo else Prepared(s.repo, a.moves)
  }

  lemma BaseSound(s: State, a: Answer)
    requires RepoSound(s.repo, s.pending)
    ensures RepoSound(Base(s, a), s.pending) && Advanced(s.repo, Base(s, a))
    ensures Base(s, a).lost == s.repo.lost
    ensures !Base(s, a).aborted ==> Coherent(Base(s, a), s.pending)
  {
    AdvancedReflexive(s.repo);
    if s.pending == [] { PreparedAdvances(s.repo, a.moves); }
  }

  lemma CommitOneAdvances(s: State, o: Oracle, w: Write)
    requires RepoSound(s.repo, s.pending)
    ensures var c := CommitOne(s, o, w);
            && Advanced(s.repo, c.state.repo) && c.state.repo.lost == s.repo.lost
            && ((c.ok && c.changed) || RepoSound(c.state.repo, s.pending))
  {
    hide RepoSound, Advanced, CommitOn, Prepared;
    var a := o(s.tick);
    AdvancedReflexive(s.repo);
    BaseSound(s, a);
    if s.pending != [] || a.prepared { CommitOnAdvances(Tick(s, a), s.repo, Base(s, a), a, w); }
  }

  lemma CommitOnAdvances(s: State, from: Repo, base: Repo, a: Answer, w: Write)
    requires RepoSound(base, s.pending) && Advanced(from, base)
    ensures var c := CommitOn(s, base, a, w);
            && Advanced(from, c.state.repo) && c.state.repo.lost == base.lost
            && ((c.ok && c.changed) || RepoSound(c.state.repo, s.pending))
  {
    hide Built, ApplyWrite, HistoryKept;
    if !a.executed { } else { KeptIgnoresLocal(base, base.(local := CommitWrite(base.local, w, a.stamp))); }
  }

  /** The retained form of a committed write: its own commit, or none when it changed
      nothing (a grouped write then carries no request). */
  predicate Retainable(w: Write, before: History, after: History, pw: PendingWrite) {
    if after != before
    then pw.write == w && (pw.sha == after || (pw.sha == Unborn && !w.kind.Grouped?))
    else pw.sha == Unborn && (pw.write == w || (w.kind.Grouped? && pw.write == w.(cr := None)))
  }

  lemma BuiltExtends(root: History, ws: seq<PendingWrite>, local: History, w: Write, stamp: int, pw: PendingWrite)
    requires Built(root, ws, |ws|, local)
    requires Retainable(w, local, CommitWrite(local, w, stamp), pw)
    ensures Built(root, ws + [pw], |ws| + 1, CommitWrite(local, w, stamp))
  {
    BuiltAgrees(root, ws, ws + [pw], |ws|, local);
    assert (ws + [pw])[|ws|] == pw;
    assert ApplyWrite(TreeOf(local), pw.write) == ApplyWrite(TreeOf(local), w);
  }

  /** A committed write can be retained: the local head stays the root plus the queue. */
  lemma CommitOneRetains(s: State, o: Oracle, w: Write, pw: PendingWrite)
    requires RepoSound(s.repo, s.pending) && CommitOne(s, o, w).ok
    requires Retainable(w, Base(s, o(s.tick)).local, CommitOne(s, o, w).state.repo.local, pw)
    ensures RepoSound(CommitOne(s, o, w).state.repo, s.pending + [pw])
  {
    hide Built, ApplyWrite, Prepared, CommitWrite, Retainable, HistoryKept;
    var a := o(s.tick);
    BaseSound(s, a);
    var b := Base(s, a);
    var c := CommitOne(s, o, w);
    assert c.state.repo == b.(local := CommitWrite(b.local, w, a.stamp));
    if !b.aborted {
      BuiltExtends(b.rootHash, s.pending, b.local, w, a.stamp, pw);
    }
    assert HistoryKept(b) ==> HistoryKept(c.state.repo) by { KeptIgnoresLocal(b, c.state.repo); }
  }

  lemma KeptIgnoresLocal(r: Repo, r1: Repo)
    requires r1 == r.(local := r1.local)
    ensures HistoryKept(r) ==> HistoryKept(r1)
  {
  }

  // ----------------------------------------------------------- request desks

  /** The write carries this request: its message, its author, its target, and events that
      name an actor exactly when the request does. */
  predicate MatchesWrite(r: Request, w: Write) {
    && w.kind.Grouped? && w.message == r.message && w.cr == Some(r.id) && w.events != []
    && forall i :: 0 <= i < |w.events| ==>
         && w.events[i].author == r.author
         && w.events[i].target == r.target
         && NamesActor(w.events[i].attribution) == NamesActor(r.attribution)
  }

  /** Waiting and attached requests: the attached one is exactly the one the window claims,
      and the window carries its message for its author and target. */
  ghost predicate DeskOk(window: Option<Window>, crs: map<CrId, PendingCr>, requests: map<CrId, Request>) {
    && (forall id :: id in crs ==>
          && crs[id].request.id == id
          && id in requests && requests[id] == crs[id].request
          && (crs[id].attached ==> Claims(window, id)))
    && (window.Some? && window.value.cr.Some? ==>
          var id := window.value.cr.value;
          && id in crs && crs[id].attached
          && MatchesWindow(crs[id].request, window.value)
          && window.value.message == crs[id].request.message)
  }

  /** A request riding a retained write is nowhere else, rides only that write, and the
      write is the one its window became, up to tightened modes. */
  ghost predicate RiderOk(w: Write, id: CrId, crs: map<CrId, PendingCr>, outcomes: map<CrId, OutcomeEntry>,
                          requests: map<CrId, Request>, claims: map<CrId, Write>) {
    && id !in crs && id !in outcomes
    && id in requests && MatchesWrite(requests[id], w)
    && id in claims && w == claims[id].(target := w.target)
  }

  ghost predicate QueueOk(pending: seq<PendingWrite>, crs: map<CrId, PendingCr>, outcomes: map<CrId, OutcomeEntry>,
                          requests: map<CrId, Request>, claims: map<CrId, Write>) {
    && (forall i :: 0 <= i < |pending| && pending[i].write.cr.Some? ==>
          RiderOk(pending[i].write, pending[i].write.cr.value, crs, outcomes, requests, claims))
    && (forall i, j :: 0 <= i < j < |pending| && pending[i].write.cr.Some? ==> pending[i].write.cr != pending[j].write.cr)
  }

  ghost predicate Disjoint(crs: map<CrId, PendingCr>, outcomes: map<CrId, OutcomeEntry>) {
    forall id :: id in crs ==> id !in outcomes
  }

  /** A CommitRequest is in at most one place. */
  ghost predicate Lifecycle(s: State) {
    && DeskOk(s.window, s.crs, s.requests)
    && QueueOk(s.pending, s.crs, s.outcomes, s.requests, s.claims)
    && Disjoint(s.crs, s.outcomes)
  }

  /** A request reported Committed names a commit of the remote branch, made from exactly the
      write its window became. */
  ghost predicate TrueOutcome(id: CrId, sha: History, requests: map<CrId, Request>, claims: map<CrId, Write>, repo: Repo) {
    && sha.Commit? && Within(sha, Tip(repo.refs, repo.target))
    && sha.made.Mirror?
    && id in requests && MatchesWrite(requests[id], sha.made.write)
    && id in claims && sha.made.write == claims[id].(target := sha.made.write.target)
  }

  ghost predicate Truthful(outcomes: map<CrId, OutcomeEntry>, requests: map<CrId, Request>, claims: map<CrId, Write>, repo: Repo) {
    forall id :: id in outcomes && outcomes[id].outcome.Committed? ==>
      TrueOutcome(id, outcomes[id].outcome.sha, requests, claims, repo)
  }

  /** What holds of requests: their life as long as no riding id was registered again, and
      the truth of reported commits unless a push succeeded out of an aborted replay or
      replaced a foreign branch. */
  ghost predicate Requests(s: State) {
    s.resent || (&& Lifecycle(s)
                 && (s.repo.lost || s.repo.clobbered || Truthful(s.outcomes, s.requests, s.claims, s.repo)))
  }

  // ---------------------------------------------------- one change at a time

  lemma TruthAdvances(outcomes: map<CrId, OutcomeEntry>, requests: map<CrId, Request>, claims: map<CrId, Write>, before: Repo, after: Repo)
    requires Truthful(outcomes, requests, claims, before) && Advanced(before, after) && !after.clobbered
    ensures Truthful(outcomes, requests, claims, after)
  {
    forall id | id in outcomes && outcomes[id].outcome.Committed?
      ensures TrueOutcome(id, outcomes[id].outcome.sha, requests, claims, after)
    {
      var sha := outcomes[id].outcome.sha;
      assert TrueOutcome(id, sha, requests, claims, before);
      WithinTransitive(sha, Tip(before.refs, before.target), Tip(after.refs, after.target));
    }
  }

  /** A step that touches only the repository keeps the requests. */
  lemma RepoStepKeepsRequests(s: State, r: State)
    requires Requests(s) && Advanced(s.repo, r.repo)
    requires r.window == s.window && r.crs == s.crs && r.pending == s.pending
    requires r.outcomes == s.outcomes && r.requests == s.requests && r.claims == s.claims && r.resent == s.resent
    ensures Requests(r)
  {
    if !s.resent && !r.repo.lost && !r.repo.clobbered {
      TruthAdvances(s.outcomes, s.requests, s.claims, s.repo, r.repo);
    }
  }

  /** Resolving a request that no window claims, with anything but Committed. */
  lemma ResolveKeepsRequests(s: State, id: CrId, outcome: Outcome)
    requires Requests(s) && id in s.crs && !Claims(s.window, id) && !outcome.Committed?
    ensures Requests(Resolve(s, id, outcome))
  {
    if !s.resent {
      var r := Resolve(s, id, outcome);
      assert forall k :: k in r.outcomes ==> k == id || (k in s.outcomes && r.outcomes[k] == s.outcomes[k]);
      assert forall k :: k in r.crs ==> k in s.crs && k != id && r.crs[k] == s.crs[k];
      QueueSurvives(s, r);
    }
  }

  /** Riders stay sound while requests leave the desk and only other ids are resolved. */
  lemma QueueSurvives(s: State, r: State)
    requires QueueOk(s.pending, s.crs, s.outcomes, s.requests, s.claims)
    requires r.pending == s.pending && r.requests == s.requests && r.claims == s.claims
    requires forall k :: k in r.crs ==> k in s.crs
    requires forall k :: k in r.outcomes ==> k in s.outcomes || k in s.crs
    ensures QueueOk(r.pending, r.crs, r.outcomes, r.requests, r.claims)
  {
    forall i | 0 <= i < |r.pending| && r.pending[i].write.cr.Some?
      ensures RiderOk(r.pending[i].write, r.pending[i].write.cr.value, r.crs, r.outcomes, r.requests, r.claims)
    {
      assert RiderOk(s.pending[i].write, s.pending[i].write.cr.value, s.crs, s.outcomes, s.requests, s.claims);
    }
  }

  lemma DropForgetsClaim(s: State, cause: Cause)
    requires s.window.Some?
    ensures var r := DropWindow(s, cause);
            if s.window.value.cr.Some? then
              var id := s.window.value.cr.value;
              && (forall k :: k in r.outcomes ==> (k == id && r.outcomes[k].outcome == Failed(cause)) || (k in s.outcomes && r.outcomes[k] == s.outcomes[k]))
              && (forall k :: k in r.crs ==> k in s.crs && k != id && r.crs[k] == s.crs[k])
            else r.outcomes == s.outcomes && r.crs == s.crs
  {
  }

  lemma DropWindowKeepsRequests(s: State, cause: Cause)
    requires Requests(s) && s.window.Some?
    ensures Requests(DropWindow(s, cause))
  {
    hide RiderOk, TrueOutcome, DropWindow;
    DropForgetsClaim(s, cause);
    if !s.resent {
      var r := DropWindow(s, cause);
      if s.window.value.cr.Some? {
        var id := s.window.value.cr.value;
        QueueSurvives(s, r);
        assert DeskOk(r.window, r.crs, r.requests);
      } else {
        assert DeskOk(r.window, r.crs, r.requests);
      }
    }
  }

  /** The write of a claimed window matches the claiming request. */
  lemma WindowWriteMatches(w: Window, md: Metadata, r: Request)
    requires Consistent(w) && w.order != []
    requires MatchesWindow(r, w) && w.message == r.message && w.cr == Some(r.id)
    ensures MatchesWrite(r, GroupedWrite(w, OrderedEvents(w), md))
  {
    GroupedWriteOwned(w, md);
  }

  /** A window that leaves a commit: its request starts to ride the retained write. */
  lemma RideKeepsRequests(s: State, pw: PendingWrite, id: CrId)
    requires Requests(s) && Claims(s.window, id) && pw.write.cr == Some(id)
    requires !s.resent ==> MatchesWrite(s.crs[id].request, pw.write)
    ensures Requests(Ride(CloseInto(s, pw), id, pw.write))
  {
    if !s.resent {
      var r := Ride(CloseInto(s, pw), id, pw.write);
      assert id in s.crs && id !in s.outcomes;
      forall i | 0 <= i < |r.pending| && r.pending[i].write.cr.Some?
        ensures RiderOk(r.pending[i].write, r.pending[i].write.cr.value, r.crs, r.outcomes, r.requests, r.claims)
      {
        if i < |s.pending| {
          assert RiderOk(s.pending[i].write, s.pending[i].write.cr.value, s.crs, s.outcomes, s.requests, s.claims);
        }
      }
      assert QueueOk(r.pending, r.crs, r.outcomes, r.requests, r.claims);
      assert DeskOk(r.window, r.crs, r.requests);
      if !s.repo.lost && !s.repo.clobbered {
        forall k | k in r.outcomes && r.outcomes[k].outcome.Committed?
          ensures TrueOutcome(k, r.outcomes[k].outcome.sha, r.requests, r.claims, r.repo)
        {
          assert TrueOutcome(k, s.outcomes[k].outcome.sha, s.requests, s.claims, s.repo);
        }
      }
    }
  }

  /** A retained write without a request changes nothing for the requests. */
  lemma UnclaimedKeepsQueue(s: State, pw: PendingWrite)
    requires QueueOk(s.pending, s.crs, s.outcomes, s.requests, s.claims) && pw.write.cr.None?
    ensures QueueOk(s.pending + [pw], s.crs, s.outcomes, s.requests, s.claims)
  {
    var all := s.pending + [pw];
    forall i | 0 <= i < |all| && all[i].write.cr.Some?
      ensures RiderOk(all[i].write, all[i].write.cr.value, s.crs, s.outcomes, s.requests, s.claims)
    {
      assert all[i] == s.pending[i];
    }
  }

  lemma CloseKeepsRequests(s: State, pw: PendingWrite)
    requires Requests(s) && s.window.Some? && pw.write.cr.None?
    ensures s.window.value.cr.None? ==> Requests(CloseInto(s, pw))
    ensures s.window.value.cr.Some? ==> Requests(Resolve(CloseInto(s, pw), s.window.value.cr.value, AlreadyPresent))
  {
    if !s.resent {
      UnclaimedKeepsQueue(s, pw);
      var closed := CloseInto(s, pw);
      if s.window.value.cr.Some? {
        var id := s.window.value.cr.value;
        var r := Resolve(closed, id, AlreadyPresent);
        assert forall k :: k in r.outcomes ==> k == id || (k in s.outcomes && r.outcomes[k] == s.outcomes[k]);
        assert forall k :: k in r.crs ==> k in s.crs && k != id && r.crs[k] == s.crs[k];
        QueueSurvives(closed, r);
        assert DeskOk(r.window, r.crs, r.requests);
      } else {
        assert DeskOk(closed.window, closed.crs, closed.requests);
      }
    }
  }

  lemma RetainKeepsRequests(s: State, pw: PendingWrite)
    requires Requests(s) && pw.write.cr.None?
    ensures Requests(Retain(s, pw))
  {
    if !s.resent { UnclaimedKeepsQueue(s, pw); }
  }

  /** Everything that holds of the worker between two operations. */
  ghost predicate Sound(s: State) {
    Ledger(s) && RepoSound(s.repo, s.pending) && Requests(s)
  }

  lemma RetainWindowSound(s: State, o: Oracle, w: Window, md: Metadata)
    requires Ledger(s) && RepoSound(s.repo, s.pending) && Requests(s) && s.window == Some(w)
    requires CommitOne(s, o, GroupedWrite(w, OrderedEvents(w), md)).ok
    ensures var write := GroupedWrite(w, OrderedEvents(w), md);
            var r := RetainWindow(CommitOne(s, o, write), write, SizeOf(write.events));
            RepoSound(r.repo, r.pending) && Requests(r)
  {
    assert Consistent(w) && w.order != [];
    GroupedWriteOwned(w, md);
    hide RepoSound, Requests, CommitOne, GroupedWrite, WindowLedger, QueueLedger, Consistent;
    var write := GroupedWrite(w, OrderedEvents(w), md);
    var c := CommitOne(s, o, write);
    var size := SizeOf(write.events);
    var pw := RetainedWindow(c, write, size);
    RetainedWindowRetainable(s, o, write, size);
    CommitOneRetains(s, o, write, pw);
    CommitOneAdvances(s, o, write);
    RepoStepKeepsRequests(s, c.state);
    if write.cr.None? {
      CloseKeepsRequests(c.state, pw);
    } else if c.changed {
      RiderMatches(c.state, w, md);
      RideKeepsRequests(c.state, pw, write.cr.value);
    } else {
      CloseKeepsRequests(c.state, pw);
    }
  }

  lemma RetainedWindowRetainable(s: State, o: Oracle, w: Write, size: nat)
    requires w.kind.Grouped? && CommitOne(s, o, w).ok
    ensures Retainable(w, Base(s, o(s.tick)).local, CommitOne(s, o, w).state.repo.local, RetainedWindow(CommitOne(s, o, w), w, size))
  {
    hide ApplyWrite, Prepared;
    if s.pending != [] { } else { }
  }

  lemma RiderMatches(s: State, w: Window, md: Metadata)
    requires Requests(s) && s.window == Some(w) && w.cr.Some? && Consistent(w) && w.order != []
    ensures !s.resent ==> w.cr.value in s.crs && MatchesWrite(s.crs[w.cr.value].request, GroupedWrite(w, OrderedEvents(w), md))
  {
    if !s.resent {
      WindowWriteMatches(w, md, s.crs[w.cr.value].request);
    }
  }

  lemma CommitWindowSound(s: State, o: Oracle, md: Metadata)
    requires Sound(s) && s.window.Some?
    ensures Sound(CommitWindow(s, o, md).state)
  {
    CommitWindowLedger(s, o, md);
    hide RepoSound, Requests, CommitOne, GroupedWrite, QueueLedger, RetainWindow, DropWindow;
    var w := s.window.value;
    var write := GroupedWrite(w, OrderedEvents(w), md);
    var c := CommitOne(s, o, write);
    if !c.ok {
      CommitOneAdvances(s, o, write);
      RepoStepKeepsRequests(s, c.state);
      DropWindowSound(c.state, CommitFailed);
    } else {
      RetainWindowSound(s, o, w, md);
    }
  }

  lemma FinalizeSound(s: State, o: Oracle)
    requires Sound(s)
    ensures Sound(Finalize(s, o).state)
  {
    FinalizeLedger(s, o);
    if s.window.Some? {
      hide RepoSound, Requests, CommitWindow, QueueLedger, DropWindow;
      var w := s.window.value;
      var gate := o(s.tick);
      var s1 := Tick(s.(commitTimer := None), gate);
      RepoStepKeeps(s, s1);
      if Named(w.target) && !gate.gateOpen {
        DropWindowSound(s1, GateClosed);
      } else {
        var build := o(s1.tick);
        var s2 := Tick(s1, build);
        RepoStepKeeps(s1, s2);
        if build.metadata.None? || w.order == [] {
          DropWindowSound(s2, BuildFailed);
        } else {
          CommitWindowSound(s2, o, build.metadata.value);
        }
      }
    }
  }

  /** Time passing and timers are irrelevant. */
  lemma RepoStepKeeps(s: State, r: State)
    requires Requests(s) && RepoSound(s.repo, s.pending) && r.repo == s.repo
    requires r.window == s.window && r.crs == s.crs && r.pending == s.pending
    requires r.outcomes == s.outcomes && r.requests == s.requests && r.claims == s.claims && r.resent == s.resent
    ensures Requests(r) && RepoSound(r.repo, r.pending)
  {
    AdvancedReflexive(s.repo);
    RepoStepKeepsRequests(s, r);
  }

  lemma DropWindowSound(s: State, cause: Cause)
    requires Requests(s) && RepoSound(s.repo, s.pending) && s.window.Some?
    ensures Requests(DropWindow(s, cause)) && RepoSound(DropWindow(s, cause).repo, DropWindow(s, cause).pending)
  {
    hide RepoSound, Requests;
    DropWindowKeepsRequests(s, cause);
    if s.window.value.cr.Some? { } else { }
  }

  // ------------------------------------------------------------------ pushing

  lemma TightenedQueueOk(tight: seq<PendingWrite>, loose: seq<PendingWrite>, crs: map<CrId, PendingCr>,
                         outcomes: map<CrId, OutcomeEntry>, requests: map<CrId, Request>, claims: map<CrId, Write>)
    requires QueueOk(loose, crs, outcomes, requests, claims) && TightenedQueue(tight, loose)
    ensures QueueOk(tight, crs, outcomes, requests, claims)
  {
    forall i | 0 <= i < |tight| && tight[i].write.cr.Some?
      ensures RiderOk(tight[i].write, tight[i].write.cr.value, crs, outcomes, requests, claims)
    {
      assert TightenedWrite(tight[i].write, loose[i].write);
      assert RiderOk(loose[i].write, loose[i].write.cr.value, crs, outcomes, requests, claims);
    }
    forall i, j | 0 <= i < j < |tight| && tight[i].write.cr.Some?
      ensures tight[i].write.cr != tight[j].write.cr
    {
      assert TightenedWrite(tight[i].write, loose[i].write) && TightenedWrite(tight[j].write, loose[j].write);
    }
  }

  /** Write `i` reports commit `sha` for request `k`. */
  predicate Reports(ws: seq<PendingWrite>, i: int, k: CrId, outcome: Outcome) {
    && 0 <= i < |ws|
    && ws[i].write.cr == Some(k) && ws[i].sha != Unborn && outcome == Committed(ws[i].sha)
  }

  lemma {:induction false} ResolvePushedOutcomes(s: State, ws: seq<PendingWrite>)
    ensures var r := ResolvePushed(s, ws);
            && (forall k :: k in r.outcomes ==>
                  || (k in s.outcomes && r.outcomes[k] == s.outcomes[k])
                  || exists i :: Reports(ws, i, k, r.outcomes[k].outcome))
            && (forall k :: k in r.crs ==> k in s.crs && r.crs[k] == s.crs[k])
            && (forall k :: k in s.crs && !Rides(ws, k) ==> k in r.crs)
  {
    if ws != [] {
      var n := |ws| - 1;
      var rest, w := ws[..n], ws[n];
      ResolvePushedOutcomes(s, rest);
      var done, r := ResolvePushed(s, rest), ResolvePushed(s, ws);
      forall k | k in r.outcomes && !(k in s.outcomes && r.outcomes[k] == s.outcomes[k])
        ensures exists i :: Reports(ws, i, k, r.outcomes[k].outcome)
      {
        if w.write.cr == Some(k) && w.sha != Unborn {
          assert Reports(ws, n, k, r.outcomes[k].outcome);
        } else {
          assert r.outcomes[k] == done.outcomes[k];
          var i :| Reports(rest, i, k, done.outcomes[k].outcome);
          assert Reports(ws, i, k, r.outcomes[k].outcome);
        }
      }
      forall k | k in s.crs && !Rides(ws, k)
        ensures k in r.crs
      {
        assert ws[n].write.cr != Some(k);
        assert forall i :: 0 <= i < n ==> rest[i] == ws[i];
        assert !Rides(rest, k);
      }
    }
  }

  /** A successful push resolves the riders truthfully. */
  lemma PushedIsTrue(s: State, p: Pushed)
    requires Requests(s) && !s.resent && TightenedQueue(p.writes, s.pending)
    requires Advanced(s.repo, p.repo) && !p.repo.lost && !p.repo.clobbered
    requires Built(p.base, p.writes, |p.writes|, p.repo.local) && Tip(p.repo.refs, p.repo.target) == p.repo.local
    ensures var done := ResolvePushed(s.(repo := p.repo, pending := p.writes), p.writes);
            Truthful(done.outcomes, s.requests, s.claims, p.repo)
  {
    var s2 := s.(repo := p.repo, pending := p.writes);
    var done := ResolvePushed(s2, p.writes);
    ResolvePushedOutcomes(s2, p.writes);
    TruthAdvances(s.outcomes, s.requests, s.claims, s.repo, p.repo);
    TightenedQueueOk(p.writes, s.pending, s.crs, s.outcomes, s.requests, s.claims);
    forall k | k in done.outcomes && done.outcomes[k].outcome.Committed?
      ensures TrueOutcome(k, done.outcomes[k].outcome.sha, s.requests, s.claims, p.repo)
    {
      if k in s.outcomes && done.outcomes[k] == s.outcomes[k] {
      } else {
        var i :| Reports(p.writes, i, k, done.outcomes[k].outcome);
        BuiltHashesAreReal(p.base, p.writes, |p.writes|, p.repo.local, i);
        assert RiderOk(p.writes[i].write, k, s.crs, s.outcomes, s.requests, s.claims);
      }
    }
  }

  lemma PushedKeepsLifecycle(s: State, p: Pushed)
    requires Lifecycle(s) && TightenedQueue(p.writes, s.pending)
    ensures var done := ResolvePushed(s.(repo := p.repo, pending := p.writes), p.writes);
            && DeskOk(s.window, done.crs, s.requests)
            && Disjoint(done.crs, done.outcomes)
  {
    var s2 := s.(repo := p.repo, pending := p.writes);
    var done := ResolvePushed(s2, p.writes);
    ResolvePushedOutcomes(s2, p.writes);
    TightenedQueueOk(p.writes, s.pending, s.crs, s.outcomes, s.requests, s.claims);
    assert forall k :: k in s.crs ==> !Rides(p.writes, k);
    assert done.crs == s.crs;
  }

  lemma ContractAdvances(r: Repo, ws: seq<PendingWrite>, p: Pushed)
    requires PushContract(r, ws, p) && ws != []
    ensures Advanced(r, p.repo) && TightenedQueue(p.writes, ws)
    ensures p.ok ==> RepoSound(p.repo, [])
    ensures !p.ok ==> RepoSound(p.repo, p.writes)
  {
    hide Built;
  }

  lemma FailedPushKeepsRequests(s: State, p: Pushed)
    requires Requests(s) && Advanced(s.repo, p.repo) && TightenedQueue(p.writes, s.pending) && !p.ok
    ensures Requests(AfterPush(s, p))
  {
    if !s.resent {
      TightenedQueueOk(p.writes, s.pending, s.crs, s.outcomes, s.requests, s.claims);
      if !p.repo.lost && !p.repo.clobbered {
        TruthAdvances(s.outcomes, s.requests, s.claims, s.repo, p.repo);
      }
    }
  }

  lemma SuccessfulPushKeepsRequests(s: State, p: Pushed)
    requires Requests(s) && PushContract(s.repo, s.pending, p) && p.ok && Advanced(s.repo, p.repo)
    ensures Requests(AfterPush(s, p))
  {
    if !s.resent {
      var s1 := s.(pushTimer := None);
      PushedKeepsLifecycle(s1, p);
      if !p.repo.lost && !p.repo.clobbered {
        PushedIsTrue(s1, p);
      }
    }
  }

  lemma SoundPush(r: Repo, ws: seq<PendingWrite>, env: nat -> Attempt)
    requires RepoSound(r, ws) && ws != []
    ensures PushContract(r, ws, PushFrom(r, ws, env, 0))
  {
    hide PushFrom, PushContract;
    PushRefinesFold(r, ws, env, 0);
  }

  lemma AfterPushSound(s: State, p: Pushed)
    requires Requests(s) && PushContract(s.repo, s.pending, p) && s.pending != []
    ensures Requests(AfterPush(s, p)) && RepoSound(AfterPush(s, p).repo, AfterPush(s, p).pending)
  {
    hide RepoSound, Requests, PushContract, TightenedQueue;
    ContractAdvances(s.repo, s.pending, p);
    if !p.ok {
      FailedPushKeepsRequests(s, p);
    } else {
      SuccessfulPushKeepsRequests(s, p);
    }
  }

  lemma PushPendingSound(s: State, o: Oracle)
    requires Sound(s)
    ensures Sound(PushPending(s, o))
  {
    PushPendingLedger(s, o);
    hide Ledger, RepoSound, Requests, PushFrom, PushContract, AfterPush;
    if s.pending == [] {
      RepoStepKeeps(s, s.(pushTimer := None));
    } else if !o(s.tick).ready {
      GivenUpSound(s, Tick(s, o(s.tick)));
    } else {
      var a := o(s.tick);
      RepoStepKeeps(s, Tick(s, a));
      SoundPush(s.repo, s.pending, a.attempts);
      AfterPushSound(Tick(s, a), PushFrom(s.repo, s.pending, a.attempts, 0));
    }
  }

  lemma GivenUpSound(s: State, s1: State)
    requires Requests(s) && RepoSound(s.repo, s.pending) && s1 == s.(tick := s1.tick, now := s1.now)
    ensures var r := s1.(pushTimer := None, mark := PushFailed(s1.repo, s1.pending, s1.tick)); Requests(r) && RepoSound(r.repo, r.pending)
  {
    hide RepoSound, Requests;
    RepoStepKeeps(s, s1.(pushTimer := None, mark := PushFailed(s1.repo, s1.pending, s1.tick)));
  }

  lemma RescheduledSound(s: State, timer: Option<int>, mark: Mark)
    requires Sound(s)
    ensures Sound(s.(pushTimer := timer, mark := mark))
  {
    hide RepoSound, Requests, WindowLedger, QueueLedger;
    RepoStepKeeps(s, s.(pushTimer := timer, mark := mark));
  }

  lemma MaybeSchedulePushSound(s: State, o: Oracle)
    requires Sound(s)
    ensures Sound(MaybeSchedulePush(s, o))
  {
    hide PushPending, Sound;
    PushPendingSound(s, o);
    RescheduledSound(s, s.pushTimer, Settled);
    if s.lastPushAt.Some? { RescheduledSound(s, Some(s.lastPushAt.value + PUSH_COOLDOWN), Settled); }
  }

  // ------------------------------------------------------------ the other steps

  /** Committing and retaining a write that no request rides. */
  lemma RetainOwnSound(s: State, o: Oracle, w: Write, size: nat)
    requires Sound(s) && CommitOne(s, o, w).ok && !w.kind.Grouped? && w.cr.None?
    ensures Sound(Retain(CommitOne(s, o, w).state, PendingWrite(w, size, Unborn)))
  {
    var c := CommitOne(s, o, w);
    var pw := PendingWrite(w, size, Unborn);
    QueueLedgerAppend(s.pending, s.pendingBytes, pw);
    CommitOneAdvances(s, o, w);
    CommitOneRetains(s, o, w, pw);
    hide RepoSound, Requests, CommitOne, QueueLedger, WindowLedger;
    RepoStepKeepsRequests(s, c.state);
    RetainKeepsRequests(c.state, pw);
  }

  lemma CommitFailedSound(s: State, o: Oracle, w: Write)
    requires Sound(s)
    ensures !CommitOne(s, o, w).ok || !CommitOne(s, o, w).changed ==> Sound(CommitOne(s, o, w).state)
  {
    CommitOneAdvances(s, o, w);
    hide RepoSound, Requests, CommitOne, QueueLedger, WindowLedger;
    RepoStepKeepsRequests(s, CommitOne(s, o, w).state);
  }

  lemma RunResyncSound(s: State, o: Oracle, req: ResyncRequest, closed: bool)
    requires Sound(s)
    ensures Sound(RunResync(s, o, req, closed))
  {
    hide RepoSound, Requests, CommitOne, QueueLedger, WindowLedger, MaybeSchedulePush;
    var a := o(s.tick);
    var s1 := Tick(s, a);
    RepoStepKeeps(s, s1);
    if !Named(req.target) || a.metadata.None? {
    } else {
      var md := a.metadata.value;
      var w := Write(Resync, [], req.desired, req.scope, Some(ResolvedTarget(req.target, md.base, md.mode)), "", None);
      CommitFailedSound(s1, o, w);
      var c := CommitOne(s1, o, w);
      if !c.ok {
      } else if c.changed {
        RetainOwnSound(s1, o, w, req.byteSize);
        MaybeSchedulePushSound(Retain(c.state, PendingWrite(w, req.byteSize, Unborn)), o);
      } else {
        MaybeSchedulePushSound(c.state, o);
        if closed { } else { }
      }
    }
  }

  lemma {:induction false} RunHealsSound(s: State, o: Oracle, heals: seq<ResyncRequest>)
    requires Sound(s)
    ensures Sound(RunHeals(s, o, heals))
  {
    hide RunResync, Sound;
    if heals != [] {
      RunHealsSound(s, o, heals[..|heals| - 1]);
      RunResyncSound(RunHeals(s, o, heals[..|heals| - 1]), o, heals[|heals| - 1], false);
    }
  }

  lemma ApplyHealsSound(s: State, o: Oracle)
    requires Sound(s)
    ensures Sound(ApplyHeals(s, o))
  {
    if s.window.Some? || s.heals == [] {
    } else {
      RepoStepKeeps(s, s.(heals := []));
      hide RunHeals, RepoSound, Requests;
      RunHealsSound(s.(heals := []), o, s.heals);
    }
  }

  lemma RunAtomicSound(s: State, o: Oracle, events: seq<Event>, target: TargetKey, message: string)
    requires Sound(s)
    ensures Sound(RunAtomic(s, o, events, target, message))
  {
    hide RepoSound, Requests, CommitOne, QueueLedger, WindowLedger, MaybeSchedulePush;
    var a := o(s.tick);
    var s1 := Tick(s, a);
    RepoStepKeeps(s, s1);
    if events == [] || a.metadata.None? {
    } else {
      var w := AtomicWrite(events, target, message, a.metadata.value);
      CommitFailedSound(s1, o, w);
      var c := CommitOne(s1, o, w);
      if c.ok {
        RetainOwnSound(s1, o, w, SizeOf(w.events));
        MaybeSchedulePushSound(Retain(c.state, PendingWrite(w, SizeOf(w.events), Unborn)), o);
      } else {
      }
    }
  }

  lemma HandleAtomicSound(s: State, o: Oracle, events: seq<Event>, target: TargetKey, message: string)
    requires Sound(s)
    ensures Sound(HandleAtomic(s, o, events, target, message))
  {
    hide RepoSound, Requests, Finalize, ApplyHeals, RunAtomic;
    var gate := o(s.tick);
    var s1 := Tick(s, gate);
    RepoStepKeeps(s, s1);
    if Named(AtomicTarget(events, target)) && !gate.gateOpen {
    } else {
      FinalizeSound(s1, o);
      ApplyHealsSound(Finalize(s1, o).state, o);
      RunAtomicSound(ApplyHeals(Finalize(s1, o).state, o), o, events, target, message);
    }
  }

  lemma AddEventKeepsRequests(s: State, e: Event)
    requires Requests(s) && (s.window.Some? ==> Consistent(s.window.value) && CanAppend(s.window.value, e))
    ensures Requests(AddEvent(s, e))
  {
    hide Consistent, Truthful, QueueOk, Disjoint;
    if s.window.Some? { } else { }
  }

  lemma AddEventSound(s: State, e: Event)
    requires Sound(s) && (s.window.Some? ==> CanAppend(s.window.value, e))
    ensures Sound(AddEvent(s, e))
  {
    AddEventLedger(s, e);
    AddEventKeepsRequests(s, e);
    hide Ledger, Requests, RepoSound;
    if s.window.Some? { } else { }
  }

  lemma MakeRoomSound(s: State, o: Oracle, e: Event)
    requires Sound(s)
    ensures Sound(MakeRoom(s, o, e))
  {
    hide RepoSound, Requests, Finalize, ApplyHeals, MaybeSchedulePush;
    if s.window.Some? && !CanAppend(s.window.value, e) {
      FinalizeSound(s, o);
      MaybeSchedulePushSound(Finalize(s, o).state, o);
      ApplyHealsSound(MaybeSchedulePush(Finalize(s, o).state, o), o);
    } else {
    }
  }

  lemma SettleSound(s: State, o: Oracle, cfg: Config)
    requires Sound(s)
    ensures Sound(Settle(s, o, cfg))
  {
    hide RepoSound, Requests, Finalize, MaybeSchedulePush;
    if TotalRetainedBytes(s) >= cfg.maxBytes || cfg.commitWindow == 0 {
      FinalizeSound(s, o);
      MaybeSchedulePushSound(Finalize(s, o).state, o);
    } else {
      RepoStepKeeps(s, Settle(s, o, cfg));
    }
  }

  lemma HandleEventSound(s: State, o: Oracle, cfg: Config, e: Event)
    requires Sound(s)
    ensures Sound(HandleEvent(s, o, cfg, e))
  {
    hide RepoSound, Requests, MakeRoom, AddEvent, Settle;
    var gate := o(s.tick);
    var s1 := Tick(s, gate);
    RepoStepKeeps(s, s1);
    if Named(e.target) && !gate.gateOpen {
    } else {
      MakeRoomSound(s1, o, e);
      AddEventSound(MakeRoom(s1, o, e), e);
      SettleSound(AddEvent(MakeRoom(s1, o, e), e), o, cfg);
    }
  }

  lemma {:induction false} HandleEventsSound(s: State, o: Oracle, cfg: Config, events: seq<Event>)
    requires Sound(s)
    ensures Sound(HandleEvents(s, o, cfg, events))
  {
    hide HandleEvent, RepoSound, Requests;
    if events != [] {
      HandleEventsSound(s, o, cfg, events[..|events| - 1]);
      HandleEventSound(HandleEvents(s, o, cfg, events[..|events| - 1]), o, cfg, events[|events| - 1]);
    }
  }

  lemma RegisterKeepsRequests(s: State, req: Request)
    requires Requests(s) && req.id !in s.outcomes && req.id !in s.crs
    ensures Requests(HandleAttach(s, req))
  {
    var r := HandleAttach(s, req);
    if !r.resent {
      assert DeskOk(r.window, r.crs, r.requests);
      forall i | 0 <= i < |r.pending| && r.pending[i].write.cr.Some?
        ensures RiderOk(r.pending[i].write, r.pending[i].write.cr.value, r.crs, r.outcomes, r.requests, r.claims)
      {
        assert RiderOk(s.pending[i].write, s.pending[i].write.cr.value, s.crs, s.outcomes, s.requests, s.claims);
        assert s.pending[i].write.cr != Some(req.id);
      }
      assert QueueOk(r.pending, r.crs, r.outcomes, r.requests, r.claims);
      if !s.repo.lost && !s.repo.clobbered {
        forall k | k in r.outcomes && r.outcomes[k].outcome.Committed?
          ensures TrueOutcome(k, r.outcomes[k].outcome.sha, r.requests, r.claims, r.repo)
        {
          assert TrueOutcome(k, s.outcomes[k].outcome.sha, s.requests, s.claims, s.repo);
        }
      }
    }
  }

  /** Registering a request; only an id that is riding a write can be registered wrongly, and
      that is recorded. */
  lemma HandleAttachSound(s: State, req: Request)
    requires Sound(s)
    ensures Sound(HandleAttach(s, req))
  {
    hide Requests, RepoSound, WindowLedger, QueueLedger;
    if req.id in s.outcomes || req.id in s.crs {
    } else {
      RegisterKeepsRequests(s, req);
    }
  }

  lemma HandleResyncSound(s: State, o: Oracle, req: ResyncRequest)
    requires Sound(s)
    ensures Sound(HandleResync(s, o, req))
  {
    hide RepoSound, Requests, Finalize, RunResync;
    if req.heal && s.window.Some? {
      RepoStepKeeps(s, HandleResync(s, o, req));
    } else if req.heal {
      RunResyncSound(s, o, req, false);
    } else {
      FinalizeSound(s, o);
      RunResyncSound(Finalize(s, o).state, o, req, Finalize(s, o).retained);
    }
  }

  lemma HandleItemSound(s: State, o: Oracle, cfg: Config, item: Item)
    requires Sound(s)
    ensures Sound(HandleItem(s, o, cfg, item))
  {
    hide RepoSound, Requests, HandleResync, HandleAtomic, HandleEvents, HandleAttach;
    match item
    case Attach(req) => HandleAttachSound(s, req);
    case ResyncItem(req) => HandleResyncSound(s, o, req);
    case AtomicItem(events, target, message) => HandleAtomicSound(s, o, events, target, message);
    case LiveItem(events) => HandleEventsSound(s, o, cfg, events);
    case EmptyItem =>
  }
}
