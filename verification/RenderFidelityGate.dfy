/** The render-fidelity gate (internal/git/render_fidelity_gate.go): which targets may take live
    writes. Epochs are unbounded here; every method runs under the gate's lock, so a run is a
    sequence of calls. */
module RenderFidelity {
  import opened Documents
  import opened Ordering

  datatype Scope = Scope(gvr: string, namespace: string)

  function Key(s: Scope): string {
    s.gvr + "|" + s.namespace
  }

  datatype Divergence = Divergence(field: string, token: string)

  datatype Result = Result(clean: bool, finished: bool, divergence: Option<Divergence>)

  const PENDING := Result(false, false, None)
  const WRITE := "write"

  datatype TargetState = TargetState(epoch: nat, scopes: map<string, Result>)

  datatype Verdict = Unknown | Matches | Differs

  datatype Status = Status(epoch: nat, verdict: Verdict, divergence: Option<Divergence>, scopeCount: nat, cleanScopes: nat)

  /** No scope is recorded under the key of a failed write. */
  lemma ScopeKeyIsNotWrite(s: Scope)
    ensures Key(s) != WRITE
  {
    assert Key(s)[|s.gvr|] == '|';
    assert '|' in Key(s) && '|' !in WRITE;
  }

  // ------------------------------------------------------------------ reduction

  predicate Diverged(r: Result) {
    r.finished && r.divergence.Some?
  }

  predicate Clean(r: Result) {
    r.finished && r.clean
  }

  function CleanCount(scopes: map<string, Result>, keys: seq<string>): nat
    requires forall k :: k in keys ==> k in scopes
  {
    if keys == [] then 0
    else CleanCount(scopes, keys[..|keys| - 1]) + if Clean(scopes[keys[|keys| - 1]]) then 1 else 0
  }

  /** The first diverged scope in key order decides; without one, every scope must be clean. */
  ghost predicate IsReduction(s: TargetState, keys: seq<string>, r: Status)
    requires forall k :: k in keys ==> k in s.scopes
  {
    && r.epoch == s.epoch && r.scopeCount == |s.scopes|
    && (if exists k :: k in s.scopes && Diverged(s.scopes[k]) then
          && r.verdict == Differs
          && exists i :: 0 <= i < |keys| && FirstDiverged(s, keys, i)
                         && r.divergence == s.scopes[keys[i]].divergence && r.cleanScopes == CleanCount(s.scopes, keys[..i])
        else
          && r.divergence.None? && r.cleanScopes == CleanCount(s.scopes, keys)
          && r.verdict == if forall k :: k in s.scopes ==> Clean(s.scopes[k]) then Matches else Unknown)
  }

  predicate FirstDiverged(s: TargetState, keys: seq<string>, i: int)
    requires 0 <= i < |keys| && forall k :: k in keys ==> k in s.scopes
  {
    Diverged(s.scopes[keys[i]]) && forall j :: 0 <= j < i ==> !Diverged(s.scopes[keys[j]])
  }

  lemma {:induction false} CountsAll(scopes: map<string, Result>, keys: seq<string>)
    requires forall k :: k in keys ==> k in scopes
    ensures CleanCount(scopes, keys) <= |keys|
    ensures CleanCount(scopes, keys) == |keys| <==> forall k :: k in keys ==> Clean(scopes[k])
  {
    if keys != [] {
      var n := |keys| - 1;
      CountsAll(scopes, keys[..n]);
      assert keys == keys[..n] + [keys[n]];
    }
  }

  lemma {:induction false} ListingSize(keys: seq<string>, all: set<string>)
    requires Ascending(keys) && Lists(keys, all)
    ensures |keys| == |all|
  {
    if keys == [] {
      assert all == {};
    } else {
      TailElements(keys);
      ListingSize(keys[1..], all - {keys[0]});
      assert keys[0] in keys;
    }
  }

  method Reduce(s: TargetState) returns (r: Status)
    ensures exists keys :: Ascending(keys) && Lists(keys, s.scopes.Keys) && IsReduction(s, keys, r)
  {
    hide Less;
    var keys := SortedKeys(s.scopes.Keys);
    ListingSize(keys, s.scopes.Keys);
    CountsAll(s.scopes, keys);
    var clean := 0;
    for i := 0 to |keys|
      invariant clean == CleanCount(s.scopes, keys[..i])
      invariant forall j :: 0 <= j < i ==> !Diverged(s.scopes[keys[j]])
    {
      assert keys[..i + 1][..i] == keys[..i];
      var result := s.scopes[keys[i]];
      if !result.finished {
        continue;
      }
      if result.divergence.Some? {
        assert FirstDiverged(s, keys, i);
        return Status(s.epoch, Differs, result.divergence, |s.scopes|, clean);
      }
      if result.clean {
        clean := clean + 1;
      }
    }
    assert keys[..|keys|] == keys;
    r := Status(s.epoch, if clean != |s.scopes| then Unknown else Matches, None, |s.scopes|, clean);
  }

  // ----------------------------------------------------------------- transitions

  datatype Op =
    | Begin(scopes: seq<Scope>)
    | Record(epoch: nat, scope: Scope, divergence: Option<Divergence>)
    | Fail(found: Divergence)
    | Forget

  datatype Call = Call(target: string, op: Op)

  type Gate = map<string, TargetState>

  function KeysOf(scopes: seq<Scope>): set<string> {
    set i | 0 <= i < |scopes| :: Key(scopes[i])
  }

  function Pending(keys: set<string>): map<string, Result> {
    map k | k in keys :: PENDING
  }

  function EpochOf(g: Gate, t: string): nat {
    if t in g then g[t].epoch else 0
  }

  /** A result counts only for the current epoch and a scope of the current set. */
  predicate Accepts(g: Gate, t: string, epoch: nat, key: string) {
    t in g && g[t].epoch == epoch && key in g[t].scopes
  }

  /** A divergence is not cleared by a later clean result. */
  function Recorded(before: Result, divergence: Option<Divergence>): Result {
    if before.divergence.Some? && divergence.None? then before else Result(divergence.None?, true, divergence)
  }

  function Apply(g: Gate, c: Call): Gate {
    var t := c.target;
    match c.op
    case Begin(scopes) => g[t := TargetState(EpochOf(g, t) + 1, Pending(KeysOf(scopes)))]
    case Record(epoch, scope, divergence) =>
      if !Accepts(g, t, epoch, Key(scope)) then g
      else g[t := g[t].(scopes := g[t].scopes[Key(scope) := Recorded(g[t].scopes[Key(scope)], divergence)])]
    case Fail(found) =>
      var s := if t in g then g[t] else TargetState(1, map[]);
      g[t := s.(scopes := s.scopes[WRITE := Result(false, true, Some(found))])]
    case Forget => g - {t}
  }

  function GateAfter(h: seq<Call>): Gate {
    if h == [] then map[] else Apply(GateAfter(h[..|h| - 1]), h[|h| - 1])
  }

  /** The verdict the reduction gives; a target the gate does not know is writable. */
  function VerdictOf(g: Gate, t: string): Verdict {
    if t !in g then Matches
    else if exists k :: k in g[t].scopes && Diverged(g[t].scopes[k]) then Differs
    else if forall k :: k in g[t].scopes ==> Clean(g[t].scopes[k]) then Matches
    else Unknown
  }

  // -------------------------------------------------------------------- history

  predicate Resets(c: Call, t: string) {
    c.target == t && (c.op.Begin? || c.op.Forget?)
  }

  /** Nothing after call `i` starts or forgets the target. */
  predicate Stands(h: seq<Call>, t: string, i: int) {
    forall j :: i < j < |h| && 0 <= j ==> !Resets(h[j], t)
  }

  /** Call `b` is the epoch's beginning. */
  predicate BeganAt(h: seq<Call>, t: string, b: int) {
    0 <= b < |h| && h[b].target == t && h[b].op.Begin? && Stands(h, t, b)
  }

  /** The number of the current epoch: one for each beginning since the target was last
      forgotten, and one for a failed write before the first. */
  function Epoch(h: seq<Call>, t: string): nat {
    if h == [] then 0
    else
      var before := Epoch(h[..|h| - 1], t);
      var c := h[|h| - 1];
      if c.target != t then before
      else match c.op
        case Begin(_) => before + 1
        case Fail(_) => if before == 0 then 1 else before
        case Forget => 0
        case Record(_, _, _) => before
  }

  /** Call `i` reports on a scope of the epoch that is current when it is made. */
  ghost predicate Accepted(h: seq<Call>, t: string, i: int) {
    && 0 <= i < |h| && h[i].target == t && h[i].op.Record?
    && h[i].op.epoch == Epoch(h[..i], t)
    && exists b :: BeganAt(h[..i], t, b) && Key(h[i].op.scope) in KeysOf(h[b].op.scopes)
  }

  predicate FailedAt(h: seq<Call>, t: string, i: int) {
    0 <= i < |h| && Stands(h, t, i) && h[i].target == t && h[i].op.Fail?
  }

  ghost predicate DivergedAt(h: seq<Call>, t: string, i: int, k: string) {
    Accepted(h, t, i) && Stands(h, t, i) && Key(h[i].op.scope) == k && h[i].op.divergence.Some?
  }

  ghost predicate CleanAt(h: seq<Call>, t: string, i: int, k: string) {
    Accepted(h, t, i) && Stands(h, t, i) && Key(h[i].op.scope) == k && h[i].op.divergence.None?
  }

  ghost predicate Failed(h: seq<Call>, t: string) {
    exists i :: FailedAt(h, t, i)
  }

  ghost predicate EverDiverged(h: seq<Call>, t: string, k: string) {
    exists i :: DivergedAt(h, t, i, k)
  }

  ghost predicate EverClean(h: seq<Call>, t: string, k: string) {
    exists i :: CleanAt(h, t, i, k)
  }

  /** The state of a target is a function of its history. */
  ghost predicate Reflects(h: seq<Call>, t: string, g: Gate) {
    && (t in g <==> Epoch(h, t) > 0)
    && (t in g <==> Failed(h, t) || Begun(h, t))
    && (t in g ==>
          && g[t].epoch == Epoch(h, t)
          && (WRITE in g[t].scopes <==> Failed(h, t))
          && (forall k :: k in g[t].scopes && k != WRITE <==> k != WRITE && InScope(h, t, k))
          && (forall k :: k in g[t].scopes ==> ResultOk(h, t, k, g[t].scopes[k])))
  }

  ghost predicate Begun(h: seq<Call>, t: string) {
    exists b :: BeganAt(h, t, b)
  }

  ghost predicate InScope(h: seq<Call>, t: string, k: string) {
    exists b :: BeganAt(h, t, b) && k in KeysOf(h[b].op.scopes)
  }

  ghost predicate ResultOk(h: seq<Call>, t: string, k: string, r: Result) {
    if k == WRITE then Diverged(r)
    else
      && (Diverged(r) <==> EverDiverged(h, t, k))
      && (Clean(r) <==> EverClean(h, t, k) && !EverDiverged(h, t, k))
      && (r.divergence.Some? ==> r.finished)
  }

  // ----------------------------------------------- one more call, fact by fact

  lemma StandsStep(h: seq<Call>, t: string, i: int)
    requires h != [] && 0 <= i < |h|
    ensures i < |h| - 1 ==> (Stands(h, t, i) <==> Stands(h[..|h| - 1], t, i) && !Resets(h[|h| - 1], t))
    ensures i == |h| - 1 ==> Stands(h, t, i)
  {
  }

  lemma BeganStep(h: seq<Call>, t: string, b: int)
    requires h != []
    ensures BeganAt(h, t, b) <==>
            if b == |h| - 1 then h[b].target == t && h[b].op.Begin?
            else BeganAt(h[..|h| - 1], t, b) && !Resets(h[|h| - 1], t)
  {
    if 0 <= b < |h| { StandsStep(h, t, b); }
  }

  lemma AcceptedStep(h: seq<Call>, t: string, i: int)
    requires h != [] && i < |h| - 1
    ensures Accepted(h, t, i) <==> Accepted(h[..|h| - 1], t, i)
  {
    if 0 <= i {
      assert h[..|h| - 1][..i] == h[..i];
    }
  }

  lemma FailedStep(h: seq<Call>, t: string)
    requires h != []
    ensures var c := h[|h| - 1];
            Failed(h, t) <==> (Failed(h[..|h| - 1], t) && !Resets(c, t)) || (c.target == t && c.op.Fail?)
  {
    var n := |h| - 1;
    if Failed(h, t) {
      var i :| FailedAt(h, t, i);
      StandsStep(h, t, i);
      if i < n { assert FailedAt(h[..n], t, i); }
    }
    if Failed(h[..n], t) && !Resets(h[n], t) {
      var i :| FailedAt(h[..n], t, i);
      StandsStep(h, t, i);
      assert FailedAt(h, t, i);
    }
    if h[n].target == t && h[n].op.Fail? {
      StandsStep(h, t, n);
      assert FailedAt(h, t, n);
    }
  }

  lemma InScopeStep(h: seq<Call>, t: string, k: string)
    requires h != []
    ensures var c := h[|h| - 1];
            InScope(h, t, k) <==>
            (InScope(h[..|h| - 1], t, k) && !Resets(c, t)) || (c.target == t && c.op.Begin? && k in KeysOf(c.op.scopes))
  {
    hide KeysOf;
    var n := |h| - 1;
    if InScope(h, t, k) {
      var b :| BeganAt(h, t, b) && k in KeysOf(h[b].op.scopes);
      BeganStep(h, t, b);
    }
    if InScope(h[..n], t, k) && !Resets(h[n], t) {
      var b :| BeganAt(h[..n], t, b) && k in KeysOf(h[..n][b].op.scopes);
      BeganStep(h, t, b);
      assert BeganAt(h, t, b);
    }
    if h[n].target == t && h[n].op.Begin? { BeganStep(h, t, n); }
  }

  lemma BegunStep(h: seq<Call>, t: string)
    requires h != []
    ensures var c := h[|h| - 1];
            Begun(h, t) <==> (Begun(h[..|h| - 1], t) && !Resets(c, t)) || (c.target == t && c.op.Begin?)
  {
    var n := |h| - 1;
    if Begun(h, t) {
      var b :| BeganAt(h, t, b);
      BeganStep(h, t, b);
    }
    if Begun(h[..n], t) && !Resets(h[n], t) {
      var b :| BeganAt(h[..n], t, b);
      BeganStep(h, t, b);
    }
    if h[n].target == t && h[n].op.Begin? { BeganStep(h, t, n); }
  }

  lemma InScopeBegun(h: seq<Call>, t: string)
    ensures forall k :: InScope(h, t, k) ==> Begun(h, t)
  {
  }

  lemma KeysAreNotWrite(scopes: seq<Scope>)
    ensures WRITE !in KeysOf(scopes)
  {
    if WRITE in KeysOf(scopes) {
      var i :| 0 <= i < |scopes| && Key(scopes[i]) == WRITE;
      ScopeKeyIsNotWrite(scopes[i]);
    }
  }

  lemma LastAccepted(h: seq<Call>, t: string)
    requires h != []
    ensures var c := h[|h| - 1];
            Accepted(h, t, |h| - 1) <==>
            c.target == t && c.op.Record? && c.op.epoch == Epoch(h[..|h| - 1], t) && InScope(h[..|h| - 1], t, Key(c.op.scope))
  {
  }

  lemma DivergedStep(h: seq<Call>, t: string, k: string)
    requires h != []
    ensures var n := |h| - 1;
            EverDiverged(h, t, k) <==> (EverDiverged(h[..n], t, k) && !Resets(h[n], t)) || DivergedAt(h, t, n, k)
  {
    var n := |h| - 1;
    if EverDiverged(h, t, k) {
      var i :| DivergedAt(h, t, i, k);
      StandsStep(h, t, i);
      if i < n { AcceptedStep(h, t, i); assert DivergedAt(h[..n], t, i, k); }
    }
    if EverDiverged(h[..n], t, k) && !Resets(h[n], t) {
      var i :| DivergedAt(h[..n], t, i, k);
      AcceptedStep(h, t, i);
      StandsStep(h, t, i);
      assert DivergedAt(h, t, i, k);
    }
  }

  lemma CleanStep(h: seq<Call>, t: string, k: string)
    requires h != []
    ensures var n := |h| - 1;
            EverClean(h, t, k) <==> (EverClean(h[..n], t, k) && !Resets(h[n], t)) || CleanAt(h, t, n, k)
  {
    var n := |h| - 1;
    if EverClean(h, t, k) {
      var i :| CleanAt(h, t, i, k);
      StandsStep(h, t, i);
      if i < n { AcceptedStep(h, t, i); assert CleanAt(h[..n], t, i, k); }
    }
    if EverClean(h[..n], t, k) && !Resets(h[n], t) {
      var i :| CleanAt(h[..n], t, i, k);
      AcceptedStep(h, t, i);
      StandsStep(h, t, i);
      assert CleanAt(h, t, i, k);
    }
  }

  /** What one scope's result says after one more call. */
  lemma ResultStep(h: seq<Call>, t: string, k: string)
    requires h != [] && k != WRITE
    ensures var n := |h| - 1;
            var mine := Accepted(h, t, n) && Key(h[n].op.scope) == k;
            && (EverDiverged(h, t, k) <==> (EverDiverged(h[..n], t, k) && !Resets(h[n], t)) || (mine && h[n].op.divergence.Some?))
            && (EverClean(h, t, k) <==> (EverClean(h[..n], t, k) && !Resets(h[n], t)) || (mine && h[n].op.divergence.None?))
  {
    DivergedStep(h, t, k);
    CleanStep(h, t, k);
    StandsStep(h, t, |h| - 1);
  }

  lemma HistoryStep(h: seq<Call>, t: string, g: Gate)
    requires h != [] && Reflects(h[..|h| - 1], t, g)
    ensures Reflects(h, t, Apply(g, h[|h| - 1]))
  {
    hide Failed, InScope, Begun, EverDiverged, EverClean, Accepted, KeysOf;
    var n := |h| - 1;
    var c := h[n];
    var after := Apply(g, c);
    FailedStep(h, t);
    BegunStep(h, t);
    LastAccepted(h, t);
    forall k ensures InScope(h, t, k) <==>
        (InScope(h[..n], t, k) && !Resets(c, t)) || (c.target == t && c.op.Begin? && k in KeysOf(c.op.scopes))
    { InScopeStep(h, t, k); }
    InScopeBegun(h[..n], t);
    if c.op.Record? { ScopeKeyIsNotWrite(c.op.scope); }
    if c.op.Begin? { KeysAreNotWrite(c.op.scopes); }
    if t in after {
      forall k | k in after[t].scopes
        ensures ResultOk(h, t, k, after[t].scopes[k])
      {
        if k != WRITE { ResultStep(h, t, k); }
      }
    }
  }

  /** The gate refines its history. */
  lemma {:induction false} GateReflectsHistory(h: seq<Call>, t: string)
    ensures Reflects(h, t, GateAfter(h))
  {
    hide Apply;
    if h == [] {
      assert forall i :: !FailedAt(h, t, i) && !BeganAt(h, t, i);
    } else {
      GateReflectsHistory(h[..|h| - 1], t);
      HistoryStep(h, t, GateAfter(h[..|h| - 1]));
    }
  }

  /** A reported scope is a scope of the current epoch. */
  lemma ReportedIsInScope(h: seq<Call>, t: string, i: int)
    requires Accepted(h, t, i) && Stands(h, t, i)
    ensures InScope(h, t, Key(h[i].op.scope))
  {
    hide KeysOf;
    var b :| BeganAt(h[..i], t, b) && Key(h[i].op.scope) in KeysOf(h[b].op.scopes);
    forall j | b < j < |h|
      ensures !Resets(h[j], t)
    {
      if j < i { assert h[..i][j] == h[j]; }
    }
    assert BeganAt(h, t, b);
  }

  /** For every history of calls on every target, as long as it is read from the last Begin or
      Forget of the target: the verdict is Differs exactly when a write failed or a result
      accepted in the current epoch diverged; it is Matches exactly when neither happened and
      every scope of the epoch reported clean; otherwise it is Unknown. */
  lemma VerdictIsHistory(h: seq<Call>, t: string)
    ensures VerdictOf(GateAfter(h), t) == Differs <==> Failed(h, t) || exists k :: EverDiverged(h, t, k)
    ensures VerdictOf(GateAfter(h), t) == Matches <==>
            && !Failed(h, t) && (forall k :: !EverDiverged(h, t, k))
            && (forall k :: InScope(h, t, k) ==> EverClean(h, t, k))
  {
    GateReflectsHistory(h, t);
    hide GateAfter;
    var g := GateAfter(h);
    forall k | EverDiverged(h, t, k)
      ensures InScope(h, t, k) && k != WRITE
    {
      var i :| DivergedAt(h, t, i, k);
      ReportedIsInScope(h, t, i);
      ScopeKeyIsNotWrite(h[i].op.scope);
    }
    forall k | InScope(h, t, k)
      ensures k != WRITE
    {
      var b :| BeganAt(h, t, b) && k in KeysOf(h[b].op.scopes);
      KeysAreNotWrite(h[b].op.scopes);
    }
    hide Failed, InScope, EverDiverged, EverClean;
    InScopeBegun(h, t);
    if t in g {
      assert forall k :: k in g[t].scopes ==> ResultOk(h, t, k, g[t].scopes[k]);
    }
  }

  /** The test the gate makes on its state decides acceptance in the history. */
  lemma AcceptsExactly(h: seq<Call>, t: string, epoch: nat, scope: Scope)
    ensures Accepts(GateAfter(h), t, epoch, Key(scope)) <==> epoch == Epoch(h, t) && InScope(h, t, Key(scope))
  {
    GateReflectsHistory(h, t);
    ScopeKeyIsNotWrite(scope);
    InScopeBegun(h, t);
    hide GateAfter, InScope, Failed, Begun, EverDiverged, EverClean, Epoch, Key, ResultOk;
  }

  /** A result that is not accepted changes nothing, for any target. */
  lemma StaleChangesNothing(h: seq<Call>, c: Call)
    requires c.op.Record? && !Accepted(h + [c], c.target, |h|)
    ensures GateAfter(h + [c]) == GateAfter(h)
  {
    hide Apply, Accepts, InScope, Epoch, Accepted, Key;
    assert (h + [c])[..|h|] == h;
    LastAccepted(h + [c], c.target);
    AcceptsExactly(h, c.target, c.op.epoch, c.op.scope);
    RefusedKeeps(GateAfter(h), c);
  }

  lemma RefusedKeeps(g: Gate, c: Call)
    requires c.op.Record? && !Accepts(g, c.target, c.op.epoch, Key(c.op.scope))
    ensures Apply(g, c) == g
  {
  }

  predicate Forgets(c: Call, t: string) {
    c.target == t && c.op.Forget?
  }

  lemma {:induction false} EpochsGrow(h: seq<Call>, t: string, i: nat)
    requires i <= |h| && forall j :: i <= j < |h| ==> !Forgets(h[j], t)
    ensures Epoch(h[..i], t) <= Epoch(h, t)
    ensures (exists j :: i <= j < |h| && h[j].target == t && h[j].op.Begin?) ==> Epoch(h[..i], t) < Epoch(h, t)
  {
    var n := |h| - 1;
    if i == |h| {
      assert h[..i] == h;
    } else {
      assert h[..n][..i] == h[..i];
      EpochsGrow(h[..n], t, i);
    }
  }

  /** Until the target is forgotten, a result of an earlier epoch is never accepted. */
  lemma EarlierEpochIsRefused(h: seq<Call>, t: string, i: nat, c: Call)
    requires i < |h| && h[i].target == t && h[i].op.Begin?
    requires exists j :: i < j < |h| && h[j].target == t && h[j].op.Begin?
    requires forall j :: i < j < |h| ==> !Forgets(h[j], t)
    requires c.target == t && c.op.Record? && c.op.epoch == Epoch(h[..i + 1], t)
    ensures GateAfter(h + [c]) == GateAfter(h)
  {
    EpochsGrow(h, t, i + 1);
    assert (h + [c])[..|h|] == h;
    LastAccepted(h + [c], t);
    StaleChangesNothing(h, c);
  }

  lemma {:induction false} EpochStands(h: seq<Call>, t: string, i: nat)
    requires BeganAt(h, t, i)
    ensures Epoch(h, t) == Epoch(h[..i + 1], t) > 0
  {
    var n := |h| - 1;
    if i == n {
      assert h[..i + 1] == h;
    } else {
      assert h[..n][..i + 1] == h[..i + 1];
      BeganStep(h, t, i);
      EpochStands(h[..n], t, i);
    }
  }

  /** A result measured in the epoch that call `i` began is accepted if and only if it is for a
      current scope and either that epoch is still the current one, or the target was forgotten
      since and has come to the same epoch number again. */
  lemma EarlierResultExactly(h: seq<Call>, t: string, i: nat, scope: Scope)
    requires i < |h| && h[i].target == t && h[i].op.Begin?
    ensures var epoch := Epoch(h[..i + 1], t);
            Accepts(GateAfter(h), t, epoch, Key(scope)) <==>
            && InScope(h, t, Key(scope))
            && (BeganAt(h, t, i) || ((exists f :: i < f < |h| && Forgets(h[f], t)) && Epoch(h, t) == epoch))
  {
    AcceptsExactly(h, t, Epoch(h[..i + 1], t), scope);
    hide GateAfter, InScope, Accepts, Key;
    if BeganAt(h, t, i) {
      EpochStands(h, t, i);
    } else if !exists f :: i < f < |h| && Forgets(h[f], t) {
      var j :| i < j < |h| && Resets(h[j], t);
      EpochsGrow(h, t, i + 1);
    }
  }

  /** After Forget the epochs start over: a result measured before it opens the gate. */
  lemma ForgottenEpochIsAccepted(t: string, s: Scope)
    ensures var early := Call(t, Record(Epoch([Call(t, Begin([s]))], t), s, None));
            var h := [Call(t, Begin([s])), Call(t, Forget), Call(t, Begin([s]))];
            VerdictOf(GateAfter(h), t) == Unknown && VerdictOf(GateAfter(h + [early]), t) == Matches
  {
    var b := Call(t, Begin([s]));
    var f := Call(t, Forget);
    var h := [b, f, b];
    var e1 := Epoch([b], t);
    var one := [b];
    assert one[..|one| - 1] == [] && one[|one| - 1] == b;
    assert Epoch(one, t) == 1;
    assert e1 == 1;
    var early := Call(t, Record(1, s, None));
    assert (h + [early])[..3] == h && h[..2] == [b, f] && [b, f][..1] == [b];
    assert KeysOf([s]) == {Key(s)} by { assert [s][0] == s; }
    assert GateAfter([b]) == Apply(map[], b);
    assert t !in GateAfter([b, f]);
    assert GateAfter(h)[t] == TargetState(1, map[Key(s) := PENDING]);
    assert !Clean(GateAfter(h)[t].scopes[Key(s)]);
    assert GateAfter(h + [early])[t].scopes == map[Key(s) := Result(true, true, None)];
  }

  // ------------------------------------------------------------------ the object

  class RenderFidelityGate {
    var targets: Gate

    constructor ()
      ensures targets == GateAfter([])
    {
      targets := map[];
    }

    method Begin(t: string, scopes: seq<Scope>) returns (r: Status)
      modifies this
      ensures targets == Apply(old(targets), Call(t, Op.Begin(scopes)))
      ensures r.verdict == VerdictOf(targets, t) && r.epoch == EpochOf(targets, t)
    {
      var results: map<string, Result> := map[];
      for i := 0 to |scopes|
        invariant results.Keys == set j | 0 <= j < i :: Key(scopes[j])
        invariant forall k :: k in results ==> results[k] == PENDING
      {
        results := results[Key(scopes[i]) := PENDING];
      }
      assert results == Pending(KeysOf(scopes));
      var state := TargetState((if t in targets then targets[t].epoch else 0) + 1, results);
      targets := targets[t := state];
      r := Reduce(state);
    }

    /** `applied` tells whether the result counted; one that does not count changes nothing. */
    method RecordScope(t: string, epoch: nat, scope: Scope, divergence: Option<Divergence>)
      returns (r: Option<Status>, applied: bool)
      modifies this
      ensures applied == Accepts(old(targets), t, epoch, Key(scope))
      ensures targets == Apply(old(targets), Call(t, Record(epoch, scope, divergence)))
      ensures applied <==> r.Some?
      ensures r.Some? ==> r.value.verdict == VerdictOf(targets, t)
    {
      if t !in targets || targets[t].epoch != epoch {
        return None, false;
      }
      var state := targets[t];
      var key := Key(scope);
      if key !in state.scopes {
        return None, false;
      }
      var result := state.scopes[key];
      if result.divergence.Some? && divergence.None? {
        assert state.scopes == state.scopes[key := result];
        var same := Reduce(state);
        return Some(same), true;
      }
      state := state.(scopes := state.scopes[key := Result(divergence.None?, true, divergence)]);
      targets := targets[t := state];
      var status := Reduce(state);
      return Some(status), true;
    }

    method Fail(t: string, found: Divergence) returns (r: Status)
      modifies this
      ensures targets == Apply(old(targets), Call(t, Op.Fail(found)))
      ensures r.verdict == VerdictOf(targets, t) == Differs
    {
      var state := if t in targets then targets[t] else TargetState(1, map[]);
      state := state.(scopes := state.scopes[WRITE := Result(false, true, Some(found))]);
      targets := targets[t := state];
      assert Diverged(targets[t].scopes[WRITE]);
      r := Reduce(state);
    }

    method StatusOf(t: string) returns (r: Status)
      ensures r.verdict == VerdictOf(targets, t)
    {
      if t !in targets {
        return Status(0, Matches, None, 0, 0);
      }
      r := Reduce(targets[t]);
    }

    method AllowsWrites(t: string) returns (r: bool)
      ensures r <==> VerdictOf(targets, t) == Matches
    {
      var status := StatusOf(t);
      r := status.verdict == Matches;
    }

    method Forget(t: string)
      modifies this
      ensures targets == Apply(old(targets), Call(t, Op.Forget))
    {
      targets := targets - {t};
    }
  }
}
