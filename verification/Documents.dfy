/** What events do to the mirrored documents.

    A branch maps slots (GitTarget base path, resource identity) to the documents stored for
    them, and a document is a map of fields. One event by itself has, at its slot, one of two
    effects: it puts a whole value there (an upsert, or a delete the prune mode applies), or it
    merges some fields into whatever is there (a field patch, or, with no fields at all, a
    delete the prune mode suppresses). These effects compose.

    Several events of one commit are applied as a batch (internal/git/plan_flush.go), which
    looks every identity up in the branch as it was before the batch. */
module Documents {
  import opened PrunePolicy

  datatype Option<+T> = None | Some(value: T)

  type Fields = map<string, string>

  /** The versionless, durable identity of a resource (internal/types/identifier.go);
      `sensitive` when the policy says that resources of its type are encrypted. */
  datatype Ident = Ident(group: string, resource: string, namespace: string, name: string, sensitive: bool)

  datatype Slot = Slot(base: string, ident: Ident)

  /** The documents stored for one identity. A folder that stores two for one identity is
      refused before anything is written to it. */
  type Copies = c: seq<Fields> | c != [] witness [map[]]

  type Tree = map<Slot, Copies>

  function Get(t: Tree, s: Slot): seq<Fields> {
    if s in t then t[s] else []
  }

  function Set(t: Tree, s: Slot, c: seq<Fields>): Tree {
    if c == [] then t - {s} else t[s := c]
  }

  datatype Op = Upsert(doc: Fields) | Delete | FieldPatch(assign: Fields)

  datatype Attribution = NotAttempted | Resolved | Unresolved

  predicate NamesActor(a: Attribution) {
    a.Resolved?
  }

  datatype TargetKey = TargetKey(name: string, namespace: string)

  /** One live event. `size` is the estimated serialised size of its object. */
  datatype Event = Event(
    author: string,
    attribution: Attribution,
    target: TargetKey,
    base: string,
    ident: Ident,
    op: Op,
    size: nat)

  /** The key under which re-edits of one resource collapse inside a window. */
  function PathKey(e: Event): Slot {
    Slot(e.base, e.ident)
  }

  // ---------------------------------------------------------------- effects

  datatype Effect = Put(result: seq<Fields>) | Merge(fields: Fields)

  const UNTOUCHED: Effect := Merge(map[])

  /** Fields are merged into the first document. */
  function Run(e: Effect, c: seq<Fields>): seq<Fields> {
    match e
    case Put(r) => r
    case Merge(f) => if c == [] then [] else [c[0] + f] + c[1..]
  }

  function Then(a: Effect, b: Effect): Effect {
    match b
    case Put(_) => b
    case Merge(g) =>
      match a
      case Put(d) => Put(Run(b, d))
      case Merge(f) => Merge(f + g)
  }

  lemma ThenRuns(a: Effect, b: Effect, c: seq<Fields>)
    ensures Run(Then(a, b), c) == Run(b, Run(a, c))
  {
    if a.Merge? && b.Merge? && c != [] {
      assert c[0] + (a.fields + b.fields) == (c[0] + a.fields) + b.fields;
    }
  }

  lemma UntouchedIsUnit(a: Effect)
    ensures Then(UNTOUCHED, a) == a == Then(a, UNTOUCHED)
  {
    match a
    case Put(c) => if c != [] { assert c[0] + map[] == c[0] && [c[0]] + c[1..] == c; }
    case Merge(f) => assert map[] + f == f == f + map[];
  }

  /** Applying any effect a second time changes nothing. */
  lemma EffectIdempotent(a: Effect, c: seq<Fields>)
    ensures Run(a, Run(a, c)) == Run(a, c)
  {
    if a.Merge? && c != [] {
      assert (c[0] + a.fields) + a.fields == c[0] + a.fields;
    }
  }

  /** Two effects act alike on no document and on the empty one only when they are the same. */
  lemma EffectsDistinguished(a: Effect, b: Effect)
    requires Run(a, []) == Run(b, []) && Run(a, [map[]]) == Run(b, [map[]])
    ensures a == b
  {
    if a.Merge? {
      assert Run(a, [map[]])[0] == map[] + a.fields == a.fields;
    }
    if b.Merge? {
      assert Run(b, [map[]])[0] == map[] + b.fields == b.fields;
    }
  }

  /** The effect of one event under the prune mode in force at its base. Fields of an
      encrypted document are not patched. */
  function EventEffect(e: Event, mode: PruneMode): Effect {
    match e.op
    case Upsert(d) => Put([d])
    case Delete => if AppliesEventDeletes(OrDefault(mode)) then Put([]) else UNTOUCHED
    case FieldPatch(f) => if e.ident.sensitive then UNTOUCHED else Merge(f)
  }

  // ------------------------------------------------------ sequences of events

  type Modes = string -> PruneMode

  function ApplyEvent(t: Tree, e: Event, mode: Modes): Tree {
    Set(t, PathKey(e), Run(EventEffect(e, mode(e.base)), Get(t, PathKey(e))))
  }

  function ApplyEvents(t: Tree, events: seq<Event>, mode: Modes): Tree {
    if events == [] then t
    else ApplyEvent(ApplyEvents(t, events[..|events| - 1], mode), events[|events| - 1], mode)
  }

  /** The composed effect of a sequence of events at one slot. */
  function EffectAt(events: seq<Event>, mode: Modes, s: Slot): Effect {
    if events == [] then UNTOUCHED
    else
      var before := EffectAt(events[..|events| - 1], mode, s);
      var e := events[|events| - 1];
      if PathKey(e) == s then Then(before, EventEffect(e, mode(e.base))) else before
  }

  lemma UntouchedKeeps(c: seq<Fields>)
    ensures Run(UNTOUCHED, c) == c
  {
    if c != [] { assert c[0] + map[] == c[0] && [c[0]] + c[1..] == c; }
  }

  lemma {:induction false} EventsActBySlot(t: Tree, events: seq<Event>, mode: Modes, s: Slot)
    ensures Get(ApplyEvents(t, events, mode), s) == Run(EffectAt(events, mode, s), Get(t, s))
  {
    if events == [] {
      UntouchedKeeps(Get(t, s));
    } else {
      var before := events[..|events| - 1];
      var e := events[|events| - 1];
      EventsActBySlot(t, before, mode, s);
      if PathKey(e) == s {
        ThenRuns(EffectAt(before, mode, s), EventEffect(e, mode(e.base)), Get(t, s));
      }
    }
  }

  lemma {:induction false} NoEffect(events: seq<Event>, mode: Modes, s: Slot)
    requires forall i :: 0 <= i < |events| ==> PathKey(events[i]) != s
    ensures EffectAt(events, mode, s) == UNTOUCHED
  {
    if events != [] { NoEffect(events[..|events| - 1], mode, s); }
  }

  lemma {:induction false} LoneEffect(events: seq<Event>, mode: Modes, s: Slot, i: int)
    requires 0 <= i < |events| && PathKey(events[i]) == s
    requires forall k :: 0 <= k < |events| && k != i ==> PathKey(events[k]) != s
    ensures EffectAt(events, mode, s) == EventEffect(events[i], mode(events[i].base))
  {
    var rest := events[..|events| - 1];
    if i == |events| - 1 {
      NoEffect(rest, mode, s);
      UntouchedIsUnit(EventEffect(events[i], mode(events[i].base)));
    } else {
      assert PathKey(events[|events| - 1]) != s;
      LoneEffect(rest, mode, s, i);
    }
  }

  lemma TreesAgree(a: Tree, b: Tree)
    requires forall s :: Get(a, s) == Get(b, s)
    ensures a == b
  {
    assert forall s :: s in a <==> Get(a, s) != [];
    assert forall s :: s in b <==> Get(b, s) != [];
    assert forall s :: s in a ==> a[s] == Get(a, s);
    assert forall s :: s in b ==> b[s] == Get(b, s);
  }

  // ------------------------------------------------------------------ batches

  predicate Deletes(e: Event, mode: Modes) {
    e.op.Delete? && AppliesEventDeletes(OrDefault(mode(e.base)))
  }

  /** One event inside a batch; `found` when the scan before the batch has the identity.

      A found document is edited where it is, and stays away once an earlier event of the
      batch deleted it, except a sensitive one, whose file is written anew. An identity that was
      not found is created, a plain one every time, and nothing else reaches it. */
  function BatchStep(found: bool, e: Event, mode: Modes, c: seq<Fields>): seq<Fields> {
    match e.op
    case Upsert(d) =>
      if found then
        if c == [] && !e.ident.sensitive then [] else [d]
      else if c != [] && e.ident.sensitive then c
      else c + [d]
    case Delete => if found && Deletes(e, mode) then [] else c
    case FieldPatch(f) => if found && !e.ident.sensitive then Run(Merge(f), c) else c
  }

  /** The branch after a batch of events over the branch `scan`. */
  function ApplyBatch(scan: Tree, events: seq<Event>, mode: Modes): Tree {
    if events == [] then scan
    else
      var t := ApplyBatch(scan, events[..|events| - 1], mode);
      var e := events[|events| - 1];
      Set(t, PathKey(e), BatchStep(PathKey(e) in scan, e, mode, Get(t, PathKey(e))))
  }

  /** What a batch does at one slot: the documents it creates there if there was none, and its
      effect on one that was there. */
  datatype Action = Action(created: seq<Fields>, held: Effect)

  function Act(a: Action, c: seq<Fields>): seq<Fields> {
    if c == [] then a.created else Run(a.held, c)
  }

  function HeldStep(before: Effect, e: Event, mode: Modes): Effect {
    if e.op.Upsert? && before == Put([]) && !e.ident.sensitive then before
    else Then(before, EventEffect(e, mode(e.base)))
  }

  function ActionAt(events: seq<Event>, mode: Modes, s: Slot): Action {
    if events == [] then Action([], UNTOUCHED)
    else
      var before := ActionAt(events[..|events| - 1], mode, s);
      var e := events[|events| - 1];
      if PathKey(e) != s then before
      else Action(BatchStep(false, e, mode, before.created), HeldStep(before.held, e, mode))
  }

  lemma {:induction false} BatchActsBySlot(scan: Tree, events: seq<Event>, mode: Modes, s: Slot)
    ensures Get(ApplyBatch(scan, events, mode), s) == Act(ActionAt(events, mode, s), Get(scan, s))
  {
    if events == [] {
      UntouchedKeeps(Get(scan, s));
    } else {
      var before := events[..|events| - 1];
      var e := events[|events| - 1];
      BatchActsBySlot(scan, before, mode, s);
      if PathKey(e) == s && s in scan {
        HeldStepRuns(ActionAt(before, mode, s).held, e, mode, scan[s]);
      }
    }
  }

  lemma HeldStepRuns(h: Effect, e: Event, mode: Modes, c: Copies)
    ensures Run(HeldStep(h, e, mode), c) == BatchStep(true, e, mode, Run(h, c))
  {
    ThenRuns(h, EventEffect(e, mode(e.base)), c);
    UntouchedKeeps(Run(h, c));
  }
}
