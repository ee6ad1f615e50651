/** Which source namespaces a WatchRule may mirror (internal/authz/source_namespace.go,
    api/v1alpha3/namespace_matcher.go and the resolver in internal/watch). Messages are not
    modelled; every read of the ClusterProvider is an input. */
module SourceScope {
  import opened Documents
  import opened Ordering

  const WILDCARD := "*"

  type Labels = map<string, string>

  datatype Selector = Malformed | Matching(admits: Labels -> bool)

  /** A declared namespace policy: names, or a label selector. */
  datatype Policy = Policy(names: seq<string>, selector: Option<Selector>)

  /** What is known of the source cluster's namespaces. */
  datatype Source = NoService | Unsynced | Forbidden | Synced(labels: map<string, Labels>)

  /** One read of the provider: the read fails, it does not exist, or it says whether it admits
      the target's namespace (a read of its own, which can fail) and delegates the choice. */
  datatype ProviderRead = ReadFailed | NotFound | Found(admitted: Option<bool>, delegates: bool)

  datatype Verdict = Unknown | Admitted | Denied | Unavailable

  datatype Reason = Legacy | Allowed | NoneAdmitted | NotAllowed | PolicyUnavailable | Checking

  datatype Decision = Decision(index: nat, requested: string, namespaces: seq<string>, verdict: Verdict, reason: Reason)

  predicate LowerAlnum(c: char) {
    'a' <= c <= 'z' || '0' <= c <= '9'
  }

  predicate IsDns1123Label(s: string) {
    && 1 <= |s| <= 63
    && LowerAlnum(s[0]) && LowerAlnum(s[|s| - 1])
    && forall i :: 0 <= i < |s| ==> LowerAlnum(s[i]) || s[i] == '-'
  }

  predicate ValidNames(p: Policy) {
    forall i :: 0 <= i < |p.names| ==> IsDns1123Label(p.names[i])
  }

  // ---------------------------------------------------------------- the resolver

  datatype Expansion = Expansion(names: seq<string>, verdict: Verdict)

  /** Whether the selector admits one namespace. One that is not in the snapshot is tried with
      no labels. */
  function ResolveNamespace(sel: Selector, source: Source, n: string): Verdict {
    match source
    case NoService => Unknown
    case Unsynced => Unknown
    case Forbidden => Unavailable
    case Synced(labels) =>
      match sel
      case Malformed => Unavailable
      case Matching(admits) => if admits(if n in labels then labels[n] else map[]) then Admitted else Denied
  }

  /** The policy's answer for one candidate; names are answered without the source cluster. */
  function ResolveWith(p: Policy, source: Source, n: string): Verdict {
    if n in p.names then Admitted
    else if p.selector.None? then Denied
    else ResolveNamespace(p.selector.value, source, n)
  }

  /** Collects distinct strings in order. */
  method SortedUnique(s: seq<string>) returns (r: seq<string>)
    ensures Ascending(r) && forall x :: x in r <==> x in s
  {
    var seen: set<string> := {};
    for i := 0 to |s|
      invariant seen == set x | x in s[..i]
    {
      assert s[..i + 1] == s[..i] + [s[i]];
      if s[i] in seen {
        continue;
      }
      seen := seen + {s[i]};
    }
    assert s[..|s|] == s;
    r := SortedKeys(seen);
  }

  /** Expands the selector over the snapshot; `order` is the order the map is ranged over. */
  method EnumerateNamespaces(sel: Selector, source: Source, order: seq<string>) returns (r: Expansion)
    requires source.Synced? ==> Lists(order, source.labels.Keys)
    ensures source.NoService? || source.Unsynced? ==> r.verdict == Unknown
    ensures source.Forbidden? ==> r.verdict == Unavailable
    ensures source.Synced? && sel.Malformed? ==> r.verdict == if source.labels == map[] then Admitted else Unavailable
    ensures source.Synced? && sel.Matching? ==> r.verdict == Admitted
    ensures r.verdict == Admitted ==>
              source.Synced? && forall n :: n in r.names <==> sel.Matching? && n in source.labels && sel.admits(source.labels[n])
  {
    match source
    case NoService => return Expansion([], Unknown);
    case Unsynced => return Expansion([], Unknown);
    case Forbidden => return Expansion([], Unavailable);
    case Synced(labels) =>
      var names: seq<string> := [];
      for i := 0 to |order|
        invariant sel.Malformed? ==> i == 0
        invariant forall n :: n in names <==> sel.Matching? && n in order[..i] && sel.admits(labels[n])
      {
        assert order[i] in order;
        assert order[..i + 1] == order[..i] + [order[i]];
        match sel
        case Malformed => return Expansion([], Unavailable);
        case Matching(admits) =>
          if admits(labels[order[i]]) {
            names := names + [order[i]];
          }
      }
      assert order[..|order|] == order;
      if labels != map[] {
        var k :| k in labels;
        assert k in order;
      }
      names := SortedUnique(names);
      return Expansion(names, Admitted);
  }

  // ------------------------------------------------------------------ per item

  predicate Overrides(own: string, requested: string) {
    requested == WILDCARD || (requested != "" && requested != own)
  }

  function Effective(own: string, requested: string): string {
    if requested != "" then requested else own
  }

  datatype Delegation = Failed | Refused | Granted

  function DelegationOf(read: ProviderRead): Delegation {
    match read
    case ReadFailed => Failed
    case NotFound => Refused
    case Found(admitted, delegates) =>
      if admitted.None? then Failed
      else if !admitted.value || !delegates then Refused
      else Granted
  }

  function ReasonOf(v: Verdict): Reason {
    match v
    case Admitted => Allowed
    case Denied => NotAllowed
    case Unavailable => PolicyUnavailable
    case Unknown => Checking
  }

  /** The namespaces a "*" item may expand to. */
  ghost predicate InExpansion(p: Policy, source: Source, n: string) {
    || n in p.names
    || (p.selector.Some? && p.selector.value.Matching? && source.Synced? && n in source.labels && p.selector.value.admits(source.labels[n]))
  }

  /** How far a "*" item gets: a selector must be expanded in full or not at all. */
  function ExpansionVerdict(p: Policy, source: Source): Verdict {
    if p.selector.None? then Admitted
    else match source
      case NoService => Unknown
      case Unsynced => Unknown
      case Forbidden => Unavailable
      case Synced(labels) => if p.selector.value.Malformed? && labels != map[] then Unavailable else Admitted
  }

  /** What one item is decided to be, once the delegation is known. */
  ghost predicate IsDecision(own: string, policy: Option<Policy>, source: Source, del: Delegation, index: nat, requested: string,
                             d: Decision)
  {
    && d.index == index && d.requested == requested
    && if !Overrides(own, requested) && policy.None? then
         d == Decision(index, requested, [Effective(own, requested)], Admitted, Legacy)
       else if Overrides(own, requested) && del != Granted then
         d == Decision(index, requested, [], Denied, NotAllowed)
       else if policy.None? then
         d == Decision(index, requested, [], Denied, NotAllowed)
       else if !ValidNames(policy.value) then
         d == Decision(index, requested, [], Unavailable, PolicyUnavailable)
       else if requested == WILDCARD then
         && d.verdict == ExpansionVerdict(policy.value, source)
         && Ascending(d.namespaces)
         && (d.verdict == Admitted ==>
               && (forall n :: n in d.namespaces <==> InExpansion(policy.value, source, n))
               && d.reason == if d.namespaces == [] then NoneAdmitted else Allowed)
         && (d.verdict != Admitted ==> d.namespaces == [] && d.reason == ReasonOf(d.verdict))
       else
         var n := Effective(own, requested);
         var v := ResolveWith(policy.value, source, n);
         d == Decision(index, requested, if v == Admitted then [n] else [], v, ReasonOf(v))
  }

  /** The whole rule: one decision for each item. */
  ghost predicate AreDecisions(own: string, policy: Option<Policy>, source: Source, del: Delegation, items: seq<string>,
                               ds: seq<Decision>)
  {
    |ds| == |items| && forall i :: 0 <= i < |items| ==> IsDecision(own, policy, source, del, i, items[i], ds[i])
  }

  // ------------------------------------------------------------------ aggregate

  datatype Aggregate = Aggregate(items: seq<Decision>, verdict: Verdict, reason: Reason)

  predicate HasVerdict(ds: seq<Decision>, v: Verdict) {
    exists i :: 0 <= i < |ds| && ds[i].verdict == v
  }

  method FirstWithVerdict(ds: seq<Decision>, v: Verdict) returns (d: Option<Decision>)
    ensures d.None? <==> !HasVerdict(ds, v)
    ensures d.Some? ==> d.value in ds && d.value.verdict == v
  {
    for i := 0 to |ds|
      invariant forall j :: 0 <= j < i ==> ds[j].verdict != v
    {
      if ds[i].verdict == v {
        return Some(ds[i]);
      }
    }
    return None;
  }

  /** Denied before unavailable before unknown; admitted only when every item is. */
  function WorstOf(ds: seq<Decision>): Verdict {
    if HasVerdict(ds, Denied) then Denied
    else if HasVerdict(ds, Unavailable) then Unavailable
    else if HasVerdict(ds, Unknown) then Unknown
    else Admitted
  }

  predicate AllEmpty(ds: seq<Decision>) {
    forall i :: 0 <= i < |ds| ==> ds[i].namespaces == []
  }

  predicate AllLegacy(ds: seq<Decision>) {
    forall i :: 0 <= i < |ds| ==> ds[i].reason == Legacy
  }

  method AdmittedReason(ds: seq<Decision>) returns (r: Reason)
    requires ds != []
    ensures r == if AllEmpty(ds) then NoneAdmitted else if AllLegacy(ds) then Legacy else Allowed
  {
    var total := 0;
    var legacy := true;
    for i := 0 to |ds|
      invariant total >= 0 && (total == 0 <==> forall j :: 0 <= j < i ==> ds[j].namespaces == [])
      invariant legacy <==> forall j :: 0 <= j < i ==> ds[j].reason == Legacy
    {
      total := total + |ds[i].namespaces|;
      if ds[i].reason != Legacy {
        legacy := false;
      }
    }
    r := if total == 0 then NoneAdmitted else if legacy then Legacy else Allowed;
  }

  predicate ReasonFits(d: Decision) {
    d.verdict != Admitted ==> d.reason == ReasonOf(d.verdict)
  }

  /** What the aggregate says, as a function of which decisions there are. */
  function AggregateReason(ds: seq<Decision>): Reason {
    if ds == [] then Legacy
    else if WorstOf(ds) != Admitted then ReasonOf(WorstOf(ds))
    else if AllEmpty(ds) then NoneAdmitted
    else if AllLegacy(ds) then Legacy
    else Allowed
  }

  method AggregateScope(ds: seq<Decision>) returns (a: Aggregate)
    requires forall i :: 0 <= i < |ds| ==> ReasonFits(ds[i])
    ensures a == Aggregate(ds, WorstOf(ds), AggregateReason(ds))
  {
    if ds == [] {
      return Aggregate(ds, Admitted, Legacy);
    }
    var order := [Denied, Unavailable, Unknown];
    for k := 0 to |order|
      invariant forall j :: 0 <= j < k ==> !HasVerdict(ds, order[j])
    {
      var worst := FirstWithVerdict(ds, order[k]);
      if worst.Some? {
        assert k == 0 || !HasVerdict(ds, order[0]);
        assert k <= 1 || !HasVerdict(ds, order[1]);
        return Aggregate(ds, worst.value.verdict, worst.value.reason);
      }
    }
    assert !HasVerdict(ds, order[0]) && !HasVerdict(ds, order[1]) && !HasVerdict(ds, order[2]);
    var reason := AdmittedReason(ds);
    return Aggregate(ds, Admitted, reason);
  }

  // ------------------------------------------------------------------- the gate

  /** Decides the items of one rule. The provider is read when the first overriding item asks
      and its answer is kept for the others. */
  class ItemGate {
    const own: string
    const policy: Option<Policy>
    const source: Source
    const order: seq<string>
    const reader: nat -> ProviderRead
    var delegation: Delegation
    var delegationAsked: bool
    ghost var readCount: nat

    /** At most one answer is ever kept, and it is the provider's first. */
    predicate Valid()
      reads this
    {
      && (source.Synced? ==> forall n :: n in source.labels ==> n in order)
      && (source.Synced? ==> forall i :: 0 <= i < |order| ==> order[i] in source.labels)
      && (delegationAsked ==> delegation == DelegationOf(reader(0)) && delegation != Failed)
    }

    constructor (own: string, policy: Option<Policy>, source: Source, order: seq<string>, reader: nat -> ProviderRead)
      requires source.Synced? ==> Lists(order, source.labels.Keys)
      ensures Valid() && !delegationAsked && readCount == 0
      ensures this.own == own && this.policy == policy && this.source == source && this.reader == reader
    {
      this.own, this.policy, this.source, this.order, this.reader := own, policy, source, order, reader;
      delegation, delegationAsked, readCount := Failed, false, 0;
    }

    /** The provider's side of the gate, read once. */
    method OverrideDelegated() returns (d: Delegation)
      requires Valid() && (delegationAsked ==> readCount == 1) && (!delegationAsked ==> readCount == 0)
      modifies `delegation, `delegationAsked, `readCount
      ensures Valid() && d == DelegationOf(reader(0)) && readCount == 1
      ensures d != Failed ==> delegationAsked
    {
      if !delegationAsked {
        readCount := readCount + 1;
        var answer := DelegationOf(reader(0));
        if answer == Failed {
          return Failed;
        }
        delegation, delegationAsked := answer, true;
      }
      return delegation;
    }

    method Expand(p: Policy, index: nat, requested: string) returns (d: Decision)
      requires Valid() && requested == WILDCARD
      ensures d.index == index && d.requested == requested
      ensures d.verdict == ExpansionVerdict(p, source) && Ascending(d.namespaces)
      ensures d.verdict == Admitted ==>
                && (forall n :: n in d.namespaces <==> InExpansion(p, source, n))
                && d.reason == if d.namespaces == [] then NoneAdmitted else Allowed
      ensures d.verdict != Admitted ==> d.namespaces == [] && d.reason == ReasonOf(d.verdict)
    {
      hide Less;
      var admitted := p.names;
      if p.selector.Some? {
        var selected := EnumerateNamespaces(p.selector.value, source, order);
        if selected.verdict != Admitted {
          return Decision(index, requested, [], selected.verdict, ReasonOf(selected.verdict));
        }
        admitted := admitted + selected.names;
      }
      var names := SortedUnique(admitted);
      return Decision(index, requested, names, Admitted, if names == [] then NoneAdmitted else Allowed);
    }

    /** One item; `None` is a failed read, on which the caller tries again later. */
    method Decide(index: nat, requested: string) returns (d: Option<Decision>)
      requires Valid() && (delegationAsked ==> readCount == 1) && (!delegationAsked ==> readCount == 0)
      modifies `delegation, `delegationAsked, `readCount
      ensures Valid() && readCount <= 1
      ensures d.None? <==> Overrides(own, requested) && DelegationOf(reader(0)) == Failed
      ensures d.Some? ==> IsDecision(own, policy, source, DelegationOf(reader(0)), index, requested, d.value)
      ensures d.Some? ==> (delegationAsked ==> readCount == 1) && (!delegationAsked ==> readCount == 0)
    {
      hide Less, ExpansionVerdict, InExpansion;
      if !Overrides(own, requested) && policy.None? {
        return Some(Decision(index, requested, [Effective(own, requested)], Admitted, Legacy));
      }
      if Overrides(own, requested) {
        var answer := OverrideDelegated();
        if answer == Failed {
          return None;
        }
        if answer == Refused {
          return Some(Decision(index, requested, [], Denied, NotAllowed));
        }
      }
      if policy.None? {
        return Some(Decision(index, requested, [], Denied, NotAllowed));
      }
      if !ValidNames(policy.value) {
        return Some(Decision(index, requested, [], Unavailable, PolicyUnavailable));
      }
      if requested == WILDCARD {
        var expanded := Expand(policy.value, index, requested);
        return Some(expanded);
      }
      var n := Effective(own, requested);
      var v := ResolveWith(policy.value, source, n);
      return Some(Decision(index, requested, if v == Admitted then [n] else [], v, ReasonOf(v)));
    }
  }

  /** The whole rule. It fails exactly when some item overrides and the provider's first read
      fails; otherwise every item is decided as if it had made that read itself. */
  method ResolveScope(own: string, policy: Option<Policy>, source: Source, order: seq<string>, reader: nat -> ProviderRead,
                      items: seq<string>) returns (r: Option<Aggregate>)
    requires source.Synced? ==> Lists(order, source.labels.Keys)
    ensures r.None? <==> DelegationOf(reader(0)) == Failed && exists i :: 0 <= i < |items| && Overrides(own, items[i])
    ensures r.Some? ==>
              && AreDecisions(own, policy, source, DelegationOf(reader(0)), items, r.value.items)
              && r.value.verdict == WorstOf(r.value.items) && r.value.reason == AggregateReason(r.value.items)
  {
    hide IsDecision, Overrides, DelegationOf, WorstOf, AggregateReason, Less;
    var gate := new ItemGate(own, policy, source, order, reader);
    var ds: seq<Decision> := [];
    for i := 0 to |items|
      invariant gate.Valid() && (gate.delegationAsked ==> gate.readCount == 1) && (!gate.delegationAsked ==> gate.readCount == 0)
      invariant |ds| == i
      invariant forall k :: 0 <= k < i ==> IsDecision(own, policy, source, DelegationOf(reader(0)), k, items[k], ds[k])
      invariant forall k :: 0 <= k < i ==> !(Overrides(own, items[k]) && DelegationOf(reader(0)) == Failed)
    {
      var d := gate.Decide(i, items[i]);
      if d.None? {
        return None;
      }
      ds := ds + [d.value];
    }
    forall i | 0 <= i < |ds|
      ensures ReasonFits(ds[i])
    {
      DecisionsFit(own, policy, source, DelegationOf(reader(0)), i, items[i], ds[i]);
    }
    var a := AggregateScope(ds);
    return Some(a);
  }

  lemma DecisionsFit(own: string, policy: Option<Policy>, source: Source, del: Delegation, index: nat, requested: string, d: Decision)
    requires IsDecision(own, policy, source, del, index, requested, d)
    ensures ReasonFits(d)
    ensures d.verdict != Admitted ==> d.namespaces == []
  {
  }

  // ---------------------------------------------------------- what it all means

  /** An item naming `n` is admitted exactly when "*" expands to `n`. */
  ghost predicate Agrees(p: Policy, source: Source, n: string) {
    InExpansion(p, source, n) <==> ResolveWith(p, source, n) == Admitted
  }

  /** With valid names, an evaluable selector and the delegation granted, the decisions for "*"
      and for a name agree exactly on the namespaces that are listed, or exist, or would not be
      admitted without labels. */
  lemma WildcardAgreesExactly(own: string, p: Policy, source: Source, star: Decision, named: Decision, i: nat, j: nat, n: string)
    requires ValidNames(p) && n != "" && n != WILDCARD
    requires p.selector.Some? ==> p.selector.value.Matching? && source.Synced?
    requires IsDecision(own, Some(p), source, Granted, i, WILDCARD, star)
    requires IsDecision(own, Some(p), source, Granted, j, n, named)
    ensures star.verdict == Admitted
    ensures (n in star.namespaces <==> named.verdict == Admitted) <==> Agrees(p, source, n)
    ensures Agrees(p, source, n) <==>
            n in p.names || p.selector.None? || n in source.labels || !p.selector.value.admits(map[])
  {
  }

  lemma {:induction false} LongestName(names: set<string>) returns (bound: nat)
    ensures forall x :: x in names ==> |x| <= bound
    decreases names
  {
    bound := 0;
    if names != {} {
      var x :| x in names;
      var rest := LongestName(names - {x});
      bound := if |x| > rest then |x| else rest;
    }
  }

  /** They agree on every name exactly when the selector does not admit the empty label set:
      the condition a policy's author can check. */
  lemma WildcardAgreesEverywhere(p: Policy, source: Source)
    requires p.selector.Some? ==> p.selector.value.Matching? && source.Synced?
    ensures (forall n :: n != "" && n != WILDCARD ==> Agrees(p, source, n)) <==>
            p.selector.None? || !p.selector.value.admits(map[])
  {
    if p.selector.Some? && p.selector.value.admits(map[]) {
      var known := source.labels.Keys + set x | x in p.names;
      var bound := LongestName(known);
      var n := seq(bound + 2, _ => 'a');
      assert |n| > bound && n != WILDCARD && n !in known;
      assert !Agrees(p, source, n);
    }
  }

  /** So "select everything" admits, by name, a namespace its own expansion does not have. */
  lemma AbsentNamespaceIsAdmittedByName(own: string, n: string, star: Decision, named: Decision)
    requires n != "" && n != WILDCARD
    requires var everything := Some(Policy([], Some(Matching(l => true))));
             && IsDecision(own, everything, Synced(map[]), Granted, 0, WILDCARD, star)
             && IsDecision(own, everything, Synced(map[]), Granted, 1, n, named)
    ensures named.verdict == Admitted && named.namespaces == [n]
    ensures star.verdict == Admitted && n !in star.namespaces
  {
  }

  /** A rule is admitted exactly when each of its items is; otherwise one denied item denies it, and
      an unavailable one outweighs those that are not known yet. */
  lemma AdmittedExactlyWhenAllAre(ds: seq<Decision>)
    ensures WorstOf(ds) == Admitted <==> forall i :: 0 <= i < |ds| ==> ds[i].verdict == Admitted
    ensures WorstOf(ds) == Denied <==> exists i :: 0 <= i < |ds| && ds[i].verdict == Denied
    ensures WorstOf(ds) == Unavailable <==>
            (exists i :: 0 <= i < |ds| && ds[i].verdict == Unavailable) && forall i :: 0 <= i < |ds| ==> ds[i].verdict != Denied
  {
    if WorstOf(ds) == Admitted {
      forall i | 0 <= i < |ds|
        ensures ds[i].verdict == Admitted
      {
        assert !HasVerdict(ds, Denied) && !HasVerdict(ds, Unavailable) && !HasVerdict(ds, Unknown);
      }
    }
  }

  lemma SameVerdicts(ds: seq<Decision>, es: seq<Decision>, v: Verdict)
    requires multiset(ds) == multiset(es)
    ensures HasVerdict(ds, v) ==> HasVerdict(es, v)
  {
    if HasVerdict(ds, v) {
      var i :| 0 <= i < |ds| && ds[i].verdict == v;
      assert ds[i] in multiset(es);
      var j :| 0 <= j < |es| && es[j] == ds[i];
    }
  }

  /** The verdict and its reason do not depend on the order of the items. */
  lemma VerdictIgnoresOrder(ds: seq<Decision>, es: seq<Decision>)
    requires multiset(ds) == multiset(es)
    ensures WorstOf(ds) == WorstOf(es) && AggregateReason(ds) == AggregateReason(es)
  {
    forall v
      ensures HasVerdict(ds, v) <==> HasVerdict(es, v)
    {
      SameVerdicts(ds, es, v);
      SameVerdicts(es, ds, v);
    }
    assert |ds| == |multiset(ds)| == |multiset(es)| == |es|;
    SameShape(ds, es);
    SameShape(es, ds);
  }

  lemma SameShape(ds: seq<Decision>, es: seq<Decision>)
    requires multiset(ds) == multiset(es)
    ensures AllEmpty(ds) ==> AllEmpty(es)
    ensures AllLegacy(ds) ==> AllLegacy(es)
  {
    forall i | 0 <= i < |es|
      ensures es[i] in ds
    {
      assert es[i] in multiset(ds);
    }
  }

  /** No item watches more than it may: another namespace than the rule's own needs the
      delegation and a declared policy, and a declared policy admits every namespace watched. */
  lemma NothingBeyondPolicy(own: string, policy: Option<Policy>, source: Source, read: ProviderRead, items: seq<string>,
                            ds: seq<Decision>, i: nat, n: string)
    requires AreDecisions(own, policy, source, DelegationOf(read), items, ds) && i < |ds| && n in ds[i].namespaces
    ensures ds[i].verdict == Admitted
    ensures n != own ==> read == Found(Some(true), true) && policy.Some?
    ensures policy.Some? ==> InExpansion(policy.value, source, n) || ResolveWith(policy.value, source, n) == Admitted
  {
    assert IsDecision(own, policy, source, DelegationOf(read), i, items[i], ds[i]);
    hide ResolveNamespace, ValidNames;
  }

  /** A listed name of more than 63 characters makes the policy unavailable to every item that needs
      it, and one of up to 63 plain letters does not. */
  lemma LongNameIsUnavailable(n: nat, source: Source, requested: string, d: Decision)
    requires var name := seq(n, _ => 'a');
             IsDecision("", Some(Policy([name], None)), source, Granted, 0, requested, d)
    ensures d.verdict == Unavailable <==> n == 0 || n > 63
  {
    var name := seq(n, _ => 'a');
    var p := Policy([name], None);
    assert p.names[0] == name;
    if 1 <= n <= 63 { assert forall i :: 0 <= i < |p.names| ==> p.names[i] == name; }
  }

  /** The policy is well formed and lists the namespace, or its selector admits the labels the source
      has for it, which are none for a namespace it does not have. */
  predicate NamedIn(policy: Policy, source: Source, n: string) {
    && ValidNames(policy)
    && (n in policy.names
        || (policy.selector.Some? && policy.selector.value.Matching? && source.Synced?
            && policy.selector.value.admits(if n in source.labels then source.labels[n] else map[])))
  }

  /** The policy is well formed, can be expanded in full, and lists or selects the namespace. */
  predicate StarredIn(policy: Policy, source: Source, n: string) {
    && ValidNames(policy)
    && (policy.selector.Some? ==> source.Synced? && (policy.selector.value.Matching? || source.labels == map[]))
    && (n in policy.names
        || (policy.selector.Some? && policy.selector.value.Matching? && n in source.labels && policy.selector.value.admits(source.labels[n])))
  }

  /** An item watches a namespace if and only if it asks for it, alone or among all, the provider
      exists, admits the target and delegates the choice if that is not the rule's own namespace,
      and the declared policy, which only the rule's own namespace can do without, has it. */
  lemma WatchedExactly(own: string, policy: Option<Policy>, source: Source, read: ProviderRead, items: seq<string>,
                       ds: seq<Decision>, i: nat, n: string)
    requires AreDecisions(own, policy, source, DelegationOf(read), items, ds) && i < |ds| && own != WILDCARD
    ensures n in ds[i].namespaces <==>
            if items[i] == WILDCARD then
              read == Found(Some(true), true) && policy.Some? && StarredIn(policy.value, source, n)
            else
              && n == (if items[i] == "" then own else items[i])
              && (n == own || read == Found(Some(true), true))
              && (if policy.Some? then NamedIn(policy.value, source, n) else n == own)
  {
    assert IsDecision(own, policy, source, DelegationOf(read), i, items[i], ds[i]);
    hide ValidNames;
  }
}
