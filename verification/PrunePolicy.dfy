/** The deletion policy of a GitTarget (api/v1alpha3/prune_policy.go).

    A mode is a plain string: the three documented values, the empty string (unset)
    and any unrecognised value are all inputs the code answers for. */
module PrunePolicy {

  type PruneMode = string

  const NEVER: PruneMode := "Never"
  const ON_EVENT: PruneMode := "OnEvent"
  const ALWAYS: PruneMode := "Always"

  /** Unset is not a mode: it resolves to the documented default. */
  function OrDefault(m: PruneMode): PruneMode {
    if m == "" then ON_EVENT else m
  }

  predicate AppliesEventDeletes(m: PruneMode) {
    m == ON_EVENT || m == ALWAYS
  }

  predicate SweepsOrphans(m: PruneMode) {
    m == ALWAYS
  }

  function Restrictiveness(m: PruneMode): int {
    var d := OrDefault(m);
    if d == ALWAYS then 2
    else if d == ON_EVENT then 1
    else 0
  }

  /** Whichever of the two modes authorises less deletion. Both deletion rights of the
      result are the conjunction of the two defaulted inputs' rights, for all strings. */
  function MoreRestrictiveOf(m: PruneMode, other: PruneMode): (r: PruneMode)
    ensures AppliesEventDeletes(r) <==>
            AppliesEventDeletes(OrDefault(m)) && AppliesEventDeletes(OrDefault(other))
    ensures SweepsOrphans(r) <==> SweepsOrphans(OrDefault(m)) && SweepsOrphans(OrDefault(other))
    ensures r == OrDefault(m) || r == OrDefault(other)
  {
    if Restrictiveness(other) < Restrictiveness(m) then OrDefault(other) else OrDefault(m)
  }

  /** `tight` holds no deletion right that `loose` lacks. */
  predicate NoMoreRights(tight: PruneMode, loose: PruneMode) {
    && (AppliesEventDeletes(OrDefault(tight)) ==> AppliesEventDeletes(OrDefault(loose)))
    && (SweepsOrphans(OrDefault(tight)) ==> SweepsOrphans(OrDefault(loose)))
  }
}
