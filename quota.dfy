/** The creation quota decision of `newCompanionPermissions`. The identity
    provider's `has` check becomes the caller's `Entitlements`, and the count
    of the caller's companions is what the store reports for them, or the
    store's error. */
module Quota {
  import opened Common

  /** What the identity provider reports about the caller: plan names and
      feature flags. */
  datatype Entitlements = Entitlements(plans: set<string>, features: set<string>)

  const ProPlan: string := "pro"
  const ThreeCompanionFeature: string := "3_companion_limit"
  const TenCompanionFeature: string := "10_companion_limit"

  predicate IsPro(e: Entitlements) {
    ProPlan in e.plans
  }

  /** The companion limit of a caller without the pro plan: the first
      feature flag present decides, and no flag means a limit of zero. */
  function Limit(e: Entitlements): (limit: nat)
    ensures limit in {0, 3, 10}
    ensures limit == 3 <==> ThreeCompanionFeature in e.features
    ensures limit == 10 <==> ThreeCompanionFeature !in e.features && TenCompanionFeature in e.features
    ensures limit == 0 <==> ThreeCompanionFeature !in e.features && TenCompanionFeature !in e.features
  {
    if ThreeCompanionFeature in e.features then 3
    else if TenCompanionFeature in e.features then 10
    else 0
  }

  /** May the caller create another companion? `authored` is the number of
      companions the store lists for the caller; `fault` is the store's error,
      if the count query fails. The pro plan answers before any query. */
  function NewCompanionPermissions(e: Entitlements, authored: nat, fault: Option<string>): (r: Result<bool>)
    ensures IsPro(e) ==> r == Ok(true)
    ensures !IsPro(e) && fault.Some? ==> r == Err(StoreFailed(StoreError(fault.value)))
    ensures !IsPro(e) && fault.None? ==> r.Ok? && (r.value <==> authored <= Limit(e))
  {
    if IsPro(e) then Ok(true)
    else if fault.Some? then Err(StoreFailed(StoreError(fault.value)))
    else if authored > Limit(e) then Ok(false)
    else Ok(true)
  }

  /** The pro plan is never refused, whatever the count and whether or not the
      count query would fail. */
  lemma ProIgnoresCount(e: Entitlements, a1: nat, a2: nat, f1: Option<string>, f2: Option<string>)
    requires IsPro(e)
    ensures NewCompanionPermissions(e, a1, f1) == NewCompanionPermissions(e, a2, f2) == Ok(true)
  {
  }

  /** The boundary is `count > limit`: a caller at their limit may still
      create one more, a caller one above it may not. */
  lemma QuotaBoundary(e: Entitlements)
    requires !IsPro(e)
    ensures NewCompanionPermissions(e, Limit(e), None) == Ok(true)
    ensures NewCompanionPermissions(e, Limit(e) + 1, None) == Ok(false)
  {
  }

  /** Permission is monotone in the count: once refused, a larger count is
      refused too. */
  lemma RefusalIsMonotone(e: Entitlements, a: nat, b: nat)
    requires a <= b
    requires NewCompanionPermissions(e, a, None) == Ok(false)
    ensures NewCompanionPermissions(e, b, None) == Ok(false)
  {
  }
}
