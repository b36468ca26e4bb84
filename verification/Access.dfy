/** Effective access of a subscription user at one instant. */
module Access {
  import opened Prelude

  datatype AccessState = AccessState(disabled: bool, expired: bool, quotaExceeded: bool) {
    predicate Allowed() {
      !disabled && !expired && !quotaExceeded
    }
  }

  function Evaluate(enabled: bool, expiresAt: Option<int>, limit: Option<int>, used: int, now: int): AccessState {
    AccessState(
      !enabled,
      expiresAt.Some? && expiresAt.value <= now,
      limit.Some? && used >= limit.value)
  }

  /** Access needs an enabled account, a deadline that has not come and a quota that is not used up. */
  lemma AccessMeans(enabled: bool, expiresAt: Option<int>, limit: Option<int>, used: int, now: int)
    ensures Evaluate(enabled, expiresAt, limit, used, now).Allowed() <==>
              enabled && (expiresAt == None || now < expiresAt.value) && (limit == None || used < limit.value)
    ensures Evaluate(enabled, expiresAt, limit, used, now) ==
              AccessState(enabled == false, expiresAt != None && !(now < expiresAt.value), limit != None && !(used < limit.value))
  {
  }
}
