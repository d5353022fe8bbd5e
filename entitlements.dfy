/**
 * The paid-access predicate (src/lib/entitlements.ts, lines 30-40). Fetching the entitlement row
 * is not modelled; the clock and the date parser are parameters.
 */
module Entitlements {
  import opened Js

  /** The fields of a UserEntitlement row that hasPaidAccess reads. */
  datatype Entitlement = Entitlement(status: string, currentPeriodEnd: Option<string>)

  /** hasPaidAccess at time `now`. `time` is what `new Date(s)` gives for s as a number of
      milliseconds, None for an invalid date (NaN, which compares false). */
  function HasPaidAccess(ent: Option<Entitlement>, now: real, time: string -> Option<real>): (r: bool)
    ensures ent.None? ==> !r
    ensures ent.Some? && ent.value.status != "trialing" && ent.value.status != "active" ==> !r
    ensures ent.Some? && (ent.value.status == "trialing" || ent.value.status == "active") ==>
      (r <==> || ent.value.currentPeriodEnd.None? || ent.value.currentPeriodEnd.value == ""
              || (time(ent.value.currentPeriodEnd.value).Some? && time(ent.value.currentPeriodEnd.value).value > now))
  {
    match ent
    case None => false
    case Some(e) =>
      if e.status != "trialing" && e.status != "active" then false
      else if e.currentPeriodEnd.None? || e.currentPeriodEnd.value == "" then true
      else
        var end := time(e.currentPeriodEnd.value);
        end.Some? && end.value > now
  }

  /** Access granted at some time was granted at every earlier time: only the passing of the
      period end takes it away. */
  lemma AccessOnlyExpires(ent: Option<Entitlement>, earlier: real, later: real, time: string -> Option<real>)
    requires earlier <= later
    ensures HasPaidAccess(ent, later, time) ==> HasPaidAccess(ent, earlier, time)
  {
  }

  /** A live subscription with a valid period end has access exactly before that end. */
  lemma AccessUntilPeriodEnd(status: string, periodEnd: string, now: real, time: string -> Option<real>)
    requires status == "trialing" || status == "active"
    requires periodEnd != "" && time(periodEnd).Some?
    ensures HasPaidAccess(Some(Entitlement(status, Some(periodEnd))), now, time) <==> now < time(periodEnd).value
  {
  }
}
