/**
 * subscriptionStatusToDb of the Stripe webhook (app/api/stripe/webhook/route.ts, lines 45-61):
 * a Stripe subscription status mapped to one of the five statuses the entitlement table stores.
 */
module StripeStatus {
  import opened Js
  import opened Entitlements

  const DbStatuses: set<string> := {"trialing", "active", "past_due", "canceled", "inactive"}

  /** The Stripe statuses of a subscription that has ended or never started. */
  const EndedStatuses: set<string> := {"canceled", "unpaid", "incomplete", "incomplete_expired"}

  /** subscriptionStatusToDb. */
  function SubscriptionStatusToDb(stripeStatus: string): (r: string)
    ensures r in DbStatuses
    ensures stripeStatus in {"trialing", "active", "past_due"} ==> r == stripeStatus
    ensures stripeStatus in EndedStatuses ==> r == "canceled"
    ensures stripeStatus !in {"trialing", "active", "past_due"} && stripeStatus !in EndedStatuses ==> r == "inactive"
  {
    match stripeStatus
    case "trialing" => "trialing"
    case "active" => "active"
    case "past_due" => "past_due"
    case "canceled" => "canceled"
    case "unpaid" => "canceled"
    case "incomplete" => "canceled"
    case "incomplete_expired" => "canceled"
    case _ => "inactive"
  }

  /** Mapping a stored status again changes nothing. */
  lemma StatusToDbIdempotent(stripeStatus: string)
    ensures SubscriptionStatusToDb(SubscriptionStatusToDb(stripeStatus)) == SubscriptionStatusToDb(stripeStatus)
  {
  }

  /** A row written from a Stripe status grants access only when Stripe reported the
      subscription as trialing or active. */
  lemma StoredStatusAccess(stripeStatus: string, periodEnd: Option<string>, now: real, time: string -> Option<real>)
    ensures HasPaidAccess(Some(Entitlement(SubscriptionStatusToDb(stripeStatus), periodEnd)), now, time) ==>
      stripeStatus == "trialing" || stripeStatus == "active"
  {
  }
}
