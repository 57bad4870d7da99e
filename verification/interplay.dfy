/**
 How seller acceptance and expiry interact on one order. The expiry job is never
 cancelled: an order that has moved on finds the job's expected state stale and
 the job does nothing. In the other direction, an order the job has expired can no
 longer be accepted.
 */
module Interplay {
  import opened Lifecycle
  import opened SellerAcceptOffer
  import opened ExpireOrderJob

  /** After the seller accepts, the expiry scheduled while the order was submitted
      does nothing, whenever it fires. */
  lemma AcceptanceDefusesSubmittedExpiry(
    order: Order, offer: Offer, partners: set<PartnerId>, checks: seq<Guard>, approvedExpiresAt: int,
    now: int, fireAtBoundary: bool)
    requires CoversAll(checks)
    requires offer.orderId == order.id
    requires AcceptOffer(order, Some(offer), partners, checks, approvedExpiresAt).response.MutationSuccess?
    ensures var approved := AcceptOffer(order, Some(offer), partners, checks, approvedExpiresAt).after;
      && Perform(approved, Submitted, now, fireAtBoundary) == NoCall
      && Fire(approved, Submitted, now, fireAtBoundary) == approved
  {}

  /** Approval restarts the clock: the expiry scheduled for the approved state
      makes no call before the deadline the approval set. */
  lemma ApprovalRestartsExpiry(
    order: Order, offer: Offer, partners: set<PartnerId>, checks: seq<Guard>, approvedExpiresAt: int,
    now: int, fireAtBoundary: bool)
    requires CoversAll(checks)
    requires offer.orderId == order.id
    requires AcceptOffer(order, Some(offer), partners, checks, approvedExpiresAt).response.MutationSuccess?
    requires now < approvedExpiresAt
    ensures var approved := AcceptOffer(order, Some(offer), partners, checks, approvedExpiresAt).after;
      && Perform(approved, Approved, now, fireAtBoundary) == NoCall
      && Fire(approved, Approved, now, fireAtBoundary) == approved
  {}

  /** Once the job has abandoned or rejected an order, accepting an offer on it
      fails and leaves it as the job left it; with every other guard passing the
      error is `invalid_state`. */
  lemma ExpiredOrderCannotBeAccepted(
    order: Order, expected: State, now: int, fireAtBoundary: bool,
    offer: Offer, partners: set<PartnerId>, checks: seq<Guard>, approvedExpiresAt: int)
    requires CoversAll(checks)
    requires offer.orderId == order.id
    requires !Perform(order, expected, now, fireAtBoundary).NoCall?
    ensures var expired := Fire(order, expected, now, fireAtBoundary);
      var r := AcceptOffer(expired, Some(offer), partners, checks, approvedExpiresAt);
      && r.response.MutationFailure?
      && r.after == expired
      && (order.lastOffer == Some(offer.id) && order.seller.id in partners && offer.from == order.buyer ==>
            r.response.error == ApiError("validation", "invalid_state"))
  {
    var expired := Fire(order, expected, now, fireAtBoundary);
    if order.lastOffer == Some(offer.id) && order.seller.id in partners && offer.from == order.buyer {
      NotSubmittedIsInvalidState(expired, offer, partners, checks, approvedExpiresAt);
    }
  }
}
