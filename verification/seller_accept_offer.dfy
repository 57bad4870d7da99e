/**
 The `sellerAcceptOffer` mutation: a seller accepts the buyer's latest offer on a
 submitted order, which approves the order.

 The mutation receives only an offer id. An id that resolves to no offer is a
 transport-level not-found (HTTP 404), not a typed result. Otherwise four guards
 are checked and the first one that fails is reported as a typed `validation`
 error; the order is left exactly as it was. In which order the guards run is
 not fixed here: it is the parameter `checks`, any sequence naming all four.
 */
module SellerAcceptOffer {
  import opened Lifecycle

  /** The HTTP status of the transport-level not-found. */
  const NotFoundStatus: int := 404

  /** The four checks the mutation makes before approving. */
  datatype Guard = StateGuard | LastOfferGuard | SellerGuard | OwnOfferGuard

  /** One call of the mutation with a resolved offer: the offer's order, the offer,
      and the partner ids the actor is authorised for. */
  datatype Attempt = Attempt(order: Order, offer: Offer, partners: set<PartnerId>)

  /** The `error { type code }` part of a failure response. */
  datatype ApiError = ApiError(errorType: string, code: string)

  /** The `order { id state }` part of a success response. */
  datatype OrderView = OrderView(id: OrderId, state: State)

  /** What the client sees: `OrderWithMutationSuccess`, `OrderWithMutationFailure`,
      or a request that failed below the GraphQL envelope with an HTTP status. */
  datatype Response =
    | MutationSuccess(order: OrderView)
    | MutationFailure(error: ApiError)
    | HttpError(status: int)

  /** The response together with the order as persisted after the call. */
  datatype Outcome = Outcome(response: Response, after: Order)

  predicate Holds(g: Guard, a: Attempt) {
    match g
    case StateGuard => a.order.state == Submitted
    case LastOfferGuard => a.order.lastOffer == Some(a.offer.id)
    case SellerGuard => a.order.seller.id in a.partners
    case OwnOfferGuard => a.offer.from == a.order.buyer
  }

  /** The error code reported when guard `g` fails. A missing seller permission is
      reported as `not_found`, so that an unauthorised actor learns nothing. */
  function CodeOf(g: Guard): string {
    match g
    case StateGuard => "invalid_state"
    case LastOfferGuard => "not_last_offer"
    case SellerGuard => "not_found"
    case OwnOfferGuard => "cannot_accept_offer"
  }

  /** The conditions under which the seller may accept, written out. */
  predicate Acceptable(a: Attempt) {
    && a.order.state == Submitted
    && a.order.lastOffer == Some(a.offer.id)
    && a.order.seller.id in a.partners
    && a.offer.from == a.order.buyer
  }

  /** `checks` runs every guard at least once. */
  predicate CoversAll(checks: seq<Guard>) {
    StateGuard in checks && LastOfferGuard in checks && SellerGuard in checks && OwnOfferGuard in checks
  }

  /** Position `k` of `checks` holds a failing guard and every earlier one passes. */
  predicate FirstFailureAt(checks: seq<Guard>, a: Attempt, k: int) {
    && 0 <= k < |checks|
    && !Holds(checks[k], a)
    && forall j :: 0 <= j < k ==> Holds(checks[j], a)
  }

  /** The first guard of `checks` that fails for `a`, if any. */
  function FirstViolation(checks: seq<Guard>, a: Attempt): (r: Option<Guard>)
    ensures r.None? <==> forall i :: 0 <= i < |checks| ==> Holds(checks[i], a)
    ensures r.Some? ==> r.value in checks && !Holds(r.value, a)
    ensures r.Some? ==> exists k :: FirstFailureAt(checks, a, k) && checks[k] == r.value
    decreases |checks|
  {
    if |checks| == 0 then None
    else if !Holds(checks[0], a) then Some(checks[0])
    else
      var r := FirstViolation(checks[1..], a);
      assert r.Some? ==> exists k :: FirstFailureAt(checks, a, k) && checks[k] == r.value by {
        if r.Some? {
          var k :| FirstFailureAt(checks[1..], a, k) && checks[1..][k] == r.value;
          forall j | 0 <= j < k + 1
            ensures Holds(checks[j], a)
          {
            if j > 0 { assert checks[j] == checks[1..][j - 1]; }
          }
          assert FirstFailureAt(checks, a, k + 1);
        }
      }
      r
  }

  /** The mutation on the offer `lookup` resolved to and on that offer's `order`.
      When the id matched no offer (`lookup == None`) no order is reached, and
      `order` is returned as it was given. On approval the order service starts
      the approved state's clock; `approvedExpiresAt` is the deadline it sets. */
  function AcceptOffer(order: Order, lookup: Option<Offer>, partners: set<PartnerId>, checks: seq<Guard>,
                       approvedExpiresAt: int): (r: Outcome)
    requires CoversAll(checks)
    requires lookup.Some? ==> lookup.value.orderId == order.id
    ensures r.response.HttpError? <==> lookup.None?
    ensures r.response.HttpError? ==> r.response.status == NotFoundStatus
    ensures r.response.MutationSuccess? <==> lookup.Some? && Acceptable(Attempt(order, lookup.value, partners))
    ensures r.response.MutationSuccess? ==>
      && order.state == Submitted && r.after.state == Approved
      && r.after.stateExpiresAt == approvedExpiresAt
      && OnlyStateAndDeadlineChanged(order, r.after)
      && r.response.order == OrderView(order.id, Approved)
    ensures !r.response.MutationSuccess? ==> r.after == order
    ensures r.response.MutationFailure? ==>
      && r.response.error.errorType == "validation"
      && exists g :: CodeOf(g) == r.response.error.code && !Holds(g, Attempt(order, lookup.value, partners))
  {
    match lookup
    case None => Outcome(HttpError(NotFoundStatus), order)
    case Some(offer) =>
      var a := Attempt(order, offer, partners);
      match FirstViolation(checks, a)
      case Some(g) => Outcome(MutationFailure(ApiError("validation", CodeOf(g))), order)
      case None =>
        assert Holds(StateGuard, a) && Holds(LastOfferGuard, a) && Holds(SellerGuard, a) && Holds(OwnOfferGuard, a);
        var approved := order.(state := Approved, stateExpiresAt := approvedExpiresAt);
        Outcome(MutationSuccess(OrderView(approved.id, approved.state)), approved)
  }

  /** When `g` is the only guard that fails, its code is reported whatever the
      order of the checks, and the order is unchanged. */
  lemma SoleViolationIsReported(g: Guard, a: Attempt, checks: seq<Guard>, approvedExpiresAt: int)
    requires CoversAll(checks)
    requires a.offer.orderId == a.order.id
    requires !Holds(g, a)
    requires forall h :: h != g ==> Holds(h, a)
    ensures AcceptOffer(a.order, Some(a.offer), a.partners, checks, approvedExpiresAt)
         == Outcome(MutationFailure(ApiError("validation", CodeOf(g))), a.order)
  {
    var v := FirstViolation(checks, a);
    assert v.Some? by {
      var i :| 0 <= i < |checks| && checks[i] == g;
    }
  }

  // One lemma per case of the mutation's request spec. Each states its case for
  // every order of the checks, with the guards the case does not break passing.

  /** An order that is not submitted gets `invalid_state` and keeps its state. */
  lemma NotSubmittedIsInvalidState(order: Order, offer: Offer, partners: set<PartnerId>, checks: seq<Guard>, approvedExpiresAt: int)
    requires CoversAll(checks)
    requires offer.orderId == order.id
    requires order.state != Submitted
    requires order.lastOffer == Some(offer.id)
    requires order.seller.id in partners
    requires offer.from == order.buyer
    ensures AcceptOffer(order, Some(offer), partners, checks, approvedExpiresAt)
         == Outcome(MutationFailure(ApiError("validation", "invalid_state")), order)
  {
    SoleViolationIsReported(StateGuard, Attempt(order, offer, partners), checks, approvedExpiresAt);
  }

  /** Once a newer offer has been recorded on the order, the earlier one gets
      `not_last_offer` and the order stays submitted. */
  lemma SupersededOfferIsNotLastOffer(order: Order, offer: Offer, newer: Offer, partners: set<PartnerId>, checks: seq<Guard>, approvedExpiresAt: int)
    requires CoversAll(checks)
    requires offer.orderId == order.id && newer.orderId == order.id
    requires newer.id != offer.id
    requires order.state == Submitted
    requires order.seller.id in partners
    requires offer.from == order.buyer
    ensures var updated := RecordOffer(order, newer);
      && AcceptOffer(updated, Some(offer), partners, checks, approvedExpiresAt)
         == Outcome(MutationFailure(ApiError("validation", "not_last_offer")), updated)
      && updated.state == Submitted
  {
    var updated := RecordOffer(order, newer);
    SoleViolationIsReported(LastOfferGuard, Attempt(updated, offer, partners), checks, approvedExpiresAt);
  }

  /** After a newer offer from the buyer is recorded on a submitted order, an
      authorised seller can accept that newer offer. With the lemma above: only the
      most recently recorded offer can be accepted. */
  lemma RecordedOfferIsAcceptable(order: Order, newer: Offer, partners: set<PartnerId>, checks: seq<Guard>, approvedExpiresAt: int)
    requires CoversAll(checks)
    requires newer.orderId == order.id
    requires order.state == Submitted
    requires order.seller.id in partners
    requires newer.from == order.buyer
    ensures var updated := RecordOffer(order, newer);
      var r := AcceptOffer(updated, Some(newer), partners, checks, approvedExpiresAt);
      && r.response == MutationSuccess(OrderView(order.id, Approved))
      && r.after.state == Approved && r.after.lastOffer == Some(newer.id)
  {}

  /** An actor not authorised for the order's seller gets `not_found`, not a
      separate permission code, and the order stays as it was. */
  lemma UnauthorisedActorIsNotFound(order: Order, offer: Offer, partners: set<PartnerId>, checks: seq<Guard>, approvedExpiresAt: int)
    requires CoversAll(checks)
    requires offer.orderId == order.id
    requires order.state == Submitted
    requires order.lastOffer == Some(offer.id)
    requires order.seller.id !in partners
    requires offer.from == order.buyer
    ensures AcceptOffer(order, Some(offer), partners, checks, approvedExpiresAt)
         == Outcome(MutationFailure(ApiError("validation", "not_found")), order)
  {
    SoleViolationIsReported(SellerGuard, Attempt(order, offer, partners), checks, approvedExpiresAt);
  }

  /** The seller cannot accept an offer the seller made: `cannot_accept_offer`,
      and the order stays as it was. */
  lemma SellerOfferCannotBeAccepted(order: Order, offer: Offer, partners: set<PartnerId>, checks: seq<Guard>, approvedExpiresAt: int)
    requires CoversAll(checks)
    requires offer.orderId == order.id
    requires order.seller != order.buyer
    requires order.state == Submitted
    requires order.lastOffer == Some(offer.id)
    requires order.seller.id in partners
    requires offer.from == order.seller
    ensures AcceptOffer(order, Some(offer), partners, checks, approvedExpiresAt)
         == Outcome(MutationFailure(ApiError("validation", "cannot_accept_offer")), order)
  {
    SoleViolationIsReported(OwnOfferGuard, Attempt(order, offer, partners), checks, approvedExpiresAt);
  }

  /** An offer id that resolves to nothing is an HTTP 404, not a typed result. */
  lemma UnknownOfferIsHttpNotFound(order: Order, partners: set<PartnerId>, checks: seq<Guard>, approvedExpiresAt: int)
    requires CoversAll(checks)
    ensures AcceptOffer(order, None, partners, checks, approvedExpiresAt) == Outcome(HttpError(NotFoundStatus), order)
  {}

  /** A submitted order, the buyer's last offer and an actor authorised for the
      seller: the order goes from submitted to approved. */
  lemma AuthorisedSellerApproves(order: Order, offer: Offer, partners: set<PartnerId>, checks: seq<Guard>, approvedExpiresAt: int)
    requires CoversAll(checks)
    requires offer.orderId == order.id
    requires order.state == Submitted
    requires order.lastOffer == Some(offer.id)
    requires order.seller.id in partners
    requires offer.from == order.buyer
    ensures AcceptOffer(order, Some(offer), partners, checks, approvedExpiresAt)
         == Outcome(MutationSuccess(OrderView(order.id, Approved)),
                    order.(state := Approved, stateExpiresAt := approvedExpiresAt))
  {}
}
