/**
 The order and offer records of the exchange, and the order lifecycle edges that
 the accept-offer mutation and the expiry job are allowed to take.
 Orders and offers are immutable values; an operation returns the new order.
 */
module Lifecycle {

  datatype Option<+T> = None | Some(value: T)

  type OrderId = string
  type OfferId = string
  type PartnerId = string

  /** The order states the two operations read or write. */
  datatype State = Pending | Submitted | Approved | Rejected | Abandoned

  /** A counterparty: an identifier plus its type discriminator ("gallery", "user", ...). */
  datatype Party = Party(id: string, kind: string)

  /** An order between a seller and a buyer; `lastOffer` is the most recent offer, if any. */
  datatype Order = Order(
    id: OrderId,
    state: State,
    seller: Party,
    buyer: Party,
    lastOffer: Option<OfferId>,
    stateExpiresAt: int)

  /** An offer on order `orderId`, made by the party `from`. Offers never change. */
  datatype Offer = Offer(id: OfferId, orderId: OrderId, from: Party)

  /** States with no outgoing edge in this core. */
  predicate Terminal(s: State) {
    s == Abandoned || s == Rejected
  }

  /** The lifecycle edges taken by seller acceptance and by expiry. */
  predicate CoreStep(from: State, to: State) {
    || (from == Submitted && to == Approved)
    || (from == Pending && to == Abandoned)
    || (from == Submitted && to == Rejected)
    || (from == Approved && to == Rejected)
  }

  /** `after` is `before` with at most its state changed. */
  predicate OnlyStateChanged(before: Order, after: Order) {
    after == before.(state := after.state)
  }

  /** `after` is `before` with at most its state and the state's deadline changed. */
  predicate OnlyStateAndDeadlineChanged(before: Order, after: Order) {
    after == before.(state := after.state, stateExpiresAt := after.stateExpiresAt)
  }

  /** Recording a new offer on an order makes it the order's last offer. */
  function RecordOffer(order: Order, offer: Offer): (r: Order)
    requires offer.orderId == order.id
    ensures r.lastOffer == Some(offer.id)
    ensures r.state == order.state && r.seller == order.seller && r.buyer == order.buyer
    ensures r.id == order.id && r.stateExpiresAt == order.stateExpiresAt
  {
    order.(lastOffer := Some(offer.id))
  }
}
