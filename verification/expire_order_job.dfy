/**
 The expiry job, `ExpireOrderJob#perform(order_id, state)`. It is scheduled
 when an order enters a timed state, with that state as `expected`. When it fires
 it reloads the order and asks the order service to abandon a pending order or to
 reject a submitted or approved one, but only when the order is still in the
 expected state and its `stateExpiresAt` has passed; otherwise it does nothing.

 The clock is the parameter `now`. Whether the job acts at the exact instant
 `now == stateExpiresAt` is left open as the parameter `fireAtBoundary`.
 */
module ExpireOrderJob {
  import opened Lifecycle

  /** The order-service call one firing makes, with the order it is made on. */
  datatype ServiceCall = NoCall | AbandonCall(order: Order) | RejectCall(order: Order)

  /** One delivery of the callback scheduled for state `expected`, at time `now`. */
  datatype Firing = Firing(expected: State, now: int)

  /** The expiry time has passed at `now`. */
  predicate Elapsed(now: int, expiresAt: int, fireAtBoundary: bool) {
    expiresAt < now || (fireAtBoundary && expiresAt == now)
  }

  /** The call the job makes on the reloaded `order`. At most one call is made, so
      never both `abandon!` and `reject!`. */
  function Perform(order: Order, expected: State, now: int, fireAtBoundary: bool): (c: ServiceCall)
    ensures !c.NoCall? ==> c.order == order
    ensures c.AbandonCall? <==>
      order.state == expected && expected == Pending
      && Elapsed(now, order.stateExpiresAt, fireAtBoundary)
    ensures c.RejectCall? <==>
      order.state == expected && (expected == Submitted || expected == Approved)
      && Elapsed(now, order.stateExpiresAt, fireAtBoundary)
  {
    if order.state != expected || !Elapsed(now, order.stateExpiresAt, fireAtBoundary) then NoCall
    else
      match order.state
      case Pending => AbandonCall(order)
      case Submitted => RejectCall(order)
      case Approved => RejectCall(order)
      case _ => NoCall
  }

  /** The order after one firing, with the service call carried out: `abandon!`
      moves the order to abandoned, `reject!` to rejected. */
  function Fire(order: Order, expected: State, now: int, fireAtBoundary: bool): (r: Order)
    ensures r == order || (CoreStep(order.state, r.state) && Terminal(r.state) && OnlyStateChanged(order, r))
    ensures r != order <==> !Perform(order, expected, now, fireAtBoundary).NoCall?
  {
    match Perform(order, expected, now, fireAtBoundary)
    case NoCall => order
    case AbandonCall(o) => o.(state := Abandoned)
    case RejectCall(o) => o.(state := Rejected)
  }

  /** The order after a sequence of deliveries, in order: the scheduler delivers
      callbacks at least once, possibly late and possibly repeated. */
  function FireAll(order: Order, firings: seq<Firing>, fireAtBoundary: bool): Order
    decreases |firings|
  {
    if |firings| == 0 then order
    else FireAll(Fire(order, firings[0].expected, firings[0].now, fireAtBoundary), firings[1..], fireAtBoundary)
  }

  // The cases of the job's spec.

  /** A pending order past its expiry, fired for `pending`: `abandon!` on it. */
  lemma ExpiredPendingIsAbandoned(order: Order, now: int, fireAtBoundary: bool)
    requires order.state == Pending && now > order.stateExpiresAt
    ensures Perform(order, Pending, now, fireAtBoundary) == AbandonCall(order)
    ensures Fire(order, Pending, now, fireAtBoundary).state == Abandoned
  {}

  /** A submitted order past its expiry, fired for `submitted`: `reject!` on it. */
  lemma ExpiredSubmittedIsRejected(order: Order, now: int, fireAtBoundary: bool)
    requires order.state == Submitted && now > order.stateExpiresAt
    ensures Perform(order, Submitted, now, fireAtBoundary) == RejectCall(order)
    ensures Fire(order, Submitted, now, fireAtBoundary).state == Rejected
  {}

  /** An approved order past its expiry, fired for `approved`: `reject!` on it. */
  lemma ExpiredApprovedIsRejected(order: Order, now: int, fireAtBoundary: bool)
    requires order.state == Approved && now > order.stateExpiresAt
    ensures Perform(order, Approved, now, fireAtBoundary) == RejectCall(order)
    ensures Fire(order, Approved, now, fireAtBoundary).state == Rejected
  {}

  /** An order no longer in the state the job was made for: no call, however late. */
  lemma StateMismatchDoesNothing(order: Order, expected: State, now: int, fireAtBoundary: bool)
    requires order.state != expected
    ensures Perform(order, expected, now, fireAtBoundary) == NoCall
    ensures Fire(order, expected, now, fireAtBoundary) == order
  {}

  /** An order in the expected state before its expiry time: no call. */
  lemma BeforeExpiryDoesNothing(order: Order, expected: State, now: int, fireAtBoundary: bool)
    requires now < order.stateExpiresAt
    ensures Perform(order, expected, now, fireAtBoundary) == NoCall
    ensures Fire(order, expected, now, fireAtBoundary) == order
  {}

  // Redelivery.

  /** Once a firing has acted, a later delivery of the same callback does nothing:
      the order has left the expected state. */
  lemma SecondFiringIsNoOp(order: Order, expected: State, first: int, second: int, fireAtBoundary: bool)
    requires !Perform(order, expected, first, fireAtBoundary).NoCall?
    ensures var once := Fire(order, expected, first, fireAtBoundary);
      Perform(once, expected, second, fireAtBoundary) == NoCall
      && Fire(once, expected, second, fireAtBoundary) == once
  {}

  /** Delivering the same callback twice at the same time ends as delivering it once. */
  lemma FiringIsIdempotent(order: Order, expected: State, now: int, fireAtBoundary: bool)
    ensures var once := Fire(order, expected, now, fireAtBoundary);
      Fire(once, expected, now, fireAtBoundary) == once
  {}

  /** No delivery changes an order in a terminal state. */
  lemma {:induction false} TerminalOrderIsUntouched(order: Order, firings: seq<Firing>, fireAtBoundary: bool)
    requires Terminal(order.state)
    ensures FireAll(order, firings, fireAtBoundary) == order
    decreases |firings|
  {
    if |firings| > 0 {
      assert Fire(order, firings[0].expected, firings[0].now, fireAtBoundary) == order;
      TerminalOrderIsUntouched(order, firings[1..], fireAtBoundary);
    }
  }

  /** Over any sequence of deliveries the order changes at most once: it ends either
      as it started, or as the result of one of the deliveries, in a terminal state. */
  lemma {:induction false} ExpiryActsAtMostOnce(order: Order, firings: seq<Firing>, fireAtBoundary: bool)
    ensures var final := FireAll(order, firings, fireAtBoundary);
      || final == order
      || (&& Terminal(final.state)
          && exists i :: 0 <= i < |firings| && final == Fire(order, firings[i].expected, firings[i].now, fireAtBoundary))
    decreases |firings|
  {
    if |firings| > 0 {
      var next := Fire(order, firings[0].expected, firings[0].now, fireAtBoundary);
      var final := FireAll(order, firings, fireAtBoundary);
      assert final == FireAll(next, firings[1..], fireAtBoundary);
      if next == order {
        ExpiryActsAtMostOnce(order, firings[1..], fireAtBoundary);
        if final != order {
          var i :| 0 <= i < |firings[1..]|
            && final == Fire(order, firings[1..][i].expected, firings[1..][i].now, fireAtBoundary);
          assert firings[1..][i] == firings[i + 1];
        }
      } else {
        TerminalOrderIsUntouched(next, firings[1..], fireAtBoundary);
      }
    }
  }
}
