# Order lifecycle: seller accepts offer, expiry job

This project models two parts of an art-exchange order workflow and proves
properties of them in Dafny. Both behaviours are taken from the two RSpec files
that pin them down.

- **`sellerAcceptOffer`** is a GraphQL mutation. A seller accepts the buyer's
  latest offer on a submitted order, which approves the order.
  - An offer id that resolves to no offer fails at the transport level with an
    HTTP 404.
  - A request that breaks a business rule gets an `OrderWithMutationFailure`.
    It carries type `validation` and one of the codes `invalid_state`,
    `not_last_offer`, `not_found` or `cannot_accept_offer`.
  - A request that fails leaves the order exactly as it was.
- **`ExpireOrderJob#perform(order_id, state)`** is a one-shot callback. It is
  scheduled when an order enters a timed state.
  - When it fires, it calls `OrderService.abandon!` on a pending order and
    `OrderService.reject!` on a submitted or approved one.
  - It acts only when the order is still in the state the job was made for and
    `state_expires_at` has passed. Otherwise it does nothing.

Orders and offers are immutable values (`Lifecycle`). The mutation is a pure
function from an order, the offer lookup's result and the actor's partner ids to
a response plus the order as persisted afterwards (`SellerAcceptOffer`). The job
is a pure function from the reloaded order, the expected state and the clock to
the service call it makes (`ExpireOrderJob.Perform`). `ExpireOrderJob.Fire`
applies that call. `Interplay` relates the two operations.

The request spec breaks one guard per case, so it does not fix the order in
which the mutation runs its checks. `AcceptOffer` therefore takes that order as a
parameter `checks`: any sequence that names all four guards. It reports the
first guard that fails. Every lemma holds for every such order.

The offer lookup comes before all guards, because the mutation receives only an
offer id and reaches the order through the offer.

## Model

| member | source | states |
|---|---|---|
| `SellerAcceptOffer.FirstViolation` | spec/controllers/api/requests/offers/seller_accept_offer_mutation_request_spec.rb:49-96 | the reported guard fails and every guard before it in the check order passes; no guard is reported exactly when every guard in the sequence passes |
| `SellerAcceptOffer.AcceptOffer` | spec/controllers/api/requests/offers/seller_accept_offer_mutation_request_spec.rb:49-120 | HTTP 404 exactly when the offer did not resolve; success exactly when the order is submitted, the offer is its last offer, the actor holds the seller's partner id and the buyer made the offer; success persists the order with state `approved` and the deadline the approval sets, every other field kept, and returns its id and new state; every other outcome leaves the order unchanged; every typed failure has type `validation` and the code of a guard that really fails |
| `SellerAcceptOffer.SoleViolationIsReported` | spec/controllers/api/requests/offers/seller_accept_offer_mutation_request_spec.rb:49-96 | when exactly one guard fails, its code is reported whatever the check order, and the order is unchanged |
| `SellerAcceptOffer.NotSubmittedIsInvalidState` | spec/controllers/api/requests/offers/seller_accept_offer_mutation_request_spec.rb:49-58 | an order that is not submitted, with the other guards passing, gets `validation`/`invalid_state` and keeps its state |
| `SellerAcceptOffer.SupersededOfferIsNotLastOffer` | spec/controllers/api/requests/offers/seller_accept_offer_mutation_request_spec.rb:61-72 | after a newer offer is recorded, accepting the earlier one gets `validation`/`not_last_offer` and the order stays submitted |
| `SellerAcceptOffer.RecordedOfferIsAcceptable` | spec/controllers/api/requests/offers/seller_accept_offer_mutation_request_spec.rb:114-131 | after a newer buyer offer is recorded on a submitted order, an authorised seller accepting that newer offer approves the order; with the previous row, only the most recently recorded offer can be accepted |
| `SellerAcceptOffer.UnauthorisedActorIsNotFound` | spec/controllers/api/requests/offers/seller_accept_offer_mutation_request_spec.rb:74-84 | an actor without the seller's partner id gets `validation`/`not_found`, not a separate permission code, and the order stays submitted |
| `SellerAcceptOffer.SellerOfferCannotBeAccepted` | spec/controllers/api/requests/offers/seller_accept_offer_mutation_request_spec.rb:86-96 | an offer made by the seller gets `validation`/`cannot_accept_offer` and the order stays submitted |
| `SellerAcceptOffer.UnknownOfferIsHttpNotFound` | spec/controllers/api/requests/offers/seller_accept_offer_mutation_request_spec.rb:98-111 | an unresolvable offer id is an HTTP 404, not a typed `orderOrError` result, and no order is modified |
| `SellerAcceptOffer.AuthorisedSellerApproves` | spec/controllers/api/requests/offers/seller_accept_offer_mutation_request_spec.rb:114-120 | submitted order, the buyer's last offer and an authorised actor: the order goes from `submitted` to `approved` with the new deadline, and the response shows it |
| `ExpireOrderJob.Perform` | spec/jobs/expire_order_job_spec.rb:12-50 | `abandon!` exactly when the order is still pending as expected and expired; `reject!` exactly when it is still submitted or approved as expected and expired; any call is made on the reloaded order; one call value, so never both |
| `ExpireOrderJob.Fire` | spec/jobs/expire_order_job_spec.rb:13-32 | a firing either leaves the order unchanged or moves its state along one lifecycle edge into a terminal state, touching nothing else; it changes the order exactly when the job makes a call |
| `ExpireOrderJob.ExpiredPendingIsAbandoned` | spec/jobs/expire_order_job_spec.rb:13-18 | pending, expected pending, past expiry: `abandon!` on that order, which becomes abandoned |
| `ExpireOrderJob.ExpiredSubmittedIsRejected` | spec/jobs/expire_order_job_spec.rb:19-25 | submitted, expected submitted, past expiry: `reject!` on that order, which becomes rejected |
| `ExpireOrderJob.ExpiredApprovedIsRejected` | spec/jobs/expire_order_job_spec.rb:26-32 | approved, expected approved, past expiry: `reject!` on that order, which becomes rejected |
| `ExpireOrderJob.StateMismatchDoesNothing` | spec/jobs/expire_order_job_spec.rb:34-42 | an order no longer in the expected state gets no call at any time |
| `ExpireOrderJob.BeforeExpiryDoesNothing` | spec/jobs/expire_order_job_spec.rb:44-50 | before `state_expires_at` there is no call, whatever the state |
| `ExpireOrderJob.SecondFiringIsNoOp` | spec/jobs/expire_order_job_spec.rb:34-42 | once a firing has acted, any later delivery of the same callback makes no call and changes nothing |
| `ExpireOrderJob.FiringIsIdempotent` | spec/jobs/expire_order_job_spec.rb:13-42 | delivering a callback twice at the same time ends as delivering it once |
| `ExpireOrderJob.TerminalOrderIsUntouched` | spec/jobs/expire_order_job_spec.rb:12-42 | no sequence of deliveries changes an abandoned or rejected order |
| `ExpireOrderJob.ExpiryActsAtMostOnce` | spec/jobs/expire_order_job_spec.rb:12-50 | over any sequence of deliveries the order changes at most once: it ends as it started, or, in a terminal state, as the result of one of the deliveries |
| `Interplay.AcceptanceDefusesSubmittedExpiry` | spec/jobs/expire_order_job_spec.rb:34-42 | after a successful accept, the expiry scheduled for `submitted` makes no call and changes nothing, whenever it fires |
| `Interplay.ApprovalRestartsExpiry` | spec/jobs/expire_order_job_spec.rb:26-32 | after a successful accept, the expiry scheduled for `approved` makes no call before the deadline the approval set |
| `Interplay.ExpiredOrderCannotBeAccepted` | spec/controllers/api/requests/offers/seller_accept_offer_mutation_request_spec.rb:49-58 | once the job has abandoned or rejected an order, accepting fails and leaves the order as the job left it; with the other guards passing the code is `invalid_state` |

## Left out

- GraphQL schema and request parsing, the response envelope beyond `type`/`code` and `id`/`state`, and JWT identity: only the actor's partner-id set is kept.
- The error `data` payload: the specs read it but assert nothing about it.
- Persistence (`update!`, `reload`), fabricators and the offer-id lookup: the order is a value, the lookup's result is the parameter `lookup`, and the call returns the new order.
- The clock: `now` and `state_expires_at` are integers. Whether the job acts at `now == state_expires_at` is left open as the parameter `fireAtBoundary`, because the specs only use one second past expiry.
- The approved state's deadline: the order service sets it on approval from the clock and a duration the specs do not show. It is the parameter `approvedExpiresAt` of `SellerAcceptOffer.AcceptOffer`.
- Job-queue delivery and `perform_now`: deliveries are a sequence of firings, each with its expected state and time.
- `abandon!` and `reject!` are stubbed in the job spec. Only the state they reach is modelled, taken from the test names ("transitions … to abandoned/rejected"). Any other effect of theirs is not part of this model.
- ExpireOrderJob.Fire: keeps `state_expires_at` as it was when it abandons or rejects an order. The specs do not show whether the services change the deadline of a terminal state, and the job never reads it again.
- The relative order of the accept-offer guards: it is the parameter `checks`, and no property depends on a particular order.
- Order states other than the five the specs use, and transitions they do not exercise (for example `pending` to `submitted`). The job does nothing for an expected state of `rejected` or `abandoned`, which the specs do not test.
- The own-offer guard is modelled as "the offer must come from the order's buyer party, id and type". The request spec only pins that the buyer's offer passes and the seller's offer fails, so an offer from a third party is not pinned by the source.
- The not-found caused by a missing seller permission and the 404 for an unknown offer id are kept as distinct outcomes. The implementing mutation and service classes are not part of this model.
- Concurrency and optimistic locking: nothing shown demonstrates them.
