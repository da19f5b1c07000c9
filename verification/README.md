# GatherGo: checkout, pricing, food bank and friends, verified

GatherGo sells event tickets and registration places, takes donations, hands out meal passes
and keeps feeds and badges. This Dafny project models the parts of its backend where money,
stock and limits are decided, and proves what they keep over whole runs. `dafny verify
dfyconfig.toml` checks everything; the files stand alone.

## What is modelled

**Checkout** (`CheckoutTypes`, `CheckoutInventory`, `TicketIssuance`, `CheckoutTransactions`,
`CheckoutInvariant`, `CheckoutRuns`, `CheckoutLocks`, `CheckoutSeats`, `CreationLaws`, `OrderLaws`,
`EditLaws`, `CheckoutService`). Buyers
take timed holds on tickets or registration places. Payments arrive late, twice, after a cancellation or with the wrong
amount, organisers change capacity meanwhile, and a clock lets holds run out without any
write. `CheckoutService` is a class whose fields are the tables and whose methods are the
database transactions, written as the program performs them, row by row. Each is tied to a
function of `CheckoutTransactions`, over which `CheckoutRuns` proves one inductive invariant
for every run. Transactions under an event's lock are single steps there; `CheckoutLocks` separates
the check and the act of completion and creation, with unlocked steps and whole transactions on
other events in between. `CheckoutSeats` studies the bound on places with scanned registrations
counted too. `CreationLaws`, `OrderLaws` and `EditLaws` say of the rows alone when each transaction
succeeds, how it is refused, and everything it writes.

**Money** (`ChargeClimb`, `PaymentPricing`, `CheckoutBooks`). The buyer's charge contains a
provider fee computed from the charge itself, rounded, waived below a threshold and capped.
The program iterates at most twelve times. `ChargeClimb` shows for any monotone, bounded fee
schedule with one jump that twelve rounds reach the least exact charge; `PaymentPricing` shows
that the fee rules are such schedules and that summaries lose no kobo; `CheckoutBooks` carries
that through every run, from quote to settlement or refund.

**Carts** (`Cart`). Aggregating and sorting a cart yields the same order for every permutation
and splitting of the same quantities, so that equal orders hash alike.

**Refunds** (`RefundWorker`). Any number of workers, each a sequence of separate database and
provider calls, interleave with each other, with crashes, with operators and with a provider
that answers as it likes. A conserved right to submit, which a row gives to its first claimer,
bounds submissions.

**Food bank** (`CollectionWindows`, `FoodBankSettings`, `FoodBank`, `FoodBankLaws`,
`FoodBankService`, `Donations`). A search over a grid of collection windows, a settings check that promises room for every meal (a
pigeonhole argument, with its converse), passes that are claimed, moved and redeemed, and
donations that bring a pass with them.

**Rate limiter, feed milestones, badges** (`RateLimit`, `FeedMilestones`, `BadgeProgress`,
`BadgeService`). Fixed windows and their exact worst case; which milestones a series of reports
announces, alone and racing; when a history of contributions reaches a target, and award rows
kept in step with it.

Money is in kobo, time in milliseconds, both exact integers. Wrappers and Sums hold an option
type and sums over table rows.

## Where the code promises less than one might expect

- A scanned registration no longer counts towards occupancy
  (src/modules/checkout/checkout-inventory.ts:63), so scanning frees a place, and there may be more
  people than places: `CheckoutSeats.MorePeopleThanPlaces`. The occupancy bound is about the count
  as the code takes it; `CheckoutSeats.SeatsFitExactly` says when the bound holds for everybody.
- The ticket payload of an event edit is not validated (src/modules/event/event.service.ts:472-487),
  and a new type may open with negative stock (`CheckoutRuns.NegativeStockIsAccepted`). No result
  about runs excludes such edits; the stock bound reads a negative stock as none.
  `CheckoutRuns.EventEditIsExact` says when the bound holds against the stock as stated, and
  `CheckoutRuns.StatedStockStays` that it stays.
- A self-registering buyer with a live hold is refunded if, and only if, they registered by another
  order meanwhile: `CheckoutRuns.LivePaymentIsHonoured`, with a run in
  `CheckoutRuns.LiveHoldsMayBeRefunded`.
- The worker writes PROCESSING without looking at the row's status
  (src/modules/checkout/checkout.worker.ts:135-138 and 178-186), so a refunded row can be
  reopened: `RefundWorker.ReopeningIsExact`. Its transaction stays refunded. Nor does a
  confirmation by hand stop a worker that is about to submit:
  `RefundWorker.ConfirmedMaySubmitExactly`.
- The per-window cap of a food bank holds for uncollected passes. With collected ones counted, it
  holds exactly as long as moves fit: `FoodBank.FullCapHoldsExactly`.
- The rate limiter's cooldown (up to 900 seconds on a 600-second window,
  src/modules/auth/auth.controller.ts:65) decides nothing: when the window is over a new bucket
  begins, without its block. `RateLimit.CooldownDecidesNothing` says so of whole traces, and
  `RateLimit.BlockLastsExactly` how long a block lasts.
- Racing requests may post milestones out of order. They climb while requests come one at a time
  (`FeedMilestones.PostsClimbOneAtATime`), and in any run exactly if every post fits
  (`FeedMilestones.PostsClimbExactly`).
- Environment overrides of the fee rules can leave no exact charge, exactly when they set no cap and
  100% or more: `PaymentPricing.ExactChargeExists`. Below that the loop may still stop short
  (`PaymentPricing.TwelveRoundsMayFallShort`). `PaymentPricing.RuleSettlesExactly` decides for which
  rules it never does: those without a percentage, and capped ones that pass a check of finitely
  many amounts, among them all of at most 5% and 2000 naira.
- The code's default ALAT fee is 50 basis points
  (src/modules/transaction-reference/payment-pricing.util.ts:144), while the program's own tests
  (src/modules/transaction-reference/payment-pricing.util.spec.ts) expect 500. The model follows
  the code; the pricing results cover both.

## Model

| member | source | states |
|---|---|---|
| `CheckoutRuns.RunsKeepInv` | src/modules/checkout/checkout.service.ts:98-549 | Main result. Over every run of checkouts, payments, cancellations, expiries, provider outcomes, refunds, organiser edits, scans, withdrawals and clock moves: sold plus live holds never exceed stock nor occupancy the places (a negative stock or capacity counting as none), each order's status, hold, refund, job and admissions agree, keys are unique, each buyer has one live hold and one active registration per event, and orders only move forward |
| `CheckoutRuns.StepKeepsInv` | src/modules/checkout/checkout.service.ts:98-549 | Every single step keeps all of that, and keeps every identity, price, deadline, decision and issued row it must |
| `CheckoutRuns.PaymentIsHonouredExactly` | src/modules/checkout/checkout.service.ts:315-417 | A payment of an open order is always answered with that order. It succeeds, fulfilled at this moment, if and only if the amount is right, the checkout is not cancelled, the event is not over, the buyer is not registered already and there is room beside everybody else's live holds; every other payment leads to a refund of what was collected, its provider fee on record |
| `OrderLaws.PaymentsAreAnswered` | src/modules/checkout/checkout.service.ts:315-417 | Every payment of an existing order is answered with that order, whether it is honoured, refunded or reported again; any other is not found and changes nothing |
| `OrderLaws.PaymentWrites` | src/modules/checkout/checkout.service.ts:315-417 | A payment writes nothing for a decided order; for one not honoured exactly the refund of what was collected, the provider fee and the lapsed hold; for an honoured one the settlement at the present time, the confirmed reservation, the job and the admissions, and nothing else in the store |
| `OrderLaws.HonouringWrites` | src/modules/checkout/checkout.service.ts:276-413 | The admissions of an honoured payment: sold counts rise by the ordered quantities, the new ticket rows are numbered within them, a registration is added unless sponsored |
| `CheckoutRuns.LivePaymentIsHonoured` | src/modules/checkout/checkout.service.ts:189-274 | After any run, a correct payment within its live hold and before the end is never refunded, with one exact exception: a buyer who has meanwhile registered for themselves |
| `CheckoutRuns.LiveHoldHasRoom` | src/modules/checkout/checkout-inventory.ts:21-38 | In every sound state a live hold is backed by stock or a place |
| `CheckoutRuns.CheckIsRoom` | src/modules/checkout/checkout.service.ts:189-274 | The item-by-item capacity check, as repeated at payment, fails exactly for an ended event, a duplicate registration or missing room, and otherwise plans the whole order |
| `CheckoutRuns.PayingTwiceIsPayingOnce` | src/modules/checkout/checkout.service.ts:323-337 | A payment reported again, whatever it says, changes nothing |
| `CheckoutRuns.AdmissionsOrRefund` | src/modules/checkout/checkout.service.ts:276-417 | Success, fulfilment time, confirmed reservation and one job come together; a successful order has exactly the ordered admissions, a refunded one none |
| `CheckoutRuns.DecisionsAreFinal` | src/modules/checkout/checkout.service.ts:315-549 | Over any run: a cancelled checkout never succeeds, success and refunds are final, no reservation returns to held, no deadline moves, and sold counts grow by exactly the ticket rows created |
| `CheckoutRuns.UsedKeyIsAnswered` | src/modules/checkout/checkout.service.ts:103-120 | A request with a used key gets that order, or an error if it is malformed or its content differs, and reserves nothing |
| `CheckoutRuns.ReplayIsFree` | src/modules/checkout/checkout.service.ts:85-120 | The same after any run in between, however the order has fared |
| `CheckoutLocks.AsideRunsOnlyReleaseAt` | src/modules/checkout/checkout.service.ts:338-383 | Whatever happens beside an event's lock, steps without a lock and whole transactions on other events in any number, only releases at that event |
| `CheckoutLocks.RoomSurvives` | src/modules/checkout/checkout-inventory.ts:21-89 | Room that a check found under the lock is still there after all that, for an existing order or a new one, and its buyer has not been registered meanwhile |
| `CheckoutLocks.InterleavedCompletionIsSafe` | src/modules/checkout/checkout.service.ts:338-383 | A completion may check, let unlocked steps, scans, withdrawals, cancellations and the sales, settlements and edits of other events happen, and only then act: nothing is oversold |
| `CheckoutLocks.InterleavedCreationIsSafe` | src/modules/checkout/checkout.service.ts:121-168 | Likewise between the check and the placing of an order, paid or free |
| `CheckoutLocks.CreationPlacesAtOnce` | src/modules/checkout/checkout.service.ts:121-179 | With nothing in between that is the creation itself |
| `CheckoutRuns.EventEditIsExact` | src/modules/event/event.service.ts:440-490 | An accepted event edit leaves every type within its stated stock if and only if, for each type, the last stock the payload states is not negative, or it states none and the type had no negative one; payloads may name a type repeatedly |
| `CheckoutRuns.NegativeStockIsAccepted` | src/modules/event/event.service.ts:476-487 | Every ticketed event, in every sound state, accepts a new priced type with negative stock; all but the stated bound survives it |
| `CheckoutRuns.StatedStockStays` | src/modules/event/event.service.ts:461-472 | A type whose stock is not negative at some moment is within its stated stock ever after, in every run |
| `CheckoutRuns.LiveHoldsMayBeRefunded` | src/modules/checkout/checkout.service.ts:205-213 | A concrete run: a first hold expires, a second is taken, the first is paid late, and the second, paid in time, is refunded |
| `CheckoutSeats.ScanningFreesAPlace` | src/modules/scanner/scanner.service.ts:683-697 | Scanning an active registration lowers occupancy by exactly one, once |
| `CheckoutSeats.MorePeopleThanPlaces` | src/modules/checkout/checkout-inventory.ts:62-88 | A concrete run: one place and no fee; a first person registers and is scanned, a second registers, and two hold the one place |
| `CheckoutSeats.SeatsAreOccupancyAndUsed` | src/modules/checkout/checkout-inventory.ts:62-88 | The number of people with a place is occupancy as the program counts it plus those scanned |
| `CheckoutSeats.SeatsFitUntilScanned` | src/modules/checkout/checkout-inventory.ts:62-88 | While nobody has been scanned there are never more people than places |
| `CheckoutSeats.PaymentFitsExactly` | src/modules/checkout/checkout.service.ts:189-413 | A payment keeps as many people as places if and only if it does not succeed, buys no registration, has its own hold live, or finds a seat left |
| `CheckoutSeats.CreationFitsExactly` | src/modules/checkout/checkout.service.ts:98-187 | A creation does if and only if it places nothing, is no registration, holds nothing, or finds a seat left |
| `CheckoutSeats.CapacityFitsExactly` | src/modules/checkout/checkout-inventory.ts:91-105 | An event edit does if and only if it is refused or states no capacity below everybody with a place |
| `CheckoutSeats.StepKeepsSeatsExactly` | src/modules/checkout/checkout.service.ts:98-549 | Every step keeps the full bound if and only if it fits in that sense; all others always do |
| `CheckoutSeats.SeatsFitExactly` | src/modules/checkout/checkout.service.ts:98-549 | Over runs: there are never more people than places if and only if every creation, payment and capacity edit fits at its moment |
| `CheckoutRuns.EmptyStoreIsSound` | src/modules/checkout/checkout.service.ts:189-274 | The invariant holds of every shop without orders that has not sold more than its stock |
| `CheckoutInvariant.CreateKeepsInv` | src/modules/checkout/checkout.service.ts:98-187 | Placing an order, paid or free, keeps the invariant |
| `CheckoutInvariant.CreationChecks` | src/modules/checkout/checkout.service.ts:121-150 | A placed order had an unused key, no other live hold, distinct ticket types with some of each, all visible and at the prices of its items, and room; `CreationLaws.CreationIsExact` adds the rest and the converse |
| `CreationLaws.CreationIsExact` | src/modules/checkout/checkout.service.ts:98-274 | A checkout is placed if and only if it is well formed, its key is unused, its event exists and is not over, its buyer has no live hold there, and its goods sell: distinct visible types of the event at their price with enough left beside sales and live holds, or a place at the current fee for somebody not registered |
| `CreationLaws.RefusalsAreExact` | src/modules/checkout/checkout.service.ts:98-274 | How a request, its buyer's other checkouts and its event refuse a checkout, in that order, with nothing written |
| `CreationLaws.TicketRefusals` | src/modules/checkout/checkout.service.ts:242-272 | The first item that does not sell decides: a foreign type is a bad request, a hidden or sold-out one unavailable, a changed price a conflict; so is naming a type twice |
| `CreationLaws.RegistrationRefusals` | src/modules/checkout/checkout.service.ts:195-241 | A registered buyer or a full event is unavailable, a changed fee a conflict, and everything else is placed |
| `CreationLaws.CreationWrites` | src/modules/checkout/checkout.service.ts:121-187 | A placed checkout adds one order and, while it waits for payment, nothing else |
| `CreationLaws.CreatedOrder` | src/modules/checkout/checkout.service.ts:151-179 | The order carries the request and its quote; a payable one waits with its items held for the holding time, a free one is settled with its reservation confirmed |
| `CreationLaws.CreationIssues` | src/modules/checkout/checkout.service.ts:276-313 | A free checkout is admitted at once: its tickets numbered and counted as sold, or its registration |
| `OrderLaws.HoldReservesUntilItRunsOut` | src/modules/checkout/checkout.service.ts:151-168 | At every later moment a placed order reserves exactly what it ordered until its hold runs out, and nothing afterwards |
| `OrderLaws.HoldKeepsAPlaceUntilItRunsOut` | src/modules/checkout/checkout-inventory.ts:56-89 | A placed registration takes one place of its event until its hold runs out, none afterwards, and none elsewhere |
| `CheckoutInvariant.CheckGivesRoom` | src/modules/checkout/checkout.service.ts:189-274 | A passed check means room for the whole order at once, because ticket types are distinct, and a buyer not yet registered |
| `CheckoutInvariant.CheckItemsIsExact` | src/modules/checkout/checkout.service.ts:242-272 | The loop over the items accepts exactly the orders all of whose items pass |
| `CheckoutInvariant.CompleteKeepsInv` | src/modules/checkout/checkout.service.ts:315-417 | Completing, by issue or by refund, keeps the invariant |
| `CheckoutInvariant.AdmitKeepsInv` | src/modules/checkout/checkout.service.ts:276-313 | Admissions for an order with room and a buyer not yet registered keep the invariant, even when its own hold has run out |
| `CheckoutInvariant.AdmitIssues` | src/modules/checkout/checkout.service.ts:276-313 | After issuing, each order has its ordered admissions or none |
| `CheckoutInvariant.AdmissionWrites` | src/modules/checkout/checkout.service.ts:276-313 | Admitting an order writes its rows, counts, reservation and job, and nothing else |
| `CheckoutInvariant.ReleaseKeepsInv` | src/modules/checkout/checkout.service.ts:419-549 | Any change that only releases keeps the invariant |
| `CheckoutInvariant.ExpireReleases` | src/modules/checkout/checkout.service.ts:526-549 | Expiring holds only releases, and leaves every order with a live hold as it is; `OrderLaws.ExpiryIsExact` says the rest |
| `OrderLaws.ExpiryIsExact` | src/modules/checkout/checkout.service.ts:526-549 | Expiry changes exactly the orders whose hold has run out: the hold lapses, and the order expires if it was waiting for payment |
| `OrderLaws.ExpirySparesLiveHolds` | src/modules/checkout/checkout.service.ts:536-548 | An order with a live hold is left as it is |
| `OrderLaws.ExpiryKeepsReserved` | src/modules/checkout/checkout-inventory.ts:21-38 | So no stock is reserved or freed by it |
| `OrderLaws.ExpiryKeepsOccupancy` | src/modules/checkout/checkout-inventory.ts:56-89 | Nor any place |
| `CheckoutInvariant.CancelReleases` | src/modules/checkout/checkout.service.ts:498-524 | Cancelling only releases |
| `OrderLaws.CancellationIsExact` | src/modules/checkout/checkout.service.ts:498-524 | Only the buyer cancels, only an order with a reservation, and only until it has succeeded or is refunded; exactly its hold and status change |
| `CheckoutInvariant.InitializationFailedReleases` | src/modules/checkout/checkout.service.ts:473-496 | A failed initialization only releases |
| `OrderLaws.InitializationFailureIsExact` | src/modules/checkout/checkout.service.ts:473-496 | Exactly one order lets go of its hold, and expires if it was waiting |
| `CheckoutInvariant.MarkFailedReleases` | src/modules/transaction-reference/transaction-reference.service.ts:2117-2148 | A failed payment only releases |
| `OrderLaws.PaymentFailureIsExact` | src/modules/transaction-reference/transaction-reference.service.ts:2117-2148 | Exactly one waiting order fails and lets go of its hold; decided ones are left alone |
| `CheckoutInvariant.ScanReleases` | src/modules/scanner/scanner.service.ts:683-697 | Scanning only releases |
| `CheckoutInvariant.WithdrawalReleases` | src/modules/registration/registration.service.ts:303-331 | Withdrawing a registration only releases |
| `OrderLaws.WithdrawalIsExact` | src/modules/registration/registration.service.ts:303-331 | The registrant and the organiser withdraw a registration, and nobody else does; exactly its status changes |
| `CheckoutInvariant.EditTicketIsExact` | src/modules/event/event.service.ts:440-490 | One accepted ticket edit touches its own type only, keeps the stock invariant, leaves for sale beside what is sold exactly the stock it states, or the total as it was, and leaves a negative stock if and only if it opens it so or found it so and states none |
| `CheckoutInvariant.EditsAreExact` | src/modules/event/event.service.ts:440-490 | A whole payload leaves a type with negative stock if and only if the last stock it states for it is negative, or it states none and the type had one |
| `EditLaws.TicketEditAnswers` | src/modules/event/event.service.ts:440-490 | When an entry of the form is refused: a new type without a price, a foreign type, less stock than is held |
| `EditLaws.TicketEditWrites` | src/modules/event/event.service.ts:461-487 | An accepted entry leaves the stated stock for sale beside what is sold, price and visibility as stated, all else as it was |
| `EditLaws.FormLeavesLastStated` | src/modules/event/event.service.ts:440-490 | A form leaves each type with the last stock, price and visibility it states for it, and with what it had where it states none |
| `EditLaws.FirstRefusedEntryDecides` | src/modules/event/event.service.ts:440-490 | The first refused entry refuses the whole form, with nothing written |
| `EditLaws.EventEditAnswers` | src/modules/event/event.service.ts:369-490 | A form is refused for an unknown event, a capacity below what is taken, or what it says of ticket types, and for nothing else |
| `EditLaws.EventEditWrites` | src/modules/event/event.service.ts:369-490 | An accepted form sets end, fee and capacity as stated, for the events that have them, and nothing else of the event |
| `CheckoutInvariant.UpdateEventKeepsInv` | src/modules/event/event.service.ts:369-374 | Every edit of an event, its capacity, dates, fees and tickets, keeps the invariant |
| `CheckoutInvariant.UpdateTicketKeepsInv` | src/modules/event-ticket/event-ticket.service.ts:73-102 | The ticket's own edit form keeps the invariant |
| `EditLaws.StockEditIsExact` | src/modules/event-ticket/event-ticket.service.ts:73-102 | Only the organiser, and not below what is sold and held; the total is set as stated, and only that type changes |
| `CheckoutInvariant.ScanKeepsInv` | src/modules/scanner/scanner.service.ts:683-697 | Scanning keeps the invariant |
| `CheckoutInventory.ReservedFalls` | src/modules/checkout/checkout-inventory.ts:21-38 | Reserved stock can only fall as time passes |
| `CheckoutInventory.OccupancyFalls` | src/modules/checkout/checkout-inventory.ts:56-89 | So can occupancy |
| `TicketIssuance.PlannedRowsCount` | src/modules/ticket/ticket.service.ts:53-69 | A plan creates exactly the planned number of rows of each type, all for its order |
| `TicketIssuance.PlannedKeysDistinct` | src/modules/ticket/ticket.service.ts:58-66 | Fulfilment keys within a plan never collide |
| `TicketIssuance.PlanCompletesOrder` | src/modules/ticket/ticket.service.ts:31-69 | The rows planned for an order continue its numbering up to what was ordered |
| `CheckoutService.CheckoutService.constructor` | src/modules/checkout/checkout.service.ts:189-274 | A service that has not sold more than its stock starts sound |
| `CheckoutService.CheckoutService.AssertCapacity` | src/modules/checkout/checkout.service.ts:189-274 | Computes the specified check, returning at the first failing item; `CreationLaws.TicketRefusals` and `CheckoutRuns.CheckIsRoom` describe it |
| `CheckoutService.CheckoutService.CreateTickets` | src/modules/ticket/ticket.service.ts:53-69 | Appends exactly the planned rows |
| `CheckoutService.CheckoutService.CountSold` | src/modules/checkout/checkout.service.ts:284-289 | Adds each item to its sold count |
| `CheckoutService.CheckoutService.Issue` | src/modules/checkout/checkout.service.ts:276-313 | Rows, sold counts, reservation and job change as specified and nothing else does |
| `CheckoutService.CheckoutService.Create` | src/modules/checkout/checkout.service.ts:98-187 | Keeps the invariant and is the transaction that `CreationLaws` describes; a refused request changes nothing |
| `CheckoutService.CheckoutService.RequireRefund` | src/modules/checkout/checkout.service.ts:356-382 | Lapses the hold, records the refund and zeroes the creator's and platform's shares |
| `CheckoutService.CheckoutService.Fulfil` | src/modules/checkout/checkout.service.ts:383-413 | Issues and settles as specified |
| `CheckoutService.CheckoutService.Complete` | src/modules/checkout/checkout.service.ts:315-417 | Keeps the invariant and is the transaction that `OrderLaws.PaymentWrites` describes, with its answer |
| `CheckoutService.CheckoutService.Cancel` | src/modules/checkout/checkout.service.ts:498-524 | Keeps the invariant and is the specified transaction |
| `CheckoutService.CheckoutService.ExpireHolds` | src/modules/checkout/checkout.service.ts:526-549 | One pass over the rows is the update that `OrderLaws.ExpiryIsExact` describes: only the holds that have run out, and the open transactions with them |
| `CheckoutService.CheckoutService.InitializationFailed` | src/modules/checkout/checkout.service.ts:473-496 | Keeps the invariant and is the specified update |
| `CheckoutService.CheckoutService.MarkTransactionFailed` | src/modules/transaction-reference/transaction-reference.service.ts:2117-2148 | Keeps the invariant and is the specified update |
| `CheckoutService.CheckoutService.ClaimInitialization` | src/modules/checkout/checkout.service.ts:419-437 | Compare-and-swap: true for the first caller on an open order, false otherwise |
| `CheckoutService.CheckoutService.FinishInitialization` | src/modules/checkout/checkout.service.ts:439-471 | Keeps the invariant and is the specified update |
| `CheckoutService.CheckoutService.ConfirmRefund` | src/modules/transaction-reference/transaction-reference.service.ts:898-918 | Keeps the invariant and is the specified update of refund row and transaction |
| `CheckoutService.CheckoutService.MarkRegistrationAsUsed` | src/modules/scanner/scanner.service.ts:545-580 | Keeps the invariant and is the specified update of an active registration |
| `CheckoutService.CheckoutService.CancelRegistration` | src/modules/registration/registration.service.ts:303-331 | Keeps the invariant and is the specified update, for the registrant and the organiser only |
| `CheckoutService.CheckoutService.EditTicketTypes` | src/modules/event/event.service.ts:440-490 | The loop over ticket edits applies them all or, at the first failure, none, as `EditLaws.FormLeavesLastStated` describes |
| `CheckoutService.CheckoutService.UpdateEvent` | src/modules/event/event.service.ts:369-490 | Keeps the invariant and is the transaction that `EditLaws.EventEditWrites` describes |
| `CheckoutService.CheckoutService.UpdateTicket` | src/modules/event-ticket/event-ticket.service.ts:73-102 | Keeps the invariant and is the specified transaction |
| `Cart.Aggregate` | src/modules/transaction-reference/transaction-reference.service.ts:158-163 | The map-filling loop computes the canonical order |
| `Cart.CanonicalIsFaithful` | src/modules/transaction-reference/transaction-reference.service.ts:158-163 | The canonical order names each ticket type of the cart once, ascending, with its total, and leaves none out |
| `Cart.SameTotalsSameOrder` | src/modules/transaction-reference/transaction-reference.service.ts:158-175 | Two carts get the same order if and only if they name the same types with the same totals |
| `Cart.ReorderedLinesSameOrder` | src/modules/transaction-reference/transaction-reference.service.ts:158-175 | Permuting the lines does not change the order |
| `Cart.SplitLinesSameOrder` | src/modules/transaction-reference/transaction-reference.service.ts:158-175 | Nor does splitting a line |
| `Cart.OrdersAreDistinct` | src/modules/transaction-reference/transaction-reference.service.ts:161-163 | A canonical order has no type twice, which the item-by-item capacity check relies on |
| `CheckoutBooks.OrdersCostTheirLines` | src/modules/transaction-reference/transaction-reference.service.ts:158-234 | However a cart is ordered and split, the order made of it costs what its lines cost |
| `CheckoutBooks.RunsKeepBooks` | src/modules/transaction-reference/transaction-reference.service.ts:1371-1403 | Over every run that prices its requests and settlements with the pricing functions, whatever fee the provider reports: an open order carries its quote, a successful one collected exactly the quote and splits it without loss, a refunded one gives back all it collected and owes nobody |
| `CheckoutBooks.PayKeepsBooks` | src/modules/checkout/checkout.service.ts:315-417 | One payment keeps the books |
| `CheckoutBooks.CreateKeepsBooks` | src/modules/checkout/checkout.service.ts:98-187 | One new order keeps the books |
| `CheckoutBooks.SettlingBalances` | src/modules/checkout/checkout.service.ts:385-413 | A settled order balances |
| `CheckoutBooks.OtherStepsKeepBooks` | src/modules/checkout/checkout.service.ts:419-549 | No other step touches them |
| `PaymentPricing.EstimateCharge` | src/modules/transaction-reference/payment-pricing.util.ts:261-289 | The loop with its early exit computes twelve rounds of the climb |
| `PaymentPricing.TwelveRoundsSuffice` | src/modules/transaction-reference/payment-pricing.util.ts:135-150 | Main result. For every fee rule of at most 5% and a cap of at most 2000 naira (both defaults qualify) and every positive amount, the twelve rounds end on the least charge that exactly covers the amount and the fee on the charge |
| `PaymentPricing.SettledQuoteIsLeast` | src/modules/transaction-reference/payment-pricing.util.ts:261-289 | For any rule at all, if the loop settles it has found the least such charge |
| `PaymentPricing.WaiverAllowsTwoCharges` | src/modules/transaction-reference/payment-pricing.util.ts:209-214 | The fixed-fee waiver does leave an amount with two exact charges; the loop quotes the smaller |
| `PaymentPricing.SteepRuleNeverSettles` | src/modules/transaction-reference/payment-pricing.util.ts:173-195 | With an override of 100% or more and no cap no amount has an exact charge |
| `PaymentPricing.ExactChargeExists` | src/modules/transaction-reference/payment-pricing.util.ts:173-221 | For every rule and positive amount there is an exact charge if and only if the rule is capped or takes less than 100% |
| `PaymentPricing.QuoteIsExactOrShort` | src/modules/transaction-reference/payment-pricing.util.ts:261-289 | For every rule a quote is exact if and only if it is the least exact charge, and otherwise below every exact charge |
| `PaymentPricing.TwelveRoundsMayFallShort` | src/modules/transaction-reference/payment-pricing.util.ts:273-286 | A 99% rule, uncapped or with any cap of 51 kobo or more, has an exact charge for 1 kobo, and the twelve rounds stop short of it |
| `PaymentPricing.RuleSettlesExactly` | src/modules/transaction-reference/payment-pricing.util.ts:273-286 | For every rule: the twelve rounds settle every amount if and only if it takes no percentage, or has a cap and settles the finitely many amounts below 10000 times the cap |
| `PaymentPricing.QuoteStrictlyIncreases` | src/modules/transaction-reference/payment-pricing.util.ts:261-289 | In every configuration a dearer order is charged strictly more |
| `PaymentPricing.QuoteBalances` | src/modules/transaction-reference/payment-pricing.util.ts:291-347 | Every quote accounts for each kobo, settled or not |
| `PaymentPricing.SettlementBalancesExactly` | src/modules/transaction-reference/payment-pricing.util.ts:291-347 | A settlement balances if and only if the collected amount is one the quote could have asked for |
| `PaymentPricing.SettlingTheQuoteBalances` | src/modules/transaction-reference/payment-pricing.util.ts:291-347 | Collecting the quote keeps the quote's split, whatever fee the provider finally takes |
| `PaymentPricing.NobodyIsShort` | src/modules/transaction-reference/payment-pricing.util.ts:291-347 | After paying the provider and the creator the platform keeps exactly its fee, less what it agreed to bear, if and only if the quote covers the fee the buyer bears; moderate rules always do |
| `PaymentPricing.RuleIsMonotone` | src/modules/transaction-reference/payment-pricing.util.ts:197-221 | No provider fee falls as the charge rises, across rounding, waiver and cap |
| `PaymentPricing.RuleIsSmooth` | src/modules/transaction-reference/payment-pricing.util.ts:197-221 | Above the waiver a moderate fee grows by at most a twentieth of the charge, up to rounding |
| `PaymentPricing.PlatformFeeGrows` | src/modules/transaction-reference/payment-pricing.util.ts:160-171 | No platform fee falls as the base rises |
| `PaymentPricing.PlatformFeeIsExact` | src/modules/transaction-reference/payment-pricing.util.ts:160-171 | The fixed fee where one is set, else the percentage to the nearest kobo; 125 naira by default; nothing on nothing |
| `PaymentPricing.ProviderFeeIsExact` | src/modules/transaction-reference/payment-pricing.util.ts:197-221 | The percentage to the nearest kobo, plus the fixed fee from the waiver on, never above the cap |
| `PaymentPricing.DefaultProviderFees` | src/modules/transaction-reference/payment-pricing.util.ts:135-150 | The shipped rules written out in kobo |
| `PaymentPricing.FeesAreBorneOnce` | src/modules/transaction-reference/payment-pricing.util.ts:291-347 | Each fee of a summary is charged to the one who bears it by configuration, and to nobody else |
| `PaymentPricing.DefaultsAreModerate` | src/modules/transaction-reference/payment-pricing.util.ts:135-158 | The shipped rules meet the conditions of the main result |
| `PaymentPricing.Round` | src/modules/transaction-reference/payment-pricing.util.ts:206-208 | Rounds half upwards, by its distance to the exact quotient |
| `ChargeClimb.TwelveRounds` | src/modules/transaction-reference/payment-pricing.util.ts:273-286 | Twelve rounds reach the least charge of any bounded schedule with one jump |
| `ChargeClimb.SixRounds` | src/modules/transaction-reference/payment-pricing.util.ts:273-286 | Six rounds do where the schedule is smooth |
| `ChargeClimb.ClimbStaysBelow` | src/modules/transaction-reference/payment-pricing.util.ts:273-286 | No round passes any exact charge |
| `ChargeClimb.ClimbAscends` | src/modules/transaction-reference/payment-pricing.util.ts:273-286 | Rounds never go back |
| `ChargeClimb.ClimbKeepsDistance` | src/modules/transaction-reference/payment-pricing.util.ts:273-286 | Two climbs stay as far apart as they began |
| `ChargeClimb.LeastChargeExists` | src/modules/transaction-reference/payment-pricing.util.ts:273-286 | A climb that has some sufficient charge above it settles on the least exact one |
| `CollectionWindows.NextCollectionWindow` | src/modules/food-bank/collection-windows.ts:9-37 | The two loops compute the specified search |
| `CollectionWindows.NextWindowIsEarliest` | src/modules/food-bank/collection-windows.ts:14-36 | No window means the meals are gone or every remaining window is full; a window is the earliest with room, on the grid and within the hours |
| `CollectionWindows.SearchIsExact` | src/modules/food-bank/collection-windows.ts:24-36 | The loop finds the first window with room, and fails exactly when there is none |
| `CollectionWindows.CurrentWindowContains` | src/modules/food-bank/collection-windows.ts:17-20 | The search begins with the window that contains the present moment, or the first |
| `CollectionWindows.FullWindowsAreReserved` | src/modules/food-bank/food-bank-settings.ts:52-58 | Pigeonhole: full windows account for that many reservations |
| `CollectionWindows.NobodyTurnedAwayEarly` | src/modules/food-bank/food-bank-settings.ts:52-58 | Accepted settings never turn anyone away before the first window is over while a meal is left |
| `CollectionWindows.CheckIsTight` | src/modules/food-bank/food-bank-settings.ts:52-58 | Settings that fail the check can turn someone away at any time while meals remain |
| `FoodBankSettings.AcceptedMeansRoomForAll` | src/modules/food-bank/food-bank-settings.ts:2-59 | For settings within the bounds, acceptance is equivalent to that promise |
| `FoodBankSettings.AcceptanceIsExact` | src/modules/food-bank/food-bank-settings.ts:2-59 | Exactly which settings are accepted, bound by bound |
| `FoodBankSettings.ShiftKeepsAcceptance` | src/modules/food-bank/food-bank.service.ts:225-236 | Moving the hours as a whole never changes the verdict |
| `FoodBank.RunsStaySound` | src/modules/food-bank/food-bank.service.ts:42-298 | Main result. Over every run of claims, grants, status changes, moves, redemptions and edits: at most as many passes as meals, one per person, every uncollected pass on the current grid, no window over capacity in uncollected passes, and collected passes untouched |
| `FoodBank.StepKeepsSound` | src/modules/food-bank/food-bank.service.ts:42-298 | Each step keeps it |
| `FoodBank.NewcomersAreServed` | src/modules/food-bank/food-bank.service.ts:42-96 | After any run, a newcomer gets a pass if and only if the bank is neither over nor closed, a meal is left and a window from the current one on has room; before the end of the first window a meal left means there is room |
| `FoodBank.AllocateKeepsSound` | src/modules/food-bank/food-bank.service.ts:42-96 | A claim or a grant keeps all of that |
| `FoodBank.ClaimingTwice` | src/modules/food-bank/food-bank.service.ts:50-56 | Claiming again returns the same pass and issues nothing |
| `FoodBank.MoveKeepsSound` | src/modules/food-bank/food-bank.service.ts:203-242 | A move shifts uncollected passes and stays sound |
| `FoodBank.MovingKeepsPlaces` | src/modules/food-bank/food-bank.service.ts:225-242 | Each window keeps its number of uncollected passes |
| `FoodBank.MovingBackRestores` | src/modules/food-bank/food-bank.service.ts:225-242 | Moving there and back restores schedule and passes |
| `FoodBank.RedeemKeepsSound` | src/modules/food-bank/food-bank.service.ts:275-298 | Redeeming stays sound and touches one pass |
| `FoodBank.EditKeepsSound` | src/modules/event/event.service.ts:343-363 | Event edits stay sound because settings are fixed once a pass exists |
| `FoodBankLaws.AllocationIsExact` | src/modules/food-bank/food-bank.service.ts:42-96 | A holder keeps their pass; a newcomer gets the first window with room from the current one on, unused; nobody else changes |
| `FoodBankLaws.StatusChangeIsExact` | src/modules/food-bank/food-bank.service.ts:175-201 | The organiser, with the current version, opens only on a day of collection and pauses only what is open; refusals write nothing |
| `FoodBankLaws.MoveIsExact` | src/modules/food-bank/food-bank.service.ts:203-242 | The organiser moves a bank that is not open to no earlier day than today; hours and uncollected passes move alike, collected ones stay, collection has to be opened anew |
| `FoodBankLaws.RedemptionIsExact` | src/modules/food-bank/food-bank.service.ts:275-298 | A pass is redeemed if and only if it is unused and collection is open on its days; it notes when and by whom |
| `FoodBankLaws.EditIsExact` | src/modules/event/event.service.ts:343-363 | An edit is taken if and only if its settings pass, the event stays what it is, and a bank with passes keeps its hours, meals and windows |
| `FoodBank.CollectedPassesMayCoincide` | src/modules/food-bank/food-bank.service.ts:228-242 | A concrete run in which a move brings a window above its capacity, collected passes counted |
| `FoodBank.ShiftKeepsFullCapExactly` | src/modules/food-bank/food-bank.service.ts:225-242 | After a move no window holds more passes than its capacity, collected ones included, if and only if at every time the collected passes and those about to arrive fit together |
| `FoodBank.StepKeepsFullCapExactly` | src/modules/food-bank/food-bank.service.ts:42-298 | Claims, grants, status changes, redemptions and edits keep the full cap; a move keeps it if and only if it fits |
| `FoodBank.FullCapHoldsExactly` | src/modules/food-bank/food-bank.service.ts:42-298 | Over runs: the full cap holds at every moment if and only if every move that takes place fits at its moment |
| `FoodBank.GroupsCountPasses` | src/modules/food-bank/food-bank.service.ts:67-72 | Grouping by start time counts each pass once |
| `FoodBankService.FoodBankService.constructor` | src/modules/food-bank/food-bank-settings.ts:2-59 | A bank with accepted settings starts sound |
| `FoodBankService.FoodBankService.Allocate` | src/modules/food-bank/food-bank.service.ts:42-96 | Keeps the invariant and is the specified transaction |
| `FoodBankService.FoodBankService.UpdateCollection` | src/modules/food-bank/food-bank.service.ts:175-201 | Keeps the invariant and is the specified transaction |
| `FoodBankService.FoodBankService.Reschedule` | src/modules/food-bank/food-bank.service.ts:203-242 | Keeps the invariant and is the specified transaction |
| `FoodBankService.FoodBankService.Redeem` | src/modules/food-bank/food-bank.service.ts:275-298 | Keeps the invariant and is the specified transaction |
| `FoodBankService.FoodBankService.EditEvent` | src/modules/event/event.service.ts:343-363 | Keeps the invariant and is the specified transaction |
| `Donations.LedgerStaysSound` | src/modules/donation/donation.service.ts:73-120 | Over every run of donations and everything else that happens at the bank: the bank stays sound, each payment donates at most once, no donation is lost or altered |
| `Donations.RepeatedPaymentsDonateOnce` | src/modules/donation/donation.service.ts:75-82 | However late a payment is reported again, it is answered with the first donation and changes nothing |
| `Donations.DonationAlwaysSettles` | src/modules/donation/donation.service.ts:54-113 | A donation of the minimum or more settles exactly once, full bank or not |
| `Donations.DonationIsExact` | src/modules/donation/donation.service.ts:54-119 | A donation is too small, known, or stored once for what was paid, with a claim for its donor if one is due; nothing else is written |
| `Donations.DonorsAreServed` | src/modules/food-bank/food-bank.service.ts:110-117 | The donor ends up with a pass if and only if they had one or the bank still gives them out, which before the end of the first window means that a meal is left |
| `Donations.DonationKeepsSound` | src/modules/donation/donation.service.ts:73-120 | A donation and its pass are stored together and keep both sound |
| `Donations.DonationService.CreateDonation` | src/modules/donation/donation.service.ts:32-119 | Keeps the invariant and is the specified transaction over the donations and the passes |
| `RefundWorker.RunsStaySound` | src/modules/checkout/checkout.worker.ts:97-199 | Main result. Under every interleaving of any number of workers, crashes, lease expiries, provider answers and operators, each refund is submitted at most once, for its amount; whatever a worker takes up from the provider is of the row's amount and in naira; a refunded row has its transaction refunded and a confirmation on file; a refunded transaction stays refunded |
| `RefundWorker.StepKeeps` | src/modules/checkout/checkout.worker.ts:108-176 | Every step conserves or uses up the one right to submit, and takes up only refunds that match their row |
| `RefundWorker.SubmitKeeps` | src/modules/checkout/checkout.worker.ts:134-145 | Submitting uses up the right |
| `RefundWorker.RecordKeeps` | src/modules/checkout/checkout.worker.ts:154-189 | Recording the provider's answer stays sound |
| `RefundWorker.OtherStepKeeps` | src/modules/transaction-reference/transaction-reference.service.ts:898-918 | Operators' confirmations, new rows and reads give no further right |
| `RefundWorker.AmbiguousRefundIsNeverResubmitted` | src/modules/checkout/checkout.worker.ts:127-134 | Once a submission may have been made, no run makes another |
| `RefundWorker.EmptyDeskIsSound` | src/modules/checkout/checkout.worker.ts:97-107 | The invariant holds where no refund has been asked for |
| `RefundWorker.RunsStayTraced` | src/modules/checkout/checkout.worker.ts:97-199 | Every run from there also keeps that rows beyond REQUESTED have been claimed and that tasks past listing have a provider to submit to |
| `RefundWorker.ListingIsExact` | src/modules/checkout/checkout.worker.ts:134-139 | What is taken up is among the provider's refunds, has the row's amount and is in naira; none is taken up exactly when there is none |
| `RefundWorker.RefundedExactly` | src/modules/checkout/checkout.worker.ts:154-176 | A step refunds a row if and only if it is an operator's confirmation of a row handed over, or records as processed the answer to a submission of that row, or a refund of its own amount in naira that the provider listed |
| `RefundWorker.RefundedRowsWereSettled` | src/modules/checkout/checkout.worker.ts:97-199 | So over every run from an empty desk: every refunded row has such a step behind it |
| `RefundWorker.ClaimIsExact` | src/modules/checkout/checkout.worker.ts:108-119 | A task claims a row that nobody has touched since it was read, with a lease of two minutes, and otherwise gives up |
| `RefundWorker.ListingStepIsExact` | src/modules/checkout/checkout.worker.ts:120-139 | Rows without a provider go to an operator; the others look for their refund |
| `RefundWorker.SubmittingIsExact` | src/modules/checkout/checkout.worker.ts:140-153 | A submission asks for the row's amount, once; an unclear reply goes to an operator |
| `RefundWorker.RecordIsExact` | src/modules/checkout/checkout.worker.ts:154-189 | A processed answer refunds row and transaction with the provider's number in decimal on file; a pending one is noted; any other goes to an operator |
| `RefundWorker.OperatorIsExact` | src/modules/transaction-reference/transaction-reference.service.ts:898-918 | Operators confirm rows handed to them, with a reference of three characters or more, and no others |
| `RefundWorker.MaySubmitExactly` | src/modules/checkout/checkout.worker.ts:108-145 | Some continuation submits a refund if and only if it goes through the provider and its right is still with the row or with a worker |
| `RefundWorker.ConfirmedMaySubmitExactly` | src/modules/transaction-reference/transaction-reference.service.ts:898-918 | After an operator has confirmed a refund by hand, some continuation still submits it if and only if it goes through the provider and some worker is armed: it claimed the row's first attempt, has found no refund there and has not submitted |
| `RefundWorker.ConfirmedRefundsMayBeSubmitted` | src/modules/checkout/checkout.worker.ts:127-145 | A concrete run in which that happens |
| `RefundWorker.ReopeningIsExact` | src/modules/checkout/checkout.worker.ts:134-186 | A refunded row is reopened if and only if the step is one of the two unguarded writes of PROCESSING |
| `RefundWorker.RefundedRowsMayReopen` | src/modules/checkout/checkout.worker.ts:178-186 | A concrete run in which that happens; the transaction stays refunded |
| `RateLimit.RateLimitGuard.CanActivate` | src/common/guards/rate-limit.guard.ts:44-81 | Decides and updates the bucket as specified |
| `RateLimit.AdmissionIsExact` | src/common/guards/rate-limit.guard.ts:50-79 | A request passes if and only if it opens a bucket with any allowance, or fewer than `max` were counted in its bucket |
| `RateLimit.BucketIsExact` | src/common/guards/rate-limit.guard.ts:44-81 | What a request leaves of its bucket: opened anew strictly after its reset, counted, and blocked for the cooldown when the allowance is used up |
| `RateLimit.AtMostOneAllowancePerBucket` | src/common/guards/rate-limit.guard.ts:50-79 | A bucket lets at most `max` requests through |
| `RateLimit.AtMostTwoAllowances` | src/common/guards/rate-limit.guard.ts:50-79 | On a clock that never goes back, no interval of one window's length sees more than 2 * max - 1 of a key's requests pass |
| `RateLimit.TwoAllowancesAreReached` | src/common/guards/rate-limit.guard.ts:50-79 | For every limit some trace reaches that bound |
| `RateLimit.CooldownDecidesNothing` | src/common/guards/rate-limit.guard.ts:59-75 | Traces that differ only in their cooldowns let the same requests through |
| `RateLimit.BlockLastsExactly` | src/common/guards/rate-limit.guard.ts:54-75 | A block refuses everybody until its time is up if and only if nothing is allowed anyway or that time is no later than the first moment after the bucket's reset |
| `RateLimit.BlocksMayBeCutShort` | src/common/guards/rate-limit.guard.ts:54-75 | For every limit whose cooldown outlasts its window, a trace after which a request passes while a block should still stand |
| `RateLimit.KeysAreIndependent` | src/common/guards/rate-limit.guard.ts:36-48 | Each key is treated as if it were alone |
| `FeedMilestones.MilestoneFeed.Reserve` | src/modules/feed/feed.service.ts:1206-1233 | Reserves a milestone once and then stores the merged list |
| `FeedMilestones.MilestoneFeed.Report` | src/modules/feed/feed.service.ts:921-1091 | Announces and records as specified |
| `FeedMilestones.CacheRecordsExactly` | src/modules/feed/feed.service.ts:996-1022 | After any series of reports the list holds exactly the thresholds some report reached, and "sold out" exactly if some report sold out; so it is closed downwards |
| `FeedMilestones.AnnouncementIsExact` | src/modules/feed/feed.service.ts:1032-1091 | Without reference to a cache: a report announces "sold out" if it is the first to sell out, and otherwise its highest threshold if no earlier report reached it |
| `FeedMilestones.SellsOutAtNinetyFivePercent` | src/modules/feed/feed.service.ts:1032-1040 | What sells out does so exactly at 95% of its places |
| `FeedMilestones.CountThresholds` | src/modules/feed/feed.service.ts:936-1022 | A count of tickets or registrations stands at the highest of 100, 50 and 10 that it has reached |
| `FeedMilestones.DonationThresholds` | src/modules/feed/feed.service.ts:936-1022 | Donations stand at the highest of 100, 95, 90, 75, 50 and 10 percent of their target that they have reached |
| `FeedMilestones.NoTargetNoThreshold` | src/modules/feed/feed.service.ts:936-1022 | Donations without a positive target stand at none |
| `FeedMilestones.AnnouncementsClimb` | src/modules/feed/feed.service.ts:959-1091 | Announced thresholds strictly increase and nothing is announced twice |
| `FeedMilestones.FirstNewIsHighest` | src/modules/feed/feed.service.ts:996-1003 | The first unrecorded threshold in descending order is the highest one reached |
| `FeedMilestones.EachMilestonePostsOnce` | src/modules/feed/feed.service.ts:1206-1233 | However requests race, crash between any two of their steps and overwrite each other's lists, each milestone is posted at most once, and only by a request that reached it |
| `FeedMilestones.RacesMayAnnounceBackwards` | src/modules/feed/feed.service.ts:1206-1233 | A concrete run of racing requests that posts 100 before 50 |
| `FeedMilestones.PostsClimbOneAtATime` | src/modules/feed/feed.service.ts:936-1106 | If every list is read with no other request under way, posted thresholds strictly increase, crashes between any two steps included |
| `FeedMilestones.PostClimbsExactly` | src/modules/feed/feed.service.ts:1062-1106 | In any race, a post will be above every threshold posted by then if and only if its request reached some such threshold that the list it read did not have |
| `FeedMilestones.PostsClimbExactly` | src/modules/feed/feed.service.ts:936-1181 | Over runs: posted thresholds strictly increase if and only if every post fits at its moment |
| `BadgeProgress.Evaluate` | src/modules/badge/badge-progress.ts:7-35 | Earned if and only if the total reaches the target, dated at the moment the running total first does; current, remaining and percent add up |
| `BadgeProgress.Accumulate` | src/modules/badge/badge-progress.ts:11-16 | The loop over the sorted history finds that moment |
| `BadgeProgress.LatestContribution` | src/modules/badge/badge-progress.ts:13-16 | One more contribution, in order of time, crosses the target now or never moves an earlier crossing |
| `BadgeProgress.CrossingInAnyOrder` | src/modules/badge/badge-progress.ts:8-16 | The date is the same for every ordering of the contributions |
| `BadgeProgress.LaterContributionsKeepTheDate` | src/modules/badge/badge-progress.ts:13-16 | Later contributions never move it |
| `BadgeService.BadgeService.Reconcile` | src/modules/badge/badge.service.ts:72-135 | Clearing and upserting leave every row as specified |
| `BadgeService.BadgeService.SetVisibility` | src/modules/badge/badge.service.ts:43-64 | Accepted exactly if the badge is earned now; refused with nothing written |
| `BadgeService.RowsFollowActivity` | src/modules/badge/badge.service.ts:72-119 | Over every series of visits: a row exists if and only if the badge was ever earned, is dated exactly while it is held with the first date of the unbroken spell, and shows the user's last accepted choice, even across losing and re-earning it |
| `BadgeService.ReconcilingTwiceIsReconcilingOnce` | src/modules/badge/badge.service.ts:72-119 | A second look changes nothing |

## Left out

- CheckoutRuns.StepKeepsInv: locked transactions are single steps. Why that is enough is shown for the two that admit buyers, against everything that can happen beside their lock (`CheckoutLocks`); scanning checks a registration and marks it in one step.
- CheckoutBooks.RunsKeepBooks: naira display fields, recorded pricing of older rows (src/modules/transaction-reference/payment-pricing.util.ts:13-76), settlement and risk statuses are not part of the books.
- RefundWorker.RunsStaySound: the worker's loop over a batch is modelled as independent steps on values, which allows more interleavings than one loop would; a refund row's lease is kept but, as in the code, not consulted once the row is claimed.
- PaymentPricing.TwelveRoundsSuffice: JavaScript doubles are exact integers here; fee percentages and fixed fees are non-negative integers.
- FoodBank.RunsStaySound: local calendar days are any function from time to day; the event's time zone is fixed.
- FeedMilestones.CacheRecordsExactly: the keys' seven-day lifetime is taken to outlast the run, and doubles are exact fractions.
- RateLimit.AtMostTwoAllowances: buckets live in one process; several processes would each have their own.
- BadgeProgress.Evaluate: labels and messages are not modelled, and the library's stable sort is a function.
- BadgeService.RowsFollowActivity: how activity is collected from source records is not modelled; it is an arbitrary input at each visit.
- Hashing and identifiers: a request hash is a number given with the request, a row's position is its identifier, and ticket types are compared as numbers instead of by locale.
- The clock and the database: `clock_timestamp()` is a clock that never goes back, read once per transaction; SQL, isolation levels and lock timeouts are not part of this model.
- Controllers, validation of request bodies, mail, push, gateways and provider HTTP calls: provider replies are arbitrary inputs.
- The fulfilment-job delivery and the webhook inbox, which deliver and queue but decide no stock or money.
- Notifications, reminders and risk checks around donations, creation and deletion of events, deletion of ticket types, wallets, risk review and carpools.
- Repair of ticket and registration rows that predate checkout orders.
