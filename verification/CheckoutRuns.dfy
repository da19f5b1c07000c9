/** What holds over whole runs of checkout, and of each payment. */
module CheckoutRuns {
  import opened Wrappers
  import opened CheckoutTypes
  import opened CheckoutInventory
  import opened CheckoutTransactions
  import opened CheckoutInvariant
  import opened TicketIssuance
  import opened PaymentPricing
  import opened Sums

  datatype Step =
    | Tick(to: int)
    | StartCheckout(request: Request)
    | Pay(id: OrderId, payment: Payment)
    | CancelCheckout(id: OrderId, user: UserId)
    | Expiry
    | ProviderClaimed(id: OrderId)
    | ProviderReady(id: OrderId)
    | ProviderFailed(id: OrderId)
    | PaymentFailed(id: OrderId)
    | RefundConfirmed(id: OrderId, reference: string)
    | EditEvent(event: EventId, edit: EventEdit)
    | EditStock(user: UserId, ticket: TicketId, price: Option<nat>, visible: Option<bool>, quantity: Option<int>)
    | Scan(registration: nat)
    | Withdraw(registration: nat, user: UserId)

  function Apply(s: Store, settings: Settings, step: Step): Store {
    match step
    case Tick(to) => if s.now <= to then s.(now := to) else s
    case StartCheckout(request) => Create(s, settings, request).0
    case Pay(id, payment) => Complete(s, id, payment).0
    case CancelCheckout(id, user) => Cancel(s, id, user).0
    case Expiry => ExpireHolds(s)
    case ProviderClaimed(id) => ClaimInitialization(s, id).0
    case ProviderReady(id) => FinishInitialization(s, id)
    case ProviderFailed(id) => InitializationFailed(s, id)
    case PaymentFailed(id) => MarkTransactionFailed(s, id)
    case RefundConfirmed(id, reference) => ConfirmRefund(s, id, reference)
    case EditEvent(event, edit) => UpdateEvent(s, event, edit).0
    case EditStock(user, ticket, price, visible, quantity) => UpdateTicket(s, user, ticket, price, visible, quantity).0
    case Scan(registration) => ScanRegistration(s, registration)
    case Withdraw(registration, user) => CancelRegistration(s, registration, user).0
  }

  function Run(s: Store, settings: Settings, steps: seq<Step>): Store {
    if |steps| == 0 then s else Apply(Run(s, settings, steps[..|steps| - 1]), settings, steps[|steps| - 1])
  }

  lemma StepKeepsInv(s: Store, settings: Settings, step: Step)
    requires Inv(s)
    ensures Inv(Apply(s, settings, step)) && Evolves(s, Apply(s, settings, step))
  {
    hide Inv, Evolves, Create, Complete, Cancel, UpdateEvent, UpdateTicket;
    match step
    case Tick(to) => ReleaseStepKeepsInv(s, settings, step);
    case StartCheckout(request) => CreateKeepsInv(s, settings, request);
    case Pay(id, payment) => CompleteKeepsInv(s, id, payment);
    case CancelCheckout(id, user) => ReleaseStepKeepsInv(s, settings, step);
    case Expiry => ReleaseStepKeepsInv(s, settings, step);
    case ProviderClaimed(id) => ReleaseStepKeepsInv(s, settings, step);
    case ProviderReady(id) => ReleaseStepKeepsInv(s, settings, step);
    case ProviderFailed(id) => ReleaseStepKeepsInv(s, settings, step);
    case PaymentFailed(id) => ReleaseStepKeepsInv(s, settings, step);
    case RefundConfirmed(id, reference) => ReleaseStepKeepsInv(s, settings, step);
    case EditEvent(event, edit) => UpdateEventKeepsInv(s, event, edit);
    case EditStock(user, ticket, price, visible, quantity) =>
      UpdateTicketKeepsInv(s, user, ticket, price, visible, quantity);
    case Scan(registration) => ReleaseStepKeepsInv(s, settings, step);
    case Withdraw(registration, user) => ReleaseStepKeepsInv(s, settings, step);
  }

  /** Steps that take no event lock, and cancelling. */
  predicate OnlyReleases(step: Step) {
    step.Tick? || step.CancelCheckout? || step.Expiry? || step.ProviderClaimed? || step.ProviderReady?
    || step.ProviderFailed? || step.PaymentFailed? || step.RefundConfirmed? || step.Scan? || step.Withdraw?
  }

  lemma ReleaseStep(s: Store, settings: Settings, step: Step)
    requires OrdersSound(s) && OnlyReleases(step)
    ensures Releases(s, Apply(s, settings, step))
  {
    hide Releases, OrdersSound;
    match step
    case Tick(to) => TickReleases(s, if s.now <= to then to else s.now);
    case CancelCheckout(id, user) => CancelReleases(s, id, user);
    case Expiry => ExpireReleases(s);
    case ProviderClaimed(id) => ClaimInitializationReleases(s, id);
    case ProviderReady(id) => FinishInitializationReleases(s, id);
    case ProviderFailed(id) => InitializationFailedReleases(s, id);
    case PaymentFailed(id) => MarkFailedReleases(s, id);
    case RefundConfirmed(id, reference) => ConfirmRefundReleases(s, id, reference);
    case Scan(registration) => ScanReleases(s, registration);
    case Withdraw(registration, user) => WithdrawalReleases(s, registration, user);
  }

  lemma ReleaseStepKeepsInv(s: Store, settings: Settings, step: Step)
    requires Inv(s) && OnlyReleases(step)
    ensures Inv(Apply(s, settings, step)) && Evolves(s, Apply(s, settings, step))
  {
    ReleaseStep(s, settings, step);
    ReleaseKeepsInv(s, Apply(s, settings, step));
  }

  /** The main result on checkout.  However buyers start, pay, pay again, pay late, cancel and
      let holds run out, whatever organisers edit and whenever the clock moves: nothing is
      oversold, every order's rows agree, and every order only ever moves forward. */
  lemma {:induction false} RunsKeepInv(s: Store, settings: Settings, steps: seq<Step>)
    requires Inv(s)
    ensures Inv(Run(s, settings, steps)) && Evolves(s, Run(s, settings, steps))
  {
    if |steps| == 0 {
      EvolvesReflexive(s);
    } else {
      var before := Run(s, settings, steps[..|steps| - 1]);
      RunsKeepInv(s, settings, steps[..|steps| - 1]);
      StepKeepsInv(before, settings, steps[|steps| - 1]);
      EvolvesTransitive(s, before, Run(s, settings, steps));
    }
  }

  /** An empty shop meets the invariant. */
  lemma EmptyStoreIsSound(now: int, events: map<EventId, Event>, types: map<TicketId, TicketType>)
    requires forall t :: t in types ==> types[t].sold <= Usable(types[t].quantity)
    ensures Inv(Store(now, events, types, [], [], []))
  {}

  // ---------- What a payment leads to ----------

  lemma CheckIsRoom(s: Store, id: OrderId)
    requires Inv(s) && id < |s.orders| && s.orders[id].status != Success
    ensures var order := s.orders[id];
            AssertCapacity(s, order.user, order.event, order.purchase, id, false) ==
              if s.events[order.event].end <= s.now || AlreadyRegistered(s, order) || !Room(s, order, id, s.now)
              then Fails(Unavailable) else Fits(ItemsOf(order))
  {
    var order := s.orders[id];
    assert Coherent(order) && OnSale(s, order);
    UnadmittedIsFresh(s, id);
    if order.purchase.Tickets? {
      var items := order.purchase.items;
      FreshPlan(s.tickets, id, items);
      CheckItemsIsRoom(s, order.event, items, id);
    }
  }

  lemma {:induction false} CheckItemsIsRoom(s: Store, event: EventId, items: seq<Item>, id: OrderId)
    requires forall k :: 0 <= k < |items| ==>
               items[k].ticket in s.ticketTypes && s.ticketTypes[items[k].ticket].event == event
    ensures CheckItems(s, event, items, items, id, false) ==
              if forall k :: 0 <= k < |items| ==>
                Taken(s, items[k].ticket, s.now, id) + items[k].quantity <= s.ticketTypes[items[k].ticket].quantity
              then Done else Unavailable
  {
    if |items| > 0 {
      CheckItemsIsRoom(s, event, items[1..], id);
      assert forall k :: 1 <= k < |items| ==> items[1..][k - 1] == items[k];
    }
  }

  /** Exactly which payments of an open order are honoured: those of the right amount, not
      cancelled, before the event ends, for someone not yet registered, and with room beside
      everybody else's live holds.  All others are refunded. */
  lemma PaymentIsHonouredExactly(s: Store, id: OrderId, p: Payment)
    requires Inv(s) && id < |s.orders| && !IsSettled(s.orders[id].status)
    ensures var order, after := s.orders[id], Complete(s, id, p).0.orders[id];
            var honoured := && p.collected == order.amount && !HasStatus(order, Cancelled)
                            && s.now < s.events[order.event].end
                            && !AlreadyRegistered(s, order) && Room(s, order, id, s.now);
            && Complete(s, id, p).1 == Completed(id)
            && (honoured ==> after.status == Success && after.refund.None? && after.fulfilledAt == Some(s.now))
            && (!honoured ==>
                  && after.status == RefundRequired && after.refund == Some(Refund(p.collected, None))
                  && after.providerFee == p.providerFee)
  {
    assert Coherent(s.orders[id]) && OnSale(s, s.orders[id]);
    CheckIsRoom(s, id);
  }

  /** A live hold is a promise: there is room for it. */
  lemma LiveHoldHasRoom(s: Store, id: OrderId)
    requires Inv(s) && id < |s.orders| && IsLive(s.orders[id].hold, s.now)
    ensures Room(s, s.orders[id], id, s.now)
  {
    var order := s.orders[id];
    var items := ItemsOf(order);
    assert Coherent(order) && OnSale(s, order);
    if order.purchase.Tickets? {
      forall k | 0 <= k < |items|
        ensures Taken(s, items[k].ticket, s.now, id) + items[k].quantity <= s.ticketTypes[items[k].ticket].quantity
      {
        SumOthers(s.orders, id, HoldsOf(items[k].ticket, s.now));
        QuantityOfDistinct(items, k);
        NobodyAt(s.orders, HoldsOf(items[k].ticket, s.now));
      }
    } else {
      SumOthers(s.orders, id, PlacesHeldIn(order.event, s.now));
      NobodyAt(s.orders, PlacesHeldIn(order.event, s.now));
    }
  }

  /** After any run, a payment of the right amount within a live hold and before the event's
      end is never refunded, except to someone who registered for themselves meanwhile. */
  lemma LivePaymentIsHonoured(s: Store, settings: Settings, steps: seq<Step>, id: OrderId, p: Payment)
    requires Inv(s)
    requires var r := Run(s, settings, steps);
             && id < |r.orders| && IsLive(r.orders[id].hold, r.now)
             && p.collected == r.orders[id].amount
             && r.orders[id].event in r.events && r.now < r.events[r.orders[id].event].end
    ensures var r := Run(s, settings, steps);
            var after := Complete(r, id, p).0.orders[id];
            && (AlreadyRegistered(r, r.orders[id]) <==> after.status == RefundRequired)
            && (!AlreadyRegistered(r, r.orders[id]) <==> after.status == Success)
  {
    RunsKeepInv(s, settings, steps);
    var r := Run(s, settings, steps);
    assert Coherent(r.orders[id]);
    LiveHoldHasRoom(r, id);
    PaymentIsHonouredExactly(r, id, p);
  }

  /** A payment reported again changes nothing, whatever the second report says. */
  lemma PayingTwiceIsPayingOnce(s: Store, id: OrderId, p: Payment, again: Payment)
    requires Inv(s) && id < |s.orders|
    ensures var once := Complete(s, id, p).0;
            Complete(once, id, again) == (once, Completed(id))
  {
    assert Coherent(s.orders[id]) && OnSale(s, s.orders[id]);
    if !IsSettled(s.orders[id].status) {
      PaymentIsHonouredExactly(s, id, p);
      CheckIsRoom(s, id);
    }
  }

  /** Admissions or a refund, never both, and never in part. */
  lemma AdmissionsOrRefund(s: Store, id: OrderId)
    requires Inv(s) && id < |s.orders|
    ensures var order := s.orders[id];
            && !(order.status == Success && order.refund.Some?)
            && (order.status == Success <==> order.fulfilledAt.Some? && HasStatus(order, Confirmed) && order.hasJob)
            && (order.refund.Some? ==>
                  && (forall t :: Issued(s.tickets, id, t) == 0)
                  && (forall k :: 0 <= k < |s.registrations| ==> s.registrations[k].order != id))
            && (order.status == Success ==>
                  && (forall t :: Issued(s.tickets, id, t) == Quantity(ItemsOf(order), t))
                  && Sum(s.registrations, RegisteredFor(id)) == if GetsRegistration(order) then 1 else 0)
  {
    assert Coherent(s.orders[id]) && Admitted(s, id);
    if s.orders[id].refund.Some? {
      UnadmittedIsFresh(s, id);
    }
  }

  /** What has been decided stays decided: a cancelled checkout never succeeds, a success or
      a refund is final, and sold counts grow by exactly the tickets created. */
  lemma DecisionsAreFinal(s: Store, settings: Settings, steps: seq<Step>, id: OrderId)
    requires Inv(s) && id < |s.orders|
    ensures id < |Run(s, settings, steps).orders|
    ensures var before, after := s.orders[id], Run(s, settings, steps).orders[id];
            && (HasStatus(before, Cancelled) ==> after.status != Success)
            && (before.status == Success ==> after.status == Success && after.refund.None?)
            && (before.refund.Some? ==> after.status != Success && after.refund.Some?
                                        && after.refund.value.amount == before.refund.value.amount)
            && (!HasStatus(before, Held) ==> !HasStatus(after, Held))
            && (before.hold.Some? ==> after.hold.Some? && after.hold.value.expiresAt == before.hold.value.expiresAt)
    ensures forall t :: t in s.ticketTypes ==>
              var r := Run(s, settings, steps);
              t in r.ticketTypes
              && r.ticketTypes[t].sold - s.ticketTypes[t].sold ==
                   Sum(r.tickets, IssuedOf(t)) - Sum(s.tickets, IssuedOf(t))
  {
    RunsKeepInv(s, settings, steps);
    var r := Run(s, settings, steps);
    assert Coherent(r.orders[id]) && OrderEvolves(s.orders[id], r.orders[id]);
    forall t | t in s.ticketTypes
      ensures t in r.ticketTypes && TypeEvolves(s, r, t)
    {}
  }

  // ---------- Idempotent creation ----------

  lemma KeyFindsOrder(orders: seq<Order>, id: OrderId)
    requires id < |orders|
    requires forall i, j :: 0 <= i < j < |orders| ==> orders[i].user != orders[j].user || orders[i].key != orders[j].key
    ensures FindByKey(orders, orders[id].user, orders[id].key) == Some(id)
  {
    var found := FindByKey(orders, orders[id].user, orders[id].key);
    if found.Some? {
      assert found.value == id;
    }
  }

  /** The answer to a request whose key belongs to order `id`. */
  function AnswerFor(settings: Settings, order: Order, id: OrderId, again: Request): Outcome {
    if again.purchase.Tickets? && !ValidQuantity(settings, again.purchase.items) then BadRequest
    else if order.requestHash == again.requestHash then Replayed(id)
    else Conflict
  }

  /** A request whose key the buyer has used returns that order, or an error if the request
      is malformed or differs; in any case nothing is reserved. */
  lemma UsedKeyIsAnswered(s: Store, settings: Settings, id: OrderId, again: Request)
    requires KeysUnique(s) && id < |s.orders|
    requires s.orders[id].user == again.user && s.orders[id].key == again.key
    ensures Create(s, settings, again) == (s, AnswerFor(settings, s.orders[id], id, again))
  {
    KeyFindsOrder(s.orders, id);
  }

  lemma CreatedOrderIs(s: Store, settings: Settings, r: Request)
    requires Inv(s) && Create(s, settings, r).1.Placed?
    ensures var created := Create(s, settings, r).0;
            && |s.orders| < |created.orders|
            && var order := created.orders[|s.orders|];
               order.user == r.user && order.key == r.key && order.requestHash == r.requestHash
  {
    CreationChecks(s, settings, r);
    PlaceIs(s, settings, r);
  }

  /** After any run, asking again with the same key is answered with the same order and
      changes nothing, however the order has fared. */
  lemma ReplayIsFree(s: Store, settings: Settings, r: Request, steps: seq<Step>, again: Request)
    requires Inv(s) && Create(s, settings, r).1.Placed?
    requires again.user == r.user && again.key == r.key
    ensures var later := Run(Create(s, settings, r).0, settings, steps);
            Create(later, settings, again) == (later, AnswerFor(settings, NewOrder(r), |s.orders|, again))
  {
    hide Create, Run, OrdersSound, WithinStock, WithinSeats, RowsRefer, OneLiveHold;
    var created := Create(s, settings, r).0;
    var later := Run(created, settings, steps);
    CreateKeepsInv(s, settings, r);
    CreatedOrderIs(s, settings, r);
    RunsKeepInv(created, settings, steps);
    assert OrderEvolves(created.orders[|s.orders|], later.orders[|s.orders|]);
    UsedKeyIsAnswered(later, settings, |s.orders|, again);
  }

  // ---------- Where the code promises less ----------

  /** The bound as one would write it first: against the stock as stated. */
  ghost predicate WithinStatedStock(s: Store) {
    forall t :: t in s.ticketTypes ==>
      s.ticketTypes[t].sold + Reserved(s.orders, t, s.now) <= s.ticketTypes[t].quantity
  }

  /** Event edits are not validated for negative stock.  An accepted edit of a ticketed event
      leaves every ticket type within its stated stock exactly when, for each type, the last
      stock it states is not negative, or it states none and the type had no negative one. */
  lemma EventEditIsExact(s: Store, id: EventId, edit: EventEdit)
    requires Inv(s) && UpdateEvent(s, id, edit).1 == Done && s.events[id].kind == SellsTickets
    ensures WithinStatedStock(UpdateEvent(s, id, edit).0) <==> forall t :: EndsWithStock(s, edit.tickets, t)
  {
    var dated := s.(events := s.events[id := EditedEvent(s.events[id], edit)]);
    var after := UpdateEvent(s, id, edit).0;
    EventFieldsKeepInv(s, id, EditedEvent(s.events[id], edit));
    UpdateEventKeepsInv(s, id, edit);
    hide EditTickets, Reserved;
    forall t
      ensures (t in after.ticketTypes ==> after.ticketTypes[t].quantity >= 0) <==> EndsWithStock(s, edit.tickets, t)
    {
      EditsAreExact(dated, id, edit.tickets, t);
    }
  }

  /** A ticket type that has non-negative stock at some moment is within its stated stock
      ever after. */
  lemma StatedStockStays(s: Store, settings: Settings, steps: seq<Step>, t: TicketId)
    requires Inv(s) && t in s.ticketTypes && s.ticketTypes[t].quantity >= 0
    ensures var r := Run(s, settings, steps);
            t in r.ticketTypes && r.ticketTypes[t].sold + Reserved(r.orders, t, r.now) <= r.ticketTypes[t].quantity
  {
    RunsKeepInv(s, settings, steps);
    assert TypeEvolves(s, Run(s, settings, steps), t);
  }

  /** Every ticketed event accepts a new type with negative stock, in every state of the
      shop.  Nothing of it can be sold, but it is not within its stated stock. */
  lemma NegativeStockIsAccepted(s: Store, id: EventId, ticket: TicketId, price: nat, stock: int)
    requires Inv(s) && id in s.events && s.events[id].kind == SellsTickets && ticket !in s.ticketTypes
    ensures var opening := TicketEdit(ticket, Some(price), None, Some(stock));
            var (after, outcome) := UpdateEvent(s, id, EventEdit(None, None, None, [opening]));
            && outcome == Done && Inv(after)
            && ticket in after.ticketTypes && after.ticketTypes[ticket].quantity == stock
            && (stock < 0 ==> !WithinStatedStock(after))
  {
    var edits := [TicketEdit(ticket, Some(price), None, Some(stock))];
    var edit := EventEdit(None, None, None, edits);
    var dated := s.(events := s.events[id := EditedEvent(s.events[id], edit)]);
    UpdateEventKeepsInv(s, id, edit);
    assert EditTickets(dated, id, edits[..0]) == (dated, Done);
  }

  // ---------- A live hold that is refunded ----------

  // One buyer's hold on a place runs out unpaid and a second is taken.  Then the first is
  // paid after all, which registers the buyer, and so the second, paid in time, is refunded.

  const FAIR: Event := Event(TakesRegistrations, 9, 1000, None, 100)
  const PRICE: Summary := Summary(100, 100, 0, 0, 0, 0, 0, 0, 0, 100)
  const SHORT_HOLDS := Settings(10, 10)

  function Asking(key: CheckoutKey): Request {
    Request(1, 0, key, 0, Paystack, Registration(false, 100), PRICE)
  }

  const PAID := Payment(100, 0, PRICE)

  const TWO_HOLDS: seq<Step> := [StartCheckout(Asking(1)), Tick(10), StartCheckout(Asking(2)), Pay(0, PAID)]

  lemma RunMore(s: Store, settings: Settings, steps: seq<Step>, step: Step)
    ensures Run(s, settings, steps + [step]) == Apply(Run(s, settings, steps), settings, step)
  {
    assert (steps + [step])[..|steps|] == steps;
  }

  const EMPTY_FAIR := Store(0, map[0 := FAIR], map[], [], [], [])
  const FIRST := Holding(Asking(1), 10)
  const SECOND := Holding(Asking(2), 20)
  const PAID_FIRST := Settle(FIRST.(hold := ConfirmHold(FIRST.hold, 10), hasJob := true), 10, PAID)

  const AFTER_FIRST := EMPTY_FAIR.(orders := [FIRST])
  const AFTER_SECOND := EMPTY_FAIR.(now := 10, orders := [FIRST, SECOND])
  const AFTER_PAYMENT :=
    AFTER_SECOND.(orders := [PAID_FIRST, SECOND], registrations := [RegistrationRow(0, 0, 1, Active)])

  lemma HoldsAreTaken()
    ensures Create(EMPTY_FAIR, SHORT_HOLDS, Asking(1)).0 == AFTER_FIRST
    ensures Create(AFTER_FIRST.(now := 10), SHORT_HOLDS, Asking(2)).0 == AFTER_SECOND
  {
    assert AFTER_FIRST.orders[..0] == [];
  }

  lemma LateFirstPayment()
    ensures Complete(AFTER_SECOND, 0, PAID).0 == AFTER_PAYMENT
    ensures Complete(AFTER_PAYMENT, 1, PAID).0.orders[1].status == RefundRequired
  {
    assert AFTER_PAYMENT.registrations[0].status == Active;
  }

  lemma TwoHoldsLeadThere()
    ensures Run(EMPTY_FAIR, SHORT_HOLDS, TWO_HOLDS) == AFTER_PAYMENT
  {
    var a, b, c, d := TWO_HOLDS[0], TWO_HOLDS[1], TWO_HOLDS[2], TWO_HOLDS[3];
    HoldsAreTaken();
    LateFirstPayment();
    assert Run(EMPTY_FAIR, SHORT_HOLDS, []) == EMPTY_FAIR;
    hide Run, Create, Complete;
    RunMore(EMPTY_FAIR, SHORT_HOLDS, [], a);
    RunMore(EMPTY_FAIR, SHORT_HOLDS, [a], b);
    RunMore(EMPTY_FAIR, SHORT_HOLDS, [a, b], c);
    RunMore(EMPTY_FAIR, SHORT_HOLDS, [a, b, c], d);
    assert [] + [a] == [a] && [a] + [b] == [a, b] && [a, b] + [c] == [a, b, c] && [a, b, c] + [d] == TWO_HOLDS;
  }

  lemma LiveHoldsMayBeRefunded()
    ensures var r := Run(EMPTY_FAIR, SHORT_HOLDS, TWO_HOLDS);
            && Inv(EMPTY_FAIR) && |r.orders| == 2 && r.orders[0].status == Success
            && IsLive(r.orders[1].hold, r.now) && PAID.collected == r.orders[1].amount
            && 0 in r.events && r.now < r.events[0].end
            && Complete(r, 1, PAID).0.orders[1].status == RefundRequired
  {
    TwoHoldsLeadThere();
    LateFirstPayment();
    hide Run, Complete;
  }
}
