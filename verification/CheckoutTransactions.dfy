/** The database transactions of checkout as functions on the store.  A transaction that
    fails leaves the store as it was. */
module CheckoutTransactions {
  import opened Wrappers
  import opened PaymentPricing
  import opened CheckoutTypes
  import opened CheckoutInventory
  import opened TicketIssuance

  datatype Outcome =
    | Placed(id: OrderId)
    | Replayed(id: OrderId)
    | Completed(id: OrderId)
    | Done
    | NotFound
    | Forbidden
    | BadRequest
    | Conflict
    | Unavailable

  // ---------- The capacity check ----------

  datatype Check = Fits(plan: seq<Item>) | Fails(outcome: Outcome)

  /** One item of a ticket order, as checked for order `id`. */
  function CheckItem(s: Store, event: EventId, item: Item, planned: nat, id: OrderId, checkPrice: bool): Outcome {
    if item.ticket !in s.ticketTypes || s.ticketTypes[item.ticket].event != event then BadRequest
    else
      var t := s.ticketTypes[item.ticket];
      if checkPrice && !t.visible then Unavailable
      else if t.quantity - t.sold - ReservedTicketQuantity(s.orders, item.ticket, s.now, id) < planned then Unavailable
      else if checkPrice && t.price != item.price then Conflict
      else Done
  }

  /** The first failing item decides. */
  function CheckItems(s: Store, event: EventId, items: seq<Item>, plan: seq<Item>, id: OrderId, checkPrice: bool)
    : (outcome: Outcome)
    requires |items| == |plan|
    ensures outcome.Done? || outcome.BadRequest? || outcome.Conflict? || outcome.Unavailable?
  {
    if |items| == 0 then Done
    else
      var first := CheckItem(s, event, items[0], plan[0].quantity, id, checkPrice);
      if first != Done then first else CheckItems(s, event, items[1..], plan[1..], id, checkPrice)
  }

  /** May order `id`, buying `purchase` for `user`, be admitted now?  With `checkPrice` the
      price and visibility the buyer saw must still be current. */
  function AssertCapacity(s: Store, user: UserId, eventId: EventId, purchase: Purchase, id: OrderId, checkPrice: bool)
    : (check: Check)
    ensures check.Fails? ==>
              || check.outcome.NotFound? || check.outcome.BadRequest?
              || check.outcome.Conflict? || check.outcome.Unavailable?
  {
    if eventId !in s.events then Fails(NotFound)
    else if s.events[eventId].end <= s.now then Fails(Unavailable)
    else
      var event := s.events[eventId];
      match purchase
      case Registration(sponsored, price) =>
        if event.kind != TakesRegistrations then Fails(BadRequest)
        else if exists k :: 0 <= k < |s.registrations| && s.registrations[k].order == id then Fits([])
        else if !sponsored && HasActiveRegistration(s, eventId, user) then Fails(Unavailable)
        else if event.capacity.Some? && RegistrationOccupancy(s, eventId, s.now, id) >= event.capacity.value then
          Fails(Unavailable)
        else if checkPrice && event.fee != price then Fails(Conflict)
        else Fits([])
      case Tickets(items) =>
        if event.kind != SellsTickets then Fails(BadRequest)
        else
          var plan := PlanIssuance(s.tickets, id, items);
          if plan.None? then Fails(Conflict)
          else
            var outcome := CheckItems(s, eventId, items, plan.value, id, checkPrice);
            if outcome == Done then Fits(plan.value) else Fails(outcome)
  }

  // ---------- Issuing ----------

  function WithOrder(s: Store, id: OrderId, order: Order): Store
    requires id < |s.orders|
  {
    s.(orders := s.orders[id := order])
  }

  function ConfirmHold(hold: Option<Hold>, now: int): Option<Hold> {
    match hold
    case None => Some(Hold(Confirmed, now, []))
    case Some(h) => Some(h.(status := Confirmed))
  }

  /** Admissions, sold counts, the confirmed reservation and the job, all at once. */
  function Issue(s: Store, id: OrderId, plan: seq<Item>): Store
    requires id < |s.orders|
  {
    var order := s.orders[id];
    var confirmed := order.(hold := ConfirmHold(order.hold, s.now), hasJob := true);
    var s' := WithOrder(s, id, confirmed);
    match order.purchase
    case Tickets(_) =>
      s'.(tickets := s.tickets + PlannedRows(s.tickets, id, plan), ticketTypes := AddSold(s.ticketTypes, plan))
    case Registration(sponsored, _) =>
      if sponsored || exists k :: 0 <= k < |s.registrations| && s.registrations[k].order == id then s'
      else s'.(registrations := s.registrations + [RegistrationRow(id, order.event, order.user, Active)])
  }

  // ---------- Creating an order ----------

  /** What the payment endpoints ask for; they have priced the order before. */
  datatype Request = Request(
    user: UserId, event: EventId, key: CheckoutKey, requestHash: nat, provider: Provider, purchase: Purchase,
    pricing: Summary)

  function TotalQuantity(items: seq<Item>): nat {
    if |items| == 0 then 0 else items[0].quantity + TotalQuantity(items[1..])
  }

  predicate ValidQuantity(settings: Settings, items: seq<Item>) {
    && |items| > 0
    && (forall k :: 0 <= k < |items| ==> items[k].quantity >= 1)
    && TotalQuantity(items) <= settings.maxTickets
  }

  function FindByKey(orders: seq<Order>, user: UserId, key: CheckoutKey): (found: Option<OrderId>)
    ensures found.Some? ==> found.value < |orders| && orders[found.value].user == user && orders[found.value].key == key
    ensures found.None? ==> forall k :: 0 <= k < |orders| ==> orders[k].user != user || orders[k].key != key
  {
    if |orders| == 0 then None
    else if orders[|orders| - 1].user == user && orders[|orders| - 1].key == key then Some(|orders| - 1)
    else FindByKey(orders[..|orders| - 1], user, key)
  }

  predicate HasLiveHold(s: Store, user: UserId, event: EventId) {
    exists k :: && 0 <= k < |s.orders| && s.orders[k].user == user && s.orders[k].event == event
                && IsLive(s.orders[k].hold, s.now)
  }

  function NewOrder(r: Request): Order {
    Order(r.user, r.event, r.purchase, r.provider, r.key, r.requestHash,
          if r.provider == AlatTransfer then AwaitingTransfer else Pending, NotStarted,
          r.pricing.charge, r.pricing.platformFee, r.pricing.providerFee, r.pricing.creatorPayable, r.pricing,
          None, None, None, false)
  }

  /** Payable orders hold their items for a while, free ones are confirmed on the spot. */
  function Place(s: Store, settings: Settings, r: Request, plan: seq<Item>): Store {
    var order := NewOrder(r);
    var paid := order.amount > 0;
    var hold := Hold(Held, s.now + if paid then settings.holdMillis else 0, plan);
    var id := |s.orders|;
    var placed := s.(orders := s.orders + [order.(hold := Some(hold))]);
    if paid then placed
    else
      var issued := Issue(placed, id, plan);
      WithOrder(issued, id, issued.orders[id].(status := Success, fulfilledAt := Some(s.now), initialization := Ready))
  }

  function Create(s: Store, settings: Settings, r: Request): (Store, Outcome) {
    if r.purchase.Tickets? && !ValidQuantity(settings, r.purchase.items) then (s, BadRequest)
    else
      var replay := FindByKey(s.orders, r.user, r.key);
      if replay.Some? then
        (s, if s.orders[replay.value].requestHash == r.requestHash then Replayed(replay.value) else Conflict)
      else if r.event !in s.events then (s, NotFound)
      else if HasLiveHold(s, r.user, r.event) then (s, Conflict)
      else
        match AssertCapacity(s, r.user, r.event, r.purchase, |s.orders|, true)
        case Fails(outcome) => (s, outcome)
        case Fits(plan) =>
          // a reservation lists each ticket type once: a unique index of its items
          if !DistinctTickets(plan) then (s, Conflict) else (Place(s, settings, r, plan), Placed(|s.orders|))
  }

  // ---------- Completing, refunding, cancelling ----------

  function Lapse(hold: Option<Hold>): Option<Hold> {
    if hold.Some? && hold.value.status == Held then Some(hold.value.(status := Lapsed)) else hold
  }

  /** A collected payment as the provider reports it, with the books it leads to. */
  datatype Payment = Payment(collected: int, providerFee: int, pricing: Summary)

  function RequireRefund(order: Order, p: Payment): Order {
    order.(
      hold := Lapse(order.hold), refund := Some(Refund(p.collected, None)), status := RefundRequired,
      amount := p.collected, creatorPayable := 0, platformFee := 0, providerFee := p.providerFee)
  }

  /** The books of an order paid in full. */
  function Settle(order: Order, now: int, p: Payment): Order {
    order.(
      status := Success, fulfilledAt := Some(now), amount := p.collected, pricing := p.pricing,
      platformFee := p.pricing.platformFee, providerFee := p.pricing.providerFee,
      creatorPayable := p.pricing.creatorPayable)
  }

  function Fulfil(s: Store, id: OrderId, plan: seq<Item>, p: Payment): Store
    requires id < |s.orders|
  {
    var issued := Issue(s, id, plan);
    WithOrder(issued, id, Settle(issued.orders[id], s.now, p))
  }

  predicate MustRefund(order: Order, collected: int) {
    order.amount != collected || (order.hold.Some? && order.hold.value.status == Cancelled)
  }

  /** A provider-verified payment. */
  function Complete(s: Store, id: OrderId, p: Payment): (result: (Store, Outcome))
    ensures |result.0.orders| == |s.orders|
  {
    if id >= |s.orders| || s.orders[id].event !in s.events then (s, NotFound)
    else
      var order := s.orders[id];
      if IsSettled(order.status) then (s, Completed(id))
      else if MustRefund(order, p.collected) then
        (WithOrder(s, id, RequireRefund(order, p)), Completed(id))
      else
        match AssertCapacity(s, order.user, order.event, order.purchase, id, false)
        case Fits(plan) => (Fulfil(s, id, plan, p), Completed(id))
        case Fails(outcome) =>
          if outcome == Unavailable then (WithOrder(s, id, RequireRefund(order, p)), Completed(id))
          else (s, outcome)
  }

  function Cancel(s: Store, id: OrderId, user: UserId): (Store, Outcome) {
    if id >= |s.orders| || s.orders[id].user != user || s.orders[id].hold.None? || s.orders[id].event !in s.events then
      (s, NotFound)
    else if s.orders[id].fulfilledAt.Some? || s.orders[id].refund.Some? then (s, Conflict)
    else
      var order := s.orders[id];
      (WithOrder(s, id, order.(hold := Some(order.hold.value.(status := Cancelled)), status := Expired)), Completed(id))
  }

  // ---------- Steps that take no event lock ----------

  function ExpireOrder(order: Order, now: int): Order {
    if order.hold.Some? && order.hold.value.status == Held && order.hold.value.expiresAt <= now then
      order.(hold := Lapse(order.hold), status := if IsPending(order.status) then Expired else order.status)
    else order
  }

  function ExpireHolds(s: Store): Store {
    s.(orders := seq(|s.orders|, k requires 0 <= k < |s.orders| => ExpireOrder(s.orders[k], s.now)))
  }

  function InitializationFailed(s: Store, id: OrderId): Store {
    if id >= |s.orders| then s
    else
      var order := s.orders[id];
      var ended := if IsPending(order.status) then order.(status := Expired, initialization := InitFailed) else order;
      WithOrder(s, id, ended.(hold := Lapse(order.hold)))
  }

  function MarkTransactionFailed(s: Store, id: OrderId): Store {
    if id >= |s.orders| || !IsPending(s.orders[id].status) then s
    else WithOrder(s, id, s.orders[id].(status := Failed, hold := Lapse(s.orders[id].hold)))
  }

  /** Compare-and-swap: whoever gets `true` talks to the provider. */
  function ClaimInitialization(s: Store, id: OrderId): (Store, bool) {
    if id < |s.orders| && s.orders[id].initialization == NotStarted && IsPending(s.orders[id].status) then
      (WithOrder(s, id, s.orders[id].(initialization := Initializing)), true)
    else (s, false)
  }

  function FinishInitialization(s: Store, id: OrderId): Store {
    if id < |s.orders| then WithOrder(s, id, s.orders[id].(initialization := Ready)) else s
  }

  /** A refund the provider or an operator confirmed; RefundWorker studies how. */
  function ConfirmRefund(s: Store, id: OrderId, reference: string): Store {
    if id < |s.orders| && s.orders[id].refund.Some? then
      var order := s.orders[id];
      WithOrder(s, id, order.(status := Refunded, refund := Some(order.refund.value.(confirmation := Some(reference)))))
    else s
  }

  // ---------- Organiser edits and scanning ----------

  /** An edit of one ticket type; `remaining` is the stock still for sale. */
  datatype TicketEdit = TicketEdit(ticket: TicketId, price: Option<nat>, visible: Option<bool>, remaining: Option<int>)

  datatype EventEdit = EventEdit(end: Option<int>, fee: Option<nat>, capacity: Option<int>, tickets: seq<TicketEdit>)

  function GetOr<T>(option: Option<T>, default: T): T {
    if option.Some? then option.value else default
  }

  function EditTicket(s: Store, event: EventId, edit: TicketEdit): (Store, Outcome) {
    if edit.ticket in s.ticketTypes then
      var t := s.ticketTypes[edit.ticket];
      if t.event != event then (s, Forbidden)
      else if edit.remaining.Some? && edit.remaining.value < Reserved(s.orders, edit.ticket, s.now) then (s, Conflict)
      else
        var t' := t.(price := GetOr(edit.price, t.price), visible := GetOr(edit.visible, t.visible),
                     quantity := if edit.remaining.Some? then t.sold + edit.remaining.value else t.quantity);
        (s.(ticketTypes := s.ticketTypes[edit.ticket := t']), Done)
    else if edit.price.None? then (s, BadRequest)
    else
      var t := TicketType(event, edit.price.value, GetOr(edit.remaining, 0), 0, GetOr(edit.visible, true));
      (s.(ticketTypes := s.ticketTypes[edit.ticket := t]), Done)
  }

  /** The edits in order; the first that fails undoes them all. */
  function EditTickets(s: Store, event: EventId, edits: seq<TicketEdit>): (Store, Outcome) {
    if |edits| == 0 then (s, Done)
    else
      var (before, outcome) := EditTickets(s, event, edits[..|edits| - 1]);
      if outcome != Done then (s, outcome)
      else
        var (after, last) := EditTicket(before, event, edits[|edits| - 1]);
        if last == Done then (after, Done) else (s, last)
  }

  function EditedEvent(e: Event, edit: EventEdit): Event {
    var dated := e.(end := GetOr(edit.end, e.end));
    if e.kind != TakesRegistrations then dated
    else dated.(fee := GetOr(edit.fee, e.fee), capacity := if edit.capacity.Some? then edit.capacity else e.capacity)
  }

  function UpdateEvent(s: Store, id: EventId, edit: EventEdit): (Store, Outcome) {
    if id !in s.events then (s, NotFound)
    else if edit.capacity.Some? && edit.capacity.value < Occupancy(s, id, s.now) then (s, Conflict)
    else
      var s' := s.(events := s.events[id := EditedEvent(s.events[id], edit)]);
      if s.events[id].kind != SellsTickets then (s', Done)
      else
        var (edited, outcome) := EditTickets(s', id, edit.tickets);
        if outcome == Done then (edited, Done) else (s, outcome)
  }

  /** The ticket's own edit form sets the total quantity instead. */
  function UpdateTicket(s: Store, user: UserId, ticket: TicketId, price: Option<nat>, visible: Option<bool>,
                        quantity: Option<int>): (Store, Outcome)
  {
    if ticket !in s.ticketTypes || s.ticketTypes[ticket].event !in s.events then (s, NotFound)
    else
      var t := s.ticketTypes[ticket];
      if s.events[t.event].creator != user then (s, Forbidden)
      else if quantity.Some? && quantity.value - t.sold < Reserved(s.orders, ticket, s.now) then (s, Conflict)
      else
        var t' := t.(price := GetOr(price, t.price), visible := GetOr(visible, t.visible),
                     quantity := GetOr(quantity, t.quantity));
        (s.(ticketTypes := s.ticketTypes[ticket := t']), Done)
  }

  /** Scanning uses up an active registration. */
  function ScanRegistration(s: Store, k: nat): Store {
    if k < |s.registrations| && s.registrations[k].status == Active
    then s.(registrations := s.registrations[k := s.registrations[k].(status := Used)]) else s
  }

  /** The registrant or the organiser withdraws a registration, used or not. */
  function CancelRegistration(s: Store, k: nat, user: UserId): (Store, Outcome) {
    if k >= |s.registrations| then (s, NotFound)
    else
      var row := s.registrations[k];
      if row.user != user && !(row.event in s.events && s.events[row.event].creator == user) then (s, Forbidden)
      else (s.(registrations := s.registrations[k := row.(status := Withdrawn)]), Done)
  }
}
