/** The rows behind ticket and registration checkout.  Rows are never deleted, so an order's
    position in its table serves as its transaction id.  Money is in kobo, time in
    milliseconds of the database clock. */
module CheckoutTypes {
  import opened Wrappers
  import opened PaymentPricing

  type EventId = nat
  type TicketId = nat
  type UserId = nat
  type OrderId = nat
  type CheckoutKey = nat

  datatype EventKind = SellsTickets | TakesRegistrations | OtherKind

  datatype Event = Event(kind: EventKind, creator: UserId, end: int, capacity: Option<int>, fee: nat)

  datatype TicketType = TicketType(event: EventId, price: nat, quantity: int, sold: nat, visible: bool)

  /** One line of an order: a ticket type, how many, and the unit price the buyer saw. */
  datatype Item = Item(ticket: TicketId, quantity: nat, price: nat)

  datatype Purchase =
    | Tickets(items: seq<Item>)
    | Registration(sponsored: bool, price: nat)

  datatype Status = Pending | AwaitingTransfer | Success | Failed | Expired | RefundRequired | Refunded

  datatype HoldStatus = Held | Confirmed | Lapsed | Cancelled

  datatype Hold = Hold(status: HoldStatus, expiresAt: int, items: seq<Item>)

  datatype Initialization = NotStarted | Initializing | Ready | InitFailed

  datatype Refund = Refund(amount: int, confirmation: Option<string>)

  /** A transaction reference with its one-to-one rows: the reservation, the refund and the
      fulfilment job. */
  datatype Order = Order(
    user: UserId,
    event: EventId,
    purchase: Purchase,
    provider: Provider,
    key: CheckoutKey,
    requestHash: nat,
    status: Status,
    initialization: Initialization,
    amount: int,
    platformFee: int,
    providerFee: int,
    creatorPayable: int,
    pricing: Summary,
    fulfilledAt: Option<int>,
    hold: Option<Hold>,
    refund: Option<Refund>,
    hasJob: bool)

  /** The n-th admission of a ticket type in an order; the three fields are its unique
      fulfilment key. */
  datatype TicketRow = TicketRow(order: OrderId, ticket: TicketId, nth: nat)

  datatype Presence = Active | Used | Withdrawn

  datatype RegistrationRow = RegistrationRow(order: OrderId, event: EventId, user: UserId, status: Presence)

  datatype Store = Store(
    now: int,
    events: map<EventId, Event>,
    ticketTypes: map<TicketId, TicketType>,
    orders: seq<Order>,
    tickets: seq<TicketRow>,
    registrations: seq<RegistrationRow>)

  datatype Settings = Settings(holdMillis: nat, maxTickets: nat)

  predicate IsPending(status: Status) {
    status == Pending || status == AwaitingTransfer
  }

  predicate IsSettled(status: Status) {
    status == Success || status == RefundRequired || status == Refunded
  }
}
