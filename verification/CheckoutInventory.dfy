/** What is sold, what is held right now, and what may therefore still be promised. */
module CheckoutInventory {
  import opened Wrappers
  import opened CheckoutTypes
  import opened Sums

  // ---------- Quantities ----------

  function QuantityFor(ticket: TicketId): Item -> nat {
    (item: Item) => if item.ticket == ticket then item.quantity else 0
  }

  function Quantity(items: seq<Item>, ticket: TicketId): nat {
    Sum(items, QuantityFor(ticket))
  }

  predicate IsLive(hold: Option<Hold>, now: int) {
    hold.Some? && hold.value.status == Held && hold.value.expiresAt > now
  }

  function HeldBy(order: Order, ticket: TicketId, now: int): nat {
    if IsLive(order.hold, now) then Quantity(order.hold.value.items, ticket) else 0
  }

  function HoldsOf(ticket: TicketId, now: int): Order -> nat {
    (order: Order) => HeldBy(order, ticket, now)
  }

  /** Tickets of one type in live holds, those of order `except` aside. */
  function ReservedTicketQuantity(orders: seq<Order>, ticket: TicketId, now: int, except: OrderId): nat {
    Sum(Others(orders, except), HoldsOf(ticket, now))
  }

  function Reserved(orders: seq<Order>, ticket: TicketId, now: int): nat {
    Sum(orders, HoldsOf(ticket, now))
  }

  // ---------- Registration places ----------

  function ActiveIn(event: EventId): RegistrationRow -> nat {
    (row: RegistrationRow) => if row.event == event && row.status == Active then 1 else 0
  }

  predicate IsSponsoredPlace(order: Order, event: EventId) {
    && order.event == event && order.purchase.Registration? && order.purchase.sponsored
    && order.hold.Some? && order.hold.value.status == Confirmed
  }

  function SponsoredIn(event: EventId): Order -> nat {
    (order: Order) => if IsSponsoredPlace(order, event) then 1 else 0
  }

  predicate HoldsPlace(order: Order, event: EventId, now: int) {
    order.event == event && order.purchase.Registration? && IsLive(order.hold, now)
  }

  function PlacesHeldIn(event: EventId, now: int): Order -> nat {
    (order: Order) => if HoldsPlace(order, event, now) then 1 else 0
  }

  /** Places taken in an event as the program counts them: active registrations, confirmed
      sponsored places and live holds, that of order `except` aside. */
  function RegistrationOccupancy(s: Store, event: EventId, now: int, except: OrderId): nat {
    Sum(s.registrations, ActiveIn(event))
    + Sum(s.orders, SponsoredIn(event))
    + Sum(Others(s.orders, except), PlacesHeldIn(event, now))
  }

  function Occupancy(s: Store, event: EventId, now: int): nat {
    RegistrationOccupancy(s, event, now, |s.orders|)
  }

  // ---------- Issued admissions ----------

  function IssuedFor(order: OrderId, ticket: TicketId): TicketRow -> nat {
    (row: TicketRow) => if row.order == order && row.ticket == ticket then 1 else 0
  }

  function Issued(tickets: seq<TicketRow>, order: OrderId, ticket: TicketId): nat {
    Sum(tickets, IssuedFor(order, ticket))
  }

  function IssuedOf(ticket: TicketId): TicketRow -> nat {
    (row: TicketRow) => if row.ticket == ticket then 1 else 0
  }

  function RegisteredFor(order: OrderId): RegistrationRow -> nat {
    (row: RegistrationRow) => if row.order == order then 1 else 0
  }

  predicate HasActiveRegistration(s: Store, event: EventId, user: UserId) {
    exists k :: 0 <= k < |s.registrations| &&
      s.registrations[k].event == event && s.registrations[k].user == user && s.registrations[k].status == Active
  }

  // ---------- Time only releases ----------

  /** The later it is, the less is held. */
  lemma ReservedFalls(orders: seq<Order>, ticket: TicketId, earlier: int, later: int, except: OrderId)
    requires earlier <= later
    ensures ReservedTicketQuantity(orders, ticket, later, except)
            <= ReservedTicketQuantity(orders, ticket, earlier, except)
  {
    SumPointwise(Others(orders, except), Others(orders, except), HoldsOf(ticket, later), HoldsOf(ticket, earlier));
  }

  lemma OccupancyFalls(s: Store, event: EventId, earlier: int, later: int, except: OrderId)
    requires earlier <= later
    ensures RegistrationOccupancy(s, event, later, except) <= RegistrationOccupancy(s, event, earlier, except)
  {
    var others := Others(s.orders, except);
    SumPointwise(others, others, PlacesHeldIn(event, later), PlacesHeldIn(event, earlier));
  }
}
