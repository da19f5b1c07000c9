/** What every checkout transaction keeps. */
module CheckoutInvariant {
  import opened Wrappers
  import opened CheckoutTypes
  import opened CheckoutInventory
  import opened CheckoutTransactions
  import opened TicketIssuance
  import opened Sums

  // ---------- The invariant ----------

  /** Organisers may state a negative stock or capacity; nothing is for sale then. */
  function Usable(n: int): nat {
    if n < 0 then 0 else n
  }

  /** Nothing is promised that is not there: sold and live holds stay within each stock. */
  ghost predicate WithinStock(s: Store) {
    forall t :: t in s.ticketTypes ==>
      s.ticketTypes[t].sold + Reserved(s.orders, t, s.now) <= Usable(s.ticketTypes[t].quantity)
  }

  ghost predicate WithinSeats(s: Store) {
    forall e :: e in s.events && s.events[e].capacity.Some? ==>
      Occupancy(s, e, s.now) <= Usable(s.events[e].capacity.value)
  }

  function ItemsOf(order: Order): seq<Item> {
    match order.purchase
    case Tickets(items) => items
    case Registration(_, _) => []
  }

  predicate HasStatus(order: Order, status: HoldStatus) {
    order.hold.Some? && order.hold.value.status == status
  }

  /** An order's rows tell one story: admitted, to be refunded, or neither. */
  predicate Coherent(order: Order) {
    && (order.status == Success <==> order.fulfilledAt.Some?)
    && (order.status == Success <==> HasStatus(order, Confirmed))
    && (order.status == Success <==> order.hasJob)
    && (order.status == RefundRequired || order.status == Refunded <==> order.refund.Some?)
    && (order.status == Refunded ==> order.refund.value.confirmation.Some?)
    && (HasStatus(order, Held) ==> IsPending(order.status) && order.hold.value.items == ItemsOf(order))
    && DistinctTickets(ItemsOf(order))
    && (forall k :: 0 <= k < |ItemsOf(order)| ==> ItemsOf(order)[k].quantity >= 1)
  }

  /** The order's event exists and sells what was ordered. */
  predicate OnSale(s: Store, order: Order) {
    && order.event in s.events
    && s.events[order.event].kind == (if order.purchase.Tickets? then SellsTickets else TakesRegistrations)
    && (forall k :: 0 <= k < |ItemsOf(order)| ==>
          ItemsOf(order)[k].ticket in s.ticketTypes && s.ticketTypes[ItemsOf(order)[k].ticket].event == order.event)
  }

  predicate GetsRegistration(order: Order) {
    order.status == Success && order.purchase.Registration? && !order.purchase.sponsored
  }

  /** An order has all its admissions or none. */
  ghost predicate Admitted(s: Store, id: OrderId)
    requires id < |s.orders|
  {
    && (forall t ::
          Issued(s.tickets, id, t) == if s.orders[id].status == Success then Quantity(ItemsOf(s.orders[id]), t) else 0)
    && Sum(s.registrations, RegisteredFor(id)) == if GetsRegistration(s.orders[id]) then 1 else 0
  }

  ghost predicate RowsRefer(s: Store) {
    && (forall k :: 0 <= k < |s.tickets| ==> s.tickets[k].order < |s.orders|)
    && (forall k :: 0 <= k < |s.registrations| ==>
          var row := s.registrations[k];
          row.order < |s.orders| && row.event == s.orders[row.order].event && row.user == s.orders[row.order].user)
    && DistinctKeys(s.tickets)
  }

  ghost predicate KeysUnique(s: Store) {
    forall i, j :: 0 <= i < j < |s.orders| ==>
      s.orders[i].user != s.orders[j].user || s.orders[i].key != s.orders[j].key
  }

  ghost predicate OneLiveHold(s: Store) {
    forall i, j :: 0 <= i < j < |s.orders| && IsLive(s.orders[i].hold, s.now) && IsLive(s.orders[j].hold, s.now) ==>
      s.orders[i].user != s.orders[j].user || s.orders[i].event != s.orders[j].event
  }

  ghost predicate OrdersSound(s: Store) {
    forall i :: 0 <= i < |s.orders| ==> Coherent(s.orders[i]) && OnSale(s, s.orders[i]) && Admitted(s, i)
  }

  /** Nobody is registered twice for one event at the same time. */
  ghost predicate OneActiveRow(s: Store) {
    forall j, k :: 0 <= j < k < |s.registrations|
                   && s.registrations[j].status == Active && s.registrations[k].status == Active ==>
      s.registrations[j].user != s.registrations[k].user || s.registrations[j].event != s.registrations[k].event
  }

  ghost predicate Inv(s: Store) {
    && WithinStock(s) && WithinSeats(s) && OrdersSound(s) && RowsRefer(s) && KeysUnique(s)
    && OneLiveHold(s) && OneActiveRow(s)
  }

  /** Whom the check turns away as registered already. */
  predicate AlreadyRegistered(s: Store, order: Order) {
    order.purchase.Registration? && !order.purchase.sponsored && HasActiveRegistration(s, order.event, order.user)
  }

  // ---------- Progress ----------

  /** What one order keeps for ever. */
  predicate OrderEvolves(a: Order, b: Order) {
    && a.user == b.user && a.event == b.event && a.purchase == b.purchase
    && a.key == b.key && a.requestHash == b.requestHash
    && (a.status == Success ==> b.status == Success && a.fulfilledAt == b.fulfilledAt)
    && (a.status == Refunded ==> b.status == Refunded)
    && (a.refund.Some? ==> b.refund.Some? && a.refund.value.amount == b.refund.value.amount)
    && (HasStatus(b, Held) ==> HasStatus(a, Held))
    && (HasStatus(a, Cancelled) ==> HasStatus(b, Cancelled))
    && (a.hold.Some? ==> b.hold.Some? && a.hold.value.expiresAt == b.hold.value.expiresAt)
    && (a.initialization != NotStarted ==> b.initialization != NotStarted)
  }

  ghost predicate Evolves(a: Store, b: Store) {
    && a.now <= b.now
    && |a.orders| <= |b.orders| && (forall i :: 0 <= i < |a.orders| ==> OrderEvolves(a.orders[i], b.orders[i]))
    && a.tickets <= b.tickets
    && |a.registrations| <= |b.registrations|
    && (forall k :: 0 <= k < |a.registrations| ==>
          RowReleases(a.registrations[k], b.registrations[k]))
    && (forall e :: e in a.events ==> e in b.events && a.events[e].kind == b.events[e].kind)
    && (forall t :: t in a.ticketTypes ==> t in b.ticketTypes && TypeEvolves(a, b, t))
  }

  /** Sold grows by exactly the tickets created, and stock does not turn negative. */
  ghost predicate TypeEvolves(a: Store, b: Store, t: TicketId)
    requires t in a.ticketTypes && t in b.ticketTypes
  {
    && a.ticketTypes[t].event == b.ticketTypes[t].event
    && b.ticketTypes[t].sold + Sum(a.tickets, IssuedOf(t)) == a.ticketTypes[t].sold + Sum(b.tickets, IssuedOf(t))
    && (a.ticketTypes[t].quantity >= 0 ==> b.ticketTypes[t].quantity >= 0)
  }

  lemma EvolvesTransitive(a: Store, b: Store, c: Store)
    requires Evolves(a, b) && Evolves(b, c)
    ensures Evolves(a, c)
  {
    forall t | t in a.ticketTypes
      ensures t in c.ticketTypes && TypeEvolves(a, c, t)
    {
      assert TypeEvolves(a, b, t) && TypeEvolves(b, c, t);
    }
  }

  // ---------- Steps that only release ----------

  /** `b` differs from `a` by letting go of holds, not by admitting anyone. */
  predicate OrderReleases(a: Order, b: Order) {
    && OrderEvolves(a, b)
    && Coherent(b)
    && (b.status == Success ==> a.status == Success)
    && (HasStatus(b, Held) ==> a.hold == b.hold)
  }

  ghost predicate Releases(a: Store, b: Store) {
    && b == a.(now := b.now, orders := b.orders, registrations := b.registrations)
    && a.now <= b.now
    && |a.orders| == |b.orders|
    && (forall i :: 0 <= i < |a.orders| ==> OrderReleases(a.orders[i], b.orders[i]))
    && |a.registrations| == |b.registrations|
    && (forall k :: 0 <= k < |a.registrations| ==> RowReleases(a.registrations[k], b.registrations[k]))
  }

  /** A registration stays as it is, is used up or is withdrawn. */
  predicate RowReleases(a: RegistrationRow, b: RegistrationRow) {
    && b == a.(status := b.status)
    && (b.status == Active ==> a.status == Active)
    && (a.status == Withdrawn ==> b.status == Withdrawn)
  }

  lemma ReleasesTransitive(a: Store, b: Store, c: Store)
    requires Releases(a, b) && Releases(b, c)
    ensures Releases(a, c)
  {}

  /** A release can only lower what is held, for whichever order looks. */
  lemma ReleaseLowersReserved(a: Store, b: Store, t: TicketId, except: OrderId)
    requires Releases(a, b)
    ensures ReservedTicketQuantity(b.orders, t, b.now, except) <= ReservedTicketQuantity(a.orders, t, a.now, except)
  {
    SumPointwise(Others(b.orders, except), Others(a.orders, except), HoldsOf(t, b.now), HoldsOf(t, a.now));
  }

  lemma ReleaseLowersOccupancy(a: Store, b: Store, e: EventId, except: OrderId)
    requires Releases(a, b) && OrdersSound(a)
    ensures RegistrationOccupancy(b, e, b.now, except) <= RegistrationOccupancy(a, e, a.now, except)
  {
    hide Sum;
    SumPointwise(Others(b.orders, except), Others(a.orders, except), PlacesHeldIn(e, b.now), PlacesHeldIn(e, a.now));
    SumPointwise(b.orders, a.orders, SponsoredIn(e), SponsoredIn(e));
    SumPointwise(b.registrations, a.registrations, ActiveIn(e), ActiveIn(e));
  }

  lemma ReleaseKeepsInv(a: Store, b: Store)
    requires Inv(a) && Releases(a, b)
    ensures Inv(b) && Evolves(a, b)
  {
    hide Sum;
    forall t | t in b.ticketTypes
      ensures b.ticketTypes[t].sold + Reserved(b.orders, t, b.now) <= Usable(b.ticketTypes[t].quantity)
    {
      ReleaseLowersReserved(a, b, t, |a.orders|);
    }
    forall e | e in b.events && b.events[e].capacity.Some?
      ensures Occupancy(b, e, b.now) <= Usable(b.events[e].capacity.value)
    {
      ReleaseLowersOccupancy(a, b, e, |a.orders|);
    }
    forall i | 0 <= i < |b.orders|
      ensures Coherent(b.orders[i]) && OnSale(b, b.orders[i]) && Admitted(b, i)
    {
      assert OnSale(a, a.orders[i]) && Admitted(a, i);
      SumPointwise(a.registrations, b.registrations, RegisteredFor(i), RegisteredFor(i));
      SumPointwise(b.registrations, a.registrations, RegisteredFor(i), RegisteredFor(i));
    }
  }

  lemma ScanReleases(s: Store, k: nat)
    requires OrdersSound(s)
    ensures Releases(s, ScanRegistration(s, k))
  {}

  lemma WithdrawalReleases(s: Store, k: nat, user: UserId)
    requires OrdersSound(s)
    ensures Releases(s, CancelRegistration(s, k, user).0)
  {}

  lemma TickReleases(s: Store, now: int)
    requires s.now <= now && OrdersSound(s)
    ensures Releases(s, s.(now := now))
  {}

  lemma ExpireReleases(s: Store)
    requires OrdersSound(s)
    ensures Releases(s, ExpireHolds(s))
    ensures forall i :: 0 <= i < |s.orders| && IsLive(s.orders[i].hold, s.now) ==>
              ExpireHolds(s).orders[i] == s.orders[i]
  {
    hide Admitted, OnSale, DistinctTickets;
  }

  lemma InitializationFailedReleases(s: Store, id: OrderId)
    requires OrdersSound(s)
    ensures Releases(s, InitializationFailed(s, id))
  {}

  lemma MarkFailedReleases(s: Store, id: OrderId)
    requires OrdersSound(s)
    ensures Releases(s, MarkTransactionFailed(s, id))
  {}

  lemma ClaimInitializationReleases(s: Store, id: OrderId)
    requires OrdersSound(s)
    ensures Releases(s, ClaimInitialization(s, id).0)
  {}

  lemma FinishInitializationReleases(s: Store, id: OrderId)
    requires OrdersSound(s)
    ensures Releases(s, FinishInitialization(s, id))
  {}

  lemma CancelReleases(s: Store, id: OrderId, user: UserId)
    requires OrdersSound(s)
    ensures Releases(s, Cancel(s, id, user).0)
  {
    hide Admitted, OnSale, DistinctTickets;
  }

  lemma RefundReleases(s: Store, id: OrderId, p: Payment)
    requires OrdersSound(s) && id < |s.orders| && !IsSettled(s.orders[id].status)
    ensures Releases(s, WithOrder(s, id, RequireRefund(s.orders[id], p)))
  {}

  lemma ConfirmRefundReleases(s: Store, id: OrderId, reference: string)
    requires OrdersSound(s)
    ensures Releases(s, ConfirmRefund(s, id, reference))
  {}

  // ---------- Admission ----------

  /** What is sold of a ticket type or held by others than order `id`. */
  function Taken(s: Store, ticket: TicketId, at: int, id: OrderId): nat
    requires ticket in s.ticketTypes
  {
    s.ticketTypes[ticket].sold + ReservedTicketQuantity(s.orders, ticket, at, id)
  }

  /** There is room for order `id` beside everybody else's live holds at time `at`. */
  ghost predicate Room(s: Store, order: Order, id: OrderId, at: int) {
    match order.purchase
    case Tickets(items) =>
      forall k :: 0 <= k < |items| ==>
        && items[k].ticket in s.ticketTypes
        && Taken(s, items[k].ticket, at, id) + items[k].quantity <= s.ticketTypes[items[k].ticket].quantity
    case Registration(_, _) =>
      order.event in s.events && s.events[order.event].capacity.Some? ==>
        RegistrationOccupancy(s, order.event, at, id) < s.events[order.event].capacity.value
  }

  predicate Fresh(s: Store, id: OrderId) {
    && (forall k :: 0 <= k < |s.tickets| ==> s.tickets[k].order != id)
    && (forall k :: 0 <= k < |s.registrations| ==> s.registrations[k].order != id)
  }

  lemma UnadmittedIsFresh(s: Store, id: OrderId)
    requires OrdersSound(s) && RowsRefer(s) && (id < |s.orders| ==> s.orders[id].status != Success)
    ensures Fresh(s, id)
  {
    if id < |s.orders| {
      assert Admitted(s, id);
      forall k | 0 <= k < |s.tickets|
        ensures s.tickets[k].order != id
      {
        IssuedWhenPresent(s.tickets, k);
      }
      forall k | 0 <= k < |s.registrations|
        ensures s.registrations[k].order != id
      {
        SumAtLeast(s.registrations, k, RegisteredFor(id));
      }
    }
  }

  /** Nothing issued yet: the plan is the order itself. */
  lemma FreshPlan(tickets: seq<TicketRow>, id: OrderId, items: seq<Item>)
    requires forall k :: 0 <= k < |tickets| ==> tickets[k].order != id
    ensures PlanIssuance(tickets, id, items) == Some(items)
  {
    forall k | 0 <= k < |items|
      ensures Issued(tickets, id, items[k].ticket) == 0
    {
      SumZero(tickets, IssuedFor(id, items[k].ticket));
    }
    assert seq(|items|, k requires 0 <= k < |items| => Outstanding(tickets, id, items[k])) == items;
  }

  lemma {:induction false} CheckItemsIsExact(s: Store, event: EventId, items: seq<Item>, plan: seq<Item>, id: OrderId,
                                             checkPrice: bool)
    requires |items| == |plan|
    ensures CheckItems(s, event, items, plan, id, checkPrice) == Done <==>
            forall k :: 0 <= k < |items| ==> CheckItem(s, event, items[k], plan[k].quantity, id, checkPrice) == Done
  {
    if |items| > 0 {
      CheckItemsIsExact(s, event, items[1..], plan[1..], id, checkPrice);
      assert forall k :: 1 <= k < |items| ==> items[1..][k - 1] == items[k] && plan[1..][k - 1] == plan[k];
    }
  }

  /** Offered to buyers, at the price of the item. */
  predicate IsOnShow(s: Store, item: Item) {
    && item.ticket in s.ticketTypes && s.ticketTypes[item.ticket].visible
    && s.ticketTypes[item.ticket].price == item.price
  }

  /** A passed check leaves room, and plans to issue the whole order; a check for a new order
      finds its types on show. */
  lemma CheckGivesRoom(s: Store, order: Order, id: OrderId, checkPrice: bool)
    requires OrdersSound(s) && RowsRefer(s) && (id < |s.orders| ==> s.orders[id].status != Success)
    requires AssertCapacity(s, order.user, order.event, order.purchase, id, checkPrice).Fits?
    ensures AssertCapacity(s, order.user, order.event, order.purchase, id, checkPrice) == Fits(ItemsOf(order))
    ensures Room(s, order, id, s.now) && OnSale(s, order) && !AlreadyRegistered(s, order)
    ensures checkPrice ==> forall k :: 0 <= k < |ItemsOf(order)| ==> IsOnShow(s, ItemsOf(order)[k])
  {
    UnadmittedIsFresh(s, id);
    if order.purchase.Tickets? {
      var items := order.purchase.items;
      FreshPlan(s.tickets, id, items);
      CheckItemsIsExact(s, order.event, items, items, id, checkPrice);
      forall k | 0 <= k < |items|
        ensures CheckItem(s, order.event, items[k], items[k].quantity, id, checkPrice) == Done
      {}
    }
  }

  /** Order `id` becomes `order`, with every admission it asked for. */
  function Admit(s: Store, id: OrderId, order: Order): Store
    requires id < |s.orders|
  {
    WithOrder(Issue(s, id, ItemsOf(s.orders[id])), id, order)
  }

  ghost predicate MayBecome(s: Store, id: OrderId, order: Order) {
    && id < |s.orders| && !IsSettled(s.orders[id].status)
    && OrderEvolves(s.orders[id], order) && Coherent(order) && order.status == Success
  }

  /** Leaving out an order that does not exist leaves out nothing. */
  lemma NobodyAt(orders: seq<Order>, f: Order -> nat)
    ensures Sum(Others(orders, |orders|), f) == Sum(orders, f)
  {}

  lemma AdmitRows(s: Store, id: OrderId, order: Order)
    requires MayBecome(s, id, order) && Fresh(s, id)
    ensures var s' := Admit(s, id, order);
            && s'.now == s.now && s'.events == s.events
            && s'.orders == s.orders[id := order]
            && s'.ticketTypes == AddSold(s.ticketTypes, ItemsOf(order))
            && s'.tickets == s.tickets + PlannedRows(s.tickets, id, ItemsOf(order))
            && s'.registrations == s.registrations +
                 if GetsRegistration(order) then [RegistrationRow(id, order.event, order.user, Active)] else []
  {
    if order.purchase.Registration? {
      assert AddSold(s.ticketTypes, []) == s.ticketTypes;
    }
  }

  /** What an admission writes: the order, its tickets, numbered from 1 and counted as sold, and
      its registration. */
  lemma AdmissionWrites(s: Store, id: OrderId, order: Order)
    requires MayBecome(s, id, order) && Fresh(s, id)
    ensures var s' := Admit(s, id, order);
            && s'.now == s.now && s'.events == s.events && s'.orders == s.orders[id := order]
            && s'.ticketTypes.Keys == s.ticketTypes.Keys
            && (forall t :: t in s.ticketTypes ==>
                  s'.ticketTypes[t] ==
                    s.ticketTypes[t].(sold := s.ticketTypes[t].sold + Quantity(ItemsOf(order), t)))
            && s.tickets <= s'.tickets
            && (forall k :: |s.tickets| <= k < |s'.tickets| ==>
                  s'.tickets[k].order == id && 1 <= s'.tickets[k].nth <= Quantity(ItemsOf(order), s'.tickets[k].ticket))
            && s'.registrations == s.registrations +
                 if order.purchase.Registration? && !order.purchase.sponsored
                 then [RegistrationRow(id, order.event, order.user, Active)] else []
  {
    AdmitRows(s, id, order);
    hide Admit;
    var s', items := Admit(s, id, order), ItemsOf(order);
    var rows := PlannedRows(s.tickets, id, items);
    forall k | |s.tickets| <= k < |s'.tickets|
      ensures s'.tickets[k].order == id && 1 <= s'.tickets[k].nth <= Quantity(items, s'.tickets[k].ticket)
    {
      var row := s'.tickets[k];
      assert row == rows[k - |s.tickets|];
      PlannedRowsContinue(s.tickets, id, items, k - |s.tickets|);
      SumZero(s.tickets, IssuedFor(id, row.ticket));
    }
  }

  lemma AdmitFits(s: Store, id: OrderId, order: Order, at: int, t: TicketId)
    requires WithinStock(s) && MayBecome(s, id, order) && at <= s.now && Room(s, order, id, at)
    requires t in s.ticketTypes
    ensures s.ticketTypes[t].sold + Quantity(ItemsOf(order), t) + Reserved(s.orders[id := order], t, s.now)
            <= Usable(s.ticketTypes[t].quantity)
  {
    var items, holds := ItemsOf(order), HoldsOf(t, s.now);
    SumUpdate(s.orders, id, order, holds);
    SumOthers(s.orders, id, holds);
    ReservedFalls(s.orders, t, at, s.now, id);
    if k :| 0 <= k < |items| && items[k].ticket == t {
      QuantityOfDistinct(items, k);
    } else {
      QuantityOfAbsent(items, t);
    }
    hide Sum;
  }

  lemma AdmitKeepsStock(s: Store, id: OrderId, order: Order, at: int)
    requires Inv(s) && MayBecome(s, id, order) && at <= s.now && Room(s, order, id, at)
    ensures WithinStock(Admit(s, id, order))
  {
    var s' := Admit(s, id, order);
    UnadmittedIsFresh(s, id);
    AdmitRows(s, id, order);
    hide Admit, Sum;
    forall t | t in s'.ticketTypes
      ensures s'.ticketTypes[t].sold + Reserved(s'.orders, t, s.now) <= Usable(s'.ticketTypes[t].quantity)
    {
      AdmitFits(s, id, order, at, t);
      NobodyAt(s'.orders, HoldsOf(t, s.now));
    }
  }

  lemma AdmitSeats(s: Store, id: OrderId, order: Order, at: int, e: EventId)
    requires WithinSeats(s) && MayBecome(s, id, order) && at <= s.now && Room(s, order, id, at)
    requires e in s.events && s.events[e].capacity.Some? && Coherent(s.orders[id])
    ensures (if GetsRegistration(order) && order.event == e then 1 else 0) + Sum(s.registrations, ActiveIn(e))
            + Sum(s.orders[id := order], SponsoredIn(e)) + Sum(s.orders[id := order], PlacesHeldIn(e, s.now))
            <= Usable(s.events[e].capacity.value)
  {
    var places, sponsored := PlacesHeldIn(e, s.now), SponsoredIn(e);
    SumUpdate(s.orders, id, order, places);
    SumOthers(s.orders, id, places);
    SumUpdate(s.orders, id, order, sponsored);
    SumOthers(s.orders, id, sponsored);
    OccupancyFalls(s, e, at, s.now, id);
    assert Occupancy(s, e, s.now) <= Usable(s.events[e].capacity.value);
    hide Sum;
  }

  lemma AdmitKeepsSeats(s: Store, id: OrderId, order: Order, at: int)
    requires Inv(s) && MayBecome(s, id, order) && at <= s.now && Room(s, order, id, at)
    ensures WithinSeats(Admit(s, id, order))
  {
    var s' := Admit(s, id, order);
    UnadmittedIsFresh(s, id);
    AdmitRows(s, id, order);
    assert Coherent(s.orders[id]);
    hide Admit, Sum;
    forall e | e in s'.events && s'.events[e].capacity.Some?
      ensures Occupancy(s', e, s.now) <= Usable(s'.events[e].capacity.value)
    {
      AdmitSeats(s, id, order, at, e);
      SumAppend(s.registrations, RegistrationRow(id, order.event, order.user, Active), ActiveIn(e));
      NobodyAt(s'.orders, PlacesHeldIn(e, s.now));
      assert s.registrations + [] == s.registrations;
    }
  }

  lemma AdmitIssues(s: Store, id: OrderId, order: Order, i: OrderId)
    requires OrdersSound(s) && RowsRefer(s) && MayBecome(s, id, order) && OnSale(s, order) && i < |s.orders|
    ensures Admitted(Admit(s, id, order), i)
  {
    hide Admit, Sum;
    var s' := Admit(s, id, order);
    UnadmittedIsFresh(s, id);
    AdmitRows(s, id, order);
    assert Admitted(s, i);
    assert Coherent(s.orders[id]);
    hide OrdersSound, RowsRefer, OnSale, PlannedRows, AddSold, DistinctKeys;
    var rows := PlannedRows(s.tickets, id, ItemsOf(order));
    forall t
      ensures Issued(s'.tickets, i, t) ==
              if s'.orders[i].status == Success then Quantity(ItemsOf(s'.orders[i]), t) else 0
    {
      PlannedRowsCount(s.tickets, id, ItemsOf(order), i, t);
      SumConcat(s.tickets, rows, IssuedFor(i, t));
    }
    SumAppend(s.registrations, RegistrationRow(id, order.event, order.user, Active), RegisteredFor(i));
    assert s.registrations + [] == s.registrations;
  }

  lemma AdmitKeepsOrders(s: Store, id: OrderId, order: Order)
    requires OrdersSound(s) && RowsRefer(s) && MayBecome(s, id, order) && OnSale(s, order)
    ensures OrdersSound(Admit(s, id, order))
  {
    var s' := Admit(s, id, order);
    UnadmittedIsFresh(s, id);
    AdmitRows(s, id, order);
    hide Admit;
    forall i | 0 <= i < |s'.orders|
      ensures Coherent(s'.orders[i]) && OnSale(s', s'.orders[i]) && Admitted(s', i)
    {
      AdmitIssues(s, id, order, i);
      assert OnSale(s, s.orders[i]);
    }
  }

  lemma KeysStayDistinct(tickets: seq<TicketRow>, more: seq<TicketRow>, id: OrderId)
    requires DistinctKeys(tickets) && DistinctKeys(more)
    requires forall k :: 0 <= k < |tickets| ==> tickets[k].order != id
    requires forall k :: 0 <= k < |more| ==> more[k].order == id
    ensures DistinctKeys(tickets + more)
  {}

  lemma AdmitKeepsRows(s: Store, id: OrderId, order: Order)
    requires OrdersSound(s) && RowsRefer(s) && MayBecome(s, id, order)
    ensures RowsRefer(Admit(s, id, order))
  {
    hide Admit, Sum;
    UnadmittedIsFresh(s, id);
    AdmitRows(s, id, order);
    var rows := PlannedRows(s.tickets, id, ItemsOf(order));
    PlannedRowsCount(s.tickets, id, ItemsOf(order), id, 0);
    PlannedKeysDistinct(s.tickets, id, ItemsOf(order));
    KeysStayDistinct(s.tickets, rows, id);
    hide PlannedRows, DistinctKeys, OrdersSound, AddSold;
  }

  lemma AdmitEvolves(s: Store, id: OrderId, order: Order)
    requires OrdersSound(s) && RowsRefer(s) && MayBecome(s, id, order)
    ensures Evolves(s, Admit(s, id, order))
  {
    var s' := Admit(s, id, order);
    UnadmittedIsFresh(s, id);
    AdmitRows(s, id, order);
    hide Admit, Sum;
    forall t | t in s.ticketTypes
      ensures t in s'.ticketTypes && TypeEvolves(s, s', t)
    {
      PlannedRowsCount(s.tickets, id, ItemsOf(order), id, t);
      SumConcat(s.tickets, PlannedRows(s.tickets, id, ItemsOf(order)), IssuedOf(t));
    }
  }

  /** Admitting an order for which there was room, at some time not later than now, keeps
      everything. */
  lemma AdmitKeepsInv(s: Store, id: OrderId, order: Order, at: int)
    requires Inv(s) && MayBecome(s, id, order) && OnSale(s, order)
    requires at <= s.now && Room(s, order, id, at) && !AlreadyRegistered(s, order)
    ensures Inv(Admit(s, id, order)) && Evolves(s, Admit(s, id, order))
  {
    AdmitKeepsStock(s, id, order, at);
    AdmitKeepsSeats(s, id, order, at);
    AdmitKeepsOrders(s, id, order);
    AdmitKeepsRows(s, id, order);
    AdmitEvolves(s, id, order);
    UnadmittedIsFresh(s, id);
    AdmitRows(s, id, order);
    hide Admit;
    assert !HasStatus(order, Held);
  }

  // ---------- New orders ----------

  function Append(s: Store, order: Order): Store {
    s.(orders := s.orders + [order])
  }

  /** A new, still unpaid order. */
  ghost predicate IsNew(s: Store, order: Order) {
    && Coherent(order) && OnSale(s, order) && IsPending(order.status) && HasStatus(order, Held)
    && (forall i :: 0 <= i < |s.orders| ==> s.orders[i].user != order.user || s.orders[i].key != order.key)
  }

  lemma AppendKeepsOrders(s: Store, order: Order)
    requires OrdersSound(s) && RowsRefer(s) && IsNew(s, order)
    ensures OrdersSound(Append(s, order))
  {
    var s' := Append(s, order);
    var id := |s.orders|;
    forall i | 0 <= i < |s'.orders|
      ensures Coherent(s'.orders[i]) && OnSale(s', s'.orders[i]) && Admitted(s', i)
    {
      if i < id {
        assert OnSale(s, s.orders[i]) && Admitted(s, i);
      } else {
        forall t
          ensures Issued(s.tickets, id, t) == 0
        {
          SumZero(s.tickets, IssuedFor(id, t));
        }
        SumZero(s.registrations, RegisteredFor(id));
      }
    }
  }

  lemma AppendKeepsRows(s: Store, order: Order)
    requires Inv(s) && IsNew(s, order)
    requires IsLive(order.hold, s.now) ==> !HasLiveHold(s, order.user, order.event)
    ensures var s' := Append(s, order);
            RowsRefer(s') && KeysUnique(s') && OneLiveHold(s') && Evolves(s, s')
  {
    hide Sum, Coherent, OnSale;
  }

  lemma AppendKeepsStock(s: Store, order: Order)
    requires WithinStock(s) && IsNew(s, order)
    requires IsLive(order.hold, s.now) ==> Room(s, order, |s.orders|, s.now)
    ensures WithinStock(Append(s, order))
  {
    var s' := Append(s, order);
    var items := ItemsOf(order);
    forall t | t in s'.ticketTypes
      ensures s'.ticketTypes[t].sold + Reserved(s'.orders, t, s.now) <= Usable(s'.ticketTypes[t].quantity)
    {
      SumAppend(s.orders, order, HoldsOf(t, s.now));
      if k :| 0 <= k < |items| && items[k].ticket == t {
        QuantityOfDistinct(items, k);
      } else {
        QuantityOfAbsent(items, t);
      }
    }
  }

  lemma AppendKeepsInv(s: Store, order: Order)
    requires Inv(s) && IsNew(s, order)
    requires IsLive(order.hold, s.now) ==> !HasLiveHold(s, order.user, order.event) && Room(s, order, |s.orders|, s.now)
    ensures Inv(Append(s, order)) && Evolves(s, Append(s, order))
  {
    AppendKeepsOrders(s, order);
    AppendKeepsRows(s, order);
    AppendKeepsStock(s, order);
    hide WithinStock, OrdersSound, RowsRefer, KeysUnique, OneLiveHold, Evolves;
    var s' := Append(s, order);
    forall e | e in s'.events && s'.events[e].capacity.Some?
      ensures Occupancy(s', e, s.now) <= Usable(s'.events[e].capacity.value)
    {
      SumAppend(s.orders, order, PlacesHeldIn(e, s.now));
      SumAppend(s.orders, order, SponsoredIn(e));
      assert Occupancy(s, e, s.now) <= Usable(s.events[e].capacity.value);
    }
  }

  // ---------- Creating and completing ----------

  /** What a successful creation has checked. */
  lemma CreationChecks(s: Store, settings: Settings, r: Request)
    requires Inv(s) && Create(s, settings, r).1.Placed?
    ensures var order := NewOrder(r);
            && Create(s, settings, r).0 == Place(s, settings, r, ItemsOf(order))
            && IsPlain(ItemsOf(order)) && OnSale(s, order)
            && FindByKey(s.orders, r.user, r.key).None? && !HasLiveHold(s, r.user, r.event)
            && Room(s, order, |s.orders|, s.now) && !AlreadyRegistered(s, order)
            && (forall k :: 0 <= k < |ItemsOf(order)| ==> IsOnShow(s, ItemsOf(order)[k]))
  {
    var order := NewOrder(r);
    assert AssertCapacity(s, r.user, r.event, r.purchase, |s.orders|, true).Fits?;
    CheckGivesRoom(s, order, |s.orders|, true);
  }

  /** As the schema and the quantity check have it: each type once, and some of each. */
  predicate IsPlain(items: seq<Item>) {
    DistinctTickets(items) && forall k :: 0 <= k < |items| ==> items[k].quantity >= 1
  }

  function Holding(r: Request, expiresAt: int): Order {
    NewOrder(r).(hold := Some(Hold(Held, expiresAt, ItemsOf(NewOrder(r)))))
  }

  function ConfirmedFree(r: Request, now: int): Order {
    Holding(r, now).(hold := ConfirmHold(Holding(r, now).hold, now), hasJob := true,
                     status := Success, fulfilledAt := Some(now), initialization := Ready)
  }

  lemma PlaceIs(s: Store, settings: Settings, r: Request)
    ensures var plan, id := ItemsOf(NewOrder(r)), |s.orders|;
            Place(s, settings, r, plan) ==
              if NewOrder(r).amount > 0 then Append(s, Holding(r, s.now + settings.holdMillis))
              else Admit(Append(s, Holding(r, s.now)), id, ConfirmedFree(r, s.now))
  {}

  lemma EvolvesReflexive(s: Store)
    ensures Evolves(s, s)
  {}

  lemma UnlessPlacedUnchanged(s: Store, settings: Settings, r: Request)
    requires !Create(s, settings, r).1.Placed?
    ensures Create(s, settings, r).0 == s
  {}

  lemma CreateKeepsInv(s: Store, settings: Settings, r: Request)
    requires Inv(s)
    ensures var s' := Create(s, settings, r).0;
            Inv(s') && Evolves(s, s')
  {
    hide Place, Inv, Evolves, Room, Admit, Append, Create;
    if Create(s, settings, r).1.Placed? {
      CreationChecks(s, settings, r);
      PlaceIs(s, settings, r);
      if NewOrder(r).amount > 0 {
        CreatePaidKeepsInv(s, r, s.now + settings.holdMillis);
      } else {
        CreateFreeKeepsInv(s, r, s.now);
      }
    } else {
      UnlessPlacedUnchanged(s, settings, r);
      EvolvesReflexive(s);
    }
  }

  lemma HoldingIsNew(s: Store, r: Request, expiresAt: int)
    requires IsPlain(ItemsOf(NewOrder(r))) && OnSale(s, NewOrder(r)) && FindByKey(s.orders, r.user, r.key).None?
    ensures IsNew(s, Holding(r, expiresAt))
  {}

  lemma CreatePaidKeepsInv(s: Store, r: Request, expiresAt: int)
    requires Inv(s) && IsPlain(ItemsOf(NewOrder(r))) && OnSale(s, NewOrder(r))
    requires FindByKey(s.orders, r.user, r.key).None? && Room(s, NewOrder(r), |s.orders|, s.now)
    requires !HasLiveHold(s, r.user, r.event)
    ensures var s' := Append(s, Holding(r, expiresAt));
            Inv(s') && Evolves(s, s')
  {
    RoomIgnoresHold(s, NewOrder(r), Holding(r, expiresAt), |s.orders|, s.now);
    HoldingIsNew(s, r, expiresAt);
    hide Inv, Evolves, Room, IsNew;
    AppendKeepsInv(s, Holding(r, expiresAt));
  }

  /** A free order is stamped with the time `at` its transaction read, by now perhaps past. */
  lemma CreateFreeKeepsInv(s: Store, r: Request, at: int)
    requires Inv(s) && IsPlain(ItemsOf(NewOrder(r))) && OnSale(s, NewOrder(r)) && at <= s.now
    requires FindByKey(s.orders, r.user, r.key).None? && Room(s, NewOrder(r), |s.orders|, s.now)
    requires !AlreadyRegistered(s, NewOrder(r))
    ensures var s' := Admit(Append(s, Holding(r, at)), |s.orders|, ConfirmedFree(r, at));
            Inv(s') && Evolves(s, s')
  {
    var order, free, id := Holding(r, at), ConfirmedFree(r, at), |s.orders|;
    var placed := Append(s, order);
    FreeOrderIsPlaced(s, r, at);
    hide Inv, Evolves, Room, OnSale, Admit, Append, MayBecome;
    AdmitKeepsInv(placed, id, free, s.now);
    EvolvesTransitive(s, placed, Admit(placed, id, free));
  }

  lemma FreeOrderMayBecome(s: Store, r: Request, at: int)
    requires IsPlain(ItemsOf(NewOrder(r))) && OnSale(s, NewOrder(r)) && at <= s.now
    requires Room(s, NewOrder(r), |s.orders|, s.now)
    ensures var placed, free := Append(s, Holding(r, at)), ConfirmedFree(r, at);
            MayBecome(placed, |s.orders|, free) && OnSale(placed, free) && Room(placed, free, |s.orders|, s.now)
  {
    var order, free, id := Holding(r, at), ConfirmedFree(r, at), |s.orders|;
    RoomIgnoresHold(s, NewOrder(r), order, id, s.now);
    RoomAfterAppend(s, order, s.now);
    RoomIgnoresHold(Append(s, order), order, free, id, s.now);
    hide Room, Sum;
  }

  lemma FreeOrderIsPlaced(s: Store, r: Request, at: int)
    requires Inv(s) && IsPlain(ItemsOf(NewOrder(r))) && OnSale(s, NewOrder(r)) && at <= s.now
    requires FindByKey(s.orders, r.user, r.key).None? && Room(s, NewOrder(r), |s.orders|, s.now)
    ensures var placed, free := Append(s, Holding(r, at)), ConfirmedFree(r, at);
            && Inv(placed) && Evolves(s, placed) && placed.now == s.now
            && MayBecome(placed, |s.orders|, free) && OnSale(placed, free) && Room(placed, free, |s.orders|, s.now)
  {
    FreeOrderMayBecome(s, r, at);
    HoldingIsNew(s, r, at);
    hide Inv, Evolves, Room, MayBecome, IsNew, OnSale;
    AppendKeepsInv(s, Holding(r, at));
  }

  lemma RoomIgnoresHold(s: Store, a: Order, b: Order, id: OrderId, at: int)
    requires a.purchase == b.purchase && a.event == b.event && Room(s, a, id, at)
    ensures Room(s, b, id, at)
  {}

  lemma RoomAfterAppend(s: Store, order: Order, at: int)
    requires Room(s, order, |s.orders|, at) && !HasStatus(order, Confirmed)
    ensures Room(Append(s, order), order, |s.orders|, at)
  {
    var s' := Append(s, order);
    assert Others(s'.orders, |s.orders|) == s.orders == Others(s.orders, |s.orders|);
    SumAppend(s.orders, order, SponsoredIn(order.event));
  }

  /** Fulfilment is admission. */
  lemma FulfilAdmits(s: Store, id: OrderId, p: Payment)
    requires OrdersSound(s) && id < |s.orders| && !IsSettled(s.orders[id].status) && !HasStatus(s.orders[id], Cancelled)
    ensures var order := Settle(s.orders[id].(hold := ConfirmHold(s.orders[id].hold, s.now), hasJob := true), s.now, p);
            MayBecome(s, id, order) && Fulfil(s, id, ItemsOf(s.orders[id]), p) == Admit(s, id, order)
  {
    assert Coherent(s.orders[id]);
  }

  lemma CompleteKeepsInv(s: Store, id: OrderId, p: Payment)
    requires Inv(s)
    ensures var s' := Complete(s, id, p).0;
            Inv(s') && Evolves(s, s')
  {
    hide Sum, Quantity, PlannedRows;
    var s' := Complete(s, id, p).0;
    if s' != s {
      var order := s.orders[id];
      RefundReleases(s, id, p);
      if s' == WithOrder(s, id, RequireRefund(order, p)) {
        ReleaseKeepsInv(s, s');
      } else {
        CheckGivesRoom(s, order, id, false);
        FulfilAdmits(s, id, p);
        var settled := Settle(order.(hold := ConfirmHold(order.hold, s.now), hasJob := true), s.now, p);
        RoomIgnoresHold(s, order, settled, id, s.now);
        AdmitKeepsInv(s, id, settled, s.now);
      }
    }
  }

  // ---------- Organiser edits and scanning ----------

  /** Nobody holds what does not exist. */
  lemma UnknownTicketUnreserved(s: Store, t: TicketId)
    requires OrdersSound(s) && t !in s.ticketTypes
    ensures Reserved(s.orders, t, s.now) == 0
  {
    forall order | order in s.orders
      ensures HoldsOf(t, s.now)(order) == 0
    {
      assert Coherent(order) && OnSale(s, order);
      QuantityOfAbsent(ItemsOf(order), t);
    }
    SumZero(s.orders, HoldsOf(t, s.now));
    NobodyAt(s.orders, HoldsOf(t, s.now));
  }

  ghost predicate OnlyTypesChange(a: Store, b: Store) {
    && b == a.(ticketTypes := b.ticketTypes)
    && a.ticketTypes.Keys <= b.ticketTypes.Keys
    && (forall t :: t in a.ticketTypes ==>
          && a.ticketTypes[t].event == b.ticketTypes[t].event && a.ticketTypes[t].sold == b.ticketTypes[t].sold
          && (a.ticketTypes[t].quantity >= 0 ==> b.ticketTypes[t].quantity >= 0))
  }

  /** Changing ticket types concerns the stock and nothing else. */
  lemma TypesChangeKeepsRest(a: Store, b: Store)
    requires Inv(a) && OnlyTypesChange(a, b)
    ensures Evolves(a, b) && (Inv(b) <==> WithinStock(b))
  {
    forall i | 0 <= i < |b.orders|
      ensures Coherent(b.orders[i]) && OnSale(b, b.orders[i]) && Admitted(b, i)
    {
      assert OnSale(a, a.orders[i]) && Admitted(a, i);
    }
    forall e | e in b.events && b.events[e].capacity.Some?
      ensures Occupancy(b, e, b.now) <= Usable(b.events[e].capacity.value)
    {
      assert Occupancy(b, e, b.now) == Occupancy(a, e, a.now);
    }
  }

  /** An accepted edit changes its own ticket type only, and leaves that one with negative
      stock exactly when it opens it so, or found it so and states no stock. */
  lemma EditTicketIsExact(s: Store, event: EventId, edit: TicketEdit)
    requires OrdersSound(s) && EditTicket(s, event, edit).1 == Done
    ensures var s' := EditTicket(s, event, edit).0;
            && OnlyTypesChange(s, s') && edit.ticket in s'.ticketTypes
            && (forall t :: t in s'.ticketTypes && t != edit.ticket ==>
                  t in s.ticketTypes && s'.ticketTypes[t] == s.ticketTypes[t])
            && (WithinStock(s) ==> WithinStock(s'))
            && (s'.ticketTypes[edit.ticket].quantity < 0 <==>
                  if edit.ticket in s.ticketTypes
                  then s.ticketTypes[edit.ticket].quantity < 0 && edit.remaining.None?
                  else GetOr(edit.remaining, 0) < 0)
            && (edit.remaining.Some? ==>
                  s'.ticketTypes[edit.ticket].quantity - s'.ticketTypes[edit.ticket].sold == edit.remaining.value)
            && (edit.remaining.None? && edit.ticket in s.ticketTypes ==>
                  s'.ticketTypes[edit.ticket].quantity == s.ticketTypes[edit.ticket].quantity)
  {
    var s' := EditTicket(s, event, edit).0;
    if edit.ticket !in s.ticketTypes {
      UnknownTicketUnreserved(s, edit.ticket);
    }
    forall t | WithinStock(s) && t in s'.ticketTypes
      ensures s'.ticketTypes[t].sold + Reserved(s'.orders, t, s.now) <= Usable(s'.ticketTypes[t].quantity)
    {
      assert s'.orders == s.orders;
    }
  }

  lemma {:induction false} EditsKeepInv(s: Store, event: EventId, edits: seq<TicketEdit>)
    requires Inv(s) && EditTickets(s, event, edits).1 == Done
    ensures var s' := EditTickets(s, event, edits).0;
            Inv(s') && Evolves(s, s') && OnlyTypesChange(s, s')
  {
    if |edits| > 0 {
      var n := |edits| - 1;
      EditsKeepInv(s, event, edits[..n]);
      var before := EditTickets(s, event, edits[..n]).0;
      EditTicketIsExact(before, event, edits[n]);
      TypesChangeKeepsRest(before, EditTicket(before, event, edits[n]).0);
      EvolvesTransitive(s, before, EditTicket(before, event, edits[n]).0);
    } else {
      EvolvesReflexive(s);
    }
  }

  /** The last stock a form states for a ticket type. */
  function LastStock(edits: seq<TicketEdit>, ticket: TicketId): Option<int> {
    if |edits| == 0 then None
    else
      var last := edits[|edits| - 1];
      if last.ticket == ticket && last.remaining.Some? then last.remaining
      else LastStock(edits[..|edits| - 1], ticket)
  }

  /** Whether a form leaves a ticket type with stock of zero or more. */
  predicate EndsWithStock(s: Store, edits: seq<TicketEdit>, ticket: TicketId) {
    match LastStock(edits, ticket)
    case Some(stock) => stock >= 0
    case None => ticket in s.ticketTypes ==> s.ticketTypes[ticket].quantity >= 0
  }

  /** Accepted edits leave a type with negative stock exactly when the last stock they state
      for it is negative, or they state none and found it so. */
  lemma {:induction false} EditsAreExact(s: Store, event: EventId, edits: seq<TicketEdit>, ticket: TicketId)
    requires Inv(s) && EditTickets(s, event, edits).1 == Done
    ensures var s' := EditTickets(s, event, edits).0;
            (ticket in s'.ticketTypes ==> s'.ticketTypes[ticket].quantity >= 0) <==> EndsWithStock(s, edits, ticket)
    ensures LastStock(edits, ticket).Some? || ticket in s.ticketTypes ==>
              ticket in EditTickets(s, event, edits).0.ticketTypes
  {
    if |edits| > 0 {
      var n := |edits| - 1;
      EditsKeepInv(s, event, edits[..n]);
      EditsAreExact(s, event, edits[..n], ticket);
      var before := EditTickets(s, event, edits[..n]).0;
      EditTicketIsExact(before, event, edits[n]);
    }
  }

  /** Changing an event's own fields, its capacity within what is taken. */
  lemma EventFieldsKeepInv(s: Store, id: EventId, e: Event)
    requires Inv(s) && id in s.events && e.kind == s.events[id].kind
    requires e.capacity.Some? ==> Occupancy(s, id, s.now) <= Usable(e.capacity.value)
    ensures var s' := s.(events := s.events[id := e]);
            Inv(s') && Evolves(s, s')
  {
    var s' := s.(events := s.events[id := e]);
    forall i | 0 <= i < |s'.orders|
      ensures Coherent(s'.orders[i]) && OnSale(s', s'.orders[i]) && Admitted(s', i)
    {
      assert OnSale(s, s.orders[i]) && Admitted(s, i);
    }
    forall x | x in s'.events && s'.events[x].capacity.Some?
      ensures Occupancy(s', x, s'.now) <= Usable(s'.events[x].capacity.value)
    {
      assert Occupancy(s', x, s'.now) == Occupancy(s, x, s.now);
    }
  }

  lemma UpdateEventKeepsInv(s: Store, id: EventId, edit: EventEdit)
    requires Inv(s)
    ensures var s' := UpdateEvent(s, id, edit).0;
            Inv(s') && Evolves(s, s')
  {
    var (s', outcome) := UpdateEvent(s, id, edit);
    if outcome == Done {
      var edited := EditedEvent(s.events[id], edit);
      var dated := s.(events := s.events[id := edited]);
      EventFieldsKeepInv(s, id, edited);
      if s.events[id].kind == SellsTickets {
        EditsKeepInv(dated, id, edit.tickets);
        EvolvesTransitive(s, dated, s');
      }
    } else {
      EvolvesReflexive(s);
    }
  }

  lemma UpdateTicketKeepsInv(s: Store, user: UserId, ticket: TicketId, price: Option<nat>, visible: Option<bool>,
                             quantity: Option<int>)
    requires Inv(s)
    ensures var s' := UpdateTicket(s, user, ticket, price, visible, quantity).0;
            Inv(s') && Evolves(s, s')
  {
    var s' := UpdateTicket(s, user, ticket, price, visible, quantity).0;
    if s' != s {
      assert OnlyTypesChange(s, s');
      TypesChangeKeepsRest(s, s');
      forall t | t in s'.ticketTypes
        ensures s'.ticketTypes[t].sold + Reserved(s'.orders, t, s.now) <= Usable(s'.ticketTypes[t].quantity)
      {}
    } else {
      EvolvesReflexive(s);
    }
  }

  lemma ScanKeepsInv(s: Store, k: nat)
    requires Inv(s)
    ensures Inv(ScanRegistration(s, k)) && Evolves(s, ScanRegistration(s, k))
  {
    ScanReleases(s, k);
    ReleaseKeepsInv(s, ScanRegistration(s, k));
  }
}
