/** When a checkout is placed, how it is refused, and what it writes: said of the store's rows
    alone. */
module CreationLaws {
  import opened Wrappers
  import opened PaymentPricing
  import opened CheckoutTypes
  import opened CheckoutInventory
  import opened CheckoutTransactions
  import opened CheckoutInvariant
  import opened TicketIssuance
  import opened Sums

  const PIECES: Item -> nat := (item: Item) => item.quantity

  /** Some of each item, and not too many in all. */
  predicate WellFormed(settings: Settings, purchase: Purchase) {
    purchase.Tickets? ==>
      && |purchase.items| > 0
      && (forall k :: 0 <= k < |purchase.items| ==> purchase.items[k].quantity >= 1)
      && Sum(purchase.items, PIECES) <= settings.maxTickets
  }

  predicate UsesKey(order: Order, r: Request) {
    order.user == r.user && order.key == r.key
  }

  predicate KeyUnused(s: Store, r: Request) {
    forall k :: 0 <= k < |s.orders| ==> !UsesKey(s.orders[k], r)
  }

  /** The buyer holds something of this event at the moment. */
  predicate Holds(s: Store, user: UserId, event: EventId) {
    exists k :: && 0 <= k < |s.orders| && s.orders[k].user == user && s.orders[k].event == event
                && s.orders[k].hold.Some? && s.orders[k].hold.value.status == Held
                && s.now < s.orders[k].hold.value.expiresAt
  }

  predicate Registered(s: Store, user: UserId, event: EventId) {
    exists k :: && 0 <= k < |s.registrations| && s.registrations[k].user == user
                && s.registrations[k].event == event && s.registrations[k].status == Active
  }

  // ---------- Tickets ----------

  predicate IsOffered(s: Store, event: EventId, item: Item) {
    item.ticket in s.ticketTypes && s.ticketTypes[item.ticket].event == event
  }

  /** Visible, and enough left beside what is sold and held. */
  predicate IsAvailable(s: Store, item: Item)
    requires item.ticket in s.ticketTypes
  {
    var t := s.ticketTypes[item.ticket];
    t.visible && t.sold + Reserved(s.orders, item.ticket, s.now) + item.quantity <= t.quantity
  }

  predicate ItemSells(s: Store, event: EventId, item: Item) {
    IsOffered(s, event, item) && IsAvailable(s, item) && s.ticketTypes[item.ticket].price == item.price
  }

  // ---------- The order as a whole ----------

  predicate TicketsSell(s: Store, event: EventId, items: seq<Item>)
    requires event in s.events
  {
    && s.events[event].kind == SellsTickets
    && (forall j, k :: 0 <= j < k < |items| ==> items[j].ticket != items[k].ticket)
    && (forall k :: 0 <= k < |items| ==> ItemSells(s, event, items[k]))
  }

  predicate HasPlace(s: Store, event: EventId)
    requires event in s.events
  {
    s.events[event].capacity.Some? ==> Occupancy(s, event, s.now) < s.events[event].capacity.value
  }

  predicate RegistrationSells(s: Store, event: EventId, user: UserId, sponsored: bool, price: nat)
    requires event in s.events
  {
    && s.events[event].kind == TakesRegistrations
    && (sponsored || !Registered(s, user, event))
    && HasPlace(s, event)
    && s.events[event].fee == price
  }

  predicate Sells(s: Store, r: Request) {
    && r.event in s.events
    && s.now < s.events[r.event].end
    && match r.purchase {
      case Tickets(items) => TicketsSell(s, r.event, items)
      case Registration(sponsored, price) => RegistrationSells(s, r.event, r.user, sponsored, price)
    }
  }

  lemma {:induction false} TotalIsSum(items: seq<Item>)
    ensures TotalQuantity(items) == Sum(items, PIECES)
  {
    if |items| > 0 {
      TotalIsSum(items[1..]);
      SumOthers(items, 0, PIECES);
      assert Others(items, 0) == items[1..];
    }
  }

  /** How a check for a new order comes out for one item. */
  lemma NewItemCheck(s: Store, event: EventId, item: Item)
    ensures CheckItem(s, event, item, item.quantity, |s.orders|, true) ==
            if !IsOffered(s, event, item) then BadRequest
            else if !IsAvailable(s, item) then Unavailable
            else if s.ticketTypes[item.ticket].price != item.price then Conflict
            else Done
  {
    NobodyAt(s.orders, HoldsOf(item.ticket, s.now));
  }

  lemma {:induction false} FirstFailureDecides(s: Store, event: EventId, items: seq<Item>, k: nat)
    requires k < |items| && forall j :: 0 <= j < k ==> ItemSells(s, event, items[j])
    requires !ItemSells(s, event, items[k])
    ensures CheckItems(s, event, items, items, |s.orders|, true) ==
            CheckItem(s, event, items[k], items[k].quantity, |s.orders|, true)
  {
    NewItemCheck(s, event, items[0]);
    if k > 0 {
      FirstFailureDecides(s, event, items[1..], k - 1);
    }
  }

  lemma NewTicketCheck(s: Store, r: Request)
    requires Inv(s) && r.purchase.Tickets? && r.event in s.events && s.now < s.events[r.event].end
    ensures var items := r.purchase.items;
            AssertCapacity(s, r.user, r.event, r.purchase, |s.orders|, true) ==
              if s.events[r.event].kind != SellsTickets then Fails(BadRequest)
              else
                var outcome := CheckItems(s, r.event, items, items, |s.orders|, true);
                if outcome == Done then Fits(items) else Fails(outcome)
  {
    UnadmittedIsFresh(s, |s.orders|);
    FreshPlan(s.tickets, |s.orders|, r.purchase.items);
  }

  lemma NewRegistrationCheck(s: Store, r: Request)
    requires Inv(s) && r.purchase.Registration? && r.event in s.events && s.now < s.events[r.event].end
    ensures AssertCapacity(s, r.user, r.event, r.purchase, |s.orders|, true) ==
              if s.events[r.event].kind != TakesRegistrations then Fails(BadRequest)
              else if !r.purchase.sponsored && Registered(s, r.user, r.event) then Fails(Unavailable)
              else if !HasPlace(s, r.event) then Fails(Unavailable)
              else if s.events[r.event].fee != r.purchase.price then Fails(Conflict)
              else Fits([])
  {
    UnadmittedIsFresh(s, |s.orders|);
    assert HasActiveRegistration(s, r.event, r.user) <==> Registered(s, r.user, r.event);
  }

  lemma AllItemsSell(s: Store, event: EventId, items: seq<Item>)
    ensures CheckItems(s, event, items, items, |s.orders|, true) == Done <==>
            forall k :: 0 <= k < |items| ==> ItemSells(s, event, items[k])
  {
    CheckItemsIsExact(s, event, items, items, |s.orders|, true);
    forall k | 0 <= k < |items|
      ensures CheckItem(s, event, items[k], items[k].quantity, |s.orders|, true) == Done <==>
              ItemSells(s, event, items[k])
    {
      NewItemCheck(s, event, items[k]);
    }
  }

  /** How a creation goes on once the order is well formed, its key new and its event known. */
  lemma CreationOpens(s: Store, settings: Settings, r: Request)
    ensures !WellFormed(settings, r.purchase) ==> Create(s, settings, r) == (s, BadRequest)
    ensures WellFormed(settings, r.purchase) && KeyUnused(s, r) ==>
              var check := AssertCapacity(s, r.user, r.event, r.purchase, |s.orders|, true);
              Create(s, settings, r) ==
                if r.event !in s.events then (s, NotFound)
                else if Holds(s, r.user, r.event) then (s, Conflict)
                else if check.Fails? then (s, check.outcome)
                else if !DistinctTickets(check.plan) then (s, Conflict)
                else (Place(s, settings, r, check.plan), Placed(|s.orders|))
  {
    if r.purchase.Tickets? {
      TotalIsSum(r.purchase.items);
    }
    assert HasLiveHold(s, r.user, r.event) <==> Holds(s, r.user, r.event);
    hide AssertCapacity, Place, Sum;
  }

  /** Exactly which checkouts are placed. */
  lemma CreationIsExact(s: Store, settings: Settings, r: Request)
    requires Inv(s)
    ensures Create(s, settings, r).1.Placed? <==>
            && WellFormed(settings, r.purchase) && KeyUnused(s, r)
            && Sells(s, r) && !Holds(s, r.user, r.event)
    ensures Create(s, settings, r).1.Placed? ==> Create(s, settings, r).1 == Placed(|s.orders|)
  {
    CreationOpens(s, settings, r);
    if r.event in s.events && s.now < s.events[r.event].end {
      match r.purchase {
        case Tickets(items) =>
          NewTicketCheck(s, r);
          AllItemsSell(s, r.event, items);
        case Registration(_, _) => NewRegistrationCheck(s, r);
      }
    }
    hide Inv, Place, WellFormed, Holds, ItemSells, Registered, HasPlace, CheckItems;
    if !KeyUnused(s, r) && WellFormed(settings, r.purchase) {
      UsedKeyIsNotPlaced(s, settings, r);
    }
  }

  lemma UsedKeyIsNotPlaced(s: Store, settings: Settings, r: Request)
    requires !KeyUnused(s, r)
    ensures !Create(s, settings, r).1.Placed?
  {
    hide AssertCapacity, Place, WellFormed;
  }

  /** How a checkout is refused: first what is wrong with the request itself, then with the
      buyer's other checkouts, then with the event, and last with what is bought. */
  lemma RefusalsAreExact(s: Store, settings: Settings, r: Request)
    requires Inv(s)
    ensures !Create(s, settings, r).1.Placed? ==> Create(s, settings, r).0 == s
    ensures !WellFormed(settings, r.purchase) ==> Create(s, settings, r).1 == BadRequest
    ensures WellFormed(settings, r.purchase) && KeyUnused(s, r) ==>
              var outcome := Create(s, settings, r).1;
              && (r.event !in s.events ==> outcome == NotFound)
              && (r.event in s.events && Holds(s, r.user, r.event) ==> outcome == Conflict)
              && (r.event in s.events && !Holds(s, r.user, r.event) ==>
                    && (s.events[r.event].end <= s.now ==> outcome == Unavailable)
                    && (s.now < s.events[r.event].end ==>
                          (if r.purchase.Tickets? then s.events[r.event].kind != SellsTickets
                           else s.events[r.event].kind != TakesRegistrations) ==> outcome == BadRequest))
  {
    CreationOpens(s, settings, r);
    UnlessPlaced(s, settings, r);
    hide Inv, Place, WellFormed, Holds, CheckItems, KeyUnused;
  }

  lemma UnlessPlaced(s: Store, settings: Settings, r: Request)
    ensures !Create(s, settings, r).1.Placed? ==> Create(s, settings, r).0 == s
  {
    if !Create(s, settings, r).1.Placed? {
      UnlessPlacedUnchanged(s, settings, r);
    }
  }

  /** A request that gets as far as what it buys. */
  predicate ReachesGoods(s: Store, settings: Settings, r: Request) {
    && WellFormed(settings, r.purchase) && KeyUnused(s, r)
    && r.event in s.events && !Holds(s, r.user, r.event) && s.now < s.events[r.event].end
    && s.events[r.event].kind == if r.purchase.Tickets? then SellsTickets else TakesRegistrations
  }

  lemma RegistrationRefusals(s: Store, settings: Settings, r: Request)
    requires Inv(s) && r.purchase.Registration? && ReachesGoods(s, settings, r)
    ensures Create(s, settings, r).1 ==
            if !r.purchase.sponsored && Registered(s, r.user, r.event) then Unavailable
            else if !HasPlace(s, r.event) then Unavailable
            else if s.events[r.event].fee != r.purchase.price then Conflict
            else Placed(|s.orders|)
  {
    CreationOpens(s, settings, r);
    NewRegistrationCheck(s, r);
    hide Inv, Place, WellFormed, Holds, KeyUnused, Registered, HasPlace, AssertCapacity;
  }

  /** The first item that does not sell decides: a foreign type is a bad request, a hidden or
      sold-out one unavailable, a changed price a conflict; as is naming a type twice. */
  lemma TicketRefusals(s: Store, settings: Settings, r: Request, k: nat)
    requires Inv(s) && r.purchase.Tickets? && ReachesGoods(s, settings, r)
    requires k <= |r.purchase.items| && forall j :: 0 <= j < k ==> ItemSells(s, r.event, r.purchase.items[j])
    requires k < |r.purchase.items| ==> !ItemSells(s, r.event, r.purchase.items[k])
    ensures var items := r.purchase.items;
            Create(s, settings, r).1 ==
            if k == |items| then (if DistinctTickets(items) then Placed(|s.orders|) else Conflict)
            else if !IsOffered(s, r.event, items[k]) then BadRequest
            else if !IsAvailable(s, items[k]) then Unavailable
            else Conflict
  {
    var items := r.purchase.items;
    CreationOpens(s, settings, r);
    NewTicketCheck(s, r);
    AllItemsSell(s, r.event, items);
    if k < |items| {
      FirstFailureDecides(s, r.event, items, k);
      NewItemCheck(s, r.event, items[k]);
    }
    hide Inv, Place, WellFormed, Holds, KeyUnused, AssertCapacity, CheckItems, CheckItem;
  }

  // ---------- What a creation writes ----------

  /** Nothing but the new order, and what it admits. */
  lemma CreationWrites(s: Store, settings: Settings, r: Request)
    requires Inv(s) && Create(s, settings, r).1.Placed?
    ensures var s' := Create(s, settings, r).0;
            && s'.now == s.now && s'.events == s.events && |s'.orders| == |s.orders| + 1
            && s'.orders[..|s.orders|] == s.orders
            && (r.pricing.charge > 0 ==>
                  s'.ticketTypes == s.ticketTypes && s'.tickets == s.tickets && s'.registrations == s.registrations)
  {
    CreationChecks(s, settings, r);
    hide Create, Inv, Room;
    if r.pricing.charge <= 0 {
      CreationIssues(s, settings, r);
    }
  }

  /** The order itself: a payable one waits for payment with its items held for the holding
      time, a free one is settled with its reservation confirmed. */
  lemma CreatedOrder(s: Store, settings: Settings, r: Request)
    requires Inv(s) && Create(s, settings, r).1.Placed?
    ensures |Create(s, settings, r).0.orders| == |s.orders| + 1
    ensures var o := Create(s, settings, r).0.orders[|s.orders|];
            && o.user == r.user && o.event == r.event && o.purchase == r.purchase && o.provider == r.provider
            && o.key == r.key && o.requestHash == r.requestHash && o.pricing == r.pricing
            && o.amount == r.pricing.charge && o.platformFee == r.pricing.platformFee
            && o.providerFee == r.pricing.providerFee && o.creatorPayable == r.pricing.creatorPayable
            && o.refund.None? && o.hold.Some?
            && o.hold.value.expiresAt == s.now + (if r.pricing.charge > 0 then settings.holdMillis else 0)
            && o.hold.value.items == (if r.purchase.Tickets? then r.purchase.items else [])
            && (if r.pricing.charge > 0 then
                  && o.status == (if r.provider == Paystack then Pending else AwaitingTransfer)
                  && o.initialization == NotStarted && o.fulfilledAt.None? && !o.hasJob
                  && o.hold.value.status == Held
                else
                  && o.status == Success && o.initialization == Ready && o.fulfilledAt == Some(s.now) && o.hasJob
                  && o.hold.value.status == Confirmed)
  {
    CreationChecks(s, settings, r);
    hide Create, Inv, Room, OnSale;
    PlaceIs(s, settings, r);
  }

  /** The admissions of a free order: its tickets numbered from 1 and counted as sold, or its
      registration, unless a sponsor pays for somebody else's. */
  lemma CreationIssues(s: Store, settings: Settings, r: Request)
    requires Inv(s) && Create(s, settings, r).1.Placed? && r.pricing.charge <= 0
    ensures var s' := Create(s, settings, r).0;
            var items := if r.purchase.Tickets? then r.purchase.items else [];
            && s'.now == s.now && s'.events == s.events && |s'.orders| == |s.orders| + 1
            && s'.orders[..|s.orders|] == s.orders
            && s'.ticketTypes.Keys == s.ticketTypes.Keys
            && (forall t :: t in s.ticketTypes ==>
                  s'.ticketTypes[t] == s.ticketTypes[t].(sold := s.ticketTypes[t].sold + Quantity(items, t)))
            && s.tickets <= s'.tickets
            && (forall k :: |s.tickets| <= k < |s'.tickets| ==>
                  && s'.tickets[k].order == |s.orders|
                  && 1 <= s'.tickets[k].nth <= Quantity(items, s'.tickets[k].ticket))
            && s'.registrations == s.registrations +
                 if r.purchase.Registration? && !r.purchase.sponsored
                 then [RegistrationRow(|s.orders|, r.event, r.user, Active)] else []
  {
    hide Create, Admit, Inv, MayBecome, Fresh, Quantity;
    FreeCreationAdmits(s, settings, r);
    AdmissionWrites(Append(s, Holding(r, s.now)), |s.orders|, ConfirmedFree(r, s.now));
  }

  lemma FreeCreationAdmits(s: Store, settings: Settings, r: Request)
    requires Inv(s) && Create(s, settings, r).1.Placed? && r.pricing.charge <= 0
    ensures var placed, free, id := Append(s, Holding(r, s.now)), ConfirmedFree(r, s.now), |s.orders|;
            && Create(s, settings, r).0 == Admit(placed, id, free)
            && MayBecome(placed, id, free) && Fresh(placed, id)
  {
    hide Create, Place, Room, Admit, OnSale, Inv, MayBecome, Fresh;
    CreationChecks(s, settings, r);
    PlaceIs(s, settings, r);
    FreeOrderIsPlaced(s, r, s.now);
    FreshInSound(Append(s, Holding(r, s.now)), |s.orders|);
  }

  lemma FreshInSound(s: Store, id: OrderId)
    requires Inv(s) && (id < |s.orders| ==> s.orders[id].status != Success)
    ensures Fresh(s, id)
  {
    UnadmittedIsFresh(s, id);
  }
}
