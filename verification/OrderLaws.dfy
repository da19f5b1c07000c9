/** What each step does to an order, and to nothing else: said of the store's rows alone. */
module OrderLaws {
  import opened Wrappers
  import opened PaymentPricing
  import opened CheckoutTypes
  import opened CheckoutInventory
  import opened CheckoutTransactions
  import opened CheckoutInvariant
  import opened CheckoutRuns
  import opened TicketIssuance
  import opened Sums

  // ---------- Payments ----------

  /** In a sound store every payment of an order is answered with the order, whether it is
      honoured, refunded or reported again. */
  lemma PaymentsAreAnswered(s: Store, id: OrderId, p: Payment)
    requires Inv(s)
    ensures id < |s.orders| ==> Complete(s, id, p).1 == Completed(id)
    ensures id >= |s.orders| ==> Complete(s, id, p) == (s, NotFound)
  {
    if id < |s.orders| {
      assert OnSale(s, s.orders[id]);
      if !IsSettled(s.orders[id].status) {
        assert Coherent(s.orders[id]);
        CheckIsRoom(s, id);
      }
    }
  }

  predicate IsOpen(order: Order) {
    order.status != Success && order.status != RefundRequired && order.status != Refunded
  }

  ghost predicate IsHonoured(s: Store, id: OrderId, p: Payment)
    requires id < |s.orders|
  {
    var order := s.orders[id];
    && p.collected == order.amount
    && !(order.hold.Some? && order.hold.value.status == Cancelled)
    && order.event in s.events && s.now < s.events[order.event].end
    && !AlreadyRegistered(s, order)
    && Room(s, order, id, s.now)
  }

  /** An order paid in full: settled now, with the books of the payment, its reservation
      confirmed and its confirmation queued. */
  function Honoured(order: Order, now: int, p: Payment): Order {
    order.(
      status := Success, fulfilledAt := Some(now), amount := p.collected, pricing := p.pricing,
      platformFee := p.pricing.platformFee, providerFee := p.pricing.providerFee,
      creatorPayable := p.pricing.creatorPayable, hasJob := true,
      hold := Some(if order.hold.Some? then Hold(Confirmed, order.hold.value.expiresAt, order.hold.value.items)
                   else Hold(Confirmed, now, [])))
  }

  /** An order to be refunded what was collected, its reservation let go. */
  function Returned(order: Order, p: Payment): Order {
    order.(
      status := RefundRequired, refund := Some(Refund(p.collected, None)), amount := p.collected,
      creatorPayable := 0, platformFee := 0, providerFee := p.providerFee,
      hold := if order.hold.Some? && order.hold.value.status == Held
              then Some(Hold(Lapsed, order.hold.value.expiresAt, order.hold.value.items)) else order.hold)
  }

  /** What a payment writes: nothing for an order decided already; a refund and no more for one
      that is not honoured; the order and its admissions for one that is. */
  lemma PaymentWrites(s: Store, id: OrderId, p: Payment)
    requires Inv(s) && id < |s.orders|
    ensures var order, s' := s.orders[id], Complete(s, id, p).0;
            && (!IsOpen(order) ==> s' == s)
            && (IsOpen(order) && !IsHonoured(s, id, p) ==> s' == s.(orders := s.orders[id := Returned(order, p)]))
            && (IsOpen(order) && IsHonoured(s, id, p) ==>
                  && s'.now == s.now && s'.events == s.events
                  && s'.orders == s.orders[id := Honoured(order, s.now, p)]
                  && AdmitsOrder(s, s', id, order))
  {
    assert Coherent(s.orders[id]) && OnSale(s, s.orders[id]);
    if IsOpen(s.orders[id]) {
      CheckIsRoom(s, id);
      if IsHonoured(s, id, p) {
        HonouringWrites(s, id, p);
      }
    }
  }

  /** The tickets or the registration of an order, and its sold counts. */
  predicate AdmitsOrder(s: Store, s': Store, id: OrderId, order: Order) {
    var items := if order.purchase.Tickets? then order.purchase.items else [];
    && s'.ticketTypes.Keys == s.ticketTypes.Keys
    && (forall t :: t in s.ticketTypes ==>
          s'.ticketTypes[t] == s.ticketTypes[t].(sold := s.ticketTypes[t].sold + Quantity(items, t)))
    && s.tickets <= s'.tickets
    && (forall k :: |s.tickets| <= k < |s'.tickets| ==>
          s'.tickets[k].order == id && 1 <= s'.tickets[k].nth <= Quantity(items, s'.tickets[k].ticket))
    && s'.registrations == s.registrations +
         if order.purchase.Registration? && !order.purchase.sponsored
         then [RegistrationRow(id, order.event, order.user, Active)] else []
  }

  lemma HonouringWrites(s: Store, id: OrderId, p: Payment)
    requires Inv(s) && id < |s.orders| && IsOpen(s.orders[id]) && IsHonoured(s, id, p)
    ensures var order, s' := s.orders[id], Complete(s, id, p).0;
            && s'.now == s.now && s'.events == s.events
            && s'.orders == s.orders[id := Honoured(order, s.now, p)]
            && AdmitsOrder(s, s', id, order)
  {
    hide Inv, Complete, Admit, MayBecome, Fresh, IsHonoured, Quantity;
    HonouringAdmits(s, id, p);
    AdmissionWrites(s, id, Honoured(s.orders[id], s.now, p));
  }

  lemma HonouringAdmits(s: Store, id: OrderId, p: Payment)
    requires Inv(s) && id < |s.orders| && IsOpen(s.orders[id]) && IsHonoured(s, id, p)
    ensures var settled := Honoured(s.orders[id], s.now, p);
            && Complete(s, id, p).0 == Admit(s, id, settled)
            && MayBecome(s, id, settled) && Fresh(s, id)
  {
    var order := s.orders[id];
    assert Coherent(order) && OnSale(s, order);
    CheckIsRoom(s, id);
    FulfilAdmits(s, id, p);
    UnadmittedIsFresh(s, id);
    assert Honoured(order, s.now, p) ==
           Settle(order.(hold := ConfirmHold(order.hold, s.now), hasJob := true), s.now, p);
    hide Inv, Fulfil, Admit, AssertCapacity, MayBecome, Fresh, Room, Coherent, OnSale;
  }

  // ---------- Holds that run out ----------

  predicate RunOut(order: Order, now: int) {
    order.hold.Some? && order.hold.value.status == Held && order.hold.value.expiresAt <= now
  }

  function WithHold(order: Order, status: HoldStatus): Order
    requires order.hold.Some?
  {
    order.(hold := Some(order.hold.value.(status := status)))
  }

  /** Expiry changes the orders whose holds have run out, and no others; these lose their
      hold and, if they were waiting for payment, expire. */
  lemma ExpiryIsExact(s: Store)
    ensures var s' := ExpireHolds(s);
            && s' == s.(orders := s'.orders) && |s'.orders| == |s.orders|
            && forall i :: 0 <= i < |s.orders| ==>
                 s'.orders[i] ==
                   if !RunOut(s.orders[i], s.now) then s.orders[i]
                   else if s.orders[i].status == Pending || s.orders[i].status == AwaitingTransfer
                   then WithHold(s.orders[i], Lapsed).(status := Expired)
                   else WithHold(s.orders[i], Lapsed)
  {}

  /** So every hold that was live still is, and nobody's room changes. */
  lemma ExpirySparesLiveHolds(s: Store, i: OrderId)
    requires i < |s.orders| && IsLive(s.orders[i].hold, s.now)
    ensures ExpireHolds(s).orders[i] == s.orders[i]
  {}

  lemma ExpiryKeepsReserved(s: Store, ticket: TicketId, except: OrderId)
    ensures ReservedTicketQuantity(ExpireHolds(s).orders, ticket, s.now, except) ==
            ReservedTicketQuantity(s.orders, ticket, s.now, except)
  {
    var f := HoldsOf(ticket, s.now);
    var a, b := Others(s.orders, except), Others(ExpireHolds(s).orders, except);
    hide Sum, Quantity;
    SumPointwise(a, b, f, f);
    SumPointwise(b, a, f, f);
  }

  lemma ExpiryKeepsOccupancy(s: Store, event: EventId, except: OrderId)
    ensures RegistrationOccupancy(ExpireHolds(s), event, s.now, except) ==
            RegistrationOccupancy(s, event, s.now, except)
  {
    var f, g := PlacesHeldIn(event, s.now), SponsoredIn(event);
    var a, b := Others(s.orders, except), Others(ExpireHolds(s).orders, except);
    hide Sum;
    SumPointwise(a, b, f, f);
    SumPointwise(b, a, f, f);
    SumPointwise(s.orders, ExpireHolds(s).orders, g, g);
    SumPointwise(ExpireHolds(s).orders, s.orders, g, g);
  }

  /** A hold is live or has run out, never both. */
  lemma HeldIsLiveOrRunOut(order: Order, now: int)
    requires order.hold.Some? && order.hold.value.status == Held
    ensures IsLive(order.hold, now) <==> !RunOut(order, now)
  {}

  /** What a hold keeps for its buyer: until it runs out exactly what was ordered, and nothing
      from then on. */
  lemma HoldReservesUntilItRunsOut(s: Store, settings: Settings, r: Request, t: TicketId, later: int)
    requires Inv(s) && Create(s, settings, r).1.Placed? && r.pricing.charge > 0 && r.purchase.Tickets?
    ensures Reserved(Create(s, settings, r).0.orders, t, later) == Reserved(s.orders, t, later) +
            if later < s.now + settings.holdMillis then Quantity(r.purchase.items, t) else 0
  {
    CreationChecks(s, settings, r);
    hide Create, Inv, Room, OnSale;
    PlaceIs(s, settings, r);
    SumAppend(s.orders, Holding(r, s.now + settings.holdMillis), HoldsOf(t, later));
    hide Sum;
  }

  /** Likewise a place: one in the event it is for, and none elsewhere. */
  lemma HoldKeepsAPlaceUntilItRunsOut(s: Store, settings: Settings, r: Request, e: EventId, later: int)
    requires Inv(s) && Create(s, settings, r).1.Placed? && r.pricing.charge > 0 && r.purchase.Registration?
    ensures var s' := Create(s, settings, r).0;
            RegistrationOccupancy(s', e, later, |s'.orders|) == RegistrationOccupancy(s, e, later, |s.orders|) +
            if e == r.event && later < s.now + settings.holdMillis then 1 else 0
  {
    CreationChecks(s, settings, r);
    hide Create, Inv, Room, OnSale;
    PlaceIs(s, settings, r);
    SumAppend(s.orders, Holding(r, s.now + settings.holdMillis), PlacesHeldIn(e, later));
    SumAppend(s.orders, Holding(r, s.now + settings.holdMillis), SponsoredIn(e));
    hide Sum;
  }

  // ---------- One order at a time ----------

  /** Only the buyer cancels, only an order with a reservation, and only until it has been
      fulfilled or refunded; its reservation is cancelled and it expires. */
  lemma CancellationIsExact(s: Store, id: OrderId, user: UserId)
    requires Inv(s)
    ensures var (s', outcome) := Cancel(s, id, user);
            if id >= |s.orders| || s.orders[id].user != user || s.orders[id].hold.None? then
              (s', outcome) == (s, NotFound)
            else if s.orders[id].status == Success || s.orders[id].refund.Some? then
              (s', outcome) == (s, Conflict)
            else
              && outcome == Completed(id)
              && s' == s.(orders := s.orders[id := WithHold(s.orders[id], Cancelled).(status := Expired)])
  {
    if id < |s.orders| {
      assert OnSale(s, s.orders[id]) && Coherent(s.orders[id]);
    }
  }

  function LetGo(order: Order): Order {
    if order.hold.Some? && order.hold.value.status == Held then WithHold(order, Lapsed) else order
  }

  predicate Waits(order: Order) {
    order.status == Pending || order.status == AwaitingTransfer
  }

  /** An order whose payment could not be set up lets go of its hold, and expires if it was
      still waiting. */
  lemma InitializationFailureIsExact(s: Store, id: OrderId)
    ensures InitializationFailed(s, id) ==
            if id >= |s.orders| then s
            else
              var order := LetGo(s.orders[id]);
              s.(orders := s.orders[id :=
                if Waits(order) then order.(status := Expired, initialization := InitFailed) else order])
  {}

  /** An order whose payment failed fails if it was still waiting, and is left alone if not. */
  lemma PaymentFailureIsExact(s: Store, id: OrderId)
    ensures MarkTransactionFailed(s, id) ==
            if id >= |s.orders| || !Waits(s.orders[id]) then s
            else s.(orders := s.orders[id := LetGo(s.orders[id]).(status := Failed)])
  {}

  /** The first to ask sets up the payment of a waiting order; nobody else does. */
  lemma ClaimIsExact(s: Store, id: OrderId)
    ensures var (s', claimed) := ClaimInitialization(s, id);
            && (claimed <==> id < |s.orders| && Waits(s.orders[id]) && s.orders[id].initialization == NotStarted)
            && s' == (if !claimed then s
                      else s.(orders := s.orders[id := s.orders[id].(initialization := Initializing)]))
  {}

  lemma ReadinessIsExact(s: Store, id: OrderId)
    ensures FinishInitialization(s, id) ==
            if id >= |s.orders| then s else s.(orders := s.orders[id := s.orders[id].(initialization := Ready)])
  {}

  /** Confirming a refund marks it and its order, and leaves its amount. */
  lemma ConfirmationIsExact(s: Store, id: OrderId, reference: string)
    ensures ConfirmRefund(s, id, reference) ==
            if id >= |s.orders| || s.orders[id].refund.None? then s
            else
              var refund := Refund(s.orders[id].refund.value.amount, Some(reference));
              s.(orders := s.orders[id := s.orders[id].(status := Refunded, refund := Some(refund))])
  {}

  // ---------- Registrations ----------

  /** Scanning touches an active registration only, once. */
  lemma ScanIsExact(s: Store, k: nat)
    ensures ScanRegistration(s, k) ==
            if k >= |s.registrations| || s.registrations[k].status != Active then s
            else
              var row := s.registrations[k];
              s.(registrations := s.registrations[k := RegistrationRow(row.order, row.event, row.user, Used)])
  {}

  /** The registrant and the organiser may withdraw a registration, and nobody else. */
  lemma WithdrawalIsExact(s: Store, k: nat, user: UserId)
    requires Inv(s)
    ensures var (s', outcome) := CancelRegistration(s, k, user);
            if k >= |s.registrations| then (s', outcome) == (s, NotFound)
            else
              var row := s.registrations[k];
              && row.event in s.events
              && (if user == row.user || user == s.events[row.event].creator then
                    && outcome == Done
                    && s' == s.(registrations :=
                         s.registrations[k := RegistrationRow(row.order, row.event, row.user, Withdrawn)])
                  else (s', outcome) == (s, Forbidden))
  {
    if k < |s.registrations| {
      assert OnSale(s, s.orders[s.registrations[k].order]);
    }
  }
}
