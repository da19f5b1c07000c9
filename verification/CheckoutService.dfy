/** The checkout service as the program runs it.  Each method is one database transaction:
    rows change in place, step by step, and a failing transaction changes none.  What each
    does in all is a function of CheckoutTransactions; that it keeps the invariant is
    CheckoutInvariant's. */
module CheckoutService {
  import opened Wrappers
  import opened CheckoutTypes
  import opened CheckoutInventory
  import opened CheckoutInvariant
  import opened TicketIssuance
  import opened CheckoutTransactions
  import Spec = CheckoutTransactions

  class CheckoutService {
    const settings: Settings
    var now: int
    var events: map<EventId, Event>
    var ticketTypes: map<TicketId, TicketType>
    var orders: seq<Order>
    var tickets: seq<TicketRow>
    var registrations: seq<RegistrationRow>

    ghost function Rows(): Store
      reads this
    {
      Store(now, events, ticketTypes, orders, tickets, registrations)
    }

    ghost predicate Valid()
      reads this
    {
      Inv(Rows())
    }

    constructor (settings: Settings, now: int, events: map<EventId, Event>, ticketTypes: map<TicketId, TicketType>)
      requires forall t :: t in ticketTypes ==> ticketTypes[t].sold <= Usable(ticketTypes[t].quantity)
      ensures Valid() && this.settings == settings
      ensures Rows() == Store(now, events, ticketTypes, [], [], [])
    {
      this.settings, this.now, this.events, this.ticketTypes := settings, now, events, ticketTypes;
      this.orders, this.tickets, this.registrations := [], [], [];
    }

    /** May an order be admitted?  Items are checked one after another. */
    method AssertCapacity(user: UserId, eventId: EventId, purchase: Purchase, id: OrderId, checkPrice: bool)
      returns (check: Check)
      ensures check == Spec.AssertCapacity(Rows(), user, eventId, purchase, id, checkPrice)
    {
      if eventId !in events {
        return Fails(NotFound);
      }
      var event := events[eventId];
      if event.end <= now {
        return Fails(Unavailable);
      }
      match purchase
      case Registration(sponsored, price) =>
        if event.kind != TakesRegistrations {
          return Fails(BadRequest);
        }
        if exists k :: 0 <= k < |registrations| && registrations[k].order == id {
          return Fits([]);
        }
        if !sponsored && exists row :: && row in registrations && row.event == eventId && row.user == user
                                       && row.status == Active {
          return Fails(Unavailable);
        }
        var rows := Store(now, events, ticketTypes, orders, tickets, registrations);
        var occupied := RegistrationOccupancy(rows, eventId, now, id);
        if event.capacity.Some? && occupied >= event.capacity.value {
          return Fails(Unavailable);
        }
        if checkPrice && event.fee != price {
          return Fails(Conflict);
        }
        return Fits([]);
      case Tickets(items) =>
        if event.kind != SellsTickets {
          return Fails(BadRequest);
        }
        var planned := PlanIssuance(tickets, id, items);
        if planned.None? {
          return Fails(Conflict);
        }
        var plan := planned.value;
        for k := 0 to |items|
          invariant CheckItems(Rows(), eventId, items, plan, id, checkPrice)
                    == CheckItems(Rows(), eventId, items[k..], plan[k..], id, checkPrice)
        {
          assert items[k..][1..] == items[k + 1..] && plan[k..][1..] == plan[k + 1..];
          if items[k].ticket !in ticketTypes || ticketTypes[items[k].ticket].event != eventId {
            return Fails(BadRequest);
          }
          var t := ticketTypes[items[k].ticket];
          if checkPrice && !t.visible {
            return Fails(Unavailable);
          }
          var held := ReservedTicketQuantity(orders, items[k].ticket, now, id);
          if t.quantity - t.sold - held < plan[k].quantity {
            return Fails(Unavailable);
          }
          if checkPrice && t.price != items[k].price {
            return Fails(Conflict);
          }
        }
        check := Fits(plan);
    }

    /** The ticket rows of a plan. */
    method CreateTickets(id: OrderId, plan: seq<Item>)
      modifies this`tickets
      ensures tickets == old(tickets) + PlannedRows(old(tickets), id, plan)
    {
      var data := [];
      for k := 0 to |plan|
        invariant data == PlannedRows(tickets, id, plan[..k])
        invariant tickets == old(tickets)
      {
        assert plan[..k + 1][..k] == plan[..k];
        data := data + RowsOf(tickets, id, plan[k]);
      }
      assert plan[..|plan|] == plan;
      tickets := tickets + data;
    }

    method CountSold(plan: seq<Item>)
      requires forall k :: 0 <= k < |plan| ==> plan[k].ticket in ticketTypes
      modifies this`ticketTypes
      ensures ticketTypes == AddSold(old(ticketTypes), plan)
    {
      ghost var types := ticketTypes;
      assert AddSold(types, plan[..0]) == types;
      for k := 0 to |plan|
        invariant ticketTypes == AddSold(types, plan[..k])
      {
        AddSoldStep(types, plan, k);
        if plan[k].quantity > 0 {
          var t := ticketTypes[plan[k].ticket];
          ticketTypes := ticketTypes[plan[k].ticket := t.(sold := t.sold + plan[k].quantity)];
        }
      }
      assert plan[..|plan|] == plan;
    }

    /** Creates the admissions of an order, counts them as sold, confirms its reservation and
        queues its confirmation. */
    method Issue(id: OrderId, plan: seq<Item>)
      requires id < |orders|
      requires forall k :: 0 <= k < |plan| ==> plan[k].ticket in ticketTypes
      modifies this`ticketTypes, this`orders, this`tickets, this`registrations
      ensures Rows() == Spec.Issue(old(Rows()), id, plan) && |orders| == old(|orders|)
    {
      var order := orders[id];
      match order.purchase {
        case Tickets(_) =>
          CreateTickets(id, plan);
          CountSold(plan);
        case Registration(sponsored, _) =>
          if !sponsored && !exists k :: 0 <= k < |registrations| && registrations[k].order == id {
            registrations := registrations + [RegistrationRow(id, order.event, order.user, Active)];
          }
      }
      var hold := match order.hold case None => Hold(Confirmed, now, []) case Some(h) => h.(status := Confirmed);
      orders := orders[id := order.(hold := Some(hold), hasJob := true)];
    }

    /** Writes a new order and its reservation; a free one is confirmed on the spot. */
    method Place(r: Request, plan: seq<Item>)
      requires forall k :: 0 <= k < |plan| ==> plan[k].ticket in ticketTypes
      modifies this`ticketTypes, this`orders, this`tickets, this`registrations
      ensures Rows() == Spec.Place(old(Rows()), settings, r, plan)
    {
      hide Spec.Issue;
      var id := |orders|;
      var record := NewOrder(r);
      var paid := record.amount > 0;
      var hold := Hold(Held, now + if paid then settings.holdMillis else 0, plan);
      orders := orders + [record.(hold := Some(hold))];
      if !paid {
        Issue(id, plan);
        orders := orders[id := orders[id].(status := Success, fulfilledAt := Some(now), initialization := Ready)];
      }
    }

    method Create(r: Request) returns (outcome: Outcome)
      requires Valid()
      modifies this`ticketTypes, this`orders, this`tickets, this`registrations
      ensures Valid() && Evolves(old(Rows()), Rows())
      ensures (Rows(), outcome) == Spec.Create(old(Rows()), settings, r)
    {
      CreateKeepsInv(Rows(), settings, r);
      PlacedPlanIsIssuable(Rows(), settings, r);
      hide Inv, Evolves, Spec.AssertCapacity, Spec.Place, NewOrder, ItemsOf;
      if r.purchase.Tickets? && !ValidQuantity(settings, r.purchase.items) {
        return BadRequest;
      }
      var replay := FindByKey(orders, r.user, r.key);
      if replay.Some? {
        return if orders[replay.value].requestHash == r.requestHash then Replayed(replay.value) else Conflict;
      }
      if r.event !in events {
        return NotFound;
      }
      if HasLiveHold(Store(now, events, ticketTypes, orders, tickets, registrations), r.user, r.event) {
        return Conflict;
      }
      var id := |orders|;
      var check := AssertCapacity(r.user, r.event, r.purchase, id, true);
      if check.Fails? {
        return check.outcome;
      }
      if !DistinctTickets(check.plan) {
        return Conflict;
      }
      Place(r, check.plan);
      outcome := Outcome.Placed(id);
    }

    /** A collected payment that cannot be honoured. */
    method RequireRefund(id: OrderId, p: Payment)
      requires id < |orders|
      modifies this`orders
      ensures Rows() == WithOrder(old(Rows()), id, Spec.RequireRefund(old(orders)[id], p))
    {
      var record := orders[id];
      if record.hold.Some? && record.hold.value.status == Held {
        orders := orders[id := record.(hold := Some(record.hold.value.(status := Lapsed)))];
      }
      orders := orders[id := orders[id].(
        refund := Some(Refund(p.collected, None)), status := RefundRequired,
        amount := p.collected, creatorPayable := 0, platformFee := 0, providerFee := p.providerFee)];
    }

    /** A collected payment that can. */
    method Fulfil(id: OrderId, plan: seq<Item>, p: Payment)
      requires id < |orders|
      requires forall k :: 0 <= k < |plan| ==> plan[k].ticket in ticketTypes
      modifies this`ticketTypes, this`orders, this`tickets, this`registrations
      ensures Rows() == Spec.Fulfil(old(Rows()), id, plan, p)
    {
      hide Spec.Issue;
      Issue(id, plan);
      orders := orders[id := orders[id].(
        status := Success, fulfilledAt := Some(now), amount := p.collected, pricing := p.pricing,
        platformFee := p.pricing.platformFee, providerFee := p.pricing.providerFee,
        creatorPayable := p.pricing.creatorPayable)];
    }

    method Complete(id: OrderId, p: Payment) returns (outcome: Outcome)
      requires Valid()
      modifies this`ticketTypes, this`orders, this`tickets, this`registrations
      ensures Valid() && Evolves(old(Rows()), Rows())
      ensures (Rows(), outcome) == Spec.Complete(old(Rows()), id, p)
    {
      CompleteKeepsInv(Rows(), id, p);
      PlanIsIssuable(Rows(), id);
      hide Inv, Evolves, Spec.AssertCapacity, Spec.Fulfil, Spec.RequireRefund;
      if id >= |orders| || orders[id].event !in events {
        return NotFound;
      }
      var record := orders[id];
      if record.status == Success || record.status == RefundRequired || record.status == Refunded {
        return Completed(id);
      }
      var refund := record.amount != p.collected;
      if record.hold.Some? && record.hold.value.status == Cancelled {
        refund := true;
      }
      var plan: seq<Item> := [];
      if !refund {
        var check := AssertCapacity(record.user, record.event, record.purchase, id, false);
        match check
        case Fits(items) =>
          plan := items;
        case Fails(reason) =>
          if reason != Unavailable {
            return reason;
          }
          refund := true;
      }
      if refund {
        RequireRefund(id, p);
      } else {
        Fulfil(id, plan, p);
      }
      outcome := Completed(id);
    }

    method Cancel(id: OrderId, user: UserId) returns (outcome: Outcome)
      requires Valid()
      modifies this`orders
      ensures Valid() && Evolves(old(Rows()), Rows())
      ensures (Rows(), outcome) == Spec.Cancel(old(Rows()), id, user)
    {
      CancelReleases(Rows(), id, user);
      ReleaseKeepsInv(Rows(), Spec.Cancel(Rows(), id, user).0);
      if id >= |orders| || orders[id].user != user || orders[id].hold.None? || orders[id].event !in events {
        return NotFound;
      }
      var record := orders[id];
      if record.fulfilledAt.Some? || record.refund.Some? {
        return Conflict;
      }
      orders := orders[id := record.(hold := Some(record.hold.value.(status := Cancelled)), status := Expired)];
      outcome := Completed(id);
    }

    /** The two bulk updates of the expiry job: pending transactions, then reservations. */
    method ExpireHolds()
      requires Valid()
      modifies this`orders
      ensures Valid() && Evolves(old(Rows()), Rows())
      ensures Rows() == Spec.ExpireHolds(old(Rows()))
    {
      ExpireReleases(Rows());
      ReleaseKeepsInv(Rows(), Spec.ExpireHolds(Rows()));
      ghost var before := orders;
      var statuses := seq(|orders|, k requires 0 <= k < |orders| reads this => 
        if RunsOut(orders[k].hold, now) && IsPending(orders[k].status) then orders[k].(status := Expired)
        else orders[k]);
      orders := statuses;
      orders := seq(|orders|, k requires 0 <= k < |orders| reads this =>
        if RunsOut(orders[k].hold, now) then orders[k].(hold := Lapse(orders[k].hold)) else orders[k]);
      assert orders == Spec.ExpireHolds(old(Rows())).orders;
    }

    method InitializationFailed(id: OrderId)
      requires Valid()
      modifies this`orders
      ensures Valid() && Evolves(old(Rows()), Rows())
      ensures Rows() == Spec.InitializationFailed(old(Rows()), id)
    {
      InitializationFailedReleases(Rows(), id);
      ReleaseKeepsInv(Rows(), Spec.InitializationFailed(Rows(), id));
      if id < |orders| {
        var record := orders[id];
        if IsPending(record.status) {
          orders := orders[id := record.(status := Expired, initialization := InitFailed)];
        }
        if record.hold.Some? && record.hold.value.status == Held {
          orders := orders[id := orders[id].(hold := Some(record.hold.value.(status := Lapsed)))];
        }
        assert orders == Spec.InitializationFailed(old(Rows()), id).orders;
      }
    }

    method MarkTransactionFailed(id: OrderId)
      requires Valid()
      modifies this`orders
      ensures Valid() && Evolves(old(Rows()), Rows())
      ensures Rows() == Spec.MarkTransactionFailed(old(Rows()), id)
    {
      MarkFailedReleases(Rows(), id);
      ReleaseKeepsInv(Rows(), Spec.MarkTransactionFailed(Rows(), id));
      if id < |orders| && IsPending(orders[id].status) {
        var record := orders[id];
        orders := orders[id := record.(status := Failed)];
        if record.hold.Some? && record.hold.value.status == Held {
          orders := orders[id := orders[id].(hold := Some(record.hold.value.(status := Lapsed)))];
        }
        assert orders == Spec.MarkTransactionFailed(old(Rows()), id).orders;
      }
    }

    /** Returns true to one caller at most: a claimed order never becomes claimable again. */
    method ClaimInitialization(id: OrderId) returns (claimed: bool)
      requires Valid()
      modifies this`orders
      ensures Valid() && Evolves(old(Rows()), Rows())
      ensures (Rows(), claimed) == Spec.ClaimInitialization(old(Rows()), id)
      ensures claimed ==> !Spec.ClaimInitialization(Rows(), id).1
    {
      ClaimInitializationReleases(Rows(), id);
      ReleaseKeepsInv(Rows(), Spec.ClaimInitialization(Rows(), id).0);
      claimed := id < |orders| && orders[id].initialization == NotStarted && IsPending(orders[id].status);
      if claimed {
        orders := orders[id := orders[id].(initialization := Initializing)];
      }
    }

    method FinishInitialization(id: OrderId)
      requires Valid()
      modifies this`orders
      ensures Valid() && Evolves(old(Rows()), Rows())
      ensures Rows() == Spec.FinishInitialization(old(Rows()), id)
    {
      FinishInitializationReleases(Rows(), id);
      ReleaseKeepsInv(Rows(), Spec.FinishInitialization(Rows(), id));
      if id < |orders| {
        orders := orders[id := orders[id].(initialization := Ready)];
      }
    }

    /** The refund row first, then the transaction. */
    method ConfirmRefund(id: OrderId, reference: string)
      requires Valid()
      modifies this`orders
      ensures Valid() && Evolves(old(Rows()), Rows())
      ensures Rows() == Spec.ConfirmRefund(old(Rows()), id, reference)
    {
      ConfirmRefundReleases(Rows(), id, reference);
      ReleaseKeepsInv(Rows(), Spec.ConfirmRefund(Rows(), id, reference));
      if id < |orders| && orders[id].refund.Some? {
        var refund := orders[id].refund.value;
        orders := orders[id := orders[id].(refund := Some(refund.(confirmation := Some(reference))))];
        orders := orders[id := orders[id].(status := Refunded)];
        assert orders == Spec.ConfirmRefund(old(Rows()), id, reference).orders;
      }
    }

    method MarkRegistrationAsUsed(k: nat)
      requires Valid()
      modifies this`registrations
      ensures Valid() && Evolves(old(Rows()), Rows())
      ensures Rows() == ScanRegistration(old(Rows()), k)
    {
      ScanKeepsInv(Rows(), k);
      if k < |registrations| && registrations[k].status == Active {
        registrations := registrations[k := registrations[k].(status := Used)];
      }
    }

    method CancelRegistration(k: nat, user: UserId) returns (outcome: Outcome)
      requires Valid()
      modifies this`registrations
      ensures Valid() && Evolves(old(Rows()), Rows())
      ensures (Rows(), outcome) == Spec.CancelRegistration(old(Rows()), k, user)
    {
      WithdrawalReleases(Rows(), k, user);
      ReleaseKeepsInv(Rows(), Spec.CancelRegistration(Rows(), k, user).0);
      if k >= |registrations| {
        return NotFound;
      }
      var row := registrations[k];
      if row.user != user {
        if row.event !in events || events[row.event].creator != user {
          return Forbidden;
        }
      }
      registrations := registrations[k := row.(status := Withdrawn)];
      outcome := Done;
    }

    /** The database clock moves on by itself, and never back. */
    method AdvanceClock(to: int)
      requires Valid() && now <= to
      modifies this`now
      ensures Valid() && Evolves(old(Rows()), Rows())
      ensures Rows() == old(Rows()).(now := to)
    {
      TickReleases(Rows(), to);
      ReleaseKeepsInv(Rows(), Rows().(now := to));
      now := to;
    }

    /** The ticket types after the edits of a form, or why they are refused. */
    method EditTicketTypes(event: EventId, edits: seq<TicketEdit>)
      returns (types: map<TicketId, TicketType>, outcome: Outcome)
      ensures outcome == EditTickets(Rows(), event, edits).1
      ensures outcome == Outcome.Done ==> Rows().(ticketTypes := types) == EditTickets(Rows(), event, edits).0
    {
      types, outcome := ticketTypes, Outcome.Done;
      for k := 0 to |edits|
        invariant outcome == Outcome.Done
        invariant EditTickets(Rows(), event, edits[..k]) == (Rows().(ticketTypes := types), Outcome.Done)
      {
        var e := edits[k];
        assert edits[..k + 1][..k] == edits[..k];
        FailedEditsFail(Rows(), event, edits, k + 1);
        if e.ticket in types {
          var t := types[e.ticket];
          if t.event != event {
            return types, Forbidden;
          }
          t := t.(price := GetOr(e.price, t.price), visible := GetOr(e.visible, t.visible));
          if e.remaining.Some? {
            var reserved := Reserved(orders, e.ticket, now);
            if e.remaining.value < reserved {
              return types, Conflict;
            }
            t := t.(quantity := t.sold + e.remaining.value);
          }
          types := types[e.ticket := t];
        } else {
          if e.price.None? {
            return types, BadRequest;
          }
          var t := TicketType(event, e.price.value, GetOr(e.remaining, 0), 0, GetOr(e.visible, true));
          types := types[e.ticket := t];
        }
      }
      assert edits[..|edits|] == edits;
    }

    /** An organiser's edit of the event: its own fields, then its ticket types one by one. */
    method UpdateEvent(id: EventId, edit: EventEdit) returns (outcome: Outcome)
      requires Valid()
      modifies this`events, this`ticketTypes
      ensures Valid() && Evolves(old(Rows()), Rows())
      ensures (Rows(), outcome) == Spec.UpdateEvent(old(Rows()), id, edit)
    {
      UpdateEventKeepsInv(Rows(), id, edit);
      hide Inv, Evolves, Occupancy, EditTickets;
      if id !in events {
        return NotFound;
      }
      if edit.capacity.Some? &&
           edit.capacity.value < Occupancy(Store(now, events, ticketTypes, orders, tickets, registrations), id, now) {
        return Conflict;
      }
      var edited := EditedEvent(events[id], edit);
      if events[id].kind == SellsTickets {
        EditsIgnoreEvents(Rows(), events[id := edited], id, edit.tickets);
        var types, verdict := EditTicketTypes(id, edit.tickets);
        if verdict != Outcome.Done {
          return verdict;
        }
        ticketTypes := types;
      }
      events := events[id := edited];
      outcome := Done;
    }

    method UpdateTicket(user: UserId, ticket: TicketId, price: Option<nat>, visible: Option<bool>,
                        quantity: Option<int>)
      returns (outcome: Outcome)
      requires Valid()
      modifies this`ticketTypes
      ensures Valid() && Evolves(old(Rows()), Rows())
      ensures (Rows(), outcome) == Spec.UpdateTicket(old(Rows()), user, ticket, price, visible, quantity)
    {
      UpdateTicketKeepsInv(Rows(), user, ticket, price, visible, quantity);
      if ticket !in ticketTypes || ticketTypes[ticket].event !in events {
        return NotFound;
      }
      var t := ticketTypes[ticket];
      if events[t.event].creator != user {
        return Forbidden;
      }
      if quantity.Some? {
        var reserved := Reserved(orders, ticket, now);
        if quantity.value - t.sold < reserved {
          return Conflict;
        }
        t := t.(quantity := quantity.value);
      }
      ticketTypes := ticketTypes[ticket := t.(price := GetOr(price, t.price), visible := GetOr(visible, t.visible))];
      outcome := Done;
    }
  }

  /** Whatever a check plans can be issued. */
  lemma PlanIsIssuable(s: Store, id: OrderId)
    requires Inv(s)
    ensures id < |s.orders| && !IsSettled(s.orders[id].status) ==>
              var o := s.orders[id];
              var check := Spec.AssertCapacity(s, o.user, o.event, o.purchase, id, false);
              check.Fits? ==> forall k :: 0 <= k < |check.plan| ==> check.plan[k].ticket in s.ticketTypes
  {
    if id < |s.orders| && !IsSettled(s.orders[id].status) {
      var o := s.orders[id];
      if Spec.AssertCapacity(s, o.user, o.event, o.purchase, id, false).Fits? {
        CheckGivesRoom(s, o, id, false);
      }
    }
  }

  lemma PlacedPlanIsIssuable(s: Store, settings: Settings, r: Request)
    requires Inv(s)
    ensures var check := Spec.AssertCapacity(s, r.user, r.event, r.purchase, |s.orders|, true);
            check.Fits? ==> forall k :: 0 <= k < |check.plan| ==> check.plan[k].ticket in s.ticketTypes
  {
    if Spec.AssertCapacity(s, r.user, r.event, r.purchase, |s.orders|, true).Fits? {
      CheckGivesRoom(s, NewOrder(r), |s.orders|, true);
    }
  }

  predicate RunsOut(hold: Option<Hold>, now: int) {
    hold.Some? && hold.value.status == Held && hold.value.expiresAt <= now
  }

  /** Counting one more item as sold. */
  lemma AddSoldStep(types: map<TicketId, TicketType>, plan: seq<Item>, k: nat)
    requires k < |plan| && plan[k].ticket in types
    ensures var before, after := AddSold(types, plan[..k]), AddSold(types, plan[..k + 1]);
            var t := plan[k].ticket;
            && after == before[t := before[t].(sold := before[t].sold + plan[k].quantity)]
            && (plan[k].quantity == 0 ==> after == before)
  {
    assert plan[..k + 1][..k] == plan[..k];
    var before, after := AddSold(types, plan[..k]), AddSold(types, plan[..k + 1]);
    forall t | t in types
      ensures Quantity(plan[..k + 1], t) == Quantity(plan[..k], t) + QuantityFor(t)(plan[k])
    {}
    assert after.Keys == before.Keys;
  }

  lemma {:induction false} FailedEditsFail(s: Store, event: EventId, edits: seq<TicketEdit>, k: nat)
    requires k <= |edits|
    ensures EditTickets(s, event, edits[..k]).1 != Outcome.Done ==>
              EditTickets(s, event, edits) == (s, EditTickets(s, event, edits[..k]).1)
    decreases |edits|
  {
    if k == |edits| {
      assert edits[..k] == edits;
      EditsFailUnchanged(s, event, edits);
    } else {
      FailedEditsFail(s, event, edits[..|edits| - 1], k);
      assert edits[..|edits| - 1][..k] == edits[..k];
    }
  }

  lemma {:induction false} EditsIgnoreEvents(s: Store, events: map<EventId, Event>, event: EventId,
                                             edits: seq<TicketEdit>)
    ensures var (after, outcome) := EditTickets(s, event, edits);
            EditTickets(s.(events := events), event, edits) == (after.(events := events), outcome)
  {
    if |edits| > 0 {
      EditsIgnoreEvents(s, events, event, edits[..|edits| - 1]);
    }
  }

  lemma EditsFailUnchanged(s: Store, event: EventId, edits: seq<TicketEdit>)
    ensures EditTickets(s, event, edits).1 != Outcome.Done ==> EditTickets(s, event, edits).0 == s
  {}
}
