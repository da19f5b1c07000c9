/** What the event lock is for.  A transaction on one event checks and then acts; in between,
    steps that take no lock and whole transactions on other events may take place. */
module CheckoutLocks {
  import opened CheckoutTypes
  import opened CheckoutInventory
  import opened CheckoutTransactions
  import opened CheckoutInvariant
  import opened CheckoutRuns
  import opened TicketIssuance
  import opened Sums

  // ---------- Steps beside a locked event ----------

  /** Steps that can take place while a transaction holds the lock of `event`. */
  predicate Aside(s: Store, step: Step, event: EventId) {
    match step
    case StartCheckout(request) => request.event != event
    case Pay(id, _) => id < |s.orders| ==> s.orders[id].event != event
    case EditEvent(other, _) => other != event
    case EditStock(_, ticket, _, _, _) => ticket in s.ticketTypes ==> s.ticketTypes[ticket].event != event
    case _ => true
  }

  ghost predicate AllAside(s: Store, settings: Settings, steps: seq<Step>, event: EventId) {
    |steps| > 0 ==>
      var before := steps[..|steps| - 1];
      AllAside(s, settings, before, event) && Aside(Run(s, settings, before), steps[|steps| - 1], event)
  }

  /** At `event`, `b` differs from `a` by releases only; elsewhere it may differ in any way. */
  ghost predicate OnlyReleasesAt(a: Store, b: Store, event: EventId) {
    && a.now <= b.now
    && OrdersReleaseAt(a, b, event)
    && SameOnSaleAt(a, b, event)
    && RegistrationsReleaseAt(a, b, event)
  }

  predicate OrdersReleaseAt(a: Store, b: Store, event: EventId) {
    && |a.orders| <= |b.orders|
    && (forall i :: 0 <= i < |a.orders| ==> a.orders[i].event == b.orders[i].event)
    && (forall i :: 0 <= i < |a.orders| && a.orders[i].event == event ==> OrderReleases(a.orders[i], b.orders[i]))
    && (forall i :: |a.orders| <= i < |b.orders| ==> b.orders[i].event != event)
  }

  predicate SameOnSaleAt(a: Store, b: Store, event: EventId) {
    && (event in a.events <==> event in b.events)
    && (event in a.events ==> a.events[event] == b.events[event])
    && (forall t :: t in a.ticketTypes && a.ticketTypes[t].event == event ==>
          t in b.ticketTypes && a.ticketTypes[t] == b.ticketTypes[t])
  }

  predicate RegistrationsReleaseAt(a: Store, b: Store, event: EventId) {
    && |a.registrations| <= |b.registrations|
    && (forall k :: 0 <= k < |a.registrations| ==> RowReleases(a.registrations[k], b.registrations[k]))
    && (forall k :: |a.registrations| <= k < |b.registrations| ==> b.registrations[k].event != event)
  }

  lemma ReleasesAtAreTransitive(a: Store, b: Store, c: Store, event: EventId)
    requires OnlyReleasesAt(a, b, event) && OnlyReleasesAt(b, c, event)
    ensures OnlyReleasesAt(a, c, event)
  {}

  lemma ReleasesAreReleasesAt(a: Store, b: Store, event: EventId)
    requires Releases(a, b)
    ensures OnlyReleasesAt(a, b, event)
  {
    hide Coherent;
  }

  lemma AppendElsewhere(s: Store, order: Order, event: EventId)
    requires OrdersSound(s) && order.event != event
    ensures OnlyReleasesAt(s, Append(s, order), event)
  {
    assert forall i :: 0 <= i < |s.orders| ==> Coherent(s.orders[i]);
    hide Coherent, Admitted, OnSale;
  }

  lemma AdmitElsewhere(s: Store, id: OrderId, order: Order, event: EventId)
    requires OrdersSound(s) && RowsRefer(s) && MayBecome(s, id, order) && OnSale(s, order) && order.event != event
    ensures OnlyReleasesAt(s, Admit(s, id, order), event)
  {
    hide Admit, Sum;
    UnadmittedIsFresh(s, id);
    AdmitRows(s, id, order);
    forall t | t in s.ticketTypes && s.ticketTypes[t].event == event
      ensures Quantity(ItemsOf(order), t) == 0
    {
      QuantityOfAbsent(ItemsOf(order), t);
    }
    assert forall i :: 0 <= i < |s.orders| ==> Coherent(s.orders[i]);
    hide Coherent, Admitted, OnSale, OrdersSound, RowsRefer, Quantity;
  }

  lemma CreateElsewhere(s: Store, settings: Settings, r: Request, event: EventId)
    requires Inv(s) && r.event != event
    ensures OnlyReleasesAt(s, Create(s, settings, r).0, event)
  {
    hide Create, Place, OnlyReleasesAt, Room, Inv, OnSale, Admit, Append;
    InvSplits(s);
    TickReleases(s, s.now);
    ReleasesAreReleasesAt(s, s.(now := s.now), event);
    if Create(s, settings, r).1.Placed? {
      CreationChecks(s, settings, r);
      PlaceIs(s, settings, r);
      InvSplits(s);
      if NewOrder(r).amount > 0 {
        AppendElsewhere(s, Holding(r, s.now + settings.holdMillis), event);
      } else {
        FreeOrderIsPlaced(s, r, s.now);
        var placed := Append(s, Holding(r, s.now));
        InvSplits(placed);
        AppendElsewhere(s, Holding(r, s.now), event);
        AdmitElsewhere(placed, |s.orders|, ConfirmedFree(r, s.now), event);
        ReleasesAtAreTransitive(s, placed, Admit(placed, |s.orders|, ConfirmedFree(r, s.now)), event);
      }
    } else {
      UnlessPlacedUnchanged(s, settings, r);
    }
  }

  lemma InvSplits(s: Store)
    requires Inv(s)
    ensures OrdersSound(s) && RowsRefer(s) && KeysUnique(s)
  {}

  lemma CompleteElsewhere(s: Store, id: OrderId, p: Payment, event: EventId)
    requires Inv(s) && (id < |s.orders| ==> s.orders[id].event != event)
    ensures OnlyReleasesAt(s, Complete(s, id, p).0, event)
  {
    hide OnlyReleasesAt, Sum;
    var s' := Complete(s, id, p).0;
    TickReleases(s, s.now);
    ReleasesAreReleasesAt(s, s.(now := s.now), event);
    if s' != s {
      var order := s.orders[id];
      RefundReleases(s, id, p);
      if s' == WithOrder(s, id, RequireRefund(order, p)) {
        ReleasesAreReleasesAt(s, s', event);
      } else {
        CheckGivesRoom(s, order, id, false);
        FulfilAdmits(s, id, p);
        AdmitElsewhere(s, id, Settle(order.(hold := ConfirmHold(order.hold, s.now), hasJob := true), s.now, p), event);
      }
    }
  }

  /** A form of one event leaves the ticket types of all others alone. */
  lemma {:induction false} EditsElsewhere(s: Store, other: EventId, edits: seq<TicketEdit>, event: EventId)
    requires other != event && EditTickets(s, other, edits).1 == Done
    ensures var s' := EditTickets(s, other, edits).0;
            && s' == s.(ticketTypes := s'.ticketTypes)
            && (forall t :: t in s.ticketTypes && s.ticketTypes[t].event == event ==>
                  t in s'.ticketTypes && s.ticketTypes[t] == s'.ticketTypes[t])
  {
    if |edits| > 0 {
      EditsElsewhere(s, other, edits[..|edits| - 1], event);
    }
  }

  lemma OnSaleElsewhere(a: Store, b: Store, event: EventId)
    requires OrdersSound(a) && SameOnSaleAt(a, b, event)
    requires b == a.(events := b.events, ticketTypes := b.ticketTypes)
    ensures OnlyReleasesAt(a, b, event)
  {
    assert forall i :: 0 <= i < |a.orders| ==> Coherent(a.orders[i]);
    hide Coherent, Admitted, OnSale;
  }

  lemma UpdateEventElsewhere(s: Store, other: EventId, edit: EventEdit, event: EventId)
    requires OrdersSound(s) && other != event
    ensures OnlyReleasesAt(s, UpdateEvent(s, other, edit).0, event)
  {
    hide OrdersSound, OnlyReleasesAt;
    var (s', outcome) := UpdateEvent(s, other, edit);
    if outcome == Done && s.events[other].kind == SellsTickets {
      EditsElsewhere(s.(events := s.events[other := EditedEvent(s.events[other], edit)]), other, edit.tickets, event);
    }
    OnSaleElsewhere(s, s', event);
  }

  lemma UpdateTicketElsewhere(s: Store, settings: Settings, step: Step, event: EventId)
    requires OrdersSound(s) && step.EditStock? && Aside(s, step, event)
    ensures OnlyReleasesAt(s, Apply(s, settings, step), event)
  {
    hide OrdersSound, OnlyReleasesAt;
    OnSaleElsewhere(s, Apply(s, settings, step), event);
  }

  lemma AsideStepOnlyReleasesAt(s: Store, settings: Settings, step: Step, event: EventId)
    requires Inv(s) && Aside(s, step, event)
    ensures OnlyReleasesAt(s, Apply(s, settings, step), event)
  {
    InvSplits(s);
    hide Inv, OrdersSound, RowsRefer, OnlyReleasesAt, Create, Complete, UpdateEvent, UpdateTicket;
    match step
    case StartCheckout(request) => CreateElsewhere(s, settings, request, event);
    case Pay(id, payment) => CompleteElsewhere(s, id, payment, event);
    case EditEvent(other, edit) => UpdateEventElsewhere(s, other, edit, event);
    case EditStock(_, _, _, _, _) => UpdateTicketElsewhere(s, settings, step, event);
    case _ =>
      ReleaseStep(s, settings, step);
      ReleasesAreReleasesAt(s, Apply(s, settings, step), event);
  }

  /** Whatever happens beside the lock, at the locked event it only releases. */
  lemma {:induction false} AsideRunsOnlyReleaseAt(s: Store, settings: Settings, steps: seq<Step>, event: EventId)
    requires Inv(s) && AllAside(s, settings, steps, event)
    ensures OnlyReleasesAt(s, Run(s, settings, steps), event)
  {
    hide Inv, OnlyReleasesAt, Aside, Apply;
    if |steps| == 0 {
      InvSplits(s);
    TickReleases(s, s.now);
      ReleasesAreReleasesAt(s, s.(now := s.now), event);
    } else {
      var before := Run(s, settings, steps[..|steps| - 1]);
      AsideRunsOnlyReleaseAt(s, settings, steps[..|steps| - 1], event);
      RunsKeepInv(s, settings, steps[..|steps| - 1]);
      AsideStepOnlyReleasesAt(before, settings, steps[|steps| - 1], event);
      ReleasesAtAreTransitive(s, before, Run(s, settings, steps), event);
    }
  }

  // ---------- Room survives ----------

  /** An order holds tickets of its own event only. */
  lemma ForeignHoldsNothing(s: Store, i: OrderId, ticket: TicketId, now: int)
    requires OrdersSound(s) && i < |s.orders|
    requires ticket in s.ticketTypes && s.ticketTypes[ticket].event != s.orders[i].event
    ensures HeldBy(s.orders[i], ticket, now) == 0
  {
    assert Coherent(s.orders[i]) && OnSale(s, s.orders[i]);
    QuantityOfAbsent(ItemsOf(s.orders[i]), ticket);
  }

  lemma ReservedFallsAt(a: Store, b: Store, event: EventId, ticket: TicketId, id: OrderId, id': OrderId)
    requires OrdersSound(a) && OrdersSound(b) && OnlyReleasesAt(a, b, event)
    requires ticket in a.ticketTypes && a.ticketTypes[ticket].event == event
    requires if id < |a.orders| then id' == id else id' >= |b.orders|
    ensures ReservedTicketQuantity(b.orders, ticket, b.now, id') <= ReservedTicketQuantity(a.orders, ticket, a.now, id)
  {
    forall i | 0 <= i < |b.orders|
      ensures i < |a.orders| ==> HeldBy(b.orders[i], ticket, b.now) <= HeldBy(a.orders[i], ticket, a.now)
      ensures i >= |a.orders| ==> HeldBy(b.orders[i], ticket, b.now) == 0
    {
      if b.orders[i].event != event {
        ForeignHoldsNothing(b, i, ticket, b.now);
      }
    }
    hide Sum, HeldBy;
    SumOthersBound(a.orders, b.orders, id, id', HoldsOf(ticket, b.now), HoldsOf(ticket, a.now));
  }

  lemma OccupancyFallsAt(a: Store, b: Store, event: EventId, id: OrderId, id': OrderId)
    requires OrdersSound(a) && OnlyReleasesAt(a, b, event)
    requires if id < |a.orders| then id' == id else id' >= |b.orders|
    ensures RegistrationOccupancy(b, event, b.now, id') <= RegistrationOccupancy(a, event, a.now, id)
  {
    assert forall i :: 0 <= i < |a.orders| ==> Coherent(a.orders[i]);
    hide Sum, OrdersSound;
    SumOthersBound(a.orders, b.orders, id, id', PlacesHeldIn(event, b.now), PlacesHeldIn(event, a.now));
    SumOthersBound(a.orders, b.orders, |a.orders|, |b.orders|, SponsoredIn(event), SponsoredIn(event));
    var rows, later := a.registrations, b.registrations;
    SumOthersBound(rows, later, |rows|, |later|, ActiveIn(event), ActiveIn(event));
  }

  /** Room that a check found is still there, for an order that exists or for a new one, and
      nobody has been registered meanwhile. */
  lemma RoomSurvives(a: Store, b: Store, order: Order, id: OrderId, id': OrderId)
    requires Inv(a) && Inv(b) && OnlyReleasesAt(a, b, order.event) && OnSale(a, order)
    requires Room(a, order, id, a.now) && !AlreadyRegistered(a, order)
    requires if id < |a.orders| then id' == id else id' >= |b.orders|
    ensures Room(b, order, id', b.now) && !AlreadyRegistered(b, order) && OnSale(b, order)
  {
    var items := ItemsOf(order);
    forall k | 0 <= k < |items|
      ensures items[k].ticket in b.ticketTypes && a.ticketTypes[items[k].ticket] == b.ticketTypes[items[k].ticket]
      ensures ReservedTicketQuantity(b.orders, items[k].ticket, b.now, id')
              <= ReservedTicketQuantity(a.orders, items[k].ticket, a.now, id)
    {
      ReservedFallsAt(a, b, order.event, items[k].ticket, id, id');
    }
    OccupancyFallsAt(a, b, order.event, id, id');
    hide Inv, ReservedTicketQuantity, RegistrationOccupancy;
  }

  // ---------- Between check and act ----------

  /** A completion need not be instantaneous.  It checks capacity, then holds expire, checkouts
      are cancelled, registrations are scanned or withdrawn, time passes and other events sell,
      settle and are edited, and only then it issues what it planned.  The row lock keeps its
      own order still.  Nothing is oversold. */
  lemma InterleavedCompletionIsSafe(s: Store, settings: Settings, id: OrderId, p: Payment, steps: seq<Step>)
    requires Inv(s) && id < |s.orders| && !IsSettled(s.orders[id].status) && !MustRefund(s.orders[id], p.collected)
    requires AssertCapacity(s, s.orders[id].user, s.orders[id].event, s.orders[id].purchase, id, false).Fits?
    requires AllAside(s, settings, steps, s.orders[id].event)
    requires id < |Run(s, settings, steps).orders| && Run(s, settings, steps).orders[id] == s.orders[id]
    ensures var order := s.orders[id];
            var settled := Settle(order.(hold := ConfirmHold(order.hold, s.now), hasJob := true), s.now, p);
            var after := Admit(Run(s, settings, steps), id, settled);
            Inv(after) && Evolves(s, after) && after.orders[id] == settled
  {
    var order := s.orders[id];
    var b := Run(s, settings, steps);
    CheckGivesRoom(s, order, id, false);
    FulfilAdmits(s, id, p);
    var settled := Settle(order.(hold := ConfirmHold(order.hold, s.now), hasJob := true), s.now, p);
    hide Inv, Evolves, Room, Run, AssertCapacity, Fulfil, Admit, OnlyReleasesAt, AllAside, OnSale;
    RunsKeepInv(s, settings, steps);
    AsideRunsOnlyReleaseAt(s, settings, steps, order.event);
    RoomSurvives(s, b, order, id, id);
    RoomIgnoresHold(b, order, settled, id, b.now);
    FulfilLater(b, id, order, settled);
    EvolvesTransitive(s, b, Admit(b, id, settled));
  }

  lemma FulfilLater(b: Store, id: OrderId, order: Order, settled: Order)
    requires Inv(b) && MayBecome(b, id, settled) && b.orders[id] == order && Room(b, settled, id, b.now)
    requires settled.event == order.event && settled.purchase == order.purchase && settled.user == order.user
    requires !AlreadyRegistered(b, order)
    ensures Inv(Admit(b, id, settled)) && Evolves(b, Admit(b, id, settled))
    ensures Admit(b, id, settled).orders[id] == settled
  {
    assert OnSale(b, b.orders[id]);
    hide Inv, Evolves, Room;
    AdmitKeepsInv(b, id, settled, b.now);
  }

  /** The buyer's own lock on the idempotency key keeps this key out of the steps between. */
  predicate OtherKeys(steps: seq<Step>, r: Request) {
    forall k :: 0 <= k < |steps| && steps[k].StartCheckout? ==>
      steps[k].request.user != r.user || steps[k].request.key != r.key
  }

  /** Orders come from requests. */
  lemma StepAddsItsKey(s: Store, settings: Settings, step: Step)
    requires Inv(s)
    ensures var s' := Apply(s, settings, step);
            forall i :: |s.orders| <= i < |s'.orders| ==>
              step.StartCheckout? && s'.orders[i].user == step.request.user && s'.orders[i].key == step.request.key
  {
    hide Inv, Evolves, Create, OrdersSound;
    match step
    case StartCheckout(r) =>
      if Create(s, settings, r).1.Placed? {
        CreationChecks(s, settings, r);
        PlaceIs(s, settings, r);
      } else {
        UnlessPlacedUnchanged(s, settings, r);
      }
    case EditEvent(id, edit) => EventEditAddsNoOrder(s, id, edit);
    case _ =>
  }

  lemma EventEditAddsNoOrder(s: Store, id: EventId, edit: EventEdit)
    ensures UpdateEvent(s, id, edit).0.orders == s.orders
  {
    if id in s.events {
      EditsAddNoOrder(s.(events := s.events[id := EditedEvent(s.events[id], edit)]), id, edit.tickets);
    }
  }

  lemma {:induction false} EditsAddNoOrder(s: Store, event: EventId, edits: seq<TicketEdit>)
    ensures EditTickets(s, event, edits).0.orders == s.orders
  {
    if |edits| > 0 {
      EditsAddNoOrder(s, event, edits[..|edits| - 1]);
    }
  }

  /** A key stays unused if earlier orders keep theirs and later ones bring another. */
  lemma KeyExtends(before: Store, after: Store, r: Request)
    requires FindByKey(before.orders, r.user, r.key).None? && |before.orders| <= |after.orders|
    requires forall i :: 0 <= i < |before.orders| ==> OrderEvolves(before.orders[i], after.orders[i])
    requires forall i :: |before.orders| <= i < |after.orders| ==>
               after.orders[i].user != r.user || after.orders[i].key != r.key
    ensures FindByKey(after.orders, r.user, r.key).None?
  {}

  lemma {:induction false} KeyStaysUnused(s: Store, settings: Settings, steps: seq<Step>, r: Request)
    requires Inv(s) && FindByKey(s.orders, r.user, r.key).None? && OtherKeys(steps, r)
    ensures FindByKey(Run(s, settings, steps).orders, r.user, r.key).None?
  {
    hide Inv, Apply, Evolves, OrderEvolves, FindByKey;
    if |steps| > 0 {
      var n := |steps| - 1;
      var before, after := Run(s, settings, steps[..n]), Run(s, settings, steps);
      KeyStaysUnused(s, settings, steps[..n], r);
      RunsKeepInv(s, settings, steps[..n]);
      StepKeepsInv(before, settings, steps[n]);
      StepAddsItsKey(before, settings, steps[n]);
      EvolvesParts(before, after);
      KeyExtends(before, after, r);
    }
  }

  /** What a creation writes that read the clock at time `at`. */
  function PlacedAt(s: Store, settings: Settings, r: Request, at: int): Store {
    if NewOrder(r).amount > 0 then Append(s, Holding(r, at + settings.holdMillis))
    else Admit(Append(s, Holding(r, at)), |s.orders|, ConfirmedFree(r, at))
  }

  lemma HoldsElsewhereStayElsewhere(a: Store, b: Store, user: UserId, event: EventId)
    requires OnlyReleasesAt(a, b, event) && !HasLiveHold(a, user, event)
    requires forall i :: 0 <= i < |a.orders| ==> OrderEvolves(a.orders[i], b.orders[i])
    ensures !HasLiveHold(b, user, event)
  {
    forall k | 0 <= k < |b.orders|
      ensures !(b.orders[k].user == user && b.orders[k].event == event && IsLive(b.orders[k].hold, b.now))
    {
      if k < |a.orders| && b.orders[k].event == event {
        assert OrderReleases(a.orders[k], b.orders[k]);
      }
    }
  }

  /** Nor need the creation of an order, paid or free, be instantaneous. */
  lemma InterleavedCreationIsSafe(s: Store, settings: Settings, r: Request, steps: seq<Step>)
    requires Inv(s) && Create(s, settings, r).1.Placed?
    requires AllAside(s, settings, steps, r.event) && OtherKeys(steps, r)
    ensures var after := PlacedAt(Run(s, settings, steps), settings, r, s.now);
            Inv(after) && Evolves(s, after)
  {
    hide Inv, Room, Run, Create, Evolves, OnSale, HasLiveHold, Admit, Append, OnlyReleasesAt, AllAside;
    var b := Run(s, settings, steps);
    CreationChecks(s, settings, r);
    RunsKeepInv(s, settings, steps);
    AsideRunsOnlyReleaseAt(s, settings, steps, r.event);
    RoomSurvives(s, b, NewOrder(r), |s.orders|, |b.orders|);
    KeyStaysUnused(s, settings, steps, r);
    EvolvesParts(s, b);
    HoldsElsewhereStayElsewhere(s, b, r.user, r.event);
    if NewOrder(r).amount > 0 {
      CreatePaidKeepsInv(b, r, s.now + settings.holdMillis);
    } else {
      CreateFreeKeepsInv(b, r, s.now);
    }
    EvolvesTransitive(s, b, PlacedAt(b, settings, r, s.now));
  }

  lemma EvolvesParts(a: Store, b: Store)
    requires Evolves(a, b)
    ensures a.now <= b.now && |a.orders| <= |b.orders|
    ensures forall i :: 0 <= i < |a.orders| ==> OrderEvolves(a.orders[i], b.orders[i])
  {}

  lemma CreationPlacesAtOnce(s: Store, settings: Settings, r: Request)
    requires Inv(s) && Create(s, settings, r).1.Placed?
    ensures Create(s, settings, r).0 == PlacedAt(s, settings, r, s.now)
  {
    hide Create, Place, Inv, Room;
    CreationChecks(s, settings, r);
    PlaceIs(s, settings, r);
  }
}
