/** Places when everybody who has registered is counted, whether scanned already or not. */
module CheckoutSeats {
  import opened Wrappers
  import opened PaymentPricing
  import opened CheckoutTypes
  import opened CheckoutInventory
  import opened CheckoutTransactions
  import opened CheckoutInvariant
  import opened CheckoutRuns
  import opened Sums

  function StandingIn(event: EventId): RegistrationRow -> nat {
    (row: RegistrationRow) => if row.event == event && row.status != Withdrawn then 1 else 0
  }

  function UsedIn(event: EventId): RegistrationRow -> nat {
    (row: RegistrationRow) => if row.event == event && row.status == Used then 1 else 0
  }

  /** Everybody with a place: registered and not withdrawn, sponsored, or holding. */
  function Seats(s: Store, event: EventId): nat {
    Sum(s.registrations, StandingIn(event))
    + Sum(s.orders, SponsoredIn(event))
    + Sum(s.orders, PlacesHeldIn(event, s.now))
  }

  /** As many people as places, in every event that limits them. */
  ghost predicate SeatsFit(s: Store) {
    forall e :: e in s.events && s.events[e].capacity.Some? ==> Seats(s, e) <= Usable(s.events[e].capacity.value)
  }

  lemma {:induction false} StandingIsActiveOrUsed(rows: seq<RegistrationRow>, event: EventId)
    ensures Sum(rows, StandingIn(event)) == Sum(rows, ActiveIn(event)) + Sum(rows, UsedIn(event))
  {
    if |rows| > 0 {
      StandingIsActiveOrUsed(rows[..|rows| - 1], event);
    }
  }

  /** The program's own count leaves out exactly those scanned. */
  lemma SeatsAreOccupancyAndUsed(s: Store, event: EventId)
    ensures Seats(s, event) == Occupancy(s, event, s.now) + Sum(s.registrations, UsedIn(event))
  {
    StandingIsActiveOrUsed(s.registrations, event);
    NobodyAt(s.orders, PlacesHeldIn(event, s.now));
  }

  /** As long as nobody has been scanned, the invariant is the full bound. */
  lemma SeatsFitUntilScanned(s: Store)
    requires Inv(s) && forall k :: 0 <= k < |s.registrations| ==> s.registrations[k].status != Used
    ensures SeatsFit(s)
  {
    forall e | e in s.events && s.events[e].capacity.Some?
      ensures Seats(s, e) <= Usable(s.events[e].capacity.value)
    {
      SeatsAreOccupancyAndUsed(s, e);
      SumZero(s.registrations, UsedIn(e));
      assert Occupancy(s, e, s.now) <= Usable(s.events[e].capacity.value);
    }
  }

  // ---------- What each kind of change does to the count ----------

  lemma ReleasesKeepSeats(a: Store, b: Store)
    requires OrdersSound(a) && Releases(a, b) && SeatsFit(a)
    ensures SeatsFit(b)
  {
    hide Sum;
    forall e | e in b.events && b.events[e].capacity.Some?
      ensures Seats(b, e) <= Usable(b.events[e].capacity.value)
    {
      SumPointwise(b.registrations, a.registrations, StandingIn(e), StandingIn(e));
      SumPointwise(b.orders, a.orders, PlacesHeldIn(e, b.now), PlacesHeldIn(e, a.now));
      SumPointwise(b.orders, a.orders, SponsoredIn(e), SponsoredIn(e));
      assert Seats(a, e) <= Usable(a.events[e].capacity.value);
    }
  }

  /** Whether an order asks for a place in an event. */
  predicate WantsPlace(order: Order, event: EventId) {
    order.event == event && order.purchase.Registration?
  }

  /** An admission takes a place unless a live hold had it already. */
  lemma AdmissionTakesSeat(s: Store, id: OrderId, order: Order, e: EventId)
    requires OrdersSound(s) && RowsRefer(s) && MayBecome(s, id, order)
    ensures Seats(Admit(s, id, order), e) ==
            Seats(s, e) + if WantsPlace(order, e) && !IsLive(s.orders[id].hold, s.now) then 1 else 0
  {
    hide Admit, Sum;
    UnadmittedIsFresh(s, id);
    AdmitRows(s, id, order);
    assert Coherent(s.orders[id]);
    var places, sponsored := PlacesHeldIn(e, s.now), SponsoredIn(e);
    SumUpdate(s.orders, id, order, places);
    SumOthers(s.orders, id, places);
    SumUpdate(s.orders, id, order, sponsored);
    SumOthers(s.orders, id, sponsored);
    SumAppend(s.registrations, RegistrationRow(id, order.event, order.user, Active), StandingIn(e));
    assert s.registrations + [] == s.registrations;
  }

  /** So does a new live hold. */
  lemma HoldTakesSeat(s: Store, order: Order, e: EventId)
    requires HasStatus(order, Held)
    ensures Seats(Append(s, order), e) ==
            Seats(s, e) + if WantsPlace(order, e) && IsLive(order.hold, s.now) then 1 else 0
  {
    SumAppend(s.orders, order, PlacesHeldIn(e, s.now));
    SumAppend(s.orders, order, SponsoredIn(e));
    hide Sum;
  }

  // ---------- When the full bound survives a step ----------

  /** There is a seat left in an event that limits them. */
  predicate SeatLeft(s: Store, event: EventId) {
    event in s.events && s.events[event].capacity.Some? ==> Seats(s, event) < Usable(s.events[event].capacity.value)
  }

  predicate PaymentFits(s: Store, id: OrderId, p: Payment) {
    && id < |s.orders|
    && !IsSettled(s.orders[id].status)
    && Complete(s, id, p).0.orders[id].status == Success
    && s.orders[id].purchase.Registration?
    && !IsLive(s.orders[id].hold, s.now)
    ==> SeatLeft(s, s.orders[id].event)
  }

  /** A creation takes a seat at once unless its hold is worth nothing. */
  predicate CreationFits(s: Store, settings: Settings, r: Request) {
    && Create(s, settings, r).1.Placed?
    && r.purchase.Registration?
    && (r.pricing.charge <= 0 || settings.holdMillis > 0)
    ==> SeatLeft(s, r.event)
  }

  /** An edit may not cut the capacity below everybody with a place. */
  predicate CapacityFits(s: Store, id: EventId, edit: EventEdit) {
    UpdateEvent(s, id, edit).1 == Done ==>
      var capacity := EditedEvent(s.events[id], edit).capacity;
      capacity.Some? ==> Seats(s, id) <= Usable(capacity.value)
  }

  predicate StepSeats(s: Store, settings: Settings, step: Step) {
    match step
    case StartCheckout(r) => CreationFits(s, settings, r)
    case Pay(id, p) => PaymentFits(s, id, p)
    case EditEvent(id, edit) => CapacityFits(s, id, edit)
    case _ => true
  }

  /** Adding at most one seat, in one event, keeps the bound exactly if one was left there. */
  lemma OneMoreSeat(a: Store, b: Store, event: EventId, taken: bool)
    requires SeatsFit(a) && b.events == a.events
    requires forall e :: e in a.events ==> Seats(b, e) == Seats(a, e) + if e == event && taken then 1 else 0
    ensures SeatsFit(b) <==> (taken ==> SeatLeft(a, event))
  {
    hide Seats;
    if SeatsFit(b) && taken && event in a.events && a.events[event].capacity.Some? {
      assert Seats(b, event) <= Usable(b.events[event].capacity.value);
    }
    if taken ==> SeatLeft(a, event) {
      forall e | e in b.events && b.events[e].capacity.Some?
        ensures Seats(b, e) <= Usable(b.events[e].capacity.value)
      {
        assert Seats(a, e) <= Usable(a.events[e].capacity.value);
      }
    }
  }

  lemma AdmissionFitsExactly(s: Store, id: OrderId, order: Order)
    requires OrdersSound(s) && RowsRefer(s) && MayBecome(s, id, order) && SeatsFit(s)
    ensures SeatsFit(Admit(s, id, order)) <==>
            (order.purchase.Registration? && !IsLive(s.orders[id].hold, s.now) ==> SeatLeft(s, order.event))
  {
    var taken := order.purchase.Registration? && !IsLive(s.orders[id].hold, s.now);
    var b := Admit(s, id, order);
    forall e | e in s.events
      ensures Seats(b, e) == Seats(s, e) + if e == order.event && taken then 1 else 0
    {
      AdmissionTakesSeat(s, id, order, e);
    }
    UnadmittedIsFresh(s, id);
    AdmitRows(s, id, order);
    hide Admit, Seats, SeatsFit;
    OneMoreSeat(s, b, order.event, taken);
  }

  /** Completing an open order keeps the full bound exactly if it finds no success, no
      registration, its own hold live, or a seat left. */
  lemma PaymentFitsExactly(s: Store, id: OrderId, p: Payment)
    requires Inv(s) && SeatsFit(s)
    ensures SeatsFit(Complete(s, id, p).0) <==> PaymentFits(s, id, p)
  {
    var s' := Complete(s, id, p).0;
    hide SeatsFit, Sum, Seats;
    if s' != s {
      var order := s.orders[id];
      RefundReleases(s, id, p);
      if s' == WithOrder(s, id, RequireRefund(order, p)) {
        ReleasesKeepSeats(s, s');
      } else {
        CheckGivesRoom(s, order, id, false);
        FulfilAdmits(s, id, p);
        var settled := Settle(order.(hold := ConfirmHold(order.hold, s.now), hasJob := true), s.now, p);
        AdmissionFitsExactly(s, id, settled);
      }
    }
  }

  lemma CreationFitsExactly(s: Store, settings: Settings, r: Request)
    requires Inv(s) && SeatsFit(s)
    ensures SeatsFit(Create(s, settings, r).0) <==> CreationFits(s, settings, r)
  {
    hide SeatsFit, Sum, Seats, Create, Place, Room, OnSale, Admit;
    if Create(s, settings, r).1.Placed? {
      CreationChecks(s, settings, r);
      PlaceIs(s, settings, r);
      if NewOrder(r).amount > 0 {
        HeldOrderFits(s, Holding(r, s.now + settings.holdMillis));
      } else {
        FreeOrderFits(s, r);
      }
    } else {
      UnlessPlacedUnchanged(s, settings, r);
    }
  }

  lemma HeldOrderFits(s: Store, order: Order)
    requires SeatsFit(s) && HasStatus(order, Held)
    ensures SeatsFit(Append(s, order)) <==>
            (order.purchase.Registration? && IsLive(order.hold, s.now) ==> SeatLeft(s, order.event))
  {
    forall e | e in s.events
      ensures Seats(Append(s, order), e) == Seats(s, e) +
              if e == order.event && order.purchase.Registration? && IsLive(order.hold, s.now) then 1 else 0
    {
      HoldTakesSeat(s, order, e);
    }
    hide Seats, SeatsFit;
    OneMoreSeat(s, Append(s, order), order.event, order.purchase.Registration? && IsLive(order.hold, s.now));
  }

  lemma FreeOrderFits(s: Store, r: Request)
    requires Inv(s) && SeatsFit(s) && IsPlain(ItemsOf(NewOrder(r))) && OnSale(s, NewOrder(r))
    requires FindByKey(s.orders, r.user, r.key).None? && Room(s, NewOrder(r), |s.orders|, s.now)
    ensures var after := Admit(Append(s, Holding(r, s.now)), |s.orders|, ConfirmedFree(r, s.now));
            SeatsFit(after) <==> (r.purchase.Registration? ==> SeatLeft(s, r.event))
  {
    var order := Holding(r, s.now);
    var placed := Append(s, order);
    FreeOrderIsPlaced(s, r, s.now);
    HeldOrderFits(s, order);
    HoldTakesSeat(s, order, r.event);
    hide SeatsFit, Seats, Room, OnSale, Admit;
    AdmissionFitsExactly(placed, |s.orders|, ConfirmedFree(r, s.now));
  }

  lemma CapacityFitsExactly(s: Store, id: EventId, edit: EventEdit)
    requires SeatsFit(s)
    ensures SeatsFit(UpdateEvent(s, id, edit).0) <==> CapacityFits(s, id, edit)
  {
    var (s', outcome) := UpdateEvent(s, id, edit);
    if outcome == Done {
      EditsKeepTables(s.(events := s.events[id := EditedEvent(s.events[id], edit)]), id, edit.tickets);
      assert s'.events == s.events[id := EditedEvent(s.events[id], edit)];
      forall e
        ensures Seats(s', e) == Seats(s, e)
      {}
      hide Seats, UpdateEvent;
      if SeatsFit(s') && s'.events[id].capacity.Some? {
        assert Seats(s', id) <= Usable(s'.events[id].capacity.value);
      }
    }
  }

  lemma {:induction false} EditsKeepTables(s: Store, event: EventId, edits: seq<TicketEdit>)
    ensures var s' := EditTickets(s, event, edits).0;
            s' == s.(ticketTypes := s'.ticketTypes)
  {
    if |edits| > 0 {
      EditsKeepTables(s, event, edits[..|edits| - 1]);
    }
  }

  /** Every step keeps the full bound exactly if it fits. */
  lemma StepKeepsSeatsExactly(s: Store, settings: Settings, step: Step)
    requires Inv(s) && SeatsFit(s)
    ensures SeatsFit(Apply(s, settings, step)) <==> StepSeats(s, settings, step)
  {
    hide SeatsFit, Inv, Create, Complete, UpdateEvent, OrdersSound, Seats;
    match step
    case StartCheckout(r) => CreationFitsExactly(s, settings, r);
    case Pay(id, p) => PaymentFitsExactly(s, id, p);
    case EditEvent(id, edit) => CapacityFitsExactly(s, id, edit);
    case EditStock(user, ticket, price, visible, quantity) => StockEditKeepsSeats(s, settings, step);
    case _ =>
      SoundOrders(s);
      ReleaseStep(s, settings, step);
      ReleasesKeepSeats(s, Apply(s, settings, step));
  }

  lemma SoundOrders(s: Store)
    requires Inv(s)
    ensures OrdersSound(s)
  {}

  lemma StockEditKeepsSeats(s: Store, settings: Settings, step: Step)
    requires step.EditStock? && SeatsFit(s)
    ensures SeatsFit(Apply(s, settings, step))
  {
    var s' := Apply(s, settings, step);
    forall e
      ensures Seats(s', e) == Seats(s, e)
    {}
  }

  // ---------- Runs ----------

  /** The full bound at every moment of a run. */
  ghost predicate SeatsFitThroughout(s: Store, settings: Settings, steps: seq<Step>) {
    && SeatsFit(Run(s, settings, steps))
    && (|steps| > 0 ==> SeatsFitThroughout(s, settings, steps[..|steps| - 1]))
  }

  ghost predicate EveryStepSeats(s: Store, settings: Settings, steps: seq<Step>) {
    |steps| > 0 ==>
      var before := steps[..|steps| - 1];
      EveryStepSeats(s, settings, before) && StepSeats(Run(s, settings, before), settings, steps[|steps| - 1])
  }

  /** Lifted to runs: there are never more people than places exactly when every creation,
      payment and capacity edit fits at its moment. */
  lemma {:induction false} SeatsFitExactly(s: Store, settings: Settings, steps: seq<Step>)
    requires Inv(s) && SeatsFit(s)
    ensures SeatsFitThroughout(s, settings, steps) <==> EveryStepSeats(s, settings, steps)
  {
    hide Inv, Evolves, SeatsFit, StepSeats, Apply;
    if |steps| > 0 {
      var before := steps[..|steps| - 1];
      SeatsFitExactly(s, settings, before);
      RunsKeepInv(s, settings, before);
      if SeatsFitThroughout(s, settings, before) {
        assert SeatsFit(Run(s, settings, before));
        StepKeepsSeatsExactly(Run(s, settings, before), settings, steps[|steps| - 1]);
      }
    }
  }

  // ---------- More people than places ----------

  /** Occupancy counts active registrations, so scanning one gives its place away again:
      occupancy drops by exactly one, once. */
  lemma ScanningFreesAPlace(s: Store, k: nat, event: EventId)
    requires k < |s.registrations|
    ensures var row, after := s.registrations[k], ScanRegistration(s, k);
            && Occupancy(after, event, s.now) ==
                 Occupancy(s, event, s.now) - (if row.status == Active && row.event == event then 1 else 0)
            && ScanRegistration(after, k) == after
            && |after.registrations| == |s.registrations|
  {
    var used := s.registrations[k].(status := Used);
    SumUpdate(s.registrations, k, used, ActiveIn(event));
    SumOthers(s.registrations, k, ActiveIn(event));
    hide Sum;
  }

  // One place and no fee.  One person registers and is scanned, and a second registers.

  const HALL: Event := Event(TakesRegistrations, 9, 1000, Some(1), 0)
  const NOTHING: Summary := Summary(0, 0, 0, 0, 0, 0, 0, 0, 0, 0)
  const EMPTY_HALL := Store(0, map[0 := HALL], map[], [], [], [])

  function Joining(user: UserId): Request {
    Request(user, 0, 0, 0, Paystack, Registration(false, 0), NOTHING)
  }

  const CROWD: seq<Step> := [StartCheckout(Joining(1)), Scan(0), StartCheckout(Joining(2))]

  const JOINED := EMPTY_HALL.(
    orders := [ConfirmedFree(Joining(1), 0)], registrations := [RegistrationRow(0, 0, 1, Active)])
  const SCANNED := JOINED.(registrations := [RegistrationRow(0, 0, 1, Used)])
  const CROWDED := SCANNED.(
    orders := [ConfirmedFree(Joining(1), 0), ConfirmedFree(Joining(2), 0)],
    registrations := [RegistrationRow(0, 0, 1, Used), RegistrationRow(1, 0, 2, Active)])

  lemma FirstJoins()
    ensures Create(EMPTY_HALL, SHORT_HOLDS, Joining(1)).0 == JOINED
  {}

  /** The second finds nobody active. */
  lemma SecondFits()
    ensures AssertCapacity(SCANNED, 2, 0, Registration(false, 0), 1, true) == Fits([])
    ensures !HasLiveHold(SCANNED, 2, 0) && FindByKey(SCANNED.orders, 2, 0).None?
  {
    var rows, orders := SCANNED.registrations, SCANNED.orders;
    assert rows[..0] == [] && orders[..0] == [];
    assert Others(orders, 1) == orders;
  }

  lemma SecondIsPlaced()
    ensures Place(SCANNED, SHORT_HOLDS, Joining(2), []) == CROWDED
  {}

  lemma SecondJoins()
    ensures Create(SCANNED, SHORT_HOLDS, Joining(2)).0 == CROWDED
  {
    hide AssertCapacity, HasLiveHold, FindByKey, Place;
    SecondFits();
    SecondIsPlaced();
  }

  lemma CrowdLeadsThere()
    ensures Run(EMPTY_HALL, SHORT_HOLDS, CROWD) == CROWDED
  {
    var a, b, c := CROWD[0], CROWD[1], CROWD[2];
    assert Apply(JOINED, SHORT_HOLDS, b) == SCANNED;
    assert Run(EMPTY_HALL, SHORT_HOLDS, []) == EMPTY_HALL;
    hide Run, Create;
    FirstJoins();
    SecondJoins();
    assert Apply(EMPTY_HALL, SHORT_HOLDS, a) == JOINED && Apply(SCANNED, SHORT_HOLDS, c) == CROWDED;
    hide Apply;
    RunMore(EMPTY_HALL, SHORT_HOLDS, [], a);
    RunMore(EMPTY_HALL, SHORT_HOLDS, [a], b);
    RunMore(EMPTY_HALL, SHORT_HOLDS, [a, b], c);
    assert [] + [a] == [a] && [a] + [b] == [a, b] && [a, b] + [c] == CROWD;
  }

  lemma CrowdIsSeated()
    ensures Seats(CROWDED, 0) == 2
  {
    var used, active := CROWDED.registrations[0], CROWDED.registrations[1];
    assert CROWDED.registrations == [] + [used] + [active];
    SumAppend([], used, StandingIn(0));
    SumAppend([] + [used], active, StandingIn(0));
    SumZero(CROWDED.orders, SponsoredIn(0));
    SumZero(CROWDED.orders, PlacesHeldIn(0, 0));
  }

  lemma MorePeopleThanPlaces()
    ensures Inv(EMPTY_HALL) && SeatsFit(EMPTY_HALL)
    ensures var r := Run(EMPTY_HALL, SHORT_HOLDS, CROWD);
            && |r.registrations| == 2 && r.registrations[0].user != r.registrations[1].user
            && 0 in r.events && r.events[0].capacity == Some(1) && Seats(r, 0) == 2
  {
    EmptyStoreIsSound(0, EMPTY_HALL.events, EMPTY_HALL.ticketTypes);
    SeatsFitUntilScanned(EMPTY_HALL);
    CrowdLeadsThere();
    CrowdIsSeated();
    hide Run, Inv, SeatsFit, Seats;
  }
}
