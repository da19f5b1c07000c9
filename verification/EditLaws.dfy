/** What an organiser's edits leave: said of the store's rows alone. */
module EditLaws {
  import opened Wrappers
  import opened CheckoutTypes
  import opened CheckoutInventory
  import opened CheckoutTransactions
  import opened CheckoutInvariant

  // ---------- One ticket type ----------

  /** How an edit of one type is refused, and that a refusal changes nothing. */
  lemma TicketEditAnswers(s: Store, event: EventId, edit: TicketEdit)
    ensures var (s', outcome) := EditTicket(s, event, edit);
            && outcome ==
                 (if edit.ticket !in s.ticketTypes then (if edit.price.Some? then Done else BadRequest)
                  else if s.ticketTypes[edit.ticket].event != event then Forbidden
                  else if edit.remaining.Some? && edit.remaining.value < Reserved(s.orders, edit.ticket, s.now)
                  then Conflict else Done)
            && (outcome != Done ==> s' == s)
  {}

  /** An accepted edit leaves a type with the stated stock for sale beside what is sold, or its
      stock as it was; price and visibility as stated, or as they were; and no other row
      touched.  A new type is visible and has nothing for sale unless stated. */
  lemma TicketEditWrites(s: Store, event: EventId, edit: TicketEdit)
    requires EditTicket(s, event, edit).1 == Done
    ensures var s' := EditTicket(s, event, edit).0;
            && s' == s.(ticketTypes := s'.ticketTypes)
            && s'.ticketTypes.Keys == s.ticketTypes.Keys + {edit.ticket}
            && (forall t :: t in s.ticketTypes && t != edit.ticket ==> s'.ticketTypes[t] == s.ticketTypes[t])
            && var t' := s'.ticketTypes[edit.ticket];
            && t'.event == event
            && (edit.remaining.Some? ==> t'.quantity - t'.sold == edit.remaining.value)
            && (edit.price.Some? ==> t'.price == edit.price.value)
            && (edit.visible.Some? ==> t'.visible == edit.visible.value)
            && (edit.ticket in s.ticketTypes ==>
                  var t := s.ticketTypes[edit.ticket];
                  && t'.sold == t.sold
                  && (edit.remaining.None? ==> t'.quantity == t.quantity)
                  && (edit.price.None? ==> t'.price == t.price)
                  && (edit.visible.None? ==> t'.visible == t.visible))
            && (edit.ticket !in s.ticketTypes ==>
                  && t'.sold == 0
                  && (edit.remaining.None? ==> t'.quantity == 0)
                  && (edit.visible.None? ==> t'.visible))
  {}

  // ---------- A whole form ----------

  function LastPrice(edits: seq<TicketEdit>, ticket: TicketId): Option<nat> {
    if |edits| == 0 then None
    else
      var last := edits[|edits| - 1];
      if last.ticket == ticket && last.price.Some? then last.price else LastPrice(edits[..|edits| - 1], ticket)
  }

  function LastVisible(edits: seq<TicketEdit>, ticket: TicketId): Option<bool> {
    if |edits| == 0 then None
    else
      var last := edits[|edits| - 1];
      if last.ticket == ticket && last.visible.Some? then last.visible else LastVisible(edits[..|edits| - 1], ticket)
  }

  predicate Names(edits: seq<TicketEdit>, ticket: TicketId) {
    exists k :: 0 <= k < |edits| && edits[k].ticket == ticket
  }

  /** A form leaves each type with the last stock, price and visibility it states for it, and
      with what it had where it states none. */
  lemma {:induction false} FormLeavesLastStated(s: Store, event: EventId, edits: seq<TicketEdit>, ticket: TicketId)
    requires EditTickets(s, event, edits).1 == Done
    ensures var s' := EditTickets(s, event, edits).0;
            && s' == s.(ticketTypes := s'.ticketTypes)
            && (ticket in s'.ticketTypes <==> ticket in s.ticketTypes || Names(edits, ticket))
            && (ticket in s'.ticketTypes ==>
                  var t' := s'.ticketTypes[ticket];
                  var stock, price := LastStock(edits, ticket), LastPrice(edits, ticket);
                  var visible := LastVisible(edits, ticket);
                  && (stock.Some? ==> t'.quantity - t'.sold == stock.value)
                  && (price.Some? ==> t'.price == price.value)
                  && (visible.Some? ==> t'.visible == visible.value)
                  && (ticket in s.ticketTypes ==>
                        var t := s.ticketTypes[ticket];
                        && t'.event == t.event && t'.sold == t.sold
                        && (stock.None? ==> t'.quantity == t.quantity)
                        && (price.None? ==> t'.price == t.price)
                        && (visible.None? ==> t'.visible == t.visible))
                  && (ticket !in s.ticketTypes ==>
                        && t'.event == event && t'.sold == 0
                        && (stock.None? ==> t'.quantity == 0)
                        && (visible.None? ==> t'.visible)))
  {
    if |edits| > 0 {
      var n := |edits| - 1;
      FormLeavesLastStated(s, event, edits[..n], ticket);
      TicketEditWrites(EditTickets(s, event, edits[..n]).0, event, edits[n]);
      NamesGrow(edits, ticket);
      StatedMeansNamed(edits[..n], ticket);
      hide EditTicket, Names;
    }
  }

  lemma {:induction false} StatedMeansNamed(edits: seq<TicketEdit>, ticket: TicketId)
    ensures LastStock(edits, ticket).Some? || LastPrice(edits, ticket).Some? || LastVisible(edits, ticket).Some? ==>
              Names(edits, ticket)
  {
    if |edits| > 0 {
      StatedMeansNamed(edits[..|edits| - 1], ticket);
      NamesGrow(edits, ticket);
      hide Names;
    }
  }

  lemma NamesGrow(edits: seq<TicketEdit>, ticket: TicketId)
    requires |edits| > 0
    ensures Names(edits, ticket) <==> Names(edits[..|edits| - 1], ticket) || edits[|edits| - 1].ticket == ticket
  {
    if Names(edits[..|edits| - 1], ticket) {
      var k :| 0 <= k < |edits| - 1 && edits[..|edits| - 1][k].ticket == ticket;
      assert edits[k].ticket == ticket;
    }
  }

  /** The first entry that is refused decides for the whole form. */
  lemma {:induction false} FirstRefusedEntryDecides(s: Store, event: EventId, edits: seq<TicketEdit>, k: nat)
    requires k < |edits| && EditTickets(s, event, edits[..k]).1 == Done
    requires EditTicket(EditTickets(s, event, edits[..k]).0, event, edits[k]).1 != Done
    ensures EditTickets(s, event, edits) == (s, EditTicket(EditTickets(s, event, edits[..k]).0, event, edits[k]).1)
    decreases |edits|
  {
    hide EditTicket;
    if k < |edits| - 1 {
      assert edits[..|edits| - 1][..k] == edits[..k];
      FirstRefusedEntryDecides(s, event, edits[..|edits| - 1], k);
    }
  }

  // ---------- The event ----------

  /** The form of an event is refused for an unknown event, for a capacity below what is taken,
      and otherwise only for what it says of ticket types. */
  lemma EventEditAnswers(s: Store, id: EventId, edit: EventEdit)
    ensures var (s', outcome) := UpdateEvent(s, id, edit);
            && (outcome != Done ==> s' == s)
            && (id !in s.events ==> outcome == NotFound)
            && (id in s.events && edit.capacity.Some? && edit.capacity.value < Occupancy(s, id, s.now) ==>
                  outcome == Conflict)
            && (id in s.events && !(edit.capacity.Some? && edit.capacity.value < Occupancy(s, id, s.now)) ==>
                  if s.events[id].kind == SellsTickets
                  then outcome == EditTickets(s, id, edit.tickets).1 else outcome == Done)
  {
    if id in s.events {
      EditsIgnoreEventRows(s, s.events[id := EditedEvent(s.events[id], edit)], id, edit.tickets);
    }
  }

  lemma {:induction false} EditsIgnoreEventRows(s: Store, events: map<EventId, Event>, event: EventId,
                                                edits: seq<TicketEdit>)
    ensures EditTickets(s.(events := events), event, edits) ==
            var (s', outcome) := EditTickets(s, event, edits);
            (s'.(events := events), outcome)
  {
    if |edits| > 0 {
      EditsIgnoreEventRows(s, events, event, edits[..|edits| - 1]);
    }
  }

  /** An accepted form sets the event's end as stated; fee and capacity too where the event
      takes registrations; ticket types where it sells tickets; and nothing else. */
  lemma EventEditWrites(s: Store, id: EventId, edit: EventEdit)
    requires UpdateEvent(s, id, edit).1 == Done
    ensures id in s.events
    ensures var s', e := UpdateEvent(s, id, edit).0, s.events[id];
            && s' == s.(events := s'.events, ticketTypes := s'.ticketTypes)
            && s'.events.Keys == s.events.Keys
            && (forall other :: other in s.events && other != id ==> s'.events[other] == s.events[other])
            && var e' := s'.events[id];
            && e'.kind == e.kind && e'.creator == e.creator
            && e'.end == (if edit.end.Some? then edit.end.value else e.end)
            && e'.fee == (if edit.fee.Some? && e.kind == TakesRegistrations then edit.fee.value else e.fee)
            && e'.capacity ==
                 (if edit.capacity.Some? && e.kind == TakesRegistrations then edit.capacity else e.capacity)
            && (if e.kind == SellsTickets then s'.ticketTypes == EditTickets(s, id, edit.tickets).0.ticketTypes
                else s'.ticketTypes == s.ticketTypes)
  {
    EditsIgnoreEventRows(s, s.events[id := EditedEvent(s.events[id], edit)], id, edit.tickets);
    EditsKeepRows(s, id, edit.tickets);
  }

  lemma {:induction false} EditsKeepRows(s: Store, event: EventId, edits: seq<TicketEdit>)
    ensures var s' := EditTickets(s, event, edits).0;
            s' == s.(ticketTypes := s'.ticketTypes)
  {
    if |edits| > 0 {
      EditsKeepRows(s, event, edits[..|edits| - 1]);
    }
  }

  // ---------- The ticket's own form ----------

  /** Only the organiser, and not below what is sold and held; the total is set as stated. */
  lemma StockEditIsExact(s: Store, user: UserId, ticket: TicketId, price: Option<nat>, visible: Option<bool>,
                         quantity: Option<int>)
    requires ticket in s.ticketTypes ==> s.ticketTypes[ticket].event in s.events
    ensures var (s', outcome) := UpdateTicket(s, user, ticket, price, visible, quantity);
            && (outcome != Done ==> s' == s)
            && outcome ==
                 (if ticket !in s.ticketTypes then NotFound
                  else if s.events[s.ticketTypes[ticket].event].creator != user then Forbidden
                  else if quantity.Some?
                          && quantity.value < s.ticketTypes[ticket].sold + Reserved(s.orders, ticket, s.now)
                  then Conflict else Done)
            && (outcome == Done ==>
                  && ticket in s.ticketTypes && s'.ticketTypes.Keys == s.ticketTypes.Keys
                  && s' == s.(ticketTypes := s'.ticketTypes)
                  && (forall t :: t in s.ticketTypes && t != ticket ==> s'.ticketTypes[t] == s.ticketTypes[t])
                  && var t, t' := s.ticketTypes[ticket], s'.ticketTypes[ticket];
                  && t'.event == t.event && t'.sold == t.sold
                  && (if quantity.Some? then t'.quantity == quantity.value else t'.quantity == t.quantity)
                  && (if price.Some? then t'.price == price.value else t'.price == t.price)
                  && (if visible.Some? then t'.visible == visible.value else t'.visible == t.visible))
  {}
}
