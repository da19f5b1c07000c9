/** Planning and creating admissions. */
module TicketIssuance {
  import opened Wrappers
  import opened CheckoutTypes
  import opened CheckoutInventory
  import opened Sums

  /** What is still to be issued of each item. */
  function PlanIssuance(tickets: seq<TicketRow>, order: OrderId, items: seq<Item>): Option<seq<Item>> {
    if exists k :: 0 <= k < |items| && Issued(tickets, order, items[k].ticket) > items[k].quantity then None
    else Some(seq(|items|, k requires 0 <= k < |items| => Outstanding(tickets, order, items[k])))
  }

  function Outstanding(tickets: seq<TicketRow>, order: OrderId, item: Item): Item {
    var already := Issued(tickets, order, item.ticket);
    item.(quantity := if already <= item.quantity then item.quantity - already else 0)
  }

  /** The rows of one planned item continue the numbering of those already issued. */
  function RowsOf(tickets: seq<TicketRow>, order: OrderId, item: Item): seq<TicketRow> {
    seq(item.quantity, k requires 0 <= k < item.quantity =>
      TicketRow(order, item.ticket, Issued(tickets, order, item.ticket) + k + 1))
  }

  function PlannedRows(tickets: seq<TicketRow>, order: OrderId, plan: seq<Item>): seq<TicketRow> {
    if |plan| == 0 then []
    else PlannedRows(tickets, order, plan[..|plan| - 1]) + RowsOf(tickets, order, plan[|plan| - 1])
  }

  function AddSold(types: map<TicketId, TicketType>, plan: seq<Item>): map<TicketId, TicketType> {
    map t | t in types :: types[t].(sold := types[t].sold + Quantity(plan, t))
  }

  predicate DistinctTickets(items: seq<Item>) {
    forall j, k :: 0 <= j < k < |items| ==> items[j].ticket != items[k].ticket
  }

  // ---------- Properties ----------

  lemma {:induction false} QuantityOfDistinct(items: seq<Item>, k: nat)
    requires DistinctTickets(items) && k < |items|
    ensures Quantity(items, items[k].ticket) == items[k].quantity
  {
    var n := |items| - 1;
    if k < n {
      QuantityOfDistinct(items[..n], k);
    } else {
      forall item | item in items[..n]
        ensures QuantityFor(items[k].ticket)(item) == 0
      {}
      SumZero(items[..n], QuantityFor(items[k].ticket));
    }
  }

  lemma QuantityOfAbsent(items: seq<Item>, ticket: TicketId)
    requires forall k :: 0 <= k < |items| ==> items[k].ticket != ticket
    ensures Quantity(items, ticket) == 0
  {
    forall item | item in items
      ensures QuantityFor(ticket)(item) == 0
    {}
    SumZero(items, QuantityFor(ticket));
  }

  lemma {:induction false} RowsCount(tickets: seq<TicketRow>, order: OrderId, item: Item, n: nat, other: OrderId,
                                     ticket: TicketId)
    requires n <= item.quantity
    ensures var rows := RowsOf(tickets, order, item)[..n];
            && Sum(rows, IssuedFor(other, ticket)) == (if other == order && ticket == item.ticket then n else 0)
            && Sum(rows, IssuedOf(ticket)) == (if ticket == item.ticket then n else 0)
  {
    if n > 0 {
      RowsCount(tickets, order, item, n - 1, other, ticket);
      var rows := RowsOf(tickets, order, item)[..n];
      assert rows[..n - 1] == RowsOf(tickets, order, item)[..n - 1];
    }
  }

  /** A plan creates exactly the planned number of rows of each type, all for one order. */
  lemma {:induction false} PlannedRowsCount(tickets: seq<TicketRow>, order: OrderId, plan: seq<Item>, other: OrderId,
                                            ticket: TicketId)
    ensures var rows := PlannedRows(tickets, order, plan);
            && Issued(rows, other, ticket) == (if other == order then Quantity(plan, ticket) else 0)
            && Sum(rows, IssuedOf(ticket)) == Quantity(plan, ticket)
            && (forall k :: 0 <= k < |rows| ==> rows[k].order == order)
  {
    if |plan| > 0 {
      var front, last := plan[..|plan| - 1], plan[|plan| - 1];
      PlannedRowsCount(tickets, order, front, other, ticket);
      var rows := RowsOf(tickets, order, last);
      RowsCount(tickets, order, last, last.quantity, other, ticket);
      assert rows[..last.quantity] == rows;
      SumConcat(PlannedRows(tickets, order, front), rows, IssuedFor(other, ticket));
      SumConcat(PlannedRows(tickets, order, front), rows, IssuedOf(ticket));
    }
  }

  /** Fulfilment keys never collide, neither with each other nor with those already used. */
  ghost predicate DistinctKeys(tickets: seq<TicketRow>) {
    forall j, k :: 0 <= j < k < |tickets| ==> tickets[j] != tickets[k]
  }

  lemma {:induction false} PlannedRowsBelong(tickets: seq<TicketRow>, order: OrderId, plan: seq<Item>, k: nat)
    requires k < |PlannedRows(tickets, order, plan)|
    ensures exists j :: 0 <= j < |plan| && plan[j].ticket == PlannedRows(tickets, order, plan)[k].ticket
  {
    var front := PlannedRows(tickets, order, plan[..|plan| - 1]);
    if k < |front| {
      PlannedRowsBelong(tickets, order, plan[..|plan| - 1], k);
      var j :| 0 <= j < |plan[..|plan| - 1]| && plan[..|plan| - 1][j].ticket == front[k].ticket;
      assert plan[j].ticket == PlannedRows(tickets, order, plan)[k].ticket;
    } else {
      assert plan[|plan| - 1].ticket == PlannedRows(tickets, order, plan)[k].ticket;
    }
  }

  lemma {:induction false} PlannedKeysDistinct(tickets: seq<TicketRow>, order: OrderId, plan: seq<Item>)
    requires DistinctTickets(plan)
    ensures DistinctKeys(PlannedRows(tickets, order, plan))
  {
    if |plan| > 0 {
      var n := |plan| - 1;
      PlannedKeysDistinct(tickets, order, plan[..n]);
      var front := PlannedRows(tickets, order, plan[..n]);
      forall k | 0 <= k < |front|
        ensures front[k].ticket != plan[n].ticket
      {
        PlannedRowsBelong(tickets, order, plan[..n], k);
      }
    }
  }

  /** The new rows of a type take up the numbering where the issued ones end. */
  predicate Continues(tickets: seq<TicketRow>, order: OrderId, plan: seq<Item>, row: TicketRow) {
    && row.order == order
    && Issued(tickets, order, row.ticket) < row.nth <= Issued(tickets, order, row.ticket) + Quantity(plan, row.ticket)
  }

  lemma {:induction false} PlannedRowsContinue(tickets: seq<TicketRow>, order: OrderId, plan: seq<Item>, k: nat)
    requires k < |PlannedRows(tickets, order, plan)|
    ensures Continues(tickets, order, plan, PlannedRows(tickets, order, plan)[k])
  {
    var n := |plan| - 1;
    var front := PlannedRows(tickets, order, plan[..n]);
    if k < |front| {
      PlannedRowsContinue(tickets, order, plan[..n], k);
    }
  }

  /** A plan exists exactly if no type has more admissions than ordered, and completes the
      order: what was issued and what is planned make up what was bought. */
  lemma PlanCompletesOrder(tickets: seq<TicketRow>, order: OrderId, items: seq<Item>)
    ensures var plan := PlanIssuance(tickets, order, items);
            && (plan.Some? <==>
                  forall k :: 0 <= k < |items| ==> Issued(tickets, order, items[k].ticket) <= items[k].quantity)
            && (plan.Some? ==>
                  && |plan.value| == |items|
                  && forall k :: 0 <= k < |items| ==>
                       && plan.value[k].ticket == items[k].ticket && plan.value[k].price == items[k].price
                       && Issued(tickets, order, items[k].ticket) + plan.value[k].quantity == items[k].quantity)
  {
    hide Issued;
  }

  lemma IssuedWhenPresent(tickets: seq<TicketRow>, k: nat)
    requires k < |tickets|
    ensures Issued(tickets, tickets[k].order, tickets[k].ticket) > 0
  {
    SumAtLeast(tickets, k, IssuedFor(tickets[k].order, tickets[k].ticket));
  }
}
