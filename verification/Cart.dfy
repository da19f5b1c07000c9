/** Turning what a buyer typed into the canonical order that is hashed, priced and placed. */
module Cart {
  import opened Sums
  import opened CheckoutTypes
  import opened TicketIssuance

  datatype Line = Line(id: TicketId, quantity: nat)

  function QuantityIn(id: TicketId): Line -> nat {
    (line: Line) => if line.id == id then line.quantity else 0
  }

  /** How many of one ticket type a cart asks for, over all its lines. */
  function Total(cart: seq<Line>, id: TicketId): nat {
    Sum(cart, QuantityIn(id))
  }

  predicate Mentions(cart: seq<Line>, id: TicketId) {
    exists k :: 0 <= k < |cart| && cart[k].id == id
  }

  // ---------- Sorting the aggregated quantities ----------

  predicate IsLeast(id: TicketId, ids: set<TicketId>) {
    id in ids && forall other :: other in ids ==> id <= other
  }

  lemma {:induction false} LeastExists(ids: set<TicketId>)
    requires ids != {}
    ensures exists id :: IsLeast(id, ids)
  {
    var some :| some in ids;
    if ids == {some} {
      assert IsLeast(some, ids);
    } else {
      LeastExists(ids - {some});
      var least :| IsLeast(least, ids - {some});
      var id := if some < least then some else least;
      forall other | other in ids
        ensures id <= other
      {
        if other != some {
          assert other in ids - {some};
        }
      }
      assert IsLeast(id, ids);
    }
  }

  function Least(ids: set<TicketId>): (id: TicketId)
    requires ids != {}
    ensures IsLeast(id, ids)
  {
    LeastExists(ids);
    var id :| IsLeast(id, ids);
    id
  }

  /** The entries in ascending order of ticket type. */
  function Sorted(quantities: map<TicketId, nat>): seq<Line>
    decreases |quantities|
  {
    if quantities == map[] then []
    else
      var id := Least(quantities.Keys);
      assert |quantities - {id}| == |quantities| - 1;
      [Line(id, quantities[id])] + Sorted(quantities - {id})
  }

  predicate Ascending(lines: seq<Line>) {
    forall j, k :: 0 <= j < k < |lines| ==> lines[j].id < lines[k].id
  }

  predicate FromMap(lines: seq<Line>, quantities: map<TicketId, nat>) {
    forall k :: 0 <= k < |lines| ==> lines[k].id in quantities && quantities[lines[k].id] == lines[k].quantity
  }

  lemma {:induction false} SortedIsFaithful(quantities: map<TicketId, nat>)
    ensures Ascending(Sorted(quantities))
    ensures FromMap(Sorted(quantities), quantities)
    decreases |quantities|
  {
    if quantities != map[] {
      var least := Least(quantities.Keys);
      var rest := quantities - {least};
      assert |rest| == |quantities| - 1;
      SortedIsFaithful(rest);
      var tail := Sorted(rest);
      var lines := Sorted(quantities);
      assert lines == [Line(least, quantities[least])] + tail;
      forall k | 0 <= k < |lines|
        ensures lines[k].id in quantities && quantities[lines[k].id] == lines[k].quantity
        ensures k > 0 ==> least < lines[k].id
      {
        if k > 0 {
          assert lines[k] == tail[k - 1];
        }
      }
      forall j, k | 0 <= j < k < |lines|
        ensures lines[j].id < lines[k].id
      {
        if j > 0 {
          assert lines[j] == tail[j - 1] && lines[k] == tail[k - 1];
        }
      }
    }
  }

  lemma {:induction false} SortedIsComplete(quantities: map<TicketId, nat>, id: TicketId)
    requires id in quantities
    ensures Mentions(Sorted(quantities), id)
    decreases |quantities|
  {
    var least := Least(quantities.Keys);
    var rest := quantities - {least};
    assert |rest| == |quantities| - 1;
    var lines := Sorted(quantities);
    assert lines == [Line(least, quantities[least])] + Sorted(rest);
    if id == least {
      assert lines[0].id == id;
    } else {
      SortedIsComplete(rest, id);
      var k :| 0 <= k < |Sorted(rest)| && Sorted(rest)[k].id == id;
      assert lines[k + 1].id == id;
    }
  }

  // ---------- Aggregation ----------

  /** Adds up repeated ticket types, then sorts. */
  method Aggregate(cart: seq<Line>) returns (order: seq<Line>)
    ensures order == Canonical(cart)
  {
    var quantities: map<TicketId, nat> := map[];
    for k := 0 to |cart|
      invariant quantities == Quantities(cart[..k])
    {
      assert cart[..k + 1][..k] == cart[..k];
      var sofar := if cart[k].id in quantities then quantities[cart[k].id] else 0;
      quantities := quantities[cart[k].id := sofar + cart[k].quantity];
    }
    assert cart[..|cart|] == cart;
    order := Sorted(quantities);
  }

  function Quantities(cart: seq<Line>): map<TicketId, nat> {
    if |cart| == 0 then map[]
    else
      var before, last := Quantities(cart[..|cart| - 1]), cart[|cart| - 1];
      before[last.id := (if last.id in before then before[last.id] else 0) + last.quantity]
  }

  function Canonical(cart: seq<Line>): seq<Line> {
    Sorted(Quantities(cart))
  }

  lemma {:induction false} QuantitiesAreTotals(cart: seq<Line>)
    ensures forall id :: id in Quantities(cart) <==> Mentions(cart, id)
    ensures forall id :: id in Quantities(cart) ==> Quantities(cart)[id] == Total(cart, id)
    ensures forall id :: !Mentions(cart, id) ==> Total(cart, id) == 0
  {
    if |cart| > 0 {
      var front, last := cart[..|cart| - 1], cart[|cart| - 1];
      QuantitiesAreTotals(front);
      forall id
        ensures Mentions(cart, id) <==> Mentions(front, id) || id == last.id
      {
        if Mentions(front, id) {
          var k :| 0 <= k < |front| && front[k].id == id;
          assert cart[k].id == id;
        }
        if id == last.id {
          assert cart[|cart| - 1].id == id;
        }
        if Mentions(cart, id) && id != last.id {
          var k :| 0 <= k < |cart| && cart[k].id == id;
          assert front[k].id == id;
        }
      }
    }
  }

  /** The canonical order names each ticket type once, in ascending order, with the total the
      cart asked for, and leaves none out. */
  lemma CanonicalIsFaithful(cart: seq<Line>)
    ensures var order := Canonical(cart);
            && Ascending(order)
            && (forall k :: 0 <= k < |order| ==> order[k].quantity == Total(cart, order[k].id))
            && (forall id :: Mentions(order, id) <==> Mentions(cart, id))
  {
    QuantitiesAreTotals(cart);
    SortedIsFaithful(Quantities(cart));
    var order := Canonical(cart);
    forall id | Mentions(order, id)
      ensures Mentions(cart, id)
    {
      var k :| 0 <= k < |order| && order[k].id == id;
    }
    forall id | Mentions(cart, id)
      ensures Mentions(order, id)
    {
      SortedIsComplete(Quantities(cart), id);
    }
  }

  /** So both ask for the same total of each type. */
  lemma CanonicalKeepsTotals(cart: seq<Line>)
    ensures forall id :: Total(Canonical(cart), id) == Total(cart, id)
  {
    var order := Canonical(cart);
    CanonicalIsFaithful(cart);
    QuantitiesAreTotals(cart);
    QuantitiesAreTotals(order);
    hide Sum, Canonical;
    forall id
      ensures Total(order, id) == Total(cart, id)
    {
      if Mentions(order, id) {
        var k :| 0 <= k < |order| && order[k].id == id;
        SumOthers(order, k, QuantityIn(id));
        SumZero(Others(order, k), QuantityIn(id));
      }
    }
  }

  /** Two carts become the same order exactly when they name the same ticket types and ask
      for the same totals, however the lines are ordered or split.  So equal orders hash
      alike, and a retried checkout is recognised. */
  lemma SameTotalsSameOrder(a: seq<Line>, b: seq<Line>)
    ensures Canonical(a) == Canonical(b) <==>
            forall id :: Total(a, id) == Total(b, id) && (Mentions(a, id) <==> Mentions(b, id))
  {
    CanonicalIsFaithful(a);
    CanonicalIsFaithful(b);
    QuantitiesAreTotals(a);
    QuantitiesAreTotals(b);
    if forall id :: Total(a, id) == Total(b, id) && (Mentions(a, id) <==> Mentions(b, id)) {
      assert Quantities(a) == Quantities(b);
    }
    if Canonical(a) == Canonical(b) {
      forall id
        ensures Total(a, id) == Total(b, id) && (Mentions(a, id) <==> Mentions(b, id))
      {
        assert Mentions(Canonical(a), id) <==> Mentions(a, id);
        if Mentions(Canonical(a), id) {
          var k :| 0 <= k < |Canonical(a)| && Canonical(a)[k].id == id;
        }
      }
    }
  }

  lemma ReorderedLinesSameOrder(a: seq<Line>, b: seq<Line>)
    requires multiset(a) == multiset(b)
    ensures Canonical(a) == Canonical(b)
  {
    forall id
      ensures Total(a, id) == Total(b, id) && (Mentions(a, id) <==> Mentions(b, id))
    {
      SumReorders(a, b, QuantityIn(id));
      MentionsReorders(a, b, id);
      MentionsReorders(b, a, id);
    }
    SameTotalsSameOrder(a, b);
  }

  lemma MentionsReorders(a: seq<Line>, b: seq<Line>, id: TicketId)
    requires multiset(a) == multiset(b)
    ensures Mentions(a, id) ==> Mentions(b, id)
  {
    if Mentions(a, id) {
      var k :| 0 <= k < |a| && a[k].id == id;
      assert a[k] in multiset(b);
      assert a[k] in b;
    }
  }

  /** Asking for x and then y more of a ticket type is asking for x + y of it. */
  lemma SplitLinesSameOrder(before: seq<Line>, id: TicketId, x: nat, y: nat, after: seq<Line>)
    ensures Canonical(before + [Line(id, x), Line(id, y)] + after) == Canonical(before + [Line(id, x + y)] + after)
  {
    var split, joined := [Line(id, x), Line(id, y)], [Line(id, x + y)];
    var a, b := before + split + after, before + joined + after;
    forall other
      ensures Total(a, other) == Total(b, other) && (Mentions(a, other) <==> Mentions(b, other))
    {
      var f := QuantityIn(other);
      SumConcat(before + split, after, f);
      SumConcat(before + joined, after, f);
      SumConcat(before, split, f);
      SumConcat(before, joined, f);
      SumAppend([Line(id, x)], Line(id, y), f);
      SumAppend([], Line(id, x), f);
      SumAppend([], Line(id, x + y), f);
      assert split == [Line(id, x)] + [Line(id, y)];
      assert [] + [Line(id, x)] == [Line(id, x)] && [] + joined == joined;
      MentionsConcat(before + split, after, other);
      MentionsConcat(before + joined, after, other);
      MentionsConcat(before, split, other);
      MentionsConcat(before, joined, other);
      assert split[0].id == id && joined[0].id == id;
    }
    SameTotalsSameOrder(a, b);
  }

  lemma MentionsConcat(a: seq<Line>, b: seq<Line>, id: TicketId)
    ensures Mentions(a + b, id) <==> Mentions(a, id) || Mentions(b, id)
  {
    if Mentions(a, id) {
      var k :| 0 <= k < |a| && a[k].id == id;
      assert (a + b)[k].id == id;
    }
    if Mentions(b, id) {
      var k :| 0 <= k < |b| && b[k].id == id;
      assert (a + b)[|a| + k].id == id;
    }
  }

  /** The order as it is placed, each line with the unit price of its ticket type. */
  function Priced(order: seq<Line>, price: TicketId -> nat): seq<Item> {
    seq(|order|, k requires 0 <= k < |order| => Item(order[k].id, order[k].quantity, price(order[k].id)))
  }

  /** What checkout relies on: no ticket type twice. */
  lemma OrdersAreDistinct(cart: seq<Line>, price: TicketId -> nat)
    ensures DistinctTickets(Priced(Canonical(cart), price))
  {
    CanonicalIsFaithful(cart);
  }
}
