/** Money over whole runs: what was quoted is what is settled or refunded. */
module CheckoutBooks {
  import Cart
  import opened PaymentPricing
  import opened CheckoutTypes
  import opened CheckoutTransactions
  import opened CheckoutInvariant
  import opened CheckoutRuns
  import opened Sums

  function TotalPrice(items: seq<Item>): nat {
    if |items| == 0 then 0
    else
      var last := items[|items| - 1];
      TotalPrice(items[..|items| - 1]) + last.quantity * last.price
  }

  /** The price of the goods alone. */
  function Gross(purchase: Purchase): nat {
    match purchase
    case Tickets(items) => TotalPrice(items)
    case Registration(_, price) => price
  }

  function QuoteFor(cfg: Config, purchase: Purchase, provider: Provider): Summary {
    QuoteSummary(cfg, Gross(purchase), provider)
  }

  function BaseAmount(order: Order): int {
    if order.pricing.gross > 0 then order.pricing.gross else order.amount
  }

  /** The payment endpoints price a request before they create it, and a collected payment
      before they complete it. */
  predicate Priced(cfg: Config, s: Store, step: Step) {
    match step
    case StartCheckout(r) => r.pricing == QuoteFor(cfg, r.purchase, r.provider)
    case Pay(id, p) =>
      id < |s.orders| ==>
        p.pricing == SettledSummary(cfg, BaseAmount(s.orders[id]), s.orders[id].provider, p.collected, p.providerFee)
    case _ => true
  }

  /** An order that is still open carries its quote; a successful one collected exactly the
      quote and splits it without loss; a refunded one gives back all it collected and owes
      nobody anything. */
  predicate BooksBalance(cfg: Config, order: Order) {
    var quote := QuoteFor(cfg, order.purchase, order.provider);
    && (!IsSettled(order.status) ==> order.pricing == quote && order.amount == quote.charge > 0)
    && (order.status == Success ==>
          && order.amount == order.pricing.charge == quote.charge
          && order.pricing.gross == Gross(order.purchase) && Balanced(order.pricing)
          && order.creatorPayable == order.pricing.creatorPayable
          && order.platformFee == order.pricing.platformFee == quote.platformFee
          && order.providerFee == order.pricing.providerFee)
    && (order.refund.Some? ==>
          order.refund.value.amount == order.amount && order.creatorPayable == 0 && order.platformFee == 0)
  }

  predicate AllBalance(cfg: Config, s: Store) {
    forall i :: 0 <= i < |s.orders| ==> BooksBalance(cfg, s.orders[i])
  }

  lemma FreeOrdersCostNothing(cfg: Config, provider: Provider)
    ensures QuoteSummary(cfg, 0, provider).charge == 0
  {}

  lemma SettlingBalances(cfg: Config, order: Order, now: int, p: Payment)
    requires BooksBalance(cfg, order) && !IsSettled(order.status) && order.amount == p.collected
    requires order.refund.None?
    requires p.pricing == SettledSummary(cfg, BaseAmount(order), order.provider, p.collected, p.providerFee)
    ensures BooksBalance(cfg, Settle(order, now, p))
  {
    var gross := Gross(order.purchase);
    FreeOrdersCostNothing(cfg, order.provider);
    SettlingTheQuoteBalances(cfg, gross, order.provider, p.providerFee);
    hide Quote, ProviderFee, PlatformFee;
  }

  /** Only new orders and settled payments touch the books. */
  predicate SameBooks(a: Order, b: Order) {
    && a.purchase == b.purchase && a.provider == b.provider && a.pricing == b.pricing && a.amount == b.amount
    && a.platformFee == b.platformFee && a.providerFee == b.providerFee && a.creatorPayable == b.creatorPayable
    && (a.status == Success <==> b.status == Success) && (IsSettled(a.status) <==> IsSettled(b.status))
    && (a.refund.Some? <==> b.refund.Some?) && (a.refund.Some? ==> a.refund.value.amount == b.refund.value.amount)
  }

  predicate LeavesOrders(step: Step) {
    step.Tick? || step.EditEvent? || step.EditStock? || step.Scan? || step.Withdraw?
  }

  lemma ExpiryKeepsBooks(s: Store)
    ensures var s' := ExpireHolds(s);
            |s'.orders| == |s.orders| && forall i :: 0 <= i < |s.orders| ==> SameBooks(s.orders[i], s'.orders[i])
  {}

  lemma ConfirmationKeepsBooks(s: Store, id: OrderId, reference: string)
    requires id < |s.orders| ==> Coherent(s.orders[id])
    ensures var s' := ConfirmRefund(s, id, reference);
            |s'.orders| == |s.orders| && forall i :: 0 <= i < |s.orders| ==> SameBooks(s.orders[i], s'.orders[i])
  {}

  lemma CancellationKeepsBooks(s: Store, id: OrderId, user: UserId)
    requires id < |s.orders| ==> Coherent(s.orders[id])
    ensures var s' := Cancel(s, id, user).0;
            |s'.orders| == |s.orders| && forall i :: 0 <= i < |s.orders| ==> SameBooks(s.orders[i], s'.orders[i])
  {}

  lemma OrderStepsKeepBooks(s: Store, settings: Settings, step: Step)
    requires OrdersSound(s) && !step.StartCheckout? && !step.Pay? && !LeavesOrders(step)
    ensures var s' := Apply(s, settings, step);
            |s'.orders| == |s.orders| && forall i :: 0 <= i < |s.orders| ==> SameBooks(s.orders[i], s'.orders[i])
  {
    assert forall i :: 0 <= i < |s.orders| ==> Coherent(s.orders[i]);
    hide OrdersSound, Coherent, SameBooks, ExpireHolds, ConfirmRefund, Cancel;
    match step
    case Expiry => ExpiryKeepsBooks(s);
    case RefundConfirmed(id, reference) => ConfirmationKeepsBooks(s, id, reference);
    case CancelCheckout(id, user) => CancellationKeepsBooks(s, id, user);
    case _ => InitializationKeepsBooks(s, settings, step);
  }

  lemma InitializationKeepsBooks(s: Store, settings: Settings, step: Step)
    requires step.ProviderClaimed? || step.ProviderReady? || step.ProviderFailed? || step.PaymentFailed?
    ensures var s' := Apply(s, settings, step);
            |s'.orders| == |s.orders| && forall i :: 0 <= i < |s.orders| ==> SameBooks(s.orders[i], s'.orders[i])
  {}

  lemma OtherStepsKeepBooks(s: Store, settings: Settings, step: Step)
    requires OrdersSound(s) && !step.StartCheckout? && !step.Pay?
    ensures var s' := Apply(s, settings, step);
            |s'.orders| == |s.orders| && forall i :: 0 <= i < |s.orders| ==> SameBooks(s.orders[i], s'.orders[i])
  {
    hide Apply, OrdersSound;
    if LeavesOrders(step) {
      OrganisersLeaveOrders(s, settings, step);
    } else {
      OrderStepsKeepBooks(s, settings, step);
    }
  }

  lemma OrganisersLeaveOrders(s: Store, settings: Settings, step: Step)
    requires LeavesOrders(step)
    ensures Apply(s, settings, step).orders == s.orders
  {
    if step.EditEvent? {
      UpdateEventKeepsOrders(s, step.event, step.edit);
      hide UpdateEvent;
    }
  }

  lemma UpdateEventKeepsOrders(s: Store, id: EventId, edit: EventEdit)
    ensures UpdateEvent(s, id, edit).0.orders == s.orders
  {
    if id in s.events {
      EditsKeepOrders(s.(events := s.events[id := EditedEvent(s.events[id], edit)]), id, edit.tickets);
    }
  }

  lemma {:induction false} EditsKeepOrders(s: Store, event: EventId, edits: seq<TicketEdit>)
    ensures EditTickets(s, event, edits).0.orders == s.orders
  {
    if |edits| > 0 {
      EditsKeepOrders(s, event, edits[..|edits| - 1]);
    }
  }

  lemma CreateKeepsBooks(cfg: Config, s: Store, settings: Settings, r: Request)
    requires Inv(s) && AllBalance(cfg, s) && r.pricing == QuoteFor(cfg, r.purchase, r.provider)
    ensures AllBalance(cfg, Create(s, settings, r).0)
  {
    hide Create, Place, Inv, QuoteSummary;
    if Create(s, settings, r).1.Placed? {
      CreationChecks(s, settings, r);
      PlaceIs(s, settings, r);
      QuoteBalances(cfg, Gross(r.purchase), r.provider);
      QuoteIsConsistent(cfg, Gross(r.purchase), r.provider);
      var placed := Append(s, Holding(r, s.now));
      var free := ConfirmedFree(r, s.now);
      assert Admit(placed, |s.orders|, free).orders == placed.orders[|s.orders| := free];
    } else {
      UnlessPlacedUnchanged(s, settings, r);
    }
  }

  lemma QuoteIsConsistent(cfg: Config, base: int, provider: Provider)
    requires base >= 0
    ensures QuoteSummary(cfg, base, provider).gross == base && QuoteSummary(cfg, base, provider).charge >= 0
  {
    QuoteBalances(cfg, base, provider);
  }

  lemma PayKeepsBooks(cfg: Config, s: Store, id: OrderId, p: Payment)
    requires Inv(s) && AllBalance(cfg, s) && id < |s.orders|
    requires p.pricing ==
             SettledSummary(cfg, BaseAmount(s.orders[id]), s.orders[id].provider, p.collected, p.providerFee)
    ensures AllBalance(cfg, Complete(s, id, p).0)
  {
    hide QuoteSummary, SettledSummary;
    var order, after := s.orders[id], Complete(s, id, p).0;
    assert Coherent(order);
    if after != s && after != WithOrder(s, id, RequireRefund(order, p)) {
      CheckGivesRoom(s, order, id, false);
      FulfilAdmits(s, id, p);
      SettlingBalances(cfg, order, s.now, p);
      var settled := Settle(order.(hold := ConfirmHold(order.hold, s.now), hasJob := true), s.now, p);
      assert after.orders == s.orders[id := settled];
      assert SameBooks(Settle(order, s.now, p), settled);
      hide AssertCapacity;
    }
  }

  ghost predicate PricedRun(cfg: Config, s: Store, settings: Settings, steps: seq<Step>) {
    |steps| > 0 ==>
      && PricedRun(cfg, s, settings, steps[..|steps| - 1])
      && Priced(cfg, Run(s, settings, steps[..|steps| - 1]), steps[|steps| - 1])
  }

  /** In every run that prices its orders, no kobo is lost between quote and outcome. */
  lemma {:induction false} RunsKeepBooks(cfg: Config, s: Store, settings: Settings, steps: seq<Step>)
    requires Inv(s) && AllBalance(cfg, s) && PricedRun(cfg, s, settings, steps)
    ensures var r := Run(s, settings, steps);
            Inv(r) && AllBalance(cfg, r)
  {
    if |steps| > 0 {
      var before, step := Run(s, settings, steps[..|steps| - 1]), steps[|steps| - 1];
      RunsKeepBooks(cfg, s, settings, steps[..|steps| - 1]);
      StepKeepsInv(before, settings, step);
      hide Inv, Complete, Create, QuoteSummary, SettledSummary;
      match step
      case StartCheckout(r) => CreateKeepsBooks(cfg, before, settings, r);
      case Pay(id, p) =>
        if id < |before.orders| { PayKeepsBooks(cfg, before, id, p); }
      case _ =>
        SoundOrders(before);
        OtherStepsKeepBooks(before, settings, step);
    }
  }

  lemma SoundOrders(s: Store)
    requires Inv(s)
    ensures OrdersSound(s)
  {}

  // ---------- The price of a cart ----------

  function Cost(quantity: nat, price: nat): nat {
    quantity * price
  }

  function CostAt(price: TicketId -> nat): Cart.Line -> nat {
    (line: Cart.Line) => Cost(line.quantity, price(line.id))
  }

  function Without(cart: seq<Cart.Line>, id: TicketId): seq<Cart.Line> {
    if |cart| == 0 then []
    else
      var front, last := Without(cart[..|cart| - 1], id), cart[|cart| - 1];
      if last.id == id then front else front + [last]
  }

  /** What a cart costs is what one of its ticket types costs and the rest. */
  lemma {:induction false} CostSplits(cart: seq<Cart.Line>, id: TicketId, price: TicketId -> nat)
    ensures Sum(cart, CostAt(price)) == Cost(Cart.Total(cart, id), price(id)) + Sum(Without(cart, id), CostAt(price))
  {
    if |cart| > 0 {
      var front, last := cart[..|cart| - 1], cart[|cart| - 1];
      CostSplits(front, id, price);
      SumAppend(Without(front, id), last, CostAt(price));
      CostAdds(Cart.Total(front, id), last.quantity, price(id));
      hide Cost;
    }
  }

  lemma CostAdds(x: nat, y: nat, price: nat)
    ensures Cost(x + y, price) == Cost(x, price) + Cost(y, price)
  {}

  lemma {:induction false} WithoutKeepsOthers(cart: seq<Cart.Line>, id: TicketId)
    ensures forall t :: Cart.Total(Without(cart, id), t) == if t == id then 0 else Cart.Total(cart, t)
    ensures |Without(cart, id)| <= |cart|
    ensures |cart| > 0 && cart[|cart| - 1].id == id ==> |Without(cart, id)| < |cart|
  {
    if |cart| > 0 {
      var front, last := cart[..|cart| - 1], cart[|cart| - 1];
      WithoutKeepsOthers(front, id);
      forall t
        ensures Cart.Total(Without(cart, id), t) == if t == id then 0 else Cart.Total(cart, t)
      {
        SumAppend(Without(front, id), last, Cart.QuantityIn(t));
        assert Cart.Total(Without(front, id), t) == if t == id then 0 else Cart.Total(front, t);
        assert Cart.Total(cart, t) == Cart.Total(front, t) + if last.id == t then last.quantity else 0;
      }
    }
  }

  lemma {:induction false} EqualTotalsCostTheSame(a: seq<Cart.Line>, b: seq<Cart.Line>, price: TicketId -> nat)
    requires forall t :: Cart.Total(a, t) == Cart.Total(b, t)
    ensures Sum(a, CostAt(price)) == Sum(b, CostAt(price))
    decreases |a| + |b|
  {
    if |a| > 0 || |b| > 0 {
      hide Sum, Cart.Total, Without;
      var id := (if |a| > 0 then a[|a| - 1] else b[|b| - 1]).id;
      CostSplits(a, id, price);
      CostSplits(b, id, price);
      WithoutKeepsOthers(a, id);
      WithoutKeepsOthers(b, id);
      EqualTotalsCostTheSame(Without(a, id), Without(b, id), price);
    }
  }

  lemma {:induction false} PricesAddUp(order: seq<Cart.Line>, price: TicketId -> nat)
    ensures TotalPrice(Cart.Priced(order, price)) == Sum(order, CostAt(price))
  {
    if |order| > 0 {
      var n := |order| - 1;
      PricesAddUp(order[..n], price);
      var items, last := Cart.Priced(order, price), order[n];
      assert items[..n] == Cart.Priced(order[..n], price);
      assert items[n] == Item(last.id, last.quantity, price(last.id));
      assert CostAt(price)(last) == last.quantity * price(last.id);
    }
  }

  /** However a cart is written, the order made of it costs what its lines cost. */
  lemma OrdersCostTheirLines(cart: seq<Cart.Line>, price: TicketId -> nat)
    ensures Gross(Tickets(Cart.Priced(Cart.Canonical(cart), price))) == Sum(cart, CostAt(price))
  {
    var order := Cart.Canonical(cart);
    Cart.CanonicalKeepsTotals(cart);
    hide Sum, TotalPrice, Cart.Total, Cart.Canonical;
    PricesAddUp(order, price);
    EqualTotalsCostTheSame(order, cart, price);
  }
}
