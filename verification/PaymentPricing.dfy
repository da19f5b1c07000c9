/** The buyer's charge, the fees inside it and who bears them.

    The buyer's charge contains a provider fee that is itself computed from the charge, so
    pricing has to find a fixed point.  The program climbs towards it for at most twelve
    rounds.  ChargeClimb studies that climb; here the fee rules are shown to be what it asks
    for, and the resulting summary to account for every kobo. */
module PaymentPricing {
  import opened Wrappers
  import opened ChargeClimb

  datatype Provider = Paystack | AlatTransfer

  datatype FeeBearer = Buyer | Creator | Platform

  datatype FeeRule = FeeRule(percentageBps: nat, fixedFee: nat, waiverBelow: Option<nat>, cap: Option<nat>)

  datatype Config = Config(
    platformFeeBps: nat,
    platformFixedFee: nat,
    paystack: FeeRule,
    alat: FeeRule,
    paystackBearer: FeeBearer,
    alatBearer: FeeBearer,
    platformBearer: FeeBearer)
  {
    function Rule(provider: Provider): FeeRule {
      if provider.Paystack? then paystack else alat
    }

    function ProviderBearer(provider: Provider): FeeBearer {
      if provider.Paystack? then paystackBearer else alatBearer
    }
  }

  const PAYSTACK_RULE := FeeRule(150, 10000, Some(250000), Some(200000))
  const ALAT_RULE := FeeRule(50, 0, None, Some(150000))
  const DEFAULT_CONFIG := Config(0, 12500, PAYSTACK_RULE, ALAT_RULE, Buyer, Buyer, Buyer)

  const MAX_ROUNDS: nat := 12

  // ---------- Fees ----------

  /** Nearest integer to n / d, halves upwards. */
  function Round(n: nat, d: nat): (r: nat)
    requires d > 0
    ensures 2 * n - d < 2 * d * r <= 2 * n + d
  {
    var r := (2 * n + d) / (2 * d);
    assert 2 * d * r <= 2 * n + d < 2 * d * r + 2 * d;
    r
  }

  function PercentageFee(rule: FeeRule, charge: nat): nat {
    Round(charge * rule.percentageBps, 10000)
  }

  predicate Waived(rule: FeeRule, charge: int) {
    rule.waiverBelow.Some? && charge < rule.waiverBelow.value
  }

  /** A cap of 0 reads as no cap. */
  predicate HasCap(rule: FeeRule) {
    rule.cap.Some? && rule.cap.value > 0
  }

  function Capped(rule: FeeRule, fee: nat): nat {
    if !HasCap(rule) || fee < rule.cap.value then fee else rule.cap.value
  }

  function ProviderFee(rule: FeeRule, charge: int): nat {
    if charge <= 0 then
      0
    else
      Capped(rule, PercentageFee(rule, charge) + if Waived(rule, charge) then 0 else rule.fixedFee)
  }

  function PlatformFee(cfg: Config, base: int): nat {
    if base <= 0 then 0
    else if cfg.platformFixedFee > 0 then cfg.platformFixedFee
    else Round(base * cfg.platformFeeBps, 10000)
  }

  /** Before the cap a fee is the percentage, to the nearest kobo, and the fixed fee from the
      waiver on; the cap bounds it from above. */
  lemma ProviderFeeIsExact(rule: FeeRule, charge: int)
    ensures charge <= 0 ==> ProviderFee(rule, charge) == 0
    ensures charge > 0 ==>
              var fixed := if rule.waiverBelow.Some? && charge < rule.waiverBelow.value then 0 else rule.fixedFee;
              var uncapped := ProviderFee(rule.(cap := None), charge);
              && -5000 < 10000 * (uncapped - fixed) - charge * rule.percentageBps <= 5000
              && ProviderFee(rule, charge) ==
                   if rule.cap.Some? && 0 < rule.cap.value < uncapped then rule.cap.value else uncapped
  {}

  /** The shipped rules, in kobo. */
  lemma DefaultProviderFees(charge: int)
    requires charge > 0
    ensures ProviderFee(PAYSTACK_RULE, charge) ==
            var percentage := (charge * 150 + 5000) / 10000;
            if charge < 250000 then percentage
            else if percentage + 10000 < 200000 then percentage + 10000
            else 200000
    ensures ProviderFee(ALAT_RULE, charge) ==
            var percentage := (charge * 50 + 5000) / 10000;
            if percentage < 150000 then percentage else 150000
  {
    PercentageFeeIs(PAYSTACK_RULE, charge);
    PercentageFeeIs(ALAT_RULE, charge);
  }

  /** A fixed platform fee is the fee on every sale; without one it is the percentage, to the
      nearest kobo; free goods carry none. */
  lemma PlatformFeeIsExact(cfg: Config, base: int)
    ensures base <= 0 ==> PlatformFee(cfg, base) == 0
    ensures base > 0 && cfg.platformFixedFee > 0 ==> PlatformFee(cfg, base) == cfg.platformFixedFee
    ensures base > 0 && cfg.platformFixedFee == 0 ==>
              -5000 < 10000 * PlatformFee(cfg, base) - base * cfg.platformFeeBps <= 5000
    ensures base > 0 ==> PlatformFee(DEFAULT_CONFIG, base) == 12500
  {}

  lemma ProductsGrow(k: nat, a: nat, b: nat)
    requires a <= b
    ensures k * a <= k * b
  {}

  lemma PercentageFeeIs(rule: FeeRule, charge: nat)
    ensures PercentageFee(rule, charge) == (rule.percentageBps * charge + 5000) / 10000
  {
    var n := charge * rule.percentageBps;
    assert n == rule.percentageBps * charge;
    assert (2 * n + 10000) / 20000 == (n + 5000) / 10000;
  }

  /** The fee a rule takes, as a schedule over all charges. */
  function FeesOf(rule: FeeRule): Schedule {
    (charge: int) => ProviderFee(rule, charge)
  }

  lemma RuleIsMonotone(rule: FeeRule)
    ensures Monotone(FeesOf(rule))
  {
    forall a: int, b: int | a <= b
      ensures FeesOf(rule)(a) <= FeesOf(rule)(b)
    {
      if a > 0 {
        ProductsGrow(rule.percentageBps, a, b);
        PercentageFeeIs(rule, a);
        PercentageFeeIs(rule, b);
      }
    }
  }

  /** Rules no steeper than 5%, 2000 naira capped.  Both default rules qualify, and so does
      the 5% ALAT rule the program's own tests expect. */
  predicate Moderate(rule: FeeRule) {
    rule.percentageBps <= 500 && HasCap(rule) && rule.cap.value <= CAP
  }

  /** The charge from which the fixed fee applies. */
  function Jump(rule: FeeRule): int {
    match rule.waiverBelow
    case None => 1
    case Some(w) => w
  }

  /** Above the waiver, or without a fixed fee, fees are smooth. */
  lemma RuleIsSmooth(rule: FeeRule, from: int)
    requires Moderate(rule) && from > 0 && (rule.fixedFee == 0 || Jump(rule) <= from)
    ensures SmoothFrom(FeesOf(rule), from)
  {
    forall a: int, b: int | from <= a <= b
      ensures FeesOf(rule)(b) - FeesOf(rule)(a) <= Shrunk(b - a)
    {
      PercentageFeeIs(rule, a);
      PercentageFeeIs(rule, b);
      var p, q := rule.percentageBps * a, rule.percentageBps * b;
      ProductsGrow(rule.percentageBps, a, b);
      assert q - p == rule.percentageBps * (b - a) == (b - a) * rule.percentageBps;
      ProductsGrow(b - a, rule.percentageBps, 500);
      assert (q + 5000) / 10000 - (p + 5000) / 10000 <= Shrunk(b - a);
    }
  }

  lemma RuleHasOneJump(rule: FeeRule, total: int)
    requires Moderate(rule) && total > 0
    ensures OneJump(FeesOf(rule), FeesOf(rule.(fixedFee := 0)), Jump(rule), total)
  {
    var flat := rule.(fixedFee := 0);
    RuleIsMonotone(rule);
    RuleIsMonotone(flat);
    RuleIsSmooth(rule, if Jump(rule) < total then total else Jump(rule));
    RuleIsSmooth(flat, total);
  }

  // ---------- The quoted charge ----------

  /** The program's loop: it stops early once a round changes nothing. */
  method EstimateCharge(rule: FeeRule, bearer: FeeBearer, base: int, buyerPlatformFee: nat) returns (charge: int)
    ensures charge == QuotedCharge(rule, bearer, base + buyerPlatformFee)
  {
    var total := base + buyerPlatformFee;
    charge := total;
    if bearer != Buyer || charge <= 0 {
      return;
    }
    for attempt := 0 to MAX_ROUNDS
      invariant charge == Climb(FeesOf(rule), total, attempt)
    {
      var next := base + buyerPlatformFee + ProviderFee(rule, charge);
      if next == charge {
        ClimbStays(FeesOf(rule), total, attempt, MAX_ROUNDS);
        break;
      }
      charge := next;
    }
  }

  function QuotedCharge(rule: FeeRule, bearer: FeeBearer, total: int): int {
    if bearer != Buyer || total <= 0 then total else Climb(FeesOf(rule), total, MAX_ROUNDS)
  }

  /** The main result on pricing: for every moderate rule and every amount, the bounded loop
      ends on the least charge that exactly covers the amount and the provider's own fee. */
  lemma TwelveRoundsSuffice(rule: FeeRule, total: int)
    requires Moderate(rule) && total > 0
    ensures IsLeastCharge(FeesOf(rule), total, QuotedCharge(rule, Buyer, total))
  {
    hide Climb, ProviderFee;
    RuleHasOneJump(rule, total);
    TwelveRounds(FeesOf(rule), FeesOf(rule.(fixedFee := 0)), Jump(rule), total, 0);
  }

  /** Whatever the rule, a quote that does settle is the least charge. */
  lemma SettledQuoteIsLeast(rule: FeeRule, total: int)
    requires total > 0 && Covers(FeesOf(rule), total, QuotedCharge(rule, Buyer, total))
    ensures IsLeastCharge(FeesOf(rule), total, QuotedCharge(rule, Buyer, total))
  {
    hide Climb, ProviderFee;
    RuleIsMonotone(rule);
    SettledIsLeast(FeesOf(rule), total, MAX_ROUNDS);
  }

  /** "Least" says something: the waiver leaves some totals with two charges, and the loop
      quotes the smaller one. */
  lemma WaiverAllowsTwoCharges()
    ensures Covers(FeesOf(PAYSTACK_RULE), 246249, 249999) && Covers(FeesOf(PAYSTACK_RULE), 246249, 260151)
    ensures QuotedCharge(PAYSTACK_RULE, Buyer, 246249) <= 249999
  {
    assert Covers(FeesOf(PAYSTACK_RULE), 246249, 249999);
    assert Covers(FeesOf(PAYSTACK_RULE), 246249, 260151);
    hide ProviderFee, Climb;
    TwelveRoundsSuffice(PAYSTACK_RULE, 246249);
  }

  /** With no cap and a percentage of 100% or more the fee swallows the charge. */
  lemma SteepRuleNeverSettles(rule: FeeRule, total: int, charge: int)
    requires rule.percentageBps >= 10000 && !HasCap(rule) && total > 0
    ensures !Covers(FeesOf(rule), total, charge)
  {
    if charge > 0 {
      PercentageFeeIs(rule, charge);
      ProductsGrow(charge, 10000, rule.percentageBps);
    }
  }

  /** A charge large enough for a total and the fee on it. */
  function Enough(rule: FeeRule, total: int): int {
    if HasCap(rule) then total + rule.cap.value else 10000 * (total + rule.fixedFee + 1)
  }

  lemma EnoughIsEnough(rule: FeeRule, total: int)
    requires (HasCap(rule) || rule.percentageBps < 10000) && total > 0
    ensures Next(FeesOf(rule), total, Enough(rule, total)) <= Enough(rule, total)
  {
    var charge := Enough(rule, total);
    if !HasCap(rule) {
      PercentageFeeIs(rule, charge);
      ProductsGrow(charge, rule.percentageBps, 9999);
      assert rule.percentageBps * charge == charge * rule.percentageBps;
    }
  }

  /** Which rules, overridden or not, leave an exact charge to settle on: for every amount
      those that are capped or take less than 100%, and no others for any amount. */
  lemma ExactChargeExists(rule: FeeRule, total: int)
    requires total > 0
    ensures (exists charge :: Covers(FeesOf(rule), total, charge)) <==> HasCap(rule) || rule.percentageBps < 10000
  {
    if HasCap(rule) || rule.percentageBps < 10000 {
      RuleIsMonotone(rule);
      EnoughIsEnough(rule, total);
      hide ProviderFee, Climb;
      var rounds := LeastChargeExists(FeesOf(rule), total, Enough(rule, total), 0);
      assert Covers(FeesOf(rule), total, Climb(FeesOf(rule), total, rounds));
    } else {
      forall charge
        ensures !Covers(FeesOf(rule), total, charge)
      {
        SteepRuleNeverSettles(rule, total, charge);
      }
    }
  }

  /** A quote is exact if and only if it is the least charge; where the loop stops short,
      it has quoted less than any exact charge. */
  lemma QuoteIsExactOrShort(rule: FeeRule, total: int)
    requires total > 0
    ensures Covers(FeesOf(rule), total, QuotedCharge(rule, Buyer, total)) <==>
            IsLeastCharge(FeesOf(rule), total, QuotedCharge(rule, Buyer, total))
    ensures !Covers(FeesOf(rule), total, QuotedCharge(rule, Buyer, total)) ==>
            forall charge :: Covers(FeesOf(rule), total, charge) ==> QuotedCharge(rule, Buyer, total) < charge
  {
    hide ProviderFee, Climb;
    RuleIsMonotone(rule);
    if Covers(FeesOf(rule), total, QuotedCharge(rule, Buyer, total)) {
      SettledQuoteIsLeast(rule, total);
    }
    forall charge | Covers(FeesOf(rule), total, charge)
      ensures QuotedCharge(rule, Buyer, total) <= charge
    {
      ClimbStaysBelow(FeesOf(rule), total, MAX_ROUNDS, charge);
    }
  }

  // Twelve rounds are not enough for every rule that has an exact charge.  At 99% the climb
  // from 1 kobo gains one kobo a round and has 50 to go.

  function SlowRule(cap: Option<nat>): FeeRule {
    FeeRule(9900, 0, None, cap)
  }

  lemma SlowFee(cap: Option<nat>, charge: nat)
    requires 1 <= charge <= 51 && (cap.Some? ==> cap.value >= 51)
    ensures ProviderFee(SlowRule(cap), charge) == if charge == 51 then 50 else charge
  {
    hide PercentageFee;
    PercentageFeeIs(SlowRule(cap), charge);
  }

  lemma {:induction false} SlowClimb(cap: Option<nat>, n: nat)
    requires n <= 50 && (cap.Some? ==> cap.value >= 51)
    ensures Climb(FeesOf(SlowRule(cap)), 1, n) == n + 1
  {
    hide ProviderFee;
    if n > 0 {
      SlowClimb(cap, n - 1);
      SlowFee(cap, n);
    }
  }

  /** With no cap or any cap worth the name. */
  lemma TwelveRoundsMayFallShort(cap: Option<nat>)
    requires cap.Some? ==> cap.value >= 51
    ensures IsLeastCharge(FeesOf(SlowRule(cap)), 1, 51)
    ensures QuotedCharge(SlowRule(cap), Buyer, 1) == 13
  {
    hide ProviderFee, Climb;
    SlowClimb(cap, 12);
    SlowClimb(cap, 50);
    SlowFee(cap, 51);
    RuleIsMonotone(SlowRule(cap));
    SettledIsLeast(FeesOf(SlowRule(cap)), 1, 50);
  }

  // Without a cap the shortfall is divided by 10000 in a round at most, so a total large
  // enough leaves something after any number of rounds.

  function Power(n: nat): nat {
    if n == 0 then 1 else 10000 * Power(n - 1)
  }

  lemma UncappedFeeFollows(rule: FeeRule, a: nat, b: nat, gap: nat)
    requires !HasCap(rule) && rule.percentageBps >= 1
    requires 1 <= a <= b && Jump(rule) <= a && b - a >= 10000 * gap
    ensures ProviderFee(rule, b) - ProviderFee(rule, a) >= gap
  {
    hide PercentageFee;
    PercentageGapFollows(rule, a, b, gap);
  }

  lemma PercentageGapFollows(rule: FeeRule, a: nat, b: nat, gap: nat)
    requires rule.percentageBps >= 1 && a <= b && b - a >= 10000 * gap
    ensures PercentageFee(rule, b) - PercentageFee(rule, a) >= gap
  {
    PercentageFeeIs(rule, a);
    PercentageFeeIs(rule, b);
    ProductsGrow(b - a, 1, rule.percentageBps);
    ProductOfDifference(rule.percentageBps, a, b);
    hide PercentageFee;
    QuotientGapFollows(rule.percentageBps * a, rule.percentageBps * b, gap);
  }

  lemma ProductOfDifference(k: nat, a: nat, b: nat)
    ensures k * b - k * a == (b - a) * k
  {}

  lemma QuotientGapFollows(p: nat, q: nat, gap: nat)
    requires q - p >= 10000 * gap
    ensures (q + 5000) / 10000 >= (p + 5000) / 10000 + gap
  {}

  lemma {:induction false} GapRemains(rule: FeeRule, total: nat, n: nat, left: nat)
    requires !HasCap(rule) && rule.percentageBps >= 1 && total >= 1 && Jump(rule) <= total
    requires ProviderFee(rule, total) >= Power(n + left)
    ensures Climb(FeesOf(rule), total, n + 1) - Climb(FeesOf(rule), total, n) >= Power(left)
  {
    hide ProviderFee;
    if n > 0 {
      GapRemains(rule, total, n - 1, left + 1);
      RuleIsMonotone(rule);
      ClimbAscends(FeesOf(rule), total, n - 1);
      UncappedFeeFollows(rule, Climb(FeesOf(rule), total, n - 1), Climb(FeesOf(rule), total, n), Power(left));
    }
  }

  /** A total whose fee is at least `fee`, whatever the waiver. */
  lemma LargeTotal(rule: FeeRule, fee: nat) returns (total: nat)
    requires !HasCap(rule) && rule.percentageBps >= 1
    ensures total >= 1 && Jump(rule) <= total && ProviderFee(rule, total) >= fee
  {
    total := 10000 * fee + 1 + if Jump(rule) > 0 then Jump(rule) else 0;
    PercentageFeeIs(rule, total);
    ProductsGrow(total, 1, rule.percentageBps);
    assert rule.percentageBps * total >= 10000 * fee;
    hide PercentageFee;
  }

  lemma PowerIsPositive()
    ensures Power(0) == 1
  {}

  lemma UncappedPercentageFallsShort(rule: FeeRule) returns (total: nat)
    requires !HasCap(rule) && rule.percentageBps >= 1
    ensures total > 0 && !Covers(FeesOf(rule), total, QuotedCharge(rule, Buyer, total))
  {
    hide ProviderFee, Power;
    total := LargeTotal(rule, Power(12));
    GapRemains(rule, total, 12, 0);
    PowerIsPositive();
    assert Climb(FeesOf(rule), total, 13) == Next(FeesOf(rule), total, Climb(FeesOf(rule), total, 12));
  }

  lemma FlatRuleSettles(rule: FeeRule, total: int)
    requires rule.percentageBps == 0 && total > 0
    ensures Covers(FeesOf(rule), total, QuotedCharge(rule, Buyer, total))
  {
    forall charge: nat
      ensures PercentageFee(rule, charge) == 0
    {
      PercentageFeeIs(rule, charge);
    }
    hide PercentageFee;
    SecondRoundSettles(rule, total);
  }

  /** Where the percentage alone reaches the cap, the fee is the cap. */
  lemma CappedTotalSettles(rule: FeeRule, total: int)
    requires HasCap(rule) && rule.percentageBps >= 1 && total >= 10000 * rule.cap.value
    ensures Covers(FeesOf(rule), total, QuotedCharge(rule, Buyer, total))
  {
    forall charge: nat | total <= charge
      ensures PercentageFee(rule, charge) >= rule.cap.value
    {
      PercentageFeeIs(rule, charge);
      ProductsGrow(charge, 1, rule.percentageBps);
      assert rule.percentageBps * charge >= 10000 * rule.cap.value;
    }
    hide PercentageFee;
    SecondRoundSettles(rule, total);
  }

  lemma SecondRoundSettles(rule: FeeRule, total: int)
    requires total > 0 && ProviderFee(rule, total + ProviderFee(rule, total)) == ProviderFee(rule, total)
    ensures Covers(FeesOf(rule), total, QuotedCharge(rule, Buyer, total))
  {
    hide ProviderFee;
    var fee := FeesOf(rule);
    assert Climb(fee, total, 1) == total + fee(Climb(fee, total, 0));
    assert Covers(fee, total, Climb(fee, total, 1));
    ClimbStays(fee, total, 1, MAX_ROUNDS);
  }

  /** For which rules the loop settles every amount: those without a percentage, and those
      with a cap that settle the finitely many amounts on which the percentage alone stays
      below it.  The moderate rules are among them. */
  lemma RuleSettlesExactly(rule: FeeRule)
    ensures (forall total: int :: total > 0 ==> Covers(FeesOf(rule), total, QuotedCharge(rule, Buyer, total)))
            <==>
            || rule.percentageBps == 0
            || (HasCap(rule) && forall total: int :: 0 < total < 10000 * rule.cap.value ==>
                  Covers(FeesOf(rule), total, QuotedCharge(rule, Buyer, total)))
  {
    if rule.percentageBps == 0 {
      forall total: int | total > 0
        ensures Covers(FeesOf(rule), total, QuotedCharge(rule, Buyer, total))
      {
        FlatRuleSettles(rule, total);
      }
    } else if HasCap(rule) {
      forall total: int | total >= 10000 * rule.cap.value
        ensures Covers(FeesOf(rule), total, QuotedCharge(rule, Buyer, total))
      {
        CappedTotalSettles(rule, total);
      }
    } else {
      var total := UncappedPercentageFallsShort(rule);
    }
    hide Covers, QuotedCharge, FeesOf;
  }

  // ---------- The pricing summary ----------

  datatype Summary = Summary(
    gross: int,
    charge: int,
    buyerFeeTotal: int,
    buyerProviderFee: int,
    buyerPlatformFee: int,
    providerFee: int,
    platformFee: int,
    creatorBorneProviderFee: int,
    creatorBornePlatformFee: int,
    creatorPayable: int)

  function Max(a: int, b: int): int {
    if a < b then b else a
  }

  function BuyerPlatformFee(cfg: Config, base: int): nat {
    if cfg.platformBearer == Buyer then PlatformFee(cfg, base) else 0
  }

  /** What the buyer is quoted for goods worth `base`. */
  function Quote(cfg: Config, base: int, provider: Provider): int {
    QuotedCharge(cfg.Rule(provider), cfg.ProviderBearer(provider), base + BuyerPlatformFee(cfg, base))
  }

  /** The summary at quote time has no overrides; at settlement both carry what the provider
      reports to have collected and kept. */
  function BuildSummary(cfg: Config, base: int, provider: Provider,
                        chargeOverride: Option<int>, providerFeeOverride: Option<int>): Summary
  {
    var platformFee := PlatformFee(cfg, base);
    var bearer := cfg.ProviderBearer(provider);
    var buyerPlatformFee := BuyerPlatformFee(cfg, base);
    var charge := match chargeOverride case Some(c) => c case None => Quote(cfg, base, provider);
    var providerFee := match providerFeeOverride case Some(f) => f case None => ProviderFee(cfg.Rule(provider), charge);
    var buyerProviderFee := if bearer == Buyer then Max(charge - base - buyerPlatformFee, 0) else 0;
    var creatorPlatformFee := if cfg.platformBearer == Creator then platformFee else 0;
    var creatorProviderFee := if bearer == Creator then providerFee else 0;
    Summary(base, charge, buyerPlatformFee + buyerProviderFee, buyerProviderFee, buyerPlatformFee,
            providerFee, platformFee, creatorProviderFee, creatorPlatformFee,
            Max(base - creatorPlatformFee - creatorProviderFee, 0))
  }

  function QuoteSummary(cfg: Config, base: int, provider: Provider): Summary {
    BuildSummary(cfg, base, provider, None, None)
  }

  function SettledSummary(cfg: Config, base: int, provider: Provider, collected: int, providerFee: int): Summary {
    BuildSummary(cfg, base, provider, Some(collected), Some(providerFee))
  }

  /** Every kobo the buyer pays is either the price of the goods or a fee the summary names,
      and every kobo of the price goes to the creator or to a fee the creator bears. */
  predicate Balanced(s: Summary) {
    && s.charge == s.gross + s.buyerFeeTotal
    && s.buyerFeeTotal == s.buyerPlatformFee + s.buyerProviderFee
    && (s.creatorBornePlatformFee + s.creatorBorneProviderFee <= s.gross ==>
          s.creatorPayable + s.creatorBornePlatformFee + s.creatorBorneProviderFee == s.gross)
  }

  /** Each fee is borne once, by its bearer, in full.  (What the buyer bears of the provider's
      fee is what the charge leaves for it; QuoteIsExactOrShort says when that is all.) */
  lemma FeesAreBorneOnce(cfg: Config, base: int, provider: Provider,
                         chargeOverride: Option<int>, providerFeeOverride: Option<int>)
    requires base >= 0
    ensures var s := BuildSummary(cfg, base, provider, chargeOverride, providerFeeOverride);
            && s.gross == base && s.platformFee == PlatformFee(cfg, base)
            && s.charge == (if chargeOverride.Some? then chargeOverride.value else Quote(cfg, base, provider))
            && s.providerFee == (if providerFeeOverride.Some? then providerFeeOverride.value
                                 else ProviderFee(cfg.Rule(provider), s.charge))
            && s.buyerPlatformFee == (if cfg.platformBearer == Buyer then s.platformFee else 0)
            && s.creatorBornePlatformFee == (if cfg.platformBearer == Creator then s.platformFee else 0)
            && s.creatorBorneProviderFee == (if cfg.ProviderBearer(provider) == Creator then s.providerFee else 0)
            && (cfg.ProviderBearer(provider) != Buyer ==> s.buyerProviderFee == 0)
            && s.creatorPayable >= 0
  {
    hide ProviderFee, PlatformFee, Quote;
  }

  /** The provider of a payment decides its rule and its bearer. */
  lemma ProvidersAreKeptApart(cfg: Config)
    ensures cfg.Rule(Paystack) == cfg.paystack && cfg.Rule(AlatTransfer) == cfg.alat
    ensures cfg.ProviderBearer(Paystack) == cfg.paystackBearer && cfg.ProviderBearer(AlatTransfer) == cfg.alatBearer
  {}

  /** For any rule, settled or not, a quote balances. */
  lemma QuoteBalances(cfg: Config, base: int, provider: Provider)
    requires base >= 0
    ensures Balanced(QuoteSummary(cfg, base, provider))
    ensures Quote(cfg, base, provider) >= base + BuyerPlatformFee(cfg, base)
  {
    hide ProviderFee;
    var total := base + BuyerPlatformFee(cfg, base);
    RuleIsMonotone(cfg.Rule(provider));
    ClimbAscends(FeesOf(cfg.Rule(provider)), total, MAX_ROUNDS);
  }

  /** A settlement balances exactly when the amount collected is one the quote could have
      asked for: the buyer's base and platform share exactly, or more when the buyer also
      bears the provider's fee. */
  lemma SettlementBalancesExactly(cfg: Config, base: int, provider: Provider, collected: int, providerFee: int)
    requires base >= 0
    ensures Balanced(SettledSummary(cfg, base, provider, collected, providerFee)) <==>
            var total := base + BuyerPlatformFee(cfg, base);
            if cfg.ProviderBearer(provider) == Buyer then collected >= total else collected == total
  {}

  /** A settlement of the quoted amount keeps the quote's split, whatever fee the provider
      finally takes, except for that fee itself. */
  lemma SettlingTheQuoteBalances(cfg: Config, base: int, provider: Provider, providerFee: int)
    requires base >= 0
    ensures var quote := QuoteSummary(cfg, base, provider);
            var settled := SettledSummary(cfg, base, provider, quote.charge, providerFee);
            && Balanced(settled)
            && settled.buyerFeeTotal == quote.buyerFeeTotal
            && settled.platformFee == quote.platformFee
            && (cfg.ProviderBearer(provider) != Creator ==> settled.creatorPayable == quote.creatorPayable)
  {
    hide ProviderFee, Climb;
    QuoteBalances(cfg, base, provider);
  }

  /** What the platform is left with once the provider and the creator are paid. */
  function PlatformNet(s: Summary): int {
    s.charge - s.providerFee - s.creatorPayable
  }

  /** The point of the fixed point: the platform keeps its fee unless it agreed to bear it,
      less a provider fee it bears, exactly when the quote covers the provider's fee on
      itself; under moderate rules it always does. */
  lemma NobodyIsShort(cfg: Config, base: int, provider: Provider)
    requires base > 0
    ensures var s := QuoteSummary(cfg, base, provider);
            s.creatorBornePlatformFee + s.creatorBorneProviderFee <= base ==>
              (PlatformNet(s) == (if cfg.platformBearer == Platform then 0 else s.platformFee)
                                 - (if cfg.ProviderBearer(provider) == Platform then s.providerFee else 0)
               <==> CoversItsFee(cfg, base, provider))
    ensures Moderate(cfg.Rule(provider)) ==> CoversItsFee(cfg, base, provider)
  {
    hide ProviderFee, Climb;
    QuoteBalances(cfg, base, provider);
    if Moderate(cfg.Rule(provider)) {
      TwelveRoundsSuffice(cfg.Rule(provider), base + BuyerPlatformFee(cfg, base));
    }
  }

  /** A fee the buyer bears is covered if the quote is an exact charge. */
  predicate CoversItsFee(cfg: Config, base: int, provider: Provider) {
    cfg.ProviderBearer(provider) == Buyer ==>
      Covers(FeesOf(cfg.Rule(provider)), base + BuyerPlatformFee(cfg, base), Quote(cfg, base, provider))
  }

  lemma PlatformFeeGrows(cfg: Config, a: int, b: int)
    requires a <= b
    ensures PlatformFee(cfg, a) <= PlatformFee(cfg, b)
  {
    if 0 < a && cfg.platformFixedFee <= 0 {
      ProductsGrow(cfg.platformFeeBps, a, b);
    }
  }

  /** A dearer order is always charged strictly more, whoever bears the fees. */
  lemma QuoteStrictlyIncreases(cfg: Config, provider: Provider, a: int, b: int)
    requires 0 <= a < b
    ensures Quote(cfg, a, provider) < Quote(cfg, b, provider)
  {
    hide ProviderFee, Climb, PlatformFee;
    RuleIsMonotone(cfg.Rule(provider));
    PlatformFeeGrows(cfg, a, b);
    var ta, tb := a + BuyerPlatformFee(cfg, a), b + BuyerPlatformFee(cfg, b);
    ClimbKeepsDistance(FeesOf(cfg.Rule(provider)), ta, tb, MAX_ROUNDS);
    ClimbAscendsTo(FeesOf(cfg.Rule(provider)), tb, MAX_ROUNDS, MAX_ROUNDS);
  }

  /** The shipped configuration meets the conditions above for both providers. */
  lemma DefaultsAreModerate(provider: Provider)
    ensures Moderate(DEFAULT_CONFIG.Rule(provider)) && DEFAULT_CONFIG.platformFixedFee > 0
    ensures DEFAULT_CONFIG.ProviderBearer(provider) == DEFAULT_CONFIG.platformBearer == Buyer
  {}
}
