/** Donations to a food bank event, each with the meal pass that comes with it. */
module Donations {
  import opened Wrappers
  import opened CollectionWindows
  import opened FoodBank
  import FoodBankService

  type PaymentId = nat

  const MINIMUM := 50000

  datatype Donation = Donation(payment: PaymentId, user: UserId, amount: int)

  datatype Ledger = Ledger(bank: Bank, donations: seq<Donation>)

  datatype Receipt = Created(donation: Donation) | Existing(donation: Donation) | BelowMinimum | Failed

  function Find(donations: seq<Donation>, payment: PaymentId): (found: Option<Donation>)
    ensures found.Some? ==> found.value in donations && found.value.payment == payment
    ensures found.None? ==> forall d :: d in donations ==> d.payment != payment
  {
    if |donations| == 0 then None
    else if donations[|donations| - 1].payment == payment then Some(donations[|donations| - 1])
    else Find(donations[..|donations| - 1], payment)
  }

  /** The donation and the pass, or neither.  A bank with no window left does not stop the
      donation. */
  function SettleDonation(ledger: Ledger, payment: PaymentId, user: UserId, amount: int, withPass: bool)
    : (Ledger, Receipt)
  {
    if amount < MINIMUM then (ledger, BelowMinimum)
    else
      var existing := Find(ledger.donations, payment);
      if existing.Some? then (ledger, Existing(existing.value))
      else
        var donation := Donation(payment, user, amount);
        var donated := ledger.(donations := ledger.donations + [donation]);
        if !ledger.bank.draft.isFoodBank || !withPass then (donated, Created(donation))
        else
          var (bank, outcome) := Allocate(ledger.bank, user);
          if outcome == Refused then (ledger, Failed) else (donated.(bank := bank), Created(donation))
  }

  class DonationService {
    const food: FoodBankService.FoodBankService
    var donations: seq<Donation>

    ghost function Rows(): Ledger
      reads this, food
    {
      Ledger(food.Rows(), donations)
    }

    ghost predicate Valid()
      reads this, food
    {
      SoundLedger(Rows())
    }

    constructor (food: FoodBankService.FoodBankService)
      requires food.Valid()
      ensures Valid() && this.food == food && donations == []
    {
      this.food, this.donations := food, [];
    }

    method CreateDonation(payment: PaymentId, user: UserId, amount: int, withPass: bool) returns (receipt: Receipt)
      requires Valid()
      modifies this`donations, food`passes
      ensures Valid()
      ensures (Rows(), receipt) == SettleDonation(old(Rows()), payment, user, amount, withPass)
    {
      DonationKeepsSound(Rows(), payment, user, amount, withPass);
      if amount < MINIMUM {
        return BelowMinimum;
      }
      var existing := Find(donations, payment);
      if existing.Some? {
        return Existing(existing.value);
      }
      var donation := Donation(payment, user, amount);
      if withPass {
        var outcome := food.Allocate(user);
        assert outcome != Refused;
      }
      donations := donations + [donation];
      receipt := Created(donation);
    }
  }

  // ---------- Properties ----------

  ghost predicate SoundLedger(ledger: Ledger) {
    && Sound(ledger.bank)
    && (forall i, j :: 0 <= i < j < |ledger.donations| ==> ledger.donations[i].payment != ledger.donations[j].payment)
    && (forall d :: d in ledger.donations ==> d.amount >= MINIMUM)
  }

  /** A donation of the minimum or more always settles, full bank or not, exactly once. */
  lemma DonationAlwaysSettles(ledger: Ledger, payment: PaymentId, user: UserId, amount: int, withPass: bool)
    requires SoundLedger(ledger)
    ensures var (after, receipt) := SettleDonation(ledger, payment, user, amount, withPass);
            && (receipt.BelowMinimum? <==> amount < 50000)
            && !receipt.Failed?
            && (receipt.Created? <==> |after.donations| == |ledger.donations| + 1)
            && (!receipt.Created? ==> after == ledger)
  {}

  /** What a donation writes: nothing if it is too small or its payment is known; otherwise one
      donation, for what was paid, and a claim for the donor at a food bank if one is due. */
  lemma DonationIsExact(ledger: Ledger, payment: PaymentId, user: UserId, amount: int, withPass: bool)
    requires SoundLedger(ledger)
    ensures var (after, receipt) := SettleDonation(ledger, payment, user, amount, withPass);
            if amount < 50000 then (after, receipt) == (ledger, BelowMinimum)
            else if exists d :: d in ledger.donations && d.payment == payment then
              after == ledger && receipt.Existing? && receipt.donation in ledger.donations
              && receipt.donation.payment == payment
            else
              && receipt == Created(Donation(payment, user, amount))
              && after.donations == ledger.donations + [Donation(payment, user, amount)]
              && after.bank == if withPass then Allocate(ledger.bank, user).0 else ledger.bank
  {
    assert Allocate(ledger.bank, user).1 != Refused;
    hide Sound, Allocate;
  }

  lemma DonationKeepsSound(ledger: Ledger, payment: PaymentId, user: UserId, amount: int, withPass: bool)
    requires SoundLedger(ledger)
    ensures var after := SettleDonation(ledger, payment, user, amount, withPass).0;
            SoundLedger(after) && Keeps(ledger.bank, after.bank) && ledger.donations <= after.donations
    ensures SettleDonation(ledger, payment, user, amount, withPass).1 != Failed
  {
    AllocateKeepsSound(ledger.bank, user);
    assert Allocate(ledger.bank, user).1 != Refused;
    hide Sound, Keeps, Allocate;
  }

  /** A donor who is due a pass ends up with one exactly when they had one or the bank still
      gives them out, and gives them out before its first window is over exactly while a meal
      is left. */
  lemma DonorsAreServed(ledger: Ledger, payment: PaymentId, user: UserId, amount: int)
    requires SoundLedger(ledger) && SettleDonation(ledger, payment, user, amount, true).1.Created?
    ensures var b := ledger.bank;
            var s := b.draft.Settings();
            var served := PassOf(SettleDonation(ledger, payment, user, amount, true).0.bank.passes, user).Some?;
            && (served <==> PassOf(b.passes, user).Some? || Allocate(b, user).1.Granted?)
            && (b.now < s.start + s.Duration() && b.now < s.end && b.status != Closed ==>
                  (served <==> PassOf(b.passes, user).Some? || |b.passes| < s.total))
  {
    var b := ledger.bank;
    if PassOf(b.passes, user).None? && b.now < b.draft.end && b.status != Closed {
      PassOfFinds(b.passes, user);
      GroupsCountPasses(b.passes);
      var (after, outcome) := Allocate(b, user);
      if outcome.Granted? {
        PassOfLast(b.passes, outcome.pass);
      }
      if b.now < b.draft.Settings().start + b.draft.Settings().Duration() {
        NobodyTurnedAwayEarly(b.draft.Settings(), GroupByStart(b.passes), b.now);
      }
    }
  }

  // ---------- Runs ----------

  datatype Step =
    | Donate(payment: PaymentId, user: UserId, amount: int, withPass: bool)
    | AtBank(step: FoodBank.Step)

  function Apply(ledger: Ledger, day: Calendar, step: Step): Ledger {
    match step
    case Donate(payment, user, amount, withPass) => SettleDonation(ledger, payment, user, amount, withPass).0
    case AtBank(s) => ledger.(bank := FoodBank.Apply(ledger.bank, day, s))
  }

  function Run(ledger: Ledger, day: Calendar, steps: seq<Step>): Ledger {
    if |steps| == 0 then ledger else Apply(Run(ledger, day, steps[..|steps| - 1]), day, steps[|steps| - 1])
  }

  /** Donations and everything else that happens at the bank, in any order: the bank stays
      sound, each payment donates at most once, and no donation is lost or altered. */
  lemma {:induction false} LedgerStaysSound(ledger: Ledger, day: Calendar, steps: seq<Step>)
    requires SoundLedger(ledger)
    ensures var after := Run(ledger, day, steps);
            SoundLedger(after) && Keeps(ledger.bank, after.bank) && ledger.donations <= after.donations
  {
    if |steps| > 0 {
      var before, step := Run(ledger, day, steps[..|steps| - 1]), steps[|steps| - 1];
      LedgerStaysSound(ledger, day, steps[..|steps| - 1]);
      hide Sound, SettleDonation, FoodBank.Apply;
      match step
      case Donate(payment, user, amount, withPass) => DonationKeepsSound(before, payment, user, amount, withPass);
      case AtBank(s) => StepKeepsSound(before.bank, day, s);
    }
  }

  /** However late a payment is reported again, and whatever has happened at the bank since,
      it is answered with the first donation and changes nothing. */
  lemma {:induction false} RepeatedPaymentsDonateOnce(ledger: Ledger, day: Calendar, first: Step, steps: seq<Step>,
                                                      again: Step)
    requires SoundLedger(ledger) && first.Donate? && again.Donate? && again.payment == first.payment
    requires SettleDonation(ledger, first.payment, first.user, first.amount, first.withPass).1.Created?
    ensures var later := Run(Apply(ledger, day, first), day, steps);
            SettleDonation(later, again.payment, again.user, again.amount, again.withPass) ==
              (later, if again.amount < MINIMUM then BelowMinimum
                      else Existing(Donation(first.payment, first.user, first.amount)))
  {
    var donation := Donation(first.payment, first.user, first.amount);
    var donated := Apply(ledger, day, first);
    DonationKeepsSound(ledger, first.payment, first.user, first.amount, first.withPass);
    LedgerStaysSound(donated, day, steps);
    var later := Run(donated, day, steps);
    assert donated.donations[|ledger.donations|] == donation;
    assert later.donations[|ledger.donations|] == donation;
    var found := Find(later.donations, first.payment).value;
    var k :| 0 <= k < |later.donations| && later.donations[k] == found;
    assert k == |ledger.donations|;
  }
}
