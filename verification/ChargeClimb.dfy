/** Charges that contain a fee on themselves.

    A fee schedule says what a payment provider keeps of a charge.  Covering a total means
    finding a charge equal to the total plus the schedule's fee on that charge.  This module
    studies the climb that looks for one, over arbitrary schedules: it never overshoots, it
    ends on the least charge when it ends, and twelve rounds are enough for every schedule
    that is smooth on both sides of one jump. */
module ChargeClimb {
  type Schedule = int -> nat

  function Next(fee: Schedule, total: int, charge: int): int {
    total + fee(charge)
  }

  /** `charge` covers `total` and the fee on itself. */
  predicate Covers(fee: Schedule, total: int, charge: int) {
    charge == Next(fee, total, charge)
  }

  ghost predicate IsLeastCharge(fee: Schedule, total: int, charge: int) {
    Covers(fee, total, charge) && forall other :: Covers(fee, total, other) ==> charge <= other
  }

  /** `rounds` rounds of repricing, starting from the bare total. */
  function Climb(fee: Schedule, total: int, rounds: nat): int {
    if rounds == 0 then total else Next(fee, total, Climb(fee, total, rounds - 1))
  }

  ghost predicate Monotone(fee: Schedule) {
    forall a: int, b: int :: a <= b ==> fee(a) <= fee(b)
  }

  ghost predicate Bounded(fee: Schedule, cap: nat) {
    forall a: int :: fee(a) <= cap
  }

  // ---------- Every monotone schedule ----------

  lemma {:induction false} ClimbAscends(fee: Schedule, total: int, n: nat)
    requires Monotone(fee)
    ensures total <= Climb(fee, total, n) <= Climb(fee, total, n + 1)
  {
    if n > 0 {
      ClimbAscends(fee, total, n - 1);
    }
  }

  lemma {:induction false} ClimbAscendsTo(fee: Schedule, total: int, m: nat, n: nat)
    requires Monotone(fee) && m <= n
    ensures total <= Climb(fee, total, m) <= Climb(fee, total, n)
  {
    ClimbAscends(fee, total, m);
    if m < n {
      ClimbAscendsTo(fee, total, m, n - 1);
      ClimbAscends(fee, total, n - 1);
    }
  }

  /** No round ever passes a charge that is enough. */
  lemma {:induction false} ClimbStaysBelow(fee: Schedule, total: int, n: nat, charge: int)
    requires Monotone(fee) && Next(fee, total, charge) <= charge
    ensures Climb(fee, total, n) <= charge
  {
    if n > 0 {
      ClimbStaysBelow(fee, total, n - 1, charge);
    }
  }

  lemma {:induction false} ClimbStays(fee: Schedule, total: int, m: nat, n: nat)
    requires m <= n && Covers(fee, total, Climb(fee, total, m))
    ensures Climb(fee, total, n) == Climb(fee, total, m)
  {
    if m < n {
      ClimbStays(fee, total, m, n - 1);
    }
  }

  /** A climb that settles, settles on the least charge. */
  lemma SettledIsLeast(fee: Schedule, total: int, n: nat)
    requires Monotone(fee) && Covers(fee, total, Climb(fee, total, n))
    ensures IsLeastCharge(fee, total, Climb(fee, total, n))
  {
    forall other | Covers(fee, total, other)
      ensures Climb(fee, total, n) <= other
    {
      ClimbStaysBelow(fee, total, n, other);
    }
  }

  /** A climb below some charge that is enough cannot go on for ever: a least charge exists. */
  lemma {:induction false} LeastChargeExists(fee: Schedule, total: int, enough: int, n: nat) returns (rounds: nat)
    requires Monotone(fee) && Next(fee, total, enough) <= enough
    ensures IsLeastCharge(fee, total, Climb(fee, total, rounds))
    decreases enough - Climb(fee, total, n)
  {
    ClimbAscends(fee, total, n);
    ClimbStaysBelow(fee, total, n, enough);
    if Covers(fee, total, Climb(fee, total, n)) {
      SettledIsLeast(fee, total, n);
      rounds := n;
    } else {
      ClimbStaysBelow(fee, total, n + 1, enough);
      rounds := LeastChargeExists(fee, total, enough, n + 1);
    }
  }

  /** A larger total stays at least as far ahead in every round. */
  lemma {:induction false} ClimbKeepsDistance(fee: Schedule, a: int, b: int, n: nat)
    requires Monotone(fee) && a <= b
    ensures Climb(fee, a, n) + (b - a) <= Climb(fee, b, n)
  {
    if n > 0 {
      ClimbKeepsDistance(fee, a, b, n - 1);
    }
  }

  // ---------- Schedules that are smooth but for one jump ----------

  /** A twentieth, rounded up: what one round leaves of a shortfall. */
  function Shrunk(gap: nat): nat {
    (500 * gap + 9999) / 10000
  }

  /** From `from` on, the fee never rises by more than a twentieth of the charge's rise. */
  ghost predicate SmoothFrom(fee: Schedule, from: int) {
    forall a: int, b: int :: from <= a <= b ==> fee(b) - fee(a) <= Shrunk(b - a)
  }

  const CAP: nat := 200000

  lemma OneRound(fee: Schedule, total: int, n: nat, x: int, gap: nat, left: nat)
    requires Monotone(fee) && SmoothFrom(fee, Climb(fee, total, n)) && IsLeastCharge(fee, total, x)
    requires x - Climb(fee, total, n) <= gap
    requires Shrunk(gap) <= left || gap <= left + 1
    ensures SmoothFrom(fee, Climb(fee, total, n + 1))
    ensures 0 <= x - Climb(fee, total, n + 1) <= left
  {
    var c := Climb(fee, total, n);
    ClimbAscends(fee, total, n);
    ClimbStaysBelow(fee, total, n, x);
    ClimbStaysBelow(fee, total, n + 1, x);
    assert fee(x) - fee(c) <= Shrunk(x - c);
    assert Climb(fee, total, n + 1) == c ==> Covers(fee, total, c);
  }

  /** Where the schedule is smooth, six rounds close any shortfall. */
  lemma SixRounds(fee: Schedule, total: int, n: nat)
    requires Monotone(fee) && Bounded(fee, CAP) && SmoothFrom(fee, Climb(fee, total, n))
    ensures IsLeastCharge(fee, total, Climb(fee, total, n + 6))
  {
    hide Climb, SmoothFrom, Shrunk, Covers, Monotone, Bounded;
    assert Shrunk(200000) <= 10000 && Shrunk(10000) <= 500 && Shrunk(500) <= 25 && Shrunk(25) <= 2 by {
      ShrunkGaps();
    }
    var x := FirstGap(fee, total, n);
    OneRound(fee, total, n, x, 200000, 10000);
    OneRound(fee, total, n + 1, x, 10000, 500);
    OneRound(fee, total, n + 2, x, 500, 25);
    OneRound(fee, total, n + 3, x, 25, 2);
    OneRound(fee, total, n + 4, x, 2, 1);
    OneRound(fee, total, n + 5, x, 1, 0);
  }

  lemma ShrunkGaps()
    ensures Shrunk(200000) <= 10000 && Shrunk(10000) <= 500 && Shrunk(500) <= 25 && Shrunk(25) <= 2
  {}

  /** No climb is ever further than the cap from the least charge. */
  lemma FirstGap(fee: Schedule, total: int, n: nat) returns (x: int)
    requires Monotone(fee) && Bounded(fee, CAP)
    ensures IsLeastCharge(fee, total, x) && x - Climb(fee, total, n) <= CAP
  {
    var rounds := LeastChargeExists(fee, total, total + CAP, 0);
    x := Climb(fee, total, rounds);
    ClimbAscends(fee, total, n);
  }

  /** `fee` is `below` until it jumps at `jump`, and smooth again from there. */
  ghost predicate OneJump(fee: Schedule, below: Schedule, jump: int, from: int) {
    && Monotone(fee) && Bounded(fee, CAP) && SmoothFrom(fee, if jump < from then from else jump)
    && Monotone(below) && Bounded(below, CAP) && SmoothFrom(below, from)
    && forall a: int :: a < jump ==> fee(a) == below(a)
  }

  lemma {:induction false} ClimbBelowJump(fee: Schedule, below: Schedule, total: int, jump: int, n: nat)
    requires Monotone(fee) && forall a: int :: a < jump ==> fee(a) == below(a)
    requires Climb(fee, total, n) < jump
    ensures Climb(fee, total, n) == Climb(below, total, n)
  {
    if n > 0 {
      ClimbAscends(fee, total, n - 1);
      ClimbBelowJump(fee, below, total, jump, n - 1);
    }
  }

  /** Six rounds either settle below the jump or pass it, and six more settle above. */
  lemma TwelveRounds(fee: Schedule, below: Schedule, jump: int, total: int, n: nat)
    requires OneJump(fee, below, jump, total)
    ensures IsLeastCharge(fee, total, Climb(fee, total, n + 12))
  {
    hide Climb;
    var m := n + 6;
    ClimbAscendsTo(fee, total, 0, m);
    if Climb(fee, total, m) < jump {
      SettlesBelowJump(fee, below, jump, total, n);
      ClimbStays(fee, total, m, m + 6);
    } else {
      SixRounds(fee, total, m);
    }
  }

  lemma SettlesBelowJump(fee: Schedule, below: Schedule, jump: int, total: int, n: nat)
    requires OneJump(fee, below, jump, total)
    requires Climb(fee, total, n + 6) < jump
    ensures IsLeastCharge(fee, total, Climb(fee, total, n + 6))
  {
    hide Climb;
    ClimbBelowJump(fee, below, total, jump, n + 6);
    ClimbAscendsTo(below, total, 0, n);
    SixRounds(below, total, n);
    SettledIsLeast(fee, total, n + 6);
  }
}
