/** The food bank service as the program runs it: row updates in place, step by step, each
    method one transaction under the event lock. */
module FoodBankService {
  import opened Wrappers
  import opened CollectionWindows
  import opened FoodBankSettings
  import opened FoodBank

  /** The food bank service over one event's rows. */
  class FoodBankService {
    const day: Calendar
    var now: int
    var creator: UserId
    var updatedAt: int
    var draft: Draft
    var status: CollectionStatus
    var passes: seq<Pass>

    ghost function Rows(): Bank
      reads this
    {
      Bank(now, creator, updatedAt, draft, status, passes)
    }

    ghost predicate Valid()
      reads this
    {
      Sound(Rows())
    }

    constructor (day: Calendar, now: int, creator: UserId, draft: Draft)
      requires IsAccepted(draft)
      ensures Valid() && this.day == day
      ensures Rows() == Bank(now, creator, now, draft, NotStarted, [])
    {
      this.day, this.now, this.creator, this.updatedAt := day, now, creator, now;
      this.draft, this.status, this.passes := draft, NotStarted, [];
    }

    /** The database clock moves on by itself, and never back. */
    method AdvanceClock(to: int)
      requires Valid() && now <= to
      modifies this`now
      ensures Valid() && Keeps(old(Rows()), Rows())
      ensures Rows() == old(Rows()).(now := to)
    {
      now := to;
    }

    method Allocate(user: UserId) returns (outcome: Outcome)
      requires Valid()
      modifies this`passes
      ensures Valid() && Keeps(old(Rows()), Rows())
      ensures (Rows(), outcome) == FoodBank.Allocate(old(Rows()), user)
    {
      AllocateKeepsSound(Rows(), user);
      if !draft.isFoodBank {
        return NotFound;
      }
      var existing := PassOf(passes, user);
      if existing.Some? {
        return Granted(existing.value);
      }
      if now >= draft.end || status == Closed {
        return NothingLeft;
      }
      var window := NextCollectionWindow(draft.Settings(), GroupByStart(passes), now);
      if window.None? {
        return NothingLeft;
      }
      var pass := Pass(user, window.value.start, window.value.end, None, None);
      passes := passes + [pass];
      outcome := Granted(pass);
    }

    method UpdateCollection(user: UserId, expected: int, to: CollectionStatus, stamp: int) returns (outcome: Outcome)
      requires Valid()
      modifies this`status, this`updatedAt
      ensures Valid() && Keeps(old(Rows()), Rows())
      ensures (Rows(), outcome) == FoodBank.UpdateCollection(old(Rows()), day, user, expected, to, stamp)
    {
      if creator != user {
        return Forbidden;
      }
      if updatedAt != expected {
        return Stale;
      }
      var today := day(now);
      if to == Open && (today < day(draft.start) || today > day(draft.end)) {
        return Refused;
      }
      if to == Paused && status != Open {
        return Refused;
      }
      status, updatedAt := to, stamp;
      outcome := Done;
    }

    method Reschedule(user: UserId, expected: int, start: int, stamp: int) returns (outcome: Outcome)
      requires Valid()
      modifies this`draft, this`status, this`updatedAt, this`passes
      ensures Valid() && Keeps(old(Rows()), Rows())
      ensures (Rows(), outcome) == FoodBank.Reschedule(old(Rows()), day, user, expected, start, stamp)
    {
      ghost var bank := Rows();
      if creator != user {
        return Forbidden;
      }
      if updatedAt != expected {
        return Stale;
      }
      if status == Open || day(start) < day(now) {
        return Refused;
      }
      var shift := start - draft.start;
      if shift == 0 {
        return Done;
      }
      draft := draft.(start := start, end := draft.end + shift);
      status, updatedAt := NotStarted, stamp;
      passes := ShiftPasses(passes, shift);
      ShiftKeepsSound(bank, shift);
      outcome := Done;
    }

    method Redeem(id: nat, staff: UserId) returns (outcome: Outcome)
      requires Valid()
      modifies this`passes
      ensures Valid() && Keeps(old(Rows()), Rows())
      ensures (Rows(), outcome) == FoodBank.Redeem(old(Rows()), day, id, staff)
    {
      RedeemKeepsSound(Rows(), day, id, staff);
      if id >= |passes| {
        return NotFound;
      }
      var today := day(now);
      if passes[id].IsUsed() || today < day(draft.start) || today > day(draft.end) || status != Open {
        return Refused;
      }
      passes := passes[id := passes[id].(collectedAt := Some(now), collectedBy := Some(staff))];
      outcome := Done;
    }

    method EditEvent(edited: Draft, stamp: int) returns (outcome: Outcome)
      requires Valid()
      modifies this`draft, this`updatedAt
      ensures Valid() && Keeps(old(Rows()), Rows())
      ensures (Rows(), outcome) == FoodBank.EditEvent(old(Rows()), edited, stamp)
    {
      if AssertFoodBankSettings(edited) != Accepted || !edited.isFoodBank {
        return Refused;
      }
      if SettingsOf(edited) != SettingsOf(draft) && passes != [] {
        return Refused;
      }
      draft, updatedAt := edited, stamp;
      outcome := Done;
    }
  }
}
