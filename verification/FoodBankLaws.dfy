/** What each operation on a food bank allows and writes: said of its rows alone. */
module FoodBankLaws {
  import opened Wrappers
  import opened CollectionWindows
  import opened FoodBankSettings
  import opened FoodBank

  /** Open, on one of the days of collection. */
  predicate CollectsNow(bank: Bank, day: Calendar) {
    bank.status == Open && OnItsDays(bank, day)
  }

  predicate OnItsDays(bank: Bank, day: Calendar) {
    day(bank.draft.start) <= day(bank.now) <= day(bank.draft.end)
  }

  /** Why someone may not manage a bank, if they may not: not its organiser, or looking at an
      old version. */
  predicate Denied(bank: Bank, user: UserId, expected: int, outcome: Outcome) {
    if !bank.draft.isFoodBank then outcome == NotFound
    else if bank.creator != user then outcome == Forbidden
    else bank.updatedAt != expected && outcome == Stale
  }

  predicate MayManage(bank: Bank, user: UserId, expected: int) {
    bank.draft.isFoodBank && bank.creator == user && bank.updatedAt == expected
  }

  // ---------- Claiming ----------

  /** A holder keeps the pass they have; a newcomer gets the first window with room from the
      current one on; nobody else changes. */
  lemma AllocationIsExact(bank: Bank, user: UserId)
    requires Sound(bank)
    ensures var (after, outcome) := Allocate(bank, user);
            && (outcome.Granted? || outcome == NothingLeft)
            && (!outcome.Granted? ==> after == bank)
            && (outcome.Granted? ==> outcome.pass.user == user && outcome.pass in after.passes)
            && ((exists i :: 0 <= i < |bank.passes| && bank.passes[i].user == user) ==>
                  outcome.Granted? && after == bank)
            && ((forall i :: 0 <= i < |bank.passes| ==> bank.passes[i].user != user) && outcome.Granted? ==>
                  && after == bank.(passes := bank.passes + [outcome.pass])
                  && outcome.pass.collectedAt.None? && outcome.pass.collectedBy.None?
                  && GetsFirstWindow(bank, outcome.pass))
  {
    PassOfFinds(bank.passes, user);
    var (after, outcome) := Allocate(bank, user);
    if PassOf(bank.passes, user).None? && outcome.Granted? {
      NextWindowIsEarliest(bank.draft.Settings(), GroupByStart(bank.passes), bank.now);
      assert after.passes[|bank.passes|] == outcome.pass;
    }
    if i :| 0 <= i < |bank.passes| && bank.passes[i].user == user {
      assert bank.passes[i] in bank.passes;
    }
    hide GroupByStart, NextWindow;
  }

  ghost predicate GetsFirstWindow(bank: Bank, pass: Pass)
    requires bank.draft.Complete() && bank.draft.Settings().HasGrid()
  {
    var s := bank.draft.Settings();
    exists k :: && FirstWithRoom(s, GroupByStart(bank.passes), CurrentIndex(s, bank.now), k)
                && Window(pass.start, pass.end) == GridWindow(s, k)
  }

  // ---------- Managing ----------

  /** The organiser opens only on a day of collection, pauses only what is open, and may
      always close or reset; only the status and the version change. */
  lemma StatusChangeIsExact(bank: Bank, day: Calendar, user: UserId, expected: int, to: CollectionStatus, stamp: int)
    ensures var (after, outcome) := UpdateCollection(bank, day, user, expected, to, stamp);
            if !MayManage(bank, user, expected) then Denied(bank, user, expected, outcome) && after == bank
            else if (to == Open && !OnItsDays(bank, day)) || (to == Paused && bank.status != Open) then
              outcome == Refused && after == bank
            else
              outcome == Done && after == bank.(status := to, updatedAt := stamp)
  {}

  /** The organiser moves a bank that is not open, to no earlier day than today.  Hours and
      uncollected passes move by the same time, collected passes stay, and collection has to
      be opened anew; moving to where it is changes nothing. */
  lemma MoveIsExact(bank: Bank, day: Calendar, user: UserId, expected: int, start: int, stamp: int)
    ensures var (after, outcome) := Reschedule(bank, day, user, expected, start, stamp);
            if !MayManage(bank, user, expected) then Denied(bank, user, expected, outcome) && after == bank
            else if bank.status == Open || day(start) < day(bank.now) then outcome == Refused && after == bank
            else if start == bank.draft.start then outcome == Done && after == bank
            else outcome == Done && IsMoved(bank, after, start, stamp)
  {}

  predicate IsMoved(bank: Bank, after: Bank, start: int, stamp: int) {
    && after.now == bank.now && after.creator == bank.creator
    && after.updatedAt == stamp && after.status == NotStarted
    && after.draft == bank.draft.(start := start, end := after.draft.end)
    && after.draft.end - start == bank.draft.end - bank.draft.start
    && |after.passes| == |bank.passes|
    && forall i :: 0 <= i < |bank.passes| ==>
         if bank.passes[i].collectedAt.Some? then after.passes[i] == bank.passes[i]
         else
           && after.passes[i] == bank.passes[i].(start := after.passes[i].start, end := after.passes[i].end)
           && after.passes[i].start - start == bank.passes[i].start - bank.draft.start
           && after.passes[i].end - start == bank.passes[i].end - bank.draft.start
  }

  // ---------- Redeeming ----------

  /** A pass is redeemed exactly if it is unused and collection is open on its days; then it
      notes when and by whom, and nothing else changes. */
  lemma RedemptionIsExact(bank: Bank, day: Calendar, id: nat, staff: UserId)
    ensures var (after, outcome) := Redeem(bank, day, id, staff);
            if id >= |bank.passes| then (after, outcome) == (bank, NotFound)
            else if bank.passes[id].collectedAt.Some? || !CollectsNow(bank, day) then
              (after, outcome) == (bank, Refused)
            else
              var pass := bank.passes[id];
              && outcome == Done
              && after == bank.(passes :=
                   bank.passes[id := Pass(pass.user, pass.start, pass.end, Some(bank.now), Some(staff))])
  {}

  // ---------- Editing ----------

  /** An edit is taken if the settings pass their check, the event stays what it is, and a food
      bank with passes keeps its hours, meals and windows. */
  lemma EditIsExact(bank: Bank, edited: Draft, stamp: int)
    ensures var (after, outcome) := EditEvent(bank, edited, stamp);
            if && AssertFoodBankSettings(edited) == Accepted && edited.isFoodBank == bank.draft.isFoodBank
               && (bank.draft.isFoodBank && |bank.passes| > 0 ==>
                     && edited.start == bank.draft.start && edited.end == bank.draft.end
                     && edited.totalMeals == bank.draft.totalMeals && edited.slotCapacity == bank.draft.slotCapacity
                     && edited.slotMinutes == bank.draft.slotMinutes)
            then outcome == Done && after == bank.(draft := edited, updatedAt := stamp)
            else outcome == Refused && after == bank
  {
    hide AssertFoodBankSettings;
  }
}
