/** What an event must look like to be saved with, or without, food bank settings. */
module FoodBankSettings {
  import opened Wrappers
  import opened CollectionWindows

  datatype Draft = Draft(
    isFoodBank: bool,
    isPhysical: bool,
    isRecurring: bool,
    start: int,
    end: int,
    totalMeals: Option<int>,
    slotCapacity: Option<int>,
    slotMinutes: Option<int>)
  {
    /** The collection settings of a complete draft. */
    function Settings(): Settings
      requires totalMeals.Some? && slotCapacity.Some? && slotMinutes.Some?
    {
      CollectionWindows.Settings(start, end, totalMeals.value, slotCapacity.value, slotMinutes.value)
    }

    predicate Complete() {
      totalMeals.Some? && slotCapacity.Some? && slotMinutes.Some?
    }
  }

  datatype Verdict = Accepted | NotAFoodBank | NeedsVenue | InvalidSettings | TooFewWindows

  /** The checks in the order the program makes them. */
  function AssertFoodBankSettings(draft: Draft): Verdict {
    if !draft.isFoodBank then
      if draft.totalMeals.Some? || draft.slotCapacity.Some? || draft.slotMinutes.Some? then NotAFoodBank else Accepted
    else if !draft.isPhysical || draft.isRecurring then
      NeedsVenue
    else if !draft.Complete() then
      InvalidSettings
    else
      var s := draft.Settings();
      if s.total < 1 || s.total > 1000000
         || s.capacity < 1 || s.capacity > 10000 || s.capacity > s.total
         || s.minutes < 5 || s.minutes > 120 then
        InvalidSettings
      else if Windows(s) < 1 || Windows(s) * s.capacity < s.total then
        TooFewWindows
      else
        Accepted
  }

  predicate IsAccepted(draft: Draft) {
    draft.isFoodBank && AssertFoodBankSettings(draft) == Accepted
  }

  /** The bounds of the check other than the number of windows. */
  predicate WithinBounds(s: Settings) {
    && 1 <= s.capacity <= s.total <= 1000000
    && s.capacity <= 10000
    && 5 <= s.minutes <= 120
  }

  /** For otherwise valid settings, acceptance is exactly the promise that nobody is turned
      away before the first window is over while a meal is left. */
  lemma AcceptedMeansRoomForAll(draft: Draft)
    requires draft.isFoodBank && draft.isPhysical && !draft.isRecurring
    requires draft.Complete() && WithinBounds(draft.Settings())
    ensures IsAccepted(draft) <==>
            var s := draft.Settings();
            forall slots, now :: now < s.start + s.Duration() ==>
              (NextWindow(s, slots, now).None? <==> Reserved(slots) >= s.total)
  {
    var s := draft.Settings();
    if IsAccepted(draft) {
      forall slots, now | now < s.start + s.Duration()
        ensures NextWindow(s, slots, now).None? <==> Reserved(slots) >= s.total
      {
        NobodyTurnedAwayEarly(s, slots, now);
      }
    } else {
      CheckIsTight(s, s.start);
      var slots :| Reserved(slots) < s.total && NextWindow(s, slots, s.start).None?;
    }
  }

  /** Every draft: a food bank is accepted exactly if it has a venue and happens once, its
      settings are complete and within their bounds, and nobody would be turned away before
      the first window is over while a meal is left; any other event exactly if it has none of
      these settings. */
  lemma AcceptanceIsExact(draft: Draft)
    ensures draft.isFoodBank ==>
              (AssertFoodBankSettings(draft) == Accepted <==>
                && draft.isPhysical && !draft.isRecurring
                && draft.totalMeals.Some? && draft.slotCapacity.Some? && draft.slotMinutes.Some?
                && 1 <= draft.slotCapacity.value <= 10000
                && draft.slotCapacity.value <= draft.totalMeals.value <= 1000000
                && 5 <= draft.slotMinutes.value <= 120
                && var s := draft.Settings();
                   forall slots, now :: now < s.start + draft.slotMinutes.value * 60000 ==>
                     (NextWindow(s, slots, now).None? <==> Reserved(slots) >= s.total))
    ensures !draft.isFoodBank ==>
              (AssertFoodBankSettings(draft) == Accepted <==>
                draft.totalMeals.None? && draft.slotCapacity.None? && draft.slotMinutes.None?)
  {
    if draft.isFoodBank && draft.isPhysical && !draft.isRecurring && draft.Complete() {
      if WithinBounds(draft.Settings()) {
        AcceptedMeansRoomForAll(draft);
      }
    }
    hide NextWindow, Reserved, Windows;
  }

  /** Why a food bank is turned down: its venue before its settings, these before its windows. */
  lemma RefusedSettings(draft: Draft)
    requires draft.isFoodBank && AssertFoodBankSettings(draft) != Accepted
    ensures AssertFoodBankSettings(draft) ==
            if !draft.isPhysical || draft.isRecurring then NeedsVenue
            else if !draft.Complete() || !WithinBounds(draft.Settings()) then InvalidSettings
            else TooFewWindows
  {
    hide Windows;
  }

  /** Moving the collection hours as a whole never invalidates them. */
  lemma ShiftKeepsAcceptance(draft: Draft, shift: int)
    ensures AssertFoodBankSettings(draft.(start := draft.start + shift, end := draft.end + shift))
            == AssertFoodBankSettings(draft)
  {
    if draft.Complete() && draft.Settings().HasGrid() {
      var moved := draft.(start := draft.start + shift, end := draft.end + shift).Settings();
      assert Windows(moved) == Windows(draft.Settings());
    }
  }
}
