/** Meal passes: claiming, managing collection, rescheduling and redeeming.  Every operation
    runs under the event lock and reads the database clock once. */
module FoodBank {
  import opened Wrappers
  import opened CollectionWindows
  import opened FoodBankSettings

  type UserId(==, !new) = nat
  type Calendar = int -> int

  datatype CollectionStatus = NotStarted | Open | Paused | Closed

  datatype Availability = Upcoming | Ended | Scheduled(status: CollectionStatus)

  datatype Pass = Pass(user: UserId, start: int, end: int, collectedAt: Option<int>, collectedBy: Option<UserId>) {
    predicate IsUsed() { collectedAt.Some? }
  }

  /** One food bank event and its passes; a pass's position is its identity. */
  datatype Bank = Bank(
    now: int,
    creator: UserId,
    updatedAt: int,
    draft: Draft,
    status: CollectionStatus,
    passes: seq<Pass>)

  datatype Outcome =
    | Done
    | Granted(pass: Pass)
    | NothingLeft
    | NotFound
    | Forbidden
    | Stale
    | Refused

  // ---------- Queries ----------

  function PassOf(passes: seq<Pass>, user: UserId): Option<Pass> {
    if |passes| == 0 then None
    else if passes[0].user == user then Some(passes[0])
    else PassOf(passes[1..], user)
  }

  function PassesAt(passes: seq<Pass>, start: int): nat {
    if |passes| == 0 then 0
    else PassesAt(passes[..|passes| - 1], start) + if passes[|passes| - 1].start == start then 1 else 0
  }

  function UncollectedAt(passes: seq<Pass>, start: int): nat {
    if |passes| == 0 then 0
    else
      var last := passes[|passes| - 1];
      UncollectedAt(passes[..|passes| - 1], start) + if last.start == start && !last.IsUsed() then 1 else 0
  }

  /** One more pass at `start`. */
  function Tally(slots: seq<Slot>, start: int): seq<Slot> {
    if |slots| == 0 then [Slot(start, 1)]
    else
      var front, last := slots[..|slots| - 1], slots[|slots| - 1];
      if last.start == start then front + [Slot(start, last.count + 1)] else Tally(front, start) + [last]
  }

  /** Passes grouped by start time. */
  function GroupByStart(passes: seq<Pass>): seq<Slot> {
    if |passes| == 0 then [] else Tally(GroupByStart(passes[..|passes| - 1]), passes[|passes| - 1].start)
  }

  lemma {:induction false} TallyAddsOne(slots: seq<Slot>, start: int)
    ensures Reserved(Tally(slots, start)) == Reserved(slots) + 1
    ensures forall t :: CountAt(Tally(slots, start), t) == CountAt(slots, t) + if t == start then 1 else 0
  {
    if |slots| > 0 {
      var front, last := slots[..|slots| - 1], slots[|slots| - 1];
      var tallied := Tally(slots, start);
      if last.start == start {
        assert tallied[..|tallied| - 1] == front;
      } else {
        TallyAddsOne(front, start);
        assert tallied[..|tallied| - 1] == Tally(front, start);
      }
    } else {
      assert Tally(slots, start)[..0] == [];
    }
  }

  lemma {:induction false} GroupsCountPasses(passes: seq<Pass>)
    ensures Reserved(GroupByStart(passes)) == |passes|
    ensures forall t :: CountAt(GroupByStart(passes), t) == PassesAt(passes, t)
  {
    if |passes| > 0 {
      GroupsCountPasses(passes[..|passes| - 1]);
      TallyAddsOne(GroupByStart(passes[..|passes| - 1]), passes[|passes| - 1].start);
    }
  }

  function CollectionAvailability(bank: Bank, day: Calendar): Availability {
    if day(bank.now) < day(bank.draft.start) then Upcoming
    else if day(bank.now) > day(bank.draft.end) then Ended
    else Scheduled(bank.status)
  }

  // ---------- What each transaction does ----------

  /** A claim, or the grant that comes with a donation. */
  function Allocate(bank: Bank, user: UserId): (Bank, Outcome) {
    var existing := PassOf(bank.passes, user);
    if !bank.draft.isFoodBank then (bank, NotFound)
    else if existing.Some? then (bank, Granted(existing.value))
    else if bank.now >= bank.draft.end || bank.status == Closed then (bank, NothingLeft)
    else if !bank.draft.Complete() || !bank.draft.Settings().HasGrid() then (bank, Refused)
    else
      var window := NextWindow(bank.draft.Settings(), GroupByStart(bank.passes), bank.now);
      if window.None? then (bank, NothingLeft)
      else
        var pass := Pass(user, window.value.start, window.value.end, None, None);
        (bank.(passes := bank.passes + [pass]), Granted(pass))
  }

  /** Only the organiser, and only on the version of the event they saw. */
  function AssertManage(bank: Bank, user: UserId, expected: int): Option<Outcome> {
    if !bank.draft.isFoodBank then Some(NotFound)
    else if bank.creator != user then Some(Forbidden)
    else if bank.updatedAt != expected then Some(Stale)
    else None
  }

  function UpdateCollection(bank: Bank, day: Calendar, user: UserId, expected: int, status: CollectionStatus,
                            stamp: int)
    : (Bank, Outcome)
  {
    var denied := AssertManage(bank, user, expected);
    if denied.Some? then (bank, denied.value)
    else if status == Open && !CollectionAvailability(bank, day).Scheduled? then (bank, Refused)
    else if status == Paused && bank.status != Open then (bank, Refused)
    else (bank.(status := status, updatedAt := stamp), Done)
  }

  function ShiftPass(pass: Pass, shift: int): Pass {
    if pass.IsUsed() then pass else pass.(start := pass.start + shift, end := pass.end + shift)
  }

  function ShiftPasses(passes: seq<Pass>, shift: int): seq<Pass> {
    seq(|passes|, i requires 0 <= i < |passes| => ShiftPass(passes[i], shift))
  }

  function ShiftBank(bank: Bank, shift: int): Bank {
    bank.(
      draft := bank.draft.(start := bank.draft.start + shift, end := bank.draft.end + shift),
      passes := ShiftPasses(bank.passes, shift))
  }

  function Reschedule(bank: Bank, day: Calendar, user: UserId, expected: int, start: int, stamp: int): (Bank, Outcome) {
    var denied := AssertManage(bank, user, expected);
    if denied.Some? then (bank, denied.value)
    else if bank.status == Open then (bank, Refused)
    else if day(start) < day(bank.now) then (bank, Refused)
    else if start == bank.draft.start then (bank, Done)
    else (ShiftBank(bank, start - bank.draft.start).(status := NotStarted, updatedAt := stamp), Done)
  }

  function Redeem(bank: Bank, day: Calendar, id: nat, staff: UserId): (Bank, Outcome) {
    if id >= |bank.passes| then (bank, NotFound)
    else if bank.passes[id].IsUsed() || CollectionAvailability(bank, day) != Scheduled(Open) then (bank, Refused)
    else
      var used := bank.passes[id].(collectedAt := Some(bank.now), collectedBy := Some(staff));
      (bank.(passes := bank.passes[id := used]), Done)
  }

  /** Editing the event itself: settings are checked, and fixed once a pass exists. */
  function EditEvent(bank: Bank, edited: Draft, stamp: int): (Bank, Outcome) {
    if AssertFoodBankSettings(edited) != Accepted || edited.isFoodBank != bank.draft.isFoodBank then (bank, Refused)
    else if bank.draft.isFoodBank && SettingsOf(edited) != SettingsOf(bank.draft) && bank.passes != [] then
      (bank, Refused)
    else (bank.(draft := edited, updatedAt := stamp), Done)
  }

  function SettingsOf(draft: Draft): (int, int, Option<int>, Option<int>, Option<int>) {
    (draft.start, draft.end, draft.totalMeals, draft.slotCapacity, draft.slotMinutes)
  }

  // ---------- The invariant ----------

  ghost predicate OnGrid(s: Settings, pass: Pass) {
    exists k :: 0 <= k && GridStart(s, k) < s.end && Window(pass.start, pass.end) == GridWindow(s, k)
  }

  ghost predicate Sound(bank: Bank) {
    IsAccepted(bank.draft) &&
    var s := bank.draft.Settings();
    && |bank.passes| <= s.total
    && (forall i, j :: 0 <= i < j < |bank.passes| ==> bank.passes[i].user != bank.passes[j].user)
    && (forall i :: 0 <= i < |bank.passes| && !bank.passes[i].IsUsed() ==> OnGrid(s, bank.passes[i]))
    && (forall t :: UncollectedAt(bank.passes, t) <= s.capacity)
  }

  /** What no transaction ever does: lose a pass, hand it to someone else, or touch one that
      has been collected. */
  ghost predicate Keeps(before: Bank, after: Bank) {
    && before.now <= after.now
    && |before.passes| <= |after.passes|
    && (forall i :: 0 <= i < |before.passes| ==> before.passes[i].user == after.passes[i].user)
    && (forall i :: 0 <= i < |before.passes| && before.passes[i].IsUsed() ==> before.passes[i] == after.passes[i])
  }

  lemma {:induction false} UncollectedAtMost(passes: seq<Pass>, t: int)
    ensures UncollectedAt(passes, t) <= PassesAt(passes, t)
  {
    if |passes| > 0 {
      UncollectedAtMost(passes[..|passes| - 1], t);
    }
  }

  lemma {:induction false} PassOfFinds(passes: seq<Pass>, user: UserId)
    ensures PassOf(passes, user).Some? ==>
              PassOf(passes, user).value in passes && PassOf(passes, user).value.user == user
    ensures PassOf(passes, user).None? ==> forall p :: p in passes ==> p.user != user
  {
    if |passes| > 0 && passes[0].user != user {
      PassOfFinds(passes[1..], user);
      assert passes == [passes[0]] + passes[1..];
    }
  }

  lemma AllocateKeepsSound(bank: Bank, user: UserId)
    requires Sound(bank)
    ensures Sound(Allocate(bank, user).0) && Keeps(bank, Allocate(bank, user).0)
  {
    var (after, outcome) := Allocate(bank, user);
    if after != bank {
      var s := bank.draft.Settings();
      var slots := GroupByStart(bank.passes);
      GroupsCountPasses(bank.passes);
      PassOfFinds(bank.passes, user);
      NextWindowIsEarliest(s, slots, bank.now);
      CurrentWindowContains(s, bank.now);
      var pass := outcome.pass;
      assert OnGrid(s, pass);
      assert after.passes[..|bank.passes|] == bank.passes;
      forall t
        ensures UncollectedAt(after.passes, t) <= s.capacity
      {
        UncollectedAtMost(bank.passes, t);
      }
    }
  }

  lemma {:induction false} UncollectedShifts(bank: Bank, shift: int, n: nat, t: int)
    requires n <= |bank.passes|
    ensures UncollectedAt(ShiftBank(bank, shift).passes[..n], t + shift) == UncollectedAt(bank.passes[..n], t)
  {
    if n > 0 {
      UncollectedShifts(bank, shift, n - 1, t);
      assert bank.passes[..n][..n - 1] == bank.passes[..n - 1];
      var moved := ShiftBank(bank, shift).passes;
      assert moved[..n][..n - 1] == moved[..n - 1];
    }
  }

  lemma ShiftKeepsSound(bank: Bank, shift: int)
    requires Sound(bank)
    ensures Sound(ShiftBank(bank, shift)) && Keeps(bank, ShiftBank(bank, shift))
  {
    var after := ShiftBank(bank, shift);
    var s, moved := bank.draft.Settings(), after.draft.Settings();
    ShiftKeepsAcceptance(bank.draft, shift);
    forall i | 0 <= i < |after.passes| && !after.passes[i].IsUsed()
      ensures OnGrid(moved, after.passes[i])
    {
      var pass := bank.passes[i];
      var k :| 0 <= k && GridStart(s, k) < s.end && Window(pass.start, pass.end) == GridWindow(s, k);
      assert GridStart(moved, k) == GridStart(s, k) + shift;
      assert Window(after.passes[i].start, after.passes[i].end) == GridWindow(moved, k);
    }
    forall t
      ensures UncollectedAt(after.passes, t) <= moved.capacity
    {
      UncollectedShifts(bank, shift, |bank.passes|, t - shift);
      assert after.passes[..|bank.passes|] == after.passes && bank.passes[..|bank.passes|] == bank.passes;
    }
  }

  lemma MoveKeepsSound(bank: Bank, day: Calendar, user: UserId, expected: int, start: int, stamp: int)
    requires Sound(bank)
    ensures Sound(Reschedule(bank, day, user, expected, start, stamp).0)
    ensures Keeps(bank, Reschedule(bank, day, user, expected, start, stamp).0)
  {
    hide AssertFoodBankSettings, GridStart, GridWindow;
    ShiftKeepsSound(bank, start - bank.draft.start);
  }

  lemma {:induction false} CollectingFrees(passes: seq<Pass>, id: nat, used: Pass, t: int)
    requires id < |passes| && used.IsUsed()
    ensures UncollectedAt(passes[id := used], t) <= UncollectedAt(passes, t)
  {
    var n := |passes| - 1;
    if id < n {
      CollectingFrees(passes[..n], id, used, t);
      assert passes[id := used][..n] == passes[..n][id := used];
    } else {
      assert passes[id := used][..n] == passes[..n];
    }
  }

  lemma RedeemKeepsSound(bank: Bank, day: Calendar, id: nat, staff: UserId)
    requires Sound(bank)
    ensures Sound(Redeem(bank, day, id, staff).0) && Keeps(bank, Redeem(bank, day, id, staff).0)
  {
    var after := Redeem(bank, day, id, staff).0;
    if after != bank {
      forall t
        ensures UncollectedAt(after.passes, t) <= bank.draft.Settings().capacity
      {
        CollectingFrees(bank.passes, id, after.passes[id], t);
      }
    }
  }

  lemma EditKeepsSound(bank: Bank, edited: Draft, stamp: int)
    requires Sound(bank)
    ensures Sound(EditEvent(bank, edited, stamp).0) && Keeps(bank, EditEvent(bank, edited, stamp).0)
  {
    hide Windows, GridWindow, GridStart;
  }

  // ---------- Runs ----------

  datatype Step =
    | Tick(to: int)
    | Claim(user: UserId)
    | SetStatus(user: UserId, expected: int, status: CollectionStatus, stamp: int)
    | Move(user: UserId, expected: int, start: int, stamp: int)
    | Collect(id: nat, staff: UserId)
    | Edit(edited: Draft, stamp: int)

  function Apply(bank: Bank, day: Calendar, step: Step): Bank {
    match step
    case Tick(to) => if bank.now <= to then bank.(now := to) else bank
    case Claim(user) => Allocate(bank, user).0
    case SetStatus(user, expected, status, stamp) => UpdateCollection(bank, day, user, expected, status, stamp).0
    case Move(user, expected, start, stamp) => Reschedule(bank, day, user, expected, start, stamp).0
    case Collect(id, staff) => Redeem(bank, day, id, staff).0
    case Edit(edited, stamp) => EditEvent(bank, edited, stamp).0
  }

  function Run(bank: Bank, day: Calendar, steps: seq<Step>): Bank {
    if |steps| == 0 then bank else Apply(Run(bank, day, steps[..|steps| - 1]), day, steps[|steps| - 1])
  }

  lemma StepKeepsSound(bank: Bank, day: Calendar, step: Step)
    requires Sound(bank)
    ensures Sound(Apply(bank, day, step)) && Keeps(bank, Apply(bank, day, step))
  {
    hide Allocate, Reschedule, Redeem, EditEvent, AssertFoodBankSettings;
    match step
    case Claim(user) => AllocateKeepsSound(bank, user);
    case Move(user, expected, start, stamp) => MoveKeepsSound(bank, day, user, expected, start, stamp);
    case Collect(id, staff) => RedeemKeepsSound(bank, day, id, staff);
    case Edit(edited, stamp) => EditKeepsSound(bank, edited, stamp);
    case _ =>
  }

  /** Whatever is claimed, donated, opened, moved, collected and edited, in any order: never
      more passes than meals, one per person, every uncollected pass on the current grid,
      no window over capacity, and collected passes left as they were. */
  lemma {:induction false} RunsStaySound(bank: Bank, day: Calendar, steps: seq<Step>)
    requires Sound(bank)
    ensures Sound(Run(bank, day, steps)) && Keeps(bank, Run(bank, day, steps))
  {
    if |steps| > 0 {
      RunsStaySound(bank, day, steps[..|steps| - 1]);
      StepKeepsSound(Run(bank, day, steps[..|steps| - 1]), day, steps[|steps| - 1]);
    }
  }

  /** After any run, a newcomer gets a pass exactly when the bank is neither over nor closed,
      a meal is left, and some window from the current one on has room.  Before the first
      window is over the last of these goes without saying. */
  lemma NewcomersAreServed(bank: Bank, day: Calendar, steps: seq<Step>, user: UserId)
    requires Sound(bank) && PassOf(Run(bank, day, steps).passes, user).None?
    ensures var b := Run(bank, day, steps);
            && IsAccepted(b.draft)
            && var s, slots := b.draft.Settings(), GroupByStart(b.passes);
            && (Allocate(b, user).1.Granted? <==>
                  && b.now < s.end && b.status != Closed && |b.passes| < s.total
                  && !AllFull(s, slots, CurrentIndex(s, b.now)))
            && (b.now < s.start + s.Duration() && |b.passes| < s.total ==> !AllFull(s, slots, CurrentIndex(s, b.now)))
  {
    RunsStaySound(bank, day, steps);
    var b := Run(bank, day, steps);
    var s, slots := b.draft.Settings(), GroupByStart(b.passes);
    GroupsCountPasses(b.passes);
    NextWindowIsEarliest(s, slots, b.now);
    if b.now < s.start + s.Duration() {
      NobodyTurnedAwayEarly(s, slots, b.now);
    }
  }

  /** Claiming again returns the same pass and issues nothing. */
  lemma ClaimingTwice(bank: Bank, user: UserId)
    requires Sound(bank) && Allocate(bank, user).1.Granted?
    ensures var (once, granted) := Allocate(bank, user);
            Allocate(once, user) == (once, granted)
  {
    PassOfFinds(bank.passes, user);
    var (once, granted) := Allocate(bank, user);
    if once != bank {
      PassOfLast(bank.passes, granted.pass);
    }
  }

  lemma {:induction false} PassOfLast(passes: seq<Pass>, pass: Pass)
    requires forall p :: p in passes ==> p.user != pass.user
    ensures PassOf(passes + [pass], pass.user) == Some(pass)
  {
    if |passes| > 0 {
      assert (passes + [pass])[1..] == passes[1..] + [pass];
      PassOfLast(passes[1..], pass);
    }
  }

  /** Moving there and back restores the schedule and every pass. */
  lemma MovingBackRestores(bank: Bank, shift: int)
    ensures ShiftBank(ShiftBank(bank, shift), -shift) == bank
  {
    var back := ShiftBank(ShiftBank(bank, shift), -shift);
    assert forall i :: 0 <= i < |bank.passes| ==> back.passes[i] == bank.passes[i];
  }

  /** A move keeps every holder's place relative to the opening, and the booked windows as
      full as they were. */
  lemma MovingKeepsPlaces(bank: Bank, shift: int, t: int)
    ensures UncollectedAt(ShiftBank(bank, shift).passes, t + shift) == UncollectedAt(bank.passes, t)
  {
    UncollectedShifts(bank, shift, |bank.passes|, t);
    var moved := ShiftBank(bank, shift).passes;
    assert moved[..|bank.passes|] == moved && bank.passes[..|bank.passes|] == bank.passes;
  }

  // ---------- Collected passes ----------

  function CollectedAt(passes: seq<Pass>, start: int): nat {
    if |passes| == 0 then 0
    else
      var last := passes[|passes| - 1];
      CollectedAt(passes[..|passes| - 1], start) + if last.start == start && last.IsUsed() then 1 else 0
  }

  /** The cap with collected passes counted too. */
  ghost predicate FullCap(bank: Bank) {
    bank.draft.Complete() && forall t :: PassesAt(bank.passes, t) <= bank.draft.Settings().capacity
  }

  /** What an organiser can check before moving the bank: collected passes stay where they
      are, the others come to join them. */
  ghost predicate MoveFits(bank: Bank, shift: int) {
    && bank.draft.Complete()
    && forall t :: CollectedAt(bank.passes, t) + UncollectedAt(bank.passes, t - shift) <= bank.draft.Settings().capacity
  }

  lemma {:induction false} ShiftedCounts(bank: Bank, shift: int, n: nat, t: int)
    requires n <= |bank.passes|
    ensures PassesAt(ShiftBank(bank, shift).passes[..n], t) ==
            CollectedAt(bank.passes[..n], t) + UncollectedAt(bank.passes[..n], t - shift)
  {
    if n > 0 {
      ShiftedCounts(bank, shift, n - 1, t);
      var moved := ShiftBank(bank, shift).passes;
      assert bank.passes[..n][..n - 1] == bank.passes[..n - 1] && moved[..n][..n - 1] == moved[..n - 1];
    }
  }

  /** After a move no window holds more passes than its capacity, collected ones included,
      exactly when the move fits. */
  lemma ShiftKeepsFullCapExactly(bank: Bank, shift: int)
    ensures FullCap(ShiftBank(bank, shift)) <==> MoveFits(bank, shift)
  {
    forall t
      ensures PassesAt(ShiftBank(bank, shift).passes, t) ==
              CollectedAt(bank.passes, t) + UncollectedAt(bank.passes, t - shift)
    {
      ShiftedCounts(bank, shift, |bank.passes|, t);
      assert bank.passes[..|bank.passes|] == bank.passes;
      assert ShiftBank(bank, shift).passes[..|bank.passes|] == ShiftBank(bank, shift).passes;
    }
    hide PassesAt, CollectedAt, UncollectedAt;
    if FullCap(ShiftBank(bank, shift)) {
      forall t: int
        ensures CollectedAt(bank.passes, t) + UncollectedAt(bank.passes, t - shift) <= bank.draft.Settings().capacity
      {
        assert PassesAt(ShiftBank(bank, shift).passes, t) <= bank.draft.Settings().capacity;
      }
    }
  }

  /** A move that takes place must fit; other steps always do. */
  ghost predicate StepFits(bank: Bank, day: Calendar, step: Step) {
    step.Move? && Reschedule(bank, day, step.user, step.expected, step.start, step.stamp).1 == Done ==>
      MoveFits(bank, step.start - bank.draft.start)
  }

  lemma {:induction false} SameStartsSameCounts(a: seq<Pass>, b: seq<Pass>, t: int)
    requires |a| == |b| && forall i :: 0 <= i < |a| ==> a[i].start == b[i].start
    ensures PassesAt(a, t) == PassesAt(b, t)
  {
    if |a| > 0 {
      SameStartsSameCounts(a[..|a| - 1], b[..|b| - 1], t);
    }
  }

  lemma ClaimKeepsFullCap(bank: Bank, user: UserId)
    requires Sound(bank) && FullCap(bank)
    ensures Sound(Allocate(bank, user).0) && FullCap(Allocate(bank, user).0)
  {
    AllocateKeepsSound(bank, user);
    var (after, outcome) := Allocate(bank, user);
    if after != bank {
      var slots := GroupByStart(bank.passes);
      GroupsCountPasses(bank.passes);
      NextWindowIsEarliest(bank.draft.Settings(), slots, bank.now);
      assert after.passes[..|bank.passes|] == bank.passes;
    }
  }

  lemma OtherStepsKeepFullCap(bank: Bank, day: Calendar, step: Step)
    requires Sound(bank) && FullCap(bank) && !step.Move? && !step.Claim?
    ensures FullCap(Apply(bank, day, step))
  {
    var after := Apply(bank, day, step);
    if step.Collect? {
      forall t
        ensures PassesAt(after.passes, t) == PassesAt(bank.passes, t)
      {
        SameStartsSameCounts(after.passes, bank.passes, t);
      }
    }
    hide Windows;
  }

  /** Each step keeps the full cap, except a move that does not fit, which always breaks it. */
  lemma StepKeepsFullCapExactly(bank: Bank, day: Calendar, step: Step)
    requires Sound(bank) && FullCap(bank)
    ensures FullCap(Apply(bank, day, step)) <==> StepFits(bank, day, step)
  {
    hide Sound, Allocate, PassesAt, CollectedAt, UncollectedAt;
    if step.Move? {
      assert ShiftBank(bank, 0) == bank by { MovingNowhere(bank); }
      ShiftKeepsFullCapExactly(bank, step.start - bank.draft.start);
    } else if step.Claim? {
      ClaimKeepsFullCap(bank, step.user);
    } else {
      OtherStepsKeepFullCap(bank, day, step);
    }
  }

  lemma MovingNowhere(bank: Bank)
    ensures ShiftBank(bank, 0) == bank
  {
    assert forall i :: 0 <= i < |bank.passes| ==> ShiftPass(bank.passes[i], 0) == bank.passes[i];
  }

  /** The full cap at every moment of a run. */
  ghost predicate FullCapThroughout(bank: Bank, day: Calendar, steps: seq<Step>) {
    && FullCap(Run(bank, day, steps))
    && (|steps| > 0 ==> FullCapThroughout(bank, day, steps[..|steps| - 1]))
  }

  /** Every step of a run fits at its moment. */
  ghost predicate EveryStepFits(bank: Bank, day: Calendar, steps: seq<Step>) {
    |steps| > 0 ==>
      var before := steps[..|steps| - 1];
      EveryStepFits(bank, day, before) && StepFits(Run(bank, day, before), day, steps[|steps| - 1])
  }

  /** Lifted to runs: no window ever holds more passes than its capacity, collected ones
      included, exactly when every move that takes place fits at its moment. */
  lemma {:induction false} FullCapHoldsExactly(bank: Bank, day: Calendar, steps: seq<Step>)
    requires Sound(bank) && FullCap(bank)
    ensures FullCapThroughout(bank, day, steps) <==> EveryStepFits(bank, day, steps)
  {
    hide Sound, FullCap, StepFits, Apply;
    if |steps| > 0 {
      var before := steps[..|steps| - 1];
      FullCapHoldsExactly(bank, day, before);
      RunsStaySound(bank, day, before);
      if FullCapThroughout(bank, day, before) {
        assert FullCap(Run(bank, day, before));
        StepKeepsFullCapExactly(Run(bank, day, before), day, steps[|steps| - 1]);
      }
    }
  }

  // The per-window cap is about uncollected passes only.  In the run below two people hold
  // consecutive one-person windows, the second collects early, and the bank moves by one
  // window: the first pass now starts when the collected one did.

  const BOOKED := Bank(0, 7, 0, Draft(true, true, false, 0, 600000, Some(2), Some(1), Some(5)), NotStarted,
                       [FIRST_PASS, Pass(2, 300000, 600000, None, None)])
  const FIRST_PASS := Pass(1, 0, 300000, None, None)
  const USED_PASS := Pass(2, 300000, 600000, Some(0), Some(9))

  function Crowded(day: Calendar): Bank {
    var collected := Apply(Apply(BOOKED, day, SetStatus(7, 0, Open, 0)), day, Collect(1, 9));
    Apply(Apply(collected, day, SetStatus(7, 0, Paused, 0)), day, Move(7, 0, 300000, 0))
  }

  lemma BookedIsSound()
    ensures Sound(BOOKED)
  {
    var s, p := BOOKED.draft.Settings(), BOOKED.passes;
    assert Windows(s) == 2;
    assert Window(0, 300000) == GridWindow(s, 0) && Window(300000, 600000) == GridWindow(s, 1);
    assert OnGrid(s, p[0]) && OnGrid(s, p[1]);
    forall t
      ensures UncollectedAt(p, t) <= 1
    {
      assert p[..1] == [p[0]] && p[..1][..0] == [];
      assert UncollectedAt(p[..1], t) == if t == 0 then 1 else 0;
    }
  }

  lemma CollectedPassesMayCoincide()
    ensures var crowded := Crowded(t => 0);
            && Sound(crowded)
            && PassesAt(crowded.passes, 300000) == 2 > crowded.draft.Settings().capacity
  {
    var day: Calendar := t => 0;
    BookedIsSound();
    hide Sound, AssertFoodBankSettings;
    CrowdingSteps(day);
    var begun := BOOKED.(status := Open);
    var collected := begun.(passes := [FIRST_PASS, USED_PASS]);
    StepKeepsSound(BOOKED, day, SetStatus(7, 0, Open, 0));
    StepKeepsSound(begun, day, Collect(1, 9));
    StepKeepsSound(collected, day, SetStatus(7, 0, Paused, 0));
    StepKeepsSound(collected.(status := Paused), day, Move(7, 0, 300000, 0));
    var p := Crowded(day).passes;
    assert PassesAt(p[..1][..0], 300000) == 0 && PassesAt(p[..1], 300000) == 1;
  }

  lemma CrowdingSteps(day: Calendar)
    requires forall t: int :: day(t) == 0
    ensures var begun := BOOKED.(status := Open);
            var collected := begun.(passes := [FIRST_PASS, USED_PASS]);
            && Apply(BOOKED, day, SetStatus(7, 0, Open, 0)) == begun
            && Apply(begun, day, Collect(1, 9)) == collected
            && Apply(collected, day, SetStatus(7, 0, Paused, 0)) == collected.(status := Paused)
            && Crowded(day).passes == [FIRST_PASS.(start := 300000, end := 600000), USED_PASS]
            && Crowded(day).draft.Settings().capacity == 1
  {
    assert [FIRST_PASS, BOOKED.passes[1]][1 := USED_PASS] == [FIRST_PASS, USED_PASS];
  }
}
