/** Progress milestones in an event's feed, for one event and one kind of item.  The keys'
    seven-day lifetime is taken to outlast the run. */
module FeedMilestones {
  import opened Wrappers

  datatype ItemKind = TicketItem | RegistrationItem | DonationItem

  datatype Progress = Progress(count: int, total: Option<int>)

  datatype Milestone = SoldOut | Threshold(value: nat)

  /** Highest first: a count for tickets and registrations, a percentage for donations. */
  function Thresholds(kind: ItemKind): seq<nat> {
    if kind.DonationItem? then [100, 95, 90, 75, 50, 10] else [100, 50, 10]
  }

  predicate Reaches(kind: ItemKind, progress: Progress, value: nat) {
    if !kind.DonationItem? then progress.count >= value
    else if progress.total.None? || progress.total.value <= 0 then false
    else 100 * progress.count >= value * progress.total.value
  }

  /** At least 95% taken; a total of 0 reads as no total. */
  predicate SellsOut(kind: ItemKind, progress: Progress) {
    && !kind.DonationItem?
    && progress.total.Some? && progress.total.value != 0
    && progress.count > 0 && 20 * progress.count >= 19 * progress.total.value
  }

  function Reached(kind: ItemKind, progress: Progress): set<Milestone> {
    set value | value in Thresholds(kind) && Reaches(kind, progress, value) :: Threshold(value)
  }

  /** The first of the values that is reached and not recorded. */
  function FirstNew(values: seq<nat>, kind: ItemKind, progress: Progress, recorded: set<Milestone>): Option<Milestone> {
    if |values| == 0 then None
    else if Reaches(kind, progress, values[0]) && Threshold(values[0]) !in recorded then Some(Threshold(values[0]))
    else FirstNew(values[1..], kind, progress, recorded)
  }

  /** The milestone to announce, given the list read from the cache. */
  function Choose(kind: ItemKind, progress: Progress, recorded: set<Milestone>): Option<Milestone> {
    if SellsOut(kind, progress) && SoldOut !in recorded then Some(SoldOut)
    else FirstNew(Thresholds(kind), kind, progress, recorded)
  }

  /** The list written back with it. */
  function Merged(kind: ItemKind, progress: Progress, recorded: set<Milestone>, chosen: Milestone): set<Milestone> {
    recorded + Reached(kind, progress) + {chosen}
  }

  // ---------- One report at a time ----------

  datatype Cache = Cache(recorded: set<Milestone>, reserved: set<Milestone>)

  predicate Announces(kind: ItemKind, cache: Cache, progress: Progress) {
    var chosen := Choose(kind, progress, cache.recorded);
    chosen.Some? && chosen.value !in cache.reserved
  }

  function Next(kind: ItemKind, cache: Cache, progress: Progress): Cache {
    if !Announces(kind, cache, progress) then cache
    else
      var chosen := Choose(kind, progress, cache.recorded).value;
      Cache(Merged(kind, progress, cache.recorded, chosen), cache.reserved + {chosen})
  }

  class MilestoneFeed {
    const kind: ItemKind
    var recorded: set<Milestone>
    var reserved: set<Milestone>
    var posted: seq<Milestone>

    constructor (kind: ItemKind)
      ensures this.kind == kind && recorded == {} && reserved == {} && posted == []
    {
      this.kind := kind;
      recorded, reserved, posted := {}, {}, [];
    }

    method Reserve(milestone: Milestone, merged: set<Milestone>) returns (ok: bool)
      modifies `recorded, `reserved
      ensures ok == (milestone !in old(reserved))
      ensures reserved == old(reserved) + {milestone}
      ensures recorded == if ok then merged else old(recorded)
    {
      if milestone in reserved {
        assert reserved == reserved + {milestone};
        return false;
      }
      reserved := reserved + {milestone};
      recorded := merged;
      return true;
    }

    method Report(progress: Progress) returns (announced: Option<Milestone>)
      modifies this
      ensures Cache(recorded, reserved) == Next(kind, old(Cache(recorded, reserved)), progress)
      ensures announced == Announcement(kind, old(Cache(recorded, reserved)), progress)
      ensures posted == old(posted) + if announced.Some? then [announced.value] else []
    {
      var chosen := Choose(kind, progress, recorded);
      if chosen.None? {
        return None;
      }
      var ok := Reserve(chosen.value, Merged(kind, progress, recorded, chosen.value));
      if !ok {
        assert reserved == old(reserved);
        return None;
      }
      posted := posted + [chosen.value];
      return chosen;
    }
  }

  function Announcement(kind: ItemKind, cache: Cache, progress: Progress): Option<Milestone> {
    if Announces(kind, cache, progress) then Choose(kind, progress, cache.recorded) else None
  }

  /** The cache after a series of reports that began with an empty one. */
  function After(kind: ItemKind, reports: seq<Progress>): Cache {
    if |reports| == 0 then Cache({}, {})
    else Next(kind, After(kind, reports[..|reports| - 1]), reports[|reports| - 1])
  }

  /** What the k-th report announces. */
  function Announced(kind: ItemKind, reports: seq<Progress>, k: nat): Option<Milestone>
    requires k < |reports|
  {
    Announcement(kind, After(kind, reports[..k]), reports[k])
  }

  // ---------- What a series of reports announces ----------

  predicate ReachedBefore(kind: ItemKind, reports: seq<Progress>, k: nat, value: nat) {
    exists j :: 0 <= j < k && j < |reports| && Reaches(kind, reports[j], value)
  }

  predicate SoldOutBefore(kind: ItemKind, reports: seq<Progress>, k: nat) {
    exists j :: 0 <= j < k && j < |reports| && SellsOut(kind, reports[j])
  }

  /** A reached threshold brings every lower one with it. */
  lemma LowerIsReached(kind: ItemKind, progress: Progress, high: nat, low: nat)
    requires low <= high && Reaches(kind, progress, high)
    ensures Reaches(kind, progress, low)
  {
    if kind.DonationItem? {
      assert low * progress.total.value <= high * progress.total.value;
    }
  }

  predicate Descending(values: seq<nat>) {
    forall i, j :: 0 <= i < j < |values| ==> values[i] > values[j]
  }

  lemma {:induction false} FirstNewIsHighest(values: seq<nat>, kind: ItemKind, progress: Progress,
                                             recorded: set<Milestone>)
    requires Descending(values)
    ensures var chosen := FirstNew(values, kind, progress, recorded);
            if chosen.Some? then
              && chosen.value.Threshold? && chosen.value.value in values
              && Reaches(kind, progress, chosen.value.value) && chosen.value !in recorded
              && (forall v :: v in values && v > chosen.value.value && Reaches(kind, progress, v) ==>
                    Threshold(v) in recorded)
            else
              forall v :: v in values && Reaches(kind, progress, v) ==> Threshold(v) in recorded
  {
    if |values| > 0 {
      FirstNewIsHighest(values[1..], kind, progress, recorded);
    }
  }

  /** The recorded list is exactly what the reports so far have reached. */
  ghost predicate RecordsExactly(kind: ItemKind, reports: seq<Progress>, cache: Cache) {
    && (SoldOut in cache.recorded <==> SoldOutBefore(kind, reports, |reports|))
    && (forall v: nat ::
          Threshold(v) in cache.recorded <==> v in Thresholds(kind) && ReachedBefore(kind, reports, |reports|, v))
    && cache.reserved <= cache.recorded
  }

  lemma NextRecords(kind: ItemKind, cache: Cache, progress: Progress)
    requires cache.reserved <= cache.recorded
    ensures var next := Next(kind, cache, progress);
            && next.recorded ==
                 cache.recorded + Reached(kind, progress) + (if SellsOut(kind, progress) then {SoldOut} else {})
            && next.reserved <= next.recorded
  {
    FirstNewIsHighest(Thresholds(kind), kind, progress, cache.recorded);
  }

  lemma {:induction false} CacheRecordsExactly(kind: ItemKind, reports: seq<Progress>)
    ensures RecordsExactly(kind, reports, After(kind, reports))
  {
    hide Next, Thresholds, Reaches, SellsOut;
    if |reports| > 0 {
      var n := |reports| - 1;
      var progress := reports[n];
      CacheRecordsExactly(kind, reports[..n]);
      NextRecords(kind, After(kind, reports[..n]), progress);
      forall v: nat
        ensures ReachedBefore(kind, reports, n + 1, v) <==>
                ReachedBefore(kind, reports[..n], n, v) || Reaches(kind, progress, v)
      {
        if ReachedBefore(kind, reports[..n], n, v) {
          var j :| 0 <= j < n && Reaches(kind, reports[..n][j], v);
          assert Reaches(kind, reports[j], v);
        }
      }
      assert SoldOutBefore(kind, reports, n + 1) <==> SoldOutBefore(kind, reports[..n], n) || SellsOut(kind, progress);
    }
  }

  /** Sold out means 95% of a total taken, by tickets or registrations. */
  lemma SellsOutAtNinetyFivePercent(kind: ItemKind, count: int, total: int)
    requires total > 0
    ensures SellsOut(kind, Progress(count, Some(total))) <==> kind != DonationItem && 100 * count >= 95 * total
    ensures !SellsOut(kind, Progress(count, None)) && !SellsOut(kind, Progress(count, Some(0)))
  {}

  /** The threshold a count of tickets or registrations stands at. */
  lemma CountThresholds(kind: ItemKind, progress: Progress, value: nat)
    requires kind != DonationItem
    ensures HighestReached(kind, progress, value) <==>
            || (value == 100 && progress.count >= 100)
            || (value == 50 && 50 <= progress.count < 100)
            || (value == 10 && 10 <= progress.count < 50)
  {
    assert [100, 50, 10][0] == 100 && [100, 50, 10][1] == 50 && [100, 50, 10][2] == 10;
    assert 100 in Thresholds(kind) && 50 in Thresholds(kind) && 10 in Thresholds(kind);
  }

  /** The threshold a donation target stands at, in percent of a positive target. */
  lemma DonationThresholds(count: int, total: int, value: nat)
    requires total > 0
    ensures var c := 100 * count;
            HighestReached(DonationItem, Progress(count, Some(total)), value) <==>
            || (value == 100 && c >= 100 * total)
            || (value == 95 && 95 * total <= c < 100 * total)
            || (value == 90 && 90 * total <= c < 95 * total)
            || (value == 75 && 75 * total <= c < 90 * total)
            || (value == 50 && 50 * total <= c < 75 * total)
            || (value == 10 && 10 * total <= c < 50 * total)
  {
    var t := Thresholds(DonationItem);
    assert t[0] == 100 && t[1] == 95 && t[2] == 90 && t[3] == 75 && t[4] == 50 && t[5] == 10;
    assert forall v :: v in t ==> v == 100 || v == 95 || v == 90 || v == 75 || v == 50 || v == 10;
    var c, progress := 100 * count, Progress(count, Some(total));
    assert Reaches(DonationItem, progress, 100) <==> c >= 100 * total;
    assert Reaches(DonationItem, progress, 95) <==> c >= 95 * total;
    assert Reaches(DonationItem, progress, 90) <==> c >= 90 * total;
    assert Reaches(DonationItem, progress, 75) <==> c >= 75 * total;
    assert Reaches(DonationItem, progress, 50) <==> c >= 50 * total;
    assert Reaches(DonationItem, progress, 10) <==> c >= 10 * total;
    hide Reaches, Thresholds;
  }

  /** Without a positive target there is no progress to report. */
  lemma NoTargetNoThreshold(progress: Progress, value: nat)
    requires progress.total.None? || progress.total.value <= 0
    ensures !Reaches(DonationItem, progress, value)
  {}

  predicate HighestReached(kind: ItemKind, progress: Progress, value: nat) {
    && value in Thresholds(kind) && Reaches(kind, progress, value)
    && forall v :: v in Thresholds(kind) && v > value ==> !Reaches(kind, progress, v)
  }

  /** What the k-th report announces, without reference to any cache: "sold out" if it is the
      first to sell out; otherwise the highest threshold it reaches, if no report before it
      reached that one. */
  lemma AnnouncementIsExact(kind: ItemKind, reports: seq<Progress>, k: nat, value: nat)
    requires k < |reports|
    ensures Announced(kind, reports, k) == Some(SoldOut) <==>
            SellsOut(kind, reports[k]) && !SoldOutBefore(kind, reports, k)
    ensures Announced(kind, reports, k) == Some(Threshold(value)) <==>
            && Announced(kind, reports, k) != Some(SoldOut)
            && HighestReached(kind, reports[k], value) && !ReachedBefore(kind, reports, k, value)
  {
    var before := After(kind, reports[..k]);
    CacheRecordsExactly(kind, reports[..k]);
    FirstNewIsHighest(Thresholds(kind), kind, reports[k], before.recorded);
    assert SoldOutBefore(kind, reports[..k], k) <==> SoldOutBefore(kind, reports, k);
    forall v: nat
      ensures ReachedBefore(kind, reports[..k], k, v) <==> ReachedBefore(kind, reports, k, v)
    {
    }
    forall high: nat, low: nat | low <= high && ReachedBefore(kind, reports, k, high)
      ensures ReachedBefore(kind, reports, k, low)
    {
      var j :| 0 <= j < k && Reaches(kind, reports[j], high);
      LowerIsReached(kind, reports[j], high, low);
    }
  }

  /** Announced thresholds only ever go up, and no milestone is announced twice. */
  lemma AnnouncementsClimb(kind: ItemKind, reports: seq<Progress>, j: nat, k: nat)
    requires j < k < |reports|
    requires Announced(kind, reports, j).Some? && Announced(kind, reports, k).Some?
    ensures Announced(kind, reports, j) != Announced(kind, reports, k)
    ensures var (first, second) := (Announced(kind, reports, j).value, Announced(kind, reports, k).value);
            first.Threshold? && second.Threshold? ==> first.value < second.value
  {
    var first, second := Announced(kind, reports, j).value, Announced(kind, reports, k).value;
    AnnouncementIsExact(kind, reports, j, if first.Threshold? then first.value else 0);
    AnnouncementIsExact(kind, reports, k, if second.Threshold? then second.value else 0);
    if first.Threshold? {
      forall value: nat | value <= first.value
        ensures ReachedBefore(kind, reports, k, value)
      {
        LowerIsReached(kind, reports[j], first.value, value);
      }
    }
  }

  // ---------- Racing requests ----------

  /** A request between reading the list and posting, with the list it read. */
  datatype Task =
    | Chose(progress: Progress, read: set<Milestone>, milestone: Milestone)
    | Reserved(progress: Progress, read: set<Milestone>, milestone: Milestone)
    | Stored(progress: Progress, read: set<Milestone>, milestone: Milestone)

  datatype Post = Post(progress: Progress, milestone: Milestone)

  datatype Race = Race(cache: Cache, tasks: map<nat, Task>, posts: seq<Post>)

  datatype Move =
    | Read(task: nat, progress: Progress)
    | TryReserve(task: nat)
    | Store(task: nat)
    | Publish(task: nat)
    | Crash(task: nat)

  function Play(kind: ItemKind, race: Race, move: Move): Race {
    match move
    case Read(id, progress) =>
      var chosen := Choose(kind, progress, race.cache.recorded);
      if id in race.tasks || chosen.None? then race
      else race.(tasks := race.tasks[id := Chose(progress, race.cache.recorded, chosen.value)])
    case TryReserve(id) =>
      if id !in race.tasks || !race.tasks[id].Chose? then race
      else
        var task := race.tasks[id];
        if task.milestone in race.cache.reserved then race.(tasks := race.tasks - {id})
        else race.(cache := race.cache.(reserved := race.cache.reserved + {task.milestone}),
                   tasks := race.tasks[id := Reserved(task.progress, task.read, task.milestone)])
    case Store(id) =>
      if id !in race.tasks || !race.tasks[id].Reserved? then race
      else
        var task := race.tasks[id];
        race.(cache := race.cache.(recorded := Merged(kind, task.progress, task.read, task.milestone)),
              tasks := race.tasks[id := Stored(task.progress, task.read, task.milestone)])
    case Publish(id) =>
      if id !in race.tasks || !race.tasks[id].Stored? then race
      else
        var task := race.tasks[id];
        race.(tasks := race.tasks - {id}, posts := race.posts + [Post(task.progress, task.milestone)])
    case Crash(id) => race.(tasks := race.tasks - {id})
  }

  function PlayAll(kind: ItemKind, moves: seq<Move>): Race {
    if |moves| == 0 then Race(Cache({}, {}), map[], [])
    else Play(kind, PlayAll(kind, moves[..|moves| - 1]), moves[|moves| - 1])
  }

  predicate Deserved(kind: ItemKind, progress: Progress, milestone: Milestone) {
    match milestone
    case SoldOut => SellsOut(kind, progress)
    case Threshold(value) => value in Thresholds(kind) && Reaches(kind, progress, value)
  }

  /** Every reservation belongs to at most one post or unfinished request. */
  ghost predicate Orderly(kind: ItemKind, race: Race) {
    && (forall p :: p in race.posts ==> Deserved(kind, p.progress, p.milestone) && p.milestone in race.cache.reserved)
    && (forall id :: id in race.tasks ==> Deserved(kind, race.tasks[id].progress, race.tasks[id].milestone))
    && (forall id :: id in race.tasks ==> ChoseRightly(kind, race.tasks[id]))
    && (forall id :: Holds(race, id) ==> race.tasks[id].milestone in race.cache.reserved)
    && (forall a, b :: 0 <= a < b < |race.posts| ==> race.posts[a].milestone != race.posts[b].milestone)
    && (forall id, p :: Holds(race, id) && p in race.posts ==> race.tasks[id].milestone != p.milestone)
    && (forall a, b :: Holds(race, a) && Holds(race, b) && a != b ==>
          race.tasks[a].milestone != race.tasks[b].milestone)
  }

  predicate ChoseRightly(kind: ItemKind, task: Task) {
    Choose(kind, task.progress, task.read) == Some(task.milestone)
  }

  predicate Holds(race: Race, id: nat) {
    id in race.tasks && (race.tasks[id].Reserved? || race.tasks[id].Stored?)
  }

  lemma MoveKeepsOrder(kind: ItemKind, race: Race, move: Move)
    requires Orderly(kind, race)
    ensures Orderly(kind, Play(kind, race, move))
  {
    hide Orderly, Play;
    match move
    case Read(_, _) => ReadKeepsOrder(kind, race, move);
    case TryReserve(id) => ReserveKeepsOrder(kind, race, id);
    case Publish(id) => PublishKeepsOrder(kind, race, id);
    case _ => StoreKeepsOrder(kind, race, move);
  }

  lemma ReserveKeepsOrder(kind: ItemKind, race: Race, id: nat)
    requires Orderly(kind, race)
    ensures Orderly(kind, Play(kind, race, TryReserve(id)))
  {
    hide Deserved, Choose, Merged;
  }

  lemma StoreKeepsOrder(kind: ItemKind, race: Race, move: Move)
    requires Orderly(kind, race) && (move.Store? || move.Crash?)
    ensures Orderly(kind, Play(kind, race, move))
  {
    hide Deserved, Choose, Merged;
  }

  lemma PublishKeepsOrder(kind: ItemKind, race: Race, id: nat)
    requires Orderly(kind, race)
    ensures Orderly(kind, Play(kind, race, Publish(id)))
  {
    hide Deserved, Choose, Merged;
  }

  lemma ChosenIsDeserved(kind: ItemKind, progress: Progress, recorded: set<Milestone>)
    ensures var chosen := Choose(kind, progress, recorded);
            chosen.Some? ==> Deserved(kind, progress, chosen.value)
  {
    FirstNewIsHighest(Thresholds(kind), kind, progress, recorded);
  }

  lemma ReadKeepsOrder(kind: ItemKind, race: Race, move: Move)
    requires Orderly(kind, race) && move.Read?
    ensures Orderly(kind, Play(kind, race, move))
  {
    ChosenIsDeserved(kind, move.progress, race.cache.recorded);
    hide Choose, Deserved, Merged;
  }

  /** However requests race, crash and overwrite each other's lists, each milestone is posted
      at most once, and only by a request whose own progress deserved it. */
  lemma {:induction false} EachMilestonePostsOnce(kind: ItemKind, moves: seq<Move>)
    ensures Orderly(kind, PlayAll(kind, moves))
  {
    if |moves| > 0 {
      EachMilestonePostsOnce(kind, moves[..|moves| - 1]);
      MoveKeepsOrder(kind, PlayAll(kind, moves[..|moves| - 1]), moves[|moves| - 1]);
    }
  }

  // ---------- When posts climb ----------

  predicate PostedBelow(race: Race, value: nat) {
    forall k :: 0 <= k < |race.posts| && race.posts[k].milestone.Threshold? ==> race.posts[k].milestone.value < value
  }

  /** Whether a request reached a threshold above all posted ones that the list it read did
      not have. */
  predicate PostFits(kind: ItemKind, race: Race, task: Task) {
    exists value :: && value in Thresholds(kind) && Reaches(kind, task.progress, value)
                    && Threshold(value) !in task.read && PostedBelow(race, value)
  }

  /** A threshold's post will be above every threshold posted by then exactly if it fits. */
  lemma PostClimbsExactly(kind: ItemKind, race: Race, id: nat)
    requires Orderly(kind, race) && Holds(race, id) && race.tasks[id].milestone.Threshold?
    ensures PostedBelow(race, race.tasks[id].milestone.value) <==> PostFits(kind, race, race.tasks[id])
  {
    var task := race.tasks[id];
    assert ChoseRightly(kind, task);
    FirstNewIsHighest(Thresholds(kind), kind, task.progress, task.read);
    hide Thresholds, Reaches;
    if value :| && value in Thresholds(kind) && Reaches(kind, task.progress, value)
                && Threshold(value) !in task.read && PostedBelow(race, value)
    {
      assert value <= task.milestone.value;
    }
  }

  predicate Climbing(posts: seq<Post>) {
    forall j, k :: 0 <= j < k < |posts| && posts[j].milestone.Threshold? && posts[k].milestone.Threshold? ==>
      posts[j].milestone.value < posts[k].milestone.value
  }

  /** A post of a threshold must fit; other moves always do. */
  predicate MoveFits(kind: ItemKind, race: Race, move: Move) {
    move.Publish? && move.task in race.tasks && race.tasks[move.task].Stored?
    && race.tasks[move.task].milestone.Threshold? ==>
      PostFits(kind, race, race.tasks[move.task])
  }

  ghost predicate EveryMoveFits(kind: ItemKind, moves: seq<Move>) {
    |moves| > 0 ==>
      var before := moves[..|moves| - 1];
      EveryMoveFits(kind, before) && MoveFits(kind, PlayAll(kind, before), moves[|moves| - 1])
  }

  lemma MoveClimbsExactly(kind: ItemKind, race: Race, move: Move)
    requires Orderly(kind, race) && Climbing(race.posts)
    ensures Climbing(Play(kind, race, move).posts) <==> MoveFits(kind, race, move)
  {
    hide Orderly, PostFits, Choose, Merged;
    if move.Publish? && move.task in race.tasks && race.tasks[move.task].Stored? {
      var post := Post(race.tasks[move.task].progress, race.tasks[move.task].milestone);
      var posts := race.posts + [post];
      assert Play(kind, race, move).posts == posts;
      if post.milestone.Threshold? {
        PostClimbsExactly(kind, race, move.task);
        if Climbing(posts) {
          forall k | 0 <= k < |race.posts| && race.posts[k].milestone.Threshold?
            ensures race.posts[k].milestone.value < post.milestone.value
          {
            assert posts[k] == race.posts[k] && posts[|race.posts|] == post;
          }
        }
      }
    }
  }

  /** Lifted to runs: however requests race, posted thresholds strictly increase exactly when
      every post fits at its moment. */
  lemma {:induction false} PostsClimbExactly(kind: ItemKind, moves: seq<Move>)
    ensures Climbing(PlayAll(kind, moves).posts) <==> EveryMoveFits(kind, moves)
  {
    hide Orderly, Play, MoveFits;
    if |moves| > 0 {
      var n := |moves| - 1;
      var before := PlayAll(kind, moves[..n]);
      PostsClimbExactly(kind, moves[..n]);
      EachMilestonePostsOnce(kind, moves[..n]);
      if Climbing(before.posts) {
        MoveClimbsExactly(kind, before, moves[n]);
      } else {
        PostsAreKept(kind, before, moves[n]);
      }
    }
  }

  lemma PostsAreKept(kind: ItemKind, race: Race, move: Move)
    ensures race.posts <= Play(kind, race, move).posts
  {}

  /** Every list is read with no other request under way.  Requests may still crash. */
  ghost predicate OneAtATime(kind: ItemKind, moves: seq<Move>) {
    |moves| > 0 ==>
      var before, last := moves[..|moves| - 1], moves[|moves| - 1];
      OneAtATime(kind, before) && (last.Read? ==> PlayAll(kind, before).tasks == map[])
  }

  /** What was posted, and everything below it, is in a list. */
  ghost predicate Lists(kind: ItemKind, list: set<Milestone>, posts: seq<Post>) {
    forall k, value :: && 0 <= k < |posts| && posts[k].milestone.Threshold?
                       && value in Thresholds(kind) && value <= posts[k].milestone.value ==>
      Threshold(value) in list
  }

  /** The list as a request left it so far. */
  predicate OwnList(kind: ItemKind, task: Task, list: set<Milestone>) {
    list == if task.Stored? then Merged(kind, task.progress, task.read, task.milestone) else task.read
  }

  /** At most one request is under way, nobody else has touched the list since it read, and
      the list, as read and as it is, has what was posted. */
  ghost predicate Undisturbed(kind: ItemKind, race: Race) {
    && (forall a, b :: a in race.tasks && b in race.tasks ==> a == b)
    && (forall id :: id in race.tasks ==> OwnList(kind, race.tasks[id], race.cache.recorded))
    && (forall id :: id in race.tasks ==> Lists(kind, race.tasks[id].read, race.posts))
    && Lists(kind, race.cache.recorded, race.posts)
    && Climbing(race.posts)
  }

  /** What a request adds to the list, and where its post stands among the others. */
  lemma StoredPostStandsOut(kind: ItemKind, race: Race, id: nat)
    requires Orderly(kind, race) && Undisturbed(kind, race) && Holds(race, id)
    ensures var task := race.tasks[id];
            task.milestone.Threshold? ==>
              && PostedBelow(race, task.milestone.value)
              && forall value :: value in Thresholds(kind) && value <= task.milestone.value ==>
                   Threshold(value) in Merged(kind, task.progress, task.read, task.milestone)
  {
    var task := race.tasks[id];
    assert ChoseRightly(kind, task);
    FirstNewIsHighest(Thresholds(kind), kind, task.progress, task.read);
    hide Thresholds, Reaches, Choose;
    if task.milestone.Threshold? {
      forall value | value in Thresholds(kind) && value <= task.milestone.value
        ensures Threshold(value) in Reached(kind, task.progress)
      {
        LowerIsReached(kind, task.progress, task.milestone.value, value);
      }
    }
  }

  lemma PublishingClimbs(kind: ItemKind, race: Race, id: nat)
    requires Orderly(kind, race) && Undisturbed(kind, race) && id in race.tasks && race.tasks[id].Stored?
    ensures Undisturbed(kind, Play(kind, race, Publish(id)))
  {
    StoredPostStandsOut(kind, race, id);
    hide Orderly, Thresholds, Merged;
  }

  lemma MoveStaysUndisturbed(kind: ItemKind, race: Race, move: Move)
    requires Orderly(kind, race) && Undisturbed(kind, race) && (move.Read? ==> race.tasks == map[])
    ensures Undisturbed(kind, Play(kind, race, move))
  {
    if move.Publish? && move.task in race.tasks && race.tasks[move.task].Stored? {
      PublishingClimbs(kind, race, move.task);
    } else {
      hide Orderly, Thresholds, Choose;
    }
  }

  /** As long as requests come one at a time, crashes included, posted thresholds strictly
      increase. */
  lemma {:induction false} PostsClimbOneAtATime(kind: ItemKind, moves: seq<Move>)
    requires OneAtATime(kind, moves)
    ensures Climbing(PlayAll(kind, moves).posts) && Undisturbed(kind, PlayAll(kind, moves))
  {
    if |moves| > 0 {
      hide Orderly, Undisturbed, Play;
      var n := |moves| - 1;
      EachMilestonePostsOnce(kind, moves[..n]);
      PostsClimbOneAtATime(kind, moves[..n]);
      MoveStaysUndisturbed(kind, PlayAll(kind, moves[..n]), moves[n]);
      UndisturbedClimbs(kind, PlayAll(kind, moves));
    }
  }

  lemma UndisturbedClimbs(kind: ItemKind, race: Race)
    requires Undisturbed(kind, race)
    ensures Climbing(race.posts)
  {}

  lemma OneMoreMove(kind: ItemKind, moves: seq<Move>, move: Move)
    ensures PlayAll(kind, moves + [move]) == Play(kind, PlayAll(kind, moves), move)
  {
    assert (moves + [move])[..|moves|] == moves;
  }

  /** Climbing needs one request at a time: two that read the list together may post 100
      before 50, and leave 100 out of the list. */
  lemma RacesMayAnnounceBackwards() returns (race: Race)
    ensures exists moves :: race == PlayAll(TicketItem, moves)
    ensures race.posts == [Post(Progress(100, None), Threshold(100)), Post(Progress(50, None), Threshold(50))]
    ensures Threshold(100) !in race.cache.recorded
  {
    var done: seq<Move>;
    race, done := HundredIsPosted();
    hide PlayAll, Choose;
    race, done := Advance(race, done, TryReserve(0));
    race, done := Advance(race, done, Store(0));
    race, done := Advance(race, done, Publish(0));
  }

  lemma HundredIsPosted() returns (race: Race, done: seq<Move>)
    ensures race == PlayAll(TicketItem, done)
    ensures race.tasks == map[0 := Chose(Progress(50, None), {}, Threshold(50))]
    ensures race.cache.reserved == {Threshold(100)}
    ensures race.posts == [Post(Progress(100, None), Threshold(100))]
  {
    var fifty, hundred := Progress(50, None), Progress(100, None);
    assert Choose(TicketItem, fifty, {}) == Some(Threshold(50)) by {
      assert Thresholds(TicketItem)[1..] == [50, 10];
    }
    assert Choose(TicketItem, hundred, {}) == Some(Threshold(100));
    race, done := PlayAll(TicketItem, []), [];
    assert race == Race(Cache({}, {}), map[], []);
    hide PlayAll, Choose, Merged;
    race, done := Advance(race, done, Read(0, fifty));
    race, done := Advance(race, done, Read(1, hundred));
    race, done := Advance(race, done, TryReserve(1));
    race, done := Advance(race, done, Store(1));
    race, done := Advance(race, done, Publish(1));
  }

  lemma Advance(race: Race, done: seq<Move>, move: Move) returns (next: Race, more: seq<Move>)
    requires race == PlayAll(TicketItem, done)
    ensures next == PlayAll(TicketItem, more) && next == Play(TicketItem, race, move)
  {
    OneMoreMove(TicketItem, done, move);
    next, more := Play(TicketItem, race, move), done + [move];
  }
}
