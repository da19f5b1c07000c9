/** Finding a collection window on a food bank's time grid, and the settings check that is
    meant to leave room for every meal.  Times are milliseconds. */
module CollectionWindows {
  import opened Wrappers

  datatype Settings = Settings(start: int, end: int, total: int, capacity: int, minutes: int) {
    function Duration(): int { minutes * 60000 }
    predicate HasGrid() { minutes > 0 }
  }

  /** How many passes start at one time. */
  datatype Slot = Slot(start: int, count: nat)

  datatype Window = Window(start: int, end: int)

  function Reserved(slots: seq<Slot>): nat {
    if |slots| == 0 then 0 else Reserved(slots[..|slots| - 1]) + slots[|slots| - 1].count
  }

  /** The count listed for a start time; a later entry replaces an earlier one. */
  function CountAt(slots: seq<Slot>, start: int): nat {
    if |slots| == 0 then 0
    else
      var last := slots[|slots| - 1];
      if last.start == start then last.count else CountAt(slots[..|slots| - 1], start)
  }

  // ---------- The grid ----------

  function Min(a: int, b: int): int { if a < b then a else b }

  function GridStart(s: Settings, k: int): int {
    s.start + k * s.Duration()
  }

  function GridWindow(s: Settings, k: int): Window {
    Window(GridStart(s, k), Min(GridStart(s, k) + s.Duration(), s.end))
  }

  /** The window that contains `now`, or the first one when collection is still ahead. */
  function CurrentIndex(s: Settings, now: int): int
    requires s.HasGrid()
  {
    var k := (now - s.start) / s.Duration();
    if k < 0 then 0 else k
  }

  predicate Full(s: Settings, slots: seq<Slot>, k: int) {
    CountAt(slots, GridStart(s, k)) >= s.capacity
  }

  lemma NextGridStart(s: Settings, k: int)
    ensures GridStart(s, k + 1) == GridStart(s, k) + s.Duration()
  {}

  lemma {:induction false} GridIncreases(s: Settings, j: int, k: int)
    requires s.HasGrid() && j < k
    ensures GridStart(s, j) < GridStart(s, k)
    decreases k - j
  {
    NextGridStart(s, k - 1);
    if j < k - 1 {
      GridIncreases(s, j, k - 1);
    }
  }

  // ---------- The search ----------

  function Search(s: Settings, slots: seq<Slot>, k: int): Option<Window>
    requires s.HasGrid()
    decreases s.end - GridStart(s, k)
  {
    if GridStart(s, k) >= s.end then None
    else if !Full(s, slots, k) then Some(GridWindow(s, k))
    else
      NextGridStart(s, k);
      Search(s, slots, k + 1)
  }

  function NextWindow(s: Settings, slots: seq<Slot>, now: int): Option<Window>
    requires s.HasGrid()
  {
    if Reserved(slots) >= s.total then None else Search(s, slots, CurrentIndex(s, now))
  }

  method NextCollectionWindow(s: Settings, slots: seq<Slot>, now: int) returns (window: Option<Window>)
    requires s.HasGrid()
    ensures window == NextWindow(s, slots, now)
  {
    var reserved := 0;
    var counts: map<int, nat> := map[];
    for i := 0 to |slots|
      invariant reserved == Reserved(slots[..i])
      invariant forall t :: CountAt(slots[..i], t) == if t in counts then counts[t] else 0
    {
      assert slots[..i + 1][..i] == slots[..i];
      reserved := reserved + slots[i].count;
      counts := counts[slots[i].start := slots[i].count];
    }
    assert slots[..|slots|] == slots;
    if reserved >= s.total {
      return None;
    }
    var duration := s.Duration();
    var first := (now - s.start) / duration;
    if first < 0 { first := 0; }
    var start := s.start + first * duration;
    ghost var k := first;
    while start < s.end
      invariant start == GridStart(s, k)
      invariant Search(s, slots, first) == Search(s, slots, k)
      decreases s.end - start
    {
      if (if start in counts then counts[start] else 0) < s.capacity {
        return Some(Window(start, if start + duration < s.end then start + duration else s.end));
      }
      NextGridStart(s, k);
      start := start + duration;
      k := k + 1;
    }
    window := None;
  }

  /** `k` is the first window from `from` on that still has room. */
  ghost predicate FirstWithRoom(s: Settings, slots: seq<Slot>, from: int, k: int) {
    && from <= k && GridStart(s, k) < s.end && !Full(s, slots, k)
    && forall j :: from <= j < k ==> Full(s, slots, j)
  }

  ghost predicate AllFull(s: Settings, slots: seq<Slot>, from: int) {
    forall j :: from <= j && GridStart(s, j) < s.end ==> Full(s, slots, j)
  }

  lemma {:induction false} SearchIsExact(s: Settings, slots: seq<Slot>, from: int)
    requires s.HasGrid()
    ensures Search(s, slots, from).None? <==> AllFull(s, slots, from)
    ensures Search(s, slots, from).Some? ==>
              exists k :: FirstWithRoom(s, slots, from, k) && Search(s, slots, from).value == GridWindow(s, k)
    decreases s.end - GridStart(s, from)
  {
    if GridStart(s, from) >= s.end {
      forall j | from <= j
        ensures GridStart(s, j) >= s.end
      {
        if from < j { GridIncreases(s, from, j); }
      }
    } else if Full(s, slots, from) {
      NextGridStart(s, from);
      SearchIsExact(s, slots, from + 1);
      if Search(s, slots, from).Some? {
        var k :| FirstWithRoom(s, slots, from + 1, k) && Search(s, slots, from + 1).value == GridWindow(s, k);
        assert FirstWithRoom(s, slots, from, k);
      }
    } else {
      assert FirstWithRoom(s, slots, from, from);
    }
  }

  lemma QuotientBounds(n: int, d: int)
    requires d > 0
    ensures n / d * d <= n < (n / d + 1) * d
    ensures n < d <==> n / d <= 0
    ensures n >= 0 <==> n / d >= 0
  {
    var q := n / d;
    assert n == q * d + n % d;
    if q >= 1 { assert q * d >= d; }
    if q <= -1 { assert q * d <= -d; }
  }

  lemma CurrentWindowContains(s: Settings, now: int)
    requires s.HasGrid()
    ensures CurrentIndex(s, now) >= 0
    ensures now < s.start + s.Duration() <==> CurrentIndex(s, now) == 0
    ensures now >= s.start ==> GridStart(s, CurrentIndex(s, now)) <= now < GridStart(s, CurrentIndex(s, now) + 1)
  {
    var d := s.Duration();
    QuotientBounds(now - s.start, d);
    NextGridStart(s, (now - s.start) / d);
  }

  /** The search is exact.  No window means that the meals are gone or every window from the
      current one on is full; a window is the earliest one with room, begins inside the
      collection hours and ends no later than they do. */
  lemma NextWindowIsEarliest(s: Settings, slots: seq<Slot>, now: int)
    requires s.HasGrid()
    ensures NextWindow(s, slots, now).None? <==>
              Reserved(slots) >= s.total || AllFull(s, slots, CurrentIndex(s, now))
    ensures NextWindow(s, slots, now).Some? ==>
              var w := NextWindow(s, slots, now).value;
              && s.start <= w.start < w.end <= s.end
              && CountAt(slots, w.start) < s.capacity
              && (exists k :: FirstWithRoom(s, slots, CurrentIndex(s, now), k) && w == GridWindow(s, k))
  {
    SearchIsExact(s, slots, CurrentIndex(s, now));
    if NextWindow(s, slots, now).Some? {
      var k :| FirstWithRoom(s, slots, CurrentIndex(s, now), k) && NextWindow(s, slots, now).value == GridWindow(s, k);
      if 0 < k { GridIncreases(s, 0, k); }
    }
  }

  // ---------- Room for every meal ----------

  /** How many windows begin before the end. */
  function Windows(s: Settings): int
    requires s.HasGrid()
  {
    (s.end - s.start + s.Duration() - 1) / s.Duration()
  }

  lemma ProductsGrow(a: int, b: int, d: int)
    requires d > 0
    ensures a <= b ==> a * d <= b * d
    ensures (a - 1) * d == a * d - d
  {
    assert (a - 1) * d == a * d - d;
    if a <= b {
      assert (b - a) * d >= 0;
      assert b * d == a * d + (b - a) * d;
    }
  }

  lemma CeilingDivision(n: int, d: int, w: int, k: int)
    requires d > 0 && w == (n + d - 1) / d
    ensures k * d < n <==> k < w
  {
    var wd, kd, r := w * d, k * d, (n + d - 1) % d;
    assert n + d - 1 == wd + r && 0 <= r < d;
    if k < w {
      ProductsGrow(k, w - 1, d);
      ProductsGrow(w, w, d);
      assert kd <= wd - d;
    } else {
      ProductsGrow(w, k, d);
      assert wd <= kd;
    }
  }

  lemma WindowsBeginBeforeEnd(s: Settings, k: int)
    requires s.HasGrid()
    ensures GridStart(s, k) < s.end <==> k < Windows(s)
  {
    CeilingDivision(s.end - s.start, s.Duration(), Windows(s), k);
  }

  function Without(slots: seq<Slot>, start: int): seq<Slot> {
    if |slots| == 0 then []
    else
      var rest := Without(slots[..|slots| - 1], start);
      if slots[|slots| - 1].start == start then rest else rest + [slots[|slots| - 1]]
  }

  lemma {:induction false} WithoutDropsOne(slots: seq<Slot>, start: int)
    ensures Reserved(Without(slots, start)) + CountAt(slots, start) <= Reserved(slots)
    ensures forall other :: other != start ==> CountAt(Without(slots, start), other) == CountAt(slots, other)
  {
    if |slots| > 0 {
      var front, last := slots[..|slots| - 1], slots[|slots| - 1];
      WithoutDropsOne(front, start);
      if last.start != start {
        var kept := Without(front, start);
        assert (kept + [last])[..|kept|] == kept;
      }
    }
  }

  /** Pigeonhole: full windows account for that many reservations. */
  lemma {:induction false} FullWindowsAreReserved(s: Settings, slots: seq<Slot>, k: int)
    requires s.HasGrid() && 0 <= k <= Windows(s) && s.capacity >= 0 && AllFull(s, slots, k)
    ensures Reserved(slots) >= (Windows(s) - k) * s.capacity
    decreases Windows(s) - k
  {
    if k < Windows(s) {
      WindowsBeginBeforeEnd(s, k);
      var t := GridStart(s, k);
      WithoutDropsOne(slots, t);
      var rest := Without(slots, t);
      forall j | k + 1 <= j && GridStart(s, j) < s.end
        ensures Full(s, rest, j)
      {
        GridIncreases(s, k, j);
      }
      FullWindowsAreReserved(s, rest, k + 1);
      var c := s.capacity;
      assert (Windows(s) - k) * c == (Windows(s) - (k + 1)) * c + c;
    }
  }

  /** The windows offer at least as many places as there are meals. */
  predicate Suffices(s: Settings)
    requires s.HasGrid()
  {
    Windows(s) >= 1 && Windows(s) * s.capacity >= s.total
  }

  /** Settings that pass the check never turn anyone away early: until the first window is
      over, a search fails exactly when every meal is reserved. */
  lemma NobodyTurnedAwayEarly(s: Settings, slots: seq<Slot>, now: int)
    requires s.HasGrid() && s.capacity >= 0 && Suffices(s)
    requires now < s.start + s.Duration()
    ensures NextWindow(s, slots, now).None? <==> Reserved(slots) >= s.total
  {
    CurrentWindowContains(s, now);
    NextWindowIsEarliest(s, slots, now);
    if AllFull(s, slots, 0) {
      FullWindowsAreReserved(s, slots, 0);
    }
  }

  /** Every window up to the k-th booked out. */
  function BookedOut(s: Settings, k: nat): seq<Slot>
    requires s.capacity >= 0
  {
    if k == 0 then [] else BookedOut(s, k - 1) + [Slot(GridStart(s, k - 1), s.capacity)]
  }

  lemma {:induction false} BookedOutIsFull(s: Settings, k: nat)
    requires s.HasGrid() && s.capacity >= 0
    ensures Reserved(BookedOut(s, k)) == k * s.capacity
    ensures forall j :: 0 <= j < k ==> Full(s, BookedOut(s, k), j)
  {
    if k > 0 {
      BookedOutIsFull(s, k - 1);
      var front, last := BookedOut(s, k - 1), Slot(GridStart(s, k - 1), s.capacity);
      var slots := front + [last];
      assert slots[..|slots| - 1] == front;
      var c := s.capacity;
      assert k * c == (k - 1) * c + c;
      hide GridStart;
      forall j | 0 <= j < k
        ensures Full(s, slots, j)
      {
        if j < k - 1 {
          GridIncreases(s, j, k - 1);
          assert Full(s, front, j);
        }
      }
    }
  }

  /** The check asks for no more than it must: settings that fail it can turn someone away
      at any time while meals remain. */
  lemma CheckIsTight(s: Settings, now: int)
    requires s.HasGrid() && s.capacity >= 0 && !Suffices(s) && s.total >= 1
    ensures exists slots :: Reserved(slots) < s.total && NextWindow(s, slots, now).None?
  {
    var k: nat := if Windows(s) < 0 then 0 else Windows(s);
    var slots := BookedOut(s, k);
    BookedOutIsFull(s, k);
    CurrentWindowContains(s, now);
    forall j | CurrentIndex(s, now) <= j && GridStart(s, j) < s.end
      ensures Full(s, slots, j)
    {
      WindowsBeginBeforeEnd(s, j);
    }
    NextWindowIsEarliest(s, slots, now);
    assert Reserved(slots) < s.total && NextWindow(s, slots, now).None?;
  }
}
