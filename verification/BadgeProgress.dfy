/** When a history of contributions reaches a badge's target.  Times are milliseconds. */
module BadgeProgress {
  import opened Wrappers
  import opened Sums

  datatype Contribution = Contribution(at: int, amount: nat)

  datatype Standing = Locked | InProgress | Earned

  datatype Progress = Progress(status: Standing, earnedAt: Option<int>, current: nat, remaining: nat, percent: nat)

  const AMOUNT: Contribution -> nat := (c: Contribution) => c.amount

  function AmountBy(time: int): Contribution -> nat {
    (c: Contribution) => if c.at <= time then c.amount else 0
  }

  function Total(history: seq<Contribution>): nat {
    Sum(history, AMOUNT)
  }

  /** What had been contributed up to a moment, in whatever order the history lists it. */
  function TotalBy(history: seq<Contribution>, time: int): nat {
    Sum(history, AmountBy(time))
  }

  /** The moment the target was first reached. */
  ghost predicate ReachedAt(history: seq<Contribution>, target: nat, time: int) {
    && TotalBy(history, time) >= target
    && forall earlier: int :: earlier < time ==> TotalBy(history, earlier) < target
  }

  // ---------- Sorting by time ----------

  predicate Chronological(history: seq<Contribution>) {
    forall j, k :: 0 <= j < k < |history| ==> history[j].at <= history[k].at
  }

  /** After every contribution of the same time, as a stable sort does. */
  function Insert(history: seq<Contribution>, c: Contribution): (r: seq<Contribution>)
    requires Chronological(history)
    ensures Chronological(r)
    ensures forall k :: 0 <= k < |r| ==> r[k] == c || r[k] in history
  {
    var n := |history|;
    if n == 0 || history[n - 1].at <= c.at then history + [c]
    else
      var r := Insert(history[..n - 1], c);
      assert forall k :: 0 <= k < |r| ==> r[k].at <= history[n - 1].at;
      r + [history[n - 1]]
  }

  lemma {:induction false} InsertAdds(history: seq<Contribution>, c: Contribution)
    requires Chronological(history)
    ensures multiset(Insert(history, c)) == multiset(history) + multiset{c}
  {
    var n := |history|;
    if n > 0 && history[n - 1].at > c.at {
      var front, last := history[..n - 1], history[n - 1];
      InsertAdds(front, c);
      assert Insert(history, c) == Insert(front, c) + [last];
      assert history == front + [last];
    }
  }

  function Sorted(history: seq<Contribution>): (r: seq<Contribution>)
    ensures Chronological(r) && multiset(r) == multiset(history)
  {
    if |history| == 0 then []
    else
      var front, last := history[..|history| - 1], history[|history| - 1];
      assert history == front + [last];
      InsertAdds(Sorted(front), last);
      Insert(Sorted(front), last)
  }

  // ---------- The crossing ----------

  lemma {:induction false} AllBy(history: seq<Contribution>, time: int)
    requires forall k :: 0 <= k < |history| ==> history[k].at <= time
    ensures TotalBy(history, time) == Total(history)
  {
    if |history| > 0 {
      AllBy(history[..|history| - 1], time);
    }
  }

  lemma PartBy(history: seq<Contribution>, time: int)
    ensures TotalBy(history, time) <= Total(history)
  {
    SumPointwise(history, history, AmountBy(time), AMOUNT);
  }

  /** Adding the latest contribution to a chronological history: if the target had been
      reached it was reached then, and otherwise it is reached now or not at all. */
  lemma LatestContribution(history: seq<Contribution>, target: nat)
    requires Chronological(history) && |history| > 0
    ensures var n := |history| - 1;
            var last := history[n].at;
            && (Total(history[..n]) < target <= Total(history) ==> ReachedAt(history, target, last))
            && (forall t: int :: t <= last && ReachedAt(history[..n], target, t) ==> ReachedAt(history, target, t))
  {
    var n := |history| - 1;
    var last := history[n].at;
    AllBy(history, last);
    forall t: int
      ensures TotalBy(history, t) == TotalBy(history[..n], t) + if last <= t then history[n].amount else 0
      ensures TotalBy(history[..n], t) <= Total(history[..n])
    {
      PartBy(history[..n], t);
    }
  }

  /** Totals do not depend on the order of the history. */
  lemma SameInAnyOrder(a: seq<Contribution>, b: seq<Contribution>)
    requires multiset(a) == multiset(b)
    ensures Total(a) == Total(b)
    ensures forall t: int :: TotalBy(a, t) == TotalBy(b, t)
  {
    SumReorders(a, b, AMOUNT);
    forall t: int
      ensures TotalBy(a, t) == TotalBy(b, t)
    {
      SumReorders(a, b, AmountBy(t));
    }
  }

  // ---------- The crossing as a value ----------

  lemma {:induction false} SomeMomentReaches(history: seq<Contribution>, target: nat)
    requires Chronological(history) && 0 < target <= Total(history)
    ensures exists t: int :: ReachedAt(history, target, t) && exists c :: c in history && c.at == t
  {
    var n := |history| - 1;
    LatestContribution(history, target);
    if Total(history[..n]) >= target {
      SomeMomentReaches(history[..n], target);
      var t: int :| ReachedAt(history[..n], target, t) && exists c :: c in history[..n] && c.at == t;
      assert ReachedAt(history, target, t);
    } else {
      assert history[n] in history;
    }
  }

  /** The moment the target was reached, if it was. */
  ghost function Crossing(history: seq<Contribution>, target: nat): (moment: Option<int>)
    requires target > 0
    ensures moment.Some? <==> Total(history) >= target
    ensures moment.Some? ==> ReachedAt(history, target, moment.value)
  {
    if Total(history) < target then None
    else
      SameInAnyOrder(Sorted(history), history);
      SomeMomentReaches(Sorted(history), target);
      var t: int :| ReachedAt(Sorted(history), target, t);
      Some(t)
  }

  lemma OnlyOneMoment(history: seq<Contribution>, target: nat, s: int, t: int)
    requires ReachedAt(history, target, s) && ReachedAt(history, target, t)
    ensures s == t
  {
  }

  // ---------- The loop ----------

  /** Runs through the contributions in order of time. */
  method Accumulate(target: nat, sorted: seq<Contribution>) returns (total: nat, earnedAt: Option<int>)
    requires Chronological(sorted) && target > 0
    ensures total == Total(sorted)
    ensures earnedAt.Some? <==> total >= target
    ensures earnedAt.Some? ==> ReachedAt(sorted, target, earnedAt.value)
  {
    hide ReachedAt;
    total, earnedAt := 0, None;
    for k := 0 to |sorted|
      invariant total == Total(sorted[..k])
      invariant earnedAt.Some? <==> total >= target
      invariant earnedAt.Some? ==>
                  k > 0 && earnedAt.value <= sorted[k - 1].at && ReachedAt(sorted[..k], target, earnedAt.value)
    {
      LatestContribution(sorted[..k + 1], target);
      assert sorted[..k + 1][..k] == sorted[..k];
      total := total + sorted[k].amount;
      if earnedAt.None? && total >= target {
        earnedAt := Some(sorted[k].at);
      }
    }
    assert sorted[..|sorted|] == sorted;
  }

  method Evaluate(target: nat, contributions: seq<Contribution>) returns (progress: Progress)
    requires target > 0
    ensures progress.status.Earned? <==> Total(contributions) >= target
    ensures progress.status.Locked? <==> Total(contributions) == 0
    ensures progress.earnedAt == Crossing(contributions, target)
    ensures progress.current + progress.remaining == target
    ensures progress.remaining > 0 ==> progress.current == Total(contributions)
    ensures progress.percent * target <= 100 * progress.current < (progress.percent + 1) * target
  {
    hide Total;
    var sorted := Sorted(contributions);
    var total, earnedAt := Accumulate(target, sorted);
    SameInAnyOrder(sorted, contributions);
    if earnedAt.Some? {
      assert ReachedAt(contributions, target, earnedAt.value);
      OnlyOneMoment(contributions, target, earnedAt.value, Crossing(contributions, target).value);
    }
    var current := if total < target then total else target;
    var status := if earnedAt.Some? then Earned else if current > 0 then InProgress else Locked;
    var percent := Percent(current, target);
    progress := Progress(status, earnedAt, current, target - current, percent);
  }

  function Percent(current: nat, target: nat): (percent: nat)
    requires target > 0
    ensures percent * target <= 100 * current < (percent + 1) * target
  {
    current * 100 / target
  }

  /** A crossing depends on what was contributed when, not on the order it is listed in. */
  lemma CrossingInAnyOrder(a: seq<Contribution>, b: seq<Contribution>, target: nat)
    requires multiset(a) == multiset(b) && target > 0
    ensures Crossing(a, target) == Crossing(b, target)
  {
    SameInAnyOrder(a, b);
    if Total(a) >= target {
      assert ReachedAt(b, target, Crossing(a, target).value);
      OnlyOneMoment(b, target, Crossing(a, target).value, Crossing(b, target).value);
    }
  }

  /** The badge is dated by one of the contributions, and adding later ones does not move it. */
  lemma LaterContributionsKeepTheDate(history: seq<Contribution>, later: seq<Contribution>, target: nat)
    requires 0 < target <= Total(history)
    requires forall c :: c in later ==> c.at > Crossing(history, target).value
    ensures Crossing(history + later, target) == Crossing(history, target)
  {
    var t := Crossing(history, target).value;
    SumConcat(history, later, AMOUNT);
    forall s: int | s <= t
      ensures TotalBy(history + later, s) == TotalBy(history, s)
    {
      SumConcat(history, later, AmountBy(s));
      SumZero(later, AmountBy(s));
    }
    assert ReachedAt(history + later, target, t);
    OnlyOneMoment(history + later, target, t, Crossing(history + later, target).value);
  }
}
