/** A user's award rows, kept in step with what the user has done. */
module BadgeService {
  import opened Wrappers
  import opened BadgeProgress

  type Code = nat

  datatype Metric =
    | Attendance | VolunteerEvents | VolunteerMinutes | HostedEvents
    | ImpactReports | Donations | DonatedEvents | DonationMonths

  datatype Badge = Badge(code: Code, metric: Metric, target: nat, giving: bool)

  datatype Award = Award(earnedAt: Option<int>, isPublic: bool)

  /** What the source records say the user has done, read afresh at each visit. */
  type Activity = Metric -> seq<Contribution>

  predicate ValidCatalog(catalog: seq<Badge>) {
    && (forall k :: 0 <= k < |catalog| ==> catalog[k].target > 0)
    && (forall j, k :: 0 <= j < k < |catalog| ==> catalog[j].code != catalog[k].code)
  }

  function Get(awards: map<Code, Award>, code: Code): Option<Award> {
    if code in awards then Some(awards[code]) else None
  }

  // ---------- One badge ----------

  /** The row of a badge once its progress is known: an award keeps its date and its
      visibility, a lost one only its visibility. */
  function Settle(row: Option<Award>, badge: Badge, earnedAt: Option<int>): Option<Award> {
    match (row, earnedAt)
    case (None, None) => None
    case (None, Some(at)) => Some(Award(Some(at), !badge.giving))
    case (Some(award), None) => Some(award.(earnedAt := None))
    case (Some(award), Some(at)) => Some(award.(earnedAt := if award.earnedAt.Some? then award.earnedAt else Some(at)))
  }

  function Listed(catalog: seq<Badge>, code: Code): (index: Option<nat>)
    ensures index.Some? ==> index.value < |catalog| && catalog[index.value].code == code
    ensures index.None? ==> forall k :: 0 <= k < |catalog| ==> catalog[k].code != code
  {
    if |catalog| == 0 then None
    else if catalog[|catalog| - 1].code == code then Some(|catalog| - 1)
    else Listed(catalog[..|catalog| - 1], code)
  }

  predicate Reached(badge: Badge, activity: Activity) {
    Total(activity(badge.metric)) >= badge.target
  }

  ghost function DateOf(badge: Badge, activity: Activity): (date: Option<int>)
    requires badge.target > 0
    ensures date.Some? <==> Reached(badge, activity)
  {
    Crossing(activity(badge.metric), badge.target)
  }

  // ---------- All of a user's rows ----------

  ghost function Row(awards: map<Code, Award>, catalog: seq<Badge>, activity: Activity, code: Code): Option<Award>
    requires ValidCatalog(catalog)
  {
    var k := Listed(catalog, code);
    if k.None? then Get(awards, code)
    else Settle(Get(awards, code), catalog[k.value], DateOf(catalog[k.value], activity))
  }

  function Codes(awards: map<Code, Award>, catalog: seq<Badge>): set<Code> {
    awards.Keys + set k | 0 <= k < |catalog| :: catalog[k].code
  }

  lemma RowsHaveCodes(awards: map<Code, Award>, catalog: seq<Badge>, activity: Activity, code: Code)
    requires ValidCatalog(catalog) && Row(awards, catalog, activity, code).Some?
    ensures code in Codes(awards, catalog)
  {
    hide Settle, DateOf;
    if Listed(catalog, code).Some? {
      assert catalog[Listed(catalog, code).value].code == code;
    }
  }

  ghost function Reconciled(awards: map<Code, Award>, catalog: seq<Badge>, activity: Activity)
    : (after: map<Code, Award>)
    requires ValidCatalog(catalog)
    ensures forall code: Code :: Get(after, code) == Row(awards, catalog, activity, code)
  {
    hide Row, Codes;
    assert forall code: Code :: Row(awards, catalog, activity, code).Some? ==> code in Codes(awards, catalog) by {
      forall code: Code | Row(awards, catalog, activity, code).Some?
        ensures code in Codes(awards, catalog)
      {
        RowsHaveCodes(awards, catalog, activity, code);
      }
    }
    map code | code in Codes(awards, catalog) && Row(awards, catalog, activity, code).Some? ::
      Row(awards, catalog, activity, code).value
  }

  lemma SameRowsSameAwards(a: map<Code, Award>, b: map<Code, Award>)
    requires forall code: Code :: Get(a, code) == Get(b, code)
    ensures a == b
  {
    forall code: Code
      ensures code in a <==> code in b
      ensures code in a ==> a[code] == b[code]
    {
      assert Get(a, code) == Get(b, code);
    }
  }

  // ---------- The service ----------

  function Shown(saved: Option<Award>, earnedAt: Option<int>): Option<int> {
    if earnedAt.Some? && saved.Some? && saved.value.earnedAt.Some? then saved.value.earnedAt else earnedAt
  }

  function Upserted(row: Option<Award>, badge: Badge, earnedAt: Option<int>): Option<Award> {
    if earnedAt.None? then row
    else if row.Some? then Some(row.value.(earnedAt := earnedAt))
    else Some(Award(earnedAt, !badge.giving))
  }

  function Cleared(row: Option<Award>, earnedAt: Option<int>): Option<Award> {
    if row.Some? && earnedAt.None? then Some(row.value.(earnedAt := None)) else row
  }

  lemma SettleClearsThenUpserts(row: Option<Award>, badge: Badge, date: Option<int>)
    ensures var shown := Shown(row, date);
            var written := Upserted(Cleared(row, shown), badge, shown);
            && written == Settle(row, badge, date)
            && (shown.Some? ==> written.Some? && written.value.earnedAt == shown)
  {}

  class BadgeService {
    var awards: map<Code, Award>

    constructor ()
      ensures awards == map[]
    {
      awards := map[];
    }

    /** The date each badge shows: the saved one if there is one. */
    method Evaluated(catalog: seq<Badge>, activity: Activity, saved: map<Code, Award>)
      returns (earned: seq<Option<int>>)
      requires ValidCatalog(catalog)
      ensures |earned| == |catalog|
      ensures forall k :: 0 <= k < |catalog| ==>
                earned[k] == Shown(Get(saved, catalog[k].code), DateOf(catalog[k], activity))
    {
      earned := [];
      for k := 0 to |catalog|
        invariant |earned| == k
        invariant forall j :: 0 <= j < k ==>
                    earned[j] == Shown(Get(saved, catalog[j].code), DateOf(catalog[j], activity))
      {
        var progress := Evaluate(catalog[k].target, activity(catalog[k].metric));
        earned := earned + [Shown(Get(saved, catalog[k].code), progress.earnedAt)];
      }
    }

    method ClearUnearned(catalog: seq<Badge>, earned: seq<Option<int>>)
      requires ValidCatalog(catalog) && |earned| == |catalog|
      modifies this
      ensures forall k :: 0 <= k < |catalog| ==>
                Get(awards, catalog[k].code) == Cleared(Get(old(awards), catalog[k].code), earned[k])
      ensures forall code: Code :: Listed(catalog, code).None? ==> Get(awards, code) == Get(old(awards), code)
    {
      var unearned := set k | 0 <= k < |catalog| && earned[k].None? :: catalog[k].code;
      awards := map code | code in awards :: if code in unearned then awards[code].(earnedAt := None) else awards[code];
    }

    method UpsertEarned(catalog: seq<Badge>, earned: seq<Option<int>>)
      requires ValidCatalog(catalog) && |earned| == |catalog|
      modifies this
      ensures forall k :: 0 <= k < |catalog| ==>
                Get(awards, catalog[k].code) == Upserted(Get(old(awards), catalog[k].code), catalog[k], earned[k])
      ensures forall code: Code :: Listed(catalog, code).None? ==> Get(awards, code) == Get(old(awards), code)
    {
      for k := 0 to |catalog|
        invariant forall j :: 0 <= j < k ==>
                    Get(awards, catalog[j].code) == Upserted(Get(old(awards), catalog[j].code), catalog[j], earned[j])
        invariant forall j :: k <= j < |catalog| ==> Get(awards, catalog[j].code) == Get(old(awards), catalog[j].code)
        invariant forall code: Code :: Listed(catalog, code).None? ==> Get(awards, code) == Get(old(awards), code)
      {
        if earned[k].Some? {
          var row := Upserted(Get(awards, catalog[k].code), catalog[k], earned[k]);
          awards := awards[catalog[k].code := row.value];
        }
      }
    }

    /** Clears the awards that no longer hold, then writes the ones that do. */
    method Reconcile(catalog: seq<Badge>, activity: Activity) returns (earned: seq<Option<int>>)
      requires ValidCatalog(catalog)
      modifies this
      ensures awards == Reconciled(old(awards), catalog, activity)
      ensures |earned| == |catalog|
      ensures forall k :: 0 <= k < |catalog| ==> (earned[k].Some? <==> Reached(catalog[k], activity))
      ensures forall k :: 0 <= k < |catalog| && earned[k].Some? ==>
                var row := Get(awards, catalog[k].code);
                row.Some? && row.value.earnedAt == earned[k]
    {
      hide Reconciled, Settle, Cleared, Upserted, DateOf;
      earned := Evaluated(catalog, activity, awards);
      ClearUnearned(catalog, earned);
      UpsertEarned(catalog, earned);
      forall code: Code
        ensures Get(awards, code) == Row(old(awards), catalog, activity, code)
      {
        var k := Listed(catalog, code);
        if k.Some? {
          SettleClearsThenUpserts(Get(old(awards), code), catalog[k.value], DateOf(catalog[k.value], activity));
        }
      }
      SameRowsSameAwards(awards, Reconciled(old(awards), catalog, activity));
      forall k | 0 <= k < |catalog| && earned[k].Some?
        ensures Get(awards, catalog[k].code).Some? && Get(awards, catalog[k].code).value.earnedAt == earned[k]
      {
        SettleClearsThenUpserts(Get(old(awards), catalog[k].code), catalog[k], DateOf(catalog[k], activity));
      }
    }

    /** Refused, with nothing written, unless the badge is earned. */
    method SetVisibility(catalog: seq<Badge>, activity: Activity, code: Code, isPublic: bool) returns (ok: bool)
      requires ValidCatalog(catalog)
      modifies this
      ensures ok == CanShow(catalog, activity, code)
      ensures awards == AfterShow(old(awards), catalog, activity, code, isPublic)
    {
      var saved := awards;
      var earned := Reconcile(catalog, activity);
      var k := Listed(catalog, code);
      if k.None? || earned[k.value].None? {
        awards := saved;
        return false;
      }
      assert Get(awards, code).Some?;
      awards := awards[code := awards[code].(isPublic := isPublic)];
      return true;
    }
  }

  predicate CanShow(catalog: seq<Badge>, activity: Activity, code: Code) {
    var k := Listed(catalog, code);
    k.Some? && Reached(catalog[k.value], activity)
  }

  ghost function AfterShow(awards: map<Code, Award>, catalog: seq<Badge>, activity: Activity, code: Code,
                           isPublic: bool)
    : map<Code, Award>
    requires ValidCatalog(catalog)
  {
    if !CanShow(catalog, activity, code) then awards
    else
      var after := Reconciled(awards, catalog, activity);
      assert Get(after, code) == Row(awards, catalog, activity, code);
      after[code := after[code].(isPublic := isPublic)]
  }

  // ---------- Runs ----------

  /** A look at one's badges, or a change of what the profile shows. */
  datatype Visit =
    | Look(activity: Activity)
    | Show(activity: Activity, code: Code, isPublic: bool)

  ghost function Apply(catalog: seq<Badge>, awards: map<Code, Award>, visit: Visit): map<Code, Award>
    requires ValidCatalog(catalog)
  {
    match visit
    case Look(activity) => Reconciled(awards, catalog, activity)
    case Show(activity, code, isPublic) => AfterShow(awards, catalog, activity, code, isPublic)
  }

  ghost function After(catalog: seq<Badge>, visits: seq<Visit>): map<Code, Award>
    requires ValidCatalog(catalog)
  {
    if |visits| == 0 then map[] else Apply(catalog, After(catalog, visits[..|visits| - 1]), visits[|visits| - 1])
  }

  /** Whether a visit commits anything. */
  predicate Commits(catalog: seq<Badge>, visit: Visit) {
    visit.Show? ==> CanShow(catalog, visit.activity, visit.code)
  }

  /** Since when the badge has been held without a break, judged by the activity alone. */
  ghost function HeldSince(catalog: seq<Badge>, visits: seq<Visit>, badge: Badge): Option<int>
    requires badge.target > 0
  {
    if |visits| == 0 then None
    else
      var visit := visits[|visits| - 1];
      var before := HeldSince(catalog, visits[..|visits| - 1], badge);
      if !Commits(catalog, visit) then before
      else if !Reached(badge, visit.activity) then None
      else if before.Some? then before
      else DateOf(badge, visit.activity)
  }

  predicate EverReached(catalog: seq<Badge>, visits: seq<Visit>, badge: Badge) {
    exists k :: 0 <= k < |visits| && Commits(catalog, visits[k]) && Reached(badge, visits[k].activity)
  }

  /** The user's last accepted choice for the badge; giving badges start hidden. */
  function LastChoice(catalog: seq<Badge>, visits: seq<Visit>, badge: Badge): bool {
    if |visits| == 0 then !badge.giving
    else
      var visit := visits[|visits| - 1];
      if visit.Show? && visit.code == badge.code && Commits(catalog, visit) then visit.isPublic
      else LastChoice(catalog, visits[..|visits| - 1], badge)
  }

  /** What one visit makes of a badge's row. */
  ghost function Visited(catalog: seq<Badge>, visit: Visit, badge: Badge, row: Option<Award>): Option<Award>
    requires badge.target > 0
  {
    if !Commits(catalog, visit) then row
    else
      var settled := Settle(row, badge, DateOf(badge, visit.activity));
      if visit.Show? && visit.code == badge.code && settled.Some? then Some(settled.value.(isPublic := visit.isPublic))
      else settled
  }

  lemma VisitSettlesRow(catalog: seq<Badge>, awards: map<Code, Award>, visit: Visit, k: nat)
    requires ValidCatalog(catalog) && k < |catalog|
    ensures Get(Apply(catalog, awards, visit), catalog[k].code) ==
            Visited(catalog, visit, catalog[k], Get(awards, catalog[k].code))
  {
    var badge := catalog[k];
    assert Listed(catalog, badge.code) == Some(k);
    hide Reconciled, DateOf, Settle, Reached;
    assert Get(Reconciled(awards, catalog, visit.activity), badge.code) ==
           Row(awards, catalog, visit.activity, badge.code);
  }

  /** After any series of visits, whatever activity came and went in between: a badge has a
      row if and only if it was ever earned; the row is dated exactly while the badge is
      held, with the date of the first visit of the present unbroken spell; and it shows what
      the user last chose, even across losing the badge and earning it again. */
  lemma {:induction false} RowsFollowActivity(catalog: seq<Badge>, visits: seq<Visit>, k: nat)
    requires ValidCatalog(catalog) && k < |catalog|
    ensures Get(After(catalog, visits), catalog[k].code) ==
            if EverReached(catalog, visits, catalog[k])
            then Some(Award(HeldSince(catalog, visits, catalog[k]), LastChoice(catalog, visits, catalog[k])))
            else None
    ensures !EverReached(catalog, visits, catalog[k]) ==>
            && HeldSince(catalog, visits, catalog[k]).None?
            && LastChoice(catalog, visits, catalog[k]) == !catalog[k].giving
  {
    hide Apply, Reached, DateOf;
    if |visits| > 0 {
      var n := |visits| - 1;
      var visit, badge := visits[n], catalog[k];
      RowsFollowActivity(catalog, visits[..n], k);
      VisitSettlesRow(catalog, After(catalog, visits[..n]), visit, k);
      if visit.Show? && visit.code == badge.code && Commits(catalog, visit) {
        ShownIsReached(catalog, visit, k);
      }
      assert EverReached(catalog, visits, badge) <==>
             EverReached(catalog, visits[..n], badge) || (Commits(catalog, visit) && Reached(badge, visit.activity));
      hide EverReached, Commits, CanShow;
    }
  }

  lemma ShownIsReached(catalog: seq<Badge>, visit: Visit, k: nat)
    requires ValidCatalog(catalog) && k < |catalog|
    requires visit.Show? && visit.code == catalog[k].code && Commits(catalog, visit)
    ensures Reached(catalog[k], visit.activity)
  {
    assert Listed(catalog, catalog[k].code) == Some(k);
  }

  /** Looking twice changes nothing the second time. */
  lemma ReconcilingTwiceIsReconcilingOnce(awards: map<Code, Award>, catalog: seq<Badge>, activity: Activity)
    requires ValidCatalog(catalog)
    ensures var once := Reconciled(awards, catalog, activity); Reconciled(once, catalog, activity) == once
  {
    var once := Reconciled(awards, catalog, activity);
    forall code: Code
      ensures Row(once, catalog, activity, code) == Get(once, code)
    {
      assert Get(once, code) == Row(awards, catalog, activity, code);
    }
    SameRowsSameAwards(Reconciled(once, catalog, activity), once);
  }
}
