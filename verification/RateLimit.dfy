/** The fixed-window rate limiter in front of the public routes.  Times are milliseconds. */
module RateLimit {
  import opened Wrappers

  /** Stands for the string that joins route, address and identity; keys are only compared. */
  type Key = nat

  datatype Limit = Limit(windowMs: nat, max: nat, cooldownMs: int)

  datatype Bucket = Bucket(count: nat, resetAt: int, blockedUntil: Option<int>)

  datatype Request = Request(key: Key, limit: Limit, at: int)

  // ---------- One request ----------

  predicate NeedsFreshBucket(bucket: Option<Bucket>, now: int) {
    bucket.None? || now > bucket.value.resetAt
  }

  /** The bucket this request falls in. */
  function Current(bucket: Option<Bucket>, limit: Limit, now: int): Bucket {
    if NeedsFreshBucket(bucket, now) then Bucket(0, now + limit.windowMs, None) else bucket.value
  }

  /** A block until time 0 reads as no block. */
  predicate Blocked(bucket: Bucket, now: int) {
    bucket.blockedUntil.Some? && bucket.blockedUntil.value != 0 && now < bucket.blockedUntil.value
  }

  function Counted(bucket: Bucket, limit: Limit, now: int): Bucket {
    var counted := bucket.(count := bucket.count + 1);
    if counted.count > limit.max then counted.(blockedUntil := Some(now + limit.cooldownMs)) else counted
  }

  predicate Admits(bucket: Option<Bucket>, limit: Limit, now: int) {
    var current := Current(bucket, limit, now);
    !Blocked(current, now) && current.count + 1 <= limit.max
  }

  function Next(bucket: Option<Bucket>, limit: Limit, now: int): Option<Bucket> {
    var current := Current(bucket, limit, now);
    if Blocked(current, now) then bucket else Some(Counted(current, limit, now))
  }

  function Get(buckets: map<Key, Bucket>, key: Key): Option<Bucket> {
    if key in buckets then Some(buckets[key]) else None
  }

  function Put(buckets: map<Key, Bucket>, key: Key, bucket: Option<Bucket>): map<Key, Bucket> {
    if bucket.Some? then buckets[key := bucket.value] else buckets
  }

  class RateLimitGuard {
    var buckets: map<Key, Bucket>

    constructor ()
      ensures buckets == map[]
    {
      buckets := map[];
    }

    method CanActivate(key: Key, limit: Limit, now: int) returns (admitted: bool)
      modifies this
      ensures admitted == Admits(Get(old(buckets), key), limit, now)
      ensures buckets == Put(old(buckets), key, Next(Get(old(buckets), key), limit, now))
    {
      var bucket := Get(buckets, key);
      if bucket.None? || now > bucket.value.resetAt {
        bucket := Some(Bucket(0, now + limit.windowMs, None));
      }
      var current := bucket.value;
      if current.blockedUntil.Some? && current.blockedUntil.value != 0 && now < current.blockedUntil.value {
        assert buckets == Put(buckets, key, Get(buckets, key));
        return false;
      }
      current := current.(count := current.count + 1);
      if current.count > limit.max {
        current := current.(blockedUntil := Some(now + limit.cooldownMs));
        buckets := buckets[key := current];
        return false;
      }
      buckets := buckets[key := current];
      return true;
    }
  }

  // ---------- Request traces ----------

  /** The buckets after a trace that began with none. */
  function After(trace: seq<Request>): map<Key, Bucket> {
    if |trace| == 0 then map[]
    else
      var before, last := After(trace[..|trace| - 1]), trace[|trace| - 1];
      Put(before, last.key, Next(Get(before, last.key), last.limit, last.at))
  }

  /** Whether the k-th request of a trace was let through. */
  predicate Admitted(trace: seq<Request>, k: nat)
    requires k < |trace|
  {
    Admits(Get(After(trace[..k]), trace[k].key), trace[k].limit, trace[k].at)
  }

  /** How many requests with this key and a time in [from, to] were let through. */
  function Admissions(trace: seq<Request>, key: Key, from: int, to: int): nat {
    if |trace| == 0 then 0
    else
      var n := |trace| - 1;
      Admissions(trace[..n], key, from, to)
      + if trace[n].key == key && from <= trace[n].at <= to && Admitted(trace, n) then 1 else 0
  }

  predicate ClockNeverGoesBack(trace: seq<Request>) {
    forall j, k :: 0 <= j < k < |trace| ==> trace[j].at <= trace[k].at
  }

  /** The limit on a route is fixed; only the cooldown may be reconfigured. */
  predicate SameLimit(trace: seq<Request>, key: Key, window: nat, max: nat) {
    forall k :: 0 <= k < |trace| && trace[k].key == key ==>
      trace[k].limit.windowMs == window && trace[k].limit.max == max
  }

  /** What one more request does to a key's bucket and to the counts. */
  lemma OneMore(trace: seq<Request>, r: Request, key: Key, from: int, to: int)
    ensures After(trace + [r]) == Put(After(trace), r.key, Next(Get(After(trace), r.key), r.limit, r.at))
    ensures Get(After(trace + [r]), key) ==
            var bucket := Get(After(trace), key); if r.key == key then Next(bucket, r.limit, r.at) else bucket
    ensures Admissions(trace + [r], key, from, to) == Admissions(trace, key, from, to)
            + if r.key == key && from <= r.at <= to && Admits(Get(After(trace), key), r.limit, r.at) then 1 else 0
  {
    hide Blocked, NeedsFreshBucket, Current, Counted, Admits;
    assert (trace + [r])[..|trace|] == trace;
  }

  /** A blocked bucket has used up its allowance. */
  predicate BlockedIsFull(bucket: Option<Bucket>, max: nat) {
    bucket.Some? && bucket.value.blockedUntil.Some? ==> bucket.value.count > max
  }

  lemma {:induction false} BlockedBucketsAreFull(trace: seq<Request>, key: Key, window: nat, max: nat)
    requires SameLimit(trace, key, window, max)
    ensures BlockedIsFull(Get(After(trace), key), max)
  {
    if |trace| > 0 {
      BlockedBucketsAreFull(trace[..|trace| - 1], key, window, max);
    }
  }

  /** Exactly the first `max` requests of a bucket pass: the next request is let through if
      and only if it opens a bucket with any allowance, or its bucket has counted fewer than
      `max`.  A block that outlives its bucket refuses nobody. */
  lemma AdmissionIsExact(trace: seq<Request>, request: Request, window: nat, max: nat)
    requires SameLimit(trace + [request], request.key, window, max)
    ensures Admitted(trace + [request], |trace|) <==>
            var bucket := Get(After(trace), request.key);
            if NeedsFreshBucket(bucket, request.at) then max >= 1 else bucket.value.count < max
  {
    var all := trace + [request];
    assert all[..|trace|] == trace;
    assert all[|trace|] == request;
    assert SameLimit(trace, request.key, window, max) by {
      forall k | 0 <= k < |trace| && trace[k].key == request.key
        ensures trace[k].limit.windowMs == window && trace[k].limit.max == max
      {
        assert all[k] == trace[k];
      }
    }
    BlockedBucketsAreFull(trace, request.key, window, max);
  }

  /** What one request makes of its bucket.  It opens a new one after the reset, which lasts a
      window from then; a standing block leaves the bucket as it is; otherwise the request is
      counted, and one too many sets a block for the cooldown. */
  lemma BucketIsExact(bucket: Option<Bucket>, limit: Limit, now: int)
    ensures var counted, reset :=
              if bucket.Some? && now <= bucket.value.resetAt then bucket.value.count + 1 else 1,
              if bucket.Some? && now <= bucket.value.resetAt then bucket.value.resetAt else now + limit.windowMs;
            var block :=
              if bucket.Some? && now <= bucket.value.resetAt then bucket.value.blockedUntil else None;
            if block.Some? && block.value != 0 && now < block.value then
              !Admits(bucket, limit, now) && Next(bucket, limit, now) == bucket
            else
              && (Admits(bucket, limit, now) <==> counted <= limit.max)
              && Next(bucket, limit, now) ==
                   Some(Bucket(counted, reset, if counted <= limit.max then block else Some(now + limit.cooldownMs)))
  {}

  /** How long a block lasts: it refuses everybody until its time is up exactly if nothing is
      allowed anyway, or that time is no later than the first moment after the bucket's reset. */
  lemma BlockLastsExactly(trace: seq<Request>, key: Key, limit: Limit)
    requires SameLimit(trace, key, limit.windowMs, limit.max)
    requires key in After(trace) && After(trace)[key].blockedUntil.Some?
    ensures var bucket := After(trace)[key];
            (forall now: int :: now < bucket.blockedUntil.value ==> !Admits(Some(bucket), limit, now))
            <==> limit.max == 0 || bucket.blockedUntil.value <= bucket.resetAt + 1
  {
    var bucket := After(trace)[key];
    BlockedBucketsAreFull(trace, key, limit.windowMs, limit.max);
    if limit.max >= 1 && bucket.blockedUntil.value > bucket.resetAt + 1 {
      assert Admits(Some(bucket), limit, bucket.resetAt + 1);
    }
  }

  // ---------- How many pass in a window ----------

  function Spare(max: nat): nat {
    if max >= 1 then max - 1 else 0
  }

  /** What the bucket of a key lets through: at most its count and at most `max` in all, one
      of them at the moment it opened; nothing after its reset; and at most `max - 1` in the
      window before it opened. */
  ghost predicate WithinAllowance(trace: seq<Request>, key: Key, window: nat, max: nat) {
    var bucket := Get(After(trace), key);
    if bucket.None? then
      forall from: int, to: int :: Admissions(trace, key, from, to) == 0
    else
      var reset := bucket.value.resetAt;
      var since := reset - window;
      && |trace| > 0 && since <= trace[|trace| - 1].at
      && bucket.value.count >= 1
      && AtMost(trace, key, since, bucket.value.count) && AtMost(trace, key, since, max)
      && AtMost(trace, key, since + 1, bucket.value.count - 1) && AtMost(trace, key, since + 1, Spare(max))
      && AtMost(trace, key, reset + 1, 0)
      && (forall from: int, to: int :: since - window <= from && to < since ==>
            Admissions(trace, key, from, to) <= Spare(max))
  }

  /** No interval that begins at `start` or later has more than `bound` admissions. */
  ghost predicate AtMost(trace: seq<Request>, key: Key, start: int, bound: int) {
    forall from: int, to: int :: start <= from ==> Admissions(trace, key, from, to) <= bound
  }

  lemma {:induction false} AdmissionsSplit(trace: seq<Request>, key: Key, from: int, mid: int, to: int)
    requires from <= mid <= to + 1
    ensures Admissions(trace, key, from, to) == Admissions(trace, key, from, mid - 1) + Admissions(trace, key, mid, to)
  {
    if |trace| > 0 {
      AdmissionsSplit(trace[..|trace| - 1], key, from, mid, to);
    }
  }

  lemma {:induction false} AdmissionsGrow(trace: seq<Request>, key: Key, from: int, to: int, from': int, to': int)
    requires from' <= from && to <= to'
    ensures Admissions(trace, key, from, to) <= Admissions(trace, key, from', to')
  {
    if |trace| > 0 {
      AdmissionsGrow(trace[..|trace| - 1], key, from, to, from', to');
    }
  }

  lemma {:induction false} AllowanceHolds(trace: seq<Request>, key: Key, window: nat, max: nat)
    requires ClockNeverGoesBack(trace) && SameLimit(trace, key, window, max)
    ensures WithinAllowance(trace, key, window, max)
  {
    if |trace| > 0 {
      var n := |trace| - 1;
      var before := trace[..n];
      AllowanceHolds(before, key, window, max);
      BlockedBucketsAreFull(before, key, window, max);
      if trace[n].key == key {
        var bucket := Get(After(before), key);
        if NeedsFreshBucket(bucket, trace[n].at) {
          FreshBucketStartsClean(trace, key, window, max);
        } else {
          RunningBucketStaysWithin(trace, key, window, max);
        }
      } else {
        OneMore(before, trace[n], key, 0, 0);
        assert trace == before + [trace[n]];
        forall from: int, to: int
          ensures Admissions(trace, key, from, to) == Admissions(before, key, from, to)
        {
        }
      }
    }
  }

  lemma FreshBucketStartsClean(trace: seq<Request>, key: Key, window: nat, max: nat)
    requires |trace| > 0 && trace[|trace| - 1].key == key
    requires SameLimit(trace, key, window, max)
    requires WithinAllowance(trace[..|trace| - 1], key, window, max)
    requires NeedsFreshBucket(Get(After(trace[..|trace| - 1]), key), trace[|trace| - 1].at)
    ensures WithinAllowance(trace, key, window, max)
  {
    var n := |trace| - 1;
    var before, now := trace[..n], trace[n].at;
    var bucket := Get(After(before), key);
    assert Get(After(trace), key) == Next(bucket, trace[n].limit, now);
    forall from: int, to: int
      ensures now <= from ==> Admissions(before, key, from, to) == 0
      ensures now - window <= from ==> Admissions(before, key, from, to) <= Spare(max)
      ensures Admissions(trace, key, from, to) ==
              Admissions(before, key, from, to) + if from <= now <= to && max >= 1 then 1 else 0
    {
      assert trace[n].limit.max == max;
    }
  }

  lemma RunningBucketStaysWithin(trace: seq<Request>, key: Key, window: nat, max: nat)
    requires |trace| > 0 && trace[|trace| - 1].key == key
    requires ClockNeverGoesBack(trace) && SameLimit(trace, key, window, max)
    requires WithinAllowance(trace[..|trace| - 1], key, window, max)
    requires BlockedIsFull(Get(After(trace[..|trace| - 1]), key), max)
    requires !NeedsFreshBucket(Get(After(trace[..|trace| - 1]), key), trace[|trace| - 1].at)
    ensures WithinAllowance(trace, key, window, max)
  {
    var n := |trace| - 1;
    var before, now := trace[..n], trace[n].at;
    var bucket := Get(After(before), key).value;
    assert trace[n].limit.max == max;
    assert before[n - 1].at <= now <= bucket.resetAt;
    assert Get(After(trace), key) == Next(Some(bucket), trace[n].limit, now);
    forall from: int, to: int
      ensures Admissions(trace, key, from, to) ==
              Admissions(before, key, from, to) + if from <= now <= to && bucket.count < max then 1 else 0
    {
    }
  }

  /** However requests are timed, no interval of one window's length sees more than
      2 * max - 1 of a key's requests let through. */
  lemma {:induction false} AtMostTwoAllowances(trace: seq<Request>, key: Key, window: nat, max: nat, from: int)
    requires ClockNeverGoesBack(trace) && SameLimit(trace, key, window, max)
    ensures Admissions(trace, key, from, from + window) <= if max >= 1 then 2 * max - 1 else 0
  {
    if |trace| > 0 {
      var n := |trace| - 1;
      var before, to := trace[..n], from + window;
      AtMostTwoAllowances(before, key, window, max, from);
      if trace[n].key == key && from <= trace[n].at <= to && Admitted(trace, n) {
        AllowanceHolds(trace, key, window, max);
        var since := Get(After(trace), key).value.resetAt - window;
        if from < since {
          AdmissionsSplit(trace, key, from, since, to);
        } else {
          AdmissionsGrow(trace, key, from, to, since, to);
        }
      }
    }
  }

  /** One bucket lets at most `max` requests through. */
  lemma AtMostOneAllowancePerBucket(trace: seq<Request>, key: Key, window: nat, max: nat, to: int)
    requires ClockNeverGoesBack(trace) && SameLimit(trace, key, window, max)
    requires key in After(trace)
    ensures Admissions(trace, key, After(trace)[key].resetAt - window, to) <= max
  {
    AllowanceHolds(trace, key, window, max);
  }

  // ---------- The bound is reached ----------

  function Burst(key: Key, limit: Limit, at: int, n: nat): seq<Request> {
    seq(n, k => Request(key, limit, at))
  }

  /** A burst that fits in what is left of a running bucket passes whole. */
  lemma {:induction false} BurstPasses(trace: seq<Request>, key: Key, limit: Limit, at: int, n: nat, bucket: Bucket,
                                       from: int, to: int)
    requires Get(After(trace), key) == Some(bucket)
    requires at <= bucket.resetAt && bucket.blockedUntil.None? && bucket.count + n <= limit.max
    requires from <= at <= to
    ensures Get(After(trace + Burst(key, limit, at, n)), key) == Some(bucket.(count := bucket.count + n))
    ensures Admissions(trace + Burst(key, limit, at, n), key, from, to) == Admissions(trace, key, from, to) + n
  {
    hide After, Admissions;
    if n == 0 {
      assert trace + Burst(key, limit, at, 0) == trace;
    } else {
      BurstPasses(trace, key, limit, at, n - 1, bucket, from, to);
      OneMore(trace + Burst(key, limit, at, n - 1), Request(key, limit, at), key, from, to);
      assert trace + Burst(key, limit, at, n) == trace + Burst(key, limit, at, n - 1) + [Request(key, limit, at)];
    }
  }

  predicate Orderly(trace: seq<Request>, limit: Limit, latest: int) {
    && ClockNeverGoesBack(trace)
    && forall k :: 0 <= k < |trace| ==> trace[k].limit == limit && trace[k].at <= latest
  }

  lemma BurstStaysOrderly(trace: seq<Request>, key: Key, limit: Limit, latest: int, at: int, n: nat)
    requires Orderly(trace, limit, latest) && latest <= at
    ensures Orderly(trace + Burst(key, limit, at, n), limit, at)
  {
  }

  /** A request that opens a bucket. */
  lemma Opening(trace: seq<Request>, key: Key, limit: Limit, latest: int, now: int, from: int, to: int)
    returns (longer: seq<Request>)
    requires limit.max >= 1 && NeedsFreshBucket(Get(After(trace), key), now)
    requires Orderly(trace, limit, latest) && latest <= now
    ensures Orderly(longer, limit, now)
    ensures longer == trace + [Request(key, limit, now)]
    ensures Get(After(longer), key) == Some(Bucket(1, now + limit.windowMs, None))
    ensures Admissions(longer, key, from, to) == Admissions(trace, key, from, to) + if from <= now <= to then 1 else 0
  {
    hide After, Admissions;
    OneMore(trace, Request(key, limit, now), key, from, to);
    longer := trace + [Request(key, limit, now)];
  }

  /** For every limit with a window, some trace lets 2 * max - 1 through within one window. */
  lemma TwoAllowancesAreReached(key: Key, limit: Limit) returns (trace: seq<Request>)
    requires limit.max >= 1 && limit.windowMs >= 1
    ensures Orderly(trace, limit, 1 + limit.windowMs)
    ensures Admissions(trace, key, 1, 1 + limit.windowMs) == 2 * limit.max - 1
  {
    assert Orderly([], limit, 0) && After([]) == map[] && Admissions([], key, 1, 1 + limit.windowMs) == 0;
    hide After, Admissions, Orderly, Burst, ClockNeverGoesBack;
    var w, m := limit.windowMs, limit.max;
    var first := Opening([], key, limit, 0, 0, 1, 1 + w);
    BurstPasses(first, key, limit, w, m - 1, Bucket(1, w, None), 1, 1 + w);
    BurstStaysOrderly(first, key, limit, 0, w, m - 1);
    var late := first + Burst(key, limit, w, m - 1);
    var reopened := Opening(late, key, limit, w, w + 1, 1, 1 + w);
    BurstPasses(reopened, key, limit, w + 1, m - 1, Bucket(1, 2 * w + 1, None), 1, 1 + w);
    BurstStaysOrderly(reopened, key, limit, w + 1, w + 1, m - 1);
    trace := reopened + Burst(key, limit, w + 1, m - 1);
  }

  /** A burst that uses up a bucket. */
  lemma UsedUpBucket(key: Key, limit: Limit) returns (full: seq<Request>)
    requires limit.max >= 1
    ensures Orderly(full, limit, 0)
    ensures Get(After(full), key) == Some(Bucket(limit.max, limit.windowMs, None))
  {
    assert Orderly([], limit, 0) && After([]) == map[];
    hide After, Admissions, Orderly, Burst, ClockNeverGoesBack;
    var w, m := limit.windowMs, limit.max;
    var first := Opening([], key, limit, 0, 0, 0, 0);
    BurstPasses(first, key, limit, 0, m - 1, Bucket(1, w, None), 0, 0);
    BurstStaysOrderly(first, key, limit, 0, 0, m - 1);
    full := first + Burst(key, limit, 0, m - 1);
  }

  /** For every limit whose cooldown outlasts its window, some request passes while a block
      should still stand. */
  lemma BlocksMayBeCutShort(key: Key, limit: Limit) returns (trace: seq<Request>, now: int)
    requires limit.max >= 1 && limit.cooldownMs > limit.windowMs + 1
    ensures Orderly(trace, limit, now)
    ensures var bucket := Get(After(trace), key);
            && bucket.Some? && bucket.value.blockedUntil.Some? && now < bucket.value.blockedUntil.value
            && Admits(bucket, limit, now)
  {
    hide After, Admissions, Orderly;
    var full := UsedUpBucket(key, limit);
    var refused := Request(key, limit, 0);
    OneMore(full, refused, key, 0, 0);
    trace, now := full + [refused], limit.windowMs + 1;
    OneMoreStaysOrderly(full, limit, 0, refused, now);
  }

  lemma OneMoreStaysOrderly(trace: seq<Request>, limit: Limit, latest: int, r: Request, now: int)
    requires Orderly(trace, limit, latest) && r.limit == limit && latest <= r.at <= now
    ensures Orderly(trace + [r], limit, now)
  {}

  // ---------- Cooldowns and keys ----------

  /** The same requests, whatever the cooldowns. */
  predicate SameButCooldowns(a: seq<Request>, b: seq<Request>) {
    && |a| == |b|
    && forall k :: 0 <= k < |a| ==> b[k] == a[k].(limit := a[k].limit.(cooldownMs := b[k].limit.cooldownMs))
  }

  /** Equal up to how far a full bucket has been overrun. */
  predicate SameAllowance(a: Option<Bucket>, b: Option<Bucket>, max: nat) {
    && (a.Some? <==> b.Some?)
    && (a.Some? ==> a.value.resetAt == b.value.resetAt)
    && (a.Some? ==> a.value.count == b.value.count || (a.value.count > max && b.value.count > max))
  }

  /** The cooldown never decides whether a request passes: traces that differ only in their
      cooldowns let exactly the same requests through. */
  lemma {:induction false} CooldownDecidesNothing(a: seq<Request>, b: seq<Request>, key: Key, window: nat, max: nat)
    requires SameButCooldowns(a, b) && SameLimit(a, key, window, max)
    ensures SameAllowance(Get(After(a), key), Get(After(b), key), max)
    ensures forall k :: 0 <= k < |a| && a[k].key == key ==> (Admitted(a, k) <==> Admitted(b, k))
  {
    if |a| > 0 {
      var n := |a| - 1;
      var before, before' := Get(After(a[..n]), key), Get(After(b[..n]), key);
      CooldownDecidesNothing(a[..n], b[..n], key, window, max);
      forall k | 0 <= k < n && a[k].key == key
        ensures Admitted(a, k) <==> Admitted(b, k)
      {
        hide Admits;
        assert a[..n][..k] == a[..k] && b[..n][..k] == b[..k];
        assert Admitted(a[..n], k) <==> Admitted(b[..n], k);
      }
      BlockedBucketsAreFull(a[..n], key, window, max);
      BlockedBucketsAreFull(b[..n], key, window, max);
      OneMore(a[..n], a[n], key, 0, 0);
      OneMore(b[..n], b[n], key, 0, 0);
      assert a == a[..n] + [a[n]] && b == b[..n] + [b[n]];
      if a[n].key == key {
        SameAllowanceSameAnswer(before, before', a[n].limit, b[n].limit, a[n].at);
      }
    }
  }

  lemma SameAllowanceSameAnswer(a: Option<Bucket>, b: Option<Bucket>, limit: Limit, limit': Limit, now: int)
    requires limit' == limit.(cooldownMs := limit'.cooldownMs)
    requires SameAllowance(a, b, limit.max)
    requires BlockedIsFull(a, limit.max) && BlockedIsFull(b, limit.max)
    ensures Admits(a, limit, now) <==> Admits(b, limit', now)
    ensures SameAllowance(Next(a, limit, now), Next(b, limit', now), limit.max)
  {
  }

  function Only(trace: seq<Request>, key: Key): seq<Request> {
    if |trace| == 0 then []
    else
      var n := |trace| - 1;
      Only(trace[..n], key) + if trace[n].key == key then [trace[n]] else []
  }

  /** A key is treated as if no other key existed. */
  lemma {:induction false} KeysAreIndependent(trace: seq<Request>, key: Key, from: int, to: int)
    ensures Get(After(trace), key) == Get(After(Only(trace, key)), key)
    ensures Admissions(trace, key, from, to) == Admissions(Only(trace, key), key, from, to)
  {
    if |trace| > 0 {
      hide After, Admissions, Admits, Next;
      var n := |trace| - 1;
      KeysAreIndependent(trace[..n], key, from, to);
      assert trace == trace[..n] + [trace[n]];
      OneMore(trace[..n], trace[n], key, from, to);
      var only := Only(trace[..n], key);
      OneMore(only, trace[n], key, from, to);
      assert only + [] == only;
    }
  }
}
