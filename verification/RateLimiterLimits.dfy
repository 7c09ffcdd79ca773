/** How slow the clients of the rate limiter may be: exactly as slow as it takes a bucket to
    expire after the last request that reads it. */
module RateLimiterLimits {
  import opened RateLimiter
  import opened Sets
  import opened Wrappers

  /** No run ever holds more accepted requests in `steps` consecutive buckets than allowed. */
  ghost predicate KeepsLimit(c: Config)
    requires IsConfig(c)
  {
    forall trace: seq<Step>, s: State, first: int :: Run(c, trace, s) ==> |AcceptedIn(c, s, first)| as real <= c.limit
  }

  /** For every limit the limiter keeps it exactly if there is but one bucket or the clients
      make their reads within `interval // steps` seconds. */
  lemma KeepsLimitIff(c: Config)
    requires IsConfig(c) && c.limit >= 0.0
    ensures KeepsLimit(c) <==> IsTimely(c)
  {
    hide Run, AcceptedIn;
    if IsTimely(c) {
      forall trace: seq<Step>, s: State, first: int | Run(c, trace, s)
        ensures |AcceptedIn(c, s, first)| as real <= c.limit
      {
        LimitHolds(c, trace, s, first);
      }
    } else {
      var trace, s := SlowReadOvershoots(c);
    }
  }

  // ----- requests at time 0 ----------------------------------------------------------------

  function Ttl(c: Config): real
    requires IsConfig(c)
  {
    TimeToLive(c) as real
  }

  function Keys(c: Config, k: nat): map<int, Counter>
    requires IsConfig(c)
  {
    if k == 0 then map[] else map[0 := Counter(k, Some(Ttl(c)))]
  }

  function AtZero(c: Config, id: nat, phase: Phase): Request {
    Request(0, 0.0, true, c.steps, id + 1, phase)
  }

  function Requests(c: Config, k: nat): map<nat, Request> {
    map id: nat | id < k :: AtZero(c, id, Accepted)
  }

  /** The first `k` requests have been accepted at time 0. */
  function Filled(c: Config, k: nat): State
    requires IsConfig(c)
  {
    State(0.0, Keys(c, k), Requests(c, k), k)
  }

  /** And one more has seen that it is too many, but has not taken its count back. */
  function Full(c: Config, k: nat): State
    requires IsConfig(c)
  {
    State(0.0, Keys(c, k + 1), Requests(c, k)[k := AtZero(c, k, Rejecting)], k + 1)
  }

  lemma ZeroIsInBucketZero(c: Config)
    requires IsConfig(c)
    ensures Bucket(c, 0.0) == 0 && TimeToLive(c) > 0
  {
    hide Bucket;
    TimeToLiveIs(c);
    BucketAt(c, 0.0, 0);
  }

  lemma BucketAt(c: Config, time: real, bucket: int)
    requires IsConfig(c)
    requires (c.interval * bucket) as real <= Scaled(c, time) < (c.interval * (bucket + 1)) as real
    ensures Bucket(c, time) == bucket
  {
    hide Bucket, Scaled;
    BucketHoldsTime(c, time);
    Cancels(Bucket(c, time), bucket + 1, c.interval);
    Cancels(bucket, Bucket(c, time) + 1, c.interval);
  }

  // ----- reading back -------------------------------------------------------------------------

  /** The sum of what some buckets hold. */
  function Back(s: State, bucket: int, from: nat, upto: nat): int
    decreases upto
  {
    if upto <= from then 0 else Back(s, bucket, from, upto - 1) + Reading(s, bucket - (upto - 1))
  }

  lemma {:induction false} BackCons(s: State, bucket: int, from: nat, upto: nat)
    requires from < upto
    ensures Back(s, bucket, from, upto) == Reading(s, bucket - from) + Back(s, bucket, from + 1, upto)
    decreases upto
  {
    if from + 1 < upto {
      BackCons(s, bucket, from, upto - 1);
    }
  }

  lemma {:induction false} BackSame(s: State, s': State, bucket: int, from: nat, upto: nat)
    requires s'.keys == s.keys && s'.now == s.now
    ensures Back(s', bucket, from, upto) == Back(s, bucket, from, upto)
    decreases upto
  {
    if from < upto {
      BackSame(s, s', bucket, from, upto - 1);
    }
  }

  lemma {:induction false} BackNothing(s: State, bucket: int, from: nat, upto: nat)
    requires forall b :: bucket - upto < b <= bucket - from ==> b !in s.keys
    ensures Back(s, bucket, from, upto) == 0
    decreases upto
  {
    if from < upto {
      BackNothing(s, bucket, from, upto - 1);
    }
  }

  /** The state after a request has made all its reads. */
  function AllRead(c: Config, s: State, id: nat): State
    requires IsConfig(c) && id in s.requests && 1 <= s.requests[id].next
  {
    var r := s.requests[id];
    s.(requests := s.requests[id := r.(next := c.steps, count := r.count + Back(s, r.bucket, r.next, c.steps))])
  }

  lemma {:induction false} ReadsAll(c: Config, trace: seq<Step>, s: State, id: nat) returns (trace': seq<Step>)
    requires IsConfig(c) && Run(c, trace, s) && id in s.requests && 1 <= s.requests[id].next <= c.steps
    requires s.requests[id].phase.Counting? && s.requests[id].expirySet && s.now <= s.requests[id].start + c.delay
    ensures Run(c, trace', AllRead(c, s, id))
    decreases c.steps - s.requests[id].next
  {
    hide Run, Reading, Back;
    var r := s.requests[id];
    if r.next == c.steps {
      trace' := trace;
      BackNothing(s, r.bucket, c.steps, c.steps);
      assert AllRead(c, s, id) == s;
    } else {
      RunGoesOn(c, trace, s, Get(id));
      var s1 := Apply(c, s, Get(id));
      trace' := ReadsAll(c, trace + [Get(id)], s1, id);
      BackCons(s, r.bucket, r.next, c.steps);
      BackSame(s, s1, r.bucket, r.next + 1, c.steps);
      assert AllRead(c, s1, id) == AllRead(c, s, id);
    }
  }

  // ----- filling the first bucket -------------------------------------------------------------

  lemma CountsItselfIn(c: Config, trace: seq<Step>, k: nat) returns (trace': seq<Step>)
    requires IsConfig(c) && Run(c, trace, Filled(c, k))
    ensures Run(c, trace', State(0.0, Keys(c, k + 1), Requests(c, k)[k := Request(0, 0.0, true, 1, k + 1, Counting)], k + 1))
  {
    hide Run, Bucket, TimeToLive;
    ZeroIsInBucketZero(c);
    var s := Filled(c, k);
    var s1 := Apply(c, s, Incr);
    RunGoesOn(c, trace, s, Incr);
    assert s1 == State(0.0, map[0 := Counter(k + 1, if k == 0 then None else Some(Ttl(c)))],
                       Requests(c, k)[k := Request(0, 0.0, false, 1, k + 1, Counting)], k + 1);
    RunGoesOn(c, trace + [Incr], s1, Expire(k));
    trace' := trace + [Incr] + [Expire(k)];
    assert Apply(c, s1, Expire(k)) == State(0.0, Keys(c, k + 1), Requests(c, k)[k := Request(0, 0.0, true, 1, k + 1, Counting)], k + 1);
  }

  /** One more request at time 0 is accepted as long as there is room. */
  lemma OneMoreAtZero(c: Config, trace: seq<Step>, k: nat) returns (trace': seq<Step>)
    requires IsConfig(c) && Run(c, trace, Filled(c, k))
    ensures Run(c, trace', if (k + 1) as real > c.limit then Full(c, k) else Filled(c, k + 1))
  {
    hide Run, Bucket, TimeToLive, Ttl;
    var trace1 := CountsItselfIn(c, trace, k);
    var s2 := State(0.0, Keys(c, k + 1), Requests(c, k)[k := Request(0, 0.0, true, 1, k + 1, Counting)], k + 1);
    var trace2 := ReadsAll(c, trace1, s2, k);
    BackNothing(s2, 0, 1, c.steps);
    var s3 := AllRead(c, s2, k);
    RunGoesOn(c, trace2, s3, Decide(k));
    trace' := trace2 + [Decide(k)];
    assert s3.requests[k] == Request(0, 0.0, true, c.steps, k + 1, Counting);
    assert Requests(c, k + 1) == Requests(c, k)[k := AtZero(c, k, Accepted)];
    assert Apply(c, s3, Decide(k)) == if (k + 1) as real > c.limit then Full(c, k) else Filled(c, k + 1);
  }

  lemma {:induction false} FillsUp(c: Config, k: nat) returns (trace: seq<Step>)
    requires IsConfig(c) && k as real <= c.limit
    ensures Run(c, trace, Filled(c, k))
  {
    hide Run;
    if k == 0 {
      trace := [];
      NothingRun(c);
    } else {
      var trace1 := FillsUp(c, k - 1);
      trace := OneMoreAtZero(c, trace1, k - 1);
    }
  }

  lemma NothingRun(c: Config)
    requires IsConfig(c)
    ensures Run(c, [], Filled(c, 0))
  {
    assert Requests(c, 0) == map[];
  }

  // ----- the late request -----------------------------------------------------------------------

  /** When it starts: in the last bucket of the window, and late enough. */
  function LateStart(c: Config): real
    requires IsConfig(c)
  {
    var enough := Ttl(c) - c.delay;
    var bucketStart := ((c.steps - 1) * c.interval) as real / c.steps as real;
    if enough < bucketStart then bucketStart else enough
  }

  lemma LateStartIsInLastBucket(c: Config)
    requires IsConfig(c) && !IsTimely(c)
    ensures Bucket(c, LateStart(c)) == c.steps - 1 && LateStart(c) >= 0.0 && LateStart(c) + c.delay >= Ttl(c)
  {
    hide Bucket, TimeToLive, Scaled;
    TimeToLiveIs(c);
    var t, start := LateStart(c), ((c.steps - 1) * c.interval) as real / c.steps as real;
    MulMonoInt(0, c.steps - 1, c.interval);
    Quotient(((c.steps - 1) * c.interval) as real, c.steps as real);
    ScaledIs(c, start, ((c.steps - 1) * c.interval) as real);
    ScaledRises(c, start, t);
    ScaledIsBelow(c, t);
    BucketAt(c, t, c.steps - 1);
    if start < 0.0 {
      MulStrict(start, 0.0, c.steps as real);
    }
  }

  lemma ScaledIs(c: Config, time: real, scaled: real)
    requires c.steps as real * time == scaled
    ensures Scaled(c, time) == scaled
  {
  }

  lemma ScaledIsBelow(c: Config, t: real)
    requires IsConfig(c) && !IsTimely(c) && t == LateStart(c)
    ensures Scaled(c, t) < (c.interval * c.steps) as real
  {
    hide TimeToLive, LateStart;
    LateStartIsEarly(c);
    MulStrict(t, c.interval as real, c.steps as real);
    Product(c.steps, c.interval);
  }

  lemma LateStartIsEarly(c: Config)
    requires IsConfig(c) && !IsTimely(c)
    ensures LateStart(c) < c.interval as real
  {
    hide TimeToLive, Ttl;
    LastBucketIsEarly(c.steps, c.interval);
    SlowIsEarly(c);
  }

  /** The last bucket of the window starts before the interval is over, */
  lemma LastBucketIsEarly(steps: int, interval: int)
    requires steps > 0 && interval > 0
    ensures ((steps - 1) * interval) as real / steps as real < interval as real
  {
    var all := (steps - 1) * interval;
    Distributes(steps, interval);
    Product(steps, interval);
    QuotientIsBelow(all as real, interval as real, steps as real);
  }

  lemma Distributes(steps: int, interval: int)
    ensures (steps - 1) * interval == steps * interval - interval
  {
  }

  lemma QuotientIsBelow(x: real, y: real, k: real)
    requires k > 0.0 && x < k * y
    ensures x / k < y
  {
    Quotient(x, k);
    if y <= x / k {
      MulMono(y, x / k, k);
    }
  }

  /** and so does the time after which the first bucket expires before a slow read. */
  lemma SlowIsEarly(c: Config)
    requires IsConfig(c) && !IsTimely(c)
    ensures Ttl(c) - c.delay < c.interval as real
  {
    hide TimeToLive;
    TimeToLiveIs(c);
  }

  /** The state when the late request has counted itself in, and the first bucket has expired. */
  function Late(c: Config, k: nat): State
    requires IsConfig(c)
  {
    State(LateStart(c) + c.delay,
          Keys(c, k + 1)[c.steps - 1 := Counter(1, Some(LateStart(c) + Ttl(c)))],
          Requests(c, k)[k := AtZero(c, k, Rejecting)][k + 1 := Request(c.steps - 1, LateStart(c), true, 1, 1, Counting)],
          k + 2)
  }

  lemma StartsLate(c: Config, trace: seq<Step>, k: nat) returns (trace': seq<Step>)
    requires IsConfig(c) && !IsTimely(c) && Run(c, trace, Full(c, k))
    ensures Run(c, trace', Late(c, k))
  {
    hide Run, Bucket, TimeToLive, Ttl, LateStart;
    LateStartIsInLastBucket(c);
    var t, s := LateStart(c), Full(c, k);
    RunGoesOn(c, trace, s, Tick(t));
    var s1 := s.(now := t);
    RunGoesOn(c, trace + [Tick(t)], s1, Incr);
    var s2 := Apply(c, s1, Incr);
    assert s2.keys == s1.keys[c.steps - 1 := Counter(1, None)];
    RunGoesOn(c, trace + [Tick(t)] + [Incr], s2, Expire(k + 1));
    var s3 := Apply(c, s2, Expire(k + 1));
    assert s3.keys == s1.keys[c.steps - 1 := Counter(1, Some(t + Ttl(c)))] by {
      TtlIs(c);
    }
    RunGoesOn(c, trace + [Tick(t)] + [Incr] + [Expire(k + 1)], s3, Tick(t + c.delay));
    trace' := trace + [Tick(t)] + [Incr] + [Expire(k + 1)] + [Tick(t + c.delay)];
    assert Apply(c, s3, Tick(t + c.delay)) == Late(c, k);
  }

  lemma TtlIs(c: Config)
    requires IsConfig(c)
    ensures Ttl(c) == TimeToLive(c) as real
  {
  }

  /** The refused request takes its count back from a key that is gone: the counter goes
      below zero, and the late request counts itself out again. */
  lemma LateIsAccepted(c: Config, trace: seq<Step>, k: nat) returns (trace': seq<Step>, s: State)
    requires IsConfig(c) && !IsTimely(c) && c.limit >= 0.0 && Run(c, trace, Late(c, k))
    ensures Run(c, trace', s)
    ensures forall id: nat :: id < k || id == k + 1 ==>
              id in s.requests && s.requests[id].phase.Accepted? && 0 <= s.requests[id].bucket < c.steps
  {
    hide Run, Bucket, TimeToLive, Ttl, LateStart, Back, AllRead;
    LateStartIsInLastBucket(c);
    var s1 := CountTakenBack(c, k);
    RunGoesOn(c, trace, Late(c, k), Decr(k));
    var trace1 := ReadsAll(c, trace + [Decr(k)], s1, k + 1);
    var s2 := ReadsOneLess(c, s1, k);
    RunGoesOn(c, trace1, s2, Decide(k + 1));
    trace', s := trace1 + [Decide(k + 1)], Apply(c, s2, Decide(k + 1));
  }

  /** The late state after the refused request has taken its count back. */
  lemma CountTakenBack(c: Config, k: nat) returns (s1: State)
    requires IsConfig(c) && !IsTimely(c)
    ensures Enabled(c, Late(c, k), Decr(k)) && s1 == Apply(c, Late(c, k), Decr(k))
    ensures s1.now == LateStart(c) + c.delay && s1.keys.Keys == {0, c.steps - 1} && s1.keys[0] == Counter(-1, None)
    ensures forall id: nat :: id < k ==> id in s1.requests && s1.requests[id] == AtZero(c, id, Accepted)
    ensures k + 1 in s1.requests && s1.requests[k + 1] == Request(c.steps - 1, LateStart(c), true, 1, 1, Counting)
  {
    hide Bucket, TimeToLive, Ttl, LateStart;
    LateStartIsInLastBucket(c);
    s1 := Apply(c, Late(c, k), Decr(k));
  }

  /** All the late request reads is the negative counter. */
  lemma ReadsOneLess(c: Config, s1: State, k: nat) returns (s2: State)
    requires IsConfig(c) && c.steps > 1 && s1.keys.Keys == {0, c.steps - 1} && s1.keys[0] == Counter(-1, None)
    requires k + 1 in s1.requests && s1.requests[k + 1].bucket == c.steps - 1
    requires s1.requests[k + 1].next == 1 && s1.requests[k + 1].count == 1
    ensures s2 == AllRead(c, s1, k + 1) && k + 1 in s2.requests && s2.requests[k + 1] == s1.requests[k + 1].(next := c.steps, count := 0)
    ensures forall id :: id in s1.requests && id != k + 1 ==> id in s2.requests && s2.requests[id] == s1.requests[id]
  {
    BackNothing(s1, c.steps - 1, 1, c.steps - 1);
    assert Back(s1, c.steps - 1, 1, c.steps) == Reading(s1, 0);
    s2 := AllRead(c, s1, k + 1);
  }

  function Below(k: nat): set<nat> {
    if k == 0 then {} else Below(k - 1) + {k - 1}
  }

  lemma {:induction false} BelowIs(k: nat)
    ensures |Below(k)| == k && forall id: nat :: id in Below(k) <==> id < k
  {
    if k > 0 {
      BelowIs(k - 1);
    }
  }

  /** With slower clients every limit is overshot: as many requests as allowed at time 0, one
      more that is refused and slow to take its count back, and one in the last bucket of the
      window that reads the first bucket only after it has expired. */
  lemma SlowReadOvershoots(c: Config) returns (trace: seq<Step>, s: State)
    requires IsConfig(c) && c.limit >= 0.0 && !IsTimely(c)
    ensures Run(c, trace, s) && |AcceptedIn(c, s, 0)| as real > c.limit
  {
    hide Run;
    var k: nat := c.limit.Floor;
    var trace0 := FillsUp(c, k);
    var trace1 := OneMoreAtZero(c, trace0, k);
    var trace2 := StartsLate(c, trace1, k);
    trace, s := LateIsAccepted(c, trace2, k);
    BelowIs(k);
    SubsetIsNoLarger(Below(k) + {k + 1}, AcceptedIn(c, s, 0));
  }
}
