/** acoustid/ratelimiter.py: requests of many clients for one key, as interleaved Redis
    commands. A request reads the clock and counts itself in, sets the expiry of its bucket,
    reads the buckets before it, and takes its count back if the sum is over the limit. */
module RateLimiter {
  import opened Sets
  import opened Wrappers

  /** `steps` buckets make up `interval` seconds; `limit` is `rate * interval`. The clients
      are no slower than `delay`: a request makes its reads within so many seconds. */
  datatype Config = Config(interval: int, steps: int, limit: real, delay: real)

  predicate IsConfig(c: Config) {
    c.interval > 0 && c.steps > 0 && c.delay >= 0.0
  }

  /** There is nothing to read, or the reads come within `interval // steps` seconds. */
  predicate IsTimely(c: Config)
    requires IsConfig(c)
  {
    c.steps == 1 || c.delay <= (c.interval / c.steps) as real
  }

  /** A Redis key; without an expiry until EXPIRE sets one. */
  datatype Counter = Counter(value: int, expires: Option<real>)

  /** `Rejecting` has seen too high a sum but has not taken its own count back yet. */
  datatype Phase = Counting | Accepted | Rejecting | Rejected

  /** `next` is how far back the request reads next. */
  datatype Request = Request(bucket: int, start: real, expirySet: bool, next: int, count: int, phase: Phase)

  /** The keys are those of one limited key, by bucket. Requests are numbered in the order
      in which they count themselves in. */
  datatype State = State(now: real, keys: map<int, Counter>, requests: map<nat, Request>, nextId: nat)

  datatype Step =
    | Tick(now: real)
    | Incr
    | Expire(id: nat)
    | Get(id: nat)
    | Decide(id: nat)
    | Decr(id: nat)

  const INITIAL := State(0.0, map[], map[], 0)

  /** `int(steps * time / interval)`; time is not negative. */
  function Bucket(c: Config, time: real): int
    requires IsConfig(c)
  {
    (c.steps as real * time / c.interval as real).Floor
  }

  /** `(steps + 1) * interval // steps` */
  function TimeToLive(c: Config): int
    requires IsConfig(c)
  {
    (c.steps + 1) * c.interval / c.steps
  }

  predicate IsLive(s: State, bucket: int) {
    bucket in s.keys && (s.keys[bucket].expires.None? || s.now < s.keys[bucket].expires.value)
  }

  /** What GET answers, with 0 for a key that does not exist. */
  function Reading(s: State, bucket: int): int {
    if IsLive(s, bucket) then s.keys[bucket].value else 0
  }

  /** INCR and DECR: a key that does not exist or has expired starts at 0 without expiry. */
  function Added(s: State, bucket: int, delta: int): map<int, Counter> {
    s.keys[bucket := Counter(Reading(s, bucket) + delta, if IsLive(s, bucket) then s.keys[bucket].expires else None)]
  }

  predicate Enabled(c: Config, s: State, step: Step) {
    match step
    case Tick(now) => s.now <= now
    case Incr => true
    case Expire(id) => id in s.requests && s.requests[id].phase.Counting? && !s.requests[id].expirySet
    case Get(id) => id in s.requests && s.requests[id].phase.Counting? && s.requests[id].expirySet && s.requests[id].next < c.steps
    case Decide(id) => id in s.requests && s.requests[id].phase.Counting? && s.requests[id].expirySet && s.requests[id].next == c.steps
    case Decr(id) => id in s.requests && s.requests[id].phase.Rejecting?
  }

  function Apply(c: Config, s: State, step: Step): State
    requires IsConfig(c) && Enabled(c, s, step)
  {
    match step
    case Tick(now) => s.(now := now)
    case Incr =>
      var b := Bucket(c, s.now);
      s.(keys := Added(s, b, 1),
         requests := s.requests[s.nextId := Request(b, s.now, false, 1, Reading(s, b) + 1, Counting)],
         nextId := s.nextId + 1)
    case Expire(id) =>
      var r := s.requests[id];
      s.(keys := if IsLive(s, r.bucket) then s.keys[r.bucket := s.keys[r.bucket].(expires := Some(s.now + TimeToLive(c) as real))]
                 else s.keys,
         requests := s.requests[id := r.(expirySet := true)])
    case Get(id) =>
      var r := s.requests[id];
      s.(requests := s.requests[id := r.(count := r.count + Reading(s, r.bucket - r.next), next := r.next + 1)])
    case Decide(id) =>
      var r := s.requests[id];
      s.(requests := s.requests[id := r.(phase := if r.count as real > c.limit then Rejecting else Accepted)])
    case Decr(id) =>
      var r := s.requests[id];
      s.(keys := Added(s, r.bucket, -1), requests := s.requests[id := r.(phase := Rejected)])
  }

  /** A request makes its reads in time. */
  predicate Prompt(c: Config, s: State, step: Step)
    requires IsConfig(c)
  {
    step.Get? && step.id in s.requests ==> s.now <= s.requests[step.id].start + c.delay
  }

  ghost predicate Run(c: Config, trace: seq<Step>, s: State)
    requires IsConfig(c)
  {
    if trace == [] then s == INITIAL
    else
      var last := trace[|trace| - 1];
      exists r :: Run(c, trace[..|trace| - 1], r) && Follows(c, r, last, s)
  }

  ghost predicate Follows(c: Config, s: State, step: Step, s': State)
    requires IsConfig(c)
  {
    Enabled(c, s, step) && Prompt(c, s, step) && s' == Apply(c, s, step)
  }

  // ----- arithmetic ------------------------------------------------------------------------

  lemma MulMono(x: real, y: real, k: real)
    requires x <= y && k >= 0.0
    ensures k * x <= k * y
  {
  }

  lemma MulMonoInt(x: int, y: int, k: int)
    requires x <= y && k >= 0
    ensures k * x <= k * y
  {
  }

  lemma Product(x: int, y: int)
    ensures (x * y) as real == x as real * y as real
  {
  }

  lemma MulStrict(x: real, y: real, k: real)
    requires x < y && k > 0.0
    ensures k * x < k * y
  {
  }

  lemma Quotient(x: real, k: real)
    requires k > 0.0
    ensures k * (x / k) == x
  {
  }

  lemma DivAdd(n: int, k: int, d: int)
    requires d > 0
    ensures (d * k + n) / d == k + n / d
  {
    var q := n / d;
    assert n == d * q + n % d;
    assert d * k + n == d * (k + q) + n % d;
    DivIs(d * k + n, d, k + q, n % d);
  }

  lemma DivIs(n: int, d: int, q: int, r: int)
    requires d > 0 && n == d * q + r && 0 <= r < d
    ensures n / d == q
  {
    var p := n / d;
    assert n == d * p + n % d;
    if p < q {
      MulFar(d, p, q);
    } else if p > q {
      MulFar(d, q, p);
    }
  }

  lemma MulFar(d: int, p: int, q: int)
    requires d > 0 && p < q
    ensures d * p + d <= d * q
  {
    MulMonoInt(p + 1, q, d);
    assert d * (p + 1) == d * p + d;
  }

  // ----- time -----------------------------------------------------------------------------

  /** Time in units of which a bucket has `interval`. */
  function Scaled(c: Config, time: real): real {
    c.steps as real * time
  }

  lemma BucketHoldsTime(c: Config, time: real)
    requires IsConfig(c)
    ensures (c.interval * Bucket(c, time)) as real <= Scaled(c, time) < (c.interval * (Bucket(c, time) + 1)) as real
  {
    hide Bucket, Scaled;
    BucketIs(c, time);
    Quotient(Scaled(c, time), c.interval as real);
    FloorTimes(Scaled(c, time) / c.interval as real, c.interval);
  }

  lemma BucketIs(c: Config, time: real)
    requires IsConfig(c)
    ensures Bucket(c, time) == (Scaled(c, time) / c.interval as real).Floor
  {
  }

  lemma FloorTimes(x: real, k: int)
    requires k > 0
    ensures (k * x.Floor) as real <= k as real * x < (k * (x.Floor + 1)) as real
  {
    TimesAtLeast(x, x.Floor, k);
    TimesBelow(x, x.Floor + 1, k);
  }

  lemma TimesAtLeast(x: real, b: int, k: int)
    requires k > 0 && b as real <= x
    ensures (k * b) as real <= k as real * x
  {
    MulMono(b as real, x, k as real);
    Product(k, b);
  }

  lemma TimesBelow(x: real, b: int, k: int)
    requires k > 0 && x < b as real
    ensures k as real * x < (k * b) as real
  {
    MulStrict(x, b as real, k as real);
    Product(k, b);
  }

  /** Until when the key of a bucket is sure to live, in scaled time. */
  function Horizon(c: Config, bucket: int): int
    requires IsConfig(c)
  {
    c.interval * (bucket + c.steps) + c.steps * (c.interval / c.steps)
  }

  /** Before its horizon a bucket does not expire. */
  predicate Within(c: Config, now: real, bucket: int)
    requires IsConfig(c)
  {
    Scaled(c, now) < Horizon(c, bucket) as real
  }

  /** A key with this expiry lives past the horizon. */
  predicate Outlives(c: Config, bucket: int, expires: real)
    requires IsConfig(c)
  {
    Horizon(c, bucket) as real <= Scaled(c, expires)
  }

  lemma OutlivesWithin(c: Config, bucket: int, expires: real, now: real)
    requires IsConfig(c) && Outlives(c, bucket, expires) && Within(c, now, bucket)
    ensures now < expires
  {
    hide Horizon, Scaled;
    if expires <= now {
      ScaledRises(c, expires, now);
    }
  }

  lemma WithinEarlier(c: Config, bucket: int, earlier: real, now: real)
    requires IsConfig(c) && Within(c, now, bucket) && earlier <= now
    ensures Within(c, earlier, bucket)
  {
    hide Horizon, Scaled;
    ScaledRises(c, earlier, now);
  }

  lemma TimeToLiveIs(c: Config)
    requires IsConfig(c)
    ensures TimeToLive(c) == c.interval + c.interval / c.steps > 0
  {
    DivAdd(c.interval, c.interval, c.steps);
    assert (c.steps + 1) * c.interval == c.steps * c.interval + c.interval;
  }

  /** An expiry set any time after the bucket began outlives the horizon. */
  lemma ExpiryOutlives(c: Config, start: real, now: real)
    requires IsConfig(c) && start <= now
    ensures Outlives(c, Bucket(c, start), now + TimeToLive(c) as real)
  {
    hide Bucket, TimeToLive, Scaled, Horizon;
    var b := Bucket(c, start);
    BucketHoldsTime(c, start);
    ScaledRises(c, start, now);
    TimeToLiveIs(c);
    ScaledSum(c, now, TimeToLive(c));
    HorizonIs(c, b);
  }

  lemma ScaledSum(c: Config, time: real, k: int)
    ensures Scaled(c, time + k as real) == Scaled(c, time) + (c.steps * k) as real
  {
    Product(c.steps, k);
    assert c.steps as real * (time + k as real) == c.steps as real * time + c.steps as real * k as real;
  }

  lemma HorizonIs(c: Config, bucket: int)
    requires IsConfig(c)
    ensures Horizon(c, bucket) == c.interval * bucket + c.steps * (c.interval + c.interval / c.steps)
  {
    var q := c.interval / c.steps;
    assert c.interval * (bucket + c.steps) == c.interval * bucket + c.interval * c.steps;
    assert c.steps * (c.interval + q) == c.steps * c.interval + c.steps * q;
  }

  /** A request that reads in time reads before the horizon of every bucket it looks at. */
  lemma PromptIsWithin(c: Config, s: State, id: nat)
    requires IsConfig(c) && IsTimely(c) && id in s.requests && Prompt(c, s, Get(id))
    requires s.requests[id].bucket == Bucket(c, s.requests[id].start) && 1 <= s.requests[id].next < c.steps
    ensures Within(c, s.now, s.requests[id].bucket - s.requests[id].next)
  {
    hide Bucket, Scaled;
    var r := s.requests[id];
    var q := c.interval / c.steps;
    BucketHoldsTime(c, r.start);
    ScaledRises(c, s.now, r.start + q as real);
    ScaledSum(c, r.start, q);
    MulMonoInt(r.bucket + 1, r.bucket - r.next + c.steps, c.interval);
  }

  lemma NewIsWithin(c: Config, now: real)
    requires IsConfig(c)
    ensures Within(c, now, Bucket(c, now))
  {
    hide Bucket, Scaled;
    var b := Bucket(c, now);
    BucketHoldsTime(c, now);
    MulMonoInt(b + 1, b + c.steps, c.interval);
    MulMonoInt(0, c.interval / c.steps, c.steps);
  }

  lemma BucketsRise(c: Config, t: real, u: real)
    requires IsConfig(c) && t <= u
    ensures Bucket(c, t) <= Bucket(c, u)
  {
    hide Bucket, Scaled;
    BucketHoldsTime(c, t);
    BucketHoldsTime(c, u);
    ScaledRises(c, t, u);
    Cancels(Bucket(c, t), Bucket(c, u) + 1, c.interval);
  }

  lemma ScaledRises(c: Config, t: real, u: real)
    requires IsConfig(c) && t <= u
    ensures Scaled(c, t) <= Scaled(c, u)
  {
    MulMono(t, u, c.steps as real);
  }

  lemma Cancels(p: int, q: int, k: int)
    requires k > 0 && k * p < k * q
    ensures p < q
  {
    if q <= p {
      MulMonoInt(q, p, k);
    }
  }

  // ----- the invariant -------------------------------------------------------------------

  /** The requests that still count in a bucket. */
  ghost function Standing(s: State, bucket: int): set<nat> {
    set id | id in s.requests && s.requests[id].bucket == bucket && !s.requests[id].phase.Rejected?
  }

  predicate MayPass(r: Request) {
    r.phase.Counting? || r.phase.Accepted?
  }

  /** The requests before this one, in some buckets, that have not been refused. */
  ghost function Before(s: State, id: nat, above: int, last: int): set<nat> {
    set q | q < id && q in s.requests && MayPass(s.requests[q]) && above < s.requests[q].bucket <= last
  }

  /** Those in the buckets it has read. */
  ghost function Seen(s: State, id: nat): set<nat>
    requires id in s.requests
  {
    Before(s, id, s.requests[id].bucket - s.requests[id].next, s.requests[id].bucket)
  }

  /** The requests stay where they are, and none may pass that could not. */
  ghost predicate NoneRevived(s: State, s': State) {
    && (forall q :: q in s.requests <==> q in s'.requests)
    && (forall q :: q in s.requests && q in s'.requests ==>
          s'.requests[q].bucket == s.requests[q].bucket && (MayPass(s'.requests[q]) ==> MayPass(s.requests[q])))
  }

  lemma BeforeShrinks(s: State, s': State, id: nat, above: int, last: int)
    requires NoneRevived(s, s')
    ensures |Before(s', id, above, last)| <= |Before(s, id, above, last)|
  {
    SubsetIsNoLarger(Before(s', id, above, last), Before(s, id, above, last));
  }

  lemma BeforeSplits(s: State, id: nat, above: int, last: int)
    requires above < last
    ensures |Before(s, id, above - 1, last)| <= |Before(s, id, above, last)| + |Standing(s, above)|
  {
    var more := Before(s, id, above - 1, above);
    assert Before(s, id, above - 1, last) == Before(s, id, above, last) + more;
    SubsetIsNoLarger(more, Standing(s, above));
  }

  ghost predicate RequestsInv(c: Config, s: State)
    requires IsConfig(c)
  {
    && (forall id :: id in s.requests ==>
          && id < s.nextId
          && s.requests[id].bucket == Bucket(c, s.requests[id].start) && s.requests[id].start <= s.now
          && 1 <= s.requests[id].next <= c.steps)
    && (forall p, q :: p in s.requests && q in s.requests && p < q ==> s.requests[p].start <= s.requests[q].start)
  }

  /** A bucket that is within its horizon holds the number of requests that stand in it, and
      is not about to expire. */
  ghost predicate KeysInv(c: Config, s: State)
    requires IsConfig(c)
  {
    && (forall b :: Within(c, s.now, b) ==> Reading(s, b) == |Standing(s, b)|)
    && (forall b :: b in s.keys && s.keys[b].expires.Some? ==>
          Outlives(c, b, s.keys[b].expires.value))
  }

  /** No request has counted less than what came before it and may still pass. */
  ghost predicate CountsInv(c: Config, s: State) {
    forall id :: id in s.requests && MayPass(s.requests[id]) ==>
      && s.requests[id].count >= 1 + |Seen(s, id)|
      && (s.requests[id].phase.Accepted? ==> s.requests[id].count as real <= c.limit && s.requests[id].next == c.steps)
  }

  ghost predicate Inv(c: Config, s: State)
    requires IsConfig(c)
  {
    RequestsInv(c, s) && KeysInv(c, s) && CountsInv(c, s)
  }

  lemma LiveWithin(c: Config, s: State, b: int)
    requires IsConfig(c) && KeysInv(c, s) && Within(c, s.now, b) && b in s.keys
    ensures IsLive(s, b)
  {
    hide Horizon, Bucket, Within, Outlives, Scaled, TimeToLive;
    if s.keys[b].expires.Some? {
      OutlivesWithin(c, b, s.keys[b].expires.value, s.now);
    }
  }

  lemma InitialInv(c: Config)
    requires IsConfig(c)
    ensures Inv(c, INITIAL)
  {
    hide Horizon, Bucket, Within, Outlives, Scaled, TimeToLive;
    assert forall b :: Standing(INITIAL, b) == {};
  }

  lemma TickKeepsInv(c: Config, s: State, now: real)
    requires IsConfig(c) && Inv(c, s) && s.now <= now
    ensures Inv(c, s.(now := now))
  {
    hide Horizon, Bucket, Within, Outlives, Scaled, TimeToLive;
    var s' := s.(now := now);
    forall b | Within(c, now, b)
      ensures Reading(s', b) == |Standing(s', b)|
    {
      WithinEarlier(c, b, s.now, now);
      assert Standing(s', b) == Standing(s, b);
      if b in s.keys {
        LiveWithin(c, s, b);
        if s.keys[b].expires.Some? {
          OutlivesWithin(c, b, s.keys[b].expires.value, now);
        }
      }
    }
    forall id | id in s.requests
      ensures Seen(s', id) == Seen(s, id)
    {
    }
  }

  lemma ExpireKeepsInv(c: Config, s: State, id: nat)
    requires IsConfig(c) && Inv(c, s) && Enabled(c, s, Expire(id))
    ensures Inv(c, Apply(c, s, Expire(id)))
  {
    hide Horizon, Bucket, Within, Outlives, Scaled, TimeToLive, KeysInv, Before;
    var s' := Apply(c, s, Expire(id));
    ExpireKeepsKeys(c, s, id);
    forall q | q in s.requests
      ensures |Seen(s', q)| <= |Seen(s, q)|
    {
      BeforeShrinks(s, s', q, s.requests[q].bucket - s.requests[q].next, s.requests[q].bucket);
    }
  }

  lemma ExpireKeepsKeys(c: Config, s: State, id: nat)
    requires IsConfig(c) && RequestsInv(c, s) && KeysInv(c, s) && Enabled(c, s, Expire(id))
    ensures KeysInv(c, Apply(c, s, Expire(id)))
  {
    hide Horizon, Bucket, Within, Outlives, Scaled, TimeToLive;
    var s' := Apply(c, s, Expire(id));
    ExpiryOutlives(c, s.requests[id].start, s.now);
    TimeToLiveIs(c);
    forall b
      ensures Standing(s', b) == Standing(s, b) && Reading(s', b) == Reading(s, b)
    {
    }
  }

  lemma IncrKeepsInv(c: Config, s: State)
    requires IsConfig(c) && Inv(c, s)
    ensures Inv(c, Apply(c, s, Incr))
  {
    hide Horizon, Bucket, Within, Outlives, Scaled, TimeToLive, Inv, CountsInv, RequestsInv, KeysInv;
    NewIsWithin(c, s.now);
    InvIs(c, s);
    IncrKeepsKeys(c, s);
    IncrKeepsCounts(c, s);
    IncrKeepsRequests(c, s);
    InvIs(c, Apply(c, s, Incr));
  }

  lemma InvIs(c: Config, s: State)
    requires IsConfig(c)
    ensures Inv(c, s) <==> RequestsInv(c, s) && KeysInv(c, s) && CountsInv(c, s)
  {
  }

  lemma IncrKeepsKeys(c: Config, s: State)
    requires IsConfig(c) && RequestsInv(c, s) && KeysInv(c, s)
    ensures KeysInv(c, Apply(c, s, Incr))
  {
    hide Horizon, Bucket, Within, Outlives, Scaled, TimeToLive, Reading, Standing;
    var s' := Apply(c, s, Incr);
    forall b | Within(c, s.now, b)
      ensures Reading(s', b) == |Standing(s', b)|
    {
      OneMoreStands(s, s', s.nextId, s'.requests[s.nextId], b);
      ReadingAfterIncr(c, s, b);
    }
  }

  lemma OneMoreStands(s: State, s': State, id: nat, r: Request, b: int)
    requires id !in s.requests && s'.requests == s.requests[id := r] && !r.phase.Rejected?
    ensures |Standing(s', b)| == |Standing(s, b)| + if b == r.bucket then 1 else 0
  {
    assert Standing(s', b) == Standing(s, b) + if b == r.bucket then {id} else {};
    assert id !in Standing(s, b);
  }

  lemma ReadingAfterIncr(c: Config, s: State, b: int)
    requires IsConfig(c)
    ensures Reading(Apply(c, s, Incr), b) == Reading(s, b) + if b == Bucket(c, s.now) then 1 else 0
  {
    hide Bucket, TimeToLive;
  }

  lemma IncrKeepsRequests(c: Config, s: State)
    requires IsConfig(c) && RequestsInv(c, s)
    ensures RequestsInv(c, Apply(c, s, Incr))
  {
    hide Bucket;
  }

  lemma IncrKeepsCounts(c: Config, s: State)
    requires IsConfig(c) && Inv(c, s) && Within(c, s.now, Bucket(c, s.now))
    ensures CountsInv(c, Apply(c, s, Incr))
  {
    hide Horizon, Bucket, Within, Outlives, Scaled, TimeToLive;
    var s' := Apply(c, s, Incr);
    var added, b0 := s.nextId, Bucket(c, s.now);
    forall id | id in s.requests
      ensures Seen(s', id) == Seen(s, id)
    {
    }
    assert Seen(s', added) <= Standing(s, b0);
    SubsetIsNoLarger(Seen(s', added), Standing(s, b0));
  }

  /** A step of one request that leaves the keys alone and does not take its count back. */
  lemma OtherwiseSame(c: Config, s: State, s': State, id: nat)
    requires IsConfig(c) && RequestsInv(c, s) && KeysInv(c, s) && id in s.requests
    requires id in s'.requests && s' == s.(requests := s.requests[id := s'.requests[id]])
    requires var r, r' := s.requests[id], s'.requests[id];
             r'.bucket == r.bucket && r'.start == r.start && 1 <= r'.next <= c.steps
             && !r.phase.Rejected? && !r'.phase.Rejected?
    ensures RequestsInv(c, s') && KeysInv(c, s')
  {
    hide Horizon, Bucket, Within, Outlives, Scaled, TimeToLive;
    forall k
      ensures Standing(s', k) == Standing(s, k) && Reading(s', k) == Reading(s, k)
    {
    }
  }

  lemma GetKeepsInv(c: Config, s: State, id: nat)
    requires IsConfig(c) && IsTimely(c) && Inv(c, s) && Enabled(c, s, Get(id)) && Prompt(c, s, Get(id))
    ensures Inv(c, Apply(c, s, Get(id)))
  {
    hide Horizon, Bucket, Within, Outlives, Scaled, TimeToLive, Prompt, KeysInv;
    PromptIsWithin(c, s, id);
    OtherwiseSame(c, s, Apply(c, s, Get(id)), id);
    GetKeepsCounts(c, s, id);
  }

  lemma GetKeepsCounts(c: Config, s: State, id: nat)
    requires IsConfig(c) && CountsInv(c, s) && KeysInv(c, s) && RequestsInv(c, s) && Enabled(c, s, Get(id))
    requires Within(c, s.now, s.requests[id].bucket - s.requests[id].next)
    ensures CountsInv(c, Apply(c, s, Get(id)))
  {
    hide Horizon, Bucket, Within, Outlives, Scaled, TimeToLive, Before, Standing, NoneRevived;
    var s', r := Apply(c, s, Get(id)), s.requests[id];
    GetRevivesNone(c, s, id);
    BeforeSplits(s, id, r.bucket - r.next, r.bucket);
    forall q | q in s'.requests
      ensures |Seen(s', q)| <= |Seen(s, q)| + if q == id then |Standing(s, r.bucket - r.next)| else 0
    {
      BeforeShrinks(s, s', q, s'.requests[q].bucket - s'.requests[q].next, s'.requests[q].bucket);
    }
  }

  lemma GetRevivesNone(c: Config, s: State, id: nat)
    requires IsConfig(c) && Enabled(c, s, Get(id))
    ensures NoneRevived(s, Apply(c, s, Get(id)))
  {
  }

  lemma DecideKeepsInv(c: Config, s: State, id: nat)
    requires IsConfig(c) && Inv(c, s) && Enabled(c, s, Decide(id))
    ensures Inv(c, Apply(c, s, Decide(id)))
  {
    hide Horizon, Bucket, Within, Outlives, Scaled, TimeToLive, KeysInv, Before;
    var s' := Apply(c, s, Decide(id));
    OtherwiseSame(c, s, s', id);
    forall q | q in s.requests
      ensures |Seen(s', q)| <= |Seen(s, q)|
    {
      BeforeShrinks(s, s', q, s.requests[q].bucket - s.requests[q].next, s.requests[q].bucket);
    }
  }

  lemma DecrKeepsInv(c: Config, s: State, id: nat)
    requires IsConfig(c) && Inv(c, s) && Enabled(c, s, Decr(id))
    ensures Inv(c, Apply(c, s, Decr(id)))
  {
    hide Horizon, Bucket, Within, Outlives, Scaled, TimeToLive, KeysInv, Before, Standing;
    var s' := Apply(c, s, Decr(id));
    DecrKeepsKeys(c, s, id);
    forall q | q in s.requests
      ensures |Seen(s', q)| <= |Seen(s, q)|
    {
      BeforeShrinks(s, s', q, s.requests[q].bucket - s.requests[q].next, s.requests[q].bucket);
    }
  }

  lemma DecrKeepsKeys(c: Config, s: State, id: nat)
    requires IsConfig(c) && KeysInv(c, s) && Enabled(c, s, Decr(id))
    ensures KeysInv(c, Apply(c, s, Decr(id)))
  {
    hide Horizon, Bucket, Within, Outlives, Scaled, TimeToLive;
    var s' := Apply(c, s, Decr(id));
    var b0 := s.requests[id].bucket;
    forall b
      ensures Standing(s', b) == if b == b0 then Standing(s, b) - {id} else Standing(s, b)
      ensures Reading(s', b) == Reading(s, b) - if b == b0 then 1 else 0
    {
    }
    assert id in Standing(s, b0);
  }

  lemma StepKeepsInv(c: Config, s: State, step: Step)
    requires IsConfig(c) && IsTimely(c) && Inv(c, s) && Enabled(c, s, step) && Prompt(c, s, step)
    ensures Inv(c, Apply(c, s, step))
  {
    hide Inv;
    match step {
      case Tick(now) => TickKeepsInv(c, s, now);
      case Incr => IncrKeepsInv(c, s);
      case Expire(id) => ExpireKeepsInv(c, s, id);
      case Get(id) => GetKeepsInv(c, s, id);
      case Decide(id) => DecideKeepsInv(c, s, id);
      case Decr(id) => DecrKeepsInv(c, s, id);
    }
  }

  lemma {:induction false} RunKeepsInv(c: Config, trace: seq<Step>, s: State)
    requires IsConfig(c) && IsTimely(c) && Run(c, trace, s)
    ensures Inv(c, s)
    decreases |trace|
  {
    hide Inv;
    if trace == [] {
      InitialInv(c);
    } else {
      var last := trace[|trace| - 1];
      var r :| Run(c, trace[..|trace| - 1], r) && Follows(c, r, last, s);
      RunKeepsInv(c, trace[..|trace| - 1], r);
      StepKeepsInv(c, r, last);
    }
  }

  // ----- what it is for -------------------------------------------------------------------

  /** The requests accepted in `steps` consecutive buckets. */
  ghost function AcceptedIn(c: Config, s: State, first: int): set<nat> {
    set id | id in s.requests && s.requests[id].phase.Accepted? && first <= s.requests[id].bucket < first + c.steps
  }

  /** However the requests interleave, no `steps` consecutive buckets ever hold more accepted
      requests than `rate * interval`. */
  lemma LimitHolds(c: Config, trace: seq<Step>, s: State, first: int)
    requires IsConfig(c) && IsTimely(c) && Run(c, trace, s) && c.limit >= 0.0
    ensures |AcceptedIn(c, s, first)| as real <= c.limit
  {
    hide Run, KeysInv, Horizon, Bucket, Within, Outlives, Scaled, TimeToLive;
    RunKeepsInv(c, trace, s);
    var accepted := AcceptedIn(c, s, first);
    if accepted != {} {
      var last := Latest(accepted);
      EarlierAreSeen(c, s, first, last);
      SubsetIsNoLarger(accepted - {last}, Seen(s, last));
    }
  }

  lemma EarlierAreSeen(c: Config, s: State, first: int, last: nat)
    requires IsConfig(c) && RequestsInv(c, s) && last in s.requests && s.requests[last].next == c.steps
    requires last in AcceptedIn(c, s, first) && forall q :: q in AcceptedIn(c, s, first) ==> q <= last
    ensures AcceptedIn(c, s, first) - {last} <= Seen(s, last)
  {
    hide Horizon, Bucket, Within, Outlives, Scaled, TimeToLive, RequestsInv;
    forall q | q in AcceptedIn(c, s, first)
      ensures s.requests[q].bucket <= s.requests[last].bucket
    {
      LaterIsHigher(c, s, q, last);
    }
  }

  lemma LaterIsHigher(c: Config, s: State, p: nat, q: nat)
    requires IsConfig(c) && RequestsInv(c, s) && p in s.requests && q in s.requests && p <= q
    ensures s.requests[p].bucket <= s.requests[q].bucket
  {
    hide Horizon, Bucket, Within, Outlives, Scaled, TimeToLive;
    BucketsRise(c, s.requests[p].start, s.requests[q].start);
  }

  lemma {:induction false} Latest(ids: set<nat>) returns (last: nat)
    requires ids != {}
    ensures last in ids && forall q :: q in ids ==> q <= last
  {
    var x :| x in ids;
    if ids - {x} == {} {
      last := x;
      assert ids == {x};
    } else {
      var y := Latest(ids - {x});
      last := if x < y then y else x;
      assert forall q :: q in ids ==> q == x || q in ids - {x};
    }
  }

  /** No bucket that a prompt request has yet to read has expired. */
  lemma NothingExpiresTooSoon(c: Config, trace: seq<Step>, s: State, id: nat)
    requires IsConfig(c) && IsTimely(c) && Run(c, trace, s) && Enabled(c, s, Get(id)) && Prompt(c, s, Get(id))
    ensures
      var b := s.requests[id].bucket - s.requests[id].next;
      (b in s.keys ==> IsLive(s, b)) && Reading(s, b) == |Standing(s, b)|
  {
    hide Run, Horizon, Bucket, Within, Outlives, Scaled, TimeToLive;
    RunKeepsInv(c, trace, s);
    PromptIsWithin(c, s, id);
    var b := s.requests[id].bucket - s.requests[id].next;
    if b in s.keys {
      LiveWithin(c, s, b);
    }
  }

  // ----- a request on its own -----------------------------------------------------------------

  /** The requests that stand in a bucket and those before it, so many buckets in all. */
  ghost function StandingBack(s: State, bucket: int, buckets: nat): nat {
    if buckets == 0 then 0 else StandingBack(s, bucket, buckets - 1) + |Standing(s, bucket - (buckets - 1))|
  }

  method Take(c: Config, s: State, ghost trace: seq<Step>, step: Step) returns (s': State, ghost trace': seq<Step>)
    requires IsConfig(c) && Run(c, trace, s) && Enabled(c, s, step) && Prompt(c, s, step)
    ensures s' == Apply(c, s, step) && trace' == trace + [step] && Run(c, trace', s')
  {
    hide Apply, Enabled, Prompt, Run;
    s', trace' := Apply(c, s, step), trace + [step];
    RunGoesOn(c, trace, s, step);
  }

  lemma RunGoesOn(c: Config, trace: seq<Step>, s: State, step: Step)
    requires IsConfig(c) && Run(c, trace, s) && Enabled(c, s, step) && Prompt(c, s, step)
    ensures Run(c, trace + [step], Apply(c, s, step))
  {
    hide Apply, Enabled, Prompt;
    var trace' := trace + [step];
    assert trace'[..|trace'| - 1] == trace;
    assert Run(c, trace'[..|trace'| - 1], s) && Follows(c, s, trace'[|trace'| - 1], Apply(c, s, step));
  }

  /** The state in which a request has counted itself in at `s` and set the expiry. */
  ghost predicate Underway(c: Config, s: State, s': State, next: nat)
    requires IsConfig(c)
  {
    && s'.now == s.now && s.nextId in s'.requests
    && s'.requests[s.nextId] == Request(Bucket(c, s.now), s.now, true, next, 1 + StandingBack(s, Bucket(c, s.now), next), Counting)
    && (forall b :: Within(c, s.now, b) ==> Reading(s', b) == Reading(s, b) + if b == Bucket(c, s.now) then 1 else 0)
  }

  lemma StartsUnderway(c: Config, s: State)
    requires IsConfig(c) && Inv(c, s)
    ensures
      var s1 := Apply(c, s, Incr);
      Enabled(c, s1, Expire(s.nextId)) && Underway(c, s, Apply(c, s1, Expire(s.nextId)), 1)
  {
    hide Horizon, Bucket, Within, Outlives, Scaled, TimeToLive;
    var s1, b0 := Apply(c, s, Incr), Bucket(c, s.now);
    var s2 := Apply(c, s1, Expire(s.nextId));
    NewIsWithin(c, s.now);
    TimeToLiveIs(c);
    assert StandingBack(s, b0, 1) == StandingBack(s, b0, 0) + |Standing(s, b0 - 0)|;
    forall b
      ensures Reading(s2, b) == Reading(s1, b) == Reading(s, b) + if b == b0 then 1 else 0
    {
    }
  }

  lemma ReadsOn(c: Config, s: State, s': State, next: int)
    requires IsConfig(c) && IsTimely(c) && Inv(c, s) && 1 <= next < c.steps && Underway(c, s, s', next)
    ensures Enabled(c, s', Get(s.nextId)) && Prompt(c, s', Get(s.nextId))
    ensures Underway(c, s, Apply(c, s', Get(s.nextId)), next + 1)
  {
    hide Horizon, Bucket, Within, Outlives, Scaled, TimeToLive;
    PromptIsWithin(c, s', s.nextId);
    var b := Bucket(c, s.now) - next;
    assert Reading(s', b) == |Standing(s, b)|;
  }

  /** `limit`, with nobody in between: it is limited exactly if, counting itself, more
      requests stand in the last `steps` buckets than `rate * interval`; and a limited
      request leaves no trace in the counters. */
  method Limit(c: Config, s: State, ghost trace: seq<Step>) returns (limited: bool, s': State, ghost trace': seq<Step>)
    requires IsConfig(c) && IsTimely(c) && Run(c, trace, s)
    ensures Run(c, trace', s') && s.nextId in s'.requests
    ensures s'.requests[s.nextId].phase == if limited then Rejected else Accepted
    ensures limited <==> (1 + StandingBack(s, Bucket(c, s.now), c.steps)) as real > c.limit
    ensures forall b :: Within(c, s.now, b) ==>
              Reading(s', b) == Reading(s, b) + if b == Bucket(c, s.now) && !limited then 1 else 0
  {
    hide Horizon, Bucket, Within, Outlives, Scaled, TimeToLive, Run, Inv, Standing, StandingBack, Reading, Added, IsLive;
    RunKeepsInv(c, trace, s);
    StartsUnderway(c, s);
    var id := s.nextId;
    s', trace' := Take(c, s, trace, Incr);
    s', trace' := Take(c, s', trace', Expire(id));
    var i := 1;
    while i < c.steps
      invariant 1 <= i <= c.steps && Run(c, trace', s') && Underway(c, s, s', i)
      decreases c.steps - i
    {
      ReadsOn(c, s, s', i);
      s', trace' := Take(c, s', trace', Get(id));
      i := i + 1;
    }
    limited := s'.requests[id].count as real > c.limit;
    Concludes(c, s, s');
    s', trace' := Take(c, s', trace', Decide(id));
    if limited {
      s', trace' := Take(c, s', trace', Decr(id));
    }
  }

  lemma Concludes(c: Config, s: State, s': State)
    requires IsConfig(c) && Underway(c, s, s', c.steps)
    ensures Enabled(c, s', Decide(s.nextId))
    ensures
      var s2 := Apply(c, s', Decide(s.nextId));
      if s2.requests[s.nextId].phase.Accepted? then
        forall b :: Reading(s2, b) == Reading(s', b)
      else
        && Enabled(c, s2, Decr(s.nextId))
        && forall b :: Reading(Apply(c, s2, Decr(s.nextId)), b) == Reading(s', b) - if b == Bucket(c, s.now) then 1 else 0
  {
    hide Horizon, Bucket, Within, Outlives, Scaled, TimeToLive, Standing, StandingBack;
  }
}
