/** The token-bucket limiter: its run-time bound, exactly what it grants, and an eviction sweep
    nobody can observe. Times are seconds, tokens are reals. A request takes its stamp before the
    lock, so stamps may reach the buckets out of order. */
module RateLimit {
  import opened Options

  datatype Config = Config(burst: real, refillPerSec: real, evictTTL: real)
  datatype Bucket = Bucket(tokens: real, lastFill: real)

  /** `lastSweep` is None for the zero time, which is longer ago than any TTL. */
  datatype State = State(buckets: map<string, Bucket>, lastSweep: Option<real>)

  /** `wait` is the hint given with a denial, None when no wait is long enough. */
  datatype Answer = Answer(ok: bool, wait: Option<real>)

  /** Tokens refilled per second: burst over the window. */
  function Rate(burst: nat, window: real): real
    requires window > 0.0
  {
    burst as real / window
  }

  /** newRateLimiter(burst, window). */
  function New(burst: nat, window: real): Config
    requires window > 0.0
  {
    Config(burst as real, Rate(burst, window), 10.0 * window)
  }

  /** What flows in from `since` to `now`. */
  function Refill(c: Config, since: real, now: real): real {
    (now - since) * c.refillPerSec
  }

  predicate ConfigOk(c: Config) {
    c.burst >= 0.0 && c.refillPerSec >= 0.0
  }

  /** A bucket untouched for the TTL, less twice the slack, is full again. */
  predicate Tolerates(c: Config, slack: real) {
    slack >= 0.0 && Refill(c, 0.0, c.evictTTL - slack - slack) >= c.burst
  }

  function Min(a: real, b: real): real {
    if a < b then a else b
  }

  /** The level of a bucket at `now`; a missing bucket is full. */
  function Level(c: Config, b: Option<Bucket>, now: real): real {
    if b.None? then c.burst
    else Min(c.burst, b.value.tokens + Refill(c, b.value.lastFill, now))
  }

  /** Until one token is there, and a second more. */
  function Wait(c: Config, level: real): Option<real> {
    if c.refillPerSec > 0.0 then Some((1.0 - level) / c.refillPerSec + 1.0) else None
  }

  function Spend(c: Config, level: real, now: real): (Bucket, Answer) {
    if level >= 1.0 then (Bucket(level - 1.0, now), Answer(true, Some(0.0)))
    else (Bucket(level, now), Answer(false, Wait(c, level)))
  }

  function Sweep(c: Config, s: State, now: real): State {
    if s.lastSweep.Some? && now - s.lastSweep.value < c.evictTTL then s
    else
      State(map k | k in s.buckets && now - s.buckets[k].lastFill <= c.evictTTL :: s.buckets[k], Some(now))
  }

  function Lookup(s: State, key: string): Option<Bucket> {
    if key in s.buckets then Some(s.buckets[key]) else None
  }

  function AllowAt(c: Config, s: State, key: string, now: real): (State, Answer) {
    var t := Sweep(c, s, now);
    var (b, a) := Spend(c, Level(c, Lookup(t, key), now), now);
    (t.(buckets := t.buckets[key := b]), a)
  }

  class RateLimiter {
    var buckets: map<string, Bucket>
    var lastSweep: Option<real>
    const config: Config

    ghost function Abs(): State
      reads this
    {
      State(buckets, lastSweep)
    }

    constructor (burst: nat, window: real)
      requires window > 0.0
      ensures config == New(burst, window) && Abs() == State(map[], None)
    {
      config := New(burst, window);
      buckets, lastSweep := map[], None;
    }

    /** sweepLocked: drops buckets untouched for longer than the TTL, at most once per TTL. */
    method SweepLocked(now: real)
      modifies this
      ensures Abs() == Sweep(config, old(Abs()), now)
    {
      if lastSweep.Some? && now - lastSweep.value < config.evictTTL {
        return;
      }
      lastSweep := Some(now);
      ghost var before := buckets;
      var keys := buckets.Keys;
      while keys != {}
        invariant keys <= before.Keys && lastSweep == Some(now)
        invariant forall k ::
          k in buckets <==> (k in before && (k in keys || now - before[k].lastFill <= config.evictTTL))
        invariant forall k | k in buckets :: buckets[k] == before[k]
      {
        var k :| k in keys;
        if now - buckets[k].lastFill > config.evictTTL {
          buckets := buckets - {k};
        }
        keys := keys - {k};
      }
    }

    method Allow(key: string, now: real) returns (a: Answer)
      modifies this
      ensures (Abs(), a) == AllowAt(config, old(Abs()), key, now)
    {
      SweepLocked(now);
      var tokens := config.burst;
      if key in buckets {
        var elapsed := now - buckets[key].lastFill;
        assert elapsed * config.refillPerSec == Refill(config, buckets[key].lastFill, now);
        tokens := Min(config.burst, buckets[key].tokens + elapsed * config.refillPerSec);
      }
      if tokens >= 1.0 {
        buckets := buckets[key := Bucket(tokens - 1.0, now)];
        return Answer(true, Some(0.0));
      }
      buckets := buckets[key := Bucket(tokens, now)];
      return Answer(false, Wait(config, tokens));
    }
  }

  // ---- refill ----

  lemma MulNonNegative(x: real, r: real)
    requires x >= 0.0 && r >= 0.0
    ensures x * r >= 0.0
  {
  }

  lemma MulSum(x: real, y: real, r: real)
    ensures (x + y) * r == x * r + y * r
  {
  }

  lemma MulAssoc(k: real, x: real, r: real)
    ensures (k * x) * r == k * (x * r)
  {
  }

  lemma MulZero(x: real, r: real)
    requires x == 0.0
    ensures x * r == 0.0
  {
  }

  lemma Spread(burst: real, window: real)
    requires window > 0.0 && burst >= 0.0
    ensures burst / window >= 0.0 && window * (burst / window) == burst
  {
    var r := burst / window;
    assert r * window == burst;
  }

  lemma RefillRises(c: Config, since: real, now: real)
    requires ConfigOk(c) && since <= now
    ensures Refill(c, since, now) >= 0.0
  {
    MulNonNegative(now - since, c.refillPerSec);
  }

  /** Refill adds up from its parts, forwards or backwards. */
  lemma RefillAdds(c: Config, x: real, y: real, z: real)
    ensures Refill(c, x, z) == Refill(c, x, y) + Refill(c, y, z)
  {
    MulSum(y - x, z - y, c.refillPerSec);
    assert (y - x) + (z - y) == z - x;
  }

  lemma NoRefill(c: Config, u: real)
    ensures Refill(c, u, u) == 0.0
  {
    MulZero(u - u, c.refillPerSec);
  }

  /** Longer is more. */
  lemma RefillLonger(c: Config, since: real, now: real, time: real)
    requires ConfigOk(c) && now - since >= time
    ensures Refill(c, since, now) >= Refill(c, 0.0, time)
  {
    MulNonNegative(now - since - time, c.refillPerSec);
    MulSum(time, now - since - time, c.refillPerSec);
    assert time + (now - since - time) == now - since && time - 0.0 == time;
  }

  lemma LevelRises(c: Config, b: Option<Bucket>, now: real, later: real)
    requires ConfigOk(c) && now <= later
    ensures Level(c, b, now) <= Level(c, b, later) <= c.burst
  {
    if b.Some? {
      RefillAdds(c, b.value.lastFill, now, later);
      RefillRises(c, now, later);
    }
  }

  /** Stamps may be out of order by four and a half windows; with no burst, by any time. */
  predicate Allows(burst: nat, window: real, slack: real) {
    slack >= 0.0 && (burst == 0 || slack + slack <= 9.0 * window)
  }

  lemma NewOk(burst: nat, window: real, slack: real)
    requires window > 0.0 && Allows(burst, window, slack)
    ensures ConfigOk(New(burst, window)) && Tolerates(New(burst, window), slack)
  {
    var c := New(burst, window);
    Spread(c.burst, window);
    if burst == 0 {
      assert c.refillPerSec == 0.0;
      MulZero(c.refillPerSec, c.evictTTL - slack - slack - 0.0);
    } else {
      RefillLonger(c, 0.0, c.evictTTL - slack - slack, window);
      assert Refill(c, 0.0, window) == (window - 0.0) * c.refillPerSec;
    }
  }

  // ---- runs ----

  datatype Request = Request(key: string, at: real)

  /** No stamp is earlier than one before it by more than the slack. */
  ghost predicate Within(reqs: seq<Request>, slack: real) {
    forall i, j | 0 <= i < j < |reqs| :: reqs[i].at <= reqs[j].at + slack
  }

  function Run(c: Config, s: State, reqs: seq<Request>): (answers: seq<Answer>)
    ensures |answers| == |reqs|
    decreases |reqs|
  {
    if reqs == [] then []
    else
      var (t, a) := AllowAt(c, s, reqs[0].key, reqs[0].at);
      [a] + Run(c, t, reqs[1..])
  }

  /** One key alone, with no map and no sweep. */
  function Solo(c: Config, b: Option<Bucket>, times: seq<real>): (answers: seq<Answer>)
    ensures |answers| == |times|
    decreases |times|
  {
    if times == [] then []
    else
      var (b', a) := Spend(c, Level(c, b, times[0]), times[0]);
      [a] + Solo(c, Some(b'), times[1..])
  }

  function TimesOf(reqs: seq<Request>, key: string): seq<real> {
    if reqs == [] then []
    else (if reqs[0].key == key then [reqs[0].at] else []) + TimesOf(reqs[1..], key)
  }

  function AnswersTo(reqs: seq<Request>, answers: seq<Answer>, key: string): seq<Answer>
    requires |reqs| == |answers|
  {
    if reqs == [] then []
    else (if reqs[0].key == key then [answers[0]] else []) + AnswersTo(reqs[1..], answers[1..], key)
  }

  // ---- the sweep is unobservable ----

  /** `top` is the latest stamp the bucket has seen; going back in time only lends tokens. */
  predicate BucketOk(c: Config, b: Bucket, top: real, slack: real) {
    b.lastFill <= top <= b.lastFill + slack && b.tokens + Refill(c, b.lastFill, top) >= 0.0
  }

  /** `b` is the bucket `key` would have if nothing were ever evicted, for stamps from `floor` on. */
  ghost predicate Mirrors(c: Config, s: State, key: string, b: Option<Bucket>, floor: real) {
    if key in s.buckets then b == Some(s.buckets[key]) else Level(c, b, floor) == c.burst
  }

  /** A bucket old enough to be evicted is full, for every stamp that may still come. */
  lemma EvictedIsFull(c: Config, b: Bucket, top: real, slack: real, now: real, later: real)
    requires ConfigOk(c) && Tolerates(c, slack) && BucketOk(c, b, top, slack)
    requires now - b.lastFill > c.evictTTL && later >= now - slack
    ensures Level(c, Some(b), later) == c.burst
  {
    RefillAdds(c, b.lastFill, top, later);
    RefillLonger(c, top, later, c.evictTTL - slack - slack);
  }

  lemma SweepMirrors(c: Config, s: State, key: string, b: Option<Bucket>, top: real, slack: real,
                     floor: real, now: real, floor': real)
    requires ConfigOk(c) && Tolerates(c, slack) && Mirrors(c, s, key, b, floor)
    requires b.Some? ==> BucketOk(c, b.value, top, slack)
    requires floor <= floor' && now - slack <= floor'
    ensures Mirrors(c, Sweep(c, s, now), key, b, floor')
  {
    if key !in s.buckets {
      LevelRises(c, b, floor, floor');
    } else if key !in Sweep(c, s, now).buckets {
      EvictedIsFull(c, b.value, top, slack, now, floor');
    }
  }

  lemma SpendOk(c: Config, b: Option<Bucket>, top: real, slack: real, now: real) returns (top': real)
    requires ConfigOk(c) && slack >= 0.0
    requires b.Some? ==> BucketOk(c, b.value, top, slack) && top <= now + slack
    ensures BucketOk(c, Spend(c, Level(c, b, now), now).0, top', slack)
    ensures top' == now || (b.Some? && top' == top)
  {
    top' := if b.Some? && top > now then top else now;
    RefillRises(c, now, top');
    if b.Some? {
      RefillAdds(c, b.value.lastFill, now, top');
      RefillAdds(c, b.value.lastFill, top, top');
      RefillRises(c, top, top');
    }
  }

  /** All of `times` come at `floor` or after. */
  ghost predicate From(reqs: seq<Request>, floor: real) {
    forall i | 0 <= i < |reqs| :: floor <= reqs[i].at
  }

  lemma {:induction false} RunMirrorsSolo(c: Config, s: State, reqs: seq<Request>, key: string, b: Option<Bucket>,
                                          top: real, slack: real, floor: real)
    requires ConfigOk(c) && Tolerates(c, slack) && Within(reqs, slack) && From(reqs, floor)
    requires b.Some? ==> BucketOk(c, b.value, top, slack) && From(reqs, top - slack)
    requires Mirrors(c, s, key, b, floor)
    ensures AnswersTo(reqs, Run(c, s, reqs), key) == Solo(c, b, TimesOf(reqs, key))
    decreases |reqs|
  {
    if reqs != [] {
      var r := reqs[0];
      var (t, a) := AllowAt(c, s, r.key, r.at);
      var floor' := if floor < r.at - slack then r.at - slack else floor;
      SweepMirrors(c, s, key, b, top, slack, floor, r.at, floor');
      assert Run(c, s, reqs)[1..] == Run(c, t, reqs[1..]);
      if r.key == key {
        LevelRises(c, b, floor', r.at);
        var b' := Spend(c, Level(c, b, r.at), r.at).0;
        var top' := SpendOk(c, b, top, slack, r.at);
        assert TimesOf(reqs, key)[1..] == TimesOf(reqs[1..], key);
        RunMirrorsSolo(c, t, reqs[1..], key, Some(b'), top', slack, floor');
      } else {
        assert TimesOf(reqs, key) == TimesOf(reqs[1..], key);
        RunMirrorsSolo(c, t, reqs[1..], key, b, top, slack, floor');
      }
    }
  }

  const FRESH: State := State(map[], None)

  lemma {:induction false} SomeFloor(reqs: seq<Request>) returns (floor: real)
    ensures From(reqs, floor)
  {
    floor := 0.0;
    if reqs != [] {
      var rest := SomeFloor(reqs[1..]);
      floor := Min(rest, reqs[0].at);
    }
  }

  /** Eviction is unobservable and keys are independent: a key is answered as if it were alone
      with a bucket that is never dropped. */
  lemma KeysAreIndependent(burst: nat, window: real, reqs: seq<Request>, key: string, slack: real)
    requires window > 0.0 && Allows(burst, window, slack) && Within(reqs, slack)
    ensures AnswersTo(reqs, Run(New(burst, window), FRESH, reqs), key)
         == Solo(New(burst, window), None, TimesOf(reqs, key))
  {
    NewOk(burst, window, slack);
    var floor := SomeFloor(reqs);
    RunMirrorsSolo(New(burst, window), FRESH, reqs, key, None, 0.0, slack, floor);
  }

  // ---- the rate bound ----

  /** Allowed answers to `key` between `from` and `to`. */
  function Allowed(reqs: seq<Request>, answers: seq<Answer>, key: string, from: real, to: real): nat
    requires |reqs| == |answers|
  {
    if reqs == [] then 0
    else
      (if reqs[0].key == key && from <= reqs[0].at <= to && answers[0].ok then 1 else 0)
      + Allowed(reqs[1..], answers[1..], key, from, to)
  }

  function Count(times: seq<real>, answers: seq<Answer>, from: real, to: real): nat
    requires |times| == |answers|
  {
    if times == [] then 0
    else (if from <= times[0] <= to && answers[0].ok then 1 else 0) + Count(times[1..], answers[1..], from, to)
  }

  lemma {:induction false} ProjectedLengths(reqs: seq<Request>, answers: seq<Answer>, key: string)
    requires |reqs| == |answers|
    ensures |TimesOf(reqs, key)| == |AnswersTo(reqs, answers, key)|
  {
    if reqs != [] {
      ProjectedLengths(reqs[1..], answers[1..], key);
    }
  }

  lemma {:induction false} AllowedIsCount(reqs: seq<Request>, answers: seq<Answer>, key: string, from: real, to: real)
    requires |reqs| == |answers|
    ensures |TimesOf(reqs, key)| == |AnswersTo(reqs, answers, key)|
    ensures Allowed(reqs, answers, key, from, to) == Count(TimesOf(reqs, key), AnswersTo(reqs, answers, key), from, to)
  {
    ProjectedLengths(reqs, answers, key);
    if reqs != [] {
      AllowedIsCount(reqs[1..], answers[1..], key, from, to);
      var ts, granted := TimesOf(reqs, key), AnswersTo(reqs, answers, key);
      if reqs[0].key == key {
        assert ts[1..] == TimesOf(reqs[1..], key) && granted[1..] == AnswersTo(reqs[1..], answers[1..], key);
      } else {
        assert ts == TimesOf(reqs[1..], key) && granted == AnswersTo(reqs[1..], answers[1..], key);
      }
    }
  }

  /** What a bucket can still give by `to`; requests in any order never raise it, and each grant
      takes one token from it. */
  function Head(c: Config, b: Bucket, to: real): real {
    b.tokens + Refill(c, b.lastFill, to)
  }

  lemma HeadFalls(c: Config, b: Bucket, u: real, to: real)
    ensures var (b', a) := Spend(c, Level(c, Some(b), u), u);
      Head(c, b', to) + (if a.ok then 1.0 else 0.0) <= Head(c, b, to)
  {
    RefillAdds(c, b.lastFill, u, to);
  }

  lemma {:induction false} CountFromHead(c: Config, b: Bucket, times: seq<real>, from: real, to: real)
    requires ConfigOk(c)
    ensures var n := Count(times, Solo(c, Some(b), times), from, to);
      n == 0 || n as real <= Head(c, b, to)
    decreases |times|
  {
    if times != [] {
      var u := times[0];
      var (b', a) := Spend(c, Level(c, Some(b), u), u);
      assert Solo(c, Some(b), times)[1..] == Solo(c, Some(b'), times[1..]);
      CountFromHead(c, b', times[1..], from, to);
      HeadFalls(c, b, u, to);
      if a.ok && u <= to {
        RefillRises(c, u, to);
      }
    }
  }

  /** The bound on a bucket that is never dropped, for stamps in any order whatever. */
  lemma {:induction false} SoloRateBound(c: Config, b: Option<Bucket>, times: seq<real>, from: real, to: real)
    requires ConfigOk(c) && from <= to
    ensures Count(times, Solo(c, b, times), from, to) as real <= c.burst + Refill(c, from, to)
    decreases |times|
  {
    RefillRises(c, from, to);
    if times != [] {
      var u := times[0];
      var (b', a) := Spend(c, Level(c, b, u), u);
      assert Solo(c, b, times)[1..] == Solo(c, Some(b'), times[1..]);
      if from <= u <= to && a.ok {
        CountFromHead(c, b', times[1..], from, to);
        RefillAdds(c, from, u, to);
        RefillRises(c, from, u);
        RefillRises(c, u, to);
      } else {
        SoloRateBound(c, Some(b'), times[1..], from, to);
      }
    }
  }

  /** Over any interval of any run, a key is allowed at most burst plus the refill of the interval. */
  lemma RateBound(burst: nat, window: real, reqs: seq<Request>, key: string, slack: real, from: real, to: real)
    requires window > 0.0 && Allows(burst, window, slack) && Within(reqs, slack) && from <= to
    ensures Allowed(reqs, Run(New(burst, window), FRESH, reqs), key, from, to) as real
         <= burst as real + Refill(New(burst, window), from, to)
  {
    NewOk(burst, window, slack);
    KeysAreIndependent(burst, window, reqs, key, slack);
    BoundOf(New(burst, window), reqs, key, from, to);
  }

  lemma BoundOf(c: Config, reqs: seq<Request>, key: string, from: real, to: real)
    requires ConfigOk(c) && from <= to
    requires AnswersTo(reqs, Run(c, FRESH, reqs), key) == Solo(c, None, TimesOf(reqs, key))
    ensures Allowed(reqs, Run(c, FRESH, reqs), key, from, to) as real <= c.burst + Refill(c, from, to)
  {
    AllowedIsCount(reqs, Run(c, FRESH, reqs), key, from, to);
    SoloRateBound(c, None, TimesOf(reqs, key), from, to);
  }

  /** The refill of an interval is its share of the window, of one burst a window. */
  lemma NewRefill(burst: nat, window: real, from: real, to: real)
    requires window > 0.0
    ensures Refill(New(burst, window), from, to) * window == (to - from) * burst as real
  {
    Spread(burst as real, window);
    var r := burst as real / window;
    MulAssoc(to - from, r, window);
    assert r * window == burst as real;
    assert Refill(New(burst, window), from, to) == (to - from) * r;
  }

  // ---- how late a stamp may be ----

  function StateAfter(c: Config, s: State, reqs: seq<Request>): State
    decreases |reqs|
  {
    if reqs == [] then s else StateAfter(c, AllowAt(c, s, reqs[0].key, reqs[0].at).0, reqs[1..])
  }

  lemma {:induction false} RunConcat(c: Config, s: State, a: seq<Request>, b: seq<Request>)
    ensures Run(c, s, a + b) == Run(c, s, a) + Run(c, StateAfter(c, s, a), b)
    ensures StateAfter(c, s, a + b) == StateAfter(c, StateAfter(c, s, a), b)
    decreases |a|
  {
    if a == [] {
      assert a + b == b;
    } else {
      assert (a + b)[1..] == a[1..] + b;
      RunConcat(c, AllowAt(c, s, a[0].key, a[0].at).0, a[1..], b);
    }
  }

  lemma {:induction false} AllowedConcat(a: seq<Request>, x: seq<Answer>, b: seq<Request>, y: seq<Answer>,
                                         key: string, from: real, to: real)
    requires |a| == |x| && |b| == |y|
    ensures Allowed(a + b, x + y, key, from, to) == Allowed(a, x, key, from, to) + Allowed(b, y, key, from, to)
    decreases |a|
  {
    if a == [] {
      assert a + b == b && x + y == y;
    } else {
      assert (a + b)[1..] == a[1..] + b && (x + y)[1..] == x[1..] + y;
      AllowedConcat(a[1..], x[1..], b, y, key, from, to);
    }
  }

  /** `n` requests of `key`, all stamped `at`. */
  function Burst(key: string, at: real, n: nat): seq<Request> {
    if n == 0 then [] else [Request(key, at)] + Burst(key, at, n - 1)
  }

  /** No sweep comes with a request stamped `at`. */
  predicate Quiet(c: Config, s: State, at: real) {
    s.lastSweep.Some? && at - s.lastSweep.value < c.evictTTL
  }

  /** A burst the bucket can pay for is granted whole. */
  lemma {:induction false} BurstPaid(c: Config, s: State, key: string, at: real, n: nat, from: real, to: real)
    requires ConfigOk(c) && Quiet(c, s, at) && n as real <= Level(c, Lookup(s, key), at) && from <= at <= to
    ensures Allowed(Burst(key, at, n), Run(c, s, Burst(key, at, n)), key, from, to) == n
    ensures StateAfter(c, s, Burst(key, at, n)).lastSweep == s.lastSweep
    ensures n > 0 ==> var b := StateAfter(c, s, Burst(key, at, n)).buckets; key in b && b[key].lastFill == at
    decreases n
  {
    if n > 0 {
      var (t, a) := AllowAt(c, s, key, at);
      NoRefill(c, at);
      assert Level(c, Lookup(t, key), at) == Level(c, Lookup(s, key), at) - 1.0;
      assert Burst(key, at, n)[1..] == Burst(key, at, n - 1);
      assert Run(c, s, Burst(key, at, n))[1..] == Run(c, t, Burst(key, at, n - 1));
      BurstPaid(c, t, key, at, n - 1, from, to);
    }
  }

  /** What the run below does to the bucket of "k": its stamp goes back to 0, and a sweep later
      than the TTL drops it, however recently it was in use. */
  lemma Dropped(c: Config, s: State, at: real)
    requires Quiet(c, s, 0.0) && at > c.evictTTL && s.lastSweep.Some? && at - s.lastSweep.value >= c.evictTTL
    ensures var reqs := [Request("k", 0.0), Request("o", at)];
      "k" !in StateAfter(c, s, reqs).buckets && StateAfter(c, s, reqs).lastSweep == Some(at)
  {
    var s1 := AllowAt(c, s, "k", 0.0).0;
    assert "k" in s1.buckets && s1.buckets["k"].lastFill == 0.0 && s1.lastSweep == s.lastSweep;
    var s2 := AllowAt(c, s1, "o", at).0;
    assert "k" !in s2.buckets && s2.lastSweep == Some(at);
    assert [Request("k", 0.0), Request("o", at)][1..] == [Request("o", at)] && [Request("o", at)][1..] == [];
    assert StateAfter(c, s1, [Request("o", at)]) == StateAfter(c, s2, []);
  }

  lemma FirstSweep(c: Config, at: real)
    ensures var t := StateAfter(c, FRESH, [Request("o", at)]); t.lastSweep == Some(at) && "k" !in t.buckets
  {
    assert [Request("o", at)][1..] == [];
    assert StateAfter(c, FRESH, [Request("o", at)]) == StateAfter(c, AllowAt(c, FRESH, "o", at).0, []);
  }

  /** Two whole bursts, with the bucket dropped in between. */
  function LateRun(n: nat, start: real, early: real, sweep: real, late: real): seq<Request> {
    [Request("o", start)] + (Burst("k", early, n) + ([Request("k", 0.0), Request("o", sweep)] + Burst("k", late, n)))
  }

  lemma LateRunGrants(c: Config, n: nat, start: real, early: real, sweep: real, late: real)
    requires ConfigOk(c) && n >= 1 && n as real <= c.burst && c.evictTTL > 0.0
    requires early - start < c.evictTTL && 0.0 - start < c.evictTTL && 0.0 < early <= late < sweep
    requires sweep > c.evictTTL && sweep - start >= c.evictTTL
    ensures var reqs := LateRun(n, start, early, sweep, late);
      Allowed(reqs, Run(c, FRESH, reqs), "k", early, late) >= n + n
  {
    var first, one := [Request("o", start)], Burst("k", early, n);
    var drop, two := [Request("k", 0.0), Request("o", sweep)], Burst("k", late, n);
    FirstSweep(c, start);
    var s1 := StateAfter(c, FRESH, first);
    BurstPaid(c, s1, "k", early, n, early, late);
    var s2 := StateAfter(c, s1, one);
    Dropped(c, s2, sweep);
    var s3 := StateAfter(c, s2, drop);
    BurstPaid(c, s3, "k", late, n, early, late);
    RunConcat(c, FRESH, first, one + (drop + two));
    RunConcat(c, s1, one, drop + two);
    RunConcat(c, s2, drop, two);
    AllowedConcat(first, Run(c, FRESH, first), one + (drop + two), Run(c, s1, one + (drop + two)), "k", early, late);
    AllowedConcat(one, Run(c, s1, one), drop + two, Run(c, s2, drop + two), "k", early, late);
    AllowedConcat(drop, Run(c, s2, drop), two, Run(c, s3, two), "k", early, late);
  }

  lemma {:induction false} BurstStamps(key: string, at: real, n: nat)
    ensures |Burst(key, at, n)| == n && forall i | 0 <= i < n :: Burst(key, at, n)[i] == Request(key, at)
  {
    if n > 0 {
      BurstStamps(key, at, n - 1);
    }
  }

  lemma LateRunWithin(n: nat, start: real, early: real, sweep: real, late: real, slack: real)
    requires start <= 0.0 < early <= late < sweep && early <= slack && sweep <= late + slack
    ensures Within(LateRun(n, start, early, sweep, late), slack)
  {
    BurstStamps("k", early, n);
    BurstStamps("k", late, n);
    var reqs := LateRun(n, start, early, sweep, late);
    forall i | 0 <= i < |reqs|
      ensures reqs[i].at == if i == 0 then start else if i <= n then early else if i == n + 1 then 0.0
                            else if i == n + 2 then sweep else late
    {
    }
  }

  ghost predicate MeetsBound(burst: nat, window: real, reqs: seq<Request>, key: string, from: real, to: real)
    requires window > 0.0
  {
    Allowed(reqs, Run(New(burst, window), FRESH, reqs), key, from, to) as real
      <= burst as real + Refill(New(burst, window), from, to)
  }

  /** The bound holds in every run whose stamps are no later than the slack. */
  ghost predicate BoundHolds(burst: nat, window: real, slack: real)
    requires window > 0.0
  {
    forall reqs, key, from, to | Within(reqs, slack) && from <= to :: MeetsBound(burst, window, reqs, key, from, to)
  }

  ghost predicate AsIfAlone(burst: nat, window: real, reqs: seq<Request>, key: string)
    requires window > 0.0
  {
    AnswersTo(reqs, Run(New(burst, window), FRESH, reqs), key) == Solo(New(burst, window), None, TimesOf(reqs, key))
  }

  /** In every such run, nobody can tell that buckets are evicted. */
  ghost predicate SweepUnseen(burst: nat, window: real, slack: real)
    requires window > 0.0
  {
    forall reqs, key | Within(reqs, slack) :: AsIfAlone(burst, window, reqs, key)
  }

  /** Anything later than four and a half windows breaks the bound. */
  lemma LateStampBreaksBound(burst: nat, window: real, slack: real) returns (reqs: seq<Request>, from: real, to: real)
    requires burst >= 1 && window > 0.0 && slack + slack > 9.0 * window
    ensures Within(reqs, slack) && from <= to && !MeetsBound(burst, window, reqs, "k", from, to)
  {
    var c := New(burst, window);
    var sl := Min(slack, 5.0 * window);
    var over := (sl + sl - 9.0 * window) / 2.0;
    var sweep := 10.0 * window + over;
    from, to := sl, sweep - sl;
    reqs := LateRun(burst, -0.5 * window, from, sweep, to);
    Spread(c.burst, window);
    LateRunGrants(c, burst, -0.5 * window, from, sweep, to);
    LateRunWithin(burst, -0.5 * window, from, sweep, to, sl);
    ShortRefill(burst, window, from, to);
  }

  /** Less than a window refills less than a burst. */
  lemma ShortRefill(burst: nat, window: real, from: real, to: real)
    requires burst >= 1 && window > 0.0 && to - from < window
    ensures Refill(New(burst, window), from, to) < burst as real
  {
    var c := New(burst, window);
    NewRefill(burst, window, from, to);
    if Refill(c, from, to) >= burst as real {
      MulMore(Refill(c, from, to), burst as real, window);
      MulPositive(window - (to - from), burst as real);
      MulSum(to - from, window - (to - from), burst as real);
    }
  }

  lemma MulMore(x: real, y: real, w: real)
    requires x >= y && w > 0.0
    ensures x * w >= y * w
  {
    MulNonNegative(x - y, w);
    MulSum(y, x - y, w);
  }

  /** The bound holds in all runs within the slack if and only if that is at most four and a half
      windows (or there is no burst at all), and so is the sweep unseen. */
  lemma SlackIff(burst: nat, window: real, slack: real)
    requires window > 0.0 && slack >= 0.0
    ensures BoundHolds(burst, window, slack) <==> Allows(burst, window, slack)
    ensures SweepUnseen(burst, window, slack) <==> Allows(burst, window, slack)
  {
    if Allows(burst, window, slack) {
      forall reqs, key, from, to | Within(reqs, slack) && from <= to
        ensures MeetsBound(burst, window, reqs, key, from, to) {
        RateBound(burst, window, reqs, key, slack, from, to);
      }
      forall reqs, key | Within(reqs, slack) ensures AsIfAlone(burst, window, reqs, key) {
        KeysAreIndependent(burst, window, reqs, key, slack);
      }
    } else {
      var reqs, from, to := LateStampBreaksBound(burst, window, slack);
      if AsIfAlone(burst, window, reqs, "k") {
        NewOk(burst, window, 0.0);
        BoundOf(New(burst, window), reqs, "k", from, to);
      }
    }
  }

  // ---- exactly what is granted ----

  ghost predicate AllOk(answers: seq<Answer>) {
    forall a | a in answers :: a.ok
  }

  /** From its level on the bucket can pay for every stretch of the requests. */
  ghost predicate Fits(c: Config, level: real, times: seq<real>)
    requires times != []
  {
    && (forall j | 0 <= j < |times| :: (j + 1) as real <= level + Refill(c, times[0], times[j]))
    && (forall i, j | 1 <= i <= j < |times| :: (j - i + 1) as real <= c.burst + Refill(c, times[i], times[j]))
  }

  lemma FitsForward(c: Config, level: real, times: seq<real>)
    requires |times| >= 2 && Fits(c, level, times)
    ensures level >= 1.0 && Fits(c, Min(c.burst, level - 1.0 + Refill(c, times[0], times[1])), times[1..])
  {
    var rest := times[1..];
    NoRefill(c, times[0]);
    assert (0 + 1) as real <= level + Refill(c, times[0], times[0]);
    forall j | 0 <= j < |rest|
      ensures (j + 1) as real <= Min(c.burst, level - 1.0 + Refill(c, times[0], times[1])) + Refill(c, rest[0], rest[j])
    {
      RefillAdds(c, times[0], times[1], times[j + 1]);
      assert (j + 2) as real <= level + Refill(c, times[0], times[j + 1]);
      assert (j + 1 - 1 + 1) as real <= c.burst + Refill(c, times[1], times[j + 1]);
    }
    forall i, j | 1 <= i <= j < |rest| ensures (j - i + 1) as real <= c.burst + Refill(c, rest[i], rest[j]) {
      assert ((j + 1) - (i + 1) + 1) as real <= c.burst + Refill(c, times[i + 1], times[j + 1]);
    }
  }

  lemma FitsBackward(c: Config, level: real, times: seq<real>)
    requires |times| >= 2 && level >= 1.0
    requires Fits(c, Min(c.burst, level - 1.0 + Refill(c, times[0], times[1])), times[1..])
    ensures Fits(c, level, times)
  {
    var rest, left := times[1..], Min(c.burst, level - 1.0 + Refill(c, times[0], times[1]));
    NoRefill(c, times[0]);
    forall j | 0 <= j < |times| ensures (j + 1) as real <= level + Refill(c, times[0], times[j]) {
      if j > 0 {
        RefillAdds(c, times[0], times[1], times[j]);
        assert ((j - 1) + 1) as real <= left + Refill(c, rest[0], rest[j - 1]);
      }
    }
    forall i, j | 1 <= i <= j < |times| ensures (j - i + 1) as real <= c.burst + Refill(c, times[i], times[j]) {
      if i == 1 {
        assert ((j - 1) + 1) as real <= left + Refill(c, rest[0], rest[j - 1]);
      } else {
        assert ((j - 1) - (i - 1) + 1) as real <= c.burst + Refill(c, rest[i - 1], rest[j - 1]);
      }
    }
  }

  lemma {:induction false} GrantedIff(c: Config, b: Option<Bucket>, times: seq<real>)
    ensures AllOk(Solo(c, b, times)) <==> times == [] || Fits(c, Level(c, b, times[0]), times)
    decreases |times|
  {
    if times != [] {
      var u := times[0];
      var level := Level(c, b, u);
      var (b', a) := Spend(c, level, u);
      var rest := Solo(c, Some(b'), times[1..]);
      assert Solo(c, b, times) == [a] + rest;
      assert AllOk([a] + rest) <==> a.ok && AllOk(rest) by {
        assert forall x :: x in [a] + rest <==> x == a || x in rest;
      }
      GrantedIff(c, Some(b'), times[1..]);
      NoRefill(c, u);
      if |times| > 1 {
        assert a.ok ==> Level(c, Some(b'), times[1]) == Min(c.burst, level - 1.0 + Refill(c, u, times[1]));
        if Fits(c, level, times) { FitsForward(c, level, times); }
        if a.ok && Fits(c, Level(c, Some(b'), times[1]), times[1..]) { FitsBackward(c, level, times); }
      } else if Fits(c, level, times) {
        assert (0 + 1) as real <= level + Refill(c, times[0], times[0]);
      }
    }
  }

  /** The requests that come in any stretch of a key's run fit burst plus refill. */
  ghost predicate Affordable(c: Config, times: seq<real>) {
    forall i, j | 0 <= i <= j < |times| :: (j - i + 1) as real <= c.burst + Refill(c, times[i], times[j])
  }

  lemma AffordableFits(c: Config, times: seq<real>)
    requires times != []
    ensures Fits(c, c.burst, times) <==> Affordable(c, times)
  {
    if Fits(c, c.burst, times) {
      forall i, j | 0 <= i <= j < |times| ensures (j - i + 1) as real <= c.burst + Refill(c, times[i], times[j]) {
        assert i == 0 ==> (j + 1) as real <= c.burst + Refill(c, times[0], times[j]);
      }
    }
    if Affordable(c, times) {
      forall j | 0 <= j < |times| ensures (j + 1) as real <= c.burst + Refill(c, times[0], times[j]) {
        assert (j - 0 + 1) as real <= c.burst + Refill(c, times[0], times[j]);
      }
    }
  }

  /** A key is never denied if and only if every stretch of its requests fits burst plus refill. */
  lemma NeverDeniedIff(burst: nat, window: real, reqs: seq<Request>, key: string, slack: real)
    requires window > 0.0 && Allows(burst, window, slack) && Within(reqs, slack)
    ensures AllOk(AnswersTo(reqs, Run(New(burst, window), FRESH, reqs), key)) <==>
      Affordable(New(burst, window), TimesOf(reqs, key))
  {
    KeysAreIndependent(burst, window, reqs, key, slack);
    GrantedIff(New(burst, window), None, TimesOf(reqs, key));
    if TimesOf(reqs, key) != [] {
      AffordableFits(New(burst, window), TimesOf(reqs, key));
    }
  }

  ghost predicate Rising(times: seq<real>) {
    forall i, j | 0 <= i < j < |times| :: times[i] <= times[j]
  }

  /** A key that makes no more than `burst` requests, its own in order, is never denied, however
      fast they come. */
  lemma BurstGranted(burst: nat, window: real, reqs: seq<Request>, key: string, slack: real)
    requires window > 0.0 && Allows(burst, window, slack) && Within(reqs, slack)
    requires |TimesOf(reqs, key)| <= burst && Rising(TimesOf(reqs, key))
    ensures AllOk(AnswersTo(reqs, Run(New(burst, window), FRESH, reqs), key))
  {
    NeverDeniedIff(burst, window, reqs, key, slack);
    NewOk(burst, window, slack);
    BurstAffordable(New(burst, window), TimesOf(reqs, key));
  }

  lemma BurstAffordable(c: Config, times: seq<real>)
    requires ConfigOk(c) && |times| as real <= c.burst && Rising(times)
    ensures Affordable(c, times)
  {
    forall i, j | 0 <= i <= j < |times| ensures (j - i + 1) as real <= c.burst + Refill(c, times[i], times[j]) {
      RefillRises(c, times[i], times[j]);
    }
  }

  // ---- the hint ----

  /** `gap` is how long the missing part of a token takes to refill. */
  lemma RefilledIff(missing: real, rate: real, elapsed: real)
    requires rate > 0.0
    ensures elapsed * rate >= missing <==> elapsed >= missing / rate
  {
    var gap := missing / rate;
    assert gap * rate == missing;
    if elapsed >= gap {
      MulNonNegative(elapsed - gap, rate);
      MulSum(gap, elapsed - gap, rate);
      assert gap + (elapsed - gap) == elapsed;
    } else {
      MulPositive(gap - elapsed, rate);
      MulSum(elapsed, gap - elapsed, rate);
      assert elapsed + (gap - elapsed) == gap;
    }
  }

  lemma MulPositive(x: real, r: real)
    requires x > 0.0 && r > 0.0
    ensures x * r > 0.0
  {
  }

  lemma SoloTwo(c: Config, b: Option<Bucket>, now: real, later: real)
    ensures var (b', a) := Spend(c, Level(c, b, now), now);
      Solo(c, b, [now, later]) == [a, Spend(c, Level(c, Some(b'), later), later).1]
  {
    var (b', a) := Spend(c, Level(c, b, now), now);
    assert [now, later][1..] == [later] && [later][1..] == [];
    assert Solo(c, Some(b'), [later]) == [Spend(c, Level(c, Some(b'), later), later).1];
  }

  /** After a denial, the key's next request is allowed exactly when it comes no earlier than one
      second before the hinted time; without a hint, or with no burst at all, never. */
  lemma RetryIff(c: Config, b: Option<Bucket>, now: real, later: real)
    requires ConfigOk(c) && !Solo(c, b, [now, later])[0].ok
    ensures var first, second := Solo(c, b, [now, later])[0], Solo(c, b, [now, later])[1];
      second.ok <==> c.burst >= 1.0 && first.wait.Some? && later >= now + first.wait.value - 1.0
  {
    SoloTwo(c, b, now, later);
    var level := Level(c, b, now);
    if c.refillPerSec > 0.0 {
      RefilledIff(1.0 - level, c.refillPerSec, later - now);
    } else {
      assert c.refillPerSec == 0.0;
      MulZero(c.refillPerSec, later - now);
    }
  }
}
