/**
 * How long a feed waits before its next poll: the adaptive interval with its jitter and its
 * two bounds (store/feeds.go), and the backoff a failed fetch gets (ingest/pipeline.go).
 * Durations are integers in nanoseconds.
 */
module PollDelay {
  import opened Common

  const MIN_POLL_DELAY: int := 2 * MINUTE
  const MAX_POLL_DELAY: int := 6 * HOUR

  datatype Tier = Breaking | High | Normal | Slow | Opportunity | OtherTier

  datatype Health =
    | Unknown | Healthy | Degraded | Unstable | Stale | Empty
    | ParserError | HttpFailure | RateLimited | Quarantined | Disabled

  function Interval(tier: Tier): int {
    match tier
    case Breaking => 3 * MINUTE
    case High => 5 * MINUTE
    case Normal => 12 * MINUTE
    case Slow => 30 * MINUTE
    case Opportunity => 60 * MINUTE
    case OtherTier => 15 * MINUTE
  }

  /** Everything the delay depends on; jitter is the clock's last three digits. */
  datatype DelayArgs = DelayArgs(tier: Tier, failures: int, recentItems: int, adaptive: bool, jitter: int)

  predicate ValidArgs(a: DelayArgs) {
    0 <= a.jitter < 1000
  }

  function Clamp(d: int): int {
    Max(MIN_POLL_DELAY, Min(MAX_POLL_DELAY, d))
  }

  function Pow2(n: nat): int {
    if n == 0 then 1 else 2 * Pow2(n - 1)
  }

  /** The interval after adaptation, before failures and jitter. */
  function AdaptedBase(a: DelayArgs): int {
    if !a.adaptive then Interval(a.tier)
    else if a.recentItems >= 10 then Max(Interval(a.tier) / 2, MIN_POLL_DELAY)
    else if a.recentItems == 0 && a.failures == 0 then Interval(a.tier) * 2
    else Interval(a.tier)
  }

  function Factor(a: DelayArgs): int {
    Pow2(if a.failures <= 0 then 0 else Min(a.failures, 6))
  }

  /** The interval that jitter is applied to: doubled for each of the first six failures. */
  function BackoffBase(a: DelayArgs): int {
    AdaptedBase(a) * Factor(a)
  }

  /** The base times 0.8 + 0.4 * jitter / 1000, truncated. */
  function Jittered(base: int, jitter: int): int {
    base * (8000 + 4 * jitter) / 10000
  }

  function Delay(a: DelayArgs): int {
    Clamp(Jittered(BackoffBase(a), a.jitter))
  }

  lemma Pow2Values()
    ensures Pow2(0) == 1 && Pow2(1) == 2 && Pow2(2) == 4 && Pow2(3) == 8
    ensures Pow2(4) == 16 && Pow2(5) == 32 && Pow2(6) == 64
  {
    assert Pow2(1) == 2;
    assert Pow2(2) == 4;
    assert Pow2(3) == 8;
    assert Pow2(4) == 16;
    assert Pow2(5) == 32;
  }

  /** The adaptive interval as the store computes it, reassigning `base` step by step. */
  method NextPollDelay(tier: Tier, failures: int, recentItems: int, adaptive: bool, jitter: int) returns (d: int)
    requires 0 <= jitter < 1000
    ensures d == Delay(DelayArgs(tier, failures, recentItems, adaptive, jitter))
    ensures 120_000_000_000 <= d <= 21_600_000_000_000
  {
    var base := Interval(tier);
    if adaptive {
      if recentItems == 0 && failures == 0 {
        base := base * 2;
      }
      if recentItems >= 10 {
        base := base / 2;
        if base < 2 * MINUTE {
          base := 2 * MINUTE;
        }
      }
    }
    if failures > 0 {
      var mult := Pow2(Min(failures, 6));
      base := base * mult;
    }
    ghost var a := DelayArgs(tier, failures, recentItems, adaptive, jitter);
    assert base == BackoffBase(a);
    var jittered := base * (8000 + 4 * jitter) / 10000;
    if jittered > MAX_POLL_DELAY {
      return MAX_POLL_DELAY;
    }
    if jittered < MIN_POLL_DELAY {
      return MIN_POLL_DELAY;
    }
    return jittered;
  }

  lemma ScaleMonotone(x: int, y: int, k: int)
    requires x <= y && 0 <= k
    ensures x * k <= y * k
  {
  }

  /** Another failure never brings the next poll forward, for the same tier, item count and jitter. */
  lemma MoreFailuresNeverSooner(a: DelayArgs, failures: int)
    requires ValidArgs(a) && 0 <= a.failures <= failures
    ensures Delay(a) <= Delay(a.(failures := failures))
  {
    var b := a.(failures := failures);
    Pow2Values();
    BackoffMonotone(a, failures);
    ScaleMonotone(BackoffBase(a), BackoffBase(b), 8000 + 4 * a.jitter);
  }

  lemma BackoffMonotone(a: DelayArgs, failures: int)
    requires 0 <= a.failures <= failures
    ensures BackoffBase(a) <= BackoffBase(a.(failures := failures))
  {
    Pow2Values();
    var e, e' := Min(a.failures, 6), Min(failures, 6);
    assert e <= e' <= 6;
    assert Pow2(e) <= Pow2(e');
    assert e < e' ==> 2 * Pow2(e) <= Pow2(e');
  }

  /** No product in the computation leaves the 64-bit range, so the source's integers never wrap. */
  lemma NoOverflow(a: DelayArgs)
    requires ValidArgs(a)
    ensures 0 < BackoffBase(a) * 12 < 0x7fff_ffff_ffff_ffff
    ensures 0 < Jittered(BackoffBase(a), a.jitter)
  {
    AdaptedRange(a);
    FactorRange(a);
    ProductRange(AdaptedBase(a), Factor(a));
    JitterRange(BackoffBase(a), a.jitter);
  }

  lemma FactorRange(a: DelayArgs)
    ensures 1 <= Factor(a) <= 64
  {
    Pow2Values();
  }

  lemma JitterRange(base: int, jitter: int)
    requires base >= 2 * MINUTE && 0 <= jitter < 1000
    ensures 0 < Jittered(base, jitter)
  {
    ScaleMonotone(2 * MINUTE, base, 8000 + 4 * jitter);
    ScaleMonotone(8000, 8000 + 4 * jitter, 2 * MINUTE);
  }

  lemma AdaptedRange(a: DelayArgs)
    ensures 2 * MINUTE <= AdaptedBase(a) <= 120 * MINUTE
  {
  }

  lemma ProductRange(base: int, factor: int)
    requires 2 * MINUTE <= base <= 120 * MINUTE && 1 <= factor <= 64
    ensures 2 * MINUTE <= base * factor <= 120 * 64 * MINUTE
  {
    ScaleMonotone(base, 120 * MINUTE, factor);
    ScaleMonotone(2 * MINUTE, base, factor);
  }

  // ---------------------------------------------------------------------------------------
  // The same in seconds
  // ---------------------------------------------------------------------------------------

  function TierSeconds(tier: Tier): int {
    match tier
    case Breaking => 180
    case High => 300
    case Normal => 720
    case Slow => 1800
    case Opportunity => 3600
    case OtherTier => 900
  }

  /** Half the interval, but no less than two minutes, when busy; twice of it when quiet and not failing. */
  function PaceSeconds(a: DelayArgs): int {
    var usual := TierSeconds(a.tier);
    if a.adaptive && a.recentItems >= 10 then (if usual < 240 then 120 else usual / 2)
    else if a.adaptive && a.recentItems == 0 && a.failures == 0 then 2 * usual
    else usual
  }

  function Doublings(failures: int): int {
    if failures <= 0 then 1
    else if failures == 1 then 2
    else if failures == 2 then 4
    else if failures == 3 then 8
    else if failures == 4 then 16
    else if failures == 5 then 32
    else 64
  }

  /**
   * In the middle of the jitter the delay is the paced interval, doubled per failure, between 120 and
   * 21600 seconds; the jitter scales it by 0.8 to 1.2 before the bounds apply.
   */
  lemma DelayInSeconds(a: DelayArgs)
    requires ValidArgs(a)
    ensures var unbounded := PaceSeconds(a) * Doublings(a.failures) * 100_000 * (8000 + 4 * a.jitter);
      Delay(a) == if unbounded < 120_000_000_000 then 120_000_000_000
                  else if unbounded > 21_600_000_000_000 then 21_600_000_000_000
                  else unbounded
  {
    Pow2Values();
    assert Factor(a) == Doublings(a.failures);
    assert AdaptedBase(a) == PaceSeconds(a) * 1_000_000_000;
    JitterOfSeconds(PaceSeconds(a) * Doublings(a.failures), a.jitter);
    assert BackoffBase(a) == PaceSeconds(a) * Doublings(a.failures) * 1_000_000_000;
  }

  lemma JitterOfSeconds(n: int, jitter: int)
    ensures Jittered(n * 1_000_000_000, jitter) == n * 100_000 * (8000 + 4 * jitter)
  {
    assert n * 1_000_000_000 * (8000 + 4 * jitter) == n * 100_000 * (8000 + 4 * jitter) * 10000;
  }

  /** A feed that had ten items or more is polled no later than with one to nine, one without any no sooner. */
  lemma BusySoonerQuietLater(a: DelayArgs, items: int)
    requires ValidArgs(a) && 1 <= items < 10
    ensures a.recentItems >= 10 ==> Delay(a) <= Delay(a.(recentItems := items))
    ensures a.recentItems == 0 ==> Delay(a) >= Delay(a.(recentItems := items))
  {
    var b := a.(recentItems := items);
    Pow2Values();
    if a.recentItems >= 10 {
      ScaleMonotone(AdaptedBase(a), AdaptedBase(b), Factor(a));
      ScaleMonotone(BackoffBase(a), BackoffBase(b), 8000 + 4 * a.jitter);
    }
    if a.recentItems == 0 {
      ScaleMonotone(AdaptedBase(b), AdaptedBase(a), Factor(a));
      ScaleMonotone(BackoffBase(b), BackoffBase(a), 8000 + 4 * a.jitter);
    }
  }

  // ---------------------------------------------------------------------------------------
  // Failed fetches
  // ---------------------------------------------------------------------------------------

  /** What the fetcher reports; retryAfter is the header's value, zero or less when absent. */
  datatype FetchError =
    | Blocked
    | Timeout
    | TooLarge
    | BadType
    | Http(statusCode: int, retryAfter: int)
    | Other

  datatype Plan = Plan(health: Health, backoff: int)

  /** A 429 answer whose own Retry-After replaces the computed backoff. */
  predicate OwnRetryAfter(e: FetchError) {
    e.Http? && e.statusCode == 429 && e.retryAfter > 0
  }

  function FixedBackoff(e: FetchError, delay: int): int {
    match e
    case Blocked => 24 * HOUR
    case Http(429, ra) => if ra > 0 then ra else HOUR
    case Http(404, _) => 24 * HOUR
    case Http(410, _) => 24 * HOUR
    case Http(401, _) => 12 * HOUR
    case Http(403, _) => 12 * HOUR
    case _ => delay
  }

  function ErrorHealth(e: FetchError): Health {
    match e
    case Blocked => Quarantined
    case TooLarge => Unstable
    case BadType => Unstable
    case Http(429, _) => RateLimited
    case Http(404, _) => HttpFailure
    case Http(410, _) => HttpFailure
    case Http(401, _) => Disabled
    case Http(403, _) => Disabled
    case _ => Degraded
  }

  function ErrorPlan(e: FetchError, delay: int, failures: int, quarantineAfter: int): Plan {
    var h := ErrorHealth(e);
    Plan(if failures >= quarantineAfter && h != Quarantined then Unstable else h, FixedBackoff(e, delay))
  }

  /** The error classification, reassigning status and backoff branch by branch. */
  method HandleFetchError(e: FetchError, args: DelayArgs, quarantineAfter: int) returns (plan: Plan)
    requires ValidArgs(args)
    ensures plan == ErrorPlan(e, Delay(args), args.failures, quarantineAfter)
    ensures plan.backoff < MIN_POLL_DELAY <==> OwnRetryAfter(e) && e.retryAfter < MIN_POLL_DELAY
    ensures plan.health == Quarantined <==> e == Blocked
    ensures e == Blocked ==> plan.backoff == 86_400_000_000_000
    ensures e.Http? && e.statusCode == 429 ==>
              plan.backoff == if e.retryAfter > 0 then e.retryAfter else 3_600_000_000_000
    ensures e.Http? && e.statusCode in {404, 410} ==> plan.backoff == 86_400_000_000_000
    ensures e.Http? && e.statusCode in {401, 403} ==> plan.backoff == 43_200_000_000_000
    ensures e != Blocked && !(e.Http? && e.statusCode in {401, 403, 404, 410, 429}) ==> plan.backoff == Delay(args)
    ensures e != Blocked && args.failures >= quarantineAfter ==> plan.health == Unstable
    ensures args.failures < quarantineAfter && e.Http? ==>
              plan.health == if e.statusCode == 429 then RateLimited
                             else if e.statusCode in {404, 410} then HttpFailure
                             else if e.statusCode in {401, 403} then Disabled
                             else Degraded
    ensures args.failures < quarantineAfter && (e == TooLarge || e == BadType) ==> plan.health == Unstable
    ensures args.failures < quarantineAfter && (e == Timeout || e == Other) ==> plan.health == Degraded
  {
    var status := Degraded;
    var backoff := NextPollDelay(args.tier, args.failures, args.recentItems, args.adaptive, args.jitter);
    match e {
      case Blocked =>
        status := Quarantined;
        backoff := 24 * HOUR;
      case Timeout =>
        status := Degraded;
      case TooLarge =>
        status := Unstable;
      case BadType =>
        status := Unstable;
      case Http(code, retryAfter) =>
        if code == 429 {
          status := RateLimited;
          if retryAfter > 0 {
            backoff := retryAfter;
          } else {
            backoff := HOUR;
          }
        } else if code == 404 || code == 410 {
          status := HttpFailure;
          backoff := 24 * HOUR;
        } else if code == 401 || code == 403 {
          status := Disabled;
          backoff := 12 * HOUR;
        } else if code >= 500 {
          status := Degraded;
        } else {
          status := Degraded;
        }
      case Other =>
    }
    if args.failures >= quarantineAfter && status != Quarantined {
      status := Unstable;
    }
    return Plan(status, backoff);
  }
}
