/**
 * The per-key token bucket with garbage collection (httpapi/middleware.go). Tokens are exact
 * rationals, times are nanoseconds.
 */
module RateLimiter {
  import opened Common

  const IDLE_LIMIT: int := 10 * MINUTE

  datatype Bucket = Bucket(tokens: real, updated: int)

  /** A limiter's two numbers; the constructor derives both from requests per minute. */
  datatype Config = Config(rate: real, burst: real)

  function ConfigFor(perMinute: int): Config {
    var p := if perMinute <= 0 then 240 else perMinute;
    Config(p as real / 60.0, p as real / 4.0)
  }

  function Seconds(ns: int): real {
    ns as real / 1_000_000_000.0
  }

  /** What a span of time adds. */
  function Gain(c: Config, ns: int): real {
    Seconds(ns) * c.rate
  }

  function MinReal(a: real, b: real): real {
    if a < b then a else b
  }

  /** The tokens at `now`, refilled since the last update and capped. */
  function Refilled(c: Config, b: Bucket, now: int): real {
    MinReal(c.burst, b.tokens + Gain(c, now - b.updated))
  }

  predicate Grants(tokens: real) {
    tokens >= 1.0
  }

  function Spend(tokens: real): real {
    if Grants(tokens) then tokens - 1.0 else tokens
  }

  /** The bucket after a call; a key without a bucket starts full. */
  function AfterCall(c: Config, b: Bucket, now: int): Bucket {
    Bucket(Spend(Refilled(c, b, now)), now)
  }

  class Limiter {
    const config: Config
    var buckets: map<string, Bucket>
    var lastGC: int

    constructor (perMinute: int, now: int)
      ensures config == ConfigFor(perMinute) && buckets == map[] && lastGC == now
    {
      config := ConfigFor(perMinute);
      buckets := map[];
      lastGC := now;
    }

    /** Drops every bucket that has been idle for more than ten minutes, at most every ten minutes. */
    method CollectGarbage(now: int)
      modifies this
      ensures buckets == Collected(old(buckets), old(lastGC), now)
      ensures lastGC == GCTime(old(lastGC), now)
      ensures forall k | k in old(buckets) ::
                k !in buckets <==>
                  now - old(lastGC) > 600_000_000_000 && now - old(buckets)[k].updated > 600_000_000_000
    {
      if now - lastGC > IDLE_LIMIT {
        var pending := buckets.Keys;
        while pending != {}
          invariant pending <= old(buckets).Keys
          invariant buckets == map k | k in old(buckets)
              && (k in pending || now - old(buckets)[k].updated <= IDLE_LIMIT) :: old(buckets)[k]
          decreases |pending|
        {
          var k :| k in pending;
          pending := pending - {k};
          if now - buckets[k].updated > IDLE_LIMIT {
            buckets := buckets - {k};
          }
        }
        lastGC := now;
      }
    }

    method Allow(key: string, now: int) returns (ok: bool)
      modifies this
      ensures var before := Collected(old(buckets), old(lastGC), now);
              var bucket := BucketOf(config, before, key, now);
              && ok == Grants(Refilled(config, bucket, now))
              && buckets == before[key := AfterCall(config, bucket, now)]
      ensures lastGC == GCTime(old(lastGC), now)
    {
      CollectGarbage(now);
      ghost var before := buckets;
      var b: Bucket;
      if key in buckets {
        b := buckets[key];
      } else {
        b := Bucket(config.burst, now);
        buckets := buckets[key := b];
      }
      assert b == BucketOf(config, before, key, now);
      var tokens := b.tokens + Gain(config, now - b.updated);
      if tokens > config.burst {
        tokens := config.burst;
      }
      assert tokens == Refilled(config, b, now);
      if tokens < 1.0 {
        buckets := buckets[key := Bucket(tokens, now)];
        assert buckets == before[key := Bucket(tokens, now)];
        return false;
      }
      buckets := buckets[key := Bucket(tokens - 1.0, now)];
      assert buckets == before[key := Bucket(tokens - 1.0, now)];
      return true;
    }
  }

  function GCTime(lastGC: int, now: int): int {
    if now - lastGC > IDLE_LIMIT then now else lastGC
  }

  function Collected(buckets: map<string, Bucket>, lastGC: int, now: int): map<string, Bucket> {
    if now - lastGC > IDLE_LIMIT then map k | k in buckets && now - buckets[k].updated <= IDLE_LIMIT :: buckets[k]
    else buckets
  }

  function BucketOf(c: Config, buckets: map<string, Bucket>, key: string, now: int): Bucket {
    if key in buckets then buckets[key] else Bucket(c.burst, now)
  }

  // ---------------------------------------------------------------------------------------
  // Whole runs
  // ---------------------------------------------------------------------------------------

  datatype Call = Call(key: string, at: int)

  datatype LimiterState = LimiterState(buckets: map<string, Bucket>, lastGC: int)

  predicate InOrder(calls: seq<Call>) {
    forall i, j | 0 <= i <= j < |calls| :: calls[i].at <= calls[j].at
  }

  /** The limiter's state after a run that started empty. */
  function StateAfter(c: Config, start: int, calls: seq<Call>): LimiterState {
    if calls == [] then LimiterState(map[], start)
    else
      var s := StateAfter(c, start, calls[..|calls| - 1]);
      var call := calls[|calls| - 1];
      var before := Collected(s.buckets, s.lastGC, call.at);
      LimiterState(before[call.key := AfterCall(c, BucketOf(c, before, call.key, call.at), call.at)],
          GCTime(s.lastGC, call.at))
  }

  /** The limiter's answer to one more call. */
  function Answer(c: Config, start: int, calls: seq<Call>, call: Call): bool {
    var s := StateAfter(c, start, calls);
    Grants(Refilled(c, BucketOf(c, Collected(s.buckets, s.lastGC, call.at), call.key, call.at), call.at))
  }

  /** The method is one step of the run function. */
  method AllowInRun(l: Limiter, ghost start: int, ghost calls: seq<Call>, call: Call) returns (ok: bool)
    requires StateAfter(l.config, start, calls) == LimiterState(l.buckets, l.lastGC)
    modifies l
    ensures ok == Answer(l.config, start, calls, call)
    ensures StateAfter(l.config, start, calls + [call]) == LimiterState(l.buckets, l.lastGC)
  {
    assert (calls + [call])[..|calls|] == calls;
    ok := l.Allow(call.key, call.at);
  }

  // ---------------------------------------------------------------------------------------
  // The reference: one bucket per key, kept forever, seeing only its own key's calls
  // ---------------------------------------------------------------------------------------

  /** The times of the key's own calls. */
  function TimesOf(calls: seq<Call>, key: string): seq<int> {
    if calls == [] then []
    else
      var r := TimesOf(calls[..|calls| - 1], key);
      if calls[|calls| - 1].key == key then r + [calls[|calls| - 1].at] else r
  }

  predicate Sorted(times: seq<int>) {
    forall i, j | 0 <= i <= j < |times| :: times[i] <= times[j]
  }

  lemma SortedPrefix(times: seq<int>)
    requires Sorted(times) && times != []
    ensures Sorted(times[..|times| - 1])
    ensures |times| > 1 ==> times[|times| - 2] <= times[|times| - 1]
  {
  }

  /** The key's bucket after calls at the given times, of which there is at least one. */
  function Forever(c: Config, times: seq<int>): Bucket
    requires times != []
  {
    var now := times[|times| - 1];
    if |times| == 1 then AfterCall(c, Bucket(c.burst, now), now)
    else AfterCall(c, Forever(c, times[..|times| - 1]), now)
  }

  function ForeverAnswer(c: Config, times: seq<int>, now: int): bool {
    Grants(Refilled(c, if times == [] then Bucket(c.burst, now) else Forever(c, times), now))
  }

  predicate Sane(c: Config) {
    c.rate > 0.0 && 0.0 <= c.burst <= Gain(c, IDLE_LIMIT)
  }

  lemma ConfigSane(perMinute: int)
    ensures Sane(ConfigFor(perMinute))
  {
    var p := (if perMinute <= 0 then 240 else perMinute) as real;
    assert p >= 1.0;
    assert Seconds(IDLE_LIMIT) == 600.0;
    assert p / 60.0 * 600.0 == p * 10.0;
  }

  lemma GainMonotone(c: Config, d: int, e: int)
    requires c.rate > 0.0 && d <= e
    ensures Gain(c, d) <= Gain(c, e)
  {
  }

  lemma GainAdds(c: Config, d: int, e: int)
    ensures Gain(c, d + e) == Gain(c, d) + Gain(c, e)
    ensures Gain(c, 0) == 0.0
  {
    assert Seconds(d + e) == Seconds(d) + Seconds(e);
  }

  lemma {:induction false} ForeverTokens(c: Config, times: seq<int>)
    requires Sane(c) && times != [] && Sorted(times)
    ensures var b := Forever(c, times); 0.0 <= b.tokens <= c.burst && b.updated == times[|times| - 1]
  {
    if |times| > 1 {
      var rest := times[..|times| - 1];
      ForeverTokens(c, rest);
      GainMonotone(c, 0, times[|times| - 1] - rest[|rest| - 1]);
    }
    GainAdds(c, 0, 0);
  }

  /** A bucket idle for ten minutes has filled up again. */
  lemma IdleBucketIsFull(c: Config, b: Bucket, now: int)
    requires Sane(c) && 0.0 <= b.tokens && now - b.updated >= IDLE_LIMIT
    ensures Refilled(c, b, now) == c.burst
  {
    GainMonotone(c, IDLE_LIMIT, now - b.updated);
  }

  /** The collected table agrees with the reference, or has forgotten a bucket idle since over ten minutes. */
  predicate Agrees(c: Config, buckets: map<string, Bucket>, times: seq<int>, key: string, now: int) {
    if key in buckets then times != [] && buckets[key] == Forever(c, times)
    else times == [] || now - times[|times| - 1] > IDLE_LIMIT
  }

  lemma {:induction false} TimesFacts(calls: seq<Call>, key: string)
    requires InOrder(calls)
    ensures var t := TimesOf(calls, key);
            && Sorted(t)
            && (calls != [] && t != [] ==> t[|t| - 1] <= calls[|calls| - 1].at)
  {
    if calls != [] {
      TimesFacts(calls[..|calls| - 1], key);
    }
  }

  lemma FullStart(c: Config, now: int)
    requires Sane(c)
    ensures Refilled(c, Bucket(c.burst, now), now) == c.burst
  {
    GainAdds(c, 0, 0);
  }

  /** Collecting keeps the agreement, and the call then meets the same number of tokens. */
  lemma AgreementAfterGC(c: Config, s: LimiterState, times: seq<int>, key: string, before: int, now: int)
    requires Sane(c) && before <= now
    requires Agrees(c, s.buckets, times, key, before)
    requires Sorted(times)
    ensures Agrees(c, Collected(s.buckets, s.lastGC, now), times, key, now)
    ensures Refilled(c, BucketOf(c, Collected(s.buckets, s.lastGC, now), key, now), now)
            == Refilled(c, if times == [] then Bucket(c.burst, now) else Forever(c, times), now)
  {
    FullStart(c, now);
    if times != [] {
      ForeverTokens(c, times);
      if key !in Collected(s.buckets, s.lastGC, now) {
        IdleBucketIsFull(c, Forever(c, times), now);
      }
    }
  }

  lemma {:induction false} RunAgrees(c: Config, start: int, calls: seq<Call>, key: string)
    requires Sane(c) && InOrder(calls)
    ensures calls == [] ==> key !in StateAfter(c, start, calls).buckets && TimesOf(calls, key) == []
    ensures calls != [] ==> Agrees(c, StateAfter(c, start, calls).buckets, TimesOf(calls, key), key,
        calls[|calls| - 1].at)
  {
    if calls != [] {
      var rest, call := calls[..|calls| - 1], calls[|calls| - 1];
      RunAgrees(c, start, rest, key);
      TimesFacts(rest, key);
      var s, times := StateAfter(c, start, rest), TimesOf(rest, key);
      var before := if rest == [] then call.at else rest[|rest| - 1].at;
      AgreementAfterGC(c, s, times, key, before, call.at);
      if call.key == key {
        SameCallSameBucket(c, Collected(s.buckets, s.lastGC, call.at), times, key, call.at);
      }
    }
  }

  lemma SameCallSameBucket(c: Config, buckets: map<string, Bucket>, times: seq<int>, key: string, now: int)
    requires Refilled(c, BucketOf(c, buckets, key, now), now)
             == Refilled(c, if times == [] then Bucket(c.burst, now) else Forever(c, times), now)
    ensures AfterCall(c, BucketOf(c, buckets, key, now), now) == Forever(c, times + [now])
  {
    assert (times + [now])[..|times|] == times;
  }

  /**
   * Forgetting idle keys is invisible: in every run with a clock that never runs backwards, each
   * call gets the answer of a limiter that keeps every bucket forever and looks at nothing but
   * the earlier calls of the same key.
   */
  lemma CollectionIsInvisible(perMinute: int, start: int, calls: seq<Call>, call: Call)
    requires InOrder(calls + [call])
    ensures var c := ConfigFor(perMinute);
            Answer(c, start, calls, call) == ForeverAnswer(c, TimesOf(calls, call.key), call.at)
  {
    var c := ConfigFor(perMinute);
    ConfigSane(perMinute);
    assert forall i | 0 <= i < |calls| :: calls[i] == (calls + [call])[i];
    assert (calls + [call])[|calls|] == call;
    RunAgrees(c, start, calls, call.key);
    TimesFacts(calls, call.key);
    var before := if calls == [] then call.at else calls[|calls| - 1].at;
    AgreementAfterGC(c, StateAfter(c, start, calls), TimesOf(calls, call.key), call.key, before, call.at);
  }

  // ---------------------------------------------------------------------------------------
  // The rate bound
  // ---------------------------------------------------------------------------------------

  /** How many of the calls from position i on were granted. */
  function Granted(c: Config, times: seq<int>, i: nat): nat
    requires i <= |times|
  {
    if i == |times| then 0
    else
      var rest := times[..|times| - 1];
      Granted(c, rest, i) + (if ForeverAnswer(c, rest, times[|times| - 1]) then 1 else 0)
  }

  function Cost(granted: bool): real {
    if granted then 1.0 else 0.0
  }

  /** A call spends out of what is there and what was refilled since. */
  lemma SpendFromRefill(c: Config, b: Bucket, now: int)
    ensures Cost(Grants(Refilled(c, b, now))) + AfterCall(c, b, now).tokens <= b.tokens + Gain(c, now - b.updated)
    ensures Cost(Grants(Refilled(c, b, now))) + AfterCall(c, b, now).tokens <= c.burst
  {
  }

  lemma GrantedStep(c: Config, times: seq<int>, i: nat)
    requires i < |times|
    ensures var n := |times| - 1;
            Granted(c, times, i) as real
            == Granted(c, times[..n], i) as real + Cost(ForeverAnswer(c, times[..n], times[n]))
  {
  }

  lemma ForeverStep(c: Config, times: seq<int>)
    requires times != []
    ensures var n := |times| - 1;
            var b := if n == 0 then Bucket(c.burst, times[n]) else Forever(c, times[..n]);
            && Forever(c, times) == AfterCall(c, b, times[n])
            && ForeverAnswer(c, times[..n], times[n]) == Grants(Refilled(c, b, times[n]))
  {
  }

  /** Tokens spent plus tokens left never exceed one full bucket plus what was refilled meanwhile. */
  ghost predicate WithinBudget(c: Config, times: seq<int>, i: nat)
    requires i < |times|
  {
    Granted(c, times, i) as real + Forever(c, times).tokens <= c.burst + Gain(c, times[|times| - 1] - times[i])
  }

  lemma BudgetStep(c: Config, times: seq<int>, i: nat, n: nat)
    requires Sane(c) && Sorted(times) && n == |times| - 1 && i < n
    requires WithinBudget(c, times[..n], i)
    ensures WithinBudget(c, times, i)
  {
    var b, now := Forever(c, times[..n]), times[n];
    SortedPrefix(times);
    ForeverTokens(c, times[..n]);
    GrantedStep(c, times, i);
    ForeverStep(c, times);
    SpendFromRefill(c, b, now);
    GainAdds(c, times[n - 1] - times[i], now - times[n - 1]);
  }

  lemma BudgetStart(c: Config, times: seq<int>, n: nat)
    requires Sane(c) && Sorted(times) && n == |times| - 1
    ensures WithinBudget(c, times, n)
  {
    GrantedStep(c, times, n);
    assert Granted(c, times[..n], n) == 0;
    ForeverStep(c, times);
    SpendFromRefill(c, if n == 0 then Bucket(c.burst, times[n]) else Forever(c, times[..n]), times[n]);
    GainAdds(c, 0, 0);
  }

  lemma {:induction false} SpendingBounded(c: Config, times: seq<int>, i: nat)
    requires Sane(c) && i < |times| && Sorted(times)
    ensures WithinBudget(c, times, i)
  {
    var n := |times| - 1;
    if i == n {
      BudgetStart(c, times, n);
    } else {
      SortedPrefix(times);
      SpendingBounded(c, times[..n], i);
      BudgetStep(c, times, i, n);
    }
  }

  /** The times of the limiter's grants to a key among calls[i..]. */
  function GrantsInRun(c: Config, start: int, calls: seq<Call>, key: string, i: nat): nat
    requires i <= |calls|
  {
    if i == |calls| then 0
    else
      var rest, call := calls[..|calls| - 1], calls[|calls| - 1];
      GrantsInRun(c, start, rest, key, i) + (if call.key == key && Answer(c, start, rest, call) then 1 else 0)
  }

  lemma {:induction false} GrantsCounted(perMinute: int, start: int, calls: seq<Call>, key: string, i: nat)
    requires InOrder(calls) && i <= |calls|
    ensures var c := ConfigFor(perMinute);
            var first := |TimesOf(calls[..i], key)|;
            && first <= |TimesOf(calls, key)|
            && (i < |calls| && first < |TimesOf(calls, key)| ==> TimesOf(calls, key)[first] >= calls[i].at)
            && GrantsInRun(c, start, calls, key, i) == Granted(c, TimesOf(calls, key), first)
  {
    var c := ConfigFor(perMinute);
    if i == |calls| {
      assert calls[..i] == calls;
    } else {
      var rest, call := calls[..|calls| - 1], calls[|calls| - 1];
      GrantsCounted(perMinute, start, rest, key, i);
      assert rest[..i] == calls[..i];
      assert rest + [call] == calls;
      if call.key == key {
        CollectionIsInvisible(perMinute, start, rest, call);
        var t := TimesOf(calls, key);
        assert t[..|t| - 1] == TimesOf(rest, key);
      }
    }
  }

  lemma WindowBound(c: Config, times: seq<int>, first: nat, s: int, t: int)
    requires Sane(c) && first <= |times| && s <= t && Sorted(times)
    requires first < |times| ==> s <= times[first] && times[|times| - 1] <= t
    ensures Granted(c, times, first) as real <= c.burst + Gain(c, t - s)
  {
    GainAdds(c, 0, 0);
    GainMonotone(c, 0, t - s);
    if first < |times| {
      SpendingBounded(c, times, first);
      ForeverTokens(c, times);
      GainMonotone(c, times[|times| - 1] - times[first], t - s);
    }
  }

  /** A key's calls from position i of the run on fall between the run's times there and at its end. */
  lemma TimesWithin(perMinute: int, start: int, calls: seq<Call>, key: string, i: nat)
    requires InOrder(calls) && i < |calls|
    ensures var times, first := TimesOf(calls, key), |TimesOf(calls[..i], key)|;
            && first <= |times| && Sorted(times)
            && (first < |times| ==> calls[i].at <= times[first] && times[|times| - 1] <= calls[|calls| - 1].at)
  {
    GrantsCounted(perMinute, start, calls, key, i);
    TimesFacts(calls, key);
  }

  /** Fifteen seconds' worth of requests at once, and p a minute. */
  lemma InPlainNumbers(perMinute: int, grants: nat, ns: int)
    ensures var c, p := ConfigFor(perMinute), if perMinute <= 0 then 240 else perMinute;
      grants as real <= c.burst + Gain(c, ns) <==> grants * 60_000_000_000 <= p * (15_000_000_000 + ns)
  {
    var c, p := ConfigFor(perMinute), if perMinute <= 0 then 240 else perMinute;
    assert c.burst + Gain(c, ns) == p as real / 4.0 + ns as real / 1_000_000_000.0 * (p as real / 60.0);
    Scaled(p as real, ns as real);
    assert (p * (15_000_000_000 + ns)) as real == p as real * (15_000_000_000.0 + ns as real);
  }

  lemma Scaled(p: real, ns: real)
    ensures (p / 4.0 + ns / 1_000_000_000.0 * (p / 60.0)) * 60_000_000_000.0 == p * (15_000_000_000.0 + ns)
  {
    assert ns / 1_000_000_000.0 * (p / 60.0) * 60_000_000_000.0 == ns * p;
  }

  /**
   * In every run, with p requests per minute: the calls the limiter grants to one key between times s and t
   * number at most p/60 a second on top of p/4.
   */
  lemma GrantsAreBounded(perMinute: int, start: int, calls: seq<Call>, key: string, i: nat, s: int, t: int)
    requires InOrder(calls) && i < |calls| && s <= calls[i].at <= calls[|calls| - 1].at <= t
    ensures var p := if perMinute <= 0 then 240 else perMinute;
            GrantsInRun(ConfigFor(perMinute), start, calls, key, i) * 60_000_000_000 <= p * (15_000_000_000 + (t - s))
  {
    var c := ConfigFor(perMinute);
    ConfigSane(perMinute);
    TimesWithin(perMinute, start, calls, key, i);
    WindowBound(c, TimesOf(calls, key), |TimesOf(calls[..i], key)|, s, t);
    GrantsCounted(perMinute, start, calls, key, i);
    InPlainNumbers(perMinute, GrantsInRun(c, start, calls, key, i), t - s);
  }

  // ---------------------------------------------------------------------------------------
  // The other side: which calls are surely granted
  // ---------------------------------------------------------------------------------------

  /** However fast they come, n calls take no more than n tokens. */
  lemma {:induction false} CallsCostOneEach(c: Config, times: seq<int>)
    requires Sane(c) && times != [] && Sorted(times)
    ensures Forever(c, times).tokens >= c.burst - |times| as real
  {
    var n := |times| - 1;
    ForeverStep(c, times);
    if n == 0 {
      FullStart(c, times[n]);
    } else {
      SortedPrefix(times);
      CallsCostOneEach(c, times[..n]);
      ForeverTokens(c, times[..n]);
      GainMonotone(c, 0, times[n] - times[n - 1]);
      GainAdds(c, 0, 0);
    }
  }

  /** A key's first p/4 calls are granted, however fast they come. */
  lemma FirstCallsAreGranted(perMinute: int, start: int, calls: seq<Call>, call: Call)
    requires InOrder(calls + [call])
    requires var p := if perMinute <= 0 then 240 else perMinute; (|TimesOf(calls, call.key)| + 1) * 4 <= p
    ensures Answer(ConfigFor(perMinute), start, calls, call)
  {
    var c, times := ConfigFor(perMinute), TimesOf(calls, call.key);
    var p := if perMinute <= 0 then 240 else perMinute;
    ConfigSane(perMinute);
    CollectionIsInvisible(perMinute, start, calls, call);
    OwnTimesInOrder(calls, call);
    assert c.burst * 4.0 == p as real;
    assert c.burst - |times| as real >= 1.0;
    if times == [] {
      FullStart(c, call.at);
    } else {
      CallsCostOneEach(c, times);
      ForeverTokens(c, times);
      GainMonotone(c, 0, call.at - times[|times| - 1]);
      GainAdds(c, 0, 0);
    }
  }

  lemma OwnTimesInOrder(calls: seq<Call>, call: Call)
    requires InOrder(calls + [call])
    ensures var times := TimesOf(calls, call.key);
      Sorted(times) && (times != [] ==> times[|times| - 1] <= call.at)
  {
    assert forall i | 0 <= i < |calls| :: calls[i] == (calls + [call])[i];
    assert (calls + [call])[|calls|] == call;
    TimesFacts(calls, call.key);
  }

  /** Each call of the key comes at least 60/p seconds after the one before. */
  predicate Unhurried(times: seq<int>, p: int) {
    forall i | 0 < i < |times| :: (times[i] - times[i - 1]) * p >= 60_000_000_000
  }

  /** Such a span of time adds a token. */
  lemma SpanAddsToken(perMinute: int, p: int, ns: int)
    requires p == (if perMinute <= 0 then 240 else perMinute) && ns * p >= 60_000_000_000
    ensures Gain(ConfigFor(perMinute), ns) >= 1.0
  {
    var c := ConfigFor(perMinute);
    assert Gain(c, ns) * 60_000_000_000.0 == ns as real * p as real by {
      Scaled(p as real, ns as real);
      Scaled(p as real, 0.0);
    }
    assert (ns * p) as real == ns as real * p as real;
  }

  /** Then every call finds a full token, and takes it from a bucket that was full but for it. */
  lemma {:induction false} UnhurriedBucket(perMinute: int, p: int, times: seq<int>)
    requires p == (if perMinute <= 0 then 240 else perMinute) && p >= 4 && times != [] && Unhurried(times, p)
    ensures Forever(ConfigFor(perMinute), times).tokens == ConfigFor(perMinute).burst - 1.0
    ensures Forever(ConfigFor(perMinute), times).updated == times[|times| - 1]
  {
    var c, n := ConfigFor(perMinute), |times| - 1;
    ConfigSane(perMinute);
    assert c.burst >= 1.0;
    ForeverStep(c, times);
    if n == 0 {
      FullStart(c, times[n]);
    } else {
      UnhurriedBucket(perMinute, p, times[..n]);
      assert (times[n] - times[n - 1]) * p >= 60_000_000_000;
      SpanAddsToken(perMinute, p, times[n] - times[n - 1]);
    }
  }

  /** With p >= 4, a key whose calls lie at least 60/p seconds apart is never refused. */
  lemma UnhurriedIsNeverRefused(perMinute: int, start: int, calls: seq<Call>, call: Call)
    requires InOrder(calls + [call])
    requires var p := if perMinute <= 0 then 240 else perMinute;
      p >= 4 && Unhurried(TimesOf(calls, call.key) + [call.at], p)
    ensures Answer(ConfigFor(perMinute), start, calls, call)
  {
    var c, times := ConfigFor(perMinute), TimesOf(calls, call.key);
    var p := if perMinute <= 0 then 240 else perMinute;
    var all := times + [call.at];
    ConfigSane(perMinute);
    CollectionIsInvisible(perMinute, start, calls, call);
    assert c.burst >= 1.0;
    if times == [] {
      FullStart(c, call.at);
    } else {
      var n := |times|;
      forall i | 0 < i < n
        ensures (times[i] - times[i - 1]) * p >= 60_000_000_000
      {
        assert all[i] == times[i] && all[i - 1] == times[i - 1];
      }
      assert (all[n] - all[n - 1]) * p >= 60_000_000_000;
      UnhurriedBucket(perMinute, p, times);
      SpanAddsToken(perMinute, p, call.at - times[n - 1]);
    }
  }

  /** Below four requests per minute the bucket never holds one token, and no call is ever granted. */
  lemma {:induction false} TooSlowNeverGrants(perMinute: int)
    ensures (exists start, calls, call :: InOrder(calls + [call]) && Answer(ConfigFor(perMinute), start, calls, call))
            <==> perMinute <= 0 || perMinute >= 4
  {
    var c := ConfigFor(perMinute);
    ConfigSane(perMinute);
    if perMinute <= 0 || perMinute >= 4 {
      FullStart(c, 0);
      assert InOrder([] + [Call("k", 0)]);
      assert Answer(c, 0, [], Call("k", 0));
    } else {
      assert c.burst < 1.0;
    }
  }
}
