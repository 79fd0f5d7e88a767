/**
 * The lease protocol as a state machine: any number of workers claim due feeds, finish or fail
 * them, or crash (which is the absence of a step), in every interleaving. A finish may come from
 * a worker whose lease has already lapsed. Each write carries the clock reading `readAt` the
 * worker based the poll time on, and the clock `at` of the step itself. Admin edits and feed-pack
 * imports are steps like any other.
 */
module LeaseProtocol {
  import opened Common
  import opened Wrappers
  import opened PollDelay
  import opened FeedRegistry

  /** Why a feed failed: the fetch itself, or a body that no parser accepts. */
  datatype Cause = FetchFailed(error: FetchError) | ParseFailed

  datatype Event =
    | Claim(owner: string, limit: nat, picked: set<FeedId>)
    | Success(id: FeedId, etag: string, lastModified: string, newest: Option<int>, score: int, health: Health)
    | Release(id: FeedId, readAt: int, args: DelayArgs)
    | Failure(id: FeedId, readAt: int, args: DelayArgs, cause: Cause, quarantineAfter: int)
    | AdminEdit(id: FeedId, priority: int, tier: Tier, categoryKey: string, language: string, enabled: bool)
    | Import(entry: Entry, version: string)
    | Flag(version: string, known: set<string>)

  datatype Timed = Timed(at: int, ev: Event)

  function PlanFor(e: Event): Plan
    requires e.Failure?
  {
    match e.cause
    case FetchFailed(err) => ErrorPlan(err, Delay(e.args), e.args.failures, e.quarantineAfter)
    case ParseFailed => Plan(ParserError, Delay(e.args))
  }

  function FailureScore(e: Event): int
    requires e.Failure?
  {
    HealthScore(e.args.failures, e.cause.FetchFailed?, false)
  }

  /** The table after one store call. */
  function Apply(rows: Registry, t: Timed): Registry {
    match t.ev
    case Claim(owner, _, picked) => Claimed(rows, picked, owner, t.at)
    case Success(id, etag, lm, newest, score, health) =>
      Updated(rows, id, f => Succeeded(f, t.at, etag, lm, newest, score, health))
    case Release(id, readAt, args) =>
      Updated(rows, id, f => Released(f, t.at, readAt + Delay(args)))
    case Failure(id, readAt, args, _, _) =>
      var plan := PlanFor(t.ev);
      var score := FailureScore(t.ev);
      Updated(rows, id, f => Failed(f, t.at, args.failures, score, plan.health, readAt + plan.backoff))
    case AdminEdit(id, priority, tier, cat, lang, enabled) =>
      Updated(rows, id, f => AdminEdited(f, priority, tier, cat, lang, enabled))
    case Import(entry, version) => Upserted(rows, entry, version, t.at)
    case Flag(version, known) => Flagged(rows, version, known)
  }

  predicate Legal(d: Dialect, rows: Registry, t: Timed) {
    match t.ev
    case Claim(_, limit, picked) => Selected(d, rows, t.at, limit, picked)
    case Release(_, readAt, args) => ValidArgs(args) && readAt <= t.at
    case Failure(_, readAt, args, _, _) => ValidArgs(args) && readAt <= t.at
    case Import(entry, _) => !UpsertFails(rows, entry)
    case _ => true
  }

  predicate Step(d: Dialect, rows: Registry, t: Timed, rows': Registry) {
    Legal(d, rows, t) && rows' == Apply(rows, t)
  }

  /** states[k] is the table before evs[k]; the clock never runs backwards. */
  ghost predicate Run(d: Dialect, states: seq<Registry>, evs: seq<Timed>) {
    && |states| == |evs| + 1
    && (forall k | 0 <= k < |evs| :: Step(d, states[k], evs[k], states[k + 1]))
    && (forall k, m | 0 <= k <= m < |evs| :: evs[k].at <= evs[m].at)
  }

  predicate Claims(t: Timed, f: FeedId) {
    t.ev.Claim? && f in t.ev.picked
  }

  /** A write of f's poll time that stays clear of the two exceptions. */
  predicate SoundWrite(t: Timed, f: FeedId, skew: int) {
    match t.ev
    case Release(id, readAt, _) => id == f ==> t.at - readAt <= skew
    case Failure(id, readAt, _, cause, _) =>
      id == f ==>
        && t.at - readAt <= skew
        && (cause.FetchFailed? && OwnRetryAfter(cause.error) ==> cause.error.retryAfter >= MIN_POLL_DELAY)
    case _ => true
  }

  /** While the clock is below `until`, no claim can pick this feed. */
  predicate Shielded(f: Feed, until: int) {
    || (f.run.leaseUntil.Some? && f.run.leaseUntil.value >= until)
    || (f.run.nextPollAt.Some? && f.run.nextPollAt.value >= until)
  }

  lemma PlanBackoff(e: Event)
    requires e.Failure? && ValidArgs(e.args)
    requires e.cause.FetchFailed? && OwnRetryAfter(e.cause.error) ==> e.cause.error.retryAfter >= MIN_POLL_DELAY
    ensures PlanFor(e).backoff >= MIN_POLL_DELAY
  {
  }

  /** No step that leaves out the exceptions takes the shield away before it expires. */
  lemma ShieldKept(d: Dialect, rows: Registry, t: Timed, rows': Registry, f: FeedId, from: int, skew: int)
    requires Step(d, rows, t, rows')
    requires f in rows && 0 <= skew && from <= t.at < from + MIN_POLL_DELAY - skew
    requires Shielded(rows[f], from + MIN_POLL_DELAY - skew)
    requires SoundWrite(t, f, skew)
    ensures f in rows' && Shielded(rows'[f], from + MIN_POLL_DELAY - skew)
    ensures !Claims(t, f)
  {
    if t.ev.Failure? && t.ev.id == f {
      PlanBackoff(t.ev);
    }
  }

  lemma {:induction false} ShieldHolds(d: Dialect, states: seq<Registry>, evs: seq<Timed>, f: FeedId, i: nat, k: nat,
      skew: int)
    requires Run(d, states, evs)
    requires 0 <= skew && i < k < |evs| && Claims(evs[i], f)
    requires forall m | i < m < k :: SoundWrite(evs[m], f, skew)
    requires evs[k].at < evs[i].at + MIN_POLL_DELAY - skew
    ensures f in states[k] && Shielded(states[k][f], evs[i].at + MIN_POLL_DELAY - skew)
    decreases k
  {
    assert Step(d, states[i], evs[i], states[i + 1]);
    if k > i + 1 {
      ShieldHolds(d, states, evs, f, i, k - 1, skew);
      assert Step(d, states[k - 1], evs[k - 1], states[k]);
      ShieldKept(d, states[k - 1], evs[k - 1], states[k], f, evs[i].at, skew);
    }
  }

  /**
   * Spacing: in every run, two claims of one feed are at least two minutes apart, less the delay
   * `skew` between a worker's clock reading and its write, unless a 429 with a Retry-After below
   * two minutes came between them.
   */
  lemma ClaimsAreSpaced(d: Dialect, states: seq<Registry>, evs: seq<Timed>, f: FeedId, i: nat, j: nat, skew: int)
    requires Run(d, states, evs)
    requires 0 <= skew && i < j < |evs| && Claims(evs[i], f) && Claims(evs[j], f)
    requires forall m | i < m < j :: SoundWrite(evs[m], f, skew)
    ensures evs[j].at - evs[i].at >= 120_000_000_000 - skew
  {
    assert Step(d, states[j], evs[j], states[j + 1]);
    if evs[j].at < evs[i].at + MIN_POLL_DELAY - skew {
      ShieldHolds(d, states, evs, f, i, j, skew);
      assert false;
    }
  }

  // ---------------------------------------------------------------------------------------
  // The exceptions are real, and they are the only ones
  // ---------------------------------------------------------------------------------------

  /** The poll time a finish or a failure writes. */
  function WrittenPoll(e: Event): int
    requires e.Release? || e.Failure?
  {
    if e.Release? then e.readAt + Delay(e.args) else e.readAt + PlanFor(e).backoff
  }

  lemma EligibleAfterWrite(d: Dialect, rows: Registry, claim: Timed, write: Timed, f: FeedId, now: int)
    requires Legal(d, rows, claim) && Claims(claim, f)
    requires (write.ev.Release? || write.ev.Failure?) && write.ev.id == f
    ensures var after := Apply(Apply(rows, claim), write);
      f in after && (Eligible(d, after[f], now) <==>
        WrittenPoll(write.ev) <= now && !(write.ev.Failure? && PlanFor(write.ev).health == Quarantined))
  {
    assert f in EligibleIds(d, rows, claim.at);
  }

  /** A claim with room for everything picks everything that is eligible. */
  lemma RoomyClaim(d: Dialect, rows: Registry, now: int) returns (claim: Timed)
    ensures claim.at == now && Legal(d, rows, claim) && claim.ev.Claim? && claim.ev.picked == EligibleIds(d, rows, now)
  {
    var all := EligibleIds(d, rows, now);
    claim := Timed(now, Claim("w", |all|, all));
  }

  /**
   * When the next thing that happens to a claimed feed is a write, the feed can be claimed again
   * exactly once the written poll time has passed, unless the write quarantines it. So what breaks a
   * two-minute gap is precisely a write whose poll time lies less than two minutes after the claim.
   */
  lemma EarliestReclaim(d: Dialect, rows: Registry, claim: Timed, write: Timed, f: FeedId, now: int)
    requires Legal(d, rows, claim) && Claims(claim, f)
    requires (write.ev.Release? || write.ev.Failure?) && write.ev.id == f
    ensures (exists again: Timed ::
        again.at == now && Claims(again, f) && Legal(d, Apply(Apply(rows, claim), write), again))
            <==> WrittenPoll(write.ev) <= now && !(write.ev.Failure? && PlanFor(write.ev).health == Quarantined)
  {
    var after := Apply(Apply(rows, claim), write);
    EligibleAfterWrite(d, rows, claim, write, f, now);
    var all := RoomyClaim(d, after, now);
    assert Eligible(d, after[f], now) ==> Claims(all, f);
    forall again: Timed | again.at == now && Claims(again, f) && Legal(d, after, again)
      ensures Eligible(d, after[f], now)
    {
      assert f in EligibleIds(d, after, now);
    }
  }

  /** Three legal steps: a claim of f, a write to f, and another claim of f. */
  ghost predicate Reclaimed(d: Dialect, rows: Registry, claim: Timed, write: Timed, again: Timed, f: FeedId) {
    && Legal(d, rows, claim) && Claims(claim, f)
    && Legal(d, Apply(rows, claim), write)
    && Legal(d, Apply(Apply(rows, claim), write), again) && Claims(again, f)
  }

  /** A 429 with "Retry-After: 1" lets any feed that can be claimed be claimed again one second later. */
  lemma ShortRetryAfterBreaksSpacing(d: Dialect, rows: Registry, f: FeedId, now: int)
    returns (claim: Timed, write: Timed, again: Timed)
    requires f in rows && Eligible(d, rows[f], now)
    ensures Reclaimed(d, rows, claim, write, again, f)
    ensures claim.at == write.at == now && again.at == now + SECOND && !SoundWrite(write, f, 0)
  {
    claim := RoomyClaim(d, rows, now);
    var args := DelayArgs(rows[f].meta.tier, 1, 0, false, 0);
    write := Timed(now, Failure(f, now, args, FetchFailed(Http(429, SECOND)), 12));
    EarliestReclaim(d, rows, claim, write, f, now + SECOND);
    assert PlanFor(write.ev).backoff == SECOND;
    again :| again.at == now + SECOND && Claims(again, f) && Legal(d, Apply(Apply(rows, claim), write), again);
  }

  // ---------------------------------------------------------------------------------------
  // Bounded waiting
  // ---------------------------------------------------------------------------------------

  /** The claims at positions c[0] < c[1] < … of a run, each of up to `limit` feeds or more. */
  ghost predicate ClaimSeries(evs: seq<Timed>, c: seq<nat>, limit: nat) {
    && (forall m | 0 <= m < |c| :: c[m] < |evs| && evs[c[m]].ev.Claim? && evs[c[m]].ev.limit >= limit)
    && (forall m, n | 0 <= m < n < |c| :: c[m] < c[n])
  }

  /** Every write inside the series is clear of the exceptions, for every feed. */
  ghost predicate QuietSeries(evs: seq<Timed>, c: seq<nat>, skew: int)
    requires ClaimSeries(evs, c, 0)
  {
    forall m, n, k, f: FeedId | 0 <= m < n < |c| && c[m] < k < c[n] :: SoundWrite(evs[k], f, skew)
  }

  /** All feeds picked by the first n claims of the series. */
  ghost function PickedBy(evs: seq<Timed>, c: seq<nat>, n: nat): set<FeedId>
    requires ClaimSeries(evs, c, 0) && n <= |c|
  {
    if n == 0 then {} else PickedBy(evs, c, n - 1) + evs[c[n - 1]].ev.picked
  }

  lemma PickedByMember(evs: seq<Timed>, c: seq<nat>, n: nat, f: FeedId) returns (m: nat)
    requires ClaimSeries(evs, c, 0) && n <= |c| && f in PickedBy(evs, c, n)
    ensures m < n && f in evs[c[m]].ev.picked
  {
    if f in evs[c[n - 1]].ev.picked {
      m := n - 1;
    } else {
      m := PickedByMember(evs, c, n - 1, f);
    }
  }

  /** Nothing is ever deleted: the feeds of one state are among those of any later one. */
  lemma {:induction false} KeysGrow(d: Dialect, states: seq<Registry>, evs: seq<Timed>, k: nat, m: nat)
    requires Run(d, states, evs) && k <= m <= |evs|
    ensures states[k].Keys <= states[m].Keys
    decreases m
  {
    if k < m {
      KeysGrow(d, states, evs, k, m - 1);
      assert Step(d, states[m - 1], evs[m - 1], states[m]);
    }
  }

  /** The waiting feed is eligible at the m-th claim of the series. */
  ghost predicate StillWaiting(d: Dialect, states: seq<Registry>, evs: seq<Timed>, c: seq<nat>, f: FeedId, m: nat)
    requires ClaimSeries(evs, c, 0) && |states| == |evs| + 1 && m < |c|
  {
    f in states[c[m]] && Eligible(d, states[c[m]][f], evs[c[m]].at)
  }

  /** A claim that passes over an eligible feed has used up its whole limit. */
  lemma PassedOverMeansFull(d: Dialect, rows: Registry, now: int, limit: nat, picked: set<FeedId>, f: FeedId)
    requires Selected(d, rows, now, limit, picked)
    requires f in rows && Eligible(d, rows[f], now) && f !in picked
    ensures |picked| == limit
    ensures forall p | p in picked :: !Before(rows[f], rows[p])
  {
    assert f in EligibleIds(d, rows, now);
  }

  /** Inside the stretch, the n-th claim repeats none of the picks before it. */
  lemma PicksAreNew(d: Dialect, states: seq<Registry>, evs: seq<Timed>, c: seq<nat>, n: nat, skew: int)
    requires Run(d, states, evs) && ClaimSeries(evs, c, 0) && n < |c| && 0 <= skew
    requires QuietSeries(evs, c, skew)
    requires evs[c[|c| - 1]].at - evs[c[0]].at < MIN_POLL_DELAY - skew
    ensures PickedBy(evs, c, n) !! evs[c[n]].ev.picked
  {
    forall g | g in PickedBy(evs, c, n)
      ensures g !in evs[c[n]].ev.picked
    {
      var m := PickedByMember(evs, c, n, g);
      SeriesStretch(d, states, evs, c, m, n);
      if g in evs[c[n]].ev.picked {
        forall k | c[m] < k < c[n] ensures SoundWrite(evs[k], g, skew) {}
        ClaimsAreSpaced(d, states, evs, g, c[m], c[n], skew);
        assert false;
      }
    }
  }

  lemma SeriesStretch(d: Dialect, states: seq<Registry>, evs: seq<Timed>, c: seq<nat>, m: nat, n: nat)
    requires Run(d, states, evs) && ClaimSeries(evs, c, 0) && m < n < |c|
    ensures evs[c[n]].at - evs[c[m]].at <= evs[c[|c| - 1]].at - evs[c[0]].at
  {
    assert c[0] <= c[m] && c[n] <= c[|c| - 1];
  }

  /** Disjoint picks add up. */
  lemma Pile(before: set<FeedId>, now: set<FeedId>, n: nat, limit: nat)
    requires n > 0 && before !! now && |before| >= (n - 1) * limit && |now| >= limit
    ensures |before + now| >= n * limit
  {
    assert |before + now| == |before| + |now|;
    assert n * limit == (n - 1) * limit + limit;
  }

  /** The n-th claim passes over f, so it takes as many other feeds as it may. */
  lemma PicksOfOne(d: Dialect, states: seq<Registry>, evs: seq<Timed>, c: seq<nat>, n: nat, f: FeedId, limit: nat)
    requires Run(d, states, evs) && ClaimSeries(evs, c, limit) && n < |c|
    requires StillWaiting(d, states, evs, c, f, n) && f !in evs[c[n]].ev.picked
    ensures |evs[c[n]].ev.picked| >= limit
    ensures evs[c[n]].ev.picked <= states[|evs|].Keys - {f}
  {
    var k := c[n];
    assert Step(d, states[k], evs[k], states[k + 1]);
    PassedOverMeansFull(d, states[k], evs[k].at, evs[k].ev.limit, evs[k].ev.picked, f);
    KeysGrow(d, states, evs, k, |evs|);
  }

  /** f stays eligible and unpicked through the first n claims. */
  ghost predicate PassedOver(d: Dialect, states: seq<Registry>, evs: seq<Timed>, c: seq<nat>, n: nat, f: FeedId)
    requires ClaimSeries(evs, c, 0) && |states| == |evs| + 1 && n <= |c|
  {
    forall m | 0 <= m < n :: StillWaiting(d, states, evs, c, f, m) && f !in evs[c[m]].ev.picked
  }

  lemma {:induction false} PickedOthers(d: Dialect, states: seq<Registry>, evs: seq<Timed>, c: seq<nat>, n: nat,
                                        f: FeedId, limit: nat)
    requires Run(d, states, evs) && ClaimSeries(evs, c, limit) && n <= |c| && PassedOver(d, states, evs, c, n, f)
    ensures PickedBy(evs, c, n) <= states[|evs|].Keys - {f}
  {
    if n > 0 {
      PickedOthers(d, states, evs, c, n - 1, f, limit);
      PicksOfOne(d, states, evs, c, n - 1, f, limit);
    }
  }

  /** None of the first n claims repeats a pick. */
  ghost predicate PicksDiffer(evs: seq<Timed>, c: seq<nat>, n: nat)
    requires ClaimSeries(evs, c, 0) && n <= |c|
  {
    n == 0 || (PicksDiffer(evs, c, n - 1) && PickedBy(evs, c, n - 1) !! evs[c[n - 1]].ev.picked)
  }

  lemma {:induction false} SeriesPicksDiffer(d: Dialect, states: seq<Registry>, evs: seq<Timed>, c: seq<nat>, n: nat,
                                             skew: int)
    requires Run(d, states, evs) && ClaimSeries(evs, c, 0) && n <= |c| && 0 <= skew
    requires QuietSeries(evs, c, skew)
    requires |c| > 0 ==> evs[c[|c| - 1]].at - evs[c[0]].at < MIN_POLL_DELAY - skew
    ensures PicksDiffer(evs, c, n)
  {
    if n > 0 {
      SeriesPicksDiffer(d, states, evs, c, n - 1, skew);
      PicksAreNew(d, states, evs, c, n - 1, skew);
    }
  }

  lemma {:induction false} PickedMany(d: Dialect, states: seq<Registry>, evs: seq<Timed>, c: seq<nat>, n: nat,
                                      f: FeedId, limit: nat)
    requires Run(d, states, evs) && ClaimSeries(evs, c, limit) && n <= |c| && PassedOver(d, states, evs, c, n, f)
    requires PicksDiffer(evs, c, n)
    ensures |PickedBy(evs, c, n)| >= n * limit
  {
    if n > 0 {
      PickedMany(d, states, evs, c, n - 1, f, limit);
      PicksOfOne(d, states, evs, c, n - 1, f, limit);
      Pile(PickedBy(evs, c, n - 1), evs[c[n - 1]].ev.picked, n, limit);
    }
  }

  /** While f goes unpicked the picks pile up: n claims take n * limit different other feeds. */
  lemma PicksPileUp(d: Dialect, states: seq<Registry>, evs: seq<Timed>, c: seq<nat>, n: nat,
                    f: FeedId, limit: nat, skew: int)
    requires Run(d, states, evs) && ClaimSeries(evs, c, limit) && n <= |c| && 0 <= skew
    requires QuietSeries(evs, c, skew)
    requires |c| > 0 ==> evs[c[|c| - 1]].at - evs[c[0]].at < MIN_POLL_DELAY - skew
    requires PassedOver(d, states, evs, c, n, f)
    ensures PickedBy(evs, c, n) <= states[|evs|].Keys - {f}
    ensures |PickedBy(evs, c, n)| >= n * limit
  {
    SeriesPicksDiffer(d, states, evs, c, n, skew);
    PickedOthers(d, states, evs, c, n, f, limit);
    PickedMany(d, states, evs, c, n, f, limit);
  }

  lemma DivisionRoom(n: nat, limit: nat)
    requires n >= 1 && limit >= 1
    ensures ((n - 1) / limit + 1) * limit > n - 1
  {
    var q := (n - 1) / limit;
    assert n - 1 == q * limit + (n - 1) % limit;
    assert (q + 1) * limit == q * limit + limit;
  }

  /** The subset has no more elements than the set it is taken from. */
  lemma SubsetSize(a: set<FeedId>, b: set<FeedId>)
    requires a <= b
    ensures |a| <= |b|
  {
    assert b == a + (b - a);
  }

  /**
   * Bounded waiting: with n registered feeds (those imported meanwhile included) and claims of up to
   * `limit` (or more) feeds, a feed that is eligible until it is picked is picked within
   * floor((n-1)/limit) + 1 claims falling inside two minutes (less the skew), whatever its priority.
   */
  lemma WaitIsBounded(d: Dialect, states: seq<Registry>, evs: seq<Timed>, c: seq<nat>, f: FeedId, limit: nat, skew: int)
    requires Run(d, states, evs) && ClaimSeries(evs, c, limit) && 0 <= skew && limit >= 1
    requires f in states[0] && 0 < |c| == (|states[|evs|]| - 1) / limit + 1
    requires QuietSeries(evs, c, skew)
    requires evs[c[|c| - 1]].at - evs[c[0]].at < MIN_POLL_DELAY - skew
    requires forall m | 0 <= m < |c| ::
               (forall k | 0 <= k < m :: f !in evs[c[k]].ev.picked) ==> StillWaiting(d, states, evs, c, f, m)
    ensures exists m | 0 <= m < |c| :: f in evs[c[m]].ev.picked
  {
    if forall m | 0 <= m < |c| :: f !in evs[c[m]].ev.picked {
      forall m | 0 <= m < |c| ensures StillWaiting(d, states, evs, c, f, m) {}
      PicksPileUp(d, states, evs, c, |c|, f, limit, skew);
      KeysGrow(d, states, evs, 0, |evs|);
      DivisionRoom(|states[|evs|]|, limit);
      SubsetSize(PickedBy(evs, c, |c|), states[|evs|].Keys - {f});
      assert false;
    }
  }
}
