/**
 * One worker's handling of a feed it has claimed (ingest/pipeline.go): which store calls it makes,
 * in which order. The calls are steps of the lease protocol, so its run-wide results apply to
 * any interleaving of workers.
 */
module IngestWorker {
  import opened Common
  import opened Wrappers
  import opened PollDelay
  import opened FeedRegistry
  import opened LeaseProtocol

  /** What the fetch gave: a body is usable when it parsed or at least yielded candidates. */
  datatype Outcome =
    | NotModified
    | Failed(error: FetchError)
    | Body(usable: bool, items: nat, etag: string, lastModified: string, newest: Option<int>)

  /** The clock readings of one run, in the order they are taken, and the jitter draw. */
  datatype Clock = Clock(staleAt: int, markAt: int, readAt: int, writeAt: int, jitter: int)

  predicate ValidClock(c: Clock) {
    c.staleAt <= c.markAt <= c.readAt <= c.writeAt && 0 <= c.jitter < 1000
  }

  function StaleWindow(tier: Tier): int {
    match tier
    case Breaking => 24 * HOUR
    case High => 24 * HOUR
    case Normal => 72 * HOUR
    case _ => 14 * 24 * HOUR
  }

  lemma StaleWindows()
    ensures StaleWindow(Breaking) == StaleWindow(High) == 86_400_000_000_000
    ensures StaleWindow(Normal) == 259_200_000_000_000
    ensures StaleWindow(Slow) == StaleWindow(Opportunity) == StaleWindow(OtherTier) == 1_209_600_000_000_000
  {
  }

  // ---------------------------------------------------------------------------------------
  // What a run leaves in the feed's row, column by column
  // ---------------------------------------------------------------------------------------

  /** Released at the end of the run, with a poll time; the columns an import owns are as before. */
  predicate RowReleased(f: Feed, g: Feed, clock: Clock, nextPoll: int) {
    && g.run.leaseOwner == None && g.run.leaseUntil == None
    && g.run.lastCheckedAt == Some(clock.writeAt) && g.run.nextPollAt == Some(nextPoll)
    && g.(run := f.run) == f
  }

  /** A success: no failures any more; etag, last-modified and newest item are new or kept. */
  predicate RowSucceeded(f: Feed, g: Feed, clock: Clock, etag: string, lastModified: string, newest: Option<int>) {
    && g.run.failures == 0 && g.run.lastSuccessAt == Some(clock.markAt)
    && g.run.etag == (if etag != "" then etag else f.run.etag)
    && g.run.lastModified == (if lastModified != "" then lastModified else f.run.lastModified)
    && g.run.newestItemAt == (if newest.Some? then newest else f.run.newestItemAt)
  }

  /** A failure: what was known of the last success stays. */
  predicate RowFailed(f: Feed, g: Feed, failures: int) {
    && g.run.failures == failures && g.run.lastSuccessAt == f.run.lastSuccessAt
    && g.run.etag == f.run.etag && g.run.lastModified == f.run.lastModified
    && g.run.newestItemAt == f.run.newestItemAt
  }

  /** After a body: nothing in it, nothing new enough in it, or all well. */
  predicate BodyHealth(g: Feed, tier: Tier, items: nat, newest: Option<int>, staleAt: int) {
    var stale := newest.Some? && staleAt - newest.value > StaleWindow(tier);
    && g.run.health == (if items == 0 then Empty else if stale then Stale else Healthy)
    && g.run.healthScore == (if stale then 80 else 100)
  }

  /** After a failed fetch or parse: what the error says, and 12 off the score per failure. */
  predicate FailureHealth(g: Feed, failures: int, base: int, health: Health) {
    g.run.health == health && g.run.healthScore == if base - 12 * failures < 0 then 0 else base - 12 * failures
  }

  /** No other row is touched. */
  predicate OnlyRow(rows: Registry, after: Registry, id: FeedId) {
    after.Keys == rows.Keys && forall other | other in rows && other != id :: after[other] == rows[other]
  }

  /**
   * The row f that the table held, and the row g it holds after a run for the feed as it was claimed.
   * The next poll follows from the tier, the items found, and the failures: none after a body, those the
   * feed had after an unchanged answer, one more after a failure.
   */
  predicate RowAfter(f: Feed, g: Feed, feed: Feed, outcome: Outcome, clock: Clock, adaptive: bool,
      quarantineAfter: int) {
    var tier, failures := feed.meta.tier, feed.run.failures;
    var wait := (items: int, failed: int) => Delay(DelayArgs(tier, failed, items, adaptive, clock.jitter));
    match outcome
    case NotModified =>
      && RowSucceeded(f, g, clock, feed.run.etag, feed.run.lastModified, None)
      && g.run.health == Healthy && g.run.healthScore == 100
      && RowReleased(f, g, clock, clock.readAt + wait(0, failures))
    case Body(usable, items, etag, lastModified, newest) =>
      if usable then
        && RowSucceeded(f, g, clock, etag, lastModified, newest)
        && BodyHealth(g, tier, items, newest, clock.staleAt)
        && RowReleased(f, g, clock, clock.readAt + wait(items, 0))
      else
        && RowFailed(f, g, failures + 1) && FailureHealth(g, failures + 1, 65, ParserError)
        && RowReleased(f, g, clock, clock.readAt + wait(0, failures + 1))
    case Failed(e) =>
      var plan := ErrorPlan(e, wait(0, failures + 1), failures + 1, quarantineAfter);
      && RowFailed(f, g, failures + 1) && FailureHealth(g, failures + 1, 100, plan.health)
      && RowReleased(f, g, clock, clock.readAt + plan.backoff)
  }

  function Replay(rows: Registry, calls: seq<Timed>): Registry {
    if calls == [] then rows else Apply(Replay(rows, calls[..|calls| - 1]), calls[|calls| - 1])
  }

  /** The call that ends a run: it clears the lease and writes the next poll time. */
  predicate Finishes(t: Timed, id: FeedId) {
    (t.ev.Release? || t.ev.Failure?) && t.ev.id == id
  }

  /**
   * The calls are legal steps of the protocol, the last of which releases the feed after at most one
   * success record; and they are clear of the spacing exception unless a 429 asked for less than two minutes.
   */
  ghost predicate KeepsProtocol(d: Dialect, rows: Registry, after: Registry, calls: seq<Timed>, feed: Feed,
      outcome: Outcome, clock: Clock) {
    && after == Replay(rows, calls)
    && 1 <= |calls| <= 2 && Finishes(calls[|calls| - 1], feed.id)
    && (forall k | 0 <= k < |calls| - 1 :: calls[k].ev.Success? && calls[k].ev.id == feed.id)
    && (forall k | 0 <= k < |calls| :: Legal(d, after, calls[k]))
    && (calls[|calls| - 1].ev.Failure? <==> outcome.Failed? || (outcome.Body? && !outcome.usable))
    && (calls[|calls| - 1].ev.Failure? ==> calls[|calls| - 1].ev.args.failures == feed.run.failures + 1)
    && ((forall k | 0 <= k < |calls| :: SoundWrite(calls[k], feed.id, clock.writeAt - clock.readAt))
        <==> !(outcome.Failed? && OwnRetryAfter(outcome.error) && outcome.error.retryAfter < MIN_POLL_DELAY))
  }

  class Pipeline {
    const store: FeedStore
    const adaptive: bool
    const quarantineAfter: int

    constructor (store: FeedStore, adaptive: bool, quarantineAfter: int)
      ensures this.store == store && this.adaptive == adaptive
      ensures this.quarantineAfter == if quarantineAfter <= 0 then 12 else quarantineAfter
    {
      this.store := store;
      this.adaptive := adaptive;
      this.quarantineAfter := if quarantineAfter <= 0 then 12 else quarantineAfter;
    }

    method ScheduleNext(feed: Feed, itemCount: int, failures: int, clock: Clock) returns (call: Timed)
      requires ValidClock(clock)
      modifies store
      ensures call == Timed(clock.writeAt,
          Release(feed.id, clock.readAt, DelayArgs(feed.meta.tier, failures, itemCount, adaptive, clock.jitter)))
      ensures store.rows == Apply(old(store.rows), call)
    {
      var delay := NextPollDelay(feed.meta.tier, failures, itemCount, adaptive, clock.jitter);
      call := Timed(clock.writeAt, Release(feed.id, clock.readAt,
          DelayArgs(feed.meta.tier, failures, itemCount, adaptive, clock.jitter)));
      store.ReleaseFeed(feed.id, clock.readAt + delay, clock.writeAt);
      assert store.rows == Apply(old(store.rows), call);
    }

    /** A failed fetch or parse: one write that also backs off. */
    method Fail(feed: Feed, cause: Cause, clock: Clock) returns (call: Timed)
      requires ValidClock(clock)
      modifies store
      ensures call == FailureCall(feed, cause, clock, adaptive, quarantineAfter)
      ensures store.rows == Apply(old(store.rows), call)
    {
      var args := DelayArgs(feed.meta.tier, feed.run.failures + 1, 0, adaptive, clock.jitter);
      call := Timed(clock.writeAt, Failure(feed.id, clock.readAt, args, cause, quarantineAfter));
      var plan;
      match cause {
        case FetchFailed(e) =>
          plan := HandleFetchError(e, args, quarantineAfter);
        case ParseFailed =>
          var delay := NextPollDelay(args.tier, args.failures, 0, adaptive, clock.jitter);
          plan := Plan(ParserError, delay);
      }
      var score := HealthScore(args.failures, cause.FetchFailed?, false);
      store.MarkFeedFailure(feed.id, args.failures, score, plan.health, clock.readAt + plan.backoff, clock.writeAt);
      assert store.rows == Apply(old(store.rows), call);
    }

    /** A good fetch: the success record, then the release. */
    method Succeed(feed: Feed, etag: string, lastModified: string, newest: Option<int>, score: int, status: Health,
        itemCount: int, failures: int, clock: Clock)
      returns (calls: seq<Timed>)
      requires ValidClock(clock)
      modifies store
      ensures calls == [
        Timed(clock.markAt, Success(feed.id, etag, lastModified, newest, score, status)),
        Timed(clock.writeAt,
          Release(feed.id, clock.readAt, DelayArgs(feed.meta.tier, failures, itemCount, adaptive, clock.jitter)))]
      ensures store.rows == Apply(Apply(old(store.rows), calls[0]), calls[1])
    {
      var first := Timed(clock.markAt, Success(feed.id, etag, lastModified, newest, score, status));
      store.MarkFeedSuccess(feed.id, etag, lastModified, newest, score, status, clock.markAt);
      assert store.rows == Apply(old(store.rows), first);
      var last := ScheduleNext(feed, itemCount, failures, clock);
      calls := [first, last];
    }

    /**
     * Handles one claimed feed. Whatever the outcome, the last call releases the feed, and the
     * calls keep the spacing result's side conditions unless a 429 asked for less than two minutes.
     */
    method ProcessFeed(feed: Feed, outcome: Outcome, clock: Clock) returns (calls: seq<Timed>)
      requires ValidClock(clock)
      modifies store
      ensures KeepsProtocol(store.dialect, old(store.rows), store.rows, calls, feed, outcome, clock)
      // What it leaves in the table.
      ensures OnlyRow(old(store.rows), store.rows, feed.id)
      ensures feed.id in store.rows ==>
                RowAfter(old(store.rows)[feed.id], store.rows[feed.id], feed, outcome, clock, adaptive, quarantineAfter)
    {
      ghost var rows := store.rows;
      match outcome {
        case NotModified =>
          var score := HealthScore(0, true, false);
          var tag, modified := feed.run.etag, feed.run.lastModified;
          calls := Succeed(feed, tag, modified, None, score, Healthy, 0, feed.run.failures, clock);
          AfterNotModified(store.dialect, rows, calls, feed, clock, adaptive, quarantineAfter);
        case Failed(e) =>
          var call := Fail(feed, FetchFailed(e), clock);
          calls := [call];
          AfterFailedFetch(store.dialect, rows, call, feed, e, clock, adaptive, quarantineAfter);
        case Body(usable, items, etag, lastModified, newest) =>
          if !usable {
            var call := Fail(feed, ParseFailed, clock);
            calls := [call];
            AfterBadBody(store.dialect, rows, call, feed, outcome, clock, adaptive, quarantineAfter);
            return;
          }
          var stale := newest.Some? && clock.staleAt - newest.value > StaleWindow(feed.meta.tier);
          var status := Healthy;
          if items == 0 {
            status := Empty;
          } else if stale {
            status := Stale;
          }
          var score := HealthScore(0, true, stale);
          calls := Succeed(feed, etag, lastModified, newest, score, status, items, 0, clock);
          AfterBody(store.dialect, rows, calls, feed, outcome, clock, adaptive, quarantineAfter);
      }
    }
  }

  lemma FailureKeepsProtocol(d: Dialect, rows: Registry, t: Timed, feed: Feed, outcome: Outcome, clock: Clock)
    requires ValidClock(clock) && t.at == clock.writeAt && t.ev.Failure? && t.ev.id == feed.id
    requires t.ev.readAt == clock.readAt && ValidArgs(t.ev.args) && t.ev.args.failures == feed.run.failures + 1
    requires match outcome
             case Failed(e) => t.ev.cause == FetchFailed(e)
             case Body(usable, _, _, _, _) => !usable && t.ev.cause == ParseFailed
             case NotModified => false
    ensures KeepsProtocol(d, rows, Apply(rows, t), [t], feed, outcome, clock)
  {
    ReplayOne(rows, t);
  }

  lemma SuccessKeepsProtocol(d: Dialect, rows: Registry, calls: seq<Timed>, feed: Feed, outcome: Outcome, clock: Clock)
    requires ValidClock(clock) && |calls| == 2
    requires calls[0].at == clock.markAt && calls[0].ev.Success? && calls[0].ev.id == feed.id
    requires calls[1].at == clock.writeAt && calls[1].ev.Release? && calls[1].ev.id == feed.id
    requires calls[1].ev.readAt == clock.readAt && ValidArgs(calls[1].ev.args)
    requires !outcome.Failed? && (outcome.Body? ==> outcome.usable)
    ensures KeepsProtocol(d, rows, Apply(Apply(rows, calls[0]), calls[1]), calls, feed, outcome, clock)
  {
    assert calls == [calls[0], calls[1]];
    ReplayTwo(rows, calls[0], calls[1]);
  }

  /** The columns after a failure. */
  lemma FailedRow(rows: Registry, t: Timed, clock: Clock)
    requires t.ev.Failure? && t.at == clock.writeAt
    ensures OnlyRow(rows, Apply(rows, t), t.ev.id)
    ensures t.ev.id in rows ==>
              var f, g, failures := rows[t.ev.id], Apply(rows, t)[t.ev.id], t.ev.args.failures;
              && RowFailed(f, g, failures)
              && FailureHealth(g, failures, if t.ev.cause.FetchFailed? then 100 else 65, PlanFor(t.ev).health)
              && RowReleased(f, g, clock, t.ev.readAt + PlanFor(t.ev).backoff)
  {
  }

  /** The columns after a success and a release. */
  lemma SucceededRow(rows: Registry, a: Timed, b: Timed, clock: Clock)
    requires a.ev.Success? && b.ev.Release? && a.ev.id == b.ev.id && a.at == clock.markAt && b.at == clock.writeAt
    ensures OnlyRow(rows, Apply(Apply(rows, a), b), a.ev.id)
    ensures a.ev.id in rows ==>
              var f, g := rows[a.ev.id], Apply(Apply(rows, a), b)[a.ev.id];
              && RowSucceeded(f, g, clock, a.ev.etag, a.ev.lastModified, a.ev.newest)
              && g.run.health == a.ev.health && g.run.healthScore == a.ev.score
              && RowReleased(f, g, clock, b.ev.readAt + Delay(b.ev.args))
  {
  }

  /** Everything that is promised of one run. */
  ghost predicate Handled(d: Dialect, rows: Registry, after: Registry, calls: seq<Timed>, feed: Feed, outcome: Outcome,
      clock: Clock, adaptive: bool, quarantineAfter: int) {
    && KeepsProtocol(d, rows, after, calls, feed, outcome, clock)
    && OnlyRow(rows, after, feed.id)
    && (feed.id in after ==> RowAfter(rows[feed.id], after[feed.id], feed, outcome, clock, adaptive, quarantineAfter))
  }

  /** The failure call as it is made. */
  function FailureCall(feed: Feed, cause: Cause, clock: Clock, adaptive: bool, quarantineAfter: int): Timed {
    Timed(clock.writeAt,
      Failure(feed.id, clock.readAt, DelayArgs(feed.meta.tier, feed.run.failures + 1, 0, adaptive, clock.jitter), cause,
              quarantineAfter))
  }

  lemma AfterFailedFetch(d: Dialect, rows: Registry, t: Timed, feed: Feed, e: FetchError, clock: Clock,
      adaptive: bool, quarantineAfter: int)
    requires ValidClock(clock) && t == FailureCall(feed, FetchFailed(e), clock, adaptive, quarantineAfter)
    ensures Handled(d, rows, Apply(rows, t), [t], feed, Outcome.Failed(e), clock, adaptive, quarantineAfter)
  {
    FailureKeepsProtocol(d, rows, t, feed, Outcome.Failed(e), clock);
    FailedRow(rows, t, clock);
  }

  lemma AfterBadBody(d: Dialect, rows: Registry, t: Timed, feed: Feed, outcome: Outcome, clock: Clock, adaptive: bool,
      quarantineAfter: int)
    requires ValidClock(clock) && t == FailureCall(feed, ParseFailed, clock, adaptive, quarantineAfter)
    requires outcome.Body? && !outcome.usable
    ensures Handled(d, rows, Apply(rows, t), [t], feed, outcome, clock, adaptive, quarantineAfter)
  {
    FailureKeepsProtocol(d, rows, t, feed, outcome, clock);
    FailedRow(rows, t, clock);
  }

  lemma AfterNotModified(d: Dialect, rows: Registry, calls: seq<Timed>, feed: Feed, clock: Clock, adaptive: bool,
      quarantineAfter: int)
    requires ValidClock(clock) && |calls| == 2
    requires calls[0] == Timed(clock.markAt,
                           Success(feed.id, feed.run.etag, feed.run.lastModified, None, 100, Healthy))
    requires calls[1] == Timed(clock.writeAt, Release(feed.id, clock.readAt,
                           DelayArgs(feed.meta.tier, feed.run.failures, 0, adaptive, clock.jitter)))
    ensures Handled(d, rows, Apply(Apply(rows, calls[0]), calls[1]), calls, feed, NotModified, clock, adaptive,
        quarantineAfter)
  {
    SuccessKeepsProtocol(d, rows, calls, feed, NotModified, clock);
    SucceededRow(rows, calls[0], calls[1], clock);
  }

  lemma AfterBody(d: Dialect, rows: Registry, calls: seq<Timed>, feed: Feed, outcome: Outcome, clock: Clock,
      adaptive: bool, quarantineAfter: int)
    requires ValidClock(clock) && |calls| == 2 && outcome.Body? && outcome.usable
    requires var stale := outcome.newest.Some? && clock.staleAt - outcome.newest.value > StaleWindow(feed.meta.tier);
      calls[0] == Timed(clock.markAt,
        Success(feed.id, outcome.etag, outcome.lastModified, outcome.newest, if stale then 80 else 100,
                if outcome.items == 0 then Empty else if stale then Stale else Healthy))
    requires calls[1] == Timed(clock.writeAt, Release(feed.id, clock.readAt,
                           DelayArgs(feed.meta.tier, 0, outcome.items, adaptive, clock.jitter)))
    ensures Handled(d, rows, Apply(Apply(rows, calls[0]), calls[1]), calls, feed, outcome, clock, adaptive,
        quarantineAfter)
  {
    SuccessKeepsProtocol(d, rows, calls, feed, outcome, clock);
    SucceededRow(rows, calls[0], calls[1], clock);
  }

  lemma ReplayOne(rows: Registry, a: Timed)
    ensures Replay(rows, [a]) == Apply(rows, a)
  {
    assert [a][..0] == [];
  }

  lemma ReplayTwo(rows: Registry, a: Timed, b: Timed)
    ensures Replay(rows, [a, b]) == Apply(Apply(rows, a), b)
  {
    assert [a, b][..1] == [a];
    ReplayOne(rows, a);
  }
}
