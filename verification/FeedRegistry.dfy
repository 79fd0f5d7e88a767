/**
 * The feeds table: its rows, and the store operations that change them in place
 * (store/feeds.go). Each store call is one atomic step.
 */
module FeedRegistry {
  import opened Common
  import opened Wrappers
  import opened PollDelay

  type FeedId = string

  /** Columns an import owns. */
  datatype Meta = Meta(
    title: string, xmlUrl: string, htmlUrl: string, language: string, scope: string,
    categoryKey: string, sourceType: string, priority: int, tier: Tier)

  /** Columns the worker owns. */
  datatype Runtime = Runtime(
    health: Health, healthScore: int, failures: int,
    etag: string, lastModified: string,
    lastCheckedAt: Option<int>, lastSuccessAt: Option<int>, newestItemAt: Option<int>,
    nextPollAt: Option<int>, leaseOwner: Option<string>, leaseUntil: Option<int>)

  datatype Feed = Feed(
    id: FeedId, url: string, sourceId: string, meta: Meta, packVersion: Option<string>,
    enabled: bool, needsReview: bool, run: Runtime)

  type Registry = map<FeedId, Feed>

  /** The lease a worker takes on each feed it claims. */
  const LEASE: int := 3 * MINUTE

  // ---------------------------------------------------------------------------------------
  // Claiming
  // ---------------------------------------------------------------------------------------

  predicate Eligible(d: Dialect, f: Feed, now: int) {
    && f.enabled
    && (f.run.nextPollAt.Some? ==> f.run.nextPollAt.value <= now)
    && (f.run.leaseUntil.Some? ==> f.run.leaseUntil.value < now)
    && f.run.health != Quarantined
    && (d == Postgres ==> !f.needsReview)
  }

  /** ORDER BY priority DESC, next_poll_at ASC, absent poll times first; ties in any order. */
  predicate Before(f: Feed, g: Feed) {
    || f.meta.priority > g.meta.priority
    || (f.meta.priority == g.meta.priority && EarlierPoll(f.run.nextPollAt, g.run.nextPollAt))
  }

  predicate EarlierPoll(a: Option<int>, b: Option<int>) {
    b.Some? && (a.None? || a.value < b.value)
  }

  function EligibleIds(d: Dialect, rows: Registry, now: int): set<FeedId> {
    set id | id in rows && Eligible(d, rows[id], now)
  }

  /** The ids a claim may pick: eligible, at most `limit`, and never past a feed that sorts earlier. */
  predicate Selected(d: Dialect, rows: Registry, now: int, limit: nat, picked: set<FeedId>) {
    var eligible := EligibleIds(d, rows, now);
    && picked <= eligible
    && (picked == eligible || |picked| == limit)
    && |picked| <= limit
    && forall p, u | p in picked && u in eligible && u !in picked :: !Before(rows[u], rows[p])
  }

  function Leased(f: Feed, owner: string, until: int): Feed {
    f.(run := f.run.(leaseOwner := Some(owner), leaseUntil := Some(until)))
  }

  predicate SameButLease(f: Feed, g: Feed) {
    g.(run := g.run.(leaseOwner := f.run.leaseOwner, leaseUntil := f.run.leaseUntil)) == f
  }

  /**
   * A row that meets the WHERE clause and is left out: the limit is used up, on rows of a higher priority
   * or of the same one with a poll time that is no later, absent ones being the earliest.
   */
  lemma LeftOutMeansFull(d: Dialect, rows: Registry, now: int, limit: nat, picked: set<FeedId>, id: FeedId, p: FeedId)
    requires Selected(d, rows, now, limit, picked) && id in rows && id !in picked
    requires rows[id].enabled && rows[id].run.health != Quarantined && (d == Postgres ==> !rows[id].needsReview)
    requires rows[id].run.nextPollAt.Some? ==> rows[id].run.nextPollAt.value <= now
    requires rows[id].run.leaseUntil.Some? ==> rows[id].run.leaseUntil.value < now
    ensures |picked| == limit
    ensures p in picked ==> p in rows && rows[p].meta.priority >= rows[id].meta.priority
    ensures p in picked && rows[p].meta.priority == rows[id].meta.priority && rows[p].run.nextPollAt.Some? ==>
              rows[id].run.nextPollAt.Some? && rows[p].run.nextPollAt.value <= rows[id].run.nextPollAt.value
  {
    assert id in EligibleIds(d, rows, now);
    if p in picked {
      assert p in EligibleIds(d, rows, now);
      assert !Before(rows[id], rows[p]);
    }
  }

  function Claimed(rows: Registry, picked: set<FeedId>, owner: string, now: int): Registry {
    map id | id in rows :: if id in picked then Leased(rows[id], owner, now + LEASE) else rows[id]
  }

  // ---------------------------------------------------------------------------------------
  // Finishing: none of these looks at the lease owner
  // ---------------------------------------------------------------------------------------

  function Released(f: Feed, now: int, nextPoll: int): Feed {
    f.(run := f.run.(leaseOwner := None, leaseUntil := None, nextPollAt := Some(nextPoll), lastCheckedAt := Some(now)))
  }

  function Failed(f: Feed, now: int, failures: int, score: int, health: Health, nextPoll: int): Feed {
    var released := Released(f, now, nextPoll);
    released.(run := released.run.(health := health, healthScore := score, failures := failures))
  }

  function OrKeep(s: string, old_: string): string {
    if s == "" then old_ else s
  }

  function Succeeded(f: Feed, now: int, etag: string, lastModified: string, newest: Option<int>, score: int,
      health: Health): Feed {
    f.(run := f.run.(
      health := health, healthScore := score, failures := 0,
      etag := OrKeep(etag, f.run.etag), lastModified := OrKeep(lastModified, f.run.lastModified),
      lastSuccessAt := Some(now), lastCheckedAt := Some(now),
      newestItemAt := if newest.None? then f.run.newestItemAt else newest))
  }

  function AdminEdited(f: Feed, priority: int, tier: Tier, categoryKey: string, language: string, enabled: bool): Feed {
    f.(meta := f.meta.(priority := priority, tier := tier,
         categoryKey := OrKeep(categoryKey, f.meta.categoryKey), language := OrKeep(language, f.meta.language)),
       enabled := enabled, needsReview := false)
  }

  // ---------------------------------------------------------------------------------------
  // Importing a feed pack: the columns in `run` belong to the worker and stay as they are
  // ---------------------------------------------------------------------------------------

  /** What an outline of a feed pack says about a feed. */
  datatype Entry = Entry(id: FeedId, url: string, sourceId: string, meta: Meta)

  predicate HasUrl(rows: Registry, url: string) {
    exists id | id in rows :: rows[id].url == url
  }

  function NewFeed(e: Entry, version: string, now: int): Feed {
    Feed(e.id, e.url, e.sourceId, e.meta, Some(version), true, false,
         Runtime(Unknown, 100, 0, "", "", None, None, None, Some(now), None, None))
  }

  function Refreshed(f: Feed, e: Entry, version: string): Feed {
    f.(sourceId := e.sourceId, meta := e.meta, packVersion := Some(version), enabled := true, needsReview := false)
  }

  /** The insert of a new url fails when its id is taken. */
  predicate UpsertFails(rows: Registry, e: Entry) {
    !HasUrl(rows, e.url) && e.id in rows
  }

  function Upserted(rows: Registry, e: Entry, version: string, now: int): Registry {
    if HasUrl(rows, e.url) then map id | id in rows ::
        if rows[id].url == e.url then Refreshed(rows[id], e, version) else rows[id]
    else rows[e.id := NewFeed(e, version, now)]
  }

  predicate IsMissing(f: Feed, version: string, known: set<string>) {
    f.packVersion.Some? && f.packVersion.value != version && f.url !in known
  }

  function MissingIds(rows: Registry, version: string, known: set<string>): set<FeedId> {
    set id | id in rows && IsMissing(rows[id], version, known)
  }

  function Flagged(rows: Registry, version: string, known: set<string>): Registry {
    map id | id in rows :: if IsMissing(rows[id], version, known) then rows[id].(needsReview := true) else rows[id]
  }

  /** UPDATE … WHERE id = $1: touches nothing when the id is unknown. */
  function Updated(rows: Registry, id: FeedId, f: Feed -> Feed): Registry {
    if id in rows then rows[id := f(rows[id])] else rows
  }

  /** The score a feed shows; kept in 0..100 by the caller's arguments. */
  function HealthScore(failures: int, parseOk: bool, stale: bool): int {
    Max(0, 100 - (if parseOk then 0 else 35) - failures * 12 - (if stale then 20 else 0))
  }

  class FeedStore {
    const dialect: Dialect
    var rows: Registry

    constructor (dialect: Dialect, rows: Registry)
      ensures this.dialect == dialect && this.rows == rows
    {
      this.dialect := dialect;
      this.rows := rows;
    }

    /** The ordered, limited subquery: a repeated choice of a first row. */
    method SelectDue(limit: nat, now: int) returns (picked: set<FeedId>)
      ensures Selected(dialect, rows, now, limit, picked)
    {
      var eligible := EligibleIds(dialect, rows, now);
      picked := {};
      while picked != eligible && |picked| < limit
        invariant picked <= eligible && |picked| <= limit
        invariant forall p, u | p in picked && u in eligible && u !in picked :: !Before(rows[u], rows[p])
        decreases |eligible - picked|
      {
        var first := FirstOf(rows, eligible - picked);
        assert eligible - (picked + {first}) < eligible - picked;
        FewerLeft(eligible, picked, first);
        picked := picked + {first};
      }
    }

    /** Leases up to `limit` due feeds. */
    method ClaimDueFeeds(owner: string, limit: nat, now: int) returns (picked: set<FeedId>)
      modifies this
      ensures Selected(dialect, old(rows), now, limit, picked)
      ensures rows == Claimed(old(rows), picked, owner, now)
      // The WHERE clause, column by column.
      ensures forall id | id in picked :: id in old(rows) && old(rows)[id].enabled
      ensures forall id | id in picked :: old(rows)[id].run.health != Quarantined
      ensures dialect == Postgres ==> forall id | id in picked :: !old(rows)[id].needsReview
      ensures forall id | id in picked && old(rows)[id].run.nextPollAt.Some? ::
                old(rows)[id].run.nextPollAt.value <= now
      ensures forall id | id in picked && old(rows)[id].run.leaseUntil.Some? ::
                old(rows)[id].run.leaseUntil.value < now
      // The SET clause: a lease of 180 seconds, and nothing else.
      ensures rows.Keys == old(rows).Keys
      ensures forall id | id in picked :: rows[id].run.leaseOwner == Some(owner)
      ensures forall id | id in picked :: rows[id].run.leaseUntil == Some(now + 180_000_000_000)
      ensures forall id | id in picked :: SameButLease(old(rows)[id], rows[id])
      ensures forall id | id in rows && id !in picked :: rows[id] == old(rows)[id]
    {
      picked := SelectDue(limit, now);
      assert forall id | id in picked :: id in EligibleIds(dialect, rows, now);
      rows := Claimed(rows, picked, owner, now);
    }

    /** One of the rows with this url, if any. */
    method FeedByNormalizedURL(url: string) returns (f: Option<Feed>)
      ensures f == None <==> !HasUrl(rows, url)
      ensures f.Some? ==> f.value.url == url && exists id | id in rows :: rows[id] == f.value
    {
      var ids := set id | id in rows && rows[id].url == url;
      if ids == {} {
        f := None;
        assert forall id | id in rows :: id !in ids;
      } else {
        var id :| id in ids;
        f := Some(rows[id]);
      }
    }

    /** Inserts or updates the columns an import owns; the answer says whether it inserted. */
    method UpsertFeedFromImport(e: Entry, version: string, now: int) returns (inserted: Result<bool, ()>)
      modifies this
      ensures UpsertFails(old(rows), e) ==> inserted == Err(()) && rows == old(rows)
      ensures !UpsertFails(old(rows), e)
          ==> inserted == Ok(!HasUrl(old(rows), e.url)) && rows == Upserted(old(rows), e, version, now)
      // The import's columns are the entry's, in a new row and in an old one.
      ensures inserted.Ok? ==> forall id | id in rows && rows[id].url == e.url ::
                && rows[id].meta == e.meta && rows[id].sourceId == e.sourceId && rows[id].packVersion == Some(version)
                && rows[id].enabled && !rows[id].needsReview
      // The worker's columns are as before, or those of a feed that is due at once.
      ensures forall id | id in old(rows) :: id in rows && rows[id].run == old(rows)[id].run
      ensures forall id | id in old(rows) :: rows[id].url == old(rows)[id].url
      ensures forall id | id in old(rows) && old(rows)[id].url != e.url :: rows[id] == old(rows)[id]
      ensures forall id | id in rows && id !in old(rows) ::
                && id == e.id && rows[id].url == e.url && inserted == Ok(true)
                && rows[id].run == Runtime(Unknown, 100, 0, "", "", None, None, None, Some(now), None, None)
    {
      var existing := FeedByNormalizedURL(e.url);
      if existing == None {
        if e.id in rows { return Err(()); }
        rows := rows[e.id := NewFeed(e, version, now)];
        return Ok(true);
      }
      rows := map id | id in rows :: if rows[id].url == e.url then Refreshed(rows[id], e, version) else rows[id];
      return Ok(false);
    }

    /** Flags every feed of another pack version whose url is not kept, and says how many. */
    method MarkFeedsMissingFromPack(version: string, keep: seq<string>) returns (n: nat)
      modifies this
      ensures rows == Flagged(old(rows), version, set u | u in keep)
      ensures n == |MissingIds(old(rows), version, set u | u in keep)|
      ensures rows.Keys == old(rows).Keys
      ensures forall id | id in rows :: rows[id] == old(rows)[id].(needsReview := rows[id].needsReview)
      ensures forall id | id in rows :: rows[id].needsReview <==>
                || old(rows)[id].needsReview
                || (old(rows)[id].packVersion.Some? && old(rows)[id].packVersion.value != version
                    && old(rows)[id].url !in keep)
    {
      var known := set u | u in keep;
      n := |MissingIds(rows, version, known)|;
      rows := Flagged(rows, version, known);
    }

    method ReleaseFeed(id: FeedId, nextPoll: int, now: int)
      modifies this
      ensures rows == Updated(old(rows), id, f => Released(f, now, nextPoll))
    {
      if id in rows {
        var f := rows[id];
        rows := rows[id := f.(run := f.run.(leaseOwner := None, leaseUntil := None,
                                            nextPollAt := Some(nextPoll), lastCheckedAt := Some(now)))];
      }
    }

    method MarkFeedSuccess(id: FeedId, etag: string, lastModified: string, newest: Option<int>,
                           score: int, health: Health, now: int)
      modifies this
      ensures rows == Updated(old(rows), id, f => Succeeded(f, now, etag, lastModified, newest, score, health))
    {
      if id in rows {
        var f := rows[id];
        var run := f.run.(health := health, healthScore := score, failures := 0,
                          lastSuccessAt := Some(now), lastCheckedAt := Some(now));
        if etag != "" {
          run := run.(etag := etag);
        }
        if lastModified != "" {
          run := run.(lastModified := lastModified);
        }
        if newest.Some? {
          run := run.(newestItemAt := newest);
        }
        rows := rows[id := f.(run := run)];
      }
    }

    method MarkFeedFailure(id: FeedId, failures: int, score: int, health: Health, nextPoll: int, now: int)
      modifies this
      ensures rows == Updated(old(rows), id, f => Failed(f, now, failures, score, health, nextPoll))
    {
      if id in rows {
        var f := rows[id];
        rows := rows[id := f.(run := f.run.(health := health, healthScore := score, failures := failures,
                                            lastCheckedAt := Some(now), nextPollAt := Some(nextPoll),
                                            leaseOwner := None, leaseUntil := None))];
      }
    }
  }

  lemma FewerLeft(eligible: set<FeedId>, picked: set<FeedId>, first: FeedId)
    requires picked <= eligible && first in eligible && first !in picked
    ensures |eligible - (picked + {first})| < |eligible - picked|
  {
    assert eligible - picked == (eligible - (picked + {first})) + {first};
  }

  /** A row no other row of the set sorts before. */
  method FirstOf(rows: Registry, ids: set<FeedId>) returns (first: FeedId)
    requires ids != {} && ids <= rows.Keys
    ensures first in ids
    ensures forall u | u in ids :: !Before(rows[u], rows[first])
  {
    first :| first in ids;
    var rest := ids - {first};
    while rest != {}
      invariant first in ids && rest <= ids
      invariant forall u | u in ids - rest :: !Before(rows[u], rows[first])
      decreases |rest|
    {
      var u :| u in rest;
      rest := rest - {u};
      if Before(rows[u], rows[first]) {
        first := u;
      }
    }
  }
}
