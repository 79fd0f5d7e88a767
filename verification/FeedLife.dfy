/**
 * What every interleaving keeps of one feed's row: whether it may be polled at all, and how many
 * failures in a row it shows (store/feeds.go, ingest/pipeline.go).
 */
module FeedLife {
  import opened Common
  import opened Wrappers
  import opened PollDelay
  import opened FeedRegistry
  import opened LeaseProtocol

  // ---------------------------------------------------------------------------------------
  // Disabled feeds and flagged feeds
  // ---------------------------------------------------------------------------------------

  /** The step is no admin edit that enables the feed, and no import of its url. */
  predicate LeavesOff(t: Timed, f: FeedId, url: string) {
    && (t.ev.AdminEdit? && t.ev.id == f ==> !t.ev.enabled)
    && (t.ev.Import? ==> t.ev.entry.url != url)
  }

  /** The step is no admin edit of the feed, and no import of its url. */
  predicate LeavesFlagged(t: Timed, f: FeedId, url: string) {
    && (t.ev.AdminEdit? ==> t.ev.id != f)
    && (t.ev.Import? ==> t.ev.entry.url != url)
  }

  lemma OffKept(d: Dialect, rows: Registry, t: Timed, rows': Registry, f: FeedId)
    requires Step(d, rows, t, rows') && f in rows && !rows[f].enabled && LeavesOff(t, f, rows[f].url)
    ensures f in rows' && !rows'[f].enabled && rows'[f].url == rows[f].url
  {
  }

  lemma FlagKept(d: Dialect, rows: Registry, t: Timed, rows': Registry, f: FeedId)
    requires Step(d, rows, t, rows') && f in rows && rows[f].needsReview && LeavesFlagged(t, f, rows[f].url)
    ensures f in rows' && rows'[f].needsReview && rows'[f].url == rows[f].url
  {
  }

  lemma {:induction false} StaysOff(d: Dialect, states: seq<Registry>, evs: seq<Timed>, f: FeedId, i: nat, k: nat)
    requires Run(d, states, evs) && i <= k <= |evs| && f in states[i] && !states[i][f].enabled
    requires forall m | i <= m < k :: LeavesOff(evs[m], f, states[i][f].url)
    ensures f in states[k] && !states[k][f].enabled && states[k][f].url == states[i][f].url
    decreases k
  {
    if i < k {
      StaysOff(d, states, evs, f, i, k - 1);
      assert Step(d, states[k - 1], evs[k - 1], states[k]);
      OffKept(d, states[k - 1], evs[k - 1], states[k], f);
    }
  }

  lemma {:induction false} StaysFlagged(d: Dialect, states: seq<Registry>, evs: seq<Timed>, f: FeedId, i: nat, k: nat)
    requires Run(d, states, evs) && i <= k <= |evs| && f in states[i] && states[i][f].needsReview
    requires forall m | i <= m < k :: LeavesFlagged(evs[m], f, states[i][f].url)
    ensures f in states[k] && states[k][f].needsReview && states[k][f].url == states[i][f].url
    decreases k
  {
    if i < k {
      StaysFlagged(d, states, evs, f, i, k - 1);
      assert Step(d, states[k - 1], evs[k - 1], states[k]);
      FlagKept(d, states[k - 1], evs[k - 1], states[k], f);
    }
  }

  /** A feed that an admin disables is claimed by nobody until an admin enables it or an import lists its url. */
  lemma DisabledIsNeverClaimed(d: Dialect, states: seq<Registry>, evs: seq<Timed>, f: FeedId, i: nat, k: nat)
    requires Run(d, states, evs) && i < k < |evs| && f in states[i]
    requires evs[i].ev.AdminEdit? && evs[i].ev.id == f && !evs[i].ev.enabled
    requires forall m | i < m < k :: LeavesOff(evs[m], f, states[i][f].url)
    ensures !(evs[k].ev.Claim? && f in evs[k].ev.picked)
  {
    assert Step(d, states[i], evs[i], states[i + 1]);
    assert states[i + 1][f].url == states[i][f].url;
    StaysOff(d, states, evs, f, i + 1, k);
    assert Step(d, states[k], evs[k], states[k + 1]);
  }

  /**
   * On Postgres, a feed that an import flags because its feed pack no longer lists it is claimed by nobody
   * until an admin edits it or an import lists its url.
   */
  lemma FlaggedIsNeverClaimed(states: seq<Registry>, evs: seq<Timed>, f: FeedId, i: nat, k: nat)
    requires Run(Postgres, states, evs) && i < k < |evs| && f in states[i] && evs[i].ev.Flag?
    requires states[i][f].packVersion.Some? && states[i][f].packVersion.value != evs[i].ev.version
    requires states[i][f].url !in evs[i].ev.known
    requires forall m | i < m < k :: LeavesFlagged(evs[m], f, states[i][f].url)
    ensures !(evs[k].ev.Claim? && f in evs[k].ev.picked)
  {
    assert Step(Postgres, states[i], evs[i], states[i + 1]);
    StaysFlagged(Postgres, states, evs, f, i + 1, k);
    assert Step(Postgres, states[k], evs[k], states[k + 1]);
  }

  // ---------------------------------------------------------------------------------------
  // Failures in a row
  // ---------------------------------------------------------------------------------------

  predicate Succeeds(t: Timed, f: FeedId) {
    t.ev.Success? && t.ev.id == f
  }

  predicate Fails(t: Timed, f: FeedId) {
    t.ev.Failure? && t.ev.id == f
  }

  /** The feed's failures since its last success, on top of those it had before. */
  function FailuresInARow(evs: seq<Timed>, f: FeedId, before: int): int {
    if evs == [] then before
    else
      var rest, t := evs[..|evs| - 1], evs[|evs| - 1];
      if Succeeds(t, f) then 0
      else if Fails(t, f) then FailuresInARow(rest, f, before) + 1
      else FailuresInARow(rest, f, before)
  }

  /**
   * The k-th step is written by a worker that read the feed at its claim, with nobody else's success or
   * failure in between: one more failure than it read.
   */
  ghost predicate InTurn(states: seq<Registry>, evs: seq<Timed>, f: FeedId, c: nat, k: nat)
    requires |states| == |evs| + 1 && c < k < |evs|
  {
    && Claims(evs[c], f) && f in states[c + 1] && Fails(evs[k], f)
    && evs[k].ev.args.failures == states[c + 1][f].run.failures + 1
    && forall m | c < m < k :: !Succeeds(evs[m], f) && !Fails(evs[m], f)
  }

  ghost predicate AllInTurn(states: seq<Registry>, evs: seq<Timed>, f: FeedId, n: nat)
    requires |states| == |evs| + 1 && n <= |evs|
  {
    forall k | 0 <= k < n && Fails(evs[k], f) :: exists c: nat :: c < k && InTurn(states, evs, f, c, k)
  }

  lemma CountKept(d: Dialect, rows: Registry, t: Timed, rows': Registry, f: FeedId)
    requires Step(d, rows, t, rows') && f in rows && !Fails(t, f)
    ensures f in rows' && rows'[f].run.failures == if Succeeds(t, f) then 0 else rows[f].run.failures
  {
  }

  lemma {:induction false} CountStays(d: Dialect, states: seq<Registry>, evs: seq<Timed>, f: FeedId, i: nat, k: nat)
    requires Run(d, states, evs) && i <= k <= |evs| && f in states[i]
    requires forall m | i <= m < k :: !Succeeds(evs[m], f) && !Fails(evs[m], f)
    ensures f in states[k] && states[k][f].run.failures == states[i][f].run.failures
    decreases k
  {
    if i < k {
      CountStays(d, states, evs, f, i, k - 1);
      assert Step(d, states[k - 1], evs[k - 1], states[k]);
      CountKept(d, states[k - 1], evs[k - 1], states[k], f);
    }
  }

  /** A failure in its turn adds one to what the row shows. */
  lemma FailureInTurn(d: Dialect, states: seq<Registry>, evs: seq<Timed>, f: FeedId, c: nat, k: nat)
    requires Run(d, states, evs) && c < k < |evs| && InTurn(states, evs, f, c, k)
    ensures f in states[k] && f in states[k + 1]
    ensures states[k + 1][f].run.failures == states[k][f].run.failures + 1
  {
    CountStays(d, states, evs, f, c + 1, k);
    assert Step(d, states[k], evs[k], states[k + 1]);
  }

  lemma InARowNext(evs: seq<Timed>, f: FeedId, k: nat, before: int)
    requires k < |evs|
    ensures FailuresInARow(evs[..k + 1], f, before) ==
            if Succeeds(evs[k], f) then 0
            else FailuresInARow(evs[..k], f, before) + if Fails(evs[k], f) then 1 else 0
  {
    assert evs[..k + 1][..k] == evs[..k];
  }

  lemma {:induction false} CountsFailures(d: Dialect, states: seq<Registry>, evs: seq<Timed>, f: FeedId, n: nat)
    requires Run(d, states, evs) && n <= |evs| && f in states[0] && AllInTurn(states, evs, f, n)
    ensures f in states[n]
    ensures states[n][f].run.failures == FailuresInARow(evs[..n], f, states[0][f].run.failures)
  {
    if n > 0 {
      var k := n - 1;
      CountsFailures(d, states, evs, f, k);
      InARowNext(evs, f, k, states[0][f].run.failures);
      if Fails(evs[k], f) {
        var c: nat :| c < k && InTurn(states, evs, f, c, k);
        FailureInTurn(d, states, evs, f, c, k);
      } else {
        assert Step(d, states[k], evs[k], states[n]);
        CountKept(d, states[k], evs[k], states[n], f);
      }
    }
  }

  /**
   * As long as every failure is written in its turn, the count in the table is the number of failures
   * since the last success.
   */
  lemma CountIsFailuresInARow(d: Dialect, states: seq<Registry>, evs: seq<Timed>, f: FeedId)
    requires Run(d, states, evs) && f in states[0] && AllInTurn(states, evs, f, |evs|)
    ensures f in states[|evs|]
    ensures states[|evs|][f].run.failures == FailuresInARow(evs, f, states[0][f].run.failures)
  {
    CountsFailures(d, states, evs, f, |evs|);
    assert evs[..|evs|] == evs;
  }

  /** Four legal steps in a row, and the tables between them. */
  ghost predicate Chain(d: Dialect, rows: Registry, a: Timed, b: Timed, c: Timed, e: Timed, last: Registry) {
    && Legal(d, rows, a) && Legal(d, Apply(rows, a), b) && Legal(d, Apply(Apply(rows, a), b), c)
    && Legal(d, Apply(Apply(Apply(rows, a), b), c), e) && last == Apply(Apply(Apply(Apply(rows, a), b), c), e)
    && a.at <= b.at <= c.at <= e.at
  }

  /** A failure of the worker that read `seen` failures when it claimed the feed. */
  function FailureAt(f: FeedId, at: int, tier: Tier, seen: int): Timed {
    Timed(at, Failure(f, at, DelayArgs(tier, seen + 1, 0, false, 0), ParseFailed, 12))
  }

  /**
   * Out of turn it is not: a worker that is still busy when its lease lapses writes the count it read, so
   * two failures in a row can show as one.
   */
  lemma LateFailureMiscounts(d: Dialect, rows: Registry, f: FeedId, now: int)
    returns (first: Timed, second: Timed, quick: Timed, late: Timed, last: Registry)
    requires f in rows && Eligible(d, rows[f], now)
    ensures Chain(d, rows, first, second, quick, late, last)
    ensures Claims(first, f) && Claims(second, f) && Fails(quick, f) && Fails(late, f)
    ensures f in last && last[f].run.failures == rows[f].run.failures + 1
    ensures FailuresInARow([first, second, quick, late], f, rows[f].run.failures) == rows[f].run.failures + 2
  {
    var seen, tier := rows[f].run.failures, rows[f].meta.tier;
    first := RoomyClaim(d, rows, now);
    second := RoomyClaim(d, Apply(rows, first), now + LEASE + 1);
    quick, late := FailureAt(f, second.at, tier, seen), FailureAt(f, second.at + 1, tier, seen);
    last := Apply(Apply(Apply(Apply(rows, first), second), quick), late);
    FourInARow(first, second, quick, late, f, seen);
  }

  lemma FourInARow(a: Timed, b: Timed, c: Timed, e: Timed, f: FeedId, before: int)
    requires Claims(a, f) && Claims(b, f) && Fails(c, f) && Fails(e, f)
    ensures FailuresInARow([a, b, c, e], f, before) == before + 2
  {
    var evs := [a, b, c, e];
    assert evs[..0] == [] && evs[..4] == evs;
    InARowNext(evs, f, 0, before);
    InARowNext(evs, f, 1, before);
    InARowNext(evs, f, 2, before);
    InARowNext(evs, f, 3, before);
  }

  /** An admin edit that enables a feed also ends its review: once it is due, it can be claimed. */
  lemma EnabledCanBeClaimed(d: Dialect, rows: Registry, edit: Timed, f: FeedId, now: int) returns (claim: Timed)
    requires edit.ev.AdminEdit? && edit.ev.id == f && edit.ev.enabled && f in rows && rows[f].run.health != Quarantined
    requires rows[f].run.nextPollAt.Some? ==> rows[f].run.nextPollAt.value <= now
    requires rows[f].run.leaseUntil.Some? ==> rows[f].run.leaseUntil.value < now
    ensures claim.at == now && Legal(d, Apply(rows, edit), claim) && Claims(claim, f)
  {
    claim := RoomyClaim(d, Apply(rows, edit), now);
  }
}
