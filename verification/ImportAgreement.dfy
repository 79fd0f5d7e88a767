/**
 * What a dry run says about the commit that follows it, and what a second commit of the same pack
 * says about the first (store/imports.go).
 */
module ImportAgreement {
  import opened Wrappers
  import opened PollDelay
  import opened FeedRegistry
  import opened FeedImport
  import opened ImportRun
  import opened Seqs

  /** Missing is the same question before and after the commit's upserts. */
  lemma SameMissing(p: Progress, outs: seq<Outline>, version: string, now: int)
    requires !Visits(p, outs, version, now, false).failed
    ensures MissingIds(Visits(p, outs, version, now, false).rows, version, AsSet(Urls(outs)))
        == MissingIds(p.rows, version, AsSet(Urls(outs)))
  {
    RowsOldOrTouched(p, outs, version, now);
    VisitsKeepRuntime(p, outs, version, now, false);
  }

  // ---------------------------------------------------------------------------------------
  // The dry run forecasts the commit
  // ---------------------------------------------------------------------------------------

  /** The same report, but for what only a commit does. */
  predicate SameForecast(a: Report, b: Report) {
    && a.total == b.total && a.added == b.added && a.changed == b.changed && a.same == b.same
    && a.invalid == b.invalid && a.missing == b.missing && a.samples == b.samples
  }

  /** One outline, looked up in two tables that hold the same for its url. */
  lemma VisitForecasts(d: Progress, c: Progress, o: Outline, version: string, now: int)
    requires !d.failed && !c.failed && SameForecast(d.report, c.report)
    requires EntryOf(o).Some? ==> Existing(d.rows, EntryOf(o).value.url) == Existing(c.rows, EntryOf(o).value.url)
    ensures SameForecast(Visit(d, o, version, now, true).report, Visit(c, o, version, now, false).report)
  {
  }

  lemma {:induction false} VisitsForecast(p: Progress, outs: seq<Outline>, version: string, now: int)
    requires UniqueUrls(p.rows) && !p.failed && !Visits(p, outs, version, now, false).failed && Distinct(Urls(outs))
    ensures SameForecast(Visits(p, outs, version, now, true).report, Visits(p, outs, version, now, false).report)
  {
    if outs != [] {
      var rest, o := outs[..|outs| - 1], outs[|outs| - 1];
      assert forall k | 0 <= k < |Urls(rest)| :: Urls(outs)[k] == Urls(rest)[k];
      VisitsForecast(p, rest, version, now);
      VisitsKeepRuntime(p, rest, version, now, true);
      if EntryOf(o).Some? {
        assert Urls(outs)[|Urls(rest)|] == EntryOf(o).value.url;
        UnusedUrlUntouched(p, rest, version, now, EntryOf(o).value.url);
      }
      VisitForecasts(Visits(p, rest, version, now, true), Visits(p, rest, version, now, false), o, version, now);
    }
  }

  /**
   * When the usable outlines have pairwise different normalised urls and no insert fails, the dry run
   * reports what the commit reports: new, changed, unchanged, invalid, missing and the sample changes.
   */
  lemma DryRunForecastsCommit(rows: Registry, outs: seq<Outline>, version: string, now: int)
    requires UniqueUrls(rows) && Distinct(Urls(Valid(outs))) && !Clashes(rows, Valid(outs))
    ensures Import(rows, outs, version, now, true).answer.Ok? && Import(rows, outs, version, now, false).answer.Ok?
    ensures SameForecast(Import(rows, outs, version, now, true).answer.value,
        Import(rows, outs, version, now, false).answer.value)
  {
    var p := Start(rows, outs);
    var valid := Valid(outs);
    CommitFailsExactly(rows, outs, version, now);
    VisitsForecast(p, valid, version, now);
    VisitsKeepRuntime(p, valid, version, now, true);
    KnownAreUrls(p, valid, version, now, true);
    KnownAreUrls(p, valid, version, now, false);
    assert p.known + Urls(valid) == Urls(valid);
    SameMissing(p, valid, version, now);
  }

  // ---------------------------------------------------------------------------------------
  // Repeated urls: exactly what goes wrong
  // ---------------------------------------------------------------------------------------

  /** The urls of the feed pack the registry does not hold, repetitions included. */
  ghost function Absent(rows: Registry, urls: seq<string>): seq<string> {
    Filter(urls, u => !HasUrl(rows, u))
  }

  lemma AbsentGrows(rows: Registry, urls: seq<string>, url: string)
    ensures Absent(rows, urls + [url]) == if HasUrl(rows, url) then Absent(rows, urls) else Absent(rows, urls) + [url]
  {
    FilterConcat(urls, [url], u => !HasUrl(rows, u));
    assert [url][1..] == [];
  }

  lemma {:induction false} DryCountsOccurrences(p: Progress, outs: seq<Outline>, version: string, now: int)
    requires !p.failed
    ensures Visits(p, outs, version, now, true).report.added == p.report.added + |Absent(p.rows, Urls(outs))|
  {
    if outs != [] {
      var rest, e := outs[..|outs| - 1], EntryOf(outs[|outs| - 1]);
      DryCountsOccurrences(p, rest, version, now);
      VisitsKeepRuntime(p, rest, version, now, true);
      if e.Some? {
        AbsentGrows(p.rows, Urls(rest), e.value.url);
      } else {
        assert Urls(outs) == Urls(rest);
      }
    }
  }

  lemma {:induction false} CommitCountsUrls(p: Progress, outs: seq<Outline>, version: string, now: int)
    requires UniqueUrls(p.rows) && !p.failed && !Visits(p, outs, version, now, false).failed
    ensures Visits(p, outs, version, now, false).report.added == p.report.added + |AsSet(Absent(p.rows, Urls(outs)))|
  {
    if outs != [] {
      var rest, e := outs[..|outs| - 1], EntryOf(outs[|outs| - 1]);
      CommitCountsUrls(p, rest, version, now);
      if e.Some? {
        var url := e.value.url;
        VisitedUrlsArePresent(p, rest, version, now, url);
        AbsentGrows(p.rows, Urls(rest), url);
        AbsentMember(p.rows, Urls(rest), url);
        SetOfAppend(Absent(p.rows, Urls(rest)), url);
      } else {
        assert Urls(outs) == Urls(rest);
      }
    }
  }

  lemma AbsentMember(rows: Registry, urls: seq<string>, url: string)
    ensures url in Absent(rows, urls) <==> url in urls && !HasUrl(rows, url)
  {
    if url in urls && !HasUrl(rows, url) {
      FilterKeepsMembers(urls, u => !HasUrl(rows, u), url);
    }
  }

  lemma SetOfAppend(s: seq<string>, x: string)
    ensures |AsSet(s + [x])| == |AsSet(s)| + (if x in s then 0 else 1)
  {
    assert AsSet(s + [x]) == AsSet(s) + {x};
  }

  lemma {:induction false} DistinctBySize(s: seq<string>)
    ensures |AsSet(s)| <= |s|
    ensures |AsSet(s)| == |s| <==> Distinct(s)
  {
    if s == [] {
      assert AsSet(s) == {};
    } else {
      var rest, x := s[..|s| - 1], s[|s| - 1];
      DistinctBySize(rest);
      assert s == rest + [x];
      SetOfAppend(rest, x);
    }
  }

  /**
   * A dry run never forecasts fewer new feeds than the commit adds, and forecasts them exactly when
   * the urls the registry lacks are pairwise different in the feed pack.
   */
  lemma NewForecastExactly(rows: Registry, outs: seq<Outline>, version: string, now: int)
    requires UniqueUrls(rows) && !Clashes(rows, Valid(outs))
    ensures Import(rows, outs, version, now, true).answer.Ok? && Import(rows, outs, version, now, false).answer.Ok?
    ensures var dry, commit := Import(rows, outs, version, now, true).answer.value,
        Import(rows, outs, version, now, false).answer.value;
      && dry.added >= commit.added
      && (dry.added == commit.added <==> Distinct(Absent(rows, Urls(Valid(outs)))))
  {
    var p := Start(rows, outs);
    CommitFailsExactly(rows, outs, version, now);
    VisitsKeepRuntime(p, Valid(outs), version, now, true);
    DryCountsOccurrences(p, Valid(outs), version, now);
    CommitCountsUrls(p, Valid(outs), version, now);
    DistinctBySize(Absent(rows, Urls(Valid(outs))));
  }

  // ---------------------------------------------------------------------------------------
  // The registry after a commit
  // ---------------------------------------------------------------------------------------

  /**
   * A commit reconciles: every feed of the feed pack is present, enabled, unflagged and of this version;
   * every other feed is as before, but flagged when it came from another version.
   */
  lemma CommitReconciles(rows: Registry, outs: seq<Outline>, version: string, now: int)
    requires UniqueUrls(rows) && !Clashes(rows, Valid(outs))
    ensures Import(rows, outs, version, now, false).answer.Ok?
    ensures var later, urls := Import(rows, outs, version, now, false).rows, Urls(Valid(outs));
      && (forall u | u in urls :: HasUrl(later, u))
      && (forall id | id in later && later[id].url in urls ::
            later[id].enabled && !later[id].needsReview && later[id].packVersion == Some(version))
      && (forall id | id in later && later[id].url !in urls :: id in rows &&
            later[id] == rows[id].(needsReview := rows[id].needsReview
                || (rows[id].packVersion.Some? && rows[id].packVersion.value != version)))
  {
    var p, valid := Start(rows, outs), Valid(outs);
    var mid := Visits(p, valid, version, now, false).rows;
    var later := Import(rows, outs, version, now, false).rows;
    CommitFailsExactly(rows, outs, version, now);
    KnownAreUrls(p, valid, version, now, false);
    RowsOldOrTouched(p, valid, version, now);
    forall u | u in Urls(valid)
      ensures HasUrl(later, u)
    {
      VisitedUrlsArePresent(p, valid, version, now, u);
      var id :| id in mid && mid[id].url == u;
      assert later[id].url == u;
    }
    forall id | id in later && later[id].url in Urls(valid)
      ensures later[id].enabled && !later[id].needsReview && later[id].packVersion == Some(version)
    {
      VisitsKeepUnique(p, valid, version, now, false);
      PackRow(p, valid, version, now, id);
    }
  }

  /** The row of a visited url is of this pack, whatever it was before. */
  lemma {:induction false} PackRow(p: Progress, outs: seq<Outline>, version: string, now: int, id: FeedId)
    requires UniqueUrls(p.rows) && !Visits(p, outs, version, now, false).failed
    requires id in Visits(p, outs, version, now, false).rows
        && Visits(p, outs, version, now, false).rows[id].url in Urls(outs)
    ensures var f := Visits(p, outs, version, now, false).rows[id];
      f.enabled && !f.needsReview && f.packVersion == Some(version)
  {
    var rest, e := outs[..|outs| - 1], EntryOf(outs[|outs| - 1]);
    var before, after := Visits(p, rest, version, now, false).rows, Visits(p, outs, version, now, false).rows;
    if e.Some? && after[id].url == e.value.url {
      assert id in before ==> before[id].url == after[id].url;
    } else {
      assert id in before && before[id] == after[id];
      PackRow(p, rest, version, now, id);
    }
  }

  // ---------------------------------------------------------------------------------------
  // Committing the same pack again
  // ---------------------------------------------------------------------------------------

  /** The row of a url already says what an outline of this version says. */
  predicate Settled(f: Option<Feed>, e: Entry, version: string) {
    f.Some? && !FeedMetadataChanged(f.value, e, version)
  }

  /** Outlines with the same url say the same. */
  ghost predicate Consistent(outs: seq<Outline>) {
    forall i, j | 0 <= i < j < |outs| :: Agree(EntryOf(outs[i]), EntryOf(outs[j]))
  }

  predicate Agree(a: Option<Entry>, b: Option<Entry>) {
    a.Some? && b.Some? && a.value.url == b.value.url ==> a.value.meta == b.value.meta
  }

  /** After a commit, a url has the metadata of every outline with that url that agrees with the rest. */
  lemma {:induction false} LastOutlineWins(p: Progress, outs: seq<Outline>, version: string, now: int, e: Entry)
    requires UniqueUrls(p.rows) && !Visits(p, outs, version, now, false).failed && e.url in Urls(outs)
    requires forall k | 0 <= k < |outs| :: Agree(EntryOf(outs[k]), Some(e))
    ensures Settled(Existing(Visits(p, outs, version, now, false).rows, e.url), e, version)
  {
    var rest, last := outs[..|outs| - 1], EntryOf(outs[|outs| - 1]);
    var before := Visits(p, rest, version, now, false).rows;
    VisitsKeepUnique(p, rest, version, now, false);
    if last.Some? && last.value.url == e.url {
      assert Agree(EntryOf(outs[|outs| - 1]), Some(e));
      UpsertHere(before, last.value, version, now);
    } else {
      LastOutlineWins(p, rest, version, now, e);
      if last.Some? {
        UpsertElsewhere(before, last.value, version, now, e.url);
      }
    }
  }

  /** Flagging leaves the row of a url settled, or not. */
  lemma FlaggingKeepsSettled(rows: Registry, version: string, known: set<string>, e: Entry)
    requires UniqueUrls(rows)
    ensures UniqueUrls(Flagged(rows, version, known))
    ensures Settled(Existing(Flagged(rows, version, known), e.url), e, version)
        <==> Settled(Existing(rows, e.url), e, version)
  {
    var later := Flagged(rows, version, known);
    assert forall id | id in later :: later[id].url == rows[id].url;
    if HasUrl(rows, e.url) {
      var id :| id in rows && rows[id].url == e.url;
      ExistingIs(rows, id);
      assert later[id].url == e.url;
      ExistingIs(later, id);
    }
  }

  /** The metadata and version a registry holds for a url. */
  ghost predicate SameMeta(a: Registry, b: Registry, url: string) {
    var f, g := Existing(a, url), Existing(b, url);
    f.Some? && g.Some? && f.value.meta == g.value.meta && VersionOf(f.value) == VersionOf(g.value)
  }

  /** A pass over urls that are all present adds nothing, cannot fail, and counts changes from some point on only up. */
  lemma {:induction false} NothingToAdd(p: Progress, outs: seq<Outline>, version: string, now: int)
    requires UniqueUrls(p.rows) && !p.failed && forall u | u in Urls(outs) :: HasUrl(p.rows, u)
    ensures var q := Visits(p, outs, version, now, false);
      !q.failed && q.report.added == p.report.added && q.report.changed >= p.report.changed
  {
    if outs != [] {
      var rest, e := outs[..|outs| - 1], EntryOf(outs[|outs| - 1]);
      assert forall u | u in Urls(rest) :: u in Urls(outs);
      NothingToAdd(p, rest, version, now);
      if e.Some? {
        assert Urls(outs)[|Urls(rest)|] == e.value.url;
        VisitedUrlsArePresent(p, rest, version, now, e.value.url);
      }
    }
  }

  /** Every outline finds its url settled. */
  ghost predicate AllSettled(rows: Registry, outs: seq<Outline>, version: string) {
    forall k | 0 <= k < |outs| && EntryOf(outs[k]).Some? ::
      Settled(Existing(rows, EntryOf(outs[k]).value.url), EntryOf(outs[k]).value, version)
  }

  /** While nothing has changed, the metadata of every url is what it was at the start. */
  lemma {:induction false} UnchangedPassKeepsMeta(p: Progress, outs: seq<Outline>, version: string, now: int,
      url: string)
    requires UniqueUrls(p.rows) && !p.failed && (forall u | u in Urls(outs) :: HasUrl(p.rows, u)) && HasUrl(p.rows, url)
    requires Visits(p, outs, version, now, false).report.changed == p.report.changed
    ensures SameMeta(p.rows, Visits(p, outs, version, now, false).rows, url)
  {
    if outs != [] {
      var rest, e := outs[..|outs| - 1], EntryOf(outs[|outs| - 1]);
      assert forall u | u in Urls(rest) :: u in Urls(outs);
      NothingToAdd(p, rest, version, now);
      UnchangedPassKeepsMeta(p, rest, version, now, url);
      VisitsKeepUnique(p, rest, version, now, false);
      if e.Some? {
        var before := Visits(p, rest, version, now, false).rows;
        assert Urls(outs)[|Urls(rest)|] == e.value.url;
        VisitedUrlsArePresent(p, rest, version, now, e.value.url);
        if url == e.value.url {
          UpsertHere(before, e.value, version, now);
        } else {
          UpsertElsewhere(before, e.value, version, now, url);
        }
      }
    }
  }

  /** A pass over present urls reports no change exactly when every outline finds its url settled. */
  lemma {:induction false} NoChangeMeansSettled(p: Progress, outs: seq<Outline>, version: string, now: int)
    requires UniqueUrls(p.rows) && !p.failed && forall u | u in Urls(outs) :: HasUrl(p.rows, u)
    ensures Visits(p, outs, version, now, false).report.changed == p.report.changed
        <==> AllSettled(p.rows, outs, version)
  {
    if outs != [] {
      var rest, e := outs[..|outs| - 1], EntryOf(outs[|outs| - 1]);
      assert forall u | u in Urls(rest) :: u in Urls(outs);
      NoChangeMeansSettled(p, rest, version, now);
      NothingToAdd(p, rest, version, now);
      SettledGrows(p.rows, outs, version);
      if e.Some? {
        assert Urls(outs)[|Urls(rest)|] == e.value.url;
        if Visits(p, rest, version, now, false).report.changed == p.report.changed {
          UnchangedPassKeepsMeta(p, rest, version, now, e.value.url);
          LastChangeCounts(p, Visits(p, rest, version, now, false), outs[|outs| - 1], version, now);
        }
      }
    }
  }

  /** One outline, in a table that says for its url what the first table said. */
  lemma LastChangeCounts(p: Progress, q: Progress, o: Outline, version: string, now: int)
    requires !q.failed && EntryOf(o).Some? && SameMeta(p.rows, q.rows, EntryOf(o).value.url)
    ensures Visit(q, o, version, now, false).report.changed ==
            q.report.changed + (if Settled(Existing(p.rows, EntryOf(o).value.url), EntryOf(o).value, version) then 0
                else 1)
  {
  }

  lemma SettledGrows(rows: Registry, outs: seq<Outline>, version: string)
    requires outs != []
    ensures var e := EntryOf(outs[|outs| - 1]);
      AllSettled(rows, outs, version) <==>
        AllSettled(rows, outs[..|outs| - 1], version)
            && (e.Some? ==> Settled(Existing(rows, e.value.url), e.value, version))
  {
    var rest := outs[..|outs| - 1];
    assert forall k | 0 <= k < |rest| :: rest[k] == outs[k];
  }

  /** The table the first commit leaves is settled exactly when the feed pack does not contradict itself. */
  lemma SettledExactlyWhenConsistent(rows: Registry, outs: seq<Outline>, version: string, now: int)
    requires UniqueUrls(rows) && Import(rows, outs, version, now, false).answer.Ok?
    ensures AllSettled(Import(rows, outs, version, now, false).rows, Valid(outs), version) <==> Consistent(Valid(outs))
  {
    var p, valid := Start(rows, outs), Valid(outs);
    var mid := Visits(p, valid, version, now, false);
    VisitsKeepUnique(p, valid, version, now, false);
    if Consistent(valid) {
      forall k | 0 <= k < |valid| && EntryOf(valid[k]).Some?
        ensures Settled(Existing(Flagged(mid.rows, version, AsSet(mid.known)), EntryOf(valid[k]).value.url),
            EntryOf(valid[k]).value, version)
      {
        var e := EntryOf(valid[k]).value;
        UrlOfUsable(valid, k);
        forall j | 0 <= j < |valid|
          ensures Agree(EntryOf(valid[j]), Some(e))
        {
          assert j < k ==> Agree(EntryOf(valid[j]), EntryOf(valid[k]));
          assert k < j ==> Agree(EntryOf(valid[k]), EntryOf(valid[j]));
        }
        LastOutlineWins(p, valid, version, now, e);
        FlaggingKeepsSettled(mid.rows, version, AsSet(mid.known), e);
      }
    }
  }

  /**
   * Committing the same pack and version again adds nothing and finds the same feeds missing. It
   * reports nothing changed exactly when no two outlines with one url contradict each other.
   */
  lemma CommitAgain(rows: Registry, outs: seq<Outline>, version: string, now: int, later: int)
    requires UniqueUrls(rows) && !Clashes(rows, Valid(outs))
    ensures var once := Import(rows, outs, version, now, false);
      var twice := Import(once.rows, outs, version, later, false);
      && once.answer.Ok?
      && twice.answer.Ok?
      && twice.answer.value.added == 0
      && twice.answer.value.missing == once.answer.value.missing
      && (twice.answer.value.changed == 0 <==> Consistent(Valid(outs)))
  {
    var once, valid := Import(rows, outs, version, now, false), Valid(outs);
    var p, q := Start(rows, outs), Start(once.rows, outs);
    CommitReconciles(rows, outs, version, now);
    VisitsKeepUnique(p, valid, version, now, false);
    NothingToAdd(q, valid, version, later);
    NoChangeMeansSettled(q, valid, version, later);
    SettledExactlyWhenConsistent(rows, outs, version, now);
    KnownAreUrls(p, valid, version, now, false);
    KnownAreUrls(q, valid, version, later, false);
    assert [] + Urls(valid) == Urls(valid);
    SameMissing(q, valid, version, later);
    FlaggedStayMissing(Visits(p, valid, version, now, false).rows, version, AsSet(Urls(valid)));
  }

  lemma FlaggedStayMissing(rows: Registry, version: string, known: set<string>)
    ensures MissingIds(Flagged(rows, version, known), version, known) == MissingIds(rows, version, known)
  {
  }

  /** A pass leaves each row it starts with as it was, or as the last outline with its url says. */
  lemma {:induction false} PassRewritesByLast(p: Progress, outs: seq<Outline>, version: string, now: int, id: FeedId)
    requires !Visits(p, outs, version, now, false).failed && id in p.rows
    ensures var rows, e := Visits(p, outs, version, now, false).rows, LastEntry(outs, p.rows[id].url);
      id in rows && rows[id] == if e.Some? then Refreshed(p.rows[id], e.value, version) else p.rows[id]
  {
    if outs != [] {
      PassRewritesByLast(p, outs[..|outs| - 1], version, now, id);
    }
  }

  lemma {:induction false} PassAddsNoRows(p: Progress, outs: seq<Outline>, version: string, now: int)
    requires UniqueUrls(p.rows) && !p.failed && forall u | u in Urls(outs) :: HasUrl(p.rows, u)
    ensures Visits(p, outs, version, now, false).rows.Keys == p.rows.Keys
  {
    if outs != [] {
      var rest, e := outs[..|outs| - 1], EntryOf(outs[|outs| - 1]);
      assert forall u | u in Urls(rest) :: u in Urls(outs);
      PassAddsNoRows(p, rest, version, now);
      NothingToAdd(p, rest, version, now);
      if e.Some? {
        assert Urls(outs)[|Urls(rest)|] == e.value.url;
        VisitedUrlsArePresent(p, rest, version, now, e.value.url);
      }
    }
  }

  lemma FlaggedTwice(rows: Registry, version: string, known: set<string>)
    ensures Flagged(Flagged(rows, version, known), version, known) == Flagged(rows, version, known)
  {
  }

  ghost predicate AllFixed(rows: Registry, outs: seq<Outline>, version: string) {
    forall id | id in rows :: Fixed(rows[id], LastEntry(outs, rows[id].url), version)
  }

  /** A pass over a registry that already says it all changes no row. */
  lemma FixedPassChangesNothing(q: Progress, outs: seq<Outline>, version: string, now: int)
    requires UniqueUrls(q.rows) && !q.failed && (forall u | u in Urls(outs) :: HasUrl(q.rows, u))
        && AllFixed(q.rows, outs, version)
    ensures Visits(q, outs, version, now, false).rows == q.rows && !Visits(q, outs, version, now, false).failed
  {
    NothingToAdd(q, outs, version, now);
    PassAddsNoRows(q, outs, version, now);
    forall id | id in q.rows
      ensures Visits(q, outs, version, now, false).rows[id] == q.rows[id]
    {
      PassRewritesByLast(q, outs, version, now, id);
    }
  }

  /** Flagging touches only urls the feed pack does not use. */
  lemma FlaggingKeepsFixed(rows: Registry, outs: seq<Outline>, version: string)
    requires AllFixed(rows, outs, version)
    ensures AllFixed(Flagged(rows, version, AsSet(Urls(outs))), outs, version)
  {
    var later := Flagged(rows, version, AsSet(Urls(outs)));
    forall id | id in later
      ensures Fixed(later[id], LastEntry(outs, later[id].url), version)
    {
      assert Fixed(rows[id], LastEntry(outs, rows[id].url), version);
    }
  }

  /** The last usable outline with a url is the one that counts. */
  lemma {:induction false} LastEntryIs(outs: seq<Outline>, k: nat, e: Entry)
    requires k < |outs| && EntryOf(outs[k]) == Some(e)
    requires forall j | k < j < |outs| :: EntryOf(outs[j]).Some? ==> EntryOf(outs[j]).value.url != e.url
    ensures LastEntry(outs, e.url) == Some(e)
    decreases |outs|
  {
    var n := |outs| - 1;
    if k < n {
      var rest := outs[..n];
      assert rest[k] == outs[k] && forall j | k < j < n :: rest[j] == outs[j];
      LastEntryIs(rest, k, e);
    }
  }

  /** What the row of an outline says after the import, column by column. */
  predicate RowSays(f: Feed, o: Outline, version: string)
    requires o.canon.Some?
  {
    && f.url == o.canon.value.normalized && f.sourceId == o.sourceId && f.packVersion == Some(version)
    && f.enabled && !f.needsReview
    && f.meta.title == o.title && f.meta.xmlUrl == o.xmlUrl
    && f.meta.htmlUrl == (if o.htmlUrl != "" then o.htmlUrl else o.canon.value.canonical)
    && f.meta.language == o.language && f.meta.scope == o.scope && f.meta.categoryKey == o.categoryKey
    && f.meta.sourceType == o.sourceType && f.meta.priority == o.priority
    && TierFits(f.meta.tier, o.sourceType, o.priority)
  }

  predicate TierFits(tier: Tier, sourceType: string, priority: int) {
    && (tier == Breaking <==> sourceType == "OFFICIAL_REALTIME")
    && (tier == High <==> (sourceType == "VALIDATED_DIRECT" && priority >= 5)
                          || (sourceType == "DIRECT_PUBLISHER" && priority >= 4))
    && (tier == Opportunity <==> sourceType in {"OPPORTUNITY_FEED", "TENDER_FEED"})
    && (tier == Slow <==> sourceType == "AGGREGATOR_SEARCH" && priority <= 2)
    && tier != OtherTier
  }

  lemma EntrySays(f: Feed, o: Outline, version: string)
    requires EntryOf(o).Some? && f.url == EntryOf(o).value.url && Refreshed(f, EntryOf(o).value, version) == f
    ensures RowSays(f, o, version)
  {
  }

  /** After a commit, the row of an outline's url says what the last outline with that url says. */
  lemma CommittedRowsSay(rows: Registry, outs: seq<Outline>, version: string, now: int, k: nat)
    requires UniqueUrls(rows) && !Clashes(rows, Valid(outs)) && k < |Valid(outs)|
    requires var o := Valid(outs)[k]; o.canon.Some? && o.canon.value.normalized != ""
    requires forall j | k < j < |Valid(outs)| && Valid(outs)[j].canon.Some? ::
               Valid(outs)[j].canon.value.normalized != Valid(outs)[k].canon.value.normalized
    ensures var after, o := Import(rows, outs, version, now, false).rows, Valid(outs)[k];
      exists id :: id in after && RowSays(after[id], o, version)
  {
    var p, valid, after := Start(rows, outs), Valid(outs), Import(rows, outs, version, now, false).rows;
    var e := EntryOf(valid[k]).value;
    var mid := Visits(p, valid, version, now, false).rows;
    CommitReconciles(rows, outs, version, now);
    CommitFailsExactly(rows, outs, version, now);
    KnownAreUrls(p, valid, version, now, false);
    assert p.known + Urls(valid) == Urls(valid);
    RowsFixedByLast(p, valid, version, now);
    FlaggingKeepsFixed(mid, valid, version);
    UrlOfUsable(valid, k);
    LastEntryIs(valid, k, e);
    var id :| id in after && after[id].url == e.url;
    EntrySays(after[id], valid[k], version);
  }

  /** Whatever the feed pack, committing it twice leaves the registry as committing it once. */
  lemma CommitIsIdempotent(rows: Registry, outs: seq<Outline>, version: string, now: int, later: int)
    requires UniqueUrls(rows) && !Clashes(rows, Valid(outs))
    ensures var once := Import(rows, outs, version, now, false).rows;
      Import(once, outs, version, later, false).rows == once
  {
    var once, valid := Import(rows, outs, version, now, false).rows, Valid(outs);
    var p, q := Start(rows, outs), Start(once, outs);
    var mid := Visits(p, valid, version, now, false).rows;
    CommitReconciles(rows, outs, version, now);
    KnownAreUrls(p, valid, version, now, false);
    assert p.known + Urls(valid) == Urls(valid);
    RowsFixedByLast(p, valid, version, now);
    FlaggingKeepsFixed(mid, valid, version);
    VisitsKeepUnique(p, valid, version, now, false);
    SecondPass(q, valid, version, later);
    FlaggedTwice(mid, version, AsSet(Urls(valid)));
  }

  lemma SecondPass(q: Progress, valid: seq<Outline>, version: string, now: int)
    requires UniqueUrls(q.rows) && !q.failed && (forall u | u in Urls(valid) :: HasUrl(q.rows, u))
        && AllFixed(q.rows, valid, version)
    requires q.known == []
    ensures Finish(Visits(q, valid, version, now, false), version, false).rows
        == Flagged(q.rows, version, AsSet(Urls(valid)))
  {
    FixedPassChangesNothing(q, valid, version, now);
    KnownAreUrls(q, valid, version, now, false);
    assert q.known + Urls(valid) == Urls(valid);
  }

  // ---------------------------------------------------------------------------------------
  // Outline by outline
  // ---------------------------------------------------------------------------------------

  /** How one outline is classified; None without a usable url. */
  ghost function ClassOf(rows: Registry, o: Outline, version: string): Option<Change> {
    var e := EntryOf(o);
    if e.Some? then Some(ChangeOf(Existing(rows, e.value.url), e.value, version)) else None
  }

  /** How the outlines are classified, in order. */
  ghost function Classes(p: Progress, outs: seq<Outline>, version: string, now: int, dryRun: bool)
    : (r: seq<Option<Change>>)
    ensures |r| == |outs|
  {
    if outs == [] then []
    else
      var rest := outs[..|outs| - 1];
      Classes(p, rest, version, now, dryRun)
      + [ClassOf(Visits(p, rest, version, now, dryRun).rows, outs[|outs| - 1], version)]
  }

  function CountOf(classes: seq<Option<Change>>, c: Change): nat {
    if classes == [] then 0
    else CountOf(classes[..|classes| - 1], c) + (if classes[|classes| - 1] == Some(c) then 1 else 0)
  }

  lemma CountOfAppend(classes: seq<Option<Change>>, last: Option<Change>, c: Change)
    ensures CountOf(classes + [last], c) == CountOf(classes, c) + (if last == Some(c) then 1 else 0)
  {
    assert (classes + [last])[..|classes|] == classes;
  }

  predicate Counts(r: Report, before: Report, classes: seq<Option<Change>>) {
    && r.added == before.added + CountOf(classes, New)
    && r.changed == before.changed + CountOf(classes, Changed)
    && r.same == before.same + CountOf(classes, Unchanged)
  }

  lemma VisitCounts(q: Progress, o: Outline, version: string, now: int, dryRun: bool, before: Report,
      classes: seq<Option<Change>>)
    requires !q.failed && Counts(q.report, before, classes)
    ensures Counts(Visit(q, o, version, now, dryRun).report, before, classes + [ClassOf(q.rows, o, version)])
  {
    var last := ClassOf(q.rows, o, version);
    CountOfAppend(classes, last, New);
    CountOfAppend(classes, last, Changed);
    CountOfAppend(classes, last, Unchanged);
  }

  /** The report counts the classes. */
  lemma {:induction false} ReportCountsClasses(p: Progress, outs: seq<Outline>, version: string, now: int, dryRun: bool)
    requires !Visits(p, outs, version, now, dryRun).failed
    ensures Counts(Visits(p, outs, version, now, dryRun).report, p.report, Classes(p, outs, version, now, dryRun))
  {
    if outs != [] {
      var rest := outs[..|outs| - 1];
      ReportCountsClasses(p, rest, version, now, dryRun);
      VisitCounts(Visits(p, rest, version, now, dryRun), outs[|outs| - 1], version, now, dryRun, p.report,
                  Classes(p, rest, version, now, dryRun));
    }
  }

  /**
   * The k-th outline repeats a url that the registry holds, and agrees with the registry exactly when it
   * agrees with the outline before it.
   */
  ghost predicate RepeatsAlike(rows: Registry, outs: seq<Outline>, k: nat, version: string)
    requires k < |outs| && EntryOf(outs[k]).Some? && EntryOf(outs[k]).value.url in Urls(outs[..k])
  {
    var e := EntryOf(outs[k]).value;
    && HasUrl(rows, e.url)
    && (Settled(Existing(rows, e.url), e, version) <==> LastEntry(outs[..k], e.url).value.meta == e.meta)
  }

  /** No repeated url tells the two runs apart at the k-th outline. */
  ghost predicate Alike(rows: Registry, outs: seq<Outline>, k: nat, version: string)
    requires k < |outs|
  {
    EntryOf(outs[k]).Some? && EntryOf(outs[k]).value.url in Urls(outs[..k]) ==> RepeatsAlike(rows, outs, k, version)
  }

  /** Halfway through a commit, a used url has the row that the last outline with it describes. */
  lemma UsedUrlSaysLast(p: Progress, outs: seq<Outline>, version: string, now: int, url: string)
    requires UniqueUrls(p.rows) && !Visits(p, outs, version, now, false).failed && url in Urls(outs)
    ensures var f := Existing(Visits(p, outs, version, now, false).rows, url);
      f.Some? && f.value.meta == LastEntry(outs, url).value.meta && VersionOf(f.value) == version
  {
    VisitedUrlsArePresent(p, outs, version, now, url);
    RowsFixedByLast(p, outs, version, now);
    var rows := Visits(p, outs, version, now, false).rows;
    var id :| id in rows && rows[id] == Existing(rows, url).value && rows[id].url == url;
    assert Fixed(rows[id], LastEntry(outs, url), version);
  }

  lemma LastClassAgrees(p: Progress, outs: seq<Outline>, k: nat, q: Progress, version: string, now: int)
    requires UniqueUrls(p.rows) && k < |outs| && q == Visits(p, outs[..k], version, now, false) && !q.failed
    ensures ClassOf(p.rows, outs[k], version) == ClassOf(q.rows, outs[k], version) <==>
            Alike(p.rows, outs, k, version)
  {
    if EntryOf(outs[k]).Some? {
      var e := EntryOf(outs[k]).value;
      if e.url in Urls(outs[..k]) {
        UsedUrlSaysLast(p, outs[..k], version, now, e.url);
        UnchangedMeansEqual(Existing(q.rows, e.url).value, e, version);
      } else {
        UnusedUrlUntouched(p, outs[..k], version, now, e.url);
      }
    }
  }

  /** The k-th class is taken against the registry as the outlines before it left it. */
  lemma {:induction false} ClassAt(p: Progress, outs: seq<Outline>, k: nat, version: string, now: int, dryRun: bool)
    requires k < |outs|
    ensures Classes(p, outs, version, now, dryRun)[k] ==
            ClassOf(Visits(p, outs[..k], version, now, dryRun).rows, outs[k], version)
    decreases |outs|
  {
    if k < |outs| - 1 {
      var rest := outs[..|outs| - 1];
      assert rest[..k] == outs[..k];
      ClassAt(p, rest, k, version, now, dryRun);
    }
  }

  lemma FineSoFar(p: Progress, outs: seq<Outline>, k: nat, version: string, now: int)
    requires k <= |outs| && !Visits(p, outs, version, now, false).failed
    ensures !Visits(p, outs[..k], version, now, false).failed
  {
    if Visits(p, outs[..k], version, now, false).failed {
      FailureIsFinal(p, outs, k, version, now, false);
    }
  }

  lemma ClassAgrees(p: Progress, outs: seq<Outline>, k: nat, version: string, now: int)
    requires UniqueUrls(p.rows) && !p.failed && !Visits(p, outs, version, now, false).failed && k < |outs|
    ensures Classes(p, outs, version, now, true)[k] == Classes(p, outs, version, now, false)[k] <==>
            Alike(p.rows, outs, k, version)
  {
    FineSoFar(p, outs, k, version, now);
    VisitsKeepRuntime(p, outs[..k], version, now, true);
    ClassAt(p, outs, k, version, now, true);
    ClassAt(p, outs, k, version, now, false);
    LastClassAgrees(p, outs, k, Visits(p, outs[..k], version, now, false), version, now);
  }

  /**
   * The dry run classifies every outline as the commit does exactly when no repeated url tells them
   * apart: the registry holds it, and agrees with the repetition just when the outline before it does.
   */
  lemma DryRunClassifiesExactly(rows: Registry, outs: seq<Outline>, version: string, now: int)
    requires UniqueUrls(rows) && !Clashes(rows, Valid(outs))
    ensures var p, valid := Start(rows, outs), Valid(outs);
      Classes(p, valid, version, now, true) == Classes(p, valid, version, now, false)
      <==> forall k | 0 <= k < |valid| :: Alike(rows, valid, k, version)
  {
    CommitFailsExactly(rows, outs, version, now);
    var p, valid := Start(rows, outs), Valid(outs);
    forall k | 0 <= k < |valid|
      ensures Classes(p, valid, version, now, true)[k] == Classes(p, valid, version, now, false)[k] <==>
              Alike(rows, valid, k, version)
    {
      ClassAgrees(p, valid, k, version, now);
    }
  }

  // ---------------------------------------------------------------------------------------
  // A feed pack that misleads
  // ---------------------------------------------------------------------------------------

  lemma TwoOfOneUrl(a: Outline, b: Outline)
    requires EntryOf(a).Some? && EntryOf(b).Some? && EntryOf(a).value.url == EntryOf(b).value.url
    ensures !Clashes(map[], [a, b]) && Absent(map[], Urls([a, b])) == Urls([a, b])
    ensures |Urls([a, b])| == 2 && |AsSet(Urls([a, b]))| == 1
  {
    var outs, none := [a, b], map[];
    UrlsOfTwo(a, b);
    assert outs[..0] == [] && outs[..1] == [a];
    assert !Clash(none, outs, 0) && !MustInsert(none, outs, 1);
    FilterAll(Urls(outs), u => !HasUrl(none, u));
    assert AsSet(Urls(outs)) == {EntryOf(a).value.url};
  }

  /** Two outlines of one url that contradict each other, imported into an empty registry. */
  lemma ContradictionMisleads(a: Outline, b: Outline, version: string, now: int, later: int)
    requires a.invalid == "" && b.invalid == "" && EntryOf(a).Some? && EntryOf(b).Some?
    requires EntryOf(a).value.url == EntryOf(b).value.url && EntryOf(a).value.meta != EntryOf(b).value.meta
    ensures var dry, once := Import(map[], [a, b], version, now, true), Import(map[], [a, b], version, now, false);
      var twice := Import(once.rows, [a, b], version, later, false);
      && dry.answer.Ok? && once.answer.Ok? && twice.answer.Ok?
      && dry.answer.value.added == 2 && once.answer.value.added == 1 && twice.answer.value.changed > 0
  {
    var outs, none := [a, b], map[];
    var p := Start(none, outs);
    TwoValid(a, b);
    TwoOfOneUrl(a, b);
    CommitFailsExactly(none, outs, version, now);
    VisitsKeepRuntime(p, outs, version, now, true);
    DryCountsOccurrences(p, outs, version, now);
    CommitCountsUrls(p, outs, version, now);
    assert !Agree(EntryOf(outs[0]), EntryOf(outs[1]));
    CommitAgain(none, outs, version, now, later);
  }
}
