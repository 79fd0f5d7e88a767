/**
 * Importing a feed pack (store/imports.go): every outline is compared with the registry, and a
 * commit also writes it. A commit is one store call per outline, so a failing insert leaves the
 * outlines before it written.
 */
module FeedImport {
  import opened Wrappers
  import opened PollDelay
  import opened FeedRegistry
  import opened Seqs

  /** What url canonicalisation answers for an outline's xmlUrl. */
  datatype Canon = Canon(normalized: string, canonical: string)

  /** A parsed outline; `invalid` is the reason the parser rejected it, if it did. */
  datatype Outline = Outline(
    title: string, xmlUrl: string, htmlUrl: string, language: string, scope: string, categoryKey: string,
    sourceType: string, priority: int, invalid: string, feedId: FeedId, sourceId: string, canon: Option<Canon>)

  datatype Detail =
    | NoDetail | Reason(text: string) | CategoryMoved(from: string, to: string) | PriorityChanged
    | TierMoved(tierBefore: Tier, tierAfter: Tier) | SourceTypeMoved(before: string, after: string)
    | MetadataChangedOnly

  datatype Sample = Sample(xmlUrl: string, title: string, kind: string, detail: Detail)

  datatype Report = Report(
    total: nat, added: nat, changed: nat, same: nat, invalid: nat,
    inserted: nat, updated: nat, missing: nat, samples: seq<Sample>)

  const MAX_INVALID_SAMPLES: nat := 20
  const MAX_SAMPLES: nat := 60

  // ---------------------------------------------------------------------------------------
  // One outline against the registry
  // ---------------------------------------------------------------------------------------

  function PollTierFor(sourceType: string, priority: int): Tier {
    if sourceType == "OFFICIAL_REALTIME" then Breaking
    else if sourceType == "VALIDATED_DIRECT" && priority >= 5 then High
    else if sourceType == "DIRECT_PUBLISHER" && priority >= 4 then High
    else if sourceType == "OPPORTUNITY_FEED" || sourceType == "TENDER_FEED" then Opportunity
    else if sourceType == "AGGREGATOR_SEARCH" && priority <= 2 then Slow
    else Normal
  }

  /** What a usable outline says; None when its url has no normalised form. */
  function EntryOf(o: Outline): (e: Option<Entry>)
    ensures e.Some? ==> o.canon.Some? && e.value.url == o.canon.value.normalized != ""
  {
    if o.canon == None || o.canon.value.normalized == "" then None
    else
      Some(Entry(o.feedId, o.canon.value.normalized, o.sourceId,
        Meta(o.title, o.xmlUrl, if o.htmlUrl != "" then o.htmlUrl else o.canon.value.canonical, o.language, o.scope,
             o.categoryKey, o.sourceType, o.priority, PollTierFor(o.sourceType, o.priority))))
  }

  function VersionOf(f: Feed): string {
    if f.packVersion.Some? then f.packVersion.value else ""
  }

  predicate FeedMetadataChanged(f: Feed, e: Entry, version: string) {
    || f.meta.title != e.meta.title
    || f.meta.xmlUrl != e.meta.xmlUrl
    || f.meta.htmlUrl != e.meta.htmlUrl
    || f.meta.language != e.meta.language
    || f.meta.scope != e.meta.scope
    || f.meta.categoryKey != e.meta.categoryKey
    || f.meta.sourceType != e.meta.sourceType
    || f.meta.priority != e.meta.priority
    || f.meta.tier != e.meta.tier
    || VersionOf(f) != version
  }

  function ChangeDetail(f: Feed, e: Entry): Detail {
    if f.meta.categoryKey != e.meta.categoryKey then CategoryMoved(f.meta.categoryKey, e.meta.categoryKey)
    else if f.meta.priority != e.meta.priority then PriorityChanged
    else if f.meta.tier != e.meta.tier then TierMoved(f.meta.tier, e.meta.tier)
    else if f.meta.sourceType != e.meta.sourceType then SourceTypeMoved(f.meta.sourceType, e.meta.sourceType)
    else MetadataChangedOnly
  }

  /** The detail names the first of category, priority, tier and source type that changed. */
  lemma DetailNamesFirstChange(f: Feed, e: Entry)
    ensures var d, same := ChangeDetail(f, e), f.meta.categoryKey == e.meta.categoryKey;
      && (!same <==> d == CategoryMoved(f.meta.categoryKey, e.meta.categoryKey))
      && (same && f.meta.priority != e.meta.priority <==> d == PriorityChanged)
      && (same && f.meta.priority == e.meta.priority && f.meta.tier != e.meta.tier
          <==> d == TierMoved(f.meta.tier, e.meta.tier))
      && (d == MetadataChangedOnly
          <==> same && f.meta.priority == e.meta.priority && f.meta.tier == e.meta.tier
               && f.meta.sourceType == e.meta.sourceType)
  {
  }

  /** The columns the comparison looks at are exactly those an import owns, less the source id. */
  lemma UnchangedMeansEqual(f: Feed, e: Entry, version: string)
    ensures !FeedMetadataChanged(f, e, version) <==> f.meta == e.meta && VersionOf(f) == version
  {
  }

  datatype Change = New | Changed | Unchanged

  function ChangeOf(existing: Option<Feed>, e: Entry, version: string): Change {
    if existing == None then New
    else if FeedMetadataChanged(existing.value, e, version) then Changed
    else Unchanged
  }

  function Sampled(samples: seq<Sample>, s: Sample): seq<Sample> {
    if |samples| < MAX_SAMPLES then samples + [s] else samples
  }

  function Counted(r: Report, o: Outline, existing: Option<Feed>, e: Entry, version: string): Report {
    match ChangeOf(existing, e, version)
    case New =>
      r.(added := r.added + 1,
         samples := Sampled(r.samples, Sample(o.xmlUrl, o.title, "new", Reason(o.sourceType))))
    case Changed =>
      r.(changed := r.changed + 1,
         samples := Sampled(r.samples, Sample(o.xmlUrl, o.title, "changed", ChangeDetail(existing.value, e))))
    case Unchanged => r.(same := r.same + 1)
  }

  // ---------------------------------------------------------------------------------------
  // The registry by url
  // ---------------------------------------------------------------------------------------

  /** The table's unique constraint. */
  ghost predicate UniqueUrls(rows: Registry) {
    forall a, b | a in rows && b in rows && rows[a].url == rows[b].url :: a == b
  }

  ghost function Existing(rows: Registry, url: string): (f: Option<Feed>)
    ensures f == None <==> !HasUrl(rows, url)
    ensures f.Some? ==> exists id | id in rows :: rows[id] == f.value && rows[id].url == url
  {
    if HasUrl(rows, url) then
      var id :| id in rows && rows[id].url == url;
      Some(rows[id])
    else None
  }

  lemma ExistingIs(rows: Registry, id: FeedId)
    requires UniqueUrls(rows) && id in rows
    ensures Existing(rows, rows[id].url) == Some(rows[id])
  {
  }

  /** Two tables hold the same row, or none, for a url. */
  lemma SameExisting(a: Registry, b: Registry, url: string)
    requires UniqueUrls(a) && UniqueUrls(b)
    requires forall id | id in a && a[id].url == url :: id in b && b[id] == a[id]
    requires forall id | id in b && b[id].url == url :: id in a && a[id] == b[id]
    ensures Existing(a, url) == Existing(b, url)
  {
    if HasUrl(a, url) {
      var id :| id in a && a[id].url == url;
      ExistingIs(a, id);
      ExistingIs(b, id);
    }
  }

  lemma UpsertKeepsUnique(rows: Registry, e: Entry, version: string, now: int)
    requires UniqueUrls(rows) && !UpsertFails(rows, e)
    ensures UniqueUrls(Upserted(rows, e, version, now))
  {
    var next := Upserted(rows, e, version, now);
    forall a, b | a in next && b in next && next[a].url == next[b].url
      ensures a == b
    {
      if a in rows && b in rows {
        assert rows[a].url == next[a].url && rows[b].url == next[b].url;
      }
    }
  }

  lemma UpsertElsewhere(rows: Registry, e: Entry, version: string, now: int, url: string)
    requires UniqueUrls(rows) && !UpsertFails(rows, e) && url != e.url
    ensures Existing(Upserted(rows, e, version, now), url) == Existing(rows, url)
  {
    UpsertKeepsUnique(rows, e, version, now);
    SameExisting(rows, Upserted(rows, e, version, now), url);
  }

  lemma UpsertHere(rows: Registry, e: Entry, version: string, now: int)
    requires UniqueUrls(rows) && !UpsertFails(rows, e)
    ensures Existing(Upserted(rows, e, version, now), e.url) ==
            Some(if HasUrl(rows, e.url) then Refreshed(Existing(rows, e.url).value, e, version)
                else NewFeed(e, version, now))
  {
    var next := Upserted(rows, e, version, now);
    UpsertKeepsUnique(rows, e, version, now);
    if HasUrl(rows, e.url) {
      var id :| id in rows && rows[id].url == e.url;
      ExistingIs(rows, id);
      ExistingIs(next, id);
    } else {
      ExistingIs(next, e.id);
    }
  }

  // ---------------------------------------------------------------------------------------
  // The whole pack
  // ---------------------------------------------------------------------------------------

  datatype Progress = Progress(rows: Registry, report: Report, known: seq<string>, failed: bool)

  ghost function Visit(p: Progress, o: Outline, version: string, now: int, dryRun: bool): Progress {
    if p.failed then p
    else if EntryOf(o) == None then p.(report := p.report.(invalid := p.report.invalid + 1))
    else
      var e := EntryOf(o).value;
      var q := p.(known := p.known + [e.url], report := Counted(p.report, o, Existing(p.rows, e.url), e, version));
      if dryRun then q
      else if UpsertFails(p.rows, e) then q.(failed := true)
      else
        q.(rows := Upserted(p.rows, e, version, now),
           report := if HasUrl(p.rows, e.url) then q.report.(updated := q.report.updated + 1)
                     else q.report.(inserted := q.report.inserted + 1))
  }

  ghost function Visits(p: Progress, outs: seq<Outline>, version: string, now: int, dryRun: bool): Progress {
    if outs == [] then p
    else Visit(Visits(p, outs[..|outs| - 1], version, now, dryRun), outs[|outs| - 1], version, now, dryRun)
  }

  function Valid(outs: seq<Outline>): seq<Outline> {
    Filter(outs, (o: Outline) => o.invalid == "")
  }

  function Invalid(outs: seq<Outline>): seq<Outline> {
    Filter(outs, (o: Outline) => o.invalid != "")
  }

  function InvalidSample(o: Outline): Sample {
    Sample(o.xmlUrl, o.title, "invalid", Reason(o.invalid))
  }

  function InvalidSamples(outs: seq<Outline>): seq<Sample> {
    var n := if |outs| < MAX_INVALID_SAMPLES then |outs| else MAX_INVALID_SAMPLES;
    seq(n, i requires 0 <= i < n => InvalidSample(outs[i]))
  }

  function Start(rows: Registry, outs: seq<Outline>): Progress {
    Progress(rows, Report(|outs|, 0, 0, 0, |Invalid(outs)|, 0, 0, 0, InvalidSamples(Invalid(outs))), [], false)
  }

  function AsSet(urls: seq<string>): set<string> {
    set u | u in urls
  }

  const MISSING_SAMPLE: Sample :=
    Sample("", "", "missing", Reason("feeds absent from this pack are flagged needs_review and never auto-deleted"))

  function WithMissing(r: Report, missing: nat): Report {
    r.(missing := missing, samples := if missing > 0 then r.samples + [MISSING_SAMPLE] else r.samples)
  }

  /** The table and the answer after an import. */
  datatype Outcome = Outcome(rows: Registry, answer: Result<Report, ()>)

  ghost function Finish(p: Progress, version: string, dryRun: bool): Outcome {
    if p.failed then Outcome(p.rows, Err(()))
    else
      var report := WithMissing(p.report, |MissingIds(p.rows, version, AsSet(p.known))|);
      Outcome(if dryRun then p.rows else Flagged(p.rows, version, AsSet(p.known)), Ok(report))
  }

  ghost function Import(rows: Registry, outs: seq<Outline>, version: string, now: int, dryRun: bool): Outcome {
    Finish(Visits(Start(rows, outs), Valid(outs), version, now, dryRun), version, dryRun)
  }

  lemma {:induction false} VisitsKeepUnique(p: Progress, outs: seq<Outline>, version: string, now: int, dryRun: bool)
    requires UniqueUrls(p.rows)
    ensures UniqueUrls(Visits(p, outs, version, now, dryRun).rows)
  {
    if outs != [] {
      var q := Visits(p, outs[..|outs| - 1], version, now, dryRun);
      var o := outs[|outs| - 1];
      VisitsKeepUnique(p, outs[..|outs| - 1], version, now, dryRun);
      if !q.failed && EntryOf(o).Some? && !UpsertFails(q.rows, EntryOf(o).value) {
        UpsertKeepsUnique(q.rows, EntryOf(o).value, version, now);
      }
    }
  }

  lemma SameRow(rows: Registry, url: string, f: Option<Feed>)
    requires UniqueUrls(rows) && (f == None <==> !HasUrl(rows, url))
    requires f.Some? ==> f.value.url == url && exists id | id in rows :: rows[id] == f.value
    ensures f == Existing(rows, url)
  {
    if f.Some? {
      var id :| id in rows && rows[id] == f.value;
      ExistingIs(rows, id);
    }
  }

  /** After a failing insert nothing more happens. */
  lemma {:induction false} FailureIsFinal(p: Progress, outs: seq<Outline>, k: nat, version: string, now: int,
      dryRun: bool)
    requires k <= |outs| && Visits(p, outs[..k], version, now, dryRun).failed
    ensures Visits(p, outs, version, now, dryRun) == Visits(p, outs[..k], version, now, dryRun)
    decreases |outs|
  {
    if k == |outs| {
      assert outs[..k] == outs;
    } else {
      var rest := outs[..|outs| - 1];
      assert rest[..k] == outs[..k];
      FailureIsFinal(p, rest, k, version, now, dryRun);
    }
  }

  /** Outlines the parser rejected, the first twenty of them as samples. */
  method RejectedSamples(invalid: seq<Outline>) returns (samples: seq<Sample>)
    ensures samples == InvalidSamples(invalid)
  {
    samples := [];
    for i := 0 to |invalid|
      invariant |samples| == i <= MAX_INVALID_SAMPLES
      invariant forall k | 0 <= k < i :: samples[k] == InvalidSample(invalid[k])
    {
      if i >= MAX_INVALID_SAMPLES {
        break;
      }
      samples := samples + [InvalidSample(invalid[i])];
    }
  }

  /** Where the import loop is after i outlines. */
  ghost predicate Imported(start: Progress, valid: seq<Outline>, i: nat, version: string, now: int, dryRun: bool,
      p: Progress)
    requires i <= |valid|
  {
    Visits(start, valid[..i], version, now, dryRun) == p
  }

  lemma ImportedNext(start: Progress, valid: seq<Outline>, i: nat, version: string, now: int, dryRun: bool, p: Progress)
    requires i < |valid| && Imported(start, valid, i, version, now, dryRun, p)
    ensures Imported(start, valid, i + 1, version, now, dryRun, Visit(p, valid[i], version, now, dryRun))
  {
    assert valid[..i + 1][..i] == valid[..i];
  }

  lemma ImportedAll(start: Progress, valid: seq<Outline>, version: string, now: int, dryRun: bool, p: Progress)
    requires Imported(start, valid, |valid|, version, now, dryRun, p)
    ensures Visits(start, valid, version, now, dryRun) == p
  {
    assert valid[..|valid|] == valid;
  }

  lemma ImportedFails(start: Progress, valid: seq<Outline>, i: nat, version: string, now: int, dryRun: bool,
      p: Progress)
    requires i <= |valid| && Imported(start, valid, i, version, now, dryRun, p) && p.failed
    ensures Visits(start, valid, version, now, dryRun) == p
  {
    FailureIsFinal(start, valid, i, version, now, dryRun);
  }

  /** The body of the import loop. */
  method ImportOutline(store: FeedStore, o: Outline, version: string, now: int, dryRun: bool, report: Report,
      known: seq<string>)
    returns (next: Report, urls: seq<string>, failed: bool)
    requires UniqueUrls(store.rows)
    modifies store
    ensures Progress(store.rows, next, urls, failed)
        == Visit(Progress(old(store.rows), report, known, false), o, version, now, dryRun)
    ensures UniqueUrls(store.rows)
  {
    next, urls, failed := report, known, false;
    var entry := EntryOf(o);
    if entry == None {
      next := report.(invalid := report.invalid + 1);
      return;
    }
    var e := entry.value;
    urls := known + [e.url];
    var existing := store.FeedByNormalizedURL(e.url);
    SameRow(store.rows, e.url, existing);
    next := Counted(report, o, existing, e, version);
    if !dryRun {
      ghost var before := store.rows;
      var inserted := store.UpsertFeedFromImport(e, version, now);
      if inserted == Err(()) {
        failed := true;
        return;
      }
      UpsertKeepsUnique(before, e, version, now);
      next := if inserted.value then next.(inserted := next.inserted + 1) else next.(updated := next.updated + 1);
    }
  }

  method ImportFeedPack(store: FeedStore, outs: seq<Outline>, version: string, now: int, dryRun: bool)
    returns (answer: Result<Report, ()>)
    requires UniqueUrls(store.rows)
    modifies store
    ensures Outcome(store.rows, answer) == Import(old(store.rows), outs, version, now, dryRun)
    ensures UniqueUrls(store.rows)
  {
    var valid, rejected := Valid(outs), Invalid(outs);
    var samples := RejectedSamples(rejected);
    var report := Report(|outs|, 0, 0, 0, |rejected|, 0, 0, 0, samples);
    var known: seq<string> := [];
    ghost var start := Start(store.rows, outs);
    for i := 0 to |valid|
      invariant Imported(start, valid, i, version, now, dryRun, Progress(store.rows, report, known, false))
      invariant UniqueUrls(store.rows)
    {
      var failed: bool;
      ImportedNext(start, valid, i, version, now, dryRun, Progress(store.rows, report, known, false));
      report, known, failed := ImportOutline(store, valid[i], version, now, dryRun, report, known);
      if failed {
        ImportedFails(start, valid, i + 1, version, now, dryRun, Progress(store.rows, report, known, true));
        return Err(());
      }
    }
    ImportedAll(start, valid, version, now, dryRun, Progress(store.rows, report, known, false));
    var missing: nat;
    if !dryRun {
      missing := store.MarkFeedsMissingFromPack(version, known);
    } else {
      missing := |MissingIds(store.rows, version, AsSet(known))|;
    }
    answer := Ok(WithMissing(report, missing));
  }

  // ---------------------------------------------------------------------------------------
  // Accounting
  // ---------------------------------------------------------------------------------------

  function Classified(r: Report): nat {
    r.added + r.changed + r.same + r.invalid
  }

  lemma {:induction false} EveryOutlineIsCounted(p: Progress, outs: seq<Outline>, version: string, now: int,
      dryRun: bool)
    requires !Visits(p, outs, version, now, dryRun).failed
    ensures Classified(Visits(p, outs, version, now, dryRun).report) == Classified(p.report) + |outs|
    ensures Visits(p, outs, version, now, dryRun).report.total == p.report.total
  {
    if outs != [] {
      EveryOutlineIsCounted(p, outs[..|outs| - 1], version, now, dryRun);
    }
  }

  lemma {:induction false} ValidOrInvalid(outs: seq<Outline>)
    ensures |Valid(outs)| + |Invalid(outs)| == |outs|
  {
    if outs != [] {
      ValidOrInvalid(outs[1..]);
    }
  }

  /** New, changed, unchanged and invalid add up to the outlines of the feed pack. */
  lemma ReportAddsUp(rows: Registry, outs: seq<Outline>, version: string, now: int, dryRun: bool)
    requires Import(rows, outs, version, now, dryRun).answer.Ok?
    ensures Classified(Import(rows, outs, version, now, dryRun).answer.value) == |outs|
    ensures Import(rows, outs, version, now, dryRun).answer.value.total == |outs|
  {
    EveryOutlineIsCounted(Start(rows, outs), Valid(outs), version, now, dryRun);
    ValidOrInvalid(outs);
  }

  lemma {:induction false} WritesMatch(p: Progress, outs: seq<Outline>, version: string, now: int)
    requires !Visits(p, outs, version, now, false).failed
    requires p.report.inserted == p.report.added && p.report.updated == p.report.changed + p.report.same
    ensures var r := Visits(p, outs, version, now, false).report;
      r.inserted == r.added && r.updated == r.changed + r.same
  {
    if outs != [] {
      WritesMatch(p, outs[..|outs| - 1], version, now);
    }
  }

  /** A commit inserts exactly what it reports as new, and updates all the other usable outlines. */
  lemma CommitWritesWhatItReports(rows: Registry, outs: seq<Outline>, version: string, now: int)
    requires Import(rows, outs, version, now, false).answer.Ok?
    ensures var r := Import(rows, outs, version, now, false).answer.value;
      r.inserted == r.added && r.updated == r.changed + r.same
  {
    WritesMatch(Start(rows, outs), Valid(outs), version, now);
  }

  // ---------------------------------------------------------------------------------------
  // What an import leaves alone
  // ---------------------------------------------------------------------------------------

  /** Every feed is still there with its url and all the worker's columns. */
  ghost predicate RuntimeKept(rows: Registry, later: Registry) {
    forall id | id in rows :: id in later && later[id].run == rows[id].run && later[id].url == rows[id].url
  }

  lemma {:induction false} VisitsKeepRuntime(p: Progress, outs: seq<Outline>, version: string, now: int, dryRun: bool)
    ensures RuntimeKept(p.rows, Visits(p, outs, version, now, dryRun).rows)
    ensures dryRun ==> Visits(p, outs, version, now, dryRun).rows == p.rows
    ensures dryRun && !p.failed ==> !Visits(p, outs, version, now, dryRun).failed
  {
    if outs != [] {
      VisitsKeepRuntime(p, outs[..|outs| - 1], version, now, dryRun);
    }
  }

  /**
   * No import, not even one that stops at a failing insert, deletes a feed or touches a lease, poll
   * time, health, etag or failure count; a dry run changes nothing and cannot fail.
   */
  lemma ImportKeepsRuntime(rows: Registry, outs: seq<Outline>, version: string, now: int, dryRun: bool)
    ensures RuntimeKept(rows, Import(rows, outs, version, now, dryRun).rows)
    ensures dryRun ==> Import(rows, outs, version, now, dryRun).rows == rows
    ensures dryRun ==> Import(rows, outs, version, now, dryRun).answer.Ok?
  {
    VisitsKeepRuntime(Start(rows, outs), Valid(outs), version, now, dryRun);
  }

  lemma VisitSamplesFew(p: Progress, o: Outline, version: string, now: int, dryRun: bool)
    requires |p.report.samples| <= MAX_SAMPLES
    ensures |Visit(p, o, version, now, dryRun).report.samples| <= MAX_SAMPLES
  {
  }

  lemma {:induction false} VisitsSampleFew(p: Progress, outs: seq<Outline>, version: string, now: int, dryRun: bool)
    requires |p.report.samples| <= MAX_SAMPLES
    ensures |Visits(p, outs, version, now, dryRun).report.samples| <= MAX_SAMPLES
  {
    if outs != [] {
      VisitsSampleFew(p, outs[..|outs| - 1], version, now, dryRun);
      VisitSamplesFew(Visits(p, outs[..|outs| - 1], version, now, dryRun), outs[|outs| - 1], version, now, dryRun);
    }
  }

  /** A report shows at most sixty outlines, and one line more when feeds are missing. */
  lemma SamplesAreFew(rows: Registry, outs: seq<Outline>, version: string, now: int, dryRun: bool)
    requires Import(rows, outs, version, now, dryRun).answer.Ok?
    ensures var r := Import(rows, outs, version, now, dryRun).answer.value;
      |r.samples| <= 60 + (if r.missing > 0 then 1 else 0)
  {
    VisitsSampleFew(Start(rows, outs), Valid(outs), version, now, dryRun);
  }
}
