# A model of the aggregator's stateful engines

This project models the algorithmic core of the Afghanistan news aggregator: the parts of its Go
backend (and one piece of its Android app) that keep state between calls or transform data, and
whose promises span many calls. Every module verifies with Dafny 4.11; `dafny verify dfyconfig.toml`
checks the whole project.

| module | what it models |
| --- | --- |
| `PollDelay`, `FeedRegistry`, `LeaseProtocol`, `FeedLife`, `IngestWorker` | the lease scheduler: the feeds table as a class, its store calls, the interleavings of any number of workers (crashes, late finishers and imports included), what they keep of one feed's row, and one worker's handling of a feed |
| `CursorCodec`, `Pagination` | the opaque cursor, down to decimal numerals and unpadded base64url (section 5 of RFC 4648), and keyset pages on a store that changes between requests |
| `Placeholders`, `ArticleQueries`, `QueryMeaning` | the `$n` to `?` rewriter with the driver-side argument list, the query builder whose statements go through it, and what a built statement means on a table: its conditions, its orderings and the rows it fetches |
| `RateLimiter`, `CircuitBreaker`, `DomainLimiter` | token buckets with garbage collection, the per-host breaker, and the sliding window that compacts its list in place |
| `FeedImport`, `ImportRun`, `ImportAgreement`, `FeedPack` | importing a feed pack, dry run and commit: when a commit stops halfway, what a dry run, a commit and a repetition have to do with each other, and what the parser's duplicate check rules out |
| `ArticleStore`, `OfferedArticles` | staged deduplication: the table's side, and what it comes to for the articles offered |
| `RelatedStories`, `SourceDiversity`, `WordSearch`, `TopicKeywords`, `RecentSearches` | the bounded merge, the card reordering, the whole-word scan with the fixed keywords it is used for, and the app's recent-search list |
| `XmlTree`, `XmlText`, `XmlNodes` | the bounded tree builder: its meaning on values, where character data goes, and the builder itself on node objects that grow in place |
| `Common`, `Wrappers`, `Seqs`, `Text` | durations and dialects, optional values, filtering, and text (numerals, split and join, trimming) |

Conventions. A table is a map, and a store call is one atomic step. Time is an integer number of
nanoseconds. A query with ORDER BY and LIMIT is a sort followed by a take; ties the source leaves
open are left open. Rates and tokens are exact reals. Each state-changing operation is a method
proved against a function of the old state, and the results about runs are lemmas about that function.
Beside that, what a caller can observe is stated a second time without those functions: column by column,
in plain numbers, or in terms of what went in.

What the proofs found out about the code:

- Spacing (`LeaseProtocol.ClaimsAreSpaced`) holds without any owner check on finishing, but the poll
  time is computed from a clock reading taken before the write, so the guaranteed gap is two minutes
  less that delay. A 429 with a Retry-After below two minutes is the one real exception
  (`LeaseProtocol.ShortRetryAfterBreaksSpacing`).
- As long as every worker writes within its lease, a feed's failure count is the number of failures since its
  last success (`FeedLife.CountIsFailuresInARow`); a worker that is still busy when its lease lapses can make
  two failures in a row show as one (`FeedLife.LateFailureMiscounts`).
- Rewriting placeholders keeps a statement's meaning exactly when its text has no `?` of its own
  (`Placeholders.RebindKeepsMeaning`). The two dialects' argument checks accept different statements;
  `Placeholders.ChecksAgreeExactly` says when they agree, and no built statement tells them apart.
- A rate limit of one to three requests a minute never grants anything, because the burst is a quarter
  of it (`RateLimiter.TooSlowNeverGrants`). From four on, a client that keeps to the rate is never refused
  (`RateLimiter.UnhurriedIsNeverRefused`).
- A dry run over-reports new feeds exactly when a url the registry lacks occurs twice in the feed pack
  (`ImportAgreement.NewForecastExactly`); a feed listed under http and https gets past the parser and is
  such a case (`FeedPack.TwoSchemesMislead`). Committing a feed pack again reports changes exactly when it
  contradicts itself about a url (`ImportAgreement.CommitAgain`), although the registry is unchanged by
  it (`ImportAgreement.CommitIsIdempotent`).
- The parser's duplicate check keeps ids apart within one feed pack, so a commit stops exactly when a url
  new to the registry comes with an id that the registry has given to another url, and never on an empty
  registry (`FeedPack.CommitOfParsedFailsExactly`). A feed whose url loses its dot segments from one
  version of the feed pack to the next is such a case, and what the stopped commit wrote before stays
  (`FeedPack.FailedCommitIsNotUndone`).
- The title stage of deduplication compares a hex digest with titles, so only a title that is itself the
  digest of another title and a day can trigger it. In a run without such titles it never finds anything
  (`ArticleStore.TitleStageNeverFires`), and an item read again is a duplicate without exception
  (`ArticleStore.ReadAgainIsDuplicate`). A title duplicate, where there is one, can be stored later, once
  the 48-hour window has moved on (`ArticleStore.TitleDuplicateComesBack`).
- The word search jumps over a whole-word occurrence exactly for keywords that can overlap themselves
  right after a non-word character (`WordSearch.SearchIsExact`). No keyword of the fixed rules can
  (`TopicKeywords.RulesAreExact`), so the fault is one of the function, not of today's lists.
- The recent-search list refines the unbounded history exactly for queries without a newline inside
  (`RecentSearches.NewlineBreaksTheList`).

## Model

| member | source | states |
|---|---|---|
| `PollDelay.NextPollDelay` | backend/internal/store/feeds.go:491-528 | the step-by-step delay equals the interval adapted, doubled per failure up to six, jittered and then clamped; it is always between 2 minutes and 6 hours |
| `PollDelay.DelayInSeconds` | backend/internal/store/feeds.go:491-528 | in plain seconds: the tier's interval, halved when busy and doubled when quiet, doubled per failure, scaled by the jitter, within 120 and 21600 |
| `PollDelay.MoreFailuresNeverSooner` | backend/internal/store/feeds.go:505-519 | for the same tier, item count and jitter draw, more failures never bring the next poll forward |
| `PollDelay.BusySoonerQuietLater` | backend/internal/store/feeds.go:494-504 | a feed with ten items or more is polled no later than one with fewer, one without any no sooner |
| `PollDelay.NoOverflow` | backend/internal/store/feeds.go:491-522 | no product of the computation leaves the 64-bit range, for every tier, failure count and jitter |
| `PollDelay.HandleFetchError` | backend/internal/ingest/pipeline.go:618-670 | health and backoff of every error in plain numbers, Unstable from the quarantine threshold on; a backoff under two minutes happens exactly for a 429 whose own Retry-After is that short, quarantine exactly for a blocked address |
| `FeedRegistry.FeedStore.ClaimDueFeeds` | backend/internal/store/feeds.go:201-257 | every leased row was enabled, due, not leased, not quarantined and, on Postgres, not in review; it gets owner and 180 seconds of lease and changes in nothing else, and every other row is untouched |
| `FeedRegistry.LeftOutMeansFull` | backend/internal/store/feeds.go:206-217 | a row that meets all that and is left out: the limit is used up, on rows of higher priority, or of the same and an earlier or equal poll time |
| `FeedRegistry.FirstOf` | backend/internal/store/feeds.go:215-217 | priority first, then earliest poll time with absent ones first: no row of the set sorts before the choice |
| `FeedRegistry.FeedStore.ReleaseFeed` | backend/internal/store/feeds.go:271-277 | clears the lease and writes the poll time of the one row, whoever holds the lease |
| `FeedRegistry.FeedStore.MarkFeedSuccess` | backend/internal/store/feeds.go:279-309 | resets the failures and keeps etag, last-modified and newest item where the new value is empty; lease and poll time stay |
| `FeedRegistry.FeedStore.MarkFeedFailure` | backend/internal/store/feeds.go:311-339 | writes failures, health and poll time and clears the lease, whoever holds it |
| `FeedRegistry.FeedStore.FeedByNormalizedURL` | backend/internal/store/feeds.go:190-194 | a row with this url exactly when there is one |
| `FeedRegistry.FeedStore.UpsertFeedFromImport` | backend/internal/store/feeds.go:66-100 | inserts exactly when the url is absent, otherwise rewrites the import-owned columns of its row only; the row then shows the entry's columns, enabled and out of review, and the worker's are as before or those of a new feed; fails without a trace when the new row's id is taken |
| `FeedRegistry.FeedStore.MarkFeedsMissingFromPack` | backend/internal/store/feeds.go:102-124 | flags, and counts, exactly the feeds of another pack version whose url is not kept, also when nothing is kept |
| `LeaseProtocol.ShieldKept` | backend/internal/store/feeds.go:201-339 | no step of anyone, late finishers, admin edits and imports included, takes a claimed feed's protection away before it expires, and no claim picks it meanwhile |
| `LeaseProtocol.ClaimsAreSpaced` | backend/internal/store/feeds.go:201-339 | in every interleaving two claims of one feed are at least two minutes apart, less the delay between clock reading and write, unless a short Retry-After comes between |
| `LeaseProtocol.EarliestReclaim` | backend/internal/ingest/pipeline.go:618-690 | for any table: when a write is the next thing to happen to a claimed feed, some claim can pick it again exactly once the written poll time has passed, unless the write quarantined it |
| `LeaseProtocol.ShortRetryAfterBreaksSpacing` | backend/internal/ingest/pipeline.go:641-647 | a 429 asking for one second lets any feed that can be claimed be claimed again one second later |
| `LeaseProtocol.PassedOverMeansFull` | backend/internal/store/feeds.go:206-217 | a claim that leaves an eligible feed out has used its whole limit, on feeds that do not sort after it |
| `LeaseProtocol.PicksPileUp` | backend/internal/store/feeds.go:201-229 | while an eligible feed goes unpicked, n claims inside two minutes take n times the limit of different other feeds |
| `LeaseProtocol.WaitIsBounded` | backend/internal/ingest/pipeline.go:130-162 | with n registered feeds, an eligible feed is picked within floor((n-1)/L)+1 claims of up to L feeds inside two minutes, whatever its priority and whatever is imported meanwhile |
| `FeedLife.DisabledIsNeverClaimed` | backend/internal/store/feeds.go:201-257 | in every interleaving, a feed an admin disables is claimed by nobody until an admin enables it or an import lists its url |
| `FeedLife.FlaggedIsNeverClaimed` | backend/internal/store/feeds.go:102-124 | on Postgres, nor is a feed that an import flags as missing, until an admin edits it or an import lists its url |
| `FeedLife.EnabledCanBeClaimed` | backend/internal/store/feeds.go:206-217 | an edit that enables a feed also ends its review: once due it can be claimed |
| `FeedLife.CountIsFailuresInARow` | backend/internal/ingest/pipeline.go:618-620 | while every failure is written by the worker whose claim read the row, the count in the table is the number of failures since the last success |
| `FeedLife.LateFailureMiscounts` | backend/internal/ingest/pipeline.go:618-620 | a failure written after the lease lapsed can make two failures in a row show as one |
| `IngestWorker.Pipeline.ScheduleNext` | backend/internal/ingest/pipeline.go:684-690 | the release written after a good fetch, with the delay for its tier, item count and failures |
| `IngestWorker.Pipeline.Fail` | backend/internal/ingest/pipeline.go:618-682 | the one write after a failed fetch or parse, with one more failure than the feed had |
| `IngestWorker.Pipeline.ProcessFeed` | backend/internal/ingest/pipeline.go:165-232 | the feed's row afterwards, column by column, for an unchanged answer, a body, a bad body and a failed fetch: failures, success time, etag, last-modified, newest item, health, score, lease and poll time; other rows untouched; and all writes are legal protocol steps, clear of the spacing exception exactly when no short Retry-After was answered |
| `IngestWorker.StaleWindows` | backend/internal/ingest/pipeline.go:703-712 | how old the newest item may be, per tier: a day, three days or two weeks |
| `CursorCodec.Base64RoundTrip` | backend/internal/store/articles_query.go:20-32 | decoding the unpadded url-safe encoding of any bytes gives the bytes |
| `CursorCodec.GroupLetters` | backend/internal/store/articles_query.go:20-24 | three bytes become four letters, their 24 bits six at a time, in the url-safe alphabet |
| `CursorCodec.AlphabetCodes` | backend/internal/store/articles_query.go:20-24 | that alphabet, letter by letter |
| `CursorCodec.ScanOfPrint` | backend/internal/store/articles_query.go:20-43 | scanning a printed 64-bit integer, negative included, gives it back |
| `CursorCodec.CursorRoundTrip` | backend/internal/store/articles_query.go:13-43 | decoding an encoded cursor gives the same instant and id, for every 64-bit instant and every id, one with a separator included |
| `CursorCodec.TokenNotBlank` | backend/internal/store/articles_query.go:20-29 | a token is never taken for a request for the first page |
| `CursorCodec.EncodeInjective` | backend/internal/store/articles_query.go:20-24 | different positions never share a token |
| `CursorCodec.ForeignByteRefused` | backend/internal/store/articles_query.go:26-33 | a token with a byte outside the alphabet is an encoding error wherever it stands |
| `Placeholders.RebindOrder` | backend/internal/db/db.go:177-208 | the index loop gives the text with every `$n` replaced and the list of their indexes in order, read with 64-bit wrap-around |
| `Placeholders.Rebind` | backend/internal/db/db.go:155-175 | the same text as RebindOrder's |
| `Placeholders.IndexesExact` | backend/internal/db/db.go:183-208 | indexes that an argument list can have are read as written, however long their numerals |
| `Placeholders.RebindKeepsMeaning` | backend/internal/db/db.go:177-208 | filling the i-th `?` with the i-th re-laid value is filling each `$n` with the n-th argument, exactly when the statement has no `?` of its own |
| `Placeholders.HighestIndex` | backend/internal/store/store.go:57-62 | the loop finds the greatest index |
| `Placeholders.LayOut` | backend/internal/store/store.go:71-78 | one converted value per placeholder occurrence, or an error exactly when some index has no argument |
| `Placeholders.Bind` | backend/internal/store/store.go:50-85 | exactly which of the three checks fails, if any, on each dialect, and otherwise the bound statement |
| `Placeholders.ExactUseIsAccepted` | backend/internal/store/store.go:50-85 | a statement that uses exactly $1..$n passes all three checks on both dialects |
| `Placeholders.BothAccept` | backend/internal/store/store.go:57-82 | both dialects accept exactly when all indexes are in range, the last argument is named, and there are at least as many placeholders as arguments |
| `Placeholders.ChecksAgreeExactly` | backend/internal/store/store.go:57-82 | for every statement and argument count, exactly when the two dialects' checks give the same answer |
| `Placeholders.DialectsDisagree` | backend/internal/store/store.go:63-82 | the disagreement is real both ways: each dialect accepts a statement the other refuses |
| `ArticleQueries.StatementBuilder.Condition` | backend/internal/store/articles_query.go:63-69 | a condition appended with its arguments keeps every placeholder in range and used, and adds exactly its own words |
| `ArticleQueries.StatementBuilder.ArticleWhere` | backend/internal/store/articles_query.go:62-122 | the filters that apply, in order, each with its own value |
| `ArticleQueries.StatementBuilder.SearchWhere` | backend/internal/store/articles_query.go:124-141 | the search condition of each dialect, and the number of the argument the ranking repeats |
| `ArticleQueries.StatementBuilder.ScoreExpr` | backend/internal/store/articles_query.go:216-246 | the score's five thresholds, each bound to its own time |
| `ArticleQueries.StatementBuilder.OrderFor` | backend/internal/store/articles_query.go:151-165 | the ordering of each sort, with the rank in front for a top search on Postgres |
| `ArticleQueries.StatementBuilder.CursorWhere` | backend/internal/store/articles_query.go:166-179 | the position condition, its time used twice, and none for the top sort |
| `ArticleQueries.BuildQuery` | backend/internal/store/articles_query.go:143-196 | for every combination of filters, term, sort, cursor, offset and dialect: the cursor's error, or a statement that names exactly its arguments and, filled in, is the intended one; it never has more than a hundred arguments |
| `ArticleQueries.BuiltStatementUsesExactly` | backend/internal/store/articles_query.go:143-196 | the statement's text, scanned back, uses exactly the placeholders 1..len(args), each at least once |
| `ArticleQueries.BuiltStatementBinds` | backend/internal/store/store.go:50-85 | none of bind's three panics can fire for it, on either dialect |
| `ArticleQueries.BuiltStatementKeepsMeaning` | backend/internal/store/store.go:70-84 | its positional form with the re-laid values is the statement with its values |
| `ArticleQueries.PrepareQuery` | backend/internal/store/articles_query.go:143-196 | from query to driver on either dialect: unless the cursor is refused no panic fires, and what the driver reads is the intended statement with its converted values |
| `QueryMeaning.SearchMeans` | backend/internal/store/articles_query.go:62-141 | the conditions, read back from the words, let through exactly the articles whose columns fit the query and that the search finds |
| `QueryMeaning.StatementFetchesPage` | backend/internal/store/articles_query.go:143-192 | a built statement in any order but top fetches what pagination says: one row more than a page (30 by default, 100 at most) of the newest such articles under the cursor |
| `QueryMeaning.StatementSkipsOffset` | backend/internal/store/articles_query.go:187-192 | with an offset and no cursor, the same after that many matches |
| `QueryMeaning.StatementAnswersRequest` | backend/internal/store/articles_query.go:143-214 | cutting the fetched rows gives the page and the next token of the request with that token |
| `QueryMeaning.OrderingsMean` | backend/internal/store/articles_query.go:155-165 | the top sort goes by rank where Postgres searched, then by score, then newest first; every other sort newest first |
| `QueryMeaning.FreshnessByAge` | backend/internal/store/articles_query.go:216-246 | the score's part for age: 100, 80, 60, 40 or 20 up to 15 minutes, one hour, six, a day, three days, and 5 beyond |
| `Pagination.NewerMeans` | backend/internal/store/articles_query.go:155-175 | newest first by publication, or by discovery where that is unknown, then the larger id |
| `Pagination.IdLessMeans` | backend/internal/store/articles_query.go:171-175 | ids compare at their first difference, and a beginning comes before the whole |
| `Pagination.PageIsGood` | backend/internal/store/articles_query.go:171-214 | a page is the newest matches below the position, and it says more follows exactly when a match was left out |
| `Pagination.TokenIsPosition` | backend/internal/store/articles_query.go:197-214 | the token of a page carries the position of its last article |
| `Pagination.WalkDescends` | backend/internal/store/articles_query.go:143-214 | however the store changes between requests, the concatenated pages are strictly descending by (time, id), so nothing is repeated |
| `Pagination.WalkComplete` | backend/internal/store/articles_query.go:143-214 | an article that matches at every request and is not skipped by stopping early is returned exactly once |
| `Pagination.StaticWalkListsAll` | backend/internal/store/articles_query.go:143-214 | on an unchanging store a finished walk is the whole sorted match list |
| `Pagination.StaticWalkEnds` | backend/internal/store/articles_query.go:143-214 | on an unchanging store the walk ends after at most (matches - 1) / limit + 1 requests |
| `RateLimiter.Limiter.CollectGarbage` | backend/internal/httpapi/middleware.go:118-125 | at most every ten minutes, forgets exactly the keys idle for more than ten minutes |
| `RateLimiter.Limiter.Allow` | backend/internal/httpapi/middleware.go:114-142 | the answer and the new table: refill, cap, and one token spent when there is one |
| `RateLimiter.AllowInRun` | backend/internal/httpapi/middleware.go:114-142 | each call is one step of the run the results below speak about |
| `RateLimiter.CollectionIsInvisible` | backend/internal/httpapi/middleware.go:88-142 | in every run with a clock that never runs backwards, every call gets the answer of a limiter that keeps all buckets for ever and sees only the key's own calls |
| `RateLimiter.GrantsAreBounded` | backend/internal/httpapi/middleware.go:87-135 | with p requests a minute (240 when not set), the grants to one key between s and t number at most p/60 a second on top of p/4 |
| `RateLimiter.FirstCallsAreGranted` | backend/internal/httpapi/middleware.go:101-135 | a key's first p/4 calls are granted however fast they come |
| `RateLimiter.UnhurriedIsNeverRefused` | backend/internal/httpapi/middleware.go:101-135 | with p at least 4, a key whose calls lie 60/p seconds apart or more is never refused |
| `RateLimiter.TooSlowNeverGrants` | backend/internal/httpapi/middleware.go:102-112 | some call can be granted exactly when the setting is zero or less (the default) or at least four a minute |
| `CircuitBreaker.Breaker.constructor` | backend/internal/feed/fetcher/fetcher.go:385-392 | a new breaker holds the empty history |
| `CircuitBreaker.Breaker.Allow` | backend/internal/feed/fetcher/fetcher.go:394-405 | refuses exactly while the mark is younger than five minutes, and clears counter and mark when it is not |
| `CircuitBreaker.Breaker.Failure` | backend/internal/feed/fetcher/fetcher.go:407-414 | counts, and marks from the sixth failure on |
| `CircuitBreaker.Breaker.Success` | backend/internal/feed/fetcher/fetcher.go:416-421 | forgets the host |
| `CircuitBreaker.Breaker.Handle` | backend/internal/feed/fetcher/fetcher.go:377-421 | in every run: refusal exactly when six failures have accumulated since the last success or expiry and the latest is under five minutes old; marked open exactly when the counter is at least six; other hosts untouched |
| `CircuitBreaker.FreshStreakAfterReset` | backend/internal/feed/fetcher/fetcher.go:394-414 | after an expiry lets a call through, six further failures come before the next refusal |
| `CircuitBreaker.HostsAreIndependent` | backend/internal/feed/fetcher/fetcher.go:377-421 | the answer for a host depends on that host's events only |
| `CircuitBreaker.StaysRefused` | backend/internal/feed/fetcher/fetcher.go:394-414 | asking does not end a refusal; only a success or the cooldown does |
| `DomainLimiter.KeepsLastTwoLabels` | backend/internal/feed/fetcher/fetcher.go:364-371 | every host below a.b is limited as a.b, in small letters |
| `DomainLimiter.NormalizeIsStable` | backend/internal/feed/fetcher/fetcher.go:364-371 | shortening a shortened host changes nothing, so acquire and release meet on one key |
| `DomainLimiter.CompactInPlace` | backend/internal/feed/fetcher/fetcher.go:316-324 | the compaction in the list's own storage keeps exactly the entries younger than a minute, in order |
| `DomainLimiter.Limiter.Acquire` | backend/internal/feed/fetcher/fetcher.go:307-348 | when the call gets in, and the new window; a cancelled call only compacts, and returns at any time after it started |
| `DomainLimiter.AdmissionsAreSpaced` | backend/internal/feed/fetcher/fetcher.go:307-348 | with calls made one after another, admissions perMin apart in sequence are at least a minute apart, however early cancelled calls return in between |
| `DomainLimiter.WaitsNoLongerThanNeeded` | backend/internal/feed/fetcher/fetcher.go:307-348 | a call is ready at once, or exactly a minute after the admission perMin places before it, which is then younger than a minute |
| `DomainLimiter.CancelledCallMayReturnEarly` | backend/internal/feed/fetcher/fetcher.go:331-336 | such runs include one where a call is cancelled in the middle of its wait and the next one follows at once |
| `DomainLimiter.HoldersBounded` | backend/internal/feed/fetcher/fetcher.go:307-362 | in every interleaving at most maxCon fetches hold a host, and the channel counts them exactly |
| `DomainLimiter.FreeSlotIsTaken` | backend/internal/feed/fetcher/fetcher.go:307-362 | a fetch that waits for a host can enter exactly when fewer than maxCon hold it |
| `FeedImport.UnchangedMeansEqual` | backend/internal/store/imports.go:231-242 | the ten comparisons find no change exactly when all compared columns and the version agree |
| `FeedImport.DetailNamesFirstChange` | backend/internal/store/imports.go:244-257 | a sample of a change names the first of category, priority, tier and source type that changed |
| `FeedImport.ImportOutline` | backend/internal/store/imports.go:51-135 | one outline: counted as invalid, new, changed or unchanged against the registry as it is now, and written when committing |
| `FeedImport.ImportFeedPack` | backend/internal/store/imports.go:13-176 | the registry and the report afterwards, also when an insert fails halfway |
| `FeedImport.ReportAddsUp` | backend/internal/store/imports.go:24-135 | new + changed + unchanged + invalid is the number of outlines |
| `FeedImport.CommitWritesWhatItReports` | backend/internal/store/imports.go:82-134 | a commit inserts exactly what it reports as new and updates all other usable outlines |
| `FeedImport.ImportKeepsRuntime` | backend/internal/store/imports.go:13-22 | no import deletes a feed or changes a lease, poll time, health, etag or failure count, even one that stops halfway; a dry run changes nothing |
| `FeedImport.SamplesAreFew` | backend/internal/store/imports.go:39-46 | a report samples at most sixty outlines, and one line for missing feeds |
| `ImportRun.CommitFailsExactly` | backend/internal/store/imports.go:125-128 | a commit answers an error exactly when some outline's url is in neither the registry nor an earlier outline but its id is taken by one of them |
| `ImportRun.FailedCommitLeaves` | backend/internal/store/imports.go:107-134 | the registry then has exactly the outlines before the first such one written, and nothing flagged |
| `ImportRun.CommitOfDifferentIdsFailsExactly` | backend/internal/store/imports.go:107-134 | when the outlines' ids differ, exactly when a new url comes with an id of the registry: a clash is never between two outlines |
| `FeedPack.Walker.Walk` | backend/internal/feed/opml/opml.go:130-184 | the walk enters folders where they stand, and after it the titles seen and the outlines are those of all feeds met so far |
| `FeedPack.Parse` | backend/internal/feed/opml/opml.go:130-186 | the outlines in document order, each valid one judged by whether a valid feed before it has its key, and named after the first such feed |
| `FeedPack.FirstOfEachKeySurvives` | backend/internal/feed/opml/opml.go:168-178 | an outline is valid exactly when validation passed it and no valid one before it has its normalised url; nothing else about it changes |
| `FeedPack.BlamedOnTheFirst` | backend/internal/feed/opml/opml.go:173-177 | the title a duplicate is reported with is that of the first valid feed with its key |
| `FeedPack.ParsedIdsDiffer` | backend/internal/feed/opml/opml.go:168-178 | the valid outlines of a parsed feed pack have pairwise different ids, since an id is hashed from the same key |
| `FeedPack.CommitOfParsedFailsExactly` | backend/internal/store/imports.go:107-134 | whatever the feed pack, its commit fails exactly when a url new to the registry comes with an id given to another url; on an empty registry it never fails |
| `FeedPack.FailedCommitIsNotUndone` | backend/internal/feed/opml/opml.go:275-303 | a feed listed with a dot segment in its url, and without it in the next feed pack, stops that import: it answers an error, and the new feed listed before it stays |
| `ImportAgreement.DryRunForecastsCommit` | backend/internal/store/imports.go:13-190 | with pairwise different urls and no id clash, the commit does not fail and the dry run's new, changed, unchanged, invalid, missing and samples are the commit's |
| `ImportAgreement.SameMissing` | backend/internal/store/imports.go:137-151 | the count before the upserts and the flagging after them ask about the same feeds, whatever the urls |
| `ImportAgreement.NewForecastExactly` | backend/internal/store/imports.go:82-91 | the dry run never forecasts fewer new feeds, and forecasts them exactly when the absent urls are pairwise different |
| `ImportAgreement.DryRunClassifiesExactly` | backend/internal/store/imports.go:82-105 | outline by outline the dry run answers as the commit does exactly when every repeated url is in the registry, and the repetition agrees with the registry just when it agrees with the outline before it |
| `ImportAgreement.ReportCountsClasses` | backend/internal/store/imports.go:83-105 | the report's new, changed and unchanged count the outlines classified so |
| `FeedPack.TwoSchemesMislead` | backend/internal/store/imports.go:82-105 | one feed listed under http and https passes the duplicate check: the dry run forecasts two new feeds, the commit adds one, and committing again reports a change |
| `ImportAgreement.CommitReconciles` | backend/internal/store/imports.go:15-19 | afterwards every url of the feed pack has an enabled, unflagged feed of this version, and every other feed is as before but flagged if it came from another version |
| `ImportAgreement.CommittedRowsSay` | backend/internal/store/imports.go:60-79 | after a commit the row of a url says what the last outline with it says, column by column, the tier derived from source type and priority |
| `ImportAgreement.CommitAgain` | backend/internal/store/imports.go:82-105 | committing again adds nothing, misses the same, and reports a change exactly when two outlines with one url disagree |
| `ImportAgreement.CommitIsIdempotent` | backend/internal/store/imports.go:107-143 | committing twice leaves the registry as committing once, whatever the feed pack |
| `ArticleStore.Store.FindDuplicateArticle` | backend/internal/store/articles.go:88-144 | the first stage that matches and some article it matches, or nothing |
| `ArticleStore.NothingFound` | backend/internal/store/articles.go:88-144 | the stages together miss nothing: no answer exactly when no row matches at any stage |
| `ArticleStore.Store.InsertArticle` | backend/internal/store/articles.go:146-222 | the answer and the table for every combination of match, taken id and database failure; a new row shows the input's columns, and anything but an insertion leaves the table as it was |
| `ArticleStore.Store.SetArticleStatus` | backend/internal/store/articles.go:448-454 | changes the status of the one article and none of the columns deduplication looks at |
| `ArticleStore.StoredExactlyWhenNew` | backend/internal/store/articles.go:146-222 | an input is stored exactly when nothing matches, its id is free and the database works |
| `ArticleStore.StoredKeysAreUnique` | backend/internal/store/articles.go:88-222 | after any sequence of calls from the empty store, no two rows share a non-empty normalised url, a content hash or a feed and guid |
| `OfferedArticles.StoredExactlyWhenItIsNew` | backend/internal/store/articles.go:88-222 | in terms of offers: after any run from the empty store an offer is stored exactly when the database works, its id is new, and no stored offer shares its feed and guid, url, content hash or recent title, blanks aside |
| `OfferedArticles.FirstCollisionDecides` | backend/internal/store/articles.go:88-144 | the stage that turns an offer away is the first, in the documented order, at which it collides with a stored offer |
| `OfferedArticles.CollidingOffersAreNotBothStored` | backend/internal/store/articles.go:88-222 | of two offers of one run that collide at any stage, the later is not stored if the earlier was |
| `ArticleStore.OfferedAgainIsDuplicate` | backend/internal/store/articles.go:88-222 | an input offered before is a duplicate and changes nothing, whatever happened in between; discovered later, the same holds unless only its title matched |
| `ArticleStore.TitleDuplicateComesBack` | backend/internal/store/articles.go:132-146 | a title duplicate is stored when offered again at t exactly when every article with that title is older than t less 48 hours |
| `ArticleStore.TitleDuplicateExample` | backend/internal/ingest/pipeline.go:264-304 | it happens, with inputs as the pipeline builds them: an article whose title is the fingerprint of a second one, which is turned away for it an hour later and stored three days later |
| `ArticleStore.TitleStageNeverFires` | backend/internal/store/articles.go:132-144 | in a run from the empty store whose titles are no digests, no input with the fingerprint of its own title is found by the title stage |
| `ArticleStore.ReadAgainIsDuplicate` | backend/internal/ingest/pipeline.go:264-306 | in such a run an item that was offered is a duplicate at any later time, also under another day's fingerprint, and changes nothing |
| `RelatedStories.EffectiveLimit` | backend/internal/httpapi/related.go:20-35 | eight unless a positive number is asked for, and never more than twenty |
| `RelatedStories.SelectLatest` | backend/internal/store/articles_query.go:171-185 | ORDER BY with LIMIT n is the first n of the sorted matches |
| `RelatedStories.FewAreDropped` | backend/internal/httpapi/related.go:49-55 | at most as many rows are dropped as there are seen ids |
| `RelatedStories.BoundedIsPrefix` | backend/internal/httpapi/related.go:42-67 | a bounded query without the seen ids is a prefix of the unbounded list: all of it, or at least the bound less the seen ids |
| `RelatedStories.Related` | backend/internal/httpapi/related.go:32-82 | no repeats and not the story itself; cluster stories first, then stories of the category alone, each part newest first; whatever is left out is left out of a full answer and is older than everything taken of its part, and the category waits until the whole cluster is in; it is the start of the unbounded answer although each query is bounded |
| `SourceDiversity.ApplySourceDiversity` | backend/internal/store/articles_query.go:261-291 | the shrinking loop computes the specified order; a cap of zero or less changes nothing |
| `SourceDiversity.IsPermutation` | backend/internal/store/articles_query.go:261-291 | the output is a permutation |
| `SourceDiversity.KeepsEachSource` | backend/internal/store/articles_query.go:261-291 | every source's cards stay in their own order |
| `SourceDiversity.LongRunsOnlyAtTheEnd` | backend/internal/store/articles_query.go:261-291 | a run exceeds the cap only where everything from there on is of that source |
| `SourceDiversity.WithinCapUnchanged` | backend/internal/store/articles_query.go:261-291 | a list comes back unchanged exactly when its runs exceed the cap only in a final stretch of one source; so a list within the cap does |
| `SourceDiversity.ApplyingTwice` | backend/internal/store/articles_query.go:261-291 | applying it twice is applying it once |
| `XmlTree.TreeIsBounded` | backend/internal/feed/parser/xmltree.go:10-85 | for every token stream, also one that stops early: at most 60000 elements, 64 levels and 6 MiB of text, and the counters are the tree's true counts |
| `XmlTree.StopsExactlyOverLimits` | backend/internal/feed/parser/xmltree.go:53-71 | a limit error comes exactly when some beginning of the stream is over a limit |
| `XmlTree.StoppedTreeIsThePrefix` | backend/internal/feed/parser/xmltree.go:26-28 | a stopped parse keeps the tree of the longest beginning within the limits |
| `XmlTree.WalkGivesBackTheStream` | backend/internal/feed/parser/xmltree.go:53-76 | for every stream within the limits the tree's walk is its start and end sequence, unmatched ends dropped and missing ones supplied |
| `XmlTree.WellNestedRoundTrip` | backend/internal/feed/parser/xmltree.go:53-76 | for a well-nested stream the walk is the start and end sequence itself |
| `XmlTree.DescendantsFilterPreorder` | backend/internal/feed/parser/xmltree.go:124-141 | the descendants with some name are the filter of the pre-order |
| `XmlTree.EqualFoldMeans` | backend/internal/feed/parser/xmltree.go:130-134 | names are compared letter by letter, capitals aside |
| `XmlTree.ElementsAreTheStartTokens` | backend/internal/feed/parser/xmltree.go:54-65 | the elements in document order are the accepted start tokens in stream order, however badly nested |
| `XmlText.TextsAreWhatWasRead` | backend/internal/feed/parser/xmltree.go:54-76 | each element's text is the concatenation of the character data accepted while it was the innermost open one, however badly nested |
| `XmlNodes.PopHolds` | backend/internal/feed/parser/xmltree.go:72-75 | popping the stack changes no node: the popped one is finished under its parent |
| `XmlNodes.Accept` | backend/internal/feed/parser/xmltree.go:53-76 | one token takes the node objects and the stack exactly where the builder's state goes |
| `XmlNodes.ParseTree` | backend/internal/feed/parser/xmltree.go:26-85 | the returned root, a structure of new nodes, is the tree of the tokens, with the right error, whether the stream ends, breaks off or hits a limit |
| `XmlNodes.CollectDescendants` | backend/internal/feed/parser/xmltree.go:124-141 | the recursive walk appends the nodes below the given one that have one of the names, in document order |
| `XmlNodes.FoundExactly` | backend/internal/feed/parser/xmltree.go:124-141 | what it finds are exactly the nodes with such a name that there is a way down to |
| `XmlNodes.FoundAreDescendants` | backend/internal/feed/parser/xmltree.go:124-141 | node by node they are the matching descendants of the tree the structure represents |
| `WordSearch.WordMatch` | backend/internal/feed/classify/classify.go:190-217 | the loop terminates with the jumping scan's answer |
| `WordSearch.WholeWordMeans` | backend/internal/feed/classify/classify.go:204-221 | a whole word is an occurrence without a letter or digit directly before or after it |
| `WordSearch.SearchIsExact` | backend/internal/feed/classify/classify.go:190-221 | the scan finds every whole-word occurrence in every text exactly when the keyword cannot overlap itself right after a non-word character |
| `WordSearch.HyphenatedKeywordIsMissed` | backend/internal/feed/classify/classify.go:209-215 | the keyword "a-a" is missed in "xa-a-a", where its second occurrence is a whole word |
| `WordSearch.PlainKeywordsAreExact` | backend/internal/feed/classify/classify.go:190-221 | for a keyword of letters and digits it is true exactly when a whole-word, case-insensitive occurrence exists |
| `WordSearch.HasAny` | backend/internal/feed/classify/classify.go:172-188 | true exactly when some non-empty keyword matches |
| `WordSearch.PlainListIsExact` | backend/internal/feed/classify/classify.go:172-221 | for plain keywords: exactly when one of them is a whole word of the text |
| `TopicKeywords.RulesAreExact` | backend/internal/feed/classify/classify.go:234-271 | no Latin keyword of the fixed rules can overlap itself so, and the search is right about each of them in every text |
| `RecentSearches.SettingsStore.AddRecentSearch` | android/app/src/main/java/com/afghanistan/news/core/datastore/SettingsStore.kt:135-143 | the preference afterwards; a query shorter than two characters once trimmed changes nothing |
| `RecentSearches.SettingsStore.ClearRecentSearches` | android/app/src/main/java/com/afghanistan/news/core/datastore/SettingsStore.kt:145 | the preference is gone |
| `RecentSearches.Perform` | android/app/src/main/java/com/afghanistan/news/core/datastore/SettingsStore.kt:135-145 | each operation of the store is one step of the runs below |
| `RecentSearches.TruncateThenPromote` | android/app/src/main/java/com/afghanistan/news/core/datastore/SettingsStore.kt:139-140 | promoting in the truncated list and truncating is truncating the promoted whole list |
| `RecentSearches.MostRecentIsByLastUse` | android/app/src/main/java/com/afghanistan/news/core/datastore/SettingsStore.kt:65-68 | the reference list holds every query of the history once, ordered by its last use |
| `RecentSearches.StoredListRefinesHistory` | android/app/src/main/java/com/afghanistan/news/core/datastore/SettingsStore.kt:65-68 | after any run of adds and clears the list read back is the up to eight most recently used distinct queries since the last clear, newest first |
| `RecentSearches.NewlineBreaksTheList` | android/app/src/main/java/com/afghanistan/news/core/datastore/SettingsStore.kt:135-143 | one more query is read back correctly exactly when it has no newline inside |

## Left out

- HTTP serving, SQL drivers, migrations, sessions, push delivery, logging, the web and admin pages and the app's screens: input and output, or library wrappers.
- Address checks, the HTML sanitiser, regular expressions, Unicode normalisation and the hash functions: a digest is a parameter, and url canonicalisation and the parser's url key are the answers they give for each outline. The short hash behind feed ids is taken to tell the keys that occur apart.
- Unicode: text is one byte per character, letters and digits are ASCII, and white space and case are those of ASCII. Kotlin's and Go's wider notions of blank and lower case are not modelled.
- The sources table, health events, fetch-run records and the import history: written, never read by what is modelled. So are categories, provinces and opportunities of an article.
- Feed-pack parsing before the duplicate check: XML decoding, validation of an outline and the clean-up of its attributes; a feed arrives as they leave it.
- `QueryMeaning.StatementFetchesPage`: whether a text search finds an article is an answer of the database, as is whether its main category is editorial; the score's parts for trust, breaking news and clusters have no meaning of their own.
- SQL text: a named wording stands for each condition and for its closing brackets, and any wording without `$` or `?` that does not start with a digit will do. Conversion of values for a driver is a parameter.
- Truncation of instants to microseconds in the database.
- Admin steps that reset a poll time or clear a lease (`SetFeedEnabled`, `ScheduleFeedNow`, `ApplyActivationWave`): they end a feed's protection on purpose, so spacing and waiting are stated for runs without them.
- Cursor paging for the top sort: the code ignores the cursor there.
- A per-minute bound for concurrent Acquire calls: the check and the append are separate critical sections, so there is none. A limiter of zero a minute, which the code would index out of range on, is not constructed.
- `DomainLimiter.Limiter.Acquire`: the compacted window is copied out of its buffer, so that two windows could share one backing array is not modelled; the two critical sections of one call are one step.
- Request weights in the rate limiter: the code computes and discards them.
- Floating-point rounding: rates, tokens and the jitter factor are exact. The clock is read outside the limiter's lock; a run is the order in which the calls enter.
- `FeedImport.ImportFeedPack`: the one insert failure modelled is a taken id, the constraint the feed pack itself can violate; other database errors end the call the same way.
- `ArticleStore.Store.InsertArticle`: a database failure is either there from the start or met by the insert's transaction, not one lookup among several.
- The Arabic-script keywords of the topic rules: they match as plain substrings.
- `CursorCodec.ForeignByteRefused`: states one family of refused tokens, not all; a token with trailing bits set, or with text after the number, is accepted by the code and by the model.
- Title-window deduplication as a uniqueness guarantee: there is none, the code compares a fingerprint with the title column.
- Cluster assignment, breaking scores and the histogram of a story: single updates with nothing kept across calls.
