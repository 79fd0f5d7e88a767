/**
 * The articles table and its staged deduplication (store/articles.go). Rows are keyed by id; each
 * call is one atomic step. Blank feed ids, guids and content hashes are stored as absent.
 */
module ArticleStore {
  import opened Common
  import opened Wrappers
  import opened Text

  type ArticleId = string

  const TITLE_WINDOW: int := 48 * HOUR

  datatype Input = Input(
    id: ArticleId, feedId: string, guid: string, normalizedUrl: string, canonicalUrl: string,
    contentHash: string, normalizedTitle: string, fingerprint: string, discoveredAt: int)

  /** The columns deduplication looks at. */
  datatype Keys = Keys(
    feedId: Option<string>, guid: Option<string>, normalizedUrl: string,
    contentHash: Option<string>, normalizedTitle: string, discoveredAt: int)

  datatype Article = Article(keys: Keys, canonicalUrl: string, active: bool)

  type Articles = map<ArticleId, Article>

  function NullString(s: string): (r: Option<string>)
    ensures r.Some? ==> s != "" && r.value == s
  {
    if TrimSpace(s) == "" then None else Some(s)
  }

  /** StableID: the prefix and a digest of the trimmed, lower-cased key. */
  function StableId(digest: string -> string, prefix: string, key: string): string {
    prefix + "_" + digest(Lower(TrimSpace(key)))
  }

  /** TitleFingerprint: a digest of the normalised title and the day of publication. */
  function TitleFingerprint(hash: string -> string, title: string, day: string): string {
    hash(title + "|" + day)
  }

  function ContentHash(hash: string -> string, title: string, summary: string): string {
    hash(TrimSpace(title) + "\n" + TrimSpace(summary))
  }

  /** The fingerprint is of the input's own title and some day, as every caller makes it. */
  ghost predicate Fingerprinted(hash: string -> string, input: Input) {
    exists day: string :: input.fingerprint == TitleFingerprint(hash, input.normalizedTitle, day)
  }

  /** What the ingest pipeline builds for an item without a summary. */
  function Built(digest: string -> string, hash: string -> string, feedId: string, guid: string, url: string,
      title: string, day: string, discoveredAt: int): (input: Input)
    ensures Fingerprinted(hash, input)
  {
    Input(StableId(digest, "art", url + feedId), feedId, guid, url, url, ContentHash(hash, title, ""), title,
          TitleFingerprint(hash, title, day), discoveredAt)
  }

  function IdOf(digest: string -> string, input: Input): (id: ArticleId)
    ensures id != ""
    ensures input.id != "" ==> id == input.id
  {
    if input.id == "" then StableId(digest, "art", input.canonicalUrl + input.feedId) else input.id
  }

  function RowOf(input: Input): Article {
    Article(
      Keys(NullString(input.feedId), NullString(input.guid), input.normalizedUrl,
           NullString(input.contentHash), input.normalizedTitle, input.discoveredAt),
      input.canonicalUrl, true)
  }

  // ---------------------------------------------------------------------------------------
  // The staged lookup
  // ---------------------------------------------------------------------------------------

  datatype Stage = ByGuid | ByNormalizedUrl | ByCanonicalUrl | ByHash | ByTitle

  function Label(stage: Stage): string {
    match stage
    case ByGuid => "GUID"
    case ByNormalizedUrl => "URL"
    case ByCanonicalUrl => "URL"
    case ByHash => "CONTENT_HASH"
    case ByTitle => "TITLE_WINDOW"
  }

  predicate Matches(k: Keys, input: Input, stage: Stage) {
    match stage
    case ByGuid =>
      && input.guid != "" && input.feedId != ""
      && k.feedId == Some(input.feedId) && k.guid == Some(input.guid)
    case ByNormalizedUrl => input.normalizedUrl != "" && k.normalizedUrl == input.normalizedUrl
    case ByCanonicalUrl => input.canonicalUrl != "" && k.normalizedUrl == input.canonicalUrl
    case ByHash => input.contentHash != "" && k.contentHash == Some(input.contentHash)
    case ByTitle =>
      && input.fingerprint != "" && k.normalizedTitle == input.fingerprint
      && k.discoveredAt >= input.discoveredAt - TITLE_WINDOW
  }

  function Hits(rows: Articles, input: Input, stage: Stage): set<ArticleId> {
    set id | id in rows && Matches(rows[id].keys, input, stage)
  }

  /** The first stage that finds something. */
  function FirstStage(rows: Articles, input: Input): Option<Stage> {
    if Hits(rows, input, ByGuid) != {} then Some(ByGuid)
    else if Hits(rows, input, ByNormalizedUrl) != {} then Some(ByNormalizedUrl)
    else if Hits(rows, input, ByCanonicalUrl) != {} then Some(ByCanonicalUrl)
    else if Hits(rows, input, ByHash) != {} then Some(ByHash)
    else if Hits(rows, input, ByTitle) != {} then Some(ByTitle)
    else None
  }

  /** Nothing is found exactly when no row matches at any stage. */
  lemma NothingFound(rows: Articles, input: Input)
    ensures FirstStage(rows, input) == None <==> forall id, stage | id in rows :: !Matches(rows[id].keys, input, stage)
  {
    if FirstStage(rows, input) == None {
      forall id, stage | id in rows
        ensures !Matches(rows[id].keys, input, stage)
      {
        assert id !in Hits(rows, input, stage);
      }
    } else {
      var id :| id in Hits(rows, input, FirstStage(rows, input).value);
    }
  }

  // ---------------------------------------------------------------------------------------
  // Inserting
  // ---------------------------------------------------------------------------------------

  /** What the database does to a call besides answering it. */
  datatype Weather = Healthy | Unreachable | WriteFails

  datatype Verdict = Stored | Duplicate(stage: Stage) | Race | Failed

  function Judge(stage: Option<Stage>, taken: bool, weather: Weather): Verdict {
    if weather == Unreachable then Failed
    else if stage.Some? then Duplicate(stage.value)
    else if taken then Race
    else if weather == WriteFails then Failed
    else Stored
  }

  function VerdictOn(digest: string -> string, rows: Articles, input: Input, weather: Weather): Verdict {
    Judge(FirstStage(rows, input), IdOf(digest, input) in rows, weather)
  }

  function AfterOffer(digest: string -> string, rows: Articles, input: Input, weather: Weather): Articles {
    if VerdictOn(digest, rows, input, weather) == Stored then rows[IdOf(digest, input) := RowOf(input)] else rows
  }

  datatype InsertResult = Inserted(id: ArticleId) | DuplicateOf(id: ArticleId, level: string)

  /** What the lookup answers: some row of the first stage that finds one. */
  predicate Answers(rows: Articles, input: Input, stage: Option<Stage>, existing: ArticleId, level: string) {
    if stage == None then existing == "" && level == ""
    else existing in Hits(rows, input, stage.value) && level == Label(stage.value)
  }

  /** What the level says of the row that was found. */
  predicate ExplainedBy(k: Keys, input: Input, level: string) {
    || (level == "GUID" && k.feedId == Some(input.feedId) && k.guid == Some(input.guid))
    || (level == "URL" && k.normalizedUrl in {input.normalizedUrl, input.canonicalUrl})
    || (level == "CONTENT_HASH" && k.contentHash == Some(input.contentHash))
    || (level == "TITLE_WINDOW" && k.normalizedTitle == input.fingerprint)
  }

  /** A new row shows the input's columns, blank ones being absent, and is active. */
  predicate RowShows(a: Article, input: Input) {
    && a.active && a.canonicalUrl == input.canonicalUrl && a.keys.normalizedUrl == input.normalizedUrl
    && a.keys.normalizedTitle == input.normalizedTitle && a.keys.discoveredAt == input.discoveredAt
    && a.keys.feedId == (if TrimSpace(input.feedId) == "" then None else Some(input.feedId))
    && a.keys.guid == (if TrimSpace(input.guid) == "" then None else Some(input.guid))
    && a.keys.contentHash == (if TrimSpace(input.contentHash) == "" then None else Some(input.contentHash))
  }

  /** What a caller of InsertArticle is told. */
  predicate Reports(rows: Articles, input: Input, id: ArticleId, verdict: Verdict, r: Result<InsertResult, ()>) {
    match verdict
    case Stored => r == Ok(Inserted(id))
    case Duplicate(stage) => r.Ok? && r.value.DuplicateOf?
        && Answers(rows, input, Some(stage), r.value.id, r.value.level)
    case Race => r == Ok(DuplicateOf("", "RACE"))
    case Failed => r == Err(())
  }

  class Store {
    const digest: string -> string
    var rows: Articles

    ghost predicate Valid()
      reads this
    {
      "" !in rows
    }

    constructor (digest: string -> string)
      ensures Valid() && rows == map[] && this.digest == digest
    {
      this.digest := digest;
      rows := map[];
    }

    /** Levels 1 to 4: guid, the two urls, content hash, title within the window. */
    method FindDuplicateArticle(input: Input) returns (existing: ArticleId, level: string)
      requires Valid()
      ensures Answers(rows, input, FirstStage(rows, input), existing, level)
      ensures existing != "" <==> FirstStage(rows, input).Some?
      ensures existing == "" <==> level == ""
      ensures existing != "" ==> existing in rows && ExplainedBy(rows[existing].keys, input, level)
    {
      existing, level := Probe(input, ByGuid);
      if existing != "" { return; }
      var urls := [ByNormalizedUrl, ByCanonicalUrl];
      for i := 0 to 2
        invariant existing == "" && level == "" && Hits(rows, input, ByGuid) == {}
        invariant forall k | 0 <= k < i :: Hits(rows, input, urls[k]) == {}
      {
        existing, level := Probe(input, urls[i]);
        if existing != "" {
          assert i == 1 ==> Hits(rows, input, urls[0]) == {};
          return;
        }
      }
      assert Hits(rows, input, urls[0]) == {} && Hits(rows, input, urls[1]) == {};
      existing, level := Probe(input, ByHash);
      if existing != "" { return; }
      existing, level := Probe(input, ByTitle);
    }

    /** One SELECT … LIMIT 1: any match will do. */
    method Probe(input: Input, stage: Stage) returns (existing: ArticleId, level: string)
      requires Valid()
      ensures Hits(rows, input, stage) == {} ==> existing == "" && level == ""
      ensures Hits(rows, input, stage) != {}
          ==> existing in Hits(rows, input, stage) && existing != "" && level == Label(stage)
    {
      var hits := Hits(rows, input, stage);
      if hits == {} { return "", ""; }
      existing :| existing in hits;
      level := Label(stage);
    }

    method InsertArticle(input: Input, weather: Weather) returns (r: Result<InsertResult, ()>)
      requires Valid()
      modifies this
      ensures Valid()
      ensures rows == AfterOffer(digest, old(rows), input, weather)
      ensures Reports(old(rows), input, IdOf(digest, input), VerdictOn(digest, old(rows), input, weather), r)
      ensures r.Ok? && r.value.Inserted? ==> r.value.id in rows && RowShows(rows[r.value.id], input)
      ensures !(r.Ok? && r.value.Inserted?) ==> rows == old(rows)
    {
      if weather == Unreachable { return Err(()); }
      var id := IdOf(digest, input);
      var existing, level := FindDuplicateArticle(input);
      if existing != "" { return Ok(DuplicateOf(existing, level)); }
      r := InsertRow(id, RowOf(input), weather);
    }

    /** The transaction that adds the row; its first statement meets the primary key. */
    method InsertRow(id: ArticleId, row: Article, weather: Weather) returns (r: Result<InsertResult, ()>)
      requires Valid() && id != "" && weather != Unreachable
      modifies this
      ensures Valid()
      ensures var verdict := Judge(None, id in old(rows), weather);
        && rows == (if verdict == Stored then old(rows)[id := row] else old(rows))
        && r == (if verdict == Stored then Ok(Inserted(id)) else if verdict == Race then Ok(DuplicateOf("", "RACE"))
            else Err(()))
    {
      if id in rows { return Ok(DuplicateOf("", "RACE")); }
      if weather == WriteFails { return Err(()); }
      rows := rows[id := row];
      r := Ok(Inserted(id));
    }

    method SetArticleStatus(id: ArticleId, active: bool)
      requires Valid()
      modifies this
      ensures Valid() && rows == WithStatus(old(rows), id, active)
      ensures rows.Keys == old(rows).Keys
      ensures forall other | other in rows ::
                && rows[other].keys == old(rows)[other].keys
                && rows[other].canonicalUrl == old(rows)[other].canonicalUrl
                && rows[other].active == if other == id then active else old(rows)[other].active
    {
      if id in rows {
        rows := rows[id := rows[id].(active := active)];
      }
    }
  }

  function WithStatus(rows: Articles, id: ArticleId, active: bool): Articles {
    if id in rows then rows[id := rows[id].(active := active)] else rows
  }

  // ---------------------------------------------------------------------------------------
  // Runs
  // ---------------------------------------------------------------------------------------

  datatype Op = Offer(input: Input, weather: Weather) | SetStatus(id: ArticleId, active: bool)

  function Step(digest: string -> string, rows: Articles, op: Op): Articles {
    match op
    case Offer(input, weather) => AfterOffer(digest, rows, input, weather)
    case SetStatus(id, active) => WithStatus(rows, id, active)
  }

  function Run(digest: string -> string, rows: Articles, ops: seq<Op>): Articles
    decreases |ops|
  {
    if ops == [] then rows else Run(digest, Step(digest, rows, ops[0]), ops[1..])
  }

  predicate ShareUrl(a: Keys, b: Keys) {
    a.normalizedUrl == b.normalizedUrl != ""
  }

  predicate ShareHash(a: Keys, b: Keys) {
    a.contentHash.Some? && a.contentHash == b.contentHash
  }

  predicate ShareGuid(a: Keys, b: Keys) {
    a.feedId.Some? && a.guid.Some? && a.feedId == b.feedId && a.guid == b.guid
  }

  predicate Share(a: Keys, b: Keys) {
    ShareUrl(a, b) || ShareHash(a, b) || ShareGuid(a, b)
  }

  ghost predicate NoneShared(rows: Articles) {
    forall p, q | p in rows && q in rows && p != q :: !Share(rows[p].keys, rows[q].keys)
  }

  lemma SharedMatches(k: Keys, input: Input)
    requires Share(k, RowOf(input).keys)
    ensures exists stage :: Matches(k, input, stage)
  {
    if ShareUrl(k, RowOf(input).keys) {
      assert Matches(k, input, ByNormalizedUrl);
    } else if ShareHash(k, RowOf(input).keys) {
      assert Matches(k, input, ByHash);
    } else {
      assert Matches(k, input, ByGuid);
    }
  }

  /** A row that shares a key with the row of an input is found by the lookup. */
  lemma SharedIsFound(rows: Articles, id: ArticleId, input: Input)
    requires id in rows && Share(rows[id].keys, RowOf(input).keys)
    ensures FirstStage(rows, input).Some?
  {
    SharedMatches(rows[id].keys, input);
    NothingFound(rows, input);
  }

  /** An input without an id gets one from its canonical url and its feed; one that has an id keeps it. */
  lemma IdsOfInputs(digest: string -> string, input: Input)
    ensures input.id == "" ==>
              IdOf(digest, input) == "art_" + digest(Lower(TrimSpace(input.canonicalUrl + input.feedId)))
    ensures input.id != "" ==> IdOf(digest, input) == input.id
  {
    assert "art" + "_" == "art_";
  }

  /** What is stored shares nothing with the rows that are there. */
  lemma StoredSharesNothing(digest: string -> string, rows: Articles, input: Input, weather: Weather, p: ArticleId)
    requires VerdictOn(digest, rows, input, weather) == Stored && p in rows
    ensures !Share(rows[p].keys, RowOf(input).keys) && !Share(RowOf(input).keys, rows[p].keys)
  {
    if Share(rows[p].keys, RowOf(input).keys) {
      SharedIsFound(rows, p, input);
    }
  }

  lemma NoneSharedWith(rows: Articles, id: ArticleId, row: Article)
    requires NoneShared(rows)
    requires forall p | p in rows :: !Share(rows[p].keys, row.keys) && !Share(row.keys, rows[p].keys)
    ensures NoneShared(rows[id := row])
  {
  }

  lemma StatusKeepsNoneShared(rows: Articles, id: ArticleId, active: bool)
    requires NoneShared(rows)
    ensures NoneShared(WithStatus(rows, id, active))
  {
    var next := WithStatus(rows, id, active);
    forall p, q | p in next && q in next && p != q
      ensures !Share(next[p].keys, next[q].keys)
    {
      assert next[p].keys == rows[p].keys && next[q].keys == rows[q].keys;
    }
  }

  lemma StepKeepsNoneShared(digest: string -> string, rows: Articles, op: Op)
    requires NoneShared(rows)
    ensures NoneShared(Step(digest, rows, op))
  {
    if op.SetStatus? {
      StatusKeepsNoneShared(rows, op.id, op.active);
    } else if VerdictOn(digest, rows, op.input, op.weather) == Stored {
      forall p | p in rows
        ensures !Share(rows[p].keys, RowOf(op.input).keys) && !Share(RowOf(op.input).keys, rows[p].keys)
      {
        StoredSharesNothing(digest, rows, op.input, op.weather, p);
      }
      NoneSharedWith(rows, IdOf(digest, op.input), RowOf(op.input));
    }
  }

  lemma {:induction false} RunKeepsNoneShared(digest: string -> string, rows: Articles, ops: seq<Op>)
    requires NoneShared(rows)
    ensures NoneShared(Run(digest, rows, ops))
    decreases |ops|
  {
    if ops != [] {
      StepKeepsNoneShared(digest, rows, ops[0]);
      RunKeepsNoneShared(digest, Step(digest, rows, ops[0]), ops[1..]);
    }
  }

  /**
   * From the empty store, whatever is offered and whenever the database fails: no two articles ever
   * share a non-empty normalised url, a content hash or a feed and guid.
   */
  lemma StoredKeysAreUnique(digest: string -> string, ops: seq<Op>)
    ensures NoneShared(Run(digest, map[], ops))
  {
    RunKeepsNoneShared(digest, map[], ops);
  }

  /** Every article is still there, with the columns deduplication looks at. */
  ghost predicate Grown(rows: Articles, later: Articles) {
    forall id | id in rows :: id in later && later[id].keys == rows[id].keys
  }

  lemma {:induction false} RunGrows(digest: string -> string, rows: Articles, ops: seq<Op>)
    ensures Grown(rows, Run(digest, rows, ops))
    decreases |ops|
  {
    if ops != [] {
      RunGrows(digest, Step(digest, rows, ops[0]), ops[1..]);
    }
  }

  /** The same article, discovered at another time. */
  function Again(input: Input, discoveredAt: int): Input {
    input.(discoveredAt := discoveredAt)
  }

  lemma FoundAgain(rows: Articles, later: Articles, input: Input, t: int)
    requires Grown(rows, later) && FirstStage(rows, input).Some?
    requires FirstStage(rows, input).value != ByTitle || t <= input.discoveredAt
    ensures FirstStage(later, Again(input, t)).Some?
  {
    var stage := FirstStage(rows, input).value;
    var id :| id in Hits(rows, input, stage);
    assert Matches(later[id].keys, Again(input, t), stage);
    NothingFound(later, Again(input, t));
  }

  predicate IsDuplicate(v: Verdict) {
    v.Duplicate? || v == Race
  }

  lemma TurnedAway(digest: string -> string, rows: Articles, input: Input, weather: Weather)
    requires weather != Unreachable && (FirstStage(rows, input).Some? || IdOf(digest, input) in rows)
    ensures IsDuplicate(VerdictOn(digest, rows, input, weather)) && AfterOffer(digest, rows, input, weather) == rows
  {
  }

  /** An input that was offered leaves a match or its own id behind. */
  lemma OfferLeavesTrace(digest: string -> string, rows: Articles, input: Input, weather: Weather)
    requires VerdictOn(digest, rows, input, weather) != Failed
    ensures FirstStage(rows, input).Some? || IdOf(digest, input) in AfterOffer(digest, rows, input, weather)
    ensures FirstStage(rows, input).Some?
        ==> VerdictOn(digest, rows, input, weather) == Duplicate(FirstStage(rows, input).value)
    ensures Grown(rows, AfterOffer(digest, rows, input, weather))
  {
  }

  lemma GrownTwice(a: Articles, b: Articles, c: Articles)
    requires Grown(a, b) && Grown(b, c)
    ensures Grown(a, c)
  {
  }

  /**
   * An input that was offered once, and not lost to a database failure, is a duplicate for ever,
   * whatever happens in between and whenever it is discovered again. The one way out is an input
   * that was turned away for its title alone and comes back with a later discovery time.
   */
  lemma OfferedAgainIsDuplicate(digest: string -> string, rows: Articles, input: Input, weather: Weather,
                                between: seq<Op>, t: int, again: Weather)
    requires VerdictOn(digest, rows, input, weather) != Failed && again != Unreachable
    requires VerdictOn(digest, rows, input, weather) != Duplicate(ByTitle) || t <= input.discoveredAt
    ensures var later := Run(digest, AfterOffer(digest, rows, input, weather), between);
      IsDuplicate(VerdictOn(digest, later, Again(input, t), again))
          && AfterOffer(digest, later, Again(input, t), again) == later
  {
    var next := AfterOffer(digest, rows, input, weather);
    var later := Run(digest, next, between);
    RunGrows(digest, next, between);
    OfferLeavesTrace(digest, rows, input, weather);
    GrownTwice(rows, next, later);
    if FirstStage(rows, input).Some? {
      FoundAgain(rows, later, input, t);
    }
    assert IdOf(digest, Again(input, t)) == IdOf(digest, input);
    TurnedAway(digest, later, Again(input, t), again);
  }

  /** Only the title stage looks at the discovery time. */
  lemma OtherStagesIgnoreTime(rows: Articles, input: Input, t: int, stage: Stage)
    requires FirstStage(rows, input) == Some(ByTitle) && stage != ByTitle
    ensures Hits(rows, Again(input, t), stage) == {}
  {
    assert Hits(rows, Again(input, t), stage) == Hits(rows, input, stage);
  }

  /** The way out exists: a title duplicate is stored once the window has moved past every article with that title. */
  lemma TitleDuplicateComesBack(digest: string -> string, rows: Articles, input: Input, t: int)
    requires FirstStage(rows, input) == Some(ByTitle) && IdOf(digest, input) !in rows
    ensures VerdictOn(digest, rows, Again(input, t), Healthy) == Stored <==>
      forall id | id in rows && rows[id].keys.normalizedTitle == input.fingerprint ::
          rows[id].keys.discoveredAt < t - TITLE_WINDOW
  {
    OtherStagesIgnoreTime(rows, input, t, ByGuid);
    OtherStagesIgnoreTime(rows, input, t, ByNormalizedUrl);
    OtherStagesIgnoreTime(rows, input, t, ByCanonicalUrl);
    OtherStagesIgnoreTime(rows, input, t, ByHash);
    assert IdOf(digest, Again(input, t)) == IdOf(digest, input);
    TitleStage(rows, Again(input, t));
  }

  /** Two articles that differ in everything but that the second's fingerprint is the first's title. */
  predicate OnlyTitleShared(a: Input, b: Input) {
    && a.id != "" && b.id != "" && a.id != b.id
    && b.guid != a.guid && b.contentHash != a.contentHash
    && b.normalizedUrl != a.normalizedUrl && b.canonicalUrl != a.normalizedUrl
    && b.fingerprint == a.normalizedTitle != ""
  }

  /** The row matches at the title stage and at no other. */
  ghost predicate MatchesTitleOnly(k: Keys, input: Input) {
    forall stage :: Matches(k, input, stage) <==> stage == ByTitle
  }

  ghost predicate MatchesNothing(k: Keys, input: Input) {
    forall stage :: !Matches(k, input, stage)
  }

  lemma OnlyTitleMatches(a: Input, b: Input)
    requires OnlyTitleShared(a, b)
    ensures a.discoveredAt >= b.discoveredAt - TITLE_WINDOW ==> MatchesTitleOnly(RowOf(a).keys, b)
    ensures a.discoveredAt < b.discoveredAt - TITLE_WINDOW ==> MatchesNothing(RowOf(a).keys, b)
  {
  }

  lemma StoredInEmpty(digest: string -> string, none: Articles, a: Input)
    requires none == map[]
    ensures VerdictOn(digest, none, a, Healthy) == Stored
  {
    NothingFound(none, a);
  }

  lemma OneArticle(digest: string -> string, none: Articles, a: Input)
    requires none == map[] && a.id != ""
    ensures Run(digest, none, [Offer(a, Healthy)]) == map[a.id := RowOf(a)]
  {
    StoredInEmpty(digest, none, a);
    assert [Offer(a, Healthy)][1..] == [];
    assert Run(digest, none, [Offer(a, Healthy)]) == Step(digest, none, Offer(a, Healthy));
  }

  lemma TurnedAwayForTitle(digest: string -> string, rows: Articles, id: ArticleId, b: Input)
    requires rows.Keys == {id} && MatchesTitleOnly(rows[id].keys, b)
    ensures VerdictOn(digest, rows, b, Healthy) == Duplicate(ByTitle)
  {
    assert id in Hits(rows, b, ByTitle);
    assert FirstStage(rows, b) == Some(ByTitle);
  }

  lemma StoredOutsideWindow(digest: string -> string, rows: Articles, id: ArticleId, b: Input)
    requires rows.Keys == {id} && MatchesNothing(rows[id].keys, b) && IdOf(digest, b) != id
    ensures VerdictOn(digest, rows, b, Healthy) == Stored
  {
    NothingFound(rows, b);
  }

  /**
   * In a store with the first of them, the second is turned away for its title, and stored once the
   * window has moved on.
   */
  lemma TitleOnlyComesBack(digest: string -> string, a: Input, b: Input, t: int)
    requires OnlyTitleShared(a, b)
    requires b.discoveredAt - TITLE_WINDOW <= a.discoveredAt < t - TITLE_WINDOW
    ensures var rows := Run(digest, map[], [Offer(a, Healthy)]);
      && VerdictOn(digest, rows, b, Healthy) == Duplicate(ByTitle)
      && VerdictOn(digest, rows, Again(b, t), Healthy) == Stored
  {
    var rows: Articles := map[a.id := RowOf(a)];
    OneArticle(digest, map[], a);
    OnlyTitleMatches(a, b);
    OnlyTitleMatches(a, Again(b, t));
    TurnedAwayForTitle(digest, rows, a.id, b);
    StoredOutsideWindow(digest, rows, a.id, Again(b, t));
  }

  const FIRST_URL := "https://x.example/1"
  const SECOND_URL := "https://x.example/2"

  /**
   * Such a pair exists, an hour apart, and the second comes back three days later: the title of the
   * first is the fingerprint of the second. All it takes is that the digests tell the two apart.
   */
  lemma TitleDuplicateExample(digest: string -> string, hash: string -> string) returns (a: Input, b: Input, t: int)
    requires var f := TitleFingerprint(hash, "herat quake", "20260914");
      f != "" && ContentHash(hash, f, "") != ContentHash(hash, "herat quake", "")
    requires StableId(digest, "art", FIRST_URL + "feed_1") != StableId(digest, "art", SECOND_URL + "feed_1")
    ensures Fingerprinted(hash, a) && Fingerprinted(hash, b)
    ensures b.discoveredAt == a.discoveredAt + HOUR && t == a.discoveredAt + 72 * HOUR
    ensures var rows := Run(digest, map[], [Offer(a, Healthy)]);
      && VerdictOn(digest, rows, b, Healthy) == Duplicate(ByTitle)
      && VerdictOn(digest, rows, Again(b, t), Healthy) == Stored
  {
    var f := TitleFingerprint(hash, "herat quake", "20260914");
    a := Built(digest, hash, "feed_1", "g1", FIRST_URL, f, "20260914", 0);
    b := Built(digest, hash, "feed_1", "g2", SECOND_URL, "herat quake", "20260914", HOUR);
    t := 72 * HOUR;
    TitleOnlyComesBack(digest, a, b, t);
  }

  // ---------------------------------------------------------------------------------------
  // What the title stage can find
  // ---------------------------------------------------------------------------------------

  /** A title that is itself a digest. */
  ghost predicate IsDigest(hash: string -> string, title: string) {
    exists text: string :: hash(text) == title
  }

  ghost predicate NoDigestTitles(hash: string -> string, rows: Articles) {
    forall id | id in rows :: !IsDigest(hash, rows[id].keys.normalizedTitle)
  }

  /** No offered title is a digest. */
  ghost predicate OrdinaryTitles(hash: string -> string, ops: seq<Op>) {
    forall k | 0 <= k < |ops| && ops[k].Offer? :: !IsDigest(hash, ops[k].input.normalizedTitle)
  }

  lemma {:induction false} RunKeepsTitles(digest: string -> string, hash: string -> string, rows: Articles,
      ops: seq<Op>)
    requires NoDigestTitles(hash, rows) && OrdinaryTitles(hash, ops)
    ensures NoDigestTitles(hash, Run(digest, rows, ops))
    decreases |ops|
  {
    if ops != [] {
      var next := Step(digest, rows, ops[0]);
      forall id | id in next
        ensures !IsDigest(hash, next[id].keys.normalizedTitle)
      {
        assert (id in rows && next[id].keys == rows[id].keys)
            || (ops[0].Offer? && next[id] == RowOf(ops[0].input));
      }
      RunKeepsTitles(digest, hash, next, ops[1..]);
    }
  }

  /** The title stage compares a digest with a title, so it finds only titles that are digests. */
  lemma TitleStageFindsDigests(hash: string -> string, rows: Articles, input: Input)
    requires NoDigestTitles(hash, rows) && Fingerprinted(hash, input)
    ensures Hits(rows, input, ByTitle) == {} && FirstStage(rows, input) != Some(ByTitle)
  {
    var day: string :| input.fingerprint == TitleFingerprint(hash, input.normalizedTitle, day);
    assert IsDigest(hash, input.fingerprint);
    forall id | id in rows
      ensures !Matches(rows[id].keys, input, ByTitle)
    {
      assert !IsDigest(hash, rows[id].keys.normalizedTitle);
    }
  }

  /** In a run from the empty store whose titles are no digests, the title stage never finds anything. */
  lemma TitleStageNeverFires(digest: string -> string, hash: string -> string, ops: seq<Op>, input: Input)
    requires OrdinaryTitles(hash, ops) && Fingerprinted(hash, input)
    ensures FirstStage(Run(digest, map[], ops), input) != Some(ByTitle)
  {
    RunKeepsTitles(digest, hash, map[], ops);
    TitleStageFindsDigests(hash, Run(digest, map[], ops), input);
  }

  /** The same item read again: its fingerprint may be of another day when the item has no date. */
  function ReadAgain(input: Input, discoveredAt: int, fingerprint: string): Input {
    input.(discoveredAt := discoveredAt, fingerprint := fingerprint)
  }

  lemma FoundWhenReadAgain(rows: Articles, later: Articles, input: Input, t: int, fingerprint: string)
    requires Grown(rows, later) && FirstStage(rows, input).Some? && FirstStage(rows, input) != Some(ByTitle)
    ensures FirstStage(later, ReadAgain(input, t, fingerprint)).Some?
  {
    var stage := FirstStage(rows, input).value;
    var id :| id in Hits(rows, input, stage);
    assert Matches(later[id].keys, ReadAgain(input, t, fingerprint), stage);
    NothingFound(later, ReadAgain(input, t, fingerprint));
  }

  /**
   * So in such a run deduplication has no way out: an item offered once, and not lost to a database
   * failure, is a duplicate whenever it is read again, whatever its fingerprint is by then.
   */
  lemma ReadAgainIsDuplicate(digest: string -> string, hash: string -> string, before: seq<Op>, input: Input,
      weather: Weather, between: seq<Op>, t: int, fingerprint: string, again: Weather)
    requires OrdinaryTitles(hash, before) && Fingerprinted(hash, input)
    requires VerdictOn(digest, Run(digest, map[], before), input, weather) != Failed && again != Unreachable
    ensures var later := Run(digest, map[], before + [Offer(input, weather)] + between);
      IsDuplicate(VerdictOn(digest, later, ReadAgain(input, t, fingerprint), again))
          && AfterOffer(digest, later, ReadAgain(input, t, fingerprint), again) == later
  {
    var rows := Run(digest, map[], before);
    var next := AfterOffer(digest, rows, input, weather);
    var later := Run(digest, next, between);
    RunInParts(digest, map[], before, Offer(input, weather), between);
    TitleStageNeverFires(digest, hash, before, input);
    RunGrows(digest, next, between);
    OfferLeavesTrace(digest, rows, input, weather);
    GrownTwice(rows, next, later);
    if FirstStage(rows, input).Some? {
      FoundWhenReadAgain(rows, later, input, t, fingerprint);
    }
    assert IdOf(digest, ReadAgain(input, t, fingerprint)) == IdOf(digest, input);
    TurnedAway(digest, later, ReadAgain(input, t, fingerprint), again);
  }

  lemma {:induction false} RunInParts(digest: string -> string, rows: Articles, a: seq<Op>, op: Op, b: seq<Op>)
    ensures Run(digest, rows, a + [op] + b) == Run(digest, Step(digest, Run(digest, rows, a), op), b)
    decreases |a|
  {
    if a == [] {
      assert a + [op] + b == [op] + b && ([op] + b)[1..] == b;
    } else {
      assert (a + [op] + b)[1..] == a[1..] + [op] + b;
      RunInParts(digest, Step(digest, rows, a[0]), a[1..], op, b);
    }
  }

  lemma TitleStage(rows: Articles, input: Input)
    requires input.fingerprint != ""
    ensures Hits(rows, input, ByTitle) == {} <==>
      forall id | id in rows && rows[id].keys.normalizedTitle == input.fingerprint ::
          rows[id].keys.discoveredAt < input.discoveredAt - TITLE_WINDOW
  {
    if Hits(rows, input, ByTitle) == {} {
      forall id | id in rows && rows[id].keys.normalizedTitle == input.fingerprint
        ensures rows[id].keys.discoveredAt < input.discoveredAt - TITLE_WINDOW
      {
        assert id !in Hits(rows, input, ByTitle);
      }
    }
  }

  /** An input is stored exactly when nothing matches it, its id is free and the database works. */
  lemma StoredExactlyWhenNew(digest: string -> string, rows: Articles, input: Input, weather: Weather)
    ensures VerdictOn(digest, rows, input, weather) == Stored <==>
      && weather == Healthy && IdOf(digest, input) !in rows
      && forall id, stage | id in rows :: !Matches(rows[id].keys, input, stage)
  {
    NothingFound(rows, input);
  }
}
