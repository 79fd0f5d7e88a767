/**
 * The statement behind the article read API (store/articles_query.go): filters, search, ranking,
 * cursor and paging, each adding conditions and numbered arguments. The fixed SQL wording is
 * named, not spelled out: the results hold for every wording that contains no "$" or "?" and
 * does not start with a digit.
 */
module ArticleQueries {
  import opened Wrappers
  import opened Text
  import opened Common
  import opened CursorCodec
  import opened Placeholders

  /** The fixed pieces of wording. */
  datatype Sql =
    | SelectFromWhere | OneIsOne | And | OrderBy | Limit | Offset | Descending | Comma | Close(of: Sql)
    | StatusIs | ScopeAfghanistan | ScopeWorld | CategoryIs | ProvinceIs | LanguageIs | SourceIs
    | FeedIs | ClusterIs | BreakingIs | DigestOnly | TimeFrom | TimeTo
    | TextMatches | TitleLike | OrSummaryLike | RankOf | LatestOrder
    | BeforeTime | OrSameTime | AndBeforeId | TwoClose
    | ScoreIfSince | Then100 | Then80 | Then60 | Then40 | ScoreRest(d: Dialect)

  datatype Frag = Txt(t: Sql) | Par(n: nat)

  datatype Arg = Str(s: string) | Time(t: int) | Num(n: int) | Flag(b: bool)

  /** A statement with its values in place. */
  datatype Word = Fixed(t: Sql) | Given(a: Arg)

  datatype ArticleQuery = ArticleQuery(
    includeHidden: bool, scope: string, category: string, province: string, language: string,
    source: string, feed: string, cluster: string, breaking: Option<bool>, digest: bool,
    from: Option<int>, to: Option<int>, query: string, cursor: string,
    limit: int, offset: int, sort: string)

  // ---------------------------------------------------------------------------------------
  // Fragments and their meaning
  // ---------------------------------------------------------------------------------------

  predicate Numbered(frags: seq<Frag>, count: nat) {
    forall i | 0 <= i < |frags| && frags[i].Par? :: 1 <= frags[i].n <= count
  }

  predicate Uses(frags: seq<Frag>, n: nat) {
    exists i :: 0 <= i < |frags| && frags[i] == Par(n)
  }

  predicate Spaced(frags: seq<Frag>) {
    forall i | 0 < i < |frags| :: frags[i].Par? ==> frags[i - 1].Txt?
  }

  function Fill(frags: seq<Frag>, args: seq<Arg>): (words: seq<Word>)
    requires Numbered(frags, |args|)
    ensures |words| == |frags|
    ensures forall i | 0 <= i < |frags| ::
              words[i] == if frags[i].Txt? then Fixed(frags[i].t) else Given(args[frags[i].n - 1])
  {
    seq(|frags|, i requires 0 <= i < |frags| =>
      if frags[i].Txt? then Fixed(frags[i].t) else Given(args[frags[i].n - 1]))
  }

  lemma FillConcat(a: seq<Frag>, b: seq<Frag>, args: seq<Arg>)
    requires Numbered(a, |args|) && Numbered(b, |args|)
    ensures Numbered(a + b, |args|) && Fill(a + b, args) == Fill(a, args) + Fill(b, args)
  {
  }

  lemma FillMoreArgs(a: seq<Frag>, args: seq<Arg>, more: seq<Arg>)
    requires Numbered(a, |args|)
    ensures Numbered(a, |args + more|) && Fill(a, args + more) == Fill(a, args)
  {
  }

  // ---------------------------------------------------------------------------------------
  // The intended statement, written with its values
  // ---------------------------------------------------------------------------------------

  function Text1(cond: bool, t: Sql): seq<Word> {
    if cond then [Fixed(And), Fixed(t)] else []
  }

  function Equals(cond: bool, t: Sql, a: Arg): seq<Word> {
    if cond then [Fixed(And), Fixed(t), Given(a), Fixed(Close(t))] else []
  }

  function Compare(cond: bool, t: Sql, a: Arg): seq<Word> {
    if cond then [Fixed(And), Fixed(t), Given(a)] else []
  }

  function ValueOr<T>(o: Option<T>, d: T): T {
    if o.Some? then o.value else d
  }

  function FirstFilterWords(q: ArticleQuery): seq<Word> {
    [Fixed(OneIsOne)]
    + Compare(!q.includeHidden, StatusIs, Str("ACTIVE"))
    + Text1(q.scope == "afghanistan", ScopeAfghanistan)
    + Text1(q.scope == "world", ScopeWorld)
    + Equals(q.category != "", CategoryIs, Str(q.category))
    + Equals(q.province != "", ProvinceIs, Str(q.province))
    + Equals(q.language != "", LanguageIs, Str(q.language))
    + Equals(q.source != "", SourceIs, Str(q.source))
  }

  function FilterWords(q: ArticleQuery): seq<Word> {
    FirstFilterWords(q)
    + Equals(q.feed != "", FeedIs, Str(q.feed))
    + Equals(q.cluster != "", ClusterIs, Str(q.cluster))
    + Equals(q.breaking.Some?, BreakingIs, Flag(ValueOr(q.breaking, false)))
    + Text1(q.digest, DigestOnly)
    + Compare(q.from.Some?, TimeFrom, Time(ValueOr(q.from, 0)))
    + Compare(q.to.Some?, TimeTo, Time(ValueOr(q.to, 0)))
  }

  function Term(q: ArticleQuery): string {
    TrimSpace(q.query)
  }

  function SearchWords(d: Dialect, term: string): seq<Word> {
    if term == "" then []
    else if d == Postgres then
      [Fixed(And), Fixed(TextMatches), Given(Str(term)), Fixed(Close(TextMatches))]
    else
      var pattern := Given(Str("%" + Lower(term) + "%"));
      [Fixed(And), Fixed(TitleLike), pattern, Fixed(OrSummaryLike), pattern, Fixed(Close(OrSummaryLike))]
  }

  function CursorWords(q: ArticleQuery, cur: Option<Cursor>): seq<Word> {
    if cur.None? || q.sort == "top" then []
    else
      [Fixed(And), Fixed(BeforeTime), Given(Time(cur.value.nanos)), Fixed(OrSameTime), Given(Time(cur.value.nanos)),
       Fixed(AndBeforeId), Given(Str(cur.value.id)), Fixed(TwoClose)]
  }

  function ScoreWords(d: Dialect, now: int): seq<Word> {
    [Fixed(ScoreIfSince), Given(Time(now - 15 * MINUTE)), Fixed(Then100), Given(Time(now - HOUR)),
     Fixed(Then80), Given(Time(now - 6 * HOUR)), Fixed(Then60), Given(Time(now - 24 * HOUR)),
     Fixed(Then40), Given(Time(now - 72 * HOUR)), Fixed(ScoreRest(d))]
  }

  function RankWords(d: Dialect, term: string): seq<Word> {
    if d == Postgres && term != "" then
      [Fixed(RankOf), Given(Str(term)), Fixed(Close(RankOf)), Fixed(Descending), Fixed(Comma)]
    else []
  }

  function OrderWords(d: Dialect, sort: string, term: string, now: int): seq<Word> {
    if sort != "top" then [Fixed(LatestOrder)]
    else
      RankWords(d, term) + ScoreWords(d, now) + [Fixed(Descending), Fixed(Comma), Fixed(LatestOrder)]
  }

  function PageLimit(limit: int): (n: int)
    ensures 1 <= n <= 100
  {
    var l := if limit <= 0 then 30 else limit;
    if l > 100 then 100 else l
  }

  function IntendedStatement(d: Dialect, q: ArticleQuery, term: string, cur: Option<Cursor>, now: int): seq<Word> {
    [Fixed(SelectFromWhere)]
    + (FilterWords(q) + SearchWords(d, term) + CursorWords(q, cur))
    + [Fixed(OrderBy)] + OrderWords(d, q.sort, term, now)
    + [Fixed(Limit), Given(Num(PageLimit(q.limit) + 1))]
    + (if q.offset > 0 && q.cursor == "" then [Fixed(Offset), Given(Num(q.offset))] else [])
  }

  // ---------------------------------------------------------------------------------------
  // The builder
  // ---------------------------------------------------------------------------------------

  class StatementBuilder {
    var where: seq<Frag>
    var order: seq<Frag>
    var args: seq<Arg>

    ghost predicate Valid()
      reads this
    {
      && where != [] && Numbered(where, |args|) && Numbered(order, |args|)
      && Spaced(where) && Spaced(order)
      && (order != [] ==> order[0].Txt?)
      && (forall n | 1 <= n <= |args| :: Uses(where, n) || Uses(order, n))
    }

    ghost function WhereWords(): seq<Word>
      requires Valid()
      reads this
    {
      Fill(where, args)
    }

    ghost function OrderingWords(): seq<Word>
      requires Valid()
      reads this
    {
      Fill(order, args)
    }

    constructor ()
      ensures Valid() && WhereWords() == [Fixed(OneIsOne)] && order == [] && args == []
    {
      where, order, args := [Txt(OneIsOne)], [], [];
    }

    /** Appends a condition whose placeholders name exactly the new arguments. */
    method Condition(chunk: seq<Frag>, vals: seq<Arg>)
      requires Valid()
      requires chunk != [] && chunk[0].Txt? && Spaced(chunk)
      requires Numbered(chunk, |args| + |vals|)
      requires forall n | |args| < n <= |args| + |vals| :: Uses(chunk, n)
      modifies this
      ensures Valid()
      ensures args == old(args) + vals && order == old(order) && OrderingWords() == old(OrderingWords())
      ensures WhereWords() == old(WhereWords()) + Fill(chunk, args)
    {
      FillMoreArgs(where, args, vals);
      FillMoreArgs(order, args, vals);
      ghost var before, count := where, |args|;
      args := args + vals;
      where := where + chunk;
      FillConcat(before, chunk, args);
      UsesConcat(before, chunk);
      forall n | 1 <= n <= |args|
        ensures Uses(where, n) || Uses(order, n)
      {
        assert n <= count || Uses(chunk, n);
      }
    }

    /** Appends to the ordering, likewise. */
    method Ordering(chunk: seq<Frag>, vals: seq<Arg>)
      requires Valid()
      requires chunk != [] && chunk[0].Txt? && Spaced(chunk)
      requires Numbered(chunk, |args| + |vals|)
      requires forall n | |args| < n <= |args| + |vals| :: Uses(chunk, n)
      modifies this
      ensures Valid()
      ensures args == old(args) + vals && where == old(where) && WhereWords() == old(WhereWords())
      ensures OrderingWords() == old(OrderingWords()) + Fill(chunk, args)
    {
      FillMoreArgs(where, args, vals);
      FillMoreArgs(order, args, vals);
      ghost var before, count := order, |args|;
      args := args + vals;
      order := order + chunk;
      FillConcat(before, chunk, args);
      UsesConcat(before, chunk);
      forall n | 1 <= n <= |args|
        ensures Uses(where, n) || Uses(order, n)
      {
        assert n <= count || Uses(chunk, n);
      }
    }

    method AddText(cond: bool, t: Sql)
      requires Valid()
      modifies this
      ensures Valid() && order == old(order) && OrderingWords() == old(OrderingWords())
      ensures WhereWords() == old(WhereWords()) + Text1(cond, t)
    {
      if cond {
        Condition([Txt(And), Txt(t)], []);
      }
    }

    method AddEquals(cond: bool, t: Sql, a: Arg)
      requires Valid()
      modifies this
      ensures Valid() && order == old(order) && OrderingWords() == old(OrderingWords())
      ensures WhereWords() == old(WhereWords()) + Equals(cond, t, a)
    {
      if cond {
        var chunk := [Txt(And), Txt(t), Par(|args| + 1), Txt(Close(t))];
        assert chunk[2] == Par(|args| + 1);
        Condition(chunk, [a]);
      }
    }

    method AddCompare(cond: bool, t: Sql, a: Arg)
      requires Valid()
      modifies this
      ensures Valid() && order == old(order) && OrderingWords() == old(OrderingWords())
      ensures WhereWords() == old(WhereWords()) + Compare(cond, t, a)
    {
      if cond {
        var chunk := [Txt(And), Txt(t), Par(|args| + 1)];
        assert chunk[2] == Par(|args| + 1);
        Condition(chunk, [a]);
      }
    }

    /** The first half of the filters: status, scope and the columns up to the source. */
    method FirstFilters(q: ArticleQuery)
      requires Valid() && WhereWords() == [Fixed(OneIsOne)]
      modifies this
      ensures Valid() && order == old(order) && OrderingWords() == old(OrderingWords())
      ensures WhereWords() == FirstFilterWords(q)
    {
      AddCompare(!q.includeHidden, StatusIs, Str("ACTIVE"));
      AddText(q.scope == "afghanistan", ScopeAfghanistan);
      AddText(q.scope == "world", ScopeWorld);
      AddEquals(q.category != "", CategoryIs, Str(q.category));
      AddEquals(q.province != "", ProvinceIs, Str(q.province));
      AddEquals(q.language != "", LanguageIs, Str(q.language));
      AddEquals(q.source != "", SourceIs, Str(q.source));
    }

    method ArticleWhere(q: ArticleQuery)
      requires Valid() && WhereWords() == [Fixed(OneIsOne)]
      modifies this
      ensures Valid() && order == old(order) && OrderingWords() == old(OrderingWords())
      ensures WhereWords() == FilterWords(q)
    {
      FirstFilters(q);
      AddEquals(q.feed != "", FeedIs, Str(q.feed));
      AddEquals(q.cluster != "", ClusterIs, Str(q.cluster));
      AddEquals(q.breaking.Some?, BreakingIs, Flag(ValueOr(q.breaking, false)));
      AddText(q.digest, DigestOnly);
      AddCompare(q.from.Some?, TimeFrom, Time(ValueOr(q.from, 0)));
      AddCompare(q.to.Some?, TimeTo, Time(ValueOr(q.to, 0)));
    }

    method MatchText(term: string) returns (rank: nat)
      requires Valid()
      modifies this
      ensures Valid() && order == old(order) && OrderingWords() == old(OrderingWords())
      ensures WhereWords() == old(WhereWords())
          + [Fixed(And), Fixed(TextMatches), Given(Str(term)), Fixed(Close(TextMatches))]
      ensures 1 <= rank <= |args| && args[rank - 1] == Str(term)
    {
      rank := |args| + 1;
      var chunk := [Txt(And), Txt(TextMatches), Par(rank), Txt(Close(TextMatches))];
      assert chunk[2] == Par(rank);
      Condition(chunk, [Str(term)]);
    }

    method LikeText(pattern: string)
      requires Valid()
      modifies this
      ensures Valid() && order == old(order) && OrderingWords() == old(OrderingWords())
      ensures var p := Given(Str(pattern));
              WhereWords() == old(WhereWords())
                  + [Fixed(And), Fixed(TitleLike), p, Fixed(OrSummaryLike), p, Fixed(Close(OrSummaryLike))]
    {
      var n := |args| + 1;
      var chunk := [Txt(And), Txt(TitleLike), Par(n), Txt(OrSummaryLike), Par(n), Txt(Close(OrSummaryLike))];
      assert chunk[2] == Par(n);
      Condition(chunk, [Str(pattern)]);
    }

    /** The search condition; on Postgres also the number of the argument the ranking repeats. */
    method SearchWhere(d: Dialect, term: string) returns (rank: Option<nat>)
      requires Valid()
      modifies this
      ensures Valid() && order == old(order) && OrderingWords() == old(OrderingWords())
      ensures WhereWords() == old(WhereWords()) + SearchWords(d, term)
      ensures rank.Some? <==> d == Postgres && term != ""
      ensures rank.Some? ==> 1 <= rank.value <= |args| && args[rank.value - 1] == Str(term)
    {
      rank := None;
      if term != "" {
        if d == Postgres {
          var n := MatchText(term);
          rank := Some(n);
        } else {
          LikeText("%" + Lower(term) + "%");
        }
      }
    }

    method ScoreExpr(d: Dialect, now: int)
      requires Valid()
      modifies this
      ensures Valid() && where == old(where) && WhereWords() == old(WhereWords())
      ensures OrderingWords() == old(OrderingWords()) + ScoreWords(d, now)
    {
      var n := |args|;
      var chunk := [Txt(ScoreIfSince), Par(n + 1), Txt(Then100), Par(n + 2), Txt(Then80), Par(n + 3),
                    Txt(Then60), Par(n + 4), Txt(Then40), Par(n + 5), Txt(ScoreRest(d))];
      assert chunk[1] == Par(n + 1) && chunk[3] == Par(n + 2) && chunk[5] == Par(n + 3);
      assert chunk[7] == Par(n + 4) && chunk[9] == Par(n + 5);
      forall m | n < m <= n + 5
        ensures Uses(chunk, m)
      {
        assert chunk[2 * (m - n) - 1] == Par(m);
      }
      Ordering(chunk, [Time(now - 15 * MINUTE), Time(now - HOUR), Time(now - 6 * HOUR), Time(now - 24 * HOUR),
          Time(now - 72 * HOUR)]);
    }

    method RankFirst(rank: nat)
      requires Valid() && 1 <= rank <= |args|
      modifies this
      ensures Valid() && where == old(where) && WhereWords() == old(WhereWords()) && args == old(args)
      ensures OrderingWords() == old(OrderingWords())
                + [Fixed(RankOf), Given(args[rank - 1]), Fixed(Close(RankOf)), Fixed(Descending), Fixed(Comma)]
    {
      Ordering([Txt(RankOf), Par(rank), Txt(Close(RankOf)), Txt(Descending), Txt(Comma)], []);
    }

    /** The rank, where the search has one. */
    method RankIfAny(d: Dialect, term: string, rank: Option<nat>)
      requires Valid() && order == []
      requires rank.Some? <==> d == Postgres && term != ""
      requires rank.Some? ==> 1 <= rank.value <= |args| && args[rank.value - 1] == Str(term)
      modifies this
      ensures Valid() && where == old(where) && WhereWords() == old(WhereWords())
      ensures OrderingWords() == RankWords(d, term)
    {
      if rank.Some? {
        RankFirst(rank.value);
      }
    }

    method OrderByScore(d: Dialect, term: string, now: int, rank: Option<nat>)
      requires Valid() && order == []
      requires rank.Some? <==> d == Postgres && term != ""
      requires rank.Some? ==> 1 <= rank.value <= |args| && args[rank.value - 1] == Str(term)
      modifies this
      ensures Valid() && where == old(where) && WhereWords() == old(WhereWords())
      ensures order != [] && OrderingWords() == OrderWords(d, "top", term, now)
    {
      RankIfAny(d, term, rank);
      ScoreExpr(d, now);
      Ordering([Txt(Descending), Txt(Comma), Txt(LatestOrder)], []);
    }

    method OrderFor(d: Dialect, sort: string, term: string, now: int, rank: Option<nat>)
      requires Valid() && order == []
      requires rank.Some? <==> d == Postgres && term != ""
      requires rank.Some? ==> 1 <= rank.value <= |args| && args[rank.value - 1] == Str(term)
      modifies this
      ensures Valid() && where == old(where) && WhereWords() == old(WhereWords())
      ensures order != [] && OrderingWords() == OrderWords(d, sort, term, now)
    {
      if sort == "top" {
        OrderByScore(d, term, now, rank);
      } else {
        Ordering([Txt(LatestOrder)], []);
      }
    }

    method CursorWhere(q: ArticleQuery, cur: Option<Cursor>)
      requires Valid()
      modifies this
      ensures Valid() && order == old(order) && OrderingWords() == old(OrderingWords())
      ensures WhereWords() == old(WhereWords()) + CursorWords(q, cur)
    {
      if cur.Some? && q.sort != "top" {
        var n := |args|;
        var chunk := [Txt(And), Txt(BeforeTime), Par(n + 1), Txt(OrSameTime), Par(n + 1),
                      Txt(AndBeforeId), Par(n + 2), Txt(TwoClose)];
        assert chunk[2] == Par(n + 1) && chunk[6] == Par(n + 2);
        Condition(chunk, [Time(cur.value.nanos), Str(cur.value.id)]);
      }
    }
  }

  lemma UsesConcat(a: seq<Frag>, b: seq<Frag>)
    ensures forall n: nat :: Uses(a + b, n) <==> Uses(a, n) || Uses(b, n)
  {
    forall n: nat
      ensures Uses(a + b, n) <==> Uses(a, n) || Uses(b, n)
    {
      if Uses(a, n) {
        var i :| 0 <= i < |a| && a[i] == Par(n);
        assert (a + b)[i] == Par(n);
      }
      if Uses(b, n) {
        var i :| 0 <= i < |b| && b[i] == Par(n);
        assert (a + b)[|a| + i] == Par(n);
      }
    }
  }

  datatype Statement = Statement(frags: seq<Frag>, args: seq<Arg>)

  /** What every built statement looks like: it opens with SELECT and closes with a placeholder. */
  predicate Shaped(s: Statement) {
    && UsesAll(s) && Spaced(s.frags)
    && |s.frags| >= 2 && s.frags[0] == Txt(SelectFromWhere) && s.frags[|s.frags| - 1].Par?
  }

  /** Exactly the placeholders 1..|args|, each at least once. */
  predicate UsesAll(s: Statement) {
    Numbered(s.frags, |s.args|) && forall n | 1 <= n <= |s.args| :: Uses(s.frags, n)
  }

  /** Filters, search, ordering and cursor, in that order of arguments. */
  method BuildClauses(d: Dialect, q: ArticleQuery, term: string, cur: Option<Cursor>, now: int)
    returns (b: StatementBuilder)
    ensures fresh(b) && b.Valid() && b.order != []
    ensures b.WhereWords() == FilterWords(q) + SearchWords(d, term) + CursorWords(q, cur)
    ensures b.OrderingWords() == OrderWords(d, q.sort, term, now)
  {
    b := new StatementBuilder();
    b.ArticleWhere(q);
    var rank := b.SearchWhere(d, term);
    b.OrderFor(d, q.sort, term, now, rank);
    b.CursorWhere(q, cur);
  }

  /** The clauses, then limit and offset. */
  method BuildStatement(d: Dialect, q: ArticleQuery, term: string, cur: Option<Cursor>, now: int) returns (s: Statement)
    ensures Shaped(s)
    ensures Fill(s.frags, s.args) == IntendedStatement(d, q, term, cur, now)
  {
    var b := BuildClauses(d, q, term, cur, now);
    s := Assemble(b.where, b.order, b.args, PageLimit(q.limit) + 1);
    if q.offset > 0 && q.cursor == "" {
      s := WithOffset(s, q.offset);
    }
  }

  /** No intended statement is longer than this. */
  const MAX_WORDS: nat := 100

  lemma FiltersAreShort(q: ArticleQuery)
    ensures |FilterWords(q)| <= 50
  {
    assert |FirstFilterWords(q)| <= 25;
  }

  lemma OrderIsShort(d: Dialect, sort: string, term: string, now: int)
    ensures |OrderWords(d, sort, term, now)| <= 20
  {
    assert |RankWords(d, term)| <= 5 && |ScoreWords(d, now)| == 11;
  }

  lemma ConditionsAreShort(d: Dialect, q: ArticleQuery, term: string, cur: Option<Cursor>)
    ensures |SearchWords(d, term)| <= 6 && |CursorWords(q, cur)| <= 8
  {
  }

  lemma IntendedIsShort(d: Dialect, q: ArticleQuery, term: string, cur: Option<Cursor>, now: int)
    ensures |IntendedStatement(d, q, term, cur, now)| <= MAX_WORDS
  {
    var where, order := FilterWords(q) + SearchWords(d, term) + CursorWords(q, cur), OrderWords(d, q.sort, term, now);
    FiltersAreShort(q);
    ConditionsAreShort(d, q, term, cur);
    OrderIsShort(d, q.sort, term, now);
    assert |where| <= 64 && |order| <= 20;
  }

  /** Every argument has a placeholder of its own, so there are no more of them than fragments. */
  lemma ArgsFewerThanFragments(s: Statement)
    requires UsesAll(s)
    ensures |s.args| <= |s.frags|
  {
    forall n | 1 <= n <= |s.args|
      ensures n in ParamList(s.frags)
    {
      ParamListMembers(s.frags, n);
    }
    DistinctInRange(ParamList(s.frags), |s.args|);
    ParamListShort(s.frags);
  }

  lemma {:induction false} ParamListShort(frags: seq<Frag>)
    ensures |ParamList(frags)| <= |frags|
  {
    if frags != [] {
      ParamListShort(frags[1..]);
    }
  }

  /**
   * The statement for a query, or the cursor's error. For every combination of filters, search
   * term, sort, cursor, offset and dialect it uses exactly its arguments, and with the arguments
   * in place it is the intended statement.
   */
  method BuildQuery(d: Dialect, q: ArticleQuery, now: int) returns (r: Result<Statement, CursorError>)
    ensures r.Err? <==> DecodeCursor(q.cursor).Err?
    ensures r.Err? ==> r.error == DecodeCursor(q.cursor).error
    ensures r.Ok? ==>
              && Shaped(r.value) && |r.value.args| <= MAX_WORDS
              && Fill(r.value.frags, r.value.args)
                  == IntendedStatement(d, q, TrimSpace(q.query), DecodeCursor(q.cursor).value, now)
  {
    var decoded := DecodeCursor(q.cursor);
    if decoded.Err? {
      return Err(decoded.error);
    }
    var s := BuildStatement(d, q, Term(q), decoded.value, now);
    IntendedIsShort(d, q, Term(q), decoded.value, now);
    ArgsFewerThanFragments(s);
    return Ok(s);
  }

  function Assemble(where: seq<Frag>, order: seq<Frag>, args: seq<Arg>, limit: int): (s: Statement)
    requires where != [] && Numbered(where, |args|) && Numbered(order, |args|) && Spaced(where) && Spaced(order)
    requires order != [] && where[0].Txt? && order[0].Txt?
    requires forall n | 1 <= n <= |args| :: Uses(where, n) || Uses(order, n)
    ensures Shaped(s)
    ensures Fill(s.frags, s.args) == [Fixed(SelectFromWhere)] + Fill(where, args) + [Fixed(OrderBy)] + Fill(order, args)
                                     + [Fixed(Limit), Given(Num(limit))]
  {
    var frags := [Txt(SelectFromWhere)] + where + [Txt(OrderBy)] + order + [Txt(Limit), Par(|args| + 1)];
    UsesConcat([Txt(SelectFromWhere)], where);
    UsesConcat([Txt(SelectFromWhere)] + where, [Txt(OrderBy)]);
    UsesConcat([Txt(SelectFromWhere)] + where + [Txt(OrderBy)], order);
    UsesConcat([Txt(SelectFromWhere)] + where + [Txt(OrderBy)] + order, [Txt(Limit), Par(|args| + 1)]);
    assert [Txt(Limit), Par(|args| + 1)][1] == Par(|args| + 1);
    Statement(frags, args + [Num(limit)])
  }

  function WithOffset(s: Statement, offset: int): (s': Statement)
    requires Shaped(s)
    ensures Shaped(s')
    ensures Fill(s'.frags, s'.args) == Fill(s.frags, s.args) + [Fixed(Offset), Given(Num(offset))]
  {
    var n := |s.args| + 1;
    UsesConcat(s.frags, [Txt(Offset), Par(n)]);
    assert [Txt(Offset), Par(n)][1] == Par(n);
    Statement(s.frags + [Txt(Offset), Par(n)], s.args + [Num(offset)])
  }

  // ---------------------------------------------------------------------------------------
  // From fragments to text, and through bind
  // ---------------------------------------------------------------------------------------

  ghost predicate CleanWording(w: Sql -> string) {
    && (forall t :: w(t) != "" && '$' !in w(t) && '?' !in w(t) && !IsDigit(w(t)[0]))
    && !IsSpace(w(SelectFromWhere)[0])
  }

  function FragText(f: Frag, w: Sql -> string): string {
    if f.Txt? then w(f.t) else ['$'] + Digits(f.n)
  }

  function Render(frags: seq<Frag>, w: Sql -> string): string {
    if frags == [] then "" else FragText(frags[0], w) + Render(frags[1..], w)
  }

  function Chars(s: string): (r: seq<Piece<Arg>>)
    ensures |r| == |s|
  {
    seq(|s|, i requires 0 <= i < |s| => Ch(s[i]))
  }

  /** The statement's characters, with each value as one piece. */
  function Spelled(words: seq<Word>, w: Sql -> string): seq<Piece<Arg>> {
    if words == [] then []
    else (if words[0].Fixed? then Chars(w(words[0].t)) else [Val(words[0].a)]) + Spelled(words[1..], w)
  }

  function ParamList(frags: seq<Frag>): seq<nat> {
    if frags == [] then []
    else (if frags[0].Par? then [frags[0].n] else []) + ParamList(frags[1..])
  }

  lemma {:induction false} ParamListMembers(frags: seq<Frag>, n: nat)
    ensures n in ParamList(frags) <==> Uses(frags, n)
  {
    if frags != [] {
      ParamListMembers(frags[1..], n);
      assert frags == [frags[0]] + frags[1..];
      UsesConcat([frags[0]], frags[1..]);
      assert Uses([frags[0]], n) <==> frags[0] == Par(n) by {
        assert frags[0] == Par(n) ==> [frags[0]][0] == Par(n);
      }
    }
  }

  lemma LiteralChar(q: string, args: seq<Arg>)
    requires q != "" && q[0] != '$' && InRange(WrittenIndexes(q[1..]), |args|)
    ensures WrittenIndexes(q) == WrittenIndexes(q[1..])
    ensures FillNumbered(q, args) == [Ch(q[0])] + FillNumbered(q[1..], args)
  {
  }

  lemma CharsHead(a: string, rest: seq<Piece<Arg>>)
    requires a != ""
    ensures [Ch(a[0])] + (Chars(a[1..]) + rest) == Chars(a) + rest
  {
  }

  lemma {:induction false} LiteralPrefix(q: string, a: string, rest: string, args: seq<Arg>)
    requires q == a + rest && '$' !in a && InRange(WrittenIndexes(rest), |args|)
    ensures WrittenIndexes(q) == WrittenIndexes(rest)
    ensures FillNumbered(q, args) == Chars(a) + FillNumbered(rest, args)
    decreases |a|
  {
    if a == "" {
      assert q == rest;
    } else {
      LiteralPrefix(q[1..], a[1..], rest, args);
      LiteralChar(q, args);
      CharsHead(a, FillNumbered(rest, args));
    }
  }

  /** A text that starts with a placeholder, taken apart. */
  lemma ParamParts(q: string, digits: string, rest: string)
    requires q == ['$'] + digits + rest && digits != "" && AllDigits(digits)
    requires rest != "" ==> !IsDigit(rest[0])
    ensures q != "" && q[0] == '$' && ParamDigits(q) == |digits|
    ensures q[1..|digits| + 1] == digits && q[|digits| + 1..] == rest
  {
    ParamHead(digits, rest);
  }

  lemma ParamIndexes(q: string, n: nat, digits: string, rest: string)
    requires q != "" && q[0] == '$' && n == ParamDigits(q) > 0 && q[1..n + 1] == digits && q[n + 1..] == rest
    ensures WrittenIndexes(q) == [Value(digits)] + WrittenIndexes(rest)
  {
  }

  lemma ParamFill(q: string, n: nat, rest: string, indexes: seq<nat>, args: seq<Arg>)
    requires q != "" && q[0] == '$' && n == ParamDigits(q) > 0 && q[n + 1..] == rest
    requires WrittenIndexes(q) == indexes && indexes != [] && InRange(indexes, |args|)
        && InRange(WrittenIndexes(rest), |args|)
    ensures FillNumbered(q, args) == [Val(args[indexes[0] - 1])] + FillNumbered(rest, args)
  {
  }

  lemma ParamPrefix(q: string, digits: string, rest: string, args: seq<Arg>)
    requires q == ['$'] + digits + rest && digits != "" && AllDigits(digits)
    requires rest != "" ==> !IsDigit(rest[0])
    requires 1 <= Value(digits) <= |args| && InRange(WrittenIndexes(rest), |args|)
    ensures WrittenIndexes(q) == [Value(digits)] + WrittenIndexes(rest)
    ensures FillNumbered(q, args) == [Val(args[Value(digits) - 1])] + FillNumbered(rest, args)
  {
    ParamParts(q, digits, rest);
    ParamIndexes(q, |digits|, digits, rest);
    ParamFill(q, |digits|, rest, [Value(digits)] + WrittenIndexes(rest), args);
  }

  /** Rendered fragments start with their first text, and contain no "?". */
  lemma {:induction false} RenderStarts(frags: seq<Frag>, w: Sql -> string)
    requires CleanWording(w)
    ensures '?' !in Render(frags, w)
    ensures frags != [] && frags[0].Txt? ==> Render(frags, w) != "" && Render(frags, w)[0] == w(frags[0].t)[0]
  {
    if frags != [] {
      RenderStarts(frags[1..], w);
      var head := FragText(frags[0], w);
      assert '?' !in head;
      assert Render(frags, w) == head + Render(frags[1..], w);
    }
  }

  /** What it takes for a rendered text to scan and fill like its fragments. */
  ghost predicate ScansAs(frags: seq<Frag>, w: Sql -> string, args: seq<Arg>)
    requires Numbered(frags, |args|)
  {
    var text := Render(frags, w);
    && WrittenIndexes(text) == ParamList(frags)
    && InRange(WrittenIndexes(text), |args|)
    && FillNumbered(text, args) == Spelled(Fill(frags, args), w)
  }

  lemma ScansBehindText(frags: seq<Frag>, w: Sql -> string, args: seq<Arg>)
    requires CleanWording(w) && Numbered(frags, |args|) && frags != [] && frags[0].Txt?
    requires ScansAs(frags[1..], w, args)
    ensures ScansAs(frags, w, args)
  {
    SpelledHead(frags, w, args);
    LiteralPrefix(Render(frags, w), w(frags[0].t), Render(frags[1..], w), args);
  }

  lemma RenderedParam(frags: seq<Frag>, w: Sql -> string)
    requires CleanWording(w) && Spaced(frags) && frags != [] && frags[0].Par?
    ensures var digits, rest := Digits(frags[0].n), Render(frags[1..], w);
      && Render(frags, w) == ['$'] + digits + rest
      && (rest != "" ==> !IsDigit(rest[0]))
      && Value(digits) == frags[0].n
  {
    assert |frags| > 1 ==> frags[1].Txt?;
    RenderStarts(frags[1..], w);
    ValueOfDigits(frags[0].n);
  }

  /** A text scans to these indexes, and fills to these pieces. */
  ghost predicate ScansTo(text: string, indexes: seq<nat>, args: seq<Arg>, pieces: seq<Piece<Arg>>) {
    WrittenIndexes(text) == indexes && InRange(indexes, |args|) && FillNumbered(text, args) == pieces
  }

  lemma ScansBehindDigits(q: string, n: nat, rest: string, indexes: seq<nat>, args: seq<Arg>, pieces: seq<Piece<Arg>>)
    requires q == ['$'] + Digits(n) + rest && (rest != "" ==> !IsDigit(rest[0])) && Value(Digits(n)) == n
    requires 1 <= n <= |args| && ScansTo(rest, indexes, args, pieces)
    ensures ScansTo(q, [n] + indexes, args, [Val(args[n - 1])] + pieces)
  {
    ParamPrefix(q, Digits(n), rest, args);
  }

  lemma ScansBehindParam(frags: seq<Frag>, w: Sql -> string, args: seq<Arg>)
    requires CleanWording(w) && Spaced(frags) && Numbered(frags, |args|) && frags != [] && frags[0].Par?
    requires ScansAs(frags[1..], w, args)
    ensures ScansAs(frags, w, args)
  {
    var rest := frags[1..];
    SpelledHead(frags, w, args);
    RenderedParam(frags, w);
    ScansBehindDigits(Render(frags, w), frags[0].n, Render(rest, w), ParamList(rest), args,
        Spelled(Fill(rest, args), w));
  }

  lemma SpelledHead(frags: seq<Frag>, w: Sql -> string, args: seq<Arg>)
    requires Numbered(frags, |args|) && frags != []
    ensures Spelled(Fill(frags, args), w)
            == (if frags[0].Txt? then Chars(w(frags[0].t)) else [Val(args[frags[0].n - 1])])
               + Spelled(Fill(frags[1..], args), w)
  {
    assert Fill(frags, args)[1..] == Fill(frags[1..], args);
  }

  /** The rendered text scans back to the fragments' numbers, and fills to the fragments' meaning. */
  lemma {:induction false} RenderScans(frags: seq<Frag>, w: Sql -> string, args: seq<Arg>)
    requires CleanWording(w) && Spaced(frags) && Numbered(frags, |args|)
    ensures ScansAs(frags, w, args)
  {
    if frags != [] {
      RenderScans(frags[1..], w, args);
      if frags[0].Txt? {
        ScansBehindText(frags, w, args);
      } else {
        ScansBehindParam(frags, w, args);
      }
    }
  }

  lemma LastOfConcat(a: string, b: string)
    requires b != ""
    ensures (a + b)[|a + b| - 1] == b[|b| - 1]
  {
  }

  lemma {:induction false} RenderEndsWithDigit(frags: seq<Frag>, w: Sql -> string)
    requires frags != [] && frags[|frags| - 1].Par?
    ensures var text := Render(frags, w); text != "" && IsDigit(text[|text| - 1])
  {
    if |frags| == 1 {
      assert Render(frags[1..], w) == "";
      assert Render(frags, w) == ['$'] + Digits(frags[0].n);
    } else {
      RenderEndsWithDigit(frags[1..], w);
      LastOfConcat(FragText(frags[0], w), Render(frags[1..], w));
    }
  }

  lemma RenderIsTrimmed(frags: seq<Frag>, w: Sql -> string)
    requires CleanWording(w) && |frags| >= 2 && frags[0] == Txt(SelectFromWhere) && frags[|frags| - 1].Par?
    ensures TrimSpace(Render(frags, w)) == Render(frags, w)
  {
    RenderStarts(frags, w);
    RenderEndsWithDigit(frags, w);
    TrimOfSolid(Render(frags, w));
  }

  /** The text of a built statement uses exactly the placeholders 1..|args|, each at least once. */
  lemma BuiltStatementUsesExactly(s: Statement, w: Sql -> string)
    requires CleanWording(w) && Shaped(s) && |s.args| < 0x8000_0000_0000_0000
    ensures UsesExactly(RebindIndexes(Render(s.frags, w)), |s.args|)
  {
    var text := Render(s.frags, w);
    RenderScans(s.frags, w, s.args);
    IndexesExact(text, |s.args|);
    forall n | 1 <= n <= |s.args|
      ensures n in RebindIndexes(text)
    {
      ParamListMembers(s.frags, n);
    }
  }

  /** So none of bind's three checks can fail, on either dialect. */
  lemma BuiltStatementBinds(d: Dialect, s: Statement, w: Sql -> string)
    requires CleanWording(w) && Shaped(s) && |s.args| < 0x8000_0000_0000_0000
    ensures BindAccepts(d, Render(s.frags, w), |s.args|)
  {
    RenderIsTrimmed(s.frags, w);
    BuiltStatementUsesExactly(s, w);
    ExactUseIsAccepted(d, Render(s.frags, w), |s.args|);
  }

  /** On a positional driver the rewritten text with its re-laid values is the statement with its values. */
  lemma BuiltStatementKeepsMeaning(s: Statement, w: Sql -> string)
    requires CleanWording(w) && Shaped(s) && |s.args| < 0x8000_0000_0000_0000
    ensures var text := TrimSpace(Render(s.frags, w));
            && InRange(RebindIndexes(text), |s.args|)
            && FillPositional(RebindText(text), ValuesFor(RebindIndexes(text), s.args))
                == Some(Spelled(Fill(s.frags, s.args), w))
  {
    RenderIsTrimmed(s.frags, w);
    RenderStarts(s.frags, w);
    RenderScans(s.frags, w, s.args);
    RebindKeepsMeaning(Render(s.frags, w), s.args);
  }

  // ---------------------------------------------------------------------------------------
  // From a query to what the driver gets
  // ---------------------------------------------------------------------------------------

  /** The statement with its values as the driver takes them. */
  function DriverWords(words: seq<Word>, conv: Arg -> Arg): (r: seq<Word>)
    ensures |r| == |words|
    ensures forall i | 0 <= i < |words| ::
              r[i] == if words[i].Given? then Given(conv(words[i].a)) else words[i]
  {
    seq(|words|, i requires 0 <= i < |words| => if words[i].Given? then Given(conv(words[i].a)) else words[i])
  }

  lemma FillConverted(frags: seq<Frag>, args: seq<Arg>, conv: Arg -> Arg)
    requires Numbered(frags, |args|)
    ensures Fill(frags, Converted(args, conv)) == DriverWords(Fill(frags, args), conv)
  {
  }

  /** What a driver makes of a statement and its values: positional on SQLite, numbered on Postgres. */
  function DriverReads(d: Dialect, b: Bound<Arg>): Option<seq<Piece<Arg>>> {
    match d
    case SQLite => FillPositional(b.text, b.values)
    case Postgres => if InRange(WrittenIndexes(b.text), |b.values|) then Some(FillNumbered(b.text, b.values)) else None
  }

  /** A built statement, bound for either dialect, reads as the statement with its converted values. */
  lemma BoundStatementReads(d: Dialect, s: Statement, w: Sql -> string, conv: Arg -> Arg)
    requires CleanWording(w) && Shaped(s) && |s.args| < 0x8000_0000_0000_0000
    requires BindAccepts(d, Render(s.frags, w), |s.args|)
    ensures DriverReads(d, BoundTo(d, TrimSpace(Render(s.frags, w)), s.args, conv)) ==
            Some(Spelled(DriverWords(Fill(s.frags, s.args), conv), w))
  {
    var vals := Converted(s.args, conv);
    var driven := Statement(s.frags, vals);
    FillConverted(s.frags, s.args, conv);
    RenderIsTrimmed(s.frags, w);
    match d {
      case SQLite => BuiltStatementKeepsMeaning(driven, w);
      case Postgres => RenderScans(s.frags, w, vals);
    }
  }

  /**
   * From query to driver, on either dialect: unless the cursor is refused, none of bind's checks
   * fails, and what the driver reads is the intended statement with its converted values.
   */
  method PrepareQuery(d: Dialect, q: ArticleQuery, now: int, w: Sql -> string, conv: Arg -> Arg)
    returns (r: Result<Bound<Arg>, CursorError>)
    requires CleanWording(w)
    ensures r.Err? <==> DecodeCursor(q.cursor).Err?
    ensures r.Err? ==> r.error == DecodeCursor(q.cursor).error
    ensures r.Ok? ==>
              var words := IntendedStatement(d, q, TrimSpace(q.query), DecodeCursor(q.cursor).value, now);
              DriverReads(d, r.value) == Some(Spelled(DriverWords(words, conv), w))
  {
    var built := BuildQuery(d, q, now);
    if built.Err? {
      return Err(built.error);
    }
    var s := built.value;
    BuiltStatementBinds(d, s, w);
    BoundStatementReads(d, s, w, conv);
    var bound := Bind(d, Render(s.frags, w), s.args, conv);
    return Ok(bound.value);
  }
}
