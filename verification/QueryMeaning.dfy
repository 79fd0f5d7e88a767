/**
 * What a built statement means on a table of articles: its words are taken apart again into conditions,
 * ordering, limit and offset. For the "latest" order that is the page query that Pagination walks with.
 */
module QueryMeaning {
  import opened ArticleQueries
  import opened CursorCodec
  import opened Common
  import opened Seqs
  import opened Text
  import opened Wrappers
  import P = Pagination

  /** What the conditions look at besides time and id; `leading` says that its main category is editorial. */
  datatype Columns = Columns(
    status: string, scope: Option<string>, categories: set<string>, leading: bool, provinces: set<string>,
    language: string, source: string, feed: Option<string>, cluster: Option<string>, breaking: bool)

  /** How a database sees an article: its columns, and whether a text search finds it. */
  datatype View = View(dialect: Dialect, columns: P.Article -> Columns, finds: (seq<Word>, P.Article) -> bool)

  // ---------------------------------------------------------------------------------------
  // Reading the words
  // ---------------------------------------------------------------------------------------

  /** time < t OR (time = t AND id < i) */
  predicate IsKeyset(c: seq<Word>) {
    && |c| == 7 && c[0] == Fixed(BeforeTime) && c[1].Given? && c[1].a.Time?
    && c[2] == Fixed(OrSameTime) && c[3].Given? && c[3].a.Time?
    && c[4] == Fixed(AndBeforeId) && c[5].Given? && c[5].a.Str? && c[6] == Fixed(TwoClose)
  }

  /** A condition of fixed wording, or one with a value in it. */
  predicate IsPlain(c: seq<Word>, t: Sql) {
    c == [Fixed(t)]
  }

  predicate HasValue(c: seq<Word>) {
    && 2 <= |c| <= 3 && c[0].Fixed? && c[1].Given?
    && (|c| == 3 ==> c[2] == Fixed(Close(c[0].t)))
  }

  /** scope LIKE 'prefix%'; SQLite does not tell capital from small letters there. */
  predicate StartsWith(d: Dialect, scope: Option<string>, prefix: string) {
    scope.Some? && prefix <= if d == SQLite then Lower(scope.value) else scope.value
  }

  /** column = value, or the value among the column's entries */
  predicate TextValueHolds(t: Sql, v: string, f: Columns) {
    match t
    case StatusIs => f.status == v
    case CategoryIs => v in f.categories
    case ProvinceIs => v in f.provinces
    case LanguageIs => f.language == v
    case SourceIs => f.source == v
    case FeedIs => f.feed == Some(v)
    case ClusterIs => f.cluster == Some(v)
    case _ => false
  }

  predicate ValueHolds(t: Sql, v: Arg, a: P.Article, f: Columns) {
    match v
    case Str(s) => TextValueHolds(t, s, f)
    case Flag(b) => t == BreakingIs && f.breaking == b
    case Time(n) => (t == TimeFrom && P.TimeOf(a) >= n) || (t == TimeTo && P.TimeOf(a) <= n)
    case Num(_) => false
  }

  predicate Holds(c: seq<Word>, a: P.Article, view: View) {
    var f := view.columns(a);
    if IsKeyset(c) then P.TimeOf(a) < c[1].a.t || (P.TimeOf(a) == c[3].a.t && P.IdLess(a.id, c[5].a.s))
    else if IsPlain(c, OneIsOne) then true
    else if IsPlain(c, ScopeAfghanistan) then
      StartsWith(view.dialect, f.scope, "afghanistan") || "afghanistan" in f.categories || "provincial" in f.categories
    else if IsPlain(c, ScopeWorld) then
      f.scope == Some("global") || "world" in f.categories || "regional" in f.categories
    else if IsPlain(c, DigestOnly) then f.leading
    else if IsSearch(c) then view.finds(c, a)
    else HasValue(c) && ValueHolds(c[0].t, c[1].a, a, f)
  }

  /** The wording of a text search in either dialect. */
  predicate IsSearch(c: seq<Word>) {
    c != [] && c[0] in {Fixed(TextMatches), Fixed(TitleLike)}
  }

  /**
   * Every condition between the ANDs holds of the article; the words are read from the end, and `c` is
   * what has been read of a condition.
   */
  predicate Satisfies(words: seq<Word>, c: seq<Word>, a: P.Article, view: View) {
    if words == [] then Holds(c, a, view)
    else
      var rest, last := words[..|words| - 1], words[|words| - 1];
      if last == Fixed(And) then Satisfies(rest, [], a, view) && Holds(c, a, view)
      else Satisfies(rest, [last] + c, a, view)
  }

  predicate Passes(words: seq<Word>, a: P.Article, view: View) {
    Satisfies(words, [], a, view)
  }

  function Where(s: set<P.Article>, where: seq<Word>, view: View): set<P.Article> {
    set a | a in s && Passes(where, a, view)
  }

  function IndexOf(words: seq<Word>, w: Word): (i: nat)
    ensures i <= |words| && w !in words[..i] && (i < |words| ==> words[i] == w)
  {
    if words == [] || words[0] == w then 0 else 1 + IndexOf(words[1..], w)
  }

  function Drop<T>(l: seq<T>, n: nat): seq<T> {
    if |l| <= n then [] else l[n..]
  }

  predicate IsLimit(tail: seq<Word>) {
    |tail| >= 2 && tail[0] == Fixed(Limit) && tail[1].Given? && tail[1].a.Num? && tail[1].a.n >= 0
  }

  predicate IsOffset(tail: seq<Word>) {
    |tail| == 2 && tail[0] == Fixed(Offset) && tail[1].Given? && tail[1].a.Num? && tail[1].a.n >= 0
  }

  /** LIMIT n, or LIMIT n OFFSET m. */
  function Paged<T>(rows: seq<T>, tail: seq<Word>): Option<seq<T>> {
    if IsLimit(tail) && |tail| == 2 then Some(Take(rows, tail[1].a.n))
    else if IsLimit(tail) && IsOffset(tail[2..]) then Some(Take(Drop(rows, tail[3].a.n), tail[1].a.n))
    else None
  }

  /** The rows a statement in "latest" order answers; None when it is not one. */
  ghost function Rows(words: seq<Word>, s: set<P.Article>, view: View): Option<seq<P.Article>>
    requires P.Keyed(s)
  {
    var i := IndexOf(words, Fixed(OrderBy));
    if words == [] || words[0] != Fixed(SelectFromWhere) || i + 1 >= |words| || words[i + 1] != Fixed(LatestOrder) then
      None
    else Paged(P.Latest(Where(s, words[1..i], view)), words[i + 2..])
  }

  // ---------------------------------------------------------------------------------------
  // The cursor's condition
  // ---------------------------------------------------------------------------------------

  lemma {:induction false} OneMoreCondition(words: seq<Word>, c: seq<Word>, tail: seq<Word>, a: P.Article, view: View)
    requires Fixed(And) !in c
    ensures Satisfies(words + [Fixed(And)] + c, tail, a, view) <==>
            Passes(words, a, view) && Holds(c + tail, a, view)
    decreases |c|
  {
    var all := words + [Fixed(And)] + c;
    if c == [] {
      assert all[..|all| - 1] == words && c + tail == tail;
    } else {
      var n := |c| - 1;
      assert all[..|all| - 1] == words + [Fixed(And)] + c[..n];
      OneMoreCondition(words, c[..n], [c[n]] + tail, a, view);
      assert c[..n] + ([c[n]] + tail) == c + tail;
    }
  }

  function KeysetOf(cur: Cursor): (c: seq<Word>)
    ensures IsKeyset(c) && Fixed(And) !in c
    ensures c[1].a.t == c[3].a.t == cur.nanos && c[5].a.s == cur.id
  {
    [Fixed(BeforeTime), Given(Time(cur.nanos)), Fixed(OrSameTime), Given(Time(cur.nanos)),
     Fixed(AndBeforeId), Given(Str(cur.id)), Fixed(TwoClose)]
  }

  /** Adding the cursor's words is keeping what lies under the cursor. */
  lemma {:induction false} CursorWordsMean(where: seq<Word>, q: ArticleQuery, cur: Option<Cursor>, s: set<P.Article>,
      view: View)
    requires q.sort != "top"
    ensures Where(s, where + CursorWords(q, cur), view) == P.Remaining(Where(s, where, view), cur)
  {
    if cur == None {
      assert where + CursorWords(q, cur) == where;
    } else {
      var c := KeysetOf(cur.value);
      assert where + CursorWords(q, cur) == where + [Fixed(And)] + c;
      forall a | a in s
        ensures Passes(where + CursorWords(q, cur), a, view) <==> Passes(where, a, view) && P.Under(a, cur)
      {
        OneMoreCondition(where, c, [], a, view);
        assert c + [] == c;
      }
    }
  }

  // ---------------------------------------------------------------------------------------
  // The filters
  // ---------------------------------------------------------------------------------------

  predicate ScopeWanted(d: Dialect, q: ArticleQuery, f: Columns) {
    && (q.includeHidden || f.status == "ACTIVE")
    && (q.scope == "afghanistan" ==>
          StartsWith(d, f.scope, "afghanistan") || "afghanistan" in f.categories || "provincial" in f.categories)
    && (q.scope == "world" ==> f.scope == Some("global") || "world" in f.categories || "regional" in f.categories)
  }

  /** What a query asks for up to the source. */
  predicate FirstWanted(d: Dialect, q: ArticleQuery, f: Columns) {
    && ScopeWanted(d, q, f)
    && (q.category == "" || q.category in f.categories)
    && (q.province == "" || q.province in f.provinces)
    && (q.language == "" || q.language == f.language)
    && (q.source == "" || q.source == f.source)
  }

  /** What a query asks for besides the search. */
  predicate Wanted(d: Dialect, q: ArticleQuery, a: P.Article, f: Columns) {
    var time := if a.published.Some? then a.published.value else a.discovered;
    && FirstWanted(d, q, f)
    && (q.feed == "" || f.feed == Some(q.feed))
    && (q.cluster == "" || f.cluster == Some(q.cluster))
    && (q.breaking == None || q.breaking == Some(f.breaking))
    && (q.digest ==> f.leading)
    && (q.from.Some? ==> q.from.value <= time)
    && (q.to.Some? ==> time <= q.to.value)
  }

  function SearchCondition(d: Dialect, term: string): seq<Word> {
    if d == Postgres then [Fixed(TextMatches), Given(Str(term)), Fixed(Close(TextMatches))]
    else
      var pattern := Given(Str("%" + Lower(term) + "%"));
      [Fixed(TitleLike), pattern, Fixed(OrSummaryLike), pattern, Fixed(Close(OrSummaryLike))]
  }

  /** Adding a condition, or nothing, narrows the rest by it, or not at all. */
  lemma {:induction false} ChunkMeans(ws: seq<Word>, chunk: seq<Word>, cond: bool, c: seq<Word>, a: P.Article,
      view: View)
    requires chunk == (if cond then [Fixed(And)] + c else []) && Fixed(And) !in c
    ensures Passes(ws + chunk, a, view) <==>
            Passes(ws, a, view) && (cond ==> Holds(c, a, view))
  {
    if cond {
      assert ws + chunk == ws + [Fixed(And)] + c;
      OneMoreCondition(ws, c, [], a, view);
      assert c + [] == c;
    } else {
      assert ws + chunk == ws;
    }
  }

  lemma {:induction false} TextMeans(ws: seq<Word>, cond: bool, t: Sql, a: P.Article, view: View)
    requires t != And
    ensures Passes(ws + Text1(cond, t), a, view) <==>
            Passes(ws, a, view) && (cond ==> Holds([Fixed(t)], a, view))
  {
    assert [Fixed(And), Fixed(t)] == [Fixed(And)] + [Fixed(t)];
    ChunkMeans(ws, Text1(cond, t), cond, [Fixed(t)], a, view);
  }

  lemma {:induction false} EqualsMeans(ws: seq<Word>, cond: bool, t: Sql, v: Arg, a: P.Article, view: View)
    requires t in {CategoryIs, ProvinceIs, LanguageIs, SourceIs, FeedIs, ClusterIs, BreakingIs}
    ensures Passes(ws + Equals(cond, t, v), a, view) <==>
            Passes(ws, a, view) && (cond ==> ValueHolds(t, v, a, view.columns(a)))
  {
    var c := [Fixed(t), Given(v), Fixed(Close(t))];
    assert [Fixed(And), Fixed(t), Given(v), Fixed(Close(t))] == [Fixed(And)] + c;
    ChunkMeans(ws, Equals(cond, t, v), cond, c, a, view);
  }

  lemma {:induction false} CompareMeans(ws: seq<Word>, cond: bool, t: Sql, v: Arg, a: P.Article, view: View)
    requires t in {StatusIs, TimeFrom, TimeTo}
    ensures Passes(ws + Compare(cond, t, v), a, view) <==>
            Passes(ws, a, view) && (cond ==> ValueHolds(t, v, a, view.columns(a)))
  {
    var c := [Fixed(t), Given(v)];
    assert [Fixed(And), Fixed(t), Given(v)] == [Fixed(And)] + c;
    ChunkMeans(ws, Compare(cond, t, v), cond, c, a, view);
  }

  lemma {:induction false} TwoEqualsMean(ws: seq<Word>, p: bool, t: Sql, v: Arg, q: bool, u: Sql, w: Arg, a: P.Article,
      view: View)
    requires t in {CategoryIs, ProvinceIs, LanguageIs, SourceIs, FeedIs, ClusterIs, BreakingIs}
    requires u in {CategoryIs, ProvinceIs, LanguageIs, SourceIs, FeedIs, ClusterIs, BreakingIs}
    ensures Passes(ws + Equals(p, t, v) + Equals(q, u, w), a, view) <==>
            && Passes(ws, a, view)
            && (p ==> ValueHolds(t, v, a, view.columns(a))) && (q ==> ValueHolds(u, w, a, view.columns(a)))
  {
    EqualsMeans(ws, p, t, v, a, view);
    EqualsMeans(ws + Equals(p, t, v), q, u, w, a, view);
  }

  lemma {:induction false} NoConditionYet(a: P.Article, view: View)
    ensures Passes([Fixed(OneIsOne)], a, view)
  {
    assert [Fixed(OneIsOne)][..0] == [] && [Fixed(OneIsOne)] + [] == [Fixed(OneIsOne)];
  }

  function ScopeWords(q: ArticleQuery): seq<Word> {
    [Fixed(OneIsOne)] + Compare(!q.includeHidden, StatusIs, Str("ACTIVE"))
    + Text1(q.scope == "afghanistan", ScopeAfghanistan) + Text1(q.scope == "world", ScopeWorld)
  }

  lemma {:induction false} ScopesMean(q: ArticleQuery, a: P.Article, view: View)
    ensures Passes(ScopeWords(q), a, view) <==> ScopeWanted(view.dialect, q, view.columns(a))
  {
    var w0 := [Fixed(OneIsOne)];
    var w1 := w0 + Compare(!q.includeHidden, StatusIs, Str("ACTIVE"));
    var w2 := w1 + Text1(q.scope == "afghanistan", ScopeAfghanistan);
    NoConditionYet(a, view);
    CompareMeans(w0, !q.includeHidden, StatusIs, Str("ACTIVE"), a, view);
    TextMeans(w1, q.scope == "afghanistan", ScopeAfghanistan, a, view);
    TextMeans(w2, q.scope == "world", ScopeWorld, a, view);
  }

  lemma {:induction false} FirstFiltersMean(q: ArticleQuery, a: P.Article, view: View)
    ensures Passes(FirstFilterWords(q), a, view) <==> FirstWanted(view.dialect, q, view.columns(a))
  {
    var w0 := ScopeWords(q);
    var w2 := w0 + Equals(q.category != "", CategoryIs, Str(q.category))
        + Equals(q.province != "", ProvinceIs, Str(q.province));
    ScopesMean(q, a, view);
    TwoEqualsMean(w0, q.category != "", CategoryIs, Str(q.category), q.province != "", ProvinceIs, Str(q.province), a,
        view);
    TwoEqualsMean(w2, q.language != "", LanguageIs, Str(q.language), q.source != "", SourceIs, Str(q.source), a, view);
  }

  lemma {:induction false} FlagsMean(ws: seq<Word>, q: ArticleQuery, a: P.Article, view: View)
    ensures Passes(ws + Equals(q.breaking.Some?, BreakingIs, Flag(ValueOr(q.breaking, false)))
                                  + Text1(q.digest, DigestOnly), a, view) <==>
            && Passes(ws, a, view)
            && (q.breaking == None || q.breaking == Some(view.columns(a).breaking))
            && (q.digest ==> view.columns(a).leading)
  {
    var flag := Flag(ValueOr(q.breaking, false));
    EqualsMeans(ws, q.breaking.Some?, BreakingIs, flag, a, view);
    TextMeans(ws + Equals(q.breaking.Some?, BreakingIs, flag), q.digest, DigestOnly, a, view);
  }

  lemma {:induction false} TimesMean(ws: seq<Word>, q: ArticleQuery, a: P.Article, view: View)
    ensures Passes(ws + Compare(q.from.Some?, TimeFrom, Time(ValueOr(q.from, 0)))
                                  + Compare(q.to.Some?, TimeTo, Time(ValueOr(q.to, 0))), a, view) <==>
            && Passes(ws, a, view)
            && (q.from.Some? ==> q.from.value <= P.TimeOf(a)) && (q.to.Some? ==> P.TimeOf(a) <= q.to.value)
  {
    var from := Time(ValueOr(q.from, 0));
    CompareMeans(ws, q.from.Some?, TimeFrom, from, a, view);
    CompareMeans(ws + Compare(q.from.Some?, TimeFrom, from), q.to.Some?, TimeTo, Time(ValueOr(q.to, 0)), a, view);
  }

  /** The filters' words let through exactly what the query asks for. */
  lemma {:induction false} FiltersMean(q: ArticleQuery, a: P.Article, view: View)
    ensures Passes(FilterWords(q), a, view) <==> Wanted(view.dialect, q, a, view.columns(a))
  {
    var w0 := FirstFilterWords(q);
    var w2 := w0 + Equals(q.feed != "", FeedIs, Str(q.feed)) + Equals(q.cluster != "", ClusterIs, Str(q.cluster));
    var w4 := w2 + Equals(q.breaking.Some?, BreakingIs, Flag(ValueOr(q.breaking, false))) + Text1(q.digest, DigestOnly);
    FirstFiltersMean(q, a, view);
    TwoEqualsMean(w0, q.feed != "", FeedIs, Str(q.feed), q.cluster != "", ClusterIs, Str(q.cluster), a, view);
    FlagsMean(w2, q, a, view);
    TimesMean(w4, q, a, view);
  }

  /** With the search they let through what the query asks for and the search finds. */
  lemma {:induction false} SearchMeans(d: Dialect, q: ArticleQuery, term: string, a: P.Article, view: View)
    ensures Passes(FilterWords(q) + SearchWords(d, term), a, view) <==>
            Wanted(view.dialect, q, a, view.columns(a)) && (term == "" || view.finds(SearchCondition(d, term), a))
  {
    var c := SearchCondition(d, term);
    FiltersMean(q, a, view);
    assert term != "" ==> SearchWords(d, term) == [Fixed(And)] + c;
    ChunkMeans(FilterWords(q), SearchWords(d, term), term != "", c, a, view);
  }

  // ---------------------------------------------------------------------------------------
  // The whole statement
  // ---------------------------------------------------------------------------------------

  lemma {:induction false} FirstFiltersHaveNoOrder(q: ArticleQuery)
    ensures Fixed(OrderBy) !in FirstFilterWords(q)
  {
  }

  lemma {:induction false} WhereHasNoOrder(d: Dialect, q: ArticleQuery, term: string, cur: Option<Cursor>)
    ensures Fixed(OrderBy) !in FilterWords(q) + SearchWords(d, term) + CursorWords(q, cur)
  {
    FirstFiltersHaveNoOrder(q);
  }

  lemma {:induction false} IndexOfFirst(a: seq<Word>, w: Word, b: seq<Word>)
    requires w !in a
    ensures IndexOf(a + [w] + b, w) == |a|
    decreases |a|
  {
    if a != [] {
      assert (a + [w] + b)[1..] == a[1..] + [w] + b;
      IndexOfFirst(a[1..], w, b);
    }
  }

  /** A statement put together from its parts is taken apart into them. */
  lemma {:induction false} RowsOfParts(where: seq<Word>, tail: seq<Word>, s: set<P.Article>, view: View)
    requires P.Keyed(s) && Fixed(OrderBy) !in where
    ensures Rows([Fixed(SelectFromWhere)] + where + [Fixed(OrderBy)] + ([Fixed(LatestOrder)] + tail), s, view) ==
            Paged(P.Latest(Where(s, where, view)), tail)
  {
    var front, back := [Fixed(SelectFromWhere)] + where, [Fixed(LatestOrder)] + tail;
    var words := front + [Fixed(OrderBy)] + back;
    IndexOfFirst(front, Fixed(OrderBy), back);
    assert words[1..|front|] == where && words[|front| + 2..] == tail;
  }

  function LimitWords(q: ArticleQuery): seq<Word> {
    [Fixed(Limit), Given(Num(PageLimit(q.limit) + 1))]
    + (if q.offset > 0 && q.cursor == "" then [Fixed(Offset), Given(Num(q.offset))] else [])
  }

  lemma {:induction false} StatementParts(d: Dialect, q: ArticleQuery, term: string, cur: Option<Cursor>, now: int)
    requires q.sort != "top"
    ensures IntendedStatement(d, q, term, cur, now) ==
            [Fixed(SelectFromWhere)] + (FilterWords(q) + SearchWords(d, term) + CursorWords(q, cur)) + [Fixed(OrderBy)]
            + ([Fixed(LatestOrder)] + LimitWords(q))
  {
  }

  /** The articles that the query asks for and the search finds. */
  ghost function Matching(d: Dialect, q: ArticleQuery, term: string, s: set<P.Article>, view: View)
    : (r: set<P.Article>)
    ensures r <= s && (P.Keyed(s) ==> P.Keyed(r))
  {
    set a | a in s && Wanted(view.dialect, q, a, view.columns(a))
                && (term == "" || view.finds(SearchCondition(d, term), a))
  }

  lemma {:induction false} FiltersSelect(d: Dialect, q: ArticleQuery, term: string, s: set<P.Article>, view: View)
    ensures Where(s, FilterWords(q) + SearchWords(d, term), view) == Matching(d, q, term, s, view)
  {
    forall a | a in s
      ensures a in Where(s, FilterWords(q) + SearchWords(d, term), view) <==> a in Matching(d, q, term, s, view)
    {
      SearchMeans(d, q, term, a, view);
    }
  }

  lemma {:induction false} LatestStatementMeans(d: Dialect, q: ArticleQuery, term: string, cur: Option<Cursor>,
      now: int, s: set<P.Article>, view: View)
    requires P.Keyed(s) && q.sort != "top"
    ensures Rows(IntendedStatement(d, q, term, cur, now), s, view) ==
            Paged(P.Latest(P.Remaining(Matching(d, q, term, s, view), cur)), LimitWords(q))
  {
    var filters := FilterWords(q) + SearchWords(d, term);
    StatementParts(d, q, term, cur, now);
    WhereHasNoOrder(d, q, term, cur);
    RowsOfParts(filters + CursorWords(q, cur), LimitWords(q), s, view);
    CursorWordsMean(filters, q, cur, s, view);
    FiltersSelect(d, q, term, s, view);
  }

  lemma {:induction false} PagedWithoutOffset<T>(rows: seq<T>, q: ArticleQuery, n: nat)
    requires q.offset <= 0 || q.cursor != ""
    requires n == if q.limit <= 0 then 30 else if q.limit > 100 then 100 else q.limit
    ensures Paged(rows, LimitWords(q)) == Some(Take(rows, n + 1))
  {
    assert LimitWords(q) == [Fixed(Limit), Given(Num(PageLimit(q.limit) + 1))];
  }

  lemma {:induction false} PagedWithOffset<T>(rows: seq<T>, q: ArticleQuery)
    requires q.offset > 0 && q.cursor == ""
    ensures Paged(rows, LimitWords(q)) == Some(Take(Drop(rows, q.offset), PageLimit(q.limit) + 1))
  {
    assert LimitWords(q)[2..] == [Fixed(Offset), Given(Num(q.offset))];
  }

  lemma {:induction false} PageOfSet(m: set<P.Article>, cur: Option<Cursor>, q: ArticleQuery, n: nat)
    requires P.Keyed(m) && (q.offset <= 0 || q.cursor != "")
    requires n == if q.limit <= 0 then 30 else if q.limit > 100 then 100 else q.limit
    ensures Paged(P.Latest(P.Remaining(m, cur)), LimitWords(q)) == Some(P.Fetched(m, cur, n))
  {
    PagedWithoutOffset(P.Latest(P.Remaining(m, cur)), q, n);
  }

  /**
   * In every order but "top", the statement's rows are the ones pagination fetches: one more than a page
   * of the newest articles under the cursor among those the query asks for and the search finds.
   */
  lemma {:induction false} StatementFetchesPage(d: Dialect, q: ArticleQuery, term: string, cur: Option<Cursor>,
      now: int, s: set<P.Article>, view: View)
    requires P.Keyed(s) && q.sort != "top" && (q.offset <= 0 || q.cursor != "")
    ensures var n := if q.limit <= 0 then 30 else if q.limit > 100 then 100 else q.limit;
      Rows(IntendedStatement(d, q, term, cur, now), s, view) ==
      Some(P.Fetched(Matching(d, q, term, s, view), cur, n))
  {
    LatestStatementMeans(d, q, term, cur, now, s, view);
    PageOfSet(Matching(d, q, term, s, view), cur, q, PageLimit(q.limit));
  }

  /** With an offset and no cursor they are those after the first `offset` matches. */
  lemma {:induction false} StatementSkipsOffset(d: Dialect, q: ArticleQuery, term: string, now: int,
      s: set<P.Article>, view: View)
    requires P.Keyed(s) && q.sort != "top" && q.offset > 0 && q.cursor == ""
    ensures Rows(IntendedStatement(d, q, term, None, now), s, view) ==
            Some(Take(Drop(P.Latest(Matching(d, q, term, s, view)), q.offset), PageLimit(q.limit) + 1))
  {
    LatestStatementMeans(d, q, term, None, now, s, view);
    PagedWithOffset(P.Latest(P.Remaining(Matching(d, q, term, s, view), None)), q);
    assert P.Remaining(Matching(d, q, term, s, view), None) == Matching(d, q, term, s, view);
  }

  // ---------------------------------------------------------------------------------------
  // From the request to the page
  // ---------------------------------------------------------------------------------------

  ghost predicate AllEncodable(rows: seq<P.Article>) {
    forall a | a in rows :: Encodable(P.CursorOf(a))
  }

  /** The extra row is cut off, and gives way to the token of the row before it. */
  ghost function Cut(rows: seq<P.Article>, limit: nat): P.Page
    requires limit >= 1 && AllEncodable(rows)
  {
    if |rows| > limit then P.Page(rows[..limit], Encode(P.CursorOf(rows[limit - 1]))) else P.Page(rows, "")
  }

  lemma {:induction false} CutIsPage(s: set<P.Article>, cur: Option<Cursor>, limit: nat)
    requires P.Snapshot(s) && limit >= 1
    ensures AllEncodable(P.Fetched(s, cur, limit))
    ensures Cut(P.Fetched(s, cur, limit), limit) == P.PageFrom(s, cur, limit)
  {
    var rows := P.Fetched(s, cur, limit);
    forall a | a in rows
      ensures Encodable(P.CursorOf(a))
    {
      assert a in P.Latest(P.Remaining(s, cur));
    }
  }

  /** Cutting the rows of the statement built for a token gives the page of the request with that token. */
  lemma {:induction false} StatementAnswersRequest(d: Dialect, q: ArticleQuery, now: int, s: set<P.Article>,
      view: View)
    requires P.Snapshot(s) && q.sort != "top" && (q.offset <= 0 || q.cursor != "")
    requires DecodeCursor(q.cursor).Ok?
    ensures var rows := Rows(IntendedStatement(d, q, TrimSpace(q.query), DecodeCursor(q.cursor).value, now), s, view);
      && rows.Some? && AllEncodable(rows.value)
      && P.QueryLatest(Matching(d, q, TrimSpace(q.query), s, view), q.cursor, PageLimit(q.limit)) ==
         Ok(Cut(rows.value, PageLimit(q.limit)))
  {
    var cur := DecodeCursor(q.cursor).value;
    StatementFetchesPage(d, q, TrimSpace(q.query), cur, now, s, view);
    CutIsPage(Matching(d, q, TrimSpace(q.query), s, view), cur, PageLimit(q.limit));
  }

  // ---------------------------------------------------------------------------------------
  // The freshness in the score
  // ---------------------------------------------------------------------------------------

  /** WHEN time >= t1 THEN 100 … WHEN time >= t5 THEN 20 ELSE 5 */
  function Freshness(words: seq<Word>, time: int): Option<int> {
    if |words| == 11 && words[0] == Fixed(ScoreIfSince) && words[2] == Fixed(Then100) && words[4] == Fixed(Then80)
       && words[6] == Fixed(Then60) && words[8] == Fixed(Then40) && words[10].Fixed? && words[10].t.ScoreRest?
       && IsTime(words[1]) && IsTime(words[3]) && IsTime(words[5]) && IsTime(words[7]) && IsTime(words[9]) then
      Some(if time >= words[1].a.t then 100
           else if time >= words[3].a.t then 80
           else if time >= words[5].a.t then 60
           else if time >= words[7].a.t then 40
           else if time >= words[9].a.t then 20
           else 5)
    else None
  }

  predicate IsTime(w: Word) {
    w.Given? && w.a.Time?
  }

  /** The score's part for freshness: a quarter of an hour, one hour, six, a day, three days. */
  lemma {:induction false} FreshnessByAge(d: Dialect, now: int, time: int)
    ensures var age := now - time;
      Freshness(ScoreWords(d, now), time) ==
      Some(if age <= 900_000_000_000 then 100
           else if age <= 3_600_000_000_000 then 80
           else if age <= 21_600_000_000_000 then 60
           else if age <= 86_400_000_000_000 then 40
           else if age <= 259_200_000_000_000 then 20
           else 5)
  {
  }

  // ---------------------------------------------------------------------------------------
  // The orderings
  // ---------------------------------------------------------------------------------------

  /** What rows are sorted by, each key breaking the ties of those before it. */
  datatype OrderKey = ByRank(term: string) | ByScore(score: seq<Word>) | NewestFirst

  predicate IsRank(words: seq<Word>) {
    && |words| >= 5 && words[0] == Fixed(RankOf) && words[1].Given? && words[1].a.Str?
    && words[2] == Fixed(Close(RankOf)) && words[3] == Fixed(Descending) && words[4] == Fixed(Comma)
  }

  predicate IsScore(words: seq<Word>) {
    && |words| >= 13 && Freshness(words[..11], 0).Some?
    && words[11] == Fixed(Descending) && words[12] == Fixed(Comma)
  }

  function OrderKeys(words: seq<Word>): Option<seq<OrderKey>> {
    if words == [Fixed(LatestOrder)] then Some([NewestFirst])
    else if IsRank(words) then
      var rest := OrderKeys(words[5..]);
      if rest.Some? then Some([ByRank(words[1].a.s)] + rest.value) else None
    else if IsScore(words) then
      var rest := OrderKeys(words[13..]);
      if rest.Some? then Some([ByScore(words[..11])] + rest.value) else None
    else None
  }

  lemma {:induction false} ScoreThenNewest(d: Dialect, now: int)
    ensures OrderKeys(ScoreWords(d, now) + [Fixed(Descending), Fixed(Comma), Fixed(LatestOrder)]) ==
            Some([ByScore(ScoreWords(d, now)), NewestFirst])
  {
    var score := ScoreWords(d, now);
    var words := score + [Fixed(Descending), Fixed(Comma), Fixed(LatestOrder)];
    assert words[..11] == score && words[13..] == [Fixed(LatestOrder)] && words[0] == Fixed(ScoreIfSince);
    FreshnessByAge(d, now, 0);
    assert IsScore(words) && !IsRank(words);
    assert OrderKeys(words[13..]) == Some([NewestFirst]);
    assert [ByScore(score)] + [NewestFirst] == [ByScore(score), NewestFirst];
  }

  lemma {:induction false} RankThen(term: string, last: seq<Word>, keys: seq<OrderKey>)
    requires OrderKeys(last) == Some(keys)
    ensures OrderKeys(RankWords(Postgres, term) + last) ==
            Some((if term != "" then [ByRank(term)] else []) + keys)
  {
    if term == "" {
      assert RankWords(Postgres, term) + last == last && [] + keys == keys;
    } else {
      var words := RankWords(Postgres, term) + last;
      assert words[5..] == last && IsRank(words) && words[0] == Fixed(RankOf);
    }
  }

  lemma {:induction false} TopOrderParts(d: Dialect, term: string, now: int, last: seq<Word>)
    requires last == ScoreWords(d, now) + [Fixed(Descending), Fixed(Comma), Fixed(LatestOrder)]
    ensures OrderWords(d, "top", term, now) == RankWords(d, term) + last
    ensures d == SQLite ==> OrderWords(d, "top", term, now) == last
  {
  }

  /** The sort key of the score. */
  function ScoreKey(d: Dialect, now: int): OrderKey {
    ByScore(ScoreWords(d, now))
  }

  /** The top sort goes by the search's rank, where the database has one, then by score, then newest first. */
  lemma {:induction false} OrderingsMean(d: Dialect, sort: string, term: string, now: int)
    ensures sort == "top" && d == Postgres && term != "" ==>
              OrderKeys(OrderWords(d, sort, term, now)) == Some([ByRank(term), ScoreKey(d, now), NewestFirst])
    ensures sort == "top" && (d == SQLite || term == "") ==>
              OrderKeys(OrderWords(d, sort, term, now)) == Some([ScoreKey(d, now), NewestFirst])
    ensures sort != "top" ==> OrderKeys(OrderWords(d, sort, term, now)) == Some([NewestFirst])
  {
    if sort == "top" {
      var last := ScoreWords(d, now) + [Fixed(Descending), Fixed(Comma), Fixed(LatestOrder)];
      var keys := [ScoreKey(d, now), NewestFirst];
      ScoreThenNewest(d, now);
      TopOrderParts(d, term, now, last);
      if d == Postgres {
        RankThen(term, last, keys);
        assert [ByRank(term)] + keys == [ByRank(term), ScoreKey(d, now), NewestFirst];
        assert [] + keys == keys;
      }
    }
  }
}
