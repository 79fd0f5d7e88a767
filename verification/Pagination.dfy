/**
 * Keyset pagination in "latest" order (store/articles_query.go): each request sees its own
 * snapshot of the matching articles, and continues below the last article of the page before.
 */
module Pagination {
  import opened Seqs
  import opened Wrappers
  import opened CursorCodec
  import opened Text

  datatype Article = Article(id: string, published: Option<int>, discovered: int)

  /** COALESCE(published_at, discovered_at). */
  function TimeOf(a: Article): int {
    if a.published.Some? then a.published.value else a.discovered
  }

  // ---------------------------------------------------------------------------------------
  // The order: newest first, then the larger id
  // ---------------------------------------------------------------------------------------

  /** Ids compare byte by byte. */
  predicate IdLess(a: string, b: string) {
    b != "" && (a == "" || a[0] < b[0] || (a[0] == b[0] && IdLess(a[1..], b[1..])))
  }

  lemma {:induction false} IdLessTotal(a: string, b: string)
    ensures a == b || IdLess(a, b) || IdLess(b, a)
    ensures !(IdLess(a, b) && IdLess(b, a)) && !IdLess(a, a)
  {
    if a != "" && b != "" {
      IdLessTotal(a[1..], b[1..]);
      assert a == [a[0]] + a[1..] && b == [b[0]] + b[1..];
    }
    if a != "" {
      IdLessTotal(a[1..], a[1..]);
    }
  }

  lemma {:induction false} IdLessTransitive(a: string, b: string, c: string)
    requires IdLess(a, b) && IdLess(b, c)
    ensures IdLess(a, c)
  {
    if a != "" && a[0] == b[0] && b[0] == c[0] {
      IdLessTransitive(a[1..], b[1..], c[1..]);
    }
  }

  /** a sorts before (above) the position. */
  predicate Above(a: Article, c: Cursor) {
    TimeOf(a) > c.nanos || (TimeOf(a) == c.nanos && IdLess(c.id, a.id))
  }

  /** The cursor condition of the query; no cursor lets everything through. */
  predicate Under(a: Article, cur: Option<Cursor>) {
    cur.Some? ==> TimeOf(a) < cur.value.nanos || (TimeOf(a) == cur.value.nanos && IdLess(a.id, cur.value.id))
  }

  function CursorOf(a: Article): Cursor {
    Cursor(TimeOf(a), a.id)
  }

  predicate Newer(a: Article, b: Article) {
    Above(a, CursorOf(b))
  }

  /** Newest first by publication, or by discovery where that is unknown; then the larger id. */
  lemma NewerMeans(a: Article, b: Article)
    ensures var ta := if a.published.Some? then a.published.value else a.discovered;
      var tb := if b.published.Some? then b.published.value else b.discovered;
      Newer(a, b) <==> ta > tb || (ta == tb && IdLess(b.id, a.id))
  {
  }

  /** Ids are compared as texts are: at their first difference, and a beginning comes before the whole. */
  lemma {:induction false} IdLessMeans(p: string, x: char, y: char, s: string, t: string)
    ensures IdLess(p, p + [x])
    ensures IdLess(p + [x] + s, p + [y] + t) <==> x < y || (x == y && IdLess(s, t))
  {
    if p == "" {
      assert ([x] + s)[1..] == s && ([y] + t)[1..] == t;
      assert "" + [x] + s == [x] + s && "" + [y] + t == [y] + t;
    } else {
      var q := p[1..];
      IdLessMeans(q, x, y, s, t);
      assert (p + [x])[1..] == q + [x];
      assert (p + [x] + s)[1..] == q + [x] + s && (p + [y] + t)[1..] == q + [y] + t;
    }
  }

  lemma NewerTotal(a: Article, b: Article)
    ensures a.id != b.id ==> Newer(a, b) || Newer(b, a)
    ensures Newer(a, b) ==> !Newer(b, a) && a != b
    ensures Newer(a, b) <==> Under(b, Some(CursorOf(a)))
  {
    IdLessTotal(a.id, b.id);
  }

  lemma NewerTransitive(a: Article, b: Article, c: Article)
    requires Newer(a, b) && Newer(b, c)
    ensures Newer(a, c)
  {
    if TimeOf(a) == TimeOf(b) == TimeOf(c) {
      IdLessTransitive(c.id, b.id, a.id);
    }
  }

  /** No two rows share an id. */
  ghost predicate Keyed(s: set<Article>) {
    forall a, b | a in s && b in s :: a.id == b.id ==> a == b
  }

  lemma {:induction false} NewestExists(s: set<Article>) returns (m: Article)
    requires s != {} && Keyed(s)
    ensures m in s && forall x | x in s && x != m :: Newer(m, x)
  {
    m :| m in s;
    if s != {m} {
      var rest := s - {m};
      assert rest != {};
      var r := NewestExists(rest);
      NewerTotal(m, r);
      if Newer(r, m) {
        m := r;
      } else {
        forall x | x in s && x != m
          ensures Newer(m, x)
        {
          if x != r {
            NewerTransitive(m, r, x);
          }
        }
      }
    }
  }

  ghost predicate Descending(l: seq<Article>) {
    forall i, j | 0 <= i < j < |l| :: Newer(l[i], l[j])
  }

  ghost predicate Lists(l: seq<Article>, s: set<Article>) {
    Descending(l) && (forall a :: a in l <==> a in s)
  }

  /** ORDER BY time DESC, id DESC. */
  ghost function Latest(s: set<Article>): (l: seq<Article>)
    requires Keyed(s)
    ensures Lists(l, s) && |l| == |s|
  {
    if s == {} then []
    else
      NewestUnique(s);
      var m :| m in s && forall x | x in s && x != m :: Newer(m, x);
      [m] + Latest(s - {m})
  }

  lemma NewestUnique(s: set<Article>)
    requires s != {} && Keyed(s)
    ensures exists m :: m in s && forall x | x in s && x != m :: Newer(m, x)
  {
    var m := NewestExists(s);
  }

  /** A set has one listing. */
  lemma {:induction false} ListingUnique(l: seq<Article>, k: seq<Article>, s: set<Article>)
    requires Lists(l, s) && Lists(k, s)
    ensures l == k
  {
    assert k != [] ==> k[0] in k;
    if l == [] {
      assert k == [];
    } else {
      assert l[0] in k && k[0] in l;
      NewerTotal(l[0], k[0]);
      assert l[0] == k[0];
      TailLists(l, s);
      TailLists(k, s);
      ListingUnique(l[1..], k[1..], s - {l[0]});
    }
  }

  lemma TailLists(l: seq<Article>, s: set<Article>)
    requires Lists(l, s) && l != []
    ensures Lists(l[1..], s - {l[0]})
  {
    forall a
      ensures a in l[1..] <==> a in s - {l[0]}
    {
      if a in l[1..] {
        NewerTotal(l[0], a);
        assert a in l;
      }
      if a in s && a != l[0] {
        assert a in l;
      }
    }
  }

  // ---------------------------------------------------------------------------------------
  // One request
  // ---------------------------------------------------------------------------------------

  ghost predicate Snapshot(s: set<Article>) {
    Keyed(s) && forall a | a in s :: Encodable(CursorOf(a))
  }

  ghost function Remaining(s: set<Article>, cur: Option<Cursor>): (r: set<Article>)
    ensures r <= s && (Keyed(s) ==> Keyed(r))
  {
    set a | a in s && Under(a, cur)
  }

  /** The rows the database returns: one more than a page holds. */
  ghost function Fetched(s: set<Article>, cur: Option<Cursor>, limit: nat): seq<Article>
    requires Keyed(s)
  {
    Take(Latest(Remaining(s, cur)), limit + 1)
  }

  ghost function PageAt(s: set<Article>, cur: Option<Cursor>, limit: nat): seq<Article>
    requires Keyed(s)
  {
    Take(Fetched(s, cur, limit), limit)
  }

  /** A full extra row means there is a next page. */
  ghost predicate HasNext(s: set<Article>, cur: Option<Cursor>, limit: nat)
    requires Keyed(s)
  {
    |Fetched(s, cur, limit)| > limit
  }

  datatype Page = Page(articles: seq<Article>, next: string)

  /** The page below a position, with the token of its last article when more follows. */
  ghost function PageFrom(s: set<Article>, cur: Option<Cursor>, limit: nat): Page
    requires Snapshot(s) && limit >= 1
  {
    var page := PageAt(s, cur, limit);
    if HasNext(s, cur, limit) then
      assert page[limit - 1] in Latest(Remaining(s, cur));
      Page(page, Encode(CursorOf(page[limit - 1])))
    else Page(page, "")
  }

  /** The request as the API sees it: an opaque token in, a page and the next token out. */
  ghost function QueryLatest(s: set<Article>, token: string, limit: nat): Result<Page, CursorError>
    requires Snapshot(s) && limit >= 1
  {
    match DecodeCursor(token)
    case Err(e) => Err(e)
    case Ok(cur) => Ok(PageFrom(s, cur, limit))
  }

  // ---------------------------------------------------------------------------------------
  // Following positions while the store changes
  // ---------------------------------------------------------------------------------------

  /** One request of a walk: what it saw, where it started, what it returned, whether more follows. */
  datatype Leg = Leg(snap: set<Article>, cur: Option<Cursor>, page: seq<Article>, more: bool)

  /** A page holds matches below the position, newest first, and leaves only later ones out. */
  ghost predicate Good(g: Leg, limit: nat) {
    && Descending(g.page)
    && (forall a | a in g.page :: a in g.snap && Under(a, g.cur))
    && (!g.more ==> forall a | a in g.snap && Under(a, g.cur) :: a in g.page)
    && (g.more ==> |g.page| == limit > 0 && LeavesLater(g))
  }

  ghost predicate LeavesLater(g: Leg)
    requires g.page != []
  {
    && (forall a | a in g.snap && Under(a, g.cur) && a !in g.page :: Newer(g.page[|g.page| - 1], a))
    && (exists a :: a in g.snap && Under(a, g.cur) && a !in g.page)
  }

  lemma PageIsGood(s: set<Article>, cur: Option<Cursor>, limit: nat)
    requires Keyed(s) && limit >= 1
    ensures Good(Leg(s, cur, PageAt(s, cur, limit), HasNext(s, cur, limit)), limit)
  {
    var all := Latest(Remaining(s, cur));
    PageOfListing(all, Remaining(s, cur), Leg(s, cur, PageAt(s, cur, limit), HasNext(s, cur, limit)), limit);
  }

  lemma PageOfListing(all: seq<Article>, left: set<Article>, g: Leg, limit: nat)
    requires limit >= 1 && Lists(all, left) && left == Remaining(g.snap, g.cur)
    requires g.page == Take(all, limit) && (g.more <==> |all| > limit)
    ensures Good(g, limit)
  {
    var page := g.page;
    forall a | a in page
      ensures a in g.snap && Under(a, g.cur)
    {
      assert a in all;
    }
    if g.more {
      forall a | a in g.snap && Under(a, g.cur) && a !in page
        ensures Newer(page[limit - 1], a)
      {
        assert a in left && a in all;
        var i :| 0 <= i < |all| && all[i] == a;
        assert i >= limit;
      }
      var extra := all[limit];
      assert extra in left;
      if extra in page {
        var i :| 0 <= i < limit && page[i] == extra;
        NewerTotal(all[i], all[limit]);
        assert false;
      }
    }
  }

  /** Request k starts from the last article of page k - 1, which had a successor. */
  ghost predicate Linked(g: Leg, next: Leg) {
    g.more && g.page != [] && next.cur == Some(CursorOf(g.page[|g.page| - 1]))
  }

  ghost predicate Follows(legs: seq<Leg>, limit: nat) {
    && limit >= 1
    && (forall k | 0 <= k < |legs| :: Good(legs[k], limit))
    && (|legs| > 0 ==> legs[0].cur == None)
    && (forall j, k | 0 <= j < |legs| && 0 <= k < |legs| && k == j + 1 :: Linked(legs[j], legs[k]))
  }

  /** Everything returned, in order. */
  ghost function Returned(legs: seq<Leg>): seq<Article> {
    if legs == [] then [] else Returned(legs[..|legs| - 1]) + legs[|legs| - 1].page
  }

  lemma FollowsPrefix(legs: seq<Leg>, limit: nat)
    requires Follows(legs, limit) && legs != []
    ensures Follows(legs[..|legs| - 1], limit)
    ensures Good(legs[|legs| - 1], limit)
    ensures |legs| == 1 ==> legs[|legs| - 1].cur == None
    ensures |legs| > 1 ==> Linked(legs[|legs| - 2], legs[|legs| - 1])
  {
  }

  lemma AppendDescends(a: seq<Article>, b: seq<Article>)
    requires Descending(a) && Descending(b)
    requires forall x, y | x in a && y in b :: Newer(x, y)
    ensures Descending(a + b)
  {
  }

  /** In a descending list everything is at or above the last element. */
  lemma AtOrAboveLast(l: seq<Article>, a: Article)
    requires Descending(l) && a in l
    ensures a == l[|l| - 1] || Newer(a, l[|l| - 1])
  {
    var i :| 0 <= i < |l| && l[i] == a;
  }

  /** What is under a position comes after everything at or above it. */
  lemma AboveUnder(a: Article, last: Article, b: Article)
    requires a == last || Newer(a, last)
    requires Under(b, Some(CursorOf(last)))
    ensures Newer(a, b)
  {
    NewerTotal(last, b);
    if a != last {
      NewerTransitive(a, last, b);
    }
  }

  /** The returned list ends with the last article of the last page that had a successor. */
  lemma ReturnedEnds(legs: seq<Leg>)
    requires legs != [] && legs[|legs| - 1].page != []
    ensures var r, page := Returned(legs), legs[|legs| - 1].page;
            r != [] && r[|r| - 1] == page[|page| - 1]
  {
  }

  lemma {:induction false} LegsDescend(legs: seq<Leg>, limit: nat)
    requires Follows(legs, limit)
    ensures Descending(Returned(legs))
  {
    if legs != [] {
      var n := |legs|;
      FollowsPrefix(legs, limit);
      LegsDescend(legs[..n - 1], limit);
      var before, page := Returned(legs[..n - 1]), legs[n - 1].page;
      forall a, b | a in before && b in page
        ensures Newer(a, b)
      {
        assert n > 1;
        var last := legs[n - 2].page[|legs[n - 2].page| - 1];
        assert legs[..n - 1][|legs[..n - 1]| - 1] == legs[n - 2];
        ReturnedEnds(legs[..n - 1]);
        AtOrAboveLast(before, a);
        AboveUnder(a, last, b);
      }
      AppendDescends(before, page);
    }
  }

  /** The walk has not come to the article yet. */
  ghost predicate Ahead(g: Leg, a: Article) {
    g.more && g.page != [] && Newer(g.page[|g.page| - 1], a)
  }

  /** An article under the position of a request is on its page or ahead of it. */
  lemma OnPageOrAhead(g: Leg, limit: nat, a: Article)
    requires Good(g, limit) && a in g.snap && Under(a, g.cur)
    ensures a in g.page || Ahead(g, a)
  {
  }

  /** What is ahead of one request is under the position of the next. */
  lemma AheadIsUnder(g: Leg, next: Leg, a: Article)
    requires Linked(g, next) && Ahead(g, a)
    ensures Under(a, next.cur)
  {
    NewerTotal(g.page[|g.page| - 1], a);
  }

  /** An article that always matches is returned, or lies after the last page, which has a successor. */
  lemma {:induction false} ReturnedOrAhead(legs: seq<Leg>, limit: nat, a: Article)
    requires Follows(legs, limit) && legs != []
    requires forall k | 0 <= k < |legs| :: a in legs[k].snap
    ensures a in Returned(legs) || Ahead(legs[|legs| - 1], a)
  {
    var n := |legs|;
    var rest, g := legs[..n - 1], legs[n - 1];
    if n == 1 {
      OnPageOrAhead(g, limit, a);
    } else {
      FollowsPrefix(legs, limit);
      ReturnedOrAhead(rest, limit, a);
      if a !in Returned(rest) {
        assert rest[n - 2] == legs[n - 2] && Linked(legs[n - 2], g);
        AheadIsUnder(legs[n - 2], g, a);
        OnPageOrAhead(g, limit, a);
      }
    }
  }

  // ---------------------------------------------------------------------------------------
  // The walk with tokens
  // ---------------------------------------------------------------------------------------

  function TokenFor(pages: seq<Page>, k: nat): string
    requires k < |pages|
  {
    if k == 0 then "" else pages[k - 1].next
  }

  /** Page k answers the token of page k - 1 on snapshot k; the client goes on only after a token. */
  ghost predicate Walk(snaps: seq<set<Article>>, pages: seq<Page>, limit: nat) {
    && limit >= 1 && |snaps| == |pages|
    && (forall k | 0 <= k < |pages| :: Snapshot(snaps[k]))
    && (forall k | 0 <= k < |pages| - 1 :: pages[k].next != "")
    && (forall k | 0 <= k < |pages| :: Answers(snaps, pages, limit, k))
  }

  /** Page k is the answer to its token on its snapshot. */
  ghost predicate Answers(snaps: seq<set<Article>>, pages: seq<Page>, limit: nat, k: nat)
    requires limit >= 1 && |snaps| == |pages| && k < |pages| && Snapshot(snaps[k])
  {
    QueryLatest(snaps[k], TokenFor(pages, k), limit) == Ok(pages[k])
  }

  ghost function PositionAfter(p: Page): Option<Cursor> {
    if p.articles == [] then None else Some(CursorOf(p.articles[|p.articles| - 1]))
  }

  /** The legs behind the tokens. */
  ghost function Legs(snaps: seq<set<Article>>, pages: seq<Page>): (legs: seq<Leg>)
    requires |snaps| == |pages|
    ensures |legs| == |pages|
    ensures forall k | 0 <= k < |pages| ::
              legs[k] == Leg(snaps[k], if k == 0 then None else PositionAfter(pages[k - 1]),
                             pages[k].articles, pages[k].next != "")
  {
    seq(|pages|, k requires 0 <= k < |pages| =>
      Leg(snaps[k], if k == 0 then None else PositionAfter(pages[k - 1]), pages[k].articles, pages[k].next != ""))
  }

  lemma TokenDecodes(c: Cursor)
    requires Encodable(c)
    ensures Encode(c) != "" && DecodeCursor(Encode(c)) == Ok(Some(c))
  {
    CursorRoundTrip(c);
    TokenNotBlank(c);
  }

  lemma PageTokens(s: set<Article>, cur: Option<Cursor>, limit: nat, page: Page)
    requires Snapshot(s) && limit >= 1 && page == PageFrom(s, cur, limit)
    ensures Good(Leg(s, cur, page.articles, page.next != ""), limit)
    ensures page.next != "" ==> DecodeCursor(page.next) == Ok(PositionAfter(page))
  {
    PageIsGood(s, cur, limit);
    if HasNext(s, cur, limit) {
      var last := PageAt(s, cur, limit)[limit - 1];
      assert last in Latest(Remaining(s, cur));
      TokenDecodes(CursorOf(last));
    }
  }

  /** A token carries exactly the position of the last article of its page. */
  lemma TokenIsPosition(s: set<Article>, cur: Option<Cursor>, token: string, limit: nat, page: Page)
    requires Snapshot(s) && limit >= 1 && DecodeCursor(token) == Ok(cur)
    requires QueryLatest(s, token, limit) == Ok(page)
    ensures Good(Leg(s, cur, page.articles, page.next != ""), limit)
    ensures page.next != "" ==> DecodeCursor(page.next) == Ok(PositionAfter(page))
  {
    PageTokens(s, cur, limit, page);
  }

  lemma TokenStep(snaps: seq<set<Article>>, pages: seq<Page>, limit: nat, k: nat, cur: Option<Cursor>)
    requires Walk(snaps, pages, limit) && k < |pages| && DecodeCursor(TokenFor(pages, k)) == Ok(cur)
    ensures Good(Leg(snaps[k], cur, pages[k].articles, pages[k].next != ""), limit)
    ensures k + 1 < |pages| ==> DecodeCursor(TokenFor(pages, k + 1)) == Ok(PositionAfter(pages[k]))
  {
    assert Answers(snaps, pages, limit, k);
    assert Snapshot(snaps[k]);
    TokenIsPosition(snaps[k], cur, TokenFor(pages, k), limit, pages[k]);
    assert k + 1 < |pages| ==> pages[k].next != "";
  }

  lemma {:induction false} TokensDecode(snaps: seq<set<Article>>, pages: seq<Page>, limit: nat, k: nat)
    requires Walk(snaps, pages, limit) && k < |pages|
    ensures DecodeCursor(TokenFor(pages, k)) == Ok(if k == 0 then None else PositionAfter(pages[k - 1]))
  {
    if k == 0 {
      FirstTokenDecodes();
    } else {
      TokensDecode(snaps, pages, limit, k - 1);
      TokenStep(snaps, pages, limit, k - 1, if k == 1 then None else PositionAfter(pages[k - 2]));
    }
  }

  lemma FirstTokenDecodes()
    ensures DecodeCursor("") == Ok(None)
  {
  }

  /** Walking with tokens is following positions. */
  lemma WalkFollows(snaps: seq<set<Article>>, pages: seq<Page>, limit: nat)
    requires Walk(snaps, pages, limit)
    ensures Follows(Legs(snaps, pages), limit)
    ensures Returned(Legs(snaps, pages)) == Concatenated(pages)
  {
    var legs := Legs(snaps, pages);
    forall k | 0 <= k < |legs|
      ensures Good(legs[k], limit)
    {
      TokensDecode(snaps, pages, limit, k);
      TokenStep(snaps, pages, limit, k, legs[k].cur);
    }
    forall j, k | 0 <= j < |legs| && 0 <= k < |legs| && k == j + 1
      ensures Linked(legs[j], legs[k])
    {
      assert pages[j].next != "" && Good(legs[j], limit);
    }
    LegsConcatenate(snaps, pages);
  }

  /** All articles of the pages, in order. */
  ghost function Concatenated(pages: seq<Page>): seq<Article> {
    if pages == [] then [] else Concatenated(pages[..|pages| - 1]) + pages[|pages| - 1].articles
  }

  lemma {:induction false} LegsConcatenate(snaps: seq<set<Article>>, pages: seq<Page>)
    requires |snaps| == |pages|
    ensures Returned(Legs(snaps, pages)) == Concatenated(pages)
  {
    if pages != [] {
      var n := |pages| - 1;
      LegsConcatenate(snaps[..n], pages[..n]);
      assert Legs(snaps, pages)[..n] == Legs(snaps[..n], pages[..n]);
    }
  }

  /**
   * However the store changes between requests, the pages together are strictly descending by
   * (time, id), so nothing is ever repeated.
   */
  lemma WalkDescends(snaps: seq<set<Article>>, pages: seq<Page>, limit: nat)
    requires Walk(snaps, pages, limit)
    ensures Descending(Concatenated(pages))
    ensures var r := Concatenated(pages); forall i, j | 0 <= i < j < |r| :: CursorOf(r[i]) != CursorOf(r[j])
  {
    WalkFollows(snaps, pages, limit);
    LegsDescend(Legs(snaps, pages), limit);
    DescendingDistinct(Concatenated(pages));
  }

  lemma DescendingDistinct(r: seq<Article>)
    requires Descending(r)
    ensures forall i, j | 0 <= i < j < |r| :: CursorOf(r[i]) != CursorOf(r[j])
  {
    forall i, j | 0 <= i < j < |r|
      ensures CursorOf(r[i]) != CursorOf(r[j])
    {
      IdLessTotal(r[i].id, r[j].id);
      assert Newer(r[i], r[j]);
    }
  }

  /** The same of the legs: not passed by, so returned, and once. */
  lemma LegsComplete(legs: seq<Leg>, limit: nat, a: Article)
    requires Follows(legs, limit) && legs != []
    requires forall k | 0 <= k < |legs| :: a in legs[k].snap
    requires
      var g := legs[|legs| - 1];
      !g.more || (g.page != [] && !Newer(g.page[|g.page| - 1], a))
    ensures multiset(Returned(legs))[a] == 1
  {
    ReturnedOrAhead(legs, limit, a);
    LegsDescend(legs, limit);
    DescendingDistinct(Returned(legs));
    OnceInDistinct(Returned(legs), a);
  }

  /** The legs of a walk, with what the results need of them. */
  lemma WalkLegs(snaps: seq<set<Article>>, pages: seq<Page>, limit: nat) returns (legs: seq<Leg>)
    requires Walk(snaps, pages, limit)
    ensures Follows(legs, limit) && Returned(legs) == Concatenated(pages) && |legs| == |pages|
    ensures forall k | 0 <= k < |legs| ::
              legs[k].snap == snaps[k] && legs[k].page == pages[k].articles && legs[k].more == (pages[k].next != "")
  {
    WalkFollows(snaps, pages, limit);
    legs := Legs(snaps, pages);
  }

  /** The same of the pages behind the legs. */
  lemma PagesComplete(snaps: seq<set<Article>>, pages: seq<Page>, legs: seq<Leg>, limit: nat, a: Article)
    requires Follows(legs, limit) && Returned(legs) == Concatenated(pages) && |legs| == |pages| == |snaps| > 0
    requires forall k | 0 <= k < |legs| ::
               legs[k].snap == snaps[k] && legs[k].page == pages[k].articles && legs[k].more == (pages[k].next != "")
    requires forall k | 0 <= k < |pages| :: a in snaps[k]
    requires
      var page := pages[|pages| - 1];
      page.next == "" || (page.articles != [] && !Newer(page.articles[|page.articles| - 1], a))
    ensures multiset(Concatenated(pages))[a] == 1
  {
    LegsComplete(legs, limit, a);
  }

  /**
   * An article that matches at every request, and is not skipped by stopping early (the walk
   * ended, or went at least as far as the article), is returned exactly once.
   */
  lemma WalkComplete(snaps: seq<set<Article>>, pages: seq<Page>, limit: nat, a: Article)
    requires Walk(snaps, pages, limit) && |pages| > 0
    requires forall k | 0 <= k < |pages| :: a in snaps[k]
    requires
      var page := pages[|pages| - 1];
      page.next == "" || (page.articles != [] && !Newer(page.articles[|page.articles| - 1], a))
    ensures multiset(Concatenated(pages))[a] == 1
  {
    var legs := WalkLegs(snaps, pages, limit);
    PagesComplete(snaps, pages, legs, limit, a);
  }

  lemma OnceInDistinct(s: seq<Article>, x: Article)
    requires x in s && forall i, j | 0 <= i < j < |s| :: CursorOf(s[i]) != CursorOf(s[j])
    ensures multiset(s)[x] == 1
  {
    var i :| 0 <= i < |s| && s[i] == x;
    assert s == s[..i] + [x] + s[i + 1..];
    assert multiset(s) == multiset(s[..i]) + multiset{x} + multiset(s[i + 1..]);
  }

  // ---------------------------------------------------------------------------------------
  // On a store that does not change
  // ---------------------------------------------------------------------------------------

  ghost predicate Unchanging(snaps: seq<set<Article>>, s: set<Article>) {
    forall k | 0 <= k < |snaps| :: snaps[k] == s
  }

  lemma {:induction false} ReturnedMatch(legs: seq<Leg>, s: set<Article>, limit: nat)
    requires Follows(legs, limit) && forall k | 0 <= k < |legs| :: legs[k].snap == s
    ensures forall a | a in Returned(legs) :: a in s
    ensures (forall k | 0 <= k < |legs| :: legs[k].more) ==> |Returned(legs)| == |legs| * limit
  {
    if legs != [] {
      var n := |legs| - 1;
      FollowsPrefix(legs, limit);
      ReturnedMatch(legs[..n], s, limit);
      assert (n + 1) * limit == n * limit + limit;
    }
  }

  /** A finished walk returns the whole sorted match list, once. */
  lemma StaticWalkListsAll(s: set<Article>, snaps: seq<set<Article>>, pages: seq<Page>, limit: nat)
    requires Unchanging(snaps, s) && Walk(snaps, pages, limit)
    requires |pages| > 0 && pages[|pages| - 1].next == ""
    ensures Keyed(s) && Concatenated(pages) == Latest(s)
  {
    assert Snapshot(snaps[0]);
    var r := Concatenated(pages);
    WalkFollows(snaps, pages, limit);
    LegsDescend(Legs(snaps, pages), limit);
    ReturnedMatch(Legs(snaps, pages), s, limit);
    forall a | a in s
      ensures a in r
    {
      WalkComplete(snaps, pages, limit, a);
      assert a in multiset(r);
    }
    ListingUnique(r, Latest(s), s);
  }

  lemma {:induction false} DistinctWithin(l: seq<Article>, s: set<Article>)
    requires (forall a | a in l :: a in s) && forall i, j | 0 <= i < j < |l| :: l[i] != l[j]
    ensures |l| <= |s|
  {
    if l != [] {
      var t := l[1..];
      forall a | a in t
        ensures a in s - {l[0]}
      {
      }
      DistinctWithin(t, s - {l[0]});
    }
  }

  /** Full pages of one set with something still to come hold fewer articles than the set. */
  lemma FullLegsLeaveRoom(legs: seq<Leg>, s: set<Article>, limit: nat)
    requires Follows(legs, limit) && legs != []
    requires forall k | 0 <= k < |legs| :: legs[k].snap == s && legs[k].more
    ensures |legs| * limit < |s|
  {
    var r := Returned(legs);
    ReturnedMatch(legs, s, limit);
    LegsDescend(legs, limit);
    DescendingDistinct(r);
    var g := legs[|legs| - 1];
    var extra :| extra in g.snap && Under(extra, g.cur) && extra !in g.page;
    ReturnedEnds(legs);
    if extra in r {
      AtOrAboveLast(r, extra);
      NewerTotal(g.page[|g.page| - 1], extra);
      assert false;
    }
    DistinctWithin(r, s - {extra});
  }

  /**
   * The walk ends: m requests leave m - 1 full pages behind and at least one match still to
   * come, so there are never more than (|s| - 1) / limit + 1 of them.
   */
  lemma StaticWalkEnds(s: set<Article>, snaps: seq<set<Article>>, pages: seq<Page>, limit: nat)
    requires Unchanging(snaps, s) && Walk(snaps, pages, limit) && |pages| > 1
    ensures (|pages| - 1) * limit < |s|
  {
    WalkFollows(snaps, pages, limit);
    var legs := Legs(snaps, pages);
    FollowsPrefix(legs, limit);
    var full := legs[..|legs| - 1];
    assert |full| == |pages| - 1;
    forall k | 0 <= k < |full|
      ensures full[k].snap == s && full[k].more
    {
      assert full[k] == legs[k] && snaps[k] == s && pages[k].next != "";
    }
    FullLegsLeaveRoom(full, s, limit);
  }
}
