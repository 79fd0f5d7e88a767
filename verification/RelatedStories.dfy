/**
 * The related-stories answer (httpapi/related.go): two bounded queries merged into what two
 * unbounded ones would give.
 */
module RelatedStories {
  import opened Wrappers
  import opened Seqs
  import opened Pagination

  const DEFAULT_LIMIT: nat := 8
  const MAX_LIMIT: nat := 20

  /** The requested limit, already read as a number; absent or not positive gives the default. */
  function EffectiveLimit(raw: Option<int>): (n: nat)
    ensures raw.None? || raw.value <= 0 ==> n == 8
    ensures raw.Some? && raw.value > 0 ==> n == if raw.value <= 20 then raw.value else 20
  {
    var n := if raw.None? || raw.value <= 0 then DEFAULT_LIMIT else if raw.value > 100 then 100 else raw.value;
    if n > MAX_LIMIT then MAX_LIMIT else n
  }

  function Except(l: seq<Article>, ids: set<string>): seq<Article> {
    Filter(l, (a: Article) => a.id !in ids)
  }

  function Ids(l: seq<Article>): set<string> {
    set a | a in l :: a.id
  }

  /** All live cluster peers newest first, then all live category peers newest first, no self, no repeats. */
  ghost function Unbounded(id: string, cluster: Option<set<Article>>, category: Option<set<Article>>): seq<Article>
    requires (cluster.Some? ==> Keyed(cluster.value)) && (category.Some? ==> Keyed(category.value))
  {
    var peers := PeersOf(id, cluster);
    peers + TopicOf(category, {id} + Ids(peers))
  }

  // ---------------------------------------------------------------------------------------
  // The database's part
  // ---------------------------------------------------------------------------------------

  method NewestOf(s: set<Article>) returns (m: Article)
    requires s != {} && Keyed(s)
    ensures m in s && forall x | x in s && x != m :: Newer(m, x)
  {
    m :| m in s;
    var rest := s - {m};
    while rest != {}
      invariant m in s && rest <= s - {m}
      invariant forall x | x in s && x !in rest && x != m :: Newer(m, x)
      decreases |rest|
    {
      var x :| x in rest;
      rest := rest - {x};
      NewerTotal(m, x);
      if Newer(x, m) {
        forall y | y in s && y !in rest && y != x
          ensures Newer(x, y)
        {
          if y != m {
            NewerTransitive(x, m, y);
          }
        }
        m := x;
      }
    }
  }

  lemma LatestHead(s: set<Article>, m: Article)
    requires Keyed(s) && m in s && forall x | x in s && x != m :: Newer(m, x)
    ensures Latest(s) == [m] + Latest(s - {m})
  {
    var l := Latest(s);
    assert m in l && l[0] in s;
    var i :| 0 <= i < |l| && l[i] == m;
    NewerTotal(m, l[0]);
    NewerTotal(l[0], m);
    if i > 0 {
      assert false;
    }
    TailLists(l, s);
    ListingUnique(l[1..], Latest(s - {m}), s - {m});
  }

  /** The rows so far, and the set of those still to be sorted. */
  ghost predicate Sorting(s: set<Article>, rows: seq<Article>, left: set<Article>) {
    Keyed(s) && left <= s && rows + Latest(left) == Latest(s)
  }

  lemma SortStep(s: set<Article>, rows: seq<Article>, left: set<Article>, m: Article)
    requires Sorting(s, rows, left) && m in left && forall x | x in left && x != m :: Newer(m, x)
    ensures Sorting(s, rows + [m], left - {m})
  {
    LatestHead(left, m);
    Regroup(rows, [m], Latest(left - {m}));
  }

  lemma SortDone(s: set<Article>, rows: seq<Article>, left: set<Article>, n: nat)
    requires Sorting(s, rows, left) && |rows| <= n && (|rows| == n || left == {})
    ensures rows == Take(Latest(s), n)
  {
    assert left == {} ==> Latest(left) == [];
    assert |rows| == n ==> (rows + Latest(left))[..n] == rows;
  }

  /** SELECT … ORDER BY time DESC, id DESC LIMIT n. */
  method SelectLatest(s: set<Article>, n: nat) returns (rows: seq<Article>)
    requires Keyed(s)
    ensures rows == Take(Latest(s), n)
  {
    rows := [];
    var left := s;
    while |rows| < n && left != {}
      invariant |rows| <= n && Sorting(s, rows, left)
      decreases n - |rows|
    {
      var m := NewestOf(left);
      SortStep(s, rows, left, m);
      rows := rows + [m];
      left := left - {m};
    }
    SortDone(s, rows, left, n);
  }

  // ---------------------------------------------------------------------------------------
  // The handler
  // ---------------------------------------------------------------------------------------

  ghost function PeersOf(id: string, cluster: Option<set<Article>>): seq<Article>
    requires cluster.Some? ==> Keyed(cluster.value)
  {
    if cluster.Some? then Except(Latest(cluster.value), {id}) else []
  }

  ghost function TopicOf(category: Option<set<Article>>, seen: set<string>): seq<Article>
    requires category.Some? ==> Keyed(category.value)
  {
    if category.Some? then Except(Latest(category.value), seen) else []
  }

  /** limit + 1 rows of the cluster hold all peers, or already enough of them. */
  lemma ClusterRowsSuffice(l: seq<Article>, id: string, limit: nat, out: seq<Article>)
    requires DistinctIds(l) && out == Except(Take(l, limit + 1), {id})
    ensures out <= Except(l, {id}) && (out == Except(l, {id}) || |out| >= limit)
  {
    BoundedIsPrefix(l, {id}, limit + 1);
  }

  lemma TakeAgrees(out: seq<Article>, x: seq<Article>, y: seq<Article>, limit: nat)
    requires x <= y && (x == y || |out| + |x| >= limit)
    ensures Take(out + x, limit) == Take(out + y, limit)
  {
  }

  /** limit + len(out) + 1 rows of the topic always hold enough unseen ones. */
  lemma TopicRowsSuffice(l: seq<Article>, seen: set<string>, out: seq<Article>, limit: nat)
    requires DistinctIds(l) && |seen| <= |out| + 1
    ensures Take(out + Except(Take(l, limit + |out| + 1), seen), limit) == Take(out + Except(l, seen), limit)
  {
    var rows := Take(l, limit + |out| + 1);
    BoundedIsPrefix(l, seen, limit + |out| + 1);
    TakeAgrees(out, Except(rows, seen), Except(l, seen), limit);
  }

  /** The same event first. */
  method ClusterStage(id: string, peers: set<Article>, limit: nat) returns (out: seq<Article>, seen: set<string>)
    requires Keyed(peers)
    ensures seen == {id} + Ids(out)
    ensures out <= PeersOf(id, Some(peers)) && (out == PeersOf(id, Some(peers)) || |out| >= limit)
  {
    var rows := SelectLatest(peers, limit + 1);
    ghost var l := Latest(peers);
    LatestHasDistinctIds(peers, limit + 1);
    out, seen := AppendUnseen(rows, {id});
    ClusterRowsSuffice(l, id, limit, out);
  }

  lemma TopicRows(topic: set<Article>, l: seq<Article>, rows: seq<Article>, seen: set<string>, out: seq<Article>,
      limit: nat)
    requires Keyed(topic) && l == Latest(topic) && rows == Take(l, limit + |out| + 1) && |seen| <= |out| + 1
    ensures DistinctIds(rows) && Take(out + Except(rows, seen), limit) == Take(out + Except(l, seen), limit)
  {
    LatestHasDistinctIds(topic, limit + |out| + 1);
    TopicRowsSuffice(l, seen, out, limit);
  }

  /** Then the topic. */
  method TopicStage(topic: set<Article>, seen: set<string>, out0: seq<Article>, limit: nat) returns (out: seq<Article>)
    requires Keyed(topic)
    requires |out0| < limit && |seen| <= |out0| + 1
    ensures out == Take(out0 + Except(Latest(topic), seen), limit)
  {
    var rows := SelectLatest(topic, limit + |out0| + 1);
    TopicRows(topic, Latest(topic), rows, seen, out0, limit);
    out := AppendUntil(rows, seen, out0, limit);
  }

  /** What the handler may stop with after the cluster, and what the topic adds to it. */
  lemma StagesMerge(out: seq<Article>, peers: seq<Article>, topic: seq<Article>, limit: nat)
    requires out <= peers && (out == peers || |out| >= limit)
    ensures |out| >= limit ==> Take(out, limit) == Take(peers + topic, limit)
    ensures |out| < limit ==> out == peers
  {
  }

  /** The articles of a query, none when it is not made. */
  function Of(s: Option<set<Article>>): set<Article> {
    if s.Some? then s.value else {}
  }

  ghost predicate HasId(s: set<Article>, id: string) {
    exists a :: a in s && a.id == id
  }

  /** No repeats, not the story itself, the cluster before the topic, and each part newest first. */
  ghost predicate WellOrdered(id: string, cluster: set<Article>, topic: set<Article>, out: seq<Article>, cut: nat)
    requires cut <= |out|
  {
    && (forall i, j | 0 <= i < j < |out| :: out[i].id != out[j].id)
    && (forall i | 0 <= i < |out| :: out[i].id != id)
    && (forall i | 0 <= i < cut :: out[i] in cluster)
    && (forall i | cut <= i < |out| :: out[i] in topic && !HasId(cluster, out[i].id))
    && (forall i, j | 0 <= i < j < cut :: Newer(out[i], out[j]))
    && (forall i, j | cut <= i < j < |out| :: Newer(out[i], out[j]))
  }

  /** Nothing is left out but for want of room, and then only what is older; the topic waits for the cluster. */
  ghost predicate NothingMissing(id: string, cluster: set<Article>, topic: set<Article>, limit: nat, out: seq<Article>,
      cut: nat)
    requires cut <= |out|
  {
    && (forall a | a in cluster && a.id != id && a !in out ::
          cut == |out| == limit && forall i | 0 <= i < cut :: Newer(out[i], a))
    && (forall a | a in topic && a.id != id && !HasId(cluster, a.id) && a !in out ::
          |out| == limit && forall i | cut <= i < |out| :: Newer(out[i], a))
  }

  ghost predicate GoodAnswer(id: string, cluster: set<Article>, topic: set<Article>, limit: nat, out: seq<Article>,
      cut: nat) {
    && cut <= |out| <= limit
    && WellOrdered(id, cluster, topic, out, cut)
    && NothingMissing(id, cluster, topic, limit, out, cut)
  }

  /**
   * Related stories: the cluster first, then the topic, each from a bounded query. The first `cut`
   * stories of the answer are from the cluster, the others from the topic alone.
   */
  method Related(id: string, cluster: Option<set<Article>>, category: Option<set<Article>>, limit: nat)
    returns (out: seq<Article>, ghost cut: nat)
    requires 1 <= limit <= MAX_LIMIT
    requires (cluster.Some? ==> Keyed(cluster.value)) && (category.Some? ==> Keyed(category.value))
    ensures out == Take(Unbounded(id, cluster, category), limit)
    ensures GoodAnswer(id, Of(cluster), Of(category), limit, out, cut)
  {
    var seen := {id};
    out := [];
    if cluster.Some? {
      out, seen := ClusterStage(id, cluster.value, limit);
    }
    ghost var peers := PeersOf(id, cluster);
    StagesMerge(out, peers, TopicOf(category, {id} + Ids(peers)), limit);
    IdsCount(out, id);
    if |out| < limit && category.Some? {
      out := TopicStage(category.value, seen, out, limit);
    }
    if |out| > limit {
      out := out[..limit];
    }
    cut := if |peers| < limit then |peers| else limit;
    ghost var topic := TopicOf(category, {id} + Ids(peers));
    PeersAre(id, cluster);
    TopicIs(category, {id} + Ids(peers));
    MergeIsGood(id, Of(cluster), Of(category), peers, topic, limit, out, cut);
  }

  /** The articles of a set but for those with some ids, newest first. */
  ghost predicate ListsOthers(l: seq<Article>, s: set<Article>, ids: set<string>) {
    Descending(l) && DistinctIds(l) && forall a :: a in l <==> a in s && a.id !in ids
  }

  lemma {:induction false} FilterDescends(l: seq<Article>, p: Article -> bool)
    requires Descending(l)
    ensures Descending(Filter(l, p))
  {
    if l != [] {
      assert Descending(l[1..]);
      FilterDescends(l[1..], p);
      forall a | a in l[1..]
        ensures Newer(l[0], a)
      {
      }
    }
  }

  lemma {:induction false} ExceptMembers(l: seq<Article>, ids: set<string>, a: Article)
    ensures a in Except(l, ids) <==> a in l && a.id !in ids
  {
    if a in l && a.id !in ids {
      FilterKeepsMembers(l, (x: Article) => x.id !in ids, a);
    }
  }

  lemma DescendingIdsDiffer(l: seq<Article>, s: set<Article>)
    requires Keyed(s) && Descending(l) && forall a | a in l :: a in s
    ensures DistinctIds(l)
  {
    forall i, j | 0 <= i < j < |l|
      ensures l[i].id != l[j].id
    {
      NewerTotal(l[i], l[j]);
    }
  }

  lemma ExceptListsPart(s: set<Article>, ids: set<string>)
    requires Keyed(s)
    ensures ListsOthers(Except(Latest(s), ids), s, ids)
  {
    var l := Except(Latest(s), ids);
    FilterDescends(Latest(s), (x: Article) => x.id !in ids);
    forall a
      ensures a in l <==> a in s && a.id !in ids
    {
      ExceptMembers(Latest(s), ids, a);
    }
    DescendingIdsDiffer(l, s);
  }

  lemma PeersAre(id: string, cluster: Option<set<Article>>)
    requires cluster.Some? ==> Keyed(cluster.value)
    ensures ListsOthers(PeersOf(id, cluster), Of(cluster), {id})
  {
    if cluster.Some? {
      ExceptListsPart(cluster.value, {id});
    }
  }

  /** Besides the story itself, the ids seen when the topic's turn comes are those of the cluster. */
  lemma SeenIsCluster(id: string, cluster: set<Article>, peers: seq<Article>, other: string)
    requires ListsOthers(peers, cluster, {id})
    ensures other in {id} + Ids(peers) <==> other == id || HasId(cluster, other)
  {
    if other != id && HasId(cluster, other) {
      var a :| a in cluster && a.id == other;
      assert a in peers;
    }
  }

  lemma TopicIs(category: Option<set<Article>>, seen: set<string>)
    requires category.Some? ==> Keyed(category.value)
    ensures ListsOthers(TopicOf(category, seen), Of(category), seen)
  {
    if category.Some? {
      ExceptListsPart(category.value, seen);
    }
  }

  /** Both lists, and what the second leaves out of its set. */
  ghost predicate TwoLists(id: string, cluster: set<Article>, category: set<Article>, peers: seq<Article>,
      topic: seq<Article>) {
    && ListsOthers(peers, cluster, {id}) && ListsOthers(topic, category, {id} + Ids(peers))
    && forall a: Article :: a.id in {id} + Ids(peers) <==> a.id == id || HasId(cluster, a.id)
  }

  lemma MergeIsOrdered(id: string, cluster: set<Article>, category: set<Article>, peers: seq<Article>,
      topic: seq<Article>, out: seq<Article>, cut: nat)
    requires TwoLists(id, cluster, category, peers, topic) && cut <= |out| && cut <= |peers|
    requires out[..cut] == peers[..cut] && |out| - cut <= |topic| && out[cut..] == topic[..|out| - cut]
    ensures WellOrdered(id, cluster, category, out, cut)
  {
    forall i | 0 <= i < |out|
      ensures i < cut ==> out[i] == peers[i] && out[i] in peers
      ensures i >= cut ==> out[i] == topic[i - cut] && out[i] in topic
    {
      if i < cut {
        assert out[i] == out[..cut][i];
      } else {
        assert out[i] == out[cut..][i - cut];
      }
    }
    forall i, j | 0 <= i < j < |out|
      ensures out[i].id != out[j].id
    {
      assert i < cut ==> out[i].id in Ids(peers);
    }
  }

  lemma FrontIsTaken(all: seq<Article>, limit: nat, k: nat)
    requires k < |all|
    ensures k < limit ==> all[k] in Take(all, limit)
  {
    if k < limit {
      assert Take(all, limit)[k] == all[k];
    }
  }

  /** A peer that is left out stands behind a full answer of newer peers. */
  lemma PeerLeftOut(peers: seq<Article>, topic: seq<Article>, limit: nat, out: seq<Article>, cut: nat, a: Article)
    requires out == Take(peers + topic, limit) && cut == if |peers| < limit then |peers| else limit
    requires Descending(peers) && a in peers && a !in out
    ensures cut == |out| == limit && forall i | 0 <= i < cut :: Newer(out[i], a)
  {
    var k :| 0 <= k < |peers| && peers[k] == a;
    FrontIsTaken(peers + topic, limit, k);
    assert forall i | 0 <= i < cut :: out[i] == (peers + topic)[i] == peers[i];
  }

  /** A topic story that is left out stands behind a full answer, and behind the topic's newer ones. */
  lemma TopicLeftOut(peers: seq<Article>, topic: seq<Article>, limit: nat, out: seq<Article>, cut: nat, a: Article)
    requires out == Take(peers + topic, limit) && cut == if |peers| < limit then |peers| else limit
    requires Descending(topic) && a in topic && a !in out
    ensures |out| == limit && forall i | cut <= i < |out| :: Newer(out[i], a)
  {
    var k :| 0 <= k < |topic| && topic[k] == a;
    FrontIsTaken(peers + topic, limit, |peers| + k);
    assert forall i | cut <= i < |out| :: out[i] == (peers + topic)[i] == topic[i - |peers|];
  }

  lemma MergeMissesNothing(id: string, cluster: set<Article>, category: set<Article>, peers: seq<Article>,
      topic: seq<Article>, limit: nat, out: seq<Article>, cut: nat)
    requires TwoLists(id, cluster, category, peers, topic) && cut <= |out|
    requires out == Take(peers + topic, limit) && cut == if |peers| < limit then |peers| else limit
    ensures NothingMissing(id, cluster, category, limit, out, cut)
  {
    forall a | a in cluster && a.id != id && a !in out
      ensures cut == |out| == limit && forall i | 0 <= i < cut :: Newer(out[i], a)
    {
      PeerLeftOut(peers, topic, limit, out, cut, a);
    }
    forall a | a in category && a.id != id && !HasId(cluster, a.id) && a !in out
      ensures |out| == limit && forall i | cut <= i < |out| :: Newer(out[i], a)
    {
      TopicLeftOut(peers, topic, limit, out, cut, a);
    }
  }

  lemma MergeIsGood(id: string, cluster: set<Article>, category: set<Article>, peers: seq<Article>,
      topic: seq<Article>, limit: nat, out: seq<Article>, cut: nat)
    requires ListsOthers(peers, cluster, {id}) && ListsOthers(topic, category, {id} + Ids(peers))
    requires out == Take(peers + topic, limit) && cut == if |peers| < limit then |peers| else limit
    ensures GoodAnswer(id, cluster, category, limit, out, cut)
  {
    forall a: Article
      ensures a.id in {id} + Ids(peers) <==> a.id == id || HasId(cluster, a.id)
    {
      SeenIsCluster(id, cluster, peers, a.id);
    }
    TakenParts(peers, topic, limit, out, cut);
    MergeIsOrdered(id, cluster, category, peers, topic, out, cut);
    MergeMissesNothing(id, cluster, category, peers, topic, limit, out, cut);
  }

  /** The two parts of what is taken. */
  lemma TakenParts(peers: seq<Article>, topic: seq<Article>, limit: nat, out: seq<Article>, cut: nat)
    requires out == Take(peers + topic, limit) && cut == if |peers| < limit then |peers| else limit
    ensures cut <= |out| <= limit && out[..cut] == peers[..cut]
    ensures |out| - cut <= |topic| && out[cut..] == topic[..|out| - cut]
  {
  }

  ghost predicate DistinctIds(l: seq<Article>) {
    forall i, j | 0 <= i < j < |l| :: l[i].id != l[j].id
  }

  /** The cluster loop: rows not seen yet, with the seen set growing as it goes. */
  method AppendUnseen(rows: seq<Article>, seen0: set<string>) returns (out: seq<Article>, seen: set<string>)
    requires DistinctIds(rows)
    ensures out == Except(rows, seen0) && seen == seen0 + Ids(out)
  {
    out, seen := [], seen0;
    for i := 0 to |rows|
      invariant out == Except(rows[..i], seen0)
      invariant seen == seen0 + Ids(out)
    {
      var a := rows[i];
      ExceptGrows(rows, i, seen0);
      if a.id in seen {
        continue;
      }
      seen := seen + {a.id};
      out := out + [a];
    }
    assert rows[..|rows|] == rows;
  }

  /** What the topic loop has appended after i rows. */
  ghost predicate Appended(rows: seq<Article>, i: nat, seen0: set<string>, out0: seq<Article>, out: seq<Article>,
      seen: set<string>)
    requires i <= |rows|
  {
    out == out0 + Except(rows[..i], seen0) && seen == seen0 + Ids(Except(rows[..i], seen0))
  }

  lemma IdsOfAppend(l: seq<Article>, a: Article)
    ensures Ids(l + [a]) == Ids(l) + {a.id}
  {
    assert (l + [a])[|l|] == a;
  }

  lemma AppendLast(out0: seq<Article>, l: seq<Article>, a: Article)
    ensures out0 + (l + [a]) == out0 + l + [a]
  {
  }

  lemma AppendedNext(rows: seq<Article>, i: nat, seen0: set<string>, out0: seq<Article>, out: seq<Article>,
      seen: set<string>)
    requires DistinctIds(rows) && i < |rows| && Appended(rows, i, seen0, out0, out, seen)
    ensures rows[i].id in seen ==> Appended(rows, i + 1, seen0, out0, out, seen)
    ensures rows[i].id !in seen ==> Appended(rows, i + 1, seen0, out0, out + [rows[i]], seen + {rows[i].id})
  {
    ExceptGrows(rows, i, seen0);
    IdsOfAppend(Except(rows[..i], seen0), rows[i]);
    AppendLast(out0, Except(rows[..i], seen0), rows[i]);
  }

  lemma AppendedEnough(rows: seq<Article>, i: nat, seen0: set<string>, out0: seq<Article>, out: seq<Article>,
      seen: set<string>, limit: nat)
    requires i <= |rows| && Appended(rows, i, seen0, out0, out, seen)
    requires (|out| == limit || i == |rows|) && |out| <= limit
    ensures out == Take(out0 + Except(rows, seen0), limit)
  {
    ExceptPrefix(rows, i, seen0);
    if i == |rows| {
      assert rows[..i] == rows;
    }
  }

  /** The topic loop: the same, stopping at the limit. */
  method AppendUntil(rows: seq<Article>, seen0: set<string>, out0: seq<Article>, limit: nat) returns (out: seq<Article>)
    requires DistinctIds(rows) && |out0| < limit
    ensures out == Take(out0 + Except(rows, seen0), limit)
  {
    out := out0;
    var seen := seen0;
    var i := 0;
    while i < |rows|
      invariant i <= |rows| && |out| < limit && Appended(rows, i, seen0, out0, out, seen)
    {
      var a := rows[i];
      AppendedNext(rows, i, seen0, out0, out, seen);
      i := i + 1;
      if a.id in seen {
        continue;
      }
      seen := seen + {a.id};
      out := out + [a];
      if |out| >= limit {
        break;
      }
    }
    AppendedEnough(rows, i, seen0, out0, out, seen, limit);
  }

  /** One more row adds itself, unless it was seen; rows of one query never repeat an id. */
  lemma ExceptGrows(rows: seq<Article>, i: nat, seen0: set<string>)
    requires i < |rows| && DistinctIds(rows)
    ensures var sofar := Except(rows[..i], seen0);
            && rows[i].id !in Ids(sofar)
            && Except(rows[..i + 1], seen0) == (if rows[i].id in seen0 then sofar else sofar + [rows[i]])
  {
    var p := (a: Article) => a.id !in seen0;
    assert rows[..i + 1] == rows[..i] + [rows[i]];
    FilterConcat(rows[..i], [rows[i]], p);
    var sofar := Except(rows[..i], seen0);
    forall a | a in sofar
      ensures a.id != rows[i].id
    {
      var k :| 0 <= k < |sofar| && sofar[k] == a;
      assert a in rows[..i];
      var m :| 0 <= m < i && rows[..i][m] == a;
      assert rows[m].id != rows[i].id;
    }
  }

  lemma ExceptPrefix(rows: seq<Article>, i: nat, seen0: set<string>)
    requires i <= |rows|
    ensures Except(rows[..i], seen0) <= Except(rows, seen0)
  {
    assert rows == rows[..i] + rows[i..];
    FilterConcat(rows[..i], rows[i..], (a: Article) => a.id !in seen0);
  }

  lemma LatestHasDistinctIds(s: set<Article>, n: nat)
    requires Keyed(s)
    ensures DistinctIds(Latest(s))
    ensures DistinctIds(Take(Latest(s), n))
  {
    var l := Latest(s);
    forall i, j | 0 <= i < j < |l|
      ensures l[i].id != l[j].id
    {
      NewerTotal(l[i], l[j]);
      assert l[i] in s && l[j] in s;
    }
  }

  /** At most |ids| rows with different ids have an id among `ids`. */
  lemma {:induction false} FewAreDropped(l: seq<Article>, ids: set<string>)
    requires DistinctIds(l)
    ensures |Except(l, ids)| >= |l| - |ids|
  {
    if l != [] {
      var a, rest := l[0], l[1..];
      if a.id in ids {
        FewAreDropped(rest, ids - {a.id});
        forall b | b in rest
          ensures (b.id !in ids) == (b.id !in ids - {a.id})
        {
          var k :| 0 <= k < |rest| && rest[k] == b;
          assert l[0].id != l[k + 1].id;
        }
        FilterAgree(rest, (b: Article) => b.id !in ids, (b: Article) => b.id !in ids - {a.id});
      } else {
        FewAreDropped(rest, ids);
      }
    }
  }

  /**
   * A query for m rows gives, once the seen ids are dropped, a prefix of the unbounded list: all
   * of it, or at least m less the number of seen ids.
   */
  lemma BoundedIsPrefix(l: seq<Article>, ids: set<string>, m: nat)
    requires DistinctIds(l)
    ensures Except(Take(l, m), ids) <= Except(l, ids)
    ensures Except(Take(l, m), ids) == Except(l, ids) || |Except(Take(l, m), ids)| >= m - |ids|
  {
    if |l| > m {
      ExceptPrefix(l, m, ids);
      FewAreDropped(l[..m], ids);
    }
  }

  lemma {:induction false} IdsCount(l: seq<Article>, id: string)
    ensures |{id} + Ids(l)| <= |l| + 1
  {
    if l != [] {
      IdsCount(l[1..], id);
      assert Ids(l) == Ids(l[1..]) + {l[0].id} by {
        assert l == [l[0]] + l[1..];
      }
      assert {id} + Ids(l) == ({id} + Ids(l[1..])) + {l[0].id};
    } else {
      assert {id} + Ids(l) == {id};
    }
  }
}
