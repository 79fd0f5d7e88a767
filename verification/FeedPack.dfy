/**
 * The duplicate check of the feed-pack parser (feed/opml/opml.go): a walk over folders and feeds that
 * rejects every feed whose url was used before. What it promises the import, and what it does not.
 */
module FeedPack {
  import opened Wrappers
  import opened FeedRegistry
  import opened FeedImport
  import opened ImportRun
  import opened ImportAgreement
  import opened Seqs

  /** A feed as validation leaves it, and what url normalisation makes of its xmlUrl. */
  datatype Listed = Listed(outline: Outline, key: string)

  /** An element of the body: a feed, or a folder, which is any element without an xmlUrl. */
  datatype Node = FeedNode(listed: Listed) | FolderNode(children: seq<Node>)

  /** The feeds in document order. */
  function Feeds(nodes: seq<Node>): seq<Listed> {
    if nodes == [] then []
    else
      FeedsOf(nodes[0]) + Feeds(nodes[1..])
  }

  function FeedsOf(node: Node): seq<Listed> {
    match node
    case FeedNode(l) => [l]
    case FolderNode(children) => Feeds(children)
  }

  lemma {:induction false} FeedsConcat(a: seq<Node>, b: seq<Node>)
    ensures Feeds(a + b) == Feeds(a) + Feeds(b)
  {
    if a == [] {
      assert a + b == b;
    } else {
      assert (a + b)[1..] == a[1..] + b;
      FeedsConcat(a[1..], b);
    }
  }

  /** One more node after those that led from `before` to `now`. */
  lemma {:induction false} FeedsNext(before: seq<Listed>, nodes: seq<Node>, i: nat, now: seq<Listed>)
    requires i < |nodes| && now == before + Feeds(nodes[..i])
    ensures now + FeedsOf(nodes[i]) == before + Feeds(nodes[..i + 1])
  {
    assert nodes[..i + 1] == nodes[..i] + [nodes[i]];
    FeedsConcat(nodes[..i], [nodes[i]]);
    assert Feeds([nodes[i]]) == FeedsOf(nodes[i]) + Feeds([]);
  }

  // ---------------------------------------------------------------------------------------
  // What the walk answers
  // ---------------------------------------------------------------------------------------

  predicate Uses(l: Listed, key: string) {
    l.outline.invalid == "" && l.key == key
  }

  /** The title of the first usable feed with the key. */
  function FirstTitle(listed: seq<Listed>, key: string): (title: Option<string>)
    ensures title.Some? <==> exists j :: 0 <= j < |listed| && Uses(listed[j], key)
  {
    if listed == [] then None
    else
      var n := |listed| - 1;
      var earlier := FirstTitle(listed[..n], key);
      assert earlier.Some? ==> exists j :: 0 <= j < n && Uses(listed[..n][j], key);
      assert forall j | 0 <= j < n :: listed[..n][j] == listed[j];
      if earlier.Some? then earlier
      else if Uses(listed[n], key) then Some(listed[n].outline.title)
      else None
  }

  function Judged(earlier: seq<Listed>, l: Listed): Outline {
    var first := FirstTitle(earlier, l.key);
    if l.outline.invalid == "" && first.Some? then
      l.outline.(invalid := "duplicate xmlUrl (also used by " + first.value + ")")
    else l.outline
  }

  function Parsed(listed: seq<Listed>): (outs: seq<Outline>)
    ensures |outs| == |listed|
  {
    if listed == [] then []
    else
      var n := |listed| - 1;
      Parsed(listed[..n]) + [Judged(listed[..n], listed[n])]
  }

  lemma {:induction false} ParsedNext(listed: seq<Listed>, l: Listed)
    ensures Parsed(listed + [l]) == Parsed(listed) + [Judged(listed, l)]
  {
    assert (listed + [l])[..|listed|] == listed;
  }

  lemma {:induction false} FirstTitleNext(listed: seq<Listed>, l: Listed, key: string)
    ensures FirstTitle(listed + [l], key) ==
            if FirstTitle(listed, key).Some? then FirstTitle(listed, key)
            else if Uses(l, key) then Some(l.outline.title) else None
  {
    assert (listed + [l])[..|listed|] == listed;
  }

  // ---------------------------------------------------------------------------------------
  // The walk
  // ---------------------------------------------------------------------------------------

  /** The variables that the walk's closure updates; `listed` are the feeds it has met. */
  class Walker {
    var seen: map<string, string>
    var outlines: seq<Outline>
    ghost var listed: seq<Listed>

    /** `seen` holds the first title of each used key. */
    ghost predicate SeenIs(before: seq<Listed>)
      reads this
    {
      forall key: string :: FirstTitle(before, key) == if key in seen then Some(seen[key]) else None
    }

    ghost predicate Valid()
      reads this
    {
      outlines == Parsed(listed) && SeenIs(listed)
    }

    constructor ()
      ensures Valid() && listed == []
    {
      seen, outlines, listed := map[], [], [];
    }

    /** One feed. */
    method Meet(l: Listed)
      requires Valid()
      modifies this
      ensures Valid() && listed == old(listed) + [l]
    {
      ghost var before := listed;
      var o := l.outline;
      if o.invalid == "" {
        if l.key in seen {
          o := o.(invalid := "duplicate xmlUrl (also used by " + seen[l.key] + ")");
        } else {
          seen := seen[l.key := o.title];
        }
      }
      assert FirstTitle(before, l.key) == if l.key in old(seen) then Some(old(seen)[l.key]) else None;
      outlines := outlines + [o];
      ParsedNext(before, l);
      listed := before + [l];
      forall key: string
        ensures FirstTitle(listed, key) == if key in seen then Some(seen[key]) else None
      {
        FirstTitleNext(before, l, key);
        assert FirstTitle(before, key) == if key in old(seen) then Some(old(seen)[key]) else None;
      }
    }

    /** Folders are entered where they stand. */
    method Enter(node: Node)
      requires Valid()
      modifies this
      ensures Valid() && listed == old(listed) + FeedsOf(node)
      decreases node
    {
      match node {
        case FeedNode(l) => Meet(l);
        case FolderNode(children) => Walk(children);
      }
    }

    method Walk(nodes: seq<Node>)
      requires Valid()
      modifies this
      ensures Valid() && listed == old(listed) + Feeds(nodes)
      decreases nodes
    {
      for i := 0 to |nodes|
        invariant Valid() && listed == old(listed) + Feeds(nodes[..i])
      {
        FeedsNext(old(listed), nodes, i, listed);
        Enter(nodes[i]);
      }
      assert nodes[..|nodes|] == nodes;
    }
  }

  /** The outlines of a feed pack, whatever its folders. */
  method Parse(nodes: seq<Node>) returns (outlines: seq<Outline>)
    ensures outlines == Parsed(Feeds(nodes))
  {
    var walker := new Walker();
    walker.Walk(nodes);
    assert [] + Feeds(nodes) == Feeds(nodes);
    outlines := walker.outlines;
  }

  // ---------------------------------------------------------------------------------------
  // What it promises
  // ---------------------------------------------------------------------------------------

  /** A feed stays valid exactly when it was and no valid feed before it has its key. */
  lemma {:induction false} FirstOfEachKeySurvives(listed: seq<Listed>, k: nat)
    requires k < |listed|
    ensures Parsed(listed)[k].invalid == "" <==>
            listed[k].outline.invalid == "" && forall j | 0 <= j < k :: !Uses(listed[j], listed[k].key)
    ensures Parsed(listed)[k] == listed[k].outline.(invalid := Parsed(listed)[k].invalid)
  {
    var n := |listed| - 1;
    if k < n {
      FirstOfEachKeySurvives(listed[..n], k);
    } else {
      assert forall j | 0 <= j < n :: listed[..n][j] == listed[j];
    }
  }

  /** The one a duplicate is blamed on is the first with its key. */
  lemma {:induction false} BlamedOnTheFirst(listed: seq<Listed>, k: nat, key: string)
    requires k < |listed| && Uses(listed[k], key) && forall j | 0 <= j < k :: !Uses(listed[j], key)
    ensures FirstTitle(listed, key) == Some(listed[k].outline.title)
  {
    var n := |listed| - 1;
    assert forall j | 0 <= j < n :: listed[..n][j] == listed[j];
    if k < n {
      BlamedOnTheFirst(listed[..n], k, key);
    }
  }

  function FeedIdOf(hash: string -> string, key: string): FeedId {
    "feed_" + hash(key)
  }

  /** Every feed has the id hashed from its key, and no two keys that occur share a hash. */
  ghost predicate Hashed(listed: seq<Listed>, hash: string -> string) {
    && (forall k | 0 <= k < |listed| :: listed[k].outline.feedId == FeedIdOf(hash, listed[k].key))
    && (forall j, k | 0 <= j < k < |listed| :: hash(listed[j].key) == hash(listed[k].key) ==>
          listed[j].key == listed[k].key)
  }

  lemma {:induction false} DifferentKeysDifferentIds(listed: seq<Listed>, hash: string -> string, j: nat, k: nat)
    requires Hashed(listed, hash) && j < k < |listed| && listed[j].key != listed[k].key
    ensures listed[j].outline.feedId != listed[k].outline.feedId
  {
    assert FeedIdOf(hash, listed[j].key)[5..] == hash(listed[j].key);
    assert FeedIdOf(hash, listed[k].key)[5..] == hash(listed[k].key);
  }

  lemma {:induction false} ValidPairDiffers(listed: seq<Listed>, hash: string -> string, j: nat, k: nat)
    requires Hashed(listed, hash) && j < k < |listed|
    requires Parsed(listed)[j].invalid == "" && Parsed(listed)[k].invalid == ""
    ensures Parsed(listed)[j].feedId != Parsed(listed)[k].feedId
  {
    FirstOfEachKeySurvives(listed, j);
    FirstOfEachKeySurvives(listed, k);
    assert !Uses(listed[j], listed[k].key);
    DifferentKeysDifferentIds(listed, hash, j, k);
  }

  /** Valid outlines with pairwise different ids keep them when the others are dropped. */
  lemma {:induction false} IdsDifferAfterFilter(outs: seq<Outline>)
    requires forall j, k | 0 <= j < k < |outs| && outs[j].invalid == "" && outs[k].invalid == "" ::
               outs[j].feedId != outs[k].feedId
    ensures IdsDiffer(Valid(outs))
  {
    if outs != [] {
      var rest := outs[1..];
      IdsDifferAfterFilter(rest);
      forall i | 0 <= i < |Valid(rest)|
        ensures outs[0].invalid == "" ==> Valid(rest)[i].feedId != outs[0].feedId
      {
        var j :| 0 <= j < |rest| && rest[j] == Valid(rest)[i];
        assert outs[j + 1] == rest[j];
      }
    }
  }

  /** The outlines that the import gets from the parser have pairwise different ids. */
  lemma {:induction false} ParsedIdsDiffer(listed: seq<Listed>, hash: string -> string)
    requires Hashed(listed, hash)
    ensures IdsDiffer(Valid(Parsed(listed)))
  {
    var outs := Parsed(listed);
    forall j, k | 0 <= j < k < |outs| && outs[j].invalid == "" && outs[k].invalid == ""
      ensures outs[j].feedId != outs[k].feedId
    {
      ValidPairDiffers(listed, hash, j, k);
    }
    IdsDifferAfterFilter(outs);
  }

  /**
   * Whatever the feed pack, committing it fails exactly when a url new to the registry comes with an id
   * that the registry has given to another url; so it never fails on an empty registry.
   */
  lemma {:induction false} CommitOfParsedFailsExactly(rows: Registry, listed: seq<Listed>, hash: string -> string,
      version: string, now: int)
    requires UniqueUrls(rows) && Hashed(listed, hash)
    ensures Import(rows, Parsed(listed), version, now, false).answer.Err? <==>
            IdHeldElsewhere(rows, Valid(Parsed(listed)))
    ensures rows == map[] ==> Import(rows, Parsed(listed), version, now, false).answer.Ok?
  {
    ParsedIdsDiffer(listed, hash);
    CommitOfDifferentIdsFailsExactly(rows, Parsed(listed), version, now);
  }

  // ---------------------------------------------------------------------------------------
  // What it lets through
  // ---------------------------------------------------------------------------------------

  /** A valid feed with nothing but its urls; the normalised url is the registry's, the key the parser's. */
  function FeedAt(xmlUrl: string, normalized: string, key: string, hash: string -> string): Listed {
    Listed(Outline("A", xmlUrl, "", "fa", "", "", "DIRECT_PUBLISHER", 3, "", FeedIdOf(hash, key), "src",
                   Some(Canon(normalized, normalized))), key)
  }

  predicate Usable(l: Listed, hash: string -> string) {
    l.outline.invalid == "" && EntryOf(l.outline).Some? && l.outline.feedId == FeedIdOf(hash, l.key)
  }

  lemma {:induction false} ParsedOne(a: Listed)
    ensures Parsed([a]) == [a.outline]
  {
    assert [a][..0] == [];
  }

  lemma {:induction false} ParsedTwo(a: Listed, b: Listed)
    requires a.key != b.key
    ensures Parsed([a, b]) == [a.outline, b.outline]
  {
    assert [a, b][..1] == [a];
    ParsedOne(a);
    assert !Uses(a, b.key);
  }

  lemma {:induction false} FirstImport(o: Outline, version: string, now: int)
    requires o.invalid == "" && EntryOf(o).Some?
    ensures var once := Import(map[], [o], version, now, false);
      && once.answer.Ok?
      && once.rows.Keys == {o.feedId} && once.rows[o.feedId].url == EntryOf(o).value.url
  {
    FilterAll([o], (x: Outline) => x.invalid == "");
    var p := Start(map[], [o]);
    assert [o][..0] == [];
    assert Visits(p, [o], version, now, false) == Visit(p, o, version, now, false);
  }

  /** The registry has the id of the second outline under another url. */
  lemma {:induction false} SecondOutlineStops(rows: Registry, a: Outline, b: Outline, version: string, now: int)
    requires UniqueUrls(rows) && a.invalid == "" && b.invalid == "" && EntryOf(a).Some? && EntryOf(b).Some?
    requires EntryOf(a).value.url != EntryOf(b).value.url
    requires !HasUrl(rows, EntryOf(a).value.url) && !HasUrl(rows, EntryOf(b).value.url)
    requires a.feedId !in rows && b.feedId in rows
    ensures Import(rows, [a, b], version, now, false).answer == Err(())
    ensures HasUrl(Import(rows, [a, b], version, now, false).rows, EntryOf(a).value.url)
  {
    var outs := [a, b];
    TwoValid(a, b);
    UrlsOfTwo(a, b);
    assert outs[..0] == [] && outs[..1] == [a];
    assert MustInsert(rows, outs, 1) && !Clash(rows, outs, 0) && Clash(rows, outs, 1);
    FailedCommitLeaves(rows, outs, version, now, 1);
  }

  /**
   * A failed commit is not undone. The key, and so the id, is taken from the url with its dot segments
   * cleaned away; the registry's url keeps them. A publisher listed with such a url, and without it in
   * the next version of the feed pack, stops that import: the feed before it stays, the rest is missing.
   */
  lemma {:induction false} FailedCommitIsNotUndone(hash: string -> string, version: string, next: string, now: int,
      later: int)
    requires hash("https://x.example/new") != hash("https://x.example/f")
    ensures var old_ := [FeedAt("https://x.example/a/../f", "https://x.example/a/../f", "https://x.example/f", hash)];
      var new_ := [FeedAt("https://x.example/new", "https://x.example/new", "https://x.example/new", hash),
                   FeedAt("https://x.example/f", "https://x.example/f", "https://x.example/f", hash)];
      var once := Import(map[], Parsed(old_), version, now, false);
      var twice := Import(once.rows, Parsed(new_), next, later, false);
      && Hashed(old_, hash) && Hashed(new_, hash)
      && once.answer.Ok? && twice.answer == Err(()) && HasUrl(twice.rows, "https://x.example/new")
  {
    var o := FeedAt("https://x.example/a/../f", "https://x.example/a/../f", "https://x.example/f", hash);
    var a := FeedAt("https://x.example/new", "https://x.example/new", "https://x.example/new", hash);
    var b := FeedAt("https://x.example/f", "https://x.example/f", "https://x.example/f", hash);
    UsableAreHashed(o, a, b, hash);
    MovedFeedStops(o, a, b, hash, version, next, now, later);
  }

  lemma {:induction false} UsableAreHashed(o: Listed, a: Listed, b: Listed, hash: string -> string)
    requires Usable(o, hash) && Usable(a, hash) && Usable(b, hash) && hash(a.key) != hash(b.key)
    ensures Hashed([o], hash) && Hashed([a, b], hash)
  {
  }

  lemma {:induction false} MovedFeedStops(o: Listed, a: Listed, b: Listed, hash: string -> string, version: string,
      next: string, now: int, later: int)
    requires Usable(o, hash) && Usable(a, hash) && Usable(b, hash) && o.key == b.key && hash(a.key) != hash(b.key)
    requires EntryOf(o.outline).value.url != EntryOf(a.outline).value.url
    requires EntryOf(o.outline).value.url != EntryOf(b.outline).value.url
    requires EntryOf(a.outline).value.url != EntryOf(b.outline).value.url
    ensures var once := Import(map[], Parsed([o]), version, now, false);
      var twice := Import(once.rows, Parsed([a, b]), next, later, false);
      && once.answer.Ok? && twice.answer == Err(()) && HasUrl(twice.rows, EntryOf(a.outline).value.url)
  {
    ParsedOne(o);
    ParsedTwo(a, b);
    UsableAreHashed(o, a, b, hash);
    DifferentKeysDifferentIds([a, b], hash, 0, 1);
    MovedOutlineStops(o.outline, a.outline, b.outline, version, next, now, later);
  }

  lemma {:induction false} MovedOutlineStops(o: Outline, a: Outline, b: Outline, version: string, next: string,
      now: int, later: int)
    requires o.invalid == "" && a.invalid == "" && b.invalid == ""
    requires EntryOf(o).Some? && EntryOf(a).Some? && EntryOf(b).Some? && o.feedId == b.feedId != a.feedId
    requires EntryOf(o).value.url != EntryOf(a).value.url && EntryOf(o).value.url != EntryOf(b).value.url
    requires EntryOf(a).value.url != EntryOf(b).value.url
    ensures var once := Import(map[], [o], version, now, false);
      var twice := Import(once.rows, [a, b], next, later, false);
      && once.answer.Ok? && twice.answer == Err(()) && HasUrl(twice.rows, EntryOf(a).value.url)
  {
    FirstImport(o, version, now);
    SecondOutlineStops(Import(map[], [o], version, now, false).rows, a, b, next, later);
  }

  /**
   * The key keeps the scheme and the registry's url does not: a feed listed under http and under https
   * passes as two. The dry run forecasts two new feeds, the commit adds one, and committing again
   * reports a change.
   */
  lemma {:induction false} TwoSchemesMislead(hash: string -> string, version: string, now: int, later: int)
    ensures var outs := Parsed([FeedAt("http://x.example/f", "https://x.example/f", "http://x.example/f", hash),
                                FeedAt("https://x.example/f", "https://x.example/f", "https://x.example/f", hash)]);
      var dry, once := Import(map[], outs, version, now, true), Import(map[], outs, version, now, false);
      var twice := Import(once.rows, outs, version, later, false);
      && dry.answer.Ok? && once.answer.Ok? && twice.answer.Ok?
      && dry.answer.value.added == 2 && once.answer.value.added == 1 && twice.answer.value.changed > 0
  {
    var a := FeedAt("http://x.example/f", "https://x.example/f", "http://x.example/f", hash);
    var b := FeedAt("https://x.example/f", "https://x.example/f", "https://x.example/f", hash);
    assert a.outline.xmlUrl != b.outline.xmlUrl && a.key != b.key;
    ParsedTwo(a, b);
    ContradictionMisleads(a.outline, b.outline, version, now, later);
  }
}
