/**
 * An import outline by outline (store/imports.go): which urls it has used, what the registry holds
 * halfway, and when a commit stops at a failing insert.
 */
module ImportRun {
  import opened Wrappers
  import opened FeedRegistry
  import opened FeedImport
  import opened Seqs

  /** The normalised urls of the usable outlines, in order, repetitions included. */
  function Urls(outs: seq<Outline>): seq<string> {
    if outs == [] then []
    else
      var e := EntryOf(outs[|outs| - 1]);
      Urls(outs[..|outs| - 1]) + (if e.Some? then [e.value.url] else [])
  }

  lemma {:induction false} UrlOfUsable(outs: seq<Outline>, k: nat)
    requires k < |outs| && EntryOf(outs[k]).Some?
    ensures EntryOf(outs[k]).value.url in Urls(outs)
  {
    if k < |outs| - 1 {
      UrlOfUsable(outs[..|outs| - 1], k);
    }
  }

  lemma {:induction false} KnownAreUrls(p: Progress, outs: seq<Outline>, version: string, now: int, dryRun: bool)
    requires !Visits(p, outs, version, now, dryRun).failed
    ensures Visits(p, outs, version, now, dryRun).known == p.known + Urls(outs)
  {
    if outs != [] {
      KnownAreUrls(p, outs[..|outs| - 1], version, now, dryRun);
    }
  }

  // ---------------------------------------------------------------------------------------
  // The registry in the middle of a commit
  // ---------------------------------------------------------------------------------------

  /** A url no outline has used yet still has the row it started with. */
  lemma {:induction false} UnusedUrlUntouched(p: Progress, outs: seq<Outline>, version: string, now: int, url: string)
    requires UniqueUrls(p.rows) && !Visits(p, outs, version, now, false).failed && url !in Urls(outs)
    ensures Existing(Visits(p, outs, version, now, false).rows, url) == Existing(p.rows, url)
  {
    if outs != [] {
      var rest, e := outs[..|outs| - 1], EntryOf(outs[|outs| - 1]);
      UnusedUrlUntouched(p, rest, version, now, url);
      VisitsKeepUnique(p, rest, version, now, false);
      if e.Some? {
        assert Urls(outs)[|Urls(outs)| - 1] == e.value.url;
        UpsertElsewhere(Visits(p, rest, version, now, false).rows, e.value, version, now, url);
      }
    }
  }

  /** Each row is either as before, or of this pack. */
  ghost predicate OldOrTouched(rows: Registry, later: Registry, urls: seq<string>, version: string) {
    forall id | id in later ::
      || (id in rows && later[id] == rows[id])
      || (later[id].packVersion == Some(version) && later[id].url in urls && later[id].enabled
          && !later[id].needsReview)
  }

  lemma {:induction false} RowsOldOrTouched(p: Progress, outs: seq<Outline>, version: string, now: int)
    requires !Visits(p, outs, version, now, false).failed
    ensures OldOrTouched(p.rows, Visits(p, outs, version, now, false).rows, Urls(outs), version)
  {
    if outs != [] {
      var rest := outs[..|outs| - 1];
      RowsOldOrTouched(p, rest, version, now);
      var before, after := Visits(p, rest, version, now, false).rows, Visits(p, outs, version, now, false).rows;
      forall id | id in after
        ensures (id in p.rows && after[id] == p.rows[id]) ||
                (after[id].packVersion == Some(version) && after[id].url in Urls(outs) && after[id].enabled
                    && !after[id].needsReview)
      {
        if id in before && after[id] == before[id] && !(id in p.rows && before[id] == p.rows[id]) {
          assert before[id].url in Urls(rest);
        } else if EntryOf(outs[|outs| - 1]).Some? {
          assert Urls(outs)[|Urls(outs)| - 1] == EntryOf(outs[|outs| - 1]).value.url;
        }
      }
    }
  }

  /** In the middle of a commit the registry holds what it held before and the urls visited so far. */
  lemma {:induction false} VisitedUrlsArePresent(p: Progress, outs: seq<Outline>, version: string, now: int,
      url: string)
    requires UniqueUrls(p.rows) && !Visits(p, outs, version, now, false).failed
    ensures HasUrl(Visits(p, outs, version, now, false).rows, url) <==> HasUrl(p.rows, url) || url in Urls(outs)
  {
    if outs != [] {
      var rest, e := outs[..|outs| - 1], EntryOf(outs[|outs| - 1]);
      VisitedUrlsArePresent(p, rest, version, now, url);
      VisitsKeepUnique(p, rest, version, now, false);
      if e.Some? {
        var before := Visits(p, rest, version, now, false).rows;
        assert Urls(outs)[|Urls(rest)|] == e.value.url;
        if url == e.value.url {
          UpsertHere(before, e.value, version, now);
        } else {
          UpsertElsewhere(before, e.value, version, now, url);
        }
      }
    }
  }

  /** What the last outline with a url says. */
  function LastEntry(outs: seq<Outline>, url: string): (e: Option<Entry>)
    ensures e.Some? <==> url in Urls(outs)
  {
    if outs == [] then None
    else
      var e := EntryOf(outs[|outs| - 1]);
      assert e.Some? ==> Urls(outs)[|Urls(outs)| - 1] == e.value.url;
      if e.Some? && e.value.url == url then e else LastEntry(outs[..|outs| - 1], url)
  }

  /** The row says what the entry says, down to the flags an import sets. */
  predicate Fixed(f: Feed, e: Option<Entry>, version: string) {
    e.Some? ==> Refreshed(f, e.value, version) == f
  }

  lemma {:induction false} RowsFixedByLast(p: Progress, outs: seq<Outline>, version: string, now: int)
    requires !Visits(p, outs, version, now, false).failed
    ensures var rows := Visits(p, outs, version, now, false).rows;
      forall id | id in rows :: Fixed(rows[id], LastEntry(outs, rows[id].url), version)
  {
    if outs != [] {
      var rest := outs[..|outs| - 1];
      RowsFixedByLast(p, rest, version, now);
      var before, after := Visits(p, rest, version, now, false).rows, Visits(p, outs, version, now, false).rows;
      forall id | id in after
        ensures Fixed(after[id], LastEntry(outs, after[id].url), version)
      {
        assert id in before ==> Fixed(before[id], LastEntry(rest, before[id].url), version);
      }
    }
  }

  // ---------------------------------------------------------------------------------------
  // When a commit stops, and what it leaves
  // ---------------------------------------------------------------------------------------

  /** The k-th outline is the first with its url, and the registry lacks the url: it has to be inserted. */
  ghost predicate MustInsert(rows: Registry, outs: seq<Outline>, k: nat)
    requires k < |outs|
  {
    var e := EntryOf(outs[k]);
    e.Some? && !HasUrl(rows, e.value.url) && e.value.url !in Urls(outs[..k])
  }

  /** The ids that the outlines introduce. */
  ghost function NewIds(rows: Registry, outs: seq<Outline>): set<FeedId> {
    if outs == [] then {}
    else
      var n := |outs| - 1;
      NewIds(rows, outs[..n]) + (if MustInsert(rows, outs, n) then {EntryOf(outs[n]).value.id} else {})
  }

  /** The k-th outline has to be inserted under an id that the registry or an earlier outline has taken. */
  ghost predicate Clash(rows: Registry, outs: seq<Outline>, k: nat)
    requires k < |outs|
  {
    MustInsert(rows, outs, k) && EntryOf(outs[k]).value.id in rows.Keys + NewIds(rows, outs[..k])
  }

  ghost predicate Clashes(rows: Registry, outs: seq<Outline>) {
    exists k :: 0 <= k < |outs| && Clash(rows, outs, k)
  }

  /** A clash depends on the outlines up to it only. */
  lemma ClashOfPrefix(rows: Registry, outs: seq<Outline>, n: nat, k: nat)
    requires k < n <= |outs|
    ensures Clash(rows, outs[..n], k) == Clash(rows, outs, k)
  {
    assert outs[..n][..k] == outs[..k];
  }

  ghost predicate ClashBefore(rows: Registry, outs: seq<Outline>, n: nat)
    requires n <= |outs|
  {
    exists k :: 0 <= k < n && Clash(rows, outs, k)
  }

  lemma ClashesOfPrefix(rows: Registry, outs: seq<Outline>, n: nat)
    requires n <= |outs|
    ensures Clashes(rows, outs[..n]) <==> ClashBefore(rows, outs, n)
  {
    if Clashes(rows, outs[..n]) {
      var k :| 0 <= k < n && Clash(rows, outs[..n], k);
      ClashOfPrefix(rows, outs, n, k);
    }
    if ClashBefore(rows, outs, n) {
      var k :| 0 <= k < n && Clash(rows, outs, k);
      ClashOfPrefix(rows, outs, n, k);
    }
  }

  /** One more outline: the clashes before, or one of its own. */
  lemma ClashesGrow(rows: Registry, outs: seq<Outline>)
    requires outs != []
    ensures Clashes(rows, outs) <==> Clashes(rows, outs[..|outs| - 1]) || Clash(rows, outs, |outs| - 1)
  {
    ClashesOfPrefix(rows, outs, |outs| - 1);
    assert Clashes(rows, outs) <==> ClashBefore(rows, outs, |outs| - 1) || Clash(rows, outs, |outs| - 1);
  }

  /** The ids of the registry halfway: the old ones and those introduced so far. */
  lemma {:induction false} IdsVisited(p: Progress, outs: seq<Outline>, version: string, now: int)
    requires UniqueUrls(p.rows) && !Visits(p, outs, version, now, false).failed
    ensures Visits(p, outs, version, now, false).rows.Keys == p.rows.Keys + NewIds(p.rows, outs)
  {
    if outs != [] {
      var rest, e := outs[..|outs| - 1], EntryOf(outs[|outs| - 1]);
      IdsVisited(p, rest, version, now);
      if e.Some? {
        VisitedUrlsArePresent(p, rest, version, now, e.value.url);
      }
    }
  }

  lemma LastInsertFails(p: Progress, outs: seq<Outline>, version: string, now: int)
    requires outs != [] && UniqueUrls(p.rows) && !Visits(p, outs[..|outs| - 1], version, now, false).failed
    ensures Visits(p, outs, version, now, false).failed <==> Clash(p.rows, outs, |outs| - 1)
  {
    var rest, e := outs[..|outs| - 1], EntryOf(outs[|outs| - 1]);
    IdsVisited(p, rest, version, now);
    if e.Some? {
      VisitedUrlsArePresent(p, rest, version, now, e.value.url);
    }
  }

  lemma {:induction false} VisitsFailExactly(p: Progress, outs: seq<Outline>, version: string, now: int)
    requires UniqueUrls(p.rows) && !p.failed
    ensures Visits(p, outs, version, now, false).failed <==> Clashes(p.rows, outs)
  {
    if outs != [] {
      VisitsFailExactly(p, outs[..|outs| - 1], version, now);
      ClashesGrow(p.rows, outs);
      if !Visits(p, outs[..|outs| - 1], version, now, false).failed {
        LastInsertFails(p, outs, version, now);
      }
    }
  }

  /**
   * A commit answers an error exactly when some outline has to be inserted under a taken id: its url is
   * in neither the registry nor an earlier outline, but its id is.
   */
  lemma CommitFailsExactly(rows: Registry, outs: seq<Outline>, version: string, now: int)
    requires UniqueUrls(rows)
    ensures Import(rows, outs, version, now, false).answer.Err? <==> Clashes(rows, Valid(outs))
  {
    VisitsFailExactly(Start(rows, outs), Valid(outs), version, now);
  }

  /** The registry it leaves has every outline before the first clash written, and no flag set. */
  lemma FailedCommitLeaves(rows: Registry, outs: seq<Outline>, version: string, now: int, k: nat)
    requires UniqueUrls(rows) && k < |Valid(outs)| && Clash(rows, Valid(outs), k)
    requires forall j | 0 <= j < k :: !Clash(rows, Valid(outs), j)
    ensures var before := Visits(Start(rows, outs), Valid(outs)[..k], version, now, false);
      && Import(rows, outs, version, now, false) == Outcome(before.rows, Err(()))
      && !before.failed
      && before.rows.Keys == rows.Keys + NewIds(rows, Valid(outs)[..k])
      && (forall u :: HasUrl(before.rows, u) <==> HasUrl(rows, u) || u in Urls(Valid(outs)[..k]))
      && OldOrTouched(rows, before.rows, Urls(Valid(outs)[..k]), version)
  {
    var p, valid := Start(rows, outs), Valid(outs);
    forall j | 0 <= j < k
      ensures !Clash(rows, valid[..k], j)
    {
      ClashOfPrefix(rows, valid, k, j);
    }
    VisitsFailExactly(p, valid[..k], version, now);
    IdsVisited(p, valid[..k], version, now);
    RowsOldOrTouched(p, valid[..k], version, now);
    forall u: string
      ensures HasUrl(Visits(p, valid[..k], version, now, false).rows, u) <==> HasUrl(rows, u) || u in Urls(valid[..k])
    {
      VisitedUrlsArePresent(p, valid[..k], version, now, u);
    }
    StopsAt(p, valid, k, version, now);
  }

  /** The failing insert is the last thing that happens. */
  lemma StopsAt(p: Progress, outs: seq<Outline>, k: nat, version: string, now: int)
    requires UniqueUrls(p.rows) && k < |outs| && Clash(p.rows, outs, k)
        && !Visits(p, outs[..k], version, now, false).failed
    ensures Visits(p, outs, version, now, false).failed
    ensures Visits(p, outs, version, now, false).rows == Visits(p, outs[..k], version, now, false).rows
  {
    var upTo := outs[..k + 1];
    assert upTo[..k] == outs[..k];
    ClashOfPrefix(p.rows, outs, k + 1, k);
    LastInsertFails(p, upTo, version, now);
    FailureIsFinal(p, outs, k + 1, version, now, false);
  }

  // ---------------------------------------------------------------------------------------
  // Outlines with different ids, which is what the parser hands over
  // ---------------------------------------------------------------------------------------

  ghost predicate IdsDiffer(outs: seq<Outline>) {
    forall i, j | 0 <= i < j < |outs| :: outs[i].feedId != outs[j].feedId
  }

  lemma {:induction false} NewIdsAreListed(rows: Registry, outs: seq<Outline>, id: FeedId)
    requires forall j | 0 <= j < |outs| :: outs[j].feedId != id
    ensures id !in NewIds(rows, outs)
  {
    if outs != [] {
      NewIdsAreListed(rows, outs[..|outs| - 1], id);
      assert outs[|outs| - 1].feedId != id;
    }
  }

  /** Then only the registry can hold the id of an outline that has to be inserted. */
  lemma ClashIsWithRegistry(rows: Registry, outs: seq<Outline>, k: nat)
    requires IdsDiffer(outs) && k < |outs|
    ensures Clash(rows, outs, k) <==> MustInsert(rows, outs, k) && outs[k].feedId in rows
  {
    NewIdsAreListed(rows, outs[..k], outs[k].feedId);
  }

  /** Some new url comes with an id that the registry has given to another url. */
  ghost predicate IdHeldElsewhere(rows: Registry, outs: seq<Outline>) {
    exists k :: 0 <= k < |outs| && MustInsert(rows, outs, k) && outs[k].feedId in rows
  }

  /** Such a commit fails exactly when a new url comes with an id of the registry. */
  lemma CommitOfDifferentIdsFailsExactly(rows: Registry, outs: seq<Outline>, version: string, now: int)
    requires UniqueUrls(rows) && IdsDiffer(Valid(outs))
    ensures Import(rows, outs, version, now, false).answer.Err? <==> IdHeldElsewhere(rows, Valid(outs))
  {
    var valid := Valid(outs);
    CommitFailsExactly(rows, outs, version, now);
    forall k | 0 <= k < |valid|
      ensures Clash(rows, valid, k) <==> MustInsert(rows, valid, k) && valid[k].feedId in rows
    {
      ClashIsWithRegistry(rows, valid, k);
    }
  }

  lemma TwoValid(a: Outline, b: Outline)
    requires a.invalid == "" && b.invalid == ""
    ensures Valid([a, b]) == [a, b]
  {
    FilterAll([a, b], (o: Outline) => o.invalid == "");
  }

  lemma UrlsOfTwo(a: Outline, b: Outline)
    requires EntryOf(a).Some? && EntryOf(b).Some?
    ensures Urls([a]) == [EntryOf(a).value.url]
    ensures Urls([a, b]) == [EntryOf(a).value.url, EntryOf(b).value.url]
  {
    assert [a][..0] == [] && [a, b][..1] == [a];
  }
}
