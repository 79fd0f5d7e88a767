/**
 * Deduplication in terms of what is offered (store/articles.go): for every run from the empty store, which
 * offers are stored, which stage turns the others away, and what two stored articles never share.
 */
module OfferedArticles {
  import opened Common
  import opened Wrappers
  import opened Text
  import opened ArticleStore

  /** The two offers agree on what a stage looks at; blank feed ids, guids and content hashes never do. */
  predicate Collides(earlier: Input, later: Input, stage: Stage) {
    match stage
    case ByGuid =>
      && earlier.feedId == later.feedId && !IsBlank(later.feedId)
      && earlier.guid == later.guid && !IsBlank(later.guid)
    case ByNormalizedUrl => earlier.normalizedUrl == later.normalizedUrl != ""
    case ByCanonicalUrl => earlier.normalizedUrl == later.canonicalUrl != ""
    case ByHash => earlier.contentHash == later.contentHash && !IsBlank(later.contentHash)
    case ByTitle =>
      && earlier.normalizedTitle == later.fingerprint != ""
      && later.discoveredAt - earlier.discoveredAt <= 172_800_000_000_000
  }

  lemma NullStringIs(s: string, t: string)
    ensures NullString(s) == Some(t) <==> s == t && !IsBlank(t)
  {
    BlankTrimsAway(s);
  }

  /** What is stored of an offer matches exactly the offers that collide with it. */
  lemma RowMatchesCollision(earlier: Input, later: Input, stage: Stage)
    ensures Matches(RowOf(earlier).keys, later, stage) <==> Collides(earlier, later, stage)
  {
    NullStringIs(earlier.feedId, later.feedId);
    NullStringIs(earlier.guid, later.guid);
    NullStringIs(earlier.contentHash, later.contentHash);
  }

  // ---------------------------------------------------------------------------------------
  // What a run has stored
  // ---------------------------------------------------------------------------------------

  /** The call is an offer that this table takes in. */
  predicate Takes(digest: string -> string, rows: Articles, op: Op) {
    op.Offer? && VerdictOn(digest, rows, op.input, op.weather) == Stored
  }

  /** The offer after the run is stored. */
  predicate IsStored(digest: string -> string, ops: seq<Op>, op: Op) {
    Takes(digest, Run(digest, map[], ops), op)
  }

  function Added(digest: string -> string, rows: Articles, op: Op): seq<Input> {
    if Takes(digest, rows, op) then [op.input] else []
  }

  /** The inputs that were stored, oldest first. */
  function StoredInputs(digest: string -> string, ops: seq<Op>): seq<Input> {
    if ops == [] then []
    else
      var rest, op := ops[..|ops| - 1], ops[|ops| - 1];
      StoredInputs(digest, rest) + Added(digest, Run(digest, map[], rest), op)
  }

  /** The input is in the table, under its own id. */
  predicate InTable(digest: string -> string, rows: Articles, input: Input) {
    var id := IdOf(digest, input);
    id in rows && rows[id].keys == RowOf(input).keys
  }

  /** The id is that of one of the inputs. */
  ghost predicate IsIdOf(digest: string -> string, inputs: seq<Input>, id: ArticleId) {
    exists x :: x in inputs && IdOf(digest, x) == id
  }

  /** The table holds the inputs, each under its own id, and nothing else. */
  ghost predicate HoldsInputs(digest: string -> string, rows: Articles, inputs: seq<Input>) {
    && (forall x | x in inputs :: InTable(digest, rows, x))
    && (forall id | id in rows :: IsIdOf(digest, inputs, id))
  }

  lemma RunOneMore(digest: string -> string, ops: seq<Op>, op: Op)
    ensures Run(digest, map[], ops + [op]) == Step(digest, Run(digest, map[], ops), op)
  {
    RunInParts(digest, map[], ops, op, []);
    assert ops + [op] + [] == ops + [op];
  }

  /** A row under a new id leaves the inputs in the table. */
  lemma StillInTable(digest: string -> string, rows: Articles, x: Input, id: ArticleId, row: Article)
    requires InTable(digest, rows, x) && id !in rows
    ensures InTable(digest, rows[id := row], x)
  {
  }

  lemma StillIdOf(digest: string -> string, inputs: seq<Input>, input: Input, id: ArticleId)
    requires IsIdOf(digest, inputs, id) || id == IdOf(digest, input)
    ensures IsIdOf(digest, inputs + [input], id)
  {
    var all := inputs + [input];
    if IsIdOf(digest, inputs, id) {
      var x :| x in inputs && IdOf(digest, x) == id;
      assert x in all;
    } else {
      assert input in all;
    }
  }

  lemma InputAdded(digest: string -> string, rows: Articles, inputs: seq<Input>, input: Input, id: ArticleId,
      row: Article)
    requires HoldsInputs(digest, rows, inputs) && id == IdOf(digest, input) && id !in rows && row == RowOf(input)
    ensures HoldsInputs(digest, rows[id := row], inputs + [input])
  {
    var next, all := rows[id := row], inputs + [input];
    forall x | x in all
      ensures InTable(digest, next, x)
    {
      if x in inputs {
        StillInTable(digest, rows, x, id, row);
      }
    }
    forall other | other in next
      ensures IsIdOf(digest, all, other)
    {
      StillIdOf(digest, inputs, input, other);
    }
  }

  lemma StatusKeepsInput(digest: string -> string, rows: Articles, x: Input, id: ArticleId, active: bool)
    requires InTable(digest, rows, x)
    ensures InTable(digest, WithStatus(rows, id, active), x)
  {
  }

  lemma StatusKeepsInputs(digest: string -> string, rows: Articles, inputs: seq<Input>, id: ArticleId, active: bool)
    requires HoldsInputs(digest, rows, inputs)
    ensures HoldsInputs(digest, WithStatus(rows, id, active), inputs)
  {
    forall x | x in inputs
      ensures InTable(digest, WithStatus(rows, id, active), x)
    {
      StatusKeepsInput(digest, rows, x, id, active);
    }
  }

  lemma StepAdds(digest: string -> string, rows: Articles, op: Op)
    requires Takes(digest, rows, op)
    ensures Step(digest, rows, op) == rows[IdOf(digest, op.input) := RowOf(op.input)]
    ensures IdOf(digest, op.input) !in rows
  {
  }

  lemma StepAddsNothing(digest: string -> string, rows: Articles, op: Op)
    requires op.Offer? && !Takes(digest, rows, op)
    ensures Step(digest, rows, op) == rows
  {
  }

  lemma StepHoldsInputs(digest: string -> string, rows: Articles, inputs: seq<Input>, op: Op)
    requires HoldsInputs(digest, rows, inputs)
    ensures HoldsInputs(digest, Step(digest, rows, op), inputs + Added(digest, rows, op))
  {
    assert inputs + [] == inputs;
    if Takes(digest, rows, op) {
      StepAdds(digest, rows, op);
      InputAdded(digest, rows, inputs, op.input, IdOf(digest, op.input), RowOf(op.input));
    } else if op.Offer? {
      StepAddsNothing(digest, rows, op);
    } else {
      StatusKeepsInputs(digest, rows, inputs, op.id, op.active);
    }
  }

  lemma StoredOneMore(digest: string -> string, rest: seq<Op>, op: Op)
    ensures StoredInputs(digest, rest + [op]) ==
            StoredInputs(digest, rest) + Added(digest, Run(digest, map[], rest), op)
  {
    assert (rest + [op])[..|rest|] == rest;
  }

  lemma OneMoreHolds(digest: string -> string, rest: seq<Op>, op: Op, all: seq<Op>)
    requires HoldsInputs(digest, Run(digest, map[], rest), StoredInputs(digest, rest)) && all == rest + [op]
    ensures HoldsInputs(digest, Run(digest, map[], all), StoredInputs(digest, all))
  {
    RunOneMore(digest, rest, op);
    StoredOneMore(digest, rest, op);
    StepHoldsInputs(digest, Run(digest, map[], rest), StoredInputs(digest, rest), op);
  }

  lemma NothingHeld(digest: string -> string)
    ensures HoldsInputs(digest, Run(digest, map[], []), StoredInputs(digest, []))
  {
  }

  lemma {:induction false} PrefixHoldsInputs(digest: string -> string, ops: seq<Op>, k: nat)
    requires k <= |ops|
    ensures HoldsInputs(digest, Run(digest, map[], ops[..k]), StoredInputs(digest, ops[..k]))
  {
    if k == 0 {
      NothingHeld(digest);
      assert ops[..0] == [];
    } else {
      PrefixHoldsInputs(digest, ops, k - 1);
      UpTo(ops, k - 1);
      OneMoreHolds(digest, ops[..k - 1], ops[k - 1], ops[..k]);
    }
  }

  lemma RunHoldsInputs(digest: string -> string, ops: seq<Op>)
    ensures HoldsInputs(digest, Run(digest, map[], ops), StoredInputs(digest, ops))
  {
    PrefixHoldsInputs(digest, ops, |ops|);
    assert ops[..|ops|] == ops;
  }

  lemma ListedNext(digest: string -> string, rest: seq<Op>, op: Op, all: seq<Op>, x: Input)
    requires all == rest + [op]
    requires x in StoredInputs(digest, rest) || (IsStored(digest, rest, op) && x == op.input)
    ensures x in StoredInputs(digest, all)
  {
    StoredOneMore(digest, rest, op);
  }

  lemma UpTo<T>(s: seq<T>, k: nat)
    requires k < |s|
    ensures s[..k + 1] == s[..k] + [s[k]]
  {
  }

  lemma {:induction false} StoredIsListed(digest: string -> string, ops: seq<Op>, i: nat, k: nat)
    requires i < k <= |ops| && IsStored(digest, ops[..i], ops[i])
    ensures ops[i].input in StoredInputs(digest, ops[..k])
    decreases k
  {
    if i < k - 1 {
      StoredIsListed(digest, ops, i, k - 1);
    }
    UpTo(ops, k - 1);
    ListedNext(digest, ops[..k - 1], ops[k - 1], ops[..k], ops[i].input);
  }

  // ---------------------------------------------------------------------------------------
  // What an offer meets
  // ---------------------------------------------------------------------------------------

  ghost predicate SomeCollides(inputs: seq<Input>, later: Input, stage: Stage) {
    exists x :: x in inputs && Collides(x, later, stage)
  }

  lemma HitsAreCollisions(digest: string -> string, rows: Articles, inputs: seq<Input>, later: Input, stage: Stage)
    requires HoldsInputs(digest, rows, inputs)
    ensures Hits(rows, later, stage) != {} <==> SomeCollides(inputs, later, stage)
  {
    if Hits(rows, later, stage) != {} {
      var id :| id in Hits(rows, later, stage);
      assert IsIdOf(digest, inputs, id);
      var x :| x in inputs && IdOf(digest, x) == id;
      assert InTable(digest, rows, x);
      RowMatchesCollision(x, later, stage);
    }
    if SomeCollides(inputs, later, stage) {
      var x :| x in inputs && Collides(x, later, stage);
      assert InTable(digest, rows, x);
      RowMatchesCollision(x, later, stage);
      assert IdOf(digest, x) in Hits(rows, later, stage);
    }
  }

  /**
   * The stage that turns an offer away is the first, in the order guid, normalised url, canonical url,
   * content hash, title, at which it collides with a stored input.
   */
  lemma FirstCollisionDecides(digest: string -> string, ops: seq<Op>, later: Input)
    ensures var inputs := StoredInputs(digest, ops);
      FirstStage(Run(digest, map[], ops), later) ==
        if SomeCollides(inputs, later, ByGuid) then Some(ByGuid)
        else if SomeCollides(inputs, later, ByNormalizedUrl) then Some(ByNormalizedUrl)
        else if SomeCollides(inputs, later, ByCanonicalUrl) then Some(ByCanonicalUrl)
        else if SomeCollides(inputs, later, ByHash) then Some(ByHash)
        else if SomeCollides(inputs, later, ByTitle) then Some(ByTitle)
        else None
  {
    var rows, inputs := Run(digest, map[], ops), StoredInputs(digest, ops);
    RunHoldsInputs(digest, ops);
    HitsAreCollisions(digest, rows, inputs, later, ByGuid);
    HitsAreCollisions(digest, rows, inputs, later, ByNormalizedUrl);
    HitsAreCollisions(digest, rows, inputs, later, ByCanonicalUrl);
    HitsAreCollisions(digest, rows, inputs, later, ByHash);
    HitsAreCollisions(digest, rows, inputs, later, ByTitle);
  }

  /** No stored input collides with it, or has its id. */
  ghost predicate IsNew(digest: string -> string, inputs: seq<Input>, later: Input) {
    && !SomeCollides(inputs, later, ByGuid)
    && !SomeCollides(inputs, later, ByNormalizedUrl)
    && !SomeCollides(inputs, later, ByCanonicalUrl)
    && !SomeCollides(inputs, later, ByHash)
    && !SomeCollides(inputs, later, ByTitle)
    && !IsIdOf(digest, inputs, IdOf(digest, later))
  }

  lemma IdTaken(digest: string -> string, rows: Articles, inputs: seq<Input>, id: ArticleId)
    requires HoldsInputs(digest, rows, inputs)
    ensures id in rows <==> IsIdOf(digest, inputs, id)
  {
    if IsIdOf(digest, inputs, id) {
      var x :| x in inputs && IdOf(digest, x) == id;
      assert InTable(digest, rows, x);
    }
  }

  lemma StoredMeans(digest: string -> string, rows: Articles, later: Input, weather: Weather)
    ensures Takes(digest, rows, Offer(later, weather)) <==>
            weather == Healthy && FirstStage(rows, later) == None && IdOf(digest, later) !in rows
  {
  }

  /** After any run from the empty store: an offer is stored exactly when it is new and the database works. */
  lemma StoredExactlyWhenItIsNew(digest: string -> string, ops: seq<Op>, later: Input, weather: Weather)
    ensures IsStored(digest, ops, Offer(later, weather)) <==>
            weather == Healthy && IsNew(digest, StoredInputs(digest, ops), later)
  {
    RunHoldsInputs(digest, ops);
    FirstCollisionDecides(digest, ops, later);
    IdTaken(digest, Run(digest, map[], ops), StoredInputs(digest, ops), IdOf(digest, later));
    StoredMeans(digest, Run(digest, map[], ops), later, weather);
  }

  /**
   * Of two offers of one run that collide, the later one is not stored if the earlier one was: so two
   * stored articles never share a normalised url, a content hash or a feed and guid, nor is the later
   * one's canonical url the earlier one's normalised url.
   */
  lemma CollidingOffersAreNotBothStored(digest: string -> string, ops: seq<Op>, i: nat, k: nat, stage: Stage)
    requires i < k < |ops| && ops[i].Offer? && ops[k].Offer?
    requires Collides(ops[i].input, ops[k].input, stage)
    ensures !(IsStored(digest, ops[..i], ops[i]) && IsStored(digest, ops[..k], ops[k]))
  {
    if IsStored(digest, ops[..i], ops[i]) {
      StoredIsListed(digest, ops, i, k);
      assert SomeCollides(StoredInputs(digest, ops[..k]), ops[k].input, stage);
      assert ops[k] == Offer(ops[k].input, ops[k].weather);
      StoredExactlyWhenItIsNew(digest, ops[..k], ops[k].input, ops[k].weather);
    }
  }
}
