/**
 * The "no more than N consecutive cards from one source" reordering of the curated digests
 * (store/articles_query.go).
 */
module SourceDiversity {
  import opened Seqs

  datatype Card = Card(id: string, source: string)

  /** The card may not be taken now: its source has just filled its quota. */
  predicate Held(c: Card, last: string, run: nat, max: nat) {
    c.source == last && run >= max
  }

  /** The first card that may be taken, or 0 when all are held. */
  function PickIndex(pending: seq<Card>, last: string, run: nat, max: nat): (k: nat)
    requires pending != []
    ensures k < |pending|
    ensures forall i | 0 <= i < k :: Held(pending[i], last, run, max)
    ensures Held(pending[k], last, run, max) ==> k == 0 && forall i | 0 <= i < |pending| ::
        Held(pending[i], last, run, max)
  {
    var k := FirstFree(pending, last, run, max);
    if k == |pending| then 0 else k
  }

  function FirstFree(pending: seq<Card>, last: string, run: nat, max: nat): (k: nat)
    ensures k <= |pending|
    ensures forall i | 0 <= i < k :: Held(pending[i], last, run, max)
    ensures k < |pending| ==> !Held(pending[k], last, run, max)
  {
    if pending == [] || !Held(pending[0], last, run, max) then 0
    else 1 + FirstFree(pending[1..], last, run, max)
  }

  function NextRun(c: Card, last: string, run: nat): nat {
    if c.source == last then run + 1 else 1
  }

  /** The cards in the order they are taken. */
  function Diversified(pending: seq<Card>, last: string, run: nat, max: nat): (out: seq<Card>)
    ensures |out| == |pending|
    decreases |pending|
  {
    if pending == [] then []
    else
      var k := PickIndex(pending, last, run, max);
      var c := pending[k];
      [c] + Diversified(pending[..k] + pending[k + 1..], c.source, NextRun(c, last, run), max)
  }

  /** The inner scan: skips held cards, and falls back to the first one. */
  method ScanForFree(pending: seq<Card>, lastSource: string, run: nat, max: nat) returns (picked: nat)
    requires pending != []
    ensures picked == PickIndex(pending, lastSource, run, max)
  {
    picked := 0;
    var i := 0;
    while i < |pending|
      invariant i <= |pending| && picked == 0
      invariant forall j | 0 <= j < i :: Held(pending[j], lastSource, run, max)
    {
      var c := pending[i];
      if c.source == lastSource && run >= max {
        i := i + 1;
        continue;
      }
      picked := i;
      break;
    }
    PickUnique(pending, lastSource, run, max, i);
  }

  /** Reorders the cards, taking from `pending` until it is empty. */
  method ApplySourceDiversity(cards: seq<Card>, maxConsecutive: int) returns (out: seq<Card>)
    ensures maxConsecutive <= 0 ==> out == cards
    ensures maxConsecutive > 0 ==> out == Diversified(cards, "", 0, maxConsecutive)
  {
    if maxConsecutive <= 0 || |cards| < 3 {
      if maxConsecutive > 0 {
        ShortListKept(cards, maxConsecutive);
      }
      return cards;
    }
    out := [];
    var pending := cards;
    var lastSource := "";
    var run := 0;
    while pending != []
      invariant run >= 0 && OnTheWay(cards, out, pending, lastSource, run, maxConsecutive)
      decreases |pending|
    {
      var picked := ScanForFree(pending, lastSource, run, maxConsecutive);
      TakeStep(cards, out, pending, lastSource, run, maxConsecutive);
      var c := pending[picked];
      pending := pending[..picked] + pending[picked + 1..];
      if c.source == lastSource {
        run := run + 1;
      } else {
        run := 1;
        lastSource := c.source;
      }
      out := out + [c];
    }
  }

  /** What is taken so far, completed by what is still to be taken, is the whole result. */
  ghost predicate OnTheWay(cards: seq<Card>, out: seq<Card>, pending: seq<Card>, last: string, run: nat, max: nat) {
    out + Diversified(pending, last, run, max) == Diversified(cards, "", 0, max)
  }

  lemma TakeStep(cards: seq<Card>, out: seq<Card>, pending: seq<Card>, last: string, run: nat, max: nat)
    requires pending != [] && OnTheWay(cards, out, pending, last, run, max)
    ensures var k := PickIndex(pending, last, run, max);
            var c := pending[k];
            OnTheWay(cards, out + [c], pending[..k] + pending[k + 1..], c.source, NextRun(c, last, run), max)
  {
    var k := PickIndex(pending, last, run, max);
    var c := pending[k];
    var later := Diversified(pending[..k] + pending[k + 1..], c.source, NextRun(c, last, run), max);
    assert out + ([c] + later) == out + [c] + later;
  }

  lemma PickUnique(pending: seq<Card>, last: string, run: nat, max: nat, i: nat)
    requires pending != [] && i <= |pending|
    requires forall j | 0 <= j < i :: Held(pending[j], last, run, max)
    requires i < |pending| ==> !Held(pending[i], last, run, max)
    ensures PickIndex(pending, last, run, max) == if i == |pending| then 0 else i
  {
    var k := FirstFree(pending, last, run, max);
  }

  lemma ShortListKept(cards: seq<Card>, max: nat)
    requires |cards| < 3 && max >= 1
    ensures Diversified(cards, "", 0, max) == cards
  {
    if |cards| >= 1 {
      var c := cards[0];
      var run := NextRun(c, "", 0);
      assert cards[..0] + cards[1..] == cards[1..];
      if |cards| == 2 {
        var rest := cards[1..];
        assert rest[..0] + rest[1..] == [];
        assert Diversified(rest, c.source, run, max) == rest;
        assert [c] + rest == cards;
      } else {
        assert cards[1..] == [] && Diversified([], c.source, run, max) == [];
        assert cards == [c];
      }
    }
  }

  // ---------------------------------------------------------------------------------------
  // Same cards, each source's in its own order
  // ---------------------------------------------------------------------------------------

  function OfSource(cards: seq<Card>, s: string): seq<Card> {
    Filter(cards, (c: Card) => c.source == s)
  }

  lemma OfSourceConcat(a: seq<Card>, b: seq<Card>, s: string)
    ensures OfSource(a + b, s) == OfSource(a, s) + OfSource(b, s)
  {
    FilterConcat(a, b, (c: Card) => c.source == s);
  }

  lemma OfSourceNone(a: seq<Card>, s: string)
    requires forall i | 0 <= i < |a| :: a[i].source != s
    ensures OfSource(a, s) == []
  {
    FilterNone(a, (c: Card) => c.source == s);
  }

  lemma SwapEmpty(a: seq<Card>, x: seq<Card>, b: seq<Card>)
    requires a == [] || x == []
    ensures a + (x + b) == x + (a + b)
  {
  }

  /** Taking the first free card leaves each source's own order alone. */
  lemma TakingKeepsOrder(pending: seq<Card>, k: nat, s: string)
    requires k < |pending|
    requires pending[k].source == s ==> forall i | 0 <= i < k :: pending[i].source != s
    ensures OfSource(pending, s)
            == OfSource([pending[k]], s) + OfSource(pending[..k] + pending[k + 1..], s)
  {
    var a, x, b := pending[..k], [pending[k]], pending[k + 1..];
    assert pending == a + (x + b);
    OfSourceConcat(a, x + b, s);
    OfSourceConcat(x, b, s);
    OfSourceConcat(a, b, s);
    if pending[k].source == s {
      OfSourceNone(a, s);
    } else {
      OfSourceNone(x, s);
    }
    SwapEmpty(OfSource(a, s), OfSource(x, s), OfSource(b, s));
  }

  lemma PickedComesFirst(pending: seq<Card>, last: string, run: nat, max: nat)
    requires pending != []
    ensures var k := PickIndex(pending, last, run, max);
            forall i | 0 <= i < k :: pending[i].source != pending[k].source
  {
  }

  /** The reordering keeps, for every source, exactly its cards in their own order. */
  lemma {:induction false} KeepsEachSource(pending: seq<Card>, last: string, run: nat, max: nat, s: string)
    ensures OfSource(Diversified(pending, last, run, max), s) == OfSource(pending, s)
    decreases |pending|
  {
    if pending != [] {
      var k := PickIndex(pending, last, run, max);
      var c := pending[k];
      var rest := pending[..k] + pending[k + 1..];
      PickedComesFirst(pending, last, run, max);
      TakingKeepsOrder(pending, k, s);
      KeepsEachSource(rest, c.source, NextRun(c, last, run), max, s);
      FilterConcat([c], Diversified(rest, c.source, NextRun(c, last, run), max), (d: Card) => d.source == s);
    }
  }

  /** It is a permutation. */
  lemma {:induction false} IsPermutation(pending: seq<Card>, last: string, run: nat, max: nat)
    ensures multiset(Diversified(pending, last, run, max)) == multiset(pending)
    decreases |pending|
  {
    if pending != [] {
      var k := PickIndex(pending, last, run, max);
      var rest := pending[..k] + pending[k + 1..];
      IsPermutation(rest, pending[k].source, NextRun(pending[k], last, run), max);
      assert pending == pending[..k] + [pending[k]] + pending[k + 1..];
    }
  }

  // ---------------------------------------------------------------------------------------
  // Runs within the cap
  // ---------------------------------------------------------------------------------------

  /**
   * Reading on from a run of `run` cards of `last`: wherever a run goes past the cap, everything
   * from there on is of the same source.
   */
  predicate CappedFrom(cards: seq<Card>, last: string, run: nat, max: nat) {
    cards == [] ||
    ((Held(cards[0], last, run, max) ==> forall i | 0 <= i < |cards| :: cards[i].source == last)
     && CappedFrom(cards[1..], cards[0].source, NextRun(cards[0], last, run), max))
  }

  lemma SameCards(a: seq<Card>, b: seq<Card>, s: string)
    requires multiset(a) == multiset(b) && forall i | 0 <= i < |a| :: a[i].source == s
    ensures forall i | 0 <= i < |b| :: b[i].source == s
  {
    forall i | 0 <= i < |b|
      ensures b[i].source == s
    {
      assert b[i] in multiset(b);
      assert b[i] in a;
    }
  }

  /** A run of the result exceeds the cap only where all that is left is from that one source. */
  lemma {:induction false} ResultIsCapped(pending: seq<Card>, last: string, run: nat, max: nat)
    ensures CappedFrom(Diversified(pending, last, run, max), last, run, max)
    decreases |pending|
  {
    if pending != [] {
      var k := PickIndex(pending, last, run, max);
      var c := pending[k];
      var out := Diversified(pending, last, run, max);
      if Held(c, last, run, max) {
        IsPermutation(pending, last, run, max);
        SameCards(pending, out, last);
      }
      ResultIsCapped(pending[..k] + pending[k + 1..], c.source, NextRun(c, last, run), max);
    }
  }

  /** A list that is already like that is left unchanged. */
  lemma {:induction false} CappedIsUnchanged(cards: seq<Card>, last: string, run: nat, max: nat)
    requires CappedFrom(cards, last, run, max)
    ensures Diversified(cards, last, run, max) == cards
    decreases |cards|
  {
    if cards != [] {
      var k := PickIndex(cards, last, run, max);
      assert Held(cards[0], last, run, max) ==> k == 0;
      assert cards[..0] + cards[1..] == cards[1..];
      CappedIsUnchanged(cards[1..], cards[0].source, NextRun(cards[0], last, run), max);
    }
  }

  /** Applying it twice is applying it once. */
  lemma ApplyingTwice(cards: seq<Card>, max: nat)
    ensures var once := Diversified(cards, "", 0, max); Diversified(once, "", 0, max) == once
  {
    ResultIsCapped(cards, "", 0, max);
    CappedIsUnchanged(Diversified(cards, "", 0, max), "", 0, max);
  }

  // ---------------------------------------------------------------------------------------
  // The same in terms of positions
  // ---------------------------------------------------------------------------------------

  /** The length of the run that ends at position k. */
  function RunEndingAt(cards: seq<Card>, k: nat): nat
    requires k < |cards|
  {
    if k == 0 || cards[k - 1].source != cards[k].source then 1 else RunEndingAt(cards, k - 1) + 1
  }

  /** No run is longer than the cap. */
  predicate WithinCap(cards: seq<Card>, max: nat) {
    forall k | 0 <= k < |cards| :: RunEndingAt(cards, k) <= max
  }

  /** The reader's state just before position k. */
  function LastBefore(cards: seq<Card>, k: nat): string
    requires k <= |cards|
  {
    if k == 0 then "" else cards[k - 1].source
  }

  function RunBefore(cards: seq<Card>, k: nat): nat
    requires k <= |cards|
  {
    if k == 0 then 0 else RunEndingAt(cards, k - 1)
  }

  predicate CappedAt(cards: seq<Card>, k: nat, max: nat)
    requires k <= |cards|
  {
    CappedFrom(cards[k..], LastBefore(cards, k), RunBefore(cards, k), max)
  }

  lemma RunBeforeNext(cards: seq<Card>, k: nat)
    requires k < |cards|
    ensures NextRun(cards[k], LastBefore(cards, k), RunBefore(cards, k)) == RunEndingAt(cards, k)
        == RunBefore(cards, k + 1)
  {
  }

  /** One position: the run may go past the cap only where one source is left. */
  lemma CappedAtOne(cards: seq<Card>, k: nat, max: nat)
    requires max >= 1 && k < |cards|
    ensures CappedAt(cards, k, max) <==>
      (RunEndingAt(cards, k) > max ==> OneSourceFrom(cards, k)) && CappedAt(cards, k + 1, max)
  {
    var rest := cards[k..];
    assert rest[1..] == cards[k + 1..];
    RunBeforeNext(cards, k);
    assert Held(cards[k], LastBefore(cards, k), RunBefore(cards, k), max) <==> RunEndingAt(cards, k) > max;
    assert OneSourceFrom(cards, k) <==> forall i | 0 <= i < |rest| :: rest[i].source == cards[k].source by {
      assert forall i | k <= i < |cards| :: cards[i] == rest[i - k];
    }
  }

  lemma {:induction false} CappedAtPositions(cards: seq<Card>, k: nat, max: nat)
    requires max >= 1 && k <= |cards|
    ensures CappedAt(cards, k, max)
        <==> forall m | k <= m < |cards| && RunEndingAt(cards, m) > max :: OneSourceFrom(cards, m)
    decreases |cards| - k
  {
    if k < |cards| {
      CappedAtPositions(cards, k + 1, max);
      CappedAtOne(cards, k, max);
    }
  }

  predicate OneSourceFrom(cards: seq<Card>, k: nat)
    requires k < |cards|
  {
    forall i | k <= i < |cards| :: cards[i].source == cards[k].source
  }

  /**
   * For a positive cap: in the result, a run longer than the cap ends only at positions from
   * which every card to the end is of the same source.
   */
  lemma LongRunsOnlyAtTheEnd(cards: seq<Card>, max: nat, m: nat)
    requires max >= 1 && m < |cards|
    requires RunEndingAt(Diversified(cards, "", 0, max), m) > max
    ensures OneSourceFrom(Diversified(cards, "", 0, max), m)
  {
    var out := Diversified(cards, "", 0, max);
    ResultIsCapped(cards, "", 0, max);
    assert out[0..] == out;
    CappedAtPositions(out, 0, max);
  }

  /** A list within the cap comes back unchanged; so does any whose only long run is its tail. */
  lemma WithinCapUnchanged(cards: seq<Card>, max: nat)
    requires max >= 1
    ensures Diversified(cards, "", 0, max) == cards
            <==> forall m | 0 <= m < |cards| && RunEndingAt(cards, m) > max :: OneSourceFrom(cards, m)
    ensures WithinCap(cards, max) ==> Diversified(cards, "", 0, max) == cards
  {
    assert cards[0..] == cards;
    if forall m | 0 <= m < |cards| && RunEndingAt(cards, m) > max :: OneSourceFrom(cards, m) {
      CappedAtPositions(cards, 0, max);
      CappedIsUnchanged(cards, "", 0, max);
    }
    if Diversified(cards, "", 0, max) == cards {
      forall m | 0 <= m < |cards| && RunEndingAt(cards, m) > max
        ensures OneSourceFrom(cards, m)
      {
        LongRunsOnlyAtTheEnd(cards, max, m);
      }
    }
  }
}
