/**
 * The recent-search list of the Android app (core/datastore/SettingsStore.kt): at most eight
 * queries, kept in one newline-joined preference.
 */
module RecentSearches {
  import opened Wrappers
  import opened Seqs
  import opened Text

  const MAX_RECENT_SEARCHES: nat := 8

  function OrEmpty(stored: Option<string>): string {
    if stored.Some? then stored.value else ""
  }

  predicate NotBlank(s: string) {
    !IsBlank(s)
  }

  class SettingsStore {
    var recent: Option<string>

    constructor ()
      ensures recent == None == Stored([])
    {
      recent := None;
    }

    /** The list the app shows. */
    function RecentSearches(): seq<string>
      reads this
    {
      ReadBack(recent)
    }

    /** Moves the query to the front, once; shorter than two characters after trimming is ignored. */
    method AddRecentSearch(query: string)
      modifies this
      ensures recent == AfterAdd(old(recent), query)
    {
      var trimmed := TrimSpace(query);
      if |trimmed| >= 2 {
        var others := Filter(Split(OrEmpty(recent), '\n'), s => NotBlank(s) && s != trimmed);
        var updated := Take([trimmed] + others, MAX_RECENT_SEARCHES);
        recent := Some(Join(updated, '\n'));
      }
    }

    method ClearRecentSearches()
      modifies this
      ensures recent == None
    {
      recent := None;
    }
  }

  function ReadBack(stored: Option<string>): seq<string> {
    if stored.None? then [] else Filter(Split(stored.value, '\n'), s => NotBlank(s))
  }

  function AfterAdd(stored: Option<string>, query: string): Option<string> {
    var trimmed := TrimSpace(query);
    if |trimmed| < 2 then stored
    else
      var others := Filter(Split(OrEmpty(stored), '\n'), s => NotBlank(s) && s != trimmed);
      Some(Join(Take([trimmed] + others, MAX_RECENT_SEARCHES), '\n'))
  }

  // ---------------------------------------------------------------------------------------
  // The unbounded history
  // ---------------------------------------------------------------------------------------

  datatype Op = Add(query: string) | Clear

  /** What an operation does to the history. */
  function HistoryStep(h: seq<string>, op: Op): seq<string> {
    match op
    case Clear => []
    case Add(q) => if |TrimSpace(q)| >= 2 then h + [TrimSpace(q)] else h
  }

  /** What an operation does to the preference. */
  function StoredStep(stored: Option<string>, op: Op): Option<string> {
    match op
    case Clear => None
    case Add(q) => AfterAdd(stored, q)
  }

  /** Accepted queries since the last clear, oldest first, repetitions included. */
  function History(ops: seq<Op>): seq<string> {
    if ops == [] then [] else HistoryStep(History(ops[..|ops| - 1]), ops[|ops| - 1])
  }

  /** The preference after a run from the empty store. */
  function Stored(ops: seq<Op>): Option<string> {
    if ops == [] then None else StoredStep(Stored(ops[..|ops| - 1]), ops[|ops| - 1])
  }

  /** Each operation on the store is one step of the run. */
  method Perform(store: SettingsStore, op: Op, ghost ops: seq<Op>)
    requires store.recent == Stored(ops)
    modifies store
    ensures store.recent == Stored(ops + [op])
    ensures store.RecentSearches() == ReadBack(Stored(ops + [op]))
  {
    assert (ops + [op])[..|ops|] == ops;
    match op {
      case Add(query) => store.AddRecentSearch(query);
      case Clear => store.ClearRecentSearches();
    }
  }

  /** The distinct entries of the history, most recently used first. */
  function MostRecent(h: seq<string>): seq<string> {
    if h == [] then []
    else
      var last := h[|h| - 1];
      [last] + Filter(MostRecent(h[..|h| - 1]), s => s != last)
  }

  /** The position of the last use of an entry. */
  function LastUse(h: seq<string>, s: string): (k: nat)
    requires s in h
    ensures k < |h| && h[k] == s && forall i | k < i < |h| :: h[i] != s
  {
    if h[|h| - 1] == s then |h| - 1 else LastUse(h[..|h| - 1], s)
  }

  /** Entries appear once, all of them, in the order of their last use. */
  ghost predicate ByLastUse(l: seq<string>, h: seq<string>) {
    && (forall s :: s in l <==> s in h)
    && InOrder(l, h)
  }

  predicate UsedAfter(h: seq<string>, a: string, b: string) {
    a in h && b in h && LastUse(h, a) > LastUse(h, b)
  }

  lemma LastUseGrows(h: seq<string>, last: string, s: string)
    requires s in h && s != last
    ensures s in h + [last] && LastUse(h + [last], s) == LastUse(h, s)
  {
    assert (h + [last])[..|h|] == h;
    assert (h + [last])[LastUse(h, s)] == s;
  }

  lemma {:induction false} FilterOrder(l: seq<string>, p: string -> bool, i: nat, j: nat) returns (a: nat, b: nat)
    requires i < j < |Filter(l, p)|
    ensures a < b < |l| && l[a] == Filter(l, p)[i] && l[b] == Filter(l, p)[j]
  {
    if p(l[0]) {
      if i == 0 {
        a := 0;
        var x := Filter(l[1..], p)[j - 1];
        assert x in l[1..];
        b :| 0 < b < |l| && l[b] == x by {
          var k :| 0 <= k < |l[1..]| && l[1..][k] == x;
          assert l[k + 1] == x;
        }
      } else {
        a, b := FilterOrder(l[1..], p, i - 1, j - 1);
        a, b := a + 1, b + 1;
      }
    } else {
      a, b := FilterOrder(l[1..], p, i, j);
      a, b := a + 1, b + 1;
    }
  }

  lemma {:induction false} MostRecentMembers(h: seq<string>, s: string)
    ensures s in MostRecent(h) <==> s in h
  {
    if h != [] {
      var rest, last := h[..|h| - 1], h[|h| - 1];
      assert h == rest + [last];
      MostRecentMembers(rest, s);
      if s in rest && s != last {
        FilterKeepsMembers(MostRecent(rest), (t: string) => t != last, s);
      }
    }
  }

  /** A pair in order stays in order when neither is the newest query. */
  lemma OrderKept(rest: seq<string>, last: string, a: string, b: string)
    requires UsedAfter(rest, a, b) && a != last && b != last
    ensures UsedAfter(rest + [last], a, b)
  {
    LastUseGrows(rest, last, a);
    LastUseGrows(rest, last, b);
  }

  lemma NewestFirst(rest: seq<string>, last: string, b: string)
    requires b in rest && b != last
    ensures UsedAfter(rest + [last], last, b)
  {
    LastUseGrows(rest, last, b);
    assert (rest + [last])[|rest|] == last;
  }

  lemma Promoted(rest: seq<string>, last: string)
    ensures MostRecent(rest + [last]) == [last] + Filter(MostRecent(rest), s => s != last)
  {
    assert (rest + [last])[..|rest|] == rest;
  }

  /** The entries of l are in the order of their last use in h. */
  ghost predicate InOrder(l: seq<string>, h: seq<string>) {
    forall i, j | 0 <= i < j < |l| :: UsedAfter(h, l[i], l[j])
  }

  /** Everything in l was used before a. */
  ghost predicate AllAfter(h: seq<string>, a: string, l: seq<string>) {
    forall k | 0 <= k < |l| :: UsedAfter(h, a, l[k])
  }

  lemma PromotedHead(rest: seq<string>, last: string, list: seq<string>)
    requires forall s | s in list :: s in rest
    ensures AllAfter(rest + [last], last, Filter(list, s => s != last))
  {
    var tail := Filter(list, s => s != last);
    forall k | 0 <= k < |tail|
      ensures UsedAfter(rest + [last], last, tail[k])
    {
      NewestFirst(rest, last, tail[k]);
    }
  }

  lemma PromotedTail(rest: seq<string>, last: string, list: seq<string>)
    requires InOrder(list, rest)
    ensures InOrder(Filter(list, s => s != last), rest + [last])
  {
    var p := (s: string) => s != last;
    var tail := Filter(list, p);
    forall i, j | 0 <= i < j < |tail|
      ensures UsedAfter(rest + [last], tail[i], tail[j])
    {
      var x, y := FilterOrder(list, p, i, j);
      OrderKept(rest, last, tail[i], tail[j]);
    }
  }

  lemma PutFirst(h: seq<string>, a: string, l: seq<string>)
    requires AllAfter(h, a, l) && InOrder(l, h)
    ensures InOrder([a] + l, h)
  {
  }

  lemma {:induction false} MostRecentOrder(h: seq<string>)
    ensures InOrder(MostRecent(h), h)
  {
    if h != [] {
      var rest, last := h[..|h| - 1], h[|h| - 1];
      MostRecentOrder(rest);
      forall s | s in MostRecent(rest)
        ensures s in rest
      {
        MostRecentMembers(rest, s);
      }
      PromotedHead(rest, last, MostRecent(rest));
      PromotedTail(rest, last, MostRecent(rest));
      PutFirst(rest + [last], last, Filter(MostRecent(rest), s => s != last));
      Promoted(rest, last);
      assert h == rest + [last];
    }
  }

  /** MostRecent is exactly the list by last use. */
  lemma MostRecentIsByLastUse(h: seq<string>)
    ensures ByLastUse(MostRecent(h), h)
  {
    forall s
      ensures s in MostRecent(h) <==> s in h
    {
      MostRecentMembers(h, s);
    }
    MostRecentOrder(h);
  }

  // ---------------------------------------------------------------------------------------
  // The stored list refines the history
  // ---------------------------------------------------------------------------------------

  predicate NewlineFree(ops: seq<Op>) {
    forall i | 0 <= i < |ops| && ops[i].Add? :: '\n' !in TrimSpace(ops[i].query)
  }

  predicate Proper(s: string) {
    '\n' !in s && NotBlank(s)
  }

  lemma TrimmedIsNotBlank(q: string)
    requires TrimSpace(q) != ""
    ensures NotBlank(TrimSpace(q))
  {
  }

  lemma {:induction false} DropsAtMostOne(l: seq<string>, x: string)
    requires Distinct(l)
    ensures |Filter(l, s => s != x)| >= |l| - 1
  {
    if l != [] {
      assert Distinct(l[1..]);
      if l[0] == x {
        FilterAll(l[1..], (s: string) => s != x);
      } else {
        DropsAtMostOne(l[1..], x);
      }
    }
  }

  lemma TakeOfPrefix(x: string, a: seq<string>, b: seq<string>, n: nat)
    requires n > 0 && a <= b && (a == b || |a| >= n - 1)
    ensures Take([x] + a, n) == Take([x] + b, n)
  {
  }

  /** Putting an entry in front of a truncated list gives the same first n as of the whole list. */
  lemma TruncateThenPromote(l: seq<string>, x: string, n: nat)
    requires n > 0 && Distinct(l)
    ensures Take([x] + Filter(Take(l, n), s => s != x), n) == Take([x] + Filter(l, s => s != x), n)
  {
    var p := (s: string) => s != x;
    if |l| > n {
      assert l == l[..n] + l[n..];
      FilterConcat(l[..n], l[n..], p);
      DropsAtMostOne(l[..n], x);
    }
    TakeOfPrefix(x, Filter(Take(l, n), p), Filter(l, p), n);
  }

  lemma {:induction false} MostRecentDistinct(h: seq<string>)
    ensures Distinct(MostRecent(h))
  {
    if h != [] {
      var rest, last := h[..|h| - 1], h[|h| - 1];
      MostRecentDistinct(rest);
      FilterDistinct(MostRecent(rest), (s: string) => s != last);
    }
  }

  function Shown(h: seq<string>): seq<string> {
    Take(MostRecent(h), MAX_RECENT_SEARCHES)
  }

  /** How a list of proper entries is stored; an empty list is an absent preference. */
  function Packed(l: seq<string>): Option<string> {
    if l == [] then None else Some(Join(l, '\n'))
  }

  predicate AllProper(l: seq<string>) {
    forall i | 0 <= i < |l| :: Proper(l[i])
  }

  /** Splitting what was packed, without blanks or one given entry. */
  lemma Unpacked(l: seq<string>, x: string)
    requires AllProper(l)
    ensures Filter(Split(OrEmpty(Packed(l)), '\n'), s => NotBlank(s) && s != x) == Filter(l, s => s != x)
    ensures ReadBack(Packed(l)) == l
  {
    if l == [] {
      assert Split("", '\n') == [""];
      FilterNone([""], (s: string) => NotBlank(s) && s != x);
    } else {
      SplitOfJoin(l, '\n');
      FilterAgree(l, (s: string) => NotBlank(s) && s != x, (s: string) => s != x);
      FilterAll(l, (s: string) => NotBlank(s));
    }
  }

  lemma {:induction false} ShownProper(h: seq<string>)
    requires AllProper(h)
    ensures AllProper(Shown(h)) && (Shown(h) != [] <==> h != [])
  {
    forall i | 0 <= i < |Shown(h)|
      ensures Proper(Shown(h)[i])
    {
      var s := MostRecent(h)[i];
      assert s in MostRecent(h);
      MostRecentMembers(h, s);
    }
  }

  /** One accepted query, on a list that is stored as it should be. */
  lemma AddStep(h: seq<string>, query: string)
    requires AllProper(h) && |TrimSpace(query)| >= 2
    ensures AfterAdd(Packed(Shown(h)), query) == Some(Join(Shown(h + [TrimSpace(query)]), '\n'))
  {
    var t := TrimSpace(query);
    ShownProper(h);
    Unpacked(Shown(h), t);
    MostRecentDistinct(h);
    TruncateThenPromote(MostRecent(h), t, MAX_RECENT_SEARCHES);
    assert (h + [t])[..|h|] == h;
  }

  /** The stored value after ops is the packed form of the shown list of h. */
  predicate Tracks(stored: Option<string>, h: seq<string>) {
    AllProper(h) && stored == Packed(Shown(h))
  }

  lemma AcceptedAdd(stored: Option<string>, h: seq<string>, query: string)
    requires Tracks(stored, h) && |TrimSpace(query)| >= 2 && '\n' !in TrimSpace(query)
    ensures Tracks(AfterAdd(stored, query), h + [TrimSpace(query)])
  {
    TrimmedIsNotBlank(query);
    AddStep(h, query);
  }

  lemma OpStep(stored: Option<string>, h: seq<string>, op: Op)
    requires Tracks(stored, h)
    requires op.Add? ==> '\n' !in TrimSpace(op.query)
    ensures Tracks(StoredStep(stored, op), HistoryStep(h, op))
  {
    if op.Add? && |TrimSpace(op.query)| >= 2 {
      AcceptedAdd(stored, h, op.query);
    }
  }

  lemma {:induction false} StoredIsPacked(ops: seq<Op>)
    requires NewlineFree(ops)
    ensures Tracks(Stored(ops), History(ops))
  {
    if ops != [] {
      var rest := ops[..|ops| - 1];
      StoredIsPacked(rest);
      OpStep(Stored(rest), History(rest), ops[|ops| - 1]);
    }
  }

  /**
   * After any run of adds and clears with newline-free queries, the list read back is exactly the
   * up to eight most recently used distinct accepted queries since the last clear, newest first.
   */
  lemma StoredListRefinesHistory(ops: seq<Op>)
    requires NewlineFree(ops)
    ensures ReadBack(Stored(ops)) == Take(MostRecent(History(ops)), 8)
    ensures ByLastUse(MostRecent(History(ops)), History(ops))
  {
    StoredIsPacked(ops);
    ShownProper(History(ops));
    Unpacked(Shown(History(ops)), "");
    MostRecentIsByLastUse(History(ops));
  }

  /** A query with an inner newline is the only way out: it is read back in pieces. */
  lemma NewlineBreaksTheList(h: seq<string>, query: string)
    requires AllProper(h) && |TrimSpace(query)| >= 2
    ensures ReadBack(AfterAdd(Packed(Shown(h)), query)) == Shown(h + [TrimSpace(query)]) <==> '\n' !in TrimSpace(query)
  {
    var t := TrimSpace(query);
    var h' := h + [t];
    AddStep(h, query);
    if '\n' !in t {
      TrimmedIsNotBlank(query);
      ShownProper(h');
      Unpacked(Shown(h'), "");
    } else {
      assert Shown(h')[0] == t;
      var back := ReadBack(AfterAdd(Packed(Shown(h)), query));
      assert forall i | 0 <= i < |back| :: '\n' !in back[i];
    }
  }
}
