/**
 * The per-publisher limiter of the fetcher (feed/fetcher/fetcher.go): a sliding one-minute window
 * whose list is compacted in place, and a semaphore per shortened host.
 */
module DomainLimiter {
  import opened Wrappers
  import opened Seqs
  import opened Text
  import opened Common

  // ---------------------------------------------------------------------------------------
  // Shortened hosts
  // ---------------------------------------------------------------------------------------

  /** The last two labels of the host, in lower case. */
  function NormalizeHost(host: string): string {
    var h := Lower(host);
    var parts := Split(h, '.');
    if |parts| > 2 then Join(parts[|parts| - 2..], '.') else h
  }

  lemma {:induction false} LowerTwice(s: string)
    ensures Lower(Lower(s)) == Lower(s)
  {
  }

  lemma PartIsLower(s: string, i: nat, j: nat)
    requires i <= j <= |s| && Lower(s) == s
    ensures Lower(s[i..j]) == s[i..j]
  {
    forall k | 0 <= k < j - i
      ensures LowerChar(s[i..j][k]) == s[i..j][k]
    {
      assert Lower(s)[i + k] == LowerChar(s[i + k]);
    }
  }

  lemma {:induction false} PartsAreLower(s: string, sep: char)
    requires Lower(s) == s
    ensures forall i | 0 <= i < |Split(s, sep)| :: Lower(Split(s, sep)[i]) == Split(s, sep)[i]
    decreases |s|
  {
    var k := IndexOf(s, sep);
    if k < |s| {
      PartIsLower(s, 0, k);
      PartIsLower(s, k + 1, |s|);
      assert s[0..k] == s[..k] && s[k + 1..|s|] == s[k + 1..];
      PartsAreLower(s[k + 1..], sep);
    }
  }

  /** Acquire and Release shorten the host again and again to the same key. */
  lemma NormalizeIsStable(host: string)
    ensures NormalizeHost(NormalizeHost(host)) == NormalizeHost(host)
  {
    var h := Lower(host);
    LowerTwice(host);
    var parts := Split(h, '.');
    if |parts| > 2 {
      var two := parts[|parts| - 2..];
      SplitOfJoin(two, '.');
      PartsAreLower(h, '.');
      assert Join(two, '.') == two[0] + ['.'] + two[1] by { assert two[1..] == [two[1]]; }
      assert Lower(two[0]) == two[0] && Lower(two[1]) == two[1];
      LowerOfJoin(two[0], two[1]);
    }
  }

  lemma SplitFirst(a: string, sep: char, rest: string)
    requires sep !in a
    ensures Split(a + [sep] + rest, sep) == [a] + Split(rest, sep)
  {
    var s := a + [sep] + rest;
    IndexOfIs(a, sep, rest);
    assert s[..|a|] == a && s[|a| + 1..] == rest;
  }

  lemma SplitWhole(a: string, sep: char)
    requires sep !in a
    ensures Split(a, sep) == [a]
  {
  }

  lemma Regrouped(a: string, sep: char, rest: string, b: string)
    ensures (a + [sep] + rest) + [sep] + b == a + [sep] + (rest + [sep] + b)
  {
  }

  lemma SplitBehind(p: string, a: string, rest: string, sep: char, b: string)
    requires p == a + [sep] + rest && sep !in a
    requires Split(rest + [sep] + b, sep) == Split(rest, sep) + [b]
    ensures Split(p + [sep] + b, sep) == Split(p, sep) + [b]
  {
    Regrouped(a, sep, rest, b);
    SplitFirst(a, sep, rest + [sep] + b);
    SplitFirst(a, sep, rest);
    assert [a] + (Split(rest, sep) + [b]) == [a] + Split(rest, sep) + [b];
  }

  lemma CutAt(p: string, sep: char, k: nat)
    requires k == IndexOf(p, sep) < |p|
    ensures sep !in p[..k] && p == p[..k] + [sep] + p[k + 1..]
  {
  }

  lemma {:induction false} SplitLast(p: string, sep: char, b: string)
    requires sep !in b
    ensures Split(p + [sep] + b, sep) == Split(p, sep) + [b]
    decreases |p|
  {
    var k := IndexOf(p, sep);
    if k == |p| {
      SplitFirst(p, sep, b);
      SplitWhole(b, sep);
      SplitWhole(p, sep);
    } else {
      SplitLast(p[k + 1..], sep, b);
      CutAt(p, sep, k);
      SplitBehind(p, p[..k], p[k + 1..], sep, b);
    }
  }

  lemma LowerOfParts(a: string, b: string)
    ensures Lower(a + ['.'] + b) == Lower(a) + ['.'] + Lower(b)
    ensures '.' in Lower(a) <==> '.' in a
  {
    assert forall i | 0 <= i < |a| :: Lower(a)[i] == LowerChar(a[i]);
  }

  /** The publisher of a.b is a.b in small letters. */
  lemma ShortHostKept(a: string, b: string)
    requires '.' !in a && '.' !in b
    ensures NormalizeHost(a) == Lower(a)
    ensures NormalizeHost(a + ['.'] + b) == Lower(a) + ['.'] + Lower(b)
  {
    LowerOfParts(a, b);
    LowerOfParts(b, a);
    SplitLast(Lower(a), '.', Lower(b));
    assert Split(Lower(a), '.') == [Lower(a)];
  }

  /** So is the publisher of everything below it. */
  lemma KeepsLastTwoLabels(p: string, a: string, b: string)
    requires '.' !in a && '.' !in b
    ensures NormalizeHost(p + ['.'] + a + ['.'] + b) == Lower(a) + ['.'] + Lower(b)
  {
    var la, lb := Lower(a), Lower(b);
    LowerOfParts(p + ['.'] + a, b);
    LowerOfParts(p, a);
    LowerOfParts(a, b);
    LowerOfParts(b, a);
    SplitLast(Lower(p) + ['.'] + la, '.', lb);
    SplitLast(Lower(p), '.', la);
    LastTwo(Split(Lower(p), '.'), la, lb);
    JoinTwo(la, lb);
  }

  lemma LastTwo(front: seq<string>, a: string, b: string)
    ensures var parts := front + [a] + [b]; parts[|parts| - 2..] == [a, b]
  {
  }

  lemma JoinTwo(a: string, b: string)
    ensures Join([a, b], '.') == a + ['.'] + b
  {
    assert [a, b][1..] == [b];
  }

  lemma LowerOfJoin(a: string, b: string)
    requires Lower(a) == a && Lower(b) == b
    ensures Lower(a + ['.'] + b) == a + ['.'] + b
  {
    forall i | 0 <= i < |a| ensures LowerChar(a[i]) == a[i] { assert Lower(a)[i] == LowerChar(a[i]); }
    forall i | 0 <= i < |b| ensures LowerChar(b[i]) == b[i] { assert Lower(b)[i] == LowerChar(b[i]); }
  }

  // ---------------------------------------------------------------------------------------
  // The window
  // ---------------------------------------------------------------------------------------

  predicate Young(now: int, t: int) {
    now - t < MINUTE
  }

  function Kept(times: seq<int>, now: int): seq<int> {
    Filter(times, t => Young(now, t))
  }

  /** Moves the entries younger than a minute to the front of the list's own storage. */
  method CompactInPlace(times: array<int>, now: int) returns (k: nat)
    modifies times
    ensures k <= times.Length && times[..k] == Kept(old(times[..]), now)
  {
    k := 0;
    ghost var was := times[..];
    for i := 0 to times.Length
      invariant k <= i
      invariant times[..k] == Kept(was[..i], now)
      invariant times[i..] == was[i..]
    {
      var t := times[i];
      assert t == times[i..][0] == was[i];
      assert was[..i + 1] == was[..i] + [t];
      FilterConcat(was[..i], [t], x => Young(now, x));
      if now - t < MINUTE {
        times[k] := t;
        k := k + 1;
      }
      assert times[i + 1..] == was[i + 1..] by {
        assert was[i..][1..] == was[i + 1..];
      }
    }
    assert was[..times.Length] == was;
  }

  function WaitFor(kept: seq<int>, perMin: nat, now: int): int
    requires perMin >= 1
  {
    if |kept| >= perMin then MINUTE - (now - kept[0]) else 0
  }

  function WindowOf(window: map<string, seq<int>>, key: string): seq<int> {
    if key in window then window[key] else []
  }

  /** When a call that reads the clock at `now` and is `late` beyond its wait gets in. */
  function AdmitTime(window: map<string, seq<int>>, perMin: nat, key: string, now: int, late: nat): int
    requires perMin >= 1
  {
    now + Max(0, WaitFor(Kept(WindowOf(window, key), now), perMin, now)) + late
  }

  /** When a call is over: a cancelled one returns at any time after it started, however long its wait. */
  function EndTime(window: map<string, seq<int>>, perMin: nat, key: string, now: int, late: nat, admitted: bool): int
    requires perMin >= 1
  {
    if admitted then AdmitTime(window, perMin, key, now, late) else now + late
  }

  /** The window table after a call; a cancelled call only compacts. */
  function AfterAcquire(window: map<string, seq<int>>, perMin: nat, key: string, now: int, late: nat, admitted: bool)
    : map<string, seq<int>>
    requires perMin >= 1
  {
    var kept := Kept(WindowOf(window, key), now);
    window[key := if admitted then kept + [AdmitTime(window, perMin, key, now, late)] else kept]
  }

  class Limiter {
    const perMin: nat
    var window: map<string, seq<int>>

    constructor (perMin: nat)
      requires perMin >= 1
      ensures this.perMin == perMin && window == map[]
    {
      this.perMin := perMin;
      window := map[];
    }

    /**
     * One call: `late` is how long an admitted call takes beyond its wait, or how long after its
     * start a cancelled one returns.
     */
    method Acquire(host: string, now: int, late: nat, cancelled: bool) returns (admitted: bool, at: int)
      requires perMin >= 1
      modifies this
      ensures admitted == !cancelled
      ensures window == AfterAcquire(old(window), perMin, NormalizeHost(host), now, late, admitted)
      ensures at == EndTime(old(window), perMin, NormalizeHost(host), now, late, admitted)
    {
      var key := NormalizeHost(host);
      var times := if key in window then window[key] else [];
      var buffer := new int[|times|](i requires 0 <= i < |times| => times[i]);
      assert buffer[..] == times;
      var k := CompactInPlace(buffer, now);
      var kept := buffer[..k];
      window := window[key := kept];
      var wait := 0;
      if |kept| >= perMin {
        wait := MINUTE - (now - kept[0]);
      }
      if cancelled {
        return false, now + late;
      }
      at := now;
      if wait > 0 {
        at := at + wait;
      }
      at := at + late;
      window := window[key := window[key] + [at]];
      assert window == old(window)[key := kept + [at]];
      return true, at;
    }
  }

  // ---------------------------------------------------------------------------------------
  // Calls made one after another
  // ---------------------------------------------------------------------------------------

  datatype Call = Call(key: string, now: int, late: nat, admitted: bool)

  function WindowAfter(perMin: nat, calls: seq<Call>): map<string, seq<int>>
    requires perMin >= 1
  {
    if calls == [] then map[]
    else
      var c := calls[|calls| - 1];
      AfterAcquire(WindowAfter(perMin, calls[..|calls| - 1]), perMin, c.key, c.now, c.late, c.admitted)
  }

  /** When the last call is over. */
  function EndOf(perMin: nat, calls: seq<Call>): int
    requires perMin >= 1 && calls != []
  {
    var c := calls[|calls| - 1];
    EndTime(WindowAfter(perMin, calls[..|calls| - 1]), perMin, c.key, c.now, c.late, c.admitted)
  }

  /** Each call starts after the one before it is over. */
  predicate OneAfterAnother(perMin: nat, calls: seq<Call>)
    requires perMin >= 1
  {
    calls == [] ||
    (var before := calls[..|calls| - 1];
     OneAfterAnother(perMin, before)
     && (before != [] ==> EndOf(perMin, before) <= calls[|calls| - 1].now))
  }

  /** The times at which calls for the key got in. */
  function Admissions(perMin: nat, calls: seq<Call>, key: string): seq<int>
    requires perMin >= 1
  {
    if calls == [] then []
    else
      var c := calls[|calls| - 1];
      Admissions(perMin, calls[..|calls| - 1], key)
      + (if c.key == key && c.admitted then [EndOf(perMin, calls)] else [])
  }

  predicate Increasing(a: seq<int>) {
    forall i, j | 0 <= i <= j < |a| :: a[i] <= a[j]
  }

  predicate SpacedBy(a: seq<int>, n: nat) {
    forall i, j | 0 <= i && j < |a| && j - i >= n :: a[j] - a[i] >= MINUTE
  }

  /** The window is the tail of the admissions; what it has dropped is a minute old or more. */
  predicate Tail(w: seq<int>, a: seq<int>, now: int) {
    && |w| <= |a| && w == a[|a| - |w|..]
    && forall i | 0 <= i < |a| - |w| :: now - a[i] >= MINUTE
  }

  lemma {:induction false} KeptIsTail(w: seq<int>, now: int)
    requires Increasing(w)
    ensures var k := Kept(w, now);
            && |k| <= |w| && k == w[|w| - |k|..]
            && (forall i | 0 <= i < |w| - |k| :: !Young(now, w[i]))
            && (forall i | 0 <= i < |k| :: Young(now, k[i]))
  {
    if w != [] {
      var p := (t: int) => Young(now, t);
      if p(w[0]) {
        FilterAll(w, p);
      } else {
        assert Increasing(w[1..]);
        KeptIsTail(w[1..], now);
      }
    }
  }

  /** Compaction keeps the tail, which then has at most perMin entries. */
  lemma KeptOfTail(w: seq<int>, a: seq<int>, perMin: nat, before: int, now: int)
    requires perMin >= 1 && before <= now && Increasing(a) && SpacedBy(a, perMin)
    requires Tail(w, a, before) && (a != [] ==> a[|a| - 1] <= now)
    ensures Tail(Kept(w, now), a, now) && |Kept(w, now)| <= perMin
    ensures forall i | 0 <= i < |Kept(w, now)| :: Young(now, Kept(w, now)[i])
  {
    var off := |a| - |w|;
    assert Increasing(w);
    KeptIsTail(w, now);
    var k := Kept(w, now);
    forall i | 0 <= i < |a| - |k|
      ensures now - a[i] >= MINUTE
    {
      if i >= off {
        assert a[i] == w[i - off];
      }
    }
    assert k != [] ==> k[0] == a[|a| - |k|] && a[|a| - 1] - k[0] < MINUTE;
  }

  /** The next admission is a minute or more after the one perMin places before it. */
  lemma AppendAdmission(k: seq<int>, a: seq<int>, perMin: nat, now: int, at: int)
    requires perMin >= 1 && Increasing(a) && SpacedBy(a, perMin) && (a != [] ==> a[|a| - 1] <= now)
    requires Tail(k, a, now) && |k| <= perMin && now <= at && (|k| == perMin ==> at - k[0] >= MINUTE)
    ensures Increasing(a + [at]) && SpacedBy(a + [at], perMin)
    ensures Tail(k + [at], a + [at], at) && Tail(k, a, at)
  {
    var a' := a + [at];
    forall i, j | 0 <= i && j < |a'| && j - i >= perMin
      ensures a'[j] - a'[i] >= MINUTE
    {
      if j == |a| {
        if i < |a| - |k| {
          assert now - a[i] >= MINUTE;
        } else {
          assert i == |a| - perMin && a[i] == k[0];
        }
      }
    }
    assert k + [at] == a'[|a'| - |k + [at]|..];
  }

  /** What holds of the key's window and admissions when a run of calls ends at `end`. */
  predicate Consistent(w: seq<int>, a: seq<int>, perMin: nat, end: int) {
    Increasing(a) && SpacedBy(a, perMin) && Tail(w, a, end) && (a != [] ==> a[|a| - 1] <= end)
  }

  lemma AcquireConsistent(w: seq<int>, a: seq<int>, perMin: nat, before: int, now: int, late: nat, k: seq<int>, at: int)
    requires perMin >= 1 && before <= now && Consistent(w, a, perMin, before)
    requires k == Kept(w, now) && at == now + Max(0, WaitFor(k, perMin, now)) + late
    ensures Consistent(k + [at], a + [at], perMin, at)
  {
    KeptOfTail(w, a, perMin, before, now);
    AppendAdmission(k, a, perMin, now, at);
  }

  /** A cancelled call leaves the compacted window, whenever it returns. */
  lemma CancelConsistent(w: seq<int>, a: seq<int>, perMin: nat, before: int, now: int, end: int)
    requires perMin >= 1 && before <= now <= end && Consistent(w, a, perMin, before)
    ensures Consistent(Kept(w, now), a, perMin, end)
  {
    KeptOfTail(w, a, perMin, before, now);
    OtherKeyConsistent(Kept(w, now), a, perMin, now, end);
  }

  lemma OtherKeyConsistent(w: seq<int>, a: seq<int>, perMin: nat, before: int, end: int)
    requires before <= end && Consistent(w, a, perMin, before)
    ensures Consistent(w, a, perMin, end)
  {
  }

  /** How one call takes one key's window and admissions (w, a) to (w', a'), ending at `at`. */
  predicate Effect(perMin: nat, c: Call, key: string, w: seq<int>, a: seq<int>, w': seq<int>, a': seq<int>, at: int)
    requires perMin >= 1
  {
    if c.key != key then w' == w && a' == a && at >= c.now
    else
      var k := Kept(w, c.now);
      && at == c.now + (if c.admitted then Max(0, WaitFor(k, perMin, c.now)) else 0) + c.late
      && w' == (if c.admitted then k + [at] else k)
      && a' == (if c.admitted then a + [at] else a)
  }

  lemma CallEffect(perMin: nat, rest: seq<Call>, c: Call, key: string)
    requires perMin >= 1
    ensures Effect(perMin, c, key, WindowOf(WindowAfter(perMin, rest), key), Admissions(perMin, rest, key),
                   WindowOf(WindowAfter(perMin, rest + [c]), key), Admissions(perMin, rest + [c], key),
                       EndOf(perMin, rest + [c]))
  {
    assert (rest + [c])[..|rest + [c]| - 1] == rest;
    var a := Admissions(perMin, rest, key);
    assert a + [] == a;
  }

  /** One call, seen by one key, keeps the spacing. */
  lemma EffectConsistent(perMin: nat, c: Call, key: string, w: seq<int>, a: seq<int>, w': seq<int>, a': seq<int>,
      before: int, at: int)
    requires perMin >= 1 && before <= c.now
    requires Consistent(w, a, perMin, before) && Effect(perMin, c, key, w, a, w', a', at)
    ensures Consistent(w', a', perMin, at)
  {
    if c.key == key && c.admitted {
      AcquireConsistent(w, a, perMin, before, c.now, c.late, Kept(w, c.now), at);
    } else if c.key == key {
      CancelConsistent(w, a, perMin, before, c.now, at);
    } else {
      OtherKeyConsistent(w, a, perMin, before, at);
    }
  }

  lemma {:induction false} RunConsistent(perMin: nat, calls: seq<Call>, key: string)
    requires perMin >= 1 && OneAfterAnother(perMin, calls) && calls != []
    ensures Consistent(WindowOf(WindowAfter(perMin, calls), key), Admissions(perMin, calls, key), perMin,
        EndOf(perMin, calls))
  {
    var rest, c := calls[..|calls| - 1], calls[|calls| - 1];
    assert calls == rest + [c];
    var before := if rest == [] then c.now else EndOf(perMin, rest);
    if rest != [] {
      RunConsistent(perMin, rest, key);
    }
    CallEffect(perMin, rest, c, key);
    EffectConsistent(perMin, c, key, WindowOf(WindowAfter(perMin, rest), key), Admissions(perMin, rest, key),
                     WindowOf(WindowAfter(perMin, calls), key), Admissions(perMin, calls, key), before,
                         EndOf(perMin, calls));
  }

  /** A cancelled call need not sit out its wait: the next call may start two seconds later. */
  lemma CancelledCallMayReturnEarly(key: string)
    ensures var calls := [Call(key, 0, 0, true), Call(key, SECOND, SECOND, false), Call(key, 3 * SECOND, 0, true)];
      OneAfterAnother(1, calls)
  {
    var first, second, third := Call(key, 0, 0, true), Call(key, SECOND, SECOND, false), Call(key, 3 * SECOND, 0, true);
    assert [first][..0] == [] && [first, second][..1] == [first] && [first, second, third][..2] == [first, second];
    assert Kept([], 0) == [];
    assert EndOf(1, [first]) == 0 && OneAfterAnother(1, [first]);
    assert EndOf(1, [first, second]) == 2 * SECOND && OneAfterAnother(1, [first, second]);
  }

  /**
   * With calls made one after another, admissions to the same shortened host that are perMin or
   * more apart in sequence are at least a minute apart, whatever is called, waited for or
   * cancelled in between, and however early a cancelled call returns.
   */
  lemma AdmissionsAreSpaced(perMin: nat, calls: seq<Call>, key: string, i: nat, j: nat)
    requires perMin >= 1 && OneAfterAnother(perMin, calls)
    requires i + perMin <= j < |Admissions(perMin, calls, key)|
    ensures Admissions(perMin, calls, key)[j] - Admissions(perMin, calls, key)[i] >= 60_000_000_000
  {
    RunConsistent(perMin, calls, key);
  }

  /**
   * And no call waits longer than that takes: it is ready at once, or exactly a minute after the admission
   * perMin places before it, which is then still younger than a minute.
   */
  lemma WaitsNoLongerThanNeeded(perMin: nat, calls: seq<Call>, c: Call)
    requires perMin >= 1 && OneAfterAnother(perMin, calls + [c]) && c.admitted
    ensures var earlier, ready := Admissions(perMin, calls, c.key), EndOf(perMin, calls + [c]) - c.late;
      || ready == c.now
      || (|earlier| >= perMin && ready == earlier[|earlier| - perMin] + 60_000_000_000 > c.now)
  {
    var all := calls + [c];
    assert all[..|all| - 1] == calls;
    if calls == [] {
      assert Kept([], c.now) == [];
    } else {
      var w, a := WindowOf(WindowAfter(perMin, calls), c.key), Admissions(perMin, calls, c.key);
      RunConsistent(perMin, calls, c.key);
      KeptOfTail(w, a, perMin, EndOf(perMin, calls), c.now);
    }
  }

  // ---------------------------------------------------------------------------------------
  // Concurrent holders
  // ---------------------------------------------------------------------------------------

  type Worker = nat

  datatype Phase = Idle | Waiting(key: string) | Holding(key: string)

  /** How full each host's channel is, and what every fetch in flight is doing. */
  datatype Fleet = Fleet(sems: map<string, nat>, phases: map<Worker, Phase>)

  datatype Move =
    | Start(w: Worker, key: string)
    | Enter(w: Worker)
    | GiveUp(w: Worker)
    | Leave(w: Worker)

  function PhaseOf(f: Fleet, w: Worker): Phase {
    if w in f.phases then f.phases[w] else Idle
  }

  function Level(f: Fleet, key: string): nat {
    if key in f.sems then f.sems[key] else 0
  }

  /** Sending blocks while the channel is full; receiving from an empty channel falls through. */
  function Next(f: Fleet, maxCon: nat, m: Move): Option<Fleet> {
    match m
    case Start(w, key) =>
      if PhaseOf(f, w).Idle? then
        Some(Fleet(f.sems[key := Level(f, key)], f.phases[w := Waiting(key)])) else None
    case Enter(w) =>
      if PhaseOf(f, w).Waiting? && Level(f, PhaseOf(f, w).key) < maxCon then
        var key := PhaseOf(f, w).key;
        Some(Fleet(f.sems[key := Level(f, key) + 1], f.phases[w := Holding(key)])) else None
    case GiveUp(w) =>
      if PhaseOf(f, w).Waiting? then Some(f.(phases := f.phases[w := Idle])) else None
    case Leave(w) =>
      if PhaseOf(f, w).Holding? then
        var key := PhaseOf(f, w).key;
        var level := Level(f, key);
        Some(Fleet(if level > 0 then f.sems[key := level - 1] else f.sems, f.phases[w := Idle])) else None
  }

  function Holders(f: Fleet, key: string): set<Worker> {
    set w | w in f.phases && f.phases[w] == Holding(key)
  }

  ghost predicate FleetRun(maxCon: nat, states: seq<Fleet>, moves: seq<Move>) {
    && |states| == |moves| + 1 && states[0] == Fleet(map[], map[])
    && forall k | 0 <= k < |moves| :: Next(states[k], maxCon, moves[k]) == Some(states[k + 1])
  }

  /** Who holds the key after one worker changes phase. */
  lemma HoldersUpdate(f: Fleet, f': Fleet, w: Worker, p: Phase, key: string)
    requires f'.phases == f.phases[w := p]
    ensures w in Holders(f, key) <==> PhaseOf(f, w) == Holding(key)
    ensures Holders(f', key) == Holders(f, key) - {w} + (if p == Holding(key) then {w} else {})
    ensures |Holders(f', key)| == |Holders(f, key)| - (if PhaseOf(f, w) == Holding(key) then 1 else 0)
                                  + (if p == Holding(key) then 1 else 0)
  {
    assert Holders(f', key) == Holders(f, key) - {w} + (if p == Holding(key) then {w} else {});
  }

  lemma MovePreserves(f: Fleet, maxCon: nat, m: Move, f': Fleet, key: string)
    requires Next(f, maxCon, m) == Some(f')
    requires Level(f, key) == |Holders(f, key)| <= maxCon
    ensures Level(f', key) == |Holders(f', key)| <= maxCon
  {
    HoldersUpdate(f, f', m.w, PhaseOf(f', m.w), key);
  }

  /** In every interleaving, at most maxCon fetches hold one shortened host, and the channel counts them exactly. */
  lemma {:induction false} HoldersBounded(maxCon: nat, states: seq<Fleet>, moves: seq<Move>, k: nat, key: string)
    requires FleetRun(maxCon, states, moves) && k < |states|
    ensures Level(states[k], key) == |Holders(states[k], key)| <= maxCon
  {
    if k > 0 {
      HoldersBounded(maxCon, states, moves, k - 1, key);
      MovePreserves(states[k - 1], maxCon, moves[k - 1], states[k], key);
    }
  }

  /** And a slot that is free is there to be taken: whoever waits for the key can enter. */
  lemma FreeSlotIsTaken(maxCon: nat, states: seq<Fleet>, moves: seq<Move>, k: nat, key: string, w: Worker)
    requires FleetRun(maxCon, states, moves) && k < |states|
    requires PhaseOf(states[k], w) == Waiting(key)
    ensures Next(states[k], maxCon, Enter(w)).Some? <==> |Holders(states[k], key)| < maxCon
  {
    HoldersBounded(maxCon, states, moves, k, key);
  }
}
