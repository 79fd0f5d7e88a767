/**
 * Statements are written with $n placeholders. For positional dialects every $n becomes a "?"
 * and the argument list is laid out again, one value per occurrence (db/db.go, store/store.go).
 */
module Placeholders {
  import opened Wrappers
  import opened Text
  import opened Common

  /** Go's int wraps at 64 bits. */
  function Wrap64(n: int): (w: int)
    ensures -0x8000_0000_0000_0000 <= w < 0x8000_0000_0000_0000
    ensures -0x8000_0000_0000_0000 <= n < 0x8000_0000_0000_0000 ==> w == n
  {
    (n + 0x8000_0000_0000_0000) % 0x1_0000_0000_0000_0000 - 0x8000_0000_0000_0000
  }

  /** The index the scanner computes for a run of digits. */
  function ScannedIndex(s: string): int
    requires AllDigits(s)
  {
    if s == "" then 0 else Wrap64(ScannedIndex(s[..|s| - 1]) * 10 + DigitOf(s[|s| - 1]))
  }

  lemma {:induction false} ScannedIndexExact(s: string)
    requires AllDigits(s) && Value(s) < 0x8000_0000_0000_0000
    ensures ScannedIndex(s) == Value(s)
  {
    if s != "" {
      ScannedIndexExact(s[..|s| - 1]);
    }
  }

  /** The number of digits after the '$' the text starts with. */
  function ParamDigits(q: string): (n: nat)
    requires q != "" && q[0] == '$'
    ensures n < |q| && AllDigits(q[1..n + 1])
  {
    assert q[1..][..DigitRun(q[1..])] == q[1..DigitRun(q[1..]) + 1];
    DigitRun(q[1..])
  }

  // ---------------------------------------------------------------------------------------
  // What the rewriting computes
  // ---------------------------------------------------------------------------------------

  function RebindText(q: string): string {
    if q == "" then ""
    else if q[0] != '$' || ParamDigits(q) == 0 then [q[0]] + RebindText(q[1..])
    else "?" + RebindText(q[ParamDigits(q) + 1..])
  }

  function RebindIndexes(q: string): seq<int> {
    if q == "" then []
    else if q[0] != '$' || ParamDigits(q) == 0 then RebindIndexes(q[1..])
    else [ScannedIndex(q[1..ParamDigits(q) + 1])] + RebindIndexes(q[ParamDigits(q) + 1..])
  }

  /** The indexes as written, however long their numerals. */
  function WrittenIndexes(q: string): seq<nat> {
    if q == "" then []
    else if q[0] != '$' || ParamDigits(q) == 0 then WrittenIndexes(q[1..])
    else [Value(q[1..ParamDigits(q) + 1])] + WrittenIndexes(q[ParamDigits(q) + 1..])
  }

  /** A text that starts with a placeholder, taken apart. */
  lemma ParamHead(digits: string, rest: string)
    requires digits != "" && AllDigits(digits) && (rest != "" ==> !IsDigit(rest[0]))
    ensures var q := ['$'] + digits + rest;
            && ParamDigits(q) == |digits|
            && q[1..|digits| + 1] == digits
            && q[|digits| + 1..] == rest
  {
    var q := ['$'] + digits + rest;
    assert q[1..] == digits + rest;
    assert q[1..][..|digits|] == digits;
    assert |digits| < |q[1..]| ==> q[1..][|digits|] == rest[0];
    DigitRunIs(q[1..], |digits|);
    assert q[1..|digits| + 1] == digits;
    assert q[|digits| + 1..] == rest;
  }

  /** What is left to scan after position i completes what was written so far. */
  ghost predicate Scanned(query: string, i: nat, text: string) {
    i <= |query| && text + RebindText(query[i..]) == RebindText(query)
  }

  ghost predicate Indexed(query: string, i: nat, order: seq<int>) {
    i <= |query| && order + RebindIndexes(query[i..]) == RebindIndexes(query)
  }

  /** One step of the scan over a character that is kept. */
  lemma KeptStep(query: string, i: nat, text: string, order: seq<int>)
    requires i < |query| && (query[i] != '$' || ParamDigits(query[i..]) == 0)
    ensures Scanned(query, i, text) ==> Scanned(query, i + 1, text + [query[i]])
    ensures Indexed(query, i, order) ==> Indexed(query, i + 1, order)
  {
    assert query[i..][1..] == query[i + 1..];
    assert text + ([query[i]] + RebindText(query[i + 1..])) == text + [query[i]] + RebindText(query[i + 1..]);
  }

  /** One step of the scan over a placeholder that ends before position j. */
  lemma ParamStep(query: string, i: nat, j: nat, text: string, order: seq<int>)
    requires i + 1 < j <= |query| && query[i] == '$' && AllDigits(query[i + 1..j])
    requires ParamDigits(query[i..]) == j - i - 1
    ensures Scanned(query, i, text) ==> Scanned(query, j, text + "?")
    ensures Indexed(query, i, order) ==> Indexed(query, j, order + [ScannedIndex(query[i + 1..j])])
  {
    assert query[i..][j - i..] == query[j..];
    assert query[i..][1..j - i] == query[i + 1..j];
    assert text + ("?" + RebindText(query[j..])) == text + "?" + RebindText(query[j..]);
    var idx := ScannedIndex(query[i + 1..j]);
    assert order + ([idx] + RebindIndexes(query[j..])) == order + [idx] + RebindIndexes(query[j..]);
  }

  lemma RunEndsAt(query: string, i: nat, j: nat)
    requires i < |query| && query[i] == '$' && i + 1 <= j <= |query|
    requires (forall k | i < k < j :: IsDigit(query[k])) && (j < |query| ==> !IsDigit(query[j]))
    ensures ParamDigits(query[i..]) == j - i - 1
  {
    var rest := query[i..][1..];
    assert rest[..j - i - 1] == query[i + 1..j];
    DigitRunIs(rest, j - i - 1);
  }

  /** Reads the digits after a "$". */
  method ScanDigits(query: string, i: nat) returns (j: nat, idx: int)
    requires i < |query| && query[i] == '$'
    ensures i + 1 <= j <= |query| && AllDigits(query[i + 1..j]) && ParamDigits(query[i..]) == j - i - 1
    ensures idx == ScannedIndex(query[i + 1..j])
  {
    j, idx := i + 1, 0;
    while j < |query| && IsDigit(query[j])
      invariant i + 1 <= j <= |query|
      invariant forall k | i < k < j :: IsDigit(query[k])
      invariant idx == ScannedIndex(query[i + 1..j])
    {
      assert query[i + 1..j + 1][..j - i - 1] == query[i + 1..j];
      idx := Wrap64(idx * 10 + DigitOf(query[j]));
      j := j + 1;
    }
    RunEndsAt(query, i, j);
  }

  method RebindOrder(query: string) returns (text: string, order: seq<int>)
    ensures text == RebindText(query)
    ensures order == RebindIndexes(query)
  {
    text, order := "", [];
    var i := 0;
    while i < |query|
      invariant Scanned(query, i, text) && Indexed(query, i, order)
    {
      var c := query[i];
      if c != '$' {
        KeptStep(query, i, text, order);
        text := text + [c];
        i := i + 1;
        continue;
      }
      var j, idx := ScanDigits(query, i);
      if j == i + 1 {
        KeptStep(query, i, text, order);
        text := text + [c];
        i := i + 1;
        continue;
      }
      ParamStep(query, i, j, text, order);
      order := order + [idx];
      text := text + "?";
      i := j;
    }
  }

  /** The same scan without the index list. */
  method Rebind(query: string) returns (text: string)
    ensures text == RebindText(query)
  {
    text := "";
    var i := 0;
    while i < |query|
      invariant Scanned(query, i, text)
    {
      var c := query[i];
      if c != '$' {
        KeptStep(query, i, text, []);
        text := text + [c];
        i := i + 1;
        continue;
      }
      var j, _ := ScanDigits(query, i);
      if j == i + 1 {
        KeptStep(query, i, text, []);
        text := text + [c];
        i := i + 1;
        continue;
      }
      ParamStep(query, i, j, text, []);
      text := text + "?";
      i := j;
    }
  }

  // ---------------------------------------------------------------------------------------
  // What a statement means: its text with values in place of placeholders
  // ---------------------------------------------------------------------------------------

  datatype Piece<V> = Ch(c: char) | Val(v: V)

  predicate InRange(indexes: seq<int>, count: nat) {
    forall i | 0 <= i < |indexes| :: 1 <= indexes[i] <= count
  }

  /** $n stands for the n-th argument. */
  function FillNumbered<V>(q: string, args: seq<V>): seq<Piece<V>>
    requires InRange(WrittenIndexes(q), |args|)
  {
    if q == "" then []
    else if q[0] != '$' || ParamDigits(q) == 0 then
      [Ch(q[0])] + FillNumbered(q[1..], args)
    else
      var n := WrittenIndexes(q)[0];
      assert WrittenIndexes(q)[1..] == WrittenIndexes(q[ParamDigits(q) + 1..]);
      [Val(args[n - 1])] + FillNumbered(q[ParamDigits(q) + 1..], args)
  }

  /** The i-th "?" stands for the i-th value; a driver refuses any other number of values. */
  function FillPositional<V>(text: string, vals: seq<V>): Option<seq<Piece<V>>> {
    if text == "" then (if vals == [] then Some([]) else None)
    else if text[0] != '?' then
      (match FillPositional(text[1..], vals)
       case None => None
       case Some(rest) => Some([Ch(text[0])] + rest))
    else if vals == [] then None
    else
      match FillPositional(text[1..], vals[1..])
      case None => None
      case Some(rest) => Some([Val(vals[0])] + rest)
  }

  function ValuesFor<V>(order: seq<int>, args: seq<V>): (vals: seq<V>)
    requires InRange(order, |args|)
    ensures |vals| == |order|
  {
    seq(|order|, i requires 0 <= i < |order| => args[order[i] - 1])
  }

  /** For indexes that a Go slice can have, the scanner reads exactly what is written. */
  lemma {:induction false} IndexesExact(q: string, count: nat)
    requires count < 0x8000_0000_0000_0000 && InRange(WrittenIndexes(q), count)
    ensures RebindIndexes(q) == WrittenIndexes(q)
  {
    if q != "" {
      if q[0] != '$' || ParamDigits(q) == 0 {
        IndexesExact(q[1..], count);
      } else {
        var rest := q[ParamDigits(q) + 1..];
        assert WrittenIndexes(q)[0] <= count;
        assert WrittenIndexes(q)[1..] == WrittenIndexes(rest);
        ScannedIndexExact(q[1..ParamDigits(q) + 1]);
        IndexesExact(rest, count);
      }
    }
  }

  lemma FillKept<V>(text: string, c: char, rest: string, vals: seq<V>, pieces: seq<Piece<V>>)
    requires text == [c] + rest && c != '?' && FillPositional(rest, vals) == Some(pieces)
    ensures FillPositional(text, vals) == Some([Ch(c)] + pieces)
  {
    assert text[1..] == rest;
  }

  lemma FillMark<V>(text: string, rest: string, v: V, vals: seq<V>, pieces: seq<Piece<V>>)
    requires text == ['?'] + rest && FillPositional(rest, vals) == Some(pieces)
    ensures FillPositional(text, [v] + vals) == Some([Val(v)] + pieces)
  {
    assert text[1..] == rest && ([v] + vals)[1..] == vals;
  }

  lemma PositionalBehindKept<V>(q: string, args: seq<V>, pieces: seq<Piece<V>>)
    requires q != "" && q[0] != '?' && (q[0] != '$' || ParamDigits(q) == 0) && InRange(WrittenIndexes(q[1..]), |args|)
    requires FillPositional(RebindText(q[1..]), ValuesFor(WrittenIndexes(q[1..]), args)) == Some(pieces)
    ensures WrittenIndexes(q) == WrittenIndexes(q[1..])
    ensures FillPositional(RebindText(q), ValuesFor(WrittenIndexes(q), args)) == Some([Ch(q[0])] + pieces)
  {
    FillKept(RebindText(q), q[0], RebindText(q[1..]), ValuesFor(WrittenIndexes(q[1..]), args), pieces);
  }

  lemma PositionalBehindParam<V>(q: string, rest: string, args: seq<V>, pieces: seq<Piece<V>>)
    requires q != "" && q[0] == '$' && ParamDigits(q) > 0 && rest == q[ParamDigits(q) + 1..]
    requires InRange(WrittenIndexes(q), |args|) && InRange(WrittenIndexes(rest), |args|)
    requires FillPositional(RebindText(rest), ValuesFor(WrittenIndexes(rest), args)) == Some(pieces)
    ensures |WrittenIndexes(q)| > 0
    ensures FillPositional(RebindText(q), ValuesFor(WrittenIndexes(q), args))
        == Some([Val(args[WrittenIndexes(q)[0] - 1])] + pieces)
  {
    var indexes := WrittenIndexes(q);
    assert indexes == [indexes[0]] + WrittenIndexes(rest);
    var v, vals := args[indexes[0] - 1], ValuesFor(WrittenIndexes(rest), args);
    assert ValuesFor(indexes, args) == [v] + vals;
    FillMark(RebindText(q), RebindText(rest), v, vals, pieces);
  }

  lemma NumberedBehindKept<V>(q: string, args: seq<V>)
    requires q != "" && (q[0] != '$' || ParamDigits(q) == 0) && InRange(WrittenIndexes(q), |args|)
    ensures InRange(WrittenIndexes(q[1..]), |args|)
    ensures FillNumbered(q, args) == [Ch(q[0])] + FillNumbered(q[1..], args)
  {
  }

  lemma NumberedBehindParam<V>(q: string, rest: string, args: seq<V>)
    requires q != "" && q[0] == '$' && ParamDigits(q) > 0 && rest == q[ParamDigits(q) + 1..]
    requires InRange(WrittenIndexes(q), |args|)
    ensures InRange(WrittenIndexes(rest), |args|) && |WrittenIndexes(q)| > 0
    ensures FillNumbered(q, args) == [Val(args[WrittenIndexes(q)[0] - 1])] + FillNumbered(rest, args)
  {
    assert WrittenIndexes(q)[1..] == WrittenIndexes(rest);
  }

  lemma {:induction false} PositionalFill<V>(q: string, args: seq<V>)
    requires InRange(WrittenIndexes(q), |args|) && '?' !in q
    ensures FillPositional(RebindText(q), ValuesFor(WrittenIndexes(q), args)) == Some(FillNumbered(q, args))
  {
    if q != "" {
      if q[0] != '$' || ParamDigits(q) == 0 {
        NumberedBehindKept(q, args);
        PositionalFill(q[1..], args);
        PositionalBehindKept(q, args, FillNumbered(q[1..], args));
      } else {
        var rest := q[ParamDigits(q) + 1..];
        NumberedBehindParam(q, rest, args);
        PositionalFill(rest, args);
        PositionalBehindParam(q, rest, args, FillNumbered(rest, args));
      }
    }
  }

  function Marks(s: string): nat {
    if s == "" then 0 else (if s[0] == '?' then 1 else 0) + Marks(s[1..])
  }

  /** The rewritten text has a mark for every index, and one more when the statement has a "?" of its own. */
  predicate EnoughMarks(q: string) {
    && Marks(RebindText(q)) >= |WrittenIndexes(q)|
    && ('?' in q ==> Marks(RebindText(q)) > |WrittenIndexes(q)|)
  }

  lemma MarksBehindKept(q: string)
    requires q != "" && (q[0] != '$' || ParamDigits(q) == 0) && EnoughMarks(q[1..])
    ensures EnoughMarks(q)
  {
    assert RebindText(q)[1..] == RebindText(q[1..]);
    assert q == [q[0]] + q[1..];
  }

  lemma NoMarkAmongDigits(q: string, n: nat, i: nat)
    requires q != "" && q[0] == '$' && n == ParamDigits(q) && i <= n
    ensures q[i] != '?'
  {
    assert i > 0 ==> IsDigit(q[1..n + 1][i - 1]);
  }

  /** A mark behind a placeholder's digits is in the rest. */
  lemma MarkInRest(q: string, n: nat, rest: string)
    requires q != "" && q[0] == '$' && n == ParamDigits(q) && rest == q[n + 1..] && '?' in q
    ensures '?' in rest
  {
    var i :| 0 <= i < |q| && q[i] == '?';
    if i <= n {
      NoMarkAmongDigits(q, n, i);
    } else {
      assert rest[i - n - 1] == '?';
    }
  }

  lemma MarksBehindParam(q: string, n: nat)
    requires q != "" && q[0] == '$' && n == ParamDigits(q) > 0 && EnoughMarks(q[n + 1..])
    ensures EnoughMarks(q)
  {
    var rest := q[n + 1..];
    assert RebindText(q)[1..] == RebindText(rest);
    if '?' in q {
      MarkInRest(q, n, rest);
    }
  }

  lemma {:induction false} MarksOfText(q: string)
    ensures EnoughMarks(q)
    decreases |q|
  {
    if q != "" {
      if q[0] != '$' || ParamDigits(q) == 0 {
        MarksOfText(q[1..]);
        MarksBehindKept(q);
      } else {
        MarksOfText(q[ParamDigits(q) + 1..]);
        MarksBehindParam(q, ParamDigits(q));
      }
    }
  }

  lemma {:induction false} FillNeedsAllMarks<V>(text: string, vals: seq<V>)
    requires FillPositional(text, vals).Some?
    ensures |vals| == Marks(text)
  {
    if text != "" {
      if text[0] == '?' {
        FillNeedsAllMarks(text[1..], vals[1..]);
      } else {
        FillNeedsAllMarks(text[1..], vals);
      }
    }
  }

  /**
   * Rewriting preserves meaning exactly for statements without a literal "?": repeated and
   * many-digit indexes included, the positional statement with the re-laid values is the numbered
   * statement with its arguments.
   */
  lemma RebindKeepsMeaning<V>(q: string, args: seq<V>)
    requires |args| < 0x8000_0000_0000_0000 && InRange(WrittenIndexes(q), |args|)
    ensures RebindIndexes(q) == WrittenIndexes(q)
    ensures FillPositional(RebindText(q), ValuesFor(RebindIndexes(q), args)) == Some(FillNumbered(q, args))
            <==> '?' !in q
  {
    IndexesExact(q, |args|);
    if '?' !in q {
      PositionalFill(q, args);
    } else {
      MarksOfText(q);
      var vals := ValuesFor(RebindIndexes(q), args);
      if FillPositional(RebindText(q), vals).Some? {
        FillNeedsAllMarks(RebindText(q), vals);
      }
    }
  }

  // ---------------------------------------------------------------------------------------
  // bind
  // ---------------------------------------------------------------------------------------

  datatype Panic = WrongCount | IndexOutOfRange | UnusedArguments

  datatype Bound<V> = Bound(text: string, values: seq<V>)

  function MaxIndex(order: seq<int>): (m: int)
    ensures m >= 0 && forall i | 0 <= i < |order| :: order[i] <= m
    ensures m == 0 || m in order
  {
    if order == [] then 0
    else
      var m := MaxIndex(order[..|order| - 1]);
      if order[|order| - 1] > m then order[|order| - 1] else m
  }

  function Converted<V>(args: seq<V>, conv: V -> V): (r: seq<V>)
    ensures |r| == |args|
  {
    seq(|args|, i requires 0 <= i < |args| => conv(args[i]))
  }

  /** When bind does not panic. */
  predicate BindAccepts(d: Dialect, query: string, count: nat) {
    AcceptsOrder(d, RebindIndexes(TrimSpace(query)), count)
  }

  predicate AcceptsOrder(d: Dialect, order: seq<int>, count: nat) {
    match d
    case Postgres => MaxIndex(order) == count
    case SQLite => InRange(order, count) && count <= |order|
  }

  method HighestIndex(order: seq<int>) returns (maxIdx: int)
    ensures maxIdx == MaxIndex(order)
  {
    maxIdx := 0;
    for k := 0 to |order|
      invariant maxIdx == MaxIndex(order[..k])
    {
      assert order[..k + 1][..k] == order[..k];
      if order[k] > maxIdx {
        maxIdx := order[k];
      }
    }
    assert order[..|order|] == order;
  }

  /** One converted value per occurrence, or an index no argument has. */
  method LayOut<V>(order: seq<int>, args: seq<V>, conv: V -> V) returns (r: Result<seq<V>, Panic>)
    ensures r.Ok? <==> InRange(order, |args|)
    ensures r.Ok? ==> r.value == ValuesFor(order, Converted(args, conv))
    ensures r.Err? ==> r.error == IndexOutOfRange
  {
    var out: seq<V> := [];
    for k := 0 to |order|
      invariant InRange(order[..k], |args|)
      invariant out == ValuesFor(order[..k], Converted(args, conv))
    {
      if order[k] < 1 || order[k] > |args| {
        return Err(IndexOutOfRange);
      }
      out := out + [conv(args[order[k] - 1])];
    }
    assert order[..|order|] == order;
    return Ok(out);
  }

  /** Rewrites the statement for the dialect and lays the converted arguments out again. */
  method Bind<V>(d: Dialect, query: string, args: seq<V>, conv: V -> V) returns (r: Result<Bound<V>, Panic>)
    ensures r.Ok? <==> BindAccepts(d, query, |args|)
    ensures r.Ok? ==> r.value == BoundTo(d, TrimSpace(query), args, conv)
    ensures r.Err? && d == Postgres ==> r.error == WrongCount
    ensures r.Err? && d == SQLite
        ==> r.error == if InRange(RebindIndexes(TrimSpace(query)), |args|) then UnusedArguments else IndexOutOfRange
  {
    var q := TrimSpace(query);
    var rewritten, order := RebindOrder(q);
    if d == Postgres {
      var maxIdx := HighestIndex(order);
      if maxIdx != |args| {
        return Err(WrongCount);
      }
      return Ok(Bound(q, Converted(args, conv)));
    }
    var out := LayOut(order, args, conv);
    if out.Err? {
      return Err(out.error);
    }
    if |args| > |order| {
      return Err(UnusedArguments);
    }
    return Ok(Bound(rewritten, out.value));
  }

  function BoundTo<V>(d: Dialect, q: string, args: seq<V>, conv: V -> V): Bound<V>
    requires d == SQLite ==> InRange(RebindIndexes(q), |args|)
  {
    match d
    case Postgres => Bound(q, Converted(args, conv))
    case SQLite => Bound(RebindText(q), ValuesFor(RebindIndexes(q), Converted(args, conv)))
  }

  /** Every argument is named, and nothing else is. */
  predicate UsesExactly(indexes: seq<int>, count: nat) {
    && InRange(indexes, count)
    && forall n | 1 <= n <= count :: n in indexes
  }

  lemma DistinctInRange(indexes: seq<int>, count: nat)
    requires forall n | 1 <= n <= count :: n in indexes
    ensures count <= |indexes|
    decreases count
  {
    if count > 0 {
      assert count in indexes;
      var k: nat :| k < |indexes| && indexes[k] == count;
      var rest := indexes[..k] + indexes[k + 1..];
      forall n | 1 <= n <= count - 1
        ensures n in rest
      {
        assert n in indexes;
        var m: nat :| m < |indexes| && indexes[m] == n;
        assert rest[if m < k then m else m - 1] == n;
      }
      DistinctInRange(rest, count - 1);
    }
  }

  /** A statement that uses exactly $1..$n passes all three of bind's checks on both dialects. */
  lemma ExactUseIsAccepted(d: Dialect, query: string, count: nat)
    requires UsesExactly(RebindIndexes(TrimSpace(query)), count)
    ensures BindAccepts(d, query, count)
  {
    var order := RebindIndexes(TrimSpace(query));
    DistinctInRange(order, count);
    if count > 0 {
      assert count in order;
    }
  }

  /** The last argument is named. */
  predicate NamesLast(order: seq<int>, count: nat) {
    count == 0 || count in order
  }

  predicate AtMost(order: seq<int>, count: nat) {
    forall i | 0 <= i < |order| :: order[i] <= count
  }

  /** Postgres checks the greatest index only. */
  lemma PostgresChecksGreatest(order: seq<int>, count: nat)
    ensures AcceptsOrder(Postgres, order, count) <==> AtMost(order, count) && NamesLast(order, count)
  {
    if AtMost(order, count) && count in order {
      var i :| 0 <= i < |order| && order[i] == count;
      assert order[i] <= MaxIndex(order);
    }
  }

  /**
   * Both dialects accept exactly when all indexes are in range, the last argument is named, and there are
   * at least as many placeholders as arguments.
   */
  lemma BothAccept(query: string, count: nat)
    ensures var order := RebindIndexes(TrimSpace(query));
      BindAccepts(Postgres, query, count) && BindAccepts(SQLite, query, count) <==>
      InRange(order, count) && count <= |order| && NamesLast(order, count)
  {
    PostgresChecksGreatest(RebindIndexes(TrimSpace(query)), count);
  }

  /**
   * The dialects' checks agree about a statement exactly when: with all indexes in range, naming the last
   * argument and having enough placeholders go together; with an index out of range, one is too
   * large or the last argument is not named.
   */
  lemma ChecksAgreeExactly(query: string, count: nat)
    ensures var order := RebindIndexes(TrimSpace(query));
      (BindAccepts(Postgres, query, count) <==> BindAccepts(SQLite, query, count)) <==>
      if InRange(order, count) then NamesLast(order, count) <==> count <= |order|
      else !AtMost(order, count) || !NamesLast(order, count)
  {
    PostgresChecksGreatest(RebindIndexes(TrimSpace(query)), count);
  }

  /** They do differ, both ways: each accepts a statement the other refuses. */
  lemma DialectsDisagree(twice: string, high: string, n: nat)
    requires twice == "$1$1" && high == "$2" && n == 2
    ensures BindAccepts(SQLite, twice, n) && !BindAccepts(Postgres, twice, n)
    ensures BindAccepts(Postgres, high, n) && !BindAccepts(SQLite, high, n)
  {
    TrimOfSolid(twice);
    TrimOfSolid(high);
    TwoParams(twice);
    OneParam(high, "2", 2);
    OrdersDisagree([1, 1], [2]);
  }

  lemma HighestOf(order: seq<int>, n: nat)
    requires order != [] && forall i | 0 <= i < |order| :: order[i] == n
    ensures MaxIndex(order) == n
  {
    var m := MaxIndex(order);
    assert order[0] == n;
  }

  lemma OrdersDisagree(twice: seq<int>, high: seq<int>)
    requires twice == [1, 1] && high == [2]
    ensures AcceptsOrder(SQLite, twice, 2) && !AcceptsOrder(Postgres, twice, 2)
    ensures AcceptsOrder(Postgres, high, 2) && !AcceptsOrder(SQLite, high, 2)
  {
    HighestOf(twice, 1);
    HighestOf(high, 2);
  }

  lemma OneDigit(digits: string, n: nat)
    requires |digits| == 1 && AllDigits(digits) && DigitOf(digits[0]) == n
    ensures ScannedIndex(digits) == n
  {
    assert digits[..0] == "";
  }

  /** A statement that is one placeholder. */
  lemma OneParam(q: string, digits: string, n: nat)
    requires q == ['$'] + digits && |digits| == 1 && AllDigits(digits) && DigitOf(digits[0]) == n
    ensures RebindIndexes(q) == [n]
  {
    ParamHead(digits, "");
    OneDigit(digits, n);
    assert q == ['$'] + digits + "";
    assert RebindIndexes(q) == [ScannedIndex(digits)] + RebindIndexes("");
  }

  lemma TwoParams(q: string)
    requires q == "$1$1"
    ensures RebindIndexes(q) == [1, 1]
  {
    var digits, rest := "1", "$1";
    ParamHead(digits, rest);
    OneDigit(digits, 1);
    OneParam(rest, digits, 1);
    assert q == ['$'] + digits + rest;
    assert RebindIndexes(q) == [ScannedIndex(digits)] + RebindIndexes(rest);
  }
}
