/** Decimal numerals, splitting, joining and trimming, as the program's standard library does them. */
module Text {
  import opened Wrappers

  // ---------------------------------------------------------------------------------------
  // Decimal numerals
  // ---------------------------------------------------------------------------------------

  predicate IsDigit(c: char) {
    '0' <= c <= '9'
  }

  function DigitOf(c: char): (d: nat)
    requires IsDigit(c)
    ensures d < 10
  {
    c as int - '0' as int
  }

  function DigitChar(d: nat): (c: char)
    requires d < 10
    ensures IsDigit(c) && DigitOf(c) == d
  {
    ('0' as int + d) as char
  }

  predicate AllDigits(s: string) {
    forall i | 0 <= i < |s| :: IsDigit(s[i])
  }

  /** What %d prints for a number that is not negative. */
  function Digits(n: nat): (s: string)
    ensures |s| > 0 && AllDigits(s)
  {
    if n < 10 then [DigitChar(n)] else Digits(n / 10) + [DigitChar(n % 10)]
  }

  /** The value of a numeral, read left to right. */
  function Value(s: string): nat
    requires AllDigits(s)
  {
    if s == "" then 0 else Value(s[..|s| - 1]) * 10 + DigitOf(s[|s| - 1])
  }

  lemma {:induction false} ValueOfDigits(n: nat)
    ensures Value(Digits(n)) == n
  {
    if n >= 10 {
      ValueOfDigits(n / 10);
      assert Digits(n)[..|Digits(n)| - 1] == Digits(n / 10);
    }
  }

  /** The length of the longest run of digits the text starts with. */
  function DigitRun(s: string): (n: nat)
    ensures n <= |s| && AllDigits(s[..n])
    ensures n < |s| ==> !IsDigit(s[n])
  {
    if s == "" || !IsDigit(s[0]) then 0
    else
      var n := DigitRun(s[1..]) + 1;
      assert s[..n] == [s[0]] + s[1..][..n - 1];
      n
  }

  lemma DigitRunIs(s: string, n: nat)
    requires n <= |s| && AllDigits(s[..n]) && (n < |s| ==> !IsDigit(s[n]))
    ensures DigitRun(s) == n
  {
    var m := DigitRun(s);
    assert forall i | 0 <= i < n :: s[..n][i] == s[i];
    assert forall i | 0 <= i < m :: s[..m][i] == s[i];
  }

  // ---------------------------------------------------------------------------------------
  // Splitting at a separator, and joining
  // ---------------------------------------------------------------------------------------

  /** The position of the first c, or the length of the text. */
  function IndexOf(s: string, c: char): (k: nat)
    ensures k <= |s| && (k < |s| ==> s[k] == c)
    ensures forall i | 0 <= i < k :: s[i] != c
  {
    if s == "" || s[0] == c then 0 else 1 + IndexOf(s[1..], c)
  }

  lemma IndexOfIs(a: string, c: char, b: string)
    requires c !in a
    ensures IndexOf(a + [c] + b, c) == |a|
  {
    var s := a + [c] + b;
    assert s[|a|] == c;
    assert forall i | 0 <= i < |a| :: s[i] == a[i];
  }

  function Split(s: string, sep: char): (parts: seq<string>)
    ensures |parts| >= 1
    ensures forall i | 0 <= i < |parts| :: sep !in parts[i]
    decreases |s|
  {
    var k := IndexOf(s, sep);
    if k == |s| then [s] else [s[..k]] + Split(s[k + 1..], sep)
  }

  function Join(parts: seq<string>, sep: char): string {
    if parts == [] then ""
    else if |parts| == 1 then parts[0]
    else parts[0] + [sep] + Join(parts[1..], sep)
  }

  /** Splitting undoes joining, for parts that do not contain the separator. */
  lemma {:induction false} SplitOfJoin(parts: seq<string>, sep: char)
    requires parts != [] && forall i | 0 <= i < |parts| :: sep !in parts[i]
    ensures Split(Join(parts, sep), sep) == parts
  {
    var s := Join(parts, sep);
    if |parts| == 1 {
      assert IndexOf(s, sep) == |s|;
    } else {
      var rest := Join(parts[1..], sep);
      IndexOfIs(parts[0], sep, rest);
      assert s == parts[0] + [sep] + rest;
      assert s[..|parts[0]|] == parts[0] && s[|parts[0]| + 1..] == rest;
      SplitOfJoin(parts[1..], sep);
    }
  }

  // ---------------------------------------------------------------------------------------
  // White space and case
  // ---------------------------------------------------------------------------------------

  predicate IsSpace(c: char) {
    c == ' ' || '\t' <= c <= '\r'
  }

  predicate IsBlank(s: string) {
    forall i | 0 <= i < |s| :: IsSpace(s[i])
  }

  /** The first position from i on that is not blank. */
  function SkipForward(s: string, i: nat): (n: nat)
    requires i <= |s|
    ensures i <= n <= |s| && (n < |s| ==> !IsSpace(s[n]))
    ensures forall k | i <= k < n :: IsSpace(s[k])
    decreases |s| - i
  {
    if i == |s| || !IsSpace(s[i]) then i else SkipForward(s, i + 1)
  }

  /** The end of the text before j without the blanks there. */
  function SkipBack(s: string, j: nat): (n: nat)
    requires j <= |s|
    ensures n <= j && (n > 0 ==> !IsSpace(s[n - 1]))
    ensures forall k | n <= k < j :: IsSpace(s[k])
  {
    if j == 0 || !IsSpace(s[j - 1]) then j else SkipBack(s, j - 1)
  }

  function TrimLeft(s: string): (t: string)
    ensures |t| <= |s| && t == s[|s| - |t|..] && IsBlank(s[..|s| - |t|])
    ensures t != "" ==> !IsSpace(t[0])
  {
    s[SkipForward(s, 0)..]
  }

  function TrimRight(s: string): (t: string)
    ensures t <= s && IsBlank(s[|t|..])
    ensures t != "" ==> !IsSpace(t[|t| - 1])
  {
    s[..SkipBack(s, |s|)]
  }

  /** Drops white space at both ends. */
  function TrimSpace(s: string): (t: string)
    ensures t != "" ==> !IsSpace(t[0]) && !IsSpace(t[|t| - 1])
  {
    TrimRight(TrimLeft(s))
  }

  /** A text that neither starts nor ends with a blank is trimmed already. */
  lemma TrimOfSolid(s: string)
    requires s != "" && !IsSpace(s[0]) && !IsSpace(s[|s| - 1])
    ensures TrimSpace(s) == s
  {
  }

  function LowerChar(c: char): char {
    if 'A' <= c <= 'Z' then (c as int + 32) as char else c
  }

  function Lower(s: string): (t: string)
    ensures |t| == |s| && forall i | 0 <= i < |s| :: t[i] == LowerChar(s[i])
  {
    seq(|s|, i requires 0 <= i < |s| => LowerChar(s[i]))
  }

  /** Nothing is left of a text exactly when it is blank. */
  lemma BlankTrimsAway(s: string)
    ensures TrimSpace(s) == "" <==> IsBlank(s)
  {
    var n := SkipForward(s, 0);
    if !IsBlank(s) {
      var i :| 0 <= i < |s| && !IsSpace(s[i]);
      assert n <= i;
      var left := s[n..];
      assert left[0] == s[n] && SkipBack(left, |left|) > 0;
    }
  }

  /** The classes of characters by their codes: digits, white space, and capital letters with their small ones. */
  lemma CharacterCodes(c: char)
    ensures IsDigit(c) <==> 48 <= c as int <= 57
    ensures IsSpace(c) <==> c as int == 32 || 9 <= c as int <= 13
    ensures 65 <= c as int <= 90 ==> LowerChar(c) as int == c as int + 32
    ensures !(65 <= c as int <= 90) ==> LowerChar(c) == c
  {
  }
}
