/**
 * Whole-word keyword search (feed/classify/classify.go): after a rejected hit the scan jumps a
 * full keyword length. Texts and keywords are one byte per character.
 */
module WordSearch {
  import opened Text

  predicate IsWordChar(c: char) {
    'a' <= c <= 'z' || 'A' <= c <= 'Z' || '0' <= c <= '9'
  }

  predicate Ascii(s: string) {
    forall i | 0 <= i < |s| :: s[i] as int < 128
  }

  predicate OccursAt(t: string, w: string, p: nat) {
    p + |w| <= |t| && t[p..p + |w|] == w
  }

  /** No letter or digit directly before or after. */
  predicate Free(t: string, w: string, p: nat)
    requires p + |w| <= |t|
  {
    && (p > 0 ==> !IsWordChar(t[p - 1]))
    && (p + |w| < |t| ==> !IsWordChar(t[p + |w|]))
  }

  ghost predicate WholeWordAt(t: string, w: string, p: nat) {
    OccursAt(t, w, p) && Free(t, w, p)
  }

  /** A letter or a digit stands at the position, by its code. */
  predicate LetterOrDigitAt(t: string, i: int) {
    0 <= i < |t| && var c := t[i] as int; 48 <= c <= 57 || 65 <= c <= 90 || 97 <= c <= 122
  }

  /** A whole word is an occurrence without a letter or a digit directly before or after it. */
  lemma WholeWordMeans(t: string, w: string, p: nat)
    ensures WholeWordAt(t, w, p) <==>
            && p + |w| <= |t| && (forall i | 0 <= i < |w| :: t[p + i] == w[i])
            && !LetterOrDigitAt(t, p - 1) && !LetterOrDigitAt(t, p + |w|)
  {
    if p + |w| <= |t| {
      var s := t[p..p + |w|];
      assert forall i | 0 <= i < |w| :: s[i] == t[p + i];
    }
  }

  /** The text contains the word on its own, upper and lower case aside. */
  ghost predicate HasWholeWord(text: string, word: string) {
    exists p: nat :: WholeWordAt(Lower(text), Lower(word), p)
  }

  /** The first occurrence from position idx on, or the text's length when there is none. */
  function IndexFrom(t: string, w: string, idx: nat): (p: nat)
    requires w != "" && idx <= |t|
    ensures idx <= p <= |t|
    ensures p < |t| ==> OccursAt(t, w, p)
    decreases |t| - idx
  {
    if idx == |t| then idx
    else if OccursAt(t, w, idx) then idx
    else IndexFrom(t, w, idx + 1)
  }

  /** Nothing occurs between idx and the result. */
  lemma {:induction false} IndexFromFirst(t: string, w: string, idx: nat, q: nat)
    requires w != "" && idx <= |t| && idx <= q && OccursAt(t, w, q)
    ensures IndexFrom(t, w, idx) <= q
    decreases |t| - idx
  {
    if idx < |t| && !OccursAt(t, w, idx) {
      IndexFromFirst(t, w, idx + 1, q);
    }
  }

  /** What the jumping scan answers from position idx on. */
  function Scan(t: string, w: string, idx: nat): bool
    requires w != "" && idx <= |t|
    decreases |t| - idx
  {
    var pos := IndexFrom(t, w, idx);
    if pos == |t| then false
    else if Free(t, w, pos) then true
    else Scan(t, w, pos + |w|)
  }

  method WordMatch(text: string, word: string) returns (found: bool)
    requires word != ""
    ensures found == Scan(Lower(text), Lower(word), 0)
  {
    found := ScanLoop(Lower(text), Lower(word));
  }

  /** One step of the scan. */
  lemma ScanStep(t: string, w: string, idx: nat, pos: nat)
    requires w != "" && idx <= |t| && pos == IndexFrom(t, w, idx)
    ensures pos == |t| ==> !Scan(t, w, idx)
    ensures pos < |t| && Free(t, w, pos) ==> Scan(t, w, idx)
    ensures pos < |t| && !Free(t, w, pos) ==> Scan(t, w, idx) == Scan(t, w, pos + |w|)
  {
  }

  /** The characters before and after an occurrence are looked at one by one. */
  method StandsAlone(lt: string, lw: string, pos: nat) returns (alone: bool)
    requires pos + |lw| <= |lt|
    ensures alone == Free(lt, lw, pos)
  {
    var endPos := pos + |lw|;
    var wordBefore := pos > 0 && IsWordChar(lt[pos - 1]);
    var wordAfter := endPos < |lt| && IsWordChar(lt[endPos]);
    alone := !wordBefore && !wordAfter;
  }

  method ScanLoop(lt: string, lw: string) returns (found: bool)
    requires lw != ""
    ensures found == Scan(lt, lw, 0)
  {
    var idx := 0;
    ghost var answer := Scan(lt, lw, 0);
    while true
      invariant idx <= |lt| && answer == Scan(lt, lw, idx)
      decreases |lt| - idx
    {
      var pos := IndexFrom(lt, lw, idx);
      ScanStep(lt, lw, idx, pos);
      if pos == |lt| {
        return false;
      }
      var alone := StandsAlone(lt, lw, pos);
      if alone {
        return true;
      }
      idx := pos + |lw|;
      if idx >= |lt| {
        NothingAtEnd(lt, lw);
        return false;
      }
    }
  }

  lemma NothingAtEnd(t: string, w: string)
    requires w != ""
    ensures !Scan(t, w, |t|)
  {
  }

  predicate Plain(w: string) {
    forall i | 0 <= i < |w| :: IsWordChar(w[i])
  }

  /** The keyword can overlap itself so that the later copy starts right after a non-word character. */
  ghost predicate TouchesItself(w: string) {
    exists d :: 0 < d < |w| && Touches(w, d)
  }

  predicate Touches(w: string, d: nat)
    requires 0 < d < |w|
  {
    w[d..] == w[..|w| - d] && !IsWordChar(w[d - 1])
  }

  lemma {:induction false} ScanSound(t: string, w: string, idx: nat)
    requires w != "" && idx <= |t| && Scan(t, w, idx)
    ensures exists p: nat :: WholeWordAt(t, w, p)
    decreases |t| - idx
  {
    var pos := IndexFrom(t, w, idx);
    if Free(t, w, pos) {
      assert WholeWordAt(t, w, pos);
    } else {
      ScanSound(t, w, pos + |w|);
    }
  }

  /** Two overlapping occurrences, the later one a whole word, are what makes a keyword touch itself. */
  lemma OverlapTouches(t: string, w: string, pos: nat, p: nat)
    requires OccursAt(t, w, pos) && WholeWordAt(t, w, p) && pos < p < pos + |w|
    ensures TouchesItself(w)
  {
    var d := p - pos;
    assert w[d..] == t[p..pos + |w|] by {
      assert t[pos..pos + |w|][d..] == t[p..pos + |w|];
    }
    assert w[..|w| - d] == t[p..pos + |w|] by {
      assert t[p..p + |w|][..|w| - d] == t[p..pos + |w|];
    }
    assert w[d - 1] == t[pos..pos + |w|][d - 1] == t[p - 1];
    assert Touches(w, d);
  }

  lemma {:induction false} ScanComplete(t: string, w: string, idx: nat, p: nat)
    requires w != "" && idx <= p && WholeWordAt(t, w, p) && idx <= |t|
    requires !TouchesItself(w)
    ensures Scan(t, w, idx)
    decreases |t| - idx
  {
    var pos := IndexFrom(t, w, idx);
    IndexFromFirst(t, w, idx, p);
    if !Free(t, w, pos) {
      if p < pos + |w| {
        OverlapTouches(t, w, pos, p);
      }
      ScanComplete(t, w, pos + |w|, p);
    }
  }

  /** A text in which the scan jumps over the only whole word. */
  function Trap(w: string, d: nat): string
    requires 0 < d < |w|
  {
    (if w[0] == 'x' then "y" else "x") + w + w[|w| - d..]
  }

  lemma TrapHasWholeWord(w: string, d: nat)
    requires 0 < d < |w| && Touches(w, d)
    ensures WholeWordAt(Trap(w, d), w, d + 1)
  {
    var t := Trap(w, d);
    assert t[d + 1..] == w[d..] + w[|w| - d..];
    assert w == w[..|w| - d] + w[|w| - d..];
    assert t[d + 1..d + 1 + |w|] == t[d + 1..];
    assert t[d] == w[d - 1];
  }

  lemma TrapIsJumped(w: string, d: nat)
    requires 0 < d < |w|
    ensures !Scan(Trap(w, d), w, 0)
  {
    var t := Trap(w, d);
    assert t[1..1 + |w|] == w;
    assert t[0..|w|][0] == t[0] != w[0];
    assert !OccursAt(t, w, 0) && OccursAt(t, w, 1);
    assert IndexFrom(t, w, 0) == 1;
    assert IsWordChar(t[0]) && !Free(t, w, 1);
    assert IndexFrom(t, w, 1 + |w|) == |t|;
  }

  lemma LowerTrap(w: string, d: nat)
    requires 0 < d < |w| && Lower(w) == w
    ensures Lower(Trap(w, d)) == Trap(w, d)
  {
    forall i | 0 <= i < |w|
      ensures LowerChar(w[i]) == w[i]
    {
      assert Lower(w)[i] == LowerChar(w[i]);
    }
  }

  lemma LowerIsLower(s: string)
    ensures Lower(Lower(s)) == Lower(s)
    ensures Ascii(s) ==> Ascii(Lower(s))
  {
  }

  /** A keyword that does not touch itself is found exactly where it is a whole word. */
  lemma NoTouchIsExact(word: string, text: string)
    requires word != "" && !TouchesItself(Lower(word))
    ensures Scan(Lower(text), Lower(word), 0) <==> HasWholeWord(text, word)
  {
    if Scan(Lower(text), Lower(word), 0) {
      ScanSound(Lower(text), Lower(word), 0);
    }
    if HasWholeWord(text, word) {
      var p: nat :| WholeWordAt(Lower(text), Lower(word), p);
      ScanComplete(Lower(text), Lower(word), 0, p);
    }
  }

  lemma TrapFools(w: string, d: nat)
    requires Lower(w) == w && 0 < d < |w| && Touches(w, d)
    ensures !Scan(Lower(Trap(w, d)), w, 0)
    ensures exists p: nat :: WholeWordAt(Lower(Trap(w, d)), w, p)
  {
    LowerTrap(w, d);
    TrapHasWholeWord(w, d);
    TrapIsJumped(w, d);
  }

  lemma TrapIsAscii(w: string, d: nat)
    requires 0 < d < |w| && Ascii(w)
    ensures Ascii(Trap(w, d))
  {
  }

  /** A keyword that touches itself is missed in some text. */
  lemma TouchIsMissed(word: string) returns (text: string)
    requires word != "" && Ascii(word) && TouchesItself(Lower(word))
    ensures Ascii(text) && !Scan(Lower(text), Lower(word), 0) && HasWholeWord(text, word)
  {
    var w := Lower(word);
    LowerIsLower(word);
    var d :| 0 < d < |w| && Touches(w, d);
    text := Trap(w, d);
    TrapIsAscii(w, d);
    TrapFools(w, d);
  }

  /** The search is right about every text exactly when the keyword does not touch itself. */
  lemma SearchIsExact(word: string)
    requires word != "" && Ascii(word)
    ensures (forall text | Ascii(text) :: Scan(Lower(text), Lower(word), 0) <==> HasWholeWord(text, word))
            <==> !TouchesItself(Lower(word))
  {
    if TouchesItself(Lower(word)) {
      var text := TouchIsMissed(word);
    } else {
      forall text | Ascii(text)
        ensures Scan(Lower(text), Lower(word), 0) <==> HasWholeWord(text, word)
      {
        NoTouchIsExact(word, text);
      }
    }
  }

  /** Such a keyword, and a text in which the scan misses it. */
  lemma HyphenatedKeywordIsMissed() returns (word: string, text: string)
    ensures word == "a-a" && text == "xa-a-a"
    ensures !Scan(Lower(text), Lower(word), 0) && HasWholeWord(text, word)
  {
    word, text := "a-a", "xa-a-a";
    assert Lower(word) == word;
    assert Touches(word, 2);
    assert Trap(word, 2) == text;
    TrapFools(word, 2);
  }

  /** A keyword of letters and digits never touches itself, so the search is right about it. */
  lemma PlainKeywordsAreExact(word: string, text: string)
    requires word != "" && Plain(word)
    ensures Scan(Lower(text), Lower(word), 0) <==> HasWholeWord(text, word)
  {
    assert !TouchesItself(Lower(word));
    NoTouchIsExact(word, text);
  }

  /** Whether some keyword is found; keywords of other scripts match as plain substrings. */
  method HasAny(text: string, keywords: seq<string>, isLatin: string -> bool) returns (found: bool)
    ensures found <==> exists i :: 0 <= i < |keywords| && Matches(text, keywords[i], isLatin)
  {
    for i := 0 to |keywords|
      invariant forall j | 0 <= j < i :: !Matches(text, keywords[j], isLatin)
    {
      var k := keywords[i];
      if k == "" {
        continue;
      }
      if isLatin(k) {
        var hit := WordMatch(text, k);
        if hit {
          return true;
        }
        continue;
      }
      if IndexFrom(text, k, 0) < |text| {
        return true;
      }
    }
    return false;
  }

  predicate Matches(text: string, k: string, isLatin: string -> bool) {
    k != "" && if isLatin(k) then Scan(Lower(text), Lower(k), 0) else IndexFrom(text, k, 0) < |text|
  }

  /** For plain keywords, HasAny finds exactly the texts with one of them as a whole word. */
  lemma PlainListIsExact(text: string, keywords: seq<string>, isLatin: string -> bool)
    requires forall k | k in keywords :: isLatin(k) && Plain(k)
    ensures (exists i :: 0 <= i < |keywords| && Matches(text, keywords[i], isLatin))
            <==> exists i :: 0 <= i < |keywords| && keywords[i] != "" && HasWholeWord(text, keywords[i])
  {
    forall i | 0 <= i < |keywords| && keywords[i] != ""
      ensures Matches(text, keywords[i], isLatin) <==> HasWholeWord(text, keywords[i])
    {
      PlainKeywordsAreExact(keywords[i], text);
    }
  }
}
