/**
 * Where the character data of a stream goes (feed/parser/xmltree.go): the text of each element of the
 * tree against what the stream held while that element was the innermost open one.
 */
module XmlText {
  import opened Wrappers
  import opened XmlTree

  // ---------------------------------------------------------------------------------------
  // Read off the stream
  // ---------------------------------------------------------------------------------------

  function NumbersAfter(open: seq<nat>, started: nat, t: Token): (r: seq<nat>)
    ensures |open| > 0 ==> |r| > 0
  {
    match t
    case Start(_, _) => open + [started + 1]
    case End => if |open| > 1 then open[..|open| - 1] else open
    case _ => open
  }

  /** The open elements by number, outermost first: the document is 0, the k-th start token is k. */
  function OpenNumbers(tokens: seq<Token>): (open: seq<nat>)
    ensures |open| > 0
  {
    if tokens == [] then [0]
    else
      var rest := tokens[..|tokens| - 1];
      NumbersAfter(OpenNumbers(rest), Starts(rest), tokens[|tokens| - 1])
  }

  function Innermost(tokens: seq<Token>): nat {
    var open := OpenNumbers(tokens);
    open[|open| - 1]
  }

  /** The character data that comes while element k is the innermost. */
  function OwnText(tokens: seq<Token>, k: nat): string {
    if tokens == [] then ""
    else
      var rest, t := tokens[..|tokens| - 1], tokens[|tokens| - 1];
      OwnText(rest, k) + (if t.Chars? && Innermost(rest) == k then t.text else "")
  }

  /** The texts of the document and of all elements that have started. */
  function OwnTexts(tokens: seq<Token>): (r: seq<string>)
    ensures |r| == Starts(tokens) + 1
  {
    seq(Starts(tokens) + 1, k requires 0 <= k => OwnText(tokens, k))
  }

  lemma {:induction false} NumbersHaveStarted(tokens: seq<Token>, j: nat)
    requires j < |OpenNumbers(tokens)|
    ensures OpenNumbers(tokens)[j] <= Starts(tokens)
  {
    if tokens != [] {
      var rest := tokens[..|tokens| - 1];
      if j < |OpenNumbers(rest)| {
        NumbersHaveStarted(rest, j);
      }
    }
  }

  lemma {:induction false} NothingBeforeStart(tokens: seq<Token>, k: nat)
    requires k > Starts(tokens)
    ensures OwnText(tokens, k) == ""
  {
    if tokens != [] {
      var rest := tokens[..|tokens| - 1];
      NothingBeforeStart(rest, k);
      NumbersHaveStarted(rest, |OpenNumbers(rest)| - 1);
    }
  }

  lemma {:induction false} OwnTextNext(rest: seq<Token>, t: Token, k: nat)
    ensures OwnText(rest + [t], k) == OwnText(rest, k) + (if t.Chars? && Innermost(rest) == k then t.text else "")
  {
    Init(rest, t);
  }

  lemma {:induction false} OpenNumbersNext(rest: seq<Token>, t: Token)
    ensures OpenNumbers(rest + [t]) == NumbersAfter(OpenNumbers(rest), Starts(rest), t)
  {
    Init(rest, t);
  }

  lemma {:induction false} OwnTextsOfStart(rest: seq<Token>, t: Token)
    requires t.Start?
    ensures OwnTexts(rest + [t]) == OwnTexts(rest) + [""]
  {
    OneMore(rest, t);
    NothingBeforeStart(rest, Starts(rest) + 1);
    forall k | 0 <= k <= Starts(rest) + 1
      ensures OwnText(rest + [t], k) == OwnText(rest, k)
    {
      OwnTextNext(rest, t, k);
    }
  }

  lemma {:induction false} OwnTextsOfChars(rest: seq<Token>, t: Token, k: nat)
    requires t.Chars? && k == Innermost(rest)
    ensures k <= Starts(rest)
    ensures OwnTexts(rest + [t]) == OwnTexts(rest)[k := OwnTexts(rest)[k] + t.text]
  {
    OneMore(rest, t);
    NumbersHaveStarted(rest, |OpenNumbers(rest)| - 1);
    var before, after := OwnTexts(rest), OwnTexts(rest + [t]);
    forall i | 0 <= i <= Starts(rest)
      ensures after[i] == if i == k then before[i] + t.text else before[i]
    {
      OwnTextNext(rest, t, i);
    }
  }

  lemma {:induction false} OwnTextsOfOther(rest: seq<Token>, t: Token)
    requires !t.Start? && !t.Chars?
    ensures OwnTexts(rest + [t]) == OwnTexts(rest)
  {
    OneMore(rest, t);
    forall k | 0 <= k <= Starts(rest)
      ensures OwnText(rest + [t], k) == OwnText(rest, k)
    {
      OwnTextNext(rest, t, k);
    }
  }

  // ---------------------------------------------------------------------------------------
  // Read off the builder
  // ---------------------------------------------------------------------------------------

  function Texts(ts: seq<Tree>): (r: seq<string>)
    ensures |r| == |ts|
  {
    seq(|ts|, i requires 0 <= i < |ts| => ts[i].text)
  }

  lemma {:induction false} TextsOfParts(a: seq<Tree>, t: Tree, b: seq<Tree>)
    ensures Texts(a + [t] + b) == Texts(a) + [t.text] + Texts(b)
  {
  }

  /** The texts of the open elements, each followed by those of its finished children. */
  function OpenTexts(frames: seq<Frame>): seq<string> {
    if frames == [] then []
    else
      var top := frames[|frames| - 1];
      OpenTexts(frames[..|frames| - 1]) + [top.text] + Texts(Preorder(top.done))
  }

  /** Where in that list the open elements stand. */
  function Places(frames: seq<Frame>): seq<nat> {
    if frames == [] then []
    else
      var below := frames[..|frames| - 1];
      Places(below) + [|OpenTexts(below)|]
  }

  lemma {:induction false} OpenTextsPush(frames: seq<Frame>, f: Frame)
    ensures OpenTexts(frames + [f]) == OpenTexts(frames) + [f.text] + Texts(Preorder(f.done))
    ensures Places(frames + [f]) == Places(frames) + [|OpenTexts(frames)|]
  {
    Init(frames, f);
  }

  lemma {:induction false} PreorderPush(done: seq<Tree>, t: Tree)
    ensures Texts(Preorder(done + [t])) == Texts(Preorder(done)) + [t.text] + Texts(Preorder(t.children))
  {
    Init(done, t);
    TextsOfParts(Preorder(done), t, Preorder(t.children));
  }

  lemma {:induction false} JoinPopped(a: seq<string>, x: seq<string>, d: seq<string>, y: seq<string>, e: seq<string>)
    ensures a + x + (d + y + e) == a + x + d + y + e
  {
  }

  lemma {:induction false} PopTextsOfParts(base: seq<Frame>, f: Frame, g: Frame)
    ensures OpenTexts(base + [WithChild(f, TreeOf(g))]) == OpenTexts((base + [f]) + [g])
  {
    OpenTextsPush(base, WithChild(f, TreeOf(g)));
    OpenTextsPush(base, f);
    OpenTextsPush(base + [f], g);
    PreorderPush(f.done, TreeOf(g));
    JoinPopped(OpenTexts(base), [f.text], Texts(Preorder(f.done)), [g.text], Texts(Preorder(g.done)));
  }

  lemma {:induction false} PopPlacesOfParts(base: seq<Frame>, f: Frame, g: Frame)
    ensures Places((base + [f]) + [g]) == Places(base + [WithChild(f, TreeOf(g))]) + [|OpenTexts(base + [f])|]
  {
    OpenTextsPush(base, WithChild(f, TreeOf(g)));
    OpenTextsPush(base, f);
    OpenTextsPush(base + [f], g);
  }

  lemma {:induction false} PopTexts(frames: seq<Frame>)
    requires |frames| > 1
    ensures OpenTexts(Popped(frames)) == OpenTexts(frames)
    ensures |Places(frames)| > 1 && Places(Popped(frames)) == Places(frames)[..|Places(frames)| - 1]
  {
    var base, f, g := TopTwo(frames);
    PopTextsOfParts(base, f, g);
    PopPlacesOfParts(base, f, g);
    OpenTextsPush(base, WithChild(f, TreeOf(g)));
  }

  /** The top element's text grows where it stands. */
  lemma {:induction false} GrowTexts(base: seq<Frame>, f: Frame, text: string)
    ensures |OpenTexts(base)| < |OpenTexts(base + [f])|
    ensures OpenTexts(base + [WithText(f, text)]) ==
            var k := |OpenTexts(base)|;
            OpenTexts(base + [f])[k := OpenTexts(base + [f])[k] + text]
    ensures Places(base + [WithText(f, text)]) == Places(base + [f])
  {
    OpenTextsPush(base, f);
    OpenTextsPush(base, WithText(f, text));
  }

  // ---------------------------------------------------------------------------------------
  // The two agree
  // ---------------------------------------------------------------------------------------

  predicate TextsAgree(frames: seq<Frame>, tokens: seq<Token>) {
    OpenTexts(frames) == OwnTexts(tokens) && Places(frames) == OpenNumbers(tokens)
  }

  lemma {:induction false} PlacesOfAll(frames: seq<Frame>)
    ensures |Places(frames)| == |frames|
  {
    if frames != [] {
      PlacesOfAll(frames[..|frames| - 1]);
    }
  }

  lemma {:induction false} StartAgrees(frames: seq<Frame>, rest: seq<Token>, t: Token, f: Frame)
    requires TextsAgree(frames, rest) && t.Start? && f.text == "" && f.done == []
    ensures TextsAgree(frames + [f], rest + [t])
  {
    OwnTextsOfStart(rest, t);
    OpenNumbersNext(rest, t);
    OpenTextsPush(frames, f);
    assert Texts(Preorder([])) == [];
  }

  lemma {:induction false} CharsAgree(base: seq<Frame>, f: Frame, rest: seq<Token>, t: Token)
    requires TextsAgree(base + [f], rest) && t.Chars?
    ensures TextsAgree(base + [WithText(f, t.text)], rest + [t])
  {
    OpenTextsPush(base, f);
    GrowTexts(base, f, t.text);
    OwnTextsOfChars(rest, t, |OpenTexts(base)|);
    OpenNumbersNext(rest, t);
  }

  lemma {:induction false} EndAgrees(frames: seq<Frame>, rest: seq<Token>, t: Token)
    requires TextsAgree(frames, rest) && t.End?
    ensures TextsAgree(if |frames| > 1 then Popped(frames) else frames, rest + [t])
  {
    PlacesOfAll(frames);
    OwnTextsOfOther(rest, t);
    OpenNumbersNext(rest, t);
    if |frames| > 1 {
      PopTexts(frames);
    }
  }

  lemma {:induction false} StepAgrees(s: State, rest: seq<Token>, t: Token)
    requires |s.frames| > 0 && TextsAgree(s.frames, rest) && s.error == None && Step(s, t).error == None
    ensures TextsAgree(Step(s, t).frames, rest + [t])
  {
    match t
    case Start(name, attrs) => StartAgrees(s.frames, rest, t, Frame(name, attrs, "", []));
    case Chars(text) =>
      var top := |s.frames| - 1;
      assert s.frames == s.frames[..top] + [s.frames[top]];
      CharsAgree(s.frames[..top], s.frames[top], rest, t);
    case End => EndAgrees(s.frames, rest, t);
    case Other =>
      OwnTextsOfOther(rest, t);
      OpenNumbersNext(rest, t);
  }

  lemma {:induction false} RunAgrees(tokens: seq<Token>)
    requires Within(tokens)
    ensures TextsAgree(Run(tokens).frames, tokens)
  {
    if tokens == [] {
      OpenTextsPush([], INITIAL.frames[0]);
      assert [] + INITIAL.frames == INITIAL.frames && Texts(Preorder([])) == [];
    } else {
      var rest, t := tokens[..|tokens| - 1], tokens[|tokens| - 1];
      RunAgrees(rest);
      StopsExactlyOverLimits(rest);
      StopsExactlyOverLimits(tokens);
      StepAgrees(Run(rest), rest, t);
      assert rest + [t] == tokens;
    }
  }

  lemma {:induction false} CollapseTexts(frames: seq<Frame>)
    requires |frames| > 0
    ensures [Collapsed(frames).text] + Texts(Preorder(Collapsed(frames).children)) == OpenTexts(frames)
    decreases |frames|
  {
    if |frames| > 1 {
      PopTexts(frames);
      CollapseTexts(Popped(frames));
    } else {
      OpenTextsPush([], frames[0]);
      assert [] + frames == frames && [frames[0]] == frames;
    }
  }

  /**
   * Whatever the nesting: the text of every element, in document order, is the character data the
   * builder accepted while that element was the innermost open one; and the document has the rest.
   */
  lemma {:induction false} TextsAreWhatWasRead(tokens: seq<Token>)
    ensures [Parsed(tokens).text] + Texts(Preorder(Parsed(tokens).children)) == OwnTexts(Accepted(tokens))
  {
    StoppedTreeIsThePrefix(tokens);
    RunAgrees(Accepted(tokens));
    CollapseTexts(Run(Accepted(tokens)).frames);
  }
}
