/**
 * The bounded element tree built from a token stream (feed/parser/xmltree.go), on values: what the
 * stack of open elements holds after each token, and what that says about the finished tree.
 */
module XmlTree {
  import opened Common
  import opened Wrappers
  import opened Seqs
  import opened Text

  const MAX_DEPTH: nat := 64
  const MAX_NODES: nat := 60000
  const MAX_TEXT_BYTES: nat := 6 * 1024 * 1024

  datatype Name = Name(space: string, local: string)

  datatype Attr = Attr(key: Name, value: string)

  /** One token of the decoder; text is a sequence of bytes. */
  datatype Token = Start(name: Name, attrs: seq<Attr>) | End | Chars(text: string) | Other

  datatype Error = NodeLimit | DepthLimit | TextLimit | Syntax | Empty

  datatype Tree = Tree(name: Name, attrs: seq<Attr>, text: string, children: seq<Tree>)

  const DOCUMENT: Name := Name("", "#document")

  // ---------------------------------------------------------------------------------------
  // The builder
  // ---------------------------------------------------------------------------------------

  /** An open element: its finished children so far. */
  datatype Frame = Frame(name: Name, attrs: seq<Attr>, text: string, done: seq<Tree>)

  datatype State = State(frames: seq<Frame>, nodes: nat, textBytes: nat, error: Option<Error>)

  const INITIAL: State := State([Frame(DOCUMENT, [], "", [])], 0, 0, None)

  function TreeOf(f: Frame): Tree {
    Tree(f.name, f.attrs, f.text, f.done)
  }

  function WithText(f: Frame, text: string): Frame {
    f.(text := f.text + text)
  }

  function WithChild(f: Frame, t: Tree): Frame {
    f.(done := f.done + [t])
  }

  /** The top element is finished and becomes the last child of the one below. */
  function Popped(frames: seq<Frame>): (r: seq<Frame>)
    requires |frames| > 1
    ensures |r| == |frames| - 1
  {
    frames[..|frames| - 2] + [WithChild(frames[|frames| - 2], TreeOf(frames[|frames| - 1]))]
  }

  function Step(s: State, t: Token): (r: State)
    requires |s.frames| > 0
    ensures |r.frames| > 0
  {
    if s.error.Some? then s
    else
      match t
      case Start(name, attrs) =>
        if s.nodes + 1 > MAX_NODES then s.(error := Some(NodeLimit))
        else if |s.frames| > MAX_DEPTH then s.(error := Some(DepthLimit))
        else s.(frames := s.frames + [Frame(name, attrs, "", [])], nodes := s.nodes + 1)
      case Chars(text) =>
        if s.textBytes + |text| > MAX_TEXT_BYTES then s.(error := Some(TextLimit))
        else
          var top := |s.frames| - 1;
          s.(frames := s.frames[..top] + [WithText(s.frames[top], text)], textBytes := s.textBytes + |text|)
      case End => if |s.frames| > 1 then s.(frames := Popped(s.frames)) else s
      case Other => s
  }

  function Run(tokens: seq<Token>): (s: State)
    ensures |s.frames| > 0
  {
    if tokens == [] then INITIAL else Step(Run(tokens[..|tokens| - 1]), tokens[|tokens| - 1])
  }

  /** The document, with whatever is still open closed. */
  function Collapsed(frames: seq<Frame>): Tree
    requires |frames| > 0
    decreases |frames|
  {
    if |frames| == 1 then TreeOf(frames[0]) else Collapsed(Popped(frames))
  }

  /** The tree a token stream gives, also when it stops early. */
  function Parsed(tokens: seq<Token>): Tree {
    Collapsed(Run(tokens).frames)
  }

  /** The error, given whether the decoder itself broke off. */
  function ErrorOf(tokens: seq<Token>, broken: bool): Option<Error> {
    if Run(tokens).error.Some? then Run(tokens).error
    else if Parsed(tokens).children != [] then None
    else Some(if broken then Syntax else Empty)
  }

  // ---------------------------------------------------------------------------------------
  // Measures, walk and pre-order of a list of trees
  // ---------------------------------------------------------------------------------------

  function Elements(ts: seq<Tree>): nat {
    if ts == [] then 0
    else Elements(ts[..|ts| - 1]) + 1 + Elements(ts[|ts| - 1].children)
  }

  function Height(ts: seq<Tree>): nat {
    if ts == [] then 0
    else Max(Height(ts[..|ts| - 1]), 1 + Height(ts[|ts| - 1].children))
  }

  function TextIn(ts: seq<Tree>): nat {
    if ts == [] then 0
    else TextIn(ts[..|ts| - 1]) + |ts[|ts| - 1].text| + TextIn(ts[|ts| - 1].children)
  }

  datatype Mark = Open(name: Name, attrs: seq<Attr>) | Close

  /** The start and end marks of the elements, in document order. */
  function Walk(ts: seq<Tree>): seq<Mark> {
    if ts == [] then []
    else
      var last := ts[|ts| - 1];
      Walk(ts[..|ts| - 1]) + [Open(last.name, last.attrs)] + Walk(last.children) + [Close]
  }

  /** Every element, parents before children, in document order. */
  function Preorder(ts: seq<Tree>): seq<Tree> {
    if ts == [] then []
    else Preorder(ts[..|ts| - 1]) + [ts[|ts| - 1]] + Preorder(ts[|ts| - 1].children)
  }

  /** The list before its last tree. */
  lemma Init<T>(ts: seq<T>, t: T)
    ensures (ts + [t])[..|ts|] == ts
  {
  }

  // ---------------------------------------------------------------------------------------
  // Bounds
  // ---------------------------------------------------------------------------------------

  /** The same measures of the open elements; the document itself is no element. */
  function OpenElements(frames: seq<Frame>): nat
    requires |frames| > 0
  {
    if |frames| == 1 then Elements(frames[0].done)
    else OpenElements(frames[..|frames| - 1]) + 1 + Elements(frames[|frames| - 1].done)
  }

  function OpenText(frames: seq<Frame>): nat {
    if frames == [] then 0
    else OpenText(frames[..|frames| - 1]) + |frames[|frames| - 1].text| + TextIn(frames[|frames| - 1].done)
  }

  /** No finished child reaches below the depth limit. */
  predicate Shallow(frames: seq<Frame>) {
    |frames| <= MAX_DEPTH + 1 && forall j | 0 <= j < |frames| :: j + Height(frames[j].done) <= MAX_DEPTH
  }

  lemma OpenElementsPush(frames: seq<Frame>, f: Frame)
    ensures OpenElements(frames + [f]) == (if frames == [] then 0 else OpenElements(frames) + 1) + Elements(f.done)
  {
    Init(frames, f);
  }

  lemma OpenTextPush(frames: seq<Frame>, f: Frame)
    ensures OpenText(frames + [f]) == OpenText(frames) + |f.text| + TextIn(f.done)
  {
    Init(frames, f);
  }

  lemma PopElements(base: seq<Frame>, f: Frame, g: Frame)
    ensures OpenElements(base + [WithChild(f, TreeOf(g))]) == OpenElements((base + [f]) + [g])
  {
    OpenElementsPush(base, WithChild(f, TreeOf(g)));
    OpenElementsPush(base, f);
    OpenElementsPush(base + [f], g);
    Init(f.done, TreeOf(g));
  }

  lemma PopText(base: seq<Frame>, f: Frame, g: Frame)
    ensures OpenText(base + [WithChild(f, TreeOf(g))]) == OpenText((base + [f]) + [g])
  {
    OpenTextPush(base, WithChild(f, TreeOf(g)));
    OpenTextPush(base, f);
    OpenTextPush(base + [f], g);
    Init(f.done, TreeOf(g));
  }

  /** The two top frames, taken apart. */
  lemma TopTwo(frames: seq<Frame>) returns (base: seq<Frame>, f: Frame, g: Frame)
    requires |frames| > 1
    ensures frames == (base + [f]) + [g] && Popped(frames) == base + [WithChild(f, TreeOf(g))]
    ensures base == frames[..|frames| - 2]
  {
    base, f, g := frames[..|frames| - 2], frames[|frames| - 2], frames[|frames| - 1];
  }

  lemma PopMeasures(frames: seq<Frame>)
    requires |frames| > 1
    ensures OpenElements(Popped(frames)) == OpenElements(frames)
    ensures OpenText(Popped(frames)) == OpenText(frames)
  {
    var base, f, g := TopTwo(frames);
    PopElements(base, f, g);
    PopText(base, f, g);
  }

  lemma PopShallow(frames: seq<Frame>)
    requires |frames| > 1 && Shallow(frames)
    ensures Shallow(Popped(frames))
  {
    var n := |frames|;
    Init(frames[n - 2].done, TreeOf(frames[n - 1]));
    assert n - 1 + Height(frames[n - 1].done) <= MAX_DEPTH;
    forall j | 0 <= j < n - 1
      ensures j + Height(Popped(frames)[j].done) <= MAX_DEPTH
    {
      assert j < n - 2 ==> Popped(frames)[j] == frames[j];
    }
  }

  /** The counters the loop keeps are the measures of what it has built. */
  predicate Accounted(s: State) {
    && |s.frames| > 0 && Shallow(s.frames)
    && OpenElements(s.frames) == s.nodes <= MAX_NODES
    && OpenText(s.frames) == s.textBytes <= MAX_TEXT_BYTES
  }

  lemma PushMeasures(frames: seq<Frame>, name: Name, attrs: seq<Attr>)
    requires 0 < |frames| <= MAX_DEPTH && Shallow(frames)
    ensures var next := frames + [Frame(name, attrs, "", [])];
      OpenElements(next) == OpenElements(frames) + 1 && OpenText(next) == OpenText(frames) && Shallow(next)
  {
    OpenElementsPush(frames, Frame(name, attrs, "", []));
    OpenTextPush(frames, Frame(name, attrs, "", []));
  }

  lemma TextMeasures(frames: seq<Frame>, text: string)
    requires |frames| > 0 && Shallow(frames)
    ensures var next := frames[..|frames| - 1] + [WithText(frames[|frames| - 1], text)];
      OpenElements(next) == OpenElements(frames) && OpenText(next) == OpenText(frames) + |text| && Shallow(next)
  {
    var base, f := frames[..|frames| - 1], frames[|frames| - 1];
    assert frames == base + [f];
    OpenElementsPush(base, f);
    OpenTextPush(base, f);
    OpenElementsPush(base, WithText(f, text));
    OpenTextPush(base, WithText(f, text));
    forall j | 0 <= j < |frames|
      ensures j + Height((base + [WithText(f, text)])[j].done) <= MAX_DEPTH
    {
      assert (base + [WithText(f, text)])[j].done == frames[j].done;
    }
  }

  lemma StartAccounted(s: State, name: Name, attrs: seq<Attr>)
    requires Accounted(s)
    ensures Accounted(Step(s, Start(name, attrs)))
  {
    if |s.frames| <= MAX_DEPTH {
      PushMeasures(s.frames, name, attrs);
    }
  }

  lemma CharsAccounted(s: State, text: string)
    requires Accounted(s)
    ensures Accounted(Step(s, Chars(text)))
  {
    TextMeasures(s.frames, text);
  }

  lemma EndAccounted(s: State)
    requires Accounted(s)
    ensures Accounted(Step(s, End))
  {
    if |s.frames| > 1 {
      PopMeasures(s.frames);
      PopShallow(s.frames);
    }
  }

  lemma StepAccounted(s: State, t: Token)
    requires Accounted(s)
    ensures Accounted(Step(s, t))
  {
    match t
    case Start(name, attrs) => StartAccounted(s, name, attrs);
    case Chars(text) => CharsAccounted(s, text);
    case End => EndAccounted(s);
    case Other =>
  }

  lemma {:induction false} RunAccounted(tokens: seq<Token>)
    ensures Accounted(Run(tokens))
  {
    if tokens != [] {
      RunAccounted(tokens[..|tokens| - 1]);
      StepAccounted(Run(tokens[..|tokens| - 1]), tokens[|tokens| - 1]);
    }
  }

  lemma {:induction false} CollapseMeasures(frames: seq<Frame>)
    requires |frames| > 0 && Shallow(frames)
    ensures var t := Collapsed(frames);
      && Elements(t.children) == OpenElements(frames)
      && |t.text| + TextIn(t.children) == OpenText(frames)
      && Height(t.children) <= MAX_DEPTH
    decreases |frames|
  {
    if |frames| > 1 {
      PopMeasures(frames);
      PopShallow(frames);
      CollapseMeasures(Popped(frames));
    } else {
      assert frames[..0] == [];
    }
  }

  /**
   * For every token stream, also one that stops early: at most 60000 elements, 64 levels and 6 MiB
   * of text, and the counters of the loop are exactly the element and byte counts of the tree.
   */
  lemma TreeIsBounded(tokens: seq<Token>)
    ensures var t := Parsed(tokens);
      && Elements(t.children) == Run(tokens).nodes <= 60_000
      && Height(t.children) <= 64
      && |t.text| + TextIn(t.children) == Run(tokens).textBytes <= 6_291_456
  {
    RunAccounted(tokens);
    CollapseMeasures(Run(tokens).frames);
  }

  // ---------------------------------------------------------------------------------------
  // Walking the tree gives the tokens back
  // ---------------------------------------------------------------------------------------

  function LevelAfter(level: nat, t: Token): nat {
    match t
    case Start(_, _) => level + 1
    case End => if level > 0 then level - 1 else 0
    case _ => level
  }

  /** How many elements are open after the tokens, when no limit stops them. */
  function Level(tokens: seq<Token>): nat {
    if tokens == [] then 0 else LevelAfter(Level(tokens[..|tokens| - 1]), tokens[|tokens| - 1])
  }

  function Starts(tokens: seq<Token>): nat {
    if tokens == [] then 0
    else Starts(tokens[..|tokens| - 1]) + if tokens[|tokens| - 1].Start? then 1 else 0
  }

  function Bytes(tokens: seq<Token>): nat {
    if tokens == [] then 0
    else Bytes(tokens[..|tokens| - 1]) + if tokens[|tokens| - 1].Chars? then |tokens[|tokens| - 1].text| else 0
  }

  predicate Fits(tokens: seq<Token>) {
    Level(tokens) <= 64 && Starts(tokens) <= 60_000 && Bytes(tokens) <= 6_291_456
  }

  /** Every beginning of the stream is within the limits. */
  predicate Within(tokens: seq<Token>) {
    tokens == [] || (Fits(tokens) && Within(tokens[..|tokens| - 1]))
  }

  function MarksAfter(marks: seq<Mark>, level: nat, t: Token): seq<Mark> {
    match t
    case Start(name, attrs) => marks + [Open(name, attrs)]
    case End => if level > 0 then marks + [Close] else marks
    case _ => marks
  }

  /** The start and end marks of a stream; an end with nothing open has no mark. */
  function Marks(tokens: seq<Token>): seq<Mark> {
    if tokens == [] then []
    else
      var rest := tokens[..|tokens| - 1];
      MarksAfter(Marks(rest), Level(rest), tokens[|tokens| - 1])
  }

  function Closes(n: nat): seq<Mark> {
    seq(n, _ => Close)
  }

  function OpenWalk(frames: seq<Frame>): seq<Mark>
    requires |frames| > 0
  {
    var top := frames[|frames| - 1];
    if |frames| == 1 then Walk(top.done)
    else OpenWalk(frames[..|frames| - 1]) + [Open(top.name, top.attrs)] + Walk(top.done)
  }

  lemma OpenWalkPush(frames: seq<Frame>, f: Frame)
    ensures OpenWalk(frames + [f])
        == (if frames == [] then [] else OpenWalk(frames) + [Open(f.name, f.attrs)]) + Walk(f.done)
  {
    Init(frames, f);
  }

  lemma PopWalkParts(base: seq<Frame>, f: Frame, g: Frame)
    ensures OpenWalk(base + [WithChild(f, TreeOf(g))]) == OpenWalk((base + [f]) + [g]) + [Close]
  {
    OpenWalkPush(base, WithChild(f, TreeOf(g)));
    OpenWalkPush(base, f);
    OpenWalkPush(base + [f], g);
    Init(f.done, TreeOf(g));
  }

  lemma PopWalk(frames: seq<Frame>)
    requires |frames| > 1
    ensures OpenWalk(Popped(frames)) == OpenWalk(frames) + [Close]
  {
    var base, f, g := TopTwo(frames);
    PopWalkParts(base, f, g);
  }

  lemma PushWalk(frames: seq<Frame>, name: Name, attrs: seq<Attr>)
    requires |frames| > 0
    ensures OpenWalk(frames + [Frame(name, attrs, "", [])]) == OpenWalk(frames) + [Open(name, attrs)]
  {
    OpenWalkPush(frames, Frame(name, attrs, "", []));
  }

  lemma TextWalkParts(base: seq<Frame>, f: Frame, text: string)
    ensures OpenWalk(base + [WithText(f, text)]) == OpenWalk(base + [f])
  {
    OpenWalkPush(base, f);
    OpenWalkPush(base, WithText(f, text));
  }

  lemma TextWalk(frames: seq<Frame>, base: seq<Frame>, f: Frame, text: string)
    requires frames == base + [f]
    ensures OpenWalk(base + [WithText(f, text)]) == OpenWalk(frames)
  {
    TextWalkParts(base, f, text);
  }

  /** What the state has to do with the tokens that led to it. */
  predicate Mirrors(s: State, tokens: seq<Token>) {
    && |s.frames| == Level(tokens) + 1 && s.nodes == Starts(tokens) && s.textBytes == Bytes(tokens)
    && OpenWalk(s.frames) == Marks(tokens)
  }

  /** A stream with one more token. */
  lemma OneMore(rest: seq<Token>, t: Token)
    ensures Level(rest + [t]) == LevelAfter(Level(rest), t)
    ensures Starts(rest + [t]) == Starts(rest) + (if t.Start? then 1 else 0)
    ensures Bytes(rest + [t]) == Bytes(rest) + (if t.Chars? then |t.text| else 0)
    ensures Marks(rest + [t]) == MarksAfter(Marks(rest), Level(rest), t)
  {
    Init(rest, t);
  }

  lemma StartMirrors(s: State, rest: seq<Token>, name: Name, attrs: seq<Attr>)
    requires Mirrors(s, rest) && s.error == None && Fits(rest)
    ensures Step(s, Start(name, attrs)).error == None <==> Fits(rest + [Start(name, attrs)])
    ensures Step(s, Start(name, attrs)).error == None ==>
              Mirrors(Step(s, Start(name, attrs)), rest + [Start(name, attrs)])
  {
    OneMore(rest, Start(name, attrs));
    PushWalk(s.frames, name, attrs);
  }

  lemma CharsMirrors(s: State, rest: seq<Token>, text: string)
    requires Mirrors(s, rest) && s.error == None && Fits(rest)
    ensures Step(s, Chars(text)).error == None <==> Fits(rest + [Chars(text)])
    ensures Step(s, Chars(text)).error == None ==> Mirrors(Step(s, Chars(text)), rest + [Chars(text)])
  {
    var top := |s.frames| - 1;
    OneMore(rest, Chars(text));
    TextWalk(s.frames, s.frames[..top], s.frames[top], text);
  }

  lemma EndMirrors(s: State, rest: seq<Token>)
    requires Mirrors(s, rest) && s.error == None && Fits(rest)
    ensures Step(s, End).error == None && Fits(rest + [End]) && Mirrors(Step(s, End), rest + [End])
  {
    OneMore(rest, End);
    if |s.frames| > 1 {
      PopWalk(s.frames);
    }
  }

  lemma StepMirrors(s: State, rest: seq<Token>, t: Token)
    requires Mirrors(s, rest) && s.error == None && Fits(rest)
    ensures Step(s, t).error == None <==> Fits(rest + [t])
    ensures Step(s, t).error == None ==> Mirrors(Step(s, t), rest + [t])
  {
    match t
    case Start(name, attrs) => StartMirrors(s, rest, name, attrs);
    case Chars(text) => CharsMirrors(s, rest, text);
    case End => EndMirrors(s, rest);
    case Other => OneMore(rest, Other);
  }

  /** The builder stops with a limit error exactly when some beginning of the stream is over a limit. */
  lemma {:induction false} StopsExactlyOverLimits(tokens: seq<Token>)
    ensures Run(tokens).error == None <==> Within(tokens)
    ensures Within(tokens) ==> Mirrors(Run(tokens), tokens) && Fits(tokens)
  {
    if tokens == [] {
      assert OpenWalk(INITIAL.frames) == [];
    } else {
      var rest, t := tokens[..|tokens| - 1], tokens[|tokens| - 1];
      StopsExactlyOverLimits(rest);
      assert tokens == rest + [t];
      if Within(rest) {
        StepMirrors(Run(rest), rest, t);
      }
    }
  }

  lemma {:induction false} CollapseWalk(frames: seq<Frame>)
    requires |frames| > 0
    ensures Walk(Collapsed(frames).children) == OpenWalk(frames) + Closes(|frames| - 1)
    decreases |frames|
  {
    if |frames| > 1 {
      PopWalk(frames);
      CollapseWalk(Popped(frames));
      assert [Close] + Closes(|frames| - 2) == Closes(|frames| - 1);
    }
  }

  /**
   * For every stream within the limits the tree's walk is the stream's start and end sequence, with
   * ends that close nothing left out and the missing ends put after it.
   */
  lemma WalkGivesBackTheStream(tokens: seq<Token>)
    requires Within(tokens)
    ensures Walk(Parsed(tokens).children) == Marks(tokens) + Closes(Level(tokens))
  {
    StopsExactlyOverLimits(tokens);
    CollapseWalk(Run(tokens).frames);
  }

  /** Well nested: no end closes nothing, and nothing is left open. */
  predicate WellNested(tokens: seq<Token>) {
    Level(tokens) == 0 && forall k | 0 <= k < |tokens| && tokens[k].End? :: Level(tokens[..k]) > 0
  }

  /** The start and end tokens as they stand. */
  function Skeleton(tokens: seq<Token>): seq<Mark> {
    if tokens == [] then []
    else
      var rest := Skeleton(tokens[..|tokens| - 1]);
      match tokens[|tokens| - 1]
      case Start(name, attrs) => rest + [Open(name, attrs)]
      case End => rest + [Close]
      case _ => rest
  }

  lemma {:induction false} MarksAreSkeleton(tokens: seq<Token>)
    requires forall k | 0 <= k < |tokens| && tokens[k].End? :: Level(tokens[..k]) > 0
    ensures Marks(tokens) == Skeleton(tokens)
  {
    if tokens != [] {
      var rest := tokens[..|tokens| - 1];
      forall k | 0 <= k < |rest| && rest[k].End?
        ensures Level(rest[..k]) > 0
      {
        assert rest[..k] == tokens[..k];
      }
      MarksAreSkeleton(rest);
    }
  }

  /** For a well-nested stream within the limits, walking the tree gives the start and end sequence back. */
  lemma WellNestedRoundTrip(tokens: seq<Token>)
    requires Within(tokens) && WellNested(tokens)
    ensures Walk(Parsed(tokens).children) == Skeleton(tokens)
  {
    WalkGivesBackTheStream(tokens);
    MarksAreSkeleton(tokens);
  }

  /** The longest beginning of a stream that is within the limits. */
  function Accepted(tokens: seq<Token>): (prefix: seq<Token>)
    ensures prefix <= tokens && Within(prefix)
    ensures |prefix| < |tokens| ==> !Within(tokens[..|prefix| + 1])
  {
    if Within(tokens) then tokens
    else
      var prefix := Accepted(tokens[..|tokens| - 1]);
      assert |prefix| < |tokens| - 1 ==> tokens[..|tokens| - 1][..|prefix| + 1] == tokens[..|prefix| + 1];
      assert |prefix| == |tokens| - 1 ==> tokens[..|prefix| + 1] == tokens;
      prefix
  }

  /** A stream over the limits gives the tree of its longest beginning within them. */
  lemma {:induction false} StoppedTreeIsThePrefix(tokens: seq<Token>)
    ensures Parsed(tokens) == Parsed(Accepted(tokens))
  {
    if !Within(tokens) {
      StoppedKeepsFrames(tokens);
      StoppedTreeIsThePrefix(tokens[..|tokens| - 1]);
    }
  }

  lemma StoppedKeepsFrames(tokens: seq<Token>)
    requires !Within(tokens)
    ensures Run(tokens).frames == Run(tokens[..|tokens| - 1]).frames
  {
    StopsExactlyOverLimits(tokens);
  }

  // ---------------------------------------------------------------------------------------
  // Descendants
  // ---------------------------------------------------------------------------------------

  predicate EqualFold(a: string, b: string) {
    Lower(a) == Lower(b)
  }

  predicate Named(name: Name, names: seq<string>) {
    exists i | 0 <= i < |names| :: EqualFold(name.local, names[i])
  }

  /** Names are compared letter by letter, capital and small letters being the same. */
  lemma EqualFoldMeans(a: string, b: string)
    ensures EqualFold(a, b) <==>
            |a| == |b| && forall i | 0 <= i < |a| ::
              || a[i] == b[i]
              || (65 <= a[i] as int <= 90 && b[i] as int == a[i] as int + 32)
              || (65 <= b[i] as int <= 90 && a[i] as int == b[i] as int + 32)
  {
    if EqualFold(a, b) {
      forall i | 0 <= i < |a|
        ensures LowerChar(a[i]) == LowerChar(b[i])
      {
        assert Lower(a)[i] == Lower(b)[i];
      }
    }
  }

  /** Every descendant with one of the names, as the recursive walk collects them. */
  function Descendants(ts: seq<Tree>, names: seq<string>): seq<Tree> {
    if ts == [] then []
    else
      var last := ts[|ts| - 1];
      Descendants(ts[..|ts| - 1], names) + (if Named(last.name, names) then [last] else [])
          + Descendants(last.children, names)
  }

  /** The walk is the filter of the pre-order. */
  lemma {:induction false} DescendantsFilterPreorder(ts: seq<Tree>, names: seq<string>)
    ensures Descendants(ts, names) == Filter(Preorder(ts), (t: Tree) => Named(t.name, names))
  {
    if ts != [] {
      var rest, last := ts[..|ts| - 1], ts[|ts| - 1];
      DescendantsFilterPreorder(rest, names);
      DescendantsFilterPreorder(last.children, names);
      FilterAround(Preorder(rest), last, Preorder(last.children), (t: Tree) => Named(t.name, names));
    }
  }

  /** The opening marks of the elements of a list, in its order. */
  function Opens(ts: seq<Tree>): (ms: seq<Mark>)
    ensures |ms| == |ts|
  {
    seq(|ts|, i requires 0 <= i < |ts| => Open(ts[i].name, ts[i].attrs))
  }

  function OnlyOpens(ms: seq<Mark>): seq<Mark> {
    Filter(ms, (m: Mark) => m.Open?)
  }

  lemma {:induction false} PreorderIsWalkOrder(ts: seq<Tree>)
    ensures Opens(Preorder(ts)) == OnlyOpens(Walk(ts))
  {
    if ts != [] {
      var rest, last := ts[..|ts| - 1], ts[|ts| - 1];
      var open := Open(last.name, last.attrs);
      PreorderIsWalkOrder(rest);
      PreorderIsWalkOrder(last.children);
      OpensOfParts(Preorder(rest), last, Preorder(last.children));
      OpensOfMarks(Walk(rest), open, Walk(last.children));
    }
  }

  lemma OpensOfParts(a: seq<Tree>, t: Tree, b: seq<Tree>)
    ensures Opens(a + [t] + b) == Opens(a) + [Open(t.name, t.attrs)] + Opens(b)
  {
  }

  lemma OpensOfMarks(a: seq<Mark>, open: Mark, b: seq<Mark>)
    requires open.Open?
    ensures OnlyOpens(a + [open] + b + [Close]) == OnlyOpens(a) + [open] + OnlyOpens(b)
  {
    var p := (m: Mark) => m.Open?;
    FilterAround(a + [open] + b, Close, [], p);
    FilterAround(a, open, b, p);
    assert a + [open] + b + [Close] + [] == a + [open] + b + [Close];
  }

  /** The start tokens of a stream as marks. */
  function StartMarks(tokens: seq<Token>): seq<Mark> {
    if tokens == [] then []
    else
      var t := tokens[|tokens| - 1];
      StartMarks(tokens[..|tokens| - 1]) + (if t.Start? then [Open(t.name, t.attrs)] else [])
  }

  lemma {:induction false} OpensOfStream(tokens: seq<Token>)
    ensures OnlyOpens(Marks(tokens)) == StartMarks(tokens)
  {
    if tokens != [] {
      var rest, t := tokens[..|tokens| - 1], tokens[|tokens| - 1];
      OpensOfStream(rest);
      if t.Start? {
        FilterConcat(Marks(rest), [Open(t.name, t.attrs)], (m: Mark) => m.Open?);
      } else if t.End? {
        FilterConcat(Marks(rest), [Close], (m: Mark) => m.Open?);
      }
    }
  }

  /**
   * Whatever the nesting: the elements of the tree, in document order, are the start tokens the
   * builder accepted, in the order of the stream.
   */
  lemma ElementsAreTheStartTokens(tokens: seq<Token>)
    ensures Opens(Preorder(Parsed(tokens).children)) == StartMarks(Accepted(tokens))
  {
    var prefix := Accepted(tokens);
    var ts := Parsed(prefix).children;
    StoppedTreeIsThePrefix(tokens);
    PreorderIsWalkOrder(ts);
    WalkGivesBackTheStream(prefix);
    FilterConcat(Marks(prefix), Closes(Level(prefix)), (m: Mark) => m.Open?);
    FilterNone(Closes(Level(prefix)), (m: Mark) => m.Open?);
    OpensOfStream(prefix);
  }
}
