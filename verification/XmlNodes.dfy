/**
 * The element nodes as feed/parser/xmltree.go builds them: objects whose children and text grow in
 * place while a stack of open nodes is pushed and popped. The finished nodes are shown to be the
 * tree of the token stream.
 */
module XmlNodes {
  import opened Seqs
  import opened Wrappers
  import opened XmlTree

  class Node {
    const name: Name
    const attrs: seq<Attr>
    var text: string
    var children: seq<Node>

    constructor (name: Name, attrs: seq<Attr>)
      ensures this.name == name && this.attrs == attrs && text == "" && children == []
    {
      this.name := name;
      this.attrs := attrs;
      text := "";
      children := [];
    }
  }

  /** The node and everything below it, all of it in `done`, is this tree. */
  ghost predicate Represents(n: Node, t: Tree, done: set<Node>)
    reads done
    decreases t
  {
    && n in done && n.name == t.name && n.attrs == t.attrs && n.text == t.text
    && |n.children| == |t.children|
    && forall k | 0 <= k < |n.children| :: Represents(n.children[k], t.children[k], done)
  }

  ghost predicate RepresentsAll(ns: seq<Node>, ts: seq<Tree>, done: set<Node>)
    reads done
  {
    |ns| == |ts| && forall k | 0 <= k < |ns| :: Represents(ns[k], ts[k], done)
  }

  lemma {:induction false} RepresentsMore(n: Node, t: Tree, done: set<Node>, more: set<Node>)
    requires Represents(n, t, done) && done <= more
    ensures Represents(n, t, more)
    decreases t
  {
    forall k | 0 <= k < |n.children|
      ensures Represents(n.children[k], t.children[k], more)
    {
      RepresentsMore(n.children[k], t.children[k], done, more);
    }
  }

  /** An open node: its finished children, then the next open node if there is one. */
  ghost predicate FrameHolds(n: Node, f: Frame, next: seq<Node>, done: set<Node>)
    reads n, done
  {
    && n !in done && n.name == f.name && n.attrs == f.attrs && n.text == f.text
    && |n.children| == |f.done| + |next|
    && n.children[|f.done|..] == next
    && RepresentsAll(n.children[..|f.done|], f.done, done)
  }

  function NextOpen(stack: seq<Node>, j: nat): seq<Node>
    requires j < |stack|
  {
    if j < |stack| - 1 then [stack[j + 1]] else []
  }

  /** The stack of open nodes is the builder's frames. */
  ghost predicate Holds(stack: seq<Node>, frames: seq<Frame>, done: set<Node>)
    reads stack, done
  {
    && |stack| == |frames| > 0
    && (forall i, j | 0 <= i < j < |stack| :: stack[i] != stack[j])
    && (forall j | 0 <= j < |stack| :: FrameHolds(stack[j], frames[j], NextOpen(stack, j), done))
  }

  lemma FrameHoldsMore(n: Node, f: Frame, next: seq<Node>, done: set<Node>, more: set<Node>)
    requires FrameHolds(n, f, next, done) && done <= more && n !in more
    ensures FrameHolds(n, f, next, more)
  {
    forall k | 0 <= k < |f.done|
      ensures Represents(n.children[..|f.done|][k], f.done[k], more)
    {
      RepresentsMore(n.children[k], f.done[k], done, more);
    }
  }

  /** A node with nothing open inside is finished. */
  lemma Finished(n: Node, f: Frame, done: set<Node>)
    requires FrameHolds(n, f, [], done)
    ensures Represents(n, TreeOf(f), done + {n})
  {
    assert n.children[..|f.done|] == n.children;
    forall k | 0 <= k < |n.children|
      ensures Represents(n.children[k], f.done[k], done + {n})
    {
      assert Represents(n.children[..|f.done|][k], f.done[k], done);
      RepresentsMore(n.children[k], f.done[k], done, done + {n});
    }
  }

  /** The parent of a finished node holds it among its finished children. */
  lemma ParentTakes(n: Node, f: Frame, child: Node, t: Tree, done: set<Node>)
    requires FrameHolds(n, f, [child], done) && Represents(child, t, done)
    ensures FrameHolds(n, WithChild(f, t), [], done)
  {
    var k := |f.done|;
    assert n.children[k] == n.children[k..][0] == child;
    assert n.children[..k + 1] == n.children[..k] + [child] == n.children;
  }

  /** Popping the stack changes no object: the popped node is finished. */
  lemma PopHolds(stack: seq<Node>, frames: seq<Frame>, done: set<Node>)
    requires Holds(stack, frames, done) && |stack| > 1
    ensures Holds(stack[..|stack| - 1], Popped(frames), done + {stack[|stack| - 1]})
  {
    var n := |stack|;
    var top, parent, more := stack[n - 1], stack[n - 2], done + {stack[n - 1]};
    var short := stack[..n - 1];
    Finished(top, frames[n - 1], done);
    FrameHoldsMore(parent, frames[n - 2], [top], done, more);
    ParentTakes(parent, frames[n - 2], top, TreeOf(frames[n - 1]), more);
    forall j | 0 <= j < n - 1
      ensures FrameHolds(short[j], Popped(frames)[j], NextOpen(short, j), more)
    {
      if j < n - 2 {
        assert Popped(frames)[j] == frames[j] && NextOpen(short, j) == NextOpen(stack, j);
        FrameHoldsMore(stack[j], frames[j], NextOpen(stack, j), done, more);
      }
    }
  }

  function NodesOf(stack: seq<Node>): set<Node> {
    set n | n in stack
  }

  lemma NodesOfTop(stack: seq<Node>)
    requires |stack| > 0
    ensures NodesOf(stack) == NodesOf(stack[..|stack| - 1]) + {stack[|stack| - 1]}
  {
    assert stack == stack[..|stack| - 1] + [stack[|stack| - 1]];
  }

  /** Whatever is still open, the root already is the collapsed tree. */
  lemma {:induction false} RootIsCollapsed(stack: seq<Node>, frames: seq<Frame>, done: set<Node>, all: set<Node>)
    requires Holds(stack, frames, done) && all == done + NodesOf(stack)
    ensures Represents(stack[0], Collapsed(frames), all)
    decreases |stack|
  {
    NodesOfTop(stack);
    if |stack| == 1 {
      Finished(stack[0], frames[0], done);
      assert all == done + {stack[0]};
    } else {
      var top := |stack| - 1;
      PopHolds(stack, frames, done);
      RootIsCollapsed(stack[..top], Popped(frames), done + {stack[top]}, all);
    }
  }

  method OpenElement(stack: seq<Node>, name: Name, attrs: seq<Attr>, ghost frames: seq<Frame>, ghost done: set<Node>)
    returns (longer: seq<Node>)
    requires Holds(stack, frames, done)
    modifies stack[|stack| - 1]
    ensures |longer| == |stack| + 1 && longer[..|stack|] == stack && fresh(longer[|stack|])
    ensures Holds(longer, frames + [Frame(name, attrs, "", [])], done)
  {
    var top := |stack| - 1;
    var n := new Node(name, attrs);
    var parent := stack[top];
    parent.children := parent.children + [n];
    longer := stack + [n];
    ghost var next := frames + [Frame(name, attrs, "", [])];
    forall j | 0 <= j < |longer|
      ensures FrameHolds(longer[j], next[j], NextOpen(longer, j), done)
    {
      if j < top {
        assert old(FrameHolds(stack[j], frames[j], NextOpen(stack, j), done));
      } else if j == top {
        assert old(FrameHolds(stack[j], frames[j], [], done));
        assert parent.children[..|frames[j].done|] == old(parent.children);
      }
    }
  }

  method AppendText(stack: seq<Node>, text: string, ghost frames: seq<Frame>, ghost done: set<Node>)
    requires Holds(stack, frames, done)
    modifies stack[|stack| - 1]
    ensures Holds(stack, frames[..|frames| - 1] + [WithText(frames[|frames| - 1], text)], done)
  {
    var top := stack[|stack| - 1];
    top.text := top.text + text;
    ghost var next := frames[..|frames| - 1] + [WithText(frames[|frames| - 1], text)];
    forall j | 0 <= j < |stack|
      ensures FrameHolds(stack[j], next[j], NextOpen(stack, j), done)
    {
      assert old(FrameHolds(stack[j], frames[j], NextOpen(stack, j), done));
    }
  }

  /** After an error no token counts. */
  lemma {:induction false} ErrorIsFinal(tokens: seq<Token>, k: nat)
    requires k <= |tokens| && Run(tokens[..k]).error.Some?
    ensures Run(tokens) == Run(tokens[..k])
    decreases |tokens|
  {
    if k == |tokens| {
      assert tokens[..k] == tokens;
    } else {
      var rest := tokens[..|tokens| - 1];
      assert rest[..k] == tokens[..k];
      ErrorIsFinal(rest, k);
    }
  }

  lemma RunGrows(tokens: seq<Token>, i: nat)
    requires i < |tokens|
    ensures Run(tokens[..i + 1]) == Step(Run(tokens[..i]), tokens[i])
  {
    assert tokens[..i + 1][..i] == tokens[..i];
  }

  /** An element starts, unless a limit is reached. */
  method AcceptStart(stack: seq<Node>, name: Name, attrs: seq<Attr>, nodes: nat, ghost s: State, ghost done: set<Node>)
    returns (next: seq<Node>, stop: Option<Error>)
    requires Holds(stack, s.frames, done) && s.nodes == nodes && s.error == None
    modifies stack[|stack| - 1]
    ensures Holds(next, Step(s, Start(name, attrs)).frames, done) && stop == Step(s, Start(name, attrs)).error
    ensures next[0] == stack[0] && fresh(NodesOf(next) - NodesOf(stack))
  {
    next, stop := stack, None;
    if nodes + 1 > MAX_NODES {
      stop := Some(NodeLimit);
    } else if |stack| > MAX_DEPTH {
      stop := Some(DepthLimit);
    } else {
      next := OpenElement(stack, name, attrs, s.frames, done);
      NodesOfTop(next);
      assert next[0] == next[..|stack|][0];
    }
  }

  /** The innermost open element ends; an end with nothing open is ignored. */
  method AcceptEnd(stack: seq<Node>, ghost s: State, ghost done: set<Node>)
    returns (next: seq<Node>, ghost finished: set<Node>)
    requires Holds(stack, s.frames, done) && s.error == None
    ensures Holds(next, Step(s, End).frames, finished)
    ensures next[0] == stack[0] && finished + NodesOf(next) == done + NodesOf(stack)
  {
    next, finished := stack, done;
    if |stack| > 1 {
      PopHolds(stack, s.frames, done);
      finished := done + {stack[|stack| - 1]};
      next := stack[..|stack| - 1];
      NodesOfTop(stack);
    }
  }

  /** Character data goes to the innermost open element, unless a limit is reached. */
  method AcceptChars(stack: seq<Node>, text: string, textBytes: nat, ghost s: State, ghost done: set<Node>)
    returns (stop: Option<Error>)
    requires Holds(stack, s.frames, done) && s.textBytes == textBytes && s.error == None
    modifies stack[|stack| - 1]
    ensures Holds(stack, Step(s, Chars(text)).frames, done) && stop == Step(s, Chars(text)).error
  {
    stop := None;
    if textBytes + |text| > MAX_TEXT_BYTES {
      stop := Some(TextLimit);
    } else {
      AppendText(stack, text, s.frames, done);
    }
  }

  /** One token: the body of the reading loop. */
  method Accept(stack: seq<Node>, t: Token, nodes: nat, textBytes: nat, ghost frames: seq<Frame>, ghost done: set<Node>)
    returns (next: seq<Node>, nodes': nat, textBytes': nat, stop: Option<Error>, ghost finished: set<Node>)
    requires Holds(stack, frames, done)
    modifies stack[|stack| - 1]
    ensures var s := Step(State(frames, nodes, textBytes, None), t);
      && Holds(next, s.frames, finished) && stop == s.error
      && (stop == None ==> nodes' == s.nodes && textBytes' == s.textBytes)
    ensures next[0] == stack[0] && fresh(finished + NodesOf(next) - done - NodesOf(stack))
  {
    ghost var s := State(frames, nodes, textBytes, None);
    next, nodes', textBytes', stop, finished := stack, nodes, textBytes, None, done;
    match t {
      case Start(name, attrs) =>
        nodes' := nodes + 1;
        next, stop := AcceptStart(stack, name, attrs, nodes, s, done);
      case Chars(text) =>
        textBytes' := textBytes + |text|;
        stop := AcceptChars(stack, text, textBytes, s, done);
      case End =>
        next, finished := AcceptEnd(stack, s, done);
      case Other =>
    }
  }

  /** What the reading loop knows after i tokens. */
  ghost predicate Reading(tokens: seq<Token>, i: nat, stack: seq<Node>, nodes: nat, textBytes: nat, done: set<Node>)
    requires i <= |tokens|
    reads stack, done
  {
    var s := Run(tokens[..i]);
    s == State(s.frames, nodes, textBytes, None) && Holds(stack, s.frames, done)
  }

  /** The last of i tokens hit a limit. */
  ghost predicate Stopped(tokens: seq<Token>, i: nat, stack: seq<Node>, stop: Error, done: set<Node>)
    requires i <= |tokens|
    reads stack, done
  {
    Run(tokens[..i]).error == Some(stop) && Holds(stack, Run(tokens[..i]).frames, done)
  }

  lemma StoppedTree(tokens: seq<Token>, i: nat, stack: seq<Node>, stop: Error, done: set<Node>, broken: bool)
    requires i <= |tokens| && Stopped(tokens, i, stack, stop, done)
    ensures Represents(stack[0], Parsed(tokens), done + NodesOf(stack))
    ensures ErrorOf(tokens, broken) == Some(stop)
  {
    ErrorIsFinal(tokens, i);
    RootIsCollapsed(stack, Run(tokens[..i]).frames, done, done + NodesOf(stack));
  }

  lemma FinishedTree(tokens: seq<Token>, stack: seq<Node>, nodes: nat, textBytes: nat, done: set<Node>, broken: bool)
    requires Reading(tokens, |tokens|, stack, nodes, textBytes, done)
    ensures Represents(stack[0], Parsed(tokens), done + NodesOf(stack))
    ensures ErrorOf(tokens, broken) == if |stack[0].children| > 0 then None else Some(if broken then Syntax else Empty)
  {
    assert tokens[..|tokens|] == tokens;
    RootIsCollapsed(stack, Run(tokens).frames, done, done + NodesOf(stack));
  }

  lemma NothingRead(tokens: seq<Token>, root: Node)
    requires root.name == DOCUMENT && root.attrs == [] && root.text == "" && root.children == []
    ensures Reading(tokens, 0, [root], 0, 0, {})
  {
    assert tokens[..0] == [];
    assert FrameHolds(root, INITIAL.frames[0], [], {});
  }

  method ReadNext(tokens: seq<Token>, i: nat, stack: seq<Node>, nodes: nat, textBytes: nat, ghost done: set<Node>)
    returns (next: seq<Node>, nodes': nat, textBytes': nat, stop: Option<Error>, ghost finished: set<Node>)
    requires i < |tokens| && Reading(tokens, i, stack, nodes, textBytes, done)
    modifies stack[|stack| - 1]
    ensures stop == None ==> Reading(tokens, i + 1, next, nodes', textBytes', finished)
    ensures stop.Some? ==> Stopped(tokens, i + 1, next, stop.value, finished)
    ensures |next| > 0 && next[0] == stack[0] && fresh(finished + NodesOf(next) - done - NodesOf(stack))
  {
    RunGrows(tokens, i);
    next, nodes', textBytes', stop, finished :=
        Accept(stack, tokens[i], nodes, textBytes, Run(tokens[..i]).frames, done);
  }

  /** The reading loop. */
  method ReadTokens(tokens: seq<Token>)
    returns (stack: seq<Node>, nodes: nat, textBytes: nat, stop: Option<Error>, ghost done: set<Node>, read: nat)
    ensures |stack| > 0 && fresh(done + NodesOf(stack)) && read <= |tokens|
    ensures stop == None ==> Reading(tokens, |tokens|, stack, nodes, textBytes, done)
    ensures stop.Some? ==> Stopped(tokens, read, stack, stop.value, done)
  {
    var root := new Node(DOCUMENT, []);
    stack, nodes, textBytes, stop, done, read := [root], 0, 0, None, {}, 0;
    NothingRead(tokens, root);
    while read < |tokens|
      invariant |stack| > 0 && fresh(done + NodesOf(stack)) && read <= |tokens|
      invariant stop == None && Reading(tokens, read, stack, nodes, textBytes, done)
      decreases |tokens| - read
    {
      stack, nodes, textBytes, stop, done := ReadNext(tokens, read, stack, nodes, textBytes, done);
      read := read + 1;
      if stop.Some? {
        return;
      }
    }
  }

  /**
   * Reads tokens until the stream ends, breaks off, or hits a limit. Whatever happens, the root that
   * is returned is the tree of the tokens accepted so far, made of new nodes only.
   */
  method ParseTree(tokens: seq<Token>, broken: bool) returns (root: Node, error: Option<Error>, ghost built: set<Node>)
    ensures fresh(built) && Represents(root, Parsed(tokens), built)
    ensures error == ErrorOf(tokens, broken)
  {
    var stack, nodes, textBytes, stop, read;
    ghost var done;
    stack, nodes, textBytes, stop, done, read := ReadTokens(tokens);
    root, built := stack[0], done + NodesOf(stack);
    if stop.Some? {
      StoppedTree(tokens, read, stack, stop.value, done, broken);
      error := stop;
    } else {
      FinishedTree(tokens, stack, nodes, textBytes, done, broken);
      error := if |root.children| > 0 then None else Some(if broken then Syntax else Empty);
    }
  }

  // ---------------------------------------------------------------------------------------
  // Searching the finished nodes
  // ---------------------------------------------------------------------------------------

  lemma RepresentsJoined(a: seq<Node>, b: seq<Node>, s: seq<Tree>, t: seq<Tree>, done: set<Node>)
    requires RepresentsAll(a, s, done) && RepresentsAll(b, t, done)
    ensures RepresentsAll(a + b, s + t, done)
  {
  }

  lemma RepresentsFirst(ns: seq<Node>, ts: seq<Tree>, n: nat, built: set<Node>)
    requires RepresentsAll(ns, ts, built) && n < |ns|
    ensures RepresentsAll(ns[..n], ts[..n], built) && RepresentsAll(ns[n].children, ts[n].children, built)
  {
    assert Represents(ns[n], ts[n], built);
  }

  /** The nodes of a list and everything below them, parents first, in document order. */
  ghost function NodesBelow(ns: seq<Node>, ts: seq<Tree>, built: set<Node>): (r: seq<Node>)
    requires RepresentsAll(ns, ts, built)
    reads built
    decreases ts
  {
    if ts == [] then []
    else
      var n := |ts| - 1;
      RepresentsFirst(ns, ts, n, built);
      NodesBelow(ns[..n], ts[..n], built) + [ns[n]] + NodesBelow(ns[n].children, ts[n].children, built)
  }

  /** There is a way down from the node to the other. */
  ghost predicate LiesBelow(cur: Node, other: Node, t: Tree, built: set<Node>)
    requires Represents(cur, t, built)
    reads built
    decreases t
  {
    exists k | 0 <= k < |cur.children| ::
      cur.children[k] == other || LiesBelow(cur.children[k], other, t.children[k], built)
  }

  /** Some node of the list is it, or has it below. */
  ghost predicate InOrBelow(ns: seq<Node>, ts: seq<Tree>, other: Node, built: set<Node>)
    requires RepresentsAll(ns, ts, built)
    reads built
  {
    exists k | 0 <= k < |ns| :: ns[k] == other || LiesBelow(ns[k], other, ts[k], built)
  }

  lemma InOrBelowSplit(ns: seq<Node>, ts: seq<Tree>, other: Node, built: set<Node>)
    requires RepresentsAll(ns, ts, built) && |ns| > 0
    ensures var n := |ns| - 1;
      InOrBelow(ns, ts, other, built) <==>
        InOrBelow(ns[..n], ts[..n], other, built) || ns[n] == other || LiesBelow(ns[n], other, ts[n], built)
  {
    var n := |ns| - 1;
    if InOrBelow(ns[..n], ts[..n], other, built) {
      var k :| 0 <= k < n && (ns[..n][k] == other || LiesBelow(ns[..n][k], other, ts[..n][k], built));
      assert ns[k] == other || LiesBelow(ns[k], other, ts[k], built);
    }
    if InOrBelow(ns, ts, other, built) && ns[n] != other && !LiesBelow(ns[n], other, ts[n], built) {
      var k :| 0 <= k < |ns| && (ns[k] == other || LiesBelow(ns[k], other, ts[k], built));
      assert ns[..n][k] == other || LiesBelow(ns[..n][k], other, ts[..n][k], built);
    }
  }

  /** The list holds exactly the nodes there is a way to. */
  lemma {:induction false} NodesBelowAreReached(ns: seq<Node>, ts: seq<Tree>, other: Node, built: set<Node>)
    requires RepresentsAll(ns, ts, built)
    ensures other in NodesBelow(ns, ts, built) <==> InOrBelow(ns, ts, other, built)
    decreases ts
  {
    if ts != [] {
      var n := |ts| - 1;
      RepresentsFirst(ns, ts, n, built);
      NodesBelowAreReached(ns[..n], ts[..n], other, built);
      NodesBelowAreReached(ns[n].children, ts[n].children, other, built);
      InOrBelowSplit(ns, ts, other, built);
    }
  }

  /** And they are the pre-order of the trees. */
  lemma {:induction false} NodesBelowArePreorder(ns: seq<Node>, ts: seq<Tree>, built: set<Node>)
    requires RepresentsAll(ns, ts, built)
    ensures RepresentsAll(NodesBelow(ns, ts, built), Preorder(ts), built)
    decreases ts
  {
    if ts != [] {
      var n := |ts| - 1;
      RepresentsFirst(ns, ts, n, built);
      NodesBelowArePreorder(ns[..n], ts[..n], built);
      NodesBelowArePreorder(ns[n].children, ts[n].children, built);
      RepresentsJoined(NodesBelow(ns[..n], ts[..n], built), [ns[n]], Preorder(ts[..n]), [ts[n]], built);
      RepresentsJoined(NodesBelow(ns[..n], ts[..n], built) + [ns[n]], NodesBelow(ns[n].children, ts[n].children, built),
                       Preorder(ts[..n]) + [ts[n]], Preorder(ts[n].children), built);
    }
  }

  function WithName(ns: seq<Node>, names: seq<string>): seq<Node> {
    Filter(ns, (n: Node) => Named(n.name, names))
  }

  lemma {:induction false} FilterRepresents(ns: seq<Node>, ts: seq<Tree>, names: seq<string>, built: set<Node>)
    requires RepresentsAll(ns, ts, built)
    ensures RepresentsAll(WithName(ns, names), Filter(ts, (t: Tree) => Named(t.name, names)), built)
  {
    if ns != [] {
      assert Represents(ns[0], ts[0], built);
      FilterRepresents(ns[1..], ts[1..], names, built);
    }
  }

  /** The nodes found are the matching descendants of the trees. */
  lemma FoundAreDescendants(ns: seq<Node>, ts: seq<Tree>, names: seq<string>, built: set<Node>)
    requires RepresentsAll(ns, ts, built)
    ensures RepresentsAll(WithName(NodesBelow(ns, ts, built), names), Descendants(ts, names), built)
  {
    NodesBelowArePreorder(ns, ts, built);
    FilterRepresents(NodesBelow(ns, ts, built), Preorder(ts), names, built);
    DescendantsFilterPreorder(ts, names);
  }

  /** What the walk has found among the first i nodes of a list. */
  ghost predicate Searched(ns: seq<Node>, ts: seq<Tree>, i: nat, names: seq<string>, built: set<Node>, out: seq<Node>,
      r: seq<Node>)
    requires RepresentsAll(ns, ts, built) && i <= |ns|
    reads built
  {
    r == out + WithName(NodesBelow(ns[..i], ts[..i], built), names)
  }

  lemma BelowNext(ns: seq<Node>, ts: seq<Tree>, i: nat, built: set<Node>)
    requires RepresentsAll(ns, ts, built) && i < |ns| && RepresentsAll(ns[i].children, ts[i].children, built)
    ensures NodesBelow(ns[..i + 1], ts[..i + 1], built) ==
            NodesBelow(ns[..i], ts[..i], built) + [ns[i]] + NodesBelow(ns[i].children, ts[i].children, built)
  {
    assert ns[..i + 1][..i] == ns[..i] && ts[..i + 1][..i] == ts[..i];
  }

  lemma NamedAround(before: seq<Node>, n: Node, inside: seq<Node>, names: seq<string>)
    ensures WithName(before + [n] + inside, names) ==
            WithName(before, names) + (if Named(n.name, names) then [n] else []) + WithName(inside, names)
  {
    FilterAround(before, n, inside, (m: Node) => Named(m.name, names));
  }

  lemma JoinFour(a: seq<Node>, b: seq<Node>, c: seq<Node>, d: seq<Node>)
    ensures a + b + c + d == a + (b + c + d)
  {
  }

  lemma SearchedNext(ns: seq<Node>, ts: seq<Tree>, i: nat, names: seq<string>, built: set<Node>, out: seq<Node>,
      r: seq<Node>, own: seq<Node>, below: seq<Node>)
    requires RepresentsAll(ns, ts, built) && i < |ns| && Searched(ns, ts, i, names, built, out, r)
    requires own == if Named(ns[i].name, names) then [ns[i]] else []
    requires RepresentsAll(ns[i].children, ts[i].children, built)
        && below == WithName(NodesBelow(ns[i].children, ts[i].children, built), names)
    ensures Searched(ns, ts, i + 1, names, built, out, r + own + below)
  {
    var before, inside := NodesBelow(ns[..i], ts[..i], built), NodesBelow(ns[i].children, ts[i].children, built);
    BelowNext(ns, ts, i, built);
    NamedAround(before, ns[i], inside, names);
    JoinFour(out, WithName(before, names), own, below);
  }

  /** One child of the walk, and then what is below it. */
  method CollectChild(c: Node, names: seq<string>, out: seq<Node>, ghost t: Tree, ghost built: set<Node>)
    returns (r: seq<Node>)
    requires Represents(c, t, built)
    ensures r == out + (if Named(c.name, names) then [c] else [])
                     + WithName(NodesBelow(c.children, t.children, built), names)
    decreases t, 1
  {
    r := CollectDescendants(c, names, if Named(c.name, names) then out + [c] else out, t, built);
  }

  /** The recursive walk that appends every matching node below the given one to a list. */
  method CollectDescendants(cur: Node, names: seq<string>, out: seq<Node>, ghost t: Tree, ghost built: set<Node>)
    returns (r: seq<Node>)
    requires Represents(cur, t, built)
    ensures r == out + WithName(NodesBelow(cur.children, t.children, built), names)
    decreases t, 0
  {
    r := out;
    for i := 0 to |cur.children|
      invariant Searched(cur.children, t.children, i, names, built, out, r)
    {
      ghost var before := r;
      assert Represents(cur.children[i], t.children[i], built);
      r := CollectChild(cur.children[i], names, r, t.children[i], built);
      SearchedNext(cur.children, t.children, i, names, built, out, before,
                   if Named(cur.children[i].name, names) then [cur.children[i]] else [],
                   WithName(NodesBelow(cur.children[i].children, t.children[i].children, built), names));
    }
    assert cur.children[..|cur.children|] == cur.children && t.children[..|cur.children|] == t.children;
  }

  /** All of them lie below that node and have one of the names, and no such node is left out. */
  lemma FoundExactly(cur: Node, names: seq<string>, t: Tree, built: set<Node>, n: Node)
    requires Represents(cur, t, built)
    ensures n in WithName(NodesBelow(cur.children, t.children, built), names) <==>
            LiesBelow(cur, n, t, built) && Named(n.name, names)
  {
    NodesBelowAreReached(cur.children, t.children, n, built);
    if n in NodesBelow(cur.children, t.children, built) && Named(n.name, names) {
      FilterKeepsMembers(NodesBelow(cur.children, t.children, built), (m: Node) => Named(m.name, names), n);
    }
  }
}
