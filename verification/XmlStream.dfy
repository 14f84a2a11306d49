/**
 Writing a tree of nodes as a stream of XML and parsing such a stream back with a stack of
 open elements. The stream is a sequence of start tags, character data and end tags; the
 lexical form of tags, escaping, namespaces and the normalisation of line ends are left out. The
 writer adds white space around texts and between tags, and the parser strips the texts that it
 collects, so that a tree comes back with stripped texts.
 */
module XmlStream {
  import opened NodeCompiler

  datatype Token = StartTag(tag: string, attrib: Attrib) | Chars(data: string) | EndTag(tag: string)

  // ---- white space ----

  /** The characters that Python strips. */
  predicate Space(c: char) {
    || '\t' <= c <= '\r' || '\U{1c}' <= c <= ' ' || c == '\U{85}' || c == '\U{a0}' || c == '\U{1680}'
    || '\U{2000}' <= c <= '\U{200a}' || c == '\U{2028}' || c == '\U{2029}' || c == '\U{202f}'
    || c == '\U{205f}' || c == '\U{3000}'
  }

  ghost predicate AllSpace(s: string) {
    forall i :: 0 <= i < |s| ==> Space(s[i])
  }

  function StripLeft(s: string): (r: string)
    ensures r == "" || !Space(r[0])
  {
    if s != "" && Space(s[0]) then StripLeft(s[1..]) else s
  }

  function StripRight(s: string): (r: string)
    ensures r == "" || !Space(r[|r| - 1])
    ensures r <= s
  {
    if s != "" && Space(s[|s| - 1]) then StripRight(s[..|s| - 1]) else s
  }

  function Strip(s: string): string {
    StripRight(StripLeft(s))
  }

  lemma {:induction false} StripLeftSpace(a: string, s: string)
    requires AllSpace(a)
    ensures StripLeft(a + s) == StripLeft(s)
  {
    if a == "" {
      assert a + s == s;
    } else {
      assert (a + s)[1..] == a[1..] + s;
      StripLeftSpace(a[1..], s);
    }
  }

  lemma {:induction false} StripRightSpace(s: string, b: string)
    requires AllSpace(b)
    ensures StripRight(s + b) == StripRight(s)
    decreases |b|
  {
    if b == "" {
      assert s + b == s;
    } else {
      assert (s + b)[..|s + b| - 1] == s + b[..|b| - 1];
      StripRightSpace(s, b[..|b| - 1]);
    }
  }

  /** White space around a stripped text is stripped away. */
  lemma {:induction false} StripAround(a: string, t: string, b: string)
    requires AllSpace(a) && AllSpace(b)
    ensures Strip(a + Strip(t) + b) == Strip(t)
  {
    var core := Strip(t);
    assert a + core + b == a + (core + b);
    StripLeftSpace(a, core + b);
    if core == "" {
      assert core + b == b == b + "";
      StripLeftSpace(b, "");
    } else {
      assert core[0] == StripLeft(t)[0];
      assert StripLeft(core + b) == core + b;
      StripRightSpace(core, b);
    }
  }

  /** The white space characters of Python, one by one. */
  predicate White(c: char) {
    c as int in {
      0x9, 0xa, 0xb, 0xc, 0xd, 0x1c, 0x1d, 0x1e, 0x1f, 0x20, 0x85, 0xa0, 0x1680, 0x2000, 0x2001, 0x2002, 0x2003,
      0x2004, 0x2005, 0x2006, 0x2007, 0x2008, 0x2009, 0x200a, 0x2028, 0x2029, 0x202f, 0x205f, 0x3000}
  }

  ghost predicate AllWhite(s: string) {
    forall i :: 0 <= i < |s| ==> White(s[i])
  }

  /** The text is `core` with white space around it, and `core` neither begins nor ends with white space. */
  ghost predicate Trimmed(t: string, core: string) {
    (core != "" ==> !White(core[0]) && !White(core[|core| - 1])) && Around(t, core)
  }

  ghost predicate Around(t: string, core: string) {
    exists a, b :: AllWhite(a) && AllWhite(b) && t == a + core + b
  }

  lemma {:induction false} SpaceIsWhite(c: char)
    ensures Space(c) <==> White(c)
  {
    var n := c as int;
    assert '\U{2000}' <= c <= '\U{200a}' ==> 0x2000 <= n <= 0x200a;
  }

  lemma {:induction false} AllSpaceIsWhite(s: string)
    ensures AllSpace(s) <==> AllWhite(s)
  {
    hide Space, White;
    forall i | 0 <= i < |s| ensures Space(s[i]) <==> White(s[i]) {
      SpaceIsWhite(s[i]);
    }
  }

  lemma {:induction false} StripLeftSplits(s: string) returns (a: string)
    ensures AllSpace(a) && s == a + StripLeft(s)
  {
    if s != "" && Space(s[0]) {
      var rest := StripLeftSplits(s[1..]);
      a := [s[0]] + rest;
    } else {
      a := "";
    }
  }

  lemma {:induction false} StripRightSplits(s: string) returns (b: string)
    ensures AllSpace(b) && s == StripRight(s) + b
  {
    if s != "" && Space(s[|s| - 1]) {
      var rest := StripRightSplits(s[..|s| - 1]);
      b := rest + [s[|s| - 1]];
    } else {
      b := "";
    }
  }

  /** Stripping gives the one text that remains without the white space around it. */
  lemma {:induction false} StripIff(t: string, core: string)
    ensures Trimmed(t, core) <==> core == Strip(t)
  {
    hide Space, White;
    if core == Strip(t) {
      var a := StripLeftSplits(t);
      var b := StripRightSplits(StripLeft(t));
      assert t == a + core + b;
      AllSpaceIsWhite(a);
      AllSpaceIsWhite(b);
      if core != "" {
        assert core[0] == StripLeft(t)[0];
        SpaceIsWhite(core[0]);
        SpaceIsWhite(core[|core| - 1]);
      }
    } else if Trimmed(t, core) {
      StripTrimmed(t, core);
    }
  }

  lemma {:induction false} StripTrimmed(t: string, core: string)
    requires Trimmed(t, core)
    ensures Strip(t) == core
  {
    hide Space, White;
    var a, b :| AllWhite(a) && AllWhite(b) && t == a + core + b;
    AllSpaceIsWhite(a);
    AllSpaceIsWhite(b);
    assert a + core + b == a + (core + b);
    StripLeftSpace(a, core + b);
    if core == "" {
      assert core + b == b == b + "";
      StripLeftSpace(b, "");
    } else {
      SpaceIsWhite(core[0]);
      SpaceIsWhite(core[|core| - 1]);
      assert StripLeft(core + b) == core + b;
      StripRightSpace(core, b);
      assert StripRight(core) == core;
    }
  }

  lemma {:induction false} StripSpace(a: string)
    requires AllSpace(a)
    ensures Strip(a) == ""
  {
    StripLeftSpace(a, "");
    assert a + "" == a;
  }

  function Spaces(n: nat): (r: string)
    ensures |r| == n && AllSpace(r)
  {
    seq(n, i => ' ')
  }

  function TextOr(node: Node): string {
    if node.text.Some? then node.text.value else ""
  }

  // ---- the writer ----

  function Line(indent: nat, level: nat, text: string): Token {
    Chars(Spaces(indent * level) + Strip(text) + "\n")
  }

  function TextTokens(node: Node, indent: nat, level: nat): seq<Token> {
    if node.text.Some? && Strip(node.text.value) != "" then [Line(indent, level, node.text.value)] else []
  }

  predicate IsEmptyElement(node: Node) {
    node.nodes == [] && node.text == None
  }

  /** From the start tag to the end tag. */
  function Inner(node: Node, indent: nat, level: nat): seq<Token>
    decreases node, 0
  {
    if IsEmptyElement(node) then [StartTag(node.tag, node.attrib), EndTag(node.tag)]
    else
      [StartTag(node.tag, node.attrib), Chars("\n")] + TextTokens(node, indent, level + 1)
      + Kids(node.nodes, |node.nodes|, indent, level + 1) + [Chars(Spaces(indent * level)), EndTag(node.tag)]
  }

  function Tokens(node: Node, indent: nat, level: nat): seq<Token>
    decreases node, 1
  {
    [Chars(Spaces(indent * level))] + Inner(node, indent, level) + [Chars("\n")]
  }

  function Kids(nodes: seq<Node>, n: nat, indent: nat, level: nat): seq<Token>
    requires n <= |nodes|
    decreases nodes, n
  {
    if n == 0 then [] else Kids(nodes, n - 1, indent, level) + Tokens(nodes[n - 1], indent, level)
  }

  class StreamingXMLWriter {
    const indent: nat
    var stream: seq<Token>
    var indentlevel: nat

    constructor (indent: nat)
      ensures stream == [] && indentlevel == 0 && this.indent == indent
    {
      this.indent := indent;
      stream := [];
      indentlevel := 0;
    }

    /** A line with some markup in it. */
    method WriteMarkup(markup: seq<Token>)
      modifies this`stream
      ensures stream == old(stream) + [Chars(Spaces(indent * indentlevel))] + markup + [Chars("\n")]
    {
      stream := stream + [Chars(Spaces(indent * indentlevel))] + markup + [Chars("\n")];
    }

    method EmptyElement(name: string, attrs: Attrib)
      modifies this`stream
      ensures stream ==
        old(stream) + [Chars(Spaces(indent * indentlevel))] + [StartTag(name, attrs), EndTag(name)] + [Chars("\n")]
    {
      WriteMarkup([StartTag(name, attrs), EndTag(name)]);
    }

    method Start(name: string, attrs: Attrib)
      modifies this`stream, this`indentlevel
      ensures stream ==
        old(stream) + [Chars(Spaces(indent * old(indentlevel)))] + [StartTag(name, attrs)] + [Chars("\n")]
      ensures indentlevel == old(indentlevel) + 1
    {
      WriteMarkup([StartTag(name, attrs)]);
      indentlevel := indentlevel + 1;
    }

    method End(name: string)
      requires indentlevel > 0
      modifies this`stream, this`indentlevel
      ensures indentlevel == old(indentlevel) - 1
      ensures stream == old(stream) + [Chars(Spaces(indent * indentlevel))] + [EndTag(name)] + [Chars("\n")]
    {
      indentlevel := indentlevel - 1;
      WriteMarkup([EndTag(name)]);
    }

    method Serialize(node: Node)
      modifies this`stream, this`indentlevel
      ensures stream == old(stream) + Tokens(node, indent, old(indentlevel))
      ensures indentlevel == old(indentlevel)
      decreases node
    {
      hide Tokens, Inner, Kids, Strip, Spaces;
      if node.nodes == [] && node.text == None {
        EmptyElement(node.tag, node.attrib);
        EmptyTokens(node, indent, indentlevel);
        return;
      }
      Start(node.tag, node.attrib);
      if node.text.Some? {
        if Strip(node.text.value) != "" {
          stream := stream + [Line(indent, indentlevel, node.text.value)];
        }
      }
      ghost var head := stream;
      NoKids(head, node.nodes, indent, indentlevel);
      for i := 0 to |node.nodes|
        invariant stream == head + Kids(node.nodes, i, indent, indentlevel)
        invariant indentlevel == old(indentlevel) + 1
      {
        Serialize(node.nodes[i]);
        KidsStep(head, node.nodes, i, indent, indentlevel);
      }
      End(node.tag);
      FullTokens(node, indent, indentlevel, old(stream), head, stream);
    }
  }

  lemma {:induction false} EmptyTokens(node: Node, indent: nat, level: nat)
    requires IsEmptyElement(node)
    ensures Tokens(node, indent, level) ==
      [Chars(Spaces(indent * level))] + [StartTag(node.tag, node.attrib), EndTag(node.tag)] + [Chars("\n")]
  {
  }

  lemma {:induction false} NoKids(head: seq<Token>, nodes: seq<Node>, indent: nat, level: nat)
    ensures head + Kids(nodes, 0, indent, level) == head
  {
  }

  lemma {:induction false} KidsStep(head: seq<Token>, nodes: seq<Node>, i: nat, indent: nat, level: nat)
    requires i < |nodes|
    ensures head + Kids(nodes, i + 1, indent, level) ==
      head + Kids(nodes, i, indent, level) + Tokens(nodes[i], indent, level)
  {
    hide Tokens;
  }

  lemma {:induction false} FullTokens(
    node: Node, indent: nat, level: nat, before: seq<Token>, head: seq<Token>, after: seq<Token>)
    requires !IsEmptyElement(node)
    requires head == before + [Chars(Spaces(indent * level))] + [StartTag(node.tag, node.attrib)] + [Chars("\n")]
      + TextTokens(node, indent, level + 1)
    requires after == head + Kids(node.nodes, |node.nodes|, indent, level + 1)
      + [Chars(Spaces(indent * level))] + [EndTag(node.tag)] + [Chars("\n")]
    ensures after == before + Tokens(node, indent, level)
  {
    hide Kids, TextTokens, Spaces;
  }

  // ---- the parser ----

  /** The stack of open elements, outermost first, the last element closed, and whether the parsing was stopped. */
  datatype State = State(ancestors: seq<Node>, root: Option<Node>, stopped: bool)

  function AddText(node: Node, data: string): Node {
    if data == "" then node else node.(text := Some(TextOr(node) + data))
  }

  function AddNode(node: Node, child: Node): Node {
    node.(nodes := node.nodes + [child])
  }

  /** The open elements once the last of them, `node`, was closed. */
  function Attach(ancestors: seq<Node>, node: Node): (r: seq<Node>)
    ensures |r| == |ancestors|
  {
    if ancestors == [] then []
    else ancestors[..|ancestors| - 1] + [AddNode(ancestors[|ancestors| - 1], node)]
  }

  function Close(st: State): State
    requires st.ancestors != []
  {
    var last := |st.ancestors| - 1;
    State(Attach(st.ancestors[..last], st.ancestors[last]), Some(st.ancestors[last]), st.stopped)
  }

  /** The node that closing all of them leaves. */
  function Collapse(ancestors: seq<Node>): Node
    requires ancestors != []
    decreases |ancestors|
  {
    var last := |ancestors| - 1;
    if last == 0 then ancestors[0] else Collapse(Attach(ancestors[..last], ancestors[last]))
  }

  /** No token arrives after the parsing was stopped, and no character data outside the root. */
  function Feed(st: State, tok: Token, stop: Option<string>): State {
    if st.stopped then st
    else
      match tok
      case StartTag(tag, attrib) =>
        var open := st.ancestors + [Node(tag, attrib, None, [])];
        if stop == Some(tag) then State([], Some(Collapse(open)), true) else State(open, st.root, false)
      case Chars(data) =>
        if st.ancestors == [] then st
        else
          var last := |st.ancestors| - 1;
          st.(ancestors := st.ancestors[..last] + [AddText(st.ancestors[last], data)])
      case EndTag(_) =>
        if st.ancestors == [] then st else Close(st)
  }

  function FeedAll(st: State, toks: seq<Token>, stop: Option<string>): State
    decreases |toks|
  {
    if toks == [] then st else FeedAll(Feed(st, toks[0], stop), toks[1..], stop)
  }

  class ValidatingXmlParser {
    const stop: Option<string>
    var ancestors: seq<Node>
    var root: Option<Node>
    var stopped: bool

    ghost function St(): State
      reads this
    {
      State(ancestors, root, stopped)
    }

    constructor (stop: Option<string>)
      ensures this.stop == stop && St() == State([], None, false)
    {
      this.stop := stop;
      ancestors, root, stopped := [], None, false;
    }

    method StartElement(longname: string, attrs: Attrib)
      requires !stopped
      modifies this
      ensures St() == Feed(old(St()), StartTag(longname, attrs), stop)
    {
      ancestors := ancestors + [Node(longname, attrs, None, [])];
      if stop == Some(longname) {
        CloseAll();
        stopped := true;
      }
    }

    /** Closes the open elements, the innermost first. */
    method CloseAll()
      requires ancestors != []
      modifies this
      ensures ancestors == [] && root == Some(Collapse(old(ancestors))) && stopped == old(stopped)
    {
      hide Attach;
      var n := |ancestors|;
      while n > 0
        invariant n == |ancestors| && stopped == old(stopped)
        invariant n > 0 ==> Collapse(ancestors) == Collapse(old(ancestors))
        invariant n == 0 ==> root == Some(Collapse(old(ancestors)))
      {
        EndElement(ancestors[n - 1].tag);
        n := n - 1;
      }
    }

    method EndElement(name: string)
      requires ancestors != []
      modifies this
      ensures St() == Close(old(St()))
    {
      var last := |ancestors| - 1;
      var node := ancestors[last];
      root := Some(node);
      ancestors := ancestors[..last];
      if ancestors != [] {
        ancestors := ancestors[..last - 1] + [AddNode(ancestors[last - 1], node)];
      }
    }

    method CharData(data: string)
      requires !stopped && ancestors != []
      modifies this
      ensures St() == Feed(old(St()), Chars(data), stop)
    {
      if data != "" {
        var last := |ancestors| - 1;
        var parent := ancestors[last];
        assert "" + data == data;
        if parent.text == None {
          parent := parent.(text := Some(data));
        } else {
          parent := parent.(text := Some(parent.text.value + data));
        }
        ancestors := ancestors[..last] + [parent];
      } else {
        assert ancestors[..|ancestors| - 1] + [ancestors[|ancestors| - 1]] == ancestors;
      }
    }

    /** What the lexer does with the handlers above. */
    method Parse(stream: seq<Token>) returns (result: Option<Node>)
      requires St() == State([], None, false)
      modifies this
      ensures St() == FeedAll(State([], None, false), stream, stop) && result == root
    {
      ghost var start := St();
      for i := 0 to |stream|
        invariant FeedAll(St(), stream[i..], stop) == FeedAll(start, stream, stop)
      {
        assert stream[i..][1..] == stream[i + 1..];
        if stopped {
          continue;
        }
        match stream[i] {
          case StartTag(tag, attrib) => StartElement(tag, attrib);
          case Chars(data) =>
            if ancestors != [] {
              CharData(data);
            }
          case EndTag(name) =>
            if ancestors != [] {
              EndElement(name);
            }
        }
      }
      result := root;
    }
  }

  // ---- what the parser makes of the stream of the writer ----

  lemma {:induction false} FeedAppend(st: State, xs: seq<Token>, ys: seq<Token>, stop: Option<string>)
    ensures FeedAll(st, xs + ys, stop) == FeedAll(FeedAll(st, xs, stop), ys, stop)
    decreases |xs|
  {
    if xs == [] {
      assert xs + ys == ys;
    } else {
      assert (xs + ys)[1..] == xs[1..] + ys;
      FeedAppend(Feed(st, xs[0], stop), xs[1..], ys, stop);
    }
  }

  lemma {:induction false} FeedStopped(st: State, toks: seq<Token>, stop: Option<string>)
    requires st.stopped
    ensures FeedAll(st, toks, stop) == st
    decreases |toks|
  {
    if toks == [] {
    } else {
      FeedStopped(st, toks[1..], stop);
    }
  }

  /** The text collected before the first child. */
  function OwnText(node: Node, indent: nat, level: nat): string {
    "\n" + if node.text.Some? && Strip(node.text.value) != ""
            then Spaces(indent * level) + Strip(node.text.value) + "\n" else ""
  }

  /** The white space collected around the first `n` children. */
  function Gaps(n: nat, indent: nat, level: nat): (r: string)
    ensures AllSpace(r)
  {
    if n == 0 then "" else Gaps(n - 1, indent, level) + Spaces(indent * level) + "\n"
  }

  /** The node while it is open, after the first `n` children. */
  function Open(node: Node, n: nat, indent: nat, level: nat): Node
    requires n <= |node.nodes|
    decreases node, 0, n
  {
    Node(node.tag, node.attrib, Some(OwnText(node, indent, level + 1) + Gaps(n, indent, level + 1)),
         ParsedAll(node.nodes, n, indent, level + 1))
  }

  /** The node that the parser makes of a written node. */
  function Parsed(node: Node, indent: nat, level: nat): Node
    decreases node, 1
  {
    if IsEmptyElement(node) then node
    else AddText(Open(node, |node.nodes|, indent, level), Spaces(indent * level))
  }

  function ParsedAll(nodes: seq<Node>, n: nat, indent: nat, level: nat): (r: seq<Node>)
    requires n <= |nodes|
    ensures |r| == n && forall i :: 0 <= i < n ==> r[i] == Parsed(nodes[i], indent, level)
    decreases nodes, n
  {
    if n == 0 then [] else ParsedAll(nodes, n - 1, indent, level) + [Parsed(nodes[n - 1], indent, level)]
  }

  predicate Contains(node: Node, stop: Option<string>) {
    stop == Some(node.tag) || exists i :: 0 <= i < |node.nodes| && Contains(node.nodes[i], stop)
  }

  /** One token after another. */
  lemma {:induction false} FeedOne(st: State, tok: Token, rest: seq<Token>, stop: Option<string>)
    ensures FeedAll(st, [tok] + rest, stop) == FeedAll(Feed(st, tok, stop), rest, stop)
  {
    assert ([tok] + rest)[1..] == rest;
  }

  /** The state once a node was parsed completely. */
  function Done(st: State, node: Node): State {
    State(Attach(st.ancestors, node), Some(node), st.stopped)
  }

  /** The start tag and the text. */
  lemma {:induction false} FeedHead(st: State, node: Node, indent: nat, level: nat, stop: Option<string>)
    requires !st.stopped && stop != Some(node.tag)
    ensures FeedAll(st, [StartTag(node.tag, node.attrib), Chars("\n")] + TextTokens(node, indent, level + 1), stop)
         == State(st.ancestors + [Open(node, 0, indent, level)], st.root, false)
  {
    var s1 := State(st.ancestors + [Node(node.tag, node.attrib, None, [])], st.root, false);
    var s2 := State(st.ancestors + [Node(node.tag, node.attrib, Some("\n"), [])], st.root, false);
    var text := TextTokens(node, indent, level + 1);
    assert [StartTag(node.tag, node.attrib), Chars("\n")] + text ==
      [StartTag(node.tag, node.attrib)] + ([Chars("\n")] + text);
    FeedOne(st, StartTag(node.tag, node.attrib), [Chars("\n")] + text, stop);
    FeedOne(s1, Chars("\n"), text, stop);
    assert "" + "\n" == "\n";
    assert Feed(s1, Chars("\n"), stop) == s2;
    var own := OwnText(node, indent, level + 1);
    assert own + Gaps(0, indent, level + 1) == own;
    if text != [] {
    } else {
      assert own == "\n";
    }
  }

  lemma {:induction false} OpenStep(node: Node, n: nat, indent: nat, level: nat)
    requires n < |node.nodes|
    ensures var child := Parsed(node.nodes[n], indent, level + 1);
      AddText(AddNode(AddText(Open(node, n, indent, level), Spaces(indent * (level + 1))), child), "\n")
        == Open(node, n + 1, indent, level)
  {
    hide Parsed, OwnText, Spaces;
    var own, gaps, sp := OwnText(node, indent, level + 1), Gaps(n, indent, level + 1), Spaces(indent * (level + 1));
    assert ((own + gaps) + sp) + "\n" == own + (gaps + sp + "\n");
    assert sp == "" ==> own + gaps == (own + gaps) + sp;
  }

  /** One child of an open element, written on its own lines. */
  lemma {:induction false} FeedKid(up: seq<Node>, top: Node, root: Option<Node>, kid: Node, parsed: Node, sp: string,
                                   toks: seq<Token>, stop: Option<string>)
    requires FeedAll(State(up + [AddText(top, sp)], root, false), toks, stop)
          == Done(State(up + [AddText(top, sp)], root, false), parsed)
    ensures FeedAll(State(up + [top], root, false), [Chars(sp)] + toks + [Chars("\n")], stop)
         == State(up + [AddText(AddNode(AddText(top, sp), parsed), "\n")], Some(parsed), false)
  {
    hide AddText, AddNode;
    var st, st' := State(up + [top], root, false), State(up + [AddText(top, sp)], root, false);
    FeedAppend(st, [Chars(sp)] + toks, [Chars("\n")], stop);
    FeedOne(st, Chars(sp), toks, stop);
    assert Feed(st, Chars(sp), stop) == st';
    var st'' := Done(st', parsed);
    assert st''.ancestors == up + [AddNode(AddText(top, sp), parsed)];
  }

  lemma {:induction false} FeedNothing(st: State, stop: Option<string>)
    ensures FeedAll(st, [], stop) == st
  {
  }

  lemma {:induction false} FeedKids(
    up: seq<Node>, root: Option<Node>, node: Node, n: nat, indent: nat, level: nat, stop: Option<string>)
    requires n <= |node.nodes| && forall i :: 0 <= i < n ==> !Contains(node.nodes[i], stop)
    ensures FeedAll(
      State(up + [Open(node, 0, indent, level)], root, false), Kids(node.nodes, n, indent, level + 1), stop)
         == State(up + [Open(node, n, indent, level)],
                  if n == 0 then root else Some(Parsed(node.nodes[n - 1], indent, level + 1)), false)
    decreases node, 0, n
  {
    hide Open, Parsed, Contains, Inner, FeedAll, AddText, AddNode, Spaces;
    if n == 0 {
      FeedNothing(State(up + [Open(node, 0, indent, level)], root, false), stop);
    } else {
      var start := State(up + [Open(node, 0, indent, level)], root, false);
      var kids := Kids(node.nodes, n - 1, indent, level + 1);
      var kid := node.nodes[n - 1];
      FeedKids(up, root, node, n - 1, indent, level, stop);
      FeedAppend(start, kids, Tokens(kid, indent, level + 1), stop);
      var st := FeedAll(start, kids, stop);
      var top, sp := Open(node, n - 1, indent, level), Spaces(indent * (level + 1));
      FeedInner(State(up + [AddText(top, sp)], st.root, false), kid, indent, level + 1, stop);
      FeedKid(up, top, st.root, kid, Parsed(kid, indent, level + 1), sp, Inner(kid, indent, level + 1), stop);
      OpenStep(node, n - 1, indent, level);
    }
  }

  /** A written node is parsed as one node, whatever is open around it. */
  lemma {:induction false} FeedInner(st: State, node: Node, indent: nat, level: nat, stop: Option<string>)
    requires !st.stopped && !Contains(node, stop)
    ensures FeedAll(st, Inner(node, indent, level), stop) == Done(st, Parsed(node, indent, level))
    decreases node, 1
  {
    var up := st.ancestors;
    if IsEmptyElement(node) {
      var s1 := State(up + [node], st.root, false);
      FeedOne(st, StartTag(node.tag, node.attrib), [EndTag(node.tag)], stop);
      assert s1.ancestors[..|up|] == up;
    } else {
      var head := [StartTag(node.tag, node.attrib), Chars("\n")] + TextTokens(node, indent, level + 1);
      var kids := Kids(node.nodes, |node.nodes|, indent, level + 1);
      var tail := [Chars(Spaces(indent * level)), EndTag(node.tag)];
      FeedAppend(st, head + kids, tail, stop);
      FeedAppend(st, head, kids, stop);
      FeedHead(st, node, indent, level, stop);
      FeedKids(up, st.root, node, |node.nodes|, indent, level, stop);
      FeedTail(FeedAll(st, head + kids, stop), up, node, indent, level, stop);
    }
  }

  lemma {:induction false} FeedTail(st: State, up: seq<Node>, node: Node, indent: nat, level: nat, stop: Option<string>)
    requires !st.stopped && !IsEmptyElement(node)
    requires st.ancestors == up + [Open(node, |node.nodes|, indent, level)]
    ensures FeedAll(st, [Chars(Spaces(indent * level)), EndTag(node.tag)], stop)
         == State(Attach(up, Parsed(node, indent, level)), Some(Parsed(node, indent, level)), false)
  {
    hide Open;
    var sp := Spaces(indent * level);
    var s1 := State(up + [Parsed(node, indent, level)], st.root, false);
    FeedOne(st, Chars(sp), [EndTag(node.tag)], stop);
    assert [Chars(sp), EndTag(node.tag)] == [Chars(sp)] + [EndTag(node.tag)];
    assert Feed(st, Chars(sp), stop) == s1;
    assert s1.ancestors[..|up|] == up;
  }

  // ---- the round trip ----

  /** The node with all texts stripped, a missing text being an empty one. */
  function Norm(node: Node): Node
    decreases node
  {
    Node(node.tag, node.attrib, Some(Strip(TextOr(node))), NormAll(node.nodes, |node.nodes|))
  }

  function NormAll(nodes: seq<Node>, n: nat): (r: seq<Node>)
    requires n <= |nodes|
    ensures |r| == n && forall i :: 0 <= i < n ==> r[i] == Norm(nodes[i])
    decreases nodes, n
  {
    if n == 0 then [] else NormAll(nodes, n - 1) + [Norm(nodes[n - 1])]
  }

  /** Whatever white space follows the own text, stripping gives the stripped text of the node. */
  lemma {:induction false} StripOwnText(node: Node, indent: nat, level: nat, space: string)
    requires AllSpace(space)
    ensures Strip(OwnText(node, indent, level) + space) == Strip(TextOr(node))
  {
    hide Strip;
    var t, sp := TextOr(node), Spaces(indent * level);
    StripSpace("");
    if Strip(t) == "" {
      StripSpace("\n" + space);
      assert OwnText(node, indent, level) + space == "\n" + space;
    } else {
      StripAround("\n" + sp, t, "\n" + space);
      assert OwnText(node, indent, level) + space == ("\n" + sp) + Strip(t) + ("\n" + space);
    }
  }

  /** The text that an open element has collected. */
  lemma {:induction false} OpenText(node: Node, n: nat, indent: nat, level: nat, sp: string)
    requires n <= |node.nodes| && AllSpace(sp)
    ensures Strip(TextOr(AddText(Open(node, n, indent, level), sp))) == Strip(TextOr(node))
  {
    hide Strip, OwnText;
    var own, gaps := OwnText(node, indent, level + 1), Gaps(n, indent, level + 1);
    assert (own + gaps) + sp == own + (gaps + sp);
    assert sp == "" ==> own + gaps == own + (gaps + sp);
    StripOwnText(node, indent, level + 1, gaps + sp);
  }

  lemma {:induction false} NormSame(p: Node, q: Node)
    requires p.tag == q.tag && p.attrib == q.attrib && Strip(TextOr(p)) == Strip(TextOr(q)) && |p.nodes| == |q.nodes|
    requires forall j :: 0 <= j < |p.nodes| ==> Norm(p.nodes[j]) == Norm(q.nodes[j])
    ensures Norm(p) == Norm(q)
  {
    hide Strip, TextOr;
    assert NormAll(p.nodes, |p.nodes|) == NormAll(q.nodes, |q.nodes|);
  }

  lemma {:induction false} ParsedNorm(node: Node, indent: nat, level: nat)
    ensures Norm(Parsed(node, indent, level)) == Norm(node)
    decreases node
  {
    hide Norm, Strip, OwnText, Gaps, Spaces;
    if !IsEmptyElement(node) {
      OpenText(node, |node.nodes|, indent, level, Spaces(indent * level));
      forall i | 0 <= i < |node.nodes| ensures Norm(Parsed(node.nodes[i], indent, level + 1)) == Norm(node.nodes[i]) {
        ParsedNorm(node.nodes[i], indent, level + 1);
      }
      NormSame(Parsed(node, indent, level), node);
    }
  }

  /** Parsing what was written gives the tree back up to white space around the texts. */
  lemma {:induction false} RoundTrip(node: Node, indent: nat, level: nat, stop: Option<string>)
    requires !Contains(node, stop)
    ensures var st := FeedAll(State([], None, false), Tokens(node, indent, level), stop);
      st.ancestors == [] && !st.stopped && st.root.Some? && Norm(st.root.value) == Norm(node)
  {
    hide Contains, Inner, Norm, Parsed;
    var st := State([], None, false);
    var sp, inner := Chars(Spaces(indent * level)), Inner(node, indent, level);
    FeedInner(st, node, indent, level, stop);
    ParsedNorm(node, indent, level);
    FeedAppend(st, [sp] + inner, [Chars("\n")], stop);
    FeedOne(st, sp, inner, stop);
  }

  ghost predicate SameCore(t: string, u: string) {
    exists core :: Trimmed(t, core) && Trimmed(u, core)
  }

  /** The same tags, attributes and children, and the same texts but for white space around them. */
  ghost predicate SameTree(p: Node, q: Node)
    decreases q
  {
    && p.tag == q.tag && p.attrib == q.attrib && |p.nodes| == |q.nodes|
    && SameCore(if p.text.Some? then p.text.value else "", if q.text.Some? then q.text.value else "")
    && forall i :: 0 <= i < |q.nodes| ==> SameTree(p.nodes[i], q.nodes[i])
  }

  lemma {:induction false} NormIsSame(p: Node, q: Node)
    requires Norm(p) == Norm(q)
    ensures SameTree(p, q)
    decreases q
  {
    hide Strip, Trimmed;
    var core := Strip(TextOr(q));
    assert Norm(p).text == Norm(q).text && Norm(p).nodes == Norm(q).nodes;
    StripIff(TextOr(p), core);
    StripIff(TextOr(q), core);
    forall i | 0 <= i < |q.nodes| ensures SameTree(p.nodes[i], q.nodes[i]) {
      assert Norm(p).nodes[i] == Norm(p.nodes[i]) && Norm(q).nodes[i] == Norm(q.nodes[i]);
      NormIsSame(p.nodes[i], q.nodes[i]);
    }
  }

  /** Every text begins and ends with a character that is printed. */
  ghost predicate PrintedEdges(node: Node) {
    && (node.text.Some? ==>
          var t := node.text.value; t != "" && '!' <= t[0] <= '~' && '!' <= t[|t| - 1] <= '~')
    && forall i :: 0 <= i < |node.nodes| ==> PrintedEdges(node.nodes[i])
  }

  /** Tags, attributes and children as written, and each text as written with white space around it. */
  ghost predicate ReadBack(p: Node, q: Node)
    decreases q
  {
    && p.tag == q.tag && p.attrib == q.attrib && |p.nodes| == |q.nodes|
    && (if q.text.Some?
        then p.text.Some? && Around(p.text.value, q.text.value)
        else p.text.Some? ==> AllWhite(p.text.value))
    && forall i :: 0 <= i < |q.nodes| ==> ReadBack(p.nodes[i], q.nodes[i])
  }

  lemma {:induction false} TrimmedNothing(t: string)
    requires Trimmed(t, "")
    ensures AllWhite(t)
  {
    hide White;
    var a, b :| AllWhite(a) && AllWhite(b) && t == a + "" + b;
  }

  lemma {:induction false} TrimmedItself(t: string)
    requires t != "" ==> !White(t[0]) && !White(t[|t| - 1])
    ensures Trimmed(t, t)
  {
    hide White;
    assert AllWhite("") && t == "" + t + "";
  }

  lemma {:induction false} PrintedIsNotWhite(c: char)
    requires '!' <= c <= '~'
    ensures !White(c)
  {
    SpaceIsWhite(c);
  }

  /** A text that is its own core is the core of any text with the same core. */
  lemma {:induction false} OwnCore(t: string, u: string)
    requires SameCore(t, u) && (u != "" ==> !White(u[0]) && !White(u[|u| - 1]))
    ensures Trimmed(t, u)
  {
    hide White, Strip;
    var core :| Trimmed(t, core) && Trimmed(u, core);
    TrimmedItself(u);
    StripIff(u, core);
    StripIff(u, u);
  }

  lemma {:induction false} OnlyNothing(core: string)
    requires Trimmed("", core)
    ensures core == ""
  {
    hide White;
    var a, b :| AllWhite(a) && AllWhite(b) && "" == a + core + b;
    assert |a + core + b| == 0;
  }

  lemma {:induction false} SameIsReadBack(p: Node, q: Node)
    requires SameTree(p, q) && PrintedEdges(q)
    ensures ReadBack(p, q)
    decreases q
  {
    hide White, Strip, Around;
    var pt, qt := if p.text.Some? then p.text.value else "", if q.text.Some? then q.text.value else "";
    if q.text.Some? {
      PrintedIsNotWhite(qt[0]);
      PrintedIsNotWhite(qt[|qt| - 1]);
    }
    OwnCore(pt, qt);
    if q.text.None? {
      TrimmedNothing(pt);
    } else if p.text.None? {
      OnlyNothing(qt);
    }
    forall i | 0 <= i < |q.nodes| ensures ReadBack(p.nodes[i], q.nodes[i]) {
      SameIsReadBack(p.nodes[i], q.nodes[i]);
    }
  }

  /** What is read is what was written, character by character, but for white space around the texts. */
  lemma {:induction false} TextsComeBack(node: Node, indent: nat, level: nat, stop: Option<string>)
    requires !Contains(node, stop)
    ensures var st := FeedAll(State([], None, false), Tokens(node, indent, level), stop);
      st.root.Some? && SameTree(st.root.value, node) && (PrintedEdges(node) ==> ReadBack(st.root.value, node))
  {
    hide Contains, Tokens, Norm, SameTree, PrintedEdges, ReadBack;
    RoundTrip(node, indent, level, stop);
    var p := FeedAll(State([], None, false), Tokens(node, indent, level), stop).root.value;
    NormIsSame(p, node);
    if PrintedEdges(node) {
      SameIsReadBack(p, node);
    }
  }

  // ---- stopping at an element ----

  /** The first child that has the element to stop at. */
  function First(nodes: seq<Node>, stop: Option<string>): (i: nat)
    requires exists j :: 0 <= j < |nodes| && Contains(nodes[j], stop)
    ensures i < |nodes| && Contains(nodes[i], stop) && forall j :: 0 <= j < i ==> !Contains(nodes[j], stop)
    decreases |nodes|
  {
    if Contains(nodes[0], stop) then 0
    else
      var j :| 0 <= j < |nodes| && Contains(nodes[j], stop);
      assert Contains(nodes[1..][j - 1], stop);
      1 + First(nodes[1..], stop)
  }

  /** What comes before the element to stop at in the order of the document, and that element empty. */
  function Prefix(node: Node, stop: Option<string>): Node
    requires Contains(node, stop)
    decreases node
  {
    if stop == Some(node.tag) then Node(node.tag, node.attrib, None, [])
    else
      var i := First(node.nodes, stop);
      Node(node.tag, node.attrib, node.text, node.nodes[..i] + [Prefix(node.nodes[i], stop)])
  }

  /** What the parser has made of the node when it stops in it. */
  function ParsedPrefix(node: Node, indent: nat, level: nat, stop: Option<string>): Node
    requires Contains(node, stop)
    decreases node
  {
    if stop == Some(node.tag) then Node(node.tag, node.attrib, None, [])
    else
      var i := First(node.nodes, stop);
      AddNode(AddText(Open(node, i, indent, level), Spaces(indent * (level + 1))),
              ParsedPrefix(node.nodes[i], indent, level + 1, stop))
  }

  lemma {:induction false} PrefixNorm(node: Node, indent: nat, level: nat, stop: Option<string>)
    requires Contains(node, stop)
    ensures Norm(ParsedPrefix(node, indent, level, stop)) == Norm(Prefix(node, stop))
    decreases node
  {
    hide Norm, Strip, Parsed, OwnText, Spaces;
    if stop != Some(node.tag) {
      var i := First(node.nodes, stop);
      var p, q := ParsedPrefix(node, indent, level, stop), Prefix(node, stop);
      OpenText(node, i, indent, level, Spaces(indent * (level + 1)));
      assert p.nodes ==
        ParsedAll(node.nodes, i, indent, level + 1) + [ParsedPrefix(node.nodes[i], indent, level + 1, stop)];
      assert q.nodes == node.nodes[..i] + [Prefix(node.nodes[i], stop)];
      hide ParsedPrefix, Prefix, Open, AddText, AddNode, Contains;
      forall j | 0 <= j < |p.nodes| ensures Norm(p.nodes[j]) == Norm(q.nodes[j]) {
        if j < i {
          ParsedNorm(node.nodes[j], indent, level + 1);
        } else {
          PrefixNorm(node.nodes[i], indent, level + 1, stop);
        }
      }
      NormSame(p, q);
    }
  }

  lemma {:induction false} KidsSplit(
    nodes: seq<Node>, i: nat, n: nat, indent: nat, level: nat) returns (rest: seq<Token>)
    requires i < n <= |nodes|
    ensures Kids(nodes, n, indent, level) == Kids(nodes, i, indent, level) + (Tokens(nodes[i], indent, level) + rest)
  {
    hide Tokens;
    if n == i + 1 {
      rest := [];
      assert Tokens(nodes[i], indent, level) + rest == Tokens(nodes[i], indent, level);
    } else {
      var r := KidsSplit(nodes, i, n - 1, indent, level);
      rest := r + Tokens(nodes[n - 1], indent, level);
    }
  }

  lemma {:induction false} CollapseTwo(up: seq<Node>, top: Node, node: Node)
    ensures Collapse(up + [top] + [node]) == Collapse(up + [AddNode(top, node)])
  {
    assert (up + [top] + [node])[..|up| + 1] == up + [top];
  }

  /** The parsing stops at the first element with the tag, and all that is open is closed. */
  lemma {:induction false} FeedPrefix(st: State, node: Node, indent: nat, level: nat, stop: Option<string>)
    requires !st.stopped && Contains(node, stop)
    ensures FeedAll(st, Inner(node, indent, level), stop)
         == State([], Some(Collapse(st.ancestors + [ParsedPrefix(node, indent, level, stop)])), true)
    decreases node
  {
    hide Collapse, Open, Spaces, TextTokens, Kids;
    var inner := Inner(node, indent, level);
    if stop == Some(node.tag) {
      var s1 := State([], Some(Collapse(st.ancestors + [Node(node.tag, node.attrib, None, [])])), true);
      assert inner[0] == StartTag(node.tag, node.attrib) && inner == [inner[0]] + inner[1..];
      FeedOne(st, inner[0], inner[1..], stop);
      FeedStopped(s1, inner[1..], stop);
    } else {
      var i, up := First(node.nodes, stop), st.ancestors;
      var kid := node.nodes[i];
      var head := [StartTag(node.tag, node.attrib), Chars("\n")] + TextTokens(node, indent, level + 1);
      var rest := KidsSplit(node.nodes, i, |node.nodes|, indent, level + 1);
      var before, sp := Kids(node.nodes, i, indent, level + 1), Spaces(indent * (level + 1));
      var kidIn := Inner(kid, indent, level + 1);
      var after := [Chars("\n")] + rest + [Chars(Spaces(indent * level)), EndTag(node.tag)];
      assert inner == head + (before + ([Chars(sp)] + (kidIn + after)));
      FeedAppend(st, head, before + ([Chars(sp)] + (kidIn + after)), stop);
      FeedHead(st, node, indent, level, stop);
      var s1 := State(up + [Open(node, 0, indent, level)], st.root, false);
      FeedAppend(s1, before, [Chars(sp)] + (kidIn + after), stop);
      FeedKids(up, st.root, node, i, indent, level, stop);
      StopInKid(FeedAll(s1, before, stop), up, node, i, indent, level, stop, after);
    }
  }

  lemma {:induction false} StopInKid(
    st: State, up: seq<Node>, node: Node, i: nat, indent: nat, level: nat, stop: Option<string>, after: seq<Token>)
    requires !st.stopped && Contains(node, stop) && stop != Some(node.tag) && i == First(node.nodes, stop)
    requires st.ancestors == up + [Open(node, i, indent, level)]
    ensures FeedAll(st, [Chars(Spaces(indent * (level + 1)))] + (Inner(node.nodes[i], indent, level + 1) + after), stop)
         == State([], Some(Collapse(up + [ParsedPrefix(node, indent, level, stop)])), true)
    decreases node, 0
  {
    hide Collapse, Open, Spaces, Inner, FeedAll;
    var kid, sp := node.nodes[i], Spaces(indent * (level + 1));
    var top := AddText(Open(node, i, indent, level), sp);
    var s2 := State(up + [top], st.root, false);
    FeedOne(st, Chars(sp), Inner(kid, indent, level + 1) + after, stop);
    assert Feed(st, Chars(sp), stop) == s2;
    FeedAppend(s2, Inner(kid, indent, level + 1), after, stop);
    FeedPrefix(s2, kid, indent, level + 1, stop);
    CollapseTwo(up, top, ParsedPrefix(kid, indent, level + 1, stop));
    FeedStopped(FeedAll(s2, Inner(kid, indent, level + 1), stop), after, stop);
  }

  /** With an element to stop at, the result is the part of the document before it. */
  lemma {:induction false} StopGivesPrefix(node: Node, indent: nat, level: nat, stop: Option<string>)
    requires Contains(node, stop)
    ensures var st := FeedAll(State([], None, false), Tokens(node, indent, level), stop);
      st.ancestors == [] && st.stopped && st.root.Some? && Norm(st.root.value) == Norm(Prefix(node, stop))
  {
    hide Contains, Inner, Norm, ParsedPrefix, Prefix;
    var st := State([], None, false);
    var sp, inner := Chars(Spaces(indent * level)), Inner(node, indent, level);
    FeedPrefix(st, node, indent, level, stop);
    assert st.ancestors + [ParsedPrefix(node, indent, level, stop)] == [ParsedPrefix(node, indent, level, stop)];
    PrefixNorm(node, indent, level, stop);
    FeedAppend(st, [sp] + inner, [Chars("\n")], stop);
    FeedOne(st, sp, inner, stop);
    FeedStopped(FeedAll(st, inner, stop), [Chars("\n")], stop);
  }

  /** The tags in the order of the document. */
  function Preorder(node: Node): seq<string>
    decreases node, 0
  {
    [node.tag] + PreorderAll(node.nodes, |node.nodes|)
  }

  function PreorderAll(nodes: seq<Node>, n: nat): seq<string>
    requires n <= |nodes|
    decreases nodes, n
  {
    if n == 0 then [] else PreorderAll(nodes, n - 1) + Preorder(nodes[n - 1])
  }

  lemma {:induction false} PreorderContains(node: Node, tag: string)
    ensures Contains(node, Some(tag)) <==> tag in Preorder(node)
    decreases node, 0
  {
    PreorderAllContains(node.nodes, |node.nodes|, tag);
  }

  lemma {:induction false} PreorderAllContains(nodes: seq<Node>, n: nat, tag: string)
    requires n <= |nodes|
    ensures tag in PreorderAll(nodes, n) <==> exists i :: 0 <= i < n && Contains(nodes[i], Some(tag))
    decreases nodes, n
  {
    hide Preorder, Contains;
    if n == 0 {
    } else {
      PreorderAllContains(nodes, n - 1, tag);
      PreorderContains(nodes[n - 1], tag);
    }
  }

  lemma {:induction false} PreorderAllSplit(nodes: seq<Node>, i: nat, n: nat) returns (rest: seq<string>)
    requires i < n <= |nodes|
    ensures PreorderAll(nodes, n) == PreorderAll(nodes, i) + (Preorder(nodes[i]) + rest)
  {
    hide Preorder;
    if n == i + 1 {
      rest := [];
      assert Preorder(nodes[i]) + rest == Preorder(nodes[i]);
    } else {
      var r := PreorderAllSplit(nodes, i, n - 1);
      rest := r + Preorder(nodes[n - 1]);
    }
  }

  lemma {:induction false} PreorderAllSame(xs: seq<Node>, ys: seq<Node>, n: nat)
    requires n <= |xs| && n <= |ys| && forall i :: 0 <= i < n ==> xs[i] == ys[i]
    ensures PreorderAll(xs, n) == PreorderAll(ys, n)
  {
    if n == 0 {
    } else {
      PreorderAllSame(xs, ys, n - 1);
    }
  }

  /** The tags up to and with the first one to stop at. */
  lemma {:induction false} PrefixOfDocument(node: Node, tag: string) returns (before: seq<string>, after: seq<string>)
    requires Contains(node, Some(tag))
    ensures Preorder(Prefix(node, Some(tag))) == before + [tag] && tag !in before
    ensures Preorder(node) == before + [tag] + after
    decreases node
  {
    if node.tag == tag {
      before, after := [], PreorderAll(node.nodes, |node.nodes|);
      assert [tag] + [] == [] + [tag] && [] + [tag] + after == [tag] + after;
    } else {
      var i := First(node.nodes, Some(tag));
      var p := Prefix(node, Some(tag));
      var inside, behind := PrefixOfDocument(node.nodes[i], tag);
      var rest := PreorderAllSplit(node.nodes, i, |node.nodes|);
      var first := PreorderAll(node.nodes, i);
      PreorderAllSame(p.nodes, node.nodes, i);
      PreorderAllContains(node.nodes, i, tag);
      before, after := [node.tag] + first + inside, behind + rest;
      PrefixTags(node.tag, tag, first, inside, behind, rest);
      assert PreorderAll(p.nodes, i + 1) == first + Preorder(p.nodes[i]);
    }
  }

  lemma {:induction false} PrefixTags(
    own: string, tag: string, first: seq<string>, inside: seq<string>, behind: seq<string>, rest: seq<string>)
    ensures [own] + (first + (inside + [tag])) == ([own] + first + inside) + [tag]
    ensures [own] + (first + ((inside + [tag] + behind) + rest)) == ([own] + first + inside) + [tag] + (behind + rest)
  {
  }
}
