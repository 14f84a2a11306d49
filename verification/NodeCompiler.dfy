/**
 Converting a tree of nodes to elements: a straight-line program is generated, with one
 variable for each depth in the tree, and executed. Executing it builds the tree.
 */
module NodeCompiler {

  datatype Option<T> = None | Some(value: T)

  type Attrib = map<string, string>

  datatype Node = Node(tag: string, attrib: Attrib, text: Option<string>, nodes: seq<Node>)

  /** The instructions that are generated; `v` and `parent` are the numbers of variables. */
  datatype Instr =
    | Element(tag: string, attrib: Attrib)
    | SubElement(v: nat, parent: nat, tag: string, attrib: Attrib)
    | SetText(v: nat, text: Option<string>)

  function Create(node: Node, level: nat): Instr {
    if level <= 1 then Element(node.tag, node.attrib) else SubElement(level, level - 1, node.tag, node.attrib)
  }

  function Text(node: Node, level: nat): seq<Instr> {
    if node.nodes == [] then [SetText(level, node.text)] else []
  }

  function Code(node: Node, level: nat): seq<Instr> {
    [Create(node, level)] + (Text(node, level) + CodeAll(node.nodes, |node.nodes|, level + 1))
  }

  function CodeAll(nodes: seq<Node>, n: nat, level: nat): seq<Instr>
    requires n <= |nodes|
    decreases nodes, n
  {
    if n == 0 then [] else CodeAll(nodes, n - 1, level) + Code(nodes[n - 1], level)
  }

  class Output {
    var lines: seq<Instr>

    constructor ()
      ensures lines == []
    {
      lines := [];
    }

    method GenerateElem(node: Node, level: nat)
      modifies this
      ensures lines == old(lines) + Code(node, level)
      decreases node
    {
      if level <= 1 {
        lines := lines + [Element(node.tag, node.attrib)];
      } else {
        lines := lines + [SubElement(level, level - 1, node.tag, node.attrib)];
      }
      if node.nodes == [] {
        lines := lines + [SetText(level, node.text)];
      }
      ghost var head := lines;
      assert head == old(lines) + ([Create(node, level)] + Text(node, level));
      hide Code, Create, Text;
      for i := 0 to |node.nodes|
        invariant lines == head + CodeAll(node.nodes, i, level + 1)
      {
        GenerateElem(node.nodes[i], level + 1);
      }
      CodeIs(node, level, old(lines), head, lines);
    }
  }

  lemma {:induction false} CodeIs(node: Node, level: nat, before: seq<Instr>, head: seq<Instr>, lines: seq<Instr>)
    requires head == before + ([Create(node, level)] + Text(node, level))
    requires lines == head + CodeAll(node.nodes, |node.nodes|, level + 1)
    ensures lines == before + Code(node, level)
  {
    hide Create, Text, CodeAll;
  }

  // ---- executing the program ----

  /** An element in memory; the children are addresses. */
  datatype Elem = Elem(tag: string, attrib: Attrib, text: Option<string>, children: seq<nat>)

  datatype Machine = Running(heap: seq<Elem>, env: map<nat, nat>) | NameError(v: nat)

  function Exec(m: Machine, instr: Instr): Machine {
    match m
    case NameError(_) => m
    case Running(heap, env) =>
      match instr
      case Element(tag, attrib) =>
        Running(heap + [Elem(tag, attrib, None, [])], env[1 := |heap|])
      case SubElement(v, parent, tag, attrib) =>
        if parent !in env || env[parent] >= |heap| then NameError(parent)
        else
          var p := env[parent];
          Running(heap[p := heap[p].(children := heap[p].children + [|heap|])] + [Elem(tag, attrib, None, [])],
                  env[v := |heap|])
      case SetText(v, text) =>
        if v !in env || env[v] >= |heap| then NameError(v)
        else Running(heap[env[v] := heap[env[v]].(text := text)], env)
  }

  function Run(m: Machine, code: seq<Instr>): Machine
    decreases |code|
  {
    if code == [] then m else Run(Exec(m, code[0]), code[1..])
  }

  lemma {:induction false} RunAppend(m: Machine, xs: seq<Instr>, ys: seq<Instr>)
    ensures Run(m, xs + ys) == Run(Run(m, xs), ys)
    decreases |xs|
  {
    if xs == [] {
      assert xs + ys == ys;
    } else {
      assert (xs + ys)[1..] == xs[1..] + ys;
      RunAppend(Exec(m, xs[0]), xs[1..], ys);
    }
  }

  // ---- reading the elements back ----

  /** Children are allocated after their parents. */
  ghost predicate Ordered(heap: seq<Elem>) {
    forall a, i :: 0 <= a < |heap| && 0 <= i < |heap[a].children| ==> a < heap[a].children[i] < |heap|
  }

  ghost function NodeFromElem(heap: seq<Elem>, a: nat): Node
    requires Ordered(heap) && a < |heap|
    decreases |heap| - a, |heap[a].children| + 1
  {
    var e := heap[a];
    if e.children == [] then Node(e.tag, e.attrib, e.text, [])
    else Node(e.tag, e.attrib, None, NodesFromElems(heap, a, e.children, |e.children|))
  }

  ghost function NodesFromElems(heap: seq<Elem>, a: nat, cs: seq<nat>, n: nat): (r: seq<Node>)
    requires Ordered(heap) && n <= |cs| && forall i :: 0 <= i < |cs| ==> a < cs[i] < |heap|
    ensures |r| == n && forall i :: 0 <= i < n ==> r[i] == NodeFromElem(heap, cs[i])
    decreases |heap| - a, n
  {
    if n == 0 then [] else NodesFromElems(heap, a, cs, n - 1) + [NodeFromElem(heap, cs[n - 1])]
  }

  /** Only the elements from `a` on matter to the tree at `a`. */
  lemma {:induction false} LaterElementsOnly(h1: seq<Elem>, h2: seq<Elem>, a: nat)
    requires Ordered(h1) && Ordered(h2) && a < |h1| <= |h2|
    requires forall b :: a <= b < |h1| ==> h1[b] == h2[b]
    ensures NodeFromElem(h1, a) == NodeFromElem(h2, a)
    decreases |h1| - a
  {
    var cs := h1[a].children;
    forall i | 0 <= i < |cs| ensures NodeFromElem(h1, cs[i]) == NodeFromElem(h2, cs[i]) {
      LaterElementsOnly(h1, h2, cs[i]);
    }
    if cs != [] {
      assert NodesFromElems(h1, a, cs, |cs|) == NodesFromElems(h2, a, cs, |cs|);
    }
  }

  // ---- what the program builds ----

  /** The node without the texts of its branches. */
  function Stripped(node: Node): Node {
    if node.nodes == [] then node else Node(node.tag, node.attrib, None, StrippedAll(node.nodes, |node.nodes|))
  }

  function StrippedAll(nodes: seq<Node>, n: nat): (r: seq<Node>)
    requires n <= |nodes|
    ensures |r| == n && forall i :: 0 <= i < n ==> r[i] == Stripped(nodes[i])
    decreases nodes, n
  {
    if n == 0 then [] else StrippedAll(nodes, n - 1) + [Stripped(nodes[n - 1])]
  }

  predicate NoBranchText(node: Node) {
    && (node.nodes != [] ==> node.text == None)
    && forall i :: 0 <= i < |node.nodes| ==> NoBranchText(node.nodes[i])
  }

  lemma {:induction false} StrippedSameIff(node: Node)
    ensures Stripped(node) == node <==> NoBranchText(node)
    ensures NoBranchText(Stripped(node))
    decreases node
  {
    forall i | 0 <= i < |node.nodes|
      ensures Stripped(node.nodes[i]) == node.nodes[i] <==> NoBranchText(node.nodes[i])
      ensures NoBranchText(Stripped(node.nodes[i]))
    {
      StrippedSameIff(node.nodes[i]);
    }
    if node.nodes != [] {
      var kids := StrippedAll(node.nodes, |node.nodes|);
      if NoBranchText(node) {
        assert kids == node.nodes;
      }
      if Stripped(node) == node {
        forall i | 0 <= i < |node.nodes| ensures NoBranchText(node.nodes[i]) {
          assert kids[i] == node.nodes[i];
        }
      }
    }
  }

  /** The variables of the levels before `level` are as they were. */
  ghost predicate KeepsEnv(env: map<nat, nat>, env': map<nat, nat>, level: nat) {
    forall v :: 0 <= v < level && v in env ==> v in env' && env'[v] == env[v]
  }

  /** All the elements of `heap` but `p` are as they were. */
  ghost predicate KeepsHeap(heap: seq<Elem>, heap': seq<Elem>, p: nat) {
    |heap| <= |heap'| && forall a :: 0 <= a < |heap| && a != p ==> heap'[a] == heap[a]
  }

  /** The element `a` got as children the first `n` nodes and is as it was otherwise. */
  ghost predicate Attached(heap: seq<Elem>, heap': seq<Elem>, nodes: seq<Node>, n: nat, a: nat)
    requires a < |heap| <= |heap'| && Ordered(heap') && n <= |nodes|
  {
    && |heap'[a].children| == n
    && heap'[a] == heap[a].(children := heap'[a].children)
    && forall i :: 0 <= i < n ==> NodeFromElem(heap', heap'[a].children[i]) == Stripped(nodes[i])
  }

  lemma {:induction false} BuildChildren(
    heap: seq<Elem>, env: map<nat, nat>, nodes: seq<Node>, n: nat, level: nat, a: nat)
    requires Ordered(heap) && a < |heap| && level in env && env[level] == a && heap[a].children == []
    requires level >= 1 && n <= |nodes|
    ensures var m := Run(Running(heap, env), CodeAll(nodes, n, level + 1));
      && m.Running? && Ordered(m.heap) && KeepsHeap(heap, m.heap, a) && KeepsEnv(env, m.env, level + 1)
      && Attached(heap, m.heap, nodes, n, a)
    decreases nodes, n
  {
    hide NodeFromElem, Stripped, Ordered, Attached, Code;
    if n == 0 {
      NoneAttached(heap, nodes, a);
    } else {
      BuildChildren(heap, env, nodes, n - 1, level, a);
      var code := CodeAll(nodes, n - 1, level + 1);
      var m := Run(Running(heap, env), code);
      RunAppend(Running(heap, env), code, Code(nodes[n - 1], level + 1));
      BuildNode(m.heap, m.env, nodes[n - 1], level + 1, a);
      AttachOne(heap, m.heap, Run(m, Code(nodes[n - 1], level + 1)).heap, nodes, n, a);
    }
  }

  lemma {:induction false} NoneAttached(heap: seq<Elem>, nodes: seq<Node>, a: nat)
    requires Ordered(heap) && a < |heap| && heap[a].children == []
    ensures Attached(heap, heap, nodes, 0, a)
  {
  }

  lemma {:induction false} AttachOne(heap: seq<Elem>, h1: seq<Elem>, h2: seq<Elem>, nodes: seq<Node>, n: nat, a: nat)
    requires a < |heap| && Ordered(h1) && Ordered(h2) && 0 < n <= |nodes|
    requires KeepsHeap(heap, h1, a) && Attached(heap, h1, nodes, n - 1, a) && KeepsHeap(h1, h2, a) && |h1| < |h2|
    requires h2[a] == h1[a].(children := h1[a].children + [|h1|])
    requires NodeFromElem(h2, |h1|) == Stripped(nodes[n - 1])
    ensures KeepsHeap(heap, h2, a) && Attached(heap, h2, nodes, n, a)
  {
    forall i | 0 <= i < n ensures NodeFromElem(h2, h2[a].children[i]) == Stripped(nodes[i]) {
      if i < n - 1 {
        LaterElementsOnly(h1, h2, h1[a].children[i]);
      }
    }
  }

  /** What follows the creation of an element completes it. */
  lemma {:induction false} BuildBody(heap: seq<Elem>, env: map<nat, nat>, node: Node, level: nat, a: nat)
    requires Ordered(heap) && level >= 1 && level in env && env[level] == a == |heap| - 1
    requires heap[a] == Elem(node.tag, node.attrib, None, [])
    ensures var m := Run(Running(heap, env), Text(node, level) + CodeAll(node.nodes, |node.nodes|, level + 1));
      && m.Running? && Ordered(m.heap) && KeepsHeap(heap, m.heap, a) && KeepsEnv(env, m.env, level + 1)
      && NodeFromElem(m.heap, a) == Stripped(node)
    decreases node, 0
  {
    var code := CodeAll(node.nodes, |node.nodes|, level + 1);
    if node.nodes == [] {
      assert Text(node, level) + code == [SetText(level, node.text)];
      assert Run(Running(heap, env), [SetText(level, node.text)]) ==
        Exec(Running(heap, env), SetText(level, node.text));
    } else {
      assert Text(node, level) + code == code;
      BuildChildren(heap, env, node.nodes, |node.nodes|, level, a);
      var m := Run(Running(heap, env), code);
      assert NodesFromElems(m.heap, a, m.heap[a].children, |node.nodes|) == StrippedAll(node.nodes, |node.nodes|);
    }
  }

  lemma {:induction false} BuildNode(heap: seq<Elem>, env: map<nat, nat>, node: Node, level: nat, p: nat)
    requires Ordered(heap) && level >= 2 && level - 1 in env && env[level - 1] == p < |heap|
    ensures var m := Run(Running(heap, env), Code(node, level));
      && m.Running? && Ordered(m.heap) && KeepsHeap(heap, m.heap, p) && KeepsEnv(env, m.env, level)
      && |heap| < |m.heap| && m.heap[p] == heap[p].(children := heap[p].children + [|heap|])
      && NodeFromElem(m.heap, |heap|) == Stripped(node)
    decreases node, 1
  {
    var rest := Text(node, level) + CodeAll(node.nodes, |node.nodes|, level + 1);
    var m := Exec(Running(heap, env), Create(node, level));
    BuildBody(m.heap, m.env, node, level, |heap|);
    assert Code(node, level)[1..] == rest;
    assert Run(Running(heap, env), Code(node, level)) == Run(m, rest);
    hide Run, Code, Text, CodeAll, NodeFromElem, Stripped;
  }

  // ---- the whole conversion ----

  ghost predicate Denotes(m: Machine, node: Node) {
    && m.Running? && Ordered(m.heap) && 1 in m.env && m.env[1] < |m.heap|
    && NodeFromElem(m.heap, m.env[1]) == node
  }

  lemma {:induction false} ProgramBuildsTree(root: Node)
    ensures Denotes(Run(Running([], map[]), Code(root, 1)), Stripped(root))
  {
    var m0: Machine := Running([], map[]);
    var rest := Text(root, 1) + CodeAll(root.nodes, |root.nodes|, 2);
    var m := Exec(m0, Create(root, 1));
    BuildBody(m.heap, m.env, root, 1, 0);
    assert Code(root, 1)[1..] == rest;
    assert Run(m0, Code(root, 1)) == Run(m, rest);
  }

  /** The element tree of a node, in the memory it was built in. */
  method NodeToElem(root: Node) returns (m: Machine)
    ensures Denotes(m, Stripped(root))
  {
    var output := new Output();
    output.GenerateElem(root, 1);
    assert output.lines == Code(root, 1);
    ProgramBuildsTree(root);
    m := Run(Running([], map[]), output.lines);
  }

  /** The round trip gives the node back exactly when no branch has a text. */
  lemma {:induction false} RoundTripIff(root: Node)
    ensures Denotes(Run(Running([], map[]), Code(root, 1)), root) <==> NoBranchText(root)
  {
    ProgramBuildsTree(root);
    StrippedSameIff(root);
  }

  /** A text beside a child is lost. */
  lemma {:induction false} BranchTextLost()
    ensures var root := Node("a", map[], Some("x"), [Node("b", map[], None, [])]);
      !Denotes(Run(Running([], map[]), Code(root, 1)), root)
  {
    RoundTripIff(Node("a", map[], Some("x"), [Node("b", map[], None, [])]));
  }
}
