/** The syntax-tree analysis of Python files (`CodeAnalyzer._analyze_python_file` and
    `_calculate_nesting_depth`). The parser is not modelled: a file arrives as the outcome of
    parsing it, and a parsed file as an abstract syntax tree. */
module StructuralAnalyzer {
  import opened Text
  import opened Models
  import opened Sequences

  /** The node classes the analysis distinguishes; every other class of node is `Other`.
      A `FunctionDef` carries its name, `len(node.body)` and `len(node.args.args)`. */
  datatype NodeKind =
    | FunctionDef(name: string, bodyLen: nat, argCount: nat)
    | If | For | While | With | Try
    | Other

  /** A syntax-tree node with its line and its direct children in `ast.iter_child_nodes` order. */
  datatype Node = Node(kind: NodeKind, lineNo: int, children: seq<Node>)

  /** What `ast.parse(content)` did: a tree, a `SyntaxError`, or another exception. */
  datatype ParseOutcome = Parsed(tree: Node) | SyntaxError | ParserCrash

  const MaxFunctionBody: nat := 20
  const MaxParameters: nat := 5
  const MaxNesting: nat := 3

  /** Constructs that add a level of nesting below a node. */
  predicate CountsForNesting(k: NodeKind)
  {
    k.If? || k.For? || k.While? || k.With? || k.Try?
  }

  /** Constructs that are checked for deep nesting. */
  predicate TriggersDeepNesting(k: NodeKind)
  {
    k.If? || k.For? || k.While?
  }


  // ----- ast.walk -----

  function Size(n: Node): nat
    decreases n
  {
    1 + SizeSeq(n.children)
  }

  function SizeSeq(q: seq<Node>): nat
    decreases q
  {
    if q == [] then 0 else Size(q[0]) + SizeSeq(q[1..])
  }

  lemma {:induction false} SizeSeqAppend(a: seq<Node>, b: seq<Node>)
    ensures SizeSeq(a + b) == SizeSeq(a) + SizeSeq(b)
  {
    if a == [] {
      assert a + b == b;
    } else {
      assert (a + b)[1..] == a[1..] + b;
      SizeSeqAppend(a[1..], b);
    }
  }

  /** `ast.walk`: breadth-first, taking nodes from the front of a queue and appending each
      node's children at the back. */
  function Walk(queue: seq<Node>): seq<Node>
    decreases SizeSeq(queue)
  {
    if queue == [] then []
    else
      SizeSeqAppend(queue[1..], queue[0].children);
      assert SizeSeq(queue) == 1 + SizeSeq(queue[0].children) + SizeSeq(queue[1..]);
      [queue[0]] + Walk(queue[1..] + queue[0].children)
  }

  /** All nodes of a tree in pre-order: the reference for what a walk must visit. */
  function AllNodes(n: Node): seq<Node>
    decreases n
  {
    [n] + AllNodesSeq(n.children)
  }

  function AllNodesSeq(q: seq<Node>): seq<Node>
    decreases q
  {
    if q == [] then [] else AllNodes(q[0]) + AllNodesSeq(q[1..])
  }

  lemma {:induction false} AllNodesSeqAppend(a: seq<Node>, b: seq<Node>)
    ensures AllNodesSeq(a + b) == AllNodesSeq(a) + AllNodesSeq(b)
  {
    if a == [] {
      assert a + b == b;
    } else {
      assert (a + b)[1..] == a[1..] + b;
      AllNodesSeqAppend(a[1..], b);
    }
  }

  /** The walk visits every node of the queued trees exactly once (as a multiset). */
  lemma {:induction false} WalkVisitsEveryNode(queue: seq<Node>)
    ensures multiset(Walk(queue)) == multiset(AllNodesSeq(queue))
    decreases SizeSeq(queue)
  {
    if queue != [] {
      var next := queue[1..] + queue[0].children;
      SizeSeqAppend(queue[1..], queue[0].children);
      assert SizeSeq(queue) == 1 + SizeSeq(queue[0].children) + SizeSeq(queue[1..]);
      WalkVisitsEveryNode(next);
      AllNodesSeqAppend(queue[1..], queue[0].children);
    }
  }

  // ----- nesting depth -----

  /** The nesting height of a node: how many nesting constructs the deepest chain of directly
      nested ones below it holds. */
  function Height(n: Node): nat
    decreases n
  {
    ChildrenHeight(n.children)
  }

  function ChildrenHeight(cs: seq<Node>): nat
    decreases cs
  {
    if cs == [] then 0
    else
      var last := cs[|cs| - 1];
      Max(ChildrenHeight(cs[..|cs| - 1]), if CountsForNesting(last.kind) then 1 + Height(last) else 0)
  }

  /** `_calculate_nesting_depth(node, current_depth)`. */
  method CalculateNestingDepth(node: Node, currentDepth: nat) returns (maxDepth: nat)
    ensures maxDepth == currentDepth + Height(node)
    decreases node
  {
    maxDepth := currentDepth;
    var i := 0;
    while i < |node.children|
      invariant i <= |node.children|
      invariant maxDepth == currentDepth + ChildrenHeight(node.children[..i])
    {
      var child := node.children[i];
      assert node.children[..i + 1][..i] == node.children[..i];
      if CountsForNesting(child.kind) {
        var childDepth := CalculateNestingDepth(child, currentDepth + 1);
        maxDepth := Max(maxDepth, childDepth);
      }
      i := i + 1;
    }
    assert node.children[..|node.children|] == node.children;
  }

  /** A path of child indices going down from `n`, each step landing on a nesting construct. */
  predicate IsNestingPath(n: Node, path: seq<nat>)
    decreases |path|
  {
    path == []
    || (path[0] < |n.children| && CountsForNesting(n.children[path[0]].kind)
        && IsNestingPath(n.children[path[0]], path[1..]))
  }

  lemma {:induction false} ChildContribution(cs: seq<Node>, i: nat)
    requires i < |cs| && CountsForNesting(cs[i].kind)
    ensures 1 + Height(cs[i]) <= ChildrenHeight(cs)
    decreases |cs|
  {
    if i < |cs| - 1 {
      ChildContribution(cs[..|cs| - 1], i);
    }
  }

  lemma {:induction false} ChildrenHeightWitness(cs: seq<Node>) returns (i: nat)
    requires ChildrenHeight(cs) > 0
    ensures i < |cs| && CountsForNesting(cs[i].kind) && ChildrenHeight(cs) == 1 + Height(cs[i])
    decreases |cs|
  {
    var last := cs[|cs| - 1];
    if CountsForNesting(last.kind) && ChildrenHeight(cs) == 1 + Height(last) {
      i := |cs| - 1;
    } else {
      i := ChildrenHeightWitness(cs[..|cs| - 1]);
    }
  }

  lemma {:induction false} ChildrenHeightZero(cs: seq<Node>)
    requires forall i :: 0 <= i < |cs| ==> !CountsForNesting(cs[i].kind)
    ensures ChildrenHeight(cs) == 0
    decreases |cs|
  {
    if cs != [] {
      ChildrenHeightZero(cs[..|cs| - 1]);
    }
  }

  /** No path of nested constructs below `n` is longer than its height. */
  lemma {:induction false} NestingPathBound(n: Node, path: seq<nat>)
    requires IsNestingPath(n, path)
    ensures |path| <= Height(n)
    decreases |path|
  {
    if path != [] {
      NestingPathBound(n.children[path[0]], path[1..]);
      ChildContribution(n.children, path[0]);
    }
  }

  /** Some path of nested constructs below `n` is as long as its height. */
  lemma {:induction false} DeepestNestingPath(n: Node) returns (path: seq<nat>)
    ensures IsNestingPath(n, path) && |path| == Height(n)
    decreases n
  {
    if Height(n) == 0 {
      path := [];
    } else {
      var i := ChildrenHeightWitness(n.children);
      var rest := DeepestNestingPath(n.children[i]);
      path := [i] + rest;
      assert path[1..] == rest;
    }
  }

  /** The nesting depth measured from depth `d` is `d` when no direct child is an
      if/for/while/with/try, and otherwise the largest `depth(child, d + 1)` over those children;
      every such child stays within it. */
  lemma NestingDepthRecurrence(n: Node, d: nat)
    ensures (forall i :: 0 <= i < |n.children| ==> !CountsForNesting(n.children[i].kind))
            ==> d + Height(n) == d
    ensures forall i :: (0 <= i < |n.children| && CountsForNesting(n.children[i].kind)
                         ==> (d + 1) + Height(n.children[i]) <= d + Height(n))
    ensures Height(n) > 0 ==> exists i :: (0 <= i < |n.children| && CountsForNesting(n.children[i].kind)
                                         && d + Height(n) == (d + 1) + Height(n.children[i]))
  {
    if forall i :: 0 <= i < |n.children| ==> !CountsForNesting(n.children[i].kind) {
      ChildrenHeightZero(n.children);
    }
    forall i | 0 <= i < |n.children| && CountsForNesting(n.children[i].kind)
      ensures (d + 1) + Height(n.children[i]) <= d + Height(n)
    {
      ChildContribution(n.children, i);
    }
    if Height(n) > 0 {
      var i := ChildrenHeightWitness(n.children);
    }
  }

  // ----- findings -----

  function LongFunctionSmell(filePath: string, n: Node): CodeSmell
    requires n.kind.FunctionDef?
  {
    CodeSmell(filePath, n.lineNo, LongFunction,
              "Function '" + n.kind.name + "' has " + NatToString(n.kind.bodyLen) + " lines (>20)",
              Medium, "Consider breaking into smaller functions", 80)
  }

  function TooManyParametersSmell(filePath: string, n: Node): CodeSmell
    requires n.kind.FunctionDef?
  {
    CodeSmell(filePath, n.lineNo, TooManyParameters,
              "Function '" + n.kind.name + "' has " + NatToString(n.kind.argCount) + " parameters (>5)",
              High, "Use dataclasses or configuration objects", 90)
  }

  function DeepNestingSmell(filePath: string, n: Node, depth: nat): CodeSmell
  {
    CodeSmell(filePath, n.lineNo, DeepNesting, "Code block nested " + NatToString(depth) + " levels deep",
              High, "Extract methods or use early returns", 70)
  }

  function SyntaxErrorSmell(filePath: string): CodeSmell
  {
    CodeSmell(filePath, 1, SyntaxErrorKind, "File contains syntax errors",
              Critical, "Fix syntax errors before proceeding", 100)
  }

  /** The findings the three checks make at one node, in the order they run. */
  function NodeSmells(filePath: string, n: Node): seq<CodeSmell>
  {
    (if n.kind.FunctionDef? && n.kind.bodyLen > MaxFunctionBody then [LongFunctionSmell(filePath, n)] else [])
    + (if n.kind.FunctionDef? && n.kind.argCount > MaxParameters then [TooManyParametersSmell(filePath, n)] else [])
    + (if TriggersDeepNesting(n.kind) && Height(n) > MaxNesting then [DeepNestingSmell(filePath, n, Height(n))] else [])
  }

  /** The findings of a sequence of visited nodes, node by node. */
  function SmellsOf(filePath: string, nodes: seq<Node>): seq<CodeSmell>
  {
    if nodes == [] then []
    else SmellsOf(filePath, nodes[..|nodes| - 1]) + NodeSmells(filePath, nodes[|nodes| - 1])
  }

  /** The result of `_analyze_python_file`; `None` when the parser raised something other than
      a `SyntaxError`, which the function does not catch. */
  function PythonSmells(filePath: string, parse: ParseOutcome): Option<seq<CodeSmell>>
  {
    match parse
    case Parsed(tree) => Some(SmellsOf(filePath, Walk([tree])))
    case SyntaxError => Some([SyntaxErrorSmell(filePath)])
    case ParserCrash => None
  }

  /** The three checks of the walk's loop body, on one node. */
  method CheckNode(filePath: string, node: Node) returns (smells: seq<CodeSmell>)
    ensures smells == NodeSmells(filePath, node)
  {
    smells := [];
    if node.kind.FunctionDef? && node.kind.bodyLen > MaxFunctionBody {
      smells := smells + [LongFunctionSmell(filePath, node)];
    }
    if node.kind.FunctionDef? && node.kind.argCount > MaxParameters {
      smells := smells + [TooManyParametersSmell(filePath, node)];
    }
    if TriggersDeepNesting(node.kind) {
      var depth := CalculateNestingDepth(node, 0);
      if depth > MaxNesting {
        smells := smells + [DeepNestingSmell(filePath, node, depth)];
      }
    }
  }

  method AnalyzePythonFile(filePath: string, parse: ParseOutcome) returns (result: Option<seq<CodeSmell>>)
    ensures result == PythonSmells(filePath, parse)
  {
    match parse
    case SyntaxError =>
      result := Some([SyntaxErrorSmell(filePath)]);
    case ParserCrash =>
      result := None;
    case Parsed(tree) =>
      var nodes := Walk([tree]);
      var smells := CheckNodes(filePath, nodes);
      result := Some(smells);
  }

  /** The loop over `ast.walk(tree)`: each node's findings in visiting order. */
  method CheckNodes(filePath: string, nodes: seq<Node>) returns (smells: seq<CodeSmell>)
    ensures smells == SmellsOf(filePath, nodes)
  {
    smells := [];
    var i := 0;
    while i < |nodes|
      invariant i <= |nodes|
      invariant smells == SmellsOf(filePath, nodes[..i])
    {
      assert nodes[..i + 1][..i] == nodes[..i];
      var found := CheckNode(filePath, nodes[i]);
      smells := smells + found;
      i := i + 1;
    }
    assert nodes[..|nodes|] == nodes;
  }

  /** Node `n` fires the check of `kind`. */
  predicate Fires(n: Node, kind: string)
  {
    || (kind == LongFunction && n.kind.FunctionDef? && n.kind.bodyLen > MaxFunctionBody)
    || (kind == TooManyParameters && n.kind.FunctionDef? && n.kind.argCount > MaxParameters)
    || (kind == DeepNesting && TriggersDeepNesting(n.kind) && Height(n) > MaxNesting)
  }

  /** A node yields one finding of a kind when it fires that check and none otherwise, all of
      them at the node's own line: `long_function` iff more than 20 body statements (21 fires,
      20 does not), `too_many_parameters` iff more than 5 positional parameters (6 fires, 5 does
      not), `deep_nesting` iff an if/for/while whose nesting depth exceeds 3. */
  lemma NodeRule(filePath: string, n: Node, kind: string)
    ensures CountKind(NodeSmells(filePath, n), kind) == if Fires(n, kind) then 1 else 0
    ensures forall f :: f in NodeSmells(filePath, n) ==> f.lineNumber == n.lineNo && Fires(n, f.smellType)
  {
    NodeCount(filePath, n, kind);
    NodeLines(filePath, n);
  }

  lemma NodeLines(filePath: string, n: Node)
    ensures forall f :: f in NodeSmells(filePath, n) ==> f.lineNumber == n.lineNo && Fires(n, f.smellType)
  {
  }

  lemma NodeCount(filePath: string, n: Node, kind: string)
    ensures CountKind(NodeSmells(filePath, n), kind) == if Fires(n, kind) then 1 else 0
  {
    var a := if n.kind.FunctionDef? && n.kind.bodyLen > MaxFunctionBody then [LongFunctionSmell(filePath, n)] else [];
    var b := if n.kind.FunctionDef? && n.kind.argCount > MaxParameters then [TooManyParametersSmell(filePath, n)] else [];
    var c := if TriggersDeepNesting(n.kind) && Height(n) > MaxNesting then [DeepNestingSmell(filePath, n, Height(n))] else [];
    CountKindAppend(a, b, kind);
    CountKindAppend(a + b, c, kind);
    CountOptional(n.kind.FunctionDef? && n.kind.bodyLen > MaxFunctionBody, a, LongFunction, kind);
    CountOptional(n.kind.FunctionDef? && n.kind.argCount > MaxParameters, b, TooManyParameters, kind);
    CountOptional(TriggersDeepNesting(n.kind) && Height(n) > MaxNesting, c, DeepNesting, kind);
  }

  /** A list holding one finding of type `t` when `cond` holds, and nothing otherwise. */
  lemma CountOptional(cond: bool, s: seq<CodeSmell>, t: string, kind: string)
    requires (cond ==> |s| == 1 && s[0].smellType == t) && (!cond ==> s == [])
    ensures CountKind(s, kind) == if cond && t == kind then 1 else 0
  {
    if cond {
      assert s[1..] == [];
    }
  }

  /** How many of the nodes fire the check of `kind`. */
  function FiringNodes(nodes: seq<Node>, kind: string): nat
  {
    if nodes == [] then 0
    else FiringNodes(nodes[..|nodes| - 1], kind) + (if Fires(nodes[|nodes| - 1], kind) then 1 else 0)
  }

  lemma {:induction false} FiringNodesAppend(a: seq<Node>, b: seq<Node>, kind: string)
    ensures FiringNodes(a + b, kind) == FiringNodes(a, kind) + FiringNodes(b, kind)
    decreases |b|
  {
    if b == [] {
      assert a + b == a;
    } else {
      assert (a + b)[..|a + b| - 1] == a + b[..|b| - 1];
      FiringNodesAppend(a, b[..|b| - 1], kind);
    }
  }

  /** Taking out the node at `j` lowers the count by that node's own contribution. */
  lemma FiringNodesRemove(b: seq<Node>, j: nat, kind: string)
    requires j < |b|
    ensures FiringNodes(b, kind) == FiringNodes(b[..j] + b[j + 1..], kind) + (if Fires(b[j], kind) then 1 else 0)
  {
    assert b == b[..j] + ([b[j]] + b[j + 1..]);
    FiringNodesAppend(b[..j], [b[j]] + b[j + 1..], kind);
    FiringNodesAppend([b[j]], b[j + 1..], kind);
    FiringNodesAppend(b[..j], b[j + 1..], kind);
    assert [b[j]][..0] == [];
  }

  /** The count depends only on which nodes there are, not on their order. */
  lemma {:induction false} FiringNodesPermutation(a: seq<Node>, b: seq<Node>, kind: string)
    requires multiset(a) == multiset(b)
    ensures FiringNodes(a, kind) == FiringNodes(b, kind)
    decreases |a|
  {
    if a != [] {
      var j := PlaceOfLast(a, b);
      FiringNodesPermutation(a[..|a| - 1], b[..j] + b[j + 1..], kind);
      FiringNodesRemove(b, j, kind);
      DropLast(a);
    }
  }

  lemma {:induction false} SmellsOfCount(filePath: string, nodes: seq<Node>, kind: string)
    ensures CountKind(SmellsOf(filePath, nodes), kind) == FiringNodes(nodes, kind)
    decreases |nodes|
  {
    if nodes != [] {
      SmellsOfCount(filePath, nodes[..|nodes| - 1], kind);
      NodeRule(filePath, nodes[|nodes| - 1], kind);
      CountKindAppend(SmellsOf(filePath, nodes[..|nodes| - 1]), NodeSmells(filePath, nodes[|nodes| - 1]), kind);
    }
  }

  lemma {:induction false} SmellsOfSound(filePath: string, nodes: seq<Node>)
    ensures forall f :: f in SmellsOf(filePath, nodes) ==>
              exists n :: n in nodes && Fires(n, f.smellType) && f.lineNumber == n.lineNo
    decreases |nodes|
  {
    if nodes != [] {
      var init := nodes[..|nodes| - 1];
      var last := nodes[|nodes| - 1];
      SmellsOfSound(filePath, init);
      NodeRule(filePath, last, LongFunction);
      forall f | f in SmellsOf(filePath, nodes)
        ensures exists n :: n in nodes && Fires(n, f.smellType) && f.lineNumber == n.lineNo
      {
        if f in SmellsOf(filePath, init) {
          var n :| n in init && Fires(n, f.smellType) && f.lineNumber == n.lineNo;
          assert n in nodes;
        } else {
          assert f in NodeSmells(filePath, last);
          assert last in nodes;
        }
      }
    }
  }

  /** For a parsed file, the number of findings of each kind equals the number of nodes of the
      tree that fire that check, and every finding sits at the line of such a node. */
  lemma StructuralRule(filePath: string, tree: Node, kind: string)
    ensures CountKind(PythonSmells(filePath, Parsed(tree)).value, kind) == FiringNodes(AllNodes(tree), kind)
    ensures forall f :: f in PythonSmells(filePath, Parsed(tree)).value ==>
              exists n :: n in AllNodes(tree) && Fires(n, f.smellType) && f.lineNumber == n.lineNo
  {
    var nodes := Walk([tree]);
    WalkVisitsEveryNode([tree]);
    assert AllNodesSeq([tree]) == AllNodes(tree) + AllNodesSeq([]);
    assert AllNodesSeq([tree]) == AllNodes(tree);
    SmellsOfCount(filePath, nodes, kind);
    FiringNodesPermutation(nodes, AllNodes(tree), kind);
    SmellsOfSound(filePath, nodes);
    forall f | f in SmellsOf(filePath, nodes)
      ensures exists n :: n in AllNodes(tree) && Fires(n, f.smellType) && f.lineNumber == n.lineNo
    {
      var n :| n in nodes && Fires(n, f.smellType) && f.lineNumber == n.lineNo;
      assert n in multiset(nodes);
    }
  }

  /** A file that does not parse yields exactly one finding: `syntax_error` at line 1, critical,
      with full confidence. */
  lemma SyntaxErrorRule(filePath: string)
    ensures PythonSmells(filePath, SyntaxError).Some?
    ensures var r := PythonSmells(filePath, SyntaxError).value;
            |r| == 1 && r[0].smellType == SyntaxErrorKind && r[0].lineNumber == 1
            && r[0].severity == Critical && r[0].confidence == 100
  {
  }

  /** `k` directly nested `if` statements, the outermost at `line` (`k = 0` is a plain statement). */
  function IfChain(k: nat, line: int): Node
  {
    if k == 0 then Node(Other, line, []) else Node(If, line, [IfChain(k - 1, line + 1)])
  }

  lemma {:induction false} IfChainHeight(k: nat, line: int)
    ensures Height(IfChain(k, line)) == if k == 0 then 0 else k - 1
  {
    if k > 0 {
      IfChainHeight(k - 1, line + 1);
      var cs := IfChain(k, line).children;
      assert cs[..0] == [];
    }
  }

  /** In a stack of directly nested `if` statements, an `if` is reported as deeply nested exactly
      when at least four more are nested inside it: of ten, the outer six. */
  lemma IfChainDeepNesting(k: nat, line: int)
    requires k >= 1
    ensures Fires(IfChain(k, line), DeepNesting) <==> k > 4
  {
    IfChainHeight(k, line);
  }
}
