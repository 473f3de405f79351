/** Post-processing of a syntax tree. A TaggedSet tags some nodes and replaces each
    tagged node by a list of nodes; the traversal goes root first (a tagged node's
    subtree is never visited) or root last (children first, then the rebuilt node). */
module AstProcessors {
  import opened Wrappers
  import opened Grammar
  import opened SimplifiedGrammar
  import opened Ast

  datatype Direction = RootFirst | RootLast

  /** `get(0)` on an empty result list. */
  datatype ProcessError = EmptyResult

  /** p holds at every node of the tree. */
  predicate Everywhere(p: Node -> bool, n: Node)
    decreases n, 1
  {
    p(n) && (n.Branch? ==> EverywhereAll(p, n.children))
  }

  predicate EverywhereAll(p: Node -> bool, nodes: seq<Node>)
    decreases nodes, 0
  {
    nodes == [] || (EverywhereAll(p, nodes[..|nodes| - 1]) && Everywhere(p, nodes[|nodes| - 1]))
  }

  lemma {:induction false} EverywhereAllAppend(p: Node -> bool, xs: seq<Node>, ys: seq<Node>)
    ensures EverywhereAll(p, xs + ys) <==> EverywhereAll(p, xs) && EverywhereAll(p, ys)
    decreases |ys|
  {
    if ys == [] {
      assert xs + ys == xs;
    } else {
      assert (xs + ys)[..|xs + ys| - 1] == xs + ys[..|ys| - 1];
      EverywhereAllAppend(p, xs, ys[..|ys| - 1]);
    }
  }

  datatype TaggedSet = TaggedSet(isTagged: Node -> bool, nodeProcessor: Node -> seq<Node>, direction: Direction)
  {
    /** What `processNodeRF` returns. */
    function RF(n: Node): seq<Node>
      decreases n, 1
    {
      if isTagged(n) then nodeProcessor(n)
      else if n.Branch? then [Branch(n.nonTerminal, n.rule, RFAll(n.children))]
      else [n]
    }

    /** The processed children, concatenated in order. */
    function RFAll(nodes: seq<Node>): seq<Node>
      decreases nodes, 0
    {
      if nodes == [] then [] else RFAll(nodes[..|nodes| - 1]) + RF(nodes[|nodes| - 1])
    }

    /** What `processNodeRL` returns. */
    function RL(n: Node): seq<Node>
      decreases n, 1
    {
      var rebuilt := Rebuilt(n);
      if isTagged(rebuilt) then nodeProcessor(rebuilt) else [rebuilt]
    }

    /** A branch with its children processed first; a leaf as it is. */
    function Rebuilt(n: Node): Node
      decreases n, 0
    {
      if n.Branch? then Branch(n.nonTerminal, n.rule, RLAll(n.children)) else n
    }

    function RLAll(nodes: seq<Node>): seq<Node>
      decreases nodes, 0
    {
      if nodes == [] then [] else RLAll(nodes[..|nodes| - 1]) + RL(nodes[|nodes| - 1])
    }

    /** The list the traversal of this direction gives for the root. */
    function Results(root: Node): seq<Node>
    {
      if direction == RootFirst then RF(root) else RL(root)
    }

    /** What `process` returns: the first node of the root's list. */
    function Processed(ast: Tree): (r: Result<Tree, ProcessError>)
      ensures r.Failure? <==> Results(ast.root) == []
      ensures r.Success? ==> r.value.root == Results(ast.root)[0]
    {
      var list := Results(ast.root);
      if list == [] then Failure(EmptyResult) else Success(Ast(list[0]))
    }

    method ProcessNodeRL(node: Node) returns (r: seq<Node>)
      ensures r == RL(node)
      decreases node, 1
    {
      var newNode := node;
      if node.Branch? {
        var newChildren: seq<Node> := [];
        for i := 0 to |node.children|
          invariant newChildren == RLAll(node.children[..i])
        {
          var processed := ProcessNodeRL(node.children[i]);
          assert node.children[..i + 1][..i] == node.children[..i];
          newChildren := newChildren + processed;
        }
        assert node.children[..|node.children|] == node.children;
        newNode := Branch(node.nonTerminal, node.rule, newChildren);
      }
      r := if isTagged(newNode) then nodeProcessor(newNode) else [newNode];
    }

    method ProcessNodeRF(node: Node) returns (r: seq<Node>)
      ensures r == RF(node)
      decreases node, 1
    {
      if isTagged(node) {
        return nodeProcessor(node);
      }
      var newNode := node;
      if node.Branch? {
        var newChildren: seq<Node> := [];
        for i := 0 to |node.children|
          invariant newChildren == RFAll(node.children[..i])
        {
          var processed := ProcessNodeRF(node.children[i]);
          assert node.children[..i + 1][..i] == node.children[..i];
          newChildren := newChildren + processed;
        }
        assert node.children[..|node.children|] == node.children;
        newNode := Branch(node.nonTerminal, node.rule, newChildren);
      }
      r := [newNode];
    }

    /** `process`: fails where Kotlin's `get(0)` would throw on an empty list. */
    method Process(ast: Tree) returns (r: Result<Tree, ProcessError>)
      ensures r == Processed(ast)
    {
      var list;
      if direction == RootFirst {
        list := ProcessNodeRF(ast.root);
      } else {
        list := ProcessNodeRL(ast.root);
      }
      if |list| == 0 {
        return Failure(EmptyResult);
      }
      r := Success(Ast(list[0]));
    }
  }

  /** The nodes the tag set does not tag. */
  function Unmarked(ts: TaggedSet): Node -> bool
  {
    (m: Node) => !ts.isTagged(m)
  }

  /** No node of the tree is tagged. */
  predicate Untagged(ts: TaggedSet, n: Node)
  {
    Everywhere(Unmarked(ts), n)
  }

  /** With nothing tagged both traversals give back the node itself. */
  lemma {:induction false} UntaggedIsIdentity(ts: TaggedSet, n: Node)
    requires Everywhere(Unmarked(ts), n)
    ensures ts.RF(n) == [n] && ts.RL(n) == [n]
    decreases n, 1
  {
    if n.Branch? {
      UntaggedIsIdentityAll(ts, n.children);
    }
  }

  lemma {:induction false} UntaggedIsIdentityAll(ts: TaggedSet, nodes: seq<Node>)
    requires EverywhereAll(Unmarked(ts), nodes)
    ensures ts.RFAll(nodes) == nodes && ts.RLAll(nodes) == nodes
    decreases nodes, 0
  {
    if nodes != [] {
      var init := nodes[..|nodes| - 1];
      UntaggedIsIdentityAll(ts, init);
      UntaggedIsIdentity(ts, nodes[|nodes| - 1]);
      assert init + [nodes[|nodes| - 1]] == nodes;
    }
  }

  /** When no node is tagged, `process` returns an equal tree. */
  lemma ProcessUntagged(ts: TaggedSet, ast: Tree)
    requires Untagged(ts, ast.root)
    ensures ts.Processed(ast) == Success(ast)
  {
    UntaggedIsIdentity(ts, ast.root);
  }

  /** A text-preserving processor makes both traversals text-preserving. */
  lemma {:induction false} TraversalsPreserveText(ts: TaggedSet, n: Node)
    requires forall n :: ts.isTagged(n) ==> ChildrenText(ts.nodeProcessor(n)) == Text(n)
    ensures ChildrenText(ts.RF(n)) == Text(n) && ChildrenText(ts.RL(n)) == Text(n)
    decreases n, 1
  {
    var rebuilt := ts.Rebuilt(n);
    if n.Branch? {
      TraversalsPreserveTextAll(ts, n.children);
      ChildrenTextCons([Branch(n.nonTerminal, n.rule, ts.RFAll(n.children))]);
    }
    ChildrenTextCons([n]);
    ChildrenTextCons([rebuilt]);
  }

  lemma {:induction false} TraversalsPreserveTextAll(ts: TaggedSet, nodes: seq<Node>)
    requires forall n :: ts.isTagged(n) ==> ChildrenText(ts.nodeProcessor(n)) == Text(n)
    ensures ChildrenText(ts.RFAll(nodes)) == ChildrenText(nodes)
    ensures ChildrenText(ts.RLAll(nodes)) == ChildrenText(nodes)
    decreases nodes, 0
  {
    if nodes != [] {
      var init := nodes[..|nodes| - 1];
      var last := nodes[|nodes| - 1];
      TraversalsPreserveTextAll(ts, init);
      TraversalsPreserveText(ts, last);
      ChildrenTextAppend(ts.RFAll(init), ts.RF(last));
      ChildrenTextAppend(ts.RLAll(init), ts.RL(last));
    }
  }

  /** A root whose list has exactly one node keeps its text through `process`. */
  lemma ProcessPreservesText(ts: TaggedSet, ast: Tree)
    requires forall n :: ts.isTagged(n) ==> ChildrenText(ts.nodeProcessor(n)) == Text(n)
    requires |ts.Results(ast.root)| == 1
    ensures ts.Processed(ast).Success? && Text(ts.Processed(ast).value.root) == Text(ast.root)
  {
    TraversalsPreserveText(ts, ast.root);
    var list := ts.Results(ast.root);
    ChildrenTextCons(list);
  }

  // ---------------------------------------------------------------------------
  // Tag sets

  /** TaggedNonTerminalSet: tags exactly the branches built from one of the nonterminals. */
  function TaggedNonTerminalSet(nonTerminals: set<NonTerminal>, nodeProcessor: Node -> seq<Node>, direction: Direction)
    : TaggedSet
  {
    TaggedSet((n: Node) => n.Branch? && n.nonTerminal in nonTerminals, nodeProcessor, direction)
  }

  /** TaggedRuleSet: tags exactly the branches built by one of the rules. */
  function TaggedRuleSet(rules: set<SimplifiedRule>, nodeProcessor: Node -> seq<Node>, direction: Direction)
    : TaggedSet
  {
    TaggedSet((n: Node) => n.Branch? && n.rule in rules, nodeProcessor, direction)
  }

  /* A function contract cannot quantify over every Node, since a Node can hold a
     special symbol's filter object; the meaning of the two tag sets is therefore
     stated node by node. */

  /** TaggedNonTerminalSet tags a node exactly when it is a branch of one of the
      nonterminals, and keeps the processor and direction it is given. */
  lemma TaggedNonTerminalSetTags(nonTerminals: set<NonTerminal>, nodeProcessor: Node -> seq<Node>, direction: Direction,
                                 n: Node)
    ensures TaggedNonTerminalSet(nonTerminals, nodeProcessor, direction).isTagged(n)
            <==> n.Branch? && n.nonTerminal in nonTerminals
    ensures TaggedNonTerminalSet(nonTerminals, nodeProcessor, direction).nodeProcessor == nodeProcessor
    ensures TaggedNonTerminalSet(nonTerminals, nodeProcessor, direction).direction == direction
  {
  }

  /** TaggedRuleSet tags a node exactly when it is a branch built by one of the rules,
      and keeps the processor and direction it is given. */
  lemma TaggedRuleSetTags(rules: set<SimplifiedRule>, nodeProcessor: Node -> seq<Node>, direction: Direction, n: Node)
    ensures TaggedRuleSet(rules, nodeProcessor, direction).isTagged(n) <==> n.Branch? && n.rule in rules
    ensures TaggedRuleSet(rules, nodeProcessor, direction).nodeProcessor == nodeProcessor
    ensures TaggedRuleSet(rules, nodeProcessor, direction).direction == direction
  {
  }

  // ---------------------------------------------------------------------------
  // The three processors

  /** StringifyNonTerminals: root first, a tagged branch becomes one CompoundLeaf of its text. */
  function StringifyNonTerminals(nonTerminals: set<NonTerminal>): TaggedSet
  {
    TaggedNonTerminalSet(nonTerminals,
      (n: Node) => if n.Branch? then [CompoundLeaf(n.nonTerminal, Text(n))] else [n],
      RootFirst)
  }

  /** UnfoldNonTerminals: root last, a tagged branch is replaced by its children. */
  function UnfoldNonTerminals(nonTerminals: set<NonTerminal>): TaggedSet
  {
    TaggedNonTerminalSet(nonTerminals, (n: Node) => if n.Branch? then n.children else [n], RootLast)
  }

  /** Leaves with empty text and branches without children. */
  predicate IsEmptyNode(n: Node)
  {
    if n.Branch? then n.children == [] else StringValue(n) == ""
  }

  predicate IsNonEmptyNode(n: Node)
  {
    !IsEmptyNode(n)
  }

  /** RemoveEmpties: root last, empty nodes are dropped. */
  function RemoveEmpties(): TaggedSet
  {
    TaggedSet(IsEmptyNode, (n: Node) => [], RootLast)
  }

  /** The vararg constructors: the tag set is filled with the given nonterminals, and
      the result is the processor built on that set. */
  method SetOf(list: seq<NonTerminal>) returns (s: set<NonTerminal>)
    ensures forall x :: x in s <==> x in list
  {
    s := {};
    for i := 0 to |list|
      invariant forall x :: x in s <==> x in list[..i]
    {
      s := s + {list[i]};
      assert list[..i + 1] == list[..i] + [list[i]];
    }
    assert list[..|list|] == list;
  }

  method StringifyNonTerminalsOf(list: seq<NonTerminal>) returns (r: TaggedSet)
    ensures forall n :: r.isTagged(n) <==> n.Branch? && n.nonTerminal in list
    ensures r.direction == RootFirst
    ensures r == StringifyNonTerminals(set x | x in list)
  {
    var s := SetOf(list);
    assert s == set x | x in list;
    r := StringifyNonTerminals(s);
  }

  method UnfoldNonTerminalsOf(list: seq<NonTerminal>) returns (r: TaggedSet)
    ensures forall n :: r.isTagged(n) <==> n.Branch? && n.nonTerminal in list
    ensures r.direction == RootLast
    ensures r == UnfoldNonTerminals(set x | x in list)
  {
    var s := SetOf(list);
    assert s == set x | x in list;
    r := UnfoldNonTerminals(s);
  }

  /** Each of the three processors keeps the text of the nodes it replaces. */
  lemma ProcessorsPreserveText(nonTerminals: set<NonTerminal>)
    ensures forall n :: StringifyNonTerminals(nonTerminals).isTagged(n) ==> ChildrenText(StringifyNonTerminals(nonTerminals).nodeProcessor(n)) == Text(n)
    ensures forall n :: UnfoldNonTerminals(nonTerminals).isTagged(n) ==> ChildrenText(UnfoldNonTerminals(nonTerminals).nodeProcessor(n)) == Text(n)
    ensures forall n :: RemoveEmpties().isTagged(n) ==> ChildrenText(RemoveEmpties().nodeProcessor(n)) == Text(n)
  {
    forall n | StringifyNonTerminals(nonTerminals).isTagged(n)
      ensures ChildrenText(StringifyNonTerminals(nonTerminals).nodeProcessor(n)) == Text(n)
    {
      ChildrenTextCons([CompoundLeaf(n.nonTerminal, Text(n))]);
    }
    forall n | RemoveEmpties().isTagged(n)
      ensures ChildrenText(RemoveEmpties().nodeProcessor(n)) == Text(n)
    {
    }
  }

  /** Root first, stringify leaves no tagged branch: each outermost one became a leaf. */
  lemma {:induction false} StringifyLeavesNoTagged(nonTerminals: set<NonTerminal>, n: Node)
    ensures EverywhereAll(Unmarked(StringifyNonTerminals(nonTerminals)), StringifyNonTerminals(nonTerminals).RF(n))
    decreases n, 1
  {
    var ts := StringifyNonTerminals(nonTerminals);
    var p := Unmarked(ts);
    if ts.isTagged(n) {
      var leaf := CompoundLeaf(n.nonTerminal, Text(n));
      assert ts.RF(n) == [leaf] && [leaf][..0] == [];
      assert Everywhere(p, leaf);
    } else if n.Branch? {
      StringifyLeavesNoTaggedAll(nonTerminals, n.children);
      var b := Branch(n.nonTerminal, n.rule, ts.RFAll(n.children));
      assert Everywhere(p, b);
      assert [b][..0] == [];
    } else {
      assert ts.RF(n) == [n] && p(n);
      assert Everywhere(p, n);
      assert [n][..0] == [];
    }
  }

  lemma {:induction false} StringifyLeavesNoTaggedAll(nonTerminals: set<NonTerminal>, nodes: seq<Node>)
    ensures EverywhereAll(Unmarked(StringifyNonTerminals(nonTerminals)), StringifyNonTerminals(nonTerminals).RFAll(nodes))
    decreases nodes, 0
  {
    var ts := StringifyNonTerminals(nonTerminals);
    if nodes != [] {
      var init := nodes[..|nodes| - 1];
      StringifyLeavesNoTaggedAll(nonTerminals, init);
      StringifyLeavesNoTagged(nonTerminals, nodes[|nodes| - 1]);
      EverywhereAllAppend(Unmarked(ts), ts.RFAll(init), ts.RF(nodes[|nodes| - 1]));
    }
  }

  /** Root last, unfold leaves no tagged branch: each one was spliced into its parent. */
  lemma {:induction false} UnfoldLeavesNoTagged(nonTerminals: set<NonTerminal>, n: Node)
    ensures EverywhereAll(Unmarked(UnfoldNonTerminals(nonTerminals)), UnfoldNonTerminals(nonTerminals).RL(n))
    decreases n, 1
  {
    var ts := UnfoldNonTerminals(nonTerminals);
    var p := Unmarked(ts);
    var rebuilt := ts.Rebuilt(n);
    if n.Branch? {
      UnfoldLeavesNoTaggedAll(nonTerminals, n.children);
    }
    if !ts.isTagged(rebuilt) {
      assert Everywhere(p, rebuilt);
      assert [rebuilt][..0] == [];
    }
  }

  lemma {:induction false} UnfoldLeavesNoTaggedAll(nonTerminals: set<NonTerminal>, nodes: seq<Node>)
    ensures EverywhereAll(Unmarked(UnfoldNonTerminals(nonTerminals)), UnfoldNonTerminals(nonTerminals).RLAll(nodes))
    decreases nodes, 0
  {
    var ts := UnfoldNonTerminals(nonTerminals);
    if nodes != [] {
      var init := nodes[..|nodes| - 1];
      UnfoldLeavesNoTaggedAll(nonTerminals, init);
      UnfoldLeavesNoTagged(nonTerminals, nodes[|nodes| - 1]);
      EverywhereAllAppend(Unmarked(ts), ts.RLAll(init), ts.RL(nodes[|nodes| - 1]));
    }
  }

  /** Stringify gives exactly one node for every node, so `process` always succeeds. */
  lemma StringifySingle(nonTerminals: set<NonTerminal>, n: Node)
    ensures |StringifyNonTerminals(nonTerminals).RF(n)| == 1
  {
  }

  /** RemoveEmpties leaves no empty leaf and no childless branch anywhere. */
  lemma {:induction false} RemoveEmptiesLeavesNoEmpties(n: Node)
    ensures EverywhereAll(IsNonEmptyNode, RemoveEmpties().RL(n))
    ensures |RemoveEmpties().RL(n)| <= 1
    decreases n, 1
  {
    var ts := RemoveEmpties();
    var rebuilt := ts.Rebuilt(n);
    if n.Branch? {
      RemoveEmptiesLeavesNoEmptiesAll(n.children);
    }
    if !IsEmptyNode(rebuilt) {
      assert Everywhere(IsNonEmptyNode, rebuilt);
      assert [rebuilt][..0] == [];
    }
  }

  lemma {:induction false} RemoveEmptiesLeavesNoEmptiesAll(nodes: seq<Node>)
    ensures EverywhereAll(IsNonEmptyNode, RemoveEmpties().RLAll(nodes))
    decreases nodes, 0
  {
    var ts := RemoveEmpties();
    if nodes != [] {
      var init := nodes[..|nodes| - 1];
      RemoveEmptiesLeavesNoEmptiesAll(init);
      RemoveEmptiesLeavesNoEmpties(nodes[|nodes| - 1]);
      EverywhereAllAppend(IsNonEmptyNode, ts.RLAll(init), ts.RL(nodes[|nodes| - 1]));
    }
  }

  /** RemoveEmpties drops a tree exactly when its text is empty. */
  lemma {:induction false} RemoveEmptiesDropsEmptyText(n: Node)
    ensures RemoveEmpties().RL(n) == [] <==> Text(n) == ""
    decreases n, 1
  {
    var ts := RemoveEmpties();
    ProcessorsPreserveText({});
    TraversalsPreserveText(ts, n);
    if Text(n) == "" && n.Branch? {
      RemoveEmptiesDropsEmptyTextAll(n.children);
    }
  }

  lemma {:induction false} RemoveEmptiesDropsEmptyTextAll(nodes: seq<Node>)
    requires ChildrenText(nodes) == ""
    ensures RemoveEmpties().RLAll(nodes) == []
    decreases nodes, 0
  {
    if nodes != [] {
      RemoveEmptiesDropsEmptyTextAll(nodes[..|nodes| - 1]);
      RemoveEmptiesDropsEmptyText(nodes[|nodes| - 1]);
    }
  }

  /** RemoveEmpties keeps the text of a tree whose text is not empty. */
  lemma RemoveEmptiesProcess(ast: Tree)
    ensures RemoveEmpties().Processed(ast).Failure? <==> Text(ast.root) == ""
    ensures RemoveEmpties().Processed(ast).Success? ==> Text(RemoveEmpties().Processed(ast).value.root) == Text(ast.root)
  {
    RemoveEmptiesDropsEmptyText(ast.root);
    RemoveEmptiesLeavesNoEmpties(ast.root);
    ProcessorsPreserveText({});
    if Text(ast.root) != "" {
      ProcessPreservesText(RemoveEmpties(), ast);
    }
  }

  /** Stringify always succeeds and keeps the text of the tree. */
  lemma StringifyProcess(nonTerminals: set<NonTerminal>, ast: Tree)
    ensures StringifyNonTerminals(nonTerminals).Processed(ast).Success?
    ensures Text(StringifyNonTerminals(nonTerminals).Processed(ast).value.root) == Text(ast.root)
  {
    StringifySingle(nonTerminals, ast.root);
    ProcessorsPreserveText(nonTerminals);
    ProcessPreservesText(StringifyNonTerminals(nonTerminals), ast);
  }

  /** Unfolding a tagged root keeps only the first of its children's results: `process`
      takes the first node of the root's list. */
  lemma UnfoldTaggedRoot(nt: NonTerminal, rule: SimplifiedRule, a: Node, b: Node)
    requires !a.Branch? && !b.Branch?
    ensures UnfoldNonTerminals({nt}).Processed(Ast(Branch(nt, rule, [a, b]))) == Success(Ast(a))
  {
    var ts := UnfoldNonTerminals({nt});
    assert [a, b][..1] == [a] && [a][..0] == [];
    assert ts.RL(a) == [a] && ts.RL(b) == [b];
    assert ts.RLAll([a]) == [a];
    assert ts.RLAll([a, b]) == [a, b];
    var root := Branch(nt, rule, [a, b]);
    assert ts.Rebuilt(root) == root && ts.isTagged(root);
    assert ts.Results(root) == [a, b];
  }
}
