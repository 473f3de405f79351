/** The abstract syntax tree a parse produces: branches know the nonterminal and rule
    they were built by, leaves know the text they stand for. */
module Ast {
  import opened Wrappers
  import opened Grammar
  import opened SimplifiedGrammar

  /** Kotlin's Node hierarchy; a Leaf is any variant other than Branch. A TerminalLeaf
      holds the value of its terminal, the only field a Terminal has, and a SpecialLeaf
      the name and filter of its special symbol. */
  datatype Node =
    | Branch(nonTerminal: NonTerminal, rule: SimplifiedRule, children: seq<Node>)
    | TerminalLeaf(terminal: TerminalText)
    | SpecialLeaf(name: string, filter: CharFilter, value: char)
    | EndOfFileLeaf
    | EmptyLeaf
    | CompoundLeaf(compound: NonTerminal, text: string)

  /** `getStringValue` of a leaf. */
  function StringValue(leaf: Node): (r: string)
    requires !leaf.Branch?
    ensures leaf.SpecialLeaf? ==> r == [leaf.value]
    ensures leaf.CompoundLeaf? ==> r == leaf.text
    ensures leaf.TerminalLeaf? ==> r == leaf.terminal
    ensures leaf.EndOfFileLeaf? || leaf.EmptyLeaf? ==> r == ""
  {
    match leaf
    case TerminalLeaf(v) => v
    case SpecialLeaf(_, _, c) => [c]
    case EndOfFileLeaf => ""
    case EmptyLeaf => ""
    case CompoundLeaf(_, v) => v
  }

  /** The text a node stands for: a leaf's string value, a branch's `getString`. */
  function Text(n: Node): string
    decreases n, 1
  {
    if n.Branch? then ChildrenText(n.children) else StringValue(n)
  }

  /** `fold("", acc + child)` over a list of children. */
  function ChildrenText(children: seq<Node>): string
    decreases children, 0
  {
    if children == [] then ""
    else ChildrenText(children[..|children| - 1]) + Text(children[|children| - 1])
  }

  /** The children's text is the text of the first child followed by the rest's. */
  lemma {:induction false} ChildrenTextCons(children: seq<Node>)
    requires children != []
    ensures ChildrenText(children) == Text(children[0]) + ChildrenText(children[1..])
    decreases |children|
  {
    if |children| > 1 {
      var init := children[..|children| - 1];
      ChildrenTextCons(init);
      assert init[1..] == children[1..][..|children[1..]| - 1];
      assert init[0] == children[0];
    } else {
      assert children[..0] == [];
    }
  }

  /** Text distributes over concatenation of child lists. */
  lemma {:induction false} ChildrenTextAppend(xs: seq<Node>, ys: seq<Node>)
    ensures ChildrenText(xs + ys) == ChildrenText(xs) + ChildrenText(ys)
    decreases |ys|
  {
    if ys == [] {
      assert xs + ys == xs;
    } else {
      var init := ys[..|ys| - 1];
      assert (xs + ys)[..|xs + ys| - 1] == xs + init;
      ChildrenTextAppend(xs, init);
    }
  }

  /** `getString` of a branch: its children's texts, left to right. */
  lemma BranchString(nt: NonTerminal, rule: SimplifiedRule, children: seq<Node>)
    ensures Text(Branch(nt, rule, children)) == Concat(seq(|children|, i requires 0 <= i < |children| => Text(children[i])))
  {
    ChildrenTextIsConcat(children);
  }

  lemma {:induction false} ChildrenTextIsConcat(children: seq<Node>)
    ensures ChildrenText(children) == Concat(seq(|children|, i requires 0 <= i < |children| => Text(children[i])))
    decreases |children|
  {
    var texts := seq(|children|, i requires 0 <= i < |children| => Text(children[i]));
    if children != [] {
      ChildrenTextCons(children);
      ChildrenTextIsConcat(children[1..]);
      assert texts[1..] == seq(|children[1..]|, i requires 0 <= i < |children[1..]| => Text(children[1..][i]));
    } else {
      assert texts == [];
    }
  }

  // ---------------------------------------------------------------------------
  // Rendering

  datatype AstError = NegativeOffset

  /** `|` repeated n times. */
  function Bars(n: nat): (r: string)
    ensures |r| == n && forall i :: 0 <= i < n ==> r[i] == '|'
  {
    if n == 0 then "" else Bars(n - 1) + "|"
  }

  /** `decoration`: a negative offset is rejected, otherwise offset bars. */
  function Decoration(offset: int): (r: Result<string, AstError>)
    ensures r.Failure? <==> offset < 0
    ensures r.Success? ==> |r.value| == offset && forall i :: 0 <= i < offset ==> r.value[i] == '|'
  {
    if offset < 0 then Failure(NegativeOffset) else Success(Bars(offset))
  }

  /** The private `toString(node, offset)`: a leaf is its decoration, its quoted text and
      a newline; a branch is its decoration, its name and a newline, then its children at
      offset + 1. */
  function Render(n: Node, offset: int): Result<string, AstError>
    decreases n, 1
  {
    var decoration := Decoration(offset);
    if decoration.Failure? then Failure(decoration.error)
    else if n.Branch? then
      var rest := RenderChildren(n.children, offset + 1);
      if rest.Failure? then rest else Success(decoration.value + n.nonTerminal.name + "\n" + rest.value)
    else Success(decoration.value + "'" + StringValue(n) + "'\n")
  }

  /** `map(toString(it, offset)).fold("", String::plus)`. */
  function RenderChildren(children: seq<Node>, offset: int): Result<string, AstError>
    decreases children, 0
  {
    if children == [] then Success("")
    else
      var init := RenderChildren(children[..|children| - 1], offset);
      var last := Render(children[|children| - 1], offset);
      if init.Failure? then init
      else if last.Failure? then last
      else Success(init.value + last.value)
  }

  /** A rendering from a non-negative offset never fails. */
  lemma {:induction false} RenderSucceeds(n: Node, offset: int)
    requires offset >= 0
    ensures Render(n, offset).Success?
    decreases n, 1
  {
    if n.Branch? {
      RenderChildrenSucceeds(n.children, offset + 1);
    }
  }

  lemma {:induction false} RenderChildrenSucceeds(children: seq<Node>, offset: int)
    requires offset >= 0
    ensures RenderChildren(children, offset).Success?
    decreases children, 0
  {
    if children != [] {
      RenderChildrenSucceeds(children[..|children| - 1], offset);
      RenderSucceeds(children[|children| - 1], offset);
    }
  }

  datatype Tree = Ast(root: Node)

  /** `Ast.toString`: the rendering from offset 0, which never hits the negative-offset
      error. */
  function ToString(ast: Tree): (r: string)
  {
    RenderSucceeds(ast.root, 0);
    Render(ast.root, 0).value
  }

  /** The number of newlines in s. */
  function Lines(s: string): nat
  {
    if s == [] then 0 else Lines(s[..|s| - 1]) + (if s[|s| - 1] == '\n' then 1 else 0)
  }

  lemma {:induction false} LinesAppend(a: string, b: string)
    ensures Lines(a + b) == Lines(a) + Lines(b)
    decreases |b|
  {
    if b == [] {
      assert a + b == a;
    } else {
      assert (a + b)[..|a + b| - 1] == a + b[..|b| - 1];
      LinesAppend(a, b[..|b| - 1]);
    }
  }

  lemma {:induction false} NoNewlineNoLines(s: string)
    requires '\n' !in s
    ensures Lines(s) == 0
    decreases |s|
  {
    if s != [] {
      NoNewlineNoLines(s[..|s| - 1]);
    }
  }

  /** The number of nodes of a tree. */
  function Size(n: Node): nat
    decreases n, 1
  {
    if n.Branch? then 1 + ChildrenSize(n.children) else 1
  }

  function ChildrenSize(children: seq<Node>): nat
    decreases children, 0
  {
    if children == [] then 0 else ChildrenSize(children[..|children| - 1]) + Size(children[|children| - 1])
  }

  /** No branch name and no leaf text holds a newline. */
  predicate OneLineTexts(n: Node)
    decreases n, 1
  {
    if n.Branch? then '\n' !in n.nonTerminal.name && AllOneLineTexts(n.children)
    else '\n' !in StringValue(n)
  }

  predicate AllOneLineTexts(children: seq<Node>)
    decreases children, 0
  {
    children == [] || (AllOneLineTexts(children[..|children| - 1]) && OneLineTexts(children[|children| - 1]))
  }

  /** When no name or text holds a newline, the rendering has one line per node. */
  lemma {:induction false} RenderLines(n: Node, offset: nat)
    requires OneLineTexts(n)
    ensures Render(n, offset).Success? && Lines(Render(n, offset).value) == Size(n)
    decreases n, 1
  {
    RenderSucceeds(n, offset);
    var d := Bars(offset);
    NoNewlineNoLines(d);
    if n.Branch? {
      RenderChildrenSucceeds(n.children, offset + 1);
      RenderChildrenLines(n.children, offset + 1);
      var rest := RenderChildren(n.children, offset + 1).value;
      NoNewlineNoLines(n.nonTerminal.name);
      LinesAppend(d, n.nonTerminal.name);
      LinesAppend(d + n.nonTerminal.name, "\n");
      LinesAppend(d + n.nonTerminal.name + "\n", rest);
    } else {
      var v := StringValue(n);
      NoNewlineNoLines(v);
      LinesAppend(d, "'");
      LinesAppend(d + "'", v);
      LinesAppend(d + "'" + v, "'\n");
    }
  }

  lemma {:induction false} RenderChildrenLines(children: seq<Node>, offset: nat)
    requires AllOneLineTexts(children)
    ensures RenderChildren(children, offset).Success?
    ensures Lines(RenderChildren(children, offset).value) == ChildrenSize(children)
    decreases children, 0
  {
    RenderChildrenSucceeds(children, offset);
    if children != [] {
      var init := children[..|children| - 1];
      var last := children[|children| - 1];
      RenderChildrenLines(init, offset);
      RenderLines(last, offset);
      LinesAppend(RenderChildren(init, offset).value, Render(last, offset).value);
    }
  }

  /** `Ast.toString` has one line per node. */
  lemma ToStringLines(ast: Tree)
    requires OneLineTexts(ast.root)
    ensures Lines(ToString(ast)) == Size(ast.root)
  {
    RenderLines(ast.root, 0);
  }
}
