/** The states of the backtracking top-down parser. A regular state holds a parse tree
    handle whose marker is the branch being filled, an input stream handle and the
    look-ahead character already read from it; a transition advances over the next
    symbol of the marker's rule, and branches once per candidate rule. */
module ParsingState {
  import opened Wrappers
  import opened Grammar
  import opened SimplifiedGrammar
  import opened Forkable
  import opened ForkableTree
  import opened ForkableStream
  import A = Ast
  import M = RegularMachine

  /** What the parse tree's leaves and branches carry. */
  datatype LeafData = LeafData(symbol: Symbol, value: string)
  datatype BranchData = BranchData(nonTerminal: NonTerminal, rule: SimplifiedRule)

  type ParsingTree = ForkableTree<BranchData, LeafData>
  type ParseNode = TreeNode<BranchData, LeafData>
  type CharacterStream = ForkableStream<char>

  /** The ways converting a parse tree can fail, one per Kotlin exception on that path. */
  datatype ConversionError =
    | TreeForked      // AlreadyForkedException from a blocked handle
    | NotABranch      // the cast of the root to IBranch
    | NoFirstChild    // `first()` on a root without children
    | EmptyText       // `get(0)` on the empty text of a special leaf
    | InvalidTree     // a node that is neither a leaf nor a branch view

  // ---------------------------------------------------------------------------
  // From the parse tree to the AST

  /** The node belongs to the handle's family: a leaf of the family, or a branch of the
      family seen through this handle. */
  ghost predicate InFamily(t: ParsingTree, node: ParseNode)
    reads t.store
  {
    match node
    case LeafNode(leaf) => leaf in t.store.leaves
    case BranchNode(b) => b.caller == t && b.realBranch in t.store.branches
    case RealNode(_) => true
  }

  /** Younger branches rank lower; leaves rank lowest. */
  ghost function Rank(t: ParsingTree, node: ParseNode): nat
    reads t.store, if node.BranchNode? then {node.branch.realBranch} else {}
  {
    if node.BranchNode? && node.branch.realBranch.stamp < t.store.nextStamp
    then t.store.nextStamp - node.branch.realBranch.stamp
    else 0
  }

  /** The children a branch view shows belong to the family and rank below it. */
  lemma ChildrenInFamily(t: ParsingTree, rb: RealBranch<BranchData, LeafData>)
    requires t.store.Valid() && rb in t.store.branches
    ensures forall k :: 0 <= k < |rb.GetChildren(t)| ==>
              InFamily(t, rb.GetChildren(t)[k]) && Rank(t, rb.GetChildren(t)[k]) < Rank(t, BranchNode(Branch(rb, t)))
  {
    var visible := Visible(rb.children, t.Lineage());
    forall k | 0 <= k < |rb.GetChildren(t)|
      ensures InFamily(t, rb.GetChildren(t)[k]) && Rank(t, rb.GetChildren(t)[k]) < Rank(t, BranchNode(Branch(rb, t)))
    {
      VisibleFrom(rb.children, t.Lineage(), k);
      var o, i :| o in rb.children && 0 <= i < |rb.children[o]| && rb.children[o][i] == visible[k];
      assert t.store.ChildOf(rb, rb.children[o][i]);
    }
  }

  /** `toAstNode`: a childless branch becomes EmptyLeaf, any other branch a Branch of its
      converted children; a leaf becomes the AST leaf of its symbol. */
  function ToAstNode(t: ParsingTree, node: ParseNode): Result<A.Node, ConversionError>
    requires t.store.Valid() && InFamily(t, node)
    reads t, t.store, t.store.branches, t.store.leaves
    decreases Rank(t, node), 1, 0
  {
    match node
    case BranchNode(b) =>
      if t.blocked then Failure(TreeForked)
      else
        var children := b.realBranch.GetChildren(t);
        if |children| == 0 then Success(A.EmptyLeaf)
        else
          ChildrenInFamily(t, b.realBranch);
          var converted := ToAstNodes(t, children, Rank(t, node));
          if converted.Failure? then Failure(converted.error)
          else Success(A.Branch(b.realBranch.data.nonTerminal, b.realBranch.data.rule, converted.value))
    case LeafNode(leaf) =>
      LeafToAst(leaf.data)
    case RealNode(_) => Failure(InvalidTree)
  }

  /** The leaf case of `toAstNode`, by the leaf's symbol. */
  function LeafToAst(data: LeafData): Result<A.Node, ConversionError>
  {
    match data.symbol
    case Terminal(v) => Success(A.TerminalLeaf(v))
    case Special(name, filter) =>
      if |data.value| == 0 then Failure(EmptyText) else Success(A.SpecialLeaf(name, filter, data.value[0]))
    case EndOfFile => Success(A.EndOfFileLeaf)
    case NT(n) => if 0 < |data.value| then Success(A.CompoundLeaf(n, data.value)) else Success(A.EmptyLeaf)
  }

  /** `map(::toAstNode)`: the first failure in list order, or every node converted. */
  function ToAstNodes(t: ParsingTree, nodes: seq<ParseNode>, ghost bound: nat): (r: Result<seq<A.Node>, ConversionError>)
    requires t.store.Valid()
    requires forall k :: 0 <= k < |nodes| ==> InFamily(t, nodes[k]) && Rank(t, nodes[k]) < bound
    reads t, t.store, t.store.branches, t.store.leaves
    ensures r.Success? ==> |r.value| == |nodes|
    decreases bound, 0, |nodes|
  {
    if nodes == [] then Success([])
    else
      var init := ToAstNodes(t, nodes[..|nodes| - 1], bound);
      if init.Failure? then init
      else
        var last := ToAstNode(t, nodes[|nodes| - 1]);
        if last.Failure? then Failure(last.error) else Success(init.value + [last.value])
  }

  /** `toAst`: the conversion of the root's first child as this handle sees it. */
  function ToAst(t: ParsingTree): Result<A.Tree, ConversionError>
    requires t.Valid()
    reads t, t.store, t.store.branches, t.store.leaves
  {
    if t.blocked then Failure(TreeForked)
    else if !t.root.RealNode? then Failure(NotABranch)
    else
      var children := t.root.bare.GetChildren(t);
      if children == [] then Failure(NoFirstChild)
      else
        ChildrenInFamily(t, t.root.bare);
        var node := ToAstNode(t, children[0]);
        if node.Failure? then Failure(node.error) else Success(A.Ast(node.value))
  }

  /** Branches with children; leaves. */
  predicate NotChildless(n: A.Node)
  {
    n.Branch? ==> n.children != []
  }

  /** A converted tree has no childless branch: those became EmptyLeaf. */
  lemma {:induction false} ConvertedHasNoChildlessBranch(t: ParsingTree, node: ParseNode)
    requires t.store.Valid() && InFamily(t, node)
    ensures ToAstNode(t, node).Success? ==> EverywhereChildful(ToAstNode(t, node).value)
    decreases Rank(t, node), 1, 0
  {
    if node.BranchNode? && !t.blocked {
      var children := node.branch.realBranch.GetChildren(t);
      if |children| != 0 {
        ChildrenInFamily(t, node.branch.realBranch);
        ConvertedAllHaveNoChildlessBranch(t, children, Rank(t, node));
      }
    }
  }

  lemma {:induction false} ConvertedAllHaveNoChildlessBranch(t: ParsingTree, nodes: seq<ParseNode>, bound: nat)
    requires t.store.Valid()
    requires forall k :: 0 <= k < |nodes| ==> InFamily(t, nodes[k]) && Rank(t, nodes[k]) < bound
    ensures ToAstNodes(t, nodes, bound).Success? ==> EverywhereChildfulAll(ToAstNodes(t, nodes, bound).value)
    decreases bound, 0, |nodes|
  {
    if nodes != [] {
      ConvertedAllHaveNoChildlessBranch(t, nodes[..|nodes| - 1], bound);
      ConvertedHasNoChildlessBranch(t, nodes[|nodes| - 1]);
      var r := ToAstNodes(t, nodes, bound);
      if r.Success? {
        var init := ToAstNodes(t, nodes[..|nodes| - 1], bound).value;
        assert r.value[..|r.value| - 1] == init;
      }
    }
  }

  /** A converted tree comes from a root with children, and has no childless branch. */
  lemma ToAstShape(t: ParsingTree)
    requires t.Valid()
    ensures ToAst(t).Success? ==>
              && !t.blocked && t.root.RealNode? && t.root.bare.GetChildren(t) != []
              && EverywhereChildful(ToAst(t).value.root)
  {
    if ToAst(t).Success? {
      ChildrenInFamily(t, t.root.bare);
      ConvertedHasNoChildlessBranch(t, t.root.bare.GetChildren(t)[0]);
    }
  }

  /** No branch of the AST is childless. */
  predicate EverywhereChildful(n: A.Node)
    decreases n, 1
  {
    NotChildless(n) && (n.Branch? ==> EverywhereChildfulAll(n.children))
  }

  predicate EverywhereChildfulAll(nodes: seq<A.Node>)
    decreases nodes, 0
  {
    nodes == [] || (EverywhereChildfulAll(nodes[..|nodes| - 1]) && EverywhereChildful(nodes[|nodes| - 1]))
  }

  // ---------------------------------------------------------------------------
  // States and transitions

  /** The IllegalStateExceptions of `transition`. */
  datatype ParseError =
    | MarkerIsLeaf      // "We do not mark leaves"
    | TooManyChildren   // "Children count cannot be more than symbols's count"

  datatype ParsingState =
    | Regular(state: RegularState)
    | SuccessState(regularState: RegularState)
    | FailedState
  {
    /** `getType`. */
    function GetType(): M.StateType
    {
      match this
      case Regular(_) => M.Unfinished
      case SuccessState(_) => M.Success
      case FailedState => M.Fail
    }
  }

  /** The public constructor of RegularState: a new tree whose root is the branch of the
      unnamed nonterminal with the one-symbol rule of the main symbol, marked, and the
      first character of the input as the look-ahead. A forked stream fails. */
  method Start(grammar: SimplifiedGrammar, inputStream: CharacterStream, mainSymbol: Symbol)
    returns (r: Result<RegularState, ForkError>)
    requires inputStream.Valid()
    modifies inputStream, inputStream.node, inputStream.shared
    ensures r.Failure? <==> old(inputStream.blocked)
    ensures r.Failure? ==> unchanged(inputStream, inputStream.shared)
    ensures r.Success? ==>
              && fresh(r.value) && r.value.Valid() && fresh(r.value.parsingTree) && fresh(r.value.parsingTree.store)
              && r.value.grammar == grammar && r.value.inputStream == inputStream
              && r.value.parsingTree.inherited == [] && r.value.parsingTree.root.RealNode?
              && r.value.parsingTree.root.bare.data == BranchData(NonTerminal(""), SimplifiedRule([mainSymbol]))
              && r.value.parsingTree.root.bare.children == map[]
              && r.value.parsingTree.marker == BranchNode(Branch(r.value.parsingTree.root.bare, r.value.parsingTree))
              && old(Base(inputStream)) >= 0 && r.value.knownChar == inputStream.shared.outputs(old(Base(inputStream)))
              && inputStream.Position() == old(inputStream.Position()) + 1
  {
    var next := inputStream.Next();
    if next.Failure? {
      return Failure(next.error);
    }
    var tree: ParsingTree := BranchTree(BranchData(NonTerminal(""), SimplifiedRule([mainSymbol])));
    var state := new RegularState(grammar, tree, inputStream, next.value);
    r := Success(state);
  }

  /** `transition` of SuccessState and FailedState: the state is its only successor,
      so a finished state stays finished. */
  function FinalTransition(p: ParsingState): (r: seq<ParsingState>)
    requires !p.Regular?
    ensures |r| == 1 && r[0] == p && r[0].GetType() == p.GetType() != M.Unfinished
  {
    [p]
  }

  /** `knownChar.toString()`: a character, or "null" at the end of the input. */
  function CharText(c: Option<char>): (r: string)
    ensures c.Some? ==> r == [c.value]
    ensures c.None? ==> r == "null"
  {
    if c.Some? then [c.value] else "null"
  }

  /** How many characters the shared producer had produced before the handle's next one. */
  ghost function Base(s: CharacterStream): int
    reads s, s.shared
  {
    s.shared.start + s.Position()
  }

  /** The look-ahead a terminal is compared with at position k: the known character,
      then the characters the producer yields from `base` on. */
  function Lookahead(known: Option<char>, outputs: nat -> Option<char>, base: nat, k: nat): Option<char>
  {
    if k == 0 then known else outputs(base + k - 1)
  }

  /** How many leading characters of the literal match the look-ahead. */
  function MatchLength(value: string, known: Option<char>, outputs: nat -> Option<char>, base: nat, k: nat): (r: nat)
    requires k <= |value|
    ensures k <= r <= |value|
    decreases |value| - k
  {
    if k == |value| || Some(value[k]) != Lookahead(known, outputs, base, k) then k
    else MatchLength(value, known, outputs, base, k + 1)
  }

  /** The leading matches end at the first mismatch, or at the end of the literal. */
  lemma {:induction false} MatchLengthIs(value: string, known: Option<char>, outputs: nat -> Option<char>, base: nat,
                                         k: nat, i: nat)
    requires k <= i <= |value|
    requires forall j :: k <= j < i ==> Some(value[j]) == Lookahead(known, outputs, base, j)
    requires i == |value| || Some(value[i]) != Lookahead(known, outputs, base, i)
    ensures MatchLength(value, known, outputs, base, k) == i
    decreases i - k
  {
    if k < i {
      MatchLengthIs(value, known, outputs, base, k + 1, i);
    }
  }

  /** The marker's branch when the marker is a branch view. */
  function MarkerFrame(t: ParsingTree): set<object>
    reads t
  {
    if t.marker.BranchNode? then {t.marker.branch.realBranch} else {}
  }

  /** One leaf with the given data was appended to the caller's list of rb, and no other
      list changed. */
  twostate predicate AppendedLeaf(rb: RealBranch<BranchData, LeafData>, t: ParsingTree, new leaf: Leaf?<BranchData, LeafData>,
                                  data: LeafData)
    reads rb, leaf
  {
    leaf != null && fresh(leaf) && leaf.parent == rb && leaf.data == data
    && rb.children == old(rb.children)[t.id := Own(old(rb.children), t.id) + [LeafNode(leaf)]]
  }

  /** The outcome of `endOfFileTransition`: at the end of the input an EndOfFile leaf with
      empty text and the same state, without reading; otherwise a failed state. */
  twostate predicate EndOfFileOutcome(st: RegularState, rb: RealBranch<BranchData, LeafData>,
                                      new r: Result<seq<ParsingState>, ParseError>, new leaf: Leaf?<BranchData, LeafData>)
    reads rb, leaf, st.inputStream
  {
    if st.knownChar.None? then
      r == Success([Regular(st)]) && AppendedLeaf(rb, st.parsingTree, leaf, LeafData(EndOfFile, ""))
      && unchanged(st.inputStream)
    else r == Success([FailedState]) && unchanged(rb, st.inputStream)
  }

  /** The outcome of `specialSymbolTransition`: when the filter admits the look-ahead, a
      leaf holding its text and one state that has read the next character; otherwise a
      failed state. */
  twostate predicate SpecialOutcome(st: RegularState, symbol: Symbol, rb: RealBranch<BranchData, LeafData>,
                                    new r: Result<seq<ParsingState>, ParseError>, new leaf: Leaf?<BranchData, LeafData>)
    requires symbol.Special? && old(Base(st.inputStream)) >= 0
    reads rb, leaf, st.inputStream, st.inputStream.shared
  {
    if symbol.filter.accepts(st.knownChar) then
      && AppendedLeaf(rb, st.parsingTree, leaf, LeafData(symbol, CharText(st.knownChar)))
      && r.Success? && |r.value| == 1 && r.value[0].Regular?
      && fresh(r.value[0].state)
      && r.value[0].state.grammar == st.grammar && r.value[0].state.parsingTree == st.parsingTree
      && r.value[0].state.inputStream == st.inputStream
      && r.value[0].state.knownChar == st.inputStream.shared.outputs(old(Base(st.inputStream)))
      && st.inputStream.Position() == old(st.inputStream.Position()) + 1
    else r == Success([FailedState]) && unchanged(rb, st.inputStream)
  }

  /** The outcome of `terminalTransition`: the literal is compared character by character
      with the look-ahead and what follows, each match reading one more character; on a
      full match a leaf with empty text and one state holding the character after the
      literal, on a mismatch a failed state. */
  twostate predicate TerminalOutcome(st: RegularState, symbol: Symbol, rb: RealBranch<BranchData, LeafData>,
                                     new r: Result<seq<ParsingState>, ParseError>, new leaf: Leaf?<BranchData, LeafData>)
    requires symbol.Terminal? && old(Base(st.inputStream)) >= 0
    reads rb, leaf, st.inputStream, st.inputStream.shared
  {
    var outputs := st.inputStream.shared.outputs;
    var matched := MatchLength(symbol.value, st.knownChar, outputs, old(Base(st.inputStream)), 0);
    && st.inputStream.Position() == old(st.inputStream.Position()) + matched
    && if matched == |symbol.value| then
         && AppendedLeaf(rb, st.parsingTree, leaf, LeafData(symbol, ""))
         && r.Success? && |r.value| == 1 && r.value[0].Regular?
         && fresh(r.value[0].state)
         && r.value[0].state.grammar == st.grammar && r.value[0].state.parsingTree == st.parsingTree
         && r.value[0].state.inputStream == st.inputStream
         && r.value[0].state.knownChar == Lookahead(st.knownChar, outputs, old(Base(st.inputStream)), |symbol.value|)
       else r == Success([FailedState]) && unchanged(rb)
  }

  /** One successor of `nonTerminalTransition`: a new state over a fresh stream handle at
      the same position and a tree handle (the same one, or a fresh fork), whose marker is
      a new branch for the rule, appended to the old marker's branch; the handle sees what
      the old handle saw there, then the new branch. */
  twostate predicate Spawned(st: RegularState, rb: RealBranch<BranchData, LeafData>, new p: ParsingState,
                             new b: RealBranch<BranchData, LeafData>, new data: BranchData)
    reads rb, b, if p.Regular? then {p.state.parsingTree, p.state.inputStream} else {}
  {
    && Successor(st, rb, p, b, data, old(rb.children), old(st.inputStream.node), old(st.inputStream.elementIndex))
    && fresh(p.state) && fresh(p.state.inputStream) && fresh(b)
    && (p.state.parsingTree == st.parsingTree || fresh(p.state.parsingTree))
  }

  /** The outcome of `nonTerminalTransition`: without a possible rule a failed state and
      nothing changed; otherwise one successor per rule, in rule order, the stream handle
      always forked and the tree handle forked exactly when there are several rules. */
  twostate predicate NonTerminalOutcome(st: RegularState, symbol: NonTerminal, rb: RealBranch<BranchData, LeafData>,
                                        new r: Result<seq<ParsingState>, ParseError>,
                                        new spawned: seq<RealBranch<BranchData, LeafData>>)
    reads st.parsingTree, st.parsingTree.store, st.inputStream, rb, set k | 0 <= k < |spawned| :: spawned[k]
    reads if r.Success? then SuccessorFrame(r.value) else {}
  {
    var rules := st.grammar.GetPossibleRules(symbol, st.knownChar);
    && (|rules| == 0 ==> r == Success([FailedState]) && unchanged(st.parsingTree, st.parsingTree.store, rb, st.inputStream))
    && (|rules| > 0 ==>
          && r.Success? && |r.value| == |rules| == |spawned| && st.inputStream.blocked
          && (st.parsingTree.blocked <==> |rules| > 1)
          && (forall k :: 0 <= k < |rules| ==> Spawned(st, rb, r.value[k], spawned[k], BranchData(symbol, rules[k])))
          && (|rules| > 1 <==> forall k :: 0 <= k < |rules| ==>
                                 r.value[k].Regular? && r.value[k].state.parsingTree != st.parsingTree))
  }

  /** The handles of the regular states among ps. */
  function SuccessorFrame(ps: seq<ParsingState>): set<object>
  {
    var trees: set<object> := set k | 0 <= k < |ps| && ps[k].Regular? :: ps[k].state.parsingTree;
    var streams: set<object> := set k | 0 <= k < |ps| && ps[k].Regular? :: ps[k].state.inputStream;
    trees + streams
  }

  /** The outcome of `transition` once every symbol of the marker's rule has its child:
      at the root a success state; elsewhere the marker moves up to the parent, seen
      through the same handle, and the state itself is the successor. */
  twostate predicate Completed(st: RegularState, rb: RealBranch<BranchData, LeafData>,
                               new r: Result<seq<ParsingState>, ParseError>)
    reads st.parsingTree, st.parsingTree.store, st.inputStream, rb
  {
    && unchanged(st.parsingTree.store, rb, st.inputStream)
    && if rb.parent == null then r == Success([SuccessState(st)]) && unchanged(st.parsingTree)
       else
         && r == Success([Regular(st)]) && st.parsingTree.blocked == old(st.parsingTree.blocked)
         && st.parsingTree.marker == BranchNode(Branch(rb.parent, st.parsingTree))
  }

  /** Spawned without its freshness, the old marker's lists and the old position given. */
  ghost predicate Successor(st: RegularState, rb: RealBranch<BranchData, LeafData>, p: ParsingState,
                            b: RealBranch<BranchData, LeafData>, data: BranchData, children: map<nat, seq<ParseNode>>,
                            node: StreamNode<char>, elementIndex: int)
    reads rb, b, if p.Regular? then {p.state.parsingTree, p.state.inputStream} else {}
  {
    && p.Regular?
    && p.state.grammar == st.grammar && p.state.knownChar == st.knownChar
    && p.state.inputStream.shared == st.inputStream.shared
    && p.state.inputStream.node == node && p.state.inputStream.elementIndex == elementIndex
    && (p.state.parsingTree == st.parsingTree
        || (p.state.parsingTree.store == st.parsingTree.store && p.state.parsingTree.inherited == st.parsingTree.Lineage()))
    && b.parent == rb && b.data == data && b.children == map[]
    && p.state.parsingTree.marker == BranchNode(Branch(b, p.state.parsingTree))
    && Visible(rb.children, p.state.parsingTree.Lineage()) == Visible(children, st.parsingTree.Lineage()) + [RealNode(b)]
  }

  /** The state holds exactly these parts. */
  ghost predicate Over(s: RegularState, grammar: SimplifiedGrammar, t: ParsingTree, stream: CharacterStream, known: Option<char>)
  {
    s.grammar == grammar && s.parsingTree == t && s.inputStream == stream && s.knownChar == known
  }

  /** A handle forked from parent with the given id: same family and root, the parent's
      lineage inherited. Only constant fields are involved, so no update disturbs it. */
  ghost predicate Sibling(parent: ParsingTree, t: ParsingTree, id: nat)
  {
    t.store == parent.store && t.root == parent.root && t.id == id && t.inherited == parent.Lineage()
  }

  /** The forked tree handles after their rounds: each one is a sibling of parent with the
      next id, holding its new branch of the family under rb, and rb's lists grew by one
      branch per handle. */
  ghost predicate GraftedForks(parent: ParsingTree, trees: seq<ParsingTree>, bs: seq<RealBranch<BranchData, LeafData>>,
                               rb: RealBranch<BranchData, LeafData>, datas: seq<BranchData>, first: nat,
                               before: map<nat, seq<ParseNode>>)
    reads parent.store, parent.store.branches, trees, rb
  {
    && |trees| == |bs| == |datas|
    && parent.store.Valid() && first + |trees| <= parent.store.nextOwner
    && parent.root.RealNode? && parent.root.bare in parent.store.branches && parent.root.bare.parent == null
    && rb.children == GrowAll(before, first, bs)
    && forall k :: 0 <= k < |trees| ==>
         bs[k] in parent.store.branches && Sibling(parent, trees[k], first + k) && Grafted(trees[k], bs[k], rb, datas[k])
  }

  /** The forked stream handles: usable, all where the original stood. */
  ghost predicate StreamsAt(streams: seq<CharacterStream>, shared: Producer<char>, node: StreamNode<char>, elementIndex: int)
    reads streams, shared, shared.nodes
  {
    forall k :: 0 <= k < |streams| ==>
      streams[k].shared == shared && streams[k].Valid() && !streams[k].blocked
      && streams[k].node == node && streams[k].elementIndex == elementIndex
  }

  /** A forked handle before its round: usable, its marker on the old marker's branch. */
  ghost predicate Pending(t: ParsingTree, rb: RealBranch<BranchData, LeafData>)
    reads t
  {
    !t.blocked && t.marker == BranchNode(Branch(rb, t))
  }

  /** A handle after its round: its marker on the new child branch b of rb. */
  ghost predicate Grafted(t: ParsingTree, b: RealBranch<BranchData, LeafData>, rb: RealBranch<BranchData, LeafData>,
                          data: BranchData)
    reads t, b
  {
    b.parent == rb && b.data == data && b.children == map[] && !t.blocked && t.marker == BranchNode(Branch(b, t))
  }

  /** The lists of rb after the rounds of the forked handles first, first + 1, ...: each
      one holds just its new branch. */
  function GrowAll(c: map<nat, seq<ParseNode>>, first: nat, bs: seq<RealBranch<BranchData, LeafData>>): map<nat, seq<ParseNode>>
  {
    if bs == [] then c
    else GrowAll(c, first, bs[..|bs| - 1])[first + |bs| - 1 := [RealNode(bs[|bs| - 1])]]
  }

  lemma {:induction false} GrowAllOwn(c: map<nat, seq<ParseNode>>, first: nat, bs: seq<RealBranch<BranchData, LeafData>>, o: nat)
    requires forall o' :: o' in c ==> o' < first
    ensures Own(GrowAll(c, first, bs), o) == if first <= o < first + |bs| then [RealNode(bs[o - first])] else Own(c, o)
  {
    if bs != [] {
      GrowAllOwn(c, first, bs[..|bs| - 1], o);
    }
  }

  /** Two maps that agree on the owners of a lineage show the same children. */
  lemma {:induction false} VisibleAgrees(c: map<nat, seq<ParseNode>>, d: map<nat, seq<ParseNode>>, lineage: seq<nat>)
    requires forall k :: 0 <= k < |lineage| ==> Own(c, lineage[k]) == Own(d, lineage[k])
    ensures Visible(c, lineage) == Visible(d, lineage)
  {
    if lineage != [] {
      VisibleAgrees(c, d, lineage[..|lineage| - 1]);
    }
  }

  /** The forked handle first + j sees what its parent saw, then its new branch. */
  lemma {:induction false} GrowAllVisible(c: map<nat, seq<ParseNode>>, lineage: seq<nat>, first: nat,
                       bs: seq<RealBranch<BranchData, LeafData>>, j: nat)
    requires forall o :: o in c ==> o < first
    requires forall k :: 0 <= k < |lineage| ==> lineage[k] < first
    requires j < |bs|
    ensures Visible(GrowAll(c, first, bs), lineage + [first + j]) == Visible(c, lineage) + [RealNode(bs[j])]
  {
    var g := GrowAll(c, first, bs);
    forall k | 0 <= k < |lineage|
      ensures Own(g, lineage[k]) == Own(c, lineage[k])
    {
      GrowAllOwn(c, first, bs, lineage[k]);
    }
    VisibleAgrees(g, c, lineage);
    VisibleOfLineage(g, lineage, first + j);
    GrowAllOwn(c, first, bs, first + j);
  }

  /** A forked handle of a valid parent is valid while the family is. */
  lemma ForkValid(parent: ParsingTree, t: ParsingTree)
    requires parent.store.Valid() && Increasing(parent.Lineage()) && parent.id < t.id < parent.store.nextOwner
    requires parent.root.RealNode? && parent.root.bare in parent.store.branches && parent.root.bare.parent == null
    requires t.store == parent.store && t.root == parent.root && t.inherited == parent.Lineage()
    ensures t.Valid()
  {
    IncreasingSnoc(parent.Lineage(), t.id);
  }

  /** States over the handles forked from parent, each marker on a branch of the family,
      with unblocked streams, are valid. */
  lemma ForkedStatesValid(parent: ParsingTree, states: seq<RegularState>, bs: seq<RealBranch<BranchData, LeafData>>, first: nat)
    requires parent.store.Valid() && Increasing(parent.Lineage())
    requires parent.root.RealNode? && parent.root.bare in parent.store.branches && parent.root.bare.parent == null
    requires parent.id < first && first + |states| <= parent.store.nextOwner && |bs| == |states|
    requires forall k :: 0 <= k < |states| ==>
               Sibling(parent, states[k].parsingTree, first + k) && bs[k] in parent.store.branches
               && !states[k].parsingTree.blocked && states[k].parsingTree.marker == BranchNode(Branch(bs[k], states[k].parsingTree))
    requires forall k :: 0 <= k < |states| ==> states[k].inputStream.Valid() && !states[k].inputStream.blocked
    ensures forall k :: 0 <= k < |states| ==> states[k].Valid()
  {
    forall k | 0 <= k < |states|
      ensures states[k].Valid()
    {
      ForkValid(parent, states[k].parsingTree);
    }
  }

  /** The k-th state over the forked handles is the k-th successor. */
  lemma ForkedSuccessors(st: RegularState, rb: RealBranch<BranchData, LeafData>, ps: seq<ParsingState>,
                         states: seq<RegularState>, trees: seq<ParsingTree>, streams: seq<CharacterStream>,
                         bs: seq<RealBranch<BranchData, LeafData>>, datas: seq<BranchData>, first: nat,
                         before: map<nat, seq<ParseNode>>, node: StreamNode<char>, elementIndex: int)
    requires |ps| == |states| == |trees| == |streams| == |bs| == |datas|
    requires Increasing(st.parsingTree.Lineage()) && st.parsingTree.id < first
    requires forall o :: o in before ==> o < first
    requires GraftedForks(st.parsingTree, trees, bs, rb, datas, first, before)
    requires StreamsAt(streams, st.inputStream.shared, node, elementIndex)
    requires forall k :: 0 <= k < |ps| ==> ps[k] == Regular(states[k])
    requires forall k :: 0 <= k < |ps| ==> Over(states[k], st.grammar, trees[k], streams[k], st.knownChar)
    ensures forall k :: 0 <= k < |ps| ==> Successor(st, rb, ps[k], bs[k], datas[k], before, node, elementIndex)
    ensures forall k :: 0 <= k < |ps| ==> ps[k].state.Valid()
  {
    ForkedStatesValid(st.parsingTree, states, bs, first);
    var lineage := st.parsingTree.Lineage();
    OwnIdIsNew(st.parsingTree);
    assert forall k :: 0 <= k < |lineage| ==> lineage[k] < first by {
      forall k | 0 <= k < |lineage|
        ensures lineage[k] < first
      {
        if k < |lineage| - 1 {
          assert lineage[k] == st.parsingTree.inherited[k];
        }
      }
    }
    forall k | 0 <= k < |ps|
      ensures Successor(st, rb, ps[k], bs[k], datas[k], before, node, elementIndex)
    {
      GrowAllVisible(before, st.parsingTree.Lineage(), first, bs, k);
    }
  }

  /** A stream handle whose objects nobody touched is as valid as it was. */
  twostate lemma StreamStaysValid(s: CharacterStream)
    requires old(s.Valid()) && unchanged(s, s.shared) && unchanged(s.shared.nodes)
    ensures s.Valid()
  {
  }

  /** The handle's own id is not among the ids it inherited. */
  lemma OwnIdIsNew(t: ParsingTree)
    requires Increasing(t.Lineage())
    ensures t.id !in t.inherited && t.Lineage()[..|t.Lineage()| - 1] == t.inherited
    ensures forall k :: 0 <= k < |t.inherited| ==> t.inherited[k] < t.id
  {
    forall k | 0 <= k < |t.inherited|
      ensures t.inherited[k] < t.id
    {
      assert t.Lineage()[k] == t.inherited[k] && t.Lineage()[|t.inherited|] == t.id;
    }
  }

  class RegularState {
    const grammar: SimplifiedGrammar
    const parsingTree: ParsingTree
    const inputStream: CharacterStream
    const knownChar: Option<char>

    /** Both handles are usable; the root is a branch; a branch marker is seen through
        this handle and belongs to the family. */
    ghost predicate Valid()
      reads this, parsingTree, parsingTree.store, parsingTree.store.branches
      reads inputStream, inputStream.shared, inputStream.shared.nodes
    {
      && parsingTree.Valid() && inputStream.Valid() && !parsingTree.blocked && !inputStream.blocked
      && parsingTree.root.RealNode?
      && (parsingTree.marker.BranchNode? ==>
            parsingTree.marker.branch.caller == parsingTree && parsingTree.marker.branch.realBranch in parsingTree.store.branches)
    }

    /** The private constructor. */
    constructor (grammar: SimplifiedGrammar, parsingTree: ParsingTree, inputStream: CharacterStream,
                 knownChar: Option<char>)
      ensures this.grammar == grammar && this.parsingTree == parsingTree
      ensures this.inputStream == inputStream && this.knownChar == knownChar
    {
      this.grammar := grammar;
      this.parsingTree := parsingTree;
      this.inputStream := inputStream;
      this.knownChar := knownChar;
    }

    /** `getAst`: the AST of the tree as this state's handle sees it: the conversion of
        the root's first child, without childless branches; a forked handle fails. */
    function GetAst(): (r: Result<A.Tree, ConversionError>)
      requires parsingTree.Valid()
      reads parsingTree, parsingTree.store, parsingTree.store.branches, parsingTree.store.leaves
      ensures parsingTree.blocked ==> r == Failure(TreeForked)
      ensures r.Success? ==> parsingTree.root.RealNode? && parsingTree.root.bare.GetChildren(parsingTree) != []
      ensures r.Success? ==> EverywhereChildful(r.value.root)
    {
      ToAstShape(parsingTree);
      ToAst(parsingTree)
    }

    /** `marker.addLeafChild(data)` through this state's tree handle. */
    method AppendLeaf(marker: Branch<BranchData, LeafData>, data: LeafData) returns (ghost leaf: Leaf?<BranchData, LeafData>)
      requires Valid() && parsingTree.marker == BranchNode(marker)
      modifies marker.realBranch, parsingTree.store
      ensures Valid() && parsingTree.marker == old(parsingTree.marker)
      ensures AppendedLeaf(marker.realBranch, parsingTree, leaf, data)
    {
      var added;
      added, leaf := marker.AddLeafChild(data);
    }

    /** The successor state that shares both handles and holds the next character. */
    method ReadNext() returns (state: RegularState)
      requires Valid()
      modifies inputStream, inputStream.node, inputStream.shared
      ensures Valid() && fresh(state) && state.Valid()
      ensures state.grammar == grammar && state.parsingTree == parsingTree && state.inputStream == inputStream
      ensures inputStream.shared.start == old(inputStream.shared.start) && old(Base(inputStream)) >= 0
      ensures state.knownChar == inputStream.shared.outputs(old(Base(inputStream)))
      ensures inputStream.Position() == old(inputStream.Position()) + 1
    {
      var next := inputStream.Next();
      state := new RegularState(grammar, parsingTree, inputStream, next.value);
    }

    method EndOfFileTransition(marker: Branch<BranchData, LeafData>)
      returns (r: Result<seq<ParsingState>, ParseError>, ghost leaf: Leaf?<BranchData, LeafData>)
      requires Valid() && parsingTree.marker == BranchNode(marker)
      modifies marker.realBranch, parsingTree.store
      ensures Valid() && parsingTree.marker == old(parsingTree.marker)
      ensures EndOfFileOutcome(this, marker.realBranch, r, leaf)
    {
      leaf := null;
      if knownChar.None? {
        leaf := AppendLeaf(marker, LeafData(EndOfFile, ""));
        return Success([Regular(this)]), leaf;
      }
      r := Success([FailedState]);
    }

    method SpecialSymbolTransition(symbol: Symbol, marker: Branch<BranchData, LeafData>)
      returns (r: Result<seq<ParsingState>, ParseError>, ghost leaf: Leaf?<BranchData, LeafData>)
      requires Valid() && parsingTree.marker == BranchNode(marker) && symbol.Special?
      modifies marker.realBranch, parsingTree.store, inputStream, inputStream.node, inputStream.shared
      ensures Valid() && parsingTree.marker == old(parsingTree.marker)
      ensures SpecialOutcome(this, symbol, marker.realBranch, r, leaf)
      ensures r.Success? && r.value[0].Regular? ==> r.value[0].state.Valid()
    {
      leaf := null;
      if !symbol.filter.accepts(knownChar) {
        return Success([FailedState]), leaf;
      }
      leaf := AppendLeaf(marker, LeafData(symbol, CharText(knownChar)));
      var state := ReadNext();
      r := Success([Regular(state)]);
    }

    method TerminalTransition(symbol: Symbol, marker: Branch<BranchData, LeafData>)
      returns (r: Result<seq<ParsingState>, ParseError>, ghost leaf: Leaf?<BranchData, LeafData>)
      requires Valid() && parsingTree.marker == BranchNode(marker) && symbol.Terminal?
      modifies marker.realBranch, parsingTree.store, inputStream, inputStream.shared, inputStream.shared.nodes
      ensures Valid() && parsingTree.marker == old(parsingTree.marker)
      ensures TerminalOutcome(this, symbol, marker.realBranch, r, leaf)
      ensures r.Success? && r.value[0].Regular? ==> r.value[0].state.Valid()
    {
      leaf := null;
      var matched, c := MatchLiteral(inputStream, symbol.value, knownChar);
      if matched < |symbol.value| {
        return Success([FailedState]), leaf;
      }
      leaf := AppendLeaf(marker, LeafData(symbol, ""));
      var state := new RegularState(grammar, parsingTree, inputStream, c);
      r := Success([Regular(state)]);
    }

    /** `nonTerminalTransition`: one successor per possible rule of the nonterminal for the
        look-ahead, in the order of the rules; the stream is always forked, the tree only
        for more than one rule. */
    method NonTerminalTransition(symbol: NonTerminal, marker: Branch<BranchData, LeafData>)
      returns (r: Result<seq<ParsingState>, ParseError>, ghost spawned: seq<RealBranch<BranchData, LeafData>>)
      requires Valid() && parsingTree.marker == BranchNode(marker)
      modifies parsingTree, parsingTree.store, marker.realBranch, inputStream
      ensures NonTerminalOutcome(this, symbol, marker.realBranch, r, spawned)
      ensures r.Success? ==> forall k :: 0 <= k < |r.value| ==> r.value[k].Regular? ==> r.value[k].state.Valid()
    {
      var rules := grammar.GetPossibleRules(symbol, knownChar);
      var datas := seq(|rules|, k requires 0 <= k < |rules| => BranchData(symbol, rules[k]));
      if |datas| == 0 {
        return Success([FailedState]), [];
      } else if |datas| == 1 {
        var p, b := SpawnSingle(marker, datas[0]);
        r, spawned := Success([p]), [b];
      } else {
        var ps;
        ps, spawned := SpawnMany(marker, datas);
        r := Success(ps);
      }
    }

    /** `transition`: the marker must be a branch; the number of children its rule
        already has selects the next symbol, whose transition gives the successors, or,
        when the rule is complete, the marker climbs to the parent. More children than
        symbols is an error. */
    method Transition() returns (r: Result<seq<ParsingState>, ParseError>, ghost leaf: Leaf?<BranchData, LeafData>,
                                 ghost spawned: seq<RealBranch<BranchData, LeafData>>)
      requires Valid()
      modifies parsingTree, parsingTree.store, MarkerFrame(parsingTree)
      modifies inputStream, inputStream.node, inputStream.shared, inputStream.shared.nodes
      ensures !old(parsingTree.marker).BranchNode? ==>
                r == Failure(MarkerIsLeaf) && unchanged(parsingTree, parsingTree.store, inputStream)
      ensures old(parsingTree.marker).BranchNode? ==>
                var rb := old(parsingTree.marker).branch.realBranch;
                var symbols := old(rb.data).rule.symbols;
                var n := old(|Visible(rb.children, parsingTree.Lineage())|);
                && (n > |symbols| ==> r == Failure(TooManyChildren) && unchanged(parsingTree, parsingTree.store, rb, inputStream))
                && (n == |symbols| ==> Completed(this, rb, r))
                && (n < |symbols| ==>
                      match symbols[n]
                      case EndOfFile => EndOfFileOutcome(this, rb, r, leaf)
                      case Special(_, _) => SpecialOutcome(this, symbols[n], rb, r, leaf)
                      case Terminal(_) => TerminalOutcome(this, symbols[n], rb, r, leaf)
                      case NT(nt) => NonTerminalOutcome(this, nt, rb, r, spawned))
      ensures r.Success? ==> forall k :: 0 <= k < |r.value| ==>
                (r.value[k].Regular? ==> r.value[k].state.Valid())
                && (r.value[k].SuccessState? ==> r.value[k].regularState.Valid())
    {
      leaf, spawned := null, [];
      var m := parsingTree.GetMarker();
      if !m.value.BranchNode? {
        return Failure(MarkerIsLeaf), leaf, spawned;
      }
      var marker := m.value.branch;
      var n := |marker.GetChildren().value|;
      var symbols := marker.GetData().value.rule.symbols;
      if n == |symbols| {
        r := Complete(marker);
      } else if n > |symbols| {
        r := Failure(TooManyChildren);
      } else {
        match symbols[n]
        case EndOfFile =>
          r, leaf := EndOfFileTransition(marker);
        case Special(_, _) =>
          r, leaf := SpecialSymbolTransition(symbols[n], marker);
        case Terminal(_) =>
          r, leaf := TerminalTransition(symbols[n], marker);
        case NT(nt) =>
          r, spawned := NonTerminalTransition(nt, marker);
      }
    }

    /** The complete-rule case of `transition`. */
    method Complete(marker: Branch<BranchData, LeafData>) returns (r: Result<seq<ParsingState>, ParseError>)
      requires Valid() && parsingTree.marker == BranchNode(marker)
      modifies parsingTree
      ensures Completed(this, marker.realBranch, r) && Valid()
    {
      var parent := marker.GetParent();
      if parent.value.None? {
        return Success([SuccessState(this)]);
      }
      var moved := parsingTree.SetMarker(parent.value.value);
      r := Success([Regular(this)]);
    }

    /** `nonTerminalTransition` for a single rule: the stream is forked, the tree is not. */
    method SpawnSingle(marker: Branch<BranchData, LeafData>, data: BranchData)
      returns (p: ParsingState, ghost b: RealBranch<BranchData, LeafData>)
      requires Valid() && parsingTree.marker == BranchNode(marker)
      modifies parsingTree, parsingTree.store, marker.realBranch, inputStream
      ensures Spawned(this, marker.realBranch, p, b, data) && p.Regular? && p.state.Valid()
      ensures inputStream.blocked && !parsingTree.blocked && p.state.parsingTree == parsingTree
    {
      ghost var before := marker.realBranch.children;
      var streams := inputStream.Fork(1);
      var s := new RegularState(grammar, parsingTree, streams.value[0], knownChar);
      b := Graft(parsingTree, data);
      OwnIdIsNew(parsingTree);
      VisibleAppendOwn(before, parsingTree.Lineage(), RealNode(b));
      p := Regular(s);
    }

    /** `nonTerminalTransition` for several rules: the tree and the stream are forked once
        per rule, and the k-th handles receive the branch of the k-th rule. */
    method SpawnMany(marker: Branch<BranchData, LeafData>, datas: seq<BranchData>)
      returns (ps: seq<ParsingState>, ghost spawned: seq<RealBranch<BranchData, LeafData>>)
      requires Valid() && parsingTree.marker == BranchNode(marker) && |datas| > 1
      modifies parsingTree, parsingTree.store, marker.realBranch, inputStream
      ensures |ps| == |spawned| == |datas| && inputStream.blocked && parsingTree.blocked
      ensures forall k :: 0 <= k < |datas| ==> Spawned(this, marker.realBranch, ps[k], spawned[k], datas[k])
      ensures forall k :: 0 <= k < |datas| ==> ps[k].Regular? && ps[k].state.Valid() && ps[k].state.parsingTree != parsingTree
    {
      var count := |datas|;
      ghost var before := marker.realBranch.children;
      ghost var first := parsingTree.store.nextOwner;
      assert forall o :: o in before ==> o < first;
      var trees := ForkTrees(marker, count);
      assert parsingTree !in trees;
      ps, spawned := GraftAndFinish(trees, datas, marker.realBranch, first);
    }

    /** SpawnMany after the tree fork: the grafting rounds, then the stream fork and the
        states. */
    method GraftAndFinish(trees: seq<ParsingTree>, datas: seq<BranchData>, ghost rb: RealBranch<BranchData, LeafData>,
                          ghost first: nat)
      returns (ps: seq<ParsingState>, ghost bs: seq<RealBranch<BranchData, LeafData>>)
      requires |trees| == |datas|
      requires inputStream.Valid() && !inputStream.blocked
      requires Increasing(parsingTree.Lineage()) && parsingTree.id < first
      requires parsingTree.root.RealNode? && parsingTree.root.bare in parsingTree.store.branches
      requires parsingTree.root.bare.parent == null
      requires parsingTree.store.Valid() && rb in parsingTree.store.branches
      requires forall o :: o in rb.children ==> o < first
      requires first + |trees| <= parsingTree.store.nextOwner
      requires forall k :: 0 <= k < |trees| ==>
                 Sibling(parsingTree, trees[k], first + k) && Increasing(trees[k].Lineage()) && Pending(trees[k], rb)
      modifies trees, rb, parsingTree.store, inputStream
      ensures |ps| == |bs| == |trees| && inputStream.blocked
      ensures forall k :: 0 <= k < |trees| ==> fresh(bs[k])
      ensures forall k :: 0 <= k < |trees| ==>
                Successor(this, rb, ps[k], bs[k], datas[k], old(rb.children), old(inputStream.node), old(inputStream.elementIndex))
      ensures forall k :: 0 <= k < |trees| ==>
                ps[k].Regular? && ps[k].state.Valid() && fresh(ps[k].state) && fresh(ps[k].state.inputStream)
                && ps[k].state.parsingTree == trees[k]
    {
      ghost var before := rb.children;
      bs := GraftForks(parsingTree, trees, datas, rb, first, parsingTree.store);
      StreamStaysValid(inputStream);
      ps := FinishMany(trees, bs, datas, rb, first, before);
    }

    /** The second half of SpawnMany: the stream forks and the states over the handles. */
    method FinishMany(trees: seq<ParsingTree>, ghost bs: seq<RealBranch<BranchData, LeafData>>, datas: seq<BranchData>,
                      ghost rb: RealBranch<BranchData, LeafData>, ghost first: nat, ghost before: map<nat, seq<ParseNode>>)
      returns (ps: seq<ParsingState>)
      requires inputStream.Valid() && !inputStream.blocked
      requires Increasing(parsingTree.Lineage()) && parsingTree.id < first
      requires forall o :: o in before ==> o < first
      requires GraftedForks(parsingTree, trees, bs, rb, datas, first, before)
      modifies inputStream
      ensures |ps| == |trees| && inputStream.blocked
      ensures forall k :: 0 <= k < |trees| ==>
                Successor(this, rb, ps[k], bs[k], datas[k], before, old(inputStream.node), old(inputStream.elementIndex))
      ensures forall k :: 0 <= k < |trees| ==>
                ps[k].Regular? && ps[k].state.Valid() && fresh(ps[k].state) && fresh(ps[k].state.inputStream) && ps[k].state.parsingTree == trees[k]
    {
      var streams := ForkStreams(|trees|);
      var states;
      states, ps := MakeStates(trees, streams);
      ForkedSuccessors(this, rb, ps, states, trees, streams, bs, datas, first, before, old(inputStream.node), old(inputStream.elementIndex));
    }

    /** The tree fork of `nonTerminalTransition`: count handles with consecutive fresh ids,
        each marking the marker's branch. */
    method ForkTrees(marker: Branch<BranchData, LeafData>, count: nat) returns (trees: seq<ParsingTree>)
      requires Valid() && parsingTree.marker == BranchNode(marker)
      modifies parsingTree, parsingTree.store
      ensures |trees| == count && parsingTree.blocked
      ensures parsingTree.store.Valid() && parsingTree.store.nextOwner == old(parsingTree.store.nextOwner) + count
      ensures parsingTree.store.branches == old(parsingTree.store.branches)
      ensures parsingTree.store.leaves == old(parsingTree.store.leaves)
      ensures forall k :: 0 <= k < count ==>
                fresh(trees[k]) && Sibling(parsingTree, trees[k], old(parsingTree.store.nextOwner) + k)
                && Increasing(trees[k].Lineage()) && Pending(trees[k], marker.realBranch)
    {
      var forked := parsingTree.Fork(count);
      trees := forked.value;
    }

    /** The stream fork of `nonTerminalTransition`: count handles where this one stands. */
    method ForkStreams(count: nat) returns (streams: seq<CharacterStream>)
      requires inputStream.Valid() && !inputStream.blocked
      modifies inputStream
      ensures |streams| == count && inputStream.blocked
      ensures forall k :: 0 <= k < count ==> fresh(streams[k])
      ensures StreamsAt(streams, inputStream.shared, old(inputStream.node), old(inputStream.elementIndex))
    {
      var forked := inputStream.Fork(count);
      streams := forked.value;
    }

    /** The states of `nonTerminalTransition`, the k-th over the k-th handles. */
    method MakeStates(trees: seq<ParsingTree>, streams: seq<CharacterStream>)
      returns (states: seq<RegularState>, ps: seq<ParsingState>)
      requires |trees| == |streams|
      ensures |states| == |ps| == |trees|
      ensures forall k :: 0 <= k < |trees| ==> fresh(states[k]) && Over(states[k], grammar, trees[k], streams[k], knownChar)
      ensures forall k :: 0 <= k < |trees| ==> ps[k] == Regular(states[k])
    {
      states, ps := [], [];
      for k := 0 to |trees|
        invariant |states| == |ps| == k
        invariant forall j :: 0 <= j < k ==> fresh(states[j]) && Over(states[j], grammar, trees[j], streams[j], knownChar)
        invariant forall j :: 0 <= j < k ==> ps[j] == Regular(states[j])
      {
        var s := new RegularState(grammar, trees[k], streams[k], knownChar);
        states, ps := states + [s], ps + [Regular(s)];
      }
    }
  }

  /** The tree half of one round of the loop of `nonTerminalTransition`: a new branch for
      the rule under the handle's marker, which becomes the marker. */
  method Graft(h: ParsingTree, data: BranchData) returns (ghost b: RealBranch<BranchData, LeafData>)
    requires h.store.Valid() && Increasing(h.Lineage()) && h.id < h.store.nextOwner
    requires !h.blocked && h.marker.BranchNode? && h.marker.branch.caller == h
    requires h.marker.branch.realBranch in h.store.branches
    modifies h, h.marker.branch.realBranch, h.store
    ensures h.store.Valid() && !h.blocked
    ensures fresh(b) && b.parent == old(h.marker.branch.realBranch) && b.data == data && b.children == map[]
    ensures h.marker == BranchNode(Branch(b, h))
    ensures var rb := old(h.marker.branch.realBranch);
      rb.children == old(rb.children)[h.id := Own(old(rb.children), h.id) + [RealNode(b)]]
    ensures h.store.branches == old(h.store.branches) + {b} && h.store.leaves == old(h.store.leaves)
    ensures h.store.nextOwner == old(h.store.nextOwner)
  {
    var marker := h.marker.branch;
    ghost var before := marker.realBranch.children;
    var added;
    added, b := marker.AddBranchChild(data);
    var children := marker.GetChildren();
    OwnIdIsNew(h);
    VisibleAppendOwn(before, h.Lineage(), RealNode(b));
    var marked := h.SetMarker(children.value[|children.value| - 1]);
  }

  /** The tree half of the loop of `nonTerminalTransition` over the forked handles: the
      k-th handle receives a branch for the k-th rule under rb. */
  method GraftForks(parent: ParsingTree, trees: seq<ParsingTree>, datas: seq<BranchData>,
                    ghost rb: RealBranch<BranchData, LeafData>, ghost first: nat, store: TreeStore<BranchData, LeafData>)
    returns (ghost bs: seq<RealBranch<BranchData, LeafData>>)
    requires |trees| == |datas| && parent.store == store
    requires parent.root.RealNode? && parent.root.bare in store.branches && parent.root.bare.parent == null
    requires forall k :: 0 <= k < |trees| ==> Sibling(parent, trees[k], first + k)
    requires store.Valid() && rb in store.branches
    requires forall o :: o in rb.children ==> o < first
    requires first + |trees| <= store.nextOwner
    requires forall k :: 0 <= k < |trees| ==>
               trees[k].store == store && trees[k].id == first + k && Increasing(trees[k].Lineage())
    requires forall k :: 0 <= k < |trees| ==> Pending(trees[k], rb)
    modifies trees, rb, store
    ensures |bs| == |trees|
    ensures store.Valid() && old(store.branches) <= store.branches
    ensures store.nextOwner == old(store.nextOwner)
    ensures forall k :: 0 <= k < |trees| ==> fresh(bs[k]) && bs[k] in store.branches
    ensures forall k :: 0 <= k < |trees| ==> Grafted(trees[k], bs[k], rb, datas[k])
    ensures rb.children == GrowAll(old(rb.children), first, bs)
    ensures GraftedForks(parent, trees, bs, rb, datas, first, old(rb.children))
  {
    ghost var before := rb.children;
    bs := [];
    for k := 0 to |trees|
      invariant |bs| == k
      invariant store.Valid() && rb in store.branches
      invariant old(store.branches) <= store.branches
      invariant store.nextOwner == old(store.nextOwner)
      invariant forall j :: k <= j < |trees| ==> Pending(trees[j], rb)
      invariant rb.children == GrowAll(before, first, bs)
      invariant forall j :: 0 <= j < k ==> fresh(bs[j]) && bs[j] in store.branches
      invariant forall j :: 0 <= j < k ==> Grafted(trees[j], bs[j], rb, datas[j])
    {
      bs := GraftOne(trees, datas, rb, first, store, bs, k, before);
    }
  }

  /** One round of GraftForks. */
  method GraftOne(trees: seq<ParsingTree>, datas: seq<BranchData>, ghost rb: RealBranch<BranchData, LeafData>,
                  ghost first: nat, store: TreeStore<BranchData, LeafData>,
                  ghost bs: seq<RealBranch<BranchData, LeafData>>, k: nat, ghost before: map<nat, seq<ParseNode>>)
    returns (ghost bs': seq<RealBranch<BranchData, LeafData>>)
    requires k < |trees| == |datas| && |bs| == k
    requires store.Valid() && rb in store.branches
    requires forall j :: 0 <= j < |trees| ==>
               trees[j].store == store && trees[j].id == first + j && Increasing(trees[j].Lineage())
    requires first + |trees| <= store.nextOwner
    requires forall o :: o in before ==> o < first
    requires forall j :: k <= j < |trees| ==> Pending(trees[j], rb)
    requires rb.children == GrowAll(before, first, bs)
    requires forall j :: 0 <= j < k ==> bs[j] in store.branches && bs[j] != rb
    requires forall j :: 0 <= j < k ==> Grafted(trees[j], bs[j], rb, datas[j])
    modifies trees[k], rb, store
    ensures |bs'| == k + 1 && bs'[..k] == bs
    ensures store.Valid() && rb in store.branches
    ensures old(store.branches) <= store.branches
    ensures store.nextOwner == old(store.nextOwner)
    ensures forall j :: k < j < |trees| ==> Pending(trees[j], rb)
    ensures rb.children == GrowAll(before, first, bs')
    ensures fresh(bs'[k]) && bs'[k] in store.branches
    ensures forall j :: 0 <= j < k + 1 ==> Grafted(trees[j], bs'[j], rb, datas[j])
  {
    ghost var prev := rb.children;
    GrowAllOwn(before, first, bs, first + k);
    ghost var b;
    b := Graft(trees[k], datas[k]);
    assert Own(prev, first + k) + [RealNode(b)] == [RealNode(b)];
    assert GrowAll(before, first, bs + [b]) == prev[first + k := [RealNode(b)]] by {
      assert (bs + [b])[..k] == bs;
    }
    bs' := bs + [b];
  }

  /** The comparison loop of `terminalTransition`: while the literal matches the
      look-ahead, read the next character. */
  method MatchLiteral(stream: CharacterStream, value: string, known: Option<char>) returns (matched: nat, c: Option<char>)
    requires stream.Valid() && !stream.blocked
    modifies stream, stream.shared, stream.shared.nodes
    ensures stream.Valid() && !stream.blocked && stream.shared.start == old(stream.shared.start)
    ensures matched == MatchLength(value, known, stream.shared.outputs, old(Base(stream)), 0)
    ensures stream.Position() == old(stream.Position()) + matched
    ensures c == Lookahead(known, stream.shared.outputs, old(Base(stream)), matched)
  {
    ghost var outputs, base := stream.shared.outputs, Base(stream);
    matched, c := 0, known;
    while matched < |value| && Some(value[matched]) == c
      invariant matched <= |value|
      invariant stream.Valid() && !stream.blocked && stream.shared.start == old(stream.shared.start)
      invariant stream.Position() == old(stream.Position()) + matched
      invariant forall n :: n in stream.shared.nodes ==> n in old(stream.shared.nodes) || fresh(n)
      invariant c == Lookahead(known, outputs, base, matched)
      invariant forall j :: 0 <= j < matched ==> Some(value[j]) == Lookahead(known, outputs, base, j)
      decreases |value| - matched
    {
      assert stream.node == stream.shared.nodes[stream.node.index];
      assert stream.node in old(stream.shared.nodes) || fresh(stream.node);
      var next := stream.Next();
      c := next.value;
      matched := matched + 1;
    }
    MatchLengthIs(value, known, outputs, base, 0, matched);
  }
}
