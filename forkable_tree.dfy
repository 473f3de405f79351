/** A tree whose handles can be forked. A branch keeps one child list per owner handle;
    a handle sees the lists of its own fork lineage and never those of a sibling.
    Owners are named by ids handed out by the family's TreeStore. */
module ForkableTree {
  import opened Wrappers
  import opened Forkable

  /** A node as the Kotlin interfaces see it: a leaf, a bare RealBranch, or a Branch view
      of a RealBranch for one handle. Child lists only hold leaves and bare branches. */
  datatype TreeNode<B, L> =
    | LeafNode(leaf: Leaf<B, L>)
    | RealNode(bare: RealBranch<B, L>)
    | BranchNode(branch: Branch<B, L>)

  /** Hands out owner ids to the trees of one family, and creation stamps to its
      branches: a child branch is always younger than its parent. */
  class TreeStore<B, L> {
    var nextOwner: nat
    ghost var nextStamp: nat
    ghost var branches: set<RealBranch<B, L>>
    ghost var leaves: set<Leaf<B, L>>

    constructor ()
      ensures nextOwner == 0 && nextStamp == 0 && branches == {} && leaves == {} && Valid()
    {
      nextOwner := 0;
      nextStamp := 0;
      branches := {};
      leaves := {};
    }

    method NewOwner() returns (id: nat)
      modifies this
      ensures id == old(nextOwner) && nextOwner == old(nextOwner) + 1
      ensures nextStamp == old(nextStamp) && branches == old(branches) && leaves == old(leaves)
    {
      id := nextOwner;
      nextOwner := nextOwner + 1;
    }

    /** Every branch of the family is stamped below nextStamp and its parent is of the
        family; its lists belong to owners already handed out; its children are leaves
        and branches of the family, and its child branches are younger than it. */
    ghost predicate Valid()
      reads this, branches
    {
      && (forall b :: b in branches ==> b.store == this && b.stamp < nextStamp && ChildrenYounger(b))
      && (forall b {:trigger b.parent} :: b in branches && b.parent != null ==> b.parent in branches)
    }

    ghost predicate ChildrenYounger(b: RealBranch<B, L>)
      reads this, b
    {
      (forall o :: o in b.children ==> o < nextOwner)
      && forall o, i :: o in b.children && 0 <= i < |b.children[o]| ==> ChildOf(b, b.children[o][i])
    }

    /** A stored child: a leaf of the family or a younger branch of the family. */
    ghost predicate ChildOf(b: RealBranch<B, L>, c: TreeNode<B, L>)
      reads this
    {
      match c
      case LeafNode(leaf) => leaf in leaves
      case RealNode(child) => child in branches && b.stamp < child.stamp
      case BranchNode(_) => false
    }
  }

  /** A leaf: its parent (a bare branch) and its data. */
  class Leaf<B, L> {
    const parent: RealBranch?<B, L>
    var data: L

    constructor (parent: RealBranch?<B, L>, data: L)
      ensures this.parent == parent && this.data == data
    {
      this.parent := parent;
      this.data := data;
    }
  }

  /** The lists of the owners in lineage, in lineage order, skipping owners without one. */
  function Visible<B, L>(children: map<nat, seq<TreeNode<B, L>>>, lineage: seq<nat>): seq<TreeNode<B, L>>
  {
    if lineage == [] then []
    else Visible(children, lineage[..|lineage| - 1])
         + (if lineage[|lineage| - 1] in children then children[lineage[|lineage| - 1]] else [])
  }

  /** The list of one owner, empty when it has none yet. */
  function Own<B, L>(children: map<nat, seq<TreeNode<B, L>>>, owner: nat): seq<TreeNode<B, L>>
  {
    if owner in children then children[owner] else []
  }

  /** What a handle gets back: bare branches become views for the caller. */
  function Wrap<B, L>(nodes: seq<TreeNode<B, L>>, caller: ForkableTree<B, L>): (r: seq<TreeNode<B, L>>)
    ensures |r| == |nodes|
    ensures forall i :: 0 <= i < |nodes| ==> r[i] == ViewFor(nodes[i], caller)
  {
    seq(|nodes|, i requires 0 <= i < |nodes| => ViewFor(nodes[i], caller))
  }

  function ViewFor<B, L>(node: TreeNode<B, L>, caller: ForkableTree<B, L>): TreeNode<B, L>
  {
    if node.RealNode? then BranchNode(Branch(node.bare, caller)) else node
  }

  /** A list owned by someone outside the lineage is not seen. */
  lemma {:induction false} VisibleIgnoresOthers<B, L>(children: map<nat, seq<TreeNode<B, L>>>, lineage: seq<nat>, o: nat,
                                                      list: seq<TreeNode<B, L>>)
    requires o !in lineage
    ensures Visible(children[o := list], lineage) == Visible(children, lineage)
  {
    if lineage != [] {
      VisibleIgnoresOthers(children, lineage[..|lineage| - 1], o, list);
    }
  }

  /** What the last owner of the lineage appends comes last in what it sees. */
  lemma VisibleAppendOwn<B, L>(children: map<nat, seq<TreeNode<B, L>>>, lineage: seq<nat>, x: TreeNode<B, L>)
    requires lineage != [] && lineage[|lineage| - 1] !in lineage[..|lineage| - 1]
    ensures var o := lineage[|lineage| - 1];
      Visible(children[o := Own(children, o) + [x]], lineage) == Visible(children, lineage) + [x]
  {
    var o := lineage[|lineage| - 1];
    VisibleIgnoresOthers(children, lineage[..|lineage| - 1], o, Own(children, o) + [x]);
  }

  /** Every node a handle sees is in the list of some owner. */
  lemma {:induction false} VisibleFrom<B, L>(children: map<nat, seq<TreeNode<B, L>>>, lineage: seq<nat>, k: nat)
    requires k < |Visible(children, lineage)|
    ensures exists o, i :: o in children && 0 <= i < |children[o]| && children[o][i] == Visible(children, lineage)[k]
  {
    var init := Visible(children, lineage[..|lineage| - 1]);
    var last := lineage[|lineage| - 1];
    if k < |init| {
      VisibleFrom(children, lineage[..|lineage| - 1], k);
    } else {
      assert Visible(children, lineage)[k] == children[last][k - |init|];
    }
  }

  /** The lists of a lineage, oldest owner first: a handle sees its ancestors' children
      before its own. */
  lemma {:induction false} VisibleOfLineage<B, L>(children: map<nat, seq<TreeNode<B, L>>>, inherited: seq<nat>, id: nat)
    ensures Visible(children, inherited + [id]) == Visible(children, inherited) + Own(children, id)
  {
    assert (inherited + [id])[..|inherited|] == inherited;
  }

  /** The branch a tree really stores: parent, data, and one child list per owner. */
  class RealBranch<B, L> {
    const parent: RealBranch?<B, L>
    var data: B
    var children: map<nat, seq<TreeNode<B, L>>>
    const store: TreeStore<B, L>
    ghost const stamp: nat

    constructor (parent: RealBranch?<B, L>, data: B, store: TreeStore<B, L>, ghost stamp: nat)
      ensures this.parent == parent && this.data == data && this.store == store && this.stamp == stamp
      ensures children == map[]
    {
      this.parent := parent;
      this.data := data;
      this.store := store;
      this.stamp := stamp;
      children := map[];
    }

    /** `getChildren(caller)`: the lists of the caller's lineage, in lineage order, with
        branches wrapped for the caller. */
    function GetChildren(caller: ForkableTree<B, L>): seq<TreeNode<B, L>>
      reads this
    {
      Wrap(Visible(children, caller.Lineage()), caller)
    }

    /** `addLeafChild`: a new leaf with this parent at the end of the caller's own list;
        no other list changes. */
    method AddLeafChild(caller: ForkableTree<B, L>, data: L) returns (ghost leaf: Leaf<B, L>)
      requires store.Valid() && this in store.branches && caller.id < store.nextOwner
      modifies this, store
      ensures store.Valid() && this.data == old(this.data)
      ensures store.nextOwner == old(store.nextOwner) && store.nextStamp == old(store.nextStamp)
      ensures store.branches == old(store.branches) && store.leaves == old(store.leaves) + {leaf}
      ensures fresh(leaf) && leaf.parent == this && leaf.data == data
      ensures children == old(children)[caller.id := Own(old(children), caller.id) + [LeafNode(leaf)]]
    {
      var node := new Leaf(this, data);
      leaf := node;
      children := children[caller.id := Own(children, caller.id) + [LeafNode(node)]];
      store.leaves := store.leaves + {node};
      assert store.ChildrenYounger(this);
    }

    /** `addBranchChild`: a new branch with this parent at the end of the caller's own
        list; no other list changes. */
    method AddBranchChild(caller: ForkableTree<B, L>, data: B) returns (ghost branch: RealBranch<B, L>)
      requires store.Valid() && this in store.branches && caller.id < store.nextOwner
      modifies this, store
      ensures store.Valid() && this.data == old(this.data) && store.nextOwner == old(store.nextOwner)
      ensures store.branches == old(store.branches) + {branch} && store.leaves == old(store.leaves)
      ensures fresh(branch) && branch.parent == this && branch.data == data && branch.children == map[]
      ensures children == old(children)[caller.id := Own(old(children), caller.id) + [RealNode(branch)]]
    {
      var node := new RealBranch(this, data, store, store.nextStamp);
      branch := node;
      children := children[caller.id := Own(children, caller.id) + [RealNode(node)]];
      store.nextStamp := store.nextStamp + 1;
      store.branches := store.branches + {node};
      assert store.ChildrenYounger(this);
      assert store.ChildrenYounger(node);
    }

    /** `getParent(caller)`: the parent wrapped for the caller, or None for a root. */
    function GetParent(caller: ForkableTree<B, L>): (r: Option<TreeNode<B, L>>)
      ensures r.None? <==> parent == null
      ensures r.Some? ==> r.value == BranchNode(Branch(parent, caller))
    {
      if parent == null then None else Some(BranchNode(Branch(parent, caller)))
    }
  }

  /** `Branch`: a RealBranch seen through one handle. Every operation fails once the
      handle is blocked. */
  datatype Branch<B, L> = Branch(realBranch: RealBranch<B, L>, caller: ForkableTree<B, L>)
  {
    function GetChildren(): (r: Result<seq<TreeNode<B, L>>, ForkError>)
      reads caller, realBranch
      ensures r.Failure? <==> caller.blocked
      ensures r.Success? ==> r.value == Wrap(Visible(realBranch.children, caller.Lineage()), caller)
    {
      if caller.blocked then Failure(AlreadyForked) else Success(realBranch.GetChildren(caller))
    }

    method AddLeafChild(data: L) returns (r: Result<(), ForkError>, ghost leaf: Leaf?<B, L>)
      requires realBranch.store.Valid() && realBranch in realBranch.store.branches
      requires caller.id < realBranch.store.nextOwner
      modifies realBranch, realBranch.store
      ensures realBranch.store.Valid() && realBranch.data == old(realBranch.data)
      ensures realBranch.store.nextOwner == old(realBranch.store.nextOwner)
      ensures realBranch.store.nextStamp == old(realBranch.store.nextStamp)
      ensures realBranch.store.branches == old(realBranch.store.branches)
      ensures r.Failure? <==> caller.blocked
      ensures r.Failure? ==> unchanged(realBranch, realBranch.store)
      ensures r.Success? ==> realBranch.store.leaves == old(realBranch.store.leaves) + {leaf}
      ensures r.Success? ==> leaf != null && fresh(leaf) && leaf.parent == realBranch && leaf.data == data
      ensures r.Success? ==>
        realBranch.children == old(realBranch.children)[caller.id := Own(old(realBranch.children), caller.id) + [LeafNode(leaf)]]
    {
      leaf := null;
      if caller.blocked {
        return Failure(AlreadyForked), leaf;
      }
      leaf := realBranch.AddLeafChild(caller, data);
      r := Success(());
    }

    method AddBranchChild(data: B) returns (r: Result<(), ForkError>, ghost branch: RealBranch?<B, L>)
      requires realBranch.store.Valid() && realBranch in realBranch.store.branches
      requires caller.id < realBranch.store.nextOwner
      modifies realBranch, realBranch.store
      ensures realBranch.store.Valid() && realBranch.data == old(realBranch.data)
      ensures realBranch.store.nextOwner == old(realBranch.store.nextOwner)
      ensures r.Failure? <==> caller.blocked
      ensures r.Failure? ==> unchanged(realBranch, realBranch.store)
      ensures r.Success? ==> branch != null && fresh(branch) && branch.parent == realBranch && branch.data == data
      ensures r.Success? ==> branch.children == map[] && realBranch.store.branches == old(realBranch.store.branches) + {branch}
      ensures realBranch.store.leaves == old(realBranch.store.leaves)
      ensures r.Success? ==>
        realBranch.children == old(realBranch.children)[caller.id := Own(old(realBranch.children), caller.id) + [RealNode(branch)]]
    {
      branch := null;
      if caller.blocked {
        return Failure(AlreadyForked), branch;
      }
      branch := realBranch.AddBranchChild(caller, data);
      r := Success(());
    }

    function GetData(): (r: Result<B, ForkError>)
      reads caller, realBranch
      ensures r.Failure? <==> caller.blocked
      ensures r.Success? ==> r.value == realBranch.data
    {
      if caller.blocked then Failure(AlreadyForked) else Success(realBranch.data)
    }

    method SetData(data: B) returns (r: Result<(), ForkError>)
      modifies realBranch
      ensures r.Failure? <==> caller.blocked
      ensures r.Failure? ==> unchanged(realBranch)
      ensures r.Success? ==> realBranch.data == data && realBranch.children == old(realBranch.children)
    {
      if caller.blocked {
        return Failure(AlreadyForked);
      }
      realBranch.data := data;
      r := Success(());
    }

    function GetParent(): (r: Result<Option<TreeNode<B, L>>, ForkError>)
      reads caller
      ensures r.Failure? <==> caller.blocked
      ensures r.Success? ==> (r.value.None? <==> realBranch.parent == null)
      ensures r.Success? && r.value.Some? ==> r.value.value == BranchNode(Branch(realBranch.parent, caller))
    {
      if caller.blocked then Failure(AlreadyForked) else Success(realBranch.GetParent(caller))
    }
  }

  /** Data written through one view is read through every view of the same branch. */
  lemma SharedData<B, L>(v: Branch<B, L>, w: Branch<B, L>)
    requires v.realBranch == w.realBranch && !v.caller.blocked && !w.caller.blocked
    ensures v.GetData() == w.GetData()
  {
  }

  /** Strictly increasing ids: an id occurs once in a lineage. */
  predicate Increasing(ids: seq<nat>)
  {
    forall i, j :: 0 <= i < j < |ids| ==> ids[i] < ids[j]
  }

  lemma IncreasingSnoc(ids: seq<nat>, x: nat)
    requires Increasing(ids) && ids != [] && ids[|ids| - 1] < x
    ensures Increasing(ids + [x])
  {
    forall i, j | 0 <= i < j < |ids| + 1
      ensures (ids + [x])[i] < (ids + [x])[j]
    {
      if j == |ids| {
        assert ids[i] <= ids[|ids| - 1];
      }
    }
  }

  class ForkableTree<B, L> {
    const store: TreeStore<B, L>
    const id: nat
    const inherited: seq<nat>
    const root: TreeNode<B, L>
    var marker: TreeNode<B, L>
    var blocked: bool

    /** The owners whose lists this handle sees: its ancestors, oldest first, then itself. */
    function Lineage(): seq<nat>
    {
      inherited + [id]
    }

    /** Ids increase along the lineage and are below the family's next id; the root is
        a parentless node of the family. */
    ghost predicate Valid()
      reads this, store, store.branches
    {
      store.Valid() && Increasing(Lineage()) && id < store.nextOwner
      && !root.BranchNode?
      && (root.RealNode? ==> root.bare in store.branches && root.bare.parent == null)
      && (root.LeafNode? ==> root.leaf in store.leaves && root.leaf.parent == null)
    }

    /** The private constructor. */
    constructor (store: TreeStore<B, L>, id: nat, inherited: seq<nat>, root: TreeNode<B, L>)
      ensures this.store == store && this.id == id && this.inherited == inherited && this.root == root
      ensures marker == root && !blocked
    {
      this.store := store;
      this.id := id;
      this.inherited := inherited;
      this.root := root;
      marker := root;
      blocked := false;
    }

    /** `getRoot`: the root, a branch wrapped for this handle. */
    function GetRoot(): (r: Result<TreeNode<B, L>, ForkError>)
      reads this
      ensures r.Failure? <==> blocked
      ensures r.Success? ==> r.value == ViewFor(root, this)
    {
      if blocked then Failure(AlreadyForked)
      else if root.RealNode? then Success(BranchNode(Branch(root.bare, this)))
      else Success(root)
    }

    function GetMarker(): (r: Result<TreeNode<B, L>, ForkError>)
      reads this
      ensures r.Failure? <==> blocked
      ensures r.Success? ==> r.value == marker
    {
      if blocked then Failure(AlreadyForked) else Success(marker)
    }

    method SetMarker(node: TreeNode<B, L>) returns (r: Result<(), ForkError>)
      modifies this
      ensures blocked == old(blocked)
      ensures r.Failure? <==> blocked
      ensures marker == if r.Success? then node else old(marker)
    {
      if blocked {
        return Failure(AlreadyForked);
      }
      marker := node;
      r := Success(());
    }

    /** One handle of a fork: the next id, this lineage inherited, the marker re-wrapped. */
    method NewFork() returns (tree: ForkableTree<B, L>)
      requires Valid()
      modifies store
      ensures Valid() && fresh(tree) && Forked(this, tree) && tree.Valid()
      ensures tree.id == old(store.nextOwner) && store.nextOwner == old(store.nextOwner) + 1
      ensures store.branches == old(store.branches) && store.nextStamp == old(store.nextStamp)
      ensures store.leaves == old(store.leaves)
    {
      var newId := store.NewOwner();
      tree := new ForkableTree(store, newId, inherited + [id], root);
      var rewrapped := if marker.BranchNode? then BranchNode(Branch(marker.branch.realBranch, tree)) else marker;
      var marked := tree.SetMarker(rewrapped);
      assert tree.Lineage() == Lineage() + [newId];
      IncreasingSnoc(Lineage(), newId);
    }

    /** `fork`: count new handles over the same root, each one inheriting this lineage,
        with the marker re-wrapped for it; this handle is blocked for good. */
    method Fork(count: nat) returns (r: Result<seq<ForkableTree<B, L>>, ForkError>)
      requires Valid()
      modifies this, store
      ensures Valid() && blocked && marker == old(marker)
      ensures store.branches == old(store.branches) && store.nextStamp == old(store.nextStamp)
      ensures store.leaves == old(store.leaves)
      ensures r.Failure? <==> old(blocked)
      ensures r.Failure? ==> store.nextOwner == old(store.nextOwner)
      ensures r.Success? ==> |r.value| == count && store.nextOwner == old(store.nextOwner) + count
      ensures r.Success? ==> forall i :: 0 <= i < count ==> fresh(r.value[i])
      ensures r.Success? ==> forall i :: 0 <= i < count ==> Forked(this, r.value[i]) && r.value[i].Valid()
      ensures r.Success? ==> forall i :: 0 <= i < count ==> r.value[i].id == old(store.nextOwner) + i
    {
      if blocked {
        return Failure(AlreadyForked);
      }
      var list: seq<ForkableTree<B, L>> := [];
      while |list| < count
        invariant |list| <= count && store.nextOwner == old(store.nextOwner) + |list|
        invariant store.branches == old(store.branches) && store.nextStamp == old(store.nextStamp)
        invariant store.leaves == old(store.leaves)
        invariant unchanged(this) && Valid()
        invariant forall i :: 0 <= i < |list| ==> fresh(list[i])
        invariant forall i :: 0 <= i < |list| ==> Forked(this, list[i]) && list[i].Valid()
        invariant forall i :: 0 <= i < |list| ==> list[i].id == old(store.nextOwner) + i
      {
        var tree := NewFork();
        list := list + [tree];
      }
      blocked := true;
      r := Success(list);
    }
  }

  /** `initTree` with a leaf root: a new family, one handle, the marker at the root. */
  method LeafTree<B, L>(rootData: L) returns (tree: ForkableTree<B, L>)
    ensures fresh(tree) && fresh(tree.store) && tree.Valid() && !tree.blocked && tree.inherited == []
    ensures tree.root.LeafNode? && fresh(tree.root.leaf) && tree.root.leaf.parent == null && tree.root.leaf.data == rootData
    ensures tree.GetMarker() == tree.GetRoot() == Success(tree.root)
  {
    var store := new TreeStore();
    var id := store.NewOwner();
    var leaf := new Leaf(null, rootData);
    store.leaves := {leaf};
    tree := new ForkableTree(store, id, [], LeafNode(leaf));
    var marked := tree.SetMarker(tree.GetRoot().value);
  }

  /** `initTree` with a branch root: a new family, one handle, the marker at the root
      seen through the handle. */
  method BranchTree<B, L>(rootData: B) returns (tree: ForkableTree<B, L>)
    ensures fresh(tree) && fresh(tree.store) && tree.Valid() && !tree.blocked && tree.inherited == []
    ensures tree.root.RealNode? && fresh(tree.root.bare) && tree.root.bare.parent == null
    ensures tree.root.bare.data == rootData && tree.root.bare.children == map[]
    ensures tree.GetMarker() == tree.GetRoot() == Success(BranchNode(Branch(tree.root.bare, tree)))
  {
    var store := new TreeStore();
    var id := store.NewOwner();
    var rootBranch := new RealBranch(null, rootData, store, 0);
    store.nextStamp := 1;
    store.branches := {rootBranch};
    tree := new ForkableTree(store, id, [], RealNode(rootBranch));
    var marked := tree.SetMarker(tree.GetRoot().value);
  }

  /** child was forked from parent: same family and root, parent's lineage inherited, a
      younger id, the marker re-wrapped for the child, not blocked. */
  ghost predicate Forked<B, L>(parent: ForkableTree<B, L>, child: ForkableTree<B, L>)
    reads parent, child
  {
    child.store == parent.store && child.root == parent.root
    && child.inherited == parent.Lineage() && child.id > parent.id && !child.blocked
    && child.marker == if parent.marker.BranchNode? then BranchNode(Branch(parent.marker.branch.realBranch, child)) else parent.marker
  }

  /** Two handles forked from one parent never see each other's lists. */
  lemma SiblingsApart<B, L>(a: ForkableTree<B, L>, b: ForkableTree<B, L>)
    requires a.Valid() && b.Valid() && a.inherited == b.inherited && a.id < b.id
    ensures b.id !in a.Lineage() && a.id !in b.Lineage()
  {
    forall k | 0 <= k < |a.inherited|
      ensures a.inherited[k] < a.id
    {
      assert a.Lineage()[k] == a.inherited[k] && a.Lineage()[|a.inherited|] == a.id;
    }
    forall k | 0 <= k < |b.inherited|
      ensures b.inherited[k] < b.id
    {
      assert b.Lineage()[k] == b.inherited[k] && b.Lineage()[|b.inherited|] == b.id;
    }
  }
}
