/** A stack whose handles share an immutable chain of nodes, so that forking a handle
    only copies a reference. */
module ForkableStack {
  import opened Wrappers
  import opened Forkable

  /** A node of the chain. Nodes never change; `contents` is the stack a handle at the
      node stands for, top first. */
  class StackNode<T> {
    const data: T
    const parent: StackNode?<T>
    ghost const contents: seq<T>

    constructor (data: T, parent: StackNode?<T>)
      requires parent != null ==> parent.Valid()
      ensures this.data == data && this.parent == parent
      ensures contents == [data] + Below(parent)
      ensures Valid()
    {
      this.data := data;
      this.parent := parent;
      contents := [data] + Below(parent);
    }

    /** The node stands for its data on top of what its parent stands for. */
    ghost predicate Valid()
      decreases |contents|
    {
      contents == [data] + Below(parent) && (parent != null ==> parent.Valid())
    }
  }

  /** What a handle at the node (or at no node) stands for. */
  ghost function Below<T>(node: StackNode?<T>): seq<T>
  {
    if node == null then [] else node.contents
  }

  class ForkableStack<T> {
    var currentNode: StackNode?<T>
    var blocked: bool

    /** The elements of the stack, top first. */
    ghost function Contents(): seq<T>
      reads this
    {
      Below(currentNode)
    }

    ghost predicate Valid()
      reads this
    {
      currentNode != null ==> currentNode.Valid()
    }

    /** The private constructor: a handle at the given node, not blocked. */
    constructor (currentNode: StackNode?<T>)
      requires currentNode != null ==> currentNode.Valid()
      ensures Valid() && this.currentNode == currentNode && !blocked
    {
      this.currentNode := currentNode;
      blocked := false;
    }

    /** `push`: a new node on top of the current one. */
    method Push(element: T) returns (r: Result<(), ForkError>)
      requires Valid()
      modifies this
      ensures Valid() && blocked == old(blocked)
      ensures r.Failure? <==> blocked
      ensures r.Failure? ==> Contents() == old(Contents())
      ensures r.Success? ==> Contents() == [element] + old(Contents())
    {
      if blocked {
        return Failure(AlreadyForked);
      }
      currentNode := new StackNode(element, currentNode);
      r := Success(());
    }

    /** `peek`: the top element, or None on an empty stack; nothing changes. */
    method Peek() returns (r: Result<Option<T>, ForkError>)
      requires Valid()
      ensures r.Failure? <==> blocked
      ensures r.Success? ==> (r.value.None? <==> Contents() == [])
      ensures r.Success? && r.value.Some? ==> r.value.value == Contents()[0]
    {
      if blocked {
        return Failure(AlreadyForked);
      }
      r := Success(if currentNode == null then None else Some(currentNode.data));
    }

    /** `pull`: the top element, or None on an empty stack, and the handle moves to the
        parent node; an empty stack stays empty. */
    method Pull() returns (r: Result<Option<T>, ForkError>)
      requires Valid()
      modifies this
      ensures Valid() && blocked == old(blocked)
      ensures r.Failure? <==> blocked
      ensures r.Failure? ==> Contents() == old(Contents())
      ensures r.Success? ==> (r.value.None? <==> old(Contents()) == [])
      ensures r.Success? && r.value.Some? ==> r.value.value == old(Contents())[0]
      ensures r.Success? ==> Contents() == if old(Contents()) == [] then [] else old(Contents())[1..]
    {
      if blocked {
        return Failure(AlreadyForked);
      }
      r := Success(if currentNode == null then None else Some(currentNode.data));
      currentNode := if currentNode == null then null else currentNode.parent;
    }

    /** `fork`: count new handles at the current node. Unlike the other forkable
        containers it neither checks nor sets `blocked`. */
    method Fork(count: nat) returns (list: seq<ForkableStack<T>>)
      requires Valid()
      ensures |list| == count
      ensures forall i :: 0 <= i < count ==> fresh(list[i])
      ensures forall i :: 0 <= i < count ==> list[i].Valid() && list[i].currentNode == currentNode && !list[i].blocked
      ensures forall i, j :: 0 <= i < j < count ==> list[i] != list[j]
    {
      list := [];
      while |list| < count
        invariant |list| <= count
        invariant forall i :: 0 <= i < |list| ==> fresh(list[i])
        invariant forall i :: 0 <= i < |list| ==> list[i].Valid() && list[i].currentNode == currentNode && !list[i].blocked
        invariant forall i, j :: 0 <= i < j < |list| ==> list[i] != list[j]
      {
        var handle := new ForkableStack(currentNode);
        list := list + [handle];
      }
    }
  }

  /** Pushing and then pulling on a handle gives back the element and the previous
      contents. */
  method PushThenPull<T>(s: ForkableStack<T>, x: T) returns (r: Result<Option<T>, ForkError>)
    requires s.Valid() && !s.blocked
    modifies s
    ensures r == Success(Some(x)) && s.Contents() == old(s.Contents())
  {
    var pushed := s.Push(x);
    r := s.Pull();
  }

  /** After a fork, a push on one handle is not seen through another, and the original
      handle is still usable. */
  method PushAfterFork<T>(s: ForkableStack<T>, x: T) returns (a: ForkableStack<T>, b: ForkableStack<T>, top: Result<Option<T>, ForkError>)
    requires s.Valid() && !s.blocked
    ensures a.Contents() == [x] + s.Contents() && b.Contents() == s.Contents()
    ensures top == Success(if s.Contents() == [] then None else Some(s.Contents()[0]))
  {
    var handles := s.Fork(2);
    a, b := handles[0], handles[1];
    var pushed := a.Push(x);
    top := s.Peek();
  }
}
