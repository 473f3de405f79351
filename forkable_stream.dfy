/** A stream read through forkable handles. Produced elements are kept in a lazily
    extended chain of chunks of ten, so that every handle, forked or not, reads the
    same elements and the producer is called once per element. */
module ForkableStream {
  import opened Wrappers
  import opened Forkable

  /** `ArrayStreamNode.ARRAY_SIZE`. */
  const ChunkSize: nat := 10

  /** The producer the stream reads from: the i-th call returns `outputs(i)` (None for
      the end of the input). `nodes` is the chain of stream nodes built over it. */
  class Producer<T> {
    const outputs: nat -> Option<T>
    var calls: nat
    ghost var start: nat
    ghost var nodes: seq<StreamNode<T>>

    constructor (outputs: nat -> Option<T>)
      ensures this.outputs == outputs && calls == 0 && nodes == []
    {
      this.outputs := outputs;
      calls := 0;
      start := 0;
      nodes := [];
    }

    method Invoke() returns (x: Option<T>)
      modifies this
      ensures x == outputs(old(calls)) && calls == old(calls) + 1
      ensures start == old(start) && nodes == old(nodes)
    {
      x := outputs(calls);
      calls := calls + 1;
    }

    /** The chain: node i holds chunk i, only the last node has no successor yet, and
        the producer has been called exactly for the chunks built so far. */
    ghost predicate Valid()
      reads this, nodes
    {
      |nodes| >= 1 && calls == start + ChunkSize * (|nodes| - 1)
      && (forall i :: 0 <= i < |nodes| ==> nodes[i].producer == this && nodes[i].index == i)
      && (forall i :: 0 <= i < |nodes| ==> nodes[i].value == Chunk(outputs, start, i))
      && (forall i :: 0 <= i < |nodes| - 1 ==> nodes[i].next == nodes[i + 1])
      && nodes[|nodes| - 1].next == null
    }
  }

  /** Chunk i of the chain: empty for the initial node, then the producer's outputs
      10(i-1) to 10i-1 after start. */
  function Chunk<T>(outputs: nat -> Option<T>, start: nat, i: nat): (r: seq<Option<T>>)
    ensures |r| == if i == 0 then 0 else ChunkSize
  {
    if i == 0 then [] else seq(ChunkSize, k requires 0 <= k => outputs(start + ChunkSize * (i - 1) + k))
  }

  /** Element k of chunk i is the producer's output at the matching position. */
  lemma ChunkElement<T>(outputs: nat -> Option<T>, start: nat, i: nat, k: nat)
    requires 1 <= i && k < ChunkSize
    ensures Chunk(outputs, start, i)[k] == outputs(start + ChunkSize * (i - 1) + k)
  {
  }

  /** `StreamNode`: a chunk of elements and the memoised successor node. */
  class StreamNode<T> {
    const value: seq<Option<T>>
    const producer: Producer<T>
    var next: StreamNode?<T>
    ghost const index: nat

    constructor (value: seq<Option<T>>, producer: Producer<T>, ghost index: nat)
      ensures this.value == value && this.producer == producer && this.index == index && next == null
    {
      this.value := value;
      this.producer := producer;
      this.index := index;
      next := null;
    }

    /** `getNextNode`: the successor node, built from a new chunk on the first call
        only; later calls return the same node without calling the producer. */
    method GetNextNode() returns (r: StreamNode<T>)
      requires producer.Valid() && index < |producer.nodes| && producer.nodes[index] == this
      modifies this, producer
      ensures producer.Valid() && producer.start == old(producer.start)
      ensures index + 1 < |producer.nodes| && r == producer.nodes[index + 1]
      ensures old(producer.nodes) <= producer.nodes
      ensures old(next) != null ==> r == old(next) && unchanged(producer)
      ensures old(next) == null ==> fresh(r) && producer.nodes == old(producer.nodes) + [r]
    {
      if index < |producer.nodes| - 1 {
        assert producer.nodes[index].next == producer.nodes[index + 1];
      }
      if next == null {
        var chunk := ProduceChunk(producer);
        var node := new StreamNode(chunk, producer, index + 1);
        next := node;
        producer.nodes := producer.nodes + [node];
      } else {
        assert next == producer.nodes[index + 1];
      }
      r := next;
    }
  }

  /** The successor producer of `ArrayStreamNode`: ten calls of the producer, in order. */
  method ProduceChunk<T>(producer: Producer<T>) returns (list: seq<Option<T>>)
    modifies producer
    ensures producer.calls == old(producer.calls) + ChunkSize
    ensures list == seq(ChunkSize, k requires 0 <= k => producer.outputs(old(producer.calls) + k))
    ensures producer.start == old(producer.start) && producer.nodes == old(producer.nodes)
  {
    list := [];
    while |list| < ChunkSize
      invariant |list| <= ChunkSize
      invariant producer.calls == old(producer.calls) + |list|
      invariant forall k :: 0 <= k < |list| ==> list[k] == producer.outputs(old(producer.calls) + k)
      invariant producer.start == old(producer.start) && producer.nodes == old(producer.nodes)
    {
      var x := producer.Invoke();
      list := list + [x];
    }
  }

  class ForkableStream<T> {
    var node: StreamNode<T>
    var elementIndex: int
    var blocked: bool
    ghost const shared: Producer<T>

    /** The handle points into the chain, after the initial node. */
    ghost predicate Valid()
      reads this, shared, shared.nodes
    {
      node.producer == shared && shared.Valid()
      && 1 <= node.index < |shared.nodes| && shared.nodes[node.index] == node
      && -1 <= elementIndex < ChunkSize
    }

    /** How many elements the handle has read. */
    ghost function Position(): int
      reads this
    {
      ChunkSize * (node.index - 1) + elementIndex + 1
    }

    /** The public constructor: an empty initial node, then the first chunk, index -1. */
    constructor (producer: Producer<T>)
      modifies producer
      ensures Valid() && shared == producer && !blocked
      ensures fresh(producer.nodes[0]) && fresh(node) && producer.nodes == [producer.nodes[0], node]
      ensures |node.value| == ChunkSize && elementIndex == -1 && Position() == 0
      ensures producer.start == old(producer.calls) && producer.calls == old(producer.calls) + ChunkSize
    {
      var initial := new StreamNode([], producer, 0);
      producer.nodes := [initial];
      producer.start := producer.calls;
      var first := initial.GetNextNode();
      node := first;
      elementIndex := -1;
      blocked := false;
      shared := producer;
    }

    /** The private constructor: a handle at the given position. */
    constructor At(node: StreamNode<T>, elementIndex: int, ghost shared: Producer<T>)
      ensures this.node == node && this.elementIndex == elementIndex && this.shared == shared && !blocked
    {
      this.node := node;
      this.elementIndex := elementIndex;
      this.shared := shared;
      blocked := false;
    }

    /** `next`: the producer's output at the handle's position; past the end of the
        chunk, the handle moves to the successor node at index 0. */
    method Next() returns (r: Result<Option<T>, ForkError>)
      requires Valid()
      modifies this, node, shared
      ensures Valid() && blocked == old(blocked) && shared.start == old(shared.start)
      ensures r.Failure? <==> blocked
      ensures r.Failure? ==> unchanged(this) && unchanged(shared)
      ensures r.Success? ==> r.value == shared.outputs(shared.start + old(Position())) && Position() == old(Position()) + 1
      ensures r.Success? ==> 0 <= elementIndex < ChunkSize
      ensures shared.nodes == old(shared.nodes) || (shared.nodes == old(shared.nodes) + [node] && node.index == |old(shared.nodes)| && fresh(node))
    {
      if blocked {
        return Failure(AlreadyForked);
      }
      var x := Advance();
      r := Success(x);
    }

    /** The body of `next` once the handle is known not to be blocked. */
    method Advance() returns (x: Option<T>)
      requires Valid()
      modifies this, node, shared
      ensures Valid() && blocked == old(blocked) && shared.start == old(shared.start)
      ensures x == shared.outputs(shared.start + old(Position())) && Position() == old(Position()) + 1
      ensures 0 <= elementIndex < ChunkSize
      ensures shared.nodes == old(shared.nodes) || (shared.nodes == old(shared.nodes) + [node] && node.index == |old(shared.nodes)| && fresh(node))
    {
      var i := elementIndex + 1;
      if i >= |node.value| {
        assert |node.value| == ChunkSize;
        var successor := node.GetNextNode();
        assert successor.index == old(node.index) + 1 && successor.producer == shared;
        node := successor;
        i := 0;
      }
      elementIndex := i;
      ChunkElement(shared.outputs, shared.start, node.index, elementIndex);
      assert node.value == Chunk(shared.outputs, shared.start, node.index);
      x := node.value[elementIndex];
    }

    /** `fork`: count new handles at the same node and index; the original is blocked. */
    method Fork(count: nat) returns (r: Result<seq<ForkableStream<T>>, ForkError>)
      requires Valid()
      modifies this
      ensures node == old(node) && elementIndex == old(elementIndex) && Valid()
      ensures r.Failure? <==> old(blocked)
      ensures blocked
      ensures r.Success? ==> |r.value| == count
      ensures r.Success? ==> forall i :: 0 <= i < count ==> fresh(r.value[i])
      ensures r.Success? ==> forall i :: 0 <= i < count ==>
                r.value[i].Valid() && r.value[i].node == node && r.value[i].elementIndex == elementIndex
                && r.value[i].shared == shared && !r.value[i].blocked
      ensures r.Success? ==> forall i, j :: 0 <= i < j < count ==> r.value[i] != r.value[j]
    {
      if blocked {
        return Failure(AlreadyForked);
      }
      var list: seq<ForkableStream<T>> := [];
      while |list| < count
        invariant |list| <= count
        invariant forall i :: 0 <= i < |list| ==> fresh(list[i])
        invariant forall i :: 0 <= i < |list| ==>
                    list[i].Valid() && list[i].node == node && list[i].elementIndex == elementIndex
                    && list[i].shared == shared && !list[i].blocked
        invariant forall i, j :: 0 <= i < j < |list| ==> list[i] != list[j]
        invariant unchanged(this)
      {
        var handle := new ForkableStream.At(node, elementIndex, shared);
        list := list + [handle];
      }
      blocked := true;
      r := Success(list);
    }
  }

  /** A handle stays valid when another handle extends the chain. */
  lemma StillValid<T>(h: ForkableStream<T>, oldNodes: seq<StreamNode<T>>)
    requires h.shared.Valid() && h.node.producer == h.shared && oldNodes <= h.shared.nodes
    requires 1 <= h.node.index < |oldNodes| && oldNodes[h.node.index] == h.node && -1 <= h.elementIndex < ChunkSize
    ensures h.Valid()
  {
  }
}
