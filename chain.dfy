/** The chain of `TBNode`s (index.ts:149-189): one node per colour, doubly linked,
    built from node 0. Nodes live in one array and name their neighbours by index. */
module Chain {
  import opened ProgressState

  datatype Option<T> = None | Some(value: T)

  /** `colors` (index.ts:7): one chain node per colour. */
  const Colors: seq<string> := ["#3F51B5", "#4CAF50", "#2196F3", "#009688", "#FFEB3B"]

  /** The result of `getNext`: the node returned, and whether the boundary callback ran. */
  datatype Hop = Hop(node: nat, boundary: bool)

  /** The neighbour of node `k` in a chain of `n` nodes by index arithmetic:
      `k + 1` forwards, `k - 1` otherwise, and no wraparound at either end. */
  function Neighbor(n: nat, k: nat, dir: int): Hop {
    if dir == 1 then
      (if k + 1 < n then Hop(k + 1, false) else Hop(k, true))
    else
      (if k > 0 then Hop(k - 1, false) else Hop(k, true))
  }

  class TBNode {
    const i: nat
    var next: Option<nat>
    var prev: Option<nat>
    const state: State

    /** A node without neighbours and with a fresh `State` (index.ts:151-155). */
    constructor (i: nat)
      ensures this.i == i && next == None && prev == None
      ensures fresh(state) && state.Value() == Rest
    {
      this.i := i;
      next, prev := None, None;
      state := new State();
    }

    /** `getNext` (index.ts:178-188): `next` when `dir == 1`, `prev` otherwise; when
        that neighbour is missing the callback runs and the node itself is returned. */
    function GetNext(dir: int): Hop
      reads this
    {
      var c := if dir == 1 then next else prev;
      if c.Some? then Hop(c.value, false) else Hop(i, true)
    }
  }

  /** Node `k` sits at index `k`, its `next` is `k + 1` and its `prev` is `k - 1`
      where those exist. */
  ghost predicate Linked(nodes: array<TBNode>)
    reads nodes, nodes[..]
  {
    forall k :: 0 <= k < nodes.Length ==>
      && nodes[k].i == k
      && nodes[k].next == (if k + 1 < nodes.Length then Some(k + 1) else None)
      && nodes[k].prev == (if k > 0 then Some(k - 1) else None)
  }

  /** Following the links of a linked chain is the index arithmetic of `Neighbor`. */
  lemma GetNextFollowsLinks(nodes: array<TBNode>, k: nat, dir: int)
    requires Linked(nodes) && k < nodes.Length
    ensures nodes[k].GetNext(dir) == Neighbor(nodes.Length, k, dir)
  {
  }

  /** In a linked chain `next.prev` is the node itself and `prev.next` too; node 0
      has no `prev` and the last node no `next`. */
  lemma LinksAreMutual(nodes: array<TBNode>)
    requires Linked(nodes) && nodes.Length > 0
    ensures nodes[0].prev == None && nodes[nodes.Length - 1].next == None
    ensures forall k :: 0 <= k < nodes.Length && nodes[k].next.Some? ==>
      nodes[k].next.value < nodes.Length && nodes[nodes[k].next.value].prev == Some(k)
    ensures forall k :: 0 <= k < nodes.Length && nodes[k].prev.Some? ==>
      nodes[k].prev.value < nodes.Length && nodes[nodes[k].prev.value].next == Some(k)
  {
  }

  /** `new TBNode(0)` with `addNeighbor` (index.ts:155-164): node `k` gets a fresh
      next node `k + 1` while `k < n - 1`, and that node's `prev` is set back to `k`.
      The result holds `n` nodes (one when `n` is 0, as node 0 is always built). */
  method BuildChain(n: nat) returns (nodes: array<TBNode>)
    ensures nodes.Length == if n == 0 then 1 else n
    ensures fresh(nodes) && Linked(nodes)
    ensures forall k :: 0 <= k < nodes.Length ==>
      fresh(nodes[k]) && fresh(nodes[k].state) && nodes[k].state.Value() == Rest
    ensures forall j, k :: 0 <= j < k < nodes.Length ==>
      nodes[j] != nodes[k] && nodes[j].state != nodes[k].state
  {
    var first := new TBNode(0);
    nodes := new TBNode[if n == 0 then 1 else n](_ => first);
    var k := 0;
    while k < n - 1
      invariant 0 <= k < nodes.Length
      invariant forall j :: 0 <= j <= k ==>
        && fresh(nodes[j]) && fresh(nodes[j].state) && nodes[j].state.Value() == Rest
        && nodes[j].i == j
        && nodes[j].next == (if j < k then Some(j + 1) else None)
        && nodes[j].prev == (if j > 0 then Some(j - 1) else None)
      invariant forall j, l :: 0 <= j < l <= k ==>
        nodes[j] != nodes[l] && nodes[j].state != nodes[l].state
    {
      var node := new TBNode(k + 1);
      nodes[k].next := Some(k + 1);
      node.prev := Some(k);
      nodes[k + 1] := node;
      k := k + 1;
    }
  }
}
