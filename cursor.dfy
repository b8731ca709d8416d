/** The `TriBlocker` cursor (index.ts:191-212): the node currently animated and the
    direction of travel along the chain. When the current node settles the cursor
    moves to its neighbour in that direction; at an end of the chain it turns round
    and stays. */
module Cursor {
  import opened ProgressState
  import opened Chain

  /** The value of a `TriBlocker`: the `State` values of all nodes, `curr` as an index, and `dir`. */
  datatype CursorState = CursorState(states: seq<Progress>, curr: nat, dir: int)

  /** A transition's new value, and whether it invoked its callback. */
  datatype Moved = Moved(next: CursorState, fired: bool)

  /** A fresh `TriBlocker` over `n` nodes: at node 0, heading forwards (index.ts:193-194). */
  function Initial(n: nat): CursorState
    requires n > 0
  {
    CursorState(seq(n, _ => Rest), 0, 1)
  }

  /** Whether the cursor has already carried node `k` over to the far end (baseline 1). */
  predicate Passed(c: CursorState, k: nat) {
    k < c.curr || (c.dir == -1 && k == c.curr)
  }

  /** The states reachable from `Initial`: the cursor is on the chain with a direction
      of +1 or -1, only the current node may be moving, and the nodes the cursor has
      passed are parked at 1 while the others are parked at 0. */
  predicate Inv(c: CursorState) {
    && 0 < |c.states|
    && c.curr < |c.states|
    && (c.dir == 1 || c.dir == -1)
    && (forall k :: 0 <= k < |c.states| ==> Valid(c.states[k]))
    && (forall k :: 0 <= k < |c.states| && k != c.curr ==> c.states[k].dir == 0.0)
    && (forall k :: 0 <= k < |c.states| ==>
          c.states[k].prevScale == if Passed(c, k) then 1.0 else 0.0)
  }

  /** Whether the neighbour in direction `dir` is missing. */
  predicate AtEnd(c: CursorState) {
    (c.dir == 1 && c.curr + 1 == |c.states|) || (c.dir != 1 && c.curr == 0)
  }

  /** `TriBlocker.update` (index.ts:200-207): update the current node; when it settles,
      move to `getNext(dir)`, flipping `dir` if that hits the boundary, and fire. */
  function Updated(c: CursorState): Moved
    requires c.curr < |c.states|
  {
    var u := Advanced(c.states[c.curr]);
    var states := c.states[c.curr := u.next];
    if !u.fired then
      Moved(c.(states := states), false)
    else
      var h := Neighbor(|c.states|, c.curr, c.dir);
      Moved(CursorState(states, h.node, if h.boundary then -c.dir else c.dir), true)
  }

  /** `TriBlocker.startUpdating` (index.ts:209-211): start the current node. */
  function StartedAt(c: CursorState): Moved
    requires c.curr < |c.states|
  {
    var s := Started(c.states[c.curr]);
    Moved(c.(states := c.states[c.curr := s.next]), s.fired)
  }

  lemma InitialInv(n: nat)
    requires n > 0
    ensures Inv(Initial(n))
  {
  }

  /** One tick keeps the invariant and touches only the current node's state. It
      fires exactly when that node settles; then the cursor moves one node in
      direction `dir`, or, at an end, stays and reverses. Without a settle the
      cursor stays put. */
  lemma UpdatedKeepsInv(c: CursorState)
    requires Inv(c)
    ensures var m := Updated(c);
      && Inv(m.next)
      && |m.next.states| == |c.states|
      && (forall k :: 0 <= k < |c.states| && k != c.curr ==> m.next.states[k] == c.states[k])
      && m.next.states[c.curr] == Advanced(c.states[c.curr]).next
      && (m.fired <==> Advanced(c.states[c.curr]).fired)
      && (!m.fired ==> m.next.curr == c.curr && m.next.dir == c.dir)
      && (m.fired && !AtEnd(c) ==> m.next.curr == c.curr + c.dir && m.next.dir == c.dir)
      && (m.fired && AtEnd(c) ==> m.next.curr == c.curr && m.next.dir == -c.dir)
  {
    var p := c.states[c.curr];
    AdvancedKeepsValid(p);
    var m := Updated(c);
    var n := m.next;
    if m.fired {
      assert p.prevScale == if c.dir == -1 then 1.0 else 0.0;
      assert n.states[c.curr].prevScale == if c.dir == 1 then 1.0 else 0.0;
      forall k | 0 <= k < |n.states|
        ensures n.states[k].prevScale == if Passed(n, k) then 1.0 else 0.0
      {
        if k != c.curr {
          assert n.states[k] == c.states[k];
          assert Passed(n, k) == Passed(c, k);
        }
      }
    }
  }

  /** Starting acts exactly when the current node is at rest, and it then moves the
      node in the cursor's own direction: the baseline pattern guarantees that
      `1 - 2 * prevScale` equals `dir`. */
  lemma StartedKeepsInv(c: CursorState)
    requires Inv(c)
    ensures var m := StartedAt(c);
      && Inv(m.next)
      && m.next.curr == c.curr && m.next.dir == c.dir
      && (m.fired <==> c.states[c.curr].dir == 0.0)
      && (m.fired ==> m.next.states[c.curr].dir == c.dir as real)
      && (!m.fired ==> m.next == c)
  {
    var p := c.states[c.curr];
    StartedKeepsValid(p);
    assert p.prevScale == if c.dir == -1 then 1.0 else 0.0;
    var m := StartedAt(c);
    if !m.fired {
      assert m.next.states == c.states;
    }
  }

  /** The mutable `TriBlocker` object over its array of nodes. */
  class TriBlocker {
    const nodes: array<TBNode>
    var curr: nat
    var dir: int
    ghost var model: CursorState
    ghost var Repr: set<object>

    ghost predicate Valid()
      reads this, Repr
    {
      && this in Repr
      && nodes in Repr
      && (forall k :: 0 <= k < nodes.Length ==> nodes[k] in Repr && nodes[k].state in Repr)
      && Linked(nodes)
      && (forall j, k :: 0 <= j < k < nodes.Length ==> nodes[j].state != nodes[k].state)
      && nodes.Length == |model.states|
      && (forall k :: 0 <= k < nodes.Length ==> nodes[k].state.Value() == model.states[k])
      && model.curr == curr
      && model.dir == dir
      && Inv(model)
    }

    /** `curr = new TBNode(0)` and `dir = 1` (index.ts:193-194). */
    constructor ()
      ensures Valid() && fresh(Repr)
      ensures model == Initial(|Colors|) && nodes.Length == |Colors|
    {
      var ns := BuildChain(|Colors|);
      nodes := ns;
      curr := 0;
      dir := 1;
      model := Initial(|Colors|);
      Repr := {this, ns} + (set k | 0 <= k < ns.Length :: ns[k])
        + (set k | 0 <= k < ns.Length :: ns[k].state);
      new;
      InitialInv(|Colors|);
    }

    /** `TriBlocker.update`; `settled` reports the call of `cb`. */
    method Update() returns (settled: bool)
      requires Valid()
      modifies this, nodes[curr].state
      ensures Valid() && Repr == old(Repr)
      ensures Moved(model, settled) == Updated(old(model))
    {
      UpdatedKeepsInv(model);
      var node := nodes[curr];
      settled := node.state.Update();
      if settled {
        GetNextFollowsLinks(nodes, curr, dir);
        var hop := node.GetNext(dir);
        if hop.boundary {
          dir := -dir;
        }
        curr := hop.node;
      }
      model := Updated(model).next;
    }

    /** `TriBlocker.startUpdating`; `started` reports the call of `cb`. */
    method StartUpdating() returns (started: bool)
      requires Valid()
      modifies this, nodes[curr].state
      ensures Valid() && Repr == old(Repr)
      ensures Moved(model, started) == StartedAt(old(model))
    {
      StartedKeepsInv(model);
      started := nodes[curr].state.StartUpdating();
      model := StartedAt(model).next;
    }
  }
}
