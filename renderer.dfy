/** The `Renderer` controller (index.ts:214-234): a tap starts the current node and
    the animator; every timer tick redraws and updates the cursor, and the tick on
    which the current node settles stops the animator. One tap therefore animates
    exactly one node. */
module Controller {
  import opened ProgressState
  import opened Timer
  import opened Chain
  import opened Cursor

  /** The value of a `Renderer`: its `TriBlocker` and its `Animator`. */
  datatype Sys = Sys(cursor: CursorState, timer: TimerState)

  /** What one tick of the interval callback did: `Continued` redraws once;
      `Settled` redraws, stops the animator and redraws again (index.ts:225-230). */
  datatype TickEvent = Continued | Settled

  datatype Ticked = Ticked(next: Sys, event: TickEvent)

  /** A fresh `Renderer` over a chain of `n` nodes (index.ts:216-217). */
  function Boot(n: nat): Sys
    requires n > 0
  {
    Sys(Cursor.Initial(n), Idle)
  }

  /** The reachable states: the cursor invariant, a well-formed animator, and the
      animator runs exactly while the current node is moving. */
  predicate SysInv(s: Sys) {
    && Inv(s.cursor)
    && Timer.Valid(s.timer)
    && (s.timer.animated <==> s.cursor.states[s.cursor.curr].dir != 0.0)
  }

  /** `Renderer.handleTap` (index.ts:223-233): start the cursor; only if that fires
      its callback, start the animator. */
  function Tapped(s: Sys): Sys
    requires s.cursor.curr < |s.cursor.states|
  {
    var m := StartedAt(s.cursor);
    Sys(m.next, if m.fired then AfterStart(s.timer) else s.timer)
  }

  /** The interval callback (index.ts:225-231): update the cursor; if it fires,
      stop the animator. */
  function OnTick(s: Sys): Ticked
    requires s.cursor.curr < |s.cursor.states|
  {
    var m := Updated(s.cursor);
    if m.fired then Ticked(Sys(m.next, AfterStop(s.timer)), Settled)
    else Ticked(Sys(m.next, s.timer), Continued)
  }

  /** `k` timer periods: a tick is delivered only while the interval is registered. */
  function Ticks(s: Sys, k: nat): Sys
    requires Inv(s.cursor)
    ensures Inv(Ticks(s, k).cursor) && |Ticks(s, k).cursor.states| == |s.cursor.states|
  {
    if k == 0 then s
    else
      var t := Ticks(s, k - 1);
      if t.timer.animated then (UpdatedKeepsInv(t.cursor); OnTick(t).next) else t
  }

  lemma BootInv(n: nat)
    requires n > 0
    ensures SysInv(Boot(n)) && !Boot(n).timer.animated
  {
    InitialInv(n);
  }

  /** A tap while the current node is moving changes nothing: no second start and
      no second timer. A tap at rest moves the current node in the cursor's
      direction and leaves exactly one timer running. */
  lemma TappedKeepsInv(s: Sys)
    requires SysInv(s)
    ensures SysInv(Tapped(s))
    ensures s.timer.animated ==> Tapped(s) == s
    ensures !s.timer.animated ==>
      && Tapped(s).timer == TimerState(true, 1)
      && Tapped(s).cursor.curr == s.cursor.curr
      && Tapped(s).cursor.dir == s.cursor.dir
      && Tapped(s).cursor.states[s.cursor.curr].dir == s.cursor.dir as real
  {
    StartedKeepsInv(s.cursor);
  }

  /** A tick keeps the invariant, and the animator is stopped on exactly the tick
      on which the current node settles. */
  lemma TickKeepsInv(s: Sys)
    requires SysInv(s) && s.timer.animated
    ensures var t := OnTick(s);
      && SysInv(t.next)
      && t.next.cursor == Updated(s.cursor).next
      && (t.event == Settled <==> Advanced(s.cursor.states[s.cursor.curr]).fired)
      && (t.event == Settled <==> !t.next.timer.animated)
      && (t.event == Settled ==> t.next.timer == Idle)
  {
    UpdatedKeepsInv(s.cursor);
    AdvancedKeepsValid(s.cursor.states[s.cursor.curr]);
  }

  /** A node parked at `b`. */
  function Parked(b: real): Progress {
    Progress(b, 0.0, b)
  }

  /** The cursor once its current node has travelled a full unit: that node parks at
      the other end and the cursor moves on, or turns round at an end of the chain. */
  function Completed(c: CursorState): CursorState
    requires c.curr < |c.states|
  {
    var b := 1.0 - c.states[c.curr].prevScale;
    var h := Neighbor(|c.states|, c.curr, c.dir);
    CursorState(c.states[c.curr := Parked(b)], h.node, if h.boundary then -c.dir else c.dir)
  }

  /** One round: a tap, then the ticks of one unit of travel. */
  function Round(s: Sys): Sys
    requires Inv(s.cursor)
  {
    StartedKeepsInv(s.cursor);
    Ticks(Tapped(s), TicksPerUnit)
  }

  /** During a round, each of the first 150 ticks only moves the current node's scale. */
  lemma {:induction false} TicksWhileMoving(s: Sys, k: nat)
    requires SysInv(s) && !s.timer.animated && k < TicksPerUnit
    ensures Inv(Tapped(s).cursor)
    ensures var t := Tapped(s); var c := t.cursor;
      Ticks(t, k) == Sys(c.(states := c.states[c.curr := Run(c.states[c.curr], k)]), t.timer)
    ensures Ticks(Tapped(s), k).timer.animated
  {
    TappedKeepsInv(s);
    var t := Tapped(s);
    var c := t.cursor;
    var p := c.states[c.curr];
    if k > 0 {
      TicksWhileMoving(s, k - 1);
      RunBeforeSettle(p, k);
      var u := Ticks(t, k - 1);
      assert u.cursor.states[u.cursor.curr] == Run(p, k - 1);
      assert u.cursor.states[c.curr := Run(p, k)] == c.states[c.curr := Run(p, k)];
    }
  }

  /** A tap at rest followed by 151 ticks: the animator runs through the first 150,
      the 151st settles the node and stops the animator, and the cursor has
      completed one unit. */
  lemma {:induction false} RoundCompletes(s: Sys)
    requires SysInv(s) && !s.timer.animated
    ensures forall k :: 0 < k < TicksPerUnit ==> Inv(Tapped(s).cursor) && Ticks(Tapped(s), k).timer.animated
    ensures Round(s) == Sys(Completed(s.cursor), Idle)
  {
    TappedKeepsInv(s);
    forall k | 0 < k < TicksPerUnit
      ensures Inv(Tapped(s).cursor) && Ticks(Tapped(s), k).timer.animated
    {
      TicksWhileMoving(s, k);
    }
    var t := Tapped(s);
    var c := t.cursor;
    var p := c.states[c.curr];
    TicksWhileMoving(s, TicksPerUnit - 1);
    SettlesOnLastTick(p);
    var u := Ticks(t, TicksPerUnit - 1);
    assert u.cursor.states[u.cursor.curr] == Run(p, TicksPerUnit - 1);
    assert Parked(1.0 - s.cursor.states[s.cursor.curr].prevScale) == Parked(p.prevScale + p.dir);
    assert u.cursor.states[c.curr := Parked(p.prevScale + p.dir)]
      == s.cursor.states[s.cursor.curr := Parked(p.prevScale + p.dir)];
  }

  /** `r` rounds in a row. */
  function Rounds(s: Sys, r: nat): Sys
    requires Inv(s.cursor)
    ensures Inv(Rounds(s, r).cursor) && |Rounds(s, r).cursor.states| == |s.cursor.states|
  {
    if r == 0 then s
    else
      var t := Rounds(s, r - 1);
      StartedKeepsInv(t.cursor);
      Round(t)
  }

  /** Heading forwards at node `k`: nodes before `k` are parked at 1, the rest at 0. */
  function Forward(n: nat, k: nat): CursorState {
    CursorState(seq(n, i => Parked(if i < k then 1.0 else 0.0)), k, 1)
  }

  /** Heading backwards at node `k`: nodes up to `k` are parked at 1, the rest at 0. */
  function Backward(n: nat, k: nat): CursorState {
    CursorState(seq(n, i => Parked(if i <= k then 1.0 else 0.0)), k, -1)
  }

  lemma ForwardInv(n: nat, k: nat)
    requires k < n
    ensures SysInv(Sys(Forward(n, k), Idle))
  {
    var c := Forward(n, k);
    forall i | 0 <= i < n
      ensures ProgressState.Valid(c.states[i]) && c.states[i].dir == 0.0
      ensures c.states[i].prevScale == if Passed(c, i) then 1.0 else 0.0
    {
      assert c.states[i] == Parked(if i < k then 1.0 else 0.0);
    }
  }

  lemma BackwardInv(n: nat, k: nat)
    requires k < n
    ensures SysInv(Sys(Backward(n, k), Idle))
  {
    var c := Backward(n, k);
    forall i | 0 <= i < n
      ensures ProgressState.Valid(c.states[i]) && c.states[i].dir == 0.0
      ensures c.states[i].prevScale == if Passed(c, i) then 1.0 else 0.0
    {
      assert c.states[i] == Parked(if i <= k then 1.0 else 0.0);
    }
  }

  /** Forwards, a round carries node `k` to 1 and moves on to `k + 1`; at the last
      node the cursor turns round and stays. */
  lemma {:induction false} RoundForward(n: nat, k: nat)
    requires k < n
    ensures Inv(Forward(n, k))
    ensures Round(Sys(Forward(n, k), Idle)) ==
      Sys(if k + 1 < n then Forward(n, k + 1) else Backward(n, k), Idle)
  {
    ForwardInv(n, k);
    RoundCompletes(Sys(Forward(n, k), Idle));
    var c := Completed(Forward(n, k));
    var d := if k + 1 < n then Forward(n, k + 1) else Backward(n, k);
    assert c.states == d.states;
  }

  /** Backwards, a round carries node `k` to 0 and moves on to `k - 1`; at node 0 the
      cursor turns round and stays. */
  lemma {:induction false} RoundBackward(n: nat, k: nat)
    requires k < n
    ensures Inv(Backward(n, k))
    ensures Round(Sys(Backward(n, k), Idle)) ==
      Sys(if k > 0 then Backward(n, k - 1) else Forward(n, 0), Idle)
  {
    BackwardInv(n, k);
    RoundCompletes(Sys(Backward(n, k), Idle));
    var c := Completed(Backward(n, k));
    var d := if k > 0 then Backward(n, k - 1) else Forward(n, 0);
    assert c.states == d.states;
  }

  lemma BootIsForward(n: nat)
    requires n > 0
    ensures Boot(n) == Sys(Forward(n, 0), Idle)
  {
    forall i | 0 <= i < n
      ensures Boot(n).cursor.states[i] == Forward(n, 0).states[i]
    {
      assert Boot(n).cursor.states[i] == Rest;
      assert Forward(n, 0).states[i] == Parked(0.0);
    }
  }

  /** Where the cursor stands after `r` rounds from a fresh start. */
  function Phase(n: nat, r: nat): CursorState
    requires 0 < n && r <= 2 * n
  {
    if r < n then Forward(n, r)
    else if r < 2 * n then Backward(n, 2 * n - 1 - r)
    else Forward(n, 0)
  }

  /** Each round moves the cursor from one phase to the next. */
  lemma PhaseStep(n: nat, r: nat)
    requires 0 < n && r < 2 * n
    ensures Inv(Phase(n, r))
    ensures Round(Sys(Phase(n, r), Idle)) == Sys(Phase(n, r + 1), Idle)
  {
    if r < n {
      RoundForward(n, r);
    } else {
      RoundBackward(n, 2 * n - 1 - r);
    }
  }

  /** From a fresh start, `n` taps walk the chain forwards node by node, the boundary
      turns the cursor round without wrapping to node 0, the next `n` taps walk it
      back, and after `2 n` taps the renderer is back in its initial state. */
  lemma {:induction false} RoundsFromBoot(n: nat, r: nat)
    requires 0 < n && r <= 2 * n
    ensures Inv(Boot(n).cursor)
    ensures Rounds(Boot(n), r) == Sys(Phase(n, r), Idle)
  {
    InitialInv(n);
    if r == 0 {
      BootIsForward(n);
    } else {
      RoundsFromBoot(n, r - 1);
      PhaseStep(n, r - 1);
    }
  }

  /** For the five-colour chain: ten taps (of 151 ticks each) bring everything back. */
  lemma FullCycle()
    ensures Inv(Boot(|Colors|).cursor)
    ensures Rounds(Boot(|Colors|), 2 * |Colors|) == Boot(|Colors|)
  {
    RoundsFromBoot(|Colors|, 2 * |Colors|);
    BootIsForward(|Colors|);
  }

  /** The mutable `Renderer`. */
  class Renderer {
    const tb: TriBlocker
    const animator: Animator
    ghost var Repr: set<object>

    ghost function Model(): Sys
      reads this, tb, animator
    {
      Sys(tb.model, animator.Value())
    }

    ghost predicate Valid()
      reads this, Repr
    {
      && this in Repr
      && tb in Repr && animator in Repr
      && tb.Repr <= Repr
      && this !in tb.Repr && animator !in tb.Repr
      && tb.Valid()
      && SysInv(Model())
    }

    constructor ()
      ensures Valid() && fresh(Repr)
      ensures Model() == Boot(|Colors|)
    {
      tb := new TriBlocker();
      animator := new Animator();
      new;
      Repr := {this, animator} + tb.Repr;
      BootInv(|Colors|);
    }

    /** `Renderer.handleTap`; `started` reports whether the cursor's start callback ran. */
    method HandleTap() returns (started: bool)
      requires Valid()
      modifies Repr
      ensures Valid() && Repr == old(Repr)
      ensures Model() == Tapped(old(Model()))
      ensures started == StartedAt(old(Model()).cursor).fired
    {
      TappedKeepsInv(Model());
      started := tb.StartUpdating();
      if started {
        animator.Start();
      }
    }

    /** One call of the interval callback; a tick arrives only while the interval is registered. */
    method Tick() returns (e: TickEvent)
      requires Valid() && animator.animated
      modifies Repr
      ensures Valid() && Repr == old(Repr)
      ensures Ticked(Model(), e) == OnTick(old(Model()))
    {
      TickKeepsInv(Model());
      var settled := tb.Update();
      if settled {
        animator.Stop();
        e := Settled;
      } else {
        e := Continued;
      }
    }
  }
}
