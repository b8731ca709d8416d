/** The per-node progress scalar `State` (index.ts:104-127): `scale` moves by `scGap`
    per tick in direction `dir` and settles on the other end of [0,1] once it has
    travelled more than one unit away from the settled baseline `prevScale`. */
module ProgressState {

  /** `parts` and `scGap` (index.ts:3-4); exactly 1/150 over the reals. */
  const Parts: real := 3.0
  const ScGap: real := 0.02 / Parts

  /** With exact arithmetic 150 steps travel exactly one unit, which is not more
      than one, so a node settles on its 151st tick. */
  const TicksPerUnit: nat := 151

  /** The value of a `State` object: current `scale`, direction `dir`, baseline `prevScale`. */
  datatype Progress = Progress(scale: real, dir: real, prevScale: real)

  /** A transition's new value, and whether it invoked its callback. */
  datatype Stepped = Stepped(next: Progress, fired: bool)

  /** A fresh `State`: all three fields zero (index.ts:106-108). */
  const Rest: Progress := Progress(0.0, 0.0, 0.0)

  function Abs(x: real): real { if x < 0.0 then -x else x }

  /** The states reachable from `Rest`: the baseline is one of the two ends, a
      moving state heads away from its baseline and is at most one unit from it. */
  predicate Valid(p: Progress) {
    && (p.prevScale == 0.0 || p.prevScale == 1.0)
    && (p.dir == 0.0 ==> p.scale == p.prevScale)
    && (p.dir != 0.0 ==>
          p.dir == 1.0 - 2.0 * p.prevScale && 0.0 <= (p.scale - p.prevScale) * p.dir <= 1.0)
  }

  /** `State.update` (index.ts:110-119): fired is the call of `cb`. */
  function Advanced(p: Progress): Stepped {
    var s := p.scale + ScGap * p.dir;
    if Abs(s - p.prevScale) > 1.0 then
      Stepped(Progress(p.prevScale + p.dir, 0.0, p.prevScale + p.dir), true)
    else
      Stepped(p.(scale := s), false)
  }

  /** `State.startUpdating` (index.ts:121-126): fired is the call of `cb`. */
  function Started(p: Progress): Stepped {
    if p.dir == 0.0 then Stepped(p.(dir := 1.0 - 2.0 * p.prevScale), true)
    else Stepped(p, false)
  }

  /** `k` consecutive ticks. */
  function Run(p: Progress, k: nat): Progress {
    if k == 0 then p else Advanced(Run(p, k - 1)).next
  }

  lemma RestIsValid()
    ensures Valid(Rest) && Rest.dir == 0.0
  {
  }

  /** A valid state has its scale in [0,1] and its direction in {-1,0,1}. */
  lemma ValidBounds(p: Progress)
    requires Valid(p)
    ensures 0.0 <= p.scale <= 1.0
    ensures p.dir == -1.0 || p.dir == 0.0 || p.dir == 1.0
  {
  }

  /** Updating a state at rest changes nothing and does not fire. */
  lemma AdvancedAtRest(p: Progress)
    requires Valid(p) && p.dir == 0.0
    ensures Advanced(p) == Stepped(p, false)
  {
  }

  /** One tick keeps the state valid. It fires exactly when the step would carry
      `scale` more than one unit from its baseline; the clamp then parks the state at
      rest on the opposite end, which becomes the new baseline, with no overshoot.
      Otherwise only `scale` moves, by `scGap`. */
  lemma AdvancedKeepsValid(p: Progress)
    requires Valid(p)
    ensures var u := Advanced(p);
      && Valid(u.next)
      && 0.0 <= u.next.scale <= 1.0
      && (u.fired ==>
            && p.dir != 0.0
            && u.next.prevScale == 1.0 - p.prevScale
            && u.next.dir == 0.0
            && u.next.scale == u.next.prevScale)
      && (!u.fired ==>
            && u.next.dir == p.dir
            && u.next.prevScale == p.prevScale
            && u.next.scale == p.scale + ScGap * p.dir)
  {
  }

  /** Starting acts exactly when the state is at rest, and then heads away from the
      settled end: +1 from 0 and -1 from 1. */
  lemma StartedKeepsValid(p: Progress)
    requires Valid(p)
    ensures var s := Started(p);
      && Valid(s.next)
      && (s.fired <==> p.dir == 0.0)
      && (s.fired ==>
            && s.next.dir == (if p.prevScale == 0.0 then 1.0 else -1.0)
            && s.next.scale == p.scale
            && s.next.prevScale == p.prevScale)
      && (!s.fired ==> s.next == p)
  {
  }

  /** Distance travelled after `k` ticks: `k * scGap`. */
  function Travel(k: nat): real {
    (k as real) / 150.0
  }

  lemma ScGapIsUnitOver150()
    ensures ScGap == 1.0 / 150.0 && Travel(1) == ScGap
  {
  }

  /** From a fresh start, each of the first 150 ticks moves `scale` one more
      `scGap` away from the baseline, and none of them fires. */
  lemma {:induction false} RunBeforeSettle(p: Progress, k: nat)
    requires Valid(p) && p.dir != 0.0 && p.scale == p.prevScale
    requires k < TicksPerUnit
    ensures Run(p, k).dir == p.dir && Run(p, k).prevScale == p.prevScale
    ensures Run(p, k).scale == if p.dir == 1.0 then p.prevScale + Travel(k) else p.prevScale - Travel(k)
    ensures k > 0 ==> !Advanced(Run(p, k - 1)).fired
  {
    if k > 0 {
      RunBeforeSettle(p, k - 1);
      ScGapIsUnitOver150();
      var q := Run(p, k - 1);
      var s := q.scale + ScGap * q.dir;
      if p.dir == 1.0 {
        assert s == p.prevScale + Travel(k);
      } else {
        assert p.dir == -1.0;
        assert s == p.prevScale - Travel(k);
      }
      assert !Advanced(q).fired;
    }
  }

  /** ... and the 151st tick fires and parks the state on the other end. */
  lemma SettlesOnLastTick(p: Progress)
    requires Valid(p) && p.dir != 0.0 && p.scale == p.prevScale
    ensures var u := Advanced(Run(p, TicksPerUnit - 1));
      && u.fired
      && u.next == Progress(p.prevScale + p.dir, 0.0, p.prevScale + p.dir)
      && u.next.prevScale == 1.0 - p.prevScale
  {
    RunBeforeSettle(p, TicksPerUnit - 1);
    ScGapIsUnitOver150();
    var q := Run(p, TicksPerUnit - 1);
    var s := q.scale + ScGap * q.dir;
    if p.dir == 1.0 {
      assert s - p.prevScale == Travel(TicksPerUnit);
    } else {
      assert p.dir == -1.0;
      assert s - p.prevScale == -Travel(TicksPerUnit);
    }
  }

  /** The mutable `State` object. */
  class State {
    var scale: real
    var dir: real
    var prevScale: real

    function Value(): Progress
      reads this
    {
      Progress(scale, dir, prevScale)
    }

    constructor ()
      ensures Value() == Rest
    {
      scale, dir, prevScale := 0.0, 0.0, 0.0;
    }

    /** `State.update`; `settled` reports the call of `cb`. */
    method Update() returns (settled: bool)
      modifies this
      ensures Stepped(Value(), settled) == Advanced(old(Value()))
    {
      scale := scale + ScGap * dir;
      if Abs(scale - prevScale) > 1.0 {
        scale := prevScale + dir;
        dir := 0.0;
        prevScale := scale;
        settled := true;
      } else {
        settled := false;
      }
    }

    /** `State.startUpdating`; `started` reports the call of `cb`. */
    method StartUpdating() returns (started: bool)
      modifies this
      ensures Stepped(Value(), started) == Started(old(Value()))
    {
      started := dir == 0.0;
      if started {
        dir := 1.0 - 2.0 * prevScale;
      }
    }
  }
}
