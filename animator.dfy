/** The `Animator` (index.ts:129-147): an `animated` flag guarding one periodic timer.
    The timer itself is abstracted to a count of intervals currently registered. */
module Timer {

  /** The value of an `Animator`: its flag and the number of live intervals. */
  datatype TimerState = TimerState(animated: bool, timers: int)

  /** A fresh `Animator` (index.ts:131). */
  const Idle: TimerState := TimerState(false, 0)

  /** A timer runs exactly while the flag is set, and never more than one. */
  predicate Valid(t: TimerState) {
    t.timers == if t.animated then 1 else 0
  }

  /** `Animator.start` (index.ts:134-139): registers an interval only when not animated. */
  function AfterStart(t: TimerState): TimerState {
    if !t.animated then TimerState(true, t.timers + 1) else t
  }

  /** `Animator.stop` (index.ts:141-146): clears the interval only when animated. */
  function AfterStop(t: TimerState): TimerState {
    if t.animated then TimerState(false, t.timers - 1) else t
  }

  /** Starting leaves exactly one timer running, whatever the state before. */
  lemma StartedKeepsValid(t: TimerState)
    requires Valid(t)
    ensures Valid(AfterStart(t)) && AfterStart(t).animated && AfterStart(t).timers == 1
  {
  }

  /** Stopping leaves no timer running, whatever the state before. */
  lemma StoppedKeepsValid(t: TimerState)
    requires Valid(t)
    ensures Valid(AfterStop(t)) && !AfterStop(t).animated && AfterStop(t).timers == 0
  {
  }

  /** A second start or a second stop is a no-op. */
  lemma StartStopIdempotent(t: TimerState)
    ensures AfterStart(AfterStart(t)) == AfterStart(t)
    ensures AfterStop(AfterStop(t)) == AfterStop(t)
  {
  }

  /** The mutable `Animator` object. */
  class Animator {
    var animated: bool
    /** Intervals registered by `setInterval` and not yet cleared. */
    ghost var timers: int

    ghost function Value(): TimerState
      reads this
    {
      TimerState(animated, timers)
    }

    constructor ()
      ensures Value() == Idle
    {
      animated := false;
      timers := 0;
    }

    method Start()
      modifies this
      ensures Value() == AfterStart(old(Value()))
    {
      if !animated {
        animated := true;
        timers := timers + 1;
      }
    }

    method Stop()
      modifies this
      ensures Value() == AfterStop(old(Value()))
    {
      if animated {
        animated := false;
        timers := timers - 1;
      }
    }
  }
}
