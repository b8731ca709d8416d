# tri-blocker animation core, modelled in Dafny

The program holds a chain of five "tri-blocker" nodes, one per colour, and draws
only the current one: `Renderer.render` draws `tb.curr`, a single shape in that
node's colour (index.ts:196-197, 219-220). Each tap on the canvas animates the
current node: its progress scalar runs from 0 to 1 (or back from 1 to 0) over timer
ticks, and the cursor then moves on to the neighbouring node; at either end of the
chain the cursor turns round instead. This project models the animation
state machine of `index.ts` and proves its properties:

- `scale_util.dfy` — module `ScaleUtil`: the clamp arithmetic `maxScale` / `divideScale`.
- `state.dfy` — module `ProgressState`: the `State` class (`scale`, `dir`, `prevScale`),
  its pure value `Progress`, the transitions `Advanced` (`update`) and `Started`
  (`startUpdating`), and the tick count to settle.
- `animator.dfy` — module `Timer`: the `Animator` class, with the timer abstracted to a
  ghost count of registered intervals.
- `chain.dfy` — module `Chain`: `TBNode` objects in one array, `next`/`prev` stored as
  indices, `BuildChain` (the construction done by `new TBNode(0)` and `addNeighbor`) and
  `getNext`.
- `cursor.dfy` — module `Cursor`: the `TriBlocker` class over the node array, its value
  `CursorState` and the transitions `Updated` / `StartedAt`.
- `renderer.dfy` — module `Controller`: the `Renderer` class with `HandleTap` and `Tick`
  (one call of the interval callback), and the value-level `Tapped` / `OnTick`.

`State`, `Animator`, `TriBlocker` and `Renderer` each expose their value as a
datatype: `State.Value()` is a compiled function over its fields, `Animator.Value()`
and `Renderer.Model()` are ghost functions, and `TriBlocker` keeps a ghost field
`model` that its `Valid()` ties to the nodes' states. `TBNode` keeps no such value;
its links are fixed by `Linked`. Each method's `ensures` equates the new value with a
pure function of the old one. The properties
are proved about those functions as lemmas.

Callbacks become returned flags: `State.Update` returns whether `cb` ran,
`TBNode.GetNext` returns a `Hop` whose `boundary` says whether the boundary callback
ran, and `Renderer.Tick` returns `Continued` (one redraw) or `Settled` (redraw, stop
the animator, redraw).

Behaviour of the code worth noting:

- The animator is stopped on the tick on which the current node settles
  (index.ts:227-229). So one tap animates exactly one node and the renderer then goes
  idle; the neighbouring node waits at rest for the next tap.
- The step is `0.02 / 3`, which is 1/150 (index.ts:3-4), and the settle test is a
  strict `> 1` (index.ts:113). With exact arithmetic tick 150 brings `scale` exactly
  to the opposite end without settling, and tick 151 settles.

Main results:

- A `State` value stays in the reachable set (`Valid`): `prevScale` ∈ {0,1} and
  `dir` ∈ {-1,0,1}. At rest, `scale == prevScale`. When moving, `scale` lies within
  one unit of `prevScale`, on the side of `dir`.
- From a start, ticks 1..150 each move `scale` by 1/150 and tick 151 settles on the
  opposite end, with no overshoot.
- The cursor keeps a phase invariant: every node other than the current one is at
  rest; nodes the cursor has passed have baseline 1 and the others baseline 0, and the
  current node's baseline follows the same rule while it may be moving. Therefore the node it starts always moves in the cursor's own direction.
- The animator runs exactly while the current node is moving. A tap during motion
  changes nothing.
- Ten taps on the five-node chain (151 ticks each) walk forwards to node 4, turn round
  without wrapping to node 0, walk back, and return the renderer to its initial state
  (`RoundsFromBoot` states this for every chain length).

## Model

| member | source | states |
|---|---|---|
| `ScaleUtil.MaxScale` | index.ts:13-15 | the result is the least value that is both non-negative and at least `scale - i/n` |
| `ScaleUtil.DivideScale` | index.ts:17-19 | the result lies in [0,1]; it is 0 exactly when `scale <= i/n` and 1 exactly when `scale >= (i+1)/n` |
| `ScaleUtil.DivideScaleLinear` | index.ts:17-19 | between `i/n` and `(i+1)/n` the result is `scale*n - i`, rising linearly from 0 to 1 |
| `ScaleUtil.DivideScaleMonotone` | index.ts:17-19 | more overall progress never gives less progress within a part |
| `ProgressState.RestIsValid` | index.ts:106-108 | a fresh state (all zero) is valid and at rest |
| `ProgressState.ValidBounds` | index.ts:104-127 | in every valid state `scale` lies in [0,1] and `dir` in {-1,0,1} |
| `ProgressState.AdvancedAtRest` | index.ts:110-119 | `update` on a state at rest changes nothing and does not call `cb` |
| `ProgressState.AdvancedKeepsValid` | index.ts:110-119 | `update` keeps the state valid and `scale` in [0,1]. It calls `cb` only for a moving state, and then `prevScale` toggles, `dir` becomes 0 and `scale` equals the new baseline. Otherwise `dir` and `prevScale` are unchanged and `scale` moves by `scGap*dir` |
| `ProgressState.StartedKeepsValid` | index.ts:121-126 | `startUpdating` acts (and calls `cb`) iff `dir == 0`. It then sets `dir` to +1 from baseline 0 and to -1 from baseline 1, keeping `scale` and `prevScale`. Otherwise the state is unchanged. Validity is kept |
| `ProgressState.ScGapIsUnitOver150` | index.ts:3-4 | `scGap = 0.02 / parts` is exactly 1/150 |
| `ProgressState.RunBeforeSettle` | index.ts:110-119 | from a fresh start, after `k` ≤ 150 ticks `scale` is `k/150` past the baseline in direction `dir`. `dir` and `prevScale` are unchanged and none of those ticks called `cb` |
| `ProgressState.SettlesOnLastTick` | index.ts:113-117 | the 151st tick from a start calls `cb`. It parks the state at `prevScale + dir`, the opposite end, with `dir == 0` |
| `ProgressState.State.constructor` | index.ts:106-108 | a new `State` has value `Rest` |
| `ProgressState.State.Update` | index.ts:110-119 | the object's new value and the `cb` flag are `Advanced` of its old value |
| `ProgressState.State.StartUpdating` | index.ts:121-126 | the object's new value and the `cb` flag are `Started` of its old value |
| `Timer.StartedKeepsValid` | index.ts:134-139 | after `start`, `animated` is set and exactly one interval is registered, whatever the state before |
| `Timer.StoppedKeepsValid` | index.ts:141-146 | after `stop`, `animated` is clear and no interval is registered |
| `Timer.StartStopIdempotent` | index.ts:134-146 | a second `start` is a no-op, and so is a second `stop` |
| `Timer.Animator.constructor` | index.ts:131 | a new `Animator` is not animated and has no interval |
| `Timer.Animator.Start` | index.ts:134-139 | the new value is `AfterStart` of the old: an interval is added only when not animated |
| `Timer.Animator.Stop` | index.ts:141-146 | the new value is `AfterStop` of the old: the interval is cleared only when animated |
| `Chain.TBNode.constructor` | index.ts:151-155 | a new node has index `i`, no neighbours and a fresh `State` at rest |
| `Chain.BuildChain` | index.ts:155-164 | building from node 0 yields max(n,1) fresh nodes with distinct fresh states at rest. Node `k` has index `k`, `next` is `k+1` and `prev` is `k-1` where they exist, with no wraparound |
| `Chain.LinksAreMutual` | index.ts:159-164 | in a built chain `next.prev` and `prev.next` lead back to the node. Node 0 has no `prev` and the last node has no `next` |
| `Chain.GetNextFollowsLinks` | index.ts:178-188 | `getNext` on a built chain equals `Neighbor`. With `dir == 1` it moves to `k+1`, otherwise to `k-1`, without the callback. When that neighbour is missing it runs the callback and returns the node itself |
| `Cursor.InitialInv` | index.ts:193-194 | a fresh cursor (node 0, `dir = 1`, all states zero) satisfies the cursor invariant |
| `Cursor.UpdatedKeepsInv` | index.ts:200-207 | `TriBlocker.update` keeps the invariant (`curr` on the chain, `dir` ∈ {1,-1}, only `curr` moving, passed nodes parked at 1). It changes only the current node's state. It calls `cb` exactly when that node settles: `curr` then becomes the neighbour in direction `dir`, or at a chain end `dir` flips and `curr` stays. Without a settle `curr` and `dir` are unchanged |
| `Cursor.StartedKeepsInv` | index.ts:209-211 | `TriBlocker.startUpdating` keeps the invariant and acts iff the current node is at rest. The node then moves in the cursor's own direction `dir`. Otherwise nothing changes |
| `Cursor.TriBlocker.constructor` | index.ts:193-194 | a new `TriBlocker` owns a built chain of `colors.length` nodes and has value `Initial` |
| `Cursor.TriBlocker.Update` | index.ts:200-207 | the object's new value and the `cb` flag are `Updated` of its old value; the chain links are kept |
| `Cursor.TriBlocker.StartUpdating` | index.ts:209-211 | the object's new value and the `cb` flag are `StartedAt` of its old value |
| `Controller.BootInv` | index.ts:216-217 | a fresh renderer satisfies the controller invariant and is idle |
| `Controller.TappedKeepsInv` | index.ts:223-233 | a tap while the current node moves changes nothing: no new start and no new timer. A tap at rest starts that node in the cursor's direction and leaves exactly one interval running. The invariant (animator running iff the current node moves) is kept |
| `Controller.TickKeepsInv` | index.ts:225-231 | a tick keeps the invariant and applies `TriBlocker.update`. It stops the animator exactly on the tick where the current node settles, leaving no interval |
| `Controller.Ticks` | index.ts:225-231 | any number of timer periods keeps the cursor invariant and the chain length |
| `Controller.TicksWhileMoving` | index.ts:223-233 | after a tap at rest, ticks 1..150 only advance the current node's state and the animator keeps running |
| `Controller.RoundCompletes` | index.ts:223-233 | a tap at rest followed by 151 ticks keeps the animator running through tick 150 and stops it on tick 151. The current node ends parked at the opposite end and the cursor moves on or turns round |
| `Controller.Rounds` | index.ts:223-233 | any number of tap-and-settle rounds keeps the cursor invariant |
| `Controller.ForwardInv` | index.ts:191-207 | every forward position (nodes before `k` parked at 1) is a valid idle state |
| `Controller.BackwardInv` | index.ts:191-207 | every backward position (nodes up to `k` parked at 1) is a valid idle state |
| `Controller.RoundForward` | index.ts:200-207 | moving forwards, a round parks node `k` at 1 and moves to `k+1`. At the last node the cursor turns round and stays there |
| `Controller.RoundBackward` | index.ts:200-207 | moving backwards, a round parks node `k` at 0 and moves to `k-1`. At node 0 the cursor turns round and stays there |
| `Controller.PhaseStep` | index.ts:200-207 | each round moves the renderer from the phase of round r to the phase of round r+1 |
| `Controller.BootIsForward` | index.ts:193-194 | the fresh renderer is the forward position at node 0 |
| `Controller.RoundsFromBoot` | index.ts:191-233 | for a chain of any length n, rounds 0..n-1 from boot walk forwards and then the cursor turns at the end without wrapping. The next n rounds walk back, and round 2n is the initial state again |
| `Controller.FullCycle` | index.ts:191-233 | for the five-colour chain, ten taps of 151 ticks each return the renderer to its initial state |
| `Controller.Renderer.constructor` | index.ts:214-217 | a new `Renderer` has value `Boot(colors.length)` and satisfies the invariant |
| `Controller.Renderer.HandleTap` | index.ts:223-233 | the renderer's new value is `Tapped` of the old one, and `started` says whether the node's start callback ran |
| `Controller.Renderer.Tick` | index.ts:225-231 | the renderer's new value and event are `OnTick` of the old value. A tick is delivered only while the animator is running |

## Left out

- `Stage` (index.ts:69-102), `DrawingUtil` (index.ts:26-67), and the `draw`/`render` methods of `TBNode`, `TriBlocker` and `Renderer`: these are canvas and DOM calls with no logic.
- `ScaleUtil.sinify` (index.ts:21-23): floating-point trigonometry.
- `console.log` (index.ts:112), and the redraw callback, which appears only as the tick event.
- `setInterval`/`clearInterval` and the 20 ms `delay` (index.ts:6, 137, 144). The interval handle is replaced by a ghost count of registered intervals, and a tick is an explicit `Tick` call made only while the animator runs.
- IEEE-754 rounding: `scale`, `dir` and `prevScale` are exact reals. With binary floating point, the accumulated `scale` after 150 steps may differ slightly from 1, so the real program may settle on tick 150 instead of 151, never later: after 151 steps the distance is about 151/150 whatever the rounding.
- Object identity of the `next`/`prev` references: neighbours are array indices. The recursive construction from node 0 is a loop, and it produces the same links.
- ScaleUtil.MaxScale: requires `n > 0`; with `n == 0` JavaScript divides by zero and yields Infinity or NaN, which reals cannot express (the program only passes `parts = 3`).
- ScaleUtil.DivideScale: requires `n > 0` for the same reason.
