# Falling-items round engine, modelled in Dafny

A browser arcade game (webpack-demo, written in TypeScript over PIXI.js): items
fall from the top of a 640×360 canvas, the player sprite follows the pointer
horizontally and catches them for points, and every item that falls past the
bottom edge costs a life. The round ends when the lives drop below zero, and a
pointer-down starts a new one.

The model covers the round engine in `webpack-demo/src/index.ts`:

- `geometry.dfy`, module `Geometry`: the strict AABB overlap test
  `CheckAABBCollisin`, over abstract rectangles.
- `hud.dfy`, module `Hud`: the label texts, with the decimal rendering of a
  point total that the template literals produce.
- `rules.dfy`, module `Rules`: the engine's rules on values. A slot is
  `Slot(renderable, x, y)`. The player's lives, points and speed, the
  `stateInGame` flag and the label text together form one `Round` value. A
  tick gives each slot one `Outcome`: `Idle`, `Spawned`, `Advanced`, `Caught`
  or `Missed`. The slot outcomes are independent of one another, because the
  player does not move during a tick. So a whole tick maps each slot on its
  own, then folds the `Round` over the outcomes in pool order (`RoundAfter`).
  The lemmas here state the source's rules: the slot invariant, exactly one
  outcome per slot, points gained equal to catches and lives lost equal to
  misses, the end of the round on the 11th miss, and what can still happen
  after the end within the same tick.
- `engine.dfy`, module `Engine`: class `RoundEngine`. It holds the pool as an
  `array<Slot>` plus fields for the player's x, lives, points, speed, the
  round flag and the label. Its methods are the source's functions, updating
  that state in place. Each one is proved to do what a `Rules` function says:
  `ResetPlayerData` does `Reset`, `CheckGameEnd` does `GameEnd`,
  `CheckCollection` does `Collect` on overlap, `Disable` does `Disabled`,
  `Spawn` does `SpawnedAt` and `StartGame` does `Start`. `UpdateSlot` does
  `StepSlot` and `StepRound` of the slot's `Classify` outcome, and the
  per-slot `forEach` loop (`UpdateCollectibleItems`) is proved equal to
  `StepSlots` and `RoundAfter`. `Tick`, `PointerMove` and `PointerDown` have
  no `Rules` counterpart: their contracts state the `stateInGame` guard
  directly. The client method `FirstRound` shows that these contracts
  compose: a tick before the first pointer-down changes nothing, a
  pointer-down starts a round, a won draw shows a slot, and a pointer-move
  moves the player. Every method
  keeps `Valid()`: dormant slots sit at y = 0 and falling slots stay within
  0..360. The pool's length is fixed because `items` is a `const` array.

Inputs that the program gets from its environment are parameters here:
- the per-tick spawn draws (`Math.random() < 0.01`) and the spawn x values
  (`Math.random() * window.innerHeight`) are two sequences with one entry per
  slot, read only for dormant slots;
- the sprites' `getBounds()` are two functions fixed at construction,
  `itemBounds(index, x, y)` and `playerBounds(x, y)`;
- the pointer's `clientX` is an argument of `PointerMove`.

Three details are kept exactly as the code has them:
- the round state is the code's single boolean, not a three-valued state;
- `StartGame` writes `Points: N` with the points from *before*
  `ResetPlayerData`, not `Points: 0`;
- a catch after the end of the round in the same tick overwrites the
  end-of-round label.

## Model

| member | source | states |
|---|---|---|
| `Geometry.Overlaps` | webpack-demo/src/index.ts:180-190 | definition of the strict AABB test `CheckAABBCollisin`; its properties are stated by `OverlapsSymmetric`, `TouchingEdgesDoNotOverlap`, `OverlapsIffCommonInteriorPoint` and `SelfOverlap` |
| `Geometry.OverlapsSymmetric` | webpack-demo/src/index.ts:180-190 | swapping the two rectangles does not change the collision result |
| `Geometry.TouchingEdgesDoNotOverlap` | webpack-demo/src/index.ts:185-188 | all four comparisons are strict, so rectangles that only share an edge do not collide |
| `Geometry.OverlapsIffCommonInteriorPoint` | webpack-demo/src/index.ts:180-190 | for rectangles of positive size, the test holds exactly when some point lies strictly inside both (an independent reference definition) |
| `Geometry.SelfOverlap` | webpack-demo/src/index.ts:185-188 | a rectangle collides with itself exactly when its width and height are positive |
| `Hud.DecimalText` | webpack-demo/src/index.ts:137 | the rendered point total is a non-empty string of decimal digits with no leading zero |
| `Hud.DecimalRoundTrip` | webpack-demo/src/index.ts:137 | reading the rendered numeral back gives the point total |
| `Hud.PointsTextInjective` | webpack-demo/src/index.ts:137 | two `Points: N` labels are equal exactly when their totals are equal |
| `Hud.PointsTextIsNotEndGameText` | webpack-demo/src/index.ts:174 | the end-of-round summary is never mistaken for a running `Points: N` label |
| `Hud.PointsText` | webpack-demo/src/index.ts:137 | definition of the `Points: N` template literal (also written at line 222); its properties are stated by `PointsTextInjective` and `PointsTextIsNotEndGameText` |
| `Hud.EndGameText` | webpack-demo/src/index.ts:174 | definition of the end-of-round summary template literal; `PointsTextIsNotEndGameText` states that it never equals a running label |
| `Rules.NextPosition` | webpack-demo/src/index.ts:115-119 | definition of `UpdateCollectibleItemsPositions`; `StepAndBounds` states that it adds exactly 1 |
| `Rules.InBounds` | webpack-demo/src/index.ts:121-128 | definition of `CheckCollectibleItemsPosition`; `StepAndBounds` states that it is true iff the position is at most 360 |
| `Rules.Classify` | webpack-demo/src/index.ts:90-108 | definition of the branch the `forEach` body takes for one slot; `SlotTick` states when each outcome happens and that they exclude one another |
| `Rules.Collect` | webpack-demo/src/index.ts:136-137 | definition of the scoring in `CheckCollectibleItemsCollection`; `SlotTick`, `LastCatchShowsPoints` and `RoundAfterCounts` state its effect |
| `Rules.GameEnd` | webpack-demo/src/index.ts:167-178 | definition of `CheckGameEnd` on the record; `LastMissShowsSummary`, `RoundAfterInGame` and `MissesEndRoundOnEleventh` state its effect |
| `Rules.Disabled` | webpack-demo/src/index.ts:144-149 | definition of `CollectibleItemsDisable` on one slot; `SlotTick` and `StepSlotOk` state that it hides the slot at y = 0 with x kept |
| `Rules.SpawnedAt` | webpack-demo/src/index.ts:151-156 | definition of `SpawnCollectibleItems` on one slot; `SlotTick` and `StepSlotOk` state that it shows the slot at the drawn x with y kept |
| `Rules.Reset` | webpack-demo/src/index.ts:26-32 | definition of `ResetPlayerData` on the record; `ResetIdempotent` states its values, what it keeps and its idempotence |
| `Rules.Start` | webpack-demo/src/index.ts:219-224 | definition of `StartGame` on the record; `StartRound` states that the round goes on, the record is reset and the label shows the points from before the reset |
| `Rules.StepSlot` | webpack-demo/src/index.ts:90-108 | definition of a slot's change for each outcome; `SlotTick` and `StepSlotOk` state its effect per outcome and that it keeps the slot invariant |
| `Rules.StepRound` | webpack-demo/src/index.ts:131-178 | definition of the record's change for each outcome (a catch scores, a miss costs a life); `SlotTick` states its effect per outcome |
| `Rules.Hit` | webpack-demo/src/index.ts:133 | definition of the collision test of one slot, at its moved position, against the player's bounds; `SlotTick` states that a caught outcome is exactly an in-bounds hit |
| `Rules.Outcomes` | webpack-demo/src/index.ts:88-110 | definition of every slot's outcome in one tick of the `forEach`; it has one outcome per slot, and `StepSlotsOk` and `RoundAfterCounts` state what the tick does with them |
| `Rules.StepSlots` | webpack-demo/src/index.ts:88-110 | definition of the pool after one tick, slot by slot; it keeps the pool's length, and `StepSlotsOk` states that it keeps every slot's invariant |
| `Rules.RoundAfter` | webpack-demo/src/index.ts:88-110 | definition of the record after the outcomes, applied in pool order; `RoundAfterCounts`, `RoundAfterInGame`, `MissesEndRoundOnEleventh` and `SameTickAfterEnd` state its properties |
| `Engine.RoundEngine.HitNow` | webpack-demo/src/index.ts:133 | definition of the `CheckAABBCollisin(collectibleItemsList[id], playerModel)` call on the slot's current bounds; `CheckCollection` is specified by it |
| `Rules.StepAndBounds` | webpack-demo/src/index.ts:115-128 | for every position, the step adds exactly 1 and the bounds check is true iff the position is at most 360 (so 360 is in bounds and 361 is not); a slot inside the canvas leaves it exactly when it steps from 360 |
| `Rules.SlotTick` | webpack-demo/src/index.ts:88-110 | a valid slot has exactly one outcome per tick. Advancing moves it down by one and changes nothing else. Caught: hidden, points +1, label `Points: N`, lives, speed and round flag kept. Missed: hidden, lives −1, points and speed kept; if lives were at least 1 the label and round flag are kept, otherwise the round ends with the summary label. Missed happens exactly at y = 360; caught happens exactly below 360 on overlap. A dormant slot that wins the draw shows at the drawn x with y = 0; one that loses is left as it was |
| `Rules.StepSlotOk` | webpack-demo/src/index.ts:144-156 | one tick keeps a slot's invariant: hidden implies y = 0, shown implies 0 ≤ y ≤ 360 |
| `Rules.StepSlotsOk` | webpack-demo/src/index.ts:88-110 | one tick keeps the invariant of every slot in the pool and keeps the pool's length |
| `Rules.RoundAfterCounts` | webpack-demo/src/index.ts:88-110 | over a tick, points gained = catches and lives lost = misses; speed is unchanged |
| `Rules.RoundAfterInGame` | webpack-demo/src/index.ts:167-178 | after a tick the round is still on iff it was on before and either no slot was missed or the lives stayed at 0 or above |
| `Rules.LastCatchShowsPoints` | webpack-demo/src/index.ts:131-141 | after a catch the label shows the new point total |
| `Rules.LastMissShowsSummary` | webpack-demo/src/index.ts:167-178 | a miss that takes the lives below zero ends the round and shows the summary with the current points |
| `Rules.MissesEndRoundOnEleventh` | webpack-demo/src/index.ts:167-178 | from 10 lives, k consecutive misses leave 10 − k lives, keep the points, and end the round exactly when k ≥ 11 |
| `Rules.SameTickAfterEnd` | webpack-demo/src/index.ts:88-110 | the loop over the pool goes on after the round ends in that tick: a second miss takes the lives to −2, and a later catch still scores and overwrites the summary |
| `Rules.ResetIdempotent` | webpack-demo/src/index.ts:26-32 | the reset gives lives 10, points 0, speed 1; it leaves the round flag and the label alone; doing it twice equals doing it once |
| `Rules.StartRound` | webpack-demo/src/index.ts:219-224 | starting turns the round on with a reset record, and the label shows the points from before the reset |
| `Engine.RoundEngine.constructor` | webpack-demo/src/index.ts:39-48 | after loading, every slot is hidden at y = 0, the player is centred, the record has been reset and the start prompt is shown |
| `Engine.RoundEngine.ResetPlayerData` | webpack-demo/src/index.ts:26-32 | sets lives, points and speed as `Rules.Reset` says and touches nothing else |
| `Engine.RoundEngine.Disable` | webpack-demo/src/index.ts:144-149 | slot i becomes hidden at y = 0 with its x kept; the other slots are unchanged |
| `Engine.RoundEngine.Spawn` | webpack-demo/src/index.ts:151-156 | slot i becomes shown at the given x with its y kept; the other slots are unchanged |
| `Engine.RoundEngine.CheckGameEnd` | webpack-demo/src/index.ts:167-178 | one life less; below zero the round flag goes off and the summary is shown |
| `Engine.RoundEngine.CheckCollection` | webpack-demo/src/index.ts:131-141 | on overlap with the player, hides slot i and scores one point with the label updated; otherwise changes nothing |
| `Engine.RoundEngine.UpdateSlot` | webpack-demo/src/index.ts:90-108 | slot i and the record change exactly as that slot's outcome says (`Rules.StepSlot`, `Rules.StepRound`); nothing else changes |
| `Engine.RoundEngine.UpdateCollectibleItems` | webpack-demo/src/index.ts:86-112 | the pool becomes `StepSlots` of the old pool and the record becomes `RoundAfter` the outcomes in pool order; the slot invariant is kept |
| `Engine.RoundEngine.Tick` | webpack-demo/src/index.ts:192-197 | while the round is on, one update as above; otherwise nothing changes |
| `Engine.RoundEngine.StartGame` | webpack-demo/src/index.ts:219-231 | the record becomes `Rules.Start` of the old one, every slot is hidden at y = 0, and the invariant holds |
| `Engine.RoundEngine.PointerMove` | webpack-demo/src/index.ts:202-208 | the player's x becomes the pointer's x, unclamped, exactly while the round is on |
| `Engine.RoundEngine.PointerDown` | webpack-demo/src/index.ts:211-217 | starts a round exactly when none is on; otherwise nothing changes |

## Left out

- Canvas and application creation, DOM attachment, text styling and adding
  sprites to the stage (index.ts:1-8, 62-84): rendering plumbing over PIXI.js.
- Asynchronous asset loading (`LoadGameAssets`, `LoadPlayerAssets`): it is
  `await`-based I/O and may race with the first event. The constructor models
  only its result: a pool of the given size, every slot hidden at y = 0 and
  x = 0, and the player centred at x = 320. Events that arrive before loading
  completes, which would touch an undefined player sprite, are not modelled.
- `RandomizeSpawnerTime` and the spawn x: `Math.random` is not modelled,
  including the 0.01 probability and the `[0, window.innerHeight)` range of
  the spawn x, which uses the window's height as a horizontal range. Both
  arrive as per-tick parameters with no constraint on the x values.
- Sprite `getBounds`, anchors and texture sizes: replaced by the two bounds
  functions given at construction. The player's y is fixed at 260.
- Floating point: y is an integer, and x and rectangle coordinates are reals,
  not IEEE doubles.
- `Hud.DecimalText`: lives and points are JavaScript numbers (doubles) in the
  program, so `points++` stops changing past 2^53 and `${points}` prints
  totals of 1e21 and more in exponent form. The model's points are unbounded
  naturals always printed in plain decimal. Neither limit is reachable in
  play.
- The `Player` class of `./PlayerData` is not part of this model. Its fields
  appear only as `lives`, `points` and `speed`.
- The ticker's `delta` argument: the source never uses it.
