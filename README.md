# TrashGame session model

A Dafny model of the game logic in the `TrashGame` component, a small
catch-the-falling-trash game. Items are spawned at the top of a square play
area and fall a fixed amount on every tick. The player moves a bin (the
catcher) along the bottom to catch them. A catch scores 10 points. Whenever
the score, after a change, is a positive multiple of `level * 50`, the level
and the falling speed go up. One item that reaches the floor uncaught ends
the session.

Rendering, timers and page geometry are stripped away. What remains is a
state record changed one step at a time:

- `Geometry`: the bounding rectangle of the play area and of the catcher.
  Rectangles are parameters, and `None` stands for an element that cannot be
  measured.
- `Catcher`: the catcher's range [5, 95], the clamp, the pointer coordinate
  as a percentage of the play area, and the two ±10 step buttons.
- `Falling`: the items, spawning (`NewItem`, `Spawn`) and the move/collide
  tick. `Advance` moves one item down by the speed. `Overlaps` is the box
  test between an item's 30-pixel box and the catcher's rectangle. `FateOf`
  decides one item's fate: caught, lost through the floor, or kept. `Tick`
  is the map-then-filter over the list. `Where` lists, in order, the indices of the items with a given
  fate. `TickSpec` ties the tick's result to those index lists.
- `Leveling`: the level-up rule (`Fires`: the score is positive and a
  multiple of `level * 50`), the speed for each level, the level reached
  once the rule stops firing (`LevelAfter`) and the spawn interval.
- `TrashGame`: the class `Game`, whose fields are the seven state variables
  of the component. Its methods are the session start, the pointer move, the
  step buttons, one firing of each timer and the level-up effect. `Valid()`
  is the session invariant, and every method preserves it. The score is a
  non-negative multiple of 10. The speed is `2 + 0.5 * (level - 1)`. The
  catcher stays in [5, 95]. Every item on the board has `left` in [10, 90),
  `top` in [0, 100) and a kind in {0, 1, 2}. The session is never playing
  and over at once.

Timer callbacks and effect bodies become atomic methods. A step that only
runs while its timer is registered (spawn, move) checks the same condition
that registers the timer. `Math.random()` and `Date.now()` become method
parameters. `getBoundingClientRect()` becomes an optional rectangle
parameter.

Behaviour of the code that the model keeps as it is:

- Game-over does not clear the board. The tick that ends a session removes
  only the items it catches or loses through the floor. Every other item
  stays in the list, advanced, until the next start.
- The model assumes that the `setScore` calls made during one tick are
  batched, as listed under "## Left out". Under that assumption, one tick
  adds the points for all of its catches at once, and only then does the
  level rule run. A tick that catches two items can take the score from 40
  to 60, so the level skips the threshold at 50.
- The level rule runs again after every level change, so reaching 100 at
  level 1 raises the level twice (`Leveling.ThresholdExamples`).
- The step buttons are always rendered and are not guarded by the play
  state. They move the catcher even when no session is running.
- The spawn interval `800 - level * 50` is not clamped. It is zero or
  negative from level 16 on.

## Model

| member | source | states |
|---|---|---|
| `Catcher.Clamp` | js/pages/TrashGame.js:32 | the result always lies in [5, 95]; it is the input when the input is in range, and the nearer bound otherwise |
| `Catcher.PointerPercent` | js/pages/TrashGame.js:28-30 | the percentage is at least 0 exactly when the pointer is at or right of the play area's left edge, and at most 100 exactly when it is at or left of the right edge; the left edge gives 0 and the right edge gives 100 |
| `Catcher.PointerPercentMonotone` | js/pages/TrashGame.js:29-30 | a pointer further right never gives a smaller percentage, and a pointer strictly further right gives a larger one |
| `Catcher.StepLeft` | js/pages/TrashGame.js:180 | never below 5; from a position in [5, 95] it stays in range and does not move right; it moves a full 10 when there is room, and stops at 5 otherwise |
| `Catcher.StepRight` | js/pages/TrashGame.js:186 | never above 95; from a position in [5, 95] it stays in range and does not move left; it moves a full 10 when there is room, and stops at 95 otherwise |
| `Catcher.StepsUndoEachOther` | js/pages/TrashGame.js:178-191 | away from the edges, a left step and a right step cancel each other in either order |
| `Falling.NewItem` | js/pages/TrashGame.js:43-48 | a spawned item has the given id, top 0, left in [10, 90) and kind in {0, 1, 2} for any random draws in [0, 1) |
| `Falling.Spawn` | js/pages/TrashGame.js:41-49 | a spawn appends exactly one item at top 0; the items already there are unchanged and in the same order; well-formedness of the list is preserved |
| `Falling.FateOf` | js/pages/TrashGame.js:65-88 | an item is caught exactly when both rectangles are there and its box overlaps the catcher's, even when it also reaches the floor; an uncaught item is lost exactly when its new top is at least 100; an item kept has new top below 100 |
| `Falling.Tick` | js/pages/TrashGame.js:63-89 | kept, caught and lost items together make up the whole list, so the tick never lengthens it; without both rectangles nothing is caught |
| `Falling.Where` | js/pages/TrashGame.js:63-89 | the indices it lists are in range, strictly increasing and have the given fate, and every index with that fate is listed |
| `Falling.TickCountsFrom` | js/pages/TrashGame.js:71-86 | on every suffix, the caught and lost counts are the numbers of items whose fate is a catch or a floor loss |
| `Falling.TickKeptFrom` | js/pages/TrashGame.js:63-89 | on every suffix, the kept list holds, in order, exactly the items that fall on, each one advanced by the speed |
| `Falling.TickSpec` | js/pages/TrashGame.js:63-89 | survivors keep their relative order, and each one is its old item with `top + speed` and every other field unchanged; each catch is counted once; the tick reports a floor loss exactly when some item's fate is a floor loss |
| `Falling.TickKeepsWellFormed` | js/pages/TrashGame.js:65-88 | with a positive speed, every item the tick keeps is still in range (top in [0, 100)) |
| `Falling.FloorIsBelowInnerBin` | js/pages/TrashGame.js:67-86 | when the catcher lies inside the play area, an item whose new top reaches 100 cannot overlap it, so it is lost |
| `Leveling.SpeedAt` | js/pages/TrashGame.js:10 | the speed for any level is at least the start speed 2, so it is positive |
| `Leveling.LevelAfter` | js/pages/TrashGame.js:96-101 | the level reached by repeated runs of the rule is no lower than the start level; the rule fires at every level passed through and not at the final one |
| `Leveling.FiresOnlyOnThresholds` | js/pages/TrashGame.js:97 | the rule fires only on a positive multiple of 50 that is at least `level * 50` |
| `Leveling.SpawnInterval` | js/pages/TrashGame.js:50 | the interval is positive exactly when the level is at most 15; from level 1 on it is below 800; it is a multiple of 50 |
| `Leveling.SpawnIntervalShrinks` | js/pages/TrashGame.js:50 | every level up shortens the interval by at least 50 ms |
| `Leveling.ThresholdExamples` | js/pages/TrashGame.js:96-101 | score 50 at level 1 gives level 2; 60 at level 1 does not fire; 100 at level 1 gives level 3 |
| `TrashGame.Game.constructor` | js/pages/TrashGame.js:4-10 | the first state: score 0, level 1, speed 2, neither playing nor over, catcher at 50, no items |
| `TrashGame.Game.Start` | js/pages/TrashGame.js:15-23 | every field is back at its start value and the session is playing; the new state does not depend on the old one, so two starts in a row equal one |
| `TrashGame.Game.MoveBin` | js/pages/TrashGame.js:25-35 | nothing changes unless the session is playing, not over, and the play area is measured; otherwise the catcher goes to the clamped pointer percentage; the position is always in [5, 95] |
| `TrashGame.Game.PressLeft` | js/pages/TrashGame.js:180 | the position becomes `max(5, p - 10)` and the invariant holds |
| `TrashGame.Game.PressRight` | js/pages/TrashGame.js:186 | the position becomes `min(95, p + 10)` and the invariant holds |
| `TrashGame.Game.SpawnItem` | js/pages/TrashGame.js:37-53 | while playing, the list becomes the old list plus one new item at the end; otherwise it is unchanged |
| `TrashGame.Game.MoveAndCollide` | js/pages/TrashGame.js:55-94 | while playing, the list becomes the tick's kept list, the score grows by 10 per catch, and the session is over and no longer playing exactly when an item was lost; otherwise nothing changes |
| `TrashGame.Game.LevelUp` | js/pages/TrashGame.js:96-101 | when the score is positive and a multiple of `level * 50`, the level goes up by one and the speed by 0.5; otherwise both are unchanged |
| `TrashGame.Game.SettleLevel` | js/pages/TrashGame.js:96-101 | the repeated runs of the effect leave the level at `LevelAfter` of the old level, the speed matching it, and the rule no longer firing |
| `TrashGame.UncaughtItemEndsSession` | js/pages/TrashGame.js:41-89 | after a start, one spawn and 50 ticks without a catch at speed 2, the session is over, no longer playing, the item is gone and the score is 0 |

## Left out

- Rendering, styling and the colour for each kind (js/pages/TrashGame.js:118-198) are presentation only.
- `setInterval`/`clearInterval` and listener registration are not modelled. Each timer callback, listener and effect body is one atomic method. A firing that lands between a state change and the teardown of its timer is not modelled.
- React state batching is modelled in one fixed way. The setters that one tick calls are applied together, and the level effect (`SettleLevel`) runs after them. The component does not fix its React version; a version that re-renders after each `setScore` of a tick would run the level rule between catches, and that behaviour is not modelled.
- `Math.random()` and `Date.now()` are method parameters. Item ids are not unique, and the model does not claim they are.
- `getBoundingClientRect()` geometry is an optional rectangle parameter. Browser layout, and how the catcher's rectangle follows `position`, are not modelled.
- Positions and speed are `real`. IEEE rounding is not modelled.
- Game.MoveBin: requires a play area of positive width. With zero width the source computes an infinity or NaN percentage, which `real` cannot represent.
- The touch handler's `e.touches[0].clientX` is reduced to the `clientX` parameter of `MoveBin`.
- The browser's handling of a spawn interval of zero or less (level 16 and up) is not modelled. `SpawnInterval` only gives the number.
