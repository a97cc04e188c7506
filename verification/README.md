# Boomshine round simulation in Dafny

Boomshine is a browser game. Coloured circles drift around a canvas. The
player clicks one circle to set it off. An exploding circle sets off every
Normal circle it touches, and those set off their neighbours in turn. A round
is won when enough circles have been set off by the time the reaction dies
out.

This project models the game logic of `js/main.js` as pure functions over
immutable data:

- `options.dfy`: module `Options`, the `Option` type returned by the click
  hit test.
- `circles.dfy`: module `Circles`.
  - The `Circle` record and the five life-cycle stages
    Normal → Exploding → MaxSize → Imploding → Done.
  - The constant tables.
  - `makeCircles`.
  - The per-frame step of one circle from `moveCircles`: the stage-specific
    update, then the wall bounce with its second `move`.
- `collisions.dfy`: module `Collisions`, the chain-reaction pass of
  `checkForCollisions`. It is written as the source's two nested loops
  (source index `i` outer, target index `j` inner), so propagation within one
  pass depends on index order exactly as in the source.
- `game.dfy`: module `Game`.
  - The phase (`GAME_STATE`) and the score bookkeeping.
  - The end-of-round decision, `reset`, `checkCircleClicked` and
    `doMousedown`.
  - The best-score update done while drawing the HUD.
  - One frame of `update`.
  - The predicate `Valid`, which describes every state reachable from the
    reset that `init` makes. Lemmas prove that this first reset establishes
    it and that frames and clicks preserve it.

Things the model takes from outside:

- Circle geometry comes from `utilities.js`, which is not part of this
  model. The overlap test `circlesIntersect` is the parameter `overlap`.
  `pointInsideCircle` at the click point is the parameter `contains`.
- The random draws of `makeCircles` (`getRandom`, `getRandomUnitVector`) are
  the parameter `spawn`, which gives the draws for circle `i`.
- The frame time `dt` is a parameter.
- Width, height, start and maximum radius, and explosion and implosion speed
  are a `Config` parameter, because a window resize rewrites them.

Source facts the model keeps:

- The enum key for the fourth stage is spelled `IMPLOADING`. The code writes
  and matches `IMPLODING`, which is `undefined`. That value still acts as a
  fifth, distinct stage, so it is the constructor `Imploding`. The end-of-round
  test and the collision pass treat it as active.
- `NUM_CIRCLES_END` is declared twice, as 20 and then 33. The later value
  wins, so the model uses 33.
- A stage change is checked only after the full `speed * dt` step. The radius
  can therefore overshoot `MAX_RADIUS` and undershoot `MIN_RADIUS`, even
  below zero (`RadiusLeavesBounds`), and no radius bound is claimed.
- A wall hit negates one direction component and then moves the circle again
  in the same frame. For a Normal circle hitting a side wall, the horizontal
  step cancels out and the vertical step is taken twice
  (`SideBounceMovesTwice`).
- Done circles still go through the bounce checks. In reachable states their
  speeds are zero, so they stay put (`SetOffCirclesStayPut`).
- A click on a paused game unpauses it and calls `update()` directly, so one
  frame runs straight away. `Mousedown` models this as `Frame`.
- The score goal `parseInt(numCircles * 0.45)` is the integer
  `numCircles * 45 / 100`. This matches the floating point value for every
  reachable circle count.
- The code has no error for spawn bounds that are too small. `getRandom` is
  called with whatever bounds result, so the model has no such error either.

## Model

| member | source | states |
|---|---|---|
| Circles.MakeCircles | js/main.js:273-297 | exactly `num` circles; circle i is Normal with lifetime 0, the start radius, speed `MAX_SPEED`, colour `colors[i % 8]`, and position and direction from its own random draws |
| Circles.ColoursRepeat | js/main.js:288 | in a fresh batch, circle i and circle i + 8 have the same colour |
| Circles.NeighbourColoursDiffer | js/main.js:288 | in a fresh batch of any size, consecutive circles have different colours |
| Circles.Move | js/main.js:266-271 | `move` displaces the circle by direction·speed·dt on each axis and changes nothing else; a circle with zero direction stays where it is |
| Circles.HitLeftRight | js/main.js:186-190 | a side hit is reported exactly when the circle is not wholly between the two side walls, radius included |
| Circles.HitTopBottom | js/main.js:193-197 | a floor or ceiling hit is reported exactly when the circle is not wholly between them, radius included |
| Circles.Advance | js/main.js:213-231 | the stage-specific update: a Normal circle moves; an Exploding one grows by `EXPLOSION_SPEED*dt` and is MaxSize iff it reaches `MAX_RADIUS`; a MaxSize one ages by dt and is Imploding iff it reaches `MAX_LIFETIME`; an Imploding one shrinks by `IMPLOSION_SPEED*dt` and is Done iff it is at most `MIN_RADIUS`; a Done one is unchanged; only a Normal circle changes position, and no stage changes direction, speed or colour |
| Circles.Bounce | js/main.js:233-240 | the side test is made on the circle as it is; a hit negates xSpeed and moves it once. The floor test is then made on the circle after that, and a hit negates ySpeed and moves it again. The position is the start plus exactly those moves; state, radius, lifetime, speed and colour are kept; a circle with zero speed is left as it was |
| Circles.CornerBounce | js/main.js:233-240 | a Normal circle that hits a side wall and then, after the side bounce, the floor or ceiling turns round on both axes, ends one step back in x and one step forward in y |
| Circles.RadiusLeavesBounds | js/main.js:217-228 | with the default constants and dt = 1/12, an Exploding circle of radius 44.5 ends above `MAX_RADIUS` and an Imploding circle of radius 3 ends Done with a negative radius |
| Circles.StepCircle | js/main.js:213-240 | the per-stage rules: a Normal circle stays Normal; Exploding grows by `EXPLOSION_SPEED*dt` and is MaxSize iff the new radius is at least `MAX_RADIUS`; MaxSize ages by dt and is Imploding iff lifetime reaches `MAX_LIFETIME`; Imploding shrinks by `IMPLOSION_SPEED*dt` and is Done iff radius is at most `MIN_RADIUS`; Done stays Done; the stage moves forward by at most one; a zero-speed circle does not move |
| Circles.NormalStepWithoutWall | js/main.js:266-268 | a Normal circle that meets no wall moves by direction·speed·dt and keeps its direction |
| Circles.SideBounceMovesTwice | js/main.js:233-236 | on a left/right hit xSpeed is negated and `move` applied again in the same frame, so x returns to its start and y takes two steps |
| Circles.FloorBounceMovesTwice | js/main.js:237-240 | on a top/bottom hit ySpeed is negated and `move` applied again, so y returns to its start and x takes two steps |
| Circles.MoveCircles | js/main.js:209-242 | every circle takes its own step; which circles are Normal is unchanged, settled circles stay settled, and the number of set-off circles is unchanged |
| Collisions.Explode | js/main.js:435-436 | a set-off circle is Exploding with both direction components zero, and keeps position, radius, lifetime and colour |
| Collisions.InnerPass | js/main.js:427-439 | the inner loop sets off exactly the Normal circles at later indices, other than the source itself, that the source overlaps; the score grows by the number set off |
| Collisions.OuterPass | js/main.js:423-440 | the outer loop changes nothing but Normal circles turning Exploding with zero speed, and the score grows by exactly the number of such changes |
| Collisions.Collide | js/main.js:421-440 | the whole pass only sets off Normal circles, each at most once, and raises the round score by the count of newly set-off circles |
| Circles.NonNormal | js/main.js:415-437 | the number of set-off circles is at most the number of circles, and zero exactly when every circle is Normal |
| Collisions.Transitions | js/main.js:435-437 | the number of circles turned from Normal to set off is at most the number of circles, and zero exactly when no circle was turned |
| Collisions.TransitionsCount | js/main.js:435-437 | when the only changes are Normal circles being set off, the number of transitions equals the growth in set-off circles |
| Collisions.CollideScoresTransitions | js/main.js:435-437 | the round score after a pass is the score before plus the number of circles the pass turned from Normal to Exploding |
| Collisions.OuterPassSound | js/main.js:423-440 | every circle the outer loop sets off overlaps some other circle at a source index that is active |
| Collisions.OuterPassComplete | js/main.js:423-440 | a circle still Normal after the outer loop overlaps no circle that was active from the start |
| Collisions.CollideSoundAndComplete | js/main.js:423-440 | the whole pass: each newly set-off circle has an active overlapping witness other than itself, and no remaining Normal circle overlaps an originally active one |
| Collisions.SkipInactive | js/main.js:423-426 | the outer loop passes over Normal and Done source circles without effect |
| Collisions.ChainUpwardsInOnePass | js/main.js:423-440 | for any active circle i with only Normal circles above it, where each link once set off overlaps the next, one pass sets off every circle above i |
| Collisions.ChainDownwardsWaits | js/main.js:423-440 | when the only active circle i overlaps only its lower neighbour, one pass sets off exactly that neighbour and scores one, even if the neighbour once set off would overlap the circle below it |
| Game.ScoreGoal | js/main.js:475 | the goal is the floor of 45% of the circle count |
| Game.Outcome | js/main.js:455-457 | a finished round repeats iff the score is below the goal, ends the game iff the goal is met and there are more than 33 circles, and otherwise is a round over |
| Game.CheckForCollisions | js/main.js:421-461 | nothing happens outside the Exploding phase; otherwise the pass only sets off Normal circles and scores each; the phase leaves Exploding iff every circle is Normal or Done, picking RepeatLevel, End or RoundOver by score and circle count; the total grows by the round score exactly when the outcome is not RepeatLevel |
| Game.TopmostHit | js/main.js:407-409 | returns the highest index whose circle contains the click point, or none if no circle does |
| Game.CheckCircleClicked | js/main.js:406-419 | a click hitting no circle changes nothing; otherwise the topmost hit circle is set off, the phase becomes Exploding and the round score rises by one; circle count, goal and total never change |
| Game.Reset | js/main.js:464-478 | from End: 6 circles and total 0; from RepeatLevel: same circle count and total; otherwise six more circles; always round score 0, goal the floor of 45% of the count, that many fresh Normal circles, phase Default |
| Game.Mousedown | js/main.js:384-404 | a paused click unpauses and runs one frame; in Exploding nothing changes; on an end-of-round screen the click is exactly a reset; on an aiming screen it is exactly the hit test, which can only enter Exploding with one more point |
| Game.UpdateBest | js/main.js:332-335 | the best score becomes the maximum of itself and the total, except on the RepeatLevel screen, where the game is unchanged; nothing else changes |
| Game.Frame | js/main.js:122-156 | a paused frame changes nothing; otherwise the circle count, goal and pause flag are unchanged, scores only grow, and the round score grows only in the Exploding phase |
| Game.FrameOneStage | js/main.js:209-240 | within one frame, movement and collisions together move a circle forward by at most one life-cycle stage and never back |
| Game.ValidBounds | js/main.js:455-478 | in a reachable state the round score is at most the circle count, which is at most 36, and the goal is at most 16 |
| Game.FirstResetIsValid | js/main.js:65-95 | the reset `init` makes from the Begin screen with the starting count gives a reachable state with twelve circles |
| Game.ResetAfterWinIsValid | js/main.js:464-478 | resetting from the End screen gives a reachable state |
| Game.MovePreservesValid | js/main.js:209-242 | moving the circles keeps the reachable-state invariant |
| Game.CollisionsPreserveValid | js/main.js:421-461 | the collision pass and round decision keep the reachable-state invariant, including round score = number of circles set off |
| Game.FramePreservesValid | js/main.js:122-156 | a whole frame keeps the reachable-state invariant |
| Game.ClickPreservesValid | js/main.js:406-419 | a hit test on an aiming screen keeps the reachable-state invariant |
| Game.ResetPreservesValid | js/main.js:464-478 | a reset from any end-of-round screen keeps the reachable-state invariant |
| Game.MousedownPreservesValid | js/main.js:384-419 | every click keeps the reachable-state invariant |
| Game.ClickMovesForward | js/main.js:406-419 | outside the end-of-round screens, a click in a reachable state never sends a circle back in its life cycle |
| Game.SetOffCirclesStayPut | js/main.js:412-413 | in a reachable state a circle that has been set off never changes position again |
| Game.QuietPass | js/main.js:423-426 | with no active circle the collision pass changes nothing |
| Game.SixCircleRoundSucceeds | js/main.js:451-459 | a six-circle round (goal 2) that settles with three circles popped becomes RoundOver and adds 3 to the total |

## Left out

- Canvas drawing is rendering only and is left out. This covers `drawCircles`, the text and overlays of `drawHUD`, `drawPauseScreen`, `fillText`, the circle `draw` closure and the drop-shadow coordinates.
- `init`, `resizeGameWindow`, `saveHighScore` and the localStorage load are browser set-up and I/O. Only the `reset` that `init` makes from the Begin phase is modelled (`FirstResetIsValid`); it gives the first round 12 circles rather than `NUM_CIRCLES_START`.
- The best score read from localStorage is a string or null in the source. Here it is an integer.
- `calculateDeltaTime` reads the wall clock and uses `clamp` from `utilities.js`, so `dt` is a parameter with no range constraint.
- `pauseGame`, `resumeGame`, `requestAnimationFrame`, `cancelAnimationFrame` and the audio calls are scheduling and I/O. Only the `paused` flag is modelled.
- The keyboard cheat at the end of `update` is debug code driven by key state, and `js/keys.js` is only keyboard event wiring.
- The geometry of `circlesIntersect` and `pointInsideCircle` lives in `utilities.js`, which is not part of this model. Both are abstract parameters.
- The ranges of `getRandom` and `getRandomUnitVector` are not modelled. Spawn positions are therefore not claimed to lie inside the margins, and directions are not claimed to be unit vectors.
- Reset: does not model the random choice of background and font colour made when a level advances.
- Floating point rounding is not modelled. Positions, radii, lifetimes and `dt` are exact reals.
