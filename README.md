# Breakout game logic in Dafny

This project models the game-logic layer of a browser Breakout game (`main.js`, with the
`clamp` helper of `utils.js`) and proves properties of it. The game state is a paddle, three
lists (balls, bricks, particles) and four counters: total score, level score, lives and
level (1 to 5). A per-frame `update` changes this state in place. It moves the paddle,
steps every ball, breaks bricks and ages particles. Around it sit:

- the level generator (`generateLevel`, `makeBall`, `speedFactorForLevel`);
- the flow operations (`nextLevel`, `resetGame`);
- the two buttons of the lose overlay;
- launching and resizing.

Modules:

- `Utils` (utils.dfy): `clamp`, as `Max(a, Min(b, x))`.
- `Collision` (collision.dfy): `aabb` and `circleRect` as predicates on reals, with lemmas
  about what they mean geometrically.
- `Entities` (entities.dfy): balls, bricks, particles and the paddle as datatypes.
- `Levels` (levels.dfy): the speed factor, brick count, grid shape, brick layout (as a
  specification function), `makeBall`, the balls a level starts with, and the level that
  follows a cleared one.
- `Physics` (physics.dfy): the per-ball steps as functions (wall reflection, paddle bounce,
  brick bounce). It also holds the specification functions of the reverse brick scan
  (`Survivors`, `ScanBall`), of the particle pass (`Aged`) and of the whole ball loop
  (`FrameBricks`, `FrameBalls`: each ball of the frame's starting list takes its turn among
  the bricks the balls before it left), with lemmas about them.
- `Breakout` (game.dfy): class `Game`. Its fields are the state variables of main.js and its
  methods change them in place. The nested placement loop, the ball loop, the reverse
  brick scan and the reverse particle pass are `while`/`for` loops. Each is proved against
  a specification function above: the placement loop against `LevelBricks`, the brick scan
  against `Survivors` and `ScanBall`, the particle pass against `Aged`, and the ball loop
  against `FrameBricks` and `FrameBalls`.

`Math.random` is a parameter in two places:

- `leftward` is the coin flip that picks the sign of a new ball's horizontal speed;
- `sparkLife` is the drawn life of burst sparks. It is one draw per `update` call, which
  `update` requires to be positive; the source draws it from [0.55, 1.15).

Keyboard state becomes the parameters `leftHeld`/`rightHeld`, and the frame time becomes `dt`.

The `for (const b of balls)` loop of `update` goes over the list that existed when the loop
started, even after a full loss has replaced `balls` with one fresh ball. `StepBalls` models
this by iterating a snapshot with a `replaced` flag. After the replacement, the remaining
old balls still move, bounce and break bricks, but their new states are no longer written
into `balls`.

Odd columns of bricks are nudged sideways on odd levels (`xoff` is 0.5 exactly when `n` is
odd, main.js:163), and `BrickInCell` does the same.

## Model

| member | source | states |
|---|---|---|
| Utils.Clamp | utils.js:25 | the result is never below a; when a <= b it lies in [a, b]; it is x when x is in [a, b], a when x < a, b when x > b >= a |
| Utils.ClampIdempotent | utils.js:25 | clamping a clamped value changes nothing |
| Utils.ClampMonotone | utils.js:25 | x <= y implies clamp(x) <= clamp(y) |
| Collision.Aabb | main.js:388-390 | the overlap test of two boxes: each starts strictly before the other ends, on both axes |
| Collision.CircleRect | main.js:391-396 | a circle touches a box exactly when the box point nearest its centre (the centre clamped into the box) is within its radius |
| Collision.AabbSymmetric | main.js:388-390 | the overlap test gives the same answer with the two boxes swapped |
| Collision.AabbCommonPoint | main.js:388-390 | for boxes of positive size, aabb holds exactly when some point lies strictly inside both boxes (both directions) |
| Collision.CircleRectCentreInside | main.js:391-396 | a circle whose centre lies in the box always touches it |
| Collision.CircleRectNear | main.js:391-396 | a touching circle has its centre within its radius of the box on both axes |
| Levels.SpeedFactor | main.js:141 | the speed factor is 1 on level 1 and at least 1 on every level |
| Levels.SpeedFactorIncreasing | main.js:141 | later levels have a strictly larger speed factor |
| Levels.BrickCount | main.js:154 | a level has at most 30 bricks, at least 10, and exactly 30 from level 5 on |
| Levels.BrickCountGrowth | main.js:154 | below the cap each level has exactly five bricks more than the previous one |
| Levels.CeilSqrtFrom | main.js:157 | the result is the least c >= from with c * c >= count |
| Levels.Cols | main.js:157 | Math.ceil(Math.sqrt(count)) as the least c with c * c >= count: (c - 1)^2 < count <= c^2 |
| Levels.Rows | main.js:158 | the number of rows is count / cols rounded up |
| Levels.GridHoldsCount | main.js:157-176 | rows * cols >= count, so every brick gets a cell; the last row is not empty; rows <= cols |
| Levels.BrickWidth | main.js:159-160 | a brick is at least 50 wide |
| Levels.BrickInCell | main.js:163-173 | the brick of row r, column c: at the margin plus c widths and r heights with a 10 gap, odd columns nudged by 6 on odd levels and odd rows by 6 on levels divisible by 3, 22 high, one hit point, palette index (r + c) mod 4 |
| Levels.LevelBricks | main.js:154-176 | level n has exactly BrickCount(n) bricks, the i-th in cell (i / cols, i mod cols) |
| Levels.LevelBrickShape | main.js:154-176 | every brick of a level is at least 50 wide, 22 high, with hp 1, inside the top-left margin, in a row below `rows`, coloured (row + col) mod 4 < 4 |
| Levels.CellOf | main.js:166-175 | the i-th brick placed is the brick of cell (r, c) with i == r * cols + c and c < cols |
| Levels.LevelBricksDisjoint | main.js:163-175 | no two bricks of a level overlap (aabb is false for every pair), nudges included |
| Levels.CellsApart | main.js:170-171 | bricks of two different grid cells do not overlap |
| Levels.RowsApart | main.js:171 | a brick of an earlier row ends above every brick of a later row |
| Levels.ColumnsApart | main.js:170 | a brick of an earlier column ends left of every brick of a later column |
| Levels.MakeBall | main.js:204-215 | the new ball is not launched, has radius 8, sits at (W/2, paddle.y - 18), has vy == -280 * k < 0 and abs(vx) == 240 * k, with vx < 0 exactly when the coin says left |
| Levels.LevelBalls | main.js:179-201 | one resting ball from makeBall, plus on level 5 two launched balls either side of the centre, the left one going left, the right one going right, both going up at the same speed |
| Levels.NextLevelNumber | main.js:407-408 | the next level is in 1..5, differs from the current one, and is 1 after level 5 |
| Levels.LevelAfterCycle | main.js:405-411 | after k cleared levels, level l has become ((l - 1 + k) mod 5) + 1 |
| Physics.Integrate | main.js:303-308 | the ball keeps its size and launch state and its speed on each axis; a ball that stays inside moves by v * dt with its velocity unchanged; one that crosses the left (right) wall is put against it with vx negated; one that crosses the ceiling is put against it with vy negated; its right edge ends inside the world, its top edge below the ceiling, and its left edge inside when the world is at least one ball wide |
| Physics.PaddleBounce | main.js:321-328 | the ball is put 0.1 above the paddle with x kept, vx becomes hit * 330 * k where hit is the offset from the paddle centre over half the paddle width, and vy becomes -max(230 * k, abs(vy)); so it goes up at least 230 * k fast and never slower than before, right exactly when it hit right of the centre, and over the paddle at most 330 * k sideways |
| Physics.HitsBrick | main.js:333 | a ball hits a brick when its bounding square (side 2r around the centre) overlaps the brick, as aabb says |
| Physics.BrickBounce | main.js:334-337 | the position is kept, only one velocity component may change and only its sign, and the ball is turned away from the brick along the axis of the larger centre offset |
| Physics.Deflect | main.js:331-340 | one step of the reverse scan on the ball: a brick it hits bounces it as BrickBounce says, any other brick leaves it as it was |
| Physics.Survivors | main.js:331-340 | the bricks a ball leaves standing are those its square misses, in their order, never more than there were |
| Physics.SurvivorsSubMultiset | main.js:331-340 | the brick scan never adds a brick: what is left is a sub-multiset of what was there |
| Physics.SurvivorsExact | main.js:331-340 | a brick is left exactly when it was there and the ball's square misses it |
| Physics.SurvivorsEmpty | main.js:331-345 | no brick is left exactly when the ball's square overlaps every brick |
| Physics.ScanBall | main.js:331-337 | the brick scan keeps the ball's position, size and launch state |
| Physics.ScanBallKeepsSpeed | main.js:334-337 | the brick scan keeps the ball's speed on each axis, and a ball that misses every brick comes out unchanged |
| Physics.Burst | main.js:221-239 | a burst is 27 particles |
| Physics.BurstShape | main.js:221-239 | every particle of a burst starts at the burst point, and alive when the drawn life is positive |
| Physics.Bursts | main.js:343 | the particles of k bursts at one point, in order, 27 each; BurstsAlive states that they all start alive |
| Physics.BurstsAlive | main.js:221-239 | every particle of any number of bursts starts alive |
| Physics.StepParticle | main.js:356 | one particle step moves it by its velocity, damps the velocity by 0.99 and takes dt off its life, keeping its full life |
| Physics.Aged | main.js:354-358 | the particle pass never adds particles |
| Physics.AgedAlive | main.js:354-358 | after the particle pass every particle has life > 0 and is a stepped particle of before |
| Physics.AgedKeeps | main.js:354-358 | a particle whose life exceeds dt survives the pass |
| Physics.PreScan | main.js:303-328 | a launched ball just before the brick scan: moved and reflected by Integrate, then bounced by PaddleBounce exactly when circleRect says it touches the paddle |
| Physics.AllBelow | main.js:312-313 | `stillIn.length === 0`: no ball of the list has its top edge at or above the floor |
| Physics.BallBricks | main.js:302-340 | the bricks one ball leaves in its turn: all of them for a resting ball, Survivors(bricks, PreScan(ball)) for a launched one; BallBricksExact states which |
| Physics.BallAfter | main.js:302-340 | one ball after its turn: on the paddle centre 18 above it if resting, ScanBall(bricks, PreScan(ball)) if launched; BallAfterStepped states what it keeps |
| Physics.BallTurn | main.js:302-340 | one ball's turn: a resting ball leaves the bricks alone and sits on the paddle centre 18 above it; a launched one leaves Survivors(bricks, pre) and becomes ScanBall(bricks, pre), pre being PreScan of it |
| Physics.BallBricksExact | main.js:331-340 | a brick is left after one ball's turn exactly when it was there and the ball rests or its square misses the brick just before the scan (both directions) |
| Physics.BallAfterStepped | main.js:302-337 | after its turn a resting ball sits on the paddle centre; a launched one stays launched, keeps its radius and ends inside the side walls |
| Physics.FrameBricksStep | main.js:301-349 | taking ball j's turn turns the bricks left by the first j balls into those left by the first j + 1 |
| Physics.FrameBricks | main.js:301-349 | the bricks left once every ball of the starting list took its turn in order, each among those the balls before it left; FrameBricksExact states which |
| Physics.FrameBricksStaysEmpty | main.js:345-348 | once the first j balls have cleared every brick, the whole frame leaves none |
| Physics.FrameBricksSubMultiset | main.js:301-349 | the ball loop never adds a brick: what is left is a sub-multiset of what was there |
| Physics.FrameBricksExact | main.js:301-349 | a brick is left after the ball loop exactly when it was there and every ball of the starting list spares it (both directions) |
| Physics.FrameBricksResting | main.js:302 | balls resting on the paddle break no bricks |
| Physics.FrameBalls | main.js:301-349 | the ball loop gives one new state per ball of the starting list |
| Physics.FrameBallsStep | main.js:301-349 | taking ball j's turn appends that ball's new state, taken among the bricks the first j balls left |
| Physics.FrameBallsAt | main.js:301-349 | ball k after the loop is ball k after its own turn among the bricks the balls before it left |
| Physics.FrameBallsStepped | main.js:302-337 | every ball after the loop is a step of the same ball before: resting ones on the paddle centre, launched ones launched, of the same size and inside the side walls |
| Physics.LossAt | main.js:303-317 | ball k costs a life when it is launched and, once moved and reflected, it and every ball of the list the check sees (earlier balls after their turns, later ones untouched) are below the floor |
| Physics.LossAmong | main.js:301-349 | some ball among the first n, reached while bricks stand, costs a life; LossAmongExists states it as an existential |
| Physics.LossAmongExists | main.js:301-349 | a life is lost among the first n balls exactly when some ball k < n, reached while bricks were standing, satisfies LossAt (both directions) |
| Physics.LossAmongSettles | main.js:343-346 | once the bricks are gone after ball j, the frame is over and no later ball adds a loss |
| Physics.SoleBallLost | main.js:311-317 | a frame with one launched ball that leaves through the floor loses a life |
| Breakout.Game.constructor | main.js:87-90 | a session starts on level 1 with three lives, no score, the paddle centred 60 above the floor, and level 1 generated |
| Breakout.Game.GenerateLevel | main.js:144-202 | the lose overlay is hidden, the level score is 0, the bricks are LevelBricks(n) and the balls LevelBalls(n) |
| Breakout.LayOutBricks | main.js:154-176 | the nested placement loop produces exactly LevelBricks(n, W) |
| Breakout.LayOutRow | main.js:168-175 | one row of the inner loop places the next min(cols, remaining) bricks of LevelBricks in order |
| Breakout.PlaceBrick | main.js:170-173 | the statements placing one brick compute exactly BrickInCell(n, bw, r, c) |
| Breakout.Game.NextLevel | main.js:405-411 | the level advances with 5 wrapping to 1 and the new level is generated |
| Breakout.Game.ResetGame | main.js:399-404 | back to level 1 with three lives; the total score is zeroed exactly when the reset is hard |
| Breakout.Game.OnAdvance | main.js:279-285 | the advance button does a hard reset when no lives are left and otherwise goes to the next level keeping lives and total score |
| Breakout.Game.OnRetry | main.js:286-291 | the retry button regenerates the current level and keeps lives and total score |
| Breakout.Game.Launch | main.js:245-249 | every ball becomes launched and nothing else about it changes |
| Breakout.Truncate | main.js:95-96 | `x | 0` rounds toward zero: the result is within 1 of x, on the side of zero |
| Breakout.Game.Resize | main.js:93-100 | the world takes the canvas size truncated to whole pixels |
| Breakout.Intent | main.js:296 | the arrow keys give -1 for left alone, +1 for right alone, and 0 when both or neither are held |
| Breakout.Game.MovePaddle | main.js:296-298 | the paddle moves by direction * speed * dt, is clamped into [0, W - w], and nothing else about it changes |
| Breakout.Game.CountInside | main.js:312 | the number of balls not below the floor is 0 exactly when every ball is below it |
| Breakout.Game.CheckLoss | main.js:311-317 | a life is lost (exactly one), the balls become one fresh resting ball and the lose overlay shows exactly when this ball and every ball in the list are below the floor; otherwise nothing changes |
| Breakout.Game.HitBricks | main.js:331-348 | the reverse scan leaves exactly Survivors(bricks, ball), bounces the ball as ScanBall says, adds 10 to both scores and one burst per removed brick, and reports clearing exactly when the last brick went |
| Breakout.Game.ScanBricks | main.js:331-348 | the scan leaves exactly Survivors(bricks, ball) and makes the ball ScanBall(bricks, ball), keeping its position, size and launch state; each removed brick adds 10 to both scores and 27 live particles, and clearing is reported exactly when no brick is left |
| Breakout.Game.TakeTurn | main.js:301-349 | ball j's turn, stated against the frame: given the bricks and balls after the first j turns, it leaves FrameBricks and FrameBalls of the first j + 1 balls, and a loss has happened exactly when LossAmong holds for the first j + 1 |
| Breakout.Game.StepBall | main.js:302-349 | one ball of the loop: a resting one leaves the bricks alone and is written back on the paddle centre; a launched one leaves Survivors(bricks, pre) with pre = PreScan(ball) and is written back as ScanBall(bricks, pre) while `balls` is still the loop's list; it loses a life exactly when it is launched and MoveBall's loss condition holds, at most one, and after a full loss the list is one fresh ball under a shown overlay |
| Breakout.Game.MoveBall | main.js:303-328 | the part of a launched ball's turn before the scan yields PreScan(ball), writes back the wall-reflected ball while `balls` is the loop's list, and loses a life exactly when the moved ball and every ball of the list the check sees (the one fresh ball after an earlier loss, else the loop's list with this ball moved) are below the floor; after a loss the list is one fresh ball and the overlay shows |
| Breakout.Game.StepBalls | main.js:301-349 | the ball loop over the starting list leaves exactly FrameBricks(bricks, balls), ends early exactly when that is empty, loses a life exactly when LossAmong holds for the whole starting list (at most one per ball), and, unless a full loss replaced the list, leaves the balls FrameBalls(bricks, balls); both scores gain 10 and the particles 27 per removed brick |
| Breakout.Game.AgeParticles | main.js:354-358 | the reverse particle pass leaves exactly Aged(particles, dt) |
| Breakout.Game.Update | main.js:294-359 | a frame keeps the game invariant, moves and clamps the paddle, loses a life exactly when LossAmong holds for the frame's starting list (at most one per ball), and either clears the level exactly when FrameBricks of the frame is empty (next level generated, total score + 10 per brick, level score 0, particle pass skipped), or leaves exactly FrameBricks(bricks, balls) with both scores + 10 per removed brick; after a loss there is one fresh ball under a shown overlay, and without one the balls are FrameBalls(bricks, balls); unless the level cleared, the particles are Aged of a list with 27 added per removed brick |
| Breakout.Game.Valid | main.js:87-90 | between frames: level in 1..5, both scores multiples of 10 with level score <= total, lives <= 3, one to three balls, some brick left, every particle alive, and the paddle 120 by 16 moving at 560 |

## Left out

- Rendering is not modelled: WebGL, shaders, buffers, `rect`, `render` and `drawBackground` are foreign graphics calls.
- The DOM is not modelled: HUD and title text, overlay class changes and their `setTimeout` animations are UI. The lose overlay is kept as the flag `loseShown`.
- The win overlay is not modelled. `nextLevel` shows it and `generateLevel` hides it straight away; that behaviour is UI only.
- The event loop is not modelled: event listeners, `requestAnimationFrame` and the `dt` computation are left out. Key state and `dt` are parameters of `Update`, and `Launch` is the Space/click handler.
- Breakout.Game.Update: one `leftward` coin and one `sparkLife` draw serve the whole frame. The source draws them afresh for each new ball and each spark.
- Physics.Burst: sparks have zero velocity and the shared drawn life. Random angles, speeds, sizes, rotations and colours are cosmetic floats and trigonometry.
- Particle `size`, `color` and `rot` fields are not in the model, and neither is brick colour as RGB; the palette index is kept.
- Floating-point rounding is not modelled: every JS double is a Dafny `real`. `Math.ceil(Math.sqrt(count))` is the least integer whose square reaches `count`, which is what the double computation gives for counts up to 30.
- Breakout.Truncate: `| 0` also wraps sizes beyond 2^31, which the model does not capture.
- Breakout.Game.Update: the particles after a frame are stated as Aged of some list with 27 added per removed brick, not as an exact list; which old particles and which burst points make up that list is not stated. Particles are cosmetic.
- The shader helpers of utils.js (`loadShader`, `createProgram`) are foreign graphics calls.
