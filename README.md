# Fruit-catching game: a verified model of its core

`gametest2.py` is a GLUT arcade game. Fruits, bombs and eggs fall from the top of an 800×600 window, and the player moves a basket along the bottom to catch them:

- A caught fruit scores 1, 2 or 3 points.
- Every third fruit missed in a row costs a heart.
- A caught bomb costs two hearts.
- A caught egg gives one back, up to five.

Under the drawing code sits a small integer state machine and two integer rasterisation routines. This project models that core and proves what it does.

- `raster.dfy`, module `Raster`. `midpoint_line` and `fill_circle` are methods that return the points they would plot.
  - `MidpointLine` keeps the source's `while true` loop. It is proved to return exactly `Line(s)`, a sequence of loop states defined by iteration.
  - `LineFacts` then proves the promises about `Line(s)`: the point count, both end points, unit steps toward the end point, and closeness to the ideal line.
  - `FillCircle` keeps the two nested `for` loops. It is proved to emit exactly the disk, in strict row-major order.
- `entities.dfy`, module `Entities`:
  - the window and basket constants;
  - the three kinds of falling object;
  - `create_fruit`, `create_bomb` and `create_egg` as functions of their random draws;
  - `check_collision`.
- `simulation.dfy`, module `Simulation`. The program's globals become one `World` value. It also holds the rules that change that value:
  - `Tick`, for `update_game_state`: one pass over each list, in the source's order.
  - `KeyPress`, for `keyboard`.
  - `Click`, for `mouse_click`.
  - `Spawn`, for `spawn_objects`.

  Each list pass is specified by two functions, both defined element by element:
  - `Survivors`: the objects kept, each moved down by its speed.
  - `Settled`: the score, hearts, miss streak and game-over flag the pass leaves.

  Lemmas relate these to independent counts, such as the points of the caught fruits and the number of fruits that fell. They also prove the bookkeeping rules and the invariants every reachable state keeps (`WellFormed`).
- `game.dfy`, module `Game`. `class GameState` has one field per global of the program. Its methods update those fields in place:
  - `UpdateGameState`, `Keyboard`, `MouseClick`, `ResetGame` and `SpawnObjects`.
  - Each is proved to leave exactly the state the matching `Simulation` function describes, and to keep `Valid()`.
  - Each list loop of `update_game_state` is a method (`SweepFruits`, `SweepBombs`, `SweepEggs`). It follows the source: it walks the list, moves each object, and removes it on fall-out or catch. It is proved equal to `Survivors`/`Settled`.

Behaviours of the code worth noting, all of which the model keeps:

- Hearts are not clamped at zero. Every caught bomb subtracts 2 with no floor, so hearts go below zero by 2 per bomb caught; two bombs caught in one tick take 1 heart to −3 (gametest2.py:387-391).
- A heart lost to misses does not reset the miss streak; only a catch does (gametest2.py:374-376, 382).
- The game can be over with hearts left: a bomb ends the game, and an egg caught later in the same tick still heals (gametest2.py:383-399).
- `p` and the pause button toggle the pause flag after the game is over too (gametest2.py:316, 504-505).
- The bomb's damage and the egg's heal are the literals 2 and 1, not the objects' `damage` and `heal` fields (gametest2.py:388, 398).
- `MAX_MISSED_FRUITS` is only shown on screen (gametest2.py:13, 470); no rule reads it.

## Model

| member | source | states |
|---|---|---|
| Raster.Advance | gametest2.py:102-108 | one iteration of the line loop: x steps by `sx` when `2*err > -dy`, y by `sy` when `2*err < dx`, both tests on the error term from before the iteration, and `err` is updated to match |
| Raster.Line | gametest2.py:98-108 | the points the loop plots, in order: the start point and then the point after each iteration, `max(abs(dx), abs(dy))` iterations in all |
| Raster.MidpointLine | gametest2.py:78-109 | the loop terminates and returns exactly the point sequence `Line(Segment(x1, y1, x2, y2))`, first point plotted before the end test |
| Raster.LineFacts | gametest2.py:82-108 | a line has `max(abs(dx), abs(dy)) + 1` points; it starts at `(x1, y1)` and ends at `(x2, y2)`; consecutive points differ; each coordinate moves by at most 1 per point, toward the end point; every point is within half a step of the ideal line |
| Raster.EndsAt | gametest2.py:100-101 | the end test succeeds after exactly `max(abs(dx), abs(dy))` iterations and never before |
| Raster.CursorStep | gametest2.py:102-108 | one iteration keeps the error-term invariant, shortens the remaining distance by exactly one step on the major axis, and moves each coordinate toward its end |
| Raster.CursorsInv | gametest2.py:93-108 | after i iterations the loop state satisfies the error-term invariant and `max(abs(dx), abs(dy)) - i` steps remain |
| Raster.LineStep | gametest2.py:102-108 | the two error updates keep the relation between `err` and the remaining distances, for every octant |
| Raster.LineStateNear | gametest2.py:93-108 | the error-term invariant bounds the point's deviation from the ideal line by half the major-axis length |
| Raster.CursorNear | gametest2.py:99 | every plotted point lies within half a step of the ideal line |
| Raster.AlongStep | gametest2.py:102-108 | a step by `sx` (or `sy`) moves a coordinate one unit toward its end value |
| Raster.InvAtEnd | gametest2.py:100 | the end test holds exactly when no distance remains on either axis |
| Raster.StartInv | gametest2.py:82-93 | the initial `dx`, `dy`, `sx`, `sy`, `err` satisfy the loop invariant with the full distances remaining |
| Raster.LineDependsOnDirection | gametest2.py:78-109 | swapping the end points can change the plotted points: `(0,0)-(2,1)` and its reverse differ in the middle point |
| Raster.FillCircle | gametest2.py:111-117 | a point is emitted iff `r >= 0` and it lies in the disk `dx*dx + dy*dy <= r*r`; the points are in strictly increasing row-major order, so each appears once; `r < 0` gives nothing and `r == 0` gives only the centre |
| Entities.FruitPoints | gametest2.py:321-325 | every fruit is worth 1 to 3 points |
| Entities.FruitPointsDistinct | gametest2.py:321-325 | two fruits have the same points iff they are the same fruit |
| Entities.CreateFruit | gametest2.py:320-333 | a new fruit is at the given column in 30..770, at height 620, radius 15, with the given speed in [1, 2] and the points of its type |
| Entities.CreateBomb | gametest2.py:335-342 | a new bomb is at the given column, at height 620, radius 12, speed in [2.5, 3.5], damage 2 |
| Entities.CreateEgg | gametest2.py:344-349 | a new egg is at the given column, at height 620, radius 10, speed in [2, 3], heal 1 |
| Entities.NewObjectsAreCreated | gametest2.py:320-349 | every object satisfying the new-object predicates is exactly the result of the matching create function |
| Entities.CheckCollision | gametest2.py:402-410 | an object is caught iff its lowest point `y - radius` lies in [30, 60] and its centre x lies within 40 of the basket centre, every bound inclusive |
| Entities.CatchCorners | gametest2.py:402-410 | all four corners of the catch region are catches, so every bound is inclusive |
| Entities.CatchEdges | gametest2.py:402-410 | an object above the band, below it, or beside the basket is not caught |
| Entities.CaughtIsAboveFloor | gametest2.py:402-410 | a caught object's centre is at least 30 high, so a catch and a fall-out exclude each other |
| Simulation.Initial | gametest2.py:21-34 | the start-up state, which reset_game restores (509-521): not paused, not over, score 0, 5 hearts, no misses, basket at 400, three empty lists |
| Simulation.FateOf | gametest2.py:371-372 | an object is judged at its new height, after falling by its speed: below 0 it fell out, else caught if `check_collision` holds, else it keeps falling |
| Simulation.Survivors | gametest2.py:370-399 | the list after one pass: every object that neither fell out nor was caught, moved down by its speed, in the original order |
| Simulation.Settle | gametest2.py:370-399 | the counters after one object of a pass: a fallen fruit adds a miss and costs a heart on every multiple of three; a caught fruit adds its points and ends the streak; a caught bomb costs 2 hearts; a caught egg sets `min(hearts + 1, 5)`; hearts at 0 or below set game over; fallen bombs and eggs change nothing |
| Simulation.Settled | gametest2.py:370-399 | the counters after a whole pass, the objects taken first to last |
| Simulation.Tick | gametest2.py:365-399 | update_game_state: the state unchanged while paused or over; otherwise the fruit, bomb and egg passes in that order, each starting from the counters the previous one left, and each list replaced by its survivors |
| Simulation.InitialWellFormed | gametest2.py:21-34 | the start-up state is well formed, with the basket at 400 |
| Simulation.TickFrozen | gametest2.py:365-368 | while paused or over, a tick changes nothing at all |
| Simulation.SurvivorsMembers | gametest2.py:370-399 | an object remains after a pass iff it is some original object, moved down by its speed, that neither fell below 0 nor was caught |
| Simulation.SurvivorsAppend | gametest2.py:370-399 | a pass over two lists joined is the two passes joined, so the remaining objects keep their original order |
| Simulation.SurvivorsLength | gametest2.py:370-399 | the number of remaining objects is the length minus those that fell and those caught |
| Simulation.SurvivorsFruitsOnly | gametest2.py:370-371 | the remaining fruits are still fruits worth the points of their type |
| Simulation.FruitPassScore | gametest2.py:379-380 | the fruit pass adds to the score exactly the points of the fruits caught |
| Simulation.FruitPassHearts | gametest2.py:372-378 | the fruit pass never adds hearts; the game is over after it iff it was over before or the pass took a heart and hearts are then at most 0 |
| Simulation.FruitPassStreak | gametest2.py:372-374 | with no catch, the miss count grows by exactly the number of fruits that fell |
| Simulation.FruitPassLosses | gametest2.py:375-376 | with no catch, the hearts lost are the streak losses of the fallen fruits |
| Simulation.StreakLossesThirds | gametest2.py:375 | from a miss count `m`, `f` more misses pass `(m + f) / 3 - m / 3` multiples of three |
| Simulation.FruitPassMisses | gametest2.py:372-378 | with no catch, `missed` grows by the falls `f` and `hearts` drops by `(m + f) / 3 - m / 3`, one per multiple of three reached |
| Simulation.FruitMissStep | gametest2.py:372-378 | a single fruit that is not caught adds one miss iff it fell, and takes a heart iff it fell and the new count is a multiple of three |
| Simulation.FruitPassCatchResets | gametest2.py:379-382 | when the last fruit of the pass is caught, the miss streak ends the pass at 0 |
| Simulation.CaughtPointsNonNegative | gametest2.py:380 | caught fruit never lowers the score |
| Simulation.FruitPassMissedNonNegative | gametest2.py:372-382 | the miss streak never goes negative |
| Simulation.BombPass | gametest2.py:383-391 | the bomb pass takes exactly 2 hearts per bomb caught, changes neither score nor streak, and ends the game iff it was over or a bomb was caught and hearts are at most 0 |
| Simulation.EggPass | gametest2.py:393-399 | the egg pass leaves hearts unchanged if no egg is caught and otherwise sets `min(hearts + caught, 5)`; nothing else changes |
| Simulation.PassKeeps | gametest2.py:370-399 | each pass keeps score and streak non-negative and hearts at most 5, never lowers the score, and never un-ends the game |
| Simulation.PassesPreserve | gametest2.py:365-399 | the three passes together keep those counter bounds |
| Simulation.TickPreserves | gametest2.py:365-399 | a tick keeps the state well formed, never lowers the score, never un-ends the game, only shrinks the lists, and leaves basket and pause flag alone |
| Simulation.TickCatchesBanana | gametest2.py:379-382 | a banana in the basket scores 2 and resets a streak of 2 |
| Simulation.TickThreeMisses | gametest2.py:372-378 | the third fruit missed in a row costs a heart and leaves the streak at 3 |
| Simulation.TickBombOnLastHeart | gametest2.py:387-391 | a bomb caught on the last heart leaves hearts at −1 and ends the game |
| Simulation.TickEggHeals | gametest2.py:397-398 | a caught egg heals from 3 to 4, and at 5 hearts stays at 5 |
| Simulation.TickBombThenEgg | gametest2.py:383-399 | a bomb on 2 hearts ends the game, and an egg in the same tick still heals to 1: over with hearts left |
| Simulation.NewObjectFallsFreely | gametest2.py:320-349 | a freshly created object is neither lost nor caught on its first tick |
| Simulation.BandCannotBeSkipped | gametest2.py:370-410 | an object above the band that falls no more than 30 per tick cannot drop below 0 in one tick: it reaches the band first |
| Simulation.FruitChance | gametest2.py:416 | the fruit chance: `0.02 + min(score / 1000, 0.03)` with true division |
| Simulation.BombChance | gametest2.py:417 | the bomb chance: `0.01 + min(score / 2000, 0.02)` with true division |
| Simulation.Spawn | gametest2.py:412-425 | spawn_objects with its draws given: nothing while paused or over; otherwise each of the fruit, bomb and egg is appended to its list when its draw is below its chance |
| Simulation.ChanceBounds | gametest2.py:416-418 | the fruit chance lies in [0.02, 0.05] and the bomb chance in [0.01, 0.03]; both rise with the score, reaching their caps at 30 and 40 points |
| Simulation.SpawnPreserves | gametest2.py:412-425 | spawning keeps the state well formed, changes only the lists, keeps every object already present in place, and adds at most one object of each kind, at the end |
| Simulation.SpawnDraws | gametest2.py:420-425 | while the game runs, a draw below its chance appends exactly that object and any other draw adds nothing |
| Simulation.KeyPress | gametest2.py:496-507 | keyboard: `a` moves a basket right of 40 left by 10, not past 40; `d` moves a basket left of 760 right by 10, not past 760; `p` toggles pause; any other key, `q` included, leaves the state as it was |
| Simulation.KeyPressBasket | gametest2.py:496-503 | any key keeps the basket within 40..760; `a` moves it left by at most 10, `d` right by at most 10, other keys not at all; only basket and pause can change |
| Simulation.KeyPressMoves | gametest2.py:499-503 | `a` moves the basket iff it is right of 40; `d` iff it is left of 760 |
| Simulation.KeyPressPause | gametest2.py:504-505 | `p` toggles the pause flag in every state, also after game over; pressing it twice restores the state |
| Simulation.KeyPressOther | gametest2.py:496-507 | every key other than a, d and p leaves the state unchanged |
| Simulation.KeyPressPreserves | gametest2.py:496-507 | a key press keeps the state well formed |
| Simulation.Hit | gametest2.py:308-312 | a point hits a button iff its squared distance to the button's centre (left edge + 20, 570) is at most 20², the same test as the source's square root for integer coordinates |
| Simulation.Press | gametest2.py:313-318 | what a hit button does: restart gives the start-up state, pause toggles the pause flag, exit sets quit |
| Simulation.TryButtons | gametest2.py:307-318 | the loop over the buttons in dict order: each button the point hits acts on the outcome left by the ones before |
| Simulation.Click | gametest2.py:301-318 | mouse_click: only a left-button press acts; y is flipped to a height from the bottom and the buttons are tried in order |
| Simulation.ButtonsDisjoint | gametest2.py:46-76 | no point hits two different buttons |
| Simulation.AtMostOneHit | gametest2.py:307-312 | at most one of the three buttons is hit by a click |
| Simulation.ClickActsOnce | gametest2.py:301-318 | a left click on restart resets the game, on pause toggles the pause flag even after game over, on exit quits, and elsewhere changes nothing |
| Simulation.ClickPreserves | gametest2.py:301-318 | a click keeps the state well formed |
| Game.SweepFruits | gametest2.py:370-382 | the fruit loop leaves exactly the surviving fruits and the counters `Settled` describes |
| Game.SweepBombs | gametest2.py:383-391 | the bomb loop leaves exactly the surviving bombs and the hearts and game-over flag `Settled` describes |
| Game.SweepEggs | gametest2.py:393-399 | the egg loop leaves exactly the surviving eggs and the hearts `Settled` describes |
| Game.GameState.constructor | gametest2.py:21-34 | the globals start unpaused and not over, with score 0, 5 hearts, no misses, the basket at 400 and empty lists |
| Game.GameState.ResetGame | gametest2.py:509-521 | after a reset the state is the start-up state whatever it was before, so a second reset changes nothing |
| Game.GameState.UpdateGameState | gametest2.py:365-399 | a tick updates the fields in place to exactly `Tick` of the old state, keeping the state valid |
| Game.GameState.SpawnObjects | gametest2.py:412-425 | spawning updates the fields to exactly `Spawn` of the old state, keeping the state valid |
| Game.GameState.Keyboard | gametest2.py:496-507 | a key press updates the fields to exactly `KeyPress` of the old state and reports quit iff the key is `q` |
| Game.GameState.MouseClick | gametest2.py:301-318 | a click updates the fields and the quit flag to exactly `Click` of the old state, keeping the state valid |

## Left out

- Drawing is not part of this model: every OpenGL and GLUT call, the shape generators (`draw_apple` … `draw_basket`), `display`, text output and window setup. They are foreign graphics calls with floating-point geometry. `MidpointLine` and `FillCircle` return the points they would plot.
- The random numbers are parameters. `spawn_objects`' three `random.random()` draws are the fields of `Draws`. The choices in `create_*` are the arguments of `CreateFruit`, `CreateBomb` and `CreateEgg`. `SpawnObjects` receives the three objects they would build. The order in which the program consumes its random numbers is not modelled.
- Positions and speeds are exact reals, not IEEE floats. Rounding in `y -= speed`, and in the chances `score / 1000` and `score / 2000`, is not modelled.
- `GameObject.missed` (gametest2.py:43) is never read, so it is not a field.
- The object type's `color`, and the buttons' `hover` and `color`, only affect drawing.
- Objects are values. The source's `obj.y -= obj.speed` changes an object that lives in exactly one list, and the model replaces that list element. No object is shared between lists, so no aliasing is lost.
- `SweepFruits`, `SweepBombs` and `SweepEggs` work on local copies of the list and counters. `UpdateGameState` writes them back at the end. No other code runs during a pass, so no intermediate state is observable in the model.
- `glutLeaveMainLoop` is the `quit` result of `Keyboard` and `MouseClick`.
- The timer callback `update` (gametest2.py:490-494), `mouse_motion` and hover highlighting are left out. The first is scheduling plumbing; the other two only change colours.
- Raster.FillCircle: the centre is an integer. `draw_bomb` (gametest2.py:234) passes the float height of the bomb as the centre; with a real centre the emitted points are the same integer offsets translated by that centre.
- The click hit test `sqrt(d) <= 20` is modelled as the squared distance `d <= 400`. For integer coordinates the two agree.
- The restart entry of `buttons` has a docstring fused onto its `'hover'` key. It still has its `'x'`, so it is modelled as an ordinary button at x = 660.
- Entities.CheckCollision: as in the source, the predicate does not check that the object has a non-negative radius. `CaughtIsAboveFloor` assumes one, which every created object has.
- Game.GameState.UpdateGameState: requires the fruit list to hold only fruits, because `fruit.type['points']` fails for any other object. Every reachable state satisfies this (`WellFormed`).
