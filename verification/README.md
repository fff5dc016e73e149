# black_physics — a Dafny model of the ball population and the click-to-grow gesture

The playground keeps a stream of black balls falling through a physics world.
The only logic of its own, in `main.js`, has two parts:

- **The population.** The `balls` array is a first-in-first-out queue capped
  at `targetBallCount` (30). `spawnBall` creates a body, adds it to the world
  and pushes it. On a live spawn (every second, from the interval timer), if
  the queue then holds more than 30 balls, it shifts out exactly one ball, the
  oldest, and removes it from the world. Startup seeding
  (`spawnInitialBalls`) spawns 30 balls and never evicts.
- **The gesture.** `isGrowing`, `growthPos` and `currentGrowthRadius` form a
  small state machine:
  - A mouse-down on empty space starts growth, or restarts it, at radius 20.
  - Every rendered frame adds 2 while the radius is below 160.
  - A mouse-up while growing commits a ball of the current radius into the
    queue under the same evict-one rule, then ends the gesture.
  - A mouse-up without a gesture does nothing.

The model is functional: immutable states and one pure function per
callback. Its modules:

- `Config`: the constants.
- `BallQueue`: the bounded FIFO queue over any element type.
- `SpawnGeometry`: the random position and radius of a spawned ball.
- `Population`: the queue plus the physics world, seen as a set of body ids.
- `Gesture`: the growth state machine.
- `Playground`: the four callbacks as transitions of one state, and
  invariants over any run of them.

Bodies are opaque natural-number ids handed out by a counter. The three walls
hold ids 0, 1 and 2. Each `Math.random()` value is a parameter in [0, 1). The
answer of the hit test is a boolean input of the mouse-down event.

Two behaviours of the code are easy to miss:

- A second mouse-down on empty space while a gesture is active does not leave
  the gesture alone. It restarts it: the anchor moves to the new position and
  the radius drops back to 20.
- A randomly spawned ball's radius lies in [20, 160), a half-open range. A
  committed gesture ball can have radius exactly 160.

## Model

| member | source | states |
|---|---|---|
| BallQueue.Admit | main.js:123-129 | One push followed by at most one shift. The evicted ball followed by the new queue is the old queue plus the new ball, so only the front can leave and order is kept. A ball leaves exactly when the length would exceed 30. A queue within the cap ends at min(length + 1, 30). Even an over-full queue loses only one ball. |
| BallQueue.AdmitAll | main.js:123-129 | Over any run of admissions, the evicted balls followed by the survivors are all balls ever queued, in insertion order. A queue starting within the cap ends with min(total, 30) balls. |
| BallQueue.AdmitAllIsFifo | main.js:126-129 | For a queue starting within the cap, whenever an n-th ball is evicted it is the n-th ball ever queued. The survivors are always the newest min(total, 30) balls, whether or not anything was evicted. |
| BallQueue.FullTurnover | main.js:126-129 | From a full queue, 30 admissions evict the 30 original balls in their original order and leave exactly the 30 new ones. |
| SpawnGeometry.SpawnX | main.js:109 | For a random value in [0, 1), the x position lies in [50, width - 50) when the screen is wider than 100. On a narrower screen it lies between width - 50 and 50. |
| SpawnGeometry.SpawnY | main.js:111 | A live spawn starts at y = -150. A seeded ball starts in (-2100, -100]. |
| SpawnGeometry.SpawnRadius | main.js:113 | For a random value in [0, 1), the radius lies in [20, 160). |
| Population.Insert | main.js:122-129 | Adds a fresh body to the world and appends it to the queue. When eviction is on and the cap is exceeded, only the oldest ball leaves, both the queue and the world. The world stays the exact mirror of the queue: walls plus queued ids, with no id twice. |
| Population.SpawnBall | main.js:108-130 | The new ball is last, with a fresh id, a radius in [20, 160), x within the margins and y = -150 on a live spawn. Seeding only appends. A live spawn on a full queue drops exactly the front. A live spawn within the cap leaves min(length + 1, 30) balls. The world stays in sync. |
| Population.SeedBallsAppends | main.js:133-137 | Seeding appends one ball per draw, with consecutive fresh ids, after the existing balls. It removes nothing from the world and keeps queue and world in sync. |
| Population.SpawnInitialBalls | main.js:133-137 | Adds exactly 30 balls after the existing ones and removes nothing. |
| Population.InitialSeedingFills | main.js:133-138 | From the empty scene, seeding yields exactly 30 queued balls, all of them in the world. |
| Population.SpawnLiveIsAdmitAll | main.js:140 | Repeated live spawns leave exactly the queue that FIFO admission of the created balls predicts. |
| Population.SpawnLiveKeepsSync | main.js:122-128 | Any run of live spawns uses one fresh id per spawn and keeps the world the exact mirror of the queue. |
| Population.SeedThenFullTurnover | main.js:126-140 | After seeding and then 30 live spawns, every seeded ball has left the world. The queue holds exactly the 30 live-spawned balls, oldest first. |
| Gesture.MouseDown | main.js:147-159 | A click on empty space starts growth, or restarts it while already growing, at radius 20 anchored at the click. A click on a body changes nothing. |
| Gesture.Tick | main.js:189-193 | The radius grows by 2 exactly when a gesture is active and the radius is below 160. Otherwise it is unchanged, so it never decreases. The range [20, 160] and evenness of the offset from 20 are kept. |
| Gesture.TicksClosedForm | main.js:189-193 | While growing from a radius in range, n frames give radius min(radius + 2n, 160). The clamp is hit exactly and never overshot. |
| Gesture.IdleTicksChangeNothing | main.js:189 | Without an active gesture, any number of frames leave the gesture variables untouched. |
| Gesture.TicksMonotone | main.js:191-192 | More frames never give a smaller radius. |
| Gesture.GrowthReachesMaximum | main.js:189-193 | After a click on empty space, the radius stays below 160 for the first 70 frames. From frame 70 on it is exactly 160. |
| Gesture.TenFramesAfterClick | main.js:189-193 | Ten frames after a click on empty space, the gesture is growing at the click position with radius 40. |
| Playground.MouseUp | main.js:161-183 | While growing, commits a fresh ball at the anchor with the current radius as the last queued ball. On a full queue it drops exactly the front. The world stays in sync and the gesture ends with its other variables unchanged. While idle, nothing changes. |
| Playground.Step | main.js:140-193 | Mouse-down and frames never touch the balls or the world. The timer never touches the gesture. |
| Playground.StartInv | main.js:133-145 | After startup, exactly 30 balls are queued. The world mirrors the queue and every radius is in range. The gesture is idle with its declared initial values, radius 20. |
| Playground.StepKeepsInv | main.js:108-193 | Every callback keeps the queue within 30, the world in sync, every ball radius in [20, 160] and the gesture radius in range. A full queue stays full. |
| Playground.RunKeepsInv | main.js:108-193 | Any sequence of callbacks keeps the same invariant, and a full queue stays full. |
| Playground.PopulationStaysAtTarget | main.js:126-179 | From startup on, whatever the user does and however often the timer fires, exactly 30 balls are queued. All of them are in the world with radii in [20, 160]. |
| Playground.ClickHoldRelease | main.js:147-183 | From any state, a click on empty space, n frames and a release commit one ball as the newest queued ball, under the same evict-one rule as a timer spawn: on a full queue exactly the front is dropped, otherwise the old queue is kept whole, and the world stays in sync. It sits at the click position with radius min(20 + 2n, 160). |

## Left out

- The physics engine, renderer, runner and mouse constraint (main.js:5-73) are not modelled. They belong to a third-party library. Bodies are ids, and adding or removing one is a set update.
- The hit test `Matter.Query.point` (main.js:150-151) is an external query. It is the boolean `hitBody` of the mouse-down event.
- Interval scheduling (main.js:140) is a `Timer` event. The model does not track time.
- Drawing the growing preview and the "+" marks (main.js:195-242) is canvas rendering with floating-point trigonometry, so it is not modelled.
- Wall geometry and window resizing (main.js:36-56, 245-253) are layout glue and are left out. The walls appear only as three fixed body ids. The spawn width stays the load-time window width, as in the code, where `width` is a constant.
- The unused `maxBalls` constant (main.js:80) and the design comments (main.js:81-104) have no behaviour.
- Body options (restitution, friction, fill colour) are passed to the engine and never read back, so they are not modelled.
- Positions and radii are mathematical reals. JavaScript's double rounding is not modelled.
- The order in which one spawn calls `Math.random()` is abstracted. A seeding spawn draws three values and a live spawn two; they are named by their use: x, y (seeding only) and radius.
- SpawnGeometry.SpawnX: the strict upper bound x < width - 50 holds in real arithmetic only. In doubles, a random value just below 1 can round x to exactly width - 50.
- SpawnGeometry.SpawnY: the strict lower bound y > -2100 for a seeded ball holds in real arithmetic only. In doubles, a random value just below 1 can round y to exactly -2100.
- Body ids come from a counter that starts after the walls. The engine's own id numbering is not modelled.
