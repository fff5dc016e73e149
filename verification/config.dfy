/** The tuning constants of the playground (main.js:76-77, 106 and the
    literals inside spawnBall and the afterRender growth step). */
module Config {

  /** Smallest radius a ball can have, and the radius a growth gesture starts at. */
  const MinBallRadius: int := 20

  /** Largest radius a ball can have; a growth gesture stops here. */
  const MaxBallRadius: int := 160

  /** Number of balls the live cycle keeps on screen. */
  const TargetBallCount: nat := 30

  /** Radius added to a growing ball on every rendered frame. */
  const GrowthStep: int := 2

  /** Horizontal distance from either screen edge that a spawned ball keeps. */
  const SpawnMargin: real := 50.0

  /** Height (above the visible area) at which a live-cycle ball appears. */
  const LiveSpawnY: real := -150.0

  function Min(a: int, b: int): int {
    if a <= b then a else b
  }
}
