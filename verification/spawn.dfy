/** Where and how large `spawnBall` makes a ball, from the values
    `Math.random()` returns (main.js:109-113). Each random value is a
    parameter; the browser promises it lies in [0, 1). */
module SpawnGeometry {
  import opened Config

  predicate IsUnit(u: real) {
    0.0 <= u < 1.0
  }

  /** A unit value scaled by `span` and shifted by `base`: the shape of
      every random quantity spawnBall computes. */
  function Spread(u: real, span: real, base: real): real {
    u * span + base
  }

  /** A unit value spread over a positive span lands in [base, base + span);
      over a non-positive span the interval folds back to [base + span, base]. */
  lemma SpreadBounds(u: real, span: real, base: real)
    ensures IsUnit(u) && span > 0.0 ==> base <= Spread(u, span, base) < base + span
    ensures IsUnit(u) && span <= 0.0 ==> base + span <= Spread(u, span, base) <= base
  {
    if IsUnit(u) && span > 0.0 {
      assert (1.0 - u) * span > 0.0;
    } else if IsUnit(u) && span < 0.0 {
      assert (1.0 - u) * span < 0.0;
    }
  }

  /** A horizontal position spread over the screen width minus a margin of
      `SpawnMargin` on each side, so that on a screen wider than twice the
      margin the ball keeps clear of both edges. */
  function SpawnX(u: real, width: real): (x: real)
    ensures IsUnit(u) && width > 2.0 * SpawnMargin ==> SpawnMargin <= x < width - SpawnMargin
    // on a screen too narrow for the margins the formula folds the other way
    ensures IsUnit(u) && width <= 2.0 * SpawnMargin ==> width - SpawnMargin <= x <= SpawnMargin
  {
    SpreadBounds(u, width - 2.0 * SpawnMargin, SpawnMargin);
    Spread(u, width - 2.0 * SpawnMargin, SpawnMargin)
  }

  /** Vertical start of a ball: a live-cycle ball appears at `LiveSpawnY`;
      a seeded ball starts 100 to 2100 units above the screen, so that the
      initial balls arrive as a stream instead of all at once. */
  function SpawnY(isInitial: bool, u: real): (y: real)
    ensures !isInitial ==> y == LiveSpawnY
    ensures isInitial && IsUnit(u) ==> -2100.0 < y <= -100.0
  {
    SpreadBounds(u, 2000.0, 100.0);
    if isInitial then -Spread(u, 2000.0, 100.0) else LiveSpawnY
  }

  /** A radius spread over [MinBallRadius, MaxBallRadius). */
  function SpawnRadius(u: real): (radius: real)
    ensures IsUnit(u) ==> MinBallRadius as real <= radius < MaxBallRadius as real
  {
    SpreadBounds(u, (MaxBallRadius - MinBallRadius) as real, MinBallRadius as real);
    Spread(u, (MaxBallRadius - MinBallRadius) as real, MinBallRadius as real)
  }
}
