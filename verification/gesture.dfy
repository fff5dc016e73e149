/** The click-to-grow gesture of main.js: the variables `isGrowing`,
    `growthPos` and `currentGrowthRadius` (main.js:143-145), changed by the
    mousedown handler (main.js:147-159), the growth step of the afterRender
    handler (main.js:189-193) and reset by the mouseup handler
    (main.js:181). */
module Gesture {
  import opened Config

  datatype Point = Point(x: real, y: real)

  /** The three gesture variables. The anchor and the radius keep their last
      values while no gesture is active. */
  datatype GrowthState = GrowthState(isGrowing: bool, growthPos: Point, currentGrowthRadius: int)

  /** The values the variables are declared with. */
  const Initial: GrowthState := GrowthState(false, Point(0.0, 0.0), MinBallRadius)

  /** The radius lies between the two bounds and is reachable from the
      smallest one in whole growth steps. */
  predicate RadiusOk(g: GrowthState) {
    && MinBallRadius <= g.currentGrowthRadius <= MaxBallRadius
    && (g.currentGrowthRadius - MinBallRadius) % GrowthStep == 0
  }

  lemma InitialRadiusOk()
    ensures RadiusOk(Initial)
  {
  }

  /** The mousedown handler. `hitBody` is whether the hit test at `pos`
      found a body; a click on a body is left to the mouse constraint. A
      click on empty space starts a gesture, or restarts the current one. */
  function MouseDown(g: GrowthState, pos: Point, hitBody: bool): (r: GrowthState)
    ensures hitBody ==> r == g
    ensures !hitBody ==> r.isGrowing && r.growthPos == pos && r.currentGrowthRadius == MinBallRadius
    ensures RadiusOk(g) ==> RadiusOk(r)
  {
    if hitBody then g else GrowthState(true, pos, MinBallRadius)
  }

  /** The growth step run once per rendered frame. */
  function Tick(g: GrowthState): (r: GrowthState)
    ensures r.isGrowing == g.isGrowing && r.growthPos == g.growthPos
    // the radius never shrinks, and it grows by one step exactly when a
    // gesture is active and the radius is below the maximum
    ensures g.currentGrowthRadius <= r.currentGrowthRadius
    ensures r.currentGrowthRadius != g.currentGrowthRadius <==>
              g.isGrowing && g.currentGrowthRadius < MaxBallRadius
    ensures r.currentGrowthRadius != g.currentGrowthRadius ==>
              r.currentGrowthRadius == g.currentGrowthRadius + GrowthStep
    // whole steps from the minimum never overshoot the maximum
    ensures RadiusOk(g) ==> RadiusOk(r)
  {
    if g.isGrowing && g.currentGrowthRadius < MaxBallRadius then
      g.(currentGrowthRadius := g.currentGrowthRadius + GrowthStep)
    else g
  }

  /** `n` rendered frames without mouse events. */
  function Ticks(g: GrowthState, n: nat): GrowthState
    decreases n
  {
    if n == 0 then g else Ticks(Tick(g), n - 1)
  }

  /** While growing from a radius in range, `n` frames give the radius
      min(radius + n * step, maximum): the clamp is hit exactly, never
      overshot. */
  lemma {:induction false} TicksClosedForm(g: GrowthState, n: nat)
    requires g.isGrowing && RadiusOk(g)
    ensures Ticks(g, n).currentGrowthRadius == Min(g.currentGrowthRadius + n * GrowthStep, MaxBallRadius)
    ensures Ticks(g, n).isGrowing && Ticks(g, n).growthPos == g.growthPos
    decreases n
  {
    if n > 0 {
      TicksClosedForm(Tick(g), n - 1);
      if g.currentGrowthRadius == MaxBallRadius {
        assert Tick(g) == g;
      }
    }
  }

  /** Without an active gesture the frames leave every variable untouched. */
  lemma {:induction false} IdleTicksChangeNothing(g: GrowthState, n: nat)
    requires !g.isGrowing
    ensures Ticks(g, n) == g
    decreases n
  {
    if n > 0 {
      IdleTicksChangeNothing(Tick(g), n - 1);
    }
  }

  /** Frames never shrink the radius. */
  lemma {:induction false} TicksMonotone(g: GrowthState, m: nat, n: nat)
    requires m <= n
    ensures Ticks(g, m).currentGrowthRadius <= Ticks(g, n).currentGrowthRadius
    decreases n
  {
    if m > 0 {
      TicksMonotone(Tick(g), m - 1, n - 1);
    } else if n > 0 {
      TicksMonotone(Tick(g), 0, n - 1);
    }
  }

  /** A gesture started on empty space reaches the maximum radius after
      exactly (maximum - minimum) / step frames and stays there. */
  lemma GrowthReachesMaximum(g: GrowthState, pos: Point, n: nat)
    ensures var start := MouseDown(g, pos, false);
            && (n < (MaxBallRadius - MinBallRadius) / GrowthStep ==>
                  Ticks(start, n).currentGrowthRadius < MaxBallRadius)
            && (n >= (MaxBallRadius - MinBallRadius) / GrowthStep ==>
                  Ticks(start, n).currentGrowthRadius == MaxBallRadius)
  {
    TicksClosedForm(MouseDown(g, pos, false), n);
  }

  /** Ten frames after a click on empty space the radius is the minimum
      plus twenty. */
  lemma TenFramesAfterClick(g: GrowthState, pos: Point)
    ensures Ticks(MouseDown(g, pos, false), 10) == GrowthState(true, pos, MinBallRadius + 20)
  {
    TicksClosedForm(MouseDown(g, pos, false), 10);
  }
}
