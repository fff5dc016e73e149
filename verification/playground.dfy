/** The playground as one state machine: the population and the gesture,
    driven by the four callbacks of main.js — the one-second timer
    (main.js:140), mousedown (main.js:147-159), mouseup (main.js:161-183) and
    the per-frame afterRender growth step (main.js:189-193). Each callback
    runs to completion, so each is one transition. */
module Playground {
  import opened Config
  import opened Population
  import opened Gesture

  datatype Event =
    | Timer(draw: Draw)               // the interval fires spawnBall(false)
    | Down(pos: Point, hitBody: bool) // mousedown; `hitBody` is the hit test's answer
    | Up                              // mouseup
    | Frame                           // afterRender

  /** Everything the callbacks read or write; `width` is the window width
      read once at load time. */
  datatype State = State(scene: Scene, growth: GrowthState, width: real)

  predicate ValidEvent(e: Event) {
    e.Timer? ==> ValidLiveDraw(e.draw)
  }

  /** The state after startup seeding, before the first callback. */
  function Start(seed: seq<Draw>, width: real): State
    requires |seed| == TargetBallCount
  {
    State(SpawnInitialBalls(Empty, seed, width), Gesture.Initial, width)
  }

  /** The mouseup handler: a growing ball is committed to the queue at its
      anchor with its current radius, under the same evict-one rule as a live
      spawn, and the gesture ends; without a gesture nothing happens. */
  function MouseUp(st: State): (r: State)
    ensures !st.growth.isGrowing ==> r == st
    ensures st.growth.isGrowing ==>
              var g := st.growth;
              var b := Ball(st.scene.nextId, g.growthPos.x, g.growthPos.y, g.currentGrowthRadius as real);
              && r.growth == g.(isGrowing := false)
              && |r.scene.balls| > 0 && r.scene.balls[|r.scene.balls| - 1] == b
              && (|st.scene.balls| >= TargetBallCount ==> r.scene.balls == st.scene.balls[1..] + [b])
              && (|st.scene.balls| < TargetBallCount ==> r.scene.balls == st.scene.balls + [b])
              && (Synced(st.scene) ==> Synced(r.scene) && b.id in r.scene.world)
    ensures r.width == st.width
  {
    var g := st.growth;
    if g.isGrowing then
      var scene := Insert(st.scene, g.growthPos.x, g.growthPos.y, g.currentGrowthRadius as real, true);
      State(scene, g.(isGrowing := false), st.width)
    else st
  }

  /** One callback. */
  function Step(st: State, e: Event): (r: State)
    // only the timer and mouseup touch the balls and the world
    ensures e.Down? || e.Frame? ==> r.scene == st.scene
    // only the mouse and the frames touch the gesture
    ensures e.Timer? ==> r.growth == st.growth
    ensures r.width == st.width
  {
    match e
    case Timer(d) => st.(scene := SpawnBall(st.scene, false, d, st.width))
    case Down(pos, hit) => st.(growth := MouseDown(st.growth, pos, hit))
    case Up => MouseUp(st)
    case Frame => st.(growth := Tick(st.growth))
  }

  /** Callbacks in the order the event loop runs them. */
  function Run(st: State, es: seq<Event>): State
    decreases |es|
  {
    if |es| == 0 then st else Run(Step(st, es[0]), es[1..])
  }

  /** Every ball's radius lies between the two bounds. */
  predicate RadiiInRange(bs: seq<Ball>) {
    forall b | b in bs :: MinBallRadius as real <= b.radius <= MaxBallRadius as real
  }

  /** What holds between callbacks once the balls are seeded. */
  predicate Inv(st: State) {
    && Synced(st.scene)
    && |st.scene.balls| <= TargetBallCount
    && RadiiInRange(st.scene.balls)
    && RadiusOk(st.growth)
  }

  lemma StartInv(seed: seq<Draw>, width: real)
    requires |seed| == TargetBallCount
    requires forall i | 0 <= i < |seed| :: ValidDraw(seed[i])
    ensures Inv(Start(seed, width)) && |Start(seed, width).scene.balls| == TargetBallCount
    ensures Start(seed, width).growth == Gesture.Initial
  {
    var st := Start(seed, width);
    InitialSeedingFills(seed, width);
    InitialRadiusOk();
    forall b | b in st.scene.balls
      ensures MinBallRadius as real <= b.radius <= MaxBallRadius as real
    {
      var k :| 0 <= k < |st.scene.balls| && st.scene.balls[k] == b;
      assert st.scene.balls[|Empty.balls| + k] == SeedBall(Empty.nextId + k, seed[k], width);
    }
  }

  /** Appending a ball in range, possibly after dropping the front, keeps
      every radius in range. */
  lemma AdmittedRadiiInRange(bs: seq<Ball>, nb: Ball, r: seq<Ball>)
    requires RadiiInRange(bs)
    requires MinBallRadius as real <= nb.radius <= MaxBallRadius as real
    requires r == bs + [nb] || (|bs| > 0 && r == bs[1..] + [nb])
    ensures RadiiInRange(r)
  {
    forall c | c in r
      ensures MinBallRadius as real <= c.radius <= MaxBallRadius as real
    {
      if c != nb {
        assert c in bs;
      }
    }
  }

  /** The timer keeps the invariant, and a full queue stays full. */
  lemma TimerKeepsInv(st: State, d: Draw)
    requires Inv(st) && ValidLiveDraw(d)
    ensures Inv(Step(st, Timer(d)))
    ensures |st.scene.balls| == TargetBallCount ==> |Step(st, Timer(d)).scene.balls| == TargetBallCount
  {
    var scene := SpawnBall(st.scene, false, d, st.width);
    assert Step(st, Timer(d)).scene == scene;
    AdmittedRadiiInRange(st.scene.balls, scene.balls[|scene.balls| - 1], scene.balls);
  }

  /** Mouse-up keeps the invariant, and a full queue stays full. */
  lemma UpKeepsInv(st: State)
    requires Inv(st)
    ensures Inv(Step(st, Up))
    ensures |st.scene.balls| == TargetBallCount ==> |Step(st, Up).scene.balls| == TargetBallCount
  {
    if st.growth.isGrowing {
      var g := st.growth;
      var b := Ball(st.scene.nextId, g.growthPos.x, g.growthPos.y, g.currentGrowthRadius as real);
      var bs := st.scene.balls;
      var scene := Insert(st.scene, g.growthPos.x, g.growthPos.y, g.currentGrowthRadius as real, true);
      assert Step(st, Up) == State(scene, g.(isGrowing := false), st.width);
      assert scene.balls == bs + [b] || scene.balls == bs[1..] + [b];
      AdmittedRadiiInRange(bs, b, scene.balls);
    } else {
      assert Step(st, Up) == st;
    }
  }

  /** Each callback keeps the invariant, and a full queue stays full. */
  lemma StepKeepsInv(st: State, e: Event)
    requires Inv(st) && ValidEvent(e)
    ensures Inv(Step(st, e))
    ensures |st.scene.balls| == TargetBallCount ==> |Step(st, e).scene.balls| == TargetBallCount
  {
    match e
    case Timer(d) => TimerKeepsInv(st, d);
    case Down(_, _) =>
    case Up => UpKeepsInv(st);
    case Frame =>
  }

  /** Any run of callbacks keeps the invariant, and a full queue stays full. */
  lemma {:induction false} RunKeepsInv(st: State, es: seq<Event>)
    requires Inv(st)
    requires forall i | 0 <= i < |es| :: ValidEvent(es[i])
    ensures Inv(Run(st, es))
    ensures |st.scene.balls| == TargetBallCount ==> |Run(st, es).scene.balls| == TargetBallCount
    decreases |es|
  {
    if |es| > 0 {
      StepKeepsInv(st, es[0]);
      RunKeepsInv(Step(st, es[0]), es[1..]);
    }
  }

  /** From startup on, whatever the user does and however often the timer
      fires, exactly `TargetBallCount` balls are queued, all of them in the
      world and all of them within the radius bounds. */
  lemma PopulationStaysAtTarget(seed: seq<Draw>, width: real, es: seq<Event>)
    requires |seed| == TargetBallCount
    requires forall i | 0 <= i < |seed| :: ValidDraw(seed[i])
    requires forall i | 0 <= i < |es| :: ValidEvent(es[i])
    ensures var r := Run(Start(seed, width), es);
            && |r.scene.balls| == TargetBallCount
            && Synced(r.scene)
            && RadiiInRange(r.scene.balls)
  {
    StartInv(seed, width);
    RunKeepsInv(Start(seed, width), es);
  }

  /** A click on empty space, `n` frames and a release commit one ball at the
      click position whose radius is min(minimum + n * step, maximum). */
  lemma ClickHoldRelease(st: State, pos: Point, n: nat)
    ensures var frames := seq(n, _ => Frame);
            var r := Run(st, [Down(pos, false)] + frames + [Up]);
            var b := Ball(st.scene.nextId, pos.x, pos.y, Min(MinBallRadius + n * GrowthStep, MaxBallRadius) as real);
            && !r.growth.isGrowing
            && |r.scene.balls| > 0
            && r.scene.balls[|r.scene.balls| - 1] == b
            // the rest of the queue follows the same evict-one rule as a timer spawn
            && (|st.scene.balls| >= TargetBallCount ==> r.scene.balls == st.scene.balls[1..] + [b])
            && (|st.scene.balls| < TargetBallCount ==> r.scene.balls == st.scene.balls + [b])
            && (Synced(st.scene) ==> Synced(r.scene))
  {
    var frames := seq(n, _ => Frame);
    var s1 := Step(st, Down(pos, false));
    TicksClosedForm(s1.growth, n);
    FramesAreTicks(s1, n);
    var s2 := Run(s1, frames);
    assert Run(st, [Down(pos, false)] + frames + [Up]) == Run(s2, [Up]) by {
      RunConcat(st, [Down(pos, false)], frames);
      RunConcat(st, [Down(pos, false)] + frames, [Up]);
    }
  }

  /** Frames alone advance only the gesture. */
  lemma {:induction false} FramesAreTicks(st: State, n: nat)
    ensures Run(st, seq(n, _ => Frame)) == st.(growth := Ticks(st.growth, n))
    decreases n
  {
    if n > 0 {
      var frames := seq(n, _ => Frame);
      assert frames[1..] == seq(n - 1, _ => Frame);
      FramesAreTicks(Step(st, Frame), n - 1);
    }
  }

  /** Running two batches of callbacks is running their concatenation. */
  lemma {:induction false} RunConcat(st: State, xs: seq<Event>, ys: seq<Event>)
    ensures Run(st, xs + ys) == Run(Run(st, xs), ys)
    decreases |xs|
  {
    if |xs| > 0 {
      assert (xs + ys)[0] == xs[0];
      assert (xs + ys)[1..] == xs[1..] + ys;
      RunConcat(Step(st, xs[0]), xs[1..], ys);
    } else {
      assert xs + ys == ys;
    }
  }
}
