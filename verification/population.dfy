/** The live-cycle population of main.js: the `balls` queue together with the
    physics world it is mirrored in (spawnBall, main.js:108-130, and
    spawnInitialBalls, main.js:133-137). Bodies are opaque ids; adding a body
    to the world or removing it is a set update. */
module Population {
  import opened Config
  import opened BallQueue
  import opened SpawnGeometry

  /** A ball body: the id the physics world gave it, where it was created and
      its radius. Its later motion belongs to the physics engine. */
  datatype Ball = Ball(id: nat, x: real, y: real, radius: real)

  /** The `Math.random()` values one call of spawnBall draws: for the
      horizontal position, for the height (used by seeding only) and for the
      radius. */
  datatype Draw = Draw(forX: real, forY: real, forRadius: real)

  /** The values a seeding spawn draws all lie in [0, 1). */
  predicate ValidDraw(d: Draw) {
    IsUnit(d.forX) && IsUnit(d.forY) && IsUnit(d.forRadius)
  }

  /** The two values a live spawn draws lie in [0, 1); it draws none for
      the height. */
  predicate ValidLiveDraw(d: Draw) {
    IsUnit(d.forX) && IsUnit(d.forRadius)
  }

  /** The `balls` queue (oldest first), the ids of all bodies in the physics
      world, and the id the world hands out next. */
  datatype Scene = Scene(balls: seq<Ball>, world: set<nat>, nextId: nat)

  /** The ground, left wall and right wall, added to the world before any ball
      (main.js:41-56). */
  const Walls: set<nat> := {0, 1, 2}

  /** The scene before the first ball is spawned. */
  const Empty: Scene := Scene([], Walls, 3)

  function Ids(bs: seq<Ball>): set<nat> {
    set b | b in bs :: b.id
  }

  predicate DistinctIds(bs: seq<Ball>) {
    forall i, j :: 0 <= i < j < |bs| ==> bs[i].id != bs[j].id
  }

  /** The queue and the world agree: every queued ball is in the world, every
      body of the world is a wall or a queued ball, no ball is queued twice and
      every id in use is older than `nextId`. */
  predicate Synced(s: Scene) {
    && DistinctIds(s.balls)
    && Walls !! Ids(s.balls)
    && s.world == Walls + Ids(s.balls)
    && forall id | id in s.world :: id < s.nextId
  }

  lemma EmptySynced()
    ensures Synced(Empty)
  {
  }

  /** Whether inserting into `s` shifts the oldest ball out. */
  predicate Overflows(s: Scene, evict: bool) {
    evict && |s.balls| + 1 > TargetBallCount
  }

  /** Creates a body with a fresh id, puts it into the world and at the back
      of the queue; then, when `evict` holds and the queue has grown past the
      cap, takes the oldest ball off the front of the queue and out of the
      world. */
  function Insert(s: Scene, x: real, y: real, radius: real, evict: bool): (r: Scene)
    ensures |r.balls| > 0 && r.balls[|r.balls| - 1] == Ball(s.nextId, x, y, radius)
    ensures r.nextId == s.nextId + 1
    // the queue evolves as the bounded FIFO queue does
    ensures evict ==> r.balls == Admit(s.balls, Ball(s.nextId, x, y, radius)).queue
    // the oldest ball, and only it, leaves the queue and the world
    ensures Overflows(s, evict) ==>
              && [s.balls[0]] + r.balls == s.balls + [Ball(s.nextId, x, y, radius)]
              && r.world == (s.world + {s.nextId}) - {s.balls[0].id}
    ensures !Overflows(s, evict) ==>
              && r.balls == s.balls + [Ball(s.nextId, x, y, radius)]
              && r.world == s.world + {s.nextId}
    // the world stays the mirror of the queue
    ensures Synced(s) ==> Synced(r) && s.nextId !in s.world && s.nextId in r.world
    ensures Synced(s) && Overflows(s, evict) ==> s.balls[0].id !in r.world
  {
    var b := Ball(s.nextId, x, y, radius);
    if Overflows(s, evict) then
      var r := Scene(s.balls[1..] + [b], (s.world + {b.id}) - {s.balls[0].id}, s.nextId + 1);
      assert (s.balls + [b])[1..] == r.balls;
      InsertKeepsSync(s, b, evict, r);
      r
    else
      var r := Scene(s.balls + [b], s.world + {b.id}, s.nextId + 1);
      InsertKeepsSync(s, b, evict, r);
      r
  }

  lemma InsertKeepsSync(s: Scene, b: Ball, evict: bool, r: Scene)
    requires b.id == s.nextId
    requires Overflows(s, evict) ==> r.balls == s.balls[1..] + [b] && r.world == (s.world + {b.id}) - {s.balls[0].id}
    requires !Overflows(s, evict) ==> r.balls == s.balls + [b] && r.world == s.world + {b.id}
    requires r.nextId == s.nextId + 1
    ensures Synced(s) ==> Synced(r)
  {
    if Synced(s) {
      var pushed := s.balls + [b];
      PushFresh(s.balls, b);
      if Overflows(s, evict) {
        assert r.balls == pushed[1..];
        DropFront(pushed);
      }
    }
  }

  /** Pushing a ball whose id is not yet queued keeps the ids distinct. */
  lemma PushFresh(bs: seq<Ball>, b: Ball)
    requires DistinctIds(bs) && b.id !in Ids(bs)
    ensures DistinctIds(bs + [b]) && Ids(bs + [b]) == Ids(bs) + {b.id}
  {
    var pushed := bs + [b];
    forall i, j | 0 <= i < j < |pushed|
      ensures pushed[i].id != pushed[j].id
    {
      if j == |bs| {
        assert pushed[i] in bs;
      }
    }
  }

  /** Shifting out the front of a queue of distinct ids removes exactly
      that id. */
  lemma DropFront(bs: seq<Ball>)
    requires |bs| > 0 && DistinctIds(bs)
    ensures DistinctIds(bs[1..]) && Ids(bs[1..]) == Ids(bs) - {bs[0].id}
  {
    forall c | c in bs[1..]
      ensures c.id != bs[0].id
    {
      var k :| 0 <= k < |bs[1..]| && bs[1..][k] == c;
      assert bs[k + 1] == c;
    }
    forall c | c in bs && c.id != bs[0].id
      ensures c in bs[1..]
    {
      var k :| 0 <= k < |bs| && bs[k] == c;
      assert k != 0;
      assert bs[1..][k - 1] == c;
    }
  }

  /** spawnBall(isInitial) with the random values `d`, on a screen `width`
      wide. Seeding never evicts; a live spawn may evict the oldest ball. */
  function SpawnBall(s: Scene, isInitial: bool, d: Draw, width: real): (r: Scene)
    ensures |r.balls| > 0
    ensures var b := r.balls[|r.balls| - 1];
            && b.id == s.nextId
            && (IsUnit(d.forRadius) ==> MinBallRadius as real <= b.radius < MaxBallRadius as real)
            && (IsUnit(d.forX) && width > 2.0 * SpawnMargin ==> SpawnMargin <= b.x < width - SpawnMargin)
            && (!isInitial ==> b.y == LiveSpawnY)
            && (isInitial && IsUnit(d.forY) ==> -2100.0 < b.y <= -100.0)
    ensures r.nextId == s.nextId + 1
    ensures r.balls[|r.balls| - 1] ==
              Ball(s.nextId, SpawnX(d.forX, width), SpawnY(isInitial, d.forY), SpawnRadius(d.forRadius))
    // seeding, and a live spawn below the cap, only append
    ensures isInitial || |s.balls| < TargetBallCount ==> r.balls == s.balls + [r.balls[|r.balls| - 1]]
    // a live spawn at the cap drops exactly the oldest ball
    ensures !isInitial && |s.balls| >= TargetBallCount ==> r.balls == s.balls[1..] + [r.balls[|r.balls| - 1]]
    ensures !isInitial && |s.balls| <= TargetBallCount ==> |r.balls| == Min(|s.balls| + 1, TargetBallCount)
    ensures !isInitial ==> r.balls == Admit(s.balls, r.balls[|r.balls| - 1]).queue
    ensures Synced(s) ==> Synced(r)
  {
    Insert(s, SpawnX(d.forX, width), SpawnY(isInitial, d.forY), SpawnRadius(d.forRadius), !isInitial)
  }

  /** The ball a live spawn creates with id `id`. */
  function LiveBall(id: nat, d: Draw, width: real): Ball {
    Ball(id, SpawnX(d.forX, width), SpawnY(false, d.forY), SpawnRadius(d.forRadius))
  }

  /** The ball a seeding spawn creates with id `id`. */
  function SeedBall(id: nat, d: Draw, width: real): Ball {
    Ball(id, SpawnX(d.forX, width), SpawnY(true, d.forY), SpawnRadius(d.forRadius))
  }

  /** spawnBall(true) once per draw, in order. */
  function SeedBalls(s: Scene, draws: seq<Draw>, width: real): Scene
    decreases |draws|
  {
    if |draws| == 0 then s
    else SeedBalls(SpawnBall(s, true, draws[0], width), draws[1..], width)
  }

  /** Seeding appends one ball per draw, with consecutive fresh ids, after
      the existing balls and removes nothing from the world. */
  lemma {:induction false} SeedBallsAppends(s: Scene, draws: seq<Draw>, width: real)
    ensures var r := SeedBalls(s, draws, width);
            && |r.balls| == |s.balls| + |draws|
            && r.balls[..|s.balls|] == s.balls
            && (forall i | 0 <= i < |draws| ::
                  r.balls[|s.balls| + i] == SeedBall(s.nextId + i, draws[i], width))
            && s.world <= r.world
            && r.nextId == s.nextId + |draws|
            && (Synced(s) ==> Synced(r))
    decreases |draws|
  {
    if |draws| > 0 {
      var s1 := SpawnBall(s, true, draws[0], width);
      assert s1.balls == s.balls + [SeedBall(s.nextId, draws[0], width)];
      SeedBallsAppends(s1, draws[1..], width);
      var r := SeedBalls(s, draws, width);
      assert r == SeedBalls(s1, draws[1..], width);
      forall i | 0 <= i < |draws|
        ensures r.balls[|s.balls| + i] == SeedBall(s.nextId + i, draws[i], width)
      {
        if i > 0 {
          assert r.balls[|s1.balls| + (i - 1)] == SeedBall(s1.nextId + (i - 1), draws[1..][i - 1], width);
        } else {
          assert r.balls[..|s1.balls|][|s.balls|] == s1.balls[|s.balls|];
        }
      }
      assert r.balls[..|s.balls|] == r.balls[..|s1.balls|][..|s.balls|];
    }
  }

  /** spawnInitialBalls: `TargetBallCount` seeding spawns. */
  function SpawnInitialBalls(s: Scene, draws: seq<Draw>, width: real): (r: Scene)
    requires |draws| == TargetBallCount
    ensures |r.balls| == |s.balls| + TargetBallCount
    ensures r.balls[..|s.balls|] == s.balls
    ensures forall i | 0 <= i < TargetBallCount ::
              r.balls[|s.balls| + i] == SeedBall(s.nextId + i, draws[i], width)
    ensures s.world <= r.world
    ensures Synced(s) ==> Synced(r)
  {
    SeedBallsAppends(s, draws, width);
    SeedBalls(s, draws, width)
  }

  /** Startup seeding fills the empty scene to exactly the target count,
      with every seeded body in the world and nothing removed. */
  lemma InitialSeedingFills(draws: seq<Draw>, width: real)
    requires |draws| == TargetBallCount
    ensures var r := SpawnInitialBalls(Empty, draws, width);
            && |r.balls| == TargetBallCount
            && Synced(r)
            && forall id | Empty.nextId <= id < Empty.nextId + TargetBallCount :: id in r.world
  {
    var r := SpawnInitialBalls(Empty, draws, width);
    EmptySynced();
    forall id | Empty.nextId <= id < Empty.nextId + TargetBallCount
      ensures id in r.world
    {
      var i := id - Empty.nextId;
      assert r.balls[0 + i] == SeedBall(Empty.nextId + i, draws[i], width);
      assert r.balls[i] in r.balls;
    }
  }

  /** The balls that live spawns with consecutive ids starting at `id` create. */
  function LiveBalls(id: nat, draws: seq<Draw>, width: real): seq<Ball> {
    seq(|draws|, i requires 0 <= i < |draws| => LiveBall(id + i, draws[i], width))
  }

  lemma LiveBallsCons(id: nat, draws: seq<Draw>, width: real)
    requires |draws| > 0
    ensures LiveBalls(id, draws, width) == [LiveBall(id, draws[0], width)] + LiveBalls(id + 1, draws[1..], width)
  {
  }

  /** spawnBall(false) once per draw, in order: the timer firing repeatedly. */
  function SpawnLive(s: Scene, draws: seq<Draw>, width: real): Scene
    decreases |draws|
  {
    if |draws| == 0 then s
    else SpawnLive(SpawnBall(s, false, draws[0], width), draws[1..], width)
  }

  /** A run of live spawns keeps the queue that first-in-first-out admission
      of the created balls predicts. */
  lemma {:induction false} SpawnLiveIsAdmitAll(s: Scene, draws: seq<Draw>, width: real)
    ensures SpawnLive(s, draws, width).balls == AdmitAll(s.balls, LiveBalls(s.nextId, draws, width)).queue
    decreases |draws|
  {
    if |draws| > 0 {
      var s1 := SpawnBall(s, false, draws[0], width);
      var b := LiveBall(s.nextId, draws[0], width);
      var rest := LiveBalls(s.nextId + 1, draws[1..], width);
      assert LiveBalls(s.nextId, draws, width) == [b] + rest by {
        LiveBallsCons(s.nextId, draws, width);
      }
      calc {
        SpawnLive(s, draws, width).balls;
        SpawnLive(s1, draws[1..], width).balls;
        { SpawnLiveIsAdmitAll(s1, draws[1..], width); }
        AdmitAll(Admit(s.balls, b).queue, rest).queue;
        { AdmitAllCons(s.balls, b, rest); }
        AdmitAll(s.balls, [b] + rest).queue;
      }
    }
  }

  /** A run of live spawns keeps the world in sync with the queue and uses
      one fresh id per spawn. */
  lemma {:induction false} SpawnLiveKeepsSync(s: Scene, draws: seq<Draw>, width: real)
    ensures SpawnLive(s, draws, width).nextId == s.nextId + |draws|
    ensures Synced(s) ==> Synced(SpawnLive(s, draws, width))
    decreases |draws|
  {
    if |draws| > 0 {
      SpawnLiveKeepsSync(SpawnBall(s, false, draws[0], width), draws[1..], width);
    }
  }

  /** Live-spawned balls carry ids from `id` upwards. */
  lemma LiveBallIdsFrom(id: nat, draws: seq<Draw>, width: real)
    ensures forall c | c in LiveBalls(id, draws, width) :: c.id >= id
  {
    var bs := LiveBalls(id, draws, width);
    forall c | c in bs
      ensures c.id >= id
    {
      var k :| 0 <= k < |bs| && bs[k] == c;
      assert bs[k] == LiveBall(id + k, draws[k], width);
    }
  }

  /** The startup scenario: after seeding and then `TargetBallCount` live
      spawns, every seeded ball has been evicted from the queue and the world
      and the queue holds exactly the live-spawned balls, oldest first. */
  lemma SeedThenFullTurnover(seed: seq<Draw>, live: seq<Draw>, width: real)
    requires |seed| == TargetBallCount && |live| == TargetBallCount
    ensures var s0 := SpawnInitialBalls(Empty, seed, width);
            var r := SpawnLive(s0, live, width);
            && r.balls == LiveBalls(s0.nextId, live, width)
            && Synced(r)
            && forall b | b in s0.balls :: b.id !in r.world
  {
    var s0 := SpawnInitialBalls(Empty, seed, width);
    EmptySynced();
    assert Synced(s0);
    var bs := LiveBalls(s0.nextId, live, width);
    SpawnLiveIsAdmitAll(s0, live, width);
    SpawnLiveKeepsSync(s0, live, width);
    FullTurnover(s0.balls, bs);
    var r := SpawnLive(s0, live, width);
    assert r.balls == bs;
    LiveBallIdsFrom(s0.nextId, live, width);
    forall b | b in s0.balls
      ensures b.id !in r.world
    {
      assert b.id in s0.world;
      assert b.id !in Walls;
      assert b.id !in Ids(r.balls);
    }
  }
}
