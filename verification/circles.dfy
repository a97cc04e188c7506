/**
  The circles of one round of Boomshine: their data, the batch a round starts
  with (makeCircles), and the per-frame update of a single circle
  (the body of moveCircles), including the wall bounce.

  Positions, radii, speeds and the frame time dt are `real`s; the browser's
  floating point rounding is not modelled.
 */
module Circles {

  /** Life-cycle stage of a circle.  The source's enum spells the fourth key
      IMPLOADING, while both the writer and the matching `case` use the key
      IMPLODING, which is undefined; the two agree, so that value behaves as a
      fifth distinct stage, modelled here as `Imploding`. */
  datatype CircleState = Normal | Exploding | MaxSize | Imploding | Done

  /** Position of a stage in the life cycle Normal -> ... -> Done. */
  function Rank(s: CircleState): nat
  {
    match s
    case Normal => 0
    case Exploding => 1
    case MaxSize => 2
    case Imploding => 3
    case Done => 4
  }

  /** A circle that can set off its neighbours: neither Normal nor Done. */
  predicate IsActive(s: CircleState)
  {
    s.Exploding? || s.MaxSize? || s.Imploding?
  }

  /** A circle that no longer takes part in a chain reaction: Normal or Done. */
  predicate Settled(c: Circle)
  {
    c.state.Normal? || c.state.Done?
  }

  /** One circle.  (xSpeed, ySpeed) is the direction, `speed` its scalar
      multiplier; the drop-shadow coordinates are drawing data and left out. */
  datatype Circle = Circle(
    x: real,
    y: real,
    radius: real,
    xSpeed: real,
    ySpeed: real,
    speed: real,
    lifetime: real,
    fill: string,
    state: CircleState)

  /** The geometry constants that resizing the window rewrites. */
  datatype Config = Config(
    width: real,
    height: real,
    startRadius: real,
    maxRadius: real,
    explosionSpeed: real,
    implosionSpeed: real)

  /** The values the constant table holds before the first resize. */
  const InitialConfig := Config(640.0, 480.0, 20.0, 45.0, 60.0, 84.0)

  const MinRadius: real := 2.0
  const MaxLifetime: real := 2.0
  const MaxSpeed: real := 120.0

  const Palette: seq<string> :=
    ["#00308f", "#e30074", "#b8d000", "#FFFF66", "#66FF66", "#50BFE6", "#FF6EFF", "#EE34D2"]

  /** The random draws one new circle consumes: a position and a unit direction. */
  datatype Spawn = Spawn(x: real, y: real, dx: real, dy: real)

  // ---------------------------------------------------------------------------
  // Creation

  function NewCircle(cfg: Config, i: nat, s: Spawn): Circle
  {
    Circle(s.x, s.y, cfg.startRadius, s.dx, s.dy, MaxSpeed, 0.0, Palette[i % |Palette|], Normal)
  }

  /** makeCircles: `num` fresh circles; circle i takes its position and
      direction from the i-th random draw `spawn(i)`. */
  function MakeCircles(cfg: Config, num: nat, spawn: nat -> Spawn): (r: seq<Circle>)
    ensures |r| == num
    ensures forall i :: 0 <= i < num ==>
      && r[i].state == Normal
      && r[i].lifetime == 0.0
      && r[i].radius == cfg.startRadius
      && r[i].speed == MaxSpeed
      && r[i].fill == Palette[i % |Palette|]
      && r[i].x == spawn(i).x && r[i].y == spawn(i).y
      && r[i].xSpeed == spawn(i).dx && r[i].ySpeed == spawn(i).dy
  {
    var r := seq(num, (i: nat) => NewCircle(cfg, i, spawn(i)));
    assert forall i :: 0 <= i < num ==> r[i] == NewCircle(cfg, i, spawn(i));
    r
  }

  /** The colours of a fresh batch repeat every eight circles. */
  lemma ColoursRepeat(cfg: Config, num: nat, spawn: nat -> Spawn, i: nat)
    requires i + |Palette| < num
    ensures MakeCircles(cfg, num, spawn)[i].fill == MakeCircles(cfg, num, spawn)[i + 8].fill
  {
    assert |Palette| == 8;
    assert (i + 8) % 8 == i % 8;
  }

  /** Consecutive circles of a fresh batch never share a colour, in a batch
      of any size. */
  lemma NeighbourColoursDiffer(cfg: Config, num: nat, spawn: nat -> Spawn, i: nat)
    requires i + 1 < num
    ensures MakeCircles(cfg, num, spawn)[i].fill != MakeCircles(cfg, num, spawn)[i + 1].fill
  {
    assert |Palette| == 8;
    assert (i + 1) % 8 != i % 8;
  }

  // ---------------------------------------------------------------------------
  // Per-frame update

  /** The circle's own `move(dt)`: one step along its velocity, no bounds check. */
  function Move(c: Circle, dt: real): (r: Circle)
    ensures r.x - c.x == c.xSpeed * c.speed * dt && r.y - c.y == c.ySpeed * c.speed * dt
    ensures r.(x := c.x, y := c.y) == c
    ensures c.xSpeed == 0.0 && c.ySpeed == 0.0 ==> r == c
  {
    c.(x := c.x + c.xSpeed * c.speed * dt, y := c.y + c.ySpeed * c.speed * dt)
  }

  /** circleHitLeftRight: the circle is not wholly between the side walls. */
  function HitLeftRight(cfg: Config, c: Circle): (hit: bool)
    ensures hit <==> !(c.radius <= c.x <= cfg.width - c.radius)
  {
    c.x < c.radius || c.x > cfg.width - c.radius
  }

  /** circleHitTopBottom: the circle is not wholly between floor and ceiling. */
  function HitTopBottom(cfg: Config, c: Circle): (hit: bool)
    ensures hit <==> !(c.y >= c.radius && c.y <= cfg.height - c.radius)
  {
    c.y < c.radius || c.y > cfg.height - c.radius
  }

  /** The state-dependent part of one frame.  Each stage change is checked
      after the whole `dt` step, so the radius can overshoot `maxRadius` and
      undershoot `MinRadius`. */
  function Advance(cfg: Config, c: Circle, dt: real): (r: Circle)
    ensures r.xSpeed == c.xSpeed && r.ySpeed == c.ySpeed && r.speed == c.speed && r.fill == c.fill
    ensures c.state == Normal ==> r == Move(c, dt)
    ensures c.state != Normal ==> r.x == c.x && r.y == c.y
    ensures c.state == Exploding ==>
      && r.radius == c.radius + cfg.explosionSpeed * dt
      && r.lifetime == c.lifetime
      && (r.state == MaxSize <==> r.radius >= cfg.maxRadius)
      && (r.state == Exploding <==> r.radius < cfg.maxRadius)
    ensures c.state == MaxSize ==>
      && r.lifetime == c.lifetime + dt
      && r.radius == c.radius
      && (r.state == Imploding <==> r.lifetime >= MaxLifetime)
      && (r.state == MaxSize <==> r.lifetime < MaxLifetime)
    ensures c.state == Imploding ==>
      && r.radius == c.radius - cfg.implosionSpeed * dt
      && r.lifetime == c.lifetime
      && (r.state == Done <==> r.radius <= MinRadius)
      && (r.state == Imploding <==> r.radius > MinRadius)
    ensures c.state == Done ==> r == c
  {
    match c.state
    case Normal => Move(c, dt)
    case Exploding =>
      var radius := c.radius + cfg.explosionSpeed * dt;
      c.(radius := radius, state := if radius >= cfg.maxRadius then MaxSize else Exploding)
    case MaxSize =>
      var lifetime := c.lifetime + dt;
      c.(lifetime := lifetime, state := if lifetime >= MaxLifetime then Imploding else MaxSize)
    case Imploding =>
      var radius := c.radius - cfg.implosionSpeed * dt;
      c.(radius := radius, state := if radius <= MinRadius then Done else Imploding)
    case Done => c
  }

  /** The wall checks that follow: a hit negates one direction component and
      moves the circle once more in the same frame; the top/bottom test sees
      the circle as the left/right bounce left it. */
  function Bounce(cfg: Config, c: Circle, dt: real): (r: Circle)
    ensures r.state == c.state && r.radius == c.radius && r.lifetime == c.lifetime
    ensures r.speed == c.speed && r.fill == c.fill
    ensures r.xSpeed == c.xSpeed || r.xSpeed == -c.xSpeed
    ensures r.ySpeed == c.ySpeed || r.ySpeed == -c.ySpeed
    ensures c.xSpeed == 0.0 && c.ySpeed == 0.0 ==> r == c
    ensures r.xSpeed == (if HitLeftRight(cfg, c) then -c.xSpeed else c.xSpeed)
    ensures
      var afterSide := if HitLeftRight(cfg, c) then Move(c.(xSpeed := -c.xSpeed), dt) else c;
      && r.ySpeed == (if HitTopBottom(cfg, afterSide) then -c.ySpeed else c.ySpeed)
      && r.x == c.x + (if HitLeftRight(cfg, c) then -c.xSpeed * c.speed * dt else 0.0)
                    + (if HitTopBottom(cfg, afterSide) then r.xSpeed * c.speed * dt else 0.0)
      && r.y == c.y + (if HitLeftRight(cfg, c) then c.ySpeed * c.speed * dt else 0.0)
                    + (if HitTopBottom(cfg, afterSide) then -c.ySpeed * c.speed * dt else 0.0)
  {
    var c1 := if HitLeftRight(cfg, c) then Move(c.(xSpeed := -c.xSpeed), dt) else c;
    if HitTopBottom(cfg, c1) then Move(c1.(ySpeed := -c1.ySpeed), dt) else c1
  }

  /** One circle's update in moveCircles. */
  function StepCircle(cfg: Config, c: Circle, dt: real): (r: Circle)
    ensures c.state == Normal ==>
      r.state == Normal && r.radius == c.radius && r.lifetime == c.lifetime
    ensures c.state == Exploding ==>
      && r.radius == c.radius + cfg.explosionSpeed * dt
      && r.lifetime == c.lifetime
      && (r.state == MaxSize <==> r.radius >= cfg.maxRadius)
      && (r.state == Exploding <==> r.radius < cfg.maxRadius)
    ensures c.state == MaxSize ==>
      && r.lifetime == c.lifetime + dt
      && r.radius == c.radius
      && (r.state == Imploding <==> r.lifetime >= MaxLifetime)
      && (r.state == MaxSize <==> r.lifetime < MaxLifetime)
    ensures c.state == Imploding ==>
      && r.radius == c.radius - cfg.implosionSpeed * dt
      && r.lifetime == c.lifetime
      && (r.state == Done <==> r.radius <= MinRadius)
      && (r.state == Imploding <==> r.radius > MinRadius)
    ensures c.state == Done ==>
      r.state == Done && r.radius == c.radius && r.lifetime == c.lifetime
    ensures Rank(c.state) <= Rank(r.state) <= Rank(c.state) + 1
    ensures r.speed == c.speed && r.fill == c.fill
    ensures c.xSpeed == 0.0 && c.ySpeed == 0.0 ==>
      r.x == c.x && r.y == c.y && r.xSpeed == 0.0 && r.ySpeed == 0.0
  {
    Bounce(cfg, Advance(cfg, c, dt), dt)
  }

  /** A Normal circle that meets no wall moves by direction * speed * dt. */
  lemma NormalStepWithoutWall(cfg: Config, c: Circle, dt: real)
    requires c.state == Normal
    requires !HitLeftRight(cfg, Move(c, dt)) && !HitTopBottom(cfg, Move(c, dt))
    ensures StepCircle(cfg, c, dt).x == c.x + c.xSpeed * c.speed * dt
    ensures StepCircle(cfg, c, dt).y == c.y + c.ySpeed * c.speed * dt
    ensures StepCircle(cfg, c, dt).xSpeed == c.xSpeed
    ensures StepCircle(cfg, c, dt).ySpeed == c.ySpeed
  {
  }

  /** A Normal circle that ends its move past a side wall (and clear of the
      top and bottom) turns round and is moved a second time in the same
      frame, so its horizontal step cancels out while its vertical step
      is taken twice. */
  lemma SideBounceMovesTwice(cfg: Config, c: Circle, dt: real)
    requires c.state == Normal
    requires HitLeftRight(cfg, Move(c, dt))
    requires !HitTopBottom(cfg, Move(Move(c, dt).(xSpeed := -c.xSpeed), dt))
    ensures StepCircle(cfg, c, dt).xSpeed == -c.xSpeed
    ensures StepCircle(cfg, c, dt).x == c.x
    ensures StepCircle(cfg, c, dt).y == c.y + 2.0 * c.ySpeed * c.speed * dt
  {
  }

  /** The same for a floor or ceiling hit: the vertical step cancels out. */
  lemma FloorBounceMovesTwice(cfg: Config, c: Circle, dt: real)
    requires c.state == Normal
    requires !HitLeftRight(cfg, Move(c, dt))
    requires HitTopBottom(cfg, Move(c, dt))
    ensures StepCircle(cfg, c, dt).ySpeed == -c.ySpeed
    ensures StepCircle(cfg, c, dt).y == c.y
    ensures StepCircle(cfg, c, dt).x == c.x + 2.0 * c.xSpeed * c.speed * dt
  {
  }

  /** A Normal circle that ends its move in a corner, past a side wall and,
      after the side bounce, past the floor or ceiling, turns round on both
      axes and is moved three times: it ends one step back along x and one
      step forward along y. */
  lemma CornerBounce(cfg: Config, c: Circle, dt: real)
    requires c.state == Normal
    requires HitLeftRight(cfg, Move(c, dt))
    requires HitTopBottom(cfg, Move(Move(c, dt).(xSpeed := -c.xSpeed), dt))
    ensures StepCircle(cfg, c, dt).xSpeed == -c.xSpeed
    ensures StepCircle(cfg, c, dt).ySpeed == -c.ySpeed
    ensures StepCircle(cfg, c, dt).x == c.x - c.xSpeed * c.speed * dt
    ensures StepCircle(cfg, c, dt).y == c.y + c.ySpeed * c.speed * dt
  {
  }

  /** With the initial constants and the longest frame the clamp allows
      (dt = 1/12), an exploding circle just below the maximum radius ends
      the frame above it, and an imploding circle just above the minimum
      ends it with a negative radius: neither bound is kept. */
  lemma RadiusLeavesBounds(e: Circle, m: Circle)
    requires e.state == Exploding && e.radius == 44.5
    requires m.state == Imploding && m.radius == 3.0
    ensures StepCircle(InitialConfig, e, 1.0 / 12.0).state == MaxSize
    ensures StepCircle(InitialConfig, e, 1.0 / 12.0).radius > InitialConfig.maxRadius
    ensures StepCircle(InitialConfig, m, 1.0 / 12.0).state == Done
    ensures StepCircle(InitialConfig, m, 1.0 / 12.0).radius < 0.0
  {
  }

  /** moveCircles: every circle takes its own step, independently of the others. */
  function MoveCircles(cfg: Config, cs: seq<Circle>, dt: real): (r: seq<Circle>)
    ensures |r| == |cs|
    ensures forall k :: 0 <= k < |cs| ==> r[k] == StepCircle(cfg, cs[k], dt)
    ensures forall k :: 0 <= k < |cs| ==> (r[k].state.Normal? <==> cs[k].state.Normal?)
    ensures forall k :: 0 <= k < |cs| ==> (Settled(r[k]) <== Settled(cs[k]))
    ensures NonNormal(r) == NonNormal(cs)
  {
    var r := seq(|cs|, k requires 0 <= k < |cs| => StepCircle(cfg, cs[k], dt));
    SameNormalitySameCount(cs, r);
    r
  }

  // ---------------------------------------------------------------------------
  // Counting

  /** Number of circles that have left the Normal stage. */
  function NonNormal(cs: seq<Circle>): (n: nat)
    ensures n <= |cs|
    ensures n == 0 <==> forall k :: 0 <= k < |cs| ==> cs[k].state.Normal?
  {
    if |cs| == 0 then 0
    else
      var rest := NonNormal(cs[1..]);
      assert forall k :: 1 <= k < |cs| ==> cs[k] == cs[1..][k - 1];
      (if cs[0].state.Normal? then 0 else 1) + rest
  }

  /** Turning one Normal circle into a non-Normal one raises the count by one. */
  lemma {:induction false} NonNormalUpdate(cs: seq<Circle>, j: nat, v: Circle)
    requires j < |cs| && cs[j].state.Normal? && !v.state.Normal?
    ensures NonNormal(cs[j := v]) == NonNormal(cs) + 1
  {
    if j == 0 {
      assert cs[j := v][1..] == cs[1..];
    } else {
      assert cs[j := v][1..] == cs[1..][j - 1 := v];
      NonNormalUpdate(cs[1..], j - 1, v);
    }
  }

  /** The count only depends on which circles are Normal. */
  lemma {:induction false} SameNormalitySameCount(a: seq<Circle>, b: seq<Circle>)
    requires |a| == |b|
    requires forall k :: 0 <= k < |a| ==> (a[k].state.Normal? <==> b[k].state.Normal?)
    ensures NonNormal(a) == NonNormal(b)
  {
    if |a| > 0 {
      assert forall k :: 0 <= k < |a| - 1 ==> a[1..][k] == a[k + 1] && b[1..][k] == b[k + 1];
      SameNormalitySameCount(a[1..], b[1..]);
    }
  }
}
