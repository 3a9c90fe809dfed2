/**
 * `moveTank` of the current game loop (components/GameCanvas.tsx): speed
 * smoothing toward a limit, the turn toward the target heading, and the
 * blocked-step test. The heading vector `(cos, sin)` of the new rotation
 * is an input.
 */
module Movement {
  import opened Types
  import GameLogic
  import Tactics

  /** A buff timer is running: the source tests `timer && timer > now`. */
  predicate TimerActive(timer: real, now: real) {
    timer != 0.0 && timer > now
  }

  predicate InWater(t: Tank, walls: seq<Wall>) {
    exists j :: 0 <= j < |walls| && walls[j].kind == Water
      && GameLogic.Collides(GameLogic.TankBody(t), GameLogic.WallBody(walls[j]))
  }

  /**
   * `isBlocked(p)` for tank `i`: a solid wall, another living tank (told
   * apart by id) or the world edge is in the way of the tank placed at `p`.
   */
  predicate Blocked(tanks: seq<Tank>, walls: seq<Wall>, i: nat, p: Vec, width: real, height: real)
    requires i < |tanks|
  {
    var probe := GameLogic.TankBody(tanks[i].(pos := p));
    || (exists j :: 0 <= j < |walls| && walls[j].kind != Water
          && GameLogic.Collides(probe, GameLogic.WallBody(walls[j])))
    || (exists j :: 0 <= j < |tanks| && tanks[j].id != tanks[i].id && tanks[j].health > 0.0
          && GameLogic.Collides(probe, GameLogic.TankBody(tanks[j])))
    || GameLogic.IsOutOfBounds(p, TankSize, width, height)
  }

  /** The speed the tank eases toward: 0 when idle, else its speed times the buff, halved in water. */
  function SpeedLimit(t: Tank, idle: bool, inWater: bool, now: real): (l: real)
    ensures idle ==> l == 0.0
    ensures !idle && !inWater ==> l == t.speed * (if TimerActive(t.buffs.speedTimer, now) then 1.8 else 1.0)
    ensures !idle && inWater ==> l == t.speed * (if TimerActive(t.buffs.speedTimer, now) then 0.9 else 0.5)
  {
    var mult := if TimerActive(t.buffs.speedTimer, now) then SpeedMult else 1.0;
    var base := if idle then 0.0 else t.speed * mult;
    if inWater then base * WaterSlowFactor else base
  }

  function Min(a: real, b: real): real { if a <= b then a else b }

  /** `current + (target - current) * f`: easing a fraction `f` of the way toward `target`. */
  function Ease(current: real, target: real, f: real): real {
    current + (target - current) * f
  }

  /** Easing by a fraction in [0, 1] lands between the start and the goal, and on the goal for 1. */
  lemma EaseBetween(current: real, target: real, f: real)
    ensures 0.0 <= f <= 1.0 ==>
      (current <= Ease(current, target, f) <= target) || (target <= Ease(current, target, f) <= current)
    ensures f == 1.0 ==> Ease(current, target, f) == target
  {
    var diff := target - current;
    if 0.0 <= f <= 1.0 {
      if diff >= 0.0 {
        GameLogic.ProductNonNegative(diff, f);
        GameLogic.ProductNonNegative(diff, 1.0 - f);
      } else {
        GameLogic.ProductNonNegative(-diff, f);
        GameLogic.ProductNonNegative(-diff, 1.0 - f);
      }
    }
  }

  /** The easing fraction `min(1, rate * dt)`. */
  function Fraction(rate: real, dt: real): real { Min(1.0, rate * dt) }

  /** A rate of at least 2 per second gives a fraction in [0, 1], and the full step after half a second. */
  lemma FractionRange(rate: real, dt: real)
    requires rate >= 2.0
    ensures dt >= 0.0 ==> 0.0 <= Fraction(rate, dt) <= 1.0
    ensures dt >= 0.5 ==> Fraction(rate, dt) == 1.0
  {
    if dt >= 0.0 {
      GameLogic.ProductNonNegative(rate, dt);
    }
    if dt >= 0.5 {
      GameLogic.ProductNonNegative(rate - 2.0, dt);
    }
  }

  /**
   * The smoothed speed after `dt` seconds. Rates are 8 (accelerate) and
   * 12 (brake) per second on land, 2 and 4 in water; an idle tank brakes
   * toward 0 and stops once it is below 1.
   */
  function NextSpeed(current: real, limit: real, idle: bool, inWater: bool, dt: real): (s: real)
    ensures dt >= 0.0 && !idle ==> (current <= s <= limit) || (limit <= s <= current)
    ensures dt >= 0.0 && idle && current >= 0.0 ==> 0.0 <= s <= current
    ensures idle ==> s == 0.0 || s >= 1.0
    ensures !idle && dt >= 0.5 ==> s == limit
  {
    var accel := if inWater then 2.0 else 8.0;
    var friction := if inWater then 4.0 else 12.0;
    var target := if idle then 0.0 else limit;
    var rate := if !idle && target - current > 0.0 then accel else friction;
    FractionRange(rate, dt);
    EaseBetween(current, target, Fraction(rate, dt));
    var eased := Ease(current, target, Fraction(rate, dt));
    if idle && eased < 1.0 then 0.0 else eased
  }

  /** The speed `moveTank` computes for tank `i` before it tries the step. */
  function SmoothedSpeed(tanks: seq<Tank>, walls: seq<Wall>, i: nat, dx: real, dy: real, dt: real, now: real): real
    requires i < |tanks|
  {
    var idle := dx == 0.0 && dy == 0.0;
    var water := InWater(tanks[i], walls);
    NextSpeed(tanks[i].currentSpeed, SpeedLimit(tanks[i], idle, water, now), idle, water, dt)
  }

  /** The position after moving `speed * dt` along `heading`. */
  function Step(p: Vec, heading: Vec, speed: real, dt: real): Vec {
    Vec(p.x + heading.x * speed * dt, p.y + heading.y * speed * dt)
  }

  /** The outcome of one `moveTank` call. */
  datatype Move = Move(tank: Tank, moved: bool)

  /**
   * `moveTank(t, dx, dy, ·)` for tank `i`: `targetAngle` is the heading
   * it turns toward (the forced angle, `atan2(dy, dx)`, or its rotation
   * when idle) and `heading` the unit vector of the rotation after the turn.
   */
  function MoveResult(tanks: seq<Tank>, walls: seq<Wall>, i: nat, dx: real, dy: real, targetAngle: real,
                      heading: Vec, dt: real, now: real, width: real, height: real): (m: Move)
    requires i < |tanks|
    ensures m.tank == tanks[i].(pos := m.tank.pos, currentSpeed := m.tank.currentSpeed, rotation := m.tank.rotation)
    ensures !m.moved ==> m.tank.pos == tanks[i].pos
    ensures m.moved ==> !Blocked(tanks, walls, i, m.tank.pos, width, height)
    ensures m.moved ==> m.tank.pos == Step(tanks[i].pos, heading, SmoothedSpeed(tanks, walls, i, dx, dy, dt, now), dt)
    ensures m.moved ==> m.tank.currentSpeed == SmoothedSpeed(tanks, walls, i, dx, dy, dt, now) > 0.05
    ensures !m.moved && SmoothedSpeed(tanks, walls, i, dx, dy, dt, now) > 0.05 ==>
      m.tank.currentSpeed == SmoothedSpeed(tanks, walls, i, dx, dy, dt, now) * 0.1
    ensures SmoothedSpeed(tanks, walls, i, dx, dy, dt, now) <= 0.05 ==>
      !m.moved && m.tank.currentSpeed == SmoothedSpeed(tanks, walls, i, dx, dy, dt, now)
    ensures (SmoothedSpeed(tanks, walls, i, dx, dy, dt, now) > 0.05
             && !Blocked(tanks, walls, i, Step(tanks[i].pos, heading, SmoothedSpeed(tanks, walls, i, dx, dy, dt, now), dt), width, height)) ==>
      m.moved
    ensures m.tank.rotation == Tactics.LerpAngle(tanks[i].rotation, targetAngle, if dx == 0.0 && dy == 0.0 then 0.04 else 0.25)
    ensures var step := if dx == 0.0 && dy == 0.0 then 0.04 else 0.25;
      -step <= m.tank.rotation - tanks[i].rotation <= step
  {
    var t := tanks[i];
    var idle := dx == 0.0 && dy == 0.0;
    var s := SmoothedSpeed(tanks, walls, i, dx, dy, dt, now);
    var rot := Tactics.LerpAngle(t.rotation, targetAngle, if idle then 0.04 else 0.25);
    var turned := t.(currentSpeed := s, rotation := rot);
    if s > 0.05 then
      var p := Step(t.pos, heading, s, dt);
      if !Blocked(tanks, walls, i, p, width, height) then Move(turned.(pos := p), true)
      else Move(turned.(currentSpeed := s * 0.1), false)
    else Move(turned, false)
  }
}
