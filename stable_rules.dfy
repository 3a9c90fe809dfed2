/**
 * The rules of the older game loop (_backup_stable/components/GameCanvas.tsx)
 * where they differ from the current ones: the enemy commander's reply
 * table, the threat-weighted choice of a heal pack, the stuck and reverse
 * counters, bullets that move one step per frame against the unscaled
 * collision test, walls worn by the bullet's damage, the older damage and
 * kill rule without assists, a tighter defender radius at the bases and a
 * respawn on the spawn point.
 *
 * `dirOf(angle)` stands for `(Math.cos(angle), Math.sin(angle))` and
 * `dist(a, b)` for `getDistance(a, b)`.
 */
module StableRules {
  import opened Types
  import GameLogic
  import StableGameLogic
  import Tactics
  import Movement
  import Combat
  import Objectives

  // --------------------------------------------------- enemy commander

  /** The enemies' base counts as under attack: progress above 500, or the player within 900 of it. */
  predicate BaseThreatened(enemyBaseProgress: real, playerToEnemyBaseSq: real) {
    enemyBaseProgress > 500.0 || playerToEnemyBaseSq < 900.0 * 900.0
  }

  /** A player command the `switch` answers by name; FREE, FREE_PLANNING and null fall to `default`. */
  predicate Answered(c: Option<Command>) {
    c.Some? && c.value in {Attack, Capture, Defend, Surround, Recon}
  }

  /**
   * The enemy commander's counter to the player's command. Each reply is
   * characterised by the situations that lead to it; RECON is never a
   * reply, and outside an attack on the base a command the table names is
   * never answered with itself.
   */
  function CounterCommand(threatened: bool, current: Option<Command>, healthyEnemies: nat, healthyAllies: nat,
                          playerHealth: real): (r: Command)
    ensures r == Defend <==> threatened || (current == Some(Attack) && healthyEnemies < healthyAllies)
    ensures r == Surround <==>
      (!threatened && ((current == Some(Attack) && healthyEnemies >= healthyAllies) || (!Answered(current) && playerHealth < 40.0)))
    ensures r == Attack <==> !threatened && (current == Some(Capture) || current == Some(Surround))
    ensures r == Capture <==> !threatened && current == Some(Defend)
    ensures r == FreePlanning <==> !threatened && current == Some(Recon)
    ensures r == Free <==> !threatened && !Answered(current) && playerHealth >= 40.0
    ensures r != Recon
    ensures !threatened && Answered(current) ==> r != current.value
  {
    if threatened then Defend
    else match current
      case Some(Attack) => if healthyEnemies >= healthyAllies then Surround else Defend
      case Some(Capture) => Attack
      case Some(Defend) => Capture
      case Some(Surround) => Attack
      case Some(Recon) => FreePlanning
      case _ => if playerHealth < 40.0 then Surround else Free
  }

  // ------------------------------------------------------- heal packs

  /** One foe's share of the danger at a heal pack `d` away: `800 - d` inside 800, else nothing. */
  function Danger(d: real): real {
    if d < 800.0 then 800.0 - d else 0.0
  }

  /** `foes.reduce((acc, f) => acc + danger(getDistance(f.pos, at)), 0)` over the first `n` foes. */
  function Threat(foes: seq<Tank>, at: Vec, dist: (Vec, Vec) -> real, n: nat): real
    requires n <= |foes|
  {
    if n == 0 then 0.0 else Threat(foes, at, dist, n - 1) + Danger(dist(foes[n - 1].pos, at))
  }

  /**
   * The threat term is never negative, vanishes exactly when no foe is
   * within 800 of the pack, and is at most 800 per foe for distances that
   * are not negative.
   */
  lemma {:induction false} ThreatRange(foes: seq<Tank>, at: Vec, dist: (Vec, Vec) -> real, n: nat)
    requires n <= |foes|
    ensures Threat(foes, at, dist, n) >= 0.0
    ensures Threat(foes, at, dist, n) == 0.0 <==> forall k :: 0 <= k < n ==> dist(foes[k].pos, at) >= 800.0
    ensures (forall k :: 0 <= k < n ==> dist(foes[k].pos, at) >= 0.0) ==> Threat(foes, at, dist, n) <= 800.0 * n as real
  {
    if n > 0 {
      ThreatRange(foes, at, dist, n - 1);
    }
  }

  /** The cost `runAI` sorts heal packs by: the distance to the pack plus the threat around it. */
  function Cost(t: Tank, hp: Item, foes: seq<Tank>, dist: (Vec, Vec) -> real): real {
    dist(t.pos, hp.pos) + Threat(foes, hp.pos, dist, |foes|)
  }

  /**
   * `healItems.sort((a, b) => a.cost - b.cost)[0]` among the first `n`
   * items, as an index into the items: a heal pack of least cost, and the
   * earliest of those (the sort is stable).
   */
  function CheapestHeal(t: Tank, items: seq<Item>, foes: seq<Tank>, dist: (Vec, Vec) -> real, n: nat): (r: Option<nat>)
    requires n <= |items|
    ensures r.None? <==> forall k :: 0 <= k < n ==> items[k].kind != Heal
    ensures r.Some? ==> r.value < n && items[r.value].kind == Heal
    ensures r.Some? ==> forall k :: 0 <= k < n && items[k].kind == Heal ==>
      Cost(t, items[r.value], foes, dist) <= Cost(t, items[k], foes, dist)
    ensures r.Some? ==> forall k :: 0 <= k < r.value && items[k].kind == Heal ==>
      Cost(t, items[k], foes, dist) > Cost(t, items[r.value], foes, dist)
  {
    if n == 0 then None
    else
      var prev := CheapestHeal(t, items, foes, dist, n - 1);
      if items[n - 1].kind == Heal && (prev.None? || Cost(t, items[n - 1], foes, dist) < Cost(t, items[prev.value], foes, dist))
      then Some(n - 1)
      else prev
  }

  /** The SEEK_HEALTH branch of `runAI`: taken below 50 health while any heal pack lies on the ground. */
  function HealTarget(t: Tank, items: seq<Item>, foes: seq<Tank>, dist: (Vec, Vec) -> real): (r: Option<nat>)
    ensures r.Some? <==> t.health < 50.0 && exists k :: 0 <= k < |items| && items[k].kind == Heal
    ensures r.Some? ==> r.value < |items| && items[r.value].kind == Heal
    ensures r.Some? ==> forall k :: 0 <= k < |items| && items[k].kind == Heal ==>
      Cost(t, items[r.value], foes, dist) <= Cost(t, items[k], foes, dist)
  {
    if t.health < 50.0 then CheapestHeal(t, items, foes, dist, |items|) else None
  }

  // --------------------------------------------------- stuck counters

  /** `stuckTimer` and `reverseTimer` (0 when unset). */
  datatype Counters = Counters(stuck: int, reverse: int)

  /** What the rest of `runAI` does after the counters: back up, arm the reverse and stop, or steer. */
  datatype Gait = Backing | Arming | Steering

  datatype Unstuck = Unstuck(next: Counters, gait: Gait)

  /**
   * The counters for one `runAI` tick; `crawled` says the tank has a last
   * position less than 0.2 from where it is. The stuck count grows while
   * the tank crawls and is reset otherwise; a running reverse timer counts
   * down and backs the tank up; more than 40 stuck ticks arm a 30-tick
   * reverse and clear the count.
   */
  function Unstick(c: Counters, crawled: bool): (u: Unstuck)
    ensures u.gait == Backing <==> c.reverse > 0
    ensures u.gait == Arming <==> c.reverse <= 0 && crawled && c.stuck >= 40
    ensures u.gait == Backing ==> u.next == Counters(if crawled then c.stuck + 1 else 0, c.reverse - 1)
    ensures u.gait == Arming ==> u.next == Counters(0, 30)
    ensures u.gait == Steering ==> u.next == Counters(if crawled then c.stuck + 1 else 0, c.reverse)
  {
    var stuck := if crawled then c.stuck + 1 else 0;
    if c.reverse > 0 then Unstuck(Counters(stuck, c.reverse - 1), Backing)
    else if stuck > 40 then Unstuck(Counters(0, 30), Arming)
    else Unstuck(Counters(stuck, c.reverse), Steering)
  }

  /**
   * The counters a tank can have: the reverse timer within [0, 30], the
   * stuck count within [0, 40], and while reversing the two together at
   * most 30.
   */
  predicate CountersInRange(c: Counters) {
    0 <= c.reverse <= 30 && 0 <= c.stuck <= 40 && (c.reverse > 0 ==> c.stuck + c.reverse <= 30)
  }

  lemma UnstickKeepsRange(c: Counters, crawled: bool)
    ensures CountersInRange(c) ==> CountersInRange(Unstick(c, crawled).next)
  {
  }

  /** The counters after `n` ticks in which the tank keeps crawling. */
  function Crawl(c: Counters, n: nat): Counters
    decreases n
  {
    if n == 0 then c else Crawl(Unstick(c, true).next, n - 1)
  }

  /** A tank that stops moving counts up one per tick without reversing ... */
  lemma {:induction false} CrawlCounts(s: int, n: nat)
    requires 0 <= s && s + n <= 40
    decreases n
    ensures Crawl(Counters(s, 0), n) == Counters(s + n, 0)
  {
    if n > 0 {
      CrawlCounts(s + 1, n - 1);
    }
  }

  /** ... so a tank that stops still arms its reverse on the 41st tick. */
  lemma StillTankArmsReverse()
    ensures Crawl(Counters(0, 0), 40) == Counters(40, 0)
    ensures Unstick(Crawl(Counters(0, 0), 40), true).gait == Arming
  {
    CrawlCounts(0, 40);
  }

  // ----------------------------------------------------------- bullets

  /** `b.pos += (cos, sin)(rotation) * speed`: one step per frame, whatever the frame time. */
  function Fly(b: Bullet, dir: Vec): Bullet {
    Combat.Fly(b, dir, 1.0)
  }

  /** A wall that stops the bullet: any wall but WATER, under the unscaled test. */
  predicate Stops(b: Bullet, w: Wall) {
    w.kind != Water && StableGameLogic.Collides(GameLogic.BulletBody(b), GameLogic.WallBody(w))
  }

  /** The first wall of `for (const w of next.walls)` that stops the bullet. */
  function FirstWall(b: Bullet, walls: seq<Wall>): (r: Option<nat>)
    ensures r.None? <==> forall k :: 0 <= k < |walls| ==> !Stops(b, walls[k])
    ensures r.Some? ==> r.value < |walls| && Stops(b, walls[r.value])
    ensures r.Some? ==> forall k :: 0 <= k < r.value ==> !Stops(b, walls[k])
  {
    if |walls| == 0 then None
    else if Stops(b, walls[0]) then Some(0)
    else
      var rest := FirstWall(b, walls[1..]);
      assert forall k :: 1 <= k < |walls| ==> walls[k] == walls[1..][k - 1];
      if rest.Some? then Some(rest.value + 1) else None
  }

  /** A tank the bullet hits: alive, not its owner, on the other side, and touching under the unscaled test. */
  predicate Hits(b: Bullet, t: Tank) {
    t.health > 0.0 && t.id != b.ownerId && !Tactics.IsSameSide(t.team, b.team)
      && StableGameLogic.Collides(GameLogic.BulletBody(b), GameLogic.TankBody(t))
  }

  /** The first tank of `for (const t of allTanks)` the bullet hits. */
  function FirstTarget(b: Bullet, tanks: seq<Tank>): (r: Option<nat>)
    ensures r.None? <==> forall k :: 0 <= k < |tanks| ==> !Hits(b, tanks[k])
    ensures r.Some? ==> r.value < |tanks| && Hits(b, tanks[r.value])
    ensures r.Some? ==> forall k :: 0 <= k < r.value ==> !Hits(b, tanks[k])
  {
    if |tanks| == 0 then None
    else if Hits(b, tanks[0]) then Some(0)
    else
      var rest := FirstTarget(b, tanks[1..]);
      assert forall k :: 1 <= k < |tanks| ==> tanks[k] == tanks[1..][k - 1];
      if rest.Some? then Some(rest.value + 1) else None
  }

  /** The fate of bullet `b0` this frame: the edge of the fixed world, then the walls, then the tanks. */
  function FateOf(b0: Bullet, dirOf: real -> Vec, tanks: seq<Tank>, walls: seq<Wall>): (f: Combat.Fate)
    ensures var b := Fly(b0, dirOf(b0.rotation));
      && (f.Lost? <==> StableGameLogic.IsOutOfBounds(b.pos, BulletSize))
      && (f.Bounced? ==> exists k :: FirstWall(b, walls) == Some(k) && walls[k].kind == Rebound
                                     && f.bullet == Combat.Bounce(b, walls[k], dirOf))
      && (f.WallStruck? ==> FirstWall(b, walls) == Some(f.wall) && walls[f.wall].kind != Rebound)
      && (f.TankStruck? ==> FirstWall(b, walls).None? && FirstTarget(b, tanks) == Some(f.tank) && f.bullet == b)
      && (f.Flying? ==> FirstWall(b, walls).None? && FirstTarget(b, tanks).None? && f.bullet == b)
      && (!f.Lost? ==> (FirstWall(b, walls).Some? <==> f.Bounced? || f.WallStruck?))
  {
    var b := Fly(b0, dirOf(b0.rotation));
    if StableGameLogic.IsOutOfBounds(b.pos, BulletSize) then Combat.Lost
    else
      var w := FirstWall(b, walls);
      if w.Some? then
        if walls[w.value].kind == Rebound then Combat.Bounced(Combat.Bounce(b, walls[w.value], dirOf))
        else Combat.WallStruck(w.value)
      else
        var t := FirstTarget(b, tanks);
        if t.Some? then Combat.TankStruck(t.value, b) else Combat.Flying(b)
  }

  /** A wall hit by bullet `b`: STONE walls take nothing, every other wall loses the bullet's damage. */
  function Wear(w: Wall, b: Bullet): Wall {
    if w.kind != Stone then w.(health := w.health - b.damage) else w
  }

  // ------------------------------------------------------------ damage

  /**
   * `finalDamage`: the bullet's damage, times 1.7 while the owner's damage
   * buff runs, times 0.3 while the target's defense buff runs. This is the
   * current rule with the absorbed share fixed at 0.7 instead of the
   * rolled value.
   */
  function HitDamage(b: Bullet, owner: Option<Tank>, target: Tank, now: real): (d: real)
    ensures d == Combat.HitDamage(b, owner, target.(buffs := target.buffs.(defenseValue := Some(0.7))), now)
    ensures !Combat.Boosting(owner, now) && !Combat.Shielding(target, now) ==> d == b.damage
    ensures b.damage >= 0.0 ==> b.damage * 0.3 <= d <= b.damage * 1.7
  {
    var boosted := if Combat.Boosting(owner, now) then b.damage * DamageBoost else b.damage;
    if Combat.Shielding(target, now) then boosted * DefenseReduction else boosted
  }

  /** A bullet hits tank `j`: the damage, and on a kill +1 kill and +100 for the shooter; no ledger, no assists. */
  function Strike(tanks: seq<Tank>, j: nat, b: Bullet, now: real): (r: seq<Tank>)
    requires j < |tanks|
    ensures Combat.SameRoster(tanks, r)
  {
    Wounded(tanks, j, b.ownerId, tanks[j].health - HitDamage(b, Combat.Owner(tanks, b), tanks[j], now))
  }

  /** Tank `j` left with `health`; if that is a kill, the first tank with id `owner` is credited. */
  function Wounded(tanks: seq<Tank>, j: nat, owner: TankId, health: real): (r: seq<Tank>)
    requires j < |tanks|
    ensures Combat.SameRoster(tanks, r)
  {
    var hit := tanks[j := tanks[j].(health := health)];
    if health > 0.0 then hit
    else
      var k := Combat.FindTank(hit, owner);
      if k.Some? then hit[k.value := Combat.WithKill(hit[k.value])] else hit
  }

  /**
   * With distinct ids and a target that is not the shooter, the hit takes
   * the damage off the target and changes nothing else about it; on a kill
   * the shooter gets its kill and every other tank is left as it was.
   */
  lemma StrikeEffect(tanks: seq<Tank>, j: nat, b: Bullet, now: real, m: nat)
    requires j < |tanks| && m < |tanks| && Combat.UniqueIds(tanks) && tanks[j].id != b.ownerId
    ensures var r := Strike(tanks, j, b, now);
      var health := tanks[j].health - HitDamage(b, Combat.Owner(tanks, b), tanks[j], now);
      && r[j] == tanks[j].(health := health)
      && (m != j && tanks[m].id == b.ownerId && health <= 0.0 ==> r[m] == Combat.WithKill(tanks[m]))
      && (m != j && (tanks[m].id != b.ownerId || health > 0.0) ==> r[m] == tanks[m])
  {
    WoundedEffect(tanks, j, b.ownerId, tanks[j].health - HitDamage(b, Combat.Owner(tanks, b), tanks[j], now), m);
  }

  /** The effect of `Wounded` slot by slot, for any health left to the target. */
  lemma WoundedEffect(tanks: seq<Tank>, j: nat, owner: TankId, health: real, m: nat)
    requires j < |tanks| && m < |tanks| && Combat.UniqueIds(tanks) && tanks[j].id != owner
    ensures var r := Wounded(tanks, j, owner, health);
      && r[j] == tanks[j].(health := health)
      && (m != j && tanks[m].id == owner && health <= 0.0 ==> r[m] == Combat.WithKill(tanks[m]))
      && (m != j && (tanks[m].id != owner || health > 0.0) ==> r[m] == tanks[m])
  {
    var hit := tanks[j := tanks[j].(health := health)];
    Combat.FindTankSameRoster(tanks, hit, owner);
    var k := Combat.FindTank(hit, owner);
    if health <= 0.0 && k.Some? && m != j && m != k.value {
      assert tanks[m].id != owner by {
        if m > k.value {
          assert tanks[k.value].id != tanks[m].id;
        }
      }
    }
  }

  // ------------------------------------------------------ bullet pass

  /** One bullet's frame applied to the battle; surviving bullets are appended. */
  function Resolve(st: Combat.Battle, b0: Bullet, dirOf: real -> Vec, now: real): Combat.Battle {
    match FateOf(b0, dirOf, st.tanks, st.walls)
    case Lost => st
    case Bounced(nb) => st.(bullets := st.bullets + [nb])
    case WallStruck(k) => st.(walls := st.walls[k := Wear(st.walls[k], b0)])
    case TankStruck(j, b) => st.(tanks := Strike(st.tanks, j, b, now))
    case Flying(nb) => st.(bullets := st.bullets + [nb])
  }

  /** The `bullets.filter(...)` pass over the first `n` bullets. */
  function Pass(tanks: seq<Tank>, walls: seq<Wall>, bullets: seq<Bullet>, n: nat, dirOf: real -> Vec, now: real): (r: Combat.Battle)
    requires n <= |bullets|
    ensures Combat.SameRoster(tanks, r.tanks)
    ensures |r.walls| == |walls| && |r.bullets| <= n
  {
    if n == 0 then Combat.Battle(tanks, walls, [])
    else Resolve(Pass(tanks, walls, bullets, n - 1, dirOf, now), bullets[n - 1], dirOf, now)
  }

  /**
   * Walls only wear down under bullets whose damage is not negative: the
   * same walls in the same places, no health gained, STONE walls never
   * touched.
   */
  predicate WornFrom(before: seq<Wall>, after: seq<Wall>) {
    |after| == |before| && forall k :: 0 <= k < |before| ==>
      after[k] == before[k].(health := after[k].health) && after[k].health <= before[k].health
      && (before[k].kind == Stone ==> after[k] == before[k])
  }

  lemma {:induction false} PassWearsWalls(tanks: seq<Tank>, walls: seq<Wall>, bullets: seq<Bullet>, n: nat,
                                          dirOf: real -> Vec, now: real)
    requires n <= |bullets|
    requires forall k :: 0 <= k < |bullets| ==> bullets[k].damage >= 0.0
    ensures WornFrom(walls, Pass(tanks, walls, bullets, n, dirOf, now).walls)
  {
    if n > 0 {
      PassWearsWalls(tanks, walls, bullets, n - 1, dirOf, now);
    }
  }

  // ------------------------------------------------------------ bases

  /** A living tank of the base's side closer to its centre than half the base's size. */
  predicate Defender(t: Tank, bed: Bed) {
    t.health > 0.0 && Tactics.IsSameSide(t.team, bed.team)
      && bed.size / 2.0 > 0.0 && GameLogic.DistSq(t.pos, bed.pos) < GameLogic.Sq(bed.size / 2.0)
  }

  /**
   * One base this frame: defenders inside half its size drain the
   * progress by 2500/s; else attackers within the capture radius raise it
   * by 1000/s and become the capturing side, winning at 5000; an empty
   * base drains by 3500/s, never below 0.
   */
  function CaptureStep(bed: Bed, tanks: seq<Tank>, dt: real): (c: Objectives.BaseFrame)
    ensures c.bed == bed.(captureProgress := c.bed.captureProgress, capturingTeam := c.bed.capturingTeam)
    ensures (exists k :: 0 <= k < |tanks| && Defender(tanks[k], bed)) ==>
      c.bed.captureProgress == Objectives.MaxReal(0.0, bed.captureProgress - dt * 2500.0)
      && c.bed.capturingTeam == bed.capturingTeam && !c.won
    ensures (forall k :: 0 <= k < |tanks| ==> !Defender(tanks[k], bed)) && Objectives.FirstAttacker(tanks, bed).Some? ==>
      c.bed.captureProgress == bed.captureProgress + dt * 1000.0
      && c.bed.capturingTeam == Some(Tactics.SideOf(tanks[Objectives.FirstAttacker(tanks, bed).value].team))
      && (c.won <==> c.bed.captureProgress >= CaptureTimeRequired)
    ensures (forall k :: 0 <= k < |tanks| ==> !Defender(tanks[k], bed) && !Objectives.Attacker(tanks[k], bed)) ==>
      c.bed.captureProgress == Objectives.MaxReal(0.0, bed.captureProgress - dt * 3500.0)
      && c.bed.capturingTeam == bed.capturingTeam && !c.won
  {
    if exists k :: 0 <= k < |tanks| && Defender(tanks[k], bed) then
      Objectives.BaseFrame(bed.(captureProgress := Objectives.MaxReal(0.0, bed.captureProgress - dt * 2500.0)), false)
    else
      var a := Objectives.FirstAttacker(tanks, bed);
      if a.Some? then
        var p := bed.captureProgress + dt * 1000.0;
        Objectives.BaseFrame(bed.(captureProgress := p, capturingTeam := Some(Tactics.SideOf(tanks[a.value].team))),
                             p >= CaptureTimeRequired)
      else Objectives.BaseFrame(bed.(captureProgress := Objectives.MaxReal(0.0, bed.captureProgress - dt * 3500.0)), false)
  }

  /** A defender under the older rule is a defender under the current one for any base up to 500 across. */
  lemma DefenderIsCurrentDefender(t: Tank, bed: Bed)
    requires bed.size <= 2.0 * CaptureRadius
    ensures Defender(t, bed) ==> Objectives.Defender(t, bed)
  {
    var h := bed.size / 2.0;
    if h > 0.0 {
      GameLogic.ProductNonNegative(CaptureRadius - h, h);
      GameLogic.ProductNonNegative(CaptureRadius - h, CaptureRadius);
      assert GameLogic.Sq(h) <= CaptureRadius * CaptureRadius;
    }
  }

  /**
   * Where the current rule sees no defender, the older rule does exactly
   * what the current one does: both radii for attackers are the capture
   * radius, and the older defender radius is the smaller one.
   */
  lemma CaptureAgreesWithoutDefenders(bed: Bed, tanks: seq<Tank>, dt: real)
    requires bed.size <= 2.0 * CaptureRadius
    requires forall k :: 0 <= k < |tanks| ==> !Objectives.Defender(tanks[k], bed)
    ensures CaptureStep(bed, tanks, dt) == Objectives.CaptureStep(bed, tanks, dt)
  {
    forall k | 0 <= k < |tanks|
      ensures !Defender(tanks[k], bed)
    {
      DefenderIsCurrentDefender(tanks[k], bed);
    }
  }

  /** A base is only ever won by the other side, and with a frame time that is not negative the progress stays non-negative. */
  lemma CaptureWinnerIsOpponent(bed: Bed, tanks: seq<Tank>, dt: real)
    ensures var c := CaptureStep(bed, tanks, dt);
      c.won ==> (c.bed.capturingTeam.Some? && !Tactics.IsSameSide(c.bed.capturingTeam.value, bed.team)
                 && exists k :: 0 <= k < |tanks| && Objectives.Attacker(tanks[k], bed))
    ensures bed.captureProgress >= 0.0 && dt >= 0.0 ==> CaptureStep(bed, tanks, dt).bed.captureProgress >= 0.0
  {
    var c := CaptureStep(bed, tanks, dt);
    if c.won {
      var a := Objectives.FirstAttacker(tanks, bed);
      assert a.Some?;
      assert Objectives.Attacker(tanks[a.value], bed);
    }
  }

  // ---------------------------------------------------------- respawn

  /** `handleRespawn(t)`: start the 4000 ms timer, count it down, and come back with full health on the spawn point. */
  function Respawn(t: Tank, dt: real): (r: Tank)
    ensures t.health > 0.0 ==> r == t
  {
    if t.health > 0.0 then t
    else if t.respawnTimer == 0.0 then t.(respawnTimer := RespawnDelay)
    else
      var timer := t.respawnTimer - dt * 1000.0;
      if timer <= 0.0 then t.(health := MaxHealthTank, pos := t.spawnPos, respawnTimer := 0.0)
      else t.(respawnTimer := timer)
  }

  /**
   * The older respawn is the current one with an empty search ring: every
   * timer step is the same, and the tank always lands on its spawn point.
   */
  lemma RespawnIsRinglessCurrent(tanks: seq<Tank>, walls: seq<Wall>, i: nat, dt: real, width: real, height: real)
    requires i < |tanks|
    ensures Respawn(tanks[i], dt) == Objectives.Respawn(tanks, walls, i, [], dt, width, height)
    ensures var r := Respawn(tanks[i], dt);
      tanks[i].health <= 0.0 && r.health > 0.0 ==> r.pos == tanks[i].spawnPos && r.health == MaxHealthTank
  {
    assert Objectives.FirstOpen(tanks, walls, i, [], width, height).None?;
  }
}
