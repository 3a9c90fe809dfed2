/**
 * The state of the older game loop (_backup_stable/components/GameCanvas.tsx)
 * and the steps of its frame whose rules differ from the current ones,
 * as a class whose methods update the state in place: the enemy
 * commander's counter-command, the stuck and reverse counters of `runAI`,
 * the bullet pass, wall removal, the bases and the respawns.
 */
module StableArena {
  import opened Types
  import GameLogic
  import Combat
  import Objectives
  import StableRules
  import Arena

  /**
   * Tank `t` after the counter part of its `runAI` tick: a dead tank is
   * left alone; a living one steps its stuck count and reverse timer as
   * `Unstick` says and records its position as the last one.
   */
  function Ticked(t: Tank): (r: Tank)
    ensures t.health <= 0.0 ==> r == t
    ensures r == t.(stuckTimer := r.stuckTimer, reverseTimer := r.reverseTimer, lastPos := r.lastPos)
    ensures t.health > 0.0 ==> r.lastPos == Some(t.pos)
    ensures StableRules.CountersInRange(StableRules.Counters(t.stuckTimer, t.reverseTimer)) ==>
      StableRules.CountersInRange(StableRules.Counters(r.stuckTimer, r.reverseTimer))
  {
    if t.health <= 0.0 then t
    else
      var crawled := t.lastPos.Some? && GameLogic.DistSq(t.pos, t.lastPos.value) < 0.2 * 0.2;
      var u := StableRules.Unstick(StableRules.Counters(t.stuckTimer, t.reverseTimer), crawled);
      StableRules.UnstickKeepsRange(StableRules.Counters(t.stuckTimer, t.reverseTimer), crawled);
      t.(stuckTimer := u.next.stuck, reverseTimer := u.next.reverse, lastPos := Some(t.pos))
  }

  class StableWorld {
    /** `[player, ...allies, ...enemies]` */
    var tanks: seq<Tank>
    const allyCount: nat
    var walls: seq<Wall>
    var bullets: seq<Bullet>
    var beds: seq<Bed>
    /** The player's command; the record type allows null. */
    var currentCommand: Option<Command>
    var enemyCommand: Command
    var isGameOver: bool
    var winner: Option<Team>
    /** `lastEnemyStrategyRef` */
    var lastEnemyStrategyAt: real

    /**
     * The state every frame keeps: the roster's slots, the allies' base
     * first and the enemies' second, capture progress never negative, and
     * a winner exactly when the game is over.
     */
    ghost predicate Valid()
      reads this
    {
      && Arena.RosterShape(tanks, allyCount)
      && |beds| == 2 && beds[0].team == Ally && beds[1].team == Enemy
      && beds[0].captureProgress >= 0.0 && beds[1].captureProgress >= 0.0
      && (isGameOver <==> winner.Some?)
    }

    /** The initial state: the same roster and bases as the current game, and FREE commands on both sides. */
    constructor (allies: nat, enemies: nat, walls0: seq<Wall>)
      ensures Valid()
      ensures tanks == Arena.Roster(allies, enemies, WorldWidth, WorldHeight) && allyCount == allies
      ensures walls == walls0 && bullets == [] && beds == Arena.StartBeds(WorldWidth, WorldHeight)
      ensures currentCommand == Some(Free) && enemyCommand == Free
      ensures !isGameOver && winner == None && lastEnemyStrategyAt == 0.0
    {
      tanks := Arena.Roster(allies, enemies, WorldWidth, WorldHeight);
      allyCount := allies;
      walls := walls0;
      bullets := [];
      beds := Arena.StartBeds(WorldWidth, WorldHeight);
      currentCommand := Some(Free);
      enemyCommand := Free;
      isGameOver := false;
      winner := None;
      lastEnemyStrategyAt := 0.0;
    }

    function Allies(): seq<Tank>
      reads this
      requires Valid()
    {
      tanks[1..1 + allyCount]
    }

    function Enemies(): seq<Tank>
      reads this
      requires Valid()
    {
      tanks[1 + allyCount..]
    }

    /**
     * The counter-command the enemy commander would issue now: living
     * enemies against living allies plus a living player, the enemies'
     * base, and the player's own command.
     */
    function Reply(): Command
      reads this
      requires Valid()
    {
      var healthyEnemies := |Arena.Living(Enemies())|;
      var healthyAllies := |Arena.Living(Allies())| + (if tanks[0].health > 0.0 then 1 else 0);
      var threatened := StableRules.BaseThreatened(beds[1].captureProgress, GameLogic.DistSq(tanks[0].pos, beds[1].pos));
      StableRules.CounterCommand(threatened, currentCommand, healthyEnemies, healthyAllies, tanks[0].health)
    }

    // --------------------------------------------------- the commander

    /**
     * Every 2000 ms, while an enemy leader lives, the enemy command
     * becomes the counter to the player's; the clock restarts even when
     * no leader is left.
     */
    method EnemyStrategy(now: real)
      requires Valid()
      modifies this
      ensures Valid()
      ensures old(now - lastEnemyStrategyAt > 2000.0) ==> lastEnemyStrategyAt == now
      ensures !old(now - lastEnemyStrategyAt > 2000.0) ==> lastEnemyStrategyAt == old(lastEnemyStrategyAt)
      ensures enemyCommand == (if old(now - lastEnemyStrategyAt > 2000.0 && Arena.FirstLeader(Enemies()).Some?)
                               then old(Reply()) else old(enemyCommand))
      ensures tanks == old(tanks) && walls == old(walls) && bullets == old(bullets) && beds == old(beds)
      ensures currentCommand == old(currentCommand) && isGameOver == old(isGameOver) && winner == old(winner)
    {
      var leader := Arena.FirstLeader(Enemies());
      var reply := Reply();
      var due := now - lastEnemyStrategyAt > 2000.0;
      enemyCommand, lastEnemyStrategyAt :=
        (if due && leader.Some? then reply else enemyCommand), (if due then now else lastEnemyStrategyAt);
    }

    // ------------------------------------------------- stuck counters

    /**
     * The counter part of `runAI` for tank `i`: nothing for a dead tank;
     * otherwise the stuck count and the reverse timer step as `Unstick`
     * says, the current position becomes the last one, and the gait tells
     * the rest of the tick what to do. Counters in range stay in range.
     */
    method TickCounters(i: nat) returns (gait: Option<StableRules.Gait>)
      requires Valid() && i < |tanks|
      modifies this
      ensures Valid()
      ensures old(tanks[i].health) <= 0.0 ==> gait.None? && tanks == old(tanks)
      ensures old(tanks[i].health) > 0.0 ==>
        var t := old(tanks[i]);
        var crawled := t.lastPos.Some? && GameLogic.DistSq(t.pos, t.lastPos.value) < 0.2 * 0.2;
        var u := StableRules.Unstick(StableRules.Counters(t.stuckTimer, t.reverseTimer), crawled);
        && gait == Some(u.gait)
        && tanks == old(tanks)[i := t.(stuckTimer := u.next.stuck, reverseTimer := u.next.reverse, lastPos := Some(t.pos))]
      ensures StableRules.CountersInRange(StableRules.Counters(old(tanks[i].stuckTimer), old(tanks[i].reverseTimer))) ==>
        StableRules.CountersInRange(StableRules.Counters(tanks[i].stuckTimer, tanks[i].reverseTimer))
      ensures tanks == old(tanks)[i := Ticked(old(tanks[i]))]
      ensures walls == old(walls) && bullets == old(bullets) && beds == old(beds)
      ensures currentCommand == old(currentCommand) && enemyCommand == old(enemyCommand)
      ensures isGameOver == old(isGameOver) && winner == old(winner) && lastEnemyStrategyAt == old(lastEnemyStrategyAt)
    {
      var t := tanks[i];
      if t.health <= 0.0 {
        return None;
      }
      var crawled := t.lastPos.Some? && GameLogic.DistSq(t.pos, t.lastPos.value) < 0.2 * 0.2;
      StableRules.UnstickKeepsRange(StableRules.Counters(t.stuckTimer, t.reverseTimer), crawled);
      var stuck := if crawled then t.stuckTimer + 1 else 0;
      var reverse := t.reverseTimer;
      if reverse > 0 {
        reverse := reverse - 1;
        gait := Some(StableRules.Backing);
      } else if stuck > 40 {
        stuck, reverse := 0, 30;
        gait := Some(StableRules.Arming);
      } else {
        gait := Some(StableRules.Steering);
      }
      tanks := tanks[i := t.(stuckTimer := stuck, reverseTimer := reverse, lastPos := Some(t.pos))];
    }

    /** The counter part of `runAI` for each ally, then each enemy; the player is not run. */
    method TickAll()
      requires Valid()
      modifies this
      ensures Valid() && |tanks| == |old(tanks)| && tanks[0] == old(tanks[0])
      ensures forall k :: 1 <= k < |tanks| ==> tanks[k] == Ticked(old(tanks[k]))
      ensures walls == old(walls) && bullets == old(bullets) && beds == old(beds)
      ensures currentCommand == old(currentCommand) && enemyCommand == old(enemyCommand)
      ensures isGameOver == old(isGameOver) && winner == old(winner) && lastEnemyStrategyAt == old(lastEnemyStrategyAt)
    {
      for c := 1 to |tanks|
        invariant Valid() && |tanks| == |old(tanks)| && tanks[0] == old(tanks[0])
        invariant forall k :: 1 <= k < c ==> tanks[k] == Ticked(old(tanks[k]))
        invariant forall k :: c <= k < |tanks| ==> tanks[k] == old(tanks[k])
        invariant walls == old(walls) && bullets == old(bullets) && beds == old(beds)
        invariant currentCommand == old(currentCommand) && enemyCommand == old(enemyCommand)
        invariant isGameOver == old(isGameOver) && winner == old(winner) && lastEnemyStrategyAt == old(lastEnemyStrategyAt)
      {
        var gait := TickCounters(c);
      }
    }

    // --------------------------------------------------------- bullets

    /** Bullet `b` hits tank `j`: the damage, then the kill credit; the roster stays as it was. */
    method Hit(j: nat, b: Bullet, now: real)
      requires Valid() && j < |tanks|
      modifies this
      ensures Valid()
      ensures tanks == StableRules.Strike(old(tanks), j, b, now)
      ensures walls == old(walls) && bullets == old(bullets) && beds == old(beds)
      ensures currentCommand == old(currentCommand) && enemyCommand == old(enemyCommand)
      ensures isGameOver == old(isGameOver) && winner == old(winner) && lastEnemyStrategyAt == old(lastEnemyStrategyAt)
    {
      Arena.RosterKept(tanks, StableRules.Strike(tanks, j, b, now), allyCount);
      var t := tanks[j];
      var damage := StableRules.HitDamage(b, Combat.Owner(tanks, b), t, now);
      tanks := tanks[j := t.(health := t.health - damage)];
      if tanks[j].health <= 0.0 {
        var killer := Combat.FindTank(tanks, b.ownerId);
        if killer.Some? {
          tanks := tanks[killer.value := Combat.WithKill(tanks[killer.value])];
        }
      }
    }

    /**
     * The `bullets.filter(...)` pass: each bullet flies one step and leaves
     * the world, bounces off or is stopped by the first wall in its way, or
     * hits the first tank it can; survivors are kept in order.
     */
    method ResolveBullets(now: real, dirOf: real -> Vec)
      requires Valid()
      modifies this
      ensures Valid()
      ensures Combat.Battle(tanks, walls, bullets) == StableRules.Pass(old(tanks), old(walls), old(bullets), |old(bullets)|, dirOf, now)
      ensures beds == old(beds)
      ensures currentCommand == old(currentCommand) && enemyCommand == old(enemyCommand)
      ensures isGameOver == old(isGameOver) && winner == old(winner) && lastEnemyStrategyAt == old(lastEnemyStrategyAt)
    {
      var kept: seq<Bullet> := [];
      var k := 0;
      while k < |bullets|
        invariant 0 <= k <= |bullets| && bullets == old(bullets)
        invariant Combat.Battle(tanks, walls, kept) == StableRules.Pass(old(tanks), old(walls), bullets, k, dirOf, now)
        invariant Valid()
        invariant beds == old(beds)
        invariant currentCommand == old(currentCommand) && enemyCommand == old(enemyCommand)
        invariant isGameOver == old(isGameOver) && winner == old(winner) && lastEnemyStrategyAt == old(lastEnemyStrategyAt)
      {
        var fate := StableRules.FateOf(bullets[k], dirOf, tanks, walls);
        match fate {
          case Lost =>
          case Bounced(nb) => kept := kept + [nb];
          case WallStruck(w) => walls := walls[w := StableRules.Wear(walls[w], bullets[k])];
          case TankStruck(j, b) => Hit(j, b, now);
          case Flying(nb) => kept := kept + [nb];
        }
        k := k + 1;
      }
      bullets := kept;
    }

    /** `walls.filter(w => w.health > 0)`. */
    method RemoveDestroyedWalls()
      requires Valid()
      modifies this
      ensures Valid()
      ensures walls == Combat.Standing(old(walls))
      ensures tanks == old(tanks) && bullets == old(bullets) && beds == old(beds)
      ensures currentCommand == old(currentCommand) && enemyCommand == old(enemyCommand)
      ensures isGameOver == old(isGameOver) && winner == old(winner) && lastEnemyStrategyAt == old(lastEnemyStrategyAt)
    {
      walls := Combat.Standing(walls);
    }

    // ----------------------------------------------------------- bases

    /** Base `k` this frame; completing its capture ends the game with the capturing side as winner. */
    method CaptureBed(k: nat, dt: real)
      requires Valid() && k < 2 && dt >= 0.0
      modifies this
      ensures Valid()
      ensures var c := StableRules.CaptureStep(old(beds[k]), old(tanks), dt);
        && beds == old(beds)[k := c.bed]
        && isGameOver == (old(isGameOver) || c.won)
        && winner == (if c.won then c.bed.capturingTeam else old(winner))
      ensures tanks == old(tanks) && walls == old(walls) && bullets == old(bullets)
      ensures currentCommand == old(currentCommand) && enemyCommand == old(enemyCommand)
      ensures lastEnemyStrategyAt == old(lastEnemyStrategyAt)
    {
      StableRules.CaptureWinnerIsOpponent(beds[k], tanks, dt);
      var c := StableRules.CaptureStep(beds[k], tanks, dt);
      beds := beds[k := c.bed];
      if c.won {
        isGameOver := true;
        winner := c.bed.capturingTeam;
      }
    }

    /** The `beds.forEach` of a frame: the allies' base, then the enemies'. */
    method CaptureBeds(dt: real)
      requires Valid() && dt >= 0.0
      modifies this
      ensures Valid()
      ensures var c0 := StableRules.CaptureStep(old(beds[0]), old(tanks), dt);
        var c1 := StableRules.CaptureStep(old(beds[1]), old(tanks), dt);
        && beds == [c0.bed, c1.bed]
        && isGameOver == (old(isGameOver) || c0.won || c1.won)
        && winner == (if c1.won then c1.bed.capturingTeam else if c0.won then c0.bed.capturingTeam else old(winner))
      ensures tanks == old(tanks) && walls == old(walls) && bullets == old(bullets)
      ensures currentCommand == old(currentCommand) && enemyCommand == old(enemyCommand)
      ensures lastEnemyStrategyAt == old(lastEnemyStrategyAt)
    {
      CaptureBed(0, dt);
      CaptureBed(1, dt);
    }

    // --------------------------------------------------------- respawn

    /** `handleRespawn(tanks[i])`. */
    method RespawnTank(i: nat, dt: real)
      requires Valid() && i < |tanks|
      modifies this
      ensures Valid()
      ensures tanks == old(tanks)[i := StableRules.Respawn(old(tanks[i]), dt)]
      ensures walls == old(walls) && bullets == old(bullets) && beds == old(beds)
      ensures currentCommand == old(currentCommand) && enemyCommand == old(enemyCommand)
      ensures isGameOver == old(isGameOver) && winner == old(winner) && lastEnemyStrategyAt == old(lastEnemyStrategyAt)
    {
      var t := tanks[i];
      if t.health <= 0.0 {
        if t.respawnTimer == 0.0 {
          tanks := tanks[i := t.(respawnTimer := RespawnDelay)];
        } else {
          var timer := t.respawnTimer - dt * 1000.0;
          if timer <= 0.0 {
            tanks := tanks[i := t.(health := MaxHealthTank, pos := t.spawnPos, respawnTimer := 0.0)];
          } else {
            tanks := tanks[i := t.(respawnTimer := timer)];
          }
        }
      }
    }

    /** `handleRespawn` for the player, the allies and the enemies, in that order; living tanks are untouched. */
    method RespawnAll(dt: real)
      requires Valid()
      modifies this
      ensures Valid()
      ensures |tanks| == |old(tanks)|
      ensures forall k :: 0 <= k < |tanks| ==> tanks[k] == StableRules.Respawn(old(tanks[k]), dt)
      ensures forall k :: 0 <= k < |tanks| && old(tanks[k].health) > 0.0 ==> tanks[k] == old(tanks[k])
      ensures walls == old(walls) && bullets == old(bullets) && beds == old(beds)
      ensures currentCommand == old(currentCommand) && enemyCommand == old(enemyCommand)
      ensures isGameOver == old(isGameOver) && winner == old(winner) && lastEnemyStrategyAt == old(lastEnemyStrategyAt)
    {
      for i := 0 to |tanks|
        invariant |tanks| == |old(tanks)|
        invariant forall k :: 0 <= k < i ==> tanks[k] == StableRules.Respawn(old(tanks[k]), dt)
        invariant forall k :: i <= k < |tanks| ==> tanks[k] == old(tanks[k])
        invariant Valid()
        invariant walls == old(walls) && bullets == old(bullets) && beds == old(beds)
        invariant currentCommand == old(currentCommand) && enemyCommand == old(enemyCommand)
        invariant isGameOver == old(isGameOver) && winner == old(winner) && lastEnemyStrategyAt == old(lastEnemyStrategyAt)
      {
        RespawnTank(i, dt);
      }
    }

    // ----------------------------------------------------------- frame

    /**
     * The modelled steps of one older frame, in the source's order: the
     * commander, the bullet pass, wall removal, the bases and the
     * respawns. A finished game does not change.
     */
    method Frame(now: real, dt: real, dirOf: real -> Vec)
      requires Valid() && dt >= 0.0
      modifies this
      ensures Valid()
      ensures old(isGameOver) ==>
        (tanks == old(tanks) && walls == old(walls) && bullets == old(bullets)
         && beds == old(beds) && enemyCommand == old(enemyCommand) && winner == old(winner))
      ensures |walls| <= |old(walls)| && |tanks| == |old(tanks)|
      ensures currentCommand == old(currentCommand)
    {
      if isGameOver {
        return;
      }
      EnemyStrategy(now);
      TickAll();
      ResolveBullets(now, dirOf);
      RemoveDestroyedWalls();
      CaptureBeds(dt);
      RespawnAll(dt);
    }
  }
}
