/**
 * The game state of the current rule set (components/GameCanvas.tsx) and
 * one frame of its `gameLoop`, as a class whose methods update the state
 * in the source's order. Each phase is tied to the rule it applies, which
 * the other modules state and prove.
 *
 * The roster `tanks` is the source's `allTanks`: the player, then the
 * `allyCount` allies, then the enemies. Random draws, the trigonometry of
 * the steering fan and the respawn ring offsets are inputs; `dirOf(a)` is
 * the unit vector `(cos a, sin a)`.
 */
module Arena {
  import opened Types
  import GameLogic
  import Tactics
  import Movement
  import Combat
  import Objectives

  // -------------------------------------------------------------- roster

  /** The id of roster slot `k`: 'player', then `ally-${i}`, then `enemy-${i}`. */
  function IdAt(k: nat, allies: nat): TankId {
    if k == 0 then PlayerId else if k <= allies then AllyId(k - 1) else EnemyId(k - 1 - allies)
  }

  function TeamAt(k: nat, allies: nat): Team {
    if k == 0 then Player else if k <= allies then Ally else Enemy
  }

  /** The roster holds the player, `allies` allies and then the enemies, each slot with its own id and team. */
  predicate RosterShape(tanks: seq<Tank>, allies: nat) {
    |tanks| >= 1 + allies
    && forall k :: 0 <= k < |tanks| ==> tanks[k].id == IdAt(k, allies) && tanks[k].team == TeamAt(k, allies)
  }

  /** Slot ids are distinct, so searching a tank by id finds its slot. */
  lemma RosterUnique(tanks: seq<Tank>, allies: nat)
    requires RosterShape(tanks, allies)
    ensures Combat.UniqueIds(tanks)
  {
    forall a, c | 0 <= a < c < |tanks|
      ensures tanks[a].id != tanks[c].id
    {
      assert tanks[a].id == IdAt(a, allies) && tanks[c].id == IdAt(c, allies);
    }
  }

  /** A list with the same slots as a well-shaped roster is well shaped. */
  lemma RosterKept(a: seq<Tank>, c: seq<Tank>, allies: nat)
    requires RosterShape(a, allies) && Combat.SameRoster(a, c)
    ensures RosterShape(c, allies)
  {
  }

  /** `createTank(id, team, pos, …, isAI, …, isLeader)`. */
  function CreateTank(id: TankId, team: Team, pos: Vec, isAI: bool, isLeader: bool): Tank {
    Tank(id, team, pos, TankSize, 0.0, 0.0, MaxHealthTank, MaxHealthTank,
         if isAI then AiSpeed else PlayerSpeed, 0.0, 0.0, isLeader, 0, 0, 0, 0.0, pos, AttackCore,
         0, 0, 0.0, 0, Some(pos), None, 0.0, [],
         Buffs(0.0, 0.0, None, 0.0, 0.0, 0.0, 0.0))
  }

  /** Allies line up three to a row from (200, 400), 100 apart. */
  function AllyStart(i: nat): Vec {
    Vec(200.0 + (i % 3) as real * 100.0, 400.0 + (i / 3) as real * 100.0)
  }

  /** Enemies line up the same way from the opposite corner. */
  function EnemyStart(i: nat, width: real, height: real): Vec {
    Vec(width - 200.0 - (i % 3) as real * 100.0, height - 400.0 - (i / 3) as real * 100.0)
  }

  /** The tank created for roster slot `k`. */
  function TankAt(k: nat, allies: nat, width: real, height: real): Tank {
    if k == 0 then CreateTank(PlayerId, Player, Vec(500.0, 500.0), false, false)
    else if k <= allies then CreateTank(AllyId(k - 1), Ally, AllyStart(k - 1), true, false)
    else CreateTank(EnemyId(k - 1 - allies), Enemy, EnemyStart(k - 1 - allies, width, height), true, k == allies + 1)
  }

  /**
   * The starting roster: the player at (500, 500) at player speed, the AI
   * tanks at AI speed, all at full health on their spawn point with an
   * empty ledger; enemy 0 is the enemy commander.
   */
  function Roster(allies: nat, enemies: nat, width: real, height: real): (r: seq<Tank>)
    ensures |r| == 1 + allies + enemies && RosterShape(r, allies)
    ensures r[0].pos == Vec(500.0, 500.0) && r[0].speed == PlayerSpeed && !r[0].isLeader
    ensures forall k :: 1 <= k <= allies ==> r[k].pos == AllyStart(k - 1) && r[k].speed == AiSpeed && !r[k].isLeader
    ensures forall k :: allies < k < |r| ==>
      r[k].pos == EnemyStart(k - 1 - allies, width, height) && r[k].speed == AiSpeed && (r[k].isLeader <==> k == allies + 1)
    ensures forall k :: 0 <= k < |r| ==>
      r[k].health == r[k].maxHealth == MaxHealthTank && r[k].spawnPos == r[k].pos && r[k].recentDamagers == []
      && r[k].kills == 0 && r[k].assists == 0 && r[k].score == 0 && r[k].respawnTimer == 0.0
  {
    seq(1 + allies + enemies, k requires 0 <= k => TankAt(k, allies, width, height))
  }

  /** The two bases: the allies' at (400, 400), the enemies' in the opposite corner, both untouched. */
  function StartBeds(width: real, height: real): seq<Bed> {
    [Bed(Ally, Vec(400.0, 400.0), BedSize, 0.0, None),
     Bed(Enemy, Vec(width - 400.0, height - 400.0), BedSize, 0.0, None)]
  }

  /**
   * The `items.filter` of the pickup pass over the tanks `ts`: each item,
   * in order, goes to the first living tank touching it or stays.
   */
  method PickupPass(ts: seq<Tank>, items: seq<Item>, draws: seq<(real, real)>, now: real, buffDuration: real)
    returns (l: Objectives.Loot)
    requires |draws| == |items|
    ensures l == Objectives.Pickup(ts, items, draws, |items|, now, buffDuration)
  {
    l := Objectives.Loot(ts, []);
    for k := 0 to |items|
      invariant l == Objectives.Pickup(ts, items, draws, k, now, buffDuration)
    {
      Objectives.PickupNext(ts, items, draws, k, now, buffDuration);
      l := Objectives.PickupOne(l, items[k], draws[k], now, buffDuration);
    }
  }

  /**
   * The hit on tank `j` over the tanks `ts`: damage and ledger entry, and
   * on a kill the killer's credit, the ledger's assists and the emptied ledger.
   */
  method StrikePass(ts: seq<Tank>, j: nat, b: Bullet, now: real) returns (r: seq<Tank>)
    requires j < |ts|
    ensures r == Combat.Strike(ts, j, b, now)
  {
    var health := Combat.HealthAfter(ts, j, b, now);
    var ledger := Combat.LedgerAfter(ts, j, b, now);
    var struck := ts[j := ts[j].(health := health, recentDamagers := ledger)];
    r := struck;
    if health <= 0.0 {
      Combat.FindTankSameRoster(ts, struck, b.ownerId);
      var killer := Combat.FindTank(struck, b.ownerId);
      if killer.Some? {
        r := AssistPass(struck[killer.value := Combat.WithKill(struck[killer.value])], ledger, b.ownerId, b.team);
      }
      r := r[j := r[j].(recentDamagers := [])];
    }
  }

  /** The ledger's `forEach`: each entry other than the killer credits an assist to an ally of the shot. */
  method AssistPass(ts: seq<Tank>, ledger: seq<Damager>, owner: TankId, team: Team) returns (r: seq<Tank>)
    ensures r == Combat.Assists(ts, ledger, owner, team, |ledger|)
  {
    r := ts;
    for n := 0 to |ledger|
      invariant r == Combat.Assists(ts, ledger, owner, team, n)
    {
      r := Combat.AssistOne(r, ledger[n], owner, team);
    }
  }

  // ---------------------------------------------------- roster queries

  /** `filter(t => t.health > 0)`. */
  function Living(ts: seq<Tank>): (r: seq<Tank>)
    ensures forall t :: t in r <==> t in ts && t.health > 0.0
    ensures |r| <= |ts|
  {
    if |ts| == 0 then []
    else
      assert forall t :: t in ts <==> t == ts[0] || t in ts[1..];
      (if ts[0].health > 0.0 then [ts[0]] else []) + Living(ts[1..])
  }

  /** The filter keeps the roster's order: it acts tank by tank. */
  lemma {:induction false} LivingInOrder(a: seq<Tank>, b: seq<Tank>, t: Tank)
    ensures Living([t]) == (if t.health > 0.0 then [t] else [])
    ensures Living(a + b) == Living(a) + Living(b)
  {
    assert [t][1..] == [];
    if |a| == 0 {
      assert a + b == b;
    } else {
      assert (a + b)[1..] == a[1..] + b;
      LivingInOrder(a[1..], b, t);
    }
  }

  /** A living tank within 1200 of `from`: in sight of a commander. */
  predicate InSight(t: Tank, from: Vec) {
    t.health > 0.0 && GameLogic.DistSq(from, t.pos) < Tactics.SightRange * Tactics.SightRange
  }

  /** How many of `ts` are in sight of `from`. */
  function CountInSight(ts: seq<Tank>, from: Vec): (c: nat)
    ensures c == |set k | 0 <= k < |ts| && InSight(ts[k], from)|
    ensures c <= |ts|
    ensures c == 0 <==> forall k :: 0 <= k < |ts| ==> !InSight(ts[k], from)
  {
    if |ts| == 0 then 0
    else
      var rest := ts[..|ts| - 1];
      assert forall k :: 0 <= k < |rest| ==> rest[k] == ts[k];
      var last: set<int> := if InSight(ts[|ts| - 1], from) then {|ts| - 1} else {};
      assert (set k | 0 <= k < |ts| && InSight(ts[k], from))
        == (set k | 0 <= k < |rest| && InSight(rest[k], from)) + last;
      CountInSight(rest, from) + (if InSight(ts[|ts| - 1], from) then 1 else 0)
  }

  /** `enemies.find(e => e.isLeader && e.health > 0)`, as an index. */
  function FirstLeader(ts: seq<Tank>): (r: Option<nat>)
    ensures r.None? <==> forall k :: 0 <= k < |ts| ==> !(ts[k].isLeader && ts[k].health > 0.0)
    ensures r.Some? ==> r.value < |ts| && ts[r.value].isLeader && ts[r.value].health > 0.0
    ensures r.Some? ==> forall k :: 0 <= k < r.value ==> !(ts[k].isLeader && ts[k].health > 0.0)
  {
    if |ts| == 0 then None
    else if ts[0].isLeader && ts[0].health > 0.0 then Some(0)
    else
      var rest := FirstLeader(ts[1..]);
      assert forall k :: 1 <= k < |ts| ==> ts[k] == ts[1..][k - 1];
      if rest.Some? then Some(rest.value + 1) else None
  }

  // ------------------------------------------------------------ runAI

  /** What one `runAI` call needs that the model does not compute. */
  datatype Senses = Senses(
    /** the draws for a new scouting point */
    rx: real, ry: real,
    /** what the steering fan found: a wall right ahead, a wall on the left, the fan's total weight */
    frontBlocked: bool, leftHit: bool, totalWeight: real,
    /** the draws for a detour side and a detour length */
    sideDraw: real, detourDraw: real,
    /** the heading `moveTank` is forced toward: backing up, escaping or following the fan */
    driveAngle: real,
    /** the fan's speed scale, 0 when a teammate is right ahead */
    driveScale: real,
    /** the angle from the tank to what it aims at */
    aimAngle: real)

  /** The squared distance moved since the last frame, 1 when there is no last position. */
  function Moved(t: Tank): real {
    if t.lastPos.Some? then GameLogic.DistSq(t.pos, t.lastPos.value) else 1.0
  }

  function NavOf(t: Tank): Tactics.NavState {
    Tactics.NavState(t.stuckTimer, t.reverseTimer, t.detourTimer, t.detourSide)
  }

  /** The tank with the scouting target and the counters written back, remembering where it stood. */
  function Planned(t: Tank, d: Tactics.Decision, n: Tactics.NavState): Tank {
    t.(reconTarget := d.reconTarget, stuckTimer := n.stuck, reverseTimer := n.reverse,
       detourTimer := n.detour, detourSide := n.side, lastPos := Some(t.pos))
  }

  /** The `dx` (and `dy`) of the `moveTank` call of each motion. */
  function Drive(m: Tactics.Motion, s: Senses): real {
    match m
    case Reversing => -1.0
    case Escape => 1.0
    case _ => s.driveScale
  }

  /** The unit vector of the rotation `moveTank` turns to. */
  function Heading(t: Tank, dx: real, dy: real, angle: real, dirOf: real -> Vec): Vec {
    dirOf(Tactics.LerpAngle(t.rotation, angle, if dx == 0.0 && dy == 0.0 then 0.04 else 0.25))
  }

  /** The point 150 ahead of the tank, where it looks for a wall to clear. */
  function LookAhead(t: Tank, dirOf: real -> Vec): Vec {
    Movement.Step(t.pos, dirOf(t.rotation), 150.0, 1.0)
  }

  /** The turret turns toward a target at 0.25 per frame, or back toward the hull at 0.1. */
  function Turret(t: Tank, foes: seq<Tank>, walls: seq<Wall>, movedSq: real, aimAngle: real, dirOf: real -> Vec): real {
    if Tactics.FoeInRange(t, foes) || Tactics.ClearingPath(t, foes, walls, t.stuckTimer, movedSq, LookAhead(t, dirOf))
    then Tactics.LerpAngle(t.turretRotation, aimAngle, 0.25)
    else Tactics.LerpAngle(t.turretRotation, t.rotation, 0.1)
  }

  /** The slot index `runAI` is called with: the position among allies or enemies, 999 for the player. */
  function SlotOf(i: nat, allies: nat): nat {
    if i == 0 then 999 else if i <= allies then i - 1 else i - 1 - allies
  }

  /** The bullet a tank fires this frame, if any. */
  function Fired(t: Tank, foes: seq<Tank>, walls: seq<Wall>, movedSq: real, aimAngle: real, dirOf: real -> Vec,
                 now: real): Option<Bullet> {
    Tactics.Shot(t, foes, walls, t.stuckTimer, movedSq, LookAhead(t, dirOf),
                 Turret(t, foes, walls, movedSq, aimAngle, dirOf), now)
  }

  /** No tank fires before its cooldown: a shot leaves at least 600 ms after the last, 1000 ms for an AI tank. */
  lemma FiredAfterCooldown(t: Tank, foes: seq<Tank>, walls: seq<Wall>, movedSq: real, aimAngle: real,
                           dirOf: real -> Vec, now: real)
    ensures Fired(t, foes, walls, movedSq, aimAngle, dirOf, now).Some? ==>
      now - t.lastShot > (if t.id == PlayerId then 600.0 else 1000.0)
    ensures Fired(t, foes, walls, movedSq, aimAngle, dirOf, now).Some? ==>
      Fired(t, foes, walls, movedSq, aimAngle, dirOf, now).value.ownerId == t.id
  {
  }

  // ------------------------------------------------------------ respawn

  /** `handleRespawn` applied to the first `n` tanks in roster order, each seeing the ones before it. */
  function Respawned(tanks: seq<Tank>, walls: seq<Wall>, ring: seq<Vec>, dt: real, width: real, height: real, n: nat): (r: seq<Tank>)
    requires n <= |tanks|
    ensures Combat.SameRoster(tanks, r)
  {
    if n == 0 then tanks
    else
      var prev := Respawned(tanks, walls, ring, dt, width, height, n - 1);
      prev[n - 1 := Objectives.Respawn(prev, walls, n - 1, ring, dt, width, height)]
  }

  /** The respawn pass leaves living tanks as they were and touches no ledger. */
  lemma {:induction false} RespawnedKeepsLiving(tanks: seq<Tank>, walls: seq<Wall>, ring: seq<Vec>, dt: real, width: real, height: real, n: nat)
    requires n <= |tanks|
    ensures forall m :: 0 <= m < |tanks| && tanks[m].health > 0.0 ==> Respawned(tanks, walls, ring, dt, width, height, n)[m] == tanks[m]
    ensures forall m :: 0 <= m < |tanks| ==>
      Respawned(tanks, walls, ring, dt, width, height, n)[m].recentDamagers == tanks[m].recentDamagers
  {
    if n > 0 {
      RespawnedKeepsLiving(tanks, walls, ring, dt, width, height, n - 1);
    }
  }

  /**
   * Tank `i` of `ts`, with plan `d` and step `nav` written back, ends as
   * `ts1[i]` and leaves the shells `bs1` where there were `bs`: arming a
   * reverse only writes the plan back, backing up moves without firing,
   * and escaping or advancing moves, turns the turret and maybe fires.
   */
  ghost predicate Executed(ts: seq<Tank>, ts1: seq<Tank>, bs: seq<Bullet>, bs1: seq<Bullet>, walls: seq<Wall>, width: real, height: real,
                           i: nat, d: Tactics.Decision, nav: Tactics.NavStep, foes: seq<Tank>,
                           now: real, dt: real, s: Senses, dirOf: real -> Vec)
    requires i < |ts| && i < |ts1|
  {
    var planned := ts[i := Planned(ts[i], d, nav.next)];
    var dx := Drive(nav.motion, s);
    var m := Movement.MoveResult(planned, walls, i, dx, dx, s.driveAngle,
                                 Heading(planned[i], dx, dx, s.driveAngle, dirOf), dt, now, width, height);
    && (nav.motion == Tactics.ArmReverse ==> ts1[i] == planned[i] && bs1 == bs)
    && (nav.motion == Tactics.Reversing ==> ts1[i] == m.tank && bs1 == bs)
    && (nav.motion == Tactics.Escape || nav.motion == Tactics.Advance ==>
          var shot := Fired(m.tank, foes, walls, Moved(ts[i]), s.aimAngle, dirOf, now);
          && ts1[i] == m.tank.(turretRotation := Turret(m.tank, foes, walls, Moved(ts[i]), s.aimAngle, dirOf),
                               lastShot := if shot.Some? then now else m.tank.lastShot)
          && bs1 == bs + (if shot.Some? then [shot.value] else []))
  }

  /**
   * What `runAI` reads for tank `i` of roster `ts`, whose first `1 + allies`
   * slots are the player and the allies: its side's command, the living
   * foes, its base and the other, the items, walls and the orbit centres.
   */
  function SceneFor(ts: seq<Tank>, allies: nat, commandCount: int, currentCommand: Command, enemyCommand: Command,
                    beds: seq<Bed>, items: seq<Item>, walls: seq<Wall>, width: real, height: real, i: nat): Tactics.Scene
    requires 1 + allies <= |ts| && i < |ts| && |beds| == 2
  {
    var t := ts[i];
    var isAlly := Tactics.IsSameSide(t.team, Ally);
    var friends := ts[..1 + allies];
    var enemies := ts[1 + allies..];
    var leader := FirstLeader(enemies);
    Tactics.Scene(
      isAlly,
      if isAlly then SlotOf(i, allies) < commandCount || t.id == PlayerId else true,
      if isAlly then currentCommand else enemyCommand,
      Living(if isAlly then enemies else friends),
      if isAlly then beds[0] else beds[1],
      if isAlly then beds[1] else beds[0],
      beds[0].captureProgress,
      items,
      walls,
      if leader.Some? then Some(enemies[leader.value].pos) else None,
      ts[0].pos,
      width,
      height)
  }

  /**
   * One `runAI(i)` call on roster `ts` with shells `bs`: a dead tank does
   * nothing; a living one decides on the scene it sees, steps its counters,
   * writes them back and then, by its motion, only arms a reverse, backs
   * up, or moves, turns its turret and maybe fires.
   */
  function AIStep(ts: seq<Tank>, bs: seq<Bullet>, allies: nat, commandCount: int, currentCommand: Command,
                  enemyCommand: Command, beds: seq<Bed>, items: seq<Item>, walls: seq<Wall>, width: real, height: real,
                  i: nat, now: real, dt: real, s: Senses, dirOf: real -> Vec): (r: (seq<Tank>, seq<Bullet>))
    requires 1 + allies <= |ts| && i < |ts| && |beds| == 2
    ensures |r.0| == |ts|
    ensures |bs| <= |r.1| <= |bs| + 1 && r.1[..|bs|] == bs
    ensures StandardShells(r.1[|bs|..])
  {
    var t := ts[i];
    if t.health <= 0.0 then (ts, bs)
    else
      var sc := SceneFor(ts, allies, commandCount, currentCommand, enemyCommand, beds, items, walls, width, height, i);
      var d := Tactics.Decide(t, SlotOf(i, allies), sc, s.rx, s.ry);
      var nav := Tactics.Navigate(NavOf(t), Moved(t), s.frontBlocked, s.leftHit, s.totalWeight, s.sideDraw, s.detourDraw);
      var planned := ts[i := Planned(t, d, nav.next)];
      if nav.motion == Tactics.ArmReverse then (planned, bs)
      else
        var dx := Drive(nav.motion, s);
        var m := Movement.MoveResult(planned, walls, i, dx, dx, s.driveAngle,
                                     Heading(planned[i], dx, dx, s.driveAngle, dirOf), dt, now, width, height);
        if nav.motion == Tactics.Reversing then (planned[i := m.tank], bs)
        else
          var shot := Fired(m.tank, sc.foes, walls, Moved(t), s.aimAngle, dirOf, now);
          (planned[i := m.tank.(turretRotation := Turret(m.tank, sc.foes, walls, Moved(t), s.aimAngle, dirOf),
                                lastShot := if shot.Some? then now else m.tank.lastShot)],
           bs + (if shot.Some? then [shot.value] else []))
  }

  /**
   * `AIStep` is what `RunAI` promises: a change to tank `i` alone that is
   * nothing for a dead tank and `Executed` on `Decide`'s and `Navigate`'s
   * results for a living one.
   */
  lemma ExecutedIsStep(ts: seq<Tank>, ts1: seq<Tank>, bs: seq<Bullet>, bs1: seq<Bullet>, allies: nat,
                       commandCount: int, currentCommand: Command, enemyCommand: Command,
                       beds: seq<Bed>, items: seq<Item>, walls: seq<Wall>, width: real, height: real,
                       i: nat, now: real, dt: real, s: Senses, dirOf: real -> Vec)
    requires 1 + allies <= |ts| && i < |ts| && |beds| == 2 && |ts1| == |ts|
    requires forall k :: 0 <= k < |ts| && k != i ==> ts1[k] == ts[k]
    requires ts[i].health <= 0.0 ==> ts1 == ts && bs1 == bs
    requires ts[i].health > 0.0 ==>
      Executed(ts, ts1, bs, bs1, walls, width, height, i,
               Tactics.Decide(ts[i], SlotOf(i, allies),
                              SceneFor(ts, allies, commandCount, currentCommand, enemyCommand, beds, items, walls, width, height, i),
                              s.rx, s.ry),
               Tactics.Navigate(NavOf(ts[i]), Moved(ts[i]), s.frontBlocked, s.leftHit, s.totalWeight,
                                s.sideDraw, s.detourDraw),
               SceneFor(ts, allies, commandCount, currentCommand, enemyCommand, beds, items, walls, width, height, i).foes,
               now, dt, s, dirOf)
    ensures (ts1, bs1) == AIStep(ts, bs, allies, commandCount, currentCommand, enemyCommand, beds, items, walls, width, height,
                                 i, now, dt, s, dirOf)
  {
    var r := AIStep(ts, bs, allies, commandCount, currentCommand, enemyCommand, beds, items, walls, width, height, i, now, dt, s, dirOf);
    if ts[i].health > 0.0 {
      assert ts1 == r.0;
    }
  }

  /** Call `c` of a frame's `runAI` calls over a roster of `n`: the allies and enemies `1 .. n - 1`, then the player. */
  function RunOrder(c: nat, n: nat): (k: nat)
    requires n > 0
    ensures k < n
    ensures c + 1 < n ==> k == c + 1
    ensures c + 1 == n ==> k == 0
  {
    (c + 1) % n
  }

  /**
   * The first `m` `runAI` calls of a frame, in `RunOrder`, on roster `ts`
   * and shells `bs`.
   */
  function Calls(ts: seq<Tank>, bs: seq<Bullet>, m: nat, allies: nat, commandCount: int, currentCommand: Command,
                 enemyCommand: Command, beds: seq<Bed>, items: seq<Item>, walls: seq<Wall>, width: real, height: real,
                 now: real, dt: real, senses: seq<Senses>, dirOf: real -> Vec): (r: (seq<Tank>, seq<Bullet>))
    requires 1 + allies <= |ts| && |senses| == |ts| && |beds| == 2
    ensures |r.0| == |ts|
    ensures |bs| <= |r.1| <= |bs| + m && r.1[..|bs|] == bs && StandardShells(r.1[|bs|..])
  {
    if m == 0 then (ts, bs)
    else
      var p := Calls(ts, bs, m - 1, allies, commandCount, currentCommand, enemyCommand, beds, items, walls, width, height,
                     now, dt, senses, dirOf);
      var k := RunOrder(m - 1, |ts|);
      var r := AIStep(p.0, p.1, allies, commandCount, currentCommand, enemyCommand, beds, items, walls, width, height, k, now, dt, senses[k], dirOf);
      ShellsGrow(bs, p.1, r.1);
      r
  }

  /** Shells as `Tactics.Shot` fires them: standard size, speed and damage. */
  predicate StandardShells(s: seq<Bullet>) {
    forall k :: 0 <= k < |s| ==> s[k].size == BulletSize && s[k].speed == BulletSpeed && s[k].damage == BulletDamage
  }

  /** Shells `bs` kept under `p`, then `p` kept under `r` with at most one standard shell more: `bs` is kept under `r`. */
  lemma ShellsGrow(bs: seq<Bullet>, p: seq<Bullet>, r: seq<Bullet>)
    requires |bs| <= |p| && p[..|bs|] == bs && StandardShells(p[|bs|..])
    requires |p| <= |r| <= |p| + 1 && r[..|p|] == p && StandardShells(r[|p|..])
    ensures r[..|bs|] == bs && StandardShells(r[|bs|..])
  {
    assert r[..|bs|] == r[..|p|][..|bs|];
    forall k | 0 <= k < |r| - |bs|
      ensures r[|bs|..][k].size == BulletSize && r[|bs|..][k].speed == BulletSpeed && r[|bs|..][k].damage == BulletDamage
    {
      if |bs| + k < |p| {
        assert r[|bs|..][k] == r[..|p|][|bs| + k] == p[|bs|..][k];
      } else {
        assert r[|bs|..][k] == r[|p|..][0];
      }
    }
  }

  /** One more call extends the fold by one `AIStep`, on the tank `RunOrder` names. */
  lemma CallsNext(ts: seq<Tank>, bs: seq<Bullet>, m: nat, allies: nat, commandCount: int, currentCommand: Command,
                  enemyCommand: Command, beds: seq<Bed>, items: seq<Item>, walls: seq<Wall>, width: real, height: real,
                  now: real, dt: real, senses: seq<Senses>, dirOf: real -> Vec)
    requires 1 + allies <= |ts| && |senses| == |ts| && |beds| == 2
    ensures var p := Calls(ts, bs, m, allies, commandCount, currentCommand, enemyCommand, beds, items, walls, width, height,
                           now, dt, senses, dirOf);
            var k := RunOrder(m, |ts|);
            Calls(ts, bs, m + 1, allies, commandCount, currentCommand, enemyCommand, beds, items, walls, width, height,
                  now, dt, senses, dirOf)
            == AIStep(p.0, p.1, allies, commandCount, currentCommand, enemyCommand, beds, items, walls, width, height, k,
                      now, dt, senses[k], dirOf)
  {
  }

  // ------------------------------------------------------------- world

  class World {
    var tanks: seq<Tank>
    const allyCount: nat
    var walls: seq<Wall>
    var bullets: seq<Bullet>
    var items: seq<Item>
    var beds: seq<Bed>
    var currentCommand: Command
    var enemyCommand: Command
    var commandCount: int
    var isAIControlled: bool
    var isGameOver: bool
    var winner: Option<Team>
    /** `lastAutopilotCommandRef` and `lastEnemyAutopilotCommandRef` */
    var lastAutopilotAt: real
    var lastEnemyAutopilotAt: real
    /** The map size, the `worldWidth` and `worldHeight` settings. */
    const width: real
    const height: real

    /**
     * The state every frame keeps: the roster's slots, ledgers without
     * repeats, the allies' base first and the enemies' second, capture
     * progress never negative, and a winner exactly when the game is over.
     */
    ghost predicate Valid()
      reads this
    {
      && RosterShape(tanks, allyCount)
      && Combat.LedgersUnique(tanks)
      && |beds| == 2 && beds[0].team == Ally && beds[1].team == Enemy
      && beds[0].captureProgress >= 0.0 && beds[1].captureProgress >= 0.0
      && (isGameOver <==> winner.Some?)
    }

    /** The command state is as it was. */
    twostate predicate CommandsKept()
      reads this
    {
      && currentCommand == old(currentCommand) && enemyCommand == old(enemyCommand)
      && commandCount == old(commandCount) && isAIControlled == old(isAIControlled)
      && lastAutopilotAt == old(lastAutopilotAt) && lastEnemyAutopilotAt == old(lastEnemyAutopilotAt)
    }

    twostate predicate OutcomeKept()
      reads this
    {
      isGameOver == old(isGameOver) && winner == old(winner)
    }

    /**
     * The initial state of a battle with `allies` allies and `enemies`
     * enemies on the generated `walls0`, on a `width0` × `height0` map.
     */
    constructor (allies: nat, enemies: nat, walls0: seq<Wall>, width0: real, height0: real)
      ensures Valid()
      ensures width == width0 && height == height0
      ensures tanks == Roster(allies, enemies, width0, height0) && allyCount == allies
      ensures walls == walls0 && bullets == [] && items == [] && beds == StartBeds(width0, height0)
      ensures currentCommand == Free && enemyCommand == Free
      ensures commandCount == (if allies >= 1 then allies else 1)
      ensures !isAIControlled && !isGameOver && winner == None
      ensures lastAutopilotAt == 0.0 && lastEnemyAutopilotAt == 0.0
    {
      width, height := width0, height0;
      tanks := Roster(allies, enemies, width0, height0);
      allyCount := allies;
      walls := walls0;
      bullets := [];
      items := [];
      beds := StartBeds(width0, height0);
      currentCommand := Free;
      enemyCommand := Free;
      commandCount := if allies >= 1 then allies else 1;
      isAIControlled := false;
      isGameOver := false;
      winner := None;
      lastAutopilotAt := 0.0;
      lastEnemyAutopilotAt := 0.0;
    }

    function Friends(): seq<Tank>
      reads this
      requires Valid()
    {
      tanks[..1 + allyCount]
    }

    function Enemies(): seq<Tank>
      reads this
      requires Valid()
    {
      tanks[1 + allyCount..]
    }

    /** What `runAI` reads for tank `i`. */
    function SceneOf(i: nat): Tactics.Scene
      reads this
      requires Valid() && i < |tanks|
    {
      SceneFor(tanks, allyCount, commandCount, currentCommand, enemyCommand, beds, items, walls, width, height, i)
    }

    // ------------------------------------------------------ regeneration

    /** The regeneration `forEach`: every tank regenerates once, with its own draw. */
    method RegenerateAll(now: real, draws: seq<real>)
      requires Valid() && |draws| == |tanks|
      modifies this
      ensures Valid() && |tanks| == |old(tanks)|
      ensures forall k :: 0 <= k < |tanks| ==> tanks[k] == Objectives.Regen(old(tanks[k]), now, draws[k])
      ensures walls == old(walls) && bullets == old(bullets) && items == old(items) && beds == old(beds)
      ensures CommandsKept() && OutcomeKept()
    {
      for k := 0 to |tanks|
        invariant Valid() && |tanks| == |old(tanks)|
        invariant forall m :: 0 <= m < k ==> tanks[m] == Objectives.Regen(old(tanks[m]), now, draws[m])
        invariant forall m :: k <= m < |tanks| ==> tanks[m] == old(tanks[m])
        invariant walls == old(walls) && bullets == old(bullets) && items == old(items) && beds == old(beds)
        invariant CommandsKept() && OutcomeKept()
      {
        tanks := tanks[k := Objectives.Regen(tanks[k], now, draws[k])];
      }
    }

    // ------------------------------------------------------- commanders

    /**
     * The autopilot, while it flies the player: every 6 s it evaluates its
     * table and switches the allies' command when the table disagrees.
     */
    method AutopilotTick(now: real)
      requires Valid()
      modifies this
      ensures Valid()
      ensures var due := old(isAIControlled) && now - old(lastAutopilotAt) > 6000.0;
        var cmd := Tactics.AutopilotCommand(old(beds[0].captureProgress), old(tanks[0].health),
                                            GameLogic.DistSq(old(tanks[0].pos), old(beds[1].pos)),
                                            CountInSight(old(Enemies()), old(tanks[0].pos)));
        && currentCommand == (if due then cmd else old(currentCommand))
        && lastAutopilotAt == (if due && cmd != old(currentCommand) then now else old(lastAutopilotAt))
      ensures tanks == old(tanks) && walls == old(walls) && bullets == old(bullets) && items == old(items)
      ensures beds == old(beds) && enemyCommand == old(enemyCommand) && commandCount == old(commandCount)
      ensures isAIControlled == old(isAIControlled) && lastEnemyAutopilotAt == old(lastEnemyAutopilotAt)
      ensures OutcomeKept()
    {
      if isAIControlled && now - lastAutopilotAt > 6000.0 {
        var player := tanks[0];
        var cmd := Tactics.AutopilotCommand(beds[0].captureProgress, player.health,
                                            GameLogic.DistSq(player.pos, beds[1].pos),
                                            CountInSight(Enemies(), player.pos));
        if cmd != currentCommand {
          currentCommand := cmd;
          lastAutopilotAt := now;
        }
      }
    }

    /**
     * The enemy commander: every 7 s, while a leader lives, the first
     * living leader evaluates its table over the player and the allies.
     */
    method EnemyCommanderTick(now: real)
      requires Valid()
      modifies this
      ensures Valid()
      ensures var leader := FirstLeader(old(Enemies()));
        var due := now - old(lastEnemyAutopilotAt) > 7000.0 && leader.Some?;
        var cmd := if leader.Some? then
            Tactics.EnemyCommanderCommand(old(beds[1].captureProgress), old(Enemies())[leader.value].health,
                                          GameLogic.DistSq(old(Enemies())[leader.value].pos, old(beds[0].pos)),
                                          CountInSight(old(Friends()), old(Enemies())[leader.value].pos))
          else old(enemyCommand);
        && enemyCommand == (if due then cmd else old(enemyCommand))
        && lastEnemyAutopilotAt == (if due && cmd != old(enemyCommand) then now else old(lastEnemyAutopilotAt))
      ensures tanks == old(tanks) && walls == old(walls) && bullets == old(bullets) && items == old(items)
      ensures beds == old(beds) && currentCommand == old(currentCommand) && commandCount == old(commandCount)
      ensures isAIControlled == old(isAIControlled) && lastAutopilotAt == old(lastAutopilotAt)
      ensures OutcomeKept()
    {
      if now - lastEnemyAutopilotAt > 7000.0 {
        var enemies := Enemies();
        var leader := FirstLeader(enemies);
        if leader.Some? {
          var chief := enemies[leader.value];
          var cmd := Tactics.EnemyCommanderCommand(beds[1].captureProgress, chief.health,
                                                   GameLogic.DistSq(chief.pos, beds[0].pos),
                                                   CountInSight(Friends(), chief.pos));
          if cmd != enemyCommand {
            enemyCommand := cmd;
            lastEnemyAutopilotAt := now;
          }
        }
      }
    }

    // ------------------------------------------------------------ moving

    /** `moveTank(tanks[i], dx, dy, angle)`: the new speed, rotation and position, and whether it moved. */
    method MoveTank(i: nat, dx: real, dy: real, angle: real, dt: real, now: real, dirOf: real -> Vec)
      returns (moved: bool)
      requires Valid() && i < |tanks|
      modifies this
      ensures Valid()
      ensures var m := Movement.MoveResult(old(tanks), walls, i, dx, dy, angle, Heading(old(tanks[i]), dx, dy, angle, dirOf),
                                           dt, now, width, height);
        tanks == old(tanks)[i := m.tank] && moved == m.moved
      ensures walls == old(walls) && bullets == old(bullets) && items == old(items) && beds == old(beds)
      ensures CommandsKept() && OutcomeKept()
    {
      var m := Movement.MoveResult(tanks, walls, i, dx, dy, angle, Heading(tanks[i], dx, dy, angle, dirOf),
                                   dt, now, width, height);
      tanks := tanks[i := m.tank];
      moved := m.moved;
    }

    /** The firing step of `runAI` for tank `i`: turn the turret, and fire when a target is in reach and the cooldown is over. */
    method Fire(i: nat, foes: seq<Tank>, movedSq: real, aimAngle: real, now: real, dirOf: real -> Vec)
      requires Valid() && i < |tanks|
      modifies this
      ensures Valid()
      ensures var t := old(tanks[i]);
        var shot := Fired(t, foes, walls, movedSq, aimAngle, dirOf, now);
        && tanks == old(tanks)[i := t.(turretRotation := Turret(t, foes, walls, movedSq, aimAngle, dirOf),
                                       lastShot := if shot.Some? then now else t.lastShot)]
        && bullets == old(bullets) + (if shot.Some? then [shot.value] else [])
      ensures walls == old(walls) && items == old(items) && beds == old(beds)
      ensures CommandsKept() && OutcomeKept()
    {
      var t := tanks[i];
      var turret := Turret(t, foes, walls, movedSq, aimAngle, dirOf);
      var shot := Fired(t, foes, walls, movedSq, aimAngle, dirOf, now);
      if shot.Some? {
        bullets := bullets + [shot.value];
        tanks := tanks[i := t.(turretRotation := turret, lastShot := now)];
      } else {
        tanks := tanks[i := t.(turretRotation := turret)];
      }
    }

    /**
     * `runAI` for tank `i`: choose a state and target, update the
     * navigation counters, then act on them (see `Execute`).
     * `aiState` is read and never written.
     */
    method RunAI(i: nat, now: real, dt: real, s: Senses, dirOf: real -> Vec)
      returns (ghost d: Tactics.Decision, ghost nav: Tactics.NavStep)
      requires Valid() && i < |tanks|
      modifies this
      ensures Valid() && |tanks| == |old(tanks)|
      ensures forall k :: 0 <= k < |tanks| && k != i ==> tanks[k] == old(tanks[k])
      ensures old(tanks[i].health) <= 0.0 ==> tanks == old(tanks) && bullets == old(bullets)
      ensures old(tanks[i].health) > 0.0 ==>
        var t := old(tanks[i]);
        && d == Tactics.Decide(t, SlotOf(i, allyCount), old(SceneOf(i)), s.rx, s.ry)
        && nav == Tactics.Navigate(NavOf(t), Moved(t), s.frontBlocked, s.leftHit, s.totalWeight,
                                   s.sideDraw, s.detourDraw)
        && tanks[i].reconTarget == d.reconTarget
        && NavOf(tanks[i]) == nav.next
        && tanks[i].lastPos == Some(t.pos)
      ensures old(tanks[i].health) > 0.0 ==> Executed(old(tanks), tanks, old(bullets), bullets, walls, width, height, i, d, nav,
                                                     old(SceneOf(i)).foes, now, dt, s, dirOf)
      ensures |bullets| > |old(bullets)| ==>
        && |bullets| == |old(bullets)| + 1 && bullets[..|old(bullets)|] == old(bullets)
        && tanks[i].lastShot == now && bullets[|old(bullets)|].ownerId == tanks[i].id
        && now - old(tanks[i].lastShot) > (if i == 0 then 600.0 else 1000.0)
      ensures |bullets| >= |old(bullets)|
      ensures walls == old(walls) && items == old(items) && beds == old(beds)
      ensures CommandsKept() && OutcomeKept()
    {
      var t := tanks[i];
      var sc := SceneOf(i);
      var choice := Tactics.Decide(t, SlotOf(i, allyCount), sc, s.rx, s.ry);
      var step := Tactics.Navigate(NavOf(t), Moved(t), s.frontBlocked, s.leftHit, s.totalWeight, s.sideDraw, s.detourDraw);
      d, nav := choice, step;
      if t.health <= 0.0 {
        return;
      }
      Execute(i, choice, step, sc.foes, now, dt, s, dirOf);
    }

    /**
     * What a living tank does once it has decided: the plan is written
     * back, then it backs up, arms a reverse, escapes or follows the fan,
     * and (unless backing up or arming) aims and maybe fires.
     */
    method Execute(i: nat, choice: Tactics.Decision, step: Tactics.NavStep, foes: seq<Tank>,
                   now: real, dt: real, s: Senses, dirOf: real -> Vec)
      requires Valid() && i < |tanks|
      modifies this
      ensures Valid() && |tanks| == |old(tanks)|
      ensures forall k :: 0 <= k < |tanks| && k != i ==> tanks[k] == old(tanks[k])
      ensures tanks[i].reconTarget == choice.reconTarget && NavOf(tanks[i]) == step.next
      ensures tanks[i].lastPos == Some(old(tanks[i]).pos)
      ensures Executed(old(tanks), tanks, old(bullets), bullets, walls, width, height, i, choice, step, foes, now, dt, s, dirOf)
      ensures |bullets| > |old(bullets)| ==>
        && |bullets| == |old(bullets)| + 1 && bullets[..|old(bullets)|] == old(bullets)
        && tanks[i].lastShot == now && bullets[|old(bullets)|].ownerId == tanks[i].id
        && now - old(tanks[i].lastShot) > (if i == 0 then 600.0 else 1000.0)
      ensures |bullets| >= |old(bullets)|
      ensures walls == old(walls) && items == old(items) && beds == old(beds)
      ensures CommandsKept() && OutcomeKept()
    {
      var t := tanks[i];
      tanks := tanks[i := Planned(t, choice, step.next)];
      if step.motion == Tactics.ArmReverse {
        return;
      }
      var dx := Drive(step.motion, s);
      var moved := MoveTank(i, dx, dx, s.driveAngle, dt, now, dirOf);
      if step.motion == Tactics.Reversing {
        return;
      }
      ghost var driven := tanks[i];
      FiredAfterCooldown(driven, foes, walls, Moved(t), s.aimAngle, dirOf, now);
      Fire(i, foes, Moved(t), s.aimAngle, now, dirOf);
    }

    /**
     * The `runAI` calls of a frame: each ally, then each enemy, then the
     * player when the autopilot flies it, that is call `c` on tank
     * `RunOrder(c, |tanks|)`. Each tank fires at most once, and only
     * standard shells, appended to the bullets in flight.
     */
    method RunAllAI(now: real, dt: real, senses: seq<Senses>, dirOf: real -> Vec)
      requires Valid() && |senses| == |tanks|
      modifies this
      ensures Valid() && |tanks| == |old(tanks)|
      ensures (tanks, bullets) == Calls(old(tanks), old(bullets), |tanks| - 1 + (if isAIControlled then 1 else 0),
                                        allyCount, commandCount, currentCommand, enemyCommand, beds, items, walls, width, height,
                                        now, dt, senses, dirOf)
      ensures |old(bullets)| <= |bullets| <= |old(bullets)| + |tanks| && bullets[..|old(bullets)|] == old(bullets)
      ensures StandardShells(bullets[|old(bullets)|..])
      ensures walls == old(walls) && items == old(items) && beds == old(beds)
      ensures CommandsKept() && OutcomeKept()
    {
      var calls := |tanks| - 1 + (if isAIControlled then 1 else 0);
      for c := 0 to calls
        invariant Valid() && |tanks| == |old(tanks)|
        invariant (tanks, bullets) == Calls(old(tanks), old(bullets), c, allyCount, commandCount, currentCommand,
                                            enemyCommand, beds, items, walls, width, height, now, dt, senses, dirOf)
        invariant walls == old(walls) && items == old(items) && beds == old(beds)
        invariant CommandsKept() && OutcomeKept()
      {
        var k := RunOrder(c, |tanks|);
        Shoot(k, now, dt, senses[k], dirOf);
        CallsNext(old(tanks), old(bullets), c, allyCount, commandCount, currentCommand, enemyCommand,
                  beds, items, walls, width, height, now, dt, senses, dirOf);
      }
    }

    /** One `runAI(i)` call as the frame loop sees it: `AIStep`, and at most one more standard shell. */
    method Shoot(i: nat, now: real, dt: real, s: Senses, dirOf: real -> Vec)
      requires Valid() && i < |tanks|
      modifies this
      ensures Valid() && |tanks| == |old(tanks)|
      ensures (tanks, bullets) == AIStep(old(tanks), old(bullets), allyCount, commandCount, currentCommand,
                                         enemyCommand, beds, items, walls, width, height, i, now, dt, s, dirOf)
      ensures |old(bullets)| <= |bullets| <= |old(bullets)| + 1 && bullets[..|old(bullets)|] == old(bullets)
      ensures |bullets| > |old(bullets)| ==>
        bullets[|old(bullets)|].size == BulletSize && bullets[|old(bullets)|].speed == BulletSpeed
        && bullets[|old(bullets)|].damage == BulletDamage
      ensures walls == old(walls) && items == old(items) && beds == old(beds)
      ensures CommandsKept() && OutcomeKept()
    {
      ghost var d, nav := RunAI(i, now, dt, s, dirOf);
      ExecutedIsStep(old(tanks), tanks, old(bullets), bullets, allyCount, commandCount, currentCommand, enemyCommand,
                     beds, items, walls, width, height, i, now, dt, s, dirOf);
    }

    // ------------------------------------------------------------ pickup

    /** The pickup pass: each item goes to the first living tank touching it, or stays on the ground. */
    method PickUpItems(now: real, draws: seq<(real, real)>, buffDuration: real)
      requires Valid() && |draws| == |items|
      modifies this
      ensures Valid()
      ensures Objectives.Loot(tanks, items) == Objectives.Pickup(old(tanks), old(items), draws, |old(items)|, now, buffDuration)
      ensures walls == old(walls) && bullets == old(bullets) && beds == old(beds)
      ensures CommandsKept() && OutcomeKept()
    {
      var l := PickupPass(tanks, items, draws, now, buffDuration);
      PickupKeepsRoster(tanks, items, draws, now, buffDuration);
      tanks, items := l.tanks, l.items;
    }

    /** The pickup pass changes only health and buffs, so the roster and the ledgers stay as they were. */
    lemma PickupKeepsRoster(ts: seq<Tank>, its: seq<Item>, draws: seq<(real, real)>, now: real, buffDuration: real)
      requires RosterShape(ts, allyCount) && Combat.LedgersUnique(ts) && |draws| == |its|
      ensures var r := Objectives.Pickup(ts, its, draws, |its|, now, buffDuration).tanks;
        RosterShape(r, allyCount) && Combat.LedgersUnique(r)
    {
      var r := Objectives.Pickup(ts, its, draws, |its|, now, buffDuration).tanks;
      assert forall k :: 0 <= k < |ts| ==>
        (r[k].id == ts[k].id && r[k].team == ts[k].team && r[k].recentDamagers == ts[k].recentDamagers);
    }

    // ----------------------------------------------------------- bullets

    /**
     * A bullet hits tank `j`: the damage and the ledger entry, then on a
     * kill the killer's credit, the assists from the ledger's `forEach`,
     * and the emptied ledger.
     */
    method Hit(j: nat, b: Bullet, now: real)
      requires Valid() && j < |tanks|
      modifies this
      ensures Valid()
      ensures tanks == Combat.Strike(old(tanks), j, b, now)
      ensures walls == old(walls) && bullets == old(bullets) && items == old(items) && beds == old(beds)
      ensures CommandsKept() && OutcomeKept()
    {
      RosterUnique(tanks, allyCount);
      Combat.StrikeKeepsLedgers(tanks, j, b, now);
      RosterKept(tanks, Combat.Strike(tanks, j, b, now), allyCount);
      tanks := StrikePass(tanks, j, b, now);
    }

    /**
     * The bullet pass: each bullet flies, then leaves the world, bounces
     * off or is stopped by the first wall in its way, or hits the first
     * tank it can; survivors are kept in order.
     */
    method ResolveBullets(now: real, dt: real, dirOf: real -> Vec)
      requires Valid()
      modifies this
      ensures Valid()
      ensures Combat.Battle(tanks, walls, bullets)
        == Combat.Pass(old(tanks), old(walls), old(bullets), |old(bullets)|, dirOf, dt, now, width, height)
      ensures items == old(items) && beds == old(beds)
      ensures CommandsKept() && OutcomeKept()
    {
      var kept: seq<Bullet> := [];
      var k := 0;
      while k < |bullets|
        invariant 0 <= k <= |bullets| && bullets == old(bullets)
        invariant Combat.Battle(tanks, walls, kept)
          == Combat.Pass(old(tanks), old(walls), bullets, k, dirOf, dt, now, width, height)
        invariant Valid()
        invariant items == old(items) && beds == old(beds)
        invariant CommandsKept() && OutcomeKept()
      {
        kept := Settle(bullets[k], kept, now, dt, dirOf);
        k := k + 1;
      }
      bullets := kept;
    }

    /** One bullet of the pass: it is lost, bounces, chips a wall, hits a tank or flies on into `kept`. */
    method Settle(b0: Bullet, kept: seq<Bullet>, now: real, dt: real, dirOf: real -> Vec) returns (kept1: seq<Bullet>)
      requires Valid()
      modifies this
      ensures Valid()
      ensures Combat.Battle(tanks, walls, kept1)
        == Combat.Resolve(Combat.Battle(old(tanks), old(walls), kept), b0, dirOf, dt, now, width, height)
      ensures bullets == old(bullets) && items == old(items) && beds == old(beds)
      ensures CommandsKept() && OutcomeKept()
    {
      kept1 := kept;
      match Combat.FateOf(b0, dirOf, tanks, walls, dt, width, height) {
        case Lost =>
        case Bounced(nb) => kept1 := kept + [nb];
        case WallStruck(w) => walls := walls[w := Combat.Chip(walls[w])];
        case TankStruck(j, b) => Hit(j, b, now);
        case Flying(nb) => kept1 := kept + [nb];
      }
    }

    /** `walls.filter(w => w.health > 0)`. */
    method RemoveDestroyedWalls()
      requires Valid()
      modifies this
      ensures Valid()
      ensures walls == Combat.Standing(old(walls))
      ensures tanks == old(tanks) && bullets == old(bullets) && items == old(items) && beds == old(beds)
      ensures CommandsKept() && OutcomeKept()
    {
      walls := Combat.Standing(walls);
    }

    // ----------------------------------------------------------- capture

    /** Base `k` this frame; completing its capture ends the game with the capturing side as winner. */
    method CaptureBed(k: nat, dt: real)
      requires Valid() && k < 2 && dt >= 0.0
      modifies this
      ensures Valid()
      ensures var c := Objectives.CaptureStep(old(beds[k]), old(tanks), dt);
        && beds == old(beds)[k := c.bed]
        && isGameOver == (old(isGameOver) || c.won)
        && winner == (if c.won then c.bed.capturingTeam else old(winner))
      ensures tanks == old(tanks) && walls == old(walls) && bullets == old(bullets) && items == old(items)
      ensures CommandsKept()
    {
      Objectives.CaptureWinnerIsOpponent(beds[k], tanks, dt);
      var c := Objectives.CaptureStep(beds[k], tanks, dt);
      beds, isGameOver, winner := beds[k := c.bed], isGameOver || c.won, if c.won then c.bed.capturingTeam else winner;
    }

    /**
     * The `beds.forEach` of a frame: the allies' base, then the enemies'.
     * When both complete in the same frame, the second one's capturer is
     * the winner.
     */
    method CaptureBeds(dt: real)
      requires Valid() && dt >= 0.0
      modifies this
      ensures Valid()
      ensures var c0 := Objectives.CaptureStep(old(beds[0]), old(tanks), dt);
        var c1 := Objectives.CaptureStep(old(beds[1]), old(tanks), dt);
        && beds == [c0.bed, c1.bed]
        && isGameOver == (old(isGameOver) || c0.won || c1.won)
        && winner == (if c1.won then c1.bed.capturingTeam else if c0.won then c0.bed.capturingTeam else old(winner))
      ensures tanks == old(tanks) && walls == old(walls) && bullets == old(bullets) && items == old(items)
      ensures CommandsKept()
    {
      CaptureBed(0, dt);
      CaptureBed(1, dt);
    }

    // ----------------------------------------------------------- respawn

    /** The ring search of `handleRespawn`: the first open point around the spawn point, else the spawn point. */
    method SafeSpot(i: nat, ring: seq<Vec>) returns (pos: Vec)
      requires i < |tanks|
      ensures var open := Objectives.FirstOpen(tanks, walls, i, ring, width, height);
        pos == (if open.Some? then Objectives.Around(tanks[i], ring[open.value]) else tanks[i].spawnPos)
    {
      var k := 0;
      while k < |ring|
        invariant 0 <= k <= |ring|
        invariant forall m :: 0 <= m < k ==>
          Movement.Blocked(tanks, walls, i, Objectives.Around(tanks[i], ring[m]), width, height)
      {
        var p := Objectives.Around(tanks[i], ring[k]);
        if !Movement.Blocked(tanks, walls, i, p, width, height) {
          return p;
        }
        k := k + 1;
      }
      pos := tanks[i].spawnPos;
    }

    /** `handleRespawn(tanks[i])`. */
    method RespawnTank(i: nat, ring: seq<Vec>, dt: real)
      requires Valid() && i < |tanks|
      modifies this
      ensures Valid()
      ensures tanks == old(tanks)[i := Objectives.Respawn(old(tanks), walls, i, ring, dt, width, height)]
      ensures walls == old(walls) && bullets == old(bullets) && items == old(items) && beds == old(beds)
      ensures CommandsKept() && OutcomeKept()
    {
      var t := tanks[i];
      if t.health <= 0.0 {
        if t.respawnTimer == 0.0 {
          tanks := tanks[i := t.(respawnTimer := RespawnDelay)];
        } else {
          var timer := t.respawnTimer - dt * 1000.0;
          if timer <= 0.0 {
            var p := SafeSpot(i, ring);
            tanks := tanks[i := t.(health := MaxHealthTank, pos := p, respawnTimer := 0.0)];
          } else {
            tanks := tanks[i := t.(respawnTimer := timer)];
          }
        }
      }
    }

    /** `handleRespawn` for the player, the allies and the enemies, in that order. */
    method RespawnAll(ring: seq<Vec>, dt: real)
      requires Valid()
      modifies this
      ensures Valid()
      ensures tanks == Respawned(old(tanks), walls, ring, dt, width, height, |old(tanks)|)
      ensures walls == old(walls) && bullets == old(bullets) && items == old(items) && beds == old(beds)
      ensures CommandsKept() && OutcomeKept()
    {
      for i := 0 to |tanks|
        invariant |tanks| == |old(tanks)| && tanks == Respawned(old(tanks), walls, ring, dt, width, height, i)
        invariant Valid()
        invariant walls == old(walls) && bullets == old(bullets) && items == old(items) && beds == old(beds)
        invariant CommandsKept() && OutcomeKept()
      {
        RespawnTank(i, ring, dt);
      }
    }

    // ------------------------------------------------------------- frame

    /**
     * One frame of `gameLoop` after the game has started and while it is
     * not paused: regeneration, the two commanders, every `runAI`, item
     * pickup, the bullet pass, wall removal, the bases and the respawns.
     * A finished game does not change.
     */
    method Frame(now: real, dt: real, regenDraws: seq<real>, senses: seq<Senses>, lootDraws: seq<(real, real)>,
                 buffDuration: real, dirOf: real -> Vec, ring: seq<Vec>)
      requires Valid() && dt >= 0.0
      requires |regenDraws| == |tanks| && |senses| == |tanks| && |lootDraws| == |items|
      modifies this
      ensures Valid() && |tanks| == |old(tanks)|
      ensures old(isGameOver) ==> isGameOver && winner == old(winner)
      ensures old(isGameOver) ==> tanks == old(tanks) && walls == old(walls) && bullets == old(bullets)
                                  && items == old(items) && beds == old(beds) && CommandsKept()
      ensures |walls| <= |old(walls)| && |items| <= |old(items)|
      ensures commandCount == old(commandCount) && isAIControlled == old(isAIControlled)
    {
      if isGameOver {
        return;
      }
      RegenerateAll(now, regenDraws);
      AutopilotTick(now);
      EnemyCommanderTick(now);
      RunAllAI(now, dt, senses, dirOf);
      PickUpItems(now, lootDraws, buffDuration);
      ResolveBullets(now, dt, dirOf);
      RemoveDestroyedWalls();
      CaptureBeds(dt);
      RespawnAll(ring, dt);
    }
  }
}
