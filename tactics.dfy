/**
 * The pure decision rules of the current game loop
 * (components/GameCanvas.tsx): the side test, the turning clamp, the
 * autopilot and enemy-commander tables, the state and target selection of
 * `runAI`, its stuck/reverse/detour counters and its firing rule.
 *
 * Headings, `atan2` results and the steering fan's weights are inputs: the
 * caller passes the target angle and what the probes found.
 */
module Tactics {
  import opened Types
  import GameLogic

  // ---------------------------------------------------------------- sides

  predicate IsFriend(t: Team) { t == Player || t == Ally }

  /** `isSameSide(t1, t2)`: PLAYER and ALLY form one side, ENEMY the other. */
  predicate IsSameSide(a: Team, b: Team) {
    IsFriend(a) == IsFriend(b)
  }

  /** Being on the same side is an equivalence with two classes, told apart by ENEMY. */
  lemma SameSideIsEquivalence(a: Team, b: Team, c: Team)
    ensures IsSameSide(a, a)
    ensures IsSameSide(a, b) == IsSameSide(b, a)
    ensures IsSameSide(a, b) && IsSameSide(b, c) ==> IsSameSide(a, c)
    ensures IsSameSide(a, b) <==> (a == Enemy <==> b == Enemy)
  {
  }

  /** `isSameSide(team, ALLY) ? ALLY : ENEMY`, the two-valued side of a team. */
  function SideOf(t: Team): (s: Team)
    ensures s != Player && IsSameSide(s, t)
  {
    if IsSameSide(t, Ally) then Ally else Enemy
  }

  // --------------------------------------------------------------- angles

  /** JavaScript's truncating conversion used by `%`. */
  function Trunc(x: real): int {
    if x >= 0.0 then x.Floor else -((-x).Floor)
  }

  /** JavaScript's `x % m`: the remainder keeps the sign of `x`. */
  function JsRemainder(x: real, m: real): real
    requires m != 0.0
  {
    x - Trunc(x / m) as real * m
  }

  /**
   * The wrapped difference `((d + 3π) % 2π) - π` of `lerpAngle`, for
   * `d = target - current`, as written. It lies in [-π, π) only when
   * `d >= -3π`; below that it falls in (-3π, -π].
   */
  function WrapDiffAsWritten(d: real): (w: real)
    ensures d >= -3.0 * Pi ==> -Pi <= w < Pi
    ensures d < -3.0 * Pi ==> -3.0 * Pi < w <= -Pi
  {
    JsRemainder(d + Pi * 3.0, Pi * 2.0) - Pi
  }

  function FloorMod(x: real, m: real): real
    requires m > 0.0
  {
    x - (x / m).Floor as real * m
  }

  /**
   * The evidently intended wrapped difference: the representative of
   * `d` modulo 2π in [-π, π).
   */
  function WrapDiff(d: real): (w: real)
    ensures -Pi <= w < Pi
    ensures ((d - w) / (Pi * 2.0)).Floor as real == (d - w) / (Pi * 2.0)
  {
    var w := FloorMod(d + Pi, Pi * 2.0) - Pi;
    assert d - w == ((d + Pi) / (Pi * 2.0)).Floor as real * (Pi * 2.0);
    w
  }

  /** The two wraps agree whenever the difference is not far below -3π. */
  lemma WrapDiffAgrees(d: real)
    requires d >= -3.0 * Pi
    ensures WrapDiffAsWritten(d) == WrapDiff(d)
  {
    var q1 := ((d + Pi * 3.0) / (Pi * 2.0)).Floor;
    var q2 := ((d + Pi) / (Pi * 2.0)).Floor;
    assert (d + Pi * 3.0) / (Pi * 2.0) == (d + Pi) / (Pi * 2.0) + 1.0;
    assert q1 == q2 + 1;
  }

  function Clamp(x: real, step: real): real {
    if x > step then step else if x < -step then -step else x
  }

  /** `lerpAngle(current, target, step)` with the corrected wrap. */
  function LerpAngle(current: real, target: real, step: real): (r: real)
    ensures step >= 0.0 ==> -step <= r - current <= step
    ensures step >= 0.0 ==> (r - current) * WrapDiff(target - current) >= 0.0
    ensures -step <= WrapDiff(target - current) <= step ==> r - current == WrapDiff(target - current)
  {
    var c := Clamp(WrapDiff(target - current), step);
    GameLogic.SameSignProduct(c, WrapDiff(target - current));
    current + c
  }

  /** `lerpAngle(current, target, step)` as written. */
  function LerpAngleAsWritten(current: real, target: real, step: real): real {
    current + Clamp(WrapDiffAsWritten(target - current), step)
  }

  lemma LerpAngleAgrees(current: real, target: real, step: real)
    requires target - current >= -3.0 * Pi
    ensures LerpAngleAsWritten(current, target, step) == LerpAngle(current, target, step)
  {
    WrapDiffAgrees(target - current);
  }

  /**
   * A tank that has turned past 10 rad and aims at heading 0 is 2.57 rad
   * short of a full turn: the intended rule turns it forward by the step,
   * the rule as written turns it backwards the long way.
   */
  lemma LerpAngleAsWrittenTurnsBackwards()
    ensures LerpAngleAsWritten(10.0, 0.0, 0.25) == 9.75
    ensures LerpAngle(10.0, 0.0, 0.25) == 10.25
  {
    assert Trunc((-10.0 + Pi * 3.0) / (Pi * 2.0)) == 0;
    assert ((-10.0 + Pi) / (Pi * 2.0)).Floor == -2;
  }

  // ----------------------------------------------------- command tables

  const DefendThreshold: real := 1200.0
  const CaptureReach: real := 700.0
  const SightRange: real := 1200.0

  /**
   * The order of the autopilot and enemy-commander tables: defend a base
   * under capture, repair a damaged commander, capture when close to the
   * enemy base, surround a large group, attack a small one, else scout.
   */
  function CommandTable(baseProgress: real, health: real, targetBaseDistSq: real, visible: nat,
                        healthFloor: real, surroundAt: nat): (c: Command)
    ensures c == Defend <==> baseProgress > 1200.0
    ensures c == FreePlanning <==> baseProgress <= 1200.0 && health < healthFloor
    ensures c == Capture <==>
      baseProgress <= 1200.0 && health >= healthFloor && targetBaseDistSq < 700.0 * 700.0
    ensures c == Surround <==>
      baseProgress <= 1200.0 && health >= healthFloor && targetBaseDistSq >= 700.0 * 700.0
      && visible >= surroundAt
    ensures c == Attack <==>
      baseProgress <= 1200.0 && health >= healthFloor && targetBaseDistSq >= 700.0 * 700.0
      && 0 < visible < surroundAt
    ensures c == Recon <==>
      baseProgress <= 1200.0 && health >= healthFloor && targetBaseDistSq >= 700.0 * 700.0
      && visible == 0 && visible < surroundAt
    ensures c != Free
  {
    if baseProgress > DefendThreshold then Defend
    else if health < healthFloor then FreePlanning
    else if targetBaseDistSq < CaptureReach * CaptureReach then Capture
    else if visible >= surroundAt then Surround
    else if visible > 0 then Attack
    else Recon
  }

  /** The autopilot's table: repair below 45 health, surround at 3 visible enemies. */
  function AutopilotCommand(allyBaseProgress: real, playerHealth: real, playerToEnemyBaseSq: real,
                            visibleEnemies: nat): (c: Command)
    ensures c == FreePlanning <==> allyBaseProgress <= 1200.0 && playerHealth < 45.0
    ensures c == Surround ==> visibleEnemies >= 3
  {
    CommandTable(allyBaseProgress, playerHealth, playerToEnemyBaseSq, visibleEnemies, 45.0, 3)
  }

  /** The enemy commander's table: repair below 40 health, surround at 2 visible foes. */
  function EnemyCommanderCommand(enemyBaseProgress: real, leaderHealth: real, leaderToAllyBaseSq: real,
                                 visibleFoes: nat): (c: Command)
    ensures c == FreePlanning <==> enemyBaseProgress <= 1200.0 && leaderHealth < 40.0
    ensures c == Surround ==> visibleFoes >= 2
  {
    CommandTable(enemyBaseProgress, leaderHealth, leaderToAllyBaseSq, visibleFoes, 40.0, 2)
  }

  /** The enemy commander is bolder: with two foes in sight it surrounds where the autopilot attacks. */
  lemma EnemyCommanderSurroundsEarlier()
    ensures AutopilotCommand(0.0, 100.0, 1000000.0, 2) == Attack
    ensures EnemyCommanderCommand(0.0, 100.0, 1000000.0, 2) == Surround
    ensures AutopilotCommand(0.0, 42.0, 1000000.0, 0) == FreePlanning
    ensures EnemyCommanderCommand(0.0, 42.0, 1000000.0, 0) == Recon
  {
  }

  // ---------------------------------------------------------- item search

  /** Whether `runAI` looks at this item in the heal list (`heal`) or in the buff list. */
  predicate Wanted(it: Item, heal: bool) {
    (it.kind == Heal) == heal
  }

  /**
   * `filter(wanted).sort(by distance)[0]` over the first `n` items. The
   * sort is stable, so the pick is the first wanted item at the least
   * distance.
   */
  function NearestUpTo(items: seq<Item>, from: Vec, heal: bool, n: nat): (r: Option<nat>)
    requires n <= |items|
    ensures r.None? <==> forall j :: 0 <= j < n ==> !Wanted(items[j], heal)
    ensures r.Some? ==> r.value < n && Wanted(items[r.value], heal)
    ensures r.Some? ==> forall j :: 0 <= j < n && Wanted(items[j], heal) ==>
      GameLogic.DistSq(from, items[r.value].pos) <= GameLogic.DistSq(from, items[j].pos)
    ensures r.Some? ==> forall j :: 0 <= j < r.value && Wanted(items[j], heal) ==>
      GameLogic.DistSq(from, items[r.value].pos) < GameLogic.DistSq(from, items[j].pos)
  {
    if n == 0 then None
    else
      var prev := NearestUpTo(items, from, heal, n - 1);
      if !Wanted(items[n - 1], heal) then prev
      else if prev.None? then Some(n - 1)
      else if GameLogic.DistSq(from, items[n - 1].pos) < GameLogic.DistSq(from, items[prev.value].pos) then Some(n - 1)
      else prev
  }

  function Nearest(items: seq<Item>, from: Vec, heal: bool): Option<nat> {
    NearestUpTo(items, from, heal, |items|)
  }

  /** `items.find(i => i.type === HEAL)` over the first `n` items, as an index. */
  function FirstHealUpTo(items: seq<Item>, n: nat): (r: Option<nat>)
    requires n <= |items|
    ensures r.None? <==> forall j :: 0 <= j < n ==> items[j].kind != Heal
    ensures r.Some? ==> r.value < n && items[r.value].kind == Heal
    ensures r.Some? ==> forall j :: 0 <= j < r.value ==> items[j].kind != Heal
  {
    if n == 0 then None
    else
      var prev := FirstHealUpTo(items, n - 1);
      if prev.Some? then prev else if items[n - 1].kind == Heal then Some(n - 1) else None
  }

  // ---------------------------------------------------- state selection

  /** Where `runAI` steers: a point, a slot on a rotating orbit, or a slot of the defence ring. */
  datatype Goal =
    | TowardPoint(p: Vec)
      /** angle `now / 2000 + slot * 2π / 5` around `center` */
    | OrbitSlot(center: Vec, radius: real, slot: nat)
      /** angle `slot * 2π / 6` around `center` */
    | RingSlot(center: Vec, radius: real, slot: nat)

  /** The outcome of `runAI`'s state selection; `reconTarget` is written back to the tank. */
  datatype Decision = Decision(state: AIState, goal: Goal, reconTarget: Option<Vec>)

  /** What `runAI` reads from the rest of the world for one tank. */
  datatype Scene = Scene(
    isAlly: bool,
    isCommanded: bool,
    activeCmd: Command,
    /** the living foes, in roster order */
    foes: seq<Tank>,
    myBase: Bed,
    enemyBase: Bed,
    /** `beds[0].captureProgress`, which FREE_PLANNING reads for both sides */
    allyBaseProgress: real,
    items: seq<Item>,
    walls: seq<Wall>,
    /** the first living enemy leader, the orbit centre allies prefer */
    enemyLeader: Option<Vec>,
    playerPos: Vec,
    width: real,
    height: real)

  predicate UnderAttack(sc: Scene) {
    sc.myBase.captureProgress > 0.0
    || exists j :: 0 <= j < |sc.foes| && GameLogic.DistSq(sc.foes[j].pos, sc.myBase.pos) < 1000.0 * 1000.0
  }

  predicate FoesNearby(t: Tank, sc: Scene) {
    exists j :: 0 <= j < |sc.foes| && GameLogic.DistSq(t.pos, sc.foes[j].pos) < 900.0 * 900.0
  }

  predicate IsSturdy(k: WallType) { k == Stone || k == Iron || k == Bulletproof }

  predicate SturdyCover(t: Tank, sc: Scene) {
    exists j :: 0 <= j < |sc.walls| && IsSturdy(sc.walls[j].kind)
      && GameLogic.DistSq(t.pos, sc.walls[j].pos) < 400.0 * 400.0
  }

  /** A tank picks a fresh scouting point when it has none or is within `reach` of it. */
  predicate NeedsNewTarget(t: Tank, reach: real) {
    t.reconTarget.None? || GameLogic.DistSq(t.pos, t.reconTarget.value) < reach * reach
  }

  predicate SeeksHealth(t: Tank, sc: Scene) {
    t.health < 60.0 && Nearest(sc.items, t.pos, true).Some?
  }

  predicate Defends(t: Tank, sc: Scene) {
    UnderAttack(sc) && (GameLogic.DistSq(t.pos, sc.myBase.pos) < 1500.0 * 1500.0 || t.health > 80.0)
  }

  predicate ChasesBuff(t: Tank, sc: Scene) {
    var buff := Nearest(sc.items, t.pos, false);
    t.health > 70.0 && buff.Some? && GameLogic.DistSq(t.pos, sc.items[buff.value].pos) < 800.0 * 800.0
  }

  /** None of the four overrides applies, so the tank follows its side's command. */
  predicate FollowsCommand(t: Tank, sc: Scene) {
    !SeeksHealth(t, sc) && !Defends(t, sc) && !ChasesBuff(t, sc) && t.aiState != Ambush
  }

  function OrbitCenter(sc: Scene): Vec
    requires |sc.foes| > 0
  {
    if !sc.isAlly then sc.playerPos
    else if sc.enemyLeader.Some? then sc.enemyLeader.value
    else sc.foes[0].pos
  }

  /** The scouting branches: keep the target, or draw a new one at `(x0 + rx*w, y0 + ry*h)`. */
  function Scout(t: Tank, reach: real, x0: real, y0: real, w: real, h: real, rx: real, ry: real): (d: Decision)
    ensures d.state == ReconState && d.reconTarget.Some? && d.goal == TowardPoint(d.reconTarget.value)
    ensures !NeedsNewTarget(t, reach) ==> d.reconTarget == t.reconTarget
  {
    var target := if NeedsNewTarget(t, reach) then Vec(GameLogic.Spread(rx, w, x0), GameLogic.Spread(ry, h, y0)) else t.reconTarget.value;
    Decision(ReconState, TowardPoint(target), Some(target))
  }

  /**
   * The state and target selection of `runAI` for tank `t` at roster
   * slot `idx`, with `rx`, `ry` the draws for a new scouting point. The
   * stored `aiState` is read but never written back by the source.
   */
  function Decide(t: Tank, idx: nat, sc: Scene, rx: real, ry: real): (d: Decision)
    ensures SeeksHealth(t, sc) ==>
      d == Decision(SeekHealth, TowardPoint(sc.items[Nearest(sc.items, t.pos, true).value].pos), t.reconTarget)
    ensures !SeeksHealth(t, sc) && Defends(t, sc) ==>
      d == Decision(DefendCore, TowardPoint(sc.myBase.pos), t.reconTarget)
    ensures !SeeksHealth(t, sc) && !Defends(t, sc) && ChasesBuff(t, sc) ==>
      d == Decision(Pathfinding, TowardPoint(sc.items[Nearest(sc.items, t.pos, false).value].pos), t.reconTarget)
    ensures d.state == EngageTank ==> t.aiState == Ambush && (FoesNearby(t, sc) || UnderAttack(sc))
    ensures d.state == Ambush ==> d.goal == TowardPoint(t.pos)
    ensures d.state == Ambush ==>
      t.aiState == Ambush || (sc.isCommanded && sc.activeCmd == Recon && SturdyCover(t, sc))
    ensures d.state == EngageTank ==> d.goal == TowardPoint(sc.enemyBase.pos)
    ensures !SeeksHealth(t, sc) && !Defends(t, sc) && !ChasesBuff(t, sc) && t.aiState == Ambush ==>
      d == (if FoesNearby(t, sc) || UnderAttack(sc) then Decision(EngageTank, TowardPoint(sc.enemyBase.pos), t.reconTarget)
            else Decision(Ambush, TowardPoint(t.pos), t.reconTarget))
    ensures FollowsCommand(t, sc) && sc.isCommanded && sc.activeCmd == Recon ==>
      d == (if !FoesNearby(t, sc) && !UnderAttack(sc) && SturdyCover(t, sc) then Decision(Ambush, TowardPoint(t.pos), t.reconTarget)
            else Scout(t, 200.0, 0.0, 0.0, sc.width, sc.height, rx, ry))
    ensures (FollowsCommand(t, sc) && sc.isCommanded && sc.activeCmd == FreePlanning
             && t.health < 75.0 && FirstHealUpTo(sc.items, |sc.items|).Some?) ==>
      d == Decision(SeekHealth, TowardPoint(sc.items[FirstHealUpTo(sc.items, |sc.items|).value].pos), t.reconTarget)
    ensures (FollowsCommand(t, sc) && sc.isCommanded && sc.activeCmd == FreePlanning
             && !(t.health < 75.0 && FirstHealUpTo(sc.items, |sc.items|).Some?)) ==>
      d == (if GameLogic.DistSq(t.pos, sc.myBase.pos) < 1200.0 * 1200.0 && sc.allyBaseProgress > 500.0
            then Decision(DefendCore, TowardPoint(sc.myBase.pos), t.reconTarget)
            else Decision(AttackCore, TowardPoint(sc.enemyBase.pos), t.reconTarget))
    ensures FollowsCommand(t, sc) && sc.isCommanded && sc.activeCmd == Defend ==>
      d == Decision(DefendCore, RingSlot(sc.myBase.pos, 350.0 + (idx % 2) as real * 150.0, idx), t.reconTarget)
    ensures FollowsCommand(t, sc) && sc.isCommanded && sc.activeCmd == Capture ==>
      d == Decision(Pathfinding, TowardPoint(sc.enemyBase.pos), t.reconTarget)
    ensures FollowsCommand(t, sc) && sc.isCommanded && sc.activeCmd == Attack ==>
      d == Decision(AttackCore, TowardPoint(sc.enemyBase.pos), t.reconTarget)
    ensures FollowsCommand(t, sc) && sc.isCommanded && sc.activeCmd == Surround && |sc.foes| > 0 ==>
      d == Decision(SurroundMove, OrbitSlot(OrbitCenter(sc), 600.0, idx), t.reconTarget)
    ensures FollowsCommand(t, sc) && (!sc.isCommanded || sc.activeCmd == Free || (sc.activeCmd == Surround && |sc.foes| == 0)) ==>
      d == Scout(t, 180.0, 400.0, 400.0, sc.width - 800.0, sc.height - 800.0, rx, ry)
    ensures d.reconTarget != t.reconTarget ==> d.state == ReconState
    ensures d.state == ReconState ==> d.reconTarget.Some? && d.goal == TowardPoint(d.reconTarget.value)
  {
    var underAttack := UnderAttack(sc);
    var heal := Nearest(sc.items, t.pos, true);
    var buff := Nearest(sc.items, t.pos, false);
    var nearby := FoesNearby(t, sc);
    if t.health < 60.0 && heal.Some? then
      Decision(SeekHealth, TowardPoint(sc.items[heal.value].pos), t.reconTarget)
    else if underAttack && (GameLogic.DistSq(t.pos, sc.myBase.pos) < 1500.0 * 1500.0 || t.health > 80.0) then
      Decision(DefendCore, TowardPoint(sc.myBase.pos), t.reconTarget)
    else if t.health > 70.0 && buff.Some? && GameLogic.DistSq(t.pos, sc.items[buff.value].pos) < 800.0 * 800.0 then
      Decision(Pathfinding, TowardPoint(sc.items[buff.value].pos), t.reconTarget)
    else if t.aiState == Ambush then
      if nearby || underAttack then Decision(EngageTank, TowardPoint(sc.enemyBase.pos), t.reconTarget)
      else Decision(Ambush, TowardPoint(t.pos), t.reconTarget)
    else if sc.isCommanded && sc.activeCmd == Recon then
      if !nearby && !underAttack && SturdyCover(t, sc) then Decision(Ambush, TowardPoint(t.pos), t.reconTarget)
      else Scout(t, 200.0, 0.0, 0.0, sc.width, sc.height, rx, ry)
    else if sc.isCommanded && sc.activeCmd == FreePlanning then
      var healItem := FirstHealUpTo(sc.items, |sc.items|);
      if t.health < 75.0 && healItem.Some? then
        Decision(SeekHealth, TowardPoint(sc.items[healItem.value].pos), t.reconTarget)
      else if GameLogic.DistSq(t.pos, sc.myBase.pos) < 1200.0 * 1200.0 && sc.allyBaseProgress > 500.0 then
        Decision(DefendCore, TowardPoint(sc.myBase.pos), t.reconTarget)
      else
        Decision(AttackCore, TowardPoint(sc.enemyBase.pos), t.reconTarget)
    else if sc.isCommanded && sc.activeCmd == Surround && |sc.foes| > 0 then
      Decision(SurroundMove, OrbitSlot(OrbitCenter(sc), 600.0, idx), t.reconTarget)
    else if sc.isCommanded && sc.activeCmd == Capture then
      Decision(Pathfinding, TowardPoint(sc.enemyBase.pos), t.reconTarget)
    else if sc.isCommanded && sc.activeCmd == Defend then
      Decision(DefendCore, RingSlot(sc.myBase.pos, 350.0 + (idx % 2) as real * 150.0, idx), t.reconTarget)
    else if sc.isCommanded && sc.activeCmd == Attack then
      Decision(AttackCore, TowardPoint(sc.enemyBase.pos), t.reconTarget)
    else
      Scout(t, 180.0, 400.0, 400.0, sc.width - 800.0, sc.height - 800.0, rx, ry)
  }

  /** Defenders alternate between an inner ring of radius 350 and an outer one of 500. */
  lemma DefenceRingRadii(idx: nat)
    ensures 350.0 + (idx % 2) as real * 150.0 == (if idx % 2 == 0 then 350.0 else 500.0)
  {
  }

  /** A fresh scouting point stays inside its box when the draws are in [0, 1). */
  lemma ScoutPointInBox(t: Tank, reach: real, x0: real, y0: real, w: real, h: real, rx: real, ry: real)
    requires GameLogic.IsDraw(rx) && GameLogic.IsDraw(ry) && w > 0.0 && h > 0.0
    requires NeedsNewTarget(t, reach)
    ensures var p := Scout(t, reach, x0, y0, w, h, rx, ry).reconTarget.value;
      x0 <= p.x < x0 + w && y0 <= p.y < y0 + h
  {
    GameLogic.SpreadRange(rx, w, x0);
    GameLogic.SpreadRange(ry, h, y0);
  }

  // ------------------------------------------------ stuck/reverse/detour

  /** The per-tank navigation counters of `runAI`. */
  datatype NavState = NavState(stuck: int, reverse: int, detour: real, side: int)

  /**
   * What the tank does this tick: back up (`Reversing`), stop and arm a
   * reverse (`ArmReverse`), take the first open escape heading (`Escape`),
   * or follow the steering fan (`Advance`).
   */
  datatype Motion = Reversing | ArmReverse | Escape | Advance

  datatype NavStep = NavStep(next: NavState, motion: Motion)

  /** The counters stay in range: never negative, and a detour lasts less than 120 ticks. */
  predicate NavInRange(s: NavState) {
    s.stuck >= 0 && s.reverse >= 0 && -1.0 < s.detour < 120.0
  }

  /**
   * The counter updates of `runAI`. `movedSq` is the squared distance
   * moved since the last tick (1 when there is no last position),
   * `frontBlocked` and `leftHit` what the near probes found,
   * `totalWeight` the steering fan's total weight, and `sideDraw`,
   * `detourDraw` the two random draws.
   */
  function Navigate(s: NavState, movedSq: real, frontBlocked: bool, leftHit: bool, totalWeight: real,
                    sideDraw: real, detourDraw: real): (r: NavStep)
    ensures NavInRange(s) && GameLogic.IsDraw(detourDraw) ==> NavInRange(r.next)
    ensures r.motion == Reversing <==> s.reverse > 0
    ensures s.reverse > 0 ==> r.next == s.(stuck := r.next.stuck, reverse := s.reverse - 1)
    ensures movedSq >= 0.09 ==> r.next.stuck == 0
    ensures NavInRange(s) ==> r.next.stuck <= s.stuck + 1
    ensures r.motion == ArmReverse ==> totalWeight < 1.0 && r.next.reverse == 45 && r.next.stuck == 0
    ensures r.motion == Advance <==> s.reverse <= 0 && totalWeight >= 1.0
    ensures r.motion != Reversing && s.detour > 0.0 ==> r.next.detour == s.detour - 1.0 && r.next.side == s.side
  {
    var stuck1 := if movedSq < 0.09 then s.stuck + 1 else 0;
    if s.reverse > 0 then
      NavStep(NavState(stuck1, s.reverse - 1, s.detour, s.side), Reversing)
    else
      var restart := stuck1 > 50 && s.detour <= 0.0;
      var stuck2 := if restart then 0 else stuck1;
      var detour2 := if restart then 30.0 else s.detour;
      var side2 := if restart then (if sideDraw > 0.5 then 1 else -1) else s.side;
      var dodge := frontBlocked && detour2 <= 0.0;
      var detour3 := if dodge then 60.0 + detourDraw * 60.0 else detour2;
      var side3 := if dodge then (if leftHit then 1 else -1) else side2;
      var detour4 := if detour3 > 0.0 then detour3 - 1.0 else detour3;
      if totalWeight < 1.0 then
        if stuck2 > 20 then NavStep(NavState(0, 45, detour4, side3), ArmReverse)
        else NavStep(NavState(stuck2, s.reverse, detour4, side3), Escape)
      else
        NavStep(NavState(stuck2, s.reverse, detour4, side3), Advance)
  }

  // --------------------------------------------------------------- firing

  predicate IsBreakable(k: WallType) { k == Glass || k == Mud || k == Stone || k == Iron }

  predicate FoeInRange(t: Tank, foes: seq<Tank>) {
    exists j :: 0 <= j < |foes| && GameLogic.DistSq(t.pos, foes[j].pos) < 1100.0 * 1100.0
  }

  predicate BreakableAhead(walls: seq<Wall>, lookAhead: Vec) {
    exists j :: 0 <= j < |walls| && IsBreakable(walls[j].kind)
      && GameLogic.DistSq(lookAhead, walls[j].pos) < 100.0 * 100.0
  }

  /**
   * With no foe in range, a tank that seems stuck (`stuck > 10` or moved
   * less than 0.5) shoots a breakable wall near the point 150 ahead.
   */
  predicate ClearingPath(t: Tank, foes: seq<Tank>, walls: seq<Wall>, stuck: int, movedSq: real, lookAhead: Vec) {
    !FoeInRange(t, foes) && (stuck > 10 || movedSq < 0.25) && BreakableAhead(walls, lookAhead)
  }

  /** `SHOOT_COOLDOWN * cooldownMult`. */
  function Cooldown(isPlayer: bool, clearing: bool): (c: real)
    ensures isPlayer ==> c == 600.0
    ensures !isPlayer ==> c == (if clearing then 1000.0 else 1750.0)
  {
    ShootCooldown * (if isPlayer then 1.2 else if clearing then 2.0 else 3.5)
  }

  /**
   * The bullet `runAI` fires, if any; `turret` is the turret rotation after
   * turning toward the target.
   */
  function Shot(t: Tank, foes: seq<Tank>, walls: seq<Wall>, stuck: int, movedSq: real, lookAhead: Vec,
                turret: real, now: real): (b: Option<Bullet>)
    ensures b.Some? ==> b.value == Bullet(t.id, t.team, t.pos, BulletSize, turret, BulletSpeed, BulletDamage)
    ensures FoeInRange(t, foes) ==>
      (b.Some? <==> now - t.lastShot > (if t.id == PlayerId then 600.0 else 1750.0))
    ensures ClearingPath(t, foes, walls, stuck, movedSq, lookAhead) ==>
      (b.Some? <==> now - t.lastShot > (if t.id == PlayerId then 600.0 else 1000.0))
    ensures !FoeInRange(t, foes) && !ClearingPath(t, foes, walls, stuck, movedSq, lookAhead) ==> b.None?
  {
    var clearing := ClearingPath(t, foes, walls, stuck, movedSq, lookAhead);
    if (FoeInRange(t, foes) || clearing) && now - t.lastShot > Cooldown(t.id == PlayerId, clearing) then
      Some(Bullet(t.id, t.team, t.pos, BulletSize, turret, BulletSpeed, BulletDamage))
    else None
  }
}
