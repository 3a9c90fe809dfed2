/**
 * The per-frame upkeep of the current game loop
 * (components/GameCanvas.tsx): health regeneration, item pickup, base
 * capture and respawning. Each rule is stated for one tank, item or base;
 * the world's frame applies them in the source's order.
 */
module Objectives {
  import opened Types
  import GameLogic
  import Tactics
  import Movement

  // --------------------------------------------------------------- regen

  /** The base regeneration is due: never applied, or more than 1000 ms ago. */
  predicate RegenDue(t: Tank, now: real) {
    t.lastRegenTime == 0.0 || now - t.lastRegenTime > AutoRegenInterval
  }

  /** The interval of the heal buff's extra regeneration, 1000 ms when unset. */
  function HealInterval(b: Buffs): real {
    if b.nextHealBuffRegenInterval == 0.0 then 1000.0 else b.nextHealBuffRegenInterval
  }

  /** The heal buff runs and its next extra regeneration is due. */
  predicate HealTick(t: Tank, now: real) {
    Movement.TimerActive(t.buffs.healTimer, now) && now - t.buffs.lastHealBuffRegenTime > HealInterval(t.buffs)
  }

  /** A fresh heal-buff interval `500 + draw * 1500`. */
  function NextHealInterval(draw: real): (r: real)
    ensures GameLogic.IsDraw(draw) ==> 500.0 <= r < 2000.0
  {
    500.0 + draw * 1500.0
  }

  function MinReal(a: real, b: real): real { if a <= b then a else b }

  /**
   * Regeneration of one tank this frame: a wounded living tank gains 2
   * when its base regeneration is due and 2 more on a heal-buff tick,
   * never beyond its maximum. `draw` rolls the next heal interval.
   */
  function Regen(t: Tank, now: real, draw: real): (r: Tank)
    ensures r == t.(health := r.health, lastRegenTime := r.lastRegenTime,
                    buffs := t.buffs.(lastHealBuffRegenTime := r.buffs.lastHealBuffRegenTime,
                                      nextHealBuffRegenInterval := r.buffs.nextHealBuffRegenInterval))
    ensures !(0.0 < t.health < t.maxHealth) ==> r == t
    ensures 0.0 < t.health < t.maxHealth ==> t.health <= r.health <= t.maxHealth
    ensures 0.0 < t.health < t.maxHealth ==>
      r.health == MinReal(t.maxHealth, t.health + (if RegenDue(t, now) then 2.0 else 0.0)
                                                + (if HealTick(t, now) then 2.0 else 0.0))
    ensures r.lastRegenTime == (if 0.0 < t.health < t.maxHealth && RegenDue(t, now) then now else t.lastRegenTime)
    ensures 0.0 < t.health < t.maxHealth && HealTick(t, now) ==>
      r.buffs.lastHealBuffRegenTime == now && r.buffs.nextHealBuffRegenInterval == NextHealInterval(draw)
    ensures !(0.0 < t.health < t.maxHealth && HealTick(t, now)) ==> r.buffs == t.buffs
  {
    if 0.0 < t.health < t.maxHealth then
      var amount := if RegenDue(t, now) then AutoRegenAmount else 0.0;
      var tick := HealTick(t, now);
      var buffs := if tick then t.buffs.(lastHealBuffRegenTime := now, nextHealBuffRegenInterval := NextHealInterval(draw))
                   else t.buffs;
      var extra := if tick then 2.0 else 0.0;
      var healed := if amount > 0.0 || extra > 0.0 then MinReal(t.maxHealth, t.health + amount + extra) else t.health;
      t.(health := healed, lastRegenTime := if amount > 0.0 then now else t.lastRegenTime, buffs := buffs)
    else t
  }

  /** Regeneration never hurts, never overheals a tank at or under its maximum, and leaves the dead dead. */
  lemma RegenBounded(t: Tank, now: real, draw: real)
    requires t.health <= t.maxHealth
    ensures t.health <= Regen(t, now, draw).health <= t.maxHealth
    ensures t.health <= 0.0 ==> Regen(t, now, draw).health == t.health
  {
  }

  // -------------------------------------------------------------- pickup

  /** `10 + floor(draw * 81)`: a heal pack restores between 10 and 90. */
  function HealAmount(draw: real): (r: int)
    ensures GameLogic.IsDraw(draw) ==> 10 <= r <= 90
  {
    10 + (draw * 81.0).Floor
  }

  /** A rolled defense value `0.1 + draw * 0.8`. */
  function DefenseRoll(draw: real): (r: real)
    ensures GameLogic.IsDraw(draw) ==> 0.1 <= r < 0.9
  {
    0.1 + draw * 0.8
  }

  /**
   * The tank that collects item `it`: the pack's effect, with `buffDuration`
   * for the SPEED, DEFENSE and DAMAGE timers and `d1`, `d2` the draws.
   */
  function Collect(t: Tank, kind: ItemType, now: real, buffDuration: real, d1: real, d2: real): (r: Tank)
    ensures r == t.(health := r.health, buffs := r.buffs)
    ensures kind != Heal ==> r.health == t.health
    ensures kind == Heal ==> r.health == MinReal(t.maxHealth, t.health + HealAmount(d1) as real)
    ensures kind == Heal ==> r.buffs == t.buffs.(healTimer := now + HealBuffDuration,
                                                lastHealBuffRegenTime := now,
                                                nextHealBuffRegenInterval := NextHealInterval(d2))
    ensures kind == Speed ==> r.buffs == t.buffs.(speedTimer := now + buffDuration)
    ensures kind == Damage ==> r.buffs == t.buffs.(damageTimer := now + buffDuration)
    ensures kind == Defense ==>
      r.buffs == t.buffs.(defenseTimer := now + buffDuration, defenseValue := Some(DefenseRoll(d1)))
  {
    match kind
    case Heal =>
      t.(health := MinReal(t.maxHealth, t.health + HealAmount(d1) as real),
         buffs := t.buffs.(healTimer := now + HealBuffDuration, lastHealBuffRegenTime := now,
                           nextHealBuffRegenInterval := NextHealInterval(d2)))
    case Speed => t.(buffs := t.buffs.(speedTimer := now + buffDuration))
    case Defense => t.(buffs := t.buffs.(defenseTimer := now + buffDuration, defenseValue := Some(DefenseRoll(d1))))
    case Damage => t.(buffs := t.buffs.(damageTimer := now + buffDuration))
  }

  /** A heal pack picked up by a living tank at or under its maximum heals by 10 to 90, capped at the maximum. */
  lemma HealPackBounds(t: Tank, now: real, buffDuration: real, d1: real, d2: real)
    requires GameLogic.IsDraw(d1) && 0.0 < t.health <= t.maxHealth
    ensures var h := Collect(t, Heal, now, buffDuration, d1, d2).health;
      t.health <= h <= t.maxHealth && h <= t.health + 90.0 && (h == t.maxHealth || h >= t.health + 10.0)
  {
  }

  /** A tank that can pick up `it`: alive and touching it (items are scaled like walls). */
  predicate Touches(t: Tank, it: Item) {
    t.health > 0.0 && GameLogic.Collides(GameLogic.TankBody(t), GameLogic.ItemBody(it))
  }

  /** `allTanks.find(t => t.health > 0 && checkCollision(t, item))`, as an index. */
  function Collector(tanks: seq<Tank>, it: Item): (r: Option<nat>)
    ensures r.None? <==> forall k :: 0 <= k < |tanks| ==> !Touches(tanks[k], it)
    ensures r.Some? ==> r.value < |tanks| && Touches(tanks[r.value], it)
    ensures r.Some? ==> forall k :: 0 <= k < r.value ==> !Touches(tanks[k], it)
  {
    if |tanks| == 0 then None
    else if Touches(tanks[0], it) then Some(0)
    else
      var rest := Collector(tanks[1..], it);
      assert forall k :: 1 <= k < |tanks| ==> tanks[k] == tanks[1..][k - 1];
      if rest.Some? then Some(rest.value + 1) else None
  }

  /** The tanks and the items still on the ground. */
  datatype Loot = Loot(tanks: seq<Tank>, items: seq<Item>)

  /** The filter callback for one item: the collector takes it, or it stays on the ground. */
  function PickupOne(l: Loot, it: Item, draw: (real, real), now: real, buffDuration: real): (r: Loot)
    ensures |r.tanks| == |l.tanks|
    ensures Collector(l.tanks, it).None? <==> r.items == l.items + [it]
    ensures Collector(l.tanks, it).Some? ==> r.items == l.items
    ensures forall k :: 0 <= k < |l.tanks| ==> r.tanks[k] == l.tanks[k].(health := r.tanks[k].health, buffs := r.tanks[k].buffs)
  {
    var c := Collector(l.tanks, it);
    if c.Some? then Loot(l.tanks[c.value := Collect(l.tanks[c.value], it.kind, now, buffDuration, draw.0, draw.1)], l.items)
    else Loot(l.tanks, l.items + [it])
  }

  /**
   * The `items.filter(...)` pickup pass over the first `n` items: each is
   * collected by the first living tank touching it, else kept.
   */
  function Pickup(tanks: seq<Tank>, items: seq<Item>, draws: seq<(real, real)>, n: nat, now: real,
                  buffDuration: real): (r: Loot)
    requires n <= |items| && |draws| == |items|
    ensures |r.tanks| == |tanks| && |r.items| <= n
    ensures forall k :: 0 <= k < |tanks| ==> r.tanks[k] == tanks[k].(health := r.tanks[k].health, buffs := r.tanks[k].buffs)
  {
    if n == 0 then Loot(tanks, [])
    else PickupOne(Pickup(tanks, items, draws, n - 1, now, buffDuration), items[n - 1], draws[n - 1], now, buffDuration)
  }

  /** The pass over one more item is the pass so far followed by that item. */
  lemma PickupNext(tanks: seq<Tank>, items: seq<Item>, draws: seq<(real, real)>, n: nat, now: real,
                   buffDuration: real)
    requires n < |items| && |draws| == |items|
    ensures Pickup(tanks, items, draws, n + 1, now, buffDuration)
      == PickupOne(Pickup(tanks, items, draws, n, now, buffDuration), items[n], draws[n], now, buffDuration)
  {
  }

  /** The pickup pass only removes items: whatever is still on the ground was there before. */
  lemma {:induction false} PickupOnlyRemoves(tanks: seq<Tank>, items: seq<Item>, draws: seq<(real, real)>, n: nat,
                                             now: real, buffDuration: real)
    requires n <= |items| && |draws| == |items|
    ensures forall it :: it in Pickup(tanks, items, draws, n, now, buffDuration).items ==> it in items[..n]
  {
    if n > 0 {
      PickupOnlyRemoves(tanks, items, draws, n - 1, now, buffDuration);
      assert items[..n] == items[..n - 1] + [items[n - 1]];
    }
  }

  // ------------------------------------------------------------- capture

  /** Tank `t` is alive and within the capture radius of the base. */
  predicate Near(t: Tank, bed: Bed) {
    t.health > 0.0 && GameLogic.DistSq(t.pos, bed.pos) < CaptureRadius * CaptureRadius
  }

  predicate Defender(t: Tank, bed: Bed) { Near(t, bed) && Tactics.IsSameSide(t.team, bed.team) }

  predicate Attacker(t: Tank, bed: Bed) { Near(t, bed) && !Tactics.IsSameSide(t.team, bed.team) }

  /** The first attacker in roster order, as an index. */
  function FirstAttacker(tanks: seq<Tank>, bed: Bed): (r: Option<nat>)
    ensures r.None? <==> forall k :: 0 <= k < |tanks| ==> !Attacker(tanks[k], bed)
    ensures r.Some? ==> r.value < |tanks| && Attacker(tanks[r.value], bed)
    ensures r.Some? ==> forall k :: 0 <= k < r.value ==> !Attacker(tanks[k], bed)
  {
    if |tanks| == 0 then None
    else if Attacker(tanks[0], bed) then Some(0)
    else
      var rest := FirstAttacker(tanks[1..], bed);
      assert forall k :: 1 <= k < |tanks| ==> tanks[k] == tanks[1..][k - 1];
      if rest.Some? then Some(rest.value + 1) else None
  }

  function MaxReal(a: real, b: real): real { if a >= b then a else b }

  /** A base after a frame, and whether its capture completed. */
  datatype BaseFrame = BaseFrame(bed: Bed, won: bool)

  /**
   * One base this frame: defenders drain the progress by 2500/s; else
   * attackers raise it by 1000/s and become the capturing side, winning at
   * 5000; an empty base drains by 3500/s. Progress never drops below 0.
   */
  function CaptureStep(bed: Bed, tanks: seq<Tank>, dt: real): (c: BaseFrame)
    ensures c.bed == bed.(captureProgress := c.bed.captureProgress, capturingTeam := c.bed.capturingTeam)
    ensures (exists k :: 0 <= k < |tanks| && Defender(tanks[k], bed)) ==>
      c.bed.captureProgress == MaxReal(0.0, bed.captureProgress - dt * 2500.0)
      && c.bed.capturingTeam == bed.capturingTeam && !c.won
    ensures (forall k :: 0 <= k < |tanks| ==> !Defender(tanks[k], bed)) && FirstAttacker(tanks, bed).Some? ==>
      c.bed.captureProgress == bed.captureProgress + dt * 1000.0
      && c.bed.capturingTeam == Some(Tactics.SideOf(tanks[FirstAttacker(tanks, bed).value].team))
      && (c.won <==> c.bed.captureProgress >= CaptureTimeRequired)
    ensures (forall k :: 0 <= k < |tanks| ==> !Defender(tanks[k], bed) && !Attacker(tanks[k], bed)) ==>
      c.bed.captureProgress == MaxReal(0.0, bed.captureProgress - dt * 3500.0)
      && c.bed.capturingTeam == bed.capturingTeam && !c.won
  {
    if exists k :: 0 <= k < |tanks| && Defender(tanks[k], bed) then
      BaseFrame(bed.(captureProgress := MaxReal(0.0, bed.captureProgress - dt * 2500.0)), false)
    else
      var a := FirstAttacker(tanks, bed);
      if a.Some? then
        var p := bed.captureProgress + dt * 1000.0;
        BaseFrame(bed.(captureProgress := p, capturingTeam := Some(Tactics.SideOf(tanks[a.value].team))),
                p >= CaptureTimeRequired)
      else BaseFrame(bed.(captureProgress := MaxReal(0.0, bed.captureProgress - dt * 3500.0)), false)
  }

  /**
   * A base is only ever won by the other side, the winner is the side of
   * an attacker standing at it, and with a frame time that is not
   * negative the progress stays non-negative.
   */
  lemma CaptureWinnerIsOpponent(bed: Bed, tanks: seq<Tank>, dt: real)
    ensures var c := CaptureStep(bed, tanks, dt);
      c.won ==> (c.bed.capturingTeam.Some? && !Tactics.IsSameSide(c.bed.capturingTeam.value, bed.team)
                 && exists k :: 0 <= k < |tanks| && Attacker(tanks[k], bed))
    ensures bed.captureProgress >= 0.0 && dt >= 0.0 ==> CaptureStep(bed, tanks, dt).bed.captureProgress >= 0.0
  {
    var c := CaptureStep(bed, tanks, dt);
    if c.won {
      var a := FirstAttacker(tanks, bed);
      assert a.Some?;
      assert Attacker(tanks[a.value], bed);
    }
  }

  /** Capturing takes time: one frame of at most a second cannot win a base whose progress was below 4000. */
  lemma CaptureNeedsTime(bed: Bed, tanks: seq<Tank>, dt: real)
    requires bed.captureProgress < 4000.0 && dt <= 1.0
    ensures !CaptureStep(bed, tanks, dt).won
  {
  }

  // ------------------------------------------------------------- respawn

  /** The spawn point of `t` moved by `offset`. */
  function Around(t: Tank, offset: Vec): Vec {
    Vec(t.spawnPos.x + offset.x, t.spawnPos.y + offset.y)
  }

  /** The first offset of `ring` that puts tank `i` where nothing blocks it. */
  function FirstOpen(tanks: seq<Tank>, walls: seq<Wall>, i: nat, ring: seq<Vec>, width: real, height: real): (r: Option<nat>)
    requires i < |tanks|
    ensures r.None? <==> forall k :: 0 <= k < |ring| ==> Movement.Blocked(tanks, walls, i, Around(tanks[i], ring[k]), width, height)
    ensures r.Some? ==> r.value < |ring| && !Movement.Blocked(tanks, walls, i, Around(tanks[i], ring[r.value]), width, height)
    ensures r.Some? ==> forall k :: 0 <= k < r.value ==> Movement.Blocked(tanks, walls, i, Around(tanks[i], ring[k]), width, height)
  {
    if |ring| == 0 then None
    else if !Movement.Blocked(tanks, walls, i, Around(tanks[i], ring[0]), width, height) then Some(0)
    else
      var rest := FirstOpen(tanks, walls, i, ring[1..], width, height);
      assert forall k :: 1 <= k < |ring| ==> ring[k] == ring[1..][k - 1];
      if rest.Some? then Some(rest.value + 1) else None
  }

  /**
   * `handleRespawn` for tank `i`: a dead tank starts its 4000 ms timer,
   * then counts it down; when it runs out the tank comes back with full
   * health at the first open point of the search around its spawn point
   * (`ring` holds the offsets `(cos a, sin a) * radius` in search order),
   * or on the spawn point itself when every one is blocked.
   */
  function Respawn(tanks: seq<Tank>, walls: seq<Wall>, i: nat, ring: seq<Vec>, dt: real, width: real, height: real): (r: Tank)
    requires i < |tanks|
    ensures r == tanks[i].(health := r.health, pos := r.pos, respawnTimer := r.respawnTimer)
    ensures tanks[i].health > 0.0 ==> r == tanks[i]
    ensures tanks[i].health <= 0.0 && tanks[i].respawnTimer == 0.0 ==> r == tanks[i].(respawnTimer := RespawnDelay)
    ensures r.health > 0.0 && tanks[i].health <= 0.0 ==>
      r.health == MaxHealthTank && r.respawnTimer == 0.0 && tanks[i].respawnTimer != 0.0
      && tanks[i].respawnTimer - dt * 1000.0 <= 0.0
    ensures r.health > 0.0 && tanks[i].health <= 0.0 ==>
      var open := FirstOpen(tanks, walls, i, ring, width, height);
      r.pos == (if open.Some? then Around(tanks[i], ring[open.value]) else tanks[i].spawnPos)
    ensures r.health <= 0.0 && tanks[i].respawnTimer != 0.0 ==>
      r.respawnTimer == tanks[i].respawnTimer - dt * 1000.0 && r.pos == tanks[i].pos
  {
    var t := tanks[i];
    if t.health > 0.0 then t
    else if t.respawnTimer == 0.0 then t.(respawnTimer := RespawnDelay)
    else
      var timer := t.respawnTimer - dt * 1000.0;
      if timer <= 0.0 then
        var open := FirstOpen(tanks, walls, i, ring, width, height);
        t.(health := MaxHealthTank, respawnTimer := 0.0,
           pos := if open.Some? then Around(t, ring[open.value]) else t.spawnPos)
      else t.(respawnTimer := timer)
  }

  /** A respawned tank is never placed where a wall, a living tank or the edge blocks it, unless no point was open. */
  lemma RespawnLandsOpen(tanks: seq<Tank>, walls: seq<Wall>, i: nat, ring: seq<Vec>, dt: real, width: real, height: real)
    requires i < |tanks| && tanks[i].health <= 0.0
    requires Respawn(tanks, walls, i, ring, dt, width, height).health > 0.0
    ensures var r := Respawn(tanks, walls, i, ring, dt, width, height);
      !Movement.Blocked(tanks, walls, i, r.pos, width, height)
      || (r.pos == tanks[i].spawnPos && forall k :: 0 <= k < |ring| ==> Movement.Blocked(tanks, walls, i, Around(tanks[i], ring[k]), width, height))
  {
  }

  /** A dead tank needs at least two frames to come back: the first one only starts its timer. */
  lemma RespawnStartsTimerFirst(tanks: seq<Tank>, walls: seq<Wall>, i: nat, ring: seq<Vec>, dt: real, width: real, height: real)
    requires i < |tanks| && tanks[i].health <= 0.0 && tanks[i].respawnTimer == 0.0
    ensures Respawn(tanks, walls, i, ring, dt, width, height).health <= 0.0
    ensures Respawn(tanks, walls, i, ring, dt, width, height).respawnTimer == 4000.0
  {
  }
}
