/**
 * Entities and constants of the tank game (types.ts and constants.ts).
 *
 * Every number the game stores (positions, speeds, health, timestamps) is a
 * JavaScript double; the model uses exact reals. Optional fields of the
 * source records are either given a value whose JavaScript truthiness is the
 * same as the missing field (0 for a timestamp that is only tested with `&&`
 * or `||`) or modelled as an Option.
 */
module Types {

  datatype Option<T> = None | Some(value: T)

  /** The three-valued team tag; PLAYER and ALLY form one side. */
  datatype Team = Ally | Enemy | Player

  datatype WallType = Mud | Glass | Stone | Water | Rebound | Iron | Bulletproof

  datatype Command = Attack | Defend | Capture | Surround | Recon | FreePlanning | Free

  datatype ItemType = Speed | Defense | Heal | Damage

  datatype AIState =
    | AttackCore | DefendCore | EngageTank | Retreat | Strafe
    | Ambush | Pathfinding | SeekHealth | ReconState | SurroundMove

  /** Tank identifiers are built as 'player', `ally-${i}` and `enemy-${i}`. */
  datatype TankId = PlayerId | AllyId(n: nat) | EnemyId(n: nat)

  datatype Vec = Vec(x: real, y: real)

  /** One entry of a tank's damage ledger `recentDamagers`. */
  datatype Damager = Damager(id: TankId, time: real)

  /**
   * The buff timers of a tank. A timer of 0 is "never set" (the source tests
   * each with `timer && timer > now`). `nextHealBuffRegenInterval` of 0 is
   * "unset" (the source reads it with `|| 1000`); `defenseValue` is absent
   * until a defense pickup rolls it.
   */
  datatype Buffs = Buffs(
    speedTimer: real,
    defenseTimer: real,
    defenseValue: Option<real>,
    damageTimer: real,
    healTimer: real,
    lastHealBuffRegenTime: real,
    nextHealBuffRegenInterval: real)

  datatype Tank = Tank(
    id: TankId,
    team: Team,
    pos: Vec,
    size: real,
    rotation: real,
    turretRotation: real,
    health: real,
    maxHealth: real,
    speed: real,
    currentSpeed: real,
    lastShot: real,
    isLeader: bool,
    score: int,
    kills: int,
    assists: int,
    respawnTimer: real,
    spawnPos: Vec,
    aiState: AIState,
    stuckTimer: int,
    reverseTimer: int,
    detourTimer: real,
    detourSide: int,
    lastPos: Option<Vec>,
    reconTarget: Option<Vec>,
    lastRegenTime: real,
    recentDamagers: seq<Damager>,
    buffs: Buffs)

  datatype Bullet = Bullet(
    ownerId: TankId,
    team: Team,
    pos: Vec,
    size: real,
    rotation: real,
    speed: real,
    damage: real)

  datatype Wall = Wall(pos: Vec, size: real, kind: WallType, health: real)

  datatype Item = Item(pos: Vec, size: real, kind: ItemType, spawnTime: real)

  /** A base; `capturingTeam` is null until someone starts a capture. */
  datatype Bed = Bed(team: Team, pos: Vec, size: real, captureProgress: real, capturingTeam: Option<Team>)

  // constants.ts
  const WorldWidth: real := 4000.0
  const WorldHeight: real := 4000.0
  const TankSize: real := 44.0
  const BulletSize: real := 10.0
  const WallSize: real := 60.0
  const BedSize: real := 150.0
  const CaptureRadius: real := 250.0
  const ItemSize: real := 35.0
  const MaxItems: int := 20
  const SpeedBuffDuration: real := 15000.0
  const DamageBuffDuration: real := 15000.0
  const DefenseBuffDuration: real := 25000.0
  const HealBuffDuration: real := 5000.0
  const AutoRegenInterval: real := 1000.0
  const AutoRegenAmount: real := 2.0
  /** ITEM_BUFF_VALUES */
  const SpeedMult: real := 1.8
  const DefenseReduction: real := 0.3
  const DamageBoost: real := 1.7
  const HealRegenSec: real := 15.0
  const PlayerSpeed: real := 400.0
  const AiSpeed: real := 250.0
  const BulletSpeed: real := 1000.0
  const WaterSlowFactor: real := 0.5
  const BulletWaterSlowFactor: real := 0.6
  const MaxHealthTank: real := 100.0
  const ShootCooldown: real := 500.0
  const CaptureTimeRequired: real := 5000.0
  const RespawnDelay: real := 4000.0
  const BulletDamage: real := 10.0
  const HealthPackHeal: real := 0.0

  /** The double `Math.PI`. */
  const Pi: real := 3.141592653589793
}
