/**
 * The bullet pass of the current game loop (components/GameCanvas.tsx):
 * a bullet flies one frame, leaves the world, bounces off a REBOUND wall,
 * chips any other solid wall, or hits the first living opposing tank; the
 * hit applies the damage buffs, updates the target's damage ledger and,
 * on a kill, credits the killer and every ally in the ledger with an
 * assist.
 *
 * `dirOf(angle)` stands for the pair `(Math.cos(angle), Math.sin(angle))`.
 */
module Combat {
  import opened Types
  import GameLogic
  import Tactics
  import Movement

  // ---------------------------------------------------------------- damage

  /** A damage buff of the bullet's owner is running. */
  predicate Boosting(owner: Option<Tank>, now: real) {
    owner.Some? && Movement.TimerActive(owner.value.buffs.damageTimer, now)
  }

  /** A defense buff of the target is running. */
  predicate Shielding(target: Tank, now: real) {
    Movement.TimerActive(target.buffs.defenseTimer, now)
  }

  /** The share of damage a running defense buff absorbs: the rolled value, else 0.3. */
  function Reduction(target: Tank): real {
    if target.buffs.defenseValue.Some? then target.buffs.defenseValue.value else DefenseReduction
  }

  /** A defense value that absorbs between none and all of a hit, as every rolled value does. */
  predicate ReductionInRange(target: Tank) {
    0.0 <= Reduction(target) <= 1.0
  }

  /** `x * (1 - reduction)`. */
  function Shielded(x: real, reduction: real): real { x * (1.0 - reduction) }

  lemma ShieldedBounds(x: real, reduction: real)
    ensures x >= 0.0 && 0.0 <= reduction <= 1.0 ==> 0.0 <= Shielded(x, reduction) <= x
  {
    if x >= 0.0 && 0.0 <= reduction <= 1.0 {
      GameLogic.ProductNonNegative(x, 1.0 - reduction);
      GameLogic.ProductNonNegative(x, reduction);
    }
  }

  /**
   * `finalDamage` of a hit: the bullet's damage, times 1.7 while the
   * owner's damage buff runs, times `1 - reduction` while the target's
   * defense buff runs.
   */
  function HitDamage(b: Bullet, owner: Option<Tank>, target: Tank, now: real): (d: real)
    ensures !Boosting(owner, now) && !Shielding(target, now) ==> d == b.damage
    ensures b.damage >= 0.0 && ReductionInRange(target) ==> 0.0 <= d <= b.damage * 1.7
    ensures b.damage >= 0.0 && ReductionInRange(target) && !Boosting(owner, now) ==> d <= b.damage
    ensures b.damage >= 0.0 && ReductionInRange(target) && Boosting(owner, now) && !Shielding(target, now) ==>
      d == b.damage * 1.7
  {
    var boosted := if Boosting(owner, now) then b.damage * 1.7 else b.damage;
    ShieldedBounds(boosted, Reduction(target));
    if Shielding(target, now) then Shielded(boosted, Reduction(target)) else boosted
  }

  /**
   * A standard shot (damage 10) at a target whose defense buff rolled a
   * value in [0.1, 0.9) deals more than 1 and at most 9 while the shooter
   * has no damage buff.
   */
  lemma ShieldedStandardShot(b: Bullet, owner: Option<Tank>, target: Tank, now: real)
    requires b.damage == BulletDamage && !Boosting(owner, now) && Shielding(target, now)
    requires target.buffs.defenseValue.Some? && 0.1 <= target.buffs.defenseValue.value < 0.9
    ensures 1.0 < HitDamage(b, owner, target, now) <= 9.0
  {
  }

  // ----------------------------------------------------------- the ledger

  /** How long a damager stays in a tank's ledger. */
  const LedgerWindow: real := 10000.0

  /** No two ledger entries name the same tank. */
  predicate UniqueDamagers(ledger: seq<Damager>) {
    forall a, c :: 0 <= a < c < |ledger| ==> ledger[a].id != ledger[c].id
  }

  /** `recentDamagers.findIndex(d => d.id === id)`. */
  function FindDamager(ledger: seq<Damager>, id: TankId): (r: Option<nat>)
    ensures r.None? <==> forall k :: 0 <= k < |ledger| ==> ledger[k].id != id
    ensures r.Some? ==> r.value < |ledger| && ledger[r.value].id == id
    ensures r.Some? ==> forall k :: 0 <= k < r.value ==> ledger[k].id != id
  {
    if |ledger| == 0 then None
    else if ledger[0].id == id then Some(0)
    else
      var rest := FindDamager(ledger[1..], id);
      assert forall k :: 1 <= k < |ledger| ==> ledger[k] == ledger[1..][k - 1];
      if rest.Some? then Some(rest.value + 1) else None
  }

  /** Refresh the entry of `id` to `now`, or append one. */
  function Upsert(ledger: seq<Damager>, id: TankId, now: real): seq<Damager> {
    var k := FindDamager(ledger, id);
    if k.Some? then ledger[k.value := Damager(id, now)] else ledger + [Damager(id, now)]
  }

  /** `filter(d => now - d.time < 10000)`. */
  function KeepRecent(ledger: seq<Damager>, now: real): (r: seq<Damager>)
    ensures forall d :: d in r <==> d in ledger && now - d.time < LedgerWindow
    ensures |r| <= |ledger|
  {
    if |ledger| == 0 then []
    else
      assert forall d :: d in ledger <==> d == ledger[0] || d in ledger[1..];
      (if now - ledger[0].time < LedgerWindow then [ledger[0]] else []) + KeepRecent(ledger[1..], now)
  }

  /** The filter keeps the ledger's order: it acts entry by entry. */
  lemma {:induction false} KeepRecentInOrder(a: seq<Damager>, b: seq<Damager>, d: Damager, now: real)
    ensures KeepRecent([d], now) == (if now - d.time < LedgerWindow then [d] else [])
    ensures KeepRecent(a + b, now) == KeepRecent(a, now) + KeepRecent(b, now)
  {
    assert [d][1..] == [];
    if |a| == 0 {
      assert a + b == b;
    } else {
      assert (a + b)[1..] == a[1..] + b;
      KeepRecentInOrder(a[1..], b, d, now);
    }
  }

  /** Filtering keeps a ledger free of repeated ids. */
  lemma {:induction false} KeepRecentUnique(ledger: seq<Damager>, now: real)
    requires UniqueDamagers(ledger)
    ensures UniqueDamagers(KeepRecent(ledger, now))
  {
    if |ledger| > 0 {
      UniqueTail(ledger);
      KeepRecentUnique(ledger[1..], now);
      var rest := KeepRecent(ledger[1..], now);
      if now - ledger[0].time < LedgerWindow {
        assert KeepRecent(ledger, now) == [ledger[0]] + rest;
        UniqueCons(ledger[0], rest);
      } else {
        assert KeepRecent(ledger, now) == rest;
      }
    }
  }

  /** The tail of a ledger without repeats has none, and no tail entry names the head's tank. */
  lemma UniqueTail(ledger: seq<Damager>)
    requires UniqueDamagers(ledger) && |ledger| > 0
    ensures UniqueDamagers(ledger[1..])
    ensures forall d :: d in ledger[1..] ==> d.id != ledger[0].id
  {
    forall d | d in ledger[1..] ensures d.id != ledger[0].id {
      var m :| 0 <= m < |ledger[1..]| && ledger[1..][m] == d;
      assert ledger[m + 1] == d;
    }
  }

  /** An entry for a tank the ledger does not name can go in front without making a repeat. */
  lemma UniqueCons(x: Damager, rest: seq<Damager>)
    requires UniqueDamagers(rest) && forall d :: d in rest ==> d.id != x.id
    ensures UniqueDamagers([x] + rest)
  {
    var r := [x] + rest;
    forall a, c | 0 <= a < c < |r| ensures r[a].id != r[c].id {
      assert r[c] == rest[c - 1];
      if a == 0 { assert r[c] in rest; }
      else { assert r[a] == rest[a - 1]; }
    }
  }

  /** Refreshing or appending puts the shooter's entry in, keeps the others, and adds nothing else. */
  lemma UpsertFacts(ledger: seq<Damager>, id: TankId, now: real)
    ensures Damager(id, now) in Upsert(ledger, id, now)
    ensures forall d :: d in Upsert(ledger, id, now) ==> d == Damager(id, now) || d in ledger
    ensures forall d :: d in ledger && d.id != id ==> d in Upsert(ledger, id, now)
    ensures UniqueDamagers(ledger) ==> UniqueDamagers(Upsert(ledger, id, now))
    ensures UniqueDamagers(ledger) ==> forall d :: d in Upsert(ledger, id, now) && d.id == id ==> d.time == now
  {
    var up := Upsert(ledger, id, now);
    var k := FindDamager(ledger, id);
    if k.Some? { assert up[k.value] == Damager(id, now); } else { assert up[|ledger|] == Damager(id, now); }
    forall d | d in up ensures d == Damager(id, now) || d in ledger {
      var m :| 0 <= m < |up| && up[m] == d;
      if k.Some? && m != k.value { assert d == ledger[m]; }
      else if k.None? && m < |ledger| { assert d == ledger[m]; }
    }
    forall d | d in ledger && d.id != id ensures d in up {
      var m :| 0 <= m < |ledger| && ledger[m] == d;
      assert up[m] == d;
    }
    if UniqueDamagers(ledger) {
      forall a, c | 0 <= a < c < |up| ensures up[a].id != up[c].id {
        if k.None? && c == |ledger| { assert up[a] == ledger[a]; }
        else if k.None? { assert up[a] == ledger[a] && up[c] == ledger[c]; }
        else if a == k.value { assert up[c] == ledger[c]; }
        else if c == k.value { assert up[a] == ledger[a]; }
        else { assert up[a] == ledger[a] && up[c] == ledger[c]; }
      }
      forall d | d in up && d.id == id ensures d.time == now {
        var m :| 0 <= m < |up| && up[m] == d;
      }
    }
  }

  /**
   * The ledger after a hit by `id`: the shooter is in it with time `now`,
   * every entry is recent, and nothing but the shooter's entry is new.
   */
  function RecordHit(ledger: seq<Damager>, id: TankId, now: real): (r: seq<Damager>)
    ensures Damager(id, now) in r
    ensures forall d :: d in r ==> now - d.time < LedgerWindow
    ensures forall d :: d in r ==> d == Damager(id, now) || d in ledger
    ensures forall d :: d in ledger && d.id != id && now - d.time < LedgerWindow ==> d in r
    ensures UniqueDamagers(ledger) ==> UniqueDamagers(r)
    ensures UniqueDamagers(ledger) ==> forall d :: d in r && d.id == id ==> d.time == now
  {
    UpsertFacts(ledger, id, now);
    if UniqueDamagers(ledger) then
      KeepRecentUnique(Upsert(ledger, id, now), now);
      KeepRecent(Upsert(ledger, id, now), now)
    else KeepRecent(Upsert(ledger, id, now), now)
  }

  // ---------------------------------------------------------- kill credit

  /** No two tanks share an id. */
  predicate UniqueIds(tanks: seq<Tank>) {
    forall a, c :: 0 <= a < c < |tanks| ==> tanks[a].id != tanks[c].id
  }

  /** `allTanks.find(at => at.id === id)`, as an index. */
  function FindTank(tanks: seq<Tank>, id: TankId): (r: Option<nat>)
    ensures r.None? <==> forall k :: 0 <= k < |tanks| ==> tanks[k].id != id
    ensures r.Some? ==> r.value < |tanks| && tanks[r.value].id == id
    ensures r.Some? ==> forall k :: 0 <= k < r.value ==> tanks[k].id != id
  {
    if |tanks| == 0 then None
    else if tanks[0].id == id then Some(0)
    else
      var rest := FindTank(tanks[1..], id);
      assert forall k :: 1 <= k < |tanks| ==> tanks[k] == tanks[1..][k - 1];
      if rest.Some? then Some(rest.value + 1) else None
  }

  /** The same roster: same length, and each slot keeps its id and team. */
  predicate SameRoster(a: seq<Tank>, c: seq<Tank>) {
    |a| == |c| && forall k :: 0 <= k < |a| ==> a[k].id == c[k].id && a[k].team == c[k].team
  }

  /** Searching by id gives the same slot in two tank lists with the same roster. */
  lemma {:induction false} FindTankSameRoster(a: seq<Tank>, c: seq<Tank>, id: TankId)
    requires SameRoster(a, c)
    ensures FindTank(a, id) == FindTank(c, id)
  {
    if |a| > 0 && a[0].id != id {
      FindTankSameRoster(a[1..], c[1..], id);
    }
  }

  /** The assist one ledger entry `rd` gives: +1 assist and +50 to an ally of the shot who is not the killer. */
  function AssistOne(tanks: seq<Tank>, rd: Damager, owner: TankId, team: Team): (r: seq<Tank>)
    ensures SameRoster(tanks, r)
  {
    if rd.id == owner then tanks
    else
      var k := FindTank(tanks, rd.id);
      if k.Some? && Tactics.IsSameSide(tanks[k.value].team, team) then
        tanks[k.value := tanks[k.value].(assists := tanks[k.value].assists + 1, score := tanks[k.value].score + 50)]
      else tanks
  }

  /** The ledger's `forEach` of assists over its first `n` entries. */
  function Assists(tanks: seq<Tank>, ledger: seq<Damager>, owner: TankId, team: Team, n: nat): (r: seq<Tank>)
    requires n <= |ledger|
    ensures SameRoster(tanks, r)
  {
    if n == 0 then tanks
    else AssistOne(Assists(tanks, ledger, owner, team, n - 1), ledger[n - 1], owner, team)
  }

  /** Tank `j` is credited with an assist by one of the first `n` ledger entries. */
  predicate AssistedBy(tanks: seq<Tank>, ledger: seq<Damager>, owner: TankId, team: Team, j: nat, n: nat)
    requires j < |tanks| && n <= |ledger|
  {
    tanks[j].id != owner && Tactics.IsSameSide(tanks[j].team, team)
      && exists m :: 0 <= m < n && ledger[m].id == tanks[j].id
  }

  /** The tank `tanks[j]` with one more assist and 50 more points. */
  function WithAssist(t: Tank): Tank {
    t.(assists := t.assists + 1, score := t.score + 50)
  }

  /** With distinct ids, one ledger entry credits at most the one tank it names. */
  lemma AssistOneEffect(tanks: seq<Tank>, rd: Damager, owner: TankId, team: Team, j: nat)
    requires UniqueIds(tanks) && j < |tanks|
    ensures AssistOne(tanks, rd, owner, team)[j] ==
      (if tanks[j].id == rd.id && rd.id != owner && Tactics.IsSameSide(tanks[j].team, team)
       then WithAssist(tanks[j]) else tanks[j])
  {
    var k := FindTank(tanks, rd.id);
    if k.Some? && k.value != j {
      assert tanks[k.value].id != tanks[j].id;
    }
  }

  /**
   * With distinct tank ids and a ledger without repeats, tank `j` gets
   * exactly one assist (+50) when it is an ally of the shot, is not the
   * killer and is in the ledger, and is unchanged otherwise.
   */
  lemma {:induction false} AssistsOncePerDamager(tanks: seq<Tank>, ledger: seq<Damager>, owner: TankId, team: Team,
                                                 n: nat, j: nat)
    requires n <= |ledger| && j < |tanks| && UniqueIds(tanks) && UniqueDamagers(ledger)
    ensures Assists(tanks, ledger, owner, team, n)[j] ==
      (if AssistedBy(tanks, ledger, owner, team, j, n) then WithAssist(tanks[j]) else tanks[j])
  {
    if n > 0 {
      AssistsOncePerDamager(tanks, ledger, owner, team, n - 1, j);
      var prev := Assists(tanks, ledger, owner, team, n - 1);
      SameRosterUnique(tanks, prev);
      AssistedStep(tanks, ledger, owner, team, j, n);
      AssistStepAt(prev, ledger[n - 1], owner, team, j, AssistedBy(tanks, ledger, owner, team, j, n - 1), tanks[j]);
    }
  }

  /** One more ledger entry applied to a tank already credited (`was`) or not: it credits only a tank not yet credited. */
  lemma AssistStepAt(prev: seq<Tank>, rd: Damager, owner: TankId, team: Team, j: nat, was: bool, t: Tank)
    requires UniqueIds(prev) && j < |prev|
    requires prev[j] == (if was then WithAssist(t) else t)
    requires was ==> t.id != rd.id
    ensures AssistOne(prev, rd, owner, team)[j] ==
      (if was || (t.id == rd.id && rd.id != owner && Tactics.IsSameSide(t.team, team)) then WithAssist(t) else t)
  {
    AssistOneEffect(prev, rd, owner, team, j);
  }

  lemma SameRosterUnique(a: seq<Tank>, c: seq<Tank>)
    requires SameRoster(a, c) && UniqueIds(a)
    ensures UniqueIds(c)
  {
    forall x, y | 0 <= x < y < |c| ensures c[x].id != c[y].id {
      assert a[x].id != a[y].id;
    }
  }

  /** Entry `n - 1` is the only one of the first `n` that can name tank `j` for the first time. */
  lemma AssistedStep(tanks: seq<Tank>, ledger: seq<Damager>, owner: TankId, team: Team, j: nat, n: nat)
    requires 0 < n <= |ledger| && j < |tanks| && UniqueDamagers(ledger)
    ensures AssistedBy(tanks, ledger, owner, team, j, n) <==>
      AssistedBy(tanks, ledger, owner, team, j, n - 1)
      || (tanks[j].id == ledger[n - 1].id && ledger[n - 1].id != owner && Tactics.IsSameSide(tanks[j].team, team))
    ensures tanks[j].id == ledger[n - 1].id ==> !AssistedBy(tanks, ledger, owner, team, j, n - 1)
  {
    if exists m :: 0 <= m < n && ledger[m].id == tanks[j].id {
      var m :| 0 <= m < n && ledger[m].id == tanks[j].id;
      assert m < n - 1 || m == n - 1;
    }
  }

  /** The killer with one more kill and 100 more points. */
  function WithKill(t: Tank): Tank {
    t.(kills := t.kills + 1, score := t.score + 100)
  }

  /** The shooter as the hit sees it. */
  function Owner(tanks: seq<Tank>, b: Bullet): Option<Tank> {
    var k := FindTank(tanks, b.ownerId);
    if k.Some? then Some(tanks[k.value]) else None
  }

  /** The target's health after the hit. */
  function HealthAfter(tanks: seq<Tank>, j: nat, b: Bullet, now: real): real
    requires j < |tanks|
  {
    tanks[j].health - HitDamage(b, Owner(tanks, b), tanks[j], now)
  }

  /** The target's ledger after the hit. */
  function LedgerAfter(tanks: seq<Tank>, j: nat, b: Bullet, now: real): seq<Damager>
    requires j < |tanks|
  {
    RecordHit(tanks[j].recentDamagers, b.ownerId, now)
  }

  /** The tanks with the damage and the ledger entry applied to the target. */
  function Struck(tanks: seq<Tank>, j: nat, b: Bullet, now: real): (r: seq<Tank>)
    requires j < |tanks|
    ensures SameRoster(tanks, r)
  {
    tanks[j := tanks[j].(health := HealthAfter(tanks, j, b, now), recentDamagers := LedgerAfter(tanks, j, b, now))]
  }

  /** The killer at slot `k` credited, then the assists of `ledger`. */
  function CreditKill(tanks: seq<Tank>, k: nat, ledger: seq<Damager>, b: Bullet): (r: seq<Tank>)
    requires k < |tanks|
    ensures SameRoster(tanks, r)
  {
    Assists(tanks[k := WithKill(tanks[k])], ledger, b.ownerId, b.team, |ledger|)
  }

  /**
   * A bullet of `b.ownerId` hits tank `j`: the damage, the ledger entry,
   * and on a kill the credit for the killer and the assists, after which
   * the target's ledger is emptied. Nothing is credited when the shooter
   * is not in the roster.
   */
  function Strike(tanks: seq<Tank>, j: nat, b: Bullet, now: real): (r: seq<Tank>)
    requires j < |tanks|
    ensures SameRoster(tanks, r)
  {
    var struck := Struck(tanks, j, b, now);
    if HealthAfter(tanks, j, b, now) > 0.0 then struck
    else
      var k := FindTank(tanks, b.ownerId);
      var credited := if k.Some? then CreditKill(struck, k.value, LedgerAfter(tanks, j, b, now), b) else struck;
      credited[j := credited[j].(recentDamagers := [])]
  }

  /** `id` appears in the ledger. */
  predicate InLedger(ledger: seq<Damager>, id: TankId) {
    exists e :: 0 <= e < |ledger| && ledger[e].id == id
  }

  /** What a kill does to another tank `m`: +1 kill and +100 for the shooter, +1 assist and +50 for an ally in the ledger. */
  function Credited(tanks: seq<Tank>, b: Bullet, ledger: seq<Damager>, m: nat): Tank
    requires m < |tanks|
  {
    var kill := if tanks[m].id == b.ownerId then WithKill(tanks[m]) else tanks[m];
    if tanks[m].id != b.ownerId && Tactics.IsSameSide(tanks[m].team, b.team) && InLedger(ledger, tanks[m].id)
    then WithAssist(kill) else kill
  }

  /** With distinct ids, crediting the killer at slot `k` changes each tank as `Credited` says. */
  lemma CreditKillAt(tanks: seq<Tank>, k: nat, ledger: seq<Damager>, b: Bullet, m: nat)
    requires k < |tanks| && m < |tanks| && tanks[k].id == b.ownerId
    requires UniqueIds(tanks) && UniqueDamagers(ledger)
    ensures CreditKill(tanks, k, ledger, b)[m] == Credited(tanks, b, ledger, m)
  {
    var killed := tanks[k := WithKill(tanks[k])];
    assert SameRoster(tanks, killed);
    SameRosterUnique(tanks, killed);
    AssistsOncePerDamager(killed, ledger, b.ownerId, b.team, |ledger|, m);
    if k != m {
      assert tanks[k].id != tanks[m].id;
    }
  }

  /**
   * A hit on an opposing tank `j` that is not the shooter lowers its
   * health by the hit damage and records the shooter; a kill empties its
   * ledger instead. Its kills, assists and score do not change.
   */
  lemma StrikeTarget(tanks: seq<Tank>, j: nat, b: Bullet, now: real)
    requires j < |tanks| && UniqueIds(tanks) && UniqueDamagers(tanks[j].recentDamagers)
    requires tanks[j].id != b.ownerId && !Tactics.IsSameSide(tanks[j].team, b.team)
    ensures Strike(tanks, j, b, now)[j] ==
      tanks[j].(health := HealthAfter(tanks, j, b, now),
                recentDamagers := if HealthAfter(tanks, j, b, now) > 0.0 then LedgerAfter(tanks, j, b, now) else [])
  {
    var k := FindTank(tanks, b.ownerId);
    var struck := Struck(tanks, j, b, now);
    if HealthAfter(tanks, j, b, now) <= 0.0 && k.Some? {
      SameRosterUnique(tanks, struck);
      CreditKillAt(struck, k.value, LedgerAfter(tanks, j, b, now), b, j);
    }
  }

  /**
   * With distinct ids, a hit on tank `j` leaves every other tank as it
   * was, unless it kills: then the shooter gets +1 kill and +100, and
   * each ally of the shot in the target's updated ledger other than the
   * shooter +1 assist and +50. Nothing is credited when the shooter is
   * not in the roster.
   */
  lemma StrikeOthers(tanks: seq<Tank>, j: nat, b: Bullet, now: real, m: nat)
    requires j < |tanks| && m < |tanks| && m != j
    requires UniqueIds(tanks) && UniqueDamagers(tanks[j].recentDamagers)
    ensures Strike(tanks, j, b, now)[m] ==
      (if HealthAfter(tanks, j, b, now) > 0.0 || FindTank(tanks, b.ownerId).None? then tanks[m]
       else Credited(tanks, b, LedgerAfter(tanks, j, b, now), m))
  {
    var k := FindTank(tanks, b.ownerId);
    var struck := Struck(tanks, j, b, now);
    if HealthAfter(tanks, j, b, now) <= 0.0 && k.Some? {
      SameRosterUnique(tanks, struck);
      CreditKillAt(struck, k.value, LedgerAfter(tanks, j, b, now), b, m);
      assert struck[m] == tanks[m];
    }
  }

  /** Every tank's ledger is free of repeated ids. */
  predicate LedgersUnique(tanks: seq<Tank>) {
    forall k :: 0 <= k < |tanks| ==> UniqueDamagers(tanks[k].recentDamagers)
  }

  /**
   * A hit keeps every ledger free of repeats: the target's is updated by
   * `RecordHit` or emptied on a kill, and the others are not touched.
   */
  lemma StrikeKeepsLedgers(tanks: seq<Tank>, j: nat, b: Bullet, now: real)
    requires j < |tanks| && UniqueIds(tanks) && LedgersUnique(tanks)
    ensures LedgersUnique(Strike(tanks, j, b, now))
  {
    var r := Strike(tanks, j, b, now);
    forall m | 0 <= m < |r|
      ensures UniqueDamagers(r[m].recentDamagers)
    {
      if m != j {
        StrikeOthers(tanks, j, b, now, m);
      }
    }
  }

  // ------------------------------------------------------- bullet flight

  /** `b.pos += (cos, sin)(rotation) * speed * dt`. */
  function Fly(b: Bullet, dir: Vec, dt: real): Bullet {
    b.(pos := Movement.Step(b.pos, dir, b.speed, dt))
  }

  /** The new heading after a REBOUND wall: mirrored horizontally when the hit is mostly from the side. */
  function Reflect(rotation: real, fromSide: bool): real {
    if fromSide then Pi - rotation else -rotation
  }

  /** Bouncing twice off the same face restores the heading. */
  lemma ReflectInvolution(rotation: real, fromSide: bool)
    ensures Reflect(Reflect(rotation, fromSide), fromSide) == rotation
  {
  }

  function Abs(x: real): real { if x < 0.0 then -x else x }

  /** The bullet after a REBOUND wall: turned, and nudged 10 along the new heading. */
  function Bounce(b: Bullet, w: Wall, dirOf: real -> Vec): (r: Bullet)
    ensures r == b.(rotation := r.rotation, pos := r.pos)
    ensures Abs(b.pos.x - w.pos.x) > Abs(b.pos.y - w.pos.y) ==> r.rotation == Pi - b.rotation
    ensures Abs(b.pos.x - w.pos.x) <= Abs(b.pos.y - w.pos.y) ==> r.rotation == -b.rotation
    ensures r.pos == Movement.Step(b.pos, dirOf(r.rotation), 10.0, 1.0)
  {
    var rot := Reflect(b.rotation, Abs(b.pos.x - w.pos.x) > Abs(b.pos.y - w.pos.y));
    b.(rotation := rot, pos := Movement.Step(b.pos, dirOf(rot), 10.0, 1.0))
  }

  /** A wall the bullet is stopped by: any colliding wall but WATER. */
  predicate Stops(b: Bullet, w: Wall) {
    w.kind != Water && GameLogic.Collides(GameLogic.BulletBody(b), GameLogic.WallBody(w))
  }

  /** The first wall of `for (const w of walls)` that stops the bullet. */
  function FirstWall(b: Bullet, walls: seq<Wall>): (r: Option<nat>)
    ensures r.None? <==> forall k :: 0 <= k < |walls| ==> !Stops(b, walls[k])
    ensures r.Some? ==> r.value < |walls| && Stops(b, walls[r.value])
    ensures r.Some? ==> forall k :: 0 <= k < r.value ==> !Stops(b, walls[k])
  {
    if |walls| == 0 then None
    else if Stops(b, walls[0]) then Some(0)
    else
      var rest := FirstWall(b, walls[1..]);
      assert forall k :: 1 <= k < |walls| ==> walls[k] == walls[1..][k - 1];
      if rest.Some? then Some(rest.value + 1) else None
  }

  /** A tank the bullet hits: alive, not its owner, on the other side, and touching. */
  predicate Hits(b: Bullet, t: Tank) {
    t.health > 0.0 && t.id != b.ownerId && !Tactics.IsSameSide(t.team, b.team)
      && GameLogic.Collides(GameLogic.BulletBody(b), GameLogic.TankBody(t))
  }

  /** The first tank of `for (const t of allTanks)` the bullet hits. */
  function FirstTarget(b: Bullet, tanks: seq<Tank>): (r: Option<nat>)
    ensures r.None? <==> forall k :: 0 <= k < |tanks| ==> !Hits(b, tanks[k])
    ensures r.Some? ==> r.value < |tanks| && Hits(b, tanks[r.value])
    ensures r.Some? ==> forall k :: 0 <= k < r.value ==> !Hits(b, tanks[k])
  {
    if |tanks| == 0 then None
    else if Hits(b, tanks[0]) then Some(0)
    else
      var rest := FirstTarget(b, tanks[1..]);
      assert forall k :: 1 <= k < |tanks| ==> tanks[k] == tanks[1..][k - 1];
      if rest.Some? then Some(rest.value + 1) else None
  }

  /** What a bullet's frame comes to. */
  datatype Fate =
    | Lost                          // left the world
    | Bounced(bullet: Bullet)       // turned by a REBOUND wall, kept
    | WallStruck(wall: nat)         // stopped by a wall, removed
    | TankStruck(tank: nat, bullet: Bullet) // hit a tank, removed
    | Flying(bullet: Bullet)        // kept

  /** The fate of bullet `b0` this frame, walls before tanks. */
  function FateOf(b0: Bullet, dirOf: real -> Vec, tanks: seq<Tank>, walls: seq<Wall>, dt: real,
                  width: real, height: real): (f: Fate)
    ensures var b := Fly(b0, dirOf(b0.rotation), dt);
      && (f.Lost? <==> GameLogic.IsOutOfBounds(b.pos, BulletSize, width, height))
      && (f.Bounced? ==> exists k :: FirstWall(b, walls) == Some(k) && walls[k].kind == Rebound
                                     && f.bullet == Bounce(b, walls[k], dirOf))
      && (f.WallStruck? ==> FirstWall(b, walls) == Some(f.wall) && walls[f.wall].kind != Rebound)
      && (f.TankStruck? ==> FirstWall(b, walls).None? && FirstTarget(b, tanks) == Some(f.tank) && f.bullet == b)
      && (f.Flying? ==> FirstWall(b, walls).None? && FirstTarget(b, tanks).None? && f.bullet == b)
      && (!f.Lost? ==> (FirstWall(b, walls).Some? <==> f.Bounced? || f.WallStruck?))
  {
    var b := Fly(b0, dirOf(b0.rotation), dt);
    if GameLogic.IsOutOfBounds(b.pos, BulletSize, width, height) then Lost
    else
      var w := FirstWall(b, walls);
      if w.Some? then
        if walls[w.value].kind == Rebound then Bounced(Bounce(b, walls[w.value], dirOf)) else WallStruck(w.value)
      else
        var t := FirstTarget(b, tanks);
        if t.Some? then TankStruck(t.value, b) else Flying(b)
  }

  /** A wall hit by a bullet: BULLETPROOF walls take nothing, other walls lose 1 health. */
  function Chip(w: Wall): (r: Wall)
    ensures r == w.(health := r.health)
    ensures r.health == (if w.kind == Bulletproof then w.health else w.health - 1.0)
  {
    if w.kind != Bulletproof then w.(health := w.health - 1.0) else w
  }

  /** The state the bullet pass updates. */
  datatype Battle = Battle(tanks: seq<Tank>, walls: seq<Wall>, bullets: seq<Bullet>)

  /** One bullet's frame applied to the battle; surviving bullets are appended to `bullets`. */
  function Resolve(st: Battle, b0: Bullet, dirOf: real -> Vec, dt: real, now: real, width: real, height: real): Battle {
    match FateOf(b0, dirOf, st.tanks, st.walls, dt, width, height)
    case Lost => st
    case Bounced(nb) => st.(bullets := st.bullets + [nb])
    case WallStruck(k) => st.(walls := st.walls[k := Chip(st.walls[k])])
    case TankStruck(j, b) => st.(tanks := Strike(st.tanks, j, b, now))
    case Flying(nb) => st.(bullets := st.bullets + [nb])
  }

  /** The `bullets.filter(...)` pass over the first `n` bullets, starting from no surviving bullets. */
  function Pass(tanks: seq<Tank>, walls: seq<Wall>, bullets: seq<Bullet>, n: nat, dirOf: real -> Vec,
                dt: real, now: real, width: real, height: real): (r: Battle)
    requires n <= |bullets|
    ensures SameRoster(tanks, r.tanks)
    ensures |r.walls| == |walls| && |r.bullets| <= n
  {
    if n == 0 then Battle(tanks, walls, [])
    else Resolve(Pass(tanks, walls, bullets, n - 1, dirOf, dt, now, width, height), bullets[n - 1], dirOf, dt, now, width, height)
  }

  /** Walls only wear down: same walls in the same places, health never rises, BULLETPROOF walls never change. */
  predicate WornFrom(before: seq<Wall>, after: seq<Wall>) {
    |after| == |before| && forall k :: 0 <= k < |before| ==>
      after[k] == before[k].(health := after[k].health) && after[k].health <= before[k].health
      && (before[k].kind == Bulletproof ==> after[k] == before[k])
  }

  lemma {:induction false} PassWearsWalls(tanks: seq<Tank>, walls: seq<Wall>, bullets: seq<Bullet>, n: nat,
                                          dirOf: real -> Vec, dt: real, now: real, width: real, height: real)
    requires n <= |bullets|
    ensures WornFrom(walls, Pass(tanks, walls, bullets, n, dirOf, dt, now, width, height).walls)
  {
    if n > 0 {
      PassWearsWalls(tanks, walls, bullets, n - 1, dirOf, dt, now, width, height);
    }
  }

  /** `walls.filter(w => w.health > 0)`. */
  function Standing(walls: seq<Wall>): (r: seq<Wall>)
    ensures forall w :: w in r <==> w in walls && w.health > 0.0
    ensures |r| <= |walls|
  {
    if |walls| == 0 then []
    else
      assert forall w :: w in walls <==> w == walls[0] || w in walls[1..];
      (if walls[0].health > 0.0 then [walls[0]] else []) + Standing(walls[1..])
  }

  /** The filter keeps the walls' order: it acts wall by wall. */
  lemma {:induction false} StandingInOrder(a: seq<Wall>, b: seq<Wall>, w: Wall)
    ensures Standing([w]) == (if w.health > 0.0 then [w] else [])
    ensures Standing(a + b) == Standing(a) + Standing(b)
  {
    assert [w][1..] == [];
    if |a| == 0 {
      assert a + b == b;
    } else {
      assert (a + b)[1..] == a[1..] + b;
      StandingInOrder(a[1..], b, w);
    }
  }
}
