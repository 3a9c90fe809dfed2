# AI Tank Commander — a Dafny model of the battle rules

This project models the game-logic core of AI Tank Commander, a top-down tank battle on a square map whose side is a setting: 4000 by default, from 2000 to 10000 in steps of 500. The current game's map size is a parameter of the model (`Arena.World.width` and `height`); the older copy in _backup_stable uses the fixed 4000 × 4000 field it imports. The player and a squad of AI allies fight AI enemies. Each side has a base ("bed") that the other side captures by standing next to it for 5 seconds. Commands (ATTACK, DEFEND, SURROUND, RECON, CAPTURE, FREE_PLANNING, FREE) steer the AI tanks.

The model covers these rules:

- **Geometry** (`GameLogic`, `StableGameLogic`):
  - the scaled collision test of `utils/gameLogic.ts` and the unscaled one of the older copy;
  - the out-of-bounds test;
  - random spawn positions and the 50-retry safe spawn.
- **Decisions** (`Tactics`):
  - the side relation `isSameSide` and `lerpAngle`;
  - the autopilot's and the enemy commander's command tables;
  - the state and target selection of `runAI`;
  - its stuck / reverse / detour counters;
  - its firing rule and cooldowns.
- **Movement** (`Movement`): `moveTank`'s speed limit, speed easing, the blocked-move rule and the turning limit.
- **Combat** (`Combat`):
  - the bullet pass of one frame: flight, the world's edge, REBOUND bounces, wall chipping and the first living opposing tank hit;
  - the damage and defense buffs;
  - the damage ledger (`recentDamagers`);
  - kill and assist credit.
- **Upkeep** (`Objectives`):
  - health regeneration;
  - item pickup and its buffs;
  - base capture and the end of the game;
  - respawning on a ring of offsets around the spawn point.
- **Knowledge base** (`Memory`): the list maintenance of `services/memoryService.ts`.
- **Current frame** (`Arena.World`): a class whose fields are the game state and whose methods are the phases of one `gameLoop` frame, applied in the source's order.
- **Older rules** (`StableRules`, `StableArena.StableWorld`): the rules of `_backup_stable/components/GameCanvas.tsx` that differ from the current ones, each tied to its current counterpart where the two agree:
  - the enemy commander's counter-command table;
  - the threat-weighted heal choice;
  - the stuck and reverse counters;
  - one-step bullets and walls worn by bullet damage;
  - the older damage and kill rule;
  - the tighter base defenders and the respawn on the spawn point.

Numbers are `real`. Distances are compared as squared distances: for `R >= 0`, `d < R` exactly when `d² < R²`.

JavaScript's falsy numeric timers (`t.buffs.speedTimer && t.buffs.speedTimer > now`) are modelled as "not 0 and later than now".

These come into the model as inputs:

- **Random draws:** every `Math.random()` value. The range lemmas assume draws in `[0, 1)`.
- **Trigonometry:** `dirOf(angle)` stands for `(Math.cos(angle), Math.sin(angle))`.
- **The steering fan's result:** `Senses` (front blocked, left probe hit, total weight, drive angle).
- **Respawn offsets:** the ring of offsets that `handleRespawn` searches.
- **Older heal choice distance:** the `getDistance` it uses is the parameter `dist`.

## Model

| member | source | states |
|---|---|---|
| Tactics.SameSideIsEquivalence | components/GameCanvas.tsx:56-60 | the side relation is reflexive, symmetric and transitive, and two teams are on one side exactly when both or neither are ENEMY |
| Tactics.SideOf | components/GameCanvas.tsx:56-60 | every team is on the side of ALLY or of ENEMY, never a third |
| Tactics.WrapDiffAsWritten | components/GameCanvas.tsx:163-166 | the wrapped angle difference with JavaScript's `%` lies in [-π, π) for differences from -3π up, and in (-3π, -π] below |
| Tactics.WrapDiff | components/GameCanvas.tsx:163-166 | the intended wrap lies in [-π, π) and differs from the input by a whole number of turns |
| Tactics.WrapDiffAgrees | components/GameCanvas.tsx:163-166 | the two wraps agree for every difference of at least -3π |
| Tactics.LerpAngle | components/GameCanvas.tsx:163-166 | a turn moves at most `step`, in the direction of the wrapped difference, and reaches the target once within a step |
| Tactics.LerpAngleAgrees | components/GameCanvas.tsx:163-166 | `lerpAngle` as written equals the corrected one whenever `target - current >= -3π` |
| Tactics.LerpAngleAsWrittenTurnsBackwards | components/GameCanvas.tsx:163-166 | from heading 10 toward 0 with step 0.25 the written rule turns to 9.75, the corrected one to 10.25 |
| Tactics.CommandTable | components/GameCanvas.tsx:551-569 | each command is chosen exactly under its condition, in table order: DEFEND above 1200 capture progress, FREE_PLANNING below the health floor, CAPTURE within 700 of the enemy base, SURROUND / ATTACK / RECON by visible count; never FREE |
| Tactics.AutopilotCommand | components/GameCanvas.tsx:542-583 | the autopilot repairs exactly when its base is not under capture and the player is below 45 health; it surrounds only with 3 or more visible enemies |
| Tactics.EnemyCommanderCommand | components/GameCanvas.tsx:586-623 | the enemy commander repairs exactly when its base is not under capture and the leader is below 40 health; it surrounds only with 2 or more visible foes |
| Tactics.EnemyCommanderSurroundsEarlier | components/GameCanvas.tsx:586-623 | with two foes in sight the enemy commander surrounds where the autopilot attacks; at 42 health the autopilot repairs where the enemy scouts |
| Tactics.NearestUpTo | components/GameCanvas.tsx:652-655 | the pick is None exactly when no wanted item exists; otherwise it is a wanted item at the least distance and the first one at that distance (a stable sort's head) |
| Tactics.FirstHealUpTo | components/GameCanvas.tsx:699 | `find` of a heal pack: None exactly when there is none, otherwise the first one |
| Tactics.Scout | components/GameCanvas.tsx:688-694 | a scouting decision targets its recon point, and keeps the old point while the tank is farther than `reach` from it |
| Tactics.ScoutPointInBox | components/GameCanvas.tsx:726-731 | a fresh scouting point from draws in [0, 1) lies inside its box |
| Tactics.Decide | components/GameCanvas.tsx:635-733 | the priority chain: SEEK_HEALTH below 60 with a heal pack; else DEFEND_CORE when the base is threatened and the tank is near or healthy; else a near buff above 70 health; then an ambusher engages on foes or an attack and otherwise holds; then each command's whole decision: DEFEND on the 350 / 500 ring slot, CAPTURE and ATTACK toward the enemy base, SURROUND on the orbit slot around the foes, RECON ambushing in sturdy cover or scouting a 200 box, FREE_PLANNING to a heal pack below 75 health, else defending a near threatened base or attacking; FREE, no command, or SURROUND without foes scouts the inner box; ENGAGE_TANK always heads for the enemy base; only a scouting decision changes the recon target |
| Tactics.DefenceRingRadii | components/GameCanvas.tsx:716-724 | defenders alternate between radius 350 and radius 500 |
| Tactics.Navigate | components/GameCanvas.tsx:741-762 | backing up happens exactly while the reverse timer runs; moving at least 0.3 resets the stuck count; arming a reverse needs a blocked fan and sets 45 ticks; the counters stay in range and a running detour counts down |
| Tactics.Cooldown | components/GameCanvas.tsx:935-936 | the player waits 600 ms, an AI tank 1000 ms when clearing a path and 1750 ms otherwise |
| Tactics.Shot | components/GameCanvas.tsx:913-940 | a shot is fired exactly when a foe is within 1100 or a path is being cleared, and the cooldown has passed; it is a standard shell from the tank along the turret |
| GameLogic.DistSqSymmetric | utils/gameLogic.ts:13-42 | squared distance is symmetric |
| GameLogic.CollidesIff | utils/gameLogic.ts:13-42 | `checkCollision` holds exactly when the squared distance is below the squared scaled reach; the scale is 1.6 with a bullet, 1.25 with a wall or item, 1.3 otherwise |
| GameLogic.CollidesSymmetric | utils/gameLogic.ts:13-42 | collision is symmetric |
| GameLogic.TouchingDoesNotCollide | utils/gameLogic.ts:40-41 | objects exactly at reach do not collide (the test is strict) |
| GameLogic.ItemScaledLikeWall | utils/gameLogic.ts:19-38 | an item is scaled like a wall against a tank (1.25) and like a bullet target (1.6) against a bullet |
| GameLogic.InBoundsIff | utils/gameLogic.ts:44-51 | a point is in bounds exactly when it is at least half the size from every edge |
| GameLogic.SpreadRange | utils/gameLogic.ts:53-56 | a draw in [0, 1) spread over a positive span lands in [size, span + size) |
| GameLogic.RandomPosRange | utils/gameLogic.ts:53-56 | a random position from draws in [0, 1) is at least `size` from every edge, hence in bounds |
| GameLogic.SpawnSafe | utils/gameLogic.ts:58-68 | the result is the first of the 51 candidates that collides with nothing, or the 51st; with draws in [0, 1) it lies inside the field |
| GameLogic.RangeOfCandidate | utils/gameLogic.ts:58-68 | every candidate position lies inside the field when the draws are in [0, 1) |
| StableGameLogic.CollidesIff | _backup_stable/utils/gameLogic.ts:13-18 | the older test holds exactly when the squared distance is below the squared mean size |
| StableGameLogic.CollidesSymmetric | _backup_stable/utils/gameLogic.ts:13-18 | the older collision is symmetric |
| StableGameLogic.ScaledTestIsLooser | _backup_stable/utils/gameLogic.ts:13-18 | whatever collides under the older test collides under the current scaled one |
| StableGameLogic.InBoundsIff | _backup_stable/utils/gameLogic.ts:20-27 | in bounds of the fixed 4000 × 4000 field exactly when half the size from every edge |
| StableGameLogic.RandomPosRange | _backup_stable/utils/gameLogic.ts:29-32 | a random position from draws in [0, 1) is at least `size` from every edge |
| StableGameLogic.SpawnSafe | _backup_stable/utils/gameLogic.ts:34-44 | the first free candidate of 51, or the last, and inside the field for draws in [0, 1) |
| StableGameLogic.RangeOfCandidate | _backup_stable/utils/gameLogic.ts:34-44 | every candidate lies inside the field for draws in [0, 1) |
| Movement.SpeedLimit | components/GameCanvas.tsx:367-382 | an idle tank targets 0; otherwise the base speed times 1.8 with a speed buff, times 0.5 in water, times 0.9 in water with the buff |
| Movement.EaseBetween | components/GameCanvas.tsx:367-382 | easing with a fraction in [0, 1] stays between the current and target speed, and reaches the target at fraction 1 |
| Movement.FractionRange | components/GameCanvas.tsx:367-382 | the easing fraction `min(1, rate·dt)` is in [0, 1], and 1 from half a second on |
| Movement.NextSpeed | components/GameCanvas.tsx:367-382 | the new speed lies between the old speed and the limit; an idle tank slows toward 0 and snaps to 0 below 1 |
| Movement.MoveResult | components/GameCanvas.tsx:360-402 | only position, speed and rotation change; a tank faster than 0.05 whose stepped point is not blocked moves there, and a move happens only that way; a blocked move keeps the position and cuts the speed to a tenth; the rotation becomes `lerpAngle` toward the heading with step 0.25 (0.04 when idle), so it turns at most that far |
| Combat.ShieldedBounds | components/GameCanvas.tsx:1004-1017 | a reduction in [0, 1] leaves between none and all of the damage |
| Combat.HitDamage | components/GameCanvas.tsx:1004-1017 | without buffs the damage is the bullet's; with a defense value in [0, 1] it is between 0 and 1.7 times it, and at most the bullet's without a damage buff |
| Combat.ShieldedStandardShot | components/GameCanvas.tsx:1004-1017 | a standard 10-damage shell against a rolled defense of 0.1 to 0.9 deals more than 1 and at most 9 |
| Combat.FindDamager | components/GameCanvas.tsx:1021 | `findIndex` by id: None exactly when absent, otherwise the first matching entry |
| Combat.KeepRecent | components/GameCanvas.tsx:1028 | the filter keeps exactly the entries younger than 10 s |
| Combat.KeepRecentInOrder | components/GameCanvas.tsx:1028 | the filter keeps a single entry exactly when it is younger than 10 s, and filters a joined ledger part by part, so order is kept |
| Combat.KeepRecentUnique | components/GameCanvas.tsx:1028 | filtering keeps a ledger free of repeated ids |
| Combat.UpsertFacts | components/GameCanvas.tsx:1020-1025 | the shooter's entry is present with time `now`, the others stay, nothing else is added, and ids stay distinct |
| Combat.RecordHit | components/GameCanvas.tsx:1020-1028 | after a hit the ledger holds the shooter at `now` and exactly the other entries younger than 10 s, and has no repeated id if it had none |
| Combat.FindTank | components/GameCanvas.tsx:1031-1033 | `find` by id: None exactly when absent, otherwise the first tank with that id |
| Combat.FindTankSameRoster | components/GameCanvas.tsx:1031-1033 | searching by id finds the same slot in two lists with the same roster |
| Combat.AssistOne | components/GameCanvas.tsx:1038-1046 | one ledger entry keeps the roster unchanged |
| Combat.Assists | components/GameCanvas.tsx:1037-1048 | the assist pass keeps the roster unchanged |
| Combat.AssistOneEffect | components/GameCanvas.tsx:1038-1046 | one entry credits +1 assist and +50 score to the tank it names, whatever its health, if it is not the killer and is on the shooter's side, and changes no other tank |
| Combat.AssistsOncePerDamager | components/GameCanvas.tsx:1037-1048 | over the whole ledger, each tank gains one assist exactly when an entry names it and it qualifies, else it is unchanged |
| Combat.SameRosterUnique | components/GameCanvas.tsx:1031-1050 | distinct ids survive any change that keeps the roster |
| Combat.AssistedStep | components/GameCanvas.tsx:1037-1048 | with distinct ledger ids, the last entry is the only new way to name a tank |
| Combat.Struck | components/GameCanvas.tsx:1004-1028 | a hit keeps the roster |
| Combat.CreditKill | components/GameCanvas.tsx:1031-1050 | crediting a kill keeps the roster |
| Combat.Strike | components/GameCanvas.tsx:1004-1050 | a hit, with an eventual kill, keeps the roster |
| Combat.CreditKillAt | components/GameCanvas.tsx:1031-1050 | after a kill, each tank is changed exactly as the kill and assist rule says |
| Combat.StrikeTarget | components/GameCanvas.tsx:1004-1050 | the target loses the damage and records the shooter; on a kill its ledger is cleared |
| Combat.StrikeOthers | components/GameCanvas.tsx:1031-1050 | every other tank changes only by the kill credit or an assist, and only on a kill |
| Combat.StrikeKeepsLedgers | components/GameCanvas.tsx:1020-1050 | every ledger stays free of repeated ids after a hit |
| Combat.ReflectInvolution | components/GameCanvas.tsx:985-993 | bouncing twice off the same face restores the heading |
| Combat.Bounce | components/GameCanvas.tsx:985-993 | a REBOUND wall mirrors the heading (π − r from the side, −r from above or below) and nudges the bullet 10 along the new heading; nothing else changes |
| Combat.FirstWall | components/GameCanvas.tsx:982-998 | None exactly when no non-WATER wall collides, otherwise the first one in wall order |
| Combat.FirstTarget | components/GameCanvas.tsx:1000-1001 | None exactly when no living opposing non-owner tank is touched, otherwise the first one in roster order |
| Combat.FateOf | components/GameCanvas.tsx:978-1055 | after flying a frame the bullet leaves the world, else meets the first stopping wall, else the first target, else flies on |
| Combat.Chip | components/GameCanvas.tsx:995 | a BULLETPROOF wall keeps its health, every other hit wall loses 1, and nothing else changes |
| Combat.Pass | components/GameCanvas.tsx:978-1055 | the bullet pass keeps the roster and the number of walls, and keeps at most the bullets it started with |
| Combat.PassWearsWalls | components/GameCanvas.tsx:982-998 | walls only wear: same kinds and places, health never rises, BULLETPROOF walls never change |
| Combat.Standing | components/GameCanvas.tsx:1058 | exactly the walls with health above 0 remain |
| Combat.StandingInOrder | components/GameCanvas.tsx:1058 | a single wall stands exactly when its health is above 0, and a joined wall list is filtered part by part, so order is kept |
| Objectives.NextHealInterval | components/GameCanvas.tsx:404-425 | a fresh heal-buff interval from a draw in [0, 1) lies in [500, 2000) |
| Objectives.Regen | components/GameCanvas.tsx:404-425 | only living, damaged tanks change; health rises by the due base and heal-buff amounts, capped at the maximum; the regen time and heal-buff timers move exactly when due |
| Objectives.RegenBounded | components/GameCanvas.tsx:404-425 | regeneration never lowers health, never overheals, and leaves a dead tank dead |
| Objectives.HealAmount | components/GameCanvas.tsx:955 | a heal pack restores between 10 and 90 |
| Objectives.DefenseRoll | components/GameCanvas.tsx:965-967 | a rolled defense value lies in [0.1, 0.9) |
| Objectives.Collect | components/GameCanvas.tsx:953-972 | only health and buffs change; HEAL heals (capped) and starts the 5 s heal buff; SPEED, DAMAGE and DEFENSE set their timers, DEFENSE with a rolled value |
| Objectives.HealPackBounds | components/GameCanvas.tsx:954-956 | a heal pack raises a living tank's health by at most 90, and by at least 10 unless that reaches the maximum; it never lowers health, and never raises it above the maximum |
| Objectives.Collector | components/GameCanvas.tsx:949 | None exactly when no living tank touches the item, otherwise the first one |
| Objectives.PickupOne | components/GameCanvas.tsx:948-977 | an item stays on the ground exactly when nobody collects it; only health and buffs of tanks change |
| Objectives.Pickup | components/GameCanvas.tsx:948-977 | the pickup pass keeps the roster length, changes only health and buffs, and keeps at most the items it saw |
| Objectives.PickupOnlyRemoves | components/GameCanvas.tsx:948-977 | every item still on the ground was there before |
| Objectives.FirstAttacker | components/GameCanvas.tsx:1063 | None exactly when no living opponent is within the capture radius, otherwise the first one |
| Objectives.CaptureStep | components/GameCanvas.tsx:1059-1080 | defenders drain progress by 2500 per second (not below 0); else attackers add 1000 per second and name the capturer; at 5000 the base is won; an empty base drains by 3500 per second |
| Objectives.CaptureWinnerIsOpponent | components/GameCanvas.tsx:1059-1080 | a base is only won by the side opposed to it, and progress stays non-negative |
| Objectives.CaptureNeedsTime | components/GameCanvas.tsx:1065-1067 | one frame of at most a second cannot win a base whose progress was below 4000 |
| Objectives.FirstOpen | components/GameCanvas.tsx:1092-1108 | None exactly when every ring point is blocked, otherwise the first open one |
| Objectives.Respawn | components/GameCanvas.tsx:1081-1116 | a living tank is unchanged; a fresh death starts a 4000 ms timer; an expired timer brings the tank back with full health at the first open ring point, or its spawn point |
| Objectives.RespawnLandsOpen | components/GameCanvas.tsx:1092-1108 | a respawned tank is never placed where it is blocked, unless no ring point was open |
| Objectives.RespawnStartsTimerFirst | components/GameCanvas.tsx:1082-1085 | a fresh death only starts the timer: the tank stays dead for that frame |
| Memory.CleanupIfNeeded | services/memoryService.ts:109-116 | each list is cut to the longest prefix within 50 / 30 / 30 / 20 |
| Memory.DeepCleanup | services/memoryService.ts:121-128 | each list is cut to the longest prefix within 20 / 15 / 15 / 10 |
| Memory.CleanupIdempotent | services/memoryService.ts:109-116 | cleaning twice is cleaning once |
| Memory.DeepCleanupAfterCleanup | services/memoryService.ts:109-128 | a deep cleanup after a regular one equals a deep cleanup alone |
| Memory.AddBattleRecord | services/memoryService.ts:133-138 | the record goes first, the rest follow in order, at most 50 are kept, and the other lists are untouched |
| Memory.IsBlankIff | services/memoryService.ts:143-186 | a string is blank exactly when it consists of white space only |
| Memory.AppendDistinct | services/memoryService.ts:143-172 | a blank or present entry changes nothing; a new entry is appended below the cap, and dropped at or above it |
| Memory.AppendDistinctKeepsNoDuplicates | services/memoryService.ts:143-172 | a list without repeats keeps none |
| Memory.AddLearnedTactic | services/memoryService.ts:143-155 | a blank or known tactic leaves the base unchanged; otherwise the distinct append with cap 30; other lists untouched |
| Memory.AddPlayerPattern | services/memoryService.ts:160-172 | the same for player patterns, cap 30 |
| Memory.FullTacticListUnchanged | services/memoryService.ts:143-155 | on a full list a new tactic is silently dropped |
| Memory.AddInnovation | services/memoryService.ts:177-186 | a blank note changes nothing; otherwise it goes first, at most 20 are kept, and the other lists are untouched |
| Memory.InnovationNotDeduplicated | services/memoryService.ts:177-186 | adding one note twice stores it twice |
| Memory.ValidateKnowledgeBaseIff | services/memoryService.ts:58-66 | a parsed value passes exactly when it is an object whose four list properties are arrays |
| Memory.ValidateIgnoresElementTypes | services/memoryService.ts:58-66 | element types are not inspected: numbers where strings belong still pass |
| Arena.RosterUnique | components/GameCanvas.tsx:141-148 | roster slots have distinct ids |
| Arena.RosterKept | components/GameCanvas.tsx:141-148 | a list with the same slots as a well-shaped roster is well shaped |
| Arena.Roster | components/GameCanvas.tsx:136-148 | the player at (500, 500), then the allies on their grid from (200, 400) and the enemies on theirs from (width − 200, height − 400) of the chosen map, with ids, teams, speeds and the leader flag as created |
| Arena.Living | components/GameCanvas.tsx:546 | exactly the tanks with health above 0 |
| Arena.LivingInOrder | components/GameCanvas.tsx:546 | a single tank is kept exactly when alive, and a joined list is filtered part by part, so order is kept |
| Arena.CountInSight | components/GameCanvas.tsx:546 | the count is the number of tanks alive and within 1200, at most the list's length, and 0 exactly when there is none |
| Arena.FirstLeader | components/GameCanvas.tsx:587 | None exactly when no leader lives, otherwise the first living leader |
| Arena.FiredAfterCooldown | components/GameCanvas.tsx:935-936 | a shot leaves at least 600 ms after the last, 1000 ms for an AI tank |
| Arena.Respawned | components/GameCanvas.tsx:1116 | the respawn pass keeps the roster |
| Arena.RespawnedKeepsLiving | components/GameCanvas.tsx:1081-1116 | the respawn pass leaves living tanks as they were and touches no ledger |
| Arena.World.constructor | components/GameCanvas.tsx:132-148 | the initial state on a map of the given width and height: the roster on that map, the allies' base at (400, 400) and the enemies' at (width − 400, height − 400), both untouched, no bullets or items, FREE commands, the game running |
| Arena.World.RegenerateAll | components/GameCanvas.tsx:404-425 | every tank regenerates once with its own draw; nothing else changes |
| Arena.World.AutopilotTick | components/GameCanvas.tsx:542-583 | every 6 s while the autopilot flies, the allies' command becomes the table's command, and the timer moves only when it changed |
| Arena.World.EnemyCommanderTick | components/GameCanvas.tsx:586-623 | every 7 s, while a leader lives, the enemies' command becomes the first leader's table command, and the timer moves only when it changed |
| Arena.World.MoveTank | components/GameCanvas.tsx:360-402 | tank `i` becomes the move result; nothing else changes |
| Arena.World.Fire | components/GameCanvas.tsx:913-940 | the turret turns and the shot, if any, is appended with `lastShot := now` |
| Arena.World.RunAI | components/GameCanvas.tsx:635-941 | a dead tank does nothing; a living one takes `Decide`'s target and `Navigate`'s counters and acts on them as `Executed` says, firing only after its cooldown; other tanks are unchanged |
| Arena.World.Execute | components/GameCanvas.tsx:747-941 | the plan and counters are written back with `lastPos`; arming a reverse does nothing more, backing up moves without firing, escaping or advancing moves, turns the turret and appends at most one shell, only after the cooldown; other tanks are unchanged |
| Arena.World.RunAllAI | components/GameCanvas.tsx:943-945 | tanks and bullets become the fold `Calls` of one `AIStep` per call, on every ally, then every enemy, then the player only while the autopilot flies it; the bullets in flight stay, and at most one standard shell per call is appended |
| Arena.World.Shoot | components/GameCanvas.tsx:635-941 | one `runAI` call makes tanks and bullets exactly `AIStep`'s result, appending at most one standard shell |
| Arena.AIStep | components/GameCanvas.tsx:635-941 | one `runAI` call as a value: the roster length is kept, the bullets in flight stay, and at most one standard shell is appended |
| Arena.ExecutedIsStep | components/GameCanvas.tsx:635-941 | any state `Executed` allows after `Decide` and `Navigate` (or a dead tank left alone) is exactly `AIStep`'s result |
| Arena.RunOrder | components/GameCanvas.tsx:943-945 | call `c` runs the tank in slot `c + 1` (the allies, then the enemies), and the last call wraps to the player in slot 0 |
| Arena.Calls | components/GameCanvas.tsx:943-945 | `m` calls keep the roster length and the bullets in flight, appending at most `m` shells, all standard |
| Arena.CallsNext | components/GameCanvas.tsx:943-945 | one more call extends the fold by one `AIStep` on the tank `RunOrder` names |
| Arena.AssistPass | components/GameCanvas.tsx:1037-1048 | the ledger loop computes the assist pass over the whole ledger |
| Arena.PickupPass | components/GameCanvas.tsx:948-977 | the item loop computes the pickup pass over every item |
| Arena.World.PickUpItems | components/GameCanvas.tsx:948-977 | the tanks and items become the pickup pass's result |
| Arena.World.PickupKeepsRoster | components/GameCanvas.tsx:948-977 | pickup keeps the roster shape and the ledgers |
| Arena.StrikePass | components/GameCanvas.tsx:1004-1050 | the hit computed step by step, with the ledger loop, is the strike's result |
| Arena.World.Hit | components/GameCanvas.tsx:1004-1050 | the tanks become the strike's result; the roster and ledgers stay valid |
| Arena.World.ResolveBullets | components/GameCanvas.tsx:978-1055 | tanks, walls and bullets become the bullet pass's result |
| Arena.World.Settle | components/GameCanvas.tsx:978-1055 | one bullet is lost, bounces, chips a wall, hits a tank or flies on, as one step of the pass |
| Arena.World.RemoveDestroyedWalls | components/GameCanvas.tsx:1058 | the walls become the standing walls |
| Arena.World.CaptureBed | components/GameCanvas.tsx:1059-1080 | the base becomes its capture step; a won capture ends the game with the capturer as winner |
| Arena.World.CaptureBeds | components/GameCanvas.tsx:1059-1080 | both bases step in order; when both are won in one frame, the second capturer wins |
| Arena.World.SafeSpot | components/GameCanvas.tsx:1089-1108 | the first open ring point, else the spawn point |
| Arena.World.RespawnTank | components/GameCanvas.tsx:1081-1115 | tank `i` becomes its respawn result |
| Arena.World.RespawnAll | components/GameCanvas.tsx:1116 | the tanks become the respawn pass's result, in roster order |
| Arena.World.Frame | components/GameCanvas.tsx:404-1116 | a finished game does not change; otherwise the phases run in order, walls and items never grow in number |
| StableRules.CounterCommand | _backup_stable/components/GameCanvas.tsx:137-194 | each reply exactly under its condition: DEFEND when threatened or out-numbered in an attack, SURROUND / ATTACK / CAPTURE / FREE_PLANNING against the player's command, FREE otherwise while healthy; never RECON, and never the player's own named command |
| StableRules.ThreatRange | _backup_stable/components/GameCanvas.tsx:302-315 | the threat is non-negative, 0 exactly when no foe is within 800, and at most 800 per foe |
| StableRules.CheapestHeal | _backup_stable/components/GameCanvas.tsx:302-315 | None exactly when there is no heal pack, otherwise one of least cost, the first such |
| StableRules.HealTarget | _backup_stable/components/GameCanvas.tsx:302-315 | a pack is sought exactly below 50 health with a pack on the ground, and it is one of least cost |
| StableRules.Unstick | _backup_stable/components/GameCanvas.tsx:360-379 | backing up exactly while the reverse timer runs; arming exactly after 40 crawling ticks; each gait's counters |
| StableRules.UnstickKeepsRange | _backup_stable/components/GameCanvas.tsx:360-379 | the counters stay within their bounds |
| StableRules.CrawlCounts | _backup_stable/components/GameCanvas.tsx:360-379 | a crawling tank counts up one per tick without reversing |
| StableRules.StillTankArmsReverse | _backup_stable/components/GameCanvas.tsx:360-379 | a tank that stops arms its reverse on the 41st tick |
| StableRules.FirstWall | _backup_stable/components/GameCanvas.tsx:462-477 | None exactly when no non-WATER wall collides under the older test, otherwise the first |
| StableRules.FirstTarget | _backup_stable/components/GameCanvas.tsx:480-499 | None exactly when no living opposing tank is touched, otherwise the first |
| StableRules.FateOf | _backup_stable/components/GameCanvas.tsx:458-502 | one step of flight, then the fixed field's edge, the walls and the tanks, in that order |
| StableRules.HitDamage | _backup_stable/components/GameCanvas.tsx:484-496 | the current damage rule with a fixed defense value of 0.7; the bullet's damage without buffs; between 0.3 and 1.7 times it |
| StableRules.Strike | _backup_stable/components/GameCanvas.tsx:480-499 | a hit keeps the roster |
| StableRules.StrikeEffect | _backup_stable/components/GameCanvas.tsx:480-499 | the target loses only health; on a kill the shooter gains a kill and 100 points; no other tank changes |
| StableRules.Pass | _backup_stable/components/GameCanvas.tsx:458-502 | the pass keeps the roster and the number of walls, and at most the bullets it saw |
| StableRules.PassWearsWalls | _backup_stable/components/GameCanvas.tsx:462-477 | walls only wear; STONE walls never change |
| StableRules.CaptureStep | _backup_stable/components/GameCanvas.tsx:505-516 | the current capture step with defenders inside half the base's size |
| StableRules.DefenderIsCurrentDefender | _backup_stable/components/GameCanvas.tsx:506 | an older defender is a current defender for bases up to 500 across |
| StableRules.CaptureAgreesWithoutDefenders | _backup_stable/components/GameCanvas.tsx:505-516 | without current defenders the two capture steps agree |
| StableRules.CaptureWinnerIsOpponent | _backup_stable/components/GameCanvas.tsx:505-516 | only the opposing side wins a base, and progress stays non-negative |
| StableRules.Respawn | _backup_stable/components/GameCanvas.tsx:517-518 | a living tank is unchanged |
| StableRules.RespawnIsRinglessCurrent | _backup_stable/components/GameCanvas.tsx:517-518 | the older respawn is the current one with an empty ring: back at the spawn point with full health |
| StableArena.StableWorld.constructor | _backup_stable/components/GameCanvas.tsx:137-194 | the current roster and bases with FREE commands on both sides |
| StableArena.StableWorld.EnemyStrategy | _backup_stable/components/GameCanvas.tsx:137-194 | every 2 s the enemies' command becomes the counter-command while a leader lives, and the timer moves; nothing else changes |
| StableArena.StableWorld.TickCounters | _backup_stable/components/GameCanvas.tsx:360-379 | a dead tank does nothing; a living one takes `Unstick`'s counters and gait and records its position, so tank `i` becomes `Ticked` of itself, and the counters stay in range |
| StableArena.Ticked | _backup_stable/components/GameCanvas.tsx:360-379 | a dead tank is unchanged; otherwise only the stuck count, the reverse timer and the last position change, the last position becomes the current one, and counters in range stay in range |
| StableArena.StableWorld.TickAll | _backup_stable/components/GameCanvas.tsx:429-430 | every ally and enemy takes `Ticked`, in roster order; the player and every other field are untouched |
| StableArena.StableWorld.Hit | _backup_stable/components/GameCanvas.tsx:480-499 | the tanks become the older strike's result |
| StableArena.StableWorld.ResolveBullets | _backup_stable/components/GameCanvas.tsx:458-502 | tanks, walls and bullets become the older pass's result |
| StableArena.StableWorld.RemoveDestroyedWalls | _backup_stable/components/GameCanvas.tsx:504 | the walls become the standing walls |
| StableArena.StableWorld.CaptureBed | _backup_stable/components/GameCanvas.tsx:505-516 | the base becomes its older capture step; a won capture ends the game |
| StableArena.StableWorld.CaptureBeds | _backup_stable/components/GameCanvas.tsx:505-516 | both bases step in order |
| StableArena.StableWorld.RespawnTank | _backup_stable/components/GameCanvas.tsx:517-518 | tank `i` becomes its older respawn result |
| StableArena.StableWorld.RespawnAll | _backup_stable/components/GameCanvas.tsx:517-518 | every tank takes its older respawn; living tanks are untouched |
| StableArena.StableWorld.Frame | _backup_stable/components/GameCanvas.tsx:137-518 | a finished game does not change; otherwise the commander, the counters, the bullets, the walls, the bases and the respawns run in order; the walls never grow in number and the roster keeps its size |

## Left out

- Rendering, the HUD, the minimap, menus, input handling and the React state plumbing: they do not decide any rule.
- The network advisors (services/geminiService.ts, services/ollamaService.ts): foreign calls. Their commands enter as a command value.
- Browser storage in services/memoryService.ts: the model returns the new knowledge base instead of saving it.
- The `try`/`catch` save path of services/memoryService.ts: the quota error is I/O; its deep cleanup is `Memory.DeepCleanup`.
- utils/envValidator.ts: it reads the environment.
- `Math.random()`, `Math.cos`, `Math.sin` and `Math.atan2` are inputs, not computed. This covers the draws, `dirOf` and the steering angles.
- The steering fan of `runAI`, including bullet dodging, aim avoidance and teammate spacing: floating-point weight sums. Its outcome enters as `Senses`.
- The push-apart of overlapping tanks: trigonometric vector sums.
- The player's manual control, auto-aim and auto-fire at components/GameCanvas.tsx:428-540: keyboard, mouse and touch input.
- Item spawning and wall generation: random layout, passed in as the initial walls and items.
- `lastDialogue`, the commander messages and `flankAngle`: text and cosmetic state.
- Gold, upgrades and landmines: not part of the rules in the modelled files.
- Floating-point rounding: numbers are reals.
- `BUFF_DURATION` is imported but constants.ts does not define it, so it is the parameter `buffDuration`.
- The constants file of _backup_stable is not part of this model, so the older rules use the current constants.
- The older `enemyCommand` is typed as nullable but only ever set to a command, so it is a `Command`; the older `currentCommand` stays `Option<Command>`.
- Of the older game loop, only the rules that differ from the current one are modelled: the strategy table, the heal choice, the stuck counters, the bullets, the defenders and the respawn. The older `moveTank`, regeneration and pickup are not modelled.
- The older `runAI` state chain and steering are not modelled: only its counters and heal choice are.
- `Arena.World.Frame`, `StableArena.StableWorld.Frame`, `Arena.World.CaptureBed(s)` and `StableArena.StableWorld.CaptureBed(s)` require a frame time `dt >= 0`: the source takes it from a monotonic clock.
- Arena.World.Frame: states the shape of a frame and that a finished game is frozen; what each phase does is stated by the phase's own method.
- StableArena.StableWorld.Frame: same; each phase's effect is stated by its own method. Of the older `runAI` it runs only the counters (`TickAll`); the older player control and the movement, steering and firing that follow the counters are not modelled.
- Arena.World.RunAI: returns the decision and counter step as ghost values; the state change is stated in full, but the heading fed to `moveTank` is `dirOf` of the turned rotation, not computed.
- Movement.MoveResult: turns the tank with the corrected `lerpAngle` (`Tactics.LerpAngle`), not the one as written; the two agree whenever `target - rotation >= -3π` (`Tactics.LerpAngleAgrees`) and differ as the finding below shows.
- Arena.Heading: turns with the corrected `lerpAngle`, as above.
- Arena.Turret: turns the turret with the corrected `lerpAngle`, as above.
- Arena.World.MoveTank: inherits `Movement.MoveResult`'s corrected turn.
- Arena.World.Fire: turns the turret with the corrected `lerpAngle`, as above.
- Arena.World.Execute: its heading and turret turns use the corrected `lerpAngle`, as above.
- Arena.World.RunAI: acts through `Execute`, so it turns with the corrected `lerpAngle` as above.
- Arena.AIStep: the same corrected turns as `Execute`, as a value.
- Arena.World.RunAllAI: every call turns with the corrected `lerpAngle`, as above.

## Findings

| source | as written | input that shows it | evidently intended | confidence | as-written member | corrected member |
|---|---|---|---|---|---|---|
| components/GameCanvas.tsx:163-166 | `lerpAngle` wraps `target - current` with `((d + 3π) % 2π) - π`, and JavaScript's `%` keeps the sign of the dividend, so for `d < -3π` the result falls in (-3π, -π] | `current = 10`, `target = 0`, `step = 0.25`: the tank turns to 9.75, the long way around | wrap into [-π, π) with a floor modulo, so the tank turns to 10.25, the short way | not executed | Tactics.LerpAngleAsWrittenTurnsBackwards | Tactics.LerpAngle |
