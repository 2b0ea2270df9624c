# Asteroids: the per-frame entity simulation

This project models the game logic of an SFML Asteroids clone (`main.cpp`
and `asteroids.h`) and proves properties of it. Each frame runs while the
game is not paused. The modelled parts are:

- **Entities.** Every entity lives in one list. Its kind is player, asteroid
  (large R=25 or small R=15), boss asteroid, bullet, homing bullet,
  explosion, or explosion effect (the "blast wave" a homing bullet leaves
  behind).
- **A frame.** Controls and firing come first. Then come the pairwise
  collision scan, the player's thrust sprite, the despawn pass, the spawn
  rule, and the update pass, which updates every entity in list order.
- **State.** Three score counters (`asteroidsShotDirectly`,
  `asteroidsDestroyedInExplosions`, `maxAsteroidsDestroyed`), the boss
  count, the `bossSpawned` flag and the two firing cooldowns.

The model keeps the program's own shape:

- The list and the globals are the fields of `class Game` (module
  `Simulation`). The list is a `seq<Entity>`.
- The mutating passes are methods with loops and invariants.
- Each method is proved against a function that describes its result:
  `Survivors`, `UpdatedFrom`, `EffectStep`, `HomingStep`, `Search`,
  `Normalised`, `SpawnDecision`, and so on.
- The fields of `Game` form one `World` value (`Game.State`). Each pass of
  a frame is a function on worlds: `Pressed`, `Controlled`, `ScanFrom`,
  `Shown`, `Despawned`, `SpawnedIn`, `Updated`. Each method ends in the
  world its function gives.
- Inside the collision scan, `PairStep` gives the effect of one pair.
  It builds on `Crashed`, `ShotBoss` and `ShotRock`. `RowFrom` gives one
  row, and `ScanFrom` gives the whole scan.
- `Frame` runs the passes in the code's order. `Game.Tick` is proved to
  end in the world `Frame` gives.
- An entity is one record with a kind tag. It stands for the C++ subclass.
- The pool position stands for pointer identity. A homing bullet's target
  is an index.

`rand()` is an oracle, the sequence `rand: nat -> nat`. The class counts
the calls made so far in `draws`, so every spawned entity is a function of
the results it consumes. `cos`, `sin`, `atan2` and `sqrt` are an oracle
too, the `Libm` record.

No liveness checks are added, so quirks of the game are kept as written:

- A dead bullet, asteroid or boss goes on colliding for the rest of the
  scan. A boss already at health 0 or below can be killed again:
  `activeBossCount` drops once more, the score gains another 10, and four
  more children may appear. The counter can then fall below the number of
  bosses in the list (even below 0), and the spawn gate of main.cpp:538-540
  reads only the counter, so more than three bosses can be alive at once.
- Entities appended during the scan are visited by the same scan.
  - Termination is proved with a weight measure for the inner loop
    (`Weight`).
  - The outer loop uses a lexicographic count of bullets, then
    large asteroids and bosses, then small asteroids (`TierCount`).
- A crash into an asteroid or boss leaves `bossSpawned` as it was. Only
  `activeBossCount` is reset.
- A boss leaves the literal 4 children: `BOSS_SPAWN_COUNT` is declared and
  not used.

An explosion effect grows by `growthRate * 0.016` per update. With the
defaults it grows on 42 updates and dies on the 43rd
(`Entities.DefaultEffectLifetime`).

## Model

| member | source | states |
|---|---|---|
| Collision.IsCollide | main.cpp:21-25 | the collision test itself: the squared distance of the centres is below the square of the sum of the radii, with no square root taken; no contract of its own, its properties are the three lemmas below |
| Collision.CollideSymmetric | main.cpp:21-25 | isCollide(a, b) holds exactly when isCollide(b, a) does |
| Collision.CoincidentCollide | main.cpp:21-25 | two entities with positive radii on the same centre always collide |
| Collision.FarApartMiss | main.cpp:21-25 | entities whose x distance is at least the sum of their radii never collide |
| Collision.Classify | main.cpp:342-494 | the branch of the else-if chain a pair falls into: player with asteroid or boss, boss with either bullet, asteroid with either bullet, or none, each one iff its kinds match, with the two roles being the two indices |
| Collision.ClearedMembers | main.cpp:363-366 | the clear on a crash keeps exactly the non-combatants (everything but asteroids, bullets, homing bullets and bosses) |
| Collision.ClearedCounts | main.cpp:363-366 | after the clear no asteroid, bullet, homing bullet or boss remains, and every other kind keeps its count |
| Collision.ClearedIgnoresCombatant | main.cpp:349-366 | marking the struck rock dead (and a boss childless) before the clear makes no difference after it |
| Collision.ClearedAppend | main.cpp:363-366 | the clear distributes over concatenation |
| Collision.ClearedWellFormed | main.cpp:363-366 | the clear keeps every entity well-formed |
| Entities.AnimUpdate | asteroids.h:73-78 | only the frame changes; a frame in [0, n) with a speed in [0, n) stays in [0, n), so frames[int(Frame)] is in bounds; before the end the frame advances by exactly the speed |
| Entities.TruncBounds | main.cpp:414 | the float-to-int conversion of settings moves a value by less than 1, toward zero |
| Entities.NewAsteroid | asteroids.h:215-219 | a new asteroid is alive, at the origin, with radius 1 until settings is called |
| Entities.AsteroidDrift | asteroids.h:216-217 | an asteroid's velocity components are whole numbers in [-4, 3] |
| Entities.BossSpeedSteps | asteroids.h:237-238 | a boss velocity component is one of -1, -0.5, 0, 0.5, 1 |
| Entities.NewBoss | asteroids.h:231-239 | a new boss has R = 80, health 15 and spawnChildren set |
| Entities.NewBullet | asteroids.h:251-255 | a bullet deals REGULAR_BULLET_DAMAGE (1) |
| Entities.NewHomingBullet | asteroids.h:268-273 | a homing bullet deals HOMING_BULLET_DAMAGE (5) and has no target |
| Entities.NewExplosionEffect | asteroids.h:179-184 | an effect starts alive with radius 100, size 0, growth rate 150 and no kills |
| Entities.NewPlayer | asteroids.h:312-314 | a new player is alive and not thrusting |
| Entities.NewExplosion | asteroids.h:171 | a new explosion is alive |
| Entities.Wrap | asteroids.h:224-225 | the edge wrap lands in [0, bound] from any start, leaves interior values alone, sends values past the bound to 0 and values below 0 to the bound |
| Entities.AsteroidStep | asteroids.h:221-226 | only the position changes; it ends inside the arena; an interior result is position + velocity |
| Entities.BossStep | asteroids.h:241-246 | only the position changes; it ends inside the arena; an interior result is position + 0.3 * velocity |
| Entities.BulletStep | asteroids.h:257-263 | velocity from the heading at speed 6, never wrapped, and alive afterwards iff alive before and inside the arena, so a dead bullet never revives |
| Entities.PlayerStep | asteroids.h:316-335 | only velocity and position change; the player ends inside the arena; an interior result is position + new velocity |
| Entities.ExplosionStep | asteroids.h:172-174 | only life changes, and the explosion stays alive iff it was alive and its animation is not at its end |
| Entities.EffectGrowth | asteroids.h:187-199 | below the radius the size grows by exactly growthRate * 0.016 and life is kept; at full size the effect dies and the size stays |
| Entities.GrowthIsLinear | asteroids.h:186-200 | while every update began below the radius, the effect is alive and has grown by exactly n * growthRate * 0.016 |
| Entities.DefaultEffectLifetime | asteroids.h:179-200 | with the defaults the effect is alive after 42 updates and has reached full size, was below it after 41, and is dead after 43 |
| Entities.IsEnd | asteroids.h:80-82 | Animation::isEnd: the next step would reach or pass the frame count; no contract of its own, it is what ExplosionStep and the despawn pass test |
| Entities.Settings | asteroids.h:150-156 | Entity::settings: the sheet, the integer position, the heading and the radius are set and every other field is kept; no contract of its own, the placement lemmas of Spawning state what it gives |
| Spawning.HeadingRange | main.cpp:30 | rand() % 360 is a whole number of degrees in [0, 359] |
| Spawning.InitialAsteroid | main.cpp:29-31 | each initial asteroid is a live large asteroid (R = 25, rock sheet) |
| Spawning.InitialAsteroidPlacement | main.cpp:29-31 | each starts on a whole pixel of [0, W) x [0, H), with a whole heading in [0, 359] and whole velocity in [-4, 3] |
| Spawning.InitialField | main.cpp:27-33 | spawnInitialAsteroids makes exactly n large asteroids |
| Spawning.InitialFieldPlacement | main.cpp:27-33 | every asteroid of the initial field is placed as above |
| Spawning.SpawnedBoss | main.cpp:35-40 | a spawned boss is alive with R = 80, health 15 and spawnChildren set |
| Spawning.BossPlacement | main.cpp:37-39 | a boss appears on a whole pixel in [100, W-101] x [100, H-101], with its velocity from its last two rand() results |
| Spawning.SplitChild | main.cpp:485-487 | a piece of a shot large asteroid is a live small asteroid at the parent's truncated position |
| Spawning.SplitChildMotion | main.cpp:486 | a piece has a whole heading and whole velocity in [-4, 3] |
| Spawning.SplitChildren | main.cpp:484-488 | the split loop makes exactly n pieces |
| Spawning.BossChild | main.cpp:413-418 | a boss child is a live small asteroid at the boss's truncated position |
| Spawning.BossChildMotion | main.cpp:416-417 | a boss child's velocity is half the boss's plus a whole jitter in [-2, 1] on each axis |
| Spawning.BossChildren | main.cpp:412-419 | the child loop makes exactly n children |
| Spawning.TrickleAsteroid | main.cpp:543-547 | the trickle asteroid is a live large asteroid at the left edge |
| Spawning.TricklePlacement | main.cpp:545 | it sits on a whole pixel of y in [0, H) with a whole heading and whole velocity in [-4, 3] |
| Spawning.ExplosionAt | main.cpp:479-480 | an explosion placed at a truncated position, alive, with the chosen animation |
| Spawning.HitFlash | main.cpp:399-401 | the hit flash where a bullet meets a boss: the ship-explosion sheet for a regular bullet, the small sheet for a homing one |
| Spawning.BlastAt | main.cpp:508-511 | the blast wave sits at the asteroid's exact position, alive, with size 0 and radius 100 |
| Spawning.StartPlayer | main.cpp:206-207 | the first player is at (W/2, H/2), at rest, with R = 20 |
| Spawning.ResetPlayer | main.cpp:382-384 | after a crash the player is at (600, 400), at rest, facing 0, with R = 20 and everything else kept |
| Spawning.FiredBullet | main.cpp:328-329 | a regular bullet has R = 10 and the player's heading |
| Spawning.FiredHoming | main.cpp:307-308 | a homing bullet has R = 10, the player's heading and no target |
| Spawning.FiredFromPlayer | main.cpp:307-329 | both the regular and the homing bullet start at the player's truncated position, less than a pixel from it on each axis |
| Pools.CountKindAppend | main.cpp:336-523 | counts by kind add up over concatenation |
| Pools.FirstOfKind | main.cpp:208 | the index playerPtr stands for: the first entity of its kind; when the kind occurs exactly once, no other index holds it |
| Pools.CountKindZero | main.cpp:363-366 | a kind that is counted zero times occurs at no index |
| Pools.CountKindAll | main.cpp:412-419 | a list of one kind counts that kind once per entry |
| Pools.RowBoundTransitive | main.cpp:337-522 | two stretches of a row that each keep within the allowance for i keep it together |
| Pools.AppendKeepsValid | main.cpp:328-330 | appending well-formed non-players keeps the pool valid and the player count |
| Pools.HitKeepsValid | main.cpp:475-481 | a hit that changes two entities within their kinds and appends fresh entities keeps the pool valid |
| Pools.HitExtends | main.cpp:475-481 | such a hit only extends the pool: every old entity keeps its kind and radius, and exactly the debris is appended |
| Pools.InnerScanDecreases | main.cpp:337 | each visit of the inner loop lowers the weight of what is left to visit |
| Pools.OuterScanDecreases | main.cpp:336 | a whole row lowers the outer measure: bullets, then large asteroids and bosses, then small asteroids, then the distance to the end |
| Homing.Search | asteroids.h:277-288 | the search loop's result is a live asteroid or boss among the first n entities, when there is one |
| Homing.SearchFindsNearest | asteroids.h:277-288 | the target is the first live asteroid or boss, in list order, at minimal squared distance below FLT_MAX; with no target, no such entity is nearer than FLT_MAX |
| Homing.FindTarget | asteroids.h:277-288 | the search loop finds that target |
| Homing.Lowered | asteroids.h:295 | the first while loop, subtracting 360 while above 180, as a recursion that decreases with the number of turns left; its contract is LoweredSpec |
| Homing.Raised | asteroids.h:296 | the second while loop, adding 360 while below -180; its contract is RaisedSpec |
| Homing.Normalised | asteroids.h:295-296 | angleDiff after both loops; its contract is NormalisedSpec |
| Homing.LoweredSpec | asteroids.h:295 | the first loop ends at or below 180, above -180 if it ran, and shifts by a whole number of turns |
| Homing.RaisedSpec | asteroids.h:296 | the second loop ends in [-180, 180] and shifts by a whole number of turns |
| Homing.NormalisedSpec | asteroids.h:295-296 | the normalised difference lies in [-180, 180], differs from the input by a multiple of 360, and is the input when that is already in range |
| Homing.NormaliseAngle | asteroids.h:295-296 | the two while loops end with that value |
| Homing.Steered | asteroids.h:292-298 | the turn is a tenth of the normalised error, so at most 18 degrees either way |
| Homing.SteerTowards | asteroids.h:292-298 | the steering code computes that heading |
| Homing.HomingStep | asteroids.h:275-307 | the target is the nearest first; with no target the heading is kept, with one it is steered; velocity from the heading at speed 6; never wrapped; alive iff alive before and inside the arena |
| Homing.UpdateHoming | asteroids.h:275-307 | HomingBullet::update computes that step |
| Blast.InBlast | asteroids.h:190-193 | the sweep reaches a live asteroid (never a boss) whose centre is closer than the current size plus its radius; no contract of its own |
| Blast.Swept | asteroids.h:189-196 | the pool after one sweep keeps its length; that it marks exactly the reached entities dead and nothing else is stated by KillsAreFlips and EffectStep |
| Blast.KillCountAppend | asteroids.h:189-196 | the kill count adds up over concatenation |
| Blast.KillsAreFlips | asteroids.h:189-196 | the number of life flags the sweep flips from alive to dead equals the number of entities it reaches |
| Blast.EffectStep | asteroids.h:186-201 | at full size the effect only dies; otherwise it grows, every live asteroid within size + R dies, nothing else changes, and damageDealt grows by exactly the number of flags flipped |
| Blast.UpdateEffect | asteroids.h:186-201 | ExplosionEffect::update, with its loop over the pool, computes that step |
| Cleanup.Removed | main.cpp:531-533 | the remove_if condition: a finished explosion, a dead effect, or any dead entity; no contract of its own |
| Cleanup.Credit | main.cpp:528-530 | what the predicate adds for one entity: the kills of a dead effect, else nothing; no contract of its own |
| Cleanup.Survivors | main.cpp:527-534 | the list after remove_if, in order; its contract is SurvivorsMembers and the lemmas below |
| Cleanup.TotalCredit | main.cpp:527-530 | what the whole pass adds to asteroidsDestroyedInExplosions; its contract is NoCreditLeft and SurvivorsAppend |
| Cleanup.SurvivorsAppend | main.cpp:527-534 | the filter and the credit distribute over concatenation |
| Cleanup.SurvivorsMembers | main.cpp:531-533 | exactly the entities that are not removed survive, all survivors are alive, and none is added |
| Cleanup.NoCreditLeft | main.cpp:528-530 | no survivor carries credit, so each dead effect's kills are counted in one pass and never again |
| Cleanup.SurvivorsIdempotent | main.cpp:527-534 | a second pass changes nothing |
| Cleanup.AllLiveSurvive | main.cpp:531-533 | a list of live entities with no finished explosion survives whole |
| Cleanup.SurvivorsKeepPlayers | main.cpp:527-534 | the pass keeps the one player and every survivor is well-formed |
| Kinematics.KindStep | main.cpp:551 | the virtual update of the entity at k, dispatched on its kind, on the pool as it stands; no contract of its own, its facts are in AdvanceFacts |
| Kinematics.Advance | main.cpp:550-555 | one iteration of the loop: a blast wave runs EffectStep, anything else its kind step and then its animation step; the list keeps its length |
| Kinematics.UpdatedFrom | main.cpp:550-555 | the loop from index k to the end; the list keeps its length; its contract is UpdatedFromFacts |
| Kinematics.AdvanceFacts | main.cpp:550-555 | one update changes only its own entity, apart from the kills of a blast wave; it keeps every kind and radius and leaves its entity settled |
| Kinematics.UpdatedFromFacts | main.cpp:550-555 | after the update pass every entity is settled (those that wrap are inside the arena, and so is every live bullet, including the ones appended in this frame), and every kind, radius and invariant is kept |
| Kinematics.UpdatePool | main.cpp:550-555 | the update loop computes the update pass |
| Simulation.SpawnDecision | main.cpp:537-547 | a boss spawns iff score >= 25, fewer than 3 bosses are active and the boss roll comes up; a trickle asteroid spawns iff no boss spawned, no boss has spawned before and the 1/150 roll (the next draw after a boss roll, if one was made) comes up; nothing when the gate is closed and a boss has spawned |
| Simulation.Spawned | main.cpp:537-547 | the spawn rule appends at most one entity: a full-health boss, a large asteroid at the left edge, or nothing |
| Simulation.Struck | main.cpp:397-404 | the boss's health drops by exactly the bullet's damage, and it dies once its health is used up |
| Simulation.BossDebris | main.cpp:399-420 | a boss hit appends 1 entity, 2 on a kill, 6 on a kill of a boss with spawnChildren; all inert, lighter than the boss and than the bullet |
| Simulation.BossDebrisContents | main.cpp:399-420 | the hit flash comes first; on a kill the boss explosion at the boss's position is second, then the four BossChildren; the debris holds 4 asteroids iff the kill leaves children, else none, and each is a small piece at the boss's truncated position |
| Simulation.RockDebris | main.cpp:504-519 | an asteroid hit appends 1 entity, plus 1 for a homing bullet, plus 2 for a large asteroid; all inert and lighter than the asteroid and the bullet; no asteroid when the asteroid was small |
| Simulation.RockDebrisContents | main.cpp:479-519 | the explosion at the asteroid's position comes first, the blast wave second for a homing bullet, the two SplitChildren last for a large asteroid; exactly 2 asteroids iff R is not 15, exactly 1 blast wave iff the bullet was a homing one, the asteroids small pieces at the truncated position, the blast wave at the asteroid's exact position |
| Simulation.CrashKeepsValid | main.cpp:349-384 | after a crash exactly one well-formed player remains |
| Simulation.StartKeepsValid | main.cpp:204-209 | the starting field and the player make a valid pool |
| Simulation.PlayerOf | main.cpp:208 | playerPtr in a world: an index holding the player, and no other index holds one |
| Simulation.Crashed | main.cpp:348-384 | after a crash the world is valid, both running counters and the boss count are 0, the best score is the old best or the running score, whichever is higher, 75 rand() calls are made, and bossSpawned and the cooldowns are kept |
| Simulation.CrashClears | main.cpp:361-384 | after a crash no boss, bullet or homing bullet is left; there are fifteen asteroids and each is a fresh large rock of the new field; the reset player is in the list; the last entry is the explosion at the player's old position, from the boss sheet iff a boss hit the player |
| Simulation.ShotBoss | main.cpp:387-465 | a bullet's hit on a boss keeps the world valid; a kill lowers the boss count by 1, is worth 10, sets bossSpawned to whether a boss is left and makes 20 rand() calls for children; otherwise no counter changes |
| Simulation.ShotBossChanges | main.cpp:387-465 | the hit kills the bullet, applies the damage to the boss, leaves every other old entity as it was, keeps every kind and radius, and appends exactly BossDebris |
| Simulation.ShotRock | main.cpp:467-521 | a bullet's hit on an asteroid keeps the world valid, is worth 1, makes 6 rand() calls iff the asteroid splits, and changes no other counter |
| Simulation.ShotRockChanges | main.cpp:467-521 | the hit kills the asteroid and the bullet, leaves every other old entity as it was, keeps every kind and radius, and appends exactly RockDebris |
| Simulation.PairStep | main.cpp:338-521 | one pair ends the scan iff it is the player with an asteroid or boss and the two collide; a pair that does not act changes nothing; short of a crash the row keeps within its allowance, less than the weight of the entity at j is appended and the best score is kept; a crash zeroes the running counters |
| Simulation.RowFrom | main.cpp:337-522 | the inner loop from j on, over the list as it grows, terminates; short of a crash it keeps the row within its allowance and the best score |
| Simulation.ScanFrom | main.cpp:336-523 | the scan from row i on terminates under the lexicographic measure of the code's loops; short of a crash it only extends the list and keeps the best score; a crash zeroes the running counters; the world stays valid |
| Simulation.ScanFromStep | main.cpp:336-337 | the scan from row i is row i followed by the scan from row i + 1, unless row i ends in a crash |
| Simulation.QuietRowFrom | main.cpp:337-522 | a row none of whose pairs acts changes nothing and does not end the scan |
| Simulation.QuietScan | main.cpp:336-523 | a list none of whose pairs collides in a way the chain handles goes through the scan unchanged |
| Simulation.ScanFromEnd | main.cpp:336 | past the last row the scan changes nothing |
| Simulation.QuietScanStep | main.cpp:336-337 | a row that changes nothing hands the scan on to the next row |
| Simulation.Pressed | main.cpp:305-312 | the Enter key appends FiredHoming from the player and restarts the homing cooldown at 1.5 iff it had run out; the old list is kept as a prefix and nothing else changes |
| Simulation.Controlled | main.cpp:316-333 | both cooldowns drop by dt; the player alone is turned by D then A and takes W as its thrust; FiredBullet with the new heading is appended and the cooldown restarts at 0.15 iff Space is held and the cooldown has run out; nothing else changes |
| Simulation.Turned | main.cpp:322-323 | the heading after the turn keys: D adds 3 degrees, then A takes 3 away; no contract of its own, Controlled uses it |
| Simulation.Shown | main.cpp:526 | only the player's sprite changes, to the thrust sheet iff it is thrusting |
| Simulation.Despawned | main.cpp:527-534 | exactly the entities that are not removed stay, the explosion score gains exactly the credit of the removed blast waves, and nothing else changes |
| Simulation.SpawnedIn | main.cpp:537-547 | the spawn rule keeps the list as a prefix and appends at most one entity, never clears bossSpawned, and changes nothing but the list, the boss count, bossSpawned and the rand() count |
| Simulation.Updated | main.cpp:549-555 | the update pass keeps every kind and radius, leaves every entity settled, and changes nothing but the list |
| Simulation.Frame | main.cpp:305-555 | a frame (Enter, controls, scan, thrust sprite, despawn, spawn, update, in that order) keeps the world valid, with activeBossCount never above MAX_BOSS_ASTEROIDS (3), leaves every entity settled, never lowers the best score and changes it only in a crash |
| Simulation.Game.PlayerIndex | main.cpp:208 | playerPtr: the index of the one player, and no other index holds a player |
| Simulation.Game.constructor | main.cpp:203-214 | the first state: fifteen large asteroids then the player, zero counters, no boss, cooldowns 0 |
| Simulation.Game.SpawnInitialAsteroids | main.cpp:27-33 | appends exactly the initial field, leaving the entities before it unchanged and in order, and makes 5 rand() calls per asteroid |
| Simulation.Game.SpawnBossAsteroid | main.cpp:35-43 | appends one spawned boss, raises activeBossCount by exactly 1 and sets bossSpawned |
| Simulation.Game.SpawnTrickleAsteroid | main.cpp:544-546 | appends one trickle asteroid |
| Simulation.Game.SpawnBossChildren | main.cpp:411-420 | appends exactly the four children |
| Simulation.Game.SplitRock | main.cpp:483-489 | appends exactly the two pieces |
| Simulation.Game.CrashPlayer | main.cpp:348-384 | the crash branch ends in the world Crashed gives, and the state stays valid |
| Simulation.Game.RestartField | main.cpp:361-379 | the list becomes the cleared list with the reset player, then a fresh initial field, then the explosion; activeBossCount becomes 0 |
| Simulation.Game.HitBoss | main.cpp:387-465 | the boss branch ends in the world ShotBoss gives, and the state stays valid |
| Simulation.Game.KillBoss | main.cpp:403-424 | the kill itself: the count drops by 1, the boss explosion and the children iff spawnChildren are appended, the score gains 10 |
| Simulation.Game.HitRock | main.cpp:467-521 | the asteroid branch ends in the world ShotRock gives, and the state stays valid |
| Simulation.Game.ShatterRock | main.cpp:504-519 | appends exactly the asteroid hit's debris |
| Simulation.Game.VisitPair | main.cpp:338-521 | one pair ends in the world and crash flag PairStep gives, and the state stays valid |
| Simulation.Game.ScanRow | main.cpp:337-522 | the inner loop terminates although the list grows, and ends in the world and crash flag RowFrom gives |
| Simulation.Game.Scan | main.cpp:336-523 | the outer loop terminates under the same lexicographic measure, and ends in the world and crash flag ScanFrom gives |
| Simulation.Game.ScanStep | main.cpp:336-523 | one row of the outer loop: what is left of the scan is the crash, or the scan from the next row |
| Simulation.Game.ShowThrust | main.cpp:526 | ends in the world Shown gives |
| Simulation.Game.Despawn | main.cpp:527-534 | ends in the world Despawned gives |
| Simulation.Game.Sweep | main.cpp:527-534 | the despawn loop collects exactly the survivors, in order, and credits exactly the kills of the dead blast waves |
| Simulation.Game.SpawnStep | main.cpp:537-547 | ends in the world SpawnedIn gives: what SpawnDecision chose, with the rolls made in the code's order |
| Simulation.Game.SpawnChosen | main.cpp:541-546 | appends the chosen entity, counting the boss |
| Simulation.Game.Roll | main.cpp:540-543 | one rand() call: its value is the next draw and the draw counter moves on by one |
| Simulation.Game.RollSpawn | main.cpp:537-543 | the rolls of the spawn rule: the boss roll only when the gate is open, the trickle roll only when no boss rolled and no boss has spawned |
| Simulation.Game.UpdateAll | main.cpp:549-555 | ends in the world Updated gives |
| Simulation.Game.PressEnter | main.cpp:305-312 | ends in the world Pressed gives |
| Simulation.Game.Controls | main.cpp:316-333 | ends in the world Controlled gives |
| Simulation.Game.FireBullet | main.cpp:328-331 | appends the bullet and restarts the cooldown at 0.15 |
| Simulation.Game.Tick | main.cpp:305-555 | one frame runs the passes in the code's order and ends in the world and crash flag Frame gives, so the state stays valid |

## Left out

- Rendering, sprites, text, buttons, the pause menu, volume, brightness
  and audio are left out. They are I/O and have no effect on the
  simulation. Pausing is modelled by not calling `Tick`.
- `cos`, `sin`, `atan2` and `sqrt` are the supplied `Libm` oracle. Floats
  are exact reals, so IEEE rounding is not modelled.
- `rand()` is the supplied sequence `rand`. In C++ the evaluation order
  of arguments is unspecified; the model takes it as left to right.
- The frame time `dt` is a parameter of `Tick`. The keyboard is the `Input`
  record.
- The model allows at most one Enter key event per frame.
- `Simulation.Game.CrashPlayer`: the crash is modelled as ending the scan.
  In C++ the clear frees entities the scan's iterators still point to, and
  the freed `asteroid` is read again at main.cpp:374, which is undefined
  behaviour.
  - The model records "was a boss" before the clear.
  - It applies the player reset before the clear rather than last. This
    changes nothing, since the clear keeps the player.
- `Blast.InBlast`: the distance test `sqrt(d2) < size + R` is read as
  `size + R > 0` and `d2 < (size + R)^2`.
- `Collision.CoincidentCollide` requires positive radii. With a zero radius
  sum, coincident centres do not collide.
- `Simulation.Frame`: the bound it keeps is on `activeBossCount`, not on
  the bosses in the list. After a double kill the list can hold more than
  three bosses, so no such bound holds in the game.
- `Simulation.ScanFrom`: the order of the visits is the one its definition
  and `RowFrom`'s give: row i, then j = i + 1, i + 2, ... over the list as
  it grows. `Game.Scan` is proved to end in that function's world. No
  lemma lists, as a set, the pairs that get visited.
- Pointer aliasing is not modelled. Homing targets are list indices,
  which stay valid because the entity list never shrinks during the update
  pass.
- `GameState` and the menu functions (`initMenu`, `drawMenu`,
  `handleMenuEvents`, `resetGame`) are declared but have no definitions in
  the source. They are not part of this model.
