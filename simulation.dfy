/** The game state of main.cpp (the entity list and the global counters,
    main.cpp:13-19, and the fire cooldowns, main.cpp:211-214) and one frame
    of the game loop while it is not paused: controls and firing, the
    collision scan, the despawn pass, the spawn rule and the update pass,
    in that order. */
module Simulation {
  import opened Entities
  import opened Pools
  import opened Spawning
  import opened Collision
  import opened Cleanup
  import opened Kinematics

  /** The keys that matter in one frame: whether Enter was pressed, and
      whether D, A, W and Space are held. */
  datatype Input = Input(enter: bool, right: bool, left: bool, forward: bool, space: bool)

  datatype Spawn = SpawnBoss | SpawnTrickle | SpawnNone

  /** Whether the boss roll is made at all (main.cpp:538-539) */
  predicate BossGate(score: int, bosses: int) {
    score >= BOSS_TRIGGER_SCORE && bosses < MAX_BOSS_ASTEROIDS
  }

  /** The spawn rule of main.cpp:537-547, on the rand() results from d on:
      the rand() % 100 roll is made only when the gate is open, and the
      rand() % 150 roll only when the boss roll was not made or failed, and
      no boss has spawned. */
  function SpawnDecision(score: int, bosses: int, bossSpawned: bool, rand: nat -> nat, d: nat): (s: Spawn)
    ensures s == SpawnBoss <==> BossGate(score, bosses) && rand(d) % 100 == 0
    ensures s == SpawnTrickle <==>
              (&& !(BossGate(score, bosses) && rand(d) % 100 == 0) && !bossSpawned
               && rand(d + (if BossGate(score, bosses) then 1 else 0)) % 150 == 0)
    ensures !BossGate(score, bosses) && bossSpawned ==> s == SpawnNone
  {
    var gate := BossGate(score, bosses);
    if gate && rand(d) % 100 == 0 then SpawnBoss
    else if !bossSpawned && rand(d + (if gate then 1 else 0)) % 150 == 0 then SpawnTrickle
    else SpawnNone
  }

  /** The number of rolls the spawn rule makes */
  function SpawnRolls(score: int, bosses: int, bossSpawned: bool, rand: nat -> nat, d: nat): nat {
    var gate := BossGate(score, bosses);
    (if gate then 1 else 0) + (if (gate && rand(d) % 100 == 0) || bossSpawned then 0 else 1)
  }

  /** What the spawn rule appends, its rand() calls counted from d */
  function Spawned(s: Spawn, rand: nat -> nat, d: nat): (t: seq<Entity>)
    ensures |t| <= 1 && (t == [] <==> s == SpawnNone)
    ensures s == SpawnBoss ==> t[0].kind == Boss && t[0].health == BOSS_MAX_HEALTH
    ensures s == SpawnTrickle ==> IsLargeRock(t[0]) && t[0].x == 0.0
    ensures AllWellFormed(t) && forall k :: 0 <= k < |t| ==> t[k].kind != Player
  {
    match s
    case SpawnBoss => [SpawnedBoss(rand, d)]
    case SpawnTrickle => [TrickleAsteroid(rand, d)]
    case SpawnNone => []
  }

  /** The rand() calls the spawned entity makes */
  function SpawnCost(s: Spawn): nat {
    match s
    case SpawnBoss => BOSS_DRAWS
    case SpawnTrickle => TRICKLE_DRAWS
    case SpawnNone => 0
  }

  /** The heading after the turn keys: D adds 3 degrees, then A takes 3 away
      (main.cpp:322-323). */
  function Turned(angle: real, right: bool, left: bool): real {
    var a := if right then angle + 3.0 else angle;
    if left then a - 3.0 else a
  }

  /** The boss after a bullet's damage (main.cpp:397, 403-404): its health
      drops by the bullet's damage, and it dies once the health is used up. */
  function Struck(boss: Entity, shot: Entity): (b: Entity)
    requires boss.kind == Boss
    ensures b.health == boss.health - shot.damage
    ensures b.life <==> boss.life && b.health > 0
    ensures Shape(b) == Shape(boss) && (WellFormed(boss) ==> WellFormed(b))
  {
    var health := boss.health - shot.damage;
    boss.(health := health, life := if health <= 0 then false else boss.life)
  }

  /** What a bullet's hit on a boss appends (main.cpp:399-420, 439-460): the
      flash where the bullet was first and, when the boss dies, its
      explosion and, when it still may, its four pieces.  All of it is inert
      and weighs less than a boss or a bullet. */
  function BossDebris(boss: Entity, shot: Entity, rand: nat -> nat, d: nat): (t: seq<Entity>)
    requires boss.kind == Boss && IsAnyBullet(shot)
    ensures AllFresh(t) && Weight(t) < EntityWeight(boss) && Weight(t) < EntityWeight(shot)
    ensures |t| == if Struck(boss, shot).health > 0 then 1 else if boss.spawnChildren then 6 else 2
  {
    var flash := [HitFlash(shot)];
    var blast := [ExplosionAt(BossExplosionAnim, boss.x, boss.y)];
    var pieces := if boss.spawnChildren then BossChildren(rand, d, boss, 4) else [];
    WeightPieces(pieces);
    WeightCons(blast[0], pieces);
    FreshAppend(blast, pieces);
    var rest := if Struck(boss, shot).health <= 0 then blast + pieces else [];
    WeightCons(flash[0], rest);
    FreshAppend(flash, rest);
    flash + rest
  }

  /** What the boss hit appends, entry by entry: the flash at the bullet
      first; on a kill, the boss explosion at the boss's position next and
      then, for a boss that carries children, the four of them, which are
      the only asteroids in it, all pieces at the boss's truncated
      position. */
  lemma BossDebrisContents(boss: Entity, shot: Entity, rand: nat -> nat, d: nat)
    requires boss.kind == Boss && IsAnyBullet(shot)
    ensures var t := BossDebris(boss, shot, rand, d);
            && t[0] == HitFlash(shot)
            && (|t| > 1 ==> t[1] == ExplosionAt(BossExplosionAnim, boss.x, boss.y))
            && (|t| > 2 ==> t[2..] == BossChildren(rand, d, boss, 4))
            && CountKind(t, Asteroid) == (if Struck(boss, shot).health <= 0 && boss.spawnChildren then 4 else 0)
            && forall k :: 0 <= k < |t| && t[k].kind == Asteroid ==>
                 IsPiece(t[k]) && t[k].x == Trunc(boss.x) as real && t[k].y == Trunc(boss.y) as real
  {
    var flash := [HitFlash(shot)];
    var blast := [ExplosionAt(BossExplosionAnim, boss.x, boss.y)];
    var pieces := if boss.spawnChildren then BossChildren(rand, d, boss, 4) else [];
    var rest := if Struck(boss, shot).health <= 0 then blast + pieces else [];
    assert BossDebris(boss, shot, rand, d) == flash + rest;
    CountKindAll(pieces, Asteroid);
    CountKindAppend(blast, pieces, Asteroid);
    CountKindAppend(flash, rest, Asteroid);
    assert CountKind(flash, Asteroid) == 0 && CountKind(blast, Asteroid) == 0;
    assert (flash + rest)[1..] == rest;
  }

  /** What a bullet's hit on an asteroid appends (main.cpp:479-489,
      504-519): an explosion first, then a blast wave at the asteroid's
      position when the bullet was a homing one, then two pieces when the
      asteroid was a large one.  All of it is inert, weighs less than the
      asteroid and than the bullet, and holds no asteroid when the asteroid
      was small. */
  function RockDebris(rock: Entity, shot: Entity, rand: nat -> nat, d: nat): (t: seq<Entity>)
    requires rock.kind == Asteroid && IsAnyBullet(shot)
    ensures AllFresh(t) && Weight(t) < EntityWeight(rock) && Weight(t) < EntityWeight(shot)
    ensures rock.r == SMALL_R ==> forall k :: 0 <= k < |t| ==> t[k].kind != Asteroid
    ensures |t| == 1 + (if shot.kind == HomingBullet then 1 else 0) + (if rock.r != SMALL_R then 2 else 0)
  {
    var flash := ExplosionAt(ExplosionAnim, rock.x, rock.y);
    var pieces := if rock.r != SMALL_R then SplitChildren(rand, d, rock, 2) else [];
    WeightPieces(pieces);
    var rest :=
      if shot.kind == HomingBullet then
        WeightCons(BlastAt(rock), pieces);
        FreshAppend([BlastAt(rock)], pieces);
        [BlastAt(rock)] + pieces
      else pieces;
    WeightCons(flash, rest);
    FreshAppend([flash], rest);
    [flash] + rest
  }

  /** What the asteroid hit appends, entry by entry: the explosion at the
      asteroid's position first, the blast wave next when the bullet was a
      homing one (the only blast in it), and the two pieces of a large or
      medium asteroid last (the only asteroids in it, at the asteroid's
      truncated position). */
  lemma RockDebrisContents(rock: Entity, shot: Entity, rand: nat -> nat, d: nat)
    requires rock.kind == Asteroid && IsAnyBullet(shot)
    ensures var t := RockDebris(rock, shot, rand, d);
            && t[0] == ExplosionAt(ExplosionAnim, rock.x, rock.y)
            && (shot.kind == HomingBullet ==> t[1] == BlastAt(rock))
            && (rock.r != SMALL_R ==> t[|t| - 2..] == SplitChildren(rand, d, rock, 2))
            && CountKind(t, Asteroid) == (if rock.r != SMALL_R then 2 else 0)
            && CountKind(t, ExplosionEffect) == (if shot.kind == HomingBullet then 1 else 0)
            && (forall k :: 0 <= k < |t| && t[k].kind == Asteroid ==>
                  IsPiece(t[k]) && t[k].x == Trunc(rock.x) as real && t[k].y == Trunc(rock.y) as real)
            && forall k :: 0 <= k < |t| && t[k].kind == ExplosionEffect ==> t[k] == BlastAt(rock)
  {
    var flash := ExplosionAt(ExplosionAnim, rock.x, rock.y);
    var pieces := if rock.r != SMALL_R then SplitChildren(rand, d, rock, 2) else [];
    var rest := if shot.kind == HomingBullet then [BlastAt(rock)] + pieces else pieces;
    assert RockDebris(rock, shot, rand, d) == [flash] + rest;
    CountKindAll(pieces, Asteroid);
    CountKindNone(pieces, ExplosionEffect);
    if shot.kind == HomingBullet {
      CountKindAppend([BlastAt(rock)], pieces, Asteroid);
      CountKindAppend([BlastAt(rock)], pieces, ExplosionEffect);
    }
    CountKindAppend([flash], rest, Asteroid);
    CountKindAppend([flash], rest, ExplosionEffect);
    assert ([flash] + rest)[1..] == rest;
  }

  /** The appends of the boss-hit branch, in the order the code makes
      them, add up to its debris.  The lemma only unfolds definitions; it
      is called from Game.HitBoss so that the method's proof sees the
      debris as one sequence instead of unfolding it beside the heap. */
  lemma BossDebrisInOrder(h: seq<Entity>, boss: Entity, shot: Entity, rand: nat -> nat, d: nat,
                          s1: seq<Entity>, s2: seq<Entity>)
    requires boss.kind == Boss && IsAnyBullet(shot)
    requires s1 == h + [HitFlash(shot)]
    requires s2 == if Struck(boss, shot).health <= 0
                   then s1 + [ExplosionAt(BossExplosionAnim, boss.x, boss.y)]
                        + (if boss.spawnChildren then BossChildren(rand, d, boss, 4) else [])
                   else s1
    ensures s2 == h + BossDebris(boss, shot, rand, d)
  {
  }

  /** The appends of the asteroid-hit branch, in the order the code makes
      them, add up to its debris.  Like BossDebrisInOrder it only unfolds
      definitions, for the proof of Game.ShatterRock. */
  lemma RockDebrisInOrder(h: seq<Entity>, rock: Entity, shot: Entity, rand: nat -> nat, d: nat,
                          s1: seq<Entity>, s2: seq<Entity>, s3: seq<Entity>)
    requires rock.kind == Asteroid && IsAnyBullet(shot)
    requires s1 == h + [ExplosionAt(ExplosionAnim, rock.x, rock.y)]
    requires s2 == if shot.kind == HomingBullet then s1 + [BlastAt(rock)] else s1
    requires s3 == if rock.r != SMALL_R then s2 + SplitChildren(rand, d, rock, 2) else s2
    ensures s3 == h + RockDebris(rock, shot, rand, d)
  {
  }

  /** The crash keeps exactly one well-formed player: the clear removes
      every combatant, the struck rock among them, and keeps the reset
      player; what is appended after it holds no player. */
  lemma CrashKeepsValid(s: seq<Entity>, p: nat, q: nat, struck: Entity, rand: nat -> nat, d: nat, x: Entity)
    requires AllWellFormed(s) && CountKind(s, Player) == 1
    requires p < |s| && q < |s| && s[p].kind == Player && Combatant(s[q]) && Combatant(struck)
    requires WellFormed(x) && x.kind == Explosion
    ensures var r := s[p := ResetPlayer(s[p])];
            && Cleared(s[q := struck][p := ResetPlayer(s[p])]) == Cleared(r)
            && AllWellFormed(Cleared(r) + InitialField(rand, d, INITIAL_ASTEROIDS) + [x])
            && CountKind(Cleared(r) + InitialField(rand, d, INITIAL_ASTEROIDS) + [x], Player) == 1
  {
    var r := s[p := ResetPlayer(s[p])];
    assert s[q := struck][p := ResetPlayer(s[p])] == r[q := struck];
    ClearedIgnoresCombatant(r, q, struck);
    UpdateKeepsValid(s, p, ResetPlayer(s[p]));
    ClearedWellFormed(r);
    ClearedCounts(r, Player);
    var field := InitialField(rand, d, INITIAL_ASTEROIDS);
    AppendKeepsValid(Cleared(r), field);
    AppendKeepsValid(Cleared(r) + field, [x]);
  }

  /** The starting field and the player after it make a valid pool. */
  lemma StartKeepsValid(field: seq<Entity>)
    requires forall k :: 0 <= k < |field| ==> IsLargeRock(field[k])
    ensures AllWellFormed(field + [StartPlayer()]) && CountKind(field + [StartPlayer()], Player) == 1
  {
    CountKindNone(field, Player);
    CountKindAppend(field, [StartPlayer()], Player);
    assert CountKind([StartPlayer()], Player) == 1 by {
      assert [StartPlayer()][1..] == [];
    }
    assert forall k :: 0 <= k < |field| + 1 ==>
      (field + [StartPlayer()])[k] == if k < |field| then field[k] else StartPlayer();
  }

  /** The state of the game: the entity list and the globals of
      main.cpp:13-19, the fire cooldowns of main.cpp:211-214, and the number
      of rand() calls made so far. */
  datatype World = World(pool: seq<Entity>, bossSpawned: bool,
                         asteroidsShotDirectly: int, asteroidsDestroyedInExplosions: int,
                         maxAsteroidsDestroyed: int, activeBossCount: int,
                         shootCooldown: real, homingShootCooldown: real, draws: nat)

  /** Every entity is well-formed, there is exactly one player, the boss
      count never passes its maximum, and no score is negative. */
  predicate ValidWorld(w: World) {
    && AllWellFormed(w.pool)
    && CountKind(w.pool, Player) == 1
    && w.activeBossCount <= MAX_BOSS_ASTEROIDS
    && w.asteroidsShotDirectly >= 0 && w.asteroidsDestroyedInExplosions >= 0 && w.maxAsteroidsDestroyed >= 0
  }

  /** The running score, currentScore of main.cpp:537 */
  function Score(w: World): int {
    w.asteroidsShotDirectly + w.asteroidsDestroyedInExplosions
  }

  /** playerPtr: the index of the one player */
  function PlayerOf(w: World): (p: nat)
    requires ValidWorld(w)
    ensures p < |w.pool| && w.pool[p].kind == Player
    ensures forall k :: 0 <= k < |w.pool| && k != p ==> w.pool[k].kind != Player
  {
    FirstOfKind(w.pool, Player)
  }

  /** The player at p meets the asteroid or boss at q (main.cpp:348-384):
      the best score takes the running score if that is higher, both
      running counters and the boss count drop to 0, the combatants are
      cleared away, the player is put back at the centre, a new field of
      asteroids is spawned and an explosion is left where the player was. */
  function Crashed(w: World, p: nat, q: nat, rand: nat -> nat): (r: World)
    requires ValidWorld(w) && p < |w.pool| && q < |w.pool| && w.pool[p].kind == Player && IsRock(w.pool[q])
    ensures ValidWorld(r)
    ensures r.asteroidsShotDirectly == 0 && r.asteroidsDestroyedInExplosions == 0 && r.activeBossCount == 0
    ensures && r.maxAsteroidsDestroyed >= w.maxAsteroidsDestroyed && r.maxAsteroidsDestroyed >= Score(w)
            && (r.maxAsteroidsDestroyed == w.maxAsteroidsDestroyed || r.maxAsteroidsDestroyed == Score(w))
    ensures r.draws == w.draws + INITIAL_ASTEROIDS * INITIAL_DRAWS
    ensures r.bossSpawned == w.bossSpawned
    ensures r.shootCooldown == w.shootCooldown && r.homingShootCooldown == w.homingShootCooldown
  {
    var player, rock := w.pool[p], w.pool[q];
    var wasBoss := rock.kind == Boss;
    var struck := if wasBoss then rock.(life := false, spawnChildren := false) else rock.(life := false);
    var explosion := ExplosionAt(if wasBoss then BossExplosionAnim else ShipExplosionAnim, player.x, player.y);
    CrashKeepsValid(w.pool, p, q, struck, rand, w.draws, explosion);
    var total := Score(w);
    w.(pool := Cleared(w.pool[p := ResetPlayer(player)]) + InitialField(rand, w.draws, INITIAL_ASTEROIDS) + [explosion],
       draws := w.draws + INITIAL_ASTEROIDS * INITIAL_DRAWS,
       activeBossCount := 0, asteroidsShotDirectly := 0, asteroidsDestroyedInExplosions := 0,
       maxAsteroidsDestroyed := if w.maxAsteroidsDestroyed >= total then w.maxAsteroidsDestroyed else total)
  }

  /** After a crash no bullet, homing bullet or boss is left, the asteroids
      are exactly the fifteen of the new field, each a fresh large rock, the
      player is the reset one, and the list ends in the explosion left where
      the player was, drawn from the boss sheet when it was the boss that
      hit (main.cpp:376-379). */
  lemma CrashClears(w: World, p: nat, q: nat, rand: nat -> nat)
    requires ValidWorld(w) && p < |w.pool| && q < |w.pool| && w.pool[p].kind == Player && IsRock(w.pool[q])
    ensures var r := Crashed(w, p, q, rand).pool;
            && CountKind(r, Boss) == 0 && CountKind(r, Bullet) == 0 && CountKind(r, HomingBullet) == 0
            && CountKind(r, Asteroid) == INITIAL_ASTEROIDS
            && ResetPlayer(w.pool[p]) in r
            && (forall e :: e in r && e.kind == Asteroid ==>
                  e in InitialField(rand, w.draws, INITIAL_ASTEROIDS) && IsFreshRock(e))
            && r[|r| - 1] == ExplosionAt(if w.pool[q].kind == Boss then BossExplosionAnim else ShipExplosionAnim,
                                         w.pool[p].x, w.pool[p].y)
  {
    var kept := Cleared(w.pool[p := ResetPlayer(w.pool[p])]);
    var field := InitialField(rand, w.draws, INITIAL_ASTEROIDS);
    var explosion := [Crashed(w, p, q, rand).pool[|kept| + |field|]];
    assert Crashed(w, p, q, rand).pool == kept + field + explosion;
    forall k: Kind
      ensures CountKind(kept + field + explosion, k) ==
              CountKind(kept, k) + CountKind(field, k) + (if k == Explosion then 1 else 0)
      ensures CountKind(kept, k) == if Combatant(Blank(k)) then 0 else CountKind(w.pool[p := ResetPlayer(w.pool[p])], k)
    {
      ClearedCounts(w.pool[p := ResetPlayer(w.pool[p])], k);
      CountKindAppend(kept, field, k);
      CountKindAppend(kept + field, explosion, k);
      assert CountKind(explosion, k) == if k == Explosion then 1 else 0;
    }
    CountKindAll(field, Asteroid);
    forall k: Kind | k != Asteroid
      ensures CountKind(field, k) == 0
    {
      CountKindNone(field, k);
    }
    ClearedMembers(w.pool[p := ResetPlayer(w.pool[p])]);
    assert w.pool[p := ResetPlayer(w.pool[p])][p] == ResetPlayer(w.pool[p]);
    assert ResetPlayer(w.pool[p]) in kept;
    InitialFieldPlacement(rand, w.draws, INITIAL_ASTEROIDS);
    assert forall e: Entity :: (e in kept + field + explosion) && e.kind == Asteroid ==> e in field;
  }

  /** The bullet at u meets the boss at b (main.cpp:387-425, 427-465): the
      bullet dies, the boss takes its damage, nothing else in the list
      changes, and the boss's debris is appended; a kill lowers the boss
      count, is worth 10, and leaves bossSpawned saying whether a boss is
      left. */
  function ShotBoss(w: World, b: nat, u: nat, rand: nat -> nat): (r: World)
    requires ValidWorld(w) && b < |w.pool| && u < |w.pool| && b != u
    requires w.pool[b].kind == Boss && IsAnyBullet(w.pool[u])
    ensures ValidWorld(r)
    ensures var killed := Struck(w.pool[b], w.pool[u]).health <= 0;
            && r.activeBossCount == w.activeBossCount - (if killed then 1 else 0)
            && r.asteroidsShotDirectly == w.asteroidsShotDirectly + (if killed then 10 else 0)
            && r.bossSpawned == (if killed then r.activeBossCount > 0 else w.bossSpawned)
            && r.draws == w.draws + (if killed && w.pool[b].spawnChildren then 4 * CHILD_DRAWS else 0)
    ensures r.asteroidsDestroyedInExplosions == w.asteroidsDestroyedInExplosions
    ensures r.maxAsteroidsDestroyed == w.maxAsteroidsDestroyed
    ensures r.shootCooldown == w.shootCooldown && r.homingShootCooldown == w.homingShootCooldown
  {
    var boss, shot := w.pool[b], w.pool[u];
    var killed := Struck(boss, shot).health <= 0;
    var debris := BossDebris(boss, shot, rand, w.draws);
    HitKeepsValid(w.pool, u, shot.(life := false), b, Struck(boss, shot), debris);
    var bosses := w.activeBossCount - (if killed then 1 else 0);
    w.(pool := w.pool[u := shot.(life := false)][b := Struck(boss, shot)] + debris,
       activeBossCount := bosses,
       asteroidsShotDirectly := w.asteroidsShotDirectly + (if killed then 10 else 0),
       bossSpawned := if killed then bosses > 0 else w.bossSpawned,
       draws := w.draws + (if killed && boss.spawnChildren then 4 * CHILD_DRAWS else 0))
  }

  /** The bullet at u meets the asteroid at a (main.cpp:467-490, 492-523):
      both die, nothing else in the list changes, the asteroid's debris is
      appended, and the hit is worth 1. */
  function ShotRock(w: World, a: nat, u: nat, rand: nat -> nat): (r: World)
    requires ValidWorld(w) && a < |w.pool| && u < |w.pool| && a != u
    requires w.pool[a].kind == Asteroid && IsAnyBullet(w.pool[u])
    ensures ValidWorld(r)
    ensures r.asteroidsShotDirectly == w.asteroidsShotDirectly + 1
    ensures r.draws == w.draws + (if w.pool[a].r != SMALL_R then 2 * SPLIT_DRAWS else 0)
    ensures r.activeBossCount == w.activeBossCount && r.bossSpawned == w.bossSpawned
    ensures r.asteroidsDestroyedInExplosions == w.asteroidsDestroyedInExplosions
    ensures r.maxAsteroidsDestroyed == w.maxAsteroidsDestroyed
    ensures r.shootCooldown == w.shootCooldown && r.homingShootCooldown == w.homingShootCooldown
  {
    var rock, shot := w.pool[a], w.pool[u];
    var debris := RockDebris(rock, shot, rand, w.draws);
    HitKeepsValid(w.pool, a, rock.(life := false), u, shot.(life := false), debris);
    w.(pool := w.pool[a := rock.(life := false)][u := shot.(life := false)] + debris,
       asteroidsShotDirectly := w.asteroidsShotDirectly + 1,
       draws := w.draws + (if rock.r != SMALL_R then 2 * SPLIT_DRAWS else 0))
  }

  /** A boss hit changes only the bullet, which dies, and the boss, which
      takes the bullet's damage; every old entity keeps its kind and radius,
      and what follows the old list is the boss's debris. */
  lemma ShotBossChanges(w: World, b: nat, u: nat, rand: nat -> nat)
    requires ValidWorld(w) && b < |w.pool| && u < |w.pool| && b != u
    requires w.pool[b].kind == Boss && IsAnyBullet(w.pool[u])
    ensures var r := ShotBoss(w, b, u, rand).pool;
            && r[u] == w.pool[u].(life := false) && r[b] == Struck(w.pool[b], w.pool[u])
            && (forall k :: 0 <= k < |w.pool| && k != b && k != u ==> r[k] == w.pool[k])
            && Extends(w.pool, r) && r[|w.pool|..] == BossDebris(w.pool[b], w.pool[u], rand, w.draws)
  {
    var boss, shot := w.pool[b], w.pool[u];
    HitExtends(w.pool, u, shot.(life := false), b, Struck(boss, shot), BossDebris(boss, shot, rand, w.draws));
  }

  /** An asteroid hit changes only the asteroid and the bullet, and both
      die; every old entity keeps its kind and radius, and what follows the
      old list is the asteroid's debris. */
  lemma ShotRockChanges(w: World, a: nat, u: nat, rand: nat -> nat)
    requires ValidWorld(w) && a < |w.pool| && u < |w.pool| && a != u
    requires w.pool[a].kind == Asteroid && IsAnyBullet(w.pool[u])
    ensures var r := ShotRock(w, a, u, rand).pool;
            && r[a] == w.pool[a].(life := false) && r[u] == w.pool[u].(life := false)
            && (forall k :: 0 <= k < |w.pool| && k != a && k != u ==> r[k] == w.pool[k])
            && Extends(w.pool, r) && r[|w.pool|..] == RockDebris(w.pool[a], w.pool[u], rand, w.draws)
  {
    var rock, shot := w.pool[a], w.pool[u];
    HitExtends(w.pool, a, rock.(life := false), u, shot.(life := false), RockDebris(rock, shot, rand, w.draws));
  }

  /** The pair i < j of the scan (main.cpp:338-521): the first branch of the
      else-if chain that matches the two kinds acts when the two collide,
      and reports whether the player crashed.  A pair that does not act
      changes nothing.  Otherwise, short of a crash, the pair keeps the row
      for i within its allowance and appends less than the entity at j
      weighs. */
  function PairStep(w: World, i: nat, j: nat, rand: nat -> nat): (res: (World, bool))
    requires ValidWorld(w) && i < j < |w.pool|
    ensures ValidWorld(res.0)
    ensures var c := Classify(w.pool[i], w.pool[j], i, j);
            && (res.1 <==> c.PlayerHit? && Acts(w.pool, c))
            && (!Acts(w.pool, c) ==> res.0 == w)
    ensures !res.1 ==> && RowBound(w.pool, res.0.pool, i)
                       && Weight(res.0.pool[|w.pool|..]) < EntityWeight(w.pool[j])
                       && res.0.maxAsteroidsDestroyed == w.maxAsteroidsDestroyed
    ensures res.1 ==> res.0.asteroidsShotDirectly == 0 && res.0.asteroidsDestroyedInExplosions == 0
    ensures res.0.maxAsteroidsDestroyed >= w.maxAsteroidsDestroyed && res.0.draws >= w.draws
    ensures res.0.shootCooldown == w.shootCooldown && res.0.homingShootCooldown == w.homingShootCooldown
  {
    var c := Classify(w.pool[i], w.pool[j], i, j);
    ClassifyRoles(w.pool, i, j);
    match c
    case PlayerHit(p, q) =>
      if IsCollide(w.pool[p], w.pool[q]) then (Crashed(w, p, q, rand), true) else (w, false)
    case BossHit(b, u) =>
      if IsCollide(w.pool[b], w.pool[u]) then
        ShotBossChanges(w, b, u, rand);
        (ShotBoss(w, b, u, rand), false)
      else (w, false)
    case RockHit(a, u) =>
      if IsCollide(w.pool[a], w.pool[u]) then
        ShotRockChanges(w, a, u, rand);
        (ShotRock(w, a, u, rand), false)
      else (w, false)
    case NoContact => (w, false)
  }

  /** The inner loop of the scan for i from j on (main.cpp:337-522): the
      pairs (i, j), (i, j + 1), ... up to the end of the list as it grows,
      until the player crashes.  The weight of what is left to visit bounds
      it. */
  function RowFrom(w: World, i: nat, j: nat, rand: nat -> nat): (res: (World, bool))
    requires ValidWorld(w) && i < j <= |w.pool|
    ensures ValidWorld(res.0)
    ensures !res.1 ==> RowBound(w.pool, res.0.pool, i) && res.0.maxAsteroidsDestroyed == w.maxAsteroidsDestroyed
    ensures res.1 ==> res.0.asteroidsShotDirectly == 0 && res.0.asteroidsDestroyedInExplosions == 0
    ensures res.0.maxAsteroidsDestroyed >= w.maxAsteroidsDestroyed && res.0.draws >= w.draws
    ensures res.0.shootCooldown == w.shootCooldown && res.0.homingShootCooldown == w.homingShootCooldown
    decreases Weight(w.pool[j..])
  {
    if j == |w.pool| then (w, false)
    else
      var step := PairStep(w, i, j, rand);
      if step.1 then step
      else
        InnerScanDecreases(w.pool, step.0.pool, j);
        var rest := RowFrom(step.0, i, j + 1, rand);
        assert !rest.1 ==> RowBound(w.pool, rest.0.pool, i) by {
          if !rest.1 {
            RowBoundTransitive(w.pool, step.0.pool, rest.0.pool, i);
          }
        }
        rest
  }

  /** The collision scan from row i on (main.cpp:336-523): the rows i,
      i + 1, ... of the list as it grows, until the player crashes.  Short
      of a crash the scan keeps every old entity's kind and radius and
      appends only inert entities; the best score only changes in a
      crash. */
  function ScanFrom(w: World, i: nat, rand: nat -> nat): (res: (World, bool))
    requires ValidWorld(w) && i <= |w.pool|
    ensures ValidWorld(res.0)
    ensures !res.1 ==> Extends(w.pool, res.0.pool) && res.0.maxAsteroidsDestroyed == w.maxAsteroidsDestroyed
    ensures res.1 ==> res.0.asteroidsShotDirectly == 0 && res.0.asteroidsDestroyedInExplosions == 0
    ensures res.0.maxAsteroidsDestroyed >= w.maxAsteroidsDestroyed && res.0.draws >= w.draws
    ensures res.0.shootCooldown == w.shootCooldown && res.0.homingShootCooldown == w.homingShootCooldown
    decreases TierCount(w.pool[i..], 3), TierCount(w.pool[i..], 2), TierCount(w.pool[i..], 1), |w.pool| - i
  {
    if i == |w.pool| then (w, false)
    else
      var row := RowFrom(w, i, i + 1, rand);
      if row.1 then row
      else
        OuterScanDecreases(w.pool, row.0.pool, i);
        var rest := ScanFrom(row.0, i + 1, rand);
        assert !rest.1 ==> Extends(w.pool, rest.0.pool) by {
          if !rest.1 {
            ExtendsTransitive(w.pool, row.0.pool, rest.0.pool);
          }
        }
        rest
  }

  /** One row of the scan, then the rest of it */
  lemma ScanFromStep(w: World, i: nat, rand: nat -> nat)
    requires ValidWorld(w) && i < |w.pool|
    ensures var row := RowFrom(w, i, i + 1, rand);
            && (!row.1 ==> i + 1 <= |row.0.pool|)
            && ScanFrom(w, i, rand) == if row.1 then row else ScanFrom(row.0, i + 1, rand)
  {
  }

  /** No pair of (i, j), (i, j + 1), ... acts */
  predicate QuietRow(w: World, i: nat, j: nat)
    requires i < j
  {
    forall k {:trigger Classify(w.pool[i], w.pool[k], i, k)} ::
      j <= k < |w.pool| ==> !Acts(w.pool, Classify(w.pool[i], w.pool[k], i, k))
  }

  /** No pair of the list acts: none collides in a way the scan handles. */
  predicate Quiet(w: World) {
    forall a, b {:trigger Classify(w.pool[a], w.pool[b], a, b)} ::
      0 <= a < b < |w.pool| ==> !Acts(w.pool, Classify(w.pool[a], w.pool[b], a, b))
  }

  /** A row none of whose pairs acts changes nothing. */
  lemma {:induction false} QuietRowFrom(w: World, i: nat, j: nat, rand: nat -> nat)
    requires ValidWorld(w) && i < j <= |w.pool| && QuietRow(w, i, j)
    ensures RowFrom(w, i, j, rand) == (w, false)
    decreases |w.pool| - j
  {
    if j < |w.pool| {
      assert PairStep(w, i, j, rand) == (w, false);
      QuietRowFrom(w, i, j + 1, rand);
    }
  }

  /** When no two entities of the list collide in a way the scan handles,
      the scan changes nothing. */
  lemma {:induction false} QuietScan(w: World, i: nat, rand: nat -> nat)
    requires ValidWorld(w) && i <= |w.pool| && Quiet(w)
    ensures ScanFrom(w, i, rand) == (w, false)
    decreases |w.pool| - i
  {
    if i < |w.pool| {
      QuietRowFrom(w, i, i + 1, rand);
      QuietScan(w, i + 1, rand);
      QuietScanStep(w, i, rand);
    } else {
      ScanFromEnd(w, rand);
    }
  }

  /** Past the last row the scan changes nothing. */
  lemma ScanFromEnd(w: World, rand: nat -> nat)
    requires ValidWorld(w)
    ensures ScanFrom(w, |w.pool|, rand) == (w, false)
  {
  }

  /** A row that changes nothing passes the scan on to the next row. */
  lemma QuietScanStep(w: World, i: nat, rand: nat -> nat)
    requires ValidWorld(w) && i < |w.pool| && RowFrom(w, i, i + 1, rand) == (w, false)
    requires ScanFrom(w, i + 1, rand) == (w, false)
    ensures ScanFrom(w, i, rand) == (w, false)
  {
  }

  /** The Enter key (main.cpp:305-312): once the homing cooldown has run
      out, a homing bullet leaves from the player with its heading and the
      cooldown restarts at 1.5; nothing else changes. */
  function Pressed(w: World): (r: World)
    requires ValidWorld(w)
    ensures ValidWorld(r) && r.homingShootCooldown > 0.0
    ensures var fire := w.homingShootCooldown <= 0.0;
            && |r.pool| == |w.pool| + (if fire then 1 else 0) && r.pool[..|w.pool|] == w.pool
            && (fire ==> r.pool[|w.pool|] == FiredHoming(w.pool[PlayerOf(w)]) && r.homingShootCooldown == 1.5)
    ensures r.(pool := w.pool, homingShootCooldown := w.homingShootCooldown) == w
  {
    if w.homingShootCooldown <= 0.0 then
      var b := FiredHoming(w.pool[PlayerOf(w)]);
      AppendKeepsValid(w.pool, [b]);
      assert (w.pool + [b])[..|w.pool|] == w.pool;
      w.(pool := w.pool + [b], homingShootCooldown := 1.5)
    else w
  }

  /** The cooldowns and the held keys (main.cpp:316-333): both cooldowns
      drop by dt; D turns the player right by 3 degrees and A left, W sets
      the thrust; with Space held and the cooldown run out, a regular bullet
      leaves from the player with the new heading and the cooldown restarts
      at 0.15.  Only the player and the cooldowns change, and at most the
      bullet is appended. */
  function Controlled(w: World, input: Input, dt: real): (r: World)
    requires ValidWorld(w)
    ensures ValidWorld(r)
    ensures var p := PlayerOf(w);
            var fired := input.space && w.shootCooldown - dt <= 0.0;
            && |r.pool| == |w.pool| + (if fired then 1 else 0)
            && r.pool[p] == w.pool[p].(angle := Turned(w.pool[p].angle, input.right, input.left), thrust := input.forward)
            && (forall k :: 0 <= k < |w.pool| && k != p ==> r.pool[k] == w.pool[k])
            && (fired ==> r.pool[|w.pool|] == FiredBullet(r.pool[p]) && r.shootCooldown == 0.15)
            && (!fired ==> r.shootCooldown == w.shootCooldown - dt)
            && r.homingShootCooldown == w.homingShootCooldown - dt
    ensures r.(pool := w.pool, shootCooldown := w.shootCooldown, homingShootCooldown := w.homingShootCooldown) == w
  {
    var p := PlayerOf(w);
    var steered := w.pool[p].(angle := Turned(w.pool[p].angle, input.right, input.left), thrust := input.forward);
    var fired := input.space && w.shootCooldown - dt <= 0.0;
    UpdateKeepsValid(w.pool, p, steered);
    AppendKeepsValid(w.pool[p := steered], [FiredBullet(steered)]);
    if fired then
      w.(pool := w.pool[p := steered] + [FiredBullet(steered)], shootCooldown := 0.15,
         homingShootCooldown := w.homingShootCooldown - dt)
    else
      w.(pool := w.pool[p := steered], shootCooldown := w.shootCooldown - dt,
         homingShootCooldown := w.homingShootCooldown - dt)
  }

  /** The player's sprite follows the thrust key (main.cpp:526); nothing
      else changes. */
  function Shown(w: World): (r: World)
    requires ValidWorld(w)
    ensures ValidWorld(r)
    ensures var p := PlayerOf(w);
            && |r.pool| == |w.pool|
            && r.pool[p] == w.pool[p].(anim := if w.pool[p].thrust then PlayerThrustAnim else PlayerAnim)
            && forall k :: 0 <= k < |w.pool| && k != p ==> r.pool[k] == w.pool[k]
    ensures r.(pool := w.pool) == w
  {
    var p := PlayerOf(w);
    var shown := w.pool[p].(anim := if w.pool[p].thrust then PlayerThrustAnim else PlayerAnim);
    UpdateKeepsValid(w.pool, p, shown);
    w.(pool := w.pool[p := shown])
  }

  /** The despawn pass (main.cpp:527-534): exactly the entities that are not
      removed stay, and the explosion score gains the kills of the blast
      waves removed; nothing else changes. */
  function Despawned(w: World): (r: World)
    requires ValidWorld(w)
    ensures ValidWorld(r)
    ensures forall e :: e in r.pool <==> e in w.pool && !Removed(e)
    ensures r.asteroidsDestroyedInExplosions == w.asteroidsDestroyedInExplosions + TotalCredit(w.pool)
    ensures r.(pool := w.pool, asteroidsDestroyedInExplosions := w.asteroidsDestroyedInExplosions) == w
  {
    SurvivorsKeepPlayers(w.pool);
    SurvivorsMembers(w.pool);
    w.(pool := Survivors(w.pool), asteroidsDestroyedInExplosions := w.asteroidsDestroyedInExplosions + TotalCredit(w.pool))
  }

  /** The spawn rule (main.cpp:537-547) on the score after the despawn pass:
      the entity SpawnDecision chooses is appended, with the rolls made
      first; a boss is counted and sets bossSpawned.  The pool keeps what it
      had, and nothing but the pool, the boss count, bossSpawned and the
      draws changes. */
  function SpawnedIn(w: World, rand: nat -> nat): (r: World)
    requires ValidWorld(w)
    ensures ValidWorld(r)
    ensures |w.pool| <= |r.pool| <= |w.pool| + 1 && r.pool[..|w.pool|] == w.pool
    ensures r.draws >= w.draws && (r.bossSpawned <== w.bossSpawned)
    ensures r.(pool := w.pool, draws := w.draws, activeBossCount := w.activeBossCount, bossSpawned := w.bossSpawned) == w
  {
    var s := SpawnDecision(Score(w), w.activeBossCount, w.bossSpawned, rand, w.draws);
    var start := w.draws + SpawnRolls(Score(w), w.activeBossCount, w.bossSpawned, rand, w.draws);
    AppendKeepsValid(w.pool, Spawned(s, rand, start));
    assert (w.pool + Spawned(s, rand, start))[..|w.pool|] == w.pool;
    w.(pool := w.pool + Spawned(s, rand, start), draws := start + SpawnCost(s),
       activeBossCount := w.activeBossCount + (if s == SpawnBoss then 1 else 0),
       bossSpawned := s == SpawnBoss || w.bossSpawned)
  }

  /** SpawnedIn taken apart: the decision and the draw counter after the
      rolls give the new world field by field. */
  lemma SpawnedInParts(w: World, rand: nat -> nat, s: Spawn, start: nat)
    requires ValidWorld(w)
    requires s == SpawnDecision(Score(w), w.activeBossCount, w.bossSpawned, rand, w.draws)
    requires start == w.draws + SpawnRolls(Score(w), w.activeBossCount, w.bossSpawned, rand, w.draws)
    ensures var r := SpawnedIn(w, rand);
            && r.pool == w.pool + Spawned(s, rand, start) && r.draws == start + SpawnCost(s)
            && r.activeBossCount == w.activeBossCount + (if s == SpawnBoss then 1 else 0)
            && r.bossSpawned == (s == SpawnBoss || w.bossSpawned)
  {
  }

  /** The update pass (main.cpp:549-555): every entity is updated in list
      order and is settled afterwards; kinds and radii are kept, and
      nothing but the pool changes. */
  function Updated(w: World, libm: Libm): (r: World)
    requires ValidWorld(w)
    ensures ValidWorld(r) && SameShapes(r.pool, w.pool)
    ensures forall k :: 0 <= k < |r.pool| ==> Settled(r.pool[k])
    ensures r.(pool := w.pool) == w
  {
    UpdatedFromFacts(w.pool, 0, libm);
    CountKindSameShapes(UpdatedFrom(w.pool, 0, libm), w.pool, Player);
    w.(pool := UpdatedFrom(w.pool, 0, libm))
  }

  /** One frame of the game loop while it is not paused (main.cpp:305-555):
      the Enter key, the controls, the collision scan, the thrust sprite,
      the despawn pass, the spawn rule and the update pass, in that order,
      and whether the player crashed.  Afterwards the state is valid, every
      entity is settled, and the best score changes only in a crash, which
      never lowers it. */
  function Frame(w: World, input: Input, dt: real, rand: nat -> nat, libm: Libm): (res: (World, bool))
    requires ValidWorld(w)
    ensures ValidWorld(res.0)
    ensures forall k :: 0 <= k < |res.0.pool| ==> Settled(res.0.pool[k])
    ensures res.0.maxAsteroidsDestroyed >= w.maxAsteroidsDestroyed
    ensures !res.1 ==> res.0.maxAsteroidsDestroyed == w.maxAsteroidsDestroyed
    ensures res.0.draws >= w.draws
  {
    var pressed := if input.enter then Pressed(w) else w;
    var scanned := ScanFrom(Controlled(pressed, input, dt), 0, rand);
    var despawned := Despawned(Shown(scanned.0));
    (Updated(SpawnedIn(despawned, rand), libm), scanned.1)
  }

  class Game {
    var pool: seq<Entity>
    var bossSpawned: bool
    var asteroidsShotDirectly: int
    var asteroidsDestroyedInExplosions: int
    var maxAsteroidsDestroyed: int
    var activeBossCount: int
    var shootCooldown: real
    var homingShootCooldown: real
    /** The number of rand() calls made so far */
    var draws: nat
    /** The values rand() returns, in order */
    const rand: nat -> nat
    /** cos, sin, atan2 and sqrt */
    const libm: Libm

    /** The fields as one value */
    ghost function State(): World
      reads this
    {
      World(pool, bossSpawned, asteroidsShotDirectly, asteroidsDestroyedInExplosions,
            maxAsteroidsDestroyed, activeBossCount, shootCooldown, homingShootCooldown, draws)
    }

    ghost predicate Valid()
      reads this
    {
      ValidWorld(State())
    }

    /** playerPtr: the index of the one player */
    function PlayerIndex(): (p: nat)
      reads this
      requires Valid()
      ensures p < |pool| && pool[p].kind == Player
      ensures forall k :: 0 <= k < |pool| && k != p ==> pool[k].kind != Player
    {
      FirstOfKind(pool, Player)
    }

    /** The start of the game (main.cpp:14-19, 203-214) */
    constructor (rand: nat -> nat, libm: Libm)
      ensures Valid()
      ensures this.rand == rand && this.libm == libm
      ensures pool == InitialField(rand, 0, INITIAL_ASTEROIDS) + [StartPlayer()]
      ensures draws == INITIAL_ASTEROIDS * INITIAL_DRAWS
      ensures !bossSpawned && activeBossCount == 0
      ensures asteroidsShotDirectly == 0 && asteroidsDestroyedInExplosions == 0 && maxAsteroidsDestroyed == 0
      ensures shootCooldown == 0.0 && homingShootCooldown == 0.0
    {
      this.rand := rand;
      this.libm := libm;
      pool := [];
      bossSpawned := false;
      asteroidsShotDirectly := 0;
      asteroidsDestroyedInExplosions := 0;
      maxAsteroidsDestroyed := 0;
      activeBossCount := 0;
      shootCooldown := 0.0;
      homingShootCooldown := 0.0;
      draws := 0;
      new;
      SpawnInitialAsteroids();
      StartKeepsValid(pool);
      pool := pool + [StartPlayer()];
    }

    /** One call of rand() */
    method Roll() returns (v: nat)
      modifies this`draws
      ensures v == rand(old(draws)) && draws == old(draws) + 1
    {
      v := rand(draws);
      draws := draws + 1;
    }

    /** spawnInitialAsteroids (main.cpp:27-33) */
    method SpawnInitialAsteroids()
      modifies this`pool, this`draws
      ensures pool == old(pool) + InitialField(rand, old(draws), INITIAL_ASTEROIDS)
      ensures draws == old(draws) + INITIAL_ASTEROIDS * INITIAL_DRAWS
    {
      var i := 0;
      while i < INITIAL_ASTEROIDS
        invariant i <= INITIAL_ASTEROIDS
        invariant pool == old(pool) + InitialField(rand, old(draws), i)
        invariant draws == old(draws) + i * INITIAL_DRAWS
      {
        assert InitialField(rand, old(draws), i + 1) ==
               InitialField(rand, old(draws), i) + [InitialAsteroid(rand, draws)];
        pool := pool + [InitialAsteroid(rand, draws)];
        draws := draws + INITIAL_DRAWS;
        i := i + 1;
      }
    }

    /** spawnBossAsteroid (main.cpp:35-43) */
    method SpawnBossAsteroid()
      modifies this`pool, this`draws, this`activeBossCount, this`bossSpawned
      ensures pool == old(pool) + [SpawnedBoss(rand, old(draws))]
      ensures draws == old(draws) + BOSS_DRAWS
      ensures activeBossCount == old(activeBossCount) + 1 && bossSpawned
    {
      pool := pool + [SpawnedBoss(rand, draws)];
      draws := draws + BOSS_DRAWS;
      activeBossCount := activeBossCount + 1;
      bossSpawned := true;
    }

    /** The asteroid of the random trickle (main.cpp:544-546) */
    method SpawnTrickleAsteroid()
      modifies this`pool, this`draws
      ensures pool == old(pool) + [TrickleAsteroid(rand, old(draws))]
      ensures draws == old(draws) + TRICKLE_DRAWS
    {
      pool := pool + [TrickleAsteroid(rand, draws)];
      draws := draws + TRICKLE_DRAWS;
    }

    /** The four pieces of a destroyed boss (main.cpp:411-420, 451-460) */
    method SpawnBossChildren(boss: Entity)
      modifies this`pool, this`draws
      ensures pool == old(pool) + BossChildren(rand, old(draws), boss, 4)
      ensures draws == old(draws) + 4 * CHILD_DRAWS
    {
      var i := 0;
      while i < 4
        invariant i <= 4
        invariant pool == old(pool) + BossChildren(rand, old(draws), boss, i)
        invariant draws == old(draws) + i * CHILD_DRAWS
      {
        assert BossChildren(rand, old(draws), boss, i + 1) ==
               BossChildren(rand, old(draws), boss, i) + [BossChild(rand, draws, boss)];
        pool := pool + [BossChild(rand, draws, boss)];
        draws := draws + CHILD_DRAWS;
        i := i + 1;
      }
    }

    /** The two pieces of a large asteroid (main.cpp:483-489, 513-519) */
    method SplitRock(rock: Entity)
      modifies this`pool, this`draws
      ensures pool == old(pool) + SplitChildren(rand, old(draws), rock, 2)
      ensures draws == old(draws) + 2 * SPLIT_DRAWS
    {
      var i := 0;
      while i < 2
        invariant i <= 2
        invariant pool == old(pool) + SplitChildren(rand, old(draws), rock, i)
        invariant draws == old(draws) + i * SPLIT_DRAWS
      {
        assert SplitChildren(rand, old(draws), rock, i + 1) ==
               SplitChildren(rand, old(draws), rock, i) + [SplitChild(rand, draws, rock)];
        pool := pool + [SplitChild(rand, draws, rock)];
        draws := draws + SPLIT_DRAWS;
        i := i + 1;
      }
    }

    /** The player meets an asteroid or a boss (main.cpp:348-384).  In the
        C++ the clear destroys an entity that an iterator of the scan still
        points to, so the scan cannot go on; here the crash ends the scan.
        The reset of the player, which the C++ does last, is applied before
        the clear, which keeps the player wherever it is in the list. */
    method CrashPlayer(p: nat, q: nat)
      requires Valid() && p < |pool| && q < |pool| && pool[p].kind == Player && IsRock(pool[q])
      modifies this`pool, this`draws, this`activeBossCount, this`asteroidsShotDirectly,
               this`asteroidsDestroyedInExplosions, this`maxAsteroidsDestroyed
      ensures State() == Crashed(old(State()), p, q, rand)
      ensures Valid()
    {
      var player, rock := pool[p], pool[q];
      var wasBoss := rock.kind == Boss;
      var struck := if wasBoss then rock.(life := false, spawnChildren := false) else rock.(life := false);
      var explosion := ExplosionAt(if wasBoss then BossExplosionAnim else ShipExplosionAnim, player.x, player.y);
      CrashKeepsValid(pool, p, q, struck, rand, draws, explosion);
      pool := pool[q := struck];
      if wasBoss {
        activeBossCount := activeBossCount - 1;
      }
      var totalDestroyed := asteroidsShotDirectly + asteroidsDestroyedInExplosions;
      maxAsteroidsDestroyed := if maxAsteroidsDestroyed >= totalDestroyed then maxAsteroidsDestroyed else totalDestroyed;
      asteroidsShotDirectly := 0;
      asteroidsDestroyedInExplosions := 0;
      RestartField(p, player, explosion);
    }

    /** The second half of the crash (main.cpp:361-375): the combatants go,
        the field's fifteen asteroids come back, the explosion is added at
        the end. */
    method RestartField(p: nat, player: Entity, explosion: Entity)
      requires p < |pool|
      modifies this`pool, this`draws, this`activeBossCount
      ensures pool == Cleared(old(pool)[p := ResetPlayer(player)]) + InitialField(rand, old(draws), INITIAL_ASTEROIDS) + [explosion]
      ensures draws == old(draws) + INITIAL_ASTEROIDS * INITIAL_DRAWS && activeBossCount == 0
    {
      pool := Cleared(pool[p := ResetPlayer(player)]);
      activeBossCount := 0;
      SpawnInitialAsteroids();
      pool := pool + [explosion];
    }

    /** A regular or homing bullet meets a boss (main.cpp:387-425, 427-465) */
    method HitBoss(b: nat, u: nat)
      requires Valid() && b < |pool| && u < |pool| && b != u
      requires pool[b].kind == Boss && IsAnyBullet(pool[u])
      modifies this`pool, this`draws, this`activeBossCount, this`bossSpawned, this`asteroidsShotDirectly
      ensures State() == ShotBoss(old(State()), b, u, rand)
      ensures Valid()
    {
      ghost var r := ShotBoss(State(), b, u, rand);
      var boss, shot := pool[b], pool[u];
      ghost var hit, d0 := pool[u := shot.(life := false)][b := Struck(boss, shot)], draws;
      pool := pool[u := shot.(life := false)];
      pool := pool[b := Struck(boss, shot)];
      pool := pool + [HitFlash(shot)];
      ghost var s1 := pool;
      if Struck(boss, shot).health <= 0 {
        KillBoss(boss);
      }
      BossDebrisInOrder(hit, boss, shot, rand, d0, s1, pool);
      assert pool == r.pool && draws == r.draws && activeBossCount == r.activeBossCount;
      assert bossSpawned == r.bossSpawned && asteroidsShotDirectly == r.asteroidsShotDirectly;
    }

    /** The kill of main.cpp:403-424, 443-464: the boss count drops, the
        boss explodes, its children (if it has any) join the pool, and the
        kill is worth 10. */
    method KillBoss(boss: Entity)
      modifies this`pool, this`draws, this`activeBossCount, this`bossSpawned, this`asteroidsShotDirectly
      ensures pool == old(pool) + [ExplosionAt(BossExplosionAnim, boss.x, boss.y)]
                      + (if boss.spawnChildren then BossChildren(rand, old(draws), boss, 4) else [])
      ensures draws == old(draws) + (if boss.spawnChildren then 4 * CHILD_DRAWS else 0)
      ensures activeBossCount == old(activeBossCount) - 1
      ensures bossSpawned == (activeBossCount > 0)
      ensures asteroidsShotDirectly == old(asteroidsShotDirectly) + 10
    {
      activeBossCount := activeBossCount - 1;
      pool := pool + [ExplosionAt(BossExplosionAnim, boss.x, boss.y)];
      if boss.spawnChildren {
        SpawnBossChildren(boss);
      } else {
        assert pool + [] == pool;
      }
      bossSpawned := activeBossCount > 0;
      asteroidsShotDirectly := asteroidsShotDirectly + 10;
    }

    /** A regular or homing bullet meets an asteroid (main.cpp:467-490,
        492-523) */
    method HitRock(a: nat, u: nat)
      requires Valid() && a < |pool| && u < |pool| && a != u
      requires pool[a].kind == Asteroid && IsAnyBullet(pool[u])
      modifies this`pool, this`draws, this`asteroidsShotDirectly
      ensures State() == ShotRock(old(State()), a, u, rand)
      ensures Valid()
    {
      var rock, shot := pool[a], pool[u];
      pool := pool[a := rock.(life := false)];
      pool := pool[u := shot.(life := false)];
      asteroidsShotDirectly := asteroidsShotDirectly + 1;
      ShatterRock(rock, shot);
    }

    /** The debris of main.cpp:479-489, 504-519, appended in the order the
        code makes it: the explosion, the blast wave of a homing bullet, and
        the two pieces of a large asteroid. */
    method ShatterRock(rock: Entity, shot: Entity)
      requires rock.kind == Asteroid && IsAnyBullet(shot)
      modifies this`pool, this`draws
      ensures pool == old(pool) + RockDebris(rock, shot, rand, old(draws))
      ensures draws == old(draws) + (if rock.r != SMALL_R then 2 * SPLIT_DRAWS else 0)
    {
      ghost var h, d0 := pool, draws;
      pool := pool + [ExplosionAt(ExplosionAnim, rock.x, rock.y)];
      ghost var s1 := pool;
      if shot.kind == HomingBullet {
        pool := pool + [BlastAt(rock)];
      }
      ghost var s2 := pool;
      if rock.r != SMALL_R {
        SplitRock(rock);
      }
      RockDebrisInOrder(h, rock, shot, rand, d0, s1, s2, pool);
    }

    /** One pair of the scan, i before j (main.cpp:338-521) */
    method VisitPair(i: nat, j: nat) returns (ended: bool)
      requires Valid() && i < j < |pool|
      modifies this`pool, this`draws, this`activeBossCount, this`bossSpawned, this`asteroidsShotDirectly,
               this`asteroidsDestroyedInExplosions, this`maxAsteroidsDestroyed
      ensures (State(), ended) == PairStep(old(State()), i, j, rand)
      ensures Valid()
    {
      ended := false;
      var c := Classify(pool[i], pool[j], i, j);
      ClassifyRoles(pool, i, j);
      match c {
        case PlayerHit(player, rock) =>
          if IsCollide(pool[player], pool[rock]) {
            CrashPlayer(player, rock);
            ended := true;
          }
        case BossHit(boss, shot) =>
          if IsCollide(pool[boss], pool[shot]) {
            HitBoss(boss, shot);
          }
        case RockHit(rock, shot) =>
          if IsCollide(pool[rock], pool[shot]) {
            HitRock(rock, shot);
          }
        case NoContact =>
      }
    }

    /** The inner loop of the collision scan for index i
        (main.cpp:337-522): every j after i, up to the end of the list as
        it grows, until the player crashes. */
    method ScanRow(i: nat) returns (ended: bool)
      requires Valid() && i < |pool|
      modifies this`pool, this`draws, this`activeBossCount, this`bossSpawned, this`asteroidsShotDirectly,
               this`asteroidsDestroyedInExplosions, this`maxAsteroidsDestroyed
      ensures (State(), ended) == RowFrom(old(State()), i, i + 1, rand)
      ensures Valid()
    {
      ended := false;
      var j := i + 1;
      while j < |pool|
        invariant Valid() && i + 1 <= j <= |pool|
        invariant RowFrom(State(), i, j, rand) == RowFrom(old(State()), i, i + 1, rand)
        decreases Weight(pool[j..])
      {
        ghost var w := State();
        ended := VisitPair(i, j);
        if ended {
          return;
        }
        InnerScanDecreases(w.pool, pool, j);
        j := j + 1;
      }
    }

    /** The collision scan (main.cpp:336-523): every pair i < j of the list
        as it grows, the later index running fastest, until the player
        crashes; it reports whether the player did. */
    method Scan() returns (reset: bool)
      requires Valid()
      modifies this`pool, this`draws, this`activeBossCount, this`bossSpawned, this`asteroidsShotDirectly,
               this`asteroidsDestroyedInExplosions, this`maxAsteroidsDestroyed
      ensures (State(), reset) == ScanFrom(old(State()), 0, rand)
      ensures Valid()
    {
      ghost var goal := ScanFrom(State(), 0, rand);
      reset := false;
      var i := 0;
      while i < |pool|
        invariant Valid() && i <= |pool|
        invariant ScanFrom(State(), i, rand) == goal
        decreases TierCount(pool[i..], 3), TierCount(pool[i..], 2), TierCount(pool[i..], 1), |pool| - i
      {
        ghost var p := pool;
        reset := ScanStep(i);
        if reset {
          return;
        }
        OuterScanDecreases(p, pool, i);
        i := i + 1;
      }
    }

    /** Row i of the scan, and what is left of the scan after it */
    method ScanStep(i: nat) returns (reset: bool)
      requires Valid() && i < |pool|
      modifies this`pool, this`draws, this`activeBossCount, this`bossSpawned, this`asteroidsShotDirectly,
               this`asteroidsDestroyedInExplosions, this`maxAsteroidsDestroyed
      ensures Valid()
      ensures !reset ==> RowBound(old(pool), pool, i)
      ensures ScanFrom(old(State()), i, rand) == if reset then (State(), true) else ScanFrom(State(), i + 1, rand)
    {
      ghost var w := State();
      reset := ScanRow(i);
      ScanFromStep(w, i, rand);
    }

    /** The player's sprite follows the thrust key (main.cpp:526). */
    method ShowThrust()
      requires Valid()
      modifies this`pool
      ensures State() == Shown(old(State()))
      ensures Valid()
    {
      var p := PlayerIndex();
      var shown := pool[p].(anim := if pool[p].thrust then PlayerThrustAnim else PlayerAnim);
      pool := pool[p := shown];
    }

    /** The despawn pass (main.cpp:527-534) */
    method Despawn()
      requires Valid()
      modifies this`pool, this`asteroidsDestroyedInExplosions
      ensures State() == Despawned(old(State()))
      ensures Valid()
    {
      var kept := Sweep();
      pool := kept;
    }

    /** The walk of the despawn pass over the list (main.cpp:527-535): the
        kills of each finished blast wave are credited as it is met, and
        what survives is collected in order. */
    method Sweep() returns (kept: seq<Entity>)
      modifies this`asteroidsDestroyedInExplosions
      ensures kept == Survivors(pool)
      ensures asteroidsDestroyedInExplosions == old(asteroidsDestroyedInExplosions) + TotalCredit(pool)
    {
      kept := [];
      var k := 0;
      while k < |pool|
        invariant k <= |pool|
        invariant kept == Survivors(pool[..k])
        invariant asteroidsDestroyedInExplosions == old(asteroidsDestroyedInExplosions) + TotalCredit(pool[..k])
      {
        var e := pool[k];
        if e.kind == ExplosionEffect && !e.life {
          asteroidsDestroyedInExplosions := asteroidsDestroyedInExplosions + e.damageDealt;
        }
        if !((e.kind == Explosion && IsEnd(e.anim)) || (e.kind == ExplosionEffect && !e.life) || !e.life) {
          kept := kept + [e];
        }
        assert pool[..k + 1] == pool[..k] + [e];
        SurvivorsAppend(pool[..k], [e]);
        assert Survivors([e]) == (if Removed(e) then [] else [e]) + Survivors([]);
        k := k + 1;
      }
      assert pool[..|pool|] == pool;
    }

    /** The spawn rule (main.cpp:537-547) */
    method SpawnStep()
      requires Valid()
      modifies this`pool, this`draws, this`activeBossCount, this`bossSpawned
      ensures State() == SpawnedIn(old(State()), rand)
      ensures Valid()
    {
      ghost var w := State();
      ghost var r := SpawnedIn(w, rand);
      var decision := RollSpawn();
      assert decision == SpawnDecision(Score(w), w.activeBossCount, w.bossSpawned, rand, w.draws);
      SpawnedInParts(w, rand, decision, draws);
      SpawnChosen(decision);
      assert pool == r.pool && draws == r.draws;
      assert activeBossCount == r.activeBossCount && bossSpawned == r.bossSpawned;
    }

    /** The entity the spawn rule chose, if any (main.cpp:541, 544-546) */
    method SpawnChosen(s: Spawn)
      requires Valid() && (s == SpawnBoss ==> activeBossCount < MAX_BOSS_ASTEROIDS)
      modifies this`pool, this`draws, this`activeBossCount, this`bossSpawned
      ensures Valid()
      ensures pool == old(pool) + Spawned(s, rand, old(draws)) && draws == old(draws) + SpawnCost(s)
      ensures activeBossCount == old(activeBossCount) + (if s == SpawnBoss then 1 else 0)
      ensures bossSpawned == (s == SpawnBoss || old(bossSpawned))
    {
      AppendKeepsValid(pool, Spawned(s, rand, draws));
      match s {
        case SpawnBoss => SpawnBossAsteroid();
        case SpawnTrickle => SpawnTrickleAsteroid();
        case SpawnNone => assert pool + [] == pool;
      }
    }

    /** The conditions of the spawn rule (main.cpp:537-543), with the rolls
        they make: the rand() % 150 roll happens only when no boss rolled. */
    method RollSpawn() returns (s: Spawn)
      modifies this`draws
      ensures var score := asteroidsShotDirectly + asteroidsDestroyedInExplosions;
              && s == SpawnDecision(score, activeBossCount, bossSpawned, rand, old(draws))
              && draws == old(draws) + SpawnRolls(score, activeBossCount, bossSpawned, rand, old(draws))
    {
      ghost var d := draws;
      var currentScore := asteroidsShotDirectly + asteroidsDestroyedInExplosions;
      var bossRoll := false;
      if currentScore >= BOSS_TRIGGER_SCORE && activeBossCount < MAX_BOSS_ASTEROIDS {
        var v := Roll();
        bossRoll := v % 100 == 0;
      }
      if bossRoll {
        s := SpawnBoss;
      } else if !bossSpawned {
        var v := Roll();
        s := if v % 150 == 0 then SpawnTrickle else SpawnNone;
      } else {
        s := SpawnNone;
      }
    }

    /** The update pass (main.cpp:549-555) */
    method UpdateAll()
      requires Valid()
      modifies this`pool
      ensures State() == Updated(old(State()), libm)
      ensures Valid()
    {
      pool := UpdatePool(pool, libm);
    }

    /** The Enter key (main.cpp:305-312) */
    method PressEnter()
      requires Valid()
      modifies this`pool, this`homingShootCooldown
      ensures State() == Pressed(old(State()))
      ensures Valid()
    {
      if homingShootCooldown <= 0.0 {
        var b := FiredHoming(pool[PlayerIndex()]);
        pool := pool + [b];
        homingShootCooldown := 1.5;
      }
    }

    /** The cooldowns, the held keys D, A and W, and Space (main.cpp:316-333) */
    method Controls(input: Input, dt: real)
      requires Valid()
      modifies this`pool, this`shootCooldown, this`homingShootCooldown
      ensures State() == Controlled(old(State()), input, dt)
      ensures Valid()
    {
      shootCooldown := shootCooldown - dt;
      homingShootCooldown := homingShootCooldown - dt;
      var p := PlayerIndex();
      var steered := pool[p].(angle := Turned(pool[p].angle, input.right, input.left), thrust := input.forward);
      UpdateKeepsValid(pool, p, steered);
      pool := pool[p := steered];
      if input.space && shootCooldown <= 0.0 {
        FireBullet(steered);
      } else {
        assert pool + [] == pool;
      }
    }

    /** A regular bullet leaves from the player and the cooldown restarts
        (main.cpp:328-331). */
    method FireBullet(player: Entity)
      requires Valid()
      modifies this`pool, this`shootCooldown
      ensures Valid()
      ensures pool == old(pool) + [FiredBullet(player)] && shootCooldown == 0.15
    {
      AppendKeepsValid(pool, [FiredBullet(player)]);
      pool := pool + [FiredBullet(player)];
      shootCooldown := 0.15;
    }

    /** One frame of the game while it is not paused (main.cpp:305-555) */
    method Tick(input: Input, dt: real) returns (reset: bool)
      requires Valid()
      modifies this
      ensures (State(), reset) == Frame(old(State()), input, dt, rand, libm)
      ensures Valid()
    {
      if input.enter {
        PressEnter();
      }
      Controls(input, dt);
      reset := Scan();
      ShowThrust();
      Despawn();
      SpawnStep();
      UpdateAll();
    }
  }
}
