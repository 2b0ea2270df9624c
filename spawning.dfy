/** Every entity the game creates, as a function of the rand() results it
    consumes.  rand is the sequence of values the C library's rand() returns,
    and d the number of calls made before; a spawn that makes n calls reads
    rand(d), ..., rand(d + n - 1).  The arguments of one call are taken to be
    evaluated left to right. */
module Spawning {
  import opened Entities

  /** The rand() calls made by each kind of spawn */
  const INITIAL_DRAWS: nat := 5  // Asteroid(): 2, settings: x, y, angle
  const SPLIT_DRAWS: nat := 3    // Asteroid(): 2, settings: angle
  const CHILD_DRAWS: nat := 5    // Asteroid(): 2, settings: angle, then dx, dy
  const BOSS_DRAWS: nat := 7     // BossAsteroid(): 2, settings: x, y, angle, then dx, dy
  const TRICKLE_DRAWS: nat := 4  // Asteroid(): 2, settings: y, angle

  /** A whole number of degrees in [0, 360), as rand() % 360 gives */
  function Heading(v: nat): real {
    (v % 360) as real
  }

  lemma HeadingRange(v: nat)
    ensures IsIntIn(Heading(v), 0, 359)
  {
  }

  /** A large asteroid as the game creates it, still alive */
  predicate IsLargeRock(e: Entity) {
    e.kind == Asteroid && e.life && e.r == 25.0 && e.anim == RockAnim && WellFormed(e)
  }

  /** Small asteroid pieces: what splitting and boss deaths append */
  predicate IsPiece(e: Entity) {
    e.kind == Asteroid && e.life && e.r == SMALL_R && e.anim == RockSmallAnim && WellFormed(e)
  }

  /** Where spawnInitialAsteroids puts an asteroid (main.cpp:29-30): on a
      whole pixel of the arena, with a whole heading and whole velocity
      components in [-4, 3]. */
  predicate IsFreshRock(e: Entity) {
    && IsLargeRock(e)
    && IsIntIn(e.x, 0, W - 1) && IsIntIn(e.y, 0, H - 1) && IsIntIn(e.angle, 0, 359)
    && IsIntIn(e.dx, -4, 3) && IsIntIn(e.dy, -4, 3)
  }

  /** One asteroid of spawnInitialAsteroids (main.cpp:29-31) */
  function InitialAsteroid(rand: nat -> nat, d: nat): (e: Entity)
    ensures IsLargeRock(e)
  {
    Settings(NewAsteroid(rand(d), rand(d + 1)), RockAnim,
             rand(d + 2) % W, rand(d + 3) % H, Heading(rand(d + 4)), 25)
  }

  lemma InitialAsteroidPlacement(rand: nat -> nat, d: nat)
    ensures IsFreshRock(InitialAsteroid(rand, d))
  {
    AsteroidDrift(rand(d), rand(d + 1));
    HeadingRange(rand(d + 4));
  }

  /** The n asteroids the first n iterations of spawnInitialAsteroids append
      (main.cpp:27-33) */
  function InitialField(rand: nat -> nat, d: nat, n: nat): (s: seq<Entity>)
    ensures |s| == n
    ensures forall k :: 0 <= k < n ==> IsLargeRock(s[k])
  {
    seq(n, k requires 0 <= k < n => InitialAsteroid(rand, d + INITIAL_DRAWS * k))
  }

  /** Every asteroid of the field is placed inside the arena. */
  lemma InitialFieldPlacement(rand: nat -> nat, d: nat, n: nat)
    ensures forall k :: 0 <= k < n ==> IsFreshRock(InitialField(rand, d, n)[k])
  {
    forall k | 0 <= k < n ensures IsFreshRock(InitialField(rand, d, n)[k]) {
      InitialAsteroidPlacement(rand, d + INITIAL_DRAWS * k);
    }
  }

  /** A boss as spawnBossAsteroid creates it (main.cpp:35-43) */
  function SpawnedBoss(rand: nat -> nat, d: nat): (b: Entity)
    ensures b.kind == Boss && b.life && b.r == 80.0 && b.anim == BossRockAnim
    ensures b.health == BOSS_MAX_HEALTH && b.spawnChildren
    ensures WellFormed(b)
  {
    var boss := NewBoss(rand(d), rand(d + 1));
    Settings(boss, BossRockAnim, rand(d + 2) % (W - 200) + 100, rand(d + 3) % (H - 200) + 100,
             Heading(rand(d + 4)), 80).(dx := BossSpeed(rand(d + 5)), dy := BossSpeed(rand(d + 6)))
  }

  /** A boss appears at least 100 pixels from every edge, and its velocity
      comes from the last two of its seven rand() results. */
  lemma BossPlacement(rand: nat -> nat, d: nat)
    ensures var b := SpawnedBoss(rand, d);
            && IsIntIn(b.x, 100, W - 101) && IsIntIn(b.y, 100, H - 101) && IsIntIn(b.angle, 0, 359)
            && b.dx == BossSpeed(rand(d + 5)) && b.dy == BossSpeed(rand(d + 6))
  {
    HeadingRange(rand(d + 4));
  }

  /** A small piece of a large asteroid that was shot (main.cpp:485-487,
      515-517): placed at the parent's position, truncated to whole pixels. */
  function SplitChild(rand: nat -> nat, d: nat, parent: Entity): (e: Entity)
    ensures IsPiece(e)
    ensures e.x == Trunc(parent.x) as real && e.y == Trunc(parent.y) as real
  {
    Settings(NewAsteroid(rand(d), rand(d + 1)), RockSmallAnim,
             Trunc(parent.x), Trunc(parent.y), Heading(rand(d + 2)), 15)
  }

  lemma SplitChildMotion(rand: nat -> nat, d: nat, parent: Entity)
    ensures var e := SplitChild(rand, d, parent);
            IsIntIn(e.dx, -4, 3) && IsIntIn(e.dy, -4, 3) && IsIntIn(e.angle, 0, 359)
  {
    AsteroidDrift(rand(d), rand(d + 1));
    HeadingRange(rand(d + 2));
  }

  /** The pieces the first n iterations of the split loop append */
  function SplitChildren(rand: nat -> nat, d: nat, parent: Entity, n: nat): (s: seq<Entity>)
    ensures |s| == n
    ensures forall k :: 0 <= k < n ==> IsPiece(s[k])
    ensures forall k :: 0 <= k < n ==> s[k].x == Trunc(parent.x) as real && s[k].y == Trunc(parent.y) as real
  {
    seq(n, k requires 0 <= k < n => SplitChild(rand, d + SPLIT_DRAWS * k, parent))
  }

  /** One of the small asteroids a destroyed boss leaves (main.cpp:413-418,
      453-458): at the boss's truncated position, with half the boss's
      velocity plus a whole-number jitter. */
  function BossChild(rand: nat -> nat, d: nat, boss: Entity): (e: Entity)
    ensures IsPiece(e)
    ensures e.x == Trunc(boss.x) as real && e.y == Trunc(boss.y) as real
  {
    var a := Settings(NewAsteroid(rand(d), rand(d + 1)), RockSmallAnim,
                      Trunc(boss.x), Trunc(boss.y), Heading(rand(d + 2)), 15);
    a.(dx := boss.dx * 0.5 + (rand(d + 3) % 4 - 2) as real, dy := boss.dy * 0.5 + (rand(d + 4) % 4 - 2) as real)
  }

  /** The jitter is a whole number in [-2, 1]. */
  lemma BossChildMotion(rand: nat -> nat, d: nat, boss: Entity)
    ensures var e := BossChild(rand, d, boss);
            && IsIntIn(e.dx - boss.dx * 0.5, -2, 1) && IsIntIn(e.dy - boss.dy * 0.5, -2, 1)
            && IsIntIn(e.angle, 0, 359)
  {
    var jx, jy := (rand(d + 3) % 4 - 2) as real, (rand(d + 4) % 4 - 2) as real;
    assert boss.dx * 0.5 + jx - boss.dx * 0.5 == jx;
    assert boss.dy * 0.5 + jy - boss.dy * 0.5 == jy;
    HeadingRange(rand(d + 2));
  }

  function BossChildren(rand: nat -> nat, d: nat, boss: Entity, n: nat): (s: seq<Entity>)
    ensures |s| == n
    ensures forall k :: 0 <= k < n ==> IsPiece(s[k])
    ensures forall k :: 0 <= k < n ==> s[k].x == Trunc(boss.x) as real && s[k].y == Trunc(boss.y) as real
  {
    seq(n, k requires 0 <= k < n => BossChild(rand, d + CHILD_DRAWS * k, boss))
  }

  /** The asteroid the random trickle spawns at the left edge (main.cpp:543-547) */
  function TrickleAsteroid(rand: nat -> nat, d: nat): (e: Entity)
    ensures IsLargeRock(e) && e.x == 0.0
  {
    Settings(NewAsteroid(rand(d), rand(d + 1)), RockAnim, 0, rand(d + 2) % H, Heading(rand(d + 3)), 25)
  }

  lemma TricklePlacement(rand: nat -> nat, d: nat)
    ensures var e := TrickleAsteroid(rand, d);
            && IsIntIn(e.y, 0, H - 1) && IsIntIn(e.angle, 0, 359)
            && IsIntIn(e.dx, -4, 3) && IsIntIn(e.dy, -4, 3)
  {
    AsteroidDrift(rand(d), rand(d + 1));
    HeadingRange(rand(d + 3));
  }

  /** An explosion animation at a truncated position, with the default
      heading 0 and radius 1 of settings */
  function ExplosionAt(a: Animation, x: real, y: real): (e: Entity)
    requires AnimInRange(a)
    ensures e.kind == Explosion && e.life && e.anim == a && e.r == 1.0
    ensures e.x == Trunc(x) as real && e.y == Trunc(y) as real
    ensures WellFormed(e)
  {
    Settings(NewExplosion(), a, Trunc(x), Trunc(y), 0.0, 1)
  }

  /** The flash where a bullet meets a boss: the ship-explosion sheet for a
      regular bullet (main.cpp:399-401), the small one for a homing bullet
      (main.cpp:439-441) */
  function HitFlash(shot: Entity): (e: Entity)
    requires IsAnyBullet(shot)
    ensures e.kind == Explosion && e.x == Trunc(shot.x) as real && e.y == Trunc(shot.y) as real
    ensures e.anim == (if shot.kind == Bullet then ShipExplosionAnim else ExplosionAnim)
    ensures WellFormed(e)
  {
    ExplosionAt(if shot.kind == Bullet then ShipExplosionAnim else ExplosionAnim, shot.x, shot.y)
  }

  /** The blast wave a homing bullet leaves where it destroys an asteroid:
      at the asteroid's exact position (main.cpp:508-511) */
  function BlastAt(rock: Entity): (e: Entity)
    ensures e.kind == ExplosionEffect && e.life && e.x == rock.x && e.y == rock.y
    ensures e.currentSize == 0.0 && e.radius == 100.0 && e.damageDealt == 0
    ensures WellFormed(e)
  {
    NewExplosionEffect().(x := rock.x, y := rock.y)
  }

  /** The player at the centre of the arena, facing angle 0: the start of
      the game (main.cpp:206-207) */
  function StartPlayer(): (p: Entity)
    ensures p.kind == Player && p.life && !p.thrust && p.r == 20.0
    ensures p.x == (W / 2) as real && p.y == (H / 2) as real && p.dx == 0.0 && p.dy == 0.0
    ensures WellFormed(p)
  {
    Settings(NewPlayer(), PlayerAnim, W / 2, H / 2, 0.0, 20)
  }

  /** The player put back at the centre, at rest, after a crash
      (main.cpp:382-384); whether it thrusts is kept. */
  function ResetPlayer(p: Entity): (q: Entity)
    ensures q == p.(x := 600.0, y := 400.0, dx := 0.0, dy := 0.0, angle := 0.0, r := 20.0, anim := PlayerAnim)
    ensures p.kind == Player && p.life ==> WellFormed(q)
  {
    Settings(p, PlayerAnim, W / 2, H / 2, 0.0, 20).(dx := 0.0, dy := 0.0)
  }

  /** The bullets fired from the player's position and heading, with
      radius 10 (main.cpp:307-308, 328-329) */
  function FiredBullet(p: Entity): (b: Entity)
    ensures b.kind == Bullet && b.life && b.r == 10.0 && b.angle == p.angle && b.anim == BulletAnim
    ensures WellFormed(b)
  {
    Settings(NewBullet(), BulletAnim, Trunc(p.x), Trunc(p.y), p.angle, 10)
  }

  function FiredHoming(p: Entity): (b: Entity)
    ensures b.kind == HomingBullet && b.life && b.r == 10.0 && b.angle == p.angle && b.anim == HomingBulletAnim
    ensures b.target == None
    ensures WellFormed(b)
  {
    Settings(NewHomingBullet(), HomingBulletAnim, Trunc(p.x), Trunc(p.y), p.angle, 10)
  }

  /** Both kinds of bullet leave from the player's position, truncated to
      whole pixels, so less than a pixel away from it. */
  lemma FiredFromPlayer(p: Entity)
    ensures FiredBullet(p).x == Trunc(p.x) as real && FiredBullet(p).y == Trunc(p.y) as real
    ensures FiredHoming(p).x == Trunc(p.x) as real && FiredHoming(p).y == Trunc(p.y) as real
    ensures -1.0 < FiredBullet(p).x - p.x < 1.0 && -1.0 < FiredBullet(p).y - p.y < 1.0
    ensures -1.0 < FiredHoming(p).x - p.x < 1.0 && -1.0 < FiredHoming(p).y - p.y < 1.0
  {
    TruncBounds(p.x);
    TruncBounds(p.y);
  }
}
