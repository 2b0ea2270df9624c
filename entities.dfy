/** The entity kinds of the game, their constants, and the per-kind update
    laws that only touch the entity itself (asteroids.h).  An entity is one
    record with a kind tag, standing for the C++ subclass. */
module Entities {

  // Game constants (asteroids.h:15-24)
  const W: int := 1200
  const H: int := 800
  const DEGTORAD: real := 0.017453
  const BOSS_TRIGGER_SCORE: int := 25
  const MAX_BOSS_ASTEROIDS: int := 3
  const INITIAL_ASTEROIDS: nat := 15
  const BOSS_SPAWN_COUNT: nat := 4  // declared, but the game uses the literal 4
  const REGULAR_BULLET_DAMAGE: int := 1
  const HOMING_BULLET_DAMAGE: int := 5
  const BOSS_MAX_HEALTH: int := 15

  // The radius that marks an asteroid as small (a literal in main.cpp)
  const SMALL_R: real := 15.0

  datatype Option<T> = None | Some(value: T)

  /** The floating-point library functions the game calls, supplied from
      outside: cos and sin take radians, atan2 returns radians. */
  datatype Libm = Libm(cos: real -> real, sin: real -> real,
                       atan2: (real, real) -> real, sqrt: real -> real)

  /** The sprite sheet an animation plays.  The core only compares sheets;
      the pictures themselves belong to the renderer. */
  datatype Sheet =
    | TypeC | Rock | RockSmall | FireBlue | FireRed | Ship | ShipThrust
    | TypeB | BossRock | BossBlast | Unset

  /** An Animation: the current frame, the playback speed in frames per
      update, and the number of frames (frames.size()). */
  datatype Animation = Animation(sheet: Sheet, frame: real, speed: real, count: nat)

  // The global animations set up at startup (main.cpp:84-95), with Frame = 0
  const ExplosionAnim := Animation(TypeC, 0.0, 0.5, 48)
  const RockAnim := Animation(Rock, 0.0, 0.2, 16)
  const RockSmallAnim := Animation(RockSmall, 0.0, 0.2, 16)
  const BulletAnim := Animation(FireBlue, 0.0, 0.8, 16)
  const HomingBulletAnim := Animation(FireRed, 0.0, 0.8, 16)
  const PlayerAnim := Animation(Ship, 0.0, 0.0, 1)
  const PlayerThrustAnim := Animation(ShipThrust, 0.0, 0.0, 1)
  const ShipExplosionAnim := Animation(TypeB, 0.0, 0.5, 64)
  const BossRockAnim := Animation(BossRock, 0.0, 0.2, 16)
  const BossExplosionAnim := Animation(BossBlast, 0.0, 0.5, 64)

  /** The animation of an entity whose settings() is never called: the
      default-constructed Animation, with no frames. */
  const NoAnim := Animation(Unset, 0.0, 0.0, 0)

  /** The animation invariant that keeps frames[int(Frame)] in bounds. */
  predicate AnimInRange(a: Animation) {
    0.0 <= a.speed < a.count as real && 0.0 <= a.frame < a.count as real
  }

  /** Animation::update: advance by speed, wrap around once past the end. */
  function AnimUpdate(a: Animation): (r: Animation)
    ensures r == a.(frame := r.frame)
    ensures AnimInRange(a) ==> AnimInRange(r) && 0 <= r.frame.Floor < r.count
    ensures a.frame + a.speed < a.count as real ==> r.frame == a.frame + a.speed
  {
    var f := a.frame + a.speed;
    a.(frame := if f >= a.count as real then f - a.count as real else f)
  }

  /** Animation::isEnd */
  predicate IsEnd(a: Animation) {
    a.frame + a.speed >= a.count as real
  }

  /** The subclass of an entity (the C++ name string). */
  datatype Kind = Player | Asteroid | Boss | Bullet | HomingBullet | Explosion | ExplosionEffect

  /** An entity.  The first eight fields after the kind are those of the base
      class Entity (asteroids.h:143-146); the others belong to one subclass
      each and keep their initial value in entities of other kinds:
      thrust (Player), health and spawnChildren (BossAsteroid), damage
      (Bullet, HomingBullet), target (HomingBullet, an index into the pool
      where the source keeps a raw pointer), and radius, currentSize,
      growthRate, damageDealt (ExplosionEffect). */
  datatype Entity = Entity(
    kind: Kind,
    x: real, y: real, dx: real, dy: real, r: real, angle: real,
    life: bool, anim: Animation,
    thrust: bool,
    health: int, spawnChildren: bool,
    damage: int, target: Option<nat>,
    radius: real, currentSize: real, growthRate: real, damageDealt: nat)

  /** Entity(): x = y = dx = dy = 0, R = 1, angle = 0, life = true
      (asteroids.h:148), and a default-constructed Animation. */
  function Blank(k: Kind): (e: Entity)
  {
    Entity(k, 0.0, 0.0, 0.0, 0.0, 1.0, 0.0, true, NoAnim, false, 0, false, 0, None, 0.0, 0.0, 0.0, 0)
  }

  predicate IsSmallAsteroid(e: Entity) { e.kind == Asteroid && e.r == SMALL_R }
  predicate IsAnyBullet(e: Entity) { e.kind == Bullet || e.kind == HomingBullet }

  /** The conversion of a float to an int (C++ truncates toward zero), as
      happens when a float position is passed to settings(int X, int Y). */
  function Trunc(v: real): int {
    if v >= 0.0 then v.Floor else -((-v).Floor)
  }

  /** Truncation moves a value less than 1 toward zero. */
  lemma TruncBounds(v: real)
    ensures 0.0 <= v ==> 0 <= Trunc(v) && Trunc(v) as real <= v < Trunc(v) as real + 1.0
    ensures v < 0.0 ==> Trunc(v) <= 0 && Trunc(v) as real - 1.0 < v <= Trunc(v) as real
  {
  }

  /** Entity::settings (asteroids.h:150-156) */
  function Settings(e: Entity, a: Animation, X: int, Y: int, heading: real, radius: int): Entity {
    e.(anim := a, x := X as real, y := Y as real, angle := heading, r := radius as real)
  }

  /** v is a whole number in [lo, hi]. */
  predicate IsIntIn(v: real, lo: int, hi: int) {
    v.Floor as real == v && lo <= v.Floor <= hi
  }

  /** Asteroid(): the base defaults, and dx, dy from two rand() results
      (asteroids.h:215-219). */
  function NewAsteroid(v1: nat, v2: nat): (a: Entity)
    ensures a.kind == Asteroid && a.life && a.x == 0.0 && a.y == 0.0 && a.r == 1.0
  {
    Blank(Asteroid).(dx := (v1 % 8 - 4) as real, dy := (v2 % 8 - 4) as real)
  }

  /** An asteroid's velocity components are whole numbers in [-4, 3]. */
  lemma AsteroidDrift(v1: nat, v2: nat)
    ensures IsIntIn(NewAsteroid(v1, v2).dx, -4, 3) && IsIntIn(NewAsteroid(v1, v2).dy, -4, 3)
  {
  }

  /** (rand() % 5 - 2) * 0.5, the boss velocity component of asteroids.h:237-238 */
  function BossSpeed(v: nat): real {
    (v % 5 - 2) as real * 0.5
  }

  /** A boss drifts in one of five half-pixel steps. */
  lemma BossSpeedSteps(v: nat)
    ensures var s := BossSpeed(v); s == -1.0 || s == -0.5 || s == 0.0 || s == 0.5 || s == 1.0
  {
  }

  /** BossAsteroid() (asteroids.h:231-239) */
  function NewBoss(v1: nat, v2: nat): (b: Entity)
    ensures b.kind == Boss && b.life && b.r == 80.0
    ensures b.health == BOSS_MAX_HEALTH && b.spawnChildren
  {
    Blank(Boss).(r := 80.0, dx := BossSpeed(v1), dy := BossSpeed(v2),
                 health := BOSS_MAX_HEALTH, spawnChildren := true)
  }

  /** Bullet() and HomingBullet() (asteroids.h:251-273) */
  function NewBullet(): (b: Entity)
    ensures b.kind == Bullet && b.life && b.damage == REGULAR_BULLET_DAMAGE
  {
    Blank(Bullet).(damage := REGULAR_BULLET_DAMAGE)
  }

  function NewHomingBullet(): (b: Entity)
    ensures b.kind == HomingBullet && b.life && b.damage == HOMING_BULLET_DAMAGE && b.target == None
  {
    Blank(HomingBullet).(damage := HOMING_BULLET_DAMAGE, target := None)
  }

  /** Explosion() and ExplosionEffect() (asteroids.h:171, 179-184) */
  function NewExplosion(): (e: Entity)
    ensures e.kind == Explosion && e.life
  {
    Blank(Explosion)
  }

  function NewExplosionEffect(): (e: Entity)
    ensures e.kind == ExplosionEffect && e.life
    ensures e.radius == 100.0 && e.currentSize == 0.0 && e.growthRate == 150.0 && e.damageDealt == 0
  {
    Blank(ExplosionEffect).(radius := 100.0, currentSize := 0.0, growthRate := 150.0, damageDealt := 0)
  }

  /** Player() (asteroids.h:312-314) */
  function NewPlayer(): (p: Entity)
    ensures p.kind == Player && p.life && !p.thrust
  {
    Blank(Player).(thrust := false)
  }

  predicate InArena(x: real, y: real) {
    0.0 <= x <= W as real && 0.0 <= y <= H as real
  }

  /** The edge wrap "if (v > bound) v = 0; if (v < 0) v = bound;" */
  function Wrap(v: real, bound: int): (r: real)
    requires bound >= 0
    ensures 0.0 <= r <= bound as real
    ensures 0.0 <= v <= bound as real ==> r == v
    ensures v > bound as real ==> r == 0.0
    ensures v < 0.0 ==> r == bound as real
  {
    if v > bound as real then 0.0 else if v < 0.0 then bound as real else v
  }

  /** Asteroid::update (asteroids.h:221-226) */
  function AsteroidStep(e: Entity): (r: Entity)
    requires e.kind == Asteroid
    ensures r == e.(x := r.x, y := r.y)
    ensures InArena(r.x, r.y)
    ensures InArena(e.x + e.dx, e.y + e.dy) ==> r.x == e.x + e.dx && r.y == e.y + e.dy
  {
    e.(x := Wrap(e.x + e.dx, W), y := Wrap(e.y + e.dy, H))
  }

  /** BossAsteroid::update (asteroids.h:241-246): a drift at 0.3 of the velocity */
  function BossStep(e: Entity): (r: Entity)
    requires e.kind == Boss
    ensures r == e.(x := r.x, y := r.y)
    ensures InArena(r.x, r.y)
    ensures InArena(e.x + e.dx * 0.3, e.y + e.dy * 0.3) ==>
              r.x == e.x + e.dx * 0.3 && r.y == e.y + e.dy * 0.3
  {
    e.(x := Wrap(e.x + e.dx * 0.3, W), y := Wrap(e.y + e.dy * 0.3, H))
  }

  /** The forward velocity of a projectile at the given heading, at speed 6 */
  function HeadingVelocity(m: Libm, heading: real): (real, real) {
    (m.cos(heading * DEGTORAD) * 6.0, m.sin(heading * DEGTORAD) * 6.0)
  }

  /** Bullet::update (asteroids.h:257-263): never wrapped, dies outside */
  function BulletStep(e: Entity, m: Libm): (r: Entity)
    requires e.kind == Bullet
    ensures (r.dx, r.dy) == HeadingVelocity(m, e.angle)
    ensures r == e.(dx := r.dx, dy := r.dy, x := e.x + r.dx, y := e.y + r.dy, life := r.life)
    ensures r.life <==> e.life && InArena(r.x, r.y)
  {
    var (vx, vy) := HeadingVelocity(m, e.angle);
    var nx, ny := e.x + vx, e.y + vy;
    e.(dx := vx, dy := vy, x := nx, y := ny, life := if !InArena(nx, ny) then false else e.life)
  }

  /** Player::update (asteroids.h:316-335): thrust or drag, a speed cap of 5
      computed with the supplied sqrt, then the move and the edge wrap. */
  function PlayerStep(e: Entity, m: Libm): (r: Entity)
    requires e.kind == Player
    ensures r == e.(dx := r.dx, dy := r.dy, x := r.x, y := r.y)
    ensures InArena(r.x, r.y)
    ensures InArena(e.x + r.dx, e.y + r.dy) ==> r.x == e.x + r.dx && r.y == e.y + r.dy
  {
    var vx := if e.thrust then e.dx + m.cos(e.angle * DEGTORAD) * 0.2 else e.dx * 0.99;
    var vy := if e.thrust then e.dy + m.sin(e.angle * DEGTORAD) * 0.2 else e.dy * 0.99;
    var speed := m.sqrt(vx * vx + vy * vy);
    var cx := if speed > 5.0 then vx * (5.0 / speed) else vx;
    var cy := if speed > 5.0 then vy * (5.0 / speed) else vy;
    e.(dx := cx, dy := cy, x := Wrap(e.x + cx, W), y := Wrap(e.y + cy, H))
  }

  /** Explosion::update (asteroids.h:172-174) */
  function ExplosionStep(e: Entity): (r: Entity)
    requires e.kind == Explosion
    ensures r == e.(life := r.life)
    ensures r.life <==> e.life && !IsEnd(e.anim)
  {
    if IsEnd(e.anim) then e.(life := false) else e
  }

  /** The part of ExplosionEffect::update that concerns the effect itself
      (asteroids.h:187-188, 198-199): grow by growthRate * 0.016 while below
      the radius, and die on the first update that starts at full size. */
  function EffectGrowth(e: Entity): (r: Entity)
    requires e.kind == ExplosionEffect
    ensures r == e.(currentSize := r.currentSize, life := r.life)
    ensures e.currentSize < e.radius ==> r.currentSize == e.currentSize + e.growthRate * 0.016 && r.life == e.life
    ensures e.currentSize >= e.radius ==> r.currentSize == e.currentSize && !r.life
  {
    if e.currentSize < e.radius then e.(currentSize := e.currentSize + e.growthRate * 0.016)
    else e.(life := false)
  }

  /** n consecutive updates of an effect, as far as its own size and life go */
  function GrowthAfter(e: Entity, n: nat): (r: Entity)
    requires e.kind == ExplosionEffect
    ensures r.kind == ExplosionEffect
  {
    if n == 0 then e else EffectGrowth(GrowthAfter(e, n - 1))
  }

  /** While every update so far began below the radius, the size has grown
      by exactly growthRate * 0.016 per update and the effect is alive. */
  lemma {:induction false} GrowthIsLinear(e: Entity, n: nat)
    requires e.kind == ExplosionEffect && e.life && e.growthRate >= 0.0
    requires e.currentSize + (n as real - 1.0) * e.growthRate * 0.016 < e.radius
    ensures GrowthAfter(e, n).life
    ensures GrowthAfter(e, n).currentSize == e.currentSize + n as real * e.growthRate * 0.016
    ensures GrowthAfter(e, n).radius == e.radius && GrowthAfter(e, n).growthRate == e.growthRate
  {
    if n > 0 {
      GrowthIsLinear(e, n - 1);
    }
  }

  /** With the default radius 100 and growth rate 150, an effect grows on
      42 updates and dies on the 43rd. */
  lemma DefaultEffectLifetime()
    ensures GrowthAfter(NewExplosionEffect(), 42).life
    ensures GrowthAfter(NewExplosionEffect(), 42).currentSize >= 100.0
    ensures GrowthAfter(NewExplosionEffect(), 41).currentSize < 100.0
    ensures !GrowthAfter(NewExplosionEffect(), 43).life
  {
    var e := NewExplosionEffect();
    GrowthIsLinear(e, 42);
    GrowthIsLinear(e, 41);
  }

  /** An entry of a well-formed pool: the invariants the game keeps for
      every entity it creates. */
  predicate WellFormed(e: Entity) {
    match e.kind
    case Player => AnimInRange(e.anim) && e.life && e.r == 20.0
    case Asteroid => AnimInRange(e.anim) && (e.r == 15.0 || e.r == 25.0)
    case Boss => AnimInRange(e.anim) && e.r == 80.0
    case Bullet => AnimInRange(e.anim) && e.damage == REGULAR_BULLET_DAMAGE
    case HomingBullet => AnimInRange(e.anim) && e.damage == HOMING_BULLET_DAMAGE
    case Explosion => AnimInRange(e.anim)
    case ExplosionEffect => e.radius == 100.0 && e.growthRate == 150.0 && e.currentSize >= 0.0
  }
}
