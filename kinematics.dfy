/** The update pass (main.cpp:549-555): each entity in list order runs its
    kind's update on the pool as the earlier updates left it, then steps its
    animation, except a blast wave, which has none. */
module Kinematics {
  import opened Entities
  import opened Pools
  import opened Homing
  import opened Blast

  /** The kind's update of the entity at k, when it is not a blast wave */
  function KindStep(pool: seq<Entity>, k: nat, m: Libm): (r: Entity)
    requires k < |pool| && pool[k].kind != ExplosionEffect
  {
    var e := pool[k];
    match e.kind
    case Player => PlayerStep(e, m)
    case Asteroid => AsteroidStep(e)
    case Boss => BossStep(e)
    case Bullet => BulletStep(e, m)
    case HomingBullet => HomingStep(pool, k, m)
    case Explosion => ExplosionStep(e)
  }

  /** One iteration of the update loop, at index k */
  function Advance(pool: seq<Entity>, k: nat, m: Libm): (q: seq<Entity>)
    requires k < |pool|
    ensures |q| == |pool|
  {
    if pool[k].kind == ExplosionEffect then EffectStep(pool, k)
    else
      var s := KindStep(pool, k, m);
      pool[k := s.(anim := AnimUpdate(s.anim))]
  }

  /** The update loop from index k to the end */
  function UpdatedFrom(pool: seq<Entity>, k: nat, m: Libm): (q: seq<Entity>)
    requires k <= |pool|
    ensures |q| == |pool|
    decreases |pool| - k
  {
    if k == |pool| then pool else UpdatedFrom(Advance(pool, k, m), k + 1, m)
  }

  /** Where an entity may be after its update: anything that wraps is inside
      the arena, and a bullet that is still alive is too. */
  predicate Settled(e: Entity) {
    && (e.kind == Asteroid || e.kind == Boss || e.kind == Player ==> InArena(e.x, e.y))
    && (IsAnyBullet(e) && e.life ==> InArena(e.x, e.y))
  }

  /** One iteration changes only the entity at k, apart from the blast
      wave's kills; it keeps every shape and every invariant, and leaves the
      entity at k settled. */
  lemma AdvanceFacts(pool: seq<Entity>, k: nat, m: Libm)
    requires k < |pool|
    ensures SameShapes(Advance(pool, k, m), pool)
    ensures forall i :: 0 <= i < |pool| && i != k ==>
              Advance(pool, k, m)[i] == pool[i] ||
              (pool[i].kind == Asteroid && Advance(pool, k, m)[i] == pool[i].(life := false))
    ensures Settled(Advance(pool, k, m)[k])
    ensures AllWellFormed(pool) ==> AllWellFormed(Advance(pool, k, m))
  {
    var q := Advance(pool, k, m);
    if pool[k].kind == ExplosionEffect {
      var e := pool[k];
      if e.currentSize < e.radius {
        var size := e.currentSize + e.growthRate * 0.016;
        forall i | 0 <= i < |pool| && i != k
          ensures q[i] == pool[i] || (pool[i].kind == Asteroid && q[i] == pool[i].(life := false))
        {
          assert q[i] == if InBlast(pool[i], e.x, e.y, size) then pool[i].(life := false) else pool[i];
        }
      }
    }
  }

  /** The update pass keeps every shape and every invariant, and afterwards
      every entity is settled: the ones appended earlier in the tick have
      been updated as well. */
  lemma UpdatedFromFacts(pool: seq<Entity>, k: nat, m: Libm)
    requires k <= |pool|
    requires forall i :: 0 <= i < k ==> Settled(pool[i])
    ensures SameShapes(UpdatedFrom(pool, k, m), pool)
    ensures forall i :: 0 <= i < |pool| ==> Settled(UpdatedFrom(pool, k, m)[i])
    ensures AllWellFormed(pool) ==> AllWellFormed(UpdatedFrom(pool, k, m))
  {
    UpdatedFromKeeps(pool, k, m);
    UpdatedFromSettles(pool, k, m);
  }

  lemma {:induction false} UpdatedFromKeeps(pool: seq<Entity>, k: nat, m: Libm)
    requires k <= |pool|
    ensures SameShapes(UpdatedFrom(pool, k, m), pool)
    ensures AllWellFormed(pool) ==> AllWellFormed(UpdatedFrom(pool, k, m))
    decreases |pool| - k
  {
    if k < |pool| {
      AdvanceFacts(pool, k, m);
      UpdatedFromKeeps(Advance(pool, k, m), k + 1, m);
    }
  }

  lemma {:induction false} UpdatedFromSettles(pool: seq<Entity>, k: nat, m: Libm)
    requires k <= |pool|
    requires forall i :: 0 <= i < k ==> Settled(pool[i])
    ensures forall i :: 0 <= i < |pool| ==> Settled(UpdatedFrom(pool, k, m)[i])
    decreases |pool| - k
  {
    if k < |pool| {
      var q := Advance(pool, k, m);
      AdvanceFacts(pool, k, m);
      forall i | 0 <= i < k + 1 ensures Settled(q[i]) {
        if i < k {
          assert Settled(pool[i]);
        }
      }
      UpdatedFromSettles(q, k + 1, m);
    }
  }

  /** The update loop of main.cpp:550-555 */
  method UpdatePool(pool: seq<Entity>, m: Libm) returns (q: seq<Entity>)
    ensures q == UpdatedFrom(pool, 0, m)
  {
    q := pool;
    var k := 0;
    while k < |q|
      invariant |q| == |pool| && k <= |q|
      invariant UpdatedFrom(q, k, m) == UpdatedFrom(pool, 0, m)
    {
      var e := q[k];
      if e.kind == ExplosionEffect {
        q := UpdateEffect(q, k);
      } else {
        var s: Entity;
        match e.kind {
          case Player => s := PlayerStep(e, m);
          case Asteroid => s := AsteroidStep(e);
          case Boss => s := BossStep(e);
          case Bullet => s := BulletStep(e, m);
          case HomingBullet => s := UpdateHoming(q, k, m);
          case Explosion => s := ExplosionStep(e);
        }
        q := q[k := s.(anim := AnimUpdate(s.anim))];
      }
      k := k + 1;
    }
  }
}
