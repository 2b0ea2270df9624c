/** ExplosionEffect::update (asteroids.h:186-201): the blast wave grows, and
    each update destroys every live asteroid it now reaches, counting them. */
module Blast {
  import opened Entities
  import opened Homing

  /** The blast of the given size centred at (fx, fy) reaches e: a live
      asteroid (never a boss) whose centre is closer than size + R.  The
      distance sqrt(d2) < size + R is read as size + R > 0 and d2 < (size + R)^2. */
  predicate InBlast(e: Entity, fx: real, fy: real, size: real) {
    && e.kind == Asteroid && e.life && size + e.r > 0.0
    && SqDistTo(e, fx, fy) < (size + e.r) * (size + e.r)
  }

  /** The pool after one sweep of the blast: the entities it reaches are dead. */
  function Swept(pool: seq<Entity>, fx: real, fy: real, size: real): (q: seq<Entity>)
    ensures |q| == |pool|
  {
    seq(|pool|, i requires 0 <= i < |pool| =>
      if InBlast(pool[i], fx, fy, size) then pool[i].(life := false) else pool[i])
  }

  /** The number of entities the sweep reaches */
  function KillCount(pool: seq<Entity>, fx: real, fy: real, size: real): nat {
    if pool == [] then 0
    else (if InBlast(pool[0], fx, fy, size) then 1 else 0) + KillCount(pool[1..], fx, fy, size)
  }

  lemma {:induction false} KillCountAppend(s: seq<Entity>, t: seq<Entity>, fx: real, fy: real, size: real)
    ensures KillCount(s + t, fx, fy, size) == KillCount(s, fx, fy, size) + KillCount(t, fx, fy, size)
  {
    if s == [] {
      assert s + t == t;
    } else {
      assert (s + t)[1..] == s[1..] + t;
      KillCountAppend(s[1..], t, fx, fy, size);
    }
  }

  lemma KillCountSnoc(s: seq<Entity>, i: nat, fx: real, fy: real, size: real)
    requires i < |s|
    ensures KillCount(s[..i + 1], fx, fy, size) ==
            KillCount(s[..i], fx, fy, size) + (if InBlast(s[i], fx, fy, size) then 1 else 0)
  {
    assert s[..i + 1] == s[..i] + [s[i]];
    KillCountAppend(s[..i], [s[i]], fx, fy, size);
    assert [s[i]][1..] == [];
  }

  /** The number of positions alive in p and dead in q */
  function Flipped(p: seq<Entity>, q: seq<Entity>): nat
    requires |p| == |q|
  {
    if p == [] then 0 else (if p[0].life && !q[0].life then 1 else 0) + Flipped(p[1..], q[1..])
  }

  /** Two results that kill at the same positions kill as many. */
  lemma {:induction false} FlippedSame(p: seq<Entity>, q: seq<Entity>, q': seq<Entity>)
    requires |p| == |q| == |q'|
    requires forall i :: 0 <= i < |p| ==> (p[i].life && !q[i].life) == (p[i].life && !q'[i].life)
    ensures Flipped(p, q) == Flipped(p, q')
  {
    if p != [] {
      assert (p[0].life && !q[0].life) == (p[0].life && !q'[0].life);
      FlippedSame(p[1..], q[1..], q'[1..]);
    }
  }

  /** damageDealt grows by exactly the number of asteroids the sweep kills. */
  lemma {:induction false} KillsAreFlips(pool: seq<Entity>, fx: real, fy: real, size: real)
    ensures Flipped(pool, Swept(pool, fx, fy, size)) == KillCount(pool, fx, fy, size)
  {
    if pool != [] {
      assert Swept(pool, fx, fy, size)[1..] == Swept(pool[1..], fx, fy, size);
      KillsAreFlips(pool[1..], fx, fy, size);
    }
  }

  /** The whole update of the effect at index k */
  function EffectStep(pool: seq<Entity>, k: nat): (q: seq<Entity>)
    requires k < |pool| && pool[k].kind == ExplosionEffect
    ensures |q| == |pool|
    ensures var e := pool[k];
            e.currentSize >= e.radius ==> q == pool[k := e.(life := false)]
    ensures var e := pool[k];
            var size := e.currentSize + e.growthRate * 0.016;
            e.currentSize < e.radius ==>
              && q[k] == e.(currentSize := size, damageDealt := e.damageDealt + Flipped(pool, q))
              && (forall i :: 0 <= i < |pool| && i != k ==>
                    q[i] == if InBlast(pool[i], e.x, e.y, size) then pool[i].(life := false) else pool[i])
  {
    var e := pool[k];
    if e.currentSize < e.radius then
      var size := e.currentSize + e.growthRate * 0.016;
      var swept := Swept(pool, e.x, e.y, size);
      var q := swept[k := e.(currentSize := size, damageDealt := e.damageDealt + KillCount(pool, e.x, e.y, size))];
      KillsAreFlips(pool, e.x, e.y, size);
      FlippedSame(pool, swept, q);
      q
    else
      pool[k := e.(life := false)]
  }

  /** ExplosionEffect::update, with its loop over the pool */
  method UpdateEffect(pool: seq<Entity>, k: nat) returns (q: seq<Entity>)
    requires k < |pool| && pool[k].kind == ExplosionEffect
    ensures q == EffectStep(pool, k)
  {
    var e := pool[k];
    if e.currentSize < e.radius {
      var size := e.currentSize + e.growthRate * 0.016;
      var dealt := e.damageDealt;
      ghost var swept := Swept(pool, e.x, e.y, size);
      q := pool;
      var i := 0;
      while i < |q|
        invariant |q| == |pool| && i <= |q|
        invariant forall j :: 0 <= j < i ==> q[j] == swept[j]
        invariant forall j :: i <= j < |q| ==> q[j] == pool[j]
        invariant dealt == e.damageDealt + KillCount(pool[..i], e.x, e.y, size)
      {
        ghost var hit := InBlast(pool[i], e.x, e.y, size);
        assert q[i] == pool[i] && swept[i] == if hit then pool[i].(life := false) else pool[i];
        if q[i].kind == Asteroid && q[i].life {
          var dist2 := SqDistTo(q[i], e.x, e.y);
          if size + q[i].r > 0.0 && dist2 < (size + q[i].r) * (size + q[i].r) {
            q := q[i := q[i].(life := false)];
            dealt := dealt + 1;
          }
        }
        KillCountSnoc(pool, i, e.x, e.y, size);
        i := i + 1;
      }
      assert pool[..|pool|] == pool;
      assert q == swept;
      q := q[k := e.(currentSize := size, damageDealt := dealt)];
    } else {
      q := pool[k := e.(life := false)];
    }
  }
}
