/** HomingBullet::update (asteroids.h:275-307): pick the nearest live
    asteroid or boss, turn a tenth of the way toward it, then fly like a
    bullet. */
module Homing {
  import opened Entities

  /** std::numeric_limits<float>::max(), the initial minDist */
  const FLT_MAX: real := 340282346638528859811704183484516925440.0

  /** What the homing bullet may lock onto (asteroids.h:281) */
  predicate IsTarget(e: Entity) {
    (e.kind == Asteroid || e.kind == Boss) && e.life
  }

  function SqDistTo(e: Entity, x: real, y: real): real {
    (e.x - x) * (e.x - x) + (e.y - y) * (e.y - y)
  }

  /** The first n iterations of the search loop (asteroids.h:277-288): the
      index of the target so far, and minDist. */
  function Search(pool: seq<Entity>, x: real, y: real, n: nat): (r: (Option<nat>, real))
    requires n <= |pool|
    ensures r.0.Some? ==> r.0.value < n && IsTarget(pool[r.0.value])
  {
    if n == 0 then (None, FLT_MAX)
    else
      var (t, m) := Search(pool, x, y, n - 1);
      var d := SqDistTo(pool[n - 1], x, y);
      if IsTarget(pool[n - 1]) && d < m then (Some(n - 1), d) else (t, m)
  }

  /** t is the first of the targets among the first n entities that is
      nearest to (x, y), or None when no target is nearer than FLT_MAX. */
  predicate IsNearestFirst(pool: seq<Entity>, x: real, y: real, n: nat, t: Option<nat>)
    requires n <= |pool|
  {
    match t
    case None =>
      forall k :: 0 <= k < n && IsTarget(pool[k]) ==> SqDistTo(pool[k], x, y) >= FLT_MAX
    case Some(i) =>
      && i < n && IsTarget(pool[i]) && SqDistTo(pool[i], x, y) < FLT_MAX
      && (forall k :: 0 <= k < n && IsTarget(pool[k]) ==> SqDistTo(pool[i], x, y) <= SqDistTo(pool[k], x, y))
      && (forall k :: 0 <= k < i && IsTarget(pool[k]) ==> SqDistTo(pool[i], x, y) < SqDistTo(pool[k], x, y))
  }

  lemma {:induction false} SearchFindsNearest(pool: seq<Entity>, x: real, y: real, n: nat)
    requires n <= |pool|
    ensures IsNearestFirst(pool, x, y, n, Search(pool, x, y, n).0)
    ensures Search(pool, x, y, n).1 ==
            if Search(pool, x, y, n).0.Some? then SqDistTo(pool[Search(pool, x, y, n).0.value], x, y) else FLT_MAX
  {
    if n > 0 {
      SearchFindsNearest(pool, x, y, n - 1);
    }
  }

  /** The search loop itself */
  method FindTarget(pool: seq<Entity>, x: real, y: real) returns (target: Option<nat>)
    ensures target == Search(pool, x, y, |pool|).0
    ensures IsNearestFirst(pool, x, y, |pool|, target)
  {
    var minDist := FLT_MAX;
    target := None;
    var k := 0;
    while k < |pool|
      invariant k <= |pool|
      invariant (target, minDist) == Search(pool, x, y, k)
    {
      var e := pool[k];
      if IsTarget(e) {
        var dist := SqDistTo(e, x, y);
        if dist < minDist {
          minDist := dist;
          target := Some(k);
        }
      }
      k := k + 1;
    }
    SearchFindsNearest(pool, x, y, |pool|);
  }

  /** v is a whole number of turns */
  predicate MultipleOf360(v: real) {
    (v / 360.0).Floor as real == v / 360.0
  }

  lemma MultipleShift(v: real, w: real)
    requires MultipleOf360(v - w)
    ensures MultipleOf360(v - (w - 360.0)) && MultipleOf360(v - (w + 360.0))
    ensures MultipleOf360(w - v)
  {
    var q := (v - w) / 360.0;
    var n := q.Floor;
    assert q == n as real;
    assert (v - (w - 360.0)) / 360.0 == q + 1.0;
    assert (v - (w + 360.0)) / 360.0 == q - 1.0;
    assert (w - v) / 360.0 == -q;
    assert ((n + 1) as real).Floor == n + 1;
    assert ((n - 1) as real).Floor == n - 1;
    assert ((-n) as real).Floor == -n;
  }

  /** The first adjustment loop: subtract 360 while above 180 */
  function Lowered(d: real): real
    decreases if d > 180.0 then (d - 180.0).Floor + 1 else 0
  {
    if d > 180.0 then Lowered(d - 360.0) else d
  }

  /** The second adjustment loop: add 360 while below -180 */
  function Raised(d: real): real
    decreases if d < -180.0 then (-180.0 - d).Floor + 1 else 0
  {
    if d < -180.0 then Raised(d + 360.0) else d
  }

  /** angleDiff after both loops (asteroids.h:295-296) */
  function Normalised(d: real): real {
    Raised(Lowered(d))
  }

  lemma {:induction false} LoweredSpec(d: real)
    ensures Lowered(d) <= 180.0
    ensures d <= 180.0 ==> Lowered(d) == d
    ensures d > 180.0 ==> -180.0 < Lowered(d)
    ensures MultipleOf360(d - Lowered(d))
    decreases if d > 180.0 then (d - 180.0).Floor + 1 else 0
  {
    if d > 180.0 {
      LoweredSpec(d - 360.0);
      MultipleShift(d - 360.0, Lowered(d));
      assert d - Lowered(d) == (d - 360.0) - (Lowered(d) - 360.0);
    } else {
      assert (d - Lowered(d)) / 360.0 == 0.0;
    }
  }

  lemma {:induction false} RaisedSpec(d: real)
    requires d <= 180.0
    ensures -180.0 <= Raised(d) <= 180.0
    ensures d >= -180.0 ==> Raised(d) == d
    ensures MultipleOf360(d - Raised(d))
    decreases if d < -180.0 then (-180.0 - d).Floor + 1 else 0
  {
    if d < -180.0 {
      RaisedSpec(d + 360.0);
      MultipleShift(d + 360.0, Raised(d));
      assert d - Raised(d) == (d + 360.0) - (Raised(d) + 360.0);
    } else {
      assert (d - Raised(d)) / 360.0 == 0.0;
    }
  }

  /** The normalised difference lies in [-180, 180], differs from the input
      by a whole number of turns, and is the input itself when that is
      already in range. */
  lemma NormalisedSpec(d: real)
    ensures -180.0 <= Normalised(d) <= 180.0
    ensures MultipleOf360(Normalised(d) - d)
    ensures -180.0 <= d <= 180.0 ==> Normalised(d) == d
  {
    LoweredSpec(d);
    RaisedSpec(Lowered(d));
    if d > 180.0 {
      MultipleShift(d, Lowered(d));
    } else {
      MultipleShift(Lowered(d), Normalised(d));
    }
  }

  /** The two while loops of asteroids.h:295-296 */
  method NormaliseAngle(diff: real) returns (r: real)
    ensures r == Normalised(diff)
    ensures -180.0 <= r <= 180.0 && MultipleOf360(r - diff)
  {
    r := diff;
    while r > 180.0
      invariant Lowered(r) == Lowered(diff)
      decreases if r > 180.0 then (r - 180.0).Floor + 1 else 0
    {
      r := r - 360.0;
    }
    while r < -180.0
      invariant r <= 180.0 && Raised(r) == Normalised(diff)
      decreases if r < -180.0 then (-180.0 - r).Floor + 1 else 0
    {
      r := r + 360.0;
    }
    NormalisedSpec(diff);
  }

  /** The heading from e to t in degrees (asteroids.h:292) */
  function Bearing(m: Libm, e: Entity, t: Entity): real {
    m.atan2(t.y - e.y, t.x - e.x) / DEGTORAD
  }

  /** The new heading: a tenth of the normalised error, so never more than
      18 degrees of turn, in the direction of the shorter way round. */
  function Steered(m: Libm, e: Entity, t: Entity): (a: real)
    ensures -18.0 <= a - e.angle <= 18.0
    ensures a - e.angle == Normalised(Bearing(m, e, t) - e.angle) * 0.1
  {
    NormalisedSpec(Bearing(m, e, t) - e.angle);
    e.angle + Normalised(Bearing(m, e, t) - e.angle) * 0.1
  }

  /** The whole update of the homing bullet at index k of the pool */
  function HomingStep(pool: seq<Entity>, k: nat, m: Libm): (r: Entity)
    requires k < |pool| && pool[k].kind == HomingBullet
    ensures r == pool[k].(target := r.target, angle := r.angle, dx := r.dx, dy := r.dy,
                          x := pool[k].x + r.dx, y := pool[k].y + r.dy, life := r.life)
    ensures IsNearestFirst(pool, pool[k].x, pool[k].y, |pool|, r.target)
    ensures r.target.None? ==> r.angle == pool[k].angle
    ensures r.target.Some? ==> r.angle == Steered(m, pool[k], pool[r.target.value])
    ensures (r.dx, r.dy) == HeadingVelocity(m, r.angle)
    ensures r.life <==> pool[k].life && InArena(r.x, r.y)
  {
    var e := pool[k];
    SearchFindsNearest(pool, e.x, e.y, |pool|);
    var t := Search(pool, e.x, e.y, |pool|).0;
    var heading := if t.Some? && pool[t.value].life then Steered(m, e, pool[t.value]) else e.angle;
    var (vx, vy) := HeadingVelocity(m, heading);
    var nx, ny := e.x + vx, e.y + vy;
    e.(target := t, angle := heading, dx := vx, dy := vy, x := nx, y := ny,
       life := if !InArena(nx, ny) then false else e.life)
  }

  /** The turn of HomingBullet::update towards its target, with the two
      normalising loops */
  method SteerTowards(m: Libm, e: Entity, t: Entity) returns (a: real)
    ensures a == Steered(m, e, t)
  {
    var targetAngle := Bearing(m, e, t);
    var angleDiff := NormaliseAngle(targetAngle - e.angle);
    a := e.angle + angleDiff * 0.1;
  }

  /** HomingBullet::update */
  method UpdateHoming(pool: seq<Entity>, k: nat, m: Libm) returns (r: Entity)
    requires k < |pool| && pool[k].kind == HomingBullet
    ensures r == HomingStep(pool, k, m)
  {
    var e := pool[k];
    var target := FindTarget(pool, e.x, e.y);
    var heading := e.angle;
    if target.Some? && pool[target.value].life {
      heading := SteerTowards(m, e, pool[target.value]);
    }
    var vx, vy := m.cos(heading * DEGTORAD) * 6.0, m.sin(heading * DEGTORAD) * 6.0;
    r := e.(target := target, angle := heading, dx := vx, dy := vy, x := e.x + vx, y := e.y + vy);
    assert (vx, vy) == HeadingVelocity(m, heading);
    if r.x > W as real || r.x < 0.0 || r.y > H as real || r.y < 0.0 {
      r := r.(life := false);
    }
    assert r.life == (e.life && InArena(r.x, r.y));
  }
}
