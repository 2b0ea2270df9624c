/** The collision test and the classification of a pair of entities by the
    branch of the scan that handles it (main.cpp:336-523). */
module Collision {
  import opened Entities
  import opened Pools

  /** isCollide (main.cpp:21-25): the centres are closer than the sum of the
      radii, compared squared. */
  predicate IsCollide(a: Entity, b: Entity) {
    (b.x - a.x) * (b.x - a.x) + (b.y - a.y) * (b.y - a.y) < (a.r + b.r) * (a.r + b.r)
  }

  lemma CollideSymmetric(a: Entity, b: Entity)
    ensures IsCollide(a, b) <==> IsCollide(b, a)
  {
    assert (a.x - b.x) * (a.x - b.x) == (b.x - a.x) * (b.x - a.x);
    assert (a.y - b.y) * (a.y - b.y) == (b.y - a.y) * (b.y - a.y);
  }

  /** Two entities with positive radii on the same centre collide. */
  lemma CoincidentCollide(a: Entity, b: Entity)
    requires a.x == b.x && a.y == b.y && a.r > 0.0 && b.r > 0.0
    ensures IsCollide(a, b)
  {
    var ex, ey, s := b.x - a.x, b.y - a.y, a.r + b.r;
    assert ex * ex == 0.0 by { assert ex == 0.0; }
    assert ey * ey == 0.0 by { assert ey == 0.0; }
    assert s * s > 0.0;
  }

  /** Entities at least the sum of their radii apart do not collide. */
  lemma FarApartMiss(a: Entity, b: Entity)
    requires a.r + b.r >= 0.0
    requires b.x - a.x >= a.r + b.r || a.x - b.x >= a.r + b.r
    ensures !IsCollide(a, b)
  {
    var s, ex, ey := a.r + b.r, b.x - a.x, b.y - a.y;
    var m := if ex >= 0.0 then ex else -ex;
    assert m * m == ex * ex;
    assert s * s <= m * m by {
      assert m * m - s * s == (m - s) * (m + s);
      assert (m - s) * (m + s) >= 0.0;
    }
    assert ey * ey >= 0.0 by {
      if ey < 0.0 { assert ey * ey == (-ey) * (-ey); }
    }
  }

  predicate IsRock(e: Entity) { e.kind == Asteroid || e.kind == Boss }

  /** The branch of the scan a pair falls into, with the roles of the two
      indices: the first matching branch of the else-if chain. */
  datatype Contact =
    | PlayerHit(player: nat, rock: nat)   // main.cpp:343-385
    | BossHit(boss: nat, shot: nat)       // main.cpp:387-425, 427-465
    | RockHit(rock: nat, shot: nat)       // main.cpp:467-490, 492-523
    | NoContact

  function Classify(a: Entity, b: Entity, i: nat, j: nat): (c: Contact)
    ensures c.PlayerHit? <==> (a.kind == Player && IsRock(b)) || (b.kind == Player && IsRock(a))
    ensures c.BossHit? <==> (a.kind == Boss && IsAnyBullet(b)) || (b.kind == Boss && IsAnyBullet(a))
    ensures c.RockHit? <==> (a.kind == Asteroid && IsAnyBullet(b)) || (b.kind == Asteroid && IsAnyBullet(a))
    ensures c.PlayerHit? ==> {c.player, c.rock} == {i, j}
    ensures c.BossHit? ==> {c.boss, c.shot} == {i, j}
    ensures c.RockHit? ==> {c.rock, c.shot} == {i, j}
  {
    if a.kind == Player && IsRock(b) then PlayerHit(i, j)
    else if b.kind == Player && IsRock(a) then PlayerHit(j, i)
    else if a.kind == Boss && IsAnyBullet(b) then BossHit(i, j)
    else if b.kind == Boss && IsAnyBullet(a) then BossHit(j, i)
    else if a.kind == Asteroid && IsAnyBullet(b) then RockHit(i, j)
    else if b.kind == Asteroid && IsAnyBullet(a) then RockHit(j, i)
    else NoContact
  }

  /** The pair's branch does something: its two entities collide.  A pair
      of kinds the chain does not name never does. */
  predicate Acts(s: seq<Entity>, c: Contact)
    requires c.PlayerHit? ==> c.player < |s| && c.rock < |s|
    requires c.BossHit? ==> c.boss < |s| && c.shot < |s|
    requires c.RockHit? ==> c.rock < |s| && c.shot < |s|
  {
    match c
    case PlayerHit(p, q) => IsCollide(s[p], s[q])
    case BossHit(b, u) => IsCollide(s[b], s[u])
    case RockHit(a, u) => IsCollide(s[a], s[u])
    case NoContact => false
  }

  /** The roles in a pair do not depend on which of the two entities comes
      first in the list. */
  lemma ClassifySymmetric(a: Entity, b: Entity, i: nat, j: nat)
    ensures Classify(a, b, i, j) == Classify(b, a, j, i)
  {
  }

  /** The roles name entities of the right kinds. */
  lemma ClassifyRoles(s: seq<Entity>, i: nat, j: nat)
    requires i < |s| && j < |s|
    ensures var c := Classify(s[i], s[j], i, j);
            && (c.PlayerHit? ==> s[c.player].kind == Player && IsRock(s[c.rock]))
            && (c.BossHit? ==> s[c.boss].kind == Boss && IsAnyBullet(s[c.shot]))
            && (c.RockHit? ==> s[c.rock].kind == Asteroid && IsAnyBullet(s[c.shot]))
  {
  }

  /** The entities the crash clears away (main.cpp:363-366) */
  predicate Combatant(e: Entity) {
    e.kind == Asteroid || e.kind == Bullet || e.kind == HomingBullet || e.kind == Boss
  }

  /** entities.remove_if of main.cpp:363-366 */
  function Cleared(s: seq<Entity>): seq<Entity> {
    if s == [] then [] else (if Combatant(s[0]) then [] else [s[0]]) + Cleared(s[1..])
  }

  /** The clear keeps exactly the non-combatants, in their order. */
  lemma {:induction false} ClearedMembers(s: seq<Entity>)
    ensures forall e :: e in Cleared(s) <==> e in s && !Combatant(e)
    ensures |Cleared(s)| <= |s|
  {
    if s != [] {
      ClearedMembers(s[1..]);
      assert forall e :: e in s <==> e == s[0] || e in s[1..];
    }
  }

  lemma {:induction false} ClearedCounts(s: seq<Entity>, k: Kind)
    ensures CountKind(Cleared(s), k) ==
            if k == Asteroid || k == Bullet || k == HomingBullet || k == Boss then 0 else CountKind(s, k)
  {
    if s != [] {
      ClearedCounts(s[1..], k);
      CountKindAppend(if Combatant(s[0]) then [] else [s[0]], Cleared(s[1..]), k);
    }
  }

  lemma {:induction false} ClearedAppend(s: seq<Entity>, t: seq<Entity>)
    ensures Cleared(s + t) == Cleared(s) + Cleared(t)
  {
    if s == [] {
      assert s + t == t;
    } else {
      assert (s + t)[1..] == s[1..] + t;
      ClearedAppend(s[1..], t);
    }
  }

  /** Changing a combatant into another combatant before the clear makes no
      difference after it. */
  lemma {:induction false} ClearedIgnoresCombatant(s: seq<Entity>, i: nat, e: Entity)
    requires i < |s| && Combatant(s[i]) && Combatant(e)
    ensures Cleared(s[i := e]) == Cleared(s)
  {
    if i > 0 {
      assert s[i := e][1..] == s[1..][i - 1 := e];
      ClearedIgnoresCombatant(s[1..], i - 1, e);
    } else {
      assert s[i := e][1..] == s[1..];
    }
  }

  lemma ClearedWellFormed(s: seq<Entity>)
    requires AllWellFormed(s)
    ensures AllWellFormed(Cleared(s))
  {
    ClearedMembers(s);
    forall k | 0 <= k < |Cleared(s)| ensures WellFormed(Cleared(s)[k]) {
      assert Cleared(s)[k] in s;
    }
  }
}
