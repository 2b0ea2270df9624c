/** Whole-pool notions: well-formedness, counting entities by kind, and the
    measures that bound how far the collision scan (main.cpp:336-523) can
    grow the pool while it runs. */
module Pools {
  import opened Entities

  predicate AllWellFormed(s: seq<Entity>) {
    forall i :: 0 <= i < |s| ==> WellFormed(s[i])
  }

  /** The number of entities of kind k */
  function CountKind(s: seq<Entity>, k: Kind): (n: nat)
    ensures n <= |s|
  {
    if s == [] then 0 else (if s[0].kind == k then 1 else 0) + CountKind(s[1..], k)
  }

  lemma {:induction false} CountKindAppend(s: seq<Entity>, t: seq<Entity>, k: Kind)
    ensures CountKind(s + t, k) == CountKind(s, k) + CountKind(t, k)
  {
    if s == [] {
      assert s + t == t;
    } else {
      assert (s + t)[1..] == s[1..] + t;
      CountKindAppend(s[1..], t, k);
    }
  }

  /** The first entity of kind k, and the only one when the kind occurs
      once, as the player does while the game runs. */
  function FirstOfKind(s: seq<Entity>, k: Kind): (i: nat)
    requires CountKind(s, k) > 0
    ensures i < |s| && s[i].kind == k
    ensures forall j :: 0 <= j < i ==> s[j].kind != k
    ensures CountKind(s, k) == 1 ==> forall j :: 0 <= j < |s| && j != i ==> s[j].kind != k
  {
    if s[0].kind == k then
      CountKindZero(s[1..], k);
      0
    else
      var i := 1 + FirstOfKind(s[1..], k);
      assert forall j :: 1 <= j < |s| ==> s[j] == s[1..][j - 1];
      i
  }

  /** A kind that is not counted does not occur. */
  lemma {:induction false} CountKindZero(s: seq<Entity>, k: Kind)
    ensures CountKind(s, k) == 0 ==> forall i :: 0 <= i < |s| ==> s[i].kind != k
  {
    if s != [] {
      CountKindZero(s[1..], k);
      assert forall i :: 1 <= i < |s| ==> s[i] == s[1..][i - 1];
    }
  }

  /** A list of one kind counts every entry. */
  lemma {:induction false} CountKindAll(s: seq<Entity>, k: Kind)
    requires forall i :: 0 <= i < |s| ==> s[i].kind == k
    ensures CountKind(s, k) == |s|
  {
    if s != [] {
      assert s[0].kind == k;
      CountKindAll(s[1..], k);
    }
  }

  lemma {:induction false} CountKindNone(s: seq<Entity>, k: Kind)
    requires forall i :: 0 <= i < |s| ==> s[i].kind != k
    ensures CountKind(s, k) == 0
  {
    if s != [] {
      assert s[0].kind != k;
      CountKindNone(s[1..], k);
    }
  }

  lemma {:induction false} CountKindUpdate(s: seq<Entity>, i: nat, e: Entity, k: Kind)
    requires i < |s| && e.kind == s[i].kind
    ensures CountKind(s[i := e], k) == CountKind(s, k)
  {
    if i > 0 {
      assert s[i := e][1..] == s[1..][i - 1 := e];
      CountKindUpdate(s[1..], i - 1, e, k);
    } else {
      assert s[i := e][1..] == s[1..];
    }
  }

  /** Appending well-formed entities that are not players keeps the pool
      well-formed and its player count. */
  lemma AppendKeepsValid(s: seq<Entity>, t: seq<Entity>)
    requires AllWellFormed(s) && AllWellFormed(t)
    requires forall i :: 0 <= i < |t| ==> t[i].kind != Player
    ensures AllWellFormed(s + t)
    ensures CountKind(s + t, Player) == CountKind(s, Player)
  {
    CountKindAppend(s, t, Player);
    CountKindNone(t, Player);
  }

  /** Replacing an entity by a well-formed one of the same kind keeps the
      pool well-formed and its counts. */
  lemma UpdateKeepsValid(s: seq<Entity>, i: nat, e: Entity)
    requires i < |s| && AllWellFormed(s) && WellFormed(e) && e.kind == s[i].kind
    ensures AllWellFormed(s[i := e])
    ensures CountKind(s[i := e], Player) == CountKind(s, Player)
  {
    CountKindUpdate(s, i, e, Player);
  }

  /** The part of an entity the collision scan never changes */
  function Shape(e: Entity): (Kind, real) {
    (e.kind, e.r)
  }

  predicate SameShapes(s: seq<Entity>, t: seq<Entity>) {
    |s| == |t| && forall i :: 0 <= i < |s| ==> Shape(s[i]) == Shape(t[i])
  }

  lemma {:induction false} CountKindSameShapes(s: seq<Entity>, t: seq<Entity>, k: Kind)
    requires SameShapes(s, t)
    ensures CountKind(s, k) == CountKind(t, k)
  {
    if s != [] {
      assert Shape(s[0]) == Shape(t[0]);
      CountKindSameShapes(s[1..], t[1..], k);
    }
  }

  /** The kinds an entity appended during the scan can have: small
      asteroids, explosions and explosion effects. */
  predicate Inert(e: Entity) {
    IsSmallAsteroid(e) || e.kind == Explosion || e.kind == ExplosionEffect
  }

  /** q is p with some entries changed in everything but their shape, and
      with inert entities appended. */
  predicate Extends(p: seq<Entity>, q: seq<Entity>) {
    && |p| <= |q|
    && (forall i :: 0 <= i < |p| ==> Shape(q[i]) == Shape(p[i]))
    && (forall i :: |p| <= i < |q| ==> Inert(q[i]))
  }

  lemma ExtendsTransitive(p: seq<Entity>, q: seq<Entity>, r: seq<Entity>)
    requires Extends(p, q) && Extends(q, r)
    ensures Extends(p, r)
  {
    forall i | |p| <= i < |r|
      ensures Inert(r[i])
    {
      if i < |q| {
        assert Shape(r[i]) == Shape(q[i]);
      }
    }
  }

  /** What the collisions append: inert and well-formed */
  predicate AllFresh(t: seq<Entity>) {
    forall i :: 0 <= i < |t| ==> Inert(t[i]) && WellFormed(t[i])
  }

  lemma FreshAppend(t: seq<Entity>, u: seq<Entity>)
    requires AllFresh(t) && AllFresh(u)
    ensures AllFresh(t + u)
  {
    assert forall i :: 0 <= i < |t + u| ==> (t + u)[i] == if i < |t| then t[i] else u[i - |t|];
  }

  /** Changing shape-preserving fields and appending inert entities extends
      the pool. */
  lemma ExtendsByAppend(s: seq<Entity>, s': seq<Entity>, t: seq<Entity>)
    requires SameShapes(s', s) && AllFresh(t)
    ensures Extends(s, s' + t)
  {
    assert forall i :: |s| <= i < |s' + t| ==> (s' + t)[i] == t[i - |s|];
  }

  /** A hit changes two entries, keeping their kinds, and appends fresh
      entities: the pool stays well-formed and keeps its player count. */
  lemma HitKeepsValid(s: seq<Entity>, i: nat, e: Entity, j: nat, f: Entity, t: seq<Entity>)
    requires i < |s| && j < |s| && AllWellFormed(s) && WellFormed(e) && WellFormed(f)
    requires e.kind == s[i].kind && f.kind == s[j].kind && AllFresh(t)
    ensures AllWellFormed(s[i := e][j := f] + t)
    ensures CountKind(s[i := e][j := f] + t, Player) == CountKind(s, Player)
  {
    UpdateKeepsValid(s, i, e);
    UpdateKeepsValid(s[i := e], j, f);
    AppendKeepsValid(s[i := e][j := f], t);
  }

  /** A hit that keeps the two shapes extends the pool by exactly what it
      appends. */
  lemma HitExtends(s: seq<Entity>, i: nat, e: Entity, j: nat, f: Entity, t: seq<Entity>)
    requires i < |s| && j < |s| && Shape(e) == Shape(s[i]) && Shape(f) == Shape(s[j]) && AllFresh(t)
    ensures Extends(s, s[i := e][j := f] + t) && (s[i := e][j := f] + t)[|s|..] == t
  {
    ExtendsByAppend(s, s[i := e][j := f], t);
  }

  /** A bound on how much a single collision can still add to the pool once
      the scan reaches e: a boss or a bullet can cause 6 appends, each of
      them a small asteroid worth 3; a large asteroid can cause 4. */
  function EntityWeight(e: Entity): (w: nat)
    ensures w >= 1
  {
    if e.kind == Boss || IsAnyBullet(e) then 15
    else if e.kind == Asteroid && e.r != SMALL_R then 9
    else if e.kind == Asteroid then 3
    else 1
  }

  function Weight(s: seq<Entity>): nat {
    if s == [] then 0 else EntityWeight(s[0]) + Weight(s[1..])
  }

  lemma {:induction false} WeightAppend(s: seq<Entity>, t: seq<Entity>)
    ensures Weight(s + t) == Weight(s) + Weight(t)
  {
    if s == [] {
      assert s + t == t;
    } else {
      assert (s + t)[1..] == s[1..] + t;
      WeightAppend(s[1..], t);
    }
  }

  lemma {:induction false} WeightSameShapes(s: seq<Entity>, t: seq<Entity>)
    requires SameShapes(s, t)
    ensures Weight(s) == Weight(t)
  {
    if s != [] {
      assert Shape(s[0]) == Shape(t[0]);
      WeightSameShapes(s[1..], t[1..]);
    }
  }

  lemma WeightCons(e: Entity, s: seq<Entity>)
    ensures Weight([e] + s) == EntityWeight(e) + Weight(s)
  {
    assert ([e] + s)[1..] == s;
  }

  lemma {:induction false} WeightPieces(s: seq<Entity>)
    requires forall i :: 0 <= i < |s| ==> IsSmallAsteroid(s[i])
    ensures Weight(s) == 3 * |s|
  {
    if s != [] {
      assert IsSmallAsteroid(s[0]);
      WeightPieces(s[1..]);
    }
  }

  /** One visit of the inner scan loop at index j makes the weight of the
      rest of the pool go down, when what it appended weighs less than the
      entity at j. */
  lemma InnerScanDecreases(q: seq<Entity>, q': seq<Entity>, j: nat)
    requires j < |q| && Extends(q, q')
    requires Weight(q'[|q|..]) < EntityWeight(q[j])
    ensures Weight(q'[j + 1..]) < Weight(q[j..])
  {
    assert q'[j + 1..] == q'[j + 1..|q|] + q'[|q|..];
    WeightAppend(q'[j + 1..|q|], q'[|q|..]);
    WeightSameShapes(q'[j + 1..|q|], q[j + 1..]);
    assert q[j..] == [q[j]] + q[j + 1..];
    WeightAppend([q[j]], q[j + 1..]);
    assert Weight([q[j]]) == EntityWeight(q[j]) + Weight([q[j]][1..]);
  }

  /** The rank of an entity for the outer scan loop: bullets, then large
      asteroids and bosses, then small asteroids, then everything else. */
  function Tier(e: Entity): nat {
    if IsAnyBullet(e) then 3
    else if e.kind == Boss || (e.kind == Asteroid && e.r != SMALL_R) then 2
    else if e.kind == Asteroid then 1
    else 0
  }

  function TierCount(s: seq<Entity>, t: nat): nat {
    if s == [] then 0 else (if Tier(s[0]) == t then 1 else 0) + TierCount(s[1..], t)
  }

  lemma {:induction false} TierCountAppend(s: seq<Entity>, t: seq<Entity>, n: nat)
    ensures TierCount(s + t, n) == TierCount(s, n) + TierCount(t, n)
  {
    if s == [] {
      assert s + t == t;
    } else {
      assert (s + t)[1..] == s[1..] + t;
      TierCountAppend(s[1..], t, n);
    }
  }

  lemma {:induction false} TierCountSameShapes(s: seq<Entity>, t: seq<Entity>, n: nat)
    requires SameShapes(s, t)
    ensures TierCount(s, n) == TierCount(t, n)
  {
    if s != [] {
      assert Shape(s[0]) == Shape(t[0]);
      TierCountSameShapes(s[1..], t[1..], n);
    }
  }

  lemma {:induction false} TierCountNone(s: seq<Entity>, n: nat)
    requires forall i :: 0 <= i < |s| ==> Tier(s[i]) != n
    ensures TierCount(s, n) == 0
  {
    if s != [] {
      assert Tier(s[0]) != n;
      TierCountNone(s[1..], n);
    }
  }

  lemma TierSplit(p: seq<Entity>, p': seq<Entity>, i: nat, n: nat)
    requires i < |p| && Extends(p, p')
    ensures TierCount(p[i..], n) == (if Tier(p[i]) == n then 1 else 0) + TierCount(p[i + 1..], n)
    ensures TierCount(p'[i + 1..], n) == TierCount(p[i + 1..], n) + TierCount(p'[|p|..], n)
  {
    assert p'[i + 1..] == p'[i + 1..|p|] + p'[|p|..];
    TierCountAppend(p'[i + 1..|p|], p'[|p|..], n);
    TierCountSameShapes(p'[i + 1..|p|], p[i + 1..], n);
  }

  /** p' is p extended by what the inner scan loop for index i may append:
      nothing but explosions when the entity at i is a small asteroid, and
      nothing at all when it is neither bullet nor asteroid nor boss. */
  predicate RowBound(p: seq<Entity>, p': seq<Entity>, i: nat) {
    && i < |p| && Extends(p, p')
    && (Tier(p[i]) == 1 ==> forall k :: |p| <= k < |p'| ==> p'[k].kind != Asteroid)
    && (Tier(p[i]) == 0 ==> |p'| == |p|)
  }

  /** Two visits within the allowance for i stay within it together. */
  lemma RowBoundTransitive(p: seq<Entity>, q: seq<Entity>, r: seq<Entity>, i: nat)
    requires RowBound(p, q, i) && RowBound(q, r, i)
    ensures RowBound(p, r, i)
  {
    ExtendsTransitive(p, q, r);
    assert Shape(q[i]) == Shape(p[i]);
    if Tier(p[i]) == 1 {
      forall k | |p| <= k < |r| ensures r[k].kind != Asteroid {
        if k < |q| {
          assert Shape(r[k]) == Shape(q[k]);
        }
      }
    }
  }

  /** What the inner scan loop for index i appends: only inert entities;
      nothing but explosions when the entity at i is a small asteroid;
      nothing at all when it is neither bullet nor asteroid nor boss.  Under
      those conditions the outer loop's measure goes down. */
  lemma OuterScanDecreases(p: seq<Entity>, p': seq<Entity>, i: nat)
    requires RowBound(p, p', i)
    ensures var before := (TierCount(p[i..], 3), TierCount(p[i..], 2), TierCount(p[i..], 1), |p| - i);
            var after := (TierCount(p'[i + 1..], 3), TierCount(p'[i + 1..], 2), TierCount(p'[i + 1..], 1), |p'| - (i + 1));
            after.0 < before.0 ||
            (after.0 == before.0 && (after.1 < before.1 ||
            (after.1 == before.1 && (after.2 < before.2 ||
            (after.2 == before.2 && after.3 < before.3)))))
  {
    var added := p'[|p|..];
    TierSplit(p, p', i, 3);
    TierSplit(p, p', i, 2);
    TierSplit(p, p', i, 1);
    assert forall k :: 0 <= k < |added| ==> Inert(added[k]) by {
      forall k | 0 <= k < |added| ensures Inert(added[k]) { assert added[k] == p'[|p| + k]; }
    }
    TierCountNone(added, 3);
    TierCountNone(added, 2);
    if Tier(p[i]) == 1 {
      forall k | 0 <= k < |added| ensures Tier(added[k]) != 1 {
        assert added[k] == p'[|p| + k];
      }
      TierCountNone(added, 1);
    }
  }
}
