/** The despawn pass (main.cpp:527-534): the remove_if that drops dead
    entities and finished explosions, crediting each dead blast wave's
    kills to the explosion score as it goes. */
module Cleanup {
  import opened Entities
  import opened Pools

  /** The removal condition of main.cpp:531-533 */
  predicate Removed(e: Entity) {
    (e.kind == Explosion && IsEnd(e.anim)) || (e.kind == ExplosionEffect && !e.life) || !e.life
  }

  /** What the side effect of the remove_if predicate adds for e (main.cpp:528-530) */
  function Credit(e: Entity): nat {
    if e.kind == ExplosionEffect && !e.life then e.damageDealt else 0
  }

  function Survivors(s: seq<Entity>): seq<Entity> {
    if s == [] then [] else (if Removed(s[0]) then [] else [s[0]]) + Survivors(s[1..])
  }

  function TotalCredit(s: seq<Entity>): nat {
    if s == [] then 0 else Credit(s[0]) + TotalCredit(s[1..])
  }

  lemma {:induction false} SurvivorsAppend(s: seq<Entity>, t: seq<Entity>)
    ensures Survivors(s + t) == Survivors(s) + Survivors(t)
    ensures TotalCredit(s + t) == TotalCredit(s) + TotalCredit(t)
  {
    if s == [] {
      assert s + t == t;
    } else {
      assert (s + t)[1..] == s[1..] + t;
      SurvivorsAppend(s[1..], t);
    }
  }

  /** Exactly the entities that are not removed survive, in their order,
      and every survivor is alive. */
  lemma {:induction false} SurvivorsMembers(s: seq<Entity>)
    ensures forall e :: e in Survivors(s) <==> e in s && !Removed(e)
    ensures forall i :: 0 <= i < |Survivors(s)| ==> Survivors(s)[i].life
    ensures |Survivors(s)| <= |s|
  {
    if s != [] {
      SurvivorsMembers(s[1..]);
      assert forall e :: e in s <==> e == s[0] || e in s[1..];
      var head := if Removed(s[0]) then [] else [s[0]];
      assert forall i :: 0 <= i < |Survivors(s)| ==>
        Survivors(s)[i] == if i < |head| then head[i] else Survivors(s[1..])[i - |head|];
    }
  }

  /** Nothing left behind can be credited again: a blast wave's kills are
      counted in the pass that removes it and never after. */
  lemma {:induction false} NoCreditLeft(s: seq<Entity>)
    ensures TotalCredit(Survivors(s)) == 0
  {
    if s != [] {
      NoCreditLeft(s[1..]);
      var head := if Removed(s[0]) then [] else [s[0]];
      SurvivorsAppend(head, Survivors(s[1..]));
      assert TotalCredit(head) == 0 by {
        if head != [] { assert head[1..] == []; }
      }
    }
  }

  /** A second pass changes nothing. */
  lemma SurvivorsIdempotent(s: seq<Entity>)
    ensures Survivors(Survivors(s)) == Survivors(s)
  {
    SurvivorsMembers(s);
    forall i | 0 <= i < |Survivors(s)| ensures !Removed(Survivors(s)[i]) {
      assert Survivors(s)[i] in Survivors(s);
    }
    AllLiveSurvive(Survivors(s));
  }

  lemma {:induction false} AllLiveSurvive(s: seq<Entity>)
    requires forall i :: 0 <= i < |s| ==> s[i].life && !(s[i].kind == Explosion && IsEnd(s[i].anim))
    ensures Survivors(s) == s
  {
    if s != [] {
      AllLiveSurvive(s[1..]);
    }
  }

  /** Players are alive, so the pass keeps every one of them. */
  lemma {:induction false} SurvivorsKeepPlayers(s: seq<Entity>)
    requires AllWellFormed(s)
    ensures CountKind(Survivors(s), Player) == CountKind(s, Player)
    ensures AllWellFormed(Survivors(s))
  {
    KeepPlayersCount(s);
    SurvivorsMembers(s);
    forall i | 0 <= i < |Survivors(s)| ensures WellFormed(Survivors(s)[i]) {
      assert Survivors(s)[i] in s;
    }
  }

  lemma {:induction false} KeepPlayersCount(s: seq<Entity>)
    requires forall i :: 0 <= i < |s| && s[i].kind == Player ==> s[i].life
    ensures CountKind(Survivors(s), Player) == CountKind(s, Player)
  {
    if s != [] {
      assert forall i :: 0 <= i < |s[1..]| ==> s[1..][i] == s[i + 1];
      KeepPlayersCount(s[1..]);
      var head := if Removed(s[0]) then [] else [s[0]];
      CountKindAppend(head, Survivors(s[1..]), Player);
    }
  }
}
