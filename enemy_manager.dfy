/**
 * The registry of live enemies (EnemyManager.cs): removal with the
 * game-clear signal, and the nearest-live-enemy query the player's attack
 * uses to pick its target.
 */
module EnemyRegistry {
  import opened Common
  import opened EnemyActor
  import opened GameUi

  /** No element occurs twice: the registry is built from distinct components. */
  predicate Distinct<T(==)>(s: seq<T>)
  {
    forall i, j :: 0 <= i < j < |s| ==> s[i] != s[j]
  }

  /** The position of the first occurrence of `x`. */
  function IndexOf<T(==)>(s: seq<T>, x: T): (k: nat)
    requires x in s
    ensures k < |s| && s[k] == x && x !in s[..k]
  {
    if s[0] == x then 0
    else
      var k := IndexOf(s[1..], x);
      assert s[..k + 1] == [s[0]] + s[1..][..k];
      1 + k
  }

  /**
   * List.Remove: drop the first occurrence of `x`; without one, nothing
   * changes. The other elements keep their order.
   */
  function RemoveFirst<T(==)>(s: seq<T>, x: T): (r: seq<T>)
    ensures x !in s ==> r == s
    ensures x in s ==> |r| == |s| - 1
    ensures x in s ==> forall i :: 0 <= i < |r| ==> r[i] == s[if i < IndexOf(s, x) then i else i + 1]
    ensures multiset(r) == multiset(s) - multiset{x}
  {
    if x !in s then s
    else
      var k := IndexOf(s, x);
      assert s == s[..k] + [x] + s[k + 1..];
      s[..k] + s[k + 1..]
  }

  /** Removing keeps the registry free of duplicates, and the removed enemy is gone. */
  lemma RemoveKeepsDistinct<T>(s: seq<T>, x: T)
    requires Distinct(s)
    ensures Distinct(RemoveFirst(s, x))
    ensures x !in RemoveFirst(s, x)
  {
    if x in s {
      var k := IndexOf(s, x);
      var r := RemoveFirst(s, x);
      forall i, j | 0 <= i < j < |r| ensures r[i] != r[j] {
        var i' := if i < k then i else i + 1;
        var j' := if j < k then j else j + 1;
        assert r[i] == s[i'] && r[j] == s[j'];
      }
    }
  }

  /** Removing the same enemy twice is the same as removing it once. */
  lemma RemoveTwiceIsRemoveOnce<T>(s: seq<T>, x: T)
    requires Distinct(s)
    ensures RemoveFirst(RemoveFirst(s, x), x) == RemoveFirst(s, x)
  {
    RemoveKeepsDistinct(s, x);
  }

  /**
   * Whether Remove shows the game-clear banner: the enemy was registered,
   * the registry is empty afterwards and the player is alive.
   */
  predicate ClearsGame(before: seq<Enemy>, enemy: Enemy, playerDead: bool)
  {
    enemy in before && |RemoveFirst(before, enemy)| <= 0 && !playerDead
  }

  /** Game clear is signalled exactly when the last registered enemy is removed. */
  lemma ClearOnLastRemoval(before: seq<Enemy>, enemy: Enemy, playerDead: bool)
    ensures ClearsGame(before, enemy, playerDead) <==> before == [enemy] && !playerDead
  {
    if enemy in before {
      assert |RemoveFirst(before, enemy)| == |before| - 1 by {
        assert |multiset(RemoveFirst(before, enemy))| == |multiset(before)| - 1;
      }
      if |before| == 1 {
        assert before[0] == enemy;
      }
    }
  }

  /** A live enemy within `range` of the search centre. */
  predicate Candidate(e: Enemy, distanceTo: Enemy -> real, range: real)
    reads e
  {
    !e.IsDead() && distanceTo(e) <= range
  }

  /**
   * Position k holds the nearest candidate: no candidate is closer, and
   * every candidate before it is strictly farther (the first one wins a tie).
   */
  ghost predicate NearestAt(es: seq<Enemy>, k: int, distanceTo: Enemy -> real, range: real)
    reads es
  {
    && 0 <= k < |es|
    && Candidate(es[k], distanceTo, range)
    && (forall j :: 0 <= j < |es| && Candidate(es[j], distanceTo, range) ==> distanceTo(es[k]) <= distanceTo(es[j]))
    && (forall j :: 0 <= j < k && Candidate(es[j], distanceTo, range) ==> distanceTo(es[k]) < distanceTo(es[j]))
  }

  /** The tie-break makes the nearest position unique. */
  lemma NearestIsUnique(es: seq<Enemy>, k1: int, k2: int, distanceTo: Enemy -> real, range: real)
    requires NearestAt(es, k1, distanceTo, range) && NearestAt(es, k2, distanceTo, range)
    ensures k1 == k2
  {
  }

  class EnemyManager {
    /** The enemies alive in the game, in registration order. */
    var enemies: seq<Enemy>

    ghost predicate Valid()
      reads this
    {
      Distinct(enemies)
    }

    /** Awake: every Enemy component among the children, in order. */
    constructor (children: seq<Enemy>)
      requires Distinct(children)
      ensures enemies == children && Valid()
    {
      enemies := children;
    }

    /** Whether any enemy is still registered (GameManager's IsExistEnemy). */
    predicate IsExistEnemy()
      reads this
    {
      |enemies| > 0
    }

    /**
     * Remove a dead enemy: nothing for an unregistered one; otherwise take
     * it out, destroy it (cancelling its pending calls) and show game clear
     * when it was the last one and the player is alive.
     */
    method Remove(enemy: Enemy, playerDead: bool, ui: Screen)
      requires Valid()
      modifies this, enemy, ui
      ensures Valid()
      ensures enemies == RemoveFirst(old(enemies), enemy)
      ensures enemy !in old(enemies) ==> enemy.Snapshot() == old(enemy.Snapshot())
      ensures enemy in old(enemies) ==>
        enemy.Snapshot() == old(enemy.Snapshot()).(timers := multiset{}, knockBack := None, destroyed := true)
      ensures ui.shown == old(ui.shown) +
        (if ClearsGame(old(enemies), enemy, playerDead) then [GameEnd(true)] else [])
    {
      if enemy !in enemies {
        return;
      }
      RemoveKeepsDistinct(enemies, enemy);
      enemies := RemoveFirst(enemies, enemy);
      enemy.Destroy();
      if |enemies| <= 0 && !playerDead {
        ui.Show(GameEnd(true));
      }
    }

    /**
     * The nearest live enemy within `range` of the search centre, the first
     * one in registration order on a tie, or null when there is none.
     * `distanceTo` gives each enemy's distance from the search centre.
     */
    method GetNearestEnemy(distanceTo: Enemy -> real, range: real) returns (nearest: Enemy?)
      ensures nearest == null <==> forall j :: 0 <= j < |enemies| ==> !Candidate(enemies[j], distanceTo, range)
      ensures nearest != null ==> exists k :: NearestAt(enemies, k, distanceTo, range) && enemies[k] == nearest
    {
      nearest := null;
      var nearestDistance := 0.0;
      ghost var at := 0;
      for i := 0 to |enemies|
        invariant nearest == null <==> forall j :: 0 <= j < i ==> !Candidate(enemies[j], distanceTo, range)
        invariant nearest != null ==>
          && 0 <= at < i && enemies[at] == nearest
          && nearestDistance == distanceTo(nearest)
          && NearestAt(enemies[..i], at, distanceTo, range)
      {
        var enemy := enemies[i];
        if enemy.IsDead() {
          continue;
        }
        var distance := distanceTo(enemy);
        if distance > range {
          continue;
        }
        if nearest == null || distance < nearestDistance {
          nearestDistance := distance;
          nearest := enemy;
          at := i;
        }
      }
      assert enemies[..|enemies|] == enemies;
    }
  }
}
