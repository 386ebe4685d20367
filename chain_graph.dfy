/** The chain graph built by clicking enemies (main.rs `on_click_enemy`,
    the `Chained` component and the `LastEntityChained` resource).

    Every chained enemy holds one `prev` identifier. Linking a new enemy
    overwrites the old tail's `prev` to point at the newcomer, so `prev`
    points FORWARD, toward the most recently linked enemy; the newest
    enemy points at the player. */
module ChainGraph {
  import opened Entities

  /** The `Chained` map that linking the enemies of `links`, in that
      order, produces when it starts from an empty chain whose tail is
      the player `p`. Each step is the rewrite of main.rs:723-729. */
  function ChainOf(links: seq<Id>, p: Id): map<Id, Id>
  {
    if links == [] then map[]
    else
      var init := links[..|links| - 1];
      var x := Last(links);
      var m := ChainOf(init, p);
      (if init == [] then m else m[Last(init) := x])[x := p]
  }

  /** The `LastEntityChained` value after linking `links`. */
  function TailOf(links: seq<Id>, p: Id): Id
  {
    if links == [] then p else Last(links)
  }

  /** The shape of a chain: its keys are the linked enemies, every enemy
      points at the one linked right after it, and the newest one points
      at the player. */
  lemma {:induction false} ChainOfShape(links: seq<Id>, p: Id)
    requires Distinct(links) && p !in links
    ensures ChainOf(links, p).Keys == Elems(links)
    ensures forall i :: 0 <= i < |links| - 1 ==> ChainOf(links, p)[links[i]] == links[i + 1]
    ensures |links| > 0 ==> ChainOf(links, p)[Last(links)] == p
  {
    if |links| > 0 {
      var init := links[..|links| - 1];
      assert Distinct(init);
      ChainOfShape(init, p);
      var m := ChainOf(init, p);
      var x := Last(links);
      assert x !in init;
      var m' := if init == [] then m else m[Last(init) := x];
      assert ChainOf(links, p) == m'[x := p];
      assert Elems(links) == Elems(init) + {x};
      forall i | 0 <= i < |links| - 1
        ensures ChainOf(links, p)[links[i]] == links[i + 1]
      {
        assert links[i] == init[i] && links[i] != x;
        if i < |init| - 1 {
          assert init[i] != Last(init);
          assert m'[links[i]] == m[init[i]] == init[i + 1] == links[i + 1];
        } else {
          assert links[i] == Last(init) && m'[links[i]] == x;
        }
      }
    }
  }

  /** One linking step, as a statement about `ChainOf`. */
  lemma ChainOfSnoc(links: seq<Id>, x: Id, p: Id)
    ensures ChainOf(links + [x], p) ==
      (if links == [] then ChainOf(links, p) else ChainOf(links, p)[Last(links) := x])[x := p]
  {
    assert (links + [x])[..|links|] == links;
  }

  /** Exactly one chained enemy points at the player, and it is the tail. */
  lemma OnlyTailPointsToPlayer(links: seq<Id>, p: Id)
    requires Distinct(links) && p !in links
    ensures links != [] ==> TailOf(links, p) in ChainOf(links, p)
    ensures forall e :: e in ChainOf(links, p) ==>
              (ChainOf(links, p)[e] == p <==> e == TailOf(links, p))
  {
    ChainOfShape(links, p);
    var m := ChainOf(links, p);
    forall e | e in m
      ensures m[e] == p <==> e == TailOf(links, p)
    {
      var i :| 0 <= i < |links| && links[i] == e;
      if i < |links| - 1 {
        assert m[e] == links[i + 1];
      }
    }
  }

  /** The chain state: the `Chained` components, which enemies currently
      carry `EnemyClickable`, and the `LastEntityChained` resource. */
  class Chain {
    /** The player entity of the current round. */
    const player: Id
    /** `Chained.prev` of every chained enemy. */
    var chained: map<Id, Id>
    /** The enemies that currently carry `EnemyClickable`. */
    var clickable: set<Id>
    /** `LastEntityChained`: the newest chained enemy, or the player. */
    var tail: Id
    /** The chained enemies in the order they were linked. */
    ghost var links: seq<Id>

    ghost predicate Valid()
      reads this
    {
      && Distinct(links)
      && player !in links
      && player !in clickable
      && chained == ChainOf(links, player)
      && tail == TailOf(links, player)
    }

    /** Player set-up (player.rs:186): the tail starts at the player. */
    constructor (player: Id)
      ensures Valid()
      ensures this.player == player && tail == player
      ensures chained == map[] && clickable == {} && links == []
    {
      this.player := player;
      chained := map[];
      clickable := {};
      tail := player;
      links := [];
    }

    /** Whether a click on `e` links it (main.rs:704). */
    predicate Eligible(e: Id)
      reads this
    {
      e in clickable && e !in chained
    }

    /** An eligible enemy is neither the player nor already linked. */
    lemma EligibleIsNew(e: Id)
      requires Valid() && Eligible(e)
      ensures e != player && e !in links
    {
      ChainOfShape(links, player);
    }

    /** The distance rule for one enemy (main.rs:746-754): an enemy in
        range gains `EnemyClickable`, one out of range loses it. The
        query runs over enemies only, never the player. */
    method SetClickable(e: Id, inRange: bool)
      requires Valid() && e != player
      modifies this
      ensures Valid()
      ensures clickable == if inRange then old(clickable) + {e} else old(clickable) - {e}
      ensures chained == old(chained) && tail == old(tail) && links == old(links)
    {
      if inRange {
        clickable := clickable + {e};
      } else {
        clickable := clickable - {e};
      }
    }

    /** A click on `target` (main.rs:698-736). */
    method OnClickEnemy(target: Id)
      requires Valid()
      modifies this
      ensures Valid()
      ensures old(Eligible(target)) ==>
        && chained == (if old(tail) != player then old(chained)[old(tail) := target]
                       else old(chained))[target := player]
        && tail == target
        && clickable == old(clickable) - {target}
        && links == old(links) + [target]
      ensures old(Eligible(target)) ==>
        forall e :: e in old(chained) && e != old(tail) ==> e in chained && chained[e] == old(chained)[e]
      ensures !old(Eligible(target)) ==>
        chained == old(chained) && tail == old(tail) && clickable == old(clickable) && links == old(links)
    {
      if !(target in clickable && target !in chained) {
        return;
      }
      OnlyTailPointsToPlayer(links, player);
      if player != tail {
        // the `unwrap` of main.rs:726 cannot fail: the tail is chained
        assert tail in chained;
        chained := chained[tail := target];
      }
      chained := chained[target := player];
      clickable := clickable - {target};
      tail := target;
      ChainOfSnoc(links, target, player);
      ChainOfShape(links, player);
      links := links + [target];
    }

    /** What a chain reaction does to the chain: the tail goes back to the
        player (main.rs:288), then the entities of `destroyed` are
        despawned in that order, losing `Chained` and `EnemyClickable`
        with them (main.rs:387). */
    method ResetAndDespawn(destroyed: seq<Id>)
      requires Valid() && Elems(destroyed) == chained.Keys
      modifies this
      ensures Valid()
      ensures tail == player && chained == map[] && links == []
      ensures clickable == old(clickable) - Elems(destroyed)
    {
      tail := player;
      var i := 0;
      while i < |destroyed|
        invariant 0 <= i <= |destroyed|
        invariant tail == player && links == old(links)
        invariant chained == old(chained) - Elems(destroyed[..i])
        invariant clickable == old(clickable) - Elems(destroyed[..i])
      {
        assert Elems(destroyed[..i + 1]) == Elems(destroyed[..i]) + {destroyed[i]};
        chained := chained - {destroyed[i]};
        clickable := clickable - {destroyed[i]};
        i := i + 1;
      }
      assert destroyed[..i] == destroyed;
      links := [];
    }
  }

  /** Linking `e1`, `e2`, `e3` from a fresh round gives `e1.prev == e2`,
      `e2.prev == e3`, `e3.prev == player` and tail `e3`. */
  method LinkThree(p: Id, e1: Id, e2: Id, e3: Id) returns (chained: map<Id, Id>, tail: Id)
    requires p != e1 && p != e2 && p != e3 && e1 != e2 && e1 != e3 && e2 != e3
    ensures chained == map[e1 := e2, e2 := e3, e3 := p]
    ensures tail == e3
  {
    var c := new Chain(p);
    c.SetClickable(e1, true);
    c.SetClickable(e2, true);
    c.SetClickable(e3, true);
    assert c.Eligible(e1);
    c.OnClickEnemy(e1);
    assert c.chained == map[e1 := p] && c.tail == e1;
    assert c.Eligible(e2);
    c.OnClickEnemy(e2);
    assert c.chained == map[e1 := e2, e2 := p] && c.tail == e2;
    assert c.Eligible(e3);
    c.OnClickEnemy(e3);
    chained, tail := c.chained, c.tail;
  }
}
