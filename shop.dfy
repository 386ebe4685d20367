/** The points shop (menus/shop_menu.rs): points carried over from the
    rounds buy levels of two upgrades, each level costing three times the
    current level. */
module Shop {
  import opened Reaction

  /** The price of the next level when the current level is `level`
      (shop_menu.rs:99, shop_menu.rs:113). */
  function Cost(level: nat): (r: nat)
    ensures r % 3 == 0
    ensures level >= 1 ==> r >= 3
  {
    level * 3
  }

  /** What buying an upgrade from level 1 up to `level` has cost in all. */
  function Spent(level: nat): (r: nat)
    ensures r % 3 == 0
    ensures level >= 2 ==> r >= 3
  {
    if level <= 1 then 0 else Spent(level - 1) + Cost(level - 1)
  }

  /** The resources `TotalPoints`, `ChainRadiusLevel` and
      `SlimeSlownessLevel`. */
  class ShopState {
    var totalPoints: nat
    var chainRadiusLevel: nat
    var slimeSlownessLevel: nat
    /** Every point ever added to the total. */
    ghost var earned: nat

    /** Points are only ever spent on levels: what is left plus what the
        two upgrades cost equals what was earned. */
    ghost predicate Valid()
      reads this
    {
      && chainRadiusLevel >= 1 && slimeSlownessLevel >= 1
      && totalPoints + Spent(chainRadiusLevel) + Spent(slimeSlownessLevel) == earned
    }

    /** The plugin set-up (shop_menu.rs:11-13): no points, both levels 1. */
    constructor ()
      ensures Valid()
      ensures totalPoints == 0 && chainRadiusLevel == 1 && slimeSlownessLevel == 1
    {
      totalPoints := 0;
      chainRadiusLevel := 1;
      slimeSlownessLevel := 1;
      earned := 0;
    }

    /** `buy_chain_radius` (shop_menu.rs:93-105). */
    method BuyChainRadius()
      requires Valid()
      modifies this
      ensures Valid() && earned == old(earned)
      ensures slimeSlownessLevel == old(slimeSlownessLevel)
      ensures old(totalPoints) < Cost(old(chainRadiusLevel)) ==>
        totalPoints == old(totalPoints) && chainRadiusLevel == old(chainRadiusLevel)
      ensures old(totalPoints) >= Cost(old(chainRadiusLevel)) ==>
        && totalPoints == old(totalPoints) - Cost(old(chainRadiusLevel))
        && chainRadiusLevel == old(chainRadiusLevel) + 1
    {
      if totalPoints < chainRadiusLevel * 3 {
        return;
      }
      totalPoints := totalPoints - chainRadiusLevel * 3;
      chainRadiusLevel := chainRadiusLevel + 1;
    }

    /** `buy_slime_slowness` (shop_menu.rs:107-119). */
    method BuySlimeSlowness()
      requires Valid()
      modifies this
      ensures Valid() && earned == old(earned)
      ensures chainRadiusLevel == old(chainRadiusLevel)
      ensures old(totalPoints) < Cost(old(slimeSlownessLevel)) ==>
        totalPoints == old(totalPoints) && slimeSlownessLevel == old(slimeSlownessLevel)
      ensures old(totalPoints) >= Cost(old(slimeSlownessLevel)) ==>
        && totalPoints == old(totalPoints) - Cost(old(slimeSlownessLevel))
        && slimeSlownessLevel == old(slimeSlownessLevel) + 1
    {
      if totalPoints < slimeSlownessLevel * 3 {
        return;
      }
      totalPoints := totalPoints - slimeSlownessLevel * 3;
      slimeSlownessLevel := slimeSlownessLevel + 1;
    }

    /** `add_to_total_points` (shop_menu.rs:24-26), run on leaving a round. */
    method AddToTotalPoints(score: Score)
      requires Valid()
      modifies this
      ensures Valid() && earned == old(earned) + score.value
      ensures totalPoints == old(totalPoints) + score.value
      ensures chainRadiusLevel == old(chainRadiusLevel) && slimeSlownessLevel == old(slimeSlownessLevel)
    {
      totalPoints := totalPoints + score.value;
      earned := earned + score.value;
    }
  }

  /** `reset_score` (shop_menu.rs:20-22), run on entering a round. */
  method ResetScore(score: Score)
    modifies score
    ensures score.value == 0
  {
    score.value := 0;
  }

  /** A round seen from the shop: entering resets the score, play adds
      `gained` points, leaving carries the score over, so the total grows
      by exactly what the round earned. */
  method PlayRound(shop: ShopState, score: Score, gained: nat)
    requires shop.Valid()
    modifies shop, score
    ensures shop.Valid()
    ensures score.value == gained
    ensures shop.totalPoints == old(shop.totalPoints) + gained
    ensures shop.chainRadiusLevel == old(shop.chainRadiusLevel)
    ensures shop.slimeSlownessLevel == old(shop.slimeSlownessLevel)
  {
    ResetScore(score);
    score.value := score.value + gained;
    shop.AddToTotalPoints(score);
  }

  /** Each level costs three more than the one before it, and the first
      purchase costs 3. */
  lemma CostStep(level: nat)
    requires level >= 1
    ensures Cost(1) == 3
    ensures Cost(level + 1) == Cost(level) + 3
  {
  }

  /** Buying an upgrade up from level 1 to level `n + 1` costs
      `3 + 6 + ... + 3n = 3n(n + 1)/2` points. */
  lemma {:induction false} SpentFormula(n: nat)
    ensures 2 * Spent(n + 1) == 3 * n * (n + 1)
  {
    if n > 0 {
      SpentFormula(n - 1);
      assert Spent(n + 1) == Spent(n) + 3 * n;
      assert 3 * n * (n + 1) == 3 * (n - 1) * n + 6 * n;
    }
  }

  /** From a fresh shop, 9 points buy chain radius level 3 (3 + 6) and
      leave nothing for slime slowness. */
  method SpendNine() returns (total: nat, chainRadius: nat, slimeSlowness: nat)
    ensures total == 0 && chainRadius == 3 && slimeSlowness == 1
  {
    var shop := new ShopState();
    var score := new Score();
    PlayRound(shop, score, 9);
    shop.BuyChainRadius();
    shop.BuyChainRadius();
    shop.BuySlimeSlowness();
    total, chainRadius, slimeSlowness := shop.totalPoints, shop.chainRadiusLevel, shop.slimeSlownessLevel;
  }
}
