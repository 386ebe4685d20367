# Chain reaction and points shop, modelled in Dafny

This project models the core rules of a small arcade game. The player clicks enemies that are in range. Each click links the enemy into a chain. When the chain's colours are balanced, pressing Space sets off a chain reaction. The reaction destroys the chained enemies one by one, and each one destroyed raises a combo. The source also contains a points shop, in which the points of a round would buy upgrade levels. Its plugin is declared but never installed in the built game (see "## Left out"); the model covers it as declared.

The model covers six parts:

- `entities.dfy` (module `Entities`): opaque entity ids, the `Enemy` colour and polarity data, and facts about repetition-free id sequences.
- `chain_graph.dfy` (module `ChainGraph`): the `Chained.prev` map, the `EnemyClickable` set and the `LastEntityChained` tail, as a class `Chain`. Its methods are the click handler, the distance rule, and the reset and despawn step of a chain reaction. A ghost field records the order in which enemies were linked. The invariant `Valid()` ties the map to that order through `ChainOf`.
- `reaction.dfy` (module `Reaction`): `start_chain_reaction`.
  - The reconstruction of the destruction order is written twice: as functions (`FindTail`, `Walk`, `AppendMissing`, `Reconstruct`), and as the loops of the source in methods proved equal to those functions.
  - The order in which the ECS query visits entities is an explicit input.
  - The spawned destruction coroutine is run to completion, and its combo goes into `Score`.
- `balance.dfy` (module `Balance`): `draw_chain_balance`. It covers the per-colour tallies, the "needed to balance" markers, and what Space does.
- `layout.dfy` (module `LinkLayout`): `draw_chains` for one pair of endpoints. It covers the number of link sprites, their lerp fractions and their scale, over reals.
- `shop.dfy` (module `Shop`): the shop resources as a class, the two purchases, and the score hand-over between rounds that the shop plugin declares.

How `prev` is oriented: linking a new enemy rewrites the old tail's `prev` to the newcomer. So `prev` points toward the most recently linked enemy, and the newest enemy points at the player. Through the invariant, the reconstruction lemmas are connected to chains that the click handler can actually build (`ReconstructChain`, `CorrectedOrderIsReverse`).

## Model

| member | source | states |
|---|---|---|
| `ChainGraph.ChainOf` | src/main.rs:723-731 | Defines the `Chained` map after a sequence of clicks from an empty chain: each click rewrites the old tail's `prev` to the newcomer, unless the tail is the player, and inserts the newcomer with `prev = player`. Its properties are stated by `ChainOfSnoc`, `ChainOfShape` and `OnlyTailPointsToPlayer`. |
| `ChainGraph.TailOf` | src/main.rs:731 | Defines `LastEntityChained` after a sequence of clicks: the player when nothing is linked, otherwise the enemy linked last. |
| `ChainGraph.ChainOfSnoc` | src/main.rs:723-731 | One more click adds exactly one rewrite step to the map of the earlier clicks. |
| `ChainGraph.ChainOfShape` | src/main.rs:723-731 | After a sequence of links, the keys are exactly the linked enemies. Each enemy's `prev` is the enemy linked right after it. The newest enemy's `prev` is the player. |
| `ChainGraph.OnlyTailPointsToPlayer` | src/main.rs:723-731 | In every chain the linker builds, exactly one chained enemy has `prev == player`, and it is the tail. |
| `ChainGraph.Chain.constructor` | src/player.rs:186 | A round starts with tail = player, nothing chained and nothing clickable. |
| `ChainGraph.Chain.Eligible` | src/main.rs:704-721 | A click links `e` exactly when `e` carries `EnemyClickable` and has no `Chained`, the filter of the click handler's query. |
| `ChainGraph.Chain.EligibleIsNew` | src/main.rs:704-721 | Under the chain invariant, an eligible enemy is neither the player nor already linked, so linking it keeps the link order free of repeats. |
| `ChainGraph.Chain.SetClickable` | src/main.rs:746-754 | An enemy in range gains `EnemyClickable` and one out of range loses it. The chain and the tail are unchanged. |
| `ChainGraph.Chain.OnClickEnemy` | src/main.rs:698-736 | A click on a clickable, unchained enemy `x`: the old tail's `prev` becomes `x` unless the tail is the player; `x` is inserted with `prev = player`, stops being clickable and becomes the tail; no other `prev` changes. Any other click changes nothing. |
| `ChainGraph.Chain.ResetAndDespawn` | src/main.rs:288-387 | The tail goes back to the player, and every destroyed entity loses `Chained` and `EnemyClickable`. |
| `ChainGraph.LinkThree` | src/main.rs:723-731 | From a fresh round, linking e1, e2, e3 gives e1.prev = e2, e2.prev = e3, e3.prev = player and tail = e3. |
| `Reaction.FindTail` | src/main.rs:248-254 | The candidate is absent exactly when no entity points at the player. Otherwise it is the last entity in query order that does. |
| `Reaction.ScanSteps` | src/main.rs:263-269 | One pass of the inner scan as written: the candidates the pass takes, in order. Every one of them is an entity of the query. |
| `Reaction.Walk` | src/main.rs:260-273 | Every entity the walk pushes after its start is an entity of the query whose `prev` is not the player. |
| `Reaction.AppendMissing` | src/main.rs:276-281 | The fallback's result begins with the list it was given, and an entity is in the result exactly when it is in that list or in the query. |
| `Reaction.Reconstruct` | src/main.rs:248-281 | When reconstruction succeeds, the list is non-empty and starts with a chained entity whose `prev` is the player. |
| `Reaction.WalkFresh` | src/main.rs:260-273 | The walk never pushes an entity twice, and it stays inside the chained set. |
| `Reaction.AppendMissingProps` | src/main.rs:276-281 | The fallback keeps its prefix, adds no duplicates, and afterwards holds every entity of the query. |
| `Reaction.ReconstructAborts` | src/main.rs:256-259 | Reconstruction aborts exactly when no chained entity points at the player. |
| `Reaction.ReconstructIsPermutation` | src/main.rs:248-281 | When reconstruction succeeds, the list starts with an entity pointing at the player and lists every chained entity exactly once. |
| `Reaction.ReconstructChain` | src/main.rs:248-281 | On a chain the linker built, reconstruction aborts only if the chain is empty. Otherwise the list starts with the tail and is a permutation of the linked enemies. |
| `Reaction.FindTailLoop` | src/main.rs:248-254 | The loop computes `FindTail`. |
| `Reaction.ScanPass` | src/main.rs:263-269 | One pass of the inner scan follows every match in the same pass. `changed` reports whether any match was found. |
| `Reaction.WalkLoop` | src/main.rs:260-273 | The push/scan/break loop terminates and computes the start followed by `Walk`. |
| `Reaction.AppendMissingLoop` | src/main.rs:276-281 | The fallback loop computes `AppendMissing`. |
| `Reaction.ReconstructOrder` | src/main.rs:248-281 | The loops of the source compute `Reconstruct` for every query order. |
| `Reaction.Score.constructor` | src/main.rs:566-567 | `Score` starts at 0, as its derived `Default` gives. |
| `Reaction.RunReaction` | src/main.rs:290-392 | Entities are destroyed in list order. The i-th popup (from 0) shows `1 + 2i`, and the final combo after k entities is `1 + 2k`. |
| `Reaction.StartChainReaction` | src/main.rs:236-395 | On abort: nothing changes and the score is unchanged. Otherwise: the reconstructed list is destroyed in order, with popups `1 + 2i`; the tail is the player; the chain is empty; the destroyed entities are no longer clickable; and the score grows by exactly `1 + 2k`, once. |
| `Reaction.FirstPointingAt` | src/main.rs:263-269 | The corrected scan takes one match per pass: there is none exactly when no entity of the query points at `cur`, and otherwise it is an entity of the query that points at `cur`. |
| `Reaction.CorrectedWalk` | src/main.rs:260-273 | The corrected walk stays inside the query. Its first entity points at the end of the path, and each later entity points at the one before it, so it follows `prev` backward one link per step. |
| `Reaction.CorrectedOrder` | src/main.rs:248-273 | The corrected order is absent exactly when nothing points at the player. Otherwise it is a non-empty list of chained entities that starts at the entity pointing at the player and follows `prev` backward one link at a time. |
| `Reaction.CorrectedOrderIsReverse` | src/main.rs:260-273 | With one link per pass, for every query order, the walk destroys the chain newest-first: the exact reverse of the link order. |
| `Reaction.SameEntitiesEitherWay` | src/main.rs:260-281 | On any chain the linker built, the walk as written and the corrected walk destroy the same set of entities and lists of the same length, so the combo and the score do not depend on the defect. |
| `Reaction.AsWrittenSkipsLink` | src/main.rs:264-269 | For links 1, 2, 3 (player 0) and query order 3, 2, 1, the walk as written gives 3, 1, 2. |
| `Reaction.CorrectedKeepsLink` | src/main.rs:264-269 | The corrected walk gives 3, 2, 1 on the same input. |
| `Balance.Net` | src/main.rs:576-590 | Defines a colour's tally, +1 per Positive and −1 per Negative enemy of that colour. Over n enemies it lies between −n and n. |
| `Balance.Count` | src/main.rs:576-590 | Counts the enemies of one colour and one polarity, never more than there are enemies. |
| `Balance.NetIsDifference` | src/main.rs:577-590 | A colour's tally equals #Positive − #Negative among the chained enemies. |
| `Balance.EnemiesOf` | src/main.rs:570 | The `Enemy` components the query yields, one per visited entity and in the same order. |
| `Balance.Tally` | src/main.rs:576-590 | The counting loop computes each colour's tally over the query order. |
| `Balance.TallyIgnoresOrder` | src/main.rs:576-590 | Two query orders that visit the same entities give the same tallies: the balance does not depend on the ECS iteration order. |
| `Balance.DrawChainBalance` | src/main.rs:569-696 | The three tallies are computed over the chained enemies in query order, and the marker list is built from them. The start event is written iff Space is pressed and all tallies are 0. The error sound plays iff Space is pressed and some tally is not 0. |
| `Balance.Needed` | src/main.rs:632-650 | The markers for one colour: exactly `abs(net)` of them, each of that colour, with polarity Positive when net < 0 and Negative otherwise. |
| `Balance.NeededMarkers` | src/main.rs:632-688 | Every marker on the panel has the polarity opposite to its colour's tally. |
| `Balance.AppendMarkers` | src/main.rs:632-688 | Each marker loop adds `abs(net)` markers of its colour, with polarity Positive if net < 0 and Negative otherwise. |
| `Balance.NeededEmptyIffBalanced` | src/main.rs:632-695 | No marker is shown exactly when the chain is balanced. |
| `Balance.NeededRestoresBalance` | src/main.rs:632-695 | Chaining the shown markers would bring every tally to zero. |
| `Balance.RedExample` | src/main.rs:577-590 | Two positive and two negative reds balance. Removing one negative red leaves tally +1, and the panel then asks for one negative red. |
| `LinkLayout.Steps` | src/main.rs:887 | The cast saturates within `u32`, and on representable inputs it is the floor of `d / 12`. |
| `LinkLayout.MarkerCount` | src/main.rs:887-893 | The divisor is never below 5, because the short-link case replaces counts up to 4 by 6. |
| `LinkLayout.Remainder` | src/main.rs:886-888 | For every distance the cast can represent, the remainder is in [0, 1). |
| `LinkLayout.MarkerScale` | src/main.rs:899-903 | With a non-negative remainder, the scale is at least 0.8 in the short-link case and at least 1 otherwise. |
| `LinkLayout.Lerp` | src/main.rs:894-896 | `Vec3::lerp` gives the first endpoint at fraction 0 and the second at fraction 1. |
| `LinkLayout.MarkerAt` | src/main.rs:894-903 | A marker is lifted to z = 1 and carries the pair's scale. Index 0 would place it on the first endpoint and index `count` on the second; the loop draws neither. |
| `LinkLayout.LinkMarkers` | src/main.rs:886-904 | Exactly `count − 1` markers are drawn, the i-th at lerp fraction `i / count` with `z = 1` and with scale `base * (rem / count + 1)`. Here count = 6 when `floor(d/12) <= 4` and `floor(d/12)` otherwise, and base is 0.8 in the first case and 1.0 in the second. |
| `LinkLayout.FractionsIncreasing` | src/main.rs:895-897 | The marker fractions are strictly increasing and all lie strictly between 0 and 1. |
| `LinkLayout.ScaleBounds` | src/main.rs:888-903 | The remainder is in [0, 1), so the scale is in [0.8, 0.8·7/6) in the short case and in [1, 1 + 1/count) otherwise. |
| `LinkLayout.LongLinkExample` | src/main.rs:886-904 | At d = 100 the count is 8 (seven markers), with remainder 1/3 and scale 1 + 1/24. |
| `LinkLayout.ShortLinkExample` | src/main.rs:886-904 | At d = 20 the short case applies: count 6 (five markers), remainder 2/3, scale 8/9. |
| `Shop.Cost` | src/menus/shop_menu.rs:99-102 | The price of the next level is a multiple of 3, and at least 3 from level 1 up. |
| `Shop.Spent` | src/menus/shop_menu.rs:99-103 | What raising an upgrade to a level has cost is a multiple of 3, and at least 3 once one purchase was made. |
| `Shop.ShopState.constructor` | src/menus/shop_menu.rs:11-13 | The shop starts with no points and both levels at 1. |
| `Shop.ShopState.BuyChainRadius` | src/menus/shop_menu.rs:93-105 | With fewer than `level*3` points nothing changes. Otherwise the points drop by exactly `level*3` (never below zero) and the chain radius level rises by 1. The slime level never changes. |
| `Shop.ShopState.BuySlimeSlowness` | src/menus/shop_menu.rs:107-119 | The same as the chain radius purchase, for the slime slowness level; the chain radius level never changes. |
| `Shop.ShopState.AddToTotalPoints` | src/menus/shop_menu.rs:24-26 | The new total is the old total plus the score. |
| `Shop.ResetScore` | src/menus/shop_menu.rs:20-22 | The score becomes 0. |
| `Shop.PlayRound` | src/menus/shop_menu.rs:15-26 | Under the schedule the shop plugin declares, entering a round resets the score and leaving carries it over, so the total grows by exactly what that round earned. The built game never installs this schedule (see "## Left out"). |
| `Shop.CostStep` | src/menus/shop_menu.rs:99-103 | The first purchase costs 3, and each later purchase of the same upgrade costs 3 more than the one before. |
| `Shop.SpentFormula` | src/menus/shop_menu.rs:99-103 | Raising an upgrade from level 1 to level n + 1 costs 3n(n + 1)/2 points in all. |
| `Shop.SpendNine` | src/menus/shop_menu.rs:93-119 | Starting from a fresh shop, 9 points buy chain radius up to level 3 and leave nothing for slime slowness. |

The class invariants carry the rest:

- `ChainGraph.Chain.Valid` states that the map, the tail and the link order agree.
- `Shop.ShopState.Valid` states that the points left plus the cost of both levels equal everything earned. Every shop method preserves it.

## Left out

- Timing of the destruction coroutine is not modelled: the `f32` delays and the `sleep` and `sleep_frames` awaits (src/main.rs:289-394). The coroutine is treated as running to completion before any other system runs. The source has no guard against a second reaction starting while one is running, and the model has none either.
- Bevy event and command semantics are not modelled. The `EventReader` is never consumed, and inserts are deferred. Each handler is treated as atomic, and the reaction runs once per call.
- A stale entity is not modelled. If an entity in the list were gone by its turn, the particle closure would return early (src/main.rs:329-331), so no particle is spawned, and then the `unwrap()` of the combo-text lookup (src/main.rs:377-382) would panic. The model keeps every entity it destroys alive until its turn.
- `Reaction.StartChainReaction` destroys entities in the order the game code produces, skipped links included (see Findings), rather than in the corrected order. That order is what the game plays. `Reaction.SameEntitiesEitherWay` shows the two orders destroy the same entities, so every other effect, the score included, is the same.
- Floating point is modelled as exact reals: the positions, the lerp and the `d / 12` division. The `distance()` computation is not modelled; `LinkMarkers` takes the distance as an input.
- The sprite rotation is not modelled. The `atan2` angle (src/main.rs:883-884) and the rotation built from it (src/main.rs:910-915) have no counterpart: `Marker` has no rotation field.
- `draw_chains` is modelled for one pair. The outer loop over the chained pairs, and the skip when a position is missing, are not.
- `Reaction.StartChainReaction`: `Score` is an unbounded `nat`. The `u32` addition that would overflow after about 2^31 destroyed entities is not modelled.
- `Shop.ShopState.BuyChainRadius`: the cost `level*3` is computed in `u32` before widening to `u64`. Overflow for levels above 1431655765 is not modelled, and neither is the `u64` range of `TotalPoints`.
- `Shop.ShopState.BuySlimeSlowness`: the same `u32` cost and `u64` range limits apply.
- `Shop.ShopState.AddToTotalPoints`: `u64` overflow of the total is not modelled.
- `Balance.DrawChainBalance`: the `i32` tallies are unbounded integers.
- `LinkLayout.Steps`: a NaN distance is not modelled, because reals have none.
- Presentation is not modelled: the UI nodes and colours of the balance panel and the shop, audio, particles, combo text, hover tinting and the player animation. Only the computed data is kept.
- Movement, physics, hit tests, screen shake, tilemap generation and random enemies are not modelled. They lie outside the chain mechanic.
- `Shop.PlayRound`: models the schedule that src/menus/shop_menu.rs:14-16 declares, with `reset_score` on entering a round and `add_to_total_points` on leaving it. The built game never installs that schedule: src/menus/mod.rs:17-25 adds the main, pause, leaderboard and settings plugins but not `ShopMenuPlugin`, and `mod shop_menu` at src/menus/mod.rs:5 is private. So in this snapshot the score is never reset between rounds and never reaches `TotalPoints`.
- Menus, music and the leaderboard network client are not modelled. They lie outside the chain mechanic.
- Two behaviours a reader might expect that the code does not have; the model follows the code:
  - In the short-link case the scale is still `0.8 * (rem / 6 + 1)`, not a fixed 0.8. The `rem` is the one of the un-forced count.
  - A missing entity during the reaction makes the coroutine panic; it is not skipped.

## Findings

| source | as written | input that shows it | evidently intended | confidence | as-written member | corrected member |
|---|---|---|---|---|---|---|
| src/main.rs:264-269 | The inner scan keeps going after it moves the candidate. One pass can follow several links but pushes only the entity it ends on. The comment at src/main.rs:276 says the fallback exists because entities go missing. | Links 1, 2, 3 with player 0 (so 1.prev = 2, 2.prev = 3, 3.prev = 0) and query order 3, 2, 1. The first pass moves from 3 to 2 and on to 1, so 2 is appended last: the result is 3, 1, 2. | One link per pass, so the chain is destroyed newest-first: 3, 2, 1, the reverse of the link order. | not executed; high | `Reaction.AsWrittenSkipsLink` | `Reaction.CorrectedOrderIsReverse` |
