# Purchase plan optimizer, modelled in Dafny

This project models `PurchaseOptimizer`, the purchase-plan engine of YGOsearcher. It takes a buyer's list of
requested cards and a flat pool of seller listings and returns at most five
purchase plans, cheapest first. The engine works in five steps:

1. it groups the listings by seller, in a dictionary whose keys keep
   first-seen order;
2. it enumerates every seller combination of size 1 up to
   min(`max_sellers_per_plan`, number of sellers), where `max_sellers_per_plan` is 3, in the order of
   `itertools.combinations`;
3. for each combination it scans the sellers in order, and each seller takes every
   still-uncovered card the listing selector finds an offer for. A seller that takes at least
   one card becomes a segment priced at its subtotal plus a flat shipping fee of
   60. The combination fails when a card is left over;
4. it sorts the successful plans by total cost with a stable sort;
5. it keeps the first five.

Module layout:

- `types.dfy`, module `PlanTypes`: the entities (card, listing, plan segment, plan)
  and the order-preserving subsequence relation.
- `grouping.dfy`, module `Grouping`: the seller dictionary and reference functions for
  its keys (`SellersOf`) and its values (`ListingsOf`).
- `combinations.dfy`, module `Combinations`: an enumerator `Combos` of the size-r subsequences, in
  `itertools` order, and its properties.
- `assembly.dfy`, module `Assembly`: the two policies (shipping fee, listing selector). It also holds the
  per-seller pass (`Offers`, `Unserved`), Python's `list.remove` (`RemoveFirst`) and the scan over the sellers (`Run`, `PurchasePlan`). Beside the scan sits a card-by-card
  first-fit reference (`Uncovered`, `AssignedTo`, `FirstFitSegments`) that the scan is proved to agree with.
- `ranking.dfy`, module `Ranking`: a stable sort by total cost, the cut to five, and the
  sort method.
- `optimizer.dfy`, module `Optimizer`: the class `PurchaseOptimizer` with the field
  `maxSellersPerPlan` and one method for each of `generate_plans`, `_group_by_seller`,
  `_generate_seller_combinations` and `_create_purchase_plan`, each proved against
  the reference functions. The other two source methods, `_find_best_listing` and
  `_calculate_shipping_fee`, compute a value without touching the optimizer's state.
  They are the functions `Assembly.FindBestListing` and `Assembly.ShippingFee`. The module also holds `OptimalPlans`, the function the whole engine
  computes, and the properties of its answer.

The listing selector `_find_best_listing` takes a card and a seller and may return a listing.
Every method and function that consults the selector takes it as a parameter of type `Selector`. All properties therefore hold
for any selector. The selector as shipped always returns `None`; it is
`Assembly.FindBestListing`, and `Optimizer.StubNoPlans` states what follows from it.

Points worth knowing about the code's behaviour:

- No best-offer rule. The docstring at optimizer.py:101-103 says the selector finds the best
  listing for a card at a seller. The comment at optimizer.py:104-105 says it returns the first
  matching listing for now. The body at optimizer.py:106 returns `None` whatever it is given.
- The assignment loop runs sellers outside and cards inside. A card therefore goes to the
  first seller, in combination order, that has a listing for it.
  `Assembly.FirstFit` proves this card-by-card reading equal to the loop.
- The returned plans need not be distinct. Insert, anywhere in a combination, a seller who
  supplies none of the cards, and the very same plan comes out (`Assembly.AddingIdleSeller`).
  When the size bound allows it, both combinations are tried. The answer can then hold
  equal plans twice.

## Model

| member | source | states |
|---|---|---|
| Optimizer.PurchaseOptimizer.constructor | optimizer.py:6-7 | a new optimizer allows at most 3 sellers per plan |
| Optimizer.PurchaseOptimizer.GeneratePlans | optimizer.py:9-29 | the answer is `OptimalPlans`: min(5, number of feasible plans) plans, sorted by total cost, drawn from the feasible plans; no feasible plan left out costs less than a returned one; each is the plan of a tried combination, valid for that combination (`ValidPlan`), and uses at most `maxSellersPerPlan` sellers |
| Optimizer.PurchaseOptimizer.GroupBySeller | optimizer.py:31-41 | the keys are the sellers in first-seen order, each once, and the sellers named by any prefix of the listings form a prefix of the keys; there is a key exactly for each seller named by a listing; each key holds that seller's listings in input order, all of that seller; the values concatenated in key order are the input listings up to order |
| Optimizer.PurchaseOptimizer.GenerateSellerCombinations | optimizer.py:43-53 | the list is `AllCombos(sellers, maxSellersPerPlan)`: the combinations of each size from 1 to min(k, number of sellers), by increasing size, each size in `itertools.combinations` order (its contents are stated by the `AllCombos` lemmas below) |
| Optimizer.PurchaseOptimizer.CreatePurchasePlan | optimizer.py:55-98 | the result is `PurchasePlan(cards, sellers)`; it is None exactly when some card has no listing at any seller of the combination; otherwise it is a valid plan for the combination (`ValidPlan`: every card covered once, at most one segment per seller in combination order, well-formed segments, the total of subtotals plus shipping) |
| Assembly.FindBestListing | optimizer.py:100-106 | the selector as shipped finds no listing for any card at any seller |
| Assembly.ShippingFee | optimizer.py:108-114 | every segment is charged the flat fee of 60, whatever its subtotal |
| Assembly.RemoveFirstAfter | optimizer.py:86 | `RemoveFirst` models `list.remove`: removing a card that does not occur before a given position drops exactly that occurrence, keeping the order of the rest |
| Assembly.ScanStep | optimizer.py:77-86 | one card of a seller's pass over the copy of the remaining cards: a supplied card adds its entry and leaves the remaining list; an unsupplied one stays |
| Assembly.UnservedHasNoOffer | optimizer.py:77-86 | every card a seller's pass leaves over was remaining and has no listing at that seller |
| Assembly.PassSplitsNames | optimizer.py:77-86 | a seller's pass splits the remaining card names into those it supplies and those left over, as multisets |
| Assembly.PassWithoutOffers | optimizer.py:77-88 | a seller with no listing for any remaining card supplies nothing and leaves every card over |
| Assembly.RunRemaining | optimizer.py:66-86 | after scanning a combination, the remaining cards are exactly, in request order, those no seller of the combination has a listing for |
| Assembly.FirstFit | optimizer.py:68-92 | each seller's segment holds exactly the cards for which it is the earliest seller of the combination with a listing, in request order; sellers who get no card have no segment |
| Assembly.UncoveredMembers | optimizer.py:66-86 | a card is left over exactly when it was requested and no seller of the combination has a listing for it |
| Assembly.PurchasePlanFails | optimizer.py:94-95 | a combination yields None exactly when some requested card has no listing at any of its sellers |
| Assembly.RunShape | optimizer.py:68-92 | a scan has at most one segment per seller scanned, in combination order; each is non-empty, has a subtotal equal to the sum of its prices, and is shipped once at the flat fee |
| Assembly.RunCoverage | optimizer.py:66-92 | each card moves from the remaining list into exactly one segment: segment names plus remaining names are the requested names, as multisets |
| Assembly.PurchasePlanSound | optimizer.py:59-98 | a successful plan satisfies `ValidPlan`: it covers every requested card exactly once and has at most one segment per seller, in combination order; every segment is well-formed; the total is the sum of subtotal plus shipping; the top-level card list is empty |
| Assembly.NoCardsEmptyPlan | optimizer.py:59-98 | with no cards requested, every combination yields the plan with no segments and total 0 |
| Assembly.AddingIdleSeller | optimizer.py:68-98 | a seller with no listing for any requested card, inserted at any position of a combination, changes neither the scan nor the plan |
| Grouping.SellersOfMembers | optimizer.py:36-39 | a seller is a key exactly when some listing names it |
| Grouping.SellersOfDistinct | optimizer.py:38-39 | each seller is a key once |
| Grouping.SellersOfPrefix | optimizer.py:36-39 | the keys built from a prefix of the listings are a prefix of the keys built from all of them |
| Grouping.SellersOfFirstSeen | optimizer.py:36-39 | keys are in first-seen order: a prefix of the listings that names a later key also names every earlier key |
| Grouping.ListingsOfShape | optimizer.py:36-40 | every listing in a group has that group's seller; the group keeps input order and takes nothing the input does not hold |
| Grouping.ListingsOfAbsent | optimizer.py:36-40 | a seller named by no listing has an empty group |
| Grouping.GroupsPartition | optimizer.py:35-41 | concatenating the groups in key order gives the same listings as the input, as a multiset: nothing lost or duplicated |
| Combinations.CombosCount | optimizer.py:51 | there are C(n, r) combinations of size r out of n sellers |
| Combinations.CombosAreSubseqs | optimizer.py:51 | the combinations of size r are exactly the order-preserving subsequences of length r |
| Combinations.CombosDistinct | optimizer.py:51 | with distinct sellers, no combination is produced twice |
| Combinations.AllCombosMembers | optimizer.py:47-53 | a list is tried exactly when it is an order-preserving subsequence of the sellers of size 1 to min(k, number of sellers) |
| Combinations.AllCombosDistinctSellers | optimizer.py:47-53 | with distinct keys, each combination holds distinct sellers |
| Combinations.AllCombosBySize | optimizer.py:50-51 | combinations are emitted by non-decreasing size |
| Combinations.AllCombosEmpty | optimizer.py:50 | there are none without sellers or when fewer than one seller is allowed |
| Combinations.CombosUpToCount | optimizer.py:50-51 | the number tried is the sum of C(n, r) over the sizes tried |
| Ranking.Top | optimizer.py:29 | the first five plans, or all when there are fewer |
| Ranking.TopCheapest | optimizer.py:27-29 | cutting a sorted list to five keeps part of it, and no plan cut off costs less than a plan kept |
| Ranking.SortByTotalCost | optimizer.py:27 | the sort's result is `SortByCost(plans)`: it is sorted by total cost and is a permutation of its input, and plans of equal cost keep their input order |
| Ranking.InsertByCostSpec | optimizer.py:27 | inserting into a sorted list keeps it sorted, adds exactly the plan, and puts it behind its equals |
| Ranking.SortByCostSpec | optimizer.py:27 | the stable sort is sorted, a permutation, and keeps the order within each cost |
| Ranking.StableSortUnique | optimizer.py:27 | any sorted list that keeps the order within each cost is this sort's result, so any stable sort gives the same plans |
| Optimizer.FeasiblePlansMembers | optimizer.py:20-24 | a plan is collected exactly when some tried combination yields it |
| Optimizer.OptimalPlansSpec | optimizer.py:9-29 | the answer has at most five plans, sorted by total cost; each is the plan of a tried combination, valid for it, and uses at most `maxSellers` sellers |
| Optimizer.OptimalPlansCheapest | optimizer.py:20-29 | the answer holds min(5, number of feasible plans) of the feasible plans, and no feasible plan left out costs less than a returned one |
| Optimizer.OptimalPlansStable | optimizer.py:27-29 | among plans of equal cost, the answer keeps a prefix of them in the order their combinations were tried |
| Optimizer.StubNoPlans | optimizer.py:21-29 | with the shipped selector, a non-empty request gets no plan at all |
| Optimizer.NoCardsPlans | optimizer.py:20-29 | with no cards requested, the answer holds min(5, number of combinations) plans, each with no segments and total 0 |
| Optimizer.NoCardsSomePlan | optimizer.py:20-29 | with no cards requested, at least one listing and at least one seller allowed, the answer is non-empty |

## Left out

- Floating point: prices, subtotals and totals are whole currency units (`int`), and the shipping fee `60.0` is the integer 60.
- The listing's own `shipping_fee` field is carried in `Listing` but never read, as in the code.
- A best-offer rule (say, lowest price) is not modelled: the code has no such rule. So the selector stays a parameter and every property holds for any selector.
- Python truthiness of a listing: a selector that returns an empty dictionary reads as "no listing" in the code. Here a selector says "no listing" only by returning None.
- Cards carry only their name. `list.remove` compares whole card dictionaries, but the model compares names. The selector receives only the name.
- `itertools.combinations` itself: the model uses its own enumerator `Combos`, which produces the same order, lexicographic by position.
- Timsort: `list.sort` is modelled by a stable insertion sort on a sequence value rather than an in-place list. `Ranking.StableSortUnique` shows that every stable sort by cost gives the same result.
- Aliasing: the input `cards` is a sequence value, so the model cannot show that the code leaves the caller's list unchanged. The code works on its own copy, and so does the model.
- Dictionaries: the grouped listings, plans and seller segments become a datatype with an explicit key order and records with named fields.
- scraper.py, app.py and card_database.py are not part of this model. They do HTTP fetching, HTML parsing, web routing, JSON file storage and fuzzy matching.
- Optimizer.PurchaseOptimizer.GenerateSellerCombinations: its ensures says only that the result equals `AllCombos`. Sizes, subsequence order, distinctness and emptiness are stated by the `Combinations.AllCombos*` lemmas, not repeated on the method.
