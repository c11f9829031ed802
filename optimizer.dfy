/**
 * The purchase optimizer: groups the listings by seller, tries every seller
 * combination of bounded size, keeps the combinations that cover all
 * requested cards, and returns the cheapest plans.
 */
module Optimizer {
  import opened PlanTypes
  import opened Grouping
  import opened Combinations
  import opened Assembly
  import opened Ranking

  /** The plans of the combinations that cover every card, in the order the combinations come in. */
  function FeasiblePlans(cards: seq<Card>, combos: seq<seq<Seller>>, sel: Selector): seq<Plan> {
    if combos == [] then []
    else
      FeasiblePlans(cards, combos[..|combos| - 1], sel)
        + (match PurchasePlan(cards, combos[|combos| - 1], sel) case Some(p) => [p] case None => [])
  }

  lemma FeasiblePlansSnoc(cards: seq<Card>, combos: seq<seq<Seller>>, i: nat, sel: Selector)
    requires i < |combos|
    ensures FeasiblePlans(cards, combos[..i + 1], sel)
         == FeasiblePlans(cards, combos[..i], sel) + (match PurchasePlan(cards, combos[i], sel) case Some(p) => [p] case None => [])
  {
    assert combos[..i + 1][..i] == combos[..i];
  }

  /** What the optimizer returns for `cards` and `listings` when it allows `maxSellers` sellers per plan. */
  function OptimalPlans(cards: seq<Card>, listings: seq<Listing>, sel: Selector, maxSellers: int): seq<Plan> {
    Top(SortByCost(FeasiblePlans(cards, AllCombos(SellersOf(listings), maxSellers), sel)))
  }

  /** The feasible plans are exactly the successful results of the combinations, in combination order. */
  lemma {:induction false} FeasiblePlansMembers(cards: seq<Card>, combos: seq<seq<Seller>>, sel: Selector, p: Plan)
    ensures p in FeasiblePlans(cards, combos, sel) <==> exists c :: c in combos && PurchasePlan(cards, c, sel) == Some(p)
  {
    if combos != [] {
      var q, c := combos[..|combos| - 1], combos[|combos| - 1];
      assert combos == q + [c];
      FeasiblePlansMembers(cards, q, sel, p);
      if exists d :: d in combos && PurchasePlan(cards, d, sel) == Some(p) {
        var d :| d in combos && PurchasePlan(cards, d, sel) == Some(p);
        if d != c {
          assert d in q;
        }
      }
    }
  }

  lemma {:induction false} FeasiblePlansNone(cards: seq<Card>, combos: seq<seq<Seller>>, sel: Selector)
    requires forall c :: c in combos ==> PurchasePlan(cards, c, sel).None?
    ensures FeasiblePlans(cards, combos, sel) == []
  {
    if combos != [] {
      FeasiblePlansNone(cards, combos[..|combos| - 1], sel);
    }
  }

  lemma {:induction false} FeasiblePlansNoCards(combos: seq<seq<Seller>>, sel: Selector)
    ensures |FeasiblePlans([], combos, sel)| == |combos|
    ensures forall p :: p in FeasiblePlans([], combos, sel) ==> p == Plan([], 0, [])
  {
    if combos != [] {
      FeasiblePlansNoCards(combos[..|combos| - 1], sel);
      NoCardsEmptyPlan(combos[|combos| - 1], sel);
    }
  }

  /**
   * The optimizer's answer has at most five plans, sorted by total cost; each
   * is the plan of one of the combinations tried and valid for it, so it
   * uses at most `maxSellers` sellers.
   */
  lemma OptimalPlansSpec(cards: seq<Card>, listings: seq<Listing>, sel: Selector, maxSellers: int)
    ensures var r := OptimalPlans(cards, listings, sel, maxSellers);
      && |r| <= MaxPlans
      && SortedByCost(r)
      && (forall p :: p in r ==> |p.sellers| <= maxSellers)
      && (forall p :: p in r ==>
            exists c :: c in AllCombos(SellersOf(listings), maxSellers)
                     && PurchasePlan(cards, c, sel) == Some(p) && ValidPlan(cards, c, p))
  {
    var combos := AllCombos(SellersOf(listings), maxSellers);
    var found := FeasiblePlans(cards, combos, sel);
    var sorted := SortByCost(found);
    SortByCostSpec(found);
    var r := Top(sorted);
    assert SortedByCost(r) by {
      forall i, j | 0 <= i < j < |r| ensures r[i].totalCost <= r[j].totalCost {
        assert r[i] == sorted[i] && r[j] == sorted[j];
      }
    }
    AllCombosMembers(SellersOf(listings), maxSellers);
    forall p | p in r
      ensures |p.sellers| <= maxSellers
      ensures exists c :: c in combos && PurchasePlan(cards, c, sel) == Some(p) && ValidPlan(cards, c, p)
    {
      assert p in sorted;
      assert p in multiset(found);
      FeasiblePlansMembers(cards, combos, sel, p);
      var c :| c in combos && PurchasePlan(cards, c, sel) == Some(p);
      PurchasePlanSound(cards, c, sel);
    }
  }

  /**
   * The answer is the cheapest part of the feasible plans: it holds
   * min(5, number of feasible plans) of them, so all when there are fewer
   * than five, and no feasible plan left out costs less than a returned one.
   */
  lemma OptimalPlansCheapest(cards: seq<Card>, listings: seq<Listing>, sel: Selector, maxSellers: int)
    ensures var found := FeasiblePlans(cards, AllCombos(SellersOf(listings), maxSellers), sel);
      var r := OptimalPlans(cards, listings, sel, maxSellers);
      && |r| == (if |found| < MaxPlans then |found| else MaxPlans)
      && multiset(r) <= multiset(found)
      && forall p, q :: p in r && q in multiset(found) - multiset(r) ==> p.totalCost <= q.totalCost
  {
    var found := FeasiblePlans(cards, AllCombos(SellersOf(listings), maxSellers), sel);
    var sorted := SortByCost(found);
    SortByCostSpec(found);
    assert |sorted| == |multiset(sorted)| == |multiset(found)| == |found|;
    TopCheapest(sorted);
  }

  /** Plans of equal cost come out in the order their combinations were tried. */
  lemma OptimalPlansStable(cards: seq<Card>, listings: seq<Listing>, sel: Selector, maxSellers: int, k: int)
    ensures WithCost(OptimalPlans(cards, listings, sel, maxSellers), k)
         <= WithCost(FeasiblePlans(cards, AllCombos(SellersOf(listings), maxSellers), sel), k)
  {
    var found := FeasiblePlans(cards, AllCombos(SellersOf(listings), maxSellers), sel);
    var sorted := SortByCost(found);
    SortByCostSpec(found);
    if |sorted| > MaxPlans {
      WithCostOfPrefix(sorted, MaxPlans, k);
    }
  }

  /** With the selector as shipped, no combination covers a non-empty request, so no plan is returned. */
  lemma StubNoPlans(cards: seq<Card>, listings: seq<Listing>, maxSellers: int)
    requires cards != []
    ensures OptimalPlans(cards, listings, FindBestListing, maxSellers) == []
  {
    var combos := AllCombos(SellersOf(listings), maxSellers);
    forall c | c in combos ensures PurchasePlan(cards, c, FindBestListing).None? {
      assert cards[0] in cards && NoOffer(cards[0], c, FindBestListing);
      PurchasePlanFails(cards, c, FindBestListing);
    }
    FeasiblePlansNone(cards, combos, FindBestListing);
  }

  /**
   * With no cards requested every combination succeeds with the empty plan:
   * the answer holds min(5, number of combinations) plans, each with no
   * segments and total cost 0.
   */
  lemma NoCardsPlans(listings: seq<Listing>, sel: Selector, maxSellers: int)
    ensures var r := OptimalPlans([], listings, sel, maxSellers);
      var n := |AllCombos(SellersOf(listings), maxSellers)|;
      && |r| == (if n < MaxPlans then n else MaxPlans)
      && (forall p :: p in r ==> p == Plan([], 0, []))
  {
    var combos := AllCombos(SellersOf(listings), maxSellers);
    var found := FeasiblePlans([], combos, sel);
    FeasiblePlansNoCards(combos, sel);
    SortByCostSpec(found);
    var sorted := SortByCost(found);
    assert |sorted| == |multiset(sorted)| == |multiset(found)| == |found|;
    forall p | p in Top(sorted) ensures p == Plan([], 0, []) {
      assert p in sorted;
      assert p in multiset(sorted);
      assert p in multiset(found);
      assert p in found;
    }
  }

  /** A request for no cards gets at least one plan once there is a listing and one seller is allowed. */
  lemma NoCardsSomePlan(listings: seq<Listing>, sel: Selector, maxSellers: int)
    requires listings != [] && maxSellers >= 1
    ensures OptimalPlans([], listings, sel, maxSellers) != []
  {
    var sellers := SellersOf(listings);
    var combos := AllCombos(sellers, maxSellers);
    SellersOfMembers(listings, listings[0].seller);
    var s := sellers[0];
    assert IsSubseq([s], sellers) by {
      assert [s][1..] == [];
    }
    AllCombosMembers(sellers, maxSellers);
    assert [s] in combos;
    NoCardsPlans(listings, sel, maxSellers);
  }

  /** The optimizer; `maxSellersPerPlan` bounds the size of the seller combinations it tries. */
  class PurchaseOptimizer {
    var maxSellersPerPlan: int

    constructor ()
      ensures maxSellersPerPlan == 3
    {
      maxSellersPerPlan := 3;
    }

    /**
     * The cheapest plans, min(5, number of feasible plans) of them, sorted by
     * total cost; each is the valid plan of a tried combination and so uses at
     * most `maxSellersPerPlan` sellers, and no feasible plan left out is cheaper.
     */
    method GeneratePlans(cards: seq<Card>, listings: seq<Listing>, sel: Selector) returns (plans: seq<Plan>)
      ensures plans == OptimalPlans(cards, listings, sel, maxSellersPerPlan)
      ensures |plans| <= MaxPlans && SortedByCost(plans)
      ensures forall p :: p in plans ==> |p.sellers| <= maxSellersPerPlan
      ensures forall p :: p in plans ==>
        exists c :: c in AllCombos(SellersOf(listings), maxSellersPerPlan)
                 && PurchasePlan(cards, c, sel) == Some(p) && ValidPlan(cards, c, p)
      ensures var found := FeasiblePlans(cards, AllCombos(SellersOf(listings), maxSellersPerPlan), sel);
        && |plans| == (if |found| < MaxPlans then |found| else MaxPlans)
        && multiset(plans) <= multiset(found)
        && forall p, q :: p in plans && q in multiset(found) - multiset(plans) ==> p.totalCost <= q.totalCost
    {
      var sellerListings := GroupBySeller(listings);
      var sellerCombinations := GenerateSellerCombinations(sellerListings);
      var found: seq<Plan> := [];
      for i := 0 to |sellerCombinations|
        invariant found == FeasiblePlans(cards, sellerCombinations[..i], sel)
      {
        FeasiblePlansSnoc(cards, sellerCombinations, i, sel);
        var plan := CreatePurchasePlan(cards, sellerCombinations[i], sel);
        if plan.Some? {
          found := found + [plan.value];
        }
      }
      assert sellerCombinations[..|sellerCombinations|] == sellerCombinations;
      var sorted := SortByTotalCost(found);
      plans := Top(sorted);
      OptimalPlansSpec(cards, listings, sel, maxSellersPerPlan);
      OptimalPlansCheapest(cards, listings, sel, maxSellersPerPlan);
    }

    /**
     * The listings grouped by seller: one key per seller in order of first
     * appearance, each holding that seller's listings in input order.
     */
    method GroupBySeller(listings: seq<Listing>) returns (groups: Groups)
      ensures groups.sellers == SellersOf(listings) && Distinct(groups.sellers)
      ensures forall m :: 0 <= m <= |listings| ==> SellersOf(listings[..m]) <= groups.sellers
      ensures forall k :: k in groups.listings <==> k in groups.sellers
      ensures forall k :: k in groups.listings ==> groups.listings[k] == ListingsOf(listings, k)
      ensures forall k, l :: k in groups.listings && l in groups.listings[k] ==> l.seller == k
      ensures multiset(Concat(groups.sellers, groups.listings)) == multiset(listings)
    {
      var sellers: seq<Seller> := [];
      var byseller: map<Seller, seq<Listing>> := map[];
      for i := 0 to |listings|
        invariant sellers == SellersOf(listings[..i])
        invariant forall k :: k in byseller <==> k in sellers
        invariant forall k :: k in byseller ==> byseller[k] == ListingsOf(listings[..i], k)
      {
        var listing := listings[i];
        var seller := listing.seller;
        assert listings[..i + 1] == listings[..i] + [listing];
        SellersOfSnoc(listings[..i], listing);
        forall k ensures ListingsOf(listings[..i + 1], k) == ListingsOf(listings[..i], k) + (if seller == k then [listing] else []) {
          ListingsOfSnoc(listings[..i], listing, k);
        }
        if seller !in byseller {
          ListingsOfAbsent(listings[..i], seller);
          sellers := sellers + [seller];
          byseller := byseller[seller := []];
        }
        byseller := byseller[seller := byseller[seller] + [listing]];
      }
      assert listings[..|listings|] == listings;
      groups := Groups(sellers, byseller);
      SellersOfDistinct(listings);
      forall m | 0 <= m <= |listings| ensures SellersOf(listings[..m]) <= groups.sellers {
        SellersOfPrefix(listings, m);
      }
      forall k | k in groups.sellers {
        ListingsOfShape(listings, k);
      }
      ConcatOfGroups(sellers, byseller, listings);
      GroupsPartition(listings);
    }

    /**
     * The seller combinations to try, size 1 first, then size 2, and so on up
     * to min(`maxSellersPerPlan`, number of sellers), each size in the order of
     * `itertools.combinations`; `AllCombosMembers`, `AllCombosDistinctSellers`,
     * `AllCombosBySize` and `AllCombosEmpty` state what that enumeration holds.
     */
    method GenerateSellerCombinations(groups: Groups) returns (combos: seq<seq<Seller>>)
      ensures combos == AllCombos(groups.sellers, maxSellersPerPlan)
    {
      var sellers := groups.sellers;
      var k := maxSellersPerPlan;
      combos := [];
      var stop := if k + 1 < |sellers| + 1 then k + 1 else |sellers| + 1;
      var r := 1;
      while r < stop
        invariant 1 <= r && (r <= stop || r == 1)
        invariant combos == CombosUpTo(sellers, r - 1)
      {
        assert CombosUpTo(sellers, r) == CombosUpTo(sellers, r - 1) + Combos(sellers, r);
        combos := combos + Combos(sellers, r);
        r := r + 1;
      }
      assert combos == AllCombos(sellers, k);
    }

    /**
     * The plan for one seller combination: the sellers are scanned in order
     * and each takes every remaining card it has a listing for; None if a card
     * is left over.
     */
    method CreatePurchasePlan(cards: seq<Card>, sellers: seq<Seller>, sel: Selector) returns (plan: Option<Plan>)
      ensures plan == PurchasePlan(cards, sellers, sel)
      ensures plan.None? <==> exists c :: c in cards && NoOffer(c, sellers, sel)
      ensures plan.Some? ==> ValidPlan(cards, sellers, plan.value)
    {
      var segments: seq<SellerPlan> := [];
      var totalCost := 0;
      var remaining := cards;
      for j := 0 to |sellers|
        invariant Run(cards, sellers[..j], sel) == Progress(segments, remaining)
        invariant totalCost == TotalCost(segments)
      {
        var seller := sellers[j];
        var sellerCards: seq<PlanCard> := [];
        var subtotal := 0;
        var scan := remaining;
        for i := 0 to |scan|
          invariant sellerCards == Offers(scan[..i], seller, sel)
          invariant subtotal == SumPrices(sellerCards)
          invariant remaining == Unserved(scan[..i], seller, sel) + scan[i..]
        {
          var card := scan[i];
          ScanStep(scan, i, seller, sel);
          var best := sel(card, seller);
          if best.Some? {
            var entry := PlanCard(card.name, best.value.price, best.value.url);
            SumPricesSnoc(sellerCards, entry);
            sellerCards := sellerCards + [entry];
            subtotal := subtotal + best.value.price;
            remaining := RemoveFirst(remaining, card);
          }
        }
        assert scan[..|scan|] == scan;
        RunSnoc(cards, sellers, j, sel);
        if sellerCards != [] {
          var shippingFee := ShippingFee(subtotal);
          var segment := SellerPlan(seller, sellerCards, subtotal, shippingFee);
          TotalCostSnoc(segments, segment);
          segments := segments + [segment];
          totalCost := totalCost + subtotal + shippingFee;
        }
      }
      assert sellers[..|sellers|] == sellers;
      PurchasePlanFails(cards, sellers, sel);
      if remaining != [] {
        return None;
      }
      plan := Some(Plan(segments, totalCost, []));
      PurchasePlanSound(cards, sellers, sel);
    }
  }
}
