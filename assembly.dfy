/**
 * Assembly of one purchase plan from one seller combination: the sellers are
 * scanned in order, each takes every still-uncovered card it has a listing
 * for, and the combination fails if a card is left over.
 */
module Assembly {
  import opened PlanTypes

  /** The fixed per-seller shipping charge, in currency units. */
  const FlatShippingFee: int := 60

  /** Shipping charged for one seller segment: the flat fee, whatever the subtotal. */
  function ShippingFee(subtotal: int): (fee: int)
    ensures fee == FlatShippingFee && fee >= 0
  {
    FlatShippingFee
  }

  /** The listing selector as shipped: it never finds a listing for any card or seller. */
  function FindBestListing(card: Card, seller: Seller): (r: Option<Listing>)
    ensures r == None
  {
    None
  }

  /** Python's `list.remove`: drops the first element equal to `x`, which must be present. */
  function RemoveFirst(s: seq<Card>, x: Card): seq<Card>
    requires x in s
  {
    if s[0] == x then s[1..] else [s[0]] + RemoveFirst(s[1..], x)
  }

  lemma RemoveFirstCons(h: Card, r: seq<Card>, x: Card)
    requires h != x && x in r
    ensures RemoveFirst([h] + r, x) == [h] + RemoveFirst(r, x)
  {
    var u := [h] + r;
    assert u[0] == h && u[1..] == r;
  }

  lemma {:induction false} RemoveFirstAfter(a: seq<Card>, x: Card, b: seq<Card>)
    requires x !in a
    ensures RemoveFirst(a + [x] + b, x) == a + b
  {
    var t := a + [x] + b;
    if a == [] {
      assert t == [x] + b;
      assert t[0] == x && t[1..] == b;
    } else {
      var h, a' := a[0], a[1..];
      assert a == [h] + a';
      assert x !in a';
      RemoveFirstAfter(a', x, b);
      assert t == [h] + (a' + [x] + b);
      RemoveFirstCons(h, a' + [x] + b, x);
      assert a + b == [h] + (a' + b);
    }
  }

  /** The line a card gets in a segment when bought through listing `l`. */
  function Entry(c: Card, l: Listing): PlanCard {
    PlanCard(c.name, l.price, l.url)
  }

  /** The entries seller `s` supplies out of `rem`, in the order of `rem`. */
  function Offers(rem: seq<Card>, s: Seller, sel: Selector): seq<PlanCard> {
    if rem == [] then []
    else
      var c := rem[|rem| - 1];
      Offers(rem[..|rem| - 1], s, sel) + (if sel(c, s).Some? then [Entry(c, sel(c, s).value)] else [])
  }

  /** The cards of `rem` that seller `s` does not supply, in the order of `rem`. */
  function Unserved(rem: seq<Card>, s: Seller, sel: Selector): seq<Card> {
    if rem == [] then []
    else
      var c := rem[|rem| - 1];
      Unserved(rem[..|rem| - 1], s, sel) + (if sel(c, s).None? then [c] else [])
  }

  function SumPrices(es: seq<PlanCard>): int {
    if es == [] then 0 else SumPrices(es[..|es| - 1]) + es[|es| - 1].price
  }

  /** A seller segment holding entries `es`, with their subtotal and the seller's shipping fee. */
  function MakeSegment(s: Seller, es: seq<PlanCard>): SellerPlan {
    SellerPlan(s, es, SumPrices(es), ShippingFee(SumPrices(es)))
  }

  /** Sum over the segments of subtotal plus shipping fee. */
  function TotalCost(segs: seq<SellerPlan>): int {
    if segs == [] then 0
    else TotalCost(segs[..|segs| - 1]) + segs[|segs| - 1].subtotal + segs[|segs| - 1].shippingFee
  }

  /** Segments built so far and the cards still uncovered. */
  datatype Progress = Progress(segments: seq<SellerPlan>, remaining: seq<Card>)

  /**
   * Scanning one more seller `s`: it gets a segment if it supplies at least
   * one remaining card, and the cards it supplies stop being remaining.
   */
  function Step(p: Progress, s: Seller, sel: Selector): Progress {
    var es := Offers(p.remaining, s, sel);
    Progress(p.segments + (if es == [] then [] else [MakeSegment(s, es)]), Unserved(p.remaining, s, sel))
  }

  /** The state after scanning the sellers `ss` in order, starting from all of `cards`. */
  function Run(cards: seq<Card>, ss: seq<Seller>, sel: Selector): Progress {
    if ss == [] then Progress([], cards) else Step(Run(cards, ss[..|ss| - 1], sel), ss[|ss| - 1], sel)
  }

  lemma RunSnoc(cards: seq<Card>, ss: seq<Seller>, j: nat, sel: Selector)
    requires j < |ss|
    ensures Run(cards, ss[..j + 1], sel) == Step(Run(cards, ss[..j], sel), ss[j], sel)
  {
    assert ss[..j + 1][..j] == ss[..j];
  }

  /** The plan for combination `ss`, or None when some card is still uncovered after the scan. */
  function PurchasePlan(cards: seq<Card>, ss: seq<Seller>, sel: Selector): Option<Plan> {
    var p := Run(cards, ss, sel);
    if p.remaining != [] then None else Some(Plan(p.segments, TotalCost(p.segments), []))
  }

  // ---------------------------------------------------------------------------
  // Reference definitions, card by card

  /** No seller of `ss` has a listing for `c`. */
  predicate NoOffer(c: Card, ss: seq<Seller>, sel: Selector) {
    forall i :: 0 <= i < |ss| ==> sel(c, ss[i]).None?
  }

  /** The cards no seller of `ss` can supply, in request order. */
  function Uncovered(cards: seq<Card>, ss: seq<Seller>, sel: Selector): seq<Card> {
    if cards == [] then []
    else
      var c := cards[|cards| - 1];
      Uncovered(cards[..|cards| - 1], ss, sel) + (if NoOffer(c, ss, sel) then [c] else [])
  }

  /** First fit: `ss[j]` is the earliest seller of the combination with a listing for `c`. */
  predicate ServedFirstBy(c: Card, ss: seq<Seller>, j: nat, sel: Selector) {
    j < |ss| && NoOffer(c, ss[..j], sel) && sel(c, ss[j]).Some?
  }

  /** The entries of the cards whose first fit is `ss[j]`, in request order. */
  function AssignedTo(cards: seq<Card>, ss: seq<Seller>, j: nat, sel: Selector): seq<PlanCard>
    requires j < |ss|
  {
    if cards == [] then []
    else
      var c := cards[|cards| - 1];
      AssignedTo(cards[..|cards| - 1], ss, j, sel)
        + (if ServedFirstBy(c, ss, j, sel) then [Entry(c, sel(c, ss[j]).value)] else [])
  }

  /** One segment per seller among the first `n` of `ss` that is the first fit of some card. */
  function FirstFitSegments(cards: seq<Card>, ss: seq<Seller>, n: nat, sel: Selector): seq<SellerPlan>
    requires n <= |ss|
  {
    if n == 0 then []
    else
      var es := AssignedTo(cards, ss, n - 1, sel);
      FirstFitSegments(cards, ss, n - 1, sel) + (if es == [] then [] else [MakeSegment(ss[n - 1], es)])
  }

  function CardNames(cs: seq<Card>): seq<string> {
    seq(|cs|, i requires 0 <= i < |cs| => cs[i].name)
  }

  function EntryNames(es: seq<PlanCard>): seq<string> {
    seq(|es|, i requires 0 <= i < |es| => es[i].name)
  }

  /** The card names of all segments, segment after segment. */
  function SegmentNames(segs: seq<SellerPlan>): seq<string> {
    if segs == [] then [] else SegmentNames(segs[..|segs| - 1]) + EntryNames(segs[|segs| - 1].cards)
  }

  function SegmentSellers(segs: seq<SellerPlan>): seq<Seller> {
    if segs == [] then [] else SegmentSellers(segs[..|segs| - 1]) + [segs[|segs| - 1].name]
  }

  /** A segment as the engine builds it: non-empty, priced by its entries, shipped once. */
  predicate WellFormedSegment(seg: SellerPlan) {
    seg.cards != [] && seg.subtotal == SumPrices(seg.cards) && seg.shippingFee == FlatShippingFee
  }

  // ---------------------------------------------------------------------------
  // One pass over the remaining cards for one seller

  lemma OffersSnoc(rem: seq<Card>, c: Card, s: Seller, sel: Selector)
    ensures Offers(rem + [c], s, sel) == Offers(rem, s, sel) + (if sel(c, s).Some? then [Entry(c, sel(c, s).value)] else [])
    ensures Unserved(rem + [c], s, sel) == Unserved(rem, s, sel) + (if sel(c, s).None? then [c] else [])
  {
    assert (rem + [c])[..|rem|] == rem;
  }

  lemma SumPricesSnoc(es: seq<PlanCard>, e: PlanCard)
    ensures SumPrices(es + [e]) == SumPrices(es) + e.price
  {
    assert (es + [e])[..|es|] == es;
  }

  lemma TotalCostSnoc(segs: seq<SellerPlan>, seg: SellerPlan)
    ensures TotalCost(segs + [seg]) == TotalCost(segs) + seg.subtotal + seg.shippingFee
  {
    assert (segs + [seg])[..|segs|] == segs;
  }

  /** Every card left over by a seller's pass is one that seller has no listing for. */
  lemma {:induction false} UnservedHasNoOffer(rem: seq<Card>, s: Seller, sel: Selector, c: Card)
    requires c in Unserved(rem, s, sel)
    ensures c in rem && sel(c, s).None?
  {
    var p := rem[..|rem| - 1];
    assert rem == p + [rem[|rem| - 1]];
    if c in Unserved(p, s, sel) {
      UnservedHasNoOffer(p, s, sel, c);
    }
  }

  lemma CardNamesSnoc(cs: seq<Card>, c: Card)
    ensures CardNames(cs + [c]) == CardNames(cs) + [c.name]
  {
  }

  lemma EntryNamesSnoc(es: seq<PlanCard>, e: PlanCard)
    ensures EntryNames(es + [e]) == EntryNames(es) + [e.name]
  {
  }

  lemma {:induction false} PassStep(p: seq<Card>, c: Card, s: Seller, sel: Selector)
    requires multiset(EntryNames(Offers(p, s, sel))) + multiset(CardNames(Unserved(p, s, sel)))
          == multiset(CardNames(p))
    ensures multiset(EntryNames(Offers(p + [c], s, sel))) + multiset(CardNames(Unserved(p + [c], s, sel)))
         == multiset(CardNames(p + [c]))
  {
    OffersSnoc(p, c, s, sel);
    var es, us := Offers(p, s, sel), Unserved(p, s, sel);
    var n := c.name;
    CardNamesSnoc(p, c);
    assert multiset(CardNames(p + [c])) == multiset(CardNames(p)) + multiset{n};
    match sel(c, s)
    case Some(l) =>
      var e := Entry(c, l);
      assert Offers(p + [c], s, sel) == es + [e];
      assert Unserved(p + [c], s, sel) == us;
      EntryNamesSnoc(es, e);
      assert multiset(EntryNames(es + [e])) == multiset(EntryNames(es)) + multiset{n};
    case None =>
      assert Offers(p + [c], s, sel) == es;
      assert Unserved(p + [c], s, sel) == us + [c];
      CardNamesSnoc(us, c);
      assert multiset(CardNames(us + [c])) == multiset(CardNames(us)) + multiset{n};
  }

  lemma UnservedExcludes(rem: seq<Card>, s: Seller, sel: Selector, c: Card)
    requires sel(c, s).Some?
    ensures c !in Unserved(rem, s, sel)
  {
    if c in Unserved(rem, s, sel) {
      UnservedHasNoOffer(rem, s, sel, c);
    }
  }

  /** How the list still to scan changes when the pass reaches card `c`, with `rest` behind it. */
  lemma LeftOverStep(p: seq<Card>, c: Card, rest: seq<Card>, s: Seller, sel: Selector)
    ensures var u := Unserved(p, s, sel);
      if sel(c, s).Some? then
        c in u + [c] + rest && RemoveFirst(u + [c] + rest, c) == Unserved(p + [c], s, sel) + rest
      else
        u + [c] + rest == Unserved(p + [c], s, sel) + rest
  {
    var u := Unserved(p, s, sel);
    OffersSnoc(p, c, s, sel);
    if sel(c, s).Some? {
      UnservedExcludes(p, s, sel, c);
      RemoveFirstAfter(u, c, rest);
    } else {
      assert u + [c] + rest == (u + [c]) + rest;
    }
  }

  /**
   * One card of a seller's pass over `scan`: after `scan[..i]` the list still
   * to scan is the left-over cards followed by `scan[i..]`; a supplied card is
   * removed from it (its first occurrence is the one at the front of
   * `scan[i..]`), an unsupplied one stays.
   */
  lemma ScanStep(scan: seq<Card>, i: nat, s: Seller, sel: Selector)
    requires i < |scan|
    ensures var c := scan[i];
      Offers(scan[..i + 1], s, sel) == Offers(scan[..i], s, sel) + (if sel(c, s).Some? then [Entry(c, sel(c, s).value)] else [])
    ensures var u, c := Unserved(scan[..i], s, sel), scan[i];
      if sel(c, s).Some? then
        c in u + scan[i..] && RemoveFirst(u + scan[i..], c) == Unserved(scan[..i + 1], s, sel) + scan[i + 1..]
      else
        u + scan[i..] == Unserved(scan[..i + 1], s, sel) + scan[i + 1..]
  {
    var p, c, rest := scan[..i], scan[i], scan[i + 1..];
    var u := Unserved(p, s, sel);
    assert scan[..i + 1] == p + [c];
    assert u + scan[i..] == u + [c] + rest by {
      assert scan[i..] == [c] + rest;
    }
    OffersSnoc(p, c, s, sel);
    LeftOverStep(p, c, rest, s, sel);
  }

  /** A pass splits the remaining cards into the supplied ones and the left-over ones. */
  lemma {:induction false} PassSplitsNames(rem: seq<Card>, s: Seller, sel: Selector)
    ensures multiset(EntryNames(Offers(rem, s, sel))) + multiset(CardNames(Unserved(rem, s, sel)))
         == multiset(CardNames(rem))
  {
    if rem != [] {
      var p, c := rem[..|rem| - 1], rem[|rem| - 1];
      assert rem == p + [c];
      PassSplitsNames(p, s, sel);
      PassStep(p, c, s, sel);
    }
  }

  // ---------------------------------------------------------------------------
  // The scan agrees with the card-by-card reference

  lemma NoOfferSnoc(c: Card, ss: seq<Seller>, s: Seller, sel: Selector)
    ensures NoOffer(c, ss + [s], sel) <==> NoOffer(c, ss, sel) && sel(c, s).None?
  {
    if NoOffer(c, ss, sel) && sel(c, s).None? {
      forall i | 0 <= i < |ss + [s]| ensures sel(c, (ss + [s])[i]).None? {
        if i < |ss| {
          assert (ss + [s])[i] == ss[i];
        }
      }
    }
    if NoOffer(c, ss + [s], sel) {
      assert (ss + [s])[|ss|] == s;
      forall i | 0 <= i < |ss| ensures sel(c, ss[i]).None? {
        assert (ss + [s])[i] == ss[i];
      }
    }
  }

  lemma {:induction false} UncoveredByNobody(cards: seq<Card>, sel: Selector)
    ensures Uncovered(cards, [], sel) == cards
  {
    if cards != [] {
      var p, c := cards[..|cards| - 1], cards[|cards| - 1];
      UncoveredByNobody(p, sel);
      assert NoOffer(c, [], sel);
      assert Uncovered(cards, [], sel) == p + [c];
      assert p + [c] == cards;
    }
  }

  lemma {:induction false} UnservedOfUncovered(cards: seq<Card>, ss: seq<Seller>, s: Seller, sel: Selector)
    ensures Unserved(Uncovered(cards, ss, sel), s, sel) == Uncovered(cards, ss + [s], sel)
  {
    if cards != [] {
      var p, c := cards[..|cards| - 1], cards[|cards| - 1];
      assert cards == p + [c];
      UnservedOfUncovered(p, ss, s, sel);
      NoOfferSnoc(c, ss, s, sel);
      var u := Uncovered(p, ss, sel);
      assert Uncovered(cards, ss + [s], sel) == Uncovered(p, ss + [s], sel) + (if NoOffer(c, ss + [s], sel) then [c] else []);
      if NoOffer(c, ss, sel) {
        assert Uncovered(cards, ss, sel) == u + [c];
        OffersSnoc(u, c, s, sel);
      } else {
        assert Uncovered(cards, ss, sel) == u;
      }
    }
  }

  lemma {:induction false} OffersOfUncovered(cards: seq<Card>, ss: seq<Seller>, j: nat, sel: Selector)
    requires j < |ss|
    ensures Offers(Uncovered(cards, ss[..j], sel), ss[j], sel) == AssignedTo(cards, ss, j, sel)
  {
    if cards != [] {
      var p, c := cards[..|cards| - 1], cards[|cards| - 1];
      assert cards == p + [c];
      OffersOfUncovered(p, ss, j, sel);
      var u := Uncovered(p, ss[..j], sel);
      assert AssignedTo(cards, ss, j, sel) == AssignedTo(p, ss, j, sel)
        + (if ServedFirstBy(c, ss, j, sel) then [Entry(c, sel(c, ss[j]).value)] else []);
      if NoOffer(c, ss[..j], sel) {
        assert Uncovered(cards, ss[..j], sel) == u + [c];
        OffersSnoc(u, c, ss[j], sel);
      } else {
        assert Uncovered(cards, ss[..j], sel) == u;
      }
    }
  }

  /** After scanning `ss`, the remaining cards are exactly those no seller of `ss` supplies. */
  lemma {:induction false} RunRemaining(cards: seq<Card>, ss: seq<Seller>, sel: Selector)
    ensures Run(cards, ss, sel).remaining == Uncovered(cards, ss, sel)
  {
    if ss == [] {
      UncoveredByNobody(cards, sel);
    } else {
      var q := ss[..|ss| - 1];
      RunRemaining(cards, q, sel);
      UnservedOfUncovered(cards, q, ss[|ss| - 1], sel);
      assert q + [ss[|ss| - 1]] == ss;
    }
  }

  /**
   * First fit: scanning the first `n` sellers yields one segment per seller,
   * in combination order, holding exactly the cards for which that seller is
   * the earliest one with a listing; sellers that get no card have no segment.
   */
  lemma {:induction false} FirstFit(cards: seq<Card>, ss: seq<Seller>, n: nat, sel: Selector)
    requires n <= |ss|
    ensures Run(cards, ss[..n], sel).segments == FirstFitSegments(cards, ss, n, sel)
  {
    if n > 0 {
      FirstFit(cards, ss, n - 1, sel);
      assert ss[..n][..n - 1] == ss[..n - 1];
      RunRemaining(cards, ss[..n - 1], sel);
      OffersOfUncovered(cards, ss, n - 1, sel);
    }
  }

  lemma {:induction false} UncoveredMembers(cards: seq<Card>, ss: seq<Seller>, sel: Selector, c: Card)
    ensures c in Uncovered(cards, ss, sel) <==> c in cards && NoOffer(c, ss, sel)
  {
    if cards != [] {
      var p := cards[..|cards| - 1];
      UncoveredMembers(p, ss, sel, c);
      assert cards == p + [cards[|cards| - 1]];
    }
  }

  /** A combination yields no plan exactly when some requested card has no listing at any of its sellers. */
  lemma PurchasePlanFails(cards: seq<Card>, ss: seq<Seller>, sel: Selector)
    ensures PurchasePlan(cards, ss, sel).None? <==> exists c :: c in cards && NoOffer(c, ss, sel)
  {
    RunRemaining(cards, ss, sel);
    var u := Uncovered(cards, ss, sel);
    if u != [] {
      UncoveredMembers(cards, ss, sel, u[0]);
    }
    forall c | c in cards && NoOffer(c, ss, sel) ensures c in u {
      UncoveredMembers(cards, ss, sel, c);
    }
  }

  lemma SegmentsSnoc(segs: seq<SellerPlan>, seg: SellerPlan)
    ensures SegmentNames(segs + [seg]) == SegmentNames(segs) + EntryNames(seg.cards)
    ensures SegmentSellers(segs + [seg]) == SegmentSellers(segs) + [seg.name]
  {
    assert (segs + [seg])[..|segs|] == segs;
  }

  /** A partial scan has at most one well-formed segment per seller scanned, in scan order. */
  lemma {:induction false} RunShape(cards: seq<Card>, ss: seq<Seller>, sel: Selector)
    ensures |Run(cards, ss, sel).segments| <= |ss|
    ensures forall seg :: seg in Run(cards, ss, sel).segments ==> WellFormedSegment(seg)
    ensures IsSubseq(SegmentSellers(Run(cards, ss, sel).segments), ss)
  {
    if ss != [] {
      var q, s := ss[..|ss| - 1], ss[|ss| - 1];
      assert ss == q + [s];
      RunShape(cards, q, sel);
      var p := Run(cards, q, sel);
      var es := Offers(p.remaining, s, sel);
      SubseqSnoc(SegmentSellers(p.segments), q, s);
      if es != [] {
        assert Run(cards, ss, sel).segments == p.segments + [MakeSegment(s, es)];
        SegmentsSnoc(p.segments, MakeSegment(s, es));
      } else {
        assert Run(cards, ss, sel).segments == p.segments;
      }
    }
  }

  /** A partial scan moves each card from the remaining list into exactly one segment. */
  lemma {:induction false} RunCoverage(cards: seq<Card>, ss: seq<Seller>, sel: Selector)
    ensures multiset(SegmentNames(Run(cards, ss, sel).segments)) + multiset(CardNames(Run(cards, ss, sel).remaining))
         == multiset(CardNames(cards))
  {
    if ss != [] {
      var q, s := ss[..|ss| - 1], ss[|ss| - 1];
      RunCoverage(cards, q, sel);
      var p := Run(cards, q, sel);
      var es := Offers(p.remaining, s, sel);
      PassSplitsNames(p.remaining, s, sel);
      assert Run(cards, ss, sel).remaining == Unserved(p.remaining, s, sel);
      if es != [] {
        assert Run(cards, ss, sel).segments == p.segments + [MakeSegment(s, es)];
        SegmentsSnoc(p.segments, MakeSegment(s, es));
        assert multiset(SegmentNames(p.segments + [MakeSegment(s, es)]))
            == multiset(SegmentNames(p.segments)) + multiset(EntryNames(es));
      } else {
        assert Run(cards, ss, sel).segments == p.segments;
      }
    }
  }

  /**
   * A plan as the engine builds it for combination `ss`: it covers every
   * requested card exactly once (the names of all its segments form the
   * same multiset as the requested names), has at most one segment per seller
   * of `ss`, in the order of `ss`, prices every segment by its cards plus one
   * flat shipping fee, totals subtotal plus shipping over the segments, and
   * leaves its top-level card list empty.
   */
  predicate ValidPlan(cards: seq<Card>, ss: seq<Seller>, p: Plan) {
    && multiset(SegmentNames(p.sellers)) == multiset(CardNames(cards))
    && |p.sellers| <= |ss|
    && IsSubseq(SegmentSellers(p.sellers), ss)
    && (forall seg :: seg in p.sellers ==> WellFormedSegment(seg))
    && p.totalCost == TotalCost(p.sellers)
    && p.cards == []
  }

  /** A successful plan is a valid plan for its combination. */
  lemma PurchasePlanSound(cards: seq<Card>, ss: seq<Seller>, sel: Selector)
    requires PurchasePlan(cards, ss, sel).Some?
    ensures ValidPlan(cards, ss, PurchasePlan(cards, ss, sel).value)
  {
    RunShape(cards, ss, sel);
    RunCoverage(cards, ss, sel);
  }

  /** With no cards requested, every combination yields the empty plan. */
  lemma {:induction false} NoCardsEmptyPlan(ss: seq<Seller>, sel: Selector)
    ensures Run([], ss, sel) == Progress([], [])
    ensures PurchasePlan([], ss, sel) == Some(Plan([], 0, []))
  {
    if ss != [] {
      NoCardsEmptyPlan(ss[..|ss| - 1], sel);
    }
  }

  /** A seller with no listing for any of `rem` supplies nothing and leaves all of `rem` over. */
  lemma {:induction false} PassWithoutOffers(rem: seq<Card>, s: Seller, sel: Selector)
    requires forall c :: c in rem ==> sel(c, s).None?
    ensures Offers(rem, s, sel) == [] && Unserved(rem, s, sel) == rem
  {
    if rem != [] {
      var p, c := rem[..|rem| - 1], rem[|rem| - 1];
      assert rem == p + [c];
      assert forall d :: d in p ==> d in rem;
      PassWithoutOffers(p, s, sel);
    }
  }

  /** A seller with no listing for any requested card, scanned last, changes nothing. */
  lemma IdleSellerLast(cards: seq<Card>, a: seq<Seller>, s: Seller, sel: Selector)
    requires forall c :: c in cards ==> sel(c, s).None?
    ensures Run(cards, a + [s], sel) == Run(cards, a, sel)
  {
    var p := Run(cards, a, sel);
    assert (a + [s])[..|a|] == a;
    RunRemaining(cards, a, sel);
    forall c | c in p.remaining ensures sel(c, s).None? {
      UncoveredMembers(cards, a, sel, c);
    }
    PassWithoutOffers(p.remaining, s, sel);
    assert Run(cards, a + [s], sel) == Step(p, s, sel);
  }

  /** The scan part of `AddingIdleSeller`, by induction on the sellers after the idle one. */
  lemma {:induction false} IdleSellerRun(cards: seq<Card>, a: seq<Seller>, s: Seller, b: seq<Seller>, sel: Selector)
    requires forall c :: c in cards ==> sel(c, s).None?
    ensures Run(cards, a + [s] + b, sel) == Run(cards, a + b, sel)
    decreases |b|
  {
    var long, short := a + [s] + b, a + b;
    if b == [] {
      assert long == a + [s] && short == a;
      IdleSellerLast(cards, a, s, sel);
    } else {
      var b', t := b[..|b| - 1], b[|b| - 1];
      IdleSellerRun(cards, a, s, b', sel);
      assert long[..|long| - 1] == a + [s] + b' && long[|long| - 1] == t;
      assert short[..|short| - 1] == a + b' && short[|short| - 1] == t;
    }
  }

  /**
   * Inserting, anywhere in a combination, a seller that has no listing for
   * any requested card changes nothing: the longer combination yields the
   * very same plan (or the same failure), so distinct combinations can
   * produce identical plans.
   */
  lemma AddingIdleSeller(cards: seq<Card>, a: seq<Seller>, s: Seller, b: seq<Seller>, sel: Selector)
    requires forall c :: c in cards ==> sel(c, s).None?
    ensures Run(cards, a + [s] + b, sel) == Run(cards, a + b, sel)
    ensures PurchasePlan(cards, a + [s] + b, sel) == PurchasePlan(cards, a + b, sel)
  {
    IdleSellerRun(cards, a, s, b, sel);
  }
}
