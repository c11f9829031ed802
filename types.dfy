/** Values shared by every stage of the purchase-plan engine. */
module PlanTypes {

  datatype Option<+T> = None | Some(value: T)

  type Seller = string

  /** A requested card; the engine reads only its name. */
  datatype Card = Card(name: string)

  /** One seller's offer for one card. Prices and fees are whole currency units. */
  datatype Listing = Listing(
    title: string,
    price: int,
    seller: Seller,
    url: string,
    condition: string,
    shippingFee: int)

  /** One card of a seller segment: the card's name and the chosen listing's price and url. */
  datatype PlanCard = PlanCard(name: string, price: int, url: string)

  /** The part of a plan bought from one seller. */
  datatype SellerPlan = SellerPlan(name: Seller, cards: seq<PlanCard>, subtotal: int, shippingFee: int)

  /** A complete plan: the seller segments, their total cost and a top-level card list. */
  datatype Plan = Plan(sellers: seq<SellerPlan>, totalCost: int, cards: seq<PlanCard>)

  /** Picks the listing a seller supplies a card with, if any. */
  type Selector = (Card, Seller) -> Option<Listing>

  predicate Distinct<T(==)>(s: seq<T>) {
    forall i, j :: 0 <= i < j < |s| ==> s[i] != s[j]
  }

  /** `c` is obtained from `s` by deleting elements, keeping the order of the rest. */
  predicate IsSubseq<T(==)>(c: seq<T>, s: seq<T>)
    decreases |s|
  {
    if c == [] then true
    else if s == [] then false
    else (c[0] == s[0] && IsSubseq(c[1..], s[1..])) || IsSubseq(c, s[1..])
  }

  lemma {:induction false} SubseqElements<T>(c: seq<T>, s: seq<T>, x: T)
    requires IsSubseq(c, s) && x in c
    ensures x in s
    decreases |s|
  {
    if c[0] == s[0] && IsSubseq(c[1..], s[1..]) {
      if x != c[0] {
        SubseqElements(c[1..], s[1..], x);
      }
    } else {
      SubseqElements(c, s[1..], x);
    }
  }

  lemma {:induction false} SubseqLength<T>(c: seq<T>, s: seq<T>)
    requires IsSubseq(c, s)
    ensures |c| <= |s|
    decreases |s|
  {
    if c != [] {
      if c[0] == s[0] && IsSubseq(c[1..], s[1..]) {
        SubseqLength(c[1..], s[1..]);
      } else {
        SubseqLength(c, s[1..]);
      }
    }
  }

  /** A subsequence of a sequence without repetitions has no repetitions. */
  lemma {:induction false} SubseqDistinct<T>(c: seq<T>, s: seq<T>)
    requires IsSubseq(c, s) && Distinct(s)
    ensures Distinct(c)
    decreases |s|
  {
    if c != [] {
      if c[0] == s[0] && IsSubseq(c[1..], s[1..]) {
        SubseqDistinct(c[1..], s[1..]);
        if c[0] in c[1..] {
          SubseqElements(c[1..], s[1..], c[0]);
          assert false;
        }
        forall i, j | 0 <= i < j < |c| ensures c[i] != c[j] {
          if i > 0 {
            assert c[i] == c[1..][i - 1] && c[j] == c[1..][j - 1];
          } else {
            assert c[j] in c[1..];
          }
        }
      } else {
        SubseqDistinct(c, s[1..]);
      }
    }
  }

  lemma {:induction false} SubseqSnoc<T>(c: seq<T>, s: seq<T>, x: T)
    requires IsSubseq(c, s)
    ensures IsSubseq(c + [x], s + [x]) && IsSubseq(c, s + [x])
    decreases |s|
  {
    if s == [] {
      assert c == [];
      assert IsSubseq(([] + [x])[1..], ([] + [x])[1..]);
    } else if c == [] {
      SubseqSnoc(c, s[1..], x);
      assert (s + [x])[1..] == s[1..] + [x];
    } else {
      assert (s + [x])[1..] == s[1..] + [x];
      assert (c + [x])[1..] == c[1..] + [x];
      if c[0] == s[0] && IsSubseq(c[1..], s[1..]) {
        SubseqSnoc(c[1..], s[1..], x);
      } else {
        SubseqSnoc(c, s[1..], x);
      }
    }
  }

  lemma DistinctTail<T>(s: seq<T>)
    requires s != [] && Distinct(s)
    ensures Distinct(s[1..]) && s[0] !in s[1..]
  {
    var t := s[1..];
    forall i, j | 0 <= i < j < |t| ensures t[i] != t[j] {
      assert t[i] == s[i + 1] && t[j] == s[j + 1];
    }
    forall m | 0 <= m < |t| ensures t[m] != s[0] {
      assert t[m] == s[m + 1];
    }
  }
}
