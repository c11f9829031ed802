/** Grouping of the flat listing pool by seller, as a dictionary with insertion-ordered keys. */
module Grouping {
  import opened PlanTypes

  /** A seller-keyed dictionary: `sellers` is its key order, `listings` its entries. */
  datatype Groups = Groups(sellers: seq<Seller>, listings: map<Seller, seq<Listing>>)

  /** The sellers of `ls` without repetition, in order of first appearance. */
  function SellersOf(ls: seq<Listing>): seq<Seller> {
    if ls == [] then []
    else
      var d := SellersOf(ls[..|ls| - 1]);
      if ls[|ls| - 1].seller in d then d else d + [ls[|ls| - 1].seller]
  }

  /** The listings of seller `k`, in input order. */
  function ListingsOf(ls: seq<Listing>, k: Seller): seq<Listing> {
    if ls == [] then []
    else ListingsOf(ls[..|ls| - 1], k) + (if ls[|ls| - 1].seller == k then [ls[|ls| - 1]] else [])
  }

  /** The dictionary's values concatenated in key order. */
  function Concat(keys: seq<Seller>, groups: map<Seller, seq<Listing>>): seq<Listing>
    requires forall k :: k in keys ==> k in groups
  {
    if keys == [] then [] else groups[keys[0]] + Concat(keys[1..], groups)
  }

  /** The groups of `ls` for the given keys, concatenated in key order. */
  function ConcatGroups(keys: seq<Seller>, ls: seq<Listing>): seq<Listing> {
    if keys == [] then [] else ListingsOf(ls, keys[0]) + ConcatGroups(keys[1..], ls)
  }

  lemma ListingsOfSnoc(ls: seq<Listing>, x: Listing, k: Seller)
    ensures ListingsOf(ls + [x], k) == ListingsOf(ls, k) + (if x.seller == k then [x] else [])
  {
    assert (ls + [x])[..|ls|] == ls;
  }

  lemma ListingsOfSnocCount(ls: seq<Listing>, x: Listing, k: Seller)
    ensures multiset(ListingsOf(ls + [x], k)) == multiset(ListingsOf(ls, k)) + (if x.seller == k then multiset{x} else multiset{})
  {
    ListingsOfSnoc(ls, x, k);
  }

  lemma SellersOfSnoc(ls: seq<Listing>, x: Listing)
    ensures SellersOf(ls + [x]) == if x.seller in SellersOf(ls) then SellersOf(ls) else SellersOf(ls) + [x.seller]
  {
    assert (ls + [x])[..|ls|] == ls;
  }

  /** A seller is a key exactly when some listing names it. */
  lemma {:induction false} SellersOfMembers(ls: seq<Listing>, k: Seller)
    ensures k in SellersOf(ls) <==> exists i :: 0 <= i < |ls| && ls[i].seller == k
  {
    if ls != [] {
      var p := ls[..|ls| - 1];
      SellersOfMembers(p, k);
      assert ls == p + [ls[|ls| - 1]];
      if k in SellersOf(p) {
        var i :| 0 <= i < |p| && p[i].seller == k;
        assert ls[i].seller == k;
      }
      if exists i :: 0 <= i < |ls| && ls[i].seller == k {
        var i :| 0 <= i < |ls| && ls[i].seller == k;
        if i < |p| {
          assert p[i].seller == k;
        }
      }
    }
  }

  /** Keys appear once each. */
  lemma {:induction false} SellersOfDistinct(ls: seq<Listing>)
    ensures Distinct(SellersOf(ls))
  {
    if ls != [] {
      SellersOfDistinct(ls[..|ls| - 1]);
    }
  }

  /**
   * The keys of any prefix of the listings are a prefix of the keys of all of
   * them: a key, once placed, keeps its position.
   */
  lemma {:induction false} SellersOfPrefix(ls: seq<Listing>, m: nat)
    requires m <= |ls|
    ensures SellersOf(ls[..m]) <= SellersOf(ls)
    decreases |ls|
  {
    if m < |ls| {
      var p := ls[..|ls| - 1];
      assert ls[..m] == p[..m];
      SellersOfPrefix(p, m);
    } else {
      assert ls[..m] == ls;
    }
  }

  /**
   * Keys are in first-seen order: any prefix of the listings that names a
   * later key also names every earlier one.
   */
  lemma SellersOfFirstSeen(ls: seq<Listing>, i: nat, j: nat, m: nat)
    requires i < j < |SellersOf(ls)| && m <= |ls|
    requires exists q :: 0 <= q < m && ls[q].seller == SellersOf(ls)[j]
    ensures exists q :: 0 <= q < m && ls[q].seller == SellersOf(ls)[i]
  {
    var keys, pre := SellersOf(ls), SellersOf(ls[..m]);
    SellersOfPrefix(ls, m);
    var q :| 0 <= q < m && ls[q].seller == keys[j];
    assert ls[..m][q] == ls[q];
    SellersOfMembers(ls[..m], keys[j]);
    var w :| 0 <= w < |pre| && pre[w] == keys[j];
    assert keys[w] == keys[j];
    SellersOfDistinct(ls);
    assert w == j;
    assert pre[i] == keys[i];
    SellersOfMembers(ls[..m], keys[i]);
    var q' :| 0 <= q' < m && ls[..m][q'].seller == keys[i];
    assert ls[q'] == ls[..m][q'];
  }

  lemma {:induction false} ListingsOfSeller(ls: seq<Listing>, k: Seller)
    ensures forall l :: l in ListingsOf(ls, k) ==> l.seller == k
  {
    if ls != [] {
      var p, x := ls[..|ls| - 1], ls[|ls| - 1];
      ListingsOfSeller(p, k);
      assert ListingsOf(ls, k) == ListingsOf(p, k) + (if x.seller == k then [x] else []);
    }
  }

  lemma {:induction false} ListingsOfSubseq(ls: seq<Listing>, k: Seller)
    ensures IsSubseq(ListingsOf(ls, k), ls)
  {
    if ls != [] {
      var p, x := ls[..|ls| - 1], ls[|ls| - 1];
      ListingsOfSubseq(p, k);
      assert ls == p + [x];
      SubseqSnoc(ListingsOf(p, k), p, x);
      if x.seller == k {
        assert ListingsOf(ls, k) == ListingsOf(p, k) + [x];
      } else {
        assert ListingsOf(ls, k) == ListingsOf(p, k);
      }
    }
  }

  lemma {:induction false} ListingsOfCount(ls: seq<Listing>, k: Seller)
    ensures multiset(ListingsOf(ls, k)) <= multiset(ls)
  {
    if ls != [] {
      var p, x := ls[..|ls| - 1], ls[|ls| - 1];
      ListingsOfCount(p, k);
      assert ls == p + [x];
      assert multiset(ls) == multiset(p) + multiset{x};
      ListingsOfSnocCount(p, x, k);
    }
  }

  /** Every listing of a group belongs to that group's seller, and the group keeps input order. */
  lemma ListingsOfShape(ls: seq<Listing>, k: Seller)
    ensures forall l :: l in ListingsOf(ls, k) ==> l.seller == k
    ensures IsSubseq(ListingsOf(ls, k), ls)
    ensures multiset(ListingsOf(ls, k)) <= multiset(ls)
  {
    ListingsOfSeller(ls, k);
    ListingsOfSubseq(ls, k);
    ListingsOfCount(ls, k);
  }

  /** A seller that appears in no listing has an empty group. */
  lemma {:induction false} ListingsOfAbsent(ls: seq<Listing>, k: Seller)
    requires k !in SellersOf(ls)
    ensures ListingsOf(ls, k) == []
  {
    if ls != [] {
      var p := ls[..|ls| - 1];
      assert SellersOf(p) <= SellersOf(ls) by {
        assert forall s :: s in SellersOf(p) ==> s in SellersOf(ls);
      }
      ListingsOfAbsent(p, k);
    }
  }

  lemma {:induction false} ConcatGroupsSnocKey(keys: seq<Seller>, k: Seller, ls: seq<Listing>)
    ensures ConcatGroups(keys + [k], ls) == ConcatGroups(keys, ls) + ListingsOf(ls, k)
  {
    if keys != [] {
      assert (keys + [k])[1..] == keys[1..] + [k];
      ConcatGroupsSnocKey(keys[1..], k, ls);
    }
  }

  lemma MultisetConcatStep(a: seq<Listing>, a': seq<Listing>, b: seq<Listing>, b': seq<Listing>, m1: multiset<Listing>, m2: multiset<Listing>)
    requires multiset(a') == multiset(a) + m1 && multiset(b') == multiset(b) + m2
    ensures multiset(a' + b') == multiset(a + b) + m1 + m2
  {
    assert multiset(a' + b') == multiset(a') + multiset(b');
    assert multiset(a + b) == multiset(a) + multiset(b);
  }

  lemma {:induction false} ConcatGroupsSnocListing(keys: seq<Seller>, ls: seq<Listing>, x: Listing)
    requires Distinct(keys)
    ensures multiset(ConcatGroups(keys, ls + [x]))
         == multiset(ConcatGroups(keys, ls)) + (if x.seller in keys then multiset{x} else multiset{})
  {
    if keys != [] {
      var k, rest := keys[0], keys[1..];
      DistinctTail(keys);
      ConcatGroupsSnocListing(rest, ls, x);
      ListingsOfSnocCount(ls, x, k);
      var m1 := if x.seller == k then multiset{x} else multiset{};
      var m2 := if x.seller in rest then multiset{x} else multiset{};
      MultisetConcatStep(ListingsOf(ls, k), ListingsOf(ls + [x], k), ConcatGroups(rest, ls), ConcatGroups(rest, ls + [x]), m1, m2);
      assert x.seller in keys <==> x.seller == k || x.seller in rest;
    }
  }

  /** Concatenating the groups in key order gives back exactly the input listings, up to order. */
  lemma {:induction false} GroupsPartition(ls: seq<Listing>)
    ensures multiset(ConcatGroups(SellersOf(ls), ls)) == multiset(ls)
  {
    if ls != [] {
      var p, x := ls[..|ls| - 1], ls[|ls| - 1];
      assert ls == p + [x];
      GroupsPartition(p);
      SellersOfDistinct(p);
      SellersOfSnoc(p, x);
      ConcatGroupsSnocListing(SellersOf(p), p, x);
      if x.seller !in SellersOf(p) {
        ConcatGroupsSnocKey(SellersOf(p), x.seller, ls);
        ListingsOfSnoc(p, x, x.seller);
        ListingsOfAbsent(p, x.seller);
      }
    }
  }

  lemma {:induction false} ConcatOfGroups(keys: seq<Seller>, groups: map<Seller, seq<Listing>>, ls: seq<Listing>)
    requires forall k :: k in keys ==> k in groups && groups[k] == ListingsOf(ls, k)
    ensures Concat(keys, groups) == ConcatGroups(keys, ls)
  {
    if keys != [] {
      ConcatOfGroups(keys[1..], groups, ls);
    }
  }
}
