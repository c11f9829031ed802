/** Ranking of the feasible plans: a stable sort by total cost, then the five cheapest. */
module Ranking {
  import opened PlanTypes

  /** How many plans are returned at most. */
  const MaxPlans: nat := 5

  predicate SortedByCost(s: seq<Plan>) {
    forall i, j :: 0 <= i < j < |s| ==> s[i].totalCost <= s[j].totalCost
  }

  /** Puts `p` into `sorted` behind every plan that costs no more than `p`. */
  function InsertByCost(sorted: seq<Plan>, p: Plan): seq<Plan> {
    if sorted == [] then [p]
    else if p.totalCost < sorted[0].totalCost then [p] + sorted
    else [sorted[0]] + InsertByCost(sorted[1..], p)
  }

  /** The stable sort of `plans` by total cost, one insertion at a time. */
  function SortByCost(plans: seq<Plan>): seq<Plan> {
    if plans == [] then [] else InsertByCost(SortByCost(plans[..|plans| - 1]), plans[|plans| - 1])
  }

  /** The plans of `s` that cost exactly `k`, in the order of `s`. */
  function WithCost(s: seq<Plan>, k: int): seq<Plan> {
    if s == [] then [] else (if s[0].totalCost == k then [s[0]] else []) + WithCost(s[1..], k)
  }

  /** The first `MaxPlans` plans, or all of them when there are fewer (Python's `s[:5]`). */
  function Top(s: seq<Plan>): (r: seq<Plan>)
    ensures |r| <= MaxPlans && r <= s
    ensures |s| <= MaxPlans ==> r == s
    ensures |s| >= MaxPlans ==> |r| == MaxPlans
    ensures forall x :: x in r ==> x in s
  {
    if |s| <= MaxPlans then s else s[..MaxPlans]
  }

  /**
   * Cutting a sorted list to five keeps its cheapest part: no plan cut off
   * costs less than a plan kept.
   */
  lemma TopCheapest(s: seq<Plan>)
    requires SortedByCost(s)
    ensures multiset(Top(s)) <= multiset(s)
    ensures forall p, q :: p in Top(s) && q in multiset(s) - multiset(Top(s)) ==> p.totalCost <= q.totalCost
  {
    var r := Top(s);
    var rest := s[|r|..];
    assert s == r + rest;
    assert multiset(s) == multiset(r) + multiset(rest);
    forall p, q | p in r && q in multiset(s) - multiset(r) ensures p.totalCost <= q.totalCost {
      assert q in multiset(rest);
      var i :| 0 <= i < |r| && r[i] == p;
      var j :| 0 <= j < |rest| && rest[j] == q;
      assert s[i] == p && s[|r| + j] == q;
    }
  }

  lemma {:induction false} WithCostAbove(s: seq<Plan>, k: int)
    requires forall i :: 0 <= i < |s| ==> s[i].totalCost > k
    ensures WithCost(s, k) == []
  {
    if s != [] {
      WithCostAbove(s[1..], k);
    }
  }

  lemma {:induction false} WithCostSnoc(s: seq<Plan>, x: Plan, k: int)
    ensures WithCost(s + [x], k) == WithCost(s, k) + (if x.totalCost == k then [x] else [])
  {
    if s != [] {
      assert (s + [x])[1..] == s[1..] + [x];
      WithCostSnoc(s[1..], x, k);
    }
  }

  lemma {:induction false} InsertByCostPerm(s: seq<Plan>, p: Plan)
    ensures multiset(InsertByCost(s, p)) == multiset(s) + multiset{p}
  {
    if s != [] && p.totalCost >= s[0].totalCost {
      var t := s[1..];
      assert s == [s[0]] + t;
      InsertByCostPerm(t, p);
      var r := InsertByCost(t, p);
      assert InsertByCost(s, p) == [s[0]] + r;
      assert multiset([s[0]] + r) == multiset{s[0]} + multiset(r);
      assert multiset(s) == multiset{s[0]} + multiset(t);
    }
  }

  lemma SortedTail(s: seq<Plan>)
    requires s != [] && SortedByCost(s)
    ensures SortedByCost(s[1..])
  {
    var t := s[1..];
    forall i, j | 0 <= i < j < |t| ensures t[i].totalCost <= t[j].totalCost {
      assert t[i] == s[i + 1] && t[j] == s[j + 1];
    }
  }

  lemma SortedCons(x: Plan, r: seq<Plan>)
    requires SortedByCost(r)
    requires forall j :: 0 <= j < |r| ==> x.totalCost <= r[j].totalCost
    ensures SortedByCost([x] + r)
  {
    var q := [x] + r;
    forall i, j | 0 <= i < j < |q| ensures q[i].totalCost <= q[j].totalCost {
      assert q[j] == r[j - 1];
      if i > 0 {
        assert q[i] == r[i - 1];
      }
    }
  }

  lemma {:induction false} InsertByCostSorted(s: seq<Plan>, p: Plan)
    requires SortedByCost(s)
    ensures SortedByCost(InsertByCost(s, p))
  {
    if s == [] {
      assert SortedByCost([p]);
    } else if p.totalCost < s[0].totalCost {
      SortedCons(p, s);
    } else {
      var t := s[1..];
      SortedTail(s);
      InsertByCostSorted(t, p);
      InsertByCostPerm(t, p);
      var r := InsertByCost(t, p);
      assert InsertByCost(s, p) == [s[0]] + r;
      forall j | 0 <= j < |r| ensures s[0].totalCost <= r[j].totalCost {
        assert r[j] in multiset(r);
        if r[j] != p {
          assert r[j] in multiset(t);
          var m :| 0 <= m < |t| && t[m] == r[j];
          assert t[m] == s[m + 1];
        }
      }
      SortedCons(s[0], r);
    }
  }

  lemma {:induction false} InsertByCostClasses(s: seq<Plan>, p: Plan, k: int)
    requires SortedByCost(s)
    ensures WithCost(InsertByCost(s, p), k) == WithCost(s, k) + (if p.totalCost == k then [p] else [])
  {
    if s == [] {
    } else if p.totalCost < s[0].totalCost {
      assert ([p] + s)[1..] == s;
      if k == p.totalCost {
        WithCostAbove(s, k);
      }
    } else {
      InsertByCostClasses(s[1..], p, k);
      assert ([s[0]] + InsertByCost(s[1..], p))[1..] == InsertByCost(s[1..], p);
    }
  }

  /** Inserting into a sorted sequence keeps it sorted, adds exactly `p`, and puts `p` behind its equals. */
  lemma InsertByCostSpec(s: seq<Plan>, p: Plan)
    requires SortedByCost(s)
    ensures SortedByCost(InsertByCost(s, p))
    ensures multiset(InsertByCost(s, p)) == multiset(s) + multiset{p}
    ensures forall k :: WithCost(InsertByCost(s, p), k) == WithCost(s, k) + (if p.totalCost == k then [p] else [])
  {
    InsertByCostSorted(s, p);
    InsertByCostPerm(s, p);
    forall k ensures WithCost(InsertByCost(s, p), k) == WithCost(s, k) + (if p.totalCost == k then [p] else []) {
      InsertByCostClasses(s, p, k);
    }
  }

  /** The stable sort is sorted, a permutation, and keeps the relative order of equal-cost plans. */
  lemma {:induction false} SortByCostSpec(plans: seq<Plan>)
    ensures SortedByCost(SortByCost(plans))
    ensures multiset(SortByCost(plans)) == multiset(plans)
    ensures forall k :: WithCost(SortByCost(plans), k) == WithCost(plans, k)
  {
    if plans != [] {
      var q, x := plans[..|plans| - 1], plans[|plans| - 1];
      assert plans == q + [x];
      SortByCostSpec(q);
      InsertByCostSpec(SortByCost(q), x);
      forall k ensures WithCost(SortByCost(plans), k) == WithCost(plans, k) {
        WithCostSnoc(q, x, k);
      }
    }
  }

  /**
   * A stable sort is unique: a sorted sequence that keeps every cost class of
   * `plans` in its original order is the stable sort of `plans`.
   */
  lemma {:induction false} StableSortUnique(plans: seq<Plan>, t: seq<Plan>)
    requires SortedByCost(t)
    requires forall k :: WithCost(t, k) == WithCost(plans, k)
    ensures t == SortByCost(plans)
  {
    SortByCostSpec(plans);
    SortedSameClassesEqual(t, SortByCost(plans));
  }

  lemma {:induction false} WithCostBelowMin(s: seq<Plan>, k: int)
    requires forall i :: 0 <= i < |s| ==> s[i].totalCost != k
    ensures WithCost(s, k) == []
  {
    if s != [] {
      WithCostBelowMin(s[1..], k);
    }
  }

  lemma {:induction false} SameClassesSameHead(a: seq<Plan>, b: seq<Plan>)
    requires a != [] && SortedByCost(a) && SortedByCost(b)
    requires forall k :: WithCost(a, k) == WithCost(b, k)
    ensures b != [] && a[0] == b[0]
  {
    var ka := a[0].totalCost;
    assert WithCost(a, ka) == [a[0]] + WithCost(a[1..], ka);
    assert WithCost(b, ka) != [];
    var kb := b[0].totalCost;
    if kb < ka {
      assert WithCost(b, kb) == [b[0]] + WithCost(b[1..], kb);
      WithCostBelowMin(a, kb);
      assert false;
    } else if ka < kb {
      WithCostBelowMin(b, ka);
      assert false;
    }
    assert WithCost(b, ka) == [b[0]] + WithCost(b[1..], ka);
    assert WithCost(a, ka)[0] == a[0] && WithCost(b, ka)[0] == b[0];
  }

  lemma {:induction false} SameClassesTail(a: seq<Plan>, b: seq<Plan>, k: int)
    requires a != [] && b != [] && a[0] == b[0]
    requires WithCost(a, k) == WithCost(b, k)
    ensures WithCost(a[1..], k) == WithCost(b[1..], k)
  {
    if k == a[0].totalCost {
      assert WithCost(a, k) == [a[0]] + WithCost(a[1..], k);
      assert WithCost(b, k) == [b[0]] + WithCost(b[1..], k);
      assert WithCost(a, k)[1..] == WithCost(a[1..], k);
      assert WithCost(b, k)[1..] == WithCost(b[1..], k);
    } else {
      assert WithCost(a, k) == WithCost(a[1..], k);
      assert WithCost(b, k) == WithCost(b[1..], k);
    }
  }

  lemma {:induction false} SortedSameClassesEqual(a: seq<Plan>, b: seq<Plan>)
    requires SortedByCost(a) && SortedByCost(b)
    requires forall k :: WithCost(a, k) == WithCost(b, k)
    ensures a == b
    decreases |a| + |b|
  {
    if a != [] {
      SameClassesSameHead(a, b);
      forall k ensures WithCost(a[1..], k) == WithCost(b[1..], k) {
        SameClassesTail(a, b, k);
      }
      SortedSameClassesEqual(a[1..], b[1..]);
      assert a == [a[0]] + a[1..] && b == [b[0]] + b[1..];
    } else if b != [] {
      SameClassesSameHead(b, a);
    }
  }

  /** Cutting a sequence keeps a prefix of every cost class. */
  lemma {:induction false} WithCostOfPrefix(s: seq<Plan>, n: nat, k: int)
    requires n <= |s|
    ensures WithCost(s[..n], k) <= WithCost(s, k)
  {
    if n > 0 {
      assert s[..n][1..] == s[1..][..n - 1];
      WithCostOfPrefix(s[1..], n - 1, k);
    }
  }

  lemma {:induction false} InsertAt(s: seq<Plan>, p: Plan, j: nat)
    requires j <= |s|
    requires forall m :: 0 <= m < j ==> s[m].totalCost <= p.totalCost
    requires j < |s| ==> p.totalCost < s[j].totalCost
    ensures InsertByCost(s, p) == s[..j] + [p] + s[j..]
  {
    if j == 0 {
      if s != [] {
        assert s[..0] + [p] + s[0..] == [p] + s;
      }
    } else {
      InsertAt(s[1..], p, j - 1);
      assert s[..j] + [p] + s[j..] == [s[0]] + (s[1..][..j - 1] + [p] + s[1..][j - 1..]);
    }
  }

  /** `list.sort` with the total cost as key: a stable sort of the plans. */
  method SortByTotalCost(plans: seq<Plan>) returns (sorted: seq<Plan>)
    ensures sorted == SortByCost(plans)
    ensures SortedByCost(sorted) && multiset(sorted) == multiset(plans)
    ensures forall k :: WithCost(sorted, k) == WithCost(plans, k)
  {
    sorted := [];
    for i := 0 to |plans|
      invariant sorted == SortByCost(plans[..i])
    {
      var p := plans[i];
      var j := 0;
      while j < |sorted| && sorted[j].totalCost <= p.totalCost
        invariant 0 <= j <= |sorted|
        invariant forall m :: 0 <= m < j ==> sorted[m].totalCost <= p.totalCost
      {
        j := j + 1;
      }
      InsertAt(sorted, p, j);
      assert plans[..i + 1][..i] == plans[..i];
      sorted := sorted[..j] + [p] + sorted[j..];
    }
    assert plans[..|plans|] == plans;
    SortByCostSpec(plans);
  }
}
