/** Seller subsets of bounded size, enumerated in the order of `itertools.combinations`. */
module Combinations {
  import opened PlanTypes

  /** Every sequence of `cs`, with `x` put in front. */
  function Prepend<T>(x: T, cs: seq<seq<T>>): seq<seq<T>> {
    seq(|cs|, i requires 0 <= i < |cs| => [x] + cs[i])
  }

  /**
   * The subsequences of `s` of length `r`, in lexicographic order of their
   * positions in `s`: first those that start with `s[0]`, then the others.
   */
  function Combos<T>(s: seq<T>, r: nat): seq<seq<T>>
    decreases |s|
  {
    if r == 0 then [[]]
    else if |s| < r then []
    else Prepend(s[0], Combos(s[1..], r - 1)) + Combos(s[1..], r)
  }

  /** The combinations of sizes 1, 2, ..., `top`, concatenated by increasing size. */
  function CombosUpTo<T>(s: seq<T>, top: int): seq<seq<T>>
    decreases top
  {
    if top <= 0 then [] else CombosUpTo(s, top - 1) + Combos(s, top)
  }

  /** Every combination of size 1 to min(k, |s|); none when `k` < 1 or `s` is empty. */
  function AllCombos<T>(s: seq<T>, k: int): seq<seq<T>> {
    CombosUpTo(s, if k < |s| then k else |s|)
  }

  function Binomial(n: nat, k: nat): nat {
    if k == 0 then 1 else if n == 0 then 0 else Binomial(n - 1, k - 1) + Binomial(n - 1, k)
  }

  lemma {:induction false} BinomialAbove(n: nat, k: nat)
    requires n < k
    ensures Binomial(n, k) == 0
  {
    if n > 0 {
      BinomialAbove(n - 1, k - 1);
      BinomialAbove(n - 1, k);
    }
  }

  lemma CountStep<T>(s: seq<T>, r: nat)
    requires 0 < r <= |s|
    requires |Combos(s[1..], r - 1)| == Binomial(|s[1..]|, r - 1)
    requires |Combos(s[1..], r)| == Binomial(|s[1..]|, r)
    ensures |Combos(s, r)| == Binomial(|s|, r)
  {
    assert |s[1..]| == |s| - 1;
  }

  /** There are C(|s|, r) combinations of size r. */
  lemma {:induction false} CombosCount<T>(s: seq<T>, r: nat)
    ensures |Combos(s, r)| == Binomial(|s|, r)
    decreases |s|
  {
    if r == 0 {
    } else if |s| < r {
      BinomialAbove(|s|, r);
    } else {
      CombosCount(s[1..], r - 1);
      CombosCount(s[1..], r);
      CountStep(s, r);
    }
  }

  lemma {:induction false} CombosSound<T>(s: seq<T>, r: nat, c: seq<T>)
    requires c in Combos(s, r)
    ensures |c| == r && IsSubseq(c, s)
    decreases |s|
  {
    if r > 0 {
      var inner := Combos(s[1..], r - 1);
      var head := Prepend(s[0], inner);
      if c in head {
        var i :| 0 <= i < |head| && head[i] == c;
        assert c[1..] == inner[i];
        CombosSound(s[1..], r - 1, c[1..]);
      } else {
        CombosSound(s[1..], r, c);
      }
    }
  }

  lemma {:induction false} CombosComplete<T>(s: seq<T>, r: nat, c: seq<T>)
    requires |c| == r && IsSubseq(c, s)
    ensures c in Combos(s, r)
    decreases |s|
  {
    if r > 0 {
      SubseqLength(c, s);
      assert c != [] && s != [] && |s| >= r;
      var t := s[1..];
      var inner := Combos(t, r - 1);
      var head, tail := Prepend(s[0], inner), Combos(t, r);
      assert Combos(s, r) == head + tail;
      if c[0] == s[0] && IsSubseq(c[1..], t) {
        CombosComplete(t, r - 1, c[1..]);
        var i :| 0 <= i < |inner| && inner[i] == c[1..];
        assert head[i] == [s[0]] + c[1..] == c;
        assert c in head;
      } else {
        assert IsSubseq(c, t);
        CombosComplete(t, r, c);
        assert c in tail;
      }
    }
  }

  /** Combinations of size r are exactly the subsequences of `s` of length r. */
  lemma CombosAreSubseqs<T>(s: seq<T>, r: nat, c: seq<T>)
    ensures c in Combos(s, r) <==> |c| == r && IsSubseq(c, s)
  {
    if c in Combos(s, r) {
      CombosSound(s, r, c);
    }
    if |c| == r && IsSubseq(c, s) {
      CombosComplete(s, r, c);
    }
  }

  lemma PrependDistinct<T>(x: T, cs: seq<seq<T>>)
    requires Distinct(cs)
    ensures Distinct(Prepend(x, cs))
  {
    var p := Prepend(x, cs);
    forall i, j | 0 <= i < j < |p| ensures p[i] != p[j] {
      assert p[i][1..] == cs[i] && p[j][1..] == cs[j];
    }
  }

  lemma DistinctAppend<T>(a: seq<T>, b: seq<T>)
    requires Distinct(a) && Distinct(b)
    requires forall x :: x in a ==> x !in b
    ensures Distinct(a + b)
  {
    var ab := a + b;
    forall i, j | 0 <= i < j < |ab| ensures ab[i] != ab[j] {
      if j < |a| {
        assert ab[i] == a[i] && ab[j] == a[j];
      } else if i >= |a| {
        assert ab[i] == b[i - |a|] && ab[j] == b[j - |a|];
      } else {
        assert ab[i] == a[i] && ab[j] == b[j - |a|];
        assert a[i] in a;
      }
    }
  }

  /** No combination is produced twice when the sellers are distinct. */
  lemma {:induction false} CombosDistinct<T>(s: seq<T>, r: nat)
    requires Distinct(s)
    ensures Distinct(Combos(s, r))
    decreases |s|
  {
    if r > 0 && |s| >= r {
      var t := s[1..];
      DistinctTail(s);
      CombosDistinct(t, r - 1);
      CombosDistinct(t, r);
      var head, tail := Prepend(s[0], Combos(t, r - 1)), Combos(t, r);
      PrependDistinct(s[0], Combos(t, r - 1));
      forall c | c in head ensures c !in tail {
        var i :| 0 <= i < |head| && head[i] == c;
        assert c[0] == s[0];
        if c in tail {
          CombosSound(t, r, c);
          assert c[0] in c;
          SubseqElements(c, t, c[0]);
        }
      }
      DistinctAppend(head, tail);
      assert Combos(s, r) == head + tail;
    }
  }

  /** Each combination of the enumeration has a size in 1..top, and sizes never decrease. */
  lemma {:induction false} CombosUpToShape<T>(s: seq<T>, top: int)
    ensures forall c :: c in CombosUpTo(s, top) ==> 1 <= |c| <= top && IsSubseq(c, s)
    ensures forall i, j :: 0 <= i < j < |CombosUpTo(s, top)| ==> |CombosUpTo(s, top)[i]| <= |CombosUpTo(s, top)[j]|
    decreases top
  {
    if top > 0 {
      CombosUpToShape(s, top - 1);
      var front, back := CombosUpTo(s, top - 1), Combos(s, top);
      forall c | c in back ensures |c| == top && IsSubseq(c, s) {
        CombosAreSubseqs(s, top, c);
      }
      var all := front + back;
      forall i, j | 0 <= i < j < |all| ensures |all[i]| <= |all[j]| {
        if j < |front| {
          assert all[i] == front[i] && all[j] == front[j];
        } else if i >= |front| {
          assert all[i] in back && all[j] in back;
        } else {
          assert all[i] in front && all[j] in back;
        }
      }
    }
  }

  /** Completeness: every subsequence of size 1..top is enumerated. */
  lemma {:induction false} CombosUpToComplete<T>(s: seq<T>, top: int, c: seq<T>)
    requires 1 <= |c| <= top && IsSubseq(c, s)
    ensures c in CombosUpTo(s, top)
    decreases top
  {
    if |c| == top {
      CombosAreSubseqs(s, top, c);
    } else {
      CombosUpToComplete(s, top - 1, c);
    }
  }

  /**
   * The combinations the engine tries are exactly the order-preserving
   * subsequences of the sellers of size 1..min(k, |s|).
   */
  lemma AllCombosMembers<T>(s: seq<T>, k: int)
    ensures forall c :: c in AllCombos(s, k) <==> 1 <= |c| <= k && |c| <= |s| && IsSubseq(c, s)
  {
    var top := if k < |s| then k else |s|;
    CombosUpToShape(s, top);
    forall c | 1 <= |c| <= k && |c| <= |s| && IsSubseq(c, s) ensures c in AllCombos(s, k) {
      CombosUpToComplete(s, top, c);
    }
  }

  /** Each combination holds distinct sellers when the sellers are distinct. */
  lemma AllCombosDistinctSellers<T>(s: seq<T>, k: int)
    requires Distinct(s)
    ensures forall c :: c in AllCombos(s, k) ==> Distinct(c)
  {
    forall c | c in AllCombos(s, k) ensures Distinct(c) {
      CombosUpToShape(s, if k < |s| then k else |s|);
      SubseqDistinct(c, s);
    }
  }

  /** Combinations are emitted by non-decreasing size. */
  lemma AllCombosBySize<T>(s: seq<T>, k: int)
    ensures forall i, j :: 0 <= i < j < |AllCombos(s, k)| ==> |AllCombos(s, k)[i]| <= |AllCombos(s, k)[j]|
  {
    CombosUpToShape(s, if k < |s| then k else |s|);
  }

  /** There are none without sellers or when fewer than one seller is allowed. */
  lemma AllCombosEmpty<T>(s: seq<T>, k: int)
    requires s == [] || k < 1
    ensures AllCombos(s, k) == []
  {
    if k >= 1 {
      assert |s| == 0;
    }
  }

  /** The number of combinations tried is the sum of C(|s|, r) for r = 1..top. */
  function BinomialSum(n: nat, top: int): nat
    decreases top
  {
    if top <= 0 then 0 else BinomialSum(n, top - 1) + Binomial(n, top)
  }

  lemma {:induction false} CombosUpToCount<T>(s: seq<T>, top: int)
    ensures |CombosUpTo(s, top)| == BinomialSum(|s|, top)
    decreases top
  {
    if top > 0 {
      CombosUpToCount(s, top - 1);
      CombosCount(s, top);
      var front, back := CombosUpTo(s, top - 1), Combos(s, top);
      assert CombosUpTo(s, top) == front + back;
      assert |front + back| == |front| + |back|;
    }
  }
}
