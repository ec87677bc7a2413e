/** Facts about sequences used across the model: distinctness, the nine-digit
    pigeonhole, and sums that do not depend on order. */
module SeqFacts {

  predicate Distinct<T(==)>(s: seq<T>) {
    forall i, j | 0 <= i < j < |s| :: s[i] != s[j]
  }

  /** A duplicate-free sequence has as many distinct elements as entries. */
  lemma {:induction false} DistinctCard<T>(s: seq<T>)
    requires Distinct(s)
    ensures |set x | x in s| == |s|
  {
    if |s| > 0 {
      DistinctCard(s[1..]);
      assert (set x | x in s) == {s[0]} + (set x | x in s[1..]);
      assert s[0] !in (set x | x in s[1..]);
    }
  }

  /** Each element of a duplicate-free sequence occurs exactly once. */
  lemma {:induction false} DistinctOnce<T>(s: seq<T>, x: T)
    requires Distinct(s)
    ensures multiset(s)[x] == if x in s then 1 else 0
  {
    if |s| > 0 {
      assert s == [s[0]] + s[1..];
      DistinctOnce(s[1..], x);
    }
  }

  /** A value at two positions is counted at least twice. */
  lemma TwiceCounted<T>(b: seq<T>, i: int, j: int)
    requires 0 <= i < j < |b| && b[i] == b[j]
    ensures multiset(b)[b[i]] >= 2
  {
    var x := b[i];
    assert b == b[..i] + [x] + b[i+1..j] + [x] + b[j+1..];
  }

  /** A sequence with the same elements as a duplicate-free one is itself
      duplicate-free. */
  lemma SamePermutationDistinct<T>(a: seq<T>, b: seq<T>)
    requires Distinct(a) && multiset(a) == multiset(b)
    ensures Distinct(b)
  {
    forall i, j | 0 <= i < j < |b|
      ensures b[i] != b[j]
    {
      if b[i] == b[j] {
        TwiceCounted(b, i, j);
        DistinctOnce(a, b[i]);
      }
    }
  }

  function OneToNine(): (d: seq<int>)
    ensures |d| == 9 && forall i | 0 <= i < 9 :: d[i] == i + 1
  {
    seq(9, i => i + 1)
  }

  /** The digits 1..9 as a set. */
  ghost function DigitRange(): set<int> {
    set x | x in OneToNine()
  }

  lemma DigitRangeFacts()
    ensures |DigitRange()| == 9
    ensures forall x :: x in DigitRange() <==> 1 <= x <= 9
  {
    var d := OneToNine();
    forall x | 1 <= x <= 9
      ensures x in DigitRange()
    {
      assert d[x - 1] == x;
    }
    assert Distinct(d);
    DistinctCard(d);
  }

  /** Nine distinct digits cover all of 1..9. */
  lemma NineDistinctDigitsCover(s: seq<int>)
    requires |s| == 9 && Distinct(s)
    requires forall i | 0 <= i < 9 :: 1 <= s[i] <= 9
    ensures (set x | x in s) == DigitRange()
  {
    var all := DigitRange();
    var have := set x | x in s;
    DigitRangeFacts();
    forall x | x in have
      ensures x in all
    {
      var i :| 0 <= i < 9 && s[i] == x;
    }
    DistinctCard(s);
    assert all == have + (all - have);
    assert |all - have| == 0;
  }

  /** Pigeonhole: nine distinct digits are each of 1..9 exactly once. */
  lemma NineDistinctDigits(s: seq<int>)
    requires |s| == 9 && Distinct(s)
    requires forall i | 0 <= i < 9 :: 1 <= s[i] <= 9
    ensures multiset(s) == multiset(OneToNine())
  {
    NineDistinctDigitsCover(s);
    var d := OneToNine();
    assert Distinct(d);
    forall x
      ensures multiset(s)[x] == multiset(d)[x]
    {
      DigitRangeFacts();
      if x in s {
        assert x in (set y | y in s);
        assert x in d by { assert d[x - 1] == x; }
      }
      if x in d {
        assert x in DigitRange();
        assert x in s;
      }
      DistinctOnce(s, x);
      DistinctOnce(d, x);
      assert multiset(s)[x] == if x in s then 1 else 0;
      assert multiset(d)[x] == if x in d then 1 else 0;
    }
  }

  function Sum(s: seq<int>): int {
    if |s| == 0 then 0 else s[0] + Sum(s[1..])
  }

  lemma {:induction false} SumAppend(a: seq<int>, b: seq<int>)
    ensures Sum(a + b) == Sum(a) + Sum(b)
  {
    if |a| > 0 {
      assert (a + b)[1..] == a[1..] + b;
      SumAppend(a[1..], b);
    } else {
      assert a + b == b;
    }
  }

  /** A sum does not depend on the order of its terms. */
  lemma {:induction false} SumPermutation(a: seq<int>, b: seq<int>)
    requires multiset(a) == multiset(b)
    ensures Sum(a) == Sum(b)
    decreases |a|
  {
    if |a| == 0 {
      assert |b| == |multiset(b)| == 0;
    } else {
      var i := RemoveFirst(a, b);
      var x := a[0];
      SumPermutation(a[1..], b[..i] + b[i+1..]);
      assert b == b[..i] + [x] + b[i+1..];
      SumAppend(b[..i] + [x], b[i+1..]);
      SumAppend(b[..i], [x]);
      SumAppend(b[..i], b[i+1..]);
    }
  }

  /** The first element of a permutation sits somewhere in the other; taking
      it out of both leaves permutations of each other. */
  lemma RemoveFirst<T>(a: seq<T>, b: seq<T>) returns (i: int)
    requires |a| > 0 && multiset(a) == multiset(b)
    ensures 0 <= i < |b| && b[i] == a[0]
    ensures multiset(a[1..]) == multiset(b[..i] + b[i+1..])
  {
    var x := a[0];
    assert x in multiset(b);
    i :| 0 <= i < |b| && b[i] == x;
    var front, back := b[..i], b[i+1..];
    assert b == front + [x] + back;
    assert a == [x] + a[1..];
    assert multiset(front + back) == multiset(b) - multiset{x};
    assert multiset(a[1..]) == multiset(a) - multiset{x};
  }

  /** Nine distinct digits add up to 45. */
  lemma NineDistinctDigitsSum(s: seq<int>)
    requires |s| == 9 && Distinct(s)
    requires forall i | 0 <= i < 9 :: 1 <= s[i] <= 9
    ensures Sum(s) == 45
  {
    NineDistinctDigits(s);
    SumPermutation(s, OneToNine());
    SumOneToNine();
  }

  /** 1 + 2 + ... + 9. */
  lemma SumOneToNine()
    ensures Sum(OneToNine()) == 45
  {
    SumDigitsFrom(0);
    assert OneToNine()[0..] == OneToNine();
  }

  /** The digits k + 1 .. 9 add up to 45 - (1 + ... + k), written without
      division. */
  lemma {:induction false} SumDigitsFrom(k: int)
    requires 0 <= k <= 9
    ensures 2 * Sum(OneToNine()[k..]) == 90 - k * (k + 1)
    decreases 9 - k
  {
    if k < 9 {
      assert OneToNine()[k..][1..] == OneToNine()[k + 1..];
      SumDigitsFrom(k + 1);
    }
  }
}
