/** The in-place Fisher–Yates `shuffle` of src/App.jsx and the random source
    it draws from.

    `Math.random` is replaced by an oracle: `rnd(k)` is the k-th number drawn,
    and `Math.floor(Math.random() * n)` becomes `rnd(k) % n`, an index in
    [0, n). Every property below holds for every oracle. */
module Shuffling {
  /** A value produced from the oracle, with the cursor of the next draw. */
  datatype Drawn<T> = Drawn(value: T, next: nat)

  /** `Math.floor(Math.random() * n)` as the k-th draw. */
  function Pick(rnd: nat -> nat, k: nat, n: nat): (j: nat)
    requires n > 0
    ensures j < n
  {
    rnd(k) % n
  }

  /** `[a[i], a[j]] = [a[j], a[i]]`. */
  function Swap<T>(a: seq<T>, i: nat, j: nat): (b: seq<T>)
    requires i < |a| && j < |a|
    ensures |b| == |a| && b[i] == a[j] && b[j] == a[i]
    ensures forall k | 0 <= k < |a| && k != i && k != j :: b[k] == a[k]
  {
    a[i := a[j]][j := a[i]]
  }

  /** Exchanging two entries keeps the same elements. */
  lemma SwapPermutes<T>(a: seq<T>, i: nat, j: nat)
    requires i < |a| && j < |a|
    ensures multiset(Swap(a, i, j)) == multiset(a)
  {
    if i != j {
      var b := a[i := a[j]];
      assert multiset(b) == multiset(a) - multiset{a[i]} + multiset{a[j]};
      assert multiset(b[j := a[i]]) == multiset(b) - multiset{b[j]} + multiset{a[i]};
    }
  }

  /** The loop `for (i = n - 1; i > 0; i--)` resumed at i: one draw per
      index, each swapping entry i with an entry at or before it. */
  function ShuffleDown<T>(a: seq<T>, i: nat, rnd: nat -> nat, k: nat): (res: Drawn<seq<T>>)
    requires i < |a|
    ensures multiset(res.value) == multiset(a)
    ensures res.next == k + i
    decreases i
  {
    if i == 0 then Drawn(a, k)
    else
      var j := Pick(rnd, k, i + 1);
      SwapPermutes(a, i, j);
      ShuffleDown(Swap(a, i, j), i - 1, rnd, k + 1)
  }

  /** `shuffle(arr)`: a permutation of `a`, whatever the oracle draws;
      a sequence of n > 0 elements takes n - 1 draws. */
  function Shuffle<T>(a: seq<T>, rnd: nat -> nat, k: nat): (res: Drawn<seq<T>>)
    ensures multiset(res.value) == multiset(a)
    ensures |res.value| == |a|
    ensures res.next == if |a| == 0 then k else k + |a| - 1
  {
    if |a| == 0 then Drawn(a, k) else ShuffleDown(a, |a| - 1, rnd, k)
  }

  /** Shuffling keeps membership in both directions. */
  lemma ShuffleMembers<T>(a: seq<T>, rnd: nat -> nat, k: nat, x: T)
    ensures x in Shuffle(a, rnd, k).value <==> x in a
  {
    var b := Shuffle(a, rnd, k).value;
    assert x in b <==> x in multiset(b);
    assert x in a <==> x in multiset(a);
  }

  /** The draws from k on count down from i: draw k picks i, draw k + 1
      picks i - 1, and so on down to 1. */
  predicate CountDown(rnd: nat -> nat, k: nat, i: nat) {
    forall t | k <= t < k + i :: rnd(t) == k + i - t
  }

  /** The oracle alone decides the order: draws that pick j == i at every
      step leave the sequence as it was. */
  lemma {:induction false} ShuffleDownIdentity<T>(a: seq<T>, i: nat, rnd: nat -> nat, k: nat)
    requires i < |a|
    requires CountDown(rnd, k, i)
    ensures ShuffleDown(a, i, rnd, k).value == a
    decreases i
  {
    if i > 0 {
      DrawsShift(rnd, k, i);
      StayStep(a, i, rnd, k);
      ShuffleDownIdentity(a, i - 1, rnd, k + 1);
    } else {
      assert ShuffleDown(a, i, rnd, k) == Drawn(a, k);
    }
  }

  /** A step whose draw picks i itself swaps nothing. */
  lemma StayStep<T>(a: seq<T>, i: nat, rnd: nat -> nat, k: nat)
    requires 0 < i < |a| && rnd(k) == i
    ensures ShuffleDown(a, i, rnd, k) == ShuffleDown(a, i - 1, rnd, k + 1)
  {
    PickTop(rnd, k, i);
    SwapSelf(a, i);
  }

  /** A draw of i among i + 1 picks i. */
  lemma PickTop(rnd: nat -> nat, k: nat, i: nat)
    requires rnd(k) == i
    ensures Pick(rnd, k, i + 1) == i
  {
  }

  lemma SwapSelf<T>(a: seq<T>, i: nat)
    requires i < |a|
    ensures Swap(a, i, i) == a
  {
  }

  /** The countdown of draws from k is a countdown from k + 1 too. */
  lemma DrawsShift(rnd: nat -> nat, k: nat, i: nat)
    requires i > 0 && CountDown(rnd, k, i)
    ensures rnd(k) == i
    ensures CountDown(rnd, k + 1, i - 1)
  {
  }
}
