/**
 * Keeping the first element of each key, the pattern of a loop that checks a
 * `Set` of seen keys before pushing: the market-pulse item and keyword lists and
 * the self-heal action lists all drop repeats this way.
 */
module Dedup {

  /** The keys of the elements. */
  function Keys<T, K(==)>(xs: seq<T>, key: T -> K): set<K> {
    set k | 0 <= k < |xs| :: key(xs[k])
  }

  /** The elements whose key has not been seen before, in order. */
  function DedupBy<T, K(==)>(xs: seq<T>, key: T -> K): seq<T> {
    if |xs| == 0 then []
    else
      var d := DedupBy(xs[..|xs| - 1], key);
      if key(xs[|xs| - 1]) in Keys(d, key) then d else d + [xs[|xs| - 1]]
  }

  predicate DistinctKeys<T, K(==)>(xs: seq<T>, key: T -> K) {
    forall i, j | 0 <= i < j < |xs| :: key(xs[i]) != key(xs[j])
  }

  /** `xs` is `ys` with some elements left out, the rest in the same order. */
  predicate IsSubsequence<T(==)>(xs: seq<T>, ys: seq<T>) {
    if |ys| == 0 then |xs| == 0
    else
      (|xs| > 0 && xs[|xs| - 1] == ys[|ys| - 1] && IsSubsequence(xs[..|xs| - 1], ys[..|ys| - 1]))
      || IsSubsequence(xs, ys[..|ys| - 1])
  }

  lemma SubsequenceSkip<T>(xs: seq<T>, ys: seq<T>, y: T)
    requires IsSubsequence(xs, ys)
    ensures IsSubsequence(xs, ys + [y])
  {
    assert (ys + [y])[..|ys|] == ys;
  }

  lemma SubsequenceTake<T>(xs: seq<T>, ys: seq<T>, y: T)
    requires IsSubsequence(xs, ys)
    ensures IsSubsequence(xs + [y], ys + [y])
  {
    assert (ys + [y])[..|ys|] == ys;
    assert (xs + [y])[..|xs|] == xs;
  }

  lemma KeysAppend<T, K>(xs: seq<T>, x: T, key: T -> K)
    ensures Keys(xs + [x], key) == Keys(xs, key) + {key(x)}
  {
    var t := xs + [x];
    forall k | k in Keys(xs, key) ensures k in Keys(t, key) {
      var i :| 0 <= i < |xs| && key(xs[i]) == k;
      assert t[i] == xs[i];
    }
    assert t[|xs|] == x;
  }

  /** The result has one element per key of the input, no key twice, and is a
    * subsequence of the input: the surviving elements keep their order. */
  lemma {:induction false} DedupByShape<T, K>(xs: seq<T>, key: T -> K)
    ensures DistinctKeys(DedupBy(xs, key), key)
    ensures Keys(DedupBy(xs, key), key) == Keys(xs, key)
    ensures IsSubsequence(DedupBy(xs, key), xs)
  {
    if |xs| > 0 {
      var init, last := xs[..|xs| - 1], xs[|xs| - 1];
      var d := DedupBy(init, key);
      DedupByShape(init, key);
      assert init + [last] == xs;
      KeysAppend(init, last, key);
      if key(last) in Keys(d, key) {
        SubsequenceSkip(d, init, last);
      } else {
        KeysAppend(d, last, key);
        SubsequenceTake(d, init, last);
        forall i | 0 <= i < |d| ensures key(d[i]) != key(last) {
          assert key(d[i]) in Keys(d, key);
        }
        var r := d + [last];
        forall i, j | 0 <= i < j < |r| ensures key(r[i]) != key(r[j]) {
          assert r[i] == d[i];
        }
      }
    }
  }

  /** Every element of the result comes from the input. */
  lemma {:induction false} DedupByMembers<T, K>(xs: seq<T>, key: T -> K)
    ensures forall x | x in DedupBy(xs, key) :: x in xs
  {
    if |xs| > 0 {
      var init := xs[..|xs| - 1];
      DedupByMembers(init, key);
      assert forall x | x in init :: x in xs;
    }
  }

  /** The index of the first element with the given key. */
  function FirstWithKey<T, K(==)>(xs: seq<T>, k: K, key: T -> K): (i: nat)
    requires k in Keys(xs, key)
    ensures i < |xs| && key(xs[i]) == k
    ensures forall j | 0 <= j < i :: key(xs[j]) != k
  {
    if key(xs[0]) == k then 0
    else
      assert k in Keys(xs[1..], key) by {
        var i :| 0 <= i < |xs| && key(xs[i]) == k;
        assert xs[1..][i - 1] == xs[i];
      }
      1 + FirstWithKey(xs[1..], k, key)
  }

  lemma FirstWithKeyPrefix<T, K>(init: seq<T>, last: T, k: K, key: T -> K)
    requires k in Keys(init, key)
    ensures k in Keys(init + [last], key) && FirstWithKey(init + [last], k, key) == FirstWithKey(init, k, key)
  {
    var xs := init + [last];
    KeysAppend(init, last, key);
    var i := FirstWithKey(init, k, key);
    assert xs[i] == init[i];
    assert forall j | 0 <= j < i :: xs[j] == init[j];
  }

  lemma FirstWithKeyNew<T, K>(init: seq<T>, last: T, key: T -> K)
    requires key(last) !in Keys(init, key)
    ensures key(last) in Keys(init + [last], key) && FirstWithKey(init + [last], key(last), key) == |init|
  {
    var xs := init + [last];
    KeysAppend(init, last, key);
    assert xs[|init|] == last;
    forall j | 0 <= j < |init| ensures key(xs[j]) != key(last) {
      assert xs[j] == init[j];
      assert key(init[j]) in Keys(init, key);
    }
  }

  /** The element kept for each key is the first one with that key. */
  lemma {:induction false} DedupByKeepsFirst<T, K>(xs: seq<T>, i: nat, key: T -> K)
    requires i < |DedupBy(xs, key)|
    ensures key(DedupBy(xs, key)[i]) in Keys(xs, key)
    ensures DedupBy(xs, key)[i] == xs[FirstWithKey(xs, key(DedupBy(xs, key)[i]), key)]
  {
    DedupByShape(xs, key);
    assert key(DedupBy(xs, key)[i]) in Keys(DedupBy(xs, key), key);
    var init, last := xs[..|xs| - 1], xs[|xs| - 1];
    assert init + [last] == xs;
    var d := DedupBy(init, key);
    if i < |d| {
      assert DedupBy(xs, key)[i] == d[i];
      DedupByKeepsFirst(init, i, key);
      FirstWithKeyPrefix(init, last, key(d[i]), key);
    } else {
      assert DedupBy(xs, key)[i] == last && key(last) !in Keys(d, key);
      DedupByShape(init, key);
      FirstWithKeyNew(init, last, key);
    }
  }

  /** Dropping repeats from a list without repeated keys changes nothing. */
  lemma {:induction false} DedupByOfDistinct<T, K>(xs: seq<T>, key: T -> K)
    requires DistinctKeys(xs, key)
    ensures DedupBy(xs, key) == xs
  {
    if |xs| > 0 {
      var init, last := xs[..|xs| - 1], xs[|xs| - 1];
      assert DistinctKeys(init, key);
      DedupByOfDistinct(init, key);
      forall i | 0 <= i < |init| ensures key(init[i]) != key(last) {
        assert xs[i] == init[i];
      }
      assert init + [last] == xs;
    }
  }

  /** Dropping repeats twice is dropping them once. */
  lemma DedupByIdempotent<T, K>(xs: seq<T>, key: T -> K)
    ensures DedupBy(DedupBy(xs, key), key) == DedupBy(xs, key)
  {
    DedupByShape(xs, key);
    DedupByOfDistinct(DedupBy(xs, key), key);
  }
}
