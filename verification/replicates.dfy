/** Replicate numbering (`count_reps` in pyphe/interpret.py): every element of
    a series is numbered by how often the same value occurred before it, so
    that the n-th replicate of a condition/strain pair gets number n - 1. */
module Replicates {

  /** The number `count_reps` gives position `i`: the occurrences of the same
      value strictly before it. */
  function RepNumber<T(==)>(xs: seq<T>, i: nat): (n: nat)
    requires i < |xs|
    ensures n <= i
  {
    multiset(xs[..i])[xs[i]]
  }

  /** `count_reps`: a counter per distinct value, starting at 0; each element
      receives its value's current count, which is then incremented. The
      output list starts out filled with a placeholder that every position
      overwrites. */
  method CountReps<T(==)>(xs: seq<T>) returns (out: seq<nat>)
    ensures |out| == |xs|
    ensures forall i :: 0 <= i < |xs| ==> out[i] == RepNumber(xs, i)
  {
    var keys := set x | x in xs;
    var counts: map<T, nat> := map k | k in keys :: 0;
    out := seq(|xs|, _ => 878);
    var ind := 0;
    while ind < |xs|
      invariant 0 <= ind <= |xs|
      invariant |out| == |xs|
      invariant forall k :: k in counts <==> k in xs
      invariant forall k :: k in counts ==> counts[k] == multiset(xs[..ind])[k]
      invariant forall i :: 0 <= i < ind ==> out[i] == RepNumber(xs, i)
    {
      var ite := xs[ind];
      out := out[ind := counts[ite]];
      assert xs[..ind + 1] == xs[..ind] + [ite];
      counts := counts[ite := counts[ite] + 1];
      ind := ind + 1;
    }
  }

  /** A position is numbered 0 exactly when its value has not occurred
      before. */
  lemma RepZeroIffFirst<T>(xs: seq<T>, i: nat)
    requires i < |xs|
    ensures RepNumber(xs, i) == 0 <==> forall j :: 0 <= j < i ==> xs[j] != xs[i]
  {
    if exists j :: 0 <= j < i && xs[j] == xs[i] {
      var j :| 0 <= j < i && xs[j] == xs[i];
      assert xs[..i][j] == xs[i];
      assert xs[i] in multiset(xs[..i]);
    } else {
      assert xs[i] !in xs[..i];
    }
  }

  /** Later occurrences of a value get larger numbers: by one more for every
      occurrence in between. */
  lemma {:induction false} RepNumberGrows<T>(xs: seq<T>, i: nat, j: nat)
    requires i < j < |xs| && xs[i] == xs[j]
    ensures RepNumber(xs, i) < RepNumber(xs, j)
    decreases j - i
  {
    var x := xs[i];
    assert xs[..i + 1] == xs[..i] + [x];
    // multiset(xs[..k])[x] does not decrease as k grows
    var k := i + 1;
    while k < j
      invariant i + 1 <= k <= j
      invariant multiset(xs[..k])[x] >= multiset(xs[..i])[x] + 1
    {
      assert xs[..k + 1] == xs[..k] + [xs[k]];
      k := k + 1;
    }
  }

  /** Two occurrences of one value never share a number, so the pairs
      (value, replicate number) are all distinct. */
  lemma RepPairsDistinct<T>(xs: seq<T>, i: nat, j: nat)
    requires i < |xs| && j < |xs| && i != j
    ensures (xs[i], RepNumber(xs, i)) != (xs[j], RepNumber(xs, j))
  {
    if xs[i] == xs[j] {
      if i < j {
        RepNumberGrows(xs, i, j);
      } else {
        RepNumberGrows(xs, j, i);
      }
    }
  }

  /** The numbers of one value are 0, 1, 2, ... in order of occurrence: each
      number below a position's number is taken by an earlier occurrence. */
  lemma {:induction false} RepNumbersConsecutive<T>(xs: seq<T>, i: nat, n: nat)
    requires i < |xs| && n < RepNumber(xs, i)
    ensures exists j :: 0 <= j < i && xs[j] == xs[i] && RepNumber(xs, j) == n
    decreases i
  {
    var x := xs[i];
    // the last earlier occurrence of x
    var j := i - 1;
    assert multiset(xs[..i])[x] > 0;
    while xs[j] != x
      invariant 0 <= j < i
      invariant multiset(xs[..j + 1])[x] == multiset(xs[..i])[x] > 0
      decreases j
    {
      assert xs[..j + 1] == xs[..j] + [xs[j]];
      assert multiset(xs[..j])[x] > 0;
      j := j - 1;
    }
    assert xs[..j + 1] == xs[..j] + [x];
    assert RepNumber(xs, j) + 1 == RepNumber(xs, i);
    if n < RepNumber(xs, j) {
      RepNumbersConsecutive(xs, j, n);
    }
  }
}
