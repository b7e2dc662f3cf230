/** Finite sums and means over `real`, the arithmetic behind `np.sum`,
    `np.average` and `.mean()`. */
module Sums {
  import opened Results

  /** Sum of the entries, accumulated from the left. */
  function Sum(s: seq<real>): real
    decreases |s|
  {
    if |s| == 0 then 0.0 else Sum(s[..|s| - 1]) + s[|s| - 1]
  }

  /** Arithmetic mean; NaN (`None`) for an empty sequence, as in NumPy. */
  function Mean(s: seq<real>): (r: Option<real>)
    ensures r.None? <==> |s| == 0
  {
    if |s| == 0 then None else Some(Sum(s) / (|s| as real))
  }

  /** Every entry divided by `k`. */
  function DivideAll(s: seq<real>, k: real): (r: seq<real>)
    requires k != 0.0
    ensures |r| == |s|
    ensures forall i :: 0 <= i < |s| ==> r[i] == s[i] / k
    ensures forall i :: 0 <= i < |s| ==> r[i] * k == s[i]
  {
    seq(|s|, i requires 0 <= i < |s| => s[i] / k)
  }

  /** Real product, kept behind a name: the prover then sees one term for
      x·x wherever it occurs rather than forms it may normalise apart. */
  function Mul(a: real, b: real): real
  {
    a * b
  }

  function Square(x: real): real
  {
    Mul(x, x)
  }

  lemma MultiplyPositive(a: real, b: real)
    requires 0.0 < a && 0.0 < b
    ensures 0.0 < Mul(a, b)
  {
  }

  lemma MultiplyNegated(a: real, b: real)
    ensures Mul(-a, -b) == Mul(a, b)
  {
  }

  /** A square is non-negative, and positive unless its root is zero. */
  lemma SquareSign(x: real)
    ensures 0.0 <= Square(x)
    ensures x != 0.0 ==> 0.0 < Square(x)
  {
    if 0.0 < x {
      MultiplyPositive(x, x);
    } else if x < 0.0 {
      MultiplyPositive(-x, -x);
      MultiplyNegated(x, x);
    }
  }

  /** A quotient of a non-negative number by a positive one is non-negative,
      and zero only for a zero numerator. */
  lemma DivideSign(s: real, n: real)
    requires 0.0 <= s && 0.0 < n
    ensures 0.0 <= s / n
    ensures s / n == 0.0 <==> s == 0.0
  {
  }

  lemma DivideTwice(s: real, a: real, b: real)
    requires a != 0.0 && b != 0.0
    ensures (s / a) / b == s / (a * b)
  {
  }

  /** Dividing non-negative terms by a positive number keeps them
      non-negative. */
  lemma DivideAllNonNegative(s: seq<real>, k: real)
    requires AllNonNegative(s) && k != 0.0
    ensures 0.0 < k ==> AllNonNegative(DivideAll(s, k))
  {
    if 0.0 < k {
      forall i | 0 <= i < |s|
        ensures 0.0 <= DivideAll(s, k)[i]
      {
        DivideSign(s[i], k);
      }
    }
  }

  predicate AllNonNegative(s: seq<real>)
  {
    forall i :: 0 <= i < |s| ==> 0.0 <= s[i]
  }

  /** A sum of non-negative terms is non-negative, and it is zero exactly
      when every term is zero. */
  lemma {:induction false} SumNonNegative(s: seq<real>)
    requires AllNonNegative(s)
    ensures 0.0 <= Sum(s)
    ensures Sum(s) == 0.0 <==> forall i :: 0 <= i < |s| ==> s[i] == 0.0
  {
    if |s| > 0 {
      var init := s[..|s| - 1];
      assert forall i :: 0 <= i < |init| ==> init[i] == s[i];
      SumNonNegative(init);
      if Sum(s) == 0.0 {
        forall i | 0 <= i < |s|
          ensures s[i] == 0.0
        {
          if i < |s| - 1 {
            assert init[i] == s[i];
          }
        }
      }
    }
  }

  lemma SumSnoc(s: seq<real>, x: real)
    ensures Sum(s + [x]) == Sum(s) + x
  {
    assert (s + [x])[..|s|] == s;
  }

  /** Summation distributes over concatenation. */
  lemma {:induction false} SumConcat(a: seq<real>, b: seq<real>)
    ensures Sum(a + b) == Sum(a) + Sum(b)
    decreases |b|
  {
    if |b| > 0 {
      var b' := b[..|b| - 1];
      assert a + b == (a + b') + [b[|b| - 1]];
      SumConcat(a, b');
      SumSnoc(a + b', b[|b| - 1]);
    } else {
      assert a + b == a;
    }
  }

  /** Summation is additive in its terms. */
  lemma {:induction false} SumPointwiseAdd(a: seq<real>, b: seq<real>, s: seq<real>)
    requires |a| == |b| == |s|
    requires forall i :: 0 <= i < |s| ==> s[i] == a[i] + b[i]
    ensures Sum(s) == Sum(a) + Sum(b)
    decreases |s|
  {
    if |s| > 0 {
      var n := |s| - 1;
      SumPointwiseAdd(a[..n], b[..n], s[..n]);
    }
  }

  /** Dividing every term by `k` divides the sum by `k`. */
  lemma {:induction false} SumDivideAll(s: seq<real>, k: real)
    requires k != 0.0
    ensures Sum(DivideAll(s, k)) == Sum(s) / k
    decreases |s|
  {
    if |s| > 0 {
      var n := |s| - 1;
      assert DivideAll(s, k)[..n] == DivideAll(s[..n], k);
      SumDivideAll(s[..n], k);
      assert Sum(DivideAll(s, k)) == Sum(s[..n]) / k + s[n] / k;
    }
  }

  /** The mean of the terms divided by `k` is the mean divided by `k`. */
  lemma MeanDivideAll(s: seq<real>, k: real)
    requires k != 0.0 && |s| > 0
    ensures Mean(DivideAll(s, k)) == Some(Mean(s).value / k)
  {
    SumDivideAll(s, k);
    var n := |s| as real;
    assert (Sum(s) / k) / n == (Sum(s) / n) / k;
  }
}
