/** The clip-style members of the activation catalogue `ActFunc`.  Each is a
    scalar function; the regressor applies one to every entry of a matrix
    (`Matrices.MapEntries`).  Sigmoid, sine and tanh are transcendental and
    are not defined here: the regressor takes its activation as a parameter.
 */
module ActFunc {

  function Abs(x: real): (r: real)
    ensures 0.0 <= r && (r == x || r == -x)
  {
    if x < 0.0 then -x else x
  }

  /** `np.clip(x, lo, hi)`: the point of [lo, hi] nearest to x. */
  function Clip(x: real, lo: real, hi: real): (r: real)
    requires lo <= hi
    ensures lo <= r <= hi
    ensures lo <= x <= hi ==> r == x
    ensures x < lo ==> r == lo
    ensures hi < x ==> r == hi
  {
    if x < lo then lo else if hi < x then hi else x
  }

  /** Triangular activation: a tent of height 1 on [-1, 1]. */
  function Tribas(x: real): (r: real)
    ensures 0.0 <= r <= 1.0
    ensures Abs(x) <= 1.0 ==> r + Abs(x) == 1.0
    ensures 1.0 <= Abs(x) ==> r == 0.0
  {
    Clip(1.0 - Abs(x), 0.0, 1.0)
  }

  /** Inverse triangular activation: |x| saturated at 1. */
  function InvTribas(x: real): (r: real)
    ensures 0.0 <= r <= 1.0
    ensures Abs(x) <= 1.0 ==> r == Abs(x)
    ensures 1.0 <= Abs(x) ==> r == 1.0
  {
    Clip(Abs(x), 0.0, 1.0)
  }

  /** Hard limit: the unit step, 1 for strictly positive inputs. */
  function Hardlim(x: real): (r: real)
    ensures r == 1.0 <==> 0.0 < x
    ensures r == 0.0 <==> x <= 0.0
  {
    if 0.0 < x then 1.0 else 0.0
  }

  /** Soft limit: x saturated into [0, 1]. */
  function Softlim(x: real): (r: real)
    ensures 0.0 <= r <= 1.0
    ensures 0.0 <= x <= 1.0 ==> r == x
    ensures x < 0.0 ==> r == 0.0
    ensures 1.0 < x ==> r == 1.0
  {
    Clip(x, 0.0, 1.0)
  }

  /** The triangular and inverse triangular activations are complementary:
      their sum is 1 everywhere. */
  lemma TribasComplementsInvTribas(x: real)
    ensures Tribas(x) + InvTribas(x) == 1.0
  {
  }

  /** The inverse triangular activation is the soft limit of |x|. */
  lemma InvTribasIsSoftlimOfAbs(x: real)
    ensures InvTribas(x) == Softlim(Abs(x))
  {
  }

  /** Both triangular activations are even functions. */
  lemma TribasEven(x: real)
    ensures Tribas(-x) == Tribas(x) && InvTribas(-x) == InvTribas(x)
  {
  }

  /** The soft limit is monotone. */
  lemma SoftlimMonotone(x: real, y: real)
    requires x <= y
    ensures Softlim(x) <= Softlim(y)
  {
  }

  /** The hard limit is the soft limit made steep: once the slope k is large
      enough that k·x leaves [0, 1), the two agree. */
  lemma HardlimIsSteepSoftlim(x: real, k: real)
    requires 0.0 < k
    requires x <= 0.0 || 1.0 <= k * x
    ensures Softlim(k * x) == Hardlim(x)
  {
    if x <= 0.0 {
      assert k * x <= 0.0;
    }
  }
}
