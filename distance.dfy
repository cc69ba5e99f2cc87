/**
 * Squared Euclidean distance between a training row R and the query point S
 * (KnnMapper.squaredDistance and KnnMapper.totalSquaredDistance).
 * Doubles are modelled as reals: no rounding, no NaN.
 */
module Distance {

  /** Every feature vector of the job has exactly this many entries. */
  const NumFeatures: nat := 6

  /** A fixed-length feature vector (the source's `new double[6]`). */
  type Features = f: seq<real> | |f| == NumFeatures witness [0.0, 0.0, 0.0, 0.0, 0.0, 0.0]

  /** squaredDistance(n1) = n1 to the power 2: never negative, and zero for a zero difference. */
  function Square(x: real): (r: real)
    ensures r >= 0.0
    ensures x == 0.0 ==> r == 0.0
  {
    x * x
  }

  /** The sum, over the first n feature indices i, of (S[i] - R[i])^2. */
  function SumOfSquares(r: seq<real>, s: seq<real>, n: nat): (d: real)
    requires n <= |r| && n <= |s|
    ensures d >= 0.0
  {
    if n == 0 then 0.0 else SumOfSquares(r, s, n - 1) + Square(s[n - 1] - r[n - 1])
  }

  /** totalSquaredDistance(R, S): the loop accumulates the squared differences in index order. */
  method TotalSquaredDistance(r: Features, s: Features) returns (sum: real)
    ensures sum == SumOfSquares(r, s, NumFeatures)
    ensures sum >= 0.0
  {
    sum := 0.0;
    for i := 0 to NumFeatures
      invariant sum == SumOfSquares(r, s, i)
    {
      sum := sum + Square(s[i] - r[i]);
    }
  }

  /** Two vectors that agree on the first n indices are at distance zero. */
  lemma {:induction false} SumOfSquaresZeroWhenEqual(r: seq<real>, s: seq<real>, n: nat)
    requires n <= |r| && n <= |s|
    requires r[..n] == s[..n]
    ensures SumOfSquares(r, s, n) == 0.0
  {
    if n > 0 {
      assert r[..n - 1] == r[..n][..n - 1] == s[..n][..n - 1] == s[..n - 1];
      assert r[n - 1] == r[..n][n - 1] == s[..n][n - 1] == s[n - 1];
      SumOfSquaresZeroWhenEqual(r, s, n - 1);
    }
  }

  /** totalSquaredDistance(R, R) is zero. */
  lemma DistanceToSelfIsZero(r: Features)
    ensures SumOfSquares(r, r, NumFeatures) == 0.0
  {
    SumOfSquaresZeroWhenEqual(r, r, NumFeatures);
  }

  /** The distance is symmetric in its two arguments. */
  lemma {:induction false} SumOfSquaresSymmetric(r: seq<real>, s: seq<real>, n: nat)
    requires n <= |r| && n <= |s|
    ensures SumOfSquares(r, s, n) == SumOfSquares(s, r, n)
  {
    if n > 0 {
      SumOfSquaresSymmetric(r, s, n - 1);
      assert Square(s[n - 1] - r[n - 1]) == Square(r[n - 1] - s[n - 1]);
    }
  }

  /** totalSquaredDistance(R, S) == totalSquaredDistance(S, R). */
  lemma DistanceSymmetric(r: Features, s: Features)
    ensures SumOfSquares(r, s, NumFeatures) == SumOfSquares(s, r, NumFeatures)
  {
    SumOfSquaresSymmetric(r, s, NumFeatures);
  }
}
