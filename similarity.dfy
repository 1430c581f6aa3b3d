/** The scoring half of the search handler: `cosineSimilarity` walks the
    query vector once and accumulates the dot product and the two squared
    norms. Scores are modelled as reals; the closing
    `dotProduct / (sqrt(normA) * sqrt(normB))` is floating-point library
    code and enters the model as the parameter `quotient`. */
module Similarity {

  /** The one failure the scoring loop can raise: it indexes the stored
      embedding with every index of the query vector, so a shorter
      embedding throws at the first missing index. */
  datatype Fault = ArrayIndexOutOfBounds(index: nat)

  datatype Result<T> = Ok(value: T) | Err(fault: Fault)

  /** The final step of the score: dot product and squared norms in,
      score out. */
  type Quotient = (real, real, real) -> real

  /** Sum of a[k] * b[k] over the first n indices. */
  function Dot(a: seq<real>, b: seq<real>, n: nat): real
    requires n <= |a| && n <= |b|
  {
    if n == 0 then 0.0 else Dot(a, b, n - 1) + a[n - 1] * b[n - 1]
  }

  /** Sum of a[k] squared over the first n indices (`Math.pow(a[k], 2)`
      read as an exact square). */
  function SumSquares(a: seq<real>, n: nat): (r: real)
    requires n <= |a|
    ensures r >= 0.0
  {
    if n == 0 then 0.0
    else
      var previous := SumSquares(a, n - 1);
      assert a[n - 1] * a[n - 1] >= 0.0;
      previous + a[n - 1] * a[n - 1]
  }

  /** What `cosineSimilarity(vectorA, vectorB)` yields: the three sums over
      the indices of vectorA handed to `quotient`, or the out-of-bounds
      fault when vectorB is shorter than vectorA. */
  function Cosine(vectorA: seq<real>, vectorB: seq<real>, quotient: Quotient): Result<real>
  {
    if |vectorB| < |vectorA| then Err(ArrayIndexOutOfBounds(|vectorB|))
    else Ok(quotient(Dot(vectorA, vectorB, |vectorA|),
                     SumSquares(vectorA, |vectorA|),
                     SumSquares(vectorB, |vectorA|)))
  }

  /** The scoring loop itself. The accumulators are exactly the prefix
      sums when the loop leaves, and the method throws exactly when vectorB
      runs out before vectorA does. */
  method CosineSimilarity(vectorA: seq<real>, vectorB: seq<real>, quotient: Quotient)
    returns (r: Result<real>)
    ensures r == Cosine(vectorA, vectorB, quotient)
  {
    var dotProduct, normA, normB := 0.0, 0.0, 0.0;
    var i := 0;
    while i < |vectorA|
      invariant i <= |vectorA| && i <= |vectorB|
      invariant dotProduct == Dot(vectorA, vectorB, i)
      invariant normA == SumSquares(vectorA, i)
      invariant normB == SumSquares(vectorB, i)
    {
      if i == |vectorB| {
        return Err(ArrayIndexOutOfBounds(i));
      }
      dotProduct := dotProduct + vectorA[i] * vectorB[i];
      normA := normA + vectorA[i] * vectorA[i];
      normB := normB + vectorB[i] * vectorB[i];
      i := i + 1;
    }
    r := Ok(quotient(dotProduct, normA, normB));
  }

  /** A vector's dot product with itself is its squared norm. */
  lemma {:induction false} DotSelf(a: seq<real>, n: nat)
    requires n <= |a|
    ensures Dot(a, a, n) == SumSquares(a, n)
  {
    if n > 0 {
      DotSelf(a, n - 1);
    }
  }

  /** The dot product does not depend on the order of its arguments. */
  lemma {:induction false} DotSymmetric(a: seq<real>, b: seq<real>, n: nat)
    requires n <= |a| && n <= |b|
    ensures Dot(a, b, n) == Dot(b, a, n)
  {
    if n > 0 {
      DotSymmetric(a, b, n - 1);
    }
  }

  /** The sums over the first n indices read nothing else: vectors that
      agree on those indices give the same sums. */
  lemma {:induction false} SumsAgree(a: seq<real>, b: seq<real>, c: seq<real>, d: seq<real>, n: nat)
    requires n <= |a| && n <= |b| && n <= |c| && n <= |d|
    requires forall k | 0 <= k < n :: a[k] == c[k] && b[k] == d[k]
    ensures Dot(a, b, n) == Dot(c, d, n)
    ensures SumSquares(b, n) == SumSquares(d, n)
  {
    if n > 0 {
      SumsAgree(a, b, c, d, n - 1);
    }
  }

  /** Scoring a vector against itself hands the same value to all three
      arguments of the quotient. */
  lemma SelfScore(a: seq<real>, quotient: Quotient)
    ensures Cosine(a, a, quotient) ==
            Ok(quotient(SumSquares(a, |a|), SumSquares(a, |a|), SumSquares(a, |a|)))
  {
    DotSelf(a, |a|);
  }

  /** Entries of vectorB past the length of vectorA are never read. */
  lemma CosineIgnoresTail(vectorA: seq<real>, vectorB: seq<real>, tail: seq<real>, quotient: Quotient)
    requires |vectorA| <= |vectorB|
    ensures Cosine(vectorA, vectorB + tail, quotient) == Cosine(vectorA, vectorB, quotient)
  {
    SumsAgree(vectorA, vectorB + tail, vectorA, vectorB, |vectorA|);
  }

  /** Sum of (a[k] * y - x * b[k]) squared over the first n indices: a
      sum of squares, so never negative. */
  function CrossSquares(a: seq<real>, b: seq<real>, x: real, y: real, n: nat): (r: real)
    requires n <= |a| && n <= |b|
    ensures r >= 0.0
  {
    if n == 0 then 0.0
    else
      var previous := CrossSquares(a, b, x, y, n - 1);
      var term := a[n - 1] * y - x * b[n - 1];
      assert term * term >= 0.0;
      previous + term * term
  }

  /** Expanding the squares of CrossSquares gives the accumulators back. */
  lemma {:induction false} CrossSquaresExpand(a: seq<real>, b: seq<real>, x: real, y: real, n: nat)
    requires n <= |a| && n <= |b|
    ensures CrossSquares(a, b, x, y, n) ==
            y * y * SumSquares(a, n) - 2.0 * x * y * Dot(a, b, n) + x * x * SumSquares(b, n)
  {
    if n > 0 {
      CrossSquaresExpand(a, b, x, y, n - 1);
      var p, q := a[n - 1], b[n - 1];
      var normA, d, normB := SumSquares(a, n - 1), Dot(a, b, n - 1), SumSquares(b, n - 1);
      assert (p * y - x * q) * (p * y - x * q) == y * y * (p * p) - 2.0 * x * y * (p * q) + x * x * (q * q);
      assert y * y * (normA + p * p) == y * y * normA + y * y * (p * p);
      assert 2.0 * x * y * (d + p * q) == 2.0 * x * y * d + 2.0 * x * y * (p * q);
      assert x * x * (normB + q * q) == x * x * normB + x * x * (q * q);
    }
  }

  /** Cauchy-Schwarz for the three accumulators: the squared dot product
      never exceeds the product of the squared norms, which is what bounds
      the exact cosine to [-1, 1]. */
  lemma {:induction false} CauchySchwarz(a: seq<real>, b: seq<real>, n: nat)
    requires n <= |a| && n <= |b|
    ensures Dot(a, b, n) * Dot(a, b, n) <= SumSquares(a, n) * SumSquares(b, n)
  {
    if n > 0 {
      CauchySchwarz(a, b, n - 1);
      var d, normA, normB := Dot(a, b, n - 1), SumSquares(a, n - 1), SumSquares(b, n - 1);
      var x, y := a[n - 1], b[n - 1];
      CrossSquaresExpand(a, b, x, y, n - 1);
      assert 2.0 * d * x * y <= normA * y * y + normB * x * x;
      assert (d + x * y) * (d + x * y) == d * d + 2.0 * d * x * y + (x * x) * (y * y);
      assert (normA + x * x) * (normB + y * y) ==
             normA * normB + normA * y * y + normB * x * x + (x * x) * (y * y);
    }
  }
}
