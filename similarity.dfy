/** The similarity helpers of pages/api/interview/ask.js: `dotProduct`,
    `magnitude` and `cosineSimilarity`, over exact reals. `Math.sqrt` is a
    parameter `sqrt`; the contract it is asked to keep is `SqrtLike`. */
module Similarity {
  import opened SessionCreate

  /** The sum of `a[i] * b[i]` over the indices of `a`, accumulated from the
      front as `dotProduct` does; entries of `b` past the length of `a` are
      never read. */
  function Dot(a: Vector, b: Vector): real
    requires |a| <= |b|
  {
    if |a| == 0 then 0.0 else Dot(a[..|a| - 1], b[..|a| - 1]) + a[|a| - 1] * b[|a| - 1]
  }

  /** What `cosineSimilarity` needs of `Math.sqrt`: the result is zero exactly
      when the argument is zero (a negative argument gives NaN, which is not
      zero either). */
  ghost predicate SqrtLike(sqrt: real -> real) {
    forall x :: sqrt(x) == 0.0 <==> x == 0.0
  }

  /** The exact square root on the non-negative reals. */
  ghost predicate ExactSqrt(sqrt: real -> real) {
    forall x :: x >= 0.0 ==> sqrt(x) >= 0.0 && sqrt(x) * sqrt(x) == x
  }

  /** `cosineSimilarity(a, b)`: 0 when either magnitude is 0 (no division
      happens then), the dot product over the product of the magnitudes
      otherwise. */
  function Cosine(a: Vector, b: Vector, sqrt: real -> real): real
    requires |a| <= |b|
  {
    if sqrt(Dot(a, a)) == 0.0 || sqrt(Dot(b, b)) == 0.0 then 0.0
    else Dot(a, b) / (sqrt(Dot(a, a)) * sqrt(Dot(b, b)))
  }

  lemma SquarePositive(y: real)
    requires y != 0.0
    ensures y * y > 0.0
  {
    if y < 0.0 {
      var z := -y;
      assert z * z > 0.0;
      assert y * y == z * z;
    }
  }

  lemma SquareNonNegative(y: real)
    ensures y * y >= 0.0
  {
    if y != 0.0 { SquarePositive(y); }
  }

  /** Only the first `|a|` entries of `b` take part. */
  lemma DotPrefix(a: Vector, b: Vector)
    requires |a| <= |b|
    ensures Dot(a, b) == Dot(a, b[..|a|])
  {
    if |a| > 0 {
      assert b[..|a|][..|a| - 1] == b[..|a| - 1];
    }
  }

  /** The dot product of equal-length vectors is symmetric. */
  lemma {:induction false} DotSymmetric(a: Vector, b: Vector)
    requires |a| == |b|
    ensures Dot(a, b) == Dot(b, a)
  {
    if |a| > 0 {
      DotSymmetric(a[..|a| - 1], b[..|a| - 1]);
    }
  }

  /** A vector's squared magnitude is a sum of squares, never negative. */
  lemma {:induction false} DotSelfNonNegative(a: Vector)
    ensures Dot(a, a) >= 0.0
  {
    if |a| > 0 {
      DotSelfNonNegative(a[..|a| - 1]);
      SquareNonNegative(a[|a| - 1]);
    }
  }

  /** The zero guard: a vector whose self dot product is zero (the zero
      vector) has similarity 0 with anything, in either position. */
  lemma CosineZeroGuard(a: Vector, b: Vector, sqrt: real -> real)
    requires |a| <= |b|
    requires SqrtLike(sqrt)
    requires Dot(a, a) == 0.0 || Dot(b, b) == 0.0
    ensures Cosine(a, b, sqrt) == 0.0
  {
  }

  /** With the exact square root, a vector of non-zero magnitude has
      similarity 1 with itself. */
  lemma CosineSelf(v: Vector, sqrt: real -> real)
    requires ExactSqrt(sqrt)
    requires Dot(v, v) != 0.0
    ensures Cosine(v, v, sqrt) == 1.0
  {
    DotSelfNonNegative(v);
    var d := Dot(v, v);
    RatioOfSquare(d, sqrt(d));
  }

  lemma RatioOfSquare(d: real, m: real)
    requires d != 0.0
    requires m * m == d
    ensures m != 0.0
    ensures d / (m * m) == 1.0
  {
  }

  /** Similarity of equal-length vectors is symmetric. */
  lemma CosineSymmetric(a: Vector, b: Vector, sqrt: real -> real)
    requires |a| == |b|
    ensures Cosine(a, b, sqrt) == Cosine(b, a, sqrt)
  {
    DotSymmetric(a, b);
  }

  /** `dotProduct`: the accumulator loop. */
  method DotProduct(a: Vector, b: Vector) returns (product: real)
    requires |a| <= |b|
    ensures product == Dot(a, b)
  {
    product := 0.0;
    for i := 0 to |a|
      invariant product == Dot(a[..i], b[..i])
    {
      assert a[..i + 1][..i] == a[..i] && b[..i + 1][..i] == b[..i];
      product := product + a[i] * b[i];
    }
    assert a[..|a|] == a;
    DotPrefix(a, b);
  }

  /** `cosineSimilarity`, calling `dotProduct` for the magnitudes and the
      numerator; the division is reached only when both magnitudes are
      non-zero. */
  method CosineSimilarity(a: Vector, b: Vector, sqrt: real -> real) returns (r: real)
    requires |a| <= |b|
    requires SqrtLike(sqrt)
    ensures r == Cosine(a, b, sqrt)
    ensures Dot(a, a) == 0.0 || Dot(b, b) == 0.0 ==> r == 0.0
  {
    var aa := DotProduct(a, a);
    var bb := DotProduct(b, b);
    var magA := sqrt(aa);
    var magB := sqrt(bb);
    if magA == 0.0 || magB == 0.0 {
      r := 0.0;
    } else {
      var ab := DotProduct(a, b);
      r := ab / (magA * magB);
    }
  }
}
