/** include/libembedding/similarity.h: cosine, dot product and euclidean distance.

    Floats are read as reals. The square root is a parameter of which only
    sqrt(x) >= 0 and sqrt(x) * sqrt(x) == x (for x >= 0) is used.
 */
module Similarity {
  import opened Reals
  import opened Sorting

  ghost predicate IsSqrt(sqrt: real -> real) {
    forall x :: x >= 0.0 ==> sqrt(x) >= 0.0 && sqrt(x) * sqrt(x) == x
  }

  /* ---- Specification: sums over sequences ---- */

  function DotUpTo(a: seq<real>, b: seq<real>, n: nat): real
    requires n <= |a| && n <= |b|
  {
    if n == 0 then 0.0 else DotUpTo(a, b, n - 1) + a[n - 1] * b[n - 1]
  }

  function Dot(a: seq<real>, b: seq<real>): real
    requires |a| == |b|
  {
    DotUpTo(a, b, |a|)
  }

  function Combine(a: seq<real>, s: real, b: seq<real>): (r: seq<real>)
    requires |a| == |b|
    ensures |r| == |a| && forall i :: 0 <= i < |a| ==> r[i] == a[i] + s * b[i]
  {
    seq(|a|, i requires 0 <= i < |a| => a[i] + s * b[i])
  }

  function Difference(a: seq<real>, b: seq<real>): (r: seq<real>)
    requires |a| == |b|
    ensures |r| == |a| && forall i :: 0 <= i < |a| ==> r[i] == a[i] - b[i]
  {
    seq(|a|, i requires 0 <= i < |a| => a[i] - b[i])
  }

  function Scaled(c: real, a: seq<real>): (r: seq<real>)
    ensures |r| == |a| && forall i :: 0 <= i < |a| ==> r[i] == c * a[i]
  {
    seq(|a|, i requires 0 <= i < |a| => c * a[i])
  }

  predicate IsZero(a: seq<real>) {
    forall i :: 0 <= i < |a| ==> a[i] == 0.0
  }

  function Cosine(a: seq<real>, b: seq<real>, sqrt: real -> real): real
    requires |a| == |b| && IsSqrt(sqrt)
  {
    if Dot(a, a) == 0.0 || Dot(b, b) == 0.0 then 0.0
    else
      NormsPositive(a, b, sqrt);
      Dot(a, b) / Norms(a, b, sqrt)
  }

  function Norms(a: seq<real>, b: seq<real>, sqrt: real -> real): real {
    sqrt(Dot(a, a)) * sqrt(Dot(b, b))
  }

  function Distance(a: seq<real>, b: seq<real>, sqrt: real -> real): real
    requires |a| == |b|
  {
    sqrt(Dot(Difference(a, b), Difference(a, b)))
  }

  /* ---- The C functions ---- */

  method CosineSimilarity(a: array?<real>, b: array?<real>, dim: int, sqrt: real -> real) returns (r: real)
    requires IsSqrt(sqrt)
    requires a != null ==> dim <= a.Length
    requires b != null ==> dim <= b.Length
    ensures a == null || b == null || dim <= 0 ==> r == 0.0
    ensures a != null && b != null && dim > 0 ==> r == Cosine(a[..dim], b[..dim], sqrt)
  {
    if a == null || b == null || dim <= 0 {
      return 0.0;
    }
    var dot, normA, normB := 0.0, 0.0, 0.0;
    for i := 0 to dim
      invariant dot == DotUpTo(a[..dim], b[..dim], i)
      invariant normA == DotUpTo(a[..dim], a[..dim], i)
      invariant normB == DotUpTo(b[..dim], b[..dim], i)
    {
      dot := dot + a[i] * b[i];
      normA := normA + a[i] * a[i];
      normB := normB + b[i] * b[i];
    }
    if normA == 0.0 || normB == 0.0 {
      return 0.0;
    }
    NormsPositive(a[..dim], b[..dim], sqrt);
    r := dot / (sqrt(normA) * sqrt(normB));
  }

  method DotProduct(a: array?<real>, b: array?<real>, dim: int) returns (r: real)
    requires a != null ==> dim <= a.Length
    requires b != null ==> dim <= b.Length
    ensures a == null || b == null || dim <= 0 ==> r == 0.0
    ensures a != null && b != null && dim > 0 ==> r == Dot(a[..dim], b[..dim])
  {
    if a == null || b == null || dim <= 0 {
      return 0.0;
    }
    r := 0.0;
    for i := 0 to dim
      invariant r == DotUpTo(a[..dim], b[..dim], i)
    {
      r := r + a[i] * b[i];
    }
  }

  method EuclideanDistance(a: array?<real>, b: array?<real>, dim: int, sqrt: real -> real) returns (r: real)
    requires a != null ==> dim <= a.Length
    requires b != null ==> dim <= b.Length
    ensures a == null || b == null || dim <= 0 ==> r == 0.0
    ensures a != null && b != null && dim > 0 ==> r == Distance(a[..dim], b[..dim], sqrt)
  {
    if a == null || b == null || dim <= 0 {
      return 0.0;
    }
    ghost var difference := Difference(a[..dim], b[..dim]);
    var sum := 0.0;
    for i := 0 to dim
      invariant sum == DotUpTo(difference, difference, i)
    {
      var diff := a[i] - b[i];
      sum := sum + diff * diff;
    }
    r := sqrt(sum);
  }

  /* ---- The formulas, pinned down ---- */

  /** The dot product, one component after the other. */
  lemma DotIs(a: seq<real>, b: seq<real>, x: real, y: real)
    requires |a| == |b|
    ensures Dot([], []) == 0.0 && Dot(a + [x], b + [y]) == Dot(a, b) + x * y
  {
    SameDots(a + [x], a, b + [y], b, |a|);
  }

  lemma {:induction false} SameDots(a: seq<real>, c: seq<real>, b: seq<real>, e: seq<real>, n: nat)
    requires n <= |a| && n <= |b| && n <= |c| && n <= |e|
    requires forall i :: 0 <= i < n ==> a[i] == c[i] && b[i] == e[i]
    ensures DotUpTo(a, b, n) == DotUpTo(c, e, n)
  {
    if n > 0 {
      SameDots(a, c, b, e, n - 1);
    }
  }

  /** The cosine is the dot product over the two roots, and 0 if a vector has no length. */
  lemma CosineIs(a: seq<real>, b: seq<real>, sqrt: real -> real)
    requires |a| == |b| && IsSqrt(sqrt)
    ensures Dot(a, a) == 0.0 || Dot(b, b) == 0.0 ==> Cosine(a, b, sqrt) == 0.0
    ensures Dot(a, a) != 0.0 && Dot(b, b) != 0.0 ==>
              Cosine(a, b, sqrt) * (sqrt(Dot(a, a)) * sqrt(Dot(b, b))) == Dot(a, b)
  {
    if Dot(a, a) != 0.0 && Dot(b, b) != 0.0 {
      NormsPositive(a, b, sqrt);
      Quotient(Dot(a, b), Norms(a, b, sqrt));
    }
  }

  /** The distance is the root of the dot product of the difference with itself. */
  lemma DistanceIs(a: seq<real>, b: seq<real>, diff: seq<real>, sqrt: real -> real)
    requires |a| == |b| == |diff| && IsSqrt(sqrt) && forall i :: 0 <= i < |a| ==> diff[i] == a[i] - b[i]
    ensures Distance(a, b, sqrt) >= 0.0 && Distance(a, b, sqrt) * Distance(a, b, sqrt) == Dot(diff, diff)
  {
    assert diff == Difference(a, b);
    SquaresNonNegative(diff, |diff|);
  }

  /* ---- Algebra of the accumulators ---- */

  lemma {:induction false} DotCommutes(a: seq<real>, b: seq<real>, n: nat)
    requires n <= |a| && n <= |b|
    ensures DotUpTo(a, b, n) == DotUpTo(b, a, n)
  {
    if n > 0 {
      DotCommutes(a, b, n - 1);
    }
  }

  lemma {:induction false} SquaresNonNegative(a: seq<real>, n: nat)
    requires n <= |a|
    ensures DotUpTo(a, a, n) >= 0.0
    ensures DotUpTo(a, a, n) == 0.0 <==> forall i :: 0 <= i < n ==> a[i] == 0.0
  {
    if n > 0 {
      SquaresNonNegative(a, n - 1);
      SquareSign(a[n - 1]);
    }
  }

  // Bilinearity: the second argument split as a + s * b.
  lemma {:induction false} DotCombine(c: seq<real>, a: seq<real>, s: real, b: seq<real>, n: nat)
    requires |a| == |b| == |c| && n <= |a|
    ensures DotUpTo(c, Combine(a, s, b), n) == DotUpTo(c, a, n) + s * DotUpTo(c, b, n)
  {
    if n > 0 {
      DotCombine(c, a, s, b, n - 1);
      CombineStep(c[n - 1], a[n - 1], b[n - 1], s, DotUpTo(c, b, n - 1));
    }
  }

  lemma CombineStep(c: real, a: real, b: real, s: real, rest: real)
    ensures s * rest + c * (a + s * b) == c * a + s * (rest + c * b)
  {
  }

  /** |a + s b|^2 = |a|^2 + 2 s (a . b) + s^2 |b|^2 */
  lemma SquareOfCombination(a: seq<real>, s: real, b: seq<real>)
    requires |a| == |b|
    ensures var c := Combine(a, s, b);
            Dot(c, c) == Dot(a, a) + 2.0 * s * Dot(a, b) + s * s * Dot(b, b)
  {
    var c, n := Combine(a, s, b), |a|;
    DotCombine(c, a, s, b, n);
    DotCommutes(c, a, n);
    DotCommutes(c, b, n);
    DotCombine(a, a, s, b, n);
    DotCombine(b, a, s, b, n);
    DotCommutes(a, b, n);
    QuadraticExpansion(Dot(a, a), Dot(a, b), Dot(b, b), s);
  }

  lemma QuadraticExpansion(aa: real, ab: real, bb: real, s: real)
    ensures (aa + s * ab) + s * (ab + s * bb) == aa + 2.0 * s * ab + s * s * bb
  {
  }

  /** Cauchy-Schwarz for the accumulators of the cosine loop. */
  lemma CauchySchwarz(a: seq<real>, b: seq<real>)
    requires |a| == |b|
    ensures Dot(a, b) * Dot(a, b) <= Dot(a, a) * Dot(b, b)
    ensures Dot(a, b) * Dot(a, b) == Dot(a, a) * Dot(b, b) ==>
              IsZero(b) || exists t: real :: a == Scaled(t, b)
  {
    var n := |a|;
    SquaresNonNegative(b, n);
    if IsZero(b) {
      DotWithZero(a, b, n);
    } else {
      var aa, ab, bb := Dot(a, a), Dot(a, b), Dot(b, b);
      var t := ab / bb;
      Quotient(ab, bb);
      var c := Combine(a, -t, b);
      SquareOfCombination(a, -t, b);
      SquaresNonNegative(c, n);
      Discriminant(aa, ab, bb, t, Dot(c, c));
      if ab * ab == aa * bb {
        assert IsZero(c);
        forall i | 0 <= i < n ensures a[i] == t * b[i] {
          assert c[i] == a[i] + -t * b[i] == 0.0;
        }
        ScaledIs(a, t, b);
      }
    }
  }

  lemma ScaledIs(a: seq<real>, t: real, b: seq<real>)
    requires |a| == |b| && forall i :: 0 <= i < |a| ==> a[i] == t * b[i]
    ensures a == Scaled(t, b)
  {
  }

  /** ... with equality exactly for vectors on a common line through the origin. */
  lemma CauchySchwarzEquality(a: seq<real>, b: seq<real>)
    requires |a| == |b|
    ensures Dot(a, b) * Dot(a, b) == Dot(a, a) * Dot(b, b) <==>
              IsZero(b) || exists t: real :: a == Scaled(t, b)
  {
    CauchySchwarz(a, b);
    if IsZero(b) {
      DotWithZero(a, b, |a|);
      DotWithZero(b, b, |a|);
    } else if t: real :| a == Scaled(t, b) {
      CollinearDots(a, t, b);
      CollinearProduct(t, Dot(a, a), Dot(a, b), Dot(b, b));
    }
  }

  lemma CollinearDots(a: seq<real>, t: real, b: seq<real>)
    requires |a| == |b| && a == Scaled(t, b)
    ensures Dot(a, b) == t * Dot(b, b) && Dot(a, a) == t * Dot(a, b)
  {
    DotScaled(b, t, b, |a|);
    DotScaled(a, t, b, |a|);
  }

  lemma CollinearProduct(t: real, aa: real, ab: real, bb: real)
    requires ab == t * bb && aa == t * ab
    ensures ab * ab == aa * bb
  {
  }

  lemma Discriminant(aa: real, ab: real, bb: real, t: real, cc: real)
    requires t * bb == ab && bb > 0.0 && cc >= 0.0
    requires cc == aa + 2.0 * -t * ab + -t * -t * bb
    ensures ab * ab <= aa * bb
    ensures ab * ab == aa * bb <==> cc == 0.0
  {
    assert -t * -t * bb == t * ab;
    assert cc == aa - t * ab;
    assert cc * bb == aa * bb - ab * (t * bb);
    ProductSign(cc, bb);
  }

  lemma {:induction false} DotWithZero(a: seq<real>, b: seq<real>, n: nat)
    requires n <= |a| && n <= |b| && IsZero(b)
    ensures DotUpTo(a, b, n) == 0.0
  {
    if n > 0 {
      DotWithZero(a, b, n - 1);
    }
  }

  lemma {:induction false} DotScaled(c: seq<real>, s: real, b: seq<real>, n: nat)
    requires |b| == |c| && n <= |b|
    ensures DotUpTo(c, Scaled(s, b), n) == s * DotUpTo(c, b, n)
    ensures DotUpTo(Scaled(s, b), c, n) == s * DotUpTo(b, c, n)
  {
    if n > 0 {
      DotScaled(c, s, b, n - 1);
      CombineStep(c[n - 1], 0.0, b[n - 1], s, DotUpTo(c, b, n - 1));
      CombineStep(c[n - 1], 0.0, b[n - 1], s, DotUpTo(b, c, n - 1));
    }
  }

  /* ---- Square roots ---- */

  lemma SqrtUnique(sqrt: real -> real, x: real, y: real)
    requires IsSqrt(sqrt) && y >= 0.0 && y * y == x
    ensures x >= 0.0 && sqrt(x) == y
  {
    SquareSign(y);
    SameSquare(sqrt(x), y);
  }

  lemma SqrtPositive(sqrt: real -> real, x: real)
    requires IsSqrt(sqrt) && x > 0.0
    ensures sqrt(x) > 0.0
  {
    SquareSign(sqrt(x));
  }

  lemma NormsPositive(a: seq<real>, b: seq<real>, sqrt: real -> real)
    requires |a| == |b| && IsSqrt(sqrt)
    ensures Dot(a, a) >= 0.0 && Dot(b, b) >= 0.0
    ensures Dot(a, a) != 0.0 && Dot(b, b) != 0.0 ==> Norms(a, b, sqrt) > 0.0
  {
    SquaresNonNegative(a, |a|);
    SquaresNonNegative(b, |b|);
    if Dot(a, a) > 0.0 && Dot(b, b) > 0.0 {
      SqrtPositive(sqrt, Dot(a, a));
      SqrtPositive(sqrt, Dot(b, b));
      ProductSign(sqrt(Dot(a, a)), sqrt(Dot(b, b)));
    }
  }

  /* ---- Cosine ---- */

  /** The cosine lies in [-1, 1]; it is 1 exactly for non-zero vectors of the same direction. */
  lemma CosineBounds(a: seq<real>, b: seq<real>, sqrt: real -> real)
    requires |a| == |b| && IsSqrt(sqrt)
    ensures -1.0 <= Cosine(a, b, sqrt) <= 1.0
    ensures Cosine(a, b, sqrt) == 1.0 <==>
              !IsZero(a) && !IsZero(b) && exists t: real :: t > 0.0 && a == Scaled(t, b)
  {
    SquaresNonNegative(a, |a|);
    SquaresNonNegative(b, |b|);
    if !IsZero(a) && !IsZero(b) {
      var dot, norms := Dot(a, b), Norms(a, b, sqrt);
      NormsPositive(a, b, sqrt);
      DotWithinNorms(a, b, sqrt);
      Quotient(dot, norms);
      DivideOrder(norms, dot, norms);
      DivideOrder(dot, -norms, norms);
      Quotient(norms, norms);
      QuotientIsUnique(-1.0, -norms, norms);
      SameDirection(a, b, sqrt);
    }
  }

  lemma DotWithinNorms(a: seq<real>, b: seq<real>, sqrt: real -> real)
    requires |a| == |b| && IsSqrt(sqrt)
    ensures var norms := Norms(a, b, sqrt);
            norms >= 0.0 && norms * norms == Dot(a, a) * Dot(b, b) && -norms <= Dot(a, b) <= norms
  {
    var p, q := sqrt(Dot(a, a)), sqrt(Dot(b, b));
    RootsAndSquares(a, sqrt);
    RootsAndSquares(b, sqrt);
    CauchySchwarz(a, b);
    RootOfBound(Dot(a, b), Dot(a, a), Dot(b, b), p, q);
  }

  lemma RootOfBound(ab: real, aa: real, bb: real, p: real, q: real)
    requires p >= 0.0 && q >= 0.0 && p * p == aa && q * q == bb && ab * ab <= aa * bb
    ensures p * q >= 0.0 && (p * q) * (p * q) == aa * bb && -(p * q) <= ab <= p * q
  {
    ProductOfSquares(p, q);
    ProductSign(p, q);
    SquareOrder(ab, p * q);
  }

  lemma SameDirection(a: seq<real>, b: seq<real>, sqrt: real -> real)
    requires |a| == |b| && IsSqrt(sqrt) && !IsZero(a) && !IsZero(b)
    ensures Dot(a, b) == Norms(a, b, sqrt) <==> exists t: real :: t > 0.0 && a == Scaled(t, b)
  {
    if Dot(a, b) == Norms(a, b, sqrt) {
      var t := FactorOf(a, b, sqrt);
    }
    if t: real :| t > 0.0 && a == Scaled(t, b) {
      PositiveFactor(a, t, b, sqrt);
    }
  }

  lemma FactorOf(a: seq<real>, b: seq<real>, sqrt: real -> real) returns (t: real)
    requires |a| == |b| && IsSqrt(sqrt) && !IsZero(a) && !IsZero(b) && Dot(a, b) == Norms(a, b, sqrt)
    ensures t > 0.0 && a == Scaled(t, b)
  {
    SquaresNonNegative(a, |a|);
    SquaresNonNegative(b, |b|);
    NormsPositive(a, b, sqrt);
    DotWithinNorms(a, b, sqrt);
    t := SomeFactor(a, b);
    CollinearDots(a, t, b);
    SignOfFactor(t, Dot(b, b), Dot(a, b));
  }

  lemma SomeFactor(a: seq<real>, b: seq<real>) returns (t: real)
    requires |a| == |b| && !IsZero(b) && Dot(a, b) * Dot(a, b) == Dot(a, a) * Dot(b, b)
    ensures a == Scaled(t, b)
  {
    CauchySchwarzEquality(a, b);
    t :| a == Scaled(t, b);
  }

  lemma PositiveFactor(a: seq<real>, t: real, b: seq<real>, sqrt: real -> real)
    requires |a| == |b| && IsSqrt(sqrt) && t > 0.0 && a == Scaled(t, b)
    ensures Dot(a, b) == Norms(a, b, sqrt)
  {
    var ab, norms := Dot(a, b), Norms(a, b, sqrt);
    CollinearDots(a, t, b);
    SquaresNonNegative(b, |b|);
    ProductSign(t, Dot(b, b));
    CollinearProduct(t, Dot(a, a), ab, Dot(b, b));
    DotWithinNorms(a, b, sqrt);
    SameSquare(ab, norms);
  }

  lemma SignOfFactor(t: real, bb: real, ab: real)
    requires t * bb == ab && bb > 0.0 && ab > 0.0
    ensures t > 0.0
  {
    if t < 0.0 {
      ProductSign(-t, bb);
    }
  }

  lemma CosineSymmetric(a: seq<real>, b: seq<real>, sqrt: real -> real)
    requires |a| == |b| && IsSqrt(sqrt)
    ensures Cosine(a, b, sqrt) == Cosine(b, a, sqrt)
  {
    DotCommutes(a, b, |a|);
    NormsPositive(a, b, sqrt);
    NormsPositive(b, a, sqrt);
  }

  /** Scaling either vector by a positive factor does not change the cosine. */
  lemma CosineScaleInvariant(c: real, a: seq<real>, b: seq<real>, sqrt: real -> real)
    requires |a| == |b| && c > 0.0 && IsSqrt(sqrt)
    ensures Cosine(Scaled(c, a), b, sqrt) == Cosine(a, b, sqrt)
    ensures Cosine(a, Scaled(c, b), sqrt) == Cosine(a, b, sqrt)
  {
    ScaleFirst(c, a, b, sqrt);
    ScaleFirst(c, b, a, sqrt);
    CosineSymmetric(a, b, sqrt);
    CosineSymmetric(a, Scaled(c, b), sqrt);
  }

  lemma ScaleFirst(c: real, a: seq<real>, b: seq<real>, sqrt: real -> real)
    requires |a| == |b| && c > 0.0 && IsSqrt(sqrt)
    ensures Cosine(Scaled(c, a), b, sqrt) == Cosine(a, b, sqrt)
  {
    var ca := Scaled(c, a);
    DotsOfScaled(c, a, b);
    NormsPositive(a, b, sqrt);
    NormsPositive(ca, b, sqrt);
    if Dot(a, a) != 0.0 && Dot(b, b) != 0.0 {
      NormsScaled(c, a, b, sqrt);
      CancelFactor(c, Dot(a, b), Norms(a, b, sqrt), Dot(ca, b), Norms(ca, b, sqrt));
    }
  }

  lemma DotsOfScaled(c: real, a: seq<real>, b: seq<real>)
    requires |a| == |b| && c > 0.0
    ensures Dot(Scaled(c, a), b) == c * Dot(a, b)
    ensures Dot(Scaled(c, a), Scaled(c, a)) == c * (c * Dot(a, a))
    ensures Dot(Scaled(c, a), Scaled(c, a)) == 0.0 <==> Dot(a, a) == 0.0
  {
    var ca, n := Scaled(c, a), |a|;
    DotScaled(b, c, a, n);
    DotCommutes(ca, b, n);
    DotCommutes(a, b, n);
    DotScaled(ca, c, a, n);
    DotCommutes(ca, a, n);
    DotScaled(a, c, a, n);
    SquaresNonNegative(a, n);
    ProductSign(c, Dot(a, a));
    ProductSign(c, c * Dot(a, a));
  }

  lemma NormsScaled(c: real, a: seq<real>, b: seq<real>, sqrt: real -> real)
    requires |a| == |b| && c > 0.0 && IsSqrt(sqrt) && Dot(a, a) != 0.0
    ensures Norms(Scaled(c, a), b, sqrt) == c * Norms(a, b, sqrt)
  {
    SquaresNonNegative(a, |a|);
    DotsOfScaled(c, a, b);
    RootsScaled(sqrt, c, Dot(a, a), Dot(b, b), Dot(Scaled(c, a), Scaled(c, a)));
  }

  lemma RootsScaled(sqrt: real -> real, c: real, aa: real, bb: real, cc: real)
    requires IsSqrt(sqrt) && c > 0.0 && aa > 0.0 && cc == c * (c * aa)
    ensures sqrt(cc) * sqrt(bb) == c * (sqrt(aa) * sqrt(bb))
  {
    ScaledRoot(sqrt, c, aa);
    RegroupFactor(c, sqrt(aa), sqrt(bb));
  }

  lemma ScaledRoot(sqrt: real -> real, c: real, x: real)
    requires IsSqrt(sqrt) && c > 0.0 && x > 0.0
    ensures c * (c * x) > 0.0 && sqrt(c * (c * x)) == c * sqrt(x)
  {
    ProductSign(c, x);
    ProductSign(c, c * x);
    ProductOfSquares(c, sqrt(x));
    ProductSign(c, sqrt(x));
    SqrtUnique(sqrt, c * (c * x), c * sqrt(x));
  }

  lemma RegroupFactor(c: real, y: real, z: real)
    ensures (c * y) * z == c * (y * z)
  {
  }

  lemma CancelFactor(c: real, x: real, y: real, cx: real, cy: real)
    requires c > 0.0 && y > 0.0 && cx == c * x && cy == c * y
    ensures cy > 0.0 && cx / cy == x / y
  {
    Quotient(x, y);
    ProductSign(c, y);
    RegroupFactor(c, x / y, y);
    assert (x / y) * cy == cx;
    QuotientIsUnique(x / y, cx, cy);
  }

  /* ---- Euclidean distance ---- */

  lemma DifferenceAsCombination(a: seq<real>, b: seq<real>)
    requires |a| == |b|
    ensures Difference(a, b) == Combine(a, -1.0, b)
  {
  }

  /** distance^2 = |a|^2 + |b|^2 - 2 (a . b) */
  lemma DistanceSquared(a: seq<real>, b: seq<real>, sqrt: real -> real)
    requires |a| == |b| && IsSqrt(sqrt)
    ensures Distance(a, b, sqrt) >= 0.0
    ensures Distance(a, b, sqrt) * Distance(a, b, sqrt) == Dot(a, a) + Dot(b, b) - 2.0 * Dot(a, b)
  {
    DifferenceAsCombination(a, b);
    SquareOfCombination(a, -1.0, b);
    SquaresNonNegative(Difference(a, b), |a|);
  }

  /** The distance is a metric: zero only between equal vectors, symmetric, and subject to
      the triangle inequality. */
  lemma DistanceIsMetric(a: seq<real>, b: seq<real>, c: seq<real>, sqrt: real -> real)
    requires |a| == |b| == |c| && IsSqrt(sqrt)
    ensures Distance(a, b, sqrt) >= 0.0
    ensures Distance(a, b, sqrt) == 0.0 <==> a == b
    ensures Distance(a, b, sqrt) == Distance(b, a, sqrt)
    ensures Distance(a, c, sqrt) <= Distance(a, b, sqrt) + Distance(b, c, sqrt)
  {
    DistanceSquared(a, b, sqrt);
    DistanceSquared(b, a, sqrt);
    DotCommutes(a, b, |a|);
    SameSquare(Distance(a, b, sqrt), Distance(b, a, sqrt));
    ZeroDistance(a, b, sqrt);
    TriangleInequality(a, b, c, sqrt);
  }

  lemma ZeroDistance(a: seq<real>, b: seq<real>, sqrt: real -> real)
    requires |a| == |b| && IsSqrt(sqrt)
    ensures Distance(a, b, sqrt) == 0.0 <==> a == b
  {
    var u := Difference(a, b);
    SquaresNonNegative(u, |a|);
    SquareSign(Distance(a, b, sqrt));
    if a == b {
      assert IsZero(u);
    } else {
      var i :| 0 <= i < |a| && a[i] != b[i];
      assert u[i] != 0.0;
    }
  }

  lemma TriangleInequality(a: seq<real>, b: seq<real>, c: seq<real>, sqrt: real -> real)
    requires |a| == |b| == |c| && IsSqrt(sqrt)
    ensures Distance(a, c, sqrt) <= Distance(a, b, sqrt) + Distance(b, c, sqrt)
  {
    NormOfSum(Difference(a, b), Difference(b, c), Difference(a, c), sqrt);
  }

  lemma NormOfSum(u: seq<real>, v: seq<real>, w: seq<real>, sqrt: real -> real)
    requires |u| == |v| && w == Combine(u, 1.0, v) && IsSqrt(sqrt)
    ensures sqrt(Dot(w, w)) <= sqrt(Dot(u, u)) + sqrt(Dot(v, v))
  {
    SquareOfCombination(u, 1.0, v);
    DotWithinNorms(u, v, sqrt);
    RootsAndSquares(u, sqrt);
    RootsAndSquares(v, sqrt);
    RootsAndSquares(w, sqrt);
    Minkowski(sqrt(Dot(u, u)), sqrt(Dot(v, v)), sqrt(Dot(w, w)), Dot(u, v));
  }

  lemma RootsAndSquares(a: seq<real>, sqrt: real -> real)
    requires IsSqrt(sqrt)
    ensures sqrt(Dot(a, a)) >= 0.0 && sqrt(Dot(a, a)) * sqrt(Dot(a, a)) == Dot(a, a)
  {
    SquaresNonNegative(a, |a|);
  }

  lemma Minkowski(p: real, q: real, r: real, dot: real)
    requires p >= 0.0 && q >= 0.0 && dot <= p * q
    requires r * r == p * p + 2.0 * dot + q * q
    ensures r <= p + q
  {
    assert (p + q) * (p + q) == p * p + 2.0 * (p * q) + q * q;
    SquareOrder(r, p + q);
  }

  /* ---- On unit vectors all three rank alike ---- */

  predicate IsUnit(a: seq<real>) { Dot(a, a) == 1.0 }

  lemma UnitVectorOrder(q: seq<real>, x: seq<real>, y: seq<real>, sqrt: real -> real)
    requires |q| == |x| == |y| && IsSqrt(sqrt) && IsUnit(q) && IsUnit(x) && IsUnit(y)
    ensures Cosine(q, x, sqrt) == Dot(q, x)
    ensures Distance(q, x, sqrt) <= Distance(q, y, sqrt) <==> Dot(q, x) >= Dot(q, y)
  {
    SqrtUnique(sqrt, 1.0, 1.0);
    DistanceSquared(q, x, sqrt);
    DistanceSquared(q, y, sqrt);
    SquareOrder(Distance(q, x, sqrt), Distance(q, y, sqrt));
  }

  /** Ranking unit vectors by descending cosine, by descending dot product or by ascending
      distance gives the same list, ties included. */
  lemma UnitVectorsRankAlike(q: seq<real>, docs: seq<seq<real>>, sqrt: real -> real)
    requires IsSqrt(sqrt) && IsUnit(q)
    requires forall x :: x in docs ==> |x| == |q| && IsUnit(x)
    ensures SortDesc(docs, DotKey(q)) == SortDesc(docs, CosineKey(q, sqrt)) == SortDesc(docs, NearnessKey(q, sqrt))
  {
    forall x, y | x in docs && y in docs
      ensures DotKey(q)(x) >= DotKey(q)(y) <==> CosineKey(q, sqrt)(x) >= CosineKey(q, sqrt)(y)
      ensures DotKey(q)(x) >= DotKey(q)(y) <==> NearnessKey(q, sqrt)(x) >= NearnessKey(q, sqrt)(y)
    {
      UnitVectorOrder(q, x, y, sqrt);
      UnitVectorOrder(q, y, x, sqrt);
    }
    SameOrderSameSort(docs, DotKey(q), CosineKey(q, sqrt));
    SameOrderSameSort(docs, DotKey(q), NearnessKey(q, sqrt));
  }

  function DotKey(q: seq<real>): seq<real> -> real {
    x => if |x| == |q| then Dot(q, x) else 0.0
  }

  function CosineKey(q: seq<real>, sqrt: real -> real): seq<real> -> real
    requires IsSqrt(sqrt)
  {
    x => if |x| == |q| then Cosine(q, x, sqrt) else 0.0
  }

  function NearnessKey(q: seq<real>, sqrt: real -> real): seq<real> -> real {
    x => if |x| == |q| then -Distance(q, x, sqrt) else 0.0
  }
}
