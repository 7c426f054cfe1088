/** Min-max int8 quantization of benchmarks/image/bench_vector_quantize.py.

    Floats are read as reals; `astype(int8)` truncates toward zero. The smallest value
    maps to -128 and the largest to 127, so nothing wraps around.
 */
module Quantization {
  import opened Options
  import opened Reals
  import Similarity

  /** numpy's float-to-integer conversion. */
  function Truncate(x: real): int {
    if x >= 0.0 then x.Floor else -((-x).Floor)
  }

  function MinOf(arr: seq<real>): (m: real)
    requires arr != []
    ensures m in arr && forall i :: 0 <= i < |arr| ==> m <= arr[i]
  {
    if |arr| == 1 then arr[0]
    else
      var m := MinOf(arr[1..]);
      assert forall i :: 1 <= i < |arr| ==> arr[i] == arr[1..][i - 1];
      if arr[0] <= m then arr[0] else m
  }

  function MaxOf(arr: seq<real>): (m: real)
    requires arr != []
    ensures m in arr && forall i :: 0 <= i < |arr| ==> arr[i] <= m
  {
    if |arr| == 1 then arr[0]
    else
      var m := MaxOf(arr[1..]);
      assert forall i :: 1 <= i < |arr| ==> arr[i] == arr[1..][i - 1];
      if arr[0] >= m then arr[0] else m
  }

  // The real number that is truncated, in [-128, 127].
  function Scaled(x: real, lo: real, hi: real): real
    requires lo < hi
  {
    (x - lo) / (hi - lo) * 255.0 - 128.0
  }

  function Code(x: real, lo: real, hi: real): int
    requires lo < hi
  {
    Truncate(Scaled(x, lo, hi))
  }

  function Quantize(arr: seq<real>): (q: seq<int>)
    requires arr != []
    ensures |q| == |arr|
  {
    var lo, hi := MinOf(arr), MaxOf(arr);
    if hi - lo == 0.0 then seq(|arr|, _ => 0)
    else seq(|arr|, i requires 0 <= i < |arr| => Code(arr[i], lo, hi))
  }

  function DecodeReal(s: real, lo: real, hi: real): real {
    (s + 128.0) / 255.0 * (hi - lo) + lo
  }

  function Decode(q: int, lo: real, hi: real): real { DecodeReal(q as real, lo, hi) }

  function Dequantize(q: seq<int>, lo: real, hi: real): (arr: seq<real>)
    ensures |arr| == |q|
    ensures forall i :: 0 <= i < |q| ==> arr[i] == Decode(q[i], lo, hi)
  {
    seq(|q|, i requires 0 <= i < |q| => Decode(q[i], lo, hi))
  }

  /** An empty embedding makes arr.min() raise, and with it the whole call. */
  method QuantizeToInt8(embeddings: seq<seq<real>>) returns (r: Option<seq<seq<int>>>)
    ensures r.Some? <==> forall i :: 0 <= i < |embeddings| ==> embeddings[i] != []
    ensures r.Some? ==> |r.value| == |embeddings|
                        && forall i :: 0 <= i < |embeddings| ==> r.value[i] == Quantize(embeddings[i])
  {
    var quantized: seq<seq<int>> := [];
    for n := 0 to |embeddings|
      invariant |quantized| == n
      invariant forall i :: 0 <= i < n ==> embeddings[i] != [] && quantized[i] == Quantize(embeddings[i])
    {
      var arr := embeddings[n];
      if arr == [] {
        return None;
      }
      var minVal, maxVal := MinOf(arr), MaxOf(arr);
      var q;
      if maxVal - minVal == 0.0 {
        q := seq(|arr|, _ => 0);
      } else {
        q := seq(|arr|, i requires 0 <= i < |arr| => Code(arr[i], minVal, maxVal));
      }
      quantized := quantized + [q];
    }
    return Some(quantized);
  }

  /* ---- One component ---- */

  lemma TruncateBounds(x: real)
    ensures x >= 0.0 ==> 0.0 <= Truncate(x) as real <= x < Truncate(x) as real + 1.0
    ensures x < 0.0 ==> Truncate(x) as real - 1.0 < x <= Truncate(x) as real <= 0.0
  {
  }

  lemma TruncateMonotone(x: real, y: real)
    requires x <= y
    ensures Truncate(x) <= Truncate(y)
  {
    TruncateBounds(x);
    TruncateBounds(y);
  }

  lemma ScaledBounds(x: real, y: real, lo: real, hi: real)
    requires lo < hi && lo <= x <= y <= hi
    ensures -128.0 <= Scaled(x, lo, hi) <= Scaled(y, lo, hi) <= 127.0
    ensures Scaled(lo, lo, hi) == -128.0 && Scaled(hi, lo, hi) == 127.0
  {
    var width := hi - lo;
    DivideOrder(x - lo, 0.0, width);
    DivideOrder(y - lo, x - lo, width);
    DivideOrder(width, y - lo, width);
    Quotient(width, width);
  }

  /** Codes are int8 values, ordered like the components; the extremes are hit exactly. */
  lemma CodeMonotone(x: real, y: real, lo: real, hi: real)
    requires lo < hi && lo <= x <= y <= hi
    ensures -128 <= Code(x, lo, hi) <= Code(y, lo, hi) <= 127
    ensures Code(lo, lo, hi) == -128 && Code(hi, lo, hi) == 127
  {
    ScaledBounds(x, y, lo, hi);
    TruncateMonotone(-128.0, Scaled(x, lo, hi));
    TruncateMonotone(Scaled(x, lo, hi), Scaled(y, lo, hi));
    TruncateMonotone(Scaled(y, lo, hi), 127.0);
  }

  lemma DecodeScaled(x: real, lo: real, hi: real)
    requires lo < hi
    ensures DecodeReal(Scaled(x, lo, hi), lo, hi) == x
  {
    Quotient(x - lo, hi - lo);
  }

  /** The width of one code. */
  function Step(lo: real, hi: real): real { (hi - lo) / 255.0 }

  /** Decoding a code lands less than one step, (hi - lo) / 255, from the component. */
  lemma RoundTripError(x: real, lo: real, hi: real)
    requires lo < hi && lo <= x <= hi
    ensures x - Step(lo, hi) < Decode(Code(x, lo, hi), lo, hi) < x + Step(lo, hi)
  {
    TruncateBounds(Scaled(x, lo, hi));
    DecodeScaled(x, lo, hi);
    DecodeNearby(Code(x, lo, hi) as real, Scaled(x, lo, hi), x, lo, hi);
  }

  lemma DecodeNearby(c: real, s: real, x: real, lo: real, hi: real)
    requires lo < hi && -1.0 < c - s < 1.0 && DecodeReal(s, lo, hi) == x
    ensures x - Step(lo, hi) < DecodeReal(c, lo, hi) < x + Step(lo, hi)
  {
    DecodeLinear(c, s, lo, hi);
    WithinOneStep(DecodeReal(c, lo, hi), x, c - s, Step(lo, hi));
  }

  lemma DecodeLinear(c: real, s: real, lo: real, hi: real)
    ensures DecodeReal(c, lo, hi) - DecodeReal(s, lo, hi) == (c - s) * Step(lo, hi)
  {
  }

  lemma WithinOneStep(y: real, x: real, e: real, step: real)
    requires y - x == e * step && -1.0 < e < 1.0 && step > 0.0
    ensures x - step < y < x + step
  {
    ProductOrder(e, 1.0, step);
    ProductOrder(-1.0, e, step);
  }

  lemma DecodeExtremes(lo: real, hi: real)
    ensures Decode(-128, lo, hi) == lo && Decode(127, lo, hi) == hi
    ensures lo == hi ==> Decode(0, lo, hi) == lo
  {
  }

  /** Truncation makes the bound tight: no smaller fraction of a step would do (rounding
      to nearest would have given half a step). */
  lemma RoundTripErrorIsTight(fraction: real)
    requires 0.0 <= fraction < 1.0
    ensures exists x :: 0.0 <= x <= 255.0
                        && x - Decode(Code(x, 0.0, 255.0), 0.0, 255.0) > fraction * Step(0.0, 255.0)
  {
    var x := 128.0 + (1.0 + fraction) / 2.0;
    assert Scaled(x, 0.0, 255.0) == (1.0 + fraction) / 2.0;
    assert Code(x, 0.0, 255.0) == 0;
  }

  /** The code is (x - lo) / (hi - lo) * 255 - 128 without its fraction, and decoding undoes the
      formula for the code. */
  lemma CodeIs(x: real, lo: real, hi: real, s: real, q: int)
    requires lo < hi && (s + 128.0) * (hi - lo) == (x - lo) * 255.0
    ensures s >= 0.0 ==> 0.0 <= Code(x, lo, hi) as real <= s < Code(x, lo, hi) as real + 1.0
    ensures s < 0.0 ==> Code(x, lo, hi) as real - 1.0 < s <= Code(x, lo, hi) as real <= 0.0
    ensures 255.0 * (Decode(q, lo, hi) - lo) == (q as real + 128.0) * (hi - lo)
  {
    var width := hi - lo;
    Quotient(x - lo, width);
    var f := (x - lo) / width;
    assert (f * 255.0) * width == (x - lo) * 255.0;
    QuotientIsUnique(f * 255.0, (x - lo) * 255.0, width);
    QuotientIsUnique(s + 128.0, (x - lo) * 255.0, width);
    assert Scaled(x, lo, hi) == s;
    TruncateBounds(s);
  }

  /* ---- A whole vector ---- */

  /** A vector is coded between its own smallest and largest component; a constant one is 0. */
  lemma QuantizeIs(arr: seq<real>, i: nat, lo: real, hi: real)
    requires i < |arr| && lo in arr && hi in arr && forall j :: 0 <= j < |arr| ==> lo <= arr[j] <= hi
    ensures Quantize(arr)[i] == if lo < hi then Code(arr[i], lo, hi) else 0
  {
    QuantizeAt(arr, i);
    assert lo == MinOf(arr) && hi == MaxOf(arr);
  }

  /** Every code of a vector is an int8 value and respects the order of the components. */
  lemma QuantizeMonotone(arr: seq<real>, i: nat, j: nat)
    requires i < |arr| && j < |arr| && arr[i] <= arr[j]
    ensures -128 <= Quantize(arr)[i] <= Quantize(arr)[j] <= 127
  {
    var lo, hi := MinOf(arr), MaxOf(arr);
    if lo < hi {
      CodeMonotone(arr[i], arr[j], lo, hi);
    }
  }

  /** Decoding gives back the extremes exactly, everything in a constant vector exactly,
      and every other component to within less than a step. */
  lemma QuantizeRoundTrip(arr: seq<real>, i: nat)
    requires i < |arr|
    ensures var lo, hi, q := MinOf(arr), MaxOf(arr), Quantize(arr);
            && (arr[i] == lo || arr[i] == hi ==> Decode(q[i], lo, hi) == arr[i])
            && (lo < hi ==> arr[i] - Step(lo, hi) < Decode(q[i], lo, hi) < arr[i] + Step(lo, hi))
  {
    var lo, hi := MinOf(arr), MaxOf(arr);
    QuantizeAt(arr, i);
    if lo < hi {
      CodeMonotone(lo, hi, lo, hi);
      RoundTripError(arr[i], lo, hi);
    }
    if arr[i] == lo || arr[i] == hi {
      DecodeExtremes(lo, hi);
    }
  }

  lemma QuantizeAt(arr: seq<real>, i: nat)
    requires i < |arr|
    ensures MinOf(arr) <= arr[i] <= MaxOf(arr)
    ensures Quantize(arr)[i] == if MinOf(arr) < MaxOf(arr) then Code(arr[i], MinOf(arr), MaxOf(arr)) else 0
  {
  }

  function AbsSum(b: seq<real>, n: nat): real
    requires n <= |b|
  {
    if n == 0 then 0.0 else AbsSum(b, n - 1) + Abs(b[n - 1])
  }

  ghost predicate Close(a: seq<real>, c: seq<real>, step: real)
    requires |a| == |c|
  {
    forall i :: 0 <= i < |a| ==> a[i] - step <= c[i] <= a[i] + step
  }

  lemma ErrorStep(c: real, a: real, w: real, step: real)
    requires a - step <= c <= a + step
    ensures a * w - step * Abs(w) <= c * w <= a * w + step * Abs(w)
  {
    if w >= 0.0 {
      ProductOrder(c, a + step, w);
      ProductOrder(a - step, c, w);
    } else {
      ProductOrder(c, a + step, -w);
      ProductOrder(a - step, c, -w);
    }
  }

  lemma {:induction false} DotError(a: seq<real>, c: seq<real>, b: seq<real>, step: real, n: nat)
    requires |a| == |b| == |c| && n <= |a| && Close(a, c, step)
    ensures Similarity.DotUpTo(a, b, n) - Slack(step, b, n) <= Similarity.DotUpTo(c, b, n)
    ensures Similarity.DotUpTo(c, b, n) <= Similarity.DotUpTo(a, b, n) + Slack(step, b, n)
  {
    if n > 0 {
      DotError(a, c, b, step, n - 1);
      ErrorStep(c[n - 1], a[n - 1], b[n - 1], step);
      AddBounds(Similarity.DotUpTo(a, b, n - 1), Similarity.DotUpTo(c, b, n - 1), Slack(step, b, n - 1),
                a[n - 1] * b[n - 1], c[n - 1] * b[n - 1], step * Abs(b[n - 1]));
    }
  }

  lemma AddBounds(p: real, q: real, s: real, x: real, y: real, t: real)
    requires p - s <= q <= p + s && x - t <= y <= x + t
    ensures (p + x) - (s + t) <= q + y <= (p + x) + (s + t)
  {
  }

  /** The step times the 1-norm of b up to n, one component after the other. */
  function Slack(step: real, b: seq<real>, n: nat): real
    requires n <= |b|
  {
    if n == 0 then 0.0 else Slack(step, b, n - 1) + step * Abs(b[n - 1])
  }

  lemma {:induction false} SlackIsNorm(step: real, b: seq<real>, n: nat)
    requires n <= |b|
    ensures Slack(step, b, n) == step * AbsSum(b, n)
  {
    if n > 0 {
      SlackIsNorm(step, b, n - 1);
    }
  }

  function Decoded(arr: seq<real>): (r: seq<real>)
    requires arr != []
    ensures |r| == |arr|
  {
    Dequantize(Quantize(arr), MinOf(arr), MaxOf(arr))
  }

  lemma DecodedClose(arr: seq<real>)
    requires arr != []
    ensures Close(arr, Decoded(arr), Step(MinOf(arr), MaxOf(arr)))
  {
    var lo, hi := MinOf(arr), MaxOf(arr);
    forall i | 0 <= i < |arr| ensures arr[i] - Step(lo, hi) <= Decoded(arr)[i] <= arr[i] + Step(lo, hi) {
      QuantizeRoundTrip(arr, i);
    }
  }

  /** Replacing a vector by its decoded codes moves a dot product with b by at most one
      step times the 1-norm of b. */
  lemma QuantizedDotError(arr: seq<real>, b: seq<real>)
    requires arr != [] && |arr| == |b|
    ensures var slack := Slack(Step(MinOf(arr), MaxOf(arr)), b, |b|);
            Similarity.Dot(arr, b) - slack <= Similarity.Dot(Decoded(arr), b) <= Similarity.Dot(arr, b) + slack
  {
    DecodedClose(arr);
    DotError(arr, Decoded(arr), b, Step(MinOf(arr), MaxOf(arr)), |b|);
  }

  lemma CodeOfDecoded(q: int, lo: real, hi: real)
    requires lo < hi && -128 <= q <= 127
    ensures Code(Decode(q, lo, hi), lo, hi) == q
    ensures lo <= Decode(q, lo, hi) <= hi
  {
    var f, x := (q as real + 128.0) / 255.0, Decode(q, lo, hi);
    assert 0.0 <= f <= 1.0 && f * 255.0 - 128.0 == q as real;
    FractionOfWidth(f, lo, hi, x);
    TruncateBounds(q as real);
  }

  lemma FractionOfWidth(f: real, lo: real, hi: real, x: real)
    requires lo < hi && 0.0 <= f <= 1.0 && x == f * (hi - lo) + lo
    ensures lo <= x <= hi && Scaled(x, lo, hi) == f * 255.0 - 128.0
  {
    var w := hi - lo;
    ProductSign(f, w);
    ProductSign(1.0 - f, w);
    assert (1.0 - f) * w == w - f * w;
    QuotientIsUnique(f, x - lo, w);
  }

  lemma DecodedAt(arr: seq<real>, i: nat)
    requires i < |arr|
    ensures var lo, hi, x := MinOf(arr), MaxOf(arr), Decoded(arr)[i];
            lo <= x <= hi && (lo < hi ==> Code(x, lo, hi) == Quantize(arr)[i])
  {
    QuantizeMonotone(arr, i, i);
    QuantizeRoundTrip(arr, i);
    if MinOf(arr) < MaxOf(arr) {
      CodeOfDecoded(Quantize(arr)[i], MinOf(arr), MaxOf(arr));
    }
  }

  lemma DecodedExtremes(arr: seq<real>)
    requires arr != []
    ensures MinOf(Decoded(arr)) == MinOf(arr) && MaxOf(Decoded(arr)) == MaxOf(arr)
  {
    var l, h :| 0 <= l < |arr| && arr[l] == MinOf(arr) && 0 <= h < |arr| && arr[h] == MaxOf(arr);
    QuantizeRoundTrip(arr, l);
    QuantizeRoundTrip(arr, h);
    assert Decoded(arr)[l] == MinOf(arr) && Decoded(arr)[h] == MaxOf(arr);
    forall i | 0 <= i < |arr| ensures MinOf(arr) <= Decoded(arr)[i] <= MaxOf(arr) {
      DecodedAt(arr, i);
    }
  }

  /** Quantization is a projection: quantizing the decoded vector, with the decoded
      vector's own minimum and maximum, returns the same codes. */
  lemma QuantizeIsProjection(arr: seq<real>)
    requires arr != []
    ensures MinOf(Decoded(arr)) == MinOf(arr) && MaxOf(Decoded(arr)) == MaxOf(arr)
    ensures Quantize(Decoded(arr)) == Quantize(arr)
  {
    DecodedExtremes(arr);
    forall i | 0 <= i < |arr| ensures Quantize(Decoded(arr))[i] == Quantize(arr)[i] {
      DecodedAt(arr, i);
      QuantizeAt(arr, i);
      QuantizeAt(Decoded(arr), i);
    }
  }

  /* ---- Similarity of the codes themselves ---- */

  function IntDot(a: seq<int>, b: seq<int>, n: nat): int
    requires n <= |a| && n <= |b|
  {
    if n == 0 then 0 else IntDot(a, b, n - 1) + a[n - 1] * b[n - 1]
  }

  function AsReals(a: seq<int>): (r: seq<real>)
    ensures |r| == |a| && forall i :: 0 <= i < |a| ==> r[i] == a[i] as real
  {
    seq(|a|, i requires 0 <= i < |a| => a[i] as real)
  }

  lemma {:induction false} IntDotAsReal(a: seq<int>, b: seq<int>, n: nat)
    requires n <= |a| && n <= |b|
    ensures IntDot(a, b, n) as real == Similarity.DotUpTo(AsReals(a), AsReals(b), n)
  {
    if n > 0 {
      IntDotAsReal(a, b, n - 1);
      IntProduct(a[n - 1], b[n - 1]);
    }
  }

  lemma IntProduct(x: int, y: int)
    ensures (x * y) as real == x as real * y as real
  {
  }

  /** The integer accumulators of cosine_similarity_int8 obey Cauchy-Schwarz as well. */
  lemma IntCauchySchwarz(a: seq<int>, b: seq<int>)
    requires |a| == |b|
    ensures IntDot(a, b, |a|) * IntDot(a, b, |a|) <= IntDot(a, a, |a|) * IntDot(b, b, |b|)
  {
    IntDotAsReal(a, b, |a|);
    IntDotAsReal(a, a, |a|);
    IntDotAsReal(b, b, |b|);
    Similarity.CauchySchwarz(AsReals(a), AsReals(b));
    IntProduct(IntDot(a, b, |a|), IntDot(a, b, |a|));
    IntProduct(IntDot(a, a, |a|), IntDot(b, b, |b|));
  }
}
