/**
 scripts/bench58.c, bench59.cpp and bench60.cpp: activations quantized to a range whose int32 dot products
 cannot overflow, and the blocked int8 products that equal the unbounded integer one.
 */
module Int8Gemm {
  import opened Simd32
  import Index

  // --- the activation range ---

  /** The widest symmetric range for x at K products against weights of magnitude up to `w`. */
  function XRange(K: nat, w: nat): (r: int)
    requires K > 0 && w > 0
  {
    Index.MulMono(1, w, K);
    var r := 0x7FFF_FFFF / (w * K);
    if r > 32767 then 32767 else r
  }

  /** K products at the ends of their ranges stay inside int32, and the range fits 16 bits. */
  lemma XRangeSafe(K: nat, w: nat)
    requires K > 0 && w > 0
    ensures 0 <= XRange(K, w) <= 32767
    ensures w * K * XRange(K, w) <= 0x7FFF_FFFF
  {
    Index.MulMono(1, w, K);
    Index.DivMod(0x7FFF_FFFF, w * K);
    Index.MulMono(XRange(K, w), 0x7FFF_FFFF / (w * K), w * K);
  }

  /** No wider range up to the 16-bit cap would do. */
  lemma XRangeWidest(K: nat, w: nat, r: int)
    requires K > 0 && w > 0 && XRange(K, w) < r <= 32767
    ensures w * K * r > 0x7FFF_FFFF
  {
    Index.MulMono(1, w, K);
    Index.DivMod(0x7FFF_FFFF, w * K);
    var q := 0x7FFF_FFFF / (w * K);
    Index.MulMono(q + 1, r, w * K);
    Index.MulAdd(q, 1, w * K);
  }

  // --- quantization ---

  function Abs(x: real): real { if x < 0.0 then -x else x }

  /** VCVTR under round-to-nearest: halves to even. */
  function RoundEven(v: real): int
  {
    var f := v.Floor;
    var d := v - f as real;
    if d < 0.5 then f else if d > 0.5 then f + 1 else if f % 2 == 0 then f else f + 1
  }

  /** Rounding never leaves an interval with integer ends. */
  lemma RoundBetween(v: real, R: int)
    requires -(R as real) <= v <= R as real
    ensures -R <= RoundEven(v) <= R
  {
    var f := v.Floor;
    assert f as real <= v < (f + 1) as real;
  }

  /** max |x[k]|. */
  function AbsMax(x: seq<real>): (m: real)
    ensures m >= 0.0 && forall k :: 0 <= k < |x| ==> Abs(x[k]) <= m
  {
    if x == [] then 0.0
    else
      var m := AbsMax(x[..|x| - 1]);
      var a := Abs(x[|x| - 1]);
      assert forall k :: 0 <= k < |x| - 1 ==> x[k] == x[..|x| - 1][k];
      if a > m then a else m
  }

  /** x * inv, with inv the scale R / m, or zero for an all-zero column. */
  function Scaled(a: real, m: real, R: int): real { a * (if m > 0.0 then R as real / m else 0.0) }

  /** Activation k on the scale R / max |x|, rounded. */
  function Quantized(x: seq<real>, R: int, k: nat): int
    requires k < |x|
  {
    RoundEven(Scaled(x[k], AbsMax(x), R))
  }

  /** Every quantized activation lies in [-R, R]. */
  lemma QuantizedInRange(x: seq<real>, R: int, k: nat)
    requires k < |x| && R >= 0
    ensures -R <= Quantized(x, R, k) <= R
  {
    hide RoundEven;
    hide Scaled;
    assert Abs(x[k]) <= AbsMax(x);
    ScaledBound(x[k], AbsMax(x), R);
    RoundBetween(Scaled(x[k], AbsMax(x), R), R);
  }

  lemma ScaledBound(a: real, m: real, R: int)
    requires R >= 0 && Abs(a) <= m
    ensures -(R as real) <= Scaled(a, m, R) <= R as real
  {
    if m > 0.0 {
      var s := R as real / m;
      assert s * m == R as real && s >= 0.0;
      RealMono(a, m, s);
      RealMono(-m, a, s);
    }
  }

  lemma RealMono(a: real, b: real, s: real)
    requires a <= b && s >= 0.0
    ensures a * s <= b * s
  {
  }

  /** m is the largest magnitude in x. */
  ghost predicate Peak(x: seq<real>, m: real)
  {
    && m >= 0.0 && (forall j :: 0 <= j < |x| ==> -m <= x[j] <= m)
    && (m > 0.0 ==> exists i :: 0 <= i < |x| && (x[i] == m || x[i] == -m))
  }

  lemma {:induction false} AbsMaxIsPeak(x: seq<real>)
    ensures Peak(x, AbsMax(x))
  {
    forall j | 0 <= j < |x| ensures -AbsMax(x) <= x[j] <= AbsMax(x) { assert Abs(x[j]) <= AbsMax(x); }
    if x != [] {
      var q := x[..|x| - 1];
      AbsMaxIsPeak(q);
      if AbsMax(x) == AbsMax(q) && AbsMax(q) > 0.0 {
        var i :| 0 <= i < |q| && (q[i] == AbsMax(q) || q[i] == -AbsMax(q));
        assert x[i] == q[i];
      }
    }
  }

  lemma PeakIs(x: seq<real>, m: real)
    requires Peak(x, m)
    ensures m == AbsMax(x)
  {
    AbsMaxIsPeak(x);
  }

  /** Rounding is to a nearest integer, the even one where two are as near. */
  lemma RoundsNearest(v: real)
    ensures var q := RoundEven(v);
      v - 0.5 <= q as real <= v + 0.5 && (q as real == v - 0.5 || q as real == v + 0.5 ==> q % 2 == 0)
  {
    var f := v.Floor;
    assert f as real <= v < (f + 1) as real;
  }

  lemma ScaledIs(a: real, m: real, R: int)
    requires m > 0.0
    ensures Scaled(a, m, R) * m == a * R as real
  {
    var s := R as real / m;
    assert s * m == R as real;
    assert a * s * m == a * (s * m);
  }

  /** e of at most a half, times m. */
  lemma HalfBound(e: real, m: real, t: real)
    requires -0.5 <= e <= 0.5 && m > 0.0 && t == e * m
    ensures -(m / 2.0) <= t <= m / 2.0
    ensures t == m / 2.0 || t == -(m / 2.0) ==> e == 0.5 || e == -0.5
  {
    RealMono(e, 0.5, m);
    RealMono(-0.5, e, m);
    if t == 0.5 * m { Cancel(e, 0.5, m); }
    if t == -0.5 * m { Cancel(e, -0.5, m); }
  }

  lemma Cancel(a: real, b: real, m: real)
    requires m > 0.0 && a * m == b * m
    ensures a == b
  {
    if a < b { StrictMono(a, b, m); }
    if b < a { StrictMono(b, a, m); }
  }

  lemma StrictMono(a: real, b: real, s: real)
    requires a < b && s > 0.0
    ensures a * s < b * s
  {
  }

  lemma Difference(q: real, v: real, m: real)
    ensures (q - v) * m == q * m - v * m
  {
  }

  /**
   Activation k of a column whose largest magnitude is m, on the scale R / m, is a nearest integer, the even one where
   two are as near; of a column of zeros it is zero.
   */
  lemma QuantizedNearest(x: seq<real>, R: int, m: real, k: nat)
    requires k < |x| && R > 0 && Peak(x, m)
    ensures var q := Quantized(x, R, k); var e := q as real * m - x[k] * R as real;
      && -(m / 2.0) <= e <= m / 2.0
      && (m > 0.0 && (e == m / 2.0 || e == -(m / 2.0)) ==> q % 2 == 0)
      && (m == 0.0 ==> q == 0)
  {
    hide RoundEven;
    hide AbsMax;
    PeakIs(x, m);
    var v := Scaled(x[k], m, R);
    RoundsNearest(v);
    if m > 0.0 {
      ScaledIs(x[k], m, R);
      hide Scaled;
      var q := RoundEven(v) as real;
      Difference(q, v, m);
      HalfBound(q - v, m, (q - v) * m);
    } else {
      assert v == 0.0;
    }
  }

  // --- exact sums ---

  /** Integers by row and position. */
  type Ints = (int, int) -> int

  /** The unbounded integer dot product of weight row n and activation column c over k < len. */
  function Dot(w: Ints, x: Ints, n: int, c: int, len: nat): int
  {
    if len == 0 then 0 else Dot(w, x, n, c, len - 1) + w(n, len - 1) * x(c, len - 1)
  }

  function Magnitude(a: int): nat { if a < 0 then -a else a }

  /** The magnitudes of weight row n over k < len. */
  function AbsSum(w: Ints, n: int, len: nat): nat
  {
    if len == 0 then 0 else AbsSum(w, n, len - 1) + Magnitude(w(n, len - 1))
  }

  /** Activations up to R against a row whose magnitudes add up to no more than int32 allows. */
  ghost predicate RowFits(w: Ints, n: int, K: nat, R: int) { AbsSum(w, n, K) * R <= 0x7FFF_FFFF }

  ghost predicate InRange(x: Ints, c: int, K: nat, R: int) { forall k :: 0 <= k < K ==> -R <= x(c, k) <= R }

  /** Int8 weights whose every row fits the activations' range. */
  ghost predicate Bounded(w: Ints, x: Ints, N: int, cols: int, K: nat, R: int)
  {
    && K > 0 && 0 <= R <= 32767
    && (forall n, k :: 0 <= n < N && 0 <= k < K ==> Int8(w(n, k)))
    && (forall n :: 0 <= n < N ==> RowFits(w, n, K, R))
    && (forall c :: 0 <= c < cols ==> InRange(x, c, K, R))
  }

  lemma ProductBound(a: int, b: int, B: int)
    requires 0 <= B && -B <= b <= B
    ensures -(Magnitude(a) * B) <= a * b <= Magnitude(a) * B
  {
    var m := Magnitude(a);
    Index.MulMono(b, B, m);
    Index.MulMono(-B, b, m);
    assert b * m == if a < 0 then -(a * b) else a * b;
    assert B * m == m * B && -B * m == -(m * B);
  }

  /** A term added to a sum, and its bound to the sum's bound. */
  lemma AddTerm(d: int, p: int, s: int, m: int, R: int)
    requires -(s * R) <= d <= s * R && -(m * R) <= p <= m * R
    ensures -((s + m) * R) <= d + p <= (s + m) * R
  {
    Index.MulAdd(s, m, R);
  }

  lemma {:induction false} DotBound(w: Ints, x: Ints, n: int, c: int, len: nat, K: nat, R: int)
    requires 0 <= R && InRange(x, c, K, R) && len <= K
    ensures -(AbsSum(w, n, len) * R) <= Dot(w, x, n, c, len) <= AbsSum(w, n, len) * R
  {
    hide Magnitude;
    if len > 0 {
      DotBound(w, x, n, c, len - 1, K, R);
      ProductBound(w(n, len - 1), x(c, len - 1), R);
      AddTerm(Dot(w, x, n, c, len - 1), w(n, len - 1) * x(c, len - 1), AbsSum(w, n, len - 1), Magnitude(w(n, len - 1)),
              R);
    }
  }

  lemma {:induction false} AbsSumMono(w: Ints, n: int, a: nat, b: nat)
    requires a <= b
    ensures AbsSum(w, n, a) <= AbsSum(w, n, b)
  {
    if a < b { AbsSumMono(w, n, a, b - 1); }
  }

  lemma RowPrefixFits(w: Ints, n: int, m: nat, K: nat, R: int)
    requires 0 <= R && RowFits(w, n, K, R) && m <= AbsSum(w, n, K)
    ensures 0 <= m * R <= 0x7FFF_FFFF
  {
    Index.MulNonneg(m, R);
    Index.MulMono(m, AbsSum(w, n, K), R);
  }

  /** Every prefix of a dot product is inside int32. */
  lemma DotFits(w: Ints, x: Ints, n: int, c: int, len: nat, N: int, cols: int, K: nat, R: int)
    requires Bounded(w, x, N, cols, K, R) && 0 <= n < N && 0 <= c < cols && len <= K
    ensures Int32(Dot(w, x, n, c, len))
  {
    DotBound(w, x, n, c, len, K, R);
    AbsSumMono(w, n, len, K);
    RowPrefixFits(w, n, AbsSum(w, n, len), K, R);
  }

  // --- how near the outputs are to the product of the activations themselves ---

  /** The real dot product of weight row n and a column over k < len. */
  function RealDot(w: Ints, x: seq<real>, n: int, len: nat): real
    requires len <= |x|
  {
    if len == 0 then 0.0 else RealDot(w, x, n, len - 1) + w(n, len - 1) as real * x[len - 1]
  }

  /** A product of reals, as a name. */
  function Prod(a: real, b: real): real { a * b }

  lemma ProdAdd(a: real, b: real, c: real)
    ensures Prod(a + b, c) == Prod(a, c) + Prod(b, c)
  {
  }

  /** The integer dot product on the scale m, less the real one on the scale R. */
  function Drift(w: Ints, X: seq<seq<real>>, n: int, c: nat, R: int, m: real, len: nat): real
    requires c < |X| && len <= |X[c]|
  {
    Prod(Dot(w, Acts(X, R), n, c, len) as real, m) - Prod(RealDot(w, X[c], n, len), R as real)
  }

  lemma DriftStep(w: Ints, X: seq<seq<real>>, n: int, c: nat, R: int, m: real, len: nat)
    requires c < |X| && 0 < len <= |X[c]|
    ensures var q := Quantized(X[c], R, len - 1);
      Drift(w, X, n, c, R, m, len) == Drift(w, X, n, c, R, m, len - 1)
        + Prod(w(n, len - 1) as real, q as real * m - X[c][len - 1] * R as real)
  {
    hide Quantized;
    var a, q, x := w(n, len - 1), Quantized(X[c], R, len - 1), X[c][len - 1];
    var d, r := Dot(w, Acts(X, R), n, c, len - 1), RealDot(w, X[c], n, len - 1);
    assert Dot(w, Acts(X, R), n, c, len) == d + a * q;
    assert RealDot(w, X[c], n, len) == r + a as real * x;
    ProdAdd(d as real, (a * q) as real, m);
    ProdAdd(r, a as real * x, R as real);
    TermDrift(a, q, x, m, R as real);
  }

  lemma TermDrift(a: int, q: int, x: real, m: real, R: real)
    ensures Prod((a * q) as real, m) - Prod(a as real * x, R) == Prod(a as real, q as real * m - x * R)
  {
    var b, e := a as real, q as real;
    assert (a * q) as real == b * e;
    Regroup(b, e, m);
    Regroup(b, x, R);
    Spread(b, e * m, x * R);
  }

  lemma Spread(b: real, u: real, v: real)
    ensures b * (u - v) == b * u - b * v
  {
  }

  lemma Regroup(a: real, b: real, c: real)
    ensures a * b * c == a * (b * c)
  {
  }

  /** Every unit of weight adds at most half a quantum. */
  lemma {:induction false} DriftBound(w: Ints, X: seq<seq<real>>, n: int, c: nat, R: int, m: real, len: nat)
    requires c < |X| && len <= |X[c]| && R > 0 && Peak(X[c], m)
    ensures -Prod(AbsSum(w, n, len) as real, m / 2.0) <= Drift(w, X, n, c, R, m, len)
            <= Prod(AbsSum(w, n, len) as real, m / 2.0)
  {
    hide Peak;
    hide Quantized;
    hide Drift;
    hide Magnitude;
    hide Prod;
    if len == 0 {
      NoDrift(w, X, n, c, R, m);
    } else {
      DriftBound(w, X, n, c, R, m, len - 1);
      DriftStep(w, X, n, c, R, m, len);
      QuantizedNearest(X[c], R, m, len - 1);
      var a := w(n, len - 1);
      TermBound(a, Quantized(X[c], R, len - 1) as real * m - X[c][len - 1] * R as real, m / 2.0);
      ProdAdd(AbsSum(w, n, len - 1) as real, Magnitude(a) as real, m / 2.0);
    }
  }

  lemma NoDrift(w: Ints, X: seq<seq<real>>, n: int, c: nat, R: int, m: real)
    requires c < |X|
    ensures Drift(w, X, n, c, R, m, 0) == 0.0 == Prod(AbsSum(w, n, 0) as real, m / 2.0)
  {
  }

  lemma TermBound(a: int, e: real, h: real)
    requires -h <= e <= h
    ensures -Prod(Magnitude(a) as real, h) <= Prod(a as real, e) <= Prod(Magnitude(a) as real, h)
  {
    var b := Magnitude(a) as real;
    RealMono(e, h, b);
    RealMono(-h, e, b);
    assert -h * b == -(h * b);
    if a < 0 { Negated(b, e); }
  }

  lemma Negated(b: real, e: real)
    ensures -b * e == -(b * e) == -(e * b)
  {
  }

  /** v lies within slack of the exact value. */
  ghost predicate Near(v: real, exact: real, slack: real) { exact - slack <= v <= exact + slack }

  /** Half a quantum m / R of the activations for every unit of weight, on the weights' scale s. */
  function Slack(spread: nat, m: real, R: int, s: real): real
    requires R > 0
  {
    spread as real * (m / 2.0) / R as real * (if s < 0.0 then -s else s)
  }

  /** The product of weight row n, on the scale s, and a column. */
  function Exact(w: Ints, x: seq<real>, n: int, s: real): real { RealDot(w, x, n, |x|) * s }

  lemma ExactIs(w: Ints, x: seq<real>, n: int, s: real)
    ensures Exact(w, x, n, s) == RealDot(w, x, n, |x|) * s
  {
  }

  /** v is the product of weight row n, on the scale s, and the column x, up to the rounding of the activations. */
  ghost predicate NearProduct(v: real, w: Ints, x: seq<real>, n: int, R: int, s: real)
    requires R > 0
  {
    forall m :: Peak(x, m) ==> Near(v, Exact(w, x, n, s), Slack(AbsSum(w, n, |x|), m, R, s))
  }

  lemma DivideThrough(t: real, e: real, b: real, q: real, R: real)
    requires R > 0.0 && q * R == b && -b <= t * R - e * R <= b
    ensures -q <= t - e <= q
  {
    Difference(t, e, R);
    if t - e > q { StrictMono(q, t - e, R); }
    if t - e < -q {
      Negated(q, R);
      StrictMono(t - e, -q, R);
    }
  }

  lemma ScaleNear(t: real, e: real, q: real, s: real, y: real, exact: real, slack: real)
    requires -q <= t - e <= q && y == t * s && exact == e * s && slack == q * (if s < 0.0 then -s else s)
    ensures Near(y, exact, slack)
  {
    var b := if s < 0.0 then -s else s;
    RealMono(t - e, q, b);
    RealMono(-q, t - e, b);
    Difference(t, e, s);
    Negated(q, b);
    if s < 0.0 { Negated(s, t - e); }
  }

  /** u being a quantum and q half of one for every unit of weight. */
  lemma OneOutput(d: real, e: real, S: real, m: real, R: real, s: real, u: real, q: real, y: real, exact: real,
                  slack: real)
    requires R > 0.0 && -Prod(S, m / 2.0) <= Prod(d, m) - Prod(e, R) <= Prod(S, m / 2.0)
    requires u * R == m && q * R == S * (m / 2.0)
    requires y == d * (u * s) && exact == e * s && slack == q * (if s < 0.0 then -s else s)
    ensures Near(y, exact, slack)
  {
    hide Near;
    var t := d * u;
    Regroup(d, u, R);
    Regroup(d, u, s);
    DivideThrough(t, e, S * (m / 2.0), q, R);
    ScaleNear(t, e, q, s, y, exact, slack);
  }

  lemma Quotient(a: real, R: int)
    requires R > 0
    ensures a / R as real * R as real == a
  {
  }

  lemma SlackIs(spread: nat, m: real, R: int, s: real)
    requires R > 0
    ensures var q := spread as real * (m / 2.0) / R as real;
      q * R as real == spread as real * (m / 2.0) && Slack(spread, m, R, s) == q * (if s < 0.0 then -s else s)
  {
  }

  lemma ProductNear(w: Ints, X: seq<seq<real>>, n: int, c: nat, R: int, s: real, y: real)
    requires c < |X| && R > 0 && y == Dot(w, Acts(X, R), n, c, |X[c]|) as real * (AbsMax(X[c]) / R as real * s)
    ensures NearProduct(y, w, X[c], n, R, s)
  {
    hide Peak;
    hide Acts;
    hide Dot;
    hide RealDot;
    hide AbsSum;
    hide Near;
    hide AbsMax;
    hide Prod;
    hide Slack;
    hide Exact;
    var d, e, S := Dot(w, Acts(X, R), n, c, |X[c]|), RealDot(w, X[c], n, |X[c]|), AbsSum(w, n, |X[c]|);
    var exact := Exact(w, X[c], n, s);
    ExactIs(w, X[c], n, s);
    forall m | Peak(X[c], m) ensures Near(y, exact, Slack(S, m, R, s)) {
      PeakIs(X[c], m);
      DriftBound(w, X, n, c, R, m, |X[c]|);
      Quotient(m, R);
      SlackIs(S, m, R, s);
      OneOutput(d as real, e, S as real, m, R as real, s, m / R as real, S as real * (m / 2.0) / R as real, y, exact,
                Slack(S, m, R, s));
    }
  }

  // --- which rows fit ---

  /** Every prefix of every dot product of the row with activations in [-R, R] is an int32. */
  ghost predicate NeverOverflows(w: Ints, n: int, K: nat, R: int)
  {
    forall x: Ints, len: nat :: InRange(x, 0, K, R) && len <= K ==> Int32(Dot(w, x, n, 0, len))
  }

  /** The activations a row is worst against: R with the sign of each weight. */
  function Worst(w: Ints, n: int, R: int): Ints { (c, k) => if w(n, k) < 0 then -R else R }

  lemma {:induction false} WorstDot(w: Ints, n: int, len: nat, R: int)
    ensures Dot(w, Worst(w, n, R), n, 0, len) == AbsSum(w, n, len) * R
  {
    hide Magnitude;
    hide Worst;
    if len > 0 {
      WorstDot(w, n, len - 1, R);
      WorstTerm(w, n, len - 1, R);
      Index.MulAdd(AbsSum(w, n, len - 1), Magnitude(w(n, len - 1)), R);
    }
  }

  lemma WorstTerm(w: Ints, n: int, k: nat, R: int)
    ensures w(n, k) * Worst(w, n, R)(0, k) == Magnitude(w(n, k)) * R
  {
    var a := w(n, k);
    assert a * -R == -a * R;
  }

  /**
   A row never overflows against activations in [-R, R] if and only if the sum of its magnitudes times R is at most
   2^31 - 1.
   */
  lemma OverflowIff(w: Ints, n: int, K: nat, R: int)
    requires R >= 0
    ensures NeverOverflows(w, n, K, R) <==> RowFits(w, n, K, R)
  {
    if RowFits(w, n, K, R) {
      forall x: Ints, len: nat | InRange(x, 0, K, R) && len <= K ensures Int32(Dot(w, x, n, 0, len)) {
        DotBound(w, x, n, 0, len, K, R);
        AbsSumMono(w, n, len, K);
        RowPrefixFits(w, n, AbsSum(w, n, len), K, R);
      }
    } else {
      WorstDot(w, n, K, R);
      assert InRange(Worst(w, n, R), 0, K, R);
    }
  }

  lemma OneMore(m: nat, len: nat)
    requires len > 0
    ensures m * len == m * (len - 1) + m
  {
  }

  lemma {:induction false} AbsSumBound(w: Ints, n: int, len: nat, m: nat)
    requires forall k :: 0 <= k < len ==> Magnitude(w(n, k)) <= m
    ensures AbsSum(w, n, len) <= m * len
  {
    hide Magnitude;
    if len > 0 {
      AbsSumBound(w, n, len - 1, m);
      OneMore(m, len);
    }
  }

  /** Weights of magnitude up to m against activations up to R, K products at the ends of both ranges fitting int32. */
  lemma MagnitudeFits(w: Ints, n: int, K: nat, m: nat, R: int)
    requires R >= 0 && m * K * R <= 0x7FFF_FFFF
    requires forall k :: 0 <= k < K ==> Magnitude(w(n, k)) <= m
    ensures RowFits(w, n, K, R)
  {
    AbsSumBound(w, n, K, m);
    Index.MulMono(AbsSum(w, n, K), m * K, R);
  }

  ghost predicate Int8Row(w: Ints, K: nat) { forall k :: 0 <= k < K ==> Int8(w(0, k)) }

  lemma {:induction false} LowestSum(K: nat)
    ensures AbsSum((n, k) => -128, 0, K) == 128 * K
  {
    if K > 0 { LowestSum(K - 1); }
  }

  /** No row of int8 weights overflows if and only if K products of -128 by R fit int32. */
  lemma Int8RowsIff(K: nat, R: int)
    requires R >= 0
    ensures (forall w: Ints :: Int8Row(w, K) ==> NeverOverflows(w, 0, K, R)) <==> 128 * K * R <= 0x7FFF_FFFF
  {
    if 128 * K * R <= 0x7FFF_FFFF {
      forall w: Ints | Int8Row(w, K) ensures NeverOverflows(w, 0, K, R) {
        MagnitudeFits(w, 0, K, 128, R);
        OverflowIff(w, 0, K, R);
      }
    } else {
      var w: Ints := (n, k) => -128;
      LowestSum(K);
      OverflowIff(w, 0, K, R);
      assert Int8Row(w, K);
    }
  }

  /** One SMLAD on two neighbouring positions advances the dot product by two, without wrapping. */
  lemma SmladAdvances(w: Ints, x: Ints, n: int, c: int, len: nat, N: int, cols: int, K: nat, R: int, wv: Word, xv: Word)
    requires Bounded(w, x, N, cols, K, R) && 0 <= n < N && 0 <= c < cols && len + 2 <= K
    requires IsPair(wv, w(n, len), w(n, len + 1)) && IsPair(xv, x(c, len), x(c, len + 1))
    ensures Smlad(wv, xv, Dot(w, x, n, c, len)) == Dot(w, x, n, c, len + 2)
  {
    DotFits(w, x, n, c, len + 2, N, cols, K, R);
    assert Dot(w, x, n, c, len + 2) == Dot(w, x, n, c, len + 1) + w(n, len + 1) * x(c, len + 1);
  }

  // --- the packed layouts ---

  /** Weights by channel quad, k-word and lane: four consecutive int8 of channel 4 q + j. */
  type Packed = (int, int, int) -> Word

  ghost predicate PackedWeights(Wp: Packed, w: Ints, Q: int, K: nat)
  {
    forall q, kw, j {:trigger Wp(q, kw, j)} :: 0 <= q < Q && 0 <= kw < K / 4 && 0 <= j < 4 ==>
      Wp(q, kw, j) ==
        WordOf(w(4 * q + j, 4 * kw), w(4 * q + j, 4 * kw + 1), w(4 * q + j, 4 * kw + 2), w(4 * q + j, 4 * kw + 3))
  }

  /** The largest magnitude of a column, as the loop finds it. */
  method FindAbsMax(x: seq<real>) returns (m: real)
    ensures m == AbsMax(x)
  {
    m := 0.0;
    for k := 0 to |x|
      invariant m == AbsMax(x[..k])
    {
      assert x[..k + 1][..k] == x[..k];
      var a := Abs(x[k]);
      m := if a > m then a else m;
    }
    assert x[..|x|] == x;
  }

  // --- bench60: two columns interleaved, pairs in k order ---

  /** Column c of the tile's activation block, pairs of neighbouring k. */
  ghost predicate TileColumn(x2t: array3<Word>, x: Ints, c: nat, K: nat)
    requires c / 2 < x2t.Length0 && x2t.Length1 == K / 2 && x2t.Length2 == 2
    reads x2t
  {
    forall p :: 0 <= p < K / 2 ==> IsPair(x2t[c / 2, p, c % 2], x(c, 2 * p), x(c, 2 * p + 1))
  }

  /** quantize_tile: one column into its half of the column pair; returns the column's scale. */
  method QuantizeTile(col: seq<real>, x2t: array3<Word>, c: nat, R: int) returns (sx: real)
    requires |col| % 2 == 0 && c / 2 < x2t.Length0 && x2t.Length1 == |col| / 2 && x2t.Length2 == 2 && 0 < R <= 32767
    modifies x2t
    ensures forall p :: 0 <= p < |col| / 2 ==>
      IsPair(x2t[c / 2, p, c % 2], Quantized(col, R, 2 * p), Quantized(col, R, 2 * p + 1))
    ensures forall a, p, t :: 0 <= a < x2t.Length0 && 0 <= p < x2t.Length1 && 0 <= t < 2 && !(a == c / 2 && t == c % 2)
              ==> x2t[a, p, t] == old(x2t[a, p, t])
    ensures sx == AbsMax(col) / R as real
  {
    hide AbsMax;
    hide RoundEven;
    hide Scaled;
    hide Lo;
    hide Hi;
    hide Pack16;
    var m := FindAbsMax(col);
    for p := 0 to |col| / 2
      invariant forall q :: 0 <= q < p ==>
        IsPair(x2t[c / 2, q, c % 2], Quantized(col, R, 2 * q), Quantized(col, R, 2 * q + 1))
      invariant forall a, q, t ::
        0 <= a < x2t.Length0 && 0 <= q < x2t.Length1 && 0 <= t < 2 && !(a == c / 2 && t == c % 2) ==>
          x2t[a, q, t] == old(x2t[a, q, t])
    {
      QuantizedInRange(col, R, 2 * p);
      QuantizedInRange(col, R, 2 * p + 1);
      var q0, q1 := RoundEven(Scaled(col[2 * p], m, R)), RoundEven(Scaled(col[2 * p + 1], m, R));
      x2t[c / 2, p, c % 2] := Pack16(q0, q1);
    }
    sx := m / R as real;
  }

  /** The int16 pairs of channel 4 (g0 + i) + j from k0 on, in k order. */
  ghost predicate Unpacked(ws: array3<Word>, w: Ints, g0: nat, n: nat, k0: nat, kn: nat)
    requires n <= ws.Length0 && kn / 2 <= ws.Length1 && ws.Length2 == 4
    reads ws
  {
    forall i, p, j :: 0 <= i < n && 0 <= p < kn / 2 && 0 <= j < 4 ==>
      IsPair(ws[i, p, j], w(4 * (g0 + i) + j, k0 + 2 * p), w(4 * (g0 + i) + j, k0 + 2 * p + 1))
  }

  /** One packed word into two pair words: (b0, b2), (b1, b3) -> (b0, b1), (b2, b3). */
  method UnpackWord(v: Word, ghost b0: int, ghost b1: int, ghost b2: int, ghost b3: int) returns (lo: Word, hi: Word)
    requires Int8(b0) && Int8(b1) && Int8(b2) && Int8(b3) && v == WordOf(b0, b1, b2, b3)
    ensures IsPair(lo, b0, b1) && IsPair(hi, b2, b3)
  {
    hide WordOf;
    hide Sxtb16;
    hide Sxtb16Ror8;
    SxtbOfWord(b0, b1, b2, b3);
    var ev, od := Sxtb16(v), Sxtb16Ror8(v);
    lo := Pack16(Lo(ev), Lo(od));
    hi := Pack16(Hi(ev), Hi(od));
  }

  /** Pair b of a k-word's two, for lane l. */
  ghost predicate KPair(v: Word, w: Ints, n: int, k: int, b: int) { IsPair(v, w(n, k + 2 * b), w(n, k + 2 * b + 1)) }

  /** One k-word of a channel quad: four lanes. */
  method UnpackKWord(Wp: Packed, ghost w: Ints, ghost Q: int, ghost K: nat, q: nat, kw: nat, ws: array3<Word>, i: nat,
                     p: nat)
    requires PackedWeights(Wp, w, Q, K) && q < Q && kw < K / 4
    requires forall n, k :: 0 <= n < 4 * Q && 0 <= k < K ==> Int8(w(n, k))
    requires i < ws.Length0 && p + 2 <= ws.Length1 && ws.Length2 == 4
    modifies ws
    ensures forall b, j :: p <= b < p + 2 && 0 <= j < 4 ==> KPair(ws[i, b, j], w, 4 * q + j, 4 * kw, b - p)
    ensures forall a, b, j :: 0 <= a < ws.Length0 && 0 <= b < ws.Length1 && 0 <= j < 4 && !(a == i && p <= b < p + 2)
              ==> ws[a, b, j] == old(ws[a, b, j])
  {
    hide WordOf;
    hide KPair;
    for j := 0 to 4
      invariant forall b, l :: p <= b < p + 2 && 0 <= l < j ==> KPair(ws[i, b, l], w, 4 * q + l, 4 * kw, b - p)
      invariant forall a, b, l ::
        0 <= a < ws.Length0 && 0 <= b < ws.Length1 && 0 <= l < 4 && !(a == i && p <= b < p + 2) ==>
          ws[a, b, l] == old(ws[a, b, l])
    {
      var lo, hi := UnpackLane(Wp(q, kw, j), w, 4 * q + j, 4 * kw);
      ws[i, p, j] := lo;
      ws[i, p + 1, j] := hi;
    }
  }

  method UnpackLane(v: Word, ghost w: Ints, ghost n: int, ghost k: int) returns (lo: Word, hi: Word)
    requires Int8(w(n, k)) && Int8(w(n, k + 1)) && Int8(w(n, k + 2)) && Int8(w(n, k + 3))
    requires v == WordOf(w(n, k), w(n, k + 1), w(n, k + 2), w(n, k + 3))
    ensures KPair(lo, w, n, k, 0) && KPair(hi, w, n, k, 1)
  {
    hide WordOf;
    lo, hi := UnpackWord(v, w(n, k), w(n, k + 1), w(n, k + 2), w(n, k + 3));
  }

  /** One channel quad of unpack. */
  method UnpackQuad(Wp: Packed, ghost w: Ints, ghost Q: int, ghost K: nat, q: nat, k0: nat, kn: nat, ws: array3<Word>,
                    i: nat)
    requires PackedWeights(Wp, w, Q, K) && q < Q && k0 % 4 == 0 && kn % 4 == 0 && k0 + kn <= K
    requires forall n, k :: 0 <= n < 4 * Q && 0 <= k < K ==> Int8(w(n, k))
    requires i < ws.Length0 && kn / 2 <= ws.Length1 && ws.Length2 == 4
    modifies ws
    ensures forall p, j :: 0 <= p < kn / 2 && 0 <= j < 4 ==>
      IsPair(ws[i, p, j], w(4 * q + j, k0 + 2 * p), w(4 * q + j, k0 + 2 * p + 1))
    ensures forall a, p, j :: 0 <= a < ws.Length0 && a != i && 0 <= p < ws.Length1 && 0 <= j < 4 ==>
      ws[a, p, j] == old(ws[a, p, j])
  {
    hide PackedWeights;
    hide IsPair;
    for kw := 0 to kn / 4
      invariant forall p, j :: 0 <= p < 2 * kw && 0 <= j < 4 ==>
        IsPair(ws[i, p, j], w(4 * q + j, k0 + 2 * p), w(4 * q + j, k0 + 2 * p + 1))
      invariant forall a, p, j :: 0 <= a < ws.Length0 && a != i && 0 <= p < ws.Length1 && 0 <= j < 4 ==>
        ws[a, p, j] == old(ws[a, p, j])
    {
      UnpackKWord(Wp, w, Q, K, q, k0 / 4 + kw, ws, i, 2 * kw);
      assert forall b :: 4 * (k0 / 4 + kw) + 2 * (b - 2 * kw) == k0 + 2 * b;
    }
  }

  /** unpack: quads [g0, g1) over contraction indices [k0, k0 + kn). */
  method Unpack(Wp: Packed, ghost w: Ints, ghost Q: int, ghost K: nat, g0: nat, g1: nat, k0: nat, kn: nat,
                ws: array3<Word>)
    requires PackedWeights(Wp, w, Q, K) && g0 <= g1 <= Q && k0 % 4 == 0 && kn % 4 == 0 && k0 + kn <= K
    requires forall n, k :: 0 <= n < 4 * Q && 0 <= k < K ==> Int8(w(n, k))
    requires g1 - g0 <= ws.Length0 && kn / 2 <= ws.Length1 && ws.Length2 == 4
    modifies ws
    ensures Unpacked(ws, w, g0, g1 - g0, k0, kn)
  {
    hide IsPair;
    hide PackedWeights;
    for q := g0 to g1
      invariant Unpacked(ws, w, g0, q - g0, k0, kn)
    {
      UnpackQuad(Wp, w, Q, K, q, k0, kn, ws, q - g0);
    }
  }

  /** The product being computed: quads of channels, columns in pairs (an odd last column paired with zeros). */
  datatype Product = Product(w: Ints, x: Ints, Q: nat, T: nat, K: nat, R: int)
  {
    ghost predicate Ok() { Bounded(w, x, 4 * Q, 2 * ((T + 1) / 2), K, R) && K % 32 == 0 }

    /** What lane l of the accumulator block of column pair cp and quad q has after k products. */
    function Lane(cp: int, q: int, l: int, k: nat): int { Dot(w, x, 4 * q + l % 4, 2 * cp + l / 4, k) }
  }

  /** Every column pair's words. */
  ghost predicate Columns(x2t: array3<Word>, g: Product)
    reads x2t
  {
    && x2t.Length0 == (g.T + 1) / 2 && x2t.Length1 == g.K / 2 && x2t.Length2 == 2
    && forall cp, p, t :: 0 <= cp < x2t.Length0 && 0 <= p < x2t.Length1 && 0 <= t < 2 ==>
         IsPair(x2t[cp, p, t], g.x(2 * cp + t, 2 * p), g.x(2 * cp + t, 2 * p + 1))
  }

  /** The eight accumulators of one column pair and quad after k products. */
  ghost predicate AccAt(acc: array3<int>, a: nat, b: nat, g: Product, cp: int, q: int, k: nat)
    requires a < acc.Length0 && b < acc.Length1 && acc.Length2 == 8
    reads acc
  {
    forall l :: 0 <= l < 8 ==> acc[a, b, l] == g.Lane(cp, q, l, k)
  }

  /** Two columns by four channels, one pair of positions: eight SMLADs. */
  method PairStep(x2t: array3<Word>, cp: nat, xp: nat, ws: array3<Word>, i: nat, wp: nat, acc: array3<int>, a: nat,
                  b: nat, ghost g: Product, ghost q: nat, ghost k: nat)
    requires g.Ok() && cp < x2t.Length0 && xp < x2t.Length1 && x2t.Length2 == 2 && cp < (g.T + 1) / 2 && q < g.Q
      && k + 2 <= g.K
    requires i < ws.Length0 && wp < ws.Length1 && ws.Length2 == 4 && a < acc.Length0 && b < acc.Length1
      && acc.Length2 == 8
    requires forall t :: 0 <= t < 2 ==> IsPair(x2t[cp, xp, t], g.x(2 * cp + t, k), g.x(2 * cp + t, k + 1))
    requires forall j :: 0 <= j < 4 ==> IsPair(ws[i, wp, j], g.w(4 * q + j, k), g.w(4 * q + j, k + 1))
    requires AccAt(acc, a, b, g, cp, q, k)
    modifies acc
    ensures AccAt(acc, a, b, g, cp, q, k + 2)
    ensures forall e, f, l :: 0 <= e < acc.Length0 && 0 <= f < acc.Length1 && 0 <= l < 8 && !(e == a && f == b)
              ==> acc[e, f, l] == old(acc[e, f, l])
  {
    hide Smlad;
    hide IsPair;
    hide Dot;
    for l := 0 to 8
      invariant forall r :: 0 <= r < l ==> acc[a, b, r] == g.Lane(cp, q, r, k + 2)
      invariant forall r :: l <= r < 8 ==> acc[a, b, r] == g.Lane(cp, q, r, k)
      invariant forall e, f, r :: 0 <= e < acc.Length0 && 0 <= f < acc.Length1 && 0 <= r < 8 && !(e == a && f == b)
                  ==> acc[e, f, r] == old(acc[e, f, r])
    {
      var t, j := l / 4, l % 4;
      SmladAdvances(g.w, g.x, 4 * q + j, 2 * cp + t, k, 4 * g.Q, 2 * ((g.T + 1) / 2), g.K, g.R, ws[i, wp, j],
                    x2t[cp, xp, t]);
      acc[a, b, l] := Smlad(ws[i, wp, j], x2t[cp, xp, t], acc[a, b, l]);
    }
  }

  /** ggml_armv6_i8_tile_p<n>: n pairs of positions from chunk pair p on. */
  method TilePairs(n: nat, x2t: array3<Word>, cp: nat, ws: array3<Word>, acc: array3<int>, a: nat, b: nat,
                   ghost g: Product, q: nat, g0: nat, ghost groups: nat, k0: nat, ghost kn: nat, p: nat)
    requires g.Ok() && Columns(x2t, g) && cp < x2t.Length0 && g0 <= q < g0 + groups && q < g.Q
    requires groups <= ws.Length0 && kn / 2 <= ws.Length1 && ws.Length2 == 4 && Unpacked(ws, g.w, g0, groups, k0, kn)
    requires k0 % 2 == 0 && k0 + kn <= g.K && p + n <= kn / 2
    requires a < acc.Length0 && b < acc.Length1 && acc.Length2 == 8 && AccAt(acc, a, b, g, cp, q, k0 + 2 * p)
    modifies acc
    ensures AccAt(acc, a, b, g, cp, q, k0 + 2 * (p + n))
    ensures forall e, f, l :: 0 <= e < acc.Length0 && 0 <= f < acc.Length1 && 0 <= l < 8 && !(e == a && f == b)
              ==> acc[e, f, l] == old(acc[e, f, l])
  {
    hide IsPair;
    hide AccAt;
    for r := 0 to n
      invariant Columns(x2t, g) && Unpacked(ws, g.w, g0, groups, k0, kn)
      invariant AccAt(acc, a, b, g, cp, q, k0 + 2 * (p + r))
      invariant forall e, f, l :: 0 <= e < acc.Length0 && 0 <= f < acc.Length1 && 0 <= l < 8 && !(e == a && f == b)
                  ==> acc[e, f, l] == old(acc[e, f, l])
    {
      ghost var k := k0 + 2 * (p + r);
      assert k == 2 * (k0 / 2 + p + r);
      PairStep(x2t, cp, k0 / 2 + p + r, ws, q - g0, p + r, acc, a, b, g, q, k);
    }
  }

  /** One quad against one column pair over a chunk: 128 pairs at a time, then 16. */
  method QuadChunk(x2t: array3<Word>, cp: nat, ws: array3<Word>, acc: array3<int>, a: nat, b: nat,
                   ghost g: Product, q: nat, g0: nat, ghost groups: nat, k0: nat, kn: nat)
    requires g.Ok() && Columns(x2t, g) && cp < x2t.Length0 && g0 <= q < g0 + groups && q < g.Q
    requires groups <= ws.Length0 && kn / 2 <= ws.Length1 && ws.Length2 == 4 && Unpacked(ws, g.w, g0, groups, k0, kn)
    requires k0 % 2 == 0 && kn % 32 == 0 && k0 + kn <= g.K
    requires a < acc.Length0 && b < acc.Length1 && acc.Length2 == 8 && AccAt(acc, a, b, g, cp, q, k0)
    modifies acc
    ensures AccAt(acc, a, b, g, cp, q, k0 + kn)
    ensures forall e, f, l :: 0 <= e < acc.Length0 && 0 <= f < acc.Length1 && 0 <= l < 8 && !(e == a && f == b)
              ==> acc[e, f, l] == old(acc[e, f, l])
  {
    hide IsPair;
    hide AccAt;
    hide Columns;
    hide Unpacked;
    hide Product.Ok;
    hide Product.Lane;
    var half := kn / 2;
    HalfChunk(kn);
    var p := 0;
    while p + 128 <= half
      invariant 0 <= p <= half && p % 16 == 0
      invariant Columns(x2t, g) && Unpacked(ws, g.w, g0, groups, k0, kn) && AccAt(acc, a, b, g, cp, q, k0 + 2 * p)
      invariant forall e, f, l :: 0 <= e < acc.Length0 && 0 <= f < acc.Length1 && 0 <= l < 8 && !(e == a && f == b)
                  ==> acc[e, f, l] == old(acc[e, f, l])
    {
      SixteensOn(p, 128);
      TilePairs(128, x2t, cp, ws, acc, a, b, g, q, g0, groups, k0, kn, p);
      p := p + 128;
    }
    while p < half
      invariant 0 <= p <= half && p % 16 == 0
      invariant Columns(x2t, g) && Unpacked(ws, g.w, g0, groups, k0, kn) && AccAt(acc, a, b, g, cp, q, k0 + 2 * p)
      invariant forall e, f, l :: 0 <= e < acc.Length0 && 0 <= f < acc.Length1 && 0 <= l < 8 && !(e == a && f == b)
                  ==> acc[e, f, l] == old(acc[e, f, l])
    {
      SixteensOn(p, 16);
      SixteenFits(p, half);
      TilePairs(16, x2t, cp, ws, acc, a, b, g, q, g0, groups, k0, kn, p);
      p := p + 16;
    }
  }

  lemma HalfChunk(kn: nat)
    requires kn % 32 == 0
    ensures kn / 2 % 16 == 0 && 2 * (kn / 2) == kn
  {
    assert kn == 32 * (kn / 32);
    assert kn / 2 == 16 * (kn / 32);
  }

  lemma SixteensOn(p: nat, n: nat)
    requires p % 16 == 0 && n % 16 == 0
    ensures (p + n) % 16 == 0
  {
    assert p + n == 16 * (p / 16 + n / 16);
  }

  lemma SixteenFits(p: nat, half: nat)
    requires p % 16 == 0 && half % 16 == 0 && p < half
    ensures p + 16 <= half
  {
    assert p == 16 * (p / 16) && half == 16 * (half / 16);
  }

  /**
   Column pairs [c0, c1) and quads [q0, q1) of the block that starts at (cp0, g0), all accumulated over k products.
   */
  ghost predicate Region(acc: array3<int>, g: Product, cp0: nat, g0: nat, c0: nat, c1: nat, q0: nat, q1: nat, k: nat)
    requires cp0 <= c0 && c1 - cp0 <= acc.Length0 && g0 <= q0 && q1 - g0 <= acc.Length1 && acc.Length2 == 8
    reads acc
  {
    forall c, q, l :: c0 <= c < c1 && q0 <= q < q1 && 0 <= l < 8 ==> acc[c - cp0, q - g0, l] == g.Lane(c, q, l, k)
  }

  /** One column pair of a chunk: every quad of the group. */
  method PairChunk(x2t: array3<Word>, ws: array3<Word>, acc: array3<int>, ghost g: Product,
                   cp0: nat, cp: nat, g0: nat, g1: nat, k0: nat, kn: nat, ghost k1: nat)
    requires g.Ok() && Columns(x2t, g) && cp0 <= cp < x2t.Length0 && g0 <= g1 <= g.Q && k1 == k0 + kn
    requires g1 - g0 <= ws.Length0 && kn / 2 <= ws.Length1 && ws.Length2 == 4 && Unpacked(ws, g.w, g0, g1 - g0, k0, kn)
    requires k0 % 2 == 0 && kn % 32 == 0 && k1 <= g.K
    requires cp - cp0 < acc.Length0 && g1 - g0 <= acc.Length1 && acc.Length2 == 8
    requires Region(acc, g, cp0, g0, cp, cp + 1, g0, g1, k0)
    modifies acc
    ensures Region(acc, g, cp0, g0, cp, cp + 1, g0, g1, k1)
    ensures forall e, f, l :: 0 <= e < acc.Length0 && e != cp - cp0 && 0 <= f < acc.Length1 && 0 <= l < 8
              ==> acc[e, f, l] == old(acc[e, f, l])
  {
    hide IsPair;
    hide Product.Lane;
    hide Product.Ok;
    hide Unpacked;
    hide Columns;
    for q := g0 to g1
      invariant Columns(x2t, g) && Unpacked(ws, g.w, g0, g1 - g0, k0, kn)
      invariant Region(acc, g, cp0, g0, cp, cp + 1, g0, q, k1)
      invariant Region(acc, g, cp0, g0, cp, cp + 1, q, g1, k0)
      invariant forall e, f, l :: 0 <= e < acc.Length0 && e != cp - cp0 && 0 <= f < acc.Length1 && 0 <= l < 8
                  ==> acc[e, f, l] == old(acc[e, f, l])
    {
      QuadChunk(x2t, cp, ws, acc, cp - cp0, q - g0, g, q, g0, g1 - g0, k0, kn);
    }
  }

  /** One chunk of K over a block: every column pair, every quad of the group. */
  method BlockChunk(x2t: array3<Word>, ws: array3<Word>, acc: array3<int>, ghost g: Product,
                    cp0: nat, cp1: nat, g0: nat, g1: nat, k0: nat, kn: nat, ghost k1: nat)
    requires g.Ok() && Columns(x2t, g) && cp0 <= cp1 <= x2t.Length0 && g0 <= g1 <= g.Q && k1 == k0 + kn
    requires g1 - g0 <= ws.Length0 && kn / 2 <= ws.Length1 && ws.Length2 == 4 && Unpacked(ws, g.w, g0, g1 - g0, k0, kn)
    requires k0 % 2 == 0 && kn % 32 == 0 && k1 <= g.K
    requires cp1 - cp0 <= acc.Length0 && g1 - g0 <= acc.Length1 && acc.Length2 == 8
    requires Region(acc, g, cp0, g0, cp0, cp1, g0, g1, k0)
    modifies acc
    ensures Region(acc, g, cp0, g0, cp0, cp1, g0, g1, k1)
  {
    hide IsPair;
    hide Product.Lane;
    hide Product.Ok;
    hide Unpacked;
    hide Columns;
    for cp := cp0 to cp1
      invariant Columns(x2t, g) && Unpacked(ws, g.w, g0, g1 - g0, k0, kn)
      invariant Region(acc, g, cp0, g0, cp0, cp, g0, g1, k1)
      invariant Region(acc, g, cp0, g0, cp, cp1, g0, g1, k0)
    {
      PairChunk(x2t, ws, acc, g, cp0, cp, g0, g1, k0, kn, k1);
    }
  }

  // --- the driver ---

  /** The integers the tile multiplies: quantized columns, and zeros beside an odd last one. */
  function Acts(X: seq<seq<real>>, R: int): Ints
  {
    (c, k) => if 0 <= c < |X| && 0 <= k < |X[c]| then Quantized(X[c], R, k) else 0
  }

  ghost predicate Problem(g: Product, X: seq<seq<real>>, R: int)
  {
    g.T == |X| && g.x == Acts(X, R) && 0 < R <= 32767 && g.K % 32 == 0 && forall c :: 0 <= c < |X| ==> |X[c]| == g.K
  }

  /** One column quantized into the tile's block, the others kept. */
  method QuantizeColumn(X: seq<seq<real>>, x2t: array3<Word>, c: nat, ghost g: Product, R: int) returns (s: real)
    requires Problem(g, X, R) && c < |X|
    requires x2t.Length0 == (g.T + 1) / 2 && x2t.Length1 == g.K / 2 && x2t.Length2 == 2
    modifies x2t
    ensures TileColumn(x2t, g.x, c, g.K)
    ensures forall d :: 0 <= d < |X| && d != c && old(TileColumn(x2t, g.x, d, g.K)) ==> TileColumn(x2t, g.x, d, g.K)
    ensures s == AbsMax(X[c]) / R as real
  {
    hide IsPair;
    hide AbsMax;
    hide Quantized;
    s := QuantizeTile(X[c], x2t, c, R);
  }

  /** The missing partner of an odd last column: zeros, where x is zero. */
  method ZeroPartner(x2t: array3<Word>, cp: nat, ghost c: nat, ghost x: Ints, ghost K: nat)
    requires cp < x2t.Length0 && x2t.Length1 == K / 2 && x2t.Length2 == 2 && c == 2 * cp + 1
    requires forall k :: 0 <= k < K ==> x(c, k) == 0
    modifies x2t
    ensures TileColumn(x2t, x, c, K)
    ensures forall d :: 0 <= d < c && old(TileColumn(x2t, x, d, K)) ==> TileColumn(x2t, x, d, K)
  {
    hide IsPair;
    for p := 0 to x2t.Length1
      invariant forall q :: 0 <= q < p ==> x2t[cp, q, 1] == 0
      invariant forall a, q, t :: 0 <= a < x2t.Length0 && 0 <= q < x2t.Length1 && 0 <= t < 2 && !(a == cp && t == 1)
                  ==> x2t[a, q, t] == old(x2t[a, q, t])
    {
      x2t[cp, p, 1] := 0;
    }
    assert IsPair(0, 0, 0) by { ZeroPair(); }
    assert c / 2 == cp && c % 2 == 1;
  }

  lemma ZeroPair()
    ensures IsPair(0, 0, 0)
  {
  }

  lemma NoColumn(X: seq<seq<real>>, R: int, c: nat)
    requires c >= |X|
    ensures forall k :: Acts(X, R)(c, k) == 0
  {
  }

  lemma OddHalf(T: nat)
    requires T % 2 == 1
    ensures T == 2 * (T / 2) + 1 && (T + 1) / 2 == T / 2 + 1
  {
  }

  /** The columns quantized in turn. */
  method QuantizeColumns(X: seq<seq<real>>, x2t: array3<Word>, sx: array<real>, ghost g: Product, R: int)
    requires Problem(g, X, R)
    requires x2t.Length0 == (g.T + 1) / 2 && x2t.Length1 == g.K / 2 && x2t.Length2 == 2 && sx.Length == 2 * x2t.Length0
    modifies x2t, sx
    ensures Columns(x2t, g)
    ensures forall c :: 0 <= c < |X| ==> sx[c] == AbsMax(X[c]) / R as real
  {
    hide TileColumn;
    hide AbsMax;
    hide Columns;
    hide Problem;
    ProblemSize(g, X, R);
    for c := 0 to |X|
      invariant forall d :: 0 <= d < c ==> TileColumn(x2t, g.x, d, g.K)
      invariant forall d :: 0 <= d < c ==> sx[d] == AbsMax(X[d]) / R as real
    {
      sx[c] := QuantizeColumn(X, x2t, c, g, R);
    }
    if |X| % 2 == 1 {
      PairLast(X, x2t, g, R);
      sx[|X|] := 0.0;
    }
    EvenOrPaired(|X|);
    ColumnsFromEach(x2t, g);
  }

  lemma EvenOrPaired(T: nat)
    ensures 2 * ((T + 1) / 2) == if T % 2 == 1 then T + 1 else T
  {
  }

  /** The partner of an odd last column. */
  method PairLast(X: seq<seq<real>>, x2t: array3<Word>, ghost g: Product, ghost R: int)
    requires Problem(g, X, R) && |X| % 2 == 1
    requires x2t.Length0 == (g.T + 1) / 2 && x2t.Length1 == g.K / 2 && x2t.Length2 == 2
    requires forall d :: 0 <= d < |X| ==> TileColumn(x2t, g.x, d, g.K)
    modifies x2t
    ensures forall d :: 0 <= d <= |X| ==> TileColumn(x2t, g.x, d, g.K)
  {
    hide TileColumn;
    hide Problem;
    ProblemSize(g, X, R);
    OddHalf(|X|);
    NoPartner(g, X, R);
    ZeroPartner(x2t, |X| / 2, |X|, g.x, g.K);
  }

  lemma ProblemSize(g: Product, X: seq<seq<real>>, R: int)
    requires Problem(g, X, R)
    ensures g.T == |X| && R > 0
  {
  }

  lemma NoPartner(g: Product, X: seq<seq<real>>, R: int)
    requires Problem(g, X, R)
    ensures forall k :: g.x(|X|, k) == 0
  {
    hide Acts;
    NoColumn(X, R, |X|);
  }

  lemma ColumnsFromEach(x2t: array3<Word>, g: Product)
    requires x2t.Length0 == (g.T + 1) / 2 && x2t.Length1 == g.K / 2 && x2t.Length2 == 2
    requires forall d :: 0 <= d < 2 * x2t.Length0 ==> TileColumn(x2t, g.x, d, g.K)
    ensures Columns(x2t, g)
  {
    hide IsPair;
    forall cp, p, t | 0 <= cp < x2t.Length0 && 0 <= p < x2t.Length1 && 0 <= t < 2
      ensures IsPair(x2t[cp, p, t], g.x(2 * cp + t, 2 * p), g.x(2 * cp + t, 2 * p + 1))
    {
      assert TileColumn(x2t, g.x, 2 * cp + t, g.K);
    }
  }

  /** Output (column c, channel n): the integer sum, scaled once. */
  function Out(g: Product, sx: real, sw: int -> real, c: int, n: int): real
  {
    Dot(g.w, g.x, n, c, g.K) as real * (sx * sw(n))
  }

  /** Columns [c0, c1), channels [n0, n1) of y are final. */
  ghost predicate Stored(y: array2<real>, g: Product, sx: seq<real>, sw: int -> real, c0: nat, c1: nat, n0: nat,
                         n1: nat)
    requires c1 <= y.Length0 && n1 <= y.Length1 && c1 <= |sx|
    reads y
  {
    forall c, n :: c0 <= c < c1 && n0 <= n < n1 ==> y[c, n] == Out(g, sx[c], sw, c, n)
  }

  /** One quad's channels of one column. */
  method StoreQuad(acc: array3<int>, y: array2<real>, sx: array<real>, sw: int -> real, ghost g: Product,
                   cp0: nat, cp: nat, t: nat, c: nat, g0: nat, ghost g1: nat, q: nat)
    requires cp0 <= cp && cp - cp0 < acc.Length0 && g0 <= q < g1 <= g.Q && g1 - g0 <= acc.Length1 && acc.Length2 == 8
      && t < 2 && c == 2 * cp + t
    requires Region(acc, g, cp0, g0, cp, cp + 1, g0, g1, g.K)
    requires c < y.Length0 && y.Length0 <= sx.Length && y.Length1 == 4 * g.Q
    modifies y
    ensures forall n :: 4 * q <= n < 4 * q + 4 ==> y[c, n] == Out(g, sx[c], sw, c, n)
    ensures forall d, n :: 0 <= d < y.Length0 && 0 <= n < y.Length1 && !(d == c && 4 * q <= n < 4 * q + 4) ==>
      y[d, n] == old(y[d, n])
  {
    hide Dot;
    hide Out;
    hide Product.Lane;
    for j := 0 to 4
      invariant forall n :: 4 * q <= n < 4 * q + j ==> y[c, n] == Out(g, sx[c], sw, c, n)
      invariant forall d, n :: 0 <= d < y.Length0 && 0 <= n < y.Length1 && !(d == c && 4 * q <= n < 4 * q + j) ==>
        y[d, n] == old(y[d, n])
    {
      LaneOf(g, cp, q, t, j);
      assert acc[cp - cp0, q - g0, 4 * t + j] == g.Lane(cp, q, 4 * t + j, g.K);
      y[c, 4 * q + j] := acc[cp - cp0, q - g0, 4 * t + j] as real * (sx[c] * sw(4 * q + j));
      ScaledOnce(g, sx[c], sw, c, 4 * q + j);
    }
  }

  /** One column's channels of a block, from its half of the accumulators. */
  method StoreColumn(acc: array3<int>, y: array2<real>, sx: array<real>, sw: int -> real, ghost g: Product,
                     cp0: nat, cp: nat, t: nat, g0: nat, g1: nat)
    requires cp0 <= cp && cp - cp0 < acc.Length0 && g0 <= g1 <= g.Q && g1 - g0 <= acc.Length1 && acc.Length2 == 8
      && t < 2
    requires Region(acc, g, cp0, g0, cp, cp + 1, g0, g1, g.K)
    requires 2 * cp + t < y.Length0 && y.Length0 <= sx.Length && y.Length1 == 4 * g.Q
    modifies y
    ensures Stored(y, g, sx[..], sw, 2 * cp + t, 2 * cp + t + 1, 4 * g0, 4 * g1)
    ensures forall c, n :: 0 <= c < y.Length0 && 0 <= n < y.Length1 && !(c == 2 * cp + t && 4 * g0 <= n < 4 * g1)
              ==> y[c, n] == old(y[c, n])
  {
    hide Out;
    hide Region;
    var c := 2 * cp + t;
    for q := g0 to g1
      invariant Stored(y, g, sx[..], sw, c, c + 1, 4 * g0, 4 * q)
      invariant forall d, n :: 0 <= d < y.Length0 && 0 <= n < y.Length1 && !(d == c && 4 * g0 <= n < 4 * q) ==>
        y[d, n] == old(y[d, n])
    {
      StoreQuad(acc, y, sx, sw, g, cp0, cp, t, c, g0, g1, q);
    }
  }

  lemma LaneOf(g: Product, cp: int, q: int, t: nat, j: nat)
    requires t < 2 && j < 4
    ensures g.Lane(cp, q, 4 * t + j, g.K) == Dot(g.w, g.x, 4 * q + j, 2 * cp + t, g.K)
  {
  }

  lemma ScaledOnce(g: Product, sx: real, sw: int -> real, c: int, n: int)
    ensures Out(g, sx, sw, c, n) == Dot(g.w, g.x, n, c, g.K) as real * (sx * sw(n))
  {
  }

  /** Every real column of a block. */
  method StoreBlock(acc: array3<int>, y: array2<real>, sx: array<real>, sw: int -> real, ghost g: Product,
                    cp0: nat, cp1: nat, g0: nat, g1: nat)
    requires cp0 <= cp1 && cp1 - cp0 <= acc.Length0 && g0 <= g1 <= g.Q && g1 - g0 <= acc.Length1 && acc.Length2 == 8
    requires Region(acc, g, cp0, g0, cp0, cp1, g0, g1, g.K)
    requires y.Length0 == g.T <= sx.Length && y.Length1 == 4 * g.Q
    modifies y
    ensures Stored(y, g, sx[..], sw, 2 * cp0, if 2 * cp1 < g.T then 2 * cp1 else g.T, 4 * g0, 4 * g1)
    ensures forall c, n :: 0 <= c < y.Length0 && 0 <= n < y.Length1 && !(2 * cp0 <= c < 2 * cp1 && 4 * g0 <= n < 4 * g1)
              ==> y[c, n] == old(y[c, n])
  {
    hide Product.Lane;
    hide Out;
    for cp := cp0 to cp1
      invariant Stored(y, g, sx[..], sw, 2 * cp0, if 2 * cp < g.T then 2 * cp else g.T, 4 * g0, 4 * g1)
      invariant forall c, n ::
        0 <= c < y.Length0 && 0 <= n < y.Length1 && !(2 * cp0 <= c < 2 * cp && 4 * g0 <= n < 4 * g1) ==>
          y[c, n] == old(y[c, n])
    {
      var t := 0;
      while t < 2 && 2 * cp + t < y.Length0
        invariant 0 <= t <= 2
        invariant Stored(y, g, sx[..], sw, 2 * cp0, if 2 * cp + t < g.T then 2 * cp + t else g.T, 4 * g0, 4 * g1)
        invariant forall c, n ::
          0 <= c < y.Length0 && 0 <= n < y.Length1 && !(2 * cp0 <= c < 2 * cp + t && 4 * g0 <= n < 4 * g1) ==>
            y[c, n] == old(y[c, n])
      {
        StoreColumn(acc, y, sx, sw, g, cp0, cp, t, g0, g1);
        t := t + 1;
      }
    }
  }

  /** The accumulators of a block cleared: sums of no products. */
  method ClearBlock(acc: array3<int>, ghost g: Product, cp0: nat, cp1: nat, g0: nat, g1: nat)
    requires cp0 <= cp1 && cp1 - cp0 <= acc.Length0 && g0 <= g1 && g1 - g0 <= acc.Length1 && acc.Length2 == 8
    modifies acc
    ensures Region(acc, g, cp0, g0, cp0, cp1, g0, g1, 0)
  {
    for a := 0 to cp1 - cp0
      invariant forall e, f, l :: 0 <= e < a && 0 <= f < acc.Length1 && 0 <= l < 8 ==> acc[e, f, l] == 0
    {
      for b := 0 to acc.Length1
        invariant forall e, f, l :: 0 <= e < a && 0 <= f < acc.Length1 && 0 <= l < 8 ==> acc[e, f, l] == 0
        invariant forall f, l :: 0 <= f < b && 0 <= l < 8 ==> acc[a, f, l] == 0
      {
        for l := 0 to 8
          invariant forall e, f, m :: 0 <= e < a && 0 <= f < acc.Length1 && 0 <= m < 8 ==> acc[e, f, m] == 0
          invariant forall f, m :: 0 <= f < b && 0 <= m < 8 ==> acc[a, f, m] == 0
          invariant forall m :: 0 <= m < l ==> acc[a, b, m] == 0
        {
          acc[a, b, l] := 0;
        }
      }
    }
  }

  /** What a driver run works in, checked once. */
  ghost predicate Buffers(x2t: array3<Word>, ws: array3<Word>, acc: array3<int>, y: array2<real>, sx: array<real>,
                          g: Product, qb: nat, kc: nat, cpb: nat)
  {
    && ws != x2t && qb <= ws.Length0 && kc / 2 <= ws.Length1 && ws.Length2 == 4
    && cpb <= acc.Length0 && qb <= acc.Length1 && acc.Length2 == 8
    && y.Length0 == g.T <= sx.Length && y.Length1 == 4 * g.Q
    && 0 < kc <= g.K && kc % 32 == 0 && cpb > 0 && qb > 0
  }

  method UnpackIf(again: bool, Wp: Packed, ws: array3<Word>, ghost g: Product, K: nat, g0: nat, g1: nat, k0: nat,
                  kn: nat)
    requires g.Ok() && K == g.K && PackedWeights(Wp, g.w, g.Q, K) && g0 <= g1 <= g.Q && k0 % 32 == 0 && kn % 32 == 0
      && k0 + kn <= K
    requires g1 - g0 <= ws.Length0 && kn / 2 <= ws.Length1 && ws.Length2 == 4
    requires !again ==> Unpacked(ws, g.w, g0, g1 - g0, k0, kn)
    modifies ws
    ensures Unpacked(ws, g.w, g0, g1 - g0, k0, kn)
  {
    hide Unpacked;
    hide PackedWeights;
    hide Product.Ok;
    if again {
      Int8Weights(g);
      FourDivides(k0);
      FourDivides(kn);
      Unpack(Wp, g.w, g.Q, K, g0, g1, k0, kn, ws);
    }
  }

  lemma FourDivides(k: nat)
    requires k % 32 == 0
    ensures k % 4 == 0
  {
    assert k == 4 * (8 * (k / 32));
  }

  /** The next chunk of K for a block; the group's weights are unpacked again unless one chunk is all of K. */
  method NextChunk(Wp: Packed, x2t: array3<Word>, ws: array3<Word>, acc: array3<int>, ghost g: Product, K: nat,
                   again: bool, cp0: nat, cp1: nat, g0: nat, g1: nat, k0: nat, kn: nat)
    requires g.Ok() && Columns(x2t, g) && K == g.K && PackedWeights(Wp, g.w, g.Q, K) && ws != x2t
    requires k0 % 32 == 0 && kn % 32 == 0 && k0 + kn <= K
    requires cp0 <= cp1 <= x2t.Length0 && cp1 - cp0 <= acc.Length0 && g0 <= g1 <= g.Q && g1 - g0 <= acc.Length1
      && acc.Length2 == 8
    requires g1 - g0 <= ws.Length0 && kn / 2 <= ws.Length1 && ws.Length2 == 4
    requires !again ==> Unpacked(ws, g.w, g0, g1 - g0, k0, kn)
    requires Region(acc, g, cp0, g0, cp0, cp1, g0, g1, k0)
    modifies ws, acc
    ensures Unpacked(ws, g.w, g0, g1 - g0, k0, kn) && Region(acc, g, cp0, g0, cp0, cp1, g0, g1, k0 + kn)
  {
    hide Unpacked;
    hide PackedWeights;
    hide Columns;
    hide Region;
    hide Product.Ok;
    UnpackIf(again, Wp, ws, g, K, g0, g1, k0, kn);
    BlockChunk(x2t, ws, acc, g, cp0, cp1, g0, g1, k0, kn, k0 + kn);
  }

  /** The size of the next chunk: whole words of 32 up to the end of K, all of K when a chunk is. */
  function ChunkSize(K: nat, kc: nat, k0: nat): (kn: nat)
    requires k0 < K && k0 % 32 == 0 && K % 32 == 0 && 0 < kc <= K && kc % 32 == 0
    ensures 0 < kn <= kc && k0 + kn <= K && kn % 32 == 0 && (k0 + kn) % 32 == 0
    ensures kc == K && k0 == 0 ==> kn == K
  {
    Multiples(k0, kc);
    Multiples(K, k0);
    if kc < K - k0 then kc else K - k0
  }

  lemma Multiples(a: int, b: int)
    requires a % 32 == 0 && b % 32 == 0
    ensures (a + b) % 32 == 0 && (a - b) % 32 == 0
  {
    assert a == 32 * (a / 32) && b == 32 * (b / 32);
  }

  lemma OkWords(g: Product)
    requires g.Ok()
    ensures g.K % 32 == 0
  {
  }

  /** A block's sums over all of K, chunk by chunk. */
  method AccumulateBlock(Wp: Packed, x2t: array3<Word>, ws: array3<Word>, acc: array3<int>, ghost g: Product, K: nat,
                         kc: nat, cp0: nat, cp1: nat, g0: nat, g1: nat)
    requires g.Ok() && Columns(x2t, g) && K == g.K && PackedWeights(Wp, g.w, g.Q, K) && ws != x2t && 0 < kc <= K
      && kc % 32 == 0
    requires cp0 <= cp1 <= x2t.Length0 && cp1 - cp0 <= acc.Length0 && g0 <= g1 <= g.Q && g1 - g0 <= acc.Length1
      && acc.Length2 == 8
    requires g1 - g0 <= ws.Length0 && kc / 2 <= ws.Length1 && ws.Length2 == 4
    requires kc == K ==> Unpacked(ws, g.w, g0, g1 - g0, 0, K)
    modifies ws, acc
    ensures kc == K ==> Unpacked(ws, g.w, g0, g1 - g0, 0, K)
    ensures Region(acc, g, cp0, g0, cp0, cp1, g0, g1, K)
  {
    hide Unpacked;
    hide PackedWeights;
    hide Columns;
    hide Region;
    hide Product.Ok;
    hide ChunkSize;
    OkWords(g);
    ClearBlock(acc, g, cp0, cp1, g0, g1);
    var k0 := 0;
    while k0 < K
      invariant 0 <= k0 <= K && k0 % 32 == 0 && Columns(x2t, g)
      invariant kc == K ==> Unpacked(ws, g.w, g0, g1 - g0, 0, K) && (k0 == 0 || k0 == K)
      invariant Region(acc, g, cp0, g0, cp0, cp1, g0, g1, k0)
      decreases K - k0
    {
      var kn := ChunkSize(K, kc, k0);
      NextChunk(Wp, x2t, ws, acc, g, K, kc != K, cp0, cp1, g0, g1, k0, kn);
      k0 := k0 + kn;
    }
  }

  /** A block of column pairs against a group of quads, to the stores. */
  method GroupBlock(Wp: Packed, x2t: array3<Word>, ws: array3<Word>, acc: array3<int>, y: array2<real>, sx: array<real>,
                    sw: int -> real, ghost g: Product, K: nat, kc: nat, ghost cpb: nat, ghost qb: nat,
                    cp0: nat, cp1: nat, g0: nat, g1: nat)
    requires g.Ok() && Columns(x2t, g) && K == g.K && PackedWeights(Wp, g.w, g.Q, K)
      && Buffers(x2t, ws, acc, y, sx, g, qb, kc, cpb)
    requires cp0 <= cp1 <= x2t.Length0 && cp1 - cp0 <= cpb && g0 <= g1 <= g.Q && g1 - g0 <= qb
    requires kc == K ==> Unpacked(ws, g.w, g0, g1 - g0, 0, K)
    modifies ws, acc, y
    ensures kc == K ==> Unpacked(ws, g.w, g0, g1 - g0, 0, K)
    ensures Stored(y, g, sx[..], sw, 2 * cp0, if 2 * cp1 < g.T then 2 * cp1 else g.T, 4 * g0, 4 * g1)
    ensures forall c, n :: 0 <= c < y.Length0 && 0 <= n < y.Length1 && !(2 * cp0 <= c < 2 * cp1 && 4 * g0 <= n < 4 * g1)
              ==> y[c, n] == old(y[c, n])
  {
    hide Unpacked;
    hide PackedWeights;
    hide Columns;
    hide Region;
    hide Stored;
    hide Product.Ok;
    AccumulateBlock(Wp, x2t, ws, acc, g, K, kc, cp0, cp1, g0, g1);
    StoreBlock(acc, y, sx, sw, g, cp0, cp1, g0, g1);
  }

  lemma Int8Weights(g: Product)
    requires g.Ok()
    ensures forall n, k :: 0 <= n < 4 * g.Q && 0 <= k < g.K ==> Int8(g.w(n, k))
  {
  }

  /** A group of channel quads against every column. */
  method Group(Wp: Packed, x2t: array3<Word>, ws: array3<Word>, acc: array3<int>, y: array2<real>, sx: array<real>,
               sw: int -> real, ghost g: Product, K: nat, kc: nat, cpb: nat, ghost qb: nat, g0: nat, g1: nat)
    requires g.Ok() && Columns(x2t, g) && K == g.K && PackedWeights(Wp, g.w, g.Q, K)
      && Buffers(x2t, ws, acc, y, sx, g, qb, kc, cpb)
    requires g0 <= g1 <= g.Q && g1 - g0 <= qb && x2t.Length0 == (g.T + 1) / 2
    modifies ws, acc, y
    ensures Stored(y, g, sx[..], sw, 0, g.T, 4 * g0, 4 * g1)
    ensures forall c, n :: 0 <= c < y.Length0 && 0 <= n < y.Length1 && !(4 * g0 <= n < 4 * g1) ==>
      y[c, n] == old(y[c, n])
  {
    hide Unpacked;
    hide PackedWeights;
    hide Columns;
    hide Out;
    hide Product.Ok;
    if kc == K {
      UnpackIf(true, Wp, ws, g, K, g0, g1, 0, K);
    }
    var cp0 := 0;
    while cp0 < x2t.Length0
      invariant 0 <= cp0 <= x2t.Length0 && Columns(x2t, g)
      invariant kc == K ==> Unpacked(ws, g.w, g0, g1 - g0, 0, K)
      invariant Stored(y, g, sx[..], sw, 0, if 2 * cp0 < g.T then 2 * cp0 else g.T, 4 * g0, 4 * g1)
      invariant forall c, n :: 0 <= c < y.Length0 && 0 <= n < y.Length1 && !(4 * g0 <= n < 4 * g1) ==>
        y[c, n] == old(y[c, n])
      decreases x2t.Length0 - cp0
    {
      var cp1 := if cp0 + cpb < x2t.Length0 then cp0 + cpb else x2t.Length0;
      GroupBlock(Wp, x2t, ws, acc, y, sx, sw, g, K, kc, cpb, qb, cp0, cp1, g0, g1);
      cp0 := cp1;
    }
  }

  /** The tile driver's group size: as many quads as the weight block of a chunk holds, at least one. */
  function QuadsPerGroup(Q: nat, wb: nat, kc: nat): (qb: nat)
    requires kc > 0
    ensures qb >= 1
  {
    Index.DivMod(wb, 8 * kc);
    var fit := if Q < wb / (8 * kc) then Q else wb / (8 * kc);
    if fit < 1 then 1 else fit
  }

  /**
   gemm_tile: every output is the integer dot product of its weight row and quantized column, scaled once, for any
   number of columns, any weight-block size, any chunk of K and any column block.
   */
  method GemmTile(Wp: Packed, sw: int -> real, X: seq<seq<real>>, ghost w: Ints, Q: nat, K: nat, wb: nat, kcWanted: nat,
                  cpb: nat, y: array2<real>, x2t: array3<Word>, sx: array<real>, ws: array3<Word>, acc: array3<int>)
    requires 0 < K && 128 * K <= 0x7FFF_FFFF && K % 32 == 0 && kcWanted > 0 && kcWanted % 32 == 0 && cpb > 0
    requires forall c :: 0 <= c < |X| ==> |X[c]| == K
    requires PackedWeights(Wp, w, Q, K) && forall n, k :: 0 <= n < 4 * Q && 0 <= k < K ==> Int8(w(n, k))
    requires x2t.Length0 == (|X| + 1) / 2 && x2t.Length1 == K / 2 && x2t.Length2 == 2 && sx.Length == 2 * x2t.Length0
    requires ws != x2t && ws.Length1 == kcWanted / 2 && ws.Length2 == 4 && acc.Length2 == 8 && cpb <= acc.Length0
    requires var qb := QuadsPerGroup(Q, wb, if K < kcWanted then K else kcWanted); qb <= ws.Length0 && qb <= acc.Length1
    requires y.Length0 == |X| && y.Length1 == 4 * Q
    modifies x2t, sx, ws, acc, y
    ensures forall c, n :: 0 <= c < |X| && 0 <= n < 4 * Q ==>
      y[c, n] == Dot(w, Acts(X, XRange(K, 128)), n, c, K) as real * (AbsMax(X[c]) / XRange(K, 128) as real * sw(n))
    ensures forall c, n :: 0 <= c < |X| && 0 <= n < 4 * Q ==>
      XRange(K, 128) > 0 && NearProduct(y[c, n], w, X[c], n, XRange(K, 128), sw(n))
  {
    hide NearProduct;
    hide Unpacked;
    hide PackedWeights;
    hide Columns;
    hide Bounded;
    hide AbsMax;
    hide Acts;
    hide Dot;
    hide XRange;
    var R := XRange(K, 128);
    PositiveRange(K);
    ghost var g := Product(w, Acts(X, R), Q, |X|, K, R);
    TileProblemOk(g, X, R);
    QuantizeColumns(X, x2t, sx, g, R);
    var kc := if K < kcWanted then K else kcWanted;
    var qb := QuadsPerGroup(Q, wb, kc);
    var g0 := 0;
    while g0 < Q
      invariant 0 <= g0 <= Q && Columns(x2t, g)
      invariant forall c :: 0 <= c < |X| ==> sx[c] == AbsMax(X[c]) / R as real
      invariant Stored(y, g, sx[..], sw, 0, |X|, 0, 4 * g0)
      decreases Q - g0
    {
      var g1 := if g0 + qb < Q then g0 + qb else Q;
      Group(Wp, x2t, ws, acc, y, sx, sw, g, K, kc, cpb, qb, g0, g1);
      g0 := g1;
    }
    forall c, n | 0 <= c < |X| && 0 <= n < 4 * Q ensures NearProduct(y[c, n], w, X[c], n, R, sw(n)) {
      ProductNear(w, X, n, c, R, sw(n), y[c, n]);
    }
  }

  lemma PositiveRange(K: nat)
    requires 0 < K && 128 * K <= 0x7FFF_FFFF
    ensures 0 < XRange(K, 128) <= 32767
  {
    XRangeSafe(K, 128);
    if XRange(K, 128) == 0 {
      XRangeWidest(K, 128, 1);
    }
  }

  lemma TileProblemOk(g: Product, X: seq<seq<real>>, R: int)
    requires 0 < g.K && g.R == R == XRange(g.K, 128) > 0 && Problem(g, X, R)
    requires forall n, k :: 0 <= n < 4 * g.Q && 0 <= k < g.K ==> Int8(g.w(n, k))
    ensures g.Ok()
  {
    hide Quantized;
    XRangeSafe(g.K, 128);
    forall c | 0 <= c < 2 * ((g.T + 1) / 2) ensures InRange(g.x, c, g.K, R) {
      forall k | 0 <= k < g.K ensures -R <= g.x(c, k) <= R {
        if c < |X| { QuantizedInRange(X[c], R, k); }
      }
    }
    forall n | 0 <= n < 4 * g.Q ensures RowFits(g.w, n, g.K, R) {
      MagnitudeFits(g.w, n, g.K, 128, R);
    }
  }
}
