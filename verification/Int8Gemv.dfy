/**
 scripts/bench58.c and scripts/bench59.cpp: int8 products in the layout SXTB16 unpacks, (b0, b2) and (b1, b3), against
 activations packed the same way, one channel quad at a time.
 */
module Int8Gemv {
  import opened Simd32
  import opened Int8Gemm
  import Index

  /** Column c packed as SXTB16 unpacks a weight word: even words (x0, x2), odd words (x1, x3) of each four. */
  ghost predicate GemvColumn(x2: array2<Word>, x: Ints, c: nat, K: nat)
    requires c < x2.Length0 && x2.Length1 == K / 2
    reads x2
  {
    forall p :: 0 <= p < K / 2 ==> ColumnWord(x2[c, p], x, c, p)
  }

  /** The scale of a quantized column. */
  function StepOf(col: seq<real>, R: int): real
    requires R > 0
  {
    AbsMax(col) / R as real
  }

  /** Four activations into two words. */
  method QuantizeFour(col: seq<real>, m: real, x2: array2<Word>, ghost x: Ints, c: nat, R: int, h: nat)
    requires 4 * h + 4 <= |col| && c < x2.Length0 && 2 * h + 2 <= x2.Length1 && 0 < R <= 32767 && m == AbsMax(col)
    requires forall k :: 0 <= k < |col| ==> x(c, k) == Quantized(col, R, k)
    modifies x2
    ensures IsPair(x2[c, 2 * h], x(c, 4 * h), x(c, 4 * h + 2))
      && IsPair(x2[c, 2 * h + 1], x(c, 4 * h + 1), x(c, 4 * h + 3))
    ensures forall d, p :: 0 <= d < x2.Length0 && 0 <= p < x2.Length1 && !(d == c && 2 * h <= p < 2 * h + 2) ==>
      x2[d, p] == old(x2[d, p])
  {
    hide AbsMax;
    hide RoundEven;
    hide Scaled;
    hide Lo;
    hide Hi;
    hide Pack16;
    var k := 4 * h;
    var q0, q1 := RoundEven(Scaled(col[k], m, R)), RoundEven(Scaled(col[k + 1], m, R));
    var q2, q3 := RoundEven(Scaled(col[k + 2], m, R)), RoundEven(Scaled(col[k + 3], m, R));
    QuantizedInRange(col, R, k);
    QuantizedInRange(col, R, k + 1);
    QuantizedInRange(col, R, k + 2);
    QuantizedInRange(col, R, k + 3);
    x2[c, 2 * h] := Pack16(q0, q2);
    x2[c, 2 * h + 1] := Pack16(q1, q3);
  }

  /** Word p of a packed column. */
  ghost predicate ColumnWord(v: Word, x: Ints, c: nat, p: nat)
  {
    IsPair(v, x(c, p / 2 * 4 + p % 2), x(c, p / 2 * 4 + p % 2 + 2))
  }

  lemma TwoWords(v0: Word, v1: Word, x: Ints, c: nat, h: nat)
    ensures ColumnWord(v0, x, c, 2 * h) == IsPair(v0, x(c, 4 * h), x(c, 4 * h + 2))
    ensures ColumnWord(v1, x, c, 2 * h + 1) == IsPair(v1, x(c, 4 * h + 1), x(c, 4 * h + 3))
  {
    hide IsPair;
    assert 2 * h / 2 * 4 + 2 * h % 2 == 4 * h && (2 * h + 1) / 2 * 4 + (2 * h + 1) % 2 == 4 * h + 1;
  }

  /** quantize_x: one column; returns its scale. */
  method QuantizeX(col: seq<real>, x2: array2<Word>, ghost x: Ints, c: nat, R: int) returns (sx: real)
    requires |col| % 4 == 0 && c < x2.Length0 && x2.Length1 == |col| / 2 && 0 < R <= 32767
    requires forall k :: 0 <= k < |col| ==> x(c, k) == Quantized(col, R, k)
    modifies x2
    ensures GemvColumn(x2, x, c, |col|)
    ensures forall d, p :: 0 <= d < x2.Length0 && d != c && 0 <= p < x2.Length1 ==> x2[d, p] == old(x2[d, p])
    ensures sx == StepOf(col, R)
  {
    hide AbsMax;
    hide Quantized;
    hide ColumnWord;
    hide IsPair;
    var m := FindAbsMax(col);
    var n := |col| / 4;
    assert |col| == 4 * n && x2.Length1 == 2 * n;
    for h := 0 to n
      invariant forall p :: 0 <= p < 2 * h ==> ColumnWord(x2[c, p], x, c, p)
      invariant forall d, p :: 0 <= d < x2.Length0 && d != c && 0 <= p < x2.Length1 ==> x2[d, p] == old(x2[d, p])
    {
      QuantizeFour(col, m, x2, x, c, R, h);
      TwoWords(x2[c, 2 * h], x2[c, 2 * h + 1], x, c, h);
    }
    sx := m / R as real;
  }

  lemma TwoMore(w: Ints, n: int, len: nat, k1: nat, k2: nat, K: nat)
    requires len <= k1 < k2 < K
    ensures AbsSum(w, n, len) + Magnitude(w(n, k1)) + Magnitude(w(n, k2)) <= AbsSum(w, n, K)
  {
    AbsSumMono(w, n, len, k1);
    AbsSumMono(w, n, k1 + 1, k2);
    AbsSumMono(w, n, k2 + 1, K);
  }

  /** Two later products on top of a prefix sum stay inside int32. */
  lemma PairFits(w: Ints, x: Ints, n: int, c: int, len: nat, k1: nat, k2: nat, N: int, cols: int, K: nat, R: int)
    requires Bounded(w, x, N, cols, K, R) && 0 <= n < N && 0 <= c < cols && len <= k1 < k2 < K
    ensures Int32(Dot(w, x, n, c, len) + w(n, k1) * x(c, k1) + w(n, k2) * x(c, k2))
  {
    hide Dot;
    hide AbsSum;
    hide Magnitude;
    var s, a, b := AbsSum(w, n, len), Magnitude(w(n, k1)), Magnitude(w(n, k2));
    DotBound(w, x, n, c, len, K, R);
    ProductBound(w(n, k1), x(c, k1), R);
    ProductBound(w(n, k2), x(c, k2), R);
    TwoMore(w, n, len, k1, k2, K);
    RowPrefixFits(w, n, s + a + b, K, R);
    AddTerm(Dot(w, x, n, c, len), w(n, k1) * x(c, k1), s, a, R);
    AddTerm(Dot(w, x, n, c, len) + w(n, k1) * x(c, k1), w(n, k2) * x(c, k2), s + a, b, R);
  }

  /**
   The two SMLADs of one weight word: even bytes, then odd ones; neither wraps, and together they add four products.
   */
  lemma WordStep(w: Ints, x: Ints, n: int, c: int, k: nat, N: int, cols: int, K: nat, R: int, v: Word, xe: Word,
                 xo: Word)
    requires Bounded(w, x, N, cols, K, R) && 0 <= n < N && 0 <= c < cols && k + 4 <= K
    requires v == WordOf(w(n, k), w(n, k + 1), w(n, k + 2), w(n, k + 3))
    requires IsPair(xe, x(c, k), x(c, k + 2)) && IsPair(xo, x(c, k + 1), x(c, k + 3))
    ensures Smlad(Sxtb16Ror8(v), xo, Smlad(Sxtb16(v), xe, Dot(w, x, n, c, k))) == Dot(w, x, n, c, k + 4)
    ensures Smlad(Sxtb16(v), xe, Dot(w, x, n, c, k)) ==
      Dot(w, x, n, c, k) + w(n, k) * x(c, k) + w(n, k + 2) * x(c, k + 2)
  {
    hide WordOf;
    hide Sxtb16;
    hide Sxtb16Ror8;
    SxtbOfWord(w(n, k), w(n, k + 1), w(n, k + 2), w(n, k + 3));
    PairFits(w, x, n, c, k, k, k + 2, N, cols, K, R);
    DotFits(w, x, n, c, k + 4, N, cols, K, R);
    FourProducts(w, x, n, c, k);
  }

  /**
   Without a bound on the weights the two SMLADs still add the four products, wrapped: a kernel's sum is the product
   modulo 2^32.
   */
  lemma WordWraps(w: Ints, x: Ints, n: int, c: int, k: nat, v: Word, xe: Word, xo: Word)
    requires Int8(w(n, k)) && Int8(w(n, k + 1)) && Int8(w(n, k + 2)) && Int8(w(n, k + 3))
    requires v == WordOf(w(n, k), w(n, k + 1), w(n, k + 2), w(n, k + 3))
    requires IsPair(xe, x(c, k), x(c, k + 2)) && IsPair(xo, x(c, k + 1), x(c, k + 3))
    ensures Smlad(Sxtb16Ror8(v), xo, Smlad(Sxtb16(v), xe, Wrap32(Dot(w, x, n, c, k)))) == Wrap32(Dot(w, x, n, c, k + 4))
  {
    hide WordOf;
    hide Sxtb16;
    hide Sxtb16Ror8;
    hide Wrap32;
    SxtbOfWord(w(n, k), w(n, k + 1), w(n, k + 2), w(n, k + 3));
    FourProducts(w, x, n, c, k);
    hide Dot;
    var d, a, b := Dot(w, x, n, c, k), w(n, k) * x(c, k) + w(n, k + 2) * x(c, k + 2), w(n, k + 1) * x(c, k + 1)
      + w(n, k + 3) * x(c, k + 3);
    WrapAdd(d, a);
    WrapAdd(d + a, b);
  }

  lemma FourProducts(w: Ints, x: Ints, n: int, c: int, k: nat)
    ensures Dot(w, x, n, c, k + 4) == Dot(w, x, n, c, k) + w(n, k) * x(c, k) + w(n, k + 2) * x(c, k + 2)
                                      + (w(n, k + 1) * x(c, k + 1) + w(n, k + 3) * x(c, k + 3))
  {
    assert Dot(w, x, n, c, k + 2) == Dot(w, x, n, c, k + 1) + w(n, k + 1) * x(c, k + 1);
    assert Dot(w, x, n, c, k + 3) == Dot(w, x, n, c, k + 2) + w(n, k + 2) * x(c, k + 2);
    assert Dot(w, x, n, c, k + 4) == Dot(w, x, n, c, k + 3) + w(n, k + 3) * x(c, k + 3);
  }

  /** The integer product: 4 Q weight rows, `cols` activation columns, K products. */
  datatype Gemv = Gemv(w: Ints, x: Ints, Q: nat, cols: nat, K: nat, R: int)
  {
    ghost predicate Ok() { Int8Channels(w, Q, K) && K % 4 == 0 }

    /** No sum overflows. */
    ghost predicate Fits() { Bounded(w, x, 4 * Q, cols, K, R) }
  }

  ghost predicate Int8Channels(w: Ints, Q: nat, K: nat)
  {
    forall n, k :: 0 <= n < 4 * Q && 0 <= k < K ==> Int8(w(n, k))
  }

  /** The four accumulators of quad q and column c after k products: the products modulo 2^32. */
  ghost predicate QuadAt(acc: array<int>, g: Gemv, q: int, c: int, k: nat)
    requires acc.Length == 4
    reads acc
  {
    forall j :: 0 <= j < 4 ==> acc[j] == Wrap32(Dot(g.w, g.x, 4 * q + j, c, k))
  }

  /** The products themselves. */
  ghost predicate QuadExact(acc: array<int>, g: Gemv, q: int, c: int)
    requires acc.Length == 4
    reads acc
  {
    forall j :: 0 <= j < 4 ==> acc[j] == Dot(g.w, g.x, 4 * q + j, c, g.K)
  }

  lemma FitsIsExact(acc: array<int>, g: Gemv, q: nat, c: nat)
    requires acc.Length == 4 && q < g.Q && c < g.cols && g.Fits() && QuadAt(acc, g, q, c, g.K)
    ensures QuadExact(acc, g, q, c)
  {
    hide Dot;
    hide Bounded;
    forall j | 0 <= j < 4 ensures acc[j] == Dot(g.w, g.x, 4 * q + j, c, g.K) {
      DotFits(g.w, g.x, 4 * q + j, c, g.K, 4 * g.Q, g.cols, g.K, g.R);
    }
  }

  lemma ColumnWords(x2: array2<Word>, x: Ints, c: nat, K: nat, m: nat)
    requires c < x2.Length0 && x2.Length1 == K / 2 && GemvColumn(x2, x, c, K) && m < K / 4
    ensures IsPair(x2[c, 2 * m], x(c, 4 * m), x(c, 4 * m + 2))
      && IsPair(x2[c, 2 * m + 1], x(c, 4 * m + 1), x(c, 4 * m + 3))
  {
    hide IsPair;
    hide ColumnWord;
    TwoWords(x2[c, 2 * m], x2[c, 2 * m + 1], x, c, m);
  }

  /** One lane of a k-word. */
  method Lane(v: Word, xe: Word, xo: Word, a: int, ghost g: Gemv, ghost n: nat, ghost c: nat, ghost k: nat)
    returns (r: int)
    requires g.Ok() && n < 4 * g.Q && k + 4 <= g.K && a == Wrap32(Dot(g.w, g.x, n, c, k))
    requires v == WordOf(g.w(n, k), g.w(n, k + 1), g.w(n, k + 2), g.w(n, k + 3))
    requires IsPair(xe, g.x(c, k), g.x(c, k + 2)) && IsPair(xo, g.x(c, k + 1), g.x(c, k + 3))
    ensures r == Wrap32(Dot(g.w, g.x, n, c, k + 4))
  {
    hide Wrap32;
    hide Dot;
    hide WordOf;
    hide IsPair;
    hide Sxtb16;
    hide Sxtb16Ror8;
    hide Smlad;
    WordWraps(g.w, g.x, n, c, k, v, xe, xo);
    r := Smlad(Sxtb16(v), xe, a);
    r := Smlad(Sxtb16Ror8(v), xo, r);
  }

  /** One k-word of a quad: two SMLADs a channel. */
  method KWord(Wp: Packed, x2: array2<Word>, acc: array<int>, ghost g: Gemv, q: nat, c: nat, m: nat)
    requires g.Ok() && PackedWeights(Wp, g.w, g.Q, g.K) && q < g.Q && c < g.cols == x2.Length0 && x2.Length1 == g.K / 2
      && m < g.K / 4
    requires GemvColumn(x2, g.x, c, g.K) && acc.Length == 4 && QuadAt(acc, g, q, c, 4 * m)
    modifies acc
    ensures QuadAt(acc, g, q, c, 4 * (m + 1))
  {
    hide Dot;
    hide WordOf;
    hide IsPair;
    hide Wrap32;
    hide Gemv.Ok;
    hide GemvColumn;
    var xe, xo := x2[c, 2 * m], x2[c, 2 * m + 1];
    ColumnWords(x2, g.x, c, g.K, m);
    for j := 0 to 4
      invariant forall l :: 0 <= l < j ==> acc[l] == Wrap32(Dot(g.w, g.x, 4 * q + l, c, 4 * m + 4))
      invariant forall l :: j <= l < 4 ==> acc[l] == Wrap32(Dot(g.w, g.x, 4 * q + l, c, 4 * m))
    {
      acc[j] := Lane(Wp(q, m, j), xe, xo, acc[j], g, 4 * q + j, c, 4 * m);
    }
  }

  /** gemv4_i8: one k-word a pass. */
  method Gemv4(Wp: Packed, x2: array2<Word>, acc: array<int>, ghost g: Gemv, q: nat, c: nat, count: nat)
    requires g.Ok() && PackedWeights(Wp, g.w, g.Q, g.K) && q < g.Q && c < g.cols == x2.Length0 && x2.Length1 == g.K / 2
      && count == g.K / 4
    requires GemvColumn(x2, g.x, c, g.K) && acc.Length == 4
    modifies acc
    ensures QuadAt(acc, g, q, c, g.K) && (g.Fits() ==> QuadExact(acc, g, q, c))
  {
    hide PackedWeights;
    hide GemvColumn;
    hide Gemv.Fits;
    hide QuadAt;
    hide QuadExact;
    acc[0], acc[1], acc[2], acc[3] := 0, 0, 0, 0;
    NoProductsYet(acc, g, q, c);
    GemvWords(g, count);
    for m := 0 to count
      invariant GemvColumn(x2, g.x, c, g.K) && QuadAt(acc, g, q, c, 4 * m)
    {
      KWord(Wp, x2, acc, g, q, c, m);
    }
    if g.Fits() { FitsIsExact(acc, g, q, c); }
  }

  /** gemv4_i8u2: two k-words a pass; the count is even. */
  method Gemv4U2(Wp: Packed, x2: array2<Word>, acc: array<int>, ghost g: Gemv, q: nat, c: nat, count: nat)
    requires g.Ok() && PackedWeights(Wp, g.w, g.Q, g.K) && q < g.Q && c < g.cols == x2.Length0 && x2.Length1 == g.K / 2
      && count == g.K / 4
    requires GemvColumn(x2, g.x, c, g.K) && acc.Length == 4 && count % 2 == 0
    modifies acc
    ensures QuadAt(acc, g, q, c, g.K) && (g.Fits() ==> QuadExact(acc, g, q, c))
  {
    hide PackedWeights;
    hide GemvColumn;
    hide Gemv.Fits;
    hide QuadAt;
    hide QuadExact;
    acc[0], acc[1], acc[2], acc[3] := 0, 0, 0, 0;
    assert QuadAt(acc, g, q, c, 4 * 0) by { NoProductsYet(acc, g, q, c); }
    GemvWords(g, count);
    var m := 0;
    while m < count
      invariant 0 <= m <= count && m % 2 == 0
      invariant GemvColumn(x2, g.x, c, g.K) && QuadAt(acc, g, q, c, 4 * m)
    {
      KWord(Wp, x2, acc, g, q, c, m);
      KWord(Wp, x2, acc, g, q, c, m + 1);
      m := m + 2;
    }
    if g.Fits() { FitsIsExact(acc, g, q, c); }
  }

  lemma NoProductsYet(acc: array<int>, g: Gemv, q: int, c: int)
    requires acc.Length == 4 && acc[0] == acc[1] == acc[2] == acc[3] == 0
    ensures QuadAt(acc, g, q, c, 4 * 0)
  {
  }

  lemma GemvWords(g: Gemv, count: nat)
    requires g.Ok() && count == g.K / 4
    ensures 4 * count == g.K
  {
  }

  /** An integer sum modulo 2^32, scaled once. */
  function Output(d: int, sx: real, sw: real): real { Wrap32(d) as real * (sx * sw) }

  /** Output (column c, channel n). */
  function Out(g: Gemv, sx: real, sw: int -> real, c: int, n: int): real
  {
    Output(Dot(g.w, g.x, n, c, g.K), sx, sw(n))
  }

  lemma OutIs(g: Gemv, sw: int -> real)
    ensures forall sx, c, n :: Out(g, sx, sw, c, n) == Wrap32(Dot(g.w, g.x, n, c, g.K)) as real * (sx * sw(n))
  {
  }

  /**
   What an output is, d being the integer sum and sx * sw the scale: the sum modulo 2^32, scaled. It is the scaled sum
   if and only if the sum is an int32, a scale of zero apart.
   */
  ghost predicate OutputOf(v: real, d: int, sx: real, sw: real)
  {
    v == Output(d, sx, sw) && (v == d as real * (sx * sw) <==> Int32(d) || sx * sw == 0.0)
  }

  lemma ScaledOnce(d: int, sx: real, sw: real)
    ensures OutputOf(Output(d, sx, sw), d, sx, sw)
  {
    hide Wrap32;
    var r, s := Wrap32(d), sx * sw;
    assert Int32(d) <==> r == d;
    if r != d && s != 0.0 { Cancels(r, d, s); }
  }

  lemma Cancels(r: int, d: int, s: real)
    requires r != d && s != 0.0
    ensures r as real * s != d as real * s
  {
    assert r as real * s - d as real * s == (r - d) as real * s;
  }

  /** A row that fits its range has a sum inside int32. */
  lemma RowExact(w: Ints, x: Ints, n: int, c: int, K: nat, R: int)
    requires 0 <= R && RowFits(w, n, K, R) && InRange(x, c, K, R)
    ensures Int32(Dot(w, x, n, c, K))
  {
    DotBound(w, x, n, c, K, K, R);
    RowPrefixFits(w, n, AbsSum(w, n, K), K, R);
  }

  lemma OutputIs(g: Gemv, sx: real, sw: int -> real, c: int, n: int)
    requires 0 <= g.R && InRange(g.x, c, g.K, g.R)
    ensures OutputOf(Out(g, sx, sw, c, n), Dot(g.w, g.x, n, c, g.K), sx, sw(n))
    ensures RowFits(g.w, n, g.K, g.R) ==> Int32(Dot(g.w, g.x, n, c, g.K))
  {
    hide Dot;
    hide Output;
    hide OutputOf;
    hide RowFits;
    ScaledOnce(Dot(g.w, g.x, n, c, g.K), sx, sw(n));
    if RowFits(g.w, n, g.K, g.R) { RowExact(g.w, g.x, n, c, g.K, g.R); }
  }

  lemma OutputsAre(g: Gemv, sx: real, sw: int -> real, c: int)
    requires 0 <= g.R && InRange(g.x, c, g.K, g.R)
    ensures forall n :: OutputOf(Out(g, sx, sw, c, n), Dot(g.w, g.x, n, c, g.K), sx, sw(n))
    ensures forall n :: RowFits(g.w, n, g.K, g.R) ==> Int32(Dot(g.w, g.x, n, c, g.K))
  {
    hide Dot;
    hide Out;
    hide OutputOf;
    hide RowFits;
    hide InRange;
    forall n
      ensures OutputOf(Out(g, sx, sw, c, n), Dot(g.w, g.x, n, c, g.K), sx, sw(n))
      ensures RowFits(g.w, n, g.K, g.R) ==> Int32(Dot(g.w, g.x, n, c, g.K))
    {
      OutputIs(g, sx, sw, c, n);
    }
  }

  /** One quad of outputs of one column. */
  method QuadOut(Wp: Packed, x2: array2<Word>, sx: real, sw: int -> real, y: array2<real>, acc: array<int>,
                 ghost g: Gemv, q: nat, c: nat, u2: bool, count: nat)
    requires g.Ok() && PackedWeights(Wp, g.w, g.Q, g.K) && q < g.Q && c < g.cols == x2.Length0 && x2.Length1 == g.K / 2
      && count == g.K / 4
    requires GemvColumn(x2, g.x, c, g.K) && acc.Length == 4 && (u2 ==> count % 2 == 0)
    requires y.Length0 == g.cols && y.Length1 == 4 * g.Q
    modifies acc, y
    ensures forall n :: 4 * q <= n < 4 * q + 4 ==> y[c, n] == Out(g, sx, sw, c, n)
    ensures forall d, n :: 0 <= d < y.Length0 && 0 <= n < y.Length1 && !(d == c && 4 * q <= n < 4 * q + 4) ==>
      y[d, n] == old(y[d, n])
  {
    hide PackedWeights;
    hide GemvColumn;
    hide Gemv.Ok;
    hide Gemv.Fits;
    hide QuadExact;
    hide Wrap32;
    hide Dot;
    hide Out;
    OutIs(g, sw);
    if u2 { Gemv4U2(Wp, x2, acc, g, q, c, count); } else { Gemv4(Wp, x2, acc, g, q, c, count); }
    for j := 0 to 4
      invariant QuadAt(acc, g, q, c, g.K)
      invariant forall n :: 4 * q <= n < 4 * q + j ==> y[c, n] == Out(g, sx, sw, c, n)
      invariant forall d, n :: 0 <= d < y.Length0 && 0 <= n < y.Length1 && !(d == c && 4 * q <= n < 4 * q + j) ==>
        y[d, n] == old(y[d, n])
    {
      assert acc[j] == Wrap32(Dot(g.w, g.x, 4 * q + j, c, g.K));
      y[c, 4 * q + j] := acc[j] as real * (sx * sw(4 * q + j));
    }
  }

  /** Int8 weights, every row of which fits the range the activations are quantized to. */
  ghost predicate RowsFit(w: Ints, Q: nat, K: nat, R: int)
  {
    Int8Channels(w, Q, K) && forall n :: 0 <= n < 4 * Q ==> RowFits(w, n, K, R)
  }

  /** A product over the columns of X, quantized to R, is set up correctly. */
  lemma GemvOk(g: Gemv, X: seq<seq<real>>)
    requires 0 < g.K && g.K % 4 == 0 && 0 < g.R <= 32767 && g.x == Acts(X, g.R) && g.cols == |X|
      && Int8Channels(g.w, g.Q, g.K)
    requires forall c :: 0 <= c < |X| ==> |X[c]| == g.K
    ensures g.Ok() && forall c :: 0 <= c < |X| ==> InRange(g.x, c, g.K, g.R)
  {
    hide Quantized;
    forall c | 0 <= c < |X| ensures InRange(g.x, c, g.K, g.R) {
      forall k | 0 <= k < g.K ensures -g.R <= g.x(c, k) <= g.R {
        QuantizedInRange(X[c], g.R, k);
      }
    }
  }

  /** Weights within 127, which the range allows for, always fit; so does every int8 weight for K up to 512. */
  lemma RowsFitWhen(w: Ints, Q: nat, K: nat)
    requires 0 < K && Int8Channels(w, Q, K)
    ensures (forall n, k :: 0 <= n < 4 * Q && 0 <= k < K ==> w(n, k) != -128) ==> RowsFit(w, Q, K, XRange(K, 127))
    ensures 128 * K * XRange(K, 127) <= 0x7FFF_FFFF ==> RowsFit(w, Q, K, XRange(K, 127))
    ensures K <= 512 ==> 128 * K * XRange(K, 127) <= 0x7FFF_FFFF
  {
    hide XRange;
    var R := XRange(K, 127);
    XRangeSafe(K, 127);
    if K <= 512 { Index.MulMono(128 * K, 128 * 512, R); }
    forall n | 0 <= n < 4 * Q
      ensures (forall m, k :: 0 <= m < 4 * Q && 0 <= k < K ==> w(m, k) != -128) ==> RowFits(w, n, K, R)
      ensures 128 * K * R <= 0x7FFF_FFFF ==> RowFits(w, n, K, R)
    {
      if forall m, k :: 0 <= m < 4 * Q && 0 <= k < K ==> w(m, k) != -128 { MagnitudeFits(w, n, K, 127, R); }
      if 128 * K * R <= 0x7FFF_FFFF { MagnitudeFits(w, n, K, 128, R); }
    }
  }

  /**
   On the range for 127 no row of int8 weights overflows if and only if 128 K XRange(K, 127) fits int32; at K = 1024 it
   does not.
   */
  lemma Range127Iff(K: nat)
    requires 0 < K
    ensures (forall w: Ints :: Int8Row(w, K) ==> NeverOverflows(w, 0, K, XRange(K, 127))) <==>
      128 * K * XRange(K, 127) <= 0x7FFF_FFFF
    ensures !(128 * 1024 * XRange(1024, 127) <= 0x7FFF_FFFF)
  {
    XRangeSafe(K, 127);
    assert XRange(1024, 127) == 16513;
    hide XRange;
    hide NeverOverflows;
    Int8RowsIff(K, XRange(K, 127));
  }

  /** The range is not zero while one product per position fits. */
  lemma RangePositive(K: nat, w: nat)
    requires 0 < K && 0 < w && w * K <= 0x7FFF_FFFF
    ensures 0 < XRange(K, w) <= 32767
  {
    XRangeSafe(K, w);
    if XRange(K, w) == 0 {
      XRangeWidest(K, w, 1);
    }
  }

  lemma ColumnActs(col: seq<real>, R: int)
    ensures forall k :: 0 <= k < |col| ==> Acts([col], R)(0, k) == Quantized(col, R, k)
  {
    hide Quantized;
  }

  lemma EvenWords(K: nat)
    requires K % 8 == 0
    ensures K % 4 == 0 && K / 4 % 2 == 0
  {
    assert K == 8 * (K / 8) && K / 4 == 2 * (K / 8);
  }

  /** Where the integer sum does not overflow the output is the product, up to the rounding of the activations. */
  lemma OutputNear(v: real, w: Ints, X: seq<seq<real>>, n: int, c: nat, R: int, s: real)
    requires c < |X| && R > 0 && Int32(Dot(w, Acts(X, R), n, c, |X[c]|))
    requires OutputOf(v, Dot(w, Acts(X, R), n, c, |X[c]|), StepOf(X[c], R), s)
    ensures NearProduct(v, w, X[c], n, R, s)
  {
    hide Dot;
    hide Acts;
    hide NearProduct;
    hide AbsMax;
    ProductNear(w, X, n, c, R, s, v);
  }

  /** gemv_i8: one column against every row. */
  method GemvI8(Wp: Packed, sw: int -> real, col: seq<real>, ghost w: Ints, Q: nat, x2: array2<Word>, y: array2<real>,
                acc: array<int>, u2: bool)
    requires 0 < |col| && 127 * |col| <= 0x7FFF_FFFF && |col| % 4 == 0 && (u2 ==> |col| % 8 == 0)
    requires PackedWeights(Wp, w, Q, |col|) && Int8Channels(w, Q, |col|)
    requires x2.Length0 == 1 && x2.Length1 == |col| / 2 && y.Length0 == 1 && y.Length1 == 4 * Q && acc.Length == 4
    modifies x2, y, acc
    ensures forall n :: 0 <= n < 4 * Q ==>
      XRange(|col|, 127) > 0
      && OutputOf(y[0, n], Dot(w, Acts([col], XRange(|col|, 127)), n, 0, |col|), StepOf(col, XRange(|col|, 127)), sw(n))
    ensures forall n :: 0 <= n < 4 * Q && RowFits(w, n, |col|, XRange(|col|, 127)) ==>
      Int32(Dot(w, Acts([col], XRange(|col|, 127)), n, 0, |col|))
    ensures forall n :: 0 <= n < 4 * Q && Int32(Dot(w, Acts([col], XRange(|col|, 127)), n, 0, |col|)) ==>
      NearProduct(y[0, n], w, col, n, XRange(|col|, 127), sw(n))
  {
    hide NearProduct;
    hide PackedWeights;
    hide GemvColumn;
    hide OutputOf;
    hide Dot;
    hide XRange;
    hide StepOf;
    hide Acts;
    hide Int8Channels;
    hide RowFits;
    hide InRange;
    hide Out;
    hide Gemv.Ok;
    var K := |col|;
    if u2 { EvenWords(K); }
    var R := XRange(K, 127);
    RangePositive(K, 127);
    ghost var g := Gemv(w, Acts([col], R), Q, 1, K, R);
    GemvOk(g, [col]);
    OutIs(g, sw);
    ColumnActs(col, R);
    var sx := QuantizeX(col, x2, g.x, 0, R);
    var q := 0;
    while q < Q
      invariant 0 <= q <= Q && GemvColumn(x2, g.x, 0, K)
      invariant forall n :: 0 <= n < 4 * q ==> y[0, n] == Out(g, sx, sw, 0, n)
    {
      QuadOut(Wp, x2, sx, sw, y, acc, g, q, 0, u2, K / 4);
      q := q + 1;
    }
    OutputsAre(g, sx, sw, 0);
    forall n | 0 <= n < 4 * Q && Int32(Dot(w, g.x, n, 0, K)) ensures NearProduct(y[0, n], w, col, n, R, sw(n)) {
      OutputNear(y[0, n], w, [col], n, 0, R, sw(n));
    }
  }

  /** Columns [0, c) quantized. */
  method QuantizeAll(X: seq<seq<real>>, x2: array2<Word>, sx: array<real>, ghost x: Ints, K: nat, R: int)
    requires K % 4 == 0 && x2.Length0 == |X| == sx.Length && x2.Length1 == K / 2 && 0 < R <= 32767 && x == Acts(X, R)
    requires forall c :: 0 <= c < |X| ==> |X[c]| == K
    modifies x2, sx
    ensures forall c :: 0 <= c < |X| ==> GemvColumn(x2, x, c, K) && sx[c] == StepOf(X[c], R)
  {
    hide ColumnWord;
    hide AbsMax;
    hide Quantized;
    for c := 0 to |X|
      invariant forall d :: 0 <= d < c ==> GemvColumn(x2, x, d, K) && sx[d] == StepOf(X[d], R)
    {
      label Here:
      sx[c] := QuantizeX(X[c], x2, x, c, R);
      forall d | 0 <= d < c ensures GemvColumn(x2, x, d, K) {
        assert old@Here(GemvColumn(x2, x, d, K));
        forall p | 0 <= p < K / 2 ensures ColumnWord(x2[d, p], x, d, p) {
          assert x2[d, p] == old@Here(x2[d, p]);
        }
      }
    }
  }

  /** Columns [c0, c1), channels [n0, n1) of y are final. */
  ghost predicate Stored(y: array2<real>, g: Gemv, sx: seq<real>, sw: int -> real, c0: nat, c1: nat, n0: nat, n1: nat)
    requires c1 <= y.Length0 && n1 <= y.Length1 && c1 <= |sx|
    reads y
  {
    forall c, n :: c0 <= c < c1 && n0 <= n < n1 ==> y[c, n] == Out(g, sx[c], sw, c, n)
  }

  /** Quads [q0, q1) of columns [c0, c1): weights stay in the second-level cache, columns in the first. */
  method Block(Wp: Packed, x2: array2<Word>, sx: array<real>, sw: int -> real, y: array2<real>, acc: array<int>,
               ghost g: Gemv, q0: nat, q1: nat, c0: nat, c1: nat, count: nat)
    requires g.Ok() && PackedWeights(Wp, g.w, g.Q, g.K) && q0 <= q1 <= g.Q
      && c0 <= c1 <= g.cols == x2.Length0 == sx.Length
    requires x2.Length1 == g.K / 2 && count == g.K / 4 && count % 2 == 0 && acc.Length == 4
    requires forall c :: 0 <= c < g.cols ==> GemvColumn(x2, g.x, c, g.K)
    requires y.Length0 == g.cols && y.Length1 == 4 * g.Q && y as object != x2 && y as object != sx
    modifies acc, y
    ensures Stored(y, g, sx[..], sw, c0, c1, 4 * q0, 4 * q1)
    ensures forall c, n :: 0 <= c < y.Length0 && 0 <= n < y.Length1 && !(c0 <= c < c1 && 4 * q0 <= n < 4 * q1) ==>
      y[c, n] == old(y[c, n])
  {
    hide PackedWeights;
    hide GemvColumn;
    hide Gemv.Ok;
    hide Out;
    for q := q0 to q1
      invariant forall c :: 0 <= c < g.cols ==> GemvColumn(x2, g.x, c, g.K)
      invariant Stored(y, g, sx[..], sw, c0, c1, 4 * q0, 4 * q)
      invariant forall c, n :: 0 <= c < y.Length0 && 0 <= n < y.Length1 && !(c0 <= c < c1 && 4 * q0 <= n < 4 * q) ==>
        y[c, n] == old(y[c, n])
    {
      for c := c0 to c1
        invariant forall d :: 0 <= d < g.cols ==> GemvColumn(x2, g.x, d, g.K)
        invariant Stored(y, g, sx[..], sw, c0, c1, 4 * q0, 4 * q) && Stored(y, g, sx[..], sw, c0, c, 4 * q, 4 * q + 4)
        invariant forall d, n ::
          0 <= d < y.Length0 && 0 <= n < y.Length1 && !(c0 <= d < c1 && 4 * q0 <= n < 4 * q + 4) ==>
            y[d, n] == old(y[d, n])
      {
        QuadOut(Wp, x2, sx[c], sw, y, acc, g, q, c, true, count);
      }
    }
  }

  /** Quads [q0, q1) of every column, cb columns at a time. */
  method Rows(Wp: Packed, x2: array2<Word>, sx: array<real>, sw: int -> real, y: array2<real>, acc: array<int>,
              ghost g: Gemv, q0: nat, q1: nat, cb: nat, T: nat, count: nat)
    requires g.Ok() && PackedWeights(Wp, g.w, g.Q, g.K) && q0 <= q1 <= g.Q && T == g.cols == x2.Length0 == sx.Length
      && cb > 0
    requires x2.Length1 == g.K / 2 && count == g.K / 4 && count % 2 == 0 && acc.Length == 4
    requires forall c :: 0 <= c < g.cols ==> GemvColumn(x2, g.x, c, g.K)
    requires y.Length0 == g.cols && y.Length1 == 4 * g.Q && y as object != x2 && y as object != sx
    modifies acc, y
    ensures Stored(y, g, sx[..], sw, 0, T, 4 * q0, 4 * q1)
    ensures forall c, n :: 0 <= c < y.Length0 && 0 <= n < y.Length1 && !(4 * q0 <= n < 4 * q1) ==>
      y[c, n] == old(y[c, n])
  {
    hide PackedWeights;
    hide GemvColumn;
    hide Gemv.Ok;
    hide Out;
    var c0 := 0;
    while c0 < T
      invariant 0 <= c0 <= T
      invariant forall c :: 0 <= c < g.cols ==> GemvColumn(x2, g.x, c, g.K)
      invariant Stored(y, g, sx[..], sw, 0, c0, 4 * q0, 4 * q1)
      invariant forall c, n :: 0 <= c < y.Length0 && 0 <= n < y.Length1 && !(4 * q0 <= n < 4 * q1) ==>
        y[c, n] == old(y[c, n])
      decreases T - c0
    {
      var c1 := if c0 + cb < T then c0 + cb else T;
      Block(Wp, x2, sx, sw, y, acc, g, q0, q1, c0, c1, count);
      c0 := c1;
    }
  }

  /** How many blocks of `unit` K bytes a cache budget holds, at least one. */
  function PerPass(budget: nat, unit: nat, K: nat): (r: nat)
    requires unit > 0 && K > 0
    ensures r >= 1
  {
    Index.MulMono(1, unit, K);
    var n := budget / (unit * K);
    if n < 1 then 1 else n
  }

  /** A pass is as many blocks as fit the budget, or one. */
  lemma PassWidest(budget: nat, unit: nat, K: nat)
    requires unit > 0 && K > 0
    ensures var r := PerPass(budget, unit, K);
      (r > 1 ==> r * (unit * K) <= budget) && (r + 1) * (unit * K) > budget
  {
    Index.MulMono(1, unit, K);
    var u, r := unit * K, PerPass(budget, unit, K);
    Index.DivMod(budget, u);
    Index.MulMono(budget / u + 1, r + 1, u);
    Index.MulAdd(budget / u, 1, u);
  }

  /** gemm_i8: every output is the integer dot product, scaled once, for any block sizes. */
  method GemmI8(Wp: Packed, sw: int -> real, X: seq<seq<real>>, ghost w: Ints, Q: nat, K: nat, xblock: nat, wblock: nat,
                x2: array2<Word>, sx: array<real>, y: array2<real>, acc: array<int>)
    requires 0 < K && 127 * K <= 0x7FFF_FFFF && K % 8 == 0 && PackedWeights(Wp, w, Q, K)
    requires Int8Channels(w, Q, K)
    requires forall c :: 0 <= c < |X| ==> |X[c]| == K
    requires x2.Length0 == |X| == sx.Length && x2.Length1 == K / 2 && y.Length0 == |X| && y.Length1 == 4 * Q
      && acc.Length == 4
    requires y != sx as object
    modifies x2, sx, y, acc
    ensures forall c, n :: 0 <= c < |X| && 0 <= n < 4 * Q ==>
      XRange(K, 127) > 0
      && OutputOf(y[c, n], Dot(w, Acts(X, XRange(K, 127)), n, c, K), StepOf(X[c], XRange(K, 127)), sw(n))
    ensures forall c, n :: 0 <= c < |X| && 0 <= n < 4 * Q && RowFits(w, n, K, XRange(K, 127)) ==>
      Int32(Dot(w, Acts(X, XRange(K, 127)), n, c, K))
    ensures forall c, n :: 0 <= c < |X| && 0 <= n < 4 * Q && Int32(Dot(w, Acts(X, XRange(K, 127)), n, c, K)) ==>
      NearProduct(y[c, n], w, X[c], n, XRange(K, 127), sw(n))
  {
    hide NearProduct;
    hide PackedWeights;
    hide GemvColumn;
    hide OutputOf;
    hide Int8Channels;
    hide RowFits;
    hide InRange;
    hide Gemv.Ok;
    hide Dot;
    hide XRange;
    hide StepOf;
    hide Acts;
    hide PerPass;
    hide Out;
    EvenWords(K);
    var R := XRange(K, 127);
    RangePositive(K, 127);
    ghost var g := Gemv(w, Acts(X, R), Q, |X|, K, R);
    GemvOk(g, X);
    QuantizeAll(X, x2, sx, g.x, K, R);
    OutIs(g, sw);
    var cb, qb := PerPass(xblock, 2, K), PerPass(wblock, 4, K);
    var q0 := 0;
    while q0 < Q
      invariant 0 <= q0 <= Q
      invariant forall c :: 0 <= c < |X| ==> GemvColumn(x2, g.x, c, K) && sx[c] == StepOf(X[c], R)
      invariant Stored(y, g, sx[..], sw, 0, |X|, 0, 4 * q0)
      decreases Q - q0
    {
      var q1 := if q0 + qb < Q then q0 + qb else Q;
      Rows(Wp, x2, sx, sw, y, acc, g, q0, q1, cb, |X|, K / 4);
      q0 := q1;
    }
    forall c | 0 <= c < |X|
      ensures forall n :: 0 <= n < 4 * Q ==>
        OutputOf(y[c, n], Dot(w, g.x, n, c, K), StepOf(X[c], R), sw(n))
      ensures forall n :: 0 <= n < 4 * Q && RowFits(w, n, K, R) ==> Int32(Dot(w, g.x, n, c, K))
    {
      OutputsAre(g, sx[c], sw, c);
    }
    forall c, n | 0 <= c < |X| && 0 <= n < 4 * Q && Int32(Dot(w, g.x, n, c, K))
      ensures NearProduct(y[c, n], w, X[c], n, R, sw(n))
    {
      OutputNear(y[c, n], w, X, n, c, R, sw(n));
    }
  }
}
