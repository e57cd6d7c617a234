/**
 The discrete Fourier transform as a definition, and the two facts the fast forms rest on:
 in-order butterfly stages over bit-reversed data compute it, and the conjugate transform undoes it.
 */
module Dft {
  import opened Complex
  import opened Powers
  import Index

  /** The first `n` terms of sum_j x[j] * w^(j * k). */
  function PartialDft(x: seq<Complex>, w: int -> Complex, k: int, n: nat): Complex
    requires n <= |x|
  {
    if n == 0 then ZERO else Add(PartialDft(x, w, k, n - 1), Mul(x[n - 1], w(k * (n - 1))))
  }

  /** The definition of the transform: output k of the sequence `x` under the root `w`. */
  function DftAt(x: seq<Complex>, w: int -> Complex, k: int): Complex
  {
    PartialDft(x, w, k, |x|)
  }

  lemma {:induction false} PartialDftIsEval(x: seq<Complex>, w: int -> Complex, half: int, k: int, n: nat)
    requires IsRoot(w, half) && n <= |x|
    ensures PartialDft(x, w, k, n) == Eval(x[..n], w(k))
  {
    hide Mul;
    if n > 0 {
      PartialDftIsEval(x, w, half, k, n - 1);
      assert x[..n] == x[..n - 1] + [x[n - 1]];
      EvalConcat(x[..n - 1], [x[n - 1]], w, half, k);
      EvalOne(x[n - 1], w(k));
      MulComm(x[n - 1], w(k * (n - 1)));
    }
  }

  lemma EvalOne(c: Complex, z: Complex)
    ensures Eval([c], z) == c
  {
    hide Mul;
    assert Eval([c][1..], z) == ZERO;
    MulUnit(z);
  }

  /** The transform is evaluation of the coefficient polynomial at the k-th power of the root. */
  lemma DftIsEval(x: seq<Complex>, w: int -> Complex, half: int, k: int)
    requires IsRoot(w, half)
    ensures DftAt(x, w, k) == Eval(x, w(k))
  {
    PartialDftIsEval(x, w, half, k, |x|);
    assert x[..|x|] == x;
  }

  // --- bit reversal ---

  /** The index whose `bits` low bits are those of `i` in reverse order. */
  function Rev(i: nat, bits: nat): (r: nat)
    ensures r < Pow2(bits)
  {
    if bits == 0 then 0 else (if i % 2 == 0 then 0 else Pow2(bits - 1)) + Rev(i / 2, bits - 1)
  }

  lemma {:induction false} RevTopBit(t: nat, r: nat, bits: nat)
    requires bits > 0 && t < 2 && r < Pow2(bits - 1)
    ensures Rev(r + (if t == 0 then 0 else Pow2(bits - 1)), bits) == t + 2 * Rev(r, bits - 1)
  {
    var i := r + (if t == 0 then 0 else Pow2(bits - 1));
    if bits > 1 {
      assert i % 2 == r % 2 && i / 2 == r / 2 + (if t == 0 then 0 else Pow2(bits - 2));
      RevTopBit(t, r / 2, bits - 1);
    } else {
      assert Rev(i / 2, 0) == 0;
    }
  }

  /** Bit reversal is an involution, hence a permutation of [0, 2^bits). */
  lemma {:induction false} RevInvolution(i: nat, bits: nat)
    requires i < Pow2(bits)
    ensures Rev(Rev(i, bits), bits) == i
  {
    if bits > 0 {
      RevInvolution(i / 2, bits - 1);
      RevTopBit(i % 2, Rev(i / 2, bits - 1), bits);
    }
  }

  lemma RevInjective(i: nat, j: nat, bits: nat)
    requires i < Pow2(bits) && j < Pow2(bits) && Rev(i, bits) == Rev(j, bits)
    ensures i == j
  {
    RevInvolution(i, bits);
    RevInvolution(j, bits);
  }

  /** The sequence whose element i sits at the bit-reversed index of `a`. */
  function Unscramble(a: seq<Complex>, bits: nat): (r: seq<Complex>)
    requires |a| == Pow2(bits)
  {
    seq(|a|, i requires 0 <= i < |a| => a[Rev(i, bits)])
  }

  lemma UnscrambleHalves(a: seq<Complex>, bits: nat)
    requires bits > 0 && |a| == Pow2(bits)
    ensures EvenPart(Unscramble(a, bits)) == Unscramble(a[..Pow2(bits - 1)], bits - 1)
    ensures OddPart(Unscramble(a, bits)) == Unscramble(a[Pow2(bits - 1)..], bits - 1)
  {
    hide Rev;
    forall i: nat | i < Pow2(bits - 1)
      ensures Rev(2 * i, bits) == Rev(i, bits - 1) && Rev(2 * i + 1, bits) == Pow2(bits - 1) + Rev(i, bits - 1)
    {
      RevDouble(i, bits);
    }
  }

  lemma RevDouble(i: nat, bits: nat)
    requires bits > 0
    ensures Rev(2 * i, bits) == Rev(i, bits - 1)
    ensures Rev(2 * i + 1, bits) == Pow2(bits - 1) + Rev(i, bits - 1)
  {
    assert (2 * i) / 2 == i && (2 * i + 1) / 2 == i;
  }

  // --- butterfly stages ---

  /** One block of 2 * half positions, its two halves combined with twiddles w^(j * c). */
  function Block(b: seq<Complex>, half: nat, w: int -> Complex, c: int): (r: seq<Complex>)
    requires |b| == 2 * half
    ensures |r| == |b|
  {
    seq(|b|, k requires 0 <= k < |b| =>
      if k < half then Add(b[k], Mul(b[k + half], w(k * c)))
      else Sub(b[k - half], Mul(b[k], w((k - half) * c))))
  }

  /** One stage: every one of `n` consecutive blocks combined. */
  function Stage(a: seq<Complex>, n: nat, half: nat, w: int -> Complex, c: int): (r: seq<Complex>)
    requires |a| == n * (2 * half)
    ensures |r| == |a|
  {
    if n == 0 then []
    else
      assert |a| == (n - 1) * (2 * half) + 2 * half by { Index.MulAdd(n - 1, 1, 2 * half); }
      Index.MulNonneg(n - 1, 2 * half);
      Block(a[..2 * half], half, w, c) + Stage(a[2 * half..], n - 1, half, w, c)
  }

  /** Stages 1..s over `n` runs of 2^s positions; the last stage's twiddles are w^(j * c). */
  function Stages(a: seq<Complex>, s: nat, n: nat, w: int -> Complex, c: int): (r: seq<Complex>)
    requires |a| == n * Pow2(s)
    ensures |r| == |a|
    decreases s
  {
    if s == 0 then a
    else
      assert |a| == (n * 2) * Pow2(s - 1) by { Index.MulAssoc(n, 2, Pow2(s - 1)); }
      Stage(Stages(a, s - 1, n * 2, w, 2 * c), n, Pow2(s - 1), w, c)
  }

  lemma {:induction false} StageSplit(l: seq<Complex>, nl: nat, r: seq<Complex>, nr: nat, half: nat, w: int -> Complex,
                                      c: int)
    requires |l| == nl * (2 * half) && |r| == nr * (2 * half)
    ensures |l + r| == (nl + nr) * (2 * half)
    ensures Stage(l + r, nl + nr, half, w, c) == Stage(l, nl, half, w, c) + Stage(r, nr, half, w, c)
    decreases nl
  {
    hide Block;
    Index.MulAdd(nl, nr, 2 * half);
    if nl == 0 {
      assert l + r == r;
    } else {
      Index.MulAdd(nl - 1, 1, 2 * half);
      Index.MulNonneg(nl - 1, 2 * half);
      var t := l[2 * half..];
      StageSplit(t, nl - 1, r, nr, half, w, c);
      assert (l + r)[2 * half..] == t + r;
      assert (l + r)[..2 * half] == l[..2 * half];
    }
  }

  lemma {:induction false} StagesSplit(l: seq<Complex>, nl: nat, r: seq<Complex>, nr: nat, s: nat, w: int -> Complex,
                                       c: int)
    requires |l| == nl * Pow2(s) && |r| == nr * Pow2(s)
    ensures |l + r| == (nl + nr) * Pow2(s)
    ensures Stages(l + r, s, nl + nr, w, c) == Stages(l, s, nl, w, c) + Stages(r, s, nr, w, c)
    decreases s
  {
    hide Stage;
    Index.MulAdd(nl, nr, Pow2(s));
    if s > 0 {
      var h := Pow2(s - 1);
      Index.MulAssoc(nl, 2, h);
      Index.MulAssoc(nr, 2, h);
      Index.MulAssoc(nl + nr, 2, h);
      StagesSplit(l, nl * 2, r, nr * 2, s - 1, w, 2 * c);
      assert nl * 2 + nr * 2 == (nl + nr) * 2;
      StageSplit(Stages(l, s - 1, nl * 2, w, 2 * c), nl, Stages(r, s - 1, nr * 2, w, 2 * c), nr, h, w, c);
    }
  }

  /** The butterfly identity: evaluation through the two half-size evaluations. */
  lemma EvalThroughHalves(p: seq<Complex>, w: int -> Complex, m: int, t: int)
    requires IsRoot(w, m)
    ensures Eval(p, w(t)) == Add(Eval(EvenPart(p), w(2 * t)), Mul(Eval(OddPart(p), w(2 * t)), w(t)))
    ensures Eval(p, w(t + m)) == Sub(Eval(EvenPart(p), w(2 * t)), Mul(Eval(OddPart(p), w(2 * t)), w(t)))
  {
    hide Mul;
    hide Eval;
    hide IsRoot;
    hide EvenPart;
    hide OddPart;
    var z, o := w(t), Eval(OddPart(p), w(2 * t));
    RootSquare(w, m, t);
    EvalEvenOdd(p, z);
    MulComm(z, o);
    RootHalfTurn(w, m, t);
    EvalEvenOdd(p, Neg(z));
    MulNeg(z, Neg(z));
    MulNeg(z, z);
    assert Neg(Neg(Mul(z, z))) == Mul(z, z);
    MulNeg(z, o);
  }

  /** The last stage of one run: two half-size results combined. */
  lemma StagesHalves(a: seq<Complex>, s: nat, w: int -> Complex, c: int)
    requires s > 0 && |a| == Pow2(s)
    ensures
      var h := Pow2(s - 1);
      Stages(a, s, 1, w, c)
        == Block(Stages(a[..h], s - 1, 1, w, 2 * c) + Stages(a[h..], s - 1, 1, w, 2 * c), h, w, c)
  {
    hide Block;
    var h := Pow2(s - 1);
    assert a == a[..h] + a[h..];
    StagesSplit(a[..h], 1, a[h..], 1, s - 1, w, 2 * c);
    var b := Stages(a, s - 1, 2, w, 2 * c);
    assert Stage(b, 1, h, w, c) == Block(b[..2 * h], h, w, c) + [];
    assert b[..2 * h] == b;
  }

  /** After s stages position k holds the transform of the unscrambled run, at the root of its size. */
  lemma {:induction false} StagesAreDft(a: seq<Complex>, s: nat, w: int -> Complex, m: int, c: int, k: nat)
    requires |a| == Pow2(s) && IsRoot(w, m) && k < |a|
    requires s > 0 ==> Pow2(s - 1) * c == m
    ensures Stages(a, s, 1, w, c)[k] == Eval(Unscramble(a, s), w(k * c))
    decreases s
  {
    hide Mul;
    hide Eval;
    hide IsRoot;
    hide Unscramble;
    hide Block;
    hide Stages;
    if s == 0 {
      StagesOfOne(a, w, c, k);
    } else {
      var h := Pow2(s - 1);
      var j := if k < h then k else k - h;
      if s > 1 { Index.MulAssoc(Pow2(s - 2), 2, c); }
      StagesAreDft(a[..h], s - 1, w, m, 2 * c, j);
      StagesAreDft(a[h..], s - 1, w, m, 2 * c, j);
      StagesHalves(a, s, w, c);
      CombineHalves(a, s, w, m, c, k, j, Stages(a[..h], s - 1, 1, w, 2 * c), Stages(a[h..], s - 1, 1, w, 2 * c));
    }
  }

  lemma StagesOfOne(a: seq<Complex>, w: int -> Complex, c: int, k: nat)
    requires |a| == 1 && k < |a|
    ensures Stages(a, 0, 1, w, c)[k] == Eval(Unscramble(a, 0), w(k * c))
  {
    assert Unscramble(a, 0) == [a[0]];
    EvalOne(a[0], w(k * c));
  }

  /** An entry of a block, from the halves. */
  lemma BlockOfHalves(l: seq<Complex>, r: seq<Complex>, w: int -> Complex, c: int, k: nat, j: nat)
    requires |l| == |r| && k < 2 * |l| && j == if k < |l| then k else k - |l|
    ensures Block(l + r, |l|, w, c)[k] == if k < |l|
                                          then Add(l[j], Mul(r[j], w(j * c))) else Sub(l[j], Mul(r[j], w(j * c)))
  {
  }

  lemma CombineHalves(a: seq<Complex>, s: nat, w: int -> Complex, m: int, c: int, k: nat, j: nat,
                      l: seq<Complex>, r: seq<Complex>)
    requires s > 0 && |a| == Pow2(s) && IsRoot(w, m) && Pow2(s - 1) * c == m && |l| == |r| == Pow2(s - 1)
    requires k < |a| && j == (if k < Pow2(s - 1) then k else k - Pow2(s - 1))
    requires l[j] == Eval(Unscramble(a[..Pow2(s - 1)], s - 1), w(j * (2 * c)))
    requires r[j] == Eval(Unscramble(a[Pow2(s - 1)..], s - 1), w(j * (2 * c)))
    ensures Block(l + r, Pow2(s - 1), w, c)[k] == Eval(Unscramble(a, s), w(k * c))
  {
    hide Mul;
    hide Eval;
    hide IsRoot;
    hide Unscramble;
    hide EvenPart;
    hide OddPart;
    hide Block;
    var h := Pow2(s - 1);
    UnscrambleHalves(a, s);
    EvalThroughHalves(Unscramble(a, s), w, m, j * c);
    assert j * (2 * c) == 2 * (j * c);
    Index.MulAdd(j, h, c);
    BlockOfHalves(l, r, w, c, k, j);
  }

  // --- inversion ---

  /** The |x| outputs of the transform of `x` at the powers of w^c. */
  function Spectrum(x: seq<Complex>, w: int -> Complex, c: int): (r: seq<Complex>)
  {
    seq(|x|, k requires 0 <= k < |x| => Eval(x, w(k * c)))
  }

  lemma EvenOddLengths(x: seq<Complex>, h: nat)
    requires |x| == 2 * h
    ensures |EvenPart(x)| == h && |OddPart(x)| == h
  {
  }

  lemma SpectrumAt(x: seq<Complex>, h: nat, w: int -> Complex, m: int, c: int, k: nat)
    requires |x| == 2 * h && IsRoot(w, m) && h * c == m && k < h
    ensures
      var S, e, o := Spectrum(x, w, c), Spectrum(EvenPart(x), w, 2 * c), Spectrum(OddPart(x), w, 2 * c);
      && S[k] == Add(e[k], Mul(o[k], w(c * (0 + k))))
      && S[h + k] == Sub(e[k], Mul(o[k], w(c * (0 + k))))
  {
    hide Mul;
    hide Eval;
    hide IsRoot;
    hide EvenPart;
    hide OddPart;
    EvenOddLengths(x, h);
    EvalThroughHalves(x, w, m, k * c);
    Index.MulAdd(h, k, c);
    assert k * (2 * c) == 2 * (k * c);
  }

  lemma SpectrumHalves(x: seq<Complex>, h: nat, w: int -> Complex, m: int, c: int)
    requires |x| == 2 * h && IsRoot(w, m) && h * c == m
    ensures
      var S, e, o := Spectrum(x, w, c), Spectrum(EvenPart(x), w, 2 * c), Spectrum(OddPart(x), w, 2 * c);
      && MapAdd(S[..h], S[h..]) == MapScale(2.0, e)
      && MapSub(S[..h], S[h..]) == MapScale(2.0, Twist(o, w, c, 0))
  {
    hide Mul;
    hide Spectrum;
    hide IsRoot;
    assert |Spectrum(x, w, c)| == 2 * h && |Spectrum(EvenPart(x), w, 2 * c)| == h
        && |Spectrum(OddPart(x), w, 2 * c)| == h by {
      SpectrumLength(x, w, c);
      SpectrumLength(EvenPart(x), w, 2 * c);
      SpectrumLength(OddPart(x), w, 2 * c);
    }
    var S, e, o := Spectrum(x, w, c), Spectrum(EvenPart(x), w, 2 * c), Spectrum(OddPart(x), w, 2 * c);
    var t := Twist(o, w, c, 0);
    forall k: nat | k < h
      ensures Add(S[..h][k], S[h..][k]) == Scale(2.0, e[k])
      ensures Sub(S[..h][k], S[h..][k]) == Scale(2.0, t[k])
    {
      SpectrumAt(x, h, w, m, c, k);
    }
    assert MapAdd(S[..h], S[h..]) == MapScale(2.0, e);
    assert MapSub(S[..h], S[h..]) == MapScale(2.0, t);
  }

  lemma SpectrumLength(x: seq<Complex>, w: int -> Complex, c: int)
    ensures |Spectrum(x, w, c)| == |x|
  {
  }

  /** The power of the root at even and odd multiples of its half turn. */
  lemma {:induction false} RootParity(w: int -> Complex, m: int, i: nat)
    requires IsRoot(w, m)
    ensures w(-(i * m)) == if i % 2 == 0 then ONE else Neg(ONE)
  {
    hide Mul;
    if i == 0 {
      RootZero(w, m);
    } else {
      hide IsRoot;
      RootParity(w, m, i - 1);
      RootHalfTurn(w, m, -(i * m));
      Index.MulSub(i, 1, m);
      assert Neg(Neg(w(-(i * m)))) == w(-(i * m));
    }
  }

  /** Splitting an inverse evaluation of 2 * h coefficients by the parity of the output index. */
  lemma EvalFolded(S: seq<Complex>, h: nat, w: int -> Complex, m: int, c: int, i: nat)
    requires IsRoot(w, m) && |S| == 2 * h && h * c == m
    ensures Eval(S, w(-(i * c)))
         == Eval(if i % 2 == 0 then MapAdd(S[..h], S[h..]) else MapSub(S[..h], S[h..]), w(-(i * c)))
  {
    hide Mul;
    var e := -(i * c);
    assert S[..h] + S[h..] == S;
    EvalConcat(S[..h], S[h..], w, m, e);
    assert e * h == -(i * m) by {
      Index.MulAssoc(i, c, h);
    }
    RootParity(w, m, i);
    MulUnit(Eval(S[h..], w(e)));
    EvalMapAdd(S[..h], S[h..], w(e));
  }

  /** The conjugate transform undoes the transform, up to the factor |x| == 2^s. */
  lemma {:induction false} DftInversion(x: seq<Complex>, s: nat, w: int -> Complex, m: int, c: int, i: nat)
    requires |x| == Pow2(s) && IsRoot(w, m) && i < |x|
    requires s > 0 ==> Pow2(s - 1) * c == m
    ensures Eval(Spectrum(x, w, c), w(-(i * c))) == Scale(Pow2(s) as real, x[i])
    decreases s
  {
    hide Mul;
    hide Eval;
    hide IsRoot;
    hide Spectrum;
    hide Scale;
    if s == 0 {
      InversionOfOne(x, w, c, i);
    } else {
      var h, q := Pow2(s - 1), i / 2;
      if s > 1 { Index.MulAssoc(Pow2(s - 2), 2, c); }
      if i % 2 == 0 {
        DftInversion(EvenPart(x), s - 1, w, m, 2 * c, q);
      } else {
        DftInversion(OddPart(x), s - 1, w, m, 2 * c, q);
      }
      InversionStep(x, h, w, m, c, i, q);
      ScaleTwice(h, x[i]);
    }
  }

  lemma InversionOfOne(x: seq<Complex>, w: int -> Complex, c: int, i: nat)
    requires |x| == 1 && i < |x|
    ensures Eval(Spectrum(x, w, c), w(-(i * c))) == Scale(1.0, x[i])
  {
    EvalOne(x[0], w(0 * c));
    EvalOne(x[0], w(-(i * c)));
    assert x == [x[0]] && Spectrum(x, w, c) == [x[0]];
  }

  lemma InversionStep(x: seq<Complex>, h: nat, w: int -> Complex, m: int, c: int, i: nat, q: nat)
    requires |x| == 2 * h && IsRoot(w, m) && h * c == m && i < |x| && q == i / 2
    ensures Eval(Spectrum(x, w, c), w(-(i * c)))
         == Scale(2.0, Eval(Spectrum(if i % 2 == 0 then EvenPart(x) else OddPart(x), w, 2 * c), w(-(q * (2 * c)))))
  {
    hide Mul;
    hide IsRoot;
    hide Eval;
    hide Spectrum;
    hide Twist;
    hide Scale;
    hide EvenPart;
    hide OddPart;
    EvenOddLengths(x, h);
    SpectrumLength(x, w, c);
    EvalFolded(Spectrum(x, w, c), h, w, m, c, i);
    SpectrumHalves(x, h, w, m, c);
    ExponentSplit(i, q, c);
    if i % 2 == 0 {
      EvalMapScale(2.0, Spectrum(EvenPart(x), w, 2 * c), w(-(i * c)));
    } else {
      EvalTwisted(Spectrum(OddPart(x), w, 2 * c), w, m, c, -(i * c));
    }
  }

  lemma ExponentSplit(i: nat, q: nat, c: int)
    requires q == i / 2
    ensures i % 2 == 0 ==> i * c == q * (2 * c)
    ensures i % 2 == 1 ==> i * c == q * (2 * c) + c
  {
    Index.MulAssoc(q, 2, c);
    Index.MulAdd(q * 2, i % 2, c);
    assert i == q * 2 + i % 2;
  }

  lemma EvalTwisted(o: seq<Complex>, w: int -> Complex, m: int, c: int, e: int)
    requires IsRoot(w, m)
    ensures Eval(MapScale(2.0, Twist(o, w, c, 0)), w(e)) == Scale(2.0, Eval(o, w(e + c)))
  {
    hide Mul;
    hide Eval;
    hide Twist;
    EvalMapScale(2.0, Twist(o, w, c, 0), w(e));
    EvalTwist(o, w, m, c, e, 0);
    MulUnit(Eval(o, w(e + c)));
  }

  lemma RootZero(w: int -> Complex, m: int)
    requires IsRoot(w, m)
    ensures w(0) == ONE
  {
  }

  lemma ScaleTwice(h: nat, a: Complex)
    ensures Scale(2.0, Scale(h as real, a)) == Scale((2 * h) as real, a)
  {
  }
}
