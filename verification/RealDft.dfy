/**
 The transform of n == 2 * m real samples through one complex transform of size m: the even samples
 ride in the real parts and the odd samples in the imaginary parts, and the two are told apart by the
 conjugate symmetry of a real signal's spectrum.
 */
module RealDft {
  import opened Complex
  import opened Powers
  import opened Dft
  import Index

  /** The real samples as complex coefficients. */
  function Reals(x: seq<real>): (r: seq<Complex>)
  {
    seq(|x|, i requires 0 <= i < |x| => C(x[i], 0.0))
  }

  /** Sample pairs as complex numbers: (x[0] + i x[1]), (x[2] + i x[3]), ... */
  function PairUp(r: seq<Complex>): (z: seq<Complex>)
    requires |r| % 2 == 0
  {
    MapAdd(EvenPart(r), MapTimesI(OddPart(r)))
  }

  function Wrap(k: nat, m: nat): nat { if k == m then 0 else k }

  lemma EvalPairUp(x: seq<real>, z: Complex)
    requires |x| % 2 == 0
    ensures
      var r := Reals(x);
      var e, o := Eval(EvenPart(r), z), Eval(OddPart(r), z);
      && Eval(PairUp(r), z) == Add(e, TimesI(o))
      && Eval(MapConj(PairUp(r)), z) == Sub(e, TimesI(o))
  {
    hide Mul;
    hide Eval;
    var r := Reals(x);
    var e, o := EvenPart(r), OddPart(r);
    EvalMapAdd(e, MapTimesI(o), z);
    EvalMapTimesI(o, z);
    assert MapConj(PairUp(r)) == MapSub(e, MapTimesI(o));
  }

  lemma WrapRoot(w: int -> Complex, m: nat, k: nat)
    requires IsRoot(w, m) && k <= m && m > 0
    ensures w(2 * Wrap(k, m)) == w(2 * k)
    ensures Conj(w(2 * Wrap(m - k, m))) == w(2 * k)
  {
    hide Mul;
    RootFullTurn(w, m, 0);
    RootFullTurn(w, m, 2 * k - 2 * m);
    ConjOf(w, m, 2 * Wrap(m - k, m));
    assert -(2 * (m - k)) == 2 * k - 2 * m;
  }

  /** The even and odd spectra recovered from the packed one, at every k in [0, m]. */
  lemma SplitPacked(x: seq<real>, w: int -> Complex, m: nat, k: nat)
    requires |x| == 2 * m && m > 0 && IsRoot(w, m) && k <= m
    ensures
      var r := Reals(x);
      var a, b := Eval(PairUp(r), w(2 * Wrap(k, m))), Conj(Eval(PairUp(r), w(2 * Wrap(m - k, m))));
      var e, o := Eval(EvenPart(r), w(2 * k)), Eval(OddPart(r), w(2 * k));
      && a == Add(e, TimesI(o)) && b == Sub(e, TimesI(o))
  {
    hide Mul;
    hide Eval;
    hide IsRoot;
    var z := PairUp(Reals(x));
    WrapRoot(w, m, k);
    EvalPairUp(x, w(2 * k));
    EvalMapConj(z, w(2 * Wrap(m - k, m)));
  }

  /** What one bin of the real transform is, in terms of the recovered spectra. */
  lemma BinFromHalves(x: seq<real>, w: int -> Complex, m: nat, k: nat)
    requires |x| == 2 * m && IsRoot(w, m)
    ensures
      var r := Reals(x);
      DftAt(r, w, k) == Add(Eval(EvenPart(r), w(2 * k)), Mul(w(k), Eval(OddPart(r), w(2 * k))))
  {
    hide Mul;
    hide Eval;
    hide DftAt;
    DftIsEval(Reals(x), w, m, k);
    RootSquare(w, m, k);
    EvalEvenOdd(Reals(x), w(k));
  }

  // --- the inverse ---

  /** The full spectrum a half spectrum stands for; the imaginary parts of bins 0 and m are dropped. */
  function Hermitian(X: seq<Complex>, m: nat): (H: seq<Complex>)
    requires m > 0 && |X| == m + 1
    ensures |H| == 2 * m
  {
    seq(2 * m, k requires 0 <= k < 2 * m =>
      if k == 0 || k == m then C(X[k].re, 0.0) else if k < m then X[k] else Conj(X[2 * m - k]))
  }

  /** The definition of the inverse real transform: sample i is (1/n) sum_k H[k] w^(-ik). */
  function RealIdft(X: seq<Complex>, w: int -> Complex, m: nat, i: int): real
    requires m > 0 && |X| == m + 1
  {
    DftAt(Hermitian(X, m), Inverse(w), i).re / (2 * m) as real
  }

  lemma IdftIsEval(H: seq<Complex>, w: int -> Complex, m: int, i: int)
    requires IsRoot(w, m)
    ensures DftAt(H, Inverse(w), i) == Eval(H, w(-i))
  {
    hide Mul;
    hide Eval;
    InverseIsRoot(w, m);
    DftIsEval(H, Inverse(w), m, i);
  }

  /** A Hermitian spectrum has a real inverse transform. */
  lemma HermitianIsReal(H: seq<Complex>, w: int -> Complex, m: nat, i: int)
    requires m > 0 && 0 <= i && |H| == 2 * m && IsRoot(w, m)
    requires H[0].im == 0.0 && forall k :: 0 < k < 2 * m ==> H[2 * m - k] == Conj(H[k])
    ensures Eval(H, w(-i)).im == 0.0
  {
    hide Mul;
    hide IsRoot;
    var z, zi, t := w(-i), w(i), H[1..];
    var u := Eval(t, z);
    assert MapConj(H) == [H[0]] + Reverse(t);
    EvalMapConj(H, z);
    assert Conj(z) == zi by { ConjOf(w, m, -i); }
    assert MapConj(H)[1..] == Reverse(t);
    EvalReverse(t, w, m, i);
    var s := w(i * (|t| - 1));
    MulAssoc(zi, s, u);
    assert Mul(zi, s) == z by { LastPower(w, m, i); }
  }

  lemma LastPower(w: int -> Complex, m: nat, i: int)
    requires 0 <= i && IsRoot(w, m)
    ensures Mul(w(i), w(i * (2 * m - 1 - 1))) == w(-i)
  {
    hide Mul;
    RootAdd(w, m, i, i * (2 * m - 2));
    Turns(w, m, i, -i);
    assert i + i * (2 * m - 2) == -i + i * (2 * m) by {
      Index.MulSub(2 * m, 2, i);
    }
  }

  lemma {:induction false} Turns(w: int -> Complex, m: nat, t: nat, e: int)
    requires IsRoot(w, m)
    ensures w(e + t * (2 * m)) == w(e)
  {
    hide Mul;
    if t > 0 {
      Turns(w, m, t - 1, e);
      RootFullTurn(w, m, e + (t - 1) * (2 * m));
      Index.MulAdd(t - 1, 1, 2 * m);
    }
  }

  /** Bin k of the packed spectrum: even part plus i times the untwisted odd part. */
  function PackBin(p: Complex, q: Complex, v: Complex): Complex
  {
    Add(Scale(0.5, Add(p, q)), TimesI(Mul(Scale(0.5, Sub(p, q)), v)))
  }

  function PackSpectrum(H: seq<Complex>, w: int -> Complex, m: nat): (Z: seq<Complex>)
    requires |H| == 2 * m
    ensures |Z| == m
  {
    seq(m, k requires 0 <= k < m => PackBin(H[k], H[m + k], w(-k)))
  }

  lemma PackSpectrumParts(H: seq<Complex>, w: int -> Complex, m: nat)
    requires |H| == 2 * m
    ensures PackSpectrum(H, w, m)
         == MapAdd(MapScale(0.5, MapAdd(H[..m], H[m..])),
                   MapTimesI(Twist(MapScale(0.5, MapSub(H[..m], H[m..])), w, -1, 0)))
  {
    hide Mul;
    assert forall k: int {:trigger w(-k)} :: -1 * (0 + k) == -k;
  }

  /** The packed inverse transform delivers sample 2j in its real and 2j + 1 in its imaginary part. */
  lemma PackedInverse(H: seq<Complex>, w: int -> Complex, m: nat, j: nat)
    requires |H| == 2 * m && IsRoot(w, m)
    ensures Eval(PackSpectrum(H, w, m), w(-2 * j))
         == Add(Scale(0.5, Eval(H, w(-2 * j))), TimesI(Scale(0.5, Eval(H, w(-(2 * j + 1))))))
  {
    hide Mul;
    hide Eval;
    hide IsRoot;
    hide Twist;
    hide PackSpectrum;
    PackSpectrumParts(H, w, m);
    var e, d := MapAdd(H[..m], H[m..]), MapSub(H[..m], H[m..]);
    var o := MapScale(0.5, d);
    EvalMapAdd(MapScale(0.5, e), MapTimesI(Twist(o, w, -1, 0)), w(-2 * j));
    EvalMapScale(0.5, e, w(-2 * j));
    EvalMapTimesI(Twist(o, w, -1, 0), w(-2 * j));
    EvalTwist(o, w, m, -1, -2 * j, 0);
    assert w(-1 * 0) == ONE by { RootZero(w, m); }
    MulUnit(Eval(o, w(-2 * j + -1)));
    EvalMapScale(0.5, d, w(-2 * j + -1));
    EvalFolded(H, m, w, m, 1, 2 * j);
    EvalFolded(H, m, w, m, 1, 2 * j + 1);
    assert -(2 * j * 1) == -2 * j && -((2 * j + 1) * 1) == -2 * j + -1;
  }

  /** Sample i of the inverse of a half spectrum, read out of the packed inverse transform. */
  lemma SamplesFromPacked(X: seq<Complex>, w: int -> Complex, m: nat, j: nat)
    requires m > 0 && |X| == m + 1 && IsRoot(w, m)
    ensures
      var z := Eval(PackSpectrum(Hermitian(X, m), w, m), w(-2 * j));
      && z.re / m as real == RealIdft(X, w, m, 2 * j)
      && z.im / m as real == RealIdft(X, w, m, 2 * j + 1)
  {
    hide Mul;
    hide Eval;
    hide IsRoot;
    hide DftAt;
    var H := Hermitian(X, m);
    PackedInverse(H, w, m, j);
    HermitianIsReal(H, w, m, 2 * j);
    HermitianIsReal(H, w, m, 2 * j + 1);
    IdftIsEval(H, w, m, 2 * j);
    IdftIsEval(H, w, m, 2 * j + 1);
    HalfOver(Eval(H, w(-(2 * j))).re, m);
    HalfOver(Eval(H, w(-(2 * j + 1))).re, m);
  }

  lemma HalfOver(a: real, m: nat)
    requires m > 0
    ensures 0.5 * a / m as real == a / (2 * m) as real
  {
  }

  /** The half spectrum of a real signal, as the definition gives it. */
  function HalfSpectrum(x: seq<real>, w: int -> Complex, m: nat): (X: seq<Complex>)
  {
    seq(m + 1, k requires 0 <= k <= m => DftAt(Reals(x), w, k))
  }

  lemma ConjugateBin(x: seq<real>, w: int -> Complex, m: nat, k: int)
    requires IsRoot(w, m) && 0 <= k <= 2 * m
    ensures DftAt(Reals(x), w, 2 * m - k) == Conj(DftAt(Reals(x), w, k))
  {
    hide Mul;
    hide Eval;
    hide DftAt;
    var r := Reals(x);
    DftIsEval(r, w, m, k);
    DftIsEval(r, w, m, 2 * m - k);
    assert MapConj(r) == r;
    EvalMapConj(r, w(k));
    ConjOf(w, m, k);
    RootFullTurn(w, m, -k);
  }

  /** Extending the half spectrum of a real signal by symmetry gives its full spectrum. */
  lemma HermitianOfReal(x: seq<real>, w: int -> Complex, m: nat)
    requires m > 0 && |x| == 2 * m && IsRoot(w, m)
    ensures Hermitian(HalfSpectrum(x, w, m), m) == Spectrum(Reals(x), w, 1)
  {
    hide Mul;
    hide Eval;
    hide DftAt;
    hide IsRoot;
    var X, H, S := HalfSpectrum(x, w, m), Hermitian(HalfSpectrum(x, w, m), m), Spectrum(Reals(x), w, 1);
    forall k: int | 0 <= k < 2 * m ensures H[k] == S[k] {
      DftIsEval(Reals(x), w, m, k);
      assert S[k] == DftAt(Reals(x), w, k) by { assert k * 1 == k; }
      ConjugateBin(x, w, m, k);
      var v := DftAt(Reals(x), w, k);
      assert v == C(v.re, v.im) == Conj(Conj(v));
      if k == 0 {
        RootZeroTurn(Reals(x), w, m);
        assert X[0] == v;
      } else if k <= m {
        assert X[k] == v;
      } else {
        assert X[2 * m - k] == DftAt(Reals(x), w, 2 * m - k);
      }
    }
  }

  lemma RootZeroTurn(r: seq<Complex>, w: int -> Complex, m: nat)
    requires IsRoot(w, m)
    ensures DftAt(r, w, 2 * m) == DftAt(r, w, 0)
  {
    hide Mul;
    hide Eval;
    hide DftAt;
    DftIsEval(r, w, m, 2 * m);
    DftIsEval(r, w, m, 0);
    RootFullTurn(w, m, 0);
  }

  /** Synthesis undoes analysis: the inverse real transform of the half spectrum is the signal. */
  lemma RealRoundTrip(x: seq<real>, w: int -> Complex, m: nat, bits: nat, i: int)
    requires m == Pow2(bits) && |x| == 2 * m && IsRoot(w, m) && 0 <= i < |x|
    ensures RealIdft(HalfSpectrum(x, w, m), w, m, i) == x[i]
  {
    hide Mul;
    hide Eval;
    hide DftAt;
    hide IsRoot;
    hide Spectrum;
    HermitianOfReal(x, w, m);
    IdftIsEval(Spectrum(Reals(x), w, 1), w, m, i);
    DftInversion(Reals(x), bits + 1, w, m, 1, i);
    assert -(i * 1) == -i;
  }
}
