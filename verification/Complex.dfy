/** Complex numbers over exact reals, and polynomial evaluation, the algebra under the transforms. */
module Complex {
  import Index

  datatype Complex = C(re: real, im: real)

  const ZERO := C(0.0, 0.0)
  const ONE := C(1.0, 0.0)

  function Add(a: Complex, b: Complex): Complex { C(a.re + b.re, a.im + b.im) }

  function Sub(a: Complex, b: Complex): Complex { C(a.re - b.re, a.im - b.im) }

  function Neg(a: Complex): Complex { C(-a.re, -a.im) }

  function Mul(a: Complex, b: Complex): Complex
  {
    C(a.re * b.re - a.im * b.im, a.re * b.im + a.im * b.re)
  }

  function Conj(a: Complex): Complex { C(a.re, -a.im) }

  /** Multiplication by i. */
  function TimesI(a: Complex): Complex { C(-a.im, a.re) }

  function Scale(s: real, a: Complex): Complex { C(s * a.re, s * a.im) }

  lemma MulAssoc(a: Complex, b: Complex, c: Complex)
    ensures Mul(Mul(a, b), c) == Mul(a, Mul(b, c))
  {
  }

  lemma MulComm(a: Complex, b: Complex)
    ensures Mul(a, b) == Mul(b, a)
  {
  }

  lemma MulAdd(a: Complex, b: Complex, c: Complex)
    ensures Mul(a, Add(b, c)) == Add(Mul(a, b), Mul(a, c))
  {
  }

  lemma MulSub(a: Complex, b: Complex, c: Complex)
    ensures Mul(a, Sub(b, c)) == Sub(Mul(a, b), Mul(a, c))
  {
  }

  lemma MulNeg(a: Complex, b: Complex)
    ensures Mul(Neg(a), b) == Neg(Mul(a, b))
    ensures Mul(a, Neg(b)) == Neg(Mul(a, b))
  {
  }

  lemma MulUnit(a: Complex)
    ensures Mul(ONE, a) == a && Mul(a, ONE) == a
    ensures Mul(Neg(ONE), a) == Neg(a)
    ensures Mul(a, ZERO) == ZERO && Mul(ZERO, a) == ZERO
  {
  }

  lemma MulConj(a: Complex, b: Complex)
    ensures Conj(Mul(a, b)) == Mul(Conj(a), Conj(b))
  {
  }

  lemma MulScale(s: real, a: Complex, b: Complex)
    ensures Mul(a, Scale(s, b)) == Scale(s, Mul(a, b))
    ensures Mul(a, TimesI(b)) == TimesI(Mul(a, b))
  {
  }

  // --- polynomials: coefficient sequences, lowest power first ---

  function Eval(p: seq<Complex>, z: Complex): Complex
  {
    if p == [] then ZERO else Add(p[0], Mul(z, Eval(p[1..], z)))
  }

  function EvenPart<T>(s: seq<T>): (r: seq<T>)
    ensures |r| == (|s| + 1) / 2
    ensures forall i :: 0 <= i < |r| ==> r[i] == s[2 * i]
    decreases |s|
  {
    if s == [] then [] else [s[0]] + OddPart(s[1..])
  }

  function OddPart<T>(s: seq<T>): (r: seq<T>)
    ensures |r| == |s| / 2
    ensures forall i :: 0 <= i < |r| ==> r[i] == s[2 * i + 1]
    decreases |s|
  {
    if s == [] then [] else EvenPart(s[1..])
  }

  function MapAdd(p: seq<Complex>, q: seq<Complex>): (r: seq<Complex>)
    requires |p| == |q|
  {
    seq(|p|, i requires 0 <= i < |p| => Add(p[i], q[i]))
  }

  function MapSub(p: seq<Complex>, q: seq<Complex>): (r: seq<Complex>)
    requires |p| == |q|
  {
    seq(|p|, i requires 0 <= i < |p| => Sub(p[i], q[i]))
  }

  function MapConj(p: seq<Complex>): (r: seq<Complex>)
  {
    seq(|p|, i requires 0 <= i < |p| => Conj(p[i]))
  }

  function MapScale(s: real, p: seq<Complex>): (r: seq<Complex>)
  {
    seq(|p|, i requires 0 <= i < |p| => Scale(s, p[i]))
  }

  function MapTimesI(p: seq<Complex>): (r: seq<Complex>)
  {
    seq(|p|, i requires 0 <= i < |p| => TimesI(p[i]))
  }

  function Reverse<T>(s: seq<T>): (r: seq<T>)
  {
    seq(|s|, i requires 0 <= i < |s| => s[|s| - 1 - i])
  }

  lemma {:induction false} EvalEvenOdd(p: seq<Complex>, z: Complex)
    ensures Eval(p, z) == Add(Eval(EvenPart(p), Mul(z, z)), Mul(z, Eval(OddPart(p), Mul(z, z))))
    decreases |p|
  {
    hide Mul;
    if p == [] {
      MulUnit(z);
    } else {
      var t, zz := p[1..], Mul(z, z);
      EvalEvenOdd(t, z);
      assert EvenPart(p)[1..] == OddPart(t);
      MulAdd(z, Eval(EvenPart(t), zz), Mul(z, Eval(OddPart(t), zz)));
      MulAssoc(z, z, Eval(OddPart(t), zz));
    }
  }

  /** One step of the evaluation. */
  lemma EvalStep(p: seq<Complex>, z: Complex)
    ensures p == [] ==> Eval(p, z) == ZERO
    ensures p != [] ==> Eval(p, z) == Add(p[0], Mul(z, Eval(p[1..], z)))
  {
  }

  lemma {:induction false} EvalMapAdd(p: seq<Complex>, q: seq<Complex>, z: Complex)
    requires |p| == |q|
    ensures Eval(MapAdd(p, q), z) == Add(Eval(p, z), Eval(q, z))
    ensures Eval(MapSub(p, q), z) == Sub(Eval(p, z), Eval(q, z))
  {
    hide Mul;
    hide Eval;
    EvalStep(p, z);
    EvalStep(q, z);
    EvalStep(MapAdd(p, q), z);
    EvalStep(MapSub(p, q), z);
    if p != [] {
      EvalMapAdd(p[1..], q[1..], z);
      assert MapAdd(p, q)[1..] == MapAdd(p[1..], q[1..]);
      assert MapSub(p, q)[1..] == MapSub(p[1..], q[1..]);
      MulAdd(z, Eval(p[1..], z), Eval(q[1..], z));
      MulSub(z, Eval(p[1..], z), Eval(q[1..], z));
    }
  }

  lemma {:induction false} EvalMapScale(s: real, p: seq<Complex>, z: Complex)
    ensures Eval(MapScale(s, p), z) == Scale(s, Eval(p, z))
  {
    hide Mul;
    hide Eval;
    EvalStep(p, z);
    EvalStep(MapScale(s, p), z);
    if p != [] {
      EvalMapScale(s, p[1..], z);
      assert MapScale(s, p)[1..] == MapScale(s, p[1..]);
      MulScale(s, z, Eval(p[1..], z));
      ScaleAdd(s, p[0], Mul(z, Eval(p[1..], z)));
      hide Scale;
      hide Add;
    } else {
      ScaleZero(s);
    }
  }

  lemma ScaleZero(s: real)
    ensures Scale(s, ZERO) == ZERO
  {
  }

  lemma ScaleAdd(s: real, a: Complex, b: Complex)
    ensures Scale(s, Add(a, b)) == Add(Scale(s, a), Scale(s, b))
  {
  }

  lemma {:induction false} EvalMapTimesI(p: seq<Complex>, z: Complex)
    ensures Eval(MapTimesI(p), z) == TimesI(Eval(p, z))
  {
    hide Mul;
    hide Eval;
    EvalStep(p, z);
    EvalStep(MapTimesI(p), z);
    if p != [] {
      EvalMapTimesI(p[1..], z);
      assert MapTimesI(p)[1..] == MapTimesI(p[1..]);
      MulScale(1.0, z, Eval(p[1..], z));
    }
  }

  lemma {:induction false} EvalMapConj(p: seq<Complex>, z: Complex)
    ensures Eval(MapConj(p), Conj(z)) == Conj(Eval(p, z))
  {
    hide Mul;
    hide Eval;
    EvalStep(p, z);
    EvalStep(MapConj(p), Conj(z));
    if p != [] {
      EvalMapConj(p[1..], z);
      assert MapConj(p)[1..] == MapConj(p[1..]);
      MulConj(z, Eval(p[1..], z));
    }
  }

  // --- roots of unity ---

  /** Names an exponent sum, so that the law of exponents is used only where a proof mentions it. */
  function Plus(a: int, b: int): int { a + b }

  /** `w` behaves as k -> exp(-+ 2 pi i k / n) for n == 2 * half: a homomorphism whose half turn is -1. */
  ghost predicate IsRoot(w: int -> Complex, half: int)
  {
    && w(0) == ONE
    && (forall a, b {:trigger Plus(a, b)} :: w(Plus(a, b)) == Mul(w(a), w(b)))
    && w(half) == Neg(ONE)
    && (forall a {:trigger Conj(w(a))} :: Conj(w(a)) == w(-a))
  }

  /** (-i)^r for r quarter turns. */
  function Quarter(r: int): Complex
  {
    if r == 0 then ONE else if r == 1 then C(0.0, -1.0) else if r == 2 then Neg(ONE) else C(0.0, 1.0)
  }

  /** The twiddle of a four-point transform. */
  function QuarterTurns(a: int): Complex { Quarter(a % 4) }

  /** Such a w exists: the four-point one. */
  lemma FourPointRoot()
    ensures IsRoot(QuarterTurns, 2)
  {
    hide Mul;
    hide QuarterTurns;
    forall a, b ensures QuarterTurns(Plus(a, b)) == Mul(QuarterTurns(a), QuarterTurns(b)) { QuarterAdd(a, b); }
    forall a ensures Conj(QuarterTurns(a)) == QuarterTurns(-a) { ConjTurns(a); }
    FixedTurns();
  }

  /** From a root w for 2 half points and a point z half way to w(1), the root for twice as many points. */
  function Between(w: int -> Complex, z: Complex, k: int): Complex { Mul(if k % 2 == 0 then ONE else z, w(k / 2)) }

  function Doubled(w: int -> Complex, z: Complex): int -> Complex { k => Between(w, z, k) }

  /** z is half way: its square is w(1), and it is on the unit circle. */
  predicate HalfWay(w: int -> Complex, z: Complex) { Mul(z, z) == w(1) && Mul(z, Conj(z)) == ONE }

  lemma BetweenAdds(w: int -> Complex, half: int, z: Complex, a: int, b: int)
    requires IsRoot(w, half) && HalfWay(w, z)
    ensures Between(w, z, Plus(a, b)) == Mul(Between(w, z, a), Between(w, z, b))
  {
    hide Mul;
    var e, f := if a % 2 == 0 then ONE else z, if b % 2 == 0 then ONE else z;
    var h, k := a / 2, b / 2;
    MulFour(e, w(h), f, w(k));
    assert w(Plus(h, k)) == Mul(w(h), w(k));
    HalfSum(a, b);
    MulUnit(e);
    MulUnit(f);
    MulUnit(w(Plus(h, k)));
    MulUnit(w(Plus(1, Plus(h, k))));
    assert w(Plus(1, Plus(h, k))) == Mul(w(1), w(Plus(h, k)));
  }

  lemma MulFour(a: Complex, b: Complex, c: Complex, d: Complex)
    ensures Mul(Mul(a, b), Mul(c, d)) == Mul(Mul(a, c), Mul(b, d))
  {
    hide Mul;
    MulAssoc(a, b, Mul(c, d));
    MulAssoc(b, c, d);
    MulComm(b, c);
    MulAssoc(c, b, d);
    MulAssoc(a, c, Mul(b, d));
  }

  lemma HalfSum(a: int, b: int)
    ensures Plus(a, b) / 2 == (if a % 2 == 1 && b % 2 == 1 then Plus(1, Plus(a / 2, b / 2)) else Plus(a / 2, b / 2))
    ensures Plus(a, b) % 2 == (if a % 2 == b % 2 then 0 else 1)
  {
  }

  lemma HalfNegated(a: int)
    ensures -a % 2 == a % 2 && -a / 2 == if a % 2 == 0 then -(a / 2) else Plus(-1, -(a / 2))
  {
  }

  lemma BetweenConjugates(w: int -> Complex, half: int, z: Complex, a: int)
    requires IsRoot(w, half) && HalfWay(w, z)
    ensures Conj(Between(w, z, a)) == Between(w, z, -a)
  {
    hide Mul;
    var h := a / 2;
    HalfNegated(a);
    assert Conj(w(h)) == w(-h);
    if a % 2 == 0 {
      MulConj(ONE, w(h));
      assert Conj(ONE) == ONE;
    } else {
      MulConj(z, w(h));
      assert Conj(w(1)) == w(-1);
      MulConj(z, z);
      MulAssoc(z, Conj(z), Conj(z));
      MulUnit(Conj(z));
      assert w(Plus(-1, -h)) == Mul(w(-1), w(-h));
      MulAssoc(z, w(-1), w(-h));
    }
  }

  lemma DoubledAdds(w: int -> Complex, half: int, z: Complex)
    requires IsRoot(w, half) && HalfWay(w, z)
    ensures var v := Doubled(w, z); forall a, b {:trigger Plus(a, b)} :: v(Plus(a, b)) == Mul(v(a), v(b))
  {
    hide Mul;
    hide Between;
    hide IsRoot;
    hide HalfWay;
    var v := Doubled(w, z);
    forall a, b ensures v(Plus(a, b)) == Mul(v(a), v(b)) { BetweenAdds(w, half, z, a, b); }
  }

  lemma DoubledConjugates(w: int -> Complex, half: int, z: Complex)
    requires IsRoot(w, half) && HalfWay(w, z)
    ensures var v := Doubled(w, z); forall a {:trigger Conj(v(a))} :: Conj(v(a)) == v(-a)
  {
    hide Between;
    hide IsRoot;
    hide HalfWay;
    var v := Doubled(w, z);
    forall a ensures Conj(v(a)) == v(-a) { BetweenConjugates(w, half, z, a); }
  }

  /** Every second power of the doubled root is the root's. */
  lemma DoubledExtends(w: int -> Complex, z: Complex, k: int)
    ensures Doubled(w, z)(2 * k) == w(k)
  {
    hide Between;
    BetweenEven(w, z, k);
  }

  /** Half way to w(1) is another root's step: the transform of twice the size has its twiddles too. */
  lemma DoubledRoot(w: int -> Complex, half: int, z: Complex)
    requires IsRoot(w, half) && HalfWay(w, z)
    ensures IsRoot(Doubled(w, z), 2 * half)
  {
    hide Mul;
    hide IsRoot;
    hide HalfWay;
    hide Doubled;
    RootEnds(w, half);
    DoubledExtends(w, z, 0);
    DoubledExtends(w, z, half);
    assert 2 * 0 == 0;
    DoubledAdds(w, half, z);
    DoubledConjugates(w, half, z);
    RootFrom(Doubled(w, z), 2 * half);
  }

  lemma RootEnds(w: int -> Complex, half: int)
    requires IsRoot(w, half)
    ensures w(0) == ONE && w(half) == Neg(ONE)
  {
  }

  lemma RootFrom(v: int -> Complex, half: int)
    requires v(0) == ONE && v(half) == Neg(ONE)
      && (forall a, b {:trigger Plus(a, b)} :: v(Plus(a, b)) == Mul(v(a), v(b)))
    requires forall a {:trigger Conj(v(a))} :: Conj(v(a)) == v(-a)
    ensures IsRoot(v, half)
  {
    hide Mul;
  }

  lemma BetweenEven(w: int -> Complex, z: Complex, k: int)
    ensures Between(w, z, 2 * k) == w(k)
  {
    hide Mul;
    assert 2 * k / 2 == k && 2 * k % 2 == 0;
    MulUnit(w(k));
  }

  /** The point half way comes from the two square roots of the half-angle formulas. */
  lemma HalfAngle(w: int -> Complex, half: int, c: real, s: real)
    requires IsRoot(w, half) && 2.0 * c * c == 1.0 + w(1).re && 2.0 * s * s == 1.0 - w(1).re && 2.0 * c * s == w(1).im
    ensures HalfWay(w, C(c, s))
  {
    var z := C(c, s);
    assert Mul(z, z) == C(c * c - s * s, c * s + s * c);
    assert Mul(z, Conj(z)) == C(c * c - s * -s, c * -s + s * c);
    NegProducts(c, s);
  }

  lemma NegProducts(c: real, s: real)
    ensures s * -s == -(s * s) && c * -s == -(s * c) && 2.0 * c * s == c * s + s * c && 2.0 * c * c == c * c + c * c
    ensures 2.0 * s * s == s * s + s * s
  {
  }

  lemma FixedTurns()
    ensures QuarterTurns(0) == ONE && QuarterTurns(2) == Neg(ONE)
  {
  }

  lemma QuarterAdd(a: int, b: int)
    ensures QuarterTurns(Plus(a, b)) == Mul(QuarterTurns(a), QuarterTurns(b))
  {
    hide Mul;
    hide Quarter;
    Mod4(a, b);
    QuarterMul(a % 4, b % 4);
  }

  lemma ConjTurns(a: int)
    ensures Conj(QuarterTurns(a)) == QuarterTurns(-a)
  {
    hide Quarter;
    NegMod4(a);
    QuarterConj(a % 4);
  }

  lemma Mod4(a: int, b: int)
    ensures (a + b) % 4 == if a % 4 + b % 4 < 4 then a % 4 + b % 4 else a % 4 + b % 4 - 4
  {
  }

  lemma NegMod4(a: int)
    ensures 0 <= a % 4 < 4 && -a % 4 == if a % 4 == 0 then 0 else 4 - a % 4
  {
    Index.DivMod(a, 4);
    if a % 4 == 0 { Index.ModUnique(-a, -(a / 4), 0, 4); } else { Index.ModUnique(-a, -(a / 4) - 1, 4 - a % 4, 4); }
  }

  lemma QuarterConj(r: int)
    requires 0 <= r < 4
    ensures Conj(Quarter(r)) == Quarter(if r == 0 then 0 else 4 - r) && Quarter(0) == ONE && Quarter(2) == Neg(ONE)
  {
  }

  /** Multiplying by (-i)^r turns a number by r quarters. */
  lemma Turn(r: int, v: Complex)
    requires 0 <= r < 4
    ensures Mul(Quarter(r), v) == if r == 0
                                  then v else if r == 1
                                              then C(v.im, -v.re) else if r == 2 then Neg(v) else C(-v.im, v.re)
  {
    MulUnit(v);
    ZeroTimes(v.re);
    ZeroTimes(v.im);
  }

  lemma ZeroTimes(x: real)
    ensures 0.0 * x == 0.0 && 1.0 * x == x && -1.0 * x == -x
  {
  }

  lemma QuarterMul(r: int, s: int)
    requires 0 <= r < 4 && 0 <= s < 4
    ensures Mul(Quarter(r), Quarter(s)) == Quarter(if r + s < 4 then r + s else r + s - 4)
  {
    hide Mul;
    Turn(r, Quarter(s));
  }

  /** The conjugate root: what the inverse transform's negated imaginary twiddles are. */
  function Inverse(w: int -> Complex): int -> Complex { k => w(-k) }

  lemma RootAdd(w: int -> Complex, half: int, a: int, b: int)
    requires IsRoot(w, half)
    ensures w(a + b) == Mul(w(a), w(b))
  {
    var _ := Plus(a, b);
  }

  lemma RootHalfTurn(w: int -> Complex, half: int, a: int)
    requires IsRoot(w, half)
    ensures w(a + half) == Neg(w(a))
  {
    RootAdd(w, half, a, half);
    MulNeg(w(a), ONE);
    MulUnit(w(a));
  }

  lemma RootFullTurn(w: int -> Complex, half: int, a: int)
    requires IsRoot(w, half)
    ensures w(a + 2 * half) == w(a)
  {
    RootHalfTurn(w, half, a);
    RootHalfTurn(w, half, a + half);
    assert a + half + half == a + 2 * half;
  }

  lemma RootSquare(w: int -> Complex, half: int, a: int)
    requires IsRoot(w, half)
    ensures w(2 * a) == Mul(w(a), w(a)) && Mul(w(a), w(-a)) == ONE
  {
    hide Mul;
    RootAdd(w, half, a, a);
    RootAdd(w, half, a, -a);
    assert a + a == 2 * a && a + -a == 0;
  }

  lemma InverseIsRoot(w: int -> Complex, half: int)
    requires IsRoot(w, half)
    ensures IsRoot(Inverse(w), half)
  {
    hide Mul;
    var v := Inverse(w);
    assert forall a :: v(a) == w(-a);
    assert v(half) == Neg(ONE) by { InverseHalf(w, half); }
    forall a, b ensures v(Plus(a, b)) == Mul(v(a), v(b)) { InverseAdd(w, half, a, b); }
    forall a ensures Conj(v(a)) == v(-a) { ConjOf(w, half, -a); }
  }

  lemma InverseHalf(w: int -> Complex, half: int)
    requires IsRoot(w, half)
    ensures w(-half) == Neg(ONE)
  {
    RootHalfTurn(w, half, -half);
    assert Neg(Neg(w(-half))) == w(-half);
  }

  lemma InverseAdd(w: int -> Complex, half: int, a: int, b: int)
    requires IsRoot(w, half)
    ensures w(-(a + b)) == Mul(w(-a), w(-b))
  {
    hide Mul;
    RootAdd(w, half, -a, -b);
    assert -a + -b == -(a + b);
  }

  lemma ConjOf(w: int -> Complex, half: int, b: int)
    requires IsRoot(w, half)
    ensures Conj(w(b)) == w(-b)
  {
  }

  /** Evaluating a concatenation at a power of the root shifts the second half by w^(e * |p|). */
  lemma {:induction false} EvalConcat(p: seq<Complex>, q: seq<Complex>, w: int -> Complex, half: int, e: int)
    requires IsRoot(w, half)
    ensures Eval(p + q, w(e)) == Add(Eval(p, w(e)), Mul(w(e * |p|), Eval(q, w(e))))
    decreases |p|
  {
    hide Mul;
    var z, b := w(e), Eval(q, w(e));
    if p == [] {
      assert p + q == q;
      MulUnit(b);
    } else {
      EvalConcat(p[1..], q, w, half, e);
      assert (p + q)[1..] == p[1..] + q;
      var s := w(e * |p[1..]|);
      MulAdd(z, Eval(p[1..], z), Mul(s, b));
      MulAssoc(z, s, b);
      assert w(e * |p|) == Mul(z, s) by {
        RootAdd(w, half, e, e * |p[1..]|);
        assert e + e * |p[1..]| == e * |p|;
      }
    }
  }

  /** Coefficient k multiplied by w^(d * k), starting from coefficient number `from`. */
  function Twist(p: seq<Complex>, w: int -> Complex, d: int, from: int): (r: seq<Complex>)
    ensures |r| == |p|
    ensures forall k :: 0 <= k < |p| ==> r[k] == Mul(p[k], w(d * (from + k)))
  {
    seq(|p|, k requires 0 <= k < |p| => Mul(p[k], w(d * (from + k))))
  }

  /** Twisting the coefficients moves the evaluation point by the twist. */
  lemma {:induction false} EvalTwist(p: seq<Complex>, w: int -> Complex, half: int, d: int, e: int, from: int)
    requires IsRoot(w, half)
    ensures Eval(Twist(p, w, d, from), w(e)) == Mul(w(d * from), Eval(p, w(e + d)))
    decreases |p|
  {
    hide Mul;
    if p == [] {
      MulUnit(w(d * from));
    } else {
      var t, f := p[1..], w(d * from);
      var v := Eval(t, w(e + d));
      EvalTwist(t, w, half, d, e, from + 1);
      assert Twist(p, w, d, from)[1..] == Twist(t, w, d, from + 1);
      MulComm(p[0], f);
      MulAdd(f, p[0], Mul(w(e + d), v));
      assert Mul(w(e), Mul(w(d * (from + 1)), v)) == Mul(f, Mul(w(e + d), v)) by {
        RootAdd(w, half, e, d * (from + 1));
        RootAdd(w, half, d * from, e + d);
        assert e + d * (from + 1) == d * from + (e + d);
        MulAssoc(w(e), w(d * (from + 1)), v);
        MulAssoc(f, w(e + d), v);
      }
    }
  }

  /** Reading a polynomial backwards: evaluation at the inverse point. */
  lemma {:induction false} EvalReverse(t: seq<Complex>, w: int -> Complex, half: int, e: int)
    requires IsRoot(w, half)
    ensures Eval(Reverse(t), w(e)) == Mul(w(e * (|t| - 1)), Eval(t, w(-e)))
    decreases |t|
  {
    hide Mul;
    if t == [] {
      MulUnit(w(e * (|t| - 1)));
    } else {
      var u, z := t[1..], w(e);
      EvalReverse(u, w, half, e);
      assert Reverse(t) == Reverse(u) + [t[0]];
      EvalConcat(Reverse(u), [t[0]], w, half, e);
      var v := Eval(u, w(-e));
      var n1 := w(e * |u|);
      assert Eval([t[0]], z) == t[0] by { MulUnit(z); assert Eval([t[0]][1..], z) == ZERO; }
      MulAdd(n1, t[0], Mul(w(-e), v));
      assert Mul(n1, Mul(w(-e), v)) == Mul(w(e * (|u| - 1)), v) by {
        RootAdd(w, half, e * |u|, -e);
        assert e * |u| + -e == e * (|u| - 1);
        MulAssoc(n1, w(-e), v);
      }
    }
  }
}
