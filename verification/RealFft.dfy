/** scripts/bench54.cpp: the transform plan, the in-place FFT and the real FFT pair. */
module RealFft {
  import opened Complex
  import opened Powers
  import opened Dft
  import opened RealDft
  import Index

  /** Real and imaginary arrays read together. */
  function Zip(a: seq<real>, b: seq<real>): (r: seq<Complex>)
    requires |a| == |b|
    ensures |r| == |a|
    ensures forall i :: 0 <= i < |r| ==> r[i] == C(a[i], b[i])
  {
    seq(|a|, i requires 0 <= i < |a| => C(a[i], b[i]))
  }

  datatype Plan = Plan(
    n: nat, m: nat,                      // real size, complex size n / 2
    rev: seq<nat>,                       // bit reversal of m
    twr: seq<real>, twi: seq<real>,      // exp(-2 pi i j / m), j < m / 2
    spr: seq<real>, spi: seq<real>,      // exp(-2 pi i k / n), k <= m
    win: seq<real>)                      // analysis or synthesis window, n
  {
    /** The plan of a transform of n == 2 * 2^bits samples under the root `w` of order n. */
    ghost predicate Valid(w: int -> Complex, bits: nat)
    {
      && m == Pow2(bits) && n == 2 * m && IsRoot(w, m)
      && |rev| == m && (forall i :: 0 <= i < m ==> rev[i] == Rev(i, bits))
      && |twr| == |twi| == m / 2 && (forall j :: 0 <= j < m / 2 ==> C(twr[j], twi[j]) == w(2 * j))
      && |spr| == |spi| == m + 1 && (forall k :: 0 <= k <= m ==> C(spr[k], spi[k]) == w(k))
      && |win| == n
    }
  }

  // --- make_plan ---

  /** i >> b. */
  function ShiftRight(i: nat, b: nat): (r: nat)
  {
    if b == 0 then i else ShiftRight(i, b - 1) / 2
  }

  /** a | b, bit by bit. */
  function Or(a: nat, b: nat): nat
  {
    if a == 0 && b == 0 then 0
    else 2 * Or(a / 2, b / 2) + (if a % 2 == 1 || b % 2 == 1 then 1 else 0)
  }

  lemma {:induction false} OrZero(a: nat)
    ensures Or(a, 0) == a
  {
    if a > 0 { OrZero(a / 2); }
  }

  /** Setting a bit below every set bit adds it. */
  lemma {:induction false} OrClearBit(q: nat, k: nat)
    ensures Or(q * Pow2(k + 1), Pow2(k)) == q * Pow2(k + 1) + Pow2(k)
  {
    var a := q * Pow2(k + 1);
    assert a == 2 * (q * Pow2(k)) by { Index.MulAssoc(q, 2, Pow2(k)); }
    if k == 0 {
      OrZero(q);
      assert a == 2 * q && a / 2 == q && Or(a, 1) == 2 * Or(q, 0) + 1;
    } else {
      OrClearBit(q, k - 1);
      assert a / 2 == q * Pow2(k) && Pow2(k) / 2 == Pow2(k - 1);
    }
  }

  /** The bit loop of make_plan computes the bit reversal. */
  method ReverseBits(i: nat, bits: nat) returns (r: nat)
    ensures r == Rev(i, bits)
  {
    hide Rev;
    hide Or;
    hide ShiftRight;
    hide Pow2;
    r := 0;
    ghost var q: nat := 0;
    ShiftSteps(i, 0);
    for b := 0 to bits
      invariant r == q * Pow2(bits - b)
      invariant Rev(i, bits) == r + Rev(ShiftRight(i, b), bits - b)
    {
      BitStep(q, ShiftRight(i, b), bits - b);
      ShiftSteps(i, b);
      q := q * 2 + ShiftRight(i, b) % 2;
      if ShiftRight(i, b) % 2 == 1 {
        r := Or(r, Pow2(bits - 1 - b));
      }
    }
    ShiftSteps(ShiftRight(i, bits), 0);
  }

  lemma ShiftSteps(i: nat, b: nat)
    ensures ShiftRight(i, 0) == i && ShiftRight(i, b + 1) == ShiftRight(i, b) / 2 && Rev(i, 0) == 0
  {
  }

  lemma BitStep(q: nat, i: nat, left: nat)
    requires left > 0
    ensures Rev(i, left) == (if i % 2 == 1 then Pow2(left - 1) else 0) + Rev(i / 2, left - 1)
    ensures (q * 2 + i % 2) * Pow2(left - 1) == q * Pow2(left) + (if i % 2 == 1 then Pow2(left - 1) else 0)
    ensures Or(q * Pow2(left), Pow2(left - 1)) == q * Pow2(left) + Pow2(left - 1)
  {
    hide Or;
    Index.MulAssoc(q, 2, Pow2(left - 1));
    Index.MulAdd(q * 2, i % 2, Pow2(left - 1));
    OrClearBit(q, left - 1);
  }

  method MakePlan(n: nat, win: seq<real>, w: int -> Complex, ghost e: nat) returns (p: Plan)
    requires n == 2 * Pow2(e) && |win| == n && IsRoot(w, Pow2(e))
    ensures p.Valid(w, e) && p.win == win
  {
    var m := n / 2;
    var bits := 0;
    while Pow2(bits) < m
      invariant bits <= e
      decreases e - bits
    {
      if bits >= e { Pow2Monotone(e, bits); }
      bits := bits + 1;
    }
    if bits < e { Pow2Monotone(bits + 1, e); }
    var rev: seq<nat> := [];
    for i := 0 to m
      invariant |rev| == i && forall k :: 0 <= k < i ==> rev[k] == Rev(k, e)
    {
      var r := ReverseBits(i, bits);
      rev := rev + [r];
    }
    var twr, twi, spr, spi: seq<real> := [], [], [], [];
    for j := 0 to m / 2
      invariant |twr| == |twi| == j && forall k :: 0 <= k < j ==> C(twr[k], twi[k]) == w(2 * k)
    {
      twr, twi := twr + [w(2 * j).re], twi + [w(2 * j).im];
    }
    for k := 0 to m + 1
      invariant |spr| == |spi| == k && forall i :: 0 <= i < k ==> C(spr[i], spi[i]) == w(i)
    {
      spr, spi := spr + [w(k).re], spi + [w(k).im];
    }
    p := Plan(n, m, rev, twr, twi, spr, spi, win);
  }

  // --- cfft ---

  /** The root a transform runs under: the stored one, or its conjugate. */
  function RootOf(w: int -> Complex, inverse: bool): int -> Complex { if inverse then Inverse(w) else w }

  lemma ProductParts(vr: real, vi: real, wr: real, wi: real)
    ensures Mul(C(vr, vi), C(wr, wi)) == C(vr * wr - vi * wi, vr * wi + vi * wr)
  {
  }

  method ButterflyAt(re: array<real>, im: array<real>, a: nat, b: nat, wr: real, wi: real)
    requires re != im && re.Length == im.Length && a < re.Length && b < re.Length && a != b
    modifies re, im
    ensures re[..] == old(re[..])[a := re[a]][b := re[b]] && im[..] == old(im[..])[a := im[a]][b := im[b]]
    ensures C(re[a], im[a]) == Add(old(C(re[a], im[a])), Mul(old(C(re[b], im[b])), C(wr, wi)))
    ensures C(re[b], im[b]) == Sub(old(C(re[a], im[a])), Mul(old(C(re[b], im[b])), C(wr, wi)))
  {
    hide Mul;
    ghost var u, v := C(re[a], im[a]), Mul(C(re[b], im[b]), C(wr, wi));
    ProductParts(re[b], im[b], wr, wi);
    var tr := re[b] * wr - im[b] * wi;
    var ti := re[b] * wi + im[b] * wr;
    assert v == C(tr, ti) && Add(u, v) == C(re[a] + tr, im[a] + ti) && Sub(u, v) == C(re[a] - tr, im[a] - ti);
    re[b], im[b] := re[a] - tr, im[a] - ti;
    re[a], im[a] := re[a] + tr, im[a] + ti;
  }

  /** The twiddle the inner loop loads, as a power of the transform's root. */
  lemma TwiddleAt(p: Plan, w: int -> Complex, bits: nat, inverse: bool, j: nat, half: nat, step: nat)
    requires p.Valid(w, bits) && half * step * 2 == p.m && j < half && step > 0
    ensures 0 <= j * step < p.m / 2
    ensures C(p.twr[j * step], if inverse then -p.twi[j * step] else p.twi[j * step])
         == RootOf(w, inverse)(j * (2 * step))
  {
    hide Mul;
    Index.MulNonneg(j, step);
    Index.MulMono(j + 1, half, step);
    Index.MulAdd(j, 1, step);
    ConjOf(w, p.m, 2 * (j * step));
    assert j * (2 * step) == 2 * (j * step);
  }

  /** One pass of the j loop: the pair a and a + half, under the twiddle at j. */
  method BlockStep(p: Plan, re: array<real>, im: array<real>, inverse: bool, a: nat, half: nat, step: nat, j: nat,
                   ghost w: int -> Complex, ghost bits: nat)
    requires p.Valid(w, bits) && re != im && re.Length == im.Length == p.m
    requires half * step * 2 == p.m && step > 0 && j < half && a + half < p.m
    modifies re, im
    ensures
      var u, v := old(C(re[a], im[a])), old(C(re[a + half], im[a + half]));
      var r := RootOf(w, inverse)(j * (2 * step));
      && C(re[a], im[a]) == Add(u, Mul(v, r)) && C(re[a + half], im[a + half]) == Sub(u, Mul(v, r))
    ensures forall q :: 0 <= q < p.m && q != a && q != a + half ==> re[q] == old(re[q]) && im[q] == old(im[q])
  {
    hide Mul;
    hide IsRoot;
    hide Plan.Valid;
    hide Add;
    hide Sub;
    hide RootOf;
    TwiddleAt(p, w, bits, inverse, j, half, step);
    TwiddleLengths(p, w, bits);
    var wr, wi := p.twr[j * step], if inverse then -p.twi[j * step] else p.twi[j * step];
    ghost var wasRe, wasIm := re[..], im[..];
    ButterflyAt(re, im, a, a + half, wr, wi);
    forall q | 0 <= q < p.m && q != a && q != a + half ensures re[q] == wasRe[q] && im[q] == wasIm[q] {
      assert re[..][q] == re[q] && im[..][q] == im[q];
    }
  }

  /** One block of one stage: the j loop. */
  method CfftBlock(p: Plan, re: array<real>, im: array<real>, inverse: bool, i: nat, half: nat, step: nat,
                   ghost w: int -> Complex, ghost bits: nat)
    requires p.Valid(w, bits) && re != im && re.Length == im.Length == p.m
    requires half * step * 2 == p.m && step > 0 && i + 2 * half <= p.m
    modifies re, im
    ensures
      var z := old(Zip(re[..], im[..]));
      Zip(re[..], im[..])
        == z[..i] + Block(z[i..i + 2 * half], half, RootOf(w, inverse), 2 * step) + z[i + 2 * half..]
  {
    hide Mul;
    hide IsRoot;
    hide Block;
    hide Plan.Valid;
    hide Add;
    hide Sub;
    hide RootOf;
    ghost var z := Zip(re[..], im[..]);
    ghost var out := Block(z[i..i + 2 * half], half, RootOf(w, inverse), 2 * step);
    for j := 0 to half
      invariant forall q :: 0 <= q < p.m && !(i <= q < i + j) && !(i + half <= q < i + half + j)
                  ==> C(re[q], im[q]) == z[q]
      invariant forall q :: i <= q < i + j ==> C(re[q], im[q]) == out[q - i]
      invariant forall q :: i + half <= q < i + half + j ==> C(re[q], im[q]) == out[q - i]
    {
      BlockAt(z, i, half, RootOf(w, inverse), 2 * step, j);
      BlockStep(p, re, im, inverse, i + j, half, step, j, w, bits);
    }
    BlockDone(z, Zip(re[..], im[..]), out, i, half);
  }

  lemma PlanRev(p: Plan, w: int -> Complex, bits: nat)
    requires p.Valid(w, bits)
    ensures p.m == Pow2(bits) == |p.rev| && forall i :: 0 <= i < p.m ==> p.rev[i] == Rev(i, bits)
  {
  }

  lemma PlanSizes(p: Plan, w: int -> Complex, bits: nat)
    requires p.Valid(w, bits)
    ensures p.m > 0 && p.n == 2 * p.m && |p.win| == p.n && IsRoot(w, p.m)
  {
  }

  lemma TwiddleLengths(p: Plan, w: int -> Complex, bits: nat)
    requires p.Valid(w, bits)
    ensures |p.twr| == |p.twi| == p.m / 2
  {
  }

  lemma BlockAt(z: seq<Complex>, i: nat, half: nat, w: int -> Complex, c: int, j: nat)
    requires j < half && i + 2 * half <= |z|
    ensures
      var out := Block(z[i..i + 2 * half], half, w, c);
      && out[j] == Add(z[i + j], Mul(z[i + j + half], w(j * c)))
      && out[half + j] == Sub(z[i + j], Mul(z[i + j + half], w(j * c)))
  {
    hide Mul;
  }

  lemma BlockDone(z: seq<Complex>, y: seq<Complex>, out: seq<Complex>, i: nat, half: nat)
    requires |y| == |z| && i + 2 * half <= |z| && |out| == 2 * half
    requires forall q :: 0 <= q < |z| && !(i <= q < i + 2 * half) ==> y[q] == z[q]
    requires forall q :: i <= q < i + 2 * half ==> y[q] == out[q - i]
    ensures y == z[..i] + out + z[i + 2 * half..]
  {
  }

  /** One stage: the i loop over blocks of `len` positions. */
  method CfftStage(p: Plan, re: array<real>, im: array<real>, inverse: bool, half: nat, step: nat,
                   ghost w: int -> Complex, ghost bits: nat)
    requires p.Valid(w, bits) && re != im && re.Length == im.Length == p.m
    requires half > 0 && step * (2 * half) == p.m
    modifies re, im
    ensures Zip(re[..], im[..]) == Stage(old(Zip(re[..], im[..])), step, half, RootOf(w, inverse), 2 * step)
  {
    hide Mul;
    hide IsRoot;
    hide Block;
    hide Stage;
    hide Plan.Valid;
    hide RootOf;
    hide StagedTo;
    ghost var z, v := Zip(re[..], im[..]), RootOf(w, inverse);
    StageStarts(z, half, v, 2 * step);
    var i := 0;
    ghost var done: nat := 0;
    assert half * step * 2 == p.m && step > 0 by { StepFacts(half, step, w, bits, p); }
    while i < p.m
      invariant i <= p.m && i == done * (2 * half) && done <= step
      invariant StagedTo(Zip(re[..], im[..]), z, i, done, half, v, 2 * step)
    {
      NextBlockFits(i, done, step, half, p.m);
      ghost var y := Zip(re[..], im[..]);
      CfftBlock(p, re, im, inverse, i, half, step, w, bits);
      StageStep(y, z, i, done, half, v, 2 * step);
      i := i + 2 * half;
      done := done + 1;
    }
    Index.QuotientUnique(done, 0, step, 0, 2 * half);
    StageEnds(Zip(re[..], im[..]), z, done, half, v, 2 * step);
  }

  /** The blocks below i are through the stage. */
  ghost predicate StagedTo(y: seq<Complex>, z: seq<Complex>, i: nat, done: nat, half: nat, w: int -> Complex, c: int)
  {
    i == done * (2 * half) && i <= |z| && y == Stage(z[..i], done, half, w, c) + z[i..]
  }

  lemma StageStarts(z: seq<Complex>, half: nat, w: int -> Complex, c: int)
    ensures StagedTo(z, z, 0, 0, half, w, c)
  {
    StageOfNone(half, w, c);
    assert z[..0] == [] && z[0..] == z;
  }

  lemma StageEnds(y: seq<Complex>, z: seq<Complex>, done: nat, half: nat, w: int -> Complex, c: int)
    requires StagedTo(y, z, |z|, done, half, w, c)
    ensures y == Stage(z, done, half, w, c)
  {
    hide Stage;
    assert z[..|z|] == z && z[|z|..] == [];
  }

  lemma StepFacts(half: nat, step: nat, w: int -> Complex, bits: nat, p: Plan)
    requires p.Valid(w, bits) && step * (2 * half) == p.m
    ensures half * step * 2 == p.m && step > 0
  {
    hide Mul;
    Index.MulAssoc(step, 2, half);
  }

  lemma NextBlockFits(i: nat, done: nat, step: nat, half: nat, m: nat)
    requires half > 0 && i == done * (2 * half) && m == step * (2 * half) && i < m
    ensures done + 1 <= step && i + 2 * half <= m
  {
    if done >= step { Index.MulMono(step, done, 2 * half); }
    Index.MulMono(done + 1, step, 2 * half);
    Index.MulAdd(done, 1, 2 * half);
  }

  /** Combining the next block extends the finished part of a stage by that block. */
  lemma StageStep(y: seq<Complex>, z: seq<Complex>, i: nat, done: nat, half: nat, w: int -> Complex, c: int)
    requires StagedTo(y, z, i, done, half, w, c) && i + 2 * half <= |z| && |y| == |z|
    ensures i + 2 * half == (done + 1) * (2 * half)
    ensures StagedTo(y[..i] + Block(y[i..i + 2 * half], half, w, c) + y[i + 2 * half..], z, i + 2 * half, done + 1,
                     half, w, c)
  {
    hide Block;
    hide Stage;
    Index.MulAdd(done, 1, 2 * half);
    var b := z[i..i + 2 * half];
    StageSplit(z[..i], done, b, 1, half, w, c);
    OneBlockStage(b, half, w, c);
    assert |Stage(z[..i], done, half, w, c)| == i;
    assert y[i..] == z[i..] && y[i..i + 2 * half] == y[i..][..2 * half] && b == z[i..][..2 * half];
    assert z[..i] + b == z[..i + 2 * half];
  }

  lemma StageOfNone(half: nat, w: int -> Complex, c: int)
    ensures Stage([], 0, half, w, c) == []
  {
  }

  lemma OneBlockStage(b: seq<Complex>, half: nat, w: int -> Complex, c: int)
    requires |b| == 2 * half
    ensures Stage(b, 1, half, w, c) == Block(b, half, w, c)
  {
    hide Block;
    assert b[..2 * half] == b && Stage(b[2 * half..], 0, half, w, c) == [];
  }

  /** In-place complex FFT on bit-reversed input: the stage loop. */
  method Cfft(p: Plan, re: array<real>, im: array<real>, inverse: bool, ghost w: int -> Complex, ghost bits: nat)
    requires p.Valid(w, bits) && re != im && re.Length == im.Length == p.m
    modifies re, im
    ensures forall k :: 0 <= k < p.m ==>
      C(re[k], im[k]) == DftAt(Unscramble(old(Zip(re[..], im[..])), bits), RootOf(w, inverse), 2 * k)
  {
    hide Mul;
    hide IsRoot;
    hide Stage;
    ghost var z, v := Zip(re[..], im[..]), RootOf(w, inverse);
    var len := 2;
    ghost var s: nat := 0;
    assert p.m * 1 == p.m && Pow2(0) == 1;
    while len <= p.m
      invariant s <= bits && len == 2 * Pow2(s)
      invariant Pow2(bits - s) * Pow2(s) == p.m
      invariant Zip(re[..], im[..]) == Stages(z, s, Pow2(bits - s), v, 2 * Pow2(bits - s))
      decreases bits - s
    {
      assert s < bits;
      var half := len / 2;
      ghost var n := Pow2(bits - s - 1);
      assert n * (2 * Pow2(s)) == p.m by { Index.MulAssoc(n, 2, Pow2(s)); }
      Index.ModMultiple(n, len);
      var step := p.m / len;
      assert step == n;
      CfftStage(p, re, im, inverse, half, step, w, bits);
      assert n * 2 == Pow2(bits - s) && 2 * (2 * n) == 2 * Pow2(bits - s);
      s := s + 1;
      len := len * 2;
    }
    assert s == bits by { if s < bits { Pow2Monotone(s + 1, bits); } }
    forall k | 0 <= k < p.m
      ensures C(re[k], im[k]) == DftAt(Unscramble(z, bits), v, 2 * k)
    {
      assert C(re[k], im[k]) == Zip(re[..], im[..])[k];
      CfftOutput(z, w, inverse, p.m, bits, k);
    }
  }

  lemma CfftOutput(z: seq<Complex>, w: int -> Complex, inverse: bool, m: nat, bits: nat, k: nat)
    requires |z| == m == Pow2(bits) && IsRoot(w, m) && k < m
    ensures Stages(z, bits, 1, RootOf(w, inverse), 2)[k] == DftAt(Unscramble(z, bits), RootOf(w, inverse), 2 * k)
  {
    hide Mul;
    hide Stages;
    hide Unscramble;
    hide DftAt;
    InverseIsRoot(w, m);
    var v := RootOf(w, inverse);
    StagesAreDft(z, bits, v, m, 2, k);
    DftIsEval(Unscramble(z, bits), v, m, 2 * k);
    assert k * 2 == 2 * k;
  }

  // --- rfft ---

  /** The windowed frame that starts at sample `off`. */
  function Windowed(x: seq<real>, off: nat, win: seq<real>): (r: seq<real>)
    requires off + |win| <= |x|
    ensures |r| == |win|
  {
    seq(|win|, i requires 0 <= i < |win| => x[off + i] * win[i])
  }

  /** The windowed frame packed two samples to a complex number. */
  function FramePairs(x: seq<real>, off: nat, win: seq<real>, m: nat): (z: seq<Complex>)
    requires |win| == 2 * m && off + |win| <= |x|
    ensures |z| == m
  {
    PairUp(Reals(Windowed(x, off, win)))
  }

  lemma FramePairAt(x: seq<real>, off: nat, win: seq<real>, m: nat, i: nat)
    requires |win| == 2 * m && off + |win| <= |x| && i < m
    ensures FramePairs(x, off, win, m)[i]
         == C(x[off + 2 * i] * win[2 * i], x[off + 2 * i + 1] * win[2 * i + 1])
  {
  }

  lemma HermitianAt(X: seq<Complex>, m: nat, k: nat)
    requires m > 0 && |X| == m + 1 && k < m
    ensures Hermitian(X, m)[k] == C(X[k].re, if k == 0 then 0.0 else X[k].im)
    ensures Hermitian(X, m)[m + k] == C(X[m - k].re, if m - k == m then 0.0 else -X[m - k].im)
  {
    if k > 0 {
      assert 2 * m - (m + k) == m - k;
      assert Hermitian(X, m)[m + k] == Conj(X[m - k]);
    }
  }

  /** Bit reversal sends distinct indices to distinct places. */
  lemma RevFresh(i: nat, bits: nat)
    requires i < Pow2(bits)
    ensures forall q: nat :: q < i ==> Rev(q, bits) != Rev(i, bits)
  {
    forall q: nat | q < i ensures Rev(q, bits) != Rev(i, bits) {
      if Rev(q, bits) == Rev(i, bits) { RevInjective(q, i, bits); }
    }
  }

  /** A scatter through the bit-reversal table leaves the sequence unscrambled. */
  lemma ScatterIsUnscramble(zr: seq<real>, zi: seq<real>, z: seq<Complex>, bits: nat)
    requires |zr| == |zi| == |z| == Pow2(bits)
    requires forall q: nat :: q < |z| ==> C(zr[Rev(q, bits)], zi[Rev(q, bits)]) == z[q]
    ensures Unscramble(Zip(zr, zi), bits) == z
  {
    hide Rev;
  }

  method LoadFrame(p: Plan, x: seq<real>, off: nat, zr: array<real>, zi: array<real>,
                   ghost w: int -> Complex, ghost bits: nat)
    requires p.Valid(w, bits) && off + p.n <= |x| && zr != zi && zr.Length == zi.Length == p.m
    modifies zr, zi
    ensures Unscramble(Zip(zr[..], zi[..]), bits) == FramePairs(x, off, p.win, p.m)
  {
    hide Mul;
    hide IsRoot;
    hide Unscramble;
    hide Rev;
    hide FramePairs;
    hide Plan.Valid;
    PlanSizes(p, w, bits);
    PlanRev(p, w, bits);
    ghost var z := FramePairs(x, off, p.win, p.m);
    for i := 0 to p.m
      invariant forall q: nat :: q < i ==> C(zr[Rev(q, bits)], zi[Rev(q, bits)]) == z[q]
    {
      RevFresh(i, bits);
      FramePairAt(x, off, p.win, p.m, i);
      var r := p.rev[i];
      zr[r] := x[off + 2 * i] * p.win[2 * i];
      zi[r] := x[off + 2 * i + 1] * p.win[2 * i + 1];
    }
    ScatterIsUnscramble(zr[..], zi[..], z, bits);
  }

  lemma WrapIsMod(k: nat, m: nat)
    requires m > 0 && k <= m
    ensures k % m == Wrap(k, m)
  {
    Index.ModUnique(k, if k == m then 1 else 0, Wrap(k, m), m);
  }

  /** The split of one bin, as the loop computes it, is the bin of the real transform. */
  lemma BinValue(xw: seq<real>, w: int -> Complex, m: nat, k: nat, A: Complex, B: Complex)
    requires |xw| == 2 * m && m > 0 && IsRoot(w, m) && k <= m
    requires A == Eval(PairUp(Reals(xw)), w(2 * Wrap(k, m)))
    requires B == Conj(Eval(PairUp(Reals(xw)), w(2 * Wrap(m - k, m))))
    ensures
      var E, O := Scale(0.5, Add(A, B)), C(0.5 * (A.im - B.im), -0.5 * (A.re - B.re));
      Add(E, Mul(w(k), O)) == DftAt(Reals(xw), w, k)
  {
    hide Mul;
    hide Eval;
    hide DftAt;
    hide IsRoot;
    SplitPacked(xw, w, m, k);
    BinFromHalves(xw, w, m, k);
    var e, o := Eval(EvenPart(Reals(xw)), w(2 * k)), Eval(OddPart(Reals(xw)), w(2 * k));
    assert Scale(0.5, Add(A, B)) == e && C(0.5 * (A.im - B.im), -0.5 * (A.re - B.re)) == o;
  }

  /** The arithmetic of one bin: E + exp(-2 pi i k / n) * O from Z[k] and conj Z[m - k]. */
  method SplitBin(Ar: real, Ai: real, Br: real, Bi: real, sr: real, si: real) returns (Xr: real, Xi: real)
    ensures
      var E, O := Scale(0.5, Add(C(Ar, Ai), C(Br, Bi))), C(0.5 * (Ai - Bi), -0.5 * (Ar - Br));
      C(Xr, Xi) == Add(E, Mul(C(sr, si), O))
  {
    var Er, Ei := 0.5 * (Ar + Br), 0.5 * (Ai + Bi);
    var Or, Oi := 0.5 * (Ai - Bi), -0.5 * (Ar - Br);
    Xr := Er + sr * Or - si * Oi;
    Xi := Ei + sr * Oi + si * Or;
  }

  method SplitBins(p: Plan, zr: array<real>, zi: array<real>, Xr: array<real>, Xi: array<real>,
                   ghost xw: seq<real>, ghost w: int -> Complex, ghost bits: nat)
    requires p.Valid(w, bits) && |xw| == 2 * p.m && zr.Length == zi.Length == p.m
    requires Xr != Xi && Xr.Length == Xi.Length == p.m + 1 && {Xr, Xi} !! {zr, zi}
    requires forall k: nat :: k < p.m ==> C(zr[k], zi[k]) == Eval(PairUp(Reals(xw)), w(2 * k))
    modifies Xr, Xi
    ensures forall k :: 0 <= k <= p.m ==> C(Xr[k], Xi[k]) == DftAt(Reals(xw), w, k)
  {
    hide Mul;
    hide Eval;
    hide DftAt;
    hide IsRoot;
    hide Scale;
    for k := 0 to p.m + 1
      invariant forall q :: 0 <= q < k ==> C(Xr[q], Xi[q]) == DftAt(Reals(xw), w, q)
    {
      WrapIsMod(k, p.m);
      WrapIsMod(p.m - k, p.m);
      var a, b := k % p.m, (p.m - k) % p.m;
      var r, i := SplitBin(zr[a], zi[a], zr[b], -zi[b], p.spr[k], p.spi[k]);
      assert Conj(C(zr[b], zi[b])) == C(zr[b], -zi[b]);
      BinValue(xw, w, p.m, k, C(zr[a], zi[a]), C(zr[b], -zi[b]));
      Xr[k], Xi[k] := r, i;
    }
  }

  /** x[off..off + n], windowed, to the bins k = 0..n/2 of its transform. */
  method Rfft(p: Plan, x: seq<real>, off: nat, Xr: array<real>, Xi: array<real>, zr: array<real>, zi: array<real>,
              ghost w: int -> Complex, ghost bits: nat)
    requires p.Valid(w, bits) && off + p.n <= |x| && zr != zi && zr.Length == zi.Length == p.m
    requires Xr != Xi && Xr.Length == Xi.Length == p.m + 1 && {Xr, Xi} !! {zr, zi}
    modifies Xr, Xi, zr, zi
    ensures Zip(Xr[..], Xi[..]) == HalfSpectrum(Windowed(x, off, p.win), w, p.m)
  {
    hide Mul;
    hide Eval;
    hide DftAt;
    hide IsRoot;
    hide Unscramble;
    hide PairUp;
    ghost var xw := Windowed(x, off, p.win);
    LoadFrame(p, x, off, zr, zi, w, bits);
    Cfft(p, zr, zi, false, w, bits);
    forall k: nat | k < p.m ensures C(zr[k], zi[k]) == Eval(PairUp(Reals(xw)), w(2 * k)) {
      DftIsEval(PairUp(Reals(xw)), w, p.m, 2 * k);
    }
    SplitBins(p, zr, zi, Xr, Xi, xw, w, bits);
  }

  // --- irfft ---

  /** The arithmetic of one packed bin: Z[k] = E + i O from H[k] and H[k + m]. */
  method PackOne(Ar: real, Ai: real, Br: real, Bi: real, sr: real, si: real) returns (Zr: real, Zi: real)
    ensures C(Zr, Zi) == PackBin(C(Ar, Ai), C(Br, Bi), Conj(C(sr, si)))
  {
    var Er, Ei := 0.5 * (Ar + Br), 0.5 * (Ai + Bi);
    var Dr, Di := 0.5 * (Ar - Br), 0.5 * (Ai - Bi);
    var cr, ci := sr, -si;
    var Or, Oi := Dr * cr - Di * ci, Dr * ci + Di * cr;
    Zr, Zi := Er - Oi, Ei + Or;
  }

  method PackBins(p: Plan, Xr: array<real>, Xi: array<real>, zr: array<real>, zi: array<real>,
                  ghost w: int -> Complex, ghost bits: nat)
    requires p.Valid(w, bits) && zr != zi && zr.Length == zi.Length == p.m
    requires Xr.Length == Xi.Length == p.m + 1 && {Xr, Xi} !! {zr, zi}
    modifies zr, zi
    ensures Unscramble(Zip(zr[..], zi[..]), bits)
         == PackSpectrum(Hermitian(Zip(Xr[..], Xi[..]), p.m), w, p.m)
  {
    hide Mul;
    hide IsRoot;
    hide Unscramble;
    hide Rev;
    hide PackBin;
    hide Hermitian;
    var m := p.m;
    ghost var H := Hermitian(Zip(Xr[..], Xi[..]), m);
    ghost var Z := PackSpectrum(H, w, m);
    for k := 0 to m
      invariant forall q: nat :: q < k ==> C(zr[Rev(q, bits)], zi[Rev(q, bits)]) == Z[q]
    {
      var Ar, Ai := Xr[k], if k == 0 then 0.0 else Xi[k];
      var Br, Bi := Xr[m - k], if m - k == m then 0.0 else -Xi[m - k];
      HermitianAt(Zip(Xr[..], Xi[..]), m, k);
      ConjOf(w, m, k);
      var a, b := PackOne(Ar, Ai, Br, Bi, p.spr[k], p.spi[k]);
      RevFresh(k, bits);
      var r := p.rev[k];
      zr[r], zi[r] := a, b;
    }
    ScatterIsUnscramble(zr[..], zi[..], Z, bits);
  }

  /** X[k], k = 0..n/2, to the n samples of its inverse transform, windowed. */
  method Irfft(p: Plan, Xr: array<real>, Xi: array<real>, x: array<real>, zr: array<real>, zi: array<real>,
               ghost w: int -> Complex, ghost bits: nat)
    requires p.Valid(w, bits) && zr != zi && zr.Length == zi.Length == p.m
    requires Xr.Length == Xi.Length == p.m + 1 && {Xr, Xi} !! {zr, zi}
    requires x.Length == p.n && x !in {Xr, Xi, zr, zi}
    modifies x, zr, zi
    ensures forall i :: 0 <= i < p.n ==> x[i] == RealIdft(Zip(Xr[..], Xi[..]), w, p.m, i) * p.win[i]
  {
    hide Mul;
    hide Eval;
    hide DftAt;
    hide IsRoot;
    hide Unscramble;
    hide PackSpectrum;
    hide RealIdft;
    hide Plan.Valid;
    hide Hermitian;
    hide Inverse;
    PlanSizes(p, w, bits);
    var m := p.m;
    ghost var X := Zip(Xr[..], Xi[..]);
    PackBins(p, Xr, Xi, zr, zi, w, bits);
    Cfft(p, zr, zi, true, w, bits);
    var s := 1.0 / m as real;
    for i := 0 to m
      invariant forall k :: 0 <= k < m ==>
        C(zr[k], zi[k]) == DftAt(PackSpectrum(Hermitian(X, m), w, m), Inverse(w), 2 * k)
      invariant forall q :: 0 <= q < 2 * i ==> x[q] == RealIdft(X, w, m, q) * p.win[q]
    {
      PackedSamples(X, w, m, i, zr[i], zi[i]);
      x[2 * i] := zr[i] * s * p.win[2 * i];
      x[2 * i + 1] := zi[i] * s * p.win[2 * i + 1];
    }
  }

  lemma PackedSamples(X: seq<Complex>, w: int -> Complex, m: nat, i: nat, zr: real, zi: real)
    requires m > 0 && |X| == m + 1 && IsRoot(w, m)
    requires C(zr, zi) == DftAt(PackSpectrum(Hermitian(X, m), w, m), Inverse(w), 2 * i)
    ensures zr * (1.0 / m as real) == RealIdft(X, w, m, 2 * i)
    ensures zi * (1.0 / m as real) == RealIdft(X, w, m, 2 * i + 1)
  {
    hide Mul;
    hide Eval;
    hide DftAt;
    hide IsRoot;
    hide PackSpectrum;
    hide RealIdft;
    IdftIsEval(PackSpectrum(Hermitian(X, m), w, m), w, m, 2 * i);
    SamplesFromPacked(X, w, m, i);
    assert -(2 * i) == -2 * i;
    Reciprocal(zr, m);
    Reciprocal(zi, m);
  }

  lemma Reciprocal(a: real, m: nat)
    requires m > 0
    ensures a * (1.0 / m as real) == a / m as real
  {
  }
}
