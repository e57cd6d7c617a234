/** scripts/bench43.cpp: the int8 depthwise convolution on packed int16 pairs, and the f32 row kernel. */
module Depthwise {
  import opened Simd32
  import opened Powers
  import Index
  import opened Bounds

  // --- the padded row as words of pairs ---

  /** Byte i of the padded row: the input, with the zero point before, after and past it. */
  function PadByte(x: seq<int>, p: int, zp: int, i: int): int
  {
    if p <= i < p + |x| then x[i - p] else zp
  }

  /** PKHBT and PKHTB: one halfword of each operand joined in a word. */
  function Join(lo: int, hi: int): Word { Pack16(lo, hi) }

  /**
   Bytes b0..b3 of word j give E[2j] = (b0, b1), E[2j + 1] = (b2, b3), O[2j] = (b1, b2) and, with the next
   word's b4, O[2j + 1] = (b3, b4): the even- and odd-aligned pairs of the row.
   */
  method BuildPairs(xb: array<int>, L: nat, E: array<Word>, O: array<Word>)
    requires L % 4 == 0 && L + 4 <= xb.Length && L / 2 <= E.Length && L / 2 <= O.Length && E != O
    requires forall i :: 0 <= i < xb.Length ==> Int8(xb[i])
    modifies E, O
    ensures forall i :: 0 <= i < L / 2 ==> IsPair(E[i], xb[2 * i], xb[2 * i + 1])
    ensures forall i :: 0 <= i < L / 2 ==> IsPair(O[i], xb[2 * i + 1], xb[2 * i + 2])
  {
    hide WordOf;
    hide Sxtb16;
    hide Sxtb16Ror8;
    hide Pack16;
    hide Lo;
    hide Hi;
    var prev13: Word := 0;
    var j := 0;
    while true
      invariant 0 <= j <= L / 4
      invariant j > 0 ==> Hi(prev13) == xb[4 * j - 1]
      invariant forall i :: 0 <= i < 2 * j ==> IsPair(E[i], xb[2 * i], xb[2 * i + 1])
      invariant forall i :: 0 <= i < 2 * j - 1 ==> IsPair(O[i], xb[2 * i + 1], xb[2 * i + 2])
      decreases L / 4 - j
    {
      var u := WordOf(xb[4 * j], xb[4 * j + 1], xb[4 * j + 2], xb[4 * j + 3]);
      SxtbOfWord(xb[4 * j], xb[4 * j + 1], xb[4 * j + 2], xb[4 * j + 3]);
      var s02, s13 := Sxtb16(u), Sxtb16Ror8(u);
      if j > 0 { O[2 * j - 1] := Join(Hi(prev13), Lo(s02)); }
      if j == L / 4 { break; }
      E[2 * j] := Join(Lo(s02), Lo(s13));
      E[2 * j + 1] := Join(Hi(s02), Hi(s13));
      O[2 * j] := Join(Lo(s13), Hi(s02));
      prev13 := s13;
      j := j + 1;
    }
  }

  // --- accumulation ---

  /** m SMLAD steps of the weight words against the pair words from `off`, starting at c. */
  function Acc(W: seq<Word>, S: seq<Word>, off: nat, c: int, m: nat): (r: int)
    requires m <= |W| && off + m <= |S|
  {
    if m == 0 then c else Smlad(W[m - 1], S[off + m - 1], Acc(W, S, off, c, m - 1))
  }

  /** Output t of a row at stride s, before requantization: even starts read E, odd starts read O. */
  function RowAcc(E: seq<Word>, O: seq<Word>, W: seq<Word>, s: nat, c: int, t: nat): (r: int)
    requires |E| == |O| && Index.Strided(t, s) / 2 + |W| <= |E|
  {
    Acc(W, if Index.Strided(t, s) % 2 == 1 then O else E, Index.Strided(t, s) / 2, c, |W|)
  }

  /** Four outputs at stride 1, two taps a pass, (e0, o0) and (e1, o1) swapping roles. */
  method FourAtStride1(E: seq<Word>, O: seq<Word>, W: seq<Word>, a: nat, bias: int)
    returns (c0: int, c1: int, c2: int, c3: int)
    requires |E| == |O| && a + |W| < |E|
    ensures c0 == Acc(W, E, a, bias, |W|) && c1 == Acc(W, O, a, bias, |W|)
    ensures c2 == Acc(W, E, a + 1, bias, |W|) && c3 == Acc(W, O, a + 1, bias, |W|)
  {
    hide Smlad;
    var M := |W|;
    c0, c1, c2, c3 := bias, bias, bias, bias;
    var e0, o0, e1, o1 := E[a], O[a], 0, 0;
    var m := 0;
    while m + 2 <= M
      invariant 0 <= m <= M && e0 == E[a + m] && o0 == O[a + m]
      invariant c0 == Acc(W, E, a, bias, m) && c1 == Acc(W, O, a, bias, m)
      invariant c2 == Acc(W, E, a + 1, bias, m) && c3 == Acc(W, O, a + 1, bias, m)
    {
      var w0, w1 := W[m], W[m + 1];
      e1, o1 := E[a + m + 1], O[a + m + 1];
      c0, c1 := Smlad(w0, e0, c0), Smlad(w0, o0, c1);
      c2, c3 := Smlad(w0, e1, c2), Smlad(w0, o1, c3);
      e0, o0 := E[a + m + 2], O[a + m + 2];
      c0, c1 := Smlad(w1, e1, c0), Smlad(w1, o1, c1);
      c2, c3 := Smlad(w1, e0, c2), Smlad(w1, o0, c3);
      m := m + 2;
    }
    if m < M {
      var w0 := W[m];
      e1, o1 := E[a + m + 1], O[a + m + 1];
      c0, c1 := Smlad(w0, e0, c0), Smlad(w0, o0, c1);
      c2, c3 := Smlad(w0, e1, c2), Smlad(w0, o1, c3);
    }
  }

  /** The four renamed registers: slot (q mod 4) holds word q for q in [lo, lo + n). */
  ghost predicate Slots(r: seq<Word>, S: seq<Word>, lo: nat, n: nat)
    requires |r| == 4
  {
    forall q: nat :: lo <= q < lo + n && q < |S| ==> r[q % 4] == S[q]
  }

  /** One STEP: the newest word replaces the oldest, and output i takes slot (j + i) mod 4. */
  method Step4(S: seq<Word>, w: Word, q: nat, r: seq<Word>, c: seq<int>) returns (r': seq<Word>, c': seq<int>)
    requires |r| == 4 && |c| == 4 && q + 3 < |S| && Slots(r, S, q, 3)
    ensures |r'| == 4 && Slots(r', S, q + 1, 3)
    ensures |c'| == 4 && forall i :: 0 <= i < 4 ==> c'[i] == Smlad(w, S[q + i], c[i])
  {
    hide Smlad;
    var n := r[(q + 3) % 4 := S[q + 3]];
    assert r[q % 4] == S[q] && r[(q + 1) % 4] == S[q + 1] && r[(q + 2) % 4] == S[q + 2];
    assert n[q % 4] == S[q] && n[(q + 1) % 4] == S[q + 1] && n[(q + 2) % 4] == S[q + 2] && n[(q + 3) % 4] == S[q + 3];
    c' := [Smlad(w, n[q % 4], c[0]), Smlad(w, n[(q + 1) % 4], c[1]), Smlad(w, n[(q + 2) % 4], c[2]),
           Smlad(w, n[(q + 3) % 4], c[3])];
    r' := n;
    forall p: nat | q + 1 <= p < q + 4 && p < |S| ensures r'[p % 4] == S[p] {
      assert p == q + 1 || p == q + 2 || p == q + 3;
    }
  }

  /** Four outputs at stride 2: every output starts on an even element, the window renamed four taps a pass. */
  method FourAtStride2(E: seq<Word>, W: seq<Word>, t: nat, bias: int) returns (c: seq<int>)
    requires t + |W| + 3 <= |E|
    ensures |c| == 4 && forall i :: 0 <= i < 4 ==> c[i] == Acc(W, E, t + i, bias, |W|)
  {
    hide Smlad;
    hide Slots;
    var M := |W|;
    c := [bias, bias, bias, bias];
    var r := Loaded(E, t);
    LoadedSlots(E, t);
    var m := 0;
    while m + 4 <= M
      invariant 0 <= m <= M && |r| == 4 && Slots(r, E, t + m, 3)
      invariant |c| == 4 && forall i :: 0 <= i < 4 ==> c[i] == Acc(W, E, t + i, bias, m)
    {
      for j := 0 to 4
        invariant |r| == 4 && Slots(r, E, t + m + j, 3)
        invariant |c| == 4 && forall i :: 0 <= i < 4 ==> c[i] == Acc(W, E, t + i, bias, m + j)
      {
        r, c := Step4(E, W[m + j], t + m + j, r, c);
      }
      m := m + 4;
    }
    while m < M
      invariant 0 <= m <= M && |c| == 4 && forall i :: 0 <= i < 4 ==> c[i] == Acc(W, E, t + i, bias, m)
    {
      c := [Smlad(W[m], E[t + m], c[0]), Smlad(W[m], E[t + m + 1], c[1]),
            Smlad(W[m], E[t + m + 2], c[2]), Smlad(W[m], E[t + m + 3], c[3])];
      m := m + 1;
    }
  }

  /** The first three words in their slots. */
  function Loaded(S: seq<Word>, t: nat): (r: seq<Word>)
    requires t + 3 <= |S|
    ensures |r| == 4
  {
    seq(4, i requires 0 <= i < 4 => S[t + Distance(t, i)])
  }

  lemma LoadedSlots(S: seq<Word>, t: nat)
    requires t + 3 <= |S|
    ensures Slots(Loaded(S, t), S, t, 3)
  {
    hide Distance;
    forall q: nat | t <= q < t + 3 ensures Loaded(S, t)[q % 4] == S[q] { DistanceOf(t, q); }
  }

  lemma DistanceOf(t: nat, q: nat)
    requires t <= q < t + 3
    ensures Distance(t, q % 4) == q - t
  {
    assert (q % 4 - t) % 4 == (q - t) % 4 by { assert q == 4 * (q / 4) + q % 4; }
  }

  /** How far past t the first index congruent to i mod 4 lies, if within three. */
  function Distance(t: nat, i: int): (d: nat)
    ensures d < 3
  {
    var d := (i - t) % 4;
    if d < 3 then d else 0
  }

  // --- requantization ---

  /** A requantization shift: the rounding term 1 << (sh - 1) needs at least one, int32 has at most 31. */
  type Shift = s: int | 0 < s <= 31 witness 1

  /** Arithmetic shift right. */
  function Asr(x: int, sh: Shift): int { x / Pow2(sh) }

  /** SMMULR, a rounding shift, SSAT, in int32. */
  function Requant(acc: int, mult: int, sh: Shift, zp: int): (r: int)
    ensures Int8(r)
  {
    var v := Asr(Wrap32(Smmulr(acc, mult) + Pow2(sh - 1)), sh);
    Ssat8(Wrap32(v + zp))
  }

  /** The reference, in int64. */
  function RequantRef(acc: int, mult: int, sh: Shift, zp: int): (r: int)
    ensures Int8(r)
  {
    var v := Asr((acc * mult + TWO31) / TWO32 + Pow2(sh - 1), sh);
    Ssat8(v + zp)
  }

  /** h is the product's high word, rounded. */
  ghost predicate HighWord(product: int, h: int)
  {
    0x1_0000_0000 * h <= product + 0x8000_0000 < 0x1_0000_0000 * (h + 1)
  }

  /** v is h halved sh times, rounded. */
  ghost predicate Halved(h: int, sh: Shift, v: int)
  {
    Pow2(sh) * v <= h + Pow2(sh - 1) < Pow2(sh) * (v + 1)
  }

  function Gap(a: int, b: int): int { if a < b then b - a else a - b }

  /** r is the number from -128 to 127 that is nearest to x. */
  ghost predicate NearestInt8(r: int, x: int)
  {
    -128 <= r <= 127 && forall b :: -128 <= b <= 127 ==> Gap(r, x) <= Gap(b, x)
  }

  /** r is acc times mult over 2^32, rounded, over 2^sh, rounded, plus zp, brought to the nearest int8. */
  ghost predicate Requantized(r: int, acc: int, mult: int, sh: Shift, zp: int)
  {
    exists h, v :: HighWord(acc * mult, h) && Halved(h, sh, v) && NearestInt8(r, v + zp)
  }

  lemma Saturates(x: int)
    ensures NearestInt8(Ssat8(x), x)
  {
  }

  lemma HighWordOf(product: int)
    ensures HighWord(product, (product + TWO31) / TWO32)
  {
  }

  lemma HalvedOf(h: int, sh: Shift)
    ensures Halved(h, sh, Asr(h + Pow2(sh - 1), sh))
  {
    var d := Pow2(sh);
    Index.DivMod(h + Pow2(sh - 1), d);
    var v := Asr(h + Pow2(sh - 1), sh);
    Index.MulAdd(v, 1, d);
    assert v * d == d * v && (v + 1) * d == d * (v + 1);
  }

  /** The reference, without its shifts and its saturation. */
  lemma RequantIs(acc: int, mult: int, sh: Shift, zp: int)
    ensures Requantized(RequantRef(acc, mult, sh, zp), acc, mult, sh, zp)
  {
    hide HighWord;
    hide Halved;
    hide NearestInt8;
    hide Asr;
    hide Ssat8;
    var h := (acc * mult + TWO31) / TWO32;
    var v := Asr(h + Pow2(sh - 1), sh);
    HighWordOf(acc * mult);
    HalvedOf(h, sh);
    Saturates(v + zp);
  }

  lemma SmmulrBound(acc: int, mult: int)
    requires Int32(acc) && 0 <= mult < TWO31
    ensures -0x4000_0000 <= Smmulr(acc, mult) < 0x4000_0000
  {
    var m := TWO31 - 1;
    Index.MulMono(acc, m, mult);
    Index.MulMono(-TWO31, acc, mult);
    Index.MulMono(mult, m, m);
    Index.MulMono(mult, m, TWO31);
    assert -TWO31 * m <= acc * mult <= m * m;
  }

  /**
   For every int32 accumulator, every multiplier in [0, 2^31) and every shift in 1..31, the int32 form is the int64
   reference.
   */
  lemma RequantExact(acc: int, mult: int, sh: Shift, zp: int)
    requires Int32(acc) && 0 <= mult < TWO31 && Int8(zp)
    ensures Requant(acc, mult, sh, zp) == RequantRef(acc, mult, sh, zp)
  {
    hide Ssat8;
    SmmulrBound(acc, mult);
    Pow2Monotone(sh - 1, 30);
    assert Pow2(30) == 0x4000_0000 by { Pow2Thirty(); }
    var h := Smmulr(acc, mult) + Pow2(sh - 1);
    AsrBound(h, sh);
  }

  lemma Pow2Thirty()
    ensures Pow2(30) == 0x4000_0000
  {
    assert Pow2(10) == 0x400;
    assert Pow2(20) == 0x10_0000;
  }

  lemma AsrBound(x: int, sh: Shift)
    requires -0x4000_0000 <= x < TWO31
    ensures -0x4000_0000 <= Asr(x, sh) <= 0x4000_0000
  {
    var d := Pow2(sh);
    assert d >= 2;
    Index.DivMod(x, d);
    var q := x / d;
    if q > 0x4000_0000 { Index.MulMono(0x4000_0001, q, d); Index.MulMono(2, d, 0x4000_0001); }
    if q < -0x4000_0000 { Index.MulMono(q, -0x4000_0001, d); Index.MulMono(2, d, 0x4000_0001); }
  }

  // --- one row ---

  /** Words the row kernel may read for To outputs at stride s. */
  predicate Enough(n: nat, M: nat, s: nat, To: nat)
  {
    (s == 1 || s == 2) && (To > 0 ==> Index.Strided(To - 1, s) / 2 + M + 4 <= n)
  }

  /** Output t of a row, requantized. */
  function RowOut(E: seq<Word>, O: seq<Word>, W: seq<Word>, s: nat, bias: int, t: nat, mult: int, sh: Shift,
                  zp: int): (r: int)
    requires |E| == |O| && Index.Strided(t, s) / 2 + |W| <= |E|
  {
    Requant(RowAcc(E, O, W, s, bias, t), mult, sh, zp)
  }

  /** The outputs [0, t) of a row are in place. */
  ghost predicate RowDone(E: seq<Word>, O: seq<Word>, W: seq<Word>, s: nat, To: nat, bias: int, mult: int, sh: Shift,
                          zp: int, y: seq<int>, t: nat)
    requires |E| == |O| && Enough(|E|, |W|, s, To) && |y| == To && t <= To
  {
    forall q: nat :: q < t ==> y[q] == RowOut(E, O, W, s, bias, q, mult, sh, zp)
  }

  /** Four outputs at stride 1 stay inside the words the row may read. */
  lemma RowWords(n: nat, M: nat, To: nat, t: nat)
    requires Enough(n, M, 1, To) && t + 4 <= To && t % 4 == 0
    ensures t / 2 + M < n && forall q: nat :: q < t + 4 ==> Index.Strided(q, 1) / 2 + M <= n
  {
    assert forall q: nat :: Index.Strided(q, 1) == q;
  }

  lemma RowAccs(E: seq<Word>, O: seq<Word>, W: seq<Word>, bias: int, t: nat)
    requires |E| == |O| && t / 2 + |W| < |E| && t % 4 == 0
    requires forall q: nat :: q < t + 4 ==> Index.Strided(q, 1) / 2 + |W| <= |E|
    ensures RowAcc(E, O, W, 1, bias, t) == Acc(W, E, t / 2, bias, |W|)
    ensures RowAcc(E, O, W, 1, bias, t + 1) == Acc(W, O, t / 2, bias, |W|)
    ensures RowAcc(E, O, W, 1, bias, t + 2) == Acc(W, E, t / 2 + 1, bias, |W|)
    ensures RowAcc(E, O, W, 1, bias, t + 3) == Acc(W, O, t / 2 + 1, bias, |W|)
  {
    hide Acc;
  }

  /** Stride 1, four outputs at a time. */
  method DwRowStride1(E: seq<Word>, O: seq<Word>, W: seq<Word>, To: nat, mult: int, sh: Shift, zp: int, bias: int,
                      y: array<int>)
    returns (t: nat)
    requires |E| == |O| && Enough(|E|, |W|, 1, To) && y.Length == To
    modifies y
    ensures t <= To && RowDone(E, O, W, 1, To, bias, mult, sh, zp, y[..], t)
  {
    hide Requant;
    hide Acc;
    hide RowAcc;
    hide Index.Strided;
    t := 0;
    while t + 4 <= To
      invariant 0 <= t <= To && t % 4 == 0 && RowDone(E, O, W, 1, To, bias, mult, sh, zp, y[..], t)
    {
      RowWords(|E|, |W|, To, t);
      RowAccs(E, O, W, bias, t);
      var c0, c1, c2, c3 := FourAtStride1(E, O, W, t / 2, bias);
      y[t], y[t + 1] := Requant(c0, mult, sh, zp), Requant(c1, mult, sh, zp);
      y[t + 2], y[t + 3] := Requant(c2, mult, sh, zp), Requant(c3, mult, sh, zp);
      t := t + 4;
    }
  }

  /** Stride 2, four outputs at a time. */
  method DwRowStride2(E: seq<Word>, O: seq<Word>, W: seq<Word>, To: nat, mult: int, sh: Shift, zp: int, bias: int,
                      y: array<int>)
    returns (t: nat)
    requires |E| == |O| && Enough(|E|, |W|, 2, To) && y.Length == To
    modifies y
    ensures t <= To && RowDone(E, O, W, 2, To, bias, mult, sh, zp, y[..], t)
  {
    hide Requant;
    hide Acc;
    t := 0;
    while t + 4 <= To
      invariant 0 <= t <= To && RowDone(E, O, W, 2, To, bias, mult, sh, zp, y[..], t)
    {
      var c := FourAtStride2(E, W, t, bias);
      assert c[0] == RowAcc(E, O, W, 2, bias, t) && c[1] == RowAcc(E, O, W, 2, bias, t + 1);
      assert c[2] == RowAcc(E, O, W, 2, bias, t + 2) && c[3] == RowAcc(E, O, W, 2, bias, t + 3);
      y[t], y[t + 1] := Requant(c[0], mult, sh, zp), Requant(c[1], mult, sh, zp);
      y[t + 2], y[t + 3] := Requant(c[2], mult, sh, zp), Requant(c[3], mult, sh, zp);
      t := t + 4;
    }
  }

  /** One channel's outputs: blocks of four, then the remainder one by one. */
  method DwRow(E: seq<Word>, O: seq<Word>, W: seq<Word>, s: nat, To: nat, mult: int, sh: Shift, zp: int, bias: int,
               y: array<int>)
    requires |E| == |O| && Enough(|E|, |W|, s, To) && y.Length == To
    modifies y
    ensures RowDone(E, O, W, s, To, bias, mult, sh, zp, y[..], To)
  {
    hide Requant;
    hide Acc;
    var t: nat;
    if s == 1 {
      t := DwRowStride1(E, O, W, To, mult, sh, zp, bias, y);
    } else {
      t := DwRowStride2(E, O, W, To, mult, sh, zp, bias, y);
    }
    while t < To
      invariant 0 <= t <= To && RowDone(E, O, W, s, To, bias, mult, sh, zp, y[..], t)
    {
      var st := Index.Strided(t, s);
      var c := SingleOutput(if st % 2 == 1 then O else E, W, st / 2, bias);
      y[t] := Requant(c, mult, sh, zp);
      t := t + 1;
    }
  }

  method SingleOutput(S: seq<Word>, W: seq<Word>, off: nat, bias: int) returns (c: int)
    requires off + |W| <= |S|
    ensures c == Acc(W, S, off, bias, |W|)
  {
    c := bias;
    for m := 0 to |W|
      invariant c == Acc(W, S, off, bias, m)
    {
      c := Smlad(W[m], S[off + m], c);
    }
  }

  // --- what the packed sum is ---

  /** sum over k < n of w[k] * (row byte t0 + k). */
  function TapSum(w: seq<int>, x: seq<int>, p: int, zp: int, t0: int, n: nat): int
    requires n <= |w|
  {
    if n == 0 then 0 else TapSum(w, x, p, zp, t0, n - 1) + w[n - 1] * PadByte(x, p, zp, t0 + n - 1)
  }

  /** sum over k < n of w[k]. */
  function WeightSum(w: seq<int>, n: nat): int
    requires n <= |w|
  {
    if n == 0 then 0 else WeightSum(w, n - 1) + w[n - 1]
  }

  /** The definition: taps that fall inside the input, each against the input less its zero point. */
  function DwSum(w: seq<int>, x: seq<int>, p: int, zp: int, t0: int, n: nat): int
    requires n <= |w|
  {
    if n == 0 then 0
    else
      var i := t0 + n - 1 - p;
      DwSum(w, x, p, zp, t0, n - 1) + (if 0 <= i < |x| then w[n - 1] * (x[i] - zp) else 0)
  }

  /** Padding with the zero point and folding -zp * sum(w) into the start is subtracting it everywhere. */
  lemma {:induction false} ZeroPointFolds(w: seq<int>, x: seq<int>, p: int, zp: int, t0: int, n: nat)
    requires n <= |w|
    ensures TapSum(w, x, p, zp, t0, n) - zp * WeightSum(w, n) == DwSum(w, x, p, zp, t0, n)
  {
    if n > 0 {
      ZeroPointFolds(w, x, p, zp, t0, n - 1);
      var i := t0 + n - 1 - p;
      FoldSum(zp, WeightSum(w, n - 1), w[n - 1]);
      if 0 <= i < |x| { FoldTerm(w[n - 1], x[i], zp); } else { FoldTerm(w[n - 1], zp, zp); }
      assert PadByte(x, p, zp, t0 + n - 1) == if 0 <= i < |x| then x[i] else zp;
    }
  }

  lemma FoldSum(z: int, a: int, b: int)
    ensures z * (a + b) == z * a + z * b
  {
  }

  lemma FoldTerm(a: int, b: int, z: int)
    ensures a * (b - z) == a * b - z * a
  {
  }

  /** Weights packed two to a word, an odd count padded with a zero tap. */
  ghost predicate PackedWeights(W: seq<Word>, w: seq<int>)
  {
    && |W| == (|w| + 1) / 2
    && forall m :: 0 <= m < |W| ==> IsPair(W[m], w[2 * m], if 2 * m + 1 < |w| then w[2 * m + 1] else 0)
  }

  /** Two more taps, the second of an odd count being a zero one. */
  lemma TwoTaps(w: seq<int>, x: seq<int>, p: int, zp: int, t0: int, k: nat)
    requires k < |w|
    ensures TapSum(w, x, p, zp, t0, Min(k + 2, |w|)) ==
            TapSum(w, x, p, zp, t0, k) + w[k] * PadByte(x, p, zp, t0 + k)
            + (if k + 1 < |w| then w[k + 1] else 0) * PadByte(x, p, zp, t0 + k + 1)
  {
    hide PadByte;
    assert TapSum(w, x, p, zp, t0, k + 1) == TapSum(w, x, p, zp, t0, k) + w[k] * PadByte(x, p, zp, t0 + k);
  }

  /** The chain of SMLADs is the tap sum, wrapped to 32 bits once; the zero-padded odd tap adds nothing. */
  lemma {:induction false} AccIsTapSum(W: seq<Word>, w: seq<int>, S: seq<Word>, off: nat, x: seq<int>, p: int, zp: int,
                                       t0: int, c: int, m: nat)
    requires PackedWeights(W, w) && m <= |W| && off + m <= |S| && Int32(c)
    requires forall q :: 0 <= q < m ==>
      IsPair(S[off + q], PadByte(x, p, zp, t0 + 2 * q), PadByte(x, p, zp, t0 + 2 * q + 1))
    ensures Acc(W, S, off, c, m) == Wrap32(c + TapSum(w, x, p, zp, t0, Min(2 * m, |w|)))
  {
    hide Lo;
    hide Hi;
    hide Wrap32;
    hide PadByte;
    hide TapSum;
    if m > 0 {
      AccIsTapSum(W, w, S, off, x, p, zp, t0, c, m - 1);
      var k := 2 * (m - 1);
      assert IsPair(W[m - 1], w[k], if k + 1 < |w| then w[k + 1] else 0);
      assert IsPair(S[off + (m - 1)], PadByte(x, p, zp, t0 + 2 * (m - 1)), PadByte(x, p, zp, t0 + 2 * (m - 1) + 1));
      TwoTaps(w, x, p, zp, t0, k);
      WrapAdd(c + TapSum(w, x, p, zp, t0, k),
              Lo(W[m - 1]) * Lo(S[off + m - 1]) + Hi(W[m - 1]) * Hi(S[off + m - 1]));
    } else {
      NoTaps(w, x, p, zp, t0);
      assert Wrap32(c) == c;
    }
  }

  lemma NoTaps(w: seq<int>, x: seq<int>, p: int, zp: int, t0: int)
    ensures TapSum(w, x, p, zp, t0, 0) == 0
  {
  }

  /** Taps up to which int8 weights against int8 inputs less an int8 zero point stay inside int32. */
  const MAX_TAPS: nat := 65793

  lemma {:induction false} SumFits(w: seq<int>, x: seq<int>, p: int, zp: int, t0: int, n: nat)
    requires n <= |w| && Int8(zp) && (forall k :: 0 <= k < |w| ==> Int8(w[k]))
      && (forall i :: 0 <= i < |x| ==> Int8(x[i]))
    ensures -32640 * n <= DwSum(w, x, p, zp, t0, n) <= 32640 * n
    ensures n <= MAX_TAPS ==> Int32(DwSum(w, x, p, zp, t0, n))
  {
    if n > 0 {
      SumFits(w, x, p, zp, t0, n - 1);
      var i := t0 + n - 1 - p;
      if 0 <= i < |x| { TermFits(w[n - 1], x[i] - zp); }
    }
  }

  lemma TermFits(a: int, b: int)
    requires Int8(a) && -255 <= b <= 255
    ensures -32640 <= a * b <= 32640
  {
    if b >= 0 {
      Index.MulMono(a, 127, b);
      Index.MulMono(-128, a, b);
    } else {
      Index.MulMono(a, 127, -b);
      Index.MulMono(-128, a, -b);
      assert a * -b == -(a * b);
    }
  }

  lemma {:induction false} WeightSumFits(w: seq<int>, n: nat)
    requires n <= |w| && forall k :: 0 <= k < |w| ==> Int8(w[k])
    ensures -128 * n <= WeightSum(w, n) <= 127 * n
  {
    if n > 0 { WeightSumFits(w, n - 1); }
  }

  /** One channel: input row, weights and their packing, requantization, folded bias. */
  datatype Channel = Channel(x: seq<int>, w: seq<int>, W: seq<Word>, mult: int, sh: Shift, bias: int)
  {
    ghost predicate Valid(T: nat, K: nat, zx: int)
    {
      && |x| == T && |w| == K && PackedWeights(W, w)
      && (forall i :: 0 <= i < T ==> Int8(x[i])) && (forall k :: 0 <= k < K ==> Int8(w[k]))
      && 0 <= mult < TWO31 && bias == -(zx * WeightSum(w, K))
    }
  }

  /** Outputs of a row of T under K taps padded by K / 2 each side, at stride s. */
  function Outputs(T: nat, K: nat, s: nat): (n: int)
    requires s > 0
  {
    (T + 2 * (K / 2) - K) / s + 1
  }

  /** Output t exists if and only if its window lies inside the padded row. */
  lemma OutputsIff(T: nat, K: nat, s: nat, t: nat)
    requires T > 0 && s > 0
    ensures t < Outputs(T, K, s) <==> t * s + K <= T + 2 * (K / 2)
  {
    var n := T + 2 * (K / 2) - K;
    Index.DivMod(n, s);
    if t <= n / s { Index.MulMono(t, n / s, s); }
    if t > n / s { Index.MulMono(n / s + 1, t, s); Index.MulAdd(n / s, 1, s); }
  }

  /** dw_i8_ref: the int64 sum over the taps inside the input, requantized in int64. */
  function DwRef(c: Channel, s: nat, zx: int, zy: int, t: nat): (r: int)
  {
    RequantRef(DwSum(c.w, c.x, |c.w| / 2, zx, Index.Strided(t, s), |c.w|), c.mult, c.sh, zy)
  }

  /** r is the sum of the K taps that fall inside the input, tap k at position t s + k - K / 2, requantized. */
  ghost predicate RightAt(r: int, c: Channel, s: nat, zx: int, zy: int, t: nat)
  {
    Requantized(r, DwSum(c.w, c.x, |c.w| / 2, zx, t * s, |c.w|), c.mult, c.sh, zy)
  }

  lemma RefIsRight(c: Channel, s: nat, zx: int, zy: int, t: nat)
    ensures RightAt(DwRef(c, s, zx, zy, t), c, s, zx, zy, t)
  {
    hide Requantized;
    hide RequantRef;
    hide DwSum;
    RequantIs(DwSum(c.w, c.x, |c.w| / 2, zx, Index.Strided(t, s), |c.w|), c.mult, c.sh, zy);
  }

  lemma OutputsNat(T: nat, K: nat, s: nat)
    requires T > 0 && (s == 1 || s == 2)
    ensures Outputs(T, K, s) >= 0
  {
  }

  lemma StartBound(T: nat, K: nat, s: nat, t: nat)
    requires T > 0 && (s == 1 || s == 2) && t < Outputs(T, K, s)
    ensures Index.Strided(t, s) <= T + 2 * (K / 2) - K
  {
  }

  /** The pair words of a padded row, even- and odd-aligned. */
  ghost predicate Paired(E: seq<Word>, O: seq<Word>, x: seq<int>, p: int, zx: int)
  {
    && |E| == |O|
    && (forall i :: 0 <= i < |E| ==> IsPair(E[i], PadByte(x, p, zx, 2 * i), PadByte(x, p, zx, 2 * i + 1)))
    && (forall i :: 0 <= i < |O| ==> IsPair(O[i], PadByte(x, p, zx, 2 * i + 1), PadByte(x, p, zx, 2 * i + 2)))
  }

  /** Reading E at even starts and O at odd ones gives the row's pairs from any start. */
  lemma PairsFrom(E: seq<Word>, O: seq<Word>, x: seq<int>, p: int, zx: int, t0: nat, q: nat)
    requires Paired(E, O, x, p, zx) && t0 / 2 + q < |E|
    ensures IsPair((if t0 % 2 == 1 then O else E)[t0 / 2 + q], PadByte(x, p, zx, t0 + 2 * q),
                   PadByte(x, p, zx, t0 + 2 * q + 1))
  {
    hide Lo;
    hide Hi;
    hide PadByte;
    assert 2 * (t0 / 2 + q) + (if t0 % 2 == 1 then 1 else 0) == t0 + 2 * q;
  }

  lemma ChannelParts(c: Channel, T: nat, K: nat, zx: int)
    requires c.Valid(T, K, zx)
    ensures |c.w| == K && PackedWeights(c.W, c.w) && |c.W| == (K + 1) / 2 && Min(2 * |c.W|, K) == K
    ensures (forall i :: 0 <= i < |c.x| ==> Int8(c.x[i])) && (forall k :: 0 <= k < K ==> Int8(c.w[k]))
    ensures c.bias == -(zx * WeightSum(c.w, K))
  {
  }

  /** The accumulator of output t is the definition's sum. */
  lemma AccIsDwSum(c: Channel, T: nat, K: nat, zx: int, t0: nat, E: seq<Word>, O: seq<Word>)
    requires c.Valid(T, K, zx) && K <= MAX_TAPS && Int8(zx) && Paired(E, O, c.x, K / 2, zx) && t0 / 2 + |c.W| <= |E|
    ensures Acc(c.W, if t0 % 2 == 1 then O else E, t0 / 2, c.bias, |c.W|) == DwSum(c.w, c.x, K / 2, zx, t0, K)
    ensures Int32(DwSum(c.w, c.x, K / 2, zx, t0, K))
  {
    hide Acc;
    hide IsPair;
    hide TapSum;
    hide DwSum;
    hide PadByte;
    hide Channel.Valid;
    hide PackedWeights;
    hide WeightSum;
    hide Wrap32;
    ChannelParts(c, T, K, zx);
    var S := if t0 % 2 == 1 then O else E;
    forall q: nat | q < |c.W|
      ensures IsPair(S[t0 / 2 + q], PadByte(c.x, K / 2, zx, t0 + 2 * q), PadByte(c.x, K / 2, zx, t0 + 2 * q + 1))
    {
      PairsFrom(E, O, c.x, K / 2, zx, t0, q);
    }
    WeightSumFits(c.w, K);
    BiasFits(zx, WeightSum(c.w, K), K);
    AccIsTapSum(c.W, c.w, S, t0 / 2, c.x, K / 2, zx, t0, c.bias, |c.W|);
    ZeroPointFolds(c.w, c.x, K / 2, zx, t0, K);
    SumFits(c.w, c.x, K / 2, zx, t0, K);
  }

  /** What the packed kernel stores is what the reference computes. */
  lemma OutputIsRef(c: Channel, T: nat, K: nat, s: nat, zx: int, zy: int, t: nat, E: seq<Word>, O: seq<Word>)
    requires c.Valid(T, K, zx) && K <= MAX_TAPS && Int8(zx) && Int8(zy) && (s == 1 || s == 2)
    requires Paired(E, O, c.x, K / 2, zx) && Index.Strided(t, s) / 2 + |c.W| <= |E|
    ensures RowOut(E, O, c.W, s, c.bias, t, c.mult, c.sh, zy) == DwRef(c, s, zx, zy, t)
  {
    hide Requant;
    hide RequantRef;
    hide Index.Strided;
    hide Acc;
    hide DwSum;
    hide Paired;
    AccIsDwSum(c, T, K, zx, Index.Strided(t, s), E, O);
    RequantExact(DwSum(c.w, c.x, K / 2, zx, Index.Strided(t, s), K), c.mult, c.sh, zy);
  }

  lemma BiasFits(z: int, sum: int, K: nat)
    requires Int8(z) && -128 * K <= sum <= 127 * K && K <= MAX_TAPS
    ensures Int32(-(z * sum))
  {
    if z >= 0 {
      Index.MulMono(sum, 127 * K, z);
      Index.MulMono(-128 * K, sum, z);
      Index.MulMono(z, 127, 128 * K);
    } else {
      Index.MulMono(sum, 127 * K, -z);
      Index.MulMono(-128 * K, sum, -z);
      Index.MulMono(-z, 128, 128 * K);
    }
    assert sum * -z == -(z * sum) && 128 * (128 * K) < TWO31;
  }

  /** dw_i8 over all channels, the byte row and pair buffers reused from one to the next. */
  method DwI8(channels: seq<Channel>, T: nat, K: nat, s: nat, zx: int, zy: int) returns (rows: seq<seq<int>>)
    requires T > 0 && 0 < K <= MAX_TAPS && (s == 1 || s == 2) && Int8(zx) && Int8(zy)
    requires forall c :: 0 <= c < |channels| ==> channels[c].Valid(T, K, zx)
    ensures |rows| == |channels|
    ensures forall c :: 0 <= c < |rows| ==> |rows[c]| == Outputs(T, K, s)
    ensures forall c, t: nat :: 0 <= c < |rows| && t < |rows[c]| ==> rows[c][t] == DwRef(channels[c], s, zx, zy, t)
    ensures forall c, t: nat :: 0 <= c < |rows| && t < |rows[c]| ==> RightAt(rows[c][t], channels[c], s, zx, zy, t)
  {
    hide Channel.Valid;
    hide DwRef;
    hide RightAt;
    OutputsNat(T, K, s);
    var p, To, M := K / 2, Outputs(T, K, s), (K + 1) / 2;
    RoundUp(T + 2 * p + 2 * M + 16);
    var L := (T + 2 * p + 2 * M + 16 + 3) / 4 * 4;
    var xb := new int[L + 4](_ => zx);
    var E, O := new Word[L / 2 + 2](_ => 0), new Word[L / 2 + 2](_ => 0);
    rows := [];
    for ch := 0 to |channels|
      invariant |rows| == ch
      invariant forall i :: 0 <= i < xb.Length && !(p <= i < p + T) ==> xb[i] == zx
      invariant forall c :: 0 <= c < ch ==> |rows[c]| == To
      invariant forall c, t: nat :: 0 <= c < ch && t < To ==> rows[c][t] == DwRef(channels[c], s, zx, zy, t)
    {
      var row := DwChannel(channels[ch], T, K, s, zx, zy, To, L, xb, E, O);
      rows := rows + [row];
    }
    forall c, t: nat | 0 <= c < |rows| && t < |rows[c]| ensures RightAt(rows[c][t], channels[c], s, zx, zy, t) {
      RefIsRight(channels[c], s, zx, zy, t);
    }
  }

  lemma RoundUp(n: nat)
    ensures n <= (n + 3) / 4 * 4 && (n + 3) / 4 * 4 % 4 == 0
  {
  }

  method CopyRow(xb: array<int>, x: seq<int>, p: nat)
    requires p + |x| <= xb.Length
    modifies xb
    ensures forall i :: 0 <= i < xb.Length ==> xb[i] == if p <= i < p + |x| then x[i - p] else old(xb[i])
  {
    for i := 0 to |x|
      invariant forall q :: 0 <= q < xb.Length ==> xb[q] == if p <= q < p + i then x[q - p] else old(xb[q])
    {
      xb[p + i] := x[i];
    }
  }

  /** One channel's row copied between the pads and paired. */
  method PairRow(x: seq<int>, p: nat, zx: int, L: nat, xb: array<int>, E: array<Word>, O: array<Word>)
    requires Int8(zx) && (forall i :: 0 <= i < |x| ==> Int8(x[i])) && p + |x| <= xb.Length
    requires L % 4 == 0 && xb.Length == L + 4 && E.Length == O.Length == L / 2 + 2 && E != O
    requires forall i :: 0 <= i < xb.Length && !(p <= i < p + |x|) ==> xb[i] == zx
    modifies xb, E, O
    ensures forall i :: 0 <= i < xb.Length && !(p <= i < p + |x|) ==> xb[i] == zx
    ensures Paired(E[..L / 2], O[..L / 2], x, p, zx)
  {
    hide Lo;
    hide Hi;
    CopyRow(xb, x, p);
    BuildPairs(xb, L, E, O);
  }

  /** One channel. */
  method DwChannel(c: Channel, T: nat, K: nat, s: nat, zx: int, zy: int, To: nat, L: nat, xb: array<int>,
                   E: array<Word>, O: array<Word>)
    returns (row: seq<int>)
    requires T > 0 && 0 < K <= MAX_TAPS && (s == 1 || s == 2) && Int8(zx) && Int8(zy) && c.Valid(T, K, zx)
    requires To == Outputs(T, K, s) && L % 4 == 0 && L >= T + 2 * (K / 2) + 2 * ((K + 1) / 2) + 16
    requires xb.Length == L + 4 && E.Length == O.Length == L / 2 + 2 && E != O
    requires forall i :: 0 <= i < xb.Length && !(K / 2 <= i < K / 2 + T) ==> xb[i] == zx
    modifies xb, E, O
    ensures forall i :: 0 <= i < xb.Length && !(K / 2 <= i < K / 2 + T) ==> xb[i] == zx
    ensures |row| == To && forall t: nat :: t < To ==> row[t] == DwRef(c, s, zx, zy, t)
  {
    hide DwRef;
    hide Paired;
    hide RowDone;
    PairRow(c.x, K / 2, zx, L, xb, E, O);
    RoomForRow(T, K, s, L);
    var y := new int[To];
    var e, o := E[..L / 2], O[..L / 2];
    DwRow(e, o, c.W, s, To, c.mult, c.sh, zy, c.bias, y);
    row := y[..];
    RowIsRef(c, T, K, s, zx, zy, To, e, o, row);
  }

  lemma RoomForRow(T: nat, K: nat, s: nat, L: nat)
    requires T > 0 && (s == 1 || s == 2) && L >= T + 2 * (K / 2) + 2 * ((K + 1) / 2) + 16
    ensures Outputs(T, K, s) >= 0 && Enough(L / 2, (K + 1) / 2, s, Outputs(T, K, s))
  {
    OutputsNat(T, K, s);
    if Outputs(T, K, s) > 0 { StartBound(T, K, s, Outputs(T, K, s) - 1); }
  }

  lemma RowIsRef(c: Channel, T: nat, K: nat, s: nat, zx: int, zy: int, To: nat, E: seq<Word>, O: seq<Word>,
                 row: seq<int>)
    requires c.Valid(T, K, zx) && T > 0 && K <= MAX_TAPS && Int8(zx) && Int8(zy) && (s == 1 || s == 2)
    requires To == Outputs(T, K, s) && Paired(E, O, c.x, K / 2, zx) && Enough(|E|, |c.W|, s, To) && |row| == To
    requires RowDone(E, O, c.W, s, To, c.bias, c.mult, c.sh, zy, row, To)
    ensures forall t: nat :: t < To ==> row[t] == DwRef(c, s, zx, zy, t)
  {
    hide DwRef;
    hide RowOut;
    hide Paired;
    hide Outputs;
    forall t: nat | t < To ensures row[t] == DwRef(c, s, zx, zy, t) {
      OutputIsRef(c, T, K, s, zx, zy, t, E, O);
    }
  }
}
