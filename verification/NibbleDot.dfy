/**
 scripts/bench23.c, bench24.c and bench29.c: the Q4_0 by Q8_0 dot product, nibbles unpacked two to a word, against the
 scalar loop; the bias taken out of the inner loop; and the matrix product in two loop orders and two tiles. Float
 operations are uninterpreted.
 */
module NibbleDot {
  import opened Simd32

  const QK: nat := 32

  /**
   A block of 32 weights: a scale and 16 bytes, weight j in the low nibble of byte j, weight j + 16 in its high one.
   */
  datatype Block4<F> = Block4(d: F, qs: seq<int>)
  {
    predicate Valid() { |qs| == 16 && forall j :: 0 <= j < 16 ==> 0 <= qs[j] < 0x100 }
  }

  /** A block of 32 activations. */
  datatype Block8<F> = Block8(d: F, qs: seq<int>)
  {
    predicate Valid() { |qs| == 32 && forall j :: 0 <= j < 32 ==> Int8(qs[j]) }
  }

  // --- one block, exactly ---

  /** Weight j of a block. */
  function Weight<F>(x: Block4<F>, j: nat): int
    requires x.Valid() && j < 32
  {
    (if j < 16 then x.qs[j] % 16 else x.qs[j - 16] / 16) - 8
  }

  /** The products of byte columns below n: weights j and j + 16, biased by `b`. */
  function Half<F>(x: Block4<F>, y: Block8<F>, b: int, n: nat): int
    requires x.Valid() && y.Valid() && n <= 16
  {
    if n == 0 then 0
    else Half(x, y, b, n - 1) + (Weight(x, n - 1) + b) * y.qs[n - 1] + (Weight(x, n + 15) + b) * y.qs[n + 15]
  }

  /** The dot product of a block, weight by weight. */
  function Plain<F>(x: Block4<F>, y: Block8<F>, n: nat): int
    requires x.Valid() && y.Valid() && n <= 32
  {
    if n == 0 then 0 else Plain(x, y, n - 1) + Weight(x, n - 1) * y.qs[n - 1]
  }

  function SumOf(q: seq<int>, n: nat): int
    requires n <= |q|
  {
    if n == 0 then 0 else SumOf(q, n - 1) + q[n - 1]
  }

  function BlockDot<F>(x: Block4<F>, y: Block8<F>): int
    requires x.Valid() && y.Valid()
  {
    Plain(x, y, 32)
  }

  /** The plain sum, its two halves side by side. */
  lemma {:induction false} HalvesAreParts<F>(x: Block4<F>, y: Block8<F>, n: nat)
    requires x.Valid() && y.Valid() && n <= 16
    ensures Half(x, y, 0, n) == Plain(x, y, n) + (Plain(x, y, 16 + n) - Plain(x, y, 16))
  {
    if n > 0 {
      HalvesAreParts(x, y, n - 1);
      assert Plain(x, y, 16 + n) == Plain(x, y, 16 + n - 1) + Weight(x, 16 + n - 1) * y.qs[16 + n - 1];
    }
  }

  /** Adding 8 to every weight adds 8 times the activations' sum. */
  lemma {:induction false} BiasHoists<F>(x: Block4<F>, y: Block8<F>, n: nat)
    requires x.Valid() && y.Valid() && n <= 16
    ensures Half(x, y, 8, n) == Half(x, y, 0, n) + 8 * (SumOf(y.qs, n) + (SumOf(y.qs, 16 + n) - SumOf(y.qs, 16)))
  {
    if n > 0 {
      BiasHoists(x, y, n - 1);
      assert SumOf(y.qs, 16 + n) == SumOf(y.qs, 16 + n - 1) + y.qs[16 + n - 1];
    }
  }

  /** No prefix of the sum comes near the ends of int32, with the bias or without. */
  lemma {:induction false} HalfBound<F>(x: Block4<F>, y: Block8<F>, b: int, n: nat)
    requires x.Valid() && y.Valid() && n <= 16 && 0 <= b <= 8
    ensures -4096 * n <= Half(x, y, b, n) <= 4096 * n
  {
    if n > 0 {
      HalfBound(x, y, b, n - 1);
      Term(Weight(x, n - 1) + b, y.qs[n - 1]);
      Term(Weight(x, n + 15) + b, y.qs[n + 15]);
    }
  }

  lemma Term(a: int, b: int)
    requires -8 <= a <= 15 && Int8(b)
    ensures -2048 <= a * b <= 2048
  {
    if b >= 0 { assert -8 * b <= a * b <= 15 * b; } else { assert 15 * b <= a * b <= -8 * b; }
  }

  // --- words ---

  /** The word of four bytes as memcpy reads them, lowest address first. */
  function WordAt(q: seq<int>, j: nat): Word
    requires j + 4 <= |q|
  {
    WordOf(q[j], q[j + 1], q[j + 2], q[j + 3])
  }

  /** w & 0x0F0F0F0F: every byte's low nibble. */
  function LowNibbles(w: Word): Word
  {
    WordOf(ByteOf(w, 0) % 16, ByteOf(w, 1) % 16, ByteOf(w, 2) % 16, ByteOf(w, 3) % 16)
  }

  /** (w >> 4) & 0x0F0F0F0F. */
  function HighNibbles(w: Word): Word { LowNibbles(w / 16) }

  lemma HighOfByte(v: nat)
    ensures v / 16 % 0x100 % 16 == v % 0x100 / 16
  {
    var q, r := v / 0x100, v % 0x100;
    var t, l := r / 16, r % 16;
    var q1, q0 := q / 16, q % 16;
    assert v == 16 * (256 * q1 + 16 * q0 + t) + l;
    Digit(256 * q1 + 16 * q0 + t, q1, q0, t);
  }

  lemma Digit(z: nat, q1: nat, q0: nat, t: nat)
    requires z == 256 * q1 + 16 * q0 + t && q0 < 16 && t < 16
    ensures z % 0x100 == 16 * q0 + t && z % 0x100 % 16 == t
  {
  }

  /** Shifted right by four, a byte's low nibble is its high one. */
  lemma HighByte(w: Word, i: nat)
    requires i < 4
    ensures ByteOf(w / 16, i) % 16 == ByteOf(w, i) / 16
  {
    if i == 0 {
      HighOfByte(w);
    } else if i == 1 {
      HighOfByte(w / 0x100);
      assert w / 16 / 0x100 == w / 0x100 / 16;
    } else if i == 2 {
      HighOfByte(w / TWO16);
      assert w / 16 / TWO16 == w / TWO16 / 16;
    } else {
      HighOfByte(w / 0x100_0000);
      assert w / 16 / 0x100_0000 == w / 0x100_0000 / 16;
    }
  }

  /** w >> 8 moves bytes 1 and 3 to where 0 and 2 were. */
  lemma ShiftByte(w: Word)
    ensures ByteOf(w / 0x100, 0) == ByteOf(w, 1) && ByteOf(w / 0x100, 2) == ByteOf(w, 3)
  {
    assert w / 0x100 / TWO16 == w / 0x100_0000;
  }

  lemma LowBytes(w: Word, i: nat)
    requires i < 4
    ensures ByteOf(LowNibbles(w), i) == ByteOf(w, i) % 16
  {
    hide ByteOf;
    hide WordOf;
    BytesOfWord(ByteOf(w, 0) % 16, ByteOf(w, 1) % 16, ByteOf(w, 2) % 16, ByteOf(w, 3) % 16);
    SmallByte(ByteOf(w, i));
  }

  lemma SmallByte(b: nat)
    ensures b % 16 % 0x100 == b % 16
  {
  }

  lemma NibbleBytes(w: Word, i: nat)
    requires i < 4
    ensures ByteOf(LowNibbles(w), i) == ByteOf(w, i) % 16 && ByteOf(HighNibbles(w), i) == ByteOf(w, i) / 16
  {
    hide ByteOf;
    hide WordOf;
    hide LowNibbles;
    LowBytes(w, i);
    LowBytes(w / 16, i);
    HighByte(w, i);
  }

  /** The halfwords of UXTB16, of w and of w >> 8. */
  lemma UnpackPairs(w: Word)
    ensures IsPair(Uxtb16(w), ByteOf(w, 0), ByteOf(w, 2)) && IsPair(Uxtb16(w / 0x100), ByteOf(w, 1), ByteOf(w, 3))
  {
    ShiftByte(w);
    hide ByteOf;
    hide Lo;
    hide Hi;
  }

  const EIGHTS: Word := 0x0008_0008

  lemma MinusEight(w: Word, a: int, b: int)
    requires IsPair(w, a, b) && 0 <= a < 0x100 && 0 <= b < 0x100
    ensures IsPair(Ssub16(w, EIGHTS), a - 8, b - 8)
  {
    assert Lo(EIGHTS) == 8 && Hi(EIGHTS) == 8;
  }

  /** Four unpacked words: low nibbles of bytes 0 and 2, of 1 and 3, then the high ones. */
  datatype Four = Four(l0: Word, l1: Word, h0: Word, h1: Word)
  {
    /** The words hold these weights, four low and four high. */
    predicate Hold(a: seq<int>, b: seq<int>)
      requires |a| == 4 && |b| == 4
    {
      IsPair(l0, a[0], a[2]) && IsPair(l1, a[1], a[3]) && IsPair(h0, b[0], b[2]) && IsPair(h1, b[1], b[3])
    }
  }

  /** The weights of byte columns [j, j + 4), biased: low nibbles, then high. */
  function Lows<F>(x: Block4<F>, b: int, j: nat): (s: seq<int>)
    requires x.Valid() && j + 4 <= 16
    ensures |s| == 4
  {
    [Weight(x, j) + b, Weight(x, j + 1) + b, Weight(x, j + 2) + b, Weight(x, j + 3) + b]
  }

  function Highs<F>(x: Block4<F>, b: int, j: nat): (s: seq<int>)
    requires x.Valid() && j + 4 <= 16
    ensures |s| == 4
  {
    [Weight(x, j + 16) + b, Weight(x, j + 17) + b, Weight(x, j + 18) + b, Weight(x, j + 19) + b]
  }

  lemma BytesAt(q: seq<int>, j: nat)
    requires j + 4 <= |q| && forall i :: j <= i < j + 4 ==> 0 <= q[i] < 0x100
    ensures var w := WordAt(q, j);
      ByteOf(w, 0) == q[j] && ByteOf(w, 1) == q[j + 1] && ByteOf(w, 2) == q[j + 2] && ByteOf(w, 3) == q[j + 3]
  {
    BytesOfWord(q[j], q[j + 1], q[j + 2], q[j + 3]);
  }

  /** The nibbles of four bytes, unpacked without the bias. */
  method UnpackNibbles<F>(x: Block4<F>, j: nat) returns (f: Four)
    requires x.Valid() && j + 4 <= 16
    ensures f.Hold(Lows(x, 8, j), Highs(x, 8, j))
  {
    hide ByteOf;
    hide WordOf;
    hide IsPair;
    hide LowNibbles;
    hide HighNibbles;
    hide Uxtb16;
    var xv := WordAt(x.qs, j);
    BytesAt(x.qs, j);
    hide WordAt;
    NibbleBytes(xv, 0);
    NibbleBytes(xv, 1);
    NibbleBytes(xv, 2);
    NibbleBytes(xv, 3);
    var lo, hi := LowNibbles(xv), HighNibbles(xv);
    UnpackPairs(lo);
    UnpackPairs(hi);
    f := Four(Uxtb16(lo), Uxtb16(lo / 0x100), Uxtb16(hi), Uxtb16(hi / 0x100));
  }

  /** WUNPACK: the same with 8 taken from every halfword. */
  method UnpackWeights<F>(x: Block4<F>, j: nat) returns (f: Four)
    requires x.Valid() && j + 4 <= 16
    ensures f.Hold(Lows(x, 0, j), Highs(x, 0, j))
  {
    hide IsPair;
    hide Ssub16;
    var u := UnpackNibbles(x, j);
    MinusEight(u.l0, Weight(x, j) + 8, Weight(x, j + 2) + 8);
    MinusEight(u.l1, Weight(x, j + 1) + 8, Weight(x, j + 3) + 8);
    MinusEight(u.h0, Weight(x, j + 16) + 8, Weight(x, j + 18) + 8);
    MinusEight(u.h1, Weight(x, j + 17) + 8, Weight(x, j + 19) + 8);
    f := Four(Ssub16(u.l0, EIGHTS), Ssub16(u.l1, EIGHTS), Ssub16(u.h0, EIGHTS), Ssub16(u.h1, EIGHTS));
  }

  /** YUNPACK: activations j to j + 3, and those 16 further on. */
  method UnpackActs<F>(y: Block8<F>, j: nat) returns (f: Four)
    requires y.Valid() && j + 4 <= 16
    ensures f.Hold(y.qs[j..j + 4], y.qs[16 + j..20 + j])
  {
    hide WordOf;
    hide Sxtb16Ror8;
    hide Sxtb16;
    var p, q := WordAt(y.qs, j), WordAt(y.qs, 16 + j);
    SxtbOfWord(y.qs[j], y.qs[j + 1], y.qs[j + 2], y.qs[j + 3]);
    SxtbOfWord(y.qs[16 + j], y.qs[17 + j], y.qs[18 + j], y.qs[19 + j]);
    ShiftedSxtb(p);
    ShiftedSxtb(q);
    f := Four(Sxtb16(p), Sxtb16(p / 0x100), Sxtb16(q), Sxtb16(q / 0x100));
  }

  lemma ShiftedSxtb(w: Word)
    ensures Sxtb16(w / 0x100) == Sxtb16Ror8(w)
  {
    ShiftByte(w);
  }

  /** MAC4: eight products. */
  function Mac4(w: Four, y: Four, acc: int): int
  {
    Smlad(w.h1, y.h1, Smlad(w.h0, y.h0, Smlad(w.l1, y.l1, Smlad(w.l0, y.l0, acc))))
  }

  lemma SmladIs(a: Word, b: Word, a0: int, a1: int, b0: int, b1: int, acc: int)
    requires IsPair(a, a0, a1) && IsPair(b, b0, b1) && -0x1000_0000 <= acc <= 0x1000_0000 && -2048 <= a0 * b0 <= 2048
      && -2048 <= a1 * b1 <= 2048
    ensures Smlad(a, b, acc) == acc + a0 * b0 + a1 * b1
  {
  }

  /** Four byte columns more. */
  lemma MacAdvances<F>(x: Block4<F>, y: Block8<F>, b: int, j: nat, w: Four, v: Four)
    requires x.Valid() && y.Valid() && 0 <= b <= 8 && j + 4 <= 16
    requires w.Hold(Lows(x, b, j), Highs(x, b, j)) && v.Hold(y.qs[j..j + 4], y.qs[16 + j..20 + j])
    ensures Mac4(w, v, Half(x, y, b, j)) == Half(x, y, b, j + 4)
  {
    hide Mac4;
    hide IsPair;
    hide Half;
    HalfBound(x, y, b, j);
    FourMore(x, y, b, j);
    WeightRange(x, b, j);
    hide Lows;
    hide Highs;
    var l, h, c, d := Lows(x, b, j), Highs(x, b, j), y.qs[j..j + 4], y.qs[16 + j..20 + j];
    forall i | 0 <= i < 4 ensures -2048 <= l[i] * c[i] <= 2048 && -2048 <= h[i] * d[i] <= 2048 {
      Term(l[i], c[i]);
      Term(h[i], d[i]);
    }
    MacPairs(w, v, l, h, c, d, Half(x, y, b, j));
  }

  lemma WeightRange<F>(x: Block4<F>, b: int, j: nat)
    requires x.Valid() && 0 <= b <= 8 && j + 4 <= 16
    ensures forall i :: 0 <= i < 4 ==> -8 <= Lows(x, b, j)[i] <= 15 && -8 <= Highs(x, b, j)[i] <= 15
  {
  }

  lemma MacPairs(w: Four, v: Four, a: seq<int>, b: seq<int>, c: seq<int>, d: seq<int>, acc: int)
    requires |a| == |b| == |c| == |d| == 4 && w.Hold(a, b) && v.Hold(c, d) && -0x10_0000 <= acc <= 0x10_0000
    requires forall i :: 0 <= i < 4 ==> -2048 <= a[i] * c[i] <= 2048 && -2048 <= b[i] * d[i] <= 2048
    ensures Mac4(w, v, acc) == acc + a[0] * c[0] + a[2] * c[2] + a[1] * c[1] + a[3] * c[3] + b[0] * d[0] + b[2] * d[2]
        + b[1] * d[1] + b[3] * d[3]
  {
    hide Smlad;
    hide IsPair;
    var s1 := acc + a[0] * c[0] + a[2] * c[2];
    SmladIs(w.l0, v.l0, a[0], a[2], c[0], c[2], acc);
    var s2 := s1 + a[1] * c[1] + a[3] * c[3];
    SmladIs(w.l1, v.l1, a[1], a[3], c[1], c[3], s1);
    var s3 := s2 + b[0] * d[0] + b[2] * d[2];
    SmladIs(w.h0, v.h0, b[0], b[2], d[0], d[2], s2);
    SmladIs(w.h1, v.h1, b[1], b[3], d[1], d[3], s3);
  }

  lemma FourMore<F>(x: Block4<F>, y: Block8<F>, b: int, j: nat)
    requires x.Valid() && y.Valid() && j + 4 <= 16
    ensures
      var l, h, c, d := Lows(x, b, j), Highs(x, b, j), y.qs[j..j + 4], y.qs[16 + j..20 + j];
      Half(x, y, b, j + 4) == Half(x, y, b, j) + l[0] * c[0] + l[2] * c[2] + l[1] * c[1] + l[3] * c[3]
                              + h[0] * d[0] + h[2] * d[2] + h[1] * d[1] + h[3] * d[3]
  {
    hide Half;
    hide Weight;
    OneMore(x, y, b, j, j, 0);
    OneMore(x, y, b, j + 1, j, 1);
    OneMore(x, y, b, j + 2, j, 2);
    OneMore(x, y, b, j + 3, j, 3);
    hide Lows;
    hide Highs;
  }

  /** Column n = j + i of a group of four. */
  lemma OneMore<F>(x: Block4<F>, y: Block8<F>, b: int, n: nat, j: nat, i: nat)
    requires x.Valid() && y.Valid() && i < 4 && n == j + i && j + 4 <= 16
    ensures Half(x, y, b, n + 1) ==
      Half(x, y, b, n) + Lows(x, b, j)[i] * y.qs[j..j + 4][i] + Highs(x, b, j)[i] * y.qs[16 + j..20 + j][i]
  {
    hide Weight;
    assert Lows(x, b, j)[i] == Weight(x, n) + b && Highs(x, b, j)[i] == Weight(x, n + 16) + b;
    assert y.qs[j..j + 4][i] == y.qs[n] && y.qs[16 + j..20 + j][i] == y.qs[n + 16];
  }

  // --- the dot products ---

  /** One block, packed: sixteen steps' worth of SMLADs. */
  method BlockSmlad<F>(x: Block4<F>, y: Block8<F>) returns (acc: int)
    requires x.Valid() && y.Valid()
    ensures acc == BlockDot(x, y)
  {
    hide Mac4;
    hide Half;
    hide Plain;
    hide Four.Hold;
    HalfStart(x, y, 0);
    acc := 0;
    var j := 0;
    while j < 16
      invariant 0 <= j <= 16 && j % 4 == 0 && acc == Half(x, y, 0, j)
    {
      var w := UnpackWeights(x, j);
      var v := UnpackActs(y, j);
      MacAdvances(x, y, 0, j, w, v);
      acc := Mac4(w, v, acc);
      j := j + 4;
    }
    HalvesAreParts(x, y, 16);
  }

  lemma HalfStart<F>(x: Block4<F>, y: Block8<F>, b: int)
    requires x.Valid() && y.Valid()
    ensures Half(x, y, b, 0) == 0
  {
  }

  /** One block with the bias left in, and taken out afterwards. */
  method BlockHoisted<F>(x: Block4<F>, y: Block8<F>, ysum: int) returns (acc: int)
    requires x.Valid() && y.Valid() && ysum == SumOf(y.qs, 32)
    ensures acc == BlockDot(x, y)
  {
    hide Mac4;
    hide Half;
    hide Plain;
    hide Four.Hold;
    HalfStart(x, y, 8);
    var a := 0;
    var j := 0;
    while j < 16
      invariant 0 <= j <= 16 && j % 4 == 0 && a == Half(x, y, 8, j)
    {
      var w := UnpackNibbles(x, j);
      var v := UnpackActs(y, j);
      MacAdvances(x, y, 8, j, w, v);
      a := Mac4(w, v, a);
      j := j + 4;
    }
    BiasHoists(x, y, 16);
    HalvesAreParts(x, y, 16);
    acc := a - 8 * ysum;
  }

  /** The scalar loop's two sums of a block. */
  method BlockGeneric<F>(x: Block4<F>, y: Block8<F>) returns (sum: int)
    requires x.Valid() && y.Valid()
    ensures sum == BlockDot(x, y)
  {
    var sum0, sum1 := 0, 0;
    for j := 0 to 16
      invariant sum0 == Plain(x, y, j) && sum1 == Plain(x, y, 16 + j) - Plain(x, y, 16)
    {
      var v0, v1 := x.qs[j] % 16 - 8, x.qs[j] / 16 - 8;
      assert Plain(x, y, 16 + j + 1) == Plain(x, y, 16 + j) + Weight(x, 16 + j) * y.qs[16 + j];
      sum0 := sum0 + v0 * y.qs[j];
      sum1 := sum1 + v1 * y.qs[j + 16];
    }
    sum := sum0 + sum1;
  }

  // --- the floats over blocks ---

  datatype Ops<!F> = Ops(zero: F, add: (F, F) -> F, mul: (F, F) -> F, ofInt: int -> F)

  /** A row of weight blocks, a column of activation blocks. */
  ghost predicate Rows<F>(x: seq<Block4<F>>, y: seq<Block8<F>>, nb: nat)
  {
    |x| == nb && |y| == nb && (forall i :: 0 <= i < nb ==> x[i].Valid()) && forall i :: 0 <= i < nb ==> y[i].Valid()
  }

  /** The float sum over the first n blocks, in block order: each block's integer sum times both scales. */
  function Dot<F>(o: Ops<F>, x: seq<Block4<F>>, y: seq<Block8<F>>, n: nat): F
    requires n <= |x| && n <= |y| && (forall i :: 0 <= i < n ==> x[i].Valid())
      && forall i :: 0 <= i < n ==> y[i].Valid()
  {
    if n == 0
    then o.zero
    else o.add(Dot(o, x, y, n - 1), o.mul(o.mul(o.ofInt(BlockDot(x[n - 1], y[n - 1])), x[n - 1].d), y[n - 1].d))
  }

  /** dot_generic. */
  method DotGeneric<F>(o: Ops<F>, x: seq<Block4<F>>, y: seq<Block8<F>>) returns (s: F)
    requires Rows(x, y, |x|)
    ensures s == Dot(o, x, y, |x|)
  {
    s := o.zero;
    for i := 0 to |x|
      invariant s == Dot(o, x, y, i)
    {
      var a := BlockGeneric(x[i], y[i]);
      s := o.add(s, o.mul(o.mul(o.ofInt(a), x[i].d), y[i].d));
    }
  }

  /** dot_smlad: the same float, bit for bit. */
  method DotSmlad<F>(o: Ops<F>, x: seq<Block4<F>>, y: seq<Block8<F>>) returns (s: F)
    requires Rows(x, y, |x|)
    ensures s == Dot(o, x, y, |x|)
  {
    s := o.zero;
    for i := 0 to |x|
      invariant s == Dot(o, x, y, i)
    {
      var a := BlockSmlad(x[i], y[i]);
      s := o.add(s, o.mul(o.mul(o.ofInt(a), x[i].d), y[i].d));
    }
  }

  /** The integer total over blocks. */
  function Total<F>(x: seq<Block4<F>>, y: seq<Block8<F>>, n: nat): int
    requires n <= |x| && n <= |y| && (forall i :: 0 <= i < n ==> x[i].Valid())
      && forall i :: 0 <= i < n ==> y[i].Valid()
  {
    if n == 0 then 0 else Total(x, y, n - 1) + BlockDot(x[n - 1], y[n - 1])
  }

  /** Up to 2^15 - 1 blocks the total stays inside int32. */
  lemma {:induction false} TotalFits<F>(x: seq<Block4<F>>, y: seq<Block8<F>>, n: nat)
    requires n <= |x| && n <= |y| && (forall i :: 0 <= i < n ==> x[i].Valid())
      && forall i :: 0 <= i < n ==> y[i].Valid()
    ensures -0x1_0000 * n <= Total(x, y, n) <= 0x1_0000 * n
    ensures n < 0x8000 ==> Int32(Total(x, y, n))
  {
    hide Plain;
    hide Half;
    if n > 0 {
      TotalFits(x, y, n - 1);
      HalfBound(x[n - 1], y[n - 1], 0, 16);
      HalvesAreParts(x[n - 1], y[n - 1], 16);
      NoProducts(x[n - 1], y[n - 1]);
    }
  }

  lemma NoProducts<F>(x: Block4<F>, y: Block8<F>)
    requires x.Valid() && y.Valid()
    ensures Plain(x, y, 0) == 0
  {
  }

  /**
   dot_nb against dot_un: hoisting the bias changes no int32 total, and below 2^15 blocks the total is the integer one.
   */
  method DotHoisted<F>(x: seq<Block4<F>>, y: seq<Block8<F>>, ysum: seq<int>) returns (t: int)
    requires Rows(x, y, |x|) && |ysum| == |x| && forall i :: 0 <= i < |x| ==> ysum[i] == SumOf(y[i].qs, 32)
    ensures t == Wrap32(Total(x, y, |x|)) && (|x| < 0x8000 ==> t == Total(x, y, |x|))
  {
    hide Wrap32;
    t := 0;
    for i := 0 to |x|
      invariant t == Wrap32(Total(x, y, i))
    {
      var a := BlockHoisted(x[i], y[i], ysum[i]);
      WrapAdd(Total(x, y, i), a);
      t := Wrap32(t + a);
    }
    TotalFits(x, y, |x|);
  }

  // --- the matrix product, in two loop orders and two tiles ---

  /** Weight rows and activation columns of nb blocks each, and room for their products. */
  ghost predicate Operands<F>(W: seq<seq<Block4<F>>>, X: seq<seq<Block8<F>>>, C: array2<F>, nb: nat)
  {
    && C.Length0 == |W| && C.Length1 == |X|
    && (forall r :: 0 <= r < |W| ==> |W[r]| == nb && forall i :: 0 <= i < nb ==> W[r][i].Valid())
    && forall c :: 0 <= c < |X| ==> |X[c]| == nb && forall i :: 0 <= i < nb ==> X[c][i].Valid()
  }

  /** Output (r, c) of the product. */
  function Out<F>(o: Ops<F>, W: seq<seq<Block4<F>>>, X: seq<seq<Block8<F>>>, nb: nat, r: nat, c: nat): F
    requires r < |W| && c < |X| && |W[r]| == nb && |X[c]| == nb
    requires (forall i :: 0 <= i < nb ==> W[r][i].Valid()) && forall i :: 0 <= i < nb ==> X[c][i].Valid()
  {
    Dot(o, W[r], X[c], nb)
  }

  /** gemmB11: activation column outer, weight rows inner. */
  method GemmB11<F>(o: Ops<F>, W: seq<seq<Block4<F>>>, X: seq<seq<Block8<F>>>, C: array2<F>, nb: nat)
    requires Operands(W, X, C, nb)
    modifies C
    ensures forall r, c :: 0 <= r < |W| && 0 <= c < |X| ==> C[r, c] == Out(o, W, X, nb, r, c)
  {
    for c := 0 to |X|
      invariant forall q, d :: 0 <= q < |W| && 0 <= d < c ==> C[q, d] == Out(o, W, X, nb, q, d)
    {
      for r := 0 to |W|
        invariant forall q, d :: 0 <= q < |W| && 0 <= d < |X| && (d < c || (d == c && q < r)) ==>
          C[q, d] == Out(o, W, X, nb, q, d)
      {
        C[r, c] := DotSmlad(o, W[r], X[c]);
      }
    }
  }

  /** One block of a 2 by 2 tile: both rows and both columns unpacked once, four sums. */
  method Block22<F>(w0: Block4<F>, w1: Block4<F>, y0: Block8<F>, y1: Block8<F>)
    returns (a00: int, a01: int, a10: int, a11: int)
    requires w0.Valid() && w1.Valid() && y0.Valid() && y1.Valid()
    ensures a00 == BlockDot(w0, y0) && a01 == BlockDot(w0, y1) && a10 == BlockDot(w1, y0) && a11 == BlockDot(w1, y1)
  {
    hide Mac4;
    hide Half;
    hide Plain;
    hide Four.Hold;
    HalfStart(w0, y0, 0);
    HalfStart(w0, y1, 0);
    HalfStart(w1, y0, 0);
    HalfStart(w1, y1, 0);
    a00, a01, a10, a11 := 0, 0, 0, 0;
    var j := 0;
    while j < 16
      invariant 0 <= j <= 16 && j % 4 == 0
      invariant a00 == Half(w0, y0, 0, j) && a01 == Half(w0, y1, 0, j) && a10 == Half(w1, y0, 0, j)
        && a11 == Half(w1, y1, 0, j)
    {
      var p := UnpackWeights(w0, j);
      var q := UnpackWeights(w1, j);
      var c := UnpackActs(y0, j);
      var d := UnpackActs(y1, j);
      MacAdvances(w0, y0, 0, j, p, c);
      MacAdvances(w0, y1, 0, j, p, d);
      MacAdvances(w1, y0, 0, j, q, c);
      MacAdvances(w1, y1, 0, j, q, d);
      a00, a01 := Mac4(p, c, a00), Mac4(p, d, a01);
      a10, a11 := Mac4(q, c, a10), Mac4(q, d, a11);
      j := j + 4;
    }
    HalvesAreParts(w0, y0, 16);
    HalvesAreParts(w0, y1, 16);
    HalvesAreParts(w1, y0, 16);
    HalvesAreParts(w1, y1, 16);
  }

  /** A 2 by 2 tile. */
  method Tile22<F>(o: Ops<F>, w0: seq<Block4<F>>, w1: seq<Block4<F>>, y0: seq<Block8<F>>, y1: seq<Block8<F>>, nb: nat)
    returns (s00: F, s01: F, s10: F, s11: F)
    requires Rows(w0, y0, nb) && Rows(w1, y1, nb)
    ensures s00 == Dot(o, w0, y0, nb) && s01 == Dot(o, w0, y1, nb) && s10 == Dot(o, w1, y0, nb)
      && s11 == Dot(o, w1, y1, nb)
  {
    s00, s01, s10, s11 := o.zero, o.zero, o.zero, o.zero;
    for i := 0 to nb
      invariant s00 == Dot(o, w0, y0, i) && s01 == Dot(o, w0, y1, i) && s10 == Dot(o, w1, y0, i)
        && s11 == Dot(o, w1, y1, i)
    {
      var a00, a01, a10, a11 := Block22(w0[i], w1[i], y0[i], y1[i]);
      var dw0, dw1, dy0, dy1 := w0[i].d, w1[i].d, y0[i].d, y1[i].d;
      s00, s01 := o.add(s00, o.mul(o.mul(o.ofInt(a00), dw0), dy0)), o.add(s01, o.mul(o.mul(o.ofInt(a01), dw0), dy1));
      s10, s11 := o.add(s10, o.mul(o.mul(o.ofInt(a10), dw1), dy0)), o.add(s11, o.mul(o.mul(o.ofInt(a11), dw1), dy1));
    }
  }

  /** gemmB22: the same order, two rows by two columns at a time. */
  method GemmB22<F>(o: Ops<F>, W: seq<seq<Block4<F>>>, X: seq<seq<Block8<F>>>, C: array2<F>, nb: nat)
    requires Operands(W, X, C, nb) && |W| % 2 == 0 && |X| % 2 == 0
    modifies C
    ensures forall r, c :: 0 <= r < |W| && 0 <= c < |X| ==> C[r, c] == Out(o, W, X, nb, r, c)
  {
    hide Dot;
    var c := 0;
    while c < |X|
      invariant 0 <= c <= |X| && c % 2 == 0
      invariant forall q, d :: 0 <= q < |W| && 0 <= d < c ==> C[q, d] == Out(o, W, X, nb, q, d)
    {
      var r := 0;
      while r < |W|
        invariant 0 <= r <= |W| && r % 2 == 0
        invariant forall q, d :: 0 <= q < |W| && 0 <= d < |X| && (d < c || (d < c + 2 && q < r)) ==>
          C[q, d] == Out(o, W, X, nb, q, d)
      {
        var s00, s01, s10, s11 := Tile22(o, W[r], W[r + 1], X[c], X[c + 1], nb);
        C[r, c], C[r, c + 1], C[r + 1, c], C[r + 1, c + 1] := s00, s01, s10, s11;
        r := r + 2;
      }
      c := c + 2;
    }
  }

  /** A row against four columns: the weights unpacked once. */
  method Block14<F>(w: Block4<F>, y: seq<Block8<F>>) returns (a: seq<int>)
    requires w.Valid() && |y| == 4 && forall c :: 0 <= c < 4 ==> y[c].Valid()
    ensures |a| == 4 && forall c :: 0 <= c < 4 ==> a[c] == BlockDot(w, y[c])
  {
    hide Mac4;
    hide Half;
    hide Plain;
    hide Four.Hold;
    forall c | 0 <= c < 4 ensures Half(w, y[c], 0, 0) == 0 { HalfStart(w, y[c], 0); }
    a := [0, 0, 0, 0];
    var j := 0;
    while j < 16
      invariant 0 <= j <= 16 && j % 4 == 0 && |a| == 4 && forall c :: 0 <= c < 4 ==> a[c] == Half(w, y[c], 0, j)
    {
      var p := UnpackWeights(w, j);
      for c := 0 to 4
        invariant |a| == 4 && forall d :: 0 <= d < 4 ==> a[d] == Half(w, y[d], 0, if d < c then j + 4 else j)
      {
        var v := UnpackActs(y[c], j);
        MacAdvances(w, y[c], 0, j, p, v);
        a := a[c := Mac4(p, v, a[c])];
      }
      j := j + 4;
    }
    forall c | 0 <= c < 4 ensures a[c] == BlockDot(w, y[c]) { HalvesAreParts(w, y[c], 16); }
  }

  method Tile14<F>(o: Ops<F>, w: seq<Block4<F>>, y: seq<seq<Block8<F>>>, nb: nat) returns (s: seq<F>)
    requires |y| == 4 && forall c :: 0 <= c < 4 ==> Rows(w, y[c], nb)
    ensures |s| == 4 && forall c :: 0 <= c < 4 ==> Rows(w, y[c], nb) && s[c] == Dot(o, w, y[c], nb)
  {
    s := [o.zero, o.zero, o.zero, o.zero];
    for i := 0 to nb
      invariant |s| == 4 && forall c :: 0 <= c < 4 ==> s[c] == Dot(o, w, y[c], i)
    {
      var a := Block14(w[i], [y[0][i], y[1][i], y[2][i], y[3][i]]);
      var t := s;
      s := [o.add(t[0], o.mul(o.mul(o.ofInt(a[0]), w[i].d), y[0][i].d)),
            o.add(t[1], o.mul(o.mul(o.ofInt(a[1]), w[i].d), y[1][i].d)),
            o.add(t[2], o.mul(o.mul(o.ofInt(a[2]), w[i].d), y[2][i].d)),
            o.add(t[3], o.mul(o.mul(o.ofInt(a[3]), w[i].d), y[3][i].d))];
    }
  }

  /** gemmA14: weight row outer, four columns at a time. */
  method GemmA14<F>(o: Ops<F>, W: seq<seq<Block4<F>>>, X: seq<seq<Block8<F>>>, C: array2<F>, nb: nat)
    requires Operands(W, X, C, nb) && |X| % 4 == 0
    modifies C
    ensures forall r, c :: 0 <= r < |W| && 0 <= c < |X| ==> C[r, c] == Out(o, W, X, nb, r, c)
  {
    hide Dot;
    for r := 0 to |W|
      invariant forall q, d :: 0 <= q < r && 0 <= d < |X| ==> C[q, d] == Out(o, W, X, nb, q, d)
    {
      var c := 0;
      while c < |X|
        invariant 0 <= c <= |X| && c % 4 == 0
        invariant forall q, d :: 0 <= q < |W| && 0 <= d < |X| && (q < r || (q == r && d < c)) ==>
          C[q, d] == Out(o, W, X, nb, q, d)
      {
        var s := Tile14(o, W[r], [X[c], X[c + 1], X[c + 2], X[c + 3]], nb);
        C[r, c], C[r, c + 1], C[r, c + 2], C[r, c + 3] := s[0], s[1], s[2], s[3];
        c := c + 4;
      }
    }
  }
}
