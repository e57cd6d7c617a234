/**
 scripts/bench67.cpp: a residual convolution y = conv(leaky(x)) + x in register tiles, with its weight packs, position
 groups, padded copies and per-thread staging. Float operations are uninterpreted, so equal values are equal bits.
 */
module DirectSweep {
  import Index
  import opened Bounds
  import opened Cells

  datatype Arith<!F(!new)> = Arith(zero: F, fma: (F, F, F) -> F, add: (F, F) -> F, mul: (F, F) -> F,
                                   positive: F -> bool, negative: F -> bool)
  {
    function Above(v: F): F { if positive(v) then v else zero }

    function Below(v: F): F { if negative(v) then v else zero }

    /** leaky_v: one fused step per lane. */
    function LeakyV(v: F, slope: F): F { fma(Above(v), slope, Below(v)) }

    /** leaky_s: a product and a sum. */
    function LeakyS(v: F, slope: F): F { add(Above(v), mul(slope, Below(v))) }

    /** Where one of the two terms is zero, fusing the product into the sum changes nothing. */
    ghost predicate FusesExactly(slope: F)
    {
      && (forall a :: fma(a, slope, zero) == add(a, mul(slope, zero)))
      && (forall b :: fma(zero, slope, b) == add(zero, mul(slope, b)))
      && (forall v :: !(positive(v) && negative(v)))
    }

    /** A positive input is added to the slope times zero, a negative one scaled by the slope is added to zero. */
    lemma LeakyIs(v: F, slope: F)
      ensures positive(v) && !negative(v) ==>
        LeakyV(v, slope) == fma(v, slope, zero) && LeakyS(v, slope) == add(v, mul(slope, zero))
      ensures negative(v) && !positive(v) ==>
        LeakyV(v, slope) == fma(zero, slope, v) && LeakyS(v, slope) == add(zero, mul(slope, v))
      ensures !negative(v) && !positive(v) ==>
        LeakyV(v, slope) == fma(zero, slope, zero) && LeakyS(v, slope) == add(zero, mul(slope, zero))
    {
    }

    lemma LeakyAgrees(v: F, slope: F)
      requires FusesExactly(slope)
      ensures LeakyV(v, slope) == LeakyS(v, slope)
    {
    }
  }

  /** Padded inputs by channel and position. */
  type Inputs<!F> = (int, int) -> F

  /** C channels of length L in and out, KW taps `dil` apart. */
  datatype Problem<!F(!new)> = Problem(A: Arith<F>, slope: F, x: (int, int) -> F, w: (int, int, int) -> F,
                                       bias: int -> F, C: nat, L: nat, KW: nat, dil: nat)
  {
    /** The vector and scalar activations agree on every input; `LeakyAgrees` says when. */
    ghost predicate Agree()
    {
      forall ic, q :: 0 <= ic < C && 0 <= q < L ==> A.LeakyV(x(ic, q), slope) == A.LeakyS(x(ic, q), slope)
    }

    /** The span of the taps. */
    function Span(): (h: nat)
      requires KW > 0
    {
      Index.MulNonneg(KW - 1, dil);
      (KW - 1) * dil
    }

    function Pad(): nat
      requires KW > 0
    {
      Span() / 2
    }

    /** The activated input at padded position q. */
    function Input(ic: int, q: int): F
      requires KW > 0
    {
      if 0 <= q - Pad() < L then A.LeakyS(x(ic, q - Pad()), slope) else A.zero
    }

    /**
     The sum for output (oc, p) over padded inputs In once input channels below ic and taps below kx of channel ic are
     in: bias, then channel, then tap.
     */
    function Sum(In: Inputs<F>, oc: int, p: int, ic: nat, kx: nat): F
      decreases ic, kx
    {
      if kx > 0 then A.fma(Sum(In, oc, p, ic, kx - 1), In(ic, p + (kx - 1) * dil), w(oc, ic, kx - 1))
      else if ic > 0 then Sum(In, oc, p, ic - 1, KW)
      else bias(oc)
    }

    /** The sum over all channels and taps, plus the residual. */
    function Out(In: Inputs<F>, oc: int, p: int): F { A.add(Sum(In, oc, p, C, 0), x(oc, p)) }

    /** The definition: the scalar activation everywhere. */
    function Defined(oc: int, p: int): F
      requires KW > 0
    {
      Out((ic, q) => Input(ic, q), oc, p)
    }

    /** The activated input at position pos, zero outside the signal. */
    function At(ic: int, pos: int): F { if 0 <= pos < L then A.LeakyS(x(ic, pos), slope) else A.zero }

    /**
     For an odd number of taps: bias, then channel, then tap, the middle tap at p and the others dil apart, once the
     channels below ic and the taps below kx of channel ic are in.
     */
    function Centred(oc: int, p: int, ic: nat, kx: nat): F
      decreases ic, kx
    {
      if kx > 0 then A.fma(Centred(oc, p, ic, kx - 1), At(ic, p + (kx - 1 - (KW - 1) / 2) * dil), w(oc, ic, kx - 1))
      else if ic > 0 then Centred(oc, p, ic - 1, KW)
      else bias(oc)
    }

    /** Tap kx of output p reads position p + (kx - (KW - 1) / 2) dil, the middle one p itself. */
    lemma TapPosition(ic: int, p: int, kx: nat)
      requires KW % 2 == 1
      ensures Input(ic, p + kx * dil) == At(ic, p + (kx - (KW - 1) / 2) * dil)
      ensures 0 <= p < L ==> Input(ic, p + (KW - 1) / 2 * dil) == A.LeakyS(x(ic, p), slope)
    {
      var h := (KW - 1) / 2;
      Index.MulSub(kx, h, dil);
      Index.MulAdd(h, h, dil);
      assert KW - 1 == h + h;
    }

    lemma {:induction false} CentredIs(oc: int, p: int, ic: nat, kx: nat)
      requires KW % 2 == 1
      ensures Sum((c, q) => Input(c, q), oc, p, ic, kx) == Centred(oc, p, ic, kx)
      decreases ic, kx
    {
      if kx > 0 {
        CentredIs(oc, p, ic, kx - 1);
        TapPosition(ic, p, kx - 1);
      } else if ic > 0 {
        CentredIs(oc, p, ic - 1, KW);
      }
    }

    /** The definition for an odd number of taps. */
    lemma DefinedIs(oc: int, p: int)
      requires KW % 2 == 1
      ensures Defined(oc, p) == A.add(Centred(oc, p, C, 0), x(oc, p))
    {
      CentredIs(oc, p, C, 0);
    }

    /** In is the activated input, each element by one of the two forms of the activation, with zeros around it. */
    ghost predicate Mixed(In: Inputs<F>)
      requires KW > 0
    {
      forall ic, q :: MixedAt(In(ic, q), ic, q - Pad())
    }

    ghost predicate MixedAt(v: F, ic: int, pos: int)
    {
      if 0 <= pos < L then v == A.LeakyV(x(ic, pos), slope) || v == A.LeakyS(x(ic, pos), slope) else v == A.zero
    }

    /** The copy of n inputs from position `from`: fours by the vector form, the rest by the scalar one. */
    function Copied(from: int, n: int): Inputs<F>
      requires KW > 0
    {
      (ic, q) => CopiedAt(from, n, ic, q - Pad())
    }

    function CopiedAt(from: int, n: int, ic: int, pos: int): F
    {
      if !(0 <= pos < L) then A.zero
      else if pos - from < n - n % 4 then A.LeakyV(x(ic, pos), slope)
      else A.LeakyS(x(ic, pos), slope)
    }

    /** v is output (o, p) for some mixture of the two forms. */
    ghost predicate IsOut(v: F, o: int, p: int)
      requires KW > 0
    {
      exists In: Inputs<F> :: Mixed(In) && v == Out(In, o, p)
    }

    /** Exactly one more store, of output (o, p) by some mixture of the two forms. */
    ghost predicate StoredOnce(was: Cell<F>, now: Cell<F>, o: int, p: int)
      requires KW > 0
    {
      now.stores == was.stores + 1 && IsOut(now.value, o, p)
    }
  }

  // --- the padded input ---

  /** leaky_copy: n activated inputs from position `from` of channel ic, four at a time, then one at a time. */
  method LeakyCopy<F(!new)>(dst: array2<F>, row: nat, off: nat, g: Problem<F>, ic: nat, from: int, n: nat)
    requires row < dst.Length0 && off + n <= dst.Length1 && ic < g.C && 0 <= from && from + n <= g.L
    modifies dst
    ensures forall q :: off <= q < off + n ==> dst[row, q] == g.CopiedAt(from, n, ic, from + (q - off))
    ensures forall r, q :: 0 <= r < dst.Length0 && 0 <= q < dst.Length1 && !(r == row && off <= q < off + n)
              ==> dst[r, q] == old(dst[r, q])
  {
    hide Arith.LeakyV;
    hide Arith.LeakyS;
    var i := 0;
    while i + 4 <= n
      invariant 0 <= i <= n && i % 4 == 0
      invariant forall q :: off <= q < off + i ==> dst[row, q] == g.A.LeakyV(g.x(ic, from + (q - off)), g.slope)
      invariant forall r, q :: 0 <= r < dst.Length0 && 0 <= q < dst.Length1 && !(r == row && off <= q < off + i)
                  ==> dst[r, q] == old(dst[r, q])
    {
      for j := 0 to 4
        invariant forall q :: off <= q < off + i + j ==> dst[row, q] == g.A.LeakyV(g.x(ic, from + (q - off)), g.slope)
        invariant forall r, q :: 0 <= r < dst.Length0 && 0 <= q < dst.Length1 && !(r == row && off <= q < off + i + j)
                    ==> dst[r, q] == old(dst[r, q])
      {
        dst[row, off + i + j] := g.A.LeakyV(g.x(ic, from + (i + j)), g.slope);
      }
      i := i + 4;
    }
    ghost var whole := i;
    while i < n
      invariant whole <= i <= n
      invariant forall q :: off <= q < off + whole ==> dst[row, q] == g.A.LeakyV(g.x(ic, from + (q - off)), g.slope)
      invariant forall q :: off + whole <= q < off + i ==> dst[row, q] == g.A.LeakyS(g.x(ic, from + (q - off)), g.slope)
      invariant forall r, q :: 0 <= r < dst.Length0 && 0 <= q < dst.Length1 && !(r == row && off <= q < off + i)
                  ==> dst[r, q] == old(dst[r, q])
    {
      dst[row, off + i] := g.A.LeakyS(g.x(ic, from + i), g.slope);
      i := i + 1;
    }
  }

  /** Zeros in [lo, hi) of one row. */
  method Zero<F(!new)>(dst: array2<F>, row: nat, lo: nat, hi: nat, zero: F)
    requires row < dst.Length0 && lo <= hi <= dst.Length1
    modifies dst
    ensures forall q :: lo <= q < hi ==> dst[row, q] == zero
    ensures forall r, q :: 0 <= r < dst.Length0 && 0 <= q < dst.Length1 && !(r == row && lo <= q < hi) ==>
      dst[r, q] == old(dst[r, q])
  {
    for i := lo to hi
      invariant forall q :: lo <= q < i ==> dst[row, q] == zero
      invariant forall r, q :: 0 <= r < dst.Length0 && 0 <= q < dst.Length1 && !(r == row && lo <= q < i) ==>
        dst[r, q] == old(dst[r, q])
    {
      dst[row, i] := zero;
    }
  }

  /** Row ic of xp holds padded positions [base, base + len). */
  ghost predicate RowHolds<F(!new)>(xp: array2<F>, In: Inputs<F>, ic: int, base: int, len: int)
    requires 0 <= ic < xp.Length0 && len <= xp.Length1
    reads xp
  {
    forall q :: 0 <= q < len ==> xp[ic, q] == In(ic, base + q)
  }

  /** One row of the global padded copy. */
  method PadRow<F(!new)>(xp: array2<F>, g: Problem<F>, ic: nat)
    requires g.KW > 0 && ic < xp.Length0 == g.C && xp.Length1 == g.L + g.Span()
    modifies xp
    ensures RowHolds(xp, g.Copied(0, g.L), ic, 0, xp.Length1)
    ensures forall r, q :: 0 <= r < xp.Length0 && r != ic && 0 <= q < xp.Length1 ==> xp[r, q] == old(xp[r, q])
  {
    hide Arith.LeakyV;
    hide Arith.LeakyS;
    hide Problem.Span;
    var lo := (g.KW - 1) * g.dil / 2;
    PadIs(g);
    var n := if g.L < xp.Length1 - lo then g.L else xp.Length1 - lo;
    Zero(xp, ic, 0, lo, g.A.zero);
    if xp.Length1 > lo + n { Zero(xp, ic, lo + n, xp.Length1, g.A.zero); }
    LeakyCopy(xp, ic, lo, g, ic, 0, n);
    HalfSpan(g);
    forall q | 0 <= q < xp.Length1 ensures xp[ic, q] == g.Copied(0, g.L)(ic, 0 + q) { CopiedIs(g, 0, g.L, ic, q); }
  }

  lemma PadIs<F(!new)>(g: Problem<F>)
    requires g.KW > 0
    ensures g.Span() == (g.KW - 1) * g.dil && g.Pad() == (g.KW - 1) * g.dil / 2
  {
  }

  lemma HalfSpan<F(!new)>(g: Problem<F>)
    requires g.KW > 0
    ensures 2 * g.Pad() <= g.Span()
  {
  }

  /** What a staged chunk of len padded positions from s0 on holds. */
  function Staged<F(!new)>(g: Problem<F>, s0: int, len: int): Inputs<F>
    requires g.KW > 0
  {
    var in0 := s0 - g.Pad();
    g.Copied(Max(0, in0), Min(len, g.L - in0) - Max(0, -in0))
  }

  lemma CopiedIs<F(!new)>(g: Problem<F>, from: int, n: int, ic: int, q: int)
    requires g.KW > 0
    ensures g.Copied(from, n)(ic, q) == g.CopiedAt(from, n, ic, q - g.Pad())
  {
  }

  lemma CopiesMix<F(!new)>(g: Problem<F>, from: int, n: int)
    requires g.KW > 0
    ensures g.Mixed(g.Copied(from, n))
  {
    hide Arith.LeakyV;
    hide Arith.LeakyS;
    hide Problem.Copied;
    forall ic, q ensures g.MixedAt(g.Copied(from, n)(ic, q), ic, q - g.Pad()) { CopiedIs(g, from, n, ic, q); }
  }

  /** One row of a staged chunk: padded positions [s0, s0 + len). */
  method StageRow<F(!new)>(buf: array2<F>, g: Problem<F>, ic: nat, s0: nat, len: nat)
    requires g.KW > 0 && ic < buf.Length0 == g.C && g.Span() <= len <= buf.Length1
    modifies buf
    ensures RowHolds(buf, Staged(g, s0, len), ic, s0, len)
    ensures forall c, q :: 0 <= c < buf.Length0 && c != ic && 0 <= q < buf.Length1 ==> buf[c, q] == old(buf[c, q])
  {
    hide Arith.LeakyV;
    hide Arith.LeakyS;
    hide Problem.Span;
    var in0 := s0 - (g.KW - 1) * g.dil / 2;
    PadIs(g);
    var lo := Max(0, -in0);
    var hi := Min(len, g.L - in0);
    if lo > 0 { Zero(buf, ic, 0, lo, g.A.zero); }
    if hi < len { Zero(buf, ic, Max(hi, lo), len, g.A.zero); }
    if hi > lo { LeakyCopy(buf, ic, lo, g, ic, in0 + lo, hi - lo); }
    forall q | 0 <= q < len ensures buf[ic, q] == Staged(g, s0, len)(ic, s0 + q) {
      CopiedIs(g, Max(0, in0), hi - lo, ic, s0 + q);
    }
  }

  // --- the packed weights ---

  /** Weights by run, input channel, tap and channel within the run; a run is a tile's channels, or all of them. */
  ghost predicate Packed<F(!new)>(wp: array4<F>, g: Problem<F>)
    reads wp
  {
    forall t, ic, kx, i :: 0 <= t < wp.Length0 && 0 <= ic < wp.Length1 && 0 <= kx < wp.Length2 && 0 <= i < wp.Length3
      ==> wp[t, ic, kx, i] == g.w(t * wp.Length3 + i, ic, kx)
  }

  /** One run's weights. */
  ghost predicate RunPacked<F(!new)>(wp: array4<F>, g: Problem<F>, t: int)
    requires 0 <= t < wp.Length0
    reads wp
  {
    forall ic, kx, i :: 0 <= ic < wp.Length1 && 0 <= kx < wp.Length2 && 0 <= i < wp.Length3
      ==> wp[t, ic, kx, i] == g.w(t * wp.Length3 + i, ic, kx)
  }

  /** The weights of one input channel, in every run. */
  ghost predicate ChannelPacked<F(!new)>(wp: array4<F>, g: Problem<F>, ic: int)
    requires 0 <= ic < wp.Length1
    reads wp
  {
    forall t, kx, i :: 0 <= t < wp.Length0 && 0 <= kx < wp.Length2 && 0 <= i < wp.Length3
      ==> wp[t, ic, kx, i] == g.w(t * wp.Length3 + i, ic, kx)
  }

  /** Run t at input channel ic, all taps. */
  method PackTaps<F(!new)>(wp: array4<F>, g: Problem<F>, t: nat, ic: nat)
    requires t < wp.Length0 && ic < wp.Length1
    modifies wp
    ensures forall kx, i :: 0 <= kx < wp.Length2 && 0 <= i < wp.Length3 ==>
      wp[t, ic, kx, i] == g.w(t * wp.Length3 + i, ic, kx)
    ensures forall a, b, kx, i ::
      0 <= a < wp.Length0 && 0 <= b < wp.Length1 && 0 <= kx < wp.Length2 && 0 <= i < wp.Length3
      && !(a == t && b == ic) ==>
        wp[a, b, kx, i] == old(wp[a, b, kx, i])
  {
    for kx := 0 to wp.Length2
      invariant forall k, i :: 0 <= k < kx && 0 <= i < wp.Length3 ==> wp[t, ic, k, i] == g.w(t * wp.Length3 + i, ic, k)
      invariant forall a, b, k, i ::
        0 <= a < wp.Length0 && 0 <= b < wp.Length1 && 0 <= k < wp.Length2 && 0 <= i < wp.Length3
        && !(a == t && b == ic) ==>
          wp[a, b, k, i] == old(wp[a, b, k, i])
    {
      for i := 0 to wp.Length3
        invariant forall k, l :: 0 <= k < kx && 0 <= l < wp.Length3 ==>
          wp[t, ic, k, l] == g.w(t * wp.Length3 + l, ic, k)
        invariant forall l :: 0 <= l < i ==> wp[t, ic, kx, l] == g.w(t * wp.Length3 + l, ic, kx)
        invariant forall a, b, k, l ::
          0 <= a < wp.Length0 && 0 <= b < wp.Length1 && 0 <= k < wp.Length2 && 0 <= l < wp.Length3
            && !(a == t && b == ic) ==>
            wp[a, b, k, l] == old(wp[a, b, k, l])
      {
        wp[t, ic, kx, i] := g.w(t * wp.Length3 + i, ic, kx);
      }
    }
  }

  /** The per-tile pack: thread ith's runs. */
  method PackRuns<F(!new)>(wp: array4<F>, g: Problem<F>, ith: nat, nth: nat)
    requires ith < nth
    modifies wp
    ensures forall t :: 0 <= t < wp.Length0 && Index.Mine(t, ith, nth) ==> RunPacked(wp, g, t)
    ensures forall t :: 0 <= t < wp.Length0 && !Index.Mine(t, ith, nth) && old(RunPacked(wp, g, t)) ==>
      RunPacked(wp, g, t)
  {
    hide Index.Mine;
    var t := ith;
    Index.MineFirst(ith, ith, nth);
    forall f: nat | f < ith ensures !Index.Mine(f, ith, nth) { Index.MineFirst(f, ith, nth); }
    while t < wp.Length0
      invariant t >= 0 && Index.Mine(t, ith, nth)
      invariant forall f :: 0 <= f < wp.Length0 && f < t && Index.Mine(f, ith, nth) ==> RunPacked(wp, g, f)
      invariant forall f :: 0 <= f < wp.Length0 && !Index.Mine(f, ith, nth) && old(RunPacked(wp, g, f)) ==>
        RunPacked(wp, g, f)
      decreases wp.Length0 - t
    {
      PackRun(wp, g, t);
      Index.MineStride(t, ith, nth);
      t := t + nth;
    }
  }

  method PackRun<F(!new)>(wp: array4<F>, g: Problem<F>, t: nat)
    requires t < wp.Length0
    modifies wp
    ensures RunPacked(wp, g, t)
    ensures forall f :: 0 <= f < wp.Length0 && f != t && old(RunPacked(wp, g, f)) ==> RunPacked(wp, g, f)
  {
    for ic := 0 to wp.Length1
      invariant forall b, kx, i :: 0 <= b < ic && 0 <= kx < wp.Length2 && 0 <= i < wp.Length3 ==>
        wp[t, b, kx, i] == g.w(t * wp.Length3 + i, b, kx)
      invariant forall a, b, k, l ::
        0 <= a < wp.Length0 && 0 <= b < wp.Length1 && 0 <= k < wp.Length2 && 0 <= l < wp.Length3 && a != t ==>
          wp[a, b, k, l] == old(wp[a, b, k, l])
    {
      PackTaps(wp, g, t, ic);
    }
  }

  /** The shipped pack, one run of all channels: thread ith's input channels. */
  method PackChannels<F(!new)>(wp: array4<F>, g: Problem<F>, ith: nat, nth: nat)
    requires ith < nth && wp.Length0 == 1
    modifies wp
    ensures forall ic :: 0 <= ic < wp.Length1 && Index.Mine(ic, ith, nth) ==> ChannelPacked(wp, g, ic)
    ensures forall ic :: 0 <= ic < wp.Length1 && !Index.Mine(ic, ith, nth) && old(ChannelPacked(wp, g, ic)) ==>
      ChannelPacked(wp, g, ic)
  {
    hide Index.Mine;
    var ic := ith;
    Index.MineFirst(ith, ith, nth);
    forall f: nat | f < ith ensures !Index.Mine(f, ith, nth) { Index.MineFirst(f, ith, nth); }
    while ic < wp.Length1
      invariant ic >= 0 && Index.Mine(ic, ith, nth)
      invariant forall f :: 0 <= f < wp.Length1 && f < ic && Index.Mine(f, ith, nth) ==> ChannelPacked(wp, g, f)
      invariant forall f :: 0 <= f < wp.Length1 && !Index.Mine(f, ith, nth) && old(ChannelPacked(wp, g, f)) ==>
        ChannelPacked(wp, g, f)
      decreases wp.Length1 - ic
    {
      PackChannel(wp, g, ic);
      Index.MineStride(ic, ith, nth);
      ic := ic + nth;
    }
  }

  method PackChannel<F(!new)>(wp: array4<F>, g: Problem<F>, ic: nat)
    requires ic < wp.Length1 && wp.Length0 == 1
    modifies wp
    ensures ChannelPacked(wp, g, ic)
    ensures forall f :: 0 <= f < wp.Length1 && f != ic && old(ChannelPacked(wp, g, f)) ==> ChannelPacked(wp, g, f)
  {
    PackTaps(wp, g, 0, ic);
  }

  // --- the register tile ---

  /** The accumulators of a tile at channels [oc0, ..) and positions [p0, ..), after channel ic's first kx taps. */
  ghost predicate AccAt<F(!new)>(acc: array2<F>, g: Problem<F>, In: Inputs<F>, oc0: nat, p0: nat, ic: nat, kx: nat)
    reads acc
  {
    forall i, k :: 0 <= i < acc.Length0 && 0 <= k < acc.Length1 ==> acc[i, k] == g.Sum(In, oc0 + i, p0 + k, ic, kx)
  }

  /** One tap of one input channel against every accumulator of the tile. */
  method TapStep<F(!new)>(acc: array2<F>, xp: array2<F>, wp: array4<F>, g: Problem<F>, ghost In: Inputs<F>, oc0: nat,
                          p0: nat, ic: nat, kx: nat, ghost base: nat, ghost len: nat, xoff: nat, t: nat, off: nat)
    requires g.KW > 0 && ic < g.C == xp.Length0 == wp.Length1 && kx < g.KW == wp.Length2 && len <= xp.Length1
      && RowHolds(xp, In, ic, base, len)
    requires xoff + base == p0 && xoff + acc.Length1 + g.Span() <= len && acc != xp
    requires t < wp.Length0 && off + acc.Length0 <= wp.Length3 && oc0 == t * wp.Length3 + off && Packed(wp, g)
    requires AccAt(acc, g, In, oc0, p0, ic, kx)
    modifies acc
    ensures AccAt(acc, g, In, oc0, p0, ic, kx + 1)
  {
    hide Problem.Input;
    hide Problem.Span;
    TapInSpan(g, kx);
    var q := xoff + kx * g.dil;
    for i := 0 to acc.Length0
      invariant RowHolds(xp, In, ic, base, len)
      invariant forall j, k :: 0 <= j < acc.Length0 && 0 <= k < acc.Length1
                  ==> acc[j, k] == g.Sum(In, oc0 + j, p0 + k, ic, if j < i then kx + 1 else kx)
    {
      var wv := wp[t, ic, kx, off + i];
      assert wv == g.w(oc0 + i, ic, kx);
      for k := 0 to acc.Length1
        invariant RowHolds(xp, In, ic, base, len)
        invariant forall j, l :: 0 <= j < acc.Length0 && 0 <= l < acc.Length1
                    ==> acc[j, l] == g.Sum(In, oc0 + j, p0 + l, ic, if j < i || (j == i && l < k) then kx + 1 else kx)
      {
        assert xp[ic, q + k] == In(ic, base + (q + k));
        acc[i, k] := g.A.fma(acc[i, k], xp[ic, q + k], wv);
      }
    }
  }

  lemma TapInSpan<F(!new)>(g: Problem<F>, kx: nat)
    requires kx < g.KW
    ensures 0 <= kx * g.dil <= g.Span()
  {
    Index.MulNonneg(kx, g.dil);
    Index.MulMono(kx, g.KW - 1, g.dil);
  }

  /**
   A variant: tile of ocb channels by 4 nv positions, weight pack, blocks per channel sweep, staged positions or
   kilobytes.
   */
  datatype Arm = Arm(ocb: nat, nv: nat, tpack: bool, group: nat, stage: nat, kb: nat)
  {
    function P(): nat { 4 * nv }

    predicate Ok(C: nat) { ocb > 0 && ocb % 4 == 0 && nv > 0 && group > 0 && C % ocb == 0 }

    /** The run that holds channel block oc0, and where in the run. */
    function Run(oc0: nat): nat
      requires ocb > 0
    {
      Index.DivMod(oc0, ocb);
      if tpack then oc0 / ocb else 0
    }

    function Offset(oc0: nat): nat { if tpack then 0 else oc0 }
  }

  ghost predicate WeightShape<F(!new)>(wp: array4<F>, g: Problem<F>, arm: Arm)
  {
    && arm.Ok(g.C) && wp.Length1 == g.C && wp.Length2 == g.KW
    && (if arm.tpack then wp.Length3 == arm.ocb && wp.Length0 == g.C / arm.ocb
        else wp.Length0 == 1 && wp.Length3 == g.C)
  }

  /** A channel block's weights stand in one run. */
  lemma RunHolds<F(!new)>(wp: array4<F>, g: Problem<F>, arm: Arm, oc0: nat)
    requires WeightShape(wp, g, arm) && oc0 % arm.ocb == 0 && oc0 < g.C
    ensures oc0 + arm.ocb <= g.C
    ensures var t := arm.Run(oc0);
      t < wp.Length0 && arm.Offset(oc0) + arm.ocb <= wp.Length3 && oc0 == t * wp.Length3 + arm.Offset(oc0)
  {
    var d := arm.ocb;
    Index.BlockFits(oc0, d, g.C);
    Index.DivMod(oc0, d);
    Index.DivMod(g.C, d);
    if oc0 / d >= g.C / d { Index.MulMono(g.C / d, oc0 / d, d); }
  }

  /** The input rows hold padded positions [base, base + len) of every channel. */
  ghost predicate XpHolds<F(!new)>(xp: array2<F>, g: Problem<F>, In: Inputs<F>, base: int, len: int)
    reads xp
  {
    g.KW > 0 && xp.Length0 == g.C && len <= xp.Length1 && forall ic :: 0 <= ic < g.C ==> RowHolds(xp, In, ic, base, len)
  }

  /** The sums of one tile, in the code's order: bias, then channel, then tap. */
  method TileSums<F(!new)>(xp: array2<F>, wp: array4<F>, g: Problem<F>, ghost In: Inputs<F>, arm: Arm, oc0: nat,
                           p0: nat, ghost base: nat, ghost len: nat, xoff: nat)
    returns (acc: array2<F>)
    requires XpHolds(xp, g, In, base, len) && WeightShape(wp, g, arm) && Packed(wp, g) && oc0 % arm.ocb == 0
      && oc0 < g.C
    requires xoff + base == p0 && xoff + arm.P() + g.Span() <= len
    ensures fresh(acc) && acc.Length0 == arm.ocb && acc.Length1 == arm.P() && AccAt(acc, g, In, oc0, p0, g.C, 0)
  {
    hide Problem.Span;
    hide Problem.Input;
    hide Packed;
    hide RowHolds;
    hide WeightShape;
    RunHolds(wp, g, arm, oc0);
    ShapeOf(wp, g, arm);
    acc := new F[arm.ocb, arm.P()]((i, k) => g.bias(oc0 + i));
    for ic := 0 to g.C
      invariant XpHolds(xp, g, In, base, len) && Packed(wp, g) && AccAt(acc, g, In, oc0, p0, ic, 0)
    {
      for kx := 0 to g.KW
        invariant XpHolds(xp, g, In, base, len) && Packed(wp, g) && AccAt(acc, g, In, oc0, p0, ic, kx)
      {
        TapStep(acc, xp, wp, g, In, oc0, p0, ic, kx, base, len, xoff, arm.Run(oc0), arm.Offset(oc0));
      }
      NextChannel(acc, g, In, oc0, p0, ic);
    }
  }

  lemma ShapeOf<F(!new)>(wp: array4<F>, g: Problem<F>, arm: Arm)
    requires WeightShape(wp, g, arm)
    ensures wp.Length1 == g.C && wp.Length2 == g.KW && arm.Ok(g.C)
  {
  }

  lemma NextChannel<F(!new)>(acc: array2<F>, g: Problem<F>, In: Inputs<F>, oc0: nat, p0: nat, ic: nat)
    requires g.KW > 0 && AccAt(acc, g, In, oc0, p0, ic, g.KW)
    ensures AccAt(acc, g, In, oc0, p0, ic + 1, 0)
  {
    forall i, k | 0 <= i < acc.Length0 && 0 <= k < acc.Length1
      ensures acc[i, k] == g.Sum(In, oc0 + i, p0 + k, ic + 1, 0)
    {
      assert g.Sum(In, oc0 + i, p0 + k, ic + 1, 0) == g.Sum(In, oc0 + i, p0 + k, ic, g.KW);
    }
  }

  /** tile: sums, then the stores with the residual added; a clamped tile stores from position pmin only. */
  method Tile<F(!new)>(xp: array2<F>, wp: array4<F>, y: array2<Cell<F>>, g: Problem<F>, ghost In: Inputs<F>, arm: Arm,
                       oc0: nat, p0: nat, clamp: bool, pmin: nat, ghost base: nat, ghost len: nat, xoff: nat)
    requires XpHolds(xp, g, In, base, len) && WeightShape(wp, g, arm) && Packed(wp, g) && oc0 % arm.ocb == 0
      && oc0 < g.C
    requires xoff + base == p0 && xoff + arm.P() + g.Span() <= len && p0 + arm.P() <= g.L
      && (clamp ==> p0 <= pmin <= p0 + arm.P())
    requires g.KW > 0 && y.Length0 == g.C && y.Length1 == g.L
    modifies y
    ensures var from := if clamp then pmin else p0;
      forall o, p :: 0 <= o < g.C && 0 <= p < g.L ==>
        y[o, p] == if oc0 <= o < oc0 + arm.ocb && from <= p < p0 + arm.P()
                   then old(y[o, p]).Store(g.Out(In, o, p)) else old(y[o, p])
  {
    hide Problem.Span;
    hide Problem.Input;
    hide Problem.Sum;
    hide Packed;
    hide XpHolds;
    hide WeightShape;
    var acc := TileSums(xp, wp, g, In, arm, oc0, p0, base, len, xoff);
    RunHolds(wp, g, arm, oc0);
    var first := if clamp then pmin - p0 else 0;
    for i := 0 to arm.ocb
      invariant AccAt(acc, g, In, oc0, p0, g.C, 0)
      invariant forall o, p :: 0 <= o < g.C && 0 <= p < g.L ==>
        y[o, p] == if oc0 <= o < oc0 + i && p0 + first <= p < p0 + arm.P()
                   then old(y[o, p]).Store(g.Out(In, o, p)) else old(y[o, p])
    {
      for k := first to arm.P()
        invariant AccAt(acc, g, In, oc0, p0, g.C, 0)
        invariant forall o, p :: 0 <= o < g.C && 0 <= p < g.L ==>
          y[o, p] == if (oc0 <= o < oc0 + i && p0 + first <= p < p0 + arm.P())
            || (o == oc0 + i && p0 + first <= p < p0 + k)
                     then old(y[o, p]).Store(g.Out(In, o, p)) else old(y[o, p])
      {
        var o, p := oc0 + i, p0 + k;
        assert acc[i, k] == g.Sum(In, o, p, g.C, 0);
        y[o, p] := y[o, p].Store(g.A.add(acc[i, k], g.x(o, p)));
      }
    }
  }

  // --- the sweeps ---

  /** Block b of [b0, b1): where it starts and ends. */
  lemma BlockSpan(b0: int, b: int, b1: int, P: nat)
    requires b0 <= b < b1
    ensures b0 * P <= b * P && (b + 1) * P == b * P + P && (b + 1) * P <= b1 * P
  {
    Index.MulMono(b0, b, P);
    Index.MulMono(b + 1, b1, P);
    Index.MulAdd(b, 1, P);
  }

  /** One channel block at position blocks [b0, b1). */
  method ChannelBlocks<F(!new)>(xp: array2<F>, wp: array4<F>, y: array2<Cell<F>>, g: Problem<F>, ghost In: Inputs<F>,
                                arm: Arm, oc0: nat, b0: nat, b1: nat, base: nat, ghost len: nat)
    requires XpHolds(xp, g, In, base, len) && WeightShape(wp, g, arm) && Packed(wp, g) && oc0 % arm.ocb == 0
      && oc0 < g.C
    requires b0 <= b1 && base <= b0 * arm.P() && b1 * arm.P() - base + g.Span() <= len && b1 * arm.P() <= g.L
    requires g.KW > 0 && y.Length0 == g.C && y.Length1 == g.L && y as object != xp && y as object != wp
    modifies y
    ensures forall o, p :: 0 <= o < g.C && 0 <= p < g.L ==>
      y[o, p] == if oc0 <= o < oc0 + arm.ocb && b0 * arm.P() <= p < b1 * arm.P()
                 then old(y[o, p]).Store(g.Out(In, o, p)) else old(y[o, p])
  {
    hide Problem.Span;
    hide Problem.Out;
    hide Packed;
    hide XpHolds;
    hide WeightShape;
    hide Arm.P;
    var P := arm.P();
    for b := b0 to b1
      invariant XpHolds(xp, g, In, base, len) && WeightShape(wp, g, arm) && Packed(wp, g)
      invariant forall o, p :: 0 <= o < g.C && 0 <= p < g.L ==>
        y[o, p] == if oc0 <= o < oc0 + arm.ocb && b0 * P <= p < b * P
                   then old(y[o, p]).Store(g.Out(In, o, p)) else old(y[o, p])
    {
      BlockSpan(b0, b, b1, P);
      Tile(xp, wp, y, g, In, arm, oc0, b * P, false, 0, base, len, b * P - base);
    }
  }

  lemma NextBlock(oc0: nat, d: nat, C: nat)
    requires d > 0 && C % d == 0 && oc0 % d == 0 && oc0 < C
    ensures oc0 + d <= C && (oc0 + d) % d == 0
  {
    Index.BlockFits(oc0, d, C);
    Index.ModMultiple(1, d);
    Index.ModShift(oc0, d, d);
  }

  /** Every channel block at position blocks [g0, g1). */
  method Group<F(!new)>(xp: array2<F>, wp: array4<F>, y: array2<Cell<F>>, g: Problem<F>, ghost In: Inputs<F>, arm: Arm,
                        g0: nat, g1: nat, ghost len: nat)
    requires XpHolds(xp, g, In, 0, len) && WeightShape(wp, g, arm) && Packed(wp, g) && arm.Ok(g.C)
    requires g0 <= g1 && g1 * arm.P() + g.Span() <= len && g1 * arm.P() <= g.L
    requires g.KW > 0 && y.Length0 == g.C && y.Length1 == g.L && y as object != xp && y as object != wp
    modifies y
    ensures forall o, p :: 0 <= o < g.C && 0 <= p < g.L ==>
      y[o, p] == if g0 * arm.P() <= p < g1 * arm.P() then old(y[o, p]).Store(g.Out(In, o, p)) else old(y[o, p])
  {
    hide Problem.Span;
    hide Problem.Out;
    hide Packed;
    hide XpHolds;
    hide WeightShape;
    hide Arm.P;
    Index.MulNonneg(g0, arm.P());
    var oc0 := 0;
    while oc0 < g.C
      invariant 0 <= oc0 <= g.C && oc0 % arm.ocb == 0
      invariant XpHolds(xp, g, In, 0, len) && WeightShape(wp, g, arm) && Packed(wp, g)
      invariant forall o, p :: 0 <= o < g.C && 0 <= p < g.L ==>
        y[o, p] == if o < oc0 && g0 * arm.P() <= p < g1 * arm.P()
                   then old(y[o, p]).Store(g.Out(In, o, p)) else old(y[o, p])
    {
      NextBlock(oc0, arm.ocb, g.C);
      ChannelBlocks(xp, wp, y, g, In, arm, oc0, g0, g1, 0, len);
      oc0 := oc0 + arm.ocb;
    }
  }

  /** Thread ith's blocks [b0, b1), `group` at a time. */
  method GlobalBlocks<F(!new)>(xp: array2<F>, wp: array4<F>, y: array2<Cell<F>>, g: Problem<F>, ghost In: Inputs<F>,
                               arm: Arm, b0: nat, b1: nat, ghost len: nat)
    requires XpHolds(xp, g, In, 0, len) && WeightShape(wp, g, arm) && Packed(wp, g) && arm.Ok(g.C)
    requires b0 <= b1 && b1 * arm.P() + g.Span() <= len && b1 * arm.P() <= g.L
    requires g.KW > 0 && y.Length0 == g.C && y.Length1 == g.L && y as object != xp && y as object != wp
    modifies y
    ensures forall o, p :: 0 <= o < g.C && 0 <= p < g.L ==>
      y[o, p] == if b0 * arm.P() <= p < b1 * arm.P() then old(y[o, p]).Store(g.Out(In, o, p)) else old(y[o, p])
  {
    hide Problem.Span;
    hide Problem.Out;
    hide Packed;
    hide XpHolds;
    hide WeightShape;
    hide Arm.P;
    var P := arm.P();
    var g0 := b0;
    while g0 < b1
      invariant b0 <= g0 <= b1
      invariant XpHolds(xp, g, In, 0, len) && WeightShape(wp, g, arm) && Packed(wp, g)
      invariant forall o, p :: 0 <= o < g.C && 0 <= p < g.L ==>
        y[o, p] == if b0 * P <= p < g0 * P then old(y[o, p]).Store(g.Out(In, o, p)) else old(y[o, p])
      decreases b1 - g0
    {
      var g1 := Min(g0 + arm.group, b1);
      Index.MulMono(b0, g0, P);
      Index.MulMono(g0, g1, P);
      Index.MulMono(g1, b1, P);
      Group(xp, wp, y, g, In, arm, g0, g1, len);
      g0 := g1;
    }
  }

  /** The block of d channels that holds channel o. */
  function BlockNo(o: nat, d: nat): nat
    requires d > 0
  {
    Index.DivMod(o, d);
    o / d
  }

  /** Channel block f's channels. */
  lemma BlockOf(o: nat, f: nat, d: nat)
    requires d > 0
    ensures f * d <= o < f * d + d <==> BlockNo(o, d) == f
  {
    Index.DivMod(o, d);
    if f * d <= o < f * d + d { Index.ModUnique(o, f, o - f * d, d); }
  }

  lemma BlockBelow(o: nat, f: nat, d: nat, C: nat)
    requires d > 0 && o < C <= f * d
    ensures BlockNo(o, d) < f
  {
    Index.DivMod(o, d);
    if o / d >= f { Index.MulMono(f, o / d, d); }
  }

  /** Channel block f of the ragged tail: the last tile pulled back to end at L, stored from pmin on. */
  method TailTile<F(!new)>(xp: array2<F>, wp: array4<F>, y: array2<Cell<F>>, g: Problem<F>, ghost In: Inputs<F>,
                           arm: Arm, f: nat, pmin: nat, base: nat, ghost len: nat)
    requires XpHolds(xp, g, In, base, len) && WeightShape(wp, g, arm) && Packed(wp, g) && arm.Ok(g.C)
      && f * arm.ocb < g.C
    requires arm.P() <= g.L && base <= g.L - arm.P() <= pmin <= g.L && g.L - base + g.Span() <= len
    requires g.KW > 0 && y.Length0 == g.C && y.Length1 == g.L && y as object != xp && y as object != wp
    modifies y
    ensures forall o, p :: 0 <= o < g.C && 0 <= p < g.L ==>
      y[o, p] == if p >= pmin && BlockNo(o, arm.ocb) == f then old(y[o, p]).Store(g.Out(In, o, p)) else old(y[o, p])
  {
    hide Problem.Span;
    hide Problem.Out;
    hide Packed;
    hide XpHolds;
    hide WeightShape;
    hide Arm.P;
    var d := arm.ocb;
    Index.ModMultiple(f, d);
    Index.MulNonneg(f, d);
    Tile(xp, wp, y, g, In, arm, f * d, g.L - arm.P(), true, pmin, base, len, g.L - arm.P() - base);
    forall o: nat ensures f * d <= o < f * d + d <==> BlockNo(o, d) == f { BlockOf(o, f, d); }
  }

  /** The ragged tail over the global copy: thread ith's channel blocks, the last tile pulled back to end at L. */
  method GlobalTail<F(!new)>(xp: array2<F>, wp: array4<F>, y: array2<Cell<F>>, g: Problem<F>, ghost In: Inputs<F>,
                             arm: Arm, ith: nat, nth: nat, pmin: nat, ghost len: nat)
    requires XpHolds(xp, g, In, 0, len) && WeightShape(wp, g, arm) && Packed(wp, g) && arm.Ok(g.C) && ith < nth
    requires arm.P() <= g.L && g.L + g.Span() <= len && g.L - arm.P() <= pmin <= g.L
    requires g.KW > 0 && y.Length0 == g.C && y.Length1 == g.L && y as object != xp && y as object != wp
    modifies y
    ensures forall o, p :: 0 <= o < g.C && 0 <= p < g.L ==>
      y[o, p] == if p >= pmin && Index.Mine(BlockNo(o, arm.ocb), ith, nth)
                 then old(y[o, p]).Store(g.Out(In, o, p)) else old(y[o, p])
  {
    hide Problem.Span;
    hide Problem.Out;
    hide Packed;
    hide XpHolds;
    hide WeightShape;
    hide Arm.P;
    hide Index.Mine;
    hide BlockNo;
    var d := arm.ocb;
    var f := ith;
    Index.MineFirst(ith, ith, nth);
    forall h: nat | h < ith ensures !Index.Mine(h, ith, nth) { Index.MineFirst(h, ith, nth); }
    while f * d < g.C
      invariant f >= 0 && Index.Mine(f, ith, nth)
      invariant XpHolds(xp, g, In, 0, len) && WeightShape(wp, g, arm) && Packed(wp, g)
      invariant forall o, p :: 0 <= o < g.C && 0 <= p < g.L ==>
        y[o, p] == if p >= pmin && BlockNo(o, d) < f && Index.Mine(BlockNo(o, d), ith, nth)
                   then old(y[o, p]).Store(g.Out(In, o, p)) else old(y[o, p])
      decreases g.C - f
    {
      TailTile(xp, wp, y, g, In, arm, f, pmin, 0, len);
      Index.MulMono(1, d, f);
      Index.MineStride(f, ith, nth);
      f := f + nth;
    }
    forall o: nat | o < g.C ensures BlockNo(o, d) < f { BlockBelow(o, f, d, g.C); }
  }

  /** Thread ith's run of position blocks. */
  function FirstBlock(ith: nat, nth: nat, nblk: nat): (b: nat)
    requires nth > 0
    ensures b <= nblk
  {
    Index.CeilDiv(nblk, nth);
    Index.MulNonneg(ith, (nblk + nth - 1) / nth);
    Min(ith * ((nblk + nth - 1) / nth), nblk)
  }

  /** One thread's run ends where the next one's starts; the first starts at 0 and the last ends at nblk. */
  lemma RunsMeet(ith: nat, nth: nat, nblk: nat)
    requires nth > 0
    ensures var per := (nblk + nth - 1) / nth;
      && Min(FirstBlock(ith, nth, nblk) + per, nblk) == FirstBlock(ith + 1, nth, nblk) >= FirstBlock(ith, nth, nblk)
      && FirstBlock(0, nth, nblk) == 0 && FirstBlock(nth, nth, nblk) == nblk
  {
    var per := (nblk + nth - 1) / nth;
    Index.CeilDiv(nblk, nth);
    Index.MulAdd(ith, 1, per);
    assert per * nth == nth * per;
  }

  /** Thread ith over the global padded copy. */
  method GlobalThread<F(!new)>(xp: array2<F>, wp: array4<F>, y: array2<Cell<F>>, g: Problem<F>, ghost In: Inputs<F>,
                               arm: Arm, ith: nat, nth: nat, nblk: nat)
    requires XpHolds(xp, g, In, 0, xp.Length1) && WeightShape(wp, g, arm) && Packed(wp, g) && arm.Ok(g.C) && ith < nth
      && g.KW > 0
    requires xp.Length1 == g.L + g.Span() && arm.P() <= g.L && nblk == g.L / arm.P()
    requires y.Length0 == g.C && y.Length1 == g.L && y as object != xp && y as object != wp
    modifies y
    ensures forall o, p :: 0 <= o < g.C && 0 <= p < g.L ==>
      y[o, p] == if FirstBlock(ith, nth, nblk) * arm.P() <= p < FirstBlock(ith + 1, nth, nblk) * arm.P()
                    || (p >= nblk * arm.P() && Index.Mine(BlockNo(o, arm.ocb), ith, nth))
                 then old(y[o, p]).Store(g.Out(In, o, p)) else old(y[o, p])
  {
    hide Problem.Span;
    hide Problem.Out;
    hide Packed;
    hide XpHolds;
    hide WeightShape;
    hide Arm.P;
    hide FirstBlock;
    hide Index.Mine;
    hide BlockNo;
    var P := arm.P();
    PositiveTile(arm, g.C);
    var per := (nblk + nth - 1) / nth;
    var b0 := FirstBlock(ith, nth, nblk);
    var b1 := Min(b0 + per, nblk);
    RunsMeet(ith, nth, nblk);
    Index.DivMod(g.L, P);
    Index.MulMono(b1, nblk, P);
    GlobalBlocks(xp, wp, y, g, In, arm, b0, b1, xp.Length1);
    if nblk * P < g.L {
      GlobalTail(xp, wp, y, g, In, arm, ith, nth, nblk * P, xp.Length1);
    }
  }

  lemma PositiveTile(arm: Arm, C: nat)
    requires arm.Ok(C)
    ensures arm.P() > 0
  {
  }

  /** How many blocks a thread stages at a time. */
  function ChunkBlocks(arm: Arm, C: nat, span: nat): (cb: nat)
    requires C > 0 && arm.P() > 0
    ensures cb >= 1
  {
    if arm.kb != 0 then Max(1, (arm.kb * 1024 / (4 * C) - span) / arm.P()) else Max(1, arm.stage / arm.P())
  }

  /**
   A staged chunk with its taps is as many blocks as fit its budget, or one: kb kilobytes of inputs of four bytes, or
   `stage` positions.
   */
  lemma ChunkWidest(arm: Arm, C: nat, span: nat)
    requires C > 0 && arm.P() > 0
    ensures var cb, P := ChunkBlocks(arm, C, span), arm.P();
      if arm.kb != 0 then
        && (cb > 1 ==> 4 * C * (cb * P + span) <= arm.kb * 1024)
        && 4 * C * ((cb + 1) * P + span) > arm.kb * 1024
      else (cb > 1 ==> cb * P <= arm.stage) && (cb + 1) * P > arm.stage
  {
    var cb, P := ChunkBlocks(arm, C, span), arm.P();
    hide Arm.P;
    if arm.kb != 0 {
      var B := arm.kb * 1024;
      var X := B / (4 * C);
      Index.DivMod(B, 4 * C);
      Widest(X - span, P, cb);
      if cb > 1 { Index.MulMono(cb * P + span, X, 4 * C); }
      Index.MulMono(X + 1, (cb + 1) * P + span, 4 * C);
      Index.MulAdd(X, 1, 4 * C);
      assert 4 * C * (cb * P + span) == (cb * P + span) * (4 * C);
      assert 4 * C * ((cb + 1) * P + span) == ((cb + 1) * P + span) * (4 * C);
    } else {
      Widest(arm.stage, P, cb);
    }
  }

  lemma Widest(n: int, P: nat, cb: int)
    requires P > 0 && cb == Max(1, n / P)
    ensures (cb > 1 ==> cb * P <= n) && (cb + 1) * P > n
  {
    Index.DivMod(n, P);
    Index.MulMono(n / P + 1, cb + 1, P);
    Index.MulAdd(n / P, 1, P);
  }

  method StageRows<F(!new)>(buf: array2<F>, g: Problem<F>, s0: nat, len: nat)
    requires g.KW > 0 && buf.Length0 == g.C && g.Span() <= len <= buf.Length1
    modifies buf
    ensures XpHolds(buf, g, Staged(g, s0, len), s0, len)
  {
    hide Problem.Span;
    hide Problem.Copied;
    ghost var In := Staged(g, s0, len);
    for ic := 0 to g.C
      invariant forall c, q :: 0 <= c < ic && 0 <= q < len ==> buf[c, q] == In(c, s0 + q)
    {
      StageRow(buf, g, ic, s0, len);
    }
  }

  /** A staged chunk's tiles: per channel block its position blocks, and the tail tile where the chunk is the last. */
  method ChunkTiles<F(!new)>(buf: array2<F>, wp: array4<F>, y: array2<Cell<F>>, g: Problem<F>, ghost In: Inputs<F>,
                             arm: Arm, c0: nat, c1: nat, last: bool, pmin: nat, s0: nat, ghost len: nat)
    requires XpHolds(buf, g, In, s0, len) && WeightShape(wp, g, arm) && Packed(wp, g) && arm.Ok(g.C) && g.KW > 0
    requires c0 <= c1 && s0 == c0 * arm.P() && c1 * arm.P() - s0 + g.Span() <= len && c1 * arm.P() <= g.L
    requires last ==>
      arm.P() <= g.L && s0 <= g.L - arm.P() <= pmin <= g.L && c1 * arm.P() <= pmin && g.L - s0 + g.Span() <= len
    requires y.Length0 == g.C && y.Length1 == g.L && y as object != buf && y as object != wp
    modifies y
    ensures forall o, p :: 0 <= o < g.C && 0 <= p < g.L ==>
      y[o, p] == if s0 <= p < c1 * arm.P() || (last && p >= pmin)
                 then old(y[o, p]).Store(g.Out(In, o, p)) else old(y[o, p])
  {
    hide Problem.Span;
    hide Problem.Out;
    hide Packed;
    hide XpHolds;
    hide WeightShape;
    hide Arm.P;
    var d := arm.ocb;
    var f := 0;
    while f * d < g.C
      invariant f >= 0 && f * d <= g.C
      invariant XpHolds(buf, g, In, s0, len) && WeightShape(wp, g, arm) && Packed(wp, g)
      invariant forall o, p :: 0 <= o < g.C && 0 <= p < g.L ==>
        y[o, p] == if o < f * d && (s0 <= p < c1 * arm.P() || (last && p >= pmin))
                   then old(y[o, p]).Store(g.Out(In, o, p)) else old(y[o, p])
      decreases g.C - f
    {
      Index.ModMultiple(f, d);
      Index.MulNonneg(f, d);
      Index.MulMono(1, d, f);
      NextBlock(f * d, d, g.C);
      Index.MulAdd(f, 1, d);
      ChunkBlock(buf, wp, y, g, In, arm, f, c0, c1, last, pmin, s0, len);
      f := f + 1;
    }
  }

  /** Channel block f of a staged chunk. */
  method ChunkBlock<F(!new)>(buf: array2<F>, wp: array4<F>, y: array2<Cell<F>>, g: Problem<F>, ghost In: Inputs<F>,
                             arm: Arm, f: nat, c0: nat, c1: nat, last: bool, pmin: nat, s0: nat, ghost len: nat)
    requires XpHolds(buf, g, In, s0, len) && WeightShape(wp, g, arm) && Packed(wp, g) && arm.Ok(g.C) && g.KW > 0
      && f * arm.ocb < g.C
    requires c0 <= c1 && s0 == c0 * arm.P() && c1 * arm.P() - s0 + g.Span() <= len && c1 * arm.P() <= g.L
    requires last ==>
      arm.P() <= g.L && s0 <= g.L - arm.P() <= pmin <= g.L && c1 * arm.P() <= pmin && g.L - s0 + g.Span() <= len
    requires y.Length0 == g.C && y.Length1 == g.L && y as object != buf && y as object != wp
    modifies y
    ensures forall o, p :: 0 <= o < g.C && 0 <= p < g.L ==>
      y[o, p] == if f * arm.ocb <= o < f * arm.ocb + arm.ocb && (s0 <= p < c1 * arm.P() || (last && p >= pmin))
                 then old(y[o, p]).Store(g.Out(In, o, p)) else old(y[o, p])
  {
    hide Problem.Span;
    hide Problem.Out;
    hide Packed;
    hide XpHolds;
    hide WeightShape;
    hide Arm.P;
    var d := arm.ocb;
    Index.ModMultiple(f, d);
    Index.MulNonneg(f, d);
    ChannelBlocks(buf, wp, y, g, In, arm, f * d, c0, c1, s0, len);
    if last {
      TailTile(buf, wp, y, g, In, arm, f, pmin, s0, len);
      forall o: nat ensures f * d <= o < f * d + d <==> BlockNo(o, d) == f { BlockOf(o, f, d); }
    }
  }

  /** Blocks [c0, c1) staged and computed, with the tail where they are the last. */
  method StagedChunk<F(!new)>(buf: array2<F>, wp: array4<F>, y: array2<Cell<F>>, g: Problem<F>, arm: Arm, c0: nat,
                              c1: nat, ghost cb: nat, nblk: nat)
    returns (ghost In: Inputs<F>)
    requires g.KW > 0 && WeightShape(wp, g, arm) && Packed(wp, g) && arm.Ok(g.C) && arm.P() > 0
    requires nblk == g.L / arm.P() && c0 < c1 <= nblk && c1 <= c0 + cb
    requires buf.Length0 == g.C && buf.Length1 >= (cb + 1) * arm.P() + g.Span()
    requires y.Length0 == g.C && y.Length1 == g.L && y as object != buf && y as object != wp && buf as object != wp
    modifies buf, y
    ensures g.Mixed(In)
    ensures forall o, p :: 0 <= o < g.C && 0 <= p < g.L ==>
      y[o, p] == if c0 * arm.P() <= p < c1 * arm.P() || (c1 == nblk && p >= nblk * arm.P())
                 then old(y[o, p]).Store(g.Out(In, o, p)) else old(y[o, p])
  {
    hide Problem.Span;
    hide Problem.Out;
    hide Problem.Mixed;
    hide Problem.Copied;
    hide Packed;
    hide XpHolds;
    hide WeightShape;
    hide Arm.P;
    var P := arm.P();
    ChunkFits(c0, c1, cb, nblk, P, g.L);
    var last := nblk * P < g.L && c1 == nblk;
    var s0 := c0 * P;
    var s1 := if last then g.L else c1 * P;
    PadIs(g);
    var len := s1 - s0 + (g.KW - 1) * g.dil;
    In := Staged(g, s0, len);
    StagedMixes(g, s0, len);
    hide Staged;
    StageRows(buf, g, s0, len);
    ChunkTiles(buf, wp, y, g, In, arm, c0, c1, last, nblk * P, s0, len);
  }

  lemma StagedMixes<F(!new)>(g: Problem<F>, s0: int, len: int)
    requires g.KW > 0
    ensures g.Mixed(Staged(g, s0, len))
  {
    hide Problem.Mixed;
    hide Problem.Copied;
    var in0 := s0 - g.Pad();
    CopiesMix(g, Max(0, in0), Min(len, g.L - in0) - Max(0, -in0));
  }

  lemma StoreIsOnce<F(!new)>(g: Problem<F>, In: Inputs<F>)
    requires g.KW > 0 && g.Mixed(In)
    ensures forall was: Cell<F>, o, p :: g.StoredOnce(was, was.Store(g.Out(In, o, p)), o, p)
  {
    hide Problem.Mixed;
    hide Problem.Out;
  }

  /** Thread ith over chunks it stages itself. */
  method StagedThread<F(!new)>(buf: array2<F>, wp: array4<F>, y: array2<Cell<F>>, g: Problem<F>, arm: Arm, ith: nat,
                               nth: nat, nblk: nat)
    requires g.KW > 0 && WeightShape(wp, g, arm) && Packed(wp, g) && arm.Ok(g.C) && ith < nth && g.C > 0 && arm.P() > 0
    requires arm.P() <= g.L && nblk == g.L / arm.P() && buf.Length0 == g.C
    requires buf.Length1 >= (ChunkBlocks(arm, g.C, g.Span()) + 1) * arm.P() + g.Span()
    requires y.Length0 == g.C && y.Length1 == g.L && y as object != buf && y as object != wp && buf as object != wp
    modifies buf, y
    ensures var b0, b1 := FirstBlock(ith, nth, nblk), FirstBlock(ith + 1, nth, nblk);
      forall o, p :: 0 <= o < g.C && 0 <= p < g.L ==>
        if b0 * arm.P() <= p < b1 * arm.P() || (b0 < b1 == nblk && p >= nblk * arm.P())
        then g.StoredOnce(old(y[o, p]), y[o, p], o, p) else y[o, p] == old(y[o, p])
  {
    hide Problem.Span;
    hide Problem.Out;
    hide Problem.StoredOnce;
    hide Problem.Mixed;
    hide Packed;
    hide WeightShape;
    hide Arm.P;
    hide FirstBlock;
    hide ChunkBlocks;
    var P := arm.P();
    var b0 := FirstBlock(ith, nth, nblk);
    var b1 := Min(b0 + (nblk + nth - 1) / nth, nblk);
    RunsMeet(ith, nth, nblk);
    var cb := ChunkBlocks(arm, g.C, g.Span());
    var c0 := b0;
    while c0 < b1
      invariant b0 <= c0 <= b1 && Packed(wp, g)
      invariant forall o, p :: 0 <= o < g.C && 0 <= p < g.L ==>
        if b0 * P <= p < c0 * P || (b0 < c0 == nblk && p >= nblk * P)
        then g.StoredOnce(old(y[o, p]), y[o, p], o, p) else y[o, p] == old(y[o, p])
      decreases b1 - c0
    {
      var c1 := Min(c0 + cb, b1);
      Index.MulMono(b0, c0, P);
      Index.MulMono(c0, c1, P);
      Index.MulMono(c1, nblk, P);
      ghost var In := StagedChunk(buf, wp, y, g, arm, c0, c1, cb, nblk);
      StoreIsOnce(g, In);
      c0 := c1;
    }
  }

  /**
   A chunk of at most cb blocks, the ragged tail included, is at most cb + 1 blocks long, and its last tile starts
   inside it.
   */
  lemma ChunkFits(c0: nat, c1: nat, cb: nat, nblk: nat, P: nat, L: nat)
    requires P > 0 && nblk == L / P && c0 < c1 <= nblk && c1 <= c0 + cb
    ensures 0 <= c0 * P <= c1 * P <= L && c1 * P - c0 * P <= (cb + 1) * P
    ensures c1 <= nblk && c1 * P <= nblk * P <= L
    ensures c1 == nblk ==> L - c0 * P <= (cb + 1) * P && c0 * P <= L - P <= nblk * P
  {
    Index.DivMod(L, P);
    Index.MulNonneg(c0, P);
    Index.MulMono(c0, c1, P);
    Index.MulMono(c1, nblk, P);
    Index.MulSub(c1, c0, P);
    Index.MulMono(c1 - c0, cb, P);
    Index.MulAdd(cb, 1, P);
    Index.MulMono(c0 + 1, c1, P);
    Index.MulAdd(c0, 1, P);
  }

  // --- all threads, between barriers ---

  /** Threads in some order, each once. */
  ghost predicate EachOnce(order: seq<nat>, nth: nat)
  {
    && (forall i :: 0 <= i < |order| ==> order[i] < nth)
    && (forall i, j :: 0 <= i < j < |order| ==> order[i] != order[j])
    && (forall t: nat :: t < nth ==> t in order)
  }

  /** The threads that have had their turn after k of them. */
  predicate Ran(order: seq<nat>, k: nat, t: int)
    requires k <= |order|
  {
    exists i :: 0 <= i < k && order[i] == t
  }

  lemma RanMore(order: seq<nat>, k: nat, nth: nat)
    requires EachOnce(order, nth) && k < |order|
    ensures !Ran(order, k, order[k]) && forall t :: Ran(order, k + 1, t) <==> Ran(order, k, t) || t == order[k]
  {
    assert Ran(order, k + 1, order[k]);
    forall t ensures Ran(order, k + 1, t) <==> Ran(order, k, t) || t == order[k] {
      if Ran(order, k, t) { var i :| 0 <= i < k && order[i] == t; }
    }
  }

  lemma AllRan(order: seq<nat>, nth: nat)
    requires EachOnce(order, nth)
    ensures forall t: nat :: t < nth ==> Ran(order, |order|, t)
  {
    forall t: nat | t < nth ensures Ran(order, |order|, t) {
      assert t in order;
    }
  }

  /** Thread ith's rows of the global padded copy. */
  method PadRows<F(!new)>(xp: array2<F>, g: Problem<F>, ith: nat, nth: nat)
    requires g.KW > 0 && xp.Length0 == g.C && xp.Length1 == g.L + g.Span() && ith < nth
    modifies xp
    ensures forall c :: 0 <= c < g.C && Index.Mine(c, ith, nth) ==> RowHolds(xp, g.Copied(0, g.L), c, 0, xp.Length1)
    ensures forall c, q :: 0 <= c < g.C && !Index.Mine(c, ith, nth) && 0 <= q < xp.Length1 ==> xp[c, q] == old(xp[c, q])
  {
    hide Problem.Span;
    hide Problem.Copied;
    hide Index.Mine;
    var ic := ith;
    Index.MineFirst(ith, ith, nth);
    forall f: nat | f < ith ensures !Index.Mine(f, ith, nth) { Index.MineFirst(f, ith, nth); }
    while ic < g.C
      invariant ic >= 0 && Index.Mine(ic, ith, nth)
      invariant forall f :: 0 <= f < g.C && f < ic && Index.Mine(f, ith, nth) ==>
        RowHolds(xp, g.Copied(0, g.L), f, 0, xp.Length1)
      invariant forall f, q :: 0 <= f < g.C && !Index.Mine(f, ith, nth) && 0 <= q < xp.Length1 ==>
        xp[f, q] == old(xp[f, q])
      decreases g.C - ic
    {
      PadRow(xp, g, ic);
      Index.MineStride(ic, ith, nth);
      ic := ic + nth;
    }
  }

  /** The padded copy, every thread's rows. */
  method PadAll<F(!new)>(xp: array2<F>, g: Problem<F>, nth: nat, order: seq<nat>)
    requires g.KW > 0 && xp.Length0 == g.C && xp.Length1 == g.L + g.Span() && nth > 0 && EachOnce(order, nth)
    modifies xp
    ensures XpHolds(xp, g, g.Copied(0, g.L), 0, xp.Length1)
  {
    hide Problem.Span;
    hide Problem.Copied;
    hide EachOnce;
    hide Ran;
    ghost var In := g.Copied(0, g.L);
    NoneRan(order, nth);
    for k := 0 to |order|
      invariant forall c, q :: 0 <= c < g.C && Ran(order, k, c % nth) && 0 <= q < xp.Length1 ==> xp[c, q] == In(c, q)
    {
      RanMore(order, k, nth);
      InOrder(order, k, nth);
      PadRows(xp, g, order[k], nth);
      forall c, q | 0 <= c < g.C && c % nth == order[k] && 0 <= q < xp.Length1 ensures xp[c, q] == In(c, q) {
        assert RowHolds(xp, In, c, 0, xp.Length1);
      }
    }
    AllRan(order, nth);
    forall c: nat | c < g.C ensures RowHolds(xp, g.Copied(0, g.L), c, 0, xp.Length1) { Index.MineOwner(c, nth); }
  }

  lemma InOrder(order: seq<nat>, k: nat, nth: nat)
    requires EachOnce(order, nth) && k < |order|
    ensures order[k] < nth
  {
  }

  lemma NoneRan(order: seq<nat>, nth: nat)
    requires EachOnce(order, nth)
    ensures forall t :: !Ran(order, 0, t)
  {
  }

  /** The weight pack, every thread's share. */
  method PackAll<F(!new)>(wp: array4<F>, g: Problem<F>, arm: Arm, nth: nat, order: seq<nat>)
    requires WeightShape(wp, g, arm) && nth > 0 && EachOnce(order, nth)
    modifies wp
    ensures Packed(wp, g)
  {
    hide RunPacked;
    hide ChannelPacked;
    hide EachOnce;
    hide Ran;
    NoneRan(order, nth);
    if arm.tpack {
      for k := 0 to |order|
        invariant forall t :: 0 <= t < wp.Length0 && Ran(order, k, t % nth) ==> RunPacked(wp, g, t)
      {
        RanMore(order, k, nth);
        InOrder(order, k, nth);
        PackRuns(wp, g, order[k], nth);
      }
      AllRan(order, nth);
      forall t: nat | t < wp.Length0 ensures RunPacked(wp, g, t) { Index.MineOwner(t, nth); }
      RunsPacked(wp, g);
    } else {
      for k := 0 to |order|
        invariant forall c :: 0 <= c < wp.Length1 && Ran(order, k, c % nth) ==> ChannelPacked(wp, g, c)
      {
        RanMore(order, k, nth);
        InOrder(order, k, nth);
        PackChannels(wp, g, order[k], nth);
      }
      AllRan(order, nth);
      forall c: nat | c < wp.Length1 ensures ChannelPacked(wp, g, c) { Index.MineOwner(c, nth); }
      ChannelsPacked(wp, g);
    }
  }

  lemma RunsPacked<F(!new)>(wp: array4<F>, g: Problem<F>)
    requires forall t :: 0 <= t < wp.Length0 ==> RunPacked(wp, g, t)
    ensures Packed(wp, g)
  {
    forall t, ic, kx, i | 0 <= t < wp.Length0 && 0 <= ic < wp.Length1 && 0 <= kx < wp.Length2 && 0 <= i < wp.Length3
      ensures wp[t, ic, kx, i] == g.w(t * wp.Length3 + i, ic, kx)
    {
      assert RunPacked(wp, g, t);
    }
  }

  lemma ChannelsPacked<F(!new)>(wp: array4<F>, g: Problem<F>)
    requires forall c :: 0 <= c < wp.Length1 ==> ChannelPacked(wp, g, c)
    ensures Packed(wp, g)
  {
    forall t, ic, kx, i | 0 <= t < wp.Length0 && 0 <= ic < wp.Length1 && 0 <= kx < wp.Length2 && 0 <= i < wp.Length3
      ensures wp[t, ic, kx, i] == g.w(t * wp.Length3 + i, ic, kx)
    {
      assert ChannelPacked(wp, g, ic);
    }
  }

  // --- which thread stores what ---

  /** Blocks per thread. */
  function PerRun(nth: nat, nblk: nat): (per: nat)
    requires nth > 0
    ensures nblk <= per * nth && (nblk > 0 ==> per > 0)
  {
    Index.CeilDiv(nblk, nth);
    assert nblk > 0 ==> (nblk + nth - 1) / nth > 0 by {
      if nblk > 0 { Index.PositiveFactor(nblk, (nblk + nth - 1) / nth, nth); }
    }
    (nblk + nth - 1) / nth
  }

  lemma FirstBlockIs(u: nat, nth: nat, nblk: nat)
    requires nth > 0
    ensures FirstBlock(u, nth, nblk) == Min(u * PerRun(nth, nblk), nblk)
  {
  }

  /** The thread whose run holds position block b. */
  function RunOf(b: nat, nth: nat, nblk: nat): (t: nat)
    requires b < nblk && nth > 0
    ensures t < nth
  {
    var per := PerRun(nth, nblk);
    Index.DivMod(b, per);
    RunBelow(b, per, nth, nblk);
    b / per
  }

  lemma RunBelow(b: nat, per: nat, nth: nat, nblk: nat)
    requires b < nblk <= per * nth && per > 0
    ensures b / per < nth
  {
    Index.DivMod(b, per);
    if b / per >= nth { Index.MulMono(nth, b / per, per); }
  }

  lemma RunOfIff(b: nat, u: nat, nth: nat, nblk: nat)
    requires b < nblk && nth > 0
    ensures FirstBlock(u, nth, nblk) <= b < FirstBlock(u + 1, nth, nblk) <==> u == RunOf(b, nth, nblk)
  {
    hide FirstBlock;
    hide PerRun;
    var per := PerRun(nth, nblk);
    FirstBlockIs(u, nth, nblk);
    FirstBlockIs(u + 1, nth, nblk);
    Index.DivMod(b, per);
    var t := b / per;
    Index.MulAdd(t, 1, per);
    if u <= t { Index.MulMono(u, t, per); } else { Index.MulMono(t + 1, u, per); }
    if t <= u { Index.MulMono(t + 1, u + 1, per); } else { Index.MulMono(u + 1, t, per); }
  }

  /** The position block that holds p. */
  lemma PositionBlock(p: nat, P: nat, nblk: nat)
    requires P > 0 && p < nblk * P
    ensures 0 <= p / P < nblk
    ensures forall a: nat, b: nat :: a * P <= p < b * P <==> a <= p / P < b
  {
    Index.DivMod(p, P);
    var k := p / P;
    Index.MulAdd(k, 1, P);
    if nblk <= k { Index.MulMono(nblk, k, P); }
    forall a: nat, b: nat ensures a * P <= p < b * P <==> a <= k < b {
      if a <= k { Index.MulMono(a, k, P); } else { Index.MulMono(k + 1, a, P); }
      if k < b { Index.MulMono(k + 1, b, P); } else { Index.MulMono(b, k, P); }
    }
  }

  /** Over the global copy: the run of p's block, and in the ragged tail the thread of o's channel block. */
  function GlobalOwner(o: nat, p: nat, P: nat, d: nat, nth: nat, nblk: nat): (t: nat)
    requires P > 0 && d > 0 && nth > 0
    ensures t < nth
  {
    if p < nblk * P then PositionBlock(p, P, nblk); RunOf(p / P, nth, nblk)
    else
      var b := BlockNo(o, d);
      Index.DivMod(o, d);
      Index.MineOwner(b, nth);
      b % nth
  }

  lemma GlobalOwnerIff(o: nat, p: nat, P: nat, d: nat, ith: nat, nth: nat, nblk: nat)
    requires P > 0 && d > 0 && ith < nth
    ensures
      (FirstBlock(ith, nth, nblk) * P <= p < FirstBlock(ith + 1, nth, nblk) * P
       || (p >= nblk * P && Index.Mine(BlockNo(o, d), ith, nth)))
      <==> GlobalOwner(o, p, P, d, nth, nblk) == ith
  {
    hide FirstBlock;
    hide RunOf;
    if p < nblk * P {
      PositionBlock(p, P, nblk);
      RunOfIff(p / P, ith, nth, nblk);
    } else {
      LastRun(ith, nth, nblk);
      Index.MulMono(FirstBlock(ith + 1, nth, nblk), nblk, P);
      Index.DivMod(o, d);
      Index.MineOwner(BlockNo(o, d), nth);
    }
  }

  /** Over staged chunks: the run of p's block, and in the ragged tail the thread with the last block. */
  function StagedOwner(p: nat, P: nat, nth: nat, nblk: nat): (t: nat)
    requires P > 0 && nth > 0 && nblk > 0
    ensures t < nth
  {
    if p < nblk * P then PositionBlock(p, P, nblk); RunOf(p / P, nth, nblk) else RunOf(nblk - 1, nth, nblk)
  }

  lemma LastRun(ith: nat, nth: nat, nblk: nat)
    requires ith < nth
    ensures FirstBlock(ith, nth, nblk) <= FirstBlock(ith + 1, nth, nblk) <= nblk
  {
    RunsMeet(ith, nth, nblk);
  }

  lemma StagedOwnerIff(p: nat, P: nat, ith: nat, nth: nat, nblk: nat)
    requires P > 0 && ith < nth && nblk > 0
    ensures var b0, b1 := FirstBlock(ith, nth, nblk), FirstBlock(ith + 1, nth, nblk);
      (b0 * P <= p < b1 * P || (b0 < b1 == nblk && p >= nblk * P)) <==> StagedOwner(p, P, nth, nblk) == ith
  {
    hide FirstBlock;
    hide RunOf;
    LastRun(ith, nth, nblk);
    var b0, b1 := FirstBlock(ith, nth, nblk), FirstBlock(ith + 1, nth, nblk);
    if p < nblk * P {
      PositionBlock(p, P, nblk);
      RunOfIff(p / P, ith, nth, nblk);
    } else {
      Index.MulMono(b1, nblk, P);
      RunOfIff(nblk - 1, ith, nth, nblk);
      assert b0 < b1 == nblk <==> b0 <= nblk - 1 < b1;
    }
  }

  /** Every thread over the global padded copy, in any order. */
  method GlobalThreads<F(!new)>(xp: array2<F>, wp: array4<F>, y: array2<Cell<F>>, g: Problem<F>, ghost In: Inputs<F>,
                                arm: Arm, nth: nat, order: seq<nat>)
    requires XpHolds(xp, g, In, 0, xp.Length1) && WeightShape(wp, g, arm) && Packed(wp, g) && arm.Ok(g.C) && nth > 0
      && g.KW > 0
    requires xp.Length1 == g.L + g.Span() && 0 < arm.P() <= g.L && EachOnce(order, nth)
    requires y.Length0 == g.C && y.Length1 == g.L && y as object != xp && y as object != wp
    modifies y
    ensures forall o, p :: 0 <= o < g.C && 0 <= p < g.L ==> y[o, p] == old(y[o, p]).Store(g.Out(In, o, p))
  {
    hide Problem.Span;
    hide Problem.Out;
    hide Packed;
    hide XpHolds;
    hide WeightShape;
    hide Arm.P;
    hide FirstBlock;
    hide GlobalOwner;
    hide EachOnce;
    hide Ran;
    var P, d := arm.P(), arm.ocb;
    var nblk := g.L / P;
    Index.DivMod(g.L, P);
    NoneRan(order, nth);
    for k := 0 to |order|
      invariant XpHolds(xp, g, In, 0, xp.Length1) && Packed(wp, g)
      invariant forall o, p :: 0 <= o < g.C && 0 <= p < g.L ==>
        y[o, p] == if Ran(order, k, GlobalOwner(o, p, P, d, nth, nblk))
                   then old(y[o, p]).Store(g.Out(In, o, p)) else old(y[o, p])
    {
      RanMore(order, k, nth);
      InOrder(order, k, nth);
      GlobalThread(xp, wp, y, g, In, arm, order[k], nth, nblk);
      forall o: nat, p: nat { GlobalOwnerIff(o, p, P, d, order[k], nth, nblk); }
    }
    AllRan(order, nth);
  }

  /** Every thread over its own staging buffer, in any order. */
  method StagedThreads<F(!new)>(bufs: seq<array2<F>>, wp: array4<F>, y: array2<Cell<F>>, g: Problem<F>, arm: Arm,
                                nth: nat, order: seq<nat>)
    requires g.KW > 0 && WeightShape(wp, g, arm) && Packed(wp, g) && arm.Ok(g.C) && nth > 0 && g.C > 0
    requires 0 < arm.P() <= g.L && |bufs| == nth && EachOnce(order, nth)
    requires forall b :: b in bufs ==>
      b.Length0 == g.C && b.Length1 >= (ChunkBlocks(arm, g.C, g.Span()) + 1) * arm.P() + g.Span()
      && y as object != b && b as object != wp
    requires y.Length0 == g.C && y.Length1 == g.L && y as object != wp
    modifies y, bufs
    ensures forall o, p :: 0 <= o < g.C && 0 <= p < g.L ==> g.StoredOnce(old(y[o, p]), y[o, p], o, p)
  {
    hide Problem.Span;
    hide Problem.Out;
    hide Problem.StoredOnce;
    hide Packed;
    hide WeightShape;
    hide Arm.P;
    hide FirstBlock;
    hide ChunkBlocks;
    hide StagedOwner;
    hide EachOnce;
    hide Ran;
    var P := arm.P();
    var nblk := g.L / P;
    Index.DivMod(g.L, P);
    if nblk <= 0 { Index.MulMono(nblk, 0, P); }
    NoneRan(order, nth);
    for k := 0 to |order|
      invariant Packed(wp, g)
      invariant forall o, p :: 0 <= o < g.C && 0 <= p < g.L ==>
        if Ran(order, k, StagedOwner(p, P, nth, nblk))
        then g.StoredOnce(old(y[o, p]), y[o, p], o, p) else y[o, p] == old(y[o, p])
    {
      RanMore(order, k, nth);
      InOrder(order, k, nth);
      assert bufs[order[k]] in bufs;
      StagedThread(bufs[order[k]], wp, y, g, arm, order[k], nth, nblk);
      forall p: nat { StagedOwnerIff(p, P, order[k], nth, nblk); }
    }
    AllRan(order, nth);
  }

  // --- the sweep ---

  lemma {:induction false} SumSame<F(!new)>(g: Problem<F>, I: Inputs<F>, J: Inputs<F>, o: int, p: int, ic: nat, kx: nat)
    requires (kx > 0 ==> ic < g.C) && ic <= g.C && forall c, q :: 0 <= c < g.C ==> I(c, q) == J(c, q)
    ensures g.Sum(I, o, p, ic, kx) == g.Sum(J, o, p, ic, kx)
    decreases ic, kx
  {
    if kx > 0 {
      SumSame(g, I, J, o, p, ic, kx - 1);
    } else if ic > 0 {
      SumSame(g, I, J, o, p, ic - 1, g.KW);
    }
  }

  /** Where the two forms of the activation agree, any mixture of them gives the definition. */
  lemma MixtureIsDefined<F(!new)>(g: Problem<F>, v: F, o: int, p: int)
    requires g.KW > 0 && g.Agree() && g.IsOut(v, o, p)
    ensures v == g.Defined(o, p)
  {
    hide Arith.LeakyV;
    hide Arith.LeakyS;
    hide Problem.Sum;
    hide Problem.Pad;
    var In: Inputs<F> :| g.Mixed(In) && v == g.Out(In, o, p);
    forall c, q | 0 <= c < g.C ensures In(c, q) == g.Input(c, q) {
      assert g.MixedAt(In(c, q), c, q - g.Pad());
    }
    SumSame(g, In, (ic, q) => g.Input(ic, q), o, p, g.C, 0);
  }

  /**
   sweep, all threads, in any order within each phase: whatever the tile, the weight pack, the grouping, the staging
   and the number of threads, every output gets exactly one store, of the sum over inputs activated by one of the two
   forms or the other; where the forms agree on the inputs that is the definition.
   */
  method Sweep<F(!new)>(xp: array2<F>, bufs: seq<array2<F>>, wp: array4<F>, y: array2<Cell<F>>, g: Problem<F>, arm: Arm,
                        nth: nat, packs: seq<nat>, pads: seq<nat>, order: seq<nat>)
    requires g.KW > 0 && WeightShape(wp, g, arm) && arm.Ok(g.C) && nth > 0 && g.C > 0
    requires EachOnce(packs, nth) && EachOnce(pads, nth) && EachOnce(order, nth)
    requires 0 < arm.P() <= g.L && |bufs| == nth
    requires forall b :: b in bufs ==>
      b.Length0 == g.C && b.Length1 >= (ChunkBlocks(arm, g.C, g.Span()) + 1) * arm.P() + g.Span()
      && y as object != b && b as object != wp
    requires xp.Length0 == g.C && xp.Length1 == g.L + g.Span() && xp as object != wp
    requires y.Length0 == g.C && y.Length1 == g.L && y as object != xp && y as object != wp
    modifies xp, wp, y, bufs
    ensures forall o, p :: 0 <= o < g.C && 0 <= p < g.L ==> g.StoredOnce(old(y[o, p]), y[o, p], o, p)
    ensures g.Agree() ==> forall o, p :: 0 <= o < g.C && 0 <= p < g.L ==> y[o, p] == old(y[o, p]).Store(g.Defined(o, p))
    ensures g.Agree() && g.KW % 2 == 1 ==> forall o, p :: 0 <= o < g.C && 0 <= p < g.L ==>
      y[o, p].value == g.A.add(g.Centred(o, p, g.C, 0), g.x(o, p))
  {
    hide Problem.Centred;
    hide Problem.Span;
    hide Problem.Out;
    hide Problem.Mixed;
    hide Problem.IsOut;
    hide Problem.Agree;
    hide Problem.Defined;
    hide Problem.Copied;
    hide Packed;
    hide XpHolds;
    hide WeightShape;
    hide Arm.P;
    hide ChunkBlocks;
    hide EachOnce;
    PackAll(wp, g, arm, nth, packs);
    if arm.stage == 0 && arm.kb == 0 {
      PadAll(xp, g, nth, pads);
      CopiesMix(g, 0, g.L);
      GlobalThreads(xp, wp, y, g, g.Copied(0, g.L), arm, nth, order);
      StoreIsOnce(g, g.Copied(0, g.L));
    } else {
      StagedThreads(bufs, wp, y, g, arm, nth, order);
    }
    if g.Agree() {
      forall o, p | 0 <= o < g.C && 0 <= p < g.L ensures y[o, p] == old(y[o, p]).Store(g.Defined(o, p)) {
        assert g.StoredOnce(old(y[o, p]), y[o, p], o, p);
        MixtureIsDefined(g, y[o, p].value, o, p);
      }
      if g.KW % 2 == 1 {
        forall o, p | 0 <= o < g.C && 0 <= p < g.L
          ensures y[o, p].value == g.A.add(g.Centred(o, p, g.C, 0), g.x(o, p))
        {
          g.DefinedIs(o, p);
        }
      }
    }
  }
}
