/**
 scripts/bench56.cpp: a transposed convolution of stride s as s direct convolutions of K / s taps, one per output
 phase, over blocks of positions and chunks of input channels. Exact real arithmetic: the sum is reordered.
 */
module Polyphase {
  import Index
  import opened Cells

  /** Cin channels of length L in, Cout out, K taps at stride s. */
  datatype Problem = Problem(x: (int, int) -> real, w: (int, int, int) -> real, bias: int -> real, Cin: nat, Cout: nat,
                             L: nat, s: nat, K: nat)
  {
    predicate Valid() { Cin > 0 && L > 0 && s > 0 && K > 0 && K % s == 0 }

    /** Taps per phase, positions per phase, output length. */
    function J(): nat requires s > 0 { Index.DivMod(K, s); K / s }

    function Q(): int requires s > 0 { L + J() - 1 }

    function OL(): int { (L - 1) * s + K }

    // --- the definition: every input scattered through the kernel ---

    /** What input position i adds to output o from the first n channels. */
    function Scattered(oc: int, o: int, i: int, n: nat): real
    {
      if n == 0 then 0.0 else Scattered(oc, o, i, n - 1) + w(n - 1, oc, o - i * s) * x(n - 1, i)
    }

    /** Output o once positions below i are scattered. */
    function ScatterSum(oc: int, o: int, i: nat): real
    {
      if i == 0 then bias(oc)
      else ScatterSum(oc, o, i - 1) + if 0 <= o - (i - 1) * s < K then Scattered(oc, o, i - 1, Cin) else 0.0
    }

    function Out(oc: int, o: int): real { ScatterSum(oc, o, L) }

    // --- the phases ---

    function Padded(ic: int, m: int): real { if 0 <= m < L then x(ic, m) else 0.0 }

    /** The first n taps of phase p at position q, channel ic, the kernel reversed. */
    function Taps(oc: int, p: int, q: int, ic: int, n: nat): real
      requires s > 0
    {
      if n == 0
      then 0.0 else Taps(oc, p, q, ic, n - 1) + w(ic, oc, p + (J() - n) * s) * Padded(ic, q + (n - 1) - (J() - 1))
    }

    /** The first n channels of phase p at position q. */
    function PhaseSum(oc: int, p: int, q: int, n: nat): real
      requires s > 0
    {
      if n == 0 then 0.0 else PhaseSum(oc, p, q, n - 1) + Taps(oc, p, q, n - 1, J())
    }

    function PhaseOut(oc: int, p: int, q: int): real
      requires s > 0
    {
      bias(oc) + PhaseSum(oc, p, q, Cin)
    }
  }

  // --- the phases are the scatter ---

  /** Kernel offset o - i s lies in [0, K) exactly when position i is one of the J that phase p of position q sees. */
  lemma InKernel(p: nat, q: int, i: int, s: nat, J: nat)
    requires p < s
    ensures 0 <= q * s + p - i * s < J * s <==> 0 <= q - i < J
    ensures q * s + p - i * s == p + (q - i) * s
  {
    Index.MulSub(q, i, s);
    var d := q - i;
    if 0 <= d < J { Index.MulNonneg(d, s); Index.MulMono(d + 1, J, s); Index.MulAdd(d, 1, s); }
    if d < 0 { Index.MulMono(d, -1, s); }
    if d >= J { Index.MulMono(J, d, s); }
  }

  /** Taps whose positions all lie before the input add nothing. */
  lemma {:induction false} TapsBefore(g: Problem, oc: int, p: int, q: int, ic: int, n: nat)
    requires g.s > 0 && (n == 0 || q + n - g.J() < 0)
    ensures g.Taps(oc, p, q, ic, n) == 0.0
  {
    if n > 0 { TapsBefore(g, oc, p, q, ic, n - 1); }
  }

  /** Nor do taps from m on, when their positions all lie past its end. */
  lemma {:induction false} TapsAfter(g: Problem, oc: int, p: int, q: int, ic: int, m: nat, n: nat)
    requires g.s > 0 && m <= n && q + m - (g.J() - 1) >= g.L
    ensures g.Taps(oc, p, q, ic, n) == g.Taps(oc, p, q, ic, m)
  {
    if m < n { TapsAfter(g, oc, p, q, ic, m, n - 1); }
  }

  /** Input positions below i, one channel: what the scatter has put into output q s + p. */
  function ChannelScatter(g: Problem, oc: int, o: int, ic: int, i: nat): real
  {
    if i == 0 then 0.0
    else
      ChannelScatter(g, oc, o, ic, i - 1)
      + if 0 <= o - (i - 1) * g.s < g.K then g.w(ic, oc, o - (i - 1) * g.s) * g.x(ic, i - 1) else 0.0
  }

  /** How many of a phase's taps see positions below i. */
  function Seen(J: int, q: int, i: int): (n: nat)
    requires J >= 0
  {
    var n := i - (q - J + 1);
    if n < 0 then 0 else if n > J then J else n
  }

  lemma {:induction false} ChannelByTaps(g: Problem, oc: int, p: nat, q: nat, ic: int, i: nat)
    requires g.Valid() && p < g.s && i <= g.L
    ensures ChannelScatter(g, oc, q * g.s + p, ic, i) == g.Taps(oc, p, q, ic, Seen(g.J(), q, i))
  {
    KIsJs(g);
    if i == 0 {
      TapsBefore(g, oc, p, q, ic, Seen(g.J(), q, 0));
    } else {
      ChannelByTaps(g, oc, p, q, ic, i - 1);
      InKernel(p, q, i - 1, g.s, g.J());
    }
  }

  lemma KIsJs(g: Problem)
    requires g.Valid()
    ensures g.K == g.J() * g.s && g.J() >= 1 && g.OL() == g.Q() * g.s
  {
    Index.DivMod(g.K, g.s);
    if g.K / g.s <= 0 { Index.MulMono(g.K / g.s, 0, g.s); }
    Index.MulAdd(g.L - 1, g.J(), g.s);
  }

  /** One channel, all positions: the scatter is the phase's taps. */
  lemma ChannelIsTaps(g: Problem, oc: int, p: nat, q: nat, ic: int)
    requires g.Valid() && p < g.s
    ensures ChannelScatter(g, oc, q * g.s + p, ic, g.L) == g.Taps(oc, p, q, ic, g.J())
  {
    ChannelByTaps(g, oc, p, q, ic, g.L);
    var n := Seen(g.J(), q, g.L);
    if n < g.J() { TapsAfter(g, oc, p, q, ic, n, g.J()); }
  }

  /** All channels, positions below i. */
  function AllChannels(g: Problem, oc: int, o: int, i: nat, n: nat): real
  {
    if n == 0 then 0.0 else AllChannels(g, oc, o, i, n - 1) + ChannelScatter(g, oc, o, n - 1, i)
  }

  lemma {:induction false} NoPositions(g: Problem, oc: int, o: int, n: nat)
    ensures AllChannels(g, oc, o, 0, n) == 0.0
  {
    if n > 0 { NoPositions(g, oc, o, n - 1); }
  }

  lemma {:induction false} OnePosition(g: Problem, oc: int, o: int, i: nat, n: nat)
    requires i > 0
    ensures AllChannels(g, oc, o, i, n) ==
            AllChannels(g, oc, o, i - 1, n) + if 0 <= o - (i - 1) * g.s < g.K then g.Scattered(oc, o, i - 1, n) else 0.0
  {
    if n > 0 { OnePosition(g, oc, o, i, n - 1); }
  }

  /** The order of the two sums does not matter. */
  lemma {:induction false} SumsExchange(g: Problem, oc: int, o: int, i: nat)
    ensures g.ScatterSum(oc, o, i) == g.bias(oc) + AllChannels(g, oc, o, i, g.Cin)
  {
    if i == 0 {
      NoPositions(g, oc, o, g.Cin);
    } else {
      SumsExchange(g, oc, o, i - 1);
      OnePosition(g, oc, o, i, g.Cin);
    }
  }

  lemma {:induction false} ChannelsArePhases(g: Problem, oc: int, p: nat, q: nat, n: nat)
    requires g.Valid() && p < g.s
    ensures AllChannels(g, oc, q * g.s + p, g.L, n) == g.PhaseSum(oc, p, q, n)
  {
    if n > 0 {
      ChannelsArePhases(g, oc, p, q, n - 1);
      ChannelIsTaps(g, oc, p, q, n - 1);
    }
  }

  /** Phase p at position q is output q s + p of the transposed convolution. */
  lemma PhaseIsOutput(g: Problem, oc: int, p: nat, q: nat)
    requires g.Valid() && p < g.s
    ensures g.PhaseOut(oc, p, q) == g.Out(oc, q * g.s + p)
  {
    SumsExchange(g, oc, q * g.s + p, g.L);
    ChannelsArePhases(g, oc, p, q, g.Cin);
  }

  // --- chunks of channels ---

  function CeilDiv(n: nat, d: nat): (c: nat)
    requires d > 0
  {
    Index.CeilDiv(n, d);
    (n + d - 1) / d
  }

  /**
   Channels spread evenly over the fewest chunks of at most `most`: every chunk has some, and together they are all.
   */
  lemma ChunksCover(Cin: nat, most: nat)
    requires Cin > 0 && most > 0
    ensures var nch := CeilDiv(Cin, most); nch > 0 && var icc := CeilDiv(Cin, nch);
      0 < icc <= most && (nch - 1) * icc < Cin <= nch * icc
  {
    var nch := CeilDiv(Cin, most);
    Index.CeilDiv(Cin, most);
    if nch == 0 { Index.MulMono(nch, 0, most); }
    Index.CeilDiv(Cin, nch);
    var icc := CeilDiv(Cin, nch);
    if icc == 0 { Index.MulMono(icc, 0, nch); }
    assert most * nch == nch * most;
    if icc > most { Index.MulMono(most, icc - 1, nch); }
    Index.MulMono(icc, most, nch - 1);
    assert (nch - 1) * icc == icc * (nch - 1) && (nch - 1) * most == most * (nch - 1) && nch * icc == icc * nch;
  }

  // --- the driver ---

  /** Output buffer y, channel by position, counting stores. */
  type Output = array2<Cell<real>>

  /** The buffers of one shape: packed weights, bias padded to channel quads, input window, phase scratch. */
  class Poly {
    const g: Problem
    const J: nat
    const Cq: nat
    const TB: nat
    const nch: nat
    const icc: nat
    const wp: array5<real>     // phase, quad, input channel, reversed tap, channel in quad
    const bq: array<real>
    const win: array2<real>    // channel of the chunk, position
    const S: array4<real>      // quad, phase, channel in quad, position

    constructor (g: Problem, TB: nat)
      requires g.Valid() && TB > 0
      ensures this.g == g && this.TB == TB && Shaped()
      ensures fresh(wp) && fresh(bq) && fresh(win) && fresh(S)
    {
      this.g, this.TB := g, TB;
      var j := g.J();
      J := j;
      var cq := CeilDiv(g.Cout, 4);
      Cq := cq;
      var xrow := TB + j - 1 + 4;
      var iccMax := AtLeastOne(12 * 1024 / (xrow * 4 + 16) - 1);
      var n := CeilDiv(g.Cin, iccMax);
      nch := n;
      ChunksCover(g.Cin, iccMax);
      KIsJs(g);
      var chunk := CeilDiv(g.Cin, n);
      icc := chunk;
      wp := new real[g.s, cq, g.Cin, j, 4]((p, q, ic, k, r) => 0.0);
      bq := new real[4 * cq](i => 0.0);
      win := new real[chunk + 1, xrow]((i, t) => 0.0);
      S := new real[cq, g.s, 4, TB + 4]((q, p, r, t) => 0.0);
    }

    /** What the constructor fixes: the shapes, and chunks that cover the input channels. */
    ghost predicate Shaped()
    {
      && g.Valid() && TB > 0 && J == g.J() >= 1 && Cq == CeilDiv(g.Cout, 4)
      && nch > 0 && icc > 0 && (nch - 1) * icc < g.Cin <= nch * icc
      && wp.Length0 == g.s && wp.Length1 == Cq && wp.Length2 == g.Cin && wp.Length3 == J && wp.Length4 == 4
      && bq.Length == 4 * Cq && win.Length0 == icc + 1 && win.Length1 == TB + J + 3
      && S.Length0 == Cq && S.Length1 == g.s && S.Length2 == 4 && S.Length3 == TB + 4
      && win as object != S && win as object != wp && wp as object != S && bq as object != win && bq as object != S
      && bq as object != wp
    }

    /** The packed weights: each phase's taps in reverse order, absent channels zero. */
    ghost predicate Packed()
      requires Shaped()
      reads wp, bq
    {
      && (forall p, q, ic, j, r :: 0 <= p < g.s && 0 <= q < Cq && 0 <= ic < g.Cin && 0 <= j < J && 0 <= r < 4 ==>
           wp[p, q, ic, j, r] == if 4 * q + r < g.Cout then g.w(ic, 4 * q + r, p + (J - 1 - j) * g.s) else 0.0)
      && forall oc :: 0 <= oc < 4 * Cq ==> bq[oc] == if oc < g.Cout then g.bias(oc) else 0.0
    }

    method PackPhaseQuad(p: nat, q: nat)
      requires Shaped() && p < g.s && q < Cq
      modifies wp
      ensures forall a, b, ic, j, r :: 0 <= a < g.s && 0 <= b < Cq && 0 <= ic < g.Cin && 0 <= j < J && 0 <= r < 4 ==>
        wp[a, b, ic, j, r] == if a == p && b == q
                              then (if 4 * q + r < g.Cout then g.w(ic, 4 * q + r, p + (J - 1 - j) * g.s) else 0.0)
                              else old(wp[a, b, ic, j, r])
    {
      for ic := 0 to g.Cin
        invariant forall a, b, i, j, r :: 0 <= a < g.s && 0 <= b < Cq && 0 <= i < g.Cin && 0 <= j < J && 0 <= r < 4 ==>
          wp[a, b, i, j, r] == if a == p && b == q && i < ic
                               then (if 4 * q + r < g.Cout then g.w(i, 4 * q + r, p + (J - 1 - j) * g.s) else 0.0)
                               else old(wp[a, b, i, j, r])
      {
        for k := 0 to J
          invariant forall a, b, i, j, r ::
            0 <= a < g.s && 0 <= b < Cq && 0 <= i < g.Cin && 0 <= j < J && 0 <= r < 4 ==>
            wp[a, b, i, j, r] == if a == p && b == q && (i < ic || (i == ic && j < k))
                                 then (if 4 * q + r < g.Cout then g.w(i, 4 * q + r, p + (J - 1 - j) * g.s) else 0.0)
                                 else old(wp[a, b, i, j, r])
        {
          for l := 0 to 4
            invariant forall a, b, i, j, r ::
              0 <= a < g.s && 0 <= b < Cq && 0 <= i < g.Cin && 0 <= j < J && 0 <= r < 4 ==>
              wp[a, b, i, j, r] == if a == p && b == q && (i < ic || (i == ic && (j < k || (j == k && r < l))))
                                   then (if 4 * q + r < g.Cout then g.w(i, 4 * q + r, p + (J - 1 - j) * g.s) else 0.0)
                                   else old(wp[a, b, i, j, r])
          {
            wp[p, q, ic, k, l] := if 4 * q + l < g.Cout then g.w(ic, 4 * q + l, p + (J - 1 - k) * g.s) else 0.0;
          }
        }
      }
    }

    /** `pack`. */
    method Pack()
      requires Shaped()
      modifies wp, bq
      ensures Packed()
    {
      for p := 0 to g.s
        invariant forall a, b, i, j, r :: 0 <= a < p && 0 <= b < Cq && 0 <= i < g.Cin && 0 <= j < J && 0 <= r < 4 ==>
          wp[a, b, i, j, r] == if 4 * b + r < g.Cout then g.w(i, 4 * b + r, a + (J - 1 - j) * g.s) else 0.0
      {
        for q := 0 to Cq
          invariant forall a, b, i, j, r ::
            0 <= a < g.s && 0 <= b < Cq && (a < p || (a == p && b < q)) && 0 <= i < g.Cin && 0 <= j < J
              && 0 <= r < 4 ==>
            wp[a, b, i, j, r] == if 4 * b + r < g.Cout then g.w(i, 4 * b + r, a + (J - 1 - j) * g.s) else 0.0
        {
          PackPhaseQuad(p, q);
        }
      }
      for oc := 0 to 4 * Cq
        invariant forall a, b, i, j, r :: 0 <= a < g.s && 0 <= b < Cq && 0 <= i < g.Cin && 0 <= j < J && 0 <= r < 4 ==>
          wp[a, b, i, j, r] == if 4 * b + r < g.Cout then g.w(i, 4 * b + r, a + (J - 1 - j) * g.s) else 0.0
        invariant forall o :: 0 <= o < oc ==> bq[o] == if o < g.Cout then g.bias(o) else 0.0
      {
        bq[oc] := if oc < g.Cout then g.bias(oc) else 0.0;
      }
    }

    /** The window holds padded positions q0 - (J - 1) and on, n of them, of channels [k0, k0 + kc). */
    ghost predicate Window(q0: nat, k0: nat, kc: nat, n: nat)
      requires Shaped() && kc <= icc && n <= TB + J + 3
      reads win
    {
      forall i, t :: 0 <= i < kc && 0 <= t < n ==> win[i, t] == g.Padded(k0 + i, q0 + t - (J - 1))
    }

    method FillWindow(q0: nat, k0: nat, kc: nat, n: nat)
      requires Shaped() && kc <= icc && n <= TB + J + 3
      modifies win
      ensures Window(q0, k0, kc, n)
    {
      for i := 0 to kc
        invariant forall a, t :: 0 <= a < i && 0 <= t < n ==> win[a, t] == g.Padded(k0 + a, q0 + t - (J - 1))
      {
        for t := 0 to n
          invariant forall a, u :: 0 <= a < i && 0 <= u < n ==> win[a, u] == g.Padded(k0 + a, q0 + u - (J - 1))
          invariant forall u :: 0 <= u < t ==> win[i, u] == g.Padded(k0 + i, q0 + u - (J - 1))
        {
          var m := q0 + t - (J - 1);
          win[i, t] := if 0 <= m < g.L then g.x(k0 + i, m) else 0.0;
        }
      }
    }

    /** Row r of a quad's phase holds the first k channels' sum, with the bias, at n positions from q0. */
    ghost predicate RowAt(qd: nat, p: nat, r: nat, q0: nat, n: nat, k: nat)
      requires Shaped() && qd < Cq && p < g.s && r < 4 && n <= TB + 4
      reads S
    {
      4 * qd + r < g.Cout ==>
        forall t :: 0 <= t < n ==> S[qd, p, r, t] == g.bias(4 * qd + r) + g.PhaseSum(4 * qd + r, p, q0 + t, k)
    }

    /** One output of the direct kernel: the channels of the chunk added to what was there. */
    method OneSum(qd: nat, p: nat, r: nat, t: nat, q0: nat, k0: nat, kc: nat, start: real, ghost n: nat)
      returns (a: real)
      requires Shaped() && Packed() && qd < Cq && p < g.s && r < 4 && kc <= icc && k0 + kc <= g.Cin
      requires t < n <= TB + 4 && Window(q0, k0, kc, n + J - 1)
      ensures 4 * qd + r < g.Cout ==>
        a == start + g.PhaseSum(4 * qd + r, p, q0 + t, k0 + kc) - g.PhaseSum(4 * qd + r, p, q0 + t, k0)
    {
      a := start;
      ghost var oc := 4 * qd + r;
      for i := 0 to kc
        invariant oc < g.Cout ==> a == start + g.PhaseSum(oc, p, q0 + t, k0 + i) - g.PhaseSum(oc, p, q0 + t, k0)
      {
        ghost var b := a;
        for j := 0 to J
          invariant oc < g.Cout ==> a == b + g.Taps(oc, p, q0 + t, k0 + i, j)
        {
          assert win[i, t + j] == g.Padded(k0 + i, q0 + (t + j) - (J - 1));
          a := a + wp[p, qd, k0 + i, j, r] * win[i, t + j];
        }
      }
    }

    /** All four rows of a quad's phase. */
    ghost predicate PhaseAt(qd: nat, p: nat, q0: nat, n: nat, k: nat)
      requires Shaped() && qd < Cq && p < g.s && n <= TB + 4
      reads S
    {
      forall r :: 0 <= r < 4 ==> RowAt(qd, p, r, q0, n, k)
    }

    /** The direct kernel on one quad's phase: four rows of n positions, started from the bias or from what is there. */
    method Kernel(qd: nat, p: nat, q0: nat, k0: nat, kc: nat, first: bool, n: nat, ghost k1: nat)
      requires Shaped() && Packed() && qd < Cq && p < g.s && kc <= icc && k1 == k0 + kc <= g.Cin && n <= TB + 4
        && first == (k0 == 0)
      requires Window(q0, k0, kc, n + J - 1) && (first || PhaseAt(qd, p, q0, n, k0))
      modifies S
      ensures PhaseAt(qd, p, q0, n, k1)
      ensures forall a, b, k ::
        0 <= a < Cq && 0 <= b < g.s && !(a == qd && b == p) && 0 <= k && old(PhaseAt(a, b, q0, n, k)) ==>
          PhaseAt(a, b, q0, n, k)
    {
      hide Packed;
      hide Window;
      hide Problem.Valid;
      hide RowAt;
      for r := 0 to 4
        invariant Packed() && Window(q0, k0, kc, n + J - 1)
        invariant forall l :: 0 <= l < r ==> RowAt(qd, p, l, q0, n, k1)
        invariant first || forall l :: r <= l < 4 ==> RowAt(qd, p, l, q0, n, k0)
        invariant forall a, b, l, k ::
          0 <= a < Cq && 0 <= b < g.s && 0 <= l < 4 && !(a == qd && b == p) && 0 <= k
          && old(RowAt(a, b, l, q0, n, k)) ==>
            RowAt(a, b, l, q0, n, k)
      {
        KernelRow(qd, p, r, q0, k0, kc, first, n, k1);
      }
    }

    method KernelRow(qd: nat, p: nat, r: nat, q0: nat, k0: nat, kc: nat, first: bool, n: nat, ghost k1: nat)
      requires Shaped() && Packed() && qd < Cq && p < g.s && r < 4 && kc <= icc && k1 == k0 + kc <= g.Cin && n <= TB + 4
        && first == (k0 == 0)
      requires Window(q0, k0, kc, n + J - 1) && (first || RowAt(qd, p, r, q0, n, k0))
      modifies S
      ensures RowAt(qd, p, r, q0, n, k1)
      ensures forall a, b, l, k ::
        0 <= a < Cq && 0 <= b < g.s && 0 <= l < 4 && !(a == qd && b == p && l == r) && 0 <= k
          && old(RowAt(a, b, l, q0, n, k)) ==>
          RowAt(a, b, l, q0, n, k)
    {
      hide Window;
      hide Problem.PhaseSum;
      ghost var oc := 4 * qd + r;
      for t := 0 to n
        invariant Packed() && Window(q0, k0, kc, n + J - 1)
        invariant oc < g.Cout ==>
          forall u :: 0 <= u < t ==> S[qd, p, r, u] == g.bias(oc) + g.PhaseSum(oc, p, q0 + u, k1)
        invariant first
          || (oc < g.Cout ==> forall u :: t <= u < n ==> S[qd, p, r, u] == g.bias(oc) + g.PhaseSum(oc, p, q0 + u, k0))
        invariant forall a, b, l, u ::
          0 <= a < Cq && 0 <= b < g.s && 0 <= l < 4 && 0 <= u < TB + 4 && !(a == qd && b == p && l == r) ==>
            S[a, b, l, u] == old(S[a, b, l, u])
      {
        NoChannels(g, oc, p, q0 + t);
        S[qd, p, r, t] := OneSum(qd, p, r, t, q0, k0, kc, if first then bq[4 * qd + r] else S[qd, p, r, t], n);
      }
    }

    /** The scratch: every quad and phase after k channels. */
    ghost predicate ScratchAt(q0: nat, n: nat, k: nat)
      requires Shaped() && n <= TB + 4
      reads S
    {
      forall qd, p :: 0 <= qd < Cq && 0 <= p < g.s ==> PhaseAt(qd, p, q0, n, k)
    }

    /** One chunk of input channels: the window filled, every quad and phase advanced. */
    method Chunk(q0: nat, k0: nat, kc: nat, first: bool, n: nat, ghost k1: nat)
      requires Shaped() && Packed() && kc <= icc && k1 == k0 + kc <= g.Cin && n <= TB + 4 && first == (k0 == 0)
      requires first || ScratchAt(q0, n, k0)
      modifies win, S
      ensures ScratchAt(q0, n, k1)
    {
      hide Packed;
      hide Window;
      hide PhaseAt;
      hide Problem.Valid;
      FillWindow(q0, k0, kc, n + J - 1);
      for qd := 0 to Cq
        invariant Packed() && Window(q0, k0, kc, n + J - 1)
        invariant forall a, b :: 0 <= a < qd && 0 <= b < g.s ==> PhaseAt(a, b, q0, n, k1)
        invariant first || forall a, b :: qd <= a < Cq && 0 <= b < g.s ==> PhaseAt(a, b, q0, n, k0)
      {
        for p := 0 to g.s
          invariant Packed() && Window(q0, k0, kc, n + J - 1)
          invariant forall a, b :: 0 <= a < Cq && 0 <= b < g.s && (a < qd || (a == qd && b < p)) ==>
            PhaseAt(a, b, q0, n, k1)
          invariant first
            || forall a, b :: 0 <= a < Cq && 0 <= b < g.s && (a > qd || (a == qd && b >= p)) ==>
               PhaseAt(a, b, q0, n, k0)
        {
          Kernel(qd, p, q0, k0, kc, first, n, k1);
        }
      }
    }

    /** All chunks of a block. */
    method Chunks(q0: nat, n: nat)
      requires Shaped() && Packed() && n <= TB + 4
      modifies win, S
      ensures ScratchAt(q0, n, g.Cin)
    {
      hide Packed;
      hide ScratchAt;
      for ch := 0 to nch
        invariant Packed() && (ch == 0 || ScratchAt(q0, n, if ch * icc < g.Cin then ch * icc else g.Cin))
      {
        Index.MulNonneg(ch, icc);
        Index.MulMono(ch, nch - 1, icc);
        Index.MulAdd(ch, 1, icc);
        if ch > 0 { Index.MulMono(1, ch, icc); }
        if ch + 1 == nch { assert (ch + 1) * icc == nch * icc; }
        var k0 := ch * icc;
        var kc := if icc < g.Cin - k0 then icc else g.Cin - k0;
        Chunk(q0, k0, kc, ch == 0, n, k0 + kc);
      }
    }

    /** One channel's positions of a block, its phases woven together. */
    method InterleaveChannel(y: Output, oc: nat, q0: nat, nb: nat, n: nat)
      requires Shaped() && oc < g.Cout && nb <= n <= TB + 4 && q0 + nb <= g.Q() && ScratchAt(q0, n, g.Cin)
      requires y.Length0 == g.Cout && y.Length1 == g.OL() && y as object != S
      modifies y
      ensures forall c, o :: 0 <= c < g.Cout && 0 <= o < y.Length1 ==>
        y[c, o] == if c == oc && q0 * g.s <= o < (q0 + nb) * g.s then old(y[c, o]).Store(g.Out(c, o)) else old(y[c, o])
    {
      hide Problem.Out;
      hide ScratchAt;
      hide Problem.Valid;
      for t := 0 to nb
        invariant ScratchAt(q0, n, g.Cin)
        invariant forall c, o :: 0 <= c < g.Cout && 0 <= o < y.Length1 ==>
          y[c, o] == if c == oc && q0 * g.s <= o < (q0 + t) * g.s then old(y[c, o]).Store(g.Out(c, o)) else old(y[c, o])
      {
        PositionFits(g, q0 + t);
        Index.MulMono(q0, q0 + t, g.s);
        Index.MulAdd(q0 + t, 1, g.s);
        InterleavePosition(y, oc, q0, t, n);
      }
    }

    /** A finished scratch holds the outputs. */
    lemma ScratchIsOutput(oc: nat, p: nat, q0: nat, t: nat, n: nat, o: nat)
      requires Shaped() && oc < g.Cout && p < g.s && t < n <= TB + 4 && ScratchAt(q0, n, g.Cin)
        && o == (q0 + t) * g.s + p
      ensures oc / 4 < Cq && S[oc / 4, p, oc % 4, t] == g.Out(oc, o)
    {
      hide Problem.Out;
      QuadOf(oc, g.Cout);
      assert PhaseAt(oc / 4, p, q0, n, g.Cin);
      assert RowAt(oc / 4, p, oc % 4, q0, n, g.Cin);
      PhaseIsOutput(g, oc, p, q0 + t);
    }

    method InterleavePosition(y: Output, oc: nat, q0: nat, t: nat, n: nat)
      requires Shaped() && oc < g.Cout && t < n <= TB + 4 && q0 + t < g.Q() && ScratchAt(q0, n, g.Cin)
      requires y.Length0 == g.Cout && y.Length1 == g.OL() && y as object != S
      modifies y
      ensures ScratchAt(q0, n, g.Cin)
      ensures forall c, o :: 0 <= c < g.Cout && 0 <= o < y.Length1 ==>
        y[c, o] == if c == oc && (q0 + t) * g.s <= o < (q0 + t) * g.s + g.s
                   then old(y[c, o]).Store(g.Out(c, o)) else old(y[c, o])
    {
      hide Problem.Out;
      hide Problem.Valid;
      hide ScratchAt;
      PositionFits(g, q0 + t);
      var o0 := (q0 + t) * g.s;
      for p := 0 to g.s
        invariant ScratchAt(q0, n, g.Cin)
        invariant forall c, o :: 0 <= c < g.Cout && 0 <= o < y.Length1 ==>
          y[c, o] == if c == oc && o0 <= o < o0 + p then old(y[c, o]).Store(g.Out(c, o)) else old(y[c, o])
      {
        QuadOf(oc, g.Cout);
        ScratchIsOutput(oc, p, q0, t, n, o0 + p);
        y[oc, o0 + p] := y[oc, o0 + p].Store(S[oc / 4, p, oc % 4, t]);
      }
    }

    /** A block of positions [q0, q0 + nb): all chunks, then every channel interleaved. */
    method Block(y: Output, q0: nat, nb: nat)
      requires Shaped() && Packed() && nb <= TB && q0 + nb <= g.Q()
      requires y.Length0 == g.Cout && y.Length1 == g.OL() && y as object != S && y as object != win && y as object != wp
        && y as object != bq
      modifies y, win, S
      ensures forall c, o :: 0 <= c < g.Cout && 0 <= o < y.Length1 ==>
        y[c, o] == if q0 * g.s <= o < (q0 + nb) * g.s then old(y[c, o]).Store(g.Out(c, o)) else old(y[c, o])
    {
      hide Problem.Out;
      hide ScratchAt;
      hide Problem.Valid;
      var n := (nb + 3) / 4 * 4;
      Chunks(q0, n);
      for oc := 0 to g.Cout
        invariant ScratchAt(q0, n, g.Cin)
        invariant forall c, o :: 0 <= c < g.Cout && 0 <= o < y.Length1 ==>
          y[c, o] == if c < oc && q0 * g.s <= o < (q0 + nb) * g.s then old(y[c, o]).Store(g.Out(c, o)) else old(y[c, o])
      {
        InterleaveChannel(y, oc, q0, nb, n);
      }
    }

    /** `run`: every output is stored exactly once, and is the transposed convolution's. */
    method Run(y: Output)
      requires Shaped() && Packed()
      requires y.Length0 == g.Cout && y.Length1 == g.OL() && y as object != S && y as object != win && y as object != wp
        && y as object != bq
      modifies y, win, S
      ensures forall c, o :: 0 <= c < g.Cout && 0 <= o < y.Length1 ==> y[c, o] == old(y[c, o]).Store(g.Out(c, o))
    {
      hide Problem.Out;
      hide Packed;
      KIsJs(g);
      var q0 := 0;
      while q0 < g.Q()
        invariant 0 <= q0 <= g.Q() && Packed()
        invariant forall c, o :: 0 <= c < g.Cout && 0 <= o < y.Length1 ==>
          y[c, o] == if o < q0 * g.s then old(y[c, o]).Store(g.Out(c, o)) else old(y[c, o])
        decreases g.Q() - q0
      {
        var nb := if TB < g.Q() - q0 then TB else g.Q() - q0;
        Index.MulNonneg(q0, g.s);
        Index.MulMono(q0, q0 + nb, g.s);
        Block(y, q0, nb);
        q0 := q0 + nb;
      }
    }
  }

  /** Position q's outputs lie within the output. */
  lemma PositionFits(g: Problem, q: nat)
    requires g.Valid() && q < g.Q()
    ensures 0 <= q * g.s && q * g.s + g.s <= g.OL()
  {
    KIsJs(g);
    Index.MulNonneg(q, g.s);
    Index.MulMono(q + 1, g.Q(), g.s);
    Index.MulAdd(q, 1, g.s);
  }

  lemma NoChannels(g: Problem, oc: int, p: int, q: int)
    requires g.s > 0
    ensures g.PhaseSum(oc, p, q, 0) == 0.0
  {
  }

  lemma QuadOf(oc: nat, Cout: nat)
    requires oc < Cout
    ensures oc / 4 < CeilDiv(Cout, 4) && oc == 4 * (oc / 4) + oc % 4
  {
  }

  function AtLeastOne(n: int): (r: nat)
    ensures r >= 1
  {
    if n < 1 then 1 else n
  }
}
