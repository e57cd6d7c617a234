/**
 scripts/bench11.cpp: a resblock's two convolutions fused into one pass over the sequence, the
 intermediate held in a rolling window per thread, against the two-pass definition.
 */
module ResblockChain {
  import Index

  /**
   Arithmetic with a multiply-accumulate, an addition and the activation. The fused and the plain
   multiply-accumulate are one operation here, and so are the vector and scalar activations.
   */
  datatype Arith<!F(!new)> = Arith(zero: F, mac: (F, F, F) -> F, add: (F, F) -> F, leaky: F -> F)
  {
    /** Multiplying by a padding zero adds nothing, and the activation keeps zero. */
    ghost predicate ZeroIsNeutral()
    {
      (forall a, w :: mac(a, w, zero) == a) && leaky(zero) == zero
    }
  }

  /** Values by channel and position. */
  type Grid<!F> = (int, int) -> F

  /** Packed weights by input channel, tap and output channel. */
  type Weights<!F> = (int, int, int) -> F

  /** One dilated convolution's weights and bias. */
  datatype Layer<!F(!new)> = Layer(w: Weights<F>, b: int -> F, dil: nat)

  /** Two layers over C channels of length L with KW taps each, an input and a residual. */
  datatype Problem<!F(!new)> = Problem(A: Arith<F>, C: nat, L: nat, KW: nat, first: Layer<F>, second: Layer<F>,
                                       x: Grid<F>, r: Grid<F>)

  /** Taps [0, kx) of input channel ic added to `acc`; taps that fall outside [0, len) are skipped. */
  function Taps<F(!new)>(A: Arith<F>, l: Layer<F>, x: Grid<F>, len: int, oc: int, ic: int, start: int, acc: F,
                         kx: nat): F
  {
    if kx == 0 then acc
    else
      var a := Taps(A, l, x, len, oc, ic, start, acc, kx - 1);
      var q := start + (kx - 1) * l.dil;
      if 0 <= q < len then A.mac(a, l.w(ic, kx - 1, oc), x(ic, q)) else a
  }

  /** Input channels [0, ic) of output channel oc, first tap at `start`, from the bias. */
  function Conv<F(!new)>(A: Arith<F>, l: Layer<F>, x: Grid<F>, len: int, KW: nat, oc: int, start: int, ic: nat): F
  {
    if ic == 0 then l.b(oc)
    else Taps(A, l, x, len, oc, ic - 1, start, Conv(A, l, x, len, KW, oc, start, ic - 1), KW)
  }

  /** How far the last tap lies from the first. */
  function Span(KW: nat, dil: nat): (n: nat)
    requires KW > 0
  {
    Index.MulNonneg(KW - 1, dil);
    (KW - 1) * dil
  }

  /** Half the span of a layer's taps. */
  function Half(KW: nat, dil: nat): (h: nat)
    requires KW > 0
  {
    Span(KW, dil) / 2
  }

  /** For an odd number of taps the middle one stands half the span from the first. */
  lemma MiddleTap(KW: nat, dil: nat, kx: nat)
    requires KW % 2 == 1
    ensures Half(KW, dil) == (KW - 1) / 2 * dil && kx * dil - Half(KW, dil) == (kx - (KW - 1) / 2) * dil
  {
    var h := (KW - 1) / 2;
    Index.MulAdd(h, h, dil);
    Index.MulSub(kx, h, dil);
  }

  /** The intermediate: the first convolution plus the residual, zero outside [0, L). */
  function Mid<F(!new)>(g: Problem<F>, c: int, q: int): F
    requires g.KW > 0
  {
    if 0 <= q < g.L
    then g.A.add(Conv(g.A, g.first, g.x, g.L, g.KW, c, q - Half(g.KW, g.first.dil), g.C), g.r(c, q))
    else g.A.zero
  }

  /** The activated intermediate. */
  function MidH<F(!new)>(g: Problem<F>, c: int, q: int): F
    requires g.KW > 0
  {
    g.A.leaky(Mid(g, c, q))
  }

  /** The definition: the second convolution over the activated intermediate, plus the intermediate. */
  function Out<F(!new)>(g: Problem<F>, c: int, p: int): F
    requires g.KW > 0
  {
    g.A.add(Conv(g.A, g.second, (ic, q) => MidH(g, ic, q), g.L, g.KW, c, p - Half(g.KW, g.second.dil), g.C),
            Mid(g, c, p))
  }

  ghost predicate Valid<F(!new)>(g: Problem<F>)
  {
    g.KW > 0 && g.C % 4 == 0 && g.A.ZeroIsNeutral()
  }

  // --- the reads of the second convolution ---

  /** Number of tiles of T positions. */
  function Tiles(L: nat, T: nat): int requires T > 0 { (L + T - 1) / T }

  /** Tile k's first position, and the end of its positions. */
  function TileStop(L: nat, T: nat, k: int): int { if k * T + T < L then k * T + T else L }

  /** Tap kx of output p of tile k reads inside its row of the window, T + 2 * Half positions. */
  predicate ReadFits(L: nat, T: nat, KW: nat, dil: nat, k: int, p: int, kx: int)
    requires KW > 0 && T > 0
  {
    0 <= k < Tiles(L, T) && k * T <= p < TileStop(L, T, k) && 0 <= kx < KW ==>
      0 <= p - k * T + kx * dil < T + 2 * Half(KW, dil)
  }

  /** The taps span an even number of positions, or the one tile is not full. */
  predicate SpanFits(L: nat, T: nat, KW: nat, dil: nat)
    requires KW > 0
  {
    Span(KW, dil) % 2 == 0 || L < T
  }

  /** In every tile the reads of the last tap end with the row. */
  lemma TileFits(L: nat, T: nat, KW: nat, dil: nat, k: int)
    requires KW > 0 && T > 0 && SpanFits(L, T, KW, dil) && 0 <= k < Tiles(L, T)
    ensures TileStop(L, T, k) - k * T + Span(KW, dil) <= T + 2 * Half(KW, dil)
  {
    Index.MulNonneg(k, T);
  }

  /**
   The window is wide enough for every tap of every output of every tile if and only if the taps span an even number of
   positions or the sequence is shorter than a tile.
   */
  lemma ReadsFitIff(L: nat, T: nat, KW: nat, dil: nat)
    requires KW > 0 && T > 0
    ensures (forall k, p, kx :: ReadFits(L, T, KW, dil, k, p, kx)) <==> SpanFits(L, T, KW, dil)
  {
    hide Tiles;
    if SpanFits(L, T, KW, dil) {
      forall k, p, kx ensures ReadFits(L, T, KW, dil, k, p, kx) {
        if 0 <= k < Tiles(L, T) && k * T <= p < TileStop(L, T, k) && 0 <= kx < KW {
          TileFits(L, T, KW, dil, k);
          TapReach(kx, KW, dil);
        }
      }
    } else {
      FirstTile(L, T);
      assert !ReadFits(L, T, KW, dil, 0, T - 1, KW - 1);
    }
  }

  lemma FirstTile(L: nat, T: nat)
    requires 0 < T <= L
    ensures 0 < Tiles(L, T) && TileStop(L, T, 0) == T
  {
    Index.CeilDiv(L, T);
  }

  /** The last position a tap chain touches. */
  lemma TapReach(kx: nat, KW: nat, dil: nat)
    requires kx < KW
    ensures 0 <= kx * dil <= (KW - 1) * dil
  {
    Index.MulNonneg(kx, dil);
    Index.MulMono(kx, KW - 1, dil);
  }

  // --- windows ---

  /** A convolution over a window that starts at `base` and holds zeros outside [0, L) is the convolution itself. */
  lemma {:induction false} TapsInWindow<F(!new)>(A: Arith<F>, l: Layer<F>, x: Grid<F>, v: Grid<F>, L: int, W: int,
                                                 base: int,
                                           oc: int, ic: int, start: int, acc: F, kx: nat)
    requires A.ZeroIsNeutral()
    requires forall q :: 0 <= q < W ==> v(ic, q) == if 0 <= base + q < L then x(ic, base + q) else A.zero
    requires 0 <= start && (kx > 0 ==> start + (kx - 1) * l.dil < W)
    ensures Taps(A, l, v, W, oc, ic, start, acc, kx) == Taps(A, l, x, L, oc, ic, base + start, acc, kx)
  {
    if kx > 0 {
      Index.MulNonneg(kx - 1, l.dil);
      Index.MulSub(kx - 1, 1, l.dil);
      TapsInWindow(A, l, x, v, L, W, base, oc, ic, start, acc, kx - 1);
    }
  }

  lemma {:induction false} ConvInWindow<F(!new)>(A: Arith<F>, l: Layer<F>, x: Grid<F>, v: Grid<F>, L: int, W: int,
                                                 base: int,
                                           KW: nat, oc: int, start: int, n: nat)
    requires A.ZeroIsNeutral()
    requires forall ic, q :: 0 <= ic < n && 0 <= q < W ==>
      v(ic, q) == if 0 <= base + q < L then x(ic, base + q) else A.zero
    requires 0 <= start && (KW > 0 ==> start + (KW - 1) * l.dil < W)
    ensures Conv(A, l, v, W, KW, oc, start, n) == Conv(A, l, x, L, KW, oc, base + start, n)
  {
    if n > 0 {
      ConvInWindow(A, l, x, v, L, W, base, KW, oc, start, n - 1);
      TapsInWindow(A, l, x, v, L, W, base, oc, n - 1, start, Conv(A, l, v, W, KW, oc, start, n - 1), KW);
    }
  }

  /** The convolution does not look at values outside the channels and positions it reads. */
  lemma {:induction false} ConvSame<F(!new)>(A: Arith<F>, l: Layer<F>, x: Grid<F>, y: Grid<F>, L: int, KW: nat, oc: int,
                                             start: int, n: nat)
    requires forall ic, q :: 0 <= ic < n && 0 <= q < L ==> x(ic, q) == y(ic, q)
    ensures Conv(A, l, x, L, KW, oc, start, n) == Conv(A, l, y, L, KW, oc, start, n)
  {
    if n > 0 {
      ConvSame(A, l, x, y, L, KW, oc, start, n - 1);
      TapsSame(A, l, x, y, L, oc, n - 1, start, Conv(A, l, x, L, KW, oc, start, n - 1), KW);
    }
  }

  lemma {:induction false} TapsSame<F(!new)>(A: Arith<F>, l: Layer<F>, x: Grid<F>, y: Grid<F>, L: int, oc: int, ic: int,
                                             start: int, acc: F, kx: nat)
    requires forall q :: 0 <= q < L ==> x(ic, q) == y(ic, q)
    ensures Taps(A, l, x, L, oc, ic, start, acc, kx) == Taps(A, l, y, L, oc, ic, start, acc, kx)
  {
    if kx > 0 { TapsSame(A, l, x, y, L, oc, ic, start, acc, kx - 1); }
  }

  /** The array shows the grid. */
  ghost predicate Shows<F(!new)>(a: array2<F>, g: Grid<F>)
    reads a
  {
    forall i, j :: 0 <= i < a.Length0 && 0 <= j < a.Length1 ==> a[i, j] == g(i, j)
  }

  // --- the register tile: 4 output channels by 16 positions ---

  ghost predicate AccAt<F(!new)>(A: Arith<F>, l: Layer<F>, v: Grid<F>, W: int, KW: nat, oc0: int, xoff: int, ic: nat,
                                 kx: nat, acc: array2<F>)
    requires acc.Length0 == 4 && acc.Length1 == 16
    reads acc
  {
    forall i, j :: 0 <= i < 4 && 0 <= j < 16 ==>
      acc[i, j] == Taps(A, l, v, W, oc0 + i, ic, xoff + j, Conv(A, l, v, W, KW, oc0 + i, xoff + j, ic), kx)
  }

  /** One tap: a weight per row against sixteen positions. */
  method TapRow<F(!new)>(A: Arith<F>, acc: array2<F>, i: nat, w: F, xs: seq<F>)
    requires acc.Length0 == 4 && acc.Length1 == 16 && i < 4 && |xs| == 16
    modifies acc
    ensures forall q, j :: 0 <= q < 4 && 0 <= j < 16 ==>
      acc[q, j] == if q == i then A.mac(old(acc[q, j]), w, xs[j]) else old(acc[q, j])
  {
    for j := 0 to 16
      invariant forall q, r :: 0 <= q < 4 && 0 <= r < 16 ==>
        acc[q, r] == if q == i && r < j then A.mac(old(acc[q, r]), w, xs[r]) else old(acc[q, r])
    {
      acc[i, j] := A.mac(acc[i, j], w, xs[j]);
    }
  }

  method LoadSixteen<F(!new)>(xp: array2<F>, ic: nat, q: nat) returns (xs: seq<F>)
    requires ic < xp.Length0 && q + 16 <= xp.Length1
    ensures |xs| == 16 && forall j :: 0 <= j < 16 ==> xs[j] == xp[ic, q + j]
  {
    xs := seq(16, j requires 0 <= j < 16 reads xp => xp[ic, q + j]);
  }

  method TapStep<F(!new)>(A: Arith<F>, l: Layer<F>, xp: array2<F>, ghost v: Grid<F>, KW: nat, oc0: nat, xoff: nat,
                          ic: nat, kx: nat, acc: array2<F>)
    requires acc.Length0 == 4 && acc.Length1 == 16 && acc != xp && Shows(xp, v) && ic < xp.Length0
    requires 0 <= kx * l.dil && xoff + kx * l.dil + 16 <= xp.Length1
    requires AccAt(A, l, v, xp.Length1, KW, oc0, xoff, ic, kx, acc)
    modifies acc
    ensures AccAt(A, l, v, xp.Length1, KW, oc0, xoff, ic, kx + 1, acc)
  {
    hide Conv;
    var xs := LoadSixteen(xp, ic, xoff + kx * l.dil);
    TapRow(A, acc, 0, l.w(ic, kx, oc0), xs);
    TapRow(A, acc, 1, l.w(ic, kx, oc0 + 1), xs);
    TapRow(A, acc, 2, l.w(ic, kx, oc0 + 2), xs);
    TapRow(A, acc, 3, l.w(ic, kx, oc0 + 3), xs);
  }

  method TileLoop<F(!new)>(A: Arith<F>, l: Layer<F>, xp: array2<F>, ghost v: Grid<F>, KW: nat, oc0: nat, xoff: nat,
                           acc: array2<F>)
    requires acc.Length0 == 4 && acc.Length1 == 16 && acc != xp && Shows(xp, v)
    requires KW > 0 ==> 0 <= (KW - 1) * l.dil && xoff + (KW - 1) * l.dil + 16 <= xp.Length1
    requires forall i, j :: 0 <= i < 4 && 0 <= j < 16 ==> acc[i, j] == l.b(oc0 + i)
    modifies acc
    ensures forall i, j :: 0 <= i < 4 && 0 <= j < 16 ==>
      acc[i, j] == Conv(A, l, v, xp.Length1, KW, oc0 + i, xoff + j, xp.Length0)
  {
    hide AccAt;
    hide Taps;
    for ic := 0 to xp.Length0
      invariant forall i, j :: 0 <= i < 4 && 0 <= j < 16 ==>
        acc[i, j] == Conv(A, l, v, xp.Length1, KW, oc0 + i, xoff + j, ic)
      invariant Shows(xp, v)
    {
      AccStart(A, l, v, xp.Length1, KW, oc0, xoff, ic, acc);
      for kx := 0 to KW
        invariant AccAt(A, l, v, xp.Length1, KW, oc0, xoff, ic, kx, acc) && Shows(xp, v)
      {
        TapReach(kx, KW, l.dil);
        TapStep(A, l, xp, v, KW, oc0, xoff, ic, kx, acc);
      }
      AccEnd(A, l, v, xp.Length1, KW, oc0, xoff, ic, acc);
    }
  }

  lemma AccStart<F(!new)>(A: Arith<F>, l: Layer<F>, v: Grid<F>, W: int, KW: nat, oc0: int, xoff: int, ic: nat,
                          acc: array2<F>)
    requires acc.Length0 == 4 && acc.Length1 == 16
    requires forall i, j :: 0 <= i < 4 && 0 <= j < 16 ==> acc[i, j] == Conv(A, l, v, W, KW, oc0 + i, xoff + j, ic)
    ensures AccAt(A, l, v, W, KW, oc0, xoff, ic, 0, acc)
  {
  }

  lemma AccEnd<F(!new)>(A: Arith<F>, l: Layer<F>, v: Grid<F>, W: int, KW: nat, oc0: int, xoff: int, ic: nat,
                        acc: array2<F>)
    requires acc.Length0 == 4 && acc.Length1 == 16 && AccAt(A, l, v, W, KW, oc0, xoff, ic, KW, acc)
    ensures forall i, j :: 0 <= i < 4 && 0 <= j < 16 ==> acc[i, j] == Conv(A, l, v, W, KW, oc0 + i, xoff + j, ic + 1)
  {
  }

  /** One tile: bias, every channel and tap, then the residual on the store. */
  method Tile<F(!new)>(A: Arith<F>, l: Layer<F>, xp: array2<F>, ghost v: Grid<F>, KW: nat, oc0: nat, xoff: nat,
                       res: array2<F>, roff: nat, y: array2<F>, yoff: nat)
    requires Shows(xp, v) && y !in {xp, res} && oc0 + 4 <= res.Length0 && oc0 + 4 <= y.Length0
    requires KW > 0 ==> 0 <= (KW - 1) * l.dil && xoff + (KW - 1) * l.dil + 16 <= xp.Length1
    requires roff + 16 <= res.Length1 && yoff + 16 <= y.Length1
    modifies y
    ensures forall c, q :: 0 <= c < y.Length0 && 0 <= q < y.Length1 ==>
      y[c, q] == if oc0 <= c < oc0 + 4 && yoff <= q < yoff + 16
                 then A.add(Conv(A, l, v, xp.Length1, KW, c, xoff + (q - yoff), xp.Length0), res[c, roff + (q - yoff)])
                 else old(y[c, q])
  {
    hide Conv;
    var acc := new F[4, 16]((i, j) => l.b(oc0 + i));
    TileLoop(A, l, xp, v, KW, oc0, xoff, acc);
    StoreTile(A, acc, oc0, res, roff, y, yoff);
    forall c, q | oc0 <= c < oc0 + 4 && yoff <= q < yoff + 16
      ensures y[c, q] ==
        A.add(Conv(A, l, v, xp.Length1, KW, c, xoff + (q - yoff), xp.Length0), res[c, roff + (q - yoff)])
    {
      assert acc[c - oc0, q - yoff] == Conv(A, l, v, xp.Length1, KW, oc0 + (c - oc0), xoff + (q - yoff), xp.Length0);
    }
  }

  method StoreTile<F(!new)>(A: Arith<F>, acc: array2<F>, oc0: nat, res: array2<F>, roff: nat, y: array2<F>, yoff: nat)
    requires acc.Length0 == 4 && acc.Length1 == 16 && y !in {acc, res} && oc0 + 4 <= res.Length0 && oc0 + 4 <= y.Length0
    requires roff + 16 <= res.Length1 && yoff + 16 <= y.Length1
    modifies y
    ensures forall c, q :: 0 <= c < y.Length0 && 0 <= q < y.Length1 ==>
      y[c, q] == if oc0 <= c < oc0 + 4 && yoff <= q < yoff + 16
                 then A.add(acc[c - oc0, q - yoff], res[c, roff + (q - yoff)]) else old(y[c, q])
  {
    for i := 0 to 4
      invariant forall c, q :: 0 <= c < y.Length0 && 0 <= q < y.Length1 ==>
        y[c, q] == if oc0 <= c < oc0 + i && yoff <= q < yoff + 16
                   then A.add(acc[c - oc0, q - yoff], res[c, roff + (q - yoff)]) else old(y[c, q])
    {
      for j := 0 to 16
        invariant forall c, q :: 0 <= c < y.Length0 && 0 <= q < y.Length1 ==>
          y[c, q] == if (oc0 <= c < oc0 + i && yoff <= q < yoff + 16) || (c == oc0 + i && yoff <= q < yoff + j)
                     then A.add(acc[c - oc0, q - yoff], res[c, roff + (q - yoff)]) else old(y[c, q])
      {
        y[oc0 + i, yoff + j] := A.add(acc[i, j], res[oc0 + i, roff + j]);
      }
    }
  }

  /** Sixteen positions of every output channel, four channels a tile. */
  method TileColumn<F(!new)>(A: Arith<F>, l: Layer<F>, xp: array2<F>, ghost v: Grid<F>, C: nat, KW: nat, xoff: nat,
                             res: array2<F>, roff: nat, y: array2<F>, yoff: nat)
    requires C % 4 == 0 && Shows(xp, v) && y !in {xp, res} && C == res.Length0 == y.Length0 == xp.Length0
    requires KW > 0 ==> 0 <= (KW - 1) * l.dil && xoff + (KW - 1) * l.dil + 16 <= xp.Length1
    requires roff + 16 <= res.Length1 && yoff + 16 <= y.Length1
    modifies y
    ensures forall c, q :: 0 <= c < y.Length0 && 0 <= q < y.Length1 ==>
      y[c, q] == if yoff <= q < yoff + 16
                 then A.add(Conv(A, l, v, xp.Length1, KW, c, xoff + (q - yoff), C), res[c, roff + (q - yoff)])
                 else old(y[c, q])
  {
    hide Conv;
    var oc0 := 0;
    while oc0 < C
      invariant 0 <= oc0 <= C && oc0 % 4 == 0 && Shows(xp, v)
      invariant forall c, q :: 0 <= c < y.Length0 && 0 <= q < y.Length1 ==>
        y[c, q] == if c < oc0 && yoff <= q < yoff + 16
                   then A.add(Conv(A, l, v, xp.Length1, KW, c, xoff + (q - yoff), C), res[c, roff + (q - yoff)])
                   else old(y[c, q])
    {
      Tile(A, l, xp, v, KW, oc0, xoff, res, roff, y, yoff);
      oc0 := oc0 + 4;
    }
  }

  // --- the scalar paths ---

  /** One output of the first convolution near an edge: taps outside the input are skipped. */
  method GuardedPoint<F(!new)>(A: Arith<F>, l: Layer<F>, xp: array2<F>, ghost v: Grid<F>, KW: nat, oc: nat, start: int)
    returns (a: F)
    requires Shows(xp, v)
    ensures a == Conv(A, l, v, xp.Length1, KW, oc, start, xp.Length0)
  {
    a := l.b(oc);
    for ic := 0 to xp.Length0
      invariant a == Conv(A, l, v, xp.Length1, KW, oc, start, ic)
    {
      ghost var from := a;
      for kx := 0 to KW
        invariant a == Taps(A, l, v, xp.Length1, oc, ic, start, from, kx)
      {
        var q := start + kx * l.dil;
        if 0 <= q < xp.Length1 { a := A.mac(a, l.w(ic, kx, oc), xp[ic, q]); }
      }
    }
  }

  /** One output of the second convolution: every tap is inside the window. */
  method DensePoint<F(!new)>(A: Arith<F>, l: Layer<F>, xp: array2<F>, ghost v: Grid<F>, KW: nat, oc: nat, start: nat)
    returns (a: F)
    requires Shows(xp, v)
    requires KW > 0 ==> start + (KW - 1) * l.dil < xp.Length1
    ensures a == Conv(A, l, v, xp.Length1, KW, oc, start, xp.Length0)
  {
    a := l.b(oc);
    for ic := 0 to xp.Length0
      invariant a == Conv(A, l, v, xp.Length1, KW, oc, start, ic)
    {
      ghost var from := a;
      for kx := 0 to KW
        invariant a == Taps(A, l, v, xp.Length1, oc, ic, start, from, kx)
      {
        TapReach(kx, KW, l.dil);
        a := A.mac(a, l.w(ic, kx, oc), xp[ic, start + kx * l.dil]);
      }
    }
  }

  // --- the first convolution into the window ---

  /** The inputs in memory are the problem's. */
  ghost predicate Inputs<F(!new)>(g: Problem<F>, x: array2<F>, r: array2<F>)
    reads x, r
  {
    && x.Length0 == r.Length0 == g.C && x.Length1 == r.Length1 == g.L && Shows(x, g.x) && Shows(r, g.r)
  }

  /** One position of the intermediate, every channel, the scalar way. */
  method MidColumn<F(!new)>(g: Problem<F>, x: array2<F>, r: array2<F>, mid: array2<F>, p: nat, i: nat)
    requires Valid(g) && Inputs(g, x, r) && mid !in {x, r} && mid.Length0 == g.C && p < g.L && i < mid.Length1
    modifies mid
    ensures forall c, q :: 0 <= c < mid.Length0 && 0 <= q < mid.Length1 ==>
      mid[c, q] == if q == i then Mid(g, c, p) else old(mid[c, q])
  {
    hide Conv;
    for oc := 0 to g.C
      invariant forall c, q :: 0 <= c < mid.Length0 && 0 <= q < mid.Length1 ==>
        mid[c, q] == if q == i && c < oc then Mid(g, c, p) else old(mid[c, q])
    {
      var a := GuardedPoint(g.A, g.first, x, g.x, g.KW, oc, p - Half(g.KW, g.first.dil));
      mid[oc, i] := g.A.add(a, r[oc, p]);
    }
  }

  /** The first convolution for absolute positions [a0, a1), landing at window offset a0 - base. */
  method ConvA<F(!new)>(g: Problem<F>, x: array2<F>, r: array2<F>, mid: array2<F>, a0: nat, a1: nat, base: int)
    requires Valid(g) && Inputs(g, x, r) && mid !in {x, r} && mid.Length0 == g.C
    requires base <= a0 && a1 - base <= mid.Length1 && a1 <= g.L
    modifies mid
    ensures forall c, q :: 0 <= c < mid.Length0 && 0 <= q < mid.Length1 ==>
      mid[c, q] == if a0 <= base + q < a1 then Mid(g, c, base + q) else old(mid[c, q])
  {
    hide Conv;
    hide Valid;
    hide Half;
    assert g.KW > 0 && g.C % 4 == 0 by { ValidParts(g); }
    var hA, span := Half(g.KW, g.first.dil), (g.KW - 1) * g.first.dil;
    var p := a0;
    while p < a1
      invariant a0 <= p && (p == a0 || p <= a1)
      invariant forall c, q :: 0 <= c < mid.Length0 && 0 <= q < mid.Length1 ==>
        mid[c, q] == if a0 <= base + q < p then Mid(g, c, base + q) else old(mid[c, q])
    {
      if p + 16 <= a1 && p + 16 <= g.L && p - hA >= 0 && p + 15 + span - hA < g.L {
        SpanNonneg(g.KW, g.first.dil);
        TileColumn(g.A, g.first, x, g.x, g.C, g.KW, p - hA, r, p, mid, p - base);
        p := p + 16;
      } else {
        MidColumn(g, x, r, mid, p, p - base);
        p := p + 1;
      }
    }
  }

  lemma ValidParts<F(!new)>(g: Problem<F>)
    requires Valid(g)
    ensures g.KW > 0 && g.C % 4 == 0 && g.A.ZeroIsNeutral()
  {
  }

  lemma HalfOfSpan(KW: nat, dil: nat)
    requires KW > 0
    ensures 0 <= Half(KW, dil) <= Span(KW, dil)
  {
    Index.MulNonneg(KW - 1, dil);
  }

  lemma SpanNonneg(KW: nat, dil: nat)
    requires KW > 0
    ensures 0 <= (KW - 1) * dil
  {
    Index.MulNonneg(KW - 1, dil);
  }

  /** midh[n0..n1) = leaky(mid[n0..n1)), every channel. */
  method LeakyRange<F(!new)>(A: Arith<F>, mid: array2<F>, midh: array2<F>, n0: nat, n1: nat)
    requires mid != midh && mid.Length0 == midh.Length0 && mid.Length1 == midh.Length1 && n0 <= n1 <= mid.Length1
    modifies midh
    ensures forall c, q :: 0 <= c < midh.Length0 && 0 <= q < midh.Length1 ==>
      midh[c, q] == if n0 <= q < n1 then A.leaky(mid[c, q]) else old(midh[c, q])
  {
    for c := 0 to mid.Length0
      invariant forall d, q :: 0 <= d < midh.Length0 && 0 <= q < midh.Length1 ==>
        midh[d, q] == if d < c && n0 <= q < n1 then A.leaky(mid[d, q]) else old(midh[d, q])
    {
      for i := n0 to n1
        invariant forall d, q :: 0 <= d < midh.Length0 && 0 <= q < midh.Length1 ==>
          midh[d, q] == if (d < c && n0 <= q < n1) || (d == c && n0 <= q < i)
                        then A.leaky(mid[d, q]) else old(midh[d, q])
      {
        midh[c, i] := A.leaky(mid[c, i]);
      }
    }
  }

  /** memset of window offsets [n0, n1) in every channel. */
  method ZeroRange<F(!new)>(A: Arith<F>, mid: array2<F>, n0: nat, n1: nat)
    requires n0 <= n1 <= mid.Length1
    modifies mid
    ensures forall c, q :: 0 <= c < mid.Length0 && 0 <= q < mid.Length1 ==>
      mid[c, q] == if n0 <= q < n1 then A.zero else old(mid[c, q])
  {
    for c := 0 to mid.Length0
      invariant forall d, q :: 0 <= d < mid.Length0 && 0 <= q < mid.Length1 ==>
        mid[d, q] == if d < c && n0 <= q < n1 then A.zero else old(mid[d, q])
    {
      for i := n0 to n1
        invariant forall d, q :: 0 <= d < mid.Length0 && 0 <= q < mid.Length1 ==>
          mid[d, q] == if (d < c && n0 <= q < n1) || (d == c && n0 <= q < i) then A.zero else old(mid[d, q])
      {
        mid[c, i] := A.zero;
      }
    }
  }

  /** memmove of the trailing `n` offsets of every channel to the front, `T` to the left. */
  method ShiftLeft<F(!new)>(m: array2<F>, T: nat, n: nat)
    requires T + n <= m.Length1
    modifies m
    ensures forall c, q :: 0 <= c < m.Length0 && 0 <= q < n ==> m[c, q] == old(m[c, q + T])
  {
    for c := 0 to m.Length0
      invariant forall d, q :: 0 <= d < c && 0 <= q < n ==> m[d, q] == old(m[d, q + T])
      invariant forall d, q :: c <= d < m.Length0 && 0 <= q < m.Length1 ==> m[d, q] == old(m[d, q])
    {
      for i := 0 to n
        invariant forall d, q :: 0 <= d < c && 0 <= q < n ==> m[d, q] == old(m[d, q + T])
        invariant forall q :: 0 <= q < i ==> m[c, q] == old(m[c, q + T])
        invariant forall q :: i <= q < m.Length1 ==> m[c, q] == old(m[c, q])
        invariant forall d, q :: c < d < m.Length0 && 0 <= q < m.Length1 ==> m[d, q] == old(m[d, q])
      {
        m[c, i] := m[c, i + T];
      }
    }
  }

  // --- the rolling window ---

  /** The windows hold exactly the absolute positions [base, base + W), zero outside [0, L). */
  ghost predicate Window<F(!new)>(g: Problem<F>, mid: array2<F>, midh: array2<F>, base: int)
    requires g.KW > 0
    reads mid, midh
  {
    && mid.Length0 == midh.Length0 == g.C && mid.Length1 == midh.Length1
    && (forall c, q :: 0 <= c < mid.Length0 && 0 <= q < mid.Length1 ==> mid[c, q] == Mid(g, c, base + q))
    && (forall c, q :: 0 <= c < mid.Length0 && 0 <= q < mid.Length1 ==> midh[c, q] == MidH(g, c, base + q))
  }

  /** Zeros, then the first convolution wherever the window lies inside the signal. */
  method FillMid<F(!new)>(g: Problem<F>, x: array2<F>, r: array2<F>, mid: array2<F>, p0: nat, p1: nat, hB: nat)
    requires Valid(g) && Inputs(g, x, r) && mid !in {x, r} && mid.Length0 == g.C && p0 <= p1 <= g.L
      && p1 + hB - (p0 - hB) <= mid.Length1
    requires p1 == g.L || p1 + hB - (p0 - hB) == mid.Length1
    modifies mid
    ensures forall c, q :: 0 <= c < mid.Length0 && 0 <= q < mid.Length1 ==> mid[c, q] == Mid(g, c, p0 - hB + q)
  {
    hide Valid;
    hide Half;
    hide Conv;
    hide Inputs;
    assert g.KW > 0 by { ValidParts(g); }
    ZeroRange(g.A, mid, 0, mid.Length1);
    ConvA(g, x, r, mid, if p0 - hB < 0 then 0 else p0 - hB, if p1 + hB < g.L then p1 + hB else g.L, p0 - hB);
  }

  /** The first step of a thread: the whole window from nothing. */
  method Prologue<F(!new)>(g: Problem<F>, x: array2<F>, r: array2<F>, mid: array2<F>, midh: array2<F>, p0: nat, T: nat)
    requires Valid(g) && Inputs(g, x, r) && mid != midh && {mid, midh} !! {x, r} && p0 < g.L && T > 0
    requires mid.Length0 == midh.Length0 == g.C && mid.Length1 == midh.Length1 == T + 2 * Half(g.KW, g.second.dil)
    modifies mid, midh
    ensures Window(g, mid, midh, p0 - Half(g.KW, g.second.dil))
  {
    hide Valid;
    hide Half;
    hide Mid;
    hide MidH;
    hide Inputs;
    assert g.KW > 0 by { ValidParts(g); }
    var hB, W := Half(g.KW, g.second.dil), mid.Length1;
    FillMid(g, x, r, mid, p0, if p0 + T < g.L then p0 + T else g.L, hB);
    LeakyRange(g.A, mid, midh, 0, W);
    forall c, q | 0 <= c < g.C && 0 <= q < W ensures midh[c, q] == MidH(g, c, p0 - hB + q) {
      MidHIs(g, c, p0 - hB + q);
    }
  }

  /** Appending positions [base + n0, base + W) to the intermediate, zeros past the end. */
  method Append<F(!new)>(g: Problem<F>, x: array2<F>, r: array2<F>, mid: array2<F>, base: int, n0: nat)
    requires Valid(g) && Inputs(g, x, r) && mid !in {x, r} && mid.Length0 == g.C && n0 <= mid.Length1 && 0 <= base + n0
      && base < g.L
    requires forall c, q :: 0 <= c < g.C && 0 <= q < n0 ==> mid[c, q] == Mid(g, c, base + q)
    modifies mid
    ensures forall c, q :: 0 <= c < g.C && 0 <= q < mid.Length1 ==> mid[c, q] == Mid(g, c, base + q)
  {
    hide Valid;
    hide Half;
    hide Conv;
    assert g.KW > 0 by { ValidParts(g); }
    var W, L := mid.Length1, g.L;
    var a0, a1 := base + n0, if base + W < L then base + W else L;
    if a1 > a0 { ConvA(g, x, r, mid, a0, a1, base); }
    if base + W > L { ZeroRange(g.A, mid, L - base, W); }
  }

  /** The window's last n positions moved to its front. */
  method ShiftWindow<F(!new)>(g: Problem<F>, mid: array2<F>, midh: array2<F>, ghost was: int, ghost base: int, T: nat,
                              n: nat)
    requires g.KW > 0 && mid != midh && T + n == mid.Length1 && base == was + T && Window(g, mid, midh, was)
    modifies mid, midh
    ensures forall c, q :: 0 <= c < g.C && 0 <= q < n ==> mid[c, q] == Mid(g, c, base + q)
    ensures forall c, q :: 0 <= c < g.C && 0 <= q < n ==> midh[c, q] == MidH(g, c, base + q)
  {
    hide Mid;
    hide MidH;
    ShiftLeft(mid, T, n);
    ShiftLeft(midh, T, n);
  }

  /** Every later step: keep the trailing 2 hB positions, append T. */
  method Advance<F(!new)>(g: Problem<F>, x: array2<F>, r: array2<F>, mid: array2<F>, midh: array2<F>, p0: nat, T: nat)
    requires Valid(g) && Inputs(g, x, r) && mid != midh && {mid, midh} !! {x, r} && T <= p0 < g.L && T > 0
    requires mid.Length1 == T + 2 * Half(g.KW, g.second.dil)
    requires Window(g, mid, midh, p0 - T - Half(g.KW, g.second.dil))
    modifies mid, midh
    ensures Window(g, mid, midh, p0 - Half(g.KW, g.second.dil))
  {
    hide Valid;
    hide Half;
    hide Conv;
    hide MidH;
    hide Mid;
    assert g.KW > 0 by { ValidParts(g); }
    var hB, W := Half(g.KW, g.second.dil), mid.Length1;
    ghost var base := p0 - hB;
    ShiftWindow(g, mid, midh, base - T, base, T, 2 * hB);
    Append(g, x, r, mid, p0 - hB, 2 * hB);
    LeakyRange(g.A, mid, midh, 2 * hB, W);
    forall c, q | 0 <= c < g.C && 0 <= q < W ensures midh[c, q] == MidH(g, c, base + q) {
      MidHIs(g, c, base + q);
    }
  }

  lemma MidHIs<F(!new)>(g: Problem<F>, c: int, q: int)
    requires g.KW > 0
    ensures MidH(g, c, q) == g.A.leaky(Mid(g, c, q))
  {
  }

  // --- the second convolution out of the window ---

  /** Convolving the window gives the output's sum. */
  lemma WindowConv<F(!new)>(g: Problem<F>, v: Grid<F>, base: int, W: int, c: int, p: int)
    requires Valid(g)
    requires forall ic, q :: 0 <= ic < g.C && 0 <= q < W ==> v(ic, q) == MidH(g, ic, base + q)
    requires 0 <= p < g.L && 0 <= p - base - Half(g.KW, g.second.dil)
    requires p - base - Half(g.KW, g.second.dil) + Span(g.KW, g.second.dil) < W
    ensures g.A.add(Conv(g.A, g.second, v, W, g.KW, c, p - base - Half(g.KW, g.second.dil), g.C), Mid(g, c, p)) ==
      Out(g, c, p)
  {
    hide Conv;
    hide Half;
    hide Mid;
    ValidParts(g);
    forall ic, q | 0 <= ic < g.C && 0 <= q < W
      ensures v(ic, q) == if 0 <= base + q < g.L then MidH(g, ic, base + q) else g.A.zero
    {
      MidOutside(g, ic, base + q);
    }
    ConvInWindow(g.A, g.second, (ic, q) => MidH(g, ic, q), v, g.L, W, base, g.KW, c,
                 p - base - Half(g.KW, g.second.dil), g.C);
  }

  lemma MidOutside<F(!new)>(g: Problem<F>, c: int, q: int)
    requires g.KW > 0
    ensures !(0 <= q < g.L) ==> Mid(g, c, q) == g.A.zero
  {
  }

  /** One output position, every channel, the scalar way. */
  method OutColumn<F(!new)>(g: Problem<F>, mid: array2<F>, midh: array2<F>, base: int, out: array2<F>, p: nat)
    requires Valid(g) && Window(g, mid, midh, base) && out !in {mid, midh} && out.Length0 == g.C && out.Length1 == g.L
    requires base + Half(g.KW, g.second.dil) <= p < g.L
    requires p - base - Half(g.KW, g.second.dil) + Span(g.KW, g.second.dil) < mid.Length1
    modifies out
    ensures forall c, q :: 0 <= c < out.Length0 && 0 <= q < out.Length1 ==>
      out[c, q] == if q == p then Out(g, c, p) else old(out[c, q])
  {
    hide Conv;
    hide Half;
    hide Valid;
    hide Out;
    hide Mid;
    hide MidH;
    ValidParts(g);
    var hB, W := Half(g.KW, g.second.dil), mid.Length1;
    ghost var v: Grid<F> := (ic, q) => MidH(g, ic, base + q);
    for oc := 0 to g.C
      invariant forall c, q :: 0 <= c < out.Length0 && 0 <= q < out.Length1 ==>
        out[c, q] == if q == p && c < oc then Out(g, c, p) else old(out[c, q])
    {
      var a := DensePoint(g.A, g.second, midh, v, g.KW, oc, p - base - hB);
      WindowConv(g, v, base, W, oc, p);
      HalfOfSpan(g.KW, g.second.dil);
      out[oc, p] := g.A.add(a, mid[oc, p - base]);
    }
  }

  /** The second convolution over output positions [p0, p1): whole tiles, then single positions. */
  method ConvB<F(!new)>(g: Problem<F>, mid: array2<F>, midh: array2<F>, base: int, out: array2<F>, p0: nat, p1: nat)
    requires Valid(g) && Window(g, mid, midh, base) && out !in {mid, midh} && out.Length0 == g.C && out.Length1 == g.L
    requires base + Half(g.KW, g.second.dil) == p0 && p0 <= p1 <= g.L
    requires p1 - p0 + Span(g.KW, g.second.dil) <= mid.Length1
    modifies out
    ensures forall c, q :: 0 <= c < out.Length0 && 0 <= q < out.Length1 ==>
      out[c, q] == if p0 <= q < p1 then Out(g, c, q) else old(out[c, q])
  {
    hide Conv;
    hide Half;
    hide Valid;
    hide Out;
    hide Mid;
    hide MidH;
    ValidParts(g);
    var hB, W := Half(g.KW, g.second.dil), mid.Length1;
    ghost var v: Grid<F> := (ic, q) => MidH(g, ic, base + q);
    HalfOfSpan(g.KW, g.second.dil);
    var p := p0;
    while p + 16 <= p1
      invariant p0 <= p <= p1
      invariant forall c, q :: 0 <= c < out.Length0 && 0 <= q < out.Length1 ==>
        out[c, q] == if p0 <= q < p then Out(g, c, q) else old(out[c, q])
    {
      TileColumn(g.A, g.second, midh, v, g.C, g.KW, p - base - hB, mid, p - base, out, p);
      forall c, q | 0 <= c < g.C && p <= q < p + 16 ensures out[c, q] == Out(g, c, q) {
        WindowConv(g, v, base, W, c, q);
        assert p - base - hB + (q - p) == q - base - hB && p - base + (q - p) == q - base;
      }
      p := p + 16;
    }
    while p < p1
      invariant p0 <= p <= p1
      invariant forall c, q :: 0 <= c < out.Length0 && 0 <= q < out.Length1 ==>
        out[c, q] == if p0 <= q < p then Out(g, c, q) else old(out[c, q])
    {
      OutColumn(g, mid, midh, base, out, p);
      p := p + 1;
    }
  }

  // --- the threads ---

  /** Tiles per thread. */
  function PerThread(ntile: int, nth: nat): int requires nth > 0 { (ntile + nth - 1) / nth }

  /** Output positions of tiles [a, b). */
  predicate InTiles(q: int, a: int, b: int, T: nat) { a * T <= q < b * T }

  /** Thread t: its contiguous run of tiles, the window carried from one to the next. */
  method ChainThread<F(0, !new)>(g: Problem<F>, x: array2<F>, r: array2<F>, out: array2<F>, T: nat, nth: nat, t: nat)
    requires Valid(g) && Inputs(g, x, r) && out !in {x, r} && out.Length0 == g.C && out.Length1 == g.L && T > 0
      && t < nth
    requires SpanFits(g.L, T, g.KW, g.second.dil)
    modifies out
    ensures
      var per := PerThread(Tiles(g.L, T), nth);
      forall c, q :: 0 <= c < out.Length0 && 0 <= q < out.Length1 ==>
        out[c, q] == if InTiles(q, t * per, (t + 1) * per, T) then Out(g, c, q) else old(out[c, q])
  {
    hide Conv;
    hide Half;
    hide Valid;
    hide Out;
    hide Mid;
    hide MidH;
    hide Inputs;
    hide Tiles;
    hide PerThread;
    ValidParts(g);
    var hB := Half(g.KW, g.second.dil);
    var ntile := Tiles(g.L, T);
    var per := PerThread(ntile, nth);
    var mid, midh := new F[g.C, T + 2 * hB], new F[g.C, T + 2 * hB];
    TileCounts(g.L, T, nth, t);
    var k := t * per;
    while k < (t + 1) * per && k < ntile
      invariant t * per <= k && (k <= (t + 1) * per) && (k == t * per || k <= ntile)
      invariant Inputs(g, x, r) && fresh(mid) && fresh(midh)
      invariant k > t * per ==> 0 <= (k - 1) * T && Window(g, mid, midh, (k - 1) * T - hB)
      invariant forall c, q :: 0 <= c < out.Length0 && 0 <= q < out.Length1 ==>
        out[c, q] == if InTiles(q, t * per, k, T) then Out(g, c, q) else old(out[c, q])
      decreases ntile - k
    {
      TileStart(g.L, T, k);
      TileFits(g.L, T, g.KW, g.second.dil, k);
      var p0 := k * T;
      var p1 := if p0 + T < g.L then p0 + T else g.L;
      if k == t * per {
        Prologue(g, x, r, mid, midh, p0, T);
      } else {
        Index.MulSub(k, 1, T);
        Advance(g, x, r, mid, midh, p0, T);
      }
      ConvB(g, mid, midh, p0 - hB, out, p0, p1);
      TileStep(t * per, k, T, g.L);
      k := k + 1;
    }
    AllTiles(t * per, k, (t + 1) * per, ntile, T, g.L);
  }

  lemma TileCounts(L: nat, T: nat, nth: nat, t: nat)
    requires T > 0 && t < nth
    ensures
      var per := PerThread(Tiles(L, T), nth);
      0 <= Tiles(L, T) && 0 <= per && 0 <= t * per <= (t + 1) * per && L <= Tiles(L, T) * T
  {
    Index.CeilDiv(L, T);
    Index.CeilDiv(Tiles(L, T), nth);
    var per := PerThread(Tiles(L, T), nth);
    Index.MulNonneg(t, per);
    Index.MulAdd(t, 1, per);
  }

  lemma TileStart(L: nat, T: nat, k: int)
    requires T > 0 && 0 <= k < Tiles(L, T)
    ensures 0 <= k * T < L
  {
    Index.CeilDiv(L, T);
    Index.MulNonneg(k, T);
    Index.MulMono(k, Tiles(L, T) - 1, T);
  }

  lemma TileStep(a: int, k: int, T: nat, L: nat)
    requires 0 <= a <= k && 0 <= k * T < L
    ensures forall q :: InTiles(q, a, k + 1, T) <==> InTiles(q, a, k, T) || k * T <= q < k * T + T
    ensures 0 <= (k + 1 - 1) * T
  {
    Index.MulAdd(k, 1, T);
    Index.MulMono(a, k, T);
    assert (k + 1) * T == k * T + T && a * T <= k * T && k + 1 - 1 == k;
    forall q ensures InTiles(q, a, k + 1, T) <==> InTiles(q, a, k, T) || k * T <= q < k * T + T {}
  }

  lemma AllTiles(a: int, k: int, b: int, n: int, T: nat, L: nat)
    requires 0 <= a <= k <= b && (k == b || k >= n) && L <= n * T
    ensures forall q :: q < L ==> (InTiles(q, a, k, T) <==> InTiles(q, a, b, T))
  {
    Index.MulMono(k, b, T);
    if k >= n { Index.MulMono(n, k, T); }
    assert k * T <= b * T && (k == b || L <= k * T);
    forall q | q < L ensures InTiles(q, a, k, T) <==> InTiles(q, a, b, T) {
      assert k != b ==> q < k * T;
    }
  }

  /** Every position belongs to exactly one thread's tiles. */
  lemma ThreadOf(L: nat, T: nat, nth: nat, q: nat) returns (t: nat)
    requires T > 0 && nth > 0 && q < L
    ensures
      var per := PerThread(Tiles(L, T), nth);
      && t < nth && InTiles(q, t * per, (t + 1) * per, T)
      && forall u: nat :: u < nth && InTiles(q, u * per, (u + 1) * per, T) ==> u == t
  {
    hide InTiles;
    var n := Tiles(L, T);
    var per := PerThread(n, nth);
    TileCounts(L, T, nth, 0);
    Index.CeilDiv(n, nth);
    Index.DivMod(q, T);
    var k := q / T;
    if k >= n { Index.MulMono(n, k, T); }
    t := Index.RunOwner(k, per, nth, n);
    TileInRun(q, k, T, t * per, (t + 1) * per);
    forall u: nat | u < nth && InTiles(q, u * per, (u + 1) * per, T) ensures u == t {
      TileInRun(q, k, T, u * per, (u + 1) * per);
    }
  }

  lemma TileInRun(q: nat, k: int, T: nat, a: int, b: int)
    requires T > 0 && k == q / T
    ensures InTiles(q, a, b, T) <==> a <= k < b
  {
    Index.DivMod(q, T);
    Index.MulAdd(k, 1, T);
    if k < a { Index.MulMono(k + 1, a, T); } else { Index.MulMono(a, k, T); }
    if k >= b { Index.MulMono(b, k, T); } else { Index.MulMono(k + 1, b, T); }
  }

  /** The fused chain, threads in any order: every output is the two-pass definition. */
  method ChainAllThreads<F(0, !new)>(g: Problem<F>, x: array2<F>, r: array2<F>, out: array2<F>, T: nat, nth: nat,
                                     order: seq<nat>)
    requires Valid(g) && Inputs(g, x, r) && out !in {x, r} && out.Length0 == g.C && out.Length1 == g.L && T > 0
      && nth > 0
    requires SpanFits(g.L, T, g.KW, g.second.dil)
    requires (forall i :: 0 <= i < |order| ==> order[i] < nth) && (forall t: nat :: t < nth ==> t in order)
    modifies out
    ensures forall c, q :: 0 <= c < g.C && 0 <= q < g.L ==> out[c, q] == Out(g, c, q)
  {
    hide Conv;
    hide Valid;
    hide Out;
    hide Inputs;
    hide InTiles;
    assert g.KW > 0 by { ValidParts(g); }
    ghost var per := PerThread(Tiles(g.L, T), nth);
    for i := 0 to |order|
      invariant Inputs(g, x, r)
      invariant forall c, q, u | 0 <= c < out.Length0 && 0 <= q < out.Length1 && 0 <= u < i
                  :: InTiles(q, order[u] * per, (order[u] + 1) * per, T) ==> out[c, q] == Out(g, c, q)
    {
      ChainThread(g, x, r, out, T, nth, order[i]);
    }
    forall c, q | 0 <= c < g.C && 0 <= q < g.L ensures out[c, q] == Out(g, c, q) {
      var t := ThreadOf(g.L, T, nth, q);
      assert t in order;
      var u :| 0 <= u < |order| && order[u] == t;
    }
  }

  // --- an odd span over full tiles ---

  /**
   A window row after row, as the code indexes it: position q of channel ic at ic * W + q, nothing said about what lies
   beyond.
   */
  function FlatTaps<F(!new)>(A: Arith<F>, l: Layer<F>, mem: int -> F, W: int, oc: int, ic: int, off: int, acc: F,
                             kx: nat): F
  {
    if kx == 0 then acc
    else A.mac(FlatTaps(A, l, mem, W, oc, ic, off, acc, kx - 1), l.w(ic, kx - 1, oc),
               mem(ic * W + off + (kx - 1) * l.dil))
  }

  function FlatConv<F(!new)>(A: Arith<F>, l: Layer<F>, mem: int -> F, W: int, KW: nat, oc: int, off: int, ic: nat): F
  {
    if ic == 0 then l.b(oc)
    else FlatTaps(A, l, mem, W, oc, ic - 1, off, FlatConv(A, l, mem, W, KW, oc, off, ic - 1), KW)
  }

  lemma {:induction false} FlatIsTaps<F(!new)>(A: Arith<F>, l: Layer<F>, mem: int -> F, In: Grid<F>, W: int, oc: int,
                                               ic: int, off: int, acc: F, kx: nat)
    requires 0 <= off && (kx > 0 ==> off + (kx - 1) * l.dil < W)
    requires forall q :: 0 <= q < W ==> mem(ic * W + q) == In(ic, q)
    ensures FlatTaps(A, l, mem, W, oc, ic, off, acc, kx) == Taps(A, l, In, W, oc, ic, off, acc, kx)
  {
    if kx > 0 {
      Index.MulNonneg(kx - 1, l.dil);
      if kx > 1 { Index.MulMono(kx - 2, kx - 1, l.dil); }
      FlatIsTaps(A, l, mem, In, W, oc, ic, off, acc, kx - 1);
      var q := off + (kx - 1) * l.dil;
      assert mem(ic * W + q) == In(ic, q);
    }
  }

  /** Where every read stays in its row, the rows one after another are the window by channel and position. */
  lemma {:induction false} FlatIsConv<F(!new)>(A: Arith<F>, l: Layer<F>, mem: int -> F, In: Grid<F>, W: int, KW: nat,
                                               oc: int, off: int, ic: nat)
    requires 0 <= off && (KW > 0 ==> off + (KW - 1) * l.dil < W)
    requires forall c, q :: 0 <= c < ic && 0 <= q < W ==> mem(c * W + q) == In(c, q)
    ensures FlatConv(A, l, mem, W, KW, oc, off, ic) == Conv(A, l, In, W, KW, oc, off, ic)
  {
    if ic > 0 {
      FlatIsConv(A, l, mem, In, W, KW, oc, off, ic - 1);
      FlatIsTaps(A, l, mem, In, W, oc, ic - 1, off, Conv(A, l, In, W, KW, oc, off, ic - 1), KW);
    }
  }

  /** With an odd span and a full tile, the last tap of the tile's last output is the next channel's first position. */
  lemma OddSpanCrosses(T: nat, KW: nat, dil: nat, ic: nat)
    requires KW > 0 && T > 0 && Span(KW, dil) % 2 == 1
    ensures var W := T + 2 * Half(KW, dil); ic * W + (T - 1) + (KW - 1) * dil == (ic + 1) * W
  {
    var W := T + 2 * Half(KW, dil);
    Index.MulAdd(ic, 1, W);
  }

  const SUMS: Arith<int> := Arith(0, (a: int, w: int, x: int) => a + w * x, (a: int, b: int) => a + b, (v: int) => v)

  /**
   Four channels of length one; the second convolution's only weight is channel 0's second tap; the residual is 1 in
   channel 1.
   */
  const CROSSING: Problem<int> :=
    Problem(SUMS, 4, 1, 2, Layer((ic, kx, oc) => 0, oc => 0, 1),
            Layer((ic, kx, oc) => if ic == 0 && kx == 1 && oc == 0 then 1 else 0, oc => 0, 1),
            (c, q) => 0, (c, q) => if c == 1 then 1 else 0)

  lemma {:induction false} CrossingFirst(c: int, start: int, n: nat)
    ensures Conv(SUMS, CROSSING.first, CROSSING.x, 1, 2, c, start, n) == 0
  {
    if n > 0 {
      CrossingFirst(c, start, n - 1);
      var a := Conv(SUMS, CROSSING.first, CROSSING.x, 1, 2, c, start, n - 1);
      assert Taps(SUMS, CROSSING.first, CROSSING.x, 1, c, n - 1, start, a, 0) == 0;
      assert Taps(SUMS, CROSSING.first, CROSSING.x, 1, c, n - 1, start, a, 1) == 0;
    }
  }

  lemma CrossingMid(c: int, q: int)
    ensures Mid(CROSSING, c, q) == if q == 0 && c == 1 then 1 else 0
  {
    CrossingFirst(c, q - Half(2, 1), 4);
  }

  lemma {:induction false} CrossingDefined(x: Grid<int>, n: nat)
    ensures Conv(SUMS, CROSSING.second, x, 1, 2, 0, 0, n) == 0
  {
    if n > 0 {
      CrossingDefined(x, n - 1);
      var a := Conv(SUMS, CROSSING.second, x, 1, 2, 0, 0, n - 1);
      assert Taps(SUMS, CROSSING.second, x, 1, 0, n - 1, 0, a, 0) == 0;
      assert Taps(SUMS, CROSSING.second, x, 1, 0, n - 1, 0, a, 1) == 0;
    }
  }

  lemma {:induction false} CrossingRead(mem: int -> int, n: nat)
    requires mem(1) == 1
    ensures FlatConv(SUMS, CROSSING.second, mem, 1, 2, 0, 0, n) == if n == 0 then 0 else 1
  {
    if n > 0 {
      CrossingRead(mem, n - 1);
      var a := FlatConv(SUMS, CROSSING.second, mem, 1, 2, 0, 0, n - 1);
      assert FlatTaps(SUMS, CROSSING.second, mem, 1, 0, n - 1, 0, a, 0) == a;
      assert FlatTaps(SUMS, CROSSING.second, mem, 1, 0, n - 1, 0, a, 1) == a;
    }
  }

  lemma CrossingValid()
    ensures Valid(CROSSING) && Half(2, 1) == 0 && !SpanFits(1, 1, 2, 1)
  {
  }

  lemma CrossingOut()
    ensures Out(CROSSING, 0, 0) == 0 && Mid(CROSSING, 0, 0) == 0 && MidH(CROSSING, 1, 0) == 1
  {
    CrossingMid(0, 0);
    CrossingMid(1, 0);
    hide Mid;
    hide Taps;
    CrossingValid();
    forall x: Grid<int> ensures Conv(SUMS, CROSSING.second, x, 1, 2, 0, 0, 4) == 0 { CrossingDefined(x, 4); }
    hide Conv;
  }

  /**
   KW = 2, dB = 1, L = T = 1, outside SpanFits: the window is one position a row, and whatever lies beyond it the
   code's first output is 1 where the definition has 0, for it reads channel 1 in place of channel 0.
   */
  lemma OddSpanIsWrong(mem: int -> int)
    requires forall c :: 0 <= c < 4 ==> mem(c) == MidH(CROSSING, c, 0)
    ensures Valid(CROSSING) && 1 + 2 * Half(2, 1) == 1 && !SpanFits(1, 1, 2, 1)
    ensures Out(CROSSING, 0, 0) == 0
    ensures SUMS.add(FlatConv(SUMS, CROSSING.second, mem, 1, 2, 0, 0, 4), Mid(CROSSING, 0, 0)) == 1
  {
    hide Valid;
    hide Half;
    hide Out;
    hide Mid;
    hide MidH;
    hide FlatConv;
    CrossingValid();
    CrossingOut();
    CrossingRead(mem, 4);
  }
}
