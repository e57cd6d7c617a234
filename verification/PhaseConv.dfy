/**
 scripts/bench10.cpp, the phase-major form of a dilated convolution: the input de-interleaved into one stream per
 phase, a dense convolution over each stream, the output interleaved back.
 */
module PhaseConv {
  import Index

  // --- positions, phases and rows ---

  /** Position j of phase r, at factor f. */
  function At(j: int, f: nat, r: int): int { j * f + r }

  function Quot(q: nat, d: nat): (r: nat)
    requires d > 0
  {
    Index.DivMod(q, d);
    q / d
  }

  function Rem(q: nat, d: nat): (r: nat)
    requires d > 0
    ensures r < d
  {
    Index.DivMod(q, d);
    q % d
  }

  /** Phase and index recover the position. */
  lemma AtOf(q: nat, f: nat)
    requires f > 0
    ensures At(Quot(q, f), f, Rem(q, f)) == q
  {
    Index.DivMod(q, f);
  }

  lemma OfAt(j: nat, f: nat, r: nat)
    requires r < f
    ensures At(j, f, r) >= 0 && Quot(At(j, f, r), f) == j && Rem(At(j, f, r), f) == r
  {
    Index.MulNonneg(j, f);
    Index.ModUnique(j * f + r, j, r, f);
  }

  /** How many columns n elements take at factor f. */
  function Columns(n: nat, f: nat): (c: nat)
    requires f > 0
  {
    Index.CeilDiv(n, f);
    (n + f - 1) / f
  }

  lemma ColumnFits(j: nat, f: nat, n: nat)
    requires f > 0
    ensures j < Columns(n, f) <==> At(j, f, 0) < n
  {
    Index.CeilDiv(n, f);
    var c := Columns(n, f);
    if j < c { Index.MulMono(j, c - 1, f); if n == 0 { Index.MulMono(1, c, f); Index.ModUnique(f - 1, 0, f - 1, f); } }
    if j >= c { Index.MulMono(c, j, f); }
  }

  /**
   Splitting by a and then by b puts element q in phase q mod ab at index q div ab: the second split's phase counts in
   steps of a.
   */
  lemma TwoPassIndex(q: nat, a: nat, b: nat)
    requires a > 0 && b > 0
    ensures a * b > 0 && Rem(q, a) + Rem(Quot(q, a), b) * a == Rem(q, a * b) && Quot(Quot(q, a), b) == Quot(q, a * b)
  {
    Index.MulMono(1, a, b);
    Index.DivMod(q, a);
    var h := q / a;
    Index.DivMod(h, b);
    Index.MulAdd((h / b) * b, h % b, a);
    Index.MulAssoc(h / b, b, a);
    var r := q % a + (h % b) * a;
    Index.MulNonneg(h % b, a);
    Index.MulMono(h % b, b - 1, a);
    Index.MulSub(b, 1, a);
    assert a * b == b * a;
    Index.ModUnique(q, h / b, r, a * b);
  }

  // --- de-interleave and interleave ---

  /** Cell (R, c) takes an element: its row is row0 plus a multiple r of step, r below f, and the element exists. */
  predicate Hit(R: nat, c: int, row0: nat, step: nat, col0: nat, n: nat, f: nat)
    requires step > 0
  {
    Rem(R, step) == row0 && Quot(R, step) < f && c >= col0 && 0 <= At(c - col0, f, Quot(R, step)) < n
  }

  lemma RowSplit(R: nat, row0: nat, r: nat, step: nat)
    requires row0 < step
    ensures Rem(R, step) == row0 && Quot(R, step) == r <==> R == row0 + r * step
  {
    Index.DivMod(R, step);
    if R == row0 + r * step { Index.ModUnique(R, r, row0, step); }
  }

  lemma RowBelow(row0: nat, r: nat, f: nat, step: nat)
    requires r < f
    ensures 0 <= row0 + r * step <= row0 + (f - 1) * step
  {
    Index.MulNonneg(r, step);
    Index.MulMono(r, f - 1, step);
  }

  /** Where a de-interleave puts what. */
  datatype Split = Split(row0: nat, step: nat, col0: nat, n: nat, f: nat)
  {
    ghost predicate Fits(rows: nat, cols: nat)
    {
      f > 0 && row0 < step && row0 + (f - 1) * step < rows && col0 + Columns(n, f) <= cols
    }

    predicate Hits(R: nat, c: int) requires step > 0 { Hit(R, c, row0, step, col0, n, f) }

    /** The element cell (R, c) takes. */
    function Elem(R: nat, c: int): int requires step > 0 { At(c - col0, f, Quot(R, step)) }
  }

  /** vld<f>: four columns of every phase. */
  method FourColumns<F>(src: array2<F>, srow: nat, dst: array2<F>, s: Split, j: nat)
    requires s.Fits(dst.Length0, dst.Length1) && src != dst && srow < src.Length0 && s.n <= src.Length1
    requires At(j + 4, s.f, 0) <= s.n
    modifies dst
    ensures forall R, c :: 0 <= R < dst.Length0 && 0 <= c < dst.Length1 ==>
      dst[R, c] == if s.Hits(R, c) && s.col0 + j <= c < s.col0 + j + 4 then src[srow, s.Elem(R, c)] else old(dst[R, c])
  {
    hide Quot;
    hide Rem;
    hide At;
    for r := 0 to s.f
      invariant forall R, c :: 0 <= R < dst.Length0 && 0 <= c < dst.Length1 ==>
        dst[R, c] == if s.Hits(R, c) && Quot(R, s.step) < r && s.col0 + j <= c < s.col0 + j + 4
                     then src[srow, s.Elem(R, c)] else old(dst[R, c])
    {
      RowBelow(s.row0, r, s.f, s.step);
      forall R: nat
        ensures Rem(R, s.step) == s.row0 && Quot(R, s.step) == r <==> R == s.row0 + r * s.step
      {
        RowSplit(R, s.row0, r, s.step);
      }
      for l := 0 to 4
        invariant forall R, c :: 0 <= R < dst.Length0 && 0 <= c < dst.Length1 ==>
          dst[R, c] == if s.Hits(R, c) && (Quot(R, s.step) < r || (Quot(R, s.step) == r && c < s.col0 + j + l))
                          && s.col0 + j <= c < s.col0 + j + 4
                       then src[srow, s.Elem(R, c)] else old(dst[R, c])
      {
        LaneFits(j, l, s.f, r, s.n);
        dst[s.row0 + r * s.step, s.col0 + j + l] := src[srow, At(j + l, s.f, r)];
      }
    }
  }

  /** Column j + l, l below 4, of any phase holds an element when column j + 4 does not start beyond n. */
  lemma LaneFits(j: nat, l: nat, f: nat, r: nat, n: nat)
    requires l < 4 && r < f && At(j + 4, f, 0) <= n
    ensures 0 <= At(j + l, f, r) < n && j + l < Columns(n, f)
  {
    Index.MulNonneg(j + l, f);
    Index.MulMono(j + l + 1, j + 4, f);
    Index.MulAdd(j + l, 1, f);
    ColumnFits(j + l, f, n);
  }

  /** `deint`: src[j f + r] to column j of phase r; everything else stays. */
  method Deint<F>(src: array2<F>, srow: nat, dst: array2<F>, s: Split)
    requires s.Fits(dst.Length0, dst.Length1) && src != dst && srow < src.Length0 && s.n <= src.Length1
    modifies dst
    ensures forall R, c :: 0 <= R < dst.Length0 && 0 <= c < dst.Length1 ==>
      dst[R, c] == if s.Hits(R, c) then src[srow, s.Elem(R, c)] else old(dst[R, c])
  {
    hide Quot;
    hide Rem;
    hide At;
    var j := 0;
    if s.f == 2 || s.f == 3 || s.f == 4 {
      while j + 4 <= s.n / s.f
        invariant j >= 0
        invariant forall R, c :: 0 <= R < dst.Length0 && 0 <= c < dst.Length1 ==>
          dst[R, c] == if s.Hits(R, c) && c < s.col0 + j then src[srow, s.Elem(R, c)] else old(dst[R, c])
        decreases s.n / s.f - j
      {
        QuotBound(j + 4, s.f, s.n);
        FourColumns(src, srow, dst, s, j);
        j := j + 4;
      }
    }
    while At(j, s.f, 0) < s.n
      invariant j >= 0
      invariant forall R, c :: 0 <= R < dst.Length0 && 0 <= c < dst.Length1 ==>
        dst[R, c] == if s.Hits(R, c) && c < s.col0 + j then src[srow, s.Elem(R, c)] else old(dst[R, c])
      decreases s.n - j
    {
      AtLeast(j, s.f);
      Column(src, srow, dst, s, j);
      j := j + 1;
    }
    forall R: nat, c | s.Hits(R, c) ensures c < s.col0 + j { BeyondLast(s, R, c, j); }
  }

  lemma QuotBound(k: nat, f: nat, n: nat)
    requires f > 0 && k <= n / f
    ensures At(k, f, 0) <= n
  {
    Index.DivMod(n, f);
    Index.MulMono(k, n / f, f);
  }

  lemma AtLeast(j: nat, f: nat)
    requires f > 0
    ensures At(j, f, 0) >= j
  {
    Index.MulMono(1, f, j);
  }

  lemma BeyondLast(s: Split, R: nat, c: int, j: nat)
    requires s.step > 0 && s.Hits(R, c) && At(j, s.f, 0) >= s.n
    ensures c < s.col0 + j
  {
    if c >= s.col0 + j {
      Index.MulMono(j, c - s.col0, s.f);
    }
  }

  /** One column of every phase that still has an element. */
  method Column<F>(src: array2<F>, srow: nat, dst: array2<F>, s: Split, j: nat)
    requires s.Fits(dst.Length0, dst.Length1) && src != dst && srow < src.Length0 && s.n <= src.Length1
      && At(j, s.f, 0) < s.n
    modifies dst
    ensures forall R, c :: 0 <= R < dst.Length0 && 0 <= c < dst.Length1 ==>
      dst[R, c] == if s.Hits(R, c) && c == s.col0 + j then src[srow, s.Elem(R, c)] else old(dst[R, c])
  {
    hide Quot;
    hide Rem;
    hide At;
    ColumnFits(j, s.f, s.n);
    for r := 0 to s.f
      invariant forall R, c :: 0 <= R < dst.Length0 && 0 <= c < dst.Length1 ==>
        dst[R, c] == if s.Hits(R, c) && Quot(R, s.step) < r && c == s.col0 + j
                     then src[srow, s.Elem(R, c)] else old(dst[R, c])
    {
      RowBelow(s.row0, r, s.f, s.step);
      forall R: nat
        ensures Rem(R, s.step) == s.row0 && Quot(R, s.step) == r <==> R == s.row0 + r * s.step
      {
        RowSplit(R, s.row0, r, s.step);
      }
      AtNonneg(j, s.f, r);
      if At(j, s.f, r) < s.n {
        dst[s.row0 + r * s.step, s.col0 + j] := src[srow, At(j, s.f, r)];
      }
    }
  }

  lemma AtNonneg(j: nat, f: nat, r: nat)
    ensures At(j, f, r) >= 0
  {
    Index.MulNonneg(j, f);
  }

  /** Element q as an interleave reads it: from its phase's row, at its index in the phase. */
  function Gathered<F>(src: array2<F>, s: Split, q: nat): F
    requires s.Fits(src.Length0, src.Length1) && s.col0 == 0 && q < s.n
    reads src
  {
    GatherFits(s, q);
    src[s.row0 + Rem(q, s.f) * s.step, Quot(q, s.f)]
  }

  lemma GatherFits(s: Split, q: nat)
    requires s.f > 0 && s.step > 0 && q < s.n
    ensures 0 <= s.row0 + Rem(q, s.f) * s.step <= s.row0 + (s.f - 1) * s.step && Quot(q, s.f) < Columns(s.n, s.f)
  {
    RowBelow(s.row0, Rem(q, s.f), s.f, s.step);
    AtOf(q, s.f);
    ColumnFits(Quot(q, s.f), s.f, s.n);
  }

  /** vst<f>: four columns of every phase, in place. */
  method FourOut<F>(src: array2<F>, dst: array2<F>, drow: nat, s: Split, j: nat)
    requires s.Fits(src.Length0, src.Length1) && s.col0 == 0 && src != dst && drow < dst.Length0 && s.n <= dst.Length1
    requires At(j + 4, s.f, 0) <= s.n
    modifies dst
    ensures forall R, q :: 0 <= R < dst.Length0 && 0 <= q < dst.Length1 ==>
      dst[R, q] == if R == drow && q < s.n && j <= Quot(q, s.f) < j + 4 then Gathered(src, s, q) else old(dst[R, q])
  {
    hide Quot;
    hide Rem;
    hide At;
    hide Gathered;
    for l := 0 to 4
      invariant forall R, q :: 0 <= R < dst.Length0 && 0 <= q < dst.Length1 ==>
        dst[R, q] == if R == drow && q < s.n && j <= Quot(q, s.f) < j + l then Gathered(src, s, q) else old(dst[R, q])
    {
      LaneFits(j, l, s.f, 0, s.n);
      ColumnOut(src, dst, drow, s, j + l);
    }
  }

  /** One column of every phase that still has an element, stored at its positions. */
  method ColumnOut<F>(src: array2<F>, dst: array2<F>, drow: nat, s: Split, j: nat)
    requires s.Fits(src.Length0, src.Length1) && s.col0 == 0 && src != dst && drow < dst.Length0 && s.n <= dst.Length1
    requires j < Columns(s.n, s.f)
    modifies dst
    ensures forall R, q :: 0 <= R < dst.Length0 && 0 <= q < dst.Length1 ==>
      dst[R, q] == if R == drow && q < s.n && Quot(q, s.f) == j then Gathered(src, s, q) else old(dst[R, q])
  {
    hide Quot;
    hide Rem;
    hide At;
    for r := 0 to s.f
      invariant forall R, q :: 0 <= R < dst.Length0 && 0 <= q < dst.Length1 ==>
        dst[R, q] == if R == drow && q < s.n && Quot(q, s.f) == j && Rem(q, s.f) < r
                     then Gathered(src, s, q) else old(dst[R, q])
    {
      RowBelow(s.row0, r, s.f, s.step);
      OfAt(j, s.f, r);
      forall q: nat ensures Quot(q, s.f) == j && Rem(q, s.f) == r <==> q == At(j, s.f, r) { AtOf(q, s.f); }
      if At(j, s.f, r) < s.n {
        dst[drow, At(j, s.f, r)] := src[s.row0 + r * s.step, j];
      }
    }
  }

  /** `inter`: the inverse gather; the first n positions of the row, and nothing else. */
  method Inter<F>(src: array2<F>, dst: array2<F>, drow: nat, s: Split)
    requires s.Fits(src.Length0, src.Length1) && s.col0 == 0 && src != dst && drow < dst.Length0 && s.n <= dst.Length1
    modifies dst
    ensures forall R, q :: 0 <= R < dst.Length0 && 0 <= q < dst.Length1 ==>
      dst[R, q] == if R == drow && q < s.n then Gathered(src, s, q) else old(dst[R, q])
  {
    hide Quot;
    hide Rem;
    hide At;
    hide Gathered;
    var j := 0;
    if s.f == 2 || s.f == 3 || s.f == 4 {
      while j + 4 <= s.n / s.f
        invariant j >= 0
        invariant forall R, q :: 0 <= R < dst.Length0 && 0 <= q < dst.Length1 ==>
          dst[R, q] == if R == drow && q < s.n && Quot(q, s.f) < j then Gathered(src, s, q) else old(dst[R, q])
        decreases s.n / s.f - j
      {
        QuotBound(j + 4, s.f, s.n);
        FourOut(src, dst, drow, s, j);
        j := j + 4;
      }
    }
    while At(j, s.f, 0) < s.n
      invariant j >= 0
      invariant forall R, q :: 0 <= R < dst.Length0 && 0 <= q < dst.Length1 ==>
        dst[R, q] == if R == drow && q < s.n && Quot(q, s.f) < j then Gathered(src, s, q) else old(dst[R, q])
      decreases s.n - j
    {
      AtLeast(j, s.f);
      ColumnFits(j, s.f, s.n);
      ColumnOut(src, dst, drow, s, j);
      j := j + 1;
    }
    forall q: nat | q < s.n ensures Quot(q, s.f) < j { GatherFits(s, q); ColumnFits(j, s.f, s.n); }
  }

  /** Interleaving undoes de-interleaving. */
  method SplitAndBack<F>(src: array2<F>, srow: nat, mid: array2<F>, dst: array2<F>, drow: nat, s: Split)
    requires s.Fits(mid.Length0, mid.Length1) && s.col0 == 0 && src != mid && mid != dst && srow < src.Length0
      && drow < dst.Length0
    requires s.n <= src.Length1 && s.n <= dst.Length1 && dst != src
    modifies mid, dst
    ensures forall q :: 0 <= q < s.n ==> dst[drow, q] == src[srow, q]
  {
    hide Quot;
    hide Rem;
    hide At;
    Deint(src, srow, mid, s);
    Inter(mid, dst, drow, s);
    forall q: nat | q < s.n ensures dst[drow, q] == src[srow, q] {
      GatherFits(s, q);
      AtOf(q, s.f);
      RowSplit(s.row0 + Rem(q, s.f) * s.step, s.row0, Rem(q, s.f), s.step);
    }
  }

  /** De-interleaving what was interleaved gives every element of every phase back. */
  method GatherAndSplit<F>(src: array2<F>, mid: array2<F>, mrow: nat, dst: array2<F>, s: Split)
    requires s.Fits(src.Length0, src.Length1) && s.Fits(dst.Length0, dst.Length1) && s.col0 == 0
    requires src != mid && mid != dst && dst != src && mrow < mid.Length0 && s.n <= mid.Length1
    modifies mid, dst
    ensures forall R, c ::
      0 <= R < dst.Length0 && 0 <= c < dst.Length1 && R < src.Length0 && c < src.Length1 && s.Hits(R, c) ==>
        dst[R, c] == src[R, c]
  {
    hide Quot;
    hide Rem;
    hide At;
    Inter(src, mid, mrow, s);
    Deint(mid, mrow, dst, s);
    forall R, c | 0 <= R < dst.Length0 && 0 <= c < dst.Length1 && R < src.Length0 && c < src.Length1 && s.Hits(R, c)
      ensures dst[R, c] == src[R, c]
    {
      OfAt(c, s.f, Quot(R, s.step));
      RowSplit(R, s.row0, Quot(R, s.step), s.step);
    }
  }

  // --- the input, phase-major ---

  /** A dilated convolution with IC channels of length L in, KW taps, dil phases. */
  datatype Problem<!F(!new)> = Problem(zero: F, mac: (F, F, F) -> F, x: (int, int) -> F, w: (int, int, int) -> F,
                                       IC: nat, OC: nat, L: nat, KW: nat, dil: nat)
  {
    predicate Valid() { KW % 2 == 1 && dil > 0 && OC % 4 == 0 }

    function H(): nat { if KW == 0 then 0 else (KW - 1) / 2 }

    function J(): nat requires dil > 0 { Columns(L, dil) }

    function JP(): nat requires dil > 0 { J() + 2 * H() }

    function Input(ic: int, q: int): F { if 0 <= q < L then x(ic, q) else zero }

    /** Phase r of channel ic at padded index c: the input, zeros around it. */
    function Phase(ic: int, r: int, c: int): F { Input(ic, At(c - H(), dil, r)) }

    /** The definition: from zero, by input channel, then by tap. */
    function Sum(oc: int, p: int, ic: nat, kx: nat): F
      decreases ic, kx
    {
      if kx > 0 then mac(Sum(oc, p, ic, kx - 1), w(ic, kx - 1, oc), Input(ic, p + (kx - 1 - H()) * dil))
      else if ic > 0 then Sum(oc, p, ic - 1, KW)
      else zero
    }

    function Out(oc: int, p: int): F { Sum(oc, p, IC, 0) }

    /** For an odd number of taps tap kx of output p reads (kx - (KW - 1) / 2) dil from p, the middle one p itself. */
    lemma TapPosition(oc: int, p: int, ic: nat, kx: nat)
      requires KW % 2 == 1
      ensures Sum(oc, p, ic, kx + 1) ==
        mac(Sum(oc, p, ic, kx), w(ic, kx, oc), Input(ic, p + (kx - (KW - 1) / 2) * dil))
      ensures 2 * kx == KW - 1 && 0 <= p < L ==>
        Sum(oc, p, ic, kx + 1) == mac(Sum(oc, p, ic, kx), w(ic, kx, oc), x(ic, p))
    {
      assert kx + 1 - 1 - H() == kx - (KW - 1) / 2;
    }
  }

  /** phase_factors: the two factors of a dilation the vector splits know, or the dilation itself. */
  function PhaseFactors(d: nat): (ab: (nat, nat))
    requires d > 0
    ensures ab.0 * ab.1 == d && ab.0 > 0 && ab.1 > 0
  {
    if d == 6 then (2, 3)
    else if d == 8 then (2, 4)
    else if d == 9 then (3, 3)
    else if d == 12 then (4, 3)
    else if d == 16 then (4, 4)
    else (d, 1)
  }

  /** The splits run on vectors. */
  predicate Vectored(a: nat, b: nat) { 2 <= a <= 4 && 1 <= b <= 4 }

  /**
   What a two-pass split leaves at padded index c of phase r: past the input's end, up to a whole number of a's, the
   scratch it started from.
   */
  function Staged<F(!new)>(g: Problem<F>, stale: int -> F, a: nat, ic: int, r: int, c: int): F
    requires a > 0
  {
    var p := At(c - g.H(), g.dil, r);
    if 0 <= p < g.L then g.x(ic, p)
    else if c >= g.H() && r >= 0 && g.L <= p < a * Columns(g.L, a) then stale(Rem(r, a))
    else g.zero
  }

  /** The scratch cells a split by a never writes are zero. */
  ghost predicate StaleFree<F(!new)>(g: Problem<F>, stale: int -> F, a: nat)
    requires a > 0
  {
    forall r1 :: 0 <= r1 < a && Columns(g.L, a) > 0 && At(Columns(g.L, a) - 1, a, r1) >= g.L ==> stale(r1) == g.zero
  }

  /** Past the end, the unwritten cell of row r1 is its last. */
  lemma StaleCell(p: nat, L: nat, a: nat)
    requires a > 0 && L <= p < a * Columns(L, a)
    ensures Columns(L, a) > 0 && p == At(Columns(L, a) - 1, a, Rem(p, a))
  {
    var na := Columns(L, a);
    if na == 0 { assert false; }
    ColumnFits(na - 1, a, L);
    Index.DivMod(p, a);
    assert a * na == na * a;
    Index.MulSub(na, 1, a);
    if p / a < na - 1 { Index.MulMono(p / a + 1, na - 1, a); Index.MulAdd(p / a, 1, a); }
    if p / a > na - 1 { Index.MulMono(na, p / a, a); }
  }

  /** The row of a position is its phase modulo a. */
  lemma RowOfPhase(j: nat, a: nat, b: nat, r: nat)
    requires a > 0 && b > 0 && r < a * b
    ensures Rem(At(j, a * b, r), a) == Rem(r, a)
    ensures At(j, a * b, r) == At(At(j, b, Quot(r, a)), a, Rem(r, a))
    ensures Quot(r, a) < b
  {
    Index.DivMod(r, a);
    var r1, r2 := r % a, r / a;
    if r2 >= b { Index.MulMono(b, r2, a); }
    Index.MulAssoc(j, b, a);
    assert a * b == b * a;
    Index.MulAdd(j * b, r2, a);
    var k := j * b + r2;
    assert j * (a * b) + r == k * a + r1;
    Index.MulNonneg(j, b);
    OfAt(k, a, r1);
  }

  /**
   The two-pass form holds the phases it should if and only if the cells of its scratch that it does not write are zero.
   */
  lemma StagedIff<F(!new)>(g: Problem<F>, stale: int -> F, a: nat, b: nat, ic: int)
    requires g.Valid() && a > 0 && b > 0 && a * b == g.dil
    ensures (forall r,
             c :: 0 <= r < g.dil && 0 <= c < g.JP() ==>
               Staged(g, stale, a, ic, r, c) == g.Phase(ic, r, c)) <==> StaleFree(g, stale, a)
  {
    if StaleFree(g, stale, a) {
      forall r, c | 0 <= r < g.dil && 0 <= c < g.JP() ensures Staged(g, stale, a, ic, r, c) == g.Phase(ic, r, c) {
        var p := At(c - g.H(), g.dil, r);
        if c >= g.H() && g.L <= p < a * Columns(g.L, a) {
          StaleCell(p, g.L, a);
          RowOfPhase(c - g.H(), a, b, r);
        }
      }
    } else {
      var na := Columns(g.L, a);
      var r1 :| 0 <= r1 < a && na > 0 && At(na - 1, a, r1) >= g.L && stale(r1) != g.zero;
      var p := At(na - 1, a, r1);
      OfAt(na - 1, a, r1);
      TwoPassIndex(p, a, b);
      var r, j := Rem(p, g.dil), Quot(p, g.dil);
      AtOf(p, g.dil);
      StaleInside(g.L, a, b, r1);
      RowOfPhase(j, a, b, r);
      assert Staged(g, stale, a, ic, r, j + g.H()) == stale(r1);
    }
  }

  /** The position of an unwritten cell lies within the phases. */
  lemma StaleInside(L: nat, a: nat, b: nat, r1: nat)
    requires a > 0 && b > 0 && r1 < a && Columns(L, a) > 0 && a * b > 0
    ensures At(Columns(L, a) - 1, a, r1) >= 0 && At(Columns(L, a) - 1, a, r1) < a * Columns(L, a)
    ensures Quot(At(Columns(L, a) - 1, a, r1), a * b) < Columns(L, a * b)
  {
    var na := Columns(L, a);
    OfAt(na - 1, a, r1);
    var p := At(na - 1, a, r1);
    Index.MulSub(na, 1, a);
    assert a * na == na * a;
    ColumnFits(na - 1, a, L);
    TwoPassIndex(p, a, b);
    var q := Quot(na - 1, b);
    assert Quot(p, a * b) == q;
    Index.DivMod(na - 1, b);
    Index.MulMono(q * b, na - 1, a);
    Index.MulAssoc(q, b, a);
    assert a * b == b * a;
    ColumnFits(q, a * b, L);
  }

  /** Each unwritten cell of the scratch is zero, or stands where no tap of an output within the length reaches. */
  ghost predicate Harmless<F(!new)>(g: Problem<F>, stale: int -> F, a: nat)
    requires a > 0
  {
    forall r1 :: 0 <= r1 < a && Columns(g.L, a) > 0 && At(Columns(g.L, a) - 1, a, r1) >= g.L ==>
      stale(r1) == g.zero || g.KW == 1 || At(Columns(g.L, a) - 1, a, r1) < g.dil
  }

  /** Tap kx of output (r, j), a position within the length, reads what it should. */
  ghost predicate TapRight<F(!new)>(g: Problem<F>, stale: int -> F, a: nat, ic: int, r: int, j: int, kx: int)
    requires a > 0 && g.dil > 0
  {
    0 <= r < g.dil && 0 <= j && At(j, g.dil, r) < g.L && 0 <= kx < g.KW ==>
      Staged(g, stale, a, ic, r, j + kx) == g.Phase(ic, r, j + kx)
  }

  /** A tap of an output that reads past the end reaches back from one dilation or more. */
  lemma ReadPast(j: nat, c: int, d: nat, r: nat, L: nat)
    requires d > 0 && r < d && At(j, d, r) < L <= At(c, d, r)
    ensures j < c && At(c, d, r) >= d
  {
    AtNonneg(j, d, r);
    if c <= j { Index.MulMono(c, j, d); }
    Index.MulMono(1, c, d);
  }

  lemma HarmlessReads<F(!new)>(g: Problem<F>, stale: int -> F, a: nat, b: nat, ic: int, r: nat, j: nat, kx: nat)
    requires g.Valid() && a > 0 && b > 0 && a * b == g.dil && Harmless(g, stale, a)
    ensures TapRight(g, stale, a, ic, r, j, kx)
  {
    var c := j + kx - g.H();
    var p := At(c, g.dil, r);
    if r < g.dil && At(j, g.dil, r) < g.L && kx < g.KW && c >= 0 && g.L <= p < a * Columns(g.L, a) {
      StaleCell(p, g.L, a);
      RowOfPhase(c, a, b, r);
      ReadPast(j, c, g.dil, r, g.L);
    }
  }

  /**
   Every tap of every output within the length reads the input or a zero if and only if the leftover scratch is
   harmless.
   */
  lemma ReadsIff<F(!new)>(g: Problem<F>, stale: int -> F, a: nat, b: nat, ic: int)
    requires g.Valid() && a > 0 && b > 0 && a * b == g.dil
    ensures (forall r, j, kx :: TapRight(g, stale, a, ic, r, j, kx)) <==> Harmless(g, stale, a)
  {
    if Harmless(g, stale, a) {
      forall r, j, kx ensures TapRight(g, stale, a, ic, r, j, kx) {
        if 0 <= r && 0 <= j && 0 <= kx { HarmlessReads(g, stale, a, b, ic, r, j, kx); }
      }
    } else {
      var na := Columns(g.L, a);
      var r1 :| 0 <= r1 < a && na > 0 && At(na - 1, a, r1) >= g.L
                && stale(r1) != g.zero && g.KW != 1 && At(na - 1, a, r1) >= g.dil;
      HarmfulTap(g, stale, a, b, ic, r1);
    }
  }

  /** The cell one dilation past an output is read by its next tap. */
  lemma HarmfulTap<F(!new)>(g: Problem<F>, stale: int -> F, a: nat, b: nat, ic: int, r1: nat)
    requires g.Valid() && a > 0 && b > 0 && a * b == g.dil && r1 < a && Columns(g.L, a) > 0 && g.KW != 1
    requires var p := At(Columns(g.L, a) - 1, a, r1); p >= g.L && p >= g.dil && stale(r1) != g.zero
    ensures exists r, j, kx :: !TapRight(g, stale, a, ic, r, j, kx)
  {
    hide Problem.Phase;
    var na := Columns(g.L, a);
    var p := At(na - 1, a, r1);
    OfAt(na - 1, a, r1);
    StaleInside(g.L, a, b, r1);
    var r, c := Rem(p, g.dil), Quot(p, g.dil);
    AtOf(p, g.dil);
    RowOfPhase(c, a, b, r);
    OneBack(p, g.dil, g.L, a, na, b, r1);
    PhaseInside(g, ic, r, c);
    assert Staged(g, stale, a, ic, r, (c - 1) + (g.H() + 1)) == stale(r1);
    assert !TapRight(g, stale, a, ic, r, c - 1, g.H() + 1);
  }

  lemma OneBack(p: nat, d: nat, L: nat, a: nat, na: nat, b: nat, r1: nat)
    requires d > 0 && a > 0 && b > 0 && a * b == d && na > 0 && na == Columns(L, a) && r1 < a && p == At(na - 1, a, r1)
      && p >= d
    ensures Quot(p, d) >= 1 && At(Quot(p, d) - 1, d, Rem(p, d)) == p - d < L
  {
    AtOf(p, d);
    Index.MulSub(Quot(p, d), 1, d);
    if Quot(p, d) < 1 { Index.MulMono(Quot(p, d), 0, d); }
    ColumnFits(na - 1, a, L);
    Index.MulMono(1, b, a);
    assert b * a == a * b;
  }

  /** On every scratch content, the two-pass form is right if and only if a divides the length. */
  lemma AlwaysRightIff<F(!new)>(g: Problem<F>, a: nat, one: F)
    requires a > 0 && one != g.zero
    ensures (forall stale: int -> F :: StaleFree(g, stale, a)) <==> g.L % a == 0
  {
    var na := Columns(g.L, a);
    Index.DivMod(g.L, a);
    Index.CeilDiv(g.L, a);
    if g.L % a == 0 {
      forall stale: int -> F ensures StaleFree(g, stale, a) {
        if !StaleFree(g, stale, a) {
          var r1 :| 0 <= r1 < a && na > 0 && At(na - 1, a, r1) >= g.L && stale(r1) != g.zero;
          AllWritten(g.L, a, r1);
          assert false;
        }
      }
    } else {
      var stale: int -> F := r => one;
      Index.MulSub(na, 1, a);
      if na * a == g.L { Index.ModMultiple(na, a); }
      if na == 0 { assert false; }
      assert na > 0;
      assert At(na - 1, a, a - 1) >= g.L && stale(a - 1) != g.zero;
      assert !StaleFree(g, stale, a);
    }
  }

  lemma AllWritten(L: nat, a: nat, r1: nat)
    requires a > 0 && L % a == 0 && r1 < a
    ensures At(Columns(L, a) - 1, a, r1) < L
  {
    ExactColumns(L, a);
    Index.MulSub(Columns(L, a), 1, a);
  }

  lemma ExactColumns(L: nat, a: nat)
    requires a > 0 && L % a == 0
    ensures Columns(L, a) * a == L
  {
    Index.DivMod(L, a);
    Index.ModUnique(L + a - 1, L / a, a - 1, a);
  }

  /** x holds the input channels. */
  ghost predicate HoldsInput<F(!new)>(x: array2<F>, g: Problem<F>)
    reads x
  {
    x.Length0 == g.IC && x.Length1 == g.L && forall ic, q :: 0 <= ic < g.IC && 0 <= q < g.L ==> x[ic, q] == g.x(ic, q)
  }

  /** base holds the phases of channel ic. */
  ghost predicate HoldsPhases<F(!new)>(base: array2<F>, g: Problem<F>, ic: int)
    requires g.dil > 0
    reads base
  {
    base.Length0 == g.dil && base.Length1 == g.JP()
      && forall r, c :: 0 <= r < g.dil && 0 <= c < base.Length1 ==> base[r, c] == g.Phase(ic, r, c)
  }

  method Clear<F>(base: array2<F>, zero: F)
    modifies base
    ensures forall r, c :: 0 <= r < base.Length0 && 0 <= c < base.Length1 ==> base[r, c] == zero
  {
    for i := 0 to base.Length0
      invariant forall r, c :: 0 <= r < i && 0 <= c < base.Length1 ==> base[r, c] == zero
    {
      for j := 0 to base.Length1
        invariant forall r, c :: 0 <= r < i && 0 <= c < base.Length1 ==> base[r, c] == zero
        invariant forall c :: 0 <= c < j ==> base[i, c] == zero
      {
        base[i, j] := zero;
      }
    }
  }

  /** The plain gather: phase by phase, position by position. */
  method GatherPhases<F(!new)>(x: array2<F>, ic: nat, base: array2<F>, g: Problem<F>)
    requires g.Valid() && HoldsInput(x, g) && ic < g.IC && x != base && base.Length0 == g.dil && base.Length1 == g.JP()
    requires forall r, c :: 0 <= r < base.Length0 && 0 <= c < base.Length1 ==> base[r, c] == g.zero
    modifies base
    ensures HoldsPhases(base, g, ic)
  {
    hide At;
    hide Problem.Phase;
    forall r, c | 0 <= r < g.dil && (c < g.H() || c >= g.H() + g.J())
      ensures g.Phase(ic, r, c) == g.zero
    {
      PhaseOutside(g, ic, r, c);
    }
    for r := 0 to g.dil
      invariant forall s, c :: 0 <= s < g.dil && 0 <= c < base.Length1 ==>
        base[s, c] == if s < r then g.Phase(ic, s, c) else g.zero
    {
      for j := 0 to g.J()
        invariant forall s, c :: 0 <= s < g.dil && 0 <= c < base.Length1 ==>
          base[s, c] == if s < r || (s == r && c < g.H() + j) then g.Phase(ic, s, c) else g.zero
      {
        AtNonneg(j, g.dil, r);
        PhaseInside(g, ic, r, j);
        var p := At(j, g.dil, r);
        if p < g.L { base[r, g.H() + j] := x[ic, p]; }
      }
    }
  }

  lemma PhaseInside<F(!new)>(g: Problem<F>, ic: int, r: nat, j: nat)
    ensures g.Phase(ic, r, g.H() + j) == if At(j, g.dil, r) < g.L then g.x(ic, At(j, g.dil, r)) else g.zero
  {
    AtNonneg(j, g.dil, r);
  }

  lemma PhaseOutside<F(!new)>(g: Problem<F>, ic: int, r: nat, c: int)
    requires g.dil > 0 && r < g.dil && (c < g.H() || c >= g.H() + g.J())
    ensures g.Phase(ic, r, c) == g.zero
  {
    if c < g.H() { BeforeStart(c - g.H(), g.dil, r); } else { AfterEnd(c - g.H(), g.dil, r, g.L); }
  }

  lemma BeforeStart(j: int, f: nat, r: int)
    requires j < 0 && r < f
    ensures At(j, f, r) < 0
  {
    Index.MulMono(j, -1, f);
  }

  lemma AfterEnd(j: nat, f: nat, r: nat, n: nat)
    requires r < f && j >= Columns(n, f)
    ensures At(j, f, r) >= n
  {
    ColumnFits(j, f, n);
  }

  /** One vector pass: the dilation itself is a factor. */
  method OnePass<F(!new)>(x: array2<F>, ic: nat, base: array2<F>, g: Problem<F>)
    requires g.Valid() && HoldsInput(x, g) && ic < g.IC && x != base && base.Length0 == g.dil && base.Length1 == g.JP()
    requires forall r, c :: 0 <= r < base.Length0 && 0 <= c < base.Length1 ==> base[r, c] == g.zero
    modifies base
    ensures HoldsPhases(base, g, ic)
  {
    hide At;
    var s := Split(0, 1, g.H(), g.L, g.dil);
    Deint(x, ic, base, s);
    forall r, c | 0 <= r < g.dil && 0 <= c < base.Length1 ensures base[r, c] == g.Phase(ic, r, c) {
      RowSplit(r, 0, r, 1);
      if c < g.H() { BeforeStart(c - g.H(), g.dil, r); } else { AtNonneg(c - g.H(), g.dil, r); }
    }
  }

  /** The first of two passes: the input split by a into the scratch; cells past its end keep what they held. */
  method FirstPass<F(!new)>(x: array2<F>, ic: nat, tmp: array2<F>, g: Problem<F>, a: nat)
    requires HoldsInput(x, g) && ic < g.IC && x != tmp && a > 0 && tmp.Length0 == a && tmp.Length1 == Columns(g.L, a)
    modifies tmp
    ensures forall r1, k :: 0 <= r1 < a && 0 <= k < tmp.Length1 ==>
      tmp[r1, k] == if At(k, a, r1) < g.L then g.x(ic, At(k, a, r1)) else old(tmp[r1, k])
  {
    hide At;
    var s := Split(0, 1, 0, g.L, a);
    Deint(x, ic, tmp, s);
    forall r1, k | 0 <= r1 < a && 0 <= k < tmp.Length1
      ensures tmp[r1, k] == if At(k, a, r1) < g.L then g.x(ic, At(k, a, r1)) else old(tmp[r1, k])
    {
      RowSplit(r1, 0, r1, 1);
      AtNonneg(k, a, r1);
    }
  }

  /** What row R of the phases takes from the scratch's row R mod a. */
  method SecondPass<F(!new)>(tmp: array2<F>, r1: nat, base: array2<F>, g: Problem<F>, a: nat, b: nat)
    requires g.Valid() && a > 0 && b > 0 && a * b == g.dil && tmp != base && r1 < a == tmp.Length0
      && tmp.Length1 == Columns(g.L, a)
    requires base.Length0 == g.dil && base.Length1 == g.JP()
    modifies base
    ensures forall R, c :: 0 <= R < g.dil && 0 <= c < base.Length1 ==>
      base[R, c] == if Rem(R, a) == r1 && c >= g.H() && At(c - g.H(), b, Quot(R, a)) < tmp.Length1
        && At(c - g.H(), b, Quot(R, a)) >= 0
                    then tmp[r1, At(c - g.H(), b, Quot(R, a))] else old(base[R, c])
  {
    hide At;
    hide Quot;
    hide Rem;
    var na := tmp.Length1;
    var s := Split(r1, a, g.H(), na, b);
    SecondFits(g.L, a, b, r1);
    Deint(tmp, r1, base, s);
    forall R: nat | R < g.dil ensures Quot(R, a) < b { RowOfPhase(0, a, b, R); }
  }

  /** The second split's rows and columns stay inside the phases. */
  lemma SecondFits(L: nat, a: nat, b: nat, r1: nat)
    requires a > 0 && b > 0 && r1 < a && a * b > 0
    ensures r1 + (b - 1) * a < a * b && Columns(Columns(L, a), b) <= Columns(L, a * b)
  {
    Index.MulSub(b, 1, a);
    assert a * b == b * a;
    var na := Columns(L, a);
    var k := Columns(na, b);
    if k > 0 {
      ColumnFits(k - 1, b, na);
      ColumnFits((k - 1) * b, a, L);
      Index.MulNonneg(k - 1, b);
      Index.MulAssoc(k - 1, b, a);
      ColumnFits(k - 1, a * b, L);
    }
  }

  /** Both vector passes: the phases, and whatever the scratch's unwritten cells held past the end of the input. */
  method TwoPasses<F(!new)>(x: array2<F>, ic: nat, base: array2<F>, tmp: array2<F>, g: Problem<F>, a: nat, b: nat,
                            ghost stale: int -> F)
    requires g.Valid() && HoldsInput(x, g) && ic < g.IC && a > 0 && b > 0 && a * b == g.dil
    requires x != base && x != tmp && tmp != base && base.Length0 == g.dil && base.Length1 == g.JP()
    requires tmp.Length0 == a && tmp.Length1 == Columns(g.L, a)
    requires forall r1 :: 0 <= r1 < a && tmp.Length1 > 0 && At(tmp.Length1 - 1, a, r1) >= g.L ==>
      tmp[r1, tmp.Length1 - 1] == stale(r1)
    requires forall r, c :: 0 <= r < base.Length0 && 0 <= c < base.Length1 ==> base[r, c] == g.zero
    modifies base, tmp
    ensures forall r, c :: 0 <= r < g.dil && 0 <= c < base.Length1 ==> base[r, c] == Staged(g, stale, a, ic, r, c)
    ensures forall r1, k :: 0 <= r1 < a && 0 <= k < tmp.Length1 ==>
      tmp[r1, k] == if At(k, a, r1) < g.L then g.x(ic, At(k, a, r1)) else old(tmp[r1, k])
    ensures forall r1 :: 0 <= r1 < a && tmp.Length1 > 0 && At(tmp.Length1 - 1, a, r1) >= g.L ==>
      tmp[r1, tmp.Length1 - 1] == stale(r1)
  {
    hide At;
    hide Quot;
    hide Rem;
    hide Staged;
    FirstPass(x, ic, tmp, g, a);
    ghost var S := (r: int, c: int) => Staged(g, stale, a, ic, r, c);
    for r1 := 0 to a
      invariant forall q, k :: 0 <= q < a && 0 <= k < tmp.Length1 ==>
        tmp[q, k] == if At(k, a, q) < g.L then g.x(ic, At(k, a, q)) else old(tmp[q, k])
      invariant forall R, c :: 0 <= R < g.dil && 0 <= c < base.Length1 ==>
        base[R, c] == if Rem(R, a) < r1 then Staged(g, stale, a, ic, R, c) else g.zero
    {
      SecondPass(tmp, r1, base, g, a, b);
      forall R, c | 0 <= R < g.dil && 0 <= c < base.Length1 && Rem(R, a) == r1
        ensures base[R, c] == Staged(g, stale, a, ic, R, c)
      {
        CellIs(g, stale, a, b, ic, R, c);
      }
    }
  }

  /** What the two index maps make of a cell. */
  lemma CellIs<F(!new)>(g: Problem<F>, stale: int -> F, a: nat, b: nat, ic: int, R: nat, c: nat)
    requires g.Valid() && a > 0 && b > 0 && a * b == g.dil && R < g.dil
    ensures
      var k := At(c - g.H(), b, Quot(R, a));
      var na := Columns(g.L, a);
      Staged(g, stale, a, ic, R, c) ==
      if c >= g.H() && 0 <= k < na
      then (if At(k, a, Rem(R, a)) < g.L then g.x(ic, At(k, a, Rem(R, a))) else stale(Rem(R, a))) else g.zero
    ensures
      var k := At(c - g.H(), b, Quot(R, a));
      var na := Columns(g.L, a);
      c >= g.H() && 0 <= k < na && At(k, a, Rem(R, a)) >= g.L ==> na > 0 && k == na - 1
  {
    var k := At(c - g.H(), b, Quot(R, a));
    var na := Columns(g.L, a);
    var r1 := Rem(R, a);
    if c >= g.H() {
      RowOfPhase(c - g.H(), a, b, R);
      AtNonneg(c - g.H(), b, Quot(R, a));
      OfAt(k, a, r1);
      ColumnFits(k, a, g.L);
      var p := At(k, a, r1);
      assert p == At(c - g.H(), g.dil, R);
      Index.MulAdd(k, 1, a);
      assert a * na == na * a;
      if k < na { Index.MulMono(k + 1, na, a); } else { Index.MulMono(na, k, a); }
      if k < na && p >= g.L { StaleCell(p, g.L, a); OfAt(na - 1, a, r1); }
    } else {
      BeforeStart(c - g.H(), g.dil, R);
    }
  }

  predicate TwoPass(d: nat) requires d > 0 { var (a, b) := PhaseFactors(d); Vectored(a, b) && b > 1 }

  /** What stands at padded index c of phase r of channel ic once the input is padded and split. */
  function Stream<F(!new)>(g: Problem<F>, stale: int -> F, ic: int, r: int, c: int): F
    requires g.dil > 0
  {
    if TwoPass(g.dil) then Staged(g, stale, PhaseFactors(g.dil).0, ic, r, c) else g.Phase(ic, r, c)
  }

  /** The scratch of a two-pass split, and what its unwritten cells hold. */
  ghost predicate Scratch<F(!new)>(tmp: array2<F>, g: Problem<F>, stale: int -> F)
    requires g.dil > 0
    reads tmp
  {
    TwoPass(g.dil) ==>
      var a := PhaseFactors(g.dil).0;
      && tmp.Length0 == a && tmp.Length1 == Columns(g.L, a)
      && forall r1 :: 0 <= r1 < a && tmp.Length1 > 0 && At(tmp.Length1 - 1, a, r1) >= g.L ==>
         tmp[r1, tmp.Length1 - 1] == stale(r1)
  }

  ghost predicate HoldsStream<F(!new)>(base: array2<F>, g: Problem<F>, V: (int, int, int) -> F, ic: int)
    requires g.dil > 0
    reads base
  {
    base.Length0 == g.dil && base.Length1 == g.JP()
      && forall r, c :: 0 <= r < g.dil && 0 <= c < base.Length1 ==> base[r, c] == V(ic, r, c)
  }

  /** One channel of pad_input_phase. */
  method PadChannel<F(!new)>(x: array2<F>, ic: nat, base: array2<F>, tmp: array2<F>, g: Problem<F>,
                             ghost stale: int -> F, ghost V: (int, int, int) -> F)
    requires g.Valid() && HoldsInput(x, g) && ic < g.IC && x != base && x != tmp && tmp != base
    requires base.Length0 == g.dil && base.Length1 == g.JP() && Scratch(tmp, g, stale)
    requires forall i, r, c :: V(i, r, c) == Stream(g, stale, i, r, c)
    modifies base, tmp
    ensures HoldsStream(base, g, V, ic) && Scratch(tmp, g, stale)
  {
    hide At;
    hide Quot;
    hide Rem;
    hide HoldsInput;
    hide Staged;
    Clear(base, g.zero);
    var (a, b) := PhaseFactors(g.dil);
    if g.dil == 1 {
      CopyChannel(x, ic, base, g);
    } else if !Vectored(a, b) {
      GatherPhases(x, ic, base, g);
    } else if b == 1 {
      OnePass(x, ic, base, g);
    } else {
      TwoPasses(x, ic, base, tmp, g, a, b, stale);
    }
  }

  /** Dilation 1: one phase, copied. */
  method CopyChannel<F(!new)>(x: array2<F>, ic: nat, base: array2<F>, g: Problem<F>)
    requires g.Valid() && g.dil == 1 && HoldsInput(x, g) && ic < g.IC && x != base && base.Length0 == 1
      && base.Length1 == g.JP()
    requires forall r, c :: 0 <= r < base.Length0 && 0 <= c < base.Length1 ==> base[r, c] == g.zero
    modifies base
    ensures HoldsPhases(base, g, ic)
  {
    Index.ModUnique(g.L, g.L, 0, 1);
    for q := 0 to g.L
      invariant forall c :: 0 <= c < base.Length1 ==>
        base[0, c] == if g.H() <= c < g.H() + q then g.x(ic, c - g.H()) else g.zero
    {
      base[0, g.H() + q] := x[ic, q];
    }
    forall c | 0 <= c < base.Length1 ensures base[0, c] == g.Phase(ic, 0, c) {
      assert At(c - g.H(), 1, 0) == c - g.H();
    }
  }

  ghost predicate Distinct<F>(a: seq<array2<F>>)
  {
    forall i, j :: 0 <= i < |a| && 0 <= j < |a| && i != j ==> a[i] != a[j]
  }

  /** pad_input_phase: every channel. */
  method PadInputPhase<F(!new)>(x: array2<F>, xp: seq<array2<F>>, tmp: array2<F>, g: Problem<F>, ghost stale: int -> F,
                                ghost V: (int, int, int) -> F)
    requires g.Valid() && HoldsInput(x, g) && |xp| == g.IC && Distinct(xp) && x !in xp && tmp !in xp && x != tmp
    requires forall ic :: 0 <= ic < g.IC ==> xp[ic].Length0 == g.dil && xp[ic].Length1 == g.JP()
    requires Scratch(tmp, g, stale) && forall i, r, c :: V(i, r, c) == Stream(g, stale, i, r, c)
    modifies xp, tmp
    ensures forall ic :: 0 <= ic < g.IC ==> HoldsStream(xp[ic], g, V, ic)
  {
    hide Stream;
    hide HoldsInput;
    hide Scratch;
    for ic := 0 to g.IC
      invariant HoldsInput(x, g) && Scratch(tmp, g, stale)
      invariant forall i :: 0 <= i < ic ==> HoldsStream(xp[i], g, V, i)
    {
      PadChannel(x, ic, xp[ic], tmp, g, stale, V);
    }
  }

  // --- the dense convolution over a phase ---

  /** The sum over streams V for phase r, index j: from zero, by input channel, then by tap, taps next to each other. */
  function Dense<F(!new)>(g: Problem<F>, V: (int, int, int) -> F, oc: int, r: int, j: int, ic: nat, kx: nat): F
    decreases ic, kx
  {
    if kx > 0 then g.mac(Dense(g, V, oc, r, j, ic, kx - 1), g.w(ic, kx - 1, oc), V(ic, r, j + kx - 1))
    else if ic > 0 then Dense(g, V, oc, r, j, ic - 1, g.KW)
    else g.zero
  }

  lemma PhaseTap<F(!new)>(g: Problem<F>, ic: int, r: int, j: int, kx: int)
    ensures g.Phase(ic, r, j + kx) == g.Input(ic, At(j, g.dil, r) + (kx - g.H()) * g.dil)
  {
    Index.MulAdd(j, kx - g.H(), g.dil);
  }

  /** Over the input's phases the dense sum is the dilated one. */
  lemma {:induction false} DenseIsDilated<F(!new)>(g: Problem<F>, V: (int, int, int) -> F, oc: int, r: nat, j: nat,
                                                   ic: nat, kx: nat)
    requires g.Valid() && r < g.dil && j < g.J() && ic <= g.IC && kx <= g.KW && (ic == g.IC ==> kx == 0)
    requires forall i, c :: 0 <= i < g.IC && j <= c < j + g.KW ==> V(i, r, c) == g.Phase(i, r, c)
    ensures Dense(g, V, oc, r, j, ic, kx) == g.Sum(oc, At(j, g.dil, r), ic, kx)
    decreases ic, kx
  {
    hide At;
    hide Problem.Phase;
    hide Problem.Input;
    if kx > 0 {
      DenseIsDilated(g, V, oc, r, j, ic, kx - 1);
      PhaseTap(g, ic, r, j, kx - 1);
    } else if ic > 0 {
      DenseIsDilated(g, V, oc, r, j, ic - 1, g.KW);
    }
  }

  /** Every channel's streams. */
  ghost predicate HoldsStreams<F(!new)>(xp: seq<array2<F>>, g: Problem<F>, V: (int, int, int) -> F)
    requires g.dil > 0
    reads xp
  {
    |xp| == g.IC && forall ic :: 0 <= ic < g.IC ==> HoldsStream(xp[ic], g, V, ic)
  }

  /** Four output channels' accumulators for indices [j0, ..) of phase r, after channel ic's first kx taps. */
  ghost predicate AccAt<F(!new)>(acc: array2<F>, g: Problem<F>, V: (int, int, int) -> F, oc0: nat, r: nat, j0: nat,
                                 ic: nat, kx: nat)
    reads acc
  {
    forall i, k :: 0 <= i < acc.Length0 && 0 <= k < acc.Length1 ==> acc[i, k] == Dense(g, V, oc0 + i, r, j0 + k, ic, kx)
  }

  method TapStep<F(!new)>(acc: array2<F>, xp: seq<array2<F>>, g: Problem<F>, ghost V: (int, int, int) -> F, oc0: nat,
                          r: nat, j0: nat, ic: nat, kx: nat)
    requires g.dil > 0 && HoldsStreams(xp, g, V) && acc !in xp && r < g.dil && ic < g.IC && kx < g.KW
      && j0 + acc.Length1 + 2 * g.H() <= g.JP()
    requires kx <= 2 * g.H() && AccAt(acc, g, V, oc0, r, j0, ic, kx)
    modifies acc
    ensures AccAt(acc, g, V, oc0, r, j0, ic, kx + 1)
  {
    var row := xp[ic];
    assert HoldsStream(row, g, V, ic);
    for i := 0 to acc.Length0
      invariant HoldsStream(row, g, V, ic)
      invariant forall a, k :: 0 <= a < acc.Length0 && 0 <= k < acc.Length1
                  ==> acc[a, k] == Dense(g, V, oc0 + a, r, j0 + k, ic, if a < i then kx + 1 else kx)
    {
      for k := 0 to acc.Length1
        invariant HoldsStream(row, g, V, ic)
        invariant forall a, l :: 0 <= a < acc.Length0 && 0 <= l < acc.Length1 ==>
          acc[a, l] == Dense(g, V, oc0 + a, r, j0 + l, ic, if a < i || (a == i && l < k) then kx + 1 else kx)
      {
        acc[i, k] := g.mac(acc[i, k], g.w(ic, kx, oc0 + i), row[r, j0 + k + kx]);
      }
    }
  }

  /** One register tile of four channels by P indices. */
  method TileSums<F(!new)>(xp: seq<array2<F>>, g: Problem<F>, ghost V: (int, int, int) -> F, oc0: nat, r: nat, j0: nat,
                           P: nat) returns (acc: array2<F>)
    requires g.Valid() && HoldsStreams(xp, g, V) && r < g.dil && j0 + P <= g.J()
    ensures fresh(acc) && acc.Length0 == 4 && acc.Length1 == P && AccAt(acc, g, V, oc0, r, j0, g.IC, 0)
  {
    hide HoldsStream;
    acc := new F[4, P]((i, k) => g.zero);
    for ic := 0 to g.IC
      invariant HoldsStreams(xp, g, V) && AccAt(acc, g, V, oc0, r, j0, ic, 0)
    {
      for kx := 0 to g.KW
        invariant HoldsStreams(xp, g, V) && AccAt(acc, g, V, oc0, r, j0, ic, kx)
      {
        TapStep(acc, xp, g, V, oc0, r, j0, ic, kx);
      }
      NextChannel(acc, g, V, oc0, r, j0, ic);
    }
  }

  lemma NextChannel<F(!new)>(acc: array2<F>, g: Problem<F>, V: (int, int, int) -> F, oc0: nat, r: nat, j0: nat, ic: nat)
    requires AccAt(acc, g, V, oc0, r, j0, ic, g.KW)
    ensures AccAt(acc, g, V, oc0, r, j0, ic + 1, 0)
  {
    forall i, k | 0 <= i < acc.Length0 && 0 <= k < acc.Length1
      ensures acc[i, k] == Dense(g, V, oc0 + i, r, j0 + k, ic + 1, 0)
    {
      assert Dense(g, V, oc0 + i, r, j0 + k, ic + 1, 0) == Dense(g, V, oc0 + i, r, j0 + k, ic, g.KW);
    }
  }

  /** The output planes, one per channel, phase-major. */
  ghost predicate Planes<F>(yp: seq<array2<F>>, xp: seq<array2<F>>, OC: nat, dil: nat, J: nat)
  {
    && |yp| == OC && Distinct(yp) && (forall o :: 0 <= o < OC ==> yp[o].Length0 == dil && yp[o].Length1 == J)
    && forall o, i :: 0 <= o < OC && 0 <= i < |xp| ==> yp[o] != xp[i]
  }

  function Val<F(!new)>(g: Problem<F>, V: (int, int, int) -> F, oc: int, r: int, j: int): F
  {
    Dense(g, V, oc, r, j, g.IC, 0)
  }

  /** A tile computed and stored. */
  method Tile<F(!new)>(xp: seq<array2<F>>, yp: seq<array2<F>>, g: Problem<F>, ghost V: (int, int, int) -> F, oc0: nat,
                       r: nat, j0: nat, P: nat)
    requires g.Valid() && HoldsStreams(xp, g, V) && Planes(yp, xp, g.OC, g.dil, g.J()) && r < g.dil && j0 + P <= g.J()
      && oc0 + 4 <= g.OC
    modifies yp
    ensures HoldsStreams(xp, g, V)
    ensures forall o, s, j :: 0 <= o < g.OC && 0 <= s < g.dil && 0 <= j < g.J() ==>
      yp[o][s, j] == if oc0 <= o < oc0 + 4 && s == r && j0 <= j < j0 + P then Val(g, V, o, s, j) else old(yp[o][s, j])
  {
    hide Dense;
    hide HoldsStream;
    var acc := TileSums(xp, g, V, oc0, r, j0, P);
    for i := 0 to 4
      invariant HoldsStreams(xp, g, V) && AccAt(acc, g, V, oc0, r, j0, g.IC, 0)
      invariant forall o, s, j :: 0 <= o < g.OC && 0 <= s < g.dil && 0 <= j < g.J() ==>
        yp[o][s, j] == if oc0 <= o < oc0 + i && s == r && j0 <= j < j0 + P then Val(g, V, o, s, j) else old(yp[o][s, j])
    {
      StoreRow(acc, i, xp, yp[oc0 + i], g, V, oc0, oc0 + i, r, j0, P);
    }
  }

  /** One channel's row of a tile stored. */
  method StoreRow<F(!new)>(acc: array2<F>, i: nat, ghost xp: seq<array2<F>>, out: array2<F>, g: Problem<F>,
                           ghost V: (int, int, int) -> F, ghost oc0: nat, ghost o: nat, r: nat, j0: nat, P: nat)
    requires g.Valid() && HoldsStreams(xp, g, V) && out !in xp && out.Length0 == g.dil && out.Length1 == g.J()
    requires r < g.dil && j0 + P <= g.J() && i < 4 && o == oc0 + i
    requires acc.Length0 == 4 && acc.Length1 == P && AccAt(acc, g, V, oc0, r, j0, g.IC, 0) && acc != out
    modifies out
    ensures HoldsStreams(xp, g, V) && AccAt(acc, g, V, oc0, r, j0, g.IC, 0)
    ensures forall s, j :: 0 <= s < g.dil && 0 <= j < g.J() ==>
      out[s, j] == if s == r && j0 <= j < j0 + P then Val(g, V, o, s, j) else old(out[s, j])
  {
    hide Dense;
    hide HoldsStream;
    for k := 0 to P
      invariant HoldsStreams(xp, g, V) && AccAt(acc, g, V, oc0, r, j0, g.IC, 0)
      invariant forall s, j :: 0 <= s < g.dil && 0 <= j < g.J() ==>
        out[s, j] == if s == r && j0 <= j < j0 + k then Val(g, V, o, s, j) else old(out[s, j])
    {
      out[r, j0 + k] := acc[i, k];
    }
  }

  /** The channels of one block of indices, four at a time. */
  method ChannelTiles<F(!new)>(xp: seq<array2<F>>, yp: seq<array2<F>>, g: Problem<F>, ghost V: (int, int, int) -> F,
                               r: nat, j0: nat, P: nat)
    requires g.Valid() && HoldsStreams(xp, g, V) && Planes(yp, xp, g.OC, g.dil, g.J()) && r < g.dil && j0 + P <= g.J()
    modifies yp
    ensures HoldsStreams(xp, g, V)
    ensures forall o, s, j :: 0 <= o < g.OC && 0 <= s < g.dil && 0 <= j < g.J() ==>
      yp[o][s, j] == if s == r && j0 <= j < j0 + P then Val(g, V, o, s, j) else old(yp[o][s, j])
  {
    hide Val;
    hide HoldsStreams;
    var oc0 := 0;
    while oc0 < g.OC
      invariant 0 <= oc0 <= g.OC && oc0 % 4 == 0 && HoldsStreams(xp, g, V)
      invariant forall o, s, j :: 0 <= o < g.OC && 0 <= s < g.dil && 0 <= j < g.J() ==>
        yp[o][s, j] == if o < oc0 && s == r && j0 <= j < j0 + P then Val(g, V, o, s, j) else old(yp[o][s, j])
    {
      Tile(xp, yp, g, V, oc0, r, j0, P);
      oc0 := oc0 + 4;
    }
  }

  /** Whole blocks of phase r. */
  method PhaseBlocks<F(!new)>(xp: seq<array2<F>>, yp: seq<array2<F>>, g: Problem<F>, ghost V: (int, int, int) -> F,
                              r: nat, P: nat, nblk: nat)
    requires g.Valid() && HoldsStreams(xp, g, V) && Planes(yp, xp, g.OC, g.dil, g.J()) && r < g.dil && nblk * P <= g.J()
    modifies yp
    ensures HoldsStreams(xp, g, V)
    ensures forall o, s, j :: 0 <= o < g.OC && 0 <= s < g.dil && 0 <= j < g.J() ==>
      yp[o][s, j] == if s == r && j < nblk * P then Val(g, V, o, s, j) else old(yp[o][s, j])
  {
    hide Val;
    hide HoldsStreams;
    for b := 0 to nblk
      invariant HoldsStreams(xp, g, V)
      invariant forall o, s, j :: 0 <= o < g.OC && 0 <= s < g.dil && 0 <= j < g.J() ==>
        yp[o][s, j] == if s == r && j < b * P then Val(g, V, o, s, j) else old(yp[o][s, j])
    {
      Index.MulNonneg(b, P);
      Index.MulAdd(b, 1, P);
      Index.MulMono(b + 1, nblk, P);
      ChannelTiles(xp, yp, g, V, r, b * P, P);
    }
  }

  /** The scalar tail of a phase shorter than a block: one output at a time. */
  method ScalarTail<F(!new)>(xp: seq<array2<F>>, yp: seq<array2<F>>, g: Problem<F>, ghost V: (int, int, int) -> F,
                             r: nat, done: nat)
    requires g.Valid() && HoldsStreams(xp, g, V) && Planes(yp, xp, g.OC, g.dil, g.J()) && r < g.dil && done <= g.J()
    modifies yp
    ensures HoldsStreams(xp, g, V)
    ensures forall o, s, j :: 0 <= o < g.OC && 0 <= s < g.dil && 0 <= j < g.J() ==>
      yp[o][s, j] == if s == r && j >= done then Val(g, V, o, s, j) else old(yp[o][s, j])
  {
    hide Dense;
    hide HoldsStream;
    for oc := 0 to g.OC
      invariant HoldsStreams(xp, g, V)
      invariant forall o, s, j :: 0 <= o < g.OC && 0 <= s < g.dil && 0 <= j < g.J() ==>
        yp[o][s, j] == if o < oc && s == r && j >= done then Val(g, V, o, s, j) else old(yp[o][s, j])
    {
      for j := done to g.J()
        invariant HoldsStreams(xp, g, V)
        invariant forall o, s, k :: 0 <= o < g.OC && 0 <= s < g.dil && 0 <= k < g.J() ==>
          yp[o][s, k] == if s == r && k >= done && (o < oc || (o == oc && k < j))
                         then Val(g, V, o, s, k) else old(yp[o][s, k])
      {
        var a := OneSum(xp, g, V, oc, r, j);
        yp[oc][r, j] := a;
      }
    }
  }

  /** One output's sum. */
  method OneSum<F(!new)>(xp: seq<array2<F>>, g: Problem<F>, ghost V: (int, int, int) -> F, oc: nat, r: nat, j: nat)
    returns (a: F)
    requires g.Valid() && HoldsStreams(xp, g, V) && r < g.dil && j < g.J()
    ensures a == Val(g, V, oc, r, j)
  {
    a := g.zero;
    for ic := 0 to g.IC
      invariant a == Dense(g, V, oc, r, j, ic, 0)
    {
      assert HoldsStream(xp[ic], g, V, ic);
      for kx := 0 to g.KW
        invariant a == Dense(g, V, oc, r, j, ic, kx)
      {
        a := g.mac(a, g.w(ic, kx, oc), xp[ic][r, j + kx]);
      }
    }
  }

  /**
   conv1d_direct_phase: whole blocks, then one more block pulled back to end at J, or single outputs where J is below a
   block.
   */
  method ConvPhases<F(!new)>(xp: seq<array2<F>>, yp: seq<array2<F>>, g: Problem<F>, ghost V: (int, int, int) -> F,
                             P: nat)
    requires g.Valid() && HoldsStreams(xp, g, V) && Planes(yp, xp, g.OC, g.dil, g.J()) && P > 0
    modifies yp
    ensures forall o, s, j :: 0 <= o < g.OC && 0 <= s < g.dil && 0 <= j < g.J() ==> yp[o][s, j] == Val(g, V, o, s, j)
  {
    hide Val;
    hide HoldsStreams;
    var J := g.J();
    var nblk := J / P;
    Index.DivMod(J, P);
    for r := 0 to g.dil
      invariant HoldsStreams(xp, g, V)
      invariant forall o, s, j :: 0 <= o < g.OC && 0 <= s < r && 0 <= j < nblk * P ==> yp[o][s, j] == Val(g, V, o, s, j)
    {
      PhaseBlocks(xp, yp, g, V, r, P, nblk);
    }
    if nblk * P < J && J >= P {
      for r := 0 to g.dil
        invariant HoldsStreams(xp, g, V)
        invariant forall o, s, j :: 0 <= o < g.OC && 0 <= s < g.dil && 0 <= j < J && (s < r || j < nblk * P) ==>
          yp[o][s, j] == Val(g, V, o, s, j)
      {
        ChannelTiles(xp, yp, g, V, r, J - P, P);
      }
    } else if nblk * P < J {
      for r := 0 to g.dil
        invariant HoldsStreams(xp, g, V)
        invariant forall o, s, j :: 0 <= o < g.OC && 0 <= s < g.dil && 0 <= j < J && (s < r || j < nblk * P) ==>
          yp[o][s, j] == Val(g, V, o, s, j)
      {
        ScalarTail(xp, yp, g, V, r, nblk * P);
      }
    }
  }

  // --- the output, interleaved back ---

  /** What position p of an output channel is, in its plane. */
  function Woven<F>(plane: array2<F>, L: nat, dil: nat, p: nat): F
    requires dil > 0 && p < L && plane.Length0 == dil && plane.Length1 == Columns(L, dil)
    reads plane
  {
    GatherFits(Split(0, 1, 0, L, dil), p);
    plane[Rem(p, dil), Quot(p, dil)]
  }

  /** Row o of y is the plane, interleaved; the other rows stay. */
  method UnphaseOnePass<F>(plane: array2<F>, y: array2<F>, o: nat, L: nat, dil: nat)
    requires dil > 0 && plane.Length0 == dil && plane.Length1 == Columns(L, dil) && plane != y && o < y.Length0
      && y.Length1 == L
    modifies y
    ensures forall R, p :: 0 <= R < y.Length0 && 0 <= p < L ==>
      y[R, p] == if R == o then Woven(plane, L, dil, p) else old(y[R, p])
  {
    hide Quot;
    hide Rem;
    var s := Split(0, 1, 0, L, dil);
    Inter(plane, y, o, s);
    forall p: nat | p < L ensures Gathered(plane, s, p) == Woven(plane, L, dil, p) { GatherFits(s, p); }
  }

  /** The mirror image of the two-pass split: every cell of the scratch that is read was written. */
  method UnphaseTwoPasses<F>(plane: array2<F>, y: array2<F>, o: nat, tmp: array2<F>, L: nat, dil: nat, a: nat, b: nat)
    requires a > 0 && b > 0 && a * b == dil && dil > 0 && plane.Length0 == dil && plane.Length1 == Columns(L, dil)
    requires plane != y && tmp != y && tmp != plane && o < y.Length0 && y.Length1 == L && tmp.Length0 == a
      && tmp.Length1 == Columns(L, a)
    modifies y, tmp
    ensures forall R, p :: 0 <= R < y.Length0 && 0 <= p < L ==>
      y[R, p] == if R == o then Woven(plane, L, dil, p) else old(y[R, p])
  {
    hide Quot;
    hide Rem;
    hide Columns;
    hide Woven;
    var na := tmp.Length1;
    for r1 := 0 to a
      invariant forall q, k :: 0 <= q < r1 && 0 <= k < na ==> FirstGather(plane, L, a, b, q, k) == tmp[q, k]
      invariant forall R, p :: 0 <= R < y.Length0 && 0 <= p < L ==> y[R, p] == old(y[R, p])
    {
      SecondFits(L, a, b, r1);
      Inter(plane, tmp, r1, Split(r1, a, 0, na, b));
      forall k: nat | k < na ensures tmp[r1, k] == FirstGather(plane, L, a, b, r1, k) { }
    }
    var s := Split(0, 1, 0, L, a);
    Inter(tmp, y, o, s);
    forall p: nat | p < L ensures Gathered(tmp, s, p) == Woven(plane, L, dil, p) {
      GatherFits(s, p);
      WovenInTwo(plane, L, a, b, p);
    }
  }

  /** Cell k of scratch row r1, from the plane. */
  function FirstGather<F>(plane: array2<F>, L: nat, a: nat, b: nat, r1: nat, k: nat): F
    requires a > 0 && b > 0 && a * b > 0 && r1 < a && k < Columns(L, a) && plane.Length0 == a * b
      && plane.Length1 == Columns(L, a * b)
    reads plane
  {
    SecondFits(L, a, b, r1);
    Gathered(plane, Split(r1, a, 0, Columns(L, a), b), k)
  }

  lemma WovenInTwo<F>(plane: array2<F>, L: nat, a: nat, b: nat, p: nat)
    requires a > 0 && b > 0 && a * b > 0 && p < L && plane.Length0 == a * b && plane.Length1 == Columns(L, a * b)
    ensures Quot(p, a) < Columns(L, a)
      && FirstGather(plane, L, a, b, Rem(p, a), Quot(p, a)) == Woven(plane, L, a * b, p)
  {
    hide Quot;
    hide Rem;
    GatherFits(Split(0, 1, 0, L, a), p);
    TwoPassIndex(p, a, b);
  }

  /** The plain scatter: phase by phase. */
  method UnphaseScalar<F>(plane: array2<F>, y: array2<F>, o: nat, L: nat, dil: nat)
    requires dil > 0 && plane.Length0 == dil && plane.Length1 == Columns(L, dil) && plane != y && o < y.Length0
      && y.Length1 == L
    modifies y
    ensures forall R, p :: 0 <= R < y.Length0 && 0 <= p < L ==>
      y[R, p] == if R == o then Woven(plane, L, dil, p) else old(y[R, p])
  {
    hide Quot;
    hide Rem;
    hide At;
    for r := 0 to dil
      invariant forall R, p :: 0 <= R < y.Length0 && 0 <= p < L ==>
        y[R, p] == if R == o && Rem(p, dil) < r then Woven(plane, L, dil, p) else old(y[R, p])
    {
      for j := 0 to plane.Length1
        invariant forall R, p :: 0 <= R < y.Length0 && 0 <= p < L ==>
          y[R, p] == if R == o && (Rem(p, dil) < r || (Rem(p, dil) == r && Quot(p, dil) < j))
                     then Woven(plane, L, dil, p) else old(y[R, p])
      {
        OfAt(j, dil, r);
        forall p: nat ensures Quot(p, dil) == j && Rem(p, dil) == r <==> p == At(j, dil, r) { AtOf(p, dil); }
        var p := At(j, dil, r);
        if p < L { y[o, p] := plane[r, j]; }
      }
      forall p: nat | p < L ensures Quot(p, dil) < plane.Length1 { GatherFits(Split(0, 1, 0, L, dil), p); }
    }
  }

  /** One channel of unphase_output. */
  method UnphaseChannel<F>(plane: array2<F>, y: array2<F>, o: nat, tmp: array2<F>, L: nat, dil: nat)
    requires dil > 0 && plane.Length0 == dil && plane.Length1 == Columns(L, dil) && plane != y && o < y.Length0
      && y.Length1 == L
    requires tmp != y && tmp != plane
      && (TwoPass(dil) ==> tmp.Length0 == PhaseFactors(dil).0 && tmp.Length1 == Columns(L, PhaseFactors(dil).0))
    modifies y, tmp
    ensures forall R, p :: 0 <= R < y.Length0 && 0 <= p < L ==>
      y[R, p] == if R == o then Woven(plane, L, dil, p) else old(y[R, p])
  {
    hide Quot;
    hide Rem;
    hide Columns;
    var (a, b) := PhaseFactors(dil);
    if dil == 1 {
      UnphaseScalar(plane, y, o, L, dil);
    } else if b == 1 && 2 <= a <= 4 {
      UnphaseOnePass(plane, y, o, L, dil);
    } else if 2 <= a <= 4 && 2 <= b <= 4 {
      UnphaseTwoPasses(plane, y, o, tmp, L, dil, a, b);
    } else {
      UnphaseScalar(plane, y, o, L, dil);
    }
  }

  /** unphase_output: every channel. */
  method UnphaseOutput<F(!new)>(yp: seq<array2<F>>, y: array2<F>, tmp: array2<F>, g: Problem<F>,
                                ghost V: (int, int, int) -> F)
    requires g.Valid() && Planes(yp, [], g.OC, g.dil, g.J()) && y !in yp && tmp !in yp && y != tmp && y.Length0 == g.OC
      && y.Length1 == g.L
    requires TwoPass(g.dil) ==>
      tmp.Length0 == PhaseFactors(g.dil).0 && tmp.Length1 == Columns(g.L, PhaseFactors(g.dil).0)
    requires forall o, s, j :: 0 <= o < g.OC && 0 <= s < g.dil && 0 <= j < g.J() ==> yp[o][s, j] == Val(g, V, o, s, j)
    modifies y, tmp
    ensures forall o, p :: 0 <= o < g.OC && 0 <= p < g.L ==> y[o, p] == Val(g, V, o, Rem(p, g.dil), Quot(p, g.dil))
  {
    hide Quot;
    hide Rem;
    hide Columns;
    hide Val;
    hide TwoPass;
    for o := 0 to g.OC
      invariant forall q, s, j :: 0 <= q < g.OC && 0 <= s < g.dil && 0 <= j < g.J() ==>
        yp[q][s, j] == Val(g, V, q, s, j)
      invariant forall q, p :: 0 <= q < o && 0 <= p < g.L ==> y[q, p] == Val(g, V, q, Rem(p, g.dil), Quot(p, g.dil))
    {
      UnphaseChannel(yp[o], y, o, tmp, g.L, g.dil);
      forall p: nat | p < g.L ensures Woven(yp[o], g.L, g.dil, p) == Val(g, V, o, Rem(p, g.dil), Quot(p, g.dil)) {
        GatherFits(Split(0, 1, 0, g.L, g.dil), p);
      }
    }
  }

  // --- the two-pass forms undo each other ---

  /** Splitting in two passes and gathering in two gives the row back, whatever either scratch held. */
  method PhaseAndBack<F(!new)>(x: array2<F>, ic: nat, plane: array2<F>, tmpIn: array2<F>, tmpOut: array2<F>,
                               y: array2<F>, o: nat, g: Problem<F>, a: nat, b: nat)
    requires g.Valid() && g.H() == 0 && HoldsInput(x, g) && ic < g.IC && a > 0 && b > 0 && a * b == g.dil
    requires x !in {plane, tmpIn, tmpOut, y} && plane !in {tmpIn, tmpOut, y} && tmpIn != y && tmpOut != y
    requires plane.Length0 == g.dil && plane.Length1 == g.J() && o < y.Length0 && y.Length1 == g.L
    requires tmpIn.Length0 == a == tmpOut.Length0 && tmpIn.Length1 == Columns(g.L, a) == tmpOut.Length1
    modifies plane, tmpIn, tmpOut, y
    ensures forall p :: 0 <= p < g.L ==> y[o, p] == x[ic, p]
  {
    hide Quot;
    hide Rem;
    hide At;
    hide Columns;
    Clear(plane, g.zero);
    ghost var last := tmpIn.Length1 - 1;
    ghost var cells := seq(a, r requires 0 <= r < a reads tmpIn => if last >= 0 then tmpIn[r, last] else g.zero);
    ghost var stale: int -> F := r => if 0 <= r < a then cells[r] else g.zero;
    TwoPasses(x, ic, plane, tmpIn, g, a, b, stale);
    UnphaseTwoPasses(plane, y, o, tmpOut, g.L, g.dil, a, b);
    forall p: nat | p < g.L ensures Woven(plane, g.L, g.dil, p) == g.x(ic, p) {
      GatherFits(Split(0, 1, 0, g.L, g.dil), p);
      AtOf(p, g.dil);
    }
  }

  /** Gathering in two passes and splitting in two gives every cell that holds an element back. */
  method BackAndPhase<F(!new)>(plane: array2<F>, y: array2<F>, tmpOut: array2<F>, tmpIn: array2<F>, again: array2<F>,
                               g: Problem<F>, a: nat, b: nat)
    requires g.Valid() && g.H() == 0 && g.IC == 1 && a > 0 && b > 0 && a * b == g.dil
    requires plane !in {y, tmpOut, tmpIn, again} && y !in {tmpOut, tmpIn, again} && again !in {tmpIn, tmpOut}
    requires plane.Length0 == g.dil && plane.Length1 == g.J() && y.Length0 == 1 && y.Length1 == g.L
    requires again.Length0 == g.dil && again.Length1 == g.J()
    requires tmpIn.Length0 == a == tmpOut.Length0 && tmpIn.Length1 == Columns(g.L, a) == tmpOut.Length1
    requires forall p :: 0 <= p < g.L ==> g.x(0, p) == Woven(plane, g.L, g.dil, p)
    modifies y, tmpOut, tmpIn, again
    ensures forall r, j :: 0 <= r < g.dil && 0 <= j < plane.Length1 && At(j, g.dil, r) < g.L ==>
      again[r, j] == plane[r, j]
  {
    hide Quot;
    hide Rem;
    hide At;
    hide Columns;
    UnphaseTwoPasses(plane, y, 0, tmpOut, g.L, g.dil, a, b);
    Clear(again, g.zero);
    ghost var last := tmpIn.Length1 - 1;
    ghost var cells := seq(a, r requires 0 <= r < a reads tmpIn => if last >= 0 then tmpIn[r, last] else g.zero);
    ghost var stale: int -> F := r => if 0 <= r < a then cells[r] else g.zero;
    TwoPasses(y, 0, again, tmpIn, g, a, b, stale);
    forall r, j | 0 <= r < g.dil && 0 <= j < plane.Length1 && At(j, g.dil, r) < g.L ensures again[r, j] == plane[r, j] {
      OfAt(j, g.dil, r);
    }
  }

  // --- the whole path ---

  /** No tap of an output reads what an earlier call left in the scratch; the one-pass forms have no scratch. */
  ghost predicate NoLeftoverRead<F(!new)>(g: Problem<F>, stale: int -> F)
    requires g.dil > 0
  {
    TwoPass(g.dil) ==> Harmless(g, stale, PhaseFactors(g.dil).0)
  }

  /** The last column of the scratch, its last cell at the highest. */
  function LastCell(L: nat, a: nat): int
    requires a > 0
  {
    At(Columns(L, a) - 1, a, a - 1)
  }

  lemma HarmlessAlways<F(!new)>(g: Problem<F>, stale: int -> F, a: nat)
    requires a > 0 && (g.L % a == 0 || g.KW == 1 || LastCell(g.L, a) < g.dil)
    ensures Harmless(g, stale, a)
  {
    forall r1 | 0 <= r1 < a && Columns(g.L, a) > 0 && At(Columns(g.L, a) - 1, a, r1) >= g.L
      ensures stale(r1) == g.zero || g.KW == 1 || At(Columns(g.L, a) - 1, a, r1) < g.dil
    {
      if g.L % a == 0 { AllWritten(g.L, a, r1); }
    }
  }

  lemma HarmfulOnes<F(!new)>(g: Problem<F>, a: nat, one: F)
    requires a > 0 && one != g.zero && g.L % a != 0 && g.KW != 1 && LastCell(g.L, a) >= g.dil
    ensures !Harmless(g, _ => one, a)
  {
    var na := Columns(g.L, a);
    var stale: int -> F := _ => one;
    Index.DivMod(g.L, a);
    Index.CeilDiv(g.L, a);
    Index.MulSub(na, 1, a);
    if na * a == g.L { Index.ModMultiple(na, a); }
    assert na > 0 && At(na - 1, a, a - 1) >= g.L && stale(a - 1) != g.zero;
  }

  /**
   No tap reads a leftover, whatever the scratch held, if and only if the split is in one pass, or its first factor
   divides the length, or there is one tap, or the scratch ends before one dilation.
   */
  lemma NeverReadsIff<F(!new)>(g: Problem<F>, one: F)
    requires g.dil > 0 && one != g.zero
    ensures (forall stale: int -> F :: NoLeftoverRead(g, stale)) <==>
      var a := PhaseFactors(g.dil).0;
      !TwoPass(g.dil) || g.L % a == 0 || g.KW == 1 || LastCell(g.L, a) < g.dil
  {
    hide Harmless;
    hide LastCell;
    hide TwoPass;
    hide PhaseFactors;
    var a := PhaseFactors(g.dil).0;
    if !TwoPass(g.dil) || g.L % a == 0 || g.KW == 1 || LastCell(g.L, a) < g.dil {
      forall stale: int -> F ensures NoLeftoverRead(g, stale) {
        if TwoPass(g.dil) { HarmlessAlways(g, stale, a); }
      }
    } else {
      HarmfulOnes(g, a, one);
      assert !NoLeftoverRead(g, _ => one);
    }
  }

  /** a divides the length, or one tap is all there is, or the length up to a multiple of a is within a dilation. */
  predicate NoLeftover<F(!new)>(g: Problem<F>, a: nat)
    requires a > 0
  {
    g.L % a == 0 || g.KW == 1 || (g.L + a - 1) / a * a <= g.dil
  }

  lemma LastCellIs<F(!new)>(g: Problem<F>, a: nat)
    requires a > 0
    ensures LastCell(g.L, a) < g.dil <==> (g.L + a - 1) / a * a <= g.dil
  {
    Index.MulSub(Columns(g.L, a), 1, a);
  }

  /** By dilation: 6 and 8 are split by two first, 9 by three, 12 and 16 by four, and no other in two passes. */
  lemma KnownDilations<F(!new)>(g: Problem<F>, one: F)
    requires g.dil > 0 && one != g.zero
    ensures (forall stale: int -> F :: NoLeftoverRead(g, stale)) <==>
      && (g.dil == 6 || g.dil == 8 ==> NoLeftover(g, 2))
      && (g.dil == 9 ==> NoLeftover(g, 3))
      && (g.dil == 12 || g.dil == 16 ==> NoLeftover(g, 4))
  {
    hide NoLeftoverRead;
    hide LastCell;
    NeverReadsIff(g, one);
    LastCellIs(g, 2);
    LastCellIs(g, 3);
    LastCellIs(g, 4);
  }

  /**
   The whole phase-major path, for every length, odd kernel, dilation and vector width and whatever the scratch of a
   two-pass split held: every output is the dense sum over the streams, and it is the dilated convolution where no tap
   reads a leftover. `ReadsIff` says that this is exactly when the reads are right, `AlwaysRightIff` when it needs no
   condition at all.
   */
  method PhaseMajorConv<F(!new)>(x: array2<F>, xp: seq<array2<F>>, yp: seq<array2<F>>, y: array2<F>, tmpIn: array2<F>,
                                 tmpOut: array2<F>,
                                 g: Problem<F>, P: nat, ghost stale: int -> F, ghost V: (int, int, int) -> F)
    requires g.Valid() && g.dil > 0 && HoldsInput(x, g) && P > 0
    requires |xp| == g.IC && Distinct(xp) && x !in xp && tmpIn !in xp && x != tmpIn
    requires forall ic :: 0 <= ic < g.IC ==> xp[ic].Length0 == g.dil && xp[ic].Length1 == g.JP()
    requires Planes(yp, xp, g.OC, g.dil, g.J()) && y !in yp && tmpOut !in yp && y != tmpOut && y.Length0 == g.OC
      && y.Length1 == g.L
    requires Scratch(tmpIn, g, stale) && forall i, r, c :: V(i, r, c) == Stream(g, stale, i, r, c)
    requires TwoPass(g.dil) ==>
      tmpOut.Length0 == PhaseFactors(g.dil).0 && tmpOut.Length1 == Columns(g.L, PhaseFactors(g.dil).0)
    modifies xp, yp, y, tmpIn, tmpOut
    ensures forall o, p :: 0 <= o < g.OC && 0 <= p < g.L ==> y[o, p] == Val(g, V, o, Rem(p, g.dil), Quot(p, g.dil))
    ensures NoLeftoverRead(g, stale) ==> forall o, p :: 0 <= o < g.OC && 0 <= p < g.L ==> y[o, p] == g.Out(o, p)
  {
    hide Quot;
    hide Rem;
    hide Columns;
    hide Stream;
    hide HoldsInput;
    hide Scratch;
    hide HoldsStream;
    hide Val;
    hide Problem.Out;
    hide NoLeftoverRead;
    PadInputPhase(x, xp, tmpIn, g, stale, V);
    ConvPhases(xp, yp, g, V, P);
    UnphaseOutput(yp, y, tmpOut, g, V);
    if NoLeftoverRead(g, stale) {
      forall o: nat, p: nat | o < g.OC && p < g.L ensures Val(g, V, o, Rem(p, g.dil), Quot(p, g.dil)) == g.Out(o, p) {
        OutputRight(g, stale, V, o, p);
      }
    }
  }

  /** An output no tap of which reads a leftover is the dilated convolution. */
  lemma OutputRight<F(!new)>(g: Problem<F>, stale: int -> F, V: (int, int, int) -> F, o: nat, p: nat)
    requires g.Valid() && g.dil > 0 && NoLeftoverRead(g, stale) && p < g.L
    requires forall i, r, c :: V(i, r, c) == Stream(g, stale, i, r, c)
    ensures Val(g, V, o, Rem(p, g.dil), Quot(p, g.dil)) == g.Out(o, p)
  {
    hide Quot;
    hide Rem;
    hide Columns;
    hide Staged;
    hide At;
    hide Dense;
    hide Problem.Sum;
    hide Problem.Phase;
    hide Harmless;
    var r, j := Rem(p, g.dil), Quot(p, g.dil);
    GatherFits(Split(0, 1, 0, g.L, g.dil), p);
    AtOf(p, g.dil);
    forall i, c | 0 <= i < g.IC && j <= c < j + g.KW ensures V(i, r, c) == g.Phase(i, r, c) {
      if TwoPass(g.dil) {
        var (a, b) := PhaseFactors(g.dil);
        HarmlessReads(g, stale, a, b, i, r, j, c - j);
        assert TapRight(g, stale, a, i, r, j, c - j) && j + (c - j) == c;
      }
    }
    DenseIsDilated(g, V, o, r, j, g.IC, 0);
  }

  /** One channel of seven zeros, three taps of weight one at dilation 6. */
  function SevenZeros(): Problem<real>
  {
    Problem(0.0, (a: real, w: real, v: real) => a + w * v, (ic, q) => 0.0, (ic, kx, oc) => 1.0, 1, 4, 7, 3, 6)
  }

  /** Its streams from a scratch with 5 left in it. */
  function LeftoverStreams(): (int, int, int) -> real { (i, r, c) => Stream(SevenZeros(), (r1: int) => 5.0, i, r, c) }

  lemma LeftoverAt(c: nat)
    requires c < 3
    ensures LeftoverStreams()(0, 1, c) == if c == 2 then 5.0 else 0.0
  {
    assert Columns(7, 2) == 4;
    assert PhaseFactors(6) == (2, 3);
    assert At(c - 1, 6, 1) == 6 * (c - 1) + 1;
  }

  lemma {:induction false} ZerosSumToZero(oc: int, p: int, ic: nat, kx: nat)
    ensures SevenZeros().Sum(oc, p, ic, kx) == 0.0
    decreases ic, kx
  {
    if kx > 0 { ZerosSumToZero(oc, p, ic, kx - 1); }
    else if ic > 0 { ZerosSumToZero(oc, p, ic - 1, 3); }
  }

  lemma LeftoverSum()
    ensures Dense(SevenZeros(), LeftoverStreams(), 0, 1, 0, 1, 0) == 5.0
  {
    hide LeftoverStreams;
    LeftoverAt(0);
    LeftoverAt(1);
    LeftoverAt(2);
    var g, V := SevenZeros(), LeftoverStreams();
    assert Dense(g, V, 0, 1, 0, 0, 0) == 0.0;
    assert Dense(g, V, 0, 1, 0, 0, 1) == 0.0;
    assert Dense(g, V, 0, 1, 0, 0, 2) == 0.0;
    assert Dense(g, V, 0, 1, 0, 0, 3) == 5.0;
  }

  /**
   A scratch with something left in it gives a wrong output. The split by 2 leaves the last cell of row 1 alone; it
   stands at position 7, just past the end, where output 1's last tap reads.
   */
  lemma StaleOutput()
    ensures var g := SevenZeros(); g.Valid() && TwoPass(g.dil) && 1 < g.L && g.Out(0, 1) == 0.0
                                   && Val(g, LeftoverStreams(), 0, Rem(1, g.dil), Quot(1, g.dil)) == 5.0
  {
    hide LeftoverStreams;
    hide Dense;
    hide Problem.Sum;
    ZerosSumToZero(0, 1, 1, 0);
    LeftoverSum();
    assert Rem(1, 6) == 1 && Quot(1, 6) == 0;
  }

  /** The same layer over eight positions, a 5 at the last. */
  function EightWithFive(): Problem<real>
  {
    Problem(0.0, (a: real, w: real, v: real) => a + w * v, (ic, q) => if q == 7 then 5.0 else 0.0, (ic, kx, oc) => 1.0,
            1, 4, 8, 3, 6)
  }

  lemma EightShape()
    ensures var g := EightWithFive();
      g.Valid() && g.H() == 1 && Columns(8, 2) == 4 && Columns(7, 2) == 4 && PhaseFactors(6) == (2, 3)
    ensures At(3, 2, 1) == 7 && At(3, 2, 0) == 6
  {
  }

  /** A call on eight positions leaves in the scratch what the next call, on seven, finds there. */
  method EarlierCall(x: array2<real>, base: array2<real>, tmp: array2<real>)
    requires HoldsInput(x, EightWithFive()) && x !in {base, tmp} && base != tmp && base.Length0 == 6
      && base.Length1 == EightWithFive().JP()
    requires tmp.Length0 == 2 && tmp.Length1 == 4
    modifies base, tmp
    ensures Scratch(tmp, SevenZeros(), (r1: int) => 5.0)
  {
    hide Problem.J;
    hide Problem.JP;
    EightShape();
    ghost var stale: int -> real := r => 0.0;
    Clear(base, 0.0);
    TwoPasses(x, 0, base, tmp, EightWithFive(), 2, 3, stale);
    assert tmp[1, 3] == 5.0;
  }
}
