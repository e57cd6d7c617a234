/** scripts/bench66.cpp: panel packing, the 4 x 8 tile, and the blocked schedule one thread runs over them. */
module PackedGemm {
  import Index
  import opened Bounds

  /** Float arithmetic, uninterpreted: equal results are equal bit patterns. */
  datatype Arith<!F> = Arith(zero: F, fma: (F, F, F) -> F)

  /** A constant matrix by row and column. */
  type Matrix<!F> = (int, int) -> F

  /** Output (m, n) accumulated over contraction indices [k0, k1), in order, from `s`. */
  function ChainFrom<F>(A: Arith<F>, X: Matrix<F>, W: Matrix<F>, m: int, n: int, s: F, k0: int, k1: int): F
    decreases k1 - k0
  {
    if k1 <= k0 then s else A.fma(ChainFrom(A, X, W, m, n, s, k0, k1 - 1), W(n, k1 - 1), X(m, k1 - 1))
  }

  /** The definition of an output: the k-ordered fma chain from zero. */
  function Chain<F>(A: Arith<F>, X: Matrix<F>, W: Matrix<F>, m: int, n: int, k: int): F
  {
    ChainFrom(A, X, W, m, n, A.zero, 0, k)
  }

  /** Resuming a stored accumulator continues the chain. */
  lemma {:induction false} ChainResume<F>(A: Arith<F>, X: Matrix<F>, W: Matrix<F>, m: int, n: int, s: F, a: int, b: int,
                                          c: int)
    requires a <= b <= c
    ensures ChainFrom(A, X, W, m, n, ChainFrom(A, X, W, m, n, s, a, b), b, c) == ChainFrom(A, X, W, m, n, s, a, c)
    decreases c - b
  {
    if b < c { ChainResume(A, X, W, m, n, s, a, b, c - 1); }
  }

  // --- packing ---

  /** Weight row n, or zeros past the last row. */
  function Padded<F>(A: Arith<F>, W: Matrix<F>, N: int, n: int, k: int): F { if n < N then W(n, k) else A.zero }

  /** The packed panel of rows n..n + 7 over `kc` contraction indices from k0: for each k, the eight rows' values. */
  function Panel<F>(A: Arith<F>, W: Matrix<F>, N: int, n: int, k0: int, kc: nat): (p: seq<F>)
    ensures |p| == 8 * kc
  {
    seq(8 * kc, i => Padded(A, W, N, n + i % 8, k0 + i / 8))
  }

  // vtrnq_f32, vget_low_f32, vget_high_f32, vcombine_f32 on four lanes
  function Trn0<F>(a: seq<F>, b: seq<F>): (r: seq<F>) requires |a| == |b| == 4 { [a[0], b[0], a[2], b[2]] }
  function Trn1<F>(a: seq<F>, b: seq<F>): (r: seq<F>) requires |a| == |b| == 4 { [a[1], b[1], a[3], b[3]] }
  function Combine<F>(lo: seq<F>, hi: seq<F>): (r: seq<F>) requires |lo| == |hi| == 2 { lo + hi }

  /** The shuffle of pack_panels transposes four rows of four. */
  function Transpose4<F>(q: seq<seq<F>>): (c: seq<seq<F>>)
    requires |q| == 4 && forall i :: 0 <= i < 4 ==> |q[i]| == 4
    ensures |c| == 4 && forall i :: 0 <= i < 4 ==> |c[i]| == 4
    ensures forall i, j :: 0 <= i < 4 && 0 <= j < 4 ==> c[i][j] == q[j][i]
  {
    var t010, t011 := Trn0(q[0], q[1]), Trn1(q[0], q[1]);
    var t230, t231 := Trn0(q[2], q[3]), Trn1(q[2], q[3]);
    [Combine(t010[..2], t230[..2]), Combine(t011[..2], t231[..2]),
     Combine(t010[2..], t230[2..]), Combine(t011[2..], t231[2..])]
  }

  method Store4<F>(out: array<F>, o: nat, v: seq<F>)
    requires o + 4 <= out.Length && |v| == 4
    modifies out
    ensures forall i :: o <= i < o + 4 ==> out[i] == v[i - o]
    ensures forall i :: 0 <= i < out.Length && !(o <= i < o + 4) ==> out[i] == old(out[i])
  {
    out[o], out[o + 1], out[o + 2], out[o + 3] := v[0], v[1], v[2], v[3];
  }

  /** Four columns of rows n + 4 h .. n + 4 h + 3, loaded and transposed. */
  method LoadQuad<F>(W: Matrix<F>, n: int, k: int) returns (c: seq<seq<F>>)
    ensures |c| == 4
      && forall r :: 0 <= r < 4 ==> c[r] == [W(n, k + r), W(n + 1, k + r), W(n + 2, k + r), W(n + 3, k + r)]
  {
    var q := seq(4, j => [W(n + j, k), W(n + j, k + 1), W(n + j, k + 2), W(n + j, k + 3)]);
    c := Transpose4(q);
  }

  /** Four lines of eight with half h of every line replaced by the four rows of `c`. */
  function Merge<F>(line: seq<F>, c: seq<seq<F>>, h: nat): (r: seq<F>)
    requires |line| == 32 && |c| == 4 && forall i :: 0 <= i < 4 ==> |c[i]| == 4
    ensures |r| == 32
  {
    seq(32, i requires 0 <= i < 32 => if (i % 8) / 4 == h then c[i / 8][i % 4] else line[i])
  }

  method StoreQuad<F>(out: array<F>, o: nat, h: nat, c: seq<seq<F>>)
    requires o + 32 <= out.Length && h < 2 && |c| == 4 && forall r :: 0 <= r < 4 ==> |c[r]| == 4
    modifies out
    ensures out[o..o + 32] == Merge(old(out[o..o + 32]), c, h)
    ensures forall i :: 0 <= i < out.Length && !(o <= i < o + 32) ==> out[i] == old(out[i])
  {
    hide Merge;
    ghost var was := out[o..o + 32];
    Store4(out, o + 4 * h, c[0]);
    Store4(out, o + 8 + 4 * h, c[1]);
    Store4(out, o + 16 + 4 * h, c[2]);
    Store4(out, o + 24 + 4 * h, c[3]);
    ghost var s := out[o..o + 32];
    MergedLine(s, was, c, h);
  }

  /** Four runs of four in place and the rest as it was is the merge. */
  lemma MergedLine<F>(s: seq<F>, was: seq<F>, c: seq<seq<F>>, h: nat)
    requires |s| == |was| == 32 && h < 2 && |c| == 4 && forall r :: 0 <= r < 4 ==> |c[r]| == 4
    requires forall i :: 4 * h <= i < 4 * h + 4 ==> s[i] == c[0][i - 4 * h]
    requires forall i :: 8 + 4 * h <= i < 12 + 4 * h ==> s[i] == c[1][i - (8 + 4 * h)]
    requires forall i :: 16 + 4 * h <= i < 20 + 4 * h ==> s[i] == c[2][i - (16 + 4 * h)]
    requires forall i :: 24 + 4 * h <= i < 28 + 4 * h ==> s[i] == c[3][i - (24 + 4 * h)]
    requires forall i :: 0 <= i < 32 && !(4 * h <= i < 4 * h + 4) && !(8 + 4 * h <= i < 12 + 4 * h)
                         && !(16 + 4 * h <= i < 20 + 4 * h) && !(24 + 4 * h <= i < 28 + 4 * h)
                         ==> s[i] == was[i]
    ensures s == Merge(was, c, h)
  {
    forall i | 0 <= i < 32 ensures s[i] == if (i % 8) / 4 == h then c[i / 8][i % 4] else was[i] {
      var r, l := i / 8, i % 4;
      assert i == 8 * r + 4 * (i % 8 / 4) + l && r < 4;
    }
  }

  /** Four k-steps of a whole panel. */
  method PackFour<F>(A: Arith<F>, W: Matrix<F>, N: int, n: int, k: int, out: array<F>, o: nat)
    requires o + 32 <= out.Length && n + 8 <= N
    modifies out
    ensures out[o..o + 32] == Panel(A, W, N, n, k, 4)
    ensures forall i :: 0 <= i < out.Length && !(o <= i < o + 32) ==> out[i] == old(out[i])
  {
    hide Panel;
    hide Merge;
    var c := LoadQuad(W, n, k);
    var d := LoadQuad(W, n + 4, k);
    MergedIsPanel(A, W, N, n, k, c, d, out[o..o + 32]);
    StoreQuad(out, o, 0, c);
    StoreQuad(out, o, 1, d);
  }

  lemma MergedIsPanel<F>(A: Arith<F>, W: Matrix<F>, N: int, n: int, k: int, c: seq<seq<F>>, d: seq<seq<F>>, s: seq<F>)
    requires |c| == |d| == 4 && |s| == 32 && n + 8 <= N
    requires forall r :: 0 <= r < 4 ==> c[r] == [W(n, k + r), W(n + 1, k + r), W(n + 2, k + r), W(n + 3, k + r)]
    requires forall r :: 0 <= r < 4 ==> d[r] == [W(n + 4, k + r), W(n + 5, k + r), W(n + 6, k + r), W(n + 7, k + r)]
    ensures Merge(Merge(s, c, 0), d, 1) == Panel(A, W, N, n, k, 4)
  {
    var t := Merge(Merge(s, c, 0), d, 1);
    forall i: nat | i < 32 ensures t[i] == W(n + i % 8, k + i / 8) {
      var r, j: nat := i / 8, i % 8;
      assert t[i] == if j < 4 then c[r][i % 4] else d[r][i % 4];
      assert i % 4 == if j < 4 then j else j - 4;
    }
  }

  lemma PanelExtend<F>(A: Arith<F>, W: Matrix<F>, N: int, n: int, k0: int, k: nat, more: nat)
    ensures Panel(A, W, N, n, k0, k + more) == Panel(A, W, N, n, k0, k) + Panel(A, W, N, n, k0 + k, more)
  {
    forall i: nat | 8 * k <= i < 8 * (k + more)
      ensures i % 8 == (i - 8 * k) % 8 && i / 8 == k + (i - 8 * k) / 8
    {
    }
  }

  /** One k-step of a panel, rows past the last as zeros. */
  method PackOne<F>(A: Arith<F>, W: Matrix<F>, N: int, n: int, k: int, out: array<F>, o: nat)
    requires o + 8 <= out.Length
    modifies out
    ensures out[o..o + 8] == Panel(A, W, N, n, k, 1)
    ensures forall i :: 0 <= i < out.Length && !(o <= i < o + 8) ==> out[i] == old(out[i])
  {
    for j := 0 to 8
      invariant forall i :: o <= i < o + j ==> out[i] == Padded(A, W, N, n + (i - o), k)
      invariant forall i :: 0 <= i < out.Length && !(o <= i < o + 8) ==> out[i] == old(out[i])
    {
      out[o + j] := if n + j < N then W(n + j, k) else A.zero;
    }
  }

  /** A panel being filled: the first k steps are in place and nothing outside it has moved. */
  ghost predicate Filling<F>(A: Arith<F>, W: Matrix<F>, N: int, n: int, k0: int, k: nat, kc: nat, o: nat, was: seq<F>,
                             s: seq<F>)
    requires k <= kc && o + 8 * kc <= |s| && |was| == |s|
  {
    && s[o..o + 8 * k] == Panel(A, W, N, n, k0, k)
    && forall i :: 0 <= i < |s| && !(o <= i < o + 8 * kc) ==> s[i] == was[i]
  }

  lemma FillMore<F>(A: Arith<F>, W: Matrix<F>, N: int, n: int, k0: int, k: nat, more: nat, kc: nat, o: nat,
                    was: seq<F>, s: seq<F>, t: seq<F>)
    requires k + more <= kc && o + 8 * kc <= |s| && |was| == |s| == |t|
    requires Filling(A, W, N, n, k0, k, kc, o, was, s)
    requires t[o + 8 * k..o + 8 * k + 8 * more] == Panel(A, W, N, n, k0 + k, more)
    requires forall i :: 0 <= i < |s| && !(o + 8 * k <= i < o + 8 * k + 8 * more) ==> t[i] == s[i]
    ensures Filling(A, W, N, n, k0, k + more, kc, o, was, t)
  {
    hide Panel;
    PanelExtend(A, W, N, n, k0, k, more);
    assert t[o..o + 8 * k] == s[o..o + 8 * k];
    assert t[o..o + 8 * (k + more)] == t[o..o + 8 * k] + t[o + 8 * k..o + 8 * k + 8 * more];
  }

  lemma FillStart<F>(A: Arith<F>, W: Matrix<F>, N: int, n: int, k0: int, kc: nat, o: nat, was: seq<F>)
    requires o + 8 * kc <= |was|
    ensures Filling(A, W, N, n, k0, 0, kc, o, was, was)
  {
    assert was[o..o + 8 * 0] == [];
  }

  lemma FillDone<F>(A: Arith<F>, W: Matrix<F>, N: int, n: int, k0: int, kc: nat, o: nat, was: seq<F>, s: seq<F>)
    requires o + 8 * kc <= |s| && |was| == |s| && Filling(A, W, N, n, k0, kc, kc, o, was, s)
    ensures s[o..o + 8 * kc] == Panel(A, W, N, n, k0, kc)
      && forall i :: 0 <= i < |s| && !(o <= i < o + 8 * kc) ==> s[i] == was[i]
  {
  }

  /** The vector part and the scalar remainder of one panel. */
  method PackRows<F>(A: Arith<F>, W: Matrix<F>, N: int, n: int, k0: int, kc: nat, out: array<F>, o: nat)
    requires o + 8 * kc <= out.Length
    modifies out
    ensures out[o..o + 8 * kc] == Panel(A, W, N, n, k0, kc)
    ensures forall i :: 0 <= i < out.Length && !(o <= i < o + 8 * kc) ==> out[i] == old(out[i])
  {
    hide Panel;
    hide Filling;
    ghost var was := out[..];
    FillStart(A, W, N, n, k0, kc, o, was);
    var k := 0;
    if n + 8 <= N {
      while k + 4 <= kc
        invariant 0 <= k <= kc && Filling(A, W, N, n, k0, k, kc, o, was, out[..])
      {
        ghost var s := out[..];
        PackFour(A, W, N, n, k0 + k, out, o + 8 * k);
        FillMore(A, W, N, n, k0, k, 4, kc, o, was, s, out[..]);
        k := k + 4;
      }
    }
    while k < kc
      invariant 0 <= k <= kc && Filling(A, W, N, n, k0, k, kc, o, was, out[..])
    {
      ghost var s := out[..];
      PackOne(A, W, N, n, k0 + k, out, o + 8 * k);
      FillMore(A, W, N, n, k0, k, 1, kc, o, was, s, out[..]);
      k := k + 1;
    }
    FillDone(A, W, N, n, k0, kc, o, was, out[..]);
  }

  /** Floats one panel occupies: an optional zero bias line, then kc lines of eight. */
  function PanelStride(kc: nat, bias: bool): (s: nat) { kc * 8 + (if bias then 8 else 0) }

  /** One panel as the schedule packs it, the leading bias line included. */
  function BiasedPanel<F>(A: Arith<F>, W: Matrix<F>, N: int, n: int, k0: int, kc: nat, bias: bool): (p: seq<F>)
    ensures |p| == PanelStride(kc, bias)
  {
    (if bias then seq(8, _ => A.zero) else []) + Panel(A, W, N, n, k0, kc)
  }

  method PackPanel<F>(A: Arith<F>, W: Matrix<F>, N: int, n: int, k0: int, kc: nat, bias: bool, out: array<F>, o: nat)
    requires o + PanelStride(kc, bias) <= out.Length
    modifies out
    ensures out[o..o + PanelStride(kc, bias)] == BiasedPanel(A, W, N, n, k0, kc, bias)
    ensures forall i :: 0 <= i < out.Length && !(o <= i < o + PanelStride(kc, bias)) ==> out[i] == old(out[i])
  {
    hide Panel;
    if bias {
      for j := 0 to 8
        invariant forall i :: o <= i < o + j ==> out[i] == A.zero
        invariant forall i :: 0 <= i < out.Length && !(o <= i < o + 8) ==> out[i] == old(out[i])
      {
        out[o + j] := A.zero;
      }
      PackRows(A, W, N, n, k0, kc, out, o + 8);
      assert out[o..o + PanelStride(kc, bias)] == out[o..o + 8] + out[o + 8..o + 8 + 8 * kc];
    } else {
      PackRows(A, W, N, n, k0, kc, out, o);
    }
  }

  /** pack_panels: one panel per eight rows of [n0, n1), one after the other. */
  method PackPanels<F>(A: Arith<F>, W: Matrix<F>, N: int, n0: int, npan: nat, k0: int, kc: nat, bias: bool,
                       out: array<F>)
    requires npan * PanelStride(kc, bias) <= out.Length
    modifies out
    ensures forall p: nat :: p < npan ==> PanelAt(A, W, N, n0 + 8 * p, k0, kc, bias, out[..], p)
  {
    hide BiasedPanel;
    hide PanelStride;
    var o := 0;
    for p := 0 to npan
      invariant o == p * PanelStride(kc, bias)
      invariant forall q: nat :: q < p ==> PanelAt(A, W, N, n0 + 8 * q, k0, kc, bias, out[..], q)
    {
      Index.MulAdd(p, 1, PanelStride(kc, bias));
      Index.MulMono(p + 1, npan, PanelStride(kc, bias));
      ghost var before := out[..];
      PackPanel(A, W, N, n0 + 8 * p, k0, kc, bias, out, o);
      forall q: nat | q < p ensures PanelAt(A, W, N, n0 + 8 * q, k0, kc, bias, out[..], q) {
        PanelKept(A, W, N, n0 + 8 * q, k0, kc, bias, before, out[..], q, p);
      }
      o := o + PanelStride(kc, bias);
    }
  }

  /** Slot p of a packed buffer holds the panel of rows n..n + 7. */
  ghost predicate PanelAt<F>(A: Arith<F>, W: Matrix<F>, N: int, n: int, k0: int, kc: nat, bias: bool, buf: seq<F>,
                             p: nat)
  {
    var s := PanelStride(kc, bias);
    0 <= p * s && p * s + s <= |buf| && buf[p * s..p * s + s] == BiasedPanel(A, W, N, n, k0, kc, bias)
  }

  lemma PanelKept<F>(A: Arith<F>, W: Matrix<F>, N: int, n: int, k0: int, kc: nat, bias: bool,
                     a: seq<F>, b: seq<F>, q: nat, p: nat)
    requires PanelAt(A, W, N, n, k0, kc, bias, a, q) && |a| == |b| && q < p
    requires forall i :: 0 <= i < |b| && i < p * PanelStride(kc, bias) ==> b[i] == a[i]
    ensures PanelAt(A, W, N, n, k0, kc, bias, b, q)
  {
    hide BiasedPanel;
    hide PanelStride;
    var s := PanelStride(kc, bias);
    Index.MulMono(q + 1, p, s);
    Index.MulAdd(q, 1, s);
    assert b[q * s..q * s + s] == a[q * s..q * s + s];
  }

  // --- the tile ---

  /** The row a tile's register row i stands for: missing rows alias the last real one. */
  function RowOf(m: int, mr: nat, i: nat): int { if i < mr then m + i else m + mr - 1 }

  /** The value accumulation resumes from. */
  function Resume<F>(A: Arith<F>, y: F, accumulate: bool): F { if accumulate then y else A.zero }

  /** Register row i of a rank-one update: eight lanes. */
  method RankOneRow<F>(A: Arith<F>, acc: array2<F>, i: nat, b: seq<F>, x: F)
    requires acc.Length0 == 4 && acc.Length1 == 8 && i < 4 && |b| == 8
    modifies acc
    ensures forall j :: 0 <= j < 8 ==> acc[i, j] == A.fma(old(acc[i, j]), b[j], x)
    ensures forall q, j :: 0 <= q < 4 && q != i && 0 <= j < 8 ==> acc[q, j] == old(acc[q, j])
  {
    for j := 0 to 8
      invariant forall q, r :: 0 <= q < 4 && 0 <= r < 8 ==>
        acc[q, r] == if q == i && r < j then A.fma(old(acc[q, r]), b[r], x) else old(acc[q, r])
    {
      acc[i, j] := A.fma(acc[i, j], b[j], x);
    }
  }

  /** The 32 accumulators as a value. */
  ghost function Snapshot<F>(acc: array2<F>): (v: seq<F>)
    requires acc.Length0 == 4 && acc.Length1 == 8
    reads acc
    ensures |v| == 32 && forall i, j :: 0 <= i < 4 && 0 <= j < 8 ==> Frozen(v, acc[0, 0])(i, j) == acc[i, j]
  {
    seq(32, q requires 0 <= q < 32 reads acc => acc[q / 8, q % 8])
  }

  ghost function Frozen<F>(v: seq<F>, d: F): (int, int) -> F
  {
    (i, j) => if 0 <= 8 * i + j < |v| then v[8 * i + j] else d
  }

  /** The accumulators after contraction indices [k0, k). */
  ghost predicate AccAt<F>(A: Arith<F>, X: Matrix<F>, W: Matrix<F>, m: int, mr: nat, n: int, s: (int, int) -> F,
                           k0: int, k: int, acc: array2<F>)
    requires acc.Length0 == 4 && acc.Length1 == 8
    reads acc
  {
    forall i, j :: 0 <= i < 4 && 0 <= j < 8 ==>
      acc[i, j] == ChainFrom(A, X, W, RowOf(m, mr, i), n + j, s(i, j), k0, k)
  }

  /** One k-step of the tile: weights b[0..8] against four activations. */
  method RankOne<F>(A: Arith<F>, X: Matrix<F>, W: Matrix<F>, m: int, mr: nat, n: int, k: int, b: seq<F>, acc: array2<F>,
                    ghost s: (int, int) -> F, ghost k0: int)
    requires acc.Length0 == 4 && acc.Length1 == 8 && k0 <= k && |b| == 8
    requires forall j :: 0 <= j < 8 ==> b[j] == W(n + j, k)
    requires AccAt(A, X, W, m, mr, n, s, k0, k, acc)
    modifies acc
    ensures AccAt(A, X, W, m, mr, n, s, k0, k + 1, acc)
  {
    RankOneRow(A, acc, 0, b, X(RowOf(m, mr, 0), k));
    RankOneRow(A, acc, 1, b, X(RowOf(m, mr, 1), k));
    RankOneRow(A, acc, 2, b, X(RowOf(m, mr, 2), k));
    RankOneRow(A, acc, 3, b, X(RowOf(m, mr, 3), k));
  }

  /** Line k of a panel is row n + j's weight k in lane j. */
  lemma PanelLine<F>(A: Arith<F>, W: Matrix<F>, N: int, n: int, k0: int, kc: nat, k: nat, pk: seq<F>, p: nat, b: seq<F>)
    requires n + 8 <= N && k < kc && p + 8 * kc <= |pk| && pk[p..p + 8 * kc] == Panel(A, W, N, n, k0, kc)
    requires b == pk[p + 8 * k..p + 8 * k + 8]
    ensures forall j :: 0 <= j < 8 ==> b[j] == W(n + j, k0 + k)
  {
    forall j | 0 <= j < 8 ensures b[j] == W(n + j, k0 + k) {
      var i := 8 * k + j;
      assert pk[p + i] == pk[p..p + 8 * kc][i] && i % 8 == j && i / 8 == k;
    }
  }

  method LoadAcc<F>(A: Arith<F>, m: int, mr: nat, Y: array2<F>, n: nat, accumulate: bool, acc: array2<F>)
    requires acc.Length0 == 4 && acc.Length1 == 8 && acc != Y
    requires 0 <= m && 1 <= mr <= 4 && m + mr <= Y.Length0 && n + 8 <= Y.Length1
    modifies acc
    ensures forall i, j :: 0 <= i < 4 && 0 <= j < 8 ==> acc[i, j] == Resume(A, Y[RowOf(m, mr, i), n + j], accumulate)
  {
    for i := 0 to 4
      invariant forall q, j :: 0 <= q < i && 0 <= j < 8 ==>
        acc[q, j] == Resume(A, Y[RowOf(m, mr, q), n + j], accumulate)
    {
      for j := 0 to 8
        invariant forall q, r :: 0 <= q < i && 0 <= r < 8 ==>
          acc[q, r] == Resume(A, Y[RowOf(m, mr, q), n + r], accumulate)
        invariant forall r :: 0 <= r < j ==> acc[i, r] == Resume(A, Y[RowOf(m, mr, i), n + r], accumulate)
      {
        acc[i, j] := Resume(A, Y[RowOf(m, mr, i), n + j], accumulate);
      }
    }
  }

  method StoreRow<F>(Y: array2<F>, m: nat, n: nat, acc: array2<F>, i: nat)
    requires acc.Length0 == 4 && acc.Length1 == 8 && acc != Y && i < 4 && m < Y.Length0 && n + 8 <= Y.Length1
    modifies Y
    ensures forall r, c :: 0 <= r < Y.Length0 && 0 <= c < Y.Length1 ==>
      Y[r, c] == if r == m && n <= c < n + 8 then acc[i, c - n] else old(Y[r, c])
  {
    for j := 0 to 8
      invariant forall r, c :: 0 <= r < Y.Length0 && 0 <= c < Y.Length1 ==>
        Y[r, c] == if r == m && n <= c < n + j then acc[i, c - n] else old(Y[r, c])
    {
      Y[m, n + j] := acc[i, j];
    }
  }

  /** Highest row first, so that an aliased row ends with its own values. */
  method StoreAcc<F>(m: nat, mr: nat, Y: array2<F>, n: nat, acc: array2<F>)
    requires acc.Length0 == 4 && acc.Length1 == 8 && acc != Y
    requires 1 <= mr <= 4 && m + mr <= Y.Length0 && n + 8 <= Y.Length1
    modifies Y
    ensures forall r, c :: 0 <= r < Y.Length0 && 0 <= c < Y.Length1 ==>
      Y[r, c] == if m <= r < m + mr && n <= c < n + 8 then acc[r - m, c - n] else old(Y[r, c])
  {
    StoreRow(Y, RowOf(m, mr, 3), n, acc, 3);
    StoreRow(Y, RowOf(m, mr, 2), n, acc, 2);
    StoreRow(Y, RowOf(m, mr, 1), n, acc, 1);
    StoreRow(Y, RowOf(m, mr, 0), n, acc, 0);
  }

  /** What a block of outputs becomes: rows [m0, m1), columns [n0, n1), contraction [k0, k1). */
  function Advanced<F>(A: Arith<F>, X: Matrix<F>, W: Matrix<F>, m0: int, m1: int, n0: int, n1: int, k0: int, k1: int,
                       accumulate: bool, r: int, c: int, y: F): F
  {
    if m0 <= r < m1 && n0 <= c < n1 then ChainFrom(A, X, W, r, c, Resume(A, y, accumulate), k0, k1) else y
  }

  /** The contraction loop of the tile: four k-steps at a time, then the remainder. */
  method TileLoop<F>(A: Arith<F>, X: Matrix<F>, W: Matrix<F>, N: int, m: int, mr: nat, k0: int, pk: seq<F>, p: nat,
                     kc: nat, n: int, acc: array2<F>, ghost s: (int, int) -> F)
    requires acc.Length0 == 4 && acc.Length1 == 8 && n + 8 <= N && AccAt(A, X, W, m, mr, n, s, k0, k0, acc)
    requires p + 8 * kc <= |pk| && pk[p..p + 8 * kc] == Panel(A, W, N, n, k0, kc)
    modifies acc
    ensures AccAt(A, X, W, m, mr, n, s, k0, k0 + kc, acc)
  {
    hide Panel;
    hide AccAt;
    var k := 0;
    while k + 4 <= kc
      invariant 0 <= k <= kc && AccAt(A, X, W, m, mr, n, s, k0, k0 + k, acc)
    {
      for l := 0 to 4
        invariant AccAt(A, X, W, m, mr, n, s, k0, k0 + k + l, acc)
      {
        var b := pk[p + 8 * (k + l)..p + 8 * (k + l) + 8];
        PanelLine(A, W, N, n, k0, kc, k + l, pk, p, b);
        RankOne(A, X, W, m, mr, n, k0 + k + l, b, acc, s, k0);
      }
      k := k + 4;
    }
    while k < kc
      invariant 0 <= k <= kc && AccAt(A, X, W, m, mr, n, s, k0, k0 + k, acc)
    {
      var b := pk[p + 8 * k..p + 8 * k + 8];
      PanelLine(A, W, N, n, k0, kc, k, pk, p, b);
      RankOne(A, X, W, m, mr, n, k0 + k, b, acc, s, k0);
      k := k + 1;
    }
  }

  /** C[mr x 8] (+)= A[mr x kc] * P[kc x 8] over the packed panel at offset p of pk. */
  method Tile4x8<F(0)>(A: Arith<F>, X: Matrix<F>, W: Matrix<F>, N: int, m: nat, mr: nat, k0: int, pk: seq<F>, p: nat,
                       kc: nat, Y: array2<F>, n: nat, accumulate: bool)
    requires 1 <= mr <= 4 && m + mr <= Y.Length0 && n + 8 <= Y.Length1 && n + 8 <= N
    requires p + 8 * kc <= |pk| && pk[p..p + 8 * kc] == Panel(A, W, N, n, k0, kc)
    modifies Y
    ensures forall r, c :: 0 <= r < Y.Length0 && 0 <= c < Y.Length1 ==>
      Y[r, c] == Advanced(A, X, W, m, m + mr, n, n + 8, k0, k0 + kc, accumulate, r, c, old(Y[r, c]))
  {
    hide Panel;
    var acc := new F[4, 8];
    LoadAcc(A, m, mr, Y, n, accumulate, acc);
    ghost var s := Frozen(Snapshot(acc), A.zero);
    TileLoop(A, X, W, N, m, mr, k0, pk, p, kc, n, acc, s);
    StoreAcc(m, mr, Y, n, acc);
    forall r, c | 0 <= r < Y.Length0 && 0 <= c < Y.Length1
      ensures Y[r, c] == Advanced(A, X, W, m, m + mr, n, n + 8, k0, k0 + kc, accumulate, r, c, old(Y[r, c]))
    {
      if m <= r < m + mr && n <= c < n + 8 {
        assert RowOf(m, mr, r - m) == r && n + (c - n) == c;
        assert s(r - m, c - n) == Resume(A, old(Y[r, c]), accumulate);
      }
    }
  }

  // --- one block ---

  /** Every panel of a block is packed. */
  ghost predicate BlockPacked<F>(A: Arith<F>, W: Matrix<F>, N: int, n0: int, npan: nat, k0: int, kc: nat, pk: seq<F>)
  {
    forall p: nat :: p < npan ==> PanelAt(A, W, N, n0 + 8 * p, k0, kc, false, pk, p)
  }

  /** Panel p of a packed block against rows m..m + mr - 1. */
  method PanelTile<F(0)>(A: Arith<F>, X: Matrix<F>, W: Matrix<F>, N: int, pk: seq<F>, n0: nat, npan: nat, p: nat,
                         k0: nat, kc: nat, m: nat, mr: nat, Y: array2<F>)
    requires p < npan && BlockPacked(A, W, N, n0, npan, k0, kc, pk)
    requires 1 <= mr <= 4 && m + mr <= Y.Length0 && n0 + 8 * npan <= Y.Length1 == N
    modifies Y
    ensures forall r, c :: 0 <= r < Y.Length0 && 0 <= c < Y.Length1 ==>
      Y[r, c] == Advanced(A, X, W, m, m + mr, n0 + 8 * p, n0 + 8 * p + 8, k0, k0 + kc, k0 > 0, r, c, old(Y[r, c]))
  {
    hide Panel;
    hide Advanced;
    assert PanelAt(A, W, N, n0 + 8 * p, k0, kc, false, pk, p);
    var pstride := kc * 8;
    assert pstride == PanelStride(kc, false) && 0 <= p * pstride;
    assert [] + Panel(A, W, N, n0 + 8 * p, k0, kc) == Panel(A, W, N, n0 + 8 * p, k0, kc);
    Tile4x8(A, X, W, N, m, mr, k0, pk, p * pstride, kc, Y, n0 + 8 * p, k0 > 0);
  }

  /** Order r, one group of up to four rows: every panel of the block. */
  method RowStrip<F(0)>(A: Arith<F>, X: Matrix<F>, W: Matrix<F>, N: int, pk: seq<F>, n0: nat, npan: nat,
                        k0: nat, kc: nat, m: nat, mr: nat, Y: array2<F>)
    requires BlockPacked(A, W, N, n0, npan, k0, kc, pk)
    requires 1 <= mr <= 4 && m + mr <= Y.Length0 && n0 + 8 * npan <= Y.Length1 == N
    modifies Y
    ensures forall r, c :: 0 <= r < Y.Length0 && 0 <= c < Y.Length1 ==>
      Y[r, c] == Advanced(A, X, W, m, m + mr, n0, n0 + 8 * npan, k0, k0 + kc, k0 > 0, r, c, old(Y[r, c]))
  {
    hide BlockPacked;
    hide ChainFrom;
    for p := 0 to npan
      invariant forall r, c :: 0 <= r < Y.Length0 && 0 <= c < Y.Length1 ==>
        Y[r, c] == Advanced(A, X, W, m, m + mr, n0, n0 + 8 * p, k0, k0 + kc, k0 > 0, r, c, old(Y[r, c]))
    {
      PanelTile(A, X, W, N, pk, n0, npan, p, k0, kc, m, mr, Y);
    }
  }

  /** Order p, one panel: every group of four rows of [mb, me). */
  method ColumnStrip<F(0)>(A: Arith<F>, X: Matrix<F>, W: Matrix<F>, N: int, pk: seq<F>, n0: nat, npan: nat, p: nat,
                           k0: nat, kc: nat, mb: nat, me: nat, Y: array2<F>)
    requires p < npan && BlockPacked(A, W, N, n0, npan, k0, kc, pk)
    requires mb <= me <= Y.Length0 && n0 + 8 * npan <= Y.Length1 == N
    modifies Y
    ensures forall r, c :: 0 <= r < Y.Length0 && 0 <= c < Y.Length1 ==>
      Y[r, c] == Advanced(A, X, W, mb, me, n0 + 8 * p, n0 + 8 * p + 8, k0, k0 + kc, k0 > 0, r, c, old(Y[r, c]))
  {
    hide BlockPacked;
    hide ChainFrom;
    var m := mb;
    while m < me
      invariant mb <= m
      invariant forall r, c :: 0 <= r < Y.Length0 && 0 <= c < Y.Length1 ==>
        Y[r, c] ==
          Advanced(A, X, W, mb, Min(m, me), n0 + 8 * p, n0 + 8 * p + 8, k0, k0 + kc, k0 > 0, r, c, old(Y[r, c]))
    {
      var mr := Min(4, me - m);
      PanelTile(A, X, W, N, pk, n0, npan, p, k0, kc, m, mr, Y);
      m := m + 4;
    }
  }

  /** compute_block, order r: per four activation rows, every panel. */
  method ComputeBlockByRow<F(0)>(A: Arith<F>, X: Matrix<F>, W: Matrix<F>, N: int, pk: seq<F>, n0: nat, npan: nat,
                                 k0: nat, kc: nat, m0: nat, m1: nat, Y: array2<F>)
    requires BlockPacked(A, W, N, n0, npan, k0, kc, pk)
    requires m0 <= m1 <= Y.Length0 && n0 + 8 * npan <= Y.Length1 == N
    modifies Y
    ensures forall r, c :: 0 <= r < Y.Length0 && 0 <= c < Y.Length1 ==>
      Y[r, c] == Advanced(A, X, W, m0, m1, n0, n0 + 8 * npan, k0, k0 + kc, k0 > 0, r, c, old(Y[r, c]))
  {
    hide BlockPacked;
    hide ChainFrom;
    var m := m0;
    while m < m1
      invariant m0 <= m
      invariant forall r, c :: 0 <= r < Y.Length0 && 0 <= c < Y.Length1 ==>
        Y[r, c] == Advanced(A, X, W, m0, Min(m, m1), n0, n0 + 8 * npan, k0, k0 + kc, k0 > 0, r, c, old(Y[r, c]))
    {
      var mr := Min(4, m1 - m);
      RowStrip(A, X, W, N, pk, n0, npan, k0, kc, m, mr, Y);
      m := m + 4;
    }
  }

  /** One MB block of rows under order p. */
  method RowBlock<F(0)>(A: Arith<F>, X: Matrix<F>, W: Matrix<F>, N: int, pk: seq<F>, n0: nat, npan: nat,
                        k0: nat, kc: nat, mb: nat, me: nat, Y: array2<F>)
    requires BlockPacked(A, W, N, n0, npan, k0, kc, pk)
    requires mb <= me <= Y.Length0 && n0 + 8 * npan <= Y.Length1 == N
    modifies Y
    ensures forall r, c :: 0 <= r < Y.Length0 && 0 <= c < Y.Length1 ==>
      Y[r, c] == Advanced(A, X, W, mb, me, n0, n0 + 8 * npan, k0, k0 + kc, k0 > 0, r, c, old(Y[r, c]))
  {
    hide BlockPacked;
    hide ChainFrom;
    for p := 0 to npan
      invariant forall r, c :: 0 <= r < Y.Length0 && 0 <= c < Y.Length1 ==>
        Y[r, c] == Advanced(A, X, W, mb, me, n0, n0 + 8 * p, k0, k0 + kc, k0 > 0, r, c, old(Y[r, c]))
    {
      ColumnStrip(A, X, W, N, pk, n0, npan, p, k0, kc, mb, me, Y);
    }
  }

  /** compute_block, order p: per block of MB rows, per panel, every four-row group. */
  method ComputeBlockByPanel<F(0)>(A: Arith<F>, X: Matrix<F>, W: Matrix<F>, N: int, pk: seq<F>, n0: nat, npan: nat,
                                   k0: nat, kc: nat, m0: nat, m1: nat, MB: nat, Y: array2<F>)
    requires MB > 0 && BlockPacked(A, W, N, n0, npan, k0, kc, pk)
    requires m0 <= m1 <= Y.Length0 && n0 + 8 * npan <= Y.Length1 == N
    modifies Y
    ensures forall r, c :: 0 <= r < Y.Length0 && 0 <= c < Y.Length1 ==>
      Y[r, c] == Advanced(A, X, W, m0, m1, n0, n0 + 8 * npan, k0, k0 + kc, k0 > 0, r, c, old(Y[r, c]))
  {
    hide BlockPacked;
    hide ChainFrom;
    var mb := m0;
    while mb < m1
      invariant m0 <= mb
      invariant forall r, c :: 0 <= r < Y.Length0 && 0 <= c < Y.Length1 ==>
        Y[r, c] == Advanced(A, X, W, m0, Min(mb, m1), n0, n0 + 8 * npan, k0, k0 + kc, k0 > 0, r, c, old(Y[r, c]))
    {
      RowBlock(A, X, W, N, pk, n0, npan, k0, kc, mb, Min(m1, mb + MB), Y);
      mb := mb + MB;
    }
  }

  // --- mode t: one thread's blocks, its own packed buffer, every row ---

  datatype Sched = Sched(NB: nat, KC: nat, MB: nat, byRow: bool)

  /** compute_block under a schedule's order. */
  method ComputeBlock<F(0)>(A: Arith<F>, X: Matrix<F>, W: Matrix<F>, s: Sched, N: int, pk: seq<F>, n0: nat, npan: nat,
                            k0: nat, kc: nat, m0: nat, m1: nat, Y: array2<F>)
    requires s.MB > 0 && BlockPacked(A, W, N, n0, npan, k0, kc, pk)
    requires m0 <= m1 <= Y.Length0 && n0 + 8 * npan <= Y.Length1 == N
    modifies Y
    ensures forall r, c :: 0 <= r < Y.Length0 && 0 <= c < Y.Length1 ==>
      Y[r, c] == Advanced(A, X, W, m0, m1, n0, n0 + 8 * npan, k0, k0 + kc, k0 > 0, r, c, old(Y[r, c]))
  {
    if s.byRow {
      ComputeBlockByRow(A, X, W, N, pk, n0, npan, k0, kc, m0, m1, Y);
    } else {
      ComputeBlockByPanel(A, X, W, N, pk, n0, npan, k0, kc, m0, m1, s.MB, Y);
    }
  }

  /** The chunk loop over one block of columns: pack a chunk, compute it, resume. */
  method BlockOfColumns<F(0)>(A: Arith<F>, X: Matrix<F>, W: Matrix<F>, s: Sched, K: nat, KC: nat, N: nat, n0: nat,
                              npan: nat, pk: array<F>, Y: array2<F>)
    requires s.MB > 0 && 0 < KC <= K && n0 + 8 * npan <= Y.Length1 == N && npan * PanelStride(KC, false) <= pk.Length
    modifies pk, Y
    ensures forall r, c :: 0 <= r < Y.Length0 && 0 <= c < Y.Length1 ==>
      Y[r, c] == if n0 <= c < n0 + 8 * npan then Chain(A, X, W, r, c, K) else old(Y[r, c])
  {
    hide BlockPacked;
    hide ChainFrom;
    var k0 := 0;
    while k0 < K
      invariant 0 <= k0
      invariant forall r, c :: 0 <= r < Y.Length0 && 0 <= c < Y.Length1 ==>
        Y[r, c] == if n0 <= c < n0 + 8 * npan && k0 > 0 then Chain(A, X, W, r, c, Min(k0, K)) else old(Y[r, c])
    {
      var k1 := Min(K, k0 + KC);
      Index.MulMono(PanelStride(k1 - k0, false), PanelStride(KC, false), npan);
      PackPanels(A, W, N, n0, npan, k0, k1 - k0, false, pk);
      assert BlockPacked(A, W, N, n0, npan, k0, k1 - k0,
                         pk[..]) by { PackedIsPacked(A, W, N, n0, npan, k0, k1 - k0, pk[..]); }
      ComputeBlock(A, X, W, s, N, pk[..], n0, npan, k0, k1 - k0, 0, Y.Length0, Y);
      forall r, c | 0 <= r < Y.Length0 && n0 <= c < n0 + 8 * npan
        ensures Y[r, c] == Chain(A, X, W, r, c, k1)
      {
        ChainResume(A, X, W, r, c, A.zero, 0, k0, k1);
      }
      k0 := k0 + KC;
    }
  }

  lemma PackedIsPacked<F>(A: Arith<F>, W: Matrix<F>, N: int, n0: int, npan: nat, k0: int, kc: nat, pk: seq<F>)
    requires forall p: nat :: p < npan ==> PanelAt(A, W, N, n0 + 8 * p, k0, kc, false, pk, p)
    ensures BlockPacked(A, W, N, n0, npan, k0, kc, pk)
  {
    hide PanelAt;
  }

  /** The block of columns that holds column c. */
  function BlockIdx(c: int, NB: int): (b: int)
    requires NB > 0
    ensures c >= 0 ==> b >= 0
  {
    Index.DivMod(c, NB);
    c / NB
  }

  lemma BlockRange(c: nat, NB: nat, b: nat)
    requires NB > 0
    ensures BlockIdx(c, NB) == b <==> b * NB <= c < b * NB + NB
  {
    Index.DivMod(c, NB);
    if b * NB <= c < b * NB + NB { Index.ModUnique(c, b, c - b * NB, NB); }
  }

  lemma PanelsOf(NB: nat, N: nat, n0: nat, n1: nat)
    requires NB % 8 == 0 && N % 8 == 0 && n0 % 8 == 0 && n1 == Min(N, n0 + NB) && n0 <= n1
    ensures 8 * ((n1 - n0 + 7) / 8) == n1 - n0
  {
  }

  /** Number of column blocks. */
  function Blocks(N: nat, NB: nat): (n: nat) requires NB > 0 { (N + NB - 1) / NB }

  lemma BlocksCover(N: nat, NB: nat, b: nat)
    requires NB > 0
    ensures b < Blocks(N, NB) <==> b * NB < N
  {
    Index.DivMod(N + NB - 1, NB);
    if b < Blocks(N, NB) {
      Index.MulMono(b + 1, Blocks(N, NB), NB);
      Index.MulAdd(b, 1, NB);
    } else {
      Index.MulMono(Blocks(N, NB), b, NB);
    }
  }

  lemma {:induction false} MultipleOfEight(b: nat, NB: nat)
    requires NB % 8 == 0
    ensures 0 <= b * NB && (b * NB) % 8 == 0
  {
    Index.MulAssoc(b, NB / 8, 8);
    Index.MulNonneg(b, NB);
    Index.ModMultiple(b * (NB / 8), 8);
  }

  lemma StrideOfFullBlock(NB: nat, npan: nat, KC: nat)
    requires 8 * npan <= NB
    ensures npan * PanelStride(KC, false) <= NB * KC
  {
    Index.MulMono(8 * npan, NB, KC);
    Index.MulAssoc(npan, 8, KC);
  }

  /** The inputs run_sched is written for: whole panels everywhere, a chunk that makes progress. */
  ghost predicate Schedulable(s: Sched, K: nat, N: nat)
  {
    0 < s.NB && s.NB % 8 == 0 && 0 < s.MB && N % 8 == 0 && 0 < K
  }

  /** The chunk length in force: all of K when the schedule names none. */
  function ChunkOf(s: Sched, K: nat): (kc: nat) { if s.KC > 0 then Min(s.KC, K) else K }

  /** Mode t, thread ith: blocks ith, ith + nth, ... of the columns, every row, nothing else. */
  method RunThread<F(0)>(A: Arith<F>, X: Matrix<F>, W: Matrix<F>, s: Sched, K: nat, N: nat, ith: nat, nth: nat,
                         pk: array<F>, Y: array2<F>)
    requires Schedulable(s, K, N) && ith < nth && Y.Length1 == N && s.NB * ChunkOf(s, K) <= pk.Length
    modifies pk, Y
    ensures forall r, c :: 0 <= r < Y.Length0 && 0 <= c < N ==>
      Y[r, c] == if Index.Mine(BlockIdx(c, s.NB), ith, nth) then Chain(A, X, W, r, c, K) else old(Y[r, c])
  {
    hide Index.Mine;
    hide BlockIdx;
    hide Chain;
    hide Blocks;
    var NB, KC := s.NB, ChunkOf(s, K);
    var b := ith;
    Index.MineFirst(b, ith, nth);
    forall g: nat | g < b ensures !Index.Mine(g, ith, nth) { Index.MineFirst(g, ith, nth); }
    while b < Blocks(N, NB)
      invariant Index.Mine(b, ith, nth)
      invariant forall r, c :: 0 <= r < Y.Length0 && 0 <= c < N ==>
        Y[r, c] == if BlockIdx(c, NB) < b && Index.Mine(BlockIdx(c, NB), ith, nth) then Chain(A, X, W, r, c, K)
                   else old(Y[r, c])
      decreases Blocks(N, NB) - b
    {
      BlocksCover(N, NB, b);
      MultipleOfEight(b, NB);
      var n0 := b * NB;
      var n1 := Min(N, n0 + NB);
      var npan := (n1 - n0 + 7) / 8;
      PanelsOf(NB, N, n0, n1);
      StrideOfFullBlock(NB, npan, KC);
      BlockOfColumns(A, X, W, s, K, KC, N, n0, npan, pk, Y);
      forall c: nat | c < N ensures BlockIdx(c, NB) == b <==> n0 <= c < n1 { BlockRange(c, NB, b); }
      Index.MineStride(b, ith, nth);
      forall c: nat | c < N && BlockIdx(c, NB) < b + nth && Index.Mine(BlockIdx(c, NB), ith, nth)
        ensures BlockIdx(c, NB) <= b
      {
      }
      b := b + nth;
    }
    forall c: nat | c < N ensures BlockIdx(c, NB) < b {
      BlockRange(c, NB, BlockIdx(c, NB));
      BlocksCover(N, NB, BlockIdx(c, NB));
    }
  }

  /** Mode t over all threads, in any order: every output is the definition's chain. */
  method RunModeT<F(0)>(A: Arith<F>, X: Matrix<F>, W: Matrix<F>, s: Sched, K: nat, N: nat, nth: nat, order: seq<nat>,
                        pks: seq<array<F>>, Y: array2<F>)
    requires Schedulable(s, K, N) && nth > 0 && Y.Length1 == N
    requires (forall i :: 0 <= i < |order| ==> order[i] < nth) && (forall t: nat :: t < nth ==> t in order)
    requires |pks| == nth && forall t :: 0 <= t < nth ==> s.NB * ChunkOf(s, K) <= pks[t].Length
    modifies Y, set t | 0 <= t < |pks| :: pks[t]
    ensures forall r, c :: 0 <= r < Y.Length0 && 0 <= c < N ==> Y[r, c] == Chain(A, X, W, r, c, K)
  {
    hide Index.Mine;
    hide BlockIdx;
    hide Chain;
    for i := 0 to |order|
      invariant forall r, c, q | 0 <= r < Y.Length0 && 0 <= c < N && 0 <= q < i
                  :: Index.Mine(BlockIdx(c, s.NB), order[q], nth) ==> Y[r, c] == Chain(A, X, W, r, c, K)
    {
      RunThread(A, X, W, s, K, N, order[i], nth, pks[order[i]], Y);
    }
    forall r, c | 0 <= r < Y.Length0 && 0 <= c < N ensures Y[r, c] == Chain(A, X, W, r, c, K) {
      var b := BlockIdx(c, s.NB);
      Index.MineOwner(b, nth);
      assert b % nth in order;
      var q :| 0 <= q < |order| && order[q] == b % nth;
    }
  }
}
