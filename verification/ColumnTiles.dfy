/**
 scripts/bench7.cpp: the register tile, the uneven split of the columns into tiles of RN and RN - 1, and the jobs of BM
 row blocks. Float operations are uninterpreted.
 */
module ColumnTiles {
  import Index
  import opened Cells
  import JobCounter

  datatype Ops<!F(!new)> = Ops(zero: F, fma: (F, F, F) -> F, hsum: (F, F, F, F) -> F)

  /** C = A B^T over K, rows of A by rows of B. */
  datatype Product<!F(!new)> = Product(o: Ops<F>, A: (int, int) -> F, B: (int, int) -> F, M: nat, N: nat, K: nat)
  {
    /** Vector lane l of output (m, n) after i steps of four. */
    function Lane(m: int, n: int, l: int, i: nat): F
    {
      if i == 0 then o.zero else o.fma(Lane(m, n, l, i - 1), A(m, 4 * (i - 1) + l), B(n, 4 * (i - 1) + l))
    }

    function Out(m: int, n: int): F
    {
      o.hsum(Lane(m, n, 0, K / 4), Lane(m, n, 1, K / 4), Lane(m, n, 2, K / 4), Lane(m, n, 3, K / 4))
    }
  }

  /** Exact arithmetic. */
  function Exact(): Ops<real> { Ops(0.0, (c, a, b) => c + a * b, (a, b, c, d) => a + b + c + d) }

  /** The sum over k < n of A(m, k) B(n, k). */
  function RowDot(A: (int, int) -> real, B: (int, int) -> real, m: int, n: int, len: nat): real
  {
    if len == 0 then 0.0 else RowDot(A, B, m, n, len - 1) + A(m, len - 1) * B(n, len - 1)
  }

  lemma FourMore(A: (int, int) -> real, B: (int, int) -> real, m: int, n: int, k: nat)
    ensures RowDot(A, B, m, n, k + 4) ==
      RowDot(A, B, m, n, k) + A(m, k) * B(n, k) + A(m, k + 1) * B(n, k + 1) + A(m, k + 2) * B(n, k + 2)
      + A(m, k + 3) * B(n, k + 3)
  {
    assert RowDot(A, B, m, n, k + 2) == RowDot(A, B, m, n, k + 1) + A(m, k + 1) * B(n, k + 1);
    assert RowDot(A, B, m, n, k + 3) == RowDot(A, B, m, n, k + 2) + A(m, k + 2) * B(n, k + 2);
    assert RowDot(A, B, m, n, k + 4) == RowDot(A, B, m, n, k + 3) + A(m, k + 3) * B(n, k + 3);
  }

  /** The four lanes after i steps. */
  function LaneSum(g: Product<real>, m: int, n: int, i: nat): real
  {
    g.Lane(m, n, 0, i) + g.Lane(m, n, 1, i) + g.Lane(m, n, 2, i) + g.Lane(m, n, 3, i)
  }

  lemma LaneSumStep(g: Product<real>, m: int, n: int, i: nat)
    requires g.o == Exact()
    ensures var k := 4 * i;
      LaneSum(g, m, n, i + 1) == LaneSum(g, m, n, i) + g.A(m, k) * g.B(n, k) + g.A(m, k + 1) * g.B(n, k + 1)
        + g.A(m, k + 2) * g.B(n, k + 2) + g.A(m, k + 3) * g.B(n, k + 3)
  {
    LaneStep(g, m, n, 0, i);
    LaneStep(g, m, n, 1, i);
    LaneStep(g, m, n, 2, i);
    LaneStep(g, m, n, 3, i);
    hide Product.Lane;
  }

  lemma LaneStep(g: Product<real>, m: int, n: int, l: int, i: nat)
    requires g.o == Exact()
    ensures g.Lane(m, n, l, i + 1) == g.Lane(m, n, l, i) + g.A(m, 4 * i + l) * g.B(n, 4 * i + l)
  {
  }

  lemma NoTerms(g: Product<real>, m: int, n: int)
    requires g.o == Exact()
    ensures LaneSum(g, m, n, 0) == 0.0 == RowDot(g.A, g.B, m, n, 0)
  {
  }

  lemma {:induction false} LanesAreDot(g: Product<real>, m: int, n: int, i: nat)
    requires g.o == Exact()
    ensures LaneSum(g, m, n, i) == RowDot(g.A, g.B, m, n, 4 * i)
  {
    hide RowDot;
    hide LaneSum;
    if i == 0 {
      NoTerms(g, m, n);
    } else {
      LanesAreDot(g, m, n, i - 1);
      LaneSumStep(g, m, n, i - 1);
      FourMore(g.A, g.B, m, n, 4 * (i - 1));
      assert 4 * (i - 1) + 4 == 4 * i;
    }
  }

  /** In exact arithmetic an output is the sum over k of A(m, k) B(n, k). */
  lemma OutIsDot(g: Product<real>, m: int, n: int)
    requires g.o == Exact() && g.K % 4 == 0
    ensures g.Out(m, n) == RowDot(g.A, g.B, m, n, g.K)
  {
    hide Product.Lane;
    hide RowDot;
    LanesAreDot(g, m, n, g.K / 4);
  }

  // --- the column split ---

  /** ceil(N / RN) tiles, the first FullTiles of width RN and the rest one narrower. */
  function Tiles(N: nat, RN: nat): (x: nat)
    requires RN > 0
  {
    Index.CeilDiv(N, RN);
    (N + RN - 1) / RN
  }

  function FullTiles(N: nat, RN: nat): int
    requires RN > 0
  {
    Tiles(N, RN) - (Tiles(N, RN) * RN - N)
  }

  /** Where the code's walk over the columns ends: the full tiles, if any, then the narrower ones from FullTiles on. */
  function WalkEnd(N: nat, RN: nat): int
    requires RN > 0
  {
    var full := FullTiles(N, RN);
    (if full > 0 then full * RN else 0)
      + (if RN > 1 && full < Tiles(N, RN) then (Tiles(N, RN) - full) * (RN - 1) else 0)
  }

  /**
   The walk covers the columns exactly if and only if all tiles at the narrower width would still fit; otherwise it
   runs past them.
   */
  lemma WalkCoversIff(N: nat, RN: nat)
    requires RN > 0
    ensures WalkEnd(N, RN) == N <==> Tiles(N, RN) * (RN - 1) <= N
    ensures Tiles(N, RN) * (RN - 1) > N ==> WalkEnd(N, RN) > N
    ensures Tiles(N, RN) * (RN - 1) <= N <==> FullTiles(N, RN) >= 0
  {
    var x, f, n := Tiles(N, RN), FullTiles(N, RN), RN - 1;
    FullAndRest(N, RN);
    if f < 0 {
      WalkOverruns(x, f, n, N);
    } else if f == 0 {
      assert WalkEnd(N, RN) == x * n;
    }
  }

  /** What the numbers of tiles are, without the division. */
  lemma FullAndRest(N: nat, RN: nat)
    requires RN > 0
    ensures var x, f, n := Tiles(N, RN), FullTiles(N, RN), RN - 1;
      && x * RN == x * n + x && N <= x * RN && f == N - x * n && f <= x
      && f * RN == f * n + f && (x - f) * n == x * n - f * n && f * RN + (x - f) * n == N
  {
    var x, f, n := Tiles(N, RN), FullTiles(N, RN), RN - 1;
    Index.CeilDiv(N, RN);
    Index.MulAdd(x, f, n);
    Index.MulSub(x, f, n);
    assert x * RN == x * n + x && f * RN == f * n + f;
  }

  lemma WalkOverruns(x: nat, f: int, n: int, N: nat)
    requires f < 0 && f == N - x * n && n >= 0
    ensures n > 0 && (x - f) * n > N
  {
    Index.MulMono(x + 1, x - f, n);
    Index.MulAdd(x, 1, n);
  }

  /**
   Any N from (RN - 1)(RN - 2) on splits exactly, the largest number two widths RN and RN - 1 cannot make being one
   less.
   */
  lemma TwoCoinBound(N: nat, RN: nat)
    requires RN > 0 && N >= (RN - 1) * (RN - 2)
    ensures Tiles(N, RN) * (RN - 1) <= N
  {
    var x, n := Tiles(N, RN), RN - 1;
    Index.CeilDiv(N, RN);
    assert x * RN == x * n + x && (x - 1) * RN == x * RN - RN && (n - 1) * n == n * (n - 1);
    if x <= n - 1 { Index.MulMono(x, n - 1, n); }
  }

  /** The bound is sharp. */
  lemma TwoCoinSharp(RN: nat)
    requires RN >= 3
    ensures (RN - 1) * (RN - 2) - 1 >= 0 && Tiles((RN - 1) * (RN - 2) - 1, RN) * (RN - 1) > (RN - 1) * (RN - 2) - 1
  {
    var n := RN - 1;
    Index.MulMono(2, n, n - 1);
    var N := n * (n - 1) - 1;
    assert (RN - 3) * RN + RN == (RN - 2) * RN;
    assert n * (n - 1) == (RN - 3) * RN + 2;
    Index.ModUnique(N + RN - 1, RN - 2, 0, RN);
    assert (RN - 2) * (RN - 1) == n * (n - 1);
  }

  // --- the tile ---

  ghost predicate LanesAt<F(!new)>(c: array3<F>, g: Product<F>, ii: nat, jj: nat, i: nat)
    reads c
  {
    forall a, b, l :: 0 <= a < c.Length0 && 0 <= b < c.Length1 && 0 <= l < c.Length2 ==>
      c[a, b, l] == g.Lane(ii + b, jj + a, l, i)
  }

  /** One vector of accumulator (column a, row b): four lanes. */
  method Fma4<F(!new)>(c: array3<F>, g: Product<F>, ii: nat, jj: nat, i: nat, a: nat, b: nat)
    requires a < c.Length0 && b < c.Length1 && c.Length2 == 4
    requires forall l :: 0 <= l < 4 ==> c[a, b, l] == g.Lane(ii + b, jj + a, l, i)
    modifies c
    ensures forall l :: 0 <= l < 4 ==> c[a, b, l] == g.Lane(ii + b, jj + a, l, i + 1)
    ensures forall x, y, l :: 0 <= x < c.Length0 && 0 <= y < c.Length1 && 0 <= l < 4 && !(x == a && y == b) ==>
      c[x, y, l] == old(c[x, y, l])
  {
    for l := 0 to 4
      invariant forall m :: 0 <= m < 4 ==> c[a, b, m] == g.Lane(ii + b, jj + a, m, if m < l then i + 1 else i)
      invariant forall x, y, m :: 0 <= x < c.Length0 && 0 <= y < c.Length1 && 0 <= m < 4 && !(x == a && y == b) ==>
        c[x, y, m] == old(c[x, y, m])
    {
      c[a, b, l] := g.o.fma(c[a, b, l], g.A(ii + b, 4 * i + l), g.B(jj + a, 4 * i + l));
    }
  }

  /** One step of four along K: columns outside where the tile is at least as wide as tall, rows outside otherwise. */
  method TileStep<F(!new)>(c: array3<F>, g: Product<F>, ii: nat, jj: nat, i: nat)
    requires c.Length2 == 4 && LanesAt(c, g, ii, jj, i)
    modifies c
    ensures LanesAt(c, g, ii, jj, i + 1)
  {
    hide Product.Lane;
    if c.Length1 <= c.Length0 {
      for a := 0 to c.Length0
        invariant forall x, y, l :: 0 <= x < c.Length0 && 0 <= y < c.Length1 && 0 <= l < 4 ==>
          c[x, y, l] == g.Lane(ii + y, jj + x, l, if x < a then i + 1 else i)
      {
        for b := 0 to c.Length1
          invariant forall x, y, l :: 0 <= x < c.Length0 && 0 <= y < c.Length1 && 0 <= l < 4
                      ==> c[x, y, l] == g.Lane(ii + y, jj + x, l, if x < a || (x == a && y < b) then i + 1 else i)
        {
          Fma4(c, g, ii, jj, i, a, b);
        }
      }
    } else {
      for b := 0 to c.Length1
        invariant forall x, y, l :: 0 <= x < c.Length0 && 0 <= y < c.Length1 && 0 <= l < 4 ==>
          c[x, y, l] == g.Lane(ii + y, jj + x, l, if y < b then i + 1 else i)
      {
        for a := 0 to c.Length0
          invariant forall x, y, l :: 0 <= x < c.Length0 && 0 <= y < c.Length1 && 0 <= l < 4
                      ==> c[x, y, l] == g.Lane(ii + y, jj + x, l, if y < b || (y == b && x < a) then i + 1 else i)
        {
          Fma4(c, g, ii, jj, i, a, b);
        }
      }
    }
  }

  /** tb_bloc: an RM by RN tile at row ii, column jj; the output is stored by columns. */
  method Bloc<F(!new)>(C: array2<Cell<F>>, g: Product<F>, RM: nat, RN: nat, ii: nat, jj: nat)
    requires C.Length0 == g.N && C.Length1 == g.M && ii + RM <= g.M && jj + RN <= g.N && g.K % 4 == 0
    modifies C
    ensures forall n, m :: 0 <= n < g.N && 0 <= m < g.M ==>
      C[n, m] == if jj <= n < jj + RN && ii <= m < ii + RM then old(C[n, m]).Store(g.Out(m, n)) else old(C[n, m])
  {
    hide Product.Lane;
    var c := Sums(g, RM, RN, ii, jj);
    for j := 0 to RN
      invariant LanesAt(c, g, ii, jj, g.K / 4)
      invariant forall n, m :: 0 <= n < g.N && 0 <= m < g.M ==>
        C[n, m] == if jj <= n < jj + j && ii <= m < ii + RM then old(C[n, m]).Store(g.Out(m, n)) else old(C[n, m])
    {
      for i := 0 to RM
        invariant LanesAt(c, g, ii, jj, g.K / 4)
        invariant forall n, m :: 0 <= n < g.N && 0 <= m < g.M ==>
          C[n, m] == if (jj <= n < jj + j && ii <= m < ii + RM) || (n == jj + j && ii <= m < ii + i)
                     then old(C[n, m]).Store(g.Out(m, n)) else old(C[n, m])
      {
        C[jj + j, ii + i] := C[jj + j, ii + i].Store(g.o.hsum(c[j, i, 0], c[j, i, 1], c[j, i, 2], c[j, i, 3]));
      }
    }
  }

  method Sums<F(!new)>(g: Product<F>, RM: nat, RN: nat, ii: nat, jj: nat) returns (c: array3<F>)
    requires g.K % 4 == 0
    ensures fresh(c) && c.Length0 == RN && c.Length1 == RM && c.Length2 == 4 && LanesAt(c, g, ii, jj, g.K / 4)
  {
    c := new F[RN, RM, 4]((a, b, l) => g.o.zero);
    for i := 0 to g.K / 4
      invariant LanesAt(c, g, ii, jj, i)
    {
      TileStep(c, g, ii, jj, i);
    }
  }

  /** All columns of rows [ii, ii + RM): the full tiles, then the narrower ones. */
  method RowTiles<F(!new)>(C: array2<Cell<F>>, g: Product<F>, RM: nat, RN: nat, ii: nat)
    requires C.Length0 == g.N && C.Length1 == g.M && ii + RM <= g.M && g.K % 4 == 0
    requires RN > 0 && Tiles(g.N, RN) * (RN - 1) <= g.N
    modifies C
    ensures forall n, m :: 0 <= n < g.N && 0 <= m < g.M ==>
      C[n, m] == if ii <= m < ii + RM then old(C[n, m]).Store(g.Out(m, n)) else old(C[n, m])
  {
    hide Product.Out;
    WalkCoversIff(g.N, RN);
    SplitSums(g.N, RN);
    var x, full := Tiles(g.N, RN), FullTiles(g.N, RN);
    var jj := 0;
    for b := 0 to full
      invariant jj == b * RN
      invariant forall n, m :: 0 <= n < g.N && 0 <= m < g.M ==>
        C[n, m] == if n < jj && ii <= m < ii + RM then old(C[n, m]).Store(g.Out(m, n)) else old(C[n, m])
    {
      Index.MulAdd(b, 1, RN);
      Index.MulNonneg(b, RN);
      Index.MulMono(b + 1, full, RN);
      Bloc(C, g, RM, RN, ii, jj);
      jj := jj + RN;
    }
    if RN > 1 {
      for b := full to x
        invariant jj == full * RN + (b - full) * (RN - 1)
        invariant forall n, m :: 0 <= n < g.N && 0 <= m < g.M ==>
          C[n, m] == if n < jj && ii <= m < ii + RM then old(C[n, m]).Store(g.Out(m, n)) else old(C[n, m])
      {
        Index.MulAdd(b - full, 1, RN - 1);
        Index.MulNonneg(b - full, RN - 1);
        Index.MulNonneg(full, RN);
        Index.MulMono(b - full + 1, x - full, RN - 1);
        Bloc(C, g, RM, RN - 1, ii, jj);
        jj := jj + (RN - 1);
      }
    }
  }

  /** The two runs of tiles add up to N. */
  lemma SplitSums(N: nat, RN: nat)
    requires RN > 0 && Tiles(N, RN) * (RN - 1) <= N
    ensures var x, f := Tiles(N, RN), FullTiles(N, RN);
      0 <= f <= x && f * RN + (x - f) * (RN - 1) == N && (RN == 1 ==> f * RN == N) && 0 <= (x - f) * (RN - 1)
  {
    var x, f, n := Tiles(N, RN), FullTiles(N, RN), RN - 1;
    FullAndRest(N, RN);
    Index.MulNonneg(x - f, n);
    hide Tiles;
  }

  /** A job: BM row blocks. */
  method Job<F(!new)>(C: array2<Cell<F>>, g: Product<F>, RM: nat, RN: nat, BM: nat, job: nat)
    requires C.Length0 == g.N && C.Length1 == g.M && g.K % 4 == 0 && RM > 0 && RN > 0
      && Tiles(g.N, RN) * (RN - 1) <= g.N
    requires (job + 1) * (RM * BM) <= g.M
    modifies C
    ensures forall n, m :: 0 <= n < g.N && 0 <= m < g.M ==>
      C[n, m] == if job * (RM * BM) <= m < (job + 1) * (RM * BM) then old(C[n, m]).Store(g.Out(m, n)) else old(C[n, m])
  {
    hide Product.Out;
    hide Tiles;
    var d := RM * BM;
    Index.MulNonneg(RM, BM);
    Index.MulNonneg(job, d);
    Index.MulAdd(job, 1, d);
    var ii := job * d;
    var bi := 0;
    ghost var k := 0;
    while bi < BM * RM
      invariant 0 <= k <= BM && bi == k * RM
      invariant forall n, m :: 0 <= n < g.N && 0 <= m < g.M ==>
        C[n, m] == if ii <= m < ii + bi then old(C[n, m]).Store(g.Out(m, n)) else old(C[n, m])
      decreases BM - k
    {
      assert BM * RM == RM * BM;
      if k >= BM { Index.MulMono(BM, k, RM); }
      Index.MulAdd(k, 1, RM);
      Index.MulMono(k + 1, BM, RM);
      RowTiles(C, g, RM, RN, ii + bi);
      bi := bi + RM;
      k := k + 1;
    }
    Index.MulMono(k, BM, RM);
  }

  /** Jobs run in any order: each output is stored as often as its job is run, with the product's value. */
  method Jobs<F(!new)>(C: array2<Cell<F>>, g: Product<F>, RM: nat, RN: nat, BM: nat, order: seq<nat>)
    requires C.Length0 == g.N && C.Length1 == g.M && g.K % 4 == 0 && RM > 0 && BM > 0 && RN > 0
      && Tiles(g.N, RN) * (RN - 1) <= g.N
    requires RM * BM > 0 && forall j :: 0 <= j < |order| ==> order[j] < g.M / (RM * BM)
    modifies C
    ensures forall n, m :: 0 <= n < g.N && 0 <= m < g.M ==>
      var times := JobCounter.Times(order, m / (RM * BM));
      && C[n, m].stores == old(C[n, m]).stores + times
      && C[n, m].value == if times > 0 then g.Out(m, n) else old(C[n, m]).value
  {
    hide Product.Out;
    hide Tiles;
    hide JobCounter.Times;
    var d := RM * BM;
    forall j: nat ensures JobCounter.Times(order[..0], j) == 0 { JobCounter.NotInOrder(order[..0], j); }
    for k := 0 to |order|
      invariant forall n, m :: 0 <= n < g.N && 0 <= m < g.M ==>
        var times := JobCounter.Times(order[..k], m / d);
        && C[n, m].stores == old(C[n, m]).stores + times
        && C[n, m].value == if times > 0 then g.Out(m, n) else old(C[n, m]).value
    {
      var j := order[k];
      assert order[..k + 1] == order[..k] + [j];
      JobCounter.OneMore(order[..k], j);
      JobRows(j, d, g.M);
      Job(C, g, RM, RN, BM, j);
    }
    assert order[..|order|] == order;
  }

  /**
   The jobs as the shared counter hands them out. Every interleaving that has finished leaves each output of the whole
   row blocks stored exactly once, with the product's value: all of them where the blocks divide M.
   */
  method RunJobs<F(!new)>(C: array2<Cell<F>>, g: Product<F>, RM: nat, RN: nat, BM: nat, r: seq<JobCounter.State>,
                          who: seq<nat>, nth: nat)
    requires C.Length0 == g.N && C.Length1 == g.M && g.K % 4 == 0 && RM > 0 && BM > 0 && RN > 0
      && Tiles(g.N, RN) * (RN - 1) <= g.N
    requires RM * BM > 0 && nth > 0 && JobCounter.IsRun(r, who, nth, g.M / (RM * BM))
      && JobCounter.AllFinished(r[|who|])
    modifies C
    ensures forall n, m :: 0 <= n < g.N && 0 <= m < g.M ==>
      C[n, m] == if m / (RM * BM) < g.M / (RM * BM) then old(C[n, m]).Store(g.Out(m, n)) else old(C[n, m])
    ensures g.M % (RM * BM) == 0 ==>
      forall n, m :: 0 <= n < g.N && 0 <= m < g.M ==> C[n, m] == old(C[n, m]).Store(g.Out(m, n))
  {
    hide Product.Out;
    hide Tiles;
    hide JobCounter.Times;
    hide JobCounter.Step;
    hide JobCounter.Init;
    var d := RM * BM;
    ghost var jobs := g.M / d;
    JobCounter.FinishedOrder(r, who, nth, jobs);
    var order := JobCounter.RunOrder(r, who, |who|);
    assert JobCounter.OnceEach(order, jobs);
    assert forall j :: 0 <= j < |order| ==> order[j] < jobs;
    Jobs(C, g, RM, RN, BM, order);
    if g.M % d == 0 {
      forall m | 0 <= m < g.M ensures m / d < jobs { JobOfRow(m, d, g.M); }
    }
  }

  lemma JobOfRow(m: nat, d: nat, M: nat)
    requires d > 0 && M % d == 0 && m < M
    ensures m / d < M / d
  {
    Index.DivMod(m, d);
    Index.DivMod(M, d);
    if m / d >= M / d { Index.MulMono(M / d, m / d, d); }
  }

  /** Job j's rows are those whose number divided by the job's height is j, and they exist. */
  lemma JobRows(j: nat, d: nat, M: nat)
    requires d > 0 && j < M / d
    ensures (j + 1) * d <= M && forall m: nat :: j * d <= m < (j + 1) * d <==> m / d == j
  {
    Index.DivMod(M, d);
    Index.MulMono(j + 1, M / d, d);
    Index.MulAdd(j, 1, d);
    forall m: nat ensures j * d <= m < (j + 1) * d <==> m / d == j {
      Index.DivMod(m, d);
      if j * d <= m < (j + 1) * d { Index.ModUnique(m, j, m - j * d, d); }
    }
  }
}
