/**
 scripts/bench66.cpp, run_sched in mode s: threads share one packed buffer, packing each piece of the
 schedule together, computing their own rows from it, and meeting at the barrier after each half. A step
 of a state is one packed panel, one tile, or one atomic operation of the barrier, by any thread; the
 order of a thread's tiles is left open, which covers both loop orders.
 */
module SharedSchedule {
  import Index
  import opened Bounds
  import opened SpinBarrier
  import opened PackedGemm

  /** Columns [n0, n0 + 8 npan) over contraction indices [k0, k0 + kc). */
  datatype Piece = Piece(n0: nat, npan: nat, k0: nat, kc: nat)

  datatype Rows = Rows(lo: nat, hi: nat)

  datatype Config<!F> = Config(A: Arith<F>, X: Matrix<F>, W: Matrix<F>, N: nat, M: nat, K: nat,
                               pieces: seq<Piece>, rows: seq<Rows>)

  /** Packing: the next panel of its own. Computing: the tiles done, by first row and panel. */
  datatype Work = Packing(next: nat) | Computing(done: set<(int, int)>)

  datatype State<!F> = State(bar: Barrier, steps: seq<nat>, works: seq<Work>, buf: seq<F>, y: (int, int) -> F)

  predicate InColumns(p: Piece, c: int) { p.n0 <= c < p.n0 + 8 * p.npan }

  /** Contraction indices column c has accumulated once the first `it` pieces are done. */
  function DoneK(pieces: seq<Piece>, it: nat, c: int): nat
    requires it <= |pieces|
  {
    if it == 0 then 0
    else if InColumns(pieces[it - 1], c) then pieces[it - 1].k0 + pieces[it - 1].kc
    else DoneK(pieces, it - 1, c)
  }

  /** Pieces resume every column where the earlier ones left it, and together reach K. */
  ghost predicate ValidPieces(pieces: seq<Piece>, N: nat, K: nat)
  {
    && (forall it: nat :: it < |pieces| ==> pieces[it].n0 + 8 * pieces[it].npan <= N)
    && (forall it: nat, c: nat :: it < |pieces| && InColumns(pieces[it], c) ==> pieces[it].k0 == DoneK(pieces, it, c))
    && (forall c: nat :: c < N ==> DoneK(pieces, |pieces|, c) == K)
  }

  /** The rows [0, M) are dealt to the threads. */
  ghost predicate ValidRows(rows: seq<Rows>, M: nat)
  {
    && (forall i :: 0 <= i < |rows| ==> rows[i].hi <= M)
    && (forall i, j,
        r: nat :: 0 <= i < |rows| && 0 <= j < |rows| && InRows(rows[i], r) && InRows(rows[j], r) ==> i == j)
    && (forall r: nat :: r < M ==> Owned(rows, r))
  }

  ghost predicate Owned(rows: seq<Rows>, r: nat) { exists i :: 0 <= i < |rows| && InRows(rows[i], r) }

  predicate InRows(w: Rows, r: int) { w.lo <= r < w.hi }

  ghost predicate ValidConfig<F>(g: Config<F>)
  {
    |g.rows| > 0 && ValidPieces(g.pieces, g.N, g.K) && ValidRows(g.rows, g.M)
  }

  // --- the steps ---

  function At<F>(A: Arith<F>, buf: seq<F>, i: int): F { if 0 <= i < |buf| then buf[i] else A.zero }

  /** What the tile computes for lane j and row r, from whatever the buffer holds at offset o. */
  function TileRun<F>(A: Arith<F>, X: Matrix<F>, buf: seq<F>, o: int, j: int, r: int, s: F, k0: int, kc: nat): F
  {
    if kc == 0 then s
    else A.fma(TileRun(A, X, buf, o, j, r, s, k0, kc - 1), At(A, buf, o + 8 * (kc - 1) + j), X(r, k0 + kc - 1))
  }

  lemma {:induction false} TileRunIsChain<F>(A: Arith<F>, X: Matrix<F>, W: Matrix<F>, N: int, buf: seq<F>, o: nat,
                                             n: int, j: int, r: int, s: F, k0: int, kc: nat, all: nat)
    requires kc <= all && n + 8 <= N && 0 <= j < 8 && o + 8 * all <= |buf|
    requires buf[o..o + 8 * all] == Panel(A, W, N, n, k0, all)
    ensures TileRun(A, X, buf, o, j, r, s, k0, kc) == ChainFrom(A, X, W, r, n + j, s, k0, k0 + kc)
  {
    hide Panel;
    if kc > 0 {
      TileRunIsChain(A, X, W, N, buf, o, n, j, r, s, k0, kc - 1, all);
      PanelLine(A, W, N, n, k0, all, kc - 1, buf, o, buf[o + 8 * (kc - 1)..o + 8 * (kc - 1) + 8]);
    }
  }

  predicate InTile(p: Piece, hi: int, t: (int, int), r: int, c: int)
  {
    t.0 <= r < Min(t.0 + 4, hi) && p.n0 + 8 * t.1 <= c < p.n0 + 8 * t.1 + 8
  }

  /** The tiles of one thread in one piece. */
  ghost predicate IsTile(p: Piece, w: Rows, t: (int, int))
  {
    w.lo <= t.0 < w.hi && (t.0 - w.lo) % 4 == 0 && 0 <= t.1 < p.npan
  }

  function PackStep<F>(g: Config<F>, s: State<F>, i: nat, p: Piece, next: nat): State<F>
    requires i < |s.works|
  {
    var o, len := next * PanelStride(p.kc, false), PanelStride(p.kc, false);
    s.(works := s.works[i := Packing(next + |s.works|)],
       buf := if 0 <= o && o + len <= |s.buf|
              then s.buf[..o] + Panel(g.A, g.W, g.N, p.n0 + 8 * next, p.k0, p.kc) + s.buf[o + len..] else s.buf)
  }

  function TileStep<F>(g: Config<F>, s: State<F>, i: nat, p: Piece, done: set<(int, int)>, t: (int, int)): State<F>
    requires i < |s.works| == |g.rows|
  {
    var y, buf, hi := s.y, s.buf, g.rows[i].hi;
    s.(works := s.works[i := Computing(done + {t})],
       y := (r, c) =>
         if InTile(p, hi, t, r, c)
         then TileRun(g.A, g.X, buf, t.1 * PanelStride(p.kc, false), c - (p.n0 + 8 * t.1), r,
                      Resume(g.A, y(r, c), p.k0 > 0), p.k0, p.kc)
         else y(r, c))
  }

  /** One operation of the barrier; returning from it starts the next half. */
  function BarrierStep<F>(s: State<F>, i: nat): State<F>
    requires i < |s.works| == |s.steps| == |s.bar.pcs| == |s.bar.passed|
  {
    var b := Act(s.bar, i);
    if b.passed[i] == s.bar.passed[i] then s.(bar := b)
    else
      match s.works[i]
      case Packing(_) => s.(bar := b, works := s.works[i := Computing({})])
      case Computing(_) => s.(bar := b, works := s.works[i := Packing(i)], steps := s.steps[i := s.steps[i] + 1])
  }

  ghost predicate Shaped<F>(g: Config<F>, s: State<F>)
  {
    |s.works| == |s.steps| == |s.bar.pcs| == |s.bar.passed| == |g.rows| > 0
  }

  /** Thread i's next step takes s to t. */
  ghost predicate ThreadStep<F>(g: Config<F>, s: State<F>, t: State<F>, i: nat)
    requires Shaped(g, s) && i < |g.rows|
  {
    if !s.bar.pcs[i].Running? then t == BarrierStep(s, i)
    else
      s.steps[i] < |g.pieces| &&
      var p := g.pieces[s.steps[i]];
      match s.works[i]
      case Packing(next) => t == if next < p.npan then PackStep(g, s, i, p, next) else BarrierStep(s, i)
      case Computing(done) =>
        || (exists tile :: IsTile(p, g.rows[i], tile) && tile !in done && t == TileStep(g, s, i, p, done, tile))
        || ((forall tile :: IsTile(p, g.rows[i], tile) ==> tile in done) && t == BarrierStep(s, i))
  }

  ghost predicate Next<F>(g: Config<F>, s: State<F>, t: State<F>)
  {
    Shaped(g, s) && exists i: nat :: i < |g.rows| && ThreadStep(g, s, t, i)
  }

  /** Buffer room for every piece. */
  ghost predicate Roomy<F>(g: Config<F>, buf: seq<F>)
  {
    forall it: nat :: it < |g.pieces| ==> g.pieces[it].npan * PanelStride(g.pieces[it].kc, false) <= |buf|
  }

  /** Every thread before its first panel, nobody in the barrier. */
  ghost predicate AtFirst<F>(g: Config<F>, s: State<F>)
  {
    && Shaped(g, s) && SpinBarrier.Init(s.bar, |g.rows|)
    && forall i: nat :: i < |g.rows| ==> s.steps[i] == 0 && s.works[i] == Packing(i)
  }

  ghost predicate Start<F>(g: Config<F>, s: State<F>) { AtFirst(g, s) && Roomy(g, s.buf) }

  // --- the invariant ---

  /** A thread's place in the schedule follows from the barriers it has passed. */
  ghost predicate Linked<F>(g: Config<F>, s: State<F>, i: nat)
    requires Shaped(g, s) && i < |g.rows|
  {
    && s.steps[i] <= |g.pieces|
    && s.bar.passed[i] == 2 * s.steps[i] + (if s.works[i].Computing? then 1 else 0)
    && (s.works[i].Computing? || !s.bar.pcs[i].Running? ==> s.steps[i] < |g.pieces|)
    && (s.works[i].Packing? ==> Index.Mine(s.works[i].next, i, |g.rows|))
    && (s.works[i].Computing? ==> forall t :: t in s.works[i].done ==> IsTile(g.pieces[s.steps[i]], g.rows[i], t))
  }

  /** A thread inside the barrier has finished its half. */
  ghost predicate HalfDone<F>(g: Config<F>, s: State<F>, i: nat)
    requires Shaped(g, s) && i < |g.rows| && s.steps[i] < |g.pieces|
  {
    match s.works[i]
    case Packing(next) => g.pieces[s.steps[i]].npan <= next
    case Computing(done) => forall t :: IsTile(g.pieces[s.steps[i]], g.rows[i], t) ==> t in done
  }

  ghost predicate Slot<F>(g: Config<F>, buf: seq<F>, p: Piece, q: nat)
  {
    PanelAt(g.A, g.W, g.N, p.n0 + 8 * q, p.k0, p.kc, false, buf, q)
  }

  /** The panels a thread of the current round has packed are in their slots. */
  ghost predicate OwnPacked<F>(g: Config<F>, s: State<F>, i: nat)
    requires Shaped(g, s) && i < |g.rows|
  {
    s.bar.passed[i] == s.bar.rounds && s.works[i].Packing? && s.steps[i] < |g.pieces| ==>
      var p := g.pieces[s.steps[i]];
      forall q: nat :: q < p.npan && q < s.works[i].next && Index.Mine(q, i, |g.rows|) ==> Slot(g, s.buf, p, q)
  }

  /** In a computing round every panel of the piece is in its slot. */
  ghost predicate AllPacked<F>(g: Config<F>, s: State<F>)
  {
    s.bar.rounds % 2 == 1 && s.bar.rounds / 2 < |g.pieces| ==>
      var p := g.pieces[s.bar.rounds / 2];
      forall q: nat :: q < p.npan ==> Slot(g, s.buf, p, q)
  }

  /** Contraction indices output (r, c) of thread i has accumulated. */
  ghost function ReachedK<F>(g: Config<F>, s: State<F>, i: nat, r: int, c: int): nat
    requires Shaped(g, s) && i < |g.rows| && s.steps[i] <= |g.pieces|
  {
    if s.works[i].Computing? && s.steps[i] < |g.pieces|
       && exists t :: t in s.works[i].done && InTile(g.pieces[s.steps[i]], g.rows[i].hi, t, r, c)
    then DoneK(g.pieces, s.steps[i] + 1, c) else DoneK(g.pieces, s.steps[i], c)
  }

  /** Every output a thread owns is the definition's chain as far as it has gone. */
  ghost predicate RowsRight<F>(g: Config<F>, s: State<F>, i: nat)
    requires Shaped(g, s) && i < |g.rows| && s.steps[i] <= |g.pieces|
  {
    forall r: nat, c: nat :: InRows(g.rows[i], r) && c < g.N ==>
      var k := ReachedK(g, s, i, r, c);
      k > 0 ==> s.y(r, c) == Chain(g.A, g.X, g.W, r, c, k)
  }

  ghost predicate Inv<F>(g: Config<F>, s: State<F>)
  {
    && ValidConfig(g) && Shaped(g, s) && SpinBarrier.Inv(s.bar) && Roomy(g, s.buf) && AllPacked(g, s)
    && forall i: nat :: i < |g.rows| ==>
         && Linked(g, s, i) && OwnPacked(g, s, i) && RowsRight(g, s, i)
         && (!s.bar.pcs[i].Running? ==> HalfDone(g, s, i))
  }

  /** No thread packs while another computes: working threads are in the same half of the same piece. */
  lemma NoPackDuringCompute<F>(g: Config<F>, s: State<F>, i: nat, j: nat)
    requires Inv(g, s) && i < |g.rows| && j < |g.rows| && s.bar.pcs[i].Running? && s.bar.pcs[j].Running?
    ensures s.steps[i] == s.steps[j] && (s.works[i].Packing? <==> s.works[j].Packing?)
  {
    RunnersAgree(s.bar, i);
    RunnersAgree(s.bar, j);
    assert Linked(g, s, i) && Linked(g, s, j);
  }

  lemma StartInv<F>(g: Config<F>, s: State<F>)
    requires ValidConfig(g) && Start(g, s)
    ensures Inv(g, s)
  {
    SpinBarrier.InitInv(s.bar, |g.rows|);
    forall i: nat | i < |g.rows|
      ensures Linked(g, s, i) && OwnPacked(g, s, i) && RowsRight(g, s, i)
    {
      Index.MineFirst(i, i, |g.rows|);
      forall q: nat | q < i ensures !Index.Mine(q, i, |g.rows|) { Index.MineFirst(q, i, |g.rows|); }
    }
  }

  // --- packing keeps it ---

  lemma SlotStride<F>(g: Config<F>, s: State<F>, it: nat, q: nat)
    requires it < |g.pieces| && q < g.pieces[it].npan && Roomy(g, s.buf)
    ensures
      var len := PanelStride(g.pieces[it].kc, false);
      0 <= q * len && q * len + len <= |s.buf|
  {
    var len := PanelStride(g.pieces[it].kc, false);
    Index.MulNonneg(q, len);
    Index.MulMono(q + 1, g.pieces[it].npan, len);
    Index.MulAdd(q, 1, len);
  }

  /** Packing one slot fills it and leaves the others alone. */
  lemma PackedSlots<F>(g: Config<F>, s: State<F>, i: nat, it: nat, next: nat, q: nat)
    requires i < |s.works| && it < |g.pieces| && next < g.pieces[it].npan && q < g.pieces[it].npan && Roomy(g, s.buf)
    requires q == next || Slot(g, s.buf, g.pieces[it], q)
    ensures
      var t := PackStep(g, s, i, g.pieces[it], next);
      |t.buf| == |s.buf| && Slot(g, t.buf, g.pieces[it], q)
  {
    hide Panel;
    var p := g.pieces[it];
    var len := PanelStride(p.kc, false);
    var t := PackStep(g, s, i, p, next);
    SlotStride(g, s, it, next);
    SlotStride(g, s, it, q);
    if q == next {
      assert t.buf[q * len..q * len + len] == Panel(g.A, g.W, g.N, p.n0 + 8 * q, p.k0, p.kc);
      assert [] + Panel(g.A, g.W, g.N, p.n0 + 8 * q, p.k0, p.kc) == Panel(g.A, g.W, g.N, p.n0 + 8 * q, p.k0, p.kc);
    } else {
      SlotsApart(q, next, len);
      assert t.buf[q * len..q * len + len] == s.buf[q * len..q * len + len];
    }
  }

  lemma SlotsApart(q: nat, p: nat, len: nat)
    requires q != p
    ensures q * len + len <= p * len || p * len + len <= q * len
  {
    Index.MulAdd(q, 1, len);
    Index.MulAdd(p, 1, len);
    if q < p { Index.MulMono(q + 1, p, len); } else { Index.MulMono(p + 1, q, len); }
  }

  lemma PackKeeps<F>(g: Config<F>, s: State<F>, i: nat, next: nat)
    requires Inv(g, s) && i < |g.rows| && s.bar.pcs[i].Running? && s.steps[i] < |g.pieces|
    requires s.works[i] == Packing(next) && next < g.pieces[s.steps[i]].npan
    ensures Inv(g, PackStep(g, s, i, g.pieces[s.steps[i]], next))
  {
    hide SpinBarrier.Inv;
    hide Slot;
    hide Index.Mine;
    hide Roomy;
    hide ValidConfig;
    hide InTile;
    var it := s.steps[i];
    var p := g.pieces[it];
    var t := PackStep(g, s, i, p, next);
    RunnersAgree(s.bar, i);
    assert Linked(g, s, i);
    PackedSlots(g, s, i, it, next, next);
    RoomKept(g, s.buf, t.buf);
    Index.MineStride(next, i, |g.rows|);
    forall j: nat | j < |g.rows| ensures OwnPacked(g, t, j) && Linked(g, t, j) && RowsRight(g, t, j) {
      assert Linked(g, s, j) && OwnPacked(g, s, j) && RowsRight(g, s, j);
      if s.bar.passed[j] == s.bar.rounds && t.works[j].Packing? && s.steps[j] < |g.pieces| {
        assert s.steps[j] == it;
        forall q: nat | q < p.npan && q < t.works[j].next && Index.Mine(q, j, |g.rows|) ensures Slot(g, t.buf, p, q) {
          PackedSlots(g, s, i, it, next, q);
        }
      }
      assert forall r, c :: ReachedK(g, t, j, r, c) == ReachedK(g, s, j, r, c);
    }
  }

  lemma RoomKept<F>(g: Config<F>, a: seq<F>, b: seq<F>)
    requires Roomy(g, a) && |a| == |b|
    ensures Roomy(g, b)
  {
  }

  // --- a tile keeps it ---

  /** The tile that holds an output of a piece. */
  function TileFor(p: Piece, w: Rows, r: int, c: int): (int, int)
  {
    (w.lo + 4 * ((r - w.lo) / 4), (c - p.n0) / 8)
  }

  lemma TileForCovers(p: Piece, w: Rows, r: int, c: int)
    requires InRows(w, r) && InColumns(p, c)
    ensures IsTile(p, w, TileFor(p, w, r, c)) && InTile(p, w.hi, TileFor(p, w, r, c), r, c)
  {
  }

  /** A thread's tiles do not overlap. */
  lemma TileForUnique(p: Piece, w: Rows, t: (int, int), r: int, c: int)
    requires IsTile(p, w, t) && InTile(p, w.hi, t, r, c)
    ensures InRows(w, r) && InColumns(p, c) && t == TileFor(p, w, r, c)
  {
  }

  /** The value a tile stores continues the chain, because its panel is in its slot. */
  lemma TileValue<F>(g: Config<F>, s: State<F>, i: nat, it: nat, done: set<(int, int)>, tile: (int, int), r: int,
                     c: int)
    requires i < |s.works| == |g.rows| && it < |g.pieces| && ValidPieces(g.pieces, g.N, g.K)
    requires IsTile(g.pieces[it], g.rows[i], tile) && InTile(g.pieces[it], g.rows[i].hi, tile, r, c)
    requires Slot(g, s.buf, g.pieces[it], tile.1)
    requires 0 <= c < g.N && (g.pieces[it].k0 > 0 ==> s.y(r, c) == Chain(g.A, g.X, g.W, r, c, g.pieces[it].k0))
    ensures TileStep(g, s, i, g.pieces[it], done, tile).y(r, c) ==
      Chain(g.A, g.X, g.W, r, c, DoneK(g.pieces, it + 1, c))
  {
    hide Panel;
    hide ChainFrom;
    hide TileRun;
    var p := g.pieces[it];
    var q: nat := tile.1;
    var len := PanelStride(p.kc, false);
    var n := p.n0 + 8 * q;
    assert [] + Panel(g.A, g.W, g.N, n, p.k0, p.kc) == Panel(g.A, g.W, g.N, n, p.k0, p.kc);
    var from := Resume(g.A, s.y(r, c), p.k0 > 0);
    TileRunIsChain(g.A, g.X, g.W, g.N, s.buf, q * len, n, c - n, r, from, p.k0, p.kc, p.kc);
    ChainStart(g.A, g.X, g.W, r, c);
    ChainResume(g.A, g.X, g.W, r, c, g.A.zero, 0, p.k0, p.k0 + p.kc);
  }

  lemma ChainStart<F>(A: Arith<F>, X: Matrix<F>, W: Matrix<F>, m: int, n: int)
    ensures ChainFrom(A, X, W, m, n, A.zero, 0, 0) == A.zero
  {
  }

  /** One output after a tile: advanced if the tile holds it, untouched otherwise. */
  lemma TileOutput<F>(g: Config<F>, s: State<F>, i: nat, done: set<(int, int)>, tile: (int, int), r: nat, c: nat)
    requires Inv(g, s) && i < |g.rows| && s.bar.pcs[i].Running? && s.steps[i] < |g.pieces|
      && s.works[i] == Computing(done)
    requires IsTile(g.pieces[s.steps[i]], g.rows[i], tile) && tile !in done && InRows(g.rows[i], r) && c < g.N
    ensures
      var t := TileStep(g, s, i, g.pieces[s.steps[i]], done, tile);
      var k := ReachedK(g, t, i, r, c);
      k > 0 ==> t.y(r, c) == Chain(g.A, g.X, g.W, r, c, k)
  {
    hide SpinBarrier.Inv;
    hide Slot;
    hide Roomy;
    hide Chain;
    hide TileRun;
    var it := s.steps[i];
    var p, w := g.pieces[it], g.rows[i];
    var t := TileStep(g, s, i, p, done, tile);
    RunnersAgree(s.bar, i);
    assert Linked(g, s, i) && RowsRight(g, s, i);
    if InTile(p, w.hi, tile, r, c) {
      TileForUnique(p, w, tile, r, c);
      assert forall u :: u in done && InTile(p, w.hi, u, r, c) ==> u == tile by {
        forall u | u in done && InTile(p, w.hi, u, r, c) ensures u == tile { TileForUnique(p, w, u, r, c); }
      }
      assert ReachedK(g, s, i, r, c) == DoneK(g.pieces, it, c) == p.k0;
      TileValue(g, s, i, it, done, tile, r, c);
      assert tile in t.works[i].done;
    } else {
      assert ReachedK(g, t, i, r, c) == ReachedK(g, s, i, r, c);
    }
  }

  lemma TileKeeps<F>(g: Config<F>, s: State<F>, i: nat, done: set<(int, int)>, tile: (int, int))
    requires Inv(g, s) && i < |g.rows| && s.bar.pcs[i].Running? && s.steps[i] < |g.pieces|
      && s.works[i] == Computing(done)
    requires IsTile(g.pieces[s.steps[i]], g.rows[i], tile) && tile !in done
    ensures Inv(g, TileStep(g, s, i, g.pieces[s.steps[i]], done, tile))
  {
    hide SpinBarrier.Inv;
    hide Slot;
    hide Index.Mine;
    hide Roomy;
    hide Chain;
    hide TileRun;
    var p := g.pieces[s.steps[i]];
    var t := TileStep(g, s, i, p, done, tile);
    forall j: nat | j < |g.rows| ensures OwnPacked(g, t, j) && Linked(g, t, j) && RowsRight(g, t, j) {
      assert Linked(g, s, j) && OwnPacked(g, s, j) && RowsRight(g, s, j);
      if j == i {
        forall r: nat, c: nat | InRows(g.rows[i], r) && c < g.N
          ensures var k := ReachedK(g, t, i, r, c); k > 0 ==> t.y(r, c) == Chain(g.A, g.X, g.W, r, c, k)
        {
          TileOutput(g, s, i, done, tile, r, c);
        }
      } else {
        forall r: nat, c: nat | InRows(g.rows[j], r) && c < g.N
          ensures t.y(r, c) == s.y(r, c) && ReachedK(g, t, j, r, c) == ReachedK(g, s, j, r, c)
        {
          assert InRows(g.rows[i], r) || !InTile(p, g.rows[i].hi, tile, r, c);
        }
      }
    }
  }

  // --- the barrier keeps it ---

  /** A step of the barrier that is not a return changes nothing the schedule looks at. */
  lemma EnterKeepsWork<F>(g: Config<F>, s: State<F>, i: nat)
    requires Inv(g, s) && i < |g.rows| && Act(s.bar, i).passed[i] == s.bar.passed[i]
    requires s.bar.pcs[i].Running? ==> s.steps[i] < |g.pieces| && HalfDone(g, s, i)
    ensures Inv(g, BarrierStep(s, i))
  {
    hide SpinBarrier.Inv;
    hide Slot;
    hide Index.Mine;
    hide Roomy;
    hide Chain;
    hide ValidConfig;
    ActKeeps(s.bar, i);
    var t := BarrierStep(s, i);
    assert t.bar.passed == s.bar.passed && t.bar.rounds == s.bar.rounds;
    forall j: nat | j < |g.rows|
      ensures OwnPacked(g, t, j) && Linked(g, t, j) && RowsRight(g, t, j)
      ensures !t.bar.pcs[j].Running? ==> HalfDone(g, t, j)
    {
      assert Linked(g, s, j) && OwnPacked(g, s, j) && RowsRight(g, s, j);
      assert forall r, c :: ReachedK(g, t, j, r, c) == ReachedK(g, s, j, r, c);
      assert j != i ==> t.bar.pcs[j] == s.bar.pcs[j];
    }
  }

  lemma TilesInColumns(p: Piece, w: Rows, done: set<(int, int)>, r: int, c: int)
    requires forall t :: t in done ==> IsTile(p, w, t)
    ensures (exists t :: t in done && InTile(p, w.hi, t, r, c)) ==> InColumns(p, c)
  {
    forall t | t in done && InTile(p, w.hi, t, r, c) ensures InColumns(p, c) { TileForUnique(p, w, t, r, c); }
  }

  /** Starting the next half leaves every output where it was in its chain. */
  lemma NextHalfReached<F>(g: Config<F>, s: State<F>, i: nat, r: nat, c: nat)
    requires Shaped(g, s) && i < |g.rows| && Linked(g, s, i) && s.steps[i] < |g.pieces| && HalfDone(g, s, i)
    requires Act(s.bar, i).passed[i] != s.bar.passed[i] && InRows(g.rows[i], r)
    ensures Shaped(g, BarrierStep(s, i)) && BarrierStep(s, i).steps[i] <= |g.pieces|
    ensures ReachedK(g, BarrierStep(s, i), i, r, c) == ReachedK(g, s, i, r, c)
  {
    var p, w, t := g.pieces[s.steps[i]], g.rows[i], BarrierStep(s, i);
    if s.works[i].Computing? {
      if InColumns(p, c) {
        TileForCovers(p, w, r, c);
        assert TileFor(p, w, r, c) in s.works[i].done;
      } else {
        TilesInColumns(p, w, s.works[i].done, r, c);
      }
    }
  }

  /** What a return does to the thread that returns. */
  lemma ReturnerKeeps<F>(g: Config<F>, s: State<F>, i: nat)
    requires Inv(g, s) && i < |g.rows| && s.steps[i] < |g.pieces| && HalfDone(g, s, i)
    requires Act(s.bar, i).passed[i] != s.bar.passed[i]
    ensures
      var t := BarrierStep(s, i);
      Shaped(g, t) && Linked(g, t, i) && OwnPacked(g, t, i) && RowsRight(g, t, i) && t.bar.pcs[i].Running?
  {
    hide SpinBarrier.Inv;
    hide Slot;
    hide Roomy;
    hide Chain;
    hide ValidConfig;
    hide ReachedK;
    var t := BarrierStep(s, i);
    assert Linked(g, s, i) && RowsRight(g, s, i);
    Index.MineFirst(i, i, |g.rows|);
    forall q: nat | q < i ensures !Index.Mine(q, i, |g.rows|) { Index.MineFirst(q, i, |g.rows|); }
    forall r: nat, c: nat | InRows(g.rows[i], r) && c < g.N
      ensures ReachedK(g, t, i, r, c) == ReachedK(g, s, i, r, c)
    {
      NextHalfReached(g, s, i, r, c);
    }
  }

  lemma OthersKept<F>(g: Config<F>, s: State<F>, i: nat, j: nat)
    requires Inv(g, s) && i < |g.rows| && j < |g.rows| && j != i
    requires s.bar.passed[j] == s.bar.rounds ==>
      Act(s.bar, i).rounds == s.bar.rounds || s.bar.passed[j] != Act(s.bar, i).rounds
    requires s.bar.passed[j] != s.bar.rounds ==> s.bar.passed[j] != Act(s.bar, i).rounds
    ensures
      var t := BarrierStep(s, i);
      && Shaped(g, t) && Linked(g, t, j) && OwnPacked(g, t, j) && RowsRight(g, t, j)
      && (!t.bar.pcs[j].Running? ==> HalfDone(g, t, j))
  {
    hide SpinBarrier.Inv;
    hide Slot;
    hide Index.Mine;
    hide Roomy;
    hide Chain;
    hide ValidConfig;
    var t := BarrierStep(s, i);
    assert t.bar.pcs[j] == s.bar.pcs[j] && t.bar.passed[j] == s.bar.passed[j];
    assert Linked(g, s, j) && OwnPacked(g, s, j) && RowsRight(g, s, j);
    assert forall r, c :: ReachedK(g, t, j, r, c) == ReachedK(g, s, j, r, c);
  }

  /** When the last arrival ends a packing half, every panel of the piece is in its slot. */
  lemma RoundPacked<F>(g: Config<F>, s: State<F>, i: nat, q: nat)
    requires Inv(g, s) && i < |g.rows| && s.steps[i] < |g.pieces| && HalfDone(g, s, i) && s.works[i].Packing?
    requires s.bar.pcs[i].Reset? || (s.bar.pcs[i].Running? && |g.rows| == 1)
    requires q < g.pieces[s.steps[i]].npan
    ensures Slot(g, s.buf, g.pieces[s.steps[i]], q)
  {
    hide Slot;
    hide Index.Mine;
    hide Roomy;
    hide ValidConfig;
    RunnersAgree(s.bar, i);
    Index.MineOwner(q, |g.rows|);
    var o: nat := q % |g.rows|;
    assert Linked(g, s, i) && Linked(g, s, o) && OwnPacked(g, s, o);
    if o != i {
      assert OthersWait(s.bar, i);
      assert Waiting(s.bar, o);
      assert HalfDone(g, s, o);
    }
  }

  lemma ReturnKeeps<F>(g: Config<F>, s: State<F>, i: nat)
    requires Inv(g, s) && i < |g.rows| && s.steps[i] < |g.pieces| && HalfDone(g, s, i)
    requires Act(s.bar, i).passed[i] != s.bar.passed[i]
    ensures Inv(g, BarrierStep(s, i))
  {
    var t := BarrierStep(s, i);
    ReturnFacts(s.bar, i);
    ActKeeps(s.bar, i);
    ReturnerKeeps(g, s, i);
    forall j: nat | j < |g.rows|
      ensures Linked(g, t, j) && OwnPacked(g, t, j) && RowsRight(g, t, j)
      ensures !t.bar.pcs[j].Running? ==> HalfDone(g, t, j)
    {
      if j != i { OthersKept(g, s, i, j); }
    }
    ReturnPacked(g, s, i);
  }

  lemma ReturnPacked<F>(g: Config<F>, s: State<F>, i: nat)
    requires Inv(g, s) && i < |g.rows| && s.steps[i] < |g.pieces| && HalfDone(g, s, i)
    requires Act(s.bar, i).passed[i] != s.bar.passed[i]
    ensures Shaped(g, BarrierStep(s, i)) && AllPacked(g, BarrierStep(s, i))
  {
    hide Slot;
    hide Index.Mine;
    hide Roomy;
    hide ValidConfig;
    hide SpinBarrier.Inv;
    var t := BarrierStep(s, i);
    ReturnFacts(s.bar, i);
    if t.bar.rounds != s.bar.rounds && t.bar.rounds % 2 == 1 {
      RunnersAgree(s.bar, i);
      assert Linked(g, s, i);
      forall q: nat | q < g.pieces[s.steps[i]].npan ensures Slot(g, s.buf, g.pieces[s.steps[i]], q) {
        RoundPacked(g, s, i, q);
      }
    }
  }

  /** A return either joins the round already open or, by the last arrival, opens the next one. */
  lemma ReturnFacts(b: Barrier, i: nat)
    requires SpinBarrier.Inv(b) && i < |b.pcs| && Act(b, i).passed[i] != b.passed[i]
    ensures Act(b, i).rounds == b.rounds || Act(b, i).rounds == b.rounds + 1
    ensures Act(b, i).rounds != b.rounds ==> b.pcs[i].Reset? || (b.pcs[i].Running? && |b.pcs| == 1)
    ensures forall j: nat :: j < |b.pcs| ==> b.passed[j] <= b.rounds
    ensures Act(b, i).rounds != b.rounds ==> forall j: nat :: j < |b.pcs| ==> b.passed[j] == b.rounds
  {
    forall j: nat | j < |b.pcs| ensures b.passed[j] <= b.rounds { assert Placed(b, j); }
    if Act(b, i).rounds != b.rounds {
      forall j: nat | j < |b.pcs| ensures b.passed[j] == b.rounds {
        assert Placed(b, i);
        if j != i { assert OthersWait(b, i); assert Waiting(b, j); }
      }
    }
  }

  /** Every step of every thread keeps the invariant. */
  lemma NextKeeps<F>(g: Config<F>, s: State<F>, t: State<F>)
    requires Inv(g, s) && Next(g, s, t)
    ensures Inv(g, t)
  {
    hide SpinBarrier.Inv;
    hide Roomy;
    hide ValidConfig;
    hide RowsRight;
    hide OwnPacked;
    hide AllPacked;
    var i: nat :| i < |g.rows| && ThreadStep(g, s, t, i);
    assert Linked(g, s, i);
    if t == BarrierStep(s, i) && (s.bar.pcs[i].Running? ==> s.steps[i] < |g.pieces| && HalfDone(g, s, i)) {
      if Act(s.bar, i).passed[i] == s.bar.passed[i] { EnterKeepsWork(g, s, i); } else { ReturnKeeps(g, s, i); }
    } else {
      var p := g.pieces[s.steps[i]];
      match s.works[i]
      case Packing(next) =>
        PackKeeps(g, s, i, next);
      case Computing(done) =>
        var tile :| IsTile(p, g.rows[i], tile) && tile !in done && t == TileStep(g, s, i, p, done, tile);
        TileKeeps(g, s, i, done, tile);
    }
  }

  // --- whole runs ---

  ghost predicate IsRun<F>(g: Config<F>, tr: seq<State<F>>)
  {
    |tr| > 0 && Start(g, tr[0]) && forall k: nat :: k + 1 < |tr| ==> Next(g, tr[k], tr[k + 1])
  }

  ghost predicate Finished<F>(g: Config<F>, s: State<F>)
    requires Shaped(g, s)
  {
    forall i: nat :: i < |g.rows| ==> s.steps[i] == |g.pieces|
  }

  lemma {:induction false} RunInv<F>(g: Config<F>, tr: seq<State<F>>, k: nat)
    requires ValidConfig(g) && IsRun(g, tr) && k < |tr|
    ensures Inv(g, tr[k])
  {
    hide Inv;
    hide Next;
    hide ValidConfig;
    if k == 0 { StartInv(g, tr[0]); } else { RunInv(g, tr, k - 1); NextKeeps(g, tr[k - 1], tr[k]); }
  }

  /** However the threads interleave, no thread ever packs while another computes. */
  lemma NoRunPacksDuringCompute<F>(g: Config<F>, tr: seq<State<F>>, k: nat, i: nat, j: nat)
    requires ValidConfig(g) && IsRun(g, tr) && k < |tr| && i < |g.rows| && j < |g.rows|
    ensures Shaped(g, tr[k])
    ensures tr[k].bar.pcs[i].Running? && tr[k].bar.pcs[j].Running? ==>
      tr[k].steps[i] == tr[k].steps[j] && (tr[k].works[i].Packing? <==> tr[k].works[j].Packing?)
  {
    RunInv(g, tr, k);
    if tr[k].bar.pcs[i].Running? && tr[k].bar.pcs[j].Running? { NoPackDuringCompute(g, tr[k], i, j); }
  }

  /** However the threads interleave, once all have finished every output is the definition's chain. */
  lemma RunIsRight<F>(g: Config<F>, tr: seq<State<F>>, k: nat, r: nat, c: nat)
    requires ValidConfig(g) && IsRun(g, tr) && k < |tr| && r < g.M && c < g.N && g.K > 0
    ensures Shaped(g, tr[k]) && (Finished(g, tr[k]) ==> tr[k].y(r, c) == Chain(g.A, g.X, g.W, r, c, g.K))
  {
    hide Chain;
    RunInv(g, tr, k);
    assert Owned(g.rows, r);
    var i :| 0 <= i < |g.rows| && InRows(g.rows[i], r);
    var n: nat := i;
    assert Linked(g, tr[k], n) && RowsRight(g, tr[k], n);
  }

  /** A thread outside the barrier with work left can take a step that changes the state. */
  lemma RunnerMoves<F>(g: Config<F>, s: State<F>, i: nat) returns (t: State<F>)
    requires Inv(g, s) && i < |g.rows| && s.bar.pcs[i].Running? && s.steps[i] < |g.pieces|
    ensures Next(g, s, t) && t != s
  {
    var p := g.pieces[s.steps[i]];
    match s.works[i]
    case Packing(next) =>
      if next < p.npan {
        t := PackStep(g, s, i, p, next);
        assert t.works[i] != s.works[i];
      } else {
        t := BarrierStep(s, i);
        assert t.bar != s.bar;
      }
      assert ThreadStep(g, s, t, i);
    case Computing(done) =>
      if forall tile :: IsTile(p, g.rows[i], tile) ==> tile in done {
        t := BarrierStep(s, i);
        assert t.bar != s.bar;
      } else {
        var tile :| IsTile(p, g.rows[i], tile) && tile !in done;
        t := TileStep(g, s, i, p, done, tile);
        assert tile in t.works[i].done;
      }
      assert ThreadStep(g, s, t, i);
  }

  /** A thread inside the barrier behind a finished one has been released. */
  lemma InsideMoves<F>(g: Config<F>, s: State<F>, i: nat, f: nat)
    requires Inv(g, s) && i < |g.rows| && f < |g.rows| && !s.bar.pcs[i].Running? && s.bar.pcs[f].Running?
    requires s.steps[f] == |g.pieces|
    ensures Act(s.bar, i) != s.bar
  {
    RunnersAgree(s.bar, f);
    assert Linked(g, s, i) && Linked(g, s, f) && Placed(s.bar, i) && Placed(s.bar, f);
    assert Act(s.bar, i).pcs[i] != s.bar.pcs[i];
  }

  /** With no runner left to work, a thread inside the barrier can move. */
  lemma SomeInsiderMoves<F>(g: Config<F>, s: State<F>, l: nat) returns (m: nat)
    requires Inv(g, s) && l < |g.rows| && s.steps[l] != |g.pieces|
    requires forall i: nat :: i < |g.rows| && s.bar.pcs[i].Running? ==> s.steps[i] == |g.pieces|
    ensures m < |g.rows| && Act(s.bar, m) != s.bar && !s.bar.pcs[m].Running?
  {
    hide RowsRight;
    hide OwnPacked;
    hide AllPacked;
    hide ValidConfig;
    hide Act;
    if f: nat :| f < |g.rows| && s.bar.pcs[f].Running? {
      InsideMoves(g, s, l, f);
      m := l;
    } else {
      SpinBarrier.NeverStuck(s.bar);
      m :| m < |s.bar.pcs| && Act(s.bar, m) != s.bar;
    }
  }

  /** No reachable state is stuck: until all threads have finished, some thread's step changes the state. */
  lemma NeverStuckRun<F>(g: Config<F>, s: State<F>) returns (t: State<F>)
    requires Inv(g, s) && !Finished(g, s)
    ensures Next(g, s, t) && t != s
  {
    hide Inv;
    hide Act;
    assert Shaped(g, s) && forall i: nat :: i < |g.rows| ==> Linked(g, s, i) by { InvParts(g, s); }
    if i: nat :| i < |g.rows| && s.bar.pcs[i].Running? && s.steps[i] < |g.pieces| {
      t := RunnerMoves(g, s, i);
    } else {
      var l: nat :| l < |g.rows| && s.steps[l] != |g.pieces|;
      forall i: nat | i < |g.rows| && s.bar.pcs[i].Running? ensures s.steps[i] == |g.pieces| {
        assert Linked(g, s, i);
      }
      var m := SomeInsiderMoves(g, s, l);
      t := BarrierStep(s, m);
      assert ThreadStep(g, s, t, m) && t.bar != s.bar;
    }
  }

  lemma InvParts<F>(g: Config<F>, s: State<F>)
    requires Inv(g, s)
    ensures Shaped(g, s) && forall i: nat :: i < |g.rows| ==> Linked(g, s, i)
  {
  }

  // --- the schedule run_sched builds ---

  lemma {:induction false} DoneKPrefix(a: seq<Piece>, b: seq<Piece>, it: nat, c: int)
    requires it <= |a|
    ensures DoneK(a + b, it, c) == DoneK(a, it, c)
    decreases it
  {
    if it > 0 { DoneKPrefix(a, b, it - 1, c); }
  }

  /** Every piece so far stays inside the columns and resumes where the earlier ones stopped. */
  ghost predicate Resuming(pieces: seq<Piece>, N: nat)
  {
    && (forall it: nat :: it < |pieces| ==> pieces[it].n0 + 8 * pieces[it].npan <= N)
    && (forall it: nat, c: nat :: it < |pieces| && InColumns(pieces[it], c) ==> pieces[it].k0 == DoneK(pieces, it, c))
  }

  lemma ResumeMore(pieces: seq<Piece>, p: Piece, N: nat)
    requires Resuming(pieces, N) && p.n0 + 8 * p.npan <= N
    requires forall c: nat :: InColumns(p, c) ==> p.k0 == DoneK(pieces, |pieces|, c)
    ensures Resuming(pieces + [p], N)
    ensures forall c: nat ::
              DoneK(pieces + [p], |pieces| + 1, c) == if InColumns(p, c)
                                                      then p.k0 + p.kc else DoneK(pieces, |pieces|, c)
  {
    forall it: nat, c: nat | it <= |pieces| ensures DoneK(pieces + [p], it, c) == DoneK(pieces, it, c) {
      DoneKPrefix(pieces, [p], it, c);
    }
  }

  /** The two loops over column blocks and contraction chunks. */
  method BuildPieces(s: Sched, K: nat, N: nat) returns (pieces: seq<Piece>)
    requires Schedulable(s, K, N)
    ensures ValidPieces(pieces, N, K)
    ensures forall p :: p in pieces ==> 8 * p.npan <= s.NB && p.kc <= ChunkOf(s, K)
  {
    hide DoneK;
    pieces := [];
    var NB, KC := s.NB, ChunkOf(s, K);
    var n0 := 0;
    forall c: nat ensures DoneK(pieces, 0, c) == 0 { NothingDone(pieces, c); }
    while n0 < N
      invariant 0 <= n0 && n0 % 8 == 0
      invariant Resuming(pieces, N) && forall p :: p in pieces ==> 8 * p.npan <= NB && p.kc <= KC
      invariant forall c: nat :: DoneK(pieces, |pieces|, c) == if c < Min(n0, N) then K else 0
      decreases N - n0
    {
      var n1 := Min(N, n0 + NB);
      var npan := (n1 - n0 + 7) / 8;
      PanelsOf(NB, N, n0, n1);
      var k0 := 0;
      while k0 < K
        invariant 0 <= k0
        invariant Resuming(pieces, N) && forall p :: p in pieces ==> 8 * p.npan <= NB && p.kc <= KC
        invariant forall c: nat :: DoneK(pieces, |pieces|, c) == if c < n0 then K else if c < n1 then Min(k0, K) else 0
        decreases K - k0
      {
        var p := Piece(n0, npan, k0, Min(K, k0 + KC) - k0);
        ResumeMore(pieces, p, N);
        ghost var before := pieces;
        pieces := pieces + [p];
        forall c: nat
          ensures DoneK(pieces, |pieces|, c) == if c < n0 then K else if c < n1 then Min(k0 + KC, K) else 0
        {
          assert DoneK(before + [p], |before| + 1, c)
              == if InColumns(p, c) then p.k0 + p.kc else DoneK(before, |before|, c);
        }
        k0 := k0 + KC;
      }
      n0 := n0 + NB;
    }
  }

  lemma NothingDone(pieces: seq<Piece>, c: nat)
    ensures DoneK(pieces, 0, c) == 0
  {
  }

  /** The first row of thread i: rows are dealt in groups of four. */
  function RowStart(M: nat, nth: nat, i: nat): (r: nat)
    requires nth > 0
    ensures r <= M
  {
    GroupNonneg(M, nth, i);
    Min(M, ((M + 3) / 4 * i / nth) * 4)
  }

  lemma GroupNonneg(M: nat, nth: nat, i: nat)
    requires nth > 0
    ensures (M + 3) / 4 * i / nth >= 0
  {
    Index.MulNonneg((M + 3) / 4, i);
    Index.DivMod((M + 3) / 4 * i, nth);
  }

  lemma DivMonotone(a: int, b: int, d: int)
    requires d > 0 && a <= b
    ensures a / d <= b / d
  {
    Index.DivMod(a, d);
    Index.DivMod(b, d);
    if b / d < a / d {
      Index.MulMono(b / d + 1, a / d, d);
      Index.MulAdd(b / d, 1, d);
    }
  }

  lemma RowStartMonotone(M: nat, nth: nat, i: nat, j: nat)
    requires nth > 0 && i <= j
    ensures RowStart(M, nth, i) <= RowStart(M, nth, j)
  {
    var g := (M + 3) / 4;
    Index.MulMono(i, j, g);
    DivMonotone(g * i, g * j, nth);
  }

  /** A thread starts at a multiple of four, or at the end, and no share is over a group of four above the even one. */
  lemma RowGroups(M: nat, nth: nat, i: nat)
    requires i < nth
    ensures var rows := RowSplit(M, nth)[i];
      && (rows.lo % 4 == 0 || rows.lo == M)
      && 0 <= rows.hi - rows.lo <= 4 * ((M + 3) / 4 / nth + 1)
  {
    var g := (M + 3) / 4;
    assert g * (i + 1) == g * i + g;
    OneGroupMore(g * i, g, nth);
    DivMonotone(g * i, g * i + g, nth);
    GroupStart(M, nth, i);
    GroupStart(M, nth, i + 1);
    hide RowStart;
    var rows := RowSplit(M, nth)[i];
    assert rows.lo == RowStart(M, nth, i) && rows.hi == RowStart(M, nth, i + 1);
    GroupGap(M, g * i / nth, g * (i + 1) / nth, g / nth);
  }

  lemma GroupGap(M: nat, a: int, b: int, d: int)
    requires 0 <= a <= b <= a + d + 1
    ensures var lo, hi := Min(M, a * 4), Min(M, b * 4); (lo % 4 == 0 || lo == M) && 0 <= hi - lo <= 4 * (d + 1)
  {
  }

  lemma GroupStart(M: nat, nth: nat, i: nat)
    requires nth > 0
    ensures var q := (M + 3) / 4 * i / nth; q >= 0 && RowStart(M, nth, i) == Min(M, q * 4)
  {
    GroupNonneg(M, nth, i);
  }

  lemma OneGroupMore(x: nat, g: nat, n: nat)
    requires n > 0
    ensures (x + g) / n <= x / n + g / n + 1
  {
    Index.DivMod(x, n);
    Index.DivMod(g, n);
    Index.DivMod(x + g, n);
    var a, d, b := x / n, g / n, (x + g) / n;
    Index.MulAdd(a, d, n);
    Index.MulAdd(a + d, 2, n);
    if b > a + d + 1 { Index.MulMono(a + d + 2, b, n); }
  }

  lemma RowStartEnds(M: nat, nth: nat)
    requires nth > 0
    ensures RowStart(M, nth, 0) == 0 && RowStart(M, nth, nth) == M
  {
    var g := (M + 3) / 4;
    Index.ModMultiple(g, nth);
    Index.ModMultiple(0, nth);
    assert g * 0 == 0 && 0 * nth == 0;
  }

  function RowSplit(M: nat, nth: nat): (rows: seq<Rows>)
    requires nth > 0
    ensures |rows| == nth
  {
    seq(nth, i requires 0 <= i < nth => Rows(RowStart(M, nth, i), RowStart(M, nth, i + 1)))
  }

  lemma {:induction false} RowFound(M: nat, nth: nat, n: nat, r: nat)
    requires 0 < nth && n <= nth && r < RowStart(M, nth, n)
    ensures Owned(RowSplit(M, nth), r)
  {
    hide RowStart;
    RowStartEnds(M, nth);
    if n > 0 {
      if r < RowStart(M, nth, n - 1) { RowFound(M, nth, n - 1, r); }
      else { assert InRows(RowSplit(M, nth)[n - 1], r); }
    }
  }

  /** The row split deals every row to exactly one thread, for every row and thread count. */
  lemma RowSplitValid(M: nat, nth: nat)
    requires nth > 0
    ensures ValidRows(RowSplit(M, nth), M)
  {
    hide RowStart;
    var rows := RowSplit(M, nth);
    RowStartEnds(M, nth);
    forall r: nat | r < M ensures Owned(rows, r) { RowFound(M, nth, nth, r); }
    forall i, j, r: nat | 0 <= i < nth && 0 <= j < nth && InRows(rows[i], r) && InRows(rows[j], r) ensures i == j {
      if i < j { RowStartMonotone(M, nth, i + 1, j); }
      if j < i { RowStartMonotone(M, nth, j + 1, i); }
    }
  }

  // --- the run of run_sched ---

  /** A run over a buffer of NB columns by the chunk length, every thread at its first panel. */
  ghost predicate SharedRun<F>(g: Config<F>, s: Sched, tr: seq<State<F>>)
  {
    && |tr| > 0 && AtFirst(g, tr[0]) && s.NB * ChunkOf(s, g.K) <= |tr[0].buf|
    && forall k: nat :: k + 1 < |tr| ==> Next(g, tr[k], tr[k + 1])
  }

  /** A configuration with a thread, a buffer large enough and any outputs have a run, of its first state alone. */
  lemma RunStarts<F>(g: Config<F>, s: Sched, buf: seq<F>, y: (int, int) -> F) returns (first: State<F>)
    requires |g.rows| > 0 && s.NB * ChunkOf(s, g.K) <= |buf|
    ensures SharedRun(g, s, [first]) && first.buf == buf && first.y == y
  {
    var n := |g.rows|;
    var bar := SpinBarrier.Starts(n);
    first := State(bar, seq(n, _ => 0), seq(n, i requires 0 <= i => Packing(i)), buf, y);
    assert AtFirst(g, first);
  }

  /** Pieces no larger than the block and chunk sizes have room in a buffer of their product. */
  lemma PieceRoom(p: Piece, NB: nat, KC: nat)
    requires 8 * p.npan <= NB && p.kc <= KC
    ensures p.npan * PanelStride(p.kc, false) <= NB * KC
  {
    Index.MulMono(8 * p.npan, NB, p.kc);
    Index.MulMono(p.kc, KC, NB);
    Index.MulAssoc(p.npan, 8, p.kc);
    assert p.npan * PanelStride(p.kc, false) == 8 * p.npan * p.kc;
  }

  lemma SharedRunIsRun<F>(g: Config<F>, s: Sched, tr: seq<State<F>>)
    requires SharedRun(g, s, tr) && forall p :: p in g.pieces ==> 8 * p.npan <= s.NB && p.kc <= ChunkOf(s, g.K)
    ensures IsRun(g, tr)
  {
    hide PanelStride;
    hide Next;
    hide AtFirst;
    forall it: nat | it < |g.pieces| ensures g.pieces[it].npan * PanelStride(g.pieces[it].kc, false) <= |tr[0].buf| {
      assert g.pieces[it] in g.pieces;
      PieceRoom(g.pieces[it], s.NB, ChunkOf(s, g.K));
    }
  }

  /** Once all threads have finished, output (r, c) is the definition's chain. */
  ghost predicate RightWhenDone<F>(g: Config<F>, s: State<F>, r: nat, c: nat)
  {
    Shaped(g, s) && (Finished(g, s) ==> s.y(r, c) == Chain(g.A, g.X, g.W, r, c, g.K))
  }

  /** In every state of every run over it, the plan's outputs are right once all threads have finished. */
  ghost predicate EveryRunRight<F(!new)>(g: Config<F>, s: Sched)
  {
    forall tr: seq<State<F>>, k: nat, r: nat, c: nat :: SharedRun(g, s, tr) && k < |tr| && r < g.M && c < g.N ==>
      RightWhenDone(g, tr[k], r, c)
  }

  /**
   run_sched in mode s, planned: for every schedule, problem size and thread count the pieces and the rows dealt make a
   valid configuration, a buffer of NB columns by the chunk length has room for every piece, and every finished run has
   computed the definition's chain in every output.
   */
  method PlanShared<F(!new)>(A: Arith<F>, X: Matrix<F>, W: Matrix<F>, s: Sched, M: nat, K: nat, N: nat, nth: nat)
    returns (g: Config<F>)
    requires Schedulable(s, K, N) && nth > 0
    ensures g.A == A && g.X == X && g.W == W && g.M == M && g.K == K && g.N == N && |g.rows| == nth
    ensures ValidConfig(g) && EveryRunRight(g, s)
    ensures forall buf: seq<F> :: s.NB * ChunkOf(s, K) <= |buf| ==> Roomy(g, buf)
  {
    hide ValidPieces;
    hide ValidRows;
    hide PanelStride;
    hide Chain;
    hide SharedRun;
    var pieces := BuildPieces(s, K, N);
    RowSplitValid(M, nth);
    g := Config(A, X, W, N, M, K, pieces, RowSplit(M, nth));
    forall it: nat | it < |pieces| ensures pieces[it].npan * PanelStride(pieces[it].kc, false) <= s.NB * ChunkOf(s, K) {
      assert pieces[it] in pieces;
      PieceRoom(pieces[it], s.NB, ChunkOf(s, K));
    }
    forall tr: seq<State<F>>, k: nat, r: nat, c: nat | SharedRun(g, s, tr) && k < |tr| && r < g.M && c < g.N
      ensures RightWhenDone(g, tr[k], r, c)
    {
      SharedRunIsRun(g, s, tr);
      RunIsRight(g, tr, k, r, c);
    }
  }
}
