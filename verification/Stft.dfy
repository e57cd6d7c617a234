/** scripts/bench54.cpp: the windowed analysis and the overlap-add synthesis, and that the second undoes the first. */
module Stft {
  import opened Complex
  import opened Powers
  import opened Dft
  import opened RealDft
  import opened RealFft
  import opened Index

  /** A float division whose 0 / 0 is not a number. */
  datatype Quotient = Value(v: real) | NotANumber

  function Divide(a: real, b: real): Quotient { if b == 0.0 then NotANumber else Value(a / b) }

  /** The sample frame f starts at. */
  function FrameStart(f: nat, hop: nat): (o: nat) { f * hop }

  /** The offset as both operators compute it. */
  method Start(f: nat, hop: nat) returns (o: nat)
    ensures o == FrameStart(f, hop)
  {
    StartsAt(f, hop);
    o := f * hop;
  }

  lemma StartsAt(f: nat, hop: nat)
    ensures FrameStart(f, hop) == f * hop
  {
  }

  /** The half spectrum of windowed frame f. */
  function FrameSpectrum(x: seq<real>, win: seq<real>, w: int -> Complex, m: nat, hop: nat, f: nat): (X: seq<Complex>)
    requires FrameStart(f, hop) + |win| <= |x|
    ensures |X| == m + 1
  {
    HalfSpectrum(Windowed(x, FrameStart(f, hop), win), w, m)
  }

  /** It is the half spectrum of the samples from f hop on, each times its window value. */
  lemma FrameIs(x: seq<real>, win: seq<real>, w: int -> Complex, m: nat, hop: nat, f: nat, s: seq<real>)
    requires |s| == |win| && f * hop + |win| <= |x|
    requires forall q :: 0 <= q < |s| ==> s[q] == x[f * hop + q] * win[q]
    ensures FrameStart(f, hop) + |win| <= |x| && FrameSpectrum(x, win, w, m, hop, f) == HalfSpectrum(s, w, m)
  {
    hide HalfSpectrum;
    StartsAt(f, hop);
    var v := Windowed(x, f * hop, win);
    assert forall q :: 0 <= q < |v| ==> v[q] == x[f * hop + q] * win[q] == s[q];
    assert v == s;
  }

  /** Column f of a tensor stored frames fastest. */
  function Col(y: array2<real>, f: nat): (c: seq<real>)
    requires f < y.Length1
    reads y
    ensures |c| == y.Length0
    ensures forall k :: 0 <= k < |c| ==> c[k] == y[k, f]
  {
    seq(y.Length0, k requires 0 <= k < y.Length0 reads y => y[k, f])
  }

  /** A half spectrum as a column: real parts, then imaginary parts. */
  function Stack(X: seq<Complex>): (c: seq<real>)
    ensures |c| == 2 * |X|
  {
    seq(2 * |X|, k requires 0 <= k < 2 * |X| => if k < |X| then X[k].re else X[k - |X|].im)
  }

  /** Copies one half spectrum into column f. */
  method StoreFrame(y: array2<real>, f: nat, Xr: array<real>, Xi: array<real>)
    requires Xr.Length == Xi.Length && y.Length0 == 2 * Xr.Length && f < y.Length1
    modifies y
    ensures Col(y, f) == Stack(Zip(Xr[..], Xi[..]))
    ensures forall g: nat :: g < y.Length1 && g != f ==> Col(y, g) == old(Col(y, g))
  {
    var B := Xr.Length;
    for k := 0 to B
      invariant forall q :: 0 <= q < k ==> y[q, f] == Xr[q] && y[B + q, f] == Xi[q]
      invariant forall q, g :: 0 <= q < y.Length0 && 0 <= g < y.Length1 && g != f ==> y[q, g] == old(y[q, g])
    {
      y[k, f] := Xr[k];
      y[B + k, f] := Xi[k];
    }
    assert Col(y, f) == Stack(Zip(Xr[..], Xi[..])) by {
      forall q | B <= q < 2 * B ensures y[q, f] == Xi[q - B] { assert y[B + (q - B), f] == Xi[q - B]; }
    }
  }

  /** One thread's share of the analysis: every frame of its own, and no other frame's column. */
  method StftOp(p: Plan, hop: nat, x: seq<real>, y: array2<real>, ith: nat, nth: nat,
                ghost w: int -> Complex, ghost bits: nat)
    requires p.Valid(w, bits) && ith < nth && y.Length0 == 2 * (p.m + 1)
    requires forall f: nat :: f < y.Length1 ==> FrameStart(f, hop) + p.n <= |x|
    modifies y
    ensures forall f: nat :: f < y.Length1 ==>
      Col(y, f) == if Mine(f, ith, nth) then Stack(FrameSpectrum(x, p.win, w, p.m, hop, f)) else old(Col(y, f))
  {
    hide Mul;
    hide IsRoot;
    hide HalfSpectrum;
    hide Mine;
    hide Stack;
    var B := p.m + 1;
    var Xr, Xi, zr, zi := new real[B], new real[B], new real[p.m], new real[p.m];
    var f := ith;
    MineFirst(f, ith, nth);
    forall g: nat | g < f ensures !Mine(g, ith, nth) { MineFirst(g, ith, nth); }
    while f < y.Length1
      invariant Mine(f, ith, nth)
      invariant forall g: nat :: g < y.Length1 ==>
        Col(y, g) == if g < f && Mine(g, ith, nth) then Stack(FrameSpectrum(x, p.win, w, p.m, hop, g))
                     else old(Col(y, g))
    {
      var o := Start(f, hop);
      Rfft(p, x, o, Xr, Xi, zr, zi, w, bits);
      StoreFrame(y, f, Xr, Xi);
      MineStride(f, ith, nth);
      f := f + nth;
    }
  }

  /** All threads, in any order and each at least once: every frame is analysed. */
  method StftAllThreads(p: Plan, hop: nat, x: seq<real>, y: array2<real>, nth: nat, order: seq<nat>,
                        ghost w: int -> Complex, ghost bits: nat)
    requires p.Valid(w, bits) && nth > 0 && y.Length0 == 2 * (p.m + 1)
    requires forall f: nat :: f < y.Length1 ==> FrameStart(f, hop) + p.n <= |x|
    requires (forall i :: 0 <= i < |order| ==> order[i] < nth) && (forall t: nat :: t < nth ==> t in order)
    modifies y
    ensures forall f: nat :: f < y.Length1 ==> Col(y, f) == Stack(FrameSpectrum(x, p.win, w, p.m, hop, f))
  {
    hide Mul;
    hide IsRoot;
    hide HalfSpectrum;
    hide Mine;
    hide Stack;
    for i := 0 to |order|
      invariant forall f: nat, q: nat :: f < y.Length1 && q < i && Mine(f, order[q], nth)
                  ==> Col(y, f) == Stack(FrameSpectrum(x, p.win, w, p.m, hop, f))
    {
      StftOp(p, hop, x, y, order[i], nth, w, bits);
    }
    forall f: nat | f < y.Length1 ensures Col(y, f) == Stack(FrameSpectrum(x, p.win, w, p.m, hop, f)) {
      MineOwner(f, nth);
      assert f % nth in order;
      var q :| 0 <= q < |order| && order[q] == f % nth;
      assert Mine(f, order[q], nth);
    }
  }

  // --- overlap-add ---

  /** Sum over frames of what frame f, starting at FrameStart(f, hop), contributes to sample i. */
  function Overlap(frames: seq<seq<real>>, hop: nat, i: int, F: nat): real
    requires F <= |frames|
  {
    if F == 0 then 0.0 else Overlap(frames, hop, i, F - 1) + Shifted(frames[F - 1], i - FrameStart(F - 1, hop))
  }

  /** Element i of a sequence that is zero outside its range. */
  function Shifted(s: seq<real>, i: int): real { if 0 <= i < |s| then s[i] else 0.0 }

  function Squares(win: seq<real>): (r: seq<real>)
    ensures |r| == |win|
  {
    seq(|win|, i requires 0 <= i < |win| => win[i] * win[i])
  }

  function SquareFrames(win: seq<real>, F: nat): (r: seq<seq<real>>)
    ensures |r| == F && forall f :: 0 <= f < F ==> r[f] == Squares(win)
  {
    seq(F, _ => Squares(win))
  }

  /** The window-square sum that normalises sample i. */
  function WindowSum(win: seq<real>, hop: nat, i: int, F: nat): real
  {
    Overlap(SquareFrames(win, F), hop, i, F)
  }

  /** Column f of a spectrum held as separate real and imaginary tensors. */
  function Column(re: array2<real>, im: array2<real>, f: nat): (X: seq<Complex>)
    reads re, im
    requires re.Length0 == im.Length0 && re.Length1 == im.Length1 && f < re.Length1
    ensures |X| == re.Length0
  {
    seq(re.Length0, k requires 0 <= k < re.Length0 reads re, im => C(re[k, f], im[k, f]))
  }

  /** The synthesised frame of a half spectrum. */
  function SynthFrame(X: seq<Complex>, win: seq<real>, w: int -> Complex, m: nat): (r: seq<real>)
    requires m > 0 && |X| == m + 1
    ensures |r| == |win|
  {
    seq(|win|, i requires 0 <= i < |win| => RealIdft(X, w, m, i) * win[i])
  }

  method AddFrame(y: array<real>, o: nat, fr: seq<real>)
    requires o + |fr| <= y.Length
    modifies y
    ensures forall i :: 0 <= i < y.Length ==> y[i] == old(y[i]) + Shifted(fr, i - o)
  {
    for q := 0 to |fr|
      invariant forall i :: 0 <= i < y.Length ==>
        y[i] == old(y[i]) + (if 0 <= i - o < q then fr[i - o] else 0.0)
    {
      y[o + q] := y[o + q] + fr[q];
    }
  }

  method LoadColumn(re: array2<real>, im: array2<real>, f: nat, Xr: array<real>, Xi: array<real>)
    requires re.Length0 == im.Length0 == Xr.Length == Xi.Length && re.Length1 == im.Length1 && f < re.Length1
    requires Xr != Xi
    modifies Xr, Xi
    ensures Zip(Xr[..], Xi[..]) == Column(re, im, f)
  {
    for k := 0 to Xr.Length
      invariant forall q :: 0 <= q < k ==> Xr[q] == re[q, f] && Xi[q] == im[q, f]
    {
      Xr[k], Xi[k] := re[k, f], im[k, f];
    }
  }

  /** The synthesised frames of every column. */
  function SynthFrames(re: array2<real>, im: array2<real>, win: seq<real>, w: int -> Complex,
                       m: nat): (r: seq<seq<real>>)
    reads re, im
    requires re.Length0 == im.Length0 == m + 1 && re.Length1 == im.Length1 && m > 0
    ensures |r| == re.Length1
    ensures forall f :: 0 <= f < |r| ==> r[f] == SynthFrame(Column(re, im, f), win, w, m)
  {
    seq(re.Length1, f requires 0 <= f < re.Length1 reads re, im => SynthFrame(Column(re, im, f), win, w, m))
  }

  /** One frame of the synthesis loop: inverse transform, then add it and its squared window. */
  method AddSynthesised(p: Plan, re: array2<real>, im: array2<real>, f: nat, o: nat, y: array<real>, wsum: array<real>,
                        Xr: array<real>, Xi: array<real>, fr: array<real>, zr: array<real>, zi: array<real>,
                        ghost w: int -> Complex, ghost bits: nat)
    requires p.Valid(w, bits) && re.Length0 == im.Length0 == p.m + 1 && re.Length1 == im.Length1 && f < re.Length1
    requires y.Length == wsum.Length && o + p.n <= y.Length && y != wsum && {y, wsum} !! {Xr, Xi, fr, zr, zi}
    requires zr != zi && zr.Length == zi.Length == p.m && Xr != Xi && Xr.Length == Xi.Length == p.m + 1
    requires {Xr, Xi} !! {zr, zi} && fr.Length == p.n && fr !in {Xr, Xi, zr, zi}
    modifies y, wsum, Xr, Xi, fr, zr, zi
    ensures forall i :: 0 <= i < y.Length ==>
      y[i] == old(y[i]) + Shifted(SynthFrame(Column(re, im, f), p.win, w, p.m), i - o)
    ensures forall i :: 0 <= i < y.Length ==> wsum[i] == old(wsum[i]) + Shifted(Squares(p.win), i - o)
  {
    hide Mul;
    hide IsRoot;
    hide RealIdft;
    hide Column;
    hide Squares;
    hide SynthFrame;
    hide Shifted;
    LoadColumn(re, im, f, Xr, Xi);
    Irfft(p, Xr, Xi, fr, zr, zi, w, bits);
    IrfftIsSynthFrame(fr[..], Column(re, im, f), p.win, w, p.m);
    AddFrame(y, o, fr[..]);
    AddFrame(wsum, o, Squares(p.win));
  }

  method Normalise(y: array<real>, wsum: array<real>, out: array<Quotient>)
    requires y.Length == wsum.Length == out.Length
    modifies out
    ensures forall i :: 0 <= i < out.Length ==> out[i] == Divide(y[i], wsum[i])
  {
    hide Divide;
    for i := 0 to out.Length
      invariant forall q :: 0 <= q < i ==> out[q] == Divide(y[q], wsum[q])
    {
      out[i] := Divide(y[i], wsum[i]);
    }
  }

  /** One pass of the synthesis loop: both sums take in frame f. */
  method SynthesiseFrame(p: Plan, hop: nat, re: array2<real>, im: array2<real>, f: nat, y: array<real>,
                         wsum: array<real>, Xr: array<real>, Xi: array<real>, fr: array<real>, zr: array<real>,
                         zi: array<real>, ghost frames: seq<seq<real>>, ghost squares: seq<seq<real>>,
                         ghost w: int -> Complex, ghost bits: nat)
    requires p.Valid(w, bits) && re.Length0 == im.Length0 == p.m + 1 && re.Length1 == im.Length1 && f < re.Length1
    requires y.Length == wsum.Length && FrameStart(f, hop) + p.n <= y.Length && y != wsum
      && {y, wsum} !! {Xr, Xi, fr, zr, zi}
    requires zr != zi && zr.Length == zi.Length == p.m && Xr != Xi && Xr.Length == Xi.Length == p.m + 1
    requires {Xr, Xi} !! {zr, zi} && fr.Length == p.n && fr !in {Xr, Xi, zr, zi}
    requires frames == SynthFrames(re, im, p.win, w, p.m) && squares == SquareFrames(p.win, re.Length1)
    requires forall i :: 0 <= i < y.Length ==>
      y[i] == Overlap(frames, hop, i, f) && wsum[i] == Overlap(squares, hop, i, f)
    modifies y, wsum, Xr, Xi, fr, zr, zi
    ensures forall i :: 0 <= i < y.Length ==>
      y[i] == Overlap(frames, hop, i, f + 1) && wsum[i] == Overlap(squares, hop, i, f + 1)
  {
    hide Mul;
    hide IsRoot;
    hide Column;
    hide Squares;
    hide FrameStart;
    hide SynthFrame;
    hide Overlap;
    hide Shifted;
    hide Plan.Valid;
    PlanSizes(p, w, bits);
    var o := Start(f, hop);
    AddSynthesised(p, re, im, f, o, y, wsum, Xr, Xi, fr, zr, zi, w, bits);
    forall i: int | 0 <= i < y.Length
      ensures y[i] == Overlap(frames, hop, i, f + 1) && wsum[i] == Overlap(squares, hop, i, f + 1)
    {
      OverlapNext(frames, hop, i, f);
      OverlapNext(squares, hop, i, f);
    }
  }

  /** Overlap-add synthesis: every sample is the sum of the windowed inverse frames over the window-square sum. */
  method IstftOp(p: Plan, hop: nat, re: array2<real>, im: array2<real>, out: array<Quotient>,
                 ghost w: int -> Complex, ghost bits: nat)
    requires p.Valid(w, bits) && re.Length0 == im.Length0 == p.m + 1 && re.Length1 == im.Length1
    requires forall f: nat :: f < re.Length1 ==> FrameStart(f, hop) + p.n <= out.Length
    modifies out
    ensures forall i :: 0 <= i < out.Length ==>
      out[i] == Divide(Overlap(SynthFrames(re, im, p.win, w, p.m), hop, i, re.Length1),
                       WindowSum(p.win, hop, i, re.Length1))
  {
    hide Mul;
    hide IsRoot;
    hide Column;
    hide Squares;
    hide FrameStart;
    hide Divide;
    hide SynthFrame;
    hide Overlap;
    hide Shifted;
    hide Plan.Valid;
    PlanSizes(p, w, bits);
    var F, B, L := re.Length1, p.m + 1, out.Length;
    var y, wsum := new real[L](_ => 0.0), new real[L](_ => 0.0);
    var Xr, Xi, fr, zr, zi := new real[B], new real[B], new real[p.n], new real[p.m], new real[p.m];
    ghost var frames, squares := SynthFrames(re, im, p.win, w, p.m), SquareFrames(p.win, F);
    forall i: int ensures Overlap(frames, hop, i, 0) == Overlap(squares, hop, i, 0) == 0.0 {
      OverlapNone(frames, hop, i);
      OverlapNone(squares, hop, i);
    }
    for f := 0 to F
      invariant forall i :: 0 <= i < L ==> y[i] == Overlap(frames, hop, i, f) && wsum[i] == Overlap(squares, hop, i, f)
    {
      SynthesiseFrame(p, hop, re, im, f, y, wsum, Xr, Xi, fr, zr, zi, frames, squares, w, bits);
    }
    Normalise(y, wsum, out);
  }

  lemma OverlapNone(frames: seq<seq<real>>, hop: nat, i: int)
    ensures Overlap(frames, hop, i, 0) == 0.0
  {
  }

  lemma OverlapNext(frames: seq<seq<real>>, hop: nat, i: int, f: nat)
    requires f < |frames|
    ensures Overlap(frames, hop, i, f + 1) == Overlap(frames, hop, i, f) + Shifted(frames[f], i - FrameStart(f, hop))
  {
  }

  lemma IrfftIsSynthFrame(fr: seq<real>, X: seq<Complex>, win: seq<real>, w: int -> Complex, m: nat)
    requires m > 0 && |X| == m + 1 && |fr| == |win|
    requires forall i :: 0 <= i < |win| ==> fr[i] == RealIdft(X, w, m, i) * win[i]
    ensures fr == SynthFrame(X, win, w, m)
  {
    hide RealIdft;
    var s := SynthFrame(X, win, w, m);
    assert forall i :: 0 <= i < |win| ==> s[i] == RealIdft(X, w, m, i) * win[i];
    assert |fr| == |s|;
  }

  // --- synthesis undoes analysis ---

  /** The inverse of one analysed frame is the frame, weighted by the squared window. */
  lemma FrameRoundTrip(x: seq<real>, win: seq<real>, w: int -> Complex, m: nat, bits: nat, hop: nat, f: nat)
    requires m == Pow2(bits) && |win| == 2 * m && IsRoot(w, m) && FrameStart(f, hop) + |win| <= |x|
    ensures
      var fr := SynthFrame(FrameSpectrum(x, win, w, m, hop, f), win, w, m);
      |fr| == |win| && forall q: int :: 0 <= q < |win| ==> fr[q] == x[FrameStart(f, hop) + q] * Squares(win)[q]
  {
    hide Mul;
    hide IsRoot;
    hide RealIdft;
    hide HalfSpectrum;
    hide FrameStart;
    var fr, X := SynthFrame(FrameSpectrum(x, win, w, m, hop, f), win, w, m), FrameSpectrum(x, win, w, m, hop, f);
    forall q: int | 0 <= q < |win|
      ensures fr[q] == x[FrameStart(f, hop) + q] * Squares(win)[q]
    {
      RealRoundTrip(Windowed(x, FrameStart(f, hop), win), w, m, bits, q);
      assert fr[q] == RealIdft(X, w, m, q) * win[q];
      Regroup(x[FrameStart(f, hop) + q], win[q]);
    }
  }

  lemma Regroup(a: real, b: real)
    ensures (a * b) * b == a * (b * b)
  {
  }

  /** The frames are the signal's own samples weighted by the squared window. */
  ghost predicate Weighted(x: seq<real>, frames: seq<seq<real>>, sq: seq<real>, hop: nat, F: nat)
    requires F <= |frames|
  {
    forall f: nat :: f < F ==>
      && FrameStart(f, hop) + |sq| <= |x| && |frames[f]| == |sq|
      && forall q: nat :: q < |sq| ==> frames[f][q] == x[FrameStart(f, hop) + q] * sq[q]
  }

  /** Overlap-adding weighted frames weights each sample by its window-square sum. */
  lemma {:induction false} OverlapRoundTrip(x: seq<real>, frames: seq<seq<real>>, sq: seq<real>,
                                            squares: seq<seq<real>>, hop: nat, i: int, F: nat)
    requires F <= |frames| && F <= |squares| && 0 <= i < |x|
    requires Weighted(x, frames, sq, hop, F) && forall f :: 0 <= f < F ==> squares[f] == sq
    ensures Overlap(frames, hop, i, F) == x[i] * Overlap(squares, hop, i, F)
  {
    hide FrameStart;
    hide Weighted;
    hide Shifted;
    if F > 0 {
      FewerWeighted(x, frames, sq, hop, F);
      OverlapRoundTrip(x, frames, sq, squares, hop, i, F - 1);
      ShiftedWeighted(x, frames, sq, hop, i, F, F - 1);
      RealDistribute(x[i], Overlap(squares, hop, i, F - 1), Shifted(sq, i - FrameStart(F - 1, hop)));
    }
  }

  lemma FewerWeighted(x: seq<real>, frames: seq<seq<real>>, sq: seq<real>, hop: nat, F: nat)
    requires 0 < F <= |frames| && Weighted(x, frames, sq, hop, F)
    ensures Weighted(x, frames, sq, hop, F - 1)
  {
    hide FrameStart;
  }

  lemma ShiftedWeighted(x: seq<real>, frames: seq<seq<real>>, sq: seq<real>, hop: nat, i: int, F: nat, f: nat)
    requires f < F <= |frames| && 0 <= i < |x| && Weighted(x, frames, sq, hop, F)
    ensures Shifted(frames[f], i - FrameStart(f, hop)) == x[i] * Shifted(sq, i - FrameStart(f, hop))
  {
    hide FrameStart;
    var q := i - FrameStart(f, hop);
    if 0 <= q < |sq| {
      var qn: nat := q;
      assert frames[f][qn] == x[FrameStart(f, hop) + qn] * sq[qn];
    }
  }

  lemma RealDistribute(a: real, b: real, c: real)
    ensures a * (b + c) == a * b + a * c
  {
  }

  lemma DivideProduct(n: real, a: real, b: real)
    requires n == a * b
    ensures Divide(n, b) == if b != 0.0 then Value(a) else NotANumber
  {
  }

  lemma SquareAt(win: seq<real>, d: int)
    ensures Shifted(Squares(win), d) >= 0.0
    ensures 0 <= d < |win| && win[d] != 0.0 ==> Shifted(Squares(win), d) > 0.0
  {
    if 0 <= d < |win| {
      assert Squares(win)[d] == win[d] * win[d];
      Squared(win[d], Squares(win)[d]);
    }
  }

  lemma Squared(a: real, s: real)
    requires s == a * a
    ensures s >= 0.0 && (a != 0.0 ==> s > 0.0)
  {
    if a != 0.0 {
      var b := if a > 0.0 then a else -a;
      ProductPositive(b, b, s);
    }
  }

  lemma ProductPositive(a: real, b: real, s: real)
    requires a > 0.0 && b > 0.0 && s == a * b
    ensures s > 0.0
  {
  }

  lemma {:induction false} SumNonneg(win: seq<real>, frames: seq<seq<real>>, hop: nat, i: int, F: nat)
    requires F <= |frames| && forall f :: 0 <= f < F ==> frames[f] == Squares(win)
    ensures Overlap(frames, hop, i, F) >= 0.0
  {
    hide Shifted;
    hide FrameStart;
    if F > 0 {
      SumNonneg(win, frames, hop, i, F - 1);
      SquareAt(win, i - FrameStart(F - 1, hop));
    }
  }

  /** Frames that leave no gap, and a window with no zero, give every sample they span a positive sum. */
  lemma {:induction false} SpannedSum(win: seq<real>, frames: seq<seq<real>>, hop: nat, i: int, F: nat)
    requires 0 < F <= |frames| && forall f :: 0 <= f < F ==> frames[f] == Squares(win)
    requires hop <= |win| && (forall q :: 0 <= q < |win| ==> win[q] != 0.0) && 0 <= i < (F - 1) * hop + |win|
    ensures Overlap(frames, hop, i, F) > 0.0
  {
    hide Shifted;
    var d := i - (F - 1) * hop;
    StartsAt(F - 1, hop);
    hide FrameStart;
    SumNonneg(win, frames, hop, i, F - 1);
    SquareAt(win, d);
    if d < 0 {
      assert (F - 1) * hop == (F - 2) * hop + hop;
      SpannedSum(win, frames, hop, i, F - 1);
    }
  }

  /** Every sample within the span of the frames comes back when hop is at most the window and no window value is 0. */
  lemma Spanned(win: seq<real>, hop: nat, F: nat)
    requires F > 0 && hop <= |win| && forall q :: 0 <= q < |win| ==> win[q] != 0.0
    ensures forall i :: 0 <= i < (F - 1) * hop + |win| ==> WindowSum(win, hop, i, F) != 0.0
  {
    hide Overlap;
    forall i | 0 <= i < (F - 1) * hop + |win| ensures WindowSum(win, hop, i, F) != 0.0 {
      SpannedSum(win, SquareFrames(win, F), hop, i, F);
    }
  }

  /**
   Analysis by any number of threads in any order, then synthesis with the same plan and hop, returns
   every sample whose window-square sum is not zero; the samples no window reaches are 0 / 0. With a window nowhere
   zero and frames that leave no gap that is every sample from the first frame's start to the last one's end.
   */
  method AnalyseThenSynthesise(p: Plan, hop: nat, F: nat, x: seq<real>, nth: nat, order: seq<nat>,
                               ghost w: int -> Complex, ghost bits: nat)
    returns (out: array<Quotient>)
    requires p.Valid(w, bits) && nth > 0
    requires forall f: nat :: f < F ==> FrameStart(f, hop) + p.n <= |x|
    requires (forall i :: 0 <= i < |order| ==> order[i] < nth) && (forall t: nat :: t < nth ==> t in order)
    ensures out.Length == |x|
    ensures forall i :: 0 <= i < |x| ==>
      out[i] == if WindowSum(p.win, hop, i, F) != 0.0 then Value(x[i]) else NotANumber
    ensures F > 0 && hop <= p.n && (forall q :: 0 <= q < p.n ==> p.win[q] != 0.0) ==>
      forall i :: 0 <= i < (F - 1) * hop + p.n && i < |x| ==> out[i] == Value(x[i])
  {
    hide Mul;
    hide IsRoot;
    hide RealIdft;
    hide HalfSpectrum;
    hide Squares;
    hide Divide;
    hide WindowSum;
    hide FrameStart;
    hide FrameSpectrum;
    hide SynthFrames;
    var B := p.m + 1;
    var y, re, im := new real[2 * B, F], new real[B, F], new real[B, F];
    out := new Quotient[|x|](_ => NotANumber);
    StftAllThreads(p, hop, x, y, nth, order, w, bits);
    Unstack(y, re, im);
    forall f: nat | f < F ensures Column(re, im, f) == FrameSpectrum(x, p.win, w, p.m, hop, f) {
      ColumnOfStack(y, re, im, f, FrameSpectrum(x, p.win, w, p.m, hop, f));
    }
    hide Column;
    hide Col;
    hide Stack;
    IstftOp(p, hop, re, im, out, w, bits);
    ghost var frames := SynthFrames(re, im, p.win, w, p.m);
    forall i: int | 0 <= i < |x|
      ensures out[i] == if WindowSum(p.win, hop, i, F) != 0.0 then Value(x[i]) else NotANumber
    {
      SampleRoundTrip(x, frames, p.win, w, p.m, bits, hop, i, F);
    }
    AllBack(out[..], x, p.win, hop, F);
    assert forall i :: 0 <= i < |x| ==> out[..][i] == out[i];
  }

  lemma AllBack(out: seq<Quotient>, x: seq<real>, win: seq<real>, hop: nat, F: nat)
    requires |out| == |x| && forall i :: 0 <= i < |x| ==>
      out[i] == if WindowSum(win, hop, i, F) != 0.0 then Value(x[i]) else NotANumber
    ensures F > 0 && hop <= |win| && (forall q :: 0 <= q < |win| ==> win[q] != 0.0) ==>
      forall i :: 0 <= i < (F - 1) * hop + |win| && i < |x| ==> out[i] == Value(x[i])
  {
    hide WindowSum;
    if F > 0 && hop <= |win| && forall q :: 0 <= q < |win| ==> win[q] != 0.0 { Spanned(win, hop, F); }
  }

  /** The stacked halves of every column, as the two tensors the synthesis takes. */
  method Unstack(y: array2<real>, re: array2<real>, im: array2<real>)
    requires re.Length0 == im.Length0 && y.Length0 == 2 * re.Length0 && re.Length1 == im.Length1 == y.Length1
    requires re != im && re != y && im != y
    modifies re, im
    ensures forall k, f :: 0 <= k < re.Length0 && 0 <= f < re.Length1 ==>
      re[k, f] == y[k, f] && im[k, f] == y[re.Length0 + k, f]
  {
    var B := re.Length0;
    forall k, f | 0 <= k < B && 0 <= f < re.Length1 { re[k, f] := y[k, f]; }
    forall k, f | 0 <= k < B && 0 <= f < re.Length1 { im[k, f] := y[B + k, f]; }
  }

  lemma ColumnOfStack(y: array2<real>, re: array2<real>, im: array2<real>, f: nat, X: seq<Complex>)
    requires re.Length0 == im.Length0 == |X| && re.Length1 == im.Length1 == y.Length1 && f < y.Length1
    requires y.Length0 == 2 * |X| && Col(y, f) == Stack(X)
    requires forall k :: 0 <= k < |X| ==> re[k, f] == y[k, f] && im[k, f] == y[|X| + k, f]
    ensures Column(re, im, f) == X
  {
    forall k | 0 <= k < |X| ensures Column(re, im, f)[k] == X[k] {
      assert Col(y, f)[k] == Stack(X)[k] && Col(y, f)[|X| + k] == Stack(X)[|X| + k];
    }
  }

  lemma FramesAreWeighted(x: seq<real>, frames: seq<seq<real>>, win: seq<real>, w: int -> Complex, m: nat, bits: nat,
                          hop: nat, F: nat)
    requires m == Pow2(bits) && |win| == 2 * m && IsRoot(w, m) && |frames| == F
    requires forall f: nat :: f < F ==> FrameStart(f, hop) + |win| <= |x|
    requires forall f: nat :: f < F ==>
      frames[f] == SynthFrame(FrameSpectrum(x, win, w, m, hop, f), win, w, m)
    ensures Weighted(x, frames, Squares(win), hop, F)
  {
    hide Mul;
    hide IsRoot;
    hide SynthFrame;
    hide FrameSpectrum;
    hide FrameStart;
    hide Squares;
    forall f: nat | f < F
      ensures FrameStart(f, hop) + |win| <= |x| && |frames[f]| == |win|
      ensures forall q: nat :: q < |win| ==> frames[f][q] == x[FrameStart(f, hop) + q] * Squares(win)[q]
    {
      FrameRoundTrip(x, win, w, m, bits, hop, f);
    }
  }

  lemma SampleRoundTrip(x: seq<real>, frames: seq<seq<real>>, win: seq<real>, w: int -> Complex, m: nat, bits: nat,
                        hop: nat, i: int, F: nat)
    requires m == Pow2(bits) && |win| == 2 * m && IsRoot(w, m) && 0 <= i < |x| && |frames| == F
    requires forall f: nat :: f < F ==> FrameStart(f, hop) + |win| <= |x|
    requires forall f: nat :: f < F ==>
      frames[f] == SynthFrame(FrameSpectrum(x, win, w, m, hop, f), win, w, m)
    ensures Divide(Overlap(frames, hop, i, F), WindowSum(win, hop, i, F))
         == if WindowSum(win, hop, i, F) != 0.0 then Value(x[i]) else NotANumber
  {
    hide Mul;
    hide IsRoot;
    hide SynthFrame;
    hide FrameSpectrum;
    hide FrameStart;
    hide Squares;
    hide Overlap;
    hide Divide;
    hide Weighted;
    FramesAreWeighted(x, frames, win, w, m, bits, hop, F);
    OverlapRoundTrip(x, frames, Squares(win), SquareFrames(win, F), hop, i, F);
    var b := WindowSum(win, hop, i, F);
    DivideProduct(Overlap(frames, hop, i, F), x[i], b);
  }
}
