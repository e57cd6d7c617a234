/** scripts/bench43.cpp: the f32 depthwise row kernel, its sliding window renamed by the unroll, never moved. */
module DepthwiseF32 {
  import Index

  /** Float arithmetic, uninterpreted: equal results are equal bit patterns. */
  datatype Arith<!F> = Arith(zero: F, add: (F, F) -> F, mul: (F, F) -> F)

  /** The definition: w[0] * x[start] + w[1] * x[start + 1] + ..., summed in that order from zero. */
  function RowSum<F>(A: Arith<F>, w: seq<F>, x: seq<F>, start: nat, k: nat): F
    requires k <= |w| && start + k <= |x|
  {
    if k == 0 then A.zero else A.add(RowSum(A, w, x, start, k - 1), A.mul(w[k - 1], x[start + k - 1]))
  }

  /** Every accumulator has summed k taps of its own output, outputs `step` elements apart. */
  ghost predicate Summed<F>(A: Arith<F>, w: seq<F>, x: seq<F>, start: nat, step: nat, k: nat, a: seq<F>)
    requires k <= |w|
  {
    forall i: nat :: i < |a| ==> start + i * step + k <= |x| && a[i] == RowSum(A, w, x, start + i * step, k)
  }

  /** The renamed registers: slot (q - start) mod 8 holds x[q] for the n elements from lo. */
  ghost predicate Slots<F>(r: seq<F>, x: seq<F>, start: nat, lo: nat, n: nat)
    requires |r| == 8
  {
    forall q: nat :: start <= lo <= q < lo + n && q < |x| ==> r[(q - start) % 8] == x[q]
  }

  /** The register accumulator i reads at tap k. */
  function Slot<F>(r: seq<F>, k: nat, i: nat): F requires |r| == 8 { r[(k + i) % 8] }

  /** One TAP: the newest element goes where the oldest was, and accumulator i takes slot (k + i) mod 8. */
  method Tap<F>(A: Arith<F>, w: seq<F>, x: seq<F>, start: nat, k: nat, r: seq<F>, a: seq<F>)
    returns (r': seq<F>, a': seq<F>)
    requires k < |w| && |r| == 8 && |a| == 8 && start + k + 7 < |x|
    requires Slots(r, x, start, start + k, 7) && Summed(A, w, x, start, 1, k, a)
    ensures |r'| == 8 && |a'| == 8 && Slots(r', x, start, start + k + 1, 7) && Summed(A, w, x, start, 1, k + 1, a')
  {
    r' := r[(k + 7) % 8 := x[start + k + 7]];
    SlotsNow(r, r', x, start, k);
    var n := r';
    a' := seq(8, i requires 0 <= i < 8 => A.add(a[i], A.mul(w[k], Slot(n, k, i))));
  }

  lemma SlotsNow<F>(r: seq<F>, n: seq<F>, x: seq<F>, start: nat, k: nat)
    requires |r| == 8 && start + k + 7 < |x| && Slots(r, x, start, start + k, 7)
      && n == r[(k + 7) % 8 := x[start + k + 7]]
    ensures forall i: nat :: i < 8 ==> Slot(n, k, i) == x[start + k + i]
    ensures Slots(n, x, start, start + k + 1, 7)
  {
    forall i: nat | i < 8 ensures Slot(n, k, i) == x[start + k + i] {
      if i < 7 { assert r[(start + k + i - start) % 8] == x[start + k + i]; }
    }
    forall q: nat | start + k + 1 <= q < start + k + 8 && q < |x| ensures n[(q - start) % 8] == x[q] {
      assert Slot(n, k, q - start - k) == x[start + k + (q - start - k)];
    }
  }

  method PlainTap<F>(A: Arith<F>, w: seq<F>, x: seq<F>, start: nat, k: nat, a: seq<F>) returns (a': seq<F>)
    requires k < |w| && |a| == 8 && start + k + 7 < |x| && Summed(A, w, x, start, 1, k, a)
    ensures |a'| == 8 && Summed(A, w, x, start, 1, k + 1, a')
  {
    a' := seq(8, i requires 0 <= i < 8 => A.add(a[i], A.mul(w[k], x[start + k + i])));
  }

  method TapGroup<F>(A: Arith<F>, w: seq<F>, x: seq<F>, start: nat, k: nat, r: seq<F>, a: seq<F>)
    returns (r': seq<F>, a': seq<F>)
    requires k + 8 <= |w| && |r| == 8 && |a| == 8 && start + |w| + 7 <= |x|
    requires Slots(r, x, start, start + k, 7) && Summed(A, w, x, start, 1, k, a)
    ensures |r'| == 8 && |a'| == 8 && Slots(r', x, start, start + k + 8, 7) && Summed(A, w, x, start, 1, k + 8, a')
  {
    hide Slots;
    hide Summed;
    r', a' := r, a;
    for j := 0 to 8
      invariant |a'| == 8 && |r'| == 8
      invariant Slots(r', x, start, start + k + j, 7) && Summed(A, w, x, start, 1, k + j, a')
    {
      r', a' := Tap(A, w, x, start, k + j, r', a');
    }
  }

  /** The accumulators at zero and the first seven elements in their slots. */
  method Begin<F>(A: Arith<F>, w: seq<F>, x: seq<F>, start: nat) returns (r: seq<F>, a: seq<F>)
    requires start + 8 <= |x|
    ensures |r| == 8 && |a| == 8 && Slots(r, x, start, start, 7) && Summed(A, w, x, start, 1, 0, a)
  {
    a := seq(8, _ => A.zero);
    r := seq(8, i requires 0 <= i < 8 => x[start + (if i < 7 then i else 0)]);
  }

  /** Eight outputs at stride 1: taps in groups of eight through the renamed window, then the rest plainly. */
  method EightOutputs<F>(A: Arith<F>, w: seq<F>, x: seq<F>, start: nat) returns (a: seq<F>)
    requires |w| > 0 && start + |w| + 7 <= |x|
    ensures |a| == 8 && Summed(A, w, x, start, 1, |w|, a)
  {
    hide Slots;
    hide Summed;
    var K := |w|;
    var r;
    r, a := Begin(A, w, x, start);
    var k := 0;
    while k + 8 <= K
      invariant 0 <= k <= K && |a| == 8 && |r| == 8
      invariant Slots(r, x, start, start + k, 7) && Summed(A, w, x, start, 1, k, a)
    {
      r, a := TapGroup(A, w, x, start, k, r, a);
      k := k + 8;
    }
    while k < K
      invariant 0 <= k <= K && |a| == 8 && Summed(A, w, x, start, 1, k, a)
    {
      a := PlainTap(A, w, x, start, k, a);
      k := k + 1;
    }
  }

  /** Four outputs at stride 2. */
  method FourOutputs<F>(A: Arith<F>, w: seq<F>, x: seq<F>, start: nat) returns (a: seq<F>)
    requires start + |w| + 6 <= |x|
    ensures |a| == 4 && Summed(A, w, x, start, 2, |w|, a)
  {
    a := seq(4, _ => A.zero);
    for k := 0 to |w|
      invariant |a| == 4 && Summed(A, w, x, start, 2, k, a)
    {
      a := [A.add(a[0], A.mul(w[k], x[start + k])), A.add(a[1], A.mul(w[k], x[start + k + 2])),
            A.add(a[2], A.mul(w[k], x[start + k + 4])), A.add(a[3], A.mul(w[k], x[start + k + 6]))];
    }
  }

  /** The outputs [0, t) of the row are the plain sums. */
  ghost predicate Done<F>(A: Arith<F>, w: seq<F>, x: seq<F>, s: nat, y: seq<F>, t: nat)
  {
    t <= |y| && forall q: nat :: q < t ==>
      Index.Strided(q, s) + |w| <= |x| && y[q] == RowSum(A, w, x, Index.Strided(q, s), |w|)
  }

  method Stride1<F>(A: Arith<F>, w: seq<F>, x: seq<F>, y: array<F>) returns (t: nat)
    requires |w| > 0 && (y.Length > 0 ==> y.Length - 1 + |w| <= |x|)
    modifies y
    ensures Done(A, w, x, 1, y[..], t)
  {
    t := 0;
    while t + 8 <= y.Length
      invariant 0 <= t <= y.Length && Done(A, w, x, 1, y[..], t)
    {
      var a := EightOutputs(A, w, x, t);
      Store(y, t, a);
      assert forall q: nat :: t <= q < t + 8 ==> y[q] == RowSum(A, w, x, t + (q - t) * 1, |w|);
      t := t + 8;
    }
  }

  method Stride2<F>(A: Arith<F>, w: seq<F>, x: seq<F>, y: array<F>) returns (t: nat)
    requires |w| > 0 && (y.Length > 0 ==> 2 * (y.Length - 1) + |w| <= |x|)
    modifies y
    ensures Done(A, w, x, 2, y[..], t)
  {
    t := 0;
    while t + 4 <= y.Length
      invariant 0 <= t <= y.Length && Done(A, w, x, 2, y[..], t)
    {
      var a := FourOutputs(A, w, x, Index.Strided(t, 2));
      Store(y, t, a);
      assert forall q: nat :: t <= q < t + 4 ==> y[q] == RowSum(A, w, x, 2 * t + (q - t) * 2, |w|);
      t := t + 4;
    }
  }

  /** One channel: blocks of eight or four, then the remainder; every output is the plain sum in tap order. */
  method DwF32Row<F>(A: Arith<F>, w: seq<F>, x: seq<F>, s: nat, y: array<F>)
    requires (s == 1 || s == 2) && |w| > 0 && (y.Length > 0 ==> Index.Strided(y.Length - 1, s) + |w| <= |x|)
    modifies y
    ensures Done(A, w, x, s, y[..], y.Length)
  {
    var t: nat;
    if s == 1 { t := Stride1(A, w, x, y); } else { t := Stride2(A, w, x, y); }
    while t < y.Length
      invariant 0 <= t <= y.Length && Done(A, w, x, s, y[..], t)
    {
      var a := OneOutput(A, w, x, Index.Strided(t, s));
      y[t] := a;
      t := t + 1;
    }
  }

  method OneOutput<F>(A: Arith<F>, w: seq<F>, x: seq<F>, start: nat) returns (a: F)
    requires start + |w| <= |x|
    ensures a == RowSum(A, w, x, start, |w|)
  {
    a := A.zero;
    for k := 0 to |w|
      invariant a == RowSum(A, w, x, start, k)
    {
      a := A.add(a, A.mul(w[k], x[start + k]));
    }
  }

  method Store<F>(y: array<F>, t: nat, a: seq<F>)
    requires t + |a| <= y.Length
    modifies y
    ensures forall q :: 0 <= q < y.Length ==> y[q] == if t <= q < t + |a| then a[q - t] else old(y[q])
  {
    for i := 0 to |a|
      invariant forall q :: 0 <= q < y.Length ==> y[q] == if t <= q < t + i then a[q - t] else old(y[q])
    {
      y[t + i] := a[i];
    }
  }
}
