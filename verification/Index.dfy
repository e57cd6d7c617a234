/** Index arithmetic: products, quotients and remainders of unknowns, one small fact at a time. */
module Index {

  lemma MulMono(a: int, b: int, c: int)
    requires a <= b && 0 <= c
    ensures a * c <= b * c
  {
    MulSub(b, a, c);
    MulNonneg(b - a, c);
  }

  lemma MulNonneg(a: int, b: int)
    requires 0 <= a && 0 <= b
    ensures 0 <= a * b
  {
  }

  lemma MulSub(a: int, b: int, c: int)
    ensures (a - b) * c == a * c - b * c
  {
  }

  lemma MulAdd(a: int, b: int, c: int)
    ensures (a + b) * c == a * c + b * c
  {
  }

  lemma MulAssoc(a: int, b: int, c: int)
    ensures (a * b) * c == a * (b * c)
  {
  }

  lemma DivMod(x: int, d: int)
    requires d > 0
    ensures x == (x / d) * d + x % d && 0 <= x % d < d
    ensures x >= 0 ==> x / d >= 0
  {
    if x >= 0 && x / d < 0 {
      MulMono(x / d, -1, d);
    }
  }

  lemma QuotientUnique(q1: int, r1: int, q2: int, r2: int, d: int)
    requires q1 * d + r1 == q2 * d + r2 && 0 <= r1 < d && 0 <= r2 < d
    ensures q1 == q2 && r1 == r2
  {
    MulSub(q1, q2, d);
    if q1 > q2 {
      MulMono(1, q1 - q2, d);
    } else if q1 < q2 {
      MulMono(q1 - q2, -1, d);
    }
  }

  lemma ModUnique(x: int, q: int, r: int, d: int)
    requires 0 <= r < d && x == q * d + r
    ensures x / d == q && x % d == r
  {
    DivMod(x, d);
    QuotientUnique(x / d, x % d, q, r, d);
  }

  lemma ModMultiple(q: int, d: int)
    requires d > 0
    ensures (q * d) % d == 0 && (q * d) / d == q
  {
    ModUnique(q * d, q, 0, d);
  }

  lemma ModShift(p: int, n: int, d: int)
    requires d > 0 && n % d == 0
    ensures (p + n) % d == p % d && (p + n) / d == p / d + n / d
  {
    DivMod(p, d);
    DivMod(n, d);
    MulAdd(p / d, n / d, d);
    ModUnique(p + n, p / d + n / d, p % d, d);
  }

  /** The length-d block that holds p ends inside [0, n). */
  lemma BlockFits(p: nat, d: nat, n: nat)
    requires d > 0 && n % d == 0 && p < n
    ensures 0 <= p - p % d && p - p % d + d <= n
  {
    DivMod(p, d);
    DivMod(n, d);
    MulNonneg(p / d, d);
    if n / d <= p / d {
      MulMono(n / d, p / d, d);
    }
    MulMono(p / d + 1, n / d, d);
    MulAdd(p / d, 1, d);
  }

  // --- strided ownership ---

  /** Work items f == ith (mod nth) are thread ith's. */
  predicate Mine(f: int, ith: nat, nth: nat) requires nth > 0 { f % nth == ith }

  lemma MineStride(f: nat, ith: nat, nth: nat)
    requires nth > 0 && ith < nth && Mine(f, ith, nth)
    ensures Mine(f + nth, ith, nth)
    ensures forall g: nat :: f < g < f + nth ==> !Mine(g, ith, nth)
  {
    ModMultiple(1, nth);
    ModShift(f, nth, nth);
    forall g: nat | f < g < f + nth ensures !Mine(g, ith, nth) {
      DivMod(f, nth);
      DivMod(g, nth);
      if Mine(g, ith, nth) {
        MulSub(g / nth, f / nth, nth);
        if g / nth > f / nth { MulMono(1, g / nth - f / nth, nth); }
        else { MulMono(g / nth - f / nth, 0, nth); }
      }
    }
  }

  lemma MineFirst(g: nat, ith: nat, nth: nat)
    requires nth > 0 && ith < nth && g <= ith
    ensures Mine(g, ith, nth) <==> g == ith
  {
    ModUnique(g, 0, g, nth);
  }

  /** Every item belongs to exactly one thread. */
  lemma MineOwner(f: nat, nth: nat)
    requires nth > 0
    ensures 0 <= f % nth < nth && Mine(f, f % nth, nth)
    ensures forall t: nat :: t < nth && Mine(f, t, nth) ==> t == f % nth
  {
    DivMod(f, nth);
  }

  // --- contiguous ownership ---

  lemma CeilDiv(n: nat, d: nat)
    requires d > 0
    ensures 0 <= (n + d - 1) / d && n <= (n + d - 1) / d * d
    ensures n > 0 ==> ((n + d - 1) / d - 1) * d < n
  {
    DivMod(n + d - 1, d);
    MulSub((n + d - 1) / d, 1, d);
  }

  lemma PositiveFactor(n: nat, per: nat, nth: nat)
    requires 0 < n <= per * nth
    ensures per > 0
  {
  }

  /** Of runs of `per` items each, exactly one holds item k. */
  lemma RunOwner(k: nat, per: nat, nth: nat, n: nat) returns (t: nat)
    requires k < n <= per * nth
    ensures t < nth && t * per <= k < (t + 1) * per
    ensures forall u: nat :: u * per <= k < (u + 1) * per ==> u == t
  {
    PositiveFactor(n, per, nth);
    DivMod(k, per);
    t := k / per;
    if t >= nth { MulMono(nth, t, per); }
    MulAdd(t, 1, per);
    forall u: nat | u * per <= k < (u + 1) * per ensures u == t {
      MulAdd(u, 1, per);
      ModUnique(k, u, k - u * per, per);
    }
  }

  /** The first element of output t at stride s. */
  function Strided(t: nat, s: nat): (q: nat)
    ensures s == 1 ==> q == t
    ensures s == 2 ==> q == 2 * t
  {
    MulNonneg(t, s);
    t * s
  }
}
