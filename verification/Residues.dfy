/** Arithmetic modulo a power of two: a line with odd slope visits every residue once, and any line
    whose slope has few trailing zeros meets every block of high bits equally often. */
module Residues {
  import opened Bits
  import opened Counting

  // -------------------------------------------------------------------------------------------
  // Division facts, one at a time.

  lemma ModUnique(x: nat, n: nat, q: nat, r: nat)
    requires n > 0 && x == q * n + r && r < n
    ensures x / n == q && x % n == r
  {
    var d := x / n - q;
    assert x == x / n * n + x % n;
    assert d * n == r - x % n;
    Multiples(d, n);
  }

  lemma DivMod(x: nat, n: nat)
    requires n > 0
    ensures x == (x / n) * n + x % n && x / n >= 0 && 0 <= x % n < n
  {
  }

  lemma ModPlusMultiple(x: nat, n: nat, t: nat)
    requires n > 0
    ensures (x + t * n) % n == x % n
  {
    DivMod(x, n);
    assert (x / n + t) * n == (x / n) * n + t * n;
    ModUnique(x + t * n, n, x / n + t, x % n);
  }

  /** The residue of a sum depends on the residue of a summand. */
  lemma ModOfSum(x: nat, y: nat, n: nat)
    requires n > 0
    ensures (x % n + y) % n == (x + y) % n
  {
    DivMod(x, n);
    ModPlusMultiple(x % n + y, n, x / n);
  }

  /** Equal residues differ by a multiple. */
  lemma SameResidue(x: nat, d: nat, n: nat)
    requires n > 0 && (x + d) % n == x % n
    ensures d % n == 0
  {
    DivMod(x, n);
    DivMod(x + d, n);
    var q := (x + d) / n - x / n;
    assert d == q * n by { assert q * n == ((x + d) / n) * n - (x / n) * n; }
    Multiples(q, n);
    ModUnique(d, n, q, 0);
  }

  lemma HalfResidue(x: nat, a: nat, b: nat)
    requires a > 0 && b > 0
    ensures (x % (2 * a)) / (2 * b) == ((x / 2) % a) / b
  {
    DivMod(x / 2, a);
    var q, r := (x / 2) / a, (x / 2) % a;
    assert x == q * (2 * a) + (2 * r + x % 2);
    ModUnique(x, 2 * a, q, 2 * r + x % 2);
    DivMod(r, b);
    var s, u := r / b, r % b;
    assert 2 * r + x % 2 == s * (2 * b) + (2 * u + x % 2);
    ModUnique(2 * r + x % 2, 2 * b, s, 2 * u + x % 2);
  }

  // -------------------------------------------------------------------------------------------
  // Counting with a bijection.

  lemma {:induction false} CountPoint(n: nat, a: nat, p: nat -> bool)
    requires forall x: nat :: x < n ==> p(x) ==> x == a
    ensures Count(n, p) == if a < n && p(a) then 1 else 0
  {
    if n > 0 { CountPoint(n - 1, a, p); }
  }

  lemma {:induction false} CountNone(n: nat, p: nat -> bool)
    requires forall x: nat :: x < n ==> !p(x)
    ensures Count(n, p) == 0
  {
    if n > 0 { CountNone(n - 1, p); }
  }

  lemma {:induction false} AtMostOne(n: nat, p: nat -> bool)
    requires forall x: nat, y: nat :: x < n && y < n && p(x) && p(y) ==> x == y
    ensures Count(n, p) <= 1
  {
    if n > 0 {
      AtMostOne(n - 1, p);
      if p(n - 1) { CountNone(n - 1, p); }
    }
  }

  lemma {:induction false} AllOnes(n: nat, f: nat -> nat, i: nat)
    requires (forall k: nat :: k < n ==> f(k) <= 1) && Sum(n, f) == n && i < n
    ensures f(i) == 1
  {
    SumAtMost(n - 1, f);
    if i < n - 1 { AllOnes(n - 1, f, i); }
  }

  lemma {:induction false} SumAtMost(n: nat, f: nat -> nat)
    requires forall k: nat :: k < n ==> f(k) <= 1
    ensures Sum(n, f) <= n
  {
    if n > 0 { SumAtMost(n - 1, f); }
  }

  ghost predicate Permutes(n: nat, f: nat -> nat) {
    (forall k: nat :: k < n ==> f(k) < n) && (forall k: nat, l: nat :: k < n && l < n && f(k) == f(l) ==> k == l)
  }

  function Maps(f: nat -> nat, p: nat -> bool): (nat, nat) -> bool {
    (k: nat, x: nat) => f(k) == x && p(x)
  }

  /** An injection of the numbers below n into themselves hits every one. */
  lemma HitsOnce(n: nat, f: nat -> nat, x: nat)
    requires Permutes(n, f) && x < n
    ensures Count(n, (k: nat) => f(k) == x) == 1
  {
    var all := (y: nat) => true;
    CountSwap(n, n, Maps(f, all));
    forall k: nat | k < n ensures RowCounts(Maps(f, all), n)(k) == 1 { CountPoint(n, f(k), Row(Maps(f, all), k)); }
    SumConst(n, RowCounts(Maps(f, all), n), 1);
    forall y: nat | y < n ensures ColumnCounts(Maps(f, all), n)(y) <= 1 { AtMostOne(n, Column(Maps(f, all), y)); }
    AllOnes(n, ColumnCounts(Maps(f, all), n), x);
    CountSame(n, Column(Maps(f, all), x), (k: nat) => f(k) == x);
  }

  lemma PermutedRows(n: nat, f: nat -> nat, p: nat -> bool)
    requires Permutes(n, f)
    ensures Sum(n, RowCounts(Maps(f, p), n)) == Count(n, (k: nat) => p(f(k)))
  {
    var both := Maps(f, p);
    forall k: nat | k < n ensures RowCounts(both, n)(k) == if p(f(k)) then 1 else 0 {
      CountPoint(n, f(k), Row(both, k));
    }
    SumOfIndicator(n, RowCounts(both, n), (k: nat) => p(f(k)));
  }

  lemma PermutedColumn(n: nat, f: nat -> nat, p: nat -> bool, x: nat)
    requires Permutes(n, f) && x < n
    ensures Count(n, Column(Maps(f, p), x)) == if p(x) then 1 else 0
  {
    hide Permutes;
    if p(x) {
      HitsOnce(n, f, x);
      CountSame(n, Column(Maps(f, p), x), (k: nat) => f(k) == x);
    } else {
      CountNone(n, Column(Maps(f, p), x));
    }
  }

  lemma PermutedColumns(n: nat, f: nat -> nat, p: nat -> bool)
    requires Permutes(n, f)
    ensures Sum(n, ColumnCounts(Maps(f, p), n)) == Count(n, p)
  {
    hide Permutes, Maps, Column;
    forall x: nat | x < n ensures ColumnCounts(Maps(f, p), n)(x) == if p(x) then 1 else 0 {
      PermutedColumn(n, f, p, x);
    }
    SumOfIndicator(n, ColumnCounts(Maps(f, p), n), p);
  }

  /** Counting is not affected by an injection of the range into itself. */
  lemma CountPermuted(n: nat, f: nat -> nat, p: nat -> bool)
    requires Permutes(n, f)
    ensures Count(n, (k: nat) => p(f(k))) == Count(n, p)
  {
    hide Permutes;
    PermutedRows(n, f, p);
    PermutedColumns(n, f, p);
    CountSwap(n, n, Maps(f, p));
  }

  lemma {:induction false} CountTwoParts(n: nat, m: nat, p: nat -> bool, q: nat -> bool)
    requires forall k: nat :: k < m ==> q(k) == p(n + k)
    ensures Count(n + m, p) == Count(n, p) + Count(m, q)
  {
    if m > 0 { CountTwoParts(n, m - 1, p, q); }
  }

  lemma {:induction false} CountRange(n: nat, lo: nat, hi: nat, p: nat -> bool)
    requires lo <= hi <= n && forall x: nat :: x < n ==> p(x) == (lo <= x < hi)
    ensures Count(n, p) == hi - lo
    decreases n
  {
    if n > 0 {
      if hi == n && lo < hi {
        CountRange(n - 1, lo, hi - 1, p);
      } else if hi == n {
        CountNone(n - 1, p);
      } else {
        CountRange(n - 1, lo, hi, p);
      }
    }
  }

  // -------------------------------------------------------------------------------------------
  // Lines modulo a power of two.

  /** An odd factor does not help a number to be divisible by a power of two. */
  lemma {:induction false} OddDivides(m: nat, d: nat, slope: nat)
    requires slope % 2 == 1 && (d * slope) % Pow2(m) == 0
    ensures d % Pow2(m) == 0
  {
    if m > 0 {
      var p := Pow2(m - 1);
      DivMod(d * slope, 2 * p);
      var q := (d * slope) / (2 * p);
      assert d * slope == 2 * (q * p);
      EvenFactor(d, slope, q * p);
      assert (d / 2) * slope == q * p;
      ModUnique((d / 2) * slope, p, q, 0);
      OddDivides(m - 1, d / 2, slope);
      DivMod(d / 2, p);
      ModUnique(d, 2 * p, (d / 2) / p, 0);
    }
  }

  lemma EvenFactor(d: nat, slope: nat, t: nat)
    requires slope % 2 == 1 && d * slope == 2 * t
    ensures d % 2 == 0 && (d / 2) * slope == t
  {
    var s := slope / 2;
    assert slope == 2 * s + 1;
    assert d * slope == 2 * (d * s) + d;
    assert d == 2 * (t - d * s);
    assert d == 2 * (d / 2);
    assert 2 * ((d / 2) * slope) == d * slope;
  }

  function Line(z: nat, slope: nat, n: nat): nat -> nat
    requires n > 0
  {
    (k: nat) => LineAt(z, slope, n, k)
  }

  function LineAt(z: nat, slope: nat, n: nat, k: nat): nat
    requires n > 0
  {
    (z + k * slope) % n
  }

  lemma AlongLine(z: nat, slope: nat, k: nat, d: nat)
    ensures z + (k + d) * slope == z + k * slope + d * slope
  {
  }

  lemma ZeroBelow(d: nat, n: nat)
    requires d < n && d % n == 0
    ensures d == 0
  {
    ModUnique(d, n, 0, d);
  }

  lemma LineInjective(m: nat, z: nat, slope: nat, k: nat, l: nat)
    requires slope % 2 == 1 && k <= l < Pow2(m) && LineAt(z, slope, Pow2(m), k) == LineAt(z, slope, Pow2(m), l)
    ensures k == l
  {
    hide Pow2;
    var d := l - k;
    AlongLine(z, slope, k, d);
    SameResidue(z + k * slope, d * slope, Pow2(m));
    OddDivides(m, d, slope);
    ZeroBelow(d, Pow2(m));
  }

  lemma OddLinePermutes(m: nat, z: nat, slope: nat)
    requires slope % 2 == 1
    ensures Permutes(Pow2(m), Line(z, slope, Pow2(m)))
  {
    hide LineAt;
    var f := Line(z, slope, Pow2(m));
    forall k: nat, l: nat | k < Pow2(m) && l < Pow2(m) && f(k) == f(l) ensures k == l {
      if k <= l { LineInjective(m, z, slope, k, l); } else { LineInjective(m, z, slope, l, k); }
    }
    forall k: nat | k < Pow2(m) ensures f(k) < Pow2(m) { LineInside(z, slope, Pow2(m), k); }
  }

  lemma LineInside(z: nat, slope: nat, n: nat, k: nat)
    requires n > 0
    ensures LineAt(z, slope, n, k) < n
  {
  }

  function InBlock(b: nat, y: nat): nat -> bool
    requires b > 0
  {
    (x: nat) => x / b == y
  }

  /** A block of b consecutive numbers. */
  lemma BlockSize(n: nat, b: nat, y: nat)
    requires b > 0 && (y + 1) * b <= n
    ensures Count(n, InBlock(b, y)) == b
  {
    assert (y + 1) * b == y * b + b;
    forall x: nat | x < n ensures InBlock(b, y)(x) == (y * b <= x < y * b + b) { BlockIs(x, b, y); }
    CountRange(n, y * b, y * b + b, InBlock(b, y));
  }

  lemma BlockIs(x: nat, b: nat, y: nat)
    requires b > 0
    ensures x / b == y <==> y * b <= x < y * b + b
  {
    DivMod(x, b);
    if y * b <= x < y * b + b { ModUnique(x, b, y, x - y * b); }
  }

  /** The points of a line whose high bits are y. */
  function OnLine(z: nat, slope: nat, n: nat, b: nat, y: nat): nat -> bool
    requires n > 0 && b > 0
  {
    (k: nat) => LineAt(z, slope, n, k) / b == y
  }

  lemma TwoSplits(m: nat, j: nat)
    requires j <= m
    ensures Pow2(m) == Pow2(m - j) * Pow2(j)
    decreases j
  {
    if j > 0 { TwoSplits(m - 1, j - 1); }
  }

  lemma OddSlope(m: nat, j: nat, z: nat, slope: nat, y: nat)
    requires j <= m && slope % 2 == 1 && y < Pow2(m - j)
    ensures Count(Pow2(m), OnLine(z, slope, Pow2(m), Pow2(j), y)) == Pow2(j)
  {
    hide Pow2, LineAt, Permutes;
    var n, b := Pow2(m), Pow2(j);
    TwoSplits(m, j);
    ScaleUp(y + 1, Pow2(m - j), b);
    BlockSize(n, b, y);
    OddLinePermutes(m, z, slope);
    CountPermuted(n, Line(z, slope, n), InBlock(b, y));
    CountSame(n, OnLine(z, slope, n, b, y), (k: nat) => InBlock(b, y)(Line(z, slope, n)(k)));
  }

  lemma ScaleUp(x: nat, y: nat, b: nat)
    requires x <= y
    ensures x * b <= y * b
  {
  }

  /** A line of even slope is two copies of the line of half the slope, on half the numbers. */
  lemma HalvedLine(z: nat, half: nat, a: nat, b: nat, k: nat)
    requires a > 0 && b > 0
    ensures LineAt(z, 2 * half, 2 * a, k) / (2 * b) == LineAt(z / 2, half, a, k) / b
    ensures LineAt(z / 2, half, a, a + k) == LineAt(z / 2, half, a, k)
  {
    var x := z + k * (2 * half);
    assert x == z + 2 * (k * half);
    assert x / 2 == z / 2 + k * half;
    HalfResidue(x, a, b);
    assert z / 2 + (a + k) * half == z / 2 + k * half + half * a;
    ModPlusMultiple(z / 2 + k * half, a, half);
  }

  lemma EvenSlope(z: nat, half: nat, a: nat, b: nat, y: nat)
    requires a > 0 && b > 0
    ensures Count(2 * a, OnLine(z, 2 * half, 2 * a, 2 * b, y)) == 2 * Count(a, OnLine(z / 2, half, a, b, y))
  {
    hide LineAt;
    var p, q := OnLine(z, 2 * half, 2 * a, 2 * b, y), OnLine(z / 2, half, a, b, y);
    forall k: nat ensures p(k) == q(k) && p(a + k) == q(k) {
      HalvedLine(z, half, a, b, k);
      HalvedLine(z, half, a, b, a + k);
    }
    CountTwoParts(a, a, p, q);
    CountSame(a, p, q);
  }

  /** Whatever the slope, as long as it is not divisible by 2 to the j, every block of 2 to the j
      residues is met exactly 2 to the j times. */
  lemma {:induction false} LineMeetsBlocksEvenly(m: nat, j: nat, z: nat, slope: nat, y: nat)
    requires j <= m && slope % Pow2(j) != 0 && y < Pow2(m - j)
    ensures Count(Pow2(m), OnLine(z, slope, Pow2(m), Pow2(j), y)) == Pow2(j)
    decreases m
  {
    if slope % 2 == 1 {
      OddSlope(m, j, z, slope, y);
    } else {
      assert Pow2(0) == 1 && slope % 1 == 0;
      var half := slope / 2;
      if half % Pow2(j - 1) == 0 {
        DivMod(half, Pow2(j - 1));
        ModUnique(slope, Pow2(j), half / Pow2(j - 1), 0);
      }
      LineMeetsBlocksEvenly(m - 1, j - 1, z / 2, half, y);
      EvenSlope(z, half, Pow2(m - 1), Pow2(j - 1), y);
    }
  }
}
