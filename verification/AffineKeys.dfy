/** What multilinear hashing rests on: over all 64-bit keys, two affine functions of a key with
    different 32-bit coefficients take every pair of high words equally often. */
module AffineKeys {
  import opened Bits
  import opened Counting
  import opened Residues

  /** 64-bit sums, of which the high 32 bits are kept. */
  const M: nat := Pow2(64)
  const H: nat := Pow2(32)

  function Hi(x: nat): nat {
    (x % M) / H
  }

  function Times(a: nat, b: nat): nat {
    a * b
  }

  /** A number that cancels c modulo M. */
  function Neg(c: nat): nat {
    Times(c, M - 1)
  }

  lemma Cancels(c: nat)
    ensures Neg(c) + c == Times(c, M)
  {
    hide Pow2;
    ByOneLess(c, M);
  }

  lemma ByOneLess(c: nat, m: nat)
    requires m > 0
    ensures Times(c, m - 1) + c == Times(c, m)
  {
  }

  lemma TimesSum(a: nat, b: nat, m: nat)
    ensures Times(a + b, m) == Times(a, m) + Times(b, m)
  {
  }

  /** Both outputs, as the first key varies. */
  function Both(c: nat, c': nat, y: nat, y': nat): nat -> bool {
    (x: nat) => Hi(x + c) == y && Hi(x + c') == y'
  }

  // -------------------------------------------------------------------------------------------
  // Offsets.

  lemma HiMod(x: nat, d: nat)
    ensures Hi(x % M + d) == Hi(x + d)
  {
    hide Pow2;
    ModOfSum(x, d, M);
  }

  lemma HiWrap(x: nat, t: nat)
    ensures Hi(x + Times(t, M)) == Hi(x)
  {
    hide Pow2;
    ModPlusMultiple(x, M, t);
  }

  lemma UnitLine(c: nat, k: nat, n: nat)
    requires n > 0
    ensures LineAt(c, 1, n, k) == (k + c) % n
  {
  }

  lemma RebaseAt(c: nat, c': nat, y: nat, y': nat, x: nat)
    ensures Both(0, c' + Neg(c), y, y')(LineAt(c, 1, M, x)) == Both(c, c', y, y')(x)
  {
    hide Hi, Pow2, Neg, LineAt, Times;
    UnitLine(c, x, M);
    HiMod(x + c, 0);
    HiMod(x + c, c' + Neg(c));
    Cancels(c);
    HiWrap(x + c', c);
  }

  /** Only the difference of the offsets matters. */
  lemma Rebase(c: nat, c': nat, y: nat, y': nat)
    ensures Count(M, Both(c, c', y, y')) == Count(M, Both(0, c' + Neg(c), y, y'))
  {
    hide Pow2, Neg, LineAt, Times, Both, Permutes, Count;
    var p := Both(0, c' + Neg(c), y, y');
    UnitPermutes(c);
    CountPermuted(M, Line(c, 1, M), p);
    forall x: nat ensures p(Line(c, 1, M)(x)) == Both(c, c', y, y')(x) { RebaseAt(c, c', y, y', x); }
    CountSame(M, Both(c, c', y, y'), (k: nat) => p(Line(c, 1, M)(k)));
  }

  lemma UnitPermutes(c: nat)
    ensures Permutes(M, Line(c, 1, M))
  {
    hide Pow2, Permutes, Line;
    OddLinePermutes(64, c, 1);
  }

  lemma WrapAt(e: nat, d: nat, y: nat, y': nat, x: nat)
    ensures Both(0, e + Times(d, M), y, y')(x) == Both(0, e, y, y')(x)
  {
    hide Hi, Pow2, Times;
    HiWrap(x + e, d);
  }

  /** Shifting both offsets changes nothing. */
  lemma ShiftBoth(c: nat, c': nat, d: nat, y: nat, y': nat)
    ensures Count(M, Both(c + d, c' + d, y, y')) == Count(M, Both(c, c', y, y'))
  {
    hide Pow2, Neg, Times, Both, Count;
    Rebase(c + d, c' + d, y, y');
    Rebase(c, c', y, y');
    var e, e' := c' + Neg(c), (c' + d) + Neg(c + d);
    Cancels(c);
    Cancels(c + d);
    TimesSum(c, d, M);
    forall x: nat ensures Both(0, e', y, y')(x) == Both(0, e, y, y')(x) { WrapAt(e, d, y, y', x); }
    CountSame(M, Both(0, e', y, y'), Both(0, e, y, y'));
  }

  // -------------------------------------------------------------------------------------------
  // Coefficients.

  lemma Sizes()
    ensures M == Times(H, H)
  {
    hide Pow2;
    TwoSplits(64, 32);
  }

  function HasHi(y: nat): nat -> bool {
    (x: nat) => Hi(x) == y
  }

  lemma HiCount(y: nat)
    requires y < H
    ensures Count(M, HasHi(y)) == H
  {
    hide Pow2, LineAt, Times;
    OddSlope(64, 32, 0, 1, y);
    forall k: nat ensures HasHi(y)(k) == OnLine(0, 1, M, H, y)(k) { UnitLine(0, k, M); }
    CountSame(M, HasHi(y), OnLine(0, 1, M, H, y));
  }

  /** For key k and first key x. */
  function Grid(e: nat, slope: nat, y: nat, y': nat): (nat, nat) -> bool {
    (k: nat, x: nat) => Hi(x) == y && Hi(x + e + Times(k, slope)) == y'
  }

  lemma LineHi(z: nat, slope: nat, k: nat)
    ensures Hi(z + Times(k, slope)) == LineAt(z, slope, M, k) / H
  {
    hide Pow2;
  }

  lemma GridColumn(e: nat, slope: nat, y: nat, y': nat, x: nat)
    requires slope % H != 0 && y' < H
    ensures Count(M, Column(Grid(e, slope, y, y'), x)) == if Hi(x) == y then H else 0
  {
    hide Pow2, Hi, Times, LineAt;
    var column := Column(Grid(e, slope, y, y'), x);
    if Hi(x) == y {
      LineMeetsBlocksEvenly(64, 32, x + e, slope, y');
      forall k: nat ensures column(k) == OnLine(x + e, slope, M, H, y')(k) { LineHi(x + e, slope, k); }
      CountSame(M, column, OnLine(x + e, slope, M, H, y'));
    } else {
      CountNone(M, column);
    }
  }

  /** Over all pairs of keys, the two outputs are y and y' exactly M times. */
  lemma GridCount(e: nat, slope: nat, y: nat, y': nat)
    requires slope % H != 0 && y < H && y' < H
    ensures Sum(M, RowCounts(Grid(e, slope, y, y'), M)) == M
  {
    hide Pow2, Hi, Grid;
    var g := Grid(e, slope, y, y');
    CountSwap(M, M, g);
    forall x: nat | x < M ensures ColumnCounts(g, M)(x) == if HasHi(y)(x) then H else 0 {
      GridColumn(e, slope, y, y', x);
    }
    SumWhere(M, ColumnCounts(g, M), HasHi(y), H);
    HiCount(y);
    Sizes();
  }

  /** For each value of a key, how often the first key gives the two outputs. */
  function Affine(z: nat, a: nat, z': nat, b: nat, y: nat, y': nat): nat -> nat {
    (k: nat) => Count(M, Both(z + Times(k, a), z' + Times(k, b), y, y'))
  }

  lemma Rearrange(z: nat, a: nat, z': nat, b: nat, k: nat)
    ensures (z' + Times(k, b)) + Neg(z + Times(k, a)) == (z' + Neg(z)) + Times(k, b + Neg(a))
  {
    hide Pow2;
    Distribute(z, a, b, k, M - 1);
  }

  lemma Distribute(z: nat, a: nat, b: nat, k: nat, m: nat)
    ensures Times(k, b) + Times(z + Times(k, a), m) == Times(z, m) + Times(k, b + Times(a, m))
  {
    assert k * (b + a * m) == k * b + k * a * m;
  }

  lemma GridAt(e: nat, slope: nat, y: nat, y': nat, k: nat, x: nat)
    ensures Both(0, e + Times(k, slope), y, y')(x) == Row(Grid(e, slope, y, y'), k)(x)
  {
    hide Pow2, Hi, Times;
    assert x + (e + Times(k, slope)) == x + e + Times(k, slope);
  }

  lemma AffineIsGrid(z: nat, a: nat, z': nat, b: nat, y: nat, y': nat, k: nat)
    ensures Affine(z, a, z', b, y, y')(k) == RowCounts(Grid(z' + Neg(z), b + Neg(a), y, y'), M)(k)
  {
    hide Pow2, Times, Neg, Both, Grid, Count, Row;
    var e, slope := z' + Neg(z), b + Neg(a);
    Rebase(z + Times(k, a), z' + Times(k, b), y, y');
    Rearrange(z, a, z', b, k);
    forall x: nat ensures Both(0, e + Times(k, slope), y, y')(x) == Row(Grid(e, slope, y, y'), k)(x) {
      GridAt(e, slope, y, y', k, x);
    }
    CountSame(M, Both(0, e + Times(k, slope), y, y'), Row(Grid(e, slope, y, y'), k));
  }

  lemma Threefold(a: nat, h: nat)
    ensures Times(a, Times(h, h)) == Times(a, h) * h
  {
  }

  /** Different coefficients, taken as words, differ by a slope that is not divisible by H. */
  lemma SlopeOfWords(a: nat, b: nat)
    requires a % H != b % H
    ensures (b + Neg(a)) % H != 0
  {
    hide Pow2, Neg, Times;
    var t := b + Neg(a);
    Cancels(a);
    Sizes();
    Threefold(a, H);
    ModPlusMultiple(b, H, Times(a, H));
    DivMod(t, H);
    ModPlusMultiple(a, H, t / H);
  }

  /** Coefficients that differ as words spread the two outputs evenly. */
  lemma AffineCount(z: nat, a: nat, z': nat, b: nat, y: nat, y': nat)
    requires a % H != b % H && y < H && y' < H
    ensures Sum(M, Affine(z, a, z', b, y, y')) == M
  {
    hide Pow2, Hi, Neg, Affine, RowCounts, Grid;
    var e, slope := z' + Neg(z), b + Neg(a);
    SlopeOfWords(a, b);
    GridCount(e, slope, y, y');
    forall k: nat | k < M ensures Affine(z, a, z', b, y, y')(k) == RowCounts(Grid(e, slope, y, y'), M)(k) {
      AffineIsGrid(z, a, z', b, y, y', k);
    }
    SumSame(M, Affine(z, a, z', b, y, y'), RowCounts(Grid(e, slope, y, y'), M));
  }
}
