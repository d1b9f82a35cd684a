/** Bit operations on words of any length, as arithmetic. */
module Bits {

  function Pow2(k: nat): (p: nat)
    ensures p > 0
  {
    if k == 0 then 1 else 2 * Pow2(k - 1)
  }

  /** Bitwise and of two words. */
  function And(x: nat, y: nat): (r: nat)
    ensures r <= x && r <= y
    decreases x
  {
    if x == 0 || y == 0 then 0
    else 2 * And(x / 2, y / 2) + if x % 2 == 1 && y % 2 == 1 then 1 else 0
  }

  /** Bitwise or of two words. */
  function Or(x: nat, y: nat): (r: nat)
    ensures r >= x && r >= y
    decreases x
  {
    if x == 0 then y else if y == 0 then x
    else 2 * Or(x / 2, y / 2) + if x % 2 == 1 || y % 2 == 1 then 1 else 0
  }

  function ShiftRight(x: nat, k: nat): nat
    decreases k
  {
    if k == 0 then x else ShiftRight(x / 2, k - 1)
  }

  /** The number of bits up to the highest one set. */
  function Len(n: nat): nat {
    if n == 0 then 0 else Len(n / 2) + 1
  }

  // -------------------------------------------------------------------------------------------
  // Laws.

  lemma PowStep(k: nat)
    ensures Pow2(k + 1) == 2 * Pow2(k) && Pow2(0) == 1
  {
  }

  lemma {:induction false} PowGrows(a: nat, b: nat)
    requires a <= b
    ensures Pow2(a) <= Pow2(b)
  {
    if a < b { PowGrows(a, b - 1); }
  }

  lemma {:induction false} LenFits(n: nat, k: nat)
    ensures n < Pow2(k) <==> Len(n) <= k
  {
    if n > 0 && k > 0 { LenFits(n / 2, k - 1); }
  }

  lemma OrHalf(x: nat, y: nat)
    ensures Or(x, y) / 2 == Or(x / 2, y / 2) && (Or(x, y) % 2 == 1 <==> x % 2 == 1 || y % 2 == 1)
  {
  }

  lemma LenHalf(n: nat)
    ensures Len(n) == if n == 0 then 0 else Len(n / 2) + 1
  {
  }

  lemma {:induction false} LenOr(x: nat, y: nat)
    ensures Len(Or(x, y)) == if Len(x) > Len(y) then Len(x) else Len(y)
    decreases x
  {
    hide Or, Len;
    OrHalf(x, y);
    LenHalf(x);
    LenHalf(y);
    LenHalf(Or(x, y));
    if x > 0 && y > 0 {
      LenOr(x / 2, y / 2);
    } else {
      OrNothing(x, y);
    }
  }

  lemma OrNothing(x: nat, y: nat)
    ensures Or(x, 0) == x && Or(0, y) == y
  {
  }

  lemma {:induction false} LenShift(n: nat, k: nat)
    ensures Len(ShiftRight(n, k)) == if Len(n) > k then Len(n) - k else 0
    decreases k
  {
    if k > 0 { LenShift(n / 2, k - 1); }
  }

  lemma {:induction false} HalfOfShift(n: nat, k: nat)
    ensures ShiftRight(n, k) / 2 == ShiftRight(n / 2, k)
    decreases k
  {
    if k > 0 { HalfOfShift(n / 2, k - 1); }
  }

  lemma {:induction false} AndSelf(x: nat)
    ensures And(x, x) == x
    decreases x
  {
    if x > 0 { AndSelf(x / 2); }
  }

  lemma AndParity(x: nat, y: nat)
    ensures And(x, y) == 2 * And(x / 2, y / 2) + if x % 2 == 1 && y % 2 == 1 then 1 else 0
  {
  }

  lemma {:induction false} ShiftBack(a: nat, k: nat)
    ensures ShiftRight(a * Pow2(k), k) == a
    decreases k
  {
    if k > 0 {
      assert a * Pow2(k) == 2 * (a * Pow2(k - 1));
      ShiftBack(a, k - 1);
    }
  }

  lemma DoubledBounds(x: nat, q: nat, p: nat)
    requires q * p <= x / 2 < q * p + p
    ensures q * (2 * p) <= x < q * (2 * p) + 2 * p
  {
    assert q * (2 * p) == 2 * (q * p);
  }

  /** A shift to the right divides by a power of two. */
  lemma {:induction false} ShiftDivides(x: nat, k: nat)
    ensures ShiftRight(x, k) * Pow2(k) <= x < ShiftRight(x, k) * Pow2(k) + Pow2(k)
    decreases k
  {
    if k > 0 {
      ShiftDivides(x / 2, k - 1);
      DoubledBounds(x, ShiftRight(x / 2, k - 1), Pow2(k - 1));
    }
  }

  // -------------------------------------------------------------------------------------------
  // Bit by bit.

  predicate Bit(x: nat, i: nat) {
    ShiftRight(x, i) % 2 == 1
  }

  lemma {:induction false} ShiftOfZero(k: nat)
    ensures ShiftRight(0, k) == 0
  {
    if k > 0 { ShiftOfZero(k - 1); }
  }

  lemma AndHalf(x: nat, y: nat)
    ensures And(x, y) / 2 == And(x / 2, y / 2) && (And(x, y) % 2 == 1 <==> x % 2 == 1 && y % 2 == 1)
  {
    hide And;
    AndParity(x, y);
  }

  /** Each bit of a conjunction, and of a disjunction. */
  lemma {:induction false} BitsOfAndOr(x: nat, y: nat, i: nat)
    ensures Bit(And(x, y), i) <==> Bit(x, i) && Bit(y, i)
    ensures Bit(Or(x, y), i) <==> Bit(x, i) || Bit(y, i)
    decreases i
  {
    hide And, Or;
    AndHalf(x, y);
    OrHalf(x, y);
    if i > 0 { BitsOfAndOr(x / 2, y / 2, i - 1); }
  }

  /** The i-th bit is the one of weight 2 to the i. */
  lemma BitIs(x: nat, i: nat)
    ensures Bit(x, i) <==> x / Pow2(i) % 2 == 1
  {
    hide Pow2, ShiftRight;
    ShiftDivides(x, i);
    OneQuotient(x, ShiftRight(x, i), Pow2(i));
  }

  lemma Multiples(d: int, n: nat)
    requires n > 0
    ensures (d >= 1 ==> d * n >= n) && (d <= -1 ==> d * n + n <= 0)
  {
  }

  lemma OneQuotient(x: nat, q: nat, n: nat)
    requires n > 0 && q * n <= x < q * n + n
    ensures x / n == q
  {
    var d := x / n - q;
    assert x == x / n * n + x % n;
    assert d * n == x - x % n - q * n;
    Multiples(d, n);
  }
}
