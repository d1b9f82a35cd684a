/** Polynomials over GF(2) as words: the carry-less Barrett reduction yields exactly the remainder
    modulo x^32 + x^7 + x^6 + x^2 + 1. */
module Barrett {
  import opened Bits

  /** Addition and subtraction of polynomials. */
  function Xor(x: nat, y: nat): nat
    decreases x
  {
    if x == 0 then y else if y == 0 then x
    else 2 * Xor(x / 2, y / 2) + (x % 2 + y % 2) % 2
  }

  /** Carry-less multiplication. */
  function ClMul(a: nat, b: nat): nat
    decreases a
  {
    if a == 0 then 0 else Xor(2 * ClMul(a / 2, b), if a % 2 == 1 then b else 0)
  }

  const LOW: nat := 0xC5
  const DEGREE: nat := 32
  const IRREDPOLY: nat := Xor(Pow2(DEGREE), LOW)

  /** The straight line of shifts and products. */
  function BarrettReduce(a: nat): nat {
    var q1 := ShiftRight(a, DEGREE);
    var q2 := ClMul(q1, IRREDPOLY);
    var q3 := ShiftRight(q2, DEGREE);
    Xor(a, ClMul(q3, IRREDPOLY))
  }

  /** The polynomial and the degree are written out here. */
  ghost predicate IsRemainder(a: nat, r: nat) {
    r < 0x1_0000_0000 && exists q: nat :: a == Xor(ClMul(q, 0x1_0000_00C5), r)
  }

  // -------------------------------------------------------------------------------------------
  // Laws of addition.

  lemma XorBits(x: nat, y: nat)
    ensures Xor(x, y) / 2 == Xor(x / 2, y / 2) && Xor(x, y) % 2 == (x % 2 + y % 2) % 2
  {
  }

  /** Each bit of a sum. */
  lemma {:induction false} BitsOfXor(x: nat, y: nat, i: nat)
    ensures Bit(Xor(x, y), i) <==> Bit(x, i) != Bit(y, i)
    decreases i
  {
    hide Xor;
    XorBits(x, y);
    if i > 0 { BitsOfXor(x / 2, y / 2, i - 1); }
  }

  lemma {:induction false} XorCommutes(x: nat, y: nat)
    ensures Xor(x, y) == Xor(y, x)
    decreases x
  {
    if x > 0 && y > 0 { XorCommutes(x / 2, y / 2); }
  }

  lemma SameBits(u: nat, v: nat)
    requires u / 2 == v / 2 && u % 2 == v % 2
    ensures u == v
  {
  }

  lemma Parity(x: nat, y: nat, z: nat)
    ensures ((x % 2 + y % 2) % 2 + z % 2) % 2 == (x % 2 + (y % 2 + z % 2) % 2) % 2
  {
  }

  lemma {:induction false} XorAssociates(x: nat, y: nat, z: nat)
    ensures Xor(Xor(x, y), z) == Xor(x, Xor(y, z))
    decreases x + y + z
  {
    hide Xor;
    if x + y + z == 0 {
      XorSelf(0);
    } else {
      XorAssociates(x / 2, y / 2, z / 2);
      XorBits(x, y);
      XorBits(y, z);
      XorBits(Xor(x, y), z);
      XorBits(x, Xor(y, z));
      Parity(x, y, z);
      SameBits(Xor(Xor(x, y), z), Xor(x, Xor(y, z)));
    }
  }

  lemma {:induction false} XorSelf(x: nat)
    ensures Xor(x, x) == 0 && Xor(x, 0) == x && Xor(0, x) == x
    decreases x
  {
    if x > 0 { XorSelf(x / 2); }
  }

  /** Adding the same thing twice cancels. */
  lemma XorTwice(x: nat, y: nat)
    ensures Xor(Xor(x, y), y) == x && Xor(y, Xor(y, x)) == x
  {
    hide Xor;
    XorAssociates(x, y, y);
    XorAssociates(y, y, x);
    XorSelf(y);
    XorSelf(x);
  }

  lemma XorSwap(a: nat, b: nat, c: nat, d: nat)
    ensures Xor(Xor(a, b), Xor(c, d)) == Xor(Xor(a, c), Xor(b, d))
  {
    hide Xor;
    XorAssociates(a, b, Xor(c, d));
    XorAssociates(b, c, d);
    XorCommutes(b, c);
    XorAssociates(c, b, d);
    XorAssociates(a, c, Xor(b, d));
  }

  lemma XorDouble(x: nat, y: nat)
    ensures Xor(2 * x, 2 * y) == 2 * Xor(x, y)
  {
    hide Xor;
    XorBits(2 * x, 2 * y);
  }

  lemma {:induction false} XorFits(x: nat, y: nat, k: nat)
    requires x < Pow2(k) && y < Pow2(k)
    ensures Xor(x, y) < Pow2(k)
    decreases k
  {
    if k == 0 {
      XorSelf(0);
    } else {
      hide Xor;
      XorBits(x, y);
      XorFits(x / 2, y / 2, k - 1);
    }
  }

  lemma {:induction false} XorShift(x: nat, y: nat, k: nat)
    ensures ShiftRight(Xor(x, y), k) == Xor(ShiftRight(x, k), ShiftRight(y, k))
    decreases k
  {
    hide Xor;
    if k > 0 {
      XorBits(x, y);
      XorShift(x / 2, y / 2, k - 1);
    }
  }

  // -------------------------------------------------------------------------------------------
  // Laws of multiplication.

  lemma ClMulStep(a: nat, b: nat)
    ensures ClMul(a, b) == Xor(2 * ClMul(a / 2, b), if a % 2 == 1 then b else 0)
    ensures ClMul(0, b) == 0
  {
    XorSelf(0);
  }

  lemma {:induction false} ClMulLeft(a: nat, a': nat, b: nat)
    ensures ClMul(Xor(a, a'), b) == Xor(ClMul(a, b), ClMul(a', b))
    decreases a + a'
  {
    hide Xor, ClMul;
    if a + a' == 0 {
      XorSelf(0);
      ClMulStep(0, b);
    } else {
      ClMulLeft(a / 2, a' / 2, b);
      XorBits(a, a');
      ClMulStep(a, b);
      ClMulStep(a', b);
      ClMulStep(Xor(a, a'), b);
      XorDouble(ClMul(a / 2, b), ClMul(a' / 2, b));
      XorSwap(2 * ClMul(a / 2, b), if a % 2 == 1 then b else 0, 2 * ClMul(a' / 2, b), if a' % 2 == 1 then b else 0);
      XorSelf(b);
      XorSelf(0);
    }
  }

  lemma {:induction false} ClMulRight(a: nat, b: nat, b': nat)
    ensures ClMul(a, Xor(b, b')) == Xor(ClMul(a, b), ClMul(a, b'))
    decreases a
  {
    hide Xor, ClMul;
    ClMulStep(a, b);
    ClMulStep(a, b');
    ClMulStep(a, Xor(b, b'));
    if a == 0 {
      XorSelf(0);
    } else {
      ClMulRight(a / 2, b, b');
      XorDouble(ClMul(a / 2, b), ClMul(a / 2, b'));
      XorSwap(2 * ClMul(a / 2, b), if a % 2 == 1 then b else 0, 2 * ClMul(a / 2, b'), if a % 2 == 1 then b' else 0);
      XorSelf(0);
    }
  }

  lemma ShiftLeftSum(x: nat, bit: nat, p: nat)
    requires bit < 2
    ensures (2 * x + bit) * p == 2 * (x * p) + bit * p
  {
  }

  /** Multiplying by a power of x is shifting. */
  lemma {:induction false} ClMulPower(a: nat, k: nat)
    ensures ClMul(a, Pow2(k)) == a * Pow2(k)
    decreases a
  {
    hide Xor, ClMul, Pow2;
    ClMulStep(a, Pow2(k));
    if a > 0 {
      ClMulPower(a / 2, k);
      ShiftLeftSum(a / 2, a % 2, Pow2(k));
      XorAboveBit(a / 2, a % 2, k);
    }
  }

  lemma {:induction false} XorAboveBit(x: nat, bit: nat, k: nat)
    requires bit < 2
    ensures Xor(2 * (x * Pow2(k)), if bit == 1 then Pow2(k) else 0) == 2 * (x * Pow2(k)) + bit * Pow2(k)
    decreases k
  {
    hide Xor;
    XorSelf(2 * (x * Pow2(k)));
    PowStep(k);
    if bit == 1 {
      XorBits(2 * (x * Pow2(k)), Pow2(k));
      if k == 0 {
        XorSelf(x);
      } else {
        assert x * Pow2(k) == 2 * (x * Pow2(k - 1));
        XorAboveBit(x, 1, k - 1);
      }
    }
  }

  lemma ShiftAway(a: nat, k: nat)
    requires a < Pow2(k)
    ensures ShiftRight(a, k) == 0
  {
    LenFits(a, k);
    LenShift(a, k);
  }

  /** The degree of a product is the sum of the degrees. */
  lemma {:induction false} ClMulFits(a: nat, b: nat, i: nat, j: nat)
    requires a < Pow2(i) && b < Pow2(j + 1)
    ensures ClMul(a, b) < Pow2(i + j)
    decreases i
  {
    hide Xor, ClMul;
    ClMulStep(a, b);
    if a > 0 {
      ClMulFits(a / 2, b, i - 1, j);
      PowGrows(j + 1, i + j);
      XorFits(2 * ClMul(a / 2, b), if a % 2 == 1 then b else 0, i + j);
    }
  }

  // -------------------------------------------------------------------------------------------
  // The reduction.

  lemma LowFits()
    ensures LOW < Pow2(8) && Pow2(8) == 256
  {
  }

  /** Multiplying by the polynomial: shift by its degree, and add the product with its low part. */
  lemma TimesPoly(q: nat)
    ensures ClMul(q, IRREDPOLY) == Xor(q * Pow2(DEGREE), ClMul(q, LOW))
  {
    hide Xor, ClMul, Pow2;
    ClMulRight(q, Pow2(DEGREE), LOW);
    ClMulPower(q, DEGREE);
  }

  /** What is left of the product above the degree. */
  function Carry(q: nat): nat {
    ShiftRight(ClMul(q, LOW), DEGREE)
  }

  lemma HighPart(q: nat, r: nat)
    requires r < Pow2(DEGREE)
    ensures ShiftRight(Xor(ClMul(q, IRREDPOLY), r), DEGREE) == Xor(q, Carry(q))
  {
    hide Xor, ClMul, Pow2, ShiftRight;
    TimesPoly(q);
    XorShift(ClMul(q, IRREDPOLY), r, DEGREE);
    XorShift(q * Pow2(DEGREE), ClMul(q, LOW), DEGREE);
    ShiftBack(q, DEGREE);
    ShiftAway(r, DEGREE);
    XorSelf(Xor(q, Carry(q)));
  }

  lemma CarryIsSmall(q: nat)
    requires q < Pow2(DEGREE)
    ensures Carry(Carry(q)) == 0
  {
    hide Xor, ClMul, ShiftRight;
    LowFits();
    ClMulFits(q, LOW, 32, 7);
    LenFits(ClMul(q, LOW), 39);
    LenShift(ClMul(q, LOW), DEGREE);
    LenFits(Carry(q), 7);
    ClMulFits(Carry(q), LOW, 7, 7);
    PowGrows(14, DEGREE);
    ShiftAway(ClMul(Carry(q), LOW), DEGREE);
  }

  lemma CarryAdds(x: nat, y: nat)
    ensures Carry(Xor(x, y)) == Xor(Carry(x), Carry(y))
  {
    hide Xor, ClMul, ShiftRight;
    ClMulLeft(x, y, LOW);
    XorShift(ClMul(x, LOW), ClMul(y, LOW), DEGREE);
  }

  /** With a quotient of degree below 32 the estimate of the quotient is exact. */
  lemma EstimateIsExact(q: nat, r: nat)
    requires q < Pow2(DEGREE) && r < Pow2(DEGREE)
    ensures BarrettReduce(Xor(ClMul(q, IRREDPOLY), r)) == r
  {
    hide Xor, ClMul, Pow2, ShiftRight, Carry;
    var a := Xor(ClMul(q, IRREDPOLY), r);
    HighPart(q, r);
    var q1 := ShiftRight(a, DEGREE);
    NoRemainder(q1);
    CarryAdds(q, Carry(q));
    CarryIsSmall(q);
    XorSelf(Carry(q));
    XorTwice(q, Carry(q));
    XorCommutes(ClMul(q, IRREDPOLY), r);
    XorTwice(r, ClMul(q, IRREDPOLY));
  }

  lemma NoRemainder(q1: nat)
    ensures ShiftRight(ClMul(q1, IRREDPOLY), DEGREE) == Xor(q1, Carry(q1))
  {
    hide Xor, ClMul, Pow2, ShiftRight, Carry;
    HighPart(q1, 0);
    XorSelf(ClMul(q1, IRREDPOLY));
  }

  // -------------------------------------------------------------------------------------------
  // Division.

  /** Quotient and remainder, one bit at a time. */
  function DivideStep(q: nat, r: nat, bit: nat): (nat, nat) {
    var t := 2 * r + bit;
    if t < Pow2(DEGREE) then (2 * q, t) else (2 * q + 1, Xor(t, IRREDPOLY))
  }

  function Divide(a: nat): (nat, nat) {
    if a == 0 then (0, 0)
    else var (q, r) := Divide(a / 2); DivideStep(q, r, a % 2)
  }

  lemma XorDoubleBit(x: nat, y: nat, bit: nat)
    requires bit < 2
    ensures Xor(2 * x, 2 * y + bit) == 2 * Xor(x, y) + bit
  {
    hide Xor;
    XorBits(2 * x, 2 * y + bit);
  }

  /** Adding a power of x above everything else. */
  lemma {:induction false} XorTop(x: nat, k: nat)
    requires x < Pow2(k)
    ensures Xor(Pow2(k), x) == Pow2(k) + x
    decreases k
  {
    hide Xor;
    PowStep(k);
    if k == 0 {
      XorSelf(1);
    } else {
      PowStep(k - 1);
      XorTop(x / 2, k - 1);
      XorBits(Pow2(k), x);
    }
  }

  /** One subtraction brings a word of 33 bits below the degree. */
  lemma ReducedOnce(t: nat)
    requires Pow2(DEGREE) <= t < 2 * Pow2(DEGREE)
    ensures Xor(t, IRREDPOLY) < Pow2(DEGREE)
  {
    hide Xor, Pow2;
    var low := t - Pow2(DEGREE);
    XorTop(low, DEGREE);
    LowFits();
    PowGrows(8, DEGREE);
    XorSwap(Pow2(DEGREE), low, Pow2(DEGREE), LOW);
    XorSelf(Pow2(DEGREE));
    XorSelf(Xor(low, LOW));
    XorFits(low, LOW, DEGREE);
  }

  lemma ClMulDoubled(q: nat, b: nat)
    ensures ClMul(2 * q, b) == 2 * ClMul(q, b) && ClMul(2 * q + 1, b) == Xor(2 * ClMul(q, b), b)
  {
    hide Xor, ClMul;
    ClMulStep(2 * q, b);
    ClMulStep(2 * q + 1, b);
    XorSelf(2 * ClMul(q, b));
  }

  lemma StepIsExact(q: nat, r: nat, bit: nat)
    requires r < Pow2(DEGREE) && bit < 2
    ensures var (q', r') := DivideStep(q, r, bit);
            && r' < Pow2(DEGREE) && q' / 2 == q
            && Xor(ClMul(q', IRREDPOLY), r') == 2 * Xor(ClMul(q, IRREDPOLY), r) + bit
  {
    hide Xor, ClMul, Pow2;
    var t, p := 2 * r + bit, ClMul(q, IRREDPOLY);
    XorDoubleBit(p, r, bit);
    ClMulDoubled(q, IRREDPOLY);
    if t >= Pow2(DEGREE) {
      ReducedOnce(t);
      XorSwap(2 * p, IRREDPOLY, t, IRREDPOLY);
      XorSelf(IRREDPOLY);
      XorSelf(Xor(2 * p, t));
    }
  }

  /** Long division divides. */
  lemma {:induction false} DivideIsExact(a: nat)
    ensures var (q, r) := Divide(a); r < Pow2(DEGREE) && a == Xor(ClMul(q, IRREDPOLY), r)
    decreases a
  {
    hide Xor, ClMul, Pow2, DivideStep;
    if a == 0 {
      ClMulStep(0, IRREDPOLY);
      XorSelf(0);
    } else {
      DivideIsExact(a / 2);
      var (q, r) := Divide(a / 2);
      StepIsExact(q, r, a % 2);
    }
  }

  lemma {:induction false} LenXor(x: nat, y: nat)
    requires Len(x) > Len(y)
    ensures Len(Xor(x, y)) == Len(x)
    decreases x
  {
    if y > 0 { LenXor(x / 2, y / 2); }
  }

  lemma PolyLen()
    ensures Len(IRREDPOLY) == DEGREE + 1
  {
    hide Xor, Pow2;
    LowFits();
    PowGrows(8, DEGREE);
    XorTop(LOW, DEGREE);
    PowStep(DEGREE);
    LenFits(IRREDPOLY, DEGREE);
    LenFits(IRREDPOLY, DEGREE + 1);
  }

  lemma DoubleLen(p: nat)
    ensures Len(p) > 0 ==> Len(2 * p) == Len(p) + 1
  {
  }

  lemma HalfLen(q: nat)
    requires q > 0
    ensures Len(q) == Len(q / 2) + 1 && (q == 1 ==> Len(q) == 1) && (q > 1 ==> Len(q / 2) > 0)
  {
  }

  lemma {:induction false} ProductLen(q: nat)
    requires q > 0
    ensures Len(ClMul(q, IRREDPOLY)) == Len(q) + DEGREE
    decreases q
  {
    hide Xor, ClMul, Len, Pow2;
    PolyLen();
    ClMulStep(q, IRREDPOLY);
    ClMulStep(0, IRREDPOLY);
    XorSelf(IRREDPOLY);
    var p := ClMul(q / 2, IRREDPOLY);
    XorSelf(2 * p);
    if q > 1 {
      ProductLen(q / 2);
      DoubleLen(p);
      DoubleLen(q / 2);
      HalfLen(q);
      if q % 2 == 1 { LenXor(2 * p, IRREDPOLY); }
    } else {
      HalfLen(q);
    }
  }

  /** A word of 64 bits has a quotient of 32 bits. */
  lemma QuotientFits(a: nat, q: nat, r: nat)
    requires a < Pow2(64) && r < Pow2(DEGREE) && a == Xor(ClMul(q, IRREDPOLY), r)
    ensures q < Pow2(DEGREE)
  {
    hide Xor, ClMul, Pow2;
    LenFits(q, DEGREE);
    LenFits(r, DEGREE);
    LenFits(a, 64);
    if q > 0 {
      ProductLen(q);
      PositiveLen(q);
      LenXor(ClMul(q, IRREDPOLY), r);
    }
  }

  lemma PositiveLen(q: nat)
    requires q > 0
    ensures Len(q) > 0
  {
  }

  lemma PolyIs()
    ensures IRREDPOLY == 0x1_0000_00C5 && Pow2(DEGREE) == 0x1_0000_0000
  {
    hide Xor, Pow2;
    LowFits();
    PowGrows(8, DEGREE);
    XorTop(LOW, DEGREE);
    PowersOfTwo();
  }

  lemma PowersOfTwo()
    ensures Pow2(DEGREE) == 0x1_0000_0000
  {
    assert Pow2(8) == 0x100;
    PowSum(8, 8);
    PowSum(16, 16);
    assert 8 + 8 == 16 && 16 + 16 == DEGREE;
  }

  /** The reduction is the remainder: every word of 64 bits has exactly one. */
  lemma ReductionIsRemainder(a: nat, r: nat)
    requires a < Pow2(64)
    ensures IsRemainder(a, r) <==> r == BarrettReduce(a)
  {
    hide Xor, ClMul, Pow2, BarrettReduce, Divide;
    PolyIs();
    DivideIsExact(a);
    var (q0, r0) := Divide(a);
    QuotientFits(a, q0, r0);
    EstimateIsExact(q0, r0);
    if IsRemainder(a, r) {
      var q: nat :| a == Xor(ClMul(q, IRREDPOLY), r);
      QuotientFits(a, q, r);
      EstimateIsExact(q, r);
    }
  }

  /** The products of the reduction stay within 64 bits. */
  lemma ProductsFit(q: nat)
    requires q < Pow2(DEGREE)
    ensures ClMul(q, IRREDPOLY) < Pow2(64)
  {
    hide ClMul, Pow2, Xor;
    PolyLen();
    LenFits(IRREDPOLY, DEGREE + 1);
    ClMulFits(q, IRREDPOLY, DEGREE, DEGREE);
  }

  /** x^64 divided by the polynomial is the polynomial itself, which is why it serves as its own
      Barrett constant. */
  lemma OwnReciprocal()
    ensures Pow2(64) == Xor(ClMul(IRREDPOLY, IRREDPOLY), ClMul(LOW, LOW)) && ClMul(LOW, LOW) < Pow2(DEGREE)
  {
    hide Xor, ClMul, Pow2;
    TimesPoly(IRREDPOLY);
    ClMulLeft(Pow2(DEGREE), LOW, LOW);
    LowFits();
    PowGrows(8, DEGREE);
    XorTop(LOW, DEGREE);
    ClMulFits(LOW, LOW, 8, 7);
    PowGrows(15, DEGREE);
    SquareOfSum();
  }

  lemma SquareOfSum()
    ensures Pow2(64) == Xor(ClMul(IRREDPOLY, IRREDPOLY), ClMul(LOW, LOW))
  {
    hide Xor, ClMul, Pow2;
    var x := Pow2(DEGREE);
    ClMulLeft(x, LOW, IRREDPOLY);
    ClMulRight(x, x, LOW);
    ClMulRight(LOW, x, LOW);
    ClMulPower(x, DEGREE);
    ClMulPower(LOW, DEGREE);
    PowerTimes(LOW, DEGREE);
    PowSum(DEGREE, DEGREE);
    var lx, ll := LOW * x, ClMul(LOW, LOW);
    XorAssociates(Pow2(64), lx, Xor(lx, ll));
    XorTwice(ll, lx);
    XorTwice(Pow2(64), ll);
  }

  /** A power of x times b, from the left. */
  lemma {:induction false} PowerTimes(b: nat, k: nat)
    ensures ClMul(Pow2(k), b) == b * Pow2(k)
    decreases k
  {
    hide Xor, ClMul;
    PowStep(k);
    ClMulStep(Pow2(k), b);
    if k == 0 {
      ClMulStep(0, b);
      XorSelf(b);
    } else {
      PowerTimes(b, k - 1);
      assert Pow2(k) / 2 == Pow2(k - 1) && Pow2(k) % 2 == 0;
      XorSelf(2 * ClMul(Pow2(k - 1), b));
    }
  }

  lemma {:induction false} PowSum(i: nat, j: nat)
    ensures Pow2(i) * Pow2(j) == Pow2(i + j)
    decreases i
  {
    if i > 0 {
      PowSum(i - 1, j);
      assert Pow2(i) * Pow2(j) == 2 * (Pow2(i - 1) * Pow2(j));
    }
  }
}
