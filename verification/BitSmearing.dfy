/** The branch-free rounding to a power of two, and the logarithm that sizes tags and sets. */
module BitSmearing {
  import opened Bits
  import opened CacheGeometry

  const WORD: nat := 0x1_0000_0000

  /** 0, 1, 11, 111, ... */
  predicate Ones(n: nat) {
    n == 0 || (n % 2 == 1 && Ones(n / 2))
  }

  /** The highest w bits are set, or all of them are. */
  predicate Top(n: nat, w: nat) {
    Ones(n) || (Len(n) > w && Top(n / 2, w))
  }

  lemma {:induction false} LenBounds(n: nat)
    ensures n < Pow2(Len(n)) && (n > 0 ==> Pow2(Len(n)) <= 2 * n)
    ensures Ones(n) ==> n + 1 == Pow2(Len(n))
  {
    if n > 0 { LenBounds(n / 2); }
  }

  lemma {:induction false} OnesOr(n: nat, k: nat)
    requires Ones(n)
    ensures Or(n, ShiftRight(n, k)) == n
    decreases n
  {
    if n > 0 {
      HalfOfShift(n, k);
      OnesOr(n / 2, k);
      var m := ShiftRight(n, k);
      assert m > 0 ==> Or(n, m) == 2 * Or(n / 2, m / 2) + 1;
    } else {
      LenShift(n, k);
    }
  }

  /** A bit among the highest w is set. */
  lemma {:induction false} TopBit(n: nat, w: nat, j: nat)
    requires Top(n, w) && j < Len(n) <= j + w
    ensures ShiftRight(n, j) % 2 == 1
    decreases j
  {
    if j == 0 {
      assert Ones(n);
    } else if Ones(n) {
      OnesBit(n, j);
    } else {
      TopBit(n / 2, w, j - 1);
    }
  }

  lemma {:induction false} OnesBit(n: nat, j: nat)
    requires Ones(n) && j < Len(n)
    ensures ShiftRight(n, j) % 2 == 1
    decreases j
  {
    if j > 0 { OnesBit(n / 2, j - 1); }
  }

  /** One smearing step doubles the run of ones at the top. */
  lemma {:induction false} SmearStep(n: nat, w: nat)
    requires Top(n, w) && w > 0
    ensures Top(Or(n, ShiftRight(n, w)), 2 * w) && Len(Or(n, ShiftRight(n, w))) == Len(n)
    decreases n
  {
    LenOr(n, ShiftRight(n, w));
    LenShift(n, w);
    if Ones(n) {
      OnesOr(n, w);
    } else {
      SmearStep(n / 2, w);
      HalfOfShift(n, w);
      var r := Or(n, ShiftRight(n, w));
      assert ShiftRight(n, w) > 0;
      assert r / 2 == Or(n / 2, ShiftRight(n / 2, w));
      if Len(n) <= 2 * w { TopBit(n, w, w); }
    }
  }

  lemma {:induction false} FirstTop(n: nat)
    ensures Top(n, 1)
  {
    if n > 0 { FirstTop(n / 2); }
  }

  lemma TopIsOnes(n: nat, w: nat)
    requires Top(n, w) && Len(n) <= w
    ensures Ones(n)
  {
  }

  /** The least exponent of a power of two that reaches x. */
  function CeilLog2(x: nat): nat {
    if x <= 1 then 0 else Len(x - 1)
  }

  lemma CeilLog2IsLeast(x: nat, k: nat)
    requires x > 0
    ensures x <= Pow2(k) <==> CeilLog2(x) <= k
  {
    if x > 1 { LenFits(x - 1, k); }
  }

  /** 32-bit arithmetic: for 1 to 2^31 the least power of two that reaches x, for every other word 0. */
  method RoundUpPower2(word: nat) returns (r: nat)
    requires word < WORD
    ensures 1 <= word <= Pow2(31) ==> r == Pow2(CeilLog2(word)) && word <= r < 2 * word
    ensures !(1 <= word <= Pow2(31)) ==> r == 0
  {
    var x := (word + WORD - 1) % WORD;
    ghost var y := x;
    FirstTop(x);
    x := Or(x, ShiftRight(x, 1));
    SmearStep(y, 1);
    ghost var y2 := x;
    x := Or(x, ShiftRight(x, 2));
    SmearStep(y2, 2);
    ghost var y4 := x;
    x := Or(x, ShiftRight(x, 4));
    SmearStep(y4, 4);
    ghost var y8 := x;
    x := Or(x, ShiftRight(x, 8));
    SmearStep(y8, 8);
    ghost var y16 := x;
    x := Or(x, ShiftRight(x, 16));
    SmearStep(y16, 16);
    WordLength(y);
    TopIsOnes(x, 32);
    LenBounds(x);
    LenBounds(y);
    RoundedIs(word, y, x);
    return (x + 1) % WORD;
  }

  lemma WordLength(y: nat)
    requires y < WORD
    ensures Len(y) <= 32 && Pow2(32) == WORD && Pow2(31) == WORD / 2
    ensures Len(y) == 32 <==> y >= Pow2(31)
  {
    PowersOfWord();
    LenFits(y, 32);
    LenFits(y, 31);
  }

  lemma PowersOfWord()
    ensures Pow2(32) == WORD && Pow2(31) == WORD / 2
  {
    assert Pow2(8) == 256;
    assert Pow2(16) == 65536;
    assert Pow2(24) == 16777216;
  }

  lemma RoundedIs(word: nat, y: nat, x: nat)
    requires word < WORD && y == (word + WORD - 1) % WORD && x + 1 == Pow2(Len(y)) && Len(y) <= 32
    requires y < Pow2(Len(y)) && (y > 0 ==> Pow2(Len(y)) <= 2 * y)
    ensures 1 <= word <= Pow2(31) ==> (x + 1) % WORD == Pow2(CeilLog2(word)) && word <= (x + 1) % WORD < 2 * word
    ensures !(1 <= word <= Pow2(31)) ==> (x + 1) % WORD == 0
  {
    hide Pow2, Len;
    WordLength(y);
    LenOfSmall(word);
    PowStep(0);
    if Len(y) < 32 { PowGrows(Len(y), 31); }
  }

  lemma LenOfSmall(word: nat)
    ensures Len(0) == 0 && CeilLog2(word) == if word <= 1 then 0 else Len(word - 1)
  {
  }

  /** log2i. Words above 2^31 and 0 give 0. */
  method Log2i(word: nat) returns (i: nat)
    requires word < WORD
    ensures i == if word <= Pow2(31) then CeilLog2(word) else 0
  {
    hide Len, CeilLog2, Pow2;
    PowStep(0);
    LenOfSmall(word);
    if word == 1 {
      return 0;
    }
    var n := RoundUpPower2(word);
    var m := 1;
    i := 0;
    ghost var k := if 1 <= word <= Pow2(31) then CeilLog2(word) else 0;
    while m < n
      invariant i <= k && m == Pow2(i)
      decreases k - i
    {
      if k <= i { PowGrows(k, i); }
      PowStep(i);
      i := i + 1;
      m := 2 * m;
    }
    PowStep(i);
    if i < k { PowGrows(i + 1, k); }
  }

  // -------------------------------------------------------------------------------------------
  // The geometry built from these.

  function Div(a: nat, b: nat): nat
    requires b > 0
  {
    a / b
  }

  /** The constructor's fields, for sizes of at most 2^31. */
  function Build(size: nat, assoc: nat, lineSize: nat, addrUnit: nat): Geometry
    requires assoc > 0 && lineSize > 0 && addrUnit > 0
  {
    Geometry(assoc, Div(Div(size, lineSize), assoc), Pow2(CeilLog2(assoc)), Div(size, lineSize),
      CeilLog2(Div(lineSize, addrUnit)))
  }

  lemma {:induction false} CeilLog2OfPow2(k: nat)
    ensures CeilLog2(Pow2(k)) == k
  {
    CeilLog2IsLeast(Pow2(k), k);
    if k > 0 {
      CeilLog2IsLeast(Pow2(k), k - 1);
      PowStep(k - 1);
    }
  }

  /** Two addresses have the same tag just when they are in the same line, counted in address units. */
  lemma TagsAreLines(size: nat, assoc: nat, k: nat, u: nat, addr: nat, addr': nat)
    requires assoc > 0 && u <= k
    ensures Pow2(k) == Pow2(u) * Pow2(k - u)
    ensures var g := Build(size, assoc, Pow2(k), Pow2(u));
            g.CalcTag(addr) == g.CalcTag(addr') <==> addr / Pow2(k - u) == addr' / Pow2(k - u)
  {
    hide Pow2, CeilLog2;
    var g, unit := Build(size, assoc, Pow2(k), Pow2(u)), Pow2(k - u);
    PowersSplit(u, k - u);
    Quotient(Pow2(u), unit);
    CeilLog2OfPow2(k - u);
    TagIsQuotient(g, addr, unit);
    TagIsQuotient(g, addr', unit);
  }

  lemma {:induction false} PowersSplit(i: nat, j: nat)
    ensures Pow2(i + j) == Pow2(i) * Pow2(j)
    decreases i
  {
    if i > 0 { PowersSplit(i - 1, j); }
  }

  lemma Quotient(p: nat, q: nat)
    requires p > 0
    ensures Div(p * q, p) == q
  {
    OneQuotient(p * q, q, p);
  }

  lemma TagIsQuotient(g: Geometry, addr: nat, unit: nat)
    requires unit == Pow2(g.shift)
    ensures g.CalcTag(addr) == addr / unit
  {
    hide Pow2, ShiftRight;
    TagOfLine(g, addr, g.CalcTag(addr));
    OneQuotient(addr, g.CalcTag(addr), unit);
  }

  /** With a power of two of ways and at least one set, every set's slots lie inside the cache. */
  lemma PowerOfTwoWaysFit(size: nat, k: nat, lineSize: nat, addrUnit: nat)
    requires lineSize > 0 && addrUnit > 0 && Div(size, lineSize) >= Pow2(k)
    ensures Build(size, Pow2(k), lineSize, addrUnit).Usable()
  {
    CeilLog2OfPow2(k);
    SetsTimesWays(Div(size, lineSize), Pow2(k));
  }

  lemma SetsTimesWays(lines: nat, ways: nat)
    requires 0 < ways <= lines
    ensures Div(lines, ways) > 0 && (Div(lines, ways) - 1) * ways + ways <= lines
  {
    var sets := Div(lines, ways);
    assert lines == sets * ways + lines % ways;
    assert sets * ways > 0;
    assert (sets - 1) * ways + ways == sets * ways;
  }

  /** With any number of ways, the slots of every tag lie inside the cache just when those of the last set do. */
  lemma InsideIffLastSetIs(g: Geometry)
    requires g.sets > 0 && g.assoc > 0
    ensures (forall tag: nat :: g.BaseOf(g.SetOf(tag)) + g.assoc <= g.numLines) <==>
            g.BaseOf(g.sets - 1) + g.assoc <= g.numLines
  {
    hide Geometry.BaseOf, And;
    AndSelf(g.sets - 1);
    assert g.SetOf(g.sets - 1) == g.sets - 1;
    forall tag: nat ensures g.BaseOf(g.SetOf(tag)) <= g.BaseOf(g.sets - 1) {
      BaseGrows(g, g.SetOf(tag), g.sets - 1);
    }
  }

  /** In terms of the constructor's inputs: each set but the last leaves a gap up to the rounded number of
      ways, and all the gaps together must fit into the lines that the division into sets leaves over. */
  lemma GapsFitExactly(size: nat, assoc: nat, lineSize: nat, addrUnit: nat)
    requires lineSize > 0 && addrUnit > 0 && 0 < assoc <= Div(size, lineSize)
    ensures var g, lines, rounded := Build(size, assoc, lineSize, addrUnit), Div(size, lineSize), Pow2(CeilLog2(assoc));
            && g.sets > 0 && rounded >= assoc
            && ((forall tag: nat :: g.BaseOf(g.SetOf(tag)) + g.assoc <= g.numLines) <==>
                  (Div(lines, assoc) - 1) * (rounded - assoc) <= lines % assoc)
  {
    hide Pow2, CeilLog2, Geometry.SetOf, Div;
    var g, lines := Build(size, assoc, lineSize, addrUnit), Div(size, lineSize);
    CeilLog2IsLeast(assoc, CeilLog2(assoc));
    SetsTimesWays(lines, assoc);
    InsideIffLastSetIs(g);
    GapsOverAll(lines, assoc, g.stride);
  }

  lemma GapsOverAll(lines: nat, ways: nat, rounded: nat)
    requires 0 < ways <= lines && ways <= rounded && Div(lines, ways) > 0
    ensures (Div(lines, ways) - 1) * rounded + ways <= lines <==>
            (Div(lines, ways) - 1) * (rounded - ways) <= lines % ways
  {
    var before := Div(lines, ways) - 1;
    assert lines == (before + 1) * ways + lines % ways;
    assert (before + 1) * ways == before * ways + ways;
    assert before * (rounded - ways) == before * rounded - before * ways;
  }

  lemma BaseGrows(g: Geometry, s: nat, t: nat)
    requires s <= t
    ensures g.BaseOf(s) <= g.BaseOf(t)
  {
    assert s * g.stride <= t * g.stride;
  }

  /** Three ways and six lines: the second set's slots, of tag 1, reach past the end. */
  lemma ThreeWaysOverrun()
    ensures var g := Build(192, 3, 32, 1); g.sets == 2 && g.SetOf(1) == 1 && g.BaseOf(1) + g.assoc > g.numLines
  {
    assert CeilLog2(3) == 2;
    assert Pow2(2) == 4;
  }

  ghost predicate Used(g: Geometry, s: nat)
    requires g.sets > 0
  {
    exists tag: nat :: g.SetOf(tag) == s
  }

  lemma {:induction false} MaskOfOnes(s: nat, m: nat)
    requires Ones(m) && s <= m
    ensures And(s, m) == s
    decreases m
  {
    if m > 0 && s > 0 { MaskOfOnes(s / 2, m / 2); }
  }

  lemma {:induction false} MaskMisses(m: nat) returns (s: nat)
    requires !Ones(m)
    ensures s <= m && forall tag: nat :: And(tag, m) != s
    decreases m
  {
    if m % 2 == 0 {
      s := 1;
      forall tag: nat ensures And(tag, m) != 1 { AndParity(tag, m); }
    } else {
      var s' := MaskMisses(m / 2);
      s := 2 * s';
      forall tag: nat ensures And(tag, m) != s {
        AndParity(tag, m);
        assert And(tag / 2, m / 2) != s';
      }
    }
  }

  /** Masking with sets - 1 reaches every set just when the number of sets is a power of two. */
  lemma EverySetUsed(g: Geometry)
    requires g.sets > 0
    ensures (forall s: nat :: s < g.sets ==> Used(g, s)) <==> g.sets == Pow2(Len(g.sets - 1))
  {
    var m := g.sets - 1;
    OnesIsPower(m);
    if Ones(m) {
      forall s: nat | s < g.sets ensures Used(g, s) {
        MaskOfOnes(s, m);
        assert g.SetOf(s) == s;
      }
    } else {
      var s := MaskMisses(m);
      assert !Used(g, s);
    }
  }

  lemma {:induction false} OnesIsPower(n: nat)
    ensures Ones(n) <==> n + 1 == Pow2(Len(n))
  {
    if n > 0 { OnesIsPower(n / 2); }
  }
}
