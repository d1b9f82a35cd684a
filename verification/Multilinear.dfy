/** StrongMultilinear and its unrolled form: each loop computes its formula, and over all key buffers
    two different strings get every pair of outputs equally often. */
module Multilinear {
  import opened Bits
  import opened Counting
  import opened Residues
  import opened AffineKeys

  predicate IsWord(x: nat) {
    x < H
  }

  predicate Words(s: seq<nat>) {
    forall i :: 0 <= i < |s| ==> IsWord(s[i])
  }

  function Init(s: seq<nat>): seq<nat>
    requires |s| > 0
  {
    s[..|s| - 1]
  }

  function Last(s: seq<nat>): nat
    requires |s| > 0
  {
    s[|s| - 1]
  }

  /** 64-bit addition and multiplication. */
  function Add(a: nat, b: nat): nat {
    (a + b) % M
  }

  function Product(a: nat, b: nat): nat {
    (a * b) % M
  }

  /** k0 + k1 s0 + k2 s1 + ..., with one key more than the string has characters. */
  function Dot(b: seq<nat>, s: seq<nat>): nat
    requires |b| == |s| + 1
    decreases |s|
  {
    if |s| == 0 then b[0] else Dot(Init(b), Init(s)) + Times(Last(b), Last(s))
  }

  function StrongHash(b: seq<nat>, s: seq<nat>): nat
    requires |b| == |s| + 1
  {
    Hi(Dot(b, s))
  }

  function Term(b: seq<nat>, s: seq<nat>): nat -> nat
    requires |b| > |s|
  {
    (i: nat) => if i < |s| then b[i + 1] * s[i] else 0
  }

  /** The first key and the products of the others with the characters, each with the key one place on. */
  lemma {:induction false} DotIs(b: seq<nat>, s: seq<nat>)
    requires |b| == |s| + 1
    ensures Dot(b, s) == b[0] + Sum(|s|, Term(b, s))
    decreases |s|
  {
    if s != [] {
      DotIs(Init(b), Init(s));
      SumSame(|s| - 1, Term(Init(b), Init(s)), Term(b, s));
    }
  }

  /** The hash is the upper half of the sum modulo 2 to the 64. */
  lemma HashIs(b: seq<nat>, s: seq<nat>)
    requires |b| == |s| + 1
    ensures StrongHash(b, s) == (b[0] + Sum(|s|, Term(b, s))) % 0x1_0000_0000_0000_0000 / 0x1_0000_0000
  {
    hide Pow2, Dot;
    DotIs(b, s);
    WordSizes();
  }

  lemma WordSizes()
    ensures M == 0x1_0000_0000_0000_0000 && H == 0x1_0000_0000
  {
    hide Pow2;
    HalfWordSize();
    Sizes();
  }

  lemma HalfWordSize()
    ensures H == 0x1_0000_0000
  {
    assert Pow2(8) == 0x100;
    assert Pow2(16) == 0x1_0000;
    assert Pow2(24) == 0x100_0000;
  }

  // -------------------------------------------------------------------------------------------
  // The loops.

  lemma DotNext(b: seq<nat>, s: seq<nat>, i: nat)
    requires i < |s| < |b|
    ensures Dot(b[..i + 2], s[..i + 1]) == Dot(b[..i + 1], s[..i]) + Times(b[i + 1], s[i])
  {
    hide Times;
    assert Init(b[..i + 2]) == b[..i + 1] && Init(s[..i + 1]) == s[..i];
  }

  lemma AddProduct(sum: nat, total: nat, a: nat, b: nat)
    requires sum == total % M
    ensures Add(sum, Product(a, b)) == (total + Times(a, b)) % M
  {
    hide Pow2;
    ModOfSum(total, (a * b) % M, M);
    ModOfSum(a * b, total, M);
  }

  method Hash(firstfew: seq<nat>, s: seq<nat>) returns (h: nat)
    requires |firstfew| > |s| && forall i :: 0 <= i < |firstfew| ==> firstfew[i] < M
    ensures h == StrongHash(firstfew[..|s| + 1], s)
  {
    hide Pow2, Times, Dot, Add, Product, Hi;
    FirstKey(firstfew, s);
    var sum := firstfew[0];
    for i := 0 to |s|
      invariant sum == Dot(firstfew[..i + 1], s[..i]) % M
    {
      DotNext(firstfew, s, i);
      AddProduct(sum, Dot(firstfew[..i + 1], s[..i]), firstfew[i + 1], s[i]);
      sum := Add(sum, Product(firstfew[i + 1], s[i]));
    }
    assert s[..|s|] == s;
    HiMod(Dot(firstfew[..|s| + 1], s), 0);
    return Hi(sum);
  }

  lemma FirstKey(b: seq<nat>, s: seq<nat>)
    requires |b| > |s| && b[0] < M
    ensures b[0] == Dot(b[..1], s[..0]) % M
  {
    hide Pow2;
    ModUnique(b[0], M, 0, b[0]);
  }

  /** The next two terms. */
  lemma TwoTerms(b: seq<nat>, s: seq<nat>, i: nat, sum: nat)
    requires i + 1 < |s| < |b| && sum == Dot(b[..i + 1], s[..i]) % M
    ensures Add(sum, Add(Product(b[i + 1], s[i]), Product(b[i + 2], s[i + 1]))) == Dot(b[..i + 2 + 1], s[..i + 2]) % M
  {
    hide Pow2, Times, Dot;
    var next := i + 1;
    DotNext(b, s, i);
    DotNext(b, s, next);
    AddTwoProducts(sum, Dot(b[..i + 1], s[..i]), b[i + 1], s[i], b[next + 1], s[next]);
  }

  /** The loop unrolled by two gives the same hash on strings of even length. */
  method HashTwoByTwo(firstfew: seq<nat>, s: seq<nat>) returns (h: nat)
    requires |firstfew| > |s| && |s| % 2 == 0 && forall i :: 0 <= i < |firstfew| ==> firstfew[i] < M
    ensures h == StrongHash(firstfew[..|s| + 1], s)
  {
    hide Pow2, Times, Dot, Add, Product, Hi;
    FirstKey(firstfew, s);
    var sum := firstfew[0];
    var i := 0;
    ghost var pairs, j := |s| / 2, 0;
    while i < |s|
      invariant i == 2 * j <= 2 * pairs == |s|
      invariant sum == Dot(firstfew[..i + 1], s[..i]) % M
    {
      TwoTerms(firstfew, s, i, sum);
      sum := Add(sum, Add(Product(firstfew[i + 1], s[i]), Product(firstfew[i + 2], s[i + 1])));
      i, j := i + 2, j + 1;
    }
    assert s[..|s|] == s;
    HiMod(Dot(firstfew[..|s| + 1], s), 0);
    return Hi(sum);
  }

  lemma AddTwoProducts(sum: nat, total: nat, a: nat, b: nat, c: nat, d: nat)
    requires sum == total % M
    ensures Add(sum, Add(Product(a, b), Product(c, d))) == (total + Times(a, b) + Times(c, d)) % M
  {
    hide Pow2;
    var p, q := Product(a, b), Product(c, d);
    AddProduct(sum, total, a, b);
    AddProduct(Add(sum, p), total + Times(a, b), c, d);
    ModOfSum(sum + p, q, M);
    ModOfSum(p + q, sum, M);
  }

  // -------------------------------------------------------------------------------------------
  // Strong universality.

  /** Both strings hash to the wanted outputs, up to offsets in the sums. */
  function Good(s: seq<nat>, s': seq<nat>, c: nat, c': nat, y: nat, y': nat): seq<nat> -> bool {
    (b: seq<nat>) => |b| == |s| + 1 == |s'| + 1 && Hi(Dot(b, s) + c) == y && Hi(Dot(b, s') + c') == y'
  }

  lemma HavingSame(n: nat, p: seq<nat> -> bool, q: seq<nat> -> bool)
    requires forall b :: |b| == n ==> p(b) == q(b)
    ensures Having(n, M, p) == Having(n, M, q)
  {
    hide Pow2;
    forall b ensures b in Having(n, M, p) <==> b in Having(n, M, q) { BuffersAre(n, M, b); }
  }

  /** Fixing the last key leaves the same question about the shorter strings, with other offsets. */
  lemma GoodByLastKey(s: seq<nat>, s': seq<nat>, c: nat, c': nat, y: nat, y': nat, k: nat)
    requires |s| == |s'| > 0
    ensures Having(|s|, M, With(Good(s, s', c, c', y, y'), k)) ==
            Having(|s|, M, Good(Init(s), Init(s'), c + Times(k, Last(s)), c' + Times(k, Last(s')), y, y'))
  {
    hide Pow2, Hi, Times, Having, Dot;
    var p, q := With(Good(s, s', c, c', y, y'), k),
      Good(Init(s), Init(s'), c + Times(k, Last(s)), c' + Times(k, Last(s')), y, y');
    forall b: seq<nat> | |b| == |s| ensures p(b) == q(b) {
      DotLast(b, k, s);
      DotLast(b, k, s');
    }
    HavingSame(|s|, p, q);
  }

  lemma DotLast(b: seq<nat>, k: nat, s: seq<nat>)
    requires |b| == |s| > 0
    ensures Dot(b + [k], s) == Dot(b, Init(s)) + Times(k, Last(s))
  {
    assert Init(b + [k]) == b;
  }

  ghost function GoodCount(s: seq<nat>, s': seq<nat>, c: nat, c': nat, y: nat, y': nat): nat {
    |Having(|s| + 1, M, Good(s, s', c, c', y, y'))|
  }

  ghost function GoodFibres(s: seq<nat>, s': seq<nat>, c: nat, c': nat, y: nat, y': nat): nat -> nat
    requires |s| == |s'| > 0
  {
    (k: nat) => GoodCount(Init(s), Init(s'), c + Times(k, Last(s)), c' + Times(k, Last(s')), y, y')
  }

  lemma FibreIsGood(s: seq<nat>, s': seq<nat>, c: nat, c': nat, y: nat, y': nat, k: nat)
    requires |s| == |s'| > 0
    ensures Fibres(|s|, M, Good(s, s', c, c', y, y'))(k) == GoodFibres(s, s', c, c', y, y')(k)
  {
    hide Pow2, Good, With, Having, Times, Last;
    GoodByLastKey(s, s', c, c', y, y', k);
  }

  lemma GoodCountByLastKey(s: seq<nat>, s': seq<nat>, c: nat, c': nat, y: nat, y': nat)
    requires |s| == |s'| > 0
    ensures GoodCount(s, s', c, c', y, y') == Sum(M, GoodFibres(s, s', c, c', y, y'))
  {
    hide Pow2, Good, Having, Sum, Fibres, GoodFibres, Times, Init, Last;
    CountByLastKey(|s|, M, Good(s, s', c, c', y, y'));
    forall k: nat ensures Fibres(|s|, M, Good(s, s', c, c', y, y'))(k) == GoodFibres(s, s', c, c', y, y')(k) {
      FibreIsGood(s, s', c, c', y, y', k);
    }
    SumSame(M, Fibres(|s|, M, Good(s, s', c, c', y, y')), GoodFibres(s, s', c, c', y, y'));
  }

  lemma OneKey(c: nat, c': nat, y: nat, y': nat, k: nat)
    ensures Good([], [], c, c', y, y')([k]) == Both(c, c', y, y')(k)
  {
    hide Pow2, Hi;
    assert Dot([k], []) == k;
  }

  lemma EmptyStrings(c: nat, c': nat, y: nat, y': nat)
    ensures GoodCount([], [], c, c', y, y') == Count(M, Both(c, c', y, y'))
  {
    hide Pow2, Good, Both, Having, Count;
    var g := Good([], [], c, c', y, y');
    CountSingles(M, g);
    forall k: nat ensures g([k]) == Both(c, c', y, y')(k) { OneKey(c, c', y, y', k); }
    CountSame(M, (k: nat) => g([k]), Both(c, c', y, y'));
  }

  /** Equal strings: every choice of the other keys leaves the question about the first one. */
  lemma {:induction false} EqualStrings(s: seq<nat>, c: nat, c': nat, y: nat, y': nat)
    ensures GoodCount(s, s, c, c', y, y') == Times(Pow(M, |s|), Count(M, Both(c, c', y, y')))
    decreases |s|
  {
    hide Pow2, GoodCount, Times, Count, Both;
    KeyPowStep(|s|);
    if s == [] {
      EmptyStrings(c, c', y, y');
      OneTimes(Count(M, Both(c, c', y, y')));
    } else {
      var each := Times(Pow(M, |s| - 1), Count(M, Both(c, c', y, y')));
      GoodCountByLastKey(s, s, c, c', y, y');
      forall k: nat ensures GoodFibres(s, s, c, c', y, y')(k) == each {
        EqualStrings(Init(s), c + Times(k, Last(s)), c' + Times(k, Last(s)), y, y');
        ShiftBoth(c, c', Times(k, Last(s)), y, y');
      }
      SumConst(M, GoodFibres(s, s, c, c', y, y'), each);
      TimesAssoc(M, Pow(M, |s| - 1), Count(M, Both(c, c', y, y')));
    }
  }

  lemma KeyPowStep(n: nat)
    ensures n == 0 ==> Pow(M, n) == 1
    ensures n > 0 ==> Pow(M, n) == Times(M, Pow(M, n - 1))
  {
    hide Pow2;
  }

  lemma OneTimes(x: nat)
    ensures Times(1, x) == x
  {
  }

  lemma TimesAssoc(a: nat, b: nat, c: nat)
    ensures Times(a, Times(b, c)) == Times(Times(a, b), c) && a * Times(b, c) == Times(a, Times(b, c))
  {
  }

  lemma WordsDiffer(a: nat, b: nat)
    requires IsWord(a) && IsWord(b) && a != b
    ensures a % H != b % H
  {
    hide Pow2;
    ModUnique(a, H, 0, a);
    ModUnique(b, H, 0, b);
  }

  lemma {:induction false} DifferentStrings(s: seq<nat>, s': seq<nat>, c: nat, c': nat, y: nat, y': nat)
    requires |s| == |s'| && s != s' && Words(s) && Words(s') && y < H && y' < H
    ensures GoodCount(s, s', c, c', y, y') == Pow(M, |s|)
    decreases |s|
  {
    hide Pow2, GoodCount, Times, Count, Both;
    var t, t' := Init(s), Init(s');
    assert s == t + [Last(s)] && s' == t' + [Last(s')];
    var each := Pow(M, |t|);
    var f := GoodFibres(s, s', c, c', y, y');
    GoodCountByLastKey(s, s', c, c', y, y');
    KeyPowStep(|s|);
    if t != t' {
      forall k: nat ensures f(k) == each {
        DifferentStrings(t, t', c + Times(k, Last(s)), c' + Times(k, Last(s')), y, y');
      }
      SumConst(M, f, each);
      TimesIs(M, each);
    } else {
      var g := Affine(c, Last(s), c', Last(s'), y, y');
      WordsDiffer(Last(s), Last(s'));
      AffineCount(c, Last(s), c', Last(s'), y, y');
      forall k: nat ensures f(k) == each * g(k) {
        EqualStrings(t, c + Times(k, Last(s)), c' + Times(k, Last(s')), y, y');
        TimesIs(each, g(k));
      }
      SumScaled(M, f, g, each);
      TimesIs(M, each);
    }
  }

  lemma TimesIs(a: nat, b: nat)
    ensures Times(a, b) == a * b == b * a
  {
  }

  /** The buffers of n + 1 keys that send s to y and s' to y'. */
  ghost function Sending(s: seq<nat>, s': seq<nat>, y: nat, y': nat): set<seq<nat>> {
    set b | b in Buffers(|s| + 1, M) && |b| == |s| + 1 == |s'| + 1 && StrongHash(b, s) == y && StrongHash(b, s') == y'
  }

  lemma SendingIsGood(s: seq<nat>, s': seq<nat>, y: nat, y': nat)
    ensures Sending(s, s', y, y') == Having(|s| + 1, M, Good(s, s', 0, 0, y, y'))
  {
    hide Pow2, Hi, Buffers, Dot;
  }

  /** Strong universality: of all buffers of n + 1 keys, exactly M to the n send s to y and s' to y'. */
  lemma StronglyUniversal(s: seq<nat>, s': seq<nat>, y: nat, y': nat)
    requires |s| == |s'| && s != s' && Words(s) && Words(s') && y < H && y' < H
    ensures |Sending(s, s', y, y')| == Pow(M, |s|)
  {
    hide Pow2, Pow, Sending, Having, Good;
    SendingIsGood(s, s', y, y');
    DifferentStrings(s, s', 0, 0, y, y');
  }

  // -------------------------------------------------------------------------------------------
  // Strings of different lengths.

  /** A string goes on with zeros. */
  function Char(s: seq<nat>, i: nat): nat {
    if i < |s| then s[i] else 0
  }

  function PadTo(s: seq<nat>, n: nat): (x: seq<nat>)
    requires |s| <= n
    ensures |x| == n && x[..|s|] == s
    ensures forall i: nat :: i < n ==> x[i] == Char(s, i)
  {
    s + seq(n - |s|, i => 0)
  }

  lemma {:induction false} ZerosAddNothing(b: seq<nat>, x: seq<nat>, n: nat)
    requires n <= |x| && |b| == |x| + 1 && forall i :: n <= i < |x| ==> x[i] == 0
    ensures Dot(b, x) == Dot(b[..n + 1], x[..n])
    decreases |x|
  {
    hide Pow2;
    if n == |x| {
      assert b[..n + 1] == b && x[..n] == x;
    } else {
      ZerosAddNothing(Init(b), Init(x), n);
      assert Init(b)[..n + 1] == b[..n + 1] && Init(x)[..n] == x[..n];
    }
  }

  lemma HashOfPadTo(b: seq<nat>, s: seq<nat>)
    requires |b| > |s|
    ensures StrongHash(b[..|s| + 1], s) == StrongHash(b, PadTo(s, |b| - 1))
  {
    hide Pow2, Dot, Hi;
    ZerosAddNothing(b, PadTo(s, |b| - 1), |s|);
  }

  /** The buffers of n keys that send s to y and s' to y', where each string uses as many as it needs. */
  ghost function SendingOf(n: nat, s: seq<nat>, s': seq<nat>, y: nat, y': nat): set<seq<nat>>
    requires n > |s| && n > |s'|
  {
    set b | b in Buffers(n, M) && |b| == n && StrongHash(b[..|s| + 1], s) == y && StrongHash(b[..|s'| + 1], s') == y'
  }

  lemma SendingPadded(n: nat, s: seq<nat>, s': seq<nat>, y: nat, y': nat)
    requires n > |s| && n > |s'|
    ensures SendingOf(n, s, s', y, y') == Sending(PadTo(s, n - 1), PadTo(s', n - 1), y, y')
  {
    hide Pow2, StrongHash, Buffers, PadTo;
    forall b: seq<nat> | |b| == n
      ensures StrongHash(b[..|s| + 1], s) == StrongHash(b, PadTo(s, n - 1))
      ensures StrongHash(b[..|s'| + 1], s') == StrongHash(b, PadTo(s', n - 1))
    {
      HashOfPadTo(b, s);
      HashOfPadTo(b, s');
    }
  }

  /** For strings of any lengths and any buffer that is long enough: every pair of outputs is equally
      frequent exactly if the strings differ by more than zeros at the end of the longer one. */
  lemma StronglyUniversalExactly(n: nat, s: seq<nat>, s': seq<nat>)
    requires n > |s| && n > |s'| && Words(s) && Words(s')
    ensures (forall y: nat, y': nat :: y < H && y' < H ==> |SendingOf(n, s, s', y, y')| == Pow(M, n - 1)) <==>
            exists i: nat :: Char(s, i) != Char(s', i)
  {
    hide Pow2, Pow, SendingOf, Sending, PadTo, Char;
    var x, x' := PadTo(s, n - 1), PadTo(s', n - 1);
    if i: nat :| Char(s, i) != Char(s', i) {
      PadToWords(s, n - 1);
      PadToWords(s', n - 1);
      CharInside(s, s', i);
      assert x[i] != x'[i];
      forall y: nat, y': nat | y < H && y' < H ensures |SendingOf(n, s, s', y, y')| == Pow(M, n - 1) {
        SendingPadded(n, s, s', y, y');
        StronglyUniversal(x, x', y, y');
      }
    } else {
      assert x == x';
      SendingPadded(n, s, s', 0, 1);
      NeverApart(x);
      MIsPositive();
      PowPositive(M, n - 1);
      HIsLarge();
    }
  }

  lemma CharInside(s: seq<nat>, s': seq<nat>, i: nat)
    requires Char(s, i) != Char(s', i)
    ensures i < |s| || i < |s'|
  {
  }

  lemma PadToWords(s: seq<nat>, n: nat)
    requires Words(s) && |s| <= n
    ensures Words(PadTo(s, n))
  {
    hide Pow2;
    HIsLarge();
  }

  lemma NeverApart(x: seq<nat>)
    ensures Sending(x, x, 0, 1) == {}
  {
    hide Pow2, StrongHash, Buffers;
  }

  lemma MIsPositive()
    ensures M > 0
  {
  }

  lemma HIsLarge()
    ensures H > 4
  {
    hide Pow2;
    PowGrows(3, 32);
    PowStep(0);
    PowStep(1);
    PowStep(2);
  }
}
