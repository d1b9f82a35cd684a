/** XAMA multiplies keyed characters in pairs. It is not linear in the keys, and strongly universal all the same. */
module Xama {
  import opened Bits
  import opened Counting
  import opened Residues
  import opened AffineKeys
  import opened Multilinear

  /** A product of two keyed characters. */
  function Pair(u: nat, a: nat, v: nat, b: nat): nat {
    Times(u + a, v + b)
  }

  function Init2(s: seq<nat>): seq<nat>
    requires |s| >= 2
  {
    s[..|s| - 2]
  }

  /** k0 + (k1 + s0)(k2 + s1) + (k3 + s2)(k4 + s3) + ... */
  function PairSum(b: seq<nat>, s: seq<nat>): nat
    requires |b| == |s| + 1
    decreases |s|
  {
    var n := |s|;
    if n < 2 then b[0] else PairSum(Init2(b), Init2(s)) + Pair(b[n - 1], s[n - 2], b[n], s[n - 1])
  }

  function XamaHash(b: seq<nat>, s: seq<nat>): nat
    requires |b| == |s| + 1
  {
    Hi(PairSum(b, s))
  }

  function PairTerm(b: seq<nat>, s: seq<nat>): nat -> nat
    requires |b| > |s|
  {
    (i: nat) => if 2 * i + 1 < |s| then (b[2 * i + 1] + s[2 * i]) * (b[2 * i + 2] + s[2 * i + 1]) else 0
  }

  lemma {:induction false} PairSumIs(b: seq<nat>, s: seq<nat>)
    requires |b| == |s| + 1 && |s| % 2 == 0
    ensures PairSum(b, s) == b[0] + Sum(|s| / 2, PairTerm(b, s))
    decreases |s|
  {
    if s != [] {
      var before := |s| / 2 - 1;
      PairSumIs(Init2(b), Init2(s));
      SumSame(before, PairTerm(Init2(b), Init2(s)), PairTerm(b, s));
      assert Sum(before + 1, PairTerm(b, s)) == Sum(before, PairTerm(b, s)) + PairTerm(b, s)(before);
    }
  }

  lemma XamaHashIs(b: seq<nat>, s: seq<nat>)
    requires |b| == |s| + 1 && |s| % 2 == 0
    ensures XamaHash(b, s) == (b[0] + Sum(|s| / 2, PairTerm(b, s))) % 0x1_0000_0000_0000_0000 / 0x1_0000_0000
  {
    hide Pow2, PairSum, PairTerm;
    PairSumIs(b, s);
    WordSizes();
  }

  // -------------------------------------------------------------------------------------------
  // The loop.

  lemma PairSumNext(b: seq<nat>, s: seq<nat>, i: nat)
    requires i + 1 < |s| < |b|
    ensures PairSum(b[..i + 2 + 1], s[..i + 2]) ==
            PairSum(b[..i + 1], s[..i]) + Pair(b[i + 1], s[i], b[i + 2], s[i + 1])
  {
    hide Pair;
    assert Init2(b[..i + 2 + 1]) == b[..i + 1] && Init2(s[..i + 2]) == s[..i];
  }

  /** Sums and products wrapped to 64 bits as they are formed. */
  lemma AddPair(sum: nat, total: nat, u: nat, a: nat, v: nat, b: nat)
    requires sum == total % M
    ensures Add(sum, Product(Add(u, a), Add(v, b))) == (total + Pair(u, a, v, b)) % M
  {
    hide Pow2, Times;
    ProductOfResidues(u + a, v + b);
    AddProduct(sum, total, Add(u, a), Add(v, b));
    ModOfSum(Times(Add(u, a), Add(v, b)), total, M);
    ModOfSum(Times(u + a, v + b), total, M);
  }

  lemma NextPair(b: seq<nat>, s: seq<nat>, i: nat, sum: nat)
    requires i + 1 < |s| < |b| && sum == PairSum(b[..i + 1], s[..i]) % M
    ensures Add(sum, Product(Add(b[i + 1], s[i]), Add(b[i + 2], s[i + 1]))) == PairSum(b[..i + 2 + 1], s[..i + 2]) % M
  {
    hide Pow2, PairSum, Add, Product, Pair;
    PairSumNext(b, s, i);
    AddPair(sum, PairSum(b[..i + 1], s[..i]), b[i + 1], s[i], b[i + 2], s[i + 1]);
  }

  lemma ProductOfResidues(x: nat, y: nat)
    ensures Times(x % M, y % M) % M == Times(x, y) % M
  {
    hide Pow2;
    DivMod(x, M);
    DivMod(y, M);
    Expand(x % M, x / M, y % M, y / M, M);
    ModPlusMultiple(Times(x % M, y % M), M, Times(x % M, y / M) + Times(x / M, y));
  }

  lemma Expand(r: nat, q: nat, t: nat, p: nat, m: nat)
    ensures Times(q * m + r, p * m + t) == Times(r, t) + (Times(r, p) + Times(q, p * m + t)) * m
  {
  }

  method Hash(firstfew: seq<nat>, s: seq<nat>) returns (h: nat)
    requires |firstfew| > |s| && |s| % 2 == 0 && forall i :: 0 <= i < |firstfew| ==> firstfew[i] < M
    ensures h == XamaHash(firstfew[..|s| + 1], s)
  {
    hide Pow2, Times, PairSum, Add, Product, Hi, Pair;
    FirstPairKey(firstfew, s);
    var sum := firstfew[0];
    var i := 0;
    ghost var pairs, j := |s| / 2, 0;
    while i < |s|
      invariant i == 2 * j <= 2 * pairs == |s|
      invariant sum == PairSum(firstfew[..i + 1], s[..i]) % M
    {
      NextPair(firstfew, s, i, sum);
      sum := Add(sum, Product(Add(firstfew[i + 1], s[i]), Add(firstfew[i + 2], s[i + 1])));
      i, j := i + 2, j + 1;
    }
    assert s[..|s|] == s;
    HiMod(PairSum(firstfew[..|s| + 1], s), 0);
    return Hi(sum);
  }

  lemma FirstPairKey(b: seq<nat>, s: seq<nat>)
    requires |b| > |s| && b[0] < M
    ensures b[0] == PairSum(b[..1], s[..0]) % M
  {
    hide Pow2;
    ModUnique(b[0], M, 0, b[0]);
  }

  // -------------------------------------------------------------------------------------------
  // Strong universality.

  function Good(s: seq<nat>, s': seq<nat>, c: nat, c': nat, y: nat, y': nat): seq<nat> -> bool {
    (b: seq<nat>) => |b| == |s| + 1 == |s'| + 1 && |s| % 2 == 0 && Hi(PairSum(b, s) + c) == y
      && Hi(PairSum(b, s') + c') == y'
  }

  ghost function GoodCount(s: seq<nat>, s': seq<nat>, c: nat, c': nat, y: nat, y': nat): nat {
    |Having(|s| + 1, M, Good(s, s', c, c', y, y'))|
  }

  /** What is left after the last two keys are fixed to u and v. */
  ghost function Rest(s: seq<nat>, s': seq<nat>, c: nat, c': nat, y: nat, y': nat, v: nat, u: nat): nat
    requires |s| == |s'| >= 2
  {
    var n := |s|;
    GoodCount(Init2(s), Init2(s'), c + Pair(u, s[n - 2], v, s[n - 1]), c' + Pair(u, s'[n - 2], v, s'[n - 1]), y, y')
  }

  ghost function Rests(s: seq<nat>, s': seq<nat>, c: nat, c': nat, y: nat, y': nat, v: nat): nat -> nat
    requires |s| == |s'| >= 2
  {
    (u: nat) => Rest(s, s', c, c', y, y', v, u)
  }

  ghost function RestSums(s: seq<nat>, s': seq<nat>, c: nat, c': nat, y: nat, y': nat): nat -> nat
    requires |s| == |s'| >= 2
  {
    (v: nat) => Sum(M, Rests(s, s', c, c', y, y', v))
  }

  lemma PairSumLast(b: seq<nat>, u: nat, v: nat, s: seq<nat>)
    requires |b| + 1 == |s| >= 2 && |s| % 2 == 0
    ensures PairSum(b + [u] + [v], s) == PairSum(b, Init2(s)) + Pair(u, s[|s| - 2], v, s[|s| - 1])
  {
    hide Pair;
    assert Init2(b + [u] + [v]) == b;
  }

  lemma GoodRestAt(s: seq<nat>, s': seq<nat>, c: nat, c': nat, y: nat, y': nat, v: nat, u: nat, b: seq<nat>)
    requires |s| == |s'| >= 2 && |s| % 2 == 0 && |b| + 1 == |s|
    ensures var n := |s|;
            With(With(Good(s, s', c, c', y, y'), v), u)(b) ==
            Good(Init2(s), Init2(s'), c + Pair(u, s[n - 2], v, s[n - 1]), c' + Pair(u, s'[n - 2], v, s'[n - 1]), y,
              y')(b)
  {
    hide Pow2, Hi, Pair, PairSum;
    PairSumLast(b, u, v, s);
    PairSumLast(b, u, v, s');
  }

  lemma GoodRest(s: seq<nat>, s': seq<nat>, c: nat, c': nat, y: nat, y': nat, v: nat, u: nat)
    requires |s| == |s'| >= 2 && |s| % 2 == 0
    ensures |Having(|s| - 1, M, With(With(Good(s, s', c, c', y, y'), v), u))| == Rest(s, s', c, c', y, y', v, u)
  {
    hide Pow2, Pair, Good, With, Having;
    var n := |s|;
    var p := With(With(Good(s, s', c, c', y, y'), v), u);
    var q := Good(Init2(s), Init2(s'), c + Pair(u, s[n - 2], v, s[n - 1]), c' + Pair(u, s'[n - 2], v, s'[n - 1]), y,
      y');
    forall b: seq<nat> | |b| == n - 1 ensures p(b) == q(b) { GoodRestAt(s, s', c, c', y, y', v, u, b); }
    HavingSame(n - 1, p, q);
  }

  lemma OneKeyFixed(s: seq<nat>, s': seq<nat>, c: nat, c': nat, y: nat, y': nat, v: nat)
    requires |s| == |s'| >= 2 && |s| % 2 == 0
    ensures |Having(|s|, M, With(Good(s, s', c, c', y, y'), v))| == RestSums(s, s', c, c', y, y')(v)
  {
    hide Pow2, Good, With, Having, Sum, Rest;
    var p := With(Good(s, s', c, c', y, y'), v);
    CountByLastKey(|s| - 1, M, p);
    forall u: nat ensures Fibres(|s| - 1, M, p)(u) == Rests(s, s', c, c', y, y', v)(u) {
      GoodRest(s, s', c, c', y, y', v, u);
    }
    SumSame(M, Fibres(|s| - 1, M, p), Rests(s, s', c, c', y, y', v));
  }

  lemma GoodCountByTwoKeys(s: seq<nat>, s': seq<nat>, c: nat, c': nat, y: nat, y': nat)
    requires |s| == |s'| >= 2 && |s| % 2 == 0
    ensures GoodCount(s, s', c, c', y, y') == Sum(M, RestSums(s, s', c, c', y, y'))
  {
    hide Pow2, Good, With, Having, Sum, RestSums;
    var p := Good(s, s', c, c', y, y');
    CountByLastKey(|s|, M, p);
    forall v: nat ensures Fibres(|s|, M, p)(v) == RestSums(s, s', c, c', y, y')(v) {
      OneKeyFixed(s, s', c, c', y, y', v);
    }
    SumSame(M, Fibres(|s|, M, p), RestSums(s, s', c, c', y, y'));
  }

  lemma OneKey(c: nat, c': nat, y: nat, y': nat, k: nat)
    ensures Good([], [], c, c', y, y')([k]) == Both(c, c', y, y')(k)
  {
    hide Pow2, Hi;
    assert PairSum([k], []) == k;
  }

  lemma EmptyStrings(c: nat, c': nat, y: nat, y': nat)
    ensures GoodCount([], [], c, c', y, y') == Count(M, Both(c, c', y, y'))
  {
    hide Pow2, Good, Both, Having, Count;
    var g := Good([], [], c, c', y, y');
    CountSingles(M, g);
    forall k: nat ensures g([k]) == Both(c, c', y, y')(k) { OneKey(c, c', y, y', k); }
    CountSame(M, (k: nat) => g([k]), Both(c, c', y, y'));
  }

  /** Summing a constant over two keys. */
  lemma SumTwice(s: seq<nat>, s': seq<nat>, c: nat, c': nat, y: nat, y': nat, each: nat)
    requires |s| == |s'| >= 2 && |s| % 2 == 0
    requires forall v: nat, u: nat :: Rest(s, s', c, c', y, y', v, u) == each
    ensures GoodCount(s, s', c, c', y, y') == Times(M, Times(M, each))
  {
    hide Pow2, GoodCount, Rest, Sum;
    GoodCountByTwoKeys(s, s', c, c', y, y');
    forall v: nat ensures RestSums(s, s', c, c', y, y')(v) == Times(M, each) {
      SumConst(M, Rests(s, s', c, c', y, y', v), each);
    }
    SumConst(M, RestSums(s, s', c, c', y, y'), Times(M, each));
  }

  lemma PowTwoSteps(n: nat)
    requires n >= 2
    ensures Pow(M, n) == Times(M, Times(M, Pow(M, n - 2)))
  {
    hide Pow2, Pow, Times;
    KeyPowStep(n);
    KeyPowStep(n - 1);
  }

  lemma {:induction false} EqualStrings(s: seq<nat>, c: nat, c': nat, y: nat, y': nat)
    requires |s| % 2 == 0
    ensures GoodCount(s, s, c, c', y, y') == Times(Pow(M, |s|), Count(M, Both(c, c', y, y')))
    decreases |s|
  {
    hide Pow2, GoodCount, Times, Count, Both, Pair, Pow;
    var once := Count(M, Both(c, c', y, y'));
    if s == [] {
      EmptyStrings(c, c', y, y');
      KeyPowStep(0);
      OneTimes(once);
    } else {
      var n := |s|;
      var each := Times(Pow(M, n - 2), once);
      forall v: nat, u: nat ensures Rest(s, s, c, c', y, y', v, u) == each {
        var w := Pair(u, s[n - 2], v, s[n - 1]);
        EqualStrings(Init2(s), c + w, c' + w, y, y');
        ShiftBoth(c, c', w, y, y');
      }
      SumTwice(s, s, c, c', y, y', each);
      PowTwoSteps(n);
      TimesAssoc(M, Pow(M, n - 2), once);
      TimesAssoc(M, Times(M, Pow(M, n - 2)), once);
    }
  }

  lemma ShiftedWordsDiffer(a: nat, b: nat, v: nat)
    requires IsWord(a) && IsWord(b) && a != b
    ensures (v + a) % H != (v + b) % H
  {
    hide Pow2;
    var h := H;
    DivMod(v + a, h);
    DivMod(v + b, h);
    Multiples((v + a) / h - (v + b) / h, h);
    assert ((v + a) / h - (v + b) / h) * h == ((v + a) / h) * h - ((v + b) / h) * h;
  }

  lemma PairSplit(c: nat, u: nat, a: nat, v: nat, b: nat)
    ensures c + Pair(u, a, v, b) == (c + Times(a, v + b)) + Times(u, v + b)
    ensures c + Times(a, v + b) == (c + Times(a, b)) + Times(v, a)
  {
  }

  /** The last characters differ: for each last key, the sum over the one before it is M. */
  lemma LastDiffers(s: seq<nat>, s': seq<nat>, c: nat, c': nat, y: nat, y': nat, v: nat)
    requires |s| == |s'| >= 2 && |s| % 2 == 0 && Init2(s) == Init2(s') && y < H && y' < H
    requires var n := |s|; IsWord(s[n - 1]) && IsWord(s'[n - 1]) && s[n - 1] != s'[n - 1]
    ensures RestSums(s, s', c, c', y, y')(v) == Times(Pow(M, |s| - 2), M)
  {
    hide Pow2, Hi, GoodCount, Times, Count, Both, Pair, Pow, Sum;
    var n := |s|;
    var a, b, a', b' := s[n - 2], s[n - 1], s'[n - 2], s'[n - 1];
    var g := Affine(c + Times(a, v + b), v + b, c' + Times(a', v + b'), v + b', y, y');
    ShiftedWordsDiffer(b, b', v);
    AffineCount(c + Times(a, v + b), v + b, c' + Times(a', v + b'), v + b', y, y');
    forall u: nat ensures Rests(s, s', c, c', y, y', v)(u) == Pow(M, n - 2) * g(u) {
      PairSplit(c, u, a, v, b);
      PairSplit(c', u, a', v, b');
      EqualStrings(Init2(s), c + Pair(u, a, v, b), c' + Pair(u, a', v, b'), y, y');
      TimesIs(Pow(M, n - 2), g(u));
    }
    SumScaled(M, Rests(s, s', c, c', y, y', v), g, Pow(M, n - 2));
    TimesIs(Pow(M, n - 2), M);
  }

  /** Only the characters before the last differ: the sum over the one key before the last is a
      constant, and the last key spreads it. */
  lemma FirstDiffers(s: seq<nat>, s': seq<nat>, c: nat, c': nat, y: nat, y': nat, v: nat)
    requires |s| == |s'| >= 2 && |s| % 2 == 0 && Init2(s) == Init2(s') && s[|s| - 1] == s'[|s| - 1]
    ensures var n := |s|; var b := s[n - 1];
            RestSums(s, s', c, c', y, y')(v) ==
            Times(Pow(M, n - 2), M) * Affine(c + Times(s[n - 2], b), s[n - 2], c' + Times(s'[n - 2], b), s'[n - 2], y,
              y')(v)
  {
    hide Pow2, Hi, GoodCount, Times, Count, Both, Pair, Pow, Sum;
    var n := |s|;
    var a, a', b := s[n - 2], s'[n - 2], s[n - 1];
    var once := Count(M, Both(c + Times(a, v + b), c' + Times(a', v + b), y, y'));
    var each := Times(Pow(M, n - 2), once);
    forall u: nat ensures Rests(s, s', c, c', y, y', v)(u) == each {
      PairSplit(c, u, a, v, b);
      PairSplit(c', u, a', v, b);
      EqualStrings(Init2(s), c + Pair(u, a, v, b), c' + Pair(u, a', v, b), y, y');
      ShiftBoth(c + Times(a, v + b), c' + Times(a', v + b), Times(u, v + b), y, y');
    }
    PairSplit(c, 0, a, v, b);
    PairSplit(c', 0, a', v, b);
    SumConst(M, Rests(s, s', c, c', y, y', v), each);
    Reorder(M, Pow(M, n - 2), once);
  }

  lemma Reorder(m: nat, p: nat, x: nat)
    ensures m * Times(p, x) == Times(p, m) * x
  {
  }

  lemma ThreeFactors(m: nat, p: nat)
    ensures m * Times(p, m) == Times(m, Times(m, p)) && Times(p, m) * m == Times(m, Times(m, p))
  {
  }

  lemma SameTails(s: seq<nat>, s': seq<nat>, c: nat, c': nat, y: nat, y': nat)
    requires |s| == |s'| >= 2 && |s| % 2 == 0 && Init2(s) == Init2(s') && s != s' && Words(s) && Words(s') && y < H
             && y' < H
    ensures GoodCount(s, s', c, c', y, y') == Pow(M, |s|)
  {
    hide Pow2, Hi, GoodCount, Times, Sum, RestSums, Pow, Affine;
    var n := |s|;
    var f := RestSums(s, s', c, c', y, y');
    GoodCountByTwoKeys(s, s', c, c', y, y');
    PowTwoSteps(n);
    ThreeFactors(M, Pow(M, n - 2));
    if s[n - 1] != s'[n - 1] {
      forall v: nat ensures f(v) == Times(Pow(M, n - 2), M) { LastDiffers(s, s', c, c', y, y', v); }
      SumConst(M, f, Times(Pow(M, n - 2), M));
    } else {
      TailsDecide(s, s');
      var a, a', b := s[n - 2], s'[n - 2], s[n - 1];
      WordsDiffer(a, a');
      AffineCount(c + Times(a, b), a, c' + Times(a', b), a', y, y');
      var g := Affine(c + Times(a, b), a, c' + Times(a', b), a', y, y');
      forall v: nat ensures f(v) == Times(Pow(M, n - 2), M) * g(v) { FirstDiffers(s, s', c, c', y, y', v); }
      SumScaled(M, f, g, Times(Pow(M, n - 2), M));
    }
  }

  lemma TailsDecide(s: seq<nat>, s': seq<nat>)
    requires |s| == |s'| >= 2 && Init2(s) == Init2(s')
    ensures s[|s| - 2] == s'[|s| - 2] && s[|s| - 1] == s'[|s| - 1] ==> s == s'
  {
    var n := |s|;
    assert s == Init2(s) + [s[n - 2], s[n - 1]] && s' == Init2(s') + [s'[n - 2], s'[n - 1]];
  }

  lemma {:induction false} DifferentStrings(s: seq<nat>, s': seq<nat>, c: nat, c': nat, y: nat, y': nat)
    requires |s| == |s'| && |s| % 2 == 0 && s != s' && Words(s) && Words(s') && y < H && y' < H
    ensures GoodCount(s, s', c, c', y, y') == Pow(M, |s|)
    decreases |s|
  {
    hide Pow2, Hi, GoodCount, Times, Pow;
    var n := |s|;
    if Init2(s) == Init2(s') {
      SameTails(s, s', c, c', y, y');
    } else {
      forall v: nat, u: nat ensures Rest(s, s', c, c', y, y', v, u) == Pow(M, n - 2) {
        DifferentStrings(Init2(s), Init2(s'), c + Pair(u, s[n - 2], v, s[n - 1]), c' + Pair(u, s'[n - 2], v, s'[n - 1]),
          y, y');
      }
      SumTwice(s, s', c, c', y, y', Pow(M, n - 2));
      PowTwoSteps(n);
    }
  }

  ghost function Sending(s: seq<nat>, s': seq<nat>, y: nat, y': nat): set<seq<nat>> {
    set b | b in Buffers(|s| + 1, M) && |b| == |s| + 1 == |s'| + 1 && |s| % 2 == 0 && XamaHash(b, s) == y
      && XamaHash(b, s') == y'
  }

  lemma SendingIsGood(s: seq<nat>, s': seq<nat>, y: nat, y': nat)
    ensures Sending(s, s', y, y') == Having(|s| + 1, M, Good(s, s', 0, 0, y, y'))
  {
    hide Pow2, Hi, Buffers, PairSum;
  }

  /** Strong universality of XAMA on strings of even length. */
  lemma StronglyUniversal(s: seq<nat>, s': seq<nat>, y: nat, y': nat)
    requires |s| == |s'| && |s| % 2 == 0 && s != s' && Words(s) && Words(s') && y < H && y' < H
    ensures |Sending(s, s', y, y')| == Pow(M, |s|)
  {
    hide Pow2, Pow, Sending, Having, Good;
    SendingIsGood(s, s', y, y');
    DifferentStrings(s, s', 0, 0, y, y');
  }
}
