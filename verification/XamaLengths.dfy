/** XAMA on strings of different even lengths: strongly universal exactly where neither string is the
    beginning of the other. */
module XamaLengths {
  import opened Bits
  import opened Counting
  import opened Residues
  import opened AffineKeys
  import opened Multilinear
  import opened Xama

  /** The hash with as many of the keys as the string needs. */
  function HashOf(b: seq<nat>, s: seq<nat>): nat
    requires |b| > |s|
  {
    XamaHash(b[..|s| + 1], s)
  }

  function GoodOf(n: nat, s: seq<nat>, s': seq<nat>, c: nat, c': nat, y: nat, y': nat): seq<nat> -> bool {
    (b: seq<nat>) => |b| == n && n > |s| && n > |s'| && Hi(PairSum(b[..|s| + 1], s) + c) == y
      && Hi(PairSum(b[..|s'| + 1], s') + c') == y'
  }

  ghost function CountOf(n: nat, s: seq<nat>, s': seq<nat>, c: nat, c': nat, y: nat, y': nat): nat {
    |Having(n, M, GoodOf(n, s, s', c, c', y, y'))|
  }

  /** Somewhere both strings have a character, and not the same one. */
  predicate Differ(s: seq<nat>, s': seq<nat>) {
    exists i :: 0 <= i < |s| && i < |s'| && s[i] != s'[i]
  }

  // -------------------------------------------------------------------------------------------
  // Strings that differ in a common place: the keys beyond the shorter string only shift the sums.

  lemma Swapped(n: nat, s: seq<nat>, s': seq<nat>, c: nat, c': nat, y: nat, y': nat)
    ensures CountOf(n, s, s', c, c', y, y') == CountOf(n, s', s, c', c, y', y)
  {
    hide Pow2, Hi, PairSum, Having;
    HavingSame(n, GoodOf(n, s, s', c, c', y, y'), GoodOf(n, s', s, c', c, y', y));
  }

  lemma UnusedKey(n: nat, s: seq<nat>, s': seq<nat>, c: nat, c': nat, y: nat, y': nat, k: nat)
    requires n > |s| && n > |s'|
    ensures Fibres(n, M, GoodOf(n + 1, s, s', c, c', y, y'))(k) == CountOf(n, s, s', c, c', y, y')
  {
    hide Pow2, Hi, PairSum, Having;
    var p, q := With(GoodOf(n + 1, s, s', c, c', y, y'), k), GoodOf(n, s, s', c, c', y, y');
    forall b: seq<nat> | |b| == n ensures p(b) == q(b) {
      assert (b + [k])[..|s| + 1] == b[..|s| + 1] && (b + [k])[..|s'| + 1] == b[..|s'| + 1];
    }
    HavingSame(n, p, q);
  }

  lemma TwoKeysAt(s: seq<nat>, s': seq<nat>, c: nat, c': nat, y: nat, y': nat, v: nat, u: nat, b: seq<nat>)
    requires |s| >= |s'| + 2 && |s| % 2 == 0 && |b| + 1 == |s|
    ensures var n := |s|;
            With(With(GoodOf(n + 1, s, s', c, c', y, y'), v), u)(b) ==
            GoodOf(n - 1, Init2(s), s', c + Pair(u, s[n - 2], v, s[n - 1]), c', y, y')(b)
  {
    hide Pow2, Hi, PairSum, Pair;
    PairSumLast(b, u, v, s);
    var all := b + [u] + [v];
    assert all[..|s| + 1] == all && all[..|s'| + 1] == b[..|s'| + 1] && b[..|Init2(s)| + 1] == b;
  }

  ghost function Inner(s: seq<nat>, s': seq<nat>, c: nat, c': nat, y: nat, y': nat, v: nat): nat -> nat
    requires |s| >= 2
  {
    (u: nat) => CountOf(|s| - 1, Init2(s), s', c + Pair(u, s[|s| - 2], v, s[|s| - 1]), c', y, y')
  }

  lemma OneOfTwoKeys(s: seq<nat>, s': seq<nat>, c: nat, c': nat, y: nat, y': nat, v: nat)
    requires |s| >= |s'| + 2 && |s| % 2 == 0
    ensures Fibres(|s|, M, GoodOf(|s| + 1, s, s', c, c', y, y'))(v) == Sum(M, Inner(s, s', c, c', y, y', v))
  {
    hide Pow2, GoodOf, With, Having, Sum, Pair;
    var n := |s|;
    var p := With(GoodOf(n + 1, s, s', c, c', y, y'), v);
    CountByLastKey(n - 1, M, p);
    forall u: nat ensures Fibres(n - 1, M, p)(u) == Inner(s, s', c, c', y, y', v)(u) {
      var w := c + Pair(u, s[n - 2], v, s[n - 1]);
      forall b: seq<nat> | |b| == n - 1 ensures With(p, u)(b) == GoodOf(n - 1, Init2(s), s', w, c', y, y')(b) {
        TwoKeysAt(s, s', c, c', y, y', v, u, b);
      }
      HavingSame(n - 1, With(p, u), GoodOf(n - 1, Init2(s), s', w, c', y, y'));
    }
    SumSame(M, Fibres(n - 1, M, p), Inner(s, s', c, c', y, y', v));
  }

  /** The last two keys are only the longer string's. */
  lemma TwoKeys(s: seq<nat>, s': seq<nat>, c: nat, c': nat, y: nat, y': nat, short: seq<nat>, m: nat, each: nat)
    requires |s| >= |s'| + 2 && |s| % 2 == 0 && short == Init2(s) && m + 1 == |s|
    requires forall w: nat :: CountOf(m, short, s', w, c', y, y') == each
    ensures CountOf(|s| + 1, s, s', c, c', y, y') == Times(M, Times(M, each))
  {
    hide Pow2, CountOf, Sum, Fibres, Pair;
    var n := |s|;
    var p := GoodOf(n + 1, s, s', c, c', y, y');
    CountIs(n + 1, s, s', c, c', y, y');
    CountByLastKey(n, M, p);
    forall v: nat ensures Fibres(n, M, p)(v) == Times(M, each) {
      OneOfTwoKeys(s, s', c, c', y, y', v);
      forall u: nat ensures Inner(s, s', c, c', y, y', v)(u) == each {
        assert CountOf(m, short, s', c + Pair(u, s[n - 2], v, s[n - 1]), c', y, y') == each;
      }
      SumConst(M, Inner(s, s', c, c', y, y', v), each);
    }
    SumConst(M, Fibres(n, M, p), Times(M, each));
  }

  lemma CountIs(n: nat, s: seq<nat>, s': seq<nat>, c: nat, c': nat, y: nat, y': nat)
    ensures CountOf(n, s, s', c, c', y, y') == |Having(n, M, GoodOf(n, s, s', c, c', y, y'))|
  {
  }

  lemma SameLengths(s: seq<nat>, s': seq<nat>, c: nat, c': nat, y: nat, y': nat)
    requires |s| == |s'| && |s| % 2 == 0 && s != s' && Words(s) && Words(s') && y < H && y' < H
    ensures CountOf(|s| + 1, s, s', c, c', y, y') == Pow(M, |s|)
  {
    hide Pow2, Hi, PairSum, Having, Pow, Words;
    Xama.DifferentStrings(s, s', c, c', y, y');
    forall b: seq<nat> | |b| == |s| + 1
      ensures GoodOf(|s| + 1, s, s', c, c', y, y')(b) == Xama.Good(s, s', c, c', y, y')(b)
    {
      assert b[..|s| + 1] == b;
    }
    HavingSame(|s| + 1, GoodOf(|s| + 1, s, s', c, c', y, y'), Xama.Good(s, s', c, c', y, y'));
  }

  lemma InitDiffers(s: seq<nat>, s': seq<nat>)
    requires |s| >= |s'| + 2 && Differ(s, s') && Words(s)
    ensures Differ(Init2(s), s') && Words(Init2(s))
  {
    hide Pow2;
    var i :| 0 <= i < |s| && i < |s'| && s[i] != s'[i];
    assert Init2(s)[i] == s[i];
  }

  lemma EvenGap(s: seq<nat>, s': seq<nat>)
    requires |s| % 2 == 0 && |s'| % 2 == 0 && |s| > |s'|
    ensures |s| >= |s'| + 2
  {
  }

  lemma FreeKey(n: nat, s: seq<nat>, s': seq<nat>, c: nat, c': nat, y: nat, y': nat)
    requires n > |s| && n > |s'| && CountOf(n, s, s', c, c', y, y') == Pow(M, n - 1)
    ensures CountOf(n + 1, s, s', c, c', y, y') == Pow(M, n)
  {
    hide Pow2, Pow, CountOf, Times, Sum, Fibres, GoodOf;
    var f, each := Fibres(n, M, GoodOf(n + 1, s, s', c, c', y, y')), Pow(M, n - 1);
    CountIs(n + 1, s, s', c, c', y, y');
    CountByLastKey(n, M, GoodOf(n + 1, s, s', c, c', y, y'));
    forall k: nat ensures f(k) == each { UnusedKey(n, s, s', c, c', y, y', k); }
    SumConst(M, f, each);
    KeyPowStep(n);
    TimesIs(M, each);
  }

  /** Every pair of outputs is equally frequent, whatever the offsets. */
  lemma {:induction false} DifferentPlaces(n: nat, s: seq<nat>, s': seq<nat>, c: nat, c': nat, y: nat, y': nat)
    requires n > |s| && n > |s'| && |s| % 2 == 0 && |s'| % 2 == 0 && Differ(s, s') && Words(s) && Words(s')
    requires y < H && y' < H
    ensures CountOf(n, s, s', c, c', y, y') == Pow(M, n - 1)
    decreases n, |s'|
  {
    hide Pow2, Pow, CountOf, Words, Differ, Times;
    if n - 1 > |s| && n - 1 > |s'| {
      DifferentPlaces(n - 1, s, s', c, c', y, y');
      FreeKey(n - 1, s, s', c, c', y, y');
    } else if |s| == |s'| {
      NotEqual(s, s');
      SameLengths(s, s', c, c', y, y');
    } else if |s| < |s'| {
      Swapped(n, s, s', c, c', y, y');
      DifferSwapped(s, s');
      DifferentPlaces(n, s', s, c', c, y', y);
    } else {
      EvenGap(s, s');
      InitDiffers(s, s');
      var short, m := Init2(s), |s| - 1;
      forall w: nat ensures CountOf(m, short, s', w, c', y, y') == Pow(M, n - 3) {
        DifferentPlaces(m, short, s', w, c', y, y');
      }
      TwoKeys(s, s', c, c', y, y', short, m, Pow(M, n - 3));
      PowTwoSteps(n - 1);
    }
  }

  lemma NotEqual(s: seq<nat>, s': seq<nat>)
    requires Differ(s, s')
    ensures s != s'
  {
  }

  lemma DifferSwapped(s: seq<nat>, s': seq<nat>)
    requires Differ(s, s')
    ensures Differ(s', s)
  {
    var i :| 0 <= i < |s| && i < |s'| && s[i] != s'[i];
    assert 0 <= i < |s'| && i < |s| && s'[i] != s[i];
  }

  // -------------------------------------------------------------------------------------------
  // One string the beginning of the other: adding half of M to a product flips the longer one's top bit.

  /** The multiples of x contain half of 2 to the m, unless x is 0 there. */
  function HalfBy(m: nat, x: nat): (d: nat)
    requires x % Pow2(m) != 0
    ensures m > 0
    decreases m
  {
    assert Pow2(0) == 1;
    if x % 2 == 1 then Pow2(m - 1)
    else
      HalvesNotZero(m, x);
      HalfBy(m - 1, x / 2)
  }

  lemma HalvesNotZero(m: nat, x: nat)
    requires x % Pow2(m) != 0 && x % 2 == 0
    ensures m > 0 && (x / 2) % Pow2(m - 1) != 0
  {
    hide Pow2;
    PowStep(0);
    if m == 0 {
      ModOne(x);
    } else {
      PowStep(m - 1);
      HalfOfResidue(x, Pow2(m - 1));
    }
  }

  lemma ModOne(x: nat)
    ensures x % 1 == 0
  {
  }

  lemma HalfOfResidue(x: nat, p: nat)
    requires p > 0 && x % 2 == 0 && x % (2 * p) != 0
    ensures (x / 2) % p != 0
  {
    if (x / 2) % p == 0 {
      DivMod(x / 2, p);
      assert x == (x / 2 / p) * (2 * p);
      ModUnique(x, 2 * p, x / 2 / p, 0);
    }
  }

  lemma {:induction false} HalfByHits(m: nat, x: nat)
    requires x % Pow2(m) != 0
    ensures m > 0 && Times(x, HalfBy(m, x)) % Pow2(m) == Pow2(m - 1)
    decreases m
  {
    hide Pow2, Times;
    HalfByIs(m, x);
    PowStep(m - 1);
    if x % 2 == 1 {
      OddHalf(x, Pow2(m - 1));
    } else {
      HalvesNotZero(m, x);
      HalfByHits(m - 1, x / 2);
      PowStep(m - 2);
      DoubledHalf(x, HalfBy(m - 1, x / 2), Pow2(m - 2));
    }
  }

  lemma HalfByIs(m: nat, x: nat)
    requires x % Pow2(m) != 0
    ensures m > 0
    ensures x % 2 == 1 ==> HalfBy(m, x) == Pow2(m - 1)
    ensures x % 2 == 0 ==> (x / 2) % Pow2(m - 1) != 0 && HalfBy(m, x) == HalfBy(m - 1, x / 2)
  {
    hide Pow2;
    PowStep(0);
    if m == 0 { ModOne(x); }
    if x % 2 == 0 { HalvesNotZero(m, x); }
  }

  lemma OddHalf(x: nat, p: nat)
    requires x % 2 == 1 && p > 0
    ensures Times(x, p) % (2 * p) == p
  {
    assert x * p == (x / 2) * (2 * p) + p;
    ModUnique(x * p, 2 * p, x / 2, p);
  }

  lemma DoubledHalf(x: nat, d: nat, p: nat)
    requires x % 2 == 0 && p > 0 && Times(x / 2, d) % (2 * p) == p
    ensures Times(x, d) % (2 * (2 * p)) == 2 * p
  {
    var z := Times(x / 2, d);
    DivMod(z, 2 * p);
    assert x * d == 2 * z by { assert x == 2 * (x / 2); }
    assert 2 * z == (z / (2 * p)) * (2 * (2 * p)) + 2 * p;
    ModUnique(x * d, 2 * (2 * p), z / (2 * p), 2 * p);
  }

  /** Half of M in a sum is half of H in its high word. */
  lemma HalfFlips(x: nat, x': nat, half: nat)
    requires M == 2 * half && x' % M == (x + half) % M && Hi(x) == Pow2(31)
    ensures Hi(x') == 0
  {
    hide Pow2, Times;
    PowStep(31);
    Sizes();
    ModOfSum(x, half, M);
    HalfOfSquare(H, Pow2(31), half);
    DivMod(x, M);
    FlipHigh(x % M, x' % M, H, Pow2(31));
  }

  lemma HalfOfSquare(h: nat, k: nat, half: nat)
    requires h == 2 * k && Times(h, h) == 2 * half
    ensures half == k * h
  {
    assert h * h == 2 * (k * h);
  }

  lemma FlipHigh(r: nat, r': nat, h: nat, k: nat)
    requires h == 2 * k && k > 0 && r < Times(h, h) && r' == (r + k * h) % Times(h, h) && r / h == k
    ensures r' / h == 0
  {
    DivMod(r, h);
    assert k * h + k * h == Times(h, h);
    SmallerThanSquare(r % h, h);
    ModUnique(r + k * h, Times(h, h), 1, r % h);
    ModUnique(r', h, 0, r % h);
  }

  lemma SmallerThanSquare(x: nat, h: nat)
    requires x < h
    ensures x < Times(h, h)
  {
    assert h * h >= h;
  }

  /** The first factor of each pair from place i on is 0. */
  predicate AllZero(b: seq<nat>, s: seq<nat>, i: nat)
    requires |b| > |s|
  {
    forall j: nat :: i <= j && j + 1 < |s| && j % 2 == 0 ==> ZeroAt(b, s, j)
  }

  predicate ZeroAt(b: seq<nat>, s: seq<nat>, j: nat)
    requires |b| > |s| > j
  {
    (b[j + 1] + s[j]) % M == 0
  }

  /** The first pair from place i on whose first factor is not 0. */
  function FirstPair(b: seq<nat>, s: seq<nat>, i: nat): (r: nat)
    requires |b| > |s| && |s| % 2 == 0 && i % 2 == 0 && i <= |s|
    ensures i <= r <= |s| && r % 2 == 0 && (r < |s| ==> r + 1 < |s| && !ZeroAt(b, s, r))
    decreases |s| - i
  {
    if i == |s| || !ZeroAt(b, s, i) then i else FirstPair(b, s, i + 2)
  }

  lemma {:induction false} NoPair(b: seq<nat>, s: seq<nat>, i: nat)
    requires |b| > |s| && |s| % 2 == 0 && i % 2 == 0 && i <= |s|
    ensures FirstPair(b, s, i) == |s| <==> AllZero(b, s, i)
    decreases |s| - i
  {
    hide ZeroAt;
    if i < |s| {
      NoPair(b, s, i + 2);
      assert AllZero(b, s, i) <==> ZeroAt(b, s, i) && AllZero(b, s, i + 2);
    }
  }

  /** The first factors are made with the odd keys. */
  lemma {:induction false} SameFirstPair(b: seq<nat>, b': seq<nat>, s: seq<nat>, i: nat)
    requires |b| > |s| && |b'| > |s| && |s| % 2 == 0 && i % 2 == 0 && i <= |s|
    requires forall j: nat :: i <= j < |s| && j % 2 == 0 ==> b[j + 1] == b'[j + 1]
    ensures FirstPair(b, s, i) == FirstPair(b', s, i)
    decreases |s| - i
  {
    if i < |s| {
      assert b[i + 1] == b'[i + 1];
      SameFirstPair(b, b', s, i + 2);
    }
  }

  /** The second key of that pair, moved so that the product changes by half of M. */
  function Moved(b: seq<nat>, s: seq<nat>, i: nat): nat
    requires |b| > |s| && i + 1 < |s| && !ZeroAt(b, s, i)
  {
    (b[i + 2] + HalfBy(64, b[i + 1] + s[i])) % M
  }

  function Flip(b: seq<nat>, s: seq<nat>, p: nat): (b': seq<nat>)
    requires |b| > |s| && |s| % 2 == 0 && p % 2 == 0 && p <= |s|
    ensures |b'| == |b|
  {
    var i := FirstPair(b, s, p);
    if i < |s| then b[i + 2 := Moved(b, s, i)] else b
  }

  lemma {:induction false} ChangeKey(b: seq<nat>, s: seq<nat>, i: nat, w: nat)
    requires |b| == |s| + 1 && |s| % 2 == 0 && i % 2 == 0 && i + 1 < |s|
    ensures PairSum(b[i + 2 := w], s) + Pair(b[i + 1], s[i], b[i + 2], s[i + 1]) ==
            PairSum(b, s) + Pair(b[i + 1], s[i], w, s[i + 1])
    decreases |s|
  {
    hide Pair;
    var n := |s|;
    var b' := b[i + 2 := w];
    if i + 2 == n {
      assert Init2(b') == Init2(b);
    } else {
      assert Init2(b') == Init2(b)[i + 2 := w];
      ChangeKey(Init2(b), Init2(s), i, w);
    }
  }

  lemma CancelMod(x: nat, z: nat, a: nat, n: nat)
    requires n > 0 && (x + a) % n == (z + a) % n
    ensures x % n == z % n
  {
    if x < z { CancelLarger(z, x, a, n); } else { CancelLarger(x, z, a, n); }
  }

  lemma CancelLarger(x: nat, z: nat, a: nat, n: nat)
    requires n > 0 && x >= z && (x + a) % n == (z + a) % n
    ensures x % n == z % n
  {
    var d := x - z;
    assert x + a == z + a + d;
    SameResidue(z + a, d, n);
    DivMod(d, n);
    ModPlusMultiple(z, n, d / n);
  }

  /** The product after the move. */
  lemma MovedProduct(u: nat, a: nat, v: nat, b: nat, d: nat, half: nat)
    requires Times(u + a, d) % M == half
    ensures Pair(u, a, (v + d) % M, b) % M == (Pair(u, a, v, b) + half) % M
  {
    hide Pow2;
    var x, w := u + a, (v + d) % M;
    ModOfSum(v + d, b, M);
    ProductOfResidues(x, w + b);
    ProductOfResidues(x, v + d + b);
    Spread(x, v, d, b);
    ModOfSum(Times(x, d), Pair(u, a, v, b), M);
  }

  lemma Spread(x: nat, v: nat, d: nat, b: nat)
    ensures Times(x, v + d + b) == Times(x, v + b) + Times(x, d)
  {
  }

  lemma FlippedSum(b: seq<nat>, s: seq<nat>, i: nat)
    requires |b| == |s| + 1 && |s| % 2 == 0 && i % 2 == 0 && i + 1 < |s| && !ZeroAt(b, s, i)
    ensures PairSum(b[i + 2 := Moved(b, s, i)], s) % M == (PairSum(b, s) + Pow2(63)) % M
  {
    hide Pow2, PairSum, Pair, HalfBy, Times;
    var x := b[i + 1] + s[i];
    var d, w := HalfBy(64, x), Moved(b, s, i);
    var old', new' := Pair(b[i + 1], s[i], b[i + 2], s[i + 1]), Pair(b[i + 1], s[i], w, s[i + 1]);
    HalfByHits(64, x);
    ChangeKey(b, s, i, w);
    MovedProduct(b[i + 1], s[i], b[i + 2], s[i + 1], d, Pow2(63));
    ModOfSum(new', PairSum(b, s), M);
    ModOfSum(old' + Pow2(63), PairSum(b, s), M);
    CancelMod(PairSum(b[i + 2 := w], s), PairSum(b, s) + Pow2(63), old', M);
  }

  lemma HalfOfM()
    ensures M == 2 * Pow2(63)
  {
    hide Pow2;
    PowStep(63);
  }

  /** A flip changes one key, which only the longer string uses. */
  lemma FlipIs(b: seq<nat>, s: seq<nat>, p: nat)
    requires |b| > |s| && |s| % 2 == 0 && p % 2 == 0 && p <= |s| && FirstPair(b, s, p) < |s|
    ensures var i, b' := FirstPair(b, s, p), Flip(b, s, p);
            && b' == b[i + 2 := Moved(b, s, i)] && b'[..p + 1] == b[..p + 1]
            && b'[..|s| + 1] == b[..|s| + 1][i + 2 := Moved(b, s, i)]
  {
    hide Pow2, Moved, ZeroAt;
  }

  lemma FlipKeepsPair(b: seq<nat>, s: seq<nat>, p: nat)
    requires |b| > |s| && |s| % 2 == 0 && p % 2 == 0 && p <= |s| && FirstPair(b, s, p) < |s|
    ensures FirstPair(Flip(b, s, p), s, p) == FirstPair(b, s, p)
  {
    hide Pow2, Moved, ZeroAt, FirstPair;
    FlipIs(b, s, p);
    var i, b' := FirstPair(b, s, p), Flip(b, s, p);
    forall j: nat | p <= j < |s| && j % 2 == 0 ensures b[j + 1] == b'[j + 1] { assert j + 1 != i + 2; }
    SameFirstPair(b, b', s, p);
  }

  lemma FlippedHash(b: seq<nat>, s: seq<nat>, i: nat)
    requires |b| == |s| + 1 && |s| % 2 == 0 && i % 2 == 0 && i + 1 < |s| && !ZeroAt(b, s, i)
    requires XamaHash(b, s) == Pow2(31)
    ensures XamaHash(b[i + 2 := Moved(b, s, i)], s) == 0
  {
    hide Pow2, PairSum, Hi, Moved, ZeroAt;
    FlippedSum(b, s, i);
    HalfOfM();
    HalfFlips(PairSum(b, s), PairSum(b[i + 2 := Moved(b, s, i)], s), Pow2(63));
  }

  lemma FlipLong(b: seq<nat>, s: seq<nat>, p: nat)
    requires |b| > |s| && |s| % 2 == 0 && p % 2 == 0 && p <= |s| && FirstPair(b, s, p) < |s|
    requires HashOf(b, s) == Pow2(31)
    ensures HashOf(Flip(b, s, p), s) == 0
  {
    hide Pow2, Moved, ZeroAt, FirstPair, Flip, XamaHash;
    var i := FirstPair(b, s, p);
    FlipIs(b, s, p);
    FirstKeys(b, s, i);
    FlippedHash(b[..|s| + 1], s, i);
  }

  lemma FlipShort(b: seq<nat>, s: seq<nat>, s': seq<nat>)
    requires |b| > |s| && |s| % 2 == 0 && |s'| % 2 == 0 && |s'| <= |s| && FirstPair(b, s, |s'|) < |s|
    ensures HashOf(Flip(b, s, |s'|), s') == HashOf(b, s')
  {
    hide Pow2, Moved, ZeroAt, FirstPair, Flip, XamaHash;
    FlipIs(b, s, |s'|);
  }

  /** Flipping takes the longer string's hash from half of H to 0 and leaves the shorter one's. */
  lemma FlipHashes(b: seq<nat>, s: seq<nat>, s': seq<nat>)
    requires |b| > |s| && |s| % 2 == 0 && |s'| % 2 == 0 && s' <= s && !AllZero(b, s, |s'|)
    ensures HashOf(b, s) == Pow2(31) ==> HashOf(Flip(b, s, |s'|), s) == 0
    ensures HashOf(Flip(b, s, |s'|), s') == HashOf(b, s')
    ensures !AllZero(Flip(b, s, |s'|), s, |s'|)
    ensures FirstPair(Flip(b, s, |s'|), s, |s'|) == FirstPair(b, s, |s'|)
  {
    hide Pow2, AllZero, FirstPair, Flip, HashOf;
    NoPair(b, s, |s'|);
    FlipKeepsPair(b, s, |s'|);
    NoPair(Flip(b, s, |s'|), s, |s'|);
    FlipShort(b, s, s');
    if HashOf(b, s) == Pow2(31) { FlipLong(b, s, |s'|); }
  }

  lemma FirstKeys(b: seq<nat>, s: seq<nat>, i: nat)
    requires |b| > |s| && i + 1 < |s| && !ZeroAt(b, s, i)
    ensures !ZeroAt(b[..|s| + 1], s, i) && Moved(b[..|s| + 1], s, i) == Moved(b, s, i)
  {
    hide Pow2, HalfBy;
  }

  /** Pairs with a factor 0 add nothing. */
  lemma {:induction false} ZeroPairsAgree(b: seq<nat>, s: seq<nat>, p: nat)
    requires |b| == |s| + 1 && |s| % 2 == 0 && p % 2 == 0 && p <= |s| && AllZero(b, s, p)
    ensures PairSum(b, s) % M == PairSum(b[..p + 1], s[..p]) % M
    decreases |s|
  {
    hide Pow2, Pair;
    var n := |s|;
    if n == p {
      assert b[..p + 1] == b && s[..p] == s;
    } else {
      assert ZeroAt(b, s, n - 2);
      ZeroProduct(b[n - 1], s[n - 2], b[n], s[n - 1]);
      InitAllZero(b, s, p);
      ZeroPairsAgree(Init2(b), Init2(s), p);
      ModOfSum(Pair(b[n - 1], s[n - 2], b[n], s[n - 1]), PairSum(Init2(b), Init2(s)), M);
      assert Init2(b)[..p + 1] == b[..p + 1] && Init2(s)[..p] == s[..p];
    }
  }

  lemma InitAllZero(b: seq<nat>, s: seq<nat>, p: nat)
    requires |b| == |s| + 1 && |s| >= 2 && AllZero(b, s, p)
    ensures AllZero(Init2(b), Init2(s), p)
  {
    hide Pow2;
    forall j: nat | p <= j && j + 1 < |Init2(s)| && j % 2 == 0 ensures ZeroAt(Init2(b), Init2(s), j) {
      assert ZeroAt(b, s, j);
    }
  }

  lemma ZeroProduct(u: nat, a: nat, v: nat, b: nat)
    requires (u + a) % M == 0
    ensures Pair(u, a, v, b) % M == 0
  {
    hide Pow2;
    ProductOfResidues(u + a, v + b);
    ZeroTimesAny((v + b) % M);
    ModUnique(0, M, 0, 0);
  }

  lemma ZeroTimesAny(x: nat)
    ensures Times(0, x) == 0
  {
  }

  lemma ZeroPairsHash(b: seq<nat>, s: seq<nat>, s': seq<nat>)
    requires |b| > |s| && |s| % 2 == 0 && |s'| % 2 == 0 && s' <= s && AllZero(b, s, |s'|)
    ensures HashOf(b, s) == HashOf(b, s')
  {
    hide Pow2, PairSum, Hi;
    var p, all := |s'|, b[..|s| + 1];
    forall j: nat | p <= j && j + 1 < |s| && j % 2 == 0 ensures ZeroAt(all, s, j) { assert ZeroAt(b, s, j); }
    ZeroPairsAgree(all, s, p);
    assert all[..p + 1] == b[..p + 1] && s[..p] == s';
    HiMod(PairSum(all, s), 0);
    HiMod(PairSum(b[..p + 1], s'), 0);
  }

  // -------------------------------------------------------------------------------------------
  // A buffer whose pairs beyond the shorter string are 0 and whose sums are 0.

  function ZeroKey(s: seq<nat>, j: nat): nat {
    if 0 < j <= |s| && s[j - 1] <= M then (M - s[j - 1]) % M else 0
  }

  lemma ZeroKeyIs(s: seq<nat>, j: nat)
    requires 0 < j <= |s| && Words(s)
    ensures (ZeroKey(s, j) + s[j - 1]) % M == 0
  {
    hide Pow2;
    assert IsWord(s[j - 1]);
    Sizes();
    SquareIsLarger(H);
    Complement(s[j - 1], M);
  }

  lemma Complement(x: nat, n: nat)
    requires x < n
    ensures ((n - x) % n + x) % n == 0
  {
    ModOfSum(n - x, x, n);
    ModUnique(n, n, 1, 0);
  }

  lemma SquareIsLarger(h: nat)
    ensures Times(h, h) >= h
  {
  }

  lemma {:induction false} FirstKeyAdds(b: seq<nat>, s: seq<nat>, x: nat)
    requires |b| == |s| + 1 && |s| % 2 == 0 && b[0] == 0
    ensures PairSum(b[0 := x], s) == PairSum(b, s) + x
    decreases |s|
  {
    hide Pair;
    if s != [] {
      assert Init2(b[0 := x]) == Init2(b)[0 := x];
      FirstKeyAdds(Init2(b), Init2(s), x);
    }
  }

  lemma ZeroBuffer(n: nat, s: seq<nat>, s': seq<nat>) returns (b: seq<nat>)
    requires n > |s| && |s| % 2 == 0 && |s'| % 2 == 0 && s' <= s && Words(s)
    ensures b in SendingOf(n, s, s', 0, 0) && |b| == n && AllZero(b, s, |s'|)
  {
    hide Pow2, PairSum, Hi, Words, ZeroKey, Buffers;
    var start := seq<nat>(n, j requires 0 <= j < n => if j == 0 then 0 else ZeroKey(s, j));
    var sum := PairSum(start[..|s'| + 1], s');
    var x := (M - sum % M) % M;
    b := start[0 := x];
    assert b[..|s'| + 1] == start[..|s'| + 1][0 := x];
    FirstKeyAdds(start[..|s'| + 1], s', x);
    SumCancels(sum, x);
    forall j: nat | |s'| <= j && j + 1 < |s| && j % 2 == 0 ensures ZeroAt(b, s, j) { ZeroKeyIs(s, j + 1); }
    ZeroPairsHash(b, s, s');
    KeysFit(b, s);
    BuffersAre(n, M, b);
  }

  lemma KeysFit(b: seq<nat>, s: seq<nat>)
    requires |b| > 0 && b[0] < M && forall j :: 0 < j < |b| ==> b[j] == ZeroKey(s, j)
    ensures forall j :: 0 <= j < |b| ==> b[j] < M
  {
    hide Pow2;
  }

  lemma SumCancels(sum: nat, x: nat)
    requires x == (M - sum % M) % M
    ensures x < M && Hi(sum + x) == 0
  {
    hide Pow2;
    var r := sum % M;
    ModOfSum(sum, x, M);
    ModOfSum(M - r, r, M);
    ModUnique(M, M, 1, 0);
    HIsLarge();
    ModUnique(0, H, 0, 0);
  }

  // -------------------------------------------------------------------------------------------
  // Counting.

  /** The buffers of n keys that send s to y and s' to y'. */
  ghost function SendingOf(n: nat, s: seq<nat>, s': seq<nat>, y: nat, y': nat): set<seq<nat>>
    requires n > |s| && n > |s'|
  {
    set b | b in Buffers(n, M) && |b| == n && HashOf(b, s) == y && HashOf(b, s') == y'
  }

  ghost function Flipped(n: nat, a: set<seq<nat>>, s: seq<nat>, p: nat): set<seq<nat>>
    requires n > |s| && |s| % 2 == 0 && p % 2 == 0 && p <= |s|
  {
    set b | b in a && |b| == n :: Flip(b, s, p)
  }

  lemma FlipInjective(b: seq<nat>, c: seq<nat>, s: seq<nat>, s': seq<nat>)
    requires |b| == |c| > |s| && |s| % 2 == 0 && |s'| % 2 == 0 && s' <= s
    requires !AllZero(b, s, |s'|) && !AllZero(c, s, |s'|) && Flip(b, s, |s'|) == Flip(c, s, |s'|)
    requires (forall j :: 0 <= j < |b| ==> b[j] < M) && (forall j :: 0 <= j < |c| ==> c[j] < M)
    ensures b == c
  {
    hide Pow2, PairSum, Hi, Moved, ZeroAt, AllZero;
    FlipHashes(b, s, s');
    FlipHashes(c, s, s');
    NoPair(b, s, |s'|);
    NoPair(c, s, |s'|);
    var i := FirstPair(b, s, |s'|);
    var f := Flip(b, s, |s'|);
    forall j | 0 <= j < |b| && j != i + 2 ensures b[j] == c[j] { assert f[j] == b[j] && f[j] == c[j]; }
    assert f[i + 2] == Moved(b, s, i) == Moved(c, s, i);
    MovedBack(b, c, s, i);
  }

  lemma MovedBack(b: seq<nat>, c: seq<nat>, s: seq<nat>, i: nat)
    requires |b| == |c| > |s| && i + 1 < |s| && !ZeroAt(b, s, i) && !ZeroAt(c, s, i)
    requires b[i + 1] == c[i + 1] && Moved(b, s, i) == Moved(c, s, i) && b[i + 2] < M && c[i + 2] < M
    ensures b[i + 2] == c[i + 2]
  {
    hide Pow2, HalfBy;
    var d := HalfBy(64, b[i + 1] + s[i]);
    CancelMod(b[i + 2], c[i + 2], d, M);
    ModUnique(b[i + 2], M, 0, b[i + 2]);
    ModUnique(c[i + 2], M, 0, c[i + 2]);
  }

  lemma {:induction false} FlippedSize(n: nat, a: set<seq<nat>>, s: seq<nat>, s': seq<nat>)
    requires n > |s| && |s| % 2 == 0 && |s'| % 2 == 0 && s' <= s && a <= Buffers(n, M)
    requires forall b :: b in a && |b| == n ==> !AllZero(b, s, |s'|)
    ensures |Flipped(n, a, s, |s'|)| == |a|
  {
    hide Pow2, Buffers, AllZero, Flip;
    if a != {} {
      var b :| b in a;
      var rest := a - {b};
      BuffersAre(n, M, b);
      FlippedSize(n, rest, s, s');
      assert Flipped(n, a, s, |s'|) == Flipped(n, rest, s, |s'|) + {Flip(b, s, |s'|)};
      forall c | c in rest && |c| == n ensures Flip(c, s, |s'|) != Flip(b, s, |s'|) {
        BuffersAre(n, M, c);
        if Flip(c, s, |s'|) == Flip(b, s, |s'|) { FlipInjective(b, c, s, s'); }
      }
    }
  }

  lemma FlipFits(n: nat, b: seq<nat>, s: seq<nat>, p: nat)
    requires b in Buffers(n, M) && |b| == n > |s| && |s| % 2 == 0 && p % 2 == 0 && p <= |s|
    ensures Flip(b, s, p) in Buffers(n, M)
  {
    hide Pow2, ZeroAt, HalfBy;
    BuffersAre(n, M, b);
    BuffersAre(n, M, Flip(b, s, p));
  }

  lemma HalfIsNot()
    ensures 0 < Pow2(31) < H
  {
    hide Pow2;
    PowStep(31);
  }

  /** Half of H for the longer string and 0 for the shorter is rarer than 0 for both. */
  lemma PrefixIsUneven(n: nat, s: seq<nat>, s': seq<nat>)
    requires n > |s| && |s| % 2 == 0 && |s'| % 2 == 0 && s' <= s && Words(s)
    ensures |SendingOf(n, s, s', Pow2(31), 0)| < |SendingOf(n, s, s', 0, 0)|
  {
    hide Pow2, Buffers, AllZero, Flip, HashOf, Words;
    HalfIsNot();
    var a, b0 := SendingOf(n, s, s', Pow2(31), 0), SendingOf(n, s, s', 0, 0);
    forall b | b in a && |b| == n ensures !AllZero(b, s, |s'|) {
      if AllZero(b, s, |s'|) { ZeroPairsHash(b, s, s'); }
    }
    FlippedSize(n, a, s, s');
    var f := Flipped(n, a, s, |s'|);
    forall c | c in f ensures c in b0 && |c| == n && !AllZero(c, s, |s'|) {
      var b :| b in a && |b| == n && c == Flip(b, s, |s'|);
      FlipHashes(b, s, s');
      FlipFits(n, b, s, |s'|);
    }
    var z := ZeroBuffer(n, s, s');
    SubsetSize(f + {z}, b0);
  }

  lemma SendingSwapped(n: nat, s: seq<nat>, s': seq<nat>, y: nat, y': nat)
    requires n > |s| && n > |s'|
    ensures SendingOf(n, s, s', y, y') == SendingOf(n, s', s, y', y)
  {
    hide Pow2, HashOf, Buffers;
  }

  lemma SendingCounted(n: nat, s: seq<nat>, s': seq<nat>, y: nat, y': nat)
    requires n > |s| && n > |s'|
    ensures |SendingOf(n, s, s', y, y')| == CountOf(n, s, s', 0, 0, y, y')
  {
    hide Pow2, Hi, Buffers, PairSum;
    assert SendingOf(n, s, s', y, y') == Having(n, M, GoodOf(n, s, s', 0, 0, y, y'));
  }

  lemma BeginningOf(s: seq<nat>, s': seq<nat>)
    requires !Differ(s, s') && |s'| <= |s|
    ensures s' <= s
  {
  }

  /** For strings of any even lengths and any buffer that is long enough: every pair of outputs is equally
      frequent exactly if neither string is the beginning of the other. */
  lemma StronglyUniversalExactly(n: nat, s: seq<nat>, s': seq<nat>)
    requires n > |s| && n > |s'| && |s| % 2 == 0 && |s'| % 2 == 0 && Words(s) && Words(s')
    ensures (forall y: nat, y': nat :: y < H && y' < H ==> |SendingOf(n, s, s', y, y')| == Pow(M, n - 1)) <==>
            Differ(s, s')
  {
    hide Pow2, Pow, SendingOf, CountOf, Words, Differ;
    HalfIsNot();
    if Differ(s, s') {
      forall y: nat, y': nat | y < H && y' < H ensures |SendingOf(n, s, s', y, y')| == Pow(M, n - 1) {
        SendingCounted(n, s, s', y, y');
        DifferentPlaces(n, s, s', 0, 0, y, y');
      }
    } else if |s'| <= |s| {
      BeginningOf(s, s');
      PrefixIsUneven(n, s, s');
    } else {
      if Differ(s', s) { DifferSwapped(s', s); }
      BeginningOf(s', s);
      PrefixIsUneven(n, s', s);
      SendingSwapped(n, s, s', 0, Pow2(31));
      SendingSwapped(n, s, s', 0, 0);
    }
  }
}
