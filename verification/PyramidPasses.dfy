/** One pass of the pyramidal hash: the keys under which it leaves a given word, or no longer tells two
    strings apart; and how such keys of one pass and of the next ones add up. */
module PyramidPasses {
  import opened Bits
  import opened Counting
  import opened Residues
  import opened AffineKeys
  import opened Multilinear
  import opened Pyramid

  // -------------------------------------------------------------------------------------------
  // Counting buffers whose hashes of one block agree.

  lemma {:induction false} BufferTotal(n: nat)
    ensures |Having(n, M, Anything)| == Pow(M, n) && Having(n, M, Anything) == Buffers(n, M)
  {
    hide Pow2, Sum, Pow, Having;
    KeyPowStep(n);
    EveryBuffer(n);
    if n == 0 {
      NoKeys();
    } else {
      CountByLastKey(n - 1, M, Anything);
      BufferTotal(n - 1);
      var f := Fibres(n - 1, M, Anything);
      forall k: nat ensures f(k) == Pow(M, n - 1) { HavingSame(n - 1, With(Anything, k), Anything); }
      SumConst(M, f, Pow(M, n - 1));
      TimesIs(M, Pow(M, n - 1));
    }
  }

  predicate Anything(b: seq<nat>) {
    true
  }

  lemma EveryBuffer(n: nat)
    ensures Having(n, M, Anything) == Buffers(n, M)
  {
    hide Pow2, Buffers;
  }

  lemma NoKeys()
    ensures |Buffers(0, M)| == 1
  {
    hide Pow2;
  }

  /** The buffers that hash x and x' alike. */
  function Alike(x: seq<nat>, x': seq<nat>): seq<nat> -> bool {
    (b: seq<nat>) => |b| == |x| + 1 == |x'| + 1 && StrongHash(b, x) == StrongHash(b, x')
  }

  /** Those among them whose common hash is below t. */
  ghost function AlikeBelow(x: seq<nat>, x': seq<nat>, t: nat): set<seq<nat>> {
    set b | b in Having(|x| + 1, M, Alike(x, x')) && |b| == |x| + 1 && StrongHash(b, x) < t
  }

  lemma {:induction false} AlikeCount(x: seq<nat>, x': seq<nat>, t: nat)
    requires |x| == |x'| && x != x' && Words(x) && Words(x') && t <= H
    ensures |AlikeBelow(x, x', t)| == Times(t, Pow(M, |x|))
    decreases t
  {
    hide Pow2, Pow, Having, Sending, Times, AlikeBelow;
    ZeroTimes(Pow(M, |x|));
    if t == 0 {
      NoneBelow(x, x');
    } else {
      AlikeCount(x, x', t - 1);
      StronglyUniversal(x, x', t - 1, t - 1);
      NextAlike(x, x', t - 1);
      TimesSum(t - 1, 1, Pow(M, |x|));
      OneTimes(Pow(M, |x|));
    }
  }

  lemma ZeroTimes(x: nat)
    ensures Times(0, x) == 0
  {
  }

  lemma NoneBelow(x: seq<nat>, x': seq<nat>)
    ensures AlikeBelow(x, x', 0) == {}
  {
    hide Pow2, StrongHash;
  }

  lemma NextAlike(x: seq<nat>, x': seq<nat>, y: nat)
    requires |x| == |x'|
    ensures |AlikeBelow(x, x', y + 1)| == |AlikeBelow(x, x', y)| + |Sending(x, x', y, y)|
  {
    hide Pow2, StrongHash, Buffers;
    assert AlikeBelow(x, x', y + 1) == AlikeBelow(x, x', y) + Sending(x, x', y, y);
    assert AlikeBelow(x, x', y) !! Sending(x, x', y, y);
  }

  lemma AllBelow(x: seq<nat>, x': seq<nat>)
    ensures AlikeBelow(x, x', H) == Having(|x| + 1, M, Alike(x, x'))
  {
    hide Pow2, Having, Dot, Alike;
    forall b: seq<nat> | b in Having(|x| + 1, M, Alike(x, x')) ensures |b| == |x| + 1 && StrongHash(b, x) < H {
      HavingLength(|x| + 1, Alike(x, x'), b);
      HiIsWord(Dot(b, x));
    }
  }

  lemma HavingLength(n: nat, p: seq<nat> -> bool, b: seq<nat>)
    requires b in Having(n, M, p)
    ensures |b| == n
  {
    hide Pow2;
    BuffersAre(n, M, b);
  }

  lemma HiIsWord(x: nat)
    ensures Hi(x) < H
  {
    hide Pow2;
    Sizes();
    DivMod(x, M);
    HighPart(x % M, H);
  }

  lemma HighPart(x: nat, h: nat)
    requires h > 0 && x < Times(h, h)
    ensures x / h < h
  {
    DivMod(x, h);
    Multiples(x / h - h, h);
    assert (x / h - h) * h == (x / h) * h - h * h;
  }

  /** The buffers that hash x to y. */
  function To(x: seq<nat>, y: nat): seq<nat> -> bool {
    (b: seq<nat>) => |b| == |x| + 1 && StrongHash(b, x) == y
  }

  lemma ToCount(x: seq<nat>, y: nat)
    requires y < H
    ensures |Having(|x| + 1, M, To(x, y))| == Times(H, Pow(M, |x|))
  {
    hide Pow2, Pow, Having, Times, Count, Hi, Dot;
    HavingSame(|x| + 1, To(x, y), Good(x, x, 0, 0, y, y));
    EqualStrings(x, 0, 0, y, y);
    CountSame(M, Both(0, 0, y, y), HasHi(y));
    HiCount(y);
    TimesIs(H, Pow(M, |x|));
    TimesIs(Pow(M, |x|), H);
  }

  // -------------------------------------------------------------------------------------------
  // One pass.

  ghost function Keys(): set<seq<nat>> {
    Buffers(BLOCK + 1, M)
  }

  function Padded(s: seq<nat>, j: nat): (x: seq<nat>)
    ensures |x| == BLOCK
    ensures forall i: nat :: i < BLOCK ==> x[i] == Char(s, j * BLOCK + i)
  {
    seq<nat>(BLOCK, i requires 0 <= i < BLOCK => Char(s, j * BLOCK + i))
  }

  /** Two strings of as many blocks that differ at most by zeros at their ends. */
  ghost predicate Same(s: seq<nat>, s': seq<nat>) {
    BlockCount(|s|) == BlockCount(|s'|) && forall i: nat :: Char(s, i) == Char(s', i)
  }

  /** The hash of a block is that of the padded block. */
  lemma HashOfPadded(k: seq<nat>, s: seq<nat>, j: nat)
    requires |k| == BLOCK + 1 && j < BlockCount(|s|)
    ensures BlockHash(k, s, j) == StrongHash(k, Padded(s, j))
  {
    hide Pow2, Hi, Dot;
    var x := Padded(s, j);
    BlockStarts(s, j);
    ZerosAddNothing(k, x, |Block(s, j)|);
  }

  lemma BlockStarts(s: seq<nat>, j: nat)
    requires j < BlockCount(|s|)
    ensures Padded(s, j)[..|Block(s, j)|] == Block(s, j)
    ensures forall i :: |Block(s, j)| <= i < BLOCK ==> Padded(s, j)[i] == 0
  {
  }

  lemma PaddedWords(s: seq<nat>, j: nat)
    requires Words(s)
    ensures Words(Padded(s, j))
  {
    hide Pow2;
    HIsLarge();
  }

  lemma SameBlocks(k: seq<nat>, s: seq<nat>, s': seq<nat>)
    requires |k| == BLOCK + 1 && Same(s, s')
    ensures Blocks(k, s) == Blocks(k, s')
  {
    hide Pow2, BlockCount, BlockHash, StrongHash, Char;
    forall j: nat | j < BlockCount(|s|) ensures BlockHash(k, s, j) == BlockHash(k, s', j) {
      HashOfPadded(k, s, j);
      HashOfPadded(k, s', j);
      assert Padded(s, j) == Padded(s', j);
    }
  }

  lemma SameLength(t: seq<nat>, t': seq<nat>)
    requires |t| == |t'|
    ensures Same(t, t') <==> t == t'
  {
    if Same(t, t') {
      forall i | 0 <= i < |t| ensures t[i] == t'[i] { assert Char(t, i) == Char(t', i); }
    }
  }

  lemma PaddedDiffers(s: seq<nat>, s': seq<nat>) returns (j: nat)
    requires BlockCount(|s|) == BlockCount(|s'|) && !Same(s, s')
    ensures j < BlockCount(|s|) && Padded(s, j) != Padded(s', j)
  {
    var i: nat :| Char(s, i) != Char(s', i);
    j := i / BLOCK;
    assert Padded(s, j)[i % BLOCK] == Char(s, i) && Padded(s', j)[i % BLOCK] == Char(s', i);
  }

  /** The keys for which a pass no longer tells the two strings apart. */
  ghost function Confused(s: seq<nat>, s': seq<nat>): set<seq<nat>> {
    set k | k in Keys() && |k| == BLOCK + 1 && Same(Blocks(k, s), Blocks(k, s'))
  }

  /** The keys for which a pass leaves y at position j. */
  ghost function Leaving(s: seq<nat>, j: nat, y: nat): set<seq<nat>>
    requires j < BlockCount(|s|)
  {
    set k | k in Keys() && |k| == BLOCK + 1 && BlockHash(k, s, j) == y
  }

  lemma Fraction(a: nat, p: nat)
    requires a <= Times(H, p)
    ensures a * H <= Times(M, p)
  {
    hide Pow2;
    Sizes();
    ScaleUp(a, Times(H, p), H);
    Squared(H, p);
  }

  lemma Squared(h: nat, p: nat)
    ensures Times(h, p) * h == Times(Times(h, h), p)
  {
    assert h * p * h == h * h * p;
  }

  /** Each word is left for a fraction 2^-32 of the keys. */
  lemma LeavingIsRare(s: seq<nat>, j: nat, y: nat)
    requires j < BlockCount(|s|) && y < H
    ensures |Leaving(s, j, y)| * H <= Pow(M, BLOCK + 1)
  {
    hide Pow2, Pow, Having, Times, BlockCount, Leaving, To, Padded;
    var x := Padded(s, j);
    ToCount(x, y);
    forall k | k in Leaving(s, j, y) ensures k in Having(BLOCK + 1, M, To(x, y)) { LeavingIsTo(s, j, y, k); }
    SubsetSize(Leaving(s, j, y), Having(BLOCK + 1, M, To(x, y)));
    Fraction(|Leaving(s, j, y)|, Pow(M, BLOCK));
    KeyPowStep(BLOCK + 1);
  }

  lemma LeavingIsTo(s: seq<nat>, j: nat, y: nat, k: seq<nat>)
    requires j < BlockCount(|s|) && k in Leaving(s, j, y)
    ensures k in Having(BLOCK + 1, M, To(Padded(s, j), y))
  {
    hide Pow2, StrongHash, BlockHash, BlockCount, Buffers, Char;
    HashOfPadded(k, s, j);
  }

  lemma AgreeingIsRare(s: seq<nat>, s': seq<nat>)
    requires BlockCount(|s|) == BlockCount(|s'|) && !Same(s, s') && Words(s) && Words(s')
    ensures |Confused(s, s')| * H <= Pow(M, BLOCK + 1)
  {
    hide Pow2, Pow, Having, Times, BlockCount, Confused, AlikeBelow, Alike, Padded, Words, Same;
    var j := PaddedDiffers(s, s');
    var x, x' := Padded(s, j), Padded(s', j);
    PaddedWords(s, j);
    PaddedWords(s', j);
    AlikeCount(x, x', H);
    AllBelow(x, x');
    forall k | k in Confused(s, s') ensures k in Having(BLOCK + 1, M, Alike(x, x')) { ConfusedIsAlike(s, s', j, k); }
    SubsetSize(Confused(s, s'), Having(BLOCK + 1, M, Alike(x, x')));
    Fraction(|Confused(s, s')|, Pow(M, BLOCK));
    KeyPowStep(BLOCK + 1);
  }

  lemma ConfusedIsAlike(s: seq<nat>, s': seq<nat>, j: nat, k: seq<nat>)
    requires BlockCount(|s|) == BlockCount(|s'|) && j < BlockCount(|s|) && k in Confused(s, s')
    ensures k in Having(BLOCK + 1, M, Alike(Padded(s, j), Padded(s', j)))
  {
    hide Pow2, StrongHash, BlockHash, BlockCount, Buffers, Same, Char;
    SameLength(Blocks(k, s), Blocks(k, s'));
    HashOfPadded(k, s, j);
    HashOfPadded(k, s', j);
    assert Blocks(k, s)[j] == Blocks(k, s')[j];
  }

  /** Outputs of different lengths are the same only if the longer one ends with 0. */
  lemma UnevenIsLeaving(s: seq<nat>, s': seq<nat>)
    requires BlockCount(|s|) < BlockCount(|s'|)
    ensures Confused(s, s') <= Leaving(s', BlockCount(|s'|) - 1, 0) && Confused(s', s) == Confused(s, s')
  {
    hide Pow2, BlockHash, BlockCount, Buffers;
    var j := BlockCount(|s'|) - 1;
    forall k | k in Confused(s, s') ensures BlockHash(k, s', j) == 0 {
      assert Char(Blocks(k, s), j) == Char(Blocks(k, s'), j);
    }
  }

  /** A pass confuses two strings for at most a fraction 2^-32 of its keys. */
  lemma ConfusedIsRare(s: seq<nat>, s': seq<nat>)
    requires !Same(s, s') && s != [] && s' != [] && Words(s) && Words(s')
    ensures |Confused(s, s')| * H <= Pow(M, BLOCK + 1)
  {
    hide Pow2, Pow, BlockCount, Confused, Words, Same, Leaving;
    HIsLarge();
    if BlockCount(|s|) == BlockCount(|s'|) {
      AgreeingIsRare(s, s');
    } else if BlockCount(|s|) < BlockCount(|s'|) {
      UnevenIsLeaving(s, s');
      LeavingBounds(Confused(s, s'), s', BlockCount(|s'|) - 1, 0);
    } else {
      UnevenIsLeaving(s', s);
      LeavingBounds(Confused(s, s'), s, BlockCount(|s|) - 1, 0);
    }
  }

  lemma LeavingBounds(a: set<seq<nat>>, s: seq<nat>, j: nat, y: nat)
    requires j < BlockCount(|s|) && y < H && a <= Leaving(s, j, y)
    ensures |a| * H <= Pow(M, BLOCK + 1)
  {
    hide Pow2, Pow, BlockCount, Leaving;
    LeavingIsRare(s, j, y);
    SubsetSize(a, Leaving(s, j, y));
    ScaleUp(|a|, |Leaving(s, j, y)|, H);
  }

  // -------------------------------------------------------------------------------------------
  // The passes together.

  type Stack = seq<seq<nat>>

  /** Every choice of keys for r hashers. */
  ghost function Stacks(r: nat): set<Stack> {
    if r == 0 then {[]} else Stacked(Keys(), (k: seq<nat>) => Stacks(r - 1))
  }

  /** The stacks whose first keys are in a, with the rest as f allows. */
  ghost function Stacked(a: set<seq<nat>>, f: seq<nat> -> set<Stack>): set<Stack> {
    set k, ks | k in a && ks in f(k) :: [k] + ks
  }

  ghost function OnTop(k: seq<nat>, rest: set<Stack>): set<Stack> {
    set ks | ks in rest :: [k] + ks
  }

  lemma {:induction false} OnTopSize(k: seq<nat>, rest: set<Stack>)
    ensures |OnTop(k, rest)| == |rest|
  {
    if rest != {} {
      var ks :| ks in rest;
      OnTopSize(k, rest - {ks});
      assert OnTop(k, rest) == OnTop(k, rest - {ks}) + {[k] + ks};
      forall other | other in rest - {ks} ensures [k] + other != [k] + ks {
        assert ([k] + other)[1..] == other && ([k] + ks)[1..] == ks;
      }
    }
  }

  lemma StackedSplit(a: set<seq<nat>>, f: seq<nat> -> set<Stack>, k: seq<nat>)
    requires k in a
    ensures |Stacked(a, f)| == |Stacked(a - {k}, f)| + |f(k)|
  {
    OnTopSize(k, f(k));
    assert Stacked(a, f) == Stacked(a - {k}, f) + OnTop(k, f(k));
    forall s | s in OnTop(k, f(k)) ensures s !in Stacked(a - {k}, f) { assert s[0] == k; }
  }

  lemma {:induction false} StackedBound(a: set<seq<nat>>, f: seq<nat> -> set<Stack>, h: nat, c: nat)
    requires forall k :: k in a ==> Times(|f(k)|, h) <= c
    ensures Times(|Stacked(a, f)|, h) <= Times(|a|, c)
  {
    hide Stacked, Times;
    ZeroTimes(h);
    ZeroTimes(c);
    if a == {} {
      NoneStacked(f);
    } else {
      var k :| k in a;
      StackedSplit(a, f, k);
      StackedBound(a - {k}, f, h, c);
      TimesSum(|Stacked(a - {k}, f)|, |f(k)|, h);
      TimesSum(|a| - 1, 1, c);
      OneTimes(c);
    }
  }

  lemma {:induction false} StackedSize(a: set<seq<nat>>, f: seq<nat> -> set<Stack>, c: nat)
    requires forall k :: k in a ==> |f(k)| == c
    ensures |Stacked(a, f)| == Times(|a|, c)
  {
    hide Stacked, Times;
    ZeroTimes(c);
    if a == {} {
      NoneStacked(f);
    } else {
      var k :| k in a;
      StackedSplit(a, f, k);
      StackedSize(a - {k}, f, c);
      TimesSum(|a| - 1, 1, c);
      OneTimes(c);
    }
  }

  lemma NoneStacked(f: seq<nat> -> set<Stack>)
    ensures Stacked({}, f) == {}
  {
  }

  lemma {:induction false} StackTotal(r: nat)
    ensures |Stacks(r)| == Pow(Pow(M, BLOCK + 1), r)
  {
    hide Pow2, Stacked, Keys;
    KeyTotal();
    hide Pow;
    if r > 0 {
      StackTotal(r - 1);
      StackedSize(Keys(), (k: seq<nat>) => Stacks(r - 1), |Stacks(r - 1)|);
      PowIs(Pow(M, BLOCK + 1), r);
    } else {
      PowIs(Pow(M, BLOCK + 1), 0);
    }
  }

  lemma PowIs(b: nat, r: nat)
    ensures Pow(b, 0) == 1 && (r > 0 ==> Pow(b, r) == Times(b, Pow(b, r - 1)))
  {
  }

  lemma KeyTotal()
    ensures |Keys()| == Pow(M, BLOCK + 1)
  {
    hide Pow2, Pow, Buffers, Having;
    BufferTotal(BLOCK + 1);
  }

  /** The part of the keys that are confused. */
  lemma ConfusedPart(x: nat, h: nat, a: nat, n: nat, t: nat)
    requires x <= a * t && a * h <= n
    ensures x * h <= n * t
  {
    ScaleUp(x, a * t, h);
    assert a * t * h == (a * h) * t;
    ScaleUp(a * h, n, t);
  }

  lemma OtherPart(z: nat, n: nat, rest: nat, t: nat, e: nat)
    requires z <= rest * (e * t) && rest <= n
    ensures z + n * t <= (e + 1) * (n * t)
  {
    ScaleUp(rest, n, e * t);
    assert n * (e * t) == e * (n * t);
  }

  lemma AddUp(x: nat, y: nat, h: nat, a: nat, n: nat, rest: nat, t: nat, d: nat)
    requires d > 0 && Times(x, 1) <= Times(a, t) && Times(y, h) <= Times(rest, Times(d - 1, t)) && Times(a, h) <= n
             && rest <= n
    ensures Times(x + y, h) <= Times(d, Times(n, t))
  {
    ConfusedPart(x, h, a, n, t);
    OtherPart(y * h, n, rest, t, d - 1);
    TimesSum(x, y, h);
  }

  lemma StackedUnion(a: set<seq<nat>>, b: set<seq<nat>>, f: seq<nat> -> set<Stack>)
    ensures |Stacked(a + b, f)| <= |Stacked(a, f)| + |Stacked(b, f)|
  {
    assert Stacked(a + b, f) == Stacked(a, f) + Stacked(b, f);
  }

  /** Anything may follow the few keys in a, and little the others. */
  lemma PassBound(a: set<seq<nat>>, f: seq<nat> -> set<Stack>, r: nat, d: nat)
    requires r > 0 && d > 0 && a <= Keys() && |a| * H <= Pow(M, BLOCK + 1)
    requires forall k :: k in a ==> f(k) <= Stacks(r - 1)
    requires forall k :: k in Keys() - a ==> Times(|f(k)|, H) <= Times(d - 1, |Stacks(r - 1)|)
    ensures Times(|Stacked(Keys(), f)|, H) <= Times(d, |Stacks(r)|)
  {
    hide Pow2, Pow, Times, Stacks, Stacked, Keys;
    var rest := Keys() - a;
    forall k | k in a ensures Times(|f(k)|, 1) <= |Stacks(r - 1)| {
      SubsetSize(f(k), Stacks(r - 1));
      TimesOne(|f(k)|);
    }
    StackedBound(a, f, 1, |Stacks(r - 1)|);
    StackedBound(rest, f, H, Times(d - 1, |Stacks(r - 1)|));
    StackedUnion(a, rest, f);
    assert a + rest == Keys();
    KeyTotal();
    SubsetSize(rest, Keys());
    StacksStep(r);
    TimesIs(|a|, H);
    AddUp(|Stacked(a, f)|, |Stacked(rest, f)|, H, |a|, |Keys()|, |rest|, |Stacks(r - 1)|, d);
    MoreTimes(|Stacked(Keys(), f)|, |Stacked(a, f)| + |Stacked(rest, f)|, H);
  }

  lemma StacksStep(r: nat)
    requires r > 0
    ensures |Stacks(r)| == Times(|Keys()|, |Stacks(r - 1)|)
  {
    hide Pow2, Pow, Times, Stacks, Keys;
    StackTotal(r);
    StackTotal(r - 1);
    KeyTotal();
    PowIs(Pow(M, BLOCK + 1), r);
  }

  lemma MoreTimes(a: nat, b: nat, h: nat)
    requires a <= b
    ensures Times(a, h) <= Times(b, h)
  {
  }

  lemma TimesOne(x: nat)
    ensures Times(x, 1) == x
  {
  }

  lemma KeyLength(k: seq<nat>)
    requires k in Keys()
    ensures |k| == BLOCK + 1
  {
    hide Pow2;
    BuffersAre(BLOCK + 1, M, k);
  }

  lemma DepthStep(n: nat)
    requires n > 0
    ensures Depth(n) == if BlockCount(n) == 1 then 1 else 1 + Depth(BlockCount(n))
    ensures BlockCount(n) > 0
  {
  }

  lemma BlocksAreWords(k: seq<nat>, s: seq<nat>)
    requires |k| == BLOCK + 1
    ensures Words(Blocks(k, s))
  {
    hide Pow2, BlockCount, Block, Hi, Dot;
    forall j: nat | j < BlockCount(|s|) ensures IsWord(Blocks(k, s)[j]) {
      HiIsWord(Dot(k[..|Block(s, j)| + 1], Block(s, j)));
    }
  }
}
