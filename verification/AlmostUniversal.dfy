/** The pyramidal hash is almost universal: two strings collide for at most a fraction 4 / 2^32 of the
    keys, exactly unless they are told apart by nothing but zeros at their ends or by a length beyond
    31 bits, and then they collide for all keys. */
module AlmostUniversal {
  import opened Optional
  import opened Bits
  import opened Counting
  import opened Residues
  import opened AffineKeys
  import opened Multilinear
  import opened Pyramid
  import opened PyramidPasses

  // -------------------------------------------------------------------------------------------
  // One string hits one word.

  /** The keys under which the hash is v, given what the first pass left. */
  ghost function Hitting(r: nat, t: seq<nat>, v: nat): set<Stack> {
    set ks | ks in Stacks(r) && t != [] && AfterFirst(ks, t) == v
  }

  lemma HittingIsStacked(r: nat, t: seq<nat>, v: nat)
    requires r > 0 && |t| > 1
    ensures Hitting(r, t, v) == Stacked(Keys(), (k: seq<nat>) =>
            if |k| == BLOCK + 1 then Hitting(r - 1, Blocks(k, t), v) else {})
  {
    hide Pow2, PyramidHash, Keys, AfterFirst, BlockCount, BlockHash;
    forall k, ks: Stack | k in Keys()
      ensures |k| == BLOCK + 1 && Blocks(k, t) != [] && AfterFirst([k] + ks, t) == AfterFirst(ks, Blocks(k, t))
    {
      KeyLength(k);
      AfterStep(k, ks, t);
    }
  }

  lemma AfterStep(k: seq<nat>, ks: Stack, t: seq<nat>)
    requires |t| > 1 && |k| == BLOCK + 1
    ensures Blocks(k, t) != [] && AfterFirst([k] + ks, t) == AfterFirst(ks, Blocks(k, t))
  {
    hide Pow2, PyramidHash, BlockCount, Blocks;
    PyramidStep(k, ks, t);
  }

  lemma {:induction false} HittingIsRare(r: nat, t: seq<nat>, v: nat)
    requires |t| > 1 && Depth(|t|) <= r && v < H
    ensures Times(|Hitting(r, t, v)|, H) <= |Stacks(r)|
    decreases r
  {
    hide Pow2, Pow, Times, Stacks, Stacked, Keys, Blocks, Hitting, Depth, BlockCount, Leaving;
    DepthStep(|t|);
    var f := (k: seq<nat>) => if |k| == BLOCK + 1 then Hitting(r - 1, Blocks(k, t), v) else {};
    HittingIsStacked(r, t, v);
    if BlockCount(|t|) == 1 {
      LeavingIsRare(t, 0, v);
      LeavingIsKeys(t, 0, v);
      forall k ensures f(k) <= Stacks(r - 1) && (k in Keys() - Leaving(t, 0, v) ==> f(k) == {}) {
        HittingLast(r, t, v, k);
      }
      ZeroTimes(H);
      ZeroTimes(|Stacks(r - 1)|);
      PassBound(Leaving(t, 0, v), f, r, 1);
      OneTimes(|Stacks(r)|);
    } else {
      forall k | k in Keys() ensures Times(|f(k)|, H) <= |Stacks(r - 1)| {
        KeyLength(k);
        HittingIsRare(r - 1, Blocks(k, t), v);
      }
      StackedBound(Keys(), f, H, |Stacks(r - 1)|);
      StacksStep(r);
    }
  }

  lemma LeavingIsKeys(s: seq<nat>, j: nat, y: nat)
    requires j < BlockCount(|s|)
    ensures Leaving(s, j, y) <= Keys()
  {
    hide Keys, BlockHash, BlockCount;
  }

  lemma HittingLast(r: nat, t: seq<nat>, v: nat, k: seq<nat>)
    requires r > 0 && BlockCount(|t|) == 1
    ensures |k| == BLOCK + 1 ==> Hitting(r - 1, Blocks(k, t), v) <= Stacks(r - 1)
    ensures |k| == BLOCK + 1 && k in Keys() - Leaving(t, 0, v) ==> Hitting(r - 1, Blocks(k, t), v) == {}
  {
    hide Pow2, PyramidHash, BlockHash, BlockCount, Keys, Stacks;
  }

  // -------------------------------------------------------------------------------------------
  // Two strings collide.

  /** The keys under which the hashes agree, given what the first pass left of the two strings. */
  ghost function Meeting(r: nat, t: seq<nat>, t': seq<nat>): set<Stack> {
    set ks | ks in Stacks(r) && t != [] && t' != [] && AfterFirst(ks, t) == AfterFirst(ks, t')
  }

  ghost function MeetingAfter(r: nat, t: seq<nat>, t': seq<nat>): seq<nat> -> set<Stack> {
    (k: seq<nat>) => if |k| == BLOCK + 1 then Meeting(r, Blocks(k, t), Blocks(k, t')) else {}
  }

  lemma MeetingIsStacked(r: nat, t: seq<nat>, t': seq<nat>)
    requires r > 0 && |t| > 1 && |t'| > 1
    ensures Meeting(r, t, t') == Stacked(Keys(), MeetingAfter(r - 1, t, t'))
  {
    hide Pow2, PyramidHash, Keys, AfterFirst, BlockCount, BlockHash;
    forall k, ks: Stack | k in Keys()
      ensures |k| == BLOCK + 1 && Blocks(k, t) != [] && AfterFirst([k] + ks, t) == AfterFirst(ks, Blocks(k, t))
      ensures Blocks(k, t') != [] && AfterFirst([k] + ks, t') == AfterFirst(ks, Blocks(k, t'))
    {
      KeyLength(k);
      AfterStep(k, ks, t);
      AfterStep(k, ks, t');
    }
  }

  /** A single word meets a longer string as that string hits the word. */
  lemma MeetingWord(r: nat, t: seq<nat>, t': seq<nat>)
    requires |t| == 1 && t' != []
    ensures Meeting(r, t, t') == Hitting(r, t', t[0]) == Meeting(r, t', t)
    ensures |t'| == 1 && !Same(t, t') ==> Meeting(r, t, t') == {}
  {
    hide Pow2, Stacks, PyramidHash, BlockCount;
    if |t'| == 1 { SameLength(t, t'); }
  }

  ghost predicate Within(t: seq<nat>, d: nat) {
    t != [] && Words(t) && (|t| > 1 ==> Depth(|t|) <= d)
  }

  lemma WithinNext(k: seq<nat>, t: seq<nat>, d: nat)
    requires |k| == BLOCK + 1 && Within(t, d) && |t| > 1
    ensures d > 0 && Within(Blocks(k, t), d - 1)
  {
    hide Pow2, Blocks, BlockCount, Depth, Words;
    DepthStep(|t|);
    BlocksAreWords(k, t);
  }

  /** Strings that differ by more than zeros at their ends collide for at most a fraction d / 2^32 of
      the keys, where d bounds the number of passes still to be made on either. */
  lemma {:induction false} MeetingIsRare(r: nat, t: seq<nat>, t': seq<nat>, d: nat)
    requires !Same(t, t') && Within(t, d) && Within(t', d) && d <= r
    ensures Times(|Meeting(r, t, t')|, H) <= Times(d, |Stacks(r)|)
    decreases r
  {
    hide Pow2, Pow, Times, Stacks, Stacked, Keys, Blocks, Meeting, MeetingAfter, Hitting, Depth, BlockCount, Words,
         Same, Confused;
    if |t| == 1 || |t'| == 1 {
      MeetingOfWord(r, t, t', d);
    } else {
      WithinPositive(t, d);
      var f := MeetingAfter(r - 1, t, t');
      MeetingIsStacked(r, t, t');
      ConfusedIsRare(t, t');
      ConfusedAreKeys(t, t');
      forall k ensures f(k) <= Stacks(r - 1) { MeetingAreStacks(r - 1, t, t', k); }
      forall k | k in Keys() - Confused(t, t') ensures Times(|f(k)|, H) <= Times(d - 1, |Stacks(r - 1)|) {
        KeyLength(k);
        WithinNext(k, t, d);
        WithinNext(k, t', d);
        NotConfused(k, t, t');
        MeetingIsRare(r - 1, Blocks(k, t), Blocks(k, t'), d - 1);
        AfterIs(r - 1, t, t', k);
      }
      PassBound(Confused(t, t'), f, r, d);
    }
  }

  lemma WithinPositive(t: seq<nat>, d: nat)
    requires Within(t, d) && |t| > 1
    ensures d > 0
  {
    hide Pow2, Words;
  }

  lemma MeetingAreStacks(r: nat, t: seq<nat>, t': seq<nat>, k: seq<nat>)
    ensures MeetingAfter(r, t, t')(k) <= Stacks(r)
  {
    hide Stacks, AfterFirst, Blocks;
  }

  lemma AfterIs(r: nat, t: seq<nat>, t': seq<nat>, k: seq<nat>)
    requires |k| == BLOCK + 1
    ensures MeetingAfter(r, t, t')(k) == Meeting(r, Blocks(k, t), Blocks(k, t'))
  {
    hide Meeting, Blocks;
  }

  lemma ConfusedAreKeys(t: seq<nat>, t': seq<nat>)
    ensures Confused(t, t') <= Keys()
  {
    hide Keys, Blocks, Same;
  }

  lemma NotConfused(k: seq<nat>, t: seq<nat>, t': seq<nat>)
    requires k in Keys() - Confused(t, t') && |k| == BLOCK + 1
    ensures !Same(Blocks(k, t), Blocks(k, t'))
  {
    hide Keys, Blocks, Same;
  }

  lemma MeetingOfWord(r: nat, t: seq<nat>, t': seq<nat>, d: nat)
    requires !Same(t, t') && Within(t, d) && Within(t', d) && d <= r && (|t| == 1 || |t'| == 1)
    ensures Times(|Meeting(r, t, t')|, H) <= Times(d, |Stacks(r)|)
  {
    hide Pow2, Times, Stacks, Meeting, Hitting, Depth, BlockCount, Same;
    ZeroTimes(H);
    OneTimes(|Stacks(r)|);
    if |t| == 1 {
      MeetingWord(r, t, t');
      if |t'| > 1 { HitWithin(r, t', t[0], d); }
    } else {
      MeetingWord(r, t', t);
      HitWithin(r, t, t'[0], d);
    }
  }

  lemma HitWithin(r: nat, t: seq<nat>, v: nat, d: nat)
    requires Within(t, d) && |t| > 1 && d <= r && v < H
    ensures Times(|Hitting(r, t, v)|, H) <= Times(d, |Stacks(r)|)
  {
    hide Pow2, Times, Stacks, Hitting, BlockCount, Words;
    HittingIsRare(r, t, v);
    OneTimes(|Stacks(r)|);
    MoreTimes(1, d, |Stacks(r)|);
  }

  // -------------------------------------------------------------------------------------------
  // The hash with its four hashers and its 32-bit lengths.

  /** The strings that get a hash. */
  predicate Hashed(s: seq<nat>) {
    s != [] && |s| <= LENGTHS - BLOCK
  }

  /** The keys of the four hashers under which two strings collide. */
  ghost function Colliding(s: seq<nat>, s': seq<nat>): set<Stack> {
    set ks | ks in Stacks(4) && ks != [] && |ks[0]| == BLOCK + 1 && HashOf(ks, s) == HashOf(ks, s')
  }

  /** What the passes lose whatever the keys: zeros at the end of the last block, and all characters of
      a string whose length is negative as a signed number. */
  ghost predicate Indistinct(s: seq<nat>, s': seq<nat>) {
    if |s| < SIGNED_LENGTHS && |s'| < SIGNED_LENGTHS then Same(s, s')
    else |s| >= SIGNED_LENGTHS && |s'| >= SIGNED_LENGTHS && BlockCount(BlockCount(|s|)) == BlockCount(BlockCount(|s'|))
  }

  ghost function FirstMeeting(s: seq<nat>, s': seq<nat>): seq<nat> -> set<Stack> {
    (k: seq<nat>) => if |k| == BLOCK + 1 then Meeting(3, FirstPass(k, s), FirstPass(k, s')) else {}
  }

  lemma CollidingIsStacked(s: seq<nat>, s': seq<nat>)
    requires Hashed(s) && Hashed(s')
    ensures Colliding(s, s') == Stacked(Keys(), FirstMeeting(s, s'))
  {
    hide Pow2, Keys, AfterFirst, FirstPass;
    forall k, ks: Stack | k in Keys()
      ensures |k| == BLOCK + 1 && ([k] + ks)[1..] == ks
    {
      KeyLength(k);
    }
    FourStacks();
    BlocksOfHashed(s);
    BlocksOfHashed(s');
    hide Stacks, BlockCount;
  }

  lemma FourStacks()
    ensures Stacks(4) == Stacked(Keys(), (k: seq<nat>) => Stacks(3))
  {
    hide Stacked, Keys;
  }

  lemma BlocksOfHashed(s: seq<nat>)
    requires Hashed(s)
    ensures BlockCount(|s|) > 0
  {
  }

  ghost function FirstConfused(s: seq<nat>, s': seq<nat>): set<seq<nat>> {
    set k | k in Keys() && |k| == BLOCK + 1 && Same(FirstPass(k, s), FirstPass(k, s'))
  }

  lemma LongIsZeros(k: seq<nat>, s: seq<nat>, i: nat)
    requires |k| == BLOCK + 1 && |s| >= SIGNED_LENGTHS
    ensures Char(FirstPass(k, s), i) == 0
  {
    hide Blocks;
  }

  lemma MixedIsLeaving(s: seq<nat>, s': seq<nat>)
    requires |s'| < SIGNED_LENGTHS <= |s| && s' != []
    ensures BlockCount(|s'|) > 0 && FirstConfused(s, s') <= Leaving(s', 0, 0)
            && FirstConfused(s', s) == FirstConfused(s, s')
  {
    hide Pow2, BlockHash, Buffers;
    forall k | k in FirstConfused(s, s') ensures BlockHash(k, s', 0) == 0 {
      LongIsZeros(k, s, 0);
      assert Char(FirstPass(k, s), 0) == Char(FirstPass(k, s'), 0);
    }
  }

  lemma FirstConfusedIsRare(s: seq<nat>, s': seq<nat>)
    requires !Indistinct(s, s') && s != [] && s' != [] && Words(s) && Words(s')
    ensures |FirstConfused(s, s')| * H <= Pow(M, BLOCK + 1)
  {
    hide Pow2, Pow, BlockCount, FirstConfused, Words, Same, Leaving, Confused;
    HIsLarge();
    if |s| < SIGNED_LENGTHS && |s'| < SIGNED_LENGTHS {
      ShortConfused(s, s');
      ConfusedIsRare(s, s');
    } else if |s'| < SIGNED_LENGTHS {
      MixedIsLeaving(s, s');
      LeavingBounds(FirstConfused(s, s'), s', 0, 0);
    } else if |s| < SIGNED_LENGTHS {
      MixedIsLeaving(s', s);
      LeavingBounds(FirstConfused(s, s'), s, 0, 0);
    } else {
      LongApart(s, s');
      assert |FirstConfused(s, s')| == 0;
    }
  }

  lemma ShortConfused(s: seq<nat>, s': seq<nat>)
    requires |s| < SIGNED_LENGTHS && |s'| < SIGNED_LENGTHS
    ensures FirstConfused(s, s') == Confused(s, s')
  {
    hide Keys, Blocks, Same;
  }

  lemma LongApart(s: seq<nat>, s': seq<nat>)
    requires |s| >= SIGNED_LENGTHS && |s'| >= SIGNED_LENGTHS && !Indistinct(s, s')
    ensures FirstConfused(s, s') == {}
  {
    hide Keys, Blocks;
  }

  lemma FirstConfusedAreKeys(s: seq<nat>, s': seq<nat>)
    ensures FirstConfused(s, s') <= Keys()
    ensures forall k :: k in Keys() - FirstConfused(s, s') && |k| == BLOCK + 1 ==>
            !Same(FirstPass(k, s), FirstPass(k, s'))
  {
    hide Keys, FirstPass, Same;
  }

  lemma FirstWithin(k: seq<nat>, s: seq<nat>, d: nat)
    requires |k| == BLOCK + 1 && s != [] && Depth(|s|) <= d
    ensures d > 0 && Within(FirstPass(k, s), d - 1)
  {
    hide Pow2, Blocks, BlockCount, Depth;
    DepthStep(|s|);
    BlocksAreWords(k, s);
    HIsLarge();
  }

  lemma FirstMeetingIs(s: seq<nat>, s': seq<nat>, k: seq<nat>)
    ensures FirstMeeting(s, s')(k) <= Stacks(3)
    ensures |k| == BLOCK + 1 ==> FirstMeeting(s, s')(k) == Meeting(3, FirstPass(k, s), FirstPass(k, s'))
  {
    hide Stacks, AfterFirst, FirstPass;
  }

  /** Two strings that are not indistinct collide for at most a fraction d / 2^32 of the keys, with d
      the larger number of passes. */
  lemma CollisionsAreRare(s: seq<nat>, s': seq<nat>, d: nat)
    requires Hashed(s) && Hashed(s') && Words(s) && Words(s') && !Indistinct(s, s')
    requires Depth(|s|) <= d <= 4 && Depth(|s'|) <= d
    ensures Times(|Colliding(s, s')|, H) <= Times(d, |Stacks(4)|)
  {
    hide Pow2, Pow, Times, Stacks, Stacked, Keys, FirstPass, Meeting, FirstMeeting, Depth, BlockCount, Words, Same,
         FirstConfused, Indistinct, Within, Colliding;
    CollidingIsStacked(s, s');
    FirstConfusedIsRare(s, s');
    FirstConfusedAreKeys(s, s');
    var f := FirstMeeting(s, s');
    forall k ensures f(k) <= Stacks(3) { FirstMeetingIs(s, s', k); }
    forall k | k in Keys() - FirstConfused(s, s') ensures Times(|f(k)|, H) <= Times(d - 1, |Stacks(3)|) {
      KeyLength(k);
      FirstWithin(k, s, d);
      FirstWithin(k, s', d);
      MeetingIsRare(3, FirstPass(k, s), FirstPass(k, s'), d - 1);
      FirstMeetingIs(s, s', k);
    }
    PassBound(FirstConfused(s, s'), f, 4, d);
  }

  lemma SameMeets(ks: Stack, t: seq<nat>, t': seq<nat>)
    requires Same(t, t') && t != [] && t' != []
    requires |t| == |t'| || (|t| > 1 && |t'| > 1 && ks != [] && |ks[0]| == BLOCK + 1)
    ensures AfterFirst(ks, t) == AfterFirst(ks, t')
  {
    hide BlockCount, Blocks;
    if |t| == |t'| { SameLength(t, t'); } else { SameBlocks(ks[0], t, t'); }
  }

  lemma TopOfStack(r: nat, ks: Stack)
    requires ks in Stacks(r)
    ensures |ks| == r && (r > 0 ==> |ks[0]| == BLOCK + 1 && ks[1..] in Stacks(r - 1))
    decreases r
  {
    hide Keys, Pow2;
    if r > 0 {
      var k, rest :| k in Keys() && rest in Stacks(r - 1) && ks == [k] + rest;
      KeyLength(k);
      TopOfStack(r - 1, rest);
      assert ks[1..] == rest;
    }
  }

  lemma IndistinctMeet(ks: Stack, s: seq<nat>, s': seq<nat>)
    requires Hashed(s) && Hashed(s') && Indistinct(s, s') && ks in Stacks(4)
    ensures ks != [] && |ks[0]| == BLOCK + 1 && HashOf(ks, s) == HashOf(ks, s')
  {
    hide Stacks, Blocks, Same, AfterFirst, Char;
    TopOfStack(4, ks);
    TopOfStack(3, ks[1..]);
    var t, t' := FirstPass(ks[0], s), FirstPass(ks[0], s');
    if |s| < SIGNED_LENGTHS {
      SameBlocks(ks[0], s, s');
    } else {
      ZerosAreSame(ks[0], s, s');
      SameMeets(ks[1..], t, t');
    }
  }

  lemma ZerosAreSame(k: seq<nat>, s: seq<nat>, s': seq<nat>)
    requires |k| == BLOCK + 1 && |s| >= SIGNED_LENGTHS && |s'| >= SIGNED_LENGTHS && Indistinct(s, s')
    ensures Same(FirstPass(k, s), FirstPass(k, s')) && BlockCount(|s|) > 1 && BlockCount(|s'|) > 1
  {
    hide Blocks;
  }

  lemma AllCollide(s: seq<nat>, s': seq<nat>)
    requires Hashed(s) && Hashed(s') && Indistinct(s, s')
    ensures Colliding(s, s') == Stacks(4)
  {
    hide Stacks, Indistinct, HashOf;
    forall ks ensures ks in Colliding(s, s') <==> ks in Stacks(4) {
      if ks in Stacks(4) { IndistinctMeet(ks, s, s'); }
    }
  }

  /** Main result, for all strings that get a hash: the bound of 4 / 2^32 holds exactly for those that
      are not indistinct, and the others collide for all keys. */
  lemma AlmostUniversalExactly(s: seq<nat>, s': seq<nat>)
    requires Hashed(s) && Hashed(s') && Words(s) && Words(s')
    ensures Times(|Colliding(s, s')|, H) <= Times(4, |Stacks(4)|) <==> !Indistinct(s, s')
    ensures Indistinct(s, s') ==> Colliding(s, s') == Stacks(4)
    ensures |Stacks(4)| == Pow(Pow(M, BLOCK + 1), 4)
  {
    hide Pow2, Pow, Times, Stacks, Depth, Words, Indistinct, Colliding;
    StackTotal(4);
    if Indistinct(s, s') {
      AllCollide(s, s');
      MIsPositive();
      PowPositive(M, BLOCK + 1);
      PowPositive(Pow(M, BLOCK + 1), 4);
      AllIsTooMany(|Stacks(4)|);
    } else {
      FourHashersSuffice(|s|);
      FourHashersSuffice(|s'|);
      CollisionsAreRare(s, s', 4);
    }
  }

  lemma AllIsTooMany(n: nat)
    requires n > 0
    ensures Times(n, H) > Times(4, n)
  {
    hide Pow2;
    HIsLarge();
    ScaleUp(5, H, n);
  }

  /** The documented bound for the strings of length n. */
  ghost predicate BoundHolds(n: nat) {
    forall s: seq<nat>, s': seq<nat> :: |s| == |s'| == n && Words(s) && Words(s') && s != s' ==>
      Hashed(s) && Times(|Colliding(s, s')|, H) <= Times(4, |Stacks(4)|)
  }

  /** Of the 32-bit lengths it is documented for, it holds exactly for those of 31 bits. */
  lemma BoundHoldsUpTo31Bits(n: nat)
    requires 0 < n < 0x1_0000_0000
    ensures BoundHolds(n) <==> n < 0x8000_0000
  {
    hide Pow2, Pow, Times, Stacks, Words, Indistinct, Colliding;
    if n < SIGNED_LENGTHS {
      forall s: seq<nat>, s': seq<nat> | |s| == |s'| == n && Words(s) && Words(s') && s != s'
        ensures Hashed(s) && Times(|Colliding(s, s')|, H) <= Times(4, |Stacks(4)|)
      {
        ShortDistinct(s, s');
        AlmostUniversalExactly(s, s');
      }
    } else {
      var s, s' := LongPair(n);
      if Hashed(s) { AlmostUniversalExactly(s, s'); }
    }
  }

  lemma ShortDistinct(s: seq<nat>, s': seq<nat>)
    requires |s| == |s'| < SIGNED_LENGTHS && s != s'
    ensures !Indistinct(s, s')
  {
    hide Same;
    SameLength(s, s');
  }

  lemma LongPair(n: nat) returns (s: seq<nat>, s': seq<nat>)
    requires n >= SIGNED_LENGTHS
    ensures |s| == |s'| == n && Words(s) && Words(s') && s != s' && Indistinct(s, s')
  {
    hide Pow2, Same;
    HIsLarge();
    s, s' := seq(n, i => 0), seq(n, i => 1);
    assert s[0] != s'[0];
  }
}
