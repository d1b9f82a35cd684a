/** PyramidalMultilinear: blocks of 256 characters are hashed level by level until one word is left. */
module Pyramid {
  import opened Optional
  import opened Bits
  import opened Counting
  import opened Residues
  import opened AffineKeys
  import opened Multilinear

  const BLOCK: nat := 256

  /** The number of blocks, the last of which may be short. */
  function BlockCount(n: nat): (k: nat)
    ensures n > 0 ==> (k - 1) * BLOCK < n <= k * BLOCK
    ensures n > 0 ==> 0 < k <= n
  {
    (n + BLOCK - 1) / BLOCK
  }

  function Min(a: nat, b: nat): nat {
    if a < b then a else b
  }

  function Block(s: seq<nat>, j: nat): (t: seq<nat>)
    requires j < BlockCount(|s|)
    ensures 0 < |t| <= BLOCK
  {
    s[j * BLOCK..Min((j + 1) * BLOCK, |s|)]
  }

  predicate IsKeys(keys: seq<nat>) {
    |keys| == BLOCK + 1 && forall i :: 0 <= i < |keys| ==> keys[i] < M
  }

  function BlockHash(keys: seq<nat>, s: seq<nat>, j: nat): nat
    requires |keys| == BLOCK + 1 && j < BlockCount(|s|)
  {
    StrongHash(keys[..|Block(s, j)| + 1], Block(s, j))
  }

  /** One pass: every block is replaced by its hash. */
  function Blocks(keys: seq<nat>, s: seq<nat>): (t: seq<nat>)
    requires |keys| == BLOCK + 1
    ensures |t| == BlockCount(|s|)
  {
    seq(BlockCount(|s|), j requires 0 <= j < BlockCount(|s|) => BlockHash(keys, s, j))
  }

  /** The passes until one word is left, with the hashers in order. */
  function PyramidHash(hashers: seq<seq<nat>>, s: seq<nat>): nat
    requires s != []
    decreases |hashers|
  {
    if hashers == [] || |hashers[0]| != BLOCK + 1 then 0
    else
      var t := Blocks(hashers[0], s);
      if |t| == 1 then t[0] else PyramidHash(hashers[1..], t)
  }

  /** The number of passes. */
  function Depth(n: nat): (d: nat)
    ensures d > 0
  {
    if BlockCount(n) <= 1 then 1 else 1 + Depth(BlockCount(n))
  }

  /** k passes are enough just for strings of at most 256 to the k characters. */
  lemma {:induction false} DepthIs(n: nat, k: nat)
    requires n > 0 && k > 0
    ensures Depth(n) <= k <==> n <= Pow(BLOCK, k)
    decreases k
  {
    var b := BlockCount(n);
    assert Pow(BLOCK, k) == BLOCK * Pow(BLOCK, k - 1);
    if k == 1 {
      assert Pow(BLOCK, 0) == 1;
    } else if b > 1 {
      DepthIs(b, k - 1);
      BlocksFit(n, Pow(BLOCK, k - 1));
    } else {
      PowPositive(BLOCK, k - 1);
    }
  }

  lemma BlocksFit(n: nat, p: nat)
    requires n > 0
    ensures BlockCount(n) <= p <==> n <= BLOCK * p
  {
  }

  /** The four hashers suffice exactly for strings of at most 2 to the 32 characters. */
  lemma FourHashersSuffice(n: nat)
    requires n > 0
    ensures Depth(n) <= 4 <==> n <= 0x1_0000_0000
  {
    hide Depth, Pow;
    PowersOfBlock();
    DepthIs(n, 4);
  }

  lemma PowersOfBlock()
    ensures Pow(BLOCK, 4) == 0x1_0000_0000
  {
    assert Pow(BLOCK, 1) == 256;
    assert Pow(BLOCK, 2) == 65536;
    assert Pow(BLOCK, 3) == 16777216;
  }

  // -------------------------------------------------------------------------------------------
  // Lengths of 32 bits.

  const LENGTHS: nat := 0x1_0000_0000
  const SIGNED_LENGTHS: nat := 0x8000_0000

  /** A pass takes the length as a signed number. */
  function Signed(n: nat): int {
    if n < SIGNED_LENGTHS then n else n - LENGTHS
  }

  /** Division that truncates towards zero. */
  function Quotient(a: int, b: nat): int
    requires b > 0
  {
    if a < 0 then -(-a / b) else a / b
  }

  /** The size of the buffer for a pass, in 32-bit arithmetic. */
  function BufferSize(n: nat): nat {
    (n + BLOCK - 1) % LENGTHS / BLOCK
  }

  /** It is the number of blocks up to the last 255 lengths, for which the sum wraps around. */
  lemma BufferSizeIs(n: nat)
    requires n < LENGTHS
    ensures BufferSize(n) == if n <= LENGTHS - BLOCK then BlockCount(n) else 0
    ensures n <= LENGTHS - BLOCK ==> BlockCount(n) <= 0x100_0000
  {
  }

  /** The first pass. A length beyond 31 bits is negative there: the buffer keeps its zeros. */
  function FirstPass(keys: seq<nat>, s: seq<nat>): (t: seq<nat>)
    requires |keys| == BLOCK + 1
    ensures |t| == BlockCount(|s|)
  {
    if |s| < SIGNED_LENGTHS then Blocks(keys, s) else seq(BlockCount(|s|), j => 0)
  }

  /** The hash, given what the first pass left. */
  function AfterFirst(hashers: seq<seq<nat>>, t: seq<nat>): nat
    requires t != []
  {
    if |t| == 1 then t[0] else PyramidHash(hashers, t)
  }

  /** The hash of a string, None where the code reads the front of an empty buffer. */
  function HashOf(hashers: seq<seq<nat>>, s: seq<nat>): Option<nat>
    requires hashers != [] && |hashers[0]| == BLOCK + 1
  {
    if s == [] || |s| > LENGTHS - BLOCK then None
    else Some(AfterFirst(hashers[1..], FirstPass(hashers[0], s)))
  }

  lemma PyramidStep(k: seq<nat>, ks: seq<seq<nat>>, s: seq<nat>)
    requires s != [] && |k| == BLOCK + 1
    ensures Blocks(k, s) != [] && PyramidHash([k] + ks, s) == AfterFirst(ks, Blocks(k, s))
  {
    assert ([k] + ks)[1..] == ks;
  }

  // -------------------------------------------------------------------------------------------
  // The loops.

  lemma FullBlock(s: seq<nat>, j: nat)
    requires j < |s| / BLOCK
    ensures j < BlockCount(|s|) && Block(s, j) == s[j * BLOCK..j * BLOCK + BLOCK]
  {
  }

  lemma ShortBlock(s: seq<nat>)
    requires |s| % BLOCK > 0
    ensures var j := |s| / BLOCK; j + 1 == BlockCount(|s|) && Block(s, j) == s[j * BLOCK..]
  {
  }

  lemma NoShortBlock(n: nat)
    requires n % BLOCK == 0
    ensures BlockCount(n) == n / BLOCK
  {
  }

  /** One pass over the input into the output, with the short block last; nothing if the length is
      negative. */
  method HashMulti(input: seq<nat>, output: array<nat>, length: int, keys: seq<nat>)
    requires IsKeys(keys) && (length >= 0 ==> length == |input| && output.Length == BlockCount(|input|))
    modifies output
    ensures output[..] == if length >= 0 then Blocks(keys, input) else old(output[..])
  {
    hide BlockCount, Block, BlockHash;
    var full := Quotient(length, BLOCK);
    var offset := length - full * BLOCK;
    if offset > 0 { ShortBlock(input); } else if length >= 0 { NoShortBlock(|input|); }
    var bufferpos := 0;
    while bufferpos < full
      invariant bufferpos == 0 || bufferpos <= full
      invariant forall j :: 0 <= j < bufferpos ==> output[j] == BlockHash(keys, input, j)
      invariant bufferpos == 0 ==> output[..] == old(output[..])
    {
      FullBlock(input, bufferpos);
      var h := Hash(keys, input[bufferpos * BLOCK..bufferpos * BLOCK + BLOCK]);
      BlockHashIs(keys, input, bufferpos);
      output[bufferpos] := h;
      bufferpos := bufferpos + 1;
    }
    if offset > 0 {
      var h := Hash(keys, input[full * BLOCK..]);
      BlockHashIs(keys, input, full);
      output[full] := h;
    }
  }

  lemma BlockHashIs(keys: seq<nat>, s: seq<nat>, j: nat)
    requires |keys| == BLOCK + 1 && j < BlockCount(|s|)
    ensures BlockHash(keys, s, j) == StrongHash(keys[..|Block(s, j)| + 1], Block(s, j))
  {
  }

  predicate FourHashers(hashers: seq<seq<nat>>) {
    |hashers| == 4 && IsKeys(hashers[0]) && IsKeys(hashers[1]) && IsKeys(hashers[2]) && IsKeys(hashers[3])
  }

  /** The whole hash: the first pass, then passes until one word is left. */
  method PyramidalHash(hashers: seq<seq<nat>>, s: seq<nat>) returns (h: Option<nat>)
    requires FourHashers(hashers) && |s| < LENGTHS
    ensures h == HashOf(hashers, s)
  {
    hide BlockCount, BufferSize, Blocks, PyramidHash, Depth;
    BufferSizeIs(|s|);
    var newlength := BufferSize(|s|);
    var buffer := new nat[newlength](j => 0);
    var level := 0;
    HashMulti(s, buffer, Signed(|s|), hashers[level]);
    var length := newlength;
    EmptyBuffer(|s|);
    if length == 0 {
      return None;
    }
    PassShrinks(|s|);
    FourHashersSuffice(|s|);
    assert buffer[..] == FirstPass(hashers[0], s);
    while length > 1
      invariant 0 < length == buffer.Length <= 0x100_0000 && level < 4 && (length > 1 ==> level + Depth(length) < 4)
      invariant AfterFirst(hashers[level + 1..], buffer[..]) == AfterFirst(hashers[1..], FirstPass(hashers[0], s))
      decreases length
    {
      BufferSizeIs(length);
      PassShrinks(length);
      newlength := BufferSize(length);
      level := level + 1;
      var newbuffer := new nat[newlength](j => 0);
      HashMulti(buffer[..], newbuffer, Signed(length), hashers[level]);
      OnePass(hashers, level, buffer[..]);
      buffer := newbuffer;
      length := newlength;
    }
    return Some(buffer[0]);
  }

  lemma EmptyBuffer(n: nat)
    requires n < LENGTHS
    ensures BufferSize(n) == 0 <==> n == 0 || n > LENGTHS - BLOCK
  {
  }

  /** There is a hash exactly if the size of the first buffer, a sum of 32 bits by 256, is not 0. */
  lemma HasFront(hashers: seq<seq<nat>>, s: seq<nat>)
    requires FourHashers(hashers) && |s| < 0x1_0000_0000
    ensures HashOf(hashers, s).Some? <==> (|s| + 255) % 0x1_0000_0000 / 256 > 0
  {
    hide FirstPass, AfterFirst;
  }

  lemma PassShrinks(n: nat)
    requires n > 0
    ensures 0 < BlockCount(n) <= n && (n > 1 ==> BlockCount(n) < n)
    ensures Depth(n) == if BlockCount(n) == 1 then 1 else 1 + Depth(BlockCount(n))
  {
  }

  lemma OnePass(hashers: seq<seq<nat>>, level: nat, s: seq<nat>)
    requires s != [] && level < |hashers| && |hashers[level]| == BLOCK + 1
    ensures var t := Blocks(hashers[level], s);
            t != [] && PyramidHash(hashers[level..], s) == AfterFirst(hashers[level + 1..], t)
  {
    assert hashers[level..][1..] == hashers[level + 1..];
  }
}
