/** Exact counting: sums and counts over ranges, and the number of key buffers with a property. */
module Counting {

  function Sum(n: nat, f: nat -> nat): nat {
    if n == 0 then 0 else Sum(n - 1, f) + f(n - 1)
  }

  /** How many of 0 .. n - 1 have the property. */
  function Count(n: nat, p: nat -> bool): nat {
    if n == 0 then 0 else Count(n - 1, p) + if p(n - 1) then 1 else 0
  }

  function Pow(b: nat, k: nat): nat {
    if k == 0 then 1 else b * Pow(b, k - 1)
  }

  lemma {:induction false} SubsetSize<T>(a: set<T>, b: set<T>)
    requires a <= b
    ensures |a| <= |b|
  {
    if a != {} {
      var x :| x in a;
      SubsetSize(a - {x}, b - {x});
    }
  }

  lemma {:induction false} PowPositive(b: nat, k: nat)
    requires b > 0
    ensures Pow(b, k) > 0
  {
    if k > 0 { PowPositive(b, k - 1); }
  }

  lemma {:induction false} SumSame(n: nat, f: nat -> nat, g: nat -> nat)
    requires forall i: nat :: i < n ==> f(i) == g(i)
    ensures Sum(n, f) == Sum(n, g)
  {
    if n > 0 { SumSame(n - 1, f, g); }
  }

  lemma {:induction false} CountSame(n: nat, p: nat -> bool, q: nat -> bool)
    requires forall i: nat :: i < n ==> p(i) == q(i)
    ensures Count(n, p) == Count(n, q)
  {
    if n > 0 { CountSame(n - 1, p, q); }
  }

  lemma {:induction false} SumConst(n: nat, f: nat -> nat, c: nat)
    requires forall i: nat :: i < n ==> f(i) == c
    ensures Sum(n, f) == n * c
  {
    if n > 0 { SumConst(n - 1, f, c); }
  }

  lemma {:induction false} SumScaled(n: nat, f: nat -> nat, g: nat -> nat, c: nat)
    requires forall i: nat :: i < n ==> f(i) == c * g(i)
    ensures Sum(n, f) == c * Sum(n, g)
  {
    if n > 0 { SumScaled(n - 1, f, g, c); }
  }

  /** Summing a constant over the indices with a property. */
  lemma {:induction false} SumWhere(n: nat, f: nat -> nat, p: nat -> bool, c: nat)
    requires forall i: nat :: i < n ==> f(i) == if p(i) then c else 0
    ensures Sum(n, f) == Count(n, p) * c
  {
    if n > 0 { SumWhere(n - 1, f, p, c); }
  }

  lemma {:induction false} SumPlus(n: nat, f: nat -> nat, g: nat -> nat, h: nat -> nat)
    requires forall i: nat :: i < n ==> h(i) == f(i) + g(i)
    ensures Sum(n, h) == Sum(n, f) + Sum(n, g)
  {
    if n > 0 { SumPlus(n - 1, f, g, h); }
  }

  lemma {:induction false} SumOfIndicator(n: nat, f: nat -> nat, p: nat -> bool)
    requires forall i: nat :: i < n ==> f(i) == if p(i) then 1 else 0
    ensures Sum(n, f) == Count(n, p)
  {
    if n > 0 { SumOfIndicator(n - 1, f, p); }
  }

  function Row(p: (nat, nat) -> bool, i: nat): nat -> bool {
    (j: nat) => p(i, j)
  }

  function Column(p: (nat, nat) -> bool, j: nat): nat -> bool {
    (i: nat) => p(i, j)
  }

  function RowCounts(p: (nat, nat) -> bool, m: nat): nat -> nat {
    (i: nat) => Count(m, Row(p, i))
  }

  function ColumnCounts(p: (nat, nat) -> bool, n: nat): nat -> nat {
    (j: nat) => Count(n, Column(p, j))
  }

  /** Counting pairs by rows or by columns gives the same number. */
  lemma {:induction false} CountSwap(n: nat, m: nat, p: (nat, nat) -> bool)
    ensures Sum(n, RowCounts(p, m)) == Sum(m, ColumnCounts(p, n))
    decreases m
  {
    if m == 0 {
      SumConst(n, RowCounts(p, m), 0);
    } else {
      CountSwap(n, m - 1, p);
      var last := (i: nat) => if p(i, m - 1) then 1 else 0;
      SumPlus(n, RowCounts(p, m - 1), last, RowCounts(p, m));
      SumOfIndicator(n, last, Column(p, m - 1));
    }
  }

  // -------------------------------------------------------------------------------------------
  // Buffers of n keys below m.

  function Buffers(n: nat, m: nat): set<seq<nat>> {
    if n == 0 then {[]} else set b, k | b in Buffers(n - 1, m) && k in Below(m) :: b + [k]
  }

  function Below(m: nat): (s: set<nat>)
    ensures forall k: nat :: k in s <==> k < m
  {
    if m == 0 then {} else Below(m - 1) + {m - 1}
  }

  /** Exactly the sequences of n keys below m. */
  lemma {:induction false} BuffersAre(n: nat, m: nat, b: seq<nat>)
    ensures b in Buffers(n, m) <==> |b| == n && forall i :: 0 <= i < n ==> b[i] < m
  {
    if n > 0 {
      if |b| > 0 {
        var init, k := b[..|b| - 1], b[|b| - 1];
        assert b == init + [k];
        BuffersAre(n - 1, m, init);
      }
      if b in Buffers(n, m) {
        var c, k :| c in Buffers(n - 1, m) && k in Below(m) && b == c + [k];
        BuffersAre(n - 1, m, c);
      }
    }
  }

  ghost function Having(n: nat, m: nat, p: seq<nat> -> bool): set<seq<nat>> {
    set b | b in Buffers(n, m) && p(b)
  }

  function With(p: seq<nat> -> bool, k: nat): seq<nat> -> bool {
    (b: seq<nat>) => p(b + [k])
  }

  ghost function Fibres(n: nat, m: nat, p: seq<nat> -> bool): nat -> nat {
    (k: nat) => |Having(n, m, With(p, k))|
  }

  /** The buffers with the property whose last key is below t. */
  ghost function Part(n: nat, m: nat, p: seq<nat> -> bool, t: nat): set<seq<nat>> {
    set b | b in Buffers(n + 1, m) && p(b) && |b| == n + 1 && b[n] < t
  }

  ghost function Extended(s: set<seq<nat>>, k: nat): set<seq<nat>> {
    set b | b in s :: b + [k]
  }

  lemma {:induction false} ExtendedSize(s: set<seq<nat>>, k: nat)
    ensures |Extended(s, k)| == |s|
  {
    if s != {} {
      var b :| b in s;
      ExtendedSize(s - {b}, k);
      assert Extended(s, k) == Extended(s - {b}, k) + {b + [k]};
      forall c | c in s - {b} ensures c + [k] != b + [k] {
        assert (c + [k])[..|c|] == c && (b + [k])[..|b|] == b;
      }
    }
  }

  lemma {:induction false} PartSize(n: nat, m: nat, p: seq<nat> -> bool, t: nat)
    requires t <= m
    ensures |Part(n, m, p, t)| == Sum(t, Fibres(n, m, p))
    decreases t
  {
    hide Part, Extended, Having, Fibres, Buffers;
    if t == 0 {
      PartEmpty(n, m, p);
    } else {
      var k := t - 1;
      PartSize(n, m, p, k);
      var more := Extended(Having(n, m, With(p, k)), k);
      ExtendedSize(Having(n, m, With(p, k)), k);
      forall b ensures b in Part(n, m, p, t) <==> b in Part(n, m, p, k) || b in more { PartSplit(n, m, p, k, b); }
      forall b | b in more ensures b !in Part(n, m, p, k) { PartApart(n, m, p, k, b); }
      assert Part(n, m, p, t) == Part(n, m, p, k) + more;
      FibreIs(n, m, p, k);
    }
  }

  lemma PartEmpty(n: nat, m: nat, p: seq<nat> -> bool)
    ensures Part(n, m, p, 0) == {}
  {
  }

  lemma FibreIs(n: nat, m: nat, p: seq<nat> -> bool, k: nat)
    ensures Fibres(n, m, p)(k) == |Having(n, m, With(p, k))|
  {
  }

  lemma PartApart(n: nat, m: nat, p: seq<nat> -> bool, k: nat, b: seq<nat>)
    requires b in Extended(Having(n, m, With(p, k)), k)
    ensures b !in Part(n, m, p, k)
  {
    var c :| c in Having(n, m, With(p, k)) && b == c + [k];
    BuffersAre(n, m, c);
  }

  lemma PartSplit(n: nat, m: nat, p: seq<nat> -> bool, k: nat, b: seq<nat>)
    requires k < m
    ensures b in Part(n, m, p, k + 1) <==> b in Part(n, m, p, k) || b in Extended(Having(n, m, With(p, k)), k)
  {
    BuffersAre(n + 1, m, b);
    if |b| == n + 1 {
      var c := b[..n];
      BuffersAre(n, m, c);
      assert b == c + [b[n]];
    }
    if b in Extended(Having(n, m, With(p, k)), k) {
      var c :| c in Having(n, m, With(p, k)) && b == c + [k];
      BuffersAre(n, m, c);
    }
  }

  /** Counting buffers by their last key. */
  lemma CountByLastKey(n: nat, m: nat, p: seq<nat> -> bool)
    ensures |Having(n + 1, m, p)| == Sum(m, Fibres(n, m, p))
  {
    PartSize(n, m, p, m);
    forall b ensures b in Having(n + 1, m, p) <==> b in Part(n, m, p, m) { BuffersAre(n + 1, m, b); }
    assert Having(n + 1, m, p) == Part(n, m, p, m);
  }

  /** Of buffers of one key, counting is counting keys. */
  lemma {:induction false} CountSingles(m: nat, p: seq<nat> -> bool)
    ensures |Having(1, m, p)| == Count(m, (k: nat) => p([k]))
  {
    CountByLastKey(0, m, p);
    forall k: nat | k < m ensures Fibres(0, m, p)(k) == if p([k]) then 1 else 0 {
      assert [] + [k] == [k];
      assert Having(0, m, With(p, k)) == if p([k]) then {[]} else {};
    }
    SumOfIndicator(m, Fibres(0, m, p), (k: nat) => p([k]));
  }
}
