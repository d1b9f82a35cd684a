/** Bloom signatures: bits in a byte buffer. They never miss an address two signatures share, so the
    detector reports on filters whenever it reports on the exact address sets. */
module BloomFilters {
  import opened Optional
  import opened Bits
  import opened Clocks
  import opened Detection

  const CHAR_BIT: nat := 8

  type HashFunc = nat -> nat

  /** Setting a bit. */
  lemma {:induction false} BitOfOr(x: nat, i: nat, j: nat)
    ensures Bit(Or(x, Pow2(i)), j) <==> Bit(x, j) || i == j
    decreases j
  {
    PowHalf(i);
    OrHalf(x, Pow2(i));
    if j > 0 {
      ShiftOfZero(j);
      ShiftOfZero(j - 1);
      if i > 0 {
        BitOfOr(x / 2, i - 1, j - 1);
      } else {
        OrNothing(x / 2, 0);
      }
    }
  }

  lemma PowHalf(i: nat)
    ensures Pow2(i) / 2 == (if i == 0 then 0 else Pow2(i - 1)) && (Pow2(i) % 2 == 1 <==> i == 0)
  {
  }

  /** Two bytes have a bit in common just when their conjunction is not 0. */
  lemma {:induction false} CommonBit(x: nat, y: nat, k: nat)
    requires x < Pow2(k)
    ensures And(x, y) != 0 <==> exists i: nat :: i < k && Bit(x, i) && Bit(y, i)
    decreases k
  {
    AndHalf(x, y);
    if k == 0 {
      assert And(x, y) == 0;
    } else {
      CommonBit(x / 2, y / 2, k - 1);
      forall i: nat | i < k - 1 ensures Bit(x / 2, i) == Bit(x, i + 1) && Bit(y / 2, i) == Bit(y, i + 1) { }
      if And(x, y) != 0 {
        if And(x, y) % 2 == 1 {
          assert Bit(x, 0) && Bit(y, 0);
        } else {
          var i: nat :| i < k - 1 && Bit(x / 2, i) && Bit(y / 2, i);
          assert Bit(x, i + 1) && Bit(y, i + 1);
        }
      }
      if i: nat :| i < k && Bit(x, i) && Bit(y, i) {
        if i > 0 { assert Bit(x / 2, i - 1) && Bit(y / 2, i - 1); }
      }
    }
  }

  lemma {:induction false} BitByMask(x: nat, i: nat)
    ensures And(x, Pow2(i)) != 0 <==> Bit(x, i)
    decreases i
  {
    AndHalf(x, Pow2(i));
    PowHalf(i);
    if i > 0 { BitByMask(x / 2, i - 1); }
  }

  lemma {:induction false} OrFits(x: nat, y: nat, k: nat)
    requires x < Pow2(k) && y < Pow2(k)
    ensures Or(x, y) < Pow2(k)
    decreases k
  {
    LenFits(x, k);
    LenFits(y, k);
    LenOr(x, y);
    LenFits(Or(x, y), k);
  }

  type Byte = x: nat | x < 256

  /** The bits an address sets. */
  function Locations(funcs: seq<HashFunc>, size: nat, a: nat): set<nat>
    requires size > 0
  {
    FirstLocations(funcs, size, a, |funcs|)
  }

  function FirstLocations(funcs: seq<HashFunc>, size: nat, a: nat, n: nat): set<nat>
    requires size > 0 && n <= |funcs|
  {
    set k | 0 <= k < n :: funcs[k](a) % size
  }

  lemma LocationsAre(funcs: seq<HashFunc>, size: nat, a: nat)
    requires size > 0
    ensures forall l :: l in Locations(funcs, size, a) <==> exists k :: 0 <= k < |funcs| && l == funcs[k](a) % size
  {
  }

  lemma NoLocations(funcs: seq<HashFunc>, size: nat, a: nat)
    requires size > 0
    ensures FirstLocations(funcs, size, a, 0) == {}
  {
  }

  lemma NextLocation(funcs: seq<HashFunc>, size: nat, a: nat, n: nat)
    requires size > 0 && n < |funcs|
    ensures FirstLocations(funcs, size, a, n + 1) == FirstLocations(funcs, size, a, n) + {funcs[n](a) % size}
  {
  }

  function Image(funcs: seq<HashFunc>, size: nat, addrs: set<nat>): set<nat>
    requires size > 0
  {
    set a, l | a in addrs && l in Locations(funcs, size, a) :: l
  }

  class Bloom {
    const funcs: seq<HashFunc>
    const filterSize: nat
    const filter: array<Byte>
    var elementCount: nat
    /** The addresses added since the last clearing. */
    ghost var added: set<nat>

    ghost predicate Shaped() {
      filterSize > 0 && filter.Length == (filterSize + CHAR_BIT - 1) / CHAR_BIT
    }

    /** Over any history of adds, copies and clearings the buffer is the image of the added addresses. */
    ghost predicate Valid()
      reads this, filter
    {
      Shaped() && BitSet() == Image(funcs, filterSize, added) && (elementCount == 0 <==> added == {})
    }

    predicate GetBit(n: nat)
      requires Shaped() && n < CHAR_BIT * filter.Length
      reads filter
    {
      And(filter[n / CHAR_BIT], Pow2(n % CHAR_BIT)) != 0
    }

    /** The bits that are set. */
    ghost function BitSet(): set<nat>
      requires Shaped()
      reads filter
    {
      set n: nat | n < CHAR_BIT * filter.Length && Bit(filter[n / CHAR_BIT], n % CHAR_BIT)
    }

    constructor (size: nat, hashes: seq<HashFunc>)
      requires size > 0
      ensures Valid() && added == {} && BitSet() == {} && elementCount == 0
      ensures funcs == hashes && filterSize == size && fresh(filter)
    {
      funcs, filterSize, elementCount, added := hashes, size, 0, {};
      filter := new Byte[(size + CHAR_BIT - 1) / CHAR_BIT](i => 0);
      new;
      forall k ensures ShiftRight(0, k) == 0 { ShiftOfZero(k); }
    }

    /** A deep copy. */
    constructor Copy(bloom: Bloom)
      requires bloom.Valid()
      ensures Valid() && added == bloom.added && BitSet() == bloom.BitSet() && elementCount == bloom.elementCount
      ensures funcs == bloom.funcs && filterSize == bloom.filterSize && fresh(filter)
    {
      funcs, filterSize, elementCount, added := bloom.funcs, bloom.filterSize, bloom.elementCount, bloom.added;
      filter := new Byte[bloom.filter.Length](i requires 0 <= i < bloom.filter.Length reads bloom.filter =>
        bloom.filter[i]);
    }

    method SetBit(n: nat)
      requires Shaped() && n < filterSize
      modifies filter
      ensures BitSet() == old(BitSet()) + {n}
      ensures forall k :: 0 <= k < filter.Length ==>
                filter[k] == if k == n / 8 then Or(old(filter[k]), Pow2(n % 8)) else old(filter[k])
    {
      var b, i := n / CHAR_BIT, n % CHAR_BIT;
      SmallPowers(i);
      OrFits(filter[b], Pow2(i), 8);
      forall j: nat ensures Bit(Or(filter[b], Pow2(i)), j) <==> Bit(filter[b], j) || i == j {
        BitOfOr(filter[b], i, j);
      }
      filter[b] := Or(filter[b], Pow2(i));
    }

    method Add(a: nat)
      requires Valid()
      modifies this`elementCount, this`added, filter
      ensures Valid() && added == old(added) + {a} && elementCount == old(elementCount) + 1
      ensures forall l :: l in BitSet() <==>
                l in old(BitSet()) || exists k :: 0 <= k < |funcs| && l == funcs[k](a) % filterSize
    {
      hide BitSet, FirstLocations;
      var n := 0;
      NoLocations(funcs, filterSize, a);
      while n < |funcs|
        invariant n <= |funcs| && Shaped() && elementCount == old(elementCount) && added == old(added)
        invariant BitSet() == old(BitSet()) + FirstLocations(funcs, filterSize, a, n)
      {
        NextLocation(funcs, filterSize, a, n);
        SetBit(funcs[n](a) % filterSize);
        n := n + 1;
      }
      elementCount, added := elementCount + 1, added + {a};
      ImageOfMore(funcs, filterSize, old(added), a);
      LocationsAre(funcs, filterSize, a);
    }

    method Check(a: nat) returns (found: bool)
      requires Valid()
      ensures found <==> forall k :: 0 <= k < |funcs| ==> funcs[k](a) % filterSize in BitSet()
      ensures a in added ==> found
    {
      AddedShows(a);
      for n := 0 to |funcs|
        invariant forall k :: 0 <= k < n ==> funcs[k](a) % filterSize in BitSet()
      {
        var l := funcs[n](a) % filterSize;
        BitByMask(filter[l / CHAR_BIT], l % CHAR_BIT);
        if !GetBit(l) {
          assert l in Locations(funcs, filterSize, a);
          return false;
        }
      }
      return true;
    }

    method HasInCommon(bloom: Bloom) returns (common: bool)
      requires Valid() && bloom.Valid() && filterSize == bloom.filterSize
      ensures common <==> BitSet() * bloom.BitSet() != {}
      ensures funcs == bloom.funcs && |funcs| > 0 && added * bloom.added != {} ==> common
    {
      if funcs == bloom.funcs && |funcs| > 0 { CommonShows(bloom); }
      hide BitSet, And;
      for n := 0 to filter.Length
        invariant forall l :: l in BitSet() * bloom.BitSet() ==> l >= n * CHAR_BIT
      {
        ByteMeets(bloom, n);
        if And(filter[n], bloom.filter[n]) != 0 {
          return true;
        }
      }
      BitsInside(bloom);
      return false;
    }

    lemma ByteMeets(bloom: Bloom, n: nat)
      requires Shaped() && bloom.Shaped() && filterSize == bloom.filterSize && n < filter.Length
      ensures And(filter[n], bloom.filter[n]) != 0 ==> BitSet() * bloom.BitSet() != {}
      ensures And(filter[n], bloom.filter[n]) == 0 ==>
              forall l :: l in BitSet() * bloom.BitSet() && l >= n * CHAR_BIT ==> l >= (n + 1) * CHAR_BIT
    {
      hide And, Bit;
      var x, y := filter[n], bloom.filter[n];
      SmallPowers(0);
      CommonBit(x, y, 8);
      if i: nat :| i < 8 && Bit(x, i) && Bit(y, i) {
        assert n * CHAR_BIT + i in BitSet() * bloom.BitSet();
      }
    }

    lemma BitsInside(bloom: Bloom)
      requires Shaped()
      ensures forall l :: l in BitSet() ==> l < filter.Length * CHAR_BIT
    {
    }

    lemma AddedShows(a: nat)
      requires Valid()
      ensures a in added ==> Locations(funcs, filterSize, a) <= BitSet()
    {
      hide BitSet, FirstLocations;
    }

    lemma CommonShows(bloom: Bloom)
      requires Valid() && bloom.Valid() && filterSize == bloom.filterSize && funcs == bloom.funcs && |funcs| > 0
      ensures added * bloom.added != {} ==> BitSet() * bloom.BitSet() != {}
    {
      hide BitSet, Image;
      NeverMisses(funcs, filterSize, added, bloom.added);
    }

    method Clear()
      requires Valid()
      modifies this`elementCount, this`added, filter
      ensures Valid() && added == {} && BitSet() == {} && elementCount == 0
    {
      forall i | 0 <= i < filter.Length {
        filter[i] := 0;
      }
      elementCount, added := 0, {};
      forall k ensures ShiftRight(0, k) == 0 { ShiftOfZero(k); }
    }

    /** Nothing has been added since the last clearing. */
    predicate IsEmpty()
      requires Valid()
      reads this, filter
      ensures IsEmpty() <==> added == {}
    {
      elementCount == 0
    }
  }

  lemma SmallPowers(i: nat)
    requires i < 8
    ensures Pow2(i) < 256 == Pow2(8)
  {
    PowGrows(i, 7);
    assert Pow2(7) == 128;
  }

  /** Taking a signature and clearing the filter for the next epoch leaves the signature as it was. */
  method SnapshotThenClear(filter: Bloom) returns (signature: Bloom)
    requires filter.Valid()
    modifies filter`elementCount, filter`added, filter.filter
    ensures signature.Valid() && signature.added == old(filter.added) && signature.BitSet() == old(filter.BitSet())
    ensures filter.Valid() && filter.added == {} && filter.BitSet() == {} && fresh(signature) && fresh(signature.filter)
  {
    signature := new Bloom.Copy(filter);
    filter.Clear();
  }

  // -------------------------------------------------------------------------------------------
  // The detector on filters, in lockstep with the detector on address sets.

  /** A filter to which a set of addresses has been added holds their image. */
  lemma ImageOfMore(funcs: seq<HashFunc>, size: nat, addrs: set<nat>, a: nat)
    requires size > 0
    ensures Image(funcs, size, addrs + {a}) == Image(funcs, size, addrs) + Locations(funcs, size, a)
    ensures Image(funcs, size, {}) == {}
  {
  }

  lemma ImageKeepsEmptiness(funcs: seq<HashFunc>, size: nat, addrs: set<nat>)
    requires size > 0 && |funcs| > 0
    ensures Image(funcs, size, addrs) == {} <==> addrs == {}
  {
    if a :| a in addrs {
      assert funcs[0](a) % size in Locations(funcs, size, a);
      assert funcs[0](a) % size in Image(funcs, size, addrs);
    }
  }

  /** Nothing that two sets share is missed. */
  lemma NeverMisses(funcs: seq<HashFunc>, size: nat, x: set<nat>, y: set<nat>)
    requires size > 0 && |funcs| > 0
    ensures HasInCommon(x, y) ==> HasInCommon(Image(funcs, size, x), Image(funcs, size, y))
  {
    if HasInCommon(x, y) {
      var a :| a in x * y;
      var l := funcs[0](a) % size;
      assert l in Locations(funcs, size, a);
      assert l in Image(funcs, size, x) * Image(funcs, size, y);
    }
  }

  function Filtered(funcs: seq<HashFunc>, size: nat, e: Signature): Signature
    requires size > 0
  {
    e.(r := Image(funcs, size, e.r), w := Image(funcs, size, e.w))
  }

  function FilteredQueue(funcs: seq<HashFunc>, size: nat, q: Queue): (r: Queue)
    requires size > 0
    ensures |r| == |q|
  {
    seq(|q|, k requires 0 <= k < |q| => Filtered(funcs, size, q[k]))
  }

  function FilteredQueues(funcs: seq<HashFunc>, size: nat, qs: seq<Queue>): (r: seq<Queue>)
    requires size > 0
    ensures |r| == |qs|
  {
    seq(|qs|, u requires 0 <= u < |qs| => FilteredQueue(funcs, size, qs[u]))
  }

  lemma ConflictsShow(funcs: seq<HashFunc>, size: nat, e: Signature, o: Signature)
    requires size > 0 && |funcs| > 0 && Conflict(e, o)
    ensures Conflict(Filtered(funcs, size, e), Filtered(funcs, size, o))
  {
    hide HasInCommon, Image;
    NeverMisses(funcs, size, e.r, o.w);
    NeverMisses(funcs, size, e.w, o.r);
    NeverMisses(funcs, size, e.w, o.w);
  }

  lemma {:induction false} ScanQueueShows(funcs: seq<HashFunc>, size: nat, e: Signature, q: Queue, k: nat)
    requires size > 0 && |funcs| > 0 && k <= |q| && ScanQueue(e, q, k).Some?
    ensures ScanQueue(Filtered(funcs, size, e), FilteredQueue(funcs, size, q), k).Some?
    decreases |q| - k
  {
    hide Conflict, Concurrent, Image;
    if Conflict(e, q[k]) {
      ConflictsShow(funcs, size, e, q[k]);
    } else {
      ScanQueueShows(funcs, size, e, q, k + 1);
    }
  }

  lemma {:induction false} ScanShows(funcs: seq<HashFunc>, size: nat, e: Signature, qs: seq<Queue>, u: nat)
    requires size > 0 && |funcs| > 0 && u <= |qs| && Scan(e, qs, u).Some?
    ensures Scan(Filtered(funcs, size, e), FilteredQueues(funcs, size, qs), u).Some?
    decreases |qs| - u
  {
    hide ScanQueue, Image;
    if u != e.tid && ScanQueue(e, qs[u], 0).Some? {
      ScanQueueShows(funcs, size, e, qs[u], 0);
    } else {
      ScanShows(funcs, size, e, qs, u + 1);
    }
  }

  lemma PushFiltered(funcs: seq<HashFunc>, size: nat, q: Queue, e: Signature)
    requires size > 0
    ensures FilteredQueue(funcs, size, Push(q, e)) == Push(FilteredQueue(funcs, size, q), Filtered(funcs, size, e))
  {
    hide Filtered;
  }

  /** One add in both modes: the histories stay in step, and a report on sets is a report on filters. */
  lemma Lockstep(funcs: seq<HashFunc>, size: nat, qs: seq<Queue>, e: Signature)
    requires size > 0 && |funcs| > 0 && e.tid < |qs|
    ensures var (qs', race) := AddSignature(qs, e);
            var (fqs', frace) := AddSignature(FilteredQueues(funcs, size, qs), Filtered(funcs, size, e));
            fqs' == FilteredQueues(funcs, size, qs') && (race.Some? ==> frace.Some?)
  {
    hide Image, Push, Scan;
    ImageKeepsEmptiness(funcs, size, e.r);
    ImageKeepsEmptiness(funcs, size, e.w);
    if e.IsDirty() {
      PushFiltered(funcs, size, qs[e.tid], e);
      var qs' := qs[e.tid := Push(qs[e.tid], e)];
      if Scan(e, qs', 0).Some? { ScanShows(funcs, size, e, qs', 0); }
    }
  }

  /** The module's calls: a new thread, or a signature. */
  datatype Call = NewProcessor | AddCall(e: Signature)

  function Histories(calls: seq<Call>, n: nat): seq<Queue>
    requires n <= |calls|
  {
    if n == 0 then []
    else
      var qs := Histories(calls, n - 1);
      match calls[n - 1]
      case NewProcessor => qs + [[]]
      case AddCall(e) => if e.tid < |qs| then AddSignature(qs, e).0 else qs
  }

  predicate Reports(calls: seq<Call>, n: nat)
    requires n < |calls|
  {
    var qs := Histories(calls, n);
    calls[n].AddCall? && calls[n].e.tid < |qs| && AddSignature(qs, calls[n].e).1.Some?
  }

  function FilteredCalls(funcs: seq<HashFunc>, size: nat, calls: seq<Call>): (r: seq<Call>)
    requires size > 0
    ensures |r| == |calls|
  {
    seq(|calls|, i requires 0 <= i < |calls| =>
      match calls[i] case NewProcessor => NewProcessor case AddCall(e) => AddCall(Filtered(funcs, size, e)))
  }

  lemma {:induction false} HistoriesFiltered(funcs: seq<HashFunc>, size: nat, calls: seq<Call>, n: nat)
    requires size > 0 && |funcs| > 0 && n <= |calls|
    ensures Histories(FilteredCalls(funcs, size, calls), n) == FilteredQueues(funcs, size, Histories(calls, n))
  {
    hide AddSignature, Image;
    if n > 0 {
      HistoriesFiltered(funcs, size, calls, n - 1);
      var qs := Histories(calls, n - 1);
      if calls[n - 1].AddCall? && calls[n - 1].e.tid < |qs| { Lockstep(funcs, size, qs, calls[n - 1].e); }
    }
  }

  /** Over whole runs, with at least one hash function: whatever is reported on exact address sets
      is reported on filters too. */
  lemma FiltersReportEverything(funcs: seq<HashFunc>, size: nat, calls: seq<Call>, n: nat)
    requires size > 0 && |funcs| > 0 && n < |calls| && Reports(calls, n)
    ensures Reports(FilteredCalls(funcs, size, calls), n)
  {
    hide AddSignature, Image, Histories;
    HistoriesFiltered(funcs, size, calls, n);
    Lockstep(funcs, size, Histories(calls, n), calls[n].e);
  }
}
