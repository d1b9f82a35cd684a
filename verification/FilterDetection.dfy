/** The race detection module on filter objects: signatures hold copied Bloom filters, and what it
    reports is compared with what the same calls report on the exact address sets. */
module FilterDetection {
  import opened Optional
  import opened Clocks
  import opened Detection
  import opened BloomFilters

  /** A queued signature with its own copies of the two filters. */
  datatype SigRaceData = SigRaceData(tid: nat, ts: ThreadClock, r: Bloom, w: Bloom)

  ghost predicate Fits(d: SigRaceData, funcs: seq<HashFunc>, size: nat)
    reads d.r, d.r.filter, d.w, d.w.filter
  {
    && d.r.Shaped() && d.w.Shaped()
    && |funcs| > 0 && size > 0
    && d.r.Valid() && d.r.funcs == funcs && d.r.filterSize == size
    && d.w.Valid() && d.w.funcs == funcs && d.w.filterSize == size
  }

  /** The signature on the addresses that were added. */
  ghost function ExactOf(d: SigRaceData): Signature
    reads d.r, d.w
  {
    Signature(d.tid, d.ts, d.r.added, d.w.added)
  }

  /** The signature as the filters show it. */
  ghost function BitsOf(d: SigRaceData): Signature
    requires d.r.Shaped() && d.w.Shaped()
    reads d.r.filter, d.w.filter
  {
    Signature(d.tid, d.ts, d.r.BitSet(), d.w.BitSet())
  }

  lemma BitsAreFiltered(d: SigRaceData, funcs: seq<HashFunc>, size: nat)
    requires Fits(d, funcs, size)
    ensures d.r.Shaped() && d.w.Shaped() && BitsOf(d) == Filtered(funcs, size, ExactOf(d))
  {
  }

  /** A pushed history, entry by entry. */
  lemma PushAt(q: Queue, e: Signature)
    ensures |Push(q, e)| == if |q| + 1 > BLOCK_HISTORY_QUEUE_SIZE then |q| else |q| + 1
    ensures forall k :: 0 <= k < |Push(q, e)| ==> Push(q, e)[k] == if k == 0 then e else q[k - 1]
  {
  }

  /** The two stages of an add on filters. */
  lemma AddOnFilters(funcs: seq<HashFunc>, size: nat, qs: seq<Queue>, e: Signature)
    requires size > 0 && |funcs| > 0 && e.tid < |qs|
    ensures var shown, bits := FilteredQueues(funcs, size, qs), Filtered(funcs, size, e);
            && (!e.IsDirty() ==> AddSignature(shown, bits) == (shown, None) && AddSignature(qs, e).0 == qs)
            && (e.IsDirty() ==>
                  var pushed := qs[e.tid := Push(qs[e.tid], e)];
                  && AddSignature(qs, e).0 == pushed
                  && AddSignature(shown, bits) ==
                     (FilteredQueues(funcs, size, pushed), Scan(bits, FilteredQueues(funcs, size, pushed), 0)))
  {
    hide Image, Push, Scan;
    ImageKeepsEmptiness(funcs, size, e.r);
    ImageKeepsEmptiness(funcs, size, e.w);
    Lockstep(funcs, size, qs, e);
  }

  class FilterDetectionModule {
    const funcs: seq<HashFunc>
    const filterSize: nat
    var queues: seq<seq<SigRaceData>>

    ghost function Filters(): set<object>
      reads this
    {
      (set q: seq<SigRaceData>, d: SigRaceData | q in queues && d in q :: d.r as object) +
      (set q: seq<SigRaceData>, d: SigRaceData | q in queues && d in q :: d.w as object) +
      (set q: seq<SigRaceData>, d: SigRaceData | q in queues && d in q :: d.r.filter as object) +
      (set q: seq<SigRaceData>, d: SigRaceData | q in queues && d in q :: d.w.filter as object)
    }

    ghost predicate Valid()
      reads this, Filters()
    {
      && |funcs| > 0 && filterSize > 0
      && forall u, k :: 0 <= u < |queues| && 0 <= k < |queues[u]| ==>
         queues[u][k] in queues[u] && Fits(queues[u][k], funcs, filterSize)
    }

    ghost function ExactQueue(u: nat): (q: Queue)
      requires Valid() && u < |queues|
      reads this, Filters()
      ensures |q| == |queues[u]| && forall k :: 0 <= k < |q| ==> q[k] == ExactOf(queues[u][k])
    {
      seq(|queues[u]|, k requires u < |queues| && 0 <= k < |queues[u]| && Valid() reads this, Filters() =>
        assert queues[u][k] in queues[u];
        ExactOf(queues[u][k]))
    }

    /** The histories on exact address sets. */
    ghost function Exact(): (qs: seq<Queue>)
      requires Valid()
      reads this, Filters()
      ensures |qs| == |queues| && forall u :: 0 <= u < |qs| ==> qs[u] == ExactQueue(u)
    {
      seq(|queues|, u requires 0 <= u < |queues| && Valid() reads this, Filters() => ExactQueue(u))
    }

    /** The histories as the filters show them. */
    ghost function Shown(): (qs: seq<Queue>)
      requires Valid()
      reads this, Filters()
      ensures |qs| == |queues| && forall u :: 0 <= u < |qs| ==> |qs[u]| == |queues[u]|
    {
      FilteredQueues(funcs, filterSize, Exact())
    }

    constructor (size: nat, hashes: seq<HashFunc>)
      requires size > 0 && |hashes| > 0
      ensures Valid() && Exact() == [] && funcs == hashes && filterSize == size
    {
      funcs, filterSize, queues := hashes, size, [];
    }

    /** Whatever leaves the queues and the filters in them alone leaves the histories alone. */
    twostate lemma Kept()
      requires old(Valid()) && queues == old(queues) && unchanged(old(Filters()))
      ensures Valid() && Exact() == old(Exact()) && Shown() == old(Shown())
    {
      forall u | 0 <= u < |queues|
        ensures forall k :: 0 <= k < |queues[u]| ==>
                Fits(queues[u][k], funcs, filterSize) && ExactOf(queues[u][k]) == old(ExactOf(queues[u][k]))
      {
        forall k | 0 <= k < |queues[u]|
          ensures Fits(queues[u][k], funcs, filterSize) && ExactOf(queues[u][k]) == old(ExactOf(queues[u][k]))
        {
          var q, d := queues[u], queues[u][k];
          assert q in queues && d in q;
          assert d.r in old(Filters()) && d.w in old(Filters()) && d.r.filter in old(Filters())
            && d.w.filter in old(Filters());
        }
      }
      assert forall u :: 0 <= u < |queues| ==> ExactQueue(u) == old(ExactQueue(u));
    }

    lemma EntryShown(u: nat, k: nat)
      requires Valid() && u < |queues| && k < |queues[u]|
      ensures Fits(queues[u][k], funcs, filterSize)
      ensures Shown()[u][k] == BitsOf(queues[u][k])
    {
      hide Image, Bloom.BitSet;
      assert queues[u][k] in queues[u];
      BitsAreFiltered(queues[u][k], funcs, filterSize);
    }

    /** The conflict of two signatures on their filters, in the order of the code's tests. */
    method ConflictOf(e: SigRaceData, other: SigRaceData) returns (race: Option<Race>)
      requires Fits(e, funcs, filterSize) && Fits(other, funcs, filterSize)
      ensures race.Some? <==> Clashes(BitsOf(e), BitsOf(other))
      ensures race.Some? ==> Tells(race.value, BitsOf(e), BitsOf(other))
    {
      hide Image, Bloom.BitSet;
      var rw := e.r.HasInCommon(other.w);
      if rw {
        return Some(Race(ReadWrite, e.tid, other.tid));
      }
      var wr := e.w.HasInCommon(other.r);
      if wr {
        return Some(Race(WriteRead, e.tid, other.tid));
      }
      var ww := e.w.HasInCommon(other.w);
      if ww {
        return Some(Race(WriteWrite, e.tid, other.tid));
      }
      return None;
    }

    /** The scan of one foreign history up to its first ordered entry. */
    method ScanHistory(e: SigRaceData, u: nat) returns (race: Option<Race>)
      requires Valid() && Fits(e, funcs, filterSize) && u < |queues|
      ensures race == ScanQueue(BitsOf(e), Shown()[u], 0)
    {
      hide Image, Bloom.BitSet, Conflict, ConflictKind, KindIs, Clashes, Concurrent, Shown, Bloom.Valid;
      ghost var history, bits := Shown()[u], BitsOf(e);
      var itr := 0;
      while itr < |queues[u]|
        invariant itr <= |queues[u]| == |history|
        invariant Valid() && Fits(e, funcs, filterSize) && Shown()[u] == history && BitsOf(e) == bits
        invariant ScanQueue(bits, history, 0) == ScanQueue(bits, history, itr)
      {
        EntryShown(u, itr);
        var other := queues[u][itr];
        if !Concurrent(e.ts, other.ts) {
          return None;
        }
        label Before:
        race := ConflictOf(e, other);
        ClashesConflict(BitsOf(e), BitsOf(other));
        Kept@Before();
        if race.Some? {
          return;
        }
        itr := itr + 1;
      }
      return None;
    }

    method ScanAll(e: SigRaceData) returns (race: Option<Race>)
      requires Valid() && Fits(e, funcs, filterSize)
      ensures race == Scan(BitsOf(e), Shown(), 0)
    {
      hide Image, Bloom.BitSet, ScanQueue, Shown;
      ghost var histories, bits := Shown(), BitsOf(e);
      var queueId := 0;
      while queueId < |queues|
        invariant queueId <= |queues|
        invariant Valid() && Fits(e, funcs, filterSize) && Shown() == histories && BitsOf(e) == bits
        invariant Scan(bits, histories, 0) == Scan(bits, histories, queueId)
      {
        if queueId != e.tid {
          label Before:
          race := ScanHistory(e, queueId);
          Kept@Before();
          if race.Some? {
            return;
          }
        }
        queueId := queueId + 1;
      }
      return None;
    }

    method AddProcessor()
      requires Valid()
      modifies this
      ensures Valid() && Exact() == old(Exact()) + [[]]
    {
      queues := queues + [[]];
      assert forall u :: 0 <= u < |queues| - 1 ==> ExactQueue(u) == old(ExactQueue(u));
    }

    /** addSignature on filters: the histories grow as they do on exact sets, the report is that of the
        scan on what the filters show, and a report on exact sets is never lost. */
    method Add(e: SigRaceData) returns (race: Option<Race>)
      requires Valid() && Fits(e, funcs, filterSize) && e.tid < |queues|
      modifies this`queues
      ensures Valid() && Exact() == AddSignature(old(Exact()), ExactOf(e)).0
      ensures (Shown(), race) == AddSignature(old(Shown()), BitsOf(e))
      ensures AddSignature(old(Exact()), ExactOf(e)).1.Some? ==> race.Some?
    {
      hide Image, Bloom.BitSet, Bloom.Valid, Scan, Push, AddSignature, FilteredQueues, Filtered;
      ghost var before := Exact();
      BitsAreFiltered(e, funcs, filterSize);
      Lockstep(funcs, filterSize, before, ExactOf(e));
      AddOnFilters(funcs, filterSize, before, ExactOf(e));
      DirtyShows(e);
      if e.r.IsEmpty() && e.w.IsEmpty() {
        return None;
      }
      Insert(e);
      label Inserted:
      race := ScanAll(e);
      Kept@Inserted();
    }

    method Insert(e: SigRaceData)
      requires Valid() && Fits(e, funcs, filterSize) && e.tid < |queues|
      modifies this`queues
      ensures Valid() && |queues| == old(|queues|)
      ensures Exact() == old(Exact())[e.tid := Push(old(Exact())[e.tid], ExactOf(e))]
    {
      hide Image, Bloom.BitSet, Bloom.Valid, Bloom.Shaped, Push, FilteredQueues, Filtered;
      var queue := [e] + queues[e.tid];
      if |queue| > BLOCK_HISTORY_QUEUE_SIZE {
        queue := queue[..|queue| - 1];
      }
      queues := queues[e.tid := queue];
      forall u, k | 0 <= u < |queues| && 0 <= k < |queues[u]|
        ensures queues[u][k] in queues[u] && Fits(queues[u][k], funcs, filterSize)
      {
        assert u != e.tid ==> old(queues[u][k]) in old(queues[u]);
        assert u == e.tid && k > 0 ==> queues[u][k] == old(queues[u][k - 1]) && old(queues[u][k - 1]) in old(queues[u]);
      }
      PushAt(old(ExactQueue(e.tid)), ExactOf(e));
      assert ExactQueue(e.tid) == Push(old(ExactQueue(e.tid)), ExactOf(e));
      assert forall u :: 0 <= u < |queues| && u != e.tid ==> ExactQueue(u) == old(ExactQueue(u));
    }

    lemma DirtyShows(e: SigRaceData)
      requires Fits(e, funcs, filterSize)
      ensures BitsOf(e).IsDirty() <==> !(e.r.IsEmpty() && e.w.IsEmpty())
      ensures ExactOf(e).IsDirty() <==> !(e.r.IsEmpty() && e.w.IsEmpty())
    {
      ImageKeepsEmptiness(funcs, filterSize, e.r.added);
      ImageKeepsEmptiness(funcs, filterSize, e.w.added);
    }
  }
}
