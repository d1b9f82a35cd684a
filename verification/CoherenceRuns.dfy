/** Every run of the simulator: caches appear, threads read and write, and the caches stay coherent. */
module CoherenceRuns {
  import opened CacheWays
  import opened CacheGeometry
  import opened Coherence
  import opened Traffic

  /** One locked call of the simulator. Addresses below one line are excluded: tag 0 means empty. */
  datatype Event = NewCache | ReadBy(tid: nat, addr: nat) | WriteBy(tid: nat, addr: nat)
  {
    predicate IsAccess() {
      !NewCache?
    }
  }

  /** tidToCPUId. */
  function CpuOf(tid: nat, caches: nat): (cpu: nat)
    requires caches > 0
    ensures cpu < caches
  {
    tid % caches
  }

  function EmptyCache(g: Geometry, cpuId: nat): Cache {
    Cache(cpuId, seq(g.sets, s => seq(g.assoc, k => EMPTY)), ZERO)
  }

  /** Accesses need a cache, and an address with a tag other than 0. */
  predicate Allowed(g: Geometry, cs: Caches, e: Event) {
    e.IsAccess() ==> |cs| > 0 && g.CalcTag(e.addr) != 0
  }

  function Next(g: Geometry, cs: Caches, e: Event): (r: Caches)
    requires AllShaped(g, cs) && g.sets > 0 && g.assoc > 0
    ensures AllShaped(g, r)
  {
    if !Allowed(g, cs, e) then cs
    else match e
      case NewCache => cs + [EmptyCache(g, |cs|)]
      case ReadBy(tid, addr) => ReadLine(g, cs, CpuOf(tid, |cs|), g.CalcTag(addr))
      case WriteBy(tid, addr) => WriteLine(g, cs, CpuOf(tid, |cs|), g.CalcTag(addr))
  }

  function After(g: Geometry, es: seq<Event>, n: nat): (cs: Caches)
    requires n <= |es| && g.sets > 0 && g.assoc > 0
    ensures AllShaped(g, cs)
  {
    if n == 0 then [] else Next(g, After(g, es, n - 1), es[n - 1])
  }

  lemma EmptyCacheOk(g: Geometry, cpuId: nat)
    requires g.sets > 0 && g.assoc > 0
    ensures CacheOk(g, EmptyCache(g, cpuId)) && EmptyCache(g, cpuId).cpuId == cpuId
    ensures forall tag: nat :: StateIn(g, EmptyCache(g, cpuId), tag) == Invalid
  {
  }

  lemma GrowKeepsCoherent(g: Geometry, cs: Caches)
    requires AllShaped(g, cs) && g.sets > 0 && g.assoc > 0 && AllOk(g, cs) && Coherent(g, cs)
    ensures AllOk(g, cs + [EmptyCache(g, |cs|)]) && Coherent(g, cs + [EmptyCache(g, |cs|)])
  {
    hide StateIn, CacheOk, Shaped, EmptyCache;
    EmptyCacheOk(g, |cs|);
  }

  lemma NextKeepsCoherent(g: Geometry, cs: Caches, e: Event)
    requires AllShaped(g, cs) && g.sets > 0 && g.assoc > 0 && AllOk(g, cs) && Coherent(g, cs)
    ensures AllOk(g, Next(g, cs, e)) && Coherent(g, Next(g, cs, e))
  {
    hide AllOk, Coherent, AllShaped, ReadLine, WriteLine, EmptyCache, Geometry.CalcTag;
    if Allowed(g, cs, e) {
      match e
      case NewCache => GrowKeepsCoherent(g, cs);
      case ReadBy(tid, addr) => ReadKeepsCoherent(g, cs, CpuOf(tid, |cs|), g.CalcTag(addr));
      case WriteBy(tid, addr) => WriteKeepsCoherent(g, cs, CpuOf(tid, |cs|), g.CalcTag(addr));
    }
  }

  /** Coherence: in every run a modified line is valid nowhere else, and every cache's storage is well formed. */
  lemma {:induction false} EveryRunIsCoherent(g: Geometry, es: seq<Event>, n: nat)
    requires n <= |es| && g.sets > 0 && g.assoc > 0
    ensures AllOk(g, After(g, es, n)) && Coherent(g, After(g, es, n))
  {
    hide AllOk, Coherent, Next;
    if n == 0 {
      NoCaches(g, es);
    } else {
      EveryRunIsCoherent(g, es, n - 1);
      NextKeepsCoherent(g, After(g, es, n - 1), es[n - 1]);
    }
  }

  lemma NoCaches(g: Geometry, es: seq<Event>)
    requires g.sets > 0 && g.assoc > 0
    ensures AllOk(g, After(g, es, 0)) && Coherent(g, After(g, es, 0))
  {
  }

  // -------------------------------------------------------------------------------------------
  // No cache reads stale data.

  /** Event i of the run is an access by the cache with this id to the line. */
  predicate Touches(g: Geometry, es: seq<Event>, i: nat, cpu: nat, tag: nat)
    requires i < |es| && g.sets > 0 && g.assoc > 0
  {
    var caches := |After(g, es, i)|;
    es[i].IsAccess() && caches > 0 && tag != 0 && g.CalcTag(es[i].addr) == tag && es[i].tid % caches == cpu
  }

  predicate WritesTo(g: Geometry, es: seq<Event>, i: nat, cpu: nat, tag: nat)
    requires i < |es| && g.sets > 0 && g.assoc > 0
  {
    es[i].WriteBy? && Touches(g, es, i, cpu, tag)
  }

  /** The number of the last access of a cache to a line among the first n events, 0 if there is none. */
  function LastTouch(g: Geometry, es: seq<Event>, n: nat, cpu: nat, tag: nat): (m: nat)
    requires n <= |es| && g.sets > 0 && g.assoc > 0
    ensures m <= n
  {
    if n == 0 then 0 else if Touches(g, es, n - 1, cpu, tag) then n else LastTouch(g, es, n - 1, cpu, tag)
  }

  function LastWrite(g: Geometry, es: seq<Event>, n: nat, cpu: nat, tag: nat): (m: nat)
    requires n <= |es| && g.sets > 0 && g.assoc > 0
    ensures m <= n
  {
    if n == 0 then 0 else if WritesTo(g, es, n - 1, cpu, tag) then n else LastWrite(g, es, n - 1, cpu, tag)
  }

  /** A cache that has the line valid has accessed it since every other cache's last write to it;
      one that has it modified has written it since every other cache's last access. */
  ghost predicate Fresh(g: Geometry, es: seq<Event>, n: nat, j: nat, k: nat, tag: nat)
    requires n <= |es| && g.sets > 0 && g.assoc > 0 && j < |After(g, es, n)|
  {
    && (StateIn(g, After(g, es, n)[j], tag) != Invalid ==> LastTouch(g, es, n, j, tag) > LastWrite(g, es, n, k, tag))
    && (StateIn(g, After(g, es, n)[j], tag) == Modified ==> LastWrite(g, es, n, j, tag) > LastTouch(g, es, n, k, tag))
  }

  /** One access, seen from cache j. */
  lemma AccessEffect(g: Geometry, es: seq<Event>, n: nat, j: nat, tag: nat)
    requires n < |es| && g.sets > 0 && g.assoc > 0 && tag != 0 && j < |After(g, es, n + 1)|
    ensures |After(g, es, n)| <= |After(g, es, n + 1)|
    ensures j >= |After(g, es, n)| ==> StateIn(g, After(g, es, n + 1)[j], tag) == Invalid
    ensures j < |After(g, es, n)| && (forall k: nat :: !Touches(g, es, n, k, tag)) ==>
              StateIn(g, After(g, es, n + 1)[j], tag) in {Invalid, StateIn(g, After(g, es, n)[j], tag)}
    ensures forall k: nat :: Touches(g, es, n, k, tag) ==> j < |After(g, es, n)| && k < |After(g, es, n)|
    ensures forall k: nat :: WritesTo(g, es, n, k, tag) ==>
            StateIn(g, After(g, es, n + 1)[j], tag) == if j == k then Modified else Invalid
    ensures forall k: nat :: Touches(g, es, n, k, tag) && es[n].ReadBy? ==>
              var st, st' := StateIn(g, After(g, es, n)[j], tag), StateIn(g, After(g, es, n + 1)[j], tag);
              if j == k then st' == if st == Invalid then Shared else st
              else st' != Modified && (st == Invalid ==> st' == Invalid)
  {
    hide StateIn, AllOk, CacheOk, Shaped, ReadLine, WriteLine, Victim, EmptyCache, Geometry.CalcTag;
    var cs, e := After(g, es, n), es[n];
    EveryRunIsCoherent(g, es, n);
    if Allowed(g, cs, e) {
      if e.IsAccess() { assert Touches(g, es, n, CpuOf(e.tid, |cs|), g.CalcTag(e.addr)); }
      match e
      case NewCache => EmptyCacheOk(g, |cs|);
      case ReadBy(tid, addr) => ReadIsExact(g, cs, CpuOf(tid, |cs|), g.CalcTag(addr));
      case WriteBy(tid, addr) => WriteIsExact(g, cs, CpuOf(tid, |cs|), g.CalcTag(addr));
    }
  }

  lemma OneToucher(g: Geometry, es: seq<Event>, n: nat, k: nat, k': nat, tag: nat)
    requires n < |es| && g.sets > 0 && g.assoc > 0 && Touches(g, es, n, k, tag) && Touches(g, es, n, k', tag)
    ensures k == k' && es[n].IsAccess()
  {
  }

  lemma FreshStep(g: Geometry, es: seq<Event>, n: nat, j: nat, k: nat, tag: nat)
    requires n < |es| && g.sets > 0 && g.assoc > 0 && tag != 0 && j < |After(g, es, n + 1)| && j != k
    requires j < |After(g, es, n)| ==> Fresh(g, es, n, j, k, tag)
    ensures Fresh(g, es, n + 1, j, k, tag)
  {
    hide StateIn, After, Touches;
    AccessEffect(g, es, n, j, tag);
    if u: nat :| Touches(g, es, n, u, tag) {
      forall v: nat | Touches(g, es, n, v, tag) ensures v == u { OneToucher(g, es, n, u, v, tag); }
      OneToucher(g, es, n, u, u, tag);
      assert WritesTo(g, es, n, u, tag) <==> es[n].WriteBy?;
    }
  }

  /** No stale reads: over every run, a valid copy is younger than every write elsewhere, a modified
      copy younger than every access elsewhere. */
  lemma {:induction false} CopiesAreFresh(g: Geometry, es: seq<Event>, n: nat, j: nat, k: nat, tag: nat)
    requires n <= |es| && g.sets > 0 && g.assoc > 0 && tag != 0 && j < |After(g, es, n)| && j != k
    ensures Fresh(g, es, n, j, k, tag)
  {
    hide StateIn, Touches, Fresh, Next, After;
    if n == 0 {
      NobodyAtFirst(g, es);
    } else {
      if j < |After(g, es, n - 1)| { CopiesAreFresh(g, es, n - 1, j, k, tag); }
      FreshStep(g, es, n - 1, j, k, tag);
    }
  }

  lemma NobodyAtFirst(g: Geometry, es: seq<Event>)
    requires g.sets > 0 && g.assoc > 0
    ensures After(g, es, 0) == []
  {
  }

  // -------------------------------------------------------------------------------------------
  // The counters.

  function Reads(g: Geometry, es: seq<Event>, n: nat, cpu: nat): nat
    requires n <= |es| && g.sets > 0 && g.assoc > 0
  {
    if n == 0 then 0
    else Reads(g, es, n - 1, cpu) + if es[n - 1].ReadBy? && Touches(g, es, n - 1, cpu, g.CalcTag(es[n - 1].addr)) then 1
         else 0
  }

  function Writes(g: Geometry, es: seq<Event>, n: nat, cpu: nat): nat
    requires n <= |es| && g.sets > 0 && g.assoc > 0
  {
    if n == 0 then 0
    else Writes(g, es, n - 1, cpu) +
         if es[n - 1].WriteBy? && Touches(g, es, n - 1, cpu, g.CalcTag(es[n - 1].addr)) then 1 else 0
  }

  ghost predicate Consistent(n: Counters, readCount: nat, writeCount: nat) {
    && n.readHits + n.readMisses == readCount && n.writeHits + n.writeMisses == writeCount
    && n.readRequestsSent == n.readMisses && n.invalidatesSent == n.writeMisses
    && n.servicedByOthers == n.servicedByShared + n.servicedByModified <= n.readMisses
    && n.writeOnShared <= n.writeMisses
    && n.readOnInvalid == 0 && n.writeOnInvalid == 0
  }

  lemma ReadCounts(g: Geometry, cs: Caches, k: nat, tag: nat, j: nat, readCount: nat, writeCount: nat)
    requires AllShaped(g, cs) && AllOk(g, cs) && Coherent(g, cs) && tag != 0 && k < |cs| && j < |cs|
             && Consistent(cs[j].stats, readCount, writeCount)
    ensures Consistent(ReadLine(g, cs, k, tag)[j].stats, if j == k then readCount + 1 else readCount, writeCount)
  {
    hide StateIn, CacheOk, Shaped, Looked, Filled, Holds, ReadRemote, WaysFor, Coherent;
    MissLeavesAlone(g, cs[k], tag);
    if StateIn(g, cs[k], tag) == Invalid {
      assert cs[k := cs[k]] == cs;
      ReadRemoteIsExact(g, cs, k, tag, 0);
    }
  }

  lemma WriteCounts(g: Geometry, cs: Caches, k: nat, tag: nat, j: nat, readCount: nat, writeCount: nat)
    requires AllShaped(g, cs) && AllOk(g, cs) && tag != 0 && k < |cs| && j < |cs|
             && Consistent(cs[j].stats, readCount, writeCount)
    ensures Consistent(WriteLine(g, cs, k, tag)[j].stats, readCount, if j == k then writeCount + 1 else writeCount)
  {
    hide StateIn, CacheOk, Shaped, Looked, Filled, Upgraded, Holds, WriteRemote, WaysFor;
    MissLeavesAlone(g, cs[k], tag);
    LookedStates(g, cs[k], tag);
    var own := Looked(g, cs[k], tag);
    var m, m' := CountWriteMiss(own.stats, false, false), CountWriteMiss(own.stats, false, true);
    NewStats(g, own, m);
    NewStats(g, own, m');
    WriteRemoteIsExact(g, cs[k := own.(stats := m)], k, tag, 0);
    WriteRemoteIsExact(g, cs[k := own.(stats := m')], k, tag, 0);
  }

  /** Per cache, over every run: hits and misses are the accesses, every miss puts one request on the
      bus, and the misses on invalid lines that are counted apart never happen. */
  lemma {:induction false} CountersAgree(g: Geometry, es: seq<Event>, n: nat, j: nat)
    requires n <= |es| && g.sets > 0 && g.assoc > 0 && j < |After(g, es, n)|
    ensures Consistent(After(g, es, n)[j].stats, Reads(g, es, n, j), Writes(g, es, n, j))
  {
    hide ReadLine, WriteLine, AllOk, Coherent, Geometry.CalcTag, Consistent;
    if n > 0 {
      var cs, e := After(g, es, n - 1), es[n - 1];
      EveryRunIsCoherent(g, es, n - 1);
      if j < |cs| {
        CountersAgree(g, es, n - 1, j);
        if Allowed(g, cs, e) {
          match e
          case NewCache =>
          case ReadBy(tid, addr) => ReadCounts(g, cs, CpuOf(tid, |cs|), g.CalcTag(addr), j, Reads(g, es, n - 1, j),
            Writes(g, es, n - 1, j));
          case WriteBy(tid, addr) => WriteCounts(g, cs, CpuOf(tid, |cs|), g.CalcTag(addr), j, Reads(g, es, n - 1, j),
            Writes(g, es, n - 1, j));
        }
      } else {
        NoAccessesYet(g, es, n, j);
        FreshCounters();
      }
    }
  }

  lemma FreshCounters()
    ensures Consistent(ZERO, 0, 0)
  {
  }

  lemma {:induction false} NoAccessesYet(g: Geometry, es: seq<Event>, n: nat, j: nat)
    requires 0 < n <= |es| && g.sets > 0 && g.assoc > 0 && |After(g, es, n - 1)| <= j
    ensures Reads(g, es, n, j) == 0 && Writes(g, es, n, j) == 0
  {
    hide ReadLine, WriteLine, EmptyCache, Geometry.CalcTag;
    if n > 1 { NoAccessesYet(g, es, n - 1, j); }
  }

  // -------------------------------------------------------------------------------------------
  // Conservation.

  lemma {:induction false} TotalNeverNegative(g: Geometry, es: seq<Event>, n: nat)
    requires n <= |es| && g.sets > 0 && g.assoc > 0
    ensures Total(After(g, es, n)) >= 0
  {
    hide ReadLine, WriteLine, Total, Balance, EmptyCache, Geometry.CalcTag, AllShaped;
    if n == 0 {
      EmptyTotal(g, es);
    } else {
      TotalNeverNegative(g, es, n - 1);
      var cs, e := After(g, es, n - 1), es[n - 1];
      if Allowed(g, cs, e) {
        match e
        case NewCache => TotalOfMore(cs, EmptyCache(g, |cs|)); EmptyBalance(g, |cs|);
        case ReadBy(tid, addr) => ReadConserves(g, cs, CpuOf(tid, |cs|), g.CalcTag(addr));
        case WriteBy(tid, addr) => WriteConserves(g, cs, CpuOf(tid, |cs|), g.CalcTag(addr));
      }
    }
  }

  lemma EmptyTotal(g: Geometry, es: seq<Event>)
    requires g.sets > 0 && g.assoc > 0
    ensures Total(After(g, es, 0)) == 0
  {
  }

  lemma {:induction false} NothingDirty(ways: seq<Line>)
    requires forall k :: 0 <= k < |ways| ==> ways[k] == EMPTY
    ensures Dirty(ways) == 0
  {
    if ways != [] { NothingDirty(ways[1..]); }
  }

  lemma {:induction false} NoSetDirty(sets: seq<seq<Line>>)
    requires forall s :: 0 <= s < |sets| ==> Dirty(sets[s]) == 0
    ensures DirtySets(sets) == 0
  {
    if sets != [] { NoSetDirty(sets[1..]); }
  }

  lemma EmptyBalance(g: Geometry, cpuId: nat)
    ensures Balance(EmptyCache(g, cpuId)) == 0
  {
    hide Dirty, DirtySets;
    NothingDirty(seq(g.assoc, k => EMPTY));
    NoSetDirty(EmptyCache(g, cpuId).sets);
  }

  function WriteMisses(cs: Caches): nat {
    if cs == [] then 0 else cs[0].stats.writeMisses + WriteMisses(cs[1..])
  }

  function ServedByModified(cs: Caches): nat {
    if cs == [] then 0 else cs[0].stats.servicedByModified + ServedByModified(cs[1..])
  }

  function ModifiedLines(cs: Caches): nat {
    if cs == [] then 0 else DirtyLines(cs[0]) + ModifiedLines(cs[1..])
  }

  lemma {:induction false} TotalIs(cs: Caches)
    ensures Total(cs) == WriteMisses(cs) - ServedByModified(cs) - ModifiedLines(cs)
  {
    hide DirtyLines;
    if cs != [] { TotalIs(cs[1..]); }
  }

  /** Over all caches, the read misses served from modified lines and the lines still modified never
      outnumber the write misses. */
  lemma ExclusiveLinesAreConserved(g: Geometry, es: seq<Event>, n: nat)
    requires n <= |es| && g.sets > 0 && g.assoc > 0
    ensures var cs := After(g, es, n); ServedByModified(cs) + ModifiedLines(cs) <= WriteMisses(cs)
  {
    hide After;
    TotalNeverNegative(g, es, n);
    TotalIs(After(g, es, n));
  }
}
