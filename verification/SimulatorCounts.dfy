/** What the simulator counts, in terms of the events and of the states that the lines had at them. */
module SimulatorCounts {
  import opened Counting
  import opened Residues
  import opened CacheWays
  import opened CacheGeometry
  import opened Coherence
  import opened CoherenceRuns

  // -------------------------------------------------------------------------------------------
  // One access.

  /** A cache other than k has the line in the state. */
  ghost predicate Elsewhere(g: Geometry, cs: Caches, k: nat, tag: nat, st: MSI)
    requires AllShaped(g, cs)
  {
    exists m: nat :: m < |cs| && m != k && StateIn(g, cs[m], tag) == st
  }

  function One(b: bool): nat {
    if b then 1 else 0
  }

  /** A hit is counted as one. A miss is counted, with the request it sends, and by what answers it. */
  lemma ReadIsCounted(g: Geometry, cs: Caches, k: nat, tag: nat, j: nat)
    requires AllShaped(g, cs) && AllOk(g, cs) && Coherent(g, cs) && tag != 0 && k < |cs| && j < |cs|
    ensures var n, hit := cs[j].stats, StateIn(g, cs[k], tag) != Invalid;
            var byShared, byModified := Elsewhere(g, cs, k, tag, Shared), Elsewhere(g, cs, k, tag, Modified);
            ReadLine(g, cs, k, tag)[j].stats ==
            if j != k then n
            else if hit then n.(readHits := n.readHits + 1)
            else n.(
              readMisses := n.readMisses + 1,
              readRequestsSent := n.readRequestsSent + 1,
              servicedByShared := n.servicedByShared + One(byShared),
              servicedByModified := n.servicedByModified + One(byModified),
              servicedByOthers := n.servicedByOthers + One(byShared || byModified))
  {
    hide StateIn, CacheOk, Shaped, Looked, Filled, Holds, ReadRemote, WaysFor, Coherent;
    MissLeavesAlone(g, cs[k], tag);
    if StateIn(g, cs[k], tag) == Invalid {
      assert cs[k := cs[k]] == cs;
      var (cs', reply) := ReadRemote(g, cs, k, tag, 0);
      ReadRemoteIsExact(g, cs, k, tag, 0);
      Answer(g, cs, k, tag, cs', reply);
    }
  }

  lemma Answer(g: Geometry, cs: Caches, k: nat, tag: nat, cs': Caches, reply: RemoteReadService)
    requires AllShaped(g, cs) && AllShaped(g, cs') && |cs'| == |cs| && Coherent(g, cs) && tag != 0
    requires ReadRemoteExact(g, cs, k, tag, 0, cs', reply)
    ensures reply.providedData && !reply.isShared <==> Elsewhere(g, cs, k, tag, Modified)
    ensures reply.providedData && reply.isShared <==> Elsewhere(g, cs, k, tag, Shared)
  {
    hide StateIn, AllOk, Shaped;
    if m: nat :| m < |cs| && m != k && StateIn(g, cs[m], tag) == Shared { assert HasLine(g, cs, m, k, 0, tag); }
    if m: nat :| m < |cs| && m != k && StateIn(g, cs[m], tag) == Modified {
      assert HasDirtyLine(g, cs, m, k, 0, tag);
    }
    if m: nat :| HasLine(g, cs, m, k, 0, tag) {
      assert StateIn(g, cs[m], tag) != Modified ==> StateIn(g, cs[m], tag) == Shared;
    }
  }

  /** A write of a modified line is a hit. Any other is a miss that sends an invalidate. */
  lemma WriteIsCounted(g: Geometry, cs: Caches, k: nat, tag: nat, j: nat)
    requires AllShaped(g, cs) && AllOk(g, cs) && tag != 0 && k < |cs| && j < |cs|
    ensures var n, st := cs[j].stats, StateIn(g, cs[k], tag);
            WriteLine(g, cs, k, tag)[j].stats ==
            if j != k then n
            else if st == Modified then n.(writeHits := n.writeHits + 1)
            else n.(
              writeMisses := n.writeMisses + 1,
              writeOnShared := n.writeOnShared + One(st == Shared),
              invalidatesSent := n.invalidatesSent + 1)
  {
    hide StateIn, CacheOk, Shaped, Looked, Filled, Upgraded, Holds, WriteRemote, WaysFor;
    MissLeavesAlone(g, cs[k], tag);
    LookedStates(g, cs[k], tag);
    var own := Looked(g, cs[k], tag);
    var m, m' := CountWriteMiss(own.stats, false, false), CountWriteMiss(own.stats, false, true);
    NewStats(g, own, m);
    NewStats(g, own, m');
    WriteRemoteIsExact(g, cs[k := own.(stats := m)], k, tag, 0);
    WriteRemoteIsExact(g, cs[k := own.(stats := m')], k, tag, 0);
  }

  lemma {:induction false} ReadRemoteCountsNothing(g: Geometry, cs: Caches, me: nat, tag: nat, i: nat, j: nat)
    requires AllShaped(g, cs) && i <= |cs| && j < |cs|
    ensures ReadRemote(g, cs, me, tag, i).0[j].stats == cs[j].stats
    decreases |cs| - i
  {
    hide Shaped, SnoopedRead;
    if i < |cs| && cs[i].cpuId == me {
      ReadRemoteCountsNothing(g, cs, me, tag, i + 1, j);
    } else if i < |cs| && !SnoopedRead(g, cs[i], tag).1 {
      ReadRemoteCountsNothing(g, cs[i := SnoopedRead(g, cs[i], tag).0], me, tag, i + 1, j);
    }
  }

  lemma {:induction false} WriteRemoteCountsNothing(g: Geometry, cs: Caches, me: nat, tag: nat, i: nat, j: nat)
    requires AllShaped(g, cs) && i <= |cs| && j < |cs|
    ensures WriteRemote(g, cs, me, tag, i)[j].stats == cs[j].stats
    decreases |cs| - i
  {
    hide Shaped, SnoopedWrite;
    if i < |cs| && cs[i].cpuId == me {
      WriteRemoteCountsNothing(g, cs, me, tag, i + 1, j);
    } else if i < |cs| {
      WriteRemoteCountsNothing(g, cs[i := SnoopedWrite(g, cs[i], tag)], me, tag, i + 1, j);
    }
  }

  /** On any caches, well formed or not, a miss on a line that is there but invalid is counted as one. In no
      run is there such a line. */
  lemma MissOnInvalidIsCounted(g: Geometry, cs: Caches, k: nat, tag: nat)
    requires AllShaped(g, cs) && k < |cs|
    ensures var there := Holds(WaysFor(g, cs[k], tag), tag) && StateIn(g, cs[k], tag) == Invalid;
            && ReadLine(g, cs, k, tag)[k].stats.readOnInvalid == cs[k].stats.readOnInvalid + One(there)
            && WriteLine(g, cs, k, tag)[k].stats.writeOnInvalid == cs[k].stats.writeOnInvalid + One(there)
  {
    hide Shaped, StateIn, Holds, Looked, Filled, Upgraded, ReadRemote, WriteRemote, WaysFor;
    var own, found := Looked(g, cs[k], tag), Holds(WaysFor(g, cs[k], tag), tag);
    ReadRemoteCountsNothing(g, cs[k := own], own.cpuId, tag, 0, k);
    var m, m' := CountWriteMiss(own.stats, found, false), CountWriteMiss(own.stats, false, true);
    StillShaped(g, own, m);
    StillShaped(g, own, m');
    WriteRemoteCountsNothing(g, cs[k := own.(stats := m)], own.cpuId, tag, 0, k);
    WriteRemoteCountsNothing(g, cs[k := own.(stats := m')], own.cpuId, tag, 0, k);
  }

  lemma StillShaped(g: Geometry, c: Cache, n: Counters)
    requires Shaped(g, c)
    ensures Shaped(g, c.(stats := n))
  {
  }

  // -------------------------------------------------------------------------------------------
  // Which cache a thread is on.

  /** Cache k counts one access, and the others count nothing. */
  predicate CountedIn(cs: Caches, cs': Caches, k: nat, write: bool, j: nat) {
    j < |cs| && j < |cs'| &&
    var n, n' := cs[j].stats, cs'[j].stats;
    if j != k then n' == n
    else
      && n'.readHits + n'.readMisses == n.readHits + n.readMisses + One(!write)
      && n'.writeHits + n'.writeMisses == n.writeHits + n.writeMisses + One(write)
  }

  /** An access of a thread is counted in one cache, that of the thread's own number if there is one; and
      thread numbers that differ by the number of caches are on one cache. */
  lemma ThreadsShareCaches(g: Geometry, cs: Caches, tid: nat, addr: nat, write: bool)
    requires AllShaped(g, cs) && AllOk(g, cs) && Coherent(g, cs) && g.sets > 0 && g.assoc > 0
    requires |cs| > 0 && g.CalcTag(addr) != 0
    ensures var e := if write then WriteBy(tid, addr) else ReadBy(tid, addr);
            var later := if write then WriteBy(tid + |cs|, addr) else ReadBy(tid + |cs|, addr);
            && |Next(g, cs, e)| == |cs| && Next(g, cs, later) == Next(g, cs, e)
            && (tid < |cs| ==> forall j: nat :: j < |cs| ==> CountedIn(cs, Next(g, cs, e), tid, write, j))
  {
    hide AllShaped, AllOk, Coherent, StateIn, ReadLine, WriteLine, Geometry.CalcTag, Elsewhere;
    OneRoundMore(tid, |cs|);
    if tid < |cs| {
      var e := if write then WriteBy(tid, addr) else ReadBy(tid, addr);
      forall j: nat | j < |cs| ensures CountedIn(cs, Next(g, cs, e), tid, write, j) {
        ReadIsCounted(g, cs, tid, g.CalcTag(addr), j);
        WriteIsCounted(g, cs, tid, g.CalcTag(addr), j);
      }
    }
  }

  lemma OneRoundMore(tid: nat, caches: nat)
    requires caches > 0
    ensures CpuOf(tid + caches, caches) == CpuOf(tid, caches) && (tid < caches ==> CpuOf(tid, caches) == tid)
  {
    ModPlusMultiple(tid, caches, 1);
    if tid < caches { ModUnique(tid, caches, 0, tid); }
  }

  // -------------------------------------------------------------------------------------------
  // Whole runs.

  /** Event i is an access by cache j, which has the line in the state then. */
  ghost predicate Accesses(g: Geometry, es: seq<Event>, i: nat, j: nat, st: MSI) {
    i < |es| && g.sets > 0 && g.assoc > 0 && es[i].IsAccess() &&
    var cs := After(g, es, i);
    j < |cs| && es[i].tid % |cs| == j && g.CalcTag(es[i].addr) != 0 && StateIn(g, cs[j], g.CalcTag(es[i].addr)) == st
  }

  ghost predicate Reading(g: Geometry, es: seq<Event>, i: nat, j: nat, st: MSI) {
    Accesses(g, es, i, j, st) && es[i].ReadBy?
  }

  ghost predicate Writing(g: Geometry, es: seq<Event>, i: nat, j: nat, st: MSI) {
    Accesses(g, es, i, j, st) && es[i].WriteBy?
  }

  /** A read miss of cache j while another cache has the line in the state. */
  ghost predicate Served(g: Geometry, es: seq<Event>, i: nat, j: nat, st: MSI) {
    Reading(g, es, i, j, Invalid) && Elsewhere(g, After(g, es, i), j, g.CalcTag(es[i].addr), st)
  }

  ghost predicate CountsAre(g: Geometry, es: seq<Event>, n: nat, j: nat, c: Counters) {
    && c.readHits == Count(n, (i: nat) => Reading(g, es, i, j, Shared) || Reading(g, es, i, j, Modified))
    && c.readMisses == c.readRequestsSent == Count(n, (i: nat) => Reading(g, es, i, j, Invalid))
    && c.servicedByShared == Count(n, (i: nat) => Served(g, es, i, j, Shared))
    && c.servicedByModified == Count(n, (i: nat) => Served(g, es, i, j, Modified))
    && c.servicedByOthers == Count(n, (i: nat) => Served(g, es, i, j, Shared) || Served(g, es, i, j, Modified))
    && c.writeHits == Count(n, (i: nat) => Writing(g, es, i, j, Modified))
    && c.writeOnShared == Count(n, (i: nat) => Writing(g, es, i, j, Shared))
    && c.writeMisses == c.invalidatesSent ==
       Count(n, (i: nat) => Writing(g, es, i, j, Shared) || Writing(g, es, i, j, Invalid))
    && c.readOnInvalid == c.writeOnInvalid == 0
  }

  lemma CountsStep(g: Geometry, es: seq<Event>, n: nat, j: nat)
    requires n < |es| && g.sets > 0 && g.assoc > 0 && j < |After(g, es, n)|
    requires CountsAre(g, es, n, j, After(g, es, n)[j].stats)
    ensures j < |After(g, es, n + 1)| && CountsAre(g, es, n + 1, j, After(g, es, n + 1)[j].stats)
  {
    hide AllShaped, AllOk, Coherent, StateIn, ReadLine, WriteLine, EmptyCache, Geometry.CalcTag, Elsewhere;
    var cs, e := After(g, es, n), es[n];
    EveryRunIsCoherent(g, es, n);
    if e.IsAccess() && Allowed(g, cs, e) {
      var k, tag := CpuOf(e.tid, |cs|), g.CalcTag(e.addr);
      if e.ReadBy? { ReadIsCounted(g, cs, k, tag, j); } else { WriteIsCounted(g, cs, k, tag, j); }
    }
  }

  lemma {:induction false} NoneBefore(g: Geometry, es: seq<Event>, n: nat, j: nat, i: nat, st: MSI)
    requires n <= |es| && g.sets > 0 && g.assoc > 0 && |After(g, es, n)| <= j && i <= n
    ensures !Accesses(g, es, i, j, st)
    decreases n - i
  {
    hide AllShaped, StateIn, ReadLine, WriteLine, EmptyCache, Geometry.CalcTag;
    FewerBefore(g, es, i, n);
  }

  lemma {:induction false} FewerBefore(g: Geometry, es: seq<Event>, m: nat, n: nat)
    requires m <= n <= |es| && g.sets > 0 && g.assoc > 0
    ensures |After(g, es, m)| <= |After(g, es, n)|
  {
    hide AllShaped, ReadLine, WriteLine, EmptyCache, Geometry.CalcTag;
    if m < n { FewerBefore(g, es, m, n - 1); }
  }

  lemma NothingCounted(g: Geometry, es: seq<Event>, n: nat, j: nat)
    requires 0 < n <= |es| && g.sets > 0 && g.assoc > 0 && |After(g, es, n - 1)| <= j
    ensures CountsAre(g, es, n, j, ZERO)
  {
    hide Accesses, Elsewhere;
    var before := n - 1;
    forall i: nat, st | i < n ensures !Accesses(g, es, i, j, st) { NoneBefore(g, es, before, j, i, st); }
    CountNone(n, (i: nat) => Reading(g, es, i, j, Shared) || Reading(g, es, i, j, Modified));
    CountNone(n, (i: nat) => Reading(g, es, i, j, Invalid));
    CountNone(n, (i: nat) => Served(g, es, i, j, Shared));
    CountNone(n, (i: nat) => Served(g, es, i, j, Modified));
    CountNone(n, (i: nat) => Served(g, es, i, j, Shared) || Served(g, es, i, j, Modified));
    CountNone(n, (i: nat) => Writing(g, es, i, j, Modified));
    CountNone(n, (i: nat) => Writing(g, es, i, j, Shared));
    CountNone(n, (i: nat) => Writing(g, es, i, j, Shared) || Writing(g, es, i, j, Invalid));
  }

  lemma NewStartsAtZero(g: Geometry, es: seq<Event>, n: nat, j: nat)
    requires 0 < n <= |es| && g.sets > 0 && g.assoc > 0 && |After(g, es, n - 1)| <= j < |After(g, es, n)|
    ensures After(g, es, n)[j].stats == Counters(0, 0, 0, 0, 0, 0, 0, 0, 0, 0, 0, 0)
  {
    hide ReadLine, WriteLine, Geometry.CalcTag;
  }

  /** Main result: over every run, each counter of a cache is the number of the accesses it is named after. */
  lemma {:induction false} CountersAreExact(g: Geometry, es: seq<Event>, n: nat, j: nat)
    requires n <= |es| && g.sets > 0 && g.assoc > 0 && j < |After(g, es, n)|
    ensures CountsAre(g, es, n, j, After(g, es, n)[j].stats)
  {
    hide After, CountsAre;
    if n == 0 {
      NobodyAtFirst(g, es);
    } else if j < |After(g, es, n - 1)| {
      CountersAreExact(g, es, n - 1, j);
      CountsStep(g, es, n - 1, j);
    } else {
      NothingCounted(g, es, n, j);
      NewStartsAtZero(g, es, n, j);
    }
  }
}
