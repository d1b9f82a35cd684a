/** The simulator's objects: caches over their own storage, and the methods that loop over the other
    caches and change their lines in place, against the functions on cache states. */
module MultiCacheSimulator {
  import opened Optional
  import opened CacheWays
  import opened CacheGeometry
  import opened CacheStorage
  import opened Coherence
  import opened CoherenceRuns

  class SMPCache {
    const CPUId: nat
    const cache: CacheAssoc
    var stats: Counters

    ghost predicate Valid()
      reads this, cache, cache.mem, cache.content
    {
      cache.Valid()
    }

    ghost function View(): (c: Cache)
      requires Valid()
      reads this, cache, cache.mem, cache.content
      ensures Shaped(cache.g, c) && c.cpuId == CPUId && c.stats == stats
      ensures forall s :: 0 <= s < cache.g.sets ==> c.sets[s] == cache.Ways(s)
    {
      Cache(CPUId,
            seq(cache.g.sets, s requires 0 <= s < cache.g.sets && Valid() reads this, cache, cache.mem, cache.content =>
              cache.Ways(s)),
            stats)
    }

    constructor (cpuId: nat, g: Geometry)
      requires g.Usable()
      ensures Valid() && View() == EmptyCache(g, cpuId) && CPUId == cpuId && cache.g == g
      ensures fresh(cache) && fresh(cache.mem) && fresh(cache.content)
    {
      CPUId := cpuId;
      cache := new CacheAssoc(g);
      stats := ZERO;
    }

    method FindLine(tag: nat) returns (line: Option<nat>)
      requires Valid() && tag != 0
      modifies cache.content
      ensures Valid() && View() == Looked(cache.g, old(View()), tag)
      ensures line.Some? <==> Holds(WaysFor(cache.g, old(View()), tag), tag)
      ensures line.Some? ==> line.value < cache.mem.Length && cache.IsFront(line.value, tag)
      ensures line.Some? ==> cache.mem[line.value] == Found(WaysFor(cache.g, View(), tag), tag)
    {
      hide Lookup, Holds, Find, Found, Slice, Geometry.SetOf;
      line := cache.FindLine(tag);
      if line.Some? { cache.FrontIsFound(line.value, tag); }
    }

    method InvalidateLine(tag: nat, line: nat)
      requires Valid() && tag != 0 && cache.IsFront(line, tag)
      modifies cache.mem
      ensures Valid() && View() == WithWays(cache.g, old(View()), tag,
              Invalidate(WaysFor(cache.g, old(View()), tag), tag))
    {
      hide Invalidate, Slice, Geometry.SetOf;
      cache.InvalidateLine(tag, line);
    }

    method ChangeStateTo(tag: nat, line: nat, state: MSI)
      requires Valid() && tag != 0 && cache.IsFront(line, tag) && state != Invalid
      modifies cache.mem
      ensures Valid() && View() == WithWays(cache.g, old(View()), tag,
              ChangeState(WaysFor(cache.g, old(View()), tag), tag, state))
    {
      hide ChangeState, Slice, Geometry.SetOf;
      cache.ChangeStateTo(tag, line, state);
    }

    method FillLine(tag: nat, state: MSI)
      requires Valid() && tag != 0 && WaysOk(WaysFor(cache.g, View(), tag))
      modifies cache.mem, cache.content
      ensures Valid() && View() == Filled(cache.g, old(View()), tag, state)
    {
      hide Fill, Slice, Geometry.SetOf, WaysOk;
      cache.FillLine(tag, state);
    }

    /** One turn of the loop of readRemoteAction. */
    method SnoopRead(tag: nat) returns (done: bool, reply: RemoteReadService)
      requires Valid() && tag != 0
      modifies cache.mem, cache.content
      ensures Valid() && (View(), done, reply) == SnoopedRead(cache.g, old(View()), tag)
    {
      hide Lookup, Holds, Find, Found, Slice, Geometry.SetOf, ChangeState;
      ghost var before := View();
      ghost var looked := Lookup(WaysFor(cache.g, before, tag), tag);
      var line := FindLine(tag);
      if line.Some? {
        LookupFinds(WaysFor(cache.g, before, tag), tag);
        if cache.mem[line.value].state == Modified {
          ChangeStateTo(tag, line.value, Shared);
          WithWaysTwice(cache.g, before, tag, looked, ChangeState(looked, tag, Shared));
          return true, RemoteReadService(false, true);
        } else if cache.mem[line.value].state == Shared {
          return true, RemoteReadService(true, true);
        }
      }
      return false, RemoteReadService(false, false);
    }

    /** One turn of the loop of writeRemoteAction. */
    method SnoopWrite(tag: nat)
      requires Valid() && tag != 0
      modifies cache.mem, cache.content
      ensures Valid() && View() == SnoopedWrite(cache.g, old(View()), tag)
    {
      hide Lookup, Holds, Find, Found, Slice, Geometry.SetOf, Invalidate;
      ghost var before := View();
      ghost var looked := Lookup(WaysFor(cache.g, before, tag), tag);
      var line := FindLine(tag);
      LookupFinds(WaysFor(cache.g, before, tag), tag);
      if line.Some? && cache.mem[line.value].IsValid() {
        InvalidateLine(tag, line.value);
        WithWaysTwice(cache.g, before, tag, looked, Invalidate(looked, tag));
      }
    }
  }

  class MultiCacheSim {
    const g: Geometry
    var allCaches: seq<SMPCache>

    ghost function Repr(): set<object>
      reads this
    {
      (set c: SMPCache | c in allCaches :: c as object) + (set c: SMPCache | c in allCaches :: c.cache as object) +
      (set c: SMPCache | c in allCaches :: c.cache.mem as object)
        + (set c: SMPCache | c in allCaches :: c.cache.content as object)
    }

    lemma InRepr(i: nat)
      requires i < |allCaches|
      ensures allCaches[i] in Repr() && allCaches[i].cache.mem in Repr() && allCaches[i].cache.content in Repr()
    {
      var c := allCaches[i];
      assert c in allCaches;
    }

    /** The caches share no storage. */
    ghost predicate Apart()
      reads this
    {
      forall i, j :: 0 <= i < j < |allCaches| ==>
        && allCaches[i] != allCaches[j]
        && allCaches[i].cache.mem != allCaches[j].cache.mem && allCaches[i].cache.content != allCaches[j].cache.content
    }

    ghost predicate Valid()
      reads this, Repr()
    {
      && g.Usable() && Apart()
      && forall i :: 0 <= i < |allCaches| ==>
         allCaches[i].Valid() && allCaches[i].cache.g == g && allCaches[i].CPUId == i
    }

    ghost function View(): (cs: Caches)
      requires Valid()
      reads this, Repr()
      ensures AllShaped(g, cs) && |cs| == |allCaches|
      ensures forall i :: 0 <= i < |allCaches| ==> cs[i] == allCaches[i].View()
      ensures forall i :: 0 <= i < |allCaches| ==>
              cs[i].cpuId == allCaches[i].CPUId == i && cs[i].stats == allCaches[i].stats
    {
      seq(|allCaches|, i requires 0 <= i < |allCaches| && Valid() reads this, Repr() => allCaches[i].View())
    }

    constructor (geometry: Geometry)
      requires geometry.Usable()
      ensures Valid() && View() == [] && g == geometry
    {
      g := geometry;
      allCaches := [];
    }

    method CreateNewCache()
      requires Valid()
      modifies this
      ensures Valid() && View() == old(View()) + [EmptyCache(g, old(|allCaches|))] == Next(g, old(View()), NewCache)
      ensures fresh(Repr() - old(Repr()))
    {
      hide EmptyCache, Shaped, SMPCache.View;
      ghost var before := View();
      var newcache := new SMPCache(|allCaches|, g);
      assert before == View();
      allCaches := allCaches + [newcache];
      Joined(newcache);
    }

    /** A cache with storage of its own joins the others. */
    twostate lemma Joined(new c: SMPCache)
      requires old(Valid()) && allCaches == old(allCaches) + [c] && c.Valid() && c.cache.g == g
               && c.CPUId == old(|allCaches|)
      requires c !in old(allCaches) && unchanged(old(Repr()))
      requires forall d :: d in old(allCaches) ==> d.cache.mem != c.cache.mem && d.cache.content != c.cache.content
      ensures Valid() && View() == old(View()) + [c.View()]
    {
      hide Shaped, SMPCache.View;
      forall i | 0 <= i < old(|allCaches|)
        ensures allCaches[i].Valid() && allCaches[i].View() == old(allCaches[i].View())
      {
        assert allCaches[i] in old(allCaches);
      }
    }

    /** The lookup loop; ids are given out in order. */
    method FindCacheByCPUId(cpuId: nat) returns (k: Option<nat>)
      requires Valid()
      ensures k == if cpuId < |allCaches| then Some(cpuId) else None
    {
      for i := 0 to |allCaches|
        invariant cpuId >= i
      {
        if allCaches[i].CPUId == cpuId {
          return Some(i);
        }
      }
      return None;
    }

    /** A change of one cache's storage shows in no other cache. */
    twostate lemma OnlyOne(i: nat)
      requires old(Valid()) && allCaches == old(allCaches) && i < |allCaches|
      requires allCaches[i].Valid()
               && unchanged(Repr() - {allCaches[i], allCaches[i].cache.mem, allCaches[i].cache.content})
      ensures Valid() && View() == old(View())[i := allCaches[i].View()]
    {
      forall j | 0 <= j < |allCaches| && j != i
        ensures allCaches[j].Valid() && allCaches[j].View() == old(allCaches[j].View())
      {
        assert allCaches[j].cache.mem in Repr() && allCaches[j].cache.content in Repr() && allCaches[j] in Repr();
      }
    }

    method SnoopReadAt(i: nat, tag: nat) returns (done: bool, reply: RemoteReadService)
      requires Valid() && tag != 0 && i < |allCaches|
      modifies allCaches[i].cache.mem, allCaches[i].cache.content
      ensures Valid() && View() == old(View())[i := SnoopedRead(g, old(View())[i], tag).0]
      ensures done == SnoopedRead(g, old(View())[i], tag).1 && reply == SnoopedRead(g, old(View())[i], tag).2
    {
      hide SnoopedRead, Shaped;
      done, reply := allCaches[i].SnoopRead(tag);
      OnlyOne(i);
    }

    method ReadRemoteAction(cpuId: nat, tag: nat) returns (reply: RemoteReadService)
      requires Valid() && tag != 0
      modifies Repr()
      ensures Valid() && (View(), reply) == ReadRemote(g, old(View()), cpuId, tag, 0)
      ensures allCaches == old(allCaches)
    {
      hide SnoopedRead, Geometry.SetOf, Shaped, ReadRemote, SMPCache.View, Apart, Valid, Repr;
      var i := 0;
      while i < |allCaches|
        invariant i <= |allCaches| && allCaches == old(allCaches) && Repr() == old(Repr()) && Valid()
        invariant ReadRemote(g, View(), cpuId, tag, i) == ReadRemote(g, old(View()), cpuId, tag, 0)
      {
        ReadRemoteTurn(g, View(), cpuId, tag, i);
        if allCaches[i].CPUId != cpuId {
          InRepr(i);
          var done, answer := SnoopReadAt(i, tag);
          if done {
            return answer;
          }
        }
        i := i + 1;
      }
      ReadRemoteEnd(g, View(), cpuId, tag);
      return RemoteReadService(false, false);
    }

    method SnoopWriteAt(i: nat, tag: nat)
      requires Valid() && tag != 0 && i < |allCaches|
      modifies allCaches[i].cache.mem, allCaches[i].cache.content
      ensures Valid() && View() == old(View())[i := SnoopedWrite(g, old(View())[i], tag)]
      ensures forall k :: 0 <= k < |allCaches| && k != i ==>
              unchanged(allCaches[k].cache.content, allCaches[k].cache.mem)
    {
      hide SnoopedWrite, Shaped;
      allCaches[i].SnoopWrite(tag);
      OnlyOne(i);
    }

    method WriteRemoteAction(cpuId: nat, tag: nat)
      requires Valid() && tag != 0
      modifies Repr()
      ensures Valid() && View() == WriteRemote(g, old(View()), cpuId, tag, 0)
      ensures allCaches == old(allCaches)
      ensures cpuId < |allCaches| ==> unchanged(allCaches[cpuId].cache.content, allCaches[cpuId].cache.mem)
    {
      hide SnoopedWrite, Geometry.SetOf, Shaped, WriteRemote, SMPCache.View, Apart, Valid, Repr;
      var i := 0;
      while i < |allCaches|
        invariant i <= |allCaches| && allCaches == old(allCaches) && Repr() == old(Repr()) && Valid()
        invariant WriteRemote(g, View(), cpuId, tag, i) == WriteRemote(g, old(View()), cpuId, tag, 0)
        invariant cpuId < |allCaches| ==> unchanged(allCaches[cpuId].cache.content, allCaches[cpuId].cache.mem)
      {
        WriteRemoteTurn(g, View(), cpuId, tag, i);
        if allCaches[i].CPUId != cpuId {
          InRepr(i);
          SnoopWriteAt(i, tag);
        }
        i := i + 1;
      }
      WriteRemoteEnd(g, View(), cpuId, tag);
    }

    // the three things an access does to its own cache

    method FindAt(k: nat, tag: nat) returns (line: Option<nat>)
      requires Valid() && tag != 0 && k < |allCaches|
      modifies allCaches[k].cache.content
      ensures Valid() && View() == old(View())[k := Looked(g, old(View())[k], tag)]
      ensures line.Some? <==> Holds(WaysFor(g, old(View())[k], tag), tag)
      ensures line.Some? ==> line.value < allCaches[k].cache.mem.Length && allCaches[k].cache.IsFront(line.value, tag)
                             && allCaches[k].cache.mem[line.value].state == StateIn(g, View()[k], tag)
    {
      hide Looked, Shaped, Holds, Geometry.SetOf, WaysFor, Find, Found, Lookup, CacheAssoc.IsFront, CacheAssoc.Ways;
      line := allCaches[k].FindLine(tag);
      OnlyOne(k);
    }

    method FillAt(k: nat, tag: nat, state: MSI)
      requires Valid() && tag != 0 && k < |allCaches| && WaysOk(WaysFor(g, View()[k], tag))
      modifies allCaches[k].cache.mem, allCaches[k].cache.content
      ensures Valid() && View() == old(View())[k := Filled(g, old(View())[k], tag, state)]
    {
      hide Filled, Shaped, WaysFor, WaysOk;
      allCaches[k].FillLine(tag, state);
      OnlyOne(k);
    }

    method Count(k: nat, n: Counters)
      requires Valid() && k < |allCaches|
      modifies allCaches[k]
      ensures Valid() && View() == old(View())[k := old(View())[k].(stats := n)]
    {
      hide Shaped;
      allCaches[k].stats := n;
      assert allCaches[k].View() == old(View())[k].(stats := n);
      OnlyOne(k);
    }

    method UpgradeAt(k: nat, tag: nat, line: nat)
      requires Valid() && tag != 0 && k < |allCaches| && allCaches[k].cache.IsFront(line, tag)
      modifies allCaches[k].cache.mem
      ensures Valid() && View() == old(View())[k := Upgraded(g, old(View())[k], tag)]
    {
      hide Shaped, WaysFor, ChangeState;
      allCaches[k].ChangeStateTo(tag, line, Modified);
      OnlyOne(k);
    }

    method ReadMiss(k: nat, tag: nat, found: bool)
      requires Valid() && tag != 0 && k < |allCaches| && AllOk(g, View()) && Coherent(g, View())
      modifies Repr()
      ensures Valid() && allCaches == old(allCaches)
      ensures var (cs1, reply) := ReadRemote(g, old(View()), k, tag, 0);
              View() == cs1[k := Filled(g, cs1[k], tag, Shared).(stats := CountReadMiss(cs1[k].stats, found, reply))]
    {
      hide Filled, Shaped, Geometry.SetOf, WaysFor, CountReadMiss, StateIn, ReadRemote, Apart, CacheOk, SMPCache.View,
           Coherent;
      ReadRemoteIsExact(g, View(), k, tag, 0);
      var reply := ReadRemoteAction(k, tag);
      SetIsOk(g, View()[k], tag);
      var n := allCaches[k].stats;
      FillAt(k, tag, Shared);
      Count(k, CountReadMiss(n, found, reply));
    }

    /** A read by cache k. */
    method CacheReadLine(k: nat, tag: nat)
      requires Valid() && tag != 0 && k < |allCaches| && AllOk(g, View()) && Coherent(g, View())
      modifies Repr()
      ensures Valid() && View() == Coherence.ReadLine(g, old(View()), k, tag) && allCaches == old(allCaches)
    {
      hide Looked, Filled, Shaped, Holds, Geometry.SetOf, WaysFor, CountReadMiss, CountReadHit, StateIn, ReadRemote,
           Apart, CacheOk, SMPCache.View, Coherent;
      ghost var cs := View();
      MissIsEmpty(g, cs[k], tag);
      var line := FindAt(k, tag);
      if line.None? || !allCaches[k].cache.mem[line.value].IsValid() {
        assert View() == cs;
        ReadMiss(k, tag, line.Some?);
      } else {
        Count(k, CountReadHit(allCaches[k].stats));
      }
    }

    /** Count a write miss and put it on the bus, which leaves the cache's own storage alone. */
    method SendInvalidates(k: nat, tag: nat, n: Counters)
      requires Valid() && tag != 0 && k < |allCaches| && AllOk(g, View())
      modifies Repr()
      ensures Valid() && allCaches == old(allCaches)
      ensures View() == WriteRemote(g, old(View())[k := old(View())[k].(stats := n)], k, tag, 0)
      ensures unchanged(allCaches[k].cache.content, allCaches[k].cache.mem)
    {
      hide Shaped, WriteRemote, Apart, CacheOk, SMPCache.View, StateIn;
      NewStats(g, View()[k], n);
      Count(k, n);
      WriteRemoteAction(k, tag);
    }

    method WriteMiss(k: nat, tag: nat, found: bool)
      requires Valid() && tag != 0 && k < |allCaches| && AllOk(g, View())
      modifies Repr()
      ensures Valid() && allCaches == old(allCaches)
      ensures var counted := old(View())[k].(stats := CountWriteMiss(old(View())[k].stats, found, false));
              var cs1 := WriteRemote(g, old(View())[k := counted], k, tag, 0);
              View() == cs1[k := Filled(g, cs1[k], tag, Modified)]
    {
      hide Filled, Shaped, Geometry.SetOf, WaysFor, WriteRemote, CountWriteMiss, StateIn, Apart, CacheOk, SMPCache.View;
      ghost var c := View()[k];
      var n := CountWriteMiss(allCaches[k].stats, found, false);
      NewStats(g, c, n);
      WriteRemoteIsExact(g, View()[k := c.(stats := n)], k, tag, 0);
      SendInvalidates(k, tag, n);
      SetIsOk(g, View()[k], tag);
      FillAt(k, tag, Modified);
    }

    method WriteUpgrade(k: nat, tag: nat, line: nat)
      requires Valid() && tag != 0 && k < |allCaches| && AllOk(g, View()) && allCaches[k].cache.IsFront(line, tag)
      modifies Repr()
      ensures Valid() && allCaches == old(allCaches)
      ensures var counted := old(View())[k].(stats := CountWriteMiss(old(View())[k].stats, false, true));
              var cs1 := WriteRemote(g, old(View())[k := counted], k, tag, 0);
              View() == cs1[k := Upgraded(g, cs1[k], tag)]
    {
      hide Upgraded, Shaped, Geometry.SetOf, WaysFor, WriteRemote, CountWriteMiss, StateIn, Apart, CacheOk,
           SMPCache.View;
      SendInvalidates(k, tag, CountWriteMiss(allCaches[k].stats, false, true));
      UpgradeAt(k, tag, line);
    }

    /** A write by cache k. */
    method CacheWriteLine(k: nat, tag: nat)
      requires Valid() && tag != 0 && k < |allCaches| && AllOk(g, View())
      modifies Repr()
      ensures Valid() && View() == Coherence.WriteLine(g, old(View()), k, tag) && allCaches == old(allCaches)
    {
      hide Coherence.WriteLine, Looked, Filled, Upgraded, Shaped, Holds, Geometry.SetOf, WaysFor, CountWriteMiss,
           CountWriteHit, StateIn, WriteRemote, Apart, CacheOk, SMPCache.View, AllOk;
      ghost var cs := View();
      assert allCaches[k] in Repr();
      WriteLineIs(g, cs, k, tag);
      var line := FindAt(k, tag);
      if line.None? || !allCaches[k].cache.mem[line.value].IsValid() {
        WriteMiss(k, tag, line.Some?);
      } else if allCaches[k].cache.mem[line.value].state == Shared {
        WriteUpgrade(k, tag, line.value);
      } else {
        Count(k, CountWriteHit(allCaches[k].stats));
      }
    }

    ghost predicate Good()
      requires Valid()
      reads this, Repr()
    {
      AllOk(g, View()) && Coherent(g, View())
    }

    /** The locked entry points. */
    method ReadLine(tid: nat, addr: nat)
      requires Valid() && Good() && |allCaches| > 0 && g.CalcTag(addr) != 0
      modifies Repr()
      ensures Valid() && Good() && View() == Next(g, old(View()), ReadBy(tid, addr))
    {
      hide Coherence.ReadLine, AllOk, Coherent, SMPCache.View, Apart, Geometry.CalcTag;
      ReadKeepsCoherent(g, View(), CpuOf(tid, |allCaches|), g.CalcTag(addr));
      var k := FindCacheByCPUId(CpuOf(tid, |allCaches|));
      CacheReadLine(k.value, g.CalcTag(addr));
    }

    method WriteLine(tid: nat, addr: nat)
      requires Valid() && Good() && |allCaches| > 0 && g.CalcTag(addr) != 0
      modifies Repr()
      ensures Valid() && Good() && View() == Next(g, old(View()), WriteBy(tid, addr))
    {
      hide Coherence.WriteLine, AllOk, Coherent, SMPCache.View, Apart, Geometry.CalcTag;
      WriteKeepsCoherent(g, View(), CpuOf(tid, |allCaches|), g.CalcTag(addr));
      var k := FindCacheByCPUId(CpuOf(tid, |allCaches|));
      CacheWriteLine(k.value, g.CalcTag(addr));
    }
  }

  /** A write, from the state after the cache's own lookup on. */
  lemma WriteLineIs(g: Geometry, cs: Caches, k: nat, tag: nat)
    requires AllShaped(g, cs) && AllOk(g, cs) && k < |cs| && tag != 0
    ensures var mid := cs[k := Looked(g, cs[k], tag)];
            var found, st, own := Holds(WaysFor(g, cs[k], tag), tag), StateIn(g, mid[k], tag), mid[k];
            && AllOk(g, mid)
            && WriteLine(g, cs, k, tag) ==
               if !found || st == Invalid then
                 var cs1 := WriteRemote(g, mid[k := own.(stats := CountWriteMiss(own.stats, found, false))], k, tag, 0);
                 cs1[k := Filled(g, cs1[k], tag, Modified)]
               else if st == Shared then
                 var cs1 := WriteRemote(g, mid[k := own.(stats := CountWriteMiss(own.stats, false, true))], k, tag, 0);
                 cs1[k := Upgraded(g, cs1[k], tag)]
               else mid[k := own.(stats := CountWriteHit(own.stats))]
  {
    hide Looked, Filled, Upgraded, Holds, WaysFor, CountWriteMiss, CountWriteHit, StateIn, WriteRemote, CacheOk, Shaped;
    MissIsEmpty(g, cs[k], tag);
    var own := Looked(g, cs[k], tag);
    var found := Holds(WaysFor(g, cs[k], tag), tag);
    TwoUpdates(cs, k, own, own.(stats := CountWriteMiss(own.stats, found, false)));
    TwoUpdates(cs, k, own, own.(stats := CountWriteMiss(own.stats, false, true)));
    TwoUpdates(cs, k, own, own.(stats := CountWriteHit(own.stats)));
  }

  lemma TwoUpdates(cs: Caches, k: nat, a: Cache, b: Cache)
    requires k < |cs|
    ensures cs[k := a][k := b] == cs[k := b]
  {
  }

  lemma MissIsEmpty(g: Geometry, c: Cache, tag: nat)
    requires CacheOk(g, c) && tag != 0
    ensures Holds(WaysFor(g, c, tag), tag) <==> StateIn(g, c, tag) != Invalid
    ensures StateIn(g, Looked(g, c, tag), tag) == StateIn(g, c, tag) && CacheOk(g, Looked(g, c, tag))
    ensures StateIn(g, c, tag) == Invalid ==> Looked(g, c, tag) == c
  {
    hide Looked, StateIn, CacheOk, Shaped;
    MissLeavesAlone(g, c, tag);
    LookedStates(g, c, tag);
  }

  lemma SetIsOk(g: Geometry, c: Cache, tag: nat)
    requires CacheOk(g, c)
    ensures WaysOk(WaysFor(g, c, tag))
  {
  }

  lemma ReadRemoteTurn(g: Geometry, cs: Caches, cpuId: nat, tag: nat, i: nat)
    requires AllShaped(g, cs) && i < |cs|
    ensures ReadRemote(g, cs, cpuId, tag, i) ==
            if cs[i].cpuId == cpuId then ReadRemote(g, cs, cpuId, tag, i + 1)
            else var (c, done, reply) := SnoopedRead(g, cs[i], tag);
                 if done then (cs[i := c], reply) else ReadRemote(g, cs[i := c], cpuId, tag, i + 1)
  {
  }

  lemma ReadRemoteEnd(g: Geometry, cs: Caches, cpuId: nat, tag: nat)
    requires AllShaped(g, cs)
    ensures ReadRemote(g, cs, cpuId, tag, |cs|) == (cs, RemoteReadService(false, false))
  {
  }

  lemma WriteRemoteTurn(g: Geometry, cs: Caches, cpuId: nat, tag: nat, i: nat)
    requires AllShaped(g, cs) && i < |cs|
    ensures WriteRemote(g, cs, cpuId, tag, i) ==
            WriteRemote(g, if cs[i].cpuId == cpuId then cs else cs[i := SnoopedWrite(g, cs[i], tag)], cpuId, tag, i + 1)
  {
  }

  lemma WriteRemoteEnd(g: Geometry, cs: Caches, cpuId: nat, tag: nat)
    requires AllShaped(g, cs)
    ensures WriteRemote(g, cs, cpuId, tag, |cs|) == cs
  {
  }

  lemma LookupFinds(ways: seq<Line>, tag: nat)
    ensures Found(Lookup(ways, tag), tag) == Found(ways, tag)
    ensures !Holds(ways, tag) ==> Found(ways, tag).state == Invalid
  {
    if Holds(ways, tag) { assert Find(Lookup(ways, tag), tag) == 0; }
  }
}
