/** Two simulators with different numbers of ways, fed the same events. The snoops that a set sees come from
    other caches' misses, which depend on the ways; so more ways can turn a hit into a miss. They never do
    exactly where the narrow sets have one way or there is one cache. */
module InclusionInRuns {
  import opened Bits
  import opened CacheWays
  import opened CacheGeometry
  import opened Recency
  import opened LruRuns
  import opened LruInclusion
  import opened Coherence
  import opened SetsInRuns
  import opened SimulatorCounts
  import Runs = CoherenceRuns

  predicate Has(g: Geometry, cs: Caches, j: nat, tag: nat)
    requires AllShaped(g, cs) && j < |cs|
  {
    Holds(WaysFor(g, cs[j], tag), tag)
  }

  predicate Sized(g: Geometry, ways: nat, sets: nat, shift: nat) {
    g.assoc == ways && g.sets == sets && g.shift == shift
  }

  /** The same sets and lines, with ways of their own. */
  predicate Alike(g: Geometry, g': Geometry) {
    g.assoc > 0 && g'.assoc > 0 && g.sets == g'.sets > 0 && g.shift == g'.shift
  }

  lemma {:induction false} SameCaches(g: Geometry, g': Geometry, es: seq<Runs.Event>, n: nat)
    requires n <= |es| && Alike(g, g')
    ensures |Runs.After(g, es, n)| == |Runs.After(g', es, n)|
  {
    hide ReadLine, WriteLine, Runs.EmptyCache;
    if n > 0 { SameCaches(g, g', es, n - 1); }
  }

  lemma MoreCaches(g: Geometry, es: seq<Runs.Event>, n: nat)
    requires n < |es| && g.sets > 0 && g.assoc > 0
    ensures |Runs.After(g, es, n)| <= |Runs.After(g, es, n + 1)| <= |Runs.After(g, es, n)| + 1
    ensures es[n].IsAccess() ==> |Runs.After(g, es, n + 1)| == |Runs.After(g, es, n)|
  {
    hide ReadLine, WriteLine, Runs.EmptyCache, Geometry.CalcTag;
  }

  // -------------------------------------------------------------------------------------------
  // One way: a cache holds a line just when its last access in the set was to it, and no other cache
  // has written it since. With any number of ways it holds such a line.

  ghost predicate Kept(g: Geometry, es: seq<Runs.Event>, n: nat, j: nat, tag: nat)
    requires n <= |es| && g.sets > 0 && g.assoc > 0
  {
    n > 0 &&
    var cs, e := Runs.After(g, es, n - 1), es[n - 1];
    if !e.IsAccess() || !Runs.Allowed(g, cs, e) then Kept(g, es, n - 1, j, tag)
    else
      var k, t := Runs.CpuOf(e.tid, |cs|), g.CalcTag(e.addr);
      if k == j && t == tag then true
      else if k == j && g.SetOf(t) == g.SetOf(tag) then false
      else if t == tag && e.WriteBy? then false
      else Kept(g, es, n - 1, j, tag)
  }

  lemma {:induction false} SameKept(g: Geometry, g': Geometry, es: seq<Runs.Event>, n: nat, j: nat, tag: nat)
    requires n <= |es| && Alike(g, g')
    ensures Kept(g, es, n, j, tag) == Kept(g', es, n, j, tag)
  {
    hide Runs.After;
    if n > 0 {
      SameCaches(g, g', es, n - 1);
      SameKept(g, g', es, n - 1, j, tag);
    }
  }

  lemma HasIsState(g: Geometry, cs: Caches, j: nat, tag: nat)
    requires AllShaped(g, cs) && AllOk(g, cs) && j < |cs| && tag != 0
    ensures Has(g, cs, j, tag) <==> StateIn(g, cs[j], tag) != Invalid
  {
    hide CacheOk, StateIn, Shaped, Holds, WaysFor;
    SetIsOk(g, cs[j], tag);
  }

  /** Two tags do not fit in one way. */
  lemma OneWayOneTag(g: Geometry, cs: Caches, j: nat, tag: nat, t: nat)
    requires AllShaped(g, cs) && AllOk(g, cs) && j < |cs| && g.sets > 0 && g.assoc == 1 && g.SetOf(t) == g.SetOf(tag)
             && t != tag
    requires Has(g, cs, j, t)
    ensures !Has(g, cs, j, tag)
  {
    hide CacheOk, Geometry.SetOf;
  }

  /** What an access leaves of a line in cache j. */
  lemma AccessKeeps(g: Geometry, cs: Caches, e: Runs.Event, j: nat, tag: nat)
    requires AllShaped(g, cs) && AllOk(g, cs) && Coherent(g, cs) && g.sets > 0 && g.assoc > 0
    requires e.IsAccess() && Runs.Allowed(g, cs, e) && j < |cs| && tag != 0
    ensures var cs' := Runs.Next(g, cs, e);
            var k, t := Runs.CpuOf(e.tid, |cs|), g.CalcTag(e.addr);
            && |cs'| == |cs|
            && (t == tag ==> Has(g, cs', j, tag) == (k == j || (e.ReadBy? && Has(g, cs, j, tag))))
            && (t != tag && (k != j || g.SetOf(t) != g.SetOf(tag)) ==> Has(g, cs', j, tag) == Has(g, cs, j, tag))
            && (t != tag && k == j && g.SetOf(t) == g.SetOf(tag) && g.assoc == 1 ==> !Has(g, cs', j, tag))
  {
    hide AllOk, CacheOk, Shaped, StateIn, ReadLine, WriteLine, Has, Geometry.SetOf, Geometry.CalcTag, Victim, Coherent;
    var cs' := Runs.Next(g, cs, e);
    var k, t := Runs.CpuOf(e.tid, |cs|), g.CalcTag(e.addr);
    if e.ReadBy? { ReadIsExact(g, cs, k, t); } else { WriteIsExact(g, cs, k, t); }
    HasIsState(g, cs, j, tag);
    HasIsState(g, cs', j, tag);
    HasIsState(g, cs', k, t);
    VictimOf(g, cs, k, t);
    if t != tag && k == j && g.SetOf(t) == g.SetOf(tag) && g.assoc == 1 { OneWayOneTag(g, cs', j, tag, t); }
  }

  lemma VictimOf(g: Geometry, cs: Caches, k: nat, t: nat)
    requires AllShaped(g, cs) && AllOk(g, cs) && k < |cs|
    ensures Victim(g, cs[k], t) != 0 ==> g.SetOf(Victim(g, cs[k], t)) == g.SetOf(t)
  {
    hide CacheOk, Shaped, Victim, Geometry.SetOf;
    VictimInSet(g, cs[k], t);
  }

  lemma NewcomerHasNothing(g: Geometry, cs: Caches, j: nat, tag: nat)
    requires AllShaped(g, cs) && g.sets > 0 && g.assoc > 0 && j <= |cs| && tag != 0
    ensures var cs' := Runs.Next(g, cs, Runs.NewCache);
            |cs'| == |cs| + 1 && Has(g, cs', j, tag) == (j < |cs| && Has(g, cs, j, tag))
  {
    hide Geometry.SetOf;
  }

  /** With any number of ways. */
  lemma {:induction false} KeptIsHeld(g: Geometry, es: seq<Runs.Event>, n: nat, j: nat, tag: nat)
    requires n <= |es| && g.sets > 0 && g.assoc > 0 && tag != 0 && Kept(g, es, n, j, tag)
    ensures j < |Runs.After(g, es, n)| && Has(g, Runs.After(g, es, n), j, tag)
  {
    hide Runs.Next, Runs.After, Has, AllOk, Coherent, Geometry.SetOf, Geometry.CalcTag;
    var cs, e := Runs.After(g, es, n - 1), es[n - 1];
    RunSucc(g, es, n);
    Runs.EveryRunIsCoherent(g, es, n - 1);
    if !e.IsAccess() || !Runs.Allowed(g, cs, e) {
      KeptIsHeld(g, es, n - 1, j, tag);
      QuietEvent(g, cs, e, j, tag);
    } else {
      if !(Runs.CpuOf(e.tid, |cs|) == j && g.CalcTag(e.addr) == tag) { KeptIsHeld(g, es, n - 1, j, tag); }
      AccessKeeps(g, cs, e, j, tag);
    }
  }

  lemma QuietEvent(g: Geometry, cs: Caches, e: Runs.Event, j: nat, tag: nat)
    requires AllShaped(g, cs) && g.sets > 0 && g.assoc > 0 && tag != 0 && (!e.IsAccess() || !Runs.Allowed(g, cs, e))
    ensures |cs| <= |Runs.Next(g, cs, e)| <= |cs| + 1
    ensures j < |Runs.Next(g, cs, e)| ==> Has(g, Runs.Next(g, cs, e), j, tag) == (j < |cs| && Has(g, cs, j, tag))
  {
    hide Has, ReadLine, WriteLine, Runs.EmptyCache, Geometry.CalcTag;
    if e.NewCache? && j <= |cs| { NewcomerHasNothing(g, cs, j, tag); }
  }

  lemma {:induction false} HeldIsKept(g: Geometry, es: seq<Runs.Event>, n: nat, j: nat, tag: nat)
    requires n <= |es| && g.sets > 0 && g.assoc == 1 && tag != 0
    requires j < |Runs.After(g, es, n)| && Has(g, Runs.After(g, es, n), j, tag)
    ensures Kept(g, es, n, j, tag)
  {
    hide Runs.Next, Runs.After, Has, AllOk, Coherent, Geometry.SetOf, Geometry.CalcTag;
    RunSucc(g, es, n);
    var cs, e := Runs.After(g, es, n - 1), es[n - 1];
    Runs.EveryRunIsCoherent(g, es, n - 1);
    if !e.IsAccess() || !Runs.Allowed(g, cs, e) {
      QuietEvent(g, cs, e, j, tag);
      HeldIsKept(g, es, n - 1, j, tag);
    } else {
      AccessKeepsCount(g, cs, e);
      AccessKeeps(g, cs, e, j, tag);
      if Has(g, cs, j, tag) { HeldIsKept(g, es, n - 1, j, tag); }
    }
  }

  lemma AccessKeepsCount(g: Geometry, cs: Caches, e: Runs.Event)
    requires AllShaped(g, cs) && g.sets > 0 && g.assoc > 0 && e.IsAccess()
    ensures |Runs.Next(g, cs, e)| == |cs|
  {
    hide ReadLine, WriteLine, Geometry.CalcTag;
  }

  /** A direct-mapped cache holds nothing that one with more ways lacks, in any run. */
  lemma OneWayIncluded(g: Geometry, g': Geometry, es: seq<Runs.Event>, n: nat, j: nat, tag: nat)
    requires n <= |es| && Alike(g, g') && g.assoc == 1 && tag != 0
    requires j < |Runs.After(g, es, n)| && Has(g, Runs.After(g, es, n), j, tag)
    ensures j < |Runs.After(g', es, n)| && Has(g', Runs.After(g', es, n), j, tag)
  {
    hide Runs.After, Has, Kept;
    HeldIsKept(g, es, n, j, tag);
    SameKept(g, g', es, n, j, tag);
    KeptIsHeld(g', es, n, j, tag);
  }

  // -------------------------------------------------------------------------------------------
  // One cache: nothing is snooped.

  lemma AppliedAccess(ways: seq<Line>, more: seq<Use>, t: nat, state: MSI)
    requires WaysOk(ways) && |ways| > 0 && t != 0 && state != Invalid
    requires more == [Access(t, state)] || more == [Access(t, state), Mark(t, Modified)]
    ensures WaysOk(Applied(ways, more)) && Recent(Applied(ways, more)) == Enter(Recent(ways), t, |ways|)
  {
    hide WaysOk, Recent, Step, Applied, Enter;
    AppliedFew(ways, Access(t, state), Mark(t, Modified));
    StepIsListStep(ways, Access(t, state));
    StepIsListStep(Step(ways, Access(t, state)), Mark(t, Modified));
  }

  lemma AppliedLook(ways: seq<Line>, more: seq<Use>, t: nat)
    requires WaysOk(ways) && |ways| > 0 && t != 0
    requires more == [Look(t)] || more == [Look(t), Mark(t, Shared)]
    ensures Recent(Applied(ways, more)) == Touch(Recent(ways), t)
  {
    hide WaysOk, Recent, Step, Applied, Touch;
    AppliedFew(ways, Look(t), Mark(t, Shared));
    StepIsListStep(ways, Look(t));
    StepIsListStep(Step(ways, Look(t)), Mark(t, Shared));
  }

  /** The tags of set s of cache j. */
  function TagsOf(g: Geometry, cs: Caches, j: nat, s: nat): seq<nat>
    requires AllShaped(g, cs) && j < |cs| && s < g.sets
  {
    Recent(cs[j].sets[s])
  }

  lemma SetsOk(g: Geometry, cs: Caches, j: nat, s: nat)
    requires AllShaped(g, cs) && AllOk(g, cs) && j < |cs| && s < g.sets
    ensures |cs[j].sets[s]| == g.assoc && WaysOk(cs[j].sets[s])
    ensures Distinct(TagsOf(g, cs, j, s)) && |TagsOf(g, cs, j, s)| <= g.assoc
  {
    hide WaysOk, Recent, Distinct, Geometry.SetOf;
    assert CacheOk(g, cs[j]);
    assert SetOk(g, cs[j].sets[s], s);
    RecentDistinct(cs[j].sets[s]);
  }

  lemma HasIsRecent(g: Geometry, cs: Caches, j: nat, tag: nat)
    requires AllShaped(g, cs) && AllOk(g, cs) && j < |cs| && g.sets > 0 && tag != 0
    ensures Has(g, cs, j, tag) <==> tag in TagsOf(g, cs, j, g.SetOf(tag))
  {
    hide AllOk, WaysOk, Recent, Holds, Geometry.SetOf, CacheOk;
    SetsOk(g, cs, j, g.SetOf(tag));
    HoldsIsRecent(cs[j].sets[g.SetOf(tag)], tag);
  }

  /** The access's own cache, whatever others there are. */
  lemma OwnTags(g: Geometry, cs: Caches, e: Runs.Event, j: nat, s: nat)
    requires AllShaped(g, cs) && AllOk(g, cs) && g.assoc > 0 && j < |cs| && s < g.sets
    requires e.IsAccess() && Runs.Allowed(g, cs, e) && Runs.CpuOf(e.tid, |cs|) == j
    ensures j < |Runs.Next(g, cs, e)|
    ensures TagsOf(g, Runs.Next(g, cs, e), j, s) ==
            if g.SetOf(g.CalcTag(e.addr)) == s then Enter(TagsOf(g, cs, j, s), g.CalcTag(e.addr), g.assoc)
            else TagsOf(g, cs, j, s)
  {
    hide AllOk, CacheOk, Recent, WaysOk, Applied, Enter, Runs.Next, StateIn, Reaches, Geometry.SetOf, Geometry.CalcTag;
    SetsOk(g, cs, j, s);
    EventSet(g, cs, e, j, s);
    NothingApplied(cs[j].sets[s]);
    var t := g.CalcTag(e.addr);
    if g.SetOf(t) == s {
      AppliedAccess(cs[j].sets[s], EventUses(g, cs, e, j, s), t, if e.ReadBy? then Shared else Modified);
    }
  }

  lemma {:induction false} OneCachePrefix(g: Geometry, g': Geometry, es: seq<Runs.Event>, n: nat, s: nat)
    requires n <= |es| && Alike(g, g') && g.assoc <= g'.assoc && s < g.sets
    requires |Runs.After(g, es, n)| == |Runs.After(g', es, n)| == 1
    ensures Prefix(TagsOf(g, Runs.After(g, es, n), 0, s), TagsOf(g', Runs.After(g', es, n), 0, s))
  {
    hide AllOk, Coherent, Prefix, Runs.Next, Runs.After, TagsOf, Enter, Distinct, Geometry.SetOf, Geometry.CalcTag;
    RunSucc(g, es, n);
    RunSucc(g', es, n);
    MoreCaches(g, es, n - 1);
    SameCaches(g, g', es, n - 1);
    var cs, cs', e := Runs.After(g, es, n - 1), Runs.After(g', es, n - 1), es[n - 1];
    if |cs| == 0 {
      FirstCacheEmpty(g, es, n, s);
      FirstCacheEmpty(g', es, n, s);
      EmptyIsPrefix(TagsOf(g', Runs.After(g', es, n), 0, s));
    } else {
      OneCachePrefix(g, g', es, n - 1, s);
      Runs.EveryRunIsCoherent(g, es, n - 1);
      Runs.EveryRunIsCoherent(g', es, n - 1);
      SetsOk(g, cs, 0, s);
      SetsOk(g', cs', 0, s);
      SameAllowed(g, g', cs, cs', e);
      if e.IsAccess() && Runs.Allowed(g, cs, e) {
        OwnTags(g, cs, e, 0, s);
        OwnTags(g', cs', e, 0, s);
        EnterKeepsPrefix(TagsOf(g, cs, 0, s), TagsOf(g', cs', 0, s), g.CalcTag(e.addr), g.assoc, g'.assoc);
      } else {
        NothingAllowed(g, cs, e);
        NothingAllowed(g', cs', e);
      }
    }
  }

  lemma EmptyIsPrefix(l: seq<nat>)
    ensures Prefix([], l)
  {
  }

  lemma SameAllowed(g: Geometry, g': Geometry, cs: Caches, cs': Caches, e: Runs.Event)
    requires Alike(g, g') && |cs| == |cs'|
    ensures Runs.Allowed(g, cs, e) == Runs.Allowed(g', cs', e)
    ensures e.IsAccess() ==> g.CalcTag(e.addr) == g'.CalcTag(e.addr)
    ensures e.IsAccess() ==> g.SetOf(g.CalcTag(e.addr)) == g'.SetOf(g'.CalcTag(e.addr))
  {
    hide ShiftRight, And;
  }

  lemma NothingAllowed(g: Geometry, cs: Caches, e: Runs.Event)
    requires AllShaped(g, cs) && g.sets > 0 && g.assoc > 0 && |Runs.Next(g, cs, e)| == |cs|
    requires !(e.IsAccess() && Runs.Allowed(g, cs, e))
    ensures Runs.Next(g, cs, e) == cs
  {
    hide Runs.EmptyCache, ReadLine, WriteLine;
  }

  lemma FirstCacheEmpty(g: Geometry, es: seq<Runs.Event>, n: nat, s: nat)
    requires 0 < n <= |es| && s < g.sets && g.assoc > 0 && |Runs.After(g, es, n - 1)| == 0 < |Runs.After(g, es, n)|
    ensures TagsOf(g, Runs.After(g, es, n), 0, s) == []
  {
    hide Runs.After, LruRuns.After, Recent, WaysOk;
    StartsEmpty(g, es, n, 0, s);
    NothingYet([], g.assoc);
  }

  lemma OneCacheIncluded(g: Geometry, g': Geometry, es: seq<Runs.Event>, n: nat, j: nat, tag: nat)
    requires n <= |es| && Alike(g, g') && g.assoc <= g'.assoc && tag != 0
    requires |Runs.After(g, es, n)| <= 1 && j < |Runs.After(g, es, n)| && Has(g, Runs.After(g, es, n), j, tag)
    ensures j < |Runs.After(g', es, n)| && Has(g', Runs.After(g', es, n), j, tag)
  {
    hide AllOk, Coherent, Runs.After, Has, TagsOf, Geometry.SetOf;
    SameCaches(g, g', es, n);
    Runs.EveryRunIsCoherent(g, es, n);
    Runs.EveryRunIsCoherent(g', es, n);
    OneCachePrefix(g, g', es, n, g.SetOf(tag));
    HasIsRecent(g, Runs.After(g, es, n), j, tag);
    HasIsRecent(g', Runs.After(g', es, n), j, tag);
    SameSet(g, g', tag);
    InPrefix(TagsOf(g, Runs.After(g, es, n), 0, g.SetOf(tag)), TagsOf(g', Runs.After(g', es, n), 0, g.SetOf(tag)), tag);
  }

  lemma SameSet(g: Geometry, g': Geometry, tag: nat)
    requires Alike(g, g')
    ensures g.SetOf(tag) == g'.SetOf(tag)
  {
    hide And;
  }

  lemma InPrefix(s: seq<nat>, l: seq<nat>, t: nat)
    requires Prefix(s, l) && t in s
    ensures t in l
  {
  }

  // -------------------------------------------------------------------------------------------
  // Misses.

  lemma MissCounted(g: Geometry, cs: Caches, e: Runs.Event, j: nat)
    requires AllShaped(g, cs) && AllOk(g, cs) && Coherent(g, cs) && g.sets > 0 && g.assoc > 0
    requires e.IsAccess() && Runs.Allowed(g, cs, e) && j < |cs|
    ensures var k, t := Runs.CpuOf(e.tid, |cs|), g.CalcTag(e.addr);
            && j < |Runs.Next(g, cs, e)|
            && Runs.Next(g, cs, e)[j].stats.readMisses ==
               cs[j].stats.readMisses + if e.ReadBy? && k == j && !Has(g, cs, k, t) then 1 else 0
  {
    hide AllOk, CacheOk, Coherent, Shaped, ReadLine, WriteLine, Has, StateIn, Geometry.SetOf, Geometry.CalcTag;
    var k, t := Runs.CpuOf(e.tid, |cs|), g.CalcTag(e.addr);
    HasIsState(g, cs, k, t);
    if e.ReadBy? { ReadIsCounted(g, cs, k, t, j); } else { WriteIsCounted(g, cs, k, t, j); }
  }

  /** Where the narrow simulator is included all along, the wide one counts no more read misses. */
  lemma {:induction false} MissesLess(g: Geometry, g': Geometry, es: seq<Runs.Event>, n: nat, j: nat)
    requires n <= |es| && Alike(g, g') && j < |Runs.After(g, es, n)|
    requires forall m: nat :: m <= n ==> IncludedAt(g, g', es, m)
    ensures j < |Runs.After(g', es, n)|
    ensures Runs.After(g', es, n)[j].stats.readMisses <= Runs.After(g, es, n)[j].stats.readMisses
  {
    hide AllOk, Coherent, Runs.After, Runs.Next, Has, IncludedAt, Geometry.SetOf, Geometry.CalcTag;
    SameCaches(g, g', es, n);
    RunSucc(g, es, n);
    RunSucc(g', es, n);
    MoreCaches(g, es, n - 1);
    SameCaches(g, g', es, n - 1);
    var cs, cs', e := Runs.After(g, es, n - 1), Runs.After(g', es, n - 1), es[n - 1];
    SameAllowed(g, g', cs, cs', e);
    if j == |cs| {
      NewcomerCounts(g, cs, e);
      NewcomerCounts(g', cs', e);
    } else {
      MissesLess(g, g', es, n - 1, j);
      Runs.EveryRunIsCoherent(g, es, n - 1);
      Runs.EveryRunIsCoherent(g', es, n - 1);
      if e.IsAccess() && Runs.Allowed(g, cs, e) {
        MissCounted(g, cs, e, j);
        MissCounted(g', cs', e, j);
        var before := n - 1;
        assert IncludedAt(g, g', es, before);
        var k, t := Runs.CpuOf(e.tid, |cs|), g.CalcTag(e.addr);
        if Has(g, cs, k, t) { IncludedIn(g, g', es, before, k, t); }
      } else {
        OldCounts(g, cs, e, j);
        OldCounts(g', cs', e, j);
      }
    }
  }

  /** What the simulator with geometry g holds after n events the one with g' holds, too. */
  ghost predicate IncludedAt(g: Geometry, g': Geometry, es: seq<Runs.Event>, n: nat)
    requires n <= |es| && Alike(g, g')
  {
    forall j: nat, tag: nat :: j < |Runs.After(g, es, n)| && tag != 0 && Has(g, Runs.After(g, es, n), j, tag) ==>
      j < |Runs.After(g', es, n)| && Has(g', Runs.After(g', es, n), j, tag)
  }

  lemma IncludedIn(g: Geometry, g': Geometry, es: seq<Runs.Event>, n: nat, j: nat, tag: nat)
    requires n <= |es| && Alike(g, g') && IncludedAt(g, g', es, n) && j < |Runs.After(g, es, n)| && tag != 0
    requires Has(g, Runs.After(g, es, n), j, tag)
    ensures j < |Runs.After(g', es, n)| && Has(g', Runs.After(g', es, n), j, tag)
  {
    hide Runs.After, Has;
  }

  lemma NewcomerCounts(g: Geometry, cs: Caches, e: Runs.Event)
    requires AllShaped(g, cs) && g.sets > 0 && g.assoc > 0 && |Runs.Next(g, cs, e)| > |cs|
    ensures Runs.Next(g, cs, e)[|cs|].stats.readMisses == 0
  {
    hide ReadLine, WriteLine, Geometry.CalcTag;
  }

  lemma OldCounts(g: Geometry, cs: Caches, e: Runs.Event, j: nat)
    requires AllShaped(g, cs) && g.sets > 0 && g.assoc > 0 && j < |cs| && !(e.IsAccess() && Runs.Allowed(g, cs, e))
    ensures j < |Runs.Next(g, cs, e)| && Runs.Next(g, cs, e)[j] == cs[j]
  {
    hide ReadLine, WriteLine, Runs.EmptyCache, Geometry.CalcTag;
  }

  // -------------------------------------------------------------------------------------------
  // Two caches that only read lines of one set, on lists.

  /** The tags of both caches in that set, and the read misses of the first cache. */
  datatype Two = Two(l0: seq<nat>, l1: seq<nat>, misses: nat)

  datatype ReadOp = ReadOp(first: bool, tag: nat)

  /** A read moves its line to the front of its own list; a miss is snooped by the other cache. */
  function TwoStep(p: Two, r: ReadOp, width: nat): Two {
    if r.first then
      if r.tag in p.l0 then p.(l0 := Touch(p.l0, r.tag))
      else Two(Enter(p.l0, r.tag, width), Touch(p.l1, r.tag), p.misses + 1)
    else if r.tag in p.l1 then p.(l1 := Touch(p.l1, r.tag))
    else p.(l0 := Touch(p.l0, r.tag), l1 := Enter(p.l1, r.tag, width))
  }

  function TwoRun(p: Two, ops: seq<ReadOp>, width: nat): Two
    decreases |ops|
  {
    if ops == [] then p
    else TwoStep(TwoRun(p, ops[..|ops| - 1], width), ops[|ops| - 1], width)
  }

  lemma TwoMore(p: Two, ops: seq<ReadOp>, r: ReadOp, width: nat)
    ensures TwoRun(p, ops + [r], width) == TwoStep(TwoRun(p, ops, width), r, width)
  {
    hide TwoStep;
    assert (ops + [r])[..|ops|] == ops;
  }

  lemma {:induction false} TwoConcat(p: Two, ops: seq<ReadOp>, more: seq<ReadOp>, width: nat)
    ensures TwoRun(p, ops + more, width) == TwoRun(TwoRun(p, ops, width), more, width)
    decreases |more|
  {
    hide TwoStep;
    if more == [] {
      assert ops + more == ops;
    } else {
      var rest, r := more[..|more| - 1], more[|more| - 1];
      assert more == rest + [r] && ops + more == (ops + rest) + [r];
      TwoConcat(p, ops, rest, width);
      TwoMore(p, ops + rest, r, width);
      TwoMore(TwoRun(p, ops, width), rest, r, width);
    }
  }

  /** Thread 0 is on the first cache, thread 1 on the second. */
  function EventOf(r: ReadOp, shift: nat): Runs.Event {
    Runs.ReadBy(if r.first then 0 else 1, r.tag * Pow2(shift))
  }

  /** Two caches, then the reads. */
  function EventsOf(ops: seq<ReadOp>, shift: nat): seq<Runs.Event>
    decreases |ops|
  {
    if ops == [] then [Runs.NewCache, Runs.NewCache]
    else EventsOf(ops[..|ops| - 1], shift) + [EventOf(ops[|ops| - 1], shift)]
  }

  ghost predicate Shows(g: Geometry, cs: Caches, s: nat, p: Two) {
    && AllShaped(g, cs) && s < g.sets && |cs| == 2
    && TagsOf(g, cs, 0, s) == p.l0 && TagsOf(g, cs, 1, s) == p.l1 && cs[0].stats.readMisses == p.misses
  }

  lemma EventIs(g: Geometry, r: ReadOp)
    ensures g.CalcTag(EventOf(r, g.shift).addr) == r.tag
    ensures Runs.CpuOf(EventOf(r, g.shift).tid, 2) == if r.first then 0 else 1
  {
    ShiftBack(r.tag, g.shift);
  }

  /** The other of two caches sees a miss as a lookup, and a hit not at all. */
  lemma OtherTags(g: Geometry, cs: Caches, e: Runs.Event, k: nat, j: nat, s: nat)
    requires AllShaped(g, cs) && AllOk(g, cs) && g.assoc > 0 && |cs| == 2 && j < 2 && k < 2 && k != j && s < g.sets
    requires e.ReadBy? && Runs.Allowed(g, cs, e) && Runs.CpuOf(e.tid, 2) == k && g.SetOf(g.CalcTag(e.addr)) == s
    ensures j < |Runs.Next(g, cs, e)|
    ensures TagsOf(g, Runs.Next(g, cs, e), j, s) ==
            if g.CalcTag(e.addr) in TagsOf(g, cs, k, s) then TagsOf(g, cs, j, s)
            else Touch(TagsOf(g, cs, j, s), g.CalcTag(e.addr))
  {
    hide AllOk, CacheOk, Recent, WaysOk, Applied, Touch, Runs.Next, StateIn, Has, Geometry.SetOf, Geometry.CalcTag;
    var t := g.CalcTag(e.addr);
    SetsOk(g, cs, j, s);
    EventSet(g, cs, e, j, s);
    NothingApplied(cs[j].sets[s]);
    HasIsRecent(g, cs, k, t);
    HasIsState(g, cs, k, t);
    if StateIn(g, cs[k], t) == Invalid {
      assert Reaches(g, cs, k, t, 0, j);
      AppliedLook(cs[j].sets[s], EventUses(g, cs, e, j, s), t);
    }
  }

  lemma EnterHeld(list: seq<nat>, t: nat, width: nat)
    ensures t in list ==> Enter(list, t, width) == Touch(list, t)
  {
  }

  lemma ReadShows(g: Geometry, cs: Caches, r: ReadOp, s: nat, p: Two)
    requires AllShaped(g, cs) && AllOk(g, cs) && Coherent(g, cs) && g.assoc > 0 && Shows(g, cs, s, p)
    requires r.tag != 0 && g.SetOf(r.tag) == s
    ensures Shows(g, Runs.Next(g, cs, EventOf(r, g.shift)), s, TwoStep(p, r, g.assoc))
  {
    hide AllOk, Coherent, Runs.Next, TagsOf, Enter, Touch, Has, EventOf, Geometry.SetOf, Geometry.CalcTag, Runs.CpuOf;
    var e := EventOf(r, g.shift);
    var k := if r.first then 0 else 1;
    EventIs(g, r);
    IsRead(r, g.shift);
    AccessKeepsCount(g, cs, e);
    OwnTags(g, cs, e, k, s);
    OtherTags(g, cs, e, k, 1 - k, s);
    MissCounted(g, cs, e, 0);
    HasIsRecent(g, cs, k, r.tag);
    EnterHeld(if r.first then p.l0 else p.l1, r.tag, g.assoc);
  }

  lemma IsRead(r: ReadOp, shift: nat)
    ensures EventOf(r, shift).ReadBy?
  {
  }

  predicate InSet(g: Geometry, ops: seq<ReadOp>, s: nat) {
    g.sets > 0 && forall i :: 0 <= i < |ops| ==> ops[i].tag != 0 && g.SetOf(ops[i].tag) == s
  }

  lemma {:induction false} RunOfPrefix(g: Geometry, es: seq<Runs.Event>, more: seq<Runs.Event>, n: nat)
    requires n <= |es| && g.sets > 0 && g.assoc > 0
    ensures Runs.After(g, es + more, n) == Runs.After(g, es, n)
  {
    hide Runs.Next;
    if n > 0 { RunOfPrefix(g, es, more, n - 1); }
  }

  lemma {:induction false} RunShows(g: Geometry, ops: seq<ReadOp>, s: nat)
    requires g.assoc > 0 && s < g.sets && InSet(g, ops, s)
    ensures var es := EventsOf(ops, g.shift);
            Shows(g, Runs.After(g, es, |es|), s, TwoRun(Two([], [], 0), ops, g.assoc))
    decreases |ops|
  {
    hide AllOk, Coherent, Runs.Next, Runs.After, TwoStep, Shows, EventOf, Geometry.SetOf;
    if ops == [] {
      TwoNewCaches(g, s);
    } else {
      var rest, r := ops[..|ops| - 1], ops[|ops| - 1];
      var es := EventsOf(rest, g.shift);
      RunShows(g, rest, s);
      RunOfPrefix(g, es, [EventOf(r, g.shift)], |es|);
      RunSucc(g, EventsOf(ops, g.shift), |es| + 1);
      Runs.EveryRunIsCoherent(g, es, |es|);
      ReadShows(g, Runs.After(g, es, |es|), r, s, TwoRun(Two([], [], 0), rest, g.assoc));
    }
  }

  lemma TwoNewCaches(g: Geometry, s: nat)
    requires g.assoc > 0 && s < g.sets
    ensures Shows(g, Runs.After(g, EventsOf([], g.shift), 2), s, Two([], [], 0))
  {
    hide Recent, WaysOk, TagsOf, Runs.EmptyCache;
    var es := EventsOf([], g.shift);
    var c0, c1 := Runs.EmptyCache(g, 0), Runs.EmptyCache(g, 1);
    assert Runs.After(g, es, 0) == [];
    assert Runs.After(g, es, 1) == [c0];
    assert Runs.After(g, es, 2) == [c0, c1];
    EmptyTags(g, [c0, c1], 0, s);
    EmptyTags(g, [c0, c1], 1, s);
    EmptyStats(g);
  }

  lemma EmptyTags(g: Geometry, cs: Caches, j: nat, s: nat)
    requires g.assoc > 0 && s < g.sets && AllShaped(g, cs) && j < |cs| && cs[j] == Runs.EmptyCache(g, j)
    ensures TagsOf(g, cs, j, s) == []
  {
    hide Recent, WaysOk;
    NothingYet([], g.assoc);
  }

  lemma EmptyStats(g: Geometry)
    ensures Runs.EmptyCache(g, 0).stats.readMisses == 0
  {
  }
}
