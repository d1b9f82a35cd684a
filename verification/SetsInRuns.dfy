/** What reaches one set of one cache in a run of the simulator, and that the set is what these uses
    make of an empty one. So what holds of a single set over all uses holds of every set in every run. */
module SetsInRuns {
  import opened CacheWays
  import opened CacheGeometry
  import opened Recency
  import opened LruRuns
  import opened Coherence
  import Runs = CoherenceRuns

  // -------------------------------------------------------------------------------------------
  // Who is snooped.

  /** The round of a read that starts at cache i gets as far as cache j: no one before has the line. */
  predicate Reaches(g: Geometry, cs: Caches, me: nat, tag: nat, i: nat, j: nat)
    requires AllShaped(g, cs) && j < |cs|
  {
    i <= j && j != me && forall m :: i <= m < j && m != me ==> StateIn(g, cs[m], tag) == Invalid
  }

  lemma ReachesOn(g: Geometry, cs: Caches, c: Cache, me: nat, tag: nat, i: nat, j: nat)
    requires AllShaped(g, cs) && Shaped(g, c) && i < j < |cs| && StateIn(g, cs[i], tag) == Invalid
    ensures AllShaped(g, cs[i := c]) && Reaches(g, cs[i := c], me, tag, i + 1, j) == Reaches(g, cs, me, tag, i, j)
  {
    hide StateIn, Shaped;
    var cs1 := cs[i := c];
    forall m | i < m < j ensures StateIn(g, cs1[m], tag) == StateIn(g, cs[m], tag) {
      assert cs1[m] == cs[m];
    }
  }

  lemma {:induction false} ReadRemoteAt(g: Geometry, cs: Caches, me: nat, tag: nat, i: nat, j: nat)
    requires AllShaped(g, cs) && AllOk(g, cs) && tag != 0 && i <= |cs| && j < |cs|
    ensures ReadRemote(g, cs, me, tag, i).0[j] == if Reaches(g, cs, me, tag, i, j) then SnoopedRead(g, cs[j], tag).0
            else cs[j]
    decreases |cs| - i
  {
    hide StateIn, CacheOk, Shaped, SnoopedRead;
    if i < |cs| {
      var next := i + 1;
      if cs[i].cpuId == me {
        ReadRemoteAt(g, cs, me, tag, next, j);
      } else {
        SnoopedReadStates(g, cs[i], tag);
        var (c, done, reply) := SnoopedRead(g, cs[i], tag);
        if !done {
          ReadRemoteAt(g, cs[i := c], me, tag, next, j);
          if i < j { ReachesOn(g, cs, c, me, tag, i, j); }
        }
      }
    }
  }

  lemma {:induction false} WriteRemoteAt(g: Geometry, cs: Caches, me: nat, tag: nat, i: nat, j: nat)
    requires AllShaped(g, cs) && AllOk(g, cs) && tag != 0 && i <= |cs| && j < |cs|
    ensures WriteRemote(g, cs, me, tag, i)[j] == if j >= i && j != me then SnoopedWrite(g, cs[j], tag) else cs[j]
    decreases |cs| - i
  {
    hide StateIn, CacheOk, Shaped, SnoopedWrite;
    if i < |cs| {
      if cs[i].cpuId == me {
        WriteRemoteAt(g, cs, me, tag, i + 1, j);
      } else {
        SnoopedWriteStates(g, cs[i], tag);
        WriteRemoteAt(g, cs[i := SnoopedWrite(g, cs[i], tag)], me, tag, i + 1, j);
      }
    }
  }

  // -------------------------------------------------------------------------------------------
  // The uses that an event makes of a set.

  /** A read by cache k, seen by cache j. */
  function ReadUses(g: Geometry, cs: Caches, k: nat, tag: nat, j: nat): seq<Use>
    requires AllShaped(g, cs) && k < |cs| && j < |cs|
  {
    if j == k then [Access(tag, Shared)]
    else if StateIn(g, cs[k], tag) != Invalid || !Reaches(g, cs, k, tag, 0, j) then []
    else if StateIn(g, cs[j], tag) == Modified then [Look(tag), Mark(tag, Shared)]
    else [Look(tag)]
  }

  function WriteUses(g: Geometry, cs: Caches, k: nat, tag: nat, j: nat): seq<Use>
    requires AllShaped(g, cs) && k < |cs| && j < |cs|
  {
    var st := StateIn(g, cs[k], tag);
    if j == k then if st == Shared then [Access(tag, Modified), Mark(tag, Modified)] else [Access(tag, Modified)]
    else if st == Modified then []
    else [Drop(tag)]
  }

  function EventUses(g: Geometry, cs: Caches, e: Runs.Event, j: nat, s: nat): seq<Use>
    requires AllShaped(g, cs) && g.sets > 0 && j < |cs|
  {
    if e.NewCache? || !Runs.Allowed(g, cs, e) || g.SetOf(g.CalcTag(e.addr)) != s then []
    else
      var k, tag := Runs.CpuOf(e.tid, |cs|), g.CalcTag(e.addr);
      if e.ReadBy? then ReadUses(g, cs, k, tag, j) else WriteUses(g, cs, k, tag, j)
  }

  /** The uses of set s of cache j that the first n events make. */
  function UsesOf(g: Geometry, es: seq<Runs.Event>, n: nat, j: nat, s: nat): seq<Use>
    requires n <= |es| && g.sets > 0 && g.assoc > 0
  {
    if n == 0 || |Runs.After(g, es, n - 1)| <= j then []
    else UsesOf(g, es, n - 1, j, s) + EventUses(g, Runs.After(g, es, n - 1), es[n - 1], j, s)
  }

  // -------------------------------------------------------------------------------------------
  // The set after them.

  function Applied(ways: seq<Line>, uses: seq<Use>): (r: seq<Line>)
    requires |ways| > 0
    ensures |r| == |ways|
    decreases |uses|
  {
    if uses == [] then ways else Applied(Step(ways, uses[0]), uses[1..])
  }

  lemma AppliedFew(ways: seq<Line>, u: Use, v: Use)
    requires |ways| > 0
    ensures Applied(ways, []) == ways && Applied(ways, [u]) == Step(ways, u)
            && Applied(ways, [u, v]) == Step(Step(ways, u), v)
  {
    hide Step;
    assert [u, v][1..] == [v] && [u][1..] == [] && [v][1..] == [];
    assert Applied(Step(ways, u), [v]) == Step(Step(ways, u), v);
  }

  lemma {:induction false} AfterSame(a: seq<Use>, b: seq<Use>, n: nat, width: nat)
    requires n <= |a| && n <= |b| && a[..n] == b[..n] && width > 0
    ensures After(a, n, width) == After(b, n, width)
  {
    hide Step;
    if n > 0 {
      assert a[..n - 1] == a[..n][..n - 1] && b[..n - 1] == b[..n][..n - 1];
      assert a[n - 1] == a[..n][n - 1] && b[n - 1] == b[..n][n - 1];
      AfterSame(a, b, n - 1, width);
    }
  }

  lemma {:induction false} AfterMore(a: seq<Use>, b: seq<Use>, width: nat)
    requires width > 0
    ensures After(a + b, |a + b|, width) == Applied(After(a, |a|, width), b)
    decreases |b|
  {
    hide Step, After;
    if b == [] {
      assert a + b == a;
    } else {
      var a' := a + [b[0]];
      AfterMore(a', b[1..], width);
      assert a' + b[1..] == a + b;
      AfterSucc(a', |a|, width);
      AfterSame(a', a, |a|, width);
    }
  }

  lemma AfterSucc(uses: seq<Use>, n: nat, width: nat)
    requires n < |uses| && width > 0
    ensures After(uses, n + 1, width) == Step(After(uses, n, width), uses[n])
  {
    hide Step;
  }

  // -------------------------------------------------------------------------------------------
  // One event.

  lemma OtherSet(g: Geometry, c: Cache, tag: nat, ways: seq<Line>, s: nat)
    requires Shaped(g, c) && |ways| == g.assoc && s < g.sets
    ensures WithWays(g, c, tag, ways).sets[s] == if s == g.SetOf(tag) then ways else c.sets[s]
  {
  }

  /** A valid line is there, and an invalid one is not. */
  lemma SetIsOk(g: Geometry, c: Cache, tag: nat)
    requires CacheOk(g, c) && tag != 0
    ensures WaysOk(WaysFor(g, c, tag)) && |WaysFor(g, c, tag)| == g.assoc > 0
    ensures StateIn(g, c, tag) != Invalid <==> Holds(WaysFor(g, c, tag), tag)
  {
    hide StateOf, Geometry.SetOf;
    StateIsValidity(WaysFor(g, c, tag), tag);
  }

  lemma SnoopedReadSet(g: Geometry, c: Cache, tag: nat, s: nat)
    requires CacheOk(g, c) && Shaped(g, c) && tag != 0 && s < g.sets
    ensures SnoopedRead(g, c, tag).0.sets[s] ==
            if s != g.SetOf(tag) then c.sets[s]
            else Applied(c.sets[s], if StateIn(g, c, tag) == Modified then [Look(tag), Mark(tag, Shared)]
                 else [Look(tag)])
  {
    hide CacheOk, WaysOk, Geometry.SetOf, Lookup, ChangeState, StateOf, Holds, Applied;
    var ways := WaysFor(g, c, tag);
    SetIsOk(g, c, tag);
    OtherSet(g, c, tag, Lookup(ways, tag), s);
    OtherSet(g, c, tag, ChangeState(Lookup(ways, tag), tag, Shared), s);
    AppliedFew(ways, Look(tag), Mark(tag, Shared));
  }

  lemma SnoopedWriteSet(g: Geometry, c: Cache, tag: nat, s: nat)
    requires CacheOk(g, c) && Shaped(g, c) && tag != 0 && s < g.sets
    ensures SnoopedWrite(g, c, tag).sets[s] == if s != g.SetOf(tag) then c.sets[s] else Applied(c.sets[s], [Drop(tag)])
  {
    hide CacheOk, WaysOk, Geometry.SetOf, StateOf, Applied;
    var ways := WaysFor(g, c, tag);
    SetIsOk(g, c, tag);
    OtherSet(g, c, tag, Lookup(ways, tag), s);
    OtherSet(g, c, tag, Invalidate(Lookup(ways, tag), tag), s);
    AppliedFew(ways, Drop(tag), Drop(tag));
  }

  /** What the accessing cache does to its own set: look, then fill on a miss. */
  lemma OwnSet(g: Geometry, c: Cache, tag: nat, state: MSI, s: nat)
    requires CacheOk(g, c) && Shaped(g, c) && tag != 0 && s < g.sets
    ensures var own := Looked(g, c, tag);
            var after := if StateIn(g, c, tag) == Invalid then Filled(g, own, tag, state) else own;
            after.sets[s] == if s != g.SetOf(tag) then c.sets[s] else Applied(c.sets[s], [Access(tag, state)])
  {
    hide CacheOk, WaysOk, Geometry.SetOf, StateOf, Applied, Fill;
    var ways := WaysFor(g, c, tag);
    SetIsOk(g, c, tag);
    OtherSet(g, c, tag, Lookup(ways, tag), s);
    WithWaysTwice(g, c, tag, Lookup(ways, tag), Fill(Lookup(ways, tag), tag, state));
    OtherSet(g, c, tag, Fill(Lookup(ways, tag), tag, state), s);
    AppliedFew(ways, Access(tag, state), Access(tag, state));
  }

  lemma UpgradedSet(g: Geometry, c: Cache, tag: nat, s: nat)
    requires CacheOk(g, c) && Shaped(g, c) && tag != 0 && s < g.sets && StateIn(g, c, tag) != Invalid
    ensures Upgraded(g, Looked(g, c, tag), tag).sets[s] ==
            if s != g.SetOf(tag) then c.sets[s] else Applied(c.sets[s], [Access(tag, Modified), Mark(tag, Modified)])
  {
    hide CacheOk, WaysOk, Geometry.SetOf, StateOf, Applied, Fill, ChangeState;
    var ways := WaysFor(g, c, tag);
    SetIsOk(g, c, tag);
    WithWaysTwice(g, c, tag, Lookup(ways, tag), ChangeState(Lookup(ways, tag), tag, Modified));
    OtherSet(g, c, tag, ChangeState(Lookup(ways, tag), tag, Modified), s);
    AppliedFew(ways, Access(tag, Modified), Mark(tag, Modified));
  }

  lemma NothingApplied(ways: seq<Line>)
    requires |ways| > 0
    ensures Applied(ways, []) == ways
  {
  }

  lemma ReadLineSet(g: Geometry, cs: Caches, k: nat, tag: nat, j: nat, s: nat)
    requires AllShaped(g, cs) && AllOk(g, cs) && tag != 0 && k < |cs| && j < |cs| && s < g.sets
             && |cs[j].sets[s]| == g.assoc > 0
    ensures s < |ReadLine(g, cs, k, tag)[j].sets|
    ensures ReadLine(g, cs, k, tag)[j].sets[s] ==
            if s != g.SetOf(tag) then cs[j].sets[s] else Applied(cs[j].sets[s], ReadUses(g, cs, k, tag, j))
  {
    hide StateIn, CacheOk, Looked, Filled, SnoopedRead, ReadRemote, Applied, Holds, Reaches, Geometry.SetOf;
    MissLeavesAlone(g, cs[k], tag);
    OwnSet(g, cs[k], tag, Shared, s);
    NothingApplied(cs[j].sets[s]);
    if StateIn(g, cs[k], tag) == Invalid {
      assert cs[k := cs[k]] == cs;
      ReadRemoteAt(g, cs, k, tag, 0, k);
      ReadRemoteAt(g, cs, k, tag, 0, j);
      NotReached(g, cs, k, tag, 0);
      SnoopedReadSet(g, cs[j], tag, s);
    }
  }

  lemma NotReached(g: Geometry, cs: Caches, me: nat, tag: nat, i: nat)
    requires AllShaped(g, cs) && me < |cs|
    ensures !Reaches(g, cs, me, tag, i, me)
  {
    hide Shaped, StateIn;
  }

  lemma WriteLineSet(g: Geometry, cs: Caches, k: nat, tag: nat, j: nat, s: nat)
    requires AllShaped(g, cs) && AllOk(g, cs) && tag != 0 && k < |cs| && j < |cs| && s < g.sets
             && |cs[j].sets[s]| == g.assoc > 0
    ensures s < |WriteLine(g, cs, k, tag)[j].sets|
    ensures WriteLine(g, cs, k, tag)[j].sets[s] ==
            if s != g.SetOf(tag) then cs[j].sets[s] else Applied(cs[j].sets[s], WriteUses(g, cs, k, tag, j))
  {
    hide StateIn, CacheOk, Looked, Filled, Upgraded, SnoopedWrite, WriteRemote, Applied, Holds, Geometry.SetOf;
    var c, own := cs[k], Looked(g, cs[k], tag);
    MissLeavesAlone(g, c, tag);
    LookedStates(g, c, tag);
    OwnSet(g, c, tag, Modified, s);
    NothingApplied(cs[j].sets[s]);
    SnoopedWriteSet(g, cs[j], tag, s);
    if StateIn(g, c, tag) == Invalid {
      var counted := c.(stats := CountWriteMiss(c.stats, false, false));
      NewStats(g, c, counted.stats);
      WriteRemoteAt(g, cs[k := counted], k, tag, 0, k);
      WriteRemoteAt(g, cs[k := counted], k, tag, 0, j);
      SameFill(g, c, counted, tag, Modified);
    } else if StateIn(g, c, tag) == Shared {
      var counted := own.(stats := CountWriteMiss(own.stats, false, true));
      NewStats(g, own, counted.stats);
      WriteRemoteAt(g, cs[k := counted], k, tag, 0, k);
      WriteRemoteAt(g, cs[k := counted], k, tag, 0, j);
      SameFill(g, own, counted, tag, Modified);
      UpgradedSet(g, c, tag, s);
    }
  }

  /** Counting does not change what is filled or upgraded. */
  lemma SameFill(g: Geometry, c: Cache, c': Cache, tag: nat, state: MSI)
    requires Shaped(g, c) && c'.sets == c.sets
    ensures Shaped(g, c') && Filled(g, c', tag, state).sets == Filled(g, c, tag, state).sets
    ensures Upgraded(g, c', tag).sets == Upgraded(g, c, tag).sets
  {
    hide Geometry.SetOf, Fill, ChangeState;
  }

  lemma EventSet(g: Geometry, cs: Caches, e: Runs.Event, j: nat, s: nat)
    requires AllShaped(g, cs) && AllOk(g, cs) && g.assoc > 0 && j < |cs| && s < g.sets && |cs[j].sets[s]| == g.assoc
    ensures j < |Runs.Next(g, cs, e)| && s < |Runs.Next(g, cs, e)[j].sets|
    ensures Runs.Next(g, cs, e)[j].sets[s] == Applied(cs[j].sets[s], EventUses(g, cs, e, j, s))
  {
    hide ReadLine, WriteLine, ReadUses, WriteUses, Applied, CacheOk, Geometry.SetOf, Geometry.CalcTag;
    NothingApplied(cs[j].sets[s]);
    if e.IsAccess() && Runs.Allowed(g, cs, e) {
      ReadLineSet(g, cs, Runs.CpuOf(e.tid, |cs|), g.CalcTag(e.addr), j, s);
      WriteLineSet(g, cs, Runs.CpuOf(e.tid, |cs|), g.CalcTag(e.addr), j, s);
    }
  }

  lemma ShapedSet(g: Geometry, cs: Caches, j: nat, s: nat)
    requires AllShaped(g, cs) && j < |cs| && s < g.sets
    ensures s < |cs[j].sets| && |cs[j].sets[s]| == g.assoc
  {
  }

  lemma EventUsesProper(g: Geometry, cs: Caches, e: Runs.Event, j: nat, s: nat)
    requires AllShaped(g, cs) && g.sets > 0 && j < |cs|
    ensures AllProper(EventUses(g, cs, e, j, s))
  {
    hide StateIn, Reaches, Geometry.SetOf, Geometry.CalcTag;
  }

  // -------------------------------------------------------------------------------------------
  // Whole runs.

  /** Every set of every cache is, after any number of events, an empty set after the uses of it. */
  lemma {:induction false} SetIsAfterItsUses(g: Geometry, es: seq<Runs.Event>, n: nat, j: nat, s: nat)
    requires n <= |es| && s < g.sets && g.assoc > 0 && j < |Runs.After(g, es, n)|
    ensures s < |Runs.After(g, es, n)[j].sets|
    ensures var uses := UsesOf(g, es, n, j, s);
            AllProper(uses) && Runs.After(g, es, n)[j].sets[s] == After(uses, |uses|, g.assoc)
  {
    hide Runs.Next, Runs.After, EventUses, Applied, After;
    RunSucc(g, es, n);
    if j < |Runs.After(g, es, n - 1)| {
      var cs, uses := Runs.After(g, es, n - 1), UsesOf(g, es, n - 1, j, s);
      Runs.EveryRunIsCoherent(g, es, n - 1);
      SetIsAfterItsUses(g, es, n - 1, j, s);
      ShapedSet(g, cs, j, s);
      EventSet(g, cs, es[n - 1], j, s);
      EventUsesProper(g, cs, es[n - 1], j, s);
      AfterMore(uses, EventUses(g, cs, es[n - 1], j, s), g.assoc);
    } else {
      StartsEmpty(g, es, n, j, s);
    }
  }

  lemma RunSucc(g: Geometry, es: seq<Runs.Event>, n: nat)
    requires n <= |es| && g.sets > 0 && g.assoc > 0
    ensures n == 0 ==> Runs.After(g, es, n) == []
    ensures n > 0 ==> Runs.After(g, es, n) == Runs.Next(g, Runs.After(g, es, n - 1), es[n - 1])
  {
    hide Runs.Next;
  }

  lemma StartsEmpty(g: Geometry, es: seq<Runs.Event>, n: nat, j: nat, s: nat)
    requires 0 < n <= |es| && s < g.sets && g.assoc > 0 && |Runs.After(g, es, n - 1)| <= j < |Runs.After(g, es, n)|
    ensures UsesOf(g, es, n, j, s) == []
    ensures s < |Runs.After(g, es, n)[j].sets| && Runs.After(g, es, n)[j].sets[s] == After([], 0, g.assoc)
  {
    hide ReadLine, WriteLine, Geometry.CalcTag;
  }

  /** The tags a set holds, most recent first, are those of the list that its uses make. */
  lemma TagsInRuns(g: Geometry, es: seq<Runs.Event>, n: nat, j: nat, s: nat)
    requires n <= |es| && s < g.sets && g.assoc > 0 && j < |Runs.After(g, es, n)|
    ensures s < |Runs.After(g, es, n)[j].sets|
    ensures var uses := UsesOf(g, es, n, j, s);
            Recent(Runs.After(g, es, n)[j].sets[s]) == ListAfter(uses, |uses|, g.assoc)
  {
    hide Runs.After, UsesOf, After, ListAfter, WaysOk, Recent;
    SetIsAfterItsUses(g, es, n, j, s);
    var uses := UsesOf(g, es, n, j, s);
    AfterIsList(uses, |uses|, g.assoc);
  }

  lemma {:induction false} LastUseSame(a: seq<Use>, b: seq<Use>, n: nat, t: nat)
    requires n <= |a| && n <= |b| && a[..n] == b[..n]
    ensures LastUse(a, n, t) == LastUse(b, n, t)
  {
    if n > 0 {
      assert a[..n - 1] == a[..n][..n - 1] && b[..n - 1] == b[..n][..n - 1];
      assert a[n - 1] == a[..n][n - 1] && b[n - 1] == b[..n][n - 1];
      LastUseSame(a, b, n - 1, t);
    }
  }

  lemma {:induction false} SameTagsHold(ways: seq<Line>, ways': seq<Line>, t: nat)
    requires |ways| == |ways'| && forall k :: 0 <= k < |ways| ==> ways[k].tag == ways'[k].tag
    ensures Holds(ways, t) == Holds(ways', t)
  {
    if ways != [] {
      assert forall k :: 0 <= k < |ways[1..]| ==> ways[1..][k] == ways[k + 1] && ways'[1..][k] == ways'[k + 1];
      SameTagsHold(ways[1..], ways'[1..], t);
    }
  }

  /** The line that goes, in terms of the uses so far, whether or not the access also marks its line. */
  lemma AccessEvicts(uses: seq<Use>, more: seq<Use>, tag: nat, state: MSI, width: nat, t: nat)
    requires width > 0 && AllProper(uses) && Access(tag, state).Proper() && t != 0
             && Holds(After(uses, |uses|, width), t)
    requires more == [Access(tag, state)] || more == [Access(tag, state), Mark(tag, Modified)]
    ensures var ways := After(uses, |uses|, width);
            !Holds(Applied(ways, more), t) <==>
            && AllValid(ways) && !Holds(ways, tag)
            && forall v :: v != 0 && v != t && Holds(ways, v) ==> LastUse(uses, |uses|, t) < LastUse(uses, |uses|, v)
  {
    hide Applied, After, Holds, AllValid, LastUse;
    var ways, all := After(uses, |uses|, width), uses + [Access(tag, state)];
    AfterSame(all, uses, |uses|, width);
    AfterSucc(all, |uses|, width);
    EvictsLeastRecentlyUsed(all, |uses|, width, t);
    forall v ensures LastUse(all, |uses|, v) == LastUse(uses, |uses|, v) { LastUseSame(all, uses, |uses|, v); }
    var filled := Step(ways, Access(tag, state));
    AppliedFew(ways, Access(tag, state), Mark(tag, Modified));
    SameTagsHold(filled, ChangeState(filled, tag, Modified), t);
  }

  /** In every run, an access of a cache evicts a line just when it misses in a set whose ways are all
      valid, and then the line whose last lookup, its own or a snoop's, lies furthest back. */
  lemma EvictsInRuns(g: Geometry, es: seq<Runs.Event>, n: nat, k: nat, tag: nat, t: nat)
    requires n < |es| && g.sets > 0 && g.assoc > 0 && Runs.Touches(g, es, n, k, tag) && k < |Runs.After(g, es, n)|
    requires t != 0 && Holds(WaysFor(g, Runs.After(g, es, n)[k], tag), t)
    ensures k < |Runs.After(g, es, n + 1)|
    ensures var ways, uses := WaysFor(g, Runs.After(g, es, n)[k], tag), UsesOf(g, es, n, k, g.SetOf(tag));
            !Holds(WaysFor(g, Runs.After(g, es, n + 1)[k], tag), t) <==>
            && AllValid(ways) && !Holds(ways, tag)
            && forall v :: v != 0 && v != t && Holds(ways, v) ==> LastUse(uses, |uses|, t) < LastUse(uses, |uses|, v)
  {
    hide Runs.Next, Runs.After, UsesOf, Applied, After, Holds, AllValid, LastUse, StateIn, CacheOk, Geometry.CalcTag,
         Geometry.SetOf;
    var cs, s, next := Runs.After(g, es, n), g.SetOf(tag), n + 1;
    Runs.EveryRunIsCoherent(g, es, n);
    RunSucc(g, es, next);
    SetIsAfterItsUses(g, es, n, k, s);
    ShapedSet(g, cs, k, s);
    EventSet(g, cs, es[n], k, s);
    AccessEvicts(UsesOf(g, es, n, k, s), EventUses(g, cs, es[n], k, s), tag, if es[n].ReadBy? then Shared
      else Modified, g.assoc, t);
  }
}
