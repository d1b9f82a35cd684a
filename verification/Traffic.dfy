/** Exclusive lines are conserved: every line a cache holds modified, and every miss that was served
    from a modified line, goes back to a write miss of its own. */
module Traffic {
  import opened CacheWays
  import opened CacheGeometry
  import opened Coherence

  function One(l: Line): nat {
    if l.state == Modified then 1 else 0
  }

  function Dirty(ways: seq<Line>): nat {
    if ways == [] then 0 else One(ways[0]) + Dirty(ways[1..])
  }

  lemma {:induction false} DirtyConcat(a: seq<Line>, b: seq<Line>)
    ensures Dirty(a + b) == Dirty(a) + Dirty(b)
  {
    if a == [] {
      assert a + b == b;
    } else {
      assert (a + b)[1..] == a[1..] + b;
      DirtyConcat(a[1..], b);
    }
  }

  lemma DirtySplit(ways: seq<Line>, k: nat)
    requires k < |ways|
    ensures Dirty(ways) == Dirty(ways[..k]) + One(ways[k]) + Dirty(ways[k + 1..])
    ensures Dirty(Promote(ways, k)) == Dirty(ways)
  {
    hide Dirty, One, Promote;
    var a, m, b := ways[..k], [ways[k]], ways[k + 1..];
    DirtyOfOne(ways[k]);
    Cut3(ways, k);
    DirtyConcat(a, m + b);
    DirtyConcat(m, b);
    DirtyConcat(m, a + b);
    DirtyConcat(a, b);
  }

  lemma DirtyOfOne(l: Line)
    ensures Dirty([l]) == One(l)
  {
    assert [l][1..] == [];
  }

  lemma DirtyUpdated(ways: seq<Line>, k: nat, l: Line)
    requires k < |ways|
    ensures Dirty(ways[k := l]) + One(ways[k]) == Dirty(ways) + One(l)
  {
    hide Dirty, One;
    var r := ways[k := l];
    DirtySplit(ways, k);
    DirtySplit(r, k);
    Updated(ways, k, l);
  }

  lemma DirtyLookup(ways: seq<Line>, tag: nat)
    ensures Dirty(Lookup(ways, tag)) == Dirty(ways)
  {
    hide Dirty, Promote;
    if Holds(ways, tag) { DirtySplit(ways, Find(ways, tag)); }
  }

  lemma DirtyChanged(ways: seq<Line>, tag: nat, state: MSI)
    ensures Dirty(ChangeState(ways, tag, state)) + (if StateOf(ways, tag) == Modified then 1 else 0)
         == Dirty(ways) + if Holds(ways, tag) && state == Modified then 1 else 0
  {
    hide Dirty;
    if Holds(ways, tag) { DirtyUpdated(ways, Find(ways, tag), Line(tag, state)); }
  }

  lemma DirtyInvalidated(ways: seq<Line>, tag: nat)
    ensures Dirty(Invalidate(ways, tag)) <= Dirty(ways)
  {
    hide Dirty;
    if Holds(ways, tag) { DirtyUpdated(ways, Find(ways, tag), EMPTY); }
  }

  lemma DirtyFilled(ways: seq<Line>, tag: nat, state: MSI)
    requires |ways| > 0
    ensures Dirty(Fill(ways, tag, state)) <= Dirty(ways) + if state == Modified then 1 else 0
  {
    hide Dirty, Promote;
    if Holds(ways, tag) {
      DirtyUpdated(ways, Find(ways, tag), Line(tag, state));
    } else {
      var k := FreeWay(ways);
      DirtySplit(ways, k);
      DirtyUpdated(Promote(ways, k), 0, Line(tag, state));
    }
  }

  /** The modified lines of a cache. */
  function DirtySets(sets: seq<seq<Line>>): nat {
    if sets == [] then 0 else Dirty(sets[0]) + DirtySets(sets[1..])
  }

  lemma {:induction false} DirtySetsUpdated(sets: seq<seq<Line>>, s: nat, ways: seq<Line>)
    requires s < |sets|
    ensures DirtySets(sets[s := ways]) + Dirty(sets[s]) == DirtySets(sets) + Dirty(ways)
  {
    hide Dirty;
    if s == 0 {
      assert sets[s := ways][1..] == sets[1..];
    } else {
      assert sets[s := ways][1..] == sets[1..][s - 1 := ways];
      DirtySetsUpdated(sets[1..], s - 1, ways);
    }
  }

  function DirtyLines(c: Cache): nat {
    DirtySets(c.sets)
  }

  lemma DirtyWithWays(g: Geometry, c: Cache, tag: nat, ways: seq<Line>)
    requires Shaped(g, c) && |ways| == g.assoc
    ensures DirtyLines(WithWays(g, c, tag, ways)) + Dirty(WaysFor(g, c, tag)) == DirtyLines(c) + Dirty(ways)
  {
    DirtySetsUpdated(c.sets, g.SetOf(tag), ways);
  }

  /** The write misses that are not yet accounted for by a modified line or a miss served from one. */
  function Balance(c: Cache): int {
    c.stats.writeMisses - c.stats.servicedByModified - DirtyLines(c)
  }

  function Total(cs: Caches): int {
    if cs == [] then 0 else Balance(cs[0]) + Total(cs[1..])
  }

  lemma {:induction false} TotalUpdated(cs: Caches, i: nat, c: Cache)
    requires i < |cs|
    ensures Total(cs[i := c]) == Total(cs) - Balance(cs[i]) + Balance(c)
  {
    hide Balance;
    if i == 0 {
      assert cs[i := c][1..] == cs[1..];
    } else {
      assert cs[i := c][1..] == cs[1..][i - 1 := c];
      TotalUpdated(cs[1..], i - 1, c);
    }
  }

  lemma {:induction false} TotalOfMore(cs: Caches, c: Cache)
    ensures Total(cs + [c]) == Total(cs) + Balance(c)
  {
    hide Balance;
    if cs == [] {
      assert [c][1..] == [];
      assert cs + [c] == [c];
    } else {
      assert (cs + [c])[1..] == cs[1..] + [c];
      TotalOfMore(cs[1..], c);
    }
  }

  lemma SnoopedReadBalance(g: Geometry, c: Cache, tag: nat)
    requires Shaped(g, c)
    ensures var (c', done, reply) := SnoopedRead(g, c, tag);
            Balance(c') == Balance(c) + if done && reply.providedData && !reply.isShared then 1 else 0
  {
    hide Dirty, DirtyLines, Lookup, ChangeState, StateOf;
    var ways := WaysFor(g, c, tag);
    var looked := Lookup(ways, tag);
    DirtyLookup(ways, tag);
    DirtyWithWays(g, c, tag, looked);
    DirtyChanged(looked, tag, Shared);
    DirtyWithWays(g, c, tag, ChangeState(looked, tag, Shared));
    StateAfterLookup(ways, tag);
  }

  lemma StateAfterLookup(ways: seq<Line>, tag: nat)
    ensures StateOf(Lookup(ways, tag), tag) == StateOf(ways, tag)
  {
    if Holds(ways, tag) { assert Find(Lookup(ways, tag), tag) == 0; }
  }

  /** The snoop of a read hands over at most one modified line, and the reply says so. */
  lemma {:induction false} ReadRemoteBalance(g: Geometry, cs: Caches, me: nat, tag: nat, i: nat)
    requires AllShaped(g, cs) && i <= |cs|
    ensures var (cs', reply) := ReadRemote(g, cs, me, tag, i);
            Total(cs') == Total(cs) + if reply.providedData && !reply.isShared then 1 else 0
    decreases |cs| - i
  {
    hide Shaped, SnoopedRead, Balance, Total;
    if i < |cs| {
      var (c, done, reply) := SnoopedRead(g, cs[i], tag);
      SnoopedReadBalance(g, cs[i], tag);
      TotalUpdated(cs, i, c);
      ReadRemoteBalance(g, cs, me, tag, i + 1);
      ReadRemoteBalance(g, cs[i := c], me, tag, i + 1);
    }
  }

  lemma SnoopedWriteBalance(g: Geometry, c: Cache, tag: nat)
    requires Shaped(g, c)
    ensures Balance(SnoopedWrite(g, c, tag)) >= Balance(c)
  {
    hide Dirty, DirtyLines, Lookup, Invalidate, StateOf;
    var ways := WaysFor(g, c, tag);
    var looked := Lookup(ways, tag);
    DirtyLookup(ways, tag);
    DirtyInvalidated(looked, tag);
    DirtyWithWays(g, c, tag, looked);
    DirtyWithWays(g, c, tag, Invalidate(looked, tag));
  }

  lemma {:induction false} WriteRemoteBalance(g: Geometry, cs: Caches, me: nat, tag: nat, i: nat)
    requires AllShaped(g, cs) && i <= |cs|
    ensures Total(WriteRemote(g, cs, me, tag, i)) >= Total(cs)
    decreases |cs| - i
  {
    hide Shaped, SnoopedWrite, Balance, Total;
    if i < |cs| {
      SnoopedWriteBalance(g, cs[i], tag);
      TotalUpdated(cs, i, SnoopedWrite(g, cs[i], tag));
      WriteRemoteBalance(g, cs, me, tag, i + 1);
      WriteRemoteBalance(g, cs[i := SnoopedWrite(g, cs[i], tag)], me, tag, i + 1);
    }
  }

  lemma LookedBalance(g: Geometry, c: Cache, tag: nat)
    requires Shaped(g, c)
    ensures DirtyLines(Looked(g, c, tag)) == DirtyLines(c)
  {
    hide Dirty, DirtyLines, Lookup;
    DirtyLookup(WaysFor(g, c, tag), tag);
    DirtyWithWays(g, c, tag, Lookup(WaysFor(g, c, tag), tag));
  }

  lemma FilledBalance(g: Geometry, c: Cache, tag: nat, state: MSI)
    requires Shaped(g, c)
    ensures DirtyLines(Filled(g, c, tag, state)) <= DirtyLines(c) + if state == Modified then 1 else 0
  {
    hide Dirty, DirtyLines, Fill;
    DirtyFilled(WaysFor(g, c, tag), tag, state);
    DirtyWithWays(g, c, tag, Fill(WaysFor(g, c, tag), tag, state));
  }

  lemma UpgradedBalance(g: Geometry, c: Cache, tag: nat)
    requires Shaped(g, c)
    ensures DirtyLines(Upgraded(g, c, tag)) <= DirtyLines(c) + 1
  {
    hide Dirty, DirtyLines, ChangeState;
    DirtyChanged(WaysFor(g, c, tag), tag, Modified);
    DirtyWithWays(g, c, tag, ChangeState(WaysFor(g, c, tag), tag, Modified));
  }

  lemma BalanceOf(c: Cache, n: Counters)
    ensures Balance(c.(stats := n)) == n.writeMisses - n.servicedByModified - DirtyLines(c)
    ensures Balance(c) == c.stats.writeMisses - c.stats.servicedByModified - DirtyLines(c)
  {
  }

  lemma KeepsShape(g: Geometry, c: Cache, n: Counters)
    requires Shaped(g, c)
    ensures Shaped(g, c.(stats := n))
  {
  }

  /** No access makes a modified line, or a miss served from one, out of nothing. */
  lemma ReadConserves(g: Geometry, cs: Caches, k: nat, tag: nat)
    requires AllShaped(g, cs) && k < |cs|
    ensures Total(ReadLine(g, cs, k, tag)) >= Total(cs)
  {
    hide Shaped, Looked, Filled, Total, Balance, DirtyLines, ReadRemote, StateIn, Holds, WaysFor;
    var own := Looked(g, cs[k], tag);
    LookedBalance(g, cs[k], tag);
    BalanceOf(cs[k], own.stats);
    BalanceOf(own, CountReadHit(own.stats));
    TotalUpdated(cs, k, own);
    TotalUpdated(cs, k, own.(stats := CountReadHit(own.stats)));
    var (cs1, reply) := ReadRemote(g, cs[k := own], own.cpuId, tag, 0);
    ReadRemoteBalance(g, cs[k := own], own.cpuId, tag, 0);
    var n := CountReadMiss(cs1[k].stats, Holds(WaysFor(g, cs[k], tag), tag), reply);
    FilledBalance(g, cs1[k], tag, Shared);
    BalanceOf(cs1[k], n);
    BalanceOf(Filled(g, cs1[k], tag, Shared), n);
    TotalUpdated(cs1, k, Filled(g, cs1[k], tag, Shared).(stats := n));
  }

  lemma WriteConserves(g: Geometry, cs: Caches, k: nat, tag: nat)
    requires AllShaped(g, cs) && k < |cs|
    ensures Total(WriteLine(g, cs, k, tag)) >= Total(cs)
  {
    hide Shaped, Looked, Filled, Upgraded, Total, Balance, DirtyLines, WriteRemote, StateIn, Holds, WaysFor;
    var found := Holds(WaysFor(g, cs[k], tag), tag);
    var own := Looked(g, cs[k], tag);
    var n, m := CountWriteMiss(own.stats, found, false), CountWriteMiss(own.stats, false, true);
    LookedBalance(g, cs[k], tag);
    BalanceOf(cs[k], own.stats);
    BalanceOf(own, n);
    BalanceOf(own, m);
    BalanceOf(own, CountWriteHit(own.stats));
    KeepsShape(g, own, n);
    KeepsShape(g, own, m);
    WriteMissConserves(g, cs, k, tag, own.(stats := n));
    WriteMissConserves(g, cs, k, tag, own.(stats := m));
    TotalUpdated(cs, k, own.(stats := CountWriteHit(own.stats)));
  }

  /** Whether the line is filled or upgraded. */
  lemma WriteMissConserves(g: Geometry, cs: Caches, k: nat, tag: nat, counted: Cache)
    requires AllShaped(g, cs) && k < |cs| && Shaped(g, counted) && Balance(counted) == Balance(cs[k]) + 1
    ensures var cs1 := WriteRemote(g, cs[k := counted], counted.cpuId, tag, 0);
            && Total(cs1[k := Filled(g, cs1[k], tag, Modified)]) >= Total(cs)
            && Total(cs1[k := Upgraded(g, cs1[k], tag)]) >= Total(cs)
  {
    hide Shaped, Filled, Upgraded, Total, Balance, DirtyLines, WriteRemote;
    TotalUpdated(cs, k, counted);
    WriteRemoteBalance(g, cs[k := counted], counted.cpuId, tag, 0);
    var cs1 := WriteRemote(g, cs[k := counted], counted.cpuId, tag, 0);
    var f, u := Filled(g, cs1[k], tag, Modified), Upgraded(g, cs1[k], tag);
    FilledBalance(g, cs1[k], tag, Modified);
    UpgradedBalance(g, cs1[k], tag);
    BalanceOf(cs1[k], cs1[k].stats);
    BalanceOf(f, f.stats);
    BalanceOf(u, u.stats);
    TotalUpdated(cs1, k, f);
    TotalUpdated(cs1, k, u);
  }
}
