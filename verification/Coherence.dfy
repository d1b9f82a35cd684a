/** N caches under the MSI protocol: what a read and a write of one cache do to all of them. */
module Coherence {
  import opened CacheWays
  import opened CacheGeometry

  datatype Counters = Counters(
    readHits: nat, readMisses: nat, readOnInvalid: nat, readRequestsSent: nat,
    servicedByOthers: nat, servicedByShared: nat, servicedByModified: nat,
    writeHits: nat, writeMisses: nat, writeOnShared: nat, writeOnInvalid: nat, invalidatesSent: nat)

  const ZERO: Counters := Counters(0, 0, 0, 0, 0, 0, 0, 0, 0, 0, 0, 0)

  datatype Cache = Cache(cpuId: nat, sets: seq<seq<Line>>, stats: Counters)

  /** What readRemoteAction answers. */
  datatype RemoteReadService = RemoteReadService(isShared: bool, providedData: bool)

  predicate Shaped(g: Geometry, c: Cache) {
    0 < g.sets == |c.sets| && 0 < g.assoc && forall s :: 0 <= s < |c.sets| ==> |c.sets[s]| == g.assoc
  }

  type Caches = seq<Cache>

  predicate AllShaped(g: Geometry, cs: Caches) {
    forall i :: 0 <= i < |cs| ==> Shaped(g, cs[i])
  }

  function WaysFor(g: Geometry, c: Cache, tag: nat): seq<Line>
    requires Shaped(g, c)
  {
    c.sets[g.SetOf(tag)]
  }

  function WithWays(g: Geometry, c: Cache, tag: nat, ways: seq<Line>): (c': Cache)
    requires Shaped(g, c) && |ways| == g.assoc
    ensures Shaped(g, c') && c'.cpuId == c.cpuId && c'.stats == c.stats
  {
    c.(sets := c.sets[g.SetOf(tag) := ways])
  }

  function StateIn(g: Geometry, c: Cache, tag: nat): MSI
    requires Shaped(g, c)
  {
    StateOf(WaysFor(g, c, tag), tag)
  }

  /** The snoop of a read in one other cache, and whether it ends the round. */
  function SnoopedRead(g: Geometry, c: Cache, tag: nat): (r: (Cache, bool, RemoteReadService))
    requires Shaped(g, c)
    ensures Shaped(g, r.0) && r.0.cpuId == c.cpuId && r.0.stats == c.stats
  {
    var ways := WaysFor(g, c, tag);
    var c1 := WithWays(g, c, tag, Lookup(ways, tag));
    if !Holds(ways, tag) then (c1, false, RemoteReadService(false, false))
    else match StateOf(ways, tag)
      case Modified => (WithWays(g, c, tag, ChangeState(Lookup(ways, tag), tag, Shared)), true,
        RemoteReadService(false, true))
      case Shared => (c1, true, RemoteReadService(true, true))
      case Invalid => (c1, false, RemoteReadService(false, false))
  }

  /** readRemoteAction from cache i on: the first holder of the line answers. */
  function ReadRemote(g: Geometry, cs: Caches, cpuId: nat, tag: nat, i: nat): (r: (Caches, RemoteReadService))
    requires AllShaped(g, cs) && i <= |cs|
    ensures AllShaped(g, r.0) && |r.0| == |cs|
    decreases |cs| - i
  {
    if i == |cs| then (cs, RemoteReadService(false, false))
    else if cs[i].cpuId == cpuId then ReadRemote(g, cs, cpuId, tag, i + 1)
    else
      var (c, done, reply) := SnoopedRead(g, cs[i], tag);
      if done then (cs[i := c], reply) else ReadRemote(g, cs[i := c], cpuId, tag, i + 1)
  }

  function SnoopedWrite(g: Geometry, c: Cache, tag: nat): (r: Cache)
    requires Shaped(g, c)
    ensures Shaped(g, r) && r.cpuId == c.cpuId && r.stats == c.stats
  {
    var ways := WaysFor(g, c, tag);
    var looked := Lookup(ways, tag);
    WithWays(g, c, tag, if StateOf(ways, tag) != Invalid then Invalidate(looked, tag) else looked)
  }

  /** writeRemoteAction from cache i on: every other cache gives the line up. */
  function WriteRemote(g: Geometry, cs: Caches, cpuId: nat, tag: nat, i: nat): (r: Caches)
    requires AllShaped(g, cs) && i <= |cs|
    ensures AllShaped(g, r) && |r| == |cs|
    decreases |cs| - i
  {
    if i == |cs| then cs
    else if cs[i].cpuId == cpuId then WriteRemote(g, cs, cpuId, tag, i + 1)
    else WriteRemote(g, cs[i := SnoopedWrite(g, cs[i], tag)], cpuId, tag, i + 1)
  }

  function Looked(g: Geometry, c: Cache, tag: nat): (c': Cache)
    requires Shaped(g, c)
    ensures Shaped(g, c') && c'.cpuId == c.cpuId && c'.stats == c.stats
  {
    WithWays(g, c, tag, Lookup(WaysFor(g, c, tag), tag))
  }

  function Filled(g: Geometry, c: Cache, tag: nat, state: MSI): (c': Cache)
    requires Shaped(g, c)
    ensures Shaped(g, c') && c'.cpuId == c.cpuId && c'.stats == c.stats
  {
    WithWays(g, c, tag, Fill(WaysFor(g, c, tag), tag, state))
  }

  /** The line of a hit becomes modified. */
  function Upgraded(g: Geometry, c: Cache, tag: nat): (c': Cache)
    requires Shaped(g, c)
    ensures Shaped(g, c') && c'.cpuId == c.cpuId && c'.stats == c.stats
  {
    WithWays(g, c, tag, ChangeState(WaysFor(g, c, tag), tag, Modified))
  }

  function CountReadHit(n: Counters): Counters {
    n.(readHits := n.readHits + 1)
  }

  function CountWriteHit(n: Counters): Counters {
    n.(writeHits := n.writeHits + 1)
  }

  function CountWriteMiss(n: Counters, onInvalid: bool, onShared: bool): Counters {
    n.(writeMisses := n.writeMisses + 1,
       writeOnInvalid := n.writeOnInvalid + (if onInvalid then 1 else 0),
       writeOnShared := n.writeOnShared + (if onShared then 1 else 0),
       invalidatesSent := n.invalidatesSent + 1)
  }

  function CountReadMiss(n: Counters, found: bool, reply: RemoteReadService): Counters {
    n.(readMisses := n.readMisses + 1,
       readOnInvalid := n.readOnInvalid + (if found then 1 else 0),
       readRequestsSent := n.readRequestsSent + 1,
       servicedByOthers := n.servicedByOthers + (if reply.providedData then 1 else 0),
       servicedByShared := n.servicedByShared + (if reply.providedData && reply.isShared then 1 else 0),
       servicedByModified := n.servicedByModified + (if reply.providedData && !reply.isShared then 1 else 0))
  }

  /** A read of the line by cache k. */
  function ReadLine(g: Geometry, cs: Caches, k: nat, tag: nat): (r: Caches)
    requires AllShaped(g, cs) && k < |cs|
    ensures AllShaped(g, r) && |r| == |cs|
  {
    var found, st := Holds(WaysFor(g, cs[k], tag), tag), StateIn(g, cs[k], tag);
    var own := Looked(g, cs[k], tag);
    if !found || st == Invalid then
      var (cs1, reply) := ReadRemote(g, cs[k := own], own.cpuId, tag, 0);
      var c := cs1[k];
      cs1[k := Filled(g, c, tag, Shared).(stats := CountReadMiss(c.stats, found, reply))]
    else cs[k := own.(stats := CountReadHit(own.stats))]
  }

  /** A write of the line by cache k. */
  function WriteLine(g: Geometry, cs: Caches, k: nat, tag: nat): (r: Caches)
    requires AllShaped(g, cs) && k < |cs|
    ensures AllShaped(g, r) && |r| == |cs|
  {
    var found, st := Holds(WaysFor(g, cs[k], tag), tag), StateIn(g, cs[k], tag);
    var own := Looked(g, cs[k], tag);
    if !found || st == Invalid then
      var counted := own.(stats := CountWriteMiss(own.stats, found, false));
      var cs1 := WriteRemote(g, cs[k := counted], own.cpuId, tag, 0);
      cs1[k := Filled(g, cs1[k], tag, Modified)]
    else if st == Shared then
      var counted := own.(stats := CountWriteMiss(own.stats, false, true));
      var cs1 := WriteRemote(g, cs[k := counted], own.cpuId, tag, 0);
      cs1[k := Upgraded(g, cs1[k], tag)]
    else cs[k := own.(stats := CountWriteHit(own.stats))]
  }

  // -------------------------------------------------------------------------------------------
  // What every cache keeps.

  ghost predicate SetOk(g: Geometry, ways: seq<Line>, s: nat)
    requires g.sets > 0
  {
    WaysOk(ways) && forall k :: 0 <= k < |ways| && ways[k].tag != 0 ==> g.SetOf(ways[k].tag) == s
  }

  /** Every set is well formed and holds only tags that belong to it. */
  ghost predicate CacheOk(g: Geometry, c: Cache) {
    Shaped(g, c) && forall s :: 0 <= s < |c.sets| ==> SetOk(g, c.sets[s], s)
  }

  ghost predicate AllOk(g: Geometry, cs: Caches) {
    forall i :: 0 <= i < |cs| ==> CacheOk(g, cs[i]) && cs[i].cpuId == i
  }

  /** A line that one cache has modified is valid in no other. */
  ghost predicate Coherent(g: Geometry, cs: Caches)
    requires AllShaped(g, cs)
  {
    forall i, j, tag: nat ::
      0 <= i < |cs| && 0 <= j < |cs| && i != j && tag != 0 && StateIn(g, cs[i], tag) == Modified ==>
        StateIn(g, cs[j], tag) == Invalid
  }

  lemma WithWaysStates(g: Geometry, c: Cache, tag: nat, ways: seq<Line>, other: nat)
    requires Shaped(g, c) && |ways| == g.assoc
    ensures StateIn(g, WithWays(g, c, tag, ways), other) == if g.SetOf(other) == g.SetOf(tag) then StateOf(ways, other)
            else StateIn(g, c, other)
  {
  }

  lemma WithWaysTwice(g: Geometry, c: Cache, tag: nat, first: seq<Line>, second: seq<Line>)
    requires Shaped(g, c) && |first| == |second| == g.assoc
    ensures WithWays(g, WithWays(g, c, tag, first), tag, second) == WithWays(g, c, tag, second)
    ensures WaysFor(g, WithWays(g, c, tag, first), tag) == first
  {
  }

  lemma WithWaysOk(g: Geometry, c: Cache, tag: nat, ways: seq<Line>)
    requires CacheOk(g, c) && |ways| == g.assoc && SetOk(g, ways, g.SetOf(tag))
    ensures CacheOk(g, WithWays(g, c, tag, ways))
  {
  }

  /** Lookups and changes bring in no tag but the one they are about. */
  lemma OnlyThatTag(g: Geometry, ways: seq<Line>, changed: seq<Line>, tag: nat)
    requires g.sets > 0 && SetOk(g, ways, g.SetOf(tag)) && WaysOk(changed)
    requires forall k :: 0 <= k < |changed| ==> changed[k] in ways || changed[k].tag == tag || changed[k].tag == 0
    ensures SetOk(g, changed, g.SetOf(tag))
  {
  }

  lemma LookupSetOk(g: Geometry, ways: seq<Line>, tag: nat)
    requires g.sets > 0 && SetOk(g, ways, g.SetOf(tag))
    ensures SetOk(g, Lookup(ways, tag), g.SetOf(tag))
  {
    hide Geometry.SetOf, WaysOk;
    LookupOk(ways, tag);
    OnlyThatTag(g, ways, Lookup(ways, tag), tag);
  }

  lemma FillSetOk(g: Geometry, ways: seq<Line>, tag: nat, state: MSI)
    requires g.sets > 0 && SetOk(g, ways, g.SetOf(tag)) && |ways| > 0 && tag != 0 && state != Invalid
    ensures SetOk(g, Fill(ways, tag, state), g.SetOf(tag))
  {
    hide Geometry.SetOf, WaysOk;
    FillOk(ways, tag, state);
    OnlyThatTag(g, ways, Fill(ways, tag, state), tag);
  }

  lemma ChangeSetOk(g: Geometry, ways: seq<Line>, tag: nat, state: MSI)
    requires g.sets > 0 && SetOk(g, ways, g.SetOf(tag)) && tag != 0 && state != Invalid
    ensures SetOk(g, ChangeState(ways, tag, state), g.SetOf(tag))
  {
    hide Geometry.SetOf, WaysOk;
    ChangeStateOk(ways, tag, state);
    OnlyThatTag(g, ways, ChangeState(ways, tag, state), tag);
  }

  lemma InvalidateSetOk(g: Geometry, ways: seq<Line>, tag: nat)
    requires g.sets > 0 && SetOk(g, ways, g.SetOf(tag)) && tag != 0
    ensures SetOk(g, Invalidate(ways, tag), g.SetOf(tag))
  {
    hide Geometry.SetOf, WaysOk;
    InvalidateOk(ways, tag);
    OnlyThatTag(g, ways, Invalidate(ways, tag), tag);
  }

  // -------------------------------------------------------------------------------------------
  // What one cache's part in an access does to the states it has lines in.

  lemma LookedStates(g: Geometry, c: Cache, tag: nat)
    requires CacheOk(g, c)
    ensures CacheOk(g, Looked(g, c, tag))
    ensures forall other: nat :: other != 0 ==> StateIn(g, Looked(g, c, tag), other) == StateIn(g, c, other)
  {
    hide Geometry.SetOf, Lookup, StateOf, WaysOk, StateIn;
    var ways := WaysFor(g, c, tag);
    LookupSetOk(g, ways, tag);
    WithWaysOk(g, c, tag, Lookup(ways, tag));
    forall other: nat | other != 0 ensures StateIn(g, Looked(g, c, tag), other) == StateIn(g, c, other) {
      LookupStates(ways, tag, other);
      WithWaysStates(g, c, tag, Lookup(ways, tag), other);
      StateInSet(g, c, tag, other);
    }
  }

  lemma StateInSet(g: Geometry, c: Cache, tag: nat, other: nat)
    requires Shaped(g, c)
    ensures g.SetOf(other) == g.SetOf(tag) ==> StateIn(g, c, other) == StateOf(WaysFor(g, c, tag), other)
  {
  }

  lemma SnoopedReadStates(g: Geometry, c: Cache, tag: nat)
    requires CacheOk(g, c) && tag != 0
    ensures var (c', done, reply) := SnoopedRead(g, c, tag);
            && CacheOk(g, c') && (done <==> StateIn(g, c, tag) != Invalid)
            && reply == RemoteReadService(StateIn(g, c, tag) == Shared, StateIn(g, c, tag) != Invalid)
            && forall other: nat :: other != 0 ==>
                 StateIn(g, c', other) == if other == tag && StateIn(g, c, tag) == Modified then Shared
                   else StateIn(g, c, other)
  {
    hide Geometry.SetOf, Lookup, StateOf, WaysOk, ChangeState, Holds;
    LookedStates(g, c, tag);
    var ways := WaysFor(g, c, tag);
    var looked := Lookup(ways, tag);
    StateIsValidity(ways, tag);
    if StateOf(ways, tag) == Modified {
      LookupSetOk(g, ways, tag);
      LookupStates(ways, tag, tag);
      StateIsValidity(looked, tag);
      ChangeSetOk(g, looked, tag, Shared);
      var changed := ChangeState(looked, tag, Shared);
      WithWaysOk(g, c, tag, changed);
      forall other: nat | other != 0
        ensures StateIn(g, WithWays(g, c, tag, changed), other) == if other == tag then Shared else StateIn(g, c, other)
      {
        LookupStates(ways, tag, other);
        ChangeStateStates(looked, tag, Shared, other);
        WithWaysStates(g, c, tag, changed, other);
      }
    }
  }

  lemma SnoopedWriteStates(g: Geometry, c: Cache, tag: nat)
    requires CacheOk(g, c) && tag != 0
    ensures CacheOk(g, SnoopedWrite(g, c, tag))
    ensures forall other: nat :: other != 0 ==>
            StateIn(g, SnoopedWrite(g, c, tag), other) == if other == tag then Invalid else StateIn(g, c, other)
  {
    hide Geometry.SetOf, Lookup, StateOf, WaysOk, Invalidate, Holds;
    var ways := WaysFor(g, c, tag);
    var looked := Lookup(ways, tag);
    LookupSetOk(g, ways, tag);
    InvalidateSetOk(g, looked, tag);
    var changed := if StateOf(ways, tag) != Invalid then Invalidate(looked, tag) else looked;
    WithWaysOk(g, c, tag, changed);
    forall other: nat | other != 0
      ensures StateIn(g, WithWays(g, c, tag, changed), other) == if other == tag then Invalid else StateIn(g, c, other)
    {
      LookupStates(ways, tag, other);
      InvalidateStates(looked, tag, other);
      WithWaysStates(g, c, tag, changed, other);
    }
  }

  /** The tag that a fill pushes out, 0 if none. */
  function Victim(g: Geometry, c: Cache, tag: nat): nat
    requires Shaped(g, c)
  {
    var ways := WaysFor(g, c, tag);
    if !Holds(ways, tag) && AllValid(ways) then ways[|ways| - 1].tag else 0
  }

  lemma FilledStates(g: Geometry, c: Cache, tag: nat, state: MSI)
    requires CacheOk(g, c) && tag != 0 && state != Invalid
    ensures CacheOk(g, Filled(g, c, tag, state))
    ensures forall other: nat :: other != 0 ==>
              StateIn(g, Filled(g, c, tag, state), other) == if other == tag then state
                else if other == Victim(g, c, tag) then Invalid else StateIn(g, c, other)
  {
    hide Geometry.SetOf, StateOf, WaysOk, Fill, Holds, AllValid;
    var ways := WaysFor(g, c, tag);
    FillSetOk(g, ways, tag, state);
    WithWaysOk(g, c, tag, Fill(ways, tag, state));
    VictimInSet(g, c, tag);
    forall other: nat | other != 0
      ensures StateIn(g, Filled(g, c, tag, state), other) == if other == tag then state
              else if other == Victim(g, c, tag) then Invalid else StateIn(g, c, other)
    {
      FillStates(ways, tag, state, other);
      WithWaysStates(g, c, tag, Fill(ways, tag, state), other);
    }
  }

  lemma VictimInSet(g: Geometry, c: Cache, tag: nat)
    requires CacheOk(g, c)
    ensures Victim(g, c, tag) != 0 ==> g.SetOf(Victim(g, c, tag)) == g.SetOf(tag)
  {
  }

  lemma UpgradedStates(g: Geometry, c: Cache, tag: nat)
    requires CacheOk(g, c) && tag != 0 && StateIn(g, c, tag) != Invalid
    ensures var c' := Upgraded(g, c, tag);
            && CacheOk(g, c')
            && forall other: nat :: other != 0 ==>
               StateIn(g, c', other) == if other == tag then Modified else StateIn(g, c, other)
  {
    hide Geometry.SetOf, StateOf, WaysOk, ChangeState, Holds;
    var ways := WaysFor(g, c, tag);
    StateIsValidity(ways, tag);
    ChangeSetOk(g, ways, tag, Modified);
    var changed := ChangeState(ways, tag, Modified);
    WithWaysOk(g, c, tag, changed);
    forall other: nat | other != 0
      ensures StateIn(g, WithWays(g, c, tag, changed), other) == if other == tag then Modified else StateIn(g, c, other)
    {
      ChangeStateStates(ways, tag, Modified, other);
      WithWaysStates(g, c, tag, changed, other);
    }
  }

  // -------------------------------------------------------------------------------------------
  // The bus.

  ghost predicate HasLine(g: Geometry, cs: Caches, j: nat, me: nat, from: nat, tag: nat)
    requires AllShaped(g, cs)
  {
    from <= j < |cs| && j != me && StateIn(g, cs[j], tag) != Invalid
  }

  ghost predicate HasDirtyLine(g: Geometry, cs: Caches, j: nat, me: nat, from: nat, tag: nat)
    requires AllShaped(g, cs)
  {
    from <= j < |cs| && j != me && StateIn(g, cs[j], tag) == Modified
  }

  /** The early return loses nothing: every other cache ends as a full round would leave it, and
      the reply is about all of them. */
  ghost predicate ReadRemoteExact(g: Geometry, cs: Caches, me: nat, tag: nat, i: nat, cs': Caches,
    reply: RemoteReadService)
    requires AllShaped(g, cs) && AllShaped(g, cs') && |cs'| == |cs|
  {
    && AllOk(g, cs')
    && (forall j :: 0 <= j < |cs| ==> cs'[j].stats == cs[j].stats)
    && (forall j, other: nat :: 0 <= j < |cs| && other != 0 ==>
          StateIn(g, cs'[j], other) == if j >= i && j != me && other == tag && StateIn(g, cs[j], tag) == Modified
            then Shared else StateIn(g, cs[j], other))
    && (reply.providedData <==> exists j: nat :: HasLine(g, cs, j, me, i, tag))
    && (reply.providedData && !reply.isShared <==> exists j: nat :: HasDirtyLine(g, cs, j, me, i, tag))
    && (me < |cs| ==> cs'[me] == cs[me])
  }

  ghost predicate SameStates(g: Geometry, cs: Caches, cs': Caches)
    requires AllShaped(g, cs) && AllShaped(g, cs')
  {
    |cs'| == |cs| && forall j, other: nat :: 0 <= j < |cs| && other != 0 ==>
      StateIn(g, cs'[j], other) == StateIn(g, cs[j], other)
  }

  lemma {:induction false} ReadRemoteIsExact(g: Geometry, cs: Caches, me: nat, tag: nat, i: nat)
    requires AllShaped(g, cs) && AllOk(g, cs) && Coherent(g, cs) && tag != 0 && i <= |cs|
    ensures var (cs', reply) := ReadRemote(g, cs, me, tag, i); ReadRemoteExact(g, cs, me, tag, i, cs', reply)
    decreases |cs| - i
  {
    hide StateIn, CacheOk, Shaped, SnoopedRead;
    if i < |cs| {
      var next := i + 1;
      if cs[i].cpuId == me {
        ReadRemoteIsExact(g, cs, me, tag, next);
        assert forall j: nat :: HasLine(g, cs, j, me, next, tag) <==> HasLine(g, cs, j, me, i, tag);
        assert forall j: nat :: HasDirtyLine(g, cs, j, me, next, tag) <==> HasDirtyLine(g, cs, j, me, i, tag);
      } else {
        SnoopedReadStates(g, cs[i], tag);
        var (c, done, reply) := SnoopedRead(g, cs[i], tag);
        if done {
          assert HasLine(g, cs, i, me, i, tag);
          assert reply.isShared || HasDirtyLine(g, cs, i, me, i, tag);
        } else {
          var cs1 := cs[i := c];
          assert SameStates(g, cs, cs1);
          ReadRemoteIsExact(g, cs1, me, tag, next);
          assert forall j: nat :: HasLine(g, cs1, j, me, next, tag) <==> HasLine(g, cs, j, me, i, tag);
          assert forall j: nat :: HasDirtyLine(g, cs1, j, me, next, tag) <==> HasDirtyLine(g, cs, j, me, i, tag);
        }
      }
    }
  }

  ghost predicate WriteRemoteExact(g: Geometry, cs: Caches, me: nat, tag: nat, i: nat, cs': Caches)
    requires AllShaped(g, cs) && AllShaped(g, cs') && |cs'| == |cs|
  {
    && AllOk(g, cs')
    && (forall j :: 0 <= j < |cs| ==> cs'[j].stats == cs[j].stats)
    && (forall j, other: nat :: 0 <= j < |cs| && other != 0 ==>
          StateIn(g, cs'[j], other) == if j >= i && j != me && other == tag then Invalid else StateIn(g, cs[j], other))
    && (me < |cs| ==> cs'[me] == cs[me])
  }

  lemma {:induction false} WriteRemoteIsExact(g: Geometry, cs: Caches, me: nat, tag: nat, i: nat)
    requires AllShaped(g, cs) && AllOk(g, cs) && tag != 0 && i <= |cs|
    ensures WriteRemoteExact(g, cs, me, tag, i, WriteRemote(g, cs, me, tag, i))
    decreases |cs| - i
  {
    hide StateIn, CacheOk, Shaped, SnoopedWrite;
    if i < |cs| {
      if cs[i].cpuId == me {
        WriteRemoteIsExact(g, cs, me, tag, i + 1);
      } else {
        SnoopedWriteStates(g, cs[i], tag);
        WriteRemoteIsExact(g, cs[i := SnoopedWrite(g, cs[i], tag)], me, tag, i + 1);
      }
    }
  }

  // -------------------------------------------------------------------------------------------
  // Accesses: the protocol, state by state.

  function Hit(g: Geometry, c: Cache, tag: nat): bool
    requires Shaped(g, c)
  {
    StateIn(g, c, tag) != Invalid
  }

  /** After a read by k: k has the line, a modified copy elsewhere is shared now, a fill may have
      pushed one line out of k, and nothing else has changed. */
  ghost predicate ReadExact(g: Geometry, cs: Caches, k: nat, tag: nat, cs': Caches)
    requires AllShaped(g, cs) && AllShaped(g, cs') && |cs'| == |cs| && k < |cs|
  {
    && AllOk(g, cs')
    && forall j, other: nat :: 0 <= j < |cs| && other != 0 ==>
         StateIn(g, cs'[j], other) ==
         if other == tag then
           if j == k then (if Hit(g, cs[k], tag) then StateIn(g, cs[k], tag) else Shared)
           else if !Hit(g, cs[k], tag) && StateIn(g, cs[j], tag) == Modified then Shared
           else StateIn(g, cs[j], tag)
         else if j == k && other == Victim(g, cs[k], tag) && !Hit(g, cs[k], tag) then Invalid
         else StateIn(g, cs[j], other)
  }

  /** After a write by k: k alone has the line. */
  ghost predicate WriteExact(g: Geometry, cs: Caches, k: nat, tag: nat, cs': Caches)
    requires AllShaped(g, cs) && AllShaped(g, cs') && |cs'| == |cs| && k < |cs|
  {
    && AllOk(g, cs')
    && forall j, other: nat :: 0 <= j < |cs| && other != 0 ==>
         StateIn(g, cs'[j], other) ==
         if other == tag then (if j == k then Modified else Invalid)
         else if j == k && other == Victim(g, cs[k], tag) && !Hit(g, cs[k], tag) then Invalid
         else StateIn(g, cs[j], other)
  }

  /** A lookup that misses leaves the set as it is. */
  lemma MissLeavesAlone(g: Geometry, c: Cache, tag: nat)
    requires CacheOk(g, c) && tag != 0
    ensures Holds(WaysFor(g, c, tag), tag) <==> StateIn(g, c, tag) != Invalid
    ensures StateIn(g, c, tag) == Invalid ==> Looked(g, c, tag) == c
  {
    hide Geometry.SetOf;
    StateIsValidity(WaysFor(g, c, tag), tag);
  }

  lemma ReadIsExact(g: Geometry, cs: Caches, k: nat, tag: nat)
    requires AllShaped(g, cs) && AllOk(g, cs) && Coherent(g, cs) && tag != 0 && k < |cs|
    ensures ReadExact(g, cs, k, tag, ReadLine(g, cs, k, tag))
  {
    hide StateIn, CacheOk, Shaped, Looked, Filled, Victim, Holds, ReadRemote, WaysFor;
    MissLeavesAlone(g, cs[k], tag);
    LookedStates(g, cs[k], tag);
    if StateIn(g, cs[k], tag) == Invalid {
      assert cs[k := cs[k]] == cs;
      ReadRemoteIsExact(g, cs, k, tag, 0);
      FilledStates(g, cs[k], tag, Shared);
      var (cs1, reply) := ReadRemote(g, cs, k, tag, 0);
      var c := Filled(g, cs[k], tag, Shared);
      NewStats(g, c, CountReadMiss(cs[k].stats, false, reply));
    } else {
      var own := Looked(g, cs[k], tag);
      NewStats(g, own, CountReadHit(own.stats));
    }
  }

  /** Counting does not touch the lines. */
  lemma NewStats(g: Geometry, c: Cache, n: Counters)
    requires CacheOk(g, c)
    ensures CacheOk(g, c.(stats := n)) && forall other: nat :: StateIn(g, c.(stats := n), other) == StateIn(g, c, other)
  {
  }

  lemma WriteIsExact(g: Geometry, cs: Caches, k: nat, tag: nat)
    requires AllShaped(g, cs) && AllOk(g, cs) && tag != 0 && k < |cs|
    requires Coherent(g, cs)
    ensures WriteExact(g, cs, k, tag, WriteLine(g, cs, k, tag))
  {
    hide StateIn, CacheOk, Shaped, Looked, Filled, Upgraded, Victim, Holds, WriteRemote, WaysFor;
    var c := cs[k];
    MissLeavesAlone(g, c, tag);
    LookedStates(g, c, tag);
    var own := Looked(g, c, tag);
    if StateIn(g, c, tag) == Invalid {
      var m := CountWriteMiss(c.stats, false, false);
      NewStats(g, c, m);
      var counted := c.(stats := m);
      WriteRemoteIsExact(g, cs[k := counted], k, tag, 0);
      FilledStates(g, counted, tag, Modified);
      SameVictim(g, c, m, tag);
    } else if StateIn(g, c, tag) == Shared {
      var m := CountWriteMiss(c.stats, false, true);
      NewStats(g, own, m);
      var counted := own.(stats := m);
      WriteRemoteIsExact(g, cs[k := counted], k, tag, 0);
      UpgradedStates(g, counted, tag);
    } else {
      NewStats(g, own, CountWriteHit(c.stats));
    }
  }

  lemma SameVictim(g: Geometry, c: Cache, n: Counters, tag: nat)
    requires Shaped(g, c)
    ensures Shaped(g, c.(stats := n)) && Victim(g, c.(stats := n), tag) == Victim(g, c, tag)
  {
  }

  lemma ReadKeepsCoherent(g: Geometry, cs: Caches, k: nat, tag: nat)
    requires AllShaped(g, cs) && AllOk(g, cs) && Coherent(g, cs) && tag != 0 && k < |cs|
    ensures AllOk(g, ReadLine(g, cs, k, tag)) && Coherent(g, ReadLine(g, cs, k, tag))
  {
    hide StateIn, CacheOk, Shaped, Victim, ReadLine;
    ReadIsExact(g, cs, k, tag);
  }

  lemma WriteKeepsCoherent(g: Geometry, cs: Caches, k: nat, tag: nat)
    requires AllShaped(g, cs) && AllOk(g, cs) && Coherent(g, cs) && tag != 0 && k < |cs|
    ensures AllOk(g, WriteLine(g, cs, k, tag)) && Coherent(g, WriteLine(g, cs, k, tag))
  {
    hide StateIn, CacheOk, Shaped, Victim, WriteLine;
    WriteIsExact(g, cs, k, tag);
  }
}
