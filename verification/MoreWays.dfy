/** When more ways can hurt: the runs in which the wide simulator lacks what the narrow one holds, and the
    exact condition on the numbers of ways and caches under which there are none. */
module MoreWays {
  import opened Bits
  import opened CacheGeometry
  import opened Recency
  import opened Coherence
  import opened SetsInRuns
  import opened InclusionInRuns
  import Runs = CoherenceRuns

  // -------------------------------------------------------------------------------------------
  // Lines of one set.

  /** Tags other than 0 that the mask of any number of sets below 2 to the m takes to set 0. */
  function T(m: nat, i: nat): nat {
    (i + 1) * Pow2(m)
  }

  lemma TagsApart(m: nat, i: nat, j: nat)
    ensures T(m, i) != 0 && (T(m, i) == T(m, j) <==> i == j)
  {
    if i < j { Larger(i, j, Pow2(m)); }
    if j < i { Larger(j, i, Pow2(m)); }
    assert T(m, i) >= Pow2(m);
  }

  lemma Larger(i: nat, j: nat, p: nat)
    requires i < j && p > 0
    ensures (i + 1) * p < (j + 1) * p
  {
  }

  lemma {:induction false} HighBitsMasked(x: nat, m: nat, y: nat)
    requires y < Pow2(m)
    ensures And(x * Pow2(m), y) == 0
    decreases m
  {
    hide And, Pow2;
    PowStep(0);
    if m == 0 {
      AndZero(x * Pow2(m));
    } else {
      PowStep(m - 1);
      Doubled(x, Pow2(m - 1));
      AndParity(x * Pow2(m), y);
      HighBitsMasked(x, m - 1, y / 2);
    }
  }

  lemma AndZero(x: nat)
    ensures And(x, 0) == 0
  {
  }

  lemma Doubled(x: nat, p: nat)
    ensures x * (2 * p) == 2 * (x * p)
  {
  }

  lemma TagsInSet(g: Geometry, m: nat, i: nat)
    requires g.sets > 0 && m == Len(g.sets)
    ensures g.SetOf(T(m, i)) == 0
  {
    hide And, Len, Pow2;
    LenFits(g.sets, m);
    HighBitsMasked(i + 1, m, g.sets - 1);
  }

  // -------------------------------------------------------------------------------------------
  // The reads.

  /** The second cache reads n lines in turn. */
  function Cycle(m: nat, n: nat): seq<ReadOp> {
    if n == 0 then [] else Cycle(m, n - 1) + [ReadOp(false, T(m, n - 1))]
  }

  /** The first cache reads line 0, and then, after each cycle of b lines that starts with line 0, a fresh line. */
  function Rounds(m: nat, b: nat, i: nat): seq<ReadOp>
    requires b > 0
  {
    if i == 0 then [ReadOp(true, T(m, 0))]
    else Rounds(m, b, i - 1) + (Cycle(m, b) + [ReadOp(true, T(m, b - 1 + i))])
  }

  lemma {:induction false} CycleInSet(g: Geometry, m: nat, n: nat)
    requires g.sets > 0 && m == Len(g.sets)
    ensures InSet(g, Cycle(m, n), 0)
  {
    hide Len, Geometry.SetOf, T;
    if n > 0 {
      CycleInSet(g, m, n - 1);
      TagsInSet(g, m, n - 1);
      TagsApart(m, n - 1, 0);
    }
  }

  lemma {:induction false} RoundsInSet(g: Geometry, m: nat, b: nat, i: nat)
    requires g.sets > 0 && m == Len(g.sets) && b > 0
    ensures InSet(g, Rounds(m, b, i), 0)
  {
    hide Len, Geometry.SetOf, T, Cycle;
    if i == 0 {
      TagsInSet(g, m, 0);
      TagsApart(m, 0, 1);
    } else {
      RoundsInSet(g, m, b, i - 1);
      CycleInSet(g, m, b);
      TagsInSet(g, m, b - 1 + i);
      TagsApart(m, b - 1 + i, 0);
    }
  }

  /** Lines n - 1 down to 0, and the fresh lines, newest first. */
  function Down(m: nat, n: nat): (l: seq<nat>)
    ensures |l| == n
  {
    if n == 0 then [] else [T(m, n - 1)] + Down(m, n - 1)
  }

  function Fresh(m: nat, b: nat, i: nat): (l: seq<nat>)
    requires b > 0
    ensures |l| == i
  {
    if i == 0 then [] else [T(m, b - 1 + i)] + Fresh(m, b, i - 1)
  }

  lemma {:induction false} DownAt(m: nat, n: nat)
    ensures forall k: nat :: k < n ==> Down(m, n)[k] == T(m, n - 1 - k)
  {
    hide T;
    if n > 0 { DownAt(m, n - 1); }
  }

  lemma {:induction false} FreshAt(m: nat, b: nat, i: nat)
    requires b > 0
    ensures forall k: nat :: k < i ==> Fresh(m, b, i)[k] == T(m, b - 1 + i - k)
  {
    hide T;
    if i > 0 { FreshAt(m, b, i - 1); }
  }

  lemma NotDown(m: nat, n: nat, i: nat)
    ensures T(m, i) in Down(m, n) <==> i < n
  {
    hide T, Down;
    DownAt(m, n);
    forall j: nat ensures T(m, i) == T(m, j) <==> i == j { TagsApart(m, i, j); }
    if i < n { assert Down(m, n)[n - 1 - i] == T(m, i); }
  }

  lemma NotFresh(m: nat, b: nat, i: nat, k: nat)
    requires b > 0
    ensures T(m, k) in Fresh(m, b, i) ==> b <= k < b + i
  {
    hide T, Fresh;
    FreshAt(m, b, i);
    forall j: nat ensures T(m, k) == T(m, j) <==> k == j { TagsApart(m, k, j); }
  }

  lemma TouchAbsent(list: seq<nat>, t: nat)
    requires t !in list
    ensures Touch(list, t) == list
  {
  }

  lemma FirstRead(m: nat, b: nat, w: nat)
    requires b > 0 && w > 0
    ensures TwoRun(Two([], [], 0), Rounds(m, b, 0), w) == Two([T(m, 0)], [], 1)
  {
    hide T;
    TwoMore(Two([], [], 0), [], ReadOp(true, T(m, 0)), w);
    assert [] + [ReadOp(true, T(m, 0))] == Rounds(m, b, 0);
  }

  /** A round is a cycle of the second cache and a fresh line in the first. */
  lemma RoundStep(m: nat, b: nat, i: nat, w: nat)
    requires b > 0 && i > 0
    ensures var p := TwoRun(Two([], [], 0), Rounds(m, b, i - 1), w);
            TwoRun(Two([], [], 0), Rounds(m, b, i), w) ==
            TwoStep(TwoRun(p, Cycle(m, b), w), ReadOp(true, T(m, b - 1 + i)), w)
  {
    hide T, TwoStep, Cycle, TwoRun;
    var p, r := TwoRun(Two([], [], 0), Rounds(m, b, i - 1), w), ReadOp(true, T(m, b - 1 + i));
    TwoConcat(Two([], [], 0), Rounds(m, b, i - 1), Cycle(m, b) + [r], w);
    TwoMore(p, Cycle(m, b), r, w);
  }

  // -------------------------------------------------------------------------------------------
  // The wide simulator: b ways hold the whole cycle, so from the second round on nothing is snooped,
  // and b fresh lines push line 0 out.

  lemma {:induction false} WideFirstCycle(m: nat, b: nat, n: nat)
    requires n <= b && b > 0
    ensures TwoRun(Two([T(m, 0)], [], 1), Cycle(m, n), b) == Two([T(m, 0)], Down(m, n), 1)
  {
    hide T, Down, Touch, Remove, TwoRun;
    if n == 0 {
      NothingDown(m);
      NoReads(Two([T(m, 0)], [], 1), b);
    } else {
      WideFirstCycle(m, b, n - 1);
      CycleStep(m, Two([T(m, 0)], [], 1), n, b);
      NotDown(m, n - 1, n - 1);
      TouchAlone(T(m, 0), T(m, n - 1));
      OneMoreDown(m, n);
    }
  }

  lemma NoReads(p: Two, w: nat)
    ensures TwoRun(p, [], w) == p
  {
  }

  lemma NothingDown(m: nat)
    ensures Down(m, 0) == []
  {
  }

  lemma OneMoreDown(m: nat, n: nat)
    requires n > 0
    ensures Down(m, n) == [T(m, n - 1)] + Down(m, n - 1)
  {
  }

  lemma TouchAlone(x: nat, t: nat)
    ensures Touch([x], t) == [x]
  {
    assert Remove([x], x) == [];
  }

  lemma {:induction false} WideLaterCycle(m: nat, p: Two, n: nat, w: nat)
    requires forall k: nat :: k < n ==> T(m, k) in p.l1
    ensures var p' := TwoRun(p, Cycle(m, n), w);
            p'.l0 == p.l0 && p'.misses == p.misses && forall t: nat :: t in p'.l1 <==> t in p.l1
  {
    hide T;
    if n > 0 {
      WideLaterCycle(m, p, n - 1, w);
      TwoMore(p, Cycle(m, n - 1), ReadOp(false, T(m, n - 1)), w);
      TouchKeeps(TwoRun(p, Cycle(m, n - 1), w).l1, T(m, n - 1));
    }
  }

  lemma TouchKeeps(list: seq<nat>, t: nat)
    ensures forall u: nat :: u in Touch(list, t) <==> u in list
  {
  }

  ghost predicate WideAt(m: nat, b: nat, i: nat, p: Two)
    requires b > 0
  {
    && p.l0 == Cut(Fresh(m, b, i) + [T(m, 0)], b) && p.misses == i + 1
    && (if i == 0 then p.l1 == [] else forall t: nat :: t in p.l1 <==> t in Down(m, b))
  }

  lemma WideCycle(m: nat, b: nat, i: nat, p: Two)
    requires b > 1 && WideAt(m, b, i, p)
    ensures var p' := TwoRun(p, Cycle(m, b), b);
            p'.l0 == p.l0 && p'.misses == p.misses && forall t: nat :: t in p'.l1 <==> t in Down(m, b)
  {
    hide T, Down, Cycle;
    if i == 0 {
      NoneFresh(m, b);
      WideFirstCycle(m, b, b);
    } else {
      forall k: nat | k < b ensures T(m, k) in p.l1 { NotDown(m, b, k); }
      WideLaterCycle(m, p, b, b);
    }
  }

  lemma NoneFresh(m: nat, b: nat)
    requires b > 0
    ensures Cut(Fresh(m, b, 0) + [T(m, 0)], b) == [T(m, 0)]
  {
  }

  lemma {:induction false} WideRounds(m: nat, b: nat, i: nat)
    requires b > 1 && i <= b
    ensures WideAt(m, b, i, TwoRun(Two([], [], 0), Rounds(m, b, i), b))
  {
    hide T, Down, Cycle, Rounds, Fresh, Cut, TwoStep, TwoRun;
    if i == 0 {
      FirstRead(m, b, b);
      NoneFresh(m, b);
    } else {
      WideRounds(m, b, i - 1);
      RoundStep(m, b, i, b);
      var p := TwoRun(Two([], [], 0), Rounds(m, b, i - 1), b);
      WideCycle(m, b, i - 1, p);
      WideFresh(m, b, i, TwoRun(p, Cycle(m, b), b));
    }
  }

  /** A fresh line in the wide simulator. */
  lemma WideFresh(m: nat, b: nat, i: nat, p: Two)
    requires b > 1 && 0 < i <= b && p.l0 == Cut(Fresh(m, b, i - 1) + [T(m, 0)], b) && p.misses == i
    requires forall t: nat :: t in p.l1 <==> t in Down(m, b)
    ensures WideAt(m, b, i, TwoStep(p, ReadOp(true, T(m, b - 1 + i)), b))
  {
    hide T, Down;
    var y := T(m, b - 1 + i);
    NotFresh(m, b, i - 1, b - 1 + i);
    TagsApart(m, b - 1 + i, 0);
    NotDown(m, b, b - 1 + i);
    TouchAbsent(p.l1, y);
    assert Fresh(m, b, i) + [T(m, 0)] == [y] + (Fresh(m, b, i - 1) + [T(m, 0)]);
  }

  lemma WideLosesIt(m: nat, b: nat)
    requires b > 1
    ensures T(m, 0) !in Cut(Fresh(m, b, b) + [T(m, 0)], b)
  {
    hide T;
    NotFresh(m, b, b, 0);
    assert Cut(Fresh(m, b, b) + [T(m, 0)], b) == Fresh(m, b, b);
  }

  // -------------------------------------------------------------------------------------------
  // The narrow simulator: the cycle does not fit, so each one misses on line 0, and the snoop brings
  // line 0 back to the front of the first cache.

  /** The front of the list of a cache that reads one line after the other. */
  lemma EnterKeepsFront(front: seq<nat>, l: seq<nat>, t: nat, a: nat)
    requires Cut(front, a) <= l && |l| <= a && a > 0 && t !in front
    ensures Cut([t] + front, a) <= Enter(l, t, a) && |Enter(l, t, a)| <= a
    ensures forall u: nat :: u in Enter(l, t, a) ==> u == t || u in l
  {
    if t in l {
      FrontSurvives(Cut(front, a), l, t);
      RemoveShrinks(l, t);
      assert |front| < a;
    }
  }

  lemma FrontSurvives(s: seq<nat>, l: seq<nat>, t: nat)
    requires s <= l && t !in s
    ensures s <= Remove(l, t)
  {
    assert l == s + l[|s|..];
    RemoveConcat(s, l[|s|..], t);
    RemoveAbsent(s, t);
  }

  lemma {:induction false} RemoveShrinks(l: seq<nat>, t: nat)
    requires t in l
    ensures |Remove(l, t)| < |l|
  {
    if l[0] != t { RemoveShrinks(l[1..], t); }
  }

  ghost predicate NarrowAt(m: nat, b: nat, i: nat, a: nat, p: Two)
    requires b > 0
  {
    && T(m, 0) in p.l0 && |p.l0| <= a && |p.l1| <= a && p.misses == i + 1 && T(m, 0) !in p.l1
    && (forall t: nat :: t in p.l0 ==> t == T(m, 0) || t in Fresh(m, b, i))
    && (forall t: nat :: t in p.l1 ==> t in Down(m, b))
  }

  /** After n > 0 reads of a cycle. */
  ghost predicate InCycle(m: nat, b: nat, n: nat, a: nat, p: Two, p': Two) {
    && p'.l0 == Touch(p.l0, T(m, 0)) && p'.misses == p.misses && |p'.l1| <= a && Cut(Down(m, n), a) <= p'.l1
    && (forall t: nat :: t in p'.l1 ==> t in Down(m, b))
  }

  lemma FirstOfCycle(m: nat, b: nat, i: nat, a: nat, p: Two)
    requires 0 < a < b && NarrowAt(m, b, i, a, p)
    ensures InCycle(m, b, 1, a, p, TwoStep(p, ReadOp(false, T(m, 0)), a))
  {
    hide T, Down, Fresh, Touch, Enter;
    NotDown(m, b, 0);
    NothingDown(m);
    OneMoreDown(m, 1);
    EnterKeepsFront([], p.l1, T(m, 0), a);
  }

  lemma NextOfCycle(m: nat, b: nat, i: nat, a: nat, p: Two, n: nat, q: Two)
    requires 0 < a < b && 0 < n < b && NarrowAt(m, b, i, a, p) && InCycle(m, b, n, a, p, q)
    ensures InCycle(m, b, n + 1, a, p, TwoStep(q, ReadOp(false, T(m, n)), a))
  {
    hide T, Down, Fresh, Touch, Enter, Cut;
    NotDown(m, b, n);
    NotDown(m, n, n);
    OneMoreDown(m, n + 1);
    EnterKeepsFront(Down(m, n), q.l1, T(m, n), a);
    EnterHeld(q.l1, T(m, n), a);
    TouchKeeps(p.l0, T(m, 0));
    NotFresh(m, b, i, n);
    TagsApart(m, n, 0);
    TouchAbsent(q.l0, T(m, n));
  }

  lemma {:induction false} NarrowCycle(m: nat, b: nat, i: nat, a: nat, p: Two, n: nat)
    requires 0 < a < b && 0 < n <= b && NarrowAt(m, b, i, a, p)
    ensures InCycle(m, b, n, a, p, TwoRun(p, Cycle(m, n), a))
  {
    hide T, NarrowAt, InCycle, TwoStep, TwoRun;
    CycleStep(m, p, n, a);
    if n == 1 {
      FirstOfCycle(m, b, i, a, p);
    } else {
      NarrowCycle(m, b, i, a, p, n - 1);
      NextOfCycle(m, b, i, a, p, n - 1, TwoRun(p, Cycle(m, n - 1), a));
    }
  }

  lemma CycleStep(m: nat, p: Two, n: nat, w: nat)
    requires n > 0
    ensures TwoRun(p, Cycle(m, n), w) == TwoStep(TwoRun(p, Cycle(m, n - 1), w), ReadOp(false, T(m, n - 1)), w)
    ensures n == 1 ==> TwoRun(p, Cycle(m, n - 1), w) == p
  {
    hide T, TwoStep;
    TwoMore(p, Cycle(m, n - 1), ReadOp(false, T(m, n - 1)), w);
  }

  /** At the end of a cycle line 0 is out of the second cache. */
  lemma CycleEvicts(m: nat, b: nat, a: nat, l: seq<nat>)
    requires 0 < a < b && |l| <= a && Cut(Down(m, b), a) <= l
    ensures T(m, 0) !in l
  {
    hide T, Down;
    DownAt(m, b);
    assert l == Down(m, b)[..a];
    forall k: nat | k < a ensures l[k] != T(m, 0) { TagsApart(m, b - 1 - k, 0); }
  }

  lemma TouchSize(list: seq<nat>, t: nat)
    ensures |Touch(list, t)| <= |list|
    ensures t in list ==> Touch(list, t) != [] && Touch(list, t)[0] == t
  {
    if t in list { RemoveShrinks(list, t); }
  }

  /** A fresh line in the narrow simulator: with two ways or more, line 0 stays behind it. */
  lemma NarrowFresh(m: nat, b: nat, i: nat, a: nat, p: Two, q: Two)
    requires 1 < a < b && i > 0 && NarrowAt(m, b, i - 1, a, p) && InCycle(m, b, b, a, p, q)
    ensures NarrowAt(m, b, i, a, TwoStep(q, ReadOp(true, T(m, b - 1 + i)), a))
  {
    hide T, Down, Fresh;
    var y := T(m, b - 1 + i);
    TouchKeeps(p.l0, T(m, 0));
    TouchSize(p.l0, T(m, 0));
    NotFresh(m, b, i - 1, b - 1 + i);
    TagsApart(m, b - 1 + i, 0);
    NotDown(m, b, b - 1 + i);
    TouchAbsent(q.l1, y);
    CycleEvicts(m, b, a, q.l1);
    hide Touch, Remove;
    EnterFresh(q.l0, y, a);
    OneMoreFresh(m, b, i);
  }

  lemma EnterFresh(list: seq<nat>, y: nat, a: nat)
    requires y !in list && |list| <= a && a > 1 && list != []
    ensures var r := Enter(list, y, a);
            |r| <= a && list[0] in r && forall t: nat :: t in r ==> t == y || t in list
  {
    var r := Enter(list, y, a);
    assert r[1] == list[0];
  }

  lemma OneMoreFresh(m: nat, b: nat, i: nat)
    requires b > 0 && i > 0
    ensures Fresh(m, b, i) == [T(m, b - 1 + i)] + Fresh(m, b, i - 1)
  {
  }

  lemma {:induction false} NarrowRounds(m: nat, b: nat, i: nat, a: nat)
    requires 1 < a < b
    ensures NarrowAt(m, b, i, a, TwoRun(Two([], [], 0), Rounds(m, b, i), a))
  {
    hide T, Cycle, Rounds, TwoStep, TwoRun, NarrowAt, InCycle;
    if i == 0 {
      FirstRead(m, b, a);
      NarrowStart(m, b, a);
    } else {
      NarrowRounds(m, b, i - 1, a);
      RoundStep(m, b, i, a);
      var p := TwoRun(Two([], [], 0), Rounds(m, b, i - 1), a);
      NarrowCycle(m, b, i - 1, a, p, b);
      NarrowFresh(m, b, i, a, p, TwoRun(p, Cycle(m, b), a));
    }
  }

  lemma NarrowStart(m: nat, b: nat, a: nat)
    requires 1 < a < b
    ensures NarrowAt(m, b, 0, a, Two([T(m, 0)], [], 1))
  {
    hide T;
  }

  // -------------------------------------------------------------------------------------------
  // The run, on the simulators.

  /** Two caches, and the reads of b rounds. */
  function HurtingRun(b: nat, sets: nat, shift: nat): seq<Runs.Event>
    requires b > 0
  {
    EventsOf(Rounds(Len(sets), b, b), shift)
  }

  /** The same, and a last read of line 0 by the first cache. */
  function MissingRun(b: nat, sets: nat, shift: nat): seq<Runs.Event>
    requires b > 0
  {
    EventsOf(Rounds(Len(sets), b, b) + [ReadOp(true, T(Len(sets), 0))], shift)
  }

  lemma ShownTags(g: Geometry, cs: Caches, m: nat, p: Two)
    requires AllShaped(g, cs) && AllOk(g, cs) && g.sets > 0 && m == Len(g.sets) && Shows(g, cs, 0, p)
    ensures Has(g, cs, 0, T(m, 0)) <==> T(m, 0) in p.l0
  {
    hide AllOk, AllShaped, Len, T, Has, TagsOf, Geometry.SetOf;
    TagsInSet(g, m, 0);
    TagsApart(m, 0, 1);
    HasIsRecent(g, cs, 0, T(m, 0));
  }

  /** More ways turn a hit into a miss: after this run the narrow simulator holds a line in its first cache
      that the wide one has evicted there. */
  lemma MoreWaysLoseIt(g: Geometry, g': Geometry)
    requires Alike(g, g') && 1 < g.assoc < g'.assoc
    ensures var es, t := HurtingRun(g'.assoc, g.sets, g.shift), T(Len(g.sets), 0);
            && t != 0 && |Runs.After(g, es, |es|)| == |Runs.After(g', es, |es|)| == 2
            && Has(g, Runs.After(g, es, |es|), 0, t) && !Has(g', Runs.After(g', es, |es|), 0, t)
  {
    hide AllOk, Coherent, AllShaped, Len, T, Has, TagsOf, TwoRun, Rounds, Runs.After, EventsOf, Fresh, Cut, InSet;
    var m, b := Len(g.sets), g'.assoc;
    var es, ops := HurtingRun(b, g.sets, g.shift), Rounds(m, b, b);
    TagsApart(m, 0, 1);
    RoundsInSet(g, m, b, b);
    RoundsInSet(g', m, b, b);
    RunShows(g, ops, 0);
    RunShows(g', ops, 0);
    NarrowRounds(m, b, b, g.assoc);
    WideRounds(m, b, b);
    WideLosesIt(m, b);
    Runs.EveryRunIsCoherent(g, es, |es|);
    Runs.EveryRunIsCoherent(g', es, |es|);
    ShownTags(g, Runs.After(g, es, |es|), m, TwoRun(Two([], [], 0), ops, g.assoc));
    ShownTags(g', Runs.After(g', es, |es|), m, TwoRun(Two([], [], 0), ops, b));
  }

  /** And the first cache has missed more often in the wide one after one more read. */
  lemma MoreWaysMissMore(g: Geometry, g': Geometry)
    requires Alike(g, g') && 1 < g.assoc < g'.assoc
    ensures var es := MissingRun(g'.assoc, g.sets, g.shift);
            && |Runs.After(g, es, |es|)| == |Runs.After(g', es, |es|)| == 2
            && Runs.After(g, es, |es|)[0].stats.readMisses == g'.assoc + 1
            && Runs.After(g', es, |es|)[0].stats.readMisses == g'.assoc + 2
  {
    hide AllOk, Coherent, AllShaped, Len, T, Has, TagsOf, TwoRun, Rounds, Runs.After, EventsOf, Fresh, Cut, Enter,
         Geometry.SetOf, Touch;
    var m, b := Len(g.sets), g'.assoc;
    var ops, r := Rounds(m, b, b), ReadOp(true, T(m, 0));
    TagsApart(m, 0, 1);
    TagsInSet(g, m, 0);
    TagsInSet(g', m, 0);
    RoundsInSet(g, m, b, b);
    RoundsInSet(g', m, b, b);
    RunShows(g, ops + [r], 0);
    RunShows(g', ops + [r], 0);
    TwoMore(Two([], [], 0), ops, r, g.assoc);
    TwoMore(Two([], [], 0), ops, r, b);
    NarrowRounds(m, b, b, g.assoc);
    WideRounds(m, b, b);
    WideLosesIt(m, b);
  }

  // -------------------------------------------------------------------------------------------
  // The exact condition.

  /** In all runs with at most c caches, what the simulator with a ways holds the one with b ways holds. */
  ghost predicate AlwaysIncluded(a: nat, b: nat, sets: nat, shift: nat, c: nat) {
    forall g: Geometry, g': Geometry, es: seq<Runs.Event> ::
      Sized(g, a, sets, shift) && Sized(g', b, sets, shift) && Alike(g, g') && |Runs.After(g, es, |es|)| <= c ==>
        IncludedAt(g, g', es, |es|)
  }

  /** No cache counts more read misses in the simulator with geometry g'. */
  ghost predicate NoMoreMisses(g: Geometry, g': Geometry, es: seq<Runs.Event>)
    requires Alike(g, g')
  {
    forall j: nat :: j < |Runs.After(g, es, |es|)| && j < |Runs.After(g', es, |es|)| ==>
      Runs.After(g', es, |es|)[j].stats.readMisses <= Runs.After(g, es, |es|)[j].stats.readMisses
  }

  ghost predicate NeverMoreMisses(a: nat, b: nat, sets: nat, shift: nat, c: nat) {
    forall g: Geometry, g': Geometry, es: seq<Runs.Event> ::
      Sized(g, a, sets, shift) && Sized(g', b, sets, shift) && Alike(g, g') && |Runs.After(g, es, |es|)| <= c ==>
        NoMoreMisses(g, g', es)
  }

  lemma {:induction false} CachesOnlyGrow(g: Geometry, es: seq<Runs.Event>, m: nat, n: nat)
    requires m <= n <= |es| && g.sets > 0 && g.assoc > 0
    ensures |Runs.After(g, es, m)| <= |Runs.After(g, es, n)|
  {
    hide Runs.After;
    if m < n {
      CachesOnlyGrow(g, es, m, n - 1);
      MoreCaches(g, es, n - 1);
    }
  }

  lemma IncludedSoFar(g: Geometry, g': Geometry, es: seq<Runs.Event>, n: nat)
    requires n <= |es| && Alike(g, g') && g.assoc <= g'.assoc && (g.assoc == 1 || |Runs.After(g, es, |es|)| <= 1)
    ensures IncludedAt(g, g', es, n)
  {
    hide Runs.After, Has;
    CachesOnlyGrow(g, es, n, |es|);
    forall j: nat, tag: nat | j < |Runs.After(g, es, n)| && tag != 0 && Has(g, Runs.After(g, es, n), j, tag)
      ensures j < |Runs.After(g', es, n)| && Has(g', Runs.After(g', es, n), j, tag)
    {
      if g.assoc == 1 { OneWayIncluded(g, g', es, n, j, tag); } else { OneCacheIncluded(g, g', es, n, j, tag); }
    }
  }

  /** Main result: a wider simulator holds whatever the narrow one holds, in every run with at most c caches,
      exactly if the narrow one has one way or there is at most one cache. */
  lemma InclusionIsExact(a: nat, b: nat, sets: nat, shift: nat, c: nat)
    requires 0 < a < b && sets > 0
    ensures AlwaysIncluded(a, b, sets, shift, c) <==> a == 1 || c <= 1
  {
    hide Runs.After, Has, IncludedAt, HurtingRun, T;
    if a == 1 || c <= 1 {
      forall g: Geometry, g': Geometry, es: seq<Runs.Event>
        | Sized(g, a, sets, shift) && Sized(g', b, sets, shift) && Alike(g, g') && |Runs.After(g, es, |es|)| <= c
        ensures IncludedAt(g, g', es, |es|)
      {
        IncludedSoFar(g, g', es, |es|);
      }
    } else {
      var g, g' := Geometry(a, sets, 1, 1, shift), Geometry(b, sets, 1, 1, shift);
      var es := HurtingRun(b, sets, shift);
      MoreWaysLoseIt(g, g');
      assert Sized(g, a, sets, shift) && Sized(g', b, sets, shift);
      if IncludedAt(g, g', es, |es|) { IncludedIn(g, g', es, |es|, 0, T(Len(sets), 0)); }
    }
  }

  /** The same condition decides whether more ways can make a cache miss more often. */
  lemma FewerMissesIsExact(a: nat, b: nat, sets: nat, shift: nat, c: nat)
    requires 0 < a < b && sets > 0
    ensures NeverMoreMisses(a, b, sets, shift, c) <==> a == 1 || c <= 1
  {
    hide Runs.After, Has, IncludedAt, MissingRun;
    if a == 1 || c <= 1 {
      forall g: Geometry, g': Geometry, es: seq<Runs.Event>
        | Sized(g, a, sets, shift) && Sized(g', b, sets, shift) && Alike(g, g') && |Runs.After(g, es, |es|)| <= c
        ensures NoMoreMisses(g, g', es)
      {
        forall n: nat | n <= |es| ensures IncludedAt(g, g', es, n) { IncludedSoFar(g, g', es, n); }
        forall j: nat | j < |Runs.After(g, es, |es|)| && j < |Runs.After(g', es, |es|)|
          ensures Runs.After(g', es, |es|)[j].stats.readMisses <= Runs.After(g, es, |es|)[j].stats.readMisses
        {
          MissesLess(g, g', es, |es|, j);
        }
      }
    } else {
      var g, g' := Geometry(a, sets, 1, 1, shift), Geometry(b, sets, 1, 1, shift);
      var es := MissingRun(b, sets, shift);
      MoreWaysMissMore(g, g');
      assert Sized(g, a, sets, shift) && Sized(g', b, sets, shift);
      assert !NoMoreMisses(g, g', es);
    }
  }
}
