/** Whole runs of one set: what is evicted, and how a wider set compares with a narrower one. */
module LruRuns {
  import opened CacheWays
  import opened Recency

  /** What happens to a set: a snoop's lookup, an access that fills on a miss, an invalidating snoop,
      a change of state. */
  datatype Use = Look(tag: nat) | Access(tag: nat, state: MSI) | Drop(tag: nat) | Mark(tag: nat, state: MSI)
  {
    predicate Proper() {
      tag != 0 && ((Access? || Mark?) ==> state != Invalid)
    }
  }

  function Step(ways: seq<Line>, u: Use): (r: seq<Line>)
    requires |ways| > 0
    ensures |r| == |ways|
  {
    match u
    case Look(t) => Lookup(ways, t)
    case Access(t, st) => if Holds(ways, t) then Lookup(ways, t) else Fill(ways, t, st)
    case Drop(t) => Invalidate(Lookup(ways, t), t)
    case Mark(t, st) => ChangeState(ways, t, st)
  }

  function ListStep(list: seq<nat>, u: Use, width: nat): seq<nat> {
    match u
    case Look(t) => Touch(list, t)
    case Access(t, _) => Enter(list, t, width)
    case Drop(t) => Remove(list, t)
    case Mark(_, _) => list
  }

  predicate AllProper(uses: seq<Use>) {
    forall i :: 0 <= i < |uses| ==> uses[i].Proper()
  }

  /** The set after the first n uses, from empty. */
  function After(uses: seq<Use>, n: nat, width: nat): (ways: seq<Line>)
    requires n <= |uses| && width > 0
    ensures |ways| == width
  {
    if n == 0 then seq(width, k => EMPTY) else Step(After(uses, n - 1, width), uses[n - 1])
  }

  function ListAfter(uses: seq<Use>, n: nat, width: nat): seq<nat>
    requires n <= |uses|
  {
    if n == 0 then [] else ListStep(ListAfter(uses, n - 1, width), uses[n - 1], width)
  }

  lemma StepIsListStep(ways: seq<Line>, u: Use)
    requires WaysOk(ways) && |ways| > 0 && u.Proper()
    ensures WaysOk(Step(ways, u)) && Recent(Step(ways, u)) == ListStep(Recent(ways), u, |ways|)
  {
    hide WaysOk, Recent, Lookup, Fill, Invalidate, ChangeState, Holds, Remove, Cut;
    LookupOk(ways, u.tag);
    LookupIsTouch(ways, u.tag);
    HoldsIsRecent(ways, u.tag);
    match u
    case Look(t) =>
    case Access(t, st) =>
      if !Holds(ways, t) {
        FillOk(ways, t, st);
        FillIsEnter(ways, t, st);
      }
    case Drop(t) =>
      InvalidateOk(Lookup(ways, t), t);
      InvalidateIsRemove(Lookup(ways, t), t);
      RemoveTouched(Recent(ways), t);
    case Mark(t, st) =>
      ChangeStateOk(ways, t, st);
      ChangeStateKeepsOrder(ways, t, st);
  }

  lemma RemoveTouched(list: seq<nat>, t: nat)
    ensures Remove(Touch(list, t), t) == Remove(list, t)
  {
    if t in list {
      RemoveConcat([t], Remove(list, t), t);
      RemoveAbsent(Remove(list, t), t);
      assert Remove([t], t) == [];
    }
  }

  lemma NothingYet(uses: seq<Use>, width: nat)
    requires width > 0
    ensures WaysOk(After(uses, 0, width)) && Recent(After(uses, 0, width)) == ListAfter(uses, 0, width)
  {
    if Recent(After(uses, 0, width)) != [] { RecentIsHeld(After(uses, 0, width), Recent(After(uses, 0, width))[0]); }
  }

  /** The storage is the list, over any run. */
  lemma {:induction false} AfterIsList(uses: seq<Use>, n: nat, width: nat)
    requires n <= |uses| && width > 0 && AllProper(uses)
    ensures WaysOk(After(uses, n, width)) && Recent(After(uses, n, width)) == ListAfter(uses, n, width)
    ensures Distinct(ListAfter(uses, n, width)) && |ListAfter(uses, n, width)| <= width
  {
    hide WaysOk, Recent, Step, ListStep;
    if n == 0 {
      NothingYet(uses, width);
    } else {
      AfterIsList(uses, n - 1, width);
      StepIsListStep(After(uses, n - 1, width), uses[n - 1]);
    }
    RecentDistinct(After(uses, n, width));
  }

  // -------------------------------------------------------------------------------------------
  // Eviction.

  /** The number of the last lookup of or access to t among the first n uses. */
  function LastUse(uses: seq<Use>, n: nat, t: nat): (m: nat)
    requires n <= |uses|
    ensures m <= n
  {
    if n == 0 then 0
    else if uses[n - 1].tag == t && (uses[n - 1].Look? || uses[n - 1].Access?) then n
    else LastUse(uses, n - 1, t)
  }

  ghost predicate Ordered(uses: seq<Use>, n: nat, list: seq<nat>)
    requires n <= |uses|
  {
    forall j, k :: 0 <= j < k < |list| ==> LastUse(uses, n, list[j]) > LastUse(uses, n, list[k])
  }

  lemma {:induction false} RemoveKeepsOrder(uses: seq<Use>, n: nat, list: seq<nat>, t: nat)
    requires n <= |uses| && Ordered(uses, n, list)
    ensures Ordered(uses, n, Remove(list, t))
  {
    if list != [] {
      assert Ordered(uses, n, list[1..]) by {
        forall j, k | 0 <= j < k < |list[1..]| ensures LastUse(uses, n, list[1..][j]) > LastUse(uses, n, list[1..][k]) {
          assert list[1..][j] == list[j + 1] && list[1..][k] == list[k + 1];
        }
      }
      RemoveKeepsOrder(uses, n, list[1..], t);
      var r := Remove(list[1..], t);
      forall k | 0 <= k < |r| ensures LastUse(uses, n, list[0]) > LastUse(uses, n, r[k]) {
        assert r[k] in list[1..];
        var i :| 0 <= i < |list[1..]| && list[1..][i] == r[k];
        assert list[i + 1] == r[k];
      }
    }
  }

  lemma OthersKeepUse(uses: seq<Use>, n: nat, list: seq<nat>)
    requires n < |uses| && Ordered(uses, n, list) && uses[n].tag !in list
    ensures Ordered(uses, n + 1, list)
  {
  }

  lemma MarkKeepsUse(uses: seq<Use>, n: nat, list: seq<nat>)
    requires n < |uses| && Ordered(uses, n, list) && uses[n].Mark?
    ensures Ordered(uses, n + 1, list)
  {
  }

  lemma FrontIsNewest(uses: seq<Use>, n: nat, list: seq<nat>)
    requires n < |uses| && Ordered(uses, n, list) && uses[n].tag !in list && (uses[n].Look? || uses[n].Access?)
    ensures Ordered(uses, n + 1, [uses[n].tag] + list)
  {
  }

  /** The list is in the order of last use. */
  lemma {:induction false} ListIsOrdered(uses: seq<Use>, n: nat, width: nat)
    requires n <= |uses|
    ensures Ordered(uses, n, ListAfter(uses, n, width))
  {
    hide Ordered, LastUse, Remove;
    if n == 0 {
      NothingOrdered(uses, width);
    } else {
      ListIsOrdered(uses, n - 1, width);
      var list, u := ListAfter(uses, n - 1, width), uses[n - 1];
      var rest := Remove(list, u.tag);
      RemoveKeepsOrder(uses, n - 1, list, u.tag);
      OthersKeepUse(uses, n - 1, rest);
      if u.Mark? {
        MarkKeepsUse(uses, n - 1, list);
      } else if u.Look? || u.Access? {
        FrontIsNewest(uses, n - 1, rest);
        if u.tag !in list {
          RemoveAbsent(list, u.tag);
          CutKeepsOrder(uses, n, [u.tag] + list, width);
        }
      }
    }
  }

  lemma NothingOrdered(uses: seq<Use>, width: nat)
    ensures Ordered(uses, 0, ListAfter(uses, 0, width))
  {
  }

  lemma CutKeepsOrder(uses: seq<Use>, n: nat, list: seq<nat>, width: nat)
    requires n <= |uses| && Ordered(uses, n, list)
    ensures Ordered(uses, n, Cut(list, width))
  {
  }

  /** An access evicts a tag just when it misses in a set whose ways are all valid, and then the tag
      whose last lookup or access lies furthest back. */
  lemma EvictsLeastRecentlyUsed(uses: seq<Use>, n: nat, width: nat, t: nat)
    requires n < |uses| && width > 0 && AllProper(uses) && uses[n].Access? && t != 0
    requires Holds(After(uses, n, width), t)
    ensures var ways := After(uses, n, width);
            !Holds(After(uses, n + 1, width), t) <==>
            && AllValid(ways) && !Holds(ways, uses[n].tag)
            && forall v :: v != 0 && v != t && Holds(ways, v) ==> LastUse(uses, n, t) < LastUse(uses, n, v)
  {
    hide WaysOk, Recent, Step, Holds, LastUse, Ordered, After, ListAfter, Remove;
    var next := n + 1;
    AfterIsList(uses, n, width);
    AfterIsList(uses, next, width);
    ListIsOrdered(uses, n, width);
    var list := ListAfter(uses, n, width);
    ListSucc(uses, n, width);
    forall v | v != 0 ensures Holds(After(uses, n, width), v) <==> v in list {
      HoldsIsRecent(After(uses, n, width), v);
    }
    HoldsIsRecent(After(uses, next, width), t);
    AllRecent(After(uses, n, width));
    RecentDistinct(After(uses, n, width));
    EvictedIsLast(uses, n, list, width, t);
  }

  lemma ListSucc(uses: seq<Use>, n: nat, width: nat)
    requires n < |uses|
    ensures ListAfter(uses, n + 1, width) == ListStep(ListAfter(uses, n, width), uses[n], width)
  {
  }

  lemma EvictedIsLast(uses: seq<Use>, n: nat, list: seq<nat>, width: nat, t: nat)
    requires n < |uses| && width > 0 && uses[n].Access? && t in list && Distinct(list) && |list| <= width
             && Ordered(uses, n, list)
    ensures t !in Enter(list, uses[n].tag, width) <==>
            |list| == width && uses[n].tag !in list && forall v :: v in list && v != t ==>
              LastUse(uses, n, t) < LastUse(uses, n, v)
  {
    hide LastUse;
    var k :| 0 <= k < |list| && list[k] == t;
    var last := |list| - 1;
    if uses[n].tag !in list && |list| == width {
      assert Enter(list, uses[n].tag, width) == [uses[n].tag] + list[..last];
      if k == last {
        assert t !in list[..last];
      } else {
        assert list[..last][k] == t;
        assert list[last] in list && LastUse(uses, n, t) > LastUse(uses, n, list[last]);
      }
    }
  }
}
