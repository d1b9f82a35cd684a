/** The ways of a set as a list of the tags it holds, most recent first: holes left by invalidations
    do not show, and a fill drops the last tag just when the list is as long as the set is wide. */
module Recency {
  import opened CacheWays

  /** The valid tags in order. */
  function Recent(ways: seq<Line>): (r: seq<nat>)
    ensures |r| <= |ways|
  {
    if ways == [] then [] else One(ways[0]) + Recent(ways[1..])
  }

  function One(line: Line): seq<nat> {
    if line.IsValid() then [line.tag] else []
  }

  function Remove(list: seq<nat>, t: nat): (r: seq<nat>)
    ensures |r| <= |list|
    ensures t !in r && forall u :: u in r <==> u in list && u != t
  {
    if list == [] then [] else (if list[0] == t then [] else [list[0]]) + Remove(list[1..], t)
  }

  /** A lookup: a tag in the list comes to its front. */
  function Touch(list: seq<nat>, t: nat): seq<nat> {
    if t in list then [t] + Remove(list, t) else list
  }

  function Cut(list: seq<nat>, width: nat): seq<nat> {
    if |list| > width then list[..width] else list
  }

  /** A lookup, and a fill if it misses. */
  function Enter(list: seq<nat>, t: nat, width: nat): seq<nat> {
    if t in list then Touch(list, t) else Cut([t] + list, width)
  }

  ghost predicate Distinct(list: seq<nat>) {
    forall j, k :: 0 <= j < k < |list| ==> list[j] != list[k]
  }

  // -------------------------------------------------------------------------------------------
  // The storage's operations are operations on the list.

  lemma Assoc<T>(a: seq<T>, b: seq<T>, c: seq<T>)
    ensures a + (b + c) == (a + b) + c
  {
  }

  lemma Unfold(ways: seq<Line>)
    requires ways != []
    ensures Recent(ways) == One(ways[0]) + Recent(ways[1..])
  {
  }

  lemma RecentOfNone(b: seq<Line>)
    ensures Recent([]) == [] && Recent([] + b) == Recent(b)
  {
    assert [] + b == b;
  }

  lemma {:induction false} RecentConcat(a: seq<Line>, b: seq<Line>)
    ensures Recent(a + b) == Recent(a) + Recent(b)
  {
    hide Recent;
    if a == [] {
      RecentOfNone(b);
    } else {
      assert (a + b)[1..] == a[1..] + b;
      RecentConcat(a[1..], b);
      Unfold(a);
      Unfold(a + b);
      Assoc(One(a[0]), Recent(a[1..]), Recent(b));
    }
  }

  lemma RemoveStep(list: seq<nat>, t: nat)
    ensures Remove([], t) == []
    ensures list != [] ==> Remove(list, t) == (if list[0] == t then [] else [list[0]]) + Remove(list[1..], t)
  {
  }

  lemma {:induction false} RemoveConcat(a: seq<nat>, b: seq<nat>, t: nat)
    ensures Remove(a + b, t) == Remove(a, t) + Remove(b, t)
  {
    hide Remove;
    RemoveStep(a, t);
    if a == [] {
      assert a + b == b;
    } else {
      assert (a + b)[1..] == a[1..] + b;
      RemoveStep(a + b, t);
      RemoveConcat(a[1..], b, t);
      Assoc(if a[0] == t then [] else [a[0]], Remove(a[1..], t), Remove(b, t));
    }
  }

  lemma {:induction false} RemoveAbsent(list: seq<nat>, t: nat)
    requires t !in list
    ensures Remove(list, t) == list
  {
    if list != [] { RemoveAbsent(list[1..], t); }
  }

  predicate ValidAt(ways: seq<Line>, k: nat, t: nat) {
    k < |ways| && ways[k].IsValid() && ways[k].tag == t
  }

  lemma {:induction false} RecentHas(ways: seq<Line>, k: nat)
    requires k < |ways| && ways[k].IsValid()
    ensures ways[k].tag in Recent(ways)
  {
    if k > 0 { RecentHas(ways[1..], k - 1); }
  }

  lemma {:induction false} RecentIsHeld(ways: seq<Line>, t: nat)
    requires t in Recent(ways)
    ensures exists k: nat :: ValidAt(ways, k, t)
  {
    if ways[0].IsValid() && ways[0].tag == t {
      assert ValidAt(ways, 0, t);
    } else {
      RecentIsHeld(ways[1..], t);
      var k: nat :| ValidAt(ways[1..], k, t);
      assert ValidAt(ways, k + 1, t);
    }
  }

  lemma {:induction false} AllRecent(ways: seq<Line>)
    ensures AllValid(ways) <==> |Recent(ways)| == |ways|
    ensures AllValid(ways) ==> forall k :: 0 <= k < |ways| ==> Recent(ways)[k] == ways[k].tag
  {
    if ways != [] {
      AllRecent(ways[1..]);
      assert AllValid(ways) <==> ways[0].IsValid() && AllValid(ways[1..]);
    }
  }

  /** The tag of a valid line is in no other part of the set. */
  lemma OnlyOnce(ways: seq<Line>, k: nat)
    requires WaysOk(ways) && k < |ways| && ways[k].tag != 0
    ensures ways[k].tag !in Recent(ways[..k]) && ways[k].tag !in Recent(ways[k + 1..])
  {
    hide Recent;
    var t := ways[k].tag;
    if t in Recent(ways[..k]) {
      RecentIsHeld(ways[..k], t);
    }
    if t in Recent(ways[k + 1..]) {
      RecentIsHeld(ways[k + 1..], t);
    }
  }

  lemma {:induction false} RecentDistinct(ways: seq<Line>)
    requires WaysOk(ways)
    ensures Distinct(Recent(ways)) && forall t :: t in Recent(ways) ==> t != 0
  {
    if ways != [] {
      RecentDistinct(ways[1..]);
      if ways[0].IsValid() {
        assert LineOk(ways[0]);
        OnlyOnce(ways, 0);
      }
    }
  }

  lemma HoldsIsRecent(ways: seq<Line>, t: nat)
    requires WaysOk(ways) && t != 0
    ensures Holds(ways, t) <==> t in Recent(ways)
  {
    if Holds(ways, t) {
      assert LineOk(ways[Find(ways, t)]);
      RecentHas(ways, Find(ways, t));
    }
    if t in Recent(ways) { RecentIsHeld(ways, t); }
  }

  /** The list around position k, which is rest without it. */
  lemma Split(ways: seq<Line>, k: nat)
    requires k < |ways|
    ensures Recent(ways) == Recent(ways[..k]) + (One(ways[k]) + Recent(ways[k + 1..]))
    ensures Recent(Promote(ways, k)) == One(ways[k]) + (Recent(ways[..k]) + Recent(ways[k + 1..]))
  {
    hide Recent, Promote, One;
    Cut3(ways, k);
    var a, m, b := ways[..k], [ways[k]], ways[k + 1..];
    RecentConcat(a, m + b);
    RecentConcat(m, b);
    RecentConcat(m, a + b);
    RecentConcat(a, b);
    RecentOfOne(ways[k]);
  }

  lemma RecentOfOne(line: Line)
    ensures Recent([line]) == One(line)
  {
    assert [line][1..] == [];
  }

  /** The list after position k has been overwritten. */
  lemma SplitUpdated(ways: seq<Line>, k: nat, line: Line)
    requires k < |ways|
    ensures Recent(ways[k := line]) == Recent(ways[..k]) + (One(line) + Recent(ways[k + 1..]))
  {
    hide Recent, One;
    Updated(ways, k, line);
    Split(ways[k := line], k);
  }

  lemma OneLine(ways: seq<Line>, k: nat)
    requires WaysOk(ways) && k < |ways|
    ensures One(ways[k]) == if ways[k].tag != 0 then [ways[k].tag] else []
  {
    assert LineOk(ways[k]);
  }

  /** Taking position k out of the list is removing its tag. */
  lemma WithoutWay(ways: seq<Line>, k: nat)
    requires WaysOk(ways) && k < |ways| && ways[k].tag != 0
    ensures Remove(Recent(ways), ways[k].tag) == Recent(ways[..k]) + Recent(ways[k + 1..])
  {
    hide Recent, WaysOk, Remove;
    OnlyOnce(ways, k);
    Split(ways, k);
    OneLine(ways, k);
    RemoveOnly(Recent(ways[..k]), ways[k].tag, Recent(ways[k + 1..]));
  }

  lemma RemoveOnly(a: seq<nat>, t: nat, b: seq<nat>)
    requires t !in a && t !in b
    ensures Remove(a + ([t] + b), t) == a + b
  {
    hide Remove;
    RemoveConcat(a, [t] + b, t);
    RemoveConcat([t], b, t);
    RemoveAbsent(a, t);
    RemoveAbsent(b, t);
    RemoveItself(t);
  }

  lemma RemoveItself(t: nat)
    ensures Remove([t], t) == []
  {
  }

  lemma LookupIsTouch(ways: seq<Line>, t: nat)
    requires WaysOk(ways) && t != 0
    ensures Recent(Lookup(ways, t)) == Touch(Recent(ways), t)
  {
    hide Recent, WaysOk, One, Remove, Promote;
    HoldsIsRecent(ways, t);
    if Holds(ways, t) {
      var k := Find(ways, t);
      OneLine(ways, k);
      Split(ways, k);
      WithoutWay(ways, k);
    }
  }

  lemma InvalidateIsRemove(ways: seq<Line>, t: nat)
    requires WaysOk(ways) && t != 0
    ensures Recent(Invalidate(ways, t)) == Remove(Recent(ways), t)
  {
    hide Recent, WaysOk, Remove;
    HoldsIsRecent(ways, t);
    if Holds(ways, t) {
      var k := Find(ways, t);
      WithoutWay(ways, k);
      SplitUpdated(ways, k, EMPTY);
      Without(Recent(ways[..k]), Recent(ways[k + 1..]));
    } else {
      RemoveAbsent(Recent(ways), t);
    }
  }

  lemma Without(a: seq<nat>, b: seq<nat>)
    ensures a + ([] + b) == a + b && (b == [] ==> forall x: nat :: a + ([x] + b) == a + b + [x])
  {
  }

  /** Taking out the way that a fill takes. */
  lemma FreeWaySplit(ways: seq<Line>)
    requires WaysOk(ways) && |ways| > 0
    ensures !AllValid(ways) ==> Recent(ways[..FreeWay(ways)]) + Recent(ways[FreeWay(ways) + 1..]) == Recent(ways)
    ensures AllValid(ways) ==>
              Recent(ways[..FreeWay(ways)]) + Recent(ways[FreeWay(ways) + 1..]) + [ways[|ways| - 1].tag] == Recent(ways)
  {
    hide Recent, WaysOk, One, FreeWay, AllValid;
    var k := FreeWay(ways);
    Split(ways, k);
    OneLine(ways, k);
    FreeWayIsEmpty(ways);
    Without(Recent(ways[..k]), Recent(ways[k + 1..]));
    NoLines(ways[k + 1..]);
  }

  lemma NoLines(ways: seq<Line>)
    ensures ways == [] ==> Recent(ways) == []
  {
  }

  lemma FreeWayIsEmpty(ways: seq<Line>)
    requires WaysOk(ways) && |ways| > 0
    ensures if AllValid(ways) then FreeWay(ways) == |ways| - 1 && ways[FreeWay(ways)].tag != 0
            else ways[FreeWay(ways)].tag == 0
  {
    assert LineOk(ways[FreeWay(ways)]);
  }

  lemma CutLonger(t: nat, list: seq<nat>, rest: seq<nat>, width: nat)
    requires |list| <= width
    requires |list| < width ==> rest == list
    requires |list| == width ==> exists x :: rest + [x] == list
    ensures [t] + rest == Cut([t] + list, width)
  {
  }

  lemma FilledIs(ways: seq<Line>, t: nat, state: MSI)
    requires |ways| > 0 && !Holds(ways, t)
    ensures var k := FreeWay(ways); Fill(ways, t, state) == [Line(t, state)] + (ways[..k] + ways[k + 1..])
  {
    hide Holds, FreeWay, Find, Promote;
    PromotedAndSet(ways, FreeWay(ways), Line(t, state));
  }

  lemma PromotedAndSet(ways: seq<Line>, k: nat, line: Line)
    requires k < |ways|
    ensures Promote(ways, k)[0 := line] == [line] + (ways[..k] + ways[k + 1..])
  {
    assert ([ways[k]] + ways[..k])[0 := line] == [line] + ways[..k];
  }

  /** A fill of a tag that is not there puts it first; the last one goes if every way was valid. */
  lemma FillIsEnter(ways: seq<Line>, t: nat, state: MSI)
    requires WaysOk(ways) && |ways| > 0 && t != 0 && state != Invalid && !Holds(ways, t)
    ensures Recent(Fill(ways, t, state)) == Cut([t] + Recent(ways), |ways|)
  {
    hide Recent, WaysOk, FreeWay, AllValid, Cut, Fill, Holds;
    var k := FreeWay(ways);
    FreeWaySplit(ways);
    AllRecent(ways);
    FilledIs(ways, t, state);
    RecentConcat([Line(t, state)], ways[..k] + ways[k + 1..]);
    RecentConcat(ways[..k], ways[k + 1..]);
    RecentOfOne(Line(t, state));
    CutLonger(t, Recent(ways), Recent(ways[..k]) + Recent(ways[k + 1..]), |ways|);
  }

  /** A fill of a tag that is there leaves the order as it is. */
  lemma FillOfHeldKeepsOrder(ways: seq<Line>, t: nat, state: MSI)
    requires WaysOk(ways) && t != 0 && state != Invalid && Holds(ways, t)
    ensures Recent(Fill(ways, t, state)) == Recent(ways)
  {
    hide Recent, WaysOk;
    ChangeStateKeepsOrder(ways, t, state);
  }

  lemma ChangeStateKeepsOrder(ways: seq<Line>, t: nat, state: MSI)
    requires WaysOk(ways) && t != 0 && state != Invalid
    ensures Recent(ChangeState(ways, t, state)) == Recent(ways)
  {
    hide Recent, WaysOk;
    if Holds(ways, t) {
      var k := Find(ways, t);
      OneLine(ways, k);
      Split(ways, k);
      SplitUpdated(ways, k, Line(t, state));
    }
  }
}
