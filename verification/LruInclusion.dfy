/** A narrow and a wide set driven by the same uses: the wide one never misses where the narrow one
    hits. Without bare lookups the narrow list is even a prefix of the wide one; a bare lookup,
    which is what a snoop does, breaks that in exactly one situation. */
module LruInclusion {
  import opened CacheWays
  import opened Recency
  import opened LruRuns

  /** s occurs in l in the same order. */
  predicate Within(s: seq<nat>, l: seq<nat>) {
    s == [] || (l != [] && if s[0] == l[0] then Within(s[1..], l[1..]) else Within(s, l[1..]))
  }

  lemma {:induction false} WithinIsSubset(s: seq<nat>, l: seq<nat>)
    requires Within(s, l)
    ensures |s| <= |l| && forall t :: t in s ==> t in l
  {
    if s != [] {
      assert s == [s[0]] + s[1..] && l == [l[0]] + l[1..];
      if s[0] == l[0] { WithinIsSubset(s[1..], l[1..]); } else { WithinIsSubset(s, l[1..]); }
    }
  }

  lemma {:induction false} WithinShrunk(s: seq<nat>, l: seq<nat>)
    requires Within(s, l) && s != []
    ensures Within(s[1..], l)
  {
    if s[0] == l[0] {
      if |s| > 1 { WithinShrunk(s[1..], l[1..]); }
    } else {
      WithinShrunk(s, l[1..]);
      if |s| > 1 { WithinShrunk(s[1..], l[1..]); }
    }
  }

  lemma WithinGrown(s: seq<nat>, l: seq<nat>, t: nat)
    requires Within(s, l)
    ensures Within(s, [t] + l)
  {
    assert ([t] + l)[1..] == l;
    if s != [] { WithinShrunk(s, l); }
  }

  lemma WithinFront(s: seq<nat>, l: seq<nat>, t: nat)
    requires Within(s, l)
    ensures Within([t] + s, [t] + l)
  {
    assert ([t] + s)[1..] == s && ([t] + l)[1..] == l;
  }

  lemma {:induction false} WithinRemoved(s: seq<nat>, l: seq<nat>, t: nat)
    requires Within(s, l)
    ensures Within(Remove(s, t), Remove(l, t))
  {
    if s != [] {
      if s[0] == l[0] {
        WithinRemoved(s[1..], l[1..], t);
        if s[0] != t {
          WithinFront(Remove(s[1..], t), Remove(l[1..], t), s[0]);
        } else {
          assert Remove(s, t) == Remove(s[1..], t) && Remove(l, t) == Remove(l[1..], t);
        }
      } else {
        WithinRemoved(s, l[1..], t);
        if l[0] != t {
          WithinGrown(Remove(s, t), Remove(l[1..], t), l[0]);
          assert Remove(l, t) == [l[0]] + Remove(l[1..], t);
        } else {
          assert Remove(l, t) == Remove(l[1..], t);
        }
      }
    }
  }

  /** The last of l, if it is in s, is the last of s. */
  lemma {:induction false} LastOfBoth(s: seq<nat>, l: seq<nat>)
    requires Within(s, l) && Distinct(l) && s != [] && l[|l| - 1] in s
    ensures s[|s| - 1] == l[|l| - 1]
  {
    var last := l[|l| - 1];
    if s[0] == l[0] {
      if |l| > 1 {
        assert s == [s[0]] + s[1..];
        LastOfBoth(s[1..], l[1..]);
      } else {
        WithinIsSubset(s, l);
      }
    } else {
      LastOfBoth(s, l[1..]);
    }
  }

  /** Dropping the last of l from l, and from s if it is there. */
  lemma {:induction false} WithinWithoutLast(s: seq<nat>, l: seq<nat>, last: nat)
    requires Within(s, l + [last]) && last !in s
    ensures Within(s, l)
  {
    if s != [] {
      if l == [] {
        WithinIsSubset(s, l + [last]);
        assert false;
      } else {
        assert (l + [last])[1..] == l[1..] + [last];
        if s[0] == l[0] { WithinWithoutLast(s[1..], l[1..], last); } else { WithinWithoutLast(s, l[1..], last); }
      }
    }
  }

  lemma {:induction false} WithinInit(s: seq<nat>, l: seq<nat>, x: nat, last: nat)
    requires Within(s + [x], l + [last])
    ensures Within(s, l)
  {
    if s != [] {
      assert (s + [x])[1..] == s[1..] + [x];
      if l == [] {
        WithinIsSubset(s + [x], l + [last]);
        assert false;
      } else {
        assert (l + [last])[1..] == l[1..] + [last];
        if s[0] == l[0] { WithinInit(s[1..], l[1..], x, last); } else { WithinInit(s, l[1..], x, last); }
      }
    }
  }

  lemma InitAndLast(l: seq<nat>)
    requires l != []
    ensures l[..|l| - 1] + [l[|l| - 1]] == l
  {
  }

  lemma WithinCut(s: seq<nat>, l: seq<nat>)
    requires Within(s, l) && Distinct(l) && l != []
    ensures s != [] ==> Within(s[..|s| - 1], l[..|l| - 1])
    ensures l[|l| - 1] !in s ==> Within(s, l[..|l| - 1])
    ensures l[|l| - 1] in s ==> s[|s| - 1] == l[|l| - 1]
  {
    hide Within, Distinct;
    var last := l[|l| - 1];
    InitAndLast(l);
    if s != [] {
      InitAndLast(s);
      WithinInit(s[..|s| - 1], l[..|l| - 1], s[|s| - 1], last);
    }
    if last in s { LastOfBoth(s, l); } else { WithinWithoutLast(s, l[..|l| - 1], last); }
  }

  // -------------------------------------------------------------------------------------------
  // Inclusion over any run.

  ghost predicate Included(s: seq<nat>, l: seq<nat>, a: nat, b: nat) {
    Within(s, l) && |s| <= a && |l| <= b && |l| - |s| <= b - a
  }

  lemma {:induction false} RemoveSize(list: seq<nat>, t: nat)
    requires Distinct(list)
    ensures |Remove(list, t)| == |list| - if t in list then 1 else 0
  {
    if list != [] {
      assert list == [list[0]] + list[1..];
      RemoveSize(list[1..], t);
      if list[0] == t { RemoveAbsent(list[1..], t); }
    }
  }

  lemma TouchIncluded(s: seq<nat>, l: seq<nat>, t: nat)
    requires Within(s, l) && Distinct(s) && Distinct(l)
    ensures Within(Touch(s, t), Touch(l, t)) && |Touch(s, t)| == |s| && |Touch(l, t)| == |l|
  {
    WithinIsSubset(s, l);
    WithinRemoved(s, l, t);
    RemoveSize(s, t);
    RemoveSize(l, t);
    if t in s {
      WithinFront(Remove(s, t), Remove(l, t), t);
    } else if t in l {
      RemoveAbsent(s, t);
      WithinGrown(s, Remove(l, t), t);
    }
  }

  /** Both lists miss. */
  lemma MissIncluded(s: seq<nat>, l: seq<nat>, t: nat, a: nat, b: nat)
    requires Included(s, l, a, b) && Distinct(l) && t !in l && 0 < a <= b
    ensures Included(Cut([t] + s, a), Cut([t] + l, b), a, b)
  {
    hide Within;
    WithinIsSubset(s, l);
    var cs, cl := Cut([t] + s, a), Cut([t] + l, b);
    if l == [] {
      WithinFront(s, l, t);
    } else {
      WithinCut(s, l);
      assert |l| == b ==> cl == [t] + l[..|l| - 1];
      assert |s| == a ==> cs == [t] + s[..|s| - 1];
      // the narrow list is full when the wide one is
      if |l| == b {
        WithinFront(s[..|s| - 1], l[..|l| - 1], t);
      } else if |s| == a {
        WithinCutShort(s, l);
        WithinFront(s[..|s| - 1], l, t);
      } else {
        WithinFront(s, l, t);
      }
    }
  }

  lemma {:induction false} WithinCutShort(s: seq<nat>, l: seq<nat>)
    requires Within(s, l) && s != []
    ensures Within(s[..|s| - 1], l)
  {
    if s[0] == l[0] {
      if |s| > 1 {
        WithinCutShort(s[1..], l[1..]);
        assert s[..|s| - 1][1..] == s[1..][..|s| - 2];
      }
    } else {
      WithinCutShort(s, l[1..]);
      WithinGrown(s[..|s| - 1], l[1..], l[0]);
      assert l == [l[0]] + l[1..];
    }
  }

  lemma EnterIncluded(s: seq<nat>, l: seq<nat>, t: nat, a: nat, b: nat)
    requires Included(s, l, a, b) && Distinct(s) && Distinct(l) && 0 < a <= b
    ensures Included(Enter(s, t, a), Enter(l, t, b), a, b)
  {
    hide Within, Remove;
    WithinIsSubset(s, l);
    TouchIncluded(s, l, t);
    if t !in l {
      MissIncluded(s, l, t, a, b);
    } else if t !in s {
      LateMiss(s, l, t, a, b);
    }
  }

  /** The narrow list misses what the wide one has. */
  lemma LateMiss(s: seq<nat>, l: seq<nat>, t: nat, a: nat, b: nat)
    requires Included(s, l, a, b) && Distinct(s) && Distinct(l) && 0 < a <= b && t in l && t !in s
    ensures Included(Cut([t] + s, a), Touch(l, t), a, b)
  {
    hide Within, Remove;
    RemoveSize(l, t);
    WithinRemoved(s, l, t);
    RemoveAbsent(s, t);
    var r := Remove(l, t);
    if |s| == a {
      WithinCutShort(s, r);
      WithinFront(s[..|s| - 1], r, t);
      assert Cut([t] + s, a) == [t] + s[..|s| - 1];
    } else {
      WithinFront(s, r, t);
      WithinIsSubset(s, r);
    }
  }

  lemma DropIncluded(s: seq<nat>, l: seq<nat>, t: nat, a: nat, b: nat)
    requires Included(s, l, a, b) && Distinct(s) && Distinct(l)
    ensures Included(Remove(s, t), Remove(l, t), a, b)
  {
    hide Within, Remove;
    WithinIsSubset(s, l);
    WithinRemoved(s, l, t);
    RemoveSize(s, t);
    RemoveSize(l, t);
  }

  lemma LookIncluded(s: seq<nat>, l: seq<nat>, t: nat, a: nat, b: nat)
    requires Included(s, l, a, b) && Distinct(s) && Distinct(l)
    ensures Included(Touch(s, t), Touch(l, t), a, b)
  {
    hide Within, Touch;
    TouchIncluded(s, l, t);
  }

  lemma {:induction false} RunIncluded(uses: seq<Use>, n: nat, a: nat, b: nat)
    requires n <= |uses| && 0 < a <= b && AllProper(uses)
    ensures Included(ListAfter(uses, n, a), ListAfter(uses, n, b), a, b)
  {
    hide Within, Enter, Touch, Remove, Included, Distinct, After, AllProper;
    if n > 0 {
      RunIncluded(uses, n - 1, a, b);
      var s, l := ListAfter(uses, n - 1, a), ListAfter(uses, n - 1, b);
      AfterIsList(uses, n - 1, a);
      AfterIsList(uses, n - 1, b);
      match uses[n - 1]
      case Look(t) => LookIncluded(s, l, t, a, b);
      case Access(t, _) => EnterIncluded(s, l, t, a, b);
      case Drop(t) => DropIncluded(s, l, t, a, b);
      case Mark(_, _) =>
    } else {
      NothingIncluded(a, b);
    }
  }

  lemma NothingIncluded(a: nat, b: nat)
    requires a <= b
    ensures Included([], [], a, b)
  {
  }

  /** For one set driven by the same uses, more ways never turn a hit into a miss. Two simulators fed the same
      events do not drive their sets by the same uses; see MoreWays for them. */
  lemma WiderNeverMisses(uses: seq<Use>, n: nat, a: nat, b: nat, t: nat)
    requires n <= |uses| && 0 < a <= b && AllProper(uses) && t != 0
    ensures Holds(After(uses, n, a), t) ==> Holds(After(uses, n, b), t)
  {
    hide Within, After, ListAfter, WaysOk, Recent;
    RunIncluded(uses, n, a, b);
    WithinIsSubset(ListAfter(uses, n, a), ListAfter(uses, n, b));
    AfterIsList(uses, n, a);
    AfterIsList(uses, n, b);
    HoldsIsRecent(After(uses, n, a), t);
    HoldsIsRecent(After(uses, n, b), t);
  }

  function Misses(uses: seq<Use>, n: nat, width: nat): nat
    requires n <= |uses| && width > 0
  {
    if n == 0 then 0
    else Misses(uses, n - 1, width) +
         if uses[n - 1].Access? && !Holds(After(uses, n - 1, width), uses[n - 1].tag) then 1 else 0
  }

  /** And the wide set misses no more often, on the same uses. */
  lemma {:induction false} WiderMissesLess(uses: seq<Use>, n: nat, a: nat, b: nat)
    requires n <= |uses| && 0 < a <= b && AllProper(uses)
    ensures Misses(uses, n, b) <= Misses(uses, n, a)
  {
    hide After;
    if n > 0 {
      WiderMissesLess(uses, n - 1, a, b);
      WiderNeverMisses(uses, n - 1, a, b, uses[n - 1].tag);
    }
  }

  // -------------------------------------------------------------------------------------------
  // The prefix property.

  predicate Prefix(s: seq<nat>, l: seq<nat>) {
    s <= l
  }

  lemma RemoveFromPrefix(s: seq<nat>, l: seq<nat>, t: nat)
    requires Prefix(s, l)
    ensures Prefix(Remove(s, t), Remove(l, t))
  {
    hide Remove;
    assert l == s + l[|s|..];
    RemoveConcat(s, l[|s|..], t);
  }

  lemma PrefixFront(s: seq<nat>, l: seq<nat>, t: nat)
    requires Prefix(s, l)
    ensures Prefix([t] + s, [t] + l)
  {
  }

  /** An access keeps the prefix. */
  lemma EnterKeepsPrefix(s: seq<nat>, l: seq<nat>, t: nat, a: nat, b: nat)
    requires Prefix(s, l) && Distinct(l) && |s| <= a <= b && |l| <= b && 0 < a
    ensures Prefix(Enter(s, t, a), Enter(l, t, b))
  {
    hide Remove;
    RemoveFromPrefix(s, l, t);
    if t in s {
      PrefixFront(Remove(s, t), Remove(l, t), t);
    } else if t in l {
      RemoveAbsent(s, t);
      PrefixFront(s, Remove(l, t), t);
      assert Prefix(Cut([t] + s, a), [t] + s);
    } else {
      PrefixFront(s, l, t);
      assert Cut([t] + s, a) <= [t] + l;
    }
  }

  /** A bare lookup keeps it just when it does not fetch to the front of the wide list a tag that
      the narrow list, not being empty, lacks. */
  lemma LookKeepsPrefix(s: seq<nat>, l: seq<nat>, t: nat)
    requires Prefix(s, l) && Distinct(l)
    ensures Prefix(Touch(s, t), Touch(l, t)) <==> t in s || t !in l || s == []
  {
    hide Remove;
    RemoveFromPrefix(s, l, t);
    if t in s {
      PrefixFront(Remove(s, t), Remove(l, t), t);
    } else if t in l && s != [] {
      assert Touch(l, t)[0] == t && s[0] != t;
    }
  }

  predicate PrefixAfter(uses: seq<Use>, n: nat, a: nat, b: nat)
    requires n <= |uses| && 0 < a <= b
  {
    Prefix(Recent(After(uses, n, a)), Recent(After(uses, n, b)))
  }

  /** Use n is a bare lookup that only the wide set answers, while the narrow one holds something. */
  predicate Overtakes(uses: seq<Use>, n: nat, a: nat, b: nat)
    requires n < |uses| && 0 < a <= b
  {
    uses[n].Look? && !Holds(After(uses, n, a), uses[n].tag) && Holds(After(uses, n, b), uses[n].tag)
      && Recent(After(uses, n, a)) != []
  }

  /** One use keeps the prefix just when it is not such a lookup. */
  lemma UseKeepsPrefix(uses: seq<Use>, n: nat, a: nat, b: nat)
    requires n < |uses| && 0 < a <= b && AllProper(uses) && PrefixAfter(uses, n, a, b)
    ensures PrefixAfter(uses, n + 1, a, b) <==> !Overtakes(uses, n, a, b)
  {
    hide Enter, Remove, Touch, After, Recent, WaysOk, Distinct, Prefix, ListAfter, Holds;
    var s, l, next := ListAfter(uses, n, a), ListAfter(uses, n, b), n + 1;
    AfterIsList(uses, n, a);
    AfterIsList(uses, n, b);
    AfterIsList(uses, next, a);
    AfterIsList(uses, next, b);
    ListSucc(uses, n, a);
    ListSucc(uses, n, b);
    match uses[n]
    case Look(t) =>
      HoldsIsRecent(After(uses, n, a), t);
      HoldsIsRecent(After(uses, n, b), t);
      LookKeepsPrefix(s, l, t);
    case Access(t, _) => EnterKeepsPrefix(s, l, t, a, b);
    case Drop(t) => RemoveFromPrefix(s, l, t);
    case Mark(_, _) =>
  }

  lemma EmptyPrefix(uses: seq<Use>, a: nat, b: nat)
    requires 0 < a <= b && AllProper(uses)
    ensures PrefixAfter(uses, 0, a, b)
  {
    hide WaysOk, Recent;
    AfterIsList(uses, 0, a);
    AfterIsList(uses, 0, b);
  }

  /** Over any run, snoops included: the narrow list is the front of the wide one all along just when
      no bare lookup finds in the wide set alone what it looks for, the narrow set not being empty. */
  lemma {:induction false} NarrowIsPrefix(uses: seq<Use>, n: nat, a: nat, b: nat)
    requires n <= |uses| && 0 < a <= b && AllProper(uses)
    ensures (forall i: nat :: i <= n ==> PrefixAfter(uses, i, a, b)) <==>
            (forall i: nat :: i < n ==> !Overtakes(uses, i, a, b))
  {
    hide PrefixAfter, Overtakes;
    if n == 0 {
      EmptyPrefix(uses, a, b);
    } else {
      var before := n - 1;
      NarrowIsPrefix(uses, before, a, b);
      if PrefixAfter(uses, before, a, b) { UseKeepsPrefix(uses, before, a, b); }
      assert (forall i: nat :: i <= n ==> PrefixAfter(uses, i, a, b)) <==>
             (forall i: nat :: i <= before ==> PrefixAfter(uses, i, a, b)) && PrefixAfter(uses, n, a, b);
    }
  }

  predicate NoLooks(uses: seq<Use>) {
    forall i :: 0 <= i < |uses| ==> !uses[i].Look?
  }

  /** In particular under accesses and invalidations. */
  lemma WithoutLooksIsPrefix(uses: seq<Use>, n: nat, a: nat, b: nat)
    requires n <= |uses| && 0 < a <= b && AllProper(uses) && NoLooks(uses)
    ensures PrefixAfter(uses, n, a, b)
  {
    hide PrefixAfter;
    NarrowIsPrefix(uses, n, a, b);
  }

  /** Two accesses and one snoop: the one-way set still holds 3, the two-way set has 2 in front. */
  lemma SnoopBreaksPrefix()
    ensures var uses := [Access(2, Shared), Access(3, Shared), Look(2)];
            AllProper(uses) && Recent(After(uses, 3, 1)) == [3] && Recent(After(uses, 3, 2)) == [2, 3]
              && !PrefixAfter(uses, 3, 1, 2)
  {
    hide After, Recent, WaysOk;
    var uses := [Access(2, Shared), Access(3, Shared), Look(2)];
    SnoopedLists();
    AfterIsList(uses, 3, 1);
    AfterIsList(uses, 3, 2);
    assert !Prefix([3], [2, 3]);
  }

  lemma SnoopedLists()
    ensures var uses := [Access(2, Shared), Access(3, Shared), Look(2)];
            ListAfter(uses, 3, 1) == [3] && ListAfter(uses, 3, 2) == [2, 3]
  {
    var uses := [Access(2, Shared), Access(3, Shared), Look(2)];
    assert ListAfter(uses, 1, 1) == [2] && ListAfter(uses, 1, 2) == [2];
    assert ListAfter(uses, 2, 1) == [3] && ListAfter(uses, 2, 2) == [3, 2];
    assert Remove([3, 2], 2) == [3];
  }
}
