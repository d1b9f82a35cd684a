/** Which earlier operations are visible from a thread, a released mutex or a barrier round, and
    how one more operation changes that. No clock is mentioned here. */
module Causality {
  import opened Clocks
  import opened Programs

  /** The places that hold a clock. */
  datatype Carrier = Nobody | OfThread(t: nat) | OfMutex(m: nat) | OfCurrent(b: nat) | OfPrevious(b: nat)

  /** The operations whose past a carrier stands for, among the first n. */
  ghost predicate InFrontier(ops: seq<Op>, n: nat, x: Carrier, k: nat)
    requires n <= |ops|
  {
    k < n &&
    match x
    case Nobody => false
    case OfThread(t) => ops[k].t == t || (ops[k].Create? && ops[k].child == t)
    case OfMutex(m) => ops[k].Unlock? && ops[k].m == m
    case OfCurrent(b) =>
      && ops[k].BarrierEnter? && ops[k].b == b && b in At(ops, n).barriers
      && RoundOf(ops, k) == At(ops, n).barriers[b].round
    case OfPrevious(b) =>
      && ops[k].BarrierEnter? && ops[k].b == b && b in At(ops, n).barriers
      && RoundOf(ops, k) + 1 == At(ops, n).barriers[b].round
  }

  /** Operation i is in the past of carrier x after n operations. */
  ghost predicate Below(ops: seq<Op>, n: nat, x: Carrier, i: nat)
    requires n <= |ops|
  {
    exists k :: 0 <= k < n && InFrontier(ops, n, x, k) && (k == i || HB(ops, i, k))
  }

  /** What an operation receives from, besides its own thread. */
  function Source(op: Op): Carrier {
    match op
    case Join(_, c) => OfThread(c)
    case Lock(_, m) => if m <= MUTEX_POINTER_LIMIT then OfMutex(m) else Nobody
    case BarrierExit(_, b) => OfPrevious(b)
    case _ => Nobody
  }

  /** What the past operations of a run look like from position n. */
  ghost predicate HistoryOk(ops: seq<Op>, n: nat)
    requires n <= |ops|
  {
    forall k :: 0 <= k < n ==>
      && ops[k].t < |At(ops, n).status|
      && (ops[k].Create? ==> ops[k].child < |At(ops, n).status| && ParentOf(At(ops, n), ops[k].child) == ops[k].t)
      && (ops[k].BarrierEnter? ==>
            ops[k].b in At(ops, n).barriers && RoundOf(ops, k) <= At(ops, n).barriers[ops[k].b].round)
  }

  /** The holder of a mutex has acquired it after every release so far. */
  ghost predicate HeldOk(ops: seq<Op>, n: nat)
    requires n <= |ops|
  {
    forall m, k :: m in At(ops, n).holder && 0 <= k < n && ops[k].Unlock? && ops[k].m == m ==>
      exists l :: k < l < n && ops[l] == Lock(At(ops, n).holder[m], m)
  }

  lemma EnterRound(ops: seq<Op>, n: nat)
    requires n < |ops| && ops[n].BarrierEnter? && Enabled(At(ops, n), ops[n])
    ensures RoundOf(ops, n) == At(ops, n).barriers[ops[n].b].round
  {
    hide At;
  }

  lemma NextGrows(e: Machine, op: Op)
    requires MachineOk(e) && Enabled(e, op)
    ensures var e' := Next(e, op);
            && |e.status| <= |e'.status| && op.t < |e'.status|
            && (op.Create? ==> op.child < |e'.status| && ParentOf(e', op.child) == op.t)
            && (forall c: nat :: c < |e.status| ==> ParentOf(e', c) == ParentOf(e, c))
            && (forall b :: b in e.barriers ==> b in e'.barriers && e.barriers[b].round <= e'.barriers[b].round)
  {
  }

  lemma HistoryStep(ops: seq<Op>, n: nat)
    requires ValidRun(ops) && n < |ops| && HistoryOk(ops, n)
    ensures HistoryOk(ops, n + 1)
  {
    AtSucc(ops, n);
    RunKeepsMachineOk(ops, n);
    NextGrows(At(ops, n), ops[n]);
    if ops[n].BarrierEnter? {
      EnterRound(ops, n);
      assert ops[n].b in At(ops, n).barriers;
    }
    hide At, RoundOf, Next, MachineOk, ParentOf;
  }

  lemma HeldStep(ops: seq<Op>, n: nat)
    requires ValidRun(ops) && n < |ops| && HeldOk(ops, n)
    ensures HeldOk(ops, n + 1)
  {
    AtSucc(ops, n);
    hide At;
    var e, e' := At(ops, n), At(ops, n + 1);
    forall m, k | m in e'.holder && 0 <= k < n + 1 && ops[k].Unlock? && ops[k].m == m
      ensures exists l :: k < l < n + 1 && ops[l] == Lock(e'.holder[m], m)
    {
      if ops[n].Lock? && ops[n].m == m {
        assert ops[n] == Lock(e'.holder[m], m);
      } else {
        assert m in e.holder && e.holder[m] == e'.holder[m];
        if k < n {
          var l :| k < l < n && ops[l] == Lock(e.holder[m], m);
        }
      }
    }
  }

  lemma {:induction false} RunHistory(ops: seq<Op>, n: nat)
    requires ValidRun(ops) && n <= |ops|
    ensures HistoryOk(ops, n) && HeldOk(ops, n)
  {
    if n > 0 {
      RunHistory(ops, n - 1);
      hide *;
      HistoryStep(ops, n - 1);
      HeldStep(ops, n - 1);
    } else {
      assert HeldOk(ops, 0);
    }
  }

  /** The direct predecessors of an operation are what its own thread and its source stand for. */
  lemma PredecessorsOf(ops: seq<Op>, n: nat, k: nat)
    requires ValidRun(ops) && n < |ops|
    ensures k < n ==> (Edge(ops, k, n) <==>
            InFrontier(ops, n, OfThread(ops[n].t), k) || InFrontier(ops, n, Source(ops[n]), k))
  {
    RunKeepsMachineOk(ops, n);
    RunHistory(ops, n);
    AtSucc(ops, n);
    hide At;
  }

  /** Does this arrival complete its barrier round? */
  predicate Completes(e: Machine, op: Op) {
    op.BarrierEnter? && op.b in e.barriers && |e.barriers[op.b].waiting + {op.t}| == |e.barriers[op.b].parts|
  }

  /** The two carriers whose pasts x holds after the operation. */
  function Inputs(e: Machine, op: Op, x: Carrier): (Carrier, Carrier) {
    if x == OfThread(op.t) then (x, Source(op))
    else if op.Create? && x == OfThread(op.child) then (OfThread(op.t), Nobody)
    else if op.Unlock? && x == OfMutex(op.m) then (OfThread(op.t), Nobody)
    else if op.BarrierInit? && (x == OfCurrent(op.b) || x == OfPrevious(op.b)) then (Nobody, Nobody)
    else if op.BarrierEnter? && !Completes(e, op) && x == OfCurrent(op.b) then (x, OfThread(op.t))
    else if Completes(e, op) && x == OfPrevious(op.b) then (OfCurrent(op.b), OfThread(op.t))
    else if Completes(e, op) && x == OfCurrent(op.b) then (Nobody, Nobody)
    else (x, Nobody)
  }

  lemma PastOf(ops: seq<Op>, n: nat, i: nat)
    requires ValidRun(ops) && i < n < |ops|
    ensures HB(ops, i, n) <==> Below(ops, n, OfThread(ops[n].t), i) || Below(ops, n, Source(ops[n]), i)
  {
    hide Edge, InFrontier, Source, ValidRun;
    forall k: nat | k < n
      ensures Edge(ops, k, n) <==> InFrontier(ops, n, OfThread(ops[n].t), k) || InFrontier(ops, n, Source(ops[n]), k)
    {
      PredecessorsOf(ops, n, k);
    }
    if HB(ops, i, n) {
      var k :| i <= k < n && Edge(ops, k, n) && (k == i || HB(ops, i, k));
      assert InFrontier(ops, n, OfThread(ops[n].t), k) || InFrontier(ops, n, Source(ops[n]), k);
    }
    if Below(ops, n, OfThread(ops[n].t), i) {
      var k :| 0 <= k < n && InFrontier(ops, n, OfThread(ops[n].t), k) && (k == i || HB(ops, i, k));
      assert Edge(ops, k, n);
      if k != i { HBForward(ops, i, k); }
    }
    if Below(ops, n, Source(ops[n]), i) {
      var k :| 0 <= k < n && InFrontier(ops, n, Source(ops[n]), k) && (k == i || HB(ops, i, k));
      assert Edge(ops, k, n);
      if k != i { HBForward(ops, i, k); }
    }
  }

  /** A frontier that does not take up the new operation keeps its past. */
  lemma FrontierKept(ops: seq<Op>, n: nat, x: Carrier, y: Carrier, i: nat)
    requires i < n < |ops|
    requires !InFrontier(ops, n + 1, x, n)
    requires forall k: nat :: k < n ==> (InFrontier(ops, n + 1, x, k) <==> InFrontier(ops, n, y, k))
    ensures Below(ops, n + 1, x, i) <==> Below(ops, n, y, i)
  {
    hide InFrontier, HB;
    if Below(ops, n + 1, x, i) {
      var next := n + 1;
      var k :| 0 <= k < next && InFrontier(ops, next, x, k) && (k == i || HB(ops, i, k));
      assert InFrontier(ops, n, y, k);
    }
    if Below(ops, n, y, i) {
      var k :| 0 <= k < n && InFrontier(ops, n, y, k) && (k == i || HB(ops, i, k));
      assert InFrontier(ops, n + 1, x, k);
    }
  }

  /** A frontier that takes up the new operation gains its past. */
  lemma FrontierGrown(ops: seq<Op>, n: nat, x: Carrier, y: Carrier, i: nat)
    requires ValidRun(ops) && i < n < |ops|
    requires InFrontier(ops, n + 1, x, n)
    requires forall k: nat :: k < n ==> (InFrontier(ops, n + 1, x, k) <==> InFrontier(ops, n, y, k))
    ensures Below(ops, n + 1, x, i) <==>
            Below(ops, n, y, i) || Below(ops, n, OfThread(ops[n].t), i) || Below(ops, n, Source(ops[n]), i)
  {
    hide InFrontier, HB, ValidRun, Source;
    PastOf(ops, n, i);
    if Below(ops, n + 1, x, i) {
      var next := n + 1;
      var k :| 0 <= k < next && InFrontier(ops, next, x, k) && (k == i || HB(ops, i, k));
      if k < n { assert InFrontier(ops, n, y, k); }
    }
    if Below(ops, n, y, i) {
      var k :| 0 <= k < n && InFrontier(ops, n, y, k) && (k == i || HB(ops, i, k));
      assert InFrontier(ops, n + 1, x, k);
    }
  }

  /** Everything released into a held mutex is visible to its holder. */
  lemma ReleasesBelowHolder(ops: seq<Op>, n: nat, m: nat, i: nat)
    requires ValidRun(ops) && n <= |ops| && m in At(ops, n).holder && m <= MUTEX_POINTER_LIMIT
    requires Below(ops, n, OfMutex(m), i)
    ensures Below(ops, n, OfThread(At(ops, n).holder[m]), i)
  {
    RunHistory(ops, n);
    var k :| 0 <= k < n && InFrontier(ops, n, OfMutex(m), k) && (k == i || HB(ops, i, k));
    var l :| k < l < n && ops[l] == Lock(At(ops, n).holder[m], m);
    assert Edge(ops, k, l);
    EdgeIsHB(ops, k, l);
    if k != i { HBTransitive(ops, i, k, l); }
    assert InFrontier(ops, n, OfThread(At(ops, n).holder[m]), l);
  }

  lemma ThreadGathers(ops: seq<Op>, n: nat, i: nat)
    requires ValidRun(ops) && i < n < |ops|
    ensures Below(ops, n + 1, OfThread(ops[n].t), i) <==>
            Below(ops, n, OfThread(ops[n].t), i) || Below(ops, n, Source(ops[n]), i)
  {
    FrontierGrown(ops, n, OfThread(ops[n].t), OfThread(ops[n].t), i) by { hide At; }
  }

  lemma ChildGathers(ops: seq<Op>, n: nat, i: nat)
    requires ValidRun(ops) && i < n < |ops| && ops[n].Create?
    ensures Below(ops, n + 1, OfThread(ops[n].child), i) <==> Below(ops, n, OfThread(ops[n].t), i)
  {
    RunHistory(ops, n);
    AtSucc(ops, n);
    hide At, ValidRun, RoundOf;
    FrontierGrown(ops, n, OfThread(ops[n].child), Nobody, i);
    hide HB;
    assert forall k: nat :: k < n ==> !InFrontier(ops, n, Nobody, k);
  }

  lemma MutexGathers(ops: seq<Op>, n: nat, i: nat)
    requires ValidRun(ops) && i < n < |ops| && ops[n].Unlock? && ops[n].m <= MUTEX_POINTER_LIMIT
    ensures Below(ops, n + 1, OfMutex(ops[n].m), i) <==> Below(ops, n, OfThread(ops[n].t), i)
  {
    AtSucc(ops, n);
    if Below(ops, n, OfMutex(ops[n].m), i) {
      ReleasesBelowHolder(ops, n, ops[n].m, i);
    }
    hide At, ValidRun, HB;
    FrontierGrown(ops, n, OfMutex(ops[n].m), OfMutex(ops[n].m), i);
  }

  lemma BarrierGathers(ops: seq<Op>, n: nat, i: nat)
    requires ValidRun(ops) && i < n < |ops| && ops[n].BarrierEnter?
    ensures var e, t, b := At(ops, n), ops[n].t, ops[n].b;
            if Completes(e, ops[n]) then
              (Below(ops, n + 1, OfPrevious(b), i) <==> Below(ops, n, OfCurrent(b), i) || Below(ops, n, OfThread(t), i))
              && !Below(ops, n + 1, OfCurrent(b), i)
            else
              Below(ops, n + 1, OfCurrent(b), i) <==> Below(ops, n, OfCurrent(b), i) || Below(ops, n, OfThread(t), i)
  {
    RunHistory(ops, n);
    AtSucc(ops, n);
    EnterRound(ops, n);
    hide At, ValidRun, HB, RoundOf, HeldOk;
    if Completes(At(ops, n), ops[n]) {
      FrontierGrown(ops, n, OfPrevious(ops[n].b), OfCurrent(ops[n].b), i);
      FrontierKept(ops, n, OfCurrent(ops[n].b), Nobody, i);
    } else {
      FrontierGrown(ops, n, OfCurrent(ops[n].b), OfCurrent(ops[n].b), i);
    }
  }

  lemma InitGathers(ops: seq<Op>, n: nat, i: nat)
    requires ValidRun(ops) && i < n < |ops| && ops[n].BarrierInit?
    ensures !Below(ops, n + 1, OfCurrent(ops[n].b), i) && !Below(ops, n + 1, OfPrevious(ops[n].b), i)
  {
    RunHistory(ops, n);
    AtSucc(ops, n);
    hide At, ValidRun, HB, RoundOf, HeldOk;
    FrontierKept(ops, n, OfCurrent(ops[n].b), Nobody, i);
    FrontierKept(ops, n, OfPrevious(ops[n].b), Nobody, i);
  }

  /** The other carriers are not concerned. */
  lemma OthersGather(ops: seq<Op>, n: nat, x: Carrier, i: nat)
    requires ValidRun(ops) && i < n < |ops|
    requires Inputs(At(ops, n), ops[n], x) == (x, Nobody) && x != OfThread(ops[n].t)
    ensures Below(ops, n + 1, x, i) <==> Below(ops, n, x, i)
  {
    AtSucc(ops, n);
    hide At, ValidRun, HB, RoundOf;
    FrontierKept(ops, n, x, x, i);
  }

  lemma NobodyBelow(ops: seq<Op>, n: nat, i: nat)
    requires n <= |ops|
    ensures !Below(ops, n, Nobody, i)
  {
  }

  /** The past of every carrier after one more operation. */
  lemma GathersInputs(ops: seq<Op>, n: nat, x: Carrier, i: nat)
    requires ValidRun(ops) && i < n < |ops|
    requires x.OfMutex? ==> x.m <= MUTEX_POINTER_LIMIT
    ensures var (y, z) := Inputs(At(ops, n), ops[n], x);
            Below(ops, n + 1, x, i) <==> Below(ops, n, y, i) || Below(ops, n, z, i)
  {
    NobodyBelow(ops, n, i);
    AtSucc(ops, n);
    var op := ops[n];
    var e := At(ops, n);
    hide At, ValidRun, Below, Next, Source;
    if x == OfThread(op.t) { ThreadGathers(ops, n, i); }
    else if op.Create? && x == OfThread(op.child) { ChildGathers(ops, n, i); }
    else if op.Unlock? && x == OfMutex(op.m) { MutexGathers(ops, n, i); }
    else if op.BarrierInit? && (x == OfCurrent(op.b) || x == OfPrevious(op.b)) { InitGathers(ops, n, i); }
    else if op.BarrierEnter? && (x == OfCurrent(op.b) || (x == OfPrevious(op.b) && Completes(e, op))) {
      BarrierGathers(ops, n, i);
    }
    else { OthersGather(ops, n, x, i); }
  }
}
