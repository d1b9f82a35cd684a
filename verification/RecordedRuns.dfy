/** Every completed run of creates and joins leaves a record the replayer can rely on, and the
    order the record enforces is the happens-before order of the run. */
module RecordedRuns {
  import opened Clocks
  import opened Programs
  import opened Synchronization
  import opened Causality
  import opened Knowledge
  import opened HappensBefore
  import opened Recorder
  import opened RaceReports
  import opened Recording
  import opened Replay
  import opened ReplayGuarantees

  ghost function Threads(ops: seq<Op>): nat {
    |At(ops, |ops|).status|
  }

  /** The position of operation k of thread t in the run. */
  function Pos(ops: seq<Op>, t: nat, k: nat): (i: nat)
    requires k < |Times(ops, |ops|, t)|
    ensures i < |ops| && Closes(ops[i]) && ops[i].t == t
  {
    TimesAre(ops, |ops|, t);
    Times(ops, |ops|, t)[k]
  }

  ghost function LogOf(ops: seq<Op>, t: nat): seq<Vec> {
    if t < |StateAt(ops, |ops|).logs| then StateAt(ops, |ops|).logs[t] else []
  }

  ghost predicate IsOp(ops: seq<Op>, t: nat, k: nat) {
    Complete(ops) && t < Threads(ops) && k < |Times(ops, |ops|, t)|
  }

  lemma PosIs(ops: seq<Op>, t: nat, k: nat)
    requires IsOp(ops, t, k)
    ensures var i := Pos(ops, t, k);
            i < |ops| && Closes(ops[i]) && ops[i].t == t && ValidRun(ops) && CreateJoinOnly(ops)
    ensures var op := ops[Pos(ops, t, k)]; op.Create? || op.Join? || op.Finish?
  {
    hide ValidRun, At;
    TimesAre(ops, |ops|, t);
  }

  /** Where a closing operation of the run stands in its thread's program. */
  lemma IndexOf(ops: seq<Op>, i: nat) returns (k: nat)
    requires Complete(ops) && i < |ops| && Closes(ops[i])
    ensures k < |Times(ops, |ops|, ops[i].t)| && Pos(ops, ops[i].t, k) == i
  {
    hide ValidRun, At, Closes;
    TimesAre(ops, |ops|, ops[i].t);
    k :| 0 <= k < |Times(ops, |ops|, ops[i].t)| && Times(ops, |ops|, ops[i].t)[k] == i;
  }

  lemma PosOrder(ops: seq<Op>, t: nat, k: nat, k': nat)
    requires IsOp(ops, t, k) && IsOp(ops, t, k')
    ensures k < k' <==> Pos(ops, t, k) < Pos(ops, t, k')
  {
    hide Complete, At, Closes;
    TimesAre(ops, |ops|, t);
  }

  /** The operations of a thread before position n are the first ones of its program. */
  lemma Counted(ops: seq<Op>, t: nat, n: nat, k: nat)
    requires n <= |ops| && k < |Times(ops, |ops|, t)|
    ensures Pos(ops, t, k) < n <==> k < |Times(ops, n, t)|
  {
    hide Closes;
    TimesAre(ops, |ops|, t);
    TimesAre(ops, n, t);
    TimesGrow(ops, n, |ops|, t);
    var all, before := Times(ops, |ops|, t), Times(ops, n, t);
    if all[k] < n {
      assert all[k] in before;
      var j :| 0 <= j < |before| && before[j] == all[k];
      assert all[j] == all[k];
    }
  }

  lemma CountBefore(ops: seq<Op>, t: nat, n: nat, k: nat)
    requires IsOp(ops, t, k) && n <= Pos(ops, t, k) && (k > 0 ==> Pos(ops, t, k - 1) < n)
    ensures |Times(ops, n, t)| == k
  {
    hide Complete, Times, At;
    Counted(ops, t, n, k);
    if k > 0 { Counted(ops, t, n, k - 1); }
  }

  lemma EndsWith(ops: seq<Op>, t: nat) returns (k: nat)
    requires Complete(ops) && t < Threads(ops)
    ensures k < |Times(ops, |ops|, t)| && Pos(ops, t, k) < |ops| && ops[Pos(ops, t, k)] == Finish(t)
            && k + 1 == |Times(ops, |ops|, t)|
  {
    hide ValidRun, At;
    EndedIffFinished(ops, |ops|, t);
    var i :| 0 <= i < |ops| && ops[i] == Finish(t);
    k := IndexOf(ops, i);
    if k + 1 < |Times(ops, |ops|, t)| {
      PosIs(ops, t, k + 1);
      PosOrder(ops, t, k, k + 1);
      FinishIsLast(ops, i, Pos(ops, t, k + 1), t);
    }
  }

  /** The last operation of a thread is its Finish, and no other is. */
  lemma FinishPosition(ops: seq<Op>, t: nat, k: nat)
    requires IsOp(ops, t, k)
    ensures var i := Pos(ops, t, k); i < |ops| && (ops[i].Finish? <==> k + 1 == |Times(ops, |ops|, t)|)
    ensures ops[Pos(ops, t, k)].Finish? ==> ops[Pos(ops, t, k)] == Finish(t)
  {
    hide ValidRun, At;
    PosIs(ops, t, k);
    var last := EndsWith(ops, t);
    if ops[Pos(ops, t, k)].Finish? && k < last {
      PosOrder(ops, t, k, last);
      FinishIsLast(ops, Pos(ops, t, k), Pos(ops, t, last), t);
    }
  }

  lemma Present(ops: seq<Op>, n: nat, t: nat)
    requires ValidRun(ops) && n <= |ops| && t < |At(ops, n).status|
    ensures t < |SyncAt(ops, n).clocks| <= MAX_THREAD_COUNT && |SyncAt(ops, n).clocks| == |At(ops, n).status|
            && SyncAt(ops, n).clocks[t].threadId == t
  {
    hide ValidRun, At, SyncAt;
    RunMatches(ops, n);
    MatchingSizes(ops, n);
  }

  /** The logged clock is the one the thread has when it reaches the operation. */
  lemma LoggedClock(ops: seq<Op>, t: nat, k: nat)
    requires IsOp(ops, t, k)
    ensures |StateAt(ops, |ops|).logs| == Threads(ops) && |LogOf(ops, t)| == |Times(ops, |ops|, t)|
    ensures var i := Pos(ops, t, k); t < |SyncAt(ops, i).clocks| && LogOf(ops, t)[k] == SyncAt(ops, i).clocks[t].vc
  {
    hide ValidRun, At, SyncAt, StateAt;
    EveryLogsOk(ops, |ops|, t);
    StateHasSync(ops, |ops|);
    RunMatches(ops, |ops|);
  }

  /** Until its operation k a thread keeps the clock it had at any point after operation k - 1. */
  lemma ClockUntil(ops: seq<Op>, t: nat, m: nat, k: nat)
    requires IsOp(ops, t, k) && m <= Pos(ops, t, k) < |ops| && t < |At(ops, m).status|
    requires k > 0 ==> Pos(ops, t, k - 1) < m
    ensures t < |SyncAt(ops, m).clocks| && |LogOf(ops, t)| == |Times(ops, |ops|, t)|
    ensures LogOf(ops, t)[k] == SyncAt(ops, m).clocks[t].vc
  {
    hide LogOf, ValidRun, At, StateAt, SyncAt, Closes;
    LoggedClock(ops, t, k);
    Present(ops, m, t);
    forall i | m <= i < |ops| && Closes(ops[i]) && ops[i].t == t ensures i >= Pos(ops, t, k) {
      var j := IndexOf(ops, i);
      if k > 0 { PosOrder(ops, t, k - 1, j); }
      PosOrder(ops, t, j, k);
    }
    ClockRests(ops, m, Pos(ops, t, k), t);
  }

  /** The k-th logged clock of a thread has own entry k + 1. */
  lemma LoggedOwn(ops: seq<Op>, t: nat, k: nat)
    requires IsOp(ops, t, k)
    ensures k < |LogOf(ops, t)| && t < MAX_THREAD_COUNT && LogOf(ops, t)[k][t] == k + 1
  {
    hide LogOf, ValidRun, At, StateAt, SyncAt, Closes, Ended;
    var i := Pos(ops, t, k);
    PosIs(ops, t, k);
    LoggedClock(ops, t, k);
    if k > 0 { PosOrder(ops, t, k - 1, k); }
    CountBefore(ops, t, i, k);
    NotEndedYet(ops, i);
    OwnCounts(ops, i, t);
    OwnIs(SyncAt(ops, i), t);
  }

  lemma NotEndedYet(ops: seq<Op>, i: nat)
    requires ValidRun(ops) && i < |ops|
    ensures ops[i].t < |At(ops, i).status| && !Ended(At(ops, i), ops[i].t)
  {
    hide ValidRun, At, Next;
    AtSucc(ops, i);
  }

  lemma CreateEffect(s: Sync, e: Machine, op: Op)
    requires Matches(s, e) && MachineOk(e) && Enabled(e, op) && op.Create?
             && |s.clocks| == |e.status| <= MAX_THREAD_COUNT
    ensures var s', c, t := SyncStep(s, op, ParentOf(e, op.t)), op.child, op.t;
            && t < c == |e.status| == |s.clocks| && c < |s'.clocks| && 0 < c < MAX_THREAD_COUNT
            && s'.clocks[t].vc == Bump(s.clocks[t].vc, t) && s'.clocks[c].vc == ChildOf(Clock(t, s.clocks[t].vc), c).vc
            && |Next(e, op).status| == c + 1
  {
  }

  lemma AtCreate(ops: seq<Op>, i: nat)
    requires ValidRun(ops) && i < |ops| && ops[i].Create?
    ensures var t, c := ops[i].t, ops[i].child;
            && t < c == |At(ops, i).status| && |At(ops, i + 1).status| == c + 1 && 0 < c < MAX_THREAD_COUNT
            && c < |SyncAt(ops, i + 1).clocks| && t < |SyncAt(ops, i).clocks|
            && SyncAt(ops, i + 1).clocks[t].vc == Bump(SyncAt(ops, i).clocks[t].vc, t)
            && SyncAt(ops, i + 1).clocks[c].vc == ChildOf(Clock(t, SyncAt(ops, i).clocks[t].vc), c).vc
  {
    hide ValidRun, At, SyncAt, StateAt, Step, SyncStep, Next, Enabled, ChildOf;
    Tables(ops, i);
    CreateEffect(SyncAt(ops, i), At(ops, i), ops[i]);
  }

  /** A thread's operations come after its creation. */
  lemma AfterCreation(ops: seq<Op>, i: nat, k: nat)
    requires Complete(ops) && i < |ops| && ops[i].Create? && IsOp(ops, ops[i].child, k)
    ensures i < Pos(ops, ops[i].child, k) < |ops|
  {
    hide ValidRun, At, SyncAt;
    AtCreate(ops, i);
    PosIs(ops, ops[i].child, k);
    var j := Pos(ops, ops[i].child, k);
    if j <= i { AtLeastItsThread(ops, j, i); }
  }

  lemma NextLogged(ops: seq<Op>, t: nat, k: nat)
    requires IsOp(ops, t, k) && !ops[Pos(ops, t, k)].Finish?
    ensures IsOp(ops, t, k + 1) && Pos(ops, t, k) < Pos(ops, t, k + 1) < |ops|
    ensures k + 1 < |LogOf(ops, t)| && t < |SyncAt(ops, Pos(ops, t, k) + 1).clocks|
    ensures LogOf(ops, t)[k + 1] == SyncAt(ops, Pos(ops, t, k) + 1).clocks[t].vc
  {
    hide LogOf, ValidRun, At, StateAt, SyncAt;
    PosIs(ops, t, k);
    FinishPosition(ops, t, k);
    PosIs(ops, t, k + 1);
    PosOrder(ops, t, k, k + 1);
    var i := Pos(ops, t, k);
    AtLeastItsThread(ops, i, i);
    StatusGrows(ops, i, i + 1);
    ClockUntil(ops, t, i + 1, k + 1);
    LoggedClock(ops, t, k + 1);
  }

  // -------------------------------------------------------------------------------------------
  // The three kinds of recorded operation.

  lemma CreateRecorded(ops: seq<Op>, t: nat, k: nat)
    requires IsOp(ops, t, k) && ops[Pos(ops, t, k)].Create?
    ensures var c := ops[Pos(ops, t, k)].child;
            && 0 < c < MAX_THREAD_COUNT && c != t && IsOp(ops, c, 0) && Pos(ops, t, k) < Pos(ops, c, 0)
            && t < MAX_THREAD_COUNT && k + 1 < |LogOf(ops, t)| == |Times(ops, |ops|, t)|
               && |LogOf(ops, c)| == |Times(ops, |ops|, c)|
            && LogOf(ops, t)[k + 1] == Bump(LogOf(ops, t)[k], t)
            && LogOf(ops, c)[0] == ChildOf(Clock(t, LogOf(ops, t)[k]), c).vc
  {
    hide ValidRun, At, SyncAt, StateAt, LogOf, ChildOf;
    var i := Pos(ops, t, k);
    var c := ops[i].child;
    AtCreate(ops, i);
    StatusGrows(ops, i + 1, |ops|);
    var last := EndsWith(ops, c);
    AfterCreation(ops, i, 0);
    NextLogged(ops, t, k);
    LoggedClock(ops, t, k);
    ClockUntil(ops, c, i + 1, 0);
  }

  lemma JoinEffect(s: Sync, e: Machine, op: Op)
    requires Matches(s, e) && MachineOk(e) && Enabled(e, op) && op.Join? && |s.clocks| == |e.status| <= MAX_THREAD_COUNT
             && Bounded(s, e)
    ensures var s', c, t := SyncStep(s, op, ParentOf(e, op.t)), op.child, op.t;
            && t < |s.clocks| && c < |s.clocks| && t < |s'.clocks| && c != t && e.status[c] == Finished
            && s'.clocks[t].vc == ReceiveIncrement(Clock(t, s.clocks[t].vc), Clock(c, s.clocks[c].vc)).vc
            && s.clocks[t].vc[c] <= Own(s, c)
  {
    var c, t := op.child, op.t;
    assert s.joinVC[t][c] == s.clocks[c] && s.clocks[c].threadId == c && s.clocks[t].threadId == t;
    assert Val(s, OfThread(t))[c] <= Own(s, c);
    hide BarriersOk;
  }

  lemma AtJoin(ops: seq<Op>, i: nat)
    requires ValidRun(ops) && i < |ops| && ops[i].Join?
    ensures var t, c := ops[i].t, ops[i].child;
            && t < |SyncAt(ops, i).clocks| <= MAX_THREAD_COUNT && c < |SyncAt(ops, i).clocks|
               && t < |SyncAt(ops, i + 1).clocks| && c != t
            && Ended(At(ops, i), c)
            && SyncAt(ops, i + 1).clocks[t].vc ==
               ReceiveIncrement(Clock(t, SyncAt(ops, i).clocks[t].vc), Clock(c, SyncAt(ops, i).clocks[c].vc)).vc
            && SyncAt(ops, i).clocks[t].vc[c] <= SyncAt(ops, i).clocks[c].vc[c]
  {
    hide ValidRun, At, SyncAt, StateAt, Step, SyncStep, Next, Enabled, Bounded, MachineOk, ReceiveIncrement;
    Tables(ops, i);
    JoinEffect(SyncAt(ops, i), At(ops, i), ops[i]);
  }

  /** A joined thread's last logged clock is the one the joiner receives. */
  lemma FinalClock(ops: seq<Op>, i: nat, c: nat)
    requires Complete(ops) && i < |ops| && c < |SyncAt(ops, i).clocks| && c < Threads(ops) && Ended(At(ops, i), c)
    ensures 0 < |Times(ops, |ops|, c)| == |LogOf(ops, c)| && Pos(ops, c, |Times(ops, |ops|, c)| - 1) < i
    ensures Last(LogOf(ops, c)) == SyncAt(ops, i).clocks[c].vc
  {
    hide ValidRun, At, SyncAt, StateAt, LogOf, Ended;
    var last := EndsWith(ops, c);
    var f := Pos(ops, c, last);
    EndedIffFinished(ops, i, c);
    var f' :| 0 <= f' < i && ops[f'] == Finish(c);
    if f < f' { FinishIsLast(ops, f, f', c); }
    if f' < f { FinishIsLast(ops, f', f, c); }
    LoggedClock(ops, c, last);
    forall j | f <= j < i && Closes(ops[j]) && ops[j].t == c ensures ops[j].Finish? {
      if f < j { FinishIsLast(ops, f, j, c); }
    }
    ClockRests(ops, f, i, c);
  }

  lemma JoinRecorded(ops: seq<Op>, t: nat, k: nat)
    requires IsOp(ops, t, k) && ops[Pos(ops, t, k)].Join?
    ensures var c := ops[Pos(ops, t, k)].child;
            && c < MAX_THREAD_COUNT && c != t && IsOp(ops, c, 0) && t < MAX_THREAD_COUNT
            && k + 1 < |LogOf(ops, t)| == |Times(ops, |ops|, t)| && |LogOf(ops, c)| == |Times(ops, |ops|, c)|
            && Pos(ops, c, |Times(ops, |ops|, c)| - 1) < Pos(ops, t, k)
            && LogOf(ops, t)[k + 1] == ReceiveIncrement(Clock(t, LogOf(ops, t)[k]), Clock(c, Last(LogOf(ops, c)))).vc
            && LogOf(ops, t)[k][c] <= |Times(ops, |ops|, c)|
  {
    hide ValidRun, At, SyncAt, StateAt, LogOf, ReceiveIncrement, Ended;
    var i := Pos(ops, t, k);
    var c := ops[i].child;
    AtJoin(ops, i);
    MatchingSizes(ops, i);
    StatusGrows(ops, i, |ops|);
    FinalClock(ops, i, c);
    NextLogged(ops, t, k);
    LoggedClock(ops, t, k);
    LoggedOwn(ops, c, |Times(ops, |ops|, c)| - 1);
  }

  // -------------------------------------------------------------------------------------------
  // Creations.

  /** The creation order lists the threads by number, each with its creator. */
  lemma {:induction false} OrderLists(ops: seq<Op>, n: nat)
    requires ValidRun(ops) && n <= |ops|
    ensures |StateAt(ops, n).createOrder| + 1 == |At(ops, n).status|
    ensures forall i :: 0 <= i < n && ops[i].Create? ==>
              (0 < ops[i].child <= |StateAt(ops, n).createOrder|
                && StateAt(ops, n).createOrder[ops[i].child - 1] == (ops[i].child, ops[i].t))
  {
    hide ValidRun, At, StateAt, SyncAt, Step, SyncStep, Next, Enabled, Bounded, Matches, MachineOk, Accepts, Closes;
    if n == 0 {
      EmptyOrder(ops);
    } else {
      OrderLists(ops, n - 1);
      Tables(ops, n - 1);
      LogAfter(StateAt(ops, n - 1), ops[n - 1], ParentOf(At(ops, n - 1), ops[n - 1].t), 0);
      SameThreads(SyncAt(ops, n - 1), At(ops, n - 1), ops[n - 1]);
    }
  }

  lemma EmptyOrder(ops: seq<Op>)
    ensures StateAt(ops, 0).createOrder == [] && |At(ops, 0).status| == 1
  {
  }

  lemma {:induction false} SomebodyCreated(ops: seq<Op>, n: nat, c: nat)
    requires ValidRun(ops) && n <= |ops| && 0 < c < |At(ops, n).status|
    ensures exists i :: 0 <= i < n && ops[i].Create? && ops[i].child == c
  {
    hide ValidRun, At, StateAt, SyncAt, Step, SyncStep, Next, Enabled, Bounded, Matches, MachineOk, Accepts;
    if n == 0 {
      EmptyOrder(ops);
      assert false;
    } else {
      Tables(ops, n - 1);
      SameThreads(SyncAt(ops, n - 1), At(ops, n - 1), ops[n - 1]);
      if c < |At(ops, n - 1).status| { SomebodyCreated(ops, n - 1, c); }
    }
  }

  lemma CreationsRise(ops: seq<Op>, i: nat, j: nat)
    requires ValidRun(ops) && i < j < |ops| && ops[i].Create? && ops[j].Create?
    ensures ops[i].child < ops[j].child
  {
    hide ValidRun, At, SyncAt;
    AtCreate(ops, i);
    AtCreate(ops, j);
    StatusGrows(ops, i + 1, j);
  }

  // -------------------------------------------------------------------------------------------
  // The record as a whole.

  lemma RecordIs(ops: seq<Op>)
    requires Complete(ops)
    ensures var r := RecordOf(ops);
            && |r.progs| == |r.logs| == |r.times| == Threads(ops) < MAX_THREAD_COUNT
               && 0 < Threads(ops) == |r.order| + 1
            && r.order == StateAt(ops, |ops|).createOrder
            && (forall t :: 0 <= t < Threads(ops) ==> r.times[t] == Times(ops, |ops|, t) && r.logs[t] == LogOf(ops, t))
  {
    hide ValidRun, At, StateAt, SyncAt;
    OrderLists(ops, |ops|);
    StateHasSync(ops, |ops|);
    RunMatches(ops, |ops|);
  }

  lemma ThreadRecord(ops: seq<Op>, t: nat)
    requires Complete(ops) && t < Threads(ops)
    ensures var r := RecordOf(ops);
            t < |r.progs| && t < |r.logs| && t < |r.times|
              && 0 < |r.progs[t]| == |r.logs[t]| == |r.times[t]| == |Times(ops, |ops|, t)|
  {
    hide ValidRun, At, StateAt, SyncAt, LogOf;
    RecordIs(ops);
    var k := EndsWith(ops, t);
    LoggedClock(ops, t, k);
  }

  lemma HasIsOp(ops: seq<Op>, t: nat, k: nat)
    requires Complete(ops)
    ensures Has(RecordOf(ops), t, k) <==> IsOp(ops, t, k)
    ensures IsOp(ops, t, k) ==>
              var r := RecordOf(ops);
              && r.progs[t][k] == ops[Pos(ops, t, k)] && r.times[t][k] == Pos(ops, t, k)
              && r.logs[t] == LogOf(ops, t) && r.times[t] == Times(ops, |ops|, t)
                 && |r.progs[t]| == |r.logs[t]| == |r.times[t]|
  {
    RecordIs(ops);
    if t < Threads(ops) { ThreadRecord(ops, t); }
    hide ValidRun, At, StateAt, SyncAt, LogOf, Closes;
  }

  lemma StepIsRecorded(ops: seq<Op>, t: nat, k: nat)
    requires Complete(ops) && Has(RecordOf(ops), t, k)
    ensures StepRecorded(RecordOf(ops), t, k)
  {
    hide ValidRun, At, StateAt, SyncAt, LogOf, RecordOf, ChildOf, ReceiveIncrement, Has, Complete, Times;
    var i := StepFacts(ops, t, k);
    if ops[i].Create? {
      CreateIsRecorded(ops, t, k);
    } else if ops[i].Join? {
      JoinIsRecorded(ops, t, k);
    } else {
      FinishIsRecorded(ops, t, k);
    }
  }

  /** What does not depend on the kind of the operation. */
  lemma StepFacts(ops: seq<Op>, t: nat, k: nat) returns (i: nat)
    requires Complete(ops) && Has(RecordOf(ops), t, k)
    ensures var r := RecordOf(ops);
            && IsOp(ops, t, k) && i == Pos(ops, t, k) && r.progs[t][k] == ops[i] && ops[i].t == t
            && (ops[i].Create? || ops[i].Join? || ops[i].Finish?)
            && t < MAX_THREAD_COUNT && r.logs[t][k][t] == k + 1 && r.times[t][k] == i
            && (k + 1 < |r.progs[t]| ==> Has(r, t, k + 1) && r.times[t][k] < r.times[t][k + 1])
            && r.logs[t] == LogOf(ops, t) && r.times[t] == Times(ops, |ops|, t) && |r.progs[t]| == |LogOf(ops, t)|
  {
    hide ValidRun, At, StateAt, SyncAt, LogOf, RecordOf, Times;
    HasIsOp(ops, t, k);
    i := Pos(ops, t, k);
    PosIs(ops, t, k);
    LoggedOwn(ops, t, k);
    HasIsOp(ops, t, k + 1);
    if IsOp(ops, t, k + 1) { PosOrder(ops, t, k, k + 1); }
  }

  lemma CreateIsRecorded(ops: seq<Op>, t: nat, k: nat)
    requires Complete(ops) && Has(RecordOf(ops), t, k) && RecordOf(ops).progs[t][k].Create?
    ensures StepRecorded(RecordOf(ops), t, k)
  {
    hide ValidRun, At, StateAt, SyncAt, LogOf, RecordOf, ChildOf, ReceiveIncrement, Times, Complete;
    var i := StepFacts(ops, t, k);
    CreateRecorded(ops, t, k);
    HasIsOp(ops, ops[i].child, 0);
    RecordIs(ops);
    CreationListed(ops, i);
  }

  lemma CreationListed(ops: seq<Op>, i: nat)
    requires Complete(ops) && i < |ops| && ops[i].Create?
    ensures 0 < ops[i].child <= |StateAt(ops, |ops|).createOrder|
    ensures StateAt(ops, |ops|).createOrder[ops[i].child - 1] == (ops[i].child, ops[i].t)
  {
    hide ValidRun, At, StateAt;
    OrderLists(ops, |ops|);
  }

  lemma JoinIsRecorded(ops: seq<Op>, t: nat, k: nat)
    requires Complete(ops) && Has(RecordOf(ops), t, k) && RecordOf(ops).progs[t][k].Join?
    ensures StepRecorded(RecordOf(ops), t, k)
  {
    hide ValidRun, At, StateAt, SyncAt, LogOf, RecordOf, ChildOf, ReceiveIncrement, Times, Complete;
    var i := StepFacts(ops, t, k);
    JoinRecorded(ops, t, k);
    var c := ops[i].child;
    HasIsOp(ops, c, 0);
    HasIsOp(ops, c, |Times(ops, |ops|, c)| - 1);
  }

  lemma FinishIsRecorded(ops: seq<Op>, t: nat, k: nat)
    requires Complete(ops) && Has(RecordOf(ops), t, k) && RecordOf(ops).progs[t][k].Finish?
    ensures StepRecorded(RecordOf(ops), t, k)
  {
    hide ValidRun, At, StateAt, SyncAt, LogOf, RecordOf, ChildOf, ReceiveIncrement, Times, Complete;
    var i := StepFacts(ops, t, k);
    FinishPosition(ops, t, k);
  }

  lemma CreationIs(ops: seq<Op>, c: nat, t: nat, k: nat)
    requires Complete(ops) && CreatedBy(RecordOf(ops), c, t, k)
    ensures var i := RecordOf(ops).times[t][k]; i < |ops| && ops[i] == Create(t, c)
  {
    hide ValidRun, At, StateAt, SyncAt, LogOf, RecordOf, Times;
    HasIsOp(ops, t, k);
  }

  lemma CreationsInOrder(ops: seq<Op>, c: nat, t: nat, k: nat, c': nat, t': nat, k': nat)
    requires Complete(ops) && CreatedBy(RecordOf(ops), c, t, k) && CreatedBy(RecordOf(ops), c', t', k')
    ensures RecordOf(ops).times[t][k] < RecordOf(ops).times[t'][k'] <==> c < c'
  {
    hide ValidRun, At, StateAt, SyncAt, LogOf, RecordOf, Times;
    CreationIs(ops, c, t, k);
    CreationIs(ops, c', t', k');
    var i, j := RecordOf(ops).times[t][k], RecordOf(ops).times[t'][k'];
    if i < j { CreationsRise(ops, i, j); }
    if j < i { CreationsRise(ops, j, i); }
  }

  lemma OneThreadAtATime(ops: seq<Op>, t: nat, k: nat, t': nat, k': nat)
    requires Complete(ops) && Has(RecordOf(ops), t, k) && Has(RecordOf(ops), t', k')
             && RecordOf(ops).times[t][k] == RecordOf(ops).times[t'][k']
    ensures t == t'
  {
    hide ValidRun, At, StateAt, SyncAt, LogOf, RecordOf, Times;
    HasIsOp(ops, t, k);
    HasIsOp(ops, t', k');
  }

  lemma EverybodyCreated(ops: seq<Op>, c: nat)
    requires Complete(ops) && 0 < c < Threads(ops)
    ensures HasCreator(RecordOf(ops), c)
  {
    hide ValidRun, At, StateAt, SyncAt, LogOf, RecordOf, Times;
    SomebodyCreated(ops, |ops|, c);
    var i :| 0 <= i < |ops| && ops[i].Create? && ops[i].child == c;
    AtCreate(ops, i);
    var t := ops[i].t;
    var k := IndexOf(ops, i);
    AtLeastItsThread(ops, i, i);
    StatusGrows(ops, i, |ops|);
    HasIsOp(ops, t, k);
    assert CreatedBy(RecordOf(ops), c, t, k);
  }

  lemma FirstClock(ops: seq<Op>)
    requires Complete(ops)
    ensures var r := RecordOf(ops); |r.logs| > 0 && |r.logs[0]| > 0 && r.logs[0][0] == Bump(Zero(), 0)
  {
    hide ValidRun, StateAt, LogOf, Times, Bump, Zero;
    StatusGrows(ops, 0, |ops|);
    OwnAtStart(ops);
    ThreadRecord(ops, 0);
    RecordIs(ops);
    ClockUntil(ops, 0, 0, 0);
  }

  /** Every completed run of a create/join program leaves a well-formed record. */
  lemma RunsAreWellRecorded(ops: seq<Op>)
    requires Complete(ops)
    ensures WellRecorded(RecordOf(ops))
  {
    hide ValidRun, At, StateAt, SyncAt, LogOf, RecordOf, Times, StepRecorded, HasCreator;
    var r := RecordOf(ops);
    RecordIs(ops);
    FirstClock(ops);
    forall t: nat | t < |r.progs| ensures |r.progs[t]| == |r.logs[t]| == |r.times[t]| > 0 { ThreadRecord(ops, t); }
    forall t: nat, k: nat | Has(r, t, k) ensures StepRecorded(r, t, k) { StepIsRecorded(ops, t, k); }
    forall c: nat | 0 < c < |r.progs| ensures HasCreator(r, c) { EverybodyCreated(ops, c); }
    forall c: nat, t: nat, k: nat, c': nat, t': nat, k': nat | CreatedBy(r, c, t, k) && CreatedBy(r, c', t', k')
      ensures r.times[t][k] < r.times[t'][k'] <==> c < c'
    {
      CreationsInOrder(ops, c, t, k, c', t', k');
    }
    forall t: nat, k: nat, t': nat, k': nat | Has(r, t, k) && Has(r, t', k') && r.times[t][k] == r.times[t'][k']
      ensures t == t'
    {
      OneThreadAtATime(ops, t, k, t', k');
    }
  }
}
