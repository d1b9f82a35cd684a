/** What a completed run of a program that only creates and joins threads leaves behind for the
    replayer: per thread its operations and the clocks printed for them, and the creation order. */
module Recording {
  import opened Clocks
  import opened Programs
  import opened Synchronization
  import opened Causality
  import opened Knowledge
  import opened HappensBefore
  import opened Detection
  import opened Recorder
  import opened RaceReports

  /** The replayer intercepts nothing but create and join. */
  predicate CreateJoinOnly(ops: seq<Op>) {
    forall i :: 0 <= i < |ops| ==> ops[i].Create? || ops[i].Join? || ops[i].Finish? || ops[i].Read? || ops[i].Write?
  }

  ghost predicate Complete(ops: seq<Op>) {
    && ValidRun(ops) && CreateJoinOnly(ops)
    && forall t :: 0 <= t < |At(ops, |ops|).status| ==> At(ops, |ops|).status[t] in {Finished, Joined}
  }

  /** times[t][k] is the position in the run of the k-th operation of thread t, logs[t][k] the clock
      printed for it; order lists the threads created with their creators. */
  datatype Record = Record(progs: seq<seq<Op>>, logs: seq<seq<Vec>>, times: seq<seq<nat>>, order: seq<(nat, nat)>)

  function Times(ops: seq<Op>, n: nat, t: nat): seq<nat>
    requires n <= |ops|
  {
    if n == 0 then []
    else Times(ops, n - 1, t) + if Closes(ops[n - 1]) && ops[n - 1].t == t then [n - 1] else []
  }

  lemma {:induction false} TimesAre(ops: seq<Op>, n: nat, t: nat)
    requires n <= |ops|
    ensures forall k :: 0 <= k < |Times(ops, n, t)| ==>
            var i := Times(ops, n, t)[k]; i < n && Closes(ops[i]) && ops[i].t == t
    ensures forall k, k' :: 0 <= k < k' < |Times(ops, n, t)| ==> Times(ops, n, t)[k] < Times(ops, n, t)[k']
    ensures forall i :: 0 <= i < n && Closes(ops[i]) && ops[i].t == t ==> i in Times(ops, n, t)
  {
    if n > 0 {
      TimesAre(ops, n - 1, t);
      hide Closes;
      var before := Times(ops, n - 1, t);
      forall i | 0 <= i < n && Closes(ops[i]) && ops[i].t == t ensures i in Times(ops, n, t) {
        if i < n - 1 { assert i in before; }
      }
    }
  }

  lemma {:induction false} TimesGrow(ops: seq<Op>, m: nat, n: nat, t: nat)
    requires m <= n <= |ops|
    ensures |Times(ops, m, t)| <= |Times(ops, n, t)| && Times(ops, m, t) == Times(ops, n, t)[..|Times(ops, m, t)|]
  {
    if m < n { TimesGrow(ops, m, n - 1, t); }
  }

  /** The logs hold the clocks at those positions. */
  ghost predicate LogsOk(ops: seq<Op>, n: nat, t: nat)
    requires n <= |ops|
  {
    && t < |StateAt(ops, n).logs| && |StateAt(ops, n).logs[t]| == |Times(ops, n, t)|
    && forall k :: 0 <= k < |Times(ops, n, t)| ==>
         var i := Times(ops, n, t)[k];
         i < n && t < |SyncAt(ops, i).clocks| && StateAt(ops, n).logs[t][k] == SyncAt(ops, i).clocks[t].vc
  }

  lemma LogAfter(s: State, op: Op, parent: int, t: nat)
    requires SameTables(s) && Accepts(s.sync, op)
    ensures |Step(s, op, parent).logs| == if op.Create? then |s.logs| + 1 else |s.logs|
    ensures t < |s.logs| ==>
              Step(s, op, parent).logs[t] == s.logs[t] + if Closes(op) && op.t == t then [s.sync.clocks[t].vc] else []
    ensures op.Create? ==> Step(s, op, parent).logs[|s.logs|] == []
    ensures Step(s, op, parent).createOrder == s.createOrder + if op.Create? then [(op.child, op.t)] else []
  {
    hide AddSignature;
  }

  lemma {:induction false} EveryLogsOk(ops: seq<Op>, n: nat, t: nat)
    requires ValidRun(ops) && n <= |ops| && t < |At(ops, n).status|
    ensures LogsOk(ops, n, t)
  {
    hide ValidRun, SyncAt, StateAt, At, Step, SyncStep, Next, MachineOk, Bounded, Enabled, Closes;
    MatchingSizes(ops, n);
    if n == 0 {
      FirstLog(ops);
    } else {
      Tables(ops, n - 1);
      LogAfter(StateAt(ops, n - 1), ops[n - 1], ParentOf(At(ops, n - 1), ops[n - 1].t), t);
      if t < |At(ops, n - 1).status| {
        EveryLogsOk(ops, n - 1, t);
      } else {
        SameThreads(SyncAt(ops, n - 1), At(ops, n - 1), ops[n - 1]);
        NoTimesYet(ops, n, t);
      }
    }
  }

  lemma FirstLog(ops: seq<Op>)
    ensures LogsOk(ops, 0, 0) && |At(ops, 0).status| == 1
  {
  }

  lemma NoTimesYet(ops: seq<Op>, n: nat, t: nat)
    requires ValidRun(ops) && 0 < n <= |ops| && |At(ops, n - 1).status| <= t
    ensures Times(ops, n, t) == []
  {
    hide ValidRun, At, Closes, Times;
    TimesAre(ops, n, t);
    if |Times(ops, n, t)| > 0 {
      var i := Times(ops, n, t)[0];
      AtLeastItsThread(ops, i, n - 1);
    }
  }

  lemma {:induction false} StatusGrows(ops: seq<Op>, m: nat, n: nat)
    requires ValidRun(ops) && m <= n <= |ops|
    ensures |At(ops, m).status| <= |At(ops, n).status|
  {
    hide ValidRun, At;
    if m < n {
      StatusGrows(ops, m, n - 1);
      GrowingRun(ops, n - 1);
    }
  }

  lemma AtLeastItsThread(ops: seq<Op>, i: nat, n: nat)
    requires ValidRun(ops) && i <= n < |ops|
    ensures ops[i].t < |At(ops, n).status|
  {
    hide ValidRun, At, MachineOk;
    AtSucc(ops, i);
    RunKeepsMachineOk(ops, i);
    ActsInside(At(ops, i), ops[i]);
    StatusGrows(ops, i, n);
  }

  lemma ActsInside(e: Machine, op: Op)
    requires Enabled(e, op)
    ensures op.t < |e.status|
  {
  }

  /** Between its own operations a thread keeps its clock. */
  lemma {:induction false} ClockRests(ops: seq<Op>, m: nat, n: nat, t: nat)
    requires ValidRun(ops) && CreateJoinOnly(ops) && m <= n <= |ops| && t < |SyncAt(ops, m).clocks|
    requires forall i :: m <= i < n && Closes(ops[i]) && ops[i].t == t ==> ops[i].Finish?
    ensures t < |SyncAt(ops, n).clocks| && SyncAt(ops, n).clocks[t] == SyncAt(ops, m).clocks[t]
  {
    hide ValidRun, SyncAt, StateAt, At, Step, SyncStep, Next, MachineOk, Bounded, Enabled;
    if m < n {
      ClockRests(ops, m, n - 1, t);
      Tables(ops, n - 1);
      KeepsClock(SyncAt(ops, n - 1), At(ops, n - 1), ops[n - 1], t);
    }
  }

  predicate Ended(e: Machine, t: nat) {
    t < |e.status| && e.status[t] in {Finished, Joined}
  }

  lemma EndedStays(e: Machine, op: Op, t: nat)
    requires Enabled(e, op) && Ended(e, t)
    ensures Ended(Next(e, op), t) && op.t != t
  {
  }

  lemma FinishEnds(e: Machine, op: Op, t: nat)
    requires Enabled(e, op)
    ensures op == Finish(t) ==> Ended(Next(e, op), t)
    ensures Ended(Next(e, op), t) && !Ended(e, t) ==> op == Finish(t)
  {
  }

  /** A thread has ended just when its Finish has been seen. */
  lemma {:induction false} EndedIffFinished(ops: seq<Op>, n: nat, t: nat)
    requires ValidRun(ops) && n <= |ops|
    ensures Ended(At(ops, n), t) <==> exists i :: 0 <= i < n && ops[i] == Finish(t)
  {
    hide ValidRun, At, Enabled, Next, Ended;
    if n == 0 {
      NobodyEnded(ops, t);
    } else {
      EndedIffFinished(ops, n - 1, t);
      AtSucc(ops, n - 1);
      FinishEnds(At(ops, n - 1), ops[n - 1], t);
      if Ended(At(ops, n - 1), t) { EndedStays(At(ops, n - 1), ops[n - 1], t); }
    }
  }

  lemma NobodyEnded(ops: seq<Op>, t: nat)
    ensures !Ended(At(ops, 0), t)
  {
  }

  /** Nothing follows a thread's Finish. */
  lemma FinishIsLast(ops: seq<Op>, i: nat, j: nat, t: nat)
    requires ValidRun(ops) && i < j < |ops| && ops[i] == Finish(t)
    ensures ops[j].t != t
  {
    hide ValidRun, At, Enabled, Next, Ended;
    EndedIffFinished(ops, j, t);
    AtSucc(ops, j);
    EndedStays(At(ops, j), ops[j], t);
  }

  /** The k-th epoch of a thread has own entry k + 1. */
  lemma OwnPlusOne(s: Sync, e: Machine, op: Op)
    requires Matches(s, e) && MachineOk(e) && Enabled(e, op) && |s.clocks| == |e.status| <= MAX_THREAD_COUNT
             && Bounded(s, e)
    requires op.Create? || op.Join?
    ensures var s' := SyncStep(s, op, ParentOf(e, op.t));
            op.t < |s.clocks| <= |s'.clocks| <= MAX_THREAD_COUNT && Own(s', op.t) == Own(s, op.t) + 1
            && (op.Create? ==> op.child == |s.clocks| < |s'.clocks| && Own(s', op.child) == 1)
  {
    hide BarriersOk;
    if op.Create? {
      assert op.child < MAX_THREAD_COUNT && !Gone(e, op.child) && Live(s, OfThread(op.t));
      assert Val(s, OfThread(op.t))[op.child] == 0;
    } else {
      assert Val(s, OfThread(op.child))[op.t] <= Own(s, op.t);
    }
  }

  lemma {:induction false} OwnCounts(ops: seq<Op>, n: nat, t: nat)
    requires ValidRun(ops) && CreateJoinOnly(ops) && n <= |ops| && t < |At(ops, n).status| && !Ended(At(ops, n), t)
    ensures t < |SyncAt(ops, n).clocks| <= MAX_THREAD_COUNT && Own(SyncAt(ops, n), t) == 1 + |Times(ops, n, t)|
  {
    hide ValidRun, SyncAt, StateAt, At, Step, SyncStep, Next, MachineOk, Bounded, Enabled, Matches, Accepts, Own, Ended;
    MatchingSizes(ops, n);
    if n == 0 {
      OwnAtStart(ops);
    } else {
      Tables(ops, n - 1);
      var s, e, op := SyncAt(ops, n - 1), At(ops, n - 1), ops[n - 1];
      SameThreads(s, e, op);
      if op.Create? || op.Join? { OwnPlusOne(s, e, op); }
      if t < |e.status| {
        if Ended(e, t) { EndedStays(e, op, t); }
        OwnCounts(ops, n - 1, t);
        FinishEnds(e, op, t);
        if op.t != t || op.IsAccess() {
          KeepsClock(s, e, op, t);
          OwnIs(s, t);
          OwnIs(SyncAt(ops, n), t);
        }
      } else {
        NoTimesYet(ops, n, t);
      }
    }
  }

  lemma OwnAtStart(ops: seq<Op>)
    ensures |At(ops, 0).status| == 1 && |SyncAt(ops, 0).clocks| == 1 && Own(SyncAt(ops, 0), 0) == 1
    ensures SyncAt(ops, 0).clocks[0].vc == Bump(Zero(), 0)
  {
  }

  // -------------------------------------------------------------------------------------------
  // The record of a completed run, and the relations among its clocks that the replay relies on.

  ghost function RecordOf(ops: seq<Op>): Record
    requires Complete(ops)
  {
    var n := |ops|;
    var threads := |At(ops, n).status|;
    Record(
      seq(threads, t requires 0 <= t < threads => ProgramOf(ops, t)),
      StateAt(ops, n).logs,
      seq(threads, t requires 0 <= t < threads => Times(ops, n, t)),
      StateAt(ops, n).createOrder)
  }

  ghost function ProgramOf(ops: seq<Op>, t: nat): seq<Op> {
    var times := Times(ops, |ops|, t);
    seq(|times|, k requires 0 <= k < |times| => if times[k] < |ops| then ops[times[k]] else Finish(t))
  }

  /** The operation at position k of thread t's program in a record. */
  predicate Has(r: Record, t: nat, k: nat) {
    t < |r.progs| && t < |r.logs| && t < |r.times| && k < |r.progs[t]| == |r.logs[t]| == |r.times[t]|
  }

  function Last(s: seq<Vec>): Vec
    requires |s| > 0
  {
    s[|s| - 1]
  }

  /** The clock that starts the epoch after operation k, given the logs. */
  ghost predicate StepRecorded(r: Record, t: nat, k: nat) {
    Has(r, t, k) && t < MAX_THREAD_COUNT &&
    r.logs[t][k][t] == k + 1 &&
    (k + 1 < |r.progs[t]| ==> r.times[t][k] < r.times[t][k + 1]) &&
    match r.progs[t][k]
    case Create(t', c) =>
      && t' == t && k + 1 < |r.progs[t]| && 0 < c < MAX_THREAD_COUNT && Has(r, c, 0) && c - 1 < |r.order| && c != t
      && r.logs[t][k + 1] == Bump(r.logs[t][k], t)
      && r.logs[c][0] == ChildOf(Clock(t, r.logs[t][k]), c).vc
      && r.times[t][k] < r.times[c][0]
      && r.order[c - 1] == (c, t)
    case Join(t', c) =>
      && t' == t && k + 1 < |r.progs[t]| && c < MAX_THREAD_COUNT && Has(r, c, 0) && c != t
      && r.logs[t][k + 1] == ReceiveIncrement(Clock(t, r.logs[t][k]), Clock(c, Last(r.logs[c]))).vc
      && r.logs[t][k][c] <= |r.progs[c]|
      && r.times[c][|r.times[c]| - 1] < r.times[t][k]
    case Finish(t') => t' == t && k + 1 == |r.progs[t]|
    case _ => false
  }

  ghost predicate CreatedBy(r: Record, c: nat, t: nat, k: nat) {
    Has(r, t, k) && r.progs[t][k] == Create(t, c)
  }

  ghost predicate HasCreator(r: Record, c: nat) {
    exists t: nat, k: nat :: CreatedBy(r, c, t, k)
  }

  /** Threads are numbered in the order of their creation. */
  ghost predicate WellRecorded(r: Record) {
    && 0 < |r.progs| == |r.logs| == |r.times| < MAX_THREAD_COUNT && |r.order| == |r.progs| - 1
    && (forall t :: 0 <= t < |r.progs| ==> |r.progs[t]| == |r.logs[t]| == |r.times[t]| > 0)
    && r.logs[0][0] == Bump(Zero(), 0)
    && (forall t: nat, k: nat :: Has(r, t, k) ==> StepRecorded(r, t, k))
    && (forall c: nat :: 0 < c < |r.progs| ==> HasCreator(r, c))
    && (forall c: nat, t: nat, k: nat, c': nat, t': nat, k': nat ::
        CreatedBy(r, c, t, k) && CreatedBy(r, c', t', k') ==>
          (r.times[t][k] < r.times[t'][k'] <==> c < c'))
    && (forall t: nat, k: nat, t': nat, k': nat ::
        Has(r, t, k) && Has(r, t', k') && r.times[t][k] == r.times[t'][k'] ==> t == t')
  }
}
