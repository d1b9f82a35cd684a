/** What the replayer promises for every schedule of a well-recorded program: it cannot get stuck,
    it finishes, its assertions hold, and no epoch is entered before the epochs recorded ahead of it. */
module ReplayGuarantees {
  import opened Clocks
  import opened Programs
  import opened Recording
  import opened Replay

  lemma {:induction false} RunKeepsOk(r: Record, s: State, actions: seq<Action>)
    requires WellRecorded(r) && Ok(r, s) && AllReady(r, s, actions)
    ensures Ok(r, Run(r, s, actions)) && PointwiseLeq(s.grt, Run(r, s, actions).grt)
    decreases |actions|
  {
    hide WellRecorded, Ok, Ready, Apply;
    if actions != [] {
      StepKeepsOk(r, s, actions[0]);
      RunKeepsOk(r, Apply(r, s, actions[0]), actions[1..]);
    }
  }

  // -------------------------------------------------------------------------------------------
  // Progress: the pending operation that was recorded first can always be taken.

  predicate Standing(r: Record, s: State, t: nat) {
    t < |s.workers| && s.workers[t].phase == Active && s.workers[t].code == t && Has(r, t, s.workers[t].pc)
  }

  function DueAt(r: Record, s: State, t: nat): nat
    requires Standing(r, s, t)
  {
    r.times[t][s.workers[t].pc]
  }

  ghost predicate Earliest(r: Record, s: State, t: nat) {
    Standing(r, s, t) && forall u: nat :: Standing(r, s, u) ==> DueAt(r, s, t) <= DueAt(r, s, u)
  }

  lemma {:induction false} SomeEarliest(r: Record, s: State, t: nat)
    requires Standing(r, s, t)
    ensures exists u: nat :: Earliest(r, s, u)
    decreases DueAt(r, s, t)
  {
    if !Earliest(r, s, t) {
      var u: nat :| Standing(r, s, u) && DueAt(r, s, u) < DueAt(r, s, t);
      SomeEarliest(r, s, u);
    }
  }

  lemma ActiveStands(r: Record, s: State, t: nat)
    requires WellRecorded(r) && Ok(r, s) && t < |s.workers| && s.workers[t].phase == Active
    ensures Standing(r, s, t) && AtOp(r, s.workers[t])
  {
    hide CreationsOk, Known;
    assert WorkerOk(r, s, t);
  }

  lemma Creation(r: Record, c: nat, t: nat, k: nat)
    requires WellRecorded(r) && CreatedBy(r, c, t, k)
    ensures Has(r, c, 0) && r.times[t][k] < r.times[c][0] && c > 0
  {
    assert StepRecorded(r, t, k);
  }

  /** A creator is older than what it creates. */
  lemma OlderCreator(r: Record, c: nat, t: nat, k: nat)
    requires WellRecorded(r) && CreatedBy(r, c, t, k)
    ensures t < c
  {
    hide WellRecorded;
    Creation(r, c, t, k);
    if t > 0 {
      TheCreator(r, t);
      var t0: nat, k0: nat :| CreatedBy(r, t, t0, k0);
      Creation(r, t, t0, k0);
      InOrder(r, t, k, 0);
      CreationOrder(r, t, t0, k0, c, t, k);
    }
  }

  /** Nobody is between two steps of ThreadStart or of a creation. */
  ghost predicate Settled(s: State) {
    forall t :: 0 <= t < |s.workers| ==> s.workers[t].phase == Active || s.workers[t].phase == Done
  }

  /** While a thread is missing, its creator stands at or before the creation. */
  lemma PendingCreator(r: Record, s: State, c: nat, t: nat, k: nat)
    requires WellRecorded(r) && Ok(r, s) && Settled(s) && CreatedBy(r, c, t, k) && c == |s.workers|
    ensures Standing(r, s, t) && DueAt(r, s, t) <= r.times[t][k]
  {
    hide WellRecorded, CountersOk, WorkerOk;
    OlderCreator(r, c, t, k);
    assert !Executed(s, t, k);
    ActiveStands(r, s, t);
    InOrder(r, t, k, s.workers[t].pc);
  }

  /** Every thread created before the earliest pending operation exists. */
  lemma CreatedExists(r: Record, s: State, t: nat, c: nat, t': nat, k': nat)
    requires WellRecorded(r) && Ok(r, s) && Settled(s) && Earliest(r, s, t)
    requires CreatedBy(r, c, t', k') && c >= |s.workers|
    ensures DueAt(r, s, t) <= r.times[t'][k']
    ensures c > |s.workers| ==> DueAt(r, s, t) < r.times[t'][k']
  {
    hide WellRecorded, Ok, Settled;
    Few(r, s);
    var n := |s.workers|;
    Creation(r, c, t', k');
    TheCreator(r, n);
    var t0: nat, k0: nat :| CreatedBy(r, n, t0, k0);
    PendingCreator(r, s, n, t0, k0);
    CreationOrder(r, c, t', k', n, t0, k0);
    CreationOrder(r, n, t0, k0, c, t', k');
  }

  lemma FinishReady(r: Record, s: State, t: nat)
    requires WellRecorded(r) && Ok(r, s) && Standing(r, s, t) && r.progs[t][s.workers[t].pc].Finish?
    ensures Ready(r, s, DoFinish(t))
  {
    Few(r, s);
    Sizes(r);
  }

  lemma NextClock(r: Record, s: State, t: nat)
    requires WellRecorded(r) && Ok(r, s) && Standing(r, s, t) && !r.progs[t][s.workers[t].pc].Finish?
    ensures t < MAX_THREAD_COUNT && AtOp(r, s.workers[t]) && OpOf(r, s.workers[t]) == r.progs[t][s.workers[t].pc]
    ensures StepRecorded(r, t, s.workers[t].pc) && Known(r.logs[t][s.workers[t].pc], t, s.grt)
    ensures Has(r, t, s.workers[t].pc + 1) && s.workers[t].trt == Clock(t, r.logs[t][s.workers[t].pc + 1])
  {
    hide WellRecorded, CountersOk, CreationsOk;
    ActiveStands(r, s, t);
    StandsAt(r, s, t);
  }

  lemma NobodyBusy(r: Record, s: State)
    requires WellRecorded(r) && Ok(r, s) && Settled(s)
    ensures s.createIndex == |s.workers| - 1
  {
    assert !Busy(s);
  }

  lemma CreateReady(r: Record, s: State, t: nat)
    requires WellRecorded(r) && Ok(r, s) && Settled(s) && Earliest(r, s, t) && r.progs[t][s.workers[t].pc].Create?
    ensures Ready(r, s, BeginCreate(t))
  {
    hide WellRecorded, CountersOk, WorkerOk;
    var pc := s.workers[t].pc;
    NextClock(r, s, t);
    NobodyBusy(r, s);
    var c := r.progs[t][pc].child;
    assert CreatedBy(r, c, t, pc);
    assert !Executed(s, t, pc);
    CreatedExists(r, s, t, c, t, pc);
  }

  /** A thread that is joined at the earliest pending operation has ended. */
  lemma JoinedIsDone(r: Record, s: State, t: nat, c: nat)
    requires WellRecorded(r) && Ok(r, s) && Settled(s) && Earliest(r, s, t)
    requires Has(r, c, 0) && r.times[c][|r.times[c]| - 1] < DueAt(r, s, t)
    ensures c < |s.workers| && s.workers[c].phase == Done
  {
    hide WellRecorded, Ok;
    Few(r, s);
    var last := |r.times[c]| - 1;
    InOrder(r, c, last, 0);
    if c >= |s.workers| {
      TheCreator(r, c);
      var t0: nat, k0: nat :| CreatedBy(r, c, t0, k0);
      Creation(r, c, t0, k0);
      CreatedExists(r, s, t, c, t0, k0);
    } else if s.workers[c].phase == Active {
      ActiveStands(r, s, c);
      InOrder(r, c, last, s.workers[c].pc);
    }
  }

  lemma DoneKnows(r: Record, s: State, c: nat)
    requires WellRecorded(r) && Ok(r, s) && c < |s.workers| && s.workers[c].phase == Done
    ensures Has(r, c, 0) && c < MAX_THREAD_COUNT && Known(Last(r.logs[c]), c, s.grt)
    ensures Last(r.logs[c])[c] == |r.logs[c]| && s.grt[c] == |r.logs[c]| + 1
  {
    hide WellRecorded, CountersOk, CreationsOk;
    Few(r, s);
    Sizes(r);
    assert WorkerOk(r, s, c);
    OwnEntryIs(r, c, |r.logs[c]| - 1);
  }

  lemma JoinReady(r: Record, s: State, t: nat)
    requires WellRecorded(r) && Ok(r, s) && Settled(s) && Earliest(r, s, t) && r.progs[t][s.workers[t].pc].Join?
    ensures Ready(r, s, DoJoin(t))
  {
    hide WellRecorded, Ok, Settled;
    var pc := s.workers[t].pc;
    NextClock(r, s, t);
    var c := r.progs[t][pc].child;
    JoinedIsDone(r, s, t, c);
    DoneKnows(r, s, c);
  }

  lemma StartReady(r: Record, s: State, t: nat)
    requires WellRecorded(r) && Ok(r, s) && t < |s.workers| && s.workers[t].phase == Created
    ensures Ready(r, s, Start(t))
  {
    Few(r, s);
    hide CreationsOk;
    assert WorkerOk(r, s, t);
  }

  lemma OpKinds(r: Record, s: State, t: nat)
    requires WellRecorded(r) && Standing(r, s, t)
    ensures var op := r.progs[t][s.workers[t].pc]; op.Create? || op.Join? || op.Finish?
  {
    assert StepRecorded(r, t, s.workers[t].pc);
  }

  lemma EveryoneIsThere(r: Record, s: State)
    requires WellRecorded(r) && Ok(r, s) && forall t :: 0 <= t < |s.workers| ==> s.workers[t].phase == Done
    ensures |s.workers| == |r.progs|
  {
    hide WellRecorded, Ok;
    Few(r, s);
    if |s.workers| < |r.progs| {
      TheCreator(r, |s.workers|);
      var t0: nat, k0: nat :| CreatedBy(r, |s.workers|, t0, k0);
      PendingCreator(r, s, |s.workers|, t0, k0);
      assert false;
    }
  }

  /** Replay never deadlocks: a replay state that is not finished has a step to take. */
  lemma NeverStuck(r: Record, s: State)
    requires WellRecorded(r) && Ok(r, s) && !AllDone(r, s)
    ensures exists a: Action :: Ready(r, s, a)
  {
    hide WellRecorded, Ok, Ready, Earliest;
    if t: nat :| t < |s.workers| && s.workers[t].phase == Creating {
      EndReady(r, s, t);
    } else if t: nat :| t < |s.workers| && s.workers[t].phase == Created {
      StartReady(r, s, t);
    } else if t: nat :| t < |s.workers| && s.workers[t].phase == Active {
      ActiveStands(r, s, t);
      SomeEarliest(r, s, t);
      var u: nat :| Earliest(r, s, u);
      EarliestReady(r, s, u);
    } else {
      EveryoneIsThere(r, s);
      assert false;
    }
  }

  lemma EndReady(r: Record, s: State, t: nat)
    requires WellRecorded(r) && Ok(r, s) && t < |s.workers| && s.workers[t].phase == Creating
    ensures Ready(r, s, EndCreate(t))
  {
    Few(r, s);
  }

  lemma EarliestReady(r: Record, s: State, t: nat)
    requires WellRecorded(r) && Ok(r, s) && Settled(s) && Earliest(r, s, t)
    ensures exists a: Action :: Ready(r, s, a)
  {
    hide WellRecorded, Ok, Ready, Settled;
    OpKinds(r, s, t);
    match r.progs[t][s.workers[t].pc]
    case Create(_, _) => CreateReady(r, s, t);
    case Join(_, _) => JoinReady(r, s, t);
    case Finish(_) => FinishReady(r, s, t);
  }

  // -------------------------------------------------------------------------------------------
  // Termination: every step works off what is left of the recorded operations.

  /** What is left of thread t's program; a creation counts twice, for its two hooks. */
  function Left(r: Record, s: State, t: nat): nat {
    if t >= |r.progs| then 0
    else if t >= |s.workers| || s.workers[t].phase == Created then 2 * |r.progs[t]|
    else if s.workers[t].phase == Done || s.workers[t].pc >= |r.progs[t]| then 0
    else 2 * (|r.progs[t]| - s.workers[t].pc) - if s.workers[t].phase == Active then 1 else 2
  }

  function Work(r: Record, s: State, n: nat): nat {
    if n == 0 then 0 else Work(r, s, n - 1) + Left(r, s, n - 1)
  }

  lemma {:induction false} LessWork(r: Record, s: State, s': State, n: nat, t: nat)
    requires forall u: nat :: u != t ==> Left(r, s', u) == Left(r, s, u)
    requires Left(r, s', t) < Left(r, s, t)
    ensures t < n ==> Work(r, s', n) < Work(r, s, n)
    ensures t >= n ==> Work(r, s', n) == Work(r, s, n)
  {
    if n > 0 { LessWork(r, s, s', n - 1, t); }
  }

  lemma OthersUntouched(r: Record, s: State, a: Action, u: nat)
    requires Ready(r, s, a) && u != a.t
    ensures Left(r, Apply(r, s, a), u) == Left(r, s, u)
  {
  }

  lemma OwnWorkShrinks(r: Record, s: State, a: Action)
    requires WellRecorded(r) && Ok(r, s) && Ready(r, s, a)
    ensures a.t < |r.progs| && Left(r, Apply(r, s, a), a.t) < Left(r, s, a.t)
  {
    hide CreationsOk, Known, Loaded, CreatedOk, Covered, StepRecorded;
    Few(r, s);
    assert WorkerOk(r, s, a.t);
    if a.EndCreate? { Sizes(r); }
  }

  lemma StepWorksOff(r: Record, s: State, a: Action)
    requires WellRecorded(r) && Ok(r, s) && Ready(r, s, a)
    ensures Work(r, Apply(r, s, a), |r.progs|) < Work(r, s, |r.progs|)
  {
    hide WellRecorded, Ok, Ready, Apply, Left, Work;
    OwnWorkShrinks(r, s, a);
    forall u: nat | u != a.t ensures Left(r, Apply(r, s, a), u) == Left(r, s, u) {
      OthersUntouched(r, s, a, u);
    }
    LessWork(r, s, Apply(r, s, a), |r.progs|, a.t);
  }

  /** No schedule is longer than the work it started with. */
  lemma {:induction false} SchedulesAreShort(r: Record, s: State, actions: seq<Action>)
    requires WellRecorded(r) && Ok(r, s) && AllReady(r, s, actions)
    ensures |actions| + Work(r, Run(r, s, actions), |r.progs|) <= Work(r, s, |r.progs|)
    decreases |actions|
  {
    hide WellRecorded, Ok, Ready, Apply, Work;
    if actions != [] {
      StepKeepsOk(r, s, actions[0]);
      StepWorksOff(r, s, actions[0]);
      SchedulesAreShort(r, Apply(r, s, actions[0]), actions[1..]);
    }
  }

  /** However the steps are chosen, a replay that cannot go on has replayed everything. */
  lemma EverySchedule(r: Record, actions: seq<Action>)
    requires WellRecorded(r) && AllReady(r, Begin(), actions)
    ensures |actions| <= Work(r, Begin(), |r.progs|)
    ensures AllDone(r, Run(r, Begin(), actions)) <==> forall a: Action :: !Ready(r, Run(r, Begin(), actions), a)
  {
    hide WellRecorded, Ok, Ready, Apply, Work, AllDone;
    BeginOk(r);
    SchedulesAreShort(r, Begin(), actions);
    RunKeepsOk(r, Begin(), actions);
    var s := Run(r, Begin(), actions);
    if AllDone(r, s) {
      forall a: Action ensures !Ready(r, s, a) { DoneIsOver(r, s, a); }
    } else {
      NeverStuck(r, s);
    }
  }

  lemma DoneIsOver(r: Record, s: State, a: Action)
    requires AllDone(r, s)
    ensures !Ready(r, s, a)
  {
  }

  // -------------------------------------------------------------------------------------------
  // An enabled step stays enabled until it is taken.

  lemma StaysCovered(c: Clock, grt: Vec, grt': Vec)
    requires Covered(c, grt) && PointwiseLeq(grt, grt')
    ensures Covered(c, grt')
  {
  }

  /** Two different ready steps are steps of different threads, and at most one of them creates. */
  lemma ReadyStepsDiffer(r: Record, s: State, a: Action, b: Action)
    requires Ready(r, s, a) && Ready(r, s, b) && a != b
    ensures a.t != b.t && (a.BeginCreate? ==> !b.BeginCreate? && !b.EndCreate?)
  {
  }

  lemma BystanderStep(r: Record, s: State, b: Action, u: nat)
    requires Ready(r, s, b) && u < |s.workers| && u != b.t
    ensures var s' := Apply(r, s, b);
            && |s.workers| <= |s'.workers| && s'.workers[u].(childVC := map[]) == s.workers[u].(childVC := map[])
            && (!b.BeginCreate? ==> |s'.workers| == |s.workers| && s'.workers[b.t].phase != Creating)
            && (!b.EndCreate? ==> s'.createIndex == s.createIndex)
  {
  }

  lemma Persistent(r: Record, s: State, a: Action, b: Action)
    requires WellRecorded(r) && Ok(r, s) && Ready(r, s, a) && Ready(r, s, b) && a != b
    ensures Ready(r, Apply(r, s, b), a)
  {
    hide WellRecorded, Ok, Apply, Covered;
    ReadyStepsDiffer(r, s, a, b);
    StepKeepsOk(r, s, b);
    var s' := Apply(r, s, b);
    BystanderStep(r, s, b, a.t);
    var w := s.workers[a.t];
    match a
    case Start(t) => StaysCovered(Clock(t, r.logs[t][0]), s.grt, s'.grt);
    case BeginCreate(t) =>
      StaysCovered(w.trt, s.grt, s'.grt);
      forall u | 0 <= u < |s'.workers| ensures s'.workers[u].phase != Creating {
        if u != b.t { BystanderStep(r, s, b, u); }
      }
    case DoJoin(t) => StaysCovered(w.trt, s.grt, s'.grt);
    case _ =>
  }

  // -------------------------------------------------------------------------------------------
  // The replayer's assertions hold.

  /** The check of ThreadStart never fails. */
  lemma StartCheckHolds(r: Record, s: State, t: nat)
    requires WellRecorded(r) && Ok(r, s) && Ready(r, s, Start(t))
    ensures StartAgrees(r, s, t) && Started(s.workers[t], t, r.logs[t]).currentVC == Clock(t, r.logs[t][0])
  {
    hide CountersOk, CreationsOk, StepRecorded, WellRecorded;
    Few(r, s);
    assert WorkerOk(r, s, t);
  }

  /** The check is exact: a logged first clock that differs from the one computed from the creator's fails it. */
  lemma StartCheckIsExact(r: Record, s: State, t: nat)
    requires Ready(r, s, Start(t))
    requires var p := s.workers[t].parent;
             && 0 <= p < |s.workers| && t in s.workers[p].childVC
             && 0 <= s.workers[p].childVC[t].threadId < MAX_THREAD_COUNT
    ensures StartAgrees(r, s, t) <==>
            forall u :: 0 <= u < MAX_THREAD_COUNT ==>
              var c := s.workers[s.workers[t].parent].childVC[t];
              r.logs[t][0][u] == c.vc[u] + (if u == t then 1 else 0) + (if u == c.threadId then 1 else 0)
  {
    hide Covered;
  }

  /** A start uses up the clock its creator left for it, and no other. */
  lemma StartUsesClock(r: Record, s: State, t: nat, c: nat)
    requires Ready(r, s, Start(t)) && 0 <= s.workers[t].parent < |s.workers|
    ensures var p := s.workers[t].parent;
            var left, left' := s.workers[p].childVC, Apply(r, s, Start(t)).workers[p].childVC;
            t !in left' && (c != t ==> (c in left' <==> c in left) && (c in left ==> left'[c] == left[c]))
  {
    hide Covered;
  }

  /** A join that may be taken never waits: the joined thread has ended. */
  lemma JoinFindsEnded(r: Record, s: State, t: nat)
    requires WellRecorded(r) && Ok(r, s) && Ready(r, s, DoJoin(t))
    ensures var c := OpOf(r, s.workers[t]).child; c < |s.workers| && s.workers[c].phase == Done
  {
    hide WellRecorded, Ok, ActiveOk, DoneOk, CreatedOk, Known;
    OwnEntriesAre(r, s, t);
    var c, pc := OpOf(r, s.workers[t]).child, s.workers[t].pc;
    JoinsKnowTheEnd(r, t, pc);
    WaitsForNext(r, s, t);
    NotYetEnded(r, s, c);
  }

  /** The clock after a join is beyond the joined thread's last epoch. */
  lemma JoinsKnowTheEnd(r: Record, t: nat, k: nat)
    requires WellRecorded(r) && Has(r, t, k) && r.progs[t][k].Join?
    ensures Has(r, t, k + 1) && var c := r.progs[t][k].child;
            Has(r, c, 0) && c != t && c < MAX_THREAD_COUNT && r.logs[t][k + 1][c] > |r.logs[c]|
  {
    assert StepRecorded(r, t, k);
    var c := r.progs[t][k].child;
    Sizes(r);
    OwnEntryIs(r, c, |r.logs[c]| - 1);
  }

  lemma WaitsForNext(r: Record, s: State, t: nat)
    requires WellRecorded(r) && Ok(r, s) && t < |s.workers| <= |r.progs| && ActiveOk(r, s, t) && AtOp(r, s.workers[t])
    requires Has(r, t, s.workers[t].pc + 1)
    ensures s.workers[t].trt == Clock(t, r.logs[t][s.workers[t].pc + 1])
  {
    hide WellRecorded, Ok, Known;
  }

  /** What the global clock says of a thread that has not ended. */
  lemma NotYetEnded(r: Record, s: State, c: nat)
    requires WellRecorded(r) && Ok(r, s) && c < |r.progs|
    ensures c < MAX_THREAD_COUNT && ((c < |s.workers| && s.workers[c].phase == Done) || s.grt[c] <= |r.logs[c]|)
  {
    hide Known, CreationsOk;
    Sizes(r);
    if c < |s.workers| { assert WorkerOk(r, s, c); }
  }

  /** A thread that waits to create finds the creation order unfinished. */
  lemma OrderNotExhausted(r: Record, s: State, t: nat)
    requires WellRecorded(r) && Ok(r, s) && t < |s.workers| && AtOp(r, s.workers[t]) && OpOf(r, s.workers[t]).Create?
    requires forall u :: 0 <= u < |s.workers| ==> s.workers[u].phase != Creating
    ensures s.createIndex < |r.order|
  {
    hide WellRecorded, WorkerOk, Known, CountersOk;
    StandsAt(r, s, t);
    assert CreatedBy(r, OpOf(r, s.workers[t]).child, t, s.workers[t].pc);
    assert !Executed(s, t, s.workers[t].pc);
    Quiet(r, s);
  }

  lemma Quiet(r: Record, s: State)
    requires WellRecorded(r) && Ok(r, s) && forall u :: 0 <= u < |s.workers| ==> s.workers[u].phase != Creating
    ensures s.createIndex + 1 == |s.workers| && |r.order| + 1 == |r.progs|
  {
    assert !Busy(s);
  }

  // -------------------------------------------------------------------------------------------
  // Order.

  /** Thread t is in or past epoch k. */
  predicate Entered(s: State, t: nat, k: nat) {
    t < |s.workers| && match s.workers[t].phase
      case Created => false
      case Done => k <= s.workers[t].pc
      case _ => k <= Position(s.workers[t])
  }

  /** Thread t is past epoch k. */
  predicate Over(s: State, t: nat, k: nat) {
    t < |s.workers| && match s.workers[t].phase
      case Created => false
      case Done => k <= s.workers[t].pc
      case _ => k < Position(s.workers[t])
  }

  lemma NextClockIsLarger(r: Record, t: nat, k: nat)
    requires WellRecorded(r) && Has(r, t, k) && Has(r, t, k + 1)
    ensures PointwiseLeq(r.logs[t][k], r.logs[t][k + 1])
  {
    assert StepRecorded(r, t, k);
  }

  lemma {:induction false} LoggedClocksGrow(r: Record, t: nat, k: nat, k': nat)
    requires WellRecorded(r) && Has(r, t, k) && Has(r, t, k') && k <= k'
    ensures PointwiseLeq(r.logs[t][k], r.logs[t][k'])
  {
    hide WellRecorded;
    if k < k' {
      LoggedClocksGrow(r, t, k, k' - 1);
      NextClockIsLarger(r, t, k' - 1);
    }
  }

  /** What a thread in epoch k' knows has been published. */
  lemma EnteredIsKnown(r: Record, s: State, t: nat, k: nat)
    requires WellRecorded(r) && Ok(r, s) && Has(r, t, k) && Entered(s, t, k)
    ensures Known(r.logs[t][k], t, s.grt)
  {
    hide WellRecorded, CountersOk, CreationsOk;
    Few(r, s);
    assert WorkerOk(r, s, t);
    var p := if s.workers[t].phase == Done then s.workers[t].pc else Position(s.workers[t]);
    Sizes(r);
    LoggedClocksGrow(r, t, k, p);
  }

  lemma PublishedIsOver(r: Record, s: State, t: nat, k: nat)
    requires WellRecorded(r) && Ok(r, s) && Has(r, t, k) && t < MAX_THREAD_COUNT && s.grt[t] > k + 1
    ensures Over(s, t, k)
  {
    hide CreationsOk;
    Few(r, s);
    if t < |s.workers| { assert WorkerOk(r, s, t); }
  }

  /** Under every schedule, an epoch whose clock comes before another's is over when that one is entered. */
  lemma RecordedOrderIsKept(r: Record, s: State, t: nat, k: nat, t': nat, k': nat)
    requires WellRecorded(r) && Ok(r, s) && Has(r, t, k) && Has(r, t', k') && t < MAX_THREAD_COUNT
             && t' < MAX_THREAD_COUNT
    requires t != t' && Less(Clock(t, r.logs[t][k]), Clock(t', r.logs[t'][k']))
    requires Entered(s, t', k')
    ensures Over(s, t, k)
  {
    hide WellRecorded, Ok, Entered, Over;
    EnteredIsKnown(r, s, t', k');
    OwnEntryIs(r, t, k);
    PublishedIsOver(r, s, t, k);
  }
}
