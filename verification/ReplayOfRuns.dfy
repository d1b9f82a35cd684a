/** Recording and replay together: what every schedule of the replayer does with the logs of a run. */
module ReplayOfRuns {
  import opened Clocks
  import opened Programs
  import opened Synchronization
  import opened HappensBefore
  import opened Recorder
  import opened Recording
  import opened RecordedRuns
  import opened Replay
  import opened ReplayGuarantees

  /** The number of the epoch that position i of the run belongs to. */
  function EpochIndex(ops: seq<Op>, i: nat): nat
    requires i < |ops|
  {
    |Times(ops, i, ops[i].t)|
  }

  lemma BeforeItsEnd(ops: seq<Op>, i: nat)
    requires Complete(ops) && i < |ops| && ops[i].IsAccess()
    ensures var t, k := ops[i].t, EpochIndex(ops, i);
            IsOp(ops, t, k) && i <= Pos(ops, t, k) && (k > 0 ==> Pos(ops, t, k - 1) < i)
  {
    hide ValidRun, At;
    var t, k := ops[i].t, EpochIndex(ops, i);
    AtLeastItsThread(ops, i, i);
    StatusGrows(ops, i, |ops|);
    var last := EndsWith(ops, t);
    if Pos(ops, t, last) < i { FinishIsLast(ops, Pos(ops, t, last), i, t); }
    Counted(ops, t, i, last);
    Counted(ops, t, i, k);
    if k > 0 { Counted(ops, t, i, k - 1); }
  }

  /** The clock logged for an epoch is the clock of the accesses in it. */
  lemma EpochIsLogged(ops: seq<Op>, i: nat)
    requires Complete(ops) && i < |ops| && ops[i].IsAccess()
    ensures var r, t, k := RecordOf(ops), ops[i].t, EpochIndex(ops, i);
            && t < MAX_THREAD_COUNT && Has(r, t, k) && ClockAt(ops, i) == Clock(t, r.logs[t][k])
  {
    hide ValidRun, At, SyncAt, LogOf, RecordOf, Times;
    var t, k := ops[i].t, EpochIndex(ops, i);
    BeforeItsEnd(ops, i);
    HasIsOp(ops, t, k);
    AtLeastItsThread(ops, i, i);
    ClockUntil(ops, t, i, k);
    ThreadVal(ops, i);
  }

  lemma Reachable(ops: seq<Op>, actions: seq<Action>)
    requires Complete(ops) && AllReady(RecordOf(ops), Begin(), actions)
    ensures WellRecorded(RecordOf(ops)) && Ok(RecordOf(ops), Run(RecordOf(ops), Begin(), actions))
  {
    hide WellRecorded, Ok, RecordOf, Complete, Ready, Apply;
    RunsAreWellRecorded(ops);
    BeginOk(RecordOf(ops));
    RunKeepsOk(RecordOf(ops), Begin(), actions);
  }

  /** Replay preserves the recorded order: whatever the schedule, when a thread has entered the epoch of
      an access, the epochs of all accesses that happen before it are over. */
  lemma ReplayKeepsHappensBefore(ops: seq<Op>, actions: seq<Action>, i: nat, j: nat)
    requires Complete(ops) && AllReady(RecordOf(ops), Begin(), actions)
    requires Access(ops, |ops|, i) && Access(ops, |ops|, j) && ops[i].t != ops[j].t && HB(ops, i, j)
    requires Entered(Run(RecordOf(ops), Begin(), actions), ops[j].t, EpochIndex(ops, j))
    ensures Over(Run(RecordOf(ops), Begin(), actions), ops[i].t, EpochIndex(ops, i))
  {
    hide WellRecorded, Ok, RecordOf, ValidRun, Ready, Apply, Entered, Over, HB, ClockAt, Run, EpochIndex, At;
    Reachable(ops, actions);
    ClocksDecideHappensBefore(ops, i, j);
    EpochIsLogged(ops, i);
    EpochIsLogged(ops, j);
    RecordedOrderIsKept(RecordOf(ops), Run(RecordOf(ops), Begin(), actions), ops[i].t, EpochIndex(ops, i), ops[j].t,
      EpochIndex(ops, j));
  }

  /** Replaying the logs of a run never deadlocks and always comes to its end. */
  lemma {:induction false} ReplayFinishes(ops: seq<Op>, actions: seq<Action>)
    requires Complete(ops) && AllReady(RecordOf(ops), Begin(), actions)
    ensures |actions| <= Work(RecordOf(ops), Begin(), |RecordOf(ops).progs|)
    ensures AllDone(RecordOf(ops), Run(RecordOf(ops), Begin(), actions)) <==>
            forall a: Action :: !Ready(RecordOf(ops), Run(RecordOf(ops), Begin(), actions), a)
  {
    hide WellRecorded, Ok, RecordOf, Complete, Ready, Apply, AllDone, Work;
    Reachable(ops, actions);
    EverySchedule(RecordOf(ops), actions);
  }
}
