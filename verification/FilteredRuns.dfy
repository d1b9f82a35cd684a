/** The detector on filters over the runs of programs: which calls its module gets in a run, and that on
    filters, too, no race of the run goes unreported. */
module FilteredRuns {
  import opened Optional
  import opened Clocks
  import opened Programs
  import opened Synchronization
  import opened Detection
  import opened Recorder
  import opened RaceReports
  import opened ProgramRaces
  import opened BloomFilters

  /** The calls that an operation makes of the module. */
  function CallsOfOp(s: State, op: Op): seq<Call>
    requires SameTables(s) && op.t < |s.queues|
  {
    (if op.Create? then [NewProcessor] else []) + (if Closes(op) then [AddCall(SignatureOf(s, op.t))] else [])
  }

  /** The calls up to operation n; the initial thread has its history from the start. */
  function CallsOf(ops: seq<Op>, n: nat): seq<Call>
    requires n <= |ops|
  {
    if n == 0 then [NewProcessor]
    else
      var s, op := StateAt(ops, n - 1), ops[n - 1];
      CallsOf(ops, n - 1) + if SameTables(s) && op.t < |s.queues| then CallsOfOp(s, op) else []
  }

  lemma {:induction false} HistoriesOfPrefix(calls: seq<Call>, more: seq<Call>, n: nat)
    requires n <= |calls|
    ensures Histories(calls + more, n) == Histories(calls, n)
  {
    hide AddSignature;
    if n > 0 { HistoriesOfPrefix(calls, more, n - 1); }
  }

  lemma HistoriesSucc(calls: seq<Call>, call: Call)
    ensures var qs, qs' := Histories(calls, |calls|), Histories(calls + [call], |calls| + 1);
            qs' == match call
                   case NewProcessor => qs + [[]]
                   case AddCall(e) => if e.tid < |qs| then AddSignature(qs, e).0 else qs
    ensures Histories(calls + [call], |calls|) == Histories(calls, |calls|)
  {
    hide AddSignature;
    HistoriesOfPrefix(calls, [call], |calls|);
  }

  /** The calls of one operation take the histories before it to those after it. */
  lemma HistoriesOfOp(calls: seq<Call>, s: State, op: Op)
    requires SameTables(s) && op.t < |s.queues| && Histories(calls, |calls|) == s.queues
    ensures var all := calls + CallsOfOp(s, op); Histories(all, |all|) == QueuesAfter(s, op)
    ensures Closes(op) ==>
              var all := calls + CallsOfOp(s, op);
              all[|all| - 1] == AddCall(SignatureOf(s, op.t)) && (Reports(all, |all| - 1) <==> RacesOf(s, op) != [])
  {
    hide AddSignature, Closes, Histories;
    var first := if op.Create? then [NewProcessor] else [];
    HistoriesSucc(calls, NewProcessor);
    var grown := calls + first;
    assert op.Create? || grown == calls;
    if Closes(op) {
      HistoriesSucc(grown, AddCall(SignatureOf(s, op.t)));
      assert calls + CallsOfOp(s, op) == grown + [AddCall(SignatureOf(s, op.t))];
    } else {
      assert calls + CallsOfOp(s, op) == grown;
    }
  }

  /** The module's histories are the detector's, all along a run. */
  lemma {:induction false} HistoriesAreQueues(ops: seq<Op>, n: nat)
    requires ValidRun(ops) && n <= |ops|
    ensures Histories(CallsOf(ops, n), |CallsOf(ops, n)|) == StateAt(ops, n).queues
  {
    hide ValidRun, StateAt, SyncAt, At, Step, SyncStep, Next, Accepts, MachineOk, Matches, Enabled, CallsOfOp,
         QueuesAfter, RacesOf, Histories, SameTables;
    if n == 0 {
      StartsEmpty(ops);
      FirstHistory();
    } else {
      Tables(ops, n - 1);
      HistoriesAreQueues(ops, n - 1);
      HistoriesOfOp(CallsOf(ops, n - 1), StateAt(ops, n - 1), ops[n - 1]);
      StepTables(StateAt(ops, n - 1), ops[n - 1], ParentOf(At(ops, n - 1), ops[n - 1].t));
    }
  }

  lemma FirstHistory()
    ensures Histories([NewProcessor], 1) == [[]]
  {
  }

  /** The last call of a closing operation is reported on in the module exactly when the detector reports. */
  lemma LastCallReports(ops: seq<Op>, n: nat)
    requires ValidRun(ops) && n < |ops| && Closes(ops[n])
    ensures var calls := CallsOf(ops, n + 1);
            && SameTables(StateAt(ops, n)) && ops[n].t < |StateAt(ops, n).queues| && |calls| > 0
            && calls[|calls| - 1] == AddCall(SignatureOf(StateAt(ops, n), ops[n].t))
            && (Reports(calls, |calls| - 1) <==> StateAt(ops, n + 1).races != StateAt(ops, n).races)
  {
    hide ValidRun, StateAt, SyncAt, At, Step, SyncStep, Next, Accepts, MachineOk, Matches, Enabled, CallsOfOp,
         QueuesAfter, RacesOf, Histories, Reports, Closes, SameTables;
    Tables(ops, n);
    HistoriesAreQueues(ops, n);
    HistoriesOfOp(CallsOf(ops, n), StateAt(ops, n), ops[n]);
    StepTables(StateAt(ops, n), ops[n], ParentOf(At(ops, n), ops[n].t));
    MoreCalls(ops, n);
  }

  lemma MoreCalls(ops: seq<Op>, n: nat)
    requires n < |ops| && SameTables(StateAt(ops, n)) && ops[n].t < |StateAt(ops, n).queues|
    ensures CallsOf(ops, n + 1) == CallsOf(ops, n) + CallsOfOp(StateAt(ops, n), ops[n])
    ensures |CallsOf(ops, n)| > 0
  {
    hide StateAt, CallsOfOp, SameTables;
    HasCalls(ops, n);
  }

  lemma {:induction false} HasCalls(ops: seq<Op>, n: nat)
    requires n <= |ops|
    ensures |CallsOf(ops, n)| > 0
  {
    hide StateAt, CallsOfOp, SameTables;
    if n > 0 { HasCalls(ops, n - 1); }
  }

  /** Main result: whatever the hash functions and the size of the filters, an operation that ends a stretch
      with an access that races with one of a stretch still kept makes the module on filters report. */
  lemma FiltersMissNoRace(funcs: seq<HashFunc>, size: nat, ops: seq<Op>, n: nat, i: nat, j: nat)
    requires size > 0 && |funcs| > 0 && ValidRun(ops) && n < |ops| && Races(ops, n, i, j)
    ensures var calls := CallsOf(ops, n + 1);
            && |calls| > 0 && SameTables(StateAt(ops, n)) && ops[n].t < |StateAt(ops, n).queues|
            && calls[|calls| - 1] == AddCall(SignatureOf(StateAt(ops, n), ops[n].t))
            && Reports(FilteredCalls(funcs, size, calls), |calls| - 1)
  {
    hide ValidRun, StateAt, CallsOf, Closes, SameTables, Reports, FilteredCalls;
    ReportsExactlyTheRacesOfTheRun(ops, n);
    RaceCloses(ops, n, i, j);
    LastCallReports(ops, n);
    var calls := CallsOf(ops, n + 1);
    FiltersReportEverything(funcs, size, calls, |calls| - 1);
  }

  lemma RaceCloses(ops: seq<Op>, n: nat, i: nat, j: nat)
    requires n < |ops| && Races(ops, n, i, j)
    ensures Closes(ops[n])
  {
    hide Closes;
  }
}
