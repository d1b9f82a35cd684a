/** The whole detector: clocks, filters, logs and histories, first as a function on its state,
    then as the methods that update that state in place. */
module Recorder {
  import opened Optional
  import opened Clocks
  import opened Detection
  import opened Programs
  import opened Synchronization

  /** All sequences but createOrder and races are indexed by thread. The logs hold the printed clocks. */
  datatype State = State(
    sync: Sync,
    readFilters: seq<set<nat>>,
    writeFilters: seq<set<nat>>,
    logs: seq<seq<Vec>>,
    queues: seq<Queue>,
    createOrder: seq<(nat, nat)>,
    races: seq<Race>)

  predicate SameTables(s: State) {
    |s.sync.clocks| == |s.readFilters| == |s.writeFilters| == |s.logs| == |s.queues|
  }

  /** After the initial thread has started. */
  function Initial(): State {
    State(InitialSync(), [{}], [{}], [[]], [[]], [], [])
  }

  /** The operations that end an epoch of their thread. */
  predicate Closes(op: Op) {
    match op
    case Lock(_, m) => m <= MUTEX_POINTER_LIMIT
    case Unlock(_, m) => m <= MUTEX_POINTER_LIMIT
    case _ => op.Create? || op.Join? || op.BarrierEnter? || op.Finish?
  }

  function SignatureOf(s: State, t: nat): Signature
    requires SameTables(s) && t < |s.queues|
  {
    Signature(t, s.sync.clocks[t], s.readFilters[t], s.writeFilters[t])
  }

  function Report(race: Option<Race>): seq<Race> {
    match race case None => [] case Some(r) => [r]
  }

  /** The tables grow by one thread. */
  function Enrol(s: State, t: nat, c: nat): State {
    s.(readFilters := s.readFilters + [{}], writeFilters := s.writeFilters + [{}], logs := s.logs + [[]],
       queues := s.queues + [[]], createOrder := s.createOrder + [(c, t)])
  }

  /** Print the clock, hand the signature to the module, and start over with empty filters
      unless the thread is at its end. */
  function CloseEpoch(s: State, t: nat, clear: bool): State
    requires t < |s.sync.clocks| && t < |s.logs| && t < |s.readFilters| == |s.writeFilters| && t < |s.queues|
  {
    var (qs, race) := AddSignature(s.queues, Signature(t, s.sync.clocks[t], s.readFilters[t], s.writeFilters[t]));
    s.(logs := s.logs[t := s.logs[t] + [s.sync.clocks[t].vc]],
       queues := qs,
       races := s.races + Report(race),
       readFilters := if clear then s.readFilters[t := {}] else s.readFilters,
       writeFilters := if clear then s.writeFilters[t := {}] else s.writeFilters)
  }

  function Step(s: State, op: Op, parent: int): State {
    if !SameTables(s) || !Accepts(s.sync, op) then s else
    var s1 := if op.Create? then Enrol(s, op.t, op.child) else s;
    var s2 := if Closes(op) then CloseEpoch(s1, op.t, !op.Finish?) else s1;
    var s3 := match op
      case Read(t, a) => s2.(readFilters := s2.readFilters[t := s2.readFilters[t] + {a}])
      case Write(t, a) => s2.(writeFilters := s2.writeFilters[t := s2.writeFilters[t] + {a}])
      case _ => s2;
    s3.(sync := SyncStep(s.sync, op, parent))
  }

  /** The detector's state after the first n operations of a run. */
  function StateAt(ops: seq<Op>, n: nat): State
    requires n <= |ops|
  {
    if n == 0 then Initial()
    else Step(StateAt(ops, n - 1), ops[n - 1], ParentOf(At(ops, n - 1), ops[n - 1].t))
  }

  lemma StateSucc(ops: seq<Op>, n: nat)
    requires n < |ops|
    ensures StateAt(ops, n + 1) == Step(StateAt(ops, n), ops[n], ParentOf(At(ops, n), ops[n].t))
  {
    hide Step, ParentOf;
  }

  lemma StepSync(s: State, op: Op, parent: int)
    requires SameTables(s) && Accepts(s.sync, op)
    ensures SameTables(Step(s, op, parent)) && Step(s, op, parent).sync == SyncStep(s.sync, op, parent)
  {
    hide AddSignature;
  }

  lemma {:induction false} StateHasSync(ops: seq<Op>, n: nat)
    requires ValidRun(ops) && n <= |ops|
    ensures SameTables(StateAt(ops, n)) && StateAt(ops, n).sync == SyncAt(ops, n)
  {
    hide Step, SyncStep, Next, Accepts, ValidRun, Matches, MachineOk, SameTables, At, ParentOf;
    if n > 0 {
      StateHasSync(ops, n - 1);
      RunMatches(ops, n - 1);
      StateSucc(ops, n - 1);
      Succ(ops, n - 1);
      StepSync(StateAt(ops, n - 1), ops[n - 1], ParentOf(At(ops, n - 1), ops[n - 1].t));
    } else {
      InitialTables();
    }
  }

  lemma InitialTables()
    ensures SameTables(Initial())
  {
  }

  /** The histories the scan of a closing epoch sees: the new thread's and the pushed signature included. */
  function QueuesAfter(s: State, op: Op): seq<Queue>
    requires SameTables(s) && op.t < |s.queues|
  {
    var qs := if op.Create? then s.queues + [[]] else s.queues;
    if Closes(op) then AddSignature(qs, SignatureOf(s, op.t)).0 else qs
  }

  function RacesOf(s: State, op: Op): seq<Race>
    requires SameTables(s) && op.t < |s.queues|
  {
    var qs := if op.Create? then s.queues + [[]] else s.queues;
    if Closes(op) then Report(AddSignature(qs, SignatureOf(s, op.t)).1) else []
  }

  /** One step, table by table. */
  lemma StepTables(s: State, op: Op, parent: int)
    requires SameTables(s) && Accepts(s.sync, op)
    ensures var s' := Step(s, op, parent);
            && SameTables(s') && s'.sync == SyncStep(s.sync, op, parent)
            && |s'.queues| == (if op.Create? then |s.queues| + 1 else |s.queues|)
            && s'.queues == QueuesAfter(s, op) && s'.races == s.races + RacesOf(s, op)
            && (forall u :: 0 <= u < |s.queues| ==>
                  && s'.readFilters[u] == (if u == op.t && Closes(op) && !op.Finish? then {}
                     else if u == op.t && op.Read? then s.readFilters[u] + {op.a} else s.readFilters[u])
                  && s'.writeFilters[u] == (if u == op.t && Closes(op) && !op.Finish? then {}
                     else if u == op.t && op.Write? then s.writeFilters[u] + {op.a} else s.writeFilters[u]))
            && (op.Create? ==> s'.readFilters[|s.queues|] == {} && s'.writeFilters[|s.queues|] == {})
  {
    hide AddSignature;
  }

  lemma QueueAfter(s: State, op: Op, u: nat)
    requires SameTables(s) && op.t < |s.queues| && u < |s.queues|
    ensures |QueuesAfter(s, op)| == if op.Create? then |s.queues| + 1 else |s.queues|
    ensures QueuesAfter(s, op)[u] ==
            if u == op.t && Closes(op) && SignatureOf(s, u).IsDirty() then Push(s.queues[u], SignatureOf(s, u))
              else s.queues[u]
    ensures op.Create? ==> QueuesAfter(s, op)[|s.queues|] == []
  {
    hide Scan, Push;
  }
}
