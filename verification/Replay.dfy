/** The replayer as a transition system over its guarded steps, for every schedule. */
module Replay {
  import opened Clocks
  import opened Programs
  import opened Recording

  /** A thread of the replayed program: not yet in ThreadStart's critical part, running, between
      BeforeCreate and AfterCreate, or at its end. */
  datatype Phase = Created | Active | Creating | Done

  /** code is the recorded thread whose program it runs, parent the replayed thread that created it. */
  datatype Worker = Worker(
    code: nat, parent: int, phase: Phase, pc: nat,
    epochList: seq<Vec>, currentVC: Clock, trt: Clock, childVC: map<nat, Clock>)

  datatype State = State(workers: seq<Worker>, grt: Vec, createIndex: nat, nextId: nat)

  datatype Action = Start(t: nat) | BeginCreate(t: nat) | EndCreate(t: nat) | DoJoin(t: nat) | DoFinish(t: nat)

  const NO_CLOCK: Clock := Clock(NON_THREAD_VECTOR_CLOCK, Zero())

  function NewWorker(code: nat, parent: int): Worker {
    Worker(code, parent, Created, 0, [], NO_CLOCK, NO_CLOCK, map[])
  }

  function Begin(): State {
    State([NewWorker(0, -1)], Zero(), 0, 1)
  }

  /** Move on to the next logged clock, if there is one. */
  function AdvanceTRT(w: Worker, t: nat): Worker {
    if w.epochList == [] then w
    else w.(currentVC := w.trt, trt := Clock(t, w.epochList[0]), epochList := w.epochList[1..])
  }

  /** Publish the thread's own entry. */
  function UpdateGRT(grt: Vec, trt: Clock, t: nat): Vec
    requires t < MAX_THREAD_COUNT
  {
    grt[t := trt.vc[t]]
  }

  predicate AtOp(r: Record, w: Worker) {
    w.phase == Active && w.code < |r.progs| && w.pc < |r.progs[w.code]|
  }

  function OpOf(r: Record, w: Worker): Op
    requires AtOp(r, w)
  {
    r.progs[w.code][w.pc]
  }

  /** A step that a waiting thread can take now. */
  predicate Ready(r: Record, s: State, a: Action) {
    a.t < |s.workers| && a.t < MAX_THREAD_COUNT &&
    var w := s.workers[a.t];
    match a
    case Start(t) => w.phase == Created && t < |r.logs| && |r.logs[t]| > 0 && Covered(Clock(t, r.logs[t][0]), s.grt)
    case BeginCreate(t) =>
      && AtOp(r, w) && OpOf(r, w).Create?
      && (forall u :: 0 <= u < |s.workers| ==> s.workers[u].phase != Creating)
      && s.createIndex < |r.order| && r.order[s.createIndex].1 == t && Covered(w.trt, s.grt)
    case EndCreate(t) => w.phase == Creating
    case DoJoin(t) => AtOp(r, w) && OpOf(r, w).Join? && Covered(w.trt, s.grt)
    case DoFinish(t) => AtOp(r, w) && OpOf(r, w).Finish?
  }

  /** The worker after it has read its log and passed the wait of ThreadStart. */
  function Started(w: Worker, t: nat, log: seq<Vec>): Worker {
    var w1 := AdvanceTRT(w.(epochList := log), t);
    AdvanceTRT(w1.(currentVC := w1.trt), t).(phase := Active)
  }

  /** ThreadStart's check: the clock computed from the creator's equals the thread's first logged clock. */
  predicate StartAgrees(r: Record, s: State, t: nat)
    requires Ready(r, s, Start(t))
  {
    var p := s.workers[t].parent;
    p < 0 || (
      && p < |s.workers| && t in s.workers[p].childVC && 0 <= s.workers[p].childVC[t].threadId < MAX_THREAD_COUNT
      && Started(s.workers[t], t, r.logs[t]).currentVC.vc == ChildOf(s.workers[p].childVC[t], t).vc)
  }

  function Apply(r: Record, s: State, a: Action): State
    requires Ready(r, s, a)
  {
    var t, w := a.t, s.workers[a.t];
    match a
    case Start(_) =>
      var ws := s.workers[t := Started(w, t, r.logs[t])];
      var ws' := if 0 <= w.parent < |ws| then ws[w.parent := ws[w.parent].(childVC := ws[w.parent].childVC - {t})]
        else ws;
      s.(workers := ws', grt := UpdateGRT(s.grt, Clock(t, r.logs[t][0]), t))
    case BeginCreate(_) =>
      var w' := AdvanceTRT(w.(childVC := w.childVC[s.nextId := w.currentVC]), t).(phase := Creating);
      s.(workers := s.workers[t := w'] + [NewWorker(OpOf(r, w).child, t)], grt := UpdateGRT(s.grt, w.trt, t))
    case EndCreate(_) =>
      s.(workers := s.workers[t := w.(phase := Active, pc := w.pc + 1)], createIndex := s.createIndex + 1,
        nextId := s.nextId + 1)
    case DoJoin(_) =>
      s.(workers := s.workers[t := AdvanceTRT(w, t).(pc := w.pc + 1)], grt := UpdateGRT(s.grt, w.trt, t))
    case DoFinish(_) =>
      var trt := Clock(w.trt.threadId, Bump(w.trt.vc, t));
      s.(workers := s.workers[t := w.(phase := Done, trt := trt)], grt := UpdateGRT(s.grt, trt, t))
  }

  function Run(r: Record, s: State, actions: seq<Action>): (s': State)
    requires AllReady(r, s, actions)
    decreases |actions|
  {
    if actions == [] then s else Run(r, Apply(r, s, actions[0]), actions[1..])
  }

  predicate AllReady(r: Record, s: State, actions: seq<Action>)
    decreases |actions|
  {
    actions == [] || (Ready(r, s, actions[0]) && AllReady(r, Apply(r, s, actions[0]), actions[1..]))
  }

  predicate AllDone(r: Record, s: State) {
    |s.workers| == |r.progs| && forall t :: 0 <= t < |s.workers| ==> s.workers[t].phase == Done
  }

  // -------------------------------------------------------------------------------------------
  // What every replay state keeps.

  /** The epoch thread t has entered. */
  function Position(w: Worker): nat {
    if w.phase == Creating then w.pc + 1 else w.pc
  }

  predicate Executed(s: State, t: nat, k: nat) {
    t < |s.workers| &&
    match s.workers[t].phase
    case Created => false
    case Done => true
    case _ => k < Position(s.workers[t])
  }

  /** The global clock covers what the logged clock says of the other threads. */
  ghost predicate Known(v: Vec, t: nat, grt: Vec) {
    forall u :: 0 <= u < MAX_THREAD_COUNT && u != t ==> v[u] <= grt[u]
  }

  function Min(a: nat, b: nat): nat {
    if a < b then a else b
  }

  /** In epoch p a thread waits for the next logged clock; past the end it keeps the last one. */
  predicate Loaded(currentVC: Clock, trt: Clock, epochList: seq<Vec>, t: nat, log: seq<Vec>, p: nat)
    requires p < |log|
  {
    && trt == Clock(t, log[Min(p + 1, |log| - 1)]) && epochList == log[Min(p + 2, |log|)..]
    && (p + 1 < |log| ==> currentVC == Clock(t, log[p]))
  }

  ghost predicate Stands(w: Worker, t: nat, log: seq<Vec>, p: nat)
    requires p < |log|
  {
    Loaded(w.currentVC, w.trt, w.epochList, t, log, p)
  }

  lemma AdvanceLoads(w: Worker, t: nat, log: seq<Vec>, p: nat)
    requires p + 1 < |log| && Stands(w, t, log, p)
    ensures Stands(AdvanceTRT(w, t), t, log, p + 1) && w.trt == Clock(t, log[p + 1]) && w.currentVC == Clock(t, log[p])
  {
    var w' := AdvanceTRT(w, t);
    if p + 2 < |log| {
      assert w.epochList[0] == log[p + 2];
      assert w'.epochList == log[Min(p + 3, |log|)..];
    } else {
      assert w.epochList == [];
      assert w'.epochList == log[Min(p + 3, |log|)..];
    }
  }

  lemma StartLoads(w: Worker, t: nat, log: seq<Vec>)
    requires |log| > 0
    ensures Stands(Started(w, t, log), t, log, 0)
  {
    var w1 := AdvanceTRT(w.(epochList := log), t);
    assert w1.epochList == log[1..];
    if |log| > 1 {
      assert w1.epochList[0] == log[1];
      assert log[1..][1..] == log[2..];
    }
  }

  ghost predicate ActiveOk(r: Record, s: State, t: nat)
    requires WellRecorded(r) && t < |s.workers| <= |r.progs|
  {
    var w, log, p := s.workers[t], r.logs[t], Position(s.workers[t]);
    && p < |log| && Stands(w, t, log, p)
    && s.grt[t] == p + 1 && Known(log[p], t, s.grt)
    && (w.phase == Creating ==> r.progs[t][w.pc] == Create(t, |s.workers| - 1))
  }

  ghost predicate CreatedOk(r: Record, s: State, t: nat)
    requires WellRecorded(r) && t < |s.workers| <= |r.progs|
  {
    var w := s.workers[t];
    && w.pc == 0 && s.grt[t] == 0 && Known(r.logs[t][0], t, s.grt)
    && (t > 0 ==>
          && 0 <= w.parent < |s.workers| && t in s.workers[w.parent].childVC
          && 0 <= s.workers[w.parent].childVC[t].threadId < MAX_THREAD_COUNT
          && ChildOf(s.workers[w.parent].childVC[t], t).vc == r.logs[t][0])
  }

  ghost predicate DoneOk(r: Record, s: State, t: nat)
    requires WellRecorded(r) && t < |s.workers| <= |r.progs|
  {
    s.workers[t].pc + 1 == |r.logs[t]| && s.grt[t] == |r.logs[t]| + 1 && Known(Last(r.logs[t]), t, s.grt)
  }

  ghost predicate WorkerOk(r: Record, s: State, t: nat)
    requires WellRecorded(r) && t < |s.workers| <= |r.progs|
  {
    s.workers[t].code == t && (s.workers[t].parent == if t == 0 then -1 else r.order[t - 1].1) &&
    match s.workers[t].phase
    case Created => CreatedOk(r, s, t)
    case Done => DoneOk(r, s, t)
    case _ => ActiveOk(r, s, t)
  }

  ghost predicate Busy(s: State) {
    exists t :: 0 <= t < |s.workers| && s.workers[t].phase == Creating
  }

  /** At most one creation is in progress, and it is the latest thread's. */
  ghost predicate CountersOk(r: Record, s: State)
    requires WellRecorded(r)
  {
    && 0 < |s.workers| <= |r.progs|
    && s.nextId == s.createIndex + 1
    && (forall t, u :: 0 <= t < |s.workers| && 0 <= u < |s.workers| ==>
          s.workers[t].phase == Creating && s.workers[u].phase == Creating ==> t == u)
    && s.nextId == (if Busy(s) then |s.workers| - 1 else |s.workers|)
  }

  /** A thread exists just when its creation has been executed. */
  ghost predicate CreationsOk(r: Record, s: State) {
    forall c: nat, t: nat, k: nat :: CreatedBy(r, c, t, k) ==> (Executed(s, t, k) <==> c < |s.workers|)
  }

  ghost predicate Ok(r: Record, s: State)
    requires WellRecorded(r)
  {
    && CountersOk(r, s)
    && (forall t: nat :: t < |s.workers| ==> WorkerOk(r, s, t))
    && (forall u :: |s.workers| <= u < MAX_THREAD_COUNT ==> s.grt[u] == 0)
    && CreationsOk(r, s)
  }

  lemma BeginOk(r: Record)
    requires WellRecorded(r)
    ensures Ok(r, Begin())
  {
    assert StepRecorded(r, 0, 0);
    forall c: nat, t: nat, k: nat | CreatedBy(r, c, t, k) ensures !Executed(Begin(), t, k) && c >= 1 {
      assert StepRecorded(r, t, k);
    }
  }

  lemma Sizes(r: Record)
    requires WellRecorded(r)
    ensures 0 < |r.progs| == |r.logs| == |r.times| < MAX_THREAD_COUNT && |r.order| == |r.progs| - 1
    ensures forall t :: 0 <= t < |r.progs| ==> |r.progs[t]| == |r.logs[t]| == |r.times[t]| > 0
  {
  }

  /** A worker that a step of another thread leaves alone. */
  lemma Bystander(r: Record, s: State, s': State, t: nat)
    requires WellRecorded(r) && Ok(r, s) && t < |s.workers| <= |s'.workers| <= |r.progs|
    requires PointwiseLeq(s.grt, s'.grt) && s'.grt[t] == s.grt[t]
             && s'.workers[t].(childVC := map[]) == s.workers[t].(childVC := map[])
    requires s.workers[t].phase == Creating ==> |s'.workers| == |s.workers|
    requires var p := s.workers[t].parent;
             s.workers[t].phase == Created && 0 <= p < |s.workers| && t in s.workers[p].childVC ==>
               t in s'.workers[p].childVC && s'.workers[p].childVC[t] == s.workers[p].childVC[t]
    ensures WorkerOk(r, s', t)
  {
    hide WellRecorded, CountersOk, CreationsOk;
    assert WorkerOk(r, s, t);
  }

  lemma Few(r: Record, s: State)
    requires WellRecorded(r) && Ok(r, s)
    ensures 0 < |s.workers| <= |r.progs|
  {
  }

  lemma OwnEntryIs(r: Record, t: nat, k: nat)
    requires WellRecorded(r) && Has(r, t, k)
    ensures t < MAX_THREAD_COUNT && r.logs[t][k][t] == k + 1
  {
    assert StepRecorded(r, t, k);
  }

  lemma StartChanges(r: Record, s: State, t: nat)
    requires Ready(r, s, Start(t))
    ensures var s', w := Apply(r, s, Start(t)), s.workers[t]; var w' := s'.workers[t];
            && |s'.workers| == |s.workers| && s'.grt == UpdateGRT(s.grt, Clock(t, r.logs[t][0]), t)
            && w'.code == w.code && w'.parent == w.parent && w'.pc == w.pc && w'.phase == Active
            && w'.currentVC == Started(w, t, r.logs[t]).currentVC && w'.trt == Started(w, t, r.logs[t]).trt
               && w'.epochList == Started(w, t, r.logs[t]).epochList
  {
  }

  lemma StartWorker(r: Record, s: State, t: nat)
    requires WellRecorded(r) && Ok(r, s) && Ready(r, s, Start(t))
    ensures var s' := Apply(r, s, Start(t));
            |s'.workers| == |s.workers| <= |r.progs| && PointwiseLeq(s.grt, s'.grt) && WorkerOk(r, s', t)
  {
    hide WellRecorded, CountersOk, CreationsOk, Started, Loaded;
    Few(r, s);
    Sizes(r);
    OwnEntryIs(r, t, 0);
    StartLoads(s.workers[t], t, r.logs[t]);
    assert WorkerOk(r, s, t);
    StartChanges(r, s, t);
  }

  lemma StartOk(r: Record, s: State, t: nat)
    requires WellRecorded(r) && Ok(r, s) && Ready(r, s, Start(t))
    ensures Ok(r, Apply(r, s, Start(t)))
  {
    hide WellRecorded, ActiveOk, CreatedOk, DoneOk, Started, WorkerOk;
    Sizes(r);
    assert WorkerOk(r, s, t);
    StartWorker(r, s, t);
    var s' := Apply(r, s, Start(t));
    StartPhases(r, s, t);
    StartsAtZero(r, s, t);
    assert forall u: nat, k: nat :: Executed(s', u, k) <==> Executed(s, u, k);
    assert CountersOk(r, s') by { assert Busy(s) <==> Busy(s'); }
    forall u: nat | u < |s'.workers| ensures WorkerOk(r, s', u) {
      if u != t { Bystander(r, s, s', u); }
    }
  }

  lemma StartsAtZero(r: Record, s: State, t: nat)
    requires WellRecorded(r) && Ok(r, s) && Ready(r, s, Start(t))
    ensures s.workers[t].pc == 0
  {
    assert WorkerOk(r, s, t);
  }

  lemma StartPhases(r: Record, s: State, t: nat)
    requires Ready(r, s, Start(t))
    ensures var s' := Apply(r, s, Start(t));
            && |s'.workers| == |s.workers| && s'.workers[t].phase == Active && s'.workers[t].pc == s.workers[t].pc
            && s'.nextId == s.nextId && s'.createIndex == s.createIndex
            && (forall u :: 0 <= u < MAX_THREAD_COUNT && u != t ==> s'.grt[u] == s.grt[u])
            && (forall u :: 0 <= u < |s.workers| && u != t ==>
                s'.workers[u].(childVC := map[]) == s.workers[u].(childVC := map[]))
            && (forall u, c :: 0 <= u < |s.workers| && c in s.workers[u].childVC && c != t ==>
                c in s'.workers[u].childVC && s'.workers[u].childVC[c] == s.workers[u].childVC[c])
  {
  }

  /** The operation a running thread stands at is its own, and its logs give the next clock. */
  lemma StandsAt(r: Record, s: State, t: nat)
    requires WellRecorded(r) && Ok(r, s) && t < |s.workers| && AtOp(r, s.workers[t])
    ensures |s.workers| <= |r.progs| && ActiveOk(r, s, t) && s.workers[t].code == t
    ensures StepRecorded(r, t, s.workers[t].pc) && OpOf(r, s.workers[t]) == r.progs[t][s.workers[t].pc]
  {
    Sizes(r);
    assert WorkerOk(r, s, t);
    assert Has(r, t, s.workers[t].pc);
  }

  lemma NextIsLater(r: Record, t: nat, k: nat)
    requires WellRecorded(r) && Has(r, t, k) && Has(r, t, k + 1)
    ensures r.times[t][k] < r.times[t][k + 1]
  {
    assert StepRecorded(r, t, k);
  }

  /** The positions of one thread's operations increase. */
  lemma {:induction false} Increasing(r: Record, t: nat, k: nat, k': nat)
    requires WellRecorded(r) && Has(r, t, k) && Has(r, t, k') && k < k'
    ensures r.times[t][k] < r.times[t][k']
  {
    hide WellRecorded;
    NextIsLater(r, t, k' - 1);
    if k < k' - 1 { Increasing(r, t, k, k' - 1); }
  }

  lemma InOrder(r: Record, t: nat, k: nat, k': nat)
    requires WellRecorded(r) && Has(r, t, k) && Has(r, t, k')
    ensures r.times[t][k] < r.times[t][k'] <==> k < k'
  {
    hide WellRecorded;
    if k < k' { Increasing(r, t, k, k'); }
    if k' < k { Increasing(r, t, k', k); }
  }

  lemma OwnEntriesAre(r: Record, s: State, t: nat)
    requires WellRecorded(r) && Ok(r, s) && t < |s.workers| && AtOp(r, s.workers[t]) && !OpOf(r, s.workers[t]).Finish?
    ensures |s.workers| <= |r.progs| && ActiveOk(r, s, t) && Has(r, t, s.workers[t].pc + 1) && s.workers[t].code == t
    ensures OpOf(r, s.workers[t]) == r.progs[t][s.workers[t].pc] && OpOf(r, s.workers[t]).t == t
    ensures r.logs[t][s.workers[t].pc][t] == s.workers[t].pc + 1
            && r.logs[t][s.workers[t].pc + 1][t] == s.workers[t].pc + 2
  {
    hide WellRecorded, Ok, ActiveOk;
    StandsAt(r, s, t);
    OwnEntryIs(r, t, s.workers[t].pc);
    OwnEntryIs(r, t, s.workers[t].pc + 1);
  }

  lemma CreateChanges(r: Record, s: State, t: nat)
    requires Ready(r, s, BeginCreate(t))
    ensures var s' := Apply(r, s, BeginCreate(t)); var w := s.workers[t];
            && s'.workers[t] == AdvanceTRT(w.(childVC := w.childVC[s.nextId := w.currentVC]), t).(phase := Creating)
            && s'.workers[|s.workers|] == NewWorker(OpOf(r, w).child, t) && s'.grt == UpdateGRT(s.grt, w.trt, t)
            && |s'.workers| == |s.workers| + 1
  {
  }

  /** The thread whose turn it is creates exactly the next thread of the record. */
  lemma CreatesNext(r: Record, s: State, t: nat)
    requires WellRecorded(r) && Ok(r, s) && Ready(r, s, BeginCreate(t))
    ensures OpOf(r, s.workers[t]).child == |s.workers| == s.nextId < |r.progs|
  {
    hide WellRecorded, CountersOk, ActiveOk, WorkerOk, Apply;
    Counts(r, s, t);
    StandsAt(r, s, t);
    var c, pc := |s.workers|, s.workers[t].pc;
    TheCreator(r, c);
    var t0: nat, k0: nat :| CreatedBy(r, c, t0, k0) && t0 == r.order[c - 1].1;
    var d := OpOf(r, s.workers[t]).child;
    assert CreatedBy(r, d, t, pc);
    assert !Executed(s, t, k0) && !Executed(s, t, pc);
    InOrder(r, t, k0, pc);
    InOrder(r, t, pc, k0);
    CreationOrder(r, d, t, pc, c, t, k0);
  }

  lemma Counts(r: Record, s: State, t: nat)
    requires WellRecorded(r) && Ok(r, s) && Ready(r, s, BeginCreate(t))
    ensures s.nextId == |s.workers| < |r.progs| && s.createIndex == |s.workers| - 1 && |r.order| == |r.progs| - 1
  {
    assert !Busy(s);
  }

  lemma TheCreator(r: Record, c: nat)
    requires WellRecorded(r) && 0 < c < |r.progs|
    ensures c - 1 < |r.order| && exists t: nat, k: nat :: CreatedBy(r, c, t, k) && t == r.order[c - 1].1
  {
    assert HasCreator(r, c);
    var t: nat, k: nat :| CreatedBy(r, c, t, k);
    assert StepRecorded(r, t, k);
  }

  lemma CreationOrder(r: Record, c: nat, t: nat, k: nat, c': nat, t': nat, k': nat)
    requires WellRecorded(r) && CreatedBy(r, c, t, k) && CreatedBy(r, c', t', k')
    ensures r.times[t][k] < r.times[t'][k'] <==> c < c'
  {
  }

  lemma BeginCreateCreator(r: Record, s: State, t: nat)
    requires WellRecorded(r) && Ok(r, s) && Ready(r, s, BeginCreate(t))
    ensures var s' := Apply(r, s, BeginCreate(t));
            |s'.workers| == |s.workers| + 1 <= |r.progs| && PointwiseLeq(s.grt, s'.grt) && WorkerOk(r, s', t)
    ensures s.workers[t].currentVC == Clock(t, r.logs[t][s.workers[t].pc])
  {
    hide WellRecorded, CountersOk, CreationsOk, Apply, Loaded;
    Sizes(r);
    OwnEntriesAre(r, s, t);
    CreatesNext(r, s, t);
    CreateChanges(r, s, t);
    AdvanceLoads(s.workers[t], t, r.logs[t], s.workers[t].pc);
    assert WorkerOk(r, s, t);
  }

  lemma ChildClock(r: Record, s: State, t: nat)
    requires WellRecorded(r) && Ok(r, s) && Ready(r, s, BeginCreate(t))
    ensures var c, pc := |s.workers|, s.workers[t].pc;
            && c < |r.logs| && Has(r, c, 0) && Has(r, t, pc) && c != t && t < MAX_THREAD_COUNT
               && 0 < c < MAX_THREAD_COUNT
            && r.logs[c][0] == ChildOf(Clock(t, r.logs[t][pc]), c).vc
            && c - 1 < |r.order| && r.order[c - 1] == (c, t)
  {
    hide WellRecorded, Ok, ActiveOk;
    StandsAt(r, s, t);
    CreatesNext(r, s, t);
  }

  lemma ChildKnown(r: Record, s: State, t: nat)
    requires WellRecorded(r) && Ok(r, s) && Ready(r, s, BeginCreate(t))
    ensures var c, s' := |s.workers|, Apply(r, s, BeginCreate(t));
            Has(r, c, 0) && c < MAX_THREAD_COUNT && s'.grt[c] == 0 && Known(r.logs[c][0], c, s'.grt)
  {
    hide WellRecorded, CountersOk, CreationsOk, Apply, Loaded;
    OwnEntriesAre(r, s, t);
    ChildClock(r, s, t);
    CreateChanges(r, s, t);
    AdvanceLoads(s.workers[t], t, r.logs[t], s.workers[t].pc);
  }

  /** The new thread's first clock is the one its creator's current clock gives. */
  lemma BeginCreateChild(r: Record, s: State, t: nat)
    requires WellRecorded(r) && Ok(r, s) && Ready(r, s, BeginCreate(t))
    ensures var s' := Apply(r, s, BeginCreate(t));
            |s'.workers| == |s.workers| + 1 <= |r.progs| && WorkerOk(r, s', |s.workers|)
  {
    hide WellRecorded, Ok, Apply, Known, ChildOf, Covered;
    CreatesNext(r, s, t);
    BeginCreateCreator(r, s, t);
    ChildClock(r, s, t);
    ChildKnown(r, s, t);
    CreateChanges(r, s, t);
  }

  lemma BeginCreatePhases(r: Record, s: State, t: nat)
    requires Ready(r, s, BeginCreate(t))
    ensures var s' := Apply(r, s, BeginCreate(t));
            && |s'.workers| == |s.workers| + 1 && s'.workers[t].phase == Creating && s'.workers[t].pc == s.workers[t].pc
            && s'.workers[|s.workers|].phase == Created
            && s'.nextId == s.nextId && s'.createIndex == s.createIndex
            && (forall u :: 0 <= u < MAX_THREAD_COUNT && u != t ==> s'.grt[u] == s.grt[u])
            && (forall u :: 0 <= u < |s.workers| && u != t ==> s'.workers[u] == s.workers[u])
            && (forall c :: c in s.workers[t].childVC && c != s.nextId ==>
                c in s'.workers[t].childVC && s'.workers[t].childVC[c] == s.workers[t].childVC[c])
  {
  }

  lemma BeginCreateOk(r: Record, s: State, t: nat)
    requires WellRecorded(r) && Ok(r, s) && Ready(r, s, BeginCreate(t))
    ensures Ok(r, Apply(r, s, BeginCreate(t)))
  {
    hide WellRecorded, ActiveOk, CreatedOk, DoneOk, WorkerOk, CreationsOk;
    Sizes(r);
    CreatesNext(r, s, t);
    BeginCreateCreator(r, s, t);
    BeginCreateChild(r, s, t);
    BeginCreatePhases(r, s, t);
    var s' := Apply(r, s, BeginCreate(t));
    assert !Busy(s);
    assert Busy(s') by { assert s'.workers[t].phase == Creating; }
    forall u: nat | u < |s'.workers| ensures WorkerOk(r, s', u) {
      if u != t && u < |s.workers| { Bystander(r, s, s', u); }
    }
    CreationsBegin(r, s, t);
  }

  /** A thread is created once. */
  lemma SameCreation(r: Record, c: nat, t: nat, k: nat, t': nat, k': nat)
    requires WellRecorded(r) && CreatedBy(r, c, t, k) && CreatedBy(r, c, t', k')
    ensures t == t' && k == k'
  {
    assert !(r.times[t][k] < r.times[t'][k']) && !(r.times[t'][k'] < r.times[t][k]);
    hide WellRecorded;
    InOrder(r, t, k, k');
    InOrder(r, t, k', k);
  }

  lemma CreationsBegin(r: Record, s: State, t: nat)
    requires WellRecorded(r) && Ok(r, s) && Ready(r, s, BeginCreate(t))
    ensures CreationsOk(r, Apply(r, s, BeginCreate(t)))
  {
    hide WellRecorded, ActiveOk, CreatedOk, DoneOk, Apply, CountersOk, WorkerOk;
    CreatesNext(r, s, t);
    StandsAt(r, s, t);
    BeginCreatePhases(r, s, t);
    var s', n, pc := Apply(r, s, BeginCreate(t)), |s.workers|, s.workers[t].pc;
    assert CreatedBy(r, n, t, pc);
    forall c: nat, u: nat, k: nat | CreatedBy(r, c, u, k) ensures Executed(s', u, k) <==> c < |s'.workers| {
      assert Executed(s, u, k) <==> c < n;
      if c == n { SameCreation(r, n, t, pc, u, k); }
    }
  }

  lemma EndCreateWorker(r: Record, s: State, t: nat)
    requires WellRecorded(r) && Ok(r, s) && Ready(r, s, EndCreate(t))
    ensures var s' := Apply(r, s, EndCreate(t));
            |s'.workers| == |s.workers| <= |r.progs| && s'.grt == s.grt && WorkerOk(r, s', t)
  {
    assert WorkerOk(r, s, t);
    hide WellRecorded, CountersOk, CreationsOk;
  }

  lemma EndCreateOk(r: Record, s: State, t: nat)
    requires WellRecorded(r) && Ok(r, s) && Ready(r, s, EndCreate(t))
    ensures Ok(r, Apply(r, s, EndCreate(t)))
  {
    hide WellRecorded, ActiveOk, CreatedOk, DoneOk, WorkerOk;
    Sizes(r);
    EndCreateWorker(r, s, t);
    var s' := Apply(r, s, EndCreate(t));
    assert Busy(s) by { assert s.workers[t].phase == Creating; }
    assert !Busy(s');
    forall u: nat | u < |s'.workers| ensures WorkerOk(r, s', u) {
      if u != t { Bystander(r, s, s', u); }
    }
    assert forall u: nat, k: nat :: Executed(s', u, k) <==> Executed(s, u, k);
  }

  lemma JoinChanges(r: Record, s: State, t: nat)
    requires Ready(r, s, DoJoin(t))
    ensures var s' := Apply(r, s, DoJoin(t)); var w := s.workers[t];
            && s'.workers == s.workers[t := AdvanceTRT(w, t).(pc := w.pc + 1)] && s'.grt == UpdateGRT(s.grt, w.trt, t)
  {
  }

  lemma JoinWorker(r: Record, s: State, t: nat)
    requires WellRecorded(r) && Ok(r, s) && Ready(r, s, DoJoin(t))
    ensures var s' := Apply(r, s, DoJoin(t));
            |s'.workers| == |s.workers| <= |r.progs| && PointwiseLeq(s.grt, s'.grt) && WorkerOk(r, s', t)
  {
    hide WellRecorded, CountersOk, CreationsOk, Apply, Loaded;
    Sizes(r);
    OwnEntriesAre(r, s, t);
    JoinChanges(r, s, t);
    AdvanceLoads(s.workers[t], t, r.logs[t], s.workers[t].pc);
    assert WorkerOk(r, s, t);
  }

  lemma JoinPhases(r: Record, s: State, t: nat)
    requires Ready(r, s, DoJoin(t))
    ensures var s' := Apply(r, s, DoJoin(t));
            && |s'.workers| == |s.workers| && s'.workers[t].phase == Active && s'.workers[t].pc == s.workers[t].pc + 1
            && s'.workers[t].childVC == s.workers[t].childVC && s'.nextId == s.nextId && s'.createIndex == s.createIndex
            && (forall u :: 0 <= u < MAX_THREAD_COUNT && u != t ==> s'.grt[u] == s.grt[u])
            && (forall u :: 0 <= u < |s.workers| && u != t ==> s'.workers[u] == s.workers[u])
  {
  }

  lemma JoinOk(r: Record, s: State, t: nat)
    requires WellRecorded(r) && Ok(r, s) && Ready(r, s, DoJoin(t))
    ensures Ok(r, Apply(r, s, DoJoin(t)))
  {
    hide WellRecorded, ActiveOk, CreatedOk, DoneOk, WorkerOk, Apply;
    Sizes(r);
    StandsAt(r, s, t);
    JoinWorker(r, s, t);
    JoinPhases(r, s, t);
    var s' := Apply(r, s, DoJoin(t));
    assert CountersOk(r, s') by { assert Busy(s) <==> Busy(s'); }
    forall u: nat | u < |s'.workers| ensures WorkerOk(r, s', u) {
      if u != t { Bystander(r, s, s', u); }
    }
    CreationsElsewhere(r, s, s', t);
  }

  /** An operation that is not a creation changes nothing about creations. */
  lemma CreationsElsewhere(r: Record, s: State, s': State, t: nat)
    requires CreationsOk(r, s) && t < |s.workers| == |s'.workers| && AtOp(r, s.workers[t]) && s.workers[t].code == t
             && !OpOf(r, s.workers[t]).Create?
    requires forall u :: 0 <= u < |s.workers| && u != t ==>
             s'.workers[u].phase == s.workers[u].phase && s'.workers[u].pc == s.workers[u].pc
    requires (s'.workers[t].phase == Active && s'.workers[t].pc == s.workers[t].pc + 1)
             || (s'.workers[t].phase == Done && s.workers[t].pc + 1 == |r.progs[t]|)
    ensures CreationsOk(r, s')
  {
    forall c: nat, u: nat, k: nat | CreatedBy(r, c, u, k) ensures Executed(s', u, k) <==> c < |s'.workers| {
      assert u == t ==> k != s.workers[t].pc;
      assert Executed(s', u, k) <==> Executed(s, u, k);
    }
  }

  lemma FinishWorker(r: Record, s: State, t: nat)
    requires WellRecorded(r) && Ok(r, s) && Ready(r, s, DoFinish(t))
    ensures var s' := Apply(r, s, DoFinish(t));
            |s'.workers| == |s.workers| <= |r.progs| && PointwiseLeq(s.grt, s'.grt) && WorkerOk(r, s', t)
    ensures s.workers[t].epochList == []
  {
    Sizes(r);
    StandsAt(r, s, t);
    OwnEntryIs(r, t, s.workers[t].pc);
    assert WorkerOk(r, s, t);
    hide WellRecorded, CountersOk, CreationsOk;
  }

  lemma FinishPhases(r: Record, s: State, t: nat)
    requires Ready(r, s, DoFinish(t))
    ensures var s' := Apply(r, s, DoFinish(t));
            && |s'.workers| == |s.workers| && s'.workers[t].phase == Done && s'.workers[t].pc == s.workers[t].pc
            && s'.workers[t].childVC == s.workers[t].childVC && s'.nextId == s.nextId && s'.createIndex == s.createIndex
            && (forall u :: 0 <= u < MAX_THREAD_COUNT && u != t ==> s'.grt[u] == s.grt[u])
            && (forall u :: 0 <= u < |s.workers| && u != t ==> s'.workers[u] == s.workers[u])
  {
  }

  lemma FinishOk(r: Record, s: State, t: nat)
    requires WellRecorded(r) && Ok(r, s) && Ready(r, s, DoFinish(t))
    ensures Ok(r, Apply(r, s, DoFinish(t)))
  {
    hide WellRecorded, ActiveOk, CreatedOk, DoneOk, WorkerOk, Apply;
    Sizes(r);
    StandsAt(r, s, t);
    FinishWorker(r, s, t);
    FinishPhases(r, s, t);
    var s' := Apply(r, s, DoFinish(t));
    assert CountersOk(r, s') by { assert Busy(s) <==> Busy(s'); }
    forall u: nat | u < |s'.workers| ensures WorkerOk(r, s', u) {
      if u != t { Bystander(r, s, s', u); }
    }
    CreationsElsewhere(r, s, s', t);
  }

  /** Every step of every schedule keeps the replay state in line with the record, and the global clock grows. */
  lemma StepKeepsOk(r: Record, s: State, a: Action)
    requires WellRecorded(r) && Ok(r, s) && Ready(r, s, a)
    ensures Ok(r, Apply(r, s, a)) && PointwiseLeq(s.grt, Apply(r, s, a).grt)
  {
    hide *;
    match a
    case Start(t) => StartOk(r, s, t); StartWorker(r, s, t);
    case BeginCreate(t) => BeginCreateOk(r, s, t); BeginCreateCreator(r, s, t);
    case EndCreate(t) => EndCreateOk(r, s, t); EndCreateGrows(r, s, t);
    case DoJoin(t) => JoinOk(r, s, t); JoinWorker(r, s, t);
    case DoFinish(t) => FinishOk(r, s, t); FinishWorker(r, s, t);
  }

  lemma EndCreateGrows(r: Record, s: State, t: nat)
    requires Ready(r, s, EndCreate(t))
    ensures PointwiseLeq(s.grt, Apply(r, s, EndCreate(t)).grt)
  {
  }
}
