/** What the detector reports: in every run, a race is reported exactly when two conflicting
    accesses are unordered, one in the epoch being closed, one in a retained epoch. */
module RaceReports {
  import opened Optional
  import opened Clocks
  import opened Detection
  import opened Programs
  import opened Synchronization
  import opened Causality
  import opened Knowledge
  import opened HappensBefore
  import opened Recorder

  /** The addresses thread t read in its epoch o, among the first n operations. */
  ghost function ReadSet(ops: seq<Op>, n: nat, t: nat, o: nat): set<nat>
    requires n <= |ops|
  {
    set i: nat | i < n && ops[i].Read? && ops[i].t == t && Epoch(ops, i) == o :: ops[i].a
  }

  ghost function WriteSet(ops: seq<Op>, n: nat, t: nat, o: nat): set<nat>
    requires n <= |ops|
  {
    set i: nat | i < n && ops[i].Write? && ops[i].t == t && Epoch(ops, i) == o :: ops[i].a
  }

  /** A signature stands for one epoch of thread u: its addresses and the clock of all its accesses. */
  ghost predicate Describes(ops: seq<Op>, n: nat, u: nat, g: Signature)
    requires n <= |ops|
  {
    && g.tid == u == g.ts.threadId < MAX_THREAD_COUNT
    && g.r == ReadSet(ops, n, u, g.ts.vc[u]) && g.w == WriteSet(ops, n, u, g.ts.vc[u])
    && (forall i: nat :: Access(ops, n, i) && ops[i].t == u && Epoch(ops, i) == g.ts.vc[u] ==> ClockAt(ops, i) == g.ts)
  }

  ghost predicate Closed(s: Sync, e: Machine, u: nat, o: nat)
    requires u < |s.clocks| == |e.status| <= MAX_THREAD_COUNT
  {
    o < Own(s, u) || (o == Own(s, u) && e.status[u] in {Finished, Joined})
  }

  ghost predicate OpenEpochOk(ops: seq<Op>, n: nat, t: nat)
    requires n <= |ops|
  {
    var s := StateAt(ops, n);
    && t < |At(ops, n).status| == |s.sync.clocks| <= MAX_THREAD_COUNT && SameTables(s)
    && Describes(ops, n, t, SignatureOf(s, t))
    && (At(ops, n).status[t].AtBarrier? ==>
          forall i: nat :: Access(ops, n, i) && ops[i].t == t ==> Epoch(ops, i) != Own(s.sync, t))
  }

  ghost predicate HistoryOf(ops: seq<Op>, n: nat, u: nat)
    requires n <= |ops|
  {
    var s := StateAt(ops, n);
    && u < |At(ops, n).status| == |s.sync.clocks| <= MAX_THREAD_COUNT && u < |s.queues|
    && (forall k :: 0 <= k < |s.queues[u]| ==>
          Describes(ops, n, u, s.queues[u][k]) && s.queues[u][k].IsDirty()
            && Closed(s.sync, At(ops, n), u, s.queues[u][k].ts.vc[u]))
    && (forall k, k' :: 0 <= k < k' < |s.queues[u]| ==> s.queues[u][k'].ts.vc[u] < s.queues[u][k].ts.vc[u])
  }

  ghost predicate DetectorOk(ops: seq<Op>, n: nat)
    requires n <= |ops|
  {
    forall t: nat :: t < |At(ops, n).status| ==> OpenEpochOk(ops, n, t) && HistoryOf(ops, n, t)
  }

  /** A closed epoch of u gains no access. */
  lemma DescribesLater(ops: seq<Op>, n: nat, u: nat, g: Signature)
    requires ValidRun(ops) && n < |ops| && Describes(ops, n, u, g)
    requires ops[n].IsAccess() && ops[n].t == u ==> Epoch(ops, n) != g.ts.vc[u]
    ensures Describes(ops, n + 1, u, g)
  {
    hide ValidRun, Epoch, ClockAt;
    assert ReadSet(ops, n + 1, u, g.ts.vc[u]) == ReadSet(ops, n, u, g.ts.vc[u]);
    assert WriteSet(ops, n + 1, u, g.ts.vc[u]) == WriteSet(ops, n, u, g.ts.vc[u]);
  }

  /** The accesses behind a dirty signature. */
  lemma DirtyHasAccess(ops: seq<Op>, n: nat, u: nat, g: Signature) returns (i: nat)
    requires n <= |ops| && Describes(ops, n, u, g) && g.IsDirty()
    ensures Access(ops, n, i) && ops[i].t == u && Epoch(ops, i) == g.ts.vc[u] && ClockAt(ops, i) == g.ts
  {
    hide Epoch, ClockAt;
    if g.r != {} {
      var a :| a in g.r;
      i :| i < n && ops[i].Read? && ops[i].t == u && Epoch(ops, i) == g.ts.vc[u] && ops[i].a == a;
    } else {
      var a :| a in g.w;
      i :| i < n && ops[i].Write? && ops[i].t == u && Epoch(ops, i) == g.ts.vc[u] && ops[i].a == a;
    }
  }

  lemma Tables(ops: seq<Op>, n: nat)
    requires ValidRun(ops) && n < |ops|
    ensures var s, e, op := StateAt(ops, n), At(ops, n), ops[n];
            && SameTables(s) && s.sync == SyncAt(ops, n) && Accepts(s.sync, op) && op.t < |s.queues|
            && Matches(s.sync, e) && MachineOk(e) && Bounded(s.sync, e)
               && |s.sync.clocks| == |e.status| <= MAX_THREAD_COUNT
            && Enabled(e, op) && At(ops, n + 1) == Next(e, op)
            && SameTables(StateAt(ops, n + 1))
               && StateAt(ops, n + 1).sync == SyncAt(ops, n + 1) == SyncStep(s.sync, op, ParentOf(e, op.t))
            && StateAt(ops, n + 1) == Step(s, op, ParentOf(e, op.t))
  {
    hide ValidRun, SyncAt, StateAt, At, SyncStep, Step, MachineOk, Bounded, Enabled, Next;
    StateHasSync(ops, n);
    StateHasSync(ops, n + 1);
    StateSucc(ops, n);
    RunTablesOk(ops, n);
    RunMatches(ops, n);
    Succ(ops, n);
  }

  /** Everything but the thread's own synchronisation leaves its clock alone. */
  predicate LeavesAlone(op: Op, t: nat) {
    t != op.t || op.Finish? || (!Closes(op) && !op.IsAccess() && !op.BarrierExit?)
  }

  lemma KeepsClock(s: Sync, e: Machine, op: Op, t: nat)
    requires Matches(s, e) && MachineOk(e) && Enabled(e, op) && t < |s.clocks|
    requires LeavesAlone(op, t) || op.IsAccess()
    ensures var s', e' := SyncStep(s, op, ParentOf(e, op.t)), Next(e, op);
            && t < |s'.clocks| == |e'.status| <= MAX_THREAD_COUNT && s'.clocks[t] == s.clocks[t]
            && (e'.status[t].AtBarrier? ==> e.status[t].AtBarrier?)
  {
    hide BarriersOk;
  }

  lemma OpenEpochLeftAlone(ops: seq<Op>, n: nat, t: nat)
    requires ValidRun(ops) && n < |ops| && t < |At(ops, n).status| && OpenEpochOk(ops, n, t) && LeavesAlone(ops[n], t)
    ensures OpenEpochOk(ops, n + 1, t)
  {
    hide ValidRun, SyncAt, StateAt, At, Epoch, ClockAt, Bounded, Describes, QueuesAfter, RacesOf, Step, Accepts,
         MachineOk, SyncStep, Next, Enabled, Matches;
    Tables(ops, n);
    var s, s', e, op := StateAt(ops, n), StateAt(ops, n + 1), At(ops, n), ops[n];
    KeepsClock(s.sync, e, op, t);
    StepTables(s, op, ParentOf(e, op.t));
    DescribesLater(ops, n, t, SignatureOf(s, t));
    assert SignatureOf(s', t) == SignatureOf(s, t);
  }

  /** The address sets of an epoch after one more access of it. */
  lemma SetsGrow(ops: seq<Op>, n: nat)
    requires n < |ops| && ops[n].IsAccess()
    ensures var op, o := ops[n], Epoch(ops, n);
            && ReadSet(ops, n + 1, op.t, o) == ReadSet(ops, n, op.t, o) + (if op.Read? then {op.a} else {})
            && WriteSet(ops, n + 1, op.t, o) == WriteSet(ops, n, op.t, o) + (if op.Write? then {op.a} else {})
  {
    hide Epoch, ClockAt;
  }

  lemma DescribesGrown(ops: seq<Op>, n: nat, g: Signature, g': Signature)
    requires n < |ops| && ops[n].IsAccess() && Describes(ops, n, ops[n].t, g)
    requires ClockAt(ops, n) == g.ts && Epoch(ops, n) == g.ts.vc[ops[n].t]
    requires g' == g.(r := g.r + (if ops[n].Read? then {ops[n].a} else {}),
             w := g.w + (if ops[n].Write? then {ops[n].a} else {}))
    ensures Describes(ops, n + 1, ops[n].t, g')
  {
    hide Epoch, ClockAt, ReadSet, WriteSet;
    SetsGrow(ops, n);
    forall i: nat | Access(ops, n + 1, i) && ops[i].t == ops[n].t && Epoch(ops, i) == g.ts.vc[ops[n].t]
      ensures ClockAt(ops, i) == g.ts
    {
      assert i == n || Access(ops, n, i);
    }
  }

  lemma OpenEpochGrows(ops: seq<Op>, n: nat)
    requires ValidRun(ops) && n < |ops| && ops[n].IsAccess() && ops[n].t < |At(ops, n).status|
             && OpenEpochOk(ops, n, ops[n].t)
    ensures OpenEpochOk(ops, n + 1, ops[n].t)
  {
    hide ValidRun, SyncAt, StateAt, At, Epoch, ClockAt, Bounded, QueuesAfter, RacesOf, Step, Accepts, MachineOk,
         SyncStep, Next, Enabled, Matches, Describes, Access;
    Tables(ops, n);
    var s, s', e, op := StateAt(ops, n), StateAt(ops, n + 1), At(ops, n), ops[n];
    KeepsClock(s.sync, e, op, op.t);
    StepTables(s, op, ParentOf(e, op.t));
    RunningAccess(ops, n);
    OwnIs(s.sync, op.t);
    DescribesGrown(ops, n, SignatureOf(s, op.t), SignatureOf(s', op.t));
  }

  lemma RunningAccess(ops: seq<Op>, n: nat)
    requires ValidRun(ops) && n < |ops| && ops[n].IsAccess()
    ensures var t := ops[n].t;
            && t < |At(ops, n).status| == |SyncAt(ops, n).clocks| <= MAX_THREAD_COUNT && At(ops, n).status[t] == Running
            && ClockAt(ops, n) == SyncAt(ops, n).clocks[t] && Epoch(ops, n) == Own(SyncAt(ops, n), t)
  {
    hide ValidRun, SyncAt, At;
    Succ(ops, n);
    RunMatches(ops, n);
  }

  /** No access so far is of the epoch that starts now. */
  lemma FreshEpoch(ops: seq<Op>, n: nat, t: nat, g: Signature)
    requires n <= |ops| && g.tid == t == g.ts.threadId && g.r == {} && g.w == {}
    requires forall i: nat :: Access(ops, n, i) && ops[i].t == t ==> Epoch(ops, i) != g.ts.vc[t]
    ensures Describes(ops, n, t, g)
  {
    hide Epoch, ClockAt;
    assert forall i: nat :: i < n && ops[i].IsAccess() ==> Access(ops, n, i);
  }

  lemma PastEpochs(ops: seq<Op>, n: nat, i: nat)
    requires ValidRun(ops) && n <= |ops| && Access(ops, n, i)
    ensures ops[i].t < |SyncAt(ops, n).clocks| <= MAX_THREAD_COUNT && Epoch(ops, i) <= Own(SyncAt(ops, n), ops[i].t)
  {
    hide SyncAt, At, ValidRun, ClockAt, Faithful, Pending, PendingPast, Second, Gone, MachineOk, Bounded;
    EveryRunOk(ops, n);
    RunHistory(ops, n);
    RunMatches(ops, n);
    assert EntryBounded(ops, n, i, ops[i].t);
  }

  /** A thread that has closed its epoch is in a new one. */
  lemma ClosingAdvances(s: Sync, e: Machine, op: Op)
    requires Closes(op) && !op.Finish?
    ensures Advances(op)
  {
  }

  lemma OpenEpochStarts(ops: seq<Op>, n: nat)
    requires ValidRun(ops) && n < |ops| && Closes(ops[n]) && !ops[n].Finish?
    ensures OpenEpochOk(ops, n + 1, ops[n].t)
  {
    hide ValidRun, SyncAt, StateAt, At, Epoch, ClockAt, Bounded, QueuesAfter, RacesOf, Step, Accepts, MachineOk,
         SyncStep, Next, Enabled, Advances, Own, Gone, Describes;
    Tables(ops, n);
    RunMatches(ops, n + 1);
    var s, e, op := StateAt(ops, n), At(ops, n), ops[n];
    var s' := StateAt(ops, n + 1);
    ClosingAdvances(s.sync, e, op);
    AdvancesOwn(s.sync, e, op);
    StepTables(s, op, ParentOf(e, op.t));
    forall i: nat | Access(ops, n + 1, i) && ops[i].t == op.t ensures Epoch(ops, i) != Own(s'.sync, op.t) {
      PastEpochs(ops, n, i);
    }
    OwnIs(s'.sync, op.t);
    FreshEpoch(ops, n + 1, op.t, SignatureOf(s', op.t));
  }

  lemma OwnIs(s: Sync, t: nat)
    requires t < |s.clocks| <= MAX_THREAD_COUNT
    ensures Own(s, t) == s.clocks[t].vc[t]
  {
  }

  lemma OpenEpochChild(ops: seq<Op>, n: nat)
    requires ValidRun(ops) && n < |ops| && ops[n].Create?
    ensures OpenEpochOk(ops, n + 1, ops[n].child)
  {
    hide ValidRun, SyncAt, StateAt, At, Epoch, ClockAt, Bounded, QueuesAfter, RacesOf, Step, Accepts, MachineOk,
         SyncStep, Next, Enabled, Own, Gone, Describes;
    Tables(ops, n);
    RunMatches(ops, n + 1);
    var s, e, op := StateAt(ops, n), At(ops, n), ops[n];
    StepTables(s, op, ParentOf(e, op.t));
    SameThreads(s.sync, e, op);
    ChildStarts(s.sync, e, op.t, op.child);
    forall i: nat | Access(ops, n + 1, i) ensures ops[i].t != op.child {
      PastEpochs(ops, n, i);
    }
    OwnIs(StateAt(ops, n + 1).sync, op.child);
    FreshEpoch(ops, n + 1, op.child, SignatureOf(StateAt(ops, n + 1), op.child));
  }

  lemma ExitKeepsOwn(s: Sync, e: Machine, t: nat, b: nat)
    requires Matches(s, e) && MachineOk(e) && Enabled(e, BarrierExit(t, b)) && |s.clocks| <= MAX_THREAD_COUNT
             && Bounded(s, e)
    ensures var s', e' := SyncStep(s, BarrierExit(t, b), ParentOf(e, t)), Next(e, BarrierExit(t, b));
            && t < |s.clocks| == |s'.clocks| == |e'.status| && Own(s', t) == Own(s, t) && e'.status[t] == Running
               && e.status[t].AtBarrier?
  {
    assert Val(s, OfPrevious(b))[t] <= Own(s, t);
    hide Bounded;
  }

  lemma OpenEpochExit(ops: seq<Op>, n: nat)
    requires ValidRun(ops) && n < |ops| && ops[n].BarrierExit? && ops[n].t < |At(ops, n).status|
             && OpenEpochOk(ops, n, ops[n].t)
    ensures OpenEpochOk(ops, n + 1, ops[n].t)
  {
    hide ValidRun, SyncAt, StateAt, At, Epoch, ClockAt, Bounded, QueuesAfter, RacesOf, Step, Accepts, MachineOk,
         SyncStep, Next, Enabled, Own;
    Tables(ops, n);
    RunMatches(ops, n + 1);
    var s, e, op := StateAt(ops, n), At(ops, n), ops[n];
    StepTables(s, op, ParentOf(e, op.t));
    ExitKeepsOwn(s.sync, e, op.t, op.b);
    OwnIs(s.sync, op.t);
    OwnIs(StateAt(ops, n + 1).sync, op.t);
    forall i: nat | i < n && ops[i].IsAccess() && ops[i].t == op.t ensures Epoch(ops, i) != Own(s.sync, op.t) {
      assert Access(ops, n, i);
    }
    assert ReadSet(ops, n, op.t, Own(s.sync, op.t)) == {};
    assert WriteSet(ops, n, op.t, Own(s.sync, op.t)) == {};
    FreshEpoch(ops, n + 1, op.t, SignatureOf(StateAt(ops, n + 1), op.t));
  }

  // -------------------------------------------------------------------------------------------
  // The histories.

  lemma StaysClosed(s: Sync, e: Machine, op: Op, u: nat, o: nat)
    requires Matches(s, e) && MachineOk(e) && Enabled(e, op) && u < |s.clocks| == |e.status| <= MAX_THREAD_COUNT
             && Closed(s, e, u, o)
    ensures var s', e' := SyncStep(s, op, ParentOf(e, op.t)), Next(e, op);
            u < |s'.clocks| == |e'.status| <= MAX_THREAD_COUNT && Closed(s', e', u, o)
  {
    OwnGrows(s, e, op, u);
    EndedKeepsClock(s, e, op, u);
    hide BarriersOk, SyncStep;
    StepMatches(s, e, op);
  }

  lemma EndedKeepsClock(s: Sync, e: Machine, op: Op, u: nat)
    requires Matches(s, e) && MachineOk(e) && Enabled(e, op) && u < |s.clocks| == |e.status| <= MAX_THREAD_COUNT
    ensures var s', e' := SyncStep(s, op, ParentOf(e, op.t)), Next(e, op);
            u < |s'.clocks| <= MAX_THREAD_COUNT
              && (e.status[u] in {Finished, Joined} ==> u != op.t && Own(s', u) == Own(s, u))
  {
    hide BarriersOk;
  }

  /** A closed epoch receives no access: its thread has ended or moved on. */
  lemma ClosedTakesNoAccess(ops: seq<Op>, n: nat, u: nat, o: nat)
    requires ValidRun(ops) && n < |ops| && ops[n].IsAccess() && ops[n].t == u
    requires u < |SyncAt(ops, n).clocks| == |At(ops, n).status| <= MAX_THREAD_COUNT
             && Closed(SyncAt(ops, n), At(ops, n), u, o)
    ensures Epoch(ops, n) != o
  {
    hide ValidRun, SyncAt, At, Epoch, ClockAt, Own;
    RunningAccess(ops, n);
  }

  /** An old entry of a history after one more operation. */
  lemma EntryKept(ops: seq<Op>, n: nat, u: nat, g: Signature)
    requires ValidRun(ops) && n < |ops| && Describes(ops, n, u, g)
    requires u < |SyncAt(ops, n).clocks| == |At(ops, n).status| <= MAX_THREAD_COUNT
             && Closed(SyncAt(ops, n), At(ops, n), u, g.ts.vc[u])
    ensures u < |SyncAt(ops, n + 1).clocks| == |At(ops, n + 1).status| <= MAX_THREAD_COUNT
    ensures Describes(ops, n + 1, u, g) && Closed(SyncAt(ops, n + 1), At(ops, n + 1), u, g.ts.vc[u])
  {
    hide ValidRun, SyncAt, StateAt, At, Epoch, ClockAt, Bounded, Describes, Step, Accepts, MachineOk, SyncStep, Next,
         Enabled, Matches, Closed;
    Tables(ops, n);
    StaysClosed(SyncAt(ops, n), At(ops, n), ops[n], u, g.ts.vc[u]);
    if ops[n].IsAccess() && ops[n].t == u { ClosedTakesNoAccess(ops, n, u, g.ts.vc[u]); }
    DescribesLater(ops, n, u, g);
  }

  lemma HistoryKept(ops: seq<Op>, n: nat, u: nat)
    requires ValidRun(ops) && n < |ops| && u < |At(ops, n).status| && HistoryOf(ops, n, u)
    requires u < |StateAt(ops, n + 1).queues| && u < |StateAt(ops, n).queues|
             && StateAt(ops, n + 1).queues[u] == StateAt(ops, n).queues[u]
    ensures HistoryOf(ops, n + 1, u)
  {
    hide ValidRun, SyncAt, StateAt, At, Epoch, ClockAt, Bounded, Describes, Step, Accepts, MachineOk, SyncStep, Next,
         Enabled, Matches, Closed, SameTables;
    Tables(ops, n);
    MatchingSizes(ops, n + 1);
    forall k | 0 <= k < |StateAt(ops, n).queues[u]|
      ensures u < |SyncAt(ops, n + 1).clocks|
      ensures Describes(ops, n + 1, u, StateAt(ops, n).queues[u][k])
      ensures Closed(SyncAt(ops, n + 1), At(ops, n + 1), u, StateAt(ops, n).queues[u][k].ts.vc[u])
    {
      DescribesIsOf(ops, n, u, StateAt(ops, n).queues[u][k]);
      EntryKept(ops, n, u, StateAt(ops, n).queues[u][k]);
    }
    assert u < |At(ops, n + 1).status| by { MatchingSizes(ops, n); GrowingRun(ops, n); }
  }

  lemma GrowingRun(ops: seq<Op>, n: nat)
    requires ValidRun(ops) && n < |ops|
    ensures |At(ops, n).status| <= |At(ops, n + 1).status|
  {
    hide ValidRun, At, Enabled, MachineOk, Next;
    AtSucc(ops, n);
    RunKeepsMachineOk(ops, n);
    NextGrows(At(ops, n), ops[n]);
  }

  /** The signature that is pushed when an epoch closes. */
  lemma ClosingEntry(ops: seq<Op>, n: nat)
    requires ValidRun(ops) && n < |ops| && Closes(ops[n]) && ops[n].t < |At(ops, n).status|
             && OpenEpochOk(ops, n, ops[n].t)
    ensures var u := ops[n].t;
            && SameTables(StateAt(ops, n)) && u < |StateAt(ops, n).queues| && At(ops, n).status[u] == Running
            && u < |SyncAt(ops, n + 1).clocks| == |At(ops, n + 1).status| <= MAX_THREAD_COUNT
            && var g := SignatureOf(StateAt(ops, n), u);
            Describes(ops, n + 1, u, g) && Closed(SyncAt(ops, n + 1), At(ops, n + 1), u, g.ts.vc[u])
  {
    hide ValidRun, SyncAt, StateAt, At, Epoch, ClockAt, Bounded, Describes, Step, Accepts, MachineOk, SyncStep, Next,
         Enabled, Matches;
    Tables(ops, n);
    MatchingSizes(ops, n + 1);
    ClosingMoves(SyncAt(ops, n), At(ops, n), ops[n]);
    DescribesLater(ops, n, ops[n].t, SignatureOf(StateAt(ops, n), ops[n].t));
  }

  lemma ClosingMoves(s: Sync, e: Machine, op: Op)
    requires Matches(s, e) && MachineOk(e) && Enabled(e, op) && Closes(op)
             && |s.clocks| == |e.status| <= MAX_THREAD_COUNT
    ensures op.t < |e.status| && e.status[op.t] == Running
    ensures var s', e' := SyncStep(s, op, ParentOf(e, op.t)), Next(e, op);
            && op.t < |s'.clocks| <= MAX_THREAD_COUNT && op.t < |e'.status| && |s'.clocks| == |e'.status|
            && Closed(s', e', op.t, s.clocks[op.t].vc[op.t])
  {
    hide BarriersOk;
  }

  lemma HistoryPushed(ops: seq<Op>, n: nat)
    requires ValidRun(ops) && n < |ops| && Closes(ops[n]) && ops[n].t < |At(ops, n).status|
    requires OpenEpochOk(ops, n, ops[n].t) && HistoryOf(ops, n, ops[n].t)
    requires SameTables(StateAt(ops, n)) && SignatureOf(StateAt(ops, n), ops[n].t).IsDirty()
    requires ops[n].t < |StateAt(ops, n + 1).queues| && ops[n].t < |StateAt(ops, n).queues|
    requires StateAt(ops, n + 1).queues[ops[n].t] ==
             Push(StateAt(ops, n).queues[ops[n].t], SignatureOf(StateAt(ops, n), ops[n].t))
    ensures HistoryOf(ops, n + 1, ops[n].t)
  {
    hide ValidRun, SyncAt, StateAt, At, Epoch, ClockAt, Bounded, Describes, Step, Accepts, MachineOk, SyncStep, Next,
         Enabled, Matches;
    Tables(ops, n);
    ClosingEntry(ops, n);
    var u, q := ops[n].t, StateAt(ops, n).queues[ops[n].t];
    forall k | 0 <= k < |q|
      ensures u < |SyncAt(ops, n + 1).clocks|
      ensures Describes(ops, n + 1, u, q[k]) && Closed(SyncAt(ops, n + 1), At(ops, n + 1), u, q[k].ts.vc[u])
    {
      DescribesIsOf(ops, n, u, q[k]);
      EntryKept(ops, n, u, q[k]);
    }
  }

  lemma DescribesIsOf(ops: seq<Op>, n: nat, u: nat, g: Signature)
    requires n <= |ops| && Describes(ops, n, u, g)
    ensures u < MAX_THREAD_COUNT
  {
  }

  lemma MatchingSizes(ops: seq<Op>, n: nat)
    requires ValidRun(ops) && n <= |ops|
    ensures |At(ops, n).status| == |SyncAt(ops, n).clocks| <= MAX_THREAD_COUNT
  {
    hide ValidRun, SyncAt, At, Bounded, MachineOk;
    RunTablesOk(ops, n);
  }

  lemma HistoryChild(ops: seq<Op>, n: nat)
    requires ValidRun(ops) && n < |ops| && ops[n].Create?
    ensures HistoryOf(ops, n + 1, ops[n].child)
  {
    hide ValidRun, SyncAt, StateAt, At, Bounded, Describes, Step, Accepts, MachineOk, SyncStep, Next, Enabled, Matches,
         QueuesAfter, RacesOf;
    Tables(ops, n);
    MatchingSizes(ops, n + 1);
    StepTables(StateAt(ops, n), ops[n], ParentOf(At(ops, n), ops[n].t));
    QueueAfter(StateAt(ops, n), ops[n], 0);
    SameThreads(SyncAt(ops, n), At(ops, n), ops[n]);
  }

  lemma HistoryStep(ops: seq<Op>, n: nat, u: nat)
    requires ValidRun(ops) && n < |ops| && u < |At(ops, n).status| && OpenEpochOk(ops, n, u) && HistoryOf(ops, n, u)
    ensures HistoryOf(ops, n + 1, u)
  {
    hide ValidRun, SyncAt, StateAt, At, Bounded, Describes, Step, Accepts, MachineOk, SyncStep, Next, Enabled, Matches,
         QueuesAfter, RacesOf, Closed, Closes, Push, HistoryOf;
    Tables(ops, n);
    MatchingSizes(ops, n);
    StepTables(StateAt(ops, n), ops[n], ParentOf(At(ops, n), ops[n].t));
    QueueAfter(StateAt(ops, n), ops[n], u);
    if u == ops[n].t && Closes(ops[n]) && SignatureOf(StateAt(ops, n), u).IsDirty() {
      HistoryPushed(ops, n);
    } else {
      HistoryKept(ops, n, u);
    }
  }

  lemma DetectorStep(ops: seq<Op>, n: nat, t: nat)
    requires ValidRun(ops) && n < |ops| && DetectorOk(ops, n) && t < |At(ops, n + 1).status|
    ensures OpenEpochOk(ops, n + 1, t) && HistoryOf(ops, n + 1, t)
  {
    hide ValidRun, SyncAt, StateAt, At, Bounded, Step, Accepts, MachineOk, SyncStep, Next, Enabled, Matches,
         OpenEpochOk, HistoryOf, SameTables;
    Tables(ops, n);
    var op := ops[n];
    SameThreads(SyncAt(ops, n), At(ops, n), op);
    if op.Create? && t == op.child {
      OpenEpochChild(ops, n);
      HistoryChild(ops, n);
    } else {
      HistoryStep(ops, n, t);
      if LeavesAlone(op, t) { OpenEpochLeftAlone(ops, n, t); }
      else if op.IsAccess() { OpenEpochGrows(ops, n); }
      else if op.BarrierExit? { OpenEpochExit(ops, n); }
      else { OpenEpochStarts(ops, n); }
    }
  }

  lemma InitialDetectorOk(ops: seq<Op>)
    ensures DetectorOk(ops, 0)
  {
    assert SignatureOf(StateAt(ops, 0), 0).r == ReadSet(ops, 0, 0, 1);
    assert SignatureOf(StateAt(ops, 0), 0).w == WriteSet(ops, 0, 0, 1);
  }

  lemma {:induction false} EveryDetectorOk(ops: seq<Op>, n: nat)
    requires ValidRun(ops) && n <= |ops|
    ensures DetectorOk(ops, n)
  {
    hide ValidRun, SyncAt, StateAt, At, OpenEpochOk, HistoryOf;
    if n == 0 {
      InitialDetectorOk(ops);
    } else {
      EveryDetectorOk(ops, n - 1);
      forall t: nat | t < |At(ops, n).status| ensures OpenEpochOk(ops, n, t) && HistoryOf(ops, n, t) {
        DetectorStep(ops, n - 1, t);
      }
    }
  }

  // -------------------------------------------------------------------------------------------
  // The early exit loses nothing.

  /** The history entries that closing an epoch compares against. */
  ghost predicate ClosesDirty(ops: seq<Op>, n: nat)
    requires n < |ops|
  {
    var s := StateAt(ops, n);
    Closes(ops[n]) && SameTables(s) && ops[n].t < |s.queues| && SignatureOf(s, ops[n].t).IsDirty()
  }

  /** Ordered entries of another thread's history are ordered before the closing epoch, and so are all older ones. */
  lemma OlderStayOrdered(ops: seq<Op>, n: nat, u: nat, k: nat, k': nat)
    requires ValidRun(ops) && n < |ops| && ClosesDirty(ops, n)
    requires u < |At(ops, n).status| && u != ops[n].t && u < |StateAt(ops, n).queues|
             && k < k' < |StateAt(ops, n).queues[u]|
    requires Concurrent(SignatureOf(StateAt(ops, n), ops[n].t).ts, StateAt(ops, n).queues[u][k'].ts)
    ensures Concurrent(SignatureOf(StateAt(ops, n), ops[n].t).ts, StateAt(ops, n).queues[u][k].ts)
  {
    hide ValidRun, SyncAt, StateAt, At, Epoch, ClockAt, Bounded, Step, Accepts, MachineOk, SyncStep, Next, Matches, HB,
         Less;
    var t := ops[n].t;
    Tables(ops, n);
    ClosingRuns(ops, n);
    EveryDetectorOk(ops, n);
    var e, q := SignatureOf(StateAt(ops, n), t), StateAt(ops, n).queues[u];
    assert OpenEpochOk(ops, n, t) && HistoryOf(ops, n, u);
    var j := DirtyHasAccess(ops, n, t, e);
    var i := DirtyHasAccess(ops, n, u, q[k]);
    var i' := DirtyHasAccess(ops, n, u, q[k']);
    ClocksDecideHappensBefore(ops, i, j);
    ClocksDecideHappensBefore(ops, i', j);
    if HB(ops, i, j) {
      EpochOrder(ops, i', i);
      HBForward(ops, i, j);
      HBTransitive(ops, i', i, j);
    } else if HB(ops, j, i) {
      NotAfterClosing(ops, n, j, i);
    }
  }

  lemma ClosingRuns(ops: seq<Op>, n: nat)
    requires ValidRun(ops) && n < |ops| && Closes(ops[n])
    ensures ops[n].t < |At(ops, n).status| == |SyncAt(ops, n).clocks| <= MAX_THREAD_COUNT
            && At(ops, n).status[ops[n].t] == Running
  {
    hide ValidRun, SyncAt, At, Bounded, MachineOk;
    Succ(ops, n);
    RunTablesOk(ops, n);
  }

  lemma EpochOrder(ops: seq<Op>, i: nat, j: nat)
    requires ValidRun(ops) && Access(ops, |ops|, i) && Access(ops, |ops|, j) && ops[i].t == ops[j].t
             && Epoch(ops, i) < Epoch(ops, j)
    ensures i < j && HB(ops, i, j)
  {
    hide ValidRun, Epoch, HB;
    if j < i { EpochsRise(ops, j, i); }
    assert Edge(ops, i, j);
    EdgeIsHB(ops, i, j);
  }

  /** An access of the closing epoch is not ordered before an earlier operation of another thread. */
  lemma NotAfterClosing(ops: seq<Op>, n: nat, j: nat, i: nat)
    requires ValidRun(ops) && n < |ops| && Closes(ops[n]) && Access(ops, n, j) && Access(ops, n, i)
    requires ops[j].t == ops[n].t != ops[i].t < MAX_THREAD_COUNT
    requires ops[n].t < |SyncAt(ops, n).clocks| <= MAX_THREAD_COUNT && Epoch(ops, j) == Own(SyncAt(ops, n), ops[n].t)
    ensures !HB(ops, j, i)
  {
    hide ValidRun, SyncAt, At, ClockAt, Faithful, Pending, PendingPast, Second, HB;
    ClosingRuns(ops, n);
    EveryRunOk(ops, n);
    assert EntryBounded(ops, n, i, ops[n].t);
    ClocksDecideHappensBefore(ops, j, i);
    ThreadVal(ops, i);
    ThreadVal(ops, j);
  }

  lemma PrefixInEveryHistory(ops: seq<Op>, n: nat, v: nat)
    requires ValidRun(ops) && n < |ops| && ClosesDirty(ops, n)
    requires v < |QueuesAfter(StateAt(ops, n), ops[n])| && v != ops[n].t
    ensures UnorderedIsPrefix(SignatureOf(StateAt(ops, n), ops[n].t), QueuesAfter(StateAt(ops, n), ops[n])[v])
  {
    hide ValidRun, SyncAt, StateAt, At, Step, Accepts, MachineOk, SyncStep, Next, Matches, Concurrent, QueuesAfter,
         Closes;
    Tables(ops, n);
    MatchingSizes(ops, n);
    var s, e := StateAt(ops, n), SignatureOf(StateAt(ops, n), ops[n].t);
    QueueAfter(s, ops[n], ops[n].t);
    if v < |s.queues| {
      QueueAfter(s, ops[n], v);
      forall k, k' | 0 <= k < k' < |s.queues[v]| && Concurrent(e.ts, s.queues[v][k'].ts)
        ensures Concurrent(e.ts, s.queues[v][k].ts)
      {
        OlderStayOrdered(ops, n, v, k, k');
      }
    }
  }

  /** The scan with its early exit reports in every run what the full scan would. */
  lemma EarlyExitLosesNothing(ops: seq<Op>, n: nat)
    requires ValidRun(ops) && n < |ops| && ClosesDirty(ops, n)
    ensures RacesOf(StateAt(ops, n), ops[n]) != [] <==>
            RacesWithRetained(SignatureOf(StateAt(ops, n), ops[n].t), QueuesAfter(StateAt(ops, n), ops[n]))
  {
    hide ValidRun, StateAt, UnorderedIsPrefix, Closes, Concurrent, Conflict, Push;
    var s, e := StateAt(ops, n), SignatureOf(StateAt(ops, n), ops[n].t);
    var qs := QueuesAfter(s, ops[n]);
    forall v | 0 <= v < |qs| && v != e.tid ensures UnorderedIsPrefix(e, qs[v]) {
      PrefixInEveryHistory(ops, n, v);
    }
    ScanFinds(e, qs, 0);
  }

  // -------------------------------------------------------------------------------------------
  // Reports and races.

  predicate Conflicting(a: Op, b: Op) {
    a.IsAccess() && b.IsAccess() && a.a == b.a && (a.Write? || b.Write?)
  }

  /** The access is of an epoch whose signature is still in its thread's history. */
  ghost predicate Retained(ops: seq<Op>, n: nat, i: nat)
    requires n <= |ops| && i < n
  {
    var qs, u := StateAt(ops, n).queues, ops[i].t;
    u < |qs| && u < MAX_THREAD_COUNT && exists k :: 0 <= k < |qs[u]| && qs[u][k].ts.vc[u] == Epoch(ops, i)
  }

  /** A real race that closing the epoch of operation n can see. */
  ghost predicate RacePair(ops: seq<Op>, n: nat, i: nat, j: nat)
    requires n < |ops|
  {
    && Access(ops, n, i) && Access(ops, n, j)
    && ops[j].t == ops[n].t && ops[n].t < |SyncAt(ops, n).clocks| <= MAX_THREAD_COUNT
       && Epoch(ops, j) == Own(SyncAt(ops, n), ops[n].t)
    && ops[i].t != ops[n].t && Retained(ops, n, i)
    && Conflicting(ops[i], ops[j]) && !HB(ops, i, j) && !HB(ops, j, i)
  }

  lemma AccessIsInSets(ops: seq<Op>, n: nat, u: nat, g: Signature, i: nat)
    requires n <= |ops| && Describes(ops, n, u, g) && Access(ops, n, i) && ops[i].t == u && Epoch(ops, i) == g.ts.vc[u]
    ensures ops[i].a in (if ops[i].Read? then g.r else g.w) && g.IsDirty()
  {
    hide Epoch, ClockAt;
  }

  lemma SetsHaveAccess(ops: seq<Op>, n: nat, u: nat, g: Signature, a: nat, written: bool) returns (i: nat)
    requires n <= |ops| && Describes(ops, n, u, g) && a in (if written then g.w else g.r)
    ensures Access(ops, n, i) && ops[i].t == u && Epoch(ops, i) == g.ts.vc[u] && ClockAt(ops, i) == g.ts
    ensures ops[i].a == a && ops[i].Write? == written
  {
    hide Epoch, ClockAt;
    if written {
      i :| i < n && ops[i].Write? && ops[i].t == u && Epoch(ops, i) == g.ts.vc[u] && ops[i].a == a;
    } else {
      i :| i < n && ops[i].Read? && ops[i].t == u && Epoch(ops, i) == g.ts.vc[u] && ops[i].a == a;
    }
  }

  lemma EntriesGiveRace(ops: seq<Op>, n: nat, u: nat, k: nat, kind: Kind)
    returns (i: nat, j: nat)
    requires ValidRun(ops) && n < |ops| && ClosesDirty(ops, n)
    requires u < |At(ops, n).status| && u != ops[n].t && u < |StateAt(ops, n).queues| && k < |StateAt(ops, n).queues[u]|
    requires var e, o := SignatureOf(StateAt(ops, n), ops[n].t), StateAt(ops, n).queues[u][k];
             Concurrent(e.ts, o.ts) && KindIs(e, o, kind)
    ensures RacePair(ops, n, i, j) && ops[i].t == u && Epoch(ops, i) == StateAt(ops, n).queues[u][k].ts.vc[u]
    ensures match kind
            case ReadWrite => ops[j].Read? && ops[i].Write?
            case WriteRead => ops[j].Write? && ops[i].Read?
            case WriteWrite => ops[j].Write? && ops[i].Write?
  {
    hide ValidRun, SyncAt, StateAt, At, Epoch, ClockAt, Bounded, Step, Accepts, MachineOk, SyncStep, Next, Matches, HB,
         Less, Concurrent, Describes;
    var t := ops[n].t;
    Tables(ops, n);
    ClosingRuns(ops, n);
    EveryDetectorOk(ops, n);
    var e, o := SignatureOf(StateAt(ops, n), t), StateAt(ops, n).queues[u][k];
    assert OpenEpochOk(ops, n, t) && HistoryOf(ops, n, u);
    DescribesIsOf(ops, n, u, o);
    var common := match kind case ReadWrite => e.r * o.w case WriteRead => e.w * o.r
      case WriteWrite => e.w * o.w;
    var a :| a in common;
    j := SetsHaveAccess(ops, n, t, e, a, !kind.ReadWrite?);
    i := SetsHaveAccess(ops, n, u, o, a, !kind.WriteRead?);
    ClocksDecideHappensBefore(ops, j, i);
  }

  /** A racing access of a retained epoch makes its entry unordered with the closing one, and clash. */
  lemma RaceAtEntry(ops: seq<Op>, n: nat, i: nat, j: nat, k: nat)
    requires ValidRun(ops) && n < |ops| && Closes(ops[n]) && RacePair(ops, n, i, j)
    requires ops[i].t < MAX_THREAD_COUNT && ops[i].t < |StateAt(ops, n).queues|
             && k < |StateAt(ops, n).queues[ops[i].t]|
    requires StateAt(ops, n).queues[ops[i].t][k].ts.vc[ops[i].t] == Epoch(ops, i)
    ensures ClosesDirty(ops, n)
    ensures var e, o := SignatureOf(StateAt(ops, n), ops[n].t), StateAt(ops, n).queues[ops[i].t][k];
            Concurrent(e.ts, o.ts) && Clashes(e, o)
  {
    hide ValidRun, SyncAt, StateAt, At, Epoch, ClockAt, Bounded, Step, Accepts, MachineOk, SyncStep, Next, Matches, HB,
         Less, Concurrent, Describes, Closes;
    var t, u := ops[n].t, ops[i].t;
    Tables(ops, n);
    ClosingRuns(ops, n);
    EveryDetectorOk(ops, n);
    var e, o := SignatureOf(StateAt(ops, n), t), StateAt(ops, n).queues[u][k];
    assert OpenEpochOk(ops, n, t) && HistoryOf(ops, n, u);
    DescribesClock(ops, n, u, o, i);
    DescribesClock(ops, n, t, e, j);
    AccessIsInSets(ops, n, u, o, i);
    AccessIsInSets(ops, n, t, e, j);
    ClocksDecideHappensBefore(ops, j, i);
    var a := ops[i].a;
    assert ops[j].Read? ==> a in e.r * o.w;
    assert ops[i].Read? ==> a in e.w * o.r;
    assert ops[j].Write? && ops[i].Write? ==> a in e.w * o.w;
  }

  lemma RaceGivesEntries(ops: seq<Op>, n: nat, i: nat, j: nat)
    requires ValidRun(ops) && n < |ops| && Closes(ops[n]) && RacePair(ops, n, i, j)
    ensures ClosesDirty(ops, n)
    ensures RacesWithRetained(SignatureOf(StateAt(ops, n), ops[n].t), QueuesAfter(StateAt(ops, n), ops[n]))
  {
    hide ValidRun, SyncAt, StateAt, At, Epoch, Own, Concurrent, QueuesAfter, Closes, Conflict, Clashes, HB;
    var u := ops[i].t;
    var k :| 0 <= k < |StateAt(ops, n).queues[u]| && StateAt(ops, n).queues[u][k].ts.vc[u] == Epoch(ops, i);
    RaceAtEntry(ops, n, i, j, k);
    var e, o := SignatureOf(StateAt(ops, n), ops[n].t), StateAt(ops, n).queues[u][k];
    QueueAfter(StateAt(ops, n), ops[n], u);
    ClashesConflict(e, o);
    assert QueuesAfter(StateAt(ops, n), ops[n])[u][k] == o;
  }

  lemma DescribesClock(ops: seq<Op>, n: nat, u: nat, g: Signature, i: nat)
    requires n <= |ops| && Describes(ops, n, u, g) && Access(ops, n, i) && ops[i].t == u && Epoch(ops, i) == g.ts.vc[u]
    ensures ClockAt(ops, i) == g.ts && g.tid == u
  {
    hide Epoch, ClockAt;
  }

  /** A report is made exactly when an access of the closing epoch races with one of an epoch that the
      histories retain. Which epochs those are is a matter of the run alone, too: see RetainedIffKept. */
  lemma ReportsExactlyTheRaces(ops: seq<Op>, n: nat)
    requires ValidRun(ops) && n < |ops|
    ensures StateAt(ops, n + 1).races != StateAt(ops, n).races <==>
            Closes(ops[n]) && exists i: nat, j: nat :: RacePair(ops, n, i, j)
  {
    hide ValidRun, SyncAt, StateAt, At, Bounded, Step, Accepts, MachineOk, SyncStep, Next, Matches, Closes, RacePair,
         Concurrent, Conflict;
    Tables(ops, n);
    MatchingSizes(ops, n);
    StepTables(StateAt(ops, n), ops[n], ParentOf(At(ops, n), ops[n].t));
    if Closes(ops[n]) {
      QueueAfter(StateAt(ops, n), ops[n], ops[n].t);
      if ClosesDirty(ops, n) {
        EarlyExitLosesNothing(ops, n);
        ScannedEntriesGiveRace(ops, n);
      }
      if i: nat, j: nat :| RacePair(ops, n, i, j) {
        RaceGivesEntries(ops, n, i, j);
      }
    }
  }

  lemma ScannedEntriesGiveRace(ops: seq<Op>, n: nat)
    requires ValidRun(ops) && n < |ops| && ClosesDirty(ops, n)
    ensures RacesWithRetained(SignatureOf(StateAt(ops, n), ops[n].t), QueuesAfter(StateAt(ops, n), ops[n])) ==>
              exists i: nat, j: nat :: RacePair(ops, n, i, j)
  {
    hide ValidRun, SyncAt, StateAt, At, Bounded, Step, Accepts, MachineOk, SyncStep, Next, Matches, Closes, RacePair,
         Concurrent, Conflict, QueuesAfter, KindIs, ConflictKind;
    Tables(ops, n);
    MatchingSizes(ops, n);
    var e, qs := SignatureOf(StateAt(ops, n), ops[n].t), QueuesAfter(StateAt(ops, n), ops[n]);
    QueueAfter(StateAt(ops, n), ops[n], ops[n].t);
    if RacesWithRetained(e, qs) {
      var u, k :| 0 <= u < |qs| && u != e.tid && 0 <= k < |qs[u]| && Concurrent(e.ts, qs[u][k].ts)
        && Conflict(e, qs[u][k]);
      if u < |StateAt(ops, n).queues| {
        QueueAfter(StateAt(ops, n), ops[n], u);
        ClashesConflict(e, qs[u][k]);
        var i, j := EntriesGiveRace(ops, n, u, k, ConflictKind(e, qs[u][k]));
      }
    }
  }

  /** Which entry a report is about, and what it says of it. */
  lemma ReportedEntry(ops: seq<Op>, n: nat) returns (kind: Kind, v: nat, k: nat)
    requires ValidRun(ops) && n < |ops| && StateAt(ops, n + 1).races != StateAt(ops, n).races
    ensures ClosesDirty(ops, n) && Closes(ops[n])
    ensures v < |At(ops, n).status| && v != ops[n].t && v < |StateAt(ops, n).queues| && k < |StateAt(ops, n).queues[v]|
    ensures StateAt(ops, n + 1).races == StateAt(ops, n).races + [Race(kind, ops[n].t, v)]
    ensures var e, o := SignatureOf(StateAt(ops, n), ops[n].t), StateAt(ops, n).queues[v][k];
            KindIs(e, o, kind) && Concurrent(e.ts, o.ts) && FirstClash(e, QueuesAfter(StateAt(ops, n), ops[n]), 0, v, k)
  {
    hide ValidRun, SyncAt, StateAt, At, Bounded, Step, Accepts, MachineOk, SyncStep, Next, Matches, Closes, Concurrent,
         Conflict, QueuesAfter, Scan, Push, KindIs, Clashes;
    Tables(ops, n);
    MatchingSizes(ops, n);
    StepTables(StateAt(ops, n), ops[n], ParentOf(At(ops, n), ops[n].t));
    var e, qs := SignatureOf(StateAt(ops, n), ops[n].t), QueuesAfter(StateAt(ops, n), ops[n]);
    ReportIsScan(StateAt(ops, n), ops[n]);
    ScanNames(e, qs, 0);
    QueueAfter(StateAt(ops, n), ops[n], ops[n].t);
    var r := Scan(e, qs, 0).value;
    kind := r.kind;
    v, k :| FirstClash(e, qs, 0, v, k) && Tells(r, e, qs[v][k]);
    assert v < |StateAt(ops, n).queues|;
    QueueAfter(StateAt(ops, n), ops[n], v);
    EntryThread(ops, n, v, k);
  }

  /** A reported race names the two threads and the kinds of two accesses that really race. */
  lemma ReportsAreTruthful(ops: seq<Op>, n: nat) returns (i: nat, j: nat)
    requires ValidRun(ops) && n < |ops| && StateAt(ops, n + 1).races != StateAt(ops, n).races
    ensures RacePair(ops, n, i, j)
    ensures var r := if ops[j].Read? then ReadWrite else if ops[i].Read? then WriteRead else WriteWrite;
            StateAt(ops, n + 1).races == StateAt(ops, n).races + [Race(r, ops[j].t, ops[i].t)]
  {
    hide ValidRun, SyncAt, StateAt, At, Concurrent, QueuesAfter, Retained, HB, Epoch, KindIs, FirstClash, ClosesDirty;
    var kind, v, k := ReportedEntry(ops, n);
    i, j := EntriesGiveRace(ops, n, v, k, kind);
  }

  lemma EntryThread(ops: seq<Op>, n: nat, u: nat, k: nat)
    requires ValidRun(ops) && n <= |ops| && u < |At(ops, n).status| && u < |StateAt(ops, n).queues|
             && k < |StateAt(ops, n).queues[u]|
    ensures StateAt(ops, n).queues[u][k].tid == u
  {
    hide ValidRun, SyncAt, StateAt, At, Closed, SameTables;
    EveryDetectorOk(ops, n);
    assert HistoryOf(ops, n, u);
  }

  lemma ReportIsScan(s: State, op: Op)
    requires SameTables(s) && op.t < |s.queues| && RacesOf(s, op) != []
    ensures Closes(op) && SignatureOf(s, op.t).IsDirty()
    ensures Scan(SignatureOf(s, op.t), QueuesAfter(s, op), 0).Some?
    ensures RacesOf(s, op) == [Scan(SignatureOf(s, op.t), QueuesAfter(s, op), 0).value]
  {
    hide Closes, Scan, Push;
  }

  // -------------------------------------------------------------------------------------------
  // What is retained.

  /** All signatures thread u has handed over, newest first. */
  ghost function HandedOver(ops: seq<Op>, n: nat, u: nat): Queue
    requires n <= |ops|
  {
    if n == 0 then []
    else if ops[n - 1].t == u && ClosesDirty(ops, n - 1)
         then [SignatureOf(StateAt(ops, n - 1), u)] + HandedOver(ops, n - 1, u)
    else HandedOver(ops, n - 1, u)
  }

  function Newest(q: Queue): Queue {
    if |q| <= 16 then q else q[..16]
  }

  /** A history is the sixteen newest of the thread's dirty epochs, in order. */
  lemma {:induction false} HistoriesKeepTheNewest(ops: seq<Op>, n: nat, u: nat)
    requires ValidRun(ops) && n <= |ops| && u < |StateAt(ops, n).queues|
    ensures StateAt(ops, n).queues[u] == Newest(HandedOver(ops, n, u))
  {
    hide ValidRun, SyncAt, StateAt, At, Bounded, Step, Accepts, MachineOk, SyncStep, Next, Matches, Closes, QueuesAfter,
         RacesOf;
    if n == 0 {
      StartsEmpty(ops);
    } else {
      Tables(ops, n - 1);
      var s := StateAt(ops, n - 1);
      StepTables(s, ops[n - 1], ParentOf(At(ops, n - 1), ops[n - 1].t));
      QueueAfter(s, ops[n - 1], ops[n - 1].t);
      if u < |s.queues| {
        HistoriesKeepTheNewest(ops, n - 1, u);
        QueueAfter(s, ops[n - 1], u);
      } else {
        NotYetStarted(ops, n - 1, u);
      }
    }
  }

  lemma StartsEmpty(ops: seq<Op>)
    ensures StateAt(ops, 0).queues == [[]]
  {
  }

  lemma {:induction false} NotYetStarted(ops: seq<Op>, n: nat, u: nat)
    requires ValidRun(ops) && n < |ops| && |StateAt(ops, n).queues| <= u
    ensures HandedOver(ops, n, u) == [] && !(ops[n].t == u && ClosesDirty(ops, n))
  {
    hide ValidRun, SyncAt, StateAt, At, Bounded, Step, Accepts, MachineOk, SyncStep, Next, Matches, Closes, QueuesAfter,
         RacesOf, SameTables;
    if n > 0 {
      Tables(ops, n - 1);
      StepTables(StateAt(ops, n - 1), ops[n - 1], ParentOf(At(ops, n - 1), ops[n - 1].t));
      NotYetStarted(ops, n - 1, u);
    }
  }
}
