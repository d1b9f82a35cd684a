/** The clocks decide happens-before exactly: for any two accesses of different threads in any
    run, the two-entry comparison holds just when one comes before the other. */
module HappensBefore {
  import opened Clocks
  import opened Programs
  import opened Synchronization
  import opened Causality
  import opened Knowledge

  /** Position i is a memory access, among the first n. */
  ghost predicate Access(ops: seq<Op>, n: nat, i: nat)
    requires n <= |ops|
  {
    i < n && ops[i].IsAccess()
  }

  /** The clock of the accessing thread. An access does not change it. */
  ghost function ClockAt(ops: seq<Op>, i: nat): ThreadClock
    requires i < |ops|
  {
    if ops[i].t < |SyncAt(ops, i).clocks| then SyncAt(ops, i).clocks[ops[i].t] else Clock(0, Zero())
  }

  /** The epoch an access belongs to. */
  ghost function Epoch(ops: seq<Op>, i: nat): nat
    requires i < |ops|
  {
    if ops[i].t < MAX_THREAD_COUNT then ClockAt(ops, i).vc[ops[i].t] else 0
  }

  /** A carrier knows an access just when its entry for the thread exceeds the access's epoch,
      and then it knows all that the thread knew. */
  ghost predicate Knows(ops: seq<Op>, n: nat, x: Carrier, i: nat)
    requires n <= |ops| && Access(ops, n, i) && Live(SyncAt(ops, n), x)
  {
    ops[i].t < MAX_THREAD_COUNT &&
    (Epoch(ops, i) < Val(SyncAt(ops, n), x)[ops[i].t] <==> Below(ops, n, x, i)) &&
    (Below(ops, n, x, i) ==> PointwiseLeq(ClockAt(ops, i).vc, Val(SyncAt(ops, n), x)))
  }

  ghost predicate Faithful(ops: seq<Op>, n: nat)
    requires n <= |ops|
  {
    forall x, i: nat :: Live(SyncAt(ops, n), x) && Readable(At(ops, n), x) && Access(ops, n, i) ==> Knows(ops, n, x, i)
  }

  /** What a past access says of a thread stays true. */
  ghost predicate EntryBounded(ops: seq<Op>, n: nat, i: nat, u: nat)
    requires n <= |ops| && i < n && u < MAX_THREAD_COUNT
  {
    ClockAt(ops, i).vc[u] <= if u < |SyncAt(ops, n).clocks| then SyncAt(ops, n).clocks[u].vc[u] else 0
  }

  ghost predicate PastBounded(ops: seq<Op>, n: nat)
    requires n <= |ops|
  {
    forall i: nat, u: nat :: Access(ops, n, i) && u < MAX_THREAD_COUNT && (Gone(At(ops, n), u) ==> u == ops[i].t) ==>
      EntryBounded(ops, n, i, u)
  }

  ghost predicate TablesOk(ops: seq<Op>, n: nat)
    requires n <= |ops|
  {
    && Matches(SyncAt(ops, n), At(ops, n)) && MachineOk(At(ops, n))
    && |SyncAt(ops, n).clocks| <= MAX_THREAD_COUNT && Bounded(SyncAt(ops, n), At(ops, n))
  }

  lemma InitialTablesOk(ops: seq<Op>)
    ensures TablesOk(ops, 0)
  {
    InitialBounded();
    InitialMatches(ops);
    hide Bounded, Matches;
  }

  lemma {:induction false} RunTablesOk(ops: seq<Op>, n: nat)
    requires ValidRun(ops) && n <= |ops|
    ensures TablesOk(ops, n)
  {
    hide ValidRun, Bounded, Matches, MachineOk, SyncAt, At, SyncStep, Next, ParentOf, Accepts;
    RunMatches(ops, n);
    if n == 0 {
      InitialTablesOk(ops);
    } else {
      RunMatches(ops, n - 1);
      RunTablesOk(ops, n - 1);
      Succ(ops, n - 1);
      BoundedStep(SyncAt(ops, n - 1), At(ops, n - 1), ops[n - 1]);
    }
  }

  lemma OwnPastBelow(ops: seq<Op>, n: nat, i: nat)
    requires n <= |ops| && i < n
    ensures Below(ops, n, OfThread(ops[i].t), i)
  {
    hide HB, At;
    assert InFrontier(ops, n, OfThread(ops[i].t), i);
  }

  lemma LiveMutexTracked(s: Sync, x: Carrier)
    requires Live(s, x)
    ensures x.OfMutex? ==> x.m <= MUTEX_POINTER_LIMIT
  {
  }

  /** A past access and a carrier after one more operation. */
  lemma KnowsStep(ops: seq<Op>, n: nat, x: Carrier, i: nat)
    requires ValidRun(ops) && n < |ops| && Faithful(ops, n) && PastBounded(ops, n + 1)
    requires Live(SyncAt(ops, n + 1), x) && Readable(At(ops, n + 1), x) && Access(ops, n, i)
    ensures Knows(ops, n + 1, x, i)
  {
    hide ValidRun, SyncAt, At, Matches, MachineOk, Bounded, SyncStep, Next, Inputs, Val, Live, Readable, Below, ClockAt,
         Epoch, ParentOf, Completes, PastBounded;
    RunTablesOk(ops, n);
    Succ(ops, n);
    var s, e := SyncAt(ops, n), At(ops, n);
    LiveMutexTracked(SyncAt(ops, n + 1), x);
    StepFollows(s, e, ops[n], x);
    GathersInputs(ops, n, x, i);
    var (y, z) := Inputs(e, ops[n], x);
    assert Knows(ops, n, y, i) && Knows(ops, n, z, i);
    if x == OfThread(ops[i].t) {
      OwnEntry(ops, n + 1, i);
    }
  }

  /** A thread knows its own accesses, and its entry exceeds all their epochs. */
  lemma OwnEntry(ops: seq<Op>, n: nat, i: nat)
    requires ValidRun(ops) && n <= |ops| && Access(ops, n, i) && PastBounded(ops, n)
    requires Live(SyncAt(ops, n), OfThread(ops[i].t))
    ensures ops[i].t < MAX_THREAD_COUNT && Below(ops, n, OfThread(ops[i].t), i)
    ensures Epoch(ops, i) < Val(SyncAt(ops, n), OfThread(ops[i].t))[ops[i].t]
  {
    hide SyncAt, At, ClockAt, Below, ValidRun, Bounded, MachineOk, Gone;
    RunTablesOk(ops, n);
    OwnPastBelow(ops, n, i);
    assert EntryBounded(ops, n, i, ops[i].t);
  }

  /** An access is known to its own thread only. */
  lemma KnowsNew(ops: seq<Op>, n: nat, x: Carrier)
    requires ValidRun(ops) && n < |ops| && ops[n].IsAccess() && PastBounded(ops, n + 1)
    requires Live(SyncAt(ops, n + 1), x)
    ensures Knows(ops, n + 1, x, n)
  {
    hide ValidRun, SyncAt, At, MachineOk, Bounded, Next, Below, ParentOf, PastBounded;
    RunTablesOk(ops, n);
    RunMatches(ops, n);
    Succ(ops, n);
    var t := ops[n].t;
    assert SyncAt(ops, n + 1) == SyncAt(ops, n);
    if x == OfThread(t) {
      OwnEntry(ops, n + 1, n);
    } else {
      NewestUnknown(ops, n, x);
      EntryIsBound(SyncAt(ops, n), At(ops, n), x, t);
    }
  }

  lemma NewestUnknown(ops: seq<Op>, n: nat, x: Carrier)
    requires n < |ops| && ops[n].IsAccess() && x != OfThread(ops[n].t)
    ensures !Below(ops, n + 1, x, n)
  {
    hide At, Edge;
    forall k: nat | k < n ensures !HB(ops, n, k) {
      if HB(ops, n, k) { HBForward(ops, n, k); }
    }
  }

  lemma EntryIsBound(s: Sync, e: Machine, x: Carrier, t: nat)
    requires |s.clocks| <= MAX_THREAD_COUNT && Bounded(s, e) && Live(s, x) && x != OfThread(t) && t < |s.clocks|
             && !Gone(e, t)
    ensures Val(s, x)[t] <= s.clocks[t].vc[t]
  {
    hide Val, Live, Gone;
    assert Val(s, x)[t] <= Own(s, t);
  }

  lemma FaithfulStep(ops: seq<Op>, n: nat)
    requires ValidRun(ops) && n < |ops| && Faithful(ops, n) && PastBounded(ops, n + 1)
    ensures Faithful(ops, n + 1)
  {
    hide ValidRun, SyncAt, At, Knows, Live, Readable, PastBounded;
    var next := n + 1;
    forall x, i: nat | Live(SyncAt(ops, next), x) && Readable(At(ops, next), x) && Access(ops, next, i)
      ensures Knows(ops, next, x, i)
    {
      if i == n {
        KnowsNew(ops, n, x);
      } else {
        KnowsStep(ops, n, x, i);
      }
    }
  }

  lemma PastBoundedStep(ops: seq<Op>, n: nat)
    requires ValidRun(ops) && n < |ops| && PastBounded(ops, n)
    ensures PastBounded(ops, n + 1)
  {
    hide ValidRun, SyncAt, At, ClockAt, Gone, SyncStep, Next, ParentOf, Bounded;
    RunTablesOk(ops, n);
    Succ(ops, n);
    var s, e, op := SyncAt(ops, n), At(ops, n), ops[n];
    ThreadsAppear(s, e, op);
    var next := n + 1;
    forall i: nat, u: nat | Access(ops, next, i) && u < MAX_THREAD_COUNT && (Gone(At(ops, next), u) ==> u == ops[i].t)
      ensures EntryBounded(ops, next, i, u)
    {
      if Gone(e, u) { GoneForGood(e, op, u); }
      if u < |s.clocks| { OwnGrows(s, e, op, u); }
      if i == n {
        NewEntryBounded(ops, n, u);
      } else {
        assert EntryBounded(ops, n, i, u);
      }
    }
  }

  lemma NewEntryBounded(ops: seq<Op>, n: nat, u: nat)
    requires ValidRun(ops) && n < |ops| && ops[n].IsAccess() && u < MAX_THREAD_COUNT
    requires Gone(At(ops, n + 1), u) ==> u == ops[n].t
    ensures EntryBounded(ops, n + 1, n, u)
  {
    hide ValidRun, SyncAt, At, MachineOk, Bounded, ParentOf, Next;
    RunTablesOk(ops, n);
    RunMatches(ops, n);
    Succ(ops, n);
    if u != ops[n].t {
      if Gone(At(ops, n), u) { GoneForGood(At(ops, n), ops[n], u); }
      ThreadEntryBounded(SyncAt(ops, n), At(ops, n), ops[n].t, u);
    }
  }

  lemma ThreadEntryBounded(s: Sync, e: Machine, t: nat, u: nat)
    requires |s.clocks| <= MAX_THREAD_COUNT && Bounded(s, e) && t < |s.clocks| && s.clocks[t].threadId == t
    requires u < MAX_THREAD_COUNT && u != t && !Gone(e, u)
    ensures s.clocks[t].vc[u] <= if u < |s.clocks| then s.clocks[u].vc[u] else 0
  {
    assert Val(s, OfThread(t))[u] == s.clocks[t].vc[u];
  }

  // -------------------------------------------------------------------------------------------
  // The second entry. A thread inside a barrier has advanced but not yet received: until its round
  // is complete nobody outside the barrier has seen its new entry.

  predicate Waiting(e: Machine, t: nat): (at: bool)
    ensures at ==> t < |e.status| && e.status[t].AtBarrier?
  {
    t < |e.status| && e.status[t].AtBarrier? && e.status[t].b in e.barriers
      && e.status[t].round == e.barriers[e.status[t].b].round
  }

  predicate Leaving(e: Machine, t: nat): (at: bool)
    ensures at ==> t < |e.status| && e.status[t].AtBarrier?
  {
    t < |e.status| && e.status[t].AtBarrier? && e.status[t].b in e.barriers
      && e.status[t].round + 1 == e.barriers[e.status[t].b].round
  }

  lemma WaitingBefore(e: Machine, op: Op, t: nat)
    requires MachineOk(e) && Enabled(e, op) && Waiting(Next(e, op), t)
    ensures if t == op.t then op.BarrierEnter? && !Completes(e, op) && Next(e, op).status[t].b == op.b
            else Waiting(e, t) && Next(e, op).status[t] == e.status[t] && !(Completes(e, op) && op.b == e.status[t].b)
  {
  }

  /** How thread t came to be leaving after op. */
  predicate LeavingVia(e: Machine, op: Op, t: nat) {
    Leaving(Next(e, op), t) &&
    var b := Next(e, op).status[t].b;
    if t == op.t then Completes(e, op) && op.b == b
    else t < |e.status| && e.status[t] == Next(e, op).status[t]
         && (|| (Leaving(e, t) && Inputs(e, op, OfPrevious(b)) == (OfPrevious(b), Nobody))
             || (Waiting(e, t) && Completes(e, op) && op.b == b))
  }

  lemma LeavingAfterEnter(e: Machine, t: nat, b: nat, u: nat)
    requires MachineOk(e) && Enabled(e, BarrierEnter(t, b)) && Leaving(Next(e, BarrierEnter(t, b)), u)
    ensures LeavingVia(e, BarrierEnter(t, b), u)
  {
    if Completes(e, BarrierEnter(t, b)) {
      LastArrival(e, t, b);
    }
    hide ThreadsOk;
  }

  lemma LeavingBefore(e: Machine, op: Op, t: nat)
    requires MachineOk(e) && Enabled(e, op) && Leaving(Next(e, op), t)
    ensures LeavingVia(e, op, t)
  {
    if op.BarrierEnter? { LeavingAfterEnter(e, op.t, op.b, t); }
  }

  ghost predicate Pending(s: Sync, e: Machine)
    requires |s.clocks| == |e.status| <= MAX_THREAD_COUNT
  {
    forall t: nat, x :: Waiting(e, t) && Live(s, x) && x != OfThread(t) && x != OfCurrent(e.status[t].b) ==>
      Val(s, x)[t] < Own(s, t)
  }

  /** No input of another carrier is a waiting thread or its round. */
  lemma WaitingIsNoInput(e: Machine, op: Op, t: nat, x: Carrier)
    requires MachineOk(e) && Enabled(e, op) && Waiting(e, t) && op.t != t && x != OfThread(t)
    requires x != OfCurrent(e.status[t].b) && !(Completes(e, op) && op.b == e.status[t].b)
    ensures var (y, z) := Inputs(e, op, x);
            y != OfThread(t) && z != OfThread(t) && y != OfCurrent(e.status[t].b) && z != OfCurrent(e.status[t].b)
  {
  }

  lemma ArrivalAdvances(s: Sync, e: Machine, t: nat, b: nat)
    requires Matches(s, e) && MachineOk(e) && Enabled(e, BarrierEnter(t, b))
    ensures var s' := SyncStep(s, BarrierEnter(t, b), ParentOf(e, t));
            t < |s.clocks| == |s'.clocks| <= MAX_THREAD_COUNT && Own(s', t) == Own(s, t) + 1
  {
  }

  lemma PendingEntry(s: Sync, e: Machine, op: Op, t: nat, x: Carrier)
    requires Matches(s, e) && MachineOk(e) && Enabled(e, op) && Bounded(s, e) && Pending(s, e)
    requires var s', e' := SyncStep(s, op, ParentOf(e, op.t)), Next(e, op);
             |s'.clocks| == |e'.status| <= MAX_THREAD_COUNT &&
             Waiting(e', t) && Live(s', x) && x != OfThread(t) && x != OfCurrent(e'.status[t].b)
    ensures var s' := SyncStep(s, op, ParentOf(e, op.t)); Val(s', x)[t] < Own(s', t)
  {
    hide SyncStep, Next, Val, Matches, MachineOk, Completes, Enabled, ParentOf, Waiting, Bounded;
    WaitingBefore(e, op, t);
    StepFollows(s, e, op, x);
    WaitingThread(s, e, op, t);
    var (y, z) := Inputs(e, op, x);
    if t == op.t {
      ArrivalAdvances(s, e, t, op.b);
      hide Inputs, Live;
      EntryIsBound(s, e, y, t);
      EntryIsBound(s, e, z, t);
    } else {
      WaitingIsNoInput(e, op, t, x);
      OwnGrows(s, e, op, t);
    }
  }

  lemma WaitingThread(s: Sync, e: Machine, op: Op, t: nat)
    requires Matches(s, e) && MachineOk(e) && Enabled(e, op) && Waiting(Next(e, op), t)
    ensures t < |s.clocks| <= MAX_THREAD_COUNT && !Gone(e, t)
  {
    WaitingBefore(e, op, t);
  }

  lemma PendingStep(s: Sync, e: Machine, op: Op)
    requires Matches(s, e) && MachineOk(e) && Enabled(e, op) && Bounded(s, e) && Pending(s, e)
    ensures var s', e' := SyncStep(s, op, ParentOf(e, op.t)), Next(e, op);
            |s'.clocks| == |e'.status| <= MAX_THREAD_COUNT && Pending(s', e')
  {
    hide SyncStep, Next, Val, Completes, Enabled, ParentOf, Waiting, Bounded, Live, MachineOk;
    ThreadsAppear(s, e, op);
    StepMatches(s, e, op);
    var s', e' := SyncStep(s, op, ParentOf(e, op.t)), Next(e, op);
    forall t: nat, x | Waiting(e', t) && Live(s', x) && x != OfThread(t) && x != OfCurrent(e'.status[t].b)
      ensures Val(s', x)[t] < Own(s', t)
    {
      PendingEntry(s, e, op, t, x);
    }
  }

  /** An access of another thread has not seen this entry yet. */
  ghost predicate Unseen(ops: seq<Op>, n: nat, t: nat, i: nat)
    requires n <= |ops| && i < n
  {
    t < |SyncAt(ops, n).clocks| <= MAX_THREAD_COUNT && ClockAt(ops, i).vc[t] < Own(SyncAt(ops, n), t)
  }

  ghost predicate PendingPast(ops: seq<Op>, n: nat)
    requires n <= |ops|
  {
    forall t: nat, i: nat :: Waiting(At(ops, n), t) && Access(ops, n, i) && ops[i].t != t ==> Unseen(ops, n, t, i)
  }

  /** Access i will be ordered before what thread t does next. */
  ghost predicate Comes(ops: seq<Op>, n: nat, t: nat, i: nat)
    requires n <= |ops|
  {
    Below(ops, n, OfThread(t), i) || (Leaving(At(ops, n), t) && Below(ops, n, OfPrevious(At(ops, n).status[t].b), i))
  }

  ghost predicate Second(ops: seq<Op>, n: nat)
    requires n <= |ops|
  {
    forall t: nat, i: nat :: t < |At(ops, n).status| && Access(ops, n, i) && ops[i].t != t && Comes(ops, n, t, i) ==>
      Unseen(ops, n, t, i)
  }

  /** A thread that advances leaves all past accesses of others behind. */
  lemma AdvancedUnseen(ops: seq<Op>, n: nat, t: nat, i: nat)
    requires ValidRun(ops) && n < |ops| && Access(ops, n, i) && ops[i].t != t && PastBounded(ops, n)
             && !Gone(At(ops, n), t)
    requires t < |SyncAt(ops, n + 1).clocks| <= MAX_THREAD_COUNT
    requires t < |SyncAt(ops, n).clocks| ==> Own(SyncAt(ops, n), t) < Own(SyncAt(ops, n + 1), t)
    requires t >= |SyncAt(ops, n).clocks| ==> 0 < Own(SyncAt(ops, n + 1), t)
    ensures Unseen(ops, n + 1, t, i)
  {
    hide SyncAt, At, ClockAt, Gone, ValidRun;
    assert EntryBounded(ops, n, i, t);
  }

  lemma StillUnseen(ops: seq<Op>, n: nat, t: nat, i: nat)
    requires ValidRun(ops) && n < |ops| && Access(ops, n, i) && Unseen(ops, n, t, i)
    ensures Unseen(ops, n + 1, t, i)
  {
    hide SyncAt, At, ClockAt, ValidRun, SyncStep, Next, ParentOf, Own, Matches, MachineOk, Bounded;
    RunTablesOk(ops, n);
    Succ(ops, n);
    OwnGrows(SyncAt(ops, n), At(ops, n), ops[n], t);
  }

  lemma PendingPastEntry(ops: seq<Op>, n: nat, t: nat, i: nat)
    requires ValidRun(ops) && n < |ops| && PastBounded(ops, n) && PendingPast(ops, n)
    requires |SyncAt(ops, n).clocks| == |At(ops, n).status| <= MAX_THREAD_COUNT && Pending(SyncAt(ops, n), At(ops, n))
    requires Waiting(At(ops, n + 1), t) && Access(ops, n + 1, i) && ops[i].t != t
    ensures Unseen(ops, n + 1, t, i)
  {
    hide SyncAt, At, ClockAt, ValidRun, SyncStep, Next, ParentOf, Own, Matches, MachineOk, Bounded, Waiting, Completes,
         Pending, Gone, PastBounded, Enabled, Unseen;
    RunTablesOk(ops, n);
    Succ(ops, n);
    var s, e, op := SyncAt(ops, n), At(ops, n), ops[n];
    WaitingBefore(e, op, t);
    WaitingThread(s, e, op, t);
    if t == op.t {
      ArrivalAdvances(s, e, t, op.b);
      AdvancedUnseen(ops, n, t, i);
    } else if i < n {
      StillUnseen(ops, n, t, i);
    } else {
      NewAccessUnseen(ops, n, t);
    }
  }

  lemma NewAccessUnseen(ops: seq<Op>, n: nat, t: nat)
    requires ValidRun(ops) && n < |ops| && ops[n].IsAccess() && t != ops[n].t
    requires |SyncAt(ops, n).clocks| == |At(ops, n).status| <= MAX_THREAD_COUNT && Pending(SyncAt(ops, n), At(ops, n))
    requires Waiting(At(ops, n), t)
    ensures Unseen(ops, n + 1, t, n)
  {
    hide SyncAt, At, ValidRun, Next, ParentOf, MachineOk, Bounded;
    RunTablesOk(ops, n);
    RunMatches(ops, n);
    Succ(ops, n);
    assert Val(SyncAt(ops, n), OfThread(ops[n].t))[t] < Own(SyncAt(ops, n), t);
  }

  lemma PendingPastStep(ops: seq<Op>, n: nat)
    requires ValidRun(ops) && n < |ops| && PastBounded(ops, n) && PendingPast(ops, n)
    requires |SyncAt(ops, n).clocks| == |At(ops, n).status| <= MAX_THREAD_COUNT && Pending(SyncAt(ops, n), At(ops, n))
    ensures PendingPast(ops, n + 1)
  {
    hide SyncAt, At, ClockAt, ValidRun, Waiting, Pending, PastBounded, Unseen;
    var next := n + 1;
    forall t: nat, i: nat | Waiting(At(ops, next), t) && Access(ops, next, i) && ops[i].t != t
      ensures Unseen(ops, next, t, i)
    {
      PendingPastEntry(ops, n, t, i);
    }
  }

  /** The operations that advance their thread; the others leave its past as it was, except that
      leaving a barrier adds the round just completed. */
  predicate Advances(op: Op) {
    match op
    case Lock(_, m) => m <= MUTEX_POINTER_LIMIT
    case Unlock(_, m) => m <= MUTEX_POINTER_LIMIT
    case _ => op.Create? || op.Join? || op.BarrierEnter?
  }

  lemma AdvancesOwn(s: Sync, e: Machine, op: Op)
    requires Matches(s, e) && MachineOk(e) && Enabled(e, op) && Advances(op)
    ensures var s' := SyncStep(s, op, ParentOf(e, op.t));
            op.t < |s.clocks| <= |s'.clocks| <= MAX_THREAD_COUNT && Own(s, op.t) < Own(s', op.t) && !Gone(e, op.t)
  {
    hide BarriersOk;
  }

  lemma ChildStarts(s: Sync, e: Machine, t: nat, c: nat)
    requires Matches(s, e) && MachineOk(e) && Enabled(e, Create(t, c))
    ensures var s' := SyncStep(s, Create(t, c), ParentOf(e, t));
            c == |s.clocks| < |s'.clocks| <= MAX_THREAD_COUNT && 0 < Own(s', c) && !Gone(e, c)
  {
    hide BarriersOk;
  }

  lemma ExitingIsLeaving(e: Machine, t: nat, b: nat)
    requires MachineOk(e) && Enabled(e, BarrierExit(t, b))
    ensures Leaving(e, t) && e.status[t].b == b
  {
  }

  /** A past access that a running thread has come to know. */
  lemma SecondRunning(ops: seq<Op>, n: nat, t: nat, i: nat)
    requires ValidRun(ops) && n < |ops| && PastBounded(ops, n) && Second(ops, n)
    requires Access(ops, n, i) && ops[i].t != t && t < |At(ops, n + 1).status|
    requires Below(ops, n + 1, OfThread(t), i)
    ensures Unseen(ops, n + 1, t, i)
  {
    hide SyncAt, At, ClockAt, ValidRun, SyncStep, Next, ParentOf, Own, Matches, MachineOk, Bounded, Gone, PastBounded,
         Enabled, Unseen, Below, Leaving, Advances, Completes;
    RunTablesOk(ops, n);
    Succ(ops, n);
    var s, e, op := SyncAt(ops, n), At(ops, n), ops[n];
    GathersInputs(ops, n, OfThread(t), i);
    NobodyBelow(ops, n, i);
    SameThreads(s, e, op);
    if t == op.t {
      if Advances(op) {
        AdvancesOwn(s, e, op);
        AdvancedUnseen(ops, n, t, i);
      } else {
        if op.BarrierExit? { ExitingIsLeaving(e, t, op.b); }
        QuietSource(op);
        assert Comes(ops, n, t, i);
        StillUnseen(ops, n, t, i);
      }
    } else if op.Create? && t == op.child {
      ChildStarts(s, e, op.t, t);
      AdvancedUnseen(ops, n, t, i);
    } else {
      assert Comes(ops, n, t, i);
      StillUnseen(ops, n, t, i);
    }
  }

  lemma QuietSource(op: Op)
    ensures !Advances(op) && !op.BarrierExit? ==> Source(op) == Nobody
  {
  }

  lemma SameThreads(s: Sync, e: Machine, op: Op)
    requires Matches(s, e) && MachineOk(e) && Enabled(e, op)
    ensures |s.clocks| == |e.status| && op.t < |e.status|
    ensures |Next(e, op).status| == if op.Create? then |e.status| + 1 else |e.status|
    ensures op.Create? ==> op.child == |e.status|
  {
  }

  /** A past access of the completed round that a thread is about to receive. */
  lemma SecondLeaving(ops: seq<Op>, n: nat, t: nat, i: nat)
    requires ValidRun(ops) && n < |ops| && PastBounded(ops, n) && PendingPast(ops, n) && Second(ops, n)
    requires Access(ops, n, i) && ops[i].t != t && Leaving(At(ops, n + 1), t)
    requires Below(ops, n + 1, OfPrevious(At(ops, n + 1).status[t].b), i)
    ensures Unseen(ops, n + 1, t, i)
  {
    hide SyncAt, At, ClockAt, ValidRun, SyncStep, Next, ParentOf, Own, Matches, MachineOk, Bounded, Gone, PastBounded,
         Enabled, Unseen, Below, Completes, Waiting, Leaving, Inputs;
    RunTablesOk(ops, n);
    Succ(ops, n);
    var s, e, op := SyncAt(ops, n), At(ops, n), ops[n];
    LeavingBefore(e, op, t);
    SameThreads(s, e, op);
    if t == op.t {
      CompletesIsEnter(e, op);
      AdvancesOwn(s, e, op);
      AdvancedUnseen(ops, n, t, i);
    } else if Waiting(e, t) {
      StillUnseen(ops, n, t, i);
    } else {
      GathersInputs(ops, n, OfPrevious(At(ops, n + 1).status[t].b), i);
      NobodyBelow(ops, n, i);
      assert Comes(ops, n, t, i);
      StillUnseen(ops, n, t, i);
    }
  }

  lemma CompletesIsEnter(e: Machine, op: Op)
    ensures Completes(e, op) ==> op.BarrierEnter? && Advances(op)
  {
  }

  lemma NewAccessComesNowhere(ops: seq<Op>, n: nat, t: nat)
    requires n < |ops| && ops[n].IsAccess() && t != ops[n].t
    ensures !Comes(ops, n + 1, t, n)
  {
    hide Below, Leaving, At;
    NewestUnknown(ops, n, OfThread(t));
    if Leaving(At(ops, n + 1), t) {
      NewestUnknown(ops, n, OfPrevious(At(ops, n + 1).status[t].b));
    }
  }

  lemma SecondStep(ops: seq<Op>, n: nat)
    requires ValidRun(ops) && n < |ops| && PastBounded(ops, n) && PendingPast(ops, n) && Second(ops, n)
    ensures Second(ops, n + 1)
  {
    hide SyncAt, At, ClockAt, ValidRun, PastBounded, PendingPast, Unseen, Below, Leaving;
    var next := n + 1;
    forall t: nat, i: nat | t < |At(ops, next).status| && Access(ops, next, i) && ops[i].t != t
      && Comes(ops, next, t, i)
      ensures Unseen(ops, next, t, i)
    {
      if i == n {
        NewAccessComesNowhere(ops, n, t);
      } else if Below(ops, next, OfThread(t), i) {
        SecondRunning(ops, n, t, i);
      } else {
        SecondLeaving(ops, n, t, i);
      }
    }
  }

  // -------------------------------------------------------------------------------------------
  // Every run keeps all of it.

  ghost predicate RunOk(ops: seq<Op>, n: nat)
    requires n <= |ops|
  {
    && |SyncAt(ops, n).clocks| == |At(ops, n).status| <= MAX_THREAD_COUNT
    && Faithful(ops, n) && PastBounded(ops, n) && Pending(SyncAt(ops, n), At(ops, n)) && PendingPast(ops, n)
       && Second(ops, n)
  }

  lemma InitialRunOk(ops: seq<Op>)
    ensures RunOk(ops, 0)
  {
    InitialMatches(ops);
    hide Knows, EntryBounded, Unseen, Comes;
  }

  lemma {:induction false} EveryRunOk(ops: seq<Op>, n: nat)
    requires ValidRun(ops) && n <= |ops|
    ensures RunOk(ops, n)
  {
    hide SyncAt, At, ValidRun, PastBounded, PendingPast, Second, Faithful, Pending, Matches, MachineOk, Bounded,
         SyncStep, Next, ParentOf;
    if n == 0 {
      InitialRunOk(ops);
    } else {
      EveryRunOk(ops, n - 1);
      RunTablesOk(ops, n - 1);
      Succ(ops, n - 1);
      PendingStep(SyncAt(ops, n - 1), At(ops, n - 1), ops[n - 1]);
      PastBoundedStep(ops, n - 1);
      FaithfulStep(ops, n - 1);
      PendingPastStep(ops, n - 1);
      SecondStep(ops, n - 1);
    }
  }

  // -------------------------------------------------------------------------------------------
  // The theorems.

  /** An access at j sees exactly the earlier accesses ordered before it. */
  lemma SeesExactly(ops: seq<Op>, i: nat, j: nat)
    requires ValidRun(ops) && j < |ops| && ops[j].IsAccess() && Access(ops, j, i)
    ensures HB(ops, i, j) <==> Below(ops, j, OfThread(ops[j].t), i)
  {
    hide Below, HB, ValidRun;
    PastOf(ops, j, i);
    NobodyBelow(ops, j, i);
  }

  lemma ThreadVal(ops: seq<Op>, j: nat)
    requires ValidRun(ops) && j < |ops|
    requires ops[j].IsAccess()
    ensures ops[j].t < |At(ops, j).status| == |SyncAt(ops, j).clocks| <= MAX_THREAD_COUNT
    ensures ClockAt(ops, j) == SyncAt(ops, j).clocks[ops[j].t] && ClockAt(ops, j).threadId == ops[j].t
    ensures Live(SyncAt(ops, j), OfThread(ops[j].t)) && Readable(At(ops, j), OfThread(ops[j].t))
            && !Gone(At(ops, j), ops[j].t)
    ensures Val(SyncAt(ops, j), OfThread(ops[j].t)) == Bump(ClockAt(ops, j).vc, ops[j].t)
  {
    hide SyncAt, At, ValidRun, Bounded;
    RunTablesOk(ops, j);
    Succ(ops, j);
  }

  lemma EarlierLess(ops: seq<Op>, i: nat, j: nat)
    requires ValidRun(ops) && j < |ops| && ops[j].IsAccess() && Access(ops, j, i) && ops[i].t != ops[j].t
    ensures Less(ClockAt(ops, i), ClockAt(ops, j)) <==> HB(ops, i, j)
    ensures !Less(ClockAt(ops, j), ClockAt(ops, i))
    ensures HB(ops, i, j) ==> PointwiseLeq(ClockAt(ops, i).vc, ClockAt(ops, j).vc)
  {
    hide SyncAt, At, ValidRun, ClockAt, Below, HB, Val, Live, Readable, Gone, Pending, PendingPast;
    EveryRunOk(ops, j);
    SeesExactly(ops, i, j);
    ThreadVal(ops, i);
    ThreadVal(ops, j);
    assert Knows(ops, j, OfThread(ops[j].t), i);
    assert HB(ops, i, j) ==> Comes(ops, j, ops[j].t, i);
    assert HB(ops, i, j) ==> Unseen(ops, j, ops[j].t, i);
    assert EntryBounded(ops, j, i, ops[j].t);
  }

  /** Exactness: the comparison of the two clocks is happens-before. */
  lemma ClocksDecideHappensBefore(ops: seq<Op>, i: nat, j: nat)
    requires ValidRun(ops) && Access(ops, |ops|, i) && Access(ops, |ops|, j) && ops[i].t != ops[j].t
    ensures Less(ClockAt(ops, i), ClockAt(ops, j)) <==> HB(ops, i, j)
    ensures Concurrent(ClockAt(ops, i), ClockAt(ops, j)) <==> !HB(ops, i, j) && !HB(ops, j, i)
  {
    hide ValidRun, ClockAt, Less, HB;
    if i < j {
      EarlierLess(ops, i, j);
      if HB(ops, j, i) { HBForward(ops, j, i); }
    } else {
      EarlierLess(ops, j, i);
      if HB(ops, i, j) { HBForward(ops, i, j); }
    }
  }

  /** The two entries that are read stand for the whole pointwise comparison. */
  lemma TwoEntriesSuffice(ops: seq<Op>, i: nat, j: nat)
    requires ValidRun(ops) && Access(ops, |ops|, i) && Access(ops, |ops|, j) && ops[i].t != ops[j].t
    ensures ops[i].t < MAX_THREAD_COUNT
    ensures var l, r := ClockAt(ops, i), ClockAt(ops, j);
            Less(l, r) <==> PointwiseLeq(l.vc, r.vc) && l.vc[ops[i].t] < r.vc[ops[i].t]
  {
    hide ValidRun, ClockAt, HB, SyncAt, At, Val;
    ThreadVal(ops, i);
    ThreadVal(ops, j);
    if i < j {
      EarlierLess(ops, i, j);
      EveryRunOk(ops, j);
      SeesExactly(ops, i, j);
      assert Knows(ops, j, OfThread(ops[j].t), i);
    } else {
      EarlierLess(ops, j, i);
      EveryRunOk(ops, i);
      assert EntryBounded(ops, i, j, ops[i].t);
    }
  }

  lemma EpochsRise(ops: seq<Op>, i: nat, j: nat)
    requires ValidRun(ops) && j < |ops| && ops[j].IsAccess() && Access(ops, j, i) && ops[i].t == ops[j].t
    ensures Epoch(ops, i) <= Epoch(ops, j)
  {
    hide ValidRun, SyncAt, At, ClockAt, Faithful, Pending, PendingPast, Second, Val, Live, Readable, Gone;
    EveryRunOk(ops, j);
    ThreadVal(ops, j);
    assert EntryBounded(ops, j, i, ops[i].t);
  }

  /** Between accesses of one thread the comparison is that of the epochs, and follows the run. */
  lemma SameThreadLess(ops: seq<Op>, i: nat, j: nat)
    requires ValidRun(ops) && Access(ops, |ops|, i) && Access(ops, |ops|, j) && ops[i].t == ops[j].t
    ensures Less(ClockAt(ops, i), ClockAt(ops, j)) <==> Epoch(ops, i) < Epoch(ops, j)
    ensures Epoch(ops, i) < Epoch(ops, j) ==> i < j && HB(ops, i, j)
    ensures i < j ==> HB(ops, i, j) && Epoch(ops, i) <= Epoch(ops, j)
  {
    hide ValidRun, ClockAt, HB, SyncAt, At, Live, Readable, Gone, Val;
    ThreadVal(ops, i);
    ThreadVal(ops, j);
    if i < j {
      EpochsRise(ops, i, j);
      assert Edge(ops, i, j);
      EdgeIsHB(ops, i, j);
    } else if j < i {
      EpochsRise(ops, j, i);
    }
  }

  /** If two accesses of a thread have one of another thread between them, they are of different epochs. */
  lemma ThroughAnother(ops: seq<Op>, i: nat, j: nat, k: nat)
    requires ValidRun(ops) && Access(ops, |ops|, i) && Access(ops, |ops|, j) && Access(ops, |ops|, k)
    requires ops[i].t == ops[k].t != ops[j].t && j < k
    requires Less(ClockAt(ops, i), ClockAt(ops, j))
    ensures Epoch(ops, i) < Epoch(ops, k)
  {
    hide ValidRun, HB, SyncAt, At, ClockAt, Live, Readable, Gone, Val, Faithful, Pending, PendingPast, Second;
    ThreadVal(ops, i);
    ThreadVal(ops, j);
    ThreadVal(ops, k);
    EveryRunOk(ops, k);
    assert EntryBounded(ops, k, j, ops[k].t);
  }

  /** On the clocks of a run the comparison is transitive. */
  lemma LessIsTransitive(ops: seq<Op>, i: nat, j: nat, k: nat)
    requires ValidRun(ops) && Access(ops, |ops|, i) && Access(ops, |ops|, j) && Access(ops, |ops|, k)
    requires Less(ClockAt(ops, i), ClockAt(ops, j)) && Less(ClockAt(ops, j), ClockAt(ops, k))
    ensures Less(ClockAt(ops, i), ClockAt(ops, k))
  {
    hide ValidRun, HB, ClockAt, Less, Epoch;
    if ops[i].t == ops[j].t { SameThreadLess(ops, i, j); } else { ClocksDecideHappensBefore(ops, i, j); }
    if ops[j].t == ops[k].t { SameThreadLess(ops, j, k); } else { ClocksDecideHappensBefore(ops, j, k); }
    HBForward(ops, i, j);
    HBForward(ops, j, k);
    HBTransitive(ops, i, j, k);
    if ops[i].t != ops[k].t {
      ClocksDecideHappensBefore(ops, i, k);
    } else {
      SameThreadLess(ops, i, k);
      if ops[j].t == ops[k].t { EpochsOfThree(ops, i, j, k); } else { ThroughAnother(ops, i, j, k); }
    }
  }

  lemma EpochsOfThree(ops: seq<Op>, i: nat, j: nat, k: nat)
    requires ValidRun(ops) && Access(ops, |ops|, i) && Access(ops, |ops|, j) && Access(ops, |ops|, k)
    requires ops[i].t == ops[j].t == ops[k].t && Less(ClockAt(ops, i), ClockAt(ops, j))
             && Less(ClockAt(ops, j), ClockAt(ops, k))
    ensures Epoch(ops, i) < Epoch(ops, k)
  {
    hide ValidRun, ClockAt, Less, Epoch;
    SameThreadLess(ops, i, j);
    SameThreadLess(ops, j, k);
  }

  // -------------------------------------------------------------------------------------------
  // Mutexes the detector ignores.

  /** The edges of the program itself, which include the hand-overs of every mutex. */
  ghost predicate SyncEdge(ops: seq<Op>, i: nat, j: nat)
    requires j < |ops|
  {
    Edge(ops, i, j) || (i < j && ops[i].Unlock? && ops[j].Lock? && ops[i].m == ops[j].m)
  }

  ghost predicate Before(ops: seq<Op>, i: nat, j: nat)
    requires j < |ops|
    decreases j
  {
    exists k :: i <= k < j && SyncEdge(ops, k, j) && (k == i || Before(ops, i, k))
  }

  predicate MutexesTracked(ops: seq<Op>) {
    forall k :: 0 <= k < |ops| && ops[k].Lock? ==> ops[k].m <= 0x40000000
  }

  lemma TrackedEdge(ops: seq<Op>, i: nat, j: nat)
    requires j < |ops| && MutexesTracked(ops) && SyncEdge(ops, i, j)
    ensures Edge(ops, i, j)
  {
  }

  lemma {:induction false} TrackedOrder(ops: seq<Op>, i: nat, j: nat)
    requires j < |ops|
    ensures HB(ops, i, j) ==> Before(ops, i, j)
    ensures MutexesTracked(ops) && Before(ops, i, j) ==> HB(ops, i, j)
    decreases j
  {
    hide Edge, MutexesTracked;
    if HB(ops, i, j) {
      var k :| i <= k < j && Edge(ops, k, j) && (k == i || HB(ops, i, k));
      TrackedOrder(ops, i, k);
      assert SyncEdge(ops, k, j);
    }
    if MutexesTracked(ops) && Before(ops, i, j) {
      var k :| i <= k < j && SyncEdge(ops, k, j) && (k == i || Before(ops, i, k));
      TrackedOrder(ops, i, k);
      TrackedEdge(ops, k, j);
    }
  }

  /** Against the program's own order: what the clocks order is ordered in every run, and with every
      mutex below the pointer limit they order all that is ordered. */
  lemma ClocksDecideProgramOrder(ops: seq<Op>, i: nat, j: nat)
    requires ValidRun(ops) && Access(ops, |ops|, i) && Access(ops, |ops|, j) && ops[i].t != ops[j].t
    ensures Less(ClockAt(ops, i), ClockAt(ops, j)) ==> Before(ops, i, j)
    ensures MutexesTracked(ops) ==> (Less(ClockAt(ops, i), ClockAt(ops, j)) <==> Before(ops, i, j))
  {
    hide ValidRun, ClockAt, Less, HB, Before, MutexesTracked;
    ClocksDecideHappensBefore(ops, i, j);
    TrackedOrder(ops, i, j);
  }

  /** Thread 0 writes under a mutex at address h, then thread 1 reads under the same mutex. */
  function HandOver(h: nat, a: nat): seq<Op> {
    [Create(0, 1), Lock(0, h), Write(0, a), Unlock(0, h), Lock(1, h), Read(1, a)]
  }

  lemma HandOverIsValid(h: nat, a: nat)
    ensures ValidRun(HandOver(h, a))
  {
    var ops := HandOver(h, a);
    assert At(ops, 1) == Machine([Running, Running], [-1, 0], map[], map[]);
    assert At(ops, 2) == Machine([Running, Running], [-1, 0], map[h := 0], map[]);
    assert At(ops, 3) == At(ops, 2);
    assert At(ops, 4) == At(ops, 1);
    assert At(ops, 5) == Machine([Running, Running], [-1, 0], map[h := 1], map[]);
    forall n | 0 <= n < |ops| ensures EnabledAt(ops, n) {
    }
  }

  /** The program orders the two accesses of a hand-over, whatever the mutex. */
  lemma HandOverIsOrdered(h: nat, a: nat)
    ensures Before(HandOver(h, a), 2, 5)
  {
    hide RoundOf;
    var ops := HandOver(h, a);
    assert SyncEdge(ops, 2, 3) && SyncEdge(ops, 3, 4) && SyncEdge(ops, 4, 5);
    assert Before(ops, 2, 3);
    assert Before(ops, 2, 4);
  }

  /** The hand-over orders the two accesses, and the detector sees it exactly when the mutex is not
      above the pointer limit; above it, the clocks call properly locked accesses concurrent. */
  lemma HandOverSeenUpToLimit(h: nat, a: nat)
    ensures ValidRun(HandOver(h, a)) && Before(HandOver(h, a), 2, 5)
    ensures Concurrent(ClockAt(HandOver(h, a), 2), ClockAt(HandOver(h, a), 5)) <==> h > 0x40000000
  {
    hide ClockAt, ValidRun, At, SyncAt;
    HandOverIsValid(h, a);
    HandOverIsOrdered(h, a);
    var ops := HandOver(h, a);
    ClocksDecideHappensBefore(ops, 2, 5);
    if h <= MUTEX_POINTER_LIMIT {
      assert Edge(ops, 2, 3) && Edge(ops, 3, 4) && Edge(ops, 4, 5);
      assert HB(ops, 2, 3);
      assert HB(ops, 2, 4);
      assert HB(ops, 2, 5);
    } else {
      assert !HB(ops, 2, 3) || Edge(ops, 2, 3);
      assert !Edge(ops, 2, 4) && !Edge(ops, 3, 4);
      assert !HB(ops, 2, 4);
      assert !Edge(ops, 2, 5) && !Edge(ops, 3, 5);
      assert !HB(ops, 2, 5);
      if HB(ops, 5, 2) { HBForward(ops, 5, 2); }
    }
  }

  predicate LocksOnly(ops: seq<Op>, mutexes: iset<nat>) {
    forall k :: 0 <= k < |ops| && ops[k].Lock? ==> ops[k].m in mutexes
  }

  /** On a run the comparison is the order of the program, for all accesses of different threads. */
  ghost predicate OrderDecided(ops: seq<Op>) {
    forall i: nat, j: nat :: Access(ops, |ops|, i) && Access(ops, |ops|, j) && ops[i].t != ops[j].t ==>
      (Less(ClockAt(ops, i), ClockAt(ops, j)) <==> Before(ops, i, j))
  }

  /** The exact condition on the mutexes of a program: the comparison is its order in every run just
      when none of them lies above the pointer limit. */
  lemma LimitIsExact(mutexes: iset<nat>)
    ensures (forall ops: seq<Op> :: ValidRun(ops) && LocksOnly(ops, mutexes) ==> OrderDecided(ops)) <==>
            (forall m :: m in mutexes ==> m <= 0x40000000)
  {
    hide ValidRun, OrderDecided;
    if forall m :: m in mutexes ==> m <= 0x40000000 {
      forall ops: seq<Op> | ValidRun(ops) && LocksOnly(ops, mutexes) ensures OrderDecided(ops) {
        WithinLimitDecided(ops);
      }
    } else {
      var h :| h in mutexes && h > 0x40000000;
      HandOverUndecided(h);
      assert LocksOnly(HandOver(h, 0), mutexes);
    }
  }

  lemma WithinLimitDecided(ops: seq<Op>)
    requires ValidRun(ops) && MutexesTracked(ops)
    ensures OrderDecided(ops)
  {
    hide ValidRun, ClockAt, Less, Before, MutexesTracked;
    forall i: nat, j: nat | Access(ops, |ops|, i) && Access(ops, |ops|, j) && ops[i].t != ops[j].t
      ensures Less(ClockAt(ops, i), ClockAt(ops, j)) <==> Before(ops, i, j)
    {
      ClocksDecideProgramOrder(ops, i, j);
    }
  }

  lemma HandOverUndecided(h: nat)
    requires h > 0x40000000
    ensures ValidRun(HandOver(h, 0)) && !OrderDecided(HandOver(h, 0))
  {
    hide ValidRun, ClockAt, Less, Before;
    HandOverSeenUpToLimit(h, 0);
    var ops := HandOver(h, 0);
    assert Access(ops, |ops|, 2) && Access(ops, |ops|, 5) && ops[2].t != ops[5].t;
  }
}
