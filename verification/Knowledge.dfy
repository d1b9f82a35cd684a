/** How the clock in every carrier follows from the clocks in its two inputs, and which
    bounds on the entries every run keeps. */
module Knowledge {
  import opened Clocks
  import opened Programs
  import opened Synchronization
  import opened Causality

  /** The carriers that exist; mutexes the detector ignores are not among them. */
  predicate Live(s: Sync, x: Carrier) {
    match x
    case Nobody => true
    case OfThread(t) => t < |s.clocks|
    case OfMutex(m) => m <= MUTEX_POINTER_LIMIT
    case OfCurrent(b) => b in s.barriers
    case OfPrevious(b) => b in s.barriers
  }

  /** The record of a held mutex has been consumed and says nothing. */
  predicate Readable(e: Machine, x: Carrier) {
    x.OfMutex? ==> x.m !in e.holder
  }

  /** What an operation that receives from x learns. A thread publishes its clock advanced. */
  function Val(s: Sync, x: Carrier): Vec
    requires Live(s, x)
  {
    match x
    case Nobody => Zero()
    case OfThread(t) => if s.clocks[t].threadId == t then Bump(s.clocks[t].vc, t) else Zero()
    case OfMutex(m) => if m in s.unlocked && s.unlocked[m].tid.Some? then s.unlocked[m].clock.vc else Zero()
    case OfCurrent(b) => s.barriers[b].vc
    case OfPrevious(b) => s.barriers[b].previous
  }

  function Own(s: Sync, u: nat): nat
    requires u < |s.clocks| <= MAX_THREAD_COUNT
  {
    s.clocks[u].vc[u]
  }

  predicate Gone(e: Machine, u: nat) {
    u < |e.status| && e.status[u] == Joined
  }

  /** Nobody knows more of a thread than the thread itself, unless it has been joined. */
  ghost predicate Bounded(s: Sync, e: Machine)
    requires |s.clocks| <= MAX_THREAD_COUNT
  {
    forall x, u :: Live(s, x) && 0 <= u < MAX_THREAD_COUNT && x != OfThread(u) && !Gone(e, u) ==>
      Val(s, x)[u] <= if u < |s.clocks| then Own(s, u) else 0
  }

  /** The relation between the clock of x after an operation and its two inputs before. */
  ghost predicate Follows(s: Sync, e: Machine, op: Op, x: Carrier)
    requires |s.clocks| <= MAX_THREAD_COUNT
  {
    var (y, z) := Inputs(e, op, x);
    var s' := SyncStep(s, op, ParentOf(e, op.t));
    && Live(s, y) && Live(s, z) && Live(s', x)
    && (Readable(Next(e, op), x) ==> Readable(e, y) && Readable(e, z) && AtLeast(Val(s', x), Val(s, y), Val(s, z)))
    && AtMost(x, Val(s', x), Val(s, y), Val(s, z))
  }

  ghost predicate AtLeast(v: Vec, a: Vec, b: Vec) {
    forall u :: 0 <= u < MAX_THREAD_COUNT ==> Max(a[u], b[u]) <= v[u]
  }

  /** Only a thread itself advances its own entry. */
  ghost predicate AtMost(x: Carrier, v: Vec, a: Vec, b: Vec) {
    forall u :: 0 <= u < MAX_THREAD_COUNT && x != OfThread(u) ==> v[u] <= Max(a[u], b[u])
  }

  lemma KeptFollows(s: Sync, e: Machine, op: Op, x: Carrier)
    requires |s.clocks| <= MAX_THREAD_COUNT && Inputs(e, op, x) == (x, Nobody) && Live(s, x)
    requires Readable(Next(e, op), x) ==> Readable(e, x)
    requires var s' := SyncStep(s, op, ParentOf(e, op.t)); Live(s', x) && Val(s', x) == Val(s, x)
    ensures Follows(s, e, op, x)
  {
    hide SyncStep, Next;
  }

  lemma CreateFollows(s: Sync, e: Machine, t: nat, c: nat, x: Carrier)
    requires Matches(s, e) && MachineOk(e) && Enabled(e, Create(t, c)) && Bounded(s, e)
    requires Live(SyncStep(s, Create(t, c), ParentOf(e, t)), x)
    ensures Follows(s, e, Create(t, c), x)
  {
    hide BarriersOk;
    if x == OfThread(c) {
      assert Val(s, OfThread(t))[c] == 0;
    } else if x != OfThread(t) {
      KeptFollows(s, e, Create(t, c), x);
    }
  }

  lemma JoinerFollows(s: Sync, e: Machine, t: nat, c: nat)
    requires Matches(s, e) && MachineOk(e) && Enabled(e, Join(t, c)) && Bounded(s, e)
    ensures Follows(s, e, Join(t, c), OfThread(t))
  {
    hide BarriersOk;
    assert Val(s, OfThread(t))[c] <= Own(s, c);
    assert Val(s, OfThread(c))[t] <= Own(s, t);
  }

  lemma JoinFollows(s: Sync, e: Machine, t: nat, c: nat, x: Carrier)
    requires Matches(s, e) && MachineOk(e) && Enabled(e, Join(t, c)) && Bounded(s, e)
    requires Live(SyncStep(s, Join(t, c), ParentOf(e, t)), x)
    ensures Follows(s, e, Join(t, c), x)
  {
    hide BarriersOk, Bounded, Follows;
    if x == OfThread(t) {
      JoinerFollows(s, e, t, c);
    } else {
      KeptFollows(s, e, Join(t, c), x);
    }
  }

  lemma AcquirerFollows(s: Sync, e: Machine, t: nat, m: nat)
    requires Matches(s, e) && MachineOk(e) && Enabled(e, Lock(t, m)) && Bounded(s, e)
    ensures Follows(s, e, Lock(t, m), OfThread(t))
  {
    hide MachineOk, Bounded;
    ReleaseBounded(s, e, t, m);
  }

  lemma ReleaseBounded(s: Sync, e: Machine, t: nat, m: nat)
    requires Matches(s, e) && MachineOk(e) && Enabled(e, Lock(t, m)) && Bounded(s, e)
    ensures t < |s.clocks| && s.clocks[t].threadId == t && |s.clocks| <= MAX_THREAD_COUNT
    ensures m <= MUTEX_POINTER_LIMIT ==> Val(s, OfMutex(m))[t] <= Own(s, t)
  {
    hide BarriersOk;
  }

  lemma LockFollows(s: Sync, e: Machine, t: nat, m: nat, x: Carrier)
    requires Matches(s, e) && MachineOk(e) && Enabled(e, Lock(t, m)) && Bounded(s, e)
    requires Live(SyncStep(s, Lock(t, m), ParentOf(e, t)), x)
    ensures Follows(s, e, Lock(t, m), x)
  {
    hide BarriersOk, Bounded, Merge, Bump;
    if x == OfThread(t) {
      AcquirerFollows(s, e, t, m);
    } else if x != OfMutex(m) {
      KeptFollows(s, e, Lock(t, m), x);
    }
  }

  lemma UnlockFollows(s: Sync, e: Machine, t: nat, m: nat, x: Carrier)
    requires Matches(s, e) && MachineOk(e) && Enabled(e, Unlock(t, m))
    requires Live(SyncStep(s, Unlock(t, m), ParentOf(e, t)), x)
    ensures Follows(s, e, Unlock(t, m), x)
  {
    hide BarriersOk;
    if x != OfThread(t) && x != OfMutex(m) {
      KeptFollows(s, e, Unlock(t, m), x);
    }
  }

  /** The detector and the machine agree on which arrival completes a round. */
  lemma LastCounts(s: Sync, e: Machine, t: nat, b: nat)
    requires Matches(s, e) && MachineOk(e) && Enabled(e, BarrierEnter(t, b))
    ensures b in s.barriers && (Completes(e, BarrierEnter(t, b)) <==>
            s.barriers[b].waiterCount + 1 == s.barriers[b].size)
    ensures t < |s.clocks| && s.clocks[t].threadId == t
  {
    assert t !in e.barriers[b].waiting;
    assert |e.barriers[b].waiting + {t}| == |e.barriers[b].waiting| + 1;
  }

  lemma ArriveFollows(s: Sync, e: Machine, t: nat, b: nat, x: Carrier)
    requires Matches(s, e) && MachineOk(e) && Enabled(e, BarrierEnter(t, b))
             && (x == OfCurrent(b) || x == OfPrevious(b))
    ensures Follows(s, e, BarrierEnter(t, b), x)
  {
    hide Matches, MachineOk, Enabled, SyncStep, Next;
    LastCounts(s, e, t, b);
    EnterTables(s, e, t, b);
  }

  lemma EnterFollows(s: Sync, e: Machine, t: nat, b: nat, x: Carrier)
    requires Matches(s, e) && MachineOk(e) && Enabled(e, BarrierEnter(t, b))
    requires Live(SyncStep(s, BarrierEnter(t, b), ParentOf(e, t)), x)
    ensures Follows(s, e, BarrierEnter(t, b), x)
  {
    hide BarriersOk, Arrive;
    if x == OfCurrent(b) || x == OfPrevious(b) {
      ArriveFollows(s, e, t, b, x);
    } else if x != OfThread(t) {
      KeptFollows(s, e, BarrierEnter(t, b), x);
    }
  }

  lemma LeaverFollows(s: Sync, e: Machine, t: nat, b: nat)
    requires Matches(s, e) && MachineOk(e) && Enabled(e, BarrierExit(t, b)) && Bounded(s, e)
    ensures Follows(s, e, BarrierExit(t, b), OfThread(t))
  {
    hide BarriersOk, Bounded;
    PreviousBounded(s, e, t, b);
  }

  lemma PreviousBounded(s: Sync, e: Machine, t: nat, b: nat)
    requires Matches(s, e) && MachineOk(e) && Enabled(e, BarrierExit(t, b)) && Bounded(s, e)
    ensures t < |s.clocks| && b in s.barriers && s.barriers[b].previous[t] <= Own(s, t)
  {
    hide BarriersOk;
    assert Val(s, OfPrevious(b))[t] <= Own(s, t);
  }

  lemma ExitFollows(s: Sync, e: Machine, t: nat, b: nat, x: Carrier)
    requires Matches(s, e) && MachineOk(e) && Enabled(e, BarrierExit(t, b)) && Bounded(s, e)
    requires Live(SyncStep(s, BarrierExit(t, b), ParentOf(e, t)), x)
    ensures Follows(s, e, BarrierExit(t, b), x)
  {
    hide BarriersOk, Bounded, Follows;
    if x == OfThread(t) {
      LeaverFollows(s, e, t, b);
    } else {
      KeptFollows(s, e, BarrierExit(t, b), x);
    }
  }

  lemma InitFollows(s: Sync, e: Machine, t: nat, b: nat, parts: set<nat>, x: Carrier)
    requires Matches(s, e) && MachineOk(e) && Enabled(e, BarrierInit(t, b, parts))
    requires Live(SyncStep(s, BarrierInit(t, b, parts), ParentOf(e, t)), x)
    ensures Follows(s, e, BarrierInit(t, b, parts), x)
  {
    hide BarriersOk;
    if x != OfCurrent(b) && x != OfPrevious(b) {
      KeptFollows(s, e, BarrierInit(t, b, parts), x);
    }
  }

  lemma QuietFollows(s: Sync, e: Machine, op: Op, x: Carrier)
    requires Matches(s, e) && MachineOk(e) && Enabled(e, op)
    requires op.Finish? || op.Read? || op.Write?
    requires Live(SyncStep(s, op, ParentOf(e, op.t)), x)
    ensures Follows(s, e, op, x)
  {
    hide BarriersOk;
    KeptFollows(s, e, op, x);
  }

  lemma StepFollows(s: Sync, e: Machine, op: Op, x: Carrier)
    requires Matches(s, e) && MachineOk(e) && Enabled(e, op) && Bounded(s, e)
    requires Live(SyncStep(s, op, ParentOf(e, op.t)), x)
    ensures Follows(s, e, op, x)
  {
    hide *;
    match op
    case Create(t, c) => CreateFollows(s, e, t, c, x);
    case Join(t, c) => JoinFollows(s, e, t, c, x);
    case Lock(t, m) => LockFollows(s, e, t, m, x);
    case Unlock(t, m) => UnlockFollows(s, e, t, m, x);
    case BarrierInit(t, b, parts) => InitFollows(s, e, t, b, parts, x);
    case BarrierEnter(t, b) => EnterFollows(s, e, t, b, x);
    case BarrierExit(t, b) => ExitFollows(s, e, t, b, x);
    case _ => QuietFollows(s, e, op, x);
  }

  /** A thread's own entry never decreases, and grows whenever someone else takes up its clock. */
  lemma OwnGrows(s: Sync, e: Machine, op: Op, u: nat)
    requires Matches(s, e) && MachineOk(e) && Enabled(e, op) && u < |s.clocks|
    ensures var s' := SyncStep(s, op, ParentOf(e, op.t));
            u < |s'.clocks| <= MAX_THREAD_COUNT && Own(s, u) <= Own(s', u)
  {
    hide BarriersOk;
  }

  lemma PublishingAdvances(s: Sync, e: Machine, op: Op, x: Carrier, u: nat)
    requires Matches(s, e) && MachineOk(e) && Enabled(e, op) && u < |s.clocks| && x != OfThread(u)
    requires var (y, z) := Inputs(e, op, x); y == OfThread(u) || z == OfThread(u)
    requires x.OfMutex? ==> x.m <= MUTEX_POINTER_LIMIT
    ensures var s' := SyncStep(s, op, ParentOf(e, op.t));
            u < |s'.clocks| <= MAX_THREAD_COUNT && (Gone(Next(e, op), u) || Own(s, u) < Own(s', u))
  {
    hide BarriersOk;
  }

  lemma GoneForGood(e: Machine, op: Op, u: nat)
    requires Gone(e, u) && Enabled(e, op)
    ensures Gone(Next(e, op), u)
  {
  }

  lemma ThreadsAppear(s: Sync, e: Machine, op: Op)
    requires Matches(s, e) && MachineOk(e) && Enabled(e, op)
    ensures var s' := SyncStep(s, op, ParentOf(e, op.t)); |s.clocks| <= |s'.clocks| <= MAX_THREAD_COUNT
  {
    hide BarriersOk;
  }

  lemma BoundedEntry(s: Sync, e: Machine, op: Op, x: Carrier, u: nat)
    requires Matches(s, e) && MachineOk(e) && Enabled(e, op) && Bounded(s, e)
    requires Live(SyncStep(s, op, ParentOf(e, op.t)), x)
    requires u < MAX_THREAD_COUNT && x != OfThread(u) && !Gone(Next(e, op), u)
    ensures var s' := SyncStep(s, op, ParentOf(e, op.t));
            |s'.clocks| <= MAX_THREAD_COUNT && Val(s', x)[u] <= if u < |s'.clocks| then Own(s', u) else 0
  {
    ThreadsAppear(s, e, op);
    StepFollows(s, e, op, x);
    if Gone(e, u) { GoneForGood(e, op, u); }
    var (y, z) := Inputs(e, op, x);
    if u < |s.clocks| {
      OwnGrows(s, e, op, u);
      if y == OfThread(u) || z == OfThread(u) { PublishingAdvances(s, e, op, x, u); }
    }
    assert y == OfThread(u) ==> Val(s, y)[u] == Own(s, u) + 1 by { hide SyncStep, Next, Inputs; }
    assert z == OfThread(u) ==> Val(s, z)[u] == Own(s, u) + 1 by { hide SyncStep, Next, Inputs; }
    hide SyncStep, Next, Inputs, Val, Gone;
  }

  lemma BoundedStep(s: Sync, e: Machine, op: Op)
    requires Matches(s, e) && MachineOk(e) && Enabled(e, op) && Bounded(s, e)
    ensures var s' := SyncStep(s, op, ParentOf(e, op.t)); |s'.clocks| <= MAX_THREAD_COUNT && Bounded(s', Next(e, op))
  {
    hide SyncStep, Next, Gone, Live, Val, Own, Matches, MachineOk, Enabled;
    ThreadsAppear(s, e, op);
    var s' := SyncStep(s, op, ParentOf(e, op.t));
    forall x, u | Live(s', x) && 0 <= u < MAX_THREAD_COUNT && x != OfThread(u) && !Gone(Next(e, op), u)
      ensures Val(s', x)[u] <= if u < |s'.clocks| then Own(s', u) else 0
    {
      BoundedEntry(s, e, op, x, u);
    }
  }

  lemma InitialBounded()
    ensures Bounded(InitialSync(), START)
  {
  }
}
