/** The clocks the detector keeps, and what each intercepted operation does to them. */
module Synchronization {
  import opened Optional
  import opened Clocks
  import opened Programs

  /** The last release of a mutex; the id is cleared once an acquire has consumed it. */
  datatype ThreadInfo = ThreadInfo(tid: Option<nat>, clock: ThreadClock)

  datatype BarrierData = BarrierData(vc: Vec, previous: Vec, size: int, waiterCount: int)

  /** clocks and joinVC are indexed by thread; joinVC[p] holds the final clocks of p's children. */
  datatype Sync = Sync(
    clocks: seq<ThreadClock>,
    joinVC: seq<map<nat, ThreadClock>>,
    unlocked: map<nat, ThreadInfo>,
    barriers: map<nat, BarrierData>)

  /** After the initial thread has started. */
  function InitialSync(): Sync {
    Sync([Clock(0, Bump(Zero(), 0))], [map[]], map[], map[])
  }

  /** The assertions of the code: every table entry an operation looks up is there. */
  predicate Accepts(s: Sync, op: Op) {
    op.t < |s.clocks| == |s.joinVC| &&
    match op
    case Create(t, c) => c == |s.clocks| && c + 1 < MAX_THREAD_COUNT
    case Join(t, c) => c in s.joinVC[t]
    case BarrierEnter(t, b) => b in s.barriers
    case BarrierExit(t, b) => b in s.barriers
    case _ => true
  }

  /** The clock of t after acquiring mutex m. */
  function Acquired(s: Sync, t: nat, m: nat): ThreadClock
    requires t < |s.clocks|
  {
    var c := Advance(s.clocks[t]);
    if m in s.unlocked && s.unlocked[m].tid.Some? then Receive(c, s.unlocked[m].clock.vc) else c
  }

  function Consumed(u: map<nat, ThreadInfo>, m: nat): map<nat, ThreadInfo> {
    if m in u then u[m := u[m].(tid := None)] else u
  }

  /** A thread publishes its clock in a barrier; the last one of the round turns it over. */
  function Arrive(d: BarrierData, v: Vec): BarrierData {
    var vc := Merge(d.vc, v);
    if d.waiterCount + 1 == d.size then BarrierData(Zero(), vc, d.size, 0)
    else BarrierData(vc, d.previous, d.size, d.waiterCount + 1)
  }

  /** parent is the creator of the operation's thread, -1 for thread 0. */
  function SyncStep(s: Sync, op: Op, parent: int): Sync {
    if !Accepts(s, op) then s else
    match op
    case Create(t, c) =>
      s.(clocks := s.clocks[t := Advance(s.clocks[t])] + [ChildOf(s.clocks[t], c)], joinVC := s.joinVC + [map[]])
    case Join(t, c) => s.(clocks := s.clocks[t := ReceiveIncrement(s.clocks[t], s.joinVC[t][c])])
    case Lock(t, m) =>
      if m > MUTEX_POINTER_LIMIT then s
      else s.(clocks := s.clocks[t := Acquired(s, t, m)], unlocked := Consumed(s.unlocked, m))
    case Unlock(t, m) =>
      if m > MUTEX_POINTER_LIMIT then s
      else
        var c := Advance(s.clocks[t]);
        s.(clocks := s.clocks[t := c], unlocked := s.unlocked[m := ThreadInfo(Some(t), c)])
    case BarrierInit(t, b, parts) => s.(barriers := s.barriers[b := BarrierData(Zero(), Zero(), |parts|, 0)])
    case BarrierEnter(t, b) =>
      var c := Advance(s.clocks[t]);
      s.(clocks := s.clocks[t := c], barriers := s.barriers[b := Arrive(s.barriers[b], c.vc)])
    case BarrierExit(t, b) => s.(clocks := s.clocks[t := Receive(s.clocks[t], s.barriers[b].previous)])
    case Finish(t) =>
      if 0 <= parent < |s.joinVC| then
        var finals: map<nat, ThreadClock> := s.joinVC[parent];
        s.(joinVC := s.joinVC[parent := finals[t := s.clocks[t]]])
      else s
    case Read(_, _) => s
    case Write(_, _) => s
  }

  function SyncAt(ops: seq<Op>, n: nat): Sync
    requires n <= |ops|
  {
    if n == 0 then InitialSync()
    else SyncStep(SyncAt(ops, n - 1), ops[n - 1], ParentOf(At(ops, n - 1), ops[n - 1].t))
  }

  /** The detector's tables fit the machine. */
  ghost predicate Matches(s: Sync, e: Machine) {
    && |s.clocks| == |s.joinVC| == |e.status| == |e.parent|
    && (forall t :: 0 <= t < |s.clocks| ==> s.clocks[t].threadId == t)
    && (forall c :: 0 <= c < |e.status| && e.status[c] == Finished && 0 <= e.parent[c] < |s.clocks| ==>
          c in s.joinVC[e.parent[c]] && s.joinVC[e.parent[c]][c] == s.clocks[c])
    && (forall b :: b in s.barriers <==> b in e.barriers)
    && (forall b :: b in s.barriers ==>
        s.barriers[b].size == |e.barriers[b].parts| && s.barriers[b].waiterCount == |e.barriers[b].waiting|)
  }

  lemma MatchesAccepts(s: Sync, e: Machine, op: Op)
    requires Matches(s, e) && MachineOk(e) && Enabled(e, op)
    ensures Accepts(s, op)
  {
  }

  lemma EnterTables(s: Sync, e: Machine, t: nat, b: nat)
    requires Matches(s, e) && MachineOk(e) && Enabled(e, BarrierEnter(t, b))
    ensures var s', e' := SyncStep(s, BarrierEnter(t, b), ParentOf(e, t)), Next(e, BarrierEnter(t, b));
            && t < |s.clocks| && b in s.barriers
               && s'.barriers == s.barriers[b := Arrive(s.barriers[b], Advance(s.clocks[t]).vc)]
            && s'.joinVC == s.joinVC && s'.clocks == s.clocks[t := Advance(s.clocks[t])] && e'.parent == e.parent
            && b in e.barriers && e' == e.(status := e'.status, barriers := e.barriers[b := e'.barriers[b]])
            && e'.status == e.status[t := AtBarrier(b, e.barriers[b].round)]
            && e'.barriers[b].parts == e.barriers[b].parts
            && |e'.barriers[b].waiting| == if |e.barriers[b].waiting| + 1 == |e.barriers[b].parts| then 0
               else |e.barriers[b].waiting| + 1
  {
    var w := e.barriers[b].waiting;
    assert t !in w;
    assert |w + {t}| == |w| + 1;
    hide Advance, Arrive;
  }

  lemma EnterMatches(s: Sync, e: Machine, t: nat, b: nat)
    requires Matches(s, e) && MachineOk(e) && Enabled(e, BarrierEnter(t, b))
    ensures Matches(SyncStep(s, BarrierEnter(t, b), ParentOf(e, t)), Next(e, BarrierEnter(t, b)))
  {
    hide MachineOk, Enabled, SyncStep, Next, Merge, Bump;
    EnterTables(s, e, t, b);
  }

  lemma InitMatches(s: Sync, e: Machine, t: nat, b: nat, parts: set<nat>)
    requires Matches(s, e) && Enabled(e, BarrierInit(t, b, parts))
    ensures Matches(SyncStep(s, BarrierInit(t, b, parts), ParentOf(e, t)), Next(e, BarrierInit(t, b, parts)))
  {
  }

  lemma FinishMatches(s: Sync, e: Machine, t: nat)
    requires Matches(s, e) && MachineOk(e) && Enabled(e, Finish(t))
    ensures Matches(SyncStep(s, Finish(t), ParentOf(e, t)), Next(e, Finish(t)))
  {
  }

  lemma CreateMatches(s: Sync, e: Machine, t: nat, c: nat)
    requires Matches(s, e) && MachineOk(e) && Enabled(e, Create(t, c))
    ensures Matches(SyncStep(s, Create(t, c), ParentOf(e, t)), Next(e, Create(t, c)))
  {
  }

  /** The other operations change no more than the clock of a running thread. */
  lemma JoinMatches(s: Sync, e: Machine, t: nat, c: nat)
    requires Matches(s, e) && MachineOk(e) && Enabled(e, Join(t, c))
    ensures Matches(SyncStep(s, Join(t, c), ParentOf(e, t)), Next(e, Join(t, c)))
  {
  }

  lemma ExitMatches(s: Sync, e: Machine, t: nat, b: nat)
    requires Matches(s, e) && MachineOk(e) && Enabled(e, BarrierExit(t, b))
    ensures Matches(SyncStep(s, BarrierExit(t, b), ParentOf(e, t)), Next(e, BarrierExit(t, b)))
  {
  }

  lemma OtherMatches(s: Sync, e: Machine, op: Op)
    requires Matches(s, e) && MachineOk(e) && Enabled(e, op)
    requires op.Lock? || op.Unlock? || op.Read? || op.Write?
    ensures Matches(SyncStep(s, op, ParentOf(e, op.t)), Next(e, op))
  {
    hide MachineOk, Merge, Bump;
    MatchesAccepts(s, e, op);
  }

  lemma StepMatches(s: Sync, e: Machine, op: Op)
    requires Matches(s, e) && MachineOk(e) && Enabled(e, op)
    ensures Matches(SyncStep(s, op, ParentOf(e, op.t)), Next(e, op))
  {
    hide *;
    match op
    case BarrierInit(t, b, parts) => InitMatches(s, e, t, b, parts);
    case BarrierEnter(t, b) => EnterMatches(s, e, t, b);
    case Finish(t) => FinishMatches(s, e, t);
    case Create(t, c) => CreateMatches(s, e, t, c);
    case Join(t, c) => JoinMatches(s, e, t, c);
    case BarrierExit(t, b) => ExitMatches(s, e, t, b);
    case _ => OtherMatches(s, e, op);
  }

  lemma InitialMatches(ops: seq<Op>)
    ensures Matches(SyncAt(ops, 0), At(ops, 0))
  {
  }

  /** One more operation of the run. */
  lemma Succ(ops: seq<Op>, n: nat)
    requires n < |ops|
    ensures At(ops, n + 1) == Next(At(ops, n), ops[n])
    ensures SyncAt(ops, n + 1) == SyncStep(SyncAt(ops, n), ops[n], ParentOf(At(ops, n), ops[n].t))
    ensures ValidRun(ops) ==> Enabled(At(ops, n), ops[n])
  {
    AtSucc(ops, n);
    hide Next, SyncStep, Enabled, ParentOf;
  }

  lemma {:induction false} RunMatches(ops: seq<Op>, n: nat)
    requires ValidRun(ops) && n <= |ops|
    ensures Matches(SyncAt(ops, n), At(ops, n)) && MachineOk(At(ops, n))
    ensures n < |ops| ==> Enabled(At(ops, n), ops[n]) && Accepts(SyncAt(ops, n), ops[n])
  {
    hide *;
    RunKeepsMachineOk(ops, n);
    if n == 0 {
      InitialMatches(ops);
    } else {
      RunMatches(ops, n - 1);
      Succ(ops, n - 1);
      StepMatches(SyncAt(ops, n - 1), At(ops, n - 1), ops[n - 1]);
    }
    if n < |ops| {
      Succ(ops, n);
      MatchesAccepts(SyncAt(ops, n), At(ops, n), ops[n]);
    }
  }
}
