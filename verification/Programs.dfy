/** The program under observation, described without any clock: which operations a thread
    may perform next, and which earlier operations each one comes after. */
module Programs {
  import opened Clocks

  /** Mutexes above this address are ignored by the detector. */
  const MUTEX_POINTER_LIMIT: nat := 0x40000000

  datatype Op =
    | Create(t: nat, child: nat)
    | Join(t: nat, child: nat)
    | Lock(t: nat, m: nat)
    | Unlock(t: nat, m: nat)
    | BarrierInit(t: nat, b: nat, parts: set<nat>)
    | BarrierEnter(t: nat, b: nat)
    | BarrierExit(t: nat, b: nat)
    | Finish(t: nat)
    | Read(t: nat, a: nat)
    | Write(t: nat, a: nat)
  {
    predicate IsAccess() {
      Read? || Write?
    }
  }

  /** A thread inside a barrier remembers the round it entered. */
  datatype Status = Running | AtBarrier(b: nat, round: nat) | Finished | Joined

  /** round numbers the round being gathered; re-initialisation skips one number. */
  datatype BarrierState = BarrierState(parts: set<nat>, waiting: set<nat>, round: nat)

  /** The part of the machine that decides what may happen next. The creator of thread 0 is -1. */
  datatype Machine = Machine(status: seq<Status>, parent: seq<int>, holder: map<nat, nat>,
    barriers: map<nat, BarrierState>)

  const START: Machine := Machine([Running], [-1], map[], map[])

  predicate IsRunning(e: Machine, t: nat) {
    t < |e.status| && e.status[t] == Running
  }

  /** What the assumptions on the observed program allow: locks exclude each other and are released
      by their holder, only the creator joins, thread ids are consecutive, a barrier is used by its
      own participants only, and it is not re-initialised while a thread is inside. */
  predicate Enabled(e: Machine, op: Op) {
    match op
    case Create(t, c) => IsRunning(e, t) && c == |e.status| && c + 1 < MAX_THREAD_COUNT
    case Join(t, c) => IsRunning(e, t) && c < |e.status| && c < |e.parent| && e.parent[c] == t
      && e.status[c] == Finished
    case Lock(t, m) => IsRunning(e, t) && m !in e.holder
    case Unlock(t, m) => IsRunning(e, t) && m in e.holder && e.holder[m] == t
    case BarrierInit(t, b, parts) =>
      IsRunning(e, t) && parts != {} && forall u :: 0 <= u < |e.status| ==>
        !(e.status[u].AtBarrier? && e.status[u].b == b)
    case BarrierEnter(t, b) => IsRunning(e, t) && b in e.barriers && t in e.barriers[b].parts
    case BarrierExit(t, b) =>
      t < |e.status| && b in e.barriers && e.status[t].AtBarrier? && e.status[t].b == b
        && e.status[t].round < e.barriers[b].round
    case Finish(t) => IsRunning(e, t)
    case Read(t, _) => IsRunning(e, t)
    case Write(t, _) => IsRunning(e, t)
  }

  function Next(e: Machine, op: Op): Machine {
    if !Enabled(e, op) then e else
    match op
    case Create(t, c) => e.(status := e.status + [Running], parent := e.parent + [t])
    case Join(t, c) => e.(status := e.status[c := Joined])
    case Lock(t, m) => e.(holder := e.holder[m := t])
    case Unlock(t, m) => e.(holder := e.holder - {m})
    case BarrierInit(t, b, parts) =>
      e.(barriers := e.barriers[b := BarrierState(parts, {}, if b in e.barriers then e.barriers[b].round + 2 else 1)])
    case BarrierEnter(t, b) =>
      var s := e.barriers[b];
      var s' := if |s.waiting + {t}| == |s.parts| then s.(waiting := {}, round := s.round + 1)
        else s.(waiting := s.waiting + {t});
      e.(status := e.status[t := AtBarrier(b, s.round)], barriers := e.barriers[b := s'])
    case BarrierExit(t, b) => e.(status := e.status[t := Running])
    case Finish(t) => e.(status := e.status[t := Finished])
    case Read(_, _) => e
    case Write(_, _) => e
  }

  function At(ops: seq<Op>, n: nat): Machine
    requires n <= |ops|
  {
    if n == 0 then START else Next(At(ops, n - 1), ops[n - 1])
  }

  function ParentOf(e: Machine, t: nat): int {
    if t < |e.parent| then e.parent[t] else -1
  }

  ghost predicate EnabledAt(ops: seq<Op>, n: nat)
    requires n < |ops|
  {
    Enabled(At(ops, n), ops[n])
  }

  ghost predicate ValidRun(ops: seq<Op>) {
    forall n :: 0 <= n < |ops| ==> EnabledAt(ops, n)
  }

  lemma AtSucc(ops: seq<Op>, n: nat)
    requires n < |ops|
    ensures At(ops, n + 1) == Next(At(ops, n), ops[n])
    ensures ValidRun(ops) ==> Enabled(At(ops, n), ops[n])
  {
    hide Next, Enabled;
    if ValidRun(ops) {
      assert EnabledAt(ops, n);
    }
  }

  // -------------------------------------------------------------------------------------------
  // Happens-before, on the positions of the run.

  /** The round a barrier operation belongs to. */
  ghost function RoundOf(ops: seq<Op>, k: nat): nat
    requires k < |ops|
  {
    var e := At(ops, k);
    match ops[k]
    case BarrierEnter(t, b) => if b in e.barriers then e.barriers[b].round else 0
    case BarrierExit(t, b) => if t < |e.status| && e.status[t].AtBarrier? then e.status[t].round else 0
    case _ => 0
  }

  ghost predicate Edge(ops: seq<Op>, i: nat, j: nat)
    requires j < |ops|
  {
    i < j &&
    (|| ops[i].t == ops[j].t
     || (ops[i].Create? && ops[i].child == ops[j].t)
     || (ops[j].Join? && ops[i].t == ops[j].child)
     || (ops[i].Unlock? && ops[j].Lock? && ops[i].m == ops[j].m <= MUTEX_POINTER_LIMIT)
     || (ops[i].BarrierEnter? && ops[j].BarrierExit? && ops[i].b == ops[j].b && RoundOf(ops, i) == RoundOf(ops, j)))
  }

  /** The transitive closure of the edges. */
  ghost predicate HB(ops: seq<Op>, i: nat, j: nat)
    requires j < |ops|
    decreases j
  {
    exists k :: i <= k < j && Edge(ops, k, j) && (k == i || HB(ops, i, k))
  }

  lemma {:induction false} HBTransitive(ops: seq<Op>, i: nat, j: nat, k: nat)
    requires j < k < |ops| && HB(ops, i, j) && HB(ops, j, k)
    ensures HB(ops, i, k)
    decreases k
  {
    var l :| j <= l < k && Edge(ops, l, k) && (l == j || HB(ops, j, l));
    if l != j {
      HBTransitive(ops, i, j, l);
    }
  }

  lemma HBForward(ops: seq<Op>, i: nat, j: nat)
    requires j < |ops| && HB(ops, i, j)
    ensures i < j
  {
  }

  lemma EdgeIsHB(ops: seq<Op>, i: nat, j: nat)
    requires j < |ops| && Edge(ops, i, j)
    ensures HB(ops, i, j)
  {
  }

  // -------------------------------------------------------------------------------------------
  // What every run of the machine keeps.

  ghost predicate ThreadsOk(e: Machine) {
    && 0 < |e.status| == |e.parent| < MAX_THREAD_COUNT
    && (forall c :: 0 <= c < |e.parent| ==> -1 <= e.parent[c] < c)
    && (forall m :: m in e.holder ==> e.holder[m] < |e.status|)
  }

  /** A waiting thread is of the current round, a leaving one of the round just completed. */
  ghost predicate BarriersOk(e: Machine) {
    && (forall u :: 0 <= u < |e.status| && e.status[u].AtBarrier? ==>
          var b := e.status[u].b;
          b in e.barriers && u in e.barriers[b].parts
          && (e.status[u].round == e.barriers[b].round || e.status[u].round + 1 == e.barriers[b].round))
    && (forall b :: b in e.barriers ==>
          && 0 < e.barriers[b].round
          && e.barriers[b].waiting <= e.barriers[b].parts
          && |e.barriers[b].waiting| < |e.barriers[b].parts|
          && (forall u: nat :: u in e.barriers[b].waiting <==>
              u < |e.status| && e.status[u] == AtBarrier(b, e.barriers[b].round)))
  }

  ghost predicate MachineOk(e: Machine) {
    ThreadsOk(e) && BarriersOk(e)
  }

  lemma SubsetOfSameSize(a: set<nat>, b: set<nat>)
    requires a <= b && |a| == |b|
    ensures a == b
  {
    if x :| x in b && x !in a {
      assert a <= b - {x};
      SubsetCardinality(a, b - {x});
    }
  }

  lemma {:induction false} SubsetCardinality(a: set<nat>, b: set<nat>)
    requires a <= b
    ensures |a| <= |b|
  {
    if x :| x in a {
      SubsetCardinality(a - {x}, b - {x});
    }
  }

  /** When the last participant arrives, everyone is in the current round, so nobody is still leaving. */
  lemma LastArrival(e: Machine, t: nat, b: nat)
    requires MachineOk(e) && Enabled(e, BarrierEnter(t, b)) && |e.barriers[b].waiting + {t}| == |e.barriers[b].parts|
    ensures forall u :: 0 <= u < |e.status| && u != t && e.status[u].AtBarrier? && e.status[u].b == b ==>
            u in e.barriers[b].waiting
  {
    SubsetOfSameSize(e.barriers[b].waiting + {t}, e.barriers[b].parts);
  }

  lemma InitKeepsBarriersOk(e: Machine, t: nat, b: nat, parts: set<nat>)
    requires MachineOk(e) && Enabled(e, BarrierInit(t, b, parts))
    ensures BarriersOk(Next(e, BarrierInit(t, b, parts)))
  {
    assert |parts| > 0;
  }

  lemma LastEnterKeepsBarriersOk(e: Machine, t: nat, b: nat)
    requires MachineOk(e) && Enabled(e, BarrierEnter(t, b)) && |e.barriers[b].waiting + {t}| == |e.barriers[b].parts|
    ensures BarriersOk(Next(e, BarrierEnter(t, b)))
  {
    LastArrival(e, t, b);
    assert |e.barriers[b].parts| > 0;
  }

  lemma EarlyEnterKeepsBarriersOk(e: Machine, t: nat, b: nat)
    requires MachineOk(e) && Enabled(e, BarrierEnter(t, b)) && |e.barriers[b].waiting + {t}| != |e.barriers[b].parts|
    ensures BarriersOk(Next(e, BarrierEnter(t, b)))
  {
    SubsetCardinality(e.barriers[b].waiting + {t}, e.barriers[b].parts);
  }

  lemma EnterKeepsBarriersOk(e: Machine, t: nat, b: nat)
    requires MachineOk(e) && Enabled(e, BarrierEnter(t, b))
    ensures BarriersOk(Next(e, BarrierEnter(t, b)))
  {
    if |e.barriers[b].waiting + {t}| == |e.barriers[b].parts| {
      LastEnterKeepsBarriersOk(e, t, b);
    } else {
      EarlyEnterKeepsBarriersOk(e, t, b);
    }
  }

  lemma NextKeepsBarriersOk(e: Machine, op: Op)
    requires MachineOk(e) && Enabled(e, op) && !op.BarrierInit? && !op.BarrierEnter?
    ensures BarriersOk(Next(e, op))
  {
  }

  lemma NextKeepsThreadsOk(e: Machine, op: Op)
    requires ThreadsOk(e) && Enabled(e, op)
    ensures ThreadsOk(Next(e, op))
  {
  }

  lemma NextKeepsMachineOk(e: Machine, op: Op)
    requires MachineOk(e) && Enabled(e, op)
    ensures MachineOk(Next(e, op))
  {
    NextKeepsThreadsOk(e, op);
    hide Next, Enabled, BarriersOk, ThreadsOk;
    match op
    case BarrierInit(t, b, parts) => InitKeepsBarriersOk(e, t, b, parts);
    case BarrierEnter(t, b) => EnterKeepsBarriersOk(e, t, b);
    case _ => NextKeepsBarriersOk(e, op);
  }

  lemma StartIsOk(ops: seq<Op>)
    ensures MachineOk(At(ops, 0))
  {
  }

  lemma {:induction false} RunKeepsMachineOk(ops: seq<Op>, n: nat)
    requires ValidRun(ops) && n <= |ops|
    ensures MachineOk(At(ops, n))
  {
    hide ValidRun, At, MachineOk, Next, Enabled;
    if n == 0 {
      StartIsOk(ops);
    } else {
      RunKeepsMachineOk(ops, n - 1);
      AtSucc(ops, n - 1);
      NextKeepsMachineOk(At(ops, n - 1), ops[n - 1]);
    }
  }
}
