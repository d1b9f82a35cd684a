/** Barrier rounds do not mix, however fast some threads come back to the barrier. */
module BarrierRounds {
  import opened Clocks
  import opened Programs
  import opened Synchronization
  import opened Causality
  import opened Knowledge
  import opened HappensBefore

  /** The clock a thread publishes when it enters a barrier. */
  ghost function Published(ops: seq<Op>, k: nat): Vec
    requires k < |ops|
  {
    if ops[k].t < |SyncAt(ops, k).clocks| then Advance(SyncAt(ops, k).clocks[ops[k].t]).vc else Zero()
  }

  ghost predicate EntersRound(ops: seq<Op>, k: nat, b: nat, round: int)
    requires k < |ops|
  {
    ops[k].BarrierEnter? && ops[k].b == b && RoundOf(ops, k) == round
  }

  /** The pointwise maximum of the clocks published in one round of a barrier, among the first n operations. */
  ghost function RoundMaximum(ops: seq<Op>, n: nat, b: nat, round: int): Vec
    requires n <= |ops|
  {
    if n == 0 then Zero()
    else if EntersRound(ops, n - 1, b, round) then Merge(RoundMaximum(ops, n - 1, b, round), Published(ops, n - 1))
    else RoundMaximum(ops, n - 1, b, round)
  }

  lemma {:induction false} NoRoundYet(ops: seq<Op>, n: nat, b: nat, round: int)
    requires n <= |ops| && forall k: nat :: k < n ==> !EntersRound(ops, k, b, round)
    ensures RoundMaximum(ops, n, b, round) == Zero()
  {
    hide EntersRound;
    if n > 0 { NoRoundYet(ops, n - 1, b, round); }
  }

  ghost predicate RoundsOk(ops: seq<Op>, n: nat)
    requires n <= |ops|
  {
    forall b :: b in SyncAt(ops, n).barriers ==>
      && b in At(ops, n).barriers
      && SyncAt(ops, n).barriers[b].vc == RoundMaximum(ops, n, b, At(ops, n).barriers[b].round)
      && SyncAt(ops, n).barriers[b].previous == RoundMaximum(ops, n, b, At(ops, n).barriers[b].round - 1)
  }

  lemma FutureRound(ops: seq<Op>, n: nat, b: nat, round: int)
    requires ValidRun(ops) && n <= |ops| && (b in At(ops, n).barriers ==> At(ops, n).barriers[b].round < round)
    ensures RoundMaximum(ops, n, b, round) == Zero()
  {
    hide ValidRun, At, RoundOf, RoundMaximum;
    RunHistory(ops, n);
    NoRoundYet(ops, n, b, round);
  }

  lemma OtherBarrier(s: Sync, e: Machine, op: Op, b: nat)
    requires Matches(s, e) && MachineOk(e) && Enabled(e, op) && !((op.BarrierInit? || op.BarrierEnter?) && op.b == b)
    ensures var s', e' := SyncStep(s, op, ParentOf(e, op.t)), Next(e, op);
            && (b in s'.barriers <==> b in s.barriers) && (b in e'.barriers <==> b in e.barriers)
            && (b in s.barriers ==>
                  s'.barriers[b] == s.barriers[b] && b in e.barriers && e'.barriers[b] == e.barriers[b])
  {
    hide BarriersOk;
  }

  lemma ArrivedBarrier(s: Sync, e: Machine, t: nat, b: nat)
    requires Matches(s, e) && MachineOk(e) && Enabled(e, BarrierEnter(t, b))
    ensures var op := BarrierEnter(t, b);
            var s', e' := SyncStep(s, op, ParentOf(e, t)), Next(e, op);
            && t < |s.clocks| && b in s.barriers && b in e.barriers && b in s'.barriers && b in e'.barriers
            && var v := Merge(s.barriers[b].vc, Advance(s.clocks[t]).vc);
            && e'.barriers[b].round == (if Completes(e, op) then e.barriers[b].round + 1 else e.barriers[b].round)
            && s'.barriers[b].vc == (if Completes(e, op) then Zero() else v)
            && s'.barriers[b].previous == (if Completes(e, op) then v else s.barriers[b].previous)
  {
    assert t !in e.barriers[b].waiting;
    assert |e.barriers[b].waiting + {t}| == |e.barriers[b].waiting| + 1;
    hide BarriersOk, Merge, Zero;
  }

  lemma RoundsStep(ops: seq<Op>, n: nat, b: nat)
    requires ValidRun(ops) && n < |ops| && RoundsOk(ops, n) && b in SyncAt(ops, n + 1).barriers
    ensures b in At(ops, n + 1).barriers
    ensures SyncAt(ops, n + 1).barriers[b].vc == RoundMaximum(ops, n + 1, b, At(ops, n + 1).barriers[b].round)
    ensures SyncAt(ops, n + 1).barriers[b].previous == RoundMaximum(ops, n + 1, b, At(ops, n + 1).barriers[b].round - 1)
  {
    hide ValidRun, SyncAt, At, Matches, MachineOk, Bounded, Completes, ParentOf, Merge, SyncStep, Next, Zero;
    RunTablesOk(ops, n);
    Succ(ops, n);
    var s, e, op := SyncAt(ops, n), At(ops, n), ops[n];
    if op.BarrierEnter? && op.b == b {
      EnterRound(ops, n);
      ArrivedBarrier(s, e, op.t, b);
      FutureRound(ops, n, b, e.barriers[b].round + 1);
    } else if op.BarrierInit? && op.b == b {
      InitRounds(ops, n);
    } else {
      OtherBarrier(s, e, op, b);
    }
  }

  lemma InitRounds(ops: seq<Op>, n: nat)
    requires ValidRun(ops) && n < |ops| && ops[n].BarrierInit?
    ensures var b := ops[n].b;
            && b in SyncAt(ops, n + 1).barriers && b in At(ops, n + 1).barriers
            && SyncAt(ops, n + 1).barriers[b].vc == RoundMaximum(ops, n + 1, b, At(ops, n + 1).barriers[b].round)
            && SyncAt(ops, n + 1).barriers[b].previous ==
               RoundMaximum(ops, n + 1, b, At(ops, n + 1).barriers[b].round - 1)
  {
    hide ValidRun, SyncAt, At, MachineOk, Bounded, ParentOf;
    RunTablesOk(ops, n);
    Succ(ops, n);
    var b, round := ops[n].b, At(ops, n + 1).barriers[ops[n].b].round;
    InitialRoundOk(ops, n);
    FutureRound(ops, n, b, round);
    if b in At(ops, n).barriers { FutureRound(ops, n, b, round - 1); } else { NeverEntered(ops, n, b, round - 1); }
  }

  lemma InitialRoundOk(ops: seq<Op>, n: nat)
    requires ValidRun(ops) && n <= |ops|
    ensures MachineOk(At(ops, n))
  {
    RunKeepsMachineOk(ops, n);
  }

  lemma NeverEntered(ops: seq<Op>, n: nat, b: nat, round: int)
    requires ValidRun(ops) && n <= |ops| && b !in At(ops, n).barriers
    ensures RoundMaximum(ops, n, b, round) == Zero()
  {
    hide ValidRun, At, RoundOf, RoundMaximum;
    RunHistory(ops, n);
    NoRoundYet(ops, n, b, round);
  }

  lemma {:induction false} EveryRoundsOk(ops: seq<Op>, n: nat)
    requires ValidRun(ops) && n <= |ops|
    ensures RoundsOk(ops, n)
  {
    hide ValidRun, SyncAt, At, RoundMaximum;
    if n == 0 {
      NoBarriersAtStart(ops);
    } else {
      EveryRoundsOk(ops, n - 1);
      forall b | b in SyncAt(ops, n).barriers
        ensures b in At(ops, n).barriers
        ensures SyncAt(ops, n).barriers[b].vc == RoundMaximum(ops, n, b, At(ops, n).barriers[b].round)
        ensures SyncAt(ops, n).barriers[b].previous == RoundMaximum(ops, n, b, At(ops, n).barriers[b].round - 1)
      {
        RoundsStep(ops, n - 1, b);
      }
    }
  }

  lemma NoBarriersAtStart(ops: seq<Op>)
    ensures SyncAt(ops, 0).barriers == map[]
  {
  }

  /** A leaving thread receives the maximum of exactly the clocks published in the round it entered. */
  lemma LeavingReceivesOwnRound(ops: seq<Op>, n: nat)
    requires ValidRun(ops) && n < |ops| && ops[n].BarrierExit?
    ensures var t := ops[n].t;
            && t < |SyncAt(ops, n).clocks| == |SyncAt(ops, n + 1).clocks|
            && SyncAt(ops, n + 1).clocks[t].vc ==
               Merge(SyncAt(ops, n).clocks[t].vc, RoundMaximum(ops, n, ops[n].b, RoundOf(ops, n)))
  {
    hide ValidRun, SyncAt, At, Bounded, RoundMaximum, Merge;
    EveryRoundsOk(ops, n);
    RunTablesOk(ops, n);
    RunMatches(ops, n);
    Succ(ops, n);
    ExitingIsLeaving(At(ops, n), ops[n].t, ops[n].b);
  }

  /** Every clock published in the round is covered by the maximum. */
  lemma {:induction false} MaximumCovers(ops: seq<Op>, n: nat, k: nat, b: nat, round: int)
    requires k < n <= |ops| && EntersRound(ops, k, b, round)
    ensures PointwiseLeq(Published(ops, k), RoundMaximum(ops, n, b, round))
  {
    hide EntersRound, Published;
    if k < n - 1 { MaximumCovers(ops, n - 1, k, b, round); }
  }

  /** And each of its entries is one that was published in the round. */
  lemma {:induction false} MaximumIsAttained(ops: seq<Op>, n: nat, b: nat, round: int, u: nat)
    requires n <= |ops| && u < MAX_THREAD_COUNT && RoundMaximum(ops, n, b, round)[u] > 0
    ensures exists k: nat ::
              k < n && EntersRound(ops, k, b, round) && Published(ops, k)[u] == RoundMaximum(ops, n, b, round)[u]
  {
    hide EntersRound, Published;
    if n > 0 && RoundMaximum(ops, n - 1, b, round)[u] == RoundMaximum(ops, n, b, round)[u] {
      MaximumIsAttained(ops, n - 1, b, round, u);
    }
  }
}
