/** What is reported, in terms of the run alone: which accesses conflict, which closing operations
    lie between them, and the happens-before order. No clock, filter or history is mentioned. */
module ProgramRaces {
  import opened Clocks
  import opened Programs
  import opened Synchronization
  import opened Causality
  import opened Knowledge
  import opened HappensBefore
  import opened Detection
  import opened Recorder
  import opened RaceReports
  import Recording

  /** Access i is in the stretch of its thread that operation n ends. */
  predicate EndsStretch(ops: seq<Op>, i: nat, n: nat)
    requires n < |ops|
  {
    && i < n && ops[i].IsAccess() && ops[i].t == ops[n].t && Closes(ops[n])
    && forall k :: i < k < n && ops[k].t == ops[n].t ==> !Closes(ops[k])
  }

  /** Operation n ends a stretch with at least one access. */
  ghost predicate EndsBusyStretch(ops: seq<Op>, n: nat)
    requires n < |ops|
  {
    exists i: nat :: EndsStretch(ops, i, n)
  }

  /** The number of busy stretches that thread u has ended after operation m and before n. */
  ghost function BusyStretches(ops: seq<Op>, m: nat, n: nat, u: nat): nat
    requires n <= |ops|
  {
    if n <= m + 1 then 0
    else BusyStretches(ops, m, n - 1, u) + if ops[n - 1].t == u && EndsBusyStretch(ops, n - 1) then 1 else 0
  }

  /** The stretch of access i was ended at m, and fewer than sixteen busy ones of its thread since. */
  ghost predicate KeptSince(ops: seq<Op>, n: nat, i: nat, m: nat)
    requires n <= |ops|
  {
    m < n && EndsStretch(ops, i, m) && BusyStretches(ops, m, n, ops[m].t) < 16
  }

  /** Two unordered, conflicting accesses of different threads, one in the stretch that operation n
      ends, one in a stretch that is still kept. */
  ghost predicate Races(ops: seq<Op>, n: nat, i: nat, j: nat)
    requires n < |ops|
  {
    && i < n && EndsStretch(ops, j, n) && ops[i].t != ops[n].t && (exists m: nat :: KeptSince(ops, n, i, m))
    && Conflicting(ops[i], ops[j]) && !HB(ops, i, j) && !HB(ops, j, i)
  }

  // -------------------------------------------------------------------------------------------
  // Stretches are epochs.

  /** The operations of thread u that raise its own entry. */
  predicate MovesOn(op: Op, u: nat) {
    op.t == u &&
    match op
    case Lock(_, m) => m <= 0x40000000
    case Unlock(_, m) => m <= 0x40000000
    case _ => op.Create? || op.Join? || op.BarrierEnter?
  }

  /** They end a stretch, and so does only the thread's end besides. */
  lemma MovesOnCloses(op: Op, u: nat)
    ensures MovesOn(op, u) <==> op.t == u && Closes(op) && !op.Finish?
  {
  }

  lemma MovesByOne(s: Sync, e: Machine, op: Op)
    requires Matches(s, e) && MachineOk(e) && Enabled(e, op) && |s.clocks| <= MAX_THREAD_COUNT && Bounded(s, e)
    requires MovesOn(op, op.t)
    ensures var s' := SyncStep(s, op, ParentOf(e, op.t));
            op.t < |s.clocks| <= |s'.clocks| <= MAX_THREAD_COUNT && Own(s', op.t) == Own(s, op.t) + 1
  {
    hide BarriersOk, Bounded;
    match op
    case Join(t, c) => FinalBounded(s, e, t, c);
    case Lock(t, m) => ReleaseBounded(s, e, t, m);
    case _ =>
  }

  lemma FinalBounded(s: Sync, e: Machine, t: nat, c: nat)
    requires Matches(s, e) && MachineOk(e) && Enabled(e, Join(t, c)) && |s.clocks| <= MAX_THREAD_COUNT && Bounded(s, e)
    ensures t < |s.clocks| && c < |s.clocks| && c != t && s.clocks[c].vc[t] <= Own(s, t)
  {
    hide BarriersOk;
    assert Val(s, OfThread(c))[t] <= Own(s, t);
  }

  lemma OwnStep(s: Sync, e: Machine, op: Op, u: nat)
    requires Matches(s, e) && MachineOk(e) && Enabled(e, op) && |s.clocks| == |e.status| <= MAX_THREAD_COUNT
             && Bounded(s, e) && u < |s.clocks|
    ensures var s' := SyncStep(s, op, ParentOf(e, op.t));
            && u < |s'.clocks| <= MAX_THREAD_COUNT
            && Own(s', u) == Own(s, u) + if MovesOn(op, u) then 1 else 0
  {
    hide MachineOk, Enabled, SyncStep, Next, Bounded, Own;
    OwnGrows(s, e, op, u);
    OwnIs(s, u);
    OwnIs(SyncStep(s, op, ParentOf(e, op.t)), u);
    MovesOnCloses(op, u);
    if MovesOn(op, u) {
      MovesByOne(s, e, op);
    } else if op.BarrierExit? && op.t == u {
      ExitKeepsOwn(s, e, u, op.b);
    } else {
      KeepsClock(s, e, op, u);
    }
  }

  lemma OwnAt(ops: seq<Op>, n: nat, u: nat)
    requires ValidRun(ops) && n < |ops| && u < |At(ops, n).status|
    ensures u < |SyncAt(ops, n).clocks| <= MAX_THREAD_COUNT && u < |SyncAt(ops, n + 1).clocks| <= MAX_THREAD_COUNT
    ensures u < |At(ops, n + 1).status|
    ensures Own(SyncAt(ops, n + 1), u) == Own(SyncAt(ops, n), u) + if MovesOn(ops[n], u) then 1 else 0
  {
    hide ValidRun, SyncAt, StateAt, At, Step, SyncStep, Next, MachineOk, Bounded, Enabled, Matches, Accepts, Own;
    Tables(ops, n);
    OwnStep(SyncAt(ops, n), At(ops, n), ops[n], u);
    GrowingRun(ops, n);
  }

  /** How often thread u has moved on among the first n operations. */
  function Moves(ops: seq<Op>, n: nat, u: nat): nat
    requires n <= |ops|
  {
    if n == 0 then 0 else Moves(ops, n - 1, u) + if MovesOn(ops[n - 1], u) then 1 else 0
  }

  lemma {:induction false} NoMovesYet(ops: seq<Op>, n: nat, u: nat)
    requires ValidRun(ops) && n < |ops| && |At(ops, n).status| <= u
    ensures Moves(ops, n + 1, u) == 0
  {
    hide ValidRun, At, MachineOk;
    Recording.AtLeastItsThread(ops, n, n);
    if n > 0 {
      GrowingRun(ops, n - 1);
      NoMovesYet(ops, n - 1, u);
    }
  }

  /** In every run, with locks and barriers, a thread's own entry is one more than its moves. */
  lemma {:induction false} OwnIsExact(ops: seq<Op>, n: nat, u: nat)
    requires ValidRun(ops) && n <= |ops| && u < |At(ops, n).status|
    ensures u < |SyncAt(ops, n).clocks| <= MAX_THREAD_COUNT && Own(SyncAt(ops, n), u) == 1 + Moves(ops, n, u)
  {
    hide ValidRun, SyncAt, StateAt, At, Step, SyncStep, Next, MachineOk, Bounded, Enabled, Matches, Accepts, Own,
         MovesOn;
    if n == 0 {
      Recording.OwnAtStart(ops);
    } else if u < |At(ops, n - 1).status| {
      OwnIsExact(ops, n - 1, u);
      OwnAt(ops, n - 1, u);
    } else {
      Tables(ops, n - 1);
      SameThreads(SyncAt(ops, n - 1), At(ops, n - 1), ops[n - 1]);
      ChildIsAtOne(SyncAt(ops, n - 1), At(ops, n - 1), ops[n - 1]);
      NoMovesYet(ops, n - 1, u);
    }
  }

  lemma ChildIsAtOne(s: Sync, e: Machine, op: Op)
    requires Matches(s, e) && MachineOk(e) && Enabled(e, op) && |s.clocks| <= MAX_THREAD_COUNT && Bounded(s, e)
    ensures op.Create? ==>
              var s' := SyncStep(s, op, ParentOf(e, op.t));
              op.child == |s.clocks| < |s'.clocks| <= MAX_THREAD_COUNT && Own(s', op.child) == 1
  {
    hide BarriersOk, Bounded;
    if op.Create? { UnbornUnknown(s, e, op.t, op.child); }
  }

  lemma UnbornUnknown(s: Sync, e: Machine, t: nat, c: nat)
    requires Matches(s, e) && MachineOk(e) && Enabled(e, Create(t, c)) && |s.clocks| <= MAX_THREAD_COUNT
             && Bounded(s, e)
    ensures t < |s.clocks| == c < MAX_THREAD_COUNT && s.clocks[t].vc[c] == 0
  {
    hide BarriersOk;
    assert c < MAX_THREAD_COUNT && !Gone(e, c) && Live(s, OfThread(t));
    assert Val(s, OfThread(t))[c] == 0;
  }

  /** A release is handed to one acquire only: the next one, with no release between, just advances. */
  lemma ReleaseUsedOnce(s: Sync, t: nat, u: nat, m: nat, parent: int, parent': int)
    requires Accepts(s, Lock(t, m)) && u < |s.clocks| && m <= 0x40000000
    ensures var s1 := SyncStep(s, Lock(t, m), parent);
            var s2 := SyncStep(s1, Lock(u, m), parent');
            && |s1.clocks| == |s2.clocks| == |s.clocks|
            && s2.clocks[u].vc == s1.clocks[u].vc[s1.clocks[u].threadId := s1.clocks[u].vc[s1.clocks[u].threadId] + 1]
  {
  }

  /** The own entry is that of an access until its thread has moved on. */
  lemma {:induction false} EpochUntil(ops: seq<Op>, i: nat, n: nat)
    requires ValidRun(ops) && i < n <= |ops| && ops[i].IsAccess()
    ensures var u := ops[i].t;
            && u < |At(ops, n).status| && u < |SyncAt(ops, n).clocks| <= MAX_THREAD_COUNT
            && Epoch(ops, i) <= Own(SyncAt(ops, n), u)
            && (Epoch(ops, i) == Own(SyncAt(ops, n), u) <==> forall k :: i < k < n ==> !MovesOn(ops[k], u))
  {
    hide ValidRun, SyncAt, At, Own, Epoch, ClockAt;
    var u, before := ops[i].t, n - 1;
    if before == i {
      RunningAccess(ops, i);
      OwnAt(ops, i, u);
    } else {
      EpochUntil(ops, i, before);
      OwnAt(ops, before, u);
    }
  }

  /** The own entry never falls. */
  lemma {:induction false} OwnRises(ops: seq<Op>, m: nat, n: nat, u: nat)
    requires ValidRun(ops) && m <= n <= |ops| && u < |At(ops, m).status|
    ensures u < |SyncAt(ops, m).clocks| <= MAX_THREAD_COUNT && u < |SyncAt(ops, n).clocks| <= MAX_THREAD_COUNT
    ensures u < |At(ops, n).status| && Own(SyncAt(ops, m), u) <= Own(SyncAt(ops, n), u)
  {
    hide ValidRun, SyncAt, At, Own;
    if m == n {
      MatchingSizes(ops, n);
    } else {
      OwnRises(ops, m, n - 1, u);
      OwnAt(ops, n - 1, u);
    }
  }

  /** The stretch that a closing operation ends is the epoch that it closes. */
  lemma StretchIsEpoch(ops: seq<Op>, j: nat, n: nat)
    requires ValidRun(ops) && n < |ops| && Access(ops, n, j) && Closes(ops[n]) && ops[j].t == ops[n].t
    ensures ops[n].t < |SyncAt(ops, n).clocks| <= MAX_THREAD_COUNT
    ensures EndsStretch(ops, j, n) <==> Epoch(ops, j) == Own(SyncAt(ops, n), ops[n].t)
  {
    hide ValidRun, SyncAt, Own, Epoch, Closes, MovesOn;
    EpochUntil(ops, j, n);
    forall k | j < k < n ensures ops[k].t == ops[n].t && Closes(ops[k]) <==> MovesOn(ops[k], ops[n].t) {
      MovesOnCloses(ops[k], ops[n].t);
      if ops[k] == Finish(ops[n].t) { Recording.FinishIsLast(ops, k, n, ops[n].t); }
    }
  }

  /** A signature is dirty just when its stretch has an access. */
  lemma BusyIsDirty(ops: seq<Op>, n: nat)
    requires ValidRun(ops) && n < |ops|
    ensures EndsBusyStretch(ops, n) <==> ClosesDirty(ops, n)
  {
    hide ValidRun, SyncAt, StateAt, At, Own, Epoch, Closes, Describes, EndsStretch, ClockAt;
    if Closes(ops[n]) {
      ClosingSignature(ops, n);
      var g := SignatureOf(StateAt(ops, n), ops[n].t);
      if g.IsDirty() {
        var i := DirtyHasAccess(ops, n, ops[n].t, g);
        StretchIsEpoch(ops, i, n);
      }
      if i: nat :| EndsStretch(ops, i, n) {
        StretchHasAccess(ops, i, n);
        StretchIsEpoch(ops, i, n);
        AccessIsInSets(ops, n, ops[n].t, g, i);
      }
    } else if i: nat :| EndsStretch(ops, i, n) {
      StretchHasAccess(ops, i, n);
    }
  }

  lemma StretchHasAccess(ops: seq<Op>, i: nat, n: nat)
    requires n < |ops| && EndsStretch(ops, i, n)
    ensures Access(ops, n, i) && ops[i].t == ops[n].t && Closes(ops[n])
  {
  }

  lemma ClosingSignature(ops: seq<Op>, n: nat)
    requires ValidRun(ops) && n < |ops| && Closes(ops[n])
    ensures SameTables(StateAt(ops, n)) && ops[n].t < |StateAt(ops, n).queues|
    ensures ops[n].t < |SyncAt(ops, n).clocks| <= MAX_THREAD_COUNT
    ensures var g := SignatureOf(StateAt(ops, n), ops[n].t);
            Describes(ops, n, ops[n].t, g) && g.ts.vc[ops[n].t] == Own(SyncAt(ops, n), ops[n].t)
  {
    hide ValidRun, SyncAt, StateAt, At, Closes, Describes, Step, Accepts, MachineOk, SyncStep, Next, Matches, Bounded;
    Tables(ops, n);
    ClosingRuns(ops, n);
    EveryDetectorOk(ops, n);
    assert OpenEpochOk(ops, n, ops[n].t);
  }

  // -------------------------------------------------------------------------------------------
  // A busy stretch is kept while fewer than sixteen others of its thread have been ended since.

  lemma {:induction false} HandedAt(ops: seq<Op>, m: nat, n: nat)
    requires ValidRun(ops) && m < n <= |ops| && ClosesDirty(ops, m)
    ensures var u := ops[m].t;
            var k := BusyStretches(ops, m, n, u);
            k < |HandedOver(ops, n, u)| && HandedOver(ops, n, u)[k] == SignatureOf(StateAt(ops, m), u)
  {
    hide ValidRun, StateAt, ClosesDirty, EndsBusyStretch, SameTables;
    assert SameTables(StateAt(ops, m)) && ops[m].t < |StateAt(ops, m).queues| by { DirtyTables(ops, m); }
    if m + 1 < n {
      HandedAt(ops, m, n - 1);
      BusyIsDirty(ops, n - 1);
    }
  }

  lemma DirtyTables(ops: seq<Op>, m: nat)
    requires m < |ops| && ClosesDirty(ops, m)
    ensures SameTables(StateAt(ops, m)) && ops[m].t < |StateAt(ops, m).queues|
  {
    hide StateAt;
  }

  lemma {:induction false} HandedFrom(ops: seq<Op>, n: nat, u: nat, k: nat) returns (m: nat)
    requires ValidRun(ops) && n <= |ops| && k < |HandedOver(ops, n, u)|
    ensures m < n && ops[m].t == u && ClosesDirty(ops, m) && BusyStretches(ops, m, n, u) == k
    ensures SameTables(StateAt(ops, m)) && u < |StateAt(ops, m).queues|
    ensures HandedOver(ops, n, u)[k] == SignatureOf(StateAt(ops, m), u)
  {
    hide ValidRun, StateAt, ClosesDirty, EndsBusyStretch, SameTables;
    if ops[n - 1].t == u && ClosesDirty(ops, n - 1) {
      BusyIsDirty(ops, n - 1);
      DirtyTables(ops, n - 1);
      if k == 0 { m := n - 1; } else { m := HandedFrom(ops, n - 1, u, k - 1); }
    } else {
      m := HandedFrom(ops, n - 1, u, k);
      BusyIsDirty(ops, n - 1);
    }
  }

  /** The access is older than the operation that closes its epoch. */
  lemma ClosedAfterwards(ops: seq<Op>, i: nat, m: nat)
    requires ValidRun(ops) && m < |ops| && Access(ops, |ops|, i) && Closes(ops[m]) && ops[m].t == ops[i].t
    requires ops[m].t < |SyncAt(ops, m).clocks| <= MAX_THREAD_COUNT && Epoch(ops, i) == Own(SyncAt(ops, m), ops[m].t)
    ensures i < m
  {
    hide ValidRun, SyncAt, At, Own, Epoch;
    if m < i {
      if ops[m].Finish? { Recording.FinishIsLast(ops, m, i, ops[i].t); }
      ClosingRuns(ops, m);
      MovesOnCloses(ops[m], ops[i].t);
      OwnAt(ops, m, ops[i].t);
      OwnRises(ops, m + 1, i, ops[i].t);
      RunningAccess(ops, i);
    }
  }

  lemma RetainedWasEnded(ops: seq<Op>, n: nat, i: nat)
    requires ValidRun(ops) && n <= |ops| && Access(ops, n, i) && Retained(ops, n, i)
    ensures exists m: nat :: KeptSince(ops, n, i, m)
  {
    hide ValidRun, SyncAt, StateAt, Own, Epoch, HandedOver, EndsStretch, BusyStretches, ClosesDirty, SameTables, Closes,
         Describes;
    var u := ops[i].t;
    HistoriesKeepTheNewest(ops, n, u);
    var k: nat :| k < |StateAt(ops, n).queues[u]| && StateAt(ops, n).queues[u][k].ts.vc[u] == Epoch(ops, i);
    var m := HandedFrom(ops, n, u, k);
    DirtyCloses(ops, m);
    ClosingSignature(ops, m);
    ClosedAfterwards(ops, i, m);
    StretchIsEpoch(ops, i, m);
    assert KeptSince(ops, n, i, m);
  }

  lemma DirtyCloses(ops: seq<Op>, m: nat)
    requires m < |ops| && ClosesDirty(ops, m)
    ensures Closes(ops[m])
  {
    hide StateAt, Closes;
  }

  lemma KeptIsRetained(ops: seq<Op>, n: nat, i: nat, m: nat)
    requires ValidRun(ops) && n <= |ops| && KeptSince(ops, n, i, m)
    ensures i < n && Retained(ops, n, i)
  {
    hide ValidRun, StateAt, BusyStretches, KeptSince, Epoch;
    KeptEntry(ops, n, i, m);
  }

  lemma QueueOf(ops: seq<Op>, n: nat, u: nat)
    requires ValidRun(ops) && n <= |ops| && u < |At(ops, n).status|
    ensures u < |StateAt(ops, n).queues| && u < MAX_THREAD_COUNT
  {
    hide ValidRun, SyncAt, StateAt, At;
    StateHasSync(ops, n);
    MatchingSizes(ops, n);
  }

  /** What the histories still hold, in terms of the run. */
  lemma RetainedIffKept(ops: seq<Op>, n: nat, i: nat)
    requires ValidRun(ops) && n <= |ops| && Access(ops, n, i)
    ensures Retained(ops, n, i) <==> exists m: nat :: KeptSince(ops, n, i, m)
  {
    hide ValidRun, Retained, KeptSince;
    if Retained(ops, n, i) { RetainedWasEnded(ops, n, i); }
    if m: nat :| KeptSince(ops, n, i, m) { KeptIsRetained(ops, n, i, m); }
  }

  lemma RacePairIsRace(ops: seq<Op>, n: nat, i: nat, j: nat)
    requires ValidRun(ops) && n < |ops|
    ensures Closes(ops[n]) && RacePair(ops, n, i, j) <==> Races(ops, n, i, j)
  {
    hide ValidRun, SyncAt, Own, Epoch, Retained, KeptSince, HB, Closes, EndsStretch;
    if Races(ops, n, i, j) { StretchHasAccess(ops, j, n); }
    if Access(ops, n, i) { RetainedIffKept(ops, n, i); }
    if Access(ops, n, j) && Closes(ops[n]) && ops[j].t == ops[n].t { StretchIsEpoch(ops, j, n); }
  }

  /** Main result: an operation of a run makes the detector report a race exactly when it ends a stretch
      with an access that races with one of a stretch still kept. */
  lemma ReportsExactlyTheRacesOfTheRun(ops: seq<Op>, n: nat)
    requires ValidRun(ops) && n < |ops|
    ensures StateAt(ops, n + 1).races != StateAt(ops, n).races <==> exists i: nat, j: nat :: Races(ops, n, i, j)
  {
    hide ValidRun, StateAt, Closes, RacePair, Races;
    ReportsExactlyTheRaces(ops, n);
    forall i: nat, j: nat ensures Closes(ops[n]) && RacePair(ops, n, i, j) <==> Races(ops, n, i, j) {
      RacePairIsRace(ops, n, i, j);
    }
  }

  // -------------------------------------------------------------------------------------------
  // What the report says.

  /** The stretch that operation n ends reads an address that the one ended at m writes. */
  ghost predicate ReadsWritten(ops: seq<Op>, n: nat, m: nat)
    requires n < |ops| && m < |ops|
  {
    exists j: nat, i: nat ::
      EndsStretch(ops, j, n) && EndsStretch(ops, i, m) && ops[j].Read? && ops[i].Write? && ops[j].a == ops[i].a
  }

  ghost predicate WritesRead(ops: seq<Op>, n: nat, m: nat)
    requires n < |ops| && m < |ops|
  {
    exists j: nat, i: nat ::
      EndsStretch(ops, j, n) && EndsStretch(ops, i, m) && ops[j].Write? && ops[i].Read? && ops[j].a == ops[i].a
  }

  /** All races of operation n are with threads of higher numbers, or with stretches of m's thread that
      were not ended later. */
  ghost predicate FirstRacing(ops: seq<Op>, n: nat, m: nat)
    requires n < |ops| && m < |ops|
  {
    forall i: nat, j: nat, m': nat :: Races(ops, n, i, j) && KeptSince(ops, n, i, m') ==>
      ops[m].t < ops[i].t || (ops[m].t == ops[i].t && m' <= m)
  }

  lemma EntryOfStretch(ops: seq<Op>, n: nat, u: nat, k: nat) returns (m: nat)
    requires ValidRun(ops) && n <= |ops| && u < |StateAt(ops, n).queues| && k < |StateAt(ops, n).queues[u]|
    ensures m < n && ops[m].t == u && Closes(ops[m]) && BusyStretches(ops, m, n, u) == k < 16
    ensures u < |SyncAt(ops, m).clocks| <= MAX_THREAD_COUNT
    ensures StateAt(ops, n).queues[u][k].ts.vc[u] == Own(SyncAt(ops, m), u)
  {
    hide ValidRun, SyncAt, StateAt, Own, HandedOver, BusyStretches, ClosesDirty, SameTables, Closes, Describes;
    HistoriesKeepTheNewest(ops, n, u);
    m := HandedFrom(ops, n, u, k);
    DirtyCloses(ops, m);
    ClosingSignature(ops, m);
  }

  /** An access in a signature is one of the stretch. */
  lemma InEntry(ops: seq<Op>, n: nat, m: nat, g: Signature, a: nat, written: bool)
    requires ValidRun(ops) && m <= n <= |ops| && m < |ops| && Closes(ops[m])
    requires ops[m].t < |SyncAt(ops, m).clocks| <= MAX_THREAD_COUNT
    requires Describes(ops, n, ops[m].t, g) && g.ts.vc[ops[m].t] == Own(SyncAt(ops, m), ops[m].t)
    ensures a in (if written then g.w else g.r) <==>
            exists i: nat :: EndsStretch(ops, i, m) && ops[i].a == a && ops[i].Write? == written
  {
    hide ValidRun, SyncAt, Own, Closes, Epoch, ClockAt, Describes;
    var u := ops[m].t;
    if a in (if written then g.w else g.r) {
      var i := SetsHaveAccess(ops, n, u, g, a, written);
      ClosedAfterwards(ops, i, m);
      StretchIsEpoch(ops, i, m);
    }
    if i: nat :| EndsStretch(ops, i, m) && ops[i].a == a && ops[i].Write? == written {
      StretchHasAccess(ops, i, m);
      StretchIsEpoch(ops, i, m);
      AccessIsInSets(ops, n, u, g, i);
    }
  }

  /** The kind that two signatures have is that of their stretches. */
  lemma KindOfStretches(ops: seq<Op>, n: nat, m: nat, e: Signature, o: Signature, kind: Kind)
    requires ValidRun(ops) && m < n < |ops| && Closes(ops[n]) && Closes(ops[m]) && KindIs(e, o, kind)
    requires ops[n].t < |SyncAt(ops, n).clocks| <= MAX_THREAD_COUNT
    requires ops[m].t < |SyncAt(ops, m).clocks| <= MAX_THREAD_COUNT
    requires Describes(ops, n, ops[n].t, e) && e.ts.vc[ops[n].t] == Own(SyncAt(ops, n), ops[n].t)
    requires Describes(ops, n, ops[m].t, o) && o.ts.vc[ops[m].t] == Own(SyncAt(ops, m), ops[m].t)
    ensures kind == ReadWrite <==> ReadsWritten(ops, n, m)
    ensures kind == WriteRead <==> !ReadsWritten(ops, n, m) && WritesRead(ops, n, m)
    ensures kind == WriteWrite <==> !ReadsWritten(ops, n, m) && !WritesRead(ops, n, m)
  {
    hide ValidRun, SyncAt, Own, Closes, Describes, EndsStretch, ReadsWritten, WritesRead;
    Meeting(ops, n, m, e, o, false);
    Meeting(ops, n, m, e, o, true);
  }

  lemma Meeting(ops: seq<Op>, n: nat, m: nat, e: Signature, o: Signature, written: bool)
    requires ValidRun(ops) && m < n < |ops| && Closes(ops[n]) && Closes(ops[m])
    requires ops[n].t < |SyncAt(ops, n).clocks| <= MAX_THREAD_COUNT
    requires ops[m].t < |SyncAt(ops, m).clocks| <= MAX_THREAD_COUNT
    requires Describes(ops, n, ops[n].t, e) && e.ts.vc[ops[n].t] == Own(SyncAt(ops, n), ops[n].t)
    requires Describes(ops, n, ops[m].t, o) && o.ts.vc[ops[m].t] == Own(SyncAt(ops, m), ops[m].t)
    ensures if written then e.w * o.r != {} <==> WritesRead(ops, n, m) else e.r * o.w != {} <==> ReadsWritten(ops, n, m)
  {
    hide ValidRun, SyncAt, Own, Closes, Describes;
    var common := if written then e.w * o.r else e.r * o.w;
    if a :| a in common {
      InEntry(ops, n, n, e, a, written);
      InEntry(ops, n, m, o, a, !written);
      var j: nat :| EndsStretch(ops, j, n) && ops[j].a == a && ops[j].Write? == written;
      var i: nat :| EndsStretch(ops, i, m) && ops[i].a == a && ops[i].Write? == !written;
      StretchHasAccess(ops, j, n);
      StretchHasAccess(ops, i, m);
    }
    if j: nat, i: nat :| EndsStretch(ops, j, n) && EndsStretch(ops, i, m) && ops[j].a == ops[i].a &&
                         ops[j].Write? == written && ops[i].Write? == !written {
      InEntry(ops, n, n, e, ops[j].a, written);
      InEntry(ops, n, m, o, ops[j].a, !written);
      assert ops[j].a in common;
    }
  }

  /** Later stretches have fewer after them. */
  lemma {:induction false} LaterHasFewer(ops: seq<Op>, m: nat, m': nat, n: nat, u: nat)
    requires m < m' < n <= |ops| && ops[m'].t == u && EndsBusyStretch(ops, m')
    ensures BusyStretches(ops, m', n, u) < BusyStretches(ops, m, n, u)
  {
    hide EndsBusyStretch;
    if m' + 1 < n { LaterHasFewer(ops, m, m', n - 1, u); }
  }

  lemma SeenIfUnordered(ops: seq<Op>, n: nat, u: nat, k: nat)
    requires ValidRun(ops) && n < |ops| && ClosesDirty(ops, n)
    requires SameTables(StateAt(ops, n)) && ops[n].t < |StateAt(ops, n).queues|
    requires u < |StateAt(ops, n).queues| && u != ops[n].t && k < |StateAt(ops, n).queues[u]|
    requires Concurrent(SignatureOf(StateAt(ops, n), ops[n].t).ts, StateAt(ops, n).queues[u][k].ts)
    ensures var qs := QueuesAfter(StateAt(ops, n), ops[n]);
            u < |qs| && qs[u] == StateAt(ops, n).queues[u] && Seen(SignatureOf(StateAt(ops, n), ops[n].t), qs[u], k)
  {
    hide ValidRun, StateAt, ClosesDirty, Closes, Concurrent, QueuesAfter, SameTables;
    QueueAfter(StateAt(ops, n), ops[n], u);
    PrefixInEveryHistory(ops, n, u);
  }

  /** A race makes an entry of its stretch that the scan gets to, and that clashes. */
  lemma RaceIsSeen(ops: seq<Op>, n: nat, i: nat, j: nat, m: nat) returns (k: nat)
    requires ValidRun(ops) && n < |ops| && Races(ops, n, i, j) && KeptSince(ops, n, i, m)
    requires SameTables(StateAt(ops, n)) && ops[n].t < |StateAt(ops, n).queues|
    ensures var e, qs := SignatureOf(StateAt(ops, n), ops[n].t), QueuesAfter(StateAt(ops, n), ops[n]);
            && ops[i].t != ops[n].t && ops[i].t == ops[m].t && k == BusyStretches(ops, m, n, ops[m].t)
            && ops[m].t < |qs| && k < |qs[ops[m].t]| && Seen(e, qs[ops[m].t], k) && Clashes(e, qs[ops[m].t][k])
    ensures EndsBusyStretch(ops, m)
  {
    hide ValidRun, SyncAt, StateAt, At, Own, Epoch, HandedOver, BusyStretches, ClosesDirty, SameTables, Closes,
         Describes,
         EndsStretch, Concurrent, Clashes, Seen, QueuesAfter, RacePair;
    k := BusyStretches(ops, m, n, ops[m].t);
    RaceThreads(ops, n, i, j);
    RacePairIsRace(ops, n, i, j);
    KeptEntry(ops, n, i, m);
    RaceAtEntry(ops, n, i, j, k);
    SeenIfUnordered(ops, n, ops[m].t, k);
  }

  lemma RaceThreads(ops: seq<Op>, n: nat, i: nat, j: nat)
    requires n < |ops| && Races(ops, n, i, j)
    ensures Closes(ops[n]) && i < n && ops[i].t != ops[n].t
  {
    hide Closes, HB, KeptSince;
  }

  /** The entry of a stretch that is still kept. */
  lemma KeptEntry(ops: seq<Op>, n: nat, i: nat, m: nat)
    requires ValidRun(ops) && n <= |ops| && KeptSince(ops, n, i, m)
    ensures var u, k := ops[m].t, BusyStretches(ops, m, n, ops[m].t);
            && i < n && ops[i].t == u < MAX_THREAD_COUNT && u < |StateAt(ops, n).queues|
            && k < |StateAt(ops, n).queues[u]|
            && StateAt(ops, n).queues[u][k].ts.vc[u] == Epoch(ops, i)
    ensures EndsBusyStretch(ops, m)
  {
    hide ValidRun, SyncAt, StateAt, At, Own, Epoch, HandedOver, EndsStretch, BusyStretches, ClosesDirty, SameTables,
         Closes, Describes;
    var u := ops[m].t;
    StretchHasAccess(ops, i, m);
    assert EndsBusyStretch(ops, m);
    BusyIsDirty(ops, m);
    HandedAt(ops, m, n);
    ClosingSignature(ops, m);
    StretchIsEpoch(ops, i, m);
    EpochUntil(ops, i, n);
    QueueOf(ops, n, u);
    HistoriesKeepTheNewest(ops, n, u);
  }

  lemma FirstIsFirst(ops: seq<Op>, n: nat, m: nat, k: nat)
    requires ValidRun(ops) && m < n < |ops| && k == BusyStretches(ops, m, n, ops[m].t)
    requires SameTables(StateAt(ops, n)) && ops[n].t < |StateAt(ops, n).queues|
    requires FirstClash(SignatureOf(StateAt(ops, n), ops[n].t), QueuesAfter(StateAt(ops, n), ops[n]), 0, ops[m].t, k)
    ensures FirstRacing(ops, n, m)
  {
    hide ValidRun, StateAt, BusyStretches, SameTables, Seen, Clashes, QueuesAfter, EndsBusyStretch, Closes, HB;
    forall i: nat, j: nat, m': nat | Races(ops, n, i, j) && KeptSince(ops, n, i, m')
      ensures ops[m].t < ops[i].t || (ops[m].t == ops[i].t && m' <= m)
    {
      var k' := RaceIsSeen(ops, n, i, j, m');
      KeptBefore(ops, n, i, m');
      if m < m' && ops[m'].t == ops[m].t { LaterHasFewer(ops, m, m', n, ops[m].t); }
    }
  }

  lemma KeptBefore(ops: seq<Op>, n: nat, i: nat, m: nat)
    requires n <= |ops| && KeptSince(ops, n, i, m)
    ensures m < n && EndsStretch(ops, i, m)
  {
  }

  /** What is reported. The stretch ended at m, of thread u, is still kept and holds an access that races with one
      of the ended stretch; it is the first such stretch; and the kind is that of the two stretches. */
  lemma ReportNamesARaceOfTheRun(ops: seq<Op>, n: nat) returns (kind: Kind, m: nat, i: nat, j: nat)
    requires ValidRun(ops) && n < |ops| && StateAt(ops, n + 1).races != StateAt(ops, n).races
    ensures m < n && StateAt(ops, n + 1).races == StateAt(ops, n).races + [Race(kind, ops[n].t, ops[m].t)]
    ensures Races(ops, n, i, j) && KeptSince(ops, n, i, m) && FirstRacing(ops, n, m)
    ensures kind == if ops[j].Read? then ReadWrite else if ops[i].Read? then WriteRead else WriteWrite
    ensures kind == ReadWrite <==> ReadsWritten(ops, n, m)
    ensures kind == WriteRead <==> !ReadsWritten(ops, n, m) && WritesRead(ops, n, m)
    ensures kind == WriteWrite <==> !ReadsWritten(ops, n, m) && !WritesRead(ops, n, m)
  {
    hide ValidRun, SyncAt, StateAt, At, Own, Epoch, BusyStretches, ClosesDirty, SameTables, Closes, Describes,
         EndsStretch,
         Concurrent, QueuesAfter, RacePair, Races, KeptSince, ReadsWritten, WritesRead, KindIs, FirstClash, FirstRacing;
    var u, k;
    kind, u, k := ReportedEntry(ops, n);
    i, j := EntriesGiveRace(ops, n, u, k, kind);
    RacePairIsRace(ops, n, i, j);
    RaceThreads(ops, n, i, j);
    m := EntryOfStretch(ops, n, u, k);
    EntryIsKept(ops, n, i, m);
    ClosingSignature(ops, n);
    FirstIsFirst(ops, n, m, k);
    EntryDescribes(ops, n, u, k);
    KindOfStretches(ops, n, m, SignatureOf(StateAt(ops, n), ops[n].t), StateAt(ops, n).queues[u][k], kind);
  }

  lemma EntryDescribes(ops: seq<Op>, n: nat, u: nat, k: nat)
    requires ValidRun(ops) && n <= |ops| && u < |At(ops, n).status|
    requires u < |StateAt(ops, n).queues| && k < |StateAt(ops, n).queues[u]|
    ensures Describes(ops, n, u, StateAt(ops, n).queues[u][k])
  {
    hide ValidRun, SyncAt, StateAt, At, Closed, SameTables, Describes;
    EveryDetectorOk(ops, n);
    assert HistoryOf(ops, n, u);
  }

  lemma EntryIsKept(ops: seq<Op>, n: nat, i: nat, m: nat)
    requires ValidRun(ops) && m < n < |ops| && i < n && ops[i].IsAccess() && ops[i].t == ops[m].t && Closes(ops[m])
    requires ops[m].t < |SyncAt(ops, m).clocks| <= MAX_THREAD_COUNT && Epoch(ops, i) == Own(SyncAt(ops, m), ops[m].t)
    requires BusyStretches(ops, m, n, ops[m].t) < 16
    ensures KeptSince(ops, n, i, m)
  {
    hide ValidRun, SyncAt, Own, Epoch, Closes, EndsStretch;
    ClosedAfterwards(ops, i, m);
    StretchIsEpoch(ops, i, m);
  }
}
