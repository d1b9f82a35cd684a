/** The replayer's hooks: thread-local epochs and the global clock, updated in place. A hook that has
    to wait changes nothing and says so; otherwise it performs the step of the transition system. */
module ReplayHooks {
  import opened Clocks
  import opened Programs
  import opened Recording
  import opened Replay

  class ReplayTool {
    const record: Record
    const GRT: VectorClock
    var threads: seq<Worker>
    var currentCreateOrder: nat
    var globalCreatedThreadId: nat
    var atomicCreate: bool

    /** The creation lock is held just while a creation is in progress. */
    ghost predicate Valid()
      reads this, GRT, GRT.vc
    {
      && GRT.Valid() && GRT.threadId == NON_THREAD_VECTOR_CLOCK
      && (atomicCreate <==> exists t :: 0 <= t < |threads| && threads[t].phase == Creating)
      && (forall t, u :: 0 <= t < u < |threads| ==> !(threads[t].phase == Creating && threads[u].phase == Creating))
    }

    ghost function View(): State
      requires GRT.Valid()
      reads this, GRT, GRT.vc
    {
      State(threads, GRT.View().vc, currentCreateOrder, globalCreatedThreadId)
    }

    constructor (r: Record)
      ensures Valid() && View() == Begin() && record == r && fresh(GRT) && fresh(GRT.vc)
    {
      record := r;
      GRT := new VectorClock(NON_THREAD_VECTOR_CLOCK);
      threads := [NewWorker(0, -1)];
      currentCreateOrder, globalCreatedThreadId, atomicCreate := 0, 1, false;
    }

    /** Take the next clock off the thread's epoch list. */
    method TryAdvanceTRT(tid: nat) returns (advanced: bool)
      requires tid < |threads|
      modifies this`threads
      ensures advanced == (old(threads[tid]).epochList != [])
      ensures threads == old(threads)[tid := AdvanceTRT(old(threads[tid]), tid)]
    {
      var tls := threads[tid];
      if tls.epochList != [] {
        threads := threads[tid := tls.(currentVC := tls.trt, trt := Clock(tid, tls.epochList[0]),
          epochList := tls.epochList[1..])];
        return true;
      }
      return false;
    }

    /** One turn of the wait loop. */
    method TryUpdateGRT(tid: nat, trt: Clock) returns (passed: bool)
      requires GRT.Valid() && GRT.threadId == NON_THREAD_VECTOR_CLOCK && trt.threadId == tid < MAX_THREAD_COUNT
      modifies GRT.vc
      ensures GRT.Valid() && passed == Covered(trt, old(GRT.View().vc))
      ensures GRT.View() == if passed then old(GRT.View()).(vc := UpdateGRT(old(GRT.View().vc), trt, tid))
              else old(GRT.View())
    {
      var i := 0;
      while i < MAX_THREAD_COUNT
        invariant 0 <= i <= MAX_THREAD_COUNT
        invariant forall k :: 0 <= k < i && k != tid ==> trt.vc[k] <= GRT.vc[k]
      {
        if i != tid && trt.vc[i] > GRT.vc[i] {
          assert trt.vc[i] > GRT.View().vc[i];
          return false;
        }
        i := i + 1;
      }
      GRT.vc[tid] := trt.vc[tid];
      return true;
    }

    method BeforeCreate(tid: nat) returns (passed: bool)
      requires Valid() && tid < |threads| && threads[tid].trt.threadId == tid < MAX_THREAD_COUNT
      requires AtOp(record, threads[tid]) && OpOf(record, threads[tid]).Create?
      requires !atomicCreate ==> currentCreateOrder < |record.order|
      modifies this, GRT.vc
      ensures Valid() && passed == Ready(record, old(View()), BeginCreate(tid))
      ensures View() == if passed then Apply(record, old(View()), BeginCreate(tid)) else old(View())
    {
      if atomicCreate || record.order[currentCreateOrder].1 != tid {
        return false;
      }
      passed := TryUpdateGRT(tid, threads[tid].trt);
      if !passed {
        return;
      }
      atomicCreate := true;
      var tls := threads[tid];
      threads := threads[tid := tls.(childVC := tls.childVC[globalCreatedThreadId := tls.currentVC])];
      var _ := TryAdvanceTRT(tid);
      // the created thread appears
      threads := threads[tid := threads[tid].(phase := Creating)] + [NewWorker(OpOf(record, tls).child, tid)];
      assert threads[tid].phase == Creating;
    }

    method AfterCreate(tid: nat)
      requires Valid() && tid < |threads| && Ready(record, View(), EndCreate(tid))
      modifies this
      ensures Valid() && View() == Apply(record, old(View()), EndCreate(tid))
    {
      globalCreatedThreadId := globalCreatedThreadId + 1;
      currentCreateOrder := currentCreateOrder + 1;
      threads := threads[tid := threads[tid].(phase := Active, pc := threads[tid].pc + 1)];
      atomicCreate := false;
    }

    method BeforeJoin(tid: nat) returns (passed: bool)
      requires Valid() && tid < |threads| && threads[tid].trt.threadId == tid < MAX_THREAD_COUNT
      requires AtOp(record, threads[tid]) && OpOf(record, threads[tid]).Join?
      modifies this`threads, GRT.vc
      ensures Valid() && passed == Ready(record, old(View()), DoJoin(tid))
      ensures View() == if passed then Apply(record, old(View()), DoJoin(tid)) else old(View())
    {
      passed := TryUpdateGRT(tid, threads[tid].trt);
      if passed {
        ghost var before := threads;
        var _ := TryAdvanceTRT(tid);
        threads := threads[tid := threads[tid].(pc := threads[tid].pc + 1)];
        assert forall t :: 0 <= t < |threads| ==> threads[t].phase == before[t].phase;
      }
    }

    /** Load the thread's log, wait for its first clock, and compare that with the clock computed
        from the creator's, which is then forgotten. */
    method ThreadStart(tid: nat) returns (passed: bool, agrees: bool)
      requires Valid() && tid < |threads| && tid < MAX_THREAD_COUNT && threads[tid].phase == Created
      requires tid < |record.logs| && record.logs[tid] != []
      modifies this`threads, GRT.vc
      ensures Valid() && passed == Ready(record, old(View()), Start(tid))
      ensures View() == if passed then Apply(record, old(View()), Start(tid)) else old(View())
      ensures passed ==> agrees == StartAgrees(record, old(View()), tid)
    {
      hide Covered, ChildOf;
      var tls := AdvanceTRT(threads[tid].(epochList := record.logs[tid]), tid);
      agrees := true;
      passed := TryUpdateGRT(tid, tls.trt);
      if !passed {
        return;
      }
      tls := AdvanceTRT(tls.(currentVC := tls.trt), tid).(phase := Active);
      ghost var before := threads;
      threads := threads[tid := tls];
      assert forall t :: 0 <= t < |threads| && t != tid ==> threads[t].phase == before[t].phase;
      var p := tls.parent;
      if p >= 0 {
        if p < |threads| && tid in threads[p].childVC && 0 <= threads[p].childVC[tid].threadId < MAX_THREAD_COUNT {
          agrees := tls.currentVC.vc == ChildOf(threads[p].childVC[tid], tid).vc;
        } else {
          agrees := false;
        }
        if p < |threads| {
          ghost var between := threads;
          threads := threads[p := threads[p].(childVC := threads[p].childVC - {tid})];
          assert forall t :: 0 <= t < |threads| ==> threads[t].phase == between[t].phase;
        }
      }
    }

    method ThreadFini(tid: nat)
      requires Valid() && tid < |threads| && threads[tid].trt.threadId == tid < MAX_THREAD_COUNT
      requires Ready(record, View(), DoFinish(tid))
      modifies this`threads, GRT.vc
      ensures Valid() && View() == Apply(record, old(View()), DoFinish(tid))
    {
      ghost var before := threads;
      var trt := Advance(threads[tid].trt);
      threads := threads[tid := threads[tid].(phase := Done, trt := trt)];
      GRT.vc[tid] := trt.vc[tid];
      assert forall t :: 0 <= t < |threads| && t != tid ==> threads[t].phase == before[t].phase;
    }
  }
}
