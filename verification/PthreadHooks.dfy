/** The intercepted pthread operations as the detector runs them: tables indexed by thread and maps
    indexed by address, updated in place, against the step function of the whole state. */
module PthreadHooks {
  import opened Optional
  import opened Clocks
  import opened Detection
  import opened Programs
  import opened Synchronization
  import opened Recorder

  const PTHREAD_BARRIER_SERIAL_THREAD: int := -1

  class Hooks {
    var clocks: seq<ThreadClock>
    var joinVC: seq<map<nat, ThreadClock>>
    var readFilters: seq<set<nat>>
    var writeFilters: seq<set<nat>>
    var logs: seq<seq<Vec>>
    var unlockedThreadMap: map<nat, ThreadInfo>
    var barrierWaitMap: map<nat, BarrierData>
    var threadCreateOrder: seq<(nat, nat)>
    var races: seq<Race>
    const rdm: RaceDetectionModule

    ghost predicate Valid()
      reads this, rdm
    {
      rdm.Valid() && |joinVC| == |clocks| && SameTables(View())
    }

    ghost function View(): State
      reads this, rdm
    {
      State(Sync(clocks, joinVC, unlockedThreadMap, barrierWaitMap),
            readFilters, writeFilters, logs, rdm.blockHistoryQueues, threadCreateOrder, races)
    }

    /** The module is ready and the initial thread has started. */
    constructor ()
      ensures Valid() && View() == Initial() && fresh(rdm)
    {
      clocks, joinVC := [Clock(0, Bump(Zero(), 0))], [map[]];
      readFilters, writeFilters, logs := [{}], [{}], [[]];
      unlockedThreadMap, barrierWaitMap := map[], map[];
      threadCreateOrder, races := [], [];
      rdm := new RaceDetectionModule();
      new;
      rdm.AddProcessor();
    }

    /** Print the thread's clock and add its signature to the module. */
    method PrintAndAdd(tid: nat)
      requires Valid() && tid < |clocks|
      modifies this`logs, this`races, rdm
      ensures Valid() && View() == CloseEpoch(old(View()), tid, false)
    {
      logs := logs[tid := logs[tid] + [clocks[tid].vc]];
      var race := rdm.Add(Signature(tid, clocks[tid], readFilters[tid], writeFilters[tid]));
      if race.Some? {
        races := races + [race.value];
      }
    }

    method ClearFilters(tid: nat)
      requires Valid() && tid < |clocks|
      modifies this`readFilters, this`writeFilters
      ensures Valid()
      ensures View() == old(View()).(readFilters := old(readFilters)[tid := {}],
              writeFilters := old(writeFilters)[tid := {}])
    {
      readFilters := readFilters[tid := {}];
      writeFilters := writeFilters[tid := {}];
    }

    /** The child of thread parent starts, before the parent goes on. */
    method ThreadStart(tid: nat, parent: nat)
      requires Valid() && parent < |clocks| && tid == |clocks| && tid + 1 < MAX_THREAD_COUNT
      modifies this, rdm
      ensures Valid() && |clocks| == old(|clocks|) + 1
      ensures View() == Enrol(old(View()), parent, tid).(
                sync := old(View()).sync.(clocks := old(clocks) + [ChildOf(old(clocks[parent]), tid)],
                  joinVC := old(joinVC) + [map[]]))
    {
      rdm.AddProcessor();
      readFilters, writeFilters, logs := readFilters + [{}], writeFilters + [{}], logs + [[]];
      joinVC := joinVC + [map[]];
      threadCreateOrder := threadCreateOrder + [(tid, parent)];
      clocks := clocks + [ChildOf(clocks[parent], tid)];
    }

    method PthreadCreate(tid: nat, child: nat, ghost parent: int)
      requires Valid() && Accepts(View().sync, Create(tid, child))
      modifies this, rdm
      ensures Valid() && View() == Step(old(View()), Create(tid, child), parent)
    {
      hide AddSignature;
      ThreadStart(child, tid);
      PrintAndAdd(tid);
      ClearFilters(tid);
      clocks := clocks[tid := Advance(clocks[tid])];
    }

    method PthreadJoin(tid: nat, child: nat, ghost parent: int)
      requires Valid() && Accepts(View().sync, Join(tid, child))
      modifies this, rdm
      ensures Valid() && View() == Step(old(View()), Join(tid, child), parent)
    {
      hide AddSignature;
      PrintAndAdd(tid);
      ClearFilters(tid);
      clocks := clocks[tid := ReceiveIncrement(clocks[tid], joinVC[tid][child])];
    }

    method AfterLock(tid: nat, lockAddr: nat, ghost parent: int)
      requires Valid() && Accepts(View().sync, Lock(tid, lockAddr))
      modifies this, rdm
      ensures Valid() && View() == Step(old(View()), Lock(tid, lockAddr), parent)
    {
      hide AddSignature;
      if lockAddr > MUTEX_POINTER_LIMIT {
        return;
      }
      PrintAndAdd(tid);
      clocks := clocks[tid := Advance(clocks[tid])];
      if lockAddr in unlockedThreadMap {
        var threadInfo := unlockedThreadMap[lockAddr];
        if threadInfo.tid.Some? {
          clocks := clocks[tid := Receive(clocks[tid], threadInfo.clock.vc)];
        }
        unlockedThreadMap := unlockedThreadMap[lockAddr := threadInfo.(tid := None)];
      }
      ClearFilters(tid);
    }

    method BeforeUnlock(tid: nat, lockAddr: nat, ghost parent: int)
      requires Valid() && Accepts(View().sync, Unlock(tid, lockAddr))
      modifies this, rdm
      ensures Valid() && View() == Step(old(View()), Unlock(tid, lockAddr), parent)
    {
      hide AddSignature;
      if lockAddr > MUTEX_POINTER_LIMIT {
        return;
      }
      PrintAndAdd(tid);
      clocks := clocks[tid := Advance(clocks[tid])];
      unlockedThreadMap := unlockedThreadMap[lockAddr := ThreadInfo(Some(tid), clocks[tid])];
      ClearFilters(tid);
    }

    method BeforeBarrierInit(tid: nat, barrier: nat, size: nat, ghost parts: set<nat>, ghost parent: int)
      requires Valid() && Accepts(View().sync, BarrierInit(tid, barrier, parts)) && size == |parts|
      modifies this`barrierWaitMap
      ensures Valid() && View() == Step(old(View()), BarrierInit(tid, barrier, parts), parent)
    {
      barrierWaitMap := barrierWaitMap[barrier := BarrierData(Zero(), Zero(), size, 0)];
    }

    method BeforeBarrierWait(tid: nat, barrier: nat, ghost parent: int)
      requires Valid() && Accepts(View().sync, BarrierEnter(tid, barrier))
      modifies this, rdm
      ensures Valid() && View() == Step(old(View()), BarrierEnter(tid, barrier), parent)
    {
      hide AddSignature;
      PrintAndAdd(tid);
      clocks := clocks[tid := Advance(clocks[tid])];
      var data := barrierWaitMap[barrier];
      data := data.(vc := Merge(data.vc, clocks[tid].vc), waiterCount := data.waiterCount + 1);
      if data.waiterCount == data.size {
        data := BarrierData(Zero(), data.vc, data.size, 0);
      }
      barrierWaitMap := barrierWaitMap[barrier := data];
      ClearFilters(tid);
    }

    /** A wait that failed is not a barrier exit and leaves everything as it was. */
    method AfterBarrierWait(tid: nat, barrier: nat, returnValue: int, ghost parent: int)
      requires Valid() && Accepts(View().sync, BarrierExit(tid, barrier))
      modifies this`clocks
      ensures Valid()
      ensures View() == if returnValue !in {0, -1} then old(View())
                        else Step(old(View()), BarrierExit(tid, barrier), parent)
    {
      if returnValue != 0 && returnValue != PTHREAD_BARRIER_SERIAL_THREAD {
        return;
      }
      clocks := clocks[tid := Receive(clocks[tid], barrierWaitMap[barrier].previous)];
    }

    /** parentTid is -1 at the top of the process tree. */
    method ThreadFini(tid: nat, parentTid: int)
      requires Valid() && Accepts(View().sync, Finish(tid)) && parentTid < |clocks|
      modifies this, rdm
      ensures Valid() && View() == Step(old(View()), Finish(tid), parentTid)
    {
      hide AddSignature;
      PrintAndAdd(tid);
      if parentTid >= 0 {
        var finals: map<nat, ThreadClock> := joinVC[parentTid];
        joinVC := joinVC[parentTid := finals[tid := clocks[tid]]];
      }
    }

    method AddToReadFilter(tid: nat, addr: nat, ghost parent: int)
      requires Valid() && Accepts(View().sync, Read(tid, addr))
      modifies this`readFilters
      ensures Valid() && View() == Step(old(View()), Read(tid, addr), parent)
    {
      readFilters := readFilters[tid := readFilters[tid] + {addr}];
    }

    method AddToWriteFilter(tid: nat, addr: nat, ghost parent: int)
      requires Valid() && Accepts(View().sync, Write(tid, addr))
      modifies this`writeFilters
      ensures Valid() && View() == Step(old(View()), Write(tid, addr), parent)
    {
      writeFilters := writeFilters[tid := writeFilters[tid] + {addr}];
    }
  }
}
