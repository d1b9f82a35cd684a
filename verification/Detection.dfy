/** The race detection module: bounded per-thread histories of signatures, and the
    newest-first scan that stops a history at its first ordered entry. */
module Detection {
  import opened Optional
  import opened Clocks

  const BLOCK_HISTORY_QUEUE_SIZE: nat := 16

  /** A closed epoch: its thread, its clock, and the addresses it read and wrote. */
  datatype Signature = Signature(tid: nat, ts: ThreadClock, r: set<nat>, w: set<nat>)
  {
    predicate IsDirty() {
      r != {} || w != {}
    }
  }

  datatype Kind = ReadWrite | WriteRead | WriteWrite

  datatype Race = Race(kind: Kind, tid: nat, other: nat)

  /** Newest first. */
  type Queue = seq<Signature>

  predicate HasInCommon(a: set<nat>, b: set<nat>) {
    a * b != {}
  }

  predicate Conflict(e: Signature, o: Signature) {
    HasInCommon(e.r, o.w) || HasInCommon(e.w, o.r) || HasInCommon(e.w, o.w)
  }

  function ConflictKind(e: Signature, o: Signature): Kind
    requires Conflict(e, o)
  {
    if HasInCommon(e.r, o.w) then ReadWrite
    else if HasInCommon(e.w, o.r) then WriteRead
    else WriteWrite
  }

  function Push(q: Queue, e: Signature): Queue {
    if |q| + 1 > BLOCK_HISTORY_QUEUE_SIZE then ([e] + q)[..|q|] else [e] + q
  }

  /** What the scan of one foreign history from position k reports. */
  function ScanQueue(e: Signature, q: Queue, k: nat): Option<Race>
    requires k <= |q|
    decreases |q| - k
  {
    if k == |q| || !Concurrent(e.ts, q[k].ts) then None
    else if Conflict(e, q[k]) then Some(Race(ConflictKind(e, q[k]), e.tid, q[k].tid))
    else ScanQueue(e, q, k + 1)
  }

  function Scan(e: Signature, qs: seq<Queue>, u: nat): Option<Race>
    requires u <= |qs|
    decreases |qs| - u
  {
    if u == |qs| then None
    else if u == e.tid then Scan(e, qs, u + 1)
    else
      var race := ScanQueue(e, qs[u], 0);
      if race.Some? then race else Scan(e, qs, u + 1)
  }

  function AddSignature(qs: seq<Queue>, e: Signature): (res: (seq<Queue>, Option<Race>))
    requires e.tid < |qs|
    ensures |res.0| == |qs|
  {
    if !e.IsDirty() then (qs, None)
    else
      var qs' := qs[e.tid := Push(qs[e.tid], e)];
      (qs', Scan(e, qs', 0))
  }

  class RaceDetectionModule {
    var blockHistoryQueues: seq<Queue>
    var threadCount: nat

    ghost predicate Valid()
      reads this
    {
      threadCount == |blockHistoryQueues|
    }

    constructor ()
      ensures Valid() && blockHistoryQueues == []
    {
      blockHistoryQueues, threadCount := [], 0;
    }

    method AddProcessor()
      requires Valid() && threadCount + 1 < MAX_THREAD_COUNT
      modifies this
      ensures Valid() && blockHistoryQueues == old(blockHistoryQueues) + [[]]
    {
      threadCount := threadCount + 1;
      blockHistoryQueues := blockHistoryQueues + [[]];
    }

    /** The race is returned where the detector prints it; the first one found ends the scan. */
    method Add(e: Signature) returns (race: Option<Race>)
      requires Valid() && e.tid < |blockHistoryQueues|
      modifies this
      ensures Valid()
      ensures (blockHistoryQueues, race) == AddSignature(old(blockHistoryQueues), e)
    {
      if !e.IsDirty() {
        return None;
      }
      var queue := [e] + blockHistoryQueues[e.tid];
      if |queue| > BLOCK_HISTORY_QUEUE_SIZE {
        queue := queue[..|queue| - 1];
      }
      blockHistoryQueues := blockHistoryQueues[e.tid := queue];
      var queueId := 0;
      while queueId < |blockHistoryQueues|
        invariant queueId <= |blockHistoryQueues|
        invariant Scan(e, blockHistoryQueues, 0) == Scan(e, blockHistoryQueues, queueId)
      {
        if queueId != e.tid {
          queue := blockHistoryQueues[queueId];
          var itr := 0;
          while itr < |queue|
            invariant itr <= |queue|
            invariant ScanQueue(e, queue, 0) == ScanQueue(e, queue, itr)
          {
            var other := queue[itr];
            if !Concurrent(e.ts, other.ts) {
              break;
            }
            if HasInCommon(e.r, other.w) {
              return Some(Race(ReadWrite, e.tid, other.tid));
            } else if HasInCommon(e.w, other.r) {
              return Some(Race(WriteRead, e.tid, other.tid));
            } else if HasInCommon(e.w, other.w) {
              return Some(Race(WriteWrite, e.tid, other.tid));
            }
            itr := itr + 1;
          }
        }
        queueId := queueId + 1;
      }
      return None;
    }
  }

  /** The scan without the early exit: some retained foreign entry is unordered and conflicts. */
  ghost predicate RacesWithRetained(e: Signature, qs: seq<Queue>) {
    exists u, k :: 0 <= u < |qs| && u != e.tid && 0 <= k < |qs[u]| && Concurrent(e.ts, qs[u][k].ts)
      && Conflict(e, qs[u][k])
  }

  /** The shape that makes the early exit lossless. */
  ghost predicate UnorderedIsPrefix(e: Signature, q: Queue) {
    forall k, k' :: 0 <= k < k' < |q| && Concurrent(e.ts, q[k'].ts) ==> Concurrent(e.ts, q[k].ts)
  }

  lemma {:induction false} ScanQueueFinds(e: Signature, q: Queue, k: nat)
    requires k <= |q|
    requires UnorderedIsPrefix(e, q)
    ensures ScanQueue(e, q, k).Some? <==> exists i :: k <= i < |q| && Concurrent(e.ts, q[i].ts) && Conflict(e, q[i])
    decreases |q| - k
  {
    if k < |q| && Concurrent(e.ts, q[k].ts) && !Conflict(e, q[k]) {
      ScanQueueFinds(e, q, k + 1);
    }
  }

  lemma {:induction false} ScanFinds(e: Signature, qs: seq<Queue>, u: nat)
    requires u <= |qs|
    requires forall v :: 0 <= v < |qs| && v != e.tid ==> UnorderedIsPrefix(e, qs[v])
    ensures Scan(e, qs, u).Some? <==>
            exists v, k :: u <= v < |qs| && v != e.tid && 0 <= k < |qs[v]| && Concurrent(e.ts, qs[v][k].ts)
              && Conflict(e, qs[v][k])
    decreases |qs| - u
  {
    if u < |qs| {
      ScanFinds(e, qs, u + 1);
      if u != e.tid {
        ScanQueueFinds(e, qs[u], 0);
      }
    }
  }

  /** Some address that one of the two writes is accessed by the other. */
  predicate Clashes(e: Signature, o: Signature) {
    e.r * o.w != {} || e.w * o.r != {} || e.w * o.w != {}
  }

  /** What the kind says of the closed epoch e and the entry o: a read of something written comes first,
      then a write of something read. */
  predicate KindIs(e: Signature, o: Signature, kind: Kind) {
    match kind
    case ReadWrite => e.r * o.w != {}
    case WriteRead => e.r * o.w == {} && e.w * o.r != {}
    case WriteWrite => e.r * o.w == {} && e.w * o.r == {} && e.w * o.w != {}
  }

  /** The code's tests, in these terms. */
  lemma ClashesConflict(e: Signature, o: Signature)
    ensures Clashes(e, o) <==> Conflict(e, o)
    ensures Conflict(e, o) ==> forall kind :: KindIs(e, o, kind) <==> kind == ConflictKind(e, o)
  {
  }

  /** The scan gets to entry k of a history: neither it nor a newer one is ordered. */
  predicate Seen(e: Signature, q: Queue, k: nat)
    requires k < |q|
  {
    forall i :: 0 <= i <= k ==> Concurrent(e.ts, q[i].ts)
  }

  /** Of the histories from thread u on, entry k of thread v is the first that is seen and clashes. */
  ghost predicate FirstClash(e: Signature, qs: seq<Queue>, u: nat, v: nat, k: nat) {
    && u <= v < |qs| && v != e.tid && k < |qs[v]| && Seen(e, qs[v], k) && Clashes(e, qs[v][k])
    && (forall w: nat, i: nat :: u <= w < v && w != e.tid && i < |qs[w]| && Seen(e, qs[w], i) ==>
          !Clashes(e, qs[w][i]))
    && (forall i: nat :: i < k ==> !Clashes(e, qs[v][i]))
  }

  ghost predicate NoClash(e: Signature, q: Queue) {
    forall i: nat :: i < |q| && Seen(e, q, i) ==> !Clashes(e, q[i])
  }

  /** What is reported of an entry. */
  ghost predicate Tells(r: Race, e: Signature, o: Signature) {
    r.tid == e.tid && r.other == o.tid && KindIs(e, o, r.kind)
  }

  /** The first entry of a history that is seen and clashes. */
  ghost predicate FirstInQueue(e: Signature, q: Queue, i: nat) {
    i < |q| && Seen(e, q, i) && Clashes(e, q[i]) && forall j: nat :: j < i ==> !Clashes(e, q[j])
  }

  lemma {:induction false} ScanQueueNames(e: Signature, q: Queue, k: nat)
    requires k <= |q| && forall i: nat :: i < k ==> Concurrent(e.ts, q[i].ts) && !Clashes(e, q[i])
    ensures match ScanQueue(e, q, k)
            case None => NoClash(e, q)
            case Some(r) => exists i: nat :: FirstInQueue(e, q, i) && Tells(r, e, q[i])
    decreases |q| - k
  {
    hide Concurrent;
    if k < |q| && Concurrent(e.ts, q[k].ts) {
      if Conflict(e, q[k]) {
        assert FirstInQueue(e, q, k);
      } else {
        ScanQueueNames(e, q, k + 1);
      }
    }
  }

  /** The scan reports, with its kind, the first entry that it gets to and that clashes, and nothing only
      if there is none. */
  lemma {:induction false} ScanNames(e: Signature, qs: seq<Queue>, u: nat)
    requires u <= |qs|
    ensures match Scan(e, qs, u)
            case None => forall v: nat :: u <= v < |qs| && v != e.tid ==> NoClash(e, qs[v])
            case Some(r) => exists v: nat, k: nat :: FirstClash(e, qs, u, v, k) && Tells(r, e, qs[v][k])
    decreases |qs| - u
  {
    hide Seen, Clashes, Tells, ScanQueue;
    if u < |qs| {
      var next := u + 1;
      ScanNames(e, qs, next);
      if u != e.tid { ScanQueueNames(e, qs[u], 0); }
      if u != e.tid && ScanQueue(e, qs[u], 0).Some? {
        var r := ScanQueue(e, qs[u], 0).value;
        var k: nat :| FirstInQueue(e, qs[u], k) && Tells(r, e, qs[u][k]);
        assert FirstClash(e, qs, u, u, k);
      } else if Scan(e, qs, next).Some? {
        var r := Scan(e, qs, next).value;
        var v: nat, k: nat :| FirstClash(e, qs, next, v, k) && Tells(r, e, qs[v][k]);
        assert FirstClash(e, qs, u, v, k);
      }
    }
  }

  /** Where the prefix shape fails, an entry that the scan never reaches can be the only race. */
  lemma EarlyExitNeedsPrefix(a: nat)
    ensures exists e: Signature, qs: seq<Queue> ::
              e.tid < |qs| && RacesWithRetained(e, qs) && Scan(e, qs, 0).None?
  {
    var z := Zero();
    var e := Signature(1, Clock(1, z[0 := 2][1 := 1]), {}, {a});
    var ordered := Signature(0, Clock(0, z[0 := 1]), {}, {a});
    var unordered := Signature(0, Clock(0, z[0 := 3]), {}, {a});
    var qs: seq<Queue> := [[ordered, unordered], [e]];
    assert Less(ordered.ts, e.ts);
    assert Concurrent(e.ts, unordered.ts);
    assert a in e.w * unordered.w;
    assert Conflict(e, qs[0][1]);
    assert RacesWithRetained(e, qs);
    assert ScanQueue(e, qs[0], 0).None?;
    assert Scan(e, qs, 2).None?;
    assert Scan(e, qs, 1).None?;
    assert Scan(e, qs, 0).None?;
  }
}
