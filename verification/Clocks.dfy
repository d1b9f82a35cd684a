/** Vector clocks: the values, the comparisons, and the mutable class that the
    detector and the replayer share. */
module Clocks {

  const MAX_THREAD_COUNT: nat := 32
  const NON_THREAD_VECTOR_CLOCK: int := -1

  /** One counter per possible thread. */
  type Vec = v: seq<nat> | |v| == MAX_THREAD_COUNT witness seq(MAX_THREAD_COUNT, i => 0)

  datatype Clock = Clock(threadId: int, vc: Vec)

  function Zero(): Vec {
    seq(MAX_THREAD_COUNT, i => 0)
  }

  function Max(a: nat, b: nat): nat {
    if a > b then a else b
  }

  /** The pointwise maximum. */
  function Merge(a: Vec, b: Vec): Vec {
    seq(MAX_THREAD_COUNT, i requires 0 <= i < MAX_THREAD_COUNT => Max(a[i], b[i]))
  }

  function Bump(v: Vec, t: nat): Vec
    requires t < MAX_THREAD_COUNT
  {
    v[t := v[t] + 1]
  }

  ghost predicate PointwiseLeq(a: Vec, b: Vec) {
    forall u :: 0 <= u < MAX_THREAD_COUNT ==> a[u] <= b[u]
  }

  /** A clock owned by a thread. */
  type ThreadClock = c: Clock | 0 <= c.threadId < MAX_THREAD_COUNT witness Clock(0, Zero())

  /** The comparison of the detector: only the two owners' entries are read. */
  predicate Less(l: ThreadClock, r: ThreadClock)
  {
    if l.threadId == r.threadId then
      l.vc[l.threadId] < r.vc[r.threadId]
    else
      l.vc[l.threadId] < r.vc[l.threadId] && l.vc[r.threadId] < r.vc[r.threadId]
  }

  predicate Concurrent(l: ThreadClock, r: ThreadClock) {
    !Less(l, r) && !Less(r, l)
  }

  /** On any clocks: smaller in the entries of both owners, be they one thread or two. No two clocks are
      each before the other. */
  lemma LessIsStrict(l: ThreadClock, r: ThreadClock)
    ensures Less(l, r) <==> forall u :: u in {l.threadId, r.threadId} ==> l.vc[u] < r.vc[u]
    ensures !(Less(l, r) && Less(r, l)) && !Less(l, l)
  {
    assert l.threadId in {l.threadId, r.threadId} && r.threadId in {l.threadId, r.threadId};
  }

  /** The clock a thread starts with, computed from its creator's clock. */
  function ChildOf(parent: ThreadClock, child: nat): ThreadClock
    requires child < MAX_THREAD_COUNT
  {
    Clock(child, Bump(Bump(parent.vc, child), parent.threadId))
  }

  function Advance(c: ThreadClock): ThreadClock {
    Clock(c.threadId, Bump(c.vc, c.threadId))
  }

  function Receive(c: ThreadClock, from: Vec): ThreadClock {
    Clock(c.threadId, Merge(c.vc, from))
  }

  function ReceiveIncrement(c: ThreadClock, from: ThreadClock): ThreadClock {
    Clock(c.threadId, Bump(Bump(Merge(c.vc, from.vc), c.threadId), from.threadId))
  }

  /** The replay guard: every entry but the owner's is covered by the global clock. */
  predicate Covered(c: Clock, grt: Vec) {
    forall u :: 0 <= u < MAX_THREAD_COUNT && u != c.threadId ==> c.vc[u] <= grt[u]
  }

  class VectorClock {
    var threadId: int
    const vc: array<nat>

    ghost predicate Valid()
      reads this
    {
      vc.Length == MAX_THREAD_COUNT && NON_THREAD_VECTOR_CLOCK <= threadId < MAX_THREAD_COUNT
    }

    ghost function View(): Clock
      requires Valid()
      reads this, vc
    {
      Clock(threadId, vc[..])
    }

    constructor (processId: int)
      requires NON_THREAD_VECTOR_CLOCK <= processId < MAX_THREAD_COUNT
      ensures Valid() && fresh(vc)
      ensures View() == Clock(processId, if processId == NON_THREAD_VECTOR_CLOCK then Zero()
              else Bump(Zero(), processId))
    {
      threadId := processId;
      vc := new nat[MAX_THREAD_COUNT](i => 0);
      new;
      if threadId != NON_THREAD_VECTOR_CLOCK {
        vc[processId] := 1;
      }
    }

    constructor FromParent(parent: VectorClock, processId: nat)
      requires parent.Valid() && parent.threadId >= 0 && processId < MAX_THREAD_COUNT
      ensures Valid() && fresh(vc)
      ensures View() == ChildOf(parent.View(), processId)
    {
      threadId := processId;
      vc := new nat[MAX_THREAD_COUNT](i => 0);
      new;
      forall i | 0 <= i < MAX_THREAD_COUNT {
        vc[i] := parent.vc[i];
      }
      assert vc[..] == parent.vc[..];
      vc[threadId] := vc[threadId] + 1;
      vc[parent.threadId] := vc[parent.threadId] + 1;
    }

    method AdvanceOwn()
      requires Valid() && threadId >= 0
      modifies vc
      ensures Valid() && View() == Advance(old(View()))
    {
      vc[threadId] := vc[threadId] + 1;
    }

    method ReceiveAction(received: VectorClock)
      requires Valid() && received.Valid()
      modifies vc
      ensures Valid() && View() == old(View()).(vc := Merge(old(View()).vc, old(received.View()).vc))
    {
      for i := 0 to MAX_THREAD_COUNT
        invariant forall k :: 0 <= k < i ==> vc[k] == Max(old(vc[k]), old(received.vc[k]))
        invariant forall k :: i <= k < MAX_THREAD_COUNT ==> vc[k] == old(vc[k]) && received.vc[k] == old(received.vc[k])
      {
        vc[i] := if vc[i] > received.vc[i] then vc[i] else received.vc[i];
      }
      assert vc[..] == Merge(old(vc[..]), old(received.vc[..]));
    }

    method ReceiveWithIncrement(received: VectorClock)
      requires Valid() && received.Valid() && threadId >= 0 && received.threadId >= 0
      modifies vc
      ensures Valid() && View() == ReceiveIncrement(old(View()), old(received.View()))
    {
      ReceiveAction(received);
      vc[threadId] := vc[threadId] + 1;
      vc[received.threadId] := vc[received.threadId] + 1;
    }

    method Clear()
      requires Valid()
      modifies vc
      ensures Valid() && View() == Clock(threadId, Zero())
    {
      forall i | 0 <= i < vc.Length {
        vc[i] := 0;
      }
      assert vc[..] == Zero();
    }

    method LessThanGRT(grt: VectorClock) returns (covered: bool)
      requires Valid() && grt.Valid() && grt.threadId == NON_THREAD_VECTOR_CLOCK
      ensures covered <==> Covered(View(), grt.View().vc)
    {
      for i := 0 to MAX_THREAD_COUNT
        invariant forall k :: 0 <= k < i && k != threadId ==> vc[k] <= grt.vc[k]
      {
        if i != threadId && vc[i] > grt.vc[i] {
          assert View().vc[i] > grt.View().vc[i];
          return false;
        }
      }
      return true;
    }

    method UpdateGRT(trt: VectorClock)
      requires Valid() && trt.Valid() && trt.threadId >= 0 && threadId == NON_THREAD_VECTOR_CLOCK
      modifies vc
      ensures Valid()
      ensures View() == old(View()).(vc := old(View().vc)[trt.threadId := old(trt.View().vc[trt.threadId])])
    {
      vc[trt.threadId] := trt.vc[trt.threadId];
    }

    method Equals(other: VectorClock) returns (same: bool)
      requires Valid() && other.Valid()
      ensures same <==> View().vc == other.View().vc
    {
      for i := 0 to MAX_THREAD_COUNT
        invariant forall k :: 0 <= k < i ==> vc[k] == other.vc[k]
      {
        if vc[i] != other.vc[i] {
          assert View().vc[i] != other.View().vc[i];
          return false;
        }
      }
      return true;
    }

    method HappensBefore(other: VectorClock) returns (before: bool)
      requires Valid() && other.Valid() && threadId >= 0 && other.threadId >= 0
      ensures before <==> Less(View(), other.View())
    {
      if threadId == other.threadId {
        return vc[threadId] < other.vc[other.threadId];
      }
      var ll, lr, rr, rl := vc[threadId], vc[other.threadId], other.vc[other.threadId], other.vc[threadId];
      return ll < rl && lr < rr;
    }
  }
}
