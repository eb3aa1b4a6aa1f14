/**
 The reusable counting barrier. A call is two atomic steps: arriving, up to the wait or the broadcast, and, for a
 thread that waits, leaving, once a broadcast has released it.
 */
module Barrier {
  import opened Bags

  /** The barrier and where its threads are: inside the wait, released from it but not yet out, or outside.
      arrived and left count each thread's arrivals and departures, rounds the broadcasts. */
  datatype System = System(count: nat, waiting: set<nat>, released: set<nat>,
                           arrived: seq<nat>, left: seq<nat>, rounds: nat)

  function Initial(n: nat): System {
    System(0, {}, {}, seq(n, i => 0), seq(n, i => 0), 0)
  }

  predicate Outside(s: System, t: nat) {
    t !in s.waiting && t !in s.released
  }

  predicate Sized(s: System, n: nat) {
    |s.arrived| == n && |s.left| == n
  }

  function AfterArrive(s: System, n: nat, t: nat): System
    requires Sized(s, n) && t < n
  {
    var arrived := s.arrived[t := s.arrived[t] + 1];
    if s.count + 1 < n then
      s.(count := s.count + 1, waiting := s.waiting + {t}, arrived := arrived)
    else
      System(0, {}, s.released + s.waiting, arrived, s.left[t := s.left[t] + 1], s.rounds + 1)
  }

  function AfterLeave(s: System, n: nat, t: nat): System
    requires Sized(s, n) && t < n
  {
    s.(released := s.released - {t}, left := s.left[t := s.left[t] + 1])
  }

  /** Threads that wait are one round ahead; threads that were released have one departure to make up. */
  ghost predicate Inv(s: System, n: nat) {
    && n >= 1 && Sized(s, n)
    && s.waiting <= Below(n) && s.released <= Below(n) && s.waiting !! s.released
    && s.count == |s.waiting| < n
    && forall t :: 0 <= t < n ==>
         && s.arrived[t] == s.rounds + (if t in s.waiting then 1 else 0)
         && s.left[t] + (if t in s.released then 1 else 0) == s.rounds
  }

  lemma InitialInv(n: nat)
    requires n >= 1
    ensures Inv(Initial(n), n)
  {
  }

  /** The last to arrive finds everyone else waiting. */
  lemma LastArrival(s: System, n: nat, t: nat)
    requires Inv(s, n) && t < n && Outside(s, t) && s.count + 1 == n
    ensures s.waiting == Below(n) - {t}
  {
    hide Below;
    SubsetOfSize(s.waiting, Below(n) - {t});
  }

  lemma WaitKeepsInv(s: System, n: nat, t: nat)
    requires Inv(s, n) && t < n && Outside(s, t) && s.count + 1 < n
    ensures Inv(AfterArrive(s, n, t), n)
  {
    hide Below;
    assert |s.waiting + {t}| == |s.waiting| + 1;
  }

  lemma OpenKeepsInv(s: System, n: nat, t: nat)
    requires Inv(s, n) && t < n && Outside(s, t) && s.count + 1 == n
    ensures Inv(AfterArrive(s, n, t), n)
  {
    hide Below;
    LastArrival(s, n, t);
    assert s.released == {};
  }

  lemma ArriveKeepsInv(s: System, n: nat, t: nat)
    requires Inv(s, n) && t < n && Outside(s, t)
    ensures Inv(AfterArrive(s, n, t), n)
  {
    hide Below;
    if s.count + 1 < n {
      WaitKeepsInv(s, n, t);
    } else {
      OpenKeepsInv(s, n, t);
    }
  }

  /** When the last arrives everyone else is released, and all have arrived as often as the barrier has opened. */
  lemma Opens(s: System, n: nat, t: nat)
    requires Inv(s, n) && t < n && Outside(s, t) && s.count + 1 == n
    ensures var s' := AfterArrive(s, n, t);
            && Sized(s', n) && s'.waiting == {} && s'.released == Below(n) - {t} && s'.rounds == s.rounds + 1
            && forall u :: 0 <= u < n ==> s'.arrived[u] == s'.rounds
  {
    hide Below;
    LastArrival(s, n, t);
  }

  lemma LeaveKeepsInv(s: System, n: nat, t: nat)
    requires Inv(s, n) && t in s.released
    ensures Inv(AfterLeave(s, n, t), n)
  {
    hide Below;
  }

  /** Safety of every use of the barrier: a thread that has left its k-th barrier left it after all threads
      had arrived at theirs, however early fast threads came back. */
  lemma NobodyLeavesEarly(s: System, n: nat, t: nat, u: nat, k: nat)
    requires Inv(s, n) && t < n && u < n && s.left[t] >= k
    ensures s.arrived[u] >= k
  {
  }

  /** No deadlock inside the barrier: somebody is not waiting. */
  lemma SomebodyMoves(s: System, n: nat)
    requires Inv(s, n)
    ensures exists t :: 0 <= t < n && t !in s.waiting
  {
    if forall t :: 0 <= t < n ==> t in s.waiting {
      SubsetSize(Below(n), s.waiting);
      assert false;
    }
  }

  // ---------- Any run of any threads ----------

  /** Besides arriving and leaving, a thread may be woken from the wait without a broadcast. */
  datatype Move = Arrives(t: nat) | Leaves(t: nat) | WakesSpuriously(t: nat)

  /** A thread arrives only when it is outside, leaves only when it has been released, and can be woken only from
      the wait. */
  predicate Allowed(s: System, n: nat, m: Move) {
    match m
    case Arrives(t) => t < n && Outside(s, t)
    case Leaves(t) => t < n && t in s.released
    case WakesSpuriously(t) => t < n && t in s.waiting
  }

  function Apply(s: System, n: nat, m: Move): System
    requires Sized(s, n) && Allowed(s, n, m)
  {
    match m
    case Arrives(t) => AfterArrive(s, n, t)
    case Leaves(t) => AfterLeave(s, n, t)
    case WakesSpuriously(t) => AfterSpuriousWakeUp(s, n, t)
  }

  /** The wait is not in a loop: whoever wakes up goes on, and the count stays as it was. */
  function AfterSpuriousWakeUp(s: System, n: nat, t: nat): System
    requires Sized(s, n) && t < n
  {
    s.(waiting := s.waiting - {t}, left := s.left[t := s.left[t] + 1])
  }

  ghost predicate IsRun(n: nat, moves: seq<Move>, states: seq<System>) {
    && |states| == |moves| + 1 && states[0] == Initial(n)
    && forall i :: 0 <= i < |moves| ==>
         Sized(states[i], n) && Allowed(states[i], n, moves[i]) && states[i + 1] == Apply(states[i], n, moves[i])
  }

  /** As long as nobody has been woken spuriously the invariant holds, and with it the barrier is safe. */
  lemma {:induction false} RunSafe(n: nat, moves: seq<Move>, states: seq<System>, i: nat)
    requires n >= 1 && IsRun(n, moves, states) && i < |states|
    requires forall k :: 0 <= k < i ==> !moves[k].WakesSpuriously?
    ensures Inv(states[i], n) && Safe(states[i], n)
  {
    if i == 0 {
      InitialInv(n);
    } else {
      RunSafe(n, moves, states, i - 1);
      match moves[i - 1] {
        case Arrives(t) => ArriveKeepsInv(states[i - 1], n, t);
        case Leaves(t) => LeaveKeepsInv(states[i - 1], n, t);
      }
    }
  }

  /** Nobody has left more barriers than anybody has arrived at. */
  predicate Safe(s: System, n: nat)
    requires Sized(s, n)
  {
    forall t, u :: 0 <= t < n && 0 <= u < n ==> s.left[t] <= s.arrived[u]
  }

  /** Any spurious wake-up, of any thread in any reachable state, lets it through before somebody has arrived. */
  lemma SpuriousWakeUpBreaksBarrier(s: System, n: nat, t: nat)
    requires Inv(s, n) && t < n && t in s.waiting
    ensures exists u :: 0 <= u < n && AfterSpuriousWakeUp(s, n, t).left[t] > s.arrived[u]
    ensures !Safe(AfterSpuriousWakeUp(s, n, t), n)
  {
    SomebodyMoves(s, n);
    var u :| 0 <= u < n && u !in s.waiting;
    assert AfterSpuriousWakeUp(s, n, t).left[t] > s.arrived[u];
  }

  /** The exact condition: a run is safe throughout if and only if nobody is woken spuriously in it. */
  lemma SafeIffNoSpuriousWakeUp(n: nat, moves: seq<Move>, states: seq<System>)
    requires n >= 1 && IsRun(n, moves, states)
    ensures (forall i :: 0 <= i < |states| ==> Sized(states[i], n) && Safe(states[i], n)) <==>
            (forall i :: 0 <= i < |moves| ==> !moves[i].WakesSpuriously?)
  {
    if forall i :: 0 <= i < |moves| ==> !moves[i].WakesSpuriously? {
      forall i | 0 <= i < |states| ensures Sized(states[i], n) && Safe(states[i], n) {
        RunSafe(n, moves, states, i);
      }
    } else {
      var i := FirstSpurious(moves, |moves|);
      RunSafe(n, moves, states, i);
      SpuriousWakeUpBreaksBarrier(states[i], n, moves[i].t);
      assert !Safe(states[i + 1], n);
    }
  }

  lemma {:induction false} FirstSpurious(moves: seq<Move>, n: nat) returns (i: nat)
    requires n <= |moves| && exists k :: 0 <= k < n && moves[k].WakesSpuriously?
    ensures i < n && moves[i].WakesSpuriously? && forall k :: 0 <= k < i ==> !moves[k].WakesSpuriously?
  {
    if exists k :: 0 <= k < n - 1 && moves[k].WakesSpuriously? {
      i := FirstSpurious(moves, n - 1);
    } else {
      i := n - 1;
    }
  }

  /** It can happen: two threads, one arrives and is woken before the other has come. */
  lemma UnsafeRunExists() returns (moves: seq<Move>, states: seq<System>)
    ensures IsRun(2, moves, states) && |moves| == 2 && Sized(states[2], 2) && !Safe(states[2], 2)
  {
    var s := AfterArrive(Initial(2), 2, 0);
    moves := [Arrives(0), WakesSpuriously(0)];
    states := [Initial(2), s, AfterSpuriousWakeUp(s, 2, 0)];
    assert states[2].left[0] > states[2].arrived[1];
  }

  /** The barrier object. The condition variable's queue is the ghost part of its state. */
  class BarrierObject {
    var count: int
    const numThreads: int
    ghost var system: System

    ghost predicate Valid()
      reads this
    {
      numThreads >= 1 && Inv(system, numThreads) && count == system.count
    }

    constructor (n: int)
      requires n >= 1
      ensures Valid() && numThreads == n && system == Initial(n)
    {
      count, numThreads, system := 0, n, Initial(n);
    }

    /** Up to the wait, or past it for the last to arrive. */
    method Arrive(ghost t: nat) returns (waits: bool)
      requires Valid() && t < numThreads && Outside(system, t)
      modifies this
      ensures Valid() && system == AfterArrive(old(system), numThreads, t)
      ensures waits <==> t in system.waiting
    {
      ArriveKeepsInv(system, numThreads, t);
      system := AfterArrive(system, numThreads, t);
      count := count + 1;
      if count < numThreads {
        waits := true;
      } else {
        count := 0;
        waits := false;
      }
    }

    /** Out of the wait, after a broadcast. */
    method Leave(ghost t: nat)
      requires Valid() && t in system.released
      modifies this
      ensures Valid() && system == AfterLeave(old(system), numThreads, t)
    {
      LeaveKeepsInv(system, numThreads, t);
      system := AfterLeave(system, numThreads, t);
    }
  }
}
