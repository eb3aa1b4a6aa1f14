/** What holds of the scheduler over any sequence of calls and timer ticks. */
module SchedulerRuns {
  import Bags
  import opened SchedulerState
  import opened SchedulerInvariant
  import opened SchedulerEffects

  /** Terminating main ends the process, so no call comes after it. */
  predicate Legal(calls: seq<Call>) {
    forall i :: 0 <= i < |calls| - 1 ==> calls[i] != Terminate(0)
  }

  /** The state after the first i calls. Every call finds the invariant, so none pops an empty queue. */
  function At(calls: seq<Call>, i: nat): (s: Sched)
    requires Legal(calls) && i <= |calls|
    ensures Inv(s)
  {
    if i == 0 then
      InitialInv();
      Initial()
    else
      CallKeepsInv(At(calls, i - 1), calls[i - 1]);
      After(At(calls, i - 1), calls[i - 1]).state
  }

  lemma AtNext(calls: seq<Call>, i: nat)
    requires Legal(calls) && i < |calls|
    ensures At(calls, i + 1) == After(At(calls, i), calls[i]).state
  {
  }

  // ---------- Quanta ----------

  /** The quanta of the threads with ids below n. */
  function Quanta(threads: map<int, ThreadState>, n: nat): int {
    if n == 0 then 0 else Quanta(threads, n - 1) + if n - 1 in threads then threads[n - 1].numOfQuantum else 0
  }

  /** The quanta that went to threads deleted so far: each call deletes the thread awaiting it. */
  function Gone(calls: seq<Call>, i: nat): int
    requires Legal(calls) && i <= |calls|
  {
    if i == 0 then 0
    else Gone(calls, i - 1) + QuantaOf(At(calls, i - 1).threads, At(calls, i - 1).tidToTerminate)
  }

  lemma {:induction false} QuantaChange(a: map<int, ThreadState>, b: map<int, ThreadState>, t: int, n: nat)
    requires forall u :: u != t ==> QuantaOf(a, u) == QuantaOf(b, u)
    ensures Quanta(b, n) == Quanta(a, n) + if 0 <= t < n then QuantaOf(b, t) - QuantaOf(a, t) else 0
  {
    if n > 0 {
      QuantaChange(a, b, t, n - 1);
      assert n - 1 != t ==> QuantaOf(a, n - 1) == QuantaOf(b, n - 1);
    }
  }

  lemma DispatchQuanta(s: Sched, terminates: bool)
    requires CanDispatch(s) && 0 <= s.ready[0] < MAX_THREAD_NUM
    ensures var d := Dispatched(s, terminates);
            d.total == s.total + 1 && Quanta(d.threads, MAX_THREAD_NUM) == Quanta(s.threads, MAX_THREAD_NUM) + 1
  {
    QuantaChange(s.threads, Dispatched(s, terminates).threads, s.ready[0], MAX_THREAD_NUM);
  }

  /** What a call does to the quanta: the deleted thread's are gone, a dispatch adds one to both accounts. */
  lemma CallQuanta(s: Sched, call: Call)
    requires Inv(s)
    ensures var s' := After(s, call).state;
            Quanta(s'.threads, MAX_THREAD_NUM) - s'.total ==
            Quanta(s.threads, MAX_THREAD_NUM) - s.total - QuantaOf(s.threads, s.tidToTerminate)
  {
    hide Quanta, Partitioned, Tids, Live;
    var c := WithoutTerminated(s);
    CleanKeeps(s);
    OthersDispatch(s);
    assert Quanta(c.threads, MAX_THREAD_NUM) ==
           Quanta(s.threads, MAX_THREAD_NUM) - QuantaOf(s.threads, s.tidToTerminate) by {
      QuantaChange(s.threads, c.threads, s.tidToTerminate, MAX_THREAD_NUM);
    }
    CleanQuanta(s, call, c);
  }

  lemma CleanQuanta(s: Sched, call: Call, c: Sched)
    requires Inv(s) && c == WithoutTerminated(s) && Inv(c)
    requires c.running in c.threads && (c.running != 0 ==> CanDispatch(c))
    ensures var s' := After(s, call).state;
            Quanta(s'.threads, MAX_THREAD_NUM) - s'.total == Quanta(c.threads, MAX_THREAD_NUM) - c.total
  {
    hide Quanta, Partitioned, Tids, Live, WithoutTerminated;
    match call
    case Tick =>
      TickDispatches(s);
      var w := Woken(c);
      var q := w.(ready := w.ready + [w.running]);
      WokenKeepsIds(c);
      DispatchQuanta(q, false);
    case Spawn(hasFunction) =>
      var d := AfterSpawn(s, hasFunction).state;
      QuantaChange(c.threads, d.threads, LowestFrom(c.threads.Keys, 1), MAX_THREAD_NUM);
    case Terminate(tid) =>
      if tid == c.running && tid != 0 {
        DispatchQuanta(c, true);
      }
    case Block(tid) =>
      if tid == c.running && tid !in c.blocked && tid != 0 {
        DispatchQuanta(c.(blocked := c.blocked + {tid}), false);
      }
    case Resume(_) =>
    case Sleep(numQuantums) =>
      if c.running != 0 && numQuantums > 0 {
        var until := c.total + numQuantums;
        var d := c.(threads := c.threads[c.running := c.threads[c.running].(sleepUntil := until)],
                    sleeping := Inserted(c.sleeping, Sleeper(c.running, until)));
        QuantaChange(c.threads, d.threads, c.running, MAX_THREAD_NUM);
        DispatchQuanta(d, false);
      }
    case Quantums(_) =>
  }

  lemma WokenKeepsIds(c: Sched)
    requires Inv(c)
    ensures var w := Woken(c); (w.ready + [w.running])[0] in c.threads
  {
    hide Partitioned, Tids;
    var n := Due(c.sleeping, c.total);
    FrontOf(c.ready, Tids(c.sleeping[..n]), c.running);
    assert n > 0 ==> Tids(c.sleeping[..n])[0] == c.sleeping[0].tid;
  }

  /** Every quantum ever started is accounted for by a thread, living or deleted. */
  lemma {:induction false} Conservation(calls: seq<Call>, i: nat)
    requires Legal(calls) && i <= |calls|
    ensures At(calls, i).total == Quanta(At(calls, i).threads, MAX_THREAD_NUM) + Gone(calls, i)
  {
    hide Quanta, After, QuantaOf, Inv;
    if i == 0 {
      InitialQuanta();
    } else {
      Conservation(calls, i - 1);
      CallQuanta(At(calls, i - 1), calls[i - 1]);
    }
  }

  /** The timer ticks among the calls from i up to j. */
  function Ticks(calls: seq<Call>, i: nat, j: nat): nat
    requires i <= j <= |calls|
  {
    if i == j then 0 else Ticks(calls, i, j - 1) + if calls[j - 1] == Tick then 1 else 0
  }

  /** How often the running thread gave up the processor from call i up to j. */
  function GivenUp(calls: seq<Call>, i: nat, j: nat): nat
    requires Legal(calls) && i <= j <= |calls|
  {
    if i == j then 0 else GivenUp(calls, i, j - 1) + if GivesUp(At(calls, j - 1), calls[j - 1]) then 1 else 0
  }

  lemma {:induction false} TotalGrows(calls: seq<Call>, i: nat, j: nat)
    requires Legal(calls) && i <= j <= |calls|
    ensures At(calls, j).total == At(calls, i).total + Ticks(calls, i, j) + GivenUp(calls, i, j)
  {
    hide After, Inv;
    if i < j {
      TotalGrows(calls, i, j - 1);
      MainIsLive(At(calls, j - 1));
      QuantumGoesToRunning(At(calls, j - 1), calls[j - 1], 0);
    }
  }

  /** Every tick starts a quantum, and so does every time the running thread gives up the processor; nothing else
      does. */
  lemma TotalCounts(calls: seq<Call>, i: nat)
    requires Legal(calls) && i <= |calls|
    ensures At(calls, i).total == 1 + Ticks(calls, 0, i) + GivenUp(calls, 0, i)
  {
    TotalGrows(calls, 0, i);
  }

  lemma InitialQuanta()
    ensures Quanta(Initial().threads, MAX_THREAD_NUM) == 1
  {
    hide Quanta;
    QuantaChange(map[], Initial().threads, 0, MAX_THREAD_NUM);
    NoQuanta(MAX_THREAD_NUM);
  }

  lemma {:induction false} NoQuanta(n: nat)
    ensures Quanta(map[], n) == 0
  {
    if n > 0 {
      NoQuanta(n - 1);
    }
  }

  // ---------- Round robin ----------

  lemma {:induction false} WithoutKeepsPlace(q: seq<int>, x: int, k: nat) returns (k': nat)
    requires k < |q| && q[k] != x
    ensures k' <= k && k' < |Without(q, x)| && Without(q, x)[k'] == q[k]
  {
    var n := |q| - 1;
    if k == n {
      k' := |Without(q[..n], x)|;
      WithoutShorter(q[..n], x);
    } else {
      k' := WithoutKeepsPlace(q[..n], x, k);
    }
  }

  lemma {:induction false} WithoutShorter(q: seq<int>, x: int)
    ensures |Without(q, x)| <= |q|
  {
    if q != [] {
      WithoutShorter(q[..|q| - 1], x);
    }
  }

  /** Where a ready thread is after a call: at most where it was and, if the call started a new quantum, one
      place further or running. */
  ghost predicate Advances(s: Sched, s': Sched, tid: int, k: nat) {
    || (s'.total == s.total && exists k' :: 0 <= k' <= k && k' < |s'.ready| && s'.ready[k'] == tid)
    || (s'.total == s.total + 1 && k == 0 && s'.running == tid)
    || (s'.total == s.total + 1 && 0 < k <= |s'.ready| && s'.ready[k - 1] == tid)
  }

  lemma DispatchAdvances(s: Sched, c: Sched, terminates: bool, tid: int, k: nat)
    requires CanDispatch(c) && c.total == s.total && k < |c.ready| && c.ready[k] == tid
    ensures Advances(s, Dispatched(c, terminates), tid, k)
  {
  }

  lemma NeverBack(s: Sched, call: Call, tid: int, k: nat)
    requires Inv(s) && k < |s.ready| && s.ready[k] == tid
    requires call != Terminate(tid) && call != Block(tid)
    ensures Advances(s, After(s, call).state, tid, k)
  {
    hide Inv, Live, WithoutTerminated, Tids, Advances, Dispatched;
    var c := WithoutTerminated(s);
    CleanSame(s);
    OthersDispatch(s);
    match call
    case Tick =>
      TickDispatches(s);
      var w := Woken(c);
      DispatchAdvances(s, w.(ready := w.ready + [w.running]), false, tid, k);
    case Spawn(_) => StaysReady(s, After(s, call).state, tid, k);
    case Terminate(other) =>
      if other == c.running && other in c.threads && other != 0 {
        DispatchAdvances(s, c, true, tid, k);
      } else if other in c.threads && other != 0 {
        DropAdvances(s, c.(tidToTerminate := other), other, tid, k);
      } else {
        StaysReady(s, c, tid, k);
      }
    case Block(other) =>
      if other == 0 || other !in c.threads || other in c.blocked {
        StaysReady(s, c, tid, k);
      } else if other == c.running {
        DispatchAdvances(s, c.(blocked := c.blocked + {other}), false, tid, k);
      } else {
        DropAdvances(s, c, other, tid, k);
        BlockAdvances(s, Dropped(c, other), other, tid, k);
      }
    case Resume(_) => StaysReady(s, After(s, call).state, tid, k);
    case Sleep(numQuantums) =>
      if c.running == 0 || numQuantums <= 0 {
        StaysReady(s, c, tid, k);
      } else {
        var until := c.total + numQuantums;
        DispatchAdvances(s, c.(threads := c.threads[c.running := c.threads[c.running].(sleepUntil := until)],
                               sleeping := Inserted(c.sleeping, Sleeper(c.running, until))), false, tid, k);
      }
    case Quantums(_) => StaysReady(s, c, tid, k);
  }

  lemma StaysReady(s: Sched, s': Sched, tid: int, k: nat)
    requires s'.total == s.total && k < |s'.ready| && s'.ready[k] == tid
    ensures Advances(s, s', tid, k)
  {
  }

  lemma DropAdvances(s: Sched, c: Sched, other: int, tid: int, k: nat)
    requires c.total == s.total && k < |c.ready| && c.ready[k] == tid && other != tid
    ensures Advances(s, Dropped(c, other), tid, k)
  {
    var k' := WithoutKeepsPlace(c.ready, other, k);
  }

  lemma BlockAdvances(s: Sched, d: Sched, other: int, tid: int, k: nat)
    requires Advances(s, d, tid, k) && d.total == s.total
    ensures Advances(s, d.(blocked := d.blocked + {other}), tid, k)
  {
  }

  /** Thread tid has not run after call i, up to the state after m calls. */
  ghost predicate NotYet(calls: seq<Call>, i: nat, m: nat, tid: int)
    requires Legal(calls) && m <= |calls|
  {
    forall k :: i < k <= m ==> At(calls, k).running != tid
  }

  /** Bounded waiting: a ready thread at position k that is neither blocked nor terminated before it gets to run
      runs after at most k + 1 preemptions. */
  lemma {:induction false} BoundedWaiting(calls: seq<Call>, i: nat, j: nat, tid: int, k: nat)
    requires Legal(calls) && i <= j <= |calls|
    requires k < |At(calls, i).ready| && At(calls, i).ready[k] == tid
    requires forall m :: i <= m < j && NotYet(calls, i, m, tid) ==>
               calls[m] != Terminate(tid) && calls[m] != Block(tid)
    requires At(calls, j).total >= At(calls, i).total + k + 1
    ensures exists m :: i < m <= j && At(calls, m).running == tid && At(calls, m).total <= At(calls, i).total + k + 1
    ensures k < MAX_THREAD_NUM - 1
    decreases j - i
  {
    hide At, Inv, After;
    var s, s' := At(calls, i), At(calls, i + 1);
    LiveBounded(s);
    AtNext(calls, i);
    assert NotYet(calls, i, i, tid);
    NeverBack(s, calls[i], tid, k);
    if s'.running == tid {
      return;
    }
    forall m | i + 1 <= m < j && NotYet(calls, i + 1, m, tid) ensures NotYet(calls, i, m, tid) {
    }
    if s'.total == s.total {
      var k' :| 0 <= k' <= k && k' < |s'.ready| && s'.ready[k'] == tid;
      BoundedWaiting(calls, i + 1, j, tid, k');
    } else if k > 0 {
      BoundedWaiting(calls, i + 1, j, tid, k - 1);
    }
  }

  // ---------- Sleeping ----------

  predicate HasDeadline(s: Sched, tid: int, deadline: int) {
    tid in Live(s) && s.threads[tid].sleepUntil >= deadline
  }

  /** The call by which thread tid goes to sleep. */
  predicate PutsToSleep(s: Sched, call: Call, tid: int) {
    call.Sleep? && call.numQuantums > 0 && s.running == tid && tid != 0
  }

  /** A thread's deadline after a call. */
  function NextDeadline(s: Sched, call: Call, tid: int, deadline: int): int {
    if PutsToSleep(s, call, tid) then s.total + call.numQuantums else deadline
  }

  predicate DeadlineIs(s: Sched, tid: int, deadline: int) {
    tid in Live(s) && s.threads[tid].sleepUntil == deadline
  }

  lemma DispatchDeadline(c: Sched, terminates: bool, tid: int, deadline: int)
    requires CanDispatch(c) && tid in c.threads && c.threads[tid].sleepUntil == deadline && tid != c.tidToTerminate
    requires terminates ==> tid != c.running
    ensures DeadlineIs(Dispatched(c, terminates), tid, deadline)
  {
  }

  lemma DeadlineStays(s: Sched, tid: int, deadline: int)
    requires tid in s.threads && s.threads[tid].sleepUntil == deadline && tid != s.tidToTerminate
    ensures DeadlineIs(s, tid, deadline)
  {
  }

  lemma CleanDeadline(s: Sched, tid: int, deadline: int)
    requires Inv(s) && DeadlineIs(s, tid, deadline)
    ensures var c := WithoutTerminated(s);
            tid in c.threads && c.threads[tid].sleepUntil == deadline && c.tidToTerminate == NONE && tid != NONE
  {
  }

  /** A thread's deadline changes only when it goes to sleep. */
  lemma DeadlineStep(s: Sched, call: Call, tid: int, deadline: int)
    requires Inv(s) && DeadlineIs(s, tid, deadline) && call != Terminate(tid)
    ensures DeadlineIs(After(s, call).state, tid, NextDeadline(s, call, tid, deadline))
  {
    hide Inv, WithoutTerminated, Tids, FindTid, Inserted, Due, Without, Erased, Dispatched, DeadlineIs;
    var c := WithoutTerminated(s);
    CleanDeadline(s, tid, deadline);
    CleanSame(s);
    OthersDispatch(s);
    match call
    case Tick =>
      TickDispatches(s);
      var w := Woken(c);
      DispatchDeadline(w.(ready := w.ready + [w.running]), false, tid, deadline);
    case Terminate(other) =>
      if other == c.running && other != 0 {
        DispatchDeadline(c, true, tid, deadline);
      } else {
        DeadlineStays(After(s, call).state, tid, deadline);
      }
    case Block(other) =>
      if other == c.running && other != 0 && other !in c.blocked {
        DispatchDeadline(c.(blocked := c.blocked + {other}), false, tid, deadline);
      } else {
        DeadlineStays(After(s, call).state, tid, deadline);
      }
    case Sleep(numQuantums) =>
      if c.running != 0 && numQuantums > 0 {
        var until := c.total + numQuantums;
        DispatchDeadline(c.(threads := c.threads[c.running := c.threads[c.running].(sleepUntil := until)],
                            sleeping := Inserted(c.sleeping, Sleeper(c.running, until))), false, tid,
                         NextDeadline(s, call, tid, deadline));
      } else {
        DeadlineStays(c, tid, deadline);
      }
    case _ => DeadlineStays(After(s, call).state, tid, deadline);
  }

  /** A thread that is alive keeps its deadline, or has set itself a later one. */
  lemma KeepsDeadline(s: Sched, call: Call, tid: int, deadline: int)
    requires Inv(s) && HasDeadline(s, tid, deadline) && call != Terminate(tid)
    ensures HasDeadline(After(s, call).state, tid, deadline)
  {
    hide After, Inv;
    DeadlineStep(s, call, tid, s.threads[tid].sleepUntil);
    RunsAfterDeadline(s);
  }

  lemma {:induction false} KeepsDeadlineRun(calls: seq<Call>, i: nat, j: nat, tid: int, deadline: int)
    requires Legal(calls) && i <= j <= |calls| && HasDeadline(At(calls, i), tid, deadline)
    requires forall m :: i <= m < j ==> calls[m] != Terminate(tid)
    ensures HasDeadline(At(calls, j), tid, deadline)
  {
    hide After, Inv;
    if i < j {
      KeepsDeadlineRun(calls, i, j - 1, tid, deadline);
      KeepsDeadline(At(calls, j - 1), calls[j - 1], tid, deadline);
    }
  }

  /** A thread that sleeps n quanta in quantum t does not run before quantum t + n + 1, whoever blocks and resumes
      it meanwhile. */
  lemma SleepSafety(calls: seq<Call>, i: nat, j: nat, n: int)
    requires Legal(calls) && i < j <= |calls| && calls[i] == Sleep(n) && n > 0
    requires At(calls, i).running != 0
    requires forall m :: i < m < j ==> calls[m] != Terminate(At(calls, i).running)
    ensures At(calls, j).running == At(calls, i).running ==> At(calls, j).total >= At(calls, i).total + n + 1
  {
    hide At, After, Inv;
    var s := At(calls, i);
    FallsAsleep(s, n);
    AtNext(calls, i);
    KeepsDeadlineRun(calls, i + 1, j, s.running, s.total + n);
    RunsAfterDeadline(At(calls, j));
  }

  lemma RunsAfterDeadline(s: Sched)
    requires Inv(s)
    ensures s.running in s.threads && s.threads[s.running].sleepUntil < s.total
  {
  }

  lemma FallsAsleep(s: Sched, n: int)
    requires Inv(s) && s.running != 0 && n > 0
    ensures var s' := After(s, Sleep(n)).state;
            && HasDeadline(s', s.running, s.total + n)
            && s'.running != s.running && Sleeper(s.running, s.total + n) in s'.sleeping
  {
    hide Partitioned, Tids, Orderly;
    CleanKeeps(s);
    OthersDispatch(s);
    var c := WithoutTerminated(s);
    RunningIsElsewhere(c);
    InsertedHolds(c.sleeping, Sleeper(s.running, s.total + n));
  }

  lemma {:induction false} InsertedHolds(sleeping: seq<Sleeper>, e: Sleeper)
    ensures e in Inserted(sleeping, e) && forall x :: x in sleeping ==> x in Inserted(sleeping, e)
  {
    hide Inserted;
    InsertedBag(sleeping, e);
    assert e in multiset(Inserted(sleeping, e));
    forall x | x in sleeping ensures x in Inserted(sleeping, e) {
      assert x in multiset(sleeping);
      assert x in multiset(Inserted(sleeping, e));
    }
  }

  /** Only a timer tick wakes a sleeper, and only when its deadline has come. */
  lemma StaysAsleep(s: Sched, call: Call, e: Sleeper)
    requires Inv(s) && e in s.sleeping
    requires call != Terminate(e.tid) && call != Block(e.tid)
    requires call == Tick ==> s.total < e.until
    ensures e in After(s, call).state.sleeping
  {
    hide Inv, Live, WithoutTerminated, Tids, LowestFrom, FindTid, Inserted, Due;
    var c := WithoutTerminated(s);
    CleanSame(s);
    OthersDispatch(s);
    match call
    case Tick =>
      TickDispatches(s);
      var i :| 0 <= i < |c.sleeping| && c.sleeping[i] == e;
      assert c.sleeping[Due(c.sleeping, c.total)..][i - Due(c.sleeping, c.total)] == e;
    case Spawn(_) =>
    case Terminate(tid) => DropSpares(c.(tidToTerminate := tid), tid, e);
    case Block(tid) => DropSpares(c, tid, e);
    case Resume(tid) =>
      if tid in c.threads {
        InsertedHolds(c.sleeping, Sleeper(tid, c.threads[tid].sleepUntil));
      }
    case Sleep(n) => InsertedHolds(c.sleeping, Sleeper(c.running, c.total + n));
    case Quantums(_) =>
  }

  lemma DropSpares(c: Sched, tid: int, e: Sleeper)
    requires e in c.sleeping && e.tid != tid
    ensures e in Dropped(c, tid).sleeping
  {
    var i, k := FindTid(c.sleeping, tid), 0;
    if i < |c.sleeping| {
      var j :| 0 <= j < |c.sleeping| && c.sleeping[j] == e;
      assert Erased(c.sleeping, i)[if j < i then j else j - 1] == e;
    }
  }

  /** The first tick at or after its deadline makes a sleeper ready or running; until then it stays asleep. */
  lemma {:induction false} WakesUp(calls: seq<Call>, i: nat, j: nat, e: Sleeper)
    requires Legal(calls) && i <= j < |calls| && e in At(calls, i).sleeping
    requires forall m :: i <= m <= j ==> calls[m] != Terminate(e.tid) && calls[m] != Block(e.tid)
    requires forall m :: i <= m < j && calls[m] == Tick ==> At(calls, m).total < e.until
    requires calls[j] == Tick && At(calls, j).total >= e.until
    ensures e in At(calls, j).sleeping
    ensures e.tid == At(calls, j + 1).running || e.tid in At(calls, j + 1).ready
    decreases j - i
  {
    hide At, After, Inv;
    AtNext(calls, i);
    if i < j {
      StaysAsleep(At(calls, i), calls[i], e);
      WakesUp(calls, i + 1, j, e);
    } else {
      TickWakes(At(calls, j), e);
    }
  }

  lemma TickWakes(s: Sched, e: Sleeper)
    requires Inv(s) && e in s.sleeping && e.until <= s.total
    ensures var s' := After(s, Tick).state; e.tid == s'.running || e.tid in s'.ready
  {
    hide Inv, Tids, Due, After;
    TickQueue(s);
    var s', n := After(s, Tick).state, Due(s.sleeping, s.total);
    var i :| 0 <= i < |s.sleeping| && s.sleeping[i] == e;
    var q := s.ready + Tids(s.sleeping[..n]) + [s.running];
    assert q[|s.ready| + i] == e.tid;
    assert ([s'.running] + s'.ready)[|s.ready| + i] == e.tid;
  }

  /** Awake, and its deadline past. */
  ghost predicate AwakeFor(s: Sched, e: Sleeper) {
    e !in s.sleeping && e.tid !in s.blocked && e.until <= s.total
  }

  lemma WakesForGood(s: Sched, e: Sleeper)
    requires Inv(s) && e in s.sleeping && e.until <= s.total
    ensures AwakeFor(After(s, Tick).state, e)
  {
    hide Tids, Due, FindTid;
    TickQueue(s);
    TickDispatches(s);
    var n := Due(s.sleeping, s.total);
    var i :| 0 <= i < |s.sleeping| && s.sleeping[i] == e;
    OnlyAsleep(s, i);
  }

  /** An entry that is over does not come back: a later sleep has a later deadline. */
  lemma StaysAwake(s: Sched, call: Call, e: Sleeper)
    requires Inv(s) && AwakeFor(s, e) && call != Block(e.tid)
    ensures AwakeFor(After(s, call).state, e)
  {
    hide Inv, Live, WithoutTerminated, Tids, LowestFrom, FindTid, Inserted, Due, Without, Erased;
    var c := WithoutTerminated(s);
    CleanSame(s);
    OthersDispatch(s);
    match call
    case Tick => TickDispatches(s);
    case Spawn(_) =>
    case Terminate(tid) => DropAddsNothing(c.(tidToTerminate := tid), tid);
    case Block(tid) => DropAddsNothing(c, tid);
    case Resume(tid) =>
      if tid in c.threads {
        InsertedOnly(c.sleeping, Sleeper(tid, c.threads[tid].sleepUntil));
      }
    case Sleep(n) => InsertedOnly(c.sleeping, Sleeper(c.running, c.total + n));
    case Quantums(_) =>
  }

  lemma DropAddsNothing(c: Sched, tid: int)
    ensures var d := Dropped(c, tid);
            d.blocked <= c.blocked && d.total == c.total && forall e :: e in d.sleeping ==> e in c.sleeping
  {
  }

  lemma InsertedOnly(sleeping: seq<Sleeper>, e: Sleeper)
    ensures forall x :: x in Inserted(sleeping, e) ==> x in sleeping || x == e
  {
    hide Inserted;
    InsertedBag(sleeping, e);
    forall x | x in Inserted(sleeping, e) ensures x in sleeping || x == e {
      assert x in multiset(Inserted(sleeping, e));
    }
  }

  lemma {:induction false} StaysAwakeRun(calls: seq<Call>, i: nat, j: nat, e: Sleeper)
    requires Legal(calls) && i <= j <= |calls| && AwakeFor(At(calls, i), e)
    requires forall m :: i <= m < j ==> calls[m] != Block(e.tid)
    ensures AwakeFor(At(calls, j), e)
  {
    hide After, Inv, AwakeFor;
    if i < j {
      StaysAwakeRun(calls, i, j - 1, e);
      StaysAwake(At(calls, j - 1), calls[j - 1], e);
    }
  }

  /** The exact condition for waking: a sleeper that is not blocked or terminated is still asleep if and only if
      there was no timer tick at or after its deadline, however many quanta have started since. */
  lemma {:induction false} AsleepIffNoDueTick(calls: seq<Call>, i: nat, j: nat, e: Sleeper)
    requires Legal(calls) && i <= j <= |calls| && e in At(calls, i).sleeping
    requires forall m :: i <= m < j ==> calls[m] != Terminate(e.tid) && calls[m] != Block(e.tid)
    ensures e in At(calls, j).sleeping <==> forall m :: i <= m < j && calls[m] == Tick ==> At(calls, m).total < e.until
    decreases j - i
  {
    hide After, Inv, At;
    if i < j {
      AtNext(calls, i);
      if calls[i] == Tick && At(calls, i).total >= e.until {
        WakesForGood(At(calls, i), e);
        StaysAwakeRun(calls, i + 1, j, e);
        assert AwakeFor(At(calls, j), e);
      } else {
        StaysAsleep(At(calls, i), calls[i], e);
        AsleepIffNoDueTick(calls, i + 1, j, e);
      }
    }
  }

  lemma {:induction false} TicksFront(calls: seq<Call>, i: nat, j: nat)
    requires i < j <= |calls|
    ensures Ticks(calls, i, j) == (if calls[i] == Tick then 1 else 0) + Ticks(calls, i + 1, j)
  {
    if i < j - 1 {
      TicksFront(calls, i, j - 1);
    }
  }

  /** Enough ticks reach any quantum. */
  lemma {:induction false} FirstDueTick(calls: seq<Call>, i: nat, j: nat, until: int) returns (m: nat)
    requires Legal(calls) && i <= j <= |calls| && Ticks(calls, i, j) > 0
    requires At(calls, i).total + Ticks(calls, i, j) > until
    ensures i <= m < j && calls[m] == Tick && At(calls, m).total >= until
    ensures forall k :: i <= k < m && calls[k] == Tick ==> At(calls, k).total < until
    decreases j - i
  {
    hide At, After, Inv, Ticks;
    NoTicks(calls, i, j);
    TicksFront(calls, i, j);
    if calls[i] == Tick && At(calls, i).total >= until {
      m := i;
    } else {
      TotalStep(calls, i);
      NoTicks(calls, i + 1, j);
      m := FirstDueTick(calls, i + 1, j, until);
    }
  }

  lemma TotalStep(calls: seq<Call>, i: nat)
    requires Legal(calls) && i < |calls|
    ensures At(calls, i + 1).total == At(calls, i).total + if StartsQuantum(At(calls, i), calls[i]) then 1 else 0
  {
    hide At, After, Inv, StartsQuantum;
    AtNext(calls, i);
    MainIsLive(At(calls, i));
    QuantumGoesToRunning(At(calls, i), calls[i], 0);
  }

  lemma NoTicks(calls: seq<Call>, i: nat, j: nat)
    requires i <= j <= |calls|
    ensures Ticks(calls, i, j) > 0 ==> i < j
  {
  }

  /** A thread that sleeps n quanta has become ready, or run, by the n-th timer tick after that. */
  lemma AwakeAfterTicks(calls: seq<Call>, i: nat, j: nat, n: int)
    requires Legal(calls) && i < j <= |calls| && calls[i] == Sleep(n) && n > 0 && At(calls, i).running != 0
    requires var tid := At(calls, i).running;
             forall m :: i < m < j ==> calls[m] != Terminate(tid) && calls[m] != Block(tid)
    requires Ticks(calls, i + 1, j) >= n
    ensures var tid := At(calls, i).running;
            && AwakeFor(At(calls, j), Sleeper(tid, At(calls, i).total + n))
            && exists m :: i + 1 < m <= j && (At(calls, m).running == tid || tid in At(calls, m).ready)
  {
    hide At, After, Inv, Ticks, AwakeFor;
    var s := At(calls, i);
    var e := Sleeper(s.running, s.total + n);
    FallsAsleep(s, n);
    AtNext(calls, i);
    TotalStep(calls, i);
    var m := FirstDueTick(calls, i + 1, j, e.until);
    WakesUp(calls, i + 1, m, e);
    WakesForGood(At(calls, m), e);
    AtNext(calls, m);
    StaysAwakeRun(calls, m + 1, j, e);
  }

  // ---------- Sleepers wake in order ----------

  ghost predicate AheadOf<T>(q: seq<T>, x: T, y: T) {
    exists i, j :: 0 <= i < j < |q| && q[i] == x && q[j] == y
  }

  lemma LeavingAt(z: seq<Sleeper>, k: nat, i: nat)
    requires k < |z| && i < |z| && i != k
    ensures (z[..k] + z[k + 1..])[if i < k then i else i - 1] == z[i]
  {
  }

  lemma LeavingKeepsOrder(z: seq<Sleeper>, z': seq<Sleeper>, tid: int, e: Sleeper, f: Sleeper)
    requires LeavesSleep(z, z', tid) && AheadOf(z, e, f) && e.tid != tid && f.tid != tid
    ensures AheadOf(z', e, f)
  {
    if exists k :: 0 <= k < |z| && z[k].tid == tid {
      var k :| 0 <= k < |z| && z[k].tid == tid;
      assert z' == z[..k] + z[k + 1..];
      hide LeavesSleep;
      var i, j :| 0 <= i < j < |z| && z[i] == e && z[j] == f;
      LeavingAt(z, k, i);
      LeavingAt(z, k, j);
    }
  }

  lemma EnteringAt(z: seq<Sleeper>, k: nat, g: Sleeper, i: nat)
    requires k <= |z| && i < |z|
    ensures var z' := z[..k] + [g] + z[k..]; z'[if i < k then i else i + 1] == z[i] && z'[k] == g
  {
  }

  lemma EnteringKeepsOrder(z: seq<Sleeper>, z': seq<Sleeper>, g: Sleeper, e: Sleeper, f: Sleeper)
    requires EntersSleep(z, z', g) && AheadOf(z, e, f)
    ensures AheadOf(z', e, f)
  {
    hide Separates;
    var k :| 0 <= k <= |z| && z' == z[..k] + [g] + z[k..] && Separates(z, k, g.until);
    var i, j :| 0 <= i < j < |z| && z[i] == e && z[j] == f;
    EnteringAt(z, k, g, i);
    EnteringAt(z, k, g, j);
  }

  lemma EntersBehind(z: seq<Sleeper>, z': seq<Sleeper>, g: Sleeper, e: Sleeper)
    requires EntersSleep(z, z', g) && e in z && e.until <= g.until
    ensures AheadOf(z', e, g)
  {
    var k :| 0 <= k <= |z| && z' == z[..k] + [g] + z[k..] && Separates(z, k, g.until);
    var i :| 0 <= i < |z| && z[i] == e;
    EnteringAt(z, k, g, i);
  }

  /** Sleepers stay in order, through every call, until the first of them is due. */
  lemma OrderStays(s: Sched, call: Call, e: Sleeper, f: Sleeper)
    requires Inv(s) && AheadOf(s.sleeping, e, f)
    requires call != Terminate(e.tid) && call != Block(e.tid) && call != Terminate(f.tid) && call != Block(f.tid)
    requires call == Tick ==> s.total < e.until
    ensures AheadOf(After(s, call).state.sleeping, e, f)
  {
    hide Inv, After, Live, AheadOf, LeavesSleep, EntersSleep, LeavesQueue;
    var z, z' := s.sleeping, After(s, call).state.sleeping;
    SleepersAfter(s, call);
    if call == Tick {
      TickKeepsOrder(s, e, f);
    } else if z' != z {
      if call.Sleep? || call.Resume? {
        var g :| EntersSleep(z, z', g);
        EnteringKeepsOrder(z, z', g, e, f);
      } else {
        LeavingKeepsOrder(z, z', call.tid, e, f);
      }
    }
  }

  /** What a call other than a tick does to the sleepers. */
  lemma SleepersAfter(s: Sched, call: Call)
    requires Inv(s)
    ensures var z, z' := s.sleeping, After(s, call).state.sleeping;
            || call.Tick? || z' == z
            || ((call.Sleep? || call.Resume?) && exists g :: EntersSleep(z, z', g))
            || ((call.Terminate? || call.Block?) && LeavesSleep(z, z', call.tid))
  {
    hide Inv, After, Live, LeavesSleep, EntersSleep, LeavesQueue;
    CallsFail(s, call);
    match call
    case Tick =>
    case Spawn(hasFunction) => SpawnSucceeds(s, hasFunction);
    case Terminate(tid) =>
      TerminateEnds(s, tid);
      if tid == 0 {
        ExitKeepsSleepers(s);
      } else if tid in Live(s) {
        if tid == s.running {
          FrontRuns(s, call);
        } else {
          TerminateSparesOthers(s, tid);
        }
      } else {
        NoSuchThread(s, tid);
      }
    case Block(tid) =>
      if tid in Live(s) && tid != 0 {
        if tid == s.running {
          FrontRuns(s, call);
        } else {
          BlockEnds(s, tid);
        }
      }
    case Resume(tid) =>
      if tid in Live(s) {
        ResumeEffect(s, tid);
      }
    case Sleep(n) =>
      if GivesUp(s, call) {
        FrontRuns(s, call);
      }
    case Quantums(_) =>
  }

  lemma ExitKeepsSleepers(s: Sched)
    requires Inv(s)
    ensures After(s, Terminate(0)).state.sleeping == s.sleeping
  {
    CleanSame(s);
  }

  lemma NoSuchThread(s: Sched, tid: int)
    requires Inv(s) && tid !in Live(s) && tid != 0
    ensures After(s, Terminate(tid)).state.sleeping == s.sleeping
  {
    hide Partitioned, Orderly, Tids;
    CleanKeeps(s);
    CleanSame(s);
  }

  lemma TickKeepsOrder(s: Sched, e: Sleeper, f: Sleeper)
    requires Inv(s) && AheadOf(s.sleeping, e, f) && s.total < e.until
    ensures AheadOf(After(s, Tick).state.sleeping, e, f)
  {
    hide Inv, After, Due, Tids;
    TickQueue(s);
    var n := Due(s.sleeping, s.total);
    var i, j :| 0 <= i < j < |s.sleeping| && s.sleeping[i] == e && s.sleeping[j] == f;
    assert s.sleeping[n..][i - n] == e && s.sleeping[n..][j - n] == f;
  }

  /** The tick that wakes two sleepers queues them in their order. */
  lemma TickWakesInOrder(s: Sched, e: Sleeper, f: Sleeper)
    requires Inv(s) && AheadOf(s.sleeping, e, f) && f.until <= s.total
    ensures var s' := After(s, Tick).state; AheadOf([s'.running] + s'.ready, e.tid, f.tid)
  {
    hide Inv, After, Due, Tids;
    TickQueue(s);
    var n, s' := Due(s.sleeping, s.total), After(s, Tick).state;
    var i, j :| 0 <= i < j < |s.sleeping| && s.sleeping[i] == e && s.sleeping[j] == f;
    var q := s.ready + Tids(s.sleeping[..n]) + [s.running];
    assert q[|s.ready| + i] == e.tid && q[|s.ready| + j] == f.tid;
    assert [s'.running] + s'.ready == q;
  }

  lemma {:induction false} OrderStaysRun(calls: seq<Call>, i: nat, j: nat, e: Sleeper, f: Sleeper)
    requires Legal(calls) && i <= j <= |calls| && AheadOf(At(calls, i).sleeping, e, f)
    requires forall m :: i <= m < j ==> calls[m] != Terminate(e.tid) && calls[m] != Block(e.tid)
    requires forall m :: i <= m < j ==> calls[m] != Terminate(f.tid) && calls[m] != Block(f.tid)
    requires forall m :: i <= m < j && calls[m] == Tick ==> At(calls, m).total < e.until
    ensures AheadOf(At(calls, j).sleeping, e, f)
  {
    hide After, Inv, AheadOf;
    if i < j {
      OrderStaysRun(calls, i, j - 1, e, f);
      OrderStays(At(calls, j - 1), calls[j - 1], e, f);
    }
  }

  /** Two threads put to sleep until the same quantum, or the first until an earlier one, and woken by the same tick,
      are queued in the order in which they fell asleep. */
  lemma SleepersWakeInOrder(calls: seq<Call>, i: nat, j: nat, m: nat, n: int, k: int)
    requires Legal(calls) && i < j < m < |calls| && calls[i] == Sleep(n) && calls[j] == Sleep(k) && n > 0 && k > 0
    requires At(calls, i).running != 0 && At(calls, j).running != 0
    requires At(calls, i).total + n <= At(calls, j).total + k
    requires var a := At(calls, i).running;
             forall l :: i < l < m ==> calls[l] != Terminate(a) && calls[l] != Block(a)
    requires var b := At(calls, j).running;
             forall l :: j < l < m ==> calls[l] != Terminate(b) && calls[l] != Block(b)
    requires forall l :: i < l < m && calls[l] == Tick ==> At(calls, l).total < At(calls, i).total + n
    requires calls[m] == Tick && At(calls, m).total >= At(calls, j).total + k
    ensures var s := At(calls, m + 1);
            AheadOf([s.running] + s.ready, At(calls, i).running, At(calls, j).running)
  {
    hide At, After, Inv, AheadOf, EntersSleep;
    var s, t := At(calls, i), At(calls, j);
    var e, f := Sleeper(s.running, s.total + n), Sleeper(t.running, t.total + k);
    FallsAsleep(s, n);
    AtNext(calls, i);
    AsleepIffNoDueTick(calls, i + 1, j, e);
    FrontRuns(t, calls[j]);
    EntersBehind(t.sleeping, After(t, calls[j]).state.sleeping, f, e);
    AtNext(calls, j);
    OrderStaysRun(calls, j + 1, m, e, f);
    TickWakesInOrder(At(calls, m), e, f);
    AtNext(calls, m);
  }

  // ---------- Blocking ----------

  lemma StaysBlocked(s: Sched, call: Call, tid: int)
    requires Inv(s) && tid in s.blocked && call != Terminate(tid) && call != Resume(tid)
    ensures tid in After(s, call).state.blocked
  {
    hide Partitioned, Tids, Orderly, Live, LowestFrom, FindTid, Inserted, Due, Without, Erased;
    CleanKeeps(s);
    OthersDispatch(s);
    if call == Tick {
      TickDispatches(s);
    }
  }

  /** A blocked thread does not run until it is resumed. */
  lemma {:induction false} BlockedNeverRuns(calls: seq<Call>, i: nat, j: nat, tid: int)
    requires Legal(calls) && i <= j <= |calls| && tid in At(calls, i).blocked
    requires forall m :: i <= m < j ==> calls[m] != Terminate(tid) && calls[m] != Resume(tid)
    ensures tid in At(calls, j).blocked && At(calls, j).running != tid
  {
    hide After, Inv;
    if i < j {
      BlockedNeverRuns(calls, i, j - 1, tid);
      StaysBlocked(At(calls, j - 1), calls[j - 1], tid);
    }
    BlockedIsNotRunning(At(calls, j), tid);
  }

  lemma BlockedIsNotRunning(s: Sched, tid: int)
    requires Inv(s) && tid in s.blocked
    ensures s.running != tid
  {
    OnlyBlocked(s, tid);
  }

  /** Resuming a blocked thread makes it ready exactly if it has no deadline, that is, has never slept. If it has, it
      goes to sleep until its old deadline, even one long past, and then waits for a tick. */
  lemma ResumeMakesReady(s: Sched, tid: int)
    requires Inv(s) && tid in s.blocked
    ensures var s' := After(s, Resume(tid)).state;
            && tid in s.threads && tid !in s'.blocked
            && (tid in s'.ready <==> s.threads[tid].sleepUntil == NONE)
            && (tid !in s'.ready ==> Sleeper(tid, s.threads[tid].sleepUntil) in s'.sleeping)
  {
    hide Tids, Inserted, FindTid;
    CleanKeeps(s);
    ListedAreLive(s);
    var c := WithoutTerminated(s);
    OnlyBlocked(c, tid);
    InsertedHolds(c.sleeping, Sleeper(tid, c.threads[tid].sleepUntil));
    hide Partitioned, Waiting;
  }

  /** The deadline a thread spawned by call i has set itself by the calls up to j: the quantum of its last sleep
      plus the length of that sleep, or NONE if it has not slept. */
  function LastDeadline(calls: seq<Call>, i: nat, j: nat, tid: int): int
    requires Legal(calls) && i < j <= |calls|
  {
    if j == i + 1 then NONE
    else NextDeadline(At(calls, j - 1), calls[j - 1], tid, LastDeadline(calls, i, j - 1, tid))
  }

  lemma {:induction false} LastDeadlineMeaning(calls: seq<Call>, i: nat, j: nat, tid: int)
    requires Legal(calls) && i < j <= |calls|
    ensures var deadline := LastDeadline(calls, i, j, tid);
            && (deadline == NONE <==> forall m :: i < m < j ==> !PutsToSleep(At(calls, m), calls[m], tid))
            && (deadline == NONE || deadline > 0)
  {
    hide At, After, Inv;
    if j > i + 1 {
      LastDeadlineMeaning(calls, i, j - 1, tid);
      TotalPositive(At(calls, j - 1));
    }
  }

  lemma TotalPositive(s: Sched)
    requires Inv(s)
    ensures s.total >= 1
  {
  }

  /** Thread tid of state j is the one that call i spawned. */
  ghost predicate SpawnedBy(calls: seq<Call>, i: nat, j: nat, tid: int)
    requires Legal(calls) && j <= |calls|
  {
    && i < j && calls[i] == Spawn(true) && After(At(calls, i), calls[i]).result == tid
    && forall m :: i < m < j ==> calls[m] != Terminate(tid)
  }

  /** What is live after a call was live before or has just been spawned. */
  lemma NewlyLive(s: Sched, call: Call, tid: int)
    requires Inv(s) && tid in Live(After(s, call).state) && tid != 0
    ensures (tid in Live(s) && call != Terminate(tid)) || (call == Spawn(true) && After(s, call).result == tid)
  {
    hide Inv, After, Live, LeavesSleep, EntersSleep, LeavesQueue, SameEntries;
    CallsFail(s, call);
    match call
    case Tick => TickQueue(s);
    case Spawn(hasFunction) => SpawnSucceeds(s, hasFunction);
    case Terminate(other) => TerminateEnds(s, other);
    case Block(other) =>
      if other in Live(s) && other != 0 {
        if other == s.running {
          FrontRuns(s, call);
        } else {
          BlockEnds(s, other);
        }
      }
    case Resume(other) =>
      if other in Live(s) {
        ResumeEffect(s, other);
      }
    case Sleep(_) =>
      if GivesUp(s, call) {
        FrontRuns(s, call);
      }
    case Quantums(_) =>
  }

  /** Every live thread but main was spawned by some call and not terminated since. */
  lemma {:induction false} SpawnOf(calls: seq<Call>, j: nat, tid: int) returns (i: nat)
    requires Legal(calls) && j <= |calls| && tid in Live(At(calls, j)) && tid != 0
    ensures SpawnedBy(calls, i, j, tid)
  {
    hide After, Inv;
    NewlyLive(At(calls, j - 1), calls[j - 1], tid);
    if calls[j - 1] == Spawn(true) && After(At(calls, j - 1), calls[j - 1]).result == tid {
      i := j - 1;
    } else {
      i := SpawnOf(calls, j - 1, tid);
    }
  }

  /** A thread's field is its last sleep's deadline: the calls made determine it. */
  lemma {:induction false} DeadlineHistory(calls: seq<Call>, i: nat, j: nat, tid: int)
    requires Legal(calls) && j <= |calls| && SpawnedBy(calls, i, j, tid) && tid != EXIT_FAIL
    ensures DeadlineIs(At(calls, j), tid, LastDeadline(calls, i, j, tid))
  {
    hide After, Inv;
    if j == i + 1 {
      SpawnedFresh(At(calls, i), tid);
    } else {
      DeadlineHistory(calls, i, j - 1, tid);
      DeadlineStep(At(calls, j - 1), calls[j - 1], tid, LastDeadline(calls, i, j - 1, tid));
    }
  }

  lemma SpawnedFresh(s: Sched, tid: int)
    requires Inv(s) && After(s, Spawn(true)).result == tid && tid != EXIT_FAIL
    ensures DeadlineIs(After(s, Spawn(true)).state, tid, NONE)
    ensures After(s, Spawn(true)).state.threads[tid].numOfQuantum == 0
  {
    hide AfterSpawn;
    SpawnSucceeds(s, true);
  }

  /** The quanta started for thread tid from call i up to j. */
  function QuantaStarted(calls: seq<Call>, i: nat, j: nat, tid: int): nat
    requires Legal(calls) && i <= j <= |calls|
  {
    if i == j then 0
    else QuantaStarted(calls, i, j - 1, tid) +
         if StartsQuantum(At(calls, j - 1), calls[j - 1]) && At(calls, j).running == tid then 1 else 0
  }

  /** A thread's count is the number of quanta started for it since its spawn, whoever had its id before. */
  lemma {:induction false} QuantaHistory(calls: seq<Call>, i: nat, j: nat, tid: int)
    requires Legal(calls) && j <= |calls| && SpawnedBy(calls, i, j, tid) && tid != EXIT_FAIL
    ensures tid in Live(At(calls, j)) && At(calls, j).threads[tid].numOfQuantum == QuantaStarted(calls, i + 1, j, tid)
  {
    hide After, Inv, StartsQuantum;
    DeadlineHistory(calls, i, j, tid);
    if j == i + 1 {
      SpawnedFresh(At(calls, i), tid);
    } else {
      QuantaHistory(calls, i, j - 1, tid);
      QuantumGoesToRunning(At(calls, j - 1), calls[j - 1], tid);
    }
  }

  /** Resume by the calls made: a blocked thread becomes ready if and only if it has not slept since it was spawned.
      The header wants it ready unless it is inside its sleep, so code and header agree if and only if it has not
      slept or its last sleep's deadline is still to come. */
  lemma ResumeByHistory(calls: seq<Call>, j: nat, tid: int) returns (i: nat)
    requires Legal(calls) && j < |calls| && calls[j] == Resume(tid) && tid in At(calls, j).blocked
    ensures SpawnedBy(calls, i, j, tid)
    ensures tid in At(calls, j + 1).ready <==> forall m :: i < m < j ==> !PutsToSleep(At(calls, m), calls[m], tid)
    ensures var deadline, total := LastDeadline(calls, i, j, tid), At(calls, j).total;
            var insideSleep := deadline > total;
            (tid in At(calls, j + 1).ready <==> !insideSleep) <==> (deadline == NONE || deadline > total)
  {
    hide After, Inv, At;
    BlockedIsLive(At(calls, j), tid);
    i := SpawnOf(calls, j, tid);
    DeadlineHistory(calls, i, j, tid);
    LastDeadlineMeaning(calls, i, j, tid);
    TotalPositive(At(calls, j));
    ResumeMakesReady(At(calls, j), tid);
    AtNext(calls, j);
  }

  lemma BlockedIsLive(s: Sched, tid: int)
    requires Inv(s) && tid in s.blocked
    ensures tid in Live(s) && tid != 0 && tid != EXIT_FAIL
  {
    ListedAreLive(s);
    OnlyBlocked(s, tid);
  }
}
