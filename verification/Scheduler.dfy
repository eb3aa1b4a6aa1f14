/** The scheduler object and its threads. A context switch is the change of the running thread's id. */
module Scheduler {
  import opened SchedulerState
  import opened SchedulerInvariant

  const SIGVTALRM: int := 26

  class Thread {
    const tid: int
    var numOfQuantum: int
    var sleepUntil: int

    constructor (id: int)
      ensures tid == id && View() == ThreadState(0, NONE)
    {
      tid, numOfQuantum, sleepUntil := id, 0, NONE;
    }

    ghost function View(): ThreadState
      reads this
    {
      ThreadState(numOfQuantum, sleepUntil)
    }

    method IncrementNumOfQuantum()
      modifies this`numOfQuantum
      ensures numOfQuantum == old(numOfQuantum) + 1
      ensures View() == OneMoreQuantum(old(View()))
    {
      numOfQuantum := numOfQuantum + 1;
    }

    method SetSleepUntil(until: int)
      modifies this`sleepUntil
      ensures View() == old(View()).(sleepUntil := until)
    {
      sleepUntil := until;
    }
  }

  class Scheduler {
    var threads: map<int, Thread>
    var readyQueue: seq<int>
    var blockedThreads: set<int>
    var sleepThreads: seq<Sleeper>
    var currentRunningThread: int
    var tidToTerminate: int
    var totalQuantum: int

    ghost function Objects(): set<Thread>
      reads this
    {
      set t | t in threads :: threads[t]
    }

    /** Threads are stored under their own ids, so no two ids share an object. */
    ghost predicate Owned()
      reads this
    {
      forall t :: t in threads ==> threads[t].tid == t
    }

    ghost function State(): Sched
      reads this, Objects()
    {
      Sched(map t | t in threads :: threads[t].View(), readyQueue, blockedThreads, sleepThreads,
            currentRunningThread, tidToTerminate, totalQuantum)
    }

    ghost predicate Valid()
      reads this, Objects()
    {
      Owned() && Inv(State())
    }

    constructor ()
      ensures Valid() && State() == Initial() && fresh(Objects())
      ensures threads.Keys == {0} && threads[0].numOfQuantum == 1 && threads[0].sleepUntil == NONE
      ensures readyQueue == [] && blockedThreads == {} && sleepThreads == []
      ensures currentRunningThread == 0 && tidToTerminate == NONE && totalQuantum == 1
    {
      var main := new Thread(0);
      main.IncrementNumOfQuantum();
      threads, readyQueue, blockedThreads, sleepThreads := map[0 := main], [], {}, [];
      currentRunningThread, tidToTerminate, totalQuantum := 0, NONE, 1;
      new;
      InitialInv();
      assert State().threads == Initial().threads;
    }

    // ---------- Internal steps ----------

    method GetLowestAvailableId() returns (tid: int)
      requires Owned()
      ensures tid == (var lowest := LowestFrom(threads.Keys, 1); if lowest == MAX_THREAD_NUM then EXIT_FAIL else lowest)
    {
      var lowestTid := 1;
      while lowestTid < MAX_THREAD_NUM && lowestTid in threads
        invariant 1 <= lowestTid <= MAX_THREAD_NUM
        invariant LowestFrom(threads.Keys, lowestTid) == LowestFrom(threads.Keys, 1)
        decreases MAX_THREAD_NUM - lowestTid
      {
        lowestTid := lowestTid + 1;
      }
      return if lowestTid == MAX_THREAD_NUM then EXIT_FAIL else lowestTid;
    }

    method DeleteTerminatedThread()
      requires Owned()
      modifies this`threads, this`tidToTerminate
      ensures Owned() && State() == WithoutTerminated(old(State())) && Objects() <= old(Objects())
      ensures forall t :: t in threads ==> t in old(threads) && threads[t] == old(threads)[t]
    {
      if tidToTerminate in threads {
        threads := threads - {tidToTerminate};
        tidToTerminate := NONE;
      }
      assert State().threads == WithoutTerminated(old(State())).threads;
    }

    method DeleteReadyThread(tid: int)
      modifies this`readyQueue
      ensures readyQueue == Without(old(readyQueue), tid)
    {
      var i, kept := 0, [];
      while i < |readyQueue|
        invariant 0 <= i <= |readyQueue| && kept == Without(readyQueue[..i], tid)
      {
        assert readyQueue[..i + 1][..i] == readyQueue[..i];
        if readyQueue[i] != tid {
          kept := kept + [readyQueue[i]];
        }
        i := i + 1;
      }
      assert readyQueue[..i] == readyQueue;
      readyQueue := kept;
    }

    method IsTidSleeping(tid: int) returns (i: nat)
      ensures i == FindTid(sleepThreads, tid)
    {
      i := 0;
      while i < |sleepThreads| && sleepThreads[i].tid != tid
        invariant 0 <= i <= |sleepThreads|
        invariant FindTid(sleepThreads, tid) == i + FindTid(sleepThreads[i..], tid)
      {
        assert sleepThreads[i..][1..] == sleepThreads[i + 1..];
        i := i + 1;
      }
    }

    method InsertSleeper(e: Sleeper)
      modifies this`sleepThreads
      ensures sleepThreads == Inserted(old(sleepThreads), e)
    {
      hide Inserted;
      var i := |sleepThreads|;
      assert sleepThreads[..i] == sleepThreads && sleepThreads[i..] == [];
      while i > 0 && sleepThreads[i - 1].until > e.until
        invariant 0 <= i <= |sleepThreads| && sleepThreads == old(sleepThreads)
        invariant Inserted(sleepThreads, e) == Inserted(sleepThreads[..i], e) + sleepThreads[i..]
      {
        InsertedBefore(sleepThreads, i, e);
        i := i - 1;
      }
      InsertedHere(sleepThreads, i, e);
      sleepThreads := sleepThreads[..i] + [e] + sleepThreads[i..];
    }

    method SleepToReady()
      modifies this`readyQueue, this`sleepThreads
      ensures State() == Woken(old(State()))
    {
      hide Tids, Due;
      assert Tids([]) == [] && sleepThreads[..0] == [];
      var it := 0;
      while it < |sleepThreads| && sleepThreads[it].until < totalQuantum + 1
        invariant sleepThreads == old(sleepThreads) && 0 <= it <= Due(sleepThreads, totalQuantum)
        invariant readyQueue == old(readyQueue) + Tids(sleepThreads[..it])
      {
        TidsNext(sleepThreads, it);
        readyQueue := readyQueue + [sleepThreads[it].tid];
        it := it + 1;
      }
      assert it == Due(sleepThreads, totalQuantum);
      sleepThreads := sleepThreads[it..];
      assert State().threads == old(State()).threads;
    }

    method Preempt(terminates: bool)
      requires Owned() && CanDispatch(State())
      modifies this, Objects()
      ensures Owned() && threads == old(threads) && State() == Dispatched(old(State()), terminates)
    {
      var nextTid := readyQueue[0];
      readyQueue := readyQueue[1..];
      totalQuantum := totalQuantum + 1;
      threads[nextTid].IncrementNumOfQuantum();
      assert forall t :: t in threads ==> threads[t].tid == t;
      assert forall t :: t in threads && t != nextTid ==> threads[t] != threads[nextTid];
      if currentRunningThread != nextTid {
        ApplySigJmp(terminates, nextTid);
      }
      assert State().threads == Dispatched(old(State()), terminates).threads;
    }

    method ApplySigJmp(terminates: bool, nextTid: int)
      requires Owned() && nextTid in threads
      modifies this`currentRunningThread, this`tidToTerminate
      ensures currentRunningThread == nextTid
      ensures tidToTerminate == if terminates then old(currentRunningThread) else old(tidToTerminate)
    {
      var preemptedThreadId := currentRunningThread;
      currentRunningThread := threads[nextTid].tid;
      if terminates {
        tidToTerminate := preemptedThreadId;
      }
    }

    /** Off whatever it waits on. */
    method DropThread(tid: int)
      requires Owned()
      modifies this`readyQueue, this`blockedThreads, this`sleepThreads
      ensures State() == Dropped(old(State()), tid)
    {
      var it := IsTidSleeping(tid);
      if it == |sleepThreads| {
        if tid in blockedThreads {
          blockedThreads := blockedThreads - {tid};
        } else {
          DeleteReadyThread(tid);
        }
      } else {
        sleepThreads := sleepThreads[..it] + sleepThreads[it + 1..];
      }
      assert State().threads == old(State()).threads;
    }

    method TerminateOtherThread(tid: int)
      requires Owned()
      modifies this`readyQueue, this`blockedThreads, this`sleepThreads, this`tidToTerminate
      ensures State() == Dropped(old(State()).(tidToTerminate := tid), tid)
    {
      tidToTerminate := tid;
      assert State() == old(State()).(tidToTerminate := tid) by {
        assert State().threads == old(State()).threads;
      }
      DropThread(tid);
    }

    method BlockOtherThread(tid: int) returns (result: int)
      requires Owned() && tid !in blockedThreads
      modifies this`readyQueue, this`blockedThreads, this`sleepThreads
      ensures result == EXIT_SUCCESS
      ensures var d := Dropped(old(State()), tid); State() == d.(blocked := d.blocked + {tid})
    {
      var it := IsTidSleeping(tid);
      if it != |sleepThreads| {
        blockedThreads := blockedThreads + {tid};
        sleepThreads := sleepThreads[..it] + sleepThreads[it + 1..];
      } else {
        DeleteReadyThread(tid);
        blockedThreads := blockedThreads + {tid};
      }
      assert State().threads == old(State()).threads;
      return EXIT_SUCCESS;
    }

    method GetSpawnedThreadReady(nextTid: int) returns (tid: int)
      requires Owned() && nextTid !in threads
      modifies this`readyQueue, this`threads
      ensures tid == nextTid && Owned() && fresh(Objects() - old(Objects()))
      ensures var s := old(State());
              State() == s.(ready := s.ready + [nextTid], threads := s.threads[nextTid := ThreadState(0, NONE)])
    {
      readyQueue := readyQueue + [nextTid];
      var spawned := new Thread(nextTid);
      threads := threads[nextTid := spawned];
      assert State().threads == old(State()).threads[nextTid := ThreadState(0, NONE)];
      return nextTid;
    }

    /** The running thread joins the sleepers. */
    method EnterSleep(until: int)
      requires Owned() && currentRunningThread in threads
      modifies this`sleepThreads, Objects()
      ensures Owned() && threads == old(threads)
      ensures var s := old(State());
              State() == s.(threads := s.threads[s.running := s.threads[s.running].(sleepUntil := until)],
                            sleeping := Inserted(s.sleeping, Sleeper(s.running, until)))
    {
      hide Inserted;
      var currentThread := threads[currentRunningThread];
      assert forall t :: t in threads ==> threads[t].tid == t;
      assert forall t :: t in threads && t != currentRunningThread ==> threads[t] != currentThread;
      currentThread.SetSleepUntil(until);
      InsertSleeper(Sleeper(currentRunningThread, currentThread.sleepUntil));
      assert State().threads ==
             (var s := old(State()); s.threads[s.running := s.threads[s.running].(sleepUntil := until)]);
    }

    // ---------- The library calls ----------

    method TimerHandler(signo: int)
      requires Valid()
      modifies this, Objects()
      ensures Valid() && fresh(Objects() - old(Objects()))
      ensures State() == if signo == SIGVTALRM then After(old(State()), Tick).state else old(State())
    {
      hide Inv, Live, WithoutTerminated, Woken, Dispatched;
      if signo != SIGVTALRM {
        return;
      }
      ghost var s := State();
      TickDispatches(s);
      TickKeeps(s);
      DeleteTerminatedThread();
      SleepToReady();
      readyQueue := readyQueue + [currentRunningThread];
      ghost var w := Woken(WithoutTerminated(s));
      assert State() == w.(ready := w.ready + [w.running]) by {
        assert State().threads == w.threads;
      }
      Preempt(false);
    }

    method SpawnThread(hasFunction: bool) returns (result: int)
      requires Valid()
      modifies this, Objects()
      ensures Valid() && fresh(Objects() - old(Objects()))
      ensures Outcome(State(), result) == After(old(State()), Spawn(hasFunction))
    {
      hide Inv, Live, WithoutTerminated, LowestFrom;
      ghost var s := State();
      SpawnKeeps(s, hasFunction);
      DeleteTerminatedThread();
      assert threads.Keys == State().threads.Keys && |threads| == |State().threads|;
      if !hasFunction {
        return EXIT_FAIL;
      }
      if |threads| == MAX_THREAD_NUM {
        return EXIT_FAIL;
      }
      var nextTid := GetLowestAvailableId();
      if nextTid == EXIT_FAIL {
        return EXIT_FAIL;
      }
      result := GetSpawnedThreadReady(nextTid);
    }

    /** Terminating main ends the process: the call does not return. */
    method TerminateThread(tid: int) returns (result: int, exits: bool)
      requires Valid()
      modifies this, Objects()
      ensures Valid() && fresh(Objects() - old(Objects()))
      ensures Outcome(State(), result, exits) == After(old(State()), Terminate(tid))
    {
      hide Inv, Live, WithoutTerminated, Dispatched, Dropped;
      ghost var s := State();
      TerminateKeeps(s, tid);
      OthersDispatch(s);
      DeleteTerminatedThread();
      assert threads.Keys == State().threads.Keys;
      if tid == 0 {
        return EXIT_SUCCESS, true;
      }
      if tid !in threads {
        return EXIT_FAIL, false;
      }
      if tid == currentRunningThread {
        Preempt(true);
      } else {
        TerminateOtherThread(tid);
      }
      return EXIT_SUCCESS, false;
    }

    method GetThreadQuantums(tid: int) returns (result: int)
      requires Valid()
      modifies this, Objects()
      ensures Valid() && fresh(Objects() - old(Objects()))
      ensures Outcome(State(), result) == After(old(State()), Quantums(tid))
    {
      hide Partitioned;
      CleanKeeps(State());
      DeleteTerminatedThread();
      assert threads.Keys == State().threads.Keys;
      if tid in threads && tid != tidToTerminate {
        return threads[tid].numOfQuantum;
      }
      return EXIT_FAIL;
    }

    method BlockThread(tid: int) returns (result: int)
      requires Valid()
      modifies this, Objects()
      ensures Valid() && fresh(Objects() - old(Objects()))
      ensures Outcome(State(), result) == After(old(State()), Block(tid))
    {
      hide Inv, Live, WithoutTerminated, Dispatched, Dropped;
      ghost var s := State();
      BlockKeeps(s, tid);
      OthersDispatch(s);
      DeleteTerminatedThread();
      assert threads.Keys == State().threads.Keys;
      if tid == 0 {
        return EXIT_FAIL;
      }
      if tid !in threads {
        return EXIT_FAIL;
      }
      if tid in blockedThreads {
        return EXIT_SUCCESS;
      }
      if currentRunningThread == tid {
        blockedThreads := blockedThreads + {tid};
        ghost var c := WithoutTerminated(s);
        assert State() == c.(blocked := c.blocked + {tid}) by {
          assert State().threads == c.threads;
        }
        Preempt(false);
        return EXIT_SUCCESS;
      }
      result := BlockOtherThread(tid);
    }

    method ResumeThread(tid: int) returns (result: int)
      requires Valid()
      modifies this, Objects()
      ensures Valid() && fresh(Objects() - old(Objects()))
      ensures Outcome(State(), result) == After(old(State()), Resume(tid))
    {
      hide Inv, Live, WithoutTerminated, Inserted, FindTid;
      ghost var s := State();
      ResumeKeeps(s, tid);
      DeleteTerminatedThread();
      assert threads.Keys == State().threads.Keys;
      if tid !in threads {
        return EXIT_FAIL;
      }
      if tid !in blockedThreads {
        return EXIT_SUCCESS;
      }
      blockedThreads := blockedThreads - {tid};
      var sleepUntil := threads[tid].sleepUntil;
      if sleepUntil != NONE {
        var it := IsTidSleeping(tid);
        if it == |sleepThreads| {
          InsertSleeper(Sleeper(tid, sleepUntil));
        }
      } else {
        readyQueue := readyQueue + [tid];
      }
      assert State().threads == WithoutTerminated(s).threads;
      return EXIT_SUCCESS;
    }

    method SleepThread(numQuantums: int) returns (result: int)
      requires Valid()
      modifies this, Objects()
      ensures Valid() && fresh(Objects() - old(Objects()))
      ensures Outcome(State(), result) == After(old(State()), Sleep(numQuantums))
    {
      hide Inv, Live, WithoutTerminated, Inserted, Dispatched;
      ghost var s := State();
      SleepKeeps(s, numQuantums);
      OthersDispatch(s);
      CleanSame(s);
      DeleteTerminatedThread();
      assert threads.Keys == State().threads.Keys;
      if currentRunningThread == 0 {
        return EXIT_FAIL;
      }
      if numQuantums <= 0 {
        return EXIT_FAIL;
      }
      EnterSleep(totalQuantum + numQuantums);
      Preempt(false);
      return EXIT_SUCCESS;
    }
  }
}
