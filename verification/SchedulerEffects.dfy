/** What a single call does to everything a caller can observe. */
module SchedulerEffects {
  import Bags
  import opened SchedulerState
  import opened SchedulerInvariant

  // ---------- What a caller can observe ----------

  /** These threads are alive before and after, with the same quanta and the same deadline. */
  ghost predicate SameEntries(s: Sched, s': Sched, tids: set<int>) {
    forall t :: t in tids ==> t in Live(s) && t in Live(s') && s'.threads[t] == s.threads[t]
  }

  /** Nothing has changed but that a thread awaiting deletion may be gone. */
  ghost predicate Unaffected(s: Sched, s': Sched) {
    && Live(s') == Live(s) && SameEntries(s, s', Live(s))
    && s'.running == s.running && s'.total == s.total
    && s'.ready == s.ready && s'.blocked == s.blocked && s'.sleeping == s.sleeping
  }

  /** q' is q without tid, everybody else in the same order. */
  ghost predicate LeavesQueue(q: seq<int>, q': seq<int>, tid: int) {
    && (tid !in q ==> q' == q)
    && forall i :: 0 <= i < |q| && q[i] == tid ==> q' == q[..i] + q[i + 1..]
  }

  /** Likewise for the sleepers. */
  ghost predicate LeavesSleep(z: seq<Sleeper>, z': seq<Sleeper>, tid: int) {
    && ((forall i :: 0 <= i < |z| ==> z[i].tid != tid) ==> z' == z)
    && forall i :: 0 <= i < |z| && z[i].tid == tid ==> z' == z[..i] + z[i + 1..]
  }

  /** z' is z with e behind everyone whose deadline is as early or earlier, and ahead of all others. */
  ghost predicate EntersSleep(z: seq<Sleeper>, z': seq<Sleeper>, e: Sleeper) {
    exists i :: 0 <= i <= |z| && z' == z[..i] + [e] + z[i..] && Separates(z, i, e.until)
  }

  ghost predicate Separates(z: seq<Sleeper>, i: nat, until: int)
    requires i <= |z|
  {
    && (forall j :: 0 <= j < i ==> z[j].until <= until)
    && (forall j :: i <= j < |z| ==> z[j].until > until)
  }

  lemma SameAfterClean(s: Sched)
    requires Inv(s)
    ensures Unaffected(s, WithoutTerminated(s))
  {
    hide Partitioned, Orderly;
    CleanKeeps(s);
    CleanSame(s);
  }

  // ---------- One place for each thread ----------

  /** A live thread is running, ready, blocked or asleep: one of them, and once. Any other id is nowhere. */
  lemma EachInOnePlace(s: Sched, t: int)
    requires Inv(s)
    ensures (if t == s.running then 1 else 0) + multiset(s.ready)[t] + (if t in s.blocked then 1 else 0)
            + multiset(Tids(s.sleeping))[t] == if t in Live(s) then 1 else 0
  {
    hide Orderly, Tids, Live;
    assert (Waiting(s) + multiset{s.running})[t] == multiset(Live(s))[t];
  }

  lemma LiveBounded(s: Sched)
    requires Inv(s)
    ensures |Live(s)| <= |s.threads| <= MAX_THREAD_NUM && |s.ready| < |Live(s)|
  {
    hide Tids;
    Bags.SubsetSize(s.threads.Keys, Bags.Below(MAX_THREAD_NUM));
    Bags.SubsetSize(Live(s), s.threads.Keys);
    assert |Waiting(s) + multiset{s.running}| == |multiset(Live(s))|;
  }

  // ---------- Spawning ----------

  /** Nobody but the new thread is affected. */
  ghost predicate SpawnSpares(s: Sched, s': Sched) {
    && SameEntries(s, s', Live(s)) && s'.running == s.running && s'.total == s.total
    && s'.blocked == s.blocked && s'.sleeping == s.sleeping
  }

  lemma SpawnSparesOthers(s: Sched, hasFunction: bool)
    requires Inv(s)
    ensures SpawnSpares(s, AfterSpawn(s, hasFunction).state)
  {
    hide Partitioned, Tids, LowestFrom, Orderly;
    CleanKeeps(s);
    CleanSame(s);
  }

  /** Spawning succeeds exactly while there is room, with the least id not in use. */
  lemma SpawnSucceeds(s: Sched, hasFunction: bool)
    requires Inv(s)
    ensures var o := After(s, Spawn(hasFunction));
            && (o.result != EXIT_FAIL <==> hasFunction && |Live(s)| < MAX_THREAD_NUM)
            && (o.result == EXIT_FAIL ==> Unaffected(s, o.state))
            && (o.result != EXIT_FAIL ==>
                  && 1 <= o.result < MAX_THREAD_NUM && o.result !in Live(s) && Live(o.state) == Live(s) + {o.result}
                  && (forall t :: 1 <= t < o.result ==> t in Live(s)) && o.state.ready == s.ready + [o.result]
                  && o.state.threads[o.result] == ThreadState(0, NONE) && SpawnSpares(s, o.state))
  {
    hide Partitioned, Tids, LowestFrom, Unaffected, SpawnSpares;
    CleanKeeps(s);
    SameAfterClean(s);
    SpawnSparesOthers(s, hasFunction);
    var c := WithoutTerminated(s);
    assert |c.threads| == |c.threads.Keys|;
    RoomHasId(c.threads.Keys, 1);
    SpawnKeeps(s, hasFunction);
    LiveIs(AfterSpawn(s, hasFunction).state);
  }

  /** With fewer than MAX_THREAD_NUM threads there is a free id. */
  lemma RoomHasId(used: set<int>, k: int)
    requires 0 <= k <= MAX_THREAD_NUM && forall t :: 0 <= t < k ==> t in used
    requires forall t :: t in used ==> 0 <= t < MAX_THREAD_NUM
    ensures |used| <= MAX_THREAD_NUM && (LowestFrom(used, k) == MAX_THREAD_NUM <==> |used| == MAX_THREAD_NUM)
  {
    hide LowestFrom;
    var all := Bags.Below(MAX_THREAD_NUM);
    hide Bags.Below;
    Bags.SubsetSize(used, all);
    if LowestFrom(used, k) == MAX_THREAD_NUM {
      assert used == all;
    }
    if |used| == MAX_THREAD_NUM {
      Bags.SubsetOfSize(used, all);
    }
    assert LowestFrom(used, k) in all <==> LowestFrom(used, k) < MAX_THREAD_NUM;
  }

  /** Terminating finds every live thread and only those, and makes it one no longer; main's ends the process. */
  lemma TerminateEnds(s: Sched, tid: int)
    requires Inv(s)
    ensures var o := After(s, Terminate(tid));
            && (o.exits <==> tid == 0)
            && o.result == (if tid in Live(s) then EXIT_SUCCESS else EXIT_FAIL)
            && Live(o.state) == if tid == 0 then Live(s) else Live(s) - {tid}
  {
    hide Partitioned, Tids, Orderly;
    MainIsLive(s);
    CleanKeeps(s);
    TerminateKeeps(s, tid);
    OthersDispatch(s);
    RunningIsElsewhere(WithoutTerminated(s));
  }

  lemma MainIsLive(s: Sched)
    requires Inv(s)
    ensures 0 in Live(s)
  {
  }
  // ---------- Removal and insertion keep the order ----------

  lemma {:induction false} WithoutNone(q: seq<int>, tid: int)
    requires tid !in q
    ensures Without(q, tid) == q
  {
    if q != [] {
      WithoutNone(q[..|q| - 1], tid);
    }
  }

  lemma {:induction false} WithoutAt(q: seq<int>, tid: int, i: nat)
    requires i < |q| && q[i] == tid && forall j :: 0 <= j < |q| && j != i ==> q[j] != tid
    ensures Without(q, tid) == q[..i] + q[i + 1..]
  {
    var n := |q| - 1;
    if i == n {
      WithoutNone(q[..n], tid);
    } else {
      WithoutAt(q[..n], tid, i);
      assert q[..n][..i] == q[..i] && q[..n][i + 1..] + [q[n]] == q[i + 1..];
    }
  }

  lemma OncePlace(q: seq<int>, i: nat, j: nat)
    requires i < j < |q| && q[i] == q[j]
    ensures multiset(q)[q[i]] >= 2
  {
    assert q == (q[..i] + [q[i]]) + (q[i + 1..j] + [q[j]] + q[j + 1..]);
  }

  lemma WithoutLeaves(q: seq<int>, tid: int)
    requires multiset(q)[tid] <= 1
    ensures LeavesQueue(q, Without(q, tid), tid)
  {
    hide Without;
    if tid !in q {
      WithoutNone(q, tid);
    }
    forall i | 0 <= i < |q| && q[i] == tid ensures Without(q, tid) == q[..i] + q[i + 1..] {
      forall j | 0 <= j < |q| && j != i ensures q[j] != tid {
        if q[j] == tid {
          OncePlace(q, if i < j then i else j, if i < j then j else i);
        }
      }
      WithoutAt(q, tid, i);
    }
  }

  lemma {:induction false} InsertedAt(z: seq<Sleeper>, e: Sleeper) returns (i: nat)
    requires ByDeadline(z)
    ensures i <= |z| && Inserted(z, e) == z[..i] + [e] + z[i..] && Separates(z, i, e.until)
  {
    hide Separates;
    var n := |z| - 1;
    if n < 0 || z[n].until <= e.until {
      i := |z|;
      SeparatesEnd(z, e.until);
    } else {
      var front := z[..n];
      i := InsertedAt(front, e);
      assert z == front + [z[n]];
      SeparatesMore(front, i, e.until, z[n]);
      assert front[..i] + [e] + front[i..] + [z[n]] == z[..i] + [e] + z[i..];
    }
  }

  lemma SeparatesEnd(z: seq<Sleeper>, until: int)
    requires ByDeadline(z) && (z == [] || z[|z| - 1].until <= until)
    ensures Separates(z, |z|, until)
  {
  }

  lemma SeparatesMore(z: seq<Sleeper>, i: nat, until: int, last: Sleeper)
    requires i <= |z| && Separates(z, i, until) && last.until > until
    ensures Separates(z + [last], i, until)
  {
  }

  lemma InsertedEnters(z: seq<Sleeper>, e: Sleeper)
    requires ByDeadline(z)
    ensures EntersSleep(z, Inserted(z, e), e)
  {
    hide Inserted;
    var i := InsertedAt(z, e);
  }

  /** A sleeper is nowhere else. */
  lemma OnlyAsleep(c: Sched, i: nat)
    requires Partitioned(c) && i < |c.sleeping|
    ensures c.sleeping[i].tid !in c.blocked && c.sleeping[i].tid !in c.ready
    ensures forall e :: e in Erased(c.sleeping, i) <==> e in c.sleeping && e.tid != c.sleeping[i].tid
  {
    hide Tids;
    var tid, rest := c.sleeping[i].tid, Erased(c.sleeping, i);
    TidsErased(c.sleeping, i);
    NotTwice(multiset(c.ready), multiset(c.blocked), multiset(Tids(c.sleeping)), multiset(Tids(rest)), tid,
             multiset{c.running}, Live(c));
    forall j | 0 <= j < |rest| ensures rest[j].tid != tid && rest[j] in c.sleeping {
      assert Tids(rest)[j] in multiset(Tids(rest));
      assert rest[j] == c.sleeping[if j < i then j else j + 1];
    }
    forall j | 0 <= j < |c.sleeping| && c.sleeping[j].tid != tid ensures c.sleeping[j] in rest {
      assert rest[if j < i then j else j - 1] == c.sleeping[j];
    }
  }

  lemma NotTwice(a: multiset<int>, b: multiset<int>, c: multiset<int>, c': multiset<int>, x: int, y: multiset<int>,
                 live: set<int>)
    requires a + b + c + y == multiset(live) && c' + multiset{x} == c
    ensures x !in a && x !in b && x !in c'
  {
    assert (a + b + c + y)[x] <= 1 && c[x] == c'[x] + 1;
  }

  /** No thread has two entries among the sleepers. */
  lemma AsleepOnce(c: Sched, i: nat, j: nat)
    requires Partitioned(c) && i < |c.sleeping| && j < |c.sleeping| && c.sleeping[i].tid == c.sleeping[j].tid
    ensures i == j
  {
    hide Tids;
    if i != j {
      OncePlace(Tids(c.sleeping), if i < j then i else j, if i < j then j else i);
      NotTwoOf(multiset(c.ready), multiset(c.blocked), multiset(Tids(c.sleeping)), multiset{c.running}, Live(c),
               c.sleeping[i].tid);
    }
  }

  lemma NotTwoOf(a: multiset<int>, b: multiset<int>, c: multiset<int>, y: multiset<int>, live: set<int>, x: int)
    requires a + b + c + y == multiset(live)
    ensures c[x] <= 1
  {
    assert (a + b + c + y)[x] <= 1;
  }

  lemma ErasedLeaves(c: Sched, tid: int)
    requires Partitioned(c) && Asleep(c.sleeping, tid)
    ensures LeavesSleep(c.sleeping, Erased(c.sleeping, FindTid(c.sleeping, tid)), tid)
  {
    hide Tids;
    var k := FindTid(c.sleeping, tid);
    forall i | 0 <= i < |c.sleeping| && c.sleeping[i].tid == tid ensures i == k {
      AsleepOnce(c, i, k);
    }
  }

  /** Whatever a thread waits on, taking it off there takes it off everywhere, and leaves the others in order. */
  lemma DroppedIs(c: Sched, tid: int)
    requires Partitioned(c) && tid in Live(c) && tid != c.running
    ensures var d := Dropped(c, tid);
            && d.blocked == c.blocked - {tid}
            && LeavesQueue(c.ready, d.ready, tid) && LeavesSleep(c.sleeping, d.sleeping, tid)
  {
    hide Partitioned, Tids, Without, Erased, FindTid, LeavesQueue, LeavesSleep;
    QueuedOnce(c, tid);
    WithoutLeaves(c.ready, tid);
    if Asleep(c.sleeping, tid) {
      OnlyAsleep(c, FindTid(c.sleeping, tid));
      WithoutNone(c.ready, tid);
      ErasedLeaves(c, tid);
    } else {
      NoneLeaves(c.sleeping, tid);
      if tid in c.blocked {
        OnlyBlocked(c, tid);
        WithoutNone(c.ready, tid);
      }
    }
  }

  lemma NoneLeaves(z: seq<Sleeper>, tid: int)
    requires !Asleep(z, tid)
    ensures LeavesSleep(z, z, tid)
  {
  }

  lemma QueuedOnce(c: Sched, tid: int)
    requires Partitioned(c)
    ensures multiset(c.ready)[tid] <= 1
  {
    hide Tids, Live;
    assert (Waiting(c) + multiset{c.running})[tid] == multiset(Live(c))[tid];
  }

  lemma RunningIsNotBlocked(s: Sched)
    requires Partitioned(s)
    ensures s.running !in s.blocked
  {
    if s.running in s.blocked {
      OnlyBlocked(s, s.running);
    }
  }

  // ---------- Calls that concern another thread ----------

  /** Terminating another thread takes it from the place where it waits. Everybody else stays in place and in order,
      nobody loses a quantum or a deadline, and the caller goes on running. */
  lemma TerminateSparesOthers(s: Sched, tid: int)
    requires Inv(s) && tid in Live(s) && tid != 0 && tid != s.running
    ensures var s' := After(s, Terminate(tid)).state;
            && s'.running == s.running && s'.total == s.total && s'.tidToTerminate == tid
            && SameEntries(s, s', Live(s) - {tid})
            && s'.blocked == s.blocked - {tid}
            && LeavesQueue(s.ready, s'.ready, tid) && LeavesSleep(s.sleeping, s'.sleeping, tid)
  {
    hide Partitioned, Tids, Orderly, Without, Erased, FindTid, Waiting, LeavesQueue, LeavesSleep;
    CleanKeeps(s);
    CleanSame(s);
    DroppedIs(WithoutTerminated(s), tid);
  }

  /** Blocking another thread moves it from the place where it waits to the blocked ones; blocking a blocked thread
      has no effect. Everybody else stays in place and in order, and the caller goes on running. */
  lemma BlockEnds(s: Sched, tid: int)
    requires Inv(s) && tid in Live(s) && tid != 0 && tid != s.running
    ensures var s' := After(s, Block(tid)).state;
            && s'.running == s.running && s'.total == s.total
            && Live(s') == Live(s) && SameEntries(s, s', Live(s))
            && s'.blocked == s.blocked + {tid}
            && LeavesQueue(s.ready, s'.ready, tid) && LeavesSleep(s.sleeping, s'.sleeping, tid)
            && (tid in s.blocked ==> Unaffected(s, s'))
  {
    hide Partitioned, Tids, Orderly, Without, Erased, FindTid, Waiting, LeavesQueue, LeavesSleep;
    CleanKeeps(s);
    CleanSame(s);
    SameAfterClean(s);
    var c := WithoutTerminated(s);
    DroppedIs(c, tid);
    if tid in c.blocked {
      OnlyBlocked(c, tid);
      NotQueued(c.ready, tid);
      NoneLeaves(c.sleeping, tid);
    }
  }

  lemma NotQueued(q: seq<int>, tid: int)
    requires tid !in q
    ensures LeavesQueue(q, q, tid)
  {
  }

  /** Resuming a thread that is not blocked has no effect. A blocked thread with no deadline joins the queue's end;
      one with a deadline joins the sleepers. Everybody else stays in place, and the caller goes on running. */
  lemma ResumeEffect(s: Sched, tid: int)
    requires Inv(s) && tid in Live(s)
    ensures var s' := After(s, Resume(tid)).state;
            && s'.running == s.running && s'.total == s.total
            && Live(s') == Live(s) && SameEntries(s, s', Live(s))
            && (tid !in s.blocked ==> Unaffected(s, s'))
            && s'.blocked == s.blocked - {tid}
            && (tid in s.blocked ==>
                  var until := s.threads[tid].sleepUntil;
                  && s'.ready == (if until == NONE then s.ready + [tid] else s.ready)
                  && (if until == NONE then s'.sleeping == s.sleeping
                      else EntersSleep(s.sleeping, s'.sleeping, Sleeper(tid, until))))
  {
    hide Partitioned, Tids, Inserted, FindTid, EntersSleep;
    CleanKeeps(s);
    CleanSame(s);
    SameAfterClean(s);
    var c := WithoutTerminated(s);
    if tid in c.blocked {
      OnlyBlocked(c, tid);
      InsertedEnters(c.sleeping, Sleeper(tid, c.threads[tid].sleepUntil));
    }
  }

  /** The other calls' errors. A failed call and a query have no effect. */
  lemma CallsFail(s: Sched, call: Call)
    requires Inv(s)
    ensures After(s, call).result == EXIT_FAIL || call.Quantums? ==> Unaffected(s, After(s, call).state)
    ensures call.Block? ==> (After(s, call).result == EXIT_FAIL <==> call.tid == 0 || call.tid !in Live(s))
    ensures call.Resume? ==> (After(s, call).result == EXIT_FAIL <==> call.tid !in Live(s))
    ensures call.Sleep? ==> (After(s, call).result == EXIT_FAIL <==> s.running == 0 || call.numQuantums <= 0)
    ensures call.Quantums? ==>
              After(s, call).result == if call.tid in Live(s) then s.threads[call.tid].numOfQuantum else EXIT_FAIL
    ensures call.Tick? || call.Block? || call.Resume? || call.Sleep? ==>
              After(s, call).result == EXIT_SUCCESS || After(s, call).result == EXIT_FAIL
  {
    hide Partitioned, Tids, Orderly, LowestFrom, Inserted, FindTid, Without, Erased, Due, Unaffected;
    CleanKeeps(s);
    SameAfterClean(s);
    OthersDispatch(s);
    if call == Tick {
      TickDispatches(s);
    }
    if call.Spawn? {
      SpawnSucceeds(s, call.hasFunction);
    }
  }

  // ---------- Quanta ----------

  /** The call by which the running thread gives up the processor before its quantum is over. */
  predicate GivesUp(s: Sched, call: Call) {
    && s.running != 0
    && (call == Terminate(s.running) || call == Block(s.running) || (call.Sleep? && call.numQuantums > 0))
  }

  predicate StartsQuantum(s: Sched, call: Call) {
    call == Tick || GivesUp(s, call)
  }

  function QuantaOf(threads: map<int, ThreadState>, t: int): int {
    if t in threads then threads[t].numOfQuantum else 0
  }

  /** A quantum was started, or not, and counted for thread t, or not. */
  ghost predicate Accounts(s: Sched, s': Sched, starts: bool, t: int) {
    && s'.total == s.total + (if starts then 1 else 0)
    && QuantaOf(s'.threads, t) == QuantaOf(s.threads, t) + (if starts && t == s'.running then 1 else 0)
    && (starts || s'.running == s.running)
  }

  lemma DispatchAccounts(s: Sched, c: Sched, terminates: bool, t: int)
    requires CanDispatch(c) && c.total == s.total && QuantaOf(c.threads, t) == QuantaOf(s.threads, t)
    ensures Accounts(s, Dispatched(c, terminates), true, t)
  {
  }

  lemma SameAccounts(s: Sched, s': Sched, t: int)
    requires s'.total == s.total && s'.running == s.running && t in s.threads && t in s'.threads
    requires s'.threads[t] == s.threads[t]
    ensures Accounts(s, s', false, t)
  {
  }

  /** A timer tick, and a running thread that gives up the processor, start a new quantum, and no other call does. It
      is counted for the thread then running and for no other. */
  lemma QuantumGoesToRunning(s: Sched, call: Call, t: int)
    requires Inv(s) && t in Live(s)
    ensures Accounts(s, After(s, call).state, StartsQuantum(s, call), t)
  {
    hide Inv, Live, WithoutTerminated, Tids, LowestFrom, Inserted, FindTid, Without, Erased, Due, Dispatched, Accounts;
    var c := WithoutTerminated(s);
    CleanSame(s);
    OthersDispatch(s);
    RunningUnblocked(s);
    match call
    case Tick =>
      TickDispatches(s);
      var w := Woken(c);
      DispatchAccounts(s, w.(ready := w.ready + [w.running]), false, t);
    case Terminate(tid) =>
      if tid == c.running && tid != 0 {
        DispatchAccounts(s, c, true, t);
      } else {
        SameAccounts(s, After(s, call).state, t);
      }
    case Block(tid) =>
      if tid == c.running && tid != 0 {
        DispatchAccounts(s, c.(blocked := c.blocked + {tid}), false, t);
      } else {
        SameAccounts(s, After(s, call).state, t);
      }
    case Sleep(numQuantums) =>
      if c.running != 0 && numQuantums > 0 {
        var until := c.total + numQuantums;
        DispatchAccounts(s, c.(threads := c.threads[c.running := c.threads[c.running].(sleepUntil := until)],
                               sleeping := Inserted(c.sleeping, Sleeper(c.running, until))), false, t);
      } else {
        SameAccounts(s, c, t);
      }
    case _ => SameAccounts(s, After(s, call).state, t);
  }

  lemma RunningUnblocked(s: Sched)
    requires Inv(s)
    ensures s.running !in s.blocked
  {
    RunningIsNotBlocked(s);
  }

  /** A tick: one more quantum, for the thread now running; due sleepers, and only they, go to the queue's end in the
      order of their deadlines, ahead of the thread that was running. Nothing else changes. */
  lemma TickQueue(s: Sched)
    requires Inv(s)
    ensures var s', n := After(s, Tick).state, Due(s.sleeping, s.total);
            && [s'.running] + s'.ready == s.ready + Tids(s.sleeping[..n]) + [s.running]
            && s'.sleeping == s.sleeping[n..] && ByDeadline(s.sleeping)
            && (forall i :: 0 <= i < |s.sleeping| ==> (i < n <==> s.sleeping[i].until <= s.total))
            && s'.total == s.total + 1 && s'.blocked == s.blocked && Live(s') == Live(s)
            && s'.running in Live(s)
            && s'.threads[s'.running] == s.threads[s'.running].(numOfQuantum := s.threads[s'.running].numOfQuantum + 1)
            && SameEntries(s, s', Live(s) - {s'.running})
  {
    hide Partitioned, Tids, Due;
    CleanKeeps(s);
    CleanSame(s);
    TickDispatches(s);
    DueExactly(s.sleeping, s.total);
  }

  /** When the running thread gives up the processor the front of the queue gets it, with one more quantum; the
      others stay in place and in order. */
  lemma FrontRuns(s: Sched, call: Call)
    requires Inv(s) && GivesUp(s, call)
    ensures var s' := After(s, call).state;
            && [s'.running] + s'.ready == s.ready && s'.running in Live(s)
            && s'.threads[s'.running] == s.threads[s'.running].(numOfQuantum := s.threads[s'.running].numOfQuantum + 1)
            && SameEntries(s, s', Live(s) - {s.running, s'.running})
            && Live(s') == (if call.Terminate? then Live(s) - {s.running} else Live(s))
            && s'.blocked == (if call.Block? then s.blocked + {s.running} else s.blocked)
            && (!call.Sleep? ==> s'.sleeping == s.sleeping)
            && (call.Block? ==> s'.threads[s.running] == s.threads[s.running])
            && (call.Sleep? ==>
                  var until := s.total + call.numQuantums;
                  && s'.threads[s.running] == s.threads[s.running].(sleepUntil := until)
                  && EntersSleep(s.sleeping, s'.sleeping, Sleeper(s.running, until)))
  {
    hide Partitioned, Tids, Inserted, EntersSleep, Erased, Without, FindTid;
    CleanKeeps(s);
    CleanSame(s);
    OthersDispatch(s);
    var c := WithoutTerminated(s);
    RunningIsElsewhere(c);
    RunningIsNotBlocked(c);
    if call.Sleep? {
      InsertedEnters(c.sleeping, Sleeper(c.running, c.total + call.numQuantums));
    }
  }
}
