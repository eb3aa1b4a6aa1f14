/** Every call keeps each thread in exactly one place. */
module SchedulerInvariant {
  import Bags
  import opened SchedulerState

  // ---------- Containers ----------

  lemma {:induction false} WithoutBag(q: seq<int>, tid: int)
    ensures multiset(Without(q, tid)) == multiset(q)[tid := 0]
  {
    if q != [] {
      var n := |q| - 1;
      WithoutBag(q[..n], tid);
      assert q == q[..n] + [q[n]];
    }
  }

  lemma WithoutAll(q: seq<int>, tid: int)
    ensures multiset(Without(q, tid)) == multiset(q)[tid := 0]
    ensures forall t :: t in Without(q, tid) <==> t in q && t != tid
  {
    hide Without;
    WithoutBag(q, tid);
    forall t ensures t in Without(q, tid) <==> t in q && t != tid {
      assert t in Without(q, tid) <==> t in multiset(Without(q, tid));
      assert t in q <==> t in multiset(q);
    }
  }

  lemma TidsConcat(a: seq<Sleeper>, b: seq<Sleeper>)
    ensures Tids(a + b) == Tids(a) + Tids(b)
  {
    hide Tids;
  }

  lemma TidsNext(sleeping: seq<Sleeper>, i: nat)
    requires i < |sleeping|
    ensures Tids(sleeping[..i + 1]) == Tids(sleeping[..i]) + [sleeping[i].tid]
  {
    assert sleeping[..i + 1][..i] == sleeping[..i];
  }

  lemma TidsOne(e: Sleeper)
    ensures Tids([e]) == [e.tid]
  {
  }

  lemma TidsAround(a: seq<Sleeper>, x: Sleeper, b: seq<Sleeper>)
    ensures Tids(a + ([x] + b)) == Tids(a) + ([x.tid] + Tids(b))
  {
    hide Tids;
    TidsOne(x);
    TidsConcat([x], b);
    TidsConcat(a, [x] + b);
  }

  lemma Around(a: seq<int>, x: int, b: seq<int>)
    ensures multiset(a + b) + multiset{x} == multiset(a + ([x] + b))
  {
  }

  lemma SplitAt(sleeping: seq<Sleeper>, i: nat) returns (a: seq<Sleeper>, b: seq<Sleeper>)
    requires i < |sleeping|
    ensures sleeping == a + ([sleeping[i]] + b) && Erased(sleeping, i) == a + b
  {
    a, b := sleeping[..i], sleeping[i + 1..];
  }

  lemma TidsErased(sleeping: seq<Sleeper>, i: nat)
    requires i < |sleeping|
    ensures multiset(Tids(Erased(sleeping, i))) + multiset{sleeping[i].tid} == multiset(Tids(sleeping))
  {
    hide Tids, Erased;
    var a, b := SplitAt(sleeping, i);
    TidsAround(a, sleeping[i], b);
    TidsConcat(a, b);
    Around(Tids(a), sleeping[i].tid, Tids(b));
  }

  lemma {:induction false} InsertedBag(sleeping: seq<Sleeper>, e: Sleeper)
    ensures multiset(Inserted(sleeping, e)) == multiset(sleeping) + multiset{e}
  {
    var n := |sleeping| - 1;
    if n >= 0 && sleeping[n].until > e.until {
      InsertedBag(sleeping[..n], e);
      assert sleeping == sleeping[..n] + [sleeping[n]];
    }
  }

  lemma {:induction false} InsertedOrder(sleeping: seq<Sleeper>, e: Sleeper)
    requires ByDeadline(sleeping)
    ensures ByDeadline(Inserted(sleeping, e))
    ensures forall i :: 0 <= i < |Inserted(sleeping, e)| ==> Inserted(sleeping, e)[i] in sleeping + [e]
  {
    var n := |sleeping| - 1;
    if n >= 0 && sleeping[n].until > e.until {
      InsertedOrder(sleeping[..n], e);
    }
  }

  lemma InsertedBefore(sleeping: seq<Sleeper>, i: nat, e: Sleeper)
    requires 0 < i <= |sleeping| && sleeping[i - 1].until > e.until
    ensures Inserted(sleeping[..i], e) + sleeping[i..] == Inserted(sleeping[..i - 1], e) + sleeping[i - 1..]
  {
    var front := sleeping[..i];
    assert front[..i - 1] == sleeping[..i - 1];
    assert Inserted(front, e) == Inserted(sleeping[..i - 1], e) + [sleeping[i - 1]];
    assert [sleeping[i - 1]] + sleeping[i..] == sleeping[i - 1..];
  }

  lemma InsertedHere(sleeping: seq<Sleeper>, i: nat, e: Sleeper)
    requires i <= |sleeping| && (i == 0 || sleeping[i - 1].until <= e.until)
    ensures Inserted(sleeping[..i], e) == sleeping[..i] + [e]
  {
  }

  lemma {:induction false} InsertedTids(sleeping: seq<Sleeper>, e: Sleeper)
    ensures multiset(Tids(Inserted(sleeping, e))) == multiset(Tids(sleeping)) + multiset{e.tid}
  {
    hide Tids;
    var n := |sleeping| - 1;
    if n >= 0 && sleeping[n].until > e.until {
      var front, last := sleeping[..n], [sleeping[n]];
      InsertedTids(front, e);
      TidsConcat(Inserted(front, e), last);
      TidsConcat(front, last);
      assert sleeping == front + last;
      assert Tids(last) == [sleeping[n].tid];
    } else {
      TidsConcat(sleeping, [e]);
      assert Tids([e]) == [e.tid];
    }
  }

  lemma DueExactly(sleeping: seq<Sleeper>, total: int)
    requires ByDeadline(sleeping)
    ensures forall i :: 0 <= i < |sleeping| ==> (i < Due(sleeping, total) <==> sleeping[i].until <= total)
  {
  }

  lemma AddOne(a: set<int>, x: int)
    ensures x !in a ==> multiset(a + {x}) == multiset(a) + multiset{x}
    ensures x in a ==> multiset(a - {x}) + multiset{x} == multiset(a)
  {
  }

  lemma Front(q: seq<int>)
    requires q != []
    ensures multiset(q) == multiset{q[0]} + multiset(q[1..])
  {
    assert q == [q[0]] + q[1..];
  }

  // ---------- Moving one thread ----------

  lemma MovesReady(c: Sched, d: Sched, tid: int)
    requires d.blocked == c.blocked && d.sleeping == c.sleeping
    requires multiset(d.ready) == multiset(c.ready) + multiset{tid}
    ensures Waiting(d) == Waiting(c) + multiset{tid}
  {
    hide Tids;
  }

  lemma MovesBlocked(c: Sched, d: Sched, tid: int)
    requires d.ready == c.ready && d.sleeping == c.sleeping && tid !in c.blocked && d.blocked == c.blocked + {tid}
    ensures Waiting(d) == Waiting(c) + multiset{tid}
  {
    hide Tids;
    assert multiset(d.blocked) == multiset(c.blocked) + multiset{tid};
  }

  lemma MovesAsleep(c: Sched, d: Sched, tid: int)
    requires d.ready == c.ready && d.blocked == c.blocked
    requires multiset(Tids(d.sleeping)) == multiset(Tids(c.sleeping)) + multiset{tid}
    ensures Waiting(d) == Waiting(c) + multiset{tid}
  {
    hide Tids;
  }

  lemma LiveIs(s: Sched)
    requires Orderly(s) && s.tidToTerminate == NONE
    ensures Live(s) == s.threads.Keys
  {
    assert NONE !in s.threads;
  }

  lemma SamePlaces(c: Sched, d: Sched)
    requires Partitioned(c) && Waiting(d) == Waiting(c) && Live(d) == Live(c) && d.running == c.running
    ensures Partitioned(d)
  {
    hide Waiting, Live;
  }

  /** Without tid, live and waiting. */
  lemma OneFewer(c: Sched, d: Sched, tid: int)
    requires Partitioned(c) && Waiting(d) + multiset{tid} == Waiting(c) && d.running == c.running
    requires tid in Live(c) && Live(d) == Live(c) - {tid}
    ensures Partitioned(d)
  {
    hide Waiting, Live;
    AddOne(Live(c), tid);
    assert (Waiting(d) + multiset{d.running}) + multiset{tid} == Waiting(c) + multiset{c.running};
    Bags.Cancel(Waiting(d) + multiset{d.running}, multiset(Live(d)), multiset{tid});
  }

  /** With tid, live and waiting. */
  lemma OneMore(c: Sched, d: Sched, tid: int)
    requires Partitioned(c) && Waiting(d) == Waiting(c) + multiset{tid} && d.running == c.running
    requires tid !in Live(c) && Live(d) == Live(c) + {tid}
    ensures Partitioned(d)
  {
    hide Waiting, Live;
    AddOne(Live(c), tid);
    assert Waiting(d) + multiset{d.running} == (Waiting(c) + multiset{c.running}) + multiset{tid};
  }

  /** Once the running thread waits, everyone does. */
  lemma AllWait(c: Sched, d: Sched)
    requires Partitioned(c) && Waiting(d) == Waiting(c) + multiset{c.running} && Live(c) == d.threads.Keys
    ensures Waiting(d) == multiset(d.threads.Keys)
  {
    hide Waiting, Live;
  }

  // ---------- Dispatching ----------

  lemma DispatchWaiting(s: Sched, terminates: bool)
    requires CanDispatch(s)
    ensures var d := Dispatched(s, terminates); Waiting(s) == Waiting(d) + multiset{d.running}
  {
    hide Tids;
    Front(s.ready);
    var d := Dispatched(s, terminates);
    MovesReady(d, s, d.running);
  }

  lemma DispatchOrderly(s: Sched, terminates: bool)
    requires Orderly(s) && CanDispatch(s) && (terminates ==> s.running != 0)
    ensures Orderly(Dispatched(s, terminates))
  {
  }

  lemma DispatchKeeps(s: Sched)
    requires Orderly(s) && CanDispatch(s) && s.tidToTerminate == NONE && 0 in s.ready
    requires Waiting(s) == multiset(s.threads.Keys)
    ensures Inv(Dispatched(s, false))
  {
    hide Waiting, Live;
    var d := Dispatched(s, false);
    DispatchOrderly(s, false);
    DispatchWaiting(s, false);
    LiveIs(d);
    assert d.threads.Keys == s.threads.Keys;
  }

  lemma RunningIsElsewhere(s: Sched)
    requires Partitioned(s)
    ensures s.running !in s.ready
    ensures forall i :: 0 <= i < |s.sleeping| ==> s.sleeping[i].tid != s.running
  {
    hide Tids;
    NotWaiting(multiset(s.ready), multiset(s.blocked), multiset(Tids(s.sleeping)), s.running, Live(s));
    forall i | 0 <= i < |s.sleeping| ensures s.sleeping[i].tid != s.running {
      assert Tids(s.sleeping)[i] in multiset(Tids(s.sleeping));
    }
  }

  lemma NotWaiting(a: multiset<int>, b: multiset<int>, c: multiset<int>, x: int, live: set<int>)
    requires a + b + c + multiset{x} == multiset(live)
    ensures x !in a && x !in b && x !in c
  {
    assert (a + b + c + multiset{x})[x] <= 1;
  }

  lemma TerminationKeeps(s: Sched)
    requires Inv(s) && s.tidToTerminate == NONE && s.running != 0
    ensures CanDispatch(s) && Inv(Dispatched(s, true))
  {
    hide Waiting;
    RunningIsElsewhere(s);
    DispatchOrderly(s, true);
    DispatchWaiting(s, true);
    LiveIs(s);
    TerminationPartition(s, Dispatched(s, true));
  }

  lemma TerminationPartition(s: Sched, d: Sched)
    requires Partitioned(s) && Waiting(s) == Waiting(d) + multiset{d.running} && s.running in Live(s)
    requires Live(d) == Live(s) - {s.running}
    ensures Partitioned(d)
  {
    hide Waiting, Live;
    AddOne(Live(s), s.running);
    Bags.Cancel(Waiting(s), multiset(Live(d)), multiset{s.running});
  }

  // ---------- Each call ----------

  lemma InitialInv()
    ensures Inv(Initial())
  {
    var s := Initial();
    assert Live(s) == {0};
  }

  lemma WokenWaiting(c: Sched)
    ensures Waiting(Woken(c)) == Waiting(c)
  {
    hide Tids, Due;
    var n := Due(c.sleeping, c.total);
    TidsConcat(c.sleeping[..n], c.sleeping[n..]);
    assert c.sleeping == c.sleeping[..n] + c.sleeping[n..];
  }

  lemma WokenOrderly(c: Sched)
    requires Orderly(c)
    ensures Orderly(Woken(c))
  {
    hide Tids;
    var w, n := Woken(c), Due(c.sleeping, c.total);
    forall i | 0 <= i < |w.ready| ensures w.ready[i] in w.threads && w.threads[w.ready[i]].sleepUntil <= w.total {
      if i >= |c.ready| {
        assert w.ready[i] == c.sleeping[i - |c.ready|].tid;
      }
    }
  }

  lemma RequeuedOrderly(w: Sched)
    requires Orderly(w) && w.running in w.threads && w.threads[w.running].sleepUntil <= w.total
    ensures Orderly(w.(ready := w.ready + [w.running]))
  {
  }

  lemma TickKeeps(s: Sched)
    requires Inv(s)
    ensures Inv(AfterTick(s))
  {
    hide Waiting, Partitioned, Orderly, WithoutTerminated, Live, Due, Tids;
    CleanKeeps(s);
    TickDispatches(s);
    var c := WithoutTerminated(s);
    var w := Woken(c);
    var q := w.(ready := w.ready + [w.running]);
    WokenWaiting(c);
    WokenOrderly(c);
    RequeuedOrderly(w);
    MovesReady(w, q, w.running);
    AllWait(c, q);
    DispatchKeeps(q);
  }

  lemma SpawnKeeps(s: Sched, hasFunction: bool)
    requires Inv(s)
    ensures Inv(AfterSpawn(s, hasFunction).state)
  {
    hide Inv, Live, WithoutTerminated;
    CleanKeeps(s);
    var c := WithoutTerminated(s);
    var tid := LowestFrom(c.threads.Keys, 1);
    if tid < MAX_THREAD_NUM {
      AddThread(c, tid);
    }
  }

  lemma AddThread(c: Sched, tid: int)
    requires Inv(c) && c.tidToTerminate == NONE && 1 <= tid < MAX_THREAD_NUM && tid !in c.threads
    ensures Inv(c.(ready := c.ready + [tid], threads := c.threads[tid := ThreadState(0, NONE)]))
  {
    hide Waiting, Partitioned;
    var d := c.(ready := c.ready + [tid], threads := c.threads[tid := ThreadState(0, NONE)]);
    assert NONE !in c.threads;
    MovesReady(c, d, tid);
    OneMore(c, d, tid);
  }

  /** Removal finds the thread in the one place where it waits. */
  lemma DropKeeps(c: Sched, tid: int)
    requires Inv(c) && c.tidToTerminate == NONE && tid in c.threads && tid != c.running && tid != 0
    ensures var d := Dropped(c, tid);
            && Waiting(d) + multiset{tid} == Waiting(c) && Orderly(d)
            && (0 in c.ready ==> 0 in d.ready) && (tid !in c.blocked ==> d.blocked == c.blocked)
  {
    hide Waiting, Without, Tids, FindTid, Erased;
    LiveIs(c);
    var i, d := FindTid(c.sleeping, tid), Dropped(c, tid);
    if i < |c.sleeping| {
      TidsErased(c.sleeping, i);
      MovesAsleep(d, c, tid);
      ErasedOrderly(c, i);
    } else if tid in c.blocked {
      MovesBlocked(d, c, tid);
    } else {
      OnceReady(c, tid);
      WithoutAll(c.ready, tid);
      assert multiset(d.ready) + multiset{tid} == multiset(c.ready);
      MovesReady(d, c, tid);
      DropOrderly(c, tid);
    }
  }

  lemma ErasedOrderly(c: Sched, i: nat)
    requires Orderly(c) && i < |c.sleeping|
    ensures Orderly(c.(sleeping := Erased(c.sleeping, i)))
  {
  }

  lemma DropOrderly(c: Sched, tid: int)
    requires Orderly(c)
    ensures Orderly(c.(ready := Without(c.ready, tid)))
  {
    hide Without;
    WithoutAll(c.ready, tid);
    var q := Without(c.ready, tid);
    forall i | 0 <= i < |q| ensures q[i] in c.threads && c.threads[q[i]].sleepUntil <= c.total {
      assert q[i] in multiset(q);
      assert q[i] in multiset(c.ready);
    }
  }

  lemma OnceReady(c: Sched, tid: int)
    requires Partitioned(c) && tid in Live(c) && tid != c.running && tid !in c.blocked && !Asleep(c.sleeping, tid)
    ensures multiset(c.ready)[tid] == 1
  {
    hide Tids;
    assert tid !in Tids(c.sleeping);
    assert multiset(Tids(c.sleeping))[tid] == 0;
    assert (Waiting(c) + multiset{c.running})[tid] == 1;
  }

  /** A blocked thread is nowhere else. */
  lemma OnlyBlocked(c: Sched, tid: int)
    requires Partitioned(c) && tid in c.blocked
    ensures tid != c.running && tid !in c.ready && !Asleep(c.sleeping, tid)
  {
    hide Tids;
    NowhereElse(multiset(c.ready), multiset(c.blocked), multiset(Tids(c.sleeping)), tid, c.running, Live(c));
    forall i | 0 <= i < |c.sleeping| ensures c.sleeping[i].tid != tid {
      assert Tids(c.sleeping)[i] in multiset(Tids(c.sleeping));
    }
  }

  lemma NowhereElse(a: multiset<int>, b: multiset<int>, c: multiset<int>, x: int, y: int, live: set<int>)
    requires a + b + c + multiset{y} == multiset(live) && x in b
    ensures x !in a && x !in c && x != y
  {
    assert (a + b + c + multiset{y})[x] <= 1;
  }

  lemma TerminateKeeps(s: Sched, tid: int)
    requires Inv(s)
    ensures Inv(AfterTerminate(s, tid).state)
  {
    hide Inv, Live, WithoutTerminated, Dropped;
    CleanKeeps(s);
    OthersDispatch(s);
    var c := WithoutTerminated(s);
    if tid != 0 && tid in c.threads {
      if tid == c.running {
        TerminationKeeps(c);
      } else {
        DropTerminated(c, tid);
      }
    }
  }

  lemma DropTerminated(c: Sched, tid: int)
    requires Inv(c) && c.tidToTerminate == NONE && tid in c.threads && tid != c.running && tid != 0
    ensures Inv(Dropped(c.(tidToTerminate := tid), tid))
  {
    hide Waiting, Partitioned, FindTid, Erased, Without;
    DropKeeps(c, tid);
    LiveIs(c);
    var d := Dropped(c.(tidToTerminate := tid), tid);
    assert d == Dropped(c, tid).(tidToTerminate := tid);
    SameWaiting(d, Dropped(c, tid));
    OneFewer(c, d, tid);
  }

  lemma SameWaiting(c: Sched, d: Sched)
    requires c.ready == d.ready && c.blocked == d.blocked && c.sleeping == d.sleeping
    ensures Waiting(c) == Waiting(d)
  {
  }

  lemma BlockKeeps(s: Sched, tid: int)
    requires Inv(s)
    ensures Inv(AfterBlock(s, tid).state)
  {
    hide Inv, Live, WithoutTerminated, Dropped;
    CleanKeeps(s);
    OthersDispatch(s);
    var c := WithoutTerminated(s);
    if tid in c.threads && tid != 0 && tid !in c.blocked {
      if tid == c.running {
        BlockRunning(c);
      } else {
        BlockOther(c, tid);
      }
    }
  }

  lemma BlockRunning(c: Sched)
    requires Inv(c) && c.tidToTerminate == NONE && c.running != 0 && c.running !in c.blocked && CanDispatch(c)
    ensures Inv(Dispatched(c.(blocked := c.blocked + {c.running}), false))
  {
    hide Waiting, Partitioned;
    var d := c.(blocked := c.blocked + {c.running});
    LiveIs(c);
    MovesBlocked(c, d, c.running);
    AllWait(c, d);
    DispatchKeeps(d);
  }

  lemma BlockOther(c: Sched, tid: int)
    requires Inv(c) && c.tidToTerminate == NONE && tid in c.threads && tid != c.running && tid != 0
    requires tid !in c.blocked
    ensures var d := Dropped(c, tid); Inv(d.(blocked := d.blocked + {tid}))
  {
    hide Waiting, Partitioned, FindTid, Erased, Without;
    DropKeeps(c, tid);
    var d := Dropped(c, tid);
    var e := d.(blocked := d.blocked + {tid});
    MovesBlocked(d, e, tid);
    SamePlaces(c, e);
  }

  lemma ResumeKeeps(s: Sched, tid: int)
    requires Inv(s)
    ensures Inv(AfterResume(s, tid).state)
  {
    hide Live, WithoutTerminated, Orderly, Partitioned;
    CleanKeeps(s);
    var c := WithoutTerminated(s);
    if tid in c.threads && tid in c.blocked {
      OnlyBlocked(c, tid);
      if c.threads[tid].sleepUntil == NONE {
        ResumeReady(c, tid);
      } else {
        ResumeAsleep(c, tid);
      }
    }
  }

  lemma ResumeReady(c: Sched, tid: int)
    requires Inv(c) && tid in c.blocked && tid in c.threads && c.threads[tid].sleepUntil == NONE
    ensures Inv(c.(blocked := c.blocked - {tid}, ready := c.ready + [tid]))
  {
    hide Waiting, Partitioned;
    var b := c.(blocked := c.blocked - {tid});
    var d := b.(ready := b.ready + [tid]);
    MovesBlocked(b, c, tid);
    MovesReady(b, d, tid);
    SamePlaces(c, d);
  }

  lemma ResumeAsleep(c: Sched, tid: int)
    requires Inv(c) && tid in c.blocked && tid in c.threads
    ensures Inv(c.(blocked := c.blocked - {tid},
                   sleeping := Inserted(c.sleeping, Sleeper(tid, c.threads[tid].sleepUntil))))
  {
    hide Waiting, Partitioned, Inserted;
    var e := Sleeper(tid, c.threads[tid].sleepUntil);
    var b := c.(blocked := c.blocked - {tid});
    var d := b.(sleeping := Inserted(b.sleeping, e));
    MovesBlocked(b, c, tid);
    InsertedTids(c.sleeping, e);
    MovesAsleep(b, d, tid);
    SamePlaces(c, d);
    InsertedOrderly(b, e);
  }

  lemma InsertedOrderly(c: Sched, e: Sleeper)
    requires Orderly(c) && e.tid in c.threads && c.threads[e.tid].sleepUntil == e.until
    ensures Orderly(c.(sleeping := Inserted(c.sleeping, e)))
  {
    hide Inserted;
    InsertedOrder(c.sleeping, e);
  }

  lemma SleepKeeps(s: Sched, numQuantums: int)
    requires Inv(s)
    ensures Inv(AfterSleep(s, numQuantums).state)
  {
    hide WithoutTerminated, Orderly, Partitioned;
    CleanKeeps(s);
    var c := WithoutTerminated(s);
    if c.running != 0 && numQuantums > 0 {
      OthersDispatch(s);
      SleepRunning(c, c.total + numQuantums);
    }
  }

  lemma SleepRunning(c: Sched, until: int)
    requires Inv(c) && c.tidToTerminate == NONE && c.running != 0 && CanDispatch(c)
    ensures Inv(Dispatched(c.(threads := c.threads[c.running := c.threads[c.running].(sleepUntil := until)],
                              sleeping := Inserted(c.sleeping, Sleeper(c.running, until))), false))
  {
    hide Waiting, Partitioned, Inserted;
    var e := Sleeper(c.running, until);
    var b := c.(threads := c.threads[c.running := c.threads[c.running].(sleepUntil := until)]);
    var d := b.(sleeping := Inserted(c.sleeping, e));
    RunningIsElsewhere(c);
    InsertedTids(c.sleeping, e);
    MovesAsleep(c, d, c.running);
    LiveIs(c);
    assert d.threads.Keys == c.threads.Keys;
    AllWait(c, d);
    InsertedOrderly(b, e);
    DispatchKeeps(d);
  }

  lemma CallKeepsInv(s: Sched, call: Call)
    requires Inv(s)
    ensures Inv(After(s, call).state)
  {
    hide Inv;
    CleanKeeps(s);
    match call
    case Tick => TickKeeps(s);
    case Spawn(hasFunction) => SpawnKeeps(s, hasFunction);
    case Terminate(tid) => TerminateKeeps(s, tid);
    case Block(tid) => BlockKeeps(s, tid);
    case Resume(tid) => ResumeKeeps(s, tid);
    case Sleep(numQuantums) => SleepKeeps(s, numQuantums);
    case Quantums(_) =>
  }
}
