/** Two runs in which the code does not do what its header promises. */
module SchedulerWitnesses {
  import opened SchedulerState
  import opened SchedulerInvariant
  import opened SchedulerRuns

  lemma AtStart(calls: seq<Call>)
    requires Legal(calls)
    ensures At(calls, 0) == Initial()
  {
  }

  // ---------- Resume without ready ----------

  /** Thread 1 sleeps for a quantum, wakes up, runs, blocks itself, and is resumed two quanta after its deadline. */
  function SleeperBlocked(): (calls: seq<Call>)
    ensures |calls| == 6 && Legal(calls)
  {
    [Spawn(true), Tick, Sleep(1), Tick, Block(1), Resume(1)]
  }

  function SleeperStates(i: nat): Sched {
    match i
    case 0 => Initial()
    case 1 => Sched(map[0 := ThreadState(1, NONE), 1 := ThreadState(0, NONE)], [1], {}, [], 0, NONE, 1)
    case 2 => Sched(map[0 := ThreadState(1, NONE), 1 := ThreadState(1, NONE)], [0], {}, [], 1, NONE, 2)
    case 3 => Sched(map[0 := ThreadState(2, NONE), 1 := ThreadState(1, 3)], [], {}, [Sleeper(1, 3)], 0, NONE, 3)
    case 4 => Sched(map[0 := ThreadState(2, NONE), 1 := ThreadState(2, 3)], [0], {}, [], 1, NONE, 4)
    case 5 => Sched(map[0 := ThreadState(3, NONE), 1 := ThreadState(2, 3)], [], {1}, [], 0, NONE, 5)
    case _ => Sched(map[0 := ThreadState(3, NONE), 1 := ThreadState(2, 3)], [], {}, [Sleeper(1, 3)], 0, NONE, 5)
  }

  lemma SleeperStep(i: nat, s: Sched, call: Call)
    requires Inv(s) && i < 6 && s == SleeperStates(i) && call == SleeperBlocked()[i]
    ensures After(s, call).state == SleeperStates(i + 1)
  {
    hide Inv, After, SleeperBlocked, SleeperStates;
    if i < 3 {
      SleeperFalls(i, s, call);
    } else {
      SleeperWakes(i, s, call);
    }
  }

  lemma SleeperFalls(i: nat, s: Sched, call: Call)
    requires Inv(s) && i < 3 && s == SleeperStates(i) && call == SleeperBlocked()[i]
    ensures After(s, call).state == SleeperStates(i + 1)
  {
    hide Inv;
    assert WithoutTerminated(s) == s;
  }

  lemma SleeperWakes(i: nat, s: Sched, call: Call)
    requires Inv(s) && 3 <= i < 6 && s == SleeperStates(i) && call == SleeperBlocked()[i]
    ensures After(s, call).state == SleeperStates(i + 1)
  {
    hide Inv;
    assert WithoutTerminated(s) == s;
  }

  lemma {:induction false} SleeperRun(i: nat)
    requires i <= 6
    ensures At(SleeperBlocked(), i) == SleeperStates(i)
  {
    hide SleeperBlocked, After, Inv;
    if i == 0 {
      AtStart(SleeperBlocked());
    } else {
      SleeperRun(i - 1);
      SleeperStep(i - 1, At(SleeperBlocked(), i - 1), SleeperBlocked()[i - 1]);
    }
  }

  /** The documented effect of resume fails: the thread was blocked, its deadline is past, it is resumed and it is
      not ready. */
  lemma ResumeNotReady()
    ensures var before, after := At(SleeperBlocked(), 5), At(SleeperBlocked(), 6);
            && SleeperBlocked()[5] == Resume(1) && 1 in before.blocked
            && 1 in before.threads && before.threads[1].sleepUntil < before.total
            && 1 !in after.ready && 1 != after.running && Sleeper(1, 3) in after.sleeping
  {
    hide At, Inv, SleeperStates, SleeperBlocked;
    SleeperRun(5);
    SleeperRun(6);
    SleeperEnds();
  }

  lemma SleeperEnds()
    ensures SleeperBlocked()[5] == Resume(1)
    ensures var before, after := SleeperStates(5), SleeperStates(6);
            && 1 in before.blocked && 1 in before.threads && before.threads[1].sleepUntil < before.total
            && 1 !in after.ready && 1 != after.running && Sleeper(1, 3) in after.sleeping
  {
  }

  // ---------- Quanta without waking ----------

  /** Two threads are spawned; both go to sleep, thread 1 for one quantum, and no timer tick follows. */
  function Tickless(): (calls: seq<Call>)
    ensures |calls| == 5 && Legal(calls)
  {
    [Spawn(true), Spawn(true), Tick, Sleep(1), Sleep(5)]
  }

  function TicklessStates(i: nat): Sched {
    var unused := ThreadState(0, NONE);
    var once := ThreadState(1, NONE);
    match i
    case 0 => Initial()
    case 1 => Sched(map[0 := once, 1 := unused], [1], {}, [], 0, NONE, 1)
    case 2 => Sched(map[0 := once, 1 := unused, 2 := unused], [1, 2], {}, [], 0, NONE, 1)
    case 3 => Sched(map[0 := once, 1 := once, 2 := unused], [2, 0], {}, [], 1, NONE, 2)
    case 4 => Sched(map[0 := once, 1 := ThreadState(1, 3), 2 := once], [0], {}, [Sleeper(1, 3)], 2, NONE, 3)
    case _ => Sched(map[0 := ThreadState(2, NONE), 1 := ThreadState(1, 3), 2 := ThreadState(1, 8)], [], {},
                    [Sleeper(1, 3), Sleeper(2, 8)], 0, NONE, 4)
  }

  lemma TicklessStep(i: nat, s: Sched, call: Call)
    requires Inv(s) && i < 5 && s == TicklessStates(i) && call == Tickless()[i]
    ensures After(s, call).state == TicklessStates(i + 1)
  {
    hide Inv, After, Tickless, TicklessStates;
    if i < 3 {
      TicklessSpawns(i, s, call);
    } else {
      TicklessSleeps(i, s, call);
    }
  }

  lemma TicklessSpawns(i: nat, s: Sched, call: Call)
    requires Inv(s) && i < 3 && s == TicklessStates(i) && call == Tickless()[i]
    ensures After(s, call).state == TicklessStates(i + 1)
  {
    hide Inv;
    assert WithoutTerminated(s) == s;
  }

  lemma TicklessSleeps(i: nat, s: Sched, call: Call)
    requires Inv(s) && 3 <= i < 5 && s == TicklessStates(i) && call == Tickless()[i]
    ensures After(s, call).state == TicklessStates(i + 1)
  {
    hide Inv;
    assert WithoutTerminated(s) == s;
  }

  lemma {:induction false} TicklessRun(i: nat)
    requires i <= 5
    ensures At(Tickless(), i) == TicklessStates(i)
  {
    hide Tickless, After, Inv;
    if i == 0 {
      AtStart(Tickless());
    } else {
      TicklessRun(i - 1);
      TicklessStep(i - 1, At(Tickless(), i - 1), Tickless()[i - 1]);
    }
  }

  /** The documented end of a sleep fails: thread 1 slept for one quantum in quantum 2, quantum 4 is running, and it
      is neither ready nor running. */
  lemma SleeperNotWoken()
    ensures var before, after := At(Tickless(), 3), At(Tickless(), 5);
            && Tickless()[3] == Sleep(1) && before.running == 1 && before.total == 2
            && after.total == 4 && 1 !in after.ready && after.running != 1 && Sleeper(1, 3) in after.sleeping
  {
    hide At, Inv, TicklessStates, Tickless;
    TicklessRun(3);
    TicklessRun(5);
    TicklessEnds();
  }

  lemma TicklessEnds()
    ensures Tickless()[3] == Sleep(1)
    ensures var before, after := TicklessStates(3), TicklessStates(5);
            && before.running == 1 && before.total == 2
            && after.total == 4 && 1 !in after.ready && after.running != 1 && Sleeper(1, 3) in after.sleeping
  {
  }
}
