/** The round-robin scheduler as values: its state, and what each library call makes of it. */
module SchedulerState {

  const MAX_THREAD_NUM: int := 100

  const EXIT_SUCCESS: int := 0

  const EXIT_FAIL: int := -1

  /** tidToTerminate when no thread awaits deletion, and sleepUntil of a thread that has never slept. */
  const NONE: int := -1

  datatype ThreadState = ThreadState(numOfQuantum: int, sleepUntil: int)

  datatype Sleeper = Sleeper(tid: int, until: int)

  datatype Sched = Sched(threads: map<int, ThreadState>, ready: seq<int>, blocked: set<int>, sleeping: seq<Sleeper>,
                         running: int, tidToTerminate: int, total: int)

  /** The state and the result of a call; a call that exits ends the process and does not return. */
  datatype Outcome = Outcome(state: Sched, result: int, exits: bool := false)

  function Initial(): Sched {
    Sched(map[0 := ThreadState(1, NONE)], [], {}, [], 0, NONE, 1)
  }

  // ---------- Containers ----------

  /** std::remove followed by erase. */
  function Without(q: seq<int>, tid: int): seq<int> {
    if q == [] then []
    else Without(q[..|q| - 1], tid) + if q[|q| - 1] == tid then [] else [q[|q| - 1]]
  }

  function Tids(sleeping: seq<Sleeper>): (tids: seq<int>)
    ensures |tids| == |sleeping| && forall i :: 0 <= i < |tids| ==> tids[i] == sleeping[i].tid
  {
    if sleeping == [] then [] else Tids(sleeping[..|sleeping| - 1]) + [sleeping[|sleeping| - 1].tid]
  }

  /** The position of a thread's first entry, or the length if it has none. */
  function FindTid(sleeping: seq<Sleeper>, tid: int): (i: nat)
    ensures i <= |sleeping| && (i < |sleeping| ==> sleeping[i].tid == tid)
    ensures forall j :: 0 <= j < i ==> sleeping[j].tid != tid
  {
    if sleeping == [] || sleeping[0].tid == tid then 0 else 1 + FindTid(sleeping[1..], tid)
  }

  predicate Asleep(sleeping: seq<Sleeper>, tid: int) {
    FindTid(sleeping, tid) < |sleeping|
  }

  /** Without the entry at i. */
  function Erased(sleeping: seq<Sleeper>, i: nat): seq<Sleeper>
    requires i < |sleeping|
  {
    sleeping[..i] + sleeping[i + 1..]
  }

  predicate ByDeadline(sleeping: seq<Sleeper>) {
    forall i, j :: 0 <= i < j < |sleeping| ==> sleeping[i].until <= sleeping[j].until
  }

  /** Inserting into the multiset: after the entries with the same deadline. */
  function Inserted(sleeping: seq<Sleeper>, e: Sleeper): seq<Sleeper> {
    var n := |sleeping| - 1;
    if n < 0 || sleeping[n].until <= e.until then sleeping + [e] else Inserted(sleeping[..n], e) + [sleeping[n]]
  }

  /** lower_bound: how many entries at the front have deadlines up to total. */
  function Due(sleeping: seq<Sleeper>, total: int): (n: nat)
    ensures n <= |sleeping|
    ensures forall i :: 0 <= i < n ==> sleeping[i].until <= total
    ensures n < |sleeping| ==> sleeping[n].until > total
  {
    if sleeping == [] || sleeping[0].until > total then 0 else 1 + Due(sleeping[1..], total)
  }

  function LowestFrom(used: set<int>, k: int): (tid: int)
    requires k <= MAX_THREAD_NUM
    ensures k <= tid <= MAX_THREAD_NUM
    ensures forall t :: k <= t < tid ==> t in used
    ensures tid < MAX_THREAD_NUM ==> tid !in used
    decreases MAX_THREAD_NUM - k
  {
    if k < MAX_THREAD_NUM && k in used then LowestFrom(used, k + 1) else k
  }

  // ---------- The invariant ----------

  function Live(s: Sched): set<int> {
    s.threads.Keys - {s.tidToTerminate}
  }

  /** Everyone not running: ready, blocked or asleep. */
  function Waiting(s: Sched): multiset<int> {
    multiset(s.ready) + multiset(s.blocked) + multiset(Tids(s.sleeping))
  }

  /** Thread ids are in range, the sleepers are in order, main is where it can be dispatched. */
  predicate Orderly(s: Sched) {
    && 0 in s.threads && s.tidToTerminate != 0 && s.total >= 1
    && (forall t :: t in s.threads ==> 0 <= t < MAX_THREAD_NUM && s.threads[t].numOfQuantum >= 0)
    && ByDeadline(s.sleeping)
    && (forall i :: 0 <= i < |s.sleeping| ==>
          s.sleeping[i].tid in s.threads && s.threads[s.sleeping[i].tid].sleepUntil == s.sleeping[i].until)
    && (forall i :: 0 <= i < |s.ready| ==>
          s.ready[i] in s.threads && s.threads[s.ready[i]].sleepUntil <= s.total)
  }

  /** Each live thread is in exactly one place, once; the one awaiting deletion is in none. */
  predicate Partitioned(s: Sched) {
    Waiting(s) + multiset{s.running} == multiset(Live(s))
  }

  predicate Inv(s: Sched) {
    && Orderly(s) && Partitioned(s)
    && (s.tidToTerminate == NONE || s.tidToTerminate in s.threads)
    && s.running in Live(s) && s.threads[s.running].sleepUntil < s.total
    && (s.running == 0 || 0 in s.ready)
  }

  // ---------- What each call does ----------

  function WithoutTerminated(s: Sched): Sched {
    if s.tidToTerminate in s.threads
    then s.(threads := s.threads - {s.tidToTerminate}, tidToTerminate := NONE)
    else s
  }

  predicate CanDispatch(s: Sched) {
    s.ready != [] && s.ready[0] in s.threads
  }

  function OneMoreQuantum(t: ThreadState): ThreadState {
    t.(numOfQuantum := t.numOfQuantum + 1)
  }

  /** _preempt: the front of the ready queue gets the next quantum. */
  function Dispatched(s: Sched, terminates: bool): Sched
    requires CanDispatch(s)
  {
    var next := s.ready[0];
    s.(ready := s.ready[1..], total := s.total + 1, threads := s.threads[next := OneMoreQuantum(s.threads[next])],
       running := next,
       tidToTerminate := if terminates && next != s.running then s.running else s.tidToTerminate)
  }

  function Woken(s: Sched): Sched {
    var n := Due(s.sleeping, s.total);
    s.(ready := s.ready + Tids(s.sleeping[..n]), sleeping := s.sleeping[n..])
  }

  /** Taken from wherever it waits. */
  function Dropped(s: Sched, tid: int): Sched {
    var i := FindTid(s.sleeping, tid);
    if i < |s.sleeping| then s.(sleeping := Erased(s.sleeping, i))
    else if tid in s.blocked then s.(blocked := s.blocked - {tid})
    else s.(ready := Without(s.ready, tid))
  }

  function AfterTick(s: Sched): Sched
    requires Inv(s)
  {
    var w := Woken(WithoutTerminated(s));
    var q := w.(ready := w.ready + [w.running]);
    TickDispatches(s);
    Dispatched(q, false)
  }

  function AfterSpawn(s: Sched, hasFunction: bool): Outcome {
    var c := WithoutTerminated(s);
    var tid := LowestFrom(c.threads.Keys, 1);
    if !hasFunction || |c.threads| == MAX_THREAD_NUM || tid == MAX_THREAD_NUM then Outcome(c, EXIT_FAIL)
    else Outcome(c.(ready := c.ready + [tid], threads := c.threads[tid := ThreadState(0, NONE)]), tid)
  }

  function AfterTerminate(s: Sched, tid: int): Outcome
    requires Inv(s)
  {
    var c := WithoutTerminated(s);
    if tid == 0 then Outcome(c, EXIT_SUCCESS, true)
    else if tid !in c.threads then Outcome(c, EXIT_FAIL)
    else if tid == c.running then
      OthersDispatch(s);
      Outcome(Dispatched(c, true), EXIT_SUCCESS)
    else Outcome(Dropped(c.(tidToTerminate := tid), tid), EXIT_SUCCESS)
  }

  function AfterBlock(s: Sched, tid: int): Outcome
    requires Inv(s)
  {
    var c := WithoutTerminated(s);
    if tid == 0 || tid !in c.threads then Outcome(c, EXIT_FAIL)
    else if tid in c.blocked then Outcome(c, EXIT_SUCCESS)
    else if tid == c.running then
      OthersDispatch(s);
      Outcome(Dispatched(c.(blocked := c.blocked + {tid}), false), EXIT_SUCCESS)
    else
      var d := Dropped(c, tid);
      Outcome(d.(blocked := d.blocked + {tid}), EXIT_SUCCESS)
  }

  function AfterResume(s: Sched, tid: int): Outcome {
    var c := WithoutTerminated(s);
    if tid !in c.threads then Outcome(c, EXIT_FAIL)
    else if tid !in c.blocked then Outcome(c, EXIT_SUCCESS)
    else
      var d, sleepUntil := c.(blocked := c.blocked - {tid}), c.threads[tid].sleepUntil;
      if sleepUntil == NONE then Outcome(d.(ready := d.ready + [tid]), EXIT_SUCCESS)
      else if Asleep(d.sleeping, tid) then Outcome(d, EXIT_SUCCESS)
      else Outcome(d.(sleeping := Inserted(d.sleeping, Sleeper(tid, sleepUntil))), EXIT_SUCCESS)
  }

  function AfterSleep(s: Sched, numQuantums: int): Outcome
    requires Inv(s)
  {
    var c := WithoutTerminated(s);
    if c.running == 0 || numQuantums <= 0 then Outcome(c, EXIT_FAIL)
    else
      var until := c.total + numQuantums;
      OthersDispatch(s);
      Outcome(Dispatched(c.(threads := c.threads[c.running := c.threads[c.running].(sleepUntil := until)],
                            sleeping := Inserted(c.sleeping, Sleeper(c.running, until))), false), EXIT_SUCCESS)
  }

  function AfterQuantums(s: Sched, tid: int): Outcome {
    var c := WithoutTerminated(s);
    Outcome(c, if tid in c.threads then c.threads[tid].numOfQuantum else EXIT_FAIL)
  }

  datatype Call =
    | Tick
    | Spawn(hasFunction: bool)
    | Terminate(tid: int)
    | Block(tid: int)
    | Resume(tid: int)
    | Sleep(numQuantums: int)
    | Quantums(tid: int)

  function After(s: Sched, call: Call): Outcome
    requires Inv(s)
  {
    match call
    case Tick => Outcome(AfterTick(s), EXIT_SUCCESS)
    case Spawn(hasFunction) => AfterSpawn(s, hasFunction)
    case Terminate(tid) => AfterTerminate(s, tid)
    case Block(tid) => AfterBlock(s, tid)
    case Resume(tid) => AfterResume(s, tid)
    case Sleep(numQuantums) => AfterSleep(s, numQuantums)
    case Quantums(tid) => AfterQuantums(s, tid)
  }

  // ---------- The queue is never empty when it is popped ----------

  /** Wherever a thread is listed, it is live. */
  lemma ListedAreLive(s: Sched)
    requires Partitioned(s)
    ensures s.running in Live(s) && s.blocked <= Live(s)
    ensures forall i :: 0 <= i < |s.ready| ==> s.ready[i] in Live(s)
    ensures forall i :: 0 <= i < |s.sleeping| ==> s.sleeping[i].tid in Live(s)
  {
    assert s.running in multiset(Live(s));
    forall t | t in s.blocked ensures t in Live(s) {
      assert t in multiset(s.blocked) && t in multiset(Live(s));
    }
    forall i | 0 <= i < |s.ready| ensures s.ready[i] in Live(s) {
      assert s.ready[i] in multiset(s.ready) && s.ready[i] in multiset(Live(s));
    }
    forall i | 0 <= i < |s.sleeping| ensures s.sleeping[i].tid in Live(s) {
      assert Tids(s.sleeping)[i] in multiset(Tids(s.sleeping)) && Tids(s.sleeping)[i] in multiset(Live(s));
    }
  }

  /** Deleting the thread that awaits it touches no other. */
  lemma CleanKeeps(s: Sched)
    requires Inv(s)
    ensures var c := WithoutTerminated(s);
            Inv(c) && c.tidToTerminate == NONE && Live(c) == c.threads.Keys == Live(s)
  {
    ListedAreLive(s);
    var c := WithoutTerminated(s);
    assert NONE !in s.threads;
    assert Live(c) == Live(s);
    assert Waiting(c) == Waiting(s);
  }

  lemma OthersDispatch(s: Sched)
    requires Inv(s)
    ensures var c := WithoutTerminated(s); c.running != 0 ==> CanDispatch(c)
  {
    CleanKeeps(s);
    hide Partitioned;
  }

  /** Only the table of threads loses an entry. */
  lemma CleanSame(s: Sched)
    requires Inv(s)
    ensures var c := WithoutTerminated(s);
            && c.ready == s.ready && c.blocked == s.blocked && c.sleeping == s.sleeping
            && c.running == s.running && c.running in c.threads && c.total == s.total
            && (forall t :: t in Live(s) ==> t in s.threads && t in c.threads && c.threads[t] == s.threads[t])
  {
  }

  lemma TickDispatches(s: Sched)
    requires Inv(s)
    ensures var w := Woken(WithoutTerminated(s)); CanDispatch(w.(ready := w.ready + [w.running]))
  {
    CleanKeeps(s);
    var c := WithoutTerminated(s);
    var n := Due(c.sleeping, c.total);
    assert c.sleeping != [] ==> c.sleeping[0].tid in c.threads;
    assert c.ready != [] ==> c.ready[0] in c.threads;
    FrontOf(c.ready, Tids(c.sleeping[..n]), c.running);
    assert n > 0 ==> Tids(c.sleeping[..n])[0] == c.sleeping[0].tid;
    hide Inv, Due, Tids, WithoutTerminated;
  }

  lemma FrontOf(a: seq<int>, b: seq<int>, x: int)
    ensures ((a + b) + [x])[0] == if a != [] then a[0] else if b != [] then b[0] else x
  {
  }
}
