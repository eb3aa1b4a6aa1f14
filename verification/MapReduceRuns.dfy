/** What the invariant gives for whole runs: results and termination. */
module MapReduceRuns {
  import opened Bags
  import opened MapReduceClient
  import opened Shuffle
  import opened JobState
  import opened MapReduceSteps
  import opened MapReduceInvariant
  import opened MapReducePhases
  import Barrier

  // ---------- What a finished job has done ----------

  ghost predicate Finished(job: Job, s: State) {
    |s.pcs| == job.threads && forall t :: 0 <= t < job.threads ==> s.pcs[t].Done?
  }

  /** Whatever the interleaving, in the end each input was mapped exactly once and each group reduced exactly once,
      the groups are the shuffle of all emitted pairs, and the output is what the reduces emitted. */
  lemma FinishedJob(job: Job, schedule: seq<nat>, states: seq<State>, i: nat)
    requires ValidJob(job) && IsRun(job, schedule, states) && i < |states| && Finished(job, states[i])
    ensures var s := states[i];
            && multiset(s.mapped) == multiset(Range(job.inputs))
            && multiset(s.reduced) == multiset(Range(|s.groups|))
            && Bag(s.vecs) == AllPairs(job) && Shuffled(job.less, s.vecs, s.groups)
            && multiset(s.output) == Outputs(job, s.groups, Range(|s.groups|))
  {
    RunKeepsInv(job, schedule, states, i);
    var s := states[i];
    RoundOf(job, s, 0);
    FinishedReduce(job, s);
  }

  lemma FinishedReduce(job: Job, s: State)
    requires ReducePhase(job, s) && s.pcs != [] && forall t :: 0 <= t < |s.pcs| ==> s.pcs[t].Done?
    ensures multiset(s.reduced) == multiset(Range(|s.groups|))
    ensures multiset(s.output) == Outputs(job, s.groups, Range(|s.groups|))
  {
    hide MapDone, Shuffled, Written, Claims;
    assert s.pcs[0].Done?;
    ClaimsComplete(s.pcs, s.next, |s.groups|, s.reduced);
    AllWritten(job, s.groups, s.pcs, s.output, s.reduced);
  }

  lemma AllWritten(job: Job, groups: seq<IntermediateVec>, pcs: seq<Pc>, output: seq<Output>, calls: seq<nat>)
    requires Written(job, groups, pcs, output, calls) && multiset(calls) == multiset(Range(|groups|))
    requires forall t :: 0 <= t < |pcs| ==> !pcs[t].ReduceRun?
    ensures multiset(output) == Outputs(job, groups, Range(|groups|))
  {
    SumEmpty((pc: Pc) => OutputShare(job, groups, pc), pcs);
    SumPermutation((ix: nat) => OutputOf(job, groups, ix), calls, Range(|groups|));
  }

  /** groups[g] is all that was emitted with a key equivalent to k, and no other group has such a key. */
  ghost predicate IsClass(job: Job, groups: seq<IntermediateVec>, g: nat, k: Key) {
    && g < |groups|
    && (forall q: Pair :: multiset(groups[g])[q] == if Equivalent(job.less, k, q.0) then AllPairs(job)[q] else 0)
    && forall h, j :: 0 <= h < |groups| && h != g && 0 <= j < |groups[h]| ==> !Equivalent(job.less, k, groups[h][j].0)
  }

  /** Each key class emitted by the client's map is reduced exactly once, with the full multiset of its pairs. */
  lemma EachKeyReducedOnce(job: Job, schedule: seq<nat>, states: seq<State>, i: nat, p: Pair)
    requires ValidJob(job) && IsRun(job, schedule, states) && i < |states| && Finished(job, states[i])
    requires p in AllPairs(job)
    ensures exists g: nat :: IsClass(job, states[i].groups, g, p.0) && multiset(states[i].reduced)[g] == 1
  {
    FinishedJob(job, schedule, states, i);
    var s := states[i];
    hide IsRun, Finished, Outputs, IsClass, AllPairs, Shuffled;
    var g := ClassFound(job, s.vecs, s.groups, p);
    OneOfRange(|s.groups|, g);
  }

  lemma ClassFound(job: Job, vecs: seq<IntermediateVec>, groups: seq<IntermediateVec>, p: Pair) returns (g: nat)
    requires StrictWeakOrder(job.less) && Covers(job.less, vecs, groups) && p in AllPairs(job)
    requires Bag(vecs) == AllPairs(job)
    ensures IsClass(job, groups, g, p.0) && g < |groups|
  {
    ClassHasGroup(job.less, vecs, groups, p);
    g :| 0 <= g < |groups| && p in groups[g];
    var i: nat :| i < |groups[g]| && groups[g][i] == p;
    ClassOf(job, vecs, groups, g, i);
    forall h, j | 0 <= h < |groups| && h != g && 0 <= j < |groups[h]|
      ensures !Equivalent(job.less, p.0, groups[h][j].0)
    {
      GroupsDiffer(job.less, vecs, groups, g, h, i, j);
    }
    hide Covers, Bag;
  }

  lemma ClassOf(job: Job, vecs: seq<IntermediateVec>, groups: seq<IntermediateVec>, g: nat, i: nat)
    requires StrictWeakOrder(job.less) && Covers(job.less, vecs, groups) && g < |groups| && i < |groups[g]|
    ensures forall q :: multiset(groups[g])[q] == if Equivalent(job.less, groups[g][i].0, q.0) then Bag(vecs)[q] else 0
  {
    forall q ensures multiset(groups[g])[q] == if Equivalent(job.less, groups[g][i].0, q.0) then Bag(vecs)[q] else 0 {
      GroupIsWholeClass(job.less, vecs, groups, g, q);
      GroupsDiffer(job.less, vecs, groups, g, g, 0, i);
      assert Equivalent(job.less, groups[g][0].0, groups[g][i].0);
      assert Equivalent(job.less, groups[g][i].0, q.0) <==> Equivalent(job.less, groups[g][0].0, q.0) by {
        assert Equivalent(job.less, groups[g][i].0, groups[g][0].0);
      }
    }
  }

  lemma {:induction false} OneOfRange(n: nat, ix: nat)
    ensures multiset(Range(n))[ix] == if ix < n then 1 else 0
  {
    if n > 0 {
      OneOfRange(n - 1, ix);
    }
  }

  // ---------- The claim counter ----------

  /** The claim counter goes back only when nobody else can claim: all other threads are at a barrier. */
  lemma CounterResetAlone(job: Job, s: State, t: nat, s': State)
    requires Inv(job, s) && Step(job, s, t, s') && s'.next < s.next
    ensures t == 0 && forall u :: 0 < u < job.threads ==> AtBarrier(s.pcs[u])
  {
    assert s.pcs[t].ShuffleStart? || s.pcs[t].ShuffleEnd?;
    forall u | 0 <= u < job.threads ensures t == 0 && (u > 0 ==> AtBarrier(s.pcs[u])) {
      PhasesDisjoint(job, s, t, u);
    }
  }

  // ---------- No deadlock ----------

  /** As long as a thread is not done, some thread can take a step. */
  lemma NoDeadlock(job: Job, s: State)
    requires ValidJob(job) && Inv(job, s) && !Finished(job, s)
    ensures exists t, s' :: Step(job, s, t, s')
  {
    var t := Mover(job, s);
    var s' := CanStep(job, s, t);
  }

  /** Somebody is neither done nor waiting. */
  lemma Mover(job: Job, s: State) returns (t: nat)
    requires ValidJob(job) && Threading(job, s) && !Finished(job, s)
    ensures t < job.threads && !s.pcs[t].Done? && t !in s.bar.waiting
  {
    var u: nat :| u < job.threads && !s.pcs[u].Done?;
    RoundOf(job, s, u);
    Barrier.SomebodyMoves(s.bar, job.threads);
    t :| 0 <= t < job.threads && t !in s.bar.waiting;
    RoundOf(job, s, t);
    if s.pcs[t].Done? {
      t := u;
    }
  }

  lemma CanStep(job: Job, s: State, t: nat) returns (s': State)
    requires ValidJob(job) && Inv(job, s) && t < job.threads && !s.pcs[t].Done? && t !in s.bar.waiting
    ensures Step(job, s, t, s')
  {
    RoundOf(job, s, t);
    assert Sized(job, s);
    hide Threading, Working, Barrier.Inv, Step;
    if IsMapPc(s.pcs[t]) {
      s' := CanMap(job, s, t);
    } else if IsReducePc(s.pcs[t]) {
      s' := CanReduce(job, s, t);
    } else {
      s' := CanShuffle(job, s, t);
    }
  }

  lemma CanMap(job: Job, s: State, t: nat) returns (s': State)
    requires StrictWeakOrder(job.less) && Sized(job, s) && t < job.threads && IsMapPc(s.pcs[t])
    ensures Step(job, s, t, s')
  {
    hide WithStage, WithProcessed, IsSorting;
    match s.pcs[t]
    case MapStage => s' := Goes(s, t, MapClaim).(word := WithStage(s.word, MAP_STAGE));
    case MapClaim => s' := Goes(s, t, if s.next < job.inputs then MapRun(s.next) else Sort).(next := s.next + 1);
    case MapRun(ix) =>
      s' := Goes(s, t, MapCount).(vecs := s.vecs[t := s.vecs[t] + job.emit(ix)], mapped := s.mapped + [ix]);
    case MapCount => s' := Goes(s, t, MapClaim).(word := WithProcessed(s.word, MAP_STAGE, 1));
    case Sort =>
      var v := SortExists(job.less, s.vecs[t]);
      s' := Goes(s, t, ToBarrier(1)).(vecs := s.vecs[t := v]);
  }

  lemma CanShuffle(job: Job, s: State, t: nat) returns (s': State)
    requires StrictWeakOrder(job.less) && Sized(job, s) && t < job.threads
    requires IsShufflePc(s.pcs[t]) || AtBarrier(s.pcs[t])
    requires s.pcs[t].InBarrier? ==> t in s.bar.released
    ensures Step(job, s, t, s')
  {
    hide NextPhase, WithProcessed, Shuffled, Bag, StrictWeakOrder;
    match s.pcs[t]
    case ToBarrier(k) =>
      var bar := Barrier.AfterArrive(s.bar, job.threads, t);
      s' := Goes(s, t, if t in bar.waiting then InBarrier(k) else AfterBarrier(k, t)).(bar := bar);
    case InBarrier(k) => s' := Goes(s, t, AfterBarrier(k, t)).(bar := Barrier.AfterLeave(s.bar, job.threads, t));
    case NextShuffle => s' := Goes(s, t, ShuffleStart).(word := NextPhase(s.word));
    case ShuffleStart => s' := Goes(s, t, ShuffleMove).(next := 0);
    case ShuffleMove =>
      if s.moved < |Bag(s.vecs)| {
        s' := s.(moved := s.moved + 1, word := WithProcessed(s.word, SHUFFLE_STAGE, 1));
      } else {
        var groups := ShuffleExists(job.less, s.vecs);
        s' := Goes(s, t, ShuffleEnd).(groups := groups);
      }
    case ShuffleEnd => s' := Goes(s, t, NextReduce).(next := 0);
    case NextReduce => s' := Goes(s, t, ToBarrier(2)).(word := NextPhase(s.word));
  }

  lemma CanReduce(job: Job, s: State, t: nat) returns (s': State)
    requires Sized(job, s) && t < job.threads && IsReducePc(s.pcs[t]) && !s.pcs[t].Done?
    ensures Step(job, s, t, s')
  {
    hide WithStage, WithProcessed;
    match s.pcs[t]
    case ReduceStage => s' := Goes(s, t, ReduceClaim).(word := WithStage(s.word, REDUCE_STAGE));
    case ReduceClaim =>
      s' := Goes(s, t, if s.next < |s.groups| then ReduceRun(s.next, 0) else Done).(next := s.next + 1);
    case ReduceRun(ix, emitted) =>
      var out := job.reduce(GroupAt(s, ix));
      if emitted < |out| {
        s' := Goes(s, t, ReduceRun(ix, emitted + 1)).(output := s.output + [out[emitted]]);
      } else {
        s' := Goes(s, t, ReduceCount(ix)).(reduced := s.reduced + [ix]);
      }
    case ReduceCount(ix) =>
      s' := Goes(s, t, ReduceClaim).(word := WithProcessed(s.word, REDUCE_STAGE, |GroupAt(s, ix)|));
  }

  // ---------- Termination ----------

  /** How far a thread is from the end of its program, loops counted for one round. */
  function Rank(job: Job, groups: seq<IntermediateVec>, pc: Pc): nat {
    match pc
    case MapRun(_) => 15
    case MapStage => 14
    case MapCount => 14
    case MapClaim => 13
    case Sort => 12
    case ToBarrier(k) => if k == 1 then 11 else 4
    case InBarrier(k) => if k == 1 then 10 else 3
    case NextShuffle => 9
    case ShuffleStart => 8
    case ShuffleMove => 7
    case ShuffleEnd => 6
    case NextReduce => 5
    case ReduceRun(ix, emitted) =>
      var out := job.reduce(if ix < |groups| then groups[ix] else []);
      if emitted < |out| then 3 + |out| - emitted else 3
    case ReduceStage => 2
    case ReduceCount(_) => 2
    case ReduceClaim => 1
    case Done => 0
  }

  ghost function Ranks(job: Job, groups: seq<IntermediateVec>, pcs: seq<Pc>): nat {
    Total((pc: Pc) => Rank(job, groups, pc), pcs)
  }

  predicate BeforeGroups(pc: Pc) {
    pc == InBarrier(1) || pc.NextShuffle? || pc.ShuffleStart? || pc.ShuffleMove?
  }

  function RoundsLeft(s: State): nat {
    if s.bar.rounds < 2 then 2 - s.bar.rounds else 0
  }

  /** What is left to claim, or to move and group, in the current phase. */
  ghost function ItemsLeft(job: Job, s: State): nat {
    match s.bar.rounds
    case 0 => job.inputs - Min(s.next, job.inputs)
    case 1 =>
      |Bag(s.vecs)| - Min(s.moved, |Bag(s.vecs)|) + if s.pcs != [] && BeforeGroups(s.pcs[0]) then 1 else 0
    case _ => |s.groups| - Min(s.next, |s.groups|)
  }

  ghost predicate Closer(job: Job, s: State, s': State) {
    || RoundsLeft(s') < RoundsLeft(s)
    || (RoundsLeft(s') == RoundsLeft(s) && ItemsLeft(job, s') < ItemsLeft(job, s))
    || (RoundsLeft(s') == RoundsLeft(s) && ItemsLeft(job, s') == ItemsLeft(job, s)
        && Ranks(job, s'.groups, s'.pcs) < Ranks(job, s.groups, s.pcs))
  }

  lemma RanksFall(job: Job, s: State, t: nat, s': State)
    requires t < |s.pcs| == |s'.pcs| && s'.groups == s.groups && s'.pcs == s.pcs[t := s'.pcs[t]]
    requires Rank(job, s.groups, s'.pcs[t]) < Rank(job, s.groups, s.pcs[t])
    ensures Ranks(job, s'.groups, s'.pcs) < Ranks(job, s.groups, s.pcs)
  {
    TotalUpdate((pc: Pc) => Rank(job, s.groups, pc), s.pcs, t, s'.pcs[t]);
  }

  /** Every step brings the job closer to its end. */
  lemma StepCloser(job: Job, s: State, t: nat, s': State)
    requires Inv(job, s) && Step(job, s, t, s')
    ensures Closer(job, s, s')
  {
    RoundOf(job, s, t);
    assert Sized(job, s) && s.bar.rounds <= 2;
    hide Inv, Barrier.Inv, Ranks;
    if IsMapPc(s.pcs[t]) {
      MapCloser(job, s, t, s');
    } else if IsShufflePc(s.pcs[t]) {
      ShuffleCloser(job, s, s');
    } else if IsReducePc(s.pcs[t]) {
      ReduceCloser(job, s, t, s');
    } else {
      BarrierCloser(job, s, t, s');
    }
  }

  lemma MapCloser(job: Job, s: State, t: nat, s': State)
    requires Step(job, s, t, s') && IsMapPc(s.pcs[t]) && s.bar.rounds == 0
    ensures Closer(job, s, s')
  {
    hide WithStage, WithProcessed, IsSorting, Ranks;
    if !s.pcs[t].MapClaim? || s.next >= job.inputs {
      RanksFall(job, s, t, s');
    }
  }

  lemma ShuffleCloser(job: Job, s: State, s': State)
    requires Step(job, s, 0, s') && IsShufflePc(s.pcs[0]) && s.bar.rounds == 1
    ensures Closer(job, s, s')
  {
    hide NextPhase, WithProcessed, Shuffled, Bag, Ranks;
    if !s.pcs[0].ShuffleMove? {
      RanksFall(job, s, 0, s');
    }
  }

  lemma ReduceCloser(job: Job, s: State, t: nat, s': State)
    requires Step(job, s, t, s') && IsReducePc(s.pcs[t]) && s.bar.rounds == 2
    ensures Closer(job, s, s')
  {
    hide WithStage, WithProcessed, Ranks;
    if !s.pcs[t].ReduceClaim? || s.next >= |s.groups| {
      RanksFall(job, s, t, s');
    }
  }

  lemma BarrierCloser(job: Job, s: State, t: nat, s': State)
    requires Step(job, s, t, s') && AtBarrier(s.pcs[t]) && 1 <= s.pcs[t].k <= 2
    requires s.pcs[t].ToBarrier? ==> s.bar.rounds == s.pcs[t].k - 1
    requires s.pcs[t].InBarrier? && t in s.bar.released ==> s.bar.rounds == s.pcs[t].k
    ensures Closer(job, s, s')
  {
    hide Bag, Ranks;
    if s'.bar.rounds == s.bar.rounds {
      RanksFall(job, s, t, s');
    }
  }

  /** From every reachable state there is a way to the end. */
  lemma RunsToEnd(job: Job, s: State) returns (schedule: seq<nat>, states: seq<State>)
    requires ValidJob(job) && Inv(job, s)
    ensures |states| == |schedule| + 1 && states[0] == s && Finished(job, states[|schedule|])
    ensures forall i :: 0 <= i < |schedule| ==> Step(job, states[i], schedule[i], states[i + 1])
    decreases RoundsLeft(s), ItemsLeft(job, s), Ranks(job, s.groups, s.pcs)
  {
    hide Inv, Step, Ranks, ItemsLeft, RoundsLeft, Finished;
    if Finished(job, s) {
      schedule, states := [], [s];
    } else {
      NoDeadlock(job, s);
      var t, s' :| Step(job, s, t, s');
      StepKeepsInv(job, s, t, s');
      StepCloser(job, s, t, s');
      var schedule', states' := RunsToEnd(job, s');
      schedule, states := [t] + schedule', [s] + states';
    }
  }

  // ---------- Every schedule ends ----------

  /** There is no endless sequence of steps, whichever threads take them. */
  lemma {:induction false} NoInfiniteRun(job: Job, schedule: nat -> nat, states: nat -> State, k: nat)
    requires ValidJob(job) && Inv(job, states(k))
    requires forall i: nat :: Step(job, states(i), schedule(i), states(i + 1))
    ensures false
    decreases RoundsLeft(states(k)), ItemsLeft(job, states(k)), Ranks(job, states(k).groups, states(k).pcs)
  {
    hide Inv, Step, Ranks, ItemsLeft, RoundsLeft, ValidJob;
    assert Step(job, states(k), schedule(k), states(k + 1));
    StepKeepsInv(job, states(k), schedule(k), states(k + 1));
    StepCloser(job, states(k), schedule(k), states(k + 1));
    NoInfiniteRun(job, schedule, states, k + 1);
  }

  ghost predicate Enabled(job: Job, s: State) {
    exists t, s' :: Step(job, s, t, s')
  }

  /** The scheduler lets some thread step whenever one can; which one, and how, is up to it. */
  ghost predicate KeepsGoing(job: Job, schedule: nat -> nat, states: nat -> State) {
    forall i: nat :: Enabled(job, states(i)) ==> Step(job, states(i), schedule(i), states(i + 1))
  }

  lemma {:induction false} UnfinishedInv(job: Job, schedule: nat -> nat, states: nat -> State, i: nat)
    requires ValidJob(job) && Initial(job, states(0)) && KeepsGoing(job, schedule, states)
    requires forall k: nat :: !Finished(job, states(k))
    ensures Inv(job, states(i)) && Step(job, states(i), schedule(i), states(i + 1))
  {
    hide Inv, Step, ValidJob, Initial, Finished;
    if i == 0 {
      InitialInv(job, states(0));
    } else {
      UnfinishedInv(job, schedule, states, i - 1);
      StepKeepsInv(job, states(i - 1), schedule(i - 1), states(i));
    }
    NoDeadlock(job, states(i));
  }

  /** Whichever steps are taken, the job finishes. */
  lemma EveryRunFinishes(job: Job, schedule: nat -> nat, states: nat -> State)
    requires ValidJob(job) && Initial(job, states(0)) && KeepsGoing(job, schedule, states)
    ensures exists i: nat :: Finished(job, states(i))
  {
    hide Inv, Step, ValidJob, Initial, Finished, KeepsGoing;
    if forall i: nat :: !Finished(job, states(i)) {
      forall i: nat ensures Step(job, states(i), schedule(i), states(i + 1)) {
        UnfinishedInv(job, schedule, states, i);
      }
      UnfinishedInv(job, schedule, states, 0);
      NoInfiniteRun(job, schedule, states, 0);
    }
  }

  /** A run that cannot be continued has finished. */
  lemma MaximalRunFinished(job: Job, schedule: seq<nat>, states: seq<State>)
    requires ValidJob(job) && IsRun(job, schedule, states) && !Enabled(job, states[|schedule|])
    ensures Finished(job, states[|schedule|])
  {
    hide Inv, Step, ValidJob, Initial, Finished;
    RunKeepsInv(job, schedule, states, |schedule|);
    if !Finished(job, states[|schedule|]) {
      NoDeadlock(job, states[|schedule|]);
    }
  }
}
