/** The progress word: what it shows at every moment of every run, and that it only moves forward. */
module MapReduceProgress {
  import opened Bags
  import opened MapReduceClient
  import opened Shuffle
  import opened JobState
  import opened MapReduceSteps
  import opened MapReduceInvariant
  import opened MapReducePhases
  import Barrier

  // ---------- Counting pairs ----------

  /** A multiset, listed. */
  lemma {:induction false} Listed(m: multiset<nat>) returns (q: seq<nat>)
    ensures multiset(q) == m
  {
    if m == multiset{} {
      q := [];
    } else {
      var x :| x in m;
      var rest := Listed(m - multiset{x});
      q := rest + [x];
    }
  }

  lemma {:induction false} AllGroups(groups: seq<IntermediateVec>, k: nat)
    requires k <= |groups|
    ensures PairsReduced(groups, Range(k)) == |Bag(groups[..k])|
  {
    if k > 0 {
      var j: nat := k - 1;
      hide PairsReduced, Bag;
      AllGroups(groups, j);
      ReducedAppend(groups, Range(j), j);
      BagAppend(groups[..j], groups[j]);
      assert groups[..k] == groups[..j] + [groups[j]];
    } else {
      assert Range(0) == [] && groups[..0] == [];
    }
  }

  lemma ReducedAppend(groups: seq<IntermediateVec>, calls: seq<nat>, ix: nat)
    ensures PairsReduced(groups, calls + [ix]) == PairsReduced(groups, calls) + GroupSize(groups, ix)
  {
    TotalAppend((ix: nat) => GroupSize(groups, ix), calls, ix);
  }

  lemma BagAppend(vecs: seq<IntermediateVec>, v: IntermediateVec)
    ensures |Bag(vecs + [v])| == |Bag(vecs)| + |v|
  {
    SumAppend((v: IntermediateVec) => multiset(v), vecs, v);
  }

  lemma {:induction false} FewerGroups(groups: seq<IntermediateVec>, k: nat)
    requires k <= |groups|
    ensures PairsReduced(groups, Range(k)) <= PairsReduced(groups, Range(|groups|))
    decreases |groups| - k
  {
    if k < |groups| {
      FewerGroups(groups, k + 1);
      ReducedAppend(groups, Range(k), k);
      assert Range(k + 1) == Range(k) + [k];
    }
  }

  /** The pairs of the groups reduced so far are at most all pairs. */
  lemma PairsBounded(groups: seq<IntermediateVec>, pcs: seq<Pc>, next: nat, calls: seq<nat>)
    requires Claims(pcs, next, |groups|, calls)
    ensures PairsReduced(groups, calls) <= |Bag(groups)|
  {
    var k := Min(next, |groups|);
    var q := Listed(InFlight(pcs));
    assert multiset(calls + q) == multiset(Range(k));
    TotalPermutation((ix: nat) => GroupSize(groups, ix), calls + q, Range(k));
    TotalConcat((ix: nat) => GroupSize(groups, ix), calls, q);
    FewerGroups(groups, k);
    AllGroups(groups, |groups|);
    assert groups[..|groups|] == groups;
  }

  lemma ReduceFits(job: Job, s: State)
    requires ReducePhase(job, s)
    ensures PairsReduced(s.groups, s.reduced) <= |AllPairs(job)|
  {
    PairsBounded(s.groups, s.pcs, s.next, s.reduced);
  }

  lemma SameBag(job: Job, s: State)
    requires MapDone(job, s.vecs, s.mapped) && Shuffled(job.less, s.vecs, s.groups)
    ensures |Bag(s.groups)| == |AllPairs(job)|
  {
  }

  lemma AllReduced(groups: seq<IntermediateVec>, calls: seq<nat>)
    requires multiset(calls) == multiset(Range(|groups|))
    ensures PairsReduced(groups, calls) == |Bag(groups)|
  {
    TotalPermutation((ix: nat) => GroupSize(groups, ix), calls, Range(|groups|));
    AllGroups(groups, |groups|);
    assert groups[..|groups|] == groups;
  }

  // ---------- Every step keeps the word right ----------

  /** The first thread to set the stage. */
  lemma FirstStage(pcs: seq<Pc>, t: nat)
    requires t < |pcs| && forall u :: 0 <= u < |pcs| ==> pcs[u].MapStage?
    ensures Counts(MAP_STAGE, [], pcs[t := MapClaim], WithStage(Pack(UNDEFINED_STAGE, 0), MAP_STAGE), 0)
  {
    WithStagePacked(UNDEFINED_STAGE, 0, MAP_STAGE);
    NothingUncounted([], pcs[t := MapClaim]);
  }

  lemma MapKeepsShowing(job: Job, s: State, t: nat, s': State)
    requires CountsFit(job) && MapPhase(job, s) && MapCounts(s.pcs, s.next, s.word, |s.mapped|)
    requires Step(job, s, t, s') && IsMapPc(s.pcs[t])
    ensures MapCounts(s'.pcs, s'.next, s'.word, |s'.mapped|)
  {
    hide Claims, Collected, Counts, MapOrder, AllPairs, IsSorting, WithStage, WithProcessed;
    ClaimsBounded(s.pcs, s.next, job.inputs, s.mapped);
    match s.pcs[t]
    case MapStage =>
      if Counts(MAP_STAGE, [], s.pcs, s.word, |s.mapped|) {
        CountsRestaged(MAP_STAGE, [], s.pcs, s.word, |s.mapped|);
        CountsMore(MAP_STAGE, [], s.pcs, s.word, |s.mapped|, t, MapClaim, 0);
      } else {
        FirstStage(s.pcs, t);
      }
    case MapCount => CountsReported(MAP_STAGE, [], s.pcs, s.word, |s.mapped|, t, MapClaim);
    case MapRun(_) => CountsMore(MAP_STAGE, [], s.pcs, s.word, |s.mapped|, t, MapCount, 1);
    case MapClaim => CountsMore(MAP_STAGE, [], s.pcs, s.word, |s.mapped|, t, s'.pcs[t], 0);
    case Sort => CountsMore(MAP_STAGE, [], s.pcs, s.word, |s.mapped|, t, ToBarrier(1), 0);
  }

  lemma ShuffleKeepsShowing(job: Job, s: State, s': State)
    requires CountsFit(job) && ShufflePhase(job, s) && ShuffleCounts(job, s, s.pcs[0])
    requires Step(job, s, 0, s') && IsShufflePc(s.pcs[0])
    ensures s'.pcs != [] && ShuffleCounts(job, s', s'.pcs[0])
  {
    hide MapDone, Shuffled, AllPairs, Bag, Pack, NextPhase, WithProcessed;
    if s.pcs[0].ShuffleMove? {
      MoveKeepsShowing(job, s, s');
    } else if s.pcs[0].NextShuffle? {
      NextPhasePacked(MAP_STAGE, job.inputs);
    } else if s.pcs[0].NextReduce? {
      NextPhasePacked(SHUFFLE_STAGE, |AllPairs(job)|);
    }
  }

  lemma MoveKeepsShowing(job: Job, s: State, s': State)
    requires CountsFit(job) && ShufflePhase(job, s) && ShuffleCounts(job, s, s.pcs[0])
    requires Step(job, s, 0, s') && s.pcs[0].ShuffleMove?
    ensures s'.pcs != [] && ShuffleCounts(job, s', s'.pcs[0])
  {
    hide MapDone, Shuffled, AllPairs, Bag, Pack, WithProcessed;
    AllPairsMoved(job, s.vecs, s.mapped);
    if s.moved < |AllPairs(job)| {
      WithProcessedPacked(SHUFFLE_STAGE, s.moved, SHUFFLE_STAGE, 1);
    }
  }

  lemma ReduceKeepsShowing(job: Job, s: State, t: nat, s': State)
    requires CountsFit(job) && Step(job, s, t, s') && IsReducePc(s.pcs[t]) && ReducePhase(job, s)
    requires Counts(REDUCE_STAGE, s.groups, s.pcs, s.word, PairsReduced(s.groups, s.reduced))
    ensures Counts(REDUCE_STAGE, s'.groups, s'.pcs, s'.word, PairsReduced(s'.groups, s'.reduced))
  {
    hide Claims, Written, Counts, MapDone, Shuffled, AllPairs, PairsReduced, WithStage, WithProcessed;
    ReduceFits(job, s);
    assert Reducing(job, s.groups, s.pcs[t]);
    var work := PairsReduced(s.groups, s.reduced);
    match s.pcs[t]
    case ReduceStage =>
      CountsRestaged(REDUCE_STAGE, s.groups, s.pcs, s.word, work);
      CountsMore(REDUCE_STAGE, s.groups, s.pcs, s.word, work, t, ReduceClaim, 0);
    case ReduceRun(ix, emitted) =>
      ReducedAppend(s.groups, s.reduced, ix);
      CountsMore(REDUCE_STAGE, s.groups, s.pcs, s.word, work, t, s'.pcs[t],
                 if s'.pcs[t].ReduceCount? then |s.groups[ix]| else 0);
    case ReduceCount(ix) => CountsReported(REDUCE_STAGE, s.groups, s.pcs, s.word, work, t, ReduceClaim);
    case ReduceClaim => CountsMore(REDUCE_STAGE, s.groups, s.pcs, s.word, work, t, s'.pcs[t], 0);
    case Done =>
  }

  /** Arriving and leaving change the word's meaning only when the barrier opens. */
  lemma BarrierKeepsShowing(job: Job, s: State, t: nat, s': State)
    requires ValidJob(job) && Inv(job, s) && Showing(job, s) && Step(job, s, t, s') && AtBarrier(s.pcs[t])
    ensures Showing(job, s')
  {
    RoundOf(job, s, t);
    var k := s.pcs[t].k;
    if s.pcs[t].InBarrier? {
      LeaveKeepsShowing(job, s, t, s', k);
    } else if s.bar.count + 1 == job.threads {
      OthersWait(job, s, t, k);
      OpensShowing(job, s, t, s', k);
    } else {
      WaitKeepsShowing(job, s, t, s', k);
    }
  }

  lemma LeaveKeepsShowing(job: Job, s: State, t: nat, s': State, k: nat)
    requires Working(job, s) && Showing(job, s) && t < |s.pcs| && s.pcs[t] == InBarrier(k) && 1 <= k <= 2
    requires s.bar.rounds == s'.bar.rounds == k && s' == Goes(s, t, AfterBarrier(k, t)).(bar := s'.bar)
    ensures Showing(job, s')
  {
    hide Working, Counts, PairsReduced, AllPairs, Pack;
    if k == 2 {
      CountsMore(REDUCE_STAGE, s.groups, s.pcs, s.word, PairsReduced(s.groups, s.reduced), t, ReduceStage, 0);
    }
  }

  lemma WaitKeepsShowing(job: Job, s: State, t: nat, s': State, k: nat)
    requires Showing(job, s) && t < |s.pcs| && s.pcs[t] == ToBarrier(k) && 1 <= k <= 2
    requires s.bar.rounds == s'.bar.rounds == k - 1 && s' == Goes(s, t, InBarrier(k)).(bar := s'.bar)
    ensures Showing(job, s')
  {
    hide Counts, AllPairs, Pack;
    if k == 1 {
      CountsMore(MAP_STAGE, [], s.pcs, s.word, |s.mapped|, t, InBarrier(1), 0);
    }
  }

  lemma OpensShowing(job: Job, s: State, t: nat, s': State, k: nat)
    requires Working(job, s) && Showing(job, s) && t < |s.pcs| && s.pcs[t] == ToBarrier(k) && 1 <= k <= 2
    requires forall u :: 0 <= u < |s.pcs| && u != t ==> s.pcs[u] == InBarrier(k)
    requires s.bar.rounds == k - 1 && s'.bar.rounds == k && s' == Goes(s, t, AfterBarrier(k, t)).(bar := s'.bar)
    ensures Showing(job, s')
  {
    hide AllPairs, MapDone, Shuffled, Claims, Collected, Written, Uncounted;
    if k == 1 {
      assert AtBarrier(s.pcs[0]);
      NothingUncounted([], s.pcs);
      ClaimsComplete(s.pcs, s.next, job.inputs, s.mapped);
    } else {
      NothingUncounted(s.groups, s'.pcs);
      assert s.pcs[0] == ToBarrier(2) || s.pcs[0] == InBarrier(2);
    }
  }

  lemma StepKeepsShowing(job: Job, s: State, t: nat, s': State)
    requires ValidJob(job) && CountsFit(job) && Inv(job, s) && Showing(job, s) && Step(job, s, t, s')
    ensures Showing(job, s')
  {
    RoundOf(job, s, t);
    if AtBarrier(s.pcs[t]) {
      BarrierKeepsShowing(job, s, t, s');
    } else {
      StepKeepsThreading(job, s, t, s');
      hide Step, CountsFit, MapPhase, ShufflePhase, ReducePhase, Threading, MapCounts, ShuffleCounts, Counts, AllPairs;
      if IsMapPc(s.pcs[t]) {
        MapKeepsShowing(job, s, t, s');
      } else if IsShufflePc(s.pcs[t]) {
        ShuffleKeepsShowing(job, s, s');
      } else {
        ReduceKeepsShowing(job, s, t, s');
      }
    }
  }

  lemma InitialShowing(job: Job, s: State)
    requires ValidJob(job) && Initial(job, s)
    ensures Showing(job, s)
  {
  }

  lemma {:induction false} RunKeepsShowing(job: Job, schedule: seq<nat>, states: seq<State>, i: nat)
    requires ValidJob(job) && CountsFit(job) && IsRun(job, schedule, states) && i < |states|
    ensures Inv(job, states[i]) && Showing(job, states[i])
  {
    hide Inv, Showing, Step, Initial, ValidJob, CountsFit;
    RunKeepsInv(job, schedule, states, i);
    if i == 0 {
      InitialShowing(job, states[0]);
    } else {
      RunKeepsShowing(job, schedule, states, i - 1);
      StepKeepsShowing(job, states[i - 1], schedule[i - 1], states[i]);
    }
  }

  // ---------- What a reader of the word sees ----------

  /** What is to be processed in a stage. */
  ghost function TotalItems(job: Job, stage: int): nat {
    if stage == UNDEFINED_STAGE then 0 else if stage == MAP_STAGE then job.inputs else |AllPairs(job)|
  }

  ghost predicate Decodes(job: Job, w: Packed, stage: int, processed: int) {
    && w == Pack(stage, processed) && StageOf(w) == stage && ProcessedOf(w) == processed
    && 0 <= stage < 4 && 0 <= processed <= TotalItems(job, stage) < COUNTS
  }

  lemma MapShows(job: Job, s: State) returns (stage: int, processed: int)
    requires MapPhase(job, s) && MapCounts(s.pcs, s.next, s.word, |s.mapped|)
    ensures s.word == Pack(stage, processed) && 0 <= stage <= MAP_STAGE && 0 <= processed <= TotalItems(job, stage)
  {
    hide Claims, Collected, AllPairs, Pack, Uncounted;
    ClaimsBounded(s.pcs, s.next, job.inputs, s.mapped);
    stage := if Counts(MAP_STAGE, [], s.pcs, s.word, |s.mapped|) then MAP_STAGE else UNDEFINED_STAGE;
    processed := if stage == MAP_STAGE then |s.mapped| - Uncounted([], s.pcs) else 0;
  }

  lemma ReduceShows(job: Job, s: State) returns (stage: int, processed: int)
    requires ReducePhase(job, s)
    requires Counts(REDUCE_STAGE, s.groups, s.pcs, s.word, PairsReduced(s.groups, s.reduced))
    ensures s.word == Pack(stage, processed) && 0 <= stage < 4 && 0 <= processed <= TotalItems(job, stage)
  {
    hide Claims, Written, AllPairs, Pack, Uncounted, PairsReduced, MapDone, Shuffled;
    ReduceFits(job, s);
    stage, processed := REDUCE_STAGE, PairsReduced(s.groups, s.reduced) - Uncounted(s.groups, s.pcs);
  }

  /** What the word shows, between steps. */
  lemma Shows(job: Job, s: State) returns (stage: int, processed: int)
    requires ValidJob(job) && CountsFit(job) && Inv(job, s) && Showing(job, s)
    ensures Decodes(job, s.word, stage, processed)
    ensures s.bar.rounds == 0 ==> stage <= MAP_STAGE
  {
    hide Counts, StageOf, ProcessedOf, Pack, AllPairs, Claims, Collected, Written, MapDone, Shuffled, Barrier.Inv;
    if s.bar.rounds == 0 {
      stage, processed := MapShows(job, s);
    } else if s.bar.rounds == 1 {
      stage, processed := ShuffleShows(job, s);
    } else {
      stage, processed := ReduceShows(job, s);
    }
    Unpacks(stage, processed);
  }

  lemma ShuffleShows(job: Job, s: State) returns (stage: int, processed: int)
    requires ValidJob(job) && Threading(job, s) && s.bar.rounds == 1 && ShufflePhase(job, s)
    requires ShuffleCounts(job, s, s.pcs[0])
    ensures s.word == Pack(stage, processed) && 0 <= stage < 4 && 0 <= processed <= TotalItems(job, stage)
  {
    hide MapDone, Shuffled, Barrier.Inv, AllPairs;
    RoundOf(job, s, 0);
    match s.pcs[0]
    case InBarrier(k) =>
      stage, processed := if k == 1 then MAP_STAGE else REDUCE_STAGE, if k == 1 then job.inputs else 0;
    case NextShuffle => stage, processed := MAP_STAGE, job.inputs;
    case ShuffleStart => stage, processed := SHUFFLE_STAGE, 0;
    case ShuffleMove => stage, processed := SHUFFLE_STAGE, s.moved;
    case ShuffleEnd => stage, processed := SHUFFLE_STAGE, |AllPairs(job)|;
    case NextReduce => stage, processed := SHUFFLE_STAGE, |AllPairs(job)|;
    case ToBarrier(k) => stage, processed := REDUCE_STAGE, 0;
  }

  /** The word moves within a stage upwards, or to the next stage when everything has been processed. */
  ghost predicate Advances(job: Job, w: Packed, w': Packed) {
    || (StageOf(w') == StageOf(w) && ProcessedOf(w') >= ProcessedOf(w))
    || (StageOf(w') == StageOf(w) + 1 && ProcessedOf(w) == TotalItems(job, StageOf(w)) && ProcessedOf(w') == 0)
  }

  lemma ProgressStep(job: Job, s: State, t: nat, s': State)
    requires ValidJob(job) && CountsFit(job) && Inv(job, s) && Showing(job, s) && Step(job, s, t, s')
    ensures Advances(job, s.word, s'.word)
  {
    var stage, processed := Shows(job, s);
    StepKeepsInv(job, s, t, s');
    StepKeepsShowing(job, s, t, s');
    var stage', processed' := Shows(job, s');
    RoundOf(job, s, t);
    hide Barrier.Inv, TotalItems, Threading, Step, CountsFit, ShufflePhase, MapPhase, Counts;
    if IsMapPc(s.pcs[t]) {
      MapProgress(job, s, t, s', stage, processed, stage', processed');
    } else if IsShufflePc(s.pcs[t]) {
      ShuffleProgress(job, s, s', stage, processed, stage', processed');
    } else if IsReducePc(s.pcs[t]) {
      ReduceProgress(job, s, t, s', stage, processed, stage', processed');
    } else {
      SameWord(job, s, t, s');
    }
  }

  lemma SameWord(job: Job, s: State, t: nat, s': State)
    requires Step(job, s, t, s') && AtBarrier(s.pcs[t])
    ensures s'.word == s.word
  {
  }

  /** Packed words are equal only if their parts are. */
  lemma SamePack(stage: int, processed: int, stage': int, processed': int)
    requires 0 <= stage < 4 && 0 <= stage' < 4 && Pack(stage, processed) == Pack(stage', processed')
    ensures stage == stage' && processed == processed'
  {
  }

  lemma StageAdvances(stage: int, processed: int, next: int, stage': int, processed': int)
    requires 0 <= stage < 4 && 0 <= processed < COUNTS && 0 <= next < 4 && 0 <= stage' < 4
    requires Pack(stage', processed') == WithStage(Pack(stage, processed), next)
    ensures stage' == next && processed' == if next == stage then processed else 0
  {
    WithStagePacked(stage, processed, next);
  }

  lemma NextAdvances(stage: int, processed: int, stage': int, processed': int)
    requires 0 <= stage < 3 && 0 <= processed < COUNTS && 0 <= stage' < 4
    requires Pack(stage', processed') == NextPhase(Pack(stage, processed))
    ensures stage' == stage + 1 && processed' == 0
  {
    NextPhasePacked(stage, processed);
  }

  lemma MapProgress(job: Job, s: State, t: nat, s': State, stage: int, processed: int, stage': int, processed': int)
    requires Step(job, s, t, s') && IsMapPc(s.pcs[t]) && stage <= MAP_STAGE
    requires Decodes(job, s.word, stage, processed) && Decodes(job, s'.word, stage', processed')
    ensures Advances(job, s.word, s'.word)
  {
    hide AllPairs, IsSorting, Pack, StageOf, ProcessedOf, WithStage, WithProcessed;
    if s.pcs[t].MapStage? {
      StageAdvances(stage, processed, MAP_STAGE, stage', processed');
    } else if s.pcs[t].MapCount? {
      CountAdvances(stage, processed, MAP_STAGE, 1, stage', processed');
    }
  }

  lemma ShuffleProgress(job: Job, s: State, s': State, stage: int, processed: int, stage': int, processed': int)
    requires Step(job, s, 0, s') && IsShufflePc(s.pcs[0]) && ShuffleCounts(job, s, s.pcs[0])
    requires Decodes(job, s.word, stage, processed) && Decodes(job, s'.word, stage', processed')
    ensures Advances(job, s.word, s'.word)
  {
    hide MapDone, Shuffled, AllPairs, Bag, Pack, StageOf, ProcessedOf, NextPhase, WithProcessed;
    if s.pcs[0].NextShuffle? {
      SamePack(stage, processed, MAP_STAGE, job.inputs);
      NextAdvances(stage, processed, stage', processed');
    } else if s.pcs[0].NextReduce? {
      SamePack(stage, processed, SHUFFLE_STAGE, |AllPairs(job)|);
      NextAdvances(stage, processed, stage', processed');
    } else if s.pcs[0].ShuffleMove? && s'.word != s.word {
      CountAdvances(stage, processed, SHUFFLE_STAGE, 1, stage', processed');
    }
  }

  lemma ReduceProgress(job: Job, s: State, t: nat, s': State, stage: int, processed: int, stage': int, processed': int)
    requires ReducePhase(job, s) && CountsFit(job) && Step(job, s, t, s') && IsReducePc(s.pcs[t])
    requires Counts(REDUCE_STAGE, s.groups, s.pcs, s.word, PairsReduced(s.groups, s.reduced))
    requires Decodes(job, s.word, stage, processed) && Decodes(job, s'.word, stage', processed')
    ensures Advances(job, s.word, s'.word)
  {
    hide Claims, Counts, Written, MapDone, Shuffled, AllPairs, PairsReduced;
    hide Pack, StageOf, ProcessedOf, WithStage, WithProcessed;
    if s.pcs[t].ReduceStage? {
      ReduceFits(job, s);
      CountsRestaged(REDUCE_STAGE, s.groups, s.pcs, s.word, PairsReduced(s.groups, s.reduced));
    } else if s.pcs[t].ReduceCount? {
      GroupFits(job, s, s.pcs[t].ix);
      CountAdvances(stage, processed, REDUCE_STAGE, |GroupAt(s, s.pcs[t].ix)|, stage', processed');
    }
  }

  lemma GroupFits(job: Job, s: State, ix: nat)
    requires ReducePhase(job, s)
    ensures |GroupAt(s, ix)| <= |AllPairs(job)|
  {
    if ix < |s.groups| {
      SumContains((v: IntermediateVec) => multiset(v), s.groups, ix);
      assert Bag(s.groups) == multiset(s.groups[ix]) + (Bag(s.groups) - multiset(s.groups[ix]));
    }
  }

  lemma CountAdvances(stage: int, processed: int, counted: int, amount: nat, stage': int, processed': int)
    requires 0 <= stage < 4 && 0 <= processed < COUNTS && amount < COUNTS
    requires 0 <= stage' < 4 && 0 <= processed' < COUNTS
    requires Pack(stage', processed') == WithProcessed(Pack(stage, processed), counted, amount)
    ensures stage' == stage && processed' >= processed
  {
    hide StageOf, ProcessedOf;
    NoWrap(amount * 4);
    NoWrap(Pack(stage, processed) + amount * 4);
  }

  /** Over a whole run the stage never goes back, within a stage the count never does, and the count never exceeds
      the stage's total. */
  lemma {:induction false} ProgressRun(job: Job, schedule: seq<nat>, states: seq<State>, i: nat, j: nat)
    requires ValidJob(job) && CountsFit(job) && IsRun(job, schedule, states) && i <= j < |states|
    ensures StageOf(states[i].word) <= StageOf(states[j].word)
    ensures StageOf(states[i].word) == StageOf(states[j].word) ==>
              ProcessedOf(states[i].word) <= ProcessedOf(states[j].word)
    ensures ProcessedOf(states[j].word) <= TotalItems(job, StageOf(states[j].word))
  {
    hide Inv, Showing, Step, ValidJob, CountsFit, Initial, TotalItems;
    RunKeepsShowing(job, schedule, states, j);
    var _, _ := Shows(job, states[j]);
    if i < j {
      ProgressRun(job, schedule, states, i, j - 1);
      RunKeepsShowing(job, schedule, states, j - 1);
      ProgressStep(job, states[j - 1], schedule[j - 1], states[j]);
    }
  }

  /** In the end the word shows the last stage complete. */
  lemma FinishedProgress(job: Job, schedule: seq<nat>, states: seq<State>, i: nat)
    requires ValidJob(job) && CountsFit(job) && IsRun(job, schedule, states) && i < |states|
    requires |states[i].pcs| == job.threads && forall t :: 0 <= t < job.threads ==> states[i].pcs[t].Done?
    ensures StageOf(states[i].word) == REDUCE_STAGE && ProcessedOf(states[i].word) == |AllPairs(job)|
  {
    hide Working, Showing, Step, Initial, CountsFit, AllPairs;
    RunKeepsShowing(job, schedule, states, i);
    RoundOf(job, states[i], 0);
    FinishedWord(job, states[i]);
  }

  lemma FinishedWord(job: Job, s: State)
    requires CountsFit(job) && s.bar.rounds == 2 && Working(job, s) && Showing(job, s)
    requires s.pcs != [] && forall t :: 0 <= t < |s.pcs| ==> s.pcs[t].Done?
    ensures StageOf(s.word) == REDUCE_STAGE && ProcessedOf(s.word) == |AllPairs(job)|
  {
    hide AllPairs, Claims, MapDone, Shuffled, Written, PairsReduced, Uncounted, StageOf, ProcessedOf, Pack;
    assert s.pcs[0].Done?;
    ClaimsComplete(s.pcs, s.next, |s.groups|, s.reduced);
    NothingUncounted(s.groups, s.pcs);
    AllReduced(s.groups, s.reduced);
    SameBag(job, s);
    Unpacks(REDUCE_STAGE, |AllPairs(job)|);
  }
}
