/** Every step of every thread keeps the invariant. */
module MapReducePhases {
  import opened Bags
  import opened MapReduceClient
  import opened Shuffle
  import opened JobState
  import opened MapReduceSteps
  import opened MapReduceInvariant
  import Barrier

  // ---------- Every step keeps the threads placed ----------

  lemma MapMoves(job: Job, s: State, t: nat, s': State)
    requires Sized(job, s) && Step(job, s, t, s') && IsMapPc(s.pcs[t])
    ensures Sized(job, s') && s'.bar == s.bar && s'.pcs == s.pcs[t := s'.pcs[t]]
    ensures Placed(s.bar, t, s.pcs[t]) ==> Placed(s.bar, t, s'.pcs[t])
  {
    hide WithStage, WithProcessed, IsSorting;
  }

  lemma ShuffleMoves(job: Job, s: State, t: nat, s': State)
    requires Sized(job, s) && Step(job, s, t, s') && IsShufflePc(s.pcs[t])
    ensures Sized(job, s') && s'.bar == s.bar && s'.pcs == s.pcs[t := s'.pcs[t]]
    ensures Placed(s.bar, t, s.pcs[t]) ==> Placed(s.bar, t, s'.pcs[t])
  {
    hide WithProcessed, NextPhase, Shuffled, Bag;
  }

  lemma ReduceMoves(job: Job, s: State, t: nat, s': State)
    requires Sized(job, s) && Step(job, s, t, s') && IsReducePc(s.pcs[t])
    ensures Sized(job, s') && s'.bar == s.bar && s'.pcs == s.pcs[t := s'.pcs[t]]
    ensures Placed(s.bar, t, s.pcs[t]) ==> Placed(s.bar, t, s'.pcs[t])
  {
    hide WithStage, WithProcessed;
  }

  lemma StepMoves(job: Job, s: State, t: nat, s': State)
    requires Sized(job, s) && Step(job, s, t, s') && !s.pcs[t].ToBarrier? && !s.pcs[t].InBarrier?
    ensures Sized(job, s') && s'.bar == s.bar && s'.pcs == s.pcs[t := s'.pcs[t]]
    ensures Placed(s.bar, t, s.pcs[t]) ==> Placed(s.bar, t, s'.pcs[t])
  {
    hide Placed;
    if IsMapPc(s.pcs[t]) {
      hide Step;
      MapMoves(job, s, t, s');
    } else if IsShufflePc(s.pcs[t]) {
      hide Step;
      ShuffleMoves(job, s, t, s');
    } else {
      hide Step;
      ReduceMoves(job, s, t, s');
    }
  }

  lemma StepKeepsThreading(job: Job, s: State, t: nat, s': State)
    requires Threading(job, s) && Step(job, s, t, s')
    requires !s.pcs[t].ToBarrier? && !s.pcs[t].InBarrier?
    ensures Threading(job, s') && s'.bar == s.bar
  {
    hide Step, Barrier.Inv, Placed;
    StepMoves(job, s, t, s');
  }

  // ---------- The map phase ----------

  lemma MapOrderStep(job: Job, pcs: seq<Pc>, vecs: seq<IntermediateVec>, next: nat,
                     t: nat, pc: Pc, vecs': seq<IntermediateVec>, next': nat)
    requires MapOrder(job, pcs, vecs, next) && t < |pcs| && next' >= next
    requires |vecs'| == |vecs| && forall u :: 0 <= u < |vecs| && u != t ==> vecs'[u] == vecs[u]
    requires pc.Sort? || AtBarrier(pc) ==> next' >= job.inputs
    requires AtBarrier(pc) ==> Sorted(job.less, vecs'[t])
    ensures MapOrder(job, pcs[t := pc], vecs', next')
  {
  }

  lemma MapStageKeeps(job: Job, s: State, t: nat, s': State)
    requires s.bar.rounds == 0 && Working(job, s) && t < |s.pcs| && s.pcs[t].MapStage?
    requires s' == Goes(s, t, MapClaim).(word := WithStage(s.word, MAP_STAGE))
    ensures Working(job, s')
  {
    hide Claims, Collected, WithStage, WithProcessed;
    MapOrderStep(job, s.pcs, s.vecs, s.next, t, MapClaim, s.vecs, s.next);
    ClaimsStay(s.pcs, s.next, job.inputs, s.mapped, t, MapClaim);
  }

  lemma MapClaimKeeps(job: Job, s: State, t: nat, s': State, pc: Pc)
    requires s.bar.rounds == 0 && Working(job, s) && t < |s.pcs| && s.pcs[t].MapClaim?
    requires pc == if s.next < job.inputs then MapRun(s.next) else Sort
    requires s' == Goes(s, t, pc).(next := s.next + 1)
    ensures Working(job, s')
  {
    hide Claims, Collected;
    MapOrderStep(job, s.pcs, s.vecs, s.next, t, pc, s.vecs, s.next + 1);
    ClaimsNext(s.pcs, s.next, job.inputs, s.mapped, t, pc);
  }

  lemma MapRunKeeps(job: Job, s: State, t: nat, s': State, ix: nat)
    requires s.bar.rounds == 0 && Working(job, s) && t < |s.pcs| && s.pcs[t] == MapRun(ix)
    requires s' == Goes(s, t, MapCount).(vecs := s.vecs[t := s.vecs[t] + job.emit(ix)], mapped := s.mapped + [ix])
    ensures Working(job, s')
  {
    hide Claims, Collected;
    MapOrderStep(job, s.pcs, s.vecs, s.next, t, MapCount, s'.vecs, s.next);
    ClaimsServed(s.pcs, s.next, job.inputs, s.mapped, t, MapCount);
    CollectedMore(job, s.vecs, s.mapped, t, ix);
  }

  lemma MapCountKeeps(job: Job, s: State, t: nat, s': State)
    requires s.bar.rounds == 0 && Working(job, s) && t < |s.pcs| && s.pcs[t].MapCount?
    requires s' == Goes(s, t, MapClaim).(word := WithProcessed(s.word, MAP_STAGE, 1))
    ensures Working(job, s')
  {
    hide Claims, Collected, WithStage, WithProcessed;
    MapOrderStep(job, s.pcs, s.vecs, s.next, t, MapClaim, s.vecs, s.next);
    ClaimsStay(s.pcs, s.next, job.inputs, s.mapped, t, MapClaim);
  }

  lemma SortKeeps(job: Job, s: State, t: nat, s': State, v: IntermediateVec)
    requires s.bar.rounds == 0 && Working(job, s) && t < |s.pcs| && s.pcs[t].Sort? && IsSorting(job.less, s.vecs[t], v)
    requires s' == Goes(s, t, ToBarrier(1)).(vecs := s.vecs[t := v])
    ensures Working(job, s')
  {
    hide Claims, Collected;
    MapOrderStep(job, s.pcs, s.vecs, s.next, t, ToBarrier(1), s'.vecs, s.next);
    ClaimsStay(s.pcs, s.next, job.inputs, s.mapped, t, ToBarrier(1));
    CollectedSorted(job, s.vecs, s.mapped, t, v);
  }

  // ---------- The first barrier opens ----------

  lemma FirstBarrierOpens(job: Job, s: State)
    requires MapPhase(job, s) && s.pcs != [] && forall t :: 0 <= t < |s.pcs| ==> AtBarrier(s.pcs[t])
    ensures MapDone(job, s.vecs, s.mapped) && s.moved == 0 && s.reduced == [] && s.output == []
  {
    assert AtBarrier(s.pcs[0]);
    ClaimsComplete(s.pcs, s.next, job.inputs, s.mapped);
    SumPermutation((ix: nat) => multiset(job.emit(ix)), s.mapped, Range(job.inputs));
  }

  // ---------- The second barrier opens ----------

  lemma SecondBarrierOpens(job: Job, s: State, t: nat, s': State)
    requires s.bar.rounds == 1 && Working(job, s) && t < |s.pcs| && s.pcs[t] == ToBarrier(2)
    requires forall u :: 0 <= u < |s.pcs| && u != t ==> s.pcs[u] == InBarrier(2)
    requires s' == Goes(s, t, ReduceStage).(bar := s'.bar) && s'.bar.rounds == 2
    ensures Working(job, s')
  {
    hide Claims, Written, Shuffled, MapDone;
    assert AfterShuffle(job, s);
    NothingClaimed(s'.pcs, |s.groups|);
    NothingWritten(job, s.groups, s'.pcs);
    assert ReduceOrder(job, s.groups, s'.pcs, 0);
  }

  lemma NothingClaimed(pcs: seq<Pc>, n: nat)
    requires forall t :: 0 <= t < |pcs| ==> !Runs(pcs[t])
    ensures Claims(pcs, 0, n, [])
  {
    SumEmpty((pc: Pc) => Share(pc), pcs);
  }

  // ---------- The reduce phase ----------

  lemma ReduceOrderStep(job: Job, groups: seq<IntermediateVec>, pcs: seq<Pc>, next: nat, t: nat, pc: Pc, next': nat)
    requires ReduceOrder(job, groups, pcs, next) && t < |pcs| && next' >= next
    requires Reducing(job, groups, pc) && (pc.Done? ==> next' >= |groups|)
    ensures ReduceOrder(job, groups, pcs[t := pc], next')
  {
  }

  lemma EnterReduceKeeps(job: Job, s: State, t: nat, s': State)
    requires s.bar.rounds == 2 && Working(job, s) && t < |s.pcs| && s.pcs[t].InBarrier?
    requires s' == Goes(s, t, ReduceStage).(bar := s'.bar) && s'.bar.rounds == 2
    ensures Working(job, s')
  {
    hide Claims, Written, MapDone, Shuffled;
    ReduceOrderStep(job, s.groups, s.pcs, s.next, t, ReduceStage, s.next);
    ClaimsStay(s.pcs, s.next, |s.groups|, s.reduced, t, ReduceStage);
    WrittenStays(job, s.groups, s.pcs, s.output, s.reduced, t, ReduceStage);
  }

  lemma ReduceStageKeeps(job: Job, s: State, t: nat, s': State)
    requires s.bar.rounds == 2 && Working(job, s) && t < |s.pcs| && s.pcs[t].ReduceStage?
    requires s' == Goes(s, t, ReduceClaim).(word := WithStage(s.word, REDUCE_STAGE))
    ensures Working(job, s')
  {
    hide Claims, Written, MapDone, Shuffled, WithStage;
    ReduceOrderStep(job, s.groups, s.pcs, s.next, t, ReduceClaim, s.next);
    ClaimsStay(s.pcs, s.next, |s.groups|, s.reduced, t, ReduceClaim);
    WrittenStays(job, s.groups, s.pcs, s.output, s.reduced, t, ReduceClaim);
  }

  lemma ReduceClaimKeeps(job: Job, s: State, t: nat, s': State, pc: Pc)
    requires s.bar.rounds == 2 && Working(job, s) && t < |s.pcs| && s.pcs[t].ReduceClaim?
    requires pc == if s.next < |s.groups| then ReduceRun(s.next, 0) else Done
    requires s' == Goes(s, t, pc).(next := s.next + 1)
    ensures Working(job, s')
  {
    hide Claims, Written, MapDone, Shuffled;
    ReduceOrderStep(job, s.groups, s.pcs, s.next, t, pc, s.next + 1);
    ClaimsNext(s.pcs, s.next, |s.groups|, s.reduced, t, pc);
    WrittenStays(job, s.groups, s.pcs, s.output, s.reduced, t, pc);
  }

  lemma ReduceEmitKeeps(job: Job, s: State, t: nat, s': State, ix: nat, emitted: nat)
    requires s.bar.rounds == 2 && Working(job, s) && t < |s.pcs| && s.pcs[t] == ReduceRun(ix, emitted)
    requires ix < |s.groups| && emitted < |job.reduce(s.groups[ix])|
    requires s' == Goes(s, t, ReduceRun(ix, emitted + 1)).(output := s.output + [job.reduce(s.groups[ix])[emitted]])
    ensures Working(job, s')
  {
    hide Claims, Written, MapDone, Shuffled;
    var pc := ReduceRun(ix, emitted + 1);
    ReduceOrderStep(job, s.groups, s.pcs, s.next, t, pc, s.next);
    ClaimsStay(s.pcs, s.next, |s.groups|, s.reduced, t, pc);
    WrittenMore(job, s.groups, s.pcs, s.output, s.reduced, t, ix, emitted);
  }

  lemma ReduceRunKeeps(job: Job, s: State, t: nat, s': State, ix: nat)
    requires s.bar.rounds == 2 && Working(job, s) && t < |s.pcs| && ix < |s.groups|
    requires s.pcs[t] == ReduceRun(ix, |job.reduce(s.groups[ix])|)
    requires s' == Goes(s, t, ReduceCount(ix)).(reduced := s.reduced + [ix])
    ensures Working(job, s')
  {
    hide Claims, Written, MapDone, Shuffled;
    var pc := ReduceCount(ix);
    ReduceOrderStep(job, s.groups, s.pcs, s.next, t, pc, s.next);
    ClaimsServed(s.pcs, s.next, |s.groups|, s.reduced, t, pc);
    WrittenWhole(job, s.groups, s.pcs, s.output, s.reduced, t, ix);
  }

  lemma ReduceCountKeeps(job: Job, s: State, t: nat, s': State, ix: nat)
    requires s.bar.rounds == 2 && Working(job, s) && t < |s.pcs| && s.pcs[t] == ReduceCount(ix) && ix < |s.groups|
    requires s' == Goes(s, t, ReduceClaim).(word := WithProcessed(s.word, REDUCE_STAGE, |s.groups[ix]|))
    ensures Working(job, s')
  {
    hide Claims, Written, MapDone, Shuffled, WithProcessed;
    ReduceOrderStep(job, s.groups, s.pcs, s.next, t, ReduceClaim, s.next);
    ClaimsStay(s.pcs, s.next, |s.groups|, s.reduced, t, ReduceClaim);
    WrittenStays(job, s.groups, s.pcs, s.output, s.reduced, t, ReduceClaim);
  }

  // ---------- Every step keeps the invariant ----------

  /** How often the barrier has opened, from where a thread is. */
  lemma RoundOf(job: Job, s: State, t: nat)
    requires Threading(job, s) && t < job.threads
    ensures IsMapPc(s.pcs[t]) ==> s.bar.rounds == 0
    ensures IsShufflePc(s.pcs[t]) ==> s.bar.rounds == 1 && t == 0
    ensures IsReducePc(s.pcs[t]) ==> s.bar.rounds == 2
    ensures s.pcs[t].ToBarrier? ==> 1 <= s.pcs[t].k <= 2 && s.bar.rounds == s.pcs[t].k - 1 && Barrier.Outside(s.bar, t)
    ensures s.pcs[t].InBarrier? && t in s.bar.released ==> 1 <= s.pcs[t].k <= 2 && s.bar.rounds == s.pcs[t].k
    ensures s.pcs[t].InBarrier? && t in s.bar.waiting ==> 1 <= s.pcs[t].k <= 2 && s.bar.rounds == s.pcs[t].k - 1
    ensures s.pcs[t].InBarrier? <==> t in s.bar.waiting || t in s.bar.released
  {
    assert Placed(s.bar, t, s.pcs[t]);
  }

  lemma MapStepKeeps(job: Job, s: State, t: nat, s': State)
    requires ValidJob(job) && s.bar.rounds == 0 && Working(job, s) && Step(job, s, t, s') && IsMapPc(s.pcs[t])
    ensures Working(job, s')
  {
    hide Working, WithStage, WithProcessed, StrictWeakOrder;
    match s.pcs[t]
    case MapStage => MapStageKeeps(job, s, t, s');
    case MapClaim => MapClaimKeeps(job, s, t, s', if s.next < job.inputs then MapRun(s.next) else Sort);
    case MapRun(ix) => MapRunKeeps(job, s, t, s', ix);
    case MapCount => MapCountKeeps(job, s, t, s');
    case Sort => SortKeeps(job, s, t, s', s'.vecs[t]);
  }

  lemma ShuffleStepKeeps(job: Job, s: State, s': State)
    requires s.bar.rounds == 1 && Working(job, s) && Step(job, s, 0, s') && IsShufflePc(s.pcs[0])
    ensures Working(job, s')
  {
    hide MapDone, WithProcessed, NextPhase, Shuffled, AllPairs, Bag;
    AllPairsMoved(job, s.vecs, s.mapped);
  }

  lemma AllPairsMoved(job: Job, vecs: seq<IntermediateVec>, mapped: seq<nat>)
    requires MapDone(job, vecs, mapped)
    ensures |Bag(vecs)| == |AllPairs(job)|
  {
  }

  lemma ReduceStepKeeps(job: Job, s: State, t: nat, s': State)
    requires ValidJob(job) && s.bar.rounds == 2 && Working(job, s) && Step(job, s, t, s') && IsReducePc(s.pcs[t])
    ensures Working(job, s')
  {
    hide Claims, Written, MapDone, Shuffled, WithStage, WithProcessed, StrictWeakOrder;
    assert Reducing(job, s.groups, s.pcs[t]);
    match s.pcs[t]
    case ReduceStage => ReduceStageKeeps(job, s, t, s');
    case ReduceClaim => ReduceClaimKeeps(job, s, t, s', if s.next < |s.groups| then ReduceRun(s.next, 0) else Done);
    case ReduceRun(ix, emitted) =>
      if emitted < |job.reduce(s.groups[ix])| {
        ReduceEmitKeeps(job, s, t, s', ix, emitted);
      } else {
        ReduceRunKeeps(job, s, t, s', ix);
      }
    case ReduceCount(ix) => ReduceCountKeeps(job, s, t, s', ix);
  }

  /** Arriving at the k-th barrier. */
  lemma ArriveKeeps(job: Job, s: State, t: nat, s': State)
    requires Inv(job, s) && Step(job, s, t, s') && s.pcs[t].ToBarrier?
    ensures Inv(job, s')
  {
    RoundOf(job, s, t);
    ArriveStep(job, s, t, s', s.pcs[t].k);
    hide Step, Working, Placed;
    Barrier.ArriveKeepsInv(s.bar, job.threads, t);
    if s.bar.count + 1 == job.threads {
      ArriveLast(job, s, t, s', s.pcs[t].k);
    } else {
      ArriveWaits(job, s, t, s', s.pcs[t].k);
    }
  }

  lemma ArriveStep(job: Job, s: State, t: nat, s': State, k: nat)
    requires Sized(job, s) && Barrier.Inv(s.bar, job.threads) && Barrier.Outside(s.bar, t)
    requires Step(job, s, t, s') && s.pcs[t] == ToBarrier(k)
    ensures var pc := if s.bar.count + 1 == job.threads then AfterBarrier(k, t) else InBarrier(k);
            s' == Goes(s, t, pc).(bar := Barrier.AfterArrive(s.bar, job.threads, t))
  {
  }

  lemma ArriveLast(job: Job, s: State, t: nat, s': State, k: nat)
    requires Inv(job, s) && t < job.threads && s.bar.count + 1 == job.threads
    requires 1 <= k <= 2 && s.bar.rounds == k - 1 && Barrier.Outside(s.bar, t) && s.pcs[t] == ToBarrier(k)
    requires s' == Goes(s, t, AfterBarrier(k, t)).(bar := Barrier.AfterArrive(s.bar, job.threads, t))
    requires Barrier.Inv(s'.bar, job.threads)
    ensures Inv(job, s')
  {
    hide Working;
    OthersWait(job, s, t, k);
    OpensThreading(job, s, t, s', k);
    assert s'.bar.rounds == k;
    hide Threading, Barrier.AfterArrive;
    if k == 1 {
      FirstOpens(job, s, t, s');
    } else {
      SecondBarrierOpens(job, s, t, s');
    }
  }

  /** Whoever arrives last finds all others inside the same barrier. */
  lemma OthersWait(job: Job, s: State, t: nat, k: nat)
    requires Threading(job, s) && t < job.threads && s.bar.count + 1 == job.threads
    requires s.bar.rounds == k - 1 && Barrier.Outside(s.bar, t)
    ensures forall u :: 0 <= u < job.threads && u != t ==> s.pcs[u] == InBarrier(k)
  {
    Barrier.LastArrival(s.bar, job.threads, t);
    forall u | 0 <= u < job.threads && u != t ensures s.pcs[u] == InBarrier(k) {
      assert u in s.bar.waiting;
      RoundOf(job, s, u);
    }
  }

  lemma ArriveWaits(job: Job, s: State, t: nat, s': State, k: nat)
    requires Inv(job, s) && t < job.threads && s.bar.count + 1 < job.threads
    requires 1 <= k <= 2 && s.bar.rounds == k - 1 && s.pcs[t] == ToBarrier(k)
    requires s' == Goes(s, t, InBarrier(k)).(bar := Barrier.AfterArrive(s.bar, job.threads, t))
    requires Barrier.Inv(s'.bar, job.threads)
    ensures Inv(job, s')
  {
    hide Working;
    WaitsThreading(job, s, t, s', k);
    hide Threading, Barrier.AfterArrive;
    if k == 1 {
      WaitFirst(job, s, t, s');
    } else {
      WaitSecond(job, s, t, s');
    }
  }

  lemma OpensThreading(job: Job, s: State, t: nat, s': State, k: nat)
    requires Sized(job, s) && Barrier.Inv(s.bar, job.threads) && t < job.threads && s.bar.count + 1 == job.threads
    requires 1 <= k <= 2 && s.bar.rounds == k - 1 && Barrier.Outside(s.bar, t)
    requires forall u :: 0 <= u < job.threads && u != t ==> s.pcs[u] == InBarrier(k)
    requires s' == Goes(s, t, AfterBarrier(k, t)).(bar := Barrier.AfterArrive(s.bar, job.threads, t))
    requires Barrier.Inv(s'.bar, job.threads)
    ensures Threading(job, s')
  {
    hide Barrier.Inv, Barrier.AfterArrive, Placed;
    Barrier.Opens(s.bar, job.threads, t);
    forall u | 0 <= u < job.threads ensures Placed(s'.bar, u, s'.pcs[u]) {
      assert s'.pcs[u] == if u == t then AfterBarrier(k, t) else InBarrier(k);
      PlacedAfterOpening(s'.bar, u, s'.pcs[u], k, t);
    }
  }

  lemma PlacedAfterOpening(bar: Barrier.System, u: nat, pc: Pc, k: nat, t: nat)
    requires u < |bar.arrived| && bar.arrived[u] == k && bar.waiting == {} && (u in bar.released <==> u != t)
    requires 1 <= k <= 2 && pc == if u == t then AfterBarrier(k, t) else InBarrier(k)
    ensures Placed(bar, u, pc)
  {
  }

  lemma WaitsThreading(job: Job, s: State, t: nat, s': State, k: nat)
    requires Threading(job, s) && t < job.threads && s.bar.count + 1 < job.threads && s.pcs[t] == ToBarrier(k)
    requires s' == Goes(s, t, InBarrier(k)).(bar := Barrier.AfterArrive(s.bar, job.threads, t))
    requires Barrier.Inv(s'.bar, job.threads)
    ensures Threading(job, s') && s'.bar.rounds == s.bar.rounds
  {
    forall u | 0 <= u < job.threads ensures Placed(s'.bar, u, s'.pcs[u]) {
      assert Placed(s.bar, u, s.pcs[u]);
    }
  }

  lemma FirstOpens(job: Job, s: State, t: nat, s': State)
    requires s.bar.rounds == 0 && Working(job, s) && t < |s.pcs| && s.pcs[t] == ToBarrier(1)
    requires forall u :: 0 <= u < |s.pcs| && u != t ==> s.pcs[u] == InBarrier(1)
    requires s' == Goes(s, t, AfterBarrier(1, t)).(bar := s'.bar) && s'.bar.rounds == 1
    ensures Working(job, s')
  {
    hide Claims, Collected, MapDone;
    FirstBarrierOpens(job, s);
  }

  lemma WaitFirst(job: Job, s: State, t: nat, s': State)
    requires s.bar.rounds == 0 && Working(job, s) && t < |s.pcs| && s.pcs[t] == ToBarrier(1)
    requires s' == Goes(s, t, InBarrier(1)).(bar := s'.bar) && s'.bar.rounds == 0
    ensures Working(job, s')
  {
    hide Claims, Collected;
    MapOrderStep(job, s.pcs, s.vecs, s.next, t, InBarrier(1), s.vecs, s.next);
    ClaimsStay(s.pcs, s.next, job.inputs, s.mapped, t, InBarrier(1));
  }

  lemma WaitSecond(job: Job, s: State, t: nat, s': State)
    requires s.bar.rounds == 1 && Working(job, s) && t < |s.pcs| && s.pcs[t] == ToBarrier(2)
    requires s' == Goes(s, t, InBarrier(2)).(bar := s'.bar) && s'.bar.rounds == 1
    ensures Working(job, s')
  {
    hide MapDone, Shuffled;
  }

  /** Leaving the k-th barrier after it has opened. */
  lemma LeaveKeeps(job: Job, s: State, t: nat, s': State)
    requires Inv(job, s) && Step(job, s, t, s') && s.pcs[t].InBarrier?
    ensures Inv(job, s')
  {
    RoundOf(job, s, t);
    Barrier.LeaveKeepsInv(s.bar, job.threads, t);
    LeavesThreading(job, s, t, s', s.pcs[t].k);
    if s.pcs[t].k == 1 {
      LeaveFirst(job, s, t, s');
    } else {
      EnterReduceKeeps(job, s, t, s');
    }
  }

  lemma LeavesThreading(job: Job, s: State, t: nat, s': State, k: nat)
    requires Threading(job, s) && t < job.threads && t in s.bar.released && s.pcs[t] == InBarrier(k)
    requires s' == Goes(s, t, AfterBarrier(k, t)).(bar := Barrier.AfterLeave(s.bar, job.threads, t))
    requires Barrier.Inv(s'.bar, job.threads)
    ensures Threading(job, s') && s'.bar.rounds == s.bar.rounds
  {
    forall u | 0 <= u < job.threads ensures Placed(s'.bar, u, s'.pcs[u]) {
      assert Placed(s.bar, u, s.pcs[u]);
    }
  }

  lemma LeaveFirst(job: Job, s: State, t: nat, s': State)
    requires s.bar.rounds == 1 && Working(job, s) && t < |s.pcs| && s.pcs[t] == InBarrier(1)
    requires s' == Goes(s, t, AfterBarrier(1, t)).(bar := s'.bar) && s'.bar.rounds == 1
    ensures Working(job, s')
  {
    hide MapDone, Shuffled;
  }

  lemma StepKeepsInv(job: Job, s: State, t: nat, s': State)
    requires ValidJob(job) && Inv(job, s) && Step(job, s, t, s')
    ensures Inv(job, s')
  {
    RoundOf(job, s, t);
    if s.pcs[t].ToBarrier? {
      ArriveKeeps(job, s, t, s');
    } else if s.pcs[t].InBarrier? {
      LeaveKeeps(job, s, t, s');
    } else {
      StepKeepsThreading(job, s, t, s');
      hide Threading, Working, ValidJob, Placed;
      if IsMapPc(s.pcs[t]) {
        MapStepKeeps(job, s, t, s');
      } else if IsShufflePc(s.pcs[t]) {
        ShuffleStepKeeps(job, s, s');
      } else {
        ReduceStepKeeps(job, s, t, s');
      }
    }
  }

  lemma InitialInv(job: Job, s: State)
    requires ValidJob(job) && Initial(job, s)
    ensures Inv(job, s)
  {
    Barrier.InitialInv(job.threads);
    NothingClaimed(s.pcs, job.inputs);
    SumEmpty((v: IntermediateVec) => multiset(v), s.vecs);
  }

  lemma {:induction false} RunKeepsInv(job: Job, schedule: seq<nat>, states: seq<State>, i: nat)
    requires ValidJob(job) && IsRun(job, schedule, states) && i < |states|
    ensures Inv(job, states[i])
  {
    hide Inv, Step, Initial, ValidJob;
    if i == 0 {
      InitialInv(job, states[0]);
    } else {
      RunKeepsInv(job, schedule, states, i - 1);
      StepKeepsInv(job, states[i - 1], schedule[i - 1], states[i]);
    }
  }
}
