/** The order of the output: what stands where, for one thread and for many. */
module MapReduceOutput {
  import opened Bags
  import opened MapReduceClient
  import opened Shuffle
  import opened JobState
  import opened MapReduceSteps
  import opened MapReduceInvariant
  import opened MapReducePhases
  import opened MapReduceRuns
  import Barrier

  // ---------- Vectors grow at the end ----------

  /** s' has all that s has, in its place, and possibly more behind it; only the given thread's vector may have been
      rearranged. */
  ghost predicate Extends(s: State, s': State, sorted: int) {
    && s.output <= s'.output && s.mapped <= s'.mapped && s.reduced <= s'.reduced && |s'.vecs| == |s.vecs|
    && forall u :: 0 <= u < |s.vecs| && u != sorted ==> s.vecs[u] <= s'.vecs[u]
  }

  /** A step adds to the output at its end, and to a thread's vector at its end unless it sorts that vector. */
  lemma StepExtends(job: Job, s: State, t: nat, s': State)
    requires Step(job, s, t, s')
    ensures Extends(s, s', if s.pcs[t].Sort? then t else -1)
  {
    if IsMapPc(s.pcs[t]) {
      hide WithStage, WithProcessed, IsSorting;
    } else if IsReducePc(s.pcs[t]) {
      hide WithStage, WithProcessed;
    } else {
      hide WithProcessed, NextPhase, Shuffled, Bag, Barrier.AfterArrive, Barrier.AfterLeave;
    }
  }

  /** What has been put out stays where it is. */
  lemma {:induction false} OutputStays(job: Job, schedule: seq<nat>, states: seq<State>, i: nat, j: nat)
    requires ValidJob(job) && IsRun(job, schedule, states) && i <= j < |states|
    ensures states[i].output <= states[j].output
  {
    hide Step, Initial;
    if i < j {
      OutputStays(job, schedule, states, i, j - 1);
      StepExtends(job, states[j - 1], schedule[j - 1], states[j]);
    }
  }

  // ---------- Many threads: the reduces' outputs interleave ----------

  /** The outputs with tag g, in their order. */
  function Tagged(output: seq<Output>, tags: seq<nat>, g: nat): seq<Output>
    requires |tags| == |output|
  {
    if output == [] then []
    else
      var n := |output| - 1;
      Tagged(output[..n], tags[..n], g) + if tags[n] == g then [output[n]] else []
  }

  lemma TaggedNext(output: seq<Output>, tags: seq<nat>, g: nat, x: Output, h: nat)
    requires |tags| == |output|
    ensures Tagged(output + [x], tags + [h], g) ==
              if h == g then Tagged(output, tags, g) + [x] else Tagged(output, tags, g)
  {
    assert (output + [x])[..|output|] == output && (tags + [h])[..|tags|] == tags;
  }

  predicate RunsReduce(pc: Pc, g: nat) {
    pc.ReduceRun? && pc.ix == g
  }

  /** `part` is what the reduce of group g has emitted so far. */
  ghost predicate IsPart(job: Job, groups: seq<IntermediateVec>, pcs: seq<Pc>, reduced: seq<nat>, g: nat,
                         part: seq<Output>)
    requires g < |groups|
  {
    var out := job.reduce(groups[g]);
    && (g in reduced ==> part == out)
    && (forall t :: 0 <= t < |pcs| && RunsReduce(pcs[t], g) ==>
          pcs[t].emitted <= |out| && part == out[..pcs[t].emitted])
    && (g !in reduced && (forall t :: 0 <= t < |pcs| ==> !RunsReduce(pcs[t], g)) ==> part == [])
  }

  /** tags[k] is the group whose reduce has emitted output[k]; each reduce's outputs stand in the order in which it
      emitted them. */
  ghost predicate Interleaves(job: Job, s: State, tags: seq<nat>) {
    && |tags| == |s.output| && (forall k :: 0 <= k < |tags| ==> tags[k] < |s.groups|)
    && forall g :: 0 <= g < |s.groups| ==> IsPart(job, s.groups, s.pcs, s.reduced, g, Tagged(s.output, tags, g))
  }

  lemma NothingOut(job: Job, s: State)
    requires s.output == [] && s.reduced == [] && forall t :: 0 <= t < |s.pcs| ==> !s.pcs[t].ReduceRun?
    ensures Interleaves(job, s, [])
  {
  }

  /** A claimed item is claimed by one thread and not yet served. */
  lemma ClaimUnique(pcs: seq<Pc>, next: nat, n: nat, calls: seq<nat>, t: nat, u: nat)
    requires Claims(pcs, next, n, calls) && t < |pcs| && u < |pcs| && t != u && Runs(pcs[t])
    ensures pcs[t].ix !in calls && (Runs(pcs[u]) ==> pcs[u].ix != pcs[t].ix)
  {
    var ix, rest := pcs[t].ix, pcs[t := Done];
    SumUpdate((pc: Pc) => Share(pc), pcs, t, Done);
    assert InFlight(rest) + multiset{ix} == InFlight(pcs) + multiset{};
    SumContains((pc: Pc) => Share(pc), rest, u);
    OneOfRange(Min(next, n), ix);
    ClaimedOnce(multiset(calls), InFlight(pcs), InFlight(rest), multiset(Range(Min(next, n))), ix);
    assert rest[u] == pcs[u] && Share(rest[u]) <= InFlight(rest);
    assert ix !in Share(rest[u]);
  }

  lemma ClaimedOnce(calls: multiset<nat>, flying: multiset<nat>, rest: multiset<nat>, range: multiset<nat>, ix: nat)
    requires calls + flying == range && range[ix] <= 1 && rest + multiset{ix} == flying + multiset{}
    ensures ix !in calls && ix !in rest
  {
    assert (rest + multiset{ix})[ix] == (flying + multiset{})[ix];
    assert (calls + flying)[ix] == calls[ix] + flying[ix];
  }

  lemma ServedOnce(pcs: seq<Pc>, next: nat, n: nat, calls: seq<nat>, t: nat)
    requires Claims(pcs, next, n, calls) && t < |pcs| && Runs(pcs[t])
    ensures pcs[t].ix !in calls
  {
    var ix, rest := pcs[t].ix, pcs[t := Done];
    SumUpdate((pc: Pc) => Share(pc), pcs, t, Done);
    assert InFlight(rest) + multiset{ix} == InFlight(pcs) + multiset{};
    OneOfRange(Min(next, n), ix);
    ClaimedOnce(multiset(calls), InFlight(pcs), InFlight(rest), multiset(Range(Min(next, n))), ix);
  }

  /** The next item has not been claimed. */
  lemma NextUnclaimed(pcs: seq<Pc>, next: nat, n: nat, calls: seq<nat>)
    requires Claims(pcs, next, n, calls) && next < n
    ensures next !in calls && forall t :: 0 <= t < |pcs| && Runs(pcs[t]) ==> pcs[t].ix != next
  {
    OneOfRange(Min(next, n), next);
    assert next !in multiset(calls);
    forall t | 0 <= t < |pcs| && Runs(pcs[t]) ensures pcs[t].ix != next {
      SumContains((pc: Pc) => Share(pc), pcs, t);
      assert pcs[t].ix in Share(pcs[t]) && pcs[t].ix in multiset(Range(Min(next, n)));
    }
  }

  /** A step of thread t that has nothing to do with group g. */
  lemma PartOther(job: Job, groups: seq<IntermediateVec>, pcs: seq<Pc>, reduced: seq<nat>, g: nat, part: seq<Output>,
                  t: nat, pc: Pc, reduced': seq<nat>)
    requires g < |groups| && IsPart(job, groups, pcs, reduced, g, part) && t < |pcs|
    requires !RunsReduce(pcs[t], g) && !RunsReduce(pc, g) && (g in reduced' <==> g in reduced)
    ensures IsPart(job, groups, pcs[t := pc], reduced', g, part)
  {
    assert forall u :: 0 <= u < |pcs| ==> (RunsReduce(pcs[t := pc][u], g) <==> RunsReduce(pcs[u], g));
  }

  lemma PartStarts(job: Job, groups: seq<IntermediateVec>, pcs: seq<Pc>, reduced: seq<nat>, g: nat, part: seq<Output>,
                   t: nat)
    requires g < |groups| && IsPart(job, groups, pcs, reduced, g, part) && t < |pcs| && g !in reduced
    requires forall u :: 0 <= u < |pcs| ==> !RunsReduce(pcs[u], g)
    ensures IsPart(job, groups, pcs[t := ReduceRun(g, 0)], reduced, g, part)
  {
    assert RunsReduce(pcs[t := ReduceRun(g, 0)][t], g);
  }

  lemma PartGrows(job: Job, groups: seq<IntermediateVec>, pcs: seq<Pc>, reduced: seq<nat>, g: nat, part: seq<Output>,
                  t: nat, emitted: nat)
    requires g < |groups| && IsPart(job, groups, pcs, reduced, g, part) && t < |pcs| && g !in reduced
    requires pcs[t] == ReduceRun(g, emitted) && emitted < |job.reduce(groups[g])|
    requires forall u :: 0 <= u < |pcs| && u != t ==> !RunsReduce(pcs[u], g)
    ensures IsPart(job, groups, pcs[t := ReduceRun(g, emitted + 1)], reduced, g,
                   part + [job.reduce(groups[g])[emitted]])
  {
    var out := job.reduce(groups[g]);
    assert RunsReduce(pcs[t], g);
    assert out[..emitted + 1] == out[..emitted] + [out[emitted]];
    assert RunsReduce(pcs[t := ReduceRun(g, emitted + 1)][t], g);
  }

  lemma PartEnds(job: Job, groups: seq<IntermediateVec>, pcs: seq<Pc>, reduced: seq<nat>, g: nat, part: seq<Output>,
                 t: nat)
    requires g < |groups| && IsPart(job, groups, pcs, reduced, g, part) && t < |pcs|
    requires pcs[t] == ReduceRun(g, |job.reduce(groups[g])|)
    requires forall u :: 0 <= u < |pcs| && u != t ==> !RunsReduce(pcs[u], g)
    ensures IsPart(job, groups, pcs[t := ReduceCount(g)], reduced + [g], g, part)
  {
    var out := job.reduce(groups[g]);
    assert RunsReduce(pcs[t], g);
    assert out[..|out|] == out;
  }

  /** Steps that neither claim a reduce nor emit nor finish one. */
  lemma PartsStay(job: Job, s: State, t: nat, s': State, tags: seq<nat>)
    requires Interleaves(job, s, tags) && t < |s.pcs| && |s'.pcs| == |s.pcs| && s'.pcs == s.pcs[t := s'.pcs[t]]
    requires s'.output == s.output && s'.groups == s.groups && s'.reduced == s.reduced
    requires !s.pcs[t].ReduceRun? && !s'.pcs[t].ReduceRun?
    ensures Interleaves(job, s', tags)
  {
    hide Tagged, IsPart;
    forall g | 0 <= g < |s.groups|
      ensures IsPart(job, s'.groups, s'.pcs, s'.reduced, g, Tagged(s'.output, tags, g))
    {
      PartOther(job, s.groups, s.pcs, s.reduced, g, Tagged(s.output, tags, g), t, s'.pcs[t], s.reduced);
    }
  }

  lemma PartClaimed(job: Job, s: State, t: nat, s': State, tags: seq<nat>)
    requires Interleaves(job, s, tags) && t < |s.pcs| && !s.pcs[t].ReduceRun? && s.next < |s.groups|
    requires Claims(s.pcs, s.next, |s.groups|, s.reduced)
    requires s' == Goes(s, t, ReduceRun(s.next, 0)).(next := s.next + 1)
    ensures Interleaves(job, s', tags)
  {
    hide Tagged, Claims, IsPart;
    NextUnclaimed(s.pcs, s.next, |s.groups|, s.reduced);
    forall g | 0 <= g < |s.groups|
      ensures IsPart(job, s'.groups, s'.pcs, s'.reduced, g, Tagged(s'.output, tags, g))
    {
      if g == s.next {
        PartStarts(job, s.groups, s.pcs, s.reduced, g, Tagged(s.output, tags, g), t);
      } else {
        PartOther(job, s.groups, s.pcs, s.reduced, g, Tagged(s.output, tags, g), t, ReduceRun(s.next, 0), s.reduced);
      }
    }
  }

  lemma OnlyRunner(pcs: seq<Pc>, next: nat, n: nat, calls: seq<nat>, t: nat, ix: nat)
    requires Claims(pcs, next, n, calls) && t < |pcs| && RunsReduce(pcs[t], ix)
    ensures ix !in calls && forall u :: 0 <= u < |pcs| && u != t ==> !RunsReduce(pcs[u], ix)
  {
    hide Claims;
    ServedOnce(pcs, next, n, calls, t);
    forall u | 0 <= u < |pcs| && u != t ensures !RunsReduce(pcs[u], ix) {
      ClaimUnique(pcs, next, n, calls, t, u);
    }
  }

  lemma PartEmitted(job: Job, s: State, t: nat, s': State, tags: seq<nat>, ix: nat, emitted: nat)
    requires Interleaves(job, s, tags) && t < |s.pcs| && s.pcs[t] == ReduceRun(ix, emitted)
    requires ix < |s.groups| && emitted < |job.reduce(s.groups[ix])|
    requires Claims(s.pcs, s.next, |s.groups|, s.reduced)
    requires s' == Goes(s, t, ReduceRun(ix, emitted + 1)).(output := s.output + [job.reduce(s.groups[ix])[emitted]])
    ensures Interleaves(job, s', tags + [ix])
  {
    hide Tagged, Claims, IsPart;
    OnlyRunner(s.pcs, s.next, |s.groups|, s.reduced, t, ix);
    var x, pc := job.reduce(s.groups[ix])[emitted], ReduceRun(ix, emitted + 1);
    forall g | 0 <= g < |s.groups|
      ensures IsPart(job, s'.groups, s'.pcs, s'.reduced, g, Tagged(s'.output, tags + [ix], g))
    {
      TaggedNext(s.output, tags, g, x, ix);
      if g == ix {
        PartGrows(job, s.groups, s.pcs, s.reduced, g, Tagged(s.output, tags, g), t, emitted);
      } else {
        PartOther(job, s.groups, s.pcs, s.reduced, g, Tagged(s.output, tags, g), t, pc, s.reduced);
      }
    }
  }

  lemma PartFinished(job: Job, s: State, t: nat, s': State, tags: seq<nat>, ix: nat)
    requires Interleaves(job, s, tags) && t < |s.pcs| && ix < |s.groups|
    requires s.pcs[t] == ReduceRun(ix, |job.reduce(s.groups[ix])|)
    requires Claims(s.pcs, s.next, |s.groups|, s.reduced)
    requires s' == Goes(s, t, ReduceCount(ix)).(reduced := s.reduced + [ix])
    ensures Interleaves(job, s', tags)
  {
    hide Tagged, Claims, IsPart;
    OnlyRunner(s.pcs, s.next, |s.groups|, s.reduced, t, ix);
    forall g | 0 <= g < |s.groups|
      ensures IsPart(job, s'.groups, s'.pcs, s'.reduced, g, Tagged(s'.output, tags, g))
    {
      if g == ix {
        PartEnds(job, s.groups, s.pcs, s.reduced, g, Tagged(s.output, tags, g), t);
      } else {
        PartOther(job, s.groups, s.pcs, s.reduced, g, Tagged(s.output, tags, g), t, ReduceCount(ix), s.reduced + [ix]);
      }
    }
  }

  /** A step of the reduce phase keeps the outputs tagged. */
  lemma ReduceInterleaves(job: Job, s: State, t: nat, s': State, tags: seq<nat>) returns (tags': seq<nat>)
    requires Step(job, s, t, s') && IsReducePc(s.pcs[t]) && ReducePhase(job, s) && Interleaves(job, s, tags)
    ensures Interleaves(job, s', tags')
  {
    hide Claims, Written, MapDone, Shuffled, WithStage, WithProcessed, Interleaves;
    assert Reducing(job, s.groups, s.pcs[t]);
    tags' := tags;
    match s.pcs[t]
    case ReduceStage => PartsStay(job, s, t, s', tags);
    case ReduceClaim =>
      if s.next < |s.groups| {
        PartClaimed(job, s, t, s', tags);
      } else {
        PartsStay(job, s, t, s', tags);
      }
    case ReduceRun(ix, emitted) =>
      if emitted < |job.reduce(s.groups[ix])| {
        PartEmitted(job, s, t, s', tags, ix, emitted);
        tags' := tags + [ix];
      } else {
        PartFinished(job, s, t, s', tags, ix);
      }
    case ReduceCount(ix) => PartsStay(job, s, t, s', tags);
  }

  /** Before the reduce phase nothing has been put out. */
  lemma NothingOutYet(job: Job, s: State)
    requires Inv(job, s) && s.bar.rounds < 2
    ensures s.output == [] && s.reduced == [] && Interleaves(job, s, [])
  {
    forall t | 0 <= t < |s.pcs| ensures !s.pcs[t].ReduceRun? {
      RoundOf(job, s, t);
    }
    hide Claims, Collected, MapDone, Shuffled;
    NothingOut(job, s);
  }

  lemma BarrierStepOutputs(job: Job, s: State, t: nat, s': State)
    requires Step(job, s, t, s') && AtBarrier(s.pcs[t])
    ensures s'.output == s.output && s'.groups == s.groups && s'.reduced == s.reduced
    ensures |s'.pcs| == |s.pcs| && s'.pcs == s.pcs[t := s'.pcs[t]] && !s'.pcs[t].ReduceRun?
  {
  }

  /** The tags can be kept through every step. */
  lemma StepInterleaves(job: Job, s: State, t: nat, s': State, tags: seq<nat>) returns (tags': seq<nat>)
    requires ValidJob(job) && Inv(job, s) && Step(job, s, t, s') && Interleaves(job, s, tags)
    ensures Interleaves(job, s', tags')
  {
    StepKeepsInv(job, s, t, s');
    RoundOf(job, s, t);
    hide Step, Threading, Interleaves, ReducePhase, MapPhase, ShufflePhase, ValidJob;
    if s'.bar.rounds < 2 {
      NothingOutYet(job, s');
      tags' := [];
    } else if IsReducePc(s.pcs[t]) {
      tags' := ReduceInterleaves(job, s, t, s', tags);
    } else {
      EntersReduce(job, s, t, s');
      BarrierStepOutputs(job, s, t, s');
      PartsStay(job, s, t, s', tags);
      tags' := tags;
    }
  }

  /** In the last phase a thread that is not reducing is at a barrier. */
  lemma EntersReduce(job: Job, s: State, t: nat, s': State)
    requires Threading(job, s) && Step(job, s, t, s') && s'.bar.rounds >= 2 && !IsReducePc(s.pcs[t])
    ensures AtBarrier(s.pcs[t])
  {
    RoundOf(job, s, t);
    if !AtBarrier(s.pcs[t]) {
      StepMoves(job, s, t, s');
    }
  }

  lemma {:induction false} RunInterleaves(job: Job, schedule: seq<nat>, states: seq<State>, i: nat)
    returns (tags: seq<nat>)
    requires ValidJob(job) && IsRun(job, schedule, states) && i < |states|
    ensures Interleaves(job, states[i], tags)
  {
    hide Inv, Step, Initial, ValidJob, Interleaves;
    RunKeepsInv(job, schedule, states, i);
    if i == 0 {
      StartsInMap(job, states[0]);
      NothingOutYet(job, states[0]);
      tags := [];
    } else {
      var before := RunInterleaves(job, schedule, states, i - 1);
      RunKeepsInv(job, schedule, states, i - 1);
      tags := StepInterleaves(job, states[i - 1], schedule[i - 1], states[i], before);
    }
  }

  lemma StartsInMap(job: Job, s: State)
    requires Initial(job, s)
    ensures s.bar.rounds == 0
  {
  }

  /** However the threads interleave, the finished output is an interleaving of the reduces' outputs: tagged by group,
      group g's outputs are exactly those its reduce emits, in the order in which it emits them. */
  lemma FinishedInterleaves(job: Job, schedule: seq<nat>, states: seq<State>, i: nat) returns (tags: seq<nat>)
    requires ValidJob(job) && IsRun(job, schedule, states) && i < |states| && Finished(job, states[i])
    ensures var s := states[i];
            && |tags| == |s.output| && (forall k :: 0 <= k < |tags| ==> tags[k] < |s.groups|)
            && forall g :: 0 <= g < |s.groups| ==> Tagged(s.output, tags, g) == job.reduce(s.groups[g])
  {
    hide IsRun, Tagged, Outputs, Shuffled, AllPairs, ValidJob;
    tags := RunInterleaves(job, schedule, states, i);
    FinishedJob(job, schedule, states, i);
    var s := states[i];
    forall g | 0 <= g < |s.groups| ensures Tagged(s.output, tags, g) == job.reduce(s.groups[g]) {
      OneOfRange(|s.groups|, g);
      assert g in multiset(s.reduced);
      assert IsPart(job, s.groups, s.pcs, s.reduced, g, Tagged(s.output, tags, g));
    }
  }

  // ---------- One thread: everything in order ----------

  /** The outputs of the first n groups, one after the other. */
  function OutputsInOrder(job: Job, groups: seq<IntermediateVec>, n: nat): seq<Output>
    requires n <= |groups|
  {
    if n == 0 then [] else OutputsInOrder(job, groups, n - 1) + job.reduce(groups[n - 1])
  }

  /** Where a single thread stands in its map phase. */
  predicate SoloMaps(job: Job, s: State, pc: Pc) {
    match pc
    case MapStage => s.next == 0 && s.mapped == []
    case MapClaim => s.next <= job.inputs && s.mapped == Range(s.next)
    case MapRun(ix) => ix < job.inputs && s.next == ix + 1 && s.mapped == Range(ix)
    case MapCount => s.next <= job.inputs && s.mapped == Range(s.next)
    case _ => s.mapped == Range(job.inputs)
  }

  /** Where it stands in its reduce phase. */
  predicate SoloReduces(job: Job, s: State, pc: Pc) {
    match pc
    case ReduceClaim =>
      s.next <= |s.groups| && s.reduced == Range(s.next) && s.output == OutputsInOrder(job, s.groups, s.next)
    case ReduceRun(ix, emitted) =>
      && ix < |s.groups| && s.next == ix + 1 && s.reduced == Range(ix) && emitted <= |job.reduce(s.groups[ix])|
      && s.output == OutputsInOrder(job, s.groups, ix) + job.reduce(s.groups[ix])[..emitted]
    case ReduceCount(ix) =>
      && s.next == ix + 1 <= |s.groups| && s.reduced == Range(s.next)
      && s.output == OutputsInOrder(job, s.groups, s.next)
    case Done => s.reduced == Range(|s.groups|) && s.output == OutputsInOrder(job, s.groups, |s.groups|)
    case _ =>
      && s.reduced == [] && s.output == []
      && (pc.ReduceStage? || pc.NextReduce? || (pc.ToBarrier? && pc.k >= 2) ==> s.next == 0)
  }

  ghost predicate Solo(job: Job, s: State) {
    && Sized(job, s) && job.threads == 1 && s.bar.count == 0 && s.bar.waiting == {} && !s.pcs[0].InBarrier?
    && SoloMaps(job, s, s.pcs[0]) && SoloReduces(job, s, s.pcs[0])
  }

  lemma SoloStarts(job: Job, s: State)
    requires job.threads == 1 && Initial(job, s)
    ensures Solo(job, s)
  {
  }

  lemma SoloMapStep(job: Job, s: State, s': State)
    requires Solo(job, s) && Step(job, s, 0, s') && IsMapPc(s.pcs[0])
    ensures Solo(job, s')
  {
    hide WithStage, WithProcessed, IsSorting, OutputsInOrder;
  }

  lemma SoloShuffleStep(job: Job, s: State, s': State)
    requires Solo(job, s) && Step(job, s, 0, s') && IsShufflePc(s.pcs[0])
    ensures Solo(job, s')
  {
    hide WithProcessed, NextPhase, Shuffled, Bag, OutputsInOrder, Range;
  }

  lemma SoloBarrierStep(job: Job, s: State, s': State)
    requires Solo(job, s) && Step(job, s, 0, s') && AtBarrier(s.pcs[0])
    ensures Solo(job, s')
  {
    hide OutputsInOrder, Range;
  }

  lemma SoloReduceStep(job: Job, s: State, s': State)
    requires Solo(job, s) && Step(job, s, 0, s') && IsReducePc(s.pcs[0])
    ensures Solo(job, s')
  {
    hide WithStage, WithProcessed, OutputsInOrder, Range;
    match s.pcs[0]
    case ReduceStage => NothingYet(job, s.groups);
    case ReduceClaim =>
      if s.next < |s.groups| {
        assert job.reduce(s.groups[s.next])[..0] == [];
      }
    case ReduceRun(ix, emitted) => SoloRunStep(job, s, s', ix, emitted);
    case ReduceCount(_) =>
  }

  lemma SoloRunStep(job: Job, s: State, s': State, ix: nat, emitted: nat)
    requires Solo(job, s) && Step(job, s, 0, s') && s.pcs[0] == ReduceRun(ix, emitted)
    ensures Solo(job, s')
  {
    hide OutputsInOrder, Range;
    var out := job.reduce(s.groups[ix]);
    OneMoreGroup(job, s.groups, ix);
    if emitted < |out| {
      assert out[..emitted + 1] == out[..emitted] + [out[emitted]];
    } else {
      assert out[..emitted] == out;
    }
  }

  lemma NothingYet(job: Job, groups: seq<IntermediateVec>)
    ensures Range(0) == [] && OutputsInOrder(job, groups, 0) == []
  {
  }

  lemma OneMoreGroup(job: Job, groups: seq<IntermediateVec>, n: nat)
    requires n < |groups|
    ensures Range(n + 1) == Range(n) + [n]
    ensures OutputsInOrder(job, groups, n + 1) == OutputsInOrder(job, groups, n) + job.reduce(groups[n])
  {
  }

  lemma SoloStep(job: Job, s: State, t: nat, s': State)
    requires Solo(job, s) && Step(job, s, t, s')
    ensures Solo(job, s')
  {
    assert t == 0;
    hide Solo, Step;
    if IsMapPc(s.pcs[0]) {
      SoloMapStep(job, s, s');
    } else if IsShufflePc(s.pcs[0]) {
      SoloShuffleStep(job, s, s');
    } else if AtBarrier(s.pcs[0]) {
      SoloBarrierStep(job, s, s');
    } else {
      SoloReduceStep(job, s, s');
    }
  }

  lemma {:induction false} SoloRun(job: Job, schedule: seq<nat>, states: seq<State>, i: nat)
    requires job.threads == 1 && IsRun(job, schedule, states) && i < |states|
    ensures Solo(job, states[i])
  {
    hide Step, Initial, Solo;
    if i == 0 {
      SoloStarts(job, states[0]);
    } else {
      SoloRun(job, schedule, states, i - 1);
      SoloStep(job, states[i - 1], schedule[i - 1], states[i]);
    }
  }

  /** With one thread the inputs are mapped in order, the groups are reduced in order, and the output is what the
      reduces emit, one after the other. */
  lemma SoloInOrder(job: Job, schedule: seq<nat>, states: seq<State>, i: nat)
    requires job.threads == 1 && IsRun(job, schedule, states) && i < |states| && Finished(job, states[i])
    ensures var s := states[i];
            && s.mapped == Range(job.inputs) && s.reduced == Range(|s.groups|)
            && s.output == OutputsInOrder(job, s.groups, |s.groups|)
  {
    SoloRun(job, schedule, states, i);
    assert states[i].pcs[0].Done?;
  }
}
