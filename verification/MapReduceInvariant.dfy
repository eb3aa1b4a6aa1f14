/** What holds of a job between any two steps, and how single steps change its parts. */
module MapReduceInvariant {
  import opened Bags
  import opened MapReduceClient
  import opened Shuffle
  import opened JobState
  import opened MapReduceSteps
  import Barrier

  // ---------- Where a thread can be ----------

  predicate IsMapPc(pc: Pc) {
    pc.MapStage? || pc.MapClaim? || pc.MapRun? || pc.MapCount? || pc.Sort?
  }

  predicate IsShufflePc(pc: Pc) {
    pc.NextShuffle? || pc.ShuffleStart? || pc.ShuffleMove? || pc.ShuffleEnd? || pc.NextReduce?
  }

  predicate IsReducePc(pc: Pc) {
    pc.ReduceStage? || pc.ReduceClaim? || pc.ReduceRun? || pc.ReduceCount? || pc.Done?
  }

  predicate AtBarrier(pc: Pc) {
    pc.ToBarrier? || pc.InBarrier?
  }

  /** A thread's next action agrees with how often it has been through the barrier. */
  predicate Placed(bar: Barrier.System, t: nat, pc: Pc)
    requires t < |bar.arrived|
  {
    && (IsMapPc(pc) ==> bar.arrived[t] == 0)
    && (IsShufflePc(pc) ==> bar.arrived[t] == 1 && t == 0)
    && (IsReducePc(pc) ==> bar.arrived[t] == 2)
    && (pc.ToBarrier? ==> 1 <= pc.k <= 2 && bar.arrived[t] == pc.k - 1)
    && (pc.InBarrier? ==> 1 <= pc.k <= 2 && bar.arrived[t] == pc.k)
    && (pc.InBarrier? <==> !Barrier.Outside(bar, t))
  }

  // ---------- Work in flight ----------

  /** A claimed call to the client that has not returned. */
  predicate Runs(pc: Pc) {
    pc.MapRun? || pc.ReduceRun?
  }

  function Share(pc: Pc): multiset<nat> {
    if Runs(pc) then multiset{pc.ix} else multiset{}
  }

  function GroupSize(groups: seq<IntermediateVec>, ix: nat): nat {
    if ix < |groups| then |groups[ix]| else 0
  }

  /** Work done that the progress word does not show yet. */
  function Pending(groups: seq<IntermediateVec>, pc: Pc): nat {
    match pc
    case MapCount => 1
    case ReduceCount(ix) => GroupSize(groups, ix)
    case _ => 0
  }

  /** What an unfinished reduce has emitted so far. */
  function OutputShare(job: Job, groups: seq<IntermediateVec>, pc: Pc): multiset<Output> {
    if pc.ReduceRun? && pc.ix < |groups| && pc.emitted <= |job.reduce(groups[pc.ix])|
    then multiset(job.reduce(groups[pc.ix])[..pc.emitted]) else multiset{}
  }

  ghost function InFlight(pcs: seq<Pc>): multiset<nat> { Sum((pc: Pc) => Share(pc), pcs) }

  ghost function Uncounted(groups: seq<IntermediateVec>, pcs: seq<Pc>): nat {
    Total((pc: Pc) => Pending(groups, pc), pcs)
  }

  ghost function PartialOutput(job: Job, groups: seq<IntermediateVec>, pcs: seq<Pc>): multiset<Output> {
    Sum((pc: Pc) => OutputShare(job, groups, pc), pcs)
  }

  ghost function PairsReduced(groups: seq<IntermediateVec>, calls: seq<nat>): nat {
    Total((ix: nat) => GroupSize(groups, ix), calls)
  }

  function OutputOf(job: Job, groups: seq<IntermediateVec>, ix: nat): multiset<Output> {
    if ix < |groups| then multiset(job.reduce(groups[ix])) else multiset{}
  }

  ghost function Outputs(job: Job, groups: seq<IntermediateVec>, calls: seq<nat>): multiset<Output> {
    Sum((ix: nat) => OutputOf(job, groups, ix), calls)
  }

  /** The claims handed out of a total of n are, each once, the calls made and the calls in flight. */
  ghost predicate Claims(pcs: seq<Pc>, next: nat, n: nat, calls: seq<nat>) {
    multiset(calls) + InFlight(pcs) == multiset(Range(Min(next, n)))
  }

  /** The progress word shows the stage and all its work but what is still to be reported. */
  ghost predicate Counts(stage: int, groups: seq<IntermediateVec>, pcs: seq<Pc>, word: Packed, work: nat) {
    Uncounted(groups, pcs) <= work && word == Pack(stage, work - Uncounted(groups, pcs))
  }

  /** The vectors hold what the calls made have emitted. */
  ghost predicate Collected(job: Job, vecs: seq<IntermediateVec>, calls: seq<nat>) {
    Bag(vecs) == Emitted(job, calls)
  }

  /** The output holds what the finished and the unfinished reduces have emitted. */
  ghost predicate Written(job: Job, groups: seq<IntermediateVec>, pcs: seq<Pc>, output: seq<Output>, calls: seq<nat>) {
    multiset(output) == Outputs(job, groups, calls) + PartialOutput(job, groups, pcs)
  }

  // ---------- The invariant ----------

  /** A thread that has stopped mapping has seen the inputs run out, and waits with its vector sorted. */
  predicate MapOrder(job: Job, pcs: seq<Pc>, vecs: seq<IntermediateVec>, next: nat) {
    |pcs| == |vecs| && forall t :: 0 <= t < |pcs| ==>
      && (pcs[t].Sort? || AtBarrier(pcs[t]) ==> next >= job.inputs)
      && (AtBarrier(pcs[t]) ==> Sorted(job.less, vecs[t]))
  }

  /** Before the first barrier opens. */
  ghost predicate MapPhase(job: Job, s: State) {
    && s.groups == [] && s.moved == 0 && s.output == [] && s.reduced == []
    && MapOrder(job, s.pcs, s.vecs, s.next)
    && Claims(s.pcs, s.next, job.inputs, s.mapped)
    && Collected(job, s.vecs, s.mapped)
  }

  /** All inputs mapped, every vector sorted. */
  ghost predicate MapDone(job: Job, vecs: seq<IntermediateVec>, mapped: seq<nat>) {
    && multiset(mapped) == multiset(Range(job.inputs))
    && Bag(vecs) == AllPairs(job)
    && forall t :: 0 <= t < |vecs| ==> Sorted(job.less, vecs[t])
  }

  /** Between the first barrier and the second, by what thread 0 does next: only it touches anything. */
  ghost predicate ShuffleAt(job: Job, s: State, pc: Pc) {
    match pc
    case InBarrier(k) => if k == 1 then s.moved == 0 else AfterShuffle(job, s)
    case NextShuffle => s.moved == 0
    case ShuffleStart => s.moved == 0
    case ShuffleMove => s.moved <= |AllPairs(job)| && s.next == 0
    case ShuffleEnd => Shuffled(job.less, s.vecs, s.groups)
    case NextReduce => AfterShuffle(job, s)
    case ToBarrier(k) => AfterShuffle(job, s)
    case _ => true
  }

  ghost predicate AfterShuffle(job: Job, s: State) {
    s.next == 0 && Shuffled(job.less, s.vecs, s.groups)
  }

  ghost predicate ShufflePhase(job: Job, s: State) {
    MapDone(job, s.vecs, s.mapped) && s.reduced == [] && s.output == [] && s.pcs != [] && ShuffleAt(job, s, s.pcs[0])
  }

  predicate ReduceOrder(job: Job, groups: seq<IntermediateVec>, pcs: seq<Pc>, next: nat) {
    forall t :: 0 <= t < |pcs| ==> Reducing(job, groups, pcs[t]) && (pcs[t].Done? ==> next >= |groups|)
  }

  /** After the second barrier has opened. */
  ghost predicate ReducePhase(job: Job, s: State) {
    && MapDone(job, s.vecs, s.mapped) && Shuffled(job.less, s.vecs, s.groups)
    && ReduceOrder(job, s.groups, s.pcs, s.next)
    && Claims(s.pcs, s.next, |s.groups|, s.reduced)
    && Written(job, s.groups, s.pcs, s.output, s.reduced)
  }

  predicate Reducing(job: Job, groups: seq<IntermediateVec>, pc: Pc) {
    && (pc.ReduceRun? ==> pc.ix < |groups| && pc.emitted <= |job.reduce(groups[pc.ix])|)
    && (pc.ReduceCount? ==> pc.ix < |groups|)
  }

  ghost predicate Threading(job: Job, s: State) {
    && Sized(job, s) && Barrier.Inv(s.bar, job.threads)
    && s.bar.rounds <= 2
    && forall t :: 0 <= t < job.threads ==> Placed(s.bar, t, s.pcs[t])
  }

  /** What holds of the work, by how often the barrier has opened. */
  ghost predicate Working(job: Job, s: State) {
    match s.bar.rounds
    case 0 => MapPhase(job, s)
    case 1 => ShufflePhase(job, s)
    case _ => ReducePhase(job, s)
  }

  ghost predicate Inv(job: Job, s: State) {
    Threading(job, s) && Working(job, s)
  }

  /** Until the first thread sets the stage the word is zero and nothing is claimed. */
  ghost predicate MapCounts(pcs: seq<Pc>, next: nat, word: Packed, calls: nat) {
    || Counts(MAP_STAGE, [], pcs, word, calls)
    || (word == Pack(UNDEFINED_STAGE, 0) && next == 0 && forall t :: 0 <= t < |pcs| ==> pcs[t].MapStage?)
  }

  /** The word while thread 0 shuffles. */
  ghost predicate ShuffleCounts(job: Job, s: State, pc: Pc) {
    match pc
    case InBarrier(k) => s.word == if k == 1 then Pack(MAP_STAGE, job.inputs) else Pack(REDUCE_STAGE, 0)
    case NextShuffle => s.word == Pack(MAP_STAGE, job.inputs)
    case ShuffleStart => s.word == Pack(SHUFFLE_STAGE, 0)
    case ShuffleMove => s.word == Pack(SHUFFLE_STAGE, s.moved)
    case ShuffleEnd => s.word == Pack(SHUFFLE_STAGE, |AllPairs(job)|)
    case NextReduce => s.word == Pack(SHUFFLE_STAGE, |AllPairs(job)|)
    case ToBarrier(k) => s.word == Pack(REDUCE_STAGE, 0)
    case _ => true
  }

  /** What the progress word shows, as long as counts fit it. */
  ghost predicate Showing(job: Job, s: State) {
    match s.bar.rounds
    case 0 => MapCounts(s.pcs, s.next, s.word, |s.mapped|)
    case 1 => s.pcs != [] && ShuffleCounts(job, s, s.pcs[0])
    case _ => Counts(REDUCE_STAGE, s.groups, s.pcs, s.word, PairsReduced(s.groups, s.reduced))
  }

  // ---------- Phases never overlap ----------

  /** While any thread maps or sorts, no thread shuffles or reduces; while thread 0 shuffles, nobody maps, sorts
      or reduces, and everybody else is in or before a barrier. */
  lemma PhasesDisjoint(job: Job, s: State, t: nat, u: nat)
    requires Inv(job, s) && t < job.threads && u < job.threads
    ensures IsMapPc(s.pcs[t]) ==> !IsShufflePc(s.pcs[u]) && !IsReducePc(s.pcs[u])
    ensures IsShufflePc(s.pcs[t]) ==> t == 0 && (u != 0 ==> s.pcs[u].ToBarrier? || s.pcs[u].InBarrier?)
    ensures IsReducePc(s.pcs[t]) ==> !IsMapPc(s.pcs[u]) && !IsShufflePc(s.pcs[u])
  {
    hide Working;
    assert Placed(s.bar, t, s.pcs[t]) && Placed(s.bar, u, s.pcs[u]);
  }

  // ---------- Bookkeeping: claims ----------

  lemma ClaimsStay(pcs: seq<Pc>, next: nat, n: nat, calls: seq<nat>, t: nat, pc: Pc)
    requires Claims(pcs, next, n, calls) && t < |pcs|
    requires (Runs(pc) <==> Runs(pcs[t])) && (Runs(pc) ==> pc.ix == pcs[t].ix)
    ensures Claims(pcs[t := pc], next, n, calls)
  {
    SumUpdate((pc: Pc) => Share(pc), pcs, t, pc);
    Cancel(InFlight(pcs[t := pc]), InFlight(pcs), Share(pc));
  }

  lemma NextItem(next: nat, n: nat)
    ensures multiset(Range(Min(next + 1, n))) ==
            multiset(Range(Min(next, n))) + if next < n then multiset{next} else multiset{}
  {
    if next < n {
      assert Range(next + 1) == Range(next) + [next];
    }
  }

  lemma InFlightNext(pcs: seq<Pc>, t: nat, pc: Pc)
    requires t < |pcs| && !Runs(pcs[t])
    ensures InFlight(pcs[t := pc]) == InFlight(pcs) + if Runs(pc) then multiset{pc.ix} else multiset{}
  {
    SumUpdate((pc: Pc) => Share(pc), pcs, t, pc);
    Cancel(InFlight(pcs[t := pc]), InFlight(pcs) + Share(pc), multiset{});
  }

  /** Claiming: the next item while there is one. */
  lemma ClaimsNext(pcs: seq<Pc>, next: nat, n: nat, calls: seq<nat>, t: nat, pc: Pc)
    requires Claims(pcs, next, n, calls) && t < |pcs| && !Runs(pcs[t])
    requires (Runs(pc) <==> next < n) && (Runs(pc) ==> pc.ix == next)
    ensures Claims(pcs[t := pc], next + 1, n, calls)
  {
    hide InFlight, Range, Share;
    InFlightNext(pcs, t, pc);
    NextItem(next, n);
    var share := if next < n then multiset{next} else multiset{};
    assert multiset(calls) + (InFlight(pcs) + share) == (multiset(calls) + InFlight(pcs)) + share;
  }

  /** A claim becomes a call made. */
  lemma ClaimsServed(pcs: seq<Pc>, next: nat, n: nat, calls: seq<nat>, t: nat, pc: Pc)
    requires Claims(pcs, next, n, calls) && t < |pcs| && Runs(pcs[t]) && !Runs(pc)
    ensures Claims(pcs[t := pc], next, n, calls + [pcs[t].ix])
  {
    SumUpdate((pc: Pc) => Share(pc), pcs, t, pc);
    Cancel(InFlight(pcs[t := pc]) + multiset{pcs[t].ix}, InFlight(pcs), multiset{});
    assert multiset(calls + [pcs[t].ix]) == multiset(calls) + multiset{pcs[t].ix};
    assert multiset(calls) + multiset{pcs[t].ix} + InFlight(pcs[t := pc]) == multiset(calls) + InFlight(pcs);
  }

  lemma ClaimsBounded(pcs: seq<Pc>, next: nat, n: nat, calls: seq<nat>)
    requires Claims(pcs, next, n, calls)
    ensures |calls| <= Min(next, n)
    ensures forall t :: 0 <= t < |pcs| && Runs(pcs[t]) ==> pcs[t].ix < n
  {
    var r := Range(Min(next, n));
    assert |multiset(r)| == |r| && |multiset(calls)| == |calls|;
    forall t | 0 <= t < |pcs| && Runs(pcs[t]) ensures pcs[t].ix < n {
      SumContains((pc: Pc) => Share(pc), pcs, t);
      assert pcs[t].ix in Share(pcs[t]) && pcs[t].ix in multiset(r);
    }
  }

  /** Nothing in flight and nothing left: each item was called exactly once. */
  lemma ClaimsComplete(pcs: seq<Pc>, next: nat, n: nat, calls: seq<nat>)
    requires Claims(pcs, next, n, calls) && next >= n && forall t :: 0 <= t < |pcs| ==> !Runs(pcs[t])
    ensures multiset(calls) == multiset(Range(n)) && |calls| == n
  {
    SumEmpty((pc: Pc) => Share(pc), pcs);
    assert multiset(calls) + multiset{} == multiset(calls);
    assert |multiset(calls)| == |calls| && |multiset(Range(n))| == |Range(n)|;
  }

  // ---------- Bookkeeping: the progress word ----------

  /** Work done but not yet reported leaves the word alone. */
  lemma CountsMore(stage: int, groups: seq<IntermediateVec>, pcs: seq<Pc>, word: Packed, work: nat,
                   t: nat, pc: Pc, more: nat)
    requires Counts(stage, groups, pcs, word, work) && t < |pcs|
    requires Pending(groups, pc) == Pending(groups, pcs[t]) + more
    ensures Counts(stage, groups, pcs[t := pc], word, work + more)
  {
    TotalUpdate((pc: Pc) => Pending(groups, pc), pcs, t, pc);
  }

  lemma CountsReported(stage: int, groups: seq<IntermediateVec>, pcs: seq<Pc>, word: Packed, work: nat, t: nat, pc: Pc)
    requires Counts(stage, groups, pcs, word, work) && t < |pcs|
    requires 0 <= stage < 4 && work < COUNTS && Pending(groups, pc) == 0
    ensures Counts(stage, groups, pcs[t := pc], WithProcessed(word, stage, Pending(groups, pcs[t])), work)
  {
    TotalUpdate((pc: Pc) => Pending(groups, pc), pcs, t, pc);
    WithProcessedPacked(stage, work - Uncounted(groups, pcs), stage, Pending(groups, pcs[t]));
  }

  /** Setting the stage again keeps the count. */
  lemma CountsRestaged(stage: int, groups: seq<IntermediateVec>, pcs: seq<Pc>, word: Packed, work: nat)
    requires Counts(stage, groups, pcs, word, work) && 0 <= stage < 4 && work < COUNTS
    ensures WithStage(word, stage) == word
  {
    WithStagePacked(stage, work - Uncounted(groups, pcs), stage);
  }

  lemma NothingUncounted(groups: seq<IntermediateVec>, pcs: seq<Pc>)
    requires forall t :: 0 <= t < |pcs| ==> !pcs[t].MapCount? && !pcs[t].ReduceCount?
    ensures Uncounted(groups, pcs) == 0
  {
    TotalZero((pc: Pc) => Pending(groups, pc), pcs);
  }

  // ---------- Bookkeeping: pairs and outputs ----------

  lemma CollectedMore(job: Job, vecs: seq<IntermediateVec>, calls: seq<nat>, t: nat, ix: nat)
    requires Collected(job, vecs, calls) && t < |vecs|
    ensures Collected(job, vecs[t := vecs[t] + job.emit(ix)], calls + [ix])
  {
    var pairs := job.emit(ix);
    SumUpdate((v: IntermediateVec) => multiset(v), vecs, t, vecs[t] + pairs);
    assert multiset(vecs[t] + pairs) == multiset(vecs[t]) + multiset(pairs);
    Cancel(Bag(vecs[t := vecs[t] + pairs]), Bag(vecs) + multiset(pairs), multiset(vecs[t]));
    SumAppend((ix: nat) => multiset(job.emit(ix)), calls, ix);
  }

  lemma CollectedSorted(job: Job, vecs: seq<IntermediateVec>, calls: seq<nat>, t: nat, v: IntermediateVec)
    requires Collected(job, vecs, calls) && t < |vecs| && multiset(v) == multiset(vecs[t])
    ensures Collected(job, vecs[t := v], calls)
  {
    SumUpdate((v: IntermediateVec) => multiset(v), vecs, t, v);
    Cancel(Bag(vecs[t := v]), Bag(vecs), multiset(v));
  }

  lemma WrittenStays(job: Job, groups: seq<IntermediateVec>, pcs: seq<Pc>, output: seq<Output>, calls: seq<nat>,
                     t: nat, pc: Pc)
    requires Written(job, groups, pcs, output, calls) && t < |pcs|
    requires !pcs[t].ReduceRun? && (pc.ReduceRun? ==> pc.emitted == 0)
    ensures Written(job, groups, pcs[t := pc], output, calls)
  {
    SumUpdate((pc: Pc) => OutputShare(job, groups, pc), pcs, t, pc);
    assert OutputShare(job, groups, pc) == multiset{};
    Cancel(PartialOutput(job, groups, pcs[t := pc]), PartialOutput(job, groups, pcs), multiset{});
  }

  lemma WrittenMore(job: Job, groups: seq<IntermediateVec>, pcs: seq<Pc>, output: seq<Output>, calls: seq<nat>,
                    t: nat, ix: nat, emitted: nat)
    requires Written(job, groups, pcs, output, calls) && t < |pcs| && pcs[t] == ReduceRun(ix, emitted)
    requires ix < |groups| && emitted < |job.reduce(groups[ix])|
    ensures var x := job.reduce(groups[ix])[emitted];
            Written(job, groups, pcs[t := ReduceRun(ix, emitted + 1)], output + [x], calls)
  {
    hide Outputs, PartialOutput;
    var x := job.reduce(groups[ix])[emitted];
    PartialGrows(job, groups, pcs, t, ix, emitted);
    assert multiset(output + [x]) == multiset(output) + multiset{x};
  }

  lemma PartialUpdate(job: Job, groups: seq<IntermediateVec>, pcs: seq<Pc>, t: nat, pc: Pc)
    requires t < |pcs|
    ensures PartialOutput(job, groups, pcs[t := pc]) + OutputShare(job, groups, pcs[t]) ==
            PartialOutput(job, groups, pcs) + OutputShare(job, groups, pc)
  {
    SumUpdate((pc: Pc) => OutputShare(job, groups, pc), pcs, t, pc);
  }

  lemma ShareOf(job: Job, groups: seq<IntermediateVec>, ix: nat, emitted: nat)
    requires ix < |groups| && emitted <= |job.reduce(groups[ix])|
    ensures OutputShare(job, groups, ReduceRun(ix, emitted)) == multiset(job.reduce(groups[ix])[..emitted])
  {
  }

  lemma PartialGrows(job: Job, groups: seq<IntermediateVec>, pcs: seq<Pc>, t: nat, ix: nat, emitted: nat)
    requires t < |pcs| && pcs[t] == ReduceRun(ix, emitted) && ix < |groups| && emitted < |job.reduce(groups[ix])|
    ensures PartialOutput(job, groups, pcs[t := ReduceRun(ix, emitted + 1)]) ==
            PartialOutput(job, groups, pcs) + multiset{job.reduce(groups[ix])[emitted]}
  {
    hide OutputShare, PartialOutput;
    var pc, out := ReduceRun(ix, emitted + 1), job.reduce(groups[ix]);
    PartialUpdate(job, groups, pcs, t, pc);
    ShareOf(job, groups, ix, emitted);
    ShareOf(job, groups, ix, emitted + 1);
    assert out[..emitted + 1] == out[..emitted] + [out[emitted]];
    OneMore(PartialOutput(job, groups, pcs), PartialOutput(job, groups, pcs[t := pc]), out[..emitted], out[emitted]);
  }

  lemma OneMore<T>(before: multiset<T>, after: multiset<T>, part: seq<T>, x: T)
    requires after + multiset(part) == before + multiset(part + [x])
    ensures after == before + multiset{x}
  {
    assert before + multiset(part + [x]) == (before + multiset{x}) + multiset(part);
    Cancel(after, before + multiset{x}, multiset(part));
  }

  lemma WrittenWhole(job: Job, groups: seq<IntermediateVec>, pcs: seq<Pc>, output: seq<Output>, calls: seq<nat>,
                     t: nat, ix: nat)
    requires Written(job, groups, pcs, output, calls) && t < |pcs| && ix < |groups|
    requires pcs[t] == ReduceRun(ix, |job.reduce(groups[ix])|)
    ensures Written(job, groups, pcs[t := ReduceCount(ix)], output, calls + [ix])
  {
    var pc, out := ReduceCount(ix), job.reduce(groups[ix]);
    SumUpdate((pc: Pc) => OutputShare(job, groups, pc), pcs, t, pc);
    var before, after := PartialOutput(job, groups, pcs), PartialOutput(job, groups, pcs[t := pc]);
    assert out[..|out|] == out;
    assert after + multiset(out) == before + multiset{};
    SumAppend((ix: nat) => OutputOf(job, groups, ix), calls, ix);
    assert Outputs(job, groups, calls + [ix]) + after == Outputs(job, groups, calls) + (after + multiset(out));
  }

  lemma NothingWritten(job: Job, groups: seq<IntermediateVec>, pcs: seq<Pc>)
    requires forall t :: 0 <= t < |pcs| ==> !pcs[t].ReduceRun?
    ensures Written(job, groups, pcs, [], [])
  {
    SumEmpty((pc: Pc) => OutputShare(job, groups, pc), pcs);
  }
}
