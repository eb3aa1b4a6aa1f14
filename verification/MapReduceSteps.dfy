/** The framework as a step system: each step is one atomic action of one worker thread, threads interleave in any
 way. Thread 0 shuffles between the two barriers. */
module MapReduceSteps {
  import opened Bags
  import opened MapReduceClient
  import opened Shuffle
  import opened JobState
  import Barrier

  /** The next action of a thread. */
  datatype Pc =
    | MapStage                           // setJobStage(MAP_STAGE)
    | MapClaim                           // getNextItemToProcess
    | MapRun(ix: nat)                    // the client's map, emitting into this thread's vector
    | MapCount                           // addNumberOfProcessedItems(MAP_STAGE)
    | Sort
    | ToBarrier(k: nat)                  // about to call barrier() for the k-th time
    | InBarrier(k: nat)                  // inside it, waiting or released
    | NextShuffle                        // setNextPhase
    | ShuffleStart                       // resetAtomicNextItemToProcess
    | ShuffleMove                        // moving pairs, one addNumberOfProcessedItems(SHUFFLE_STAGE) each
    | ShuffleEnd                         // resetAtomicNextItemToProcess
    | NextReduce                         // setNextPhase
    | ReduceStage                        // setJobStage(REDUCE_STAGE)
    | ReduceClaim                        // getNextItemToProcess
    | ReduceRun(ix: nat, emitted: nat)   // the client's reduce, emitting into the shared output vector
    | ReduceCount(ix: nat)               // addNumberOfProcessedItems(REDUCE_STAGE, size)
    | Done

  /** A job: how many threads and inputs, and what the client does with them. */
  datatype Job = Job(threads: nat, inputs: nat, emit: nat -> IntermediateVec, less: Less,
                     reduce: IntermediateVec -> seq<Output>)

  /** The shared state. `mapped` and `reduced` record the client calls made so far, in order. */
  datatype State = State(pcs: seq<Pc>, bar: Barrier.System, vecs: seq<IntermediateVec>, next: nat, word: Packed,
                         groups: seq<IntermediateVec>, moved: nat, output: seq<Output>,
                         mapped: seq<nat>, reduced: seq<nat>)

  function Range(n: nat): (r: seq<nat>)
    ensures |r| == n && forall i :: 0 <= i < n ==> r[i] == i
  {
    if n == 0 then [] else Range(n - 1) + [n - 1]
  }

  /** Every pair the client's map emits over the whole input. */
  ghost function AllPairs(job: Job): multiset<Pair> {
    Emitted(job, Range(job.inputs))
  }

  ghost function Emitted(job: Job, calls: seq<nat>): multiset<Pair> {
    Sum((ix: nat) => multiset(job.emit(ix)), calls)
  }

  /** What the framework may assume: at least one thread, an order on keys. */
  ghost predicate ValidJob(job: Job) {
    job.threads >= 1 && StrictWeakOrder(job.less)
  }

  /** The progress word has 32 bits for a count. */
  ghost predicate CountsFit(job: Job) {
    job.inputs < COUNTS && |AllPairs(job)| < COUNTS
  }

  ghost predicate Initial(job: Job, s: State) {
    s == State(seq(job.threads, i => MapStage), Barrier.Initial(job.threads), seq(job.threads, i => []),
               0, Pack(UNDEFINED_STAGE, 0), [], 0, [], [], [])
  }

  // ---------- Steps ----------

  /** Where a thread goes after its k-th barrier. */
  function AfterBarrier(k: nat, t: nat): Pc {
    if k >= 2 then ReduceStage else if t == 0 then NextShuffle else ToBarrier(2)
  }

  predicate Sized(job: Job, s: State) {
    |s.pcs| == job.threads && |s.vecs| == job.threads && Barrier.Sized(s.bar, job.threads)
  }

  function Goes(s: State, t: nat, pc: Pc): State
    requires t < |s.pcs|
  {
    s.(pcs := s.pcs[t := pc])
  }

  function GroupAt(s: State, ix: nat): IntermediateVec {
    if ix < |s.groups| then s.groups[ix] else []
  }

  /** One atomic action of thread t. */
  ghost predicate Step(job: Job, s: State, t: nat, s': State) {
    Sized(job, s) && t < job.threads &&
    match s.pcs[t]
    case MapStage =>
      s' == Goes(s, t, MapClaim).(word := WithStage(s.word, MAP_STAGE))
    case MapClaim =>
      s' == Goes(s, t, if s.next < job.inputs then MapRun(s.next) else Sort).(next := s.next + 1)
    case MapRun(ix) =>
      s' == Goes(s, t, MapCount).(vecs := s.vecs[t := s.vecs[t] + job.emit(ix)], mapped := s.mapped + [ix])
    case MapCount =>
      s' == Goes(s, t, MapClaim).(word := WithProcessed(s.word, MAP_STAGE, 1))
    case Sort =>
      && |s'.vecs| == |s.vecs| && IsSorting(job.less, s.vecs[t], s'.vecs[t])
      && s' == Goes(s, t, ToBarrier(1)).(vecs := s.vecs[t := s'.vecs[t]])
    case ToBarrier(k) =>
      var bar := Barrier.AfterArrive(s.bar, job.threads, t);
      s' == Goes(s, t, if t in bar.waiting then InBarrier(k) else AfterBarrier(k, t)).(bar := bar)
    case InBarrier(k) =>
      && t in s.bar.released
      && s' == Goes(s, t, AfterBarrier(k, t)).(bar := Barrier.AfterLeave(s.bar, job.threads, t))
    case NextShuffle =>
      s' == Goes(s, t, ShuffleStart).(word := NextPhase(s.word))
    case ShuffleStart =>
      s' == Goes(s, t, ShuffleMove).(next := 0)
    case ShuffleMove =>
      if s.moved < |Bag(s.vecs)| then
        s' == s.(moved := s.moved + 1, word := WithProcessed(s.word, SHUFFLE_STAGE, 1))
      else
        Shuffled(job.less, s.vecs, s'.groups) && s' == Goes(s, t, ShuffleEnd).(groups := s'.groups)
    case ShuffleEnd =>
      s' == Goes(s, t, NextReduce).(next := 0)
    case NextReduce =>
      s' == Goes(s, t, ToBarrier(2)).(word := NextPhase(s.word))
    case ReduceStage =>
      s' == Goes(s, t, ReduceClaim).(word := WithStage(s.word, REDUCE_STAGE))
    case ReduceClaim =>
      s' == Goes(s, t, if s.next < |s.groups| then ReduceRun(s.next, 0) else Done).(next := s.next + 1)
    case ReduceRun(ix, emitted) =>
      var out := job.reduce(GroupAt(s, ix));
      if emitted < |out| then
        s' == Goes(s, t, ReduceRun(ix, emitted + 1)).(output := s.output + [out[emitted]])
      else
        s' == Goes(s, t, ReduceCount(ix)).(reduced := s.reduced + [ix])
    case ReduceCount(ix) =>
      s' == Goes(s, t, ReduceClaim).(word := WithProcessed(s.word, REDUCE_STAGE, |GroupAt(s, ix)|))
    case Done => false
  }

  /** schedule[i] is the thread that takes the step from states[i] to states[i + 1]. */
  ghost predicate IsRun(job: Job, schedule: seq<nat>, states: seq<State>) {
    && |states| == |schedule| + 1 && Initial(job, states[0])
    && forall i :: 0 <= i < |schedule| ==> Step(job, states[i], schedule[i], states[i + 1])
  }
}
