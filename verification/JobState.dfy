/**
 The job's shared counters. The low two bits of the packed word are the stage, the bits above them the number
 of items processed in that stage.
 */
module JobState {

  const WORD: int := 0x1_0000_0000_0000_0000

  const COUNTS: int := 0x1_0000_0000

  const UNDEFINED_STAGE: int := 0
  const MAP_STAGE: int := 1
  const SHUFFLE_STAGE: int := 2
  const REDUCE_STAGE: int := 3

  type Packed = w: int | 0 <= w < 0x1_0000_0000_0000_0000

  function StageOf(w: Packed): int { w % 4 }

  function ProcessedOf(w: Packed): int { (w / 4) % COUNTS }

  function Pack(stage: int, processed: int): int { stage + 4 * processed }

  /** Decoding a packed word gives back what was packed, as long as the count fits its 32 bits. */
  lemma Unpacks(stage: int, processed: int)
    requires 0 <= stage < 4 && 0 <= processed < COUNTS
    ensures 0 <= Pack(stage, processed) < WORD
    ensures StageOf(Pack(stage, processed)) == stage && ProcessedOf(Pack(stage, processed)) == processed
  {
  }

  // ---------- The atomic updates ----------

  function NextPhase(w: Packed): (w': Packed) {
    ((w + 1) % WORD) % 4
  }

  function WithStage(w: Packed, stage: int): (w': Packed)
    requires 0 <= stage < 4
  {
    if StageOf(w) != stage then stage else w
  }

  function WithProcessed(w: Packed, stage: int, amount: nat): (w': Packed) {
    if StageOf(w) == stage then (w + (amount * 4) % WORD) % WORD else w
  }

  /** Advancing clears the count; the stage wraps after REDUCE. */
  lemma NextPhasePacked(stage: int, processed: int)
    requires 0 <= stage < 4 && 0 <= processed < COUNTS
    ensures NextPhase(Pack(stage, processed)) == Pack((stage + 1) % 4, 0)
  {
  }

  /** Setting the stage that is already set keeps the count; setting another one clears it. */
  lemma WithStagePacked(stage: int, processed: int, next: int)
    requires 0 <= stage < 4 && 0 <= processed < COUNTS && 0 <= next < 4
    ensures WithStage(Pack(stage, processed), next) == if next == stage then Pack(stage, processed) else Pack(next, 0)
  {
  }

  lemma NoWrap(x: int)
    requires 0 <= x < WORD
    ensures x % WORD == x
  {
  }

  /** Items count for the current stage only, and the sum is exact below 2^32. */
  lemma WithProcessedPacked(stage: int, processed: int, counted: int, amount: nat)
    requires 0 <= stage < 4 && 0 <= processed && processed + amount < COUNTS
    ensures WithProcessed(Pack(stage, processed), counted, amount) ==
              if counted == stage then Pack(stage, processed + amount) else Pack(stage, processed)
  {
    hide StageOf, ProcessedOf;
    Unpacks(stage, processed);
    NoWrap(amount * 4);
    NoWrap(Pack(stage, processed) + amount * 4);
  }

  /** The fields of JobContext that its threads share, each method one critical section or atomic access. */
  class JobContext {
    var jobStateBitwise: Packed
    var atomicNextItemToProcess: nat

    constructor ()
      ensures jobStateBitwise == 0 && atomicNextItemToProcess == 0
    {
      jobStateBitwise := 0;
      atomicNextItemToProcess := 0;
    }

    method GetNextItemToProcess() returns (ix: nat)
      modifies this`atomicNextItemToProcess
      ensures ix == old(atomicNextItemToProcess) && atomicNextItemToProcess == ix + 1
    {
      ix := atomicNextItemToProcess;
      atomicNextItemToProcess := atomicNextItemToProcess + 1;
    }

    method ResetAtomicNextItemToProcess()
      modifies this`atomicNextItemToProcess
      ensures atomicNextItemToProcess == 0
    {
      atomicNextItemToProcess := 0;
    }

    method SetNextPhase()
      modifies this`jobStateBitwise
      ensures StageOf(jobStateBitwise) == (StageOf(old(jobStateBitwise)) + 1) % 4 && ProcessedOf(jobStateBitwise) == 0
      ensures jobStateBitwise == NextPhase(old(jobStateBitwise))
    {
      var tmpNextPhase := (jobStateBitwise + 1) % WORD;
      var phaseBitsTurnedOn := 4;
      jobStateBitwise := tmpNextPhase % phaseBitsTurnedOn;
    }

    method SetJobStage(currentStage: int)
      requires 0 <= currentStage < 4
      modifies this`jobStateBitwise
      ensures StageOf(jobStateBitwise) == currentStage
      ensures ProcessedOf(jobStateBitwise) ==
                if StageOf(old(jobStateBitwise)) == currentStage then ProcessedOf(old(jobStateBitwise)) else 0
      ensures jobStateBitwise == WithStage(old(jobStateBitwise), currentStage)
    {
      var atomicCurrStage := jobStateBitwise % 4;
      if currentStage != atomicCurrStage {
        jobStateBitwise := currentStage;
      }
    }

    method AddNumberOfProcessedItems(currStage: int, amount: nat)
      modifies this`jobStateBitwise
      ensures old(jobStateBitwise) / 4 + amount < COUNTS ==>
                && StageOf(jobStateBitwise) == StageOf(old(jobStateBitwise))
                && ProcessedOf(jobStateBitwise) ==
                   ProcessedOf(old(jobStateBitwise)) + if StageOf(old(jobStateBitwise)) == currStage then amount else 0
      ensures jobStateBitwise == WithProcessed(old(jobStateBitwise), currStage, amount)
    {
      var atomicCurrStage := jobStateBitwise % 4;
      if currStage == atomicCurrStage {
        jobStateBitwise := (jobStateBitwise + (amount * 4) % WORD) % WORD;
      }
    }

    /** The stage and the count behind the percentage. */
    method GetJobState() returns (stage: int, numOfProcessed: int)
      ensures forall s, n {:trigger Pack(s, n)} ::
                0 <= s < 4 && 0 <= n < COUNTS && jobStateBitwise == Pack(s, n) ==> stage == s && numOfProcessed == n
      ensures stage == StageOf(jobStateBitwise) && numOfProcessed == ProcessedOf(jobStateBitwise)
    {
      stage := jobStateBitwise % 4;
      var discardPhase := jobStateBitwise / 4;
      numOfProcessed := discardPhase % COUNTS;
    }
  }
}
