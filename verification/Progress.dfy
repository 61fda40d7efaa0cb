/** One encoder step and the contract its report must meet (core/src/progress.rs). */
module Progress {
  import opened Wrappers

  datatype Operation = Continue | Flush | Finish

  datatype StepState = NeedsInput | NeedsOutput | Complete

  datatype StepResult = StepResult(consumed: nat, produced: nat, state: StepState)

  datatype ProgressError =
    | ConsumedPastInput
    | ProducedPastOutput
    | StalledWithAvailableInputAndOutput
    | RequestedInputBeforeConsumingAvailableInput
    | RequestedOutputWithCapacityRemaining
    | CompletedBoundaryBeforeConsumingInput

  /** The first rule the report breaks, if any. */
  function ValidateProgress(operation: Operation, inputAvailable: nat, outputCapacity: nat, result: StepResult)
    : (r: Option<ProgressError>)
  {
    if result.consumed > inputAvailable then
      Some(ConsumedPastInput)
    else if result.produced > outputCapacity then
      Some(ProducedPastOutput)
    else if result.state == NeedsInput && result.consumed < inputAvailable then
      Some(RequestedInputBeforeConsumingAvailableInput)
    else if result.state == NeedsOutput && result.produced < outputCapacity then
      Some(RequestedOutputWithCapacityRemaining)
    else if operation != Continue && result.state == Complete && result.consumed < inputAvailable then
      Some(CompletedBoundaryBeforeConsumingInput)
    else
      var madeProgress := result.consumed > 0 || result.produced > 0;
      var completedBoundary := operation != Continue && result.state == Complete;
      var legitimatelyWaiting :=
        (inputAvailable == 0 && result.state == NeedsInput) || (outputCapacity == 0 && result.state == NeedsOutput);
      if !madeProgress && !completedBoundary && !legitimatelyWaiting then
        Some(StalledWithAvailableInputAndOutput)
      else
        None
  }

  /** What each rule forbids. */
  predicate Breaks(rule: ProgressError, operation: Operation, inputAvailable: nat, outputCapacity: nat,
                   result: StepResult) {
    match rule
    case ConsumedPastInput => result.consumed > inputAvailable
    case ProducedPastOutput => result.produced > outputCapacity
    case RequestedInputBeforeConsumingAvailableInput => result.state == NeedsInput && result.consumed != inputAvailable
    case RequestedOutputWithCapacityRemaining => result.state == NeedsOutput && result.produced != outputCapacity
    case CompletedBoundaryBeforeConsumingInput =>
      result.state == Complete && operation != Continue && result.consumed != inputAvailable
    case StalledWithAvailableInputAndOutput =>
      && result.consumed == 0 && result.produced == 0
      && match result.state
         case NeedsInput => inputAvailable != 0
         case NeedsOutput => outputCapacity != 0
         case Complete => operation == Continue
  }

  /** A report passes exactly when it breaks no rule, and the rule it is refused by is one it breaks. */
  lemma {:induction false} PassesIff(operation: Operation, inputAvailable: nat, outputCapacity: nat,
                                     result: StepResult)
    ensures var r := ValidateProgress(operation, inputAvailable, outputCapacity, result);
            && (r == None <==> forall rule :: !Breaks(rule, operation, inputAvailable, outputCapacity, result))
            && (r.Some? ==> Breaks(r.value, operation, inputAvailable, outputCapacity, result))
  {
    var r := ValidateProgress(operation, inputAvailable, outputCapacity, result);
    if r.Some? {
      assert Breaks(r.value, operation, inputAvailable, outputCapacity, result);
    }
  }
}
