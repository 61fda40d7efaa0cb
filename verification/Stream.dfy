/**
 * The streaming driver (core/src/stream/mod.rs): runs a codec over one input buffer
 * under a work budget, writing into pool buffers.
 */
module Stream {
  import opened Wrappers
  import opened Progress
  import opened Codec
  import opened OutputPool

  datatype WorkBudget = WorkBudget(inputBytes: nat, codecSteps: nat) {
    predicate CanStep(hasInput: bool) {
      codecSteps > 0 && (!hasInput || inputBytes > 0)
    }

    function InputLimit(available: nat): nat {
      Min(available, inputBytes)
    }

    /** The requires says that neither subtraction underflows. */
    function RecordStep(consumed: nat): WorkBudget
      requires codecSteps > 0 && consumed <= inputBytes
    {
      WorkBudget(inputBytes - consumed, codecSteps - 1)
    }
  }

  const PER_CALLBACK := WorkBudget(64 * 1024, 32)

  datatype DriveState = InputTaken | Flushed | Finished | BudgetExhausted

  datatype DriveError = StepFailed(step: StepError) | OutputFailed(output: OutputFailure)

  datatype DriveResult =
    | Outcome(consumed: nat, state: DriveState)
    | DriveFailure(consumed: nat, error: DriveError)

  /** What the driver changes: the codec, the pool, and the record of the steps it took. */
  datatype Machine<+S> = Machine(codec: S, pool: Pool, steps: seq<StepRecord>)

  /** One round of NgxOutput::with_output around checked_step. */
  datatype Attempt<+S> =
    | NoBuffer(failure: OutputFailure)
    | Refused(machine: Machine<S>, error: StepError)
    | Stepped(machine: Machine<S>, record: StepRecord)

  function TryStep<S>(step: StepFn<S>, limits: Limits, m: Machine<S>, operation: Operation, offered: seq<byte>)
    : (a: Attempt<S>)
    ensures a.Stepped? ==> a.record.consumed <= |offered|
  {
    match TakeBuffer(limits, m.pool)
    case Failure(failure) => NoBuffer(failure)
    case Success(taken) =>
      match CheckedStep(step, m.codec, operation, offered, limits.bufferSize)
      case Rejected(after, error) => Refused(Machine(after, Submit(taken, []), m.steps), error)
      case Accepted(next, consumed, bytes, state) =>
        var record := StepRecord(operation, offered, limits.bufferSize, consumed, bytes, state);
        Attempt.Stepped(
          Machine(next, Submit(taken, Emission(operation, bytes, state)), m.steps + [record]), record)
  }

  /** Where the driver stands between two rounds. */
  datatype Drive<+S> =
    | Running(machine: Machine<S>, budget: WorkBudget, offset: nat)
    | Stopped(machine: Machine<S>, budget: WorkBudget, result: DriveResult)

  /** A boundary may only be shown together with the last byte of the buffer. */
  function ShownOperation(operation: Operation, input: seq<byte>, end: nat): Operation {
    if end == |input| then operation else Continue
  }

  /** The first round of the loop from `offset`. */
  function Round<S>(step: StepFn<S>, limits: Limits, m: Machine<S>, operation: Operation, input: seq<byte>,
                    offset: nat, budget: WorkBudget): (d: Drive<S>)
    requires offset <= |input|
    ensures d.Running? ==> offset <= d.offset <= |input| && d.budget.codecSteps < budget.codecSteps
  {
    if !budget.CanStep(offset < |input|) then
      Stopped(m, budget, Outcome(offset, BudgetExhausted))
    else
      var end := offset + budget.InputLimit(|input| - offset);
      var shown := ShownOperation(operation, input, end);
      match TryStep(step, limits, m, shown, input[offset..end])
      case NoBuffer(failure) => Stopped(m, budget, DriveFailure(offset, OutputFailed(failure)))
      case Refused(m', error) => Stopped(m', budget, DriveFailure(offset, StepFailed(error)))
      case Stepped(m', r) =>
        var offset' := offset + r.consumed;
        var budget' := budget.RecordStep(r.consumed);
        match BoundaryOf(shown, r.state)
        case FinishBoundary => Stopped(m', budget', Outcome(offset', Finished))
        case FlushBoundary => Stopped(m', budget', Outcome(offset', Flushed))
        case NoBoundary =>
          if r.state == NeedsInput && offset' == |input| then
            Stopped(m', budget', Outcome(offset', InputTaken))
          else
            Running(m', budget', offset')
  }

  /** The whole of drive_input, from `offset` on. */
  function DriveFrom<S>(step: StepFn<S>, limits: Limits, m: Machine<S>, operation: Operation, input: seq<byte>,
                        offset: nat, budget: WorkBudget): (d: Drive<S>)
    requires offset <= |input|
    ensures d.Stopped?
    decreases budget.codecSteps
  {
    var d := Round(step, limits, m, operation, input, offset, budget);
    if d.Running? then DriveFrom(step, limits, d.machine, operation, input, d.offset, d.budget) else d
  }
}
