/**
 * What a codec is shown of one input buffer, however many callbacks it takes.
 *
 * `Presents` describes the steps spent on one buffer; `DriveKeeps` proves that the driver
 * keeps to it for every codec, including one that lies within the progress contract.
 */
module Transcript {
  import opened Wrappers
  import opened Progress
  import opened Codec
  import opened OutputPool
  import opened Stream

  function Last(log: seq<StepRecord>): StepRecord
    requires log != []
  {
    log[|log| - 1]
  }

  /** The buffer's own boundary has been shown to the codec. */
  predicate Shown(log: seq<StepRecord>, operation: Operation) {
    operation != Continue && log != [] && Last(log).operation == operation
  }

  /** The last step ends the buffer: its boundary completed, or the codec asked for the next buffer. */
  predicate Closes(log: seq<StepRecord>, bytes: seq<byte>, operation: Operation) {
    && log != []
    && |Consumed(log)| == |bytes|
    && (Completes(log, operation) || Last(log).state == NeedsInput)
  }

  /** The last step completed the buffer's flush or finish. */
  predicate Completes(log: seq<StepRecord>, operation: Operation) {
    Shown(log, operation) && Last(log).state == Complete
  }

  /** What the progress contract says about the bytes a step took. */
  predicate TakesWhatItMay(r: StepRecord) {
    && r.consumed <= |r.offered|
    && (r.operation != Continue && r.state == Complete ==> r.consumed == |r.offered|)
  }

  /** `r` may follow the unclosed steps `before`: it offers the next bytes, and a boundary only with the last one. */
  ghost predicate MayFollow(before: seq<StepRecord>, r: StepRecord, bytes: seq<byte>, operation: Operation) {
    var at := |Consumed(before)|;
    && !Closes(before, bytes, operation)
    && TakesWhatItMay(r)
    && at + |r.offered| <= |bytes|
    && r.offered == bytes[at..at + |r.offered|]
    && r.operation == ShownOperation(operation, bytes, at + |r.offered|)
    && (Shown(before, operation) ==> r.operation == operation)
  }

  /** `log` is a legal way to show a buffer with these bytes and this operation, or a part of one. */
  ghost predicate Presents(log: seq<StepRecord>, bytes: seq<byte>, operation: Operation) {
    log == [] ||
    (Presents(log[..|log| - 1], bytes, operation)
     && MayFollow(log[..|log| - 1], Last(log), bytes, operation))
  }

  lemma PresentsSnoc(log: seq<StepRecord>, r: StepRecord, bytes: seq<byte>, operation: Operation)
    ensures Presents(log + [r], bytes, operation) <==>
            Presents(log, bytes, operation) && MayFollow(log, r, bytes, operation)
    ensures Consumed(log + [r]) == Consumed(log) + r.Taken()
  {
    assert (log + [r])[..|log|] == log;
  }

  /** The codec has taken a prefix of the buffer, byte for byte. */
  lemma {:induction false} PresentsPrefix(log: seq<StepRecord>, bytes: seq<byte>, operation: Operation)
    requires Presents(log, bytes, operation)
    ensures Consumed(log) <= bytes
  {
    if log != [] {
      PresentsPrefix(log[..|log| - 1], bytes, operation);
    }
  }

  /**
   * The operations shown for one buffer are some Continues and then only its own operation:
   * once a flush or finish has been shown it is never taken back.
   */
  lemma {:induction false} ContinuesThenOwnOperation(log: seq<StepRecord>, bytes: seq<byte>, operation: Operation)
    returns (m: nat)
    requires Presents(log, bytes, operation)
    ensures m <= |log|
    ensures forall i :: 0 <= i < m ==> log[i].operation == Continue
    ensures forall i :: m <= i < |log| ==> log[i].operation == operation
    ensures forall i :: 0 <= i < |log| ==> !Closes(log[..i], bytes, operation)
    ensures operation != Continue ==> (m < |log| <==> Shown(log, operation))
  {
    if log == [] {
      m := 0;
    } else {
      var before := log[..|log| - 1];
      m := ContinuesThenOwnOperation(before, bytes, operation);
      forall i | 0 <= i < |log| ensures !Closes(log[..i], bytes, operation) {
        if i < |before| { assert log[..i] == before[..i]; }
      }
      if operation != Continue && Last(log).operation == Continue {
        m := |log|;
      }
    }
  }

  /** Every step was given a whole buffer to write into. */
  ghost predicate FullBuffers(limits: Limits, log: seq<StepRecord>) {
    forall i :: 0 <= i < |log| ==> log[i].capacity == limits.bufferSize
  }

  /** The codec's log `base + m.steps` is genuine, and its emissions are on `out` after `handed`. */
  ghost predicate Sound<S>(step: StepFn<S>, limits: Limits, start: S, base: seq<StepRecord>, handed: seq<Packet>,
                           m: Machine<S>) {
    && Genuine(step, start, base + m.steps)
    && m.codec == StateAfter(step, start, base + m.steps)
    && PoolOk(limits, m.pool)
    && handed + m.pool.out == Packets(base + m.steps)
    && FullBuffers(limits, base + m.steps)
  }

  /** `steps` have shown all of the buffer but `rest`, and have not closed it. */
  ghost predicate Underway(steps: seq<StepRecord>, bytes: seq<byte>, operation: Operation, rest: seq<byte>) {
    && Presents(steps, bytes, operation)
    && Consumed(steps) + rest == bytes
    && !Closes(steps, bytes, operation)
  }

  /** A shown boundary can be shown again: the byte allowance covers what is left of the buffer. */
  predicate Covered(steps: seq<StepRecord>, operation: Operation, rest: seq<byte>, allowance: nat) {
    Shown(steps, operation) ==> |rest| <= allowance
  }

  ghost predicate Closed(steps: seq<StepRecord>, bytes: seq<byte>, operation: Operation) {
    && Presents(steps, bytes, operation)
    && Consumed(steps) == bytes
    && Closes(steps, bytes, operation)
  }

  /** What an accepted step does to the codec, the pool and the record. */
  lemma StepDoes<S>(step: StepFn<S>, limits: Limits, m: Machine<S>, operation: Operation, offered: seq<byte>)
    requires TryStep(step, limits, m, operation, offered).Stepped?
    ensures var a := TryStep(step, limits, m, operation, offered);
            var r := a.record;
            && r.operation == operation && r.offered == offered && r.capacity == limits.bufferSize
            && CheckedStep(step, m.codec, operation, offered, limits.bufferSize)
               == Accepted(a.machine.codec, r.consumed, r.produced, r.state)
            && step(m.codec, operation, offered, limits.bufferSize).next == a.machine.codec
            && a.machine.steps == m.steps + [r]
            && a.machine.pool.out == m.pool.out + Emission(operation, r.produced, r.state)
            && (PoolOk(limits, m.pool) ==> PoolOk(limits, a.machine.pool))
  {
    hide ValidateProgress, BoundaryOf;
  }

  /** An accepted step keeps the codec's log genuine and every emission in place. */
  lemma StepIsSound<S>(step: StepFn<S>, limits: Limits, start: S, base: seq<StepRecord>, handed: seq<Packet>,
                       m: Machine<S>, operation: Operation, offered: seq<byte>)
    requires Sound(step, limits, start, base, handed, m)
    requires TryStep(step, limits, m, operation, offered).Stepped?
    ensures Sound(step, limits, start, base, handed, TryStep(step, limits, m, operation, offered).machine)
  {
    StepDoes(step, limits, m, operation, offered);
    hide TryStep, CheckedStep, Emission, Genuine, StateAfter, Packets, Consumed, Produced;
    var a := TryStep(step, limits, m, operation, offered);
    var emitted := Emission(operation, a.record.produced, a.record.state);
    Snoc(step, start, base + m.steps, a.record);
    PacketsSnoc(base + m.steps, a.record);
    assert base + a.machine.steps == (base + m.steps) + [a.record];
    assert handed + (m.pool.out + emitted) == (handed + m.pool.out) + emitted;
  }

  /** An accepted step shows the buffer legally, and closes it exactly when the driver stops. */
  lemma StepPresents(steps: seq<StepRecord>, r: StepRecord, bytes: seq<byte>, operation: Operation,
                     input: seq<byte>, offset: nat, allowance: nat)
    requires offset <= |input|
    requires Underway(steps, bytes, operation, input[offset..])
    requires Covered(steps, operation, input[offset..], allowance)
    requires var end := offset + Min(|input| - offset, allowance);
             && r.offered == input[offset..end]
             && r.operation == ShownOperation(operation, input, end)
             && r.consumed <= end - offset
             && TakesWhatItMay(r)
    ensures var offset' := offset + r.consumed;
            var done := BoundaryOf(r.operation, r.state) != NoBoundary
                        || (r.state == NeedsInput && offset' == |input|);
            && Presents(steps + [r], bytes, operation)
            && Consumed(steps + [r]) + input[offset'..] == bytes
            && (done <==> Closes(steps + [r], bytes, operation))
            && (done ==> offset' == |input| && Consumed(steps + [r]) == bytes)
            && Covered(steps + [r], operation, input[offset'..], allowance - r.consumed)
            && (BoundaryOf(r.operation, r.state) != NoBoundary <==> Completes(steps + [r], operation))
  {
    var at := |Consumed(steps)|;
    var rest := input[offset..];
    assert bytes[at..] == rest;
    assert bytes[at..at + |r.offered|] == bytes[at..][..|r.offered|];
    assert input[offset..][..|r.offered|] == r.offered;
    PresentsSnoc(steps, r, bytes, operation);
    assert r.Taken() + input[offset + r.consumed..] == rest;
    assert Consumed(steps) + r.Taken() + input[offset + r.consumed..] == bytes;
  }

  /** What a finished drive says about one buffer, for any codec. */
  ghost predicate DriveOk<S>(step: StepFn<S>, limits: Limits, start: S, base: seq<StepRecord>, handed: seq<Packet>,
                             bytes: seq<byte>, operation: Operation, input: seq<byte>, d: Drive<S>)
    requires d.Stopped?
  {
    var m := d.machine;
    match d.result
    case Outcome(consumed, state) =>
      && Sound(step, limits, start, base, handed, m)
      && consumed <= |input|
      && (state == BudgetExhausted ==>
            && Underway(m.steps, bytes, operation, input[consumed..])
            && Covered(m.steps, operation, input[consumed..], d.budget.inputBytes))
      && (state != BudgetExhausted ==>
            && consumed == |input|
            && Closed(m.steps, bytes, operation))
      && (state == Finished <==> operation == Finish && state != BudgetExhausted && Completes(m.steps, Finish))
      && (state == Flushed <==> operation == Flush && state != BudgetExhausted && Completes(m.steps, Flush))
    case DriveFailure(consumed, error) =>
      && consumed <= |input|
      && (error.OutputFailed? ==>
            && Sound(step, limits, start, base, handed, m)
            && Underway(m.steps, bytes, operation, input[consumed..])
            && Covered(m.steps, operation, input[consumed..], d.budget.inputBytes)
            && (error.output == Exhausted ==> !HasRoom(limits, m.pool)))
  }

  /** `d` is where a round stands that took the step `r`, and why it stopped if it did. */
  ghost predicate Took<S>(operation: Operation, input: seq<byte>, offset: nat, budget: WorkBudget,
                          r: StepRecord, d: Drive<S>)
    requires offset <= |input|
  {
    var end := offset + Min(|input| - offset, budget.inputBytes);
    var boundary := BoundaryOf(r.operation, r.state);
    && r.offered == input[offset..end]
    && r.operation == ShownOperation(operation, input, end)
    && TakesWhatItMay(r)
    && d.budget.inputBytes == budget.inputBytes - r.consumed
    && (d.Running? <==> boundary == NoBoundary && !(r.state == NeedsInput && offset + r.consumed == |input|))
    && (d.Running? ==> d.offset == offset + r.consumed)
    && (d.Stopped? ==> d.result == Outcome(offset + r.consumed,
                                           if boundary == FinishBoundary then Finished
                                           else if boundary == FlushBoundary then Flushed else InputTaken))
  }

  lemma RoundTakesStep<S>(step: StepFn<S>, limits: Limits, m: Machine<S>, operation: Operation, input: seq<byte>,
                          offset: nat, budget: WorkBudget) returns (r: StepRecord)
    requires offset <= |input| && budget.CanStep(offset < |input|)
    requires var end := offset + budget.InputLimit(|input| - offset);
             TryStep(step, limits, m, ShownOperation(operation, input, end), input[offset..end]).Stepped?
    ensures var end := offset + budget.InputLimit(|input| - offset);
            var a := TryStep(step, limits, m, ShownOperation(operation, input, end), input[offset..end]);
            var d := Round(step, limits, m, operation, input, offset, budget);
            && r == a.record
            && d.machine == a.machine
            && d.machine.steps == m.steps + [r]
            && Took(operation, input, offset, budget, r, d)
  {
    var end := offset + budget.InputLimit(|input| - offset);
    r := TryStep(step, limits, m, ShownOperation(operation, input, end), input[offset..end]).record;
  }

  /** A round that takes no step stops where it stands. */
  lemma RoundWithoutStep<S>(step: StepFn<S>, limits: Limits, m: Machine<S>, operation: Operation, input: seq<byte>,
                            offset: nat, budget: WorkBudget)
    requires offset <= |input|
    requires budget.CanStep(offset < |input|) ==>
               var end := offset + budget.InputLimit(|input| - offset);
               !TryStep(step, limits, m, ShownOperation(operation, input, end), input[offset..end]).Stepped?
    ensures var d := Round(step, limits, m, operation, input, offset, budget);
            && d.Stopped?
            && d.budget == budget
            && d.result.consumed == offset
            && (d.result.Outcome? ==> d.result.state == BudgetExhausted && d.machine == m)
            && (d.result.DriveFailure? && d.result.error.OutputFailed? ==>
                  d.machine == m && (d.result.error.output == Exhausted ==> !HasRoom(limits, m.pool)))
  {
  }

  /** What a step does to the account of its buffer. */
  lemma TookKeeps<S>(steps: seq<StepRecord>, bytes: seq<byte>, operation: Operation, input: seq<byte>, offset: nat,
                     budget: WorkBudget, r: StepRecord, d: Drive<S>)
    requires offset <= |input|
    requires Underway(steps, bytes, operation, input[offset..])
    requires Covered(steps, operation, input[offset..], budget.inputBytes)
    requires Took(operation, input, offset, budget, r, d)
    requires d.machine.steps == steps + [r]
    ensures Presents(d.machine.steps, bytes, operation)
    ensures d.Running? ==>
              && Underway(d.machine.steps, bytes, operation, input[d.offset..])
              && Covered(d.machine.steps, operation, input[d.offset..], d.budget.inputBytes)
    ensures d.Stopped? ==>
              && d.result.consumed == |input|
              && Closed(d.machine.steps, bytes, operation)
              && (d.result.state == Finished <==> operation == Finish && Completes(d.machine.steps, Finish))
              && (d.result.state == Flushed <==> operation == Flush && Completes(d.machine.steps, Flush))
  {
    StepPresents(steps, r, bytes, operation, input, offset, budget.inputBytes);
  }

  lemma RoundKeeps<S>(step: StepFn<S>, limits: Limits, start: S, base: seq<StepRecord>, handed: seq<Packet>,
                      bytes: seq<byte>, m: Machine<S>, operation: Operation, input: seq<byte>, offset: nat,
                      budget: WorkBudget)
    requires offset <= |input|
    requires Sound(step, limits, start, base, handed, m)
    requires Underway(m.steps, bytes, operation, input[offset..])
    requires Covered(m.steps, operation, input[offset..], budget.inputBytes)
    ensures var d := Round(step, limits, m, operation, input, offset, budget);
            if d.Stopped? then
              DriveOk(step, limits, start, base, handed, bytes, operation, input, d)
            else
              && Sound(step, limits, start, base, handed, d.machine)
              && Underway(d.machine.steps, bytes, operation, input[d.offset..])
              && Covered(d.machine.steps, operation, input[d.offset..], d.budget.inputBytes)
  {
    hide Sound, Underway, Covered, Closed, Round, TryStep, Took;
    var end := offset + budget.InputLimit(|input| - offset);
    var a := TryStep(step, limits, m, ShownOperation(operation, input, end), input[offset..end]);
    if budget.CanStep(offset < |input|) && a.Stepped? {
      StepIsSound(step, limits, start, base, handed, m, ShownOperation(operation, input, end), input[offset..end]);
      var r := RoundTakesStep(step, limits, m, operation, input, offset, budget);
      TookKeeps(m.steps, bytes, operation, input, offset, budget, r,
                Round(step, limits, m, operation, input, offset, budget));
    } else {
      RoundWithoutStep(step, limits, m, operation, input, offset, budget);
    }
  }

  /** Driving a buffer keeps all of this, for every codec and every budget. */
  lemma {:induction false} DriveKeeps<S>(
      step: StepFn<S>, limits: Limits, start: S, base: seq<StepRecord>, handed: seq<Packet>,
      bytes: seq<byte>, m: Machine<S>, operation: Operation, input: seq<byte>, offset: nat, budget: WorkBudget)
    requires offset <= |input|
    requires Sound(step, limits, start, base, handed, m)
    requires Underway(m.steps, bytes, operation, input[offset..])
    requires Covered(m.steps, operation, input[offset..], budget.inputBytes)
    ensures DriveOk(step, limits, start, base, handed, bytes, operation, input,
                    DriveFrom(step, limits, m, operation, input, offset, budget))
    decreases budget.codecSteps
  {
    RoundKeeps(step, limits, start, base, handed, bytes, m, operation, input, offset, budget);
    var d := Round(step, limits, m, operation, input, offset, budget);
    if d.Running? {
      DriveKeeps(step, limits, start, base, handed, bytes, d.machine, operation, input, d.offset, d.budget);
    }
  }
}
