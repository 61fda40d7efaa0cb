/**
 * Streaming codecs (core/src/codec.rs).
 *
 * A codec is a state and a step function. The step function is a value, so that
 * a statement about "any codec" quantifies over every step function, trusted or not.
 */
module Codec {
  import opened Wrappers
  import opened Progress

  /** What one step answers. `bytes` is what it claims to have written. */
  datatype Reply<+S> =
    | Backend(next: S)
    | Stepped(next: S, consumed: nat, bytes: seq<byte>, state: StepState)

  type StepFn<!S> = (S, Operation, seq<byte>, nat) -> Reply<S>

  datatype StepError = CodecBackend | InvalidProgress(error: ProgressError)

  datatype Checked<+S> =
    | Rejected(after: S, error: StepError)
    | Accepted(next: S, consumed: nat, bytes: seq<byte>, state: StepState)

  /** A step the caller may trust: the report has passed the progress contract. */
  function CheckedStep<S>(step: StepFn<S>, s: S, operation: Operation, input: seq<byte>, capacity: nat)
    : (r: Checked<S>)
    ensures r.Accepted? ==> r.consumed <= |input| && |r.bytes| <= capacity
  {
    match step(s, operation, input, capacity)
    case Backend(next) => Rejected(next, CodecBackend)
    case Stepped(next, consumed, bytes, state) =>
      match ValidateProgress(operation, |input|, capacity, StepResult(consumed, |bytes|, state))
      case Some(error) => Rejected(next, InvalidProgress(error))
      case None => Accepted(next, consumed, bytes, state)
  }

  /** One accepted step, as the codec saw it and answered it. */
  datatype StepRecord = StepRecord(
    operation: Operation,
    offered: seq<byte>,
    capacity: nat,
    consumed: nat,
    produced: seq<byte>,
    state: StepState)
  {
    /** The offered bytes the codec took. */
    function Taken(): seq<byte> {
      offered[..Min(consumed, |offered|)]
    }
  }

  /** All the bytes a codec took over `log`, in order. */
  function Consumed(log: seq<StepRecord>): seq<byte> {
    if log == [] then [] else Consumed(log[..|log| - 1]) + log[|log| - 1].Taken()
  }

  /** All the bytes a codec produced over `log`, in order. */
  function Produced(log: seq<StepRecord>): seq<byte> {
    if log == [] then [] else Produced(log[..|log| - 1]) + log[|log| - 1].produced
  }

  /** The state `step` is in after the calls of `log`, starting from `start`. */
  function StateAfter<S>(step: StepFn<S>, start: S, log: seq<StepRecord>): S {
    if log == [] then start
    else
      var r := log[|log| - 1];
      step(StateAfter(step, start, log[..|log| - 1]), r.operation, r.offered, r.capacity).next
  }

  /** `log` is what a codec started in `start` really answers, and every answer passed the contract. */
  ghost predicate Genuine<S>(step: StepFn<S>, start: S, log: seq<StepRecord>) {
    log == [] ||
    var before := log[..|log| - 1];
    var r := log[|log| - 1];
    && Genuine(step, start, before)
    && CheckedStep(step, StateAfter(step, start, before), r.operation, r.offered, r.capacity)
       == Accepted(StateAfter(step, start, log), r.consumed, r.produced, r.state)
  }

  /** Appending a record to a log appends its effect to every reading of the log. */
  lemma Snoc<S>(step: StepFn<S>, start: S, log: seq<StepRecord>, r: StepRecord)
    ensures Consumed(log + [r]) == Consumed(log) + r.Taken()
    ensures Produced(log + [r]) == Produced(log) + r.produced
    ensures StateAfter(step, start, log + [r])
         == step(StateAfter(step, start, log), r.operation, r.offered, r.capacity).next
    ensures Genuine(step, start, log + [r]) <==>
            && Genuine(step, start, log)
            && CheckedStep(step, StateAfter(step, start, log), r.operation, r.offered, r.capacity)
               == Accepted(StateAfter(step, start, log + [r]), r.consumed, r.produced, r.state)
  {
    assert (log + [r])[..|log|] == log;
  }

  lemma {:induction false} ConsumedAppend(a: seq<StepRecord>, b: seq<StepRecord>)
    ensures Consumed(a + b) == Consumed(a) + Consumed(b)
    decreases |b|
  {
    if b == [] {
      assert a + b == a;
    } else {
      ConsumedAppend(a, b[..|b| - 1]);
      AppendLast(a, b);
      Associate(Consumed(a), Consumed(b[..|b| - 1]), b[|b| - 1].Taken());
    }
  }

  lemma {:induction false} ProducedAppend(a: seq<StepRecord>, b: seq<StepRecord>)
    ensures Produced(a + b) == Produced(a) + Produced(b)
    decreases |b|
  {
    if b == [] {
      assert a + b == a;
    } else {
      ProducedAppend(a, b[..|b| - 1]);
      AppendLast(a, b);
      Associate(Produced(a), Produced(b[..|b| - 1]), b[|b| - 1].produced);
    }
  }
}
