/**
 * The deflate library behind the gzip and deflate codings (codecs/src/flate/mod.rs), as its contract,
 * and the `deflate` adapter over it (codecs/src/flate/deflate.rs).
 */
module Flate {
  import opened Wrappers
  import opened Progress
  import opened Codec
  import opened OutputPool
  import opened Transcript
  import opened Filter
  import opened FilterInput
  import opened FilterRuns
  import opened FilterGate
  import opened FilterOutput
  import opened Honesty
  import opened Liveness
  import opened Protocol

  /** One library call: what FlateCore::run reads off the stream's counters and status. */
  datatype Ran<+D> =
    | RunFailed(next: D)
    | Ran(next: D, consumed: nat, bytes: seq<byte>, ended: bool)

  type RunFn<!D> = (D, Operation, seq<byte>, nat) -> Ran<D>

  /** A deflate stream: its call, its fresh state, and what the contract says about any state `d`:
      whether it may stand in a mode, all it was fed, all it emitted, what it still owes without more
      input, the capacity from which it completes a flush, and the decoder its output is meant for. */
  datatype Deflater<!D> = Deflater(
    run: RunFn<D>,
    initial: D,
    inv: (D, Mode) -> bool,
    fed: D -> seq<byte>,
    emitted: D -> seq<byte>,
    owed: D -> nat,
    least: nat,
    inflate: seq<byte> -> Option<seq<byte>>)

  function DeriveState(operation: Operation, inputDrained: bool, outputFull: bool, ended: bool): StepState {
    if ended then Complete
    else if operation == Continue then (if inputDrained then NeedsInput else NeedsOutput)
    else if outputFull then NeedsOutput
    else Complete
  }

  /** The mode the stream itself is in after a call: a flush is over once it leaves output space unused. */
  function RanMode(operation: Operation, offered: nat, capacity: nat, consumed: nat, produced: nat, ended: bool): Mode
    requires consumed <= offered
  {
    After(operation, offered, consumed, DeriveState(operation, consumed == offered, produced == capacity, ended))
  }

  /** zlib's promises for one call, at any capacity. */
  ghost predicate RunsWell<D(!new)>(core: Deflater<D>, d: D, mode: Mode, operation: Operation, input: seq<byte>,
                                    capacity: nat) {
    var r := core.run(d, operation, input, capacity);
    && r.Ran?
    && r.consumed <= |input| && |r.bytes| <= capacity
    // it stops only when the input is drained or the output is full
    && (r.consumed == |input| || |r.bytes| == capacity)
    // a finish that has not ended filled the output; one that has, drained the input
    && (operation == Finish && !r.ended ==> |r.bytes| == capacity)
    && (r.ended ==> operation == Finish && r.consumed == |input|)
    // the running totals, and what they are worth at the end
    && core.fed(r.next) == core.fed(d) + input[..r.consumed]
    && core.emitted(r.next) == core.emitted(d) + r.bytes
    && (r.ended ==> core.inflate(core.emitted(r.next)) == Some(core.fed(r.next)))
    && core.inv(r.next, RanMode(operation, |input|, capacity, r.consumed, |r.bytes|, r.ended))
  }

  /** A call that takes nothing and fills the output leaves less to come, unless it is the first to show a boundary. */
  ghost predicate RunDrains<D(!new)>(core: Deflater<D>, d: D, mode: Mode, operation: Operation, input: seq<byte>,
                                     capacity: nat) {
    var r := core.run(d, operation, input, capacity);
    r.Ran? && r.consumed == 0 && |r.bytes| == capacity && !r.ended && (mode == Ready ==> operation == Continue) ==>
      core.owed(r.next) < core.owed(d)
  }

  /** What it owes goes out, given some room; but a flush needs `least` bytes of it. A flush that fills a smaller
      output may begin another marker at the next call, and so on for ever: zlib.h asks for more than six bytes. */
  ghost predicate Drains<D(!new)>(core: Deflater<D>) {
    forall d, mode, operation, input, capacity {:trigger RunDrains(core, d, mode, operation, input, capacity)} ::
      core.inv(d, mode) && Legal(mode, operation, |input|) && Ample(capacity, core.least, operation) ==>
        RunDrains(core, d, mode, operation, input, capacity)
  }

  ghost predicate Zlib<D(!new)>(core: Deflater<D>) {
    && core.inv(core.initial, Ready)
    && core.fed(core.initial) == [] && core.emitted(core.initial) == []
    && forall d, mode, operation, input, capacity {:trigger RunsWell(core, d, mode, operation, input, capacity)} ::
         core.inv(d, mode) && Legal(mode, operation, |input|) ==> RunsWell(core, d, mode, operation, input, capacity)
  }

  // ----- the deflate adapter -----

  function DeflateCall<D>(core: Deflater<D>, d: D, operation: Operation, input: seq<byte>, capacity: nat): Reply<D> {
    match core.run(d, operation, input, capacity)
    case RunFailed(next) => Backend(next)
    case Ran(next, consumed, bytes, ended) =>
      Reply.Stepped(next, consumed, bytes,
                    DeriveState(operation, consumed == |input|, |bytes| == capacity, ended))
  }

  function DeflateStep<D>(core: Deflater<D>): StepFn<D> {
    (d: D, operation: Operation, input: seq<byte>, capacity: nat) => DeflateCall(core, d, operation, input, capacity)
  }

  function OwedByCore<D>(core: Deflater<D>): D -> Owed {
    (d: D) => Owed(0, core.owed(d))
  }

  /** Over any zlib, the adapter passes the progress contract in every mode it can be in, at every capacity, and
      never answers a flush or a finish with NeedsInput. */
  lemma DeflateIsHonest<D(!new)>(core: Deflater<D>)
    requires Zlib(core)
    ensures Honest(DeflateStep(core), core.inv, core.initial)
  {
    forall d, mode, operation, input: seq<byte>, capacity: nat | core.inv(d, mode) && Legal(mode, operation, |input|)
      ensures AnswersHonestly(DeflateStep(core), core.inv, d, operation, input, capacity)
    {
      assert RunsWell(core, d, mode, operation, input, capacity);
      assert DeflateStep(core)(d, operation, input, capacity) == DeflateCall(core, d, operation, input, capacity);
    }
  }

  /** Over a zlib that drains, it drains what it owes. */
  lemma DeflateDrains<D(!new)>(core: Deflater<D>)
    requires Zlib(core) && Drains(core)
    ensures Draining(DeflateStep(core), core.inv, OwedByCore(core), core.least)
  {
    forall d, mode, operation, input: seq<byte>, capacity: nat
      | core.inv(d, mode) && Legal(mode, operation, |input|) && Ample(capacity, core.least, operation)
      ensures DrainsAt(DeflateStep(core), OwedByCore(core), d, mode, operation, input, capacity)
    {
      assert RunsWell(core, d, mode, operation, input, capacity);
      assert RunDrains(core, d, mode, operation, input, capacity);
      assert DeflateStep(core)(d, operation, input, capacity) == DeflateCall(core, d, operation, input, capacity);
    }
  }

  /** Whatever the cuts, once the stream has ended its bytes inflate to all it was given. */
  lemma {:induction false} DeflateStream<D(!new)>(core: Deflater<D>, log: seq<StepRecord>)
    requires Zlib(core) && LegalLog(log) && Genuine(DeflateStep(core), core.initial, log)
    ensures var d := StateAfter(DeflateStep(core), core.initial, log);
            && core.inv(d, LogMode(log))
            && core.fed(d) == Consumed(log) && core.emitted(d) == Produced(log)
            && (LogMode(log) == Ended ==> core.inflate(Produced(log)) == Some(Consumed(log)))
  {
    if log != [] {
      var before, r := log[..|log| - 1], Last(log);
      DeflateStream(core, before);
      var d := StateAfter(DeflateStep(core), core.initial, before);
      assert RunsWell(core, d, LogMode(before), r.operation, r.offered, r.capacity);
      assert DeflateStep(core)(d, r.operation, r.offered, r.capacity)
          == DeflateCall(core, d, r.operation, r.offered, r.capacity);
    }
  }

  /**
   * Over every run of the filter: once the response is done, what the filter put on the wire inflates to the
   * arrived bytes up to the finish, and behind it are only the bytes of late buffers.
   */
  lemma {:induction false} DeflateOverTheWire<D(!new)>(
      core: Deflater<D>, limits: Limits, memory: nat, others: set<nat>, events: seq<Event>)
    requires Zlib(core)
    ensures var start := Start(core.initial, memory, others);
            var w := Run(DeflateStep(core), limits, start, events);
            var past := w.ctx.past;
            !w.failed && w.ctx.done ==>
              && past.arrived == Admitted(DeflateStep(core), limits, start, events)
              && 0 < |past.closed| <= |past.arrived|
              && core.inflate(Wire(past.handed)) == Some(Bytes(past.arrived[..|past.closed|]))
              && Wire(Received(past)) == Wire(past.handed) + Bytes(Late(DeflateStep(core), limits, start, events))
  {
    var step, start := DeflateStep(core), core.initial;
    var w := Run(step, limits, Start(start, memory, others), events);
    DeflateIsHonest(core);
    HonestRuns(step, core.inv, limits, start, memory, others, events);
    Conservation(step, limits, start, memory, others, events);
    MarksInOrder(step, limits, start, memory, others, events);
    if !w.failed && w.ctx.done {
      RunsLegally(step, core.inv, limits, start, w);
      DeflateStream(core, Log(w.ctx));
    }
  }

  /** Total correctness of the same, over a zlib that drains, with buffers large enough for the flushes there are. */
  lemma DeflateDelivers<D(!new)>(core: Deflater<D>, limits: Limits, memory: nat, others: set<nat>, events: seq<Event>,
                                 downstream: nat -> Downstream) returns (n: nat)
    requires Zlib(core) && Drains(core)
    requires var w := Run(DeflateStep(core), limits, Start(core.initial, memory, others), events);
             && !w.failed && FinishArrived(w.ctx) && Supplied(limits, w.ctx)
             && Roomy(limits, core.least, w.ctx.past.arrived)
             && RoomAgainAndAgain(DeflateStep(core), limits, w, downstream)
    ensures var start := Start(core.initial, memory, others);
            var w := Run(DeflateStep(core), limits, start, events + Reentries(downstream, n));
            var past := w.ctx.past;
            && !w.failed && w.ctx.done
            && 0 < |past.closed| <= |past.arrived|
            && core.inflate(Wire(past.handed)) == Some(Bytes(past.arrived[..|past.closed|]))
            && Wire(Received(past)) == Wire(past.handed) + Bytes(Late(DeflateStep(core), limits, start, events))
  {
    var step, start := DeflateStep(core), Start(core.initial, memory, others);
    DeflateIsHonest(core);
    DeflateDrains(core);
    n := RunsToTheEnd(step, core.inv, OwedByCore(core), core.least, limits, core.initial, memory, others, events,
                      downstream);
    DeflateOverTheWire(core, limits, memory, others, events + Reentries(downstream, n));
    ReentriesAreNotLate(step, limits, start, events, downstream, n);
  }
}
