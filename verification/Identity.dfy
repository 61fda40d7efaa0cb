/** The identity coding (codecs/src/identity.rs): bytes pass through unchanged. */
module Identity {
  import opened Wrappers
  import opened Progress
  import opened Codec
  import opened OutputPool
  import opened Stream
  import opened Filter
  import opened FilterInput
  import opened FilterRuns
  import opened FilterGate
  import opened FilterOutput
  import opened Honesty
  import opened Liveness

  function IdentityCall(operation: Operation, input: seq<byte>, capacity: nat): Reply<()> {
    var moved := Min(|input|, capacity);
    var drained := moved == |input|;
    var state :=
      if !drained then NeedsOutput
      else if operation == Continue then NeedsInput
      else Complete;
    Reply.Stepped((), moved, input[..moved], state)
  }

  function IdentityStep(): StepFn<()> {
    (s: (), operation: Operation, input: seq<byte>, capacity: nat) => IdentityCall(operation, input, capacity)
  }

  /** copy_from_slice into a writable region, in place. */
  method Step(operation: Operation, input: seq<byte>, output: array<byte>) returns (result: StepResult)
    modifies output
    ensures var r := IdentityCall(operation, input, output.Length);
            && result == StepResult(r.consumed, |r.bytes|, r.state)
            && output[..result.produced] == r.bytes
            && output[result.produced..] == old(output[..])[result.produced..]
  {
    var moved := Min(|input|, output.Length);
    for i := 0 to moved
      invariant output[..i] == input[..i]
      invariant output[i..] == old(output[..])[i..]
    {
      output[i] := input[i];
    }
    var drained := moved == |input|;
    result := StepResult(moved, moved,
                         if !drained then NeedsOutput else if operation == Continue then NeedsInput else Complete);
  }

  function Always(): ((), Mode) -> bool {
    (s: (), mode: Mode) => true
  }

  function Nothing(): (()) -> Owed {
    (s: ()) => Owed(0, 0)
  }

  /** Identity passes the progress contract in every mode and at every capacity, and owes nothing. */
  lemma IdentityIsHonest()
    ensures Honest(IdentityStep(), Always(), ())
    ensures Draining(IdentityStep(), Always(), Nothing(), 0)
  {
    forall s: (), mode, operation, input: seq<byte>, capacity: nat
      | Legal(mode, operation, |input|)
      ensures AnswersHonestly(IdentityStep(), Always(), s, operation, input, capacity)
    {
      assert s == ();
    }
    forall s: (), mode, operation, input: seq<byte>, capacity: nat | capacity > 0
      ensures DrainsAt(IdentityStep(), Nothing(), s, mode, operation, input, capacity)
    {
      assert s == ();
    }
  }

  lemma {:induction false} IdentityCopies(log: seq<StepRecord>)
    requires Genuine(IdentityStep(), (), log)
    ensures Produced(log) == Consumed(log)
  {
    if log != [] {
      var r := log[|log| - 1];
      IdentityCopies(log[..|log| - 1]);
      assert IdentityStep()(StateAfter(IdentityStep(), (), log[..|log| - 1]), r.operation, r.offered, r.capacity)
          == IdentityCall(r.operation, r.offered, r.capacity);
    }
  }

  /**
   * Budget and buffer stops change no byte. Over every run, what the filter has put on the wire is the
   * arrived bytes up to where the codec stands; when the response is done it is exactly the arrived buffers
   * up to the one that carried the finish. Nothing is on the wire behind that but the bytes of late buffers.
   */
  lemma {:induction false} IdentityOverTheWire(limits: Limits, memory: nat, others: set<nat>, events: seq<Event>)
    ensures var start := Start((), memory, others);
            var w := Run(IdentityStep(), limits, start, events);
            var past := w.ctx.past;
            !w.failed ==>
              past.arrived == Admitted(IdentityStep(), limits, start, events) &&
              if w.ctx.done then
                && 0 < |past.closed| <= |past.arrived|
                && var data := Bytes(past.arrived[..|past.closed|]);
                && Wire(past.handed) == data
                && Wire(Received(past)) == data + Bytes(Late(IdentityStep(), limits, start, events))
              else
                && Received(past) == past.handed
                && Wire(past.handed) + Bytes(w.ctx.input) == Bytes(past.arrived)
  {
    var w := Run(IdentityStep(), limits, Start((), memory, others), events);
    RunKeeps(IdentityStep(), limits, (), memory, others, events);
    Conservation(IdentityStep(), limits, (), memory, others, events);
    MarksInOrder(IdentityStep(), limits, (), memory, others, events);
    PassedIsLate(IdentityStep(), limits, (), memory, others, events);
    if !w.failed {
      IdentityCopies(Log(w.ctx));
      assert !w.ctx.done ==> w.ctx.past.handed + [] == w.ctx.past.handed;
    }
  }

  /** Total correctness: once a finish has arrived, and while the pool has room again and again, finitely
      many callbacks put exactly the arrived bytes on the wire, and behind them only what was already late. */
  lemma IdentityDelivers(limits: Limits, memory: nat, others: set<nat>, events: seq<Event>,
                         downstream: nat -> Downstream) returns (n: nat)
    requires limits.bufferSize > 0
    requires var w := Run(IdentityStep(), limits, Start((), memory, others), events);
             && !w.failed && FinishArrived(w.ctx) && Supplied(limits, w.ctx)
             && RoomAgainAndAgain(IdentityStep(), limits, w, downstream)
    ensures var start := Start((), memory, others);
            var w := Run(IdentityStep(), limits, start, events + Reentries(downstream, n));
            var past := w.ctx.past;
            && !w.failed && w.ctx.done
            && 0 < |past.closed| <= |past.arrived|
            && var data := Bytes(past.arrived[..|past.closed|]);
            && Wire(past.handed) == data
            && Wire(Received(past)) == data + Bytes(Late(IdentityStep(), limits, start, events))
  {
    IdentityIsHonest();
    n := RunsToTheEnd(IdentityStep(), Always(), Nothing(), 0, limits, (), memory, others, events, downstream);
    IdentityOverTheWire(limits, memory, others, events + Reentries(downstream, n));
    ReentriesAreNotLate(IdentityStep(), limits, Start((), memory, others), events, downstream, n);
  }

  /** One buffer with a finish, and the response is done. */
  lemma OneFinish(finish: InBuf, down: Downstream)
    requires finish == InBuf(1, [7], true, false, false, true)
    ensures var c := Compress(IdentityStep(), Limits(1, 1), Start((), 2, {}).ctx, [finish]).ctx;
            && Compress(IdentityStep(), Limits(1, 1), Start((), 2, {}).ctx, [finish]) == Return(c, Success(false))
            && c.done && c.pool.out == [Packet([7], false, true)] && c.past.handed == [] && c.past.passed == []
  {
    var step, limits := IdentityStep(), Limits(1, 1);
    var w0 := Start((), 2, {});
    var c1 := Enqueue(w0.ctx, finish);
    assert [finish][1..] == [];
    assert AppendInput(w0.ctx, [finish]) == (c1, None);
    var m1 := Machine((), c1.pool, []);
    var bytes: seq<byte> := [7];
    assert bytes[0..1] == bytes && bytes[..1] == bytes;
    var record := StepRecord(Finish, bytes, 1, 1, bytes, Complete);
    var packet := Packet(bytes, false, true);
    var m2 := Machine((), c1.pool.(memory := 0, allocatedBuffers := 1, out := [packet]), [record]);
    assert step((), Finish, bytes, 1) == IdentityCall(Finish, bytes, 1);
    assert TryStep(step, limits, m1, Finish, bytes) == Attempt.Stepped(m2, record);
    hide TryStep;
    var d := Stopped(m2, WorkBudget(65535, 31), Outcome(1, Finished));
    assert Round(step, limits, m1, Finish, bytes, 0, PER_CALLBACK) == d;
    assert DriveCtx(step, limits, c1, Finish, bytes, PER_CALLBACK) == d;
    hide DriveCtx, Round;
    assert c1.input == [finish] && c1.input[1..] == [];
    var c2 := CloseBuffer(Absorb(c1, m2).(input := [], done := true));
    assert Settle(c1, d) == Return(c2, Success(false));
    assert ServeHead(step, limits, c1, PER_CALLBACK) == Return(c2, Success(false));
    assert ServeQueue(step, limits, c1, PER_CALLBACK) == Return(c2, Success(false));
  }

  /** The filter does not keep its promise by itself: it hands on what comes after the end. Here downstream gets
      a second `last_buf` behind the finished response. */
  lemma LateBytesFollowTheResponse(down: Downstream)
    ensures var finish, late := InBuf(1, [7], true, false, false, true), InBuf(2, [9], true, false, false, true);
            var w := Run(IdentityStep(), Limits(1, 1), Start((), 2, {}), [Call([finish], down), Call([late], down)]);
            && !w.failed && w.ctx.done
            && Received(w.ctx.past) == [Packet([7], false, true), Packet([9], false, true)]
  {
    var finish, late := InBuf(1, [7], true, false, false, true), InBuf(2, [9], true, false, false, true);
    OneFinish(finish, down);
    hide Compress, UpdateChains;
    var w0 := Start((), 2, {});
    var events := [Call([finish], down), Call([late], down)];
    assert events[..1] == [Call([finish], down)] && events[..1][..0] == [];
    var w1 := Next(IdentityStep(), Limits(1, 1), w0, events[0]);
    assert Run(IdentityStep(), Limits(1, 1), w0, events[..1]) == w1;
    assert Run(IdentityStep(), Limits(1, 1), w0, events) == Next(IdentityStep(), Limits(1, 1), w1, events[1]);
    assert [] + [late] == [late] && [late][..0] == [];
    assert RawPackets([late]) == [RawPacket(late)];
  }
}
