/**
 * Boundaries, in and out: what the codec is shown of each buffer over all callbacks,
 * and which marks downstream receives. All for every codec and every run.
 */
module FilterOutput {
  import opened Wrappers
  import opened Progress
  import opened Codec
  import opened OutputPool
  import opened Transcript
  import opened Filter
  import opened FilterInvariant
  import opened FilterRuns
  import opened FilterGate

  /** Some Continues, then only `operation`. */
  ghost predicate ContinuesThen(log: seq<StepRecord>, operation: Operation) {
    exists m :: SwitchesAt(log, operation, m)
  }

  ghost predicate SwitchesAt(log: seq<StepRecord>, operation: Operation, m: int) {
    && 0 <= m <= |log|
    && (forall i :: 0 <= i < m ==> log[i].operation == Continue)
    && (forall i :: m <= i < |log| ==> log[i].operation == operation)
  }

  /** The boundary a step completed, if any. */
  function BoundaryAt(r: StepRecord): Boundary {
    BoundaryOf(r.operation, r.state)
  }

  /** Only the closing step of a buffer can complete a boundary. */
  lemma {:induction false} OnlyTheLastStepCompletes(log: seq<StepRecord>, bytes: seq<byte>, operation: Operation)
    requires Presents(log, bytes, operation)
    ensures ContinuesThen(log, operation)
    ensures forall i :: 0 <= i < |log| - 1 ==> BoundaryAt(log[i]) == NoBoundary
    ensures log != [] && !Closes(log, bytes, operation) ==> BoundaryAt(Last(log)) == NoBoundary
    ensures log != [] && BoundaryAt(Last(log)) != NoBoundary ==>
              Completes(log, operation) && BoundaryAt(Last(log)) == BoundaryOf(operation, Complete)
    ensures Completes(log, operation) ==> BoundaryAt(Last(log)) != NoBoundary
  {
    var m := ContinuesThenOwnOperation(log, bytes, operation);
    assert SwitchesAt(log, operation, m);
    if log != [] {
      var before, r := log[..|log| - 1], Last(log);
      OnlyTheLastStepCompletes(before, bytes, operation);
      PresentsPrefix(before, bytes, operation);
      if BoundaryAt(r) != NoBoundary {
        assert r.operation == operation;
        assert r.Taken() == r.offered;
      }
      forall i | 0 <= i < |log| - 1 ensures BoundaryAt(log[i]) == NoBoundary {
        assert log[i] == before[i];
        assert !Closes(before, bytes, operation);
        if i == |before| - 1 { assert log[i] == Last(before); }
      }
    }
  }

  /**
   * Boundary discipline. Over all callbacks, each buffer is shown as some Continues and then only
   * its own operation; it is taken whole before the next one is touched, and no step before its
   * last one completes anything. What is underway has completed nothing yet.
   */
  lemma {:induction false} BoundaryDiscipline<S>(step: StepFn<S>, limits: Limits, codec: S, memory: nat,
                                                 others: set<nat>, events: seq<Event>)
    ensures var w := Run(step, limits, Start(codec, memory, others), events);
            var past := w.ctx.past;
            !w.failed ==>
              && |past.closed| <= |past.arrived|
              && (forall k :: 0 <= k < |past.closed| ==>
                    && ContinuesThen(past.closed[k], past.arrived[k].operation)
                    && Consumed(past.closed[k]) == past.arrived[k].bytes
                    && (forall i :: 0 <= i < |past.closed[k]| - 1 ==> BoundaryAt(past.closed[k][i]) == NoBoundary))
              && (past.open != [] ==>
                    && |past.closed| < |past.arrived|
                    && ContinuesThen(past.open, past.arrived[|past.closed|].operation)
                    && (forall i :: 0 <= i < |past.open| ==> BoundaryAt(past.open[i]) == NoBoundary))
  {
    var w := Run(step, limits, Start(codec, memory, others), events);
    RunKeeps(step, limits, codec, memory, others, events);
    if !w.failed {
      var past := w.ctx.past;
      forall k | 0 <= k < |past.closed|
        ensures ContinuesThen(past.closed[k], past.arrived[k].operation)
        ensures forall i :: 0 <= i < |past.closed[k]| - 1 ==> BoundaryAt(past.closed[k][i]) == NoBoundary
      {
        OnlyTheLastStepCompletes(past.closed[k], past.arrived[k].bytes, past.arrived[k].operation);
      }
      if past.open != [] {
        OpenCompletesNothing(w.ctx);
      }
    }
  }

  lemma OpenCompletesNothing<S>(c: Ctx<S>)
    requires Standing(c) && c.past.open != []
    ensures |c.past.closed| < |c.past.arrived|
    ensures ContinuesThen(c.past.open, c.past.arrived[|c.past.closed|].operation)
    ensures forall i :: 0 <= i < |c.past.open| ==> BoundaryAt(c.past.open[i]) == NoBoundary
  {
    var b := c.past.arrived[|c.past.closed|];
    OnlyTheLastStepCompletes(c.past.open, b.bytes, b.operation);
  }

  // ----- marks -----

  function MarkOf(p: Packet): seq<Boundary> {
    if p.lastBuf then [FinishBoundary] else if p.flush then [FlushBoundary] else []
  }

  /** The marks downstream sees, in order. */
  function Marks(packets: seq<Packet>): seq<Boundary> {
    if packets == [] then [] else Marks(packets[..|packets| - 1]) + MarkOf(packets[|packets| - 1])
  }

  function StepMark(r: StepRecord): seq<Boundary> {
    if BoundaryAt(r) == NoBoundary then [] else [BoundaryAt(r)]
  }

  /** The boundaries the steps of a log completed. */
  function Completions(log: seq<StepRecord>): seq<Boundary> {
    if log == [] then [] else Completions(log[..|log| - 1]) + StepMark(log[|log| - 1])
  }

  /** Every completed boundary marks one packet, and nothing else does. */
  lemma {:induction false} MarksAreCompletions(log: seq<StepRecord>)
    ensures Marks(Packets(log)) == Completions(log)
  {
    if log != [] {
      var before, r := log[..|log| - 1], log[|log| - 1];
      MarksAreCompletions(before);
      var emitted := Emission(r.operation, r.produced, r.state);
      if emitted != [] {
        assert (Packets(before) + emitted)[..|Packets(before)|] == Packets(before);
      } else {
        assert Packets(before) + [] == Packets(before);
      }
    }
  }

  lemma {:induction false} CompletionsAppend(a: seq<StepRecord>, b: seq<StepRecord>)
    ensures Completions(a + b) == Completions(a) + Completions(b)
    decreases |b|
  {
    if b == [] {
      assert a + b == a;
    } else {
      CompletionsAppend(a, b[..|b| - 1]);
      AppendLast(a, b);
      Associate(Completions(a), Completions(b[..|b| - 1]), StepMark(b[|b| - 1]));
    }
  }

  lemma {:induction false} QuietLog(log: seq<StepRecord>)
    requires forall i :: 0 <= i < |log| ==> BoundaryAt(log[i]) == NoBoundary
    ensures Completions(log) == []
  {
    if log != [] {
      QuietLog(log[..|log| - 1]);
    }
  }

  /** The mark a closed buffer leaves: its own, when its boundary was completed. */
  function MarkOfBuffer(log: seq<StepRecord>, operation: Operation): seq<Boundary> {
    if Completes(log, operation) then [BoundaryOf(operation, Complete)] else []
  }

  lemma ClosedMarks(log: seq<StepRecord>, bytes: seq<byte>, operation: Operation)
    requires Closed(log, bytes, operation)
    ensures Completions(log) == MarkOfBuffer(log, operation)
  {
    OnlyTheLastStepCompletes(log, bytes, operation);
    QuietLog(log[..|log| - 1]);
  }

  /** The marks of the first n buffers, in the order the buffers arrived. */
  function MarksOfBuffers(past: Past, n: nat): seq<Boundary>
    requires n <= |past.closed| && n <= |past.arrived|
  {
    if n == 0 then []
    else MarksOfBuffers(past, n - 1) + MarkOfBuffer(past.closed[n - 1], past.arrived[n - 1].operation)
  }

  lemma {:induction false} FlattenedMarks(past: Past, done: bool, n: nat)
    requires BuffersClosed(past, done) && n <= |past.closed|
    ensures Completions(Flatten(past.closed[..n])) == MarksOfBuffers(past, n)
  {
    if n == 0 {
      assert past.closed[..n] == [];
    } else {
      hide Flatten, Closed, Completions, MarkOfBuffer;
      FlattenedMarks(past, done, n - 1);
      var log, b := past.closed[n - 1], past.arrived[n - 1];
      assert Closed(log, b.bytes, b.operation);
      OneMoreMark(past, n, log, b);
    }
  }

  lemma OneMoreMark(past: Past, n: nat, log: seq<StepRecord>, b: InBuf)
    requires 0 < n <= |past.closed|
    requires log == past.closed[n - 1] && Closed(log, b.bytes, b.operation)
    ensures Completions(Flatten(past.closed[..n]))
         == Completions(Flatten(past.closed[..n - 1])) + MarkOfBuffer(log, b.operation)
  {
    hide Flatten, Closed, Completions, MarkOfBuffer;
    ClosedMarks(log, b.bytes, b.operation);
    FlattenedMarksSnoc(past.closed[..n - 1], log);
    assert past.closed[..n] == past.closed[..n - 1] + [log];
  }

  lemma FlattenedMarksSnoc(parts: seq<seq<StepRecord>>, log: seq<StepRecord>)
    ensures Completions(Flatten(parts + [log])) == Completions(Flatten(parts)) + Completions(log)
  {
    FlattenSnoc(parts, log);
    CompletionsAppend(Flatten(parts), log);
  }

  /** Between callbacks downstream has been handed every packet the codec's steps emitted, in order. */
  lemma HandedIsPackets<S>(step: StepFn<S>, limits: Limits, start: S, w: World<S>)
    requires WorldOk(step, limits, start, w) && !w.failed
    ensures w.ctx.past.handed == Packets(Log(w.ctx))
  {
    assert w.ctx.past.handed + w.ctx.pool.out == w.ctx.past.handed;
  }

  lemma {:induction false} MarksAppend(a: seq<Packet>, b: seq<Packet>)
    ensures Marks(a + b) == Marks(a) + Marks(b)
    decreases |b|
  {
    if b == [] {
      assert a + b == a;
    } else {
      MarksAppend(a, b[..|b| - 1]);
      AppendLast(a, b);
      Associate(Marks(a), Marks(b[..|b| - 1]), MarkOf(b[|b| - 1]));
    }
  }

  /**
   * The marks downstream has received from the filter are, in order, those of the buffers whose flush or
   * finish completed, one each and no other; and its bytes are the codec's, unbroken. Behind them come the
   * late buffers, with the bytes and the marks they came with.
   */
  lemma MarksInOrder<S>(step: StepFn<S>, limits: Limits, codec: S, memory: nat, others: set<nat>, events: seq<Event>)
    ensures var w := Run(step, limits, Start(codec, memory, others), events);
            var past := w.ctx.past;
            var late := Late(step, limits, Start(codec, memory, others), events);
            !w.failed ==>
              && |past.closed| <= |past.arrived|
              && Marks(past.handed) == MarksOfBuffers(past, |past.closed|)
              && Marks(Received(past)) == MarksOfBuffers(past, |past.closed|) + Marks(RawPackets(late))
              && Wire(past.handed) == Produced(Log(w.ctx))
              && Wire(Received(past)) == Produced(Log(w.ctx)) + Bytes(late)
  {
    var w := Run(step, limits, Start(codec, memory, others), events);
    RunKeeps(step, limits, codec, memory, others, events);
    if !w.failed {
      var past := w.ctx.past;
      HandedIsPackets(step, limits, codec, w);
      assert past.closed[..|past.closed|] == past.closed;
      FlattenedMarks(past, w.ctx.done, |past.closed|);
      CompletionsAppend(Flatten(past.closed), past.open);
      if past.open != [] {
        OpenCompletesNothing(w.ctx);
      }
      QuietLog(past.open);
      MarksAreCompletions(Log(w.ctx));
      WireIsProduced(Log(w.ctx));
      PassedIsLate(step, limits, codec, memory, others, events);
      MarksAppend(past.handed, RawPackets(past.passed));
      ReceivedWire(past);
    }
  }

  // ----- the last buffer -----

  ghost predicate NoFinish(log: seq<StepRecord>) {
    forall i :: 0 <= i < |log| ==> BoundaryAt(log[i]) != FinishBoundary
  }

  lemma {:induction false} NoFinishNoLastBuf(log: seq<StepRecord>)
    requires NoFinish(log)
    ensures forall i :: 0 <= i < |Packets(log)| ==> !Packets(log)[i].lastBuf
  {
    if log != [] {
      var before, r := log[..|log| - 1], log[|log| - 1];
      assert forall i :: 0 <= i < |before| ==> before[i] == log[i];
      NoFinishNoLastBuf(before);
      var emitted := Emission(r.operation, r.produced, r.state);
      assert |emitted| <= 1 && (emitted != [] ==> !emitted[0].lastBuf);
      hide Emission, BoundaryAt;
      assert Packets(log) == Packets(before) + emitted;
      hide Packets;
    }
  }

  lemma NoFinishAppend(a: seq<StepRecord>, b: seq<StepRecord>)
    ensures NoFinish(a + b) <==> NoFinish(a) && NoFinish(b)
  {
    assert forall i :: 0 <= i < |a| ==> (a + b)[i] == a[i];
    assert forall i :: 0 <= i < |b| ==> (a + b)[|a| + i] == b[i];
  }

  lemma ClosedBufferFinishes(log: seq<StepRecord>, bytes: seq<byte>, operation: Operation)
    requires Closed(log, bytes, operation)
    ensures NoFinish(log[..|log| - 1])
    ensures BoundaryAt(Last(log)) == FinishBoundary <==> Completes(log, Finish)
  {
    OnlyTheLastStepCompletes(log, bytes, operation);
  }

  lemma {:induction false} ClosedWithoutFinish(past: Past, done: bool, n: nat)
    requires BuffersClosed(past, done) && n <= |past.closed| && (done ==> n < |past.closed|)
    ensures NoFinish(Flatten(past.closed[..n]))
  {
    if n > 0 {
      var log, b := past.closed[n - 1], past.arrived[n - 1];
      ClosedWithoutFinish(past, done, n - 1);
      ClosedBufferFinishes(log, b.bytes, b.operation);
      assert !Completes(log, Finish);
      assert log == log[..|log| - 1] + [Last(log)];
      NoFinishAppend(log[..|log| - 1], [Last(log)]);
      NoFinishAppend(Flatten(past.closed[..n - 1]), log);
      assert past.closed[..n] == past.closed[..n - 1] + [log];
      FlattenSnoc(past.closed[..n - 1], log);
    }
  }

  /** No packet but the last carries `last_buf`. */
  ghost predicate EndsWithLastBuf(packets: seq<Packet>) {
    forall i :: 0 <= i < |packets| && packets[i].lastBuf ==> i == |packets| - 1
  }

  /** The filter gives downstream `last_buf` exactly when the response is done, on its last packet and on no
      other. Nothing follows it downstream if and only if no buffer is late: no call made once the response is
      done brings a chain. */
  lemma {:induction false} LastBufIsLast<S>(step: StepFn<S>, limits: Limits, codec: S, memory: nat, others: set<nat>,
                                            events: seq<Event>)
    ensures var w := Run(step, limits, Start(codec, memory, others), events);
            var handed := w.ctx.past.handed;
            !w.failed ==>
              && (forall i :: 0 <= i < |handed| && handed[i].lastBuf ==> w.ctx.done && i == |handed| - 1)
              && (w.ctx.done ==> handed != [] && handed[|handed| - 1].lastBuf)
              && (EndsWithLastBuf(Received(w.ctx.past)) <==>
                    Late(step, limits, Start(codec, memory, others), events) == [])
  {
    var w := Run(step, limits, Start(codec, memory, others), events);
    RunKeeps(step, limits, codec, memory, others, events);
    if !w.failed {
      HandedIsPackets(step, limits, codec, w);
      if w.ctx.done {
        DoneEndsWithFinish(w.ctx);
      } else {
        UnfinishedHasNoLastBuf(w.ctx);
      }
      PassedIsLate(step, limits, codec, memory, others, events);
      LateFollows(w.ctx.past, w.ctx.done);
    }
  }

  lemma LateFollows(past: Past, done: bool)
    requires EndsWithLastBuf(past.handed)
    requires past.passed != [] ==> past.handed != [] && past.handed[|past.handed| - 1].lastBuf
    ensures EndsWithLastBuf(Received(past)) <==> past.passed == []
  {
    var received := Received(past);
    if past.passed == [] {
      assert received == past.handed;
    } else {
      assert received[|past.handed| - 1].lastBuf && |past.handed| - 1 < |received| - 1;
    }
  }

  /** A call that comes too late: whatever the codec, its buffers follow the finished response as they are. */
  lemma LateCallGoesThrough<S>(step: StepFn<S>, limits: Limits, codec: S, memory: nat, others: set<nat>,
                               events: seq<Event>, chain: seq<InBuf>, down: Downstream)
    requires var w := Run(step, limits, Start(codec, memory, others), events);
             !w.failed && w.ctx.done
    requires chain != []
    ensures var w := Run(step, limits, Start(codec, memory, others), events);
            var w' := Run(step, limits, Start(codec, memory, others), events + [Call(chain, down)]);
            && !w'.failed && w'.ctx.done
            && Wire(Received(w'.ctx.past)) == Wire(Received(w.ctx.past)) + Bytes(chain)
            && Marks(Received(w'.ctx.past)) == Marks(Received(w.ctx.past)) + Marks(RawPackets(chain))
            && !EndsWithLastBuf(Received(w'.ctx.past))
  {
    var all := events + [Call(chain, down)];
    var w := Run(step, limits, Start(codec, memory, others), events);
    var w' := Run(step, limits, Start(codec, memory, others), all);
    LastBufIsLast(step, limits, codec, memory, others, events);
    assert all[..|all| - 1] == events;
    assert w' == Next(step, limits, w, Call(chain, down));
    hide Run;
    NextPasses(step, limits, w, Call(chain, down));
    hide Next;
    PassingFollows(w.ctx.past, w'.ctx.past, chain);
    LateFollows(w'.ctx.past, true);
  }

  lemma PassingFollows(past: Past, past': Past, chain: seq<InBuf>)
    requires past'.handed == past.handed && past'.passed == past.passed + chain
    ensures Wire(Received(past')) == Wire(Received(past)) + Bytes(chain)
    ensures Marks(Received(past')) == Marks(Received(past)) + Marks(RawPackets(chain))
  {
    RawAppend(past.passed, chain);
    Associate(past.handed, RawPackets(past.passed), RawPackets(chain));
    MarksAppend(Received(past), RawPackets(chain));
    WireAppend(Received(past), RawPackets(chain));
    RawWire(chain);
  }

  lemma DoneEndsWithFinish<S>(c: Ctx<S>)
    requires BuffersClosed(c.past, c.done) && Standing(c) && c.done
    ensures var packets := Packets(Log(c));
            && packets != [] && packets[|packets| - 1].lastBuf
            && forall i :: 0 <= i < |packets| - 1 ==> !packets[i].lastBuf
  {
    var n := |c.past.closed|;
    var final, b := c.past.closed[n - 1], c.past.arrived[n - 1];
    var earlier := Flatten(c.past.closed[..n - 1]);
    ClosedWithoutFinish(c.past, true, n - 1);
    ClosedBufferFinishes(final, b.bytes, b.operation);
    assert c.past.closed == c.past.closed[..n - 1] + [final];
    FlattenSnoc(c.past.closed[..n - 1], final);
    var before := earlier + final[..|final| - 1];
    assert Log(c) == before + [Last(final)];
    NoFinishAppend(earlier, final[..|final| - 1]);
    NoFinishNoLastBuf(before);
    PacketsSnoc(before, Last(final));
  }

  lemma UnfinishedHasNoLastBuf<S>(c: Ctx<S>)
    requires BuffersClosed(c.past, c.done) && Standing(c) && !c.done
    ensures forall i :: 0 <= i < |Packets(Log(c))| ==> !Packets(Log(c))[i].lastBuf
  {
    ClosedWithoutFinish(c.past, false, |c.past.closed|);
    assert c.past.closed[..|c.past.closed|] == c.past.closed;
    if c.past.open != [] {
      OpenCompletesNothing(c);
    }
    NoFinishAppend(Flatten(c.past.closed), c.past.open);
    NoFinishNoLastBuf(Log(c));
  }
}
