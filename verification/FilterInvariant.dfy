/**
 * What every callback keeps, for every codec: byte conservation, the boundary discipline,
 * the pool limit, the order of the emitted packets, and who owns the next wakeup.
 */
module FilterInvariant {
  import opened Wrappers
  import opened Progress
  import opened Codec
  import opened OutputPool
  import opened Stream
  import opened Transcript
  import opened Filter

  /** Where the request stands: every buffer before `n` is done with, buffer `n` is underway. */
  ghost predicate Standing<S>(c: Ctx<S>) {
    var n := |c.past.closed|;
    var arrived := c.past.arrived;
    if c.done then
      && c.pending == None && c.input == [] && c.past.open == []
      && 0 < n <= |arrived|
      && arrived[n - 1].operation == Finish
      && Completes(c.past.closed[n - 1], Finish)
    else if c.pending.Some? then
      && |arrived| == n + 1 + |c.input|
      && arrived[n + 1..] == c.input
      && c.pending.value == arrived[n].operation
      && Underway(c.past.open, arrived[n].bytes, arrived[n].operation, [])
    else if c.input != [] then
      && |arrived| == n + |c.input|
      && arrived[n + 1..] == c.input[1..]
      && c.input[0] == arrived[n].(bytes := c.input[0].bytes)
      && Underway(c.past.open, arrived[n].bytes, arrived[n].operation, c.input[0].bytes)
      && Covered(c.past.open, arrived[n].operation, c.input[0].bytes, PER_CALLBACK.inputBytes)
    else
      && |arrived| == n
      && c.past.open == []
  }

  /** A closed buffer was taken whole; it completed a finish only if it was the last one. */
  ghost predicate BuffersClosed(past: Past, done: bool) {
    && |past.closed| <= |past.arrived|
    && forall k :: 0 <= k < |past.closed| ==>
         && Closed(past.closed[k], past.arrived[k].bytes, past.arrived[k].operation)
         && (Completes(past.closed[k], Finish) ==> done && k == |past.closed| - 1)
  }

  ghost predicate DistinctAddresses(input: seq<InBuf>) {
    forall i, j :: 0 <= i < j < |input| ==> input[i].addr != input[j].addr
  }

  ghost predicate Inv<S>(step: StepFn<S>, limits: Limits, start: S, c: Ctx<S>) {
    && Sound(step, limits, start, Flatten(c.past.closed), c.past.handed, Machine(c.codec, c.pool, c.past.open))
    && BuffersClosed(c.past, c.done)
    && Standing(c)
    && DistinctAddresses(c.input)
  }

  /** Work remains exactly when a buffer is queued or an operation is pending. */
  predicate HasWork<S>(c: Ctx<S>) {
    c.input != [] || c.pending.Some?
  }

  // ----- arrivals -----

  lemma EnqueueStands<S>(c: Ctx<S>, b: InBuf)
    requires Standing(c) && !c.done && c.pool.memory > 0
    ensures Standing(Enqueue(c, b))
  {
    var n := |c.past.closed|;
    var c' := Enqueue(c, b);
    assert c'.past.open == c.past.open;
    if c.pending.Some? || c.input != [] {
      assert c'.past.arrived[n] == c.past.arrived[n];
      assert c'.past.arrived[n + 1..] == c.past.arrived[n + 1..] + [b];
      if c.input != [] {
        assert c'.input[0] == c.input[0];
        assert c'.input[1..] == c.input[1..] + [b];
      }
    } else {
      assert c'.past.arrived[n] == b && c'.input == [b];
      assert Consumed([]) + b.bytes == b.bytes;
    }
  }

  lemma EnqueueKeeps<S>(step: StepFn<S>, limits: Limits, start: S, c: Ctx<S>, b: InBuf)
    requires Inv(step, limits, start, c) && !c.done
    requires c.pool.memory > 0 && !Queued(c.input, b.addr)
    ensures Inv(step, limits, start, Enqueue(c, b))
  {
    EnqueueStands(c, b);
    hide Standing, Genuine, Packets, StateAfter, Flatten, Closed, Completes;
  }

  lemma {:induction false} AppendInputKeeps<S>(step: StepFn<S>, limits: Limits, start: S, c: Ctx<S>, chain: seq<InBuf>)
    requires Inv(step, limits, start, c) && !c.done
    ensures var r := AppendInput(c, chain);
            && Inv(step, limits, start, r.0) && !r.0.done
            && r.0.past.handed == c.past.handed && r.0.past.closed == c.past.closed
    decreases |chain|
  {
    if chain != [] {
      var b := chain[0];
      if Queued(c.input, b.addr) {
        AppendInputKeeps(step, limits, start, c, chain[1..]);
      } else if c.pool.memory > 0 {
        EnqueueKeeps(step, limits, start, c, b);
        AppendInputKeeps(step, limits, start, Enqueue(c, b), chain[1..]);
      }
    }
  }

  /** Once append_input succeeds, every buffer of the chain is in the queue. */
  lemma {:induction false} AppendInputQueues<S>(c: Ctx<S>, chain: seq<InBuf>, addr: nat)
    ensures var r := AppendInput(c, chain);
            && c.input <= r.0.input
            && (Queued(c.input, addr) ==> Queued(r.0.input, addr))
            && (r.1 == None && (exists b :: b in chain && b.addr == addr) ==> Queued(r.0.input, addr))
    decreases |chain|
  {
    if chain != [] {
      if Queued(c.input, chain[0].addr) {
        AppendInputQueues(c, chain[1..], addr);
      } else if c.pool.memory > 0 {
        var c' := Enqueue(c, chain[0]);
        assert c'.input[|c.input|].addr == chain[0].addr;
        if Queued(c.input, addr) {
          var i :| 0 <= i < |c.input| && c.input[i].addr == addr;
          assert c'.input[i].addr == addr;
        }
        AppendInputQueues(c', chain[1..], addr);
      }
    }
  }

  // ----- one buffer -----

  lemma RoundBudget<S>(step: StepFn<S>, limits: Limits, m: Machine<S>, operation: Operation, input: seq<byte>,
                       offset: nat, budget: WorkBudget)
    requires offset <= |input|
    ensures var d := Round(step, limits, m, operation, input, offset, budget);
            var at := if d.Running? then d.offset else d.result.consumed;
            && offset <= at <= |input|
            && d.budget.inputBytes == budget.inputBytes - (at - offset)
            && d.machine.pool.busy == m.pool.busy
            && m.steps <= d.machine.steps
            && |d.machine.steps| - |m.steps| == budget.codecSteps - d.budget.codecSteps
            && (d.Stopped? && d.result.DriveFailure? ==> 0 < d.budget.codecSteps && d.budget == budget)
  {
  }

  /** A drive spends exactly one unit of the budget on each accepted step and each byte taken;
      a step the contract refuses still finds a unit left for it. */
  lemma {:induction false} DriveBudget<S>(
      step: StepFn<S>, limits: Limits, m: Machine<S>, operation: Operation, input: seq<byte>, offset: nat,
      budget: WorkBudget)
    requires offset <= |input|
    ensures var d := DriveFrom(step, limits, m, operation, input, offset, budget);
            && offset <= d.result.consumed <= |input|
            && d.budget.inputBytes == budget.inputBytes - (d.result.consumed - offset)
            && d.machine.pool.busy == m.pool.busy
            && m.steps <= d.machine.steps
            && |d.machine.steps| - |m.steps| == budget.codecSteps - d.budget.codecSteps
            && (d.result.DriveFailure? ==> 0 < d.budget.codecSteps)
    decreases budget.codecSteps
  {
    RoundBudget(step, limits, m, operation, input, offset, budget);
    var d := Round(step, limits, m, operation, input, offset, budget);
    if d.Running? {
      DriveBudget(step, limits, d.machine, operation, input, d.offset, d.budget);
    }
  }

  lemma OneMoreClosed(past: Past, done: bool)
    requires BuffersClosed(past, false) && |past.closed| < |past.arrived|
    requires var b := past.arrived[|past.closed|];
             && Closed(past.open, b.bytes, b.operation)
             && (done <==> b.operation == Finish && Completes(past.open, Finish))
    ensures BuffersClosed(past.(closed := past.closed + [past.open], open := []), done)
  {
    assert Completes(past.open, Finish) ==> past.arrived[|past.closed|].operation == Finish;
    hide Presents, Closes, Completes;
  }

  lemma NothingShownYet(bytes: seq<byte>, operation: Operation)
    ensures Underway([], bytes, operation, bytes)
  {
    assert Consumed([]) + bytes == bytes;
  }

  /** Closing the buffer underway moves the request on to the next one. */
  lemma CloseKeeps<S>(step: StepFn<S>, limits: Limits, start: S, c: Ctx<S>)
    requires Sound(step, limits, start, Flatten(c.past.closed), c.past.handed, Machine(c.codec, c.pool, c.past.open))
    requires BuffersClosed(c.past, false)
    requires c.pending == None
    requires |c.past.closed| < |c.past.arrived|
    requires var b := c.past.arrived[|c.past.closed|];
             && Closed(c.past.open, b.bytes, b.operation)
             && (c.done <==> b.operation == Finish && Completes(c.past.open, Finish))
    requires c.input == if c.done then [] else c.past.arrived[|c.past.closed| + 1..]
    requires DistinctAddresses(c.input)
    ensures Inv(step, limits, start, CloseBuffer(c))
  {
    OneMoreClosed(c.past, c.done);
    ClosedIsSound(step, limits, start, c);
    ClosedStands(c);
    hide Sound, Standing, Closed, BuffersClosed, Completes;
  }

  lemma ClosedIsSound<S>(step: StepFn<S>, limits: Limits, start: S, c: Ctx<S>)
    requires Sound(step, limits, start, Flatten(c.past.closed), c.past.handed, Machine(c.codec, c.pool, c.past.open))
    ensures var c' := CloseBuffer(c);
            Sound(step, limits, start, Flatten(c'.past.closed), c'.past.handed,
                  Machine(c'.codec, c'.pool, c'.past.open))
  {
    FlattenSnoc(c.past.closed, c.past.open);
    hide Flatten, Genuine, Packets, StateAfter, FullBuffers;
    var parts := c.past.closed + [c.past.open];
    assert Flatten(parts) + [] == Flatten(c.past.closed) + c.past.open;
  }

  lemma ClosedStands<S>(c: Ctx<S>)
    requires c.pending == None
    requires |c.past.closed| < |c.past.arrived|
    requires var b := c.past.arrived[|c.past.closed|];
             c.done <==> b.operation == Finish && Completes(c.past.open, Finish)
    requires c.input == if c.done then [] else c.past.arrived[|c.past.closed| + 1..]
    ensures Standing(CloseBuffer(c))
  {
    hide Completes;
    var c' := CloseBuffer(c);
    if !c.done && c.input != [] {
      var n := |c'.past.closed|;
      assert c.input[0] == c.past.arrived[n];
      NothingShownYet(c.input[0].bytes, c.input[0].operation);
      hide Underway;
      assert c'.past.arrived[n + 1..] == c.input[1..];
    }
  }

  /** What a turn of the filter leaves behind, for any codec. */
  ghost predicate ServedOk<S>(step: StepFn<S>, limits: Limits, start: S, budget: WorkBudget, r: Served<S>) {
    match r
    case Proceed(c, left) =>
      && Inv(step, limits, start, c)
      && !c.done && c.pending == None
      && left.inputBytes <= budget.inputBytes
      && c.past.open == []
    case Return(c, result) =>
      result.Success? ==> Inv(step, limits, start, c) && (result.value <==> HasWork(c))
  }

  lemma ResumeKeeps<S>(step: StepFn<S>, limits: Limits, start: S, c: Ctx<S>, budget: WorkBudget)
    requires Inv(step, limits, start, c) && !c.done && c.pending.Some?
    ensures ServedOk(step, limits, start, budget, Resume(step, limits, c, budget))
  {
    hide Presents, Genuine, Packets, StateAfter, Flatten, Completes, Closes, DriveFrom;
    var b := c.past.arrived[|c.past.closed|];
    var m := Machine(c.codec, c.pool, c.past.open);
    var base := Flatten(c.past.closed);
    var none: seq<byte> := [];
    assert none[0..] == [];
    DriveKeeps(step, limits, start, base, c.past.handed, b.bytes, m, b.operation, [], 0, budget);
    DriveBudget(step, limits, m, b.operation, [], 0, budget);
    var d := DriveCtx(step, limits, c, b.operation, [], budget);
    var c' := Absorb(c, d.machine);
    if d.result.Outcome? && d.result.state != BudgetExhausted {
      var finished := d.result.state == Finished;
      var c'' := c'.(done := finished, pending := None, input := if finished then [] else c.input);
      CloseKeeps(step, limits, start, c'');
    } else if d.result.Outcome? || d.result.error.OutputFailed? {
      assert Standing(c');
    }
  }

  /** A drive that stops short leaves its buffer at the head of the queue, or its operation pending. */
  lemma PauseKeeps<S>(step: StepFn<S>, limits: Limits, start: S, c: Ctx<S>, c': Ctx<S>, consumed: nat)
    requires Inv(step, limits, start, c) && !c.done && c.pending == None && c.input != []
    requires consumed <= |c.input[0].bytes|
    requires var b := c.input[0];
             && c' == c.(codec := c'.codec, pool := c'.pool,
                         past := c.past.(open := c'.past.open),
                         input := ConsumeHead(c.input, consumed),
                         pending := if consumed == |b.bytes| then Some(b.operation) else None)
             && Sound(step, limits, start, Flatten(c.past.closed), c.past.handed,
                      Machine(c'.codec, c'.pool, c'.past.open))
             && Underway(c'.past.open, c.past.arrived[|c.past.closed|].bytes, b.operation, b.bytes[consumed..])
             && Covered(c'.past.open, b.operation, b.bytes[consumed..], PER_CALLBACK.inputBytes)
    ensures Inv(step, limits, start, c') && HasWork(c')
  {
    hide Genuine, Packets, StateAfter, Flatten, Presents, Closes, Completes, Closed, Consumed;
    var n := |c.past.closed|;
    var b := c.input[0];
    if consumed == |b.bytes| {
      assert b.bytes[consumed..] == [];
      assert c'.input == c.input[1..];
    } else {
      assert c'.input[1..] == c.input[1..];
    }
    assert Standing(c');
  }

  lemma SettleClosed<S>(step: StepFn<S>, limits: Limits, start: S, c: Ctx<S>, d: Drive<S>) returns (c': Ctx<S>)
    requires Inv(step, limits, start, c) && !c.done && c.pending == None && c.input != []
    requires d.Stopped? && d.result.Outcome? && d.result.state != BudgetExhausted
    requires DriveOk(step, limits, start, Flatten(c.past.closed), c.past.handed,
                     c.past.arrived[|c.past.closed|].bytes, c.input[0].operation, c.input[0].bytes, d)
    ensures Settle(c, d) == if c'.done then Return(c', Success(false)) else Proceed(c', d.budget)
    ensures Inv(step, limits, start, c') && c'.pending == None && c'.past.open == []
  {
    hide Sound, Presents, Closes, Genuine, Flatten, Consumed;
    var left := ConsumeHead(c.input, d.result.consumed);
    assert left == c.input[1..];
    var finished := d.result.state == Finished;
    var closing := Absorb(c, d.machine).(done := finished, input := if finished then [] else left);
    CloseKeeps(step, limits, start, closing);
    c' := CloseBuffer(closing);
  }

  lemma SettlePaused<S>(step: StepFn<S>, limits: Limits, start: S, c: Ctx<S>, d: Drive<S>)
    requires Inv(step, limits, start, c) && !c.done && c.pending == None && c.input != []
    requires d.Stopped? && d.result.consumed <= |c.input[0].bytes|
    requires d.result == Outcome(d.result.consumed, BudgetExhausted)
          || d.result == DriveFailure(d.result.consumed, OutputFailed(Exhausted))
    requires d.budget.inputBytes <= PER_CALLBACK.inputBytes
    requires DriveOk(step, limits, start, Flatten(c.past.closed), c.past.handed,
                     c.past.arrived[|c.past.closed|].bytes, c.input[0].operation, c.input[0].bytes, d)
    ensures var r := Settle(c, d);
            r.Return? && r.result == Success(true) && Inv(step, limits, start, r.ctx) && HasWork(r.ctx)
  {
    PauseKeeps(step, limits, start, c, Settle(c, d).ctx, d.result.consumed);
  }

  /** Whatever a drive of the head comes to, settling it keeps the invariant. */
  lemma SettleKeeps<S>(step: StepFn<S>, limits: Limits, start: S, c: Ctx<S>, budget: WorkBudget, d: Drive<S>)
    requires Inv(step, limits, start, c) && !c.done && c.pending == None && c.input != []
    requires d.Stopped? && d.result.consumed <= |c.input[0].bytes|
    requires d.budget.inputBytes <= budget.inputBytes <= PER_CALLBACK.inputBytes
    requires DriveOk(step, limits, start, Flatten(c.past.closed), c.past.handed,
                     c.past.arrived[|c.past.closed|].bytes, c.input[0].operation, c.input[0].bytes, d)
    ensures ServedOk(step, limits, start, budget, Settle(c, d))
  {
    hide Inv, DriveOk, CloseBuffer, ConsumeHead;
    if d.result.Outcome? && d.result.state != BudgetExhausted {
      var c' := SettleClosed(step, limits, start, c, d);
    } else if d.result.Outcome? || d.result.error == OutputFailed(Exhausted) {
      SettlePaused(step, limits, start, c, d);
    }
  }

  lemma ServeHeadKeeps<S>(step: StepFn<S>, limits: Limits, start: S, c: Ctx<S>, budget: WorkBudget)
    requires Inv(step, limits, start, c) && !c.done && c.pending == None && c.input != []
    requires budget.inputBytes <= PER_CALLBACK.inputBytes
    requires Covered(c.past.open, c.input[0].operation, c.input[0].bytes, budget.inputBytes)
    ensures ServedOk(step, limits, start, budget, ServeHead(step, limits, c, budget))
  {
    var head := c.input[0];
    var b := c.past.arrived[|c.past.closed|];
    var m := Machine(c.codec, c.pool, c.past.open);
    assert head.bytes[0..] == head.bytes;
    DriveKeeps(step, limits, start, Flatten(c.past.closed), c.past.handed, b.bytes, m, head.operation, head.bytes,
               0, budget);
    DriveBudget(step, limits, m, head.operation, head.bytes, 0, budget);
    if head.sound {
      SettleKeeps(step, limits, start, c, budget, DriveCtx(step, limits, c, head.operation, head.bytes, budget));
    }
  }

  /** The exit for a buffer left half consumed without a stop cannot be taken. */
  lemma NoHalfConsumedBuffer<S>(step: StepFn<S>, limits: Limits, start: S, c: Ctx<S>, budget: WorkBudget)
    requires Inv(step, limits, start, c) && !c.done && c.pending == None && c.input != []
    requires Covered(c.past.open, c.input[0].operation, c.input[0].bytes, budget.inputBytes)
    ensures var d := DriveCtx(step, limits, c, c.input[0].operation, c.input[0].bytes, budget);
            && d.result.consumed <= |c.input[0].bytes|
            && (d.result.Outcome? && d.result.consumed < |c.input[0].bytes| ==> d.result.state == BudgetExhausted)
  {
    var head := c.input[0];
    var b := c.past.arrived[|c.past.closed|];
    assert head.bytes[0..] == head.bytes;
    DriveKeeps(step, limits, start, Flatten(c.past.closed), c.past.handed, b.bytes,
               Machine(c.codec, c.pool, c.past.open), head.operation, head.bytes, 0, budget);
  }

  // ----- one callback -----

  lemma {:induction false} ServeQueueKeeps<S>(step: StepFn<S>, limits: Limits, start: S, c: Ctx<S>, budget: WorkBudget)
    requires Inv(step, limits, start, c) && !c.done && c.pending == None
    requires budget.inputBytes <= PER_CALLBACK.inputBytes
    requires c.input != [] ==> Covered(c.past.open, c.input[0].operation, c.input[0].bytes, budget.inputBytes)
    ensures ServedOk(step, limits, start, budget, ServeQueue(step, limits, c, budget))
    decreases |c.input|
  {
    if c.input != [] {
      ServeHeadKeeps(step, limits, start, c, budget);
      var r := ServeHead(step, limits, c, budget);
      if r.Proceed? {
        ServeQueueKeeps(step, limits, start, r.ctx, r.budget);
      }
    }
  }

  lemma CompressKeeps<S>(step: StepFn<S>, limits: Limits, start: S, c: Ctx<S>, chain: seq<InBuf>)
    requires Inv(step, limits, start, c) && !c.done
    ensures ServedOk(step, limits, start, PER_CALLBACK, Compress(step, limits, c, chain))
  {
    AppendInputKeeps(step, limits, start, c, chain);
    var (c', failure) := AppendInput(c, chain);
    if failure == None {
      if c'.pending.Some? {
        ResumeKeeps(step, limits, start, c', PER_CALLBACK);
      }
      var r := Resume(step, limits, c', PER_CALLBACK);
      if r.Proceed? {
        ServeQueueKeeps(step, limits, start, r.ctx, r.budget);
      }
    }
  }

  lemma HandOverKeeps<S>(step: StepFn<S>, limits: Limits, start: S, c: Ctx<S>, left: nat -> nat)
    requires Inv(step, limits, start, c)
    ensures Inv(step, limits, start, HandOver(c, left))
    ensures HandOver(c, left).past.handed == c.past.handed + c.pool.out
    ensures HandOver(c, left).pool.out == []
  {
    hide Genuine, Packets, StateAfter, Flatten, Underway, Completes, Closed, Send, Spent;
    var c' := HandOver(c, left);
    assert c'.past.handed + [] == c.past.handed + c.pool.out;
    PoolSteps(limits, c.pool, [], left);
    assert Standing(c');
  }
}
