/**
 * How much one callback may do, and who wakes the request up again. For every codec.
 */
module FilterWork {
  import opened Wrappers
  import opened Progress
  import opened Codec
  import opened OutputPool
  import opened Stream
  import opened Transcript
  import opened Filter
  import opened FilterInvariant
  import opened FilterRuns

  // ----- the work budget -----

  lemma {:induction false} DriveTaken<S>(
      step: StepFn<S>, limits: Limits, m: Machine<S>, operation: Operation, input: seq<byte>, offset: nat,
      budget: WorkBudget)
    requires offset <= |input|
    ensures var d := DriveFrom(step, limits, m, operation, input, offset, budget);
            |Consumed(d.machine.steps)| == |Consumed(m.steps)| + (d.result.consumed - offset)
    decreases budget.codecSteps
  {
    var end := offset + budget.InputLimit(|input| - offset);
    var shown := ShownOperation(operation, input, end);
    if budget.CanStep(offset < |input|) && TryStep(step, limits, m, shown, input[offset..end]).Stepped? {
      var r := RoundTakesStep(step, limits, m, operation, input, offset, budget);
      ConsumedMore(m.steps, r);
      var d := Round(step, limits, m, operation, input, offset, budget);
      hide Round, TryStep, Consumed;
      if d.Running? {
        DriveTaken(step, limits, d.machine, operation, input, d.offset, d.budget);
      }
    } else {
      RoundWithoutStep(step, limits, m, operation, input, offset, budget);
      RoundBudget(step, limits, m, operation, input, offset, budget);
    }
  }

  lemma ConsumedMore(log: seq<StepRecord>, r: StepRecord)
    requires r.consumed <= |r.offered|
    ensures |Consumed(log + [r])| == |Consumed(log)| + r.consumed
  {
    assert (log + [r])[..|log|] == log;
  }

  /** A failure that a codec call caused: that call is not in the log, but it was made. */
  predicate Refusal(result: Pending) {
    result == Failure(CodecFailed) || result == Failure(InvalidCodecProgress)
  }

  /** `r` spent no more than `budget`, starting from `c`; a refused call is paid for too. */
  ghost predicate WithinBudget<S>(c: Ctx<S>, budget: WorkBudget, r: Served<S>) {
    var left := if r.Proceed? then r.budget else WorkBudget(0, 0);
    && |Log(c)| <= |Log(r.ctx)|
    && |Log(r.ctx)| - |Log(c)| + left.codecSteps <= budget.codecSteps
    && |Consumed(Log(r.ctx))| - |Consumed(Log(c))| + left.inputBytes <= budget.inputBytes
    && (r.Return? && Refusal(r.result) ==> |Log(r.ctx)| - |Log(c)| < budget.codecSteps)
  }

  lemma ClosingKeepsLog<S>(c: Ctx<S>)
    ensures Log(CloseBuffer(c)) == Log(c)
  {
    FlattenSnoc(c.past.closed, c.past.open);
  }

  lemma DriveWork<S>(step: StepFn<S>, limits: Limits, c: Ctx<S>, operation: Operation, bytes: seq<byte>,
                     budget: WorkBudget)
    ensures var d := DriveCtx(step, limits, c, operation, bytes, budget);
            var c' := Absorb(c, d.machine);
            && |Log(c')| - |Log(c)| == budget.codecSteps - d.budget.codecSteps >= 0
            && |Consumed(Log(c'))| - |Consumed(Log(c))| == budget.inputBytes - d.budget.inputBytes >= 0
            && d.result.consumed <= |bytes|
            && (d.result.DriveFailure? ==> 0 < d.budget.codecSteps)
            && (d.result.Outcome? && d.result.state != BudgetExhausted ==> d.result.consumed == |bytes|)
    {
      var m := Machine(c.codec, c.pool, c.past.open);
      var d := DriveCtx(step, limits, c, operation, bytes, budget);
      DriveBudget(step, limits, m, operation, bytes, 0, budget);
      DriveTaken(step, limits, m, operation, bytes, 0, budget);
      ConsumedAppend(Flatten(c.past.closed), c.past.open);
      ConsumedAppend(Flatten(c.past.closed), d.machine.steps);
      EndsOnlyWhenTaken(step, limits, m, operation, bytes, 0, budget);
    }

  /** Every outcome other than a budget stop has consumed the whole input. */
  lemma {:induction false} EndsOnlyWhenTaken<S>(
      step: StepFn<S>, limits: Limits, m: Machine<S>, operation: Operation, input: seq<byte>, offset: nat,
      budget: WorkBudget)
    requires offset <= |input|
    ensures var d := DriveFrom(step, limits, m, operation, input, offset, budget);
            d.result.Outcome? && d.result.state != BudgetExhausted ==> d.result.consumed == |input|
    decreases budget.codecSteps
  {
    var end := offset + budget.InputLimit(|input| - offset);
    var shown := ShownOperation(operation, input, end);
    if budget.CanStep(offset < |input|) && TryStep(step, limits, m, shown, input[offset..end]).Stepped? {
      var r := RoundTakesStep(step, limits, m, operation, input, offset, budget);
      var d := Round(step, limits, m, operation, input, offset, budget);
      if d.Running? {
        EndsOnlyWhenTaken(step, limits, d.machine, operation, input, d.offset, d.budget);
      }
    } else {
      RoundWithoutStep(step, limits, m, operation, input, offset, budget);
    }
  }

  lemma ResumeWork<S>(step: StepFn<S>, limits: Limits, c: Ctx<S>, budget: WorkBudget)
    ensures WithinBudget(c, budget, Resume(step, limits, c, budget))
  {
    if c.pending.Some? {
      DriveWork(step, limits, c, c.pending.value, [], budget);
      var d := DriveCtx(step, limits, c, c.pending.value, [], budget);
      ClosingKeepsLog(Absorb(c, d.machine));
      assert Log(Resume(step, limits, c, budget).ctx) == Log(Absorb(c, d.machine));
    }
  }

  lemma ServeHeadWork<S>(step: StepFn<S>, limits: Limits, c: Ctx<S>, budget: WorkBudget)
    requires c.input != []
    ensures WithinBudget(c, budget, ServeHead(step, limits, c, budget))
  {
    hide DriveFrom, Log, Consumed;
    var head := c.input[0];
    DriveWork(step, limits, c, head.operation, head.bytes, budget);
    var d := DriveCtx(step, limits, c, head.operation, head.bytes, budget);
    if head.sound {
      SettlingKeepsLog(c, d);
      hide Absorb, ConsumeHead;
    }
  }

  lemma SettlingKeepsLog<S>(c: Ctx<S>, d: Drive<S>)
    requires c.input != [] && d.Stopped? && d.result.consumed <= |c.input[0].bytes|
    ensures Log(Settle(c, d).ctx) == Log(Absorb(c, d.machine))
  {
    ClosingKeepsLog(Absorb(c, d.machine));
    hide Flatten, ConsumeHead;
  }

  lemma {:induction false} ServeQueueWork<S>(step: StepFn<S>, limits: Limits, c: Ctx<S>, budget: WorkBudget)
    ensures WithinBudget(c, budget, ServeQueue(step, limits, c, budget))
    decreases |c.input|
  {
    if c.input != [] {
      ServeHeadWork(step, limits, c, budget);
      var r := ServeHead(step, limits, c, budget);
      if r.Proceed? {
        ServeQueueWork(step, limits, r.ctx, r.budget);
      }
    }
  }

  lemma {:induction false} AppendInputWork<S>(c: Ctx<S>, chain: seq<InBuf>)
    ensures Log(AppendInput(c, chain).0) == Log(c)
    decreases |chain|
  {
    if chain != [] {
      if Queued(c.input, chain[0].addr) {
        AppendInputWork(c, chain[1..]);
      } else if c.pool.memory > 0 {
        AppendInputWork(Enqueue(c, chain[0]), chain[1..]);
      }
    }
  }

  /**
   * One callback, resumed operation and all queued buffers together, makes at most 32 codec calls
   * and feeds the codec at most 65536 bytes, whatever the codec answers and however it ends.
   */
  lemma CallbackIsBounded<S>(step: StepFn<S>, limits: Limits, c: Ctx<S>, chain: seq<InBuf>)
    ensures var r := Compress(step, limits, c, chain);
            var calls := |Log(r.ctx)| - |Log(c)| + if Refusal(r.result) then 1 else 0;
            && 0 <= calls <= 32
            && |Consumed(Log(r.ctx))| - |Consumed(Log(c))| <= 65536
  {
    AppendInputWork(c, chain);
    var (c', failure) := AppendInput(c, chain);
    if failure == None {
      ResumeWork(step, limits, c', PER_CALLBACK);
      var r := Resume(step, limits, c', PER_CALLBACK);
      if r.Proceed? {
        ServeQueueWork(step, limits, r.ctx, r.budget);
      }
    }
  }

  // ----- the budget is used -----

  /** The allowance is spent: no step is left, or no byte for a buffer that has more. */
  predicate AllowanceSpent(left: WorkBudget, consumed: nat, available: nat) {
    left.codecSteps == 0 || (left.inputBytes == 0 && consumed < available)
  }

  /** A drive stops for its budget only when that is spent, and for want of a buffer only when there is none. */
  lemma {:induction false} StopsForAReason<S>(
      step: StepFn<S>, limits: Limits, m: Machine<S>, operation: Operation, input: seq<byte>, offset: nat,
      budget: WorkBudget)
    requires offset <= |input|
    ensures var d := DriveFrom(step, limits, m, operation, input, offset, budget);
            && (d.result == Outcome(d.result.consumed, BudgetExhausted) ==>
                  AllowanceSpent(d.budget, d.result.consumed, |input|))
            && (d.result == DriveFailure(d.result.consumed, OutputFailed(Exhausted)) ==>
                  !HasRoom(limits, d.machine.pool))
    decreases budget.codecSteps
  {
    var end := offset + budget.InputLimit(|input| - offset);
    var shown := ShownOperation(operation, input, end);
    if budget.CanStep(offset < |input|) && TryStep(step, limits, m, shown, input[offset..end]).Stepped? {
      var r := RoundTakesStep(step, limits, m, operation, input, offset, budget);
      var d := Round(step, limits, m, operation, input, offset, budget);
      hide TryStep, HasRoom;
      if d.Running? {
        hide Round;
        StopsForAReason(step, limits, d.machine, operation, input, d.offset, d.budget);
      }
    } else {
      RoundWithoutStep(step, limits, m, operation, input, offset, budget);
      hide TryStep, HasRoom;
    }
  }

  /** Going on, `r` has counted all its work against the budget; stopping with work left and a buffer to be had, it
      has used up the steps or the bytes. */
  ghost predicate UsesBudget<S>(limits: Limits, c: Ctx<S>, budget: WorkBudget, r: Served<S>) {
    var steps := |Log(r.ctx)| - |Log(c)|;
    var bytes := |Consumed(Log(r.ctx))| - |Consumed(Log(c))|;
    match r
    case Proceed(_, left) =>
      steps + left.codecSteps == budget.codecSteps && bytes + left.inputBytes == budget.inputBytes
    case Return(c', result) =>
      result == Success(true) && HasRoom(limits, c'.pool) ==> steps == budget.codecSteps || bytes == budget.inputBytes
  }

  lemma ResumeUses<S>(step: StepFn<S>, limits: Limits, c: Ctx<S>, budget: WorkBudget)
    ensures UsesBudget(limits, c, budget, Resume(step, limits, c, budget))
  {
    if c.pending.Some? {
      hide DriveFrom, Consumed, HasRoom;
      DriveWork(step, limits, c, c.pending.value, [], budget);
      StopsForAReason(step, limits, Machine(c.codec, c.pool, c.past.open), c.pending.value, [], 0, budget);
      var d := DriveCtx(step, limits, c, c.pending.value, [], budget);
      ClosingKeepsLog(Absorb(c, d.machine));
      assert Log(Resume(step, limits, c, budget).ctx) == Log(Absorb(c, d.machine));
      hide Log, CloseBuffer;
    }
  }

  lemma ServeHeadUses<S>(step: StepFn<S>, limits: Limits, c: Ctx<S>, budget: WorkBudget)
    requires c.input != []
    ensures UsesBudget(limits, c, budget, ServeHead(step, limits, c, budget))
  {
    hide DriveFrom, Log, Consumed, HasRoom;
    var head := c.input[0];
    DriveWork(step, limits, c, head.operation, head.bytes, budget);
    StopsForAReason(step, limits, Machine(c.codec, c.pool, c.past.open), head.operation, head.bytes, 0, budget);
    var d := DriveCtx(step, limits, c, head.operation, head.bytes, budget);
    if head.sound {
      SettlingKeepsLog(c, d);
      hide Absorb, ConsumeHead;
    }
  }

  lemma {:induction false} ServeQueueUses<S>(step: StepFn<S>, limits: Limits, c: Ctx<S>, budget: WorkBudget)
    ensures UsesBudget(limits, c, budget, ServeQueue(step, limits, c, budget))
    decreases |c.input|
  {
    if c.input != [] {
      ServeHeadUses(step, limits, c, budget);
      var r := ServeHead(step, limits, c, budget);
      hide ServeHead, Log, Consumed, HasRoom;
      if r.Proceed? {
        ServeQueueUses(step, limits, r.ctx, r.budget);
      }
    }
  }

  /**
   * A callback that leaves work behind with a buffer to be had has used its whole allowance: exactly 32 accepted
   * codec steps, or exactly 65536 bytes.
   */
  lemma CallbackUsesItsBudget<S>(step: StepFn<S>, limits: Limits, c: Ctx<S>, chain: seq<InBuf>)
    ensures var r := Compress(step, limits, c, chain);
            r.result == Success(true) && HasRoom(limits, r.ctx.pool) ==>
              || |Log(r.ctx)| - |Log(c)| == 32
              || |Consumed(Log(r.ctx))| - |Consumed(Log(c))| == 65536
  {
    AppendInputWork(c, chain);
    var (c', failure) := AppendInput(c, chain);
    hide AppendInput, ServeQueue, Log, Consumed, HasRoom;
    if failure == None {
      ResumeUses(step, limits, c', PER_CALLBACK);
      var r := Resume(step, limits, c', PER_CALLBACK);
      hide Resume;
      if r.Proceed? {
        ServeQueueUses(step, limits, r.ctx, r.budget);
      }
    }
  }

  // ----- no silent redo -----

  /**
   * With room to write in, a step after which the driver goes on has moved at least one byte: a drive
   * takes at most one step more than the bytes it moved, whatever its step budget and its codec.
   */
  lemma {:induction false} NoSilentRedo<S>(
      step: StepFn<S>, limits: Limits, m: Machine<S>, operation: Operation, input: seq<byte>, offset: nat,
      budget: WorkBudget)
    requires offset <= |input| && limits.bufferSize > 0
    ensures var d := DriveFrom(step, limits, m, operation, input, offset, budget);
            && |d.machine.steps| - |m.steps|
               <= (|Consumed(d.machine.steps)| - |Consumed(m.steps)|)
                + (|Produced(d.machine.steps)| - |Produced(m.steps)|) + 1
            && (d.result.DriveFailure? || d.result.state == BudgetExhausted ==>
                  |d.machine.steps| - |m.steps|
                  <= (|Consumed(d.machine.steps)| - |Consumed(m.steps)|)
                   + (|Produced(d.machine.steps)| - |Produced(m.steps)|))
    decreases budget.codecSteps
  {
    var end := offset + budget.InputLimit(|input| - offset);
    var shown := ShownOperation(operation, input, end);
    var a := TryStep(step, limits, m, shown, input[offset..end]);
    if budget.CanStep(offset < |input|) && a.Stepped? {
      var r := RoundTakesStep(step, limits, m, operation, input, offset, budget);
      assert (m.steps + [r])[..|m.steps|] == m.steps;
      var d := Round(step, limits, m, operation, input, offset, budget);
      if d.Running? {
        ContinuingStepMoves(step, limits, m, operation, input, offset, budget);
        NoSilentRedo(step, limits, d.machine, operation, input, d.offset, d.budget);
      }
    } else {
      RoundWithoutStep(step, limits, m, operation, input, offset, budget);
    }
  }

  lemma ContinuingStepMoves<S>(step: StepFn<S>, limits: Limits, m: Machine<S>, operation: Operation, input: seq<byte>,
                               offset: nat, budget: WorkBudget)
    requires offset <= |input| && limits.bufferSize > 0
    requires Round(step, limits, m, operation, input, offset, budget).Running?
    ensures var end := offset + budget.InputLimit(|input| - offset);
            var a := TryStep(step, limits, m, ShownOperation(operation, input, end), input[offset..end]);
            a.Stepped? && a.record.consumed + |a.record.produced| > 0
  {
  }

  // ----- the next wakeup -----

  /** Downstream is called only when there is something to give it or something it still holds. */
  predicate CallsDownstream<S>(c: Ctx<S>) {
    c.pool.out != [] || c.pool.busy != []
  }

  /**
   * After a callback that succeeds: the connection's bit is this module's exactly when work remains;
   * the other bits are as they were, or as downstream left them; an event is posted only for work
   * nobody else will wake; and remaining work that downstream accepted always has a wakeup, posted
   * or owned by another filter's bit. A failed callback touches no bit.
   */
  lemma WakeupIsOwned<S>(step: StepFn<S>, limits: Limits, start: S, w: World<S>, chain: seq<InBuf>, down: Downstream)
    requires WorldOk(step, limits, start, w) && !w.failed && !w.ctx.done
    ensures var r := Compress(step, limits, w.ctx, chain);
            var w' := Callback(step, limits, w, chain, down);
            && (w'.failed ==> w'.buffered == w.buffered && !w'.posted && w'.status == Error)
            && (!w'.failed ==>
                  && (OurFlag in w'.buffered <==> HasWork(w'.ctx))
                  && (forall n :: OtherFlag(n) in w'.buffered <==>
                        if CallsDownstream(r.ctx) then n in down.others else OtherFlag(n) in w.buffered)
                  && w'.status == (if CallsDownstream(r.ctx) then down.status else Ok)
                  && (w'.posted ==> HasWork(w'.ctx) && w'.status == Ok && w'.buffered == {OurFlag})
                  && (HasWork(w'.ctx) && w'.status == Ok ==>
                        w'.posted || exists n :: OtherFlag(n) in w'.buffered))
  {
    hide Inv, Compress, HandOver;
    CallbackKeeps(step, limits, start, w, chain, down);
    CompressKeeps(step, limits, start, w.ctx, chain);
    var w' := Callback(step, limits, w, chain, down);
    if !w'.failed && HasWork(w'.ctx) && w'.status == Ok && !w'.posted {
      assert w'.buffered != {OurFlag};
      var other :| other in w'.buffered && other != OurFlag;
      assert OtherFlag(other.n) in w'.buffered;
    }
  }

  /** Once the response is done a callback is downstream's alone: its status is returned, its filters set their
      bits, and this module sets none and posts nothing. */
  lemma DoneIsDownstreams<S>(step: StepFn<S>, limits: Limits, start: S, w: World<S>, chain: seq<InBuf>,
                             down: Downstream)
    requires WorldOk(step, limits, start, w) && !w.failed && w.ctx.done
    ensures var w' := Callback(step, limits, w, chain, down);
            && !w'.failed && w'.status == down.status && !w'.posted
            && (forall n :: OtherFlag(n) in w'.buffered <==> n in down.others)
            && OurFlag !in w'.buffered
  {
  }

  /** Downstream's sending between callbacks takes bytes from the packets it holds, and touches nothing else. */
  lemma SendingOnlySends<S>(step: StepFn<S>, limits: Limits, w: World<S>, left: nat -> nat)
    requires !w.failed
    ensures var w' := Next(step, limits, w, Sent(left));
            var busy, busy' := w.ctx.pool.busy, w'.ctx.pool.busy;
            && w' == w.(ctx := w.ctx.(pool := w.ctx.pool.(busy := busy')))
            && |busy'| == |busy|
            && forall i :: 0 <= i < |busy| ==>
                 && busy'[i].packet == busy[i].packet
                 && busy'[i].left <= busy[i].left && busy'[i].left <= left(i)
                 && (busy'[i].left == busy[i].left || busy'[i].left == left(i))
  {
    var busy := w.ctx.pool.busy;
    assert Next(step, limits, w, Sent(left)).ctx.pool.busy == Send(busy, left);
    forall i | 0 <= i < |busy| ensures Send(busy, left)[i] == busy[i].(left := Min(busy[i].left, left(i))) {
    }
    hide Send;
  }

  /** The pool between callbacks: no buffer is lost or in two lists, the limit holds, and a request that
      is out of buffers has every one of them at downstream: something to wait for, if the limit is not 0. */
  lemma {:induction false} NeverStuckOnThePool<S>(step: StepFn<S>, limits: Limits, codec: S, memory: nat,
                                                  others: set<nat>, events: seq<Event>)
    ensures var w := Run(step, limits, Start(codec, memory, others), events);
            var p := w.ctx.pool;
            !w.failed ==>
              && p.free + |p.out| + |p.busy| == p.allocatedBuffers <= limits.bufferCount
              && p.out == []
              && (!HasRoom(limits, p) ==> |p.busy| == limits.bufferCount && (p.busy != [] <==> limits.bufferCount > 0))
  {
    RunKeeps(step, limits, codec, memory, others, events);
  }
}
