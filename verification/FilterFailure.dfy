/**
 * Why a request fails: the failure that is reported names what went wrong, and nothing else fails a request.
 */
module FilterFailure {
  import opened Wrappers
  import opened Progress
  import opened Codec
  import opened OutputPool
  import opened Stream
  import opened Transcript
  import opened Filter
  import opened FilterRuns
  import opened FilterWork

  /** In state `s` the codec answers some call with an error, or with a report that breaks a rule. */
  ghost predicate Misbehaves<S>(step: StepFn<S>, limits: Limits, s: S, reports: bool) {
    exists operation, offered: seq<byte> ::
      var r := step(s, operation, offered, limits.bufferSize);
      && r.Stepped? == reports
      && (reports ==>
            exists rule ::
              Breaks(rule, operation, |offered|, limits.bufferSize, StepResult(r.consumed, |r.bytes|, r.state)))
  }

  ghost predicate CausesError<S>(step: StepFn<S>, limits: Limits, s: S, p: Pool, error: DriveError) {
    match error
    case StepFailed(CodecBackend) => Misbehaves(step, limits, s, false)
    case StepFailed(InvalidProgress(_)) => Misbehaves(step, limits, s, true)
    case OutputFailed(Allocation) => p.memory == 0
    case OutputFailed(Exhausted) => !HasRoom(limits, p)
  }

  /** The context's codec is where its log has brought it, and no buffer is lost. */
  ghost predicate Follows<S>(step: StepFn<S>, limits: Limits, start: S, c: Ctx<S>) {
    c.codec == StateAfter(step, start, Log(c)) && PoolOk(limits, c.pool)
  }

  /** What has to be the case for a failure to be reported. */
  ghost predicate Causes<S>(step: StepFn<S>, limits: Limits, start: S, c: Ctx<S>, failure: CompressionFailure) {
    match failure
    case CodecFailed => Misbehaves(step, limits, StateAfter(step, start, Log(c)), false)
    case InvalidCodecProgress => Misbehaves(step, limits, StateAfter(step, start, Log(c)), true)
    case OutputAllocation => c.pool.memory == 0
    case InvalidFfiState => c.input != [] && !c.input[0].sound
  }

  ghost predicate Accounted<S>(step: StepFn<S>, limits: Limits, start: S, r: Served<S>) {
    match r
    case Proceed(c, _) => Follows(step, limits, start, c)
    case Return(c, Failure(failure)) => Causes(step, limits, start, c, failure) && PoolOk(limits, c.pool)
    case Return(c, Success(_)) => Follows(step, limits, start, c)
  }

  // ----- one drive -----

  lemma RejectedMisbehaves<S>(step: StepFn<S>, limits: Limits, s: S, operation: Operation, offered: seq<byte>)
    ensures var r := CheckedStep(step, s, operation, offered, limits.bufferSize);
            r.Rejected? ==> Misbehaves(step, limits, s, r.error.InvalidProgress?)
  {
    var r := step(s, operation, offered, limits.bufferSize);
    if r.Stepped? {
      var result := StepResult(r.consumed, |r.bytes|, r.state);
      PassesIff(operation, |offered|, limits.bufferSize, result);
      hide ValidateProgress, Breaks;
    }
  }

  /** From `base` on, the codec is where the steps have brought it, until a call is rejected in that state. */
  ghost predicate DriveAccounted<S>(step: StepFn<S>, limits: Limits, start: S, base: seq<StepRecord>, d: Drive<S>) {
    var s := StateAfter(step, start, base + d.machine.steps);
    PoolOk(limits, d.machine.pool) &&
    if d.Stopped? && d.result.DriveFailure? then
      && CausesError(step, limits, s, d.machine.pool, d.result.error)
      && (d.result.error == OutputFailed(Exhausted) ==> d.machine.codec == s)
    else
      d.machine.codec == s
  }

  lemma AttemptAccounted<S>(step: StepFn<S>, limits: Limits, m: Machine<S>, operation: Operation, offered: seq<byte>)
    ensures match TryStep(step, limits, m, operation, offered)
            case NoBuffer(failure) => CausesError(step, limits, m.codec, m.pool, OutputFailed(failure))
            case Refused(m', error) =>
              && m'.steps == m.steps && CausesError(step, limits, m.codec, m'.pool, StepFailed(error))
              && (PoolOk(limits, m.pool) ==> PoolOk(limits, m'.pool))
            case Stepped(m', _) => PoolOk(limits, m.pool) ==> PoolOk(limits, m'.pool)
  {
    RejectedMisbehaves(step, limits, m.codec, operation, offered);
    if TryStep(step, limits, m, operation, offered).Stepped? {
      StepDoes(step, limits, m, operation, offered);
    }
    hide CheckedStep, Misbehaves, Emission;
  }

  lemma RoundAccounted<S>(step: StepFn<S>, limits: Limits, start: S, base: seq<StepRecord>, m: Machine<S>,
                          operation: Operation, input: seq<byte>, offset: nat, budget: WorkBudget)
    requires offset <= |input| && m.codec == StateAfter(step, start, base + m.steps) && PoolOk(limits, m.pool)
    ensures DriveAccounted(step, limits, start, base, Round(step, limits, m, operation, input, offset, budget))
  {
    hide StateAfter, CausesError;
    var end := offset + budget.InputLimit(|input| - offset);
    var shown, offered := ShownOperation(operation, input, end), input[offset..end];
    AttemptAccounted(step, limits, m, shown, offered);
    var a := TryStep(step, limits, m, shown, offered);
    if budget.CanStep(offset < |input|) && a.Stepped? {
      var r := RoundTakesStep(step, limits, m, operation, input, offset, budget);
      hide Round;
      AttemptFollows(step, limits, start, base + m.steps, m, shown, offered);
      hide TryStep, DriveFrom;
      assert base + (m.steps + [r]) == (base + m.steps) + [r];
    } else {
      hide TryStep;
    }
  }

  lemma AttemptFollows<S>(step: StepFn<S>, limits: Limits, start: S, log: seq<StepRecord>, m: Machine<S>,
                          operation: Operation, offered: seq<byte>)
    requires m.codec == StateAfter(step, start, log)
    ensures var a := TryStep(step, limits, m, operation, offered);
            a.Stepped? ==> a.machine.codec == StateAfter(step, start, log + [a.record])
  {
    var a := TryStep(step, limits, m, operation, offered);
    if a.Stepped? {
      StepDoes(step, limits, m, operation, offered);
      hide TryStep;
      Snoc(step, start, log, a.record);
    }
  }

  lemma {:induction false} DriveFromAccounted<S>(
      step: StepFn<S>, limits: Limits, start: S, base: seq<StepRecord>, m: Machine<S>, operation: Operation,
      input: seq<byte>, offset: nat, budget: WorkBudget)
    requires offset <= |input| && m.codec == StateAfter(step, start, base + m.steps) && PoolOk(limits, m.pool)
    ensures DriveAccounted(step, limits, start, base, DriveFrom(step, limits, m, operation, input, offset, budget))
    decreases budget.codecSteps
  {
    RoundAccounted(step, limits, start, base, m, operation, input, offset, budget);
    var d := Round(step, limits, m, operation, input, offset, budget);
    hide Round, StateAfter, CausesError;
    if d.Running? {
      DriveFromAccounted(step, limits, start, base, d.machine, operation, input, d.offset, d.budget);
    }
  }

  // ----- one callback -----

  lemma {:induction false} AppendFails<S>(limits: Limits, c: Ctx<S>, chain: seq<InBuf>)
    ensures var (c', failure) := AppendInput(c, chain);
            && Log(c') == Log(c) && c'.codec == c.codec
            && (PoolOk(limits, c.pool) ==> PoolOk(limits, c'.pool))
            && (failure.Some? ==> failure == Some(OutputAllocation) && c'.pool.memory == 0)
    decreases |chain|
  {
    if chain != [] {
      hide Queued;
      if Queued(c.input, chain[0].addr) {
        AppendFails(limits, c, chain[1..]);
      } else if c.pool.memory > 0 {
        AppendFails(limits, Enqueue(c, chain[0]), chain[1..]);
      }
    }
  }

  lemma DriveCtxAccounted<S>(step: StepFn<S>, limits: Limits, start: S, c: Ctx<S>, operation: Operation,
                             bytes: seq<byte>, budget: WorkBudget)
    requires Follows(step, limits, start, c)
    ensures var d := DriveCtx(step, limits, c, operation, bytes, budget);
            var c' := Absorb(c, d.machine);
            && PoolOk(limits, c'.pool)
            && (d.result.DriveFailure? ==>
                  CausesError(step, limits, StateAfter(step, start, Log(c')), c'.pool, d.result.error))
            && (d.result.Outcome? || d.result.error == OutputFailed(Exhausted) ==> Follows(step, limits, start, c'))
  {
    var base := Flatten(c.past.closed);
    hide DriveFrom, StateAfter, CausesError;
    DriveFromAccounted(step, limits, start, base, Machine(c.codec, c.pool, c.past.open), operation, bytes, 0, budget);
  }

  lemma ResumeAccounted<S>(step: StepFn<S>, limits: Limits, start: S, c: Ctx<S>, budget: WorkBudget)
    requires Follows(step, limits, start, c)
    ensures Accounted(step, limits, start, Resume(step, limits, c, budget))
  {
    hide DriveCtx, StateAfter, Misbehaves, HasRoom;
    if c.pending.Some? {
      DriveCtxAccounted(step, limits, start, c, c.pending.value, [], budget);
      var d := DriveCtx(step, limits, c, c.pending.value, [], budget);
      ClosingKeepsLog(Absorb(c, d.machine));
    }
  }

  lemma ServeHeadAccounted<S>(step: StepFn<S>, limits: Limits, start: S, c: Ctx<S>, budget: WorkBudget)
    requires c.input != [] && Follows(step, limits, start, c)
    ensures Accounted(step, limits, start, ServeHead(step, limits, c, budget))
  {
    assert PoolOk(limits, c.pool);
    hide DriveCtx, StateAfter, Misbehaves, HasRoom, Log, Consumed, Flatten, Follows, PoolOk;
    var head := c.input[0];
    if head.sound {
      DriveCtxAccounted(step, limits, start, c, head.operation, head.bytes, budget);
      DriveWork(step, limits, c, head.operation, head.bytes, budget);
      var d := DriveCtx(step, limits, c, head.operation, head.bytes, budget);
      SettlingKeepsLog(c, d);
      SettleAccounted(step, limits, start, c, d);
      hide Settle;
    }
  }

  lemma SettleAccounted<S>(step: StepFn<S>, limits: Limits, start: S, c: Ctx<S>, d: Drive<S>)
    requires c.input != [] && d.Stopped? && d.result.consumed <= |c.input[0].bytes|
    requires d.result.Outcome? && d.result.state != BudgetExhausted ==> d.result.consumed == |c.input[0].bytes|
    requires Log(Settle(c, d).ctx) == Log(Absorb(c, d.machine))
    requires var c' := Absorb(c, d.machine);
             && PoolOk(limits, c'.pool)
             && (d.result.DriveFailure? ==>
                   CausesError(step, limits, StateAfter(step, start, Log(c')), c'.pool, d.result.error))
             && (d.result.Outcome? || d.result.error == OutputFailed(Exhausted) ==> Follows(step, limits, start, c'))
    ensures Accounted(step, limits, start, Settle(c, d))
  {
    hide StateAfter, Misbehaves, HasRoom, Log;
  }

  lemma {:induction false} ServeQueueAccounted<S>(step: StepFn<S>, limits: Limits, start: S, c: Ctx<S>,
                                                  budget: WorkBudget)
    requires Follows(step, limits, start, c)
    ensures Accounted(step, limits, start, ServeQueue(step, limits, c, budget))
    decreases |c.input|
  {
    if c.input != [] {
      ServeHeadAccounted(step, limits, start, c, budget);
      var r := ServeHead(step, limits, c, budget);
      hide ServeHead, Follows, Causes;
      if r.Proceed? {
        ServeQueueAccounted(step, limits, start, r.ctx, r.budget);
      }
    }
  }

  /**
   * When a callback fails, its failure says why: the codec, in the state its log has brought it to, can answer a
   * call with an error, or with a report that breaks a rule; or there is no memory left; or the buffer at the head
   * of the queue has its positions crossed. For every codec; and no output buffer is lost by failing.
   */
  lemma FailureNamesItsCause<S>(step: StepFn<S>, limits: Limits, start: S, c: Ctx<S>, chain: seq<InBuf>)
    requires Follows(step, limits, start, c)
    ensures var r := Compress(step, limits, c, chain);
            && PoolOk(limits, r.ctx.pool)
            && match r.result
               case Failure(CodecFailed) => Misbehaves(step, limits, StateAfter(step, start, Log(r.ctx)), false)
               case Failure(InvalidCodecProgress) => Misbehaves(step, limits, StateAfter(step, start, Log(r.ctx)), true)
               case Failure(OutputAllocation) => r.ctx.pool.memory == 0
               case Failure(InvalidFfiState) => r.ctx.input != [] && !r.ctx.input[0].sound
               case Success(_) => Follows(step, limits, start, r.ctx)
  {
    AppendFails(limits, c, chain);
    var (c', failure) := AppendInput(c, chain);
    hide AppendInput, ServeQueue, Log, StateAfter, Misbehaves, Resume;
    if failure == None {
      ResumeAccounted(step, limits, start, c', PER_CALLBACK);
      var r := Resume(step, limits, c', PER_CALLBACK);
      if r.Proceed? {
        ServeQueueAccounted(step, limits, start, r.ctx, r.budget);
      }
    }
  }

  /** Every request is in this case, whatever has happened to it. */
  lemma {:induction false} RunFollows<S>(
      step: StepFn<S>, limits: Limits, codec: S, memory: nat, others: set<nat>, events: seq<Event>)
    ensures var w := Run(step, limits, Start(codec, memory, others), events);
            !w.failed ==> Follows(step, limits, codec, w.ctx)
  {
    RunKeeps(step, limits, codec, memory, others, events);
    hide Run;
  }
}
